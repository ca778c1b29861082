/** The rule list of command_rule.c: compiled rules are cached, dropped when a function is
    unregistered, and compiled again on demand; the cache never shows. */
module CommandRules {
  import opened RuleGrammar
  import opened RuleEval
  import opened RuleTokenizer
  import opened Text

  datatype Verdict = Deny | Allow | Error

  /** What executing a rule text means with the functions registered now. */
  function Judge(funcs: Funcs, text: string, env: Env): Verdict {
    var ts := Tokenize(funcs, text);
    if ts.None? then Error else ToVerdict(Execute(ts.value, env))
  }

  function ToVerdict(res: int): Verdict {
    if res == 1 then Allow else if res == 0 then Deny else Error
  }

  /** An accepted, non-empty rule has an expression, and the verdict is its value. */
  lemma JudgeMeans(funcs: Funcs, text: string, env: Env) returns (e: Expr)
    requires Tokenize(funcs, text).Some? && Tokenize(funcs, text).value != []
    ensures Flatten(e) == Tokenize(funcs, text).value
    ensures Judge(funcs, text, env) == match Value(e, env)
              case RetTrue => Allow
              case RetFalse => Deny
              case RetNone => Error
  {
    hide Tokenize, Execute, Value, Flatten;
    TokenizeGrammatical(funcs, text);
    e :| Flatten(e) == Tokenize(funcs, text).value;
    ExecuteExpr(e, env);
  }

  /** No verdict on texts that are refused or hold no token. */
  lemma JudgeNothing(funcs: Funcs, text: string, env: Env)
    requires Tokenize(funcs, text).None? || Tokenize(funcs, text).value == []
    ensures Judge(funcs, text, env) == Error
  {
    hide Tokenize;
  }

  /** Two environments that agree on the registered functions. */
  ghost predicate AgreeOn(funcs: Funcs, env: Env, env': Env) {
    forall name, arg :: Lower(name) in funcs ==> env(funcs[Lower(name)], name, arg) == env'(funcs[Lower(name)], name, arg)
  }

  lemma {:induction false} RunAgrees(funcs: Funcs, ts: seq<Token>, env: Env, env': Env, pos: nat, v: Vars)
    requires Registered(funcs, ts) && AgreeOn(funcs, env, env') && pos <= |ts|
    ensures Run(ts, env, pos, v) == Run(ts, env', pos, v)
    decreases |ts| - pos
  {
    if pos < |ts| {
      var w := Settle(v);
      hide Settle, Operand, Lower;
      match ts[pos] {
        case Open =>
          RunAgrees(funcs, ts, env, env', pos + 1, START);
          var (res, next) := Run(ts, env, pos + 1, START);
          if res == 0 || res == 1 {
            RunAgrees(funcs, ts, env, env', next, Operand(w, if res == 1 then RetTrue else RetFalse));
          }
        case Close =>
        case Not => RunAgrees(funcs, ts, env, env', pos + 1, w.(neg := !w.neg));
        case And => RunAgrees(funcs, ts, env, env', pos + 1, w.(op := Op(AndOp)));
        case Or => RunAgrees(funcs, ts, env, env', pos + 1, w.(op := Op(OrOp)));
        case True => RunAgrees(funcs, ts, env, env', pos + 1, Operand(w, RetTrue));
        case False => RunAgrees(funcs, ts, env, env', pos + 1, Operand(w, RetFalse));
        case Func(name, arg, func) =>
          var tmp := if Skips(w) then w.lhs else env(func, name, arg);
          if tmp != RetNone {
            RunAgrees(funcs, ts, env, env', pos + 1, Operand(w, tmp));
          }
      }
    }
  }

  /** No function is called that is not registered: what the others would do is irrelevant. */
  lemma JudgeCallsRegistered(funcs: Funcs, text: string, env: Env, env': Env)
    requires AgreeOn(funcs, env, env')
    ensures Judge(funcs, text, env) == Judge(funcs, text, env')
  {
    hide Tokenize, Run, Registered, AgreeOn;
    var ts := Tokenize(funcs, text);
    if ts.Some? && ts.value != [] {
      TokenizeRegistered(funcs, text);
      RunAgrees(funcs, ts.value, env, env', 0, START);
    }
  }

  class Rule {
    const idx: nat
    const text: string
    var rule: Option<seq<Token>>

    constructor (idx: nat, text: string, rule: Option<seq<Token>>)
      ensures this.idx == idx && this.text == text && this.rule == rule
    {
      this.idx, this.text, this.rule := idx, text, rule;
    }
  }

  class RuleBook {
    var rules: seq<Rule>
    var funcs: Funcs
    var nextIdx: nat
    ghost var texts: map<nat, string>

    /** Every cached token list is what the rule's text compiles to now. */
    ghost predicate Valid()
      reads this, rules
    {
      && Listed() && forall r :: r in rules && r.rule.Some? ==> r.rule == Tokenize(funcs, r.text)
    }

    /** The list holds each live rule once, under its index. */
    ghost predicate Listed()
      reads this
    {
      ListedIn(rules, nextIdx, texts)
    }

    constructor ()
      ensures Valid() && texts == map[] && funcs == map[]
    {
      rules, funcs, nextIdx, texts := [], map[], 1, map[];
    }

    /** `command_rule_reg`: a name in use and the two literals are refused. */
    method Reg(name: string, func: FuncId)
      requires Valid()
      modifies this`funcs
      ensures Valid()
      ensures funcs == if Lower(name) in old(funcs) || Lower(name) == "true" || Lower(name) == "false" then old(funcs)
                       else old(funcs)[Lower(name) := func]
    {
      hide Tokenize, Lower;
      if Lower(name) in funcs || Lower(name) == "true" || Lower(name) == "false" {
        return;
      }
      forall r | r in rules && r.rule.Some? ensures Tokenize(funcs[Lower(name) := func], r.text) == r.rule {
        TokenizeMonotone(funcs, funcs[Lower(name) := func], r.text);
      }
      funcs := funcs[Lower(name) := func];
    }

    /** `command_rule_unreg`: all compiled rules are dropped first. */
    method Unreg(name: string)
      requires Valid()
      modifies this`funcs, set r | r in rules :: r`rule
      ensures Valid() && funcs == old(funcs) - {Lower(name)}
    {
      hide Tokenize, Lower;
      for i := 0 to |rules|
        invariant unchanged(`rules, `nextIdx, `texts, `funcs)
        invariant forall j :: 0 <= j < i ==> rules[j].rule == None
      {
        assert rules[i] in old(rules);
        rules[i].rule := None;
      }
      funcs := funcs - {Lower(name)};
    }

    /** `command_rule_validate`. */
    method Validate(text: string) returns (ok: bool)
      ensures ok <==> Tokenize(funcs, text).Some?
    {
      var r := ParserTokenize(funcs, text);
      ok := r.Some?;
    }

    /** `command_rule_compile`: a rule that does not compile yet is kept all the same. */
    method Compile(text: string) returns (idx: nat)
      requires Valid()
      modifies this`rules, this`nextIdx, this`texts
      ensures Valid() && idx !in old(texts) && texts == old(texts)[idx := text]
    {
      hide Tokenize;
      var tokens := ParserTokenize(funcs, text);
      idx := nextIdx;
      var crule := new Rule(idx, text, tokens);
      rules, nextIdx, texts := rules + [crule], nextIdx + 1, texts[idx := text];
    }

    method Get(idx: nat) returns (crule: Rule?)
      requires Listed()
      ensures crule == null <==> idx !in texts
      ensures crule != null ==> crule in rules && crule.idx == idx && crule.text == texts[idx]
    {
      if idx >= nextIdx {
        return null;
      }
      for i := 0 to |rules|
        invariant forall j :: 0 <= j < i ==> rules[j].idx != idx
      {
        if rules[i].idx == idx {
          return rules[i];
        }
      }
      return null;
    }

    /** `command_rule_executable`. */
    method Executable(idx: nat) returns (ok: bool)
      requires Valid()
      modifies set r | r in rules :: r`rule
      ensures Valid()
      ensures ok <==> idx in texts && Tokenize(funcs, texts[idx]).Some?
    {
      hide Tokenize;
      var crule := Get(idx);
      if crule == null {
        return false;
      }
      if crule.rule.None? {
        crule.rule := ParserTokenize(funcs, crule.text);
      }
      ok := crule.rule.Some?;
    }

    /** `command_rule_exec`: the verdict is that of the rule's text with the functions registered
        now, whatever was compiled, dropped, or compiled again before. */
    method Exec(idx: nat, env: Env) returns (v: Verdict)
      requires Valid()
      modifies set r | r in rules :: r`rule
      ensures Valid()
      ensures v == if idx in texts then Judge(funcs, texts[idx], env) else Error
    {
      hide Tokenize, Execute, Value, Flatten;
      var crule := Get(idx);
      if crule == null {
        return Error;
      }
      if crule.rule.None? {
        crule.rule := ParserTokenize(funcs, crule.text);
        if crule.rule.None? {
          return Error;
        }
      }
      var res := ParserExecute(crule.rule.value, env);
      v := ToVerdict(res);
    }

    /** `command_rule_free`: the last rule takes the freed place. */
    method Free(idx: nat)
      requires Valid()
      modifies this`rules, this`texts
      ensures Valid() && texts == old(texts) - {idx}
    {
      hide Tokenize;
      var crule := Get(idx);
      if crule == null {
        return;
      }
      var i := 0;
      while rules[i].idx != idx
        invariant 0 <= i < |rules| && exists j :: i <= j < |rules| && rules[j].idx == idx
        decreases |rules| - i
      {
        i := i + 1;
      }
      SwapOutKeeps(rules, i, nextIdx, texts);
      rules := SwapOut(rules, i);
      texts := texts - {idx};
    }
  }

  /** `command_rule_list_del` at `i`. */
  function SwapOut(s: seq<Rule>, i: nat): seq<Rule>
    requires i < |s|
  {
    s[i := s[|s| - 1]][..|s| - 1]
  }

  ghost predicate ListedIn(rules: seq<Rule>, nextIdx: nat, texts: map<nat, string>) {
    && (forall i, j :: 0 <= i < j < |rules| ==> rules[i].idx != rules[j].idx)
    && (forall r :: r in rules ==> r.idx < nextIdx && r.idx in texts && texts[r.idx] == r.text)
    && (forall k :: k in texts ==> exists r :: r in rules && r.idx == k)
  }

  lemma SwapOutMembers(s: seq<Rule>, i: nat)
    requires i < |s| && forall j, k :: 0 <= j < k < |s| ==> s[j].idx != s[k].idx
    ensures forall r :: r in SwapOut(s, i) <==> r in s && r.idx != s[i].idx
  {
    var t := SwapOut(s, i);
    forall r | r in s && r.idx != s[i].idx ensures r in t {
      var j :| 0 <= j < |s| && s[j] == r;
      assert r == if j == |s| - 1 then t[i] else t[j];
    }
  }

  lemma SwapOutKeeps(s: seq<Rule>, i: nat, nextIdx: nat, texts: map<nat, string>)
    requires i < |s| && ListedIn(s, nextIdx, texts)
    ensures ListedIn(SwapOut(s, i), nextIdx, texts - {s[i].idx})
    ensures forall r :: r in SwapOut(s, i) ==> r in s
  {
    SwapOutMembers(s, i);
    SwapOutDistinct(s, i);
    var t, left := SwapOut(s, i), texts - {s[i].idx};
    forall k | k in left ensures exists r :: r in t && r.idx == k {
      assert k in texts && k != s[i].idx;
      var r :| r in s && r.idx == k;
      assert r in t;
    }
    forall r | r in t ensures r.idx < nextIdx && r.idx in left && left[r.idx] == r.text {
      assert r in s && r.idx != s[i].idx;
    }
    assert forall j, k :: 0 <= j < k < |t| ==> t[j].idx != t[k].idx;
  }

  lemma SwapOutDistinct(s: seq<Rule>, i: nat)
    requires i < |s| && forall j, k :: 0 <= j < k < |s| ==> s[j].idx != s[k].idx
    ensures forall j, k :: 0 <= j < k < |SwapOut(s, i)| ==> SwapOut(s, i)[j].idx != SwapOut(s, i)[k].idx
  {
  }
}
