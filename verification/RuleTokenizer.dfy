/** The tokenizer of the rule language, and what every accepted rule text has turned into. */
module RuleTokenizer {
  import opened RuleGrammar
  import opened Text

  /** Registered functions by lower-cased name. */
  type Funcs = map<string, FuncId>

  predicate EndsWord(c: char) {
    c == ' ' || c == '(' || c == ')' || c == '&' || c == '|' || c == '\t'
  }

  /** The first position at or after `c` whose character ends a word, or the end of the text. */
  function WordEnd(s: string, c: nat): (e: nat)
    requires c <= |s|
    ensures c <= e <= |s| && (e < |s| ==> EndsWord(s[e])) && forall i :: c <= i < e ==> !EndsWord(s[i])
    decreases |s| - c
  {
    if c == |s| || EndsWord(s[c]) then c else WordEnd(s, c + 1)
  }

  /** An argument without the white space at its end. */
  function TrimRight(s: string): (t: string)
    ensures t <= s && (t != "" ==> !IsSpace(t[|t| - 1]))
    ensures forall i :: |t| <= i < |s| ==> IsSpace(s[i])
  {
    if s != "" && IsSpace(s[|s| - 1]) then TrimRight(s[..|s| - 1]) else s
  }

  /** The tokenizer's variables: the list so far, the last token added, open parentheses, the
      function token still waiting for an argument, and whether its argument is being read. */
  datatype Scan = Scan(ts: seq<Token>, last: Option<Token>, open: nat, func: Option<nat>, inArg: bool)

  const INIT := Scan([], None, 0, None, false)

  function Added(st: Scan, t: Token): Scan {
    st.(ts := st.ts + [t], last := Some(t))
  }

  predicate LastEnds(st: Scan) {
    st.last.Some? && EndsOperand(st.last.value)
  }

  predicate LastIsOperator(st: Scan) {
    st.last.Some? && (st.last.value.And? || st.last.value.Or?)
  }

  predicate LastIs(st: Scan, t: Token) {
    st.last == Some(t)
  }

  /** The argument of the waiting function token, replaced in place. */
  function WithArg(st: Scan, arg: string): Scan
    requires st.func.Some? && st.func.value < |st.ts| && st.ts[st.func.value].Func?
  {
    st.(ts := st.ts[st.func.value := st.ts[st.func.value].(arg := arg)])
  }

  predicate Sound(st: Scan) {
    && (st.func.Some? ==> st.func.value < |st.ts| && st.ts[st.func.value].Func?)
    && (st.inArg ==> st.func.Some?)
  }

  /** An opening parenthesis begins an argument when a function waits for one. */
  function OpenParen(st: Scan): Option<Scan> {
    if st.func.Some? && !st.inArg then Some(st.(inArg := true, open := st.open + 1))
    else if st.func.Some? then None
    else if LastEnds(st) then None
    else Some(Added(st, Open).(open := st.open + 1))
  }

  function CloseParen(st: Scan): Option<Scan>
    requires Sound(st)
  {
    if st.open == 0 then None
    else if st.inArg then
      var arg := st.ts[st.func.value].arg;
      Some(WithArg(st, TrimRight(arg)).(inArg := false, func := None, open := st.open - 1))
    else if LastIs(st, Open) || LastIsOperator(st) || LastIs(st, Not) then None
    else Some(Added(st, Close).(open := st.open - 1))
  }

  function ArgChar(st: Scan, c: char): Scan
    requires Sound(st) && st.inArg
  {
    var arg := st.ts[st.func.value].arg;
    if arg != "" || !IsSpace(c) then WithArg(st, arg + [c]) else st
  }

  /** A word: a literal, or a registered function that is followed by something. */
  function Word(funcs: Funcs, s: string, c: nat, st: Scan): Option<(Scan, nat)>
    requires c < |s|
  {
    var e := WordEnd(s, c);
    var word := s[c..e];
    if LastEnds(st) then None
    else if Lower(word) == "true" then Some((Added(st, True), e))
    else if Lower(word) == "false" then Some((Added(st, False), e))
    else if e < |s| && Lower(word) in funcs then
      Some((Added(st, Func(word, "", funcs[Lower(word)])).(func := Some(|st.ts|)), e))
    else None
  }

  /** One round of the loop at `c`: the new variables and position, or an error. */
  function Step(funcs: Funcs, s: string, c: nat, st: Scan): Option<(Scan, nat)>
    requires c < |s| && Sound(st)
  {
    if s[c] == '(' then Advance(OpenParen(st), c + 1)
    else if s[c] == ')' then Advance(CloseParen(st), c + 1)
    else if st.func.Some? && st.inArg then Some((ArgChar(st, s[c]), c + 1))
    else if s[c] == '&' && c + 1 < |s| && s[c + 1] == '&' then
      if LastEnds(st) then Some((Added(st, And), c + 2)) else None
    else if s[c] == '|' && c + 1 < |s| && s[c + 1] == '|' then
      if LastEnds(st) then Some((Added(st, Or), c + 2)) else None
    else if s[c] == '!' then
      if st.last.Some? && !LastIsOperator(st) && !LastIs(st, Open) then None else Some((Added(st, Not), c + 1))
    else if IsSpace(s[c]) then Some((st, c + 1))
    else if st.func.None? then Word(funcs, s, c, st)
    else None
  }

  function Advance(r: Option<Scan>, c: nat): Option<(Scan, nat)> {
    if r.Some? then Some((r.value, c)) else None
  }

  lemma StepProgress(funcs: Funcs, s: string, c: nat, st: Scan)
    requires c < |s| && Sound(st) && Step(funcs, s, c, st).Some?
    ensures var (st', c') := Step(funcs, s, c, st).value;
      Sound(st') && c <= c' <= |s| && (c' == c ==> st.func.None? && st'.func.Some?)
  {
    if st.func.None? {
      assert WordEnd(s, c) == c ==> s[c..WordEnd(s, c)] == "";
    }
  }

  /** The rest of the loop and the checks after it. */
  function TokenizeFrom(funcs: Funcs, s: string, c: nat, st: Scan): Option<seq<Token>>
    requires c <= |s| && Sound(st)
    decreases |s| - c, if st.func.None? then 1 else 0
  {
    if c == |s| then
      if st.open > 0 || LastIs(st, Not) || LastIsOperator(st) then None else Some(st.ts)
    else
      var r := Step(funcs, s, c, st);
      if r.None? then None
      else
        StepProgress(funcs, s, c, st);
        TokenizeFrom(funcs, s, r.value.1, r.value.0)
  }

  /** `parser_tokenize`. */
  function Tokenize(funcs: Funcs, s: string): Option<seq<Token>> {
    TokenizeFrom(funcs, s, 0, INIT)
  }

  // ----- what is accepted is an expression -----

  /** Equal but for the argument of a function. */
  predicate SameKind(a: Token, b: Token) {
    if a.Func? && b.Func? then a.name == b.name && a.func == b.func else a == b
  }

  ghost predicate SameShape(s: seq<Token>, t: seq<Token>) {
    |s| == |t| && forall i :: 0 <= i < |s| ==> SameKind(s[i], t[i])
  }

  lemma {:induction false} SameDepth(s: seq<Token>, t: seq<Token>)
    requires SameShape(s, t)
    ensures Depth(s) == Depth(t)
  {
    if s != [] {
      SameDepth(s[..|s| - 1], t[..|t| - 1]);
    }
  }

  lemma SameShapeKeeps(s: seq<Token>, t: seq<Token>)
    requires SameShape(s, t)
    ensures Adjacent(s) ==> Adjacent(t)
    ensures NeverNegative(s) ==> NeverNegative(t)
    ensures Depth(s) == Depth(t)
  {
    SameDepth(s, t);
    forall i | 0 <= i <= |t| ensures Depth(s[..i]) == Depth(t[..i]) {
      SameDepth(s[..i], t[..i]);
    }
    hide Depth;
    forall i | Adjacent(s) && 0 <= i < |t| ensures MayFollow(Prev(t, i), t[i]) {
      assert SameKind(s[i], t[i]) && (i > 0 ==> SameKind(s[i - 1], t[i - 1]));
      assert MayFollow(Prev(s, i), s[i]);
    }
  }

  /** One counter serves both kinds of parentheses: it is the nesting of the tokens, plus one
      while an argument is being read. */
  ghost predicate Inv(st: Scan) {
    && Sound(st) && Adjacent(st.ts) && NeverNegative(st.ts)
    && st.open == Depth(st.ts) + (if st.inArg then 1 else 0)
    && (st.last.Some? <==> st.ts != [])
    && (st.ts != [] ==> SameKind(st.last.value, st.ts[|st.ts| - 1]))
  }

  lemma PushAdjacent(ts: seq<Token>, last: Option<Token>, t: Token)
    requires Adjacent(ts) && MayFollow(last, t)
    requires last.Some? <==> ts != []
    requires ts != [] ==> SameKind(last.value, ts[|ts| - 1])
    ensures Adjacent(ts + [t])
  {
    var more := ts + [t];
    forall i | 0 <= i < |more| ensures MayFollow(Prev(more, i), more[i]) {
      if i < |ts| {
        assert Prev(more, i) == Prev(ts, i);
        assert MayFollow(Prev(ts, i), ts[i]);
      }
    }
  }

  lemma PushNesting(ts: seq<Token>, t: Token)
    requires NeverNegative(ts) && Depth(ts) + Nesting(t) >= 0
    ensures NeverNegative(ts + [t]) && Depth(ts + [t]) == Depth(ts) + Nesting(t)
  {
    hide Depth;
    var more := ts + [t];
    DepthConcat(ts, [t]);
    DepthOne(t);
    forall i | 0 <= i <= |more| ensures Depth(more[..i]) >= 0 {
      if i <= |ts| {
        assert more[..i] == ts[..i];
      } else {
        assert more[..i] == more;
      }
    }
  }

  lemma AddedKeeps(st: Scan, t: Token)
    requires Inv(st) && !st.inArg && MayFollow(st.last, t) && (t == Close ==> st.open > 0)
    ensures Inv(Added(st, t).(open := st.open + Nesting(t)))
  {
    hide Depth, NeverNegative, Adjacent;
    DepthNonneg(st.ts);
    PushAdjacent(st.ts, st.last, t);
    PushNesting(st.ts, t);
  }

  lemma DepthNonneg(ts: seq<Token>)
    requires NeverNegative(ts)
    ensures Depth(ts) >= 0
  {
    assert ts[..|ts|] == ts;
  }

  lemma WithArgKeeps(st: Scan, arg: string)
    requires Inv(st) && st.inArg
    ensures Inv(WithArg(st, arg))
  {
    hide Depth, NeverNegative, Adjacent;
    SameShapeKeeps(st.ts, WithArg(st, arg).ts);
  }

  lemma EndArgKeeps(st: Scan)
    requires Inv(st) && st.inArg && st.open > 0
    ensures Inv(st.(inArg := false, func := None, open := st.open - 1))
  {
    hide Depth, NeverNegative, Adjacent;
  }

  lemma StepKeeps(funcs: Funcs, s: string, c: nat, st: Scan)
    requires c < |s| && Inv(st) && Step(funcs, s, c, st).Some?
    ensures Inv(Step(funcs, s, c, st).value.0)
  {
    hide Depth, NeverNegative, Adjacent, WordEnd, Lower, TrimRight;
    if s[c] == '(' {
      if st.func.None? {
        AddedKeeps(st, Open);
      }
    } else if s[c] == ')' {
      if st.inArg {
        var arg := TrimRight(st.ts[st.func.value].arg);
        WithArgKeeps(st, arg);
        EndArgKeeps(WithArg(st, arg));
      } else {
        DepthNonneg(st.ts);
        NotFirst(st);
        AddedKeeps(st, Close);
      }
    } else if st.inArg {
      WithArgKeeps(st, st.ts[st.func.value].arg + [s[c]]);
    } else if s[c] == '&' && c + 1 < |s| && s[c + 1] == '&' {
      AddedKeeps(st, And);
    } else if s[c] == '|' && c + 1 < |s| && s[c + 1] == '|' {
      AddedKeeps(st, Or);
    } else if s[c] == '!' {
      AddedKeeps(st, Not);
    } else if !IsSpace(s[c]) {
      var t := Step(funcs, s, c, st).value.0.last.value;
      AddedKeeps(st, t);
    }
  }

  /** With a parenthesis open there is a last token. */
  lemma NotFirst(st: Scan)
    requires Inv(st) && !st.inArg && st.open > 0
    ensures st.last.Some?
  {
  }

  lemma {:induction false} ScanGrammatical(funcs: Funcs, s: string, c: nat, st: Scan)
    requires c <= |s| && Inv(st) && TokenizeFrom(funcs, s, c, st).Some?
    ensures Grammatical(TokenizeFrom(funcs, s, c, st).value)
    decreases |s| - c, if st.func.None? then 1 else 0
  {
    hide Depth, NeverNegative, Adjacent, Step;
    if c == |s| {
      DepthNonneg(st.ts);
      LastToken(st);
    } else {
      StepProgress(funcs, s, c, st);
      StepKeeps(funcs, s, c, st);
      var (st', c') := Step(funcs, s, c, st).value;
      ScanGrammatical(funcs, s, c', st');
    }
  }

  lemma LastToken(st: Scan)
    requires Inv(st) && st.open == 0 && !LastIs(st, Not) && !LastIsOperator(st)
    ensures Depth(st.ts) == 0 && (st.ts != [] ==> EndsOperand(st.ts[|st.ts| - 1]))
  {
    hide NeverNegative, Adjacent;
    DepthNonneg(st.ts);
    if st.ts != [] && st.ts[|st.ts| - 1] == Open {
      PrefixDepth(st.ts, |st.ts| - 1);
    }
  }

  /** Every accepted rule text is the spelling of an expression, or holds no token at all. */
  lemma TokenizeGrammatical(funcs: Funcs, s: string)
    requires Tokenize(funcs, s).Some?
    ensures Grammatical(Tokenize(funcs, s).value)
    ensures Tokenize(funcs, s).value == [] || exists e :: Flatten(e) == Tokenize(funcs, s).value
  {
    hide Grammatical, TokenizeFrom;
    assert Inv(INIT) by {
      assert INIT.ts == [];
    }
    ScanGrammatical(funcs, s, 0, INIT);
    var ts := Tokenize(funcs, s).value;
    if ts != [] {
      var e := GrammaticalIsExpr(ts);
    }
  }

  // ----- the functions in the tokens are registered ones -----

  ghost predicate Registered(funcs: Funcs, ts: seq<Token>) {
    forall i :: 0 <= i < |ts| && ts[i].Func? ==> Lower(ts[i].name) in funcs && funcs[Lower(ts[i].name)] == ts[i].func
  }

  lemma {:induction false} ScanRegistered(funcs: Funcs, s: string, c: nat, st: Scan)
    requires c <= |s| && Sound(st) && Registered(funcs, st.ts) && TokenizeFrom(funcs, s, c, st).Some?
    ensures Registered(funcs, TokenizeFrom(funcs, s, c, st).value)
    decreases |s| - c, if st.func.None? then 1 else 0
  {
    if c < |s| {
      StepProgress(funcs, s, c, st);
      StepRegistered(funcs, s, c, st);
      hide Step, Registered;
      var (st', c') := Step(funcs, s, c, st).value;
      ScanRegistered(funcs, s, c', st');
    }
  }

  lemma StepRegistered(funcs: Funcs, s: string, c: nat, st: Scan)
    requires c < |s| && Sound(st) && Registered(funcs, st.ts) && Step(funcs, s, c, st).Some?
    ensures Registered(funcs, Step(funcs, s, c, st).value.0.ts)
  {
    hide Lower, WordEnd, TrimRight;
  }

  lemma TokenizeRegistered(funcs: Funcs, s: string)
    requires Tokenize(funcs, s).Some?
    ensures Registered(funcs, Tokenize(funcs, s).value)
  {
    ScanRegistered(funcs, s, 0, INIT);
  }

  // ----- registering more functions -----

  ghost predicate Extends(more: Funcs, funcs: Funcs) {
    forall f :: f in funcs ==> f in more && more[f] == funcs[f]
  }

  /** A rule that is accepted stays accepted, with the same tokens, when functions are added. */
  lemma {:induction false} ScanMonotone(funcs: Funcs, more: Funcs, s: string, c: nat, st: Scan)
    requires c <= |s| && Sound(st) && Extends(more, funcs) && TokenizeFrom(funcs, s, c, st).Some?
    ensures TokenizeFrom(more, s, c, st) == TokenizeFrom(funcs, s, c, st)
    decreases |s| - c, if st.func.None? then 1 else 0
  {
    if c < |s| {
      StepProgress(funcs, s, c, st);
      assert Step(more, s, c, st) == Step(funcs, s, c, st) by {
        hide Lower, WordEnd, TrimRight, Sound;
      }
      hide Step;
      var (st', c') := Step(funcs, s, c, st).value;
      ScanMonotone(funcs, more, s, c', st');
    }
  }

  lemma TokenizeMonotone(funcs: Funcs, more: Funcs, s: string)
    requires Extends(more, funcs) && Tokenize(funcs, s).Some?
    ensures Tokenize(more, s) == Tokenize(funcs, s)
  {
    ScanMonotone(funcs, more, s, 0, INIT);
  }

  // ----- the loop itself -----

  lemma ScanStep(funcs: Funcs, s: string, c: nat, st: Scan)
    requires c < |s| && Sound(st)
    ensures Step(funcs, s, c, st).None? ==> TokenizeFrom(funcs, s, c, st) == None
    ensures Step(funcs, s, c, st).Some? ==>
              var (st', c') := Step(funcs, s, c, st).value;
              && Sound(st') && c <= c' <= |s| && (c' == c ==> st.func.None? && st'.func.Some?)
              && TokenizeFrom(funcs, s, c, st) == TokenizeFrom(funcs, s, c', st')
  {
    hide Step;
    if Step(funcs, s, c, st).Some? {
      StepProgress(funcs, s, c, st);
    }
  }

  lemma ScanEnd(funcs: Funcs, s: string, st: Scan)
    requires Sound(st)
    ensures TokenizeFrom(funcs, s, |s|, st)
         == if st.open > 0 || LastIs(st, Not) || LastIsOperator(st) then None else Some(st.ts)
  {
  }

  /** `parser_tokenize`: one pass over the text with the variables of the source. */
  method ParserTokenize(funcs: Funcs, s: string) returns (r: Option<seq<Token>>)
    ensures r == Tokenize(funcs, s)
  {
    hide Lower, WordEnd, TrimRight, TokenizeFrom, EndsOperand, IsSpace;
    var tokens: seq<Token>, last: Option<Token>, open: nat, func: Option<nat>, inArg := [], None, 0, None, false;
    var c: nat := 0;
    while c < |s|
      invariant c <= |s| && Sound(Scan(tokens, last, open, func, inArg))
      invariant Tokenize(funcs, s) == TokenizeFrom(funcs, s, c, Scan(tokens, last, open, func, inArg))
      decreases |s| - c, if func.None? then 1 else 0
    {
      ghost var st := Scan(tokens, last, open, func, inArg);
      ghost var next := Step(funcs, s, c, st);
      ScanStep(funcs, s, c, st);
      var ended := last.Some? && EndsOperand(last.value);
      if s[c] == '(' {
        if func.Some? && !inArg {
          inArg := true;
        } else if func.Some? || ended {
          return None;
        } else {
          tokens, last := tokens + [Open], Some(Open);
        }
        open := open + 1;
        c := c + 1;
      } else if s[c] == ')' {
        if open == 0 {
          return None;
        }
        if inArg {
          var arg := tokens[func.value].arg;
          tokens := tokens[func.value := tokens[func.value].(arg := TrimRight(arg))];
          inArg, func := false, None;
        } else {
          if last == Some(Open) || last == Some(And) || last == Some(Or) || last == Some(Not) {
            return None;
          }
          tokens, last := tokens + [Close], Some(Close);
        }
        open := open - 1;
        c := c + 1;
      } else if func.Some? && inArg {
        var arg := tokens[func.value].arg;
        if arg != "" || !IsSpace(s[c]) {
          tokens := tokens[func.value := tokens[func.value].(arg := arg + [s[c]])];
        }
        c := c + 1;
      } else if (s[c] == '&' || s[c] == '|') && c + 1 < |s| && s[c + 1] == s[c] {
        if !ended {
          return None;
        }
        var op := if s[c] == '&' then And else Or;
        tokens, last := tokens + [op], Some(op);
        c := c + 2;
      } else if s[c] == '!' {
        if last.Some? && last != Some(And) && last != Some(Or) && last != Some(Open) {
          return None;
        }
        tokens, last := tokens + [Not], Some(Not);
        c := c + 1;
      } else if IsSpace(s[c]) {
        c := c + 1;
      } else if func.None? {
        if ended {
          return None;
        }
        var e := WordEnd(s, c);
        var word := s[c..e];
        if Lower(word) == "true" {
          tokens, last := tokens + [True], Some(True);
        } else if Lower(word) == "false" {
          tokens, last := tokens + [False], Some(False);
        } else if e < |s| && Lower(word) in funcs {
          var t := Func(word, "", funcs[Lower(word)]);
          func := Some(|tokens|);
          tokens, last := tokens + [t], Some(t);
        } else {
          return None;
        }
        c := e;
      } else {
        return None;
      }
      assert next == Some((Scan(tokens, last, open, func, inArg), c));
    }
    ScanEnd(funcs, s, Scan(tokens, last, open, func, inArg));
    if open > 0 || last == Some(Not) || last == Some(And) || last == Some(Or) {
      return None;
    }
    return Some(tokens);
  }
}
