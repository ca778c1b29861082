/** Every layout of an expression is read, the plain one among them; and what becomes of functions that are
    written without their parentheses. */
module RuleSpelling {
  import opened Places
  import opened RuleGrammar
  import opened RuleLayout
  import opened RuleTokenizer
  import opened Text

  // ----- the layouts of an expression -----

  /** How a token is written: the white space in front of it, the letters of a literal, and for a call the
      white space in front of its parenthesis and around its argument. */
  datatype Choice = Choice(gap: string, word: string, mid: string, lead: string, trail: string)

  function ItemsOf(t: Token, c: Choice): seq<Laid> {
    match t
    case True => [Laid(c.gap, Literal(true, c.word))]
    case False => [Laid(c.gap, Literal(false, c.word))]
    case Func(name, arg, func) => [Laid(c.gap, Name(name, func)), Laid(c.mid, Arg(c.lead, arg, c.trail))]
    case _ => [Laid(c.gap, Sign(t))]
  }

  /** The layout from the `i`-th token on. */
  function Layout(ts: seq<Token>, cs: seq<Choice>, i: nat): seq<Laid>
    requires |cs| == |ts| && i <= |ts|
    decreases |ts| - i
  {
    if i == |ts| then [] else ItemsOf(ts[i], cs[i]) + Layout(ts, cs, i + 1)
  }

  predicate NeatChoice(t: Token, c: Choice) {
    && Blank(c.gap) && Blank(c.mid) && Stops(c.mid) && Blank(c.lead) && Blank(c.trail)
    && (t.True? || t.False? ==> Lower(c.word) == LiteralText(t.True?))
  }

  /** All white space is white space; where some stands behind a literal, it begins with a character that
      ends a word. */
  predicate Neat(ts: seq<Token>, cs: seq<Choice>, end: string) {
    && |cs| == |ts| && Blank(end)
    && (forall i :: 0 <= i < |ts| ==> NeatChoice(ts[i], cs[i]))
    && (forall i :: 0 <= i < |ts| && (ts[i].True? || ts[i].False?) ==>
          Stops(if i + 1 < |ts| then cs[i + 1].gap else end))
  }

  lemma LayoutFirst(ts: seq<Token>, cs: seq<Choice>, i: nat, end: string)
    requires |cs| == |ts| && i < |ts|
    ensures var text := LaidText(Layout(ts, cs, i), end);
      && (cs[i].gap != "" ==> text != "" && text[0] == cs[i].gap[0])
      && (cs[i].gap == "" && IsSign(ts[i]) ==> text != "" && text[0] == SignText(ts[i])[0])
  {
    var ls := Layout(ts, cs, i);
    assert ls[0] == ItemsOf(ts[i], cs[i])[0];
    hide Layout;
  }

  /** A literal is followed by the end of the text, by white space, or by a token that ends it. */
  lemma LiteralStops(ts: seq<Token>, cs: seq<Choice>, i: nat, end: string)
    requires Grammatical(ts) && Neat(ts, cs, end) && i < |ts| && (ts[i].True? || ts[i].False?)
    ensures Stops(LaidText(Layout(ts, cs, i + 1), end))
  {
    hide NeverNegative, Depth, NeatChoice;
    if i + 1 < |ts| {
      LayoutFirst(ts, cs, i + 1, end);
      assert MayFollow(Prev(ts, i + 1), ts[i + 1]);
      hide Layout, LaidText;
    }
  }

  lemma {:induction false} LayoutYields(funcs: Funcs, ts: seq<Token>, cs: seq<Choice>, end: string, i: nat)
    requires Grammatical(ts) && AllWritable(funcs, ts) && |cs| == |ts| && Neat(ts, cs, end) && i <= |ts|
    ensures Yields(funcs, Layout(ts, cs, i), end, ts[..i], None, ts)
    decreases |ts| - i
  {
    hide *;
    if i == |ts| {
      LayoutEnds(funcs, ts, cs, end);
    } else {
      LayoutYields(funcs, ts, cs, end, i + 1);
      LayoutStep(funcs, ts, cs, end, i);
    }
  }

  lemma LayoutStep(funcs: Funcs, ts: seq<Token>, cs: seq<Choice>, end: string, i: nat)
    requires Grammatical(ts) && AllWritable(funcs, ts) && |cs| == |ts| && Neat(ts, cs, end) && i < |ts|
    requires Yields(funcs, Layout(ts, cs, i + 1), end, ts[..i + 1], None, ts)
    ensures Yields(funcs, Layout(ts, cs, i), end, ts[..i], None, ts)
  {
    hide *;
    assert ts[..i + 1] == ts[..i] + [ts[i]];
    TokenNeat(funcs, ts, cs, end, i);
    LayoutNext(ts, cs, i);
    if ts[i].True? || ts[i].False? {
      LiteralStops(ts, cs, i, end);
    }
    TokenYields(funcs, ts[i], cs[i], Layout(ts, cs, i + 1), end, ts[..i], ts);
  }

  lemma LayoutEnds(funcs: Funcs, ts: seq<Token>, cs: seq<Choice>, end: string)
    requires |cs| == |ts| && Neat(ts, cs, end)
    ensures Yields(funcs, Layout(ts, cs, |ts|), end, ts[..|ts|], None, ts)
  {
    assert ts[..|ts|] == ts;
  }

  lemma TokenNeat(funcs: Funcs, ts: seq<Token>, cs: seq<Choice>, end: string, i: nat)
    requires AllWritable(funcs, ts) && Neat(ts, cs, end) && i < |ts|
    ensures Writable(funcs, ts[i]) && NeatChoice(ts[i], cs[i])
  {
  }

  lemma LayoutNext(ts: seq<Token>, cs: seq<Choice>, i: nat)
    requires |cs| == |ts| && i < |ts|
    ensures Layout(ts, cs, i) == ItemsOf(ts[i], cs[i]) + Layout(ts, cs, i + 1)
  {
  }

  /** The items of one token in front of what is laid out. */
  lemma TokenYields(
      funcs: Funcs, t: Token, c: Choice, ls: seq<Laid>, end: string, ts: seq<Token>, all: seq<Token>)
    requires Writable(funcs, t) && NeatChoice(t, c) && (t.True? || t.False? ==> Stops(LaidText(ls, end)))
    requires Yields(funcs, ls, end, ts + [t], None, all)
    ensures Yields(funcs, ItemsOf(t, c) + ls, end, ts, None, all)
  {
    hide Yields, LaidText, Lower, Blank, IsName, IsArg;
    if t.Func? {
      CallYields(funcs, t, c, ls, end, ts, all);
    } else {
      YieldsFirst(funcs, ItemsOf(t, c)[0], ls, end, ts, None, all);
      assert ItemsOf(t, c) == [ItemsOf(t, c)[0]];
    }
  }

  lemma CallYields(
      funcs: Funcs, t: Token, c: Choice, ls: seq<Laid>, end: string, ts: seq<Token>, all: seq<Token>)
    requires t.Func? && Writable(funcs, t) && NeatChoice(t, c)
    requires Yields(funcs, ls, end, ts + [t], None, all)
    ensures Yields(funcs, ItemsOf(t, c) + ls, end, ts, None, all)
  {
    hide Yields, LaidText, Lower, Blank, IsName, IsArg, Stops;
    var name, arg := Laid(c.gap, Name(t.name, t.func)), Laid(c.mid, Arg(c.lead, t.arg, c.trail));
    var named := ts + [t.(arg := "")];
    assert named[|ts| := t] == ts + [t];
    YieldsFirst(funcs, arg, ls, end, named, Some(|ts|), all);
    ParenStops(c.mid, c.lead + t.arg + c.trail, LaidText(ls, end));
    YieldsFirst(funcs, name, [arg] + ls, end, ts, None, all);
    assert ItemsOf(t, c) + ls == [name] + ([arg] + ls);
  }

  lemma ParenStops(mid: string, body: string, rest: string)
    requires Stops(mid)
    ensures var text := mid + ("(" + (body + ")") + rest); Stops(text) && text != ""
  {
  }

  lemma FlattenGrammatical(e: Expr)
    ensures Flatten(e) != [] && Grammatical(Flatten(e))
  {
    FlattenContinues(None, e);
    hide Grammatical;
    GrammaticalIffExpr(Flatten(e));
  }

  /** However an expression is laid out, whose calls can be written, its text turns into its tokens. */
  lemma TokenizeLayout(funcs: Funcs, e: Expr, cs: seq<Choice>, end: string)
    requires AllWritable(funcs, Flatten(e)) && Neat(Flatten(e), cs, end)
    ensures Tokenize(funcs, LaidText(Layout(Flatten(e), cs, 0), end)) == Some(Flatten(e))
  {
    var ts := Flatten(e);
    FlattenGrammatical(e);
    LayoutYields(funcs, ts, cs, end, 0);
    assert ts[..0] == [];
    hide *;
    TokenizeIff(funcs, LaidText(Layout(ts, cs, 0), end), ts);
  }

  function Plain(ts: seq<Token>): seq<Choice> {
    seq(|ts|, i requires 0 <= i < |ts| => Choice("", LiteralText(ts[i].True?), "", "", ""))
  }

  /** Without any white space, literals in lower case. */
  function Spell(ts: seq<Token>): string {
    LaidText(Layout(ts, Plain(ts), 0), "")
  }

  lemma LowerLiterals()
    ensures Lower("true") == "true" && Lower("false") == "false"
  {
    assert forall i :: 0 <= i < 4 ==> LowerChar("true"[i]) == "true"[i];
    assert forall i :: 0 <= i < 5 ==> LowerChar("false"[i]) == "false"[i];
  }

  /** Every expression whose calls can be written has a text. */
  lemma TokenizeComplete(funcs: Funcs, e: Expr)
    requires AllWritable(funcs, Flatten(e))
    ensures Tokenize(funcs, Spell(Flatten(e))) == Some(Flatten(e))
  {
    LowerLiterals();
    hide Tokenize, AllWritable, Flatten, Layout, LaidText, Lower;
    assert Neat(Flatten(e), Plain(Flatten(e)), "");
    TokenizeLayout(funcs, e, Plain(Flatten(e)), "");
  }

  lemma {:induction false} YieldsWritable(
      funcs: Funcs, ls: seq<Laid>, end: string, ts: seq<Token>, pending: Option<nat>, all: seq<Token>)
    requires IsPending(ts, pending) && Yields(funcs, ls, end, ts, pending, all) && AllWritable(funcs, ts)
    ensures AllWritable(funcs, all)
    decreases |ls|
  {
    hide IsName, IsArg, Blank, LaidText, Stops, Lower;
    if ls != [] {
      EmptyArg();
      YieldsWritable(funcs, ls[1..], end, Put(ts, pending, ls[0].item), PendingThen(ts, pending, ls[0].item), all);
    }
  }

  lemma EmptyArg()
    ensures IsArg("")
  {
  }

  /** The calls in an accepted text can be written. */
  lemma TokenizeWritable(funcs: Funcs, s: string)
    requires Tokenize(funcs, s).Some?
    ensures AllWritable(funcs, Tokenize(funcs, s).value)
  {
    var ts := Tokenize(funcs, s).value;
    hide Tokenize, Yields, Grammatical;
    TokenizeIff(funcs, s, ts);
    var ls, end :| s == LaidText(ls, end) && Yields(funcs, ls, end, [], None, ts);
    YieldsWritable(funcs, ls, end, [], None, ts);
  }

  /** Exactly the spellings of writable expressions, and the empty list, are the tokens of a text. */
  lemma TokenizableIff(funcs: Funcs, ts: seq<Token>)
    ensures (exists s :: Tokenize(funcs, s) == Some(ts)) <==>
      ts == [] || (AllWritable(funcs, ts) && exists e :: Flatten(e) == ts)
  {
    if s :| Tokenize(funcs, s) == Some(ts) {
      hide Tokenize, AllWritable;
      TokenizeWritable(funcs, s);
      TokenizeGrammatical(funcs, s);
    }
    if ts == [] {
      assert Tokenize(funcs, "") == Some([]);
    } else if AllWritable(funcs, ts) {
      if e :| Flatten(e) == ts {
        hide Tokenize, AllWritable;
        TokenizeComplete(funcs, e);
      }
    }
  }

  // ----- texts that are refused all the same -----

  /** The last function is still waiting for its parentheses. */
  predicate Waiting(st: Scan) {
    Sound(st) && st.func.Some? && !st.inArg
  }

  predicate NoOpening(s: string, c: nat) {
    forall i :: c <= i < |s| ==> s[i] != '('
  }

  /** Only white space and `open` closing parentheses are left. */
  predicate JustCloses(s: string, open: nat) {
    (forall i :: 0 <= i < |s| ==> s[i] == ')' || IsSpace(s[i])) && multiset(s)[')'] == open
  }

  lemma WaitingStep(funcs: Funcs, s: string, c: nat, st: Scan)
    requires Waiting(st) && c < |s| && s[c] != '(' && Step(funcs, s, c, st).Some?
    ensures var (st', c') := Step(funcs, s, c, st).value;
      && c < c' <= |s| && Waiting(st') && st'.func == st.func && (c' > c + 1 ==> s[c + 1] == s[c])
      && (LastIsOperator(st) || LastIs(st, Not) ==> LastIsOperator(st') || LastIs(st', Not))
  {
  }

  /** Behind an operator, the operand that is due cannot be read without an opening parenthesis. */
  lemma {:induction false} WaitingForOperand(funcs: Funcs, s: string, c: nat, st: Scan)
    requires Waiting(st) && c <= |s| && NoOpening(s, c) && (LastIsOperator(st) || LastIs(st, Not))
    ensures TokenizeFrom(funcs, s, c, st) == None
    decreases |s| - c
  {
    if c < |s| && Step(funcs, s, c, st).Some? {
      WaitingStep(funcs, s, c, st);
      var (st', c') := Step(funcs, s, c, st).value;
      hide Step;
      WaitingForOperand(funcs, s, c', st');
    }
  }

  /** A function without parentheses, and without an opening parenthesis anywhere behind it, is accepted
      exactly if nothing follows but white space and the closing parentheses that are due. */
  lemma {:induction false} BareCallIff(funcs: Funcs, s: string, c: nat, st: Scan)
    requires Waiting(st) && c <= |s| && NoOpening(s, c) && LastEnds(st)
    ensures TokenizeFrom(funcs, s, c, st).Some? <==> JustCloses(s[c..], st.open)
    decreases |s| - c
  {
    if c == |s| {
      assert s[c..] == [];
    } else {
      assert s[c..] == [s[c]] + s[c + 1..];
      if s[c] == ')' || IsSpace(s[c]) {
        CloseOrSpace(funcs, s, c, st);
        if Step(funcs, s, c, st).Some? {
          var st' := Step(funcs, s, c, st).value.0;
          hide Step;
          BareCallIff(funcs, s, c + 1, st');
        }
      } else {
        NotJustCloses(s[c..], 0, st.open);
        if Step(funcs, s, c, st).Some? {
          WaitingStep(funcs, s, c, st);
          OperatorRead(funcs, s, c, st);
          var (st', c') := Step(funcs, s, c, st).value;
          hide Step, JustCloses;
          WaitingForOperand(funcs, s, c', st');
        }
      }
    }
  }

  lemma CloseOrSpace(funcs: Funcs, s: string, c: nat, st: Scan)
    requires Waiting(st) && c < |s| && LastEnds(st) && (s[c] == ')' || IsSpace(s[c]))
    ensures Step(funcs, s, c, st).None? <==> s[c] == ')' && st.open == 0
    ensures Step(funcs, s, c, st).Some? ==>
      var (st', c') := Step(funcs, s, c, st).value;
      c' == c + 1 && Waiting(st') && LastEnds(st') && st'.open == st.open - if s[c] == ')' then 1 else 0
  {
  }

  lemma NotJustCloses(s: string, i: nat, open: nat)
    requires i < |s| && s[i] != ')' && !IsSpace(s[i])
    ensures !JustCloses(s, open)
  {
  }

  lemma OperatorRead(funcs: Funcs, s: string, c: nat, st: Scan)
    requires Waiting(st) && c < |s| && s[c] != '(' && s[c] != ')' && !IsSpace(s[c]) && Step(funcs, s, c, st).Some?
    ensures var st' := Step(funcs, s, c, st).value.0; LastIsOperator(st') || LastIs(st', Not)
  {
  }

  /** The tokenizer behind a name at the beginning of a text. */
  function Named(name: string, func: FuncId): Scan {
    Scan([Func(name, "", func)], Some(Func(name, "", func)), 0, Some(0), false)
  }

  lemma NameRead(funcs: Funcs, name: string, func: FuncId, rest: string)
    requires IsName(funcs, name, func) && rest != "" && EndsWord(rest[0])
    ensures Tokenize(funcs, name + rest) == TokenizeFrom(funcs, name + rest, |name|, Named(name, func))
  {
    var s := name + rest;
    assert s[0..] == s && s[|name|..] == rest;
    TailAt(s, 0, name, rest);
    hide IsName, At, TokenizeFrom;
    assert INIT.ts + [Func(name, "", func)] == [Func(name, "", func)];
    ReadName(funcs, s, 0, INIT, name, func);
  }

  /** A text that begins with a function without parentheses, and has no opening one. */
  lemma BareCallText(funcs: Funcs, name: string, func: FuncId, rest: string)
    requires IsName(funcs, name, func) && rest != "" && EndsWord(rest[0]) && NoOpening(rest, 0)
    ensures Tokenize(funcs, name + rest).Some? <==> JustCloses(rest, 0)
  {
    NameRead(funcs, name, func, rest);
    assert (name + rest)[|name|..] == rest;
    hide TokenizeFrom, JustCloses, IsName, Tokenize;
    BareCallIff(funcs, name + rest, |name|, Named(name, func));
  }

  /** The next opening parenthesis begins its argument, whatever comes between them. */
  lemma {:induction false} LateArgument(funcs: Funcs, s: string, c: nat, st: Scan, k: nat) returns (now: Scan)
    requires Waiting(st) && c <= k < |s| && s[k] == '(' && forall i :: c <= i < k ==> s[i] != '('
    ensures TokenizeFrom(funcs, s, c, st) == None
      || (Sound(now) && now.inArg && now.func == st.func
          && TokenizeFrom(funcs, s, c, st) == TokenizeFrom(funcs, s, k + 1, now))
    decreases k - c
  {
    now := st.(inArg := true, open := st.open + 1);
    if Step(funcs, s, c, st).Some? {
      if c == k {
        StepTo(funcs, s, c, st, now, c + 1);
      } else {
        WaitingStep(funcs, s, c, st);
        var (st', c') := Step(funcs, s, c, st).value;
        ScanStep(funcs, s, c, st);
        hide Step;
        now := LateArgument(funcs, s, c', st', k);
      }
    }
  }

  const F: Token := Func("f", "", 7)

  const ONLY_F: Funcs := map["f" := 7]

  lemma NameInput()
    ensures IsName(ONLY_F, "f", 7)
  {
    assert Lower("f") == "f";
    assert |Lower("f")| != |"true"| && |Lower("f")| != |"false"|;
  }

  lemma RefusedText(rest: string)
    requires |rest| > 1 && rest[0] == ' ' && rest[1] == '&' && NoOpening(rest, 0)
    ensures Tokenize(ONLY_F, "f" + rest) == None
  {
    NameInput();
    NotJustCloses(rest, 1, 0);
    hide IsName, JustCloses, Tokenize, NoOpening;
    BareCallText(ONLY_F, "f", 7, rest);
  }

  /** A function without parentheses in front of an operator is refused, though what is written would
      spell an expression, which has another text. */
  lemma BareCallRefused()
    ensures Tokenize(ONLY_F, "f" + " && true") == None
    ensures Tokenize(ONLY_F, Spell([F, And, True])) == Some([F, And, True])
  {
    RefusedText(" && true");
    hide Tokenize;
    CallInput();
  }

  lemma CallInput()
    ensures Tokenize(ONLY_F, Spell([F, And, True])) == Some([F, And, True])
  {
    var e := Bin(One(Unit(false, Call("f", "", 7))), AndOp, Unit(false, Const(true)));
    assert Flatten(e) == [F, And, True];
    NameInput();
    hide IsName, Flatten, Spell, Tokenize;
    TokenizeComplete(ONLY_F, e);
  }

  lemma LateGrammatical()
    ensures Grammatical([Func("f", "x", 7), And, True])
  {
    var e := Bin(One(Unit(false, Call("f", "x", 7))), AndOp, Unit(false, Const(true)));
    assert Flatten(e) == [Func("f", "x", 7), And, True];
    hide Grammatical, Flatten;
    FlattenGrammatical(e);
  }

  const LATE: seq<Laid> :=
    [Laid("", Name("f", 7)), Laid(" ", Sign(And)), Laid("", Arg("", "x", "")), Laid("", Literal(true, "true"))]

  lemma LateYields()
    ensures Yields(ONLY_F, LATE, "", [], None, [Func("f", "x", 7), And, True])
    ensures LaidText(LATE, "") == "f" + " &&(x)true"
  {
    NameInput();
    LowerLiterals();
    hide IsName, Lower, Yields, LaidText;
    var l0, l1, l2, l3 := LATE[0], LATE[1], LATE[2], LATE[3];
    var t0, t1 := [F], [F, And];
    var t2 := [Func("f", "x", 7), And];
    assert [] + [F] == t0 && t0 + [And] == t1 && t1[0 := Func("f", "x", 7)] == t2;
    assert t2 + [True] == [Func("f", "x", 7), And, True];
    var all := t2 + [True];
    assert Yields(ONLY_F, [], "", all, None, all) && LaidText([], "") == "" by {
      LateEnds(all);
    }
    YieldsFirst(ONLY_F, l3, [], "", t2, None, all);
    YieldsFirst(ONLY_F, l2, [l3] + [], "", t1, Some(0), all);
    YieldsFirst(ONLY_F, l1, [l2] + ([l3] + []), "", t0, Some(0), all);
    YieldsFirst(ONLY_F, l0, [l1] + ([l2] + ([l3] + [])), "", [], None, all);
    assert [l0] + ([l1] + ([l2] + ([l3] + []))) == LATE;
  }

  lemma LateEnds(all: seq<Token>)
    ensures Yields(ONLY_F, [], "", all, None, all) && LaidText([], "") == ""
  {
  }

  /** The parentheses behind an operator belong to the function in front of it. */
  lemma LateInput()
    ensures Tokenize(ONLY_F, "f" + " &&(x)true") == Some([Func("f", "x", 7), And, True])
  {
    LateGrammatical();
    LateYields();
    hide *;
    TokenizeIff(ONLY_F, "f" + " &&(x)true", [Func("f", "x", 7), And, True]);
  }

  /** A line end right behind a literal is taken for part of the word. */
  lemma LineEndRefused(funcs: Funcs)
    ensures Tokenize(funcs, "true\n") == None
  {
    var s := "true\n";
    WordEndIs(s, 0, 5);
    assert s[0..5] == s && |Lower(s)| == 5 && Lower(s)[4] == '\n';
    hide WordEnd, TokenizeFrom;
    assert Step(funcs, s, 0, INIT) == None;
    ScanStep(funcs, s, 0, INIT);
  }
}
