/** The texts of rules, exactly: which items they are made of, what stands between them, and which tokens
    they turn into. */
module RuleLayout {
  import opened Places
  import opened RuleGrammar
  import opened RuleTokenizer
  import opened Text

  // ----- what can be written -----

  predicate IsWord(name: string) {
    && name != "" && name[0] != '!' && !IsSpace(name[0])
    && forall i :: 0 <= i < |name| ==> !EndsWord(name[i])
  }

  /** A registered function under a name that a text can hold and that is no literal. */
  predicate IsName(funcs: Funcs, name: string, func: FuncId) {
    && IsWord(name) && Lower(name) != "true" && Lower(name) != "false"
    && Lower(name) in funcs && funcs[Lower(name)] == func
  }

  predicate NoParens(arg: string) {
    forall i :: 0 <= i < |arg| ==> arg[i] != '(' && arg[i] != ')'
  }

  /** The argument of a call: no parentheses, and no white space at its ends. */
  predicate IsArg(arg: string) {
    NoParens(arg) && (arg != "" ==> !IsSpace(arg[0]) && !IsSpace(arg[|arg| - 1]))
  }

  predicate Writable(funcs: Funcs, t: Token) {
    t.Func? ==> IsName(funcs, t.name, t.func) && IsArg(t.arg)
  }

  predicate AllWritable(funcs: Funcs, ts: seq<Token>) {
    forall i :: 0 <= i < |ts| ==> Writable(funcs, ts[i])
  }

  // ----- what a text is made of -----

  /** The name of a function and its parentheses are items of their own: something may come between. */
  datatype Item =
    | Sign(t: Token)
    | Literal(b: bool, word: string)
    | Name(name: string, func: FuncId)
    | Arg(lead: string, arg: string, trail: string)

  /** An item, and the white space in front of it. */
  datatype Laid = Laid(gap: string, item: Item)

  function SignText(t: Token): string {
    match t
    case Open => "("
    case Close => ")"
    case And => "&&"
    case Or => "||"
    case _ => "!"
  }

  predicate IsSign(t: Token) {
    t.Open? || t.Close? || t.And? || t.Or? || t.Not?
  }

  function ItemText(item: Item): string {
    match item
    case Sign(t) => SignText(t)
    case Literal(_, word) => word
    case Name(name, _) => name
    case Arg(lead, arg, trail) => "(" + (lead + arg + trail + ")")
  }

  function LaidText(ls: seq<Laid>, end: string): string {
    if ls == [] then end else ls[0].gap + (ItemText(ls[0].item) + LaidText(ls[1..], end))
  }

  predicate Blank(s: string) {
    forall i :: 0 <= i < |s| ==> IsSpace(s[i])
  }

  /** A word ends in front of `s`. */
  predicate Stops(s: string) {
    s == "" || EndsWord(s[0])
  }

  function LiteralText(b: bool): string {
    if b then "true" else "false"
  }

  /** `pending` is the place of a function that has no parentheses yet. */
  predicate IsPending(ts: seq<Token>, pending: Option<nat>) {
    pending.Some? ==> pending.value < |ts| && ts[pending.value].Func? && ts[pending.value].arg == ""
  }

  /** `item` may come behind `ts` and in front of `rest`. While a function is pending, neither a word nor a
      parenthesis that groups can come. */
  predicate MayCome(funcs: Funcs, ts: seq<Token>, pending: Option<nat>, item: Item, rest: string) {
    match item
    case Sign(t) => IsSign(t) && (t.Open? ==> pending.None?)
    case Literal(b, word) => pending.None? && Lower(word) == LiteralText(b) && Stops(rest)
    case Name(name, func) => pending.None? && IsName(funcs, name, func) && Stops(rest) && rest != ""
    case Arg(lead, arg, trail) => pending.Some? && Blank(lead) && IsArg(arg) && Blank(trail)
  }

  function Put(ts: seq<Token>, pending: Option<nat>, item: Item): seq<Token>
    requires IsPending(ts, pending) && (item.Arg? ==> pending.Some?)
  {
    match item
    case Sign(t) => ts + [t]
    case Literal(b, _) => ts + [if b then True else False]
    case Name(name, func) => ts + [Func(name, "", func)]
    case Arg(_, arg, _) => ts[pending.value := ts[pending.value].(arg := arg)]
  }

  function PendingThen(ts: seq<Token>, pending: Option<nat>, item: Item): Option<nat> {
    match item
    case Name(_, _) => Some(|ts|)
    case Arg(_, _, _) => None
    case _ => pending
  }

  /** Behind `ts`, the items and the white space yield `all`. */
  ghost predicate Yields(
      funcs: Funcs, ls: seq<Laid>, end: string, ts: seq<Token>, pending: Option<nat>, all: seq<Token>)
    requires IsPending(ts, pending)
    decreases |ls|
  {
    if ls == [] then Blank(end) && ts == all
    else
      var item := ls[0].item;
      && Blank(ls[0].gap) && MayCome(funcs, ts, pending, item, LaidText(ls[1..], end))
      && Yields(funcs, ls[1..], end, Put(ts, pending, item), PendingThen(ts, pending, item), all)
  }

  lemma LaidFirst(l: Laid, ls: seq<Laid>, end: string)
    ensures LaidText([l] + ls, end) == l.gap + (ItemText(l.item) + LaidText(ls, end)) && LaidText([], end) == end
  {
    assert ([l] + ls)[1..] == ls;
    hide ItemText;
  }

  lemma YieldsFirst(
      funcs: Funcs, l: Laid, ls: seq<Laid>, end: string, ts: seq<Token>, pending: Option<nat>, all: seq<Token>)
    requires IsPending(ts, pending)
    ensures Yields(funcs, [l] + ls, end, ts, pending, all) <==>
      && Blank(l.gap) && MayCome(funcs, ts, pending, l.item, LaidText(ls, end))
      && Yields(funcs, ls, end, Put(ts, pending, l.item), PendingThen(ts, pending, l.item), all)
    ensures LaidText([l] + ls, end) == l.gap + (ItemText(l.item) + LaidText(ls, end))
  {
    assert ([l] + ls)[1..] == ls;
    hide MayCome, ItemText;
  }

  // ----- single steps of the tokenizer -----

  lemma WordEndIs(s: string, c: nat, e: nat)
    requires c <= e <= |s| && (e < |s| ==> EndsWord(s[e])) && forall i :: c <= i < e ==> !EndsWord(s[i])
    ensures WordEnd(s, c) == e
    decreases e - c
  {
    if c < e {
      WordEndIs(s, c + 1, e);
    }
  }

  lemma StepTo(funcs: Funcs, s: string, c: nat, st: Scan, now: Scan, next: nat)
    requires c < |s| && Sound(st) && Step(funcs, s, c, st) == Some((now, next))
    ensures next <= |s| && Sound(now) && TokenizeFrom(funcs, s, c, st) == TokenizeFrom(funcs, s, next, now)
  {
    hide Step;
    ScanStep(funcs, s, c, st);
  }

  lemma CharAt(s: string, c: nat, part: string, i: nat)
    requires At(s, c, part) && i < |part|
    ensures c + i < |s| && s[c + i] == part[i]
  {
    assert s[c + i] == s[c..c + |part|][i];
  }

  /** The tokenizer has read `ts`. */
  ghost predicate HasRead(st: Scan, ts: seq<Token>, pending: Option<nat>) {
    && st.ts == ts && st.func == pending && !st.inArg && IsPending(ts, pending) && st.open == Depth(ts)
    && (if ts == [] then st.last.None? else st.last.Some? && SameKind(st.last.value, ts[|ts| - 1]))
  }

  lemma SkipSpace(funcs: Funcs, s: string, c: nat, st: Scan)
    requires c < |s| && IsSpace(s[c]) && Sound(st) && !st.inArg
    ensures TokenizeFrom(funcs, s, c, st) == TokenizeFrom(funcs, s, c + 1, st)
  {
    hide TokenizeFrom;
    StepTo(funcs, s, c, st, st, c + 1);
  }

  lemma {:induction false} SkipGap(funcs: Funcs, s: string, c: nat, gap: string, st: Scan)
    requires At(s, c, gap) && Blank(gap) && Sound(st) && !st.inArg
    ensures TokenizeFrom(funcs, s, c, st) == TokenizeFrom(funcs, s, c + |gap|, st)
    decreases |gap|
  {
    hide At, TokenizeFrom;
    if gap != "" {
      CharAt(s, c, gap, 0);
      assert gap == [gap[0]] + gap[1..];
      AtJoin(s, c, [gap[0]], gap[1..]);
      SkipSpace(funcs, s, c, st);
      hide Step;
      SkipGap(funcs, s, c + 1, gap[1..], st);
    }
  }

  /** What the tokenizer's variables are behind one more token. */
  function Further(st: Scan, t: Token): Scan
    requires t == Close ==> st.open > 0
  {
    Added(st, t).(open := st.open + Nesting(t))
  }

  lemma ReadSign(funcs: Funcs, s: string, c: nat, st: Scan, t: Token)
    requires IsSign(t) && At(s, c, SignText(t)) && Sound(st) && !st.inArg && (t.Open? ==> st.func.None?)
    requires MayFollow(st.last, t) && (t == Close ==> st.open > 0)
    ensures TokenizeFrom(funcs, s, c, st) == TokenizeFrom(funcs, s, c + |SignText(t)|, Further(st, t))
  {
    CharAt(s, c, SignText(t), 0);
    if t.And? || t.Or? {
      CharAt(s, c, SignText(t), 1);
    }
    hide At, TokenizeFrom;
    StepTo(funcs, s, c, st, Further(st, t), c + |SignText(t)|);
  }

  /** A word of the text ends where it stops. */
  lemma WordAt(s: string, c: nat, word: string)
    requires At(s, c, word) && Stops(s[c + |word|..]) && forall i :: 0 <= i < |word| ==> !EndsWord(word[i])
    ensures WordEnd(s, c) == c + |word| && s[c..c + |word|] == word
  {
    forall i | c <= i < c + |word| ensures !EndsWord(s[i]) {
      CharAt(s, c, word, i - c);
    }
    assert c + |word| < |s| ==> s[c + |word|..][0] == s[c + |word|];
    WordEndIs(s, c, c + |word|);
  }

  /** A literal in whatever letter case has no character that ends a word. */
  lemma LiteralIsWord(b: bool, word: string)
    requires Lower(word) == LiteralText(b)
    ensures word != "" && word[0] != '!' && !IsSpace(word[0]) && forall i :: 0 <= i < |word| ==> !EndsWord(word[i])
  {
    assert |Lower(word)| == |word|;
    forall i | 0 <= i < |word| ensures 'a' <= LowerChar(word[i]) <= 'z' {
      assert Lower(word)[i] == LiteralText(b)[i];
    }
  }

  lemma ReadLiteral(funcs: Funcs, s: string, c: nat, st: Scan, b: bool, word: string)
    requires Lower(word) == LiteralText(b) && At(s, c, word) && Stops(s[c + |word|..])
    requires Sound(st) && st.func.None? && !st.inArg && MayFollow(st.last, True)
    ensures TokenizeFrom(funcs, s, c, st) == TokenizeFrom(funcs, s, c + |word|, Further(st, if b then True else False))
  {
    LiteralIsWord(b, word);
    WordAt(s, c, word);
    CharAt(s, c, word, 0);
    hide WordEnd, Lower, At, TokenizeFrom, Stops, Step, EndsWord;
    LiteralNext(funcs, s, c, st, b, c + |word|);
    StepTo(funcs, s, c, st, Further(st, if b then True else False), c + |word|);
  }

  lemma LiteralNext(funcs: Funcs, s: string, c: nat, st: Scan, b: bool, e: nat)
    requires c < |s| && WordEnd(s, c) == e && Lower(s[c..e]) == LiteralText(b) && !EndsWord(s[c])
    requires s[c] != '!' && !IsSpace(s[c])
    requires Sound(st) && st.func.None? && !st.inArg && MayFollow(st.last, True)
    ensures Step(funcs, s, c, st) == Some((Further(st, if b then True else False), e))
  {
    hide WordEnd, Lower, IsSpace;
  }

  lemma ReadName(funcs: Funcs, s: string, c: nat, st: Scan, name: string, func: FuncId)
    requires IsName(funcs, name, func) && At(s, c, name) && Stops(s[c + |name|..]) && c + |name| < |s|
    requires Sound(st) && st.func.None? && !st.inArg && MayFollow(st.last, Func(name, "", func))
    ensures TokenizeFrom(funcs, s, c, st)
         == TokenizeFrom(funcs, s, c + |name|, Further(st, Func(name, "", func)).(func := Some(|st.ts|)))
  {
    WordAt(s, c, name);
    CharAt(s, c, name, 0);
    hide WordEnd, Lower, At, TokenizeFrom;
    StepTo(funcs, s, c, st, Further(st, Func(name, "", func)).(func := Some(|st.ts|)), c + |name|);
  }

  // ----- arguments -----

  /** The argument `arg` after the characters of `body`; white space in front is not taken. */
  function Grown(arg: string, body: string): string
    decreases |body|
  {
    if body == "" then arg
    else Grown(if arg != "" || !IsSpace(body[0]) then arg + [body[0]] else arg, body[1..])
  }

  /** The tokenizer behind the closing parenthesis of a call. */
  function Ended(st: Scan, arg: string): Scan
    requires Sound(st) && st.inArg && st.open > 0
  {
    WithArg(st, TrimRight(arg)).(inArg := false, func := None, open := st.open - 1)
  }

  /** The rest of an argument, up to the next parenthesis, which closes it. */
  lemma {:induction false} ReadBody(funcs: Funcs, s: string, c: nat, st: Scan, k: nat)
    requires Sound(st) && st.inArg && st.open > 0 && c <= k < |s| && s[k] == ')' && NoParens(s[c..k])
    ensures TokenizeFrom(funcs, s, c, st)
         == TokenizeFrom(funcs, s, k + 1, Ended(st, Grown(st.ts[st.func.value].arg, s[c..k])))
    decreases k - c
  {
    var arg := st.ts[st.func.value].arg;
    if c == k {
      assert s[c..k] == "";
      StepTo(funcs, s, c, st, Ended(st, arg), c + 1) by {
        hide TrimRight;
      }
    } else {
      assert s[c..k][0] == s[c] && s[c..k][1..] == s[c + 1..k];
      StepTo(funcs, s, c, st, ArgChar(st, s[c]), c + 1);
      assert NoParens(s[c + 1..k]);
      hide TokenizeFrom, TrimRight;
      ReadBody(funcs, s, c + 1, ArgChar(st, s[c]), k);
      ArgCharEnds(st, s[c], Grown(ArgChar(st, s[c]).ts[st.func.value].arg, s[c + 1..k]));
    }
  }

  lemma ArgCharEnds(st: Scan, c: char, arg: string)
    requires Sound(st) && st.inArg && st.open > 0
    ensures Ended(ArgChar(st, c), arg) == Ended(st, arg)
  {
    assert Ended(ArgChar(st, c), arg).ts == Ended(st, arg).ts;
  }

  lemma {:induction false} GrownWhole(arg: string, body: string)
    requires arg != ""
    ensures Grown(arg, body) == arg + body
    decreases |body|
  {
    if body == "" {
      assert arg + body == arg;
    } else {
      GrownWhole(arg + [body[0]], body[1..]);
      assert arg + body == arg + [body[0]] + body[1..];
    }
  }

  /** What is taken of a body is its argument, without the white space around it. */
  lemma {:induction false} GrownTrims(lead: string, arg: string, trail: string)
    requires Blank(lead) && Blank(trail) && (arg != "" ==> !IsSpace(arg[0]) && !IsSpace(arg[|arg| - 1]))
    ensures TrimRight(Grown("", lead + arg + trail)) == arg
    decreases |lead|
  {
    if lead != "" {
      assert (lead + arg + trail)[0] == lead[0] && (lead + arg + trail)[1..] == lead[1..] + arg + trail;
      GrownTrims(lead[1..], arg, trail);
      hide TrimRight;
    } else if arg != "" {
      assert lead + arg + trail == arg + trail;
      GrownFirst(arg, trail);
      TrimBlank(arg, trail);
      hide TrimRight, Grown;
    } else {
      assert lead + arg + trail == trail;
      GrownNone(trail);
      hide TrimRight, Grown;
    }
  }

  lemma GrownFirst(arg: string, trail: string)
    requires arg != "" && !IsSpace(arg[0])
    ensures Grown("", arg + trail) == arg + trail
  {
    var body := arg + trail;
    assert body == [body[0]] + body[1..] && "" + [body[0]] == [body[0]];
    GrownWhole([body[0]], body[1..]);
  }

  lemma {:induction false} GrownNone(body: string)
    requires Blank(body)
    ensures Grown("", body) == "" && TrimRight("") == ""
    decreases |body|
  {
    if body != "" {
      GrownNone(body[1..]);
    }
  }

  lemma {:induction false} TrimBlank(arg: string, trail: string)
    requires Blank(trail) && arg != "" && !IsSpace(arg[|arg| - 1])
    ensures TrimRight(arg + trail) == arg
    decreases |trail|
  {
    if trail == "" {
      assert arg + trail == arg;
    } else {
      assert (arg + trail)[..|arg + trail| - 1] == arg + trail[..|trail| - 1];
      TrimBlank(arg, trail[..|trail| - 1]);
    }
  }

  /** A pending function gets its argument. */
  lemma ReadArg(funcs: Funcs, s: string, c: nat, st: Scan, lead: string, arg: string, trail: string)
    requires Sound(st) && st.func.Some? && !st.inArg && st.ts[st.func.value].arg == ""
    requires Blank(lead) && IsArg(arg) && Blank(trail) && At(s, c, "(" + (lead + arg + trail + ")"))
    ensures TokenizeFrom(funcs, s, c, st)
         == TokenizeFrom(funcs, s, c + |lead + arg + trail| + 2,
                         st.(ts := st.ts[st.func.value := st.ts[st.func.value].(arg := arg)], func := None))
  {
    var body := lead + arg + trail;
    var k := c + 1 + |body|;
    ArgAt(s, c, body);
    BodyNoParens(lead, arg, trail);
    ArgEnds(lead, arg, trail);
    var begun := st.(inArg := true, open := st.open + 1);
    hide TokenizeFrom, IsArg, Blank, Grown, TrimRight, At, NoParens;
    StepTo(funcs, s, c, st, begun, c + 1);
    ReadBody(funcs, s, c + 1, begun, k);
  }

  lemma ArgAt(s: string, c: nat, body: string)
    requires At(s, c, "(" + (body + ")"))
    ensures var k := c + 1 + |body|; k < |s| && s[c] == '(' && s[c + 1..k] == body && s[k] == ')'
  {
    AtJoin(s, c, "(", body + ")");
    AtJoin(s, c + 1, body, ")");
    CharAt(s, c, "(", 0);
    CharAt(s, c + 1 + |body|, ")", 0);
  }

  lemma BodyNoParens(lead: string, arg: string, trail: string)
    requires Blank(lead) && IsArg(arg) && Blank(trail)
    ensures NoParens(lead + arg + trail)
  {
  }

  // ----- every such text is read -----

  lemma FollowKinds(prev: Option<Token>, t: Token, prev': Option<Token>, t': Token)
    requires SameKind(t, t') && (prev.None? <==> prev'.None?) && (prev.Some? ==> SameKind(prev.value, prev'.value))
    ensures MayFollow(prev, t) <==> MayFollow(prev', t')
  {
  }

  /** A token of a grammatical list may follow those before it, whatever their arguments are by then. */
  lemma NextFits(all: seq<Token>, ts: seq<Token>, t: Token, last: Option<Token>)
    requires Grammatical(all) && |ts| < |all| && SameShape(ts + [t], all[..|ts| + 1])
    requires if ts == [] then last.None? else last.Some? && SameKind(last.value, ts[|ts| - 1])
    ensures MayFollow(last, t) && Depth(ts) >= 0 && Depth(ts + [t]) == Depth(ts) + Nesting(t) >= 0
  {
    var i := |ts|;
    DepthConcat(ts, [t]);
    DepthOne(t);
    SameDepth(ts + [t], all[..i + 1]);
    assert SameShape(ts, all[..i]) by {
      forall j | 0 <= j < i ensures SameKind(ts[j], all[..i][j]) {
        assert SameKind((ts + [t])[j], all[..i + 1][j]);
      }
    }
    SameDepth(ts, all[..i]);
    assert SameKind((ts + [t])[i], all[..i + 1][i]);
    assert i > 0 ==> SameKind((ts + [t])[i - 1], all[..i + 1][i - 1]);
    hide Depth;
    FollowKinds(Prev(all, i), all[i], last, t);
  }

  lemma {:induction false} YieldsShape(
      funcs: Funcs, ls: seq<Laid>, end: string, ts: seq<Token>, pending: Option<nat>, all: seq<Token>)
    requires IsPending(ts, pending) && Yields(funcs, ls, end, ts, pending, all)
    ensures |ts| <= |all| && SameShape(ts, all[..|ts|])
    decreases |ls|
  {
    if ls == [] {
      assert all[..|ts|] == all;
    } else {
      var item := ls[0].item;
      var more := Put(ts, pending, item);
      YieldsShape(funcs, ls[1..], end, more, PendingThen(ts, pending, item), all);
      forall j | 0 <= j < |ts| ensures SameKind(ts[j], all[..|ts|][j]) {
        assert SameKind(more[j], all[..|more|][j]);
      }
    }
  }

  /** The token an item adds. */
  function TokenOf(item: Item): Token
    requires !item.Arg?
  {
    match item
    case Sign(t) => t
    case Literal(b, _) => if b then True else False
    case Name(name, func) => Func(name, "", func)
  }

  lemma FurtherRead(st: Scan, ts: seq<Token>, pending: Option<nat>, t: Token, pending': Option<nat>)
    requires HasRead(st, ts, pending) && IsPending(ts + [t], pending')
    requires Depth(ts + [t]) == Depth(ts) + Nesting(t) >= 0
    ensures (t == Close ==> st.open > 0) && HasRead(Further(st, t).(func := pending'), ts + [t], pending')
  {
    hide Depth;
  }

  lemma ReadItem(
      funcs: Funcs, s: string, c: nat, st: Scan, ts: seq<Token>, pending: Option<nat>, item: Item) returns (now: Scan)
    requires HasRead(st, ts, pending) && At(s, c, ItemText(item))
    requires MayCome(funcs, ts, pending, item, s[c + |ItemText(item)|..])
    requires !item.Arg? ==>
      MayFollow(st.last, TokenOf(item)) && Depth(ts + [TokenOf(item)]) == Depth(ts) + Nesting(TokenOf(item)) >= 0
    ensures HasRead(now, Put(ts, pending, item), PendingThen(ts, pending, item))
    ensures TokenizeFrom(funcs, s, c, st) == TokenizeFrom(funcs, s, c + |ItemText(item)|, now)
  {
    hide TokenizeFrom, Depth, At, IsName, Stops, Blank, IsArg, Lower, MayFollow;
    if !item.Arg? {
      FurtherRead(st, ts, pending, TokenOf(item), PendingThen(ts, pending, item));
      now := Further(st, TokenOf(item)).(func := PendingThen(ts, pending, item));
    }
    match item
    case Sign(t) => ReadSign(funcs, s, c, st, t);
    case Literal(b, word) =>
      FollowLiteral(st.last, b);
      ReadLiteral(funcs, s, c, st, b, word);
    case Name(name, func) =>
      AtShort(s, c, name);
      ReadName(funcs, s, c, st, name, func);
    case Arg(lead, arg, trail) =>
      ReadArg(funcs, s, c, st, lead, arg, trail);
      now := st.(ts := Put(ts, pending, item), func := None);
      SameDepth(ts, now.ts);
  }

  lemma FollowLiteral(last: Option<Token>, b: bool)
    ensures MayFollow(last, if b then True else False) <==> MayFollow(last, True)
  {
  }

  lemma AtShort(s: string, c: nat, part: string)
    requires At(s, c, part)
    ensures s[c + |part|..] != "" ==> c + |part| < |s|
  {
  }

  /** White space and an item, with `next` the number of characters they take. */
  lemma ReadLaid(
      funcs: Funcs, s: string, c: nat, st: Scan, l: Laid, rest: string, ts: seq<Token>, pending: Option<nat>)
    returns (now: Scan)
    requires HasRead(st, ts, pending) && c <= |s| && s[c..] == l.gap + (ItemText(l.item) + rest)
    requires Blank(l.gap) && MayCome(funcs, ts, pending, l.item, rest)
    requires !l.item.Arg? ==>
      MayFollow(st.last, TokenOf(l.item)) && Depth(ts + [TokenOf(l.item)]) == Depth(ts) + Nesting(TokenOf(l.item)) >= 0
    ensures HasRead(now, Put(ts, pending, l.item), PendingThen(ts, pending, l.item))
    ensures var next := c + |l.gap| + |ItemText(l.item)|;
      && next <= |s| && s[next..] == rest
      && TokenizeFrom(funcs, s, c, st) == TokenizeFrom(funcs, s, next, now)
  {
    hide TokenizeFrom, Depth, At, ItemText, MayFollow, Blank;
    TailAt(s, c, l.gap, ItemText(l.item) + rest);
    SkipGap(funcs, s, c, l.gap, st);
    TailAt(s, c + |l.gap|, ItemText(l.item), rest);
    now := ReadItem(funcs, s, c + |l.gap|, st, ts, pending, l.item);
  }

  lemma {:induction false} YieldsRead(
      funcs: Funcs, s: string, c: nat, st: Scan, ls: seq<Laid>, end: string,
      ts: seq<Token>, pending: Option<nat>, all: seq<Token>)
    requires Grammatical(all) && HasRead(st, ts, pending) && Yields(funcs, ls, end, ts, pending, all)
    requires c <= |s| && s[c..] == LaidText(ls, end)
    ensures TokenizeFrom(funcs, s, c, st) == Some(all)
    decreases |ls|
  {
    hide TokenizeFrom, Grammatical, Depth, At, ItemText, TokenOf, Blank, MayFollow, SameShape;
    hide IsName, IsArg, Stops, Lower;
    if ls == [] {
      assert end + "" == end;
      TailAt(s, c, end, "");
      SkipGap(funcs, s, c, end, st);
      EndRead(funcs, s, st, all);
    } else {
      var item := ls[0].item;
      NextItem(funcs, ls, end, ts, pending, all, st);
      var now := ReadLaid(funcs, s, c, st, ls[0], LaidText(ls[1..], end), ts, pending);
      YieldsRead(funcs, s, c + |ls[0].gap| + |ItemText(item)|, now, ls[1..], end,
                 Put(ts, pending, item), PendingThen(ts, pending, item), all);
    }
  }

  lemma PutIs(ts: seq<Token>, pending: Option<nat>, item: Item)
    requires IsPending(ts, pending) && (item.Arg? ==> pending.Some?)
    ensures !item.Arg? ==> Put(ts, pending, item) == ts + [TokenOf(item)]
  {
  }

  lemma NextShape(
      funcs: Funcs, ls: seq<Laid>, end: string, ts: seq<Token>, pending: Option<nat>, all: seq<Token>)
    requires IsPending(ts, pending) && Yields(funcs, ls, end, ts, pending, all) && ls != [] && !ls[0].item.Arg?
    ensures |ts| < |all| && SameShape(ts + [TokenOf(ls[0].item)], all[..|ts| + 1])
  {
    var item := ls[0].item;
    hide MayCome, LaidText, Blank, SameShape;
    YieldsShape(funcs, ls[1..], end, Put(ts, pending, item), PendingThen(ts, pending, item), all);
    hide Yields;
    PutIs(ts, pending, item);
  }

  lemma NextItem(
      funcs: Funcs, ls: seq<Laid>, end: string, ts: seq<Token>, pending: Option<nat>, all: seq<Token>, st: Scan)
    requires Grammatical(all) && IsPending(ts, pending) && Yields(funcs, ls, end, ts, pending, all) && ls != []
    requires if ts == [] then st.last.None? else st.last.Some? && SameKind(st.last.value, ts[|ts| - 1])
    ensures var item := ls[0].item; !item.Arg? ==>
      MayFollow(st.last, TokenOf(item)) && Depth(ts + [TokenOf(item)]) == Depth(ts) + Nesting(TokenOf(item)) >= 0
  {
    hide *;
    if !ls[0].item.Arg? {
      NextShape(funcs, ls, end, ts, pending, all);
      NextFits(all, ts, TokenOf(ls[0].item), st.last);
    }
  }

  lemma TailAt(s: string, c: nat, part: string, rest: string)
    requires c <= |s| && s[c..] == part + rest
    ensures At(s, c, part) && c + |part| <= |s| && s[c + |part|..] == rest
  {
    assert s[c..][..|part|] == part && s[c..][|part|..] == rest;
    assert s[c..c + |part|] == s[c..][..|part|];
  }

  lemma EndRead(funcs: Funcs, s: string, st: Scan, all: seq<Token>)
    requires Grammatical(all) && HasRead(st, all, st.func)
    ensures TokenizeFrom(funcs, s, |s|, st) == Some(all)
  {
    hide Depth, Adjacent, NeverNegative;
    ScanEnd(funcs, s, st);
  }

  // ----- nothing else is read -----

  lemma EmptyWord(funcs: Funcs, s: string, c: nat, st: Scan)
    requires c < |s| && Sound(st) && Step(funcs, s, c, st).Some?
    requires Step(funcs, s, c, st).value.1 == c
    ensures TokenizeFrom(funcs, s, c, Step(funcs, s, c, st).value.0) == None
  {
    var st' := Step(funcs, s, c, st).value.0;
    StepProgress(funcs, s, c, st);
    assert Step(funcs, s, c, st').None?;
    hide Step;
    ScanStep(funcs, s, c, st');
  }

  /** An argument that is read to its end is closed by the next parenthesis. */
  lemma {:induction false} BodyEnds(funcs: Funcs, s: string, c: nat, st: Scan) returns (k: nat)
    requires Sound(st) && st.inArg && st.open > 0 && c <= |s| && TokenizeFrom(funcs, s, c, st).Some?
    ensures c <= k < |s| && s[k] == ')' && NoParens(s[c..k])
    decreases |s| - c
  {
    ScanEnd(funcs, s, st);
    k := c;
    if s[c] != ')' {
      ScanStep(funcs, s, c, st);
      BodyGoesOn(funcs, s, c, st);
      hide TokenizeFrom, Step;
      k := BodyEnds(funcs, s, c + 1, ArgChar(st, s[c]));
      assert s[c..k] == [s[c]] + s[c + 1..k];
    }
  }

  lemma BodyGoesOn(funcs: Funcs, s: string, c: nat, st: Scan)
    requires Sound(st) && st.inArg && c < |s| && s[c] != ')'
    ensures Step(funcs, s, c, st) == if s[c] == '(' then None else Some((ArgChar(st, s[c]), c + 1))
  {
  }

  /** A body is white space, an argument, and white space. */
  lemma {:induction false} BodyParts(body: string) returns (lead: string, arg: string, trail: string)
    requires NoParens(body)
    ensures body == lead + arg + trail && Blank(lead) && IsArg(arg) && Blank(trail)
    decreases |body|
  {
    if body == "" {
      lead, arg, trail := "", "", "";
    } else if IsSpace(body[0]) {
      lead, arg, trail := BodyParts(body[1..]);
      lead := [body[0]] + lead;
    } else if IsSpace(body[|body| - 1]) {
      lead, arg, trail := BodyParts(body[..|body| - 1]);
      FirstStays(body, lead, arg, trail);
      trail := trail + [body[|body| - 1]];
    } else {
      lead, arg, trail := "", body, "";
    }
  }

  lemma FirstStays(body: string, lead: string, arg: string, trail: string)
    requires body != "" && body[..|body| - 1] == lead + arg + trail
    ensures body == lead + arg + (trail + [body[|body| - 1]])
  {
    assert body == body[..|body| - 1] + [body[|body| - 1]];
  }

  /** White space in front of what is laid out. */
  lemma SpaceLaid(funcs: Funcs, ls: seq<Laid>, end: string, ts: seq<Token>, pending: Option<nat>, all: seq<Token>, c: char)
    returns (ls': seq<Laid>, end': string)
    requires IsPending(ts, pending) && Yields(funcs, ls, end, ts, pending, all) && IsSpace(c)
    ensures Yields(funcs, ls', end', ts, pending, all) && LaidText(ls', end') == [c] + LaidText(ls, end)
  {
    hide Yields, LaidText, Blank;
    ls', end' := ls, end;
    if ls == [] {
      end' := [c] + end;
      SpaceBeforeEnd(funcs, end, ts, pending, all, c);
    } else {
      ls' := [ls[0].(gap := [c] + ls[0].gap)] + ls[1..];
      assert ls == [ls[0]] + ls[1..];
      SpaceBeforeItem(funcs, ls[0], ls[1..], end, ts, pending, all, c);
    }
  }

  lemma SpaceBeforeEnd(funcs: Funcs, end: string, ts: seq<Token>, pending: Option<nat>, all: seq<Token>, c: char)
    requires IsPending(ts, pending) && Yields(funcs, [], end, ts, pending, all) && IsSpace(c)
    ensures Yields(funcs, [], [c] + end, ts, pending, all) && LaidText([], [c] + end) == [c] + LaidText([], end)
  {
  }

  lemma SpaceBeforeItem(
      funcs: Funcs, l: Laid, ls: seq<Laid>, end: string, ts: seq<Token>, pending: Option<nat>, all: seq<Token>, c: char)
    requires IsPending(ts, pending) && Yields(funcs, [l] + ls, end, ts, pending, all) && IsSpace(c)
    ensures var l' := l.(gap := [c] + l.gap);
      Yields(funcs, [l'] + ls, end, ts, pending, all) && LaidText([l'] + ls, end) == [c] + LaidText([l] + ls, end)
  {
    var l' := l.(gap := [c] + l.gap);
    YieldsFirst(funcs, l, ls, end, ts, pending, all);
    YieldsFirst(funcs, l', ls, end, ts, pending, all);
    assert Blank(l.gap) ==> Blank(l'.gap);
    hide *;
    var rest := ItemText(l.item) + LaidText(ls, end);
    assert [c] + l.gap + rest == [c] + (l.gap + rest);
  }

  /** An item in front of what is laid out. */
  lemma ItemLaid(
      funcs: Funcs, item: Item, ls: seq<Laid>, end: string, ts: seq<Token>, pending: Option<nat>, all: seq<Token>)
    returns (ls': seq<Laid>)
    requires IsPending(ts, pending) && MayCome(funcs, ts, pending, item, LaidText(ls, end))
    requires Yields(funcs, ls, end, Put(ts, pending, item), PendingThen(ts, pending, item), all)
    ensures Yields(funcs, ls', end, ts, pending, all) && LaidText(ls', end) == ItemText(item) + LaidText(ls, end)
  {
    ls' := [Laid("", item)] + ls;
    YieldsFirst(funcs, Laid("", item), ls, end, ts, pending, all);
    hide Yields, LaidText, MayCome, ItemText;
  }

  /** Where the tokenizer is between two items. */
  predicate Between(st: Scan) {
    Sound(st) && !st.inArg && IsPending(st.ts, st.func)
  }

  /** From `c` to `next` the tokenizer reads `item`, behind which it stands at `now`. */
  ghost predicate Reads(funcs: Funcs, s: string, c: nat, st: Scan, item: Item, next: nat, now: Scan)
    requires Between(st) && c <= |s|
  {
    && c < next <= |s| && s[c..next] == ItemText(item) && MayCome(funcs, st.ts, st.func, item, s[next..])
    && Between(now) && now.ts == Put(st.ts, st.func, item) && now.func == PendingThen(st.ts, st.func, item)
    && TokenizeFrom(funcs, s, c, st) == TokenizeFrom(funcs, s, next, now)
  }

  /** What is read at `c`, where there is no white space, is an item. */
  lemma ItemRead(funcs: Funcs, s: string, c: nat, st: Scan) returns (item: Item, next: nat, now: Scan)
    requires Between(st) && c < |s| && !IsSpace(s[c]) && TokenizeFrom(funcs, s, c, st).Some?
    ensures Reads(funcs, s, c, st, item, next, now)
  {
    if s[c] == '(' && st.func.Some? {
      item, next, now := ArgRead(funcs, s, c, st);
    } else if s[c] == '(' {
      item, next, now := SignRead(funcs, s, c, st, Open);
    } else if s[c] == ')' {
      item, next, now := SignRead(funcs, s, c, st, Close);
    } else if s[c] == '!' {
      item, next, now := SignRead(funcs, s, c, st, Not);
    } else if s[c] == '&' && c + 1 < |s| && s[c + 1] == '&' {
      item, next, now := SignRead(funcs, s, c, st, And);
    } else if s[c] == '|' && c + 1 < |s| && s[c + 1] == '|' {
      item, next, now := SignRead(funcs, s, c, st, Or);
    } else {
      item, next, now := WordRead(funcs, s, c, st);
    }
  }

  lemma ArgRead(funcs: Funcs, s: string, c: nat, st: Scan) returns (item: Item, next: nat, now: Scan)
    requires Between(st) && c < |s| && s[c] == '(' && st.func.Some? && TokenizeFrom(funcs, s, c, st).Some?
    ensures Reads(funcs, s, c, st, item, next, now)
  {
    hide TokenizeFrom, Blank, IsArg, NoParens, Grown, TrimRight;
    var begun := st.(inArg := true, open := st.open + 1);
    StepTo(funcs, s, c, st, begun, c + 1);
    var k := BodyEnds(funcs, s, c + 1, begun);
    ReadBody(funcs, s, c + 1, begun, k);
    var lead, arg, trail := BodyParts(s[c + 1..k]);
    item, next, now := Arg(lead, arg, trail), k + 1, Ended(begun, Grown("", s[c + 1..k]));
    ArgEnds(lead, arg, trail);
    Enclosed(s, c, k);
  }

  lemma Enclosed(s: string, c: nat, k: nat)
    requires c < k < |s| && s[c] == '(' && s[k] == ')'
    ensures s[c..k + 1] == "(" + (s[c + 1..k] + ")")
  {
  }

  lemma ArgEnds(lead: string, arg: string, trail: string)
    requires Blank(lead) && IsArg(arg) && Blank(trail)
    ensures TrimRight(Grown("", lead + arg + trail)) == arg
  {
    GrownTrims(lead, arg, trail);
  }

  lemma SignRead(funcs: Funcs, s: string, c: nat, st: Scan, t: Token) returns (item: Item, next: nat, now: Scan)
    requires IsSign(t) && Between(st) && c + |SignText(t)| <= |s| && s[c] == SignText(t)[0]
    requires (t.And? || t.Or? ==> s[c + 1] == s[c]) && (t.Open? ==> st.func.None?)
    requires TokenizeFrom(funcs, s, c, st).Some?
    ensures Reads(funcs, s, c, st, item, next, now)
  {
    ScanStep(funcs, s, c, st);
    hide TokenizeFrom, Step;
    SignNext(funcs, s, c, st, t);
    item, next, now := Sign(t), c + |SignText(t)|, Step(funcs, s, c, st).value.0;
  }

  lemma SignNext(funcs: Funcs, s: string, c: nat, st: Scan, t: Token)
    requires IsSign(t) && Between(st) && c + |SignText(t)| <= |s| && s[c] == SignText(t)[0]
    requires t.And? || t.Or? ==> s[c + 1] == s[c]
    requires (t.Open? ==> st.func.None?) && Step(funcs, s, c, st).Some?
    ensures s[c..c + |SignText(t)|] == SignText(t)
    ensures var (now, next) := Step(funcs, s, c, st).value;
      next == c + |SignText(t)| && now.ts == st.ts + [t] && now.func == st.func && !now.inArg
  {
    hide WordEnd, Lower, TrimRight, Word, IsSpace, EndsOperand;
  }

  lemma WordRead(funcs: Funcs, s: string, c: nat, st: Scan) returns (item: Item, next: nat, now: Scan)
    requires Between(st) && c < |s| && !IsSpace(s[c]) && TokenizeFrom(funcs, s, c, st).Some?
    requires s[c] != '(' && s[c] != ')' && s[c] != '!'
    requires s[c] == '&' || s[c] == '|' ==> c + 1 == |s| || s[c + 1] != s[c]
    ensures Reads(funcs, s, c, st, item, next, now)
  {
    ScanStep(funcs, s, c, st);
    if Step(funcs, s, c, st).value.1 == c {
      EmptyWord(funcs, s, c, st);
    }
    hide TokenizeFrom, Lower;
    next := WordEnd(s, c);
    var word := s[c..next];
    now := Step(funcs, s, c, st).value.0;
    assert next < |s| ==> s[next..][0] == s[next];
    if Lower(word) == "true" || Lower(word) == "false" {
      item := Literal(Lower(word) == "true", word);
    } else {
      item := Name(word, funcs[Lower(word)]);
      assert IsWord(word);
    }
  }

  lemma {:induction false} ScanLaid(funcs: Funcs, s: string, c: nat, st: Scan) returns (ls: seq<Laid>, end: string)
    requires Between(st) && c <= |s| && TokenizeFrom(funcs, s, c, st).Some?
    ensures s[c..] == LaidText(ls, end)
    ensures Yields(funcs, ls, end, st.ts, st.func, TokenizeFrom(funcs, s, c, st).value)
    decreases |s| - c
  {
    hide MayCome, Put, PendingThen, ItemText;
    if c == |s| {
      ls, end := [], "";
    } else if IsSpace(s[c]) {
      SkipSpace(funcs, s, c, st);
      hide TokenizeFrom;
      ls, end := ScanLaid(funcs, s, c + 1, st);
      ls, end := SpaceLaid(funcs, ls, end, st.ts, st.func, TokenizeFrom(funcs, s, c, st).value, s[c]);
      assert s[c..] == [s[c]] + s[c + 1..];
    } else {
      hide TokenizeFrom;
      var item, next, now := ItemRead(funcs, s, c, st);
      ls, end := ScanLaid(funcs, s, next, now);
      ls := ItemLaid(funcs, item, ls, end, st.ts, st.func, TokenizeFrom(funcs, s, c, st).value);
      assert s[c..] == s[c..next] + s[next..];
    }
  }

  // ----- the texts, exactly -----

  /** A text turns into `ts` exactly if it is made of items and white space that yield it, and `ts` is
      grammatical. */
  lemma TokenizeIff(funcs: Funcs, s: string, ts: seq<Token>)
    ensures Tokenize(funcs, s) == Some(ts) <==>
      Grammatical(ts) && exists ls, end :: s == LaidText(ls, end) && Yields(funcs, ls, end, [], None, ts)
  {
    assert INIT.ts == [] && s[0..] == s;
    hide TokenizeFrom, Grammatical, Yields, LaidText;
    if Tokenize(funcs, s) == Some(ts) {
      TokenizeGrammatical(funcs, s);
      var ls, end := ScanLaid(funcs, s, 0, INIT);
    }
    if Grammatical(ts) {
      if ls, end :| s == LaidText(ls, end) && Yields(funcs, ls, end, [], None, ts) {
        YieldsRead(funcs, s, 0, INIT, ls, end, [], None, ts);
      }
    }
  }
}
