/** Tokens of the access-rule language, its expressions, and the exact token lists that spell one. */
module RuleGrammar {
  import opened Places
  import opened Text

  /** A registered rule function; the source keeps its address in the token. */
  type FuncId = nat

  datatype Token =
    | Open
    | Close
    | And
    | Or
    | Not
    | False
    | True
    | Func(name: string, arg: string, func: FuncId)

  // ----- expressions: E := U (op U)*, U := [NOT] (TRUE | FALSE | FUNC | OPEN E CLOSE) -----

  datatype BinOp = AndOp | OrOp

  datatype Expr = One(u: Unit) | Bin(l: Expr, op: BinOp, u: Unit)

  datatype Unit = Unit(neg: bool, atom: Atom)

  datatype Atom = Const(b: bool) | Call(name: string, arg: string, func: FuncId) | Group(e: Expr)

  function OpToken(op: BinOp): Token {
    if op == AndOp then And else Or
  }

  function Flatten(e: Expr): seq<Token> {
    match e
    case One(u) => FlattenUnit(u)
    case Bin(l, op, u) => Flatten(l) + [OpToken(op)] + FlattenUnit(u)
  }

  function FlattenUnit(u: Unit): seq<Token> {
    (if u.neg then [Not] else []) + FlattenAtom(u.atom)
  }

  function FlattenAtom(a: Atom): seq<Token> {
    match a
    case Const(b) => [if b then True else False]
    case Call(name, arg, func) => [Func(name, arg, func)]
    case Group(e) => [Open] + Flatten(e) + [Close]
  }

  // ----- adjacency and nesting -----

  /** A complete operand ends with this token. */
  predicate EndsOperand(t: Token) {
    t.Func? || t.True? || t.False? || t.Close?
  }

  /** `t` may follow `prev`, which is `None` at the start. */
  predicate MayFollow(prev: Option<Token>, t: Token) {
    match t
    case Close => prev.Some? && EndsOperand(prev.value)
    case And => prev.Some? && EndsOperand(prev.value)
    case Or => prev.Some? && EndsOperand(prev.value)
    case Not => prev.None? || (!EndsOperand(prev.value) && !prev.value.Not?)
    case _ => prev.None? || !EndsOperand(prev.value)
  }

  function Prev(ts: seq<Token>, i: nat): Option<Token>
    requires i <= |ts|
  {
    if i == 0 then None else Some(ts[i - 1])
  }

  predicate Adjacent(ts: seq<Token>) {
    forall i :: 0 <= i < |ts| ==> MayFollow(Prev(ts, i), ts[i])
  }

  function Nesting(t: Token): int {
    if t.Open? then 1 else if t.Close? then -1 else 0
  }

  function Depth(ts: seq<Token>): int {
    if ts == [] then 0 else Depth(ts[..|ts| - 1]) + Nesting(ts[|ts| - 1])
  }

  /** No closing parenthesis comes before its opening one. */
  predicate NeverNegative(ts: seq<Token>) {
    forall i :: 0 <= i <= |ts| ==> Depth(ts[..i]) >= 0
  }

  /** Every token may follow the one before it, parentheses pair up, and the end is complete. */
  predicate Grammatical(ts: seq<Token>) {
    && Adjacent(ts) && NeverNegative(ts) && Depth(ts) == 0
    && (ts != [] ==> EndsOperand(ts[|ts| - 1]))
  }

  lemma DepthStep(ts: seq<Token>, i: nat)
    requires i < |ts|
    ensures Depth(ts[..i + 1]) == Depth(ts[..i]) + Nesting(ts[i])
  {
    assert ts[..i + 1][..i] == ts[..i];
  }

  lemma {:induction false} DepthConcat(s: seq<Token>, t: seq<Token>)
    ensures Depth(s + t) == Depth(s) + Depth(t)
  {
    if t == [] {
      assert s + t == s;
    } else {
      var init := t[..|t| - 1];
      DepthConcat(s, init);
      assert (s + t)[..|s + t| - 1] == s + init;
    }
  }

  lemma {:induction false} FlattenDepth(e: Expr)
    ensures Depth(Flatten(e)) == 0
  {
    hide Depth;
    match e
    case One(u) => FlattenUnitDepth(u);
    case Bin(l, op, u) =>
      FlattenDepth(l);
      FlattenUnitDepth(u);
      DepthConcat(Flatten(l) + [OpToken(op)], FlattenUnit(u));
      DepthConcat(Flatten(l), [OpToken(op)]);
      DepthOne(OpToken(op));
  }

  lemma DepthOne(t: Token)
    ensures Depth([t]) == Nesting(t) && Depth([]) == 0
  {
    assert [t][..0] == [];
  }

  lemma {:induction false} FlattenUnitDepth(u: Unit)
    ensures Depth(FlattenUnit(u)) == 0
  {
    hide Depth;
    var atom := FlattenAtom(u.atom);
    DepthOne(Not);
    DepthConcat(if u.neg then [Not] else [], atom);
    match u.atom {
      case Group(e) =>
        FlattenDepth(e);
        DepthOne(Open);
        DepthOne(Close);
        DepthConcat([Open] + Flatten(e), [Close]);
        DepthConcat([Open], Flatten(e));
      case _ =>
        DepthOne(atom[0]);
    }
  }

  // ----- every grammatical list spells an expression -----

  lemma DepthAt(ts: seq<Token>, pos: nat, part: seq<Token>)
    requires At(ts, pos, part) && Depth(part) == 0
    ensures Depth(ts[..pos + |part|]) == Depth(ts[..pos])
  {
    assert ts[..pos + |part|] == ts[..pos] + part;
    DepthConcat(ts[..pos], part);
  }

  /** An operand is due at `pos`. */
  predicate OperandDue(ts: seq<Token>, pos: nat)
    requires pos <= |ts|
  {
    Prev(ts, pos).None? || !EndsOperand(Prev(ts, pos).value)
  }

  /** `part` is an operand or a whole expression at `pos`. */
  predicate Piece(ts: seq<Token>, pos: nat, part: seq<Token>) {
    At(ts, pos, part) && part != [] && EndsOperand(ts[pos + |part| - 1])
  }

  lemma PieceJoin(ts: seq<Token>, pos: nat, p: seq<Token>, q: seq<Token>)
    requires At(ts, pos, p) && Piece(ts, pos + |p|, q)
    ensures Piece(ts, pos, p + q)
  {
    AtJoin(ts, pos, p, q);
  }

  lemma PieceOne(ts: seq<Token>, pos: nat)
    requires pos < |ts|
    ensures At(ts, pos, [ts[pos]])
    ensures EndsOperand(ts[pos]) ==> Piece(ts, pos, [ts[pos]])
  {
  }

  lemma Follows(ts: seq<Token>, pos: nat)
    requires Grammatical(ts) && pos < |ts|
    ensures MayFollow(Prev(ts, pos), ts[pos])
    ensures !EndsOperand(ts[pos]) ==> pos + 1 < |ts| && OperandDue(ts, pos + 1)
  {
    hide NeverNegative, Depth;
  }

  /** An expression inside parentheses is followed by the closing one. */
  lemma Closed(ts: seq<Token>, pos: nat, part: seq<Token>)
    requires Grammatical(ts) && pos < |ts| && ts[pos] == Open && At(ts, pos + 1, part) && Depth(part) == 0
    ensures pos + 1 + |part| < |ts|
  {
    hide Depth, Adjacent, NeverNegative;
    DepthStep(ts, pos);
    DepthAt(ts, pos + 1, part);
    PrefixDepth(ts, pos);
  }

  lemma PrefixDepth(ts: seq<Token>, i: nat)
    requires NeverNegative(ts) && i <= |ts|
    ensures Depth(ts[..i]) >= 0 && ts[..|ts|] == ts
  {
  }

  lemma {:induction false} ParseUnit(ts: seq<Token>, pos: nat) returns (u: Unit)
    requires Grammatical(ts) && pos < |ts| && OperandDue(ts, pos)
    ensures Piece(ts, pos, FlattenUnit(u))
    decreases |ts| - pos, 0
  {
    hide Grammatical, At, FlattenAtom, Piece;
    Follows(ts, pos);
    PieceOne(ts, pos);
    if ts[pos] == Not {
      Follows(ts, pos + 1);
      var a := ParseAtom(ts, pos + 1);
      u := Unit(true, a);
      PieceJoin(ts, pos, [Not], FlattenAtom(a));
    } else {
      var a := ParseAtom(ts, pos);
      u := Unit(false, a);
      assert FlattenUnit(u) == FlattenAtom(a);
    }
  }

  lemma {:induction false} ParseAtom(ts: seq<Token>, pos: nat) returns (a: Atom)
    requires Grammatical(ts) && pos < |ts| && OperandDue(ts, pos) && ts[pos] != Not
    ensures Piece(ts, pos, FlattenAtom(a))
    decreases |ts| - pos, -1
  {
    hide Grammatical, At, Piece, Flatten;
    Follows(ts, pos);
    PieceOne(ts, pos);
    match ts[pos]
    case True => a := Const(true);
    case False => a := Const(false);
    case Func(name, arg, func) => a := Call(name, arg, func);
    case Open =>
      var e := ParseExpr(ts, pos + 1);
      a := Group(e);
      ParseGroup(ts, pos, e);
  }

  lemma ParseGroup(ts: seq<Token>, pos: nat, e: Expr)
    requires Grammatical(ts) && pos < |ts| && ts[pos] == Open && At(ts, pos + 1, Flatten(e))
    requires var q := pos + 1 + |Flatten(e)|; q <= |ts| && (q == |ts| || ts[q] == Close)
    ensures Piece(ts, pos, [Open] + Flatten(e) + [Close])
  {
    hide Grammatical, At, Flatten;
    FlattenDepth(e);
    Closed(ts, pos, Flatten(e));
    PieceOne(ts, pos);
    AtJoin(ts, pos, [Open], Flatten(e));
    PieceOne(ts, pos + 1 + |Flatten(e)|);
    PieceJoin(ts, pos, [Open] + Flatten(e), [Close]);
  }

  /** From where an operand is due, an expression is found that ends before a closing parenthesis
      or at the end. */
  lemma {:induction false} ParseExpr(ts: seq<Token>, pos: nat) returns (e: Expr)
    requires Grammatical(ts) && pos < |ts| && OperandDue(ts, pos)
    ensures At(ts, pos, Flatten(e))
    ensures pos + |Flatten(e)| == |ts| || (pos + |Flatten(e)| < |ts| && ts[pos + |Flatten(e)|] == Close)
    decreases |ts| - pos, 1
  {
    hide Grammatical, FlattenUnit;
    var u := ParseUnit(ts, pos);
    e := One(u);
    while pos + |Flatten(e)| < |ts| && ts[pos + |Flatten(e)|] != Close
      invariant Piece(ts, pos, Flatten(e))
      decreases |ts| - |Flatten(e)|
    {
      var q := pos + |Flatten(e)|;
      Follows(ts, q);
      var op := if ts[q] == And then AndOp else OrOp;
      var u' := ParseUnit(ts, q + 1);
      ExprLonger(ts, pos, e, op, u');
      e := Bin(e, op, u');
    }
  }

  lemma ExprLonger(ts: seq<Token>, pos: nat, e: Expr, op: BinOp, u: Unit)
    requires Piece(ts, pos, Flatten(e)) && pos + |Flatten(e)| < |ts|
    requires ts[pos + |Flatten(e)|] == OpToken(op) && Piece(ts, pos + |Flatten(e)| + 1, FlattenUnit(u))
    ensures Piece(ts, pos, Flatten(Bin(e, op, u)))
  {
    PieceOne(ts, pos + |Flatten(e)|);
    AtJoin(ts, pos, Flatten(e), [OpToken(op)]);
    PieceJoin(ts, pos, Flatten(e) + [OpToken(op)], FlattenUnit(u));
  }

  /** Adjacency, balance and a complete end are all it takes. */
  lemma GrammaticalIsExpr(ts: seq<Token>) returns (e: Expr)
    requires Grammatical(ts) && ts != []
    ensures Flatten(e) == ts
  {
    hide Depth, Adjacent, NeverNegative, Flatten;
    e := ParseExpr(ts, 0);
    var q := |Flatten(e)|;
    if q < |ts| {
      FlattenDepth(e);
      DepthAt(ts, 0, Flatten(e));
      DepthStep(ts, q);
      DepthOne(Open);
      PrefixDepth(ts, q + 1);
    }
  }

  // ----- every expression spells a grammatical list -----

  /** `ts` can continue a list that ends in `prev`, closing nothing it does not open. */
  ghost predicate Continues(prev: Option<Token>, ts: seq<Token>) {
    && ts != [] && MayFollow(prev, ts[0]) && EndsOperand(ts[|ts| - 1])
    && (forall i :: 0 < i < |ts| ==> MayFollow(Some(ts[i - 1]), ts[i]))
    && NeverNegative(ts)
  }

  lemma NeverNegativeConcat(s: seq<Token>, t: seq<Token>)
    requires NeverNegative(s) && NeverNegative(t)
    ensures NeverNegative(s + t)
  {
    hide Depth;
    forall i | 0 <= i <= |s + t| ensures Depth((s + t)[..i]) >= 0 {
      if i <= |s| {
        assert (s + t)[..i] == s[..i];
      } else {
        assert (s + t)[..i] == s + t[..i - |s|];
        DepthConcat(s, t[..i - |s|]);
        assert s[..|s|] == s;
      }
    }
  }

  lemma ContinuesJoin(prev: Option<Token>, s: seq<Token>, t: seq<Token>)
    requires s != [] && MayFollow(prev, s[0]) && NeverNegative(s)
    requires forall i :: 0 < i < |s| ==> MayFollow(Some(s[i - 1]), s[i])
    requires Continues(Some(s[|s| - 1]), t)
    ensures Continues(prev, s + t)
  {
    hide NeverNegative, MayFollow;
    NeverNegativeConcat(s, t);
  }

  lemma SingleNeverNegative(t: Token)
    requires t != Close
    ensures NeverNegative([t])
  {
    DepthOne(t);
    assert [t][..0] == [] && [t][..1] == [t];
  }

  lemma {:induction false} FlattenContinues(prev: Option<Token>, e: Expr)
    requires prev.None? || !EndsOperand(prev.value)
    requires prev != Some(Not)
    ensures Continues(prev, Flatten(e))
    decreases e
  {
    hide Continues, NeverNegative;
    match e
    case One(u) => UnitContinues(prev, u);
    case Bin(l, op, u) =>
      FlattenContinues(prev, l);
      UnitContinues(Some(OpToken(op)), u);
      JoinOperator(prev, Flatten(l), OpToken(op), FlattenUnit(u));
  }

  lemma JoinOperator(prev: Option<Token>, l: seq<Token>, op: Token, r: seq<Token>)
    requires Continues(prev, l) && (op == And || op == Or) && Continues(Some(op), r)
    ensures Continues(prev, l + [op] + r)
  {
    hide NeverNegative;
    SingleNeverNegative(op);
    NeverNegativeConcat(l, [op]);
    ContinuesJoin(prev, l + [op], r);
  }

  lemma {:induction false} UnitContinues(prev: Option<Token>, u: Unit)
    requires prev.None? || !EndsOperand(prev.value)
    requires prev == Some(Not) ==> !u.neg
    ensures Continues(prev, FlattenUnit(u))
    decreases u
  {
    if u.neg {
      AtomContinues(Some(Not), u.atom);
      SingleNeverNegative(Not);
      hide NeverNegative;
      ContinuesJoin(prev, [Not], FlattenAtom(u.atom));
    } else {
      AtomContinues(prev, u.atom);
      assert FlattenUnit(u) == FlattenAtom(u.atom);
    }
  }

  lemma {:induction false} AtomContinues(prev: Option<Token>, a: Atom)
    requires prev.None? || !EndsOperand(prev.value)
    ensures Continues(prev, FlattenAtom(a))
    decreases a
  {
    hide NeverNegative;
    match a
    case Const(b) => SingleNeverNegative(if b then True else False);
    case Call(name, arg, func) => SingleNeverNegative(Func(name, arg, func));
    case Group(e) =>
      FlattenContinues(Some(Open), e);
      FlattenDepth(e);
      GroupNeverNegative(Flatten(e));
  }

  lemma GroupNeverNegative(part: seq<Token>)
    requires NeverNegative(part) && Depth(part) == 0
    ensures NeverNegative([Open] + part + [Close])
  {
    hide Depth;
    var ts := [Open] + part + [Close];
    SingleNeverNegative(Open);
    NeverNegativeConcat([Open], part);
    DepthOne(Open);
    DepthOne(Close);
    DepthConcat([Open], part);
    DepthConcat([Open] + part, [Close]);
    forall i | 0 <= i <= |ts| ensures Depth(ts[..i]) >= 0 {
      if i < |ts| {
        assert ts[..i] == ([Open] + part)[..i];
      } else {
        assert ts[..i] == ts;
      }
    }
  }

  /** The grammatical token lists are exactly the spellings of expressions. */
  lemma GrammaticalIffExpr(ts: seq<Token>)
    requires ts != []
    ensures Grammatical(ts) <==> exists e :: Flatten(e) == ts
  {
    if Grammatical(ts) {
      var e := GrammaticalIsExpr(ts);
    }
    if e :| Flatten(e) == ts {
      FlattenContinues(None, e);
      FlattenDepth(e);
      hide Depth, NeverNegative;
    }
  }
}
