/** The evaluator of the rule language: a loop over tokens with a shared position, against the
    meaning of the expression the tokens spell. */
module RuleEval {
  import opened RuleGrammar
  import opened Places
  import opened Text

  datatype Ret = RetFalse | RetTrue | RetNone

  /** What the registered functions return for a name and an argument. */
  type Env = (FuncId, string, string) -> Ret

  function Code(r: Ret): int {
    match r
    case RetFalse => 0
    case RetTrue => 1
    case RetNone => 2
  }

  datatype Pending = NoOp | Op(op: BinOp)

  /** `parser_eval_binary`. */
  function EvalBinary(l: Ret, r: Ret, op: BinOp): Ret {
    if op == AndOp then if l == RetTrue && r == RetTrue then RetTrue else RetFalse
    else if l == RetTrue || r == RetTrue then RetTrue else RetFalse
  }

  function Negate(r: Ret): Ret {
    if r == RetFalse then RetTrue else RetFalse
  }

  /** The local variables of one call of the evaluator. */
  datatype Vars = Vars(lhs: Ret, rhs: Ret, op: Pending, neg: bool)

  const START := Vars(RetNone, RetNone, NoOp, false)

  predicate Ready(v: Vars) {
    v.lhs != RetNone && v.rhs != RetNone && v.op != NoOp
  }

  /** A complete binary expression is evaluated before the next token is looked at. */
  function Settle(v: Vars): Vars {
    if Ready(v) then v.(lhs := EvalBinary(v.lhs, v.rhs, v.op.op), rhs := RetNone, op := NoOp) else v
  }

  /** The operand of a pending operator that cannot change the result is not called. */
  predicate Skips(v: Vars) {
    (v.lhs == RetFalse && v.op == Op(AndOp)) || (v.lhs == RetTrue && v.op == Op(OrOp))
  }

  /** A temporary result becomes the left or the right side. */
  function Operand(v: Vars, tmp: Ret): Vars {
    var value := if v.neg then Negate(tmp) else tmp;
    var w := v.(neg := false);
    if w.lhs == RetNone then w.(lhs := value)
    else if w.rhs == RetNone then w.(rhs := value)
    else w
  }

  /** The loop of `parser_execute_recursive` from `pos` on: the return value and the position
      it leaves behind. */
  function Run(ts: seq<Token>, env: Env, pos: nat, vars: Vars): (r: (int, nat))
    requires pos <= |ts|
    ensures pos <= r.1 <= |ts|
    decreases |ts| - pos
  {
    var v := Settle(vars);
    if pos == |ts| then (Code(v.lhs), pos)
    else
      match ts[pos]
      case Open =>
        var (res, next) := Run(ts, env, pos + 1, START);
        if res == 0 || res == 1 then Run(ts, env, next, Operand(v, if res == 1 then RetTrue else RetFalse))
        else (res, next)
      case Close => (Code(v.lhs), pos + 1)
      case Not => Run(ts, env, pos + 1, v.(neg := !v.neg))
      case And => Run(ts, env, pos + 1, v.(op := Op(AndOp)))
      case Or => Run(ts, env, pos + 1, v.(op := Op(OrOp)))
      case True => Run(ts, env, pos + 1, Operand(v, RetTrue))
      case False => Run(ts, env, pos + 1, Operand(v, RetFalse))
      case Func(name, arg, func) =>
        var tmp := if Skips(v) then v.lhs else env(func, name, arg);
        if tmp == RetNone then (-4, pos + 1) else Run(ts, env, pos + 1, Operand(v, tmp))
  }

  /** `parser_execute`. */
  function Execute(ts: seq<Token>, env: Env): int {
    if ts == [] then -2 else Run(ts, env, 0, START).0
  }

  // ----- what an expression means -----

  /** Left to right, without precedence, with no function left out. */
  function Denote(e: Expr, world: (FuncId, string, string) -> bool): bool {
    match e
    case One(u) => DenoteUnit(u, world)
    case Bin(l, op, u) =>
      if op == AndOp then Denote(l, world) && DenoteUnit(u, world) else Denote(l, world) || DenoteUnit(u, world)
  }

  function DenoteUnit(u: Unit, world: (FuncId, string, string) -> bool): bool {
    var b := match u.atom
      case Const(b) => b
      case Call(name, arg, func) => world(func, name, arg)
      case Group(e) => Denote(e, world);
    if u.neg then !b else b
  }

  /** Functions may fail; a failure counts unless the function is the direct right operand of an
      operator already decided by its left side. */
  function Value(e: Expr, env: Env): Ret {
    match e
    case One(u) => UnitValue(u, env)
    case Bin(l, op, u) =>
      var lv := Value(l, env);
      if lv == RetNone then RetNone
      else if u.atom.Call? && Decides(lv, op) then lv
      else
        var uv := UnitValue(u, env);
        if uv == RetNone then RetNone else EvalBinary(lv, uv, op)
  }

  predicate Decides(lv: Ret, op: BinOp) {
    lv == if op == AndOp then RetFalse else RetTrue
  }

  function UnitValue(u: Unit, env: Env): Ret {
    var v := match u.atom
      case Const(b) => if b then RetTrue else RetFalse
      case Call(name, arg, func) => env(func, name, arg)
      case Group(e) => Value(e, env);
    if v != RetNone && u.neg then Negate(v) else v
  }

  function Answer(b: bool): Ret {
    if b then RetTrue else RetFalse
  }

  /** A function that is called, with its arguments. */
  datatype Asked = Asked(func: FuncId, name: string, arg: string)

  /** The calls made for an expression: not those of functions that are skipped, and none after one
      that gave no answer. */
  function Calls(e: Expr, env: Env): set<Asked> {
    match e
    case One(u) => UnitCalls(u, env)
    case Bin(l, op, u) =>
      var lv := Value(l, env);
      if lv == RetNone || (u.atom.Call? && Decides(lv, op)) then Calls(l, env) else Calls(l, env) + UnitCalls(u, env)
  }

  function UnitCalls(u: Unit, env: Env): set<Asked> {
    match u.atom
    case Const(b) => {}
    case Call(name, arg, func) => {Asked(func, name, arg)}
    case Group(e) => Calls(e, env)
  }

  /** Both answer the calls in the same way. */
  ghost predicate Agree(calls: set<Asked>, env: Env, env': Env) {
    forall a :: a in calls ==> env(a.func, a.name, a.arg) == env'(a.func, a.name, a.arg)
  }

  /** `world` answers as `env` where `env` gave an answer to a call. */
  ghost predicate Completes(calls: set<Asked>, env: Env, world: (FuncId, string, string) -> bool) {
    forall a :: a in calls && env(a.func, a.name, a.arg) != RetNone ==>
      env(a.func, a.name, a.arg) == Answer(world(a.func, a.name, a.arg))
  }

  /** Only the calls that are made matter. */
  lemma {:induction false} ValueCallsOnly(e: Expr, env: Env, env': Env)
    requires Agree(Calls(e, env), env, env')
    ensures Value(e, env') == Value(e, env) && Calls(e, env') == Calls(e, env)
    decreases e
  {
    match e
    case One(u) => UnitCallsOnly(u, env, env');
    case Bin(l, op, u) =>
      ValueCallsOnly(l, env, env');
      if Value(l, env) != RetNone && !(u.atom.Call? && Decides(Value(l, env), op)) {
        UnitCallsOnly(u, env, env');
      }
  }

  lemma {:induction false} UnitCallsOnly(u: Unit, env: Env, env': Env)
    requires Agree(UnitCalls(u, env), env, env')
    ensures UnitValue(u, env') == UnitValue(u, env) && UnitCalls(u, env') == UnitCalls(u, env)
    decreases u
  {
    match u.atom
    case Const(b) =>
    case Call(name, arg, func) =>
      assert Asked(func, name, arg) in UnitCalls(u, env);
    case Group(e) => ValueCallsOnly(e, env, env');
  }

  /** An answer does not depend on what the functions that failed or were skipped would have
      returned: it is the denotation for every world that answers the calls made as they were. */
  lemma {:induction false} ValueSound(e: Expr, env: Env, world: (FuncId, string, string) -> bool)
    requires Completes(Calls(e, env), env, world) && Value(e, env) != RetNone
    ensures Value(e, env) == Answer(Denote(e, world))
    decreases e
  {
    match e
    case One(u) => UnitValueSound(u, env, world);
    case Bin(l, op, u) =>
      ValueSound(l, env, world);
      if !(u.atom.Call? && Decides(Value(l, env), op)) {
        UnitValueSound(u, env, world);
      }
  }

  lemma {:induction false} UnitValueSound(u: Unit, env: Env, world: (FuncId, string, string) -> bool)
    requires Completes(UnitCalls(u, env), env, world) && UnitValue(u, env) != RetNone
    ensures UnitValue(u, env) == Answer(DenoteUnit(u, world))
    decreases u
  {
    match u.atom
    case Const(b) =>
    case Call(name, arg, func) =>
      assert Asked(func, name, arg) in UnitCalls(u, env);
    case Group(e) => ValueSound(e, env, world);
  }

  ghost predicate NeverFails(env: Env) {
    forall f, name, arg :: env(f, name, arg) != RetNone
  }

  lemma {:induction false} ValueTotal(e: Expr, env: Env)
    requires NeverFails(env)
    ensures Value(e, env) != RetNone
    decreases e
  {
    match e
    case One(u) => UnitValueTotal(u, env);
    case Bin(l, op, u) =>
      ValueTotal(l, env);
      UnitValueTotal(u, env);
  }

  lemma {:induction false} UnitValueTotal(u: Unit, env: Env)
    requires NeverFails(env)
    ensures UnitValue(u, env) != RetNone
    decreases u
  {
    match u.atom
    case Group(e) => ValueTotal(e, env);
    case _ =>
  }

  /** A function right behind an operator that its left side has decided is not called, and everything else
      is; without an answer there is none. */
  lemma ShortCircuit(l: Expr, op: BinOp, u: Unit, env: Env)
    requires Value(l, env) != RetNone
    ensures var skipped := u.atom.Call? && Value(l, env) == (if op == AndOp then RetFalse else RetTrue);
      && Calls(Bin(l, op, u), env) == Calls(l, env) + (if skipped then {} else UnitCalls(u, env))
      && (skipped ==> Value(Bin(l, op, u), env) == Value(l, env))
      && (Value(Bin(l, op, u), env) == RetNone <==> !skipped && UnitValue(u, env) == RetNone)
  {
    hide Calls, UnitCalls;
    BinCalls(l, op, u, env);
  }

  lemma BinCalls(l: Expr, op: BinOp, u: Unit, env: Env)
    ensures var lv := Value(l, env);
      Calls(Bin(l, op, u), env)
      == if lv == RetNone || (u.atom.Call? && Decides(lv, op)) then Calls(l, env) else Calls(l, env) + UnitCalls(u, env)
  {
  }

  // ----- the loop computes the meaning -----

  /** A loop that goes on with the value of an expression as its left side. */
  function Holding(v: Ret): Vars {
    Vars(v, RetNone, NoOp, false)
  }

  lemma SettleFirst(ts: seq<Token>, env: Env, pos: nat, v: Vars)
    requires pos <= |ts|
    ensures Run(ts, env, pos, v) == Run(ts, env, pos, Settle(v))
  {
    assert Settle(Settle(v)) == Settle(v);
  }

  /** From `v` at `pos` the loop fails if `value` is no answer, and otherwise goes on at `next`
      as if it held `value`. */
  ghost predicate Yields(ts: seq<Token>, env: Env, pos: nat, v: Vars, value: Ret, next: nat)
    requires pos <= |ts| && next <= |ts|
  {
    if value == RetNone then Run(ts, env, pos, v).0 == -4
    else Run(ts, env, pos, v) == Run(ts, env, next, Holding(value))
  }

  /** The value an operand leaves behind with what was there before it. */
  function Combined(v: Vars, tmp: Ret): Ret
    requires v.lhs == RetNone <==> v.op == NoOp
  {
    if tmp == RetNone then RetNone
    else
      var value := if v.neg then Negate(tmp) else tmp;
      if v.lhs == RetNone then value else EvalBinary(v.lhs, value, v.op.op)
  }

  predicate Expecting(v: Vars) {
    v.rhs == RetNone && (v.lhs == RetNone <==> v.op == NoOp)
  }

  lemma OperandHolds(ts: seq<Token>, env: Env, pos: nat, v: Vars, tmp: Ret)
    requires pos <= |ts| && Expecting(v) && tmp != RetNone
    ensures Run(ts, env, pos, Operand(v, tmp)) == Run(ts, env, pos, Holding(Combined(v, tmp)))
  {
    SettleFirst(ts, env, pos, Operand(v, tmp));
    assert Settle(Operand(v, tmp)) == Holding(Combined(v, tmp));
  }

  function AtomValue(a: Atom, v: Vars, env: Env): Ret {
    match a
    case Const(b) => Answer(b)
    case Call(name, arg, func) => if Skips(v) then v.lhs else env(func, name, arg)
    case Group(e) => Value(e, env)
  }

  lemma {:induction false} RunAtom(ts: seq<Token>, env: Env, pos: nat, a: Atom, v: Vars)
    requires At(ts, pos, FlattenAtom(a)) && Expecting(v)
    ensures Yields(ts, env, pos, v, Combined(v, AtomValue(a, v, env)), pos + |FlattenAtom(a)|)
    decreases a
  {
    hide Value;
    assert Settle(v) == v;
    assert FlattenAtom(a)[0] == ts[pos];
    var tmp := AtomValue(a, v, env);
    if a.Group? {
      RunGroup(ts, env, pos, a.e);
    }
    if tmp != RetNone {
      OperandHolds(ts, env, pos + |FlattenAtom(a)|, v, tmp);
    }
  }

  /** The nested call for a group starts after its opening parenthesis. */
  lemma {:induction false} RunGroup(ts: seq<Token>, env: Env, pos: nat, e: Expr)
    requires At(ts, pos, FlattenAtom(Group(e)))
    ensures pos < |ts| && ts[pos] == Open
    ensures var r := Run(ts, env, pos + 1, START);
      if Value(e, env) == RetNone then r.0 == -4 else r == (Code(Value(e, env)), pos + |Flatten(e)| + 2)
    decreases e, 2
  {
    hide Value, Run, Flatten;
    AtJoin(ts, pos, [Open], Flatten(e) + [Close]);
    AtJoin(ts, pos + 1, Flatten(e), [Close]);
    assert [Open] + (Flatten(e) + [Close]) == FlattenAtom(Group(e));
    NestedStops(ts, env, pos + 1, e);
  }

  lemma {:induction false} RunUnit(ts: seq<Token>, env: Env, pos: nat, u: Unit, v: Vars)
    requires At(ts, pos, FlattenUnit(u)) && Expecting(v) && !v.neg
    ensures Yields(ts, env, pos, v, Combined(v.(neg := u.neg), AtomValue(u.atom, v, env)), pos + |FlattenUnit(u)|)
    decreases u
  {
    hide Value, FlattenAtom;
    if u.neg {
      AtJoin(ts, pos, [Not], FlattenAtom(u.atom));
      assert ts[pos] == Not && Settle(v) == v;
      RunAtom(ts, env, pos + 1, u.atom, v.(neg := true));
    } else {
      assert FlattenUnit(u) == FlattenAtom(u.atom);
      RunAtom(ts, env, pos, u.atom, v);
    }
  }

  lemma OperatorStep(ts: seq<Token>, env: Env, pos: nat, lv: Ret, op: BinOp)
    requires pos < |ts| && ts[pos] == OpToken(op)
    ensures Run(ts, env, pos, Holding(lv)) == Run(ts, env, pos + 1, Holding(lv).(op := Op(op)))
  {
  }

  /** The loop over the tokens of an expression computes its value. */
  lemma {:induction false} RunExpr(ts: seq<Token>, env: Env, pos: nat, e: Expr)
    requires At(ts, pos, Flatten(e))
    ensures Yields(ts, env, pos, START, Value(e, env), pos + |Flatten(e)|)
    decreases e, 0
  {
    hide FlattenUnit, UnitValue, Run, Combined, AtomValue;
    match e
    case One(u) =>
      RunUnit(ts, env, pos, u, START);
      UnitCombined(u, START, env);
    case Bin(l, op, u) =>
      AtJoin(ts, pos, Flatten(l) + [OpToken(op)], FlattenUnit(u));
      AtJoin(ts, pos, Flatten(l), [OpToken(op)]);
      RunExpr(ts, env, pos, l);
      var q, lv := pos + |Flatten(l)|, Value(l, env);
      assert ts[q] == OpToken(op);
      if lv != RetNone {
        var v := Holding(lv).(op := Op(op));
        OperatorStep(ts, env, q, lv, op);
        RunUnit(ts, env, q + 1, u, v);
        UnitCombined(u, v, env);
      }
  }

  lemma UnitCombined(u: Unit, v: Vars, env: Env)
    requires Expecting(v) && !v.neg
    ensures Combined(v.(neg := u.neg), AtomValue(u.atom, v, env))
         == if v.lhs == RetNone then UnitValue(u, env)
            else if u.atom.Call? && Decides(v.lhs, v.op.op) then v.lhs
            else if UnitValue(u, env) == RetNone then RetNone
            else EvalBinary(v.lhs, UnitValue(u, env), v.op.op)
  {
    hide Value;
  }

  /** A nested call stops just past its matching parenthesis. */
  lemma {:induction false} NestedStops(ts: seq<Token>, env: Env, pos: nat, e: Expr)
    requires At(ts, pos, Flatten(e)) && pos + |Flatten(e)| < |ts| && ts[pos + |Flatten(e)|] == Close
    ensures var r := Run(ts, env, pos, START);
      if Value(e, env) == RetNone then r.0 == -4 else r == (Code(Value(e, env)), pos + |Flatten(e)| + 1)
    decreases e, 1
  {
    hide Value, Flatten;
    RunExpr(ts, env, pos, e);
  }

  /** Executing the tokens of an expression returns its value, or -4 when that is no answer. */
  lemma ExecuteExpr(e: Expr, env: Env)
    ensures Execute(Flatten(e), env) == if Value(e, env) == RetNone then -4 else Code(Value(e, env))
  {
    hide Value, Flatten, Depth, NeverNegative, MayFollow;
    var ts := Flatten(e);
    FlattenContinues(None, e);
    assert ts[0..|ts|] == ts;
    RunExpr(ts, env, 0, e);
  }

  /** With functions that always answer, execution returns the precedence-free denotation. */
  lemma ExecuteDenotes(e: Expr, env: Env, world: (FuncId, string, string) -> bool)
    requires forall f, name, arg :: env(f, name, arg) == Answer(world(f, name, arg))
    ensures Execute(Flatten(e), env) == if Denote(e, world) then 1 else 0
  {
    hide Value, Denote, Execute, Flatten;
    ExecuteExpr(e, env);
    ValueTotal(e, env);
    ValueSound(e, env, world);
  }

  /** Execution depends on the calls that are made, and on no other function. */
  lemma ExecuteCallsOnly(e: Expr, env: Env, env': Env)
    requires Agree(Calls(e, env), env, env')
    ensures Execute(Flatten(e), env') == Execute(Flatten(e), env)
  {
    hide Value, Calls, Execute, Flatten;
    ValueCallsOnly(e, env, env');
    ExecuteExpr(e, env);
    ExecuteExpr(e, env');
  }

  /** A 0 or 1 is the denotation in every world that answers as the functions that were called and
      gave an answer, whatever the failed and the skipped ones would say in it. */
  lemma ExecuteIndependent(e: Expr, env: Env, world: (FuncId, string, string) -> bool)
    requires Completes(Calls(e, env), env, world) && Execute(Flatten(e), env) >= 0
    ensures Execute(Flatten(e), env) == if Denote(e, world) then 1 else 0
  {
    hide Value, Calls, Denote, Execute, Flatten;
    ExecuteExpr(e, env);
    ValueSound(e, env, world);
  }

  // ----- the loop itself -----

  /** `parser_execute_recursive`: local sides, operator and negation, and the shared position. */
  method ExecuteRecursive(ts: seq<Token>, env: Env, start: nat) returns (res: int, pos: nat)
    requires start <= |ts|
    ensures (res, pos) == Run(ts, env, start, START)
    decreases |ts| - start
  {
    var lhs, rhs, op, neg := RetNone, RetNone, NoOp, false;
    pos := start;
    while pos < |ts|
      invariant start <= pos <= |ts|
      invariant Run(ts, env, start, START) == Run(ts, env, pos, Vars(lhs, rhs, op, neg))
    {
      var token, tmp := ts[pos], RetNone;
      pos := pos + 1;
      if lhs != RetNone && rhs != RetNone && op != NoOp {
        lhs, rhs, op := EvalBinary(lhs, rhs, op.op), RetNone, NoOp;
      }
      match token {
        case Open =>
          res, pos := ExecuteRecursive(ts, env, pos);
          if res != 0 && res != 1 {
            return;
          }
          tmp := if res == 1 then RetTrue else RetFalse;
        case Close =>
          res := Code(lhs);
          return;
        case True =>
          tmp := RetTrue;
        case False =>
          tmp := RetFalse;
        case Func(name, arg, func) =>
          if lhs == RetFalse && op == Op(AndOp) {
            tmp := RetFalse;
          } else if lhs == RetTrue && op == Op(OrOp) {
            tmp := RetTrue;
          } else {
            tmp := env(func, name, arg);
          }
        case Not =>
          neg := !neg;
          continue;
        case And =>
          op := Op(AndOp);
          continue;
        case Or =>
          op := Op(OrOp);
          continue;
      }
      if tmp == RetNone {
        res := -4;
        return;
      }
      if neg {
        tmp, neg := Negate(tmp), false;
      }
      if lhs == RetNone {
        lhs := tmp;
      } else if rhs == RetNone {
        rhs := tmp;
      }
    }
    if lhs != RetNone && rhs != RetNone && op != NoOp {
      lhs := EvalBinary(lhs, rhs, op.op);
    }
    res := Code(lhs);
  }

  /** `parser_execute`: the position starts at the first token. */
  method ParserExecute(ts: seq<Token>, env: Env) returns (res: int)
    ensures res == Execute(ts, env)
    ensures forall e :: ts == Flatten(e) ==> res == if Value(e, env) == RetNone then -4 else Code(Value(e, env))
  {
    hide Run, Value;
    if |ts| == 0 {
      res := -2;
    } else {
      var pos;
      res, pos := ExecuteRecursive(ts, env, 0);
    }
    forall e | ts == Flatten(e) ensures res == if Value(e, env) == RetNone then -4 else Code(Value(e, env)) {
      ExecuteExpr(e, env);
    }
  }
}
