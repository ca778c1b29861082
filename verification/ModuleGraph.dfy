/** The dependency graph of loaded modules as a value, the load, release and unload steps of
    module.c as functions on it, and the invariants every step keeps. */
module ModuleGraph {

  type Name = string

  datatype Phase = Loading | Active

  datatype Mod = Mod(phase: Phase, depend: seq<Name>, rdepend: seq<Name>)

  /** `order` is the dict's node order, head first (the most recently inserted module). */
  datatype State = State(order: seq<Name>, mods: map<Name, Mod>)

  /** What opening a module's file finds; a name that is absent from the disk cannot be opened. */
  datatype Lib =
    | NoInit
    | NoFini
    | NoDepends
    | Lib(depends: seq<Name>, link: Link)

  /** The outcome of opening the file again with all symbols resolved. */
  datatype Link = Links | Unlinkable | SymbolsLost

  type Disk = map<Name, Lib>

  const NOTHING := State([], map[])

  // ----- the single steps -----

  function Enter(st: State, x: Name, deps: seq<Name>): State {
    State([x] + st.order, st.mods[x := Mod(Loading, deps, [])])
  }

  function AddDependent(st: State, d: Name, x: Name): State
    requires d in st.mods
  {
    st.(mods := st.mods[d := st.mods[d].(rdepend := st.mods[d].rdepend + [x])])
  }

  function Activate(st: State, x: Name): State
    requires x in st.mods
  {
    st.(mods := st.mods[x := st.mods[x].(phase := Active)])
  }

  /** `stringlist_del` at `j`: the last element takes the freed place. */
  function DelAt(s: seq<Name>, j: nat): seq<Name>
    requires j < |s|
  {
    s[j := s[|s| - 1]][..|s| - 1]
  }

  /** Deletes every occurrence of `x` from position `j` on. */
  function Strike(s: seq<Name>, x: Name, j: nat): seq<Name>
    requires j <= |s|
    decreases |s| - j
  {
    if j == |s| then s
    else if s[j] == x then Strike(DelAt(s, j), x, j)
    else Strike(s, x, j + 1)
  }

  function StruckMod(m: Mod, x: Name): Mod {
    m.(rdepend := Strike(m.rdepend, x, 0))
  }

  /** `module_release_dependencies`: `x` disappears from the dependents of everything in `deps`. */
  function Release(st: State, x: Name, deps: seq<Name>): State {
    st.(mods := map m | m in st.mods :: if m in deps then StruckMod(st.mods[m], x) else st.mods[m])
  }

  function Without(s: seq<Name>, x: Name): seq<Name> {
    if s == [] then [] else if s[0] == x then s[1..] else [s[0]] + Without(s[1..], x)
  }

  /** `dict_delete` of the module's node. */
  function Leave(st: State, x: Name): State {
    State(Without(st.order, x), st.mods - {x})
  }

  /** Release followed by free: the tail of `module_del`, and the rollback of a failed load. */
  function Unload(st: State, x: Name): State
    requires x in st.mods
  {
    Leave(Release(st, x, st.mods[x].depend), x)
  }

  // ----- loading -----

  /** `module_add` of an unaliased name: the new state and the return code. */
  function Add(st: State, disk: Disk, x: Name): (r: (State, int))
    ensures st.mods.Keys <= r.0.mods.Keys
    decreases disk.Keys - st.mods.Keys, 0
  {
    if x in st.mods then (st, -1)
    else if x !in disk then (st, -2)
    else match disk[x]
      case NoInit => (st, -3)
      case NoFini => (st, -4)
      case NoDepends => (st, -5)
      case Lib(deps, link) =>
        var entered := Enter(st, x, deps);
        assert disk.Keys - entered.mods.Keys < disk.Keys - st.mods.Keys by {
          assert x in disk.Keys - st.mods.Keys && x !in disk.Keys - entered.mods.Keys;
        }
        var (s, rc) := Solve(entered, disk, x, deps);
        if rc != 0 then (Unload(s, x), -6)
        else match link
          case Unlinkable => (Unload(s, x), -7)
          case SymbolsLost => (Unload(s, x), -8)
          case Links => (Activate(s, x), 0)
  }

  /** `module_solve_dependencies` of `x`, with `rest` still to be looked at. */
  function Solve(st: State, disk: Disk, x: Name, rest: seq<Name>): (r: (State, int))
    ensures st.mods.Keys <= r.0.mods.Keys
    decreases disk.Keys - st.mods.Keys, 1 + |rest|
  {
    if rest == [] then (st, 0)
    else
      var d := rest[0];
      if d == x then Solve(st, disk, x, rest[1..])
      else if d in st.mods && st.mods[d].phase == Loading then (st, -1)
      else if d in st.mods then Solve(AddDependent(st, d, x), disk, x, rest[1..])
      else
        var (s, rc) := Add(st, disk, d);
        if rc == 0 && d in s.mods then Solve(AddDependent(s, d, x), disk, x, rest[1..])
        else (s, -2)
  }

  /** Why a load fails. */
  lemma AddCodes(st: State, disk: Disk, x: Name)
    ensures var rc := Add(st, disk, x).1;
      && (rc == -1 <==> x in st.mods)
      && (rc == -2 <==> x !in st.mods && x !in disk)
      && (rc == -3 <==> x !in st.mods && x in disk && disk[x] == NoInit)
      && (rc == -4 <==> x !in st.mods && x in disk && disk[x] == NoFini)
      && (rc == -5 <==> x !in st.mods && x in disk && disk[x] == NoDepends)
      && (rc in {-6, -7, -8, 0} <==> x !in st.mods && x in disk && disk[x].Lib?)
      && (rc == -7 ==> disk[x].link == Unlinkable) && (rc == -8 ==> disk[x].link == SymbolsLost)
      && (rc == 0 ==> disk[x].link == Links)
  {
    hide Solve, Unload, Enter, Activate;
  }

  /** `module_add_smart` over a list of names. */
  function AddAll(st: State, disk: Disk, names: seq<Name>): State
    decreases |names|
  {
    if names == [] then st
    else AddAll(if names[0] in st.mods then st else Add(st, disk, names[0]).0, disk, names[1..])
  }

  /** One unload pass: the names of `visit` in turn, each deleted when it is loaded, not in
      `keep`, and nothing depends on it. */
  function Prune(st: State, visit: seq<Name>, keep: set<Name>): State
    decreases |visit|
  {
    if visit == [] then st
    else Prune(if Idle(st, visit[0], keep) then Unload(st, visit[0]) else st, visit[1..], keep)
  }

  predicate Idle(st: State, n: Name, keep: set<Name>) {
    n in st.mods && n !in keep && st.mods[n].rdepend == []
  }

  // ----- dependency paths -----

  /** `a` depends on another module `b`. */
  predicate Edge(st: State, a: Name, b: Name) {
    a in st.mods && b in st.mods[a].depend && a != b
  }

  ghost predicate Path(st: State, p: seq<Name>) {
    p != [] && forall i :: 0 <= i < |p| - 1 ==> Edge(st, p[i], p[i + 1])
  }

  /** `b` is `a` or a transitive dependency of it. */
  ghost predicate Reach(st: State, a: Name, b: Name) {
    exists p :: Path(st, p) && p[0] == a && p[|p| - 1] == b
  }

  // ----- the invariant -----

  /** `done` maps each module to the part of its dependency list that was processed so far;
      `rank` and `now` number the modules in the order of their activation. */
  datatype Clock = Clock(done: map<Name, seq<Name>>, rank: map<Name, nat>, now: nat)

  ghost predicate WellFormed(st: State) {
    && (forall i, j :: 0 <= i < j < |st.order| ==> st.order[i] != st.order[j])
    && (forall n :: n in st.order <==> n in st.mods)
  }

  /** Active modules have processed their whole list, modules being loaded a prefix of it. */
  ghost predicate Progress(st: State, k: Clock) {
    && k.done.Keys == st.mods.Keys
    && forall x :: x in st.mods ==>
         if st.mods[x].phase == Active then k.done[x] == st.mods[x].depend
         else k.done[x] <= st.mods[x].depend
  }

  /** How often `x` occurs in `s`. */
  function Times(s: seq<Name>, x: Name): nat {
    if s == [] then 0 else Times(s[..|s| - 1], x) + if s[|s| - 1] == x then 1 else 0
  }

  /** How often `x` counts among the dependents of `m`; a module's dependency on itself is ignored. */
  function Due(k: Clock, m: Name, x: Name): nat {
    if m != x && x in k.done then Times(k.done[x], m) else 0
  }

  /** Reverse dependencies are the exact inverse, with multiplicity, of the processed dependencies. */
  ghost predicate Inverse(st: State, k: Clock) {
    forall m, x :: m in st.mods ==> Times(st.mods[m].rdepend, x) == Due(k, m, x)
  }

  /** Every processed dependency is an active module. */
  ghost predicate Closed(st: State, k: Clock) {
    forall x, d :: x in k.done && d in k.done[x] && d != x ==> d in st.mods && st.mods[d].phase == Active
  }

  /** Active modules are numbered above everything they depend on. */
  ghost predicate Ranked(st: State, k: Clock) {
    forall x :: x in st.mods && st.mods[x].phase == Active ==>
      && x in k.rank && k.rank[x] < k.now
      && forall d :: d in st.mods[x].depend && d != x ==> d in k.rank && k.rank[d] < k.rank[x]
  }

  ghost predicate Inv(st: State, k: Clock) {
    WellFormed(st) && Progress(st, k) && Inverse(st, k) && Closed(st, k) && Ranked(st, k)
  }

  /** The invariant between operations: no load is in progress. */
  ghost predicate Consistent(st: State) {
    && (forall x :: x in st.mods ==> st.mods[x].phase == Active)
    && exists k: Clock :: Inv(st, k)
  }
}
