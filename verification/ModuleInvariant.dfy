/** What every load and unload step keeps. */
module ModuleInvariant {
  import opened ModuleGraph

  lemma {:induction false} NeverTimes(s: seq<Name>, x: Name)
    ensures Times(s, x) == 0 <==> x !in s
  {
    if s != [] {
      var init := s[..|s| - 1];
      NeverTimes(init, x);
      assert s == init + [s[|s| - 1]];
    }
  }

  lemma TimesAppend(s: seq<Name>, y: Name, x: Name)
    ensures Times(s + [y], x) == Times(s, x) + if x == y then 1 else 0
  {
    assert (s + [y])[..|s|] == s;
  }

  lemma {:induction false} TimesConcat(s: seq<Name>, t: seq<Name>, x: Name)
    ensures Times(s + t, x) == Times(s, x) + Times(t, x)
  {
    if t == [] {
      assert s + t == s;
    } else {
      var init, last := t[..|t| - 1], t[|t| - 1];
      TimesConcat(s, init, x);
      TimesAppend(s + init, last, x);
      assert s + t == s + init + [last];
    }
  }

  lemma TimesDelAt(s: seq<Name>, j: nat, y: Name)
    requires j < |s|
    ensures Times(DelAt(s, j), y) == Times(s, y) - if s[j] == y then 1 else 0
  {
    hide Times;
    var n := |s| - 1;
    var head := s[..j];
    TimesAppend(head, s[j], y);
    if j == n {
      assert DelAt(s, j) == head && s == head + [s[j]];
    } else {
      var mid, last := s[j + 1..n], s[n];
      assert s == head + [s[j]] + mid + [last];
      assert DelAt(s, j) == head + [last] + mid;
      TimesAppend(head, last, y);
      TimesAppend(head + [s[j]] + mid, last, y);
      TimesConcat(head + [s[j]], mid, y);
      TimesConcat(head + [last], mid, y);
    }
  }

  /** Deleting while the last element moves into the gap loses exactly the occurrences of `x`. */
  lemma {:induction false} TimesStrike(s: seq<Name>, x: Name, j: nat, y: Name)
    requires j <= |s| && x !in s[..j]
    ensures Times(Strike(s, x, j), y) == if y == x then 0 else Times(s, y)
    decreases |s| - j
  {
    hide Times;
    if j == |s| {
      assert s[..j] == s;
      NeverTimes(s, x);
    } else if s[j] == x {
      TimesDelAt(s, j, y);
      var t := DelAt(s, j);
      assert t[..j] == s[..j];
      TimesStrike(t, x, j, y);
    } else {
      assert s[..j + 1] == s[..j] + [s[j]];
      TimesStrike(s, x, j + 1, y);
    }
  }

  lemma {:induction false} WithoutMembers(s: seq<Name>, x: Name)
    requires forall i, j :: 0 <= i < j < |s| ==> s[i] != s[j]
    ensures var w := Without(s, x);
      && (forall i, j :: 0 <= i < j < |w| ==> w[i] != w[j])
      && (forall n :: n in w <==> n in s && n != x)
  {
    if s != [] && s[0] != x {
      WithoutMembers(s[1..], x);
      var w := Without(s[1..], x);
      assert s == [s[0]] + s[1..];
      assert s[0] !in s[1..];
    } else if s != [] {
      assert s == [s[0]] + s[1..];
      assert s[0] !in s[1..];
    }
  }

  lemma TimesStruck(m: Mod, x: Name, y: Name)
    ensures Times(StruckMod(m, x).rdepend, y) == if y == x then 0 else Times(m.rdepend, y)
  {
    TimesStrike(m.rdepend, x, 0, y);
  }

  /** Whoever a processed dependency list names counts it as a dependent, and the other way round. */
  lemma DependentIff(st: State, k: Clock, m: Name, x: Name)
    requires Inverse(st, k) && m in st.mods
    ensures x in st.mods[m].rdepend <==> x in k.done && m != x && m in k.done[x]
  {
    hide Times;
    NeverTimes(st.mods[m].rdepend, x);
    if x in k.done {
      NeverTimes(k.done[x], m);
    }
  }

  /** Modules being loaded have no dependents. */
  lemma LoadingHasNoDependents(st: State, k: Clock, x: Name)
    requires Inverse(st, k) && Closed(st, k) && x in st.mods && st.mods[x].phase == Loading
    ensures st.mods[x].rdepend == []
  {
    var deps := st.mods[x].rdepend;
    if deps != [] {
      DependentIff(st, k, x, deps[0]);
      hide Inverse;
    }
  }

  lemma LoadingIsLeaf(st: State, k: Clock, x: Name)
    requires Inv(st, k) && x in st.mods && st.mods[x].phase == Loading
    ensures st.mods[x].rdepend == []
  {
    hide Inverse, Closed;
    LoadingHasNoDependents(st, k, x);
  }

  lemma InvKeys(st: State, k: Clock)
    requires Inv(st, k)
    ensures k.done.Keys == st.mods.Keys
  {
    hide Inverse, Closed, WellFormed, Ranked;
  }

  /** Unloading takes away one module and leaves the others' dependencies and phase alone. */
  lemma UnloadLeaves(st: State, x: Name)
    requires x in st.mods
    ensures Unload(st, x).mods.Keys == st.mods.Keys - {x}
    ensures forall y :: y in st.mods && y != x ==> SameModule(st.mods[y], Unload(st, x).mods[y])
  {
    hide Strike;
  }

  function Entered(k: Clock, x: Name): Clock {
    k.(done := k.done[x := []])
  }

  lemma EnterKeeps(st: State, k: Clock, x: Name, deps: seq<Name>)
    requires Inv(st, k) && x !in st.mods
    ensures Inv(Enter(st, x, deps), Entered(k, x))
  {
    hide Inverse, Closed, WellFormed;
    EnterInverse(st, k, x, deps);
    EnterOrder(st, k, x, deps);
  }

  lemma EnterOrder(st: State, k: Clock, x: Name, deps: seq<Name>)
    requires WellFormed(st) && Closed(st, k) && x !in st.mods
    ensures WellFormed(Enter(st, x, deps)) && Closed(Enter(st, x, deps), Entered(k, x))
  {
  }

  lemma EnterInverse(st: State, k: Clock, x: Name, deps: seq<Name>)
    requires Progress(st, k) && Inverse(st, k) && Closed(st, k) && x !in st.mods
    ensures Inverse(Enter(st, x, deps), Entered(k, x))
  {
    hide Times;
    forall y ensures Times([], y) == 0 { NeverTimes([], y); }
    forall y | y in k.done ensures Times(k.done[y], x) == 0 { NeverTimes(k.done[y], x); }
  }

  function Looked(k: Clock, x: Name, d: Name): Clock
    requires x in k.done
  {
    k.(done := k.done[x := k.done[x] + [d]])
  }

  /** `x` is being loaded and has `rest` still to look at. */
  ghost predicate Working(st: State, k: Clock, x: Name, rest: seq<Name>) {
    && x in st.mods && x in k.done
    && st.mods[x].phase == Loading && k.done[x] + rest == st.mods[x].depend
  }

  lemma EnterWorking(st: State, k: Clock, x: Name, deps: seq<Name>)
    ensures Working(Enter(st, x, deps), Entered(k, x), x, deps)
  {
  }

  lemma LookedProgress(st: State, k: Clock, x: Name, rest: seq<Name>)
    requires Progress(st, k) && Working(st, k, x, rest) && rest != []
    ensures Progress(st, Looked(k, x, rest[0]))
    ensures Working(st, Looked(k, x, rest[0]), x, rest[1..])
  {
    assert k.done[x] + [rest[0]] + rest[1..] == st.mods[x].depend;
  }

  lemma SkipKeeps(st: State, k: Clock, x: Name, rest: seq<Name>)
    requires Inv(st, k) && Working(st, k, x, rest) && rest != [] && rest[0] == x
    ensures Inv(st, Looked(k, x, x)) && Working(st, Looked(k, x, x), x, rest[1..])
  {
    hide Progress, Inverse, WellFormed;
    LookedProgress(st, k, x, rest);
    SkipInverse(st, k, x);
  }

  lemma SkipInverse(st: State, k: Clock, x: Name)
    requires Inverse(st, k) && x in k.done
    ensures Inverse(st, Looked(k, x, x))
  {
    hide Times;
    forall m ensures Times(k.done[x] + [x], m) == Times(k.done[x], m) + if m == x then 1 else 0 {
      TimesAppend(k.done[x], x, m);
    }
  }

  lemma LinkKeeps(st: State, k: Clock, x: Name, rest: seq<Name>)
    requires Inv(st, k) && Working(st, k, x, rest) && rest != [] && rest[0] != x
    requires rest[0] in st.mods && st.mods[rest[0]].phase == Active
    ensures var s, k' := AddDependent(st, rest[0], x), Looked(k, x, rest[0]);
      Inv(s, k') && Working(s, k', x, rest[1..])
  {
    hide Inverse, Closed, Ranked;
    LookedProgress(st, k, x, rest);
    LinkInverse(st, k, x, rest[0]);
    LinkClosed(st, k, x, rest[0]);
  }

  lemma LinkClosed(st: State, k: Clock, x: Name, d: Name)
    requires Closed(st, k) && Ranked(st, k) && x in k.done && d in st.mods && st.mods[d].phase == Active
    ensures Closed(AddDependent(st, d, x), Looked(k, x, d)) && Ranked(AddDependent(st, d, x), Looked(k, x, d))
  {
  }

  lemma LinkInverse(st: State, k: Clock, x: Name, d: Name)
    requires Inverse(st, k) && x in k.done && d in st.mods && d != x
    ensures Inverse(AddDependent(st, d, x), Looked(k, x, d))
  {
    hide Times;
    var s, k' := AddDependent(st, d, x), Looked(k, x, d);
    forall m, y | m in s.mods
      ensures Times(s.mods[m].rdepend, y) == Due(k', m, y)
    {
      InverseAt(st, k, m, y);
      hide Inverse;
      TimesAppend(st.mods[d].rdepend, x, y);
      TimesAppend(k.done[x], d, m);
    }
  }

  lemma InverseAt(st: State, k: Clock, m: Name, y: Name)
    requires Inverse(st, k) && m in st.mods
    ensures Times(st.mods[m].rdepend, y) == Due(k, m, y)
  {
  }

  function Activated(k: Clock, x: Name): Clock {
    k.(rank := k.rank[x := k.now], now := k.now + 1)
  }

  lemma ActivateKeeps(st: State, k: Clock, x: Name)
    requires Inv(st, k) && Working(st, k, x, [])
    ensures Inv(Activate(st, x), Activated(k, x))
  {
    hide Ranked, Inverse, Closed;
    assert k.done[x] + [] == k.done[x];
    ActivateRanked(st, k, x);
    ActivateEdges(st, k, x);
  }

  lemma ActivateRanked(st: State, k: Clock, x: Name)
    requires Progress(st, k) && Closed(st, k) && Ranked(st, k)
    requires x in st.mods && st.mods[x].phase == Loading && k.done[x] == st.mods[x].depend
    ensures Ranked(Activate(st, x), Activated(k, x))
  {
    forall y | y in st.mods && st.mods[y].phase == Active ensures x !in st.mods[y].depend {
      assert y != x && k.done[y] == st.mods[y].depend;
    }
  }

  lemma ActivateEdges(st: State, k: Clock, x: Name)
    requires Inverse(st, k) && Closed(st, k) && x in st.mods
    ensures Inverse(Activate(st, x), Activated(k, x)) && Closed(Activate(st, x), Activated(k, x))
  {
    hide Times;
  }

  function Departed(k: Clock, x: Name): Clock {
    k.(done := k.done - {x})
  }

  /** Releasing and freeing a module nothing depends on keeps the invariant, whether it is active
      (`module_del`) or half loaded (the rollback in `module_add`). */
  lemma UnloadKeeps(st: State, k: Clock, x: Name)
    requires Inv(st, k) && x in st.mods && st.mods[x].rdepend == []
    ensures Inv(Unload(st, x), Departed(k, x))
  {
    hide WellFormed, Inverse, Closed, Ranked, Strike;
    UnloadWellFormed(st, x);
    UnloadInverse(st, k, x);
    UnloadClosed(st, k, x);
    UnloadRanked(st, k, x);
  }

  lemma UnloadWellFormed(st: State, x: Name)
    requires WellFormed(st) && x in st.mods
    ensures WellFormed(Unload(st, x))
  {
    WithoutMembers(st.order, x);
  }

  lemma UnloadClosed(st: State, k: Clock, x: Name)
    requires Inverse(st, k) && Closed(st, k) && x in st.mods && st.mods[x].rdepend == []
    ensures Closed(Unload(st, x), Departed(k, x))
  {
    hide Inverse, Strike;
    forall y | y in k.done && y != x ensures x !in k.done[y] {
      DependentIff(st, k, x, y);
    }
  }

  lemma UnloadRanked(st: State, k: Clock, x: Name)
    requires Ranked(st, k) && x in st.mods
    ensures Ranked(Unload(st, x), Departed(k, x))
  {
    hide Strike;
  }

  lemma UnloadInverse(st: State, k: Clock, x: Name)
    requires Progress(st, k) && Inverse(st, k) && x in st.mods
    ensures Inverse(Unload(st, x), Departed(k, x))
  {
    hide Times, Unload, Progress, Strike;
    UnloadLeaves(st, x);
    forall m, y | m in Unload(st, x).mods
      ensures Times(Unload(st, x).mods[m].rdepend, y) == Due(Departed(k, x), m, y)
    {
      UnloadAt(st, x, m);
      UnloadTimes(st, k, x, m, y);
    }
  }

  /** What an unload leaves of another module. */
  function LeftOf(st: State, x: Name, m: Name): Mod
    requires x in st.mods && m in st.mods
  {
    if m in st.mods[x].depend then StruckMod(st.mods[m], x) else st.mods[m]
  }

  lemma UnloadAt(st: State, x: Name, m: Name)
    requires x in st.mods && m in Unload(st, x).mods
    ensures m in st.mods && m != x && Unload(st, x).mods[m] == LeftOf(st, x, m)
  {
    hide Strike;
  }

  lemma UnloadTimes(st: State, k: Clock, x: Name, m: Name, y: Name)
    requires Progress(st, k) && Inverse(st, k) && x in st.mods && m in st.mods && m != x
    ensures Times(LeftOf(st, x, m).rdepend, y) == if y != x then Due(k, m, y) else 0
  {
    hide Times, Strike, StruckMod;
    TimesStruck(st.mods[m], x, y);
    if m !in st.mods[x].depend {
      NeverTimes(k.done[x], m);
    }
  }

  // ----- a whole load -----

  /** What loading leaves alone: nothing is unloaded, and the modules that were there keep
      their dependencies and their phase; whatever is new is active. */
  ghost predicate Grows(st: State, s: State) {
    && (forall y :: y in st.mods ==> y in s.mods && SameModule(st.mods[y], s.mods[y]))
    && (forall y :: y in s.mods && y !in st.mods ==> s.mods[y].phase == Active)
  }

  predicate SameModule(a: Mod, b: Mod) {
    a.depend == b.depend && a.phase == b.phase
  }

  ghost predicate DoneKept(k: Clock, k': Clock) {
    forall y :: y in k.done ==> y in k'.done && k'.done[y] == k.done[y]
  }

  lemma StepKept(k: Clock, x: Name, d: Name)
    requires x in k.done
    ensures Departed(Looked(k, x, d), x) == Departed(k, x)
  {
    assert Looked(k, x, d).done - {x} == k.done - {x};
  }

  lemma StepBack(k: Clock, x: Name)
    ensures DoneKept(Departed(k, x), k)
  {
  }

  lemma NewIsActive(st: State, s: State, d: Name)
    requires Grows(st, s) && d in s.mods && d !in st.mods
    ensures s.mods[d].phase == Active
  {
  }

  lemma LoadedMeanwhile(st: State, k: Clock, s: State, k': Clock, x: Name, rest: seq<Name>)
    requires Grows(st, s) && DoneKept(k, k') && Working(st, k, x, rest)
    ensures Working(s, k', x, rest) && DoneKept(Departed(k, x), Departed(k', x)) && DoneKept(Departed(k', x), k')
  {
    assert SameModule(st.mods[x], s.mods[x]);
  }

  lemma GrowsLink(st: State, d: Name, x: Name)
    requires d in st.mods
    ensures Grows(st, AddDependent(st, d, x))
  {
  }

  lemma GrowsTransitive(a: State, b: State, c: State)
    requires Grows(a, b) && Grows(b, c)
    ensures Grows(a, c)
  {
    forall y | y in c.mods && y !in a.mods ensures c.mods[y].phase == Active {
      assert y in b.mods ==> SameModule(b.mods[y], c.mods[y]);
    }
  }

  lemma DoneTransitive(a: Clock, b: Clock, c: Clock)
    requires DoneKept(a, b) && DoneKept(b, c)
    ensures DoneKept(a, c)
  {
  }

  lemma GrowsReflexive(st: State, k: Clock)
    ensures Grows(st, st) && DoneKept(k, k)
  {
  }

  /** The load of `x` has looked at some of its dependencies and got as far as `s`. */
  ghost predicate Midway(st: State, k: Clock, x: Name, deps: seq<Name>, s: State, k2: Clock) {
    && x !in st.mods && k.done.Keys == st.mods.Keys
    && Grows(Enter(st, x, deps), s) && DoneKept(Departed(Entered(k, x), x), k2)
  }

  lemma RollbackKeeps(st: State, k: Clock, x: Name, deps: seq<Name>, s: State, k2: Clock)
    requires Midway(st, k, x, deps, s, k2) && Inv(s, k2)
    ensures x in s.mods && x !in Unload(s, x).mods
    ensures Inv(Unload(s, x), Departed(k2, x)) && DoneKept(k, Departed(k2, x)) && Grows(st, Unload(s, x))
  {
    hide Inv, Unload, Grows, DoneKept;
    RollbackGrows(st, k, x, deps, s, k2);
    LoadingIsLeaf(s, k2, x);
    UnloadKeeps(s, k2, x);
    UnloadLeaves(s, x);
  }

  lemma RollbackGrows(st: State, k: Clock, x: Name, deps: seq<Name>, s: State, k2: Clock)
    requires Midway(st, k, x, deps, s, k2)
    ensures x in s.mods && s.mods[x].phase == Loading
    ensures DoneKept(k, Departed(k2, x)) && Grows(st, Unload(s, x))
  {
    hide Unload, Grows, DoneKept;
    GrowsEntered(st, x, deps, s);
    UnloadLeaves(s, x);
    GrowsDropped(st, x, deps, s, Unload(s, x));
    DoneDropped(k, x, k2);
  }

  lemma GrowsEntered(st: State, x: Name, deps: seq<Name>, s: State)
    requires Grows(Enter(st, x, deps), s)
    ensures x in s.mods && s.mods[x].phase == Loading
  {
    var entered := Enter(st, x, deps);
    assert x in entered.mods && SameModule(entered.mods[x], s.mods[x]);
  }

  lemma GrowsDropped(st: State, x: Name, deps: seq<Name>, s: State, u: State)
    requires x !in st.mods && Grows(Enter(st, x, deps), s) && u.mods.Keys == s.mods.Keys - {x}
    requires forall y :: y in s.mods && y != x ==> SameModule(s.mods[y], u.mods[y])
    ensures Grows(st, u)
  {
    var entered := Enter(st, x, deps);
    forall y | y in st.mods ensures y in u.mods && SameModule(st.mods[y], u.mods[y]) {
      assert y in entered.mods && SameModule(entered.mods[y], s.mods[y]);
    }
    forall y | y in u.mods && y !in st.mods ensures u.mods[y].phase == Active {
      assert y !in entered.mods && SameModule(s.mods[y], u.mods[y]);
    }
  }

  lemma DoneDropped(k: Clock, x: Name, k2: Clock)
    requires x !in k.done && DoneKept(Departed(Entered(k, x), x), k2)
    ensures DoneKept(k, Departed(k2, x))
  {
    forall y | y in k.done ensures y in Departed(k2, x).done && Departed(k2, x).done[y] == k.done[y] {
      assert y in Departed(Entered(k, x), x).done;
    }
  }

  lemma CommitKeeps(st: State, k: Clock, x: Name, deps: seq<Name>, s: State, k2: Clock)
    requires Midway(st, k, x, deps, s, k2) && Inv(s, k2) && Working(s, k2, x, [])
    ensures x in Activate(s, x).mods
    ensures Inv(Activate(s, x), Activated(k2, x)) && DoneKept(k, Activated(k2, x)) && Grows(st, Activate(s, x))
  {
    hide Inv, Grows, DoneKept;
    CommitGrows(st, k, x, deps, s, k2);
    ActivateKeeps(s, k2, x);
  }

  lemma CommitGrows(st: State, k: Clock, x: Name, deps: seq<Name>, s: State, k2: Clock)
    requires Midway(st, k, x, deps, s, k2) && x in s.mods
    ensures DoneKept(k, Activated(k2, x)) && Grows(st, Activate(s, x))
  {
  }

  /** A load, successful or not, keeps the invariant with the outer loads' progress as it was. */
  lemma {:induction false} AddKeeps(st: State, k: Clock, disk: Disk, x: Name) returns (k': Clock)
    requires Inv(st, k)
    ensures Inv(Add(st, disk, x).0, k') && DoneKept(k, k')
    ensures Grows(st, Add(st, disk, x).0)
    ensures x !in st.mods ==> (x in Add(st, disk, x).0.mods <==> Add(st, disk, x).1 == 0)
    decreases disk.Keys - st.mods.Keys, 0
  {
    hide Inv, Unload, DoneKept, Working, Grows, SameModule;
    InvKeys(st, k);
    GrowsReflexive(st, k);
    if x in st.mods || x !in disk || !disk[x].Lib? {
      return k;
    }
    var Lib(deps, link) := disk[x];
    var entered := Enter(st, x, deps);
    EnterKeeps(st, k, x, deps);
    assert disk.Keys - entered.mods.Keys < disk.Keys - st.mods.Keys by {
      assert x in disk.Keys - st.mods.Keys && x !in disk.Keys - entered.mods.Keys;
    }
    var (s, rc) := Solve(entered, disk, x, deps);
    assert Working(entered, Entered(k, x), x, deps) by {
      EnterWorking(st, k, x, deps);
    }
    var k2 := SolveKeeps(entered, Entered(k, x), disk, x, deps);
    assert x in entered.mods;
    if rc != 0 || link != Links {
      k' := Departed(k2, x);
      RollbackKeeps(st, k, x, deps, s, k2);
    } else {
      k' := Activated(k2, x);
      CommitKeeps(st, k, x, deps, s, k2);
    }
  }

  lemma {:induction false} SolveKeeps(st: State, k: Clock, disk: Disk, x: Name, rest: seq<Name>)
    returns (k': Clock)
    requires Inv(st, k) && Working(st, k, x, rest)
    ensures Inv(Solve(st, disk, x, rest).0, k') && DoneKept(Departed(k, x), k')
    ensures Grows(st, Solve(st, disk, x, rest).0)
    ensures Solve(st, disk, x, rest).1 == 0 ==> Working(Solve(st, disk, x, rest).0, k', x, [])
    decreases disk.Keys - st.mods.Keys, 1 + |rest|, 0
  {
    hide Inv, Unload, DoneKept, Grows;
    StepBack(k, x);
    GrowsReflexive(st, k);
    if rest == [] {
      return k;
    }
    var d := rest[0];
    if d == x {
      SkipKeeps(st, k, x, rest);
      StepKept(k, x, d);
      k' := SolveKeeps(st, Looked(k, x, d), disk, x, rest[1..]);
    } else if d in st.mods && st.mods[d].phase == Loading {
      return k;
    } else if d in st.mods {
      k' := LinkAndSolveKeeps(st, k, disk, x, rest);
    } else {
      var (s, rc) := Add(st, disk, d);
      k' := AddKeeps(st, k, disk, d);
      LoadedMeanwhile(st, k, s, k', x, rest);
      if rc == 0 {
        ghost var k1 := k';
        assert d in s.mods && s.mods[d].phase == Active by {
          NewIsActive(st, s, d);
        }
        k' := LinkAndSolveKeeps(s, k1, disk, x, rest);
        GrowsTransitive(st, s, Solve(AddDependent(s, d, x), disk, x, rest[1..]).0);
        DoneTransitive(Departed(k, x), Departed(k1, x), k');
      } else {
        DoneTransitive(Departed(k, x), Departed(k', x), k');
      }
    }
  }

  lemma {:induction false} LinkAndSolveKeeps(st: State, k: Clock, disk: Disk, x: Name, rest: seq<Name>)
    returns (k': Clock)
    requires Inv(st, k) && Working(st, k, x, rest) && rest != [] && rest[0] != x
    requires rest[0] in st.mods && st.mods[rest[0]].phase == Active
    ensures var (s, rc) := Solve(AddDependent(st, rest[0], x), disk, x, rest[1..]);
      && Inv(s, k') && DoneKept(Departed(k, x), k') && Grows(st, s)
      && (rc == 0 ==> Working(s, k', x, []))
    decreases disk.Keys - st.mods.Keys, |rest|, 1
  {
    hide Inv, Solve, DoneKept, Grows;
    var d := rest[0];
    LinkKeeps(st, k, x, rest);
    StepKept(k, x, d);
    assert AddDependent(st, d, x).mods.Keys == st.mods.Keys;
    k' := SolveKeeps(AddDependent(st, d, x), Looked(k, x, d), disk, x, rest[1..]);
    GrowsLink(st, d, x);
    GrowsTransitive(st, AddDependent(st, d, x), Solve(AddDependent(st, d, x), disk, x, rest[1..]).0);
  }
}
