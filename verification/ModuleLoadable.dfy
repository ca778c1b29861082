/** Exactly when a load succeeds: an independent description of the loadable modules, and the
    agreement of the recursive loader with it. */
module ModuleLoadable {
  import opened ModuleGraph
  import opened ModuleInvariant

  /** With `before` already available, `n` is loaded, or its file can be opened and linked and
      every dependency it names is available. */
  predicate Ready(st: State, disk: Disk, before: seq<Name>, n: Name) {
    if n in st.mods then st.mods[n].phase == Active
    else
      && n in disk && disk[n].Lib? && disk[n].link == Links
      && forall d :: d in disk[n].depends ==> d == n || IsActive(st, d) || d in before
  }

  predicate IsActive(st: State, d: Name) {
    d in st.mods && st.mods[d].phase == Active
  }

  /** The modules of `plan` can be made available one after the other. */
  ghost predicate Buildable(st: State, disk: Disk, plan: seq<Name>) {
    forall i :: 0 <= i < |plan| ==> Ready(st, disk, plan[..i], plan[i])
  }

  /** Some plan makes `x` available. */
  ghost predicate Loadable(st: State, disk: Disk, x: Name) {
    exists plan :: Buildable(st, disk, plan) && x in plan
  }

  /** `s` is `st` with exactly the modules of `plan` loaded. */
  ghost predicate Made(st: State, disk: Disk, plan: seq<Name>, s: State) {
    && Buildable(st, disk, plan) && Grows(st, s)
    && (forall n :: n in plan ==> n !in st.mods)
    && (forall n :: n in s.mods <==> n in st.mods || n in plan)
  }

  lemma BuildableLater(st: State, disk: Disk, plan: seq<Name>, s: State)
    requires Buildable(st, disk, plan) && Grows(st, s)
    ensures Buildable(s, disk, plan)
  {
    forall i | 0 <= i < |plan| ensures Ready(s, disk, plan[..i], plan[i]) {
      assert Ready(st, disk, plan[..i], plan[i]);
      forall d | IsActive(st, d) ensures IsActive(s, d) {
        assert SameModule(st.mods[d], s.mods[d]);
      }
    }
  }

  /** `m` is `st` followed by the load of `first`, and `s` is `m` followed by the load of `second`. */
  lemma MadeTransitive(st: State, disk: Disk, first: seq<Name>, m: State, second: seq<Name>, s: State)
    requires Made(st, disk, first, m) && Made(m, disk, second, s)
    ensures Made(st, disk, first + second, s)
  {
    var plan := first + second;
    GrowsTransitive(st, m, s);
    forall i | 0 <= i < |plan| ensures Ready(st, disk, plan[..i], plan[i]) {
      if i < |first| {
        assert plan[..i] == first[..i];
        assert Ready(st, disk, first[..i], first[i]);
      } else {
        var j := i - |first|;
        assert plan[..i] == first + second[..j];
        assert Ready(m, disk, second[..j], second[j]);
        assert second[j] !in m.mods;
        forall d | IsActive(m, d) ensures IsActive(st, d) || d in first {
          assert d in st.mods ==> SameModule(st.mods[d], m.mods[d]);
        }
      }
    }
  }

  lemma MadeNothing(st: State, disk: Disk)
    ensures Made(st, disk, [], st)
  {
  }

  /** Every load makes a plan true: nothing else is loaded, whether or not it succeeds. */
  lemma {:induction false} AddMakes(st: State, k: Clock, disk: Disk, x: Name) returns (plan: seq<Name>)
    requires Inv(st, k)
    ensures Made(st, disk, plan, Add(st, disk, x).0)
    decreases disk.Keys - st.mods.Keys, 0, 0
  {
    hide Inv, Made, Unload;
    MadeNothing(st, disk);
    if x in st.mods || x !in disk || !disk[x].Lib? {
      return [];
    }
    var Lib(deps, link) := disk[x];
    var entered := Enter(st, x, deps);
    EnterKeeps(st, k, x, deps);
    EnterWorking(st, k, x, deps);
    assert disk.Keys - entered.mods.Keys < disk.Keys - st.mods.Keys by {
      assert x in disk.Keys - st.mods.Keys && x !in disk.Keys - entered.mods.Keys;
    }
    var (s, rc) := Solve(entered, disk, x, deps);
    plan := SolveMakes(entered, Entered(k, x), disk, x, deps);
    if rc != 0 || link != Links {
      MadeRolledBack(st, disk, x, deps, plan, s);
    } else {
      var k2 := SolveKeeps(entered, Entered(k, x), disk, x, deps);
      MadeActive(st, k2, disk, x, plan, s);
      plan := plan + [x];
    }
  }

  lemma MadeRolledBack(st: State, disk: Disk, x: Name, deps: seq<Name>, plan: seq<Name>, s: State)
    requires x !in st.mods && Made(Enter(st, x, deps), disk, plan, s) && x in s.mods
    ensures Made(st, disk, plan, Unload(s, x))
  {
    hide Unload, Buildable;
    UnloadLeaves(s, x);
    WithoutEntered(st, disk, x, deps, plan);
  }

  /** A plan that builds on a module still being loaded does not need that module. */
  lemma WithoutEntered(st: State, disk: Disk, x: Name, deps: seq<Name>, plan: seq<Name>)
    requires x !in st.mods && Buildable(Enter(st, x, deps), disk, plan)
    ensures Buildable(st, disk, plan)
  {
    var entered := Enter(st, x, deps);
    forall i | 0 <= i < |plan| ensures Ready(st, disk, plan[..i], plan[i]) {
      assert Ready(entered, disk, plan[..i], plan[i]);
      assert forall d :: IsActive(entered, d) <==> IsActive(st, d);
    }
  }

  lemma MadeActive(st: State, k: Clock, disk: Disk, x: Name, plan: seq<Name>, s: State)
    requires x !in st.mods && x in disk && disk[x].Lib? && disk[x].link == Links
    requires Made(Enter(st, x, disk[x].depends), disk, plan, s)
    requires Inv(s, k) && Working(s, k, x, [])
    ensures Made(st, disk, plan + [x], Activate(s, x))
  {
    hide WellFormed, Progress, Inverse, Ranked, Buildable;
    var entered := Enter(st, x, disk[x].depends);
    WithoutEntered(st, disk, x, disk[x].depends, plan);
    assert SameModule(entered.mods[x], s.mods[x]);
    assert k.done[x] + [] == k.done[x];
    forall d | d in disk[x].depends && d != x ensures IsActive(st, d) || d in plan {
      assert IsActive(s, d);
      assert d in entered.mods ==> SameModule(entered.mods[d], s.mods[d]);
    }
    BuildableAppend(st, disk, plan, x);
  }

  lemma BuildableAppend(st: State, disk: Disk, plan: seq<Name>, x: Name)
    requires Buildable(st, disk, plan) && Ready(st, disk, plan, x)
    ensures Buildable(st, disk, plan + [x])
  {
    var longer := plan + [x];
    forall i | 0 <= i < |longer| ensures Ready(st, disk, longer[..i], longer[i]) {
      if i < |plan| {
        assert longer[..i] == plan[..i];
        assert Ready(st, disk, plan[..i], plan[i]);
      } else {
        assert longer[..i] == plan;
      }
    }
  }

  lemma {:induction false} SolveMakes(st: State, k: Clock, disk: Disk, x: Name, rest: seq<Name>)
    returns (plan: seq<Name>)
    requires Inv(st, k) && Working(st, k, x, rest)
    ensures Made(st, disk, plan, Solve(st, disk, x, rest).0)
    decreases disk.Keys - st.mods.Keys, 1 + |rest|, 0
  {
    hide Inv, Made, Grows, DoneKept;
    MadeNothing(st, disk);
    plan := [];
    if rest == [] || (rest[0] != x && rest[0] in st.mods && st.mods[rest[0]].phase == Loading) {
    } else if rest[0] == x {
      SkipKeeps(st, k, x, rest);
      plan := SolveMakes(st, Looked(k, x, x), disk, x, rest[1..]);
    } else if rest[0] in st.mods {
      plan := LinkAndSolveMakes(st, k, disk, x, rest);
    } else {
      var (s, rc) := Add(st, disk, rest[0]);
      var k1 := AddKeeps(st, k, disk, rest[0]);
      plan := AddMakes(st, k, disk, rest[0]);
      if rc == 0 {
        LoadedMeanwhile(st, k, s, k1, x, rest);
        NewIsActive(st, s, rest[0]);
        var more := LinkAndSolveMakes(s, k1, disk, x, rest);
        MadeTransitive(st, disk, plan, s, more, Solve(AddDependent(s, rest[0], x), disk, x, rest[1..]).0);
        plan := plan + more;
      }
    }
  }

  lemma {:induction false} LinkAndSolveMakes(st: State, k: Clock, disk: Disk, x: Name, rest: seq<Name>)
    returns (plan: seq<Name>)
    requires Inv(st, k) && Working(st, k, x, rest) && rest != [] && rest[0] != x
    requires rest[0] in st.mods && st.mods[rest[0]].phase == Active
    ensures Made(st, disk, plan, Solve(AddDependent(st, rest[0], x), disk, x, rest[1..]).0)
    decreases disk.Keys - st.mods.Keys, |rest|, 1
  {
    hide Inv, Solve, Made;
    LinkKeeps(st, k, x, rest);
    var s := AddDependent(st, rest[0], x);
    assert s.mods.Keys == st.mods.Keys;
    plan := SolveMakes(s, Looked(k, x, rest[0]), disk, x, rest[1..]);
    MadeLink(st, disk, rest[0], x);
    MadeTransitive(st, disk, [], s, plan, Solve(s, disk, x, rest[1..]).0);
    assert [] + plan == plan;
  }

  lemma MadeLink(st: State, disk: Disk, d: Name, x: Name)
    requires d in st.mods
    ensures Made(st, disk, [], AddDependent(st, d, x))
  {
  }

  /** A module some plan makes available is loaded: the depth-first loader never runs into a
      module that is still being loaded, and nothing it needs fails. */
  lemma {:induction false} AddSucceeds(st: State, k: Clock, disk: Disk, x: Name, plan: seq<Name>)
    requires Inv(st, k) && x !in st.mods && Buildable(st, disk, plan) && x in plan
    ensures Add(st, disk, x).1 == 0
    decreases disk.Keys - st.mods.Keys, 0, 0
  {
    hide Inv, Unload;
    var i := FirstIndex(plan, x);
    assert Ready(st, disk, plan[..i], x);
    var deps := disk[x].depends;
    var entered := Enter(st, x, deps);
    EnterKeeps(st, k, x, deps);
    EnterWorking(st, k, x, deps);
    assert disk.Keys - entered.mods.Keys < disk.Keys - st.mods.Keys by {
      assert x in disk.Keys - st.mods.Keys && x !in disk.Keys - entered.mods.Keys;
    }
    PrefixAfterEnter(st, disk, x, deps, plan, i);
    forall d | d in deps ensures d == x || IsActive(entered, d) || d in plan[..i] {
      assert IsActive(st, d) ==> IsActive(entered, d);
    }
    SolveSucceeds(entered, Entered(k, x), disk, x, deps, plan[..i]);
  }

  lemma FirstIndex(s: seq<Name>, x: Name) returns (i: nat)
    requires x in s
    ensures i < |s| && s[i] == x && x !in s[..i]
  {
    i := 0;
    while s[i] != x
      invariant i < |s| && x !in s[..i]
      invariant x in s[i..]
      decreases |s| - i
    {
      assert s[i..] == [s[i]] + s[i + 1..];
      i := i + 1;
    }
  }

  lemma PrefixAfterEnter(st: State, disk: Disk, x: Name, deps: seq<Name>, plan: seq<Name>, i: nat)
    requires x !in st.mods && Buildable(st, disk, plan) && i <= |plan| && x !in plan[..i]
    ensures Buildable(Enter(st, x, deps), disk, plan[..i])
  {
    var entered, prefix := Enter(st, x, deps), plan[..i];
    forall j | 0 <= j < |prefix| ensures Ready(entered, disk, prefix[..j], prefix[j]) {
      assert prefix[..j] == plan[..j] && prefix[j] != x;
      assert Ready(st, disk, plan[..j], plan[j]);
      assert forall d :: IsActive(st, d) ==> IsActive(entered, d);
    }
  }

  lemma {:induction false} SolveSucceeds(st: State, k: Clock, disk: Disk, x: Name, rest: seq<Name>, plan: seq<Name>)
    requires Inv(st, k) && Working(st, k, x, rest) && Buildable(st, disk, plan)
    requires forall d :: d in rest ==> d == x || IsActive(st, d) || d in plan
    ensures Solve(st, disk, x, rest).1 == 0
    decreases disk.Keys - st.mods.Keys, 1 + |rest|, 0
  {
    hide Inv, Grows, DoneKept;
    if rest == [] {
      return;
    }
    var d := rest[0];
    if d == x {
      SkipKeeps(st, k, x, rest);
      SolveSucceeds(st, Looked(k, x, x), disk, x, rest[1..], plan);
    } else {
      assert d in st.mods ==> IsActive(st, d) by {
        PlannedNotLoading(st, disk, plan, d);
      }
      var (s, rc) := if d in st.mods then (st, 0) else Add(st, disk, d);
      ghost var k1 := k;
      GrowsReflexive(st, k);
      if d !in st.mods {
        AddSucceeds(st, k, disk, d, plan);
        k1 := AddKeeps(st, k, disk, d);
        NewIsActive(st, s, d);
      }
      LoadedMeanwhile(st, k, s, k1, x, rest);
      BuildableLater(st, disk, plan, s);
      forall e | e in rest ensures e == x || IsActive(s, e) || e in plan {
        StaysActive(st, s, e);
      }
      LinkAndSolveSucceeds(s, k1, disk, x, rest, plan);
    }
  }

  lemma StaysActive(st: State, s: State, d: Name)
    requires Grows(st, s)
    ensures IsActive(st, d) ==> IsActive(s, d)
  {
    assert d in st.mods ==> SameModule(st.mods[d], s.mods[d]);
  }

  lemma PlannedNotLoading(st: State, disk: Disk, plan: seq<Name>, d: Name)
    requires Buildable(st, disk, plan)
    ensures d in plan && d in st.mods ==> IsActive(st, d)
  {
    if d in plan {
      var i :| 0 <= i < |plan| && plan[i] == d;
      assert Ready(st, disk, plan[..i], plan[i]);
    }
  }

  lemma {:induction false} LinkAndSolveSucceeds(
    st: State, k: Clock, disk: Disk, x: Name, rest: seq<Name>, plan: seq<Name>)
    requires Inv(st, k) && Working(st, k, x, rest) && Buildable(st, disk, plan)
    requires rest != [] && rest[0] != x && IsActive(st, rest[0])
    requires forall d :: d in rest ==> d == x || IsActive(st, d) || d in plan
    ensures Solve(AddDependent(st, rest[0], x), disk, x, rest[1..]).1 == 0
    decreases disk.Keys - st.mods.Keys, |rest|, 1
  {
    hide Inv, Solve, Buildable, Grows;
    var s := AddDependent(st, rest[0], x);
    LinkKeeps(st, k, x, rest);
    GrowsLink(st, rest[0], x);
    BuildableLater(st, disk, plan, s);
    assert s.mods.Keys == st.mods.Keys;
    SolveSucceeds(s, Looked(k, x, rest[0]), disk, x, rest[1..], plan);
  }

  /** A load succeeds exactly when the module is loadable, and it neither helps nor spoils the
      loading of any other module. */
  lemma AddExact(st: State, k: Clock, disk: Disk, x: Name)
    requires Inv(st, k)
    ensures x !in st.mods ==> (Add(st, disk, x).1 == 0 <==> Loadable(st, disk, x))
    ensures forall n :: Loadable(Add(st, disk, x).0, disk, n) <==> Loadable(st, disk, n)
  {
    hide Inv, Made, Add;
    var s := Add(st, disk, x).0;
    var k' := AddKeeps(st, k, disk, x);
    var plan := AddMakes(st, k, disk, x);
    if x !in st.mods && Add(st, disk, x).1 == 0 {
      MadeLoads(st, disk, plan, s, x);
    }
    if x !in st.mods && Loadable(st, disk, x) {
      var p :| Buildable(st, disk, p) && x in p;
      AddSucceeds(st, k, disk, x, p);
    }
    LoadableUnchanged(st, disk, plan, s);
  }

  lemma MadeLoads(st: State, disk: Disk, plan: seq<Name>, s: State, x: Name)
    requires Made(st, disk, plan, s) && x in s.mods && x !in st.mods
    ensures Loadable(st, disk, x)
  {
  }

  lemma LoadableUnchanged(st: State, disk: Disk, plan: seq<Name>, s: State)
    requires Made(st, disk, plan, s)
    ensures forall n :: Loadable(s, disk, n) <==> Loadable(st, disk, n)
  {
    forall n ensures Loadable(s, disk, n) <==> Loadable(st, disk, n) {
      if Loadable(s, disk, n) {
        var p :| Buildable(s, disk, p) && n in p;
        PlanFromBefore(st, disk, plan, s, p);
        assert n in plan + p;
      }
      if Loadable(st, disk, n) {
        var p :| Buildable(st, disk, p) && n in p;
        BuildableLater(st, disk, p, s);
      }
    }
  }

  lemma PlanFromBefore(st: State, disk: Disk, plan: seq<Name>, s: State, p: seq<Name>)
    requires Made(st, disk, plan, s) && Buildable(s, disk, p)
    ensures Buildable(st, disk, plan + p)
  {
    var all := plan + p;
    forall i | 0 <= i < |all| ensures Ready(st, disk, all[..i], all[i]) {
      if i < |plan| {
        assert all[..i] == plan[..i];
        assert Ready(st, disk, plan[..i], plan[i]);
      } else {
        var j := i - |plan|;
        assert all[..i] == plan + p[..j];
        assert Ready(s, disk, p[..j], p[j]);
        ReadyBefore(st, disk, plan, s, p[..j], p[j]);
      }
    }
  }

  lemma ReadyBefore(st: State, disk: Disk, plan: seq<Name>, s: State, before: seq<Name>, n: Name)
    requires Made(st, disk, plan, s) && Ready(s, disk, before, n)
    ensures Ready(st, disk, plan + before, n)
  {
    if n in st.mods {
      assert SameModule(st.mods[n], s.mods[n]);
    } else if n in s.mods {
      var i :| 0 <= i < |plan| && plan[i] == n;
      assert Ready(st, disk, plan[..i], plan[i]);
    } else {
      forall d | IsActive(s, d) ensures IsActive(st, d) || d in plan {
        assert d in st.mods ==> SameModule(st.mods[d], s.mods[d]);
      }
    }
  }
}
