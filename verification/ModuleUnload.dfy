/** Unload passes: what they keep, why they always make progress, and what is left at the end. */
module ModuleUnload {
  import opened ModuleGraph
  import opened ModuleInvariant
  import opened ModuleLoadable

  ghost predicate AllActive(st: State) {
    forall x :: x in st.mods ==> st.mods[x].phase == Active
  }

  /** A loaded root of `roots` depends on `n`, directly or not, or is `n`. */
  ghost predicate Needed(st: State, roots: set<Name>, n: Name) {
    exists r :: r in roots && r in st.mods && Reach(st, r, n)
  }

  // ----- dependency paths -----

  lemma DependentEdge(st: State, k: Clock, a: Name, m: Name)
    requires Inv(st, k) && AllActive(st) && m in st.mods
    ensures a in st.mods[m].rdepend <==> Edge(st, a, m)
  {
    hide Closed, Ranked, WellFormed, Inverse;
    DependentIff(st, k, m, a);
  }

  lemma EdgeRank(st: State, k: Clock, a: Name, b: Name)
    requires Inv(st, k) && AllActive(st) && Edge(st, a, b)
    ensures b in st.mods && a in k.rank && b in k.rank && k.rank[b] < k.rank[a] < k.now
  {
    hide Inverse, WellFormed;
    assert b in k.done[a];
  }

  /** A path along dependencies that were processed, by finished loads or by those still in progress. */
  ghost predicate ProcessedPath(k: Clock, p: seq<Name>) {
    p != [] && forall i :: 0 <= i < |p| - 1 ==> p[i] in k.done && p[i + 1] in k.done[p[i]] && p[i + 1] != p[i]
  }

  /** Behind an active module all processed dependencies are active, and their activation number falls. */
  lemma {:induction false} ProcessedRank(st: State, k: Clock, p: seq<Name>)
    requires Inv(st, k) && ProcessedPath(k, p) && p[0] in st.mods && st.mods[p[0]].phase == Active && |p| > 1
    ensures p[0] in k.rank && p[|p| - 1] in k.rank && k.rank[p[|p| - 1]] < k.rank[p[0]]
  {
    ProcessedStep(st, k, p[0], p[1]);
    if |p| > 2 {
      hide Inv;
      assert forall i :: 0 <= i < |p| - 1 ==> p[1..][i] == p[i + 1];
      ProcessedRank(st, k, p[1..]);
    }
  }

  lemma ProcessedStep(st: State, k: Clock, a: Name, b: Name)
    requires Inv(st, k) && a in k.done && b in k.done[a] && a != b
    ensures b in st.mods && st.mods[b].phase == Active && a in st.mods
    ensures st.mods[a].phase == Active ==> a in k.rank && b in k.rank && k.rank[b] < k.rank[a]
  {
    hide Inverse, WellFormed;
  }

  /** In every state the invariant holds of, in the middle of loads, too, no module depends on itself
      through processed dependencies. */
  lemma NoProcessedCycle(st: State, k: Clock, p: seq<Name>)
    requires Inv(st, k) && ProcessedPath(k, p) && |p| > 1
    ensures p[0] != p[|p| - 1]
  {
    ProcessedStep(st, k, p[|p| - 2], p[|p| - 1]);
    if st.mods[p[|p| - 1]].phase == Active && p[0] == p[|p| - 1] {
      ProcessedRank(st, k, p);
    }
  }

  lemma PathProcessed(st: State, k: Clock, p: seq<Name>)
    requires Inv(st, k) && AllActive(st) && Path(st, p)
    ensures ProcessedPath(k, p)
  {
    hide Inverse, WellFormed, Closed, Ranked;
    forall i | 0 <= i < |p| - 1 ensures p[i] in k.done && p[i + 1] in k.done[p[i]] && p[i + 1] != p[i] {
      assert Edge(st, p[i], p[i + 1]);
    }
  }

  /** Along a path of dependencies the activation number falls. */
  lemma PathRank(st: State, k: Clock, p: seq<Name>)
    requires Inv(st, k) && AllActive(st) && Path(st, p) && |p| > 1
    ensures p[0] in k.rank && p[|p| - 1] in k.rank && k.rank[p[|p| - 1]] < k.rank[p[0]]
  {
    hide Inv;
    PathProcessed(st, k, p);
    assert Edge(st, p[0], p[1]);
    ProcessedRank(st, k, p);
  }

  /** No module depends on itself through others. */
  lemma NoCycle(st: State, p: seq<Name>)
    requires Consistent(st) && Path(st, p) && |p| > 1
    ensures p[0] != p[|p| - 1]
  {
    var k :| Inv(st, k);
    hide Inv;
    PathProcessed(st, k, p);
    NoProcessedCycle(st, k, p);
  }

  lemma ReachSelf(st: State, a: Name)
    ensures Reach(st, a, a)
  {
    assert Path(st, [a]);
  }

  lemma ReachStep(st: State, a: Name, b: Name, c: Name)
    requires Reach(st, a, b) && Edge(st, b, c)
    ensures Reach(st, a, c)
  {
    var p :| Path(st, p) && p[0] == a && p[|p| - 1] == b;
    assert Path(st, p + [c]);
  }

  lemma ReachBefore(st: State, a: Name, b: Name, c: Name)
    requires Edge(st, a, b) && Reach(st, b, c)
    ensures Reach(st, a, c)
  {
    var p :| Path(st, p) && p[0] == b && p[|p| - 1] == c;
    var q := [a] + p;
    forall i | 0 <= i < |q| - 1 ensures Edge(st, q[i], q[i + 1]) {
      assert i > 0 ==> Edge(st, p[i - 1], p[i]);
    }
    assert Path(st, q) && q[|q| - 1] == c;
  }

  /** The transitive dependents are the direct ones and theirs. */
  lemma ReachLast(st: State, k: Clock, a: Name, c: Name)
    requires Inv(st, k) && AllActive(st)
    ensures a != c && Reach(st, a, c) <==> exists b :: Edge(st, b, c) && Reach(st, a, b)
  {
    hide Inv;
    if a != c && Reach(st, a, c) {
      var p :| Path(st, p) && p[0] == a && p[|p| - 1] == c;
      var q := p[..|p| - 1];
      assert Edge(st, p[|p| - 2], c) && Path(st, q);
    }
    if b :| Edge(st, b, c) && Reach(st, a, b) {
      ReachStep(st, a, b, c);
      var p :| Path(st, p) && p[0] == a && p[|p| - 1] == b;
      EdgeRank(st, k, b, c);
      if |p| > 1 {
        PathRank(st, k, p);
      }
    }
  }

  // ----- one unload -----

  lemma UnloadConsistent(st: State, x: Name)
    requires Consistent(st) && x in st.mods && st.mods[x].rdepend == []
    ensures Consistent(Unload(st, x))
  {
    hide Inv, Unload;
    var k :| Inv(st, k);
    UnloadKeeps(st, k, x);
    UnloadLeaves(st, x);
    forall y | y in Unload(st, x).mods ensures Unload(st, x).mods[y].phase == Active {
      assert SameModule(st.mods[y], Unload(st, x).mods[y]);
    }
  }

  /** What is left after an unload keeps its dependencies. */
  lemma UnloadEdges(st: State, x: Name, a: Name, b: Name)
    requires x in st.mods
    ensures Edge(Unload(st, x), a, b) <==> a != x && Edge(st, a, b)
  {
    hide Unload;
    UnloadLeaves(st, x);
    if a in st.mods && a != x {
      assert SameModule(st.mods[a], Unload(st, x).mods[a]);
    }
  }

  /** An unload of something unneeded changes nothing about what is needed. */
  lemma UnloadNeeded(st: State, x: Name, roots: set<Name>, n: Name)
    requires Consistent(st) && Idle(st, x, roots)
    ensures Needed(Unload(st, x), roots, n) <==> Needed(st, roots, n)
    ensures Needed(st, roots, n) ==> n != x
  {
    hide Inv, Unload;
    var s := Unload(st, x);
    var k :| Inv(st, k);
    UnloadLeaves(st, x);
    forall a, b ensures Edge(s, a, b) <==> a != x && Edge(st, a, b) {
      UnloadEdges(st, x, a, b);
    }
    forall a ensures !Edge(st, a, x) {
      DependentEdge(st, k, a, x);
    }
    if Needed(st, roots, n) {
      var r :| r in roots && r in st.mods && Reach(st, r, n);
      var p :| Path(st, p) && p[0] == r && p[|p| - 1] == n;
      forall i | 0 <= i < |p| ensures p[i] != x {
        assert i > 0 ==> Edge(st, p[i - 1], p[i]);
      }
      assert Path(s, p);
      assert Reach(s, r, n);
    }
    if Needed(s, roots, n) {
      var r :| r in roots && r in s.mods && Reach(s, r, n);
      var p :| Path(s, p) && p[0] == r && p[|p| - 1] == n;
      assert Path(st, p);
      assert Reach(st, r, n);
    }
  }

  lemma UnloadStaysIdle(st: State, x: Name, keep: set<Name>, n: Name)
    requires x in st.mods && n != x && Idle(st, n, keep)
    ensures Idle(Unload(st, x), n, keep)
  {
  }

  // ----- whole passes -----

  /** A pass keeps the invariant, the needed modules, and the dependencies of what is left. */
  lemma {:induction false} PruneKeeps(st: State, visit: seq<Name>, keep: set<Name>)
    requires Consistent(st)
    ensures Consistent(Prune(st, visit, keep))
    ensures Prune(st, visit, keep).mods.Keys <= st.mods.Keys
    ensures forall n :: Needed(Prune(st, visit, keep), keep, n) <==> Needed(st, keep, n)
    ensures forall n :: n in st.mods && Needed(st, keep, n) ==> n in Prune(st, visit, keep).mods
    ensures forall n :: n in st.mods && n !in visit ==> n in Prune(st, visit, keep).mods
    decreases |visit|
  {
    hide Consistent, Unload, Needed, Idle;
    if visit != [] {
      var x := visit[0];
      assert visit == [x] + visit[1..];
      if Idle(st, x, keep) {
        OneUnload(st, x, keep);
        PruneKeeps(Unload(st, x), visit[1..], keep);
      } else {
        PruneKeeps(st, visit[1..], keep);
      }
    }
  }

  lemma OneUnload(st: State, x: Name, keep: set<Name>)
    requires Consistent(st) && Idle(st, x, keep)
    ensures x in st.mods && Consistent(Unload(st, x))
    ensures Unload(st, x).mods.Keys == st.mods.Keys - {x}
    ensures forall n :: Needed(Unload(st, x), keep, n) <==> Needed(st, keep, n)
    ensures forall n :: Needed(st, keep, n) ==> n != x
  {
    hide Consistent, Unload, Needed;
    UnloadConsistent(st, x);
    UnloadLeaves(st, x);
    forall n
      ensures Needed(Unload(st, x), keep, n) <==> Needed(st, keep, n)
      ensures Needed(st, keep, n) ==> n != x
    {
      UnloadNeeded(st, x, keep, n);
    }
  }

  /** A pass that visits a module nothing depends on unloads it. */
  lemma {:induction false} PruneProgress(st: State, visit: seq<Name>, keep: set<Name>, n: Name)
    requires Idle(st, n, keep) && n in visit
    ensures n !in Prune(st, visit, keep).mods
    decreases |visit|
  {
    hide Unload;
    var x := visit[0];
    if Idle(st, x, keep) {
      UnloadLeaves(st, x);
      if n == x {
        PruneGone(Unload(st, x), visit[1..], keep, n);
      } else {
        UnloadStaysIdle(st, x, keep, n);
        PruneProgress(Unload(st, x), visit[1..], keep, n);
      }
    } else {
      PruneProgress(st, visit[1..], keep, n);
    }
  }

  lemma {:induction false} PruneGone(st: State, visit: seq<Name>, keep: set<Name>, n: Name)
    requires n !in st.mods
    ensures n !in Prune(st, visit, keep).mods
    decreases |visit|
  {
    hide Unload;
    if visit != [] {
      if Idle(st, visit[0], keep) {
        UnloadLeaves(st, visit[0]);
        PruneGone(Unload(st, visit[0]), visit[1..], keep, n);
      } else {
        PruneGone(st, visit[1..], keep, n);
      }
    }
  }

  /** A pass over modules of which none can go changes nothing. */
  lemma {:induction false} PruneSettled(st: State, visit: seq<Name>, keep: set<Name>)
    requires forall n :: !Idle(st, n, keep)
    ensures Prune(st, visit, keep) == st
    decreases |visit|
  {
    if visit != [] {
      PruneSettled(st, visit[1..], keep);
    }
  }

  /** When nothing more can be unloaded, everything left is needed: going from dependent to
      dependent the activation number rises, so the walk ends at a root. */
  lemma {:induction false} SettledIsNeeded(st: State, k: Clock, keep: set<Name>, n: Name)
    requires Inv(st, k) && AllActive(st) && n in st.mods && n in k.rank && k.rank[n] < k.now
    requires forall m :: !Idle(st, m, keep)
    ensures Needed(st, keep, n)
    decreases k.now - k.rank[n]
  {
    hide Inv, Reach, Path;
    if n in keep {
      ReachSelf(st, n);
    } else {
      assert !Idle(st, n, keep);
      var a := st.mods[n].rdepend[0];
      DependentEdge(st, k, a, n);
      EdgeRank(st, k, a, n);
      SettledIsNeeded(st, k, keep, a);
      var r :| r in keep && r in st.mods && Reach(st, r, a);
      ReachStep(st, r, a, n);
    }
  }

  lemma SettledAllNeeded(st: State, keep: set<Name>)
    requires Consistent(st) && forall m :: !Idle(st, m, keep)
    ensures forall n :: n in st.mods ==> Needed(st, keep, n)
  {
    var k :| Inv(st, k);
    hide WellFormed, Inverse, Closed, Needed;
    forall n | n in st.mods ensures Needed(st, keep, n) {
      SettledIsNeeded(st, k, keep, n);
    }
  }

  /** As long as a module is loaded, some loaded module has no dependents. */
  lemma SomethingIdle(st: State)
    requires Consistent(st) && st.mods != map[]
    ensures exists n :: Idle(st, n, {})
  {
    hide Inv, Reach;
    if forall n :: !Idle(st, n, {}) {
      var n :| n in st.mods;
      SettledAllNeeded(st, {});
    }
  }

  // ----- reload -----

  /** `group` holds every dependent of its loaded members. */
  ghost predicate UpClosed(st: State, group: seq<Name>) {
    forall m, a :: m in group && m in st.mods && a in st.mods[m].rdepend ==> a in group
  }

  /** Among a group closed under dependents, one can always be unloaded next. */
  lemma {:induction false} GroupHasIdle(st: State, k: Clock, group: seq<Name>, n: Name) returns (top: Name)
    requires Inv(st, k) && AllActive(st) && UpClosed(st, group)
    requires n in group && n in st.mods && n in k.rank && k.rank[n] < k.now
    ensures top in group && Idle(st, top, {})
    decreases k.now - k.rank[n]
  {
    hide Inv;
    if st.mods[n].rdepend == [] {
      top := n;
    } else {
      var a := st.mods[n].rdepend[0];
      DependentEdge(st, k, a, n);
      EdgeRank(st, k, a, n);
      top := GroupHasIdle(st, k, group, a);
    }
  }

  /** The dependents only get fewer. */
  lemma UnloadUpClosed(st: State, x: Name, group: seq<Name>)
    requires Consistent(st) && UpClosed(st, group) && x in st.mods && st.mods[x].rdepend == []
    ensures UpClosed(Unload(st, x), group)
  {
    hide Inv, Unload;
    var s := Unload(st, x);
    var k :| Inv(st, k);
    UnloadKeeps(st, k, x);
    UnloadConsistent(st, x);
    UnloadLeaves(st, x);
    forall m, a | m in group && m in s.mods && a in s.mods[m].rdepend ensures a in group {
      DependentEdge(s, Departed(k, x), a, m);
      UnloadEdges(st, x, a, m);
      DependentEdge(st, k, a, m);
    }
  }

  lemma {:induction false} PruneUpClosed(st: State, visit: seq<Name>, group: seq<Name>)
    requires Consistent(st) && UpClosed(st, group)
    ensures UpClosed(Prune(st, visit, {}), group)
    decreases |visit|
  {
    hide Consistent, UpClosed, Unload;
    if visit != [] {
      var x := visit[0];
      if Idle(st, x, {}) {
        UnloadConsistent(st, x);
        UnloadUpClosed(st, x, group);
        PruneUpClosed(Unload(st, x), visit[1..], group);
      } else {
        PruneUpClosed(st, visit[1..], group);
      }
    }
  }

  /** Modules whose files still offer what was loaded from them can all be loaded again once they
      and their dependents are gone. */
  lemma {:induction false} LoadableAgain(st: State, k: Clock, disk: Disk, group: seq<Name>, s: State, n: Name)
    returns (plan: seq<Name>)
    requires Inv(st, k) && AllActive(st) && AllActive(s)
    requires forall m :: m in st.mods && m !in group ==> m in s.mods
    requires forall m :: m in group && m in st.mods ==>
               m !in s.mods && m in disk && disk[m] == Lib(st.mods[m].depend, Links)
    requires n in st.mods && n in k.rank
    ensures Buildable(s, disk, plan) && n in plan
    decreases k.rank[n], 1, 0
  {
    hide Inv, Buildable;
    if n in s.mods {
      plan := [n];
      PlanActive(s, disk, n);
    } else {
      plan := DependenciesLoadableAgain(st, k, disk, group, s, n, st.mods[n].depend);
      BuildableAppend(s, disk, plan, n);
      plan := plan + [n];
    }
  }

  lemma PlanActive(s: State, disk: Disk, n: Name)
    requires IsActive(s, n)
    ensures Buildable(s, disk, [n])
  {
  }

  lemma {:induction false} DependenciesLoadableAgain(
    st: State, k: Clock, disk: Disk, group: seq<Name>, s: State, n: Name, deps: seq<Name>)
    returns (plan: seq<Name>)
    requires Inv(st, k) && AllActive(st) && AllActive(s)
    requires forall m :: m in st.mods && m !in group ==> m in s.mods
    requires forall m :: m in group && m in st.mods ==>
               m !in s.mods && m in disk && disk[m] == Lib(st.mods[m].depend, Links)
    requires n in st.mods && n in k.rank && forall d :: d in deps ==> d in st.mods[n].depend
    ensures Buildable(s, disk, plan) && forall d :: d in deps && d != n ==> d in plan
    decreases k.rank[n], 0, |deps|
  {
    hide Inv, Buildable;
    if deps == [] {
      plan := [];
      MadeNothing(s, disk);
    } else {
      var rest := DependenciesLoadableAgain(st, k, disk, group, s, n, deps[1..]);
      plan := rest;
      assert deps == [deps[0]] + deps[1..];
      if deps[0] != n {
        EdgeRank(st, k, n, deps[0]);
        var first := LoadableAgain(st, k, disk, group, s, deps[0]);
        BuildableConcat(s, disk, rest, first);
        plan := rest + first;
      }
    }
  }

  lemma BuildableConcat(st: State, disk: Disk, p: seq<Name>, q: seq<Name>)
    requires Buildable(st, disk, p) && Buildable(st, disk, q)
    ensures Buildable(st, disk, p + q)
  {
    var both := p + q;
    forall i | 0 <= i < |both| ensures Ready(st, disk, both[..i], both[i]) {
      if i < |p| {
        assert both[..i] == p[..i];
        assert Ready(st, disk, p[..i], p[i]);
      } else {
        var j := i - |p|;
        assert both[..i] == p + q[..j];
        assert Ready(st, disk, q[..j], q[j]);
      }
    }
  }

  /** A load stays inside any set of names closed under what the files on disk name. */
  lemma {:induction false} AddStaysWithin(st: State, disk: Disk, x: Name, within: set<Name>)
    requires x in within && st.mods.Keys <= within && DiskClosed(st, disk, within)
    ensures Add(st, disk, x).0.mods.Keys <= within
    decreases disk.Keys - st.mods.Keys, 0
  {
    hide Unload;
    if x !in st.mods && x in disk && disk[x].Lib? {
      var entered := Enter(st, x, disk[x].depends);
      assert disk.Keys - entered.mods.Keys < disk.Keys - st.mods.Keys by {
        assert x in disk.Keys - st.mods.Keys && x !in disk.Keys - entered.mods.Keys;
      }
      SolveStaysWithin(entered, disk, x, disk[x].depends, within);
      UnloadLeaves(Solve(entered, disk, x, disk[x].depends).0, x);
    }
  }

  ghost predicate DiskClosed(st: State, disk: Disk, within: set<Name>) {
    forall n, d :: n in within && n !in st.mods && n in disk && disk[n].Lib? && d in disk[n].depends ==> d in within
  }

  lemma {:induction false} SolveStaysWithin(st: State, disk: Disk, x: Name, rest: seq<Name>, within: set<Name>)
    requires st.mods.Keys <= within && DiskClosed(st, disk, within)
    requires forall d :: d in rest ==> d in within
    ensures Solve(st, disk, x, rest).0.mods.Keys <= within
    decreases disk.Keys - st.mods.Keys, 1 + |rest|
  {
    if rest != [] {
      var d := rest[0];
      if d == x {
        SolveStaysWithin(st, disk, x, rest[1..], within);
      } else if d in st.mods {
        SolveStaysWithin(AddDependent(st, d, x), disk, x, rest[1..], within);
      } else {
        AddStaysWithin(st, disk, d, within);
        var s := Add(st, disk, d).0;
        if Add(st, disk, d).1 == 0 && d in s.mods {
          SolveStaysWithin(AddDependent(s, d, x), disk, x, rest[1..], within);
        }
      }
    }
  }

  // ----- loads between operations -----

  /** A load from a consistent state ends in one, and succeeds exactly for loadable modules. */
  lemma AddConsistent(st: State, disk: Disk, x: Name)
    requires Consistent(st)
    ensures var (s, rc) := Add(st, disk, x);
      && Consistent(s) && Grows(st, s)
      && (x !in st.mods ==> (rc == 0 <==> Loadable(st, disk, x)) && (rc == 0 <==> x in s.mods))
      && (forall n :: Loadable(s, disk, n) <==> Loadable(st, disk, n))
  {
    hide Inv, Loadable, Add;
    var k :| Inv(st, k);
    var k' := AddKeeps(st, k, disk, x);
    AddExact(st, k, disk, x);
    var s := Add(st, disk, x).0;
    forall y | y in s.mods ensures s.mods[y].phase == Active {
      assert y in st.mods ==> SameModule(st.mods[y], s.mods[y]);
    }
  }

  lemma LoadedIsLoadable(st: State, disk: Disk, x: Name)
    requires Consistent(st) && x in st.mods
    ensures Loadable(st, disk, x)
  {
    PlanActive(st, disk, x);
  }

  /** After a list of loads, a listed module is loaded if it was, or could be. */
  lemma {:induction false} AddAllExact(st: State, disk: Disk, names: seq<Name>)
    requires Consistent(st)
    ensures var s := AddAll(st, disk, names);
      && Consistent(s) && Grows(st, s)
      && (forall n :: Loadable(s, disk, n) <==> Loadable(st, disk, n))
      && (forall n :: n in names ==> (n in s.mods <==> Loadable(st, disk, n)))
    decreases |names|
  {
    hide Consistent, Loadable, Add, Grows;
    GrowsReflexive(st, Clock(map[], map[], 0));
    if names != [] {
      var x := names[0];
      assert names == [x] + names[1..];
      var s := if x in st.mods then st else Add(st, disk, x).0;
      AddConsistent(st, disk, x);
      if x in st.mods {
        LoadedIsLoadable(st, disk, x);
      }
      AddAllExact(s, disk, names[1..]);
      var end := AddAll(s, disk, names[1..]);
      GrowsTransitive(st, s, end);
      if x in end.mods {
        LoadedIsLoadable(end, disk, x);
      }
      GrowsKeys(s, end);
    }
  }

  lemma GrowsKeys(st: State, s: State)
    requires Grows(st, s)
    ensures st.mods.Keys <= s.mods.Keys
  {
  }
}
