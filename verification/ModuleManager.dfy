/** The module manager of module.c: a list of module objects that load, unload and reload change
    in place, each proved against the functions of ModuleGraph. */
module ModuleManager {
  import opened ModuleGraph
  import opened ModuleInvariant
  import opened ModuleLoadable
  import opened ModuleUnload

  class Module {
    const name: Name
    const depend: seq<Name>
    var phase: Phase
    var rdepend: seq<Name>

    constructor (name: Name, depend: seq<Name>)
      ensures this.name == name && this.depend == depend && phase == Loading && rdepend == []
    {
      this.name, this.depend, phase, rdepend := name, depend, Loading, [];
    }

    function Value(): Mod
      reads this
    {
      Mod(phase, depend, rdepend)
    }
  }

  class Manager {
    /** The module dict, head first. */
    var list: seq<Module>
    ghost var st: State

    ghost predicate Valid()
      reads this, list
    {
      && WellFormed(st) && |list| == |st.order|
      && forall i :: 0 <= i < |list| ==>
           && list[i].name == st.order[i] && st.order[i] in st.mods
           && list[i].Value() == st.mods[st.order[i]]
    }

    constructor ()
      ensures Valid() && list == [] && st == NOTHING && Consistent(st)
    {
      list, st := [], NOTHING;
      new;
      assert Inv(st, Clock(map[], map[], 0));
    }

    /** Modules that were there stay, and every other one is new. */
    twostate predicate Keeps()
      reads this
    {
      && (forall m :: m in old(list) ==> m in list)
      && (forall m :: m in list ==> m in old(list) || fresh(m))
    }

    method Find(name: Name) returns (m: Module?)
      requires Valid()
      ensures m != null <==> name in st.mods
      ensures m != null ==> m in list && m.name == name && m.Value() == st.mods[name]
    {
      for i := 0 to |list|
        invariant name !in st.order[..i]
      {
        if list[i].name == name {
          return list[i];
        }
        assert st.order[..i + 1] == st.order[..i] + [st.order[i]];
      }
      assert st.order[..|list|] == st.order;
      return null;
    }

    // ----- single steps -----

    method Insert(module_: Module)
      requires Valid() && module_.name !in st.mods && module_.phase == Loading && module_.rdepend == []
      modifies this
      ensures Valid() && st == Enter(old(st), module_.name, module_.depend) && list == [module_] + old(list)
    {
      EnterWellFormed(st, module_.name, module_.depend);
      Inserted(module_);
      hide WellFormed;
      list := [module_] + list;
      st := Enter(st, module_.name, module_.depend);
    }

    lemma Inserted(module_: Module)
      requires Valid() && module_.name !in st.mods && module_.phase == Loading && module_.rdepend == []
      ensures var now, s := [module_] + list, Enter(st, module_.name, module_.depend);
        && |now| == |s.order|
        && forall i :: 0 <= i < |now| ==>
             now[i].name == s.order[i] && s.order[i] in s.mods && now[i].Value() == s.mods[s.order[i]]
    {
      EnterWellFormed(st, module_.name, module_.depend);
    }

    method AppendDependent(m: Module, x: Name)
      requires Valid() && m in list
      modifies this`st, m`rdepend
      ensures Valid() && st == AddDependent(old(st), m.name, x)
    {
      m.rdepend := m.rdepend + [x];
      st := AddDependent(st, m.name, x);
    }

    method SetActive(m: Module)
      requires Valid() && m in list
      modifies this`st, m`phase
      ensures Valid() && st == Activate(old(st), m.name)
    {
      m.phase := Active;
      st := Activate(st, m.name);
    }

    /** The inner loop of `module_release_dependencies`: deleting at `j` and looking at `j` again. */
    method StrikeDependent(m: Module, x: Name)
      modifies m`rdepend
      ensures m.rdepend == Strike(old(m.rdepend), x, 0)
    {
      var j := 0;
      while j < |m.rdepend|
        invariant j <= |m.rdepend|
        invariant Strike(m.rdepend, x, j) == Strike(old(m.rdepend), x, 0)
        decreases |m.rdepend| - j
      {
        if m.rdepend[j] == x {
          m.rdepend := DelAt(m.rdepend, j);
        } else {
          j := j + 1;
        }
      }
    }

    method ReleaseOne(d: Module, x: Name)
      requires Valid() && d in list
      modifies this`st, d`rdepend
      ensures Valid() && st == StrikeIn(old(st), d.name, x)
    {
      StrikeDependent(d, x);
      st := StrikeIn(st, d.name, x);
    }

    method ReleaseDependencies(m: Module)
      requires Valid()
      modifies this`st, set n | n in list :: n`rdepend
      ensures Valid() && st == Release(old(st), m.name, m.depend)
    {
      hide Strike, WellFormed;
      assert Release(st, m.name, []).mods == st.mods;
      for i := 0 to |m.depend|
        invariant Valid() && st == Release(old(st), m.name, m.depend[..i])
      {
        var d := Find(m.depend[i]);
        ReleaseStep(old(st), m.name, m.depend, i);
        if d != null {
          ReleaseOne(d, m.name);
        }
      }
      assert m.depend[..|m.depend|] == m.depend;
    }

    /** `module_free`: the dict node goes. */
    method Free(m: Module)
      requires Valid() && m in list
      modifies this
      ensures Valid() && st == Leave(old(st), m.name)
      ensures forall n :: n in list ==> n in old(list)
      ensures forall n :: n in old(list) && n != m ==> n in list
    {
      hide WellFormed, Leave;
      var i :| 0 <= i < |list| && list[i] == m;
      Dropped(list, i);
      FreeAt(i);
    }

    method FreeAt(i: nat)
      requires Valid() && i < |list|
      modifies this
      ensures Valid() && st == Leave(old(st), old(list)[i].name)
      ensures list == old(list)[..i] + old(list)[i + 1..]
    {
      hide WellFormed, Leave;
      ghost var before, was := st, list;
      NodeGone(st, i);
      st := Leave(st, list[i].name);
      list := list[..i] + list[i + 1..];
      forall j | 0 <= j < |list|
        ensures list[j].name == st.order[j] && st.order[j] in st.mods && list[j].Value() == st.mods[st.order[j]]
      {
        var from := if j < i then j else j + 1;
        assert list[j] == was[from] && st.order[j] == before.order[from];
      }
    }

    /** The rollback of a failed load, and the end of `module_del`. */
    method Discard(m: Module)
      requires Valid() && m in list
      modifies this, set n | n in list :: n`rdepend
      ensures Valid() && m.name in old(st).mods && st == Unload(old(st), m.name)
      ensures forall n :: n in list ==> n in old(list)
      ensures forall n :: n in old(list) && n != m ==> n in list
    {
      hide Strike, Release, Leave, WellFormed;
      assert m.name in st.mods && st.mods[m.name].depend == m.depend;
      ReleaseDependencies(m);
      Free(m);
    }

    // ----- loading -----

    method ModuleAdd(disk: Disk, x: Name) returns (rc: int)
      requires Valid()
      modifies this, set n | n in list
      ensures Valid() && Keeps() && (st, rc) == Add(old(st), disk, x)
      decreases disk.Keys - st.mods.Keys, 0
    {
      hide Unload, Activate, WellFormed;
      var found := Find(x);
      if found != null { return -1; }
      if x !in disk { return -2; }
      match disk[x] {
        case NoInit => return -3;
        case NoFini => return -4;
        case NoDepends => return -5;
        case Lib(deps, link) =>
          var m := new Module(x, deps);
          Insert(m);
          assert st.mods.Keys == old(st.mods.Keys) + {x};
          rc := SolveDependencies(disk, m);
          if rc != 0 {
            Discard(m);
            return -6;
          }
          match link {
            case Unlinkable =>
              Discard(m);
              return -7;
            case SymbolsLost =>
              Discard(m);
              return -8;
            case Links =>
              SetActive(m);
              return 0;
          }
      }
    }

    method SolveDependencies(disk: Disk, m: Module) returns (rc: int)
      requires Valid() && m in list
      modifies this, set n | n in list
      ensures Valid() && Keeps() && (st, rc) == Solve(old(st), disk, m.name, m.depend)
      decreases disk.Keys - st.mods.Keys, 1
    {
      hide Add, WellFormed;
      assert m.depend[0..] == m.depend;
      for i := 0 to |m.depend|
        invariant Valid() && Keeps()
        invariant old(st.mods.Keys) <= st.mods.Keys
        invariant Solve(old(st), disk, m.name, m.depend) == Solve(st, disk, m.name, m.depend[i..])
      {
        var d := m.depend[i];
        assert m.depend[i..][0] == d && m.depend[i..][1..] == m.depend[i + 1..];
        var found := Find(d);
        if d == m.name {
          continue;
        }
        if found != null && found.phase == Loading {
          return -1;
        } else if found != null {
          AppendDependent(found, m.name);
          continue;
        }
        rc := ModuleAdd(disk, d);
        if rc != 0 {
          return -2;
        }
        found := Find(d);
        if found == null {
          return -2;
        }
        AppendDependent(found, m.name);
      }
      return 0;
    }

    /** `module_add_smart` over the configured list. */
    method AddListed(disk: Disk, names: seq<Name>)
      requires Valid()
      modifies this, set n | n in list
      ensures Valid() && Keeps() && st == AddAll(old(st), disk, names)
    {
      hide Add;
      assert names[0..] == names;
      for i := 0 to |names|
        invariant Valid() && Keeps()
        invariant AddAll(old(st), disk, names) == AddAll(st, disk, names[i..])
      {
        assert names[i..][0] == names[i] && names[i..][1..] == names[i + 1..];
        var found := Find(names[i]);
        if found == null {
          var rc := ModuleAdd(disk, names[i]);
        }
      }
    }

    // ----- unloading -----

    method ModuleDel(name: Name) returns (rc: int)
      requires Valid()
      modifies this, set n | n in list :: n`rdepend
      ensures Valid() && forall n :: n in list ==> n in old(list)
      ensures rc == if name in old(st).mods && old(st).mods[name].rdepend != [] then -1 else 0
      ensures st == if Idle(old(st), name, {}) then Unload(old(st), name) else old(st)
    {
      hide Unload, WellFormed;
      var m := Find(name);
      if m == null { return 0; }
      if |m.rdepend| > 0 { return -1; }
      Discard(m);
      return 0;
    }

    /** One walk from the tail of the dict to its head, unloading what is neither kept nor
        depended upon. */
    method UnloadPass(keep: seq<Name>)
      requires Valid()
      modifies this, set n | n in list :: n`rdepend
      ensures Valid() && forall n :: n in list ==> n in old(list)
      ensures st == Prune(old(st), Backwards(old(st).order), AsSet(keep))
    {
      hide Unload, WellFormed;
      var i := |list|;
      ghost var order, kept := st.order, AsSet(keep);
      assert order[..i] == order;
      while i > 0
        invariant Valid() && i <= |list| && i <= |order| && st.order[..i] == order[..i]
        invariant forall n :: n in list ==> n in old(list)
        invariant Prune(old(st), Backwards(order), kept) == Prune(st, Backwards(order[..i]), kept)
      {
        i := i - 1;
        assert order[..i + 1][i] == order[i] == st.order[..i + 1][i] && order[..i + 1][..i] == order[..i];
        assert st.order[..i + 1][..i] == st.order[..i];
        var m := list[i];
        if m.name !in keep && |m.rdepend| == 0 {
          UnloadOrder(st, i);
          var rc := ModuleDel(m.name);
        }
      }
    }

    /** `module_fini`: the walk is repeated until nothing is loaded, and it gets there. */
    method Fini()
      requires Valid() && Consistent(st)
      modifies this, set n | n in list :: n`rdepend
      ensures Valid() && list == [] && st == NOTHING
    {
      hide Consistent, Prune, WellFormed;
      while |list| > 0
        invariant Valid() && Consistent(st) && forall n :: n in list ==> n in old(list)
        decreases st.mods.Keys
      {
        FiniStep(st);
        UnloadPass([]);
      }
      EmptyOrder(st);
    }

    /** `module_conf_reload`: as many passes as modules are loaded are enough to get rid of
        everything the configuration does not need, and nothing that is needed goes. */
    method ConfReload(disk: Disk, conf: Conf)
      requires Valid() && Consistent(st)
      modifies this, set n | n in list
      ensures Valid() && Consistent(st)
      ensures conf.Missing? ==> st == old(st)
      ensures conf.Listed? ==> forall n :: n in conf.names ==> (n in st.mods <==> Loadable(old(st), disk, n))
      ensures conf.Listed? ==>
                var loaded, roots := AddAll(old(st), disk, conf.names), AsSet(conf.names);
                forall n :: n in st.mods <==> n in loaded.mods && Needed(st, roots, n)
    {
      hide Consistent, Unload, Needed, Loadable, Prune, WellFormed, Idle, AddAll;
      if conf.Missing? { return; }
      var names := conf.names;
      AddListed(disk, names);
      AddAllExact(old(st), disk, names);
      ghost var loaded, roots := st, AsSet(names);
      KeysBounded(st);
      var i := |list|;
      while i > 0
        invariant Valid() && Consistent(st)
        invariant forall n :: n in list ==> n in old(list) || fresh(n)
        invariant st.mods.Keys <= loaded.mods.Keys
        invariant forall n :: Needed(st, roots, n) <==> Needed(loaded, roots, n)
        invariant forall n :: n in loaded.mods && Needed(loaded, roots, n) ==> n in st.mods
        invariant (forall n :: !Idle(st, n, roots)) || |st.mods.Keys| <= i
      {
        i := i - 1;
        PassStep(st, roots, i + 1);
        UnloadPass(names);
      }
      if |st.mods.Keys| == 0 {
        NothingIdle(st, roots);
      }
      SettledAllNeeded(st, roots);
      forall n | n in names ensures n in st.mods <==> n in loaded.mods {
        if n in loaded.mods {
          RootNeeded(loaded, roots, n);
        }
      }
    }

    /** `module_get_rdeps`: the dependents of `m`, direct and indirect, each listed once. */
    method GetRdeps(m: Module, acc: seq<Name>, ghost k: Clock) returns (out: seq<Name>)
      requires Valid() && Inv(st, k) && AllActive(st) && m in list && Distinct(acc)
      ensures forall n :: n in out <==> n in acc || (n != m.name && Reach(st, n, m.name))
      ensures Distinct(out)
      decreases k.now - (if m.name in k.rank then k.rank[m.name] else 0)
    {
      hide Inv, Reach, WellFormed;
      out := acc;
      for i := 0 to |m.rdepend|
        invariant Distinct(out)
        invariant forall n :: n in out <==> n in acc || exists j :: 0 <= j < i && Reach(st, n, m.rdepend[j])
      {
        var d := m.rdepend[i];
        DependentEdge(st, k, d, m.name);
        EdgeRank(st, k, d, m.name);
        var dependent := Find(d);
        if d !in out {
          out := out + [d];
        }
        out := GetRdeps(dependent, out, k);
        ReachSelf(st, d);
      }
      forall n ensures n in out <==> n in acc || (n != m.name && Reach(st, n, m.name)) {
        ReachLast(st, k, n, m.name);
        forall a ensures a in m.rdepend <==> Edge(st, a, m.name) {
          DependentEdge(st, k, a, m.name);
        }
      }
    }

    /** The module and its transitive dependents. */
    method ReloadGroup(m: Module) returns (group: seq<Name>)
      requires Valid() && Consistent(st) && m in list
      ensures Distinct(group) && UpClosed(st, group)
      ensures forall n :: n in group <==> Reach(st, n, m.name)
      ensures forall n :: n in group ==> n in st.mods
    {
      hide Inv, Consistent, Reach, WellFormed, UpClosed;
      ghost var k := SomeClock(st);
      group := GetRdeps(m, [m.name], k);
      ReachSelf(st, m.name);
      GroupClosed(st, m.name, group);
    }

    /** `module_reload`: `bare` is the state between the unloads and the loads. */
    method Reload(disk: Disk, name: Name) returns (rc: int, ghost bare: State)
      requires Valid() && Consistent(st)
      modifies this, set n | n in list
      ensures Valid() && Consistent(st)
      ensures name !in old(st).mods ==> rc == -1 && st == bare == old(st)
      // exactly the module and its transitive dependents are unloaded
      ensures name in old(st).mods ==>
        Consistent(bare) &&
        (forall n :: n in bare.mods <==> n in old(st).mods && !Reach(old(st), n, name))
      // whatever else was loaded stays, and what was unloaded comes back when it can be loaded
      ensures Grows(bare, st)
      ensures name in old(st).mods ==>
                forall n :: Reach(old(st), n, name) ==> (n in st.mods <==> Loadable(bare, disk, n))
      ensures name in old(st).mods ==> (rc == 0 <==> old(st).mods.Keys <= st.mods.Keys)
      // with unchanged files the loaded set ends as it began
      ensures name in old(st).mods && SameFiles(old(st), disk, name) ==>
        rc == 0 && st.mods.Keys == old(st).mods.Keys
    {
      hide Consistent, Unload, Reach, Loadable, UpClosed, WellFormed, SameFiles, Grows;
      bare := st;
      GrowsReflexive(st, Clock(map[], map[], 0));
      var m := Find(name);
      if m == null { return -1, st; }
      var group := ReloadGroup(m);
      UnloadGroup(group);
      bare := st;
      rc := LoadGroup(disk, group, old(st).mods.Keys);
      GrowsKeys(bare, st);
      if SameFiles(old(st), disk, name) {
        ReloadSame(old(st), disk, name, group, bare, st);
      }
    }

    method UnloadGroup(group: seq<Name>)
      requires Valid() && Consistent(st) && UpClosed(st, group) && Distinct(group)
      requires forall n :: n in group ==> n in st.mods
      modifies this, set n | n in list :: n`rdepend
      ensures Valid() && Consistent(st) && forall n :: n in list ==> n in old(list)
      ensures forall n :: n in st.mods <==> n in old(st).mods && n !in group
    {
      hide Consistent, Unload, WellFormed, UpClosed;
      var unloaded := 0;
      AllRemaining(st, group);
      while unloaded < |group|
        invariant Valid() && Consistent(st) && UpClosed(st, group) && forall n :: n in list ==> n in old(list)
        invariant unloaded + |Remaining(st, group)| == |group|
        invariant st.mods.Keys <= old(st).mods.Keys
        invariant forall n :: n in old(st).mods && n !in group ==> n in st.mods
        decreases st.mods.Keys
      {
        ghost var before := st;
        assert group[0..] == group;
        for i := 0 to |group|
          invariant Valid() && forall n :: n in list ==> n in old(list)
          invariant unloaded + |Remaining(st, group)| == |group|
          invariant Prune(before, group, {}) == Prune(st, group[i..], {})
        {
          assert group[i..][0] == group[i] && group[i..][1..] == group[i + 1..];
          var m := Find(group[i]);
          if m != null && |m.rdepend| == 0 {
            OneRemainingLess(st, group, i);
            var rc := ModuleDel(group[i]);
            unloaded := unloaded + 1;
          }
        }
        GroupProgress(before, group);
        PruneKeeps(before, group, {});
        PruneUpClosed(before, group, group);
      }
      assert Remaining(st, group) == {};
      assert forall n :: n in group && n in st.mods ==> n in Remaining(st, group);
    }

    method LoadGroup(disk: Disk, group: seq<Name>, ghost within: set<Name>) returns (rc: nat)
      requires Valid() && Consistent(st) && Distinct(group)
      modifies this, set n | n in list
      ensures Valid() && Consistent(st) && Keeps()
      ensures Grows(old(st), st)
      ensures forall n :: n in group ==> (n in st.mods <==> Loadable(old(st), disk, n))
      ensures rc == 0 <==> forall n :: n in group ==> n in st.mods
      ensures Confined(old(st), disk, group, within) ==> st.mods.Keys <= within
    {
      hide Consistent, Unload, Loadable, WellFormed, Add, Grows;
      rc := 0;
      GrowsReflexive(st, Clock(map[], map[], 0));
      for i := 0 to |group|
        invariant Valid() && Consistent(st) && Keeps() && Grows(old(st), st)
        invariant forall n :: Loadable(st, disk, n) <==> Loadable(old(st), disk, n)
        invariant forall j :: 0 <= j < i ==> (group[j] in st.mods <==> Loadable(old(st), disk, group[j]))
        invariant rc == 0 <==> forall j :: 0 <= j < i ==> group[j] in st.mods
        invariant Confined(old(st), disk, group, within) ==> st.mods.Keys <= within
      {
        var found := Find(group[i]);
        ghost var before := st;
        if found == null {
          AddConsistent(st, disk, group[i]);
          if Confined(old(st), disk, group, within) {
            GrowsKeys(old(st), st);
            AddStaysWithin(st, disk, group[i], within);
          }
          var failed := ModuleAdd(disk, group[i]);
          rc := rc + if failed != 0 then 1 else 0;
          GrowsTransitive(old(st), before, st);
          GrowsKeys(before, st);
          forall j | 0 <= j <= i && group[j] in st.mods ensures Loadable(old(st), disk, group[j]) {
            LoadedIsLoadable(st, disk, group[j]);
          }
        } else {
          LoadedIsLoadable(st, disk, group[i]);
        }
      }
    }
  }

  datatype Conf = Missing | Listed(names: seq<Name>)

  function AsSet(s: seq<Name>): set<Name> {
    set n | n in s
  }

  function Backwards(s: seq<Name>): seq<Name> {
    if s == [] then [] else [s[|s| - 1]] + Backwards(s[..|s| - 1])
  }

  predicate Distinct(s: seq<Name>) {
    forall i, j :: 0 <= i < j < |s| ==> s[i] != s[j]
  }

  /** The files of `name` and its dependents still offer what was loaded from them. */
  ghost predicate SameFiles(st: State, disk: Disk, name: Name) {
    forall n :: n in st.mods && Reach(st, n, name) ==> n in disk && disk[n] == Lib(st.mods[n].depend, Links)
  }

  /** Whatever `group` and the loaded modules need from the disk is in `within`. */
  ghost predicate Confined(st: State, disk: Disk, group: seq<Name>, within: set<Name>) {
    st.mods.Keys <= within && DiskClosed(st, disk, within) && forall n :: n in group ==> n in within
  }

  /** The members of `group` that are loaded. */
  function Remaining(st: State, group: seq<Name>): set<Name> {
    set n | n in group && n in st.mods
  }

  // ----- passes over the list -----

  lemma {:induction false} BackwardsMembers(s: seq<Name>)
    ensures forall n :: n in Backwards(s) <==> n in s
  {
    if s != [] {
      var init := s[..|s| - 1];
      BackwardsMembers(init);
      assert s == init + [s[|s| - 1]];
    }
  }

  lemma UnloadOrder(st: State, i: nat)
    requires WellFormed(st) && i < |st.order| && st.order[i] in st.mods
    ensures i <= |Unload(st, st.order[i]).order| && Unload(st, st.order[i]).order[..i] == st.order[..i]
  {
    WithoutAt(st.order, i);
  }

  lemma PassProgress(st: State, keep: set<Name>)
    requires WellFormed(st) && exists n :: Idle(st, n, keep)
    ensures exists n :: n in st.mods && n !in Prune(st, Backwards(st.order), keep).mods
  {
    var n :| Idle(st, n, keep);
    BackwardsMembers(st.order);
    PruneProgress(st, Backwards(st.order), keep, n);
  }

  lemma FiniStep(st: State)
    requires Consistent(st) && st.order != []
    ensures var s := Prune(st, Backwards(st.order), {}); Consistent(s) && s.mods.Keys < st.mods.Keys
    ensures AsSet([]) == {}
  {
    hide Consistent, Prune, Idle;
    ConsistentOrder(st);
    assert st.order[0] in st.mods;
    SomethingIdle(st);
    PassProgress(st, {});
    PruneKeeps(st, Backwards(st.order), {});
  }

  lemma EmptyOrder(st: State)
    requires WellFormed(st) && st.order == []
    ensures st == NOTHING
  {
    assert st.mods == map[];
  }

  lemma {:induction false} DistinctCount(s: seq<Name>)
    requires Distinct(s)
    ensures |AsSet(s)| == |s|
  {
    if s != [] {
      DistinctCount(s[1..]);
      assert s == [s[0]] + s[1..];
      assert AsSet(s) == {s[0]} + AsSet(s[1..]);
    }
  }

  lemma KeysBounded(st: State)
    requires WellFormed(st)
    ensures |st.mods.Keys| == |st.order|
  {
    DistinctCount(st.order);
    assert AsSet(st.order) == st.mods.Keys;
  }

  lemma StrictSubsetCount(a: set<Name>, b: set<Name>, n: Name)
    requires a <= b && n in b && n !in a
    ensures |a| < |b|
  {
    assert a <= b - {n};
    SubsetCount(a, b - {n});
  }

  lemma {:induction false} SubsetCount(a: set<Name>, b: set<Name>)
    requires a <= b
    ensures |a| <= |b|
  {
    if a != {} {
      var n :| n in a;
      SubsetCount(a - {n}, b - {n});
    }
  }

  /** Each pass unloads at least one module or there was nothing to unload. */
  lemma PassStep(st: State, keep: set<Name>, i: nat)
    requires Consistent(st) && i > 0
    requires (forall n :: !Idle(st, n, keep)) || |st.mods.Keys| <= i
    ensures var s := Prune(st, Backwards(st.order), keep);
      && Consistent(s) && s.mods.Keys <= st.mods.Keys
      && (forall n :: Needed(s, keep, n) <==> Needed(st, keep, n))
      && (forall n :: n in st.mods && Needed(st, keep, n) ==> n in s.mods)
      && ((forall n :: !Idle(s, n, keep)) || |s.mods.Keys| <= i - 1)
  {
    hide Consistent, Needed, Prune, Idle, WellFormed;
    var s := Prune(st, Backwards(st.order), keep);
    PruneKeeps(st, Backwards(st.order), keep);
    if exists n :: Idle(st, n, keep) {
      ConsistentOrder(st);
      PassProgress(st, keep);
      var n :| n in st.mods && n !in s.mods;
      StrictSubsetCount(s.mods.Keys, st.mods.Keys, n);
    } else {
      PruneSettled(st, Backwards(st.order), keep);
    }
  }

  lemma ConsistentOrder(st: State)
    requires Consistent(st)
    ensures WellFormed(st)
  {
    hide WellFormed, Inverse, Closed, Ranked;
  }

  lemma NothingIdle(st: State, keep: set<Name>)
    requires |st.mods.Keys| == 0
    ensures forall n :: !Idle(st, n, keep)
  {
    assert st.mods.Keys == {};
  }

  lemma RootNeeded(st: State, roots: set<Name>, n: Name)
    requires n in roots && n in st.mods
    ensures Needed(st, roots, n)
  {
    ReachSelf(st, n);
  }

  // ----- the group a reload takes down -----

  lemma SomeClock(st: State) returns (k: Clock)
    requires Consistent(st)
    ensures Inv(st, k) && AllActive(st)
  {
    hide Inv;
    k :| Inv(st, k);
  }

  lemma GroupClosed(st: State, name: Name, group: seq<Name>)
    requires Consistent(st) && name in st.mods
    requires forall n :: n in group <==> Reach(st, n, name)
    ensures UpClosed(st, group) && forall n :: n in group ==> n in st.mods
  {
    hide Inv, Consistent;
    var k := SomeClock(st);
    forall m, a | m in group && m in st.mods && a in st.mods[m].rdepend ensures a in group {
      DependentEdge(st, k, a, m);
      ReachBefore(st, a, m, name);
    }
    forall n | n in group ensures n in st.mods {
      var p :| Path(st, p) && p[0] == n && p[|p| - 1] == name;
      assert |p| > 1 ==> Edge(st, p[0], p[1]);
    }
  }

  lemma AllRemaining(st: State, group: seq<Name>)
    requires Distinct(group) && forall n :: n in group ==> n in st.mods
    ensures |Remaining(st, group)| == |group|
  {
    DistinctCount(group);
    assert Remaining(st, group) == AsSet(group);
  }

  lemma OneRemainingLess(st: State, group: seq<Name>, i: nat)
    requires i < |group| && group[i] in st.mods
    ensures |Remaining(Unload(st, group[i]), group)| == |Remaining(st, group)| - 1
  {
    hide Unload;
    UnloadLeaves(st, group[i]);
    assert Remaining(Unload(st, group[i]), group) == Remaining(st, group) - {group[i]};
  }

  lemma GroupProgress(st: State, group: seq<Name>)
    requires Consistent(st) && UpClosed(st, group) && Remaining(st, group) != {}
    ensures exists n :: n in st.mods && n !in Prune(st, group, {}).mods
  {
    hide WellFormed, Inverse, Closed, UpClosed;
    var k := SomeClock(st);
    var n :| n in Remaining(st, group);
    var top := GroupHasIdle(st, k, group, n);
    PruneProgress(st, group, {}, top);
  }

  /** With the same files as before, everything the reload took down can be loaded again, and
      nothing else is. */
  lemma ReloadSame(st: State, disk: Disk, name: Name, group: seq<Name>, bare: State, s: State)
    requires Consistent(st) && Consistent(bare) && SameFiles(st, disk, name)
    requires forall n :: n in group <==> Reach(st, n, name)
    requires forall n :: n in group ==> n in st.mods
    requires forall n :: n in bare.mods <==> n in st.mods && n !in group
    requires Grows(bare, s)
    requires forall n :: n in group ==> (n in s.mods <==> Loadable(bare, disk, n))
    requires Confined(bare, disk, group, st.mods.Keys) ==> s.mods.Keys <= st.mods.Keys
    ensures s.mods.Keys == st.mods.Keys
  {
    hide Inv, Reach, Buildable;
    var k := SomeClock(st);
    forall n | n in group ensures n in s.mods {
      RankOf(st, k, n);
      var plan := LoadableAgain(st, k, disk, group, bare, n);
    }
    forall n, d | n in group && d in st.mods[n].depend ensures d in st.mods {
      if d != n {
        EdgeRank(st, k, n, d);
      }
    }
    assert Confined(bare, disk, group, st.mods.Keys);
  }

  lemma RankOf(st: State, k: Clock, n: Name)
    requires Inv(st, k) && AllActive(st) && n in st.mods
    ensures n in k.rank
  {
    hide WellFormed, Inverse, Closed;
  }

  // ----- the list primitives -----

  lemma Dropped<T>(s: seq<T>, i: nat)
    requires i < |s|
    ensures forall n :: n in s[..i] + s[i + 1..] ==> n in s
    ensures forall n :: n in s && n != s[i] ==> n in s[..i] + s[i + 1..]
  {
    assert s == s[..i] + [s[i]] + s[i + 1..];
  }

  lemma EnterWellFormed(st: State, x: Name, deps: seq<Name>)
    requires WellFormed(st) && x !in st.mods
    ensures WellFormed(Enter(st, x, deps))
    ensures forall i :: 0 <= i < |st.order| ==> st.order[i] != x && st.order[i] in st.mods
  {
    assert forall i :: 0 <= i < |st.order| ==> st.order[i] in st.order;
  }

  lemma LeaveWellFormed(st: State, x: Name)
    requires WellFormed(st)
    ensures WellFormed(Leave(st, x))
  {
    WithoutMembers(st.order, x);
    hide Without;
  }

  lemma NodeGone(st: State, i: nat)
    requires WellFormed(st) && i < |st.order|
    ensures var s := Leave(st, st.order[i]);
      && WellFormed(s) && s.order == st.order[..i] + st.order[i + 1..]
      && forall j :: 0 <= j < |s.order| ==>
           var n := st.order[if j < i then j else j + 1];
           s.order[j] == n && n in s.mods && n in st.mods && s.mods[n] == st.mods[n]
  {
    WithoutAt(st.order, i);
    LeaveWellFormed(st, st.order[i]);
    hide Without;
    var s := Leave(st, st.order[i]);
    forall j | 0 <= j < |s.order|
      ensures var n := st.order[if j < i then j else j + 1];
        s.order[j] == n && n in s.mods && n in st.mods && s.mods[n] == st.mods[n]
    {
      var from := if j < i then j else j + 1;
      assert st.order[from] in st.order && st.order[from] != st.order[i];
    }
  }

  function StrikeIn(st: State, d: Name, x: Name): State {
    if d in st.mods then st.(mods := st.mods[d := StruckMod(st.mods[d], x)]) else st
  }

  lemma {:induction false} WithoutAt(s: seq<Name>, i: nat)
    requires i < |s| && s[i] !in s[..i]
    ensures Without(s, s[i]) == s[..i] + s[i + 1..]
  {
    if i > 0 {
      assert s[1..][..i - 1] == s[..i][1..];
      WithoutAt(s[1..], i - 1);
    }
  }

  lemma {:induction false} StrikeNone(s: seq<Name>, x: Name, j: nat)
    requires j <= |s| && x !in s
    ensures Strike(s, x, j) == s
    decreases |s| - j
  {
    if j < |s| {
      StrikeNone(s, x, j + 1);
    }
  }

  lemma StrikeTwice(m: Mod, x: Name)
    ensures StruckMod(StruckMod(m, x), x) == StruckMod(m, x)
  {
    TimesStruck(m, x, x);
    NeverTimes(StruckMod(m, x).rdepend, x);
    StrikeNone(StruckMod(m, x).rdepend, x, 0);
  }

  lemma ReleaseStep(st: State, x: Name, deps: seq<Name>, i: nat)
    requires i < |deps|
    ensures Release(st, x, deps[..i + 1]) == StrikeIn(Release(st, x, deps[..i]), deps[i], x)
  {
    hide StruckMod;
    if deps[i] in st.mods {
      StrikeTwice(st.mods[deps[i]], x);
    }
    assert Release(st, x, deps[..i + 1]).mods == StrikeIn(Release(st, x, deps[..i]), deps[i], x).mods;
  }
}
