/** The timer list of timer.c: polling with callbacks that add timers and delete others. */
module Timers {
  import opened Text

  datatype Timer = Timer(id: nat, bound: nat, name: string, time: int, func: nat, data: nat, triggered: bool)

  /** What `timer_del` looks for; an ignored field matches anything. */
  datatype Pattern = Pattern(bound: nat, name: string, time: int, func: nat, data: nat, ignored: set<Field>)

  datatype Field = Bound | Name | Time | Function | Data

  /** What a callback may do to the list. */
  datatype Action =
    | Add(bound: nat, name: string, time: int, func: nat, data: nat)
    | Del(pattern: Pattern)

  /** Timers that were already triggered are never deleted by a pattern. */
  predicate Matches(t: Timer, p: Pattern) {
    && (Bound in p.ignored || t.bound == p.bound)
    && (Name in p.ignored || t.name == p.name)
    && (Time in p.ignored || t.time == p.time)
    && (Function in p.ignored || t.func == p.func)
    && (Data in p.ignored || t.data == p.data)
    && !t.triggered
  }

  /** Without ignored fields a pattern is for one timer but for its id, and ignoring more is for more timers,
      up to all of those that wait. */
  lemma PatternLaws(t: Timer, u: Timer, p: Pattern, more: set<Field>)
    ensures Matches(t, Pattern(t.bound, t.name, t.time, t.func, t.data, {})) <==> !t.triggered
    ensures p.ignored == {} && Matches(t, p) && Matches(u, p) ==> t == u.(id := t.id)
    ensures Matches(t, p) ==> Matches(t, p.(ignored := p.ignored + more))
    ensures p.ignored == {Bound, Name, Time, Function, Data} ==> (Matches(t, p) <==> !t.triggered)
    ensures p.ignored == {Bound, Name, Time, Function, Data} - more && Matches(t, p) && Matches(u, p) ==>
              forall f :: f in more ==> SameIn(t, u, f)
  {
  }

  predicate SameIn(t: Timer, u: Timer, f: Field) {
    match f
    case Bound => t.bound == u.bound
    case Name => t.name == u.name
    case Time => t.time == u.time
    case Function => t.func == u.func
    case Data => t.data == u.data
  }

  type Pointer = Option<nat>

  predicate DistinctIds(list: seq<Timer>) {
    forall i, j :: 0 <= i < j < |list| ==> list[i].id != list[j].id
  }

  predicate Listed(list: seq<Timer>, id: nat) {
    exists i :: 0 <= i < |list| && list[i].id == id
  }

  predicate Waiting(list: seq<Timer>, id: nat) {
    exists i :: 0 <= i < |list| && list[i].id == id && !list[i].triggered
  }

  /** The timers of `list` that were not deleted. */
  function Alive(list: seq<Timer>, deleted: set<nat>): seq<Timer> {
    if list == [] then []
    else (if list[0].id in deleted then [] else [list[0]]) + Alive(list[1..], deleted)
  }

  lemma {:induction false} AliveFrom(list: seq<Timer>, deleted: set<nat>)
    ensures forall t :: t in Alive(list, deleted) <==> t in list && t.id !in deleted
  {
    if list != [] {
      AliveFrom(list[1..], deleted);
      assert list == [list[0]] + list[1..];
    }
  }

  lemma {:induction false} AliveTwice(list: seq<Timer>, deleted: set<nat>, more: set<nat>)
    ensures Alive(Alive(list, deleted), more) == Alive(list, deleted + more)
  {
    if list != [] {
      AliveTwice(list[1..], deleted, more);
      var rest := Alive(list[1..], deleted);
      assert ([list[0]] + rest)[1..] == rest && [] + rest == rest;
    }
  }

  lemma AliveFirst(s: seq<Timer>, deleted: set<nat>)
    requires s != []
    ensures Alive(s, deleted) == (if s[0].id in deleted then [] else [s[0]]) + Alive(s[1..], deleted)
  {
  }

  lemma {:induction false} AliveConcat(s: seq<Timer>, t: seq<Timer>, deleted: set<nat>)
    ensures Alive(s + t, deleted) == Alive(s, deleted) + Alive(t, deleted)
  {
    if s == [] {
      assert s + t == t && [] + Alive(t, deleted) == Alive(t, deleted);
    } else {
      AliveFirst(s, deleted);
      AliveFirst(s + t, deleted);
      AliveConcat(s[1..], t, deleted);
      hide Alive;
      assert (s + t)[1..] == s[1..] + t;
    }
  }

  lemma {:induction false} AliveAll(list: seq<Timer>, deleted: set<nat>)
    requires forall t :: t in list ==> t.id !in deleted
    ensures Alive(list, deleted) == list
  {
    if list != [] {
      AliveAll(list[1..], deleted);
    }
  }

  // ----- what callbacks leave behind -----

  /** The timers and the id the next one gets. */
  datatype Stand = Stand(list: seq<Timer>, nextId: nat)

  /** The timers that do not match. */
  function Spared(list: seq<Timer>, p: Pattern): seq<Timer> {
    if list == [] then []
    else (if Matches(list[0], p) then [] else [list[0]]) + Spared(list[1..], p)
  }

  function Perform(s: Stand, action: Action): Stand {
    match action
    case Add(bound, name, time, func, data) =>
      Stand([Timer(s.nextId, bound, name, time, func, data, false)] + s.list, s.nextId + 1)
    case Del(p) => Stand(Spared(s.list, p), s.nextId)
  }

  function PerformAll(s: Stand, actions: seq<Action>): Stand {
    if actions == [] then s
    else Perform(PerformAll(s, actions[..|actions| - 1]), actions[|actions| - 1])
  }

  function Marked(list: seq<Timer>, id: nat): seq<Timer> {
    seq(|list|, i requires 0 <= i < |list| => if list[i].id == id then list[i].(triggered := true) else list[i])
  }

  /** A timer is marked, its callback called, and the timer taken out. */
  function FireOne(s: Stand, t: Timer, actions: seq<Action>): Stand {
    var after := PerformAll(Stand(Marked(s.list, t.id), s.nextId), actions);
    Stand(Alive(after.list, {t.id}), after.nextId)
  }

  function FireAll(s: Stand, ran: seq<Timer>, script: Timer -> seq<Action>): Stand {
    if ran == [] then s
    else
      var k := |ran| - 1;
      FireOne(FireAll(s, ran[..k], script), ran[k], script(ran[k]))
  }

  function Ids(ran: seq<Timer>): seq<nat> {
    seq(|ran|, i requires 0 <= i < |ran| => ran[i].id)
  }

  lemma {:induction false} AliveSpared(list: seq<Timer>, gone: set<nat>, p: Pattern)
    requires forall t :: t in list ==> (t.id in gone <==> Matches(t, p))
    ensures Alive(list, gone) == Spared(list, p)
  {
    if list != [] {
      AliveSpared(list[1..], gone, p);
    }
  }

  /** Sparing keeps exactly the timers that do not match, in order. */
  lemma {:induction false} SparedExactly(list: seq<Timer>, p: Pattern)
    ensures forall t :: t in Spared(list, p) <==> t in list && !Matches(t, p)
  {
    if list != [] {
      SparedExactly(list[1..], p);
      assert list == [list[0]] + list[1..];
    }
  }

  lemma PerformMore(s: Stand, actions: seq<Action>, i: nat)
    requires i < |actions|
    ensures PerformAll(s, actions[..i + 1]) == Perform(PerformAll(s, actions[..i]), actions[i])
  {
    assert actions[..i + 1][..i] == actions[..i];
  }

  lemma FireMore(s: Stand, ran: seq<Timer>, t: Timer, script: Timer -> seq<Action>)
    ensures FireAll(s, ran + [t], script) == FireOne(FireAll(s, ran, script), t, script(t))
    ensures Ids(ran + [t]) == Ids(ran) + [t.id]
  {
    assert (ran + [t])[..|ran|] == ran;
  }

  lemma MarkedOne(list: seq<Timer>, i: nat)
    requires DistinctIds(list) && i < |list|
    ensures Marked(list, list[i].id) == list[i := list[i].(triggered := true)]
  {
  }

  class TimerList {
    /** The dict of timers, head first. */
    var list: seq<Timer>
    var nextId: nat
    ghost var fired: seq<nat>
    ghost var deleted: set<nat>

    /** Every timer ever added is waiting, was fired, or was deleted, and only one of these; the
        timer whose callback is running, if any, is the only one marked. */
    ghost predicate Valid(running: set<nat>)
      reads this
    {
      && DistinctIds(list)
      && (forall i :: 0 <= i < |list| ==> list[i].id < nextId && (list[i].triggered <==> list[i].id in running))
      && (forall id :: id in fired || id in deleted ==> id < nextId)
      && (forall id: nat :: id < nextId ==> Waiting(list, id) || id in fired || id in deleted)
      && (forall id :: id in fired ==> id !in deleted && !Waiting(list, id))
      && (forall id :: id in deleted ==> !Listed(list, id))
      && (forall i, j :: 0 <= i < j < |fired| ==> fired[i] != fired[j])
      && (forall id :: id in running ==> id in fired)
    }

    constructor ()
      ensures Valid({}) && list == [] && nextId == 0 && fired == [] && deleted == {}
    {
      list, nextId, fired, deleted := [], 0, [], {};
    }

    /** `timer_add`: ids are given in turn, and the dict puts the timer first. */
    method TimerAdd(bound: nat, name: string, time: int, func: nat, data: nat, ghost running: set<nat>)
      requires Valid(running)
      modifies this`list, this`nextId
      ensures Valid(running) && nextId == old(nextId) + 1
      ensures list == [Timer(old(nextId), bound, name, time, func, data, false)] + old(list)
    {
      var t := Timer(nextId, bound, name, time, func, data, false);
      NewestFirst(list, t);
      list := [t] + list;
      nextId := nextId + 1;
    }

    /** The node of a waiting timer goes. */
    method Delete(i: nat, ghost running: set<nat>)
      requires Valid(running) && i < |list| && !list[i].triggered
      modifies this`list, this`deleted
      ensures Valid(running) && deleted == old(deleted) + {old(list)[i].id}
      ensures list == old(list)[..i] + old(list)[i + 1..] == Alive(old(list), {old(list)[i].id})
    {
      AliveWithout(list, i);
      ghost var was := list;
      deleted := deleted + {list[i].id};
      list := list[..i] + list[i + 1..];
      RemovedMembers(was, i);
    }

    /** `timer_del`: one walk over the list. */
    method TimerDel(p: Pattern, ghost running: set<nat>)
      requires Valid(running)
      modifies this`list, this`deleted
      ensures Valid(running) && old(deleted) <= deleted
      ensures list == Alive(old(list), deleted)
      ensures forall t :: t in old(list) ==> (t.id in deleted <==> Matches(t, p))
      ensures forall t :: t in list ==> !Matches(t, p)
    {
      hide Valid, Alive, Matches;
      ghost var was := list;
      NoneDeleted(running);
      var i := 0;
      while i < |list|
        invariant Valid(running) && i <= |list| && old(deleted) <= deleted
        invariant list == Alive(was, deleted)
        invariant forall j :: 0 <= j < i ==> !Matches(list[j], p)
        invariant forall t :: t in was && t.id in deleted ==> Matches(t, p)
        decreases |list| - i
      {
        if Matches(list[i], p) {
          AliveTwice(was, deleted, {list[i].id});
          SameIdSame(was, deleted, running, i);
          MatchesWaiting(list[i], p);
          Delete(i, running);
        } else {
          i := i + 1;
        }
      }
      AliveFrom(was, deleted);
    }

    lemma NoneDeleted(running: set<nat>)
      requires Valid(running)
      ensures list == Alive(list, deleted) && DistinctIds(list)
      ensures forall t :: t in list ==> t.id !in deleted
    {
      forall t | t in list ensures t.id !in deleted {
        assert Listed(list, t.id);
      }
      AliveAll(list, deleted);
    }

    /** A timer of the list as it was, with the id of one still there, is that one. */
    lemma SameIdSame(was: seq<Timer>, gone: set<nat>, running: set<nat>, i: nat)
      requires DistinctIds(was) && list == Alive(was, gone) && i < |list|
      ensures forall t :: t in was && t.id == list[i].id ==> t == list[i]
    {
      AliveFrom(was, gone);
    }

    // ----- polling -----

    /** The position of the timer a node pointer stands for. */
    method IndexOf(id: nat) returns (i: nat)
      requires Listed(list, id)
      ensures i < |list| && list[i].id == id
    {
      i := 0;
      while list[i].id != id
        invariant i < |list| && exists j :: i <= j < |list| && list[j].id == id
        decreases |list| - i
      {
        i := i + 1;
      }
    }

    /** The timer is marked before its callback is called. */
    method Trigger(i: nat)
      requires Valid({}) && i < |list|
      modifies this`list, this`fired
      ensures Valid({old(list)[i].id}) && fired == old(fired) + [old(list)[i].id]
      ensures list == old(list)[i := old(list)[i].(triggered := true)] == Marked(old(list), old(list)[i].id)
    {
      MarkedOne(list, i);
      ghost var was := list;
      assert Waiting(list, list[i].id) && Listed(list, list[i].id);
      list := list[i := list[i].(triggered := true)];
      fired := fired + [list[i].id];
      TriggeredMembers(was, i);
    }

    /** After the callback the node of the timer goes, too. */
    method Release(i: nat)
      requires i < |list| && Valid({list[i].id})
      modifies this`list
      ensures Valid({}) && list == old(list)[..i] + old(list)[i + 1..] == Alive(old(list), {old(list)[i].id})
    {
      AliveWithout(list, i);
      RemovedMembers(list, i);
      ghost var was := list;
      list := list[..i] + list[i + 1..];
      forall j | 0 <= j < |list| ensures list[j] == was[if j < i then j else j + 1] {
      }
    }

    /** A callback runs while the timer at `at` is marked; what comes after that timer only loses
        what the callback deletes, and what it adds comes before it. */
    method RunCallback(actions: seq<Action>, ghost at0: nat, ghost later: seq<Timer>, ghost running: set<nat>)
      returns (ghost at: nat)
      requires Valid(running) && at0 < |list| && list[at0].triggered && list[at0 + 1..] == Alive(later, deleted)
      modifies this`list, this`nextId, this`deleted
      ensures Stand(list, nextId) == PerformAll(Stand(old(list), old(nextId)), actions)
      ensures Valid(running) && at < |list| && list[at] == old(list)[at0] && list[at + 1..] == Alive(later, deleted)
      ensures old(deleted) <= deleted && old(nextId) <= nextId
      ensures forall t :: t in list[..at] ==> t in old(list)[..at0] || t.id >= old(nextId)
      ensures forall t :: t in old(list)[..at0] && t.id !in deleted ==> t in list[..at]
    {
      hide Valid, Alive, Matches, Perform;
      at := at0;
      for i := 0 to |actions|
        invariant Valid(running) && at < |list| && list[at] == old(list)[at0] && list[at].triggered
        invariant Stand(list, nextId) == PerformAll(Stand(old(list), old(nextId)), actions[..i])
        invariant list[at + 1..] == Alive(later, deleted)
        invariant old(deleted) <= deleted && old(nextId) <= nextId
        invariant forall t :: t in list[..at] ==> t in old(list)[..at0] || t.id >= old(nextId)
        invariant forall t :: t in old(list)[..at0] && t.id !in deleted ==> t in list[..at]
      {
        PerformMore(Stand(old(list), old(nextId)), actions, i);
        at := Act(actions[i], at, later, running);
      }
      assert actions[..|actions|] == actions;
    }

    method Act(action: Action, ghost at0: nat, ghost later: seq<Timer>, ghost running: set<nat>)
      returns (ghost at: nat)
      requires Valid(running) && at0 < |list| && list[at0].triggered && list[at0 + 1..] == Alive(later, deleted)
      modifies this`list, this`nextId, this`deleted
      ensures Stand(list, nextId) == Perform(Stand(old(list), old(nextId)), action)
      ensures Valid(running) && at < |list| && list[at] == old(list)[at0] && list[at + 1..] == Alive(later, deleted)
      ensures old(deleted) <= deleted && old(nextId) <= nextId
      ensures forall t :: t in list[..at] ==> t in old(list)[..at0] || t.id >= old(nextId)
      ensures forall t :: t in old(list)[..at0] && t.id !in deleted ==> t in list[..at]
    {
      hide Valid, Alive;
      ghost var was, gone := list, deleted;
      match action {
        case Add(bound, name, time, func, data) =>
          TimerAdd(bound, name, time, func, data, running);
          at := at0 + 1;
          assert list[..at] == [list[0]] + was[..at0] && list[at + 1..] == was[at0 + 1..];
        case Del(p) =>
          TimerDel(p, running);
          AliveSpared(was, deleted, p);
          AliveSplit(was, at0, deleted);
          assert !Matches(was[at0], p) && was[at0] in was;
          at := |Alive(was[..at0], deleted)|;
          AliveFrom(was[..at0], deleted);
          assert list[..at] == Alive(was[..at0], deleted);
          AliveTwice(later, gone, deleted);
          assert gone + deleted == deleted;
          assert list[at + 1..] == Alive(was[at0 + 1..], deleted);
      }
    }

    // ----- timer_poll -----

    /** A poll over `was` has dealt with the first `k` timers and stands at position `at`. */
    ghost predicate Polling(was: seq<Timer>, firstNew: nat, now: int, log: seq<nat>, k: nat, at: nat)
      reads this
    {
      && Valid({}) && k <= |was| && at <= |list| && list[at..] == Alive(was[k..], deleted) && firstNew <= nextId
      && (forall t :: t in list[..at] ==> t in was[..k] || t.id >= firstNew)
      && (forall t :: t in was[..k] ==>
            if t.time <= now then t.id in log || t.id in deleted else t.id in deleted || t in list[..at])
      && log == Picked(was[..k], log) && (forall id :: id in log ==> id in fired)
      && (forall t :: t in was[..k] && t.id in log ==> t.time <= now)
    }

    /** One due timer: marked, called, and taken out. */
    method Fire(i: nat, actions: seq<Action>, ghost later: seq<Timer>) returns (ghost at: nat, next: Pointer)
      requires Valid({}) && i < |list| && list[i + 1..] == Alive(later, deleted)
      modifies this
      ensures Valid({}) && at <= |list| && list[at..] == Alive(later, deleted)
      ensures next == if at < |list| then Some(list[at].id) else None
      ensures fired == old(fired) + [old(list)[i].id]
      ensures Stand(list, nextId) == FireOne(Stand(old(list), old(nextId)), old(list)[i], actions)
      ensures old(deleted) <= deleted && old(nextId) <= nextId
      ensures forall t :: t in list[..at] ==> t in old(list)[..i] || t.id >= old(nextId)
      ensures forall t :: t in old(list)[..i] && t.id !in deleted ==> t in list[..at]
    {
      hide Valid, Alive;
      var t := list[i];
      ghost var was := list;
      Trigger(i);
      assert list[..i] == was[..i] && list[i + 1..] == was[i + 1..];
      at := RunCallback(actions, i, later, {t.id});
      ghost var before := list;
      var j := IndexOf(t.id) by {
        assert Listed(list, t.id);
      }
      SamePlace(j, at, {t.id});
      next := if j + 1 < |list| then Some(list[j + 1].id) else None;
      Release(j);
      assert list[..at] == before[..at] && list[at..] == before[at + 1..];
    }

    /** The next timer still in the list is the first of the remaining ones that was not deleted. */
    lemma NextAlive(was: seq<Timer>, firstNew: nat, now: int, log: seq<nat>, k: nat, at: nat) returns (m: nat)
      requires Polling(was, firstNew, now, log, k, at) && at < |list|
      ensures k <= m < |was| && was[m] == list[at] && Polling(was, firstNew, now, log, m, at)
      ensures Alive(was[m + 1..], deleted) == list[at + 1..] && list[at].id !in deleted
    {
      hide Valid, Alive;
      m := FirstAlive(was, k, deleted);
      assert list[at..][0] == list[at] && list[at..][1..] == list[at + 1..];
      SkipDeleted(was, firstNew, now, log, k, at, m);
    }

    lemma {:induction false} SkipDeleted(was: seq<Timer>, firstNew: nat, now: int, log: seq<nat>, k: nat, at: nat, m: nat)
      requires Polling(was, firstNew, now, log, k, at) && k <= m <= |was|
      requires forall i :: k <= i < m ==> was[i].id in deleted
      ensures Polling(was, firstNew, now, log, m, at)
      decreases m - k
    {
      if k < m {
        SkipOne(was, firstNew, now, log, k, at);
        hide Polling;
        SkipDeleted(was, firstNew, now, log, k + 1, at, m);
      }
    }

    lemma SkipOne(was: seq<Timer>, firstNew: nat, now: int, log: seq<nat>, k: nat, at: nat)
      requires Polling(was, firstNew, now, log, k, at) && k < |was| && was[k].id in deleted
      ensures Polling(was, firstNew, now, log, k + 1, at)
    {
      NotPicked(was, firstNew, now, log, k, at);
      AliveFirst(was[k..], deleted);
      assert was[k..][1..] == was[k + 1..] && [] + Alive(was[k + 1..], deleted) == Alive(was[k + 1..], deleted);
      PickedMore(was, k, log);
      assert was[..k + 1] == was[..k] + [was[k]];
      SkipPolling(was, firstNew, now, log, k, at);
    }

    lemma SkipPolling(was: seq<Timer>, firstNew: nat, now: int, log: seq<nat>, k: nat, at: nat)
      requires Polling(was, firstNew, now, log, k, at) && k < |was| && was[k].id in deleted && was[k].id !in log
      requires list[at..] == Alive(was[k + 1..], deleted) && log == Picked(was[..k + 1], log)
      requires was[..k + 1] == was[..k] + [was[k]]
      ensures Polling(was, firstNew, now, log, k + 1, at)
    {
      hide Valid, Alive, Picked;
    }

    lemma NotPicked(was: seq<Timer>, firstNew: nat, now: int, log: seq<nat>, k: nat, at: nat)
      requires Polling(was, firstNew, now, log, k, at) && k < |was| && was[k].id in deleted
      ensures was[k].id !in log
    {
    }

    /** A timer that is not due stays, and the poll moves on. */
    lemma PassedOver(was: seq<Timer>, firstNew: nat, now: int, log: seq<nat>, k: nat, at: nat)
      requires Polling(was, firstNew, now, log, k, at) && k < |was| && at < |list| && list[at] == was[k]
      requires Alive(was[k + 1..], deleted) == list[at + 1..] && was[k].time > now
      ensures Polling(was, firstNew, now, log, k + 1, at + 1)
    {
      assert was[k].id !in log by {
        WaitingNotFired(at);
      }
      hide Valid, Alive;
      assert was[..k + 1] == was[..k] + [was[k]] && list[..at + 1] == list[..at] + [list[at]];
      PickedMore(was, k, log);
    }

    lemma WaitingNotFired(i: nat)
      requires Valid({}) && i < |list|
      ensures list[i].id !in fired && list[i].id < nextId && !list[i].triggered
    {
      assert Waiting(list, list[i].id);
    }

    ghost predicate FiredSince(fired0: seq<nat>, log: seq<nat>)
      reads this
    {
      fired == fired0 + log
    }

    /** The list is what it was when the poll began, with the callbacks of `ran` carried out. */
    ghost predicate CarriedOut(s0: Stand, ran: seq<Timer>, script: Timer -> seq<Action>, log: seq<nat>)
      reads this
    {
      Stand(list, nextId) == FireAll(s0, ran, script) && log == Ids(ran) && forall t :: t in ran ==> t in s0.list
    }

    /** One round of the poll, at the timer `node` points to. */
    method Turn(now: int, script: Timer -> seq<Action>, node: nat, ghost was: seq<Timer>, ghost firstNew: nat,
                ghost log0: seq<nat>, ghost k0: nat, ghost at0: nat, ghost fired0: seq<nat>, ghost ran0: seq<Timer>)
      returns (next: Pointer, ghost log: seq<nat>, ghost k: nat, ghost at: nat, ghost ran: seq<Timer>)
      requires Polling(was, firstNew, now, log0, k0, at0) && DistinctIds(was)
      requires at0 < |list| && node == list[at0].id && FiredSince(fired0, log0)
      requires CarriedOut(Stand(was, firstNew), ran0, script, log0)
      modifies this
      ensures Polling(was, firstNew, now, log, k, at) && k0 < k
      ensures at <= |list| && next == if at < |list| then Some(list[at].id) else None
      ensures old(deleted) <= deleted && FiredSince(fired0, log)
      ensures CarriedOut(Stand(was, firstNew), ran, script, log)
    {
      hide Polling, Valid, Alive, Picked, DistinctIds, FireOne, FireAll, Ids;
      k := NextAlive(was, firstNew, now, log0, k0, at0);
      PollingValid(was, firstNew, now, log0, k, at0);
      var i := IndexOf(node) by {
        assert Listed(list, list[at0].id);
      }
      SamePlace(at0, i, {});
      var t := list[i];
      if t.time <= now {
        ghost var before := list;
        Unfired(was, firstNew, now, log0, k, at0);
        at, next := Fire(i, script(t), was[k + 1..]);
        FireDone(was, firstNew, now, log0, k, before, at0, at);
        log, ran := log0 + [t.id], ran0 + [t];
        FireMore(Stand(was, firstNew), ran0, t, script);
      } else {
        PassedOver(was, firstNew, now, log0, k, at0);
        at, log, ran := at0 + 1, log0, ran0;
        next := if i + 1 < |list| then Some(list[i + 1].id) else None;
      }
      k := k + 1;
      PollingBounds(was, firstNew, now, log, k, at);
    }

    /** `timer_poll`: each timer that was due is fired, in list order, unless a callback deleted it
        before its turn; timers added meanwhile are left for the next poll. What the callbacks of the
        fired timers do, they do one after the other, and nothing else happens to the list. */
    method TimerPoll(now: int, script: Timer -> seq<Action>) returns (ghost log: seq<nat>, ghost ran: seq<Timer>)
      requires Valid({})
      modifies this
      ensures Valid({}) && fired == old(fired) + log && old(deleted) <= deleted
      ensures forall t :: t in old(list) && t.time <= now ==> (t.id in log <==> t.id !in deleted)
      ensures forall t :: t in old(list) && t.time > now ==> t.id !in log && (t.id in deleted || t in list)
      ensures forall t :: t in list ==> t in old(list) || t.id >= old(nextId)
      ensures log == Picked(old(list), log) == Ids(ran) && forall t :: t in ran ==> t in old(list)
      ensures Stand(list, nextId) == FireAll(Stand(old(list), old(nextId)), ran, script)
    {
      ghost var was, firstNew, k: nat, at: nat := list, nextId, 0, 0;
      log, ran := [], [];
      var node := if |list| > 0 then Some(list[0].id) else None;
      PollStarts(now);
      ghost var fired0 := fired;
      assert DistinctIds(was) && FiredSince(fired0, log);
      hide Polling, Picked, Valid, DistinctIds, FireAll, Ids;
      while node.Some?
        invariant Polling(was, firstNew, now, log, k, at) && at <= |list| && k <= |was|
        invariant node == if at < |list| then Some(list[at].id) else None
        invariant FiredSince(fired0, log) && old(deleted) <= deleted
        invariant CarriedOut(Stand(was, firstNew), ran, script, log)
        decreases |was| - k
      {
        node, log, k, at, ran := Turn(now, script, node.value, was, firstNew, log, k, at, fired0, ran);
        PollingBounds(was, firstNew, now, log, k, at);
      }
      PollEnds(was, firstNew, now, log, k, at);
    }

    lemma PollingBounds(was: seq<Timer>, firstNew: nat, now: int, log: seq<nat>, k: nat, at: nat)
      requires Polling(was, firstNew, now, log, k, at)
      ensures k <= |was| && at <= |list|
    {
    }

    lemma PollStarts(now: int)
      requires Valid({})
      ensures Polling(list, nextId, now, [], 0, 0)
    {
      hide Valid;
      NoneDeleted({});
      assert list[0..] == list;
    }

    lemma PollingValid(was: seq<Timer>, firstNew: nat, now: int, log: seq<nat>, k: nat, at: nat)
      requires Polling(was, firstNew, now, log, k, at)
      ensures Valid({})
    {
    }

    lemma Unfired(was: seq<Timer>, firstNew: nat, now: int, log: seq<nat>, k: nat, at: nat)
      requires Polling(was, firstNew, now, log, k, at) && at < |list|
      ensures list[at].id !in fired && list[at].id !in log && firstNew <= nextId
      ensures forall t :: t in list[..at] ==> t in was[..k] || t.id >= firstNew
      ensures forall t :: t in was[..k] ==>
                if t.time <= now then t.id in log || t.id in deleted else t.id in deleted || t in list[..at]
      ensures log == Picked(was[..k], log) && (forall id :: id in log ==> id in fired)
      ensures forall t :: t in was[..k] && t.id in log ==> t.time <= now
      ensures forall t :: t in was[..k] ==> t.id != list[at].id || t.id in deleted || t.time <= now
    {
      WaitingNotFired(at);
      hide Valid, Alive;
    }

    /** Firing the due timer that stood at `at0` moves the poll on. */
    lemma FireDone(was: seq<Timer>, firstNew: nat, now: int, log: seq<nat>, k: nat,
                   before: seq<Timer>, at0: nat, at: nat)
      requires Valid({}) && k < |was| && at0 < |before| && before[at0] == was[k] && DistinctIds(was)
      requires was[k].time <= now && firstNew <= nextId && was[k].id in fired && was[k].id !in log
      requires at <= |list| && list[at..] == Alive(was[k + 1..], deleted)
      requires forall t :: t in before[..at0] ==> t in was[..k] || t.id >= firstNew
      requires forall t :: t in was[..k] ==>
                 if t.time <= now then t.id in log || t.id in deleted else t.id in deleted || t in before[..at0]
      requires log == Picked(was[..k], log) && (forall id :: id in log ==> id in fired)
      requires forall t :: t in was[..k] && t.id in log ==> t.time <= now
      requires forall t :: t in list[..at] ==> t in before[..at0] || t.id >= firstNew
      requires forall t :: t in before[..at0] && t.id !in deleted ==> t in list[..at]
      ensures Polling(was, firstNew, now, log + [was[k].id], k + 1, at)
    {
      hide Valid, Alive, Picked;
      var more := log + [was[k].id];
      assert was[..k + 1] == was[..k] + [was[k]];
      assert forall t :: t in was[..k] ==> t.id != was[k].id;
      PickedSame(was[..k], log, was[k].id);
      PickedMore(was, k, more);
    }

    lemma PollEnds(was: seq<Timer>, firstNew: nat, now: int, log: seq<nat>, k: nat, at: nat)
      requires Polling(was, firstNew, now, log, k, at) && at == |list|
      ensures Valid({})
      ensures forall t :: t in was && t.time <= now ==> (t.id in log <==> t.id !in deleted)
      ensures forall t :: t in was && t.time > now ==> t.id !in log && (t.id in deleted || t in list)
      ensures forall t :: t in list ==> t in was || t.id >= firstNew
      ensures log == Picked(was, log)
    {
      AliveFrom(was[k..], deleted);
      forall i | k <= i < |was| ensures was[i].id in deleted {
        assert was[i] in was[k..];
      }
      SkipDeleted(was, firstNew, now, log, k, at, |was|);
      assert was[..|was|] == was && list[..at] == list;
      assert forall id :: id in log ==> id !in deleted;
    }

    lemma SamePlace(i: nat, j: nat, running: set<nat>)
      requires Valid(running) && i < |list| && j < |list| && list[i].id == list[j].id
      ensures i == j
    {
    }
  }

  lemma NewestFirst(was: seq<Timer>, t: Timer)
    requires DistinctIds(was) && !Listed(was, t.id) && !t.triggered
    ensures var list := [t] + was;
      && DistinctIds(list)
      && (forall id :: Listed(list, id) <==> Listed(was, id) || id == t.id)
      && (forall id :: Waiting(list, id) <==> Waiting(was, id) || id == t.id)
  {
    var list := [t] + was;
    assert list[0] == t && forall i :: 0 <= i < |was| ==> was[i] == list[i + 1];
    forall id ensures Waiting(list, id) <==> Waiting(was, id) || id == t.id {
      if i :| 0 <= i < |was| && was[i].id == id && !was[i].triggered {
        assert list[i + 1].id == id && !list[i + 1].triggered;
      }
    }
    forall id ensures Listed(list, id) <==> Listed(was, id) || id == t.id {
      if i :| 0 <= i < |was| && was[i].id == id {
        assert list[i + 1].id == id;
      }
    }
  }

  lemma MatchesWaiting(t: Timer, p: Pattern)
    requires Matches(t, p)
    ensures !t.triggered
  {
  }

  lemma AliveWithout(list: seq<Timer>, i: nat)
    requires DistinctIds(list) && i < |list|
    ensures Alive(list, {list[i].id}) == list[..i] + list[i + 1..]
  {
    hide Alive;
    var gone := {list[i].id};
    AliveSplit(list, i, gone);
    OtherIds(list, i);
    AliveAll(list[..i], gone);
    AliveAll(list[i + 1..], gone);
    assert list[..i] + [] == list[..i];
  }

  lemma OtherIds(list: seq<Timer>, i: nat)
    requires DistinctIds(list) && i < |list|
    ensures forall t :: t in list[..i] || t in list[i + 1..] ==> t.id != list[i].id
  {
  }

  lemma AliveSplit(list: seq<Timer>, i: nat, gone: set<nat>)
    requires i < |list|
    ensures Alive(list, gone)
         == Alive(list[..i], gone) + (if list[i].id in gone then [] else [list[i]]) + Alive(list[i + 1..], gone)
  {
    AliveOne(list[i], gone);
    hide Alive;
    assert list == list[..i] + [list[i]] + list[i + 1..];
    AliveConcat(list[..i] + [list[i]], list[i + 1..], gone);
    AliveConcat(list[..i], [list[i]], gone);
  }

  lemma AliveOne(t: Timer, gone: set<nat>)
    ensures Alive([t], gone) == if t.id in gone then [] else [t]
  {
    assert [t][1..] == [];
  }

  /** What is listed and what waits after one timer is taken out. */
  lemma RemovedMembers(was: seq<Timer>, i: nat)
    requires DistinctIds(was) && i < |was|
    ensures var list := was[..i] + was[i + 1..];
      && DistinctIds(list)
      && (forall id :: Listed(list, id) <==> Listed(was, id) && id != was[i].id)
      && (forall id :: Waiting(list, id) <==> Waiting(was, id) && id != was[i].id)
  {
    var list := was[..i] + was[i + 1..];
    forall j | 0 <= j < |list| ensures list[j] == was[if j < i then j else j + 1] {
    }
    forall j | 0 <= j < |was| && j != i ensures was[j] == list[if j < i then j else j - 1] {
    }
    forall id ensures Listed(list, id) <==> Listed(was, id) && id != was[i].id {
      if k :| 0 <= k < |was| && was[k].id == id && id != was[i].id {
        assert list[if k < i then k else k - 1].id == id;
      }
    }
    forall id ensures Waiting(list, id) <==> Waiting(was, id) && id != was[i].id {
      if k :| 0 <= k < |was| && was[k].id == id && !was[k].triggered && id != was[i].id {
        assert list[if k < i then k else k - 1].id == id;
      }
    }
  }

  lemma TriggeredMembers(was: seq<Timer>, i: nat)
    requires DistinctIds(was) && i < |was|
    ensures var list := was[i := was[i].(triggered := true)];
      && DistinctIds(list)
      && (forall id :: Listed(list, id) <==> Listed(was, id))
      && (forall id :: Waiting(list, id) <==> Waiting(was, id) && id != was[i].id)
  {
    var list := was[i := was[i].(triggered := true)];
    forall id ensures Listed(list, id) <==> Listed(was, id) {
      if k :| 0 <= k < |was| && was[k].id == id {
        assert list[k].id == id;
      }
      if k :| 0 <= k < |list| && list[k].id == id {
        assert was[k].id == id;
      }
    }
    forall id ensures Waiting(list, id) <==> Waiting(was, id) && id != was[i].id {
      if k :| 0 <= k < |was| && was[k].id == id && !was[k].triggered && id != was[i].id {
        assert list[k].id == id && !list[k].triggered;
      }
      if k :| 0 <= k < |list| && list[k].id == id && !list[k].triggered {
        assert was[k].id == id && !was[k].triggered;
      }
    }
  }

  /** The ids among `ids` that the list holds, in the order of the list. */
  function Picked(list: seq<Timer>, ids: seq<nat>): seq<nat> {
    if list == [] then []
    else
      var k := |list| - 1;
      Picked(list[..k], ids) + if list[k].id in ids then [list[k].id] else []
  }

  lemma PickedMore(list: seq<Timer>, k: nat, ids: seq<nat>)
    requires k < |list|
    ensures Picked(list[..k + 1], ids) == Picked(list[..k], ids) + if list[k].id in ids then [list[k].id] else []
  {
    assert list[..k + 1][..k] == list[..k];
  }

  lemma {:induction false} FirstAlive(was: seq<Timer>, k: nat, deleted: set<nat>) returns (m: nat)
    requires k <= |was| && Alive(was[k..], deleted) != []
    ensures k <= m < |was| && forall i :: k <= i < m ==> was[i].id in deleted
    ensures was[m].id !in deleted && Alive(was[k..], deleted) == [was[m]] + Alive(was[m + 1..], deleted)
    decreases |was| - k
  {
    assert k < |was| && was[k..][1..] == was[k + 1..];
    AliveFirst(was[k..], deleted);
    if was[k].id in deleted {
      assert [] + Alive(was[k + 1..], deleted) == Alive(was[k + 1..], deleted);
      m := FirstAlive(was, k + 1, deleted);
    } else {
      m := k;
    }
  }

  lemma {:induction false} PickedSame(list: seq<Timer>, ids: seq<nat>, id: nat)
    requires forall t :: t in list ==> t.id != id
    ensures Picked(list, ids + [id]) == Picked(list, ids)
    decreases |list|
  {
    if list != [] {
      PickedSame(list[..|list| - 1], ids, id);
    }
  }
}
