/** What holds over every run of lines: the graph stays consistent, the burst counter counts, bursts
    advance, and held-back lines go through once, in order. */
module ChanUserRuns {
  import opened ChanUserModel
  import opened Chunks

  // ----- the graph -----

  /** Memberships join tracked channels and tracked users; only the bot may be on no channel. */
  ghost predicate Linked(st: State) {
    && (forall k :: k in st.members ==> k.chan in st.bursts && k.nick in st.nicks)
    && (forall n :: n in st.nicks ==> n == st.bot || Somewhere(st.members, n))
  }

  /** Only lines about a channel wait for it. */
  ghost predicate Sorted(st: State) {
    && st.queues.Keys == st.bursts.Keys
    && forall c, line :: c in st.queues && line in st.queues[c] ==> Holdable(line, c)
  }

  /** Nothing waits for a channel whose burst is over, except for `c` while it is replayed. */
  ghost predicate SettledBut(st: State, c: Name) {
    forall d :: d in st.bursts && d in st.queues && d != c && st.bursts[d] == Finished ==> st.queues[d] == []
  }

  ghost predicate Settled(st: State) {
    forall d :: d in st.bursts && d in st.queues && st.bursts[d] == Finished ==> st.queues[d] == []
  }

  ghost predicate Consistent(st: State) {
    Linked(st) && Sorted(st) && Settled(st)
  }

  /** A nick is only taken when it is free. */
  predicate Acceptable(st: State, line: Line) {
    line.Nick? && line.nick in st.nicks ==> line.to == line.nick || line.to !in st.nicks
  }

  lemma SomewhereElse<V>(members: map<Slot, V>, n: Name, c: Name)
    ensures Somewhere(WithoutChannel(members, c), n) <==> Elsewhere(members, n, c)
  {
    if Elsewhere(members, n, c) {
      var k :| k in members && k.nick == n && k.chan != c;
      assert k in WithoutChannel(members, c);
    }
  }

  lemma DropChannelLinked(st: State, c: Name)
    requires Linked(st)
    ensures Linked(DropChannel(st, c))
  {
    var now := DropChannel(st, c);
    forall n | n in now.nicks ensures n == now.bot || Somewhere(now.members, n) {
      SomewhereElse(st.members, n, c);
      if n != st.bot && Slot(c, n) !in st.members {
        var k :| k in st.members && k.nick == n;
        assert k == Slot(k.chan, n);
        assert Elsewhere(st.members, n, c);
      }
    }
    forall k | k in now.members ensures k.nick in now.nicks {
      assert k.chan != c;
      assert Elsewhere(st.members, k.nick, c);
    }
  }

  lemma AddChannelLinked(st: State, c: Name)
    requires Linked(st)
    ensures Linked(AddChannel(st, c)) && c in AddChannel(st, c).bursts
  {
    if c in st.bursts {
      DropChannelLinked(st, c);
    }
    hide DropChannel;
  }

  lemma EnterLinked(st: State, c: Name, n: Name, flags: Flags)
    requires Linked(st) && c in st.bursts
    ensures Linked(Enter(st, c, n, flags))
  {
    var now := Enter(st, c, n, flags);
    forall m | m in now.nicks ensures m == now.bot || Somewhere(now.members, m) {
      if m == n {
        assert Slot(c, n) in now.members;
      } else if m != st.bot {
        var k :| k in st.members && k.nick == m;
        assert k in now.members;
      }
    }
  }

  lemma {:induction false} EnterAllLinked(st: State, c: Name, names: seq<(Name, Flags)>)
    requires Linked(st) && c in st.bursts
    ensures Linked(EnterAll(st, c, names))
  {
    hide Linked;
    if names != [] {
      var rest := names[..|names| - 1];
      EnterAllLinked(st, c, rest);
      EnterAllShape(st, c, rest);
      EnterLinked(EnterAll(st, c, rest), c, names[|names| - 1].0, names[|names| - 1].1);
    }
  }

  lemma SameKeysLinked(st: State, now: State)
    requires Linked(st) && now.members.Keys == st.members.Keys && now.nicks == st.nicks
    requires now.bursts.Keys == st.bursts.Keys && now.bot == st.bot
    ensures Linked(now)
  {
    forall n | n in now.nicks ensures n == now.bot || Somewhere(now.members, n) {
      if n != st.bot {
        var k :| k in st.members && k.nick == n;
        assert k in now.members;
      }
    }
  }

  lemma LeaveLinked(st: State, c: Name, n: Name, checkDead: bool)
    requires Linked(st) && (checkDead || n == st.bot)
    ensures Linked(Leave(st, c, n, checkDead))
  {
    var now := Leave(st, c, n, checkDead);
    forall m | m in now.nicks ensures m == now.bot || Somewhere(now.members, m) {
      if m != st.bot && m != n {
        var k :| k in st.members && k.nick == m;
        assert k in now.members;
      }
    }
  }

  lemma DropUserLinked(st: State, n: Name)
    requires Linked(st)
    ensures Linked(DropUser(st, n))
  {
    var now := DropUser(st, n);
    forall m | m in now.nicks ensures m == now.bot || Somewhere(now.members, m) {
      if m != st.bot {
        var k :| k in st.members && k.nick == m;
        assert k in now.members;
      }
    }
  }

  lemma RenamedKeys(members: map<Slot, Flags>, n: Name, to: Name, k: Slot)
    ensures k in Renamed(members, n, to) <==>
      (k in members && k.nick != n) || (k.nick == to && Slot(k.chan, n) in members)
  {
    assert k.nick == to ==> k == Slot(k.chan, to);
  }

  lemma RenameLinked(st: State, n: Name, to: Name)
    requires Linked(st) && n in st.nicks && (to == n || to !in st.nicks)
    ensures Linked(Rename(st.(bot := if n == st.bot then to else st.bot), n, to))
  {
    hide Renamed;
    var now := Rename(st.(bot := if n == st.bot then to else st.bot), n, to);
    forall k | k in now.members ensures k.chan in now.bursts && k.nick in now.nicks {
      RenamedKeys(st.members, n, to, k);
    }
    forall m | m in now.nicks ensures m == now.bot || Somewhere(now.members, m) {
      var m0 := if m == to then n else m;
      if m0 != st.bot {
        var k :| k in st.members && k.nick == m0;
        assert k == Slot(k.chan, m0);
        RenamedKeys(st.members, n, to, Slot(k.chan, m));
      }
    }
  }

  lemma EffectLinked(st: State, line: Line)
    requires Linked(st) && Acceptable(st, line)
    ensures Linked(Effect(st, line))
  {
    hide Linked, DropChannel, AddChannel, Enter, Leave, Rename, DropUser;
    match line
    case Join(n, c) =>
      if n == st.bot {
        AddChannelLinked(st, c);
        EnterLinked(AddChannel(st, c), c, n, PLAIN);
      } else if c in st.bursts {
        EnterLinked(st, c, n, PLAIN);
      }
    case Part(n, c) =>
      if n == st.bot {
        LeaveLinked(st, c, n, false);
        DropChannelLinked(Leave(st, c, n, false), c);
      } else {
        LeaveLinked(st, c, n, true);
      }
    case Kick(c, victim) =>
      if victim == st.bot {
        DropChannelLinked(st, c);
      } else {
        LeaveLinked(st, c, victim, true);
      }
    case Nick(n, to) =>
      if n in st.nicks {
        RenameLinked(st, n, to);
      }
    case Quit(n) => DropUserLinked(st, n);
    case Mode(c, changes) =>
      SetModesShape(st, c, changes);
      SameKeysLinked(st, Effect(st, line));
    case Topic(c) =>
    case NameReply(c, names) =>
      if c in st.bursts {
        EnterAllLinked(st, c, names);
      }
    case EndOfNames(c) => SameKeysLinked(st, Effect(st, line));
    case ChannelModeIs(c, changes) =>
      SetModesShape(st, c, changes);
      SameKeysLinked(st, Effect(st, line));
    case EndOfBanList(c) => SameKeysLinked(st, Effect(st, line));
    case EndOfWho(c) =>
  }

  lemma StepLinked(st: State, line: Line)
    requires Linked(st) && Sorted(st) && Acceptable(st, line)
    ensures Linked(Step(st, line))
  {
    if Deferred(st, line) {
      SameKeysLinked(st, Step(st, line));
    } else {
      EffectLinked(st, line);
      SameKeysLinked(Effect(st, line), Step(st, line));
    }
  }

  lemma StepSorted(st: State, line: Line)
    requires Sorted(st)
    ensures Sorted(Step(st, line))
  {
    StepShape(st, line);
    hide Step;
  }

  lemma StepSettledAt(st: State, line: Line, d: Name)
    requires Sorted(st) && (d in st.bursts && d in st.queues && st.bursts[d] == Finished ==> st.queues[d] == [])
    ensures var now := Step(st, line);
      d in now.bursts && d in now.queues && now.bursts[d] == Finished ==> now.queues[d] == []
  {
    hide Effect;
    EffectBursts(st, line);
  }

  lemma StepSettled(st: State, line: Line)
    requires Sorted(st) && Settled(st)
    ensures Settled(Step(st, line))
  {
    hide Step, Sorted;
    var now := Step(st, line);
    forall d | d in now.bursts && d in now.queues && now.bursts[d] == Finished ensures now.queues[d] == [] {
      StepSettledAt(st, line, d);
    }
  }

  lemma StepSettledBut(st: State, line: Line, c: Name)
    requires Sorted(st) && SettledBut(st, c)
    ensures SettledBut(Step(st, line), c)
  {
    hide Step, Sorted;
    var now := Step(st, line);
    forall d | d in now.bursts && d in now.queues && d != c && now.bursts[d] == Finished ensures now.queues[d] == [] {
      StepSettledAt(st, line, d);
    }
  }

  // ----- replay -----

  /** A line that takes the channel away from under its own queue: the bot leaves it or joins it anew. */
  predicate Closes(st: State, line: Line) {
    OwnJoin(st, line) || OwnLeave(st, line)
  }

  /** The lines of `queue` up to the first that closes its channel. */
  function Until(st: State, queue: seq<Line>): seq<Line> {
    if queue == [] then []
    else if Closes(st, queue[0]) then [queue[0]]
    else [queue[0]] + Until(st, queue[1..])
  }

  /** The lines of `queue` after the first that closes its channel. */
  function Cut(st: State, queue: seq<Line>): seq<Line> {
    if queue == [] then []
    else if Closes(st, queue[0]) then queue[1..]
    else Cut(st, queue[1..])
  }

  /** All is replayed exactly if no line but the last closes the channel. */
  lemma {:induction false} UntilCut(st: State, queue: seq<Line>)
    ensures Until(st, queue) + Cut(st, queue) == queue
    ensures Cut(st, queue) == [] <==> forall i :: 0 <= i < |queue| - 1 ==> !Closes(st, queue[i])
  {
    if queue != [] {
      UntilCut(st, queue[1..]);
      if !Closes(st, queue[0]) {
        var rest := queue[1..];
        assert forall i :: 0 < i < |queue| ==> queue[i] == rest[i - 1];
        if Cut(st, queue) == [] {
          forall i | 0 <= i < |queue| - 1 ensures !Closes(st, queue[i]) {
            if i > 0 { assert queue[i] == rest[i - 1]; }
          }
        } else {
          var i :| 0 <= i < |rest| - 1 && Closes(st, rest[i]);
          assert queue[i + 1] == rest[i];
        }
      }
    }
  }

  function Steps(st: State, lines: seq<Line>): State
    decreases lines
  {
    if lines == [] then st else Steps(Step(st, lines[0]), lines[1..])
  }

  /** Whether a line closes does not change while others about the same channel go through. */
  lemma StepCloses(st: State, line: Line, c: Name)
    requires Holdable(line, c) && c in st.bursts && st.bursts[c] == Finished && !Closes(st, line)
    requires Sorted(st)
    ensures var now := Step(st, line);
      && now.bot == st.bot && (now.bot in now.nicks <==> st.bot in st.nicks)
      && c in now.bursts && now.bursts[c] == Finished && c in now.queues && now.queues[c] == st.queues[c]
      && now.log == st.log + [line]
  {
    if line.Mode? {
      SetModesShape(st, line.chan, line.changes);
    }
    hide Somewhere, SetModes;
  }

  lemma {:induction false} UntilSame(st: State, now: State, c: Name, queue: seq<Line>)
    requires forall line :: line in queue ==> Holdable(line, c)
    requires now.bot == st.bot && (now.bot in now.nicks <==> st.bot in st.nicks)
    requires c in st.bursts && c in now.bursts
    ensures Until(now, queue) == Until(st, queue)
  {
    if queue != [] {
      assert queue[0] in queue;
      UntilSame(st, now, c, queue[1..]);
    }
  }

  lemma ClosedLog(st: State, line: Line, c: Name)
    requires Holdable(line, c) && c in st.bursts && st.bursts[c] == Finished && Closes(st, line)
    requires Sorted(st)
    ensures var now := Step(st, line);
      && now.log == st.log + [line] && now.queues.Keys == now.bursts.Keys
      && (c in now.queues ==> now.queues[c] == [])
  {
    hide Effect;
    EffectBursts(st, line);
  }

  /** The replay of `c` from `i` on puts through its lines up to the first that closes the channel. */
  ghost predicate ReplaysUntil(st: State, c: Name, i: nat) {
    && Replayable(st, c, i) && c in st.queues && i <= |st.queues[c]|
    && var lines := Until(st, st.queues[c][i..]);
       Replay(st, c, i) == Steps(st, lines) && Replay(st, c, i).log == st.log + lines
  }

  lemma ReplayCloses(st: State, c: Name, i: nat)
    requires Replayable(st, c, i) && c in st.queues && i < |st.queues[c]|
    requires var line := st.queues[c][i]; var now := Step(st, line);
      && Closes(st, line) && now.log == st.log + [line] && (c in now.queues ==> now.queues[c] == [])
    ensures ReplaysUntil(st, c, i)
  {
    hide Step, Closes;
    var line := st.queues[c][i];
    var now := Step(st, line);
    assert Until(st, st.queues[c][i..]) == [line];
    StepReplayable(st, c, i);
    assert Replay(st, c, i) == Replay(now, c, i + 1) == now;
    assert [line][1..] == [] && Steps(now, []) == now;
  }

  lemma ReplayGoesOn(st: State, c: Name, i: nat)
    requires Replayable(st, c, i) && c in st.queues && i < |st.queues[c]|
    requires var line := st.queues[c][i]; var now := Step(st, line);
      && !Closes(st, line) && now.log == st.log + [line] && c in now.queues && now.queues[c] == st.queues[c]
      && Until(now, st.queues[c][i + 1..]) == Until(st, st.queues[c][i + 1..]) && ReplaysUntil(now, c, i + 1)
    ensures ReplaysUntil(st, c, i)
  {
    hide Step, Closes;
    var queue := st.queues[c];
    var line := queue[i];
    var rest := Until(st, queue[i + 1..]);
    assert queue[i..][1..] == queue[i + 1..];
    assert Until(st, queue[i..]) == [line] + rest;
    assert ([line] + rest)[1..] == rest;
  }

  /** The loop that replays a queue, looking up the channel each time, puts through the waiting lines
      one after the other up to the first that closes the channel, and none of them waits again. */
  lemma {:induction false} ReplayMeans(st: State, c: Name, i: nat)
    requires Sorted(st) && c in st.bursts && st.bursts[c] == Finished && i <= |st.queues[c]|
    ensures ReplaysUntil(st, c, i)
    decreases |st.queues[c]| - i
  {
    hide Step, Closes, Holdable, Until, Replay;
    var queue := st.queues[c];
    if i < |queue| {
      var line := queue[i];
      assert line in queue;
      StepReplayable(st, c, i);
      if Closes(st, line) {
        ClosedLog(st, line, c);
        ReplayCloses(st, c, i);
      } else {
        StepCloses(st, line, c);
        StepSorted(st, line);
        ReplayMeans(Step(st, line), c, i + 1);
        UntilSame(st, Step(st, line), c, queue[i + 1..]);
        ReplayGoesOn(st, c, i);
      }
    } else {
      NothingToReplay(st, c);
    }
  }

  lemma NothingToReplay(st: State, c: Name)
    requires c in st.queues && Replayable(st, c, |st.queues[c]|)
    ensures ReplaysUntil(st, c, |st.queues[c]|)
  {
  }

  lemma {:induction false} ReplayKeeps(st: State, c: Name, i: nat)
    requires Linked(st) && Sorted(st) && SettledBut(st, c) && Replayable(st, c, i)
    ensures var now := Replay(st, c, i); Linked(now) && Sorted(now) && SettledBut(now, c)
    decreases if c in st.queues && i < |st.queues[c]| then |st.queues[c]| - i else 0
  {
    hide Step, Linked, SettledBut;
    if c in st.queues && i < |st.queues[c]| {
      var line := st.queues[c][i];
      assert line in st.queues[c];
      StepReplayable(st, c, i);
      StepLinked(st, line);
      StepSorted(st, line);
      StepSettledBut(st, line, c);
      ReplayKeeps(Step(st, line), c, i + 1);
    }
  }

  // ----- whole lines -----

  lemma FinishKeeps(st: State, c: Name)
    requires Consistent(st) && c in st.bursts
    ensures var now := Finish(st, c);
      Linked(now) && Sorted(now) && SettledBut(now, c) && Replayable(now, c, 0)
  {
    SameKeysLinked(st, Finish(st, c));
    hide Linked;
  }

  lemma EmptiedKeeps(st: State, c: Name)
    requires Linked(st) && Sorted(st) && SettledBut(st, c)
    ensures Consistent(Emptied(st, c))
  {
    SameKeysLinked(st, Emptied(st, c));
    hide Linked;
  }

  /** Every line keeps the graph and the queues consistent. */
  lemma HandleKeeps(st: State, line: Line)
    requires Consistent(st) && Acceptable(st, line)
    ensures Consistent(Handle(st, line))
  {
    hide Linked, SettledBut, Step, Finish, Emptied, Settled;
    if EndsBurst(st, line) {
      FinishKeeps(st, line.chan);
      ReplayKeeps(Finish(st, line.chan), line.chan, 0);
      EmptiedKeeps(Replay(Finish(st, line.chan), line.chan, 0), line.chan);
    } else {
      StepLinked(st, line);
      StepSorted(st, line);
      StepSettled(st, line);
    }
  }

  /** The end of a burst puts through the waiting lines in order, up to the first that takes the channel away. */
  lemma EndOfBurst(st: State, c: Name)
    requires Consistent(st) && EndsBurst(st, EndOfWho(c))
    ensures var begin := Finish(st, c); var lines := Until(begin, st.queues[c]);
      && Handle(st, EndOfWho(c)) == Emptied(Steps(begin, lines), c)
      && Handle(st, EndOfWho(c)).log == st.log + [EndOfWho(c)] + lines
  {
    FinishKeeps(st, c);
    ReplayMeans(Finish(st, c), c, 0);
    assert st.queues[c][0..] == st.queues[c];
  }

  // ----- the burst counter -----

  function Unfinished(bursts: map<Name, Burst>): set<Name> {
    set c | c in bursts && bursts[c] != Finished
  }

  /** How far the counter is above the number of unfinished bursts. */
  function Gap(st: State): int {
    st.count - |Unfinished(st.bursts)|
  }

  /** The bot joins a channel again whose burst is still going on. */
  predicate Leaks(st: State, line: Line) {
    OwnJoin(st, line) && line.chan in st.bursts && st.bursts[line.chan] != Finished
  }

  lemma UnfinishedSet(bursts: map<Name, Burst>, c: Name, burst: Burst)
    ensures |Unfinished(bursts[c := burst])| == |Unfinished(bursts)|
      + (if burst != Finished then 1 else 0) - (if c in Unfinished(bursts) then 1 else 0)
  {
    assert Unfinished(bursts[c := burst]) ==
      if burst == Finished then Unfinished(bursts) - {c} else Unfinished(bursts) + {c};
  }

  lemma UnfinishedLess(bursts: map<Name, Burst>, c: Name)
    requires c !in Unfinished(bursts)
    ensures Unfinished(bursts - {c}) == Unfinished(bursts)
  {
  }

  lemma StepGap(st: State, line: Line)
    requires st.queues.Keys == st.bursts.Keys
    ensures Gap(Step(st, line)) == Gap(st) + if Leaks(st, line) then 1 else 0
  {
    hide Effect;
    EffectBursts(st, line);
    assert line.Part? || line.Kick? || line.Join? || StageReply(line) ==>
      (line.chan in Unfinished(st.bursts) <==> line.chan in st.bursts && st.bursts[line.chan] != Finished);
    hide Unfinished;
    if Deferred(st, line) {
    } else if OwnJoin(st, line) {
      UnfinishedSet(st.bursts, line.chan, Names);
    } else if OwnLeave(st, line) {
      UnfinishedLess(st.bursts, line.chan);
    } else if StageReply(line) && line.chan in st.bursts {
      UnfinishedSet(st.bursts, line.chan, NextStage(st.bursts[line.chan], line));
    }
  }

  lemma {:induction false} ReplayGap(st: State, c: Name, i: nat)
    requires Sorted(st) && Replayable(st, c, i)
    ensures Gap(Replay(st, c, i)) == Gap(st)
    decreases if c in st.queues && i < |st.queues[c]| then |st.queues[c]| - i else 0
  {
    hide Step, Gap;
    if c in st.queues && i < |st.queues[c]| {
      var line := st.queues[c][i];
      assert line in st.queues[c];
      StepReplayable(st, c, i);
      StepSorted(st, line);
      StepGap(st, line);
      ReplayGap(Step(st, line), c, i + 1);
    }
  }

  /** The counter follows the number of unfinished bursts, except that a burst cut short by another
      JOIN of the bot stays counted. */
  lemma HandleGap(st: State, line: Line)
    requires Consistent(st)
    ensures Gap(Handle(st, line)) == Gap(st) + if Leaks(st, line) then 1 else 0
  {
    hide Step, Linked;
    if EndsBurst(st, line) {
      var c := line.chan;
      FinishKeeps(st, c);
      UnfinishedSet(st.bursts, c, Finished);
      ReplayGap(Finish(st, c), c, 0);
    } else {
      StepGap(st, line);
    }
  }

  /** Where the burst of a channel stands after a line, if the channel is still tracked: bursts go
      through their stages one by one, and begin anew exactly by another JOIN of the bot, be it this
      line or a waiting JOIN under the nick the bot has meanwhile taken. */
  function BurstAfter(st: State, line: Line, c: Name): Burst
    requires c in st.bursts && c in st.queues
  {
    if line == Join(st.bot, c) then Names
    else if EndsBurst(st, line) && line.chan == c then
      if Join(st.bot, c) in st.queues[c] then Names else Finished
    else if StageReply(line) && line.chan == c then NextStage(st.bursts[c], line)
    else st.bursts[c]
  }

  /** The burst of a channel that stays tracked stands where `BurstAfter` says: never more than one
      stage further, and further back only when it begins anew. */
  lemma BurstAdvances(st: State, line: Line, c: Name)
    requires Consistent(st) && c in st.bursts
    ensures var now := Handle(st, line);
      c in now.bursts ==>
        && now.bursts[c] == BurstAfter(st, line, c)
        && (now.bursts[c].Rank() < st.bursts[c].Rank() <==> now.bursts[c] == Names != st.bursts[c])
        && now.bursts[c].Rank() <= st.bursts[c].Rank() + 1
  {
    hide Linked;
    if EndsBurst(st, line) {
      hide Step;
      FinishKeeps(st, line.chan);
      ReplayBursts(Finish(st, line.chan), line.chan, 0, c);
      if line.chan == c {
        ReplayRestarts(Finish(st, c), c, 0);
        assert st.queues[c][0..] == st.queues[c];
      }
    } else {
      hide Effect;
      EffectBursts(st, line);
    }
  }

  /** A replay that leaves the channel tracked ends in a new burst exactly if a JOIN of the bot waited. */
  lemma {:induction false} ReplayRestarts(st: State, c: Name, i: nat)
    requires Sorted(st) && c in st.bursts && st.bursts[c] == Finished && i <= |st.queues[c]|
    ensures Replayable(st, c, i)
    ensures var now := Replay(st, c, i);
      c in now.bursts ==> now.bursts[c] == if Join(st.bot, c) in st.queues[c][i..] then Names else Finished
    decreases |st.queues[c]| - i
  {
    hide Step, Closes;
    if i < |st.queues[c]| {
      var line := st.queues[c][i];
      assert line in st.queues[c];
      assert st.queues[c][i..] == [line] + st.queues[c][i + 1..];
      StepReplayable(st, c, i);
      if Closes(st, line) {
        ClosedLog(st, line, c);
        ClosedBurst(st, line, c);
      } else {
        StepCloses(st, line, c);
        StepSorted(st, line);
        NotOwnJoin(st, line, c);
        ReplayRestarts(Step(st, line), c, i + 1);
      }
    }
  }

  lemma ClosedBurst(st: State, line: Line, c: Name)
    requires Holdable(line, c) && c in st.bursts && st.bursts[c] == Finished && Closes(st, line) && Sorted(st)
    ensures var now := Step(st, line); c in now.bursts ==> now.bursts[c] == Names && line == Join(st.bot, c)
  {
    hide Effect;
    EffectBursts(st, line);
  }

  lemma NotOwnJoin(st: State, line: Line, c: Name)
    requires !Closes(st, line)
    ensures line != Join(st.bot, c)
  {
  }

  lemma {:induction false} ReplayBursts(st: State, d: Name, i: nat, c: Name)
    requires Sorted(st) && Replayable(st, d, i) && (d in st.bursts && i < |st.queues[d]| ==> st.bursts[d] == Finished)
    ensures var now := Replay(st, d, i);
      c in now.bursts ==>
        || (c in st.bursts && now.bursts[c] == st.bursts[c] && (c != d ==> Waiting(now, c) == Waiting(st, c)))
        || (c == d && d in st.queues && now.bursts[c] == Names && Join(st.bot, c) in st.queues[d])
    ensures c != d && c in st.bursts ==> c in Replay(st, d, i).bursts
    decreases if d in st.queues && i < |st.queues[d]| then |st.queues[d]| - i else 0
  {
    hide Step, Closes;
    if d in st.queues && i < |st.queues[d]| {
      var line := st.queues[d][i];
      assert line in st.queues[d];
      StepReplayable(st, d, i);
      StepSorted(st, line);
      StepElsewhere(st, line, d, c);
      if Closes(st, line) {
        ClosedLog(st, line, d);
      } else {
        StepCloses(st, line, d);
        ReplayBursts(Step(st, line), d, i + 1, c);
      }
    }
  }

  /** A waiting line of `d` that goes through. */
  lemma StepElsewhere(st: State, line: Line, d: Name, c: Name)
    requires Sorted(st) && Holdable(line, d) && d in st.bursts && st.bursts[d] == Finished
    ensures var now := Step(st, line);
      c in now.bursts ==>
        || (c in st.bursts && now.bursts[c] == st.bursts[c] && Waiting(now, c) == Waiting(st, c))
        || (c == d && now.bursts[c] == Names && Waiting(now, c) == [] && line == Join(st.bot, c))
    ensures c != d && c in st.bursts ==> c in Step(st, line).bursts
  {
    hide Effect;
    EffectBursts(st, line);
  }

  // ----- held-back lines -----

  /** The lines about `c` that a burst holds back, in order. */
  function About(lines: seq<Line>, c: Name): seq<Line> {
    if lines == [] then []
    else About(lines[..|lines| - 1], c) + if Holdable(lines[|lines| - 1], c) then [lines[|lines| - 1]] else []
  }

  lemma {:induction false} AboutAppend(a: seq<Line>, b: seq<Line>, c: Name)
    ensures About(a + b, c) == About(a, c) + About(b, c)
  {
    if b == [] {
      assert a + b == a;
    } else {
      var last := b[|b| - 1];
      assert (a + b)[..|a + b| - 1] == a + b[..|b| - 1];
      AboutAppend(a, b[..|b| - 1], c);
    }
  }

  lemma {:induction false} AboutAll(lines: seq<Line>, d: Name, c: Name)
    requires forall line :: line in lines ==> Holdable(line, d)
    ensures About(lines, c) == if c == d then lines else []
  {
    if lines != [] {
      assert lines[|lines| - 1] in lines;
      AboutAll(lines[..|lines| - 1], d, c);
      assert lines == lines[..|lines| - 1] + [lines[|lines| - 1]];
    }
  }

  function Waiting(st: State, c: Name): seq<Line> {
    if c in st.queues then st.queues[c] else []
  }

  /** The waiting lines of `c` that are dropped: with the old channel when the bot joins it again, or
      behind a replayed line that takes the channel away. */
  function Lost(st: State, line: Line, c: Name): seq<Line> {
    if EndsBurst(st, line) && line.chan == c then Cut(Finish(st, c), Waiting(st, c))
    else if OwnJoin(st, line) && line.chan == c then Waiting(st, c)
    else []
  }

  lemma StepWaiting(st: State, line: Line, c: Name)
    requires Sorted(st) && Settled(st) && !(OwnJoin(st, line) && line.chan == c && Waiting(st, c) != [])
    ensures var held := Deferred(st, line) && Holdable(line, c);
      && Waiting(Step(st, line), c) == Waiting(st, c) + (if held then [line] else [])
      && (Holdable(line, c) && !held ==> Waiting(st, c) == [])
      && Step(st, line).log == st.log + (if Deferred(st, line) then [] else [line])
  {
    hide Effect;
    EffectBursts(st, line);
  }

  lemma DeferredHeld(st: State, line: Line, c: Name)
    ensures Deferred(st, line) && !Holdable(line, c) ==> line.chan != c
  {
  }

  lemma StepConserves(st: State, line: Line, c: Name)
    requires Sorted(st) && Settled(st) && !(OwnJoin(st, line) && line.chan == c && Waiting(st, c) != [])
    ensures var now := Step(st, line);
      About(now.log, c) + Waiting(now, c) == About(st.log, c) + Waiting(st, c) + About([line], c)
  {
    hide *;
    StepWaiting(st, line, c);
    AboutAppend(st.log, [line], c);
    OneLine(line, c);
    DeferredHeld(st, line, c);
    var a, w := About(st.log, c), Waiting(st, c);
    assert st.log + [] == st.log;
    if Deferred(st, line) && Holdable(line, c) {
      assert a + (w + [line]) == a + w + [line];
    } else if Deferred(st, line) {
      assert a + (w + []) == a + w + [];
    } else if Holdable(line, c) {
      assert a + [line] + (w + []) == a + w + [line];
    } else {
      assert a + [] + (w + []) == a + w + [];
    }
  }

  lemma OneLine(line: Line, c: Name)
    ensures About([line], c) == if Holdable(line, c) then [line] else []
  {
    assert [line][..0] == [];
  }

  /** Held-back lines are lost in two cases only: a waiting line but the last takes the channel away,
      or the bot joins the channel again while lines wait. */
  lemma LostIff(st: State, line: Line, c: Name)
    ensures Lost(st, line, c) != [] <==>
      || (EndsBurst(st, line) && line.chan == c
          && exists i :: 0 <= i < |Waiting(st, c)| - 1 && Closes(Finish(st, c), Waiting(st, c)[i]))
      || (OwnJoin(st, line) && line.chan == c && Waiting(st, c) != [])
  {
    if EndsBurst(st, line) {
      UntilCut(Finish(st, c), Waiting(st, c));
    }
    hide Closes, Finish, Waiting;
  }

  lemma EndConserves(st: State, c: Name, queue: seq<Line>, lines: seq<Line>, cut: seq<Line>, d: Name)
    requires queue == lines + cut && forall line :: line in queue ==> Holdable(line, d)
    ensures About(st.log + [EndOfWho(d)] + lines, c) == About(st.log, c) + if c == d then lines else []
  {
    hide *;
    forall line | line in lines ensures Holdable(line, d) {
      assert line in queue;
    }
    AboutAll(lines, d, c);
    OneLine(EndOfWho(d), c);
    NotHeld(d, c);
    AboutAppend(st.log, [EndOfWho(d)], c);
    AboutAppend(st.log + [EndOfWho(d)], lines, c);
  }

  /** The waiting lines of `c` that are not dropped. */
  function Kept(st: State, line: Line, c: Name): seq<Line> {
    if EndsBurst(st, line) && line.chan == c then Until(Finish(st, c), Waiting(st, c))
    else if OwnJoin(st, line) && line.chan == c then []
    else Waiting(st, c)
  }

  lemma KeptAndLost(st: State, line: Line, c: Name)
    ensures Kept(st, line, c) + Lost(st, line, c) == Waiting(st, c)
  {
    if EndsBurst(st, line) && line.chan == c {
      UntilCut(Finish(st, c), Waiting(st, c));
    }
    hide Finish, Waiting;
  }

  /** After every line, what has gone through about a channel and what still waits is what had gone
      through, what waited without what is lost, and the new line: in this order, nothing twice. */
  lemma HandleConserves(st: State, line: Line, c: Name)
    requires Consistent(st)
    ensures Waiting(st, c) == Kept(st, line, c) + Lost(st, line, c)
    ensures var now := Handle(st, line);
      About(now.log, c) + Waiting(now, c) == About(st.log, c) + Kept(st, line, c) + About([line], c)
  {
    KeptAndLost(st, line, c);
    hide Linked, Step, About, Holdable, Until, Cut, Finish, Closes, Sorted, Settled;
    if EndsBurst(st, line) {
      EndBurstConserves(st, line.chan, c);
    } else if OwnJoin(st, line) && line.chan == c {
      OwnJoinConserves(st, line, c);
    } else {
      StepConserves(st, line, c);
    }
  }

  lemma EndBurstConserves(st: State, d: Name, c: Name)
    requires Consistent(st) && EndsBurst(st, EndOfWho(d))
    ensures var now := Handle(st, EndOfWho(d));
      About(now.log, c) + Waiting(now, c) == About(st.log, c) + Kept(st, EndOfWho(d), c) + About([EndOfWho(d)], c)
  {
    hide Linked, Step, About, Holdable, Until, Cut, Finish, Closes;
    var begin := Finish(st, d);
    EndOfBurst(st, d);
    UntilCut(begin, st.queues[d]);
    EndConserves(st, c, st.queues[d], Until(begin, st.queues[d]), Cut(begin, st.queues[d]), d);
    OneLine(EndOfWho(d), c);
    NotHeld(d, c);
    FinishKeeps(st, d);
    FinishWaits(st, d, c);
    ReplayKeeps(begin, d, 0);
    ReplayBursts(begin, d, 0, c);
    EmptiedWaits(Replay(begin, d, 0), d, c);
  }

  /** Another JOIN of the bot goes through in front of an empty queue. */
  lemma OwnJoinConserves(st: State, line: Line, c: Name)
    requires Sorted(st) && OwnJoin(st, line) && line.chan == c
    ensures var now := Step(st, line);
      Waiting(now, c) == [] && About(now.log, c) == About(st.log, c) + About([line], c)
  {
    hide Effect;
    EffectBursts(st, line);
    AboutAppend(st.log, [line], c);
    hide About;
  }

  lemma NotHeld(d: Name, c: Name)
    ensures !Holdable(EndOfWho(d), c)
  {
  }

  lemma FinishWaits(st: State, d: Name, c: Name)
    ensures Waiting(Finish(st, d), c) == Waiting(st, c)
    ensures c in st.bursts ==> c in Finish(st, d).bursts
  {
  }

  lemma EmptiedWaits(st: State, d: Name, c: Name)
    requires st.queues.Keys == st.bursts.Keys
    ensures Waiting(Emptied(st, d), c) == if c == d then [] else Waiting(st, c)
  {
  }

  // ----- runs -----

  function Start(bot: Name): (st: State)
    ensures Consistent(st)
  {
    State(bot, {}, map[], map[], map[], 0, [])
  }

  ghost predicate Admits(st: State, lines: seq<Line>)
    requires Consistent(st)
    decreases lines
  {
    lines == [] ||
    (Acceptable(st, lines[0]) && (HandleKeeps(st, lines[0]); Admits(Handle(st, lines[0]), lines[1..])))
  }

  ghost function Run(st: State, lines: seq<Line>): State
    requires Consistent(st) && Admits(st, lines)
    decreases lines
  {
    if lines == [] then st
    else
      HandleKeeps(st, lines[0]);
      Run(Handle(st, lines[0]), lines[1..])
  }

  /** How often the bot joins a channel again whose burst is still going on. */
  ghost function LeaksOf(st: State, lines: seq<Line>): nat
    requires Consistent(st) && Admits(st, lines)
    decreases lines
  {
    if lines == [] then 0
    else
      HandleKeeps(st, lines[0]);
      (if Leaks(st, lines[0]) then 1 else 0) + LeaksOf(Handle(st, lines[0]), lines[1..])
  }

  /** How many lines about `c` are lost. */
  ghost function LostOf(st: State, lines: seq<Line>, c: Name): nat
    requires Consistent(st) && Admits(st, lines)
    decreases lines
  {
    if lines == [] then 0
    else
      HandleKeeps(st, lines[0]);
      |Lost(st, lines[0], c)| + LostOf(Handle(st, lines[0]), lines[1..], c)
  }

  lemma {:induction false} RunKeeps(st: State, lines: seq<Line>)
    requires Consistent(st) && Admits(st, lines)
    ensures Consistent(Run(st, lines))
    decreases lines
  {
    hide Linked, Settled, Handle, Acceptable;
    if lines != [] {
      HandleKeeps(st, lines[0]);
      RunKeeps(Handle(st, lines[0]), lines[1..]);
    }
  }

  lemma {:induction false} RunGap(st: State, lines: seq<Line>)
    requires Consistent(st) && Admits(st, lines)
    ensures Gap(Run(st, lines)) == Gap(st) + LeaksOf(st, lines)
    decreases lines
  {
    hide Linked, Settled, Handle, Acceptable, Gap, Leaks;
    if lines != [] {
      HandleKeeps(st, lines[0]);
      HandleGap(st, lines[0]);
      RunGap(Handle(st, lines[0]), lines[1..]);
    }
  }

  /** Over every run, what has gone through about a channel and what waits is taken from what had gone
      through, what waited and what arrives, in this order; as many lines are missing as are lost. */
  lemma {:induction false} RunConserves(st: State, lines: seq<Line>, c: Name)
    requires Consistent(st) && Admits(st, lines)
    ensures var now := Run(st, lines);
      var done, all := About(now.log, c) + Waiting(now, c), About(st.log, c) + Waiting(st, c) + About(lines, c);
      SubSeq(done, all) && |done| + LostOf(st, lines, c) == |all|
    decreases lines
  {
    hide Linked, Settled, Handle, Acceptable, About, Waiting, Lost, Kept, SubSeq;
    if lines == [] {
      assert About(lines, c) == [] by { AboutAll([], c, c); }
      var all := About(st.log, c) + Waiting(st, c);
      assert all + [] == all;
      SubSeqSelf(all);
    } else {
      HandleKeeps(st, lines[0]);
      HandleConserves(st, lines[0], c);
      RunConserves(Handle(st, lines[0]), lines[1..], c);
      assert lines == [lines[0]] + lines[1..];
      AboutAppend([lines[0]], lines[1..], c);
      var next := Handle(st, lines[0]);
      var gone, kept, lost := About(st.log, c), Kept(st, lines[0], c), Lost(st, lines[0], c);
      var new_, rest := About([lines[0]], c), About(lines[1..], c);
      SubSeqGap(gone, kept, lost, new_ + rest);
      assert gone + kept + new_ + rest == gone + kept + (new_ + rest);
      assert About(next.log, c) + Waiting(next, c) + rest == gone + kept + (new_ + rest);
      assert gone + Waiting(st, c) + About(lines, c) == gone + (kept + lost) + (new_ + rest);
      var now := Run(st, lines);
      assert now == Run(next, lines[1..]);
      SubSeqTransitive(About(now.log, c) + Waiting(now, c), gone + kept + (new_ + rest),
                       gone + (kept + lost) + (new_ + rest));
    }
  }

  /** Over every run from the start: the graph is consistent; the counter is the number of unfinished
      bursts plus the number of repeated JOINs of the bot in mid-burst; every line about a channel goes
      through at most once, in order of arrival, and what has neither gone through nor waits is lost;
      without a loss it is exactly the lines that arrived. */
  lemma RunFromStart(bot: Name, lines: seq<Line>, c: Name)
    requires Admits(Start(bot), lines)
    ensures var now := Run(Start(bot), lines); var done := About(now.log, c) + Waiting(now, c);
      && Consistent(now)
      && now.count == |Unfinished(now.bursts)| + LeaksOf(Start(bot), lines)
      && SubSeq(done, About(lines, c))
      && |done| + LostOf(Start(bot), lines, c) == |About(lines, c)|
      && (LostOf(Start(bot), lines, c) == 0 <==> done == About(lines, c))
  {
    RunKeeps(Start(bot), lines);
    RunGap(Start(bot), lines);
    assert Unfinished(map[]) == {};
    RunConserves(Start(bot), lines, c);
    assert About([], c) == [] && Waiting(Start(bot), c) == [];
    hide Consistent, Run, Admits, LostOf, LeaksOf, About, Waiting, SubSeq;
    var now := Run(Start(bot), lines);
    var done, all := About(now.log, c) + Waiting(now, c), About(lines, c);
    assert [] + [] + all == all;
    if |done| == |all| {
      SubSeqWhole(done, all);
    }
  }

  /** After `lines`, the burst of `c` is at its first stage. */
  ghost predicate BackToNames(st: State, lines: seq<Line>, c: Name) {
    Consistent(st) && Admits(st, lines) && c in Run(st, lines).bursts && Run(st, lines).bursts[c] == Names
  }

  lemma RunFirst(st: State, line: Line, rest: seq<Line>, now: State, c: Name)
    requires Consistent(st) && Acceptable(st, line) && now == Handle(st, line)
    ensures Consistent(now)
    ensures Admits(now, rest) ==> Admits(st, [line] + rest)
    ensures Admits(now, rest) ==> Run(st, [line] + rest) == Run(now, rest)
    ensures Admits(now, rest) ==> LostOf(st, [line] + rest, c) == |Lost(st, line, c)| + LostOf(now, rest, c)
    ensures BackToNames(now, rest, c) ==> BackToNames(st, [line] + rest, c)
  {
    HandleKeeps(st, line);
    assert ([line] + rest)[0] == line && ([line] + rest)[1..] == rest;
    hide Linked, Settled, Handle, Acceptable, Lost;
  }

  /** The bot alone on one channel. */
  function Alone(bot: Name, c: Name, burst: Burst, queue: seq<Line>, log: seq<Line>): State {
    State(bot, {bot}, map[Slot(c, bot) := PLAIN], map[c := burst], map[c := queue], 1, log)
  }

  lemma AloneJoins(bot: Name, c: Name)
    ensures Handle(Start(bot), Join(bot, c)) == Alone(bot, c, Names, [], [Join(bot, c)])
  {
    var now := Handle(Start(bot), Join(bot, c));
    assert now.log == [Join(bot, c)];
    assert now.members == map[Slot(c, bot) := PLAIN];
  }

  lemma AloneDefers(bot: Name, nick: Name, c: Name, log: seq<Line>)
    requires bot != nick
    ensures Handle(Alone(bot, c, Names, [], log), Join(nick, c)) == Alone(bot, c, Names, [Join(nick, c)], log)
  {
    var none: seq<Line> := [];
    assert none + [Join(nick, c)] == [Join(nick, c)];
    var now := Handle(Alone(bot, c, Names, none, log), Join(nick, c));
    assert now.queues == map[c := [Join(nick, c)]];
  }

  lemma AloneHoldsKick(bot: Name, c: Name, log: seq<Line>)
    ensures Handle(Alone(bot, c, Names, [], log), Kick(c, bot)) == Alone(bot, c, Names, [Kick(c, bot)], log)
    ensures Lost(Alone(bot, c, Names, [], log), Kick(c, bot), c) == []
  {
    var none: seq<Line> := [];
    assert none + [Kick(c, bot)] == [Kick(c, bot)];
    var now := Handle(Alone(bot, c, Names, none, log), Kick(c, bot));
    assert now.queues == map[c := [Kick(c, bot)]];
  }

  lemma AloneRejoins(bot: Name, c: Name, queue: seq<Line>, log: seq<Line>)
    ensures Handle(Alone(bot, c, Names, queue, log), Join(bot, c)) ==
      Alone(bot, c, Names, [], log + [Join(bot, c)]).(count := 2)
    ensures Lost(Alone(bot, c, Names, queue, log), Join(bot, c), c) == queue
  {
    var now := Handle(Alone(bot, c, Names, queue, log), Join(bot, c));
    assert now.members == map[Slot(c, bot) := PLAIN];
    assert now.nicks == {bot};
    assert now.bursts == map[c := Names] && now.queues == map[c := []];
  }

  /** The bot joins, is kicked and joins again before the first burst is over: the burst is counted
      twice, and the KICK that waited is lost. */
  lemma RejoinDriftsAndLoses(bot: Name, c: Name)
    ensures var lines := [Join(bot, c)] + ([Kick(c, bot)] + [Join(bot, c)]);
      && Admits(Start(bot), lines)
      && var now := Run(Start(bot), lines);
      && now.count == 2 && |Unfinished(now.bursts)| == 1
      && LostOf(Start(bot), lines, c) == 1
      && About(lines, c) == lines && About(now.log, c) + Waiting(now, c) == [Join(bot, c), Join(bot, c)]
  {
    hide *;
    var j, k := Join(bot, c), Kick(c, bot);
    var one, two := Alone(bot, c, Names, [], [j]), Alone(bot, c, Names, [k], [j]);
    var three := Alone(bot, c, Names, [], [j] + [j]).(count := 2);
    AloneJoins(bot, c);
    AloneHoldsKick(bot, c, [j]);
    AloneRejoins(bot, c, [k], [j]);
    NothingWaits(bot, c);
    RejoinedState(bot, c, [j] + [j]) by { JoinAndKick(bot, c); }
    AboutAll([j] + ([k] + [j]), c, c) by { JoinAndKick(bot, c); }
    ThreeLines(Start(bot), j, one, k, two, j, three, c);
    assert [j] + [j] == [j, j];
  }

  lemma JoinAndKick(bot: Name, c: Name)
    ensures Holdable(Join(bot, c), c) && Holdable(Kick(c, bot), c)
  {
  }

  lemma NothingWaits(bot: Name, c: Name)
    ensures Lost(Start(bot), Join(bot, c), c) == []
  {
  }

  /** A KICK of the bot that waited is replayed, and the JOIN behind it is lost. */
  lemma KickCutsReplay(bot: Name, nick: Name, c: Name, log: seq<Line>)
    ensures Lost(Alone(bot, c, Who, [Kick(c, bot), Join(nick, c)], log), EndOfWho(c), c) == [Join(nick, c)]
  {
    var st := Alone(bot, c, Who, [Kick(c, bot), Join(nick, c)], log);
    assert Waiting(st, c)[1..] == [Join(nick, c)];
    assert Closes(Finish(st, c), Kick(c, bot));
  }

  lemma ThreeLines(st: State, l1: Line, one: State, l2: Line, two: State, l3: Line, three: State, c: Name)
    requires Consistent(st) && !l1.Nick? && !l2.Nick? && !l3.Nick?
    requires one == Handle(st, l1)
    requires Consistent(one) ==> two == Handle(one, l2)
    requires Consistent(two) ==> three == Handle(two, l3)
    ensures var lines := [l1] + ([l2] + [l3]);
      && Admits(st, lines) && Run(st, lines) == three
      && LostOf(st, lines, c) == |Lost(st, l1, c)| + |Lost(one, l2, c)| + |Lost(two, l3, c)|
  {
    hide Handle, Consistent, Lost;
    var none: seq<Line> := [];
    NotANick(st, l1);
    NotANick(one, l2);
    NotANick(two, l3);
    RunFirst(st, l1, [l2] + [l3], one, c);
    RunFirst(one, l2, [l3], two, c);
    RunFirst(two, l3, none, three, c);
    assert [l3] + none == [l3];
  }

  lemma RejoinedState(bot: Name, c: Name, log: seq<Line>)
    requires forall line :: line in log ==> Holdable(line, c)
    ensures var now := Alone(bot, c, Names, [], log).(count := 2);
      |Unfinished(now.bursts)| == 1 && About(now.log, c) + Waiting(now, c) == log
  {
    var now := Alone(bot, c, Names, [], log).(count := 2);
    assert Unfinished(now.bursts) == {c};
    assert Waiting(now, c) == [];
    AboutAll(log, c, c);
  }

  lemma NotANick(st: State, line: Line)
    requires !line.Nick?
    ensures Acceptable(st, line)
  {
  }

  lemma AloneQuits(bot: Name, nick: Name, c: Name, queue: seq<Line>, log: seq<Line>)
    requires bot != nick
    ensures Handle(Alone(bot, c, Names, queue, log), Quit(nick)) == Alone(bot, c, Names, queue, log + [Quit(nick)])
  {
  }

  lemma AloneRenamed(bot: Name, nick: Name, c: Name, queue: seq<Line>, log: seq<Line>)
    requires bot != nick
    ensures Handle(Alone(bot, c, Names, queue, log), Nick(bot, nick)) ==
      Alone(nick, c, Names, queue, log + [Nick(bot, nick)])
  {
    hide Renamed;
    MemberRenamed(bot, nick, c);
    assert {bot} - {bot} + {nick} == {nick};
  }

  lemma MemberRenamed(bot: Name, nick: Name, c: Name)
    requires bot != nick
    ensures Renamed(map[Slot(c, bot) := PLAIN], bot, nick) == map[Slot(c, nick) := PLAIN]
  {
  }

  lemma AloneAdvances(bot: Name, c: Name, burst: Burst, line: Line, queue: seq<Line>, log: seq<Line>)
    requires StageReply(line) && line.chan == c && (line.ChannelModeIs? ==> line.changes == [])
    ensures Handle(Alone(bot, c, burst, queue, log), line) == Alone(bot, c, NextStage(burst, line), queue, log + [line])
  {
    var now := Handle(Alone(bot, c, burst, queue, log), line);
    assert now.bursts == map[c := NextStage(burst, line)];
  }

  lemma AloneEnds(bot: Name, c: Name, log: seq<Line>)
    requires Consistent(Alone(bot, c, Who, [Join(bot, c)], log))
    ensures BackToNames(Alone(bot, c, Who, [Join(bot, c)], log), [EndOfWho(c)], c)
  {
    var st := Alone(bot, c, Who, [Join(bot, c)], log);
    EndOfBurst(st, c);
    var begin := Finish(st, c);
    assert Until(begin, [Join(bot, c)]) == [Join(bot, c)];
    assert [Join(bot, c)][1..] == [];
    EffectBursts(begin, Join(bot, c));
    assert Steps(begin, [Join(bot, c)]) == Step(begin, Join(bot, c));
    hide Effect;
    var now := Handle(st, EndOfWho(c));
    assert c in now.bursts && now.bursts[c] == Names;
    hide Handle, Linked, Settled;
    RunFirst(st, EndOfWho(c), [], now, c);
    assert [EndOfWho(c)] + [] == [EndOfWho(c)];
  }

  function RestartLines(bot: Name, nick: Name, c: Name): seq<Line> {
    [Join(bot, c)] + ([Join(nick, c)] + ([Quit(nick)] + ([Nick(bot, nick)] + AdvanceLines(c))))
  }

  function AdvanceLines(c: Name): seq<Line> {
    [EndOfNames(c)] + ([ChannelModeIs(c, [])] + ([EndOfBanList(c)] + [EndOfWho(c)]))
  }

  /** A run in which a burst begins anew: a JOIN waits, its user quits, the bot takes the nick, and the
      end of the burst replays the JOIN as the bot's own. */
  lemma WaitingJoinRestarts(bot: Name, nick: Name, c: Name)
    requires bot != nick
    ensures BackToNames(Start(bot), RestartLines(bot, nick, c), c)
  {
    var q, log := [Join(nick, c)], [Join(bot, c)];
    var st, held := Alone(bot, c, Names, [], log), Alone(bot, c, Names, q, log);
    AloneJoins(bot, c);
    AloneDefers(bot, nick, c, log);
    AloneQuits(bot, nick, c, q, log);
    var log' := log + [Quit(nick)];
    var now := Alone(bot, c, Names, q, log');
    AloneRenamed(bot, nick, c, q, log');
    var last := Alone(nick, c, Names, q, log' + [Nick(bot, nick)]);
    hide Handle, Consistent, BackToNames, Alone, AdvanceLines;
    RunFirst(Start(bot), Join(bot, c), [Join(nick, c)] + ([Quit(nick)] + ([Nick(bot, nick)] + AdvanceLines(c))), st, c);
    RunFirst(st, Join(nick, c), [Quit(nick)] + ([Nick(bot, nick)] + AdvanceLines(c)), held, c);
    RunFirst(held, Quit(nick), [Nick(bot, nick)] + AdvanceLines(c), now, c);
    RenameAccepted(bot, nick, c, q, log');
    RunFirst(now, Nick(bot, nick), AdvanceLines(c), last, c);
    WaitingJoinEnds(nick, c, log' + [Nick(bot, nick)]);
  }

  lemma RenameAccepted(bot: Name, nick: Name, c: Name, queue: seq<Line>, log: seq<Line>)
    requires bot != nick
    ensures Acceptable(Alone(bot, c, Names, queue, log), Nick(bot, nick))
  {
  }

  lemma WaitingJoinEnds(bot: Name, c: Name, log: seq<Line>)
    requires Consistent(Alone(bot, c, Names, [Join(bot, c)], log))
    ensures BackToNames(Alone(bot, c, Names, [Join(bot, c)], log), AdvanceLines(c), c)
  {
    var q := [Join(bot, c)];
    var l4, l5, l6 := EndOfNames(c), ChannelModeIs(c, []), EndOfBanList(c);
    AloneAdvances(bot, c, Names, l4, q, log);
    AloneAdvances(bot, c, Modes, l5, q, log + [l4]);
    AloneAdvances(bot, c, Bans, l6, q, log + [l4] + [l5]);
    hide Handle, Consistent, BackToNames, Alone;
    RunFirst(Alone(bot, c, Names, q, log), l4, [l5] + ([l6] + [EndOfWho(c)]), Alone(bot, c, Modes, q, log + [l4]), c);
    RunFirst(Alone(bot, c, Modes, q, log + [l4]), l5, [l6] + [EndOfWho(c)],
             Alone(bot, c, Bans, q, log + [l4] + [l5]), c);
    RunFirst(Alone(bot, c, Bans, q, log + [l4] + [l5]), l6, [EndOfWho(c)],
             Alone(bot, c, Who, q, log + [l4] + [l5] + [l6]), c);
    AloneEnds(bot, c, log + [l4] + [l5] + [l6]);
  }
}
