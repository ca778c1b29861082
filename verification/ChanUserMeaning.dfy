/** What every line does to memberships and users, slot by slot. */
module ChanUserMeaning {
  import opened ChanUserModel
  import opened ChanUserRuns

  // ----- what is said about a slot and a user -----

  /** At `k` there is what was there before. */
  predicate SameAt(st: State, now: State, k: Slot) {
    if k in st.members then k in now.members && now.members[k] == st.members[k] else k !in now.members
  }

  predicate HasFlags(now: State, k: Slot, flags: Flags) {
    k in now.members && now.members[k] == flags
  }

  predicate OnOther(st: State, n: Name, c: Name) {
    exists k :: k in st.members && k.nick == n && k.chan != c
  }

  ghost predicate SameMembers(st: State, now: State) {
    forall k :: SameAt(st, now, k)
  }

  ghost predicate SameNicks(st: State, now: State) {
    forall m :: m in now.nicks <==> m in st.nicks
  }

  /** `n` comes to `c`, and nobody else moves. */
  ghost predicate Comes(st: State, now: State, c: Name, n: Name) {
    && (forall k: Slot :: if k == Slot(c, n) then HasFlags(now, k, PLAIN) else SameAt(st, now, k))
    && (forall m :: m in now.nicks <==> m == n || m in st.nicks)
  }

  /** `n` leaves `c`, and is only tracked on if it is on another channel; nobody else moves. */
  ghost predicate Goes(st: State, now: State, c: Name, n: Name) {
    && (forall k: Slot :: if k == Slot(c, n) then k !in now.members else SameAt(st, now, k))
    && (forall m :: m in now.nicks <==> m in st.nicks && (m != n || OnOther(st, n, c)))
  }

  /** A user that was on `c`, and on no other channel. */
  predicate OnlyThere(st: State, m: Name, c: Name) {
    Slot(c, m) in st.members && !OnOther(st, m, c)
  }

  /** The bot begins `c` anew: nobody else is on it. */
  ghost predicate Begins(st: State, now: State, c: Name) {
    && (forall k: Slot :: if k == Slot(c, st.bot) then HasFlags(now, k, PLAIN)
          else if k.chan == c then k !in now.members else SameAt(st, now, k))
    && (forall m :: m in now.nicks <==> m == st.bot || (m in st.nicks && !OnlyThere(st, m, c)))
  }

  /** All leave `c`; `keepBot` says whether the bot is tracked on in any case. */
  ghost predicate Ends(st: State, now: State, c: Name, keepBot: bool) {
    && (forall k: Slot :: if k.chan == c then k !in now.members else SameAt(st, now, k))
    && (forall m :: m in now.nicks <==> m in st.nicks && ((keepBot && m == st.bot) || !OnlyThere(st, m, c)))
  }

  /** At `k` there is what `n` had on that channel, or what was there before. */
  predicate MovedAt(st: State, now: State, n: Name, to: Name, k: Slot) {
    if k.nick == to then
      if Slot(k.chan, n) in st.members then HasFlags(now, k, st.members[Slot(k.chan, n)]) else k !in now.members
    else if k.nick == n then k !in now.members
    else SameAt(st, now, k)
  }

  /** What was filed under `n` is filed under `to`. */
  ghost predicate Moves(st: State, now: State, n: Name, to: Name) {
    && (forall k :: MovedAt(st, now, n, to, k))
    && (forall m :: m in now.nicks <==> m == to || (m != n && m in st.nicks))
  }

  ghost predicate Vanishes(st: State, now: State, n: Name) {
    && (forall k: Slot :: if k.nick == n then k !in now.members else SameAt(st, now, k))
    && (forall m :: m in now.nicks <==> m in st.nicks && m != n)
  }

  /** The `i`-th change is the last one to the operator flag, or else the voice flag, of `n`. */
  predicate LastChange(changes: seq<ModeChange>, n: Name, op: bool, i: nat) {
    && i < |changes| && changes[i].nick == n && changes[i].op == op
    && forall j :: i < j < |changes| ==> changes[j].nick != n || changes[j].op != op
  }

  /** A flag is what the last change to it says, or what it was. */
  ghost predicate FlagIs(changes: seq<ModeChange>, n: Name, op: bool, before: bool, after: bool) {
    && (forall i: nat :: LastChange(changes, n, op, i) ==> after == changes[i].add)
    && ((forall i: nat :: !LastChange(changes, n, op, i)) ==> after == before)
  }

  /** At `k` there is what was there before, with the flags changed if it is on `c`. */
  ghost predicate ChangedAt(st: State, now: State, c: Name, changes: seq<ModeChange>, k: Slot) {
    if k !in st.members || k.chan != c then SameAt(st, now, k)
    else
      && k in now.members
      && FlagIs(changes, k.nick, true, st.members[k].op, now.members[k].op)
      && FlagIs(changes, k.nick, false, st.members[k].voice, now.members[k].voice)
  }

  ghost predicate ModesChange(st: State, now: State, c: Name, changes: seq<ModeChange>) {
    SameNicks(st, now) && forall k :: ChangedAt(st, now, c, changes, k)
  }

  predicate LastNamed(names: seq<(Name, Flags)>, n: Name, i: nat) {
    i < |names| && names[i].0 == n && forall j :: i < j < |names| ==> names[j].0 != n
  }

  /** At `k` there are the flags given last to its user, if it is named, or what was there before. */
  ghost predicate NamedAt(st: State, now: State, c: Name, names: seq<(Name, Flags)>, k: Slot) {
    && (forall i: nat :: k.chan == c && LastNamed(names, k.nick, i) ==> HasFlags(now, k, names[i].1))
    && (k.chan != c || (forall i: nat :: !LastNamed(names, k.nick, i)) ==> SameAt(st, now, k))
  }

  /** Those named are on `c`, and nobody else moves. */
  ghost predicate AllCome(st: State, now: State, c: Name, names: seq<(Name, Flags)>) {
    && (forall k :: NamedAt(st, now, c, names, k))
    && (forall m :: m in now.nicks <==> m in st.nicks || exists i: nat :: LastNamed(names, m, i))
  }

  /** What a line means that is not held back. */
  ghost predicate Meant(st: State, line: Line, now: State) {
    && (if line.Nick? && line.nick == st.bot && st.bot in st.nicks then now.bot == line.to else now.bot == st.bot)
    && match line
       case Join(n, c) =>
         if n == st.bot then Begins(st, now, c)
         else if c in st.bursts then Comes(st, now, c, n)
         else SameMembers(st, now) && SameNicks(st, now)
       case Part(n, c) =>
         if c !in st.bursts || n !in st.nicks then SameMembers(st, now) && SameNicks(st, now)
         else if n == st.bot then Ends(st, now, c, true)
         else Goes(st, now, c, n)
       case Kick(c, n) =>
         if c !in st.bursts || n !in st.nicks then SameMembers(st, now) && SameNicks(st, now)
         else if n == st.bot then Ends(st, now, c, false)
         else Goes(st, now, c, n)
       case Nick(n, to) => if n in st.nicks then Moves(st, now, n, to) else SameMembers(st, now) && SameNicks(st, now)
       case Quit(n) => Vanishes(st, now, n)
       case Mode(c, changes) => ModesChange(st, now, c, changes)
       case ChannelModeIs(c, changes) => ModesChange(st, now, c, changes)
       case NameReply(c, names) =>
         if c in st.bursts then AllCome(st, now, c, names) else SameMembers(st, now) && SameNicks(st, now)
       case _ => SameMembers(st, now) && SameNicks(st, now)
  }

  // ----- the effects mean that -----

  lemma OtherIff(st: State, n: Name, c: Name)
    ensures OnOther(st, n, c) <==> Elsewhere(st.members, n, c)
  {
  }

  lemma EnterComes(st: State, c: Name, n: Name)
    ensures Comes(st, Enter(st, c, n, PLAIN), c, n)
  {
  }

  lemma DropChannelEnds(st: State, c: Name)
    ensures Ends(st, DropChannel(st, c), c, false)
  {
    forall m ensures OnlyThere(st, m, c) <==> Slot(c, m) in st.members && !Elsewhere(st.members, m, c) {
      OtherIff(st, m, c);
    }
    hide OnOther, Elsewhere;
  }

  lemma AddChannelBegins(st: State, c: Name)
    requires Linked(st)
    ensures Begins(st, Enter(AddChannel(st, c), c, st.bot, PLAIN), c)
  {
    if c in st.bursts {
      DropChannelEnds(st, c);
    }
    hide DropChannel, OnOther;
  }

  lemma LeaveGoes(st: State, c: Name, n: Name)
    requires Linked(st) && n in st.nicks && n != st.bot
    ensures Goes(st, Leave(st, c, n, true), c, n)
  {
    if Slot(c, n) in st.members {
      LeftSomewhere(st.members, c, n);
    } else {
      var k :| k in st.members && k.nick == n;
      assert k.chan == c ==> k == Slot(c, n);
    }
    OtherIff(st, n, c);
    hide OnOther, Somewhere, Elsewhere;
  }

  lemma LeftSomewhere(members: map<Slot, Flags>, c: Name, n: Name)
    ensures Somewhere(members - {Slot(c, n)}, n) <==> Elsewhere(members, n, c)
  {
    if Elsewhere(members, n, c) {
      var k :| k in members && k.nick == n && k.chan != c;
      assert k in members - {Slot(c, n)};
    }
  }

  lemma PartEnds(st: State, c: Name)
    requires st.bot in st.nicks
    ensures Ends(st, DropChannel(Leave(st, c, st.bot, false), c), c, true)
  {
    var left := Leave(st, c, st.bot, false);
    DropChannelEnds(left, c);
    hide DropChannel;
    forall m | m != st.bot ensures OnlyThere(left, m, c) <==> OnlyThere(st, m, c) {
      if OnOther(st, m, c) {
        var k :| k in st.members && k.nick == m && k.chan != c;
        assert k in left.members;
      }
    }
    assert !OnlyThere(left, st.bot, c);
    hide OnlyThere;
  }

  lemma RenamedAt(st: State, now: State, n: Name, to: Name, k: Slot)
    requires to == n || forall k :: k in st.members ==> k.nick != to
    requires now.members == Renamed(st.members, n, to)
    ensures MovedAt(st, now, n, to, k)
  {
    RenamedKeys(st.members, n, to, k);
    assert k.nick == to ==> k == Slot(k.chan, to);
  }

  lemma RenameMoves(st: State, n: Name, to: Name)
    requires Linked(st) && n in st.nicks && (to == n || to !in st.nicks)
    ensures Moves(st, Rename(st.(bot := if n == st.bot then to else st.bot), n, to), n, to)
  {
    var now := Rename(st.(bot := if n == st.bot then to else st.bot), n, to);
    assert to == n || forall k :: k in st.members ==> k.nick != to;
    hide Renamed, Linked, MovedAt;
    forall k ensures MovedAt(st, now, n, to, k) {
      RenamedAt(st, now, n, to, k);
    }
  }

  lemma DropUserVanishes(st: State, n: Name)
    requires Linked(st)
    ensures Vanishes(st, if n in st.nicks then DropUser(st, n) else st, n)
  {
  }

  lemma {:induction false} SetModesChange(st: State, c: Name, changes: seq<ModeChange>)
    ensures ModesChange(st, SetModes(st, c, changes), c, changes)
  {
    if changes != [] {
      var init, last := changes[..|changes| - 1], changes[|changes| - 1];
      SetModesChange(st, c, init);
      SetModeChange(st, SetModes(st, c, init), c, init, last);
      assert init + [last] == changes;
      hide ModesChange;
    }
  }

  lemma SetModeChange(st: State, mid: State, c: Name, init: seq<ModeChange>, last: ModeChange)
    requires ModesChange(st, mid, c, init)
    ensures ModesChange(st, SetMode(mid, c, last), c, init + [last])
  {
    hide ChangedAt;
    forall k ensures ChangedAt(st, SetMode(mid, c, last), c, init + [last], k) {
      SetModeAt(st, mid, c, init, last, k);
    }
  }

  lemma SetModeAt(st: State, mid: State, c: Name, init: seq<ModeChange>, last: ModeChange, k: Slot)
    requires ChangedAt(st, mid, c, init, k)
    ensures ChangedAt(st, SetMode(mid, c, last), c, init + [last], k)
  {
    hide FlagIs;
    if k in st.members && k.chan == c {
      FlagNext(init, last, k.nick, true, st.members[k].op, mid.members[k].op);
      FlagNext(init, last, k.nick, false, st.members[k].voice, mid.members[k].voice);
    }
  }

  lemma FlagNext(init: seq<ModeChange>, last: ModeChange, n: Name, op: bool, was: bool, mid: bool)
    requires FlagIs(init, n, op, was, mid)
    ensures FlagIs(init + [last], n, op, was, if last.nick == n && last.op == op then last.add else mid)
  {
    var changes := init + [last];
    if last.nick == n && last.op == op {
      assert LastChange(changes, n, op, |init|);
      assert forall i: nat :: LastChange(changes, n, op, i) ==> i == |init|;
    } else {
      forall i: nat ensures LastChange(changes, n, op, i) <==> LastChange(init, n, op, i) {
        if LastChange(changes, n, op, i) {
          assert i < |init|;
          assert forall j :: i < j < |init| ==> init[j] == changes[j];
        }
      }
      hide LastChange;
      assert forall i: nat :: LastChange(init, n, op, i) ==> changes[i] == init[i];
    }
  }

  lemma {:induction false} EnterAllComes(st: State, c: Name, names: seq<(Name, Flags)>)
    ensures AllCome(st, EnterAll(st, c, names), c, names)
  {
    if names != [] {
      var init, last := names[..|names| - 1], names[|names| - 1];
      EnterAllComes(st, c, init);
      EnterNext(st, EnterAll(st, c, init), c, init, last);
      assert init + [last] == names;
      hide AllCome;
    }
  }

  lemma LastNamedNext(init: seq<(Name, Flags)>, last: (Name, Flags), n: Name, i: nat)
    ensures LastNamed(init + [last], n, i) <==> if last.0 == n then i == |init| else LastNamed(init, n, i)
  {
    var names := init + [last];
    assert names[|init|] == last && forall j :: 0 <= j < |init| ==> names[j] == init[j];
  }

  lemma EnterNext(st: State, mid: State, c: Name, init: seq<(Name, Flags)>, last: (Name, Flags))
    requires AllCome(st, mid, c, init)
    ensures AllCome(st, Enter(mid, c, last.0, last.1), c, init + [last])
  {
    var now, names := Enter(mid, c, last.0, last.1), init + [last];
    hide NamedAt, LastNamed;
    forall k ensures NamedAt(st, now, c, names, k) {
      EnterAt(st, mid, c, init, last, k);
    }
    forall m ensures m in now.nicks <==> m in st.nicks || exists i: nat :: LastNamed(names, m, i) {
      NamedNext(init, last, m);
    }
  }

  lemma NamedNext(init: seq<(Name, Flags)>, last: (Name, Flags), n: Name)
    ensures (exists i: nat :: LastNamed(init + [last], n, i)) <==> n == last.0 || exists i: nat :: LastNamed(init, n, i)
  {
    forall i: nat
      ensures LastNamed(init + [last], n, i) <==> if last.0 == n then i == |init| else LastNamed(init, n, i)
    {
      LastNamedNext(init, last, n, i);
    }
    hide LastNamed;
    if n == last.0 {
      assert LastNamed(init + [last], n, |init|);
    }
  }

  lemma EnterAt(st: State, mid: State, c: Name, init: seq<(Name, Flags)>, last: (Name, Flags), k: Slot)
    requires NamedAt(st, mid, c, init, k)
    ensures NamedAt(st, Enter(mid, c, last.0, last.1), c, init + [last], k)
  {
    var names := init + [last];
    forall i: nat
      ensures LastNamed(names, k.nick, i) <==> if last.0 == k.nick then i == |init| else LastNamed(init, k.nick, i)
      ensures LastNamed(names, k.nick, i) ==> names[i] == if last.0 == k.nick then last else init[i]
    {
      LastNamedNext(init, last, k.nick, i);
    }
    hide LastNamed;
    if k.nick == last.0 {
      assert LastNamed(names, k.nick, |init|);
      assert k.chan == c ==> k == Slot(c, last.0);
    }
  }

  lemma NoModesChange(st: State, c: Name, changes: seq<ModeChange>)
    requires Linked(st) && c !in st.bursts
    ensures ModesChange(st, st, c, changes)
  {
    hide FlagIs;
  }

  lemma ModesSame(st: State, mid: State, now: State, c: Name, changes: seq<ModeChange>)
    requires ModesChange(st, mid, c, changes) && now.members == mid.members && now.nicks == mid.nicks
    ensures ModesChange(st, now, c, changes)
  {
    hide FlagIs;
    assert forall k :: ChangedAt(st, mid, c, changes, k) ==> ChangedAt(st, now, c, changes, k);
  }

  lemma ModesMean(st: State, line: Line)
    requires Linked(st) && (line.Mode? || line.ChannelModeIs?)
    ensures ModesChange(st, Effect(st, line), line.chan, line.changes) && Effect(st, line).bot == st.bot
  {
    hide ModesChange, Linked;
    SetModesShape(st, line.chan, line.changes);
    if line.chan in st.bursts {
      SetModesChange(st, line.chan, line.changes);
      ModesSame(st, SetModes(st, line.chan, line.changes), Effect(st, line), line.chan, line.changes);
    } else {
      NoModesChange(st, line.chan, line.changes);
    }
  }

  lemma LeavingMeans(st: State, line: Line)
    requires Linked(st) && (line.Part? || line.Kick?)
    ensures Meant(st, line, Effect(st, line))
  {
    hide Linked, Ends, Goes, SameMembers, SameNicks, DropChannel, Leave;
    NothingChanges(st);
    var n := if line.Part? then line.nick else line.victim;
    if n in st.nicks {
      if n != st.bot {
        LeaveGoes(st, line.chan, n);
      } else if line.Part? {
        PartEnds(st, line.chan);
      } else {
        DropChannelEnds(st, line.chan);
      }
    }
    BotStays(st, line);
  }

  lemma BotStays(st: State, line: Line)
    requires line.Part? || line.Kick?
    ensures Effect(st, line).bot == st.bot
  {
  }

  lemma NothingChanges(st: State)
    ensures SameMembers(st, st) && SameNicks(st, st)
  {
  }

  lemma NamesMean(st: State, c: Name, names: seq<(Name, Flags)>)
    ensures Meant(st, NameReply(c, names), Effect(st, NameReply(c, names)))
  {
    hide AllCome, SameMembers, SameNicks;
    NothingChanges(st);
    EnterAllShape(st, c, names);
    EnterAllComes(st, c, names);
  }

  lemma JoinMeans(st: State, n: Name, c: Name)
    requires Linked(st)
    ensures Meant(st, Join(n, c), Effect(st, Join(n, c)))
  {
    hide Begins, Comes, SameMembers, SameNicks, Linked;
    NothingChanges(st);
    if n == st.bot {
      AddChannelBegins(st, c);
    } else {
      EnterComes(st, c, n);
    }
  }

  lemma NickMeans(st: State, n: Name, to: Name)
    requires Linked(st) && Acceptable(st, Nick(n, to))
    ensures Meant(st, Nick(n, to), Effect(st, Nick(n, to)))
  {
    hide Moves, SameMembers, SameNicks, Linked;
    NothingChanges(st);
    if n in st.nicks {
      RenameMoves(st, n, to);
    }
  }

  /** Every line does what it means. */
  lemma EffectMeans(st: State, line: Line)
    requires Linked(st) && Acceptable(st, line)
    ensures Meant(st, line, Effect(st, line))
  {
    if line.Join? {
      JoinMeans(st, line.nick, line.chan);
    } else if line.Part? || line.Kick? {
      LeavingMeans(st, line);
    } else if line.Nick? {
      NickMeans(st, line.nick, line.to);
    } else if line.NameReply? {
      NamesMean(st, line.chan, line.names);
    } else if line.Mode? || line.ChannelModeIs? {
      hide ModesChange, Effect;
      ModesMean(st, line);
    } else if line.Quit? {
      DropUserVanishes(st, line.nick);
      hide Vanishes, Linked;
    } else {
      hide Linked;
    }
  }

  // ----- whole lines -----

  /** A line that its channel's burst holds back waits behind the others, and nothing else changes. */
  ghost predicate Waits(st: State, line: Line, c: Name, now: State) {
    && Holdable(line, c) && c in st.bursts && st.bursts[c] != Finished && !OwnJoin(st, line)
    && c in st.queues && now == st.(queues := st.queues[c := st.queues[c] + [line]])
  }

  /** A line that is not held back goes through, and does what it means. */
  ghost predicate GoesThrough(st: State, line: Line, now: State) {
    && (forall c :: Holdable(line, c) && c in st.bursts ==> st.bursts[c] == Finished || OwnJoin(st, line))
    && Meant(st, line, now) && EffectOnBursts(st, line, now.(log := st.log)) && now.log == st.log + [line]
  }

  lemma StepMeans(st: State, line: Line)
    requires Linked(st) && Sorted(st) && Acceptable(st, line)
    ensures (exists c :: Waits(st, line, c, Step(st, line))) || GoesThrough(st, line, Step(st, line))
  {
    if Deferred(st, line) {
      assert Waits(st, line, line.chan, Step(st, line));
    } else {
      EffectMeans(st, line);
      EffectBursts(st, line);
      MeantSame(st, line, Effect(st, line), Step(st, line));
      hide Effect, Meant;
      assert Step(st, line).(log := st.log) == Effect(st, line);
    }
  }

  lemma MeantSame(st: State, line: Line, mid: State, now: State)
    requires Meant(st, line, mid) && now.members == mid.members && now.nicks == mid.nicks && now.bot == mid.bot
    ensures Meant(st, line, now)
  {
    assert forall k: Slot :: SameAt(st, mid, k) <==> SameAt(st, now, k);
    assert forall k: Slot, f :: HasFlags(mid, k, f) <==> HasFlags(now, k, f);
    assert line.Nick? ==> forall k :: MovedAt(st, mid, line.nick, line.to, k) ==> MovedAt(st, now, line.nick, line.to, k);
    assert line.Mode? || line.ChannelModeIs? ==>
      forall k :: ChangedAt(st, mid, line.chan, line.changes, k) ==> ChangedAt(st, now, line.chan, line.changes, k);
    assert line.NameReply? ==>
      forall k :: NamedAt(st, mid, line.chan, line.names, k) ==> NamedAt(st, now, line.chan, line.names, k);
    hide SameAt, HasFlags, FlagIs, OnOther, OnlyThere, LastNamed, NamedAt, ChangedAt, MovedAt;
  }

  /** All lines go through, one after the other. */
  ghost predicate AllGoThrough(st: State, lines: seq<Line>)
    decreases |lines|
  {
    lines == [] || (GoesThrough(st, lines[0], Step(st, lines[0])) && AllGoThrough(Step(st, lines[0]), lines[1..]))
  }

  lemma {:induction false} ReplayGoesThrough(st: State, c: Name, queue: seq<Line>)
    requires Linked(st) && Sorted(st) && c in st.bursts && st.bursts[c] == Finished
    requires forall line :: line in queue ==> Holdable(line, c)
    ensures AllGoThrough(st, Until(st, queue))
    decreases |queue|
  {
    hide Linked, Step, GoesThrough, Closes, Holdable;
    if queue != [] {
      var line, rest := queue[0], queue[1..];
      assert line in queue;
      ReplayedStep(st, line, c);
      if Closes(st, line) {
        assert [line][1..] == [];
      } else {
        var now := Step(st, line);
        StepCloses(st, line, c);
        StepLinked(st, line);
        StepSorted(st, line);
        UntilSame(st, now, c, rest);
        ReplayGoesThrough(now, c, rest);
        assert ([line] + Until(st, rest))[1..] == Until(now, rest);
      }
    }
  }

  lemma ReplayedStep(st: State, line: Line, c: Name)
    requires Linked(st) && Sorted(st) && c in st.bursts && st.bursts[c] == Finished && Holdable(line, c)
    ensures Acceptable(st, line) && GoesThrough(st, line, Step(st, line))
  {
    StepMeans(st, line);
    hide Linked, GoesThrough, Step;
  }

  /** Every line waits, or goes through and does what it means, or ends a burst, upon which the waiting
      lines go through one after the other. */
  lemma HandleMeans(st: State, line: Line)
    requires Consistent(st) && Acceptable(st, line)
    ensures !EndsBurst(st, line) ==>
      (exists c :: Waits(st, line, c, Handle(st, line))) || GoesThrough(st, line, Handle(st, line))
    ensures EndsBurst(st, line) ==>
      var begin, c := Finish(st, line.chan), line.chan; var lines := Until(begin, st.queues[c]);
      && AllGoThrough(begin, lines) && Handle(st, line) == Emptied(Steps(begin, lines), c)
  {
    if EndsBurst(st, line) {
      FinishKeeps(st, line.chan);
      EndOfBurst(st, line.chan);
      hide Linked, SettledBut;
      ReplayGoesThrough(Finish(st, line.chan), line.chan, st.queues[line.chan]);
    } else {
      StepMeans(st, line);
    }
  }
}
