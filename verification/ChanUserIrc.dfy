/** The line handlers of chanuser_irc.c, changing the tracked channels and users in place. */
module ChanUserIrc {
  import opened ChanUserMeaning
  import opened ChanUserModel
  import opened ChanUser
  import opened ChanUserRuns

  lemma PlainLeave(rel: Relation, c: Name, n: Name)
    ensures Plain(rel - {Slot(c, n)}) == Plain(rel) - {Slot(c, n)}
    ensures Elsewhere(rel, n, c) <==> Somewhere(Plain(rel) - {Slot(c, n)}, n)
  {
    forall k | k in rel && k.nick == n && k.chan != c ensures k in Plain(rel) - {Slot(c, n)} {
    }
  }

  lemma PlainWithoutUser(rel: Relation, n: Name)
    ensures Plain(WithoutUser(rel, n)) == WithoutUser(Plain(rel), n)
  {
  }

  lemma PlainWithoutChannel(rel: Relation, nicks: set<Name>, c: Name)
    ensures Plain(WithoutChannel(rel, c)) == WithoutChannel(Plain(rel), c)
    ensures Staying(nicks, rel, c) == Staying(nicks, Plain(rel), c)
  {
    forall n ensures Elsewhere(rel, n, c) <==> Elsewhere(Plain(rel), n, c) {
      assert forall k :: k in rel <==> k in Plain(rel);
    }
  }

  lemma PlainRenamed(rel: Relation, n: Name, to: Name)
    requires n == to || !Somewhere(rel, to)
    ensures Plain(Renamed(rel, n, to)) == Renamed(Plain(rel), n, to)
  {
    hide Renamed;
    assert Somewhere(Plain(rel), to) ==> Somewhere(rel, to);
    forall k ensures k in Renamed(rel, n, to) <==> k in Renamed(Plain(rel), n, to)
      ensures k in Renamed(rel, n, to) ==> Renamed(rel, n, to)[k].flags == Renamed(Plain(rel), n, to)[k]
    {
      InRenamed(rel, n, to, k);
      InRenamed(Plain(rel), n, to, k);
    }
  }

  lemma PlainKeys(rel: Relation)
    ensures Plain(rel).Keys == rel.Keys
  {
  }

  lemma AddChannelShape(st: State, c: Name)
    ensures AddChannel(st, c) == State(
      st.bot,
      if c in st.bursts then Staying(st.nicks, st.members, c) else st.nicks,
      if c in st.bursts then WithoutChannel(st.members, c) else st.members,
      st.bursts[c := Names], st.queues[c := []], st.count + 1, st.log)
  {
    hide Staying, WithoutChannel;
    assert (st.bursts - {c})[c := Names] == st.bursts[c := Names];
    assert (st.queues - {c})[c := []] == st.queues[c := []];
  }

  class Session {
    const tracker: Tracker
    var nickname: Name
    ghost var st: State

    /** `st` is what the objects say; the log is known to `st` only. */
    ghost predicate Valid()
      reads this, tracker, tracker.chans, tracker.people, tracker.links
    {
      tracker.Valid() &&
      st == State(nickname, tracker.users.Keys, Plain(tracker.rel), tracker.bursts, tracker.queues,
                  tracker.burstCount, st.log)
    }

    twostate predicate Grown()
      reads this, tracker
    {
      && fresh(tracker.chans - old(tracker.chans)) && fresh(tracker.people - old(tracker.people))
      && fresh(tracker.links - old(tracker.links))
    }

    constructor (nickname: Name)
      ensures Valid() && fresh(tracker) && st == Start(nickname)
    {
      this.nickname, st := nickname, Start(nickname);
      tracker := new Tracker();
    }

    // ----- single changes -----

    lemma Channels()
      requires Valid()
      ensures st.queues.Keys == st.bursts.Keys && forall c :: c in tracker.channels <==> c in st.bursts
    {
      tracker.StageKeys();
    }

    lemma ChannelAt(chan: Name)
      requires Valid() && chan in st.bursts
      ensures chan in tracker.channels && tracker.HasChannel(tracker.channels[chan])
      ensures tracker.channels[chan].name == chan && tracker.channels[chan] in tracker.chans
    {
      Channels();
    }

    lemma UserAt(nick: Name)
      requires Valid() && nick in st.nicks
      ensures nick in tracker.users && tracker.HasUser(tracker.users[nick])
      ensures tracker.users[nick].nick == nick && tracker.users[nick] in tracker.people
    {
    }

    method FindChannel(chan: Name) returns (found: bool)
      requires Valid()
      ensures found <==> chan in st.bursts
    {
      Channels();
      found := chan in tracker.channels;
    }

    method FindUser(nick: Name) returns (found: bool)
      requires Valid()
      ensures found <==> nick in st.nicks
    {
      found := nick in tracker.users;
    }

    method IsMe(nick: Name) returns (me: bool)
      requires Valid()
      ensures me <==> nick == st.bot
    {
      me := nick == nickname;
    }

    method Leave(chan: Name, nick: Name, checkDead: bool)
      requires Valid() && chan in st.bursts && nick in st.nicks
      modifies this, tracker, tracker.chans, tracker.people, tracker.links
      ensures Valid() && Grown() && st == ChanUserModel.Leave(old(st), chan, nick, checkDead)
    {
      hide Tracker.Valid, Somewhere, Elsewhere, Plain, Tracker.HasChannel, Tracker.HasUser;
      ChannelAt(chan);
      UserAt(nick);
      PlainLeave(tracker.rel, chan, nick);
      PlainKeys(tracker.rel);
      st := ChanUserModel.Leave(st, chan, nick, checkDead);
      var dead := tracker.ChannelUserDel(tracker.channels[chan], tracker.users[nick], checkDead);
    }

    method DropUser(nick: Name)
      requires Valid() && nick in st.nicks
      modifies this, tracker, tracker.chans, tracker.people, tracker.links
      ensures Valid() && Grown() && st == ChanUserModel.DropUser(old(st), nick)
    {
      hide Tracker.Valid, WithoutUser, Plain;
      tracker.UserTracked(nick);
      PlainWithoutUser(tracker.rel, nick);
      st := ChanUserModel.DropUser(st, nick);
      tracker.UserDel(tracker.users[nick]);
    }

    method DropChannel(chan: Name)
      requires Valid() && chan in st.bursts
      modifies this, tracker, tracker.chans, tracker.people, tracker.links
      ensures Valid() && Grown() && st == ChanUserModel.DropChannel(old(st), chan)
    {
      hide Tracker.Valid, WithoutChannel, Staying, Plain;
      Channels();
      tracker.ChannelTracked(chan);
      PlainWithoutChannel(tracker.rel, tracker.users.Keys, chan);
      st := ChanUserModel.DropChannel(st, chan);
      tracker.ChannelDel(tracker.channels[chan]);
    }

    method AddChannel(chan: Name)
      requires Valid()
      modifies this, tracker, tracker.chans, tracker.people, tracker.links
      ensures Valid() && Grown() && st == ChanUserModel.AddChannel(old(st), chan)
    {
      hide Tracker.Valid, WithoutChannel, Staying, Plain, ChanUserModel.AddChannel;
      Channels();
      PlainWithoutChannel(tracker.rel, tracker.users.Keys, chan);
      AddChannelShape(st, chan);
      st := ChanUserModel.AddChannel(st, chan);
      var channel := tracker.ChannelAdd(chan, true);
    }

    /** Finds the user or adds it. */
    method NeedUser(nick: Name)
      requires Valid()
      modifies this, tracker, tracker.chans, tracker.people, tracker.links
      ensures Valid() && Grown() && st == old(st).(nicks := old(st).nicks + {nick})
    {
      hide Tracker.Valid, WithoutUser, Plain;
      st := st.(nicks := st.nicks + {nick});
      if nick !in tracker.users {
        var user := tracker.UserAddNick(nick);
      }
    }

    method PutUser(chan: Name, nick: Name, flags: Flags)
      requires Valid() && chan in st.bursts && nick in st.nicks
      modifies this, tracker, tracker.chans, tracker.people, tracker.links
      ensures Valid() && Grown() && st == old(st).(members := old(st).members[Slot(chan, nick) := flags])
    {
      hide Tracker.Valid, Plain, Tracker.HasChannel, Tracker.HasUser;
      ChannelAt(chan);
      UserAt(nick);
      tracker.ChannelUserAdd(tracker.channels[chan], tracker.users[nick], flags);
      st := st.(members := Plain(tracker.rel));
    }

    method EnterUser(chan: Name, nick: Name, flags: Flags)
      requires Valid() && chan in st.bursts
      modifies this, tracker, tracker.chans, tracker.people, tracker.links
      ensures Valid() && Grown() && st == Enter(old(st), chan, nick, flags)
    {
      hide Valid;
      NeedUser(nick);
      PutUser(chan, nick, flags);
    }

    method Rename(nick: Name, to: Name)
      requires Valid() && nick in st.nicks && (to == nick || to !in st.nicks)
      modifies this, tracker, tracker.chans, tracker.people, tracker.links
      ensures Valid() && Grown() && st == ChanUserModel.Rename(old(st), nick, to)
    {
      hide Tracker.Valid, Renamed, Plain, Somewhere;
      tracker.UserTracked(nick);
      if to !in tracker.users {
        tracker.Unknown(to);
      }
      PlainRenamed(tracker.rel, nick, to);
      st := ChanUserModel.Rename(st, nick, to);
      tracker.UserRename(tracker.users[nick], to);
    }

    method SetNickname(nick: Name)
      requires Valid()
      modifies this
      ensures Valid() && st == old(st).(bot := nick)
    {
      hide Tracker.Valid, Plain;
      nickname := nick;
      st := st.(bot := nick);
    }

    method SetStage(chan: Name, burst: Burst, lines: seq<Line>)
      requires Valid() && chan in st.bursts
      modifies this, tracker, tracker.chans, tracker.people, tracker.links
      ensures Valid() && Grown()
      ensures st == old(st).(bursts := old(st).bursts[chan := burst], queues := old(st).queues[chan := lines])
    {
      hide Tracker.Valid, Plain;
      Channels();
      tracker.ChannelTracked(chan);
      st := st.(bursts := st.bursts[chan := burst], queues := st.queues[chan := lines]);
      tracker.SetStage(tracker.channels[chan], burst, lines);
    }

    method Stage(chan: Name) returns (burst: Burst, lines: seq<Line>)
      requires Valid() && chan in st.bursts
      ensures burst == st.bursts[chan] && chan in st.queues && lines == st.queues[chan]
    {
      hide Tracker.Valid, Plain;
      Channels();
      tracker.ChannelTracked(chan);
      tracker.StageFacts(tracker.channels[chan]);
      burst, lines := tracker.channels[chan].burst, tracker.channels[chan].burstLines;
    }

    /** `check_burst`: a line about a channel whose burst goes on is put off. */
    method CheckBurst(chan: Name, line: Line) returns (held: bool)
      requires Valid() && Holdable(line, chan) && chan in st.bursts && !OwnJoin(st, line)
      modifies this, tracker, tracker.chans, tracker.people, tracker.links
      ensures Valid() && Grown() && (held <==> Deferred(old(st), line))
      ensures st == if held then Defer(old(st), line) else old(st)
    {
      hide Valid;
      var burst, lines := Stage(chan);
      held := burst != Finished;
      if held {
        ghost var bursts := st.bursts;
        SetStage(chan, burst, lines + [line]);
        assert st.bursts == bursts;
      }
    }

    method AdvanceStage(chan: Name, at: Burst, next: Burst)
      requires Valid() && chan in st.bursts
      modifies this, tracker, tracker.chans, tracker.people, tracker.links
      ensures Valid() && Grown() && st == Advance(old(st), chan, at, next)
    {
      hide Valid;
      var burst, lines := Stage(chan);
      if burst == at {
        ghost var queues := st.queues;
        SetStage(chan, next, lines);
        assert st.queues == queues;
      }
    }

    method SetMode(chan: Name, change: ModeChange)
      requires Valid() && chan in st.bursts
      modifies this, tracker, tracker.chans, tracker.people, tracker.links
      ensures Valid() && Grown() && st == ChanUserModel.SetMode(old(st), chan, change)
    {
      hide Valid, Plain;
      var found := FindMember(chan, change.nick);
      if found {
        ChangeFlags(chan, change);
      }
    }

    method FindMember(chan: Name, nick: Name) returns (found: bool)
      requires Valid() && chan in st.bursts
      ensures found <==> Slot(chan, nick) in st.members
      ensures found ==>
        nick in st.nicks && nick in tracker.users && chan in tracker.channels && nick in tracker.channels[chan].users
    {
      hide Tracker.Valid, Plain;
      ChannelAt(chan);
      tracker.ChannelFacts(tracker.channels[chan]);
      PlainKeys(tracker.rel);
      found := nick in tracker.users && nick in tracker.channels[chan].users;
    }

    method ChangeFlags(chan: Name, change: ModeChange)
      requires Valid() && chan in st.bursts && change.nick in st.nicks && chan in tracker.channels
      requires change.nick in tracker.channels[chan].users
      modifies this, tracker, tracker.chans, tracker.people, tracker.links
      ensures Valid() && Grown() && st == ChanUserModel.SetMode(old(st), chan, change)
    {
      hide Tracker.Valid, Plain, Tracker.HasChannel, Tracker.HasUser, Changed;
      ChannelAt(chan);
      UserAt(change.nick);
      st := ChanUserModel.SetMode(st, chan, change);
      tracker.ChangeFlags(tracker.channels[chan], tracker.users[change.nick], change);
    }

    /** The handler of a line has gone through. */
    ghost method Logged(line: Line)
      requires Valid()
      modifies this`st
      ensures Valid() && st == ChanUserModel.Logged(old(st), line)
    {
      hide Tracker.Valid, Plain;
      st := ChanUserModel.Logged(st, line);
    }

    // ----- handlers -----

    /** The bot itself joins: the channel is added, and its burst begins. */
    method JoinMyself(nick: Name, chan: Name)
      requires Valid() && nick == st.bot
      modifies this, tracker, tracker.chans, tracker.people, tracker.links
      ensures Valid() && Grown() && st == Effect(old(st), Line.Join(nick, chan))
    {
      hide Valid, ChanUserModel.AddChannel, Enter;
      AddedChannel(st, chan);
      AddChannel(chan);
      EnterUser(chan, nick, PLAIN);
    }

    method JoinOther(nick: Name, chan: Name) returns (held: bool)
      requires Valid() && nick != st.bot
      modifies this, tracker, tracker.chans, tracker.people, tracker.links
      ensures Valid() && Grown() && (held <==> Deferred(old(st), Line.Join(nick, chan)))
      ensures st == if held then Defer(old(st), Line.Join(nick, chan)) else Effect(old(st), Line.Join(nick, chan))
    {
      hide Valid, ChanUserModel.AddChannel, Enter, Defer, Deferred;
      StepIs(st, Line.Join(nick, chan));
      held := false;
      var found := FindChannel(chan);
      if found {
        held := CheckBurst(chan, Line.Join(nick, chan));
        if !held {
          EnterUser(chan, nick, PLAIN);
        }
      }
    }

    method Join(nick: Name, chan: Name) returns (held: bool)
      requires Valid()
      modifies this, tracker, tracker.chans, tracker.people, tracker.links
      ensures Valid() && Grown() && st == Step(old(st), Line.Join(nick, chan))
      ensures held <==> Deferred(old(st), Line.Join(nick, chan))
    {
      hide Valid, Step, Effect, Defer, Deferred, ChanUserModel.Logged;
      StepIs(st, Line.Join(nick, chan));
      held := false;
      var me := IsMe(nick);
      if me {
        JoinMyself(nick, chan);
      } else {
        held := JoinOther(nick, chan);
      }
      if !held {
        Logged(Line.Join(nick, chan));
      }
    }

    method PartUser(nick: Name, chan: Name)
      requires Valid() && chan in st.bursts
      modifies this, tracker, tracker.chans, tracker.people, tracker.links
      ensures Valid() && Grown() && st == Effect(old(st), Line.Part(nick, chan))
    {
      hide Valid, ChanUserModel.DropChannel, ChanUserModel.Leave;
      var found := FindUser(nick);
      if found {
        var me := IsMe(nick);
        if me {
          LeaveShape(st, chan, nick, false);
          Leave(chan, nick, false);
          DropChannel(chan);
        } else {
          Leave(chan, nick, true);
        }
      }
    }

    method Part(nick: Name, chan: Name) returns (held: bool)
      requires Valid()
      modifies this, tracker, tracker.chans, tracker.people, tracker.links
      ensures Valid() && Grown() && st == Step(old(st), Line.Part(nick, chan))
      ensures held <==> Deferred(old(st), Line.Part(nick, chan))
    {
      hide Valid, Step, Effect, Defer, Deferred, ChanUserModel.Logged;
      StepIs(st, Line.Part(nick, chan));
      held := false;
      var found := FindChannel(chan);
      Untracked(st, Line.Part(nick, chan));
      if found {
        held := CheckBurst(chan, Line.Part(nick, chan));
        if held {
          return;
        }
        PartUser(nick, chan);
      }
      Logged(Line.Part(nick, chan));
    }

    method KickUser(chan: Name, victim: Name)
      requires Valid() && chan in st.bursts
      modifies this, tracker, tracker.chans, tracker.people, tracker.links
      ensures Valid() && Grown() && st == Effect(old(st), Line.Kick(chan, victim))
    {
      hide Valid, ChanUserModel.DropChannel, ChanUserModel.Leave;
      var found := FindUser(victim);
      if found {
        var me := IsMe(victim);
        if me {
          DropChannel(chan);
        } else {
          Leave(chan, victim, true);
        }
      }
    }

    method Kick(chan: Name, victim: Name) returns (held: bool)
      requires Valid()
      modifies this, tracker, tracker.chans, tracker.people, tracker.links
      ensures Valid() && Grown() && st == Step(old(st), Line.Kick(chan, victim))
      ensures held <==> Deferred(old(st), Line.Kick(chan, victim))
    {
      hide Valid, Step, Effect, Defer, Deferred, ChanUserModel.Logged;
      StepIs(st, Line.Kick(chan, victim));
      held := false;
      var found := FindChannel(chan);
      Untracked(st, Line.Kick(chan, victim));
      if found {
        held := CheckBurst(chan, Line.Kick(chan, victim));
        if held {
          return;
        }
        KickUser(chan, victim);
      }
      Logged(Line.Kick(chan, victim));
    }

    method ChangeNick(nick: Name, to: Name)
      requires Valid() && Acceptable(st, Line.Nick(nick, to))
      modifies this, tracker, tracker.chans, tracker.people, tracker.links
      ensures Valid() && Grown() && st == Step(old(st), Line.Nick(nick, to))
    {
      hide Valid, Step, ChanUserModel.Rename, ChanUserModel.Logged;
      StepIs(st, Line.Nick(nick, to));
      var found := FindUser(nick);
      if found {
        var me := IsMe(nick);
        if me {
          SetNickname(to);
        }
        Rename(nick, to);
      }
      Logged(Line.Nick(nick, to));
    }

    method Quit(nick: Name)
      requires Valid()
      modifies this, tracker, tracker.chans, tracker.people, tracker.links
      ensures Valid() && Grown() && st == Step(old(st), Line.Quit(nick))
    {
      hide Valid, Step, ChanUserModel.DropUser, ChanUserModel.Logged;
      StepIs(st, Line.Quit(nick));
      var found := FindUser(nick);
      if found {
        DropUser(nick);
      }
      Logged(Line.Quit(nick));
    }

    /** `parse_channel_modes`, as far as it is about members. */
    method SetModes(chan: Name, changes: seq<ModeChange>)
      requires Valid() && chan in st.bursts
      modifies this, tracker, tracker.chans, tracker.people, tracker.links
      ensures Valid() && Grown() && st == ChanUserModel.SetModes(old(st), chan, changes)
    {
      hide Valid, ChanUserModel.SetMode;
      assert changes[..0] == [];
      for i := 0 to |changes|
        invariant Valid() && Grown() && st == ChanUserModel.SetModes(old(st), chan, changes[..i])
      {
        assert changes[..i + 1][..i] == changes[..i];
        SetModesShape(old(st), chan, changes[..i]);
        SetMode(chan, changes[i]);
      }
      assert changes[..|changes|] == changes;
    }

    method Mode(chan: Name, changes: seq<ModeChange>) returns (held: bool)
      requires Valid()
      modifies this, tracker, tracker.chans, tracker.people, tracker.links
      ensures Valid() && Grown() && st == Step(old(st), Line.Mode(chan, changes))
      ensures held <==> Deferred(old(st), Line.Mode(chan, changes))
    {
      hide Valid, Step, Defer, Deferred, ChanUserModel.SetModes, ChanUserModel.Logged;
      StepIs(st, Line.Mode(chan, changes));
      held := false;
      var found := FindChannel(chan);
      if found {
        held := CheckBurst(chan, Line.Mode(chan, changes));
        if held {
          return;
        }
        SetModes(chan, changes);
      }
      Logged(Line.Mode(chan, changes));
    }

    method Topic(chan: Name) returns (held: bool)
      requires Valid()
      modifies this, tracker, tracker.chans, tracker.people, tracker.links
      ensures Valid() && Grown() && st == Step(old(st), Line.Topic(chan))
      ensures held <==> Deferred(old(st), Line.Topic(chan))
    {
      hide Valid, Step, Defer, Deferred, ChanUserModel.Logged;
      StepIs(st, Line.Topic(chan));
      held := false;
      var found := FindChannel(chan);
      if found {
        held := CheckBurst(chan, Line.Topic(chan));
        if held {
          return;
        }
      }
      Logged(Line.Topic(chan));
    }

    method NameReply(chan: Name, names: seq<(Name, Flags)>)
      requires Valid()
      modifies this, tracker, tracker.chans, tracker.people, tracker.links
      ensures Valid() && Grown() && st == Step(old(st), Line.NameReply(chan, names))
    {
      hide Valid, Step, EnterAll, ChanUserModel.Logged;
      StepIs(st, Line.NameReply(chan, names));
      var found := FindChannel(chan);
      if found {
        EnterNames(chan, names);
      }
      Logged(Line.NameReply(chan, names));
    }

    method EnterNames(chan: Name, names: seq<(Name, Flags)>)
      requires Valid() && chan in st.bursts
      modifies this, tracker, tracker.chans, tracker.people, tracker.links
      ensures Valid() && Grown() && st == EnterAll(old(st), chan, names)
    {
      hide Valid, Enter;
      assert names[..0] == [];
      for i := 0 to |names|
        invariant Valid() && Grown() && st == EnterAll(old(st), chan, names[..i])
      {
        assert names[..i + 1][..i] == names[..i];
        EnterAllShape(old(st), chan, names[..i]);
        EnterUser(chan, names[i].0, names[i].1);
      }
      assert names[..|names|] == names;
    }

    method EndOfNames(chan: Name)
      requires Valid()
      modifies this, tracker, tracker.chans, tracker.people, tracker.links
      ensures Valid() && Grown() && st == Step(old(st), Line.EndOfNames(chan))
    {
      hide Valid, Step, ChanUserModel.Logged;
      StepIs(st, Line.EndOfNames(chan));
      var found := FindChannel(chan);
      if found {
        AdvanceStage(chan, Names, Modes);
      }
      Logged(Line.EndOfNames(chan));
    }

    method ChannelModeIs(chan: Name, changes: seq<ModeChange>)
      requires Valid()
      modifies this, tracker, tracker.chans, tracker.people, tracker.links
      ensures Valid() && Grown() && st == Step(old(st), Line.ChannelModeIs(chan, changes))
    {
      hide Valid, Step, Advance, ChanUserModel.SetModes, ChanUserModel.Logged;
      StepIs(st, Line.ChannelModeIs(chan, changes));
      var found := FindChannel(chan);
      if found {
        SetModesShape(st, chan, changes);
        SetModes(chan, changes);
        AdvanceStage(chan, Modes, Bans);
      }
      Logged(Line.ChannelModeIs(chan, changes));
    }

    method EndOfBanList(chan: Name)
      requires Valid()
      modifies this, tracker, tracker.chans, tracker.people, tracker.links
      ensures Valid() && Grown() && st == Step(old(st), Line.EndOfBanList(chan))
    {
      hide Valid, Step, ChanUserModel.Logged;
      StepIs(st, Line.EndOfBanList(chan));
      var found := FindChannel(chan);
      if found {
        AdvanceStage(chan, Bans, Who);
      }
      Logged(Line.EndOfBanList(chan));
    }

    /** Any line but one that ends a burst. */
    method Process(line: Line)
      requires Valid() && Acceptable(st, line) && !EndsBurst(st, line)
      modifies this, tracker, tracker.chans, tracker.people, tracker.links
      ensures Valid() && Grown() && st == Step(old(st), line)
    {
      hide Valid, Step;
      var held := false;
      match line
      case Join(nick, chan) => held := Join(nick, chan);
      case Part(nick, chan) => held := Part(nick, chan);
      case Kick(chan, victim) => held := Kick(chan, victim);
      case Nick(nick, to) => ChangeNick(nick, to);
      case Quit(nick) => Quit(nick);
      case Mode(chan, changes) => held := Mode(chan, changes);
      case Topic(chan) => held := Topic(chan);
      case NameReply(chan, names) => NameReply(chan, names);
      case EndOfNames(chan) => EndOfNames(chan);
      case ChannelModeIs(chan, changes) => ChannelModeIs(chan, changes);
      case EndOfBanList(chan) => EndOfBanList(chan);
      case EndOfWho(chan) =>
        StepIs(st, line);
        Logged(line);
    }

    /** What a reconnect resets: nothing is tracked any more and nothing counts as unfinished. */
    method Reconnect()
      requires Valid()
      modifies this, tracker, tracker.chans, tracker.people, tracker.links
      ensures Valid() && Grown() && st == Start(old(st).bot).(log := old(st).log)
      ensures Consistent(st) && Gap(st) == 0
    {
      hide Tracker.Valid;
      tracker.ChanuserFlush();
      tracker.CountBurst(-tracker.burstCount);
      st := Start(st.bot).(log := st.log);
      assert Plain(tracker.rel) == map[];
      assert Unfinished(map[]) == {};
    }

    // ----- the end of a burst -----

    method FinishBurst(chan: Name)
      requires Valid() && chan in st.bursts
      modifies this, tracker, tracker.chans, tracker.people, tracker.links
      ensures Valid() && Grown() && st == Finish(old(st), chan)
    {
      hide Valid;
      var burst, lines := Stage(chan);
      ghost var queues := st.queues;
      SetStage(chan, Finished, lines);
      assert st.queues == queues;
      CountBurst(-1);
      Logged(EndOfWho(chan));
    }

    method CountBurst(step: int)
      requires Valid()
      modifies this, tracker, tracker.chans, tracker.people, tracker.links
      ensures Valid() && Grown() && st == old(st).(count := old(st).count + step)
    {
      hide Tracker.Valid, Plain;
      tracker.CountBurst(step);
      st := st.(count := st.count + step);
    }

    /** The waiting line `i` of the channel, if there still are a channel and such a line. */
    method WaitingLine(chan: Name, i: nat) returns (more: bool, line: Line)
      requires Valid() && Sorted(st)
      ensures more <==> chan in st.queues && i < |st.queues[chan]|
      ensures more ==> line == st.queues[chan][i] && Holdable(line, chan)
    {
      hide Valid;
      Channels();
      line := EndOfWho(chan);
      more := FindChannel(chan);
      if more {
        var burst, lines := Stage(chan);
        more := i < |lines|;
        if more {
          line := lines[i];
          assert line in lines;
        }
      }
    }

    /** What `num_endofwho` does with the lines that have waited for the channel. */
    method ReplayLines(chan: Name)
      requires Valid() && Sorted(st) && Replayable(st, chan, 0)
      modifies this, tracker, tracker.chans, tracker.people, tracker.links
      ensures Valid() && Grown() && st == Replay(old(st), chan, 0)
    {
      hide Valid, Step, Holdable;
      var i: nat := 0;
      var more, line := WaitingLine(chan, i);
      while more
        invariant Valid() && Grown() && Sorted(st) && Replayable(st, chan, i)
        invariant Replay(st, chan, i) == Replay(old(st), chan, 0)
        invariant more <==> chan in st.queues && i < |st.queues[chan]|
        invariant more ==> line == st.queues[chan][i] && Holdable(line, chan)
        decreases if more then |st.queues[chan]| - i else 0
      {
        StepReplayable(st, chan, i);
        StepSorted(st, line);
        HeldBack(st, line, chan);
        Process(line);
        i := i + 1;
        more, line := WaitingLine(chan, i);
      }
    }

    /** One line from the server. */
    method HandleLine(line: Line)
      requires Valid() && Consistent(st) && Acceptable(st, line)
      modifies this, tracker, tracker.chans, tracker.people, tracker.links
      ensures Valid() && Grown() && Consistent(st) && st == Handle(old(st), line)
      ensures !EndsBurst(old(st), line) ==>
        (exists c :: Waits(old(st), line, c, st)) || GoesThrough(old(st), line, st)
    {
      hide Valid, Consistent, Linked, Settled, Step, Finish, Replay, Acceptable, Waits, GoesThrough;
      HandleKeeps(st, line);
      HandleMeans(st, line);
      if line.EndOfWho? {
        EndBurst(line.chan);
      } else {
        Process(line);
      }
    }

    /** The lines that have waited are thrown away with their list, if there still is a channel. */
    method EmptyQueue(chan: Name)
      requires Valid()
      modifies this, tracker, tracker.chans, tracker.people, tracker.links
      ensures Valid() && Grown() && st == Emptied(old(st), chan)
    {
      hide Valid;
      var found := FindChannel(chan);
      if found {
        ghost var bursts := st.bursts;
        var burst, lines := Stage(chan);
        SetStage(chan, burst, []);
        assert st.bursts == bursts;
      }
    }

    method ReplayBurst(chan: Name)
      requires Valid() && Consistent(st) && EndsBurst(st, EndOfWho(chan))
      modifies this, tracker, tracker.chans, tracker.people, tracker.links
      ensures Valid() && Grown() && st == Handle(old(st), EndOfWho(chan))
    {
      hide Valid, Consistent, Step, Finish, Replay, Emptied, Sorted;
      FinishKeeps(st, chan);
      FinishBurst(chan);
      ReplayLines(chan);
      EmptyQueue(chan);
    }

    method EndBurst(chan: Name)
      requires Valid() && Consistent(st)
      modifies this, tracker, tracker.chans, tracker.people, tracker.links
      ensures Valid() && Grown() && st == Handle(old(st), EndOfWho(chan))
    {
      hide Valid, Linked, Settled, Step, Finish, Replay;
      var found := FindChannel(chan);
      if found {
        var burst, lines := Stage(chan);
        found := burst == Who;
      }
      if found {
        ReplayBurst(chan);
      } else {
        Process(EndOfWho(chan));
      }
    }
  }

  lemma HeldBack(st: State, line: Line, c: Name)
    requires Holdable(line, c)
    ensures Acceptable(st, line) && !EndsBurst(st, line)
  {
  }

  lemma Untracked(st: State, line: Line)
    requires line.Part? || line.Kick? || line.Mode? || line.Topic?
    ensures line.chan !in st.bursts ==> Effect(st, line) == st
  {
  }

  lemma AddedChannel(st: State, c: Name)
    ensures c in AddChannel(st, c).bursts
  {
  }

  lemma LeaveShape(st: State, c: Name, n: Name, checkDead: bool)
    ensures Leave(st, c, n, checkDead).bursts == st.bursts
  {
  }

  lemma StepIs(st: State, line: Line)
    ensures Deferred(st, line) ==> Step(st, line) == Defer(st, line)
    ensures !Deferred(st, line) ==> Step(st, line) == ChanUserModel.Logged(Effect(st, line), line)
    ensures OwnJoin(st, line) ==> !Deferred(st, line)
    ensures (line.Join? || line.Part? || line.Kick? || line.Mode? || line.Topic?) && line.chan !in st.bursts ==>
      !Deferred(st, line)
  {
  }
}
