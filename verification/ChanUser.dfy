/** The two-sided membership graph of chanuser.c: channels know their users and users their
    channels, through one object per membership. */
module ChanUser {
  import opened ChanUserModel

  class Channel {
    const name: Name
    var users: map<Name, Membership>
    var burst: Burst
    var burstLines: seq<Line>

    constructor (name: Name, burst: Burst)
      ensures this.name == name && users == map[] && this.burst == burst && burstLines == []
    {
      this.name, users, this.burst, burstLines := name, map[], burst, [];
    }
  }

  class User {
    var nick: Name
    var channels: map<Name, Membership>

    constructor (nick: Name)
      ensures this.nick == nick && channels == map[]
    {
      this.nick, channels := nick, map[];
    }
  }

  class Membership {
    const channel: Channel
    const user: User
    var flags: Flags

    constructor (channel: Channel, user: User, flags: Flags)
      ensures this.channel == channel && this.user == user && this.flags == flags
    {
      this.channel, this.user, this.flags := channel, user, flags;
    }
  }

  /** A membership object and the flags it holds. */
  datatype Entry = Entry(link: Membership, flags: Flags)

  type Relation = map<Slot, Entry>

  /** The relation without its objects. */
  function Plain(rel: Relation): map<Slot, Flags> {
    map k | k in rel :: rel[k].flags
  }

  lemma ElsewhereIff(rel: Relation, n: Name, c: Name)
    ensures Elsewhere(rel, n, c) <==> Somewhere(rel - {Slot(c, n)}, n)
  {
  }

  /** `now` is `was` less some memberships of `n`. */
  ghost predicate Leaving(was: Relation, now: Relation, n: Name) {
    && (forall k :: k in now ==> k in was && now[k] == was[k])
    && (forall k :: k in was && k.nick != n ==> k in now)
  }

  lemma LeavingStarts(rel: Relation, n: Name)
    ensures Leaving(rel, rel, n)
  {
  }

  lemma LeavingStep(was: Relation, now: Relation, n: Name, c: Name)
    requires Leaving(was, now, n)
    ensures Leaving(was, now - {Slot(c, n)}, n)
    ensures Slot(c, n) in now ==> (now - {Slot(c, n)}).Keys < now.Keys
  {
    if Slot(c, n) in now {
      assert Slot(c, n) !in (now - {Slot(c, n)}).Keys;
    }
  }

  lemma LeavingDone(was: Relation, now: Relation, n: Name)
    requires Leaving(was, now, n) && !Somewhere(now, n)
    ensures now == WithoutUser(was, n)
  {
  }

  ghost predicate Within(users: map<Name, User>, users0: map<Name, User>) {
    forall n :: n in users ==> n in users0 && users[n] == users0[n]
  }

  /** While channel `c` is emptied, of what was there some of its memberships are gone, and with
      them the users that were nowhere else. */
  ghost predicate Emptying(was: Relation, now: Relation, users0: map<Name, User>, users: map<Name, User>, c: Name) {
    && (forall k :: k in now ==> k in was && now[k] == was[k])
    && (forall k :: k in was && k.chan != c ==> k in now)
    && Within(users, users0)
    && (forall n :: n in users0 ==> (n in users <==> Slot(c, n) in now || Slot(c, n) !in was || Elsewhere(was, n, c)))
  }

  lemma EmptyingStarts(rel: Relation, users: map<Name, User>, c: Name)
    ensures Emptying(rel, rel, users, users, c)
  {
  }

  lemma EmptyingStep(was: Relation, now: Relation, users0: map<Name, User>, users: map<Name, User>, c: Name, n: Name)
    requires Emptying(was, now, users0, users, c) && Slot(c, n) in now
    ensures var users' := if !Elsewhere(now, n, c) then users - {n} else users;
      Emptying(was, now - {Slot(c, n)}, users0, users', c)
    ensures (now - {Slot(c, n)}).Keys < now.Keys
  {
    assert !Elsewhere(now, n, c) <==> !Elsewhere(was, n, c);
    assert Slot(c, n) !in (now - {Slot(c, n)}).Keys;
    hide Elsewhere;
  }

  lemma EmptyingDone(was: Relation, now: Relation, users0: map<Name, User>, users: map<Name, User>, c: Name)
    requires Emptying(was, now, users0, users, c) && forall k :: k in now ==> k.chan != c
    ensures now == WithoutChannel(was, c) && users.Keys == Staying(users0.Keys, was, c) && Within(users, users0)
  {
    forall n | n in users0 ensures n in users <==> n in Staying(users0.Keys, was, c) {
    }
  }

  lemma SomewhereSame(rel: Relation, n: Name)
    requires !Somewhere(rel, n)
    ensures WithoutUser(rel, n) == rel
  {
  }

  /** `row` is what `rel` says about channel `c`. */
  ghost predicate RowIs(rel: Relation, c: Name, row: map<Name, Membership>) {
    forall n :: (n in row <==> Slot(c, n) in rel) && (n in row ==> row[n] == rel[Slot(c, n)].link)
  }

  /** `col` is what `rel` says about nick `n`. */
  ghost predicate ColIs(rel: Relation, n: Name, col: map<Name, Membership>) {
    forall c :: (c in col <==> Slot(c, n) in rel) && (c in col ==> col[c] == rel[Slot(c, n)].link)
  }

  /** Memberships point back at a tracked channel and a tracked user. */
  ghost predicate Sited(rel: Relation, channels: map<Name, Channel>, users: map<Name, User>) {
    forall k :: k in rel ==>
      && k.chan in channels && rel[k].link.channel == channels[k.chan]
      && k.nick in users && rel[k].link.user == users[k.nick]
  }

  lemma RowRemoved(rel: Relation, c: Name, row: map<Name, Membership>, slot: Slot)
    requires RowIs(rel, c, row)
    ensures RowIs(rel - {slot}, c, if c == slot.chan then row - {slot.nick} else row)
  {
  }

  lemma ColRemoved(rel: Relation, n: Name, col: map<Name, Membership>, slot: Slot)
    requires ColIs(rel, n, col)
    ensures ColIs(rel - {slot}, n, if n == slot.nick then col - {slot.chan} else col)
  {
  }

  lemma RowAdded(rel: Relation, c: Name, row: map<Name, Membership>, slot: Slot, e: Entry)
    requires RowIs(rel, c, row)
    ensures RowIs(rel[slot := e], c, if c == slot.chan then row[slot.nick := e.link] else row)
  {
  }

  lemma ColAdded(rel: Relation, n: Name, col: map<Name, Membership>, slot: Slot, e: Entry)
    requires ColIs(rel, n, col)
    ensures ColIs(rel[slot := e], n, if n == slot.nick then col[slot.chan := e.link] else col)
  {
  }

  lemma SitedRemoved(rel: Relation, channels: map<Name, Channel>, users: map<Name, User>, slot: Slot)
    requires Sited(rel, channels, users)
    ensures Sited(rel - {slot}, channels, users)
  {
  }

  lemma SitedAdded(rel: Relation, channels: map<Name, Channel>, users: map<Name, User>, slot: Slot, e: Entry)
    requires Sited(rel, channels, users)
    requires slot.chan in channels && e.link.channel == channels[slot.chan]
    requires slot.nick in users && e.link.user == users[slot.nick]
    ensures Sited(rel[slot := e], channels, users)
  {
  }

  lemma SitedForgets(rel: Relation, channels: map<Name, Channel>, users: map<Name, User>, n: Name)
    requires Sited(rel, channels, users) && ColIs(rel, n, map[])
    ensures Sited(rel, channels, users - {n})
  {
    forall k | k in rel ensures k.nick != n {
      assert k == Slot(k.chan, k.nick);
    }
  }

  lemma SitedForgetsChannel(rel: Relation, channels: map<Name, Channel>, users: map<Name, User>, c: Name)
    requires Sited(rel, channels, users) && RowIs(rel, c, map[])
    ensures Sited(rel, channels - {c}, users)
  {
    forall k | k in rel ensures k.chan != c {
      assert k == Slot(k.chan, k.nick);
    }
  }

  lemma SitedNewChannel(rel: Relation, channels: map<Name, Channel>, users: map<Name, User>, channel: Channel)
    requires Sited(rel, channels, users) && channel.name !in channels
    ensures Sited(rel, channels[channel.name := channel], users) && RowIs(rel, channel.name, map[])
  {
    assert forall n :: Slot(channel.name, n) in rel ==> Slot(channel.name, n).chan in channels;
  }

  lemma SitedNewUser(rel: Relation, channels: map<Name, Channel>, users: map<Name, User>, n: Name, user: User)
    requires Sited(rel, channels, users) && n !in users
    ensures Sited(rel, channels, users[n := user]) && ColIs(rel, n, map[])
  {
    assert forall c :: Slot(c, n) in rel ==> Slot(c, n).nick in users;
  }

  lemma PlainUpdate(rel: Relation, slot: Slot, e: Entry)
    ensures Plain(rel[slot := e]) == Plain(rel)[slot := e.flags]
  {
  }

  lemma SameLinks(rel: Relation, now: Relation, channels: map<Name, Channel>, users: map<Name, User>)
    requires Sited(rel, channels, users) && now.Keys == rel.Keys && forall k :: k in rel ==> now[k].link == rel[k].link
    ensures Sited(now, channels, users)
  {
  }

  lemma SameLinksRow(rel: Relation, now: Relation, c: Name, row: map<Name, Membership>)
    requires RowIs(rel, c, row) && now.Keys == rel.Keys && forall k :: k in rel ==> now[k].link == rel[k].link
    ensures RowIs(now, c, row)
  {
    assert forall k :: k in now <==> k in rel;
  }

  lemma SameLinksCol(rel: Relation, now: Relation, n: Name, col: map<Name, Membership>)
    requires ColIs(rel, n, col) && now.Keys == rel.Keys && forall k :: k in rel ==> now[k].link == rel[k].link
    ensures ColIs(now, n, col)
  {
    assert forall k :: k in now <==> k in rel;
  }

  function RowRename(row: map<Name, Membership>, n: Name, to: Name): map<Name, Membership> {
    if n in row then (row - {n})[to := row[n]] else row
  }

  lemma InRenamed<V>(rel: map<Slot, V>, n: Name, to: Name, k: Slot)
    requires n == to || !Somewhere(rel, to)
    ensures k in Renamed(rel, n, to) <==> (k.nick == to && Slot(k.chan, n) in rel) || (k.nick != n && k in rel)
    ensures k in Renamed(rel, n, to) ==>
      Renamed(rel, n, to)[k] == if k.nick == to then rel[Slot(k.chan, n)] else rel[k]
  {
    assert k == Slot(k.chan, k.nick);
  }

  lemma RowRenamed(rel: Relation, c: Name, row: map<Name, Membership>, n: Name, to: Name)
    requires RowIs(rel, c, row) && (n == to || !Somewhere(rel, to))
    ensures RowIs(Renamed(rel, n, to), c, RowRename(row, n, to))
  {
    hide Renamed;
    forall m ensures m in RowRename(row, n, to) <==> Slot(c, m) in Renamed(rel, n, to)
      ensures m in RowRename(row, n, to) ==> RowRename(row, n, to)[m] == Renamed(rel, n, to)[Slot(c, m)].link
    {
      InRenamed(rel, n, to, Slot(c, m));
    }
  }

  lemma ColRenamed(rel: Relation, m: Name, col: map<Name, Membership>, n: Name, to: Name)
    requires ColIs(rel, m, col) && (n == to || !Somewhere(rel, to))
    ensures m == n ==> ColIs(Renamed(rel, n, to), to, col)
    ensures m != n && m != to ==> ColIs(Renamed(rel, n, to), m, col)
  {
    hide Renamed;
    if m == n {
      forall c ensures (c in col <==> Slot(c, to) in Renamed(rel, n, to))
        && (c in col ==> col[c] == Renamed(rel, n, to)[Slot(c, to)].link) {
        InRenamed(rel, n, to, Slot(c, to));
      }
    } else if m != to {
      forall c ensures (c in col <==> Slot(c, m) in Renamed(rel, n, to))
        && (c in col ==> col[c] == Renamed(rel, n, to)[Slot(c, m)].link) {
        InRenamed(rel, n, to, Slot(c, m));
      }
    }
  }

  lemma SitedRenamed(rel: Relation, channels: map<Name, Channel>, users: map<Name, User>, n: Name, to: Name)
    requires Sited(rel, channels, users) && n in users && (n == to || to !in users)
    ensures !Somewhere(rel, to) || n == to
    ensures Sited(Renamed(rel, n, to), channels, (users - {n})[to := users[n]])
  {
    hide Renamed;
    forall k | k in Renamed(rel, n, to)
      ensures k.chan in channels && Renamed(rel, n, to)[k].link.channel == channels[k.chan]
      ensures var now := (users - {n})[to := users[n]]; k.nick in now && Renamed(rel, n, to)[k].link.user == now[k.nick]
    {
      InRenamed(rel, n, to, k);
    }
  }

  lemma Readded<V>(m: map<Name, V>, c: Name, v: V)
    ensures (m - {c})[c := v] == m[c := v]
  {
  }

  class Tracker {
    var channels: map<Name, Channel>
    var users: map<Name, User>
    var burstCount: int
    ghost var rel: Relation
    ghost var bursts: map<Name, Burst>
    ghost var queues: map<Name, seq<Line>>
    /** The objects ever used. */
    ghost var chans: set<Channel>
    ghost var people: set<User>
    ghost var links: set<Membership>

    /** Every object is reached under its own name. */
    ghost predicate Named()
      reads this`channels, this`users, this`chans, this`people, people`nick
    {
      && (forall c :: c in channels ==> channels[c] in chans && channels[c].name == c)
      && (forall n :: n in users ==> users[n] in people && users[n].nick == n)
    }

    ghost predicate Flagged()
      reads this`rel, this`links, links`flags
    {
      forall k :: k in rel ==> rel[k].link in links && rel[k].link.flags == rel[k].flags
    }

    ghost predicate Staged()
      reads this`channels, this`bursts, this`queues, this`chans, chans`burst, chans`burstLines
    {
      && (forall c :: c in bursts <==> c in channels) && (forall c :: c in queues <==> c in channels)
      && (forall c :: c in channels ==>
            channels[c] in chans && channels[c].burst == bursts[c] && channels[c].burstLines == queues[c])
    }

    ghost predicate Rows()
      reads this`channels, this`rel, this`chans, chans`users
    {
      forall c :: c in channels ==> channels[c] in chans && RowIs(rel, c, channels[c].users)
    }

    ghost predicate Cols()
      reads this`users, this`rel, this`people, people`channels
    {
      forall n :: n in users ==> users[n] in people && ColIs(rel, n, users[n].channels)
    }

    /** A membership hangs in its channel under its user's nick exactly if it hangs in its user
        under its channel's name, and it points back at both. */
    ghost predicate Valid()
      reads this, chans, people, links
    {
      && Named() && Sited(rel, channels, users) && Rows() && Cols() && Flagged() && Staged()
    }

    constructor ()
      ensures Valid() && channels == map[] && users == map[] && burstCount == 0
      ensures rel == map[] && bursts == map[] && queues == map[]
    {
      channels, users, burstCount := map[], map[], 0;
      rel, bursts, queues, chans, people, links := map[], map[], map[], {}, {}, {};
    }

    ghost predicate HasChannel(channel: Channel)
      reads this
    {
      channel.name in channels && channels[channel.name] == channel && channel in chans
    }

    ghost predicate HasUser(user: User)
      reads this, user
    {
      user.nick in users && users[user.nick] == user && user in people
    }

    // ----- single changes -----

    /** One row and one column change, to what the new relation says. */
    method Rewire(channel: Channel, user: User, row: map<Name, Membership>, col: map<Name, Membership>,
        ghost newRel: Relation)
      requires Named() && Staged() && HasChannel(channel) && HasUser(user)
      requires Sited(newRel, channels, users)
      requires forall k :: k in newRel ==> newRel[k].link in links && newRel[k].link.flags == newRel[k].flags
      requires forall c :: c in channels ==> RowIs(newRel, c, if c == channel.name then row else channels[c].users)
      requires forall n :: n in users ==> ColIs(newRel, n, if n == user.nick then col else users[n].channels)
      modifies this`rel, channel`users, user`channels
      ensures Valid() && rel == newRel
    {
      hide RowIs, ColIs, Sited, Staged;
      channel.users := row;
      user.channels := col;
      rel := newRel;
    }

    /** The membership leaves both dicts. */
    method Unlink(channel: Channel, user: User)
      requires Valid() && HasChannel(channel) && HasUser(user)
      modifies this`rel, channel`users, user`channels
      ensures Valid() && rel == old(rel) - {Slot(channel.name, user.nick)}
    {
      hide RowIs, ColIs, Sited, Staged;
      ghost var slot := Slot(channel.name, user.nick);
      SitedRemoved(rel, channels, users, slot);
      forall c | c in channels
        ensures RowIs(rel - {slot}, c, if c == slot.chan then channels[c].users - {slot.nick} else channels[c].users)
      {
        RowRemoved(rel, c, channels[c].users, slot);
      }
      forall n | n in users
        ensures ColIs(rel - {slot}, n, if n == slot.nick then users[n].channels - {slot.chan} else users[n].channels)
      {
        ColRemoved(rel, n, users[n].channels, slot);
      }
      Rewire(channel, user, channel.users - {user.nick}, user.channels - {channel.name}, rel - {slot});
    }

    method Link(channel: Channel, user: User, flags: Flags) returns (m: Membership)
      requires Valid() && HasChannel(channel) && HasUser(user)
      modifies this`rel, this`links, channel`users, user`channels
      ensures Valid() && fresh(m) && rel == old(rel)[Slot(channel.name, user.nick) := Entry(m, flags)]
      ensures links == old(links) + {m}
    {
      hide RowIs, ColIs, Sited, Staged;
      m := new Membership(channel, user, flags);
      ghost var slot := Slot(channel.name, user.nick);
      ghost var e := Entry(m, flags);
      SitedAdded(rel, channels, users, slot, e);
      forall c | c in channels
        ensures RowIs(rel[slot := e], c, if c == slot.chan then channels[c].users[slot.nick := m] else channels[c].users)
      {
        RowAdded(rel, c, channels[c].users, slot, e);
      }
      forall n | n in users
        ensures ColIs(rel[slot := e], n, if n == slot.nick then users[n].channels[slot.chan := m] else users[n].channels)
      {
        ColAdded(rel, n, users[n].channels, slot, e);
      }
      links := links + {m};
      Rewire(channel, user, channel.users[user.nick := m], user.channels[channel.name := m], rel[slot := e]);
    }

    method Forget(user: User)
      requires Valid() && HasUser(user) && user.channels == map[]
      modifies this`users
      ensures Valid() && users == old(users) - {user.nick}
    {
      hide RowIs, ColIs, Sited, Staged, Flagged, Rows;
      SitedForgets(rel, channels, users, user.nick);
      users := users - {user.nick};
    }

    /** The dict of channels changes, and what is known of them with it. */
    method Rechannel(newChannels: map<Name, Channel>, ghost newChans: set<Channel>,
        ghost newBursts: map<Name, Burst>, ghost newQueues: map<Name, seq<Line>>)
      requires Valid() && Sited(rel, newChannels, users)
      requires (forall c :: c in newBursts <==> c in newChannels) && (forall c :: c in newQueues <==> c in newChannels)
      requires forall c :: c in newChannels ==>
        && newChannels[c] in newChans && newChannels[c].name == c && RowIs(rel, c, newChannels[c].users)
        && newChannels[c].burst == newBursts[c] && newChannels[c].burstLines == newQueues[c]
      modifies this`channels, this`chans, this`bursts, this`queues
      ensures Valid() && channels == newChannels && chans == newChans && bursts == newBursts && queues == newQueues
    {
      hide RowIs, ColIs, Sited, Flagged, Cols;
      channels, chans, bursts, queues := newChannels, newChans, newBursts, newQueues;
    }

    lemma OtherChannels(channel: Channel)
      requires Valid() && HasChannel(channel)
      ensures forall c :: c in channels && c != channel.name ==> channels[c] != channel
    {
    }

    /** Burst state and deferred lines of a channel. */
    method SetStage(channel: Channel, burst: Burst, lines: seq<Line>)
      requires Valid() && HasChannel(channel)
      modifies this`bursts, this`queues, channel`burst, channel`burstLines
      ensures Valid() && bursts == old(bursts)[channel.name := burst] && queues == old(queues)[channel.name := lines]
      ensures channel.burst == burst && channel.burstLines == lines
    {
      hide Named, Sited, Flagged, Cols, Rows, Staged;
      OtherChannels(channel);
      StageKeys();
      Restage(channel, burst, lines, bursts[channel.name := burst], queues[channel.name := lines]);
    }

    method Restage(channel: Channel, burst: Burst, lines: seq<Line>, ghost newBursts: map<Name, Burst>,
        ghost newQueues: map<Name, seq<Line>>)
      requires Staged() && HasChannel(channel)
      requires (forall c :: c in newBursts <==> c in channels) && (forall c :: c in newQueues <==> c in channels)
      requires newBursts[channel.name] == burst && newQueues[channel.name] == lines
      requires forall c :: c in channels && c != channel.name ==>
        channels[c] != channel && newBursts[c] == bursts[c] && newQueues[c] == queues[c]
      modifies this`bursts, this`queues, channel`burst, channel`burstLines
      ensures Staged() && bursts == newBursts && queues == newQueues
      ensures channel.burst == burst && channel.burstLines == lines
    {
      channel.burst, channel.burstLines := burst, lines;
      bursts, queues := newBursts, newQueues;
      forall c | c in channels
        ensures channels[c] in chans && channels[c].burst == bursts[c] && channels[c].burstLines == queues[c]
      {
        if c == channel.name {
          assert channels[c] == channel;
        } else {
          assert channels[c].burst == old(channels[c].burst) && channels[c].burstLines == old(channels[c].burstLines);
        }
      }
    }

    method ForgetChannel(channel: Channel)
      requires Valid() && HasChannel(channel) && channel.users == map[]
      modifies this`channels, this`chans, this`bursts, this`queues
      ensures Valid() && channels == old(channels) - {channel.name} && chans == old(chans)
      ensures bursts == old(bursts) - {channel.name} && queues == old(queues) - {channel.name}
    {
      hide RowIs, ColIs, Sited, Flagged, Cols;
      SitedForgetsChannel(rel, channels, users, channel.name);
      Rechannel(channels - {channel.name}, chans, bursts - {channel.name}, queues - {channel.name});
    }

    lemma UserFacts(user: User)
      requires Valid() && HasUser(user)
      ensures forall c :: c in user.channels <==> Slot(c, user.nick) in rel
      ensures forall c :: c in user.channels ==>
                HasChannel(user.channels[c].channel) && user.channels[c].channel.name == c
      ensures user.channels == map[] <==> !Somewhere(rel, user.nick)
    {
      hide RowIs;
      assert ColIs(rel, user.nick, user.channels);
      assert forall k :: k in rel && k.nick == user.nick ==> k == Slot(k.chan, user.nick);
    }

    lemma ChannelFacts(channel: Channel)
      requires Valid() && HasChannel(channel)
      ensures forall n :: n in channel.users <==> Slot(channel.name, n) in rel
      ensures forall n :: n in channel.users ==>
                HasUser(channel.users[n].user) && channel.users[n].user.nick == n
      ensures channel.users == map[] ==> forall k :: k in rel ==> k.chan != channel.name
    {
      hide ColIs;
      assert RowIs(rel, channel.name, channel.users);
      assert forall k :: k in rel && k.chan == channel.name ==> k == Slot(channel.name, k.nick);
    }

    lemma StageFacts(channel: Channel)
      requires Valid() && HasChannel(channel)
      ensures channel.name in bursts && channel.name in queues
      ensures channel.burst == bursts[channel.name] && channel.burstLines == queues[channel.name]
    {
    }

    lemma StageKeys()
      requires Valid()
      ensures bursts.Keys == channels.Keys && queues.Keys == channels.Keys
    {
    }

    lemma FlagFacts(slot: Slot)
      requires Valid() && slot in rel
      ensures rel[slot].link.flags == rel[slot].flags
    {
    }

    // ----- deletion -----

    /** `channel_user_del`: with `checkDead`, a user without channels is deleted, too. */
    method ChannelUserDel(channel: Channel, user: User, checkDead: bool) returns (dead: bool)
      requires Valid() && HasChannel(channel) && HasUser(user)
      modifies this`users, this`rel, chans`users, people`channels
      ensures Valid() && rel == old(rel) - {Slot(channel.name, user.nick)}
      ensures dead <==>
        checkDead && Slot(channel.name, user.nick) in old(rel) && !Elsewhere(old(rel), user.nick, channel.name)
      ensures users == if dead then old(users) - {user.nick} else old(users)
      decreases if checkDead then 2 else 0
    {
      hide Valid, Somewhere, Elsewhere, WithoutUser;
      ChannelFacts(channel);
      ElsewhereIff(rel, user.nick, channel.name);
      if user.nick !in channel.users {
        return false;
      }
      Unlink(channel, user);
      UserFacts(user);
      if checkDead && user.channels == map[] {
        SomewhereSame(rel, user.nick);
        UserDel(user);
        return true;
      }
      return false;
    }

    /** `user_del`: the user leaves all its channels and is forgotten. */
    method UserDel(user: User)
      requires Valid() && HasUser(user)
      modifies this`users, this`rel, chans`users, people`channels
      ensures Valid() && users == old(users) - {user.nick} && rel == WithoutUser(old(rel), user.nick)
      decreases 1
    {
      hide Valid, Somewhere, Elsewhere, WithoutUser, Leaving;
      LeavingStarts(rel, user.nick);
      while user.channels != map[]
        invariant Valid() && users == old(users) && Leaving(old(rel), rel, user.nick)
        decreases rel.Keys
      {
        UserFacts(user);
        var c :| c in user.channels;
        LeavingStep(old(rel), rel, user.nick, c);
        var gone := ChannelUserDel(user.channels[c].channel, user, false);
      }
      UserFacts(user);
      LeavingDone(old(rel), rel, user.nick);
      Forget(user);
    }

    /** One member leaves, together with the user if it was nowhere else. */
    method DropMember(channel: Channel, ghost was: Relation, ghost users0: map<Name, User>)
      requires Valid() && HasChannel(channel) && channel.users != map[]
      requires Emptying(was, rel, users0, users, channel.name)
      modifies this`users, this`rel, chans`users, people`channels
      ensures Valid() && rel.Keys < old(rel).Keys
      ensures Emptying(was, rel, users0, users, channel.name)
    {
      hide Valid, Emptying, Elsewhere;
      ChannelFacts(channel);
      var n :| n in channel.users;
      EmptyingStep(was, rel, users0, users, channel.name, n);
      var dead := ChannelUserDel(channel, channel.users[n].user, true);
    }

    method DropMembers(channel: Channel)
      requires Valid() && HasChannel(channel)
      modifies this`users, this`rel, chans`users, people`channels
      ensures Valid() && channel.users == map[]
      ensures rel == WithoutChannel(old(rel), channel.name)
      ensures users.Keys == Staying(old(users).Keys, old(rel), channel.name) && Within(users, old(users))
    {
      hide Valid, Staying, WithoutChannel, Emptying;
      EmptyingStarts(rel, users, channel.name);
      while channel.users != map[]
        invariant Valid()
        invariant Emptying(old(rel), rel, old(users), users, channel.name)
        decreases rel.Keys
      {
        DropMember(channel, old(rel), old(users));
      }
      ChannelFacts(channel);
      EmptyingDone(old(rel), rel, old(users), users, channel.name);
    }

    /** `channel_del`: everybody leaves, and users that were nowhere else are forgotten. */
    method ChannelDel(channel: Channel)
      requires Valid() && HasChannel(channel)
      modifies this`channels, this`chans, this`bursts, this`queues, this`users, this`rel, chans`users, people`channels
      ensures Valid() && channels == old(channels) - {channel.name} && rel == WithoutChannel(old(rel), channel.name)
      ensures bursts == old(bursts) - {channel.name} && queues == old(queues) - {channel.name} && chans == old(chans)
      ensures users.Keys == Staying(old(users).Keys, old(rel), channel.name) && Within(users, old(users))
    {
      hide Valid, Staying, WithoutChannel;
      DropMembers(channel);
      ForgetChannel(channel);
    }

    /** `chanuser_flush`: everybody and everything goes. */
    method ChanuserFlush()
      requires Valid()
      modifies this`channels, this`chans, this`bursts, this`queues, this`users, this`rel, chans`users, people`channels
      ensures Valid() && channels == map[] && users == map[]
      ensures rel == map[] && bursts == map[] && queues == map[] && chans == old(chans)
    {
      hide Valid, WithoutUser, WithoutChannel, Staying;
      while users != map[]
        invariant Valid() && channels == old(channels) && chans == old(chans)
        decreases users.Keys
      {
        var n :| n in users;
        UserTracked(n);
        UserDel(users[n]);
      }
      while channels != map[]
        invariant Valid() && users == map[] && chans == old(chans)
        decreases channels.Keys
      {
        var c :| c in channels;
        ChannelTracked(c);
        ChannelDel(channels[c]);
      }
      Deserted();
    }

    lemma UserTracked(n: Name)
      requires Valid() && n in users
      ensures HasUser(users[n]) && users[n].nick == n
    {
    }

    lemma ChannelTracked(c: Name)
      requires Valid() && c in channels
      ensures HasChannel(channels[c]) && channels[c].name == c
    {
    }

    lemma Deserted()
      requires Valid()
      ensures users == map[] ==> rel == map[]
      ensures channels == map[] ==> bursts == map[] && queues == map[]
    {
    }

    // ----- addition -----

    /** `channel_add`: a channel that is tracked already is deleted and added anew. */
    method ChannelAdd(name: Name, doBurst: bool) returns (channel: Channel)
      requires Valid()
      modifies this, chans`users, people`channels
      ensures Valid() && fresh(channel) && HasChannel(channel) && channel.name == name
      ensures chans == old(chans) + {channel} && people == old(people) && links == old(links)
      ensures bursts == old(bursts)[name := if doBurst then Names else Finished] && queues == old(queues)[name := []]
      ensures burstCount == old(burstCount) + if doBurst then 1 else 0
      ensures rel == if name in old(channels) then WithoutChannel(old(rel), name) else old(rel)
      ensures users.Keys == if name in old(channels) then Staying(old(users).Keys, old(rel), name) else old(users).Keys
      ensures Within(users, old(users))
    {
      hide Valid, WithoutChannel, Staying, Within;
      Readded(bursts, name, if doBurst then Names else Finished);
      Readded(queues, name, []);
      DropTracked(name);
      channel := CreateChannel(name, doBurst);
    }

    /** A channel under a name that is not tracked. */
    method CreateChannel(name: Name, doBurst: bool) returns (channel: Channel)
      requires Valid() && name !in channels
      modifies this`channels, this`bursts, this`queues, this`chans, this`burstCount
      ensures Valid() && fresh(channel) && HasChannel(channel) && channel.name == name
      ensures chans == old(chans) + {channel}
      ensures bursts == old(bursts)[name := if doBurst then Names else Finished] && queues == old(queues)[name := []]
      ensures burstCount == old(burstCount) + if doBurst then 1 else 0
    {
      hide Valid;
      channel := new Channel(name, if doBurst then Names else Finished);
      if doBurst {
        CountBurst(1);
      }
      InsertChannel(channel);
    }

    method DropTracked(name: Name)
      requires Valid()
      modifies this`channels, this`chans, this`bursts, this`queues, this`users, this`rel, chans`users, people`channels
      ensures Valid() && channels == old(channels) - {name} && chans == old(chans)
      ensures bursts == old(bursts) - {name} && queues == old(queues) - {name}
      ensures rel == if name in old(channels) then WithoutChannel(old(rel), name) else old(rel)
      ensures users.Keys == if name in old(channels) then Staying(old(users).Keys, old(rel), name) else old(users).Keys
      ensures Within(users, old(users))
    {
      hide Valid, WithoutChannel, Staying;
      StageKeys();
      if name in channels {
        ChannelTracked(name);
        ChannelDel(channels[name]);
      }
    }

    method CountBurst(step: int)
      requires Valid()
      modifies this`burstCount
      ensures Valid() && burstCount == old(burstCount) + step
    {
      hide Named, Sited, Rows, Cols, Flagged, Staged;
      burstCount := burstCount + step;
    }

    method InsertChannel(channel: Channel)
      requires Valid() && channel !in chans && channel.name !in channels
      requires channel.users == map[] && channel.burstLines == []
      modifies this`channels, this`bursts, this`queues, this`chans
      ensures Valid() && channels == old(channels)[channel.name := channel] && chans == old(chans) + {channel}
      ensures bursts == old(bursts)[channel.name := channel.burst] && queues == old(queues)[channel.name := []]
    {
      hide RowIs, ColIs, Sited, Flagged, Cols;
      SitedNewChannel(rel, channels, users, channel);
      Rechannel(channels[channel.name := channel], chans + {channel},
                bursts[channel.name := channel.burst], queues[channel.name := []]);
    }

    /** `user_add_nick`: a user that is tracked already is deleted and added anew. */
    method UserAddNick(nick: Name) returns (user: User)
      requires Valid()
      modifies this`users, this`rel, this`people, chans`users, people`channels
      ensures Valid() && fresh(user) && user.nick == nick && user.channels == map[]
      ensures users == old(users)[nick := user] && people == old(people) + {user}
      ensures rel == WithoutUser(old(rel), nick) && (nick !in old(users) ==> rel == old(rel))
    {
      hide Valid, WithoutUser, Somewhere;
      if nick in users {
        UserTracked(nick);
        UserDel(users[nick]);
      } else {
        Unknown(nick);
        SomewhereSame(rel, nick);
      }
      user := new User(nick);
      InsertUser(user);
    }

    lemma Unknown(nick: Name)
      requires Valid() && nick !in users
      ensures !Somewhere(rel, nick)
    {
    }

    method InsertUser(user: User)
      requires Valid() && user !in people && user.nick !in users && user.channels == map[]
      modifies this`users, this`people
      ensures Valid() && users == old(users)[user.nick := user] && people == old(people) + {user}
    {
      hide RowIs, ColIs, Sited, Flagged, Staged, Rows;
      SitedNewUser(rel, channels, users, user.nick, user);
      users := users[user.nick := user];
      people := people + {user};
    }

    lemma Distinct(k: Slot, l: Slot)
      requires Valid() && k in rel && l in rel && rel[k].link == rel[l].link
      ensures k == l
    {
    }

    /** `channel_user_add`: somebody who is on the channel already only gets the flags. */
    method ChannelUserAdd(channel: Channel, user: User, flags: Flags)
      requires Valid() && HasChannel(channel) && HasUser(user)
      modifies this`rel, this`links, channel`users, user`channels, links`flags
      ensures Valid() && fresh(links - old(links)) && links >= old(links)
      ensures Plain(rel) == Plain(old(rel))[Slot(channel.name, user.nick) := flags]
    {
      hide Valid, Plain;
      ChannelFacts(channel);
      if user.nick in channel.users {
        SetFlags(channel, user, flags);
      } else {
        ghost var was := rel;
        var m := Link(channel, user, flags);
        PlainUpdate(was, Slot(channel.name, user.nick), Entry(m, flags));
      }
    }

    /** The flags of one membership. */
    method SetFlags(channel: Channel, user: User, flags: Flags)
      requires Valid() && HasChannel(channel) && HasUser(user) && user.nick in channel.users
      modifies this`rel, links`flags
      ensures Valid() && Plain(rel) == Plain(old(rel))[Slot(channel.name, user.nick) := flags]
    {
      hide Valid, Plain;
      var m := Member(channel, user);
      ghost var slot := Slot(channel.name, user.nick);
      PlainUpdate(rel, slot, Entry(m, flags));
      Reflag(m, slot, flags);
    }

    /** An operator or voice mode given or taken. */
    method ChangeFlags(channel: Channel, user: User, change: ModeChange)
      requires Valid() && HasChannel(channel) && HasUser(user) && user.nick in channel.users
      modifies this`rel, links`flags
      ensures var slot := Slot(channel.name, user.nick);
        Valid() && slot in Plain(old(rel)) && Plain(rel) == Plain(old(rel))[slot := Changed(Plain(old(rel))[slot], change)]
    {
      hide Valid;
      var m := Member(channel, user);
      ghost var slot := Slot(channel.name, user.nick);
      FlagFacts(slot);
      var flags := Changed(m.flags, change);
      PlainUpdate(rel, slot, Entry(m, flags));
      Reflag(m, slot, flags);
    }

    /** No other slot shares the object. */
    lemma Reflagged(m: Membership, slot: Slot, flags: Flags)
      requires Valid() && slot in rel && rel[slot].link == m
      ensures var newRel := rel[slot := Entry(m, flags)];
        && Sited(newRel, channels, users) && m in links
        && (forall c :: c in channels ==> RowIs(newRel, c, channels[c].users))
        && (forall n :: n in users ==> ColIs(newRel, n, users[n].channels))
        && (forall k :: k in newRel && k != slot ==>
              newRel[k].link != m && newRel[k].link in links && newRel[k].link.flags == newRel[k].flags)
    {
      hide RowIs, ColIs, Sited;
      ghost var newRel := rel[slot := Entry(m, flags)];
      forall k | k in rel && k != slot ensures rel[k].link != m {
        if rel[k].link == m { Distinct(k, slot); }
      }
      SameLinks(rel, newRel, channels, users);
      forall c | c in channels ensures RowIs(newRel, c, channels[c].users) {
        SameLinksRow(rel, newRel, c, channels[c].users);
      }
      forall n | n in users ensures ColIs(newRel, n, users[n].channels) {
        SameLinksCol(rel, newRel, n, users[n].channels);
      }
    }

    method Reflag(m: Membership, ghost slot: Slot, flags: Flags)
      requires Valid() && slot in rel && rel[slot].link == m
      modifies this`rel, links`flags
      ensures Valid() && rel == old(rel)[slot := Entry(m, flags)]
    {
      hide RowIs, ColIs, Sited, Named, Staged;
      Reflagged(m, slot, flags);
      rel := rel[slot := Entry(m, flags)];
      m.flags := flags;
    }

    /** `channel_user_find`. */
    method Member(channel: Channel, user: User) returns (m: Membership)
      requires Valid() && HasChannel(channel) && HasUser(user) && user.nick in channel.users
      ensures Slot(channel.name, user.nick) in rel && rel[Slot(channel.name, user.nick)].link == m
    {
      hide ColIs;
      assert RowIs(rel, channel.name, channel.users);
      m := channel.users[user.nick];
    }

    /** `user_rename`: under the new nick, everything is as it was under the old one. */
    method UserRename(user: User, nick: Name)
      requires Valid() && HasUser(user) && (nick == user.nick || nick !in users)
      modifies this`users, this`rel, user`nick, chans`users
      ensures Valid() && user.nick == nick && users == (old(users) - {old(user.nick)})[nick := user]
      ensures rel == Renamed(old(rel), old(user.nick), nick)
    {
      hide RowIs, ColIs, Sited, Renamed, RowRename;
      var oldNick := user.nick;
      SitedRenamed(rel, channels, users, oldNick, nick);
      RenamedFlagged(oldNick, nick);
      forall c | c in channels ensures RowIs(Renamed(rel, oldNick, nick), c, RowRename(channels[c].users, oldNick, nick)) {
        RowRenamed(rel, c, channels[c].users, oldNick, nick);
      }
      forall n | n in users
        ensures n == oldNick ==> ColIs(Renamed(rel, oldNick, nick), nick, users[n].channels)
        ensures n != oldNick && n != nick ==> ColIs(Renamed(rel, oldNick, nick), n, users[n].channels)
      {
        ColRenamed(rel, n, users[n].channels, oldNick, nick);
      }
      RenameRows(user, oldNick, nick);
      RenameIn(user.channels, oldNick, nick);
      NewUsers(user, nick);
      Refile(user, nick, (users - {oldNick})[nick := user], Renamed(rel, oldNick, nick));
    }

    lemma RenamedFlagged(oldNick: Name, nick: Name)
      requires Flagged() && (oldNick == nick || !Somewhere(rel, nick))
      ensures forall k :: k in Renamed(rel, oldNick, nick) ==>
        var e := Renamed(rel, oldNick, nick)[k]; e.link in links && e.link.flags == e.flags
    {
      forall k | k in Renamed(rel, oldNick, nick)
        ensures var e := Renamed(rel, oldNick, nick)[k]; e.link in links && e.link.flags == e.flags
      {
        InRenamed(rel, oldNick, nick, k);
      }
    }

    lemma RenameRows(user: User, oldNick: Name, nick: Name)
      requires Valid() && HasUser(user) && oldNick == user.nick
      ensures forall c :: c in user.channels ==> c in channels && user.channels[c].channel == channels[c]
      ensures forall c :: c in channels ==> (RowRename(channels[c].users, oldNick, nick) ==
        if c in user.channels then (channels[c].users - {oldNick})[nick := user.channels[c]] else channels[c].users)
    {
      UserRows(user);
    }

    lemma NewUsers(user: User, nick: Name)
      requires Named() && HasUser(user) && (nick == user.nick || nick !in users)
      ensures var newUsers := (users - {user.nick})[nick := user];
        && nick in newUsers
        && (forall n :: n in newUsers ==> newUsers[n] in people)
        && newUsers[nick] == user
        && (forall n :: n in newUsers && n != nick ==> newUsers[n] != user && newUsers[n].nick == n)
    {
    }

    /** The last part of a renaming, once the channels know the new nick. */
    method Refile(user: User, nick: Name, newUsers: map<Name, User>, ghost newRel: Relation)
      requires Named() && nick in newUsers
      requires (forall n :: n in newUsers ==> newUsers[n] in people) && newUsers[nick] == user
      requires forall n :: n in newUsers && n != nick ==> newUsers[n] != user && newUsers[n].nick == n
      requires Sited(newRel, channels, newUsers) && Staged()
      requires forall k :: k in newRel ==> newRel[k].link in links && newRel[k].link.flags == newRel[k].flags
      requires forall c :: c in channels ==> RowIs(newRel, c, channels[c].users)
      requires forall n :: n in newUsers ==> ColIs(newRel, n, newUsers[n].channels)
      modifies this`users, this`rel, user`nick
      ensures Valid() && user.nick == nick && users == newUsers && rel == newRel
    {
      hide RowIs, ColIs, Sited, Staged;
      users := newUsers;
      rel := newRel;
      user.nick := nick;
    }

    /** The user is filed under its nick in the channels it is on, and in no other. */
    lemma UserRows(user: User)
      requires Valid() && HasUser(user)
      ensures forall c :: c in user.channels ==>
        && c in channels && user.channels[c].channel == channels[c]
        && user.nick in channels[c].users && channels[c].users[user.nick] == user.channels[c]
      ensures forall c :: c in channels && c !in user.channels ==> user.nick !in channels[c].users
    {
      assert ColIs(rel, user.nick, user.channels);
      forall c | c in channels
        ensures user.nick in channels[c].users <==> Slot(c, user.nick) in rel
        ensures user.nick in channels[c].users ==> channels[c].users[user.nick] == rel[Slot(c, user.nick)].link
      {
        assert RowIs(rel, c, channels[c].users);
      }
      hide Rows, Cols;
    }

    /** Each channel of the user files it under the new nick. */
    method RenameIn(memberships: map<Name, Membership>, oldNick: Name, nick: Name)
      requires forall c :: c in memberships ==> c in channels && memberships[c].channel == channels[c]
      requires forall c :: c in channels ==> channels[c] in chans && channels[c].name == c
      modifies chans`users
      ensures forall c :: c in channels ==> (channels[c].users ==
        if c in memberships then (old(channels[c].users) - {oldNick})[nick := memberships[c]]
        else old(channels[c].users))
    {
      var todo := memberships.Keys;
      while todo != {}
        invariant todo <= memberships.Keys
        invariant forall c :: c in channels ==> (channels[c].users ==
          if c in memberships && c !in todo then (old(channels[c].users) - {oldNick})[nick := memberships[c]]
          else old(channels[c].users))
        decreases todo
      {
        var c :| c in todo;
        var m := memberships[c];
        m.channel.users := (m.channel.users - {oldNick})[nick := m];
        todo := todo - {c};
      }
    }
  }
}
