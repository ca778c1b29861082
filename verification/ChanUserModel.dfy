/** What the lines of chanuser_irc.c do to the tracked channels and users, and what holds over every
    run of lines: the membership relation, the burst counter, and the order of deferred lines. */
module ChanUserModel {

  /** Nicks and channel names; the dicts ignore letter case, so a name stands for all its spellings. */
  type Name = string

  datatype Burst = Names | Modes | Bans | Who | Finished {
    function Rank(): nat {
      match this
      case Names => 0
      case Modes => 1
      case Bans => 2
      case Who => 3
      case Finished => 4
    }
  }

  datatype Flags = Flags(op: bool, voice: bool)

  const PLAIN := Flags(false, false)

  datatype ModeChange = ModeChange(add: bool, op: bool, nick: Name)

  /** The server lines that matter here. */
  datatype Line =
    | Join(nick: Name, chan: Name)
    | Part(nick: Name, chan: Name)
    | Kick(chan: Name, victim: Name)
    | Nick(nick: Name, to: Name)
    | Quit(nick: Name)
    | Mode(chan: Name, changes: seq<ModeChange>)
    | Topic(chan: Name)
    | NameReply(chan: Name, names: seq<(Name, Flags)>)
    | EndOfNames(chan: Name)
    | ChannelModeIs(chan: Name, changes: seq<ModeChange>)
    | EndOfBanList(chan: Name)
    | EndOfWho(chan: Name)

  /** Who is on which channel. */
  datatype Slot = Slot(chan: Name, nick: Name)

  /** `log` holds the lines whose handler went through, in that order; deferred lines wait in `queues`. */
  datatype State = State(
    bot: Name,
    nicks: set<Name>,
    members: map<Slot, Flags>,
    bursts: map<Name, Burst>,
    queues: map<Name, seq<Line>>,
    count: int,
    log: seq<Line>
  )

  // ----- single changes -----

  /** `n` is on a channel other than `c`. */
  predicate Elsewhere<V>(members: map<Slot, V>, n: Name, c: Name) {
    exists k :: k in members && k.nick == n && k.chan != c
  }

  predicate Somewhere<V>(members: map<Slot, V>, n: Name) {
    exists k :: k in members && k.nick == n
  }

  function WithoutUser<V>(members: map<Slot, V>, n: Name): map<Slot, V> {
    map k | k in members && k.nick != n :: members[k]
  }

  function WithoutChannel<V>(members: map<Slot, V>, c: Name): map<Slot, V> {
    map k | k in members && k.chan != c :: members[k]
  }

  function Renamed<V>(members: map<Slot, V>, n: Name, to: Name): map<Slot, V> {
    (map k | k in members && k.nick != n :: members[k])
    + (map k | k in members && k.nick == n :: Slot(k.chan, to) := members[k])
  }

  /** The users left when channel `c` goes: those who were not on it, or also on another one. */
  function Staying<V>(nicks: set<Name>, members: map<Slot, V>, c: Name): set<Name> {
    set n | n in nicks && (Slot(c, n) !in members || Elsewhere(members, n, c))
  }

  function DropUser(st: State, n: Name): State {
    st.(nicks := st.nicks - {n}, members := WithoutUser(st.members, n))
  }

  function DropChannel(st: State, c: Name): State {
    st.(nicks := Staying(st.nicks, st.members, c), members := WithoutChannel(st.members, c),
        bursts := st.bursts - {c}, queues := st.queues - {c})
  }

  /** A channel that is tracked already is deleted first; its burst stays counted. */
  function AddChannel(st: State, c: Name): State {
    var st := if c in st.bursts then DropChannel(st, c) else st;
    st.(bursts := st.bursts[c := Names], queues := st.queues[c := []], count := st.count + 1)
  }

  function Enter(st: State, c: Name, n: Name, flags: Flags): State {
    st.(nicks := st.nicks + {n}, members := st.members[Slot(c, n) := flags])
  }

  function EnterAll(st: State, c: Name, names: seq<(Name, Flags)>): State {
    if names == [] then st
    else
      var last := names[|names| - 1];
      Enter(EnterAll(st, c, names[..|names| - 1]), c, last.0, last.1)
  }

  /** With `checkDead`, a user that is on no channel any more is forgotten. */
  function Leave(st: State, c: Name, n: Name, checkDead: bool): State {
    if Slot(c, n) !in st.members then st
    else
      var members := st.members - {Slot(c, n)};
      st.(members := members, nicks := if checkDead && !Somewhere(members, n) then st.nicks - {n} else st.nicks)
  }

  function Rename(st: State, n: Name, to: Name): State {
    st.(nicks := st.nicks - {n} + {to}, members := Renamed(st.members, n, to))
  }

  function Changed(flags: Flags, change: ModeChange): Flags {
    if change.op then flags.(op := change.add) else flags.(voice := change.add)
  }

  function SetMode(st: State, c: Name, change: ModeChange): State {
    var slot := Slot(c, change.nick);
    if slot in st.members then st.(members := st.members[slot := Changed(st.members[slot], change)]) else st
  }

  function SetModes(st: State, c: Name, changes: seq<ModeChange>): State {
    if changes == [] then st
    else SetMode(SetModes(st, c, changes[..|changes| - 1]), c, changes[|changes| - 1])
  }

  /** The reply that ends burst stage `at` moves on to the next one. */
  function Advance(st: State, c: Name, at: Burst, next: Burst): State {
    if c in st.bursts && st.bursts[c] == at then st.(bursts := st.bursts[c := next]) else st
  }

  // ----- lines -----

  /** The lines about channel `c` that its burst holds back. */
  predicate Holdable(line: Line, c: Name) {
    (line.Join? || line.Part? || line.Kick? || line.Mode? || line.Topic?) && line.chan == c
  }

  predicate Deferred(st: State, line: Line) {
    && (line.Join? || line.Part? || line.Kick? || line.Mode? || line.Topic?)
    && line.chan in st.bursts && st.bursts[line.chan] != Finished
    && !(line.Join? && line.nick == st.bot)
  }

  function Defer(st: State, line: Line): State
    requires Deferred(st, line)
  {
    var queue := if line.chan in st.queues then st.queues[line.chan] else [];
    st.(queues := st.queues[line.chan := queue + [line]])
  }

  /** What a line does that is not held back. */
  function Effect(st: State, line: Line): State {
    match line
    case Join(n, c) =>
      if n == st.bot then Enter(AddChannel(st, c), c, n, PLAIN)
      else if c in st.bursts then Enter(st, c, n, PLAIN)
      else st
    case Part(n, c) =>
      if c !in st.bursts || n !in st.nicks then st
      else if n == st.bot then DropChannel(Leave(st, c, n, false), c)
      else Leave(st, c, n, true)
    case Kick(c, victim) =>
      if c !in st.bursts || victim !in st.nicks then st
      else if victim == st.bot then DropChannel(st, c)
      else Leave(st, c, victim, true)
    case Nick(n, to) =>
      if n !in st.nicks then st
      else Rename(st.(bot := if n == st.bot then to else st.bot), n, to)
    case Quit(n) => if n in st.nicks then DropUser(st, n) else st
    case Mode(c, changes) => if c in st.bursts then SetModes(st, c, changes) else st
    case Topic(c) => st
    case NameReply(c, names) => if c in st.bursts then EnterAll(st, c, names) else st
    case EndOfNames(c) => Advance(st, c, Names, Modes)
    case ChannelModeIs(c, changes) =>
      if c in st.bursts then Advance(SetModes(st, c, changes), c, Modes, Bans) else st
    case EndOfBanList(c) => Advance(st, c, Bans, Who)
    case EndOfWho(c) => st
  }

  function Logged(st: State, line: Line): State {
    st.(log := st.log + [line])
  }

  /** One line, except that the end of a burst is not replayed here. */
  function Step(st: State, line: Line): State {
    if Deferred(st, line) then Defer(st, line)
    else Logged(Effect(st, line), line)
  }

  /** The queue of `c` can be replayed from `i` on. */
  predicate Replayable(st: State, c: Name, i: nat) {
    st.queues.Keys == st.bursts.Keys && (c in st.bursts && i < |st.queues[c]| ==> st.bursts[c] == Finished)
  }

  lemma StepReplayable(st: State, c: Name, i: nat)
    requires Replayable(st, c, i) && c in st.queues && i < |st.queues[c]|
    ensures var next := Step(st, st.queues[c][i]);
      && Replayable(next, c, i + 1)
      && (c in next.queues ==> next.queues[c] == st.queues[c] || next.queues[c] == [])
  {
    StepShape(st, st.queues[c][i]);
  }

  /** The waiting lines of `c` from `i` on, as long as there is a channel to wait for. */
  function Replay(st: State, c: Name, i: nat): State
    requires Replayable(st, c, i)
    decreases if c in st.queues && i < |st.queues[c]| then |st.queues[c]| - i else 0
  {
    if c in st.queues && i < |st.queues[c]| then
      StepReplayable(st, c, i);
      Replay(Step(st, st.queues[c][i]), c, i + 1)
    else st
  }

  function Finish(st: State, c: Name): State {
    st.(bursts := st.bursts[c := Finished], count := st.count - 1, log := st.log + [EndOfWho(c)])
  }

  function Emptied(st: State, c: Name): State {
    if c in st.bursts then st.(queues := st.queues[c := []]) else st
  }

  predicate EndsBurst(st: State, line: Line) {
    line.EndOfWho? && line.chan in st.bursts && st.bursts[line.chan] == Who
  }

  function Handle(st: State, line: Line): State
    requires st.queues.Keys == st.bursts.Keys
  {
    if EndsBurst(st, line) then Emptied(Replay(Finish(st, line.chan), line.chan, 0), line.chan)
    else Step(st, line)
  }

  // ----- shapes -----

  lemma {:induction false} SetModesShape(st: State, c: Name, changes: seq<ModeChange>)
    ensures SetModes(st, c, changes).members.Keys == st.members.Keys
    ensures SetModes(st, c, changes) == st.(members := SetModes(st, c, changes).members)
  {
    if changes != [] {
      SetModesShape(st, c, changes[..|changes| - 1]);
    }
  }

  lemma {:induction false} EnterAllShape(st: State, c: Name, names: seq<(Name, Flags)>)
    ensures var now := EnterAll(st, c, names);
      now == st.(members := now.members, nicks := now.nicks)
  {
    if names != [] {
      EnterAllShape(st, c, names[..|names| - 1]);
    }
  }

  predicate OwnJoin(st: State, line: Line) {
    line.Join? && line.nick == st.bot
  }

  /** The bot itself leaves the channel. */
  predicate OwnLeave(st: State, line: Line) {
    && (line.Part? || line.Kick?) && line.chan in st.bursts && st.bot in st.nicks
    && (if line.Part? then line.nick else line.victim) == st.bot
  }

  predicate StageReply(line: Line) {
    line.EndOfNames? || line.ChannelModeIs? || line.EndOfBanList?
  }

  function NextStage(burst: Burst, line: Line): Burst
    requires StageReply(line)
  {
    if line.EndOfNames? && burst == Names then Modes
    else if line.ChannelModeIs? && burst == Modes then Bans
    else if line.EndOfBanList? && burst == Bans then Who
    else burst
  }

  predicate SameBursts(st: State, now: State) {
    now.bursts == st.bursts && now.queues == st.queues && now.count == st.count
  }

  /** What a line that is not held back does to bursts, queues and counter. */
  ghost predicate EffectOnBursts(st: State, line: Line, now: State) {
    now.log == st.log &&
    if OwnJoin(st, line) then
      && now.bursts == st.bursts[line.chan := Names] && now.queues == st.queues[line.chan := []]
      && now.count == st.count + 1
    else if OwnLeave(st, line) then
      && now.bursts == st.bursts - {line.chan} && now.queues == st.queues - {line.chan}
      && now.count == st.count
    else if StageReply(line) && line.chan in st.bursts then
      && now.bursts == st.bursts[line.chan := NextStage(st.bursts[line.chan], line)]
      && now.queues == st.queues && now.count == st.count
    else SameBursts(st, now)
  }

  lemma EffectBursts(st: State, line: Line)
    ensures EffectOnBursts(st, line, Effect(st, line))
  {
    hide Staying, Renamed, WithoutUser, WithoutChannel, Somewhere;
    if line.Mode? || line.ChannelModeIs? {
      SetModesShape(st, line.chan, line.changes);
    } else if line.NameReply? {
      EnterAllShape(st, line.chan, line.names);
    }
  }

  /** A line touches no queue and no burst but those of its own channel. */
  lemma StepShape(st: State, line: Line)
    requires st.queues.Keys == st.bursts.Keys
    ensures var now := Step(st, line);
      && now.queues.Keys == now.bursts.Keys
      && forall c :: c in now.queues ==>
          || (c in st.queues && now.queues[c] == st.queues[c]
              && st.bursts[c].Rank() <= now.bursts[c].Rank() <= st.bursts[c].Rank() + 1)
          || (now.queues[c] == [] && now.bursts[c] == Names && line == Join(st.bot, c))
          || (Deferred(st, line) && line.chan == c && now.bursts[c] == st.bursts[c]
              && now.queues[c] == st.queues[c] + [line])
  {
    hide Effect;
    EffectBursts(st, line);
  }
}
