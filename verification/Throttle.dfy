/** The flood protection of irc.c: how much goes out in any stretch of time. */
module Throttle {

  datatype Sent = Sent(time: int, line: string)

  /** The seconds a line counts for. */
  function Penalty(line: string): (p: int)
    ensures p >= 2
  {
    2 + |line| / 120
  }

  /** Two seconds, and one more for every 120 characters. */
  lemma PenaltyIs(line: string, p: int)
    ensures Penalty(line) == p <==> 120 * (p - 2) <= |line| < 120 * (p - 1)
  {
  }

  function Total(s: seq<Sent>): int {
    if s == [] then 0 else Total(s[..|s| - 1]) + Penalty(s[|s| - 1].line)
  }

  function Texts(s: seq<Sent>): seq<string> {
    if s == [] then [] else Texts(s[..|s| - 1]) + [s[|s| - 1].line]
  }

  lemma TotalSnoc(s: seq<Sent>, e: Sent)
    ensures Total(s + [e]) == Total(s) + Penalty(e.line) && Texts(s + [e]) == Texts(s) + [e.line]
  {
    assert (s + [e])[..|s|] == s;
  }

  lemma TotalFrom(s: seq<Sent>, e: Sent, i: nat)
    requires i <= |s|
    ensures Total((s + [e])[i..]) == Total(s[i..]) + Penalty(e.line)
  {
    assert (s + [e])[i..] == s[i..] + [e];
    TotalSnoc(s[i..], e);
  }

  lemma TotalNone(s: seq<Sent>)
    ensures Total(s[|s|..]) == 0
  {
  }

  /** What was sent since line `i` went out, and the time since then, keep `lastMsg` up. */
  ghost predicate Kept(s: seq<Sent>, lastMsg: int, clock: int) {
    && clock <= lastMsg
    && (forall i :: 0 <= i < |s| ==> s[i].time <= clock && s[i].time + Total(s[i..]) <= lastMsg)
    && (lastMsg == clock || exists i :: 0 <= i < |s| && s[i].time + Total(s[i..]) == lastMsg)
  }

  /** From any line to any later one, less than ten seconds' worth more than the time between them
      went out, the last line not counted. */
  ghost predicate Bounded(s: seq<Sent>) {
    forall i, j :: 0 <= i <= j < |s| ==>
      s[i].time <= s[j].time && Total(s[i..j + 1]) < s[j].time - s[i].time + 10 + Penalty(s[j].line)
  }

  /** Some stretch up to `now` has ten seconds' worth more than its duration. */
  ghost predicate Full(s: seq<Sent>, now: int) {
    exists i :: 0 <= i < |s| && Total(s[i..]) >= now - s[i].time + 10
  }

  lemma KeptSend(s: seq<Sent>, lastMsg: int, now: int, line: string)
    requires Kept(s, lastMsg, now)
    ensures Kept(s + [Sent(now, line)], lastMsg + Penalty(line), now)
  {
    hide Total, Penalty;
    var e := Sent(now, line);
    var t := s + [e];
    forall i | 0 <= i < |t| ensures t[i].time + Total(t[i..]) <= lastMsg + Penalty(line)
      ensures i == |s| ==> t[i].time + Total(t[i..]) == now + Penalty(line) {
      TotalFrom(s, e, i);
      TotalNone(s);
    }
    if lastMsg == now {
      assert t[|s|].time + Total(t[|s|..]) == lastMsg + Penalty(line);
    } else {
      var i :| 0 <= i < |s| && s[i].time + Total(s[i..]) == lastMsg;
      TotalFrom(s, e, i);
      assert t[i].time + Total(t[i..]) == lastMsg + Penalty(line);
    }
  }

  lemma BoundedSend(s: seq<Sent>, lastMsg: int, now: int, line: string)
    requires Kept(s, lastMsg, now) && Bounded(s) && lastMsg - now < 10
    ensures Bounded(s + [Sent(now, line)])
  {
    hide Total, Penalty;
    var e := Sent(now, line);
    var t := s + [e];
    forall i, j | 0 <= i <= j < |t|
      ensures t[i].time <= t[j].time && Total(t[i..j + 1]) < t[j].time - t[i].time + 10 + Penalty(t[j].line)
    {
      if j < |s| {
        assert t[i..j + 1] == s[i..j + 1] && t[i] == s[i] && t[j] == s[j];
      } else {
        assert t[i..j + 1] == t[i..];
        TotalFrom(s, e, i);
        if i == |s| {
          TotalNone(s);
        }
      }
    }
  }

  /** The bound for the lines of any `span` seconds: less than `span` + 10 + the largest penalty. */
  lemma Window(s: seq<Sent>, i: nat, j: nat, span: int, largest: int)
    requires Bounded(s) && i <= j < |s| && s[j].time - s[i].time <= span
    requires forall k :: i <= k <= j ==> Penalty(s[k].line) <= largest
    ensures Total(s[i..j + 1]) < span + 10 + largest
  {
  }

  class SendQueue {
    var sendq: seq<string>
    var lastMsg: int
    /** The lines handed to the socket, and all that were put into the queue. */
    ghost var sent: seq<Sent>
    ghost var queued: seq<string>
    ghost var clock: int

    ghost predicate Valid()
      reads this
    {
      queued == Texts(sent) + sendq && Kept(sent, lastMsg, clock) && Bounded(sent)
    }

    /** A new connection. */
    constructor (now: int)
      ensures Valid() && sent == [] && queued == [] && clock == now
    {
      sendq, lastMsg, sent, queued, clock := [], now, [], [], now;
    }

    /** `irc_send`. */
    method Send(line: string)
      requires Valid()
      modifies this
      ensures Valid() && sent == old(sent) && queued == old(queued) + [line] && clock == old(clock)
    {
      hide Kept, Bounded, Texts;
      sendq := sendq + [line];
      queued := queued + [line];
      assert queued == Texts(sent) + sendq;
    }

    /** The allowance is not saved up while nothing is sent. */
    method Tick(now: int)
      requires Valid() && clock <= now
      modifies this`lastMsg, this`clock
      ensures Valid() && clock == now
    {
      KeptPoll(sent, lastMsg, clock, now);
      hide *;
      if now > lastMsg {
        lastMsg := now;
      }
      clock := now;
      Ticked(now);
    }

    lemma Ticked(now: int)
      requires queued == Texts(sent) + sendq && Kept(sent, lastMsg, now) && Bounded(sent) && clock == now
      ensures Valid()
    {
    }

    /** `irc_poll_sendq` with a connection: lines leave in order, and the next one has to wait only if
        some stretch up to now has its full measure already. */
    method Poll(now: int)
      requires Valid() && clock <= now
      modifies this
      ensures Valid() && clock == now && queued == old(queued) && old(sent) <= sent
      ensures forall k :: |old(sent)| <= k < |sent| ==> sent[k].time == now
      ensures sendq == [] || Full(sent, now)
    {
      hide Valid, Full;
      Tick(now);
      while |sendq| > 0 && lastMsg - now < 10
        invariant Valid() && clock == now && queued == old(queued) && old(sent) <= sent
        invariant forall k :: |old(sent)| <= k < |sent| ==> sent[k].time == now
        decreases |sendq|
      {
        SendFirst();
      }
      FullNow();
    }

    lemma FullNow()
      requires Valid()
      ensures lastMsg - clock >= 10 ==> Full(sent, clock)
    {
      hide Total;
    }

    /** The first line of the queue leaves. */
    method SendFirst()
      requires Valid() && |sendq| > 0 && lastMsg - clock < 10
      modifies this`sendq, this`sent, this`lastMsg
      ensures Valid() && sendq == old(sendq[1..]) && sent == old(sent) + [Sent(clock, old(sendq[0]))]
    {
      hide Total, Kept, Bounded, Texts, Penalty;
      var line := sendq[0];
      KeptSend(sent, lastMsg, clock, line);
      BoundedSend(sent, lastMsg, clock, line);
      TotalSnoc(sent, Sent(clock, line));
      assert Texts(sent) + sendq == Texts(sent) + [line] + sendq[1..];
      sendq := sendq[1..];
      sent := sent + [Sent(clock, line)];
      lastMsg := lastMsg + Penalty(line);
    }
  }

  lemma KeptPoll(s: seq<Sent>, lastMsg: int, clock: int, now: int)
    requires Kept(s, lastMsg, clock) && clock <= now
    ensures Kept(s, if now > lastMsg then now else lastMsg, now)
  {
    hide Total;
  }
}
