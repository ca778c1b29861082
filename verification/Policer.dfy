/** The leaky bucket of policer.c, with reals for its doubles. */
module Policer {

  /** A request; the creation of the policer counts as one without weight. */
  datatype Request = Request(time: int, weight: real)

  function Weight(s: seq<Request>): real {
    if s == [] then 0.0 else Weight(s[..|s| - 1]) + s[|s| - 1].weight
  }

  /** What the requests from `i` on have left in the bucket at `time`, had it been empty before. */
  function Left(s: seq<Request>, i: nat, time: int, drain: real): real
    requires i < |s|
  {
    Weight(s[i..]) - drain * ((time - s[i].time) as real)
  }

  lemma LeftSnoc(s: seq<Request>, r: Request, i: nat, drain: real)
    requires i < |s|
    ensures Left(s + [r], i, r.time, drain) == Left(s, i, r.time, drain) + r.weight
  {
    assert (s + [r])[i..] == s[i..] + [r];
    assert (s[i..] + [r])[..|s| - i] == s[i..];
  }

  lemma LeftLast(s: seq<Request>, r: Request, drain: real)
    ensures Left(s + [r], |s|, r.time, drain) == r.weight
  {
    assert (s + [r])[|s|..] == [r];
    assert [r][..0] == [];
    assert Weight([r]) == 0.0 + r.weight;
    assert (r.time - r.time) as real == 0.0;
  }

  lemma LeftLater(s: seq<Request>, i: nat, time: int, later: int, drain: real)
    requires i < |s|
    ensures Left(s, i, later, drain) == Left(s, i, time, drain) - drain * ((later - time) as real)
  {
    assert (later - s[i].time) as real == (time - s[i].time) as real + (later - time) as real;
  }

  /** `level` is the most that any stretch of requests has left. */
  ghost predicate IsLevel(s: seq<Request>, level: real, time: int, drain: real) {
    && (forall i :: 0 <= i < |s| ==> Left(s, i, time, drain) <= level)
    && (exists i :: 0 <= i < |s| && Left(s, i, time, drain) == level)
  }

  lemma LevelDrains(s: seq<Request>, level: real, time: int, later: int, drain: real)
    requires IsLevel(s, level, time, drain)
    ensures IsLevel(s, level - drain * ((later - time) as real), later, drain)
  {
    hide Left;
    forall i | 0 <= i < |s| ensures Left(s, i, later, drain) == Left(s, i, time, drain) - drain * ((later - time) as real) {
      LeftLater(s, i, time, later, drain);
    }
    var i :| 0 <= i < |s| && Left(s, i, time, drain) == level;
    LeftLater(s, i, time, later, drain);
  }

  lemma LevelRises(s: seq<Request>, level: real, r: Request, drain: real)
    requires IsLevel(s, level, r.time, drain)
    ensures IsLevel(s + [r], (if level < 0.0 then 0.0 else level) + r.weight, r.time, drain)
  {
    hide Left;
    var t := s + [r];
    forall i | 0 <= i < |s| ensures Left(t, i, r.time, drain) == Left(s, i, r.time, drain) + r.weight {
      LeftSnoc(s, r, i, drain);
    }
    LeftLast(s, r, drain);
    if level >= 0.0 {
      var i :| 0 <= i < |s| && Left(s, i, r.time, drain) == level;
      LeftSnoc(s, r, i, drain);
      assert Left(t, i, r.time, drain) == level + r.weight;
    } else {
      assert Left(t, |s|, r.time, drain) == 0.0 + r.weight;
    }
  }

  /** At `time`, every stretch of the requests so far has left less than the bucket holds. */
  ghost predicate HasRoom(s: seq<Request>, time: int, bucket: real, drain: real) {
    0.0 < bucket && forall i :: 0 <= i < |s| ==> Weight(s[i..]) < bucket + drain * ((time - s[i].time) as real)
  }

  lemma LevelHasRoom(s: seq<Request>, level: real, time: int, bucket: real, drain: real)
    requires IsLevel(s, level, time, drain)
    ensures (if level < 0.0 then 0.0 else level) < bucket <==> HasRoom(s, time, bucket, drain)
  {
    forall i | 0 <= i < |s|
      ensures Left(s, i, time, drain) < bucket <==> Weight(s[i..]) < bucket + drain * ((time - s[i].time) as real) {
    }
  }

  function Outflow(drain: real, seconds: int): real {
    drain * (seconds as real)
  }

  /** The level after `seconds` of draining. */
  function Drained(level: real, drain: real, seconds: int): real {
    var l := level - Outflow(drain, seconds);
    if l < 0.0 then 0.0 else l
  }

  lemma RequestComes(s: seq<Request>, level: real, time: int, r: Request, bucket: real, drain: real)
    requires IsLevel(s, level, time, drain)
    ensures var now := Drained(level, drain, r.time - time);
      && (now < bucket <==> HasRoom(s, r.time, bucket, drain))
      && IsLevel(s + [r], now + r.weight, r.time, drain)
  {
    LevelDrains(s, level, time, r.time, drain);
    var l := level - drain * ((r.time - time) as real);
    LevelHasRoom(s, l, r.time, bucket, drain);
    LevelRises(s, l, r, drain);
    hide IsLevel, HasRoom;
  }

  /** Which requests conformed: those that found room. */
  ghost predicate History(s: seq<Request>, conformed: seq<bool>, bucket: real, drain: real) {
    && |s| == |conformed| > 0 && !conformed[0]
    && forall j :: 0 < j < |s| ==> (conformed[j] <==> HasRoom(s[..j], s[j].time, bucket, drain))
  }

  lemma HistoryGrows(s: seq<Request>, conformed: seq<bool>, r: Request, c: bool, bucket: real, drain: real)
    requires History(s, conformed, bucket, drain) && (c <==> HasRoom(s, r.time, bucket, drain))
    ensures History(s + [r], conformed + [c], bucket, drain)
  {
    hide HasRoom;
    var t := s + [r];
    forall j | 0 < j < |t| ensures (conformed + [c])[j] <==> HasRoom(t[..j], t[j].time, bucket, drain) {
      assert t[..j] == s[..j];
      assert j == |s| ==> s[..j] == s;
    }
  }

  class PolicerState {
    const bucketSize: real
    const drainRate: real
    var level: real
    var lastReq: int
    ghost var requests: seq<Request>
    ghost var conformed: seq<bool>

    ghost predicate Valid()
      reads this
    {
      IsLevel(requests, level, lastReq, drainRate) && History(requests, conformed, bucketSize, drainRate)
    }

    /** `policer_create`. */
    constructor (bucketSize: real, drainRate: real, now: int)
      ensures Valid() && this.bucketSize == bucketSize && this.drainRate == drainRate
      ensures requests == [Request(now, 0.0)] && conformed == [false]
    {
      this.bucketSize, this.drainRate, level, lastReq := bucketSize, drainRate, 0.0, now;
      requests, conformed := [Request(now, 0.0)], [false];
      new;
      LeftLast([], Request(now, 0.0), drainRate);
      assert [] + [Request(now, 0.0)] == [Request(now, 0.0)];
      assert Left(requests, 0, now, drainRate) == 0.0;
    }

    /** `policer_conforms`: a request conforms exactly if every stretch of the requests before it,
        whether they conformed or not, has left room in the bucket. */
    method Conforms(reqTime: int, weight: real) returns (ret: bool)
      requires Valid()
      modifies this
      ensures Valid() && requests == old(requests) + [Request(reqTime, weight)] && conformed == old(conformed) + [ret]
      ensures ret <==> HasRoom(old(requests), reqTime, bucketSize, drainRate)
    {
      hide *;
      KeptIff();
      ghost var r := Request(reqTime, weight);
      RequestComes(requests, level, lastReq, r, bucketSize, drainRate);
      ret := Admit(reqTime, weight);
      HistoryGrows(requests, conformed, r, ret, bucketSize, drainRate);
      requests, conformed := requests + [r], conformed + [ret];
      KeptIff();
    }

    /** What the source does. */
    method Admit(reqTime: int, weight: real) returns (ret: bool)
      modifies this`level, this`lastReq
      ensures var now := Drained(old(level), drainRate, reqTime - old(lastReq));
        (ret <==> now < bucketSize) && level == now + weight && lastReq == reqTime
    {
      hide Outflow;
      level := level - Outflow(drainRate, reqTime - lastReq);
      if level < 0.0 {
        level := 0.0;
      }
      ret := level < bucketSize;
      level := level + weight;
      lastReq := reqTime;
    }

    lemma KeptIff()
      ensures Valid() <==>
        IsLevel(requests, level, lastReq, drainRate) && History(requests, conformed, bucketSize, drainRate)
    {
    }
  }

  // ----- the bound -----

  /** The requests from `i` up to a conforming one weigh less than the bucket, what drains in
      between and the last of them. */
  lemma {:induction false} Window(s: seq<Request>, r: Request, i: nat, bucket: real, drain: real)
    requires i <= |s| && HasRoom(s, r.time, bucket, drain)
    ensures Weight((s + [r])[i..]) < bucket + Outflow(drain, r.time - (s + [r])[i].time) + r.weight
  {
    assert (s + [r])[i..] == s[i..] + [r];
    assert (s[i..] + [r])[..|s| - i] == s[i..];
  }

  /** The weight of the conforming requests from `i` to before `j`. */
  function Conforming(s: seq<Request>, conformed: seq<bool>, i: nat, j: nat): real
    requires i <= j <= |s| == |conformed|
  {
    if i == j then 0.0
    else Conforming(s, conformed, i, j - 1) + if conformed[j - 1] then s[j - 1].weight else 0.0
  }

  lemma {:induction false} ConformingAtMost(s: seq<Request>, conformed: seq<bool>, i: nat, j: nat)
    requires i <= j <= |s| == |conformed| && forall k :: 0 <= k < |s| ==> s[k].weight >= 0.0
    ensures Conforming(s, conformed, i, j) <= Weight(s[i..j])
  {
    if i < j {
      ConformingAtMost(s, conformed, i, j - 1);
      assert s[i..j][..j - i - 1] == s[i..j - 1];
    }
  }

  lemma MoreFlows(drain: real, seconds: int, span: int)
    requires 0.0 <= drain && seconds <= span
    ensures Outflow(drain, seconds) <= Outflow(drain, span)
  {
    var more := (span - seconds) as real;
    assert span as real == seconds as real + more;
    assert drain * more >= 0.0;
  }

  /** Over every run: the conforming requests of any stretch of `span` seconds weigh less than the
      bucket, what drains in that time, and the largest of them; a stretch without one weighs nothing. */
  lemma {:induction false} ConformingWindow(s: seq<Request>, conformed: seq<bool>, i: nat, j: nat, span: int,
                                            largest: real, bucket: real, drain: real)
    requires History(s, conformed, bucket, drain) && i < j <= |s| && 0.0 <= drain
    requires forall k :: 0 <= k < |s| ==> s[k].weight >= 0.0
    requires forall k :: i <= k < j && conformed[k] ==> s[k].time - s[i].time <= span && s[k].weight <= largest
    ensures if exists k :: i <= k < j && conformed[k]
      then Conforming(s, conformed, i, j) < bucket + Outflow(drain, span) + largest
      else Conforming(s, conformed, i, j) == 0.0
    decreases j
  {
    hide HasRoom, Outflow;
    if conformed[j - 1] {
      var r := s[j - 1];
      assert s[..j - 1] + [r] == s[..j];
      Window(s[..j - 1], r, i, bucket, drain);
      assert s[..j][i..] == s[i..j];
      ConformingAtMost(s, conformed, i, j);
      MoreFlows(drain, r.time - s[i].time, span);
    } else if i < j - 1 {
      ConformingWindow(s, conformed, i, j - 1, span, largest, bucket, drain);
      assert forall k :: i <= k < j && conformed[k] ==> k < j - 1;
    }
  }
}
