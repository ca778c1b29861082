/** What the lines of a byte stream are, and that cutting the stream into reads does not matter. */
module Framing {

  /** The delimiter characters; the terminating zero is never one. */
  type Delims = d: set<char> | '\0' !in d witness {}

  predicate Free(s: string, d: Delims) {
    forall i :: 0 <= i < |s| ==> s[i] !in d
  }

  predicate Only(s: string, d: Delims) {
    forall i :: 0 <= i < |s| ==> s[i] in d
  }

  /** Where the part behind the last delimiter begins. */
  function Start(s: string, d: Delims): (p: nat)
    ensures p <= |s| && (p > 0 ==> s[p - 1] in d)
    ensures forall i :: p <= i < |s| ==> s[i] !in d
  {
    if s == [] || s[|s| - 1] in d then |s| else Start(s[..|s| - 1], d)
  }

  function Rest(s: string, d: Delims): string {
    s[Start(s, d)..]
  }

  /** The bounds of the lines. */
  function Cuts(s: string, d: Delims): seq<(nat, nat)> {
    if s == [] then []
    else
      var n := |s| - 1; var p := Start(s[..n], d);
      Cuts(s[..n], d) + if s[n] in d && p < n then [(p, n)] else []
  }

  function Lines(s: string, d: Delims): seq<string> {
    if s == [] then []
    else
      var n := |s| - 1; var r := Rest(s[..n], d);
      Lines(s[..n], d) + if s[n] in d && r != [] then [r] else []
  }

  /** A maximal non-empty part without delimiters that is followed by one. */
  predicate IsLine(s: string, d: Delims, lo: nat, hi: nat) {
    && lo < hi < |s| && (forall i :: lo <= i < hi ==> s[i] !in d)
    && s[hi] in d && (lo == 0 || s[lo - 1] in d)
  }

  lemma LastLine(s: string, d: Delims, lo: nat)
    requires s != []
    ensures IsLine(s, d, lo, |s| - 1) <==> s[|s| - 1] in d && lo == Start(s[..|s| - 1], d) < |s| - 1
  {
    var t := s[..|s| - 1];
    var p := Start(t, d);
    assert p > 0 ==> t[p - 1] == s[p - 1];
    assert 0 < lo <= |t| ==> t[lo - 1] == s[lo - 1];
  }

  lemma EarlierLine(s: string, d: Delims, lo: nat, hi: nat)
    requires s != [] && hi < |s| - 1
    ensures IsLine(s, d, lo, hi) <==> IsLine(s[..|s| - 1], d, lo, hi)
  {
  }

  /** `Cuts` lists the bounds of all lines, and of nothing else, from left to right. */
  lemma {:induction false} CutsExact(s: string, d: Delims)
    ensures forall lo: nat, hi: nat :: IsLine(s, d, lo, hi) <==> (lo, hi) in Cuts(s, d)
    ensures forall k :: 0 <= k < |Cuts(s, d)| ==> Cuts(s, d)[k].0 < Cuts(s, d)[k].1 < |s|
    ensures forall k :: 0 < k < |Cuts(s, d)| ==> Cuts(s, d)[k - 1].1 < Cuts(s, d)[k].0
  {
    if s != [] {
      var n := |s| - 1;
      var t := s[..n];
      CutsExact(t, d);
      forall lo: nat, hi: nat ensures IsLine(s, d, lo, hi) <==> (lo, hi) in Cuts(s, d) {
        if hi < n {
          EarlierLine(s, d, lo, hi);
        } else {
          LastLine(s, d, lo);
        }
      }
      if Start(t, d) < n {
        CutsSorted(Cuts(t, d), Start(t, d), n, t, d);
      }
    }
  }

  lemma CutsSorted(cuts: seq<(nat, nat)>, p: nat, n: nat, t: string, d: Delims)
    requires p == Start(t, d) < n == |t|
    requires forall k :: 0 <= k < |cuts| ==> cuts[k].0 < cuts[k].1 < n
    requires forall lo: nat, hi: nat :: IsLine(t, d, lo, hi) <==> (lo, hi) in cuts
    ensures cuts != [] ==> cuts[|cuts| - 1].1 < p
  {
    if cuts != [] {
      var last := cuts[|cuts| - 1];
      assert (last.0, last.1) in cuts;
      assert IsLine(t, d, last.0, last.1);
    }
  }

  /** `Lines` are the texts of the lines. */
  lemma {:induction false} LinesAreCuts(s: string, d: Delims)
    ensures |Lines(s, d)| == |Cuts(s, d)|
    ensures forall k :: 0 <= k < |Cuts(s, d)| ==>
      0 <= Cuts(s, d)[k].0 <= Cuts(s, d)[k].1 <= |s| && Lines(s, d)[k] == s[Cuts(s, d)[k].0..Cuts(s, d)[k].1]
  {
    if s != [] {
      var n := |s| - 1;
      LinesAreCuts(s[..n], d);
    }
  }

  // ----- cutting -----

  lemma Snoc(s: string, c: char, d: Delims)
    ensures Rest(s + [c], d) == if c in d then [] else Rest(s, d) + [c]
    ensures Lines(s + [c], d) == Lines(s, d) + if c in d && Rest(s, d) != [] then [Rest(s, d)] else []
  {
    assert (s + [c])[..|s|] == s;
  }

  lemma Split(s: string)
    requires s != []
    ensures s == s[..|s| - 1] + [s[|s| - 1]]
  {
  }

  /** Of the stream so far, only the rest matters for what comes. */
  lemma {:induction false} LinesAppend(s: string, c: string, d: Delims)
    ensures Rest(s + c, d) == Rest(Rest(s, d) + c, d)
    ensures Lines(s + c, d) == Lines(s, d) + Lines(Rest(s, d) + c, d)
  {
    hide Rest, Lines;
    if c == [] {
      assert s + c == s && Rest(s, d) + c == Rest(s, d);
      RestFree(s, d);
      FreeRest(Rest(s, d), d);
    } else {
      var t, x := c[..|c| - 1], c[|c| - 1];
      LinesAppend(s, t, d);
      Split(c);
      Snoc(s + t, x, d);
      Snoc(Rest(s, d) + t, x, d);
      assert s + c == s + t + [x];
      assert Rest(s, d) + c == Rest(s, d) + t + [x];
    }
  }

  lemma RestFree(s: string, d: Delims)
    ensures Free(Rest(s, d), d)
  {
  }

  lemma {:induction false} FreeRest(s: string, d: Delims)
    requires Free(s, d)
    ensures Rest(s, d) == s && Lines(s, d) == []
  {
    if s == [] {
    } else {
      FreeRest(s[..|s| - 1], d);
      Split(s);
      Snoc(s[..|s| - 1], s[|s| - 1], d);
      hide Rest, Lines;
    }
  }

  lemma {:induction false} OnlyDelims(s: string, d: Delims)
    requires Only(s, d)
    ensures Rest(s, d) == [] && Lines(s, d) == []
  {
    if s == [] {
    } else {
      OnlyDelims(s[..|s| - 1], d);
      Split(s);
      Snoc(s[..|s| - 1], s[|s| - 1], d);
      hide Rest, Lines;
    }
  }

  /** Delimiters in front are dropped. */
  lemma DelimsDropped(front: string, s: string, d: Delims)
    requires Only(front, d)
    ensures Rest(front + s, d) == Rest(s, d) && Lines(front + s, d) == Lines(s, d)
  {
    hide Rest, Lines;
    OnlyDelims(front, d);
    LinesAppend(front, s, d);
    assert [] + s == s;
  }

  /** A text and the delimiters behind it are a line in front of the others. */
  lemma LineTaken(line: string, after: string, s: string, d: Delims)
    requires line != [] && Free(line, d) && after != [] && Only(after, d)
    ensures Rest(line + after + s, d) == Rest(s, d) && Lines(line + after + s, d) == [line] + Lines(s, d)
  {
    hide Rest, Lines;
    FreeRest(line, d);
    Snoc(line, after[0], d);
    LinesAppend(line + [after[0]], after[1..] + s, d);
    assert line + [after[0]] + (after[1..] + s) == line + after + s;
    DelimsDropped(after[1..], s, d);
    assert [] + (after[1..] + s) == after[1..] + s;
  }
}
