/** Sequences that come in pieces, or with pieces missing. */
module Chunks {

  function Concat<T>(chunks: seq<seq<T>>): seq<T> {
    if chunks == [] then [] else Concat(chunks[..|chunks| - 1]) + chunks[|chunks| - 1]
  }

  /** `x` is `y` with elements left out. */
  predicate SubSeq<T(==)>(x: seq<T>, y: seq<T>) {
    if y == [] then x == []
    else
      || SubSeq(x, y[..|y| - 1])
      || (x != [] && x[|x| - 1] == y[|y| - 1] && SubSeq(x[..|x| - 1], y[..|y| - 1]))
  }

  lemma {:induction false} SubSeqSelf<T>(x: seq<T>)
    ensures SubSeq(x, x)
  {
    if x != [] {
      SubSeqSelf(x[..|x| - 1]);
    }
  }

  lemma {:induction false} SubSeqNone<T>(y: seq<T>)
    ensures SubSeq([], y)
  {
    if y != [] {
      SubSeqNone(y[..|y| - 1]);
    }
  }

  lemma {:induction false} SubSeqAppend<T>(x: seq<T>, y: seq<T>, u: seq<T>, v: seq<T>)
    requires SubSeq(x, y) && SubSeq(u, v)
    ensures SubSeq(x + u, y + v)
  {
    if v == [] {
      assert x + u == x && y + v == y;
    } else {
      assert (y + v)[..|y + v| - 1] == y + v[..|v| - 1];
      if SubSeq(u, v[..|v| - 1]) {
        SubSeqAppend(x, y, u, v[..|v| - 1]);
      } else {
        SubSeqAppend(x, y, u[..|u| - 1], v[..|v| - 1]);
        assert (x + u)[..|x + u| - 1] == x + u[..|u| - 1];
      }
    }
  }

  lemma {:induction false} SubSeqTransitive<T>(x: seq<T>, y: seq<T>, z: seq<T>)
    requires SubSeq(x, y) && SubSeq(y, z)
    ensures SubSeq(x, z)
    decreases |z|
  {
    if z == [] {
    } else if SubSeq(y, z[..|z| - 1]) {
      SubSeqTransitive(x, y, z[..|z| - 1]);
    } else if SubSeq(x, y[..|y| - 1]) {
      SubSeqTransitive(x, y[..|y| - 1], z[..|z| - 1]);
    } else {
      SubSeqTransitive(x[..|x| - 1], y[..|y| - 1], z[..|z| - 1]);
    }
  }

  lemma SubSeqGap<T>(a: seq<T>, kept: seq<T>, lost: seq<T>, b: seq<T>)
    ensures SubSeq(a + kept + b, a + (kept + lost) + b)
  {
    SubSeqSelf(a + kept);
    SubSeqNone(lost);
    SubSeqSelf(b);
    SubSeqAppend(a + kept, a + kept, [], lost);
    assert a + kept + [] == a + kept && a + kept + lost == a + (kept + lost);
    SubSeqAppend(a + kept, a + (kept + lost), b, b);
  }

  lemma {:induction false} SubSeqShorter<T>(x: seq<T>, y: seq<T>)
    requires SubSeq(x, y)
    ensures |x| <= |y|
  {
    if y != [] {
      if SubSeq(x, y[..|y| - 1]) {
        SubSeqShorter(x, y[..|y| - 1]);
      } else {
        SubSeqShorter(x[..|x| - 1], y[..|y| - 1]);
      }
    }
  }

  /** Nothing left out. */
  lemma {:induction false} SubSeqWhole<T>(x: seq<T>, y: seq<T>)
    requires SubSeq(x, y) && |x| == |y|
    ensures x == y
  {
    if y != [] {
      if SubSeq(x, y[..|y| - 1]) {
        SubSeqShorter(x, y[..|y| - 1]);
      }
      SubSeqWhole(x[..|x| - 1], y[..|y| - 1]);
      assert x == x[..|x| - 1] + [x[|x| - 1]] && y == y[..|y| - 1] + [y[|y| - 1]];
    }
  }
}
