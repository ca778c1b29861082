/** Natural-order string comparison (strnatcmp.c): the loops compare like keys of tokens do. */
module StrNat {

  /** A C `char`, signed; strings end before their terminating zero. */
  type NatChar = c: int | -128 <= c < 128

  predicate CString(s: seq<NatChar>) {
    forall i :: 0 <= i < |s| ==> s[i] != 0
  }

  function At(s: seq<NatChar>, i: nat): NatChar {
    if i < |s| then s[i] else 0
  }

  predicate IsDigit(c: NatChar) {
    48 <= c <= 57
  }

  predicate IsSpace(c: NatChar) {
    9 <= c <= 13 || c == 32
  }

  function ToUpper(c: NatChar): NatChar {
    if 97 <= c <= 122 then c - 32 else c
  }

  const ZERO: NatChar := 48

  // ----- tokens -----

  /** A run of digits, or another character; the terminator is the character 0. */
  datatype Token = Run(digits: seq<NatChar>) | Other(code: NatChar)

  predicate Proper(t: Token) {
    match t
    case Run(digits) => digits != [] && forall i :: 0 <= i < |digits| ==> IsDigit(digits[i])
    case Other(code) => !IsDigit(code)
  }

  function SkipBlanks(s: seq<NatChar>, i: nat): (j: nat)
    requires i <= |s|
    ensures i <= j <= |s|
    decreases |s| - i
  {
    if i < |s| && IsSpace(s[i]) then SkipBlanks(s, i + 1) else i
  }

  function RunEnd(s: seq<NatChar>, i: nat): (j: nat)
    requires i <= |s|
    ensures i <= j <= |s| && (i < |s| && IsDigit(s[i]) ==> i < j)
    ensures forall k :: i <= k < j ==> IsDigit(s[k])
    ensures !IsDigit(At(s, j))
    decreases |s| - i
  {
    if i < |s| && IsDigit(s[i]) then RunEnd(s, i + 1) else i
  }

  /** The tokens of `s` from `i` on, without the blanks, up to and with the terminator. */
  function Keys(s: seq<NatChar>, i: nat, fold: bool): seq<Token>
    requires i <= |s|
    decreases |s| - i
  {
    var j := SkipBlanks(s, i);
    if j == |s| then [Other(0)]
    else if IsDigit(s[j]) then [Run(s[j..RunEnd(s, j)])] + Keys(s, RunEnd(s, j), fold)
    else [Other(if fold then ToUpper(s[j]) else s[j])] + Keys(s, j + 1, fold)
  }

  // ----- order -----

  function Sign(x: int, y: int): int {
    if x < y then -1 else if x > y then 1 else 0
  }

  /** The first different digit decides, and a run before its continuation. */
  function LeftOrder(d: seq<NatChar>, e: seq<NatChar>): int {
    if d == [] && e == [] then 0
    else if d == [] then -1
    else if e == [] then 1
    else if d[0] != e[0] then Sign(d[0], e[0])
    else LeftOrder(d[1..], e[1..])
  }

  /** Numbers by value, that is by length first; runs that begin with a zero like decimals. */
  function RunOrder(d: seq<NatChar>, e: seq<NatChar>): int
    requires d != [] && e != []
  {
    if d[0] == ZERO || e[0] == ZERO || |d| == |e| then LeftOrder(d, e)
    else Sign(|d|, |e|)
  }

  function Code(t: Token): NatChar
    requires Proper(t)
  {
    if t.Run? then t.digits[0] else t.code
  }

  function TokenOrder(t: Token, u: Token): int
    requires Proper(t) && Proper(u)
  {
    if t.Run? && u.Run? then RunOrder(t.digits, u.digits) else Sign(Code(t), Code(u))
  }

  ghost predicate AllProper(x: seq<Token>) {
    forall i :: 0 <= i < |x| ==> Proper(x[i])
  }

  /** Lexicographic comparison. */
  ghost function Order(x: seq<Token>, y: seq<Token>): int
    requires AllProper(x) && AllProper(y)
  {
    if x == [] && y == [] then 0
    else if x == [] then -1
    else if y == [] then 1
    else if TokenOrder(x[0], y[0]) != 0 then TokenOrder(x[0], y[0])
    else Order(x[1..], y[1..])
  }

  lemma {:induction false} LeftLaws(d: seq<NatChar>, e: seq<NatChar>)
    ensures LeftOrder(d, e) == -LeftOrder(e, d) && -1 <= LeftOrder(d, e) <= 1
    ensures LeftOrder(d, e) == 0 <==> d == e
  {
    if d != [] && e != [] && d[0] == e[0] {
      LeftLaws(d[1..], e[1..]);
      assert d == [d[0]] + d[1..] && e == [e[0]] + e[1..];
    }
  }

  lemma {:induction false} LeftTransitive(d: seq<NatChar>, e: seq<NatChar>, f: seq<NatChar>)
    requires LeftOrder(d, e) <= 0 && LeftOrder(e, f) <= 0
    ensures LeftOrder(d, f) <= 0
  {
    if d != [] && e != [] && f != [] && d[0] == e[0] && e[0] == f[0] {
      LeftTransitive(d[1..], e[1..], f[1..]);
    }
  }

  // ----- numbers by value -----

  function Pow10(n: nat): nat {
    if n == 0 then 1 else 10 * Pow10(n - 1)
  }

  predicate Digits(d: seq<NatChar>) {
    forall i :: 0 <= i < |d| ==> IsDigit(d[i])
  }

  /** The number that a run of digits stands for. */
  function Number(d: seq<NatChar>): nat
    requires Digits(d)
  {
    if d == [] then 0 else 10 * Number(d[..|d| - 1]) + (d[|d| - 1] - ZERO)
  }

  lemma {:induction false} NumberFront(d: seq<NatChar>)
    requires Digits(d) && d != []
    ensures Digits(d[1..]) && Number(d) == (d[0] - ZERO) * Pow10(|d| - 1) + Number(d[1..])
  {
    if |d| == 1 {
      assert d[..0] == [] && d[1..] == [];
    } else {
      var init := d[..|d| - 1];
      NumberFront(init);
      assert d[1..][..|d| - 2] == init[1..];
      TenTimes(d[0] - ZERO, Pow10(|d| - 2));
    }
  }

  lemma TenTimes(x: int, y: int)
    ensures 10 * (x * y) == x * (10 * y)
  {
  }

  lemma {:induction false} NumberBelow(d: seq<NatChar>)
    requires Digits(d)
    ensures Number(d) < Pow10(|d|)
  {
    if d != [] {
      NumberBelow(d[..|d| - 1]);
    }
  }

  lemma NumberAbove(d: seq<NatChar>)
    requires Digits(d) && d != [] && d[0] != ZERO
    ensures Number(d) >= Pow10(|d| - 1)
  {
    NumberFront(d);
    AtLeast(d[0] - ZERO, Pow10(|d| - 1));
  }

  lemma AtLeast(x: int, y: nat)
    requires x >= 1
    ensures x * y >= y
  {
  }

  lemma {:induction false} PowGrows(m: nat, n: nat)
    requires m <= n
    ensures Pow10(m) <= Pow10(n)
  {
    if m < n {
      PowGrows(m, n - 1);
    }
  }

  lemma Decided(x: int, y: int, p: nat, r: nat, s: nat)
    requires x < y && r < p
    ensures x * p + r < y * p + s
  {
    AtLeast(y - x, p);
    assert y * p == x * p + (y - x) * p;
  }

  /** Runs of the same length compare by value. */
  lemma {:induction false} SameLengthByValue(d: seq<NatChar>, e: seq<NatChar>)
    requires Digits(d) && Digits(e) && |d| == |e|
    ensures LeftOrder(d, e) == Sign(Number(d), Number(e))
  {
    if d != [] {
      NumberFront(d);
      NumberFront(e);
      NumberBelow(d[1..]);
      NumberBelow(e[1..]);
      hide Number, Pow10;
      var p := Pow10(|d| - 1);
      if d[0] < e[0] {
        Decided(d[0] - ZERO, e[0] - ZERO, p, Number(d[1..]), Number(e[1..]));
      } else if e[0] < d[0] {
        Decided(e[0] - ZERO, d[0] - ZERO, p, Number(e[1..]), Number(d[1..]));
      } else {
        SameLengthByValue(d[1..], e[1..]);
      }
    }
  }

  lemma ShorterIsLess(d: seq<NatChar>, e: seq<NatChar>)
    requires Digits(d) && Digits(e) && |d| < |e| && e[0] != ZERO
    ensures Number(d) < Number(e)
  {
    NumberBelow(d);
    NumberAbove(e);
    PowGrows(|d|, |e| - 1);
  }

  /** Numbers without leading zeros compare by value. */
  lemma RunsByValue(d: seq<NatChar>, e: seq<NatChar>)
    requires Digits(d) && Digits(e) && d != [] && e != [] && d[0] != ZERO && e[0] != ZERO
    ensures RunOrder(d, e) == Sign(Number(d), Number(e))
  {
    hide Number, LeftOrder;
    if |d| < |e| {
      ShorterIsLess(d, e);
    } else if |e| < |d| {
      ShorterIsLess(e, d);
    } else {
      SameLengthByValue(d, e);
    }
  }

  // ----- laws -----

  lemma TokenLaws(t: Token, u: Token)
    requires Proper(t) && Proper(u)
    ensures TokenOrder(t, u) == -TokenOrder(u, t) && -1 <= TokenOrder(t, u) <= 1
    ensures TokenOrder(t, u) == 0 <==> t == u
  {
    if t.Run? && u.Run? {
      LeftLaws(t.digits, u.digits);
    }
  }

  lemma TokenTransitive(t: Token, u: Token, v: Token)
    requires Proper(t) && Proper(u) && Proper(v) && TokenOrder(t, u) <= 0 && TokenOrder(u, v) <= 0
    ensures TokenOrder(t, v) <= 0
  {
    if t.Run? && u.Run? && v.Run? {
      var d, e, f := t.digits, u.digits, v.digits;
      if LeftOrder(d, e) <= 0 && LeftOrder(e, f) <= 0 {
        LeftTransitive(d, e, f);
      }
    }
  }

  lemma {:induction false} OrderLaws(x: seq<Token>, y: seq<Token>)
    requires AllProper(x) && AllProper(y)
    ensures Order(x, y) == -Order(y, x) && -1 <= Order(x, y) <= 1
    ensures Order(x, y) == 0 <==> x == y
  {
    if x != [] && y != [] {
      TokenLaws(x[0], y[0]);
      if x[0] == y[0] {
        OrderLaws(x[1..], y[1..]);
        assert x == [x[0]] + x[1..] && y == [y[0]] + y[1..];
      }
    }
  }

  lemma {:induction false} OrderTransitive(x: seq<Token>, y: seq<Token>, z: seq<Token>)
    requires AllProper(x) && AllProper(y) && AllProper(z) && Order(x, y) <= 0 && Order(y, z) <= 0
    ensures Order(x, z) <= 0
  {
    if x != [] && y != [] && z != [] {
      TokenLaws(x[0], y[0]);
      TokenLaws(y[0], z[0]);
      TokenLaws(x[0], z[0]);
      TokenTransitive(x[0], y[0], z[0]);
      if x[0] == y[0] && y[0] == z[0] {
        OrderTransitive(x[1..], y[1..], z[1..]);
      }
    }
  }

  lemma {:induction false} KeysProper(s: seq<NatChar>, i: nat, fold: bool)
    requires i <= |s|
    ensures AllProper(Keys(s, i, fold)) && Keys(s, i, fold) != []
    decreases |s| - i
  {
    var j := SkipBlanks(s, i);
    if j < |s| {
      KeysProper(s, if IsDigit(s[j]) then RunEnd(s, j) else j + 1, fold);
    }
  }

  // ----- the order of strings -----

  /** What the comparison of two strings is: their keys in lexicographic order. */
  ghost function NatOrder(a: seq<NatChar>, b: seq<NatChar>, fold: bool): int {
    KeysProper(a, 0, fold);
    KeysProper(b, 0, fold);
    Order(Keys(a, 0, fold), Keys(b, 0, fold))
  }

  /** Strings compare as equal exactly if they have the same keys, and turning the comparison round
      turns the result round. */
  lemma NatLaws(a: seq<NatChar>, b: seq<NatChar>, fold: bool)
    ensures NatOrder(a, b, fold) == -NatOrder(b, a, fold) && -1 <= NatOrder(a, b, fold) <= 1
    ensures NatOrder(a, b, fold) == 0 <==> Keys(a, 0, fold) == Keys(b, 0, fold)
  {
    KeysProper(a, 0, fold);
    KeysProper(b, 0, fold);
    OrderLaws(Keys(a, 0, fold), Keys(b, 0, fold));
  }

  lemma NatTransitive(a: seq<NatChar>, b: seq<NatChar>, c: seq<NatChar>, fold: bool)
    requires NatOrder(a, b, fold) <= 0 && NatOrder(b, c, fold) <= 0
    ensures NatOrder(a, c, fold) <= 0
    ensures NatOrder(a, b, fold) < 0 || NatOrder(b, c, fold) < 0 ==> NatOrder(a, c, fold) < 0
  {
    KeysProper(a, 0, fold);
    KeysProper(b, 0, fold);
    KeysProper(c, 0, fold);
    var x, y, z := Keys(a, 0, fold), Keys(b, 0, fold), Keys(c, 0, fold);
    OrderTransitive(x, y, z);
    OrderLaws(x, y);
    OrderLaws(y, z);
    OrderLaws(x, z);
  }

  // ----- the loops -----

  function RunAt(s: seq<NatChar>, i: nat): seq<NatChar>
    requires i <= |s|
  {
    s[i..RunEnd(s, i)]
  }

  lemma {:induction false} LeftSnoc(d: seq<NatChar>, e: seq<NatChar>, k: nat)
    requires k < |d| && k < |e|
    ensures LeftOrder(d[..k + 1], e[..k + 1]) ==
      if LeftOrder(d[..k], e[..k]) != 0 then LeftOrder(d[..k], e[..k]) else Sign(d[k], e[k])
  {
    if k > 0 && d[0] == e[0] {
      LeftSnoc(d[1..], e[1..], k - 1);
      assert d[..k + 1][1..] == d[1..][..k] && e[..k + 1][1..] == e[1..][..k];
      assert d[..k][1..] == d[1..][..k - 1] && e[..k][1..] == e[1..][..k - 1];
    }
  }

  lemma RunAtIs(s: seq<NatChar>, i: nat, k: nat)
    requires i <= |s| && k <= |RunAt(s, i)|
    ensures IsDigit(At(s, i + k)) <==> k < |RunAt(s, i)|
    ensures k < |RunAt(s, i)| ==> At(s, i + k) == RunAt(s, i)[k]
  {
  }

  /** `compare_right`: the longer run wins; otherwise the first difference, kept in `bias`. */
  method CompareRight(a: seq<NatChar>, i: nat, b: seq<NatChar>, j: nat) returns (r: int)
    requires i <= |a| && j <= |b|
    ensures var d, e := RunAt(a, i), RunAt(b, j);
      r == if |d| != |e| then Sign(|d|, |e|) else LeftOrder(d, e)
  {
    ghost var d, e := RunAt(a, i), RunAt(b, j);
    var bias, k: nat := 0, 0;
    while true
      invariant k <= |d| && k <= |e| && bias == LeftOrder(d[..k], e[..k])
      decreases |d| - k
    {
      RunAtIs(a, i, k);
      RunAtIs(b, j, k);
      var x, y := At(a, i + k), At(b, j + k);
      if !IsDigit(x) && !IsDigit(y) {
        assert d[..k] == d && e[..k] == e;
        return bias;
      } else if !IsDigit(x) {
        return -1;
      } else if !IsDigit(y) {
        return 1;
      } else if x < y {
        if bias == 0 {
          bias := -1;
        }
      } else if x > y {
        if bias == 0 {
          bias := 1;
        }
      }
      LeftSnoc(d, e, k);
      k := k + 1;
    }
  }

  /** `compare_left`: the first difference wins. */
  method CompareLeft(a: seq<NatChar>, i: nat, b: seq<NatChar>, j: nat) returns (r: int)
    requires i <= |a| && j <= |b|
    ensures r == LeftOrder(RunAt(a, i), RunAt(b, j))
  {
    ghost var d, e := RunAt(a, i), RunAt(b, j);
    var k: nat := 0;
    while true
      invariant k <= |d| && k <= |e| && LeftOrder(d, e) == LeftOrder(d[k..], e[k..])
      decreases |d| - k
    {
      RunAtIs(a, i, k);
      RunAtIs(b, j, k);
      var x, y := At(a, i + k), At(b, j + k);
      if !IsDigit(x) && !IsDigit(y) {
        return 0;
      } else if !IsDigit(x) {
        return -1;
      } else if !IsDigit(y) {
        return 1;
      } else if x < y {
        return -1;
      } else if x > y {
        return 1;
      }
      assert d[k..][1..] == d[k + 1..] && e[k..][1..] == e[k + 1..];
      k := k + 1;
    }
  }

  /** The first key where there is no blank. */
  function Head(s: seq<NatChar>, i: nat, fold: bool): Token
    requires i <= |s| && CString(s)
  {
    if IsDigit(At(s, i)) then Run(RunAt(s, i)) else Other(if fold then ToUpper(At(s, i)) else At(s, i))
  }

  lemma KeysHead(s: seq<NatChar>, i: nat, fold: bool)
    requires i <= |s| && CString(s) && !IsSpace(At(s, i))
    ensures Keys(s, i, fold) == [Head(s, i, fold)] +
      (if i == |s| then [] else Keys(s, if IsDigit(s[i]) then RunEnd(s, i) else i + 1, fold))
    ensures Proper(Head(s, i, fold))
  {
    assert SkipBlanks(s, i) == i;
    if i == |s| {
    } else if IsDigit(s[i]) {
      assert Head(s, i, fold) == Run(s[i..RunEnd(s, i)]);
    } else {
      assert Head(s, i, fold) == Other(if fold then ToUpper(s[i]) else s[i]);
    }
    hide SkipBlanks, RunAt;
  }

  /** Going on inside a run leaves its rest as the first key. */
  lemma KeysInside(s: seq<NatChar>, i: nat, fold: bool)
    requires i < |s| && CString(s) && IsDigit(s[i])
    ensures Keys(s, i + 1, fold) ==
      (if |RunAt(s, i)| == 1 then [] else [Run(RunAt(s, i)[1..])]) + Keys(s, RunEnd(s, i), fold)
  {
    if IsDigit(At(s, i + 1)) {
      KeysHead(s, i + 1, fold);
    }
  }

  ghost function OrderAt(a: seq<NatChar>, i: nat, b: seq<NatChar>, j: nat, fold: bool): int
    requires i <= |a| && j <= |b|
  {
    KeysProper(a, i, fold);
    KeysProper(b, j, fold);
    Order(Keys(a, i, fold), Keys(b, j, fold))
  }

  lemma OrderTail(x: Token, xs: seq<Token>, y: Token, ys: seq<Token>)
    requires AllProper([x] + xs) && AllProper([y] + ys)
    ensures Proper(x) && Proper(y) && AllProper(xs) && AllProper(ys)
    ensures Order([x] + xs, [y] + ys) == if TokenOrder(x, y) != 0 then TokenOrder(x, y) else Order(xs, ys)
  {
    assert ([x] + xs)[1..] == xs && ([y] + ys)[1..] == ys;
    assert ([x] + xs)[0] == x && ([y] + ys)[0] == y;
    forall i | 0 <= i < |xs| ensures Proper(xs[i]) { assert xs[i] == ([x] + xs)[i + 1]; }
    forall i | 0 <= i < |ys| ensures Proper(ys[i]) { assert ys[i] == ([y] + ys)[i + 1]; }
  }

  /** Different first keys decide; same ones are passed, even if only one character is. */
  lemma OrderStep(a: seq<NatChar>, i: nat, b: seq<NatChar>, j: nat, fold: bool)
    requires i <= |a| && j <= |b| && CString(a) && CString(b)
    requires !IsSpace(At(a, i)) && !IsSpace(At(b, j))
    ensures Proper(Head(a, i, fold)) && Proper(Head(b, j, fold))
    ensures var o := TokenOrder(Head(a, i, fold), Head(b, j, fold));
      && (o != 0 ==> OrderAt(a, i, b, j, fold) == o)
      && (o == 0 && (i == |a| || j == |b|) ==> i == |a| && j == |b| && OrderAt(a, i, b, j, fold) == 0)
      && (o == 0 && i < |a| && j < |b| ==> OrderAt(a, i, b, j, fold) == OrderAt(a, i + 1, b, j + 1, fold))
  {
    KeysProper(a, i, fold);
    KeysProper(b, j, fold);
    KeysHead(a, i, fold);
    KeysHead(b, j, fold);
    var x, y := Head(a, i, fold), Head(b, j, fold);
    TokenLaws(x, y);
    OrderTail(x, Keys(a, i, fold)[1..], y, Keys(b, j, fold)[1..]);
    if x == y && i < |a| && j < |b| && IsDigit(a[i]) {
      KeysInside(a, i, fold);
      KeysInside(b, j, fold);
      KeysProper(a, i + 1, fold);
      KeysProper(b, j + 1, fold);
      if |x.digits| > 1 {
        OrderTail(Run(x.digits[1..]), Keys(a, RunEnd(a, i), fold), Run(y.digits[1..]), Keys(b, RunEnd(b, j), fold));
        TokenLaws(Run(x.digits[1..]), Run(y.digits[1..]));
      }
    }
  }

  lemma BlankPassed(a: seq<NatChar>, i: nat, b: seq<NatChar>, j: nat, fold: bool)
    requires i <= |a| && j <= |b|
    ensures IsSpace(At(a, i)) ==> i < |a| && OrderAt(a, i, b, j, fold) == OrderAt(a, i + 1, b, j, fold)
    ensures IsSpace(At(b, j)) ==> j < |b| && OrderAt(a, i, b, j, fold) == OrderAt(a, i, b, j + 1, fold)
  {
  }

  function Folded(c: NatChar, fold: bool): NatChar {
    if fold then ToUpper(c) else c
  }

  /** How the first keys compare, in terms of characters and runs. */
  lemma HeadOrder(a: seq<NatChar>, i: nat, b: seq<NatChar>, j: nat, fold: bool)
    requires i <= |a| && j <= |b| && CString(a) && CString(b)
    ensures Proper(Head(a, i, fold)) && Proper(Head(b, j, fold))
    ensures var o := TokenOrder(Head(a, i, fold), Head(b, j, fold)); var x, y := At(a, i), At(b, j);
      if IsDigit(x) && IsDigit(y) then
        && (o == if x != ZERO && y != ZERO && |RunAt(a, i)| != |RunAt(b, j)| then Sign(|RunAt(a, i)|, |RunAt(b, j)|)
                 else LeftOrder(RunAt(a, i), RunAt(b, j)))
        && (o == 0 ==> x == y)
      else o == Sign(Folded(x, fold), Folded(y, fold))
    ensures (At(a, i) == 0 <==> i == |a|) && (At(b, j) == 0 <==> j == |b|)
    ensures Folded(At(a, i), fold) == Folded(At(b, j), fold) ==> (i == |a| <==> j == |b|)
  {
    TokenLaws(Head(a, i, fold), Head(b, j, fold));
  }

  /** `strnatcmp0` without prefixes. */
  method StrNatCmp(a: seq<NatChar>, b: seq<NatChar>, fold: bool) returns (r: int)
    requires CString(a) && CString(b)
    ensures r == NatOrder(a, b, fold)
  {
    assert OrderAt(a, 0, b, 0, fold) == NatOrder(a, b, fold);
    hide OrderAt, NatOrder, RunAt, LeftOrder, IsSpace, IsDigit, Head, TokenOrder, Folded, At, Proper;
    var ai: nat, bi: nat := 0, 0;
    while true
      invariant ai <= |a| && bi <= |b| && OrderAt(a, ai, b, bi, fold) == NatOrder(a, b, fold)
      decreases |a| - ai
    {
      while IsSpace(At(a, ai))
        invariant ai <= |a| && OrderAt(a, ai, b, bi, fold) == NatOrder(a, b, fold)
        decreases |a| - ai
      {
        BlankPassed(a, ai, b, bi, fold);
        ai := ai + 1;
      }
      while IsSpace(At(b, bi))
        invariant bi <= |b| && OrderAt(a, ai, b, bi, fold) == NatOrder(a, b, fold)
        decreases |b| - bi
      {
        BlankPassed(a, ai, b, bi, fold);
        bi := bi + 1;
      }
      var ca, cb := At(a, ai), At(b, bi);
      OrderStep(a, ai, b, bi, fold);
      HeadOrder(a, ai, b, bi, fold);
      if IsDigit(ca) && IsDigit(cb) {
        var fractional := ca == ZERO || cb == ZERO;
        var result;
        if fractional {
          result := CompareLeft(a, ai, b, bi);
        } else {
          result := CompareRight(a, ai, b, bi);
        }
        if result != 0 {
          return result;
        }
      }
      if ca == 0 && cb == 0 {
        return 0;
      }
      ca, cb := Folded(ca, fold), Folded(cb, fold);
      if ca < cb {
        return -1;
      } else if ca > cb {
        return 1;
      }
      ai, bi := ai + 1, bi + 1;
    }
  }

  // ----- nicks with channel prefixes -----

  const OP: NatChar := 64
  const VOICE: NatChar := 43

  /** What the prefixes alone decide. */
  function PrefixOrder(x: NatChar, y: NatChar): int {
    if (x == OP && y != OP) || (x == VOICE && y != VOICE && y != OP) then -1
    else if (x == VOICE && y == OP) || (x != VOICE && x != OP && y == VOICE) then 1
    else 0
  }

  ghost function IrcOrder(a: seq<NatChar>, b: seq<NatChar>, fold: bool): int {
    if PrefixOrder(At(a, 0), At(b, 0)) != 0 then PrefixOrder(At(a, 0), At(b, 0)) else NatOrder(a, b, fold)
  }

  /** Operators come before everybody else, and voiced users before those without a prefix. */
  lemma PrefixTable(x: NatChar, y: NatChar)
    ensures x == '@' as int && y != '@' as int ==> PrefixOrder(x, y) == -1
    ensures x == '+' as int && y != '+' as int ==> PrefixOrder(x, y) == if y == '@' as int then 1 else -1
    ensures x != '@' as int && x != '+' as int ==> PrefixOrder(x, y) == if y == '+' as int then 1 else 0
    ensures PrefixOrder(x, x) == 0
  {
    assert '@' as int == 64 && '+' as int == 43;
  }

  /** `strnatcmp0`. */
  method StrNatCmp0(a: seq<NatChar>, b: seq<NatChar>, fold: bool, checkPrefixes: bool) returns (r: int)
    requires CString(a) && CString(b)
    ensures r == if checkPrefixes then IrcOrder(a, b, fold) else NatOrder(a, b, fold)
  {
    if checkPrefixes {
      var x, y := At(a, 0), At(b, 0);
      if (x == OP && y != OP) || (x == VOICE && y != VOICE && y != OP) {
        return -1;
      } else if (x == VOICE && y == OP) || (x != VOICE && x != OP && y == VOICE) {
        return 1;
      }
    }
    r := StrNatCmp(a, b, fold);
  }

  /** An operator against somebody without a prefix. */
  predicate OpAgainstPlain(a: seq<NatChar>, b: seq<NatChar>)
    ensures OpAgainstPlain(a, b) ==> |a| > 0
  {
    At(a, 0) == OP && At(b, 0) != OP && At(b, 0) != VOICE
  }

  /** `b` naturally comes after the operator `a`: its first character that is no blank comes after the
      prefix, or is the same and what follows comes after what follows the prefix in `a`. */
  ghost predicate AfterOp(a: seq<NatChar>, b: seq<NatChar>, fold: bool)
    requires |a| > 0
  {
    var j := SkipBlanks(b, 0);
    var x := Folded(At(b, j), fold);
    x > OP || (x == OP && j < |b| && OrderAt(b, j + 1, a, 1, fold) > 0)
  }

  lemma AfterOpIff(a: seq<NatChar>, b: seq<NatChar>, fold: bool)
    requires CString(a) && CString(b) && At(a, 0) == OP
    ensures |a| > 0 && (NatOrder(b, a, fold) > 0 <==> AfterOp(a, b, fold))
  {
    var j := SkipBlanks(b, 0);
    BlanksPassed(b, 0, a, fold);
    SkippedNoBlank(b, 0);
    OrderStep(b, j, a, 0, fold);
    HeadOrder(b, j, a, 0, fold);
    hide OrderAt, Head, TokenOrder;
    assert OrderAt(b, 0, a, 0, fold) == NatOrder(b, a, fold) by { StartOrder(b, a, fold); }
  }

  lemma StartOrder(a: seq<NatChar>, b: seq<NatChar>, fold: bool)
    ensures OrderAt(a, 0, b, 0, fold) == NatOrder(a, b, fold)
  {
  }

  lemma SkippedNoBlank(s: seq<NatChar>, i: nat)
    requires i <= |s|
    ensures !IsSpace(At(s, SkipBlanks(s, i)))
    decreases |s| - i
  {
  }

  lemma {:induction false} BlanksPassed(s: seq<NatChar>, i: nat, t: seq<NatChar>, fold: bool)
    requires i <= |s|
    ensures OrderAt(s, i, t, 0, fold) == OrderAt(s, SkipBlanks(s, i), t, 0, fold)
    decreases |s| - i
  {
    if i < |s| && IsSpace(s[i]) {
      BlankPassed(s, i, t, 0, fold);
      BlanksPassed(s, i + 1, t, fold);
    }
  }

  /** With prefixes, turning the comparison round turns the result round except for an operator
      against somebody without a prefix who does not naturally come after the operator. */
  lemma IrcAntisymmetricIff(a: seq<NatChar>, b: seq<NatChar>, fold: bool)
    requires CString(a) && CString(b)
    ensures IrcOrder(a, b, fold) == -IrcOrder(b, a, fold) <==>
      && (OpAgainstPlain(a, b) ==> AfterOp(a, b, fold))
      && (OpAgainstPlain(b, a) ==> AfterOp(b, a, fold))
  {
    NatLaws(a, b, fold);
    if OpAgainstPlain(a, b) {
      AfterOpIff(a, b, fold);
    }
    if OpAgainstPlain(b, a) {
      AfterOpIff(b, a, fold);
    }
    hide NatOrder, AfterOp;
  }

  /** Without a leading blank, the character after which it is well is a single one. */
  lemma IrcAntisymmetricPlain(a: seq<NatChar>, b: seq<NatChar>, fold: bool)
    requires CString(a) && CString(b) && OpAgainstPlain(a, b) && !IsSpace(At(b, 0))
    ensures IrcOrder(a, b, fold) == -IrcOrder(b, a, fold) <==> Folded(At(b, 0), fold) > OP
  {
    IrcAntisymmetricIff(a, b, fold);
    assert SkipBlanks(b, 0) == 0;
    hide IrcOrder, OrderAt;
  }

  /** "@a" comes before "1", and "1" before "@a". */
  lemma IrcBothFirst()
    ensures IrcOrder([OP, 97], [49], false) == -1 && IrcOrder([49], [OP, 97], false) == -1
  {
    var a, b := [OP, 97], [49];
    OrderStep(b, 0, a, 0, false);
    HeadOrder(b, 0, a, 0, false);
  }
}
