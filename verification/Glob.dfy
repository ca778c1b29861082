/** The IRC mask matcher of tools.c against a declarative meaning of masks. */
module Glob {
  import opened Text

  /** C strings: no character of them is the terminator. */
  type CString = s: string | NulFree(s) witness ""

  predicate NulFree(s: string) {
    forall i :: 0 <= i < |s| ==> s[i] != '\0'
  }

  /** What reading the C string at `i` yields; the terminator is the last character it holds. */
  function At(s: CString, i: nat): char
    requires i <= |s|
  {
    if i == |s| then '\0' else s[i]
  }

  /** The meaning of a mask: `*` stands for any string, `?` for any one character, a backslash
      makes the next character stand for exactly itself, and every other character stands for
      itself regardless of case. */
  ghost predicate Matches(mask: string, name: string) {
    if mask == "" then name == ""
    else if mask[0] == '*' then exists k :: 0 <= k <= |name| && Matches(mask[1..], name[k..])
    else if mask[0] == '\\' then |mask| > 1 && name != "" && mask[1] == name[0] && Matches(mask[2..], name[1..])
    else name != "" && (mask[0] == '?' || LowerChar(mask[0]) == LowerChar(name[0])) && Matches(mask[1..], name[1..])
  }

  predicate Wild(c: char) {
    c == '*' || c == '?'
  }

  /** Escapes are complete and come before the first wildcard. */
  predicate EscapesFirst(mask: string) {
    if mask == "" then true
    else if mask[0] == '\\' then |mask| > 1 && EscapesFirst(mask[2..])
    else if Wild(mask[0]) then '\\' !in mask
    else EscapesFirst(mask[1..])
  }

  lemma {:induction false} NoEscapes(mask: string)
    requires '\\' !in mask
    ensures EscapesFirst(mask)
  {
    if mask != "" {
      NoEscapes(mask[1..]);
    }
  }

  /** `Matches` for the rest of the mask and the rest of the name. */
  ghost predicate From(mask: string, m: nat, name: string, n: nat)
    requires m <= |mask| && n <= |name|
  {
    Matches(mask[m..], name[n..])
  }

  /** `From` for some position of the name at or after `n`. */
  ghost predicate Later(mask: string, m: nat, name: string, n: nat)
    requires m <= |mask|
  {
    exists j :: n <= j <= |name| && From(mask, m, name, j)
  }

  lemma FromStar(mask: string, m: nat, name: string, n: nat)
    requires m < |mask| && n <= |name| && mask[m] == '*'
    ensures From(mask, m, name, n) <==> Later(mask, m + 1, name, n)
  {
    assert mask[m..][1..] == mask[m + 1..];
    if From(mask, m, name, n) {
      var k :| 0 <= k <= |name[n..]| && Matches(mask[m..][1..], name[n..][k..]);
      assert name[n..][k..] == name[n + k..];
      assert From(mask, m + 1, name, n + k);
    }
    if Later(mask, m + 1, name, n) {
      var j :| n <= j <= |name| && From(mask, m + 1, name, j);
      assert name[n..][j - n..] == name[j..];
    }
  }

  lemma FromOne(mask: string, m: nat, name: string, n: nat)
    requires m < |mask| && n <= |name| && mask[m] != '*' && mask[m] != '\\'
    ensures From(mask, m, name, n) <==>
            n < |name| && (mask[m] == '?' || LowerChar(mask[m]) == LowerChar(name[n])) && From(mask, m + 1, name, n + 1)
  {
    assert mask[m..][1..] == mask[m + 1..];
    if n < |name| {
      assert name[n..][1..] == name[n + 1..];
    }
  }

  lemma FromEscape(mask: string, m: nat, name: string, n: nat)
    requires m + 1 < |mask| && n <= |name| && mask[m] == '\\'
    ensures From(mask, m, name, n) <==>
            n < |name| && mask[m + 1] == name[n] && From(mask, m + 2, name, n + 1)
  {
    assert mask[m..][2..] == mask[m + 2..];
    if n < |name| {
      assert name[n..][1..] == name[n + 1..];
    }
  }

  lemma FromEnd(mask: string, name: string, n: nat)
    requires n <= |name|
    ensures From(mask, |mask|, name, n) <==> n == |name|
  {
  }

  lemma LaterStar(mask: string, m: nat, name: string, n: nat)
    requires m < |mask| && n <= |name| && mask[m] == '*'
    ensures Later(mask, m, name, n) <==> Later(mask, m + 1, name, n)
  {
    if Later(mask, m, name, n) {
      var j :| n <= j <= |name| && From(mask, m, name, j);
      FromStar(mask, m, name, j);
    }
    if Later(mask, m + 1, name, n) {
      FromStar(mask, m, name, n);
    }
  }

  lemma LaterOne(mask: string, m: nat, name: string, n: nat)
    requires m < |mask| && n <= |name| && mask[m] == '?'
    ensures Later(mask, m, name, n) <==> n < |name| && Later(mask, m + 1, name, n + 1)
  {
    if Later(mask, m, name, n) {
      var j :| n <= j <= |name| && From(mask, m, name, j);
      FromOne(mask, m, name, j);
      assert n + 1 <= j + 1 <= |name| && From(mask, m + 1, name, j + 1);
    }
    if n < |name| && Later(mask, m + 1, name, n + 1) {
      var j :| n + 1 <= j <= |name| && From(mask, m + 1, name, j);
      FromOne(mask, m, name, j - 1);
      assert From(mask, m, name, j - 1);
    }
  }

  /** A starless stretch of the mask takes as many characters of the name as it has itself. */
  lemma {:induction false} StretchFixed(mask: string, a: nat, m: nat, name: string, j: nat)
    requires a <= m <= |mask| && Plain(mask[a..m]) && j <= |name| && From(mask, a, name, j)
    ensures j + (m - a) <= |name| && From(mask, m, name, j + (m - a))
    decreases m - a
  {
    if a < m {
      assert mask[a..m][0] == mask[a];
      assert mask[a + 1..m] == mask[a..m][1..];
      FromOne(mask, a, name, j);
      StretchFixed(mask, a + 1, m, name, j + 1);
    }
  }

  /** A stretch of mask in which each character stands for one character. */
  predicate Plain(piece: string) {
    '*' !in piece && '\\' !in piece
  }

  /** What the matcher remembers of the last star: the mask goes on at `a`, with a literal; the
      stretch from there to `m` is matched against the name up to `n`; and no position of the
      name from `b` up to where that attempt starts lets the mask match from `a`. */
  ghost predicate Attempt(mask: string, a: nat, m: nat, name: string, b: nat, n: nat) {
    && a <= m <= |mask| && a < |mask| && !Wild(mask[a]) && '\\' !in mask[a..] && Plain(mask[a..m])
    && n <= |name| && b + (m - a) <= n
    && forall j :: b <= j < n - (m - a) ==> !From(mask, a, name, j)
  }

  /** Only the last star needs to be remembered: every way to place the stretch since then
      further right leads to a match of the rest of the mask further right than `n`. */
  lemma AttemptCovers(mask: string, a: nat, m: nat, name: string, b: nat, n: nat)
    requires Attempt(mask, a, m, name, b, n) && Later(mask, a, name, b)
    ensures Later(mask, m, name, n)
  {
    var j :| b <= j <= |name| && From(mask, a, name, j);
    StretchFixed(mask, a, m, name, j);
    assert n <= j + (m - a) <= |name|;
  }

  lemma EscapeStep(mask: string, m: nat)
    requires m < |mask| && EscapesFirst(mask[m..]) && mask[m] == '\\'
    ensures m + 1 < |mask| && EscapesFirst(mask[m + 2..])
  {
    assert mask[m..][2..] == mask[m + 2..];
  }

  lemma LiteralStep(mask: string, m: nat)
    requires m < |mask| && EscapesFirst(mask[m..]) && mask[m] != '\\' && !Wild(mask[m])
    ensures EscapesFirst(mask[m + 1..])
  {
    assert mask[m..][1..] == mask[m + 1..];
  }

  /** After a star no escape is met any more. */
  lemma AttemptBounds(mask: string, a: nat, m: nat, name: string, b: nat, n: nat)
    requires Attempt(mask, a, m, name, b, n)
    ensures a < |mask| && EscapesFirst(mask[a..]) && mask[a] != '\\' && !Wild(mask[a])
    ensures a <= m && b + (m - a) <= n
    ensures m < |mask| ==> mask[m] != '\\'
  {
    NoEscapes(mask[a..]);
    assert mask[a..][0] == mask[a];
    if m < |mask| {
      assert mask[a..][m - a] == mask[m];
    }
  }

  /** What is remembered right after a star. */
  lemma AttemptStarts(mask: string, m: nat, name: string, b: nat, n: nat)
    requires m < |mask| && !Wild(mask[m]) && '\\' !in mask[m..] && b <= n <= |name|
    requires forall j :: b <= j < n ==> !From(mask, m, name, j)
    ensures Attempt(mask, m, m, name, b, n)
  {
  }

  /** Going back to just after the star, one character further on. */
  lemma AttemptAgain(mask: string, a: nat, m: nat, name: string, b: nat, n: nat)
    requires Attempt(mask, a, m, name, b, n) && b < |name|
    ensures Attempt(mask, a, a, name, b + 1, b + 1)
  {
  }

  /** Wildcards end the part of the mask that may hold escapes. */
  lemma AfterWildcards(mask: string, m0: nat, m: nat)
    requires m0 <= m <= |mask| && EscapesFirst(mask[m0..])
    requires forall i :: m0 <= i < m ==> Wild(mask[i])
    ensures EscapesFirst(mask[m..])
    ensures m0 < m ==> '\\' !in mask[m..] && '\\' !in mask[m0..m]
  {
    if m0 < m {
      assert mask[m0..][0] == mask[m0];
      assert mask[m0..] == mask[m0..m] + mask[m..];
      NoEscapes(mask[m..]);
    }
  }

  lemma AttemptGrows(mask: string, a: nat, m0: nat, name: string, b: nat, n0: nat, m: nat, n: nat)
    requires Attempt(mask, a, m0, name, b, n0) && m0 <= m <= |mask| && n <= |name| && n - n0 == m - m0
    requires '*' !in mask[m0..m]
    ensures Attempt(mask, a, m, name, b, n)
  {
    assert mask[a..m] == mask[a..m0] + mask[m0..m];
    assert mask[a..] == mask[a..m] + mask[m..];
  }

  /** With the name used up, a literal still to come rules out every later attempt, too. */
  lemma NameExhausted(mask: string, a: nat, m: nat, name: string, b: nat)
    requires Attempt(mask, a, m, name, b, |name|) && m < |mask| && !Wild(mask[m]) && mask[m] != '\\'
    ensures !Later(mask, a, name, b + 1)
  {
    if Later(mask, a, name, b + 1) {
      AttemptCovers(mask, a, m, name, b, |name|);
      FromOne(mask, m, name, |name|);
    }
  }

  /** The first place where the literal after a star fits stands for all the earlier ones. */
  lemma FirstPlace(mask: string, m: nat, name: string, b: nat, n: nat)
    requires m <= |mask| && b <= n <= |name| && forall j :: b <= j < n ==> !From(mask, m, name, j)
    ensures Later(mask, m, name, b) <==> From(mask, m, name, n) || Later(mask, m, name, b + 1)
  {
    LaterHere(mask, m, name, b);
  }

  lemma LaterHere(mask: string, m: nat, name: string, n: nat)
    requires m <= |mask| && n <= |name|
    ensures Later(mask, m, name, n) <==> From(mask, m, name, n) || Later(mask, m, name, n + 1)
  {
  }

  /** The inner loop over a run of wildcards, from `m0` and `n0` on; `short` when a `?` finds no
      character left. */
  method SkipWildcards(mask: CString, m0: nat, name: CString, n0: nat)
    returns (m: nat, n: nat, star: bool, short: bool)
    requires m0 <= |mask| && n0 <= |name|
    ensures m0 <= m <= |mask| && n0 <= n <= |name|
    ensures forall i :: m0 <= i < m ==> Wild(mask[i])
    ensures short ==> m0 < |mask| && Wild(mask[m0]) && !Later(mask, m0, name, n0)
    ensures !short ==> m == |mask| || !Wild(mask[m])
    ensures !short && star ==> m0 < m
    ensures !short && star ==> (From(mask, m0, name, n0) <==> Later(mask, m, name, n))
    ensures !short && star ==> (Later(mask, m0, name, n0) <==> Later(mask, m, name, n))
    ensures !short && !star ==> n - n0 == m - m0 && '*' !in mask[m0..m]
    ensures !short && !star ==> (From(mask, m0, name, n0) <==> From(mask, m, name, n))
  {
    m, n, star, short := m0, n0, false, false;
    while m < |mask| && Wild(mask[m])
      invariant m0 <= m <= |mask| && n0 <= n <= |name|
      invariant forall i :: m0 <= i < m ==> Wild(mask[i])
      invariant Later(mask, m0, name, n0) <==> Later(mask, m, name, n)
      invariant star ==> m0 < m && (From(mask, m0, name, n0) <==> Later(mask, m, name, n))
      invariant !star ==> n - n0 == m - m0 && '*' !in mask[m0..m]
      invariant !star ==> (From(mask, m0, name, n0) <==> From(mask, m, name, n))
    {
      assert mask[m0..m + 1] == mask[m0..m] + [mask[m]];
      if mask[m] == '*' {
        FromStar(mask, m, name, n);
        LaterStar(mask, m, name, n);
        star := true;
      } else {
        LaterOne(mask, m, name, n);
        FromOne(mask, m, name, n);
        if At(name, n) == '\0' {
          short := true;
          return;
        }
        n := n + 1;
      }
      m := m + 1;
    }
  }

  /** The scan after a star for the next place where the literal at `m` fits. */
  method ScanTo(mask: CString, m: nat, name: CString, n0: nat) returns (n: nat)
    requires m < |mask| && !Wild(mask[m]) && mask[m] != '\\' && n0 <= |name|
    ensures n0 <= n <= |name|
    ensures n < |name| ==> LowerChar(name[n]) == LowerChar(mask[m])
    ensures forall j :: n0 <= j < n ==> !From(mask, m, name, j)
  {
    n := n0;
    while n < |name| && LowerChar(name[n]) != LowerChar(mask[m])
      invariant n0 <= n <= |name|
      invariant forall j :: n0 <= j < n ==> !From(mask, m, name, j)
    {
      FromOne(mask, m, name, n);
      n := n + 1;
    }
  }

  /** The matcher is at `m` and `n` and remembers a star by `a` and `b` (none when `a` is 0):
      the mask matches exactly if it does from here, or by a later placement since that star. */
  ghost predicate Searching(mask: string, m: nat, name: string, n: nat, a: nat, b: nat, answer: bool) {
    && m <= |mask| && n <= |name| && a <= m && b <= |name|
    && EscapesFirst(mask[m..])
    && (a > 0 ==> Attempt(mask, a, m, name, b, n))
    && (answer <==> From(mask, m, name, n) || (a > 0 && Later(mask, a, name, b + 1)))
  }

  /** The current attempt has failed: only a later placement can still match. */
  ghost predicate Failed(mask: string, m: nat, name: string, n: nat, a: nat, b: nat, answer: bool) {
    && m <= |mask| && n <= |name| && a <= m && b <= |name|
    && (a > 0 ==> Attempt(mask, a, m, name, b, n) && b < |name|)
    && (answer <==> a > 0 && Later(mask, a, name, b + 1))
  }

  datatype Outcome = Result(r: int) | Backtrack | Proceed

  /** One round of the loop at a wildcard or a literal. */
  method Round(mask: CString, m0: nat, name: CString, n0: nat, a0: nat, b0: nat, ghost answer: bool)
    returns (m: nat, n: nat, a: nat, b: nat, outcome: Outcome)
    requires Searching(mask, m0, name, n0, a0, b0, answer) && m0 < |mask| && mask[m0] != '\\'
    ensures outcome.Result? ==> (outcome.r == 0 || outcome.r == 1) && (answer <==> outcome.r == 0)
    ensures outcome.Backtrack? ==> Failed(mask, m, name, n, a, b, answer)
    ensures outcome.Proceed? ==> Searching(mask, m, name, n, a, b, answer)
    ensures a > a0 || (a == a0 && b == b0)
    ensures outcome.Proceed? && a == a0 ==> m > m0
  {
    hide Matches, From, Later, EscapesFirst, Attempt;
    a, b := a0, b0;
    if a > 0 {
      AttemptBounds(mask, a, m0, name, b, n0);
      if Later(mask, a, name, b + 1) {
        AttemptCovers(mask, a, m0, name, b, n0) by {
          LaterHere(mask, a, name, b);
        }
      }
    }
    var star, short;
    m, n, star, short := SkipWildcards(mask, m0, name, n0);
    AfterWildcards(mask, m0, m);
    if short {
      if a > 0 {
        LaterHere(mask, m0, name, n0);
      }
      m, n, outcome := m0, n0, Backtrack;
      LaterHere(mask, m0, name, n0);
      return;
    }
    if star {
      if m == |mask| {
        LastStarMatches(mask, name, n);
        outcome := Result(0);
        return;
      }
      a, b := m, n;
      n := ScanTo(mask, m, name, n);
      FirstPlace(mask, m, name, b, n);
      AttemptStarts(mask, m, name, b, n);
    } else if a > 0 {
      AttemptGrows(mask, a, m0, name, b, n0, m, n);
    }
    outcome := Literal(mask, m, name, n, a, b, answer);
    if outcome.Proceed? {
      m, n := m + 1, n + 1;
    }
  }

  lemma LastStarMatches(mask: string, name: string, n: nat)
    requires n <= |name|
    ensures Later(mask, |mask|, name, n)
  {
    FromEnd(mask, name, |name|);
  }

  /** The literal at `m` against the character at `n`. */
  method Literal(mask: CString, m: nat, name: CString, n: nat, a: nat, b: nat, ghost answer: bool)
    returns (outcome: Outcome)
    requires Searching(mask, m, name, n, a, b, answer) && (m < |mask| ==> !Wild(mask[m]) && mask[m] != '\\')
    ensures outcome.Result? ==> (outcome.r == 0 || outcome.r == 1) && (answer <==> outcome.r == 0)
    ensures outcome.Backtrack? ==> Failed(mask, m, name, n, a, b, answer)
    ensures outcome.Proceed? ==> m < |mask| && n < |name| && Searching(mask, m + 1, name, n + 1, a, b, answer)
  {
    hide Matches, From, Later, EscapesFirst, Attempt;
    if m < |mask| {
      FromOne(mask, m, name, n);
    }
    if a > 0 {
      AttemptBounds(mask, a, m, name, b, n);
    }
    FromEnd(mask, name, n);
    if At(name, n) == '\0' {
      if a > 0 && m < |mask| {
        NameExhausted(mask, a, m, name, b);
      }
      return Result(if m == |mask| then 0 else 1);
    }
    if LowerChar(At(mask, m)) != LowerChar(name[n]) {
      return Backtrack;
    }
    LiteralStep(mask, m);
    if a > 0 {
      AttemptGrows(mask, a, m, name, b, n, m + 1, n + 1);
    }
    return Proceed;
  }

  /** `match`: 0 exactly when the mask matches the name. */
  method Match(mask: CString, name: CString) returns (r: int)
    requires EscapesFirst(mask)
    ensures r == 0 || r == 1
    ensures r == 0 <==> Matches(mask, name)
  {
    var m: nat, n: nat, mTmp: nat, nTmp: nat := 0, 0, 0, 0;
    ghost var answer := Matches(mask, name);
    Beginning(mask, name);
    hide Matches, From, Later, EscapesFirst, Attempt;
    while true
      invariant Searching(mask, m, name, n, mTmp, nTmp, answer)
      decreases |mask| - mTmp, |name| - nTmp, |mask| - m
    {
      var outcome := Backtrack;
      if mTmp > 0 {
        AttemptBounds(mask, mTmp, m, name, nTmp, n);
      }
      if At(mask, m) == '\0' {
        FromEnd(mask, name, n);
        if At(name, n) == '\0' {
          return 0;
        }
      } else if mask[m] == '\\' {
        EscapeStep(mask, m);
        FromEscape(mask, m, name, n);
        if mask[m + 1] != At(name, n) {
          return 1;
        }
        m, n, outcome := m + 2, n + 1, Proceed;
      } else {
        m, n, mTmp, nTmp, outcome := Round(mask, m, name, n, mTmp, nTmp, answer);
      }
      if outcome.Result? {
        return outcome.r;
      } else if outcome.Backtrack? {
        if mTmp == 0 {
          return 1;
        }
        LaterHere(mask, mTmp, name, nTmp + 1);
        AttemptAgain(mask, mTmp, m, name, nTmp, n);
        AttemptBounds(mask, mTmp, m, name, nTmp, n);
        nTmp := nTmp + 1;
        m, n := mTmp, nTmp;
      }
    }
  }

  lemma Beginning(mask: string, name: string)
    requires EscapesFirst(mask)
    ensures Searching(mask, 0, name, 0, 0, 0, Matches(mask, name))
  {
    assert mask[0..] == mask && name[0..] == name;
  }
}
