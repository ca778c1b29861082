/** The texts a database is read from, exactly: white space and comments, strings, lists, objects and
    records by their positions in the text. */
module DatabaseGrammar {
  import opened DatabaseFormat
  import opened DatabaseRoundTrip
  import opened Text

  // ----- comments -----

  /** How many stars stand right before `k`, from `from` on. */
  function StarsBefore(text: string, from: nat, k: nat): nat
    requires from <= k <= |text|
    decreases k
  {
    if k == from || text[k - 1] != '*' then 0 else 1 + StarsBefore(text, from, k - 1)
  }

  /** A slash behind an odd number of stars. */
  predicate EndsBlock(text: string, from: nat, k: nat) {
    from <= k < |text| && text[k] == '/' && StarsBefore(text, from, k) % 2 == 1
  }

  predicate FirstEnd(text: string, from: nat, k: nat) {
    EndsBlock(text, from, k) && forall i :: from <= i < k ==> !EndsBlock(text, from, i)
  }

  lemma {:induction false} SkipBlockFrom(text: string, from: nat, p: nat)
    requires from <= p <= |text| && StarsBefore(text, from, p) % 2 == 0
    requires forall i :: from <= i < p ==> !EndsBlock(text, from, i)
    ensures var r := SkipBlock(text, p);
      if r.Some? then r.value > from && FirstEnd(text, from, r.value - 1)
      else forall i :: from <= i ==> !EndsBlock(text, from, i)
    decreases |text| - p
  {
    if p < |text| {
      if text[p] != '*' {
        SkipBlockFrom(text, from, p + 1);
      } else if p + 1 < |text| && text[p + 1] != '/' {
        SkipBlockFrom(text, from, p + 2);
      }
    }
  }

  /** A bracketed comment ends at the first slash behind an odd number of stars. */
  lemma SkipBlockIff(text: string, from: nat, e: nat)
    requires from <= |text|
    ensures SkipBlock(text, from) == Some(e) <==> e > from && FirstEnd(text, from, e - 1)
  {
    SkipBlockFrom(text, from, from);
    hide SkipBlock;
    if e > from && FirstEnd(text, from, e - 1) && SkipBlock(text, from).Some? {
      var k := SkipBlock(text, from).value - 1;
      assert k < e - 1 || e - 1 < k || k == e - 1;
    }
  }

  /** From `a` to `b` there is a comment that ends with its line. */
  predicate LineComment(text: string, a: nat, b: nat) {
    && a + 2 < b <= |text| && text[a] == '/' && text[a + 1] == '/' && text[b - 1] == '\n'
    && forall i :: a + 2 <= i < b - 1 ==> text[i] != '\n'
  }

  predicate BlockComment(text: string, a: nat, b: nat) {
    a + 2 < b <= |text| && text[a] == '/' && text[a + 1] == '*' && FirstEnd(text, a + 2, b - 1)
  }

  predicate Comment(text: string, a: nat, b: nat) {
    LineComment(text, a, b) || BlockComment(text, a, b)
  }

  lemma {:induction false} SkipLineIs(text: string, from: nat, p: nat)
    requires from <= p < |text| && text[p] == '\n' && forall i :: from <= i < p ==> text[i] != '\n'
    ensures SkipLine(text, from) == p + 1
    decreases p - from
  {
    if from < p {
      SkipLineIs(text, from + 1, p);
    }
  }

  lemma {:induction false} SkipLineEnds(text: string, from: nat)
    requires from <= |text|
    ensures var p := SkipLine(text, from);
      || (from < p && text[p - 1] == '\n' && forall i :: from <= i < p - 1 ==> text[i] != '\n')
      || (p == |text| && forall i :: from <= i < |text| ==> text[i] != '\n')
    decreases |text| - from
  {
    if from < |text| && text[from] != '\n' {
      SkipLineEnds(text, from + 1);
    }
  }

  // ----- white space and comments -----

  /** From `a` to `b` there are white space and comments. */
  ghost predicate Gap(text: string, a: nat, b: nat)
    decreases b - a
  {
    && a <= b <= |text|
    && (a < b ==>
          || (IsSpace(text[a]) && Gap(text, a + 1, b))
          || exists m: nat :: a < m <= b && Comment(text, a, m) && Gap(text, m, b))
  }

  /** From `a` on there are white space and comments only, the last of which may lack its line end. */
  ghost predicate LastGap(text: string, a: nat) {
    exists m: nat :: Gap(text, a, m) && (m == |text| || OpenLine(text, m))
  }

  predicate OpenLine(text: string, m: nat) {
    m + 2 <= |text| && text[m] == '/' && text[m + 1] == '/' && forall i :: m + 2 <= i < |text| ==> text[i] != '\n'
  }

  /** At `q` something else begins. */
  predicate Begins(text: string, q: nat) {
    && q < |text| && !IsSpace(text[q])
    && (text[q] == '/' && q + 1 < |text| ==> text[q + 1] != '/' && text[q + 1] != '*')
  }

  /** A comment reads like white space. */
  lemma CommentSkips(text: string, a: nat, b: nat)
    requires Comment(text, a, b)
    ensures ValidChar(text, a) == ValidChar(text, b)
  {
    if LineComment(text, a, b) {
      SkipLineIs(text, a + 2, b - 1);
    } else {
      SkipBlockIff(text, a + 2, b);
    }
    hide SkipLine, SkipBlock;
  }

  lemma {:induction false} GapSkips(text: string, a: nat, b: nat)
    requires Gap(text, a, b)
    ensures ValidChar(text, a) == ValidChar(text, b)
    decreases b - a
  {
    hide Comment;
    if a < b {
      if IsSpace(text[a]) && Gap(text, a + 1, b) {
        GapSkips(text, a + 1, b);
      } else {
        hide ValidChar;
        var m: nat :| a < m <= b && Comment(text, a, m) && Gap(text, m, b);
        CommentSkips(text, a, m);
        GapSkips(text, m, b);
      }
    }
  }

  lemma BeginsHere(text: string, q: nat)
    requires Begins(text, q)
    ensures ValidChar(text, q) == Ok(Some(text[q]), q + 1)
  {
  }

  lemma OpenLineSkips(text: string, m: nat)
    requires OpenLine(text, m)
    ensures ValidChar(text, m) == Ok(None, |text|)
  {
    SkipLineEnds(text, m + 2);
    hide SkipLine, SkipBlock;
  }

  /** What the next character is, where it stands, and what there is before it. */
  lemma {:induction false} ValidCharMeans(text: string, a: nat)
    requires a <= |text|
    ensures var r := ValidChar(text, a);
      r.Ok? ==> if r.value.Some? then Gap(text, a, r.pos - 1) && Begins(text, r.pos - 1) else LastGap(text, a)
    decreases |text| - a
  {
    hide SkipLine, SkipBlock, Comment;
    if a == |text| {
      assert Gap(text, a, a);
    } else if IsSpace(text[a]) {
      ValidCharMeans(text, a + 1);
      GapLonger(text, a, a + 1);
    } else if text[a] == '/' && Peek(text, a + 1) == Some('/') {
      LineMeans(text, a);
    } else if text[a] == '/' && Peek(text, a + 1) == Some('*') && SkipBlock(text, a + 2).Some? {
      var m := SkipBlock(text, a + 2).value;
      BlockIsComment(text, a);
      ValidCharMeans(text, m);
      GapLonger(text, a, m);
    } else {
      assert Gap(text, a, a);
    }
  }

  lemma {:induction false} LineMeans(text: string, a: nat)
    requires a + 2 <= |text| && text[a] == '/' && text[a + 1] == '/'
    ensures var r := ValidChar(text, a);
      r.Ok? ==> if r.value.Some? then Gap(text, a, r.pos - 1) && Begins(text, r.pos - 1) else LastGap(text, a)
    decreases |text| - a, 0
  {
    var m := SkipLine(text, a + 2);
    SkipLineEnds(text, a + 2);
    hide SkipLine, SkipBlock;
    if m > a + 2 && text[m - 1] == '\n' && LineComment(text, a, m) {
      assert Comment(text, a, m);
      hide Comment;
      ValidCharMeans(text, m);
      GapLonger(text, a, m);
    } else {
      assert OpenLine(text, a) && Gap(text, a, a);
      OpenLineSkips(text, a);
    }
  }

  lemma BlockIsComment(text: string, a: nat)
    requires a + 2 <= |text| && text[a] == '/' && text[a + 1] == '*' && SkipBlock(text, a + 2).Some?
    ensures Comment(text, a, SkipBlock(text, a + 2).value)
  {
    SkipBlockIff(text, a + 2, SkipBlock(text, a + 2).value);
    hide SkipBlock;
  }

  /** White space or a comment in front of what comes. */
  lemma GapLonger(text: string, a: nat, m: nat)
    requires a < m <= |text| && (Comment(text, a, m) || (IsSpace(text[a]) && m == a + 1))
    ensures forall q: nat :: Gap(text, m, q) ==> Gap(text, a, q)
    ensures LastGap(text, m) ==> LastGap(text, a)
  {
    hide Comment;
    forall q: nat | Gap(text, m, q) ensures Gap(text, a, q) {
    }
  }

  /** The next character stands behind white space and comments. */
  lemma ValidCharIff(text: string, a: nat, c: char, p: nat)
    requires a <= |text|
    ensures ValidChar(text, a) == Ok(Some(c), p) <==>
      p > 0 && Gap(text, a, p - 1) && Begins(text, p - 1) && text[p - 1] == c
    ensures (ValidChar(text, a).Ok? && ValidChar(text, a).value.None?) <==> LastGap(text, a)
  {
    ValidCharMeans(text, a);
    hide Begins, OpenLine;
    if p > 0 && Gap(text, a, p - 1) && Begins(text, p - 1) {
      GapSkips(text, a, p - 1);
      BeginsHere(text, p - 1);
    }
    if LastGap(text, a) {
      var m: nat :| Gap(text, a, m) && (m == |text| || OpenLine(text, m));
      GapSkips(text, a, m);
      if m < |text| {
        OpenLineSkips(text, m);
      }
    }
  }

  // ----- strings -----

  /** From `a` to `b` the character `c` is written, as it is or behind a backslash. */
  predicate CharAs(text: string, a: nat, b: nat, c: char) {
    if b == a + 1 && b <= |text| && text[a] != '\\' then text[a] == c && c != '"' && c != '\n'
    else if b == a + 1 && b == |text| then text[a] == '\\' && c == EOF_CHAR
    else
      && b == a + 2 && b <= |text| && text[a] == '\\'
      && c == match text[a + 1]
              case 'n' => '\n'
              case 'r' => '\r'
              case 't' => '\t'
              case x => x
  }

  /** From `a` to `b` the characters of `raw` are written. */
  ghost predicate CharsAs(text: string, a: nat, b: nat, raw: string)
    decreases |raw|
  {
    && a <= b <= |text|
    && if raw == "" then a == b else exists m: nat :: a < m <= b && CharAs(text, a, m, raw[0]) && CharsAs(text, m, b, raw[1..])
  }

  /** `s` is what a C string keeps of `raw`. */
  predicate CutAtNul(raw: string, s: string) {
    s <= raw && '\0' !in s && (|s| < |raw| ==> raw[|s|] == '\0')
  }

  /** Behind the characters of a string, which end at `m`, reading goes on at `p`: behind the closing quote, or
      at the end of the text. */
  predicate ClosesAt(text: string, m: nat, p: nat) {
    if m < |text| then text[m] == '"' && p == m + 1 else m == |text| && p == m
  }

  /** From `a` to `p` there is a string with the content `s`, behind its opening quote. */
  ghost predicate RestOfString(text: string, a: nat, p: nat, s: string) {
    exists m: nat, raw :: CharsAs(text, a, m, raw) && CutAtNul(raw, s) && ClosesAt(text, m, p)
  }

  ghost predicate StringAt(text: string, a: nat, p: nat, s: string) {
    a < |text| && text[a] == '"' && RestOfString(text, a + 1, p, s)
  }

  lemma {:induction false} CStringIff(raw: string, s: string)
    ensures CString(raw) == s <==> CutAtNul(raw, s)
    decreases |raw|
  {
    if raw != "" && raw[0] != '\0' {
      if s != "" && s[0] == raw[0] {
        CStringIff(raw[1..], s[1..]);
        assert s == [s[0]] + s[1..] && raw == [raw[0]] + raw[1..];
        assert '\0' in s <==> '\0' in s[1..];
        assert s <= raw <==> s[1..] <= raw[1..];
      } else if s == "" {
        assert |CString(raw)| > 0;
      }
    } else if raw != "" && s != "" {
      assert s <= raw ==> s[0] == raw[0];
    }
  }

  lemma CharRead(text: string, a: nat, b: nat, c: char, buf: string)
    requires CharAs(text, a, b, c)
    ensures ReadChars(text, a, buf) == ReadChars(text, b, buf + [c])
  {
    hide CString;
  }

  lemma {:induction false} CharsRead(text: string, a: nat, b: nat, raw: string, buf: string)
    requires CharsAs(text, a, b, raw)
    ensures ReadChars(text, a, buf) == ReadChars(text, b, buf + raw)
    decreases |raw|
  {
    hide ReadChars, CharAs;
    if raw == "" {
      assert buf + raw == buf;
    } else {
      var m: nat :| a < m <= b && CharAs(text, a, m, raw[0]) && CharsAs(text, m, b, raw[1..]);
      CharRead(text, a, m, raw[0], buf);
      CharsRead(text, m, b, raw[1..], buf + [raw[0]]);
      assert buf + raw == buf + [raw[0]] + raw[1..];
    }
  }

  /** One character that is read, and what is left. */
  lemma NextCharAs(text: string, a: nat, buf: string) returns (c: char, m: nat)
    requires a < |text| && text[a] != '"' && ReadChars(text, a, buf).Ok?
    ensures a < m <= |text| && CharAs(text, a, m, c) && ReadChars(text, a, buf) == ReadChars(text, m, buf + [c])
  {
    hide CString;
    m := if text[a] == '\\' && a + 1 < |text| then a + 2 else a + 1;
    c := if text[a] != '\\' then text[a] else Unescape(Peek(text, a + 1));
  }

  lemma {:induction false} ReadCharsMeans(text: string, a: nat, buf: string) returns (m: nat, raw: string)
    requires a <= |text| && ReadChars(text, a, buf).Ok?
    ensures CharsAs(text, a, m, raw) && ClosesAt(text, m, ReadChars(text, a, buf).pos)
    ensures ReadChars(text, a, buf).value == CString(buf + raw)
    decreases |text| - a
  {
    hide CharAs, CString;
    if a == |text| || text[a] == '"' {
      m, raw := a, "";
      assert buf + "" == buf;
    } else {
      var c, next := NextCharAs(text, a, buf);
      hide ReadChars;
      m, raw := ReadCharsMeans(text, next, buf + [c]);
      assert buf + [c] + raw == buf + ([c] + raw) && ([c] + raw)[1..] == raw;
      raw := [c] + raw;
    }
  }

  /** The rest of a string is read exactly where there is one. */
  lemma ReadCharsIff(text: string, a: nat, s: string, p: nat)
    requires a <= |text|
    ensures ReadChars(text, a, "") == Ok(s, p) <==> RestOfString(text, a, p, s)
  {
    hide CharsAs, CString, CutAtNul, ClosesAt, ReadChars;
    if ReadChars(text, a, "") == Ok(s, p) {
      var m, raw := ReadCharsMeans(text, a, "");
      assert "" + raw == raw;
      CStringIff(raw, s);
    }
    if RestOfString(text, a, p, s) {
      var m: nat, raw :| CharsAs(text, a, m, raw) && CutAtNul(raw, s) && ClosesAt(text, m, p);
      CharsRead(text, a, m, raw, "");
      assert "" + raw == raw;
      CStringIff(raw, s);
      ClosingRead(text, a, m, p, raw);
    }
  }

  lemma ClosingRead(text: string, a: nat, m: nat, p: nat, raw: string)
    requires CharsAs(text, a, m, raw) && ClosesAt(text, m, p)
    ensures ReadChars(text, m, raw) == Ok(CString(raw), p)
  {
    hide CString, CharAs;
  }

  lemma QuoteBegins(text: string, q: nat)
    requires q < |text| && text[q] == '"'
    ensures Begins(text, q)
  {
  }

  /** A string is read behind white space and comments. */
  lemma ReadStringIff(text: string, a: nat, s: string, p: nat)
    requires a <= |text|
    ensures ReadString(text, a) == Ok(Some(s), p) <==> exists q: nat :: Gap(text, a, q) && StringAt(text, q, p, s)
    ensures (ReadString(text, a).Ok? && ReadString(text, a).value.None?) <==> LastGap(text, a)
  {
    hide ValidChar, ReadChars, Gap, LastGap, RestOfString, Begins;
    if ReadString(text, a) == Ok(Some(s), p) {
      var r := ValidChar(text, a);
      ValidCharIff(text, a, '"', r.pos);
      ReadCharsIff(text, r.pos, s, p);
      assert StringAt(text, r.pos - 1, p, s);
    }
    if q: nat :| Gap(text, a, q) && StringAt(text, q, p, s) {
      QuoteBegins(text, q);
      ValidCharIff(text, a, '"', q + 1);
      ReadCharsIff(text, q + 1, s, p);
    }
    ValidCharIff(text, a, '"', 0);
  }

  // ----- lists -----

  /** From `a` to `p` there is the closing character `c` behind white space and comments, or the end of the
      text. */
  ghost predicate Closing(text: string, a: nat, c: char, p: nat) {
    (p > 0 && Gap(text, a, p - 1) && p - 1 < |text| && text[p - 1] == c) || (LastGap(text, a) && p == |text|)
  }

  /** From `a` to `p` there are the items of a list, behind its opening parenthesis; a comma may stand behind
      the last one. */
  ghost predicate ItemsAt(text: string, a: nat, p: nat, items: seq<string>)
    decreases |items|, 0
  {
    a <= |text| &&
    if items == [] then Closing(text, a, ')', p)
    else
      exists q: nat, m: nat :: Gap(text, a, q) && StringAt(text, q, m, items[0]) && m <= |text|
        && ((|items| == 1 && Closing(text, m, ')', p)) || CommaThen(text, m, p, items[1..]))
  }

  ghost predicate CommaThen(text: string, m: nat, p: nat, items: seq<string>)
    decreases |items|, 1
  {
    exists z: nat :: Gap(text, m, z) && z < |text| && text[z] == ',' && ItemsAt(text, z + 1, p, items)
  }

  predicate Marks(c: char) {
    c == ')' || c == '}' || c == ',' || c == ';' || c == '='
  }

  lemma MarkRead(text: string, a: nat, z: nat)
    requires Gap(text, a, z) && z < |text| && Marks(text[z])
    ensures ValidChar(text, a) == Ok(Some(text[z]), z + 1)
  {
    assert Begins(text, z);
    hide Gap, Begins;
    ValidCharIff(text, a, text[z], z + 1);
  }

  lemma ClosingIff(text: string, a: nat, c: char, p: nat)
    requires a <= |text| && Marks(c)
    ensures Closing(text, a, c, p) <==>
      ValidChar(text, a) == Ok(Some(c), p) || (ValidChar(text, a) == Ok(None, p) && p == |text|)
  {
    if p > 0 && p - 1 < |text| && text[p - 1] == c {
      assert Begins(text, p - 1);
    }
    hide Gap, LastGap, ValidChar, Begins;
    ValidCharIff(text, a, c, p);
  }

  /** The next character is that of a string where one begins. */
  lemma StringNext(text: string, a: nat, q: nat, m: nat, s: string)
    requires Gap(text, a, q) && StringAt(text, q, m, s)
    ensures a <= |text| && ValidChar(text, a) == Ok(Some('"'), q + 1) && q < m <= |text|
    ensures ReadString(text, q) == Ok(Some(s), m) && ReadChars(text, q + 1, "") == Ok(s, m)
  {
    QuoteBegins(text, q);
    GapHere(text, q);
    ReadStringIff(text, q, s, m);
    ReadCharsIff(text, q + 1, s, m);
    hide Gap, RestOfString, Begins, ReadChars, ReadString, ValidChar;
    ValidCharIff(text, a, '"', q + 1);
  }

  lemma GapHere(text: string, q: nat)
    requires q <= |text|
    ensures Gap(text, q, q)
  {
  }

  lemma ItemRead(text: string, a: nat, acc: seq<string>, q: nat, m: nat, s: string)
    requires Gap(text, a, q) && StringAt(text, q, m, s)
    ensures a <= |text| && m <= |text|
    ensures ReadItems(text, a, acc) ==
      match ValidChar(text, m)
      case Err(e) => Err(e)
      case Ok(None, z) => Ok(acc + [s], z)
      case Ok(Some(d), z) =>
        if d == ')' then Ok(acc + [s], z) else if d == ',' then ReadItems(text, z, acc + [s]) else Err(ExpectedComma)
  {
    StringNext(text, a, q, m, s);
    hide ValidChar, ReadString, Gap, StringAt;
  }

  lemma {:induction false} ItemsRead(text: string, a: nat, p: nat, items: seq<string>, acc: seq<string>)
    requires ItemsAt(text, a, p, items)
    ensures ReadItems(text, a, acc) == Ok(acc + items, p)
    decreases |items|
  {
    hide Gap, LastGap, StringAt, ValidChar, ReadString, Closing, ReadItems;
    if items == [] {
      NoItemsRead(text, a, p, acc);
      assert acc + items == acc;
    } else {
      var q: nat, m: nat :| Gap(text, a, q) && StringAt(text, q, m, items[0]) && m <= |text|
        && ((|items| == 1 && Closing(text, m, ')', p)) || CommaThen(text, m, p, items[1..]));
      ItemRead(text, a, acc, q, m, items[0]);
      if CommaThen(text, m, p, items[1..]) {
        var z: nat :| Gap(text, m, z) && z < |text| && text[z] == ',' && ItemsAt(text, z + 1, p, items[1..]);
        MarkRead(text, m, z);
        ItemsRead(text, z + 1, p, items[1..], acc + [items[0]]);
        assert acc + items == acc + [items[0]] + items[1..];
      } else {
        ClosingIff(text, m, ')', p);
        assert items == [items[0]];
      }
    }
  }

  lemma NoItemsRead(text: string, a: nat, p: nat, acc: seq<string>)
    requires a <= |text| && Closing(text, a, ')', p)
    ensures ReadItems(text, a, acc) == Ok(acc, p)
  {
    ClosingIff(text, a, ')', p);
    hide ValidChar, ReadString, Closing;
  }

  /** What the first round of the loop over a list has read. */
  lemma ItemMeans(text: string, a: nat, acc: seq<string>) returns (q: nat, m: nat, s: string)
    requires a <= |text| && ReadItems(text, a, acc).Ok? && !Closing(text, a, ')', ReadItems(text, a, acc).pos)
    ensures Gap(text, a, q) && StringAt(text, q, m, s)
  {
    var r := ValidChar(text, a);
    ClosingIff(text, a, ')', ReadItems(text, a, acc).pos);
    Reread(text, a);
    ValidCharIff(text, a, r.value.value, r.pos);
    q := r.pos - 1;
    var str := ReadString(text, q);
    s, m := str.value.value, str.pos;
    hide ReadString, Closing;
    ReadStringIff(text, q, s, m);
    StartOfString(text, q, m, s);
    hide ValidChar, Gap, StringAt;
  }

  /** A string that is read where something begins is there. */
  lemma StartOfString(text: string, q: nat, m: nat, s: string)
    requires Begins(text, q) && exists z: nat :: Gap(text, q, z) && StringAt(text, z, m, s)
    ensures StringAt(text, q, m, s)
  {
    var z: nat :| Gap(text, q, z) && StringAt(text, z, m, s);
    NoGapHere(text, q, z);
  }

  lemma NoGapHere(text: string, q: nat, z: nat)
    requires Begins(text, q) && Gap(text, q, z)
    ensures z == q
  {
  }

  lemma {:induction false} ItemsMeans(text: string, a: nat, acc: seq<string>) returns (items: seq<string>)
    requires a <= |text| && ReadItems(text, a, acc).Ok?
    ensures ReadItems(text, a, acc).value == acc + items && ItemsAt(text, a, ReadItems(text, a, acc).pos, items)
    decreases |text| - a
  {
    hide Gap, LastGap, StringAt, ValidChar, ReadString, Closing, ReadItems, ReadChars;
    var p := ReadItems(text, a, acc).pos;
    if Closing(text, a, ')', p) {
      NoItemsRead(text, a, p, acc);
      items := [];
      assert acc + [] == acc;
    } else {
      var q, m, s := ItemMeans(text, a, acc);
      StringNext(text, a, q, m, s);
      ItemRead(text, a, acc, q, m, s);
      var r := ValidChar(text, m);
      ClosingIff(text, m, ')', p);
      if r.value == Some(',') {
        ValidCharIff(text, m, ',', r.pos);
        GapOrder(text, a, q);
        GapOrder(text, m, r.pos - 1);
        var rest := ItemsMeans(text, r.pos, acc + [s]);
        items := [s] + rest;
        assert acc + [s] + rest == acc + items && items[1..] == rest;
        assert CommaThen(text, m, p, rest);
      } else {
        if r.value.None? {
          ValidCharNone(text, m);
        }
        items := [s];
      }
    }
  }

  lemma ValidCharNone(text: string, a: nat)
    requires a <= |text| && ValidChar(text, a).Ok? && ValidChar(text, a).value.None?
    ensures ValidChar(text, a).pos == |text|
  {
  }

  lemma GapOrder(text: string, a: nat, b: nat)
    requires Gap(text, a, b)
    ensures a <= b <= |text|
  {
  }

  /** A list is read exactly where there is one. */
  lemma ReadItemsIff(text: string, a: nat, items: seq<string>, p: nat)
    requires a <= |text|
    ensures ReadItems(text, a, []) == Ok(items, p) <==> ItemsAt(text, a, p, items)
  {
    hide ItemsAt, ReadItems;
    assert [] + items == items;
    if ItemsAt(text, a, p, items) {
      ItemsRead(text, a, p, items, []);
    }
    if ReadItems(text, a, []) == Ok(items, p) {
      var items' := ItemsMeans(text, a, []);
      assert [] + items' == items';
    }
  }

  // ----- records, objects and whole texts -----

  /** From `a` to `p` there is the data of a record. */
  ghost predicate NodeAt(text: string, a: nat, p: nat, node: Node)
    decreases if a <= |text| then |text| - a else 0, 0
  {
    a < |text| &&
    match node
    case Empty => false
    case Str(s) => StringAt(text, a, p, s)
    case Strs(items) => text[a] == '(' && ItemsAt(text, a + 1, p, items)
    case Obj(entries) => text[a] == '{' && EntriesAt(text, a + 1, p, entries)
  }

  /** From `a` to `p` there is a record: a key, perhaps an equals sign, data and a semicolon. */
  ghost predicate EntryAt(text: string, a: nat, p: nat, e: Entry)
    decreases if a <= |text| then |text| - a else 0, 1
  {
    exists k: nat, d: nat, y: nat ::
      && a < k <= d <= |text| && StringAt(text, a, k, e.key) && KeyThen(text, k, d)
      && NodeAt(text, d, y, e.node) && p > 0 && Gap(text, y, p - 1) && p - 1 < |text| && text[p - 1] == ';'
  }

  /** Between a key and its data there are white space and comments, with an equals sign or without. */
  ghost predicate KeyThen(text: string, k: nat, d: nat) {
    Gap(text, k, d) || exists r: nat :: Gap(text, k, r) && r < |text| && text[r] == '=' && Gap(text, r + 1, d)
  }

  /** From `a` to `p` there are the records of an object, behind its opening brace. The last one stands first in
      the dict. */
  ghost predicate EntriesAt(text: string, a: nat, p: nat, entries: seq<Entry>)
    decreases if a <= |text| then |text| - a else 0, 2
  {
    a <= |text| &&
    if entries == [] then Closing(text, a, '}', p)
    else
      var n := |entries| - 1;
      exists q: nat, m: nat ::
        a <= q < m <= |text| && Gap(text, a, q) && EntryAt(text, q, m, entries[n]) && EntriesAt(text, m, p, entries[..n])
  }

  /** From `a` on the text holds records, the last of which stands first in the dict. */
  ghost predicate FileAt(text: string, a: nat, entries: seq<Entry>)
    decreases |entries|
  {
    if entries == [] then a <= |text| && LastGap(text, a)
    else
      var n := |entries| - 1;
      exists q: nat, m: nat :: Gap(text, a, q) && EntryAt(text, q, m, entries[n]) && FileAt(text, m, entries[..n])
  }

  lemma NodeStarts(text: string, a: nat, p: nat, node: Node)
    requires NodeAt(text, a, p, node)
    ensures a < |text| && StartsData(text[a]) && Begins(text, a)
  {
  }

  /** What stands behind a key, and where the data begins. */
  lemma KeyNext(text: string, k: nat, d: nat)
    requires KeyThen(text, k, d) && d < |text| && StartsData(text[d])
    ensures k <= |text| && ValidChar(text, k).Ok? && ValidChar(text, k).value.Some?
    ensures var v := ValidChar(text, k);
      (if v.value.value == '=' then ValidChar(text, v.pos) else v) == Ok(Some(text[d]), d + 1)
  {
    assert Begins(text, d);
    hide Gap, Begins, ValidChar;
    if Gap(text, k, d) {
      GapOrder(text, k, d);
      ValidCharIff(text, k, text[d], d + 1);
    } else {
      var r: nat :| Gap(text, k, r) && r < |text| && text[r] == '=' && Gap(text, r + 1, d);
      GapOrder(text, k, r);
      MarkRead(text, k, r);
      ValidCharIff(text, r + 1, text[d], d + 1);
    }
  }

  lemma RecordStep(text: string, a: nat, key: string, k: nat, d: nat, y: nat, node: Node, p: nat)
    requires a <= |text| && ReadString(text, a) == Ok(Some(key), k) && d < |text|
    requires ValidChar(text, k).Ok? && ValidChar(text, k).value.Some?
    requires var v := ValidChar(text, k);
      (if v.value.value == '=' then ValidChar(text, v.pos) else v) == Ok(Some(text[d]), d + 1)
    requires ReadData(text, d) == Ok(node, y) && ValidChar(text, y) == Ok(Some(';'), p)
    ensures ReadRecord(text, a) == Ok(Some(Entry(key, node)), p)
  {
    hide ValidChar, ReadString, ReadData;
  }

  lemma {:induction false} NodeRead(text: string, a: nat, p: nat, node: Node)
    requires NodeAt(text, a, p, node)
    ensures a < |text| && ReadData(text, a) == Ok(node, p)
    decreases if a <= |text| then |text| - a else 0, 0
  {
    hide RestOfString, ItemsAt, EntriesAt, ReadChars, ReadItems, ReadEntries;
    match node
    case Str(s) => ReadCharsIff(text, a + 1, s, p);
    case Strs(items) => ReadItemsIff(text, a + 1, items, p);
    case Obj(entries) =>
      EntriesRead(text, a + 1, p, entries, []);
      assert entries + [] == entries;
  }

  lemma {:induction false} EntryRead(text: string, a: nat, p: nat, e: Entry)
    requires EntryAt(text, a, p, e)
    ensures a < |text| && Begins(text, a) && text[a] == '"' && ReadRecord(text, a) == Ok(Some(e), p)
    decreases if a <= |text| then |text| - a else 0, 1
  {
    var k, d, y := EntryParts(text, a, p, e);
    hide *;
    StringNext(text, a, a, k, e.key);
    NodeStarts(text, d, y, e.node);
    KeyNext(text, k, d);
    NodeRead(text, d, y, e.node);
    MarkRead(text, y, p - 1);
    RecordStep(text, a, e.key, k, d, y, e.node, p);
  }

  lemma EntryParts(text: string, a: nat, p: nat, e: Entry) returns (k: nat, d: nat, y: nat)
    requires EntryAt(text, a, p, e)
    ensures a < k <= d <= |text| && StringAt(text, a, k, e.key) && KeyThen(text, k, d) && NodeAt(text, d, y, e.node)
    ensures p > 0 && Gap(text, y, p - 1) && p - 1 < |text| && text[p - 1] == ';' && Marks(';')
    ensures text[a] == '"' && Begins(text, a) && Gap(text, a, a)
  {
    hide Gap, RestOfString, NodeAt, KeyThen;
    k, d, y :| a < k <= d <= |text| && StringAt(text, a, k, e.key) && KeyThen(text, k, d)
      && NodeAt(text, d, y, e.node) && p > 0 && Gap(text, y, p - 1) && p - 1 < |text| && text[p - 1] == ';';
    GapHere(text, a);
  }

  lemma {:induction false} EntriesRead(text: string, a: nat, p: nat, entries: seq<Entry>, acc: seq<Entry>)
    requires EntriesAt(text, a, p, entries)
    ensures a <= |text| && ReadEntries(text, a, acc) == Ok(entries + acc, p)
    decreases if a <= |text| then |text| - a else 0, 2
  {
    hide Gap, EntryAt, Closing, ReadRecord, ReadString, ValidChar, ReadEntries, Begins;
    if entries == [] {
      NoEntriesRead(text, a, p, acc);
      assert entries + acc == acc;
    } else {
      var n := |entries| - 1;
      var q: nat, m: nat :|
        a <= q < m <= |text| && Gap(text, a, q) && EntryAt(text, q, m, entries[n]) && EntriesAt(text, m, p, entries[..n]);
      EntryRead(text, q, m, entries[n]);
      EntriesStep(text, a, q, m, entries[n], acc);
      EntriesRead(text, m, p, entries[..n], [entries[n]] + acc);
      assert entries + acc == entries[..n] + ([entries[n]] + acc);
    }
  }

  lemma NoEntriesRead(text: string, a: nat, p: nat, acc: seq<Entry>)
    requires a <= |text| && Closing(text, a, '}', p)
    ensures ReadEntries(text, a, acc) == Ok(acc, p)
  {
    ClosingIff(text, a, '}', p);
    hide ValidChar, ReadRecord, Closing;
  }

  lemma EntriesStep(text: string, a: nat, q: nat, m: nat, e: Entry, acc: seq<Entry>)
    requires Gap(text, a, q) && q < m <= |text| && Begins(text, q) && text[q] == '"'
    requires ReadRecord(text, q) == Ok(Some(e), m)
    ensures a <= |text| && ReadEntries(text, a, acc) == ReadEntries(text, m, [e] + acc)
  {
    hide *;
    GapOrder(text, a, q);
    ValidCharIff(text, a, '"', q + 1);
    EntriesUnfold(text, a, q, m, e, acc);
  }

  lemma EntriesUnfold(text: string, a: nat, q: nat, m: nat, e: Entry, acc: seq<Entry>)
    requires a <= |text| && ValidChar(text, a) == Ok(Some('"'), q + 1) && ReadRecord(text, q) == Ok(Some(e), m)
    ensures m <= |text| && ReadEntries(text, a, acc) == ReadEntries(text, m, [e] + acc)
  {
    hide ValidChar, ReadRecord;
  }

  // ----- what is read is there -----

  lemma {:induction false} DataMeans(text: string, a: nat)
    requires a < |text| && ReadData(text, a).Ok?
    ensures NodeAt(text, a, ReadData(text, a).pos, ReadData(text, a).value)
    decreases |text| - a, 0
  {
    var r := ReadData(text, a);
    hide RestOfString, ItemsAt, EntriesAt, ReadChars, ReadItems, ReadEntries;
    match r.value
    case Str(s) => ReadCharsIff(text, a + 1, s, r.pos);
    case Strs(items) => ReadItemsIff(text, a + 1, items, r.pos);
    case Obj(entries) =>
      var es := EntriesMeans(text, a + 1, []);
      assert es + [] == es;
  }

  /** How a record was read. */
  lemma RecordParts(text: string, a: nat) returns (k: nat, d: nat, y: nat)
    requires a <= |text| && ReadRecord(text, a).Ok? && ReadRecord(text, a).value.Some?
    ensures var e := ReadRecord(text, a).value.value; var p := ReadRecord(text, a).pos;
      && ReadString(text, a) == Ok(Some(e.key), k) && a < k <= |text| && ValidChar(text, k).Ok?
      && ValidChar(text, k).value.Some? && d < |text| && ReadData(text, d) == Ok(e.node, y)
      && ValidChar(text, y) == Ok(Some(';'), p)
      && var v := ValidChar(text, k);
         (if v.value.value == '=' then ValidChar(text, v.pos) else v) == Ok(Some(text[d]), d + 1)
  {
    hide ReadString, ReadData;
    k := ReadString(text, a).pos;
    var v := ValidChar(text, k);
    d := (if v.value.value == '=' then ValidChar(text, v.pos) else v).pos - 1;
    y := ReadData(text, d).pos;
    hide ValidChar;
  }

  lemma KeyMeans(text: string, k: nat, d: nat)
    requires k <= |text| && ValidChar(text, k).Ok? && ValidChar(text, k).value.Some? && d < |text|
    requires var v := ValidChar(text, k);
      (if v.value.value == '=' then ValidChar(text, v.pos) else v) == Ok(Some(text[d]), d + 1)
    ensures KeyThen(text, k, d) && k <= d
  {
    var v := ValidChar(text, k);
    ValidCharIff(text, k, v.value.value, v.pos);
    hide ValidChar, Begins, Gap;
    GapOrder(text, k, v.pos - 1);
    if v.value.value == '=' {
      ValidCharIff(text, v.pos, text[d], d + 1);
      GapOrder(text, v.pos, d);
    }
  }

  lemma {:induction false} RecordMeans(text: string, a: nat) returns (q: nat)
    requires a <= |text| && ReadRecord(text, a).Ok? && ReadRecord(text, a).value.Some?
    ensures Gap(text, a, q) && EntryAt(text, q, ReadRecord(text, a).pos, ReadRecord(text, a).value.value)
    decreases |text| - a, 1
  {
    var e, p := ReadRecord(text, a).value.value, ReadRecord(text, a).pos;
    hide ReadRecord, ReadString, ReadData, ValidChar, Gap, RestOfString, NodeAt, KeyThen, Begins;
    var k, d, y := RecordParts(text, a);
    ReadStringIff(text, a, e.key, k);
    q :| Gap(text, a, q) && StringAt(text, q, k, e.key);
    StringNext(text, a, q, k, e.key);
    GapOrder(text, a, q);
    KeyMeans(text, k, d);
    DataMeans(text, d);
    ValidCharIff(text, y, ';', p);
    EntryMade(text, q, k, d, y, p, e);
  }

  lemma EntryMade(text: string, q: nat, k: nat, d: nat, y: nat, p: nat, e: Entry)
    requires q < k <= d <= |text| && StringAt(text, q, k, e.key) && KeyThen(text, k, d)
    requires NodeAt(text, d, y, e.node) && p > 0 && Gap(text, y, p - 1) && p - 1 < |text| && text[p - 1] == ';'
    ensures EntryAt(text, q, p, e)
  {
    hide Gap, NodeAt, StringAt, KeyThen;
  }

  lemma {:induction false} EntriesMeans(text: string, a: nat, acc: seq<Entry>) returns (es: seq<Entry>)
    requires a <= |text| && ReadEntries(text, a, acc).Ok?
    ensures ReadEntries(text, a, acc).value == es + acc && EntriesAt(text, a, ReadEntries(text, a, acc).pos, es)
    decreases |text| - a, 2
  {
    hide *;
    if Closing(text, a, '}', ReadEntries(text, a, acc).pos) {
      NoEntriesRead(text, a, ReadEntries(text, a, acc).pos, acc);
      NoEntriesAt(text, a, ReadEntries(text, a, acc).pos);
      es := [];
      assert [] + acc == acc;
    } else {
      var q, m, e := FirstRecord(text, a, acc);
      var z := RecordMeans(text, q);
      NoGapHere(text, q, z);
      EntriesStep(text, a, q, m, e, acc);
      var rest := EntriesMeans(text, m, [e] + acc);
      EntriesMore(text, a, q, m, rest, e, acc);
      es := rest + [e];
    }
  }

  lemma EntriesMore(text: string, a: nat, q: nat, m: nat, rest: seq<Entry>, e: Entry, acc: seq<Entry>)
    requires a <= q < m <= |text| && Gap(text, a, q) && EntryAt(text, q, m, e)
    requires ReadEntries(text, a, acc).Ok? && ReadEntries(text, a, acc) == ReadEntries(text, m, [e] + acc)
    requires ReadEntries(text, a, acc).value == rest + ([e] + acc)
    requires EntriesAt(text, m, ReadEntries(text, a, acc).pos, rest)
    ensures ReadEntries(text, a, acc).value == rest + [e] + acc
    ensures EntriesAt(text, a, ReadEntries(text, a, acc).pos, rest + [e])
  {
    hide *;
    EntriesLonger(text, a, q, m, ReadEntries(text, a, acc).pos, rest, e);
    assert rest + ([e] + acc) == rest + [e] + acc;
  }

  lemma NoEntriesAt(text: string, a: nat, p: nat)
    requires a <= |text| && Closing(text, a, '}', p)
    ensures EntriesAt(text, a, p, [])
  {
  }

  lemma EntriesLonger(text: string, a: nat, q: nat, m: nat, p: nat, rest: seq<Entry>, e: Entry)
    requires a <= q < m <= |text| && Gap(text, a, q) && EntryAt(text, q, m, e) && EntriesAt(text, m, p, rest)
    ensures EntriesAt(text, a, p, rest + [e])
  {
    assert (rest + [e])[..|rest|] == rest;
    hide Gap, EntryAt;
  }

  /** The first record of an object that is not over. */
  lemma FirstRecord(text: string, a: nat, acc: seq<Entry>) returns (q: nat, m: nat, e: Entry)
    requires a <= |text| && ReadEntries(text, a, acc).Ok? && !Closing(text, a, '}', ReadEntries(text, a, acc).pos)
    ensures a <= q < m <= |text| && Gap(text, a, q) && Begins(text, q) && text[q] == '"'
    ensures ReadRecord(text, q) == Ok(Some(e), m)
  {
    var r := ValidChar(text, a);
    ClosingIff(text, a, '}', ReadEntries(text, a, acc).pos);
    hide Closing, ReadString;
    RereadRecord(text, a);
    ValidCharIff(text, a, r.value.value, r.pos);
    q := r.pos - 1;
    GapOrder(text, a, q);
    var record := ReadRecord(text, q);
    RecordSome(text, q);
    m, e := record.pos, record.value.value;
    hide ReadRecord, Gap, ValidChar, Begins;
    var k, d, y := RecordParts(text, q);
    ReadStringIff(text, q, e.key, k);
    var z: nat :| Gap(text, q, z) && StringAt(text, z, k, e.key);
    NoGapHere(text, q, z);
  }

  lemma RecordSome(text: string, q: nat)
    requires q <= |text| && ReadRecord(text, q).Ok? && (ReadString(text, q).Ok? ==> ReadString(text, q).value.Some?)
    ensures ReadRecord(text, q).value.Some?
  {
    hide ReadString, ReadData, ValidChar;
  }

  // ----- whole texts -----

  lemma {:induction false} FileRead(text: string, a: nat, entries: seq<Entry>, acc: seq<Entry>)
    requires FileAt(text, a, entries)
    ensures a <= |text| && ReadAll(text, a, acc) == Ok(entries + acc, |text|)
    decreases |entries|
  {
    hide Gap, LastGap, EntryAt, ReadRecord, ReadAll, Begins;
    if entries == [] {
      assert entries + acc == acc;
      EndOfFile(text, a, acc);
    } else {
      var n := |entries| - 1;
      var q: nat, m: nat :| Gap(text, a, q) && EntryAt(text, q, m, entries[n]) && FileAt(text, m, entries[..n]);
      GapOrder(text, a, q);
      EntryRead(text, q, m, entries[n]);
      RecordBehind(text, a, q);
      FileRead(text, m, entries[..n], [entries[n]] + acc);
      AllStep(text, a, m, entries[n], acc);
      assert entries + acc == entries[..n] + ([entries[n]] + acc);
    }
  }

  /** Reading goes on behind white space and comments. */
  lemma RecordBehind(text: string, a: nat, q: nat)
    requires Gap(text, a, q)
    ensures a <= q <= |text| && ReadRecord(text, a) == ReadRecord(text, q)
  {
    hide *;
    GapOrder(text, a, q);
    GapSkips(text, a, q);
    SameRecord(text, a, q);
  }

  lemma SameRecord(text: string, a: nat, q: nat)
    requires a <= |text| && q <= |text| && ValidChar(text, a) == ValidChar(text, q)
    ensures ReadRecord(text, a) == ReadRecord(text, q)
  {
    hide ValidChar, ReadData, ReadChars;
    assert ReadString(text, a) == ReadString(text, q);
  }

  lemma AllStep(text: string, a: nat, m: nat, e: Entry, acc: seq<Entry>)
    requires a < |text| && ReadRecord(text, a) == Ok(Some(e), m)
    ensures m <= |text| && ReadAll(text, a, acc) == ReadAll(text, m, [e] + acc)
  {
    hide ReadRecord;
  }

  lemma EndOfFile(text: string, a: nat, acc: seq<Entry>)
    requires a <= |text| && LastGap(text, a)
    ensures ReadAll(text, a, acc) == Ok(acc, |text|)
  {
    ReadStringIff(text, a, "", 0);
    hide LastGap, ReadString, ReadData, ValidChar;
  }

  lemma {:induction false} FileMeans(text: string, a: nat, acc: seq<Entry>) returns (entries: seq<Entry>)
    requires a <= |text| && ReadAll(text, a, acc).Ok?
    ensures ReadAll(text, a, acc).value == entries + acc && FileAt(text, a, entries)
    decreases |text| - a
  {
    hide Gap, LastGap, EntryAt, ReadRecord, Begins;
    if a == |text| {
      NothingLeft(text);
      entries := [];
      assert [] + acc == acc;
    } else if ReadRecord(text, a).value.None? {
      RecordNone(text, a);
      entries := [];
      assert [] + acc == acc;
    } else {
      var e, m := ReadRecord(text, a).value.value, ReadRecord(text, a).pos;
      var q := RecordMeans(text, a);
      AllStep(text, a, m, e, acc);
      var rest := FileMeans(text, m, [e] + acc);
      entries := rest + [e];
      assert rest + ([e] + acc) == entries + acc;
      FileMore(text, a, q, m, e, rest);
    }
  }

  lemma FileMore(text: string, a: nat, q: nat, m: nat, e: Entry, rest: seq<Entry>)
    requires Gap(text, a, q) && EntryAt(text, q, m, e) && FileAt(text, m, rest)
    ensures FileAt(text, a, rest + [e])
  {
    hide Gap, LastGap, EntryAt;
    var entries := rest + [e];
    assert entries[..|entries| - 1] == rest;
  }

  lemma NothingLeft(text: string)
    ensures LastGap(text, |text|)
  {
    GapHere(text, |text|);
  }

  lemma RecordNone(text: string, a: nat)
    requires a <= |text| && ReadRecord(text, a).Ok? && ReadRecord(text, a).value.None?
    ensures LastGap(text, a)
  {
    ReadStringIff(text, a, "", 0);
    hide LastGap, ReadString, ReadData, ValidChar;
  }

  /** A text is read as `entries` exactly if it holds them, with white space and comments anywhere between. */
  lemma ReadAllIff(text: string, entries: seq<Entry>)
    ensures (ReadAll(text, 0, []).Ok? && ReadAll(text, 0, []).value == entries) <==> FileAt(text, 0, entries)
  {
    hide FileAt, ReadAll;
    assert entries + [] == entries;
    if FileAt(text, 0, entries) {
      FileRead(text, 0, entries, []);
    }
    if ReadAll(text, 0, []).Ok? {
      var es := FileMeans(text, 0, []);
      assert es + [] == es;
    }
  }

  /** What is read is there, and where reading fails there is no database. */
  lemma FileOrError(text: string)
    ensures var r := ReadAll(text, 0, []);
      if r.Ok? then FileAt(text, 0, r.value) else forall es :: !FileAt(text, 0, es)
  {
    hide FileAt, ReadAll;
    forall es ensures (ReadAll(text, 0, []).Ok? && ReadAll(text, 0, []).value == es) <==> FileAt(text, 0, es) {
      ReadAllIff(text, es);
    }
  }

  /** White space and comments in front of what is left make no difference. */
  lemma AllBehind(text: string, a: nat, b: nat, acc: seq<Entry>)
    requires Gap(text, a, b)
    ensures a <= b <= |text| && ReadAll(text, a, acc) == ReadAll(text, b, acc)
  {
    hide Gap, LastGap, ReadRecord;
    RecordBehind(text, a, b);
    if b == |text| {
      NothingLeft(text);
      EndOfFile(text, b, acc);
      GapEnds(text, a);
      EndOfFile(text, a, acc);
    }
  }

  lemma GapEnds(text: string, a: nat)
    requires Gap(text, a, |text|)
    ensures LastGap(text, a)
  {
    hide Gap;
  }

  /** What the writer has written is there. */
  lemma WrittenFile(entries: seq<Entry>)
    requires CEntries(entries)
    ensures FileAt(PrintEntries(entries, 0), 0, ReversedEntries(entries))
  {
    hide *;
    RoundTrip(entries);
    ReadAllIff(PrintEntries(entries, 0), ReversedEntries(entries));
  }

  /** Two stars in front of the slash do not end a comment, nor does any even number. */
  lemma StarsInput()
    ensures StarsBefore("/***/", 2, 4) == 2 && ValidChar("/***/", 0) == Err(ExpectedCommentEnd)
  {
    assert SkipBlock("/***/", 2) == None;
  }
}
