/** Reading what was written gives the same tree with siblings reversed at every level. */
module DatabaseRoundTrip {
  import opened DatabaseFormat
  import opened Places
  import opened Text

  // ----- what reading back yields -----

  function Reversed(node: Node): Node {
    match node
    case Obj(entries) => Obj(ReversedEntries(entries))
    case _ => node
  }

  /** `dict_insert` prepends, so the last record read comes first; untyped entries were not
      written. */
  function ReversedEntries(entries: seq<Entry>): seq<Entry> {
    if entries == [] then []
    else
      var e := entries[0];
      ReversedEntries(entries[1..]) + if e.node == Empty then [] else [Entry(e.key, Reversed(e.node))]
  }

  /** All strings of the tree are C strings. */
  predicate CNode(node: Node) {
    match node
    case Empty => true
    case Str(s) => CStr(s)
    case Strs(items) => forall i :: 0 <= i < |items| ==> CStr(items[i])
    case Obj(entries) => CEntries(entries)
  }

  predicate CEntries(entries: seq<Entry>) {
    entries != [] ==> CStr(entries[0].key) && CNode(entries[0].node) && CEntries(entries[1..])
  }

  predicate CStr(s: string) {
    '\0' !in s
  }

  // ----- text at a position -----

  lemma AtFirst(text: string, pos: nat, part: string)
    requires At(text, pos, part) && part != ""
    ensures pos < |text| && text[pos] == part[0] && At(text, pos + 1, part[1..])
  {
    assert part == [part[0]] + part[1..];
    AtJoin(text, pos, [part[0]], part[1..]);
  }

  // ----- white space and strings -----

  lemma {:induction false} SkipsSpace(text: string, pos: nat, blank: string)
    requires At(text, pos, blank) && forall i :: 0 <= i < |blank| ==> IsSpace(blank[i])
    ensures ValidChar(text, pos) == ValidChar(text, pos + |blank|)
    decreases |blank|
  {
    if blank != "" {
      AtFirst(text, pos, blank);
      SkipsSpace(text, pos + 1, blank[1..]);
    }
  }

  /** Reading goes on with what comes after the white space. */
  lemma RecordAfterSpace(text: string, pos: nat, blank: string)
    requires At(text, pos, blank) && forall i :: 0 <= i < |blank| ==> IsSpace(blank[i])
    ensures ReadRecord(text, pos) == ReadRecord(text, pos + |blank|)
  {
    hide ReadData, ReadChars, ValidChar;
    SkipsSpace(text, pos, blank);
    assert ReadString(text, pos) == ReadString(text, pos + |blank|);
  }

  lemma {:induction false} CStringWhole(s: string)
    requires CStr(s)
    ensures CString(s) == s
  {
    if s != "" {
      CStringWhole(s[1..]);
    }
  }

  /** The reader undoes the escapes of the writer, character by character. */
  lemma {:induction false} ReadEscaped(text: string, pos: nat, s: string, buf: string)
    requires At(text, pos, Escape(s) + "\"") && CStr(buf + s)
    ensures ReadChars(text, pos, buf) == Ok(buf + s, pos + |Escape(s)| + 1)
    decreases |s|
  {
    hide ReadChars, At, EscapeChar, CStr;
    if s == "" {
      assert Escape(s) + "\"" == "\"" && buf + s == buf;
      ReadClosingQuote(text, pos, buf);
    } else {
      var c, e, rest := s[0], EscapeChar(s[0]), Escape(s[1..]) + "\"";
      assert Escape(s) + "\"" == e + rest;
      assert buf + s == buf + [c] + s[1..];
      AtJoin(text, pos, e, rest);
      ReadEscapedChar(text, pos, c, buf);
      ReadEscaped(text, pos + |e|, s[1..], buf + [c]);
    }
  }

  lemma ReadClosingQuote(text: string, pos: nat, buf: string)
    requires At(text, pos, "\"") && CStr(buf)
    ensures ReadChars(text, pos, buf) == Ok(buf, pos + 1)
  {
    AtFirst(text, pos, "\"");
    CStringWhole(buf);
  }

  lemma ReadEscapedChar(text: string, pos: nat, c: char, buf: string)
    requires At(text, pos, EscapeChar(c))
    ensures pos + |EscapeChar(c)| <= |text|
    ensures ReadChars(text, pos, buf) == ReadChars(text, pos + |EscapeChar(c)|, buf + [c])
  {
    AtFirst(text, pos, EscapeChar(c));
    if |EscapeChar(c)| == 2 {
      AtFirst(text, pos + 1, EscapeChar(c)[1..]);
    }
  }

  lemma ReadQuoted(text: string, pos: nat, s: string)
    requires At(text, pos, Quote(s)) && CStr(s)
    ensures ValidChar(text, pos) == Ok(Some('"'), pos + 1)
    ensures ReadChars(text, pos + 1, "") == Ok(s, pos + |Quote(s)|)
    ensures ReadString(text, pos) == Ok(Some(s), pos + |Quote(s)|)
  {
    assert Quote(s) == "\"" + (Escape(s) + "\"");
    AtJoin(text, pos, "\"", Escape(s) + "\"");
    AtFirst(text, pos, "\"");
    assert "" + s == s;
    ReadEscaped(text, pos + 1, s, "");
  }

  // ----- string lists -----

  lemma ValidHere(text: string, pos: nat, c: char)
    requires At(text, pos, [c]) && !IsSpace(c) && c != '/'
    ensures ValidChar(text, pos) == Ok(Some(c), pos + 1)
  {
    AtFirst(text, pos, [c]);
  }

  /** An item that is followed by `next`. */
  lemma ReadItemsStep(text: string, pos: nat, acc: seq<string>, s: string, q: nat, next: char)
    requires pos <= |text| && q <= |text| && (next == ')' || next == ',')
    requires ValidChar(text, pos) == Ok(Some('"'), pos + 1) && ReadString(text, pos) == Ok(Some(s), q)
    requires ValidChar(text, q) == Ok(Some(next), q + 1)
    ensures ReadItems(text, pos, acc)
         == if next == ')' then Ok(acc + [s], q + 1) else ReadItems(text, q + 1, acc + [s])
  {
    hide ValidChar, ReadString;
  }

  lemma ItemsAfterSpace(text: string, pos: nat, acc: seq<string>)
    requires At(text, pos, " ")
    ensures ReadItems(text, pos, acc) == ReadItems(text, pos + 1, acc)
  {
    hide ValidChar, ReadString;
    SkipsSpace(text, pos, " ");
  }

  lemma {:induction false} ReadPrintedItems(text: string, pos: nat, items: seq<string>, acc: seq<string>)
    requires At(text, pos, PrintItems(items) + ")")
    requires forall i :: 0 <= i < |items| ==> CStr(items[i])
    ensures ReadItems(text, pos, acc) == Ok(acc + items, pos + |PrintItems(items)| + 1)
    decreases |items|
  {
    hide ValidChar, ReadString, ReadItems, Quote, At, CStr;
    if items == [] {
      assert PrintItems(items) + ")" == ")" && acc + items == acc;
      ReadNoItems(text, pos, acc);
    } else {
      var head, rest := Quote(items[0]), PrintItems(items[1..]) + ")";
      var comma := if |items| > 1 then ", " else "";
      assert PrintItems(items) + ")" == head + (comma + rest);
      AtJoin(text, pos, head, comma + rest);
      AtBound(text, pos, head);
      ReadQuoted(text, pos, items[0]);
      var q := pos + |head|;
      if |items| == 1 {
        assert comma + rest == ")" && items == [items[0]];
        ValidHere(text, q, ')');
        ReadItemsStep(text, pos, acc, items[0], q, ')');
      } else {
        assert comma + rest == "," + (" " + rest);
        AtJoin(text, q, ",", " " + rest);
        ValidHere(text, q, ',');
        ReadItemsStep(text, pos, acc, items[0], q, ',');
        AtJoin(text, q + 1, " ", rest);
        ItemsAfterSpace(text, q + 1, acc + [items[0]]);
        ReadPrintedItems(text, q + 2, items[1..], acc + [items[0]]);
        assert acc + items == acc + [items[0]] + items[1..];
      }
    }
  }

  lemma ReadNoItems(text: string, pos: nat, acc: seq<string>)
    requires At(text, pos, ")")
    ensures ReadItems(text, pos, acc) == Ok(acc, pos + 1)
  {
    ValidHere(text, pos, ')');
  }

  lemma AtBound(text: string, pos: nat, part: string)
    requires At(text, pos, part)
    ensures pos + |part| <= |text|
  {
  }

  // ----- records and objects -----

  /** An entry as it is written, without its indentation and its line end. */
  function Record(e: Entry, indent: nat): string {
    Quote(e.key) + (" = " + (PrintNode(e.node, indent) + ";"))
  }

  lemma EntryText(e: Entry, indent: nat)
    requires e.node != Empty
    ensures PrintEntry(e, indent) == Indent(indent) + (Record(e, indent) + "\n")
  {
    var head, node := Quote(e.key), PrintNode(e.node, indent);
    assert PrintEntry(e, indent) == Indent(indent) + head + " = " + node + ";\n";
    assert node + ";\n" == node + ";" + "\n";
  }

  /** A key, and data that starts with `d` at `z` and ends before a semicolon. */
  lemma ReadRecordStep(text: string, pos: nat, key: string, p: nat, d: char, node: Node, y: nat)
    requires pos <= |text| && p + 3 < |text| && y < |text|
    requires ReadString(text, pos) == Ok(Some(key), p)
    requires ValidChar(text, p) == Ok(Some('='), p + 2) && ValidChar(text, p + 2) == Ok(Some(d), p + 4)
    requires ReadData(text, p + 3) == Ok(node, y) && ValidChar(text, y) == Ok(Some(';'), y + 1)
    ensures ReadRecord(text, pos) == Ok(Some(Entry(key, node)), y + 1)
  {
    hide ValidChar, ReadString, ReadData;
  }

  lemma SpaceThen(text: string, pos: nat, c: char)
    requires At(text, pos, [' ', c]) && !IsSpace(c) && c != '/'
    ensures ValidChar(text, pos) == Ok(Some(c), pos + 2)
  {
    AtJoin(text, pos, " ", [c]);
    assert [' ', c] == " " + [c];
    SkipsSpace(text, pos, " ");
    ValidHere(text, pos + 1, c);
  }

  predicate StartsData(d: char) {
    d == '"' || d == '(' || d == '{'
  }

  lemma NodeStart(node: Node, indent: nat)
    requires node != Empty
    ensures PrintNode(node, indent) != "" && StartsData(PrintNode(node, indent)[0])
  {
    hide PrintItems, PrintEntries, Escape;
  }

  lemma {:induction false} ReadPrintedRecord(text: string, pos: nat, e: Entry, indent: nat)
    requires At(text, pos, Record(e, indent)) && e.node != Empty && CStr(e.key) && CNode(e.node)
    ensures ValidChar(text, pos) == Ok(Some('"'), pos + 1)
    ensures ReadRecord(text, pos) == Ok(Some(Entry(e.key, Reversed(e.node))), pos + |Record(e, indent)|)
    decreases e, 1
  {
    hide ValidChar, ReadString, ReadData, ReadRecord, ReadChars, Quote, At, CStr, CNode, Reversed, PrintNode;
    var key, node := Quote(e.key), PrintNode(e.node, indent);
    AtJoin(text, pos, key, " = " + (node + ";"));
    ReadQuoted(text, pos, e.key);
    var p := pos + |key|;
    AtJoin(text, p, " = ", node + ";");
    assert " = " == " =" + " ";
    AtJoin(text, p, " =", " ");
    SpaceThen(text, p, '=');
    var z := p + 3;
    AtJoin(text, z, node, ";");
    NodeStart(e.node, indent);
    AtFront(text, p + 2, z, node);
    SpaceThen(text, p + 2, node[0]);
    ReadPrintedData(text, z, e.node, indent);
    var y := z + |node|;
    ValidHere(text, y, ';');
    AtBound(text, y, ";");
    ReadRecordStep(text, pos, e.key, p, node[0], Reversed(e.node), y);
  }

  /** The blank before a text and its first character. */
  lemma AtFront(text: string, b: nat, pos: nat, part: string)
    requires pos == b + 1 && At(text, b, " ") && At(text, pos, part) && part != ""
    ensures At(text, b, [' ', part[0]])
  {
    AtFirst(text, pos, part);
    AtFirst(text, b, " ");
  }

  lemma {:induction false} ReadPrintedData(text: string, pos: nat, node: Node, indent: nat)
    requires At(text, pos, PrintNode(node, indent)) && node != Empty && CNode(node) && pos < |text|
    ensures ReadData(text, pos) == Ok(Reversed(node), pos + |PrintNode(node, indent)|)
    decreases node, 0
  {
    hide ValidChar, ReadChars, ReadItems, ReadEntries, Quote, PrintItems, PrintEntries;
    match node
    case Str(s) =>
      ReadQuoted(text, pos, s);
      QuoteFirst(text, pos, s);
    case Strs(items) =>
      var rest := PrintItems(items) + ")";
      assert PrintNode(node, indent) == "(" + rest;
      AtJoin(text, pos, "(", rest);
      AtFirst(text, pos, "(");
      ReadPrintedItems(text, pos + 1, items, []);
      assert [] + items == items;
    case Obj(entries) =>
      var body := PrintEntries(entries, indent + 1) + (Indent(indent) + "}");
      assert PrintNode(node, indent) == "{" + ("\n" + body);
      AtJoin(text, pos, "{", "\n" + body);
      AtFirst(text, pos, "{");
      AtJoin(text, pos + 1, "\n", body);
      EntriesAfterSpace(text, pos + 1, "\n", []);
      ReadPrintedEntries(text, pos + 2, entries, indent + 1, indent, []);
      assert ReversedEntries(entries) + [] == ReversedEntries(entries);
  }

  lemma QuoteFirst(text: string, pos: nat, s: string)
    requires At(text, pos, Quote(s))
    ensures pos < |text| && text[pos] == '"'
  {
    AtFirst(text, pos, Quote(s));
  }

  lemma EntriesAfterSpace(text: string, pos: nat, blank: string, acc: seq<Entry>)
    requires At(text, pos, blank) && forall i :: 0 <= i < |blank| ==> IsSpace(blank[i])
    ensures ReadEntries(text, pos, acc) == ReadEntries(text, pos + |blank|, acc)
  {
    hide ValidChar, ReadRecord;
    SkipsSpace(text, pos, blank);
  }

  /** The records of an object, up to its indented closing brace. */
  lemma {:induction false} ReadPrintedEntries(
    text: string, pos: nat, entries: seq<Entry>, indent: nat, outer: nat, acc: seq<Entry>)
    requires At(text, pos, PrintEntries(entries, indent) + (Indent(outer) + "}")) && CEntries(entries)
    ensures ReadEntries(text, pos, acc)
         == Ok(ReversedEntries(entries) + acc, pos + |PrintEntries(entries, indent)| + outer + 1)
    decreases entries, 2
  {
    hide ValidChar, ReadEntries, ReadRecord, At, CStr, CNode, Reversed, PrintEntry, PrintEntries, ReversedEntries;
    hide Indent;
    IndentLength(outer);
    EntriesSplit(entries, indent, Indent(outer) + "}", acc);
    if entries == [] {
      ReadClosingBrace(text, pos, outer, acc);
    } else {
      var e, rest := entries[0], PrintEntries(entries[1..], indent) + (Indent(outer) + "}");
      AtJoin(text, pos, PrintEntry(e, indent), rest);
      var acc' := if e.node == Empty then acc else [Entry(e.key, Reversed(e.node))] + acc;
      ReadPrintedEntry(text, pos, e, indent, acc, acc');
      ReadPrintedEntries(text, pos + |PrintEntry(e, indent)|, entries[1..], indent, outer, acc');
    }
  }

  lemma EntriesSplit(entries: seq<Entry>, indent: nat, tail: string, acc: seq<Entry>)
    ensures entries == [] ==> PrintEntries(entries, indent) + tail == tail && PrintEntries(entries, indent) == ""
    ensures entries == [] ==> ReversedEntries(entries) + acc == acc
    ensures entries != [] ==>
              var e := entries[0];
              && PrintEntries(entries, indent) + tail == PrintEntry(e, indent) + (PrintEntries(entries[1..], indent) + tail)
              && |PrintEntries(entries, indent)| == |PrintEntry(e, indent)| + |PrintEntries(entries[1..], indent)|
              && ReversedEntries(entries) + acc
                 == ReversedEntries(entries[1..])
                    + if e.node == Empty then acc else [Entry(e.key, Reversed(e.node))] + acc
  {
    hide PrintEntry, Reversed;
  }

  lemma IndentLength(n: nat)
    ensures |Indent(n)| == n
  {
  }

  lemma ReadClosingBrace(text: string, pos: nat, outer: nat, acc: seq<Entry>)
    requires At(text, pos, Indent(outer) + "}")
    ensures ReadEntries(text, pos, acc) == Ok(acc, pos + outer + 1)
  {
    hide At;
    AtJoin(text, pos, Indent(outer), "}");
    EntriesAfterSpace(text, pos, Indent(outer), acc);
    ValidHere(text, pos + outer, '}');
    AtBound(text, pos + outer, "}");
  }

  /** One written entry, with the line end after it. */
  lemma {:induction false} ReadPrintedEntry(
    text: string, pos: nat, e: Entry, indent: nat, acc: seq<Entry>, acc': seq<Entry>)
    requires At(text, pos, PrintEntry(e, indent)) && CStr(e.key) && CNode(e.node)
    requires acc' == if e.node == Empty then acc else [Entry(e.key, Reversed(e.node))] + acc
    ensures pos + |PrintEntry(e, indent)| <= |text|
    ensures ReadEntries(text, pos, acc) == ReadEntries(text, pos + |PrintEntry(e, indent)|, acc')
    decreases e, 2
  {
    hide ValidChar, ReadEntries, ReadRecord, At, CStr, CNode, Reversed, Record;
    AtBound(text, pos, PrintEntry(e, indent));
    if e.node != Empty {
      EntryText(e, indent);
      AtJoin(text, pos, Indent(indent), Record(e, indent) + "\n");
      EntriesAfterSpace(text, pos, Indent(indent), acc);
      var p := pos + indent;
      AtJoin(text, p, Record(e, indent), "\n");
      ReadPrintedRecord(text, p, e, indent);
      ReadEntriesStep(text, p, acc, Entry(e.key, Reversed(e.node)), p + |Record(e, indent)|);
      EntriesAfterSpace(text, p + |Record(e, indent)|, "\n", acc');
    }
  }

  lemma ReadEntriesStep(text: string, pos: nat, acc: seq<Entry>, e: Entry, q: nat)
    requires pos <= |text| && q <= |text|
    requires ValidChar(text, pos) == Ok(Some('"'), pos + 1) && ReadRecord(text, pos) == Ok(Some(e), q)
    ensures ReadEntries(text, pos, acc) == ReadEntries(text, q, [e] + acc)
  {
    hide ValidChar, ReadRecord;
  }

  // ----- whole databases -----

  lemma AllAfterSpace(text: string, pos: nat, blank: string, acc: seq<Entry>)
    requires At(text, pos, blank) && (blank == "" || blank == "\n")
    ensures ReadRecord(text, pos) == ReadRecord(text, pos + |blank|)
  {
    hide ReadRecord;
    RecordAfterSpace(text, pos, blank);
  }

  lemma ReadAllStep(text: string, pos: nat, acc: seq<Entry>, e: Entry, q: nat)
    requires pos < |text| && ReadRecord(text, pos) == Ok(Some(e), q)
    ensures q <= |text| && ReadAll(text, pos, acc) == ReadAll(text, q, [e] + acc)
  {
    hide ReadRecord;
  }

  lemma ReadAllEnd(text: string, pos: nat, blank: string, acc: seq<Entry>)
    requires At(text, pos, blank) && pos + |blank| == |text| && (blank == "" || blank == "\n")
    ensures ReadAll(text, pos, acc) == Ok(acc, |text|)
  {
    hide ReadData;
    AllAfterSpace(text, pos, blank, acc);
    assert ReadString(text, |text|) == Ok(None, |text|);
  }

  lemma {:induction false} ReadAllPrinted(text: string, pos: nat, blank: string, entries: seq<Entry>, acc: seq<Entry>)
    requires At(text, pos, blank + PrintEntries(entries, 0)) && (blank == "" || blank == "\n")
    requires pos + |blank| + |PrintEntries(entries, 0)| == |text| && CEntries(entries)
    ensures ReadAll(text, pos, acc) == Ok(ReversedEntries(entries) + acc, |text|)
    decreases entries
  {
    hide ReadAll, ReadRecord, PrintEntry, PrintEntries, At, CStr, CNode, Reversed, ReversedEntries, Record;
    EntriesSplit(entries, 0, "", acc);
    if entries == [] {
      assert blank + "" == blank;
      ReadAllEnd(text, pos, blank, acc);
    } else {
      var e, rest := entries[0], PrintEntries(entries[1..], 0);
      assert PrintEntries(entries, 0) + "" == PrintEntries(entries, 0) && rest + "" == rest;
      if e.node == Empty {
        PrintNothing(e, 0);
        assert "" + rest == rest;
        ReadAllPrinted(text, pos, blank, entries[1..], acc);
      } else {
        var line := Record(e, 0);
        EntryText(e, 0);
        assert Indent(0) + (line + "\n") == line + "\n";
        assert blank + PrintEntries(entries, 0) == blank + (line + ("\n" + rest));
        AtJoin(text, pos, blank, line + ("\n" + rest));
        var p := pos + |blank|;
        AtJoin(text, p, line, "\n" + rest);
        AllAfterSpace(text, pos, blank, acc);
        ReadPrintedRecord(text, p, e, 0);
        ReadAllStep(text, pos, acc, Entry(e.key, Reversed(e.node)), p + |line|);
        ReadAllPrinted(text, p + |line|, "\n", entries[1..], [Entry(e.key, Reversed(e.node))] + acc);
      }
    }
  }

  lemma PrintNothing(e: Entry, indent: nat)
    requires e.node == Empty
    ensures PrintEntry(e, indent) == ""
  {
  }

  /** Reading what was written never fails, and gives the tree with siblings reversed. */
  lemma RoundTrip(entries: seq<Entry>)
    requires CEntries(entries)
    ensures var text := PrintEntries(entries, 0);
      ReadAll(text, 0, []) == Ok(ReversedEntries(entries), |text|)
  {
    hide ReadAll, PrintEntries, CEntries, ReversedEntries;
    var text := PrintEntries(entries, 0);
    assert "" + text == text && text[0..|text|] == text && ReversedEntries(entries) + [] == ReversedEntries(entries);
    ReadAllPrinted(text, 0, "", entries, []);
  }

  /** Every entry of the tree has a type. */
  predicate Typed(node: Node) {
    match node
    case Empty => false
    case Obj(entries) => TypedEntries(entries)
    case _ => true
  }

  predicate TypedEntries(entries: seq<Entry>) {
    entries != [] ==> Typed(entries[0].node) && TypedEntries(entries[1..])
  }

  lemma {:induction false} ReversedAppend(s: seq<Entry>, t: seq<Entry>)
    ensures ReversedEntries(s + t) == ReversedEntries(t) + ReversedEntries(s)
    decreases |s|
  {
    if s == [] {
      assert s + t == t;
    } else {
      assert (s + t)[1..] == s[1..] + t && (s + t)[0] == s[0];
      ReversedAppend(s[1..], t);
    }
  }

  lemma {:induction false} ReversedTwice(entries: seq<Entry>)
    requires TypedEntries(entries)
    ensures ReversedEntries(ReversedEntries(entries)) == entries
    decreases entries
  {
    if entries != [] {
      var e := entries[0];
      NodeReversedTwice(e.node);
      ReversedTwice(entries[1..]);
      var last := [Entry(e.key, Reversed(e.node))];
      ReversedAppend(ReversedEntries(entries[1..]), last);
      assert ReversedEntries(last) == [e] by {
        assert ReversedEntries(last[1..]) == [];
      }
    }
  }

  lemma {:induction false} NodeReversedTwice(node: Node)
    requires Typed(node)
    ensures Reversed(node) != Empty && Reversed(Reversed(node)) == node
    decreases node
  {
    match node
    case Obj(entries) => ReversedTwice(entries);
    case _ =>
  }

  lemma {:induction false} ReversedIsC(entries: seq<Entry>)
    requires CEntries(entries)
    ensures CEntries(ReversedEntries(entries))
    decreases entries
  {
    if entries != [] {
      ReversedIsC(entries[1..]);
      NodeReversedIsC(entries[0].node);
      if entries[0].node != Empty {
        CEntriesPush(ReversedEntries(entries[1..]), Entry(entries[0].key, Reversed(entries[0].node)));
      } else {
        assert ReversedEntries(entries) == ReversedEntries(entries[1..]);
      }
    }
  }

  lemma {:induction false} CEntriesPush(s: seq<Entry>, e: Entry)
    requires CEntries(s) && CStr(e.key) && CNode(e.node)
    ensures CEntries(s + [e])
  {
    if s != [] {
      assert (s + [e])[1..] == s[1..] + [e];
      CEntriesPush(s[1..], e);
    } else {
      assert (s + [e])[1..] == [];
    }
  }

  lemma {:induction false} NodeReversedIsC(node: Node)
    requires CNode(node)
    ensures CNode(Reversed(node))
    decreases node
  {
    match node
    case Obj(entries) => ReversedIsC(entries);
    case _ =>
  }

  /** Writing and reading twice is the identity. */
  lemma TwoRoundTrips(entries: seq<Entry>)
    requires CEntries(entries) && TypedEntries(entries)
    ensures var once := ReadAll(PrintEntries(entries, 0), 0, []);
      && once.Ok?
      && var again := PrintEntries(once.value, 0);
         ReadAll(again, 0, []) == Ok(entries, |again|)
  {
    hide ReadAll, PrintEntries, CEntries, TypedEntries, ReversedEntries;
    RoundTrip(entries);
    ReversedIsC(entries);
    RoundTrip(ReversedEntries(entries));
    ReversedTwice(entries);
  }
}
