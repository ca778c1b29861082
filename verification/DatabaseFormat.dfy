/** The text form of databases: what the writer of database.c emits and what its reader makes of
    a text, as functions, and the proof that they undo each other. */
module DatabaseFormat {
  import opened Text

  /** `Obj` holds the dict's entries from head to tail. */
  datatype Node =
    | Empty
    | Str(s: string)
    | Strs(items: seq<string>)
    | Obj(entries: seq<Entry>)

  datatype Entry = Entry(key: string, node: Node)

  datatype ParseError =
    | UnterminatedString
    | ExpectedOpenQuote
    | ExpectedOpenBrace
    | ExpectedOpenParen
    | ExpectedComma
    | ExpectedStartData
    | ExpectedSemicolon
    | ExpectedRecordData
    | ExpectedCommentEnd

  /** A value read, with the position after it, or the code of the `longjmp`. */
  datatype Res<T> = Ok(value: T, pos: nat) | Err(error: ParseError)

  // ----- writing -----

  function EscapeChar(c: char): string {
    match c
    case '\\' => "\\\\"
    case '\n' => "\\n"
    case '\r' => "\\r"
    case '\t' => "\\t"
    case '"' => "\\\""
    case _ => [c]
  }

  function Escape(s: string): string {
    if s == "" then "" else EscapeChar(s[0]) + Escape(s[1..])
  }

  function Quote(s: string): string {
    "\"" + Escape(s) + "\""
  }

  function Indent(n: nat): string {
    seq(n, i => '\t')
  }

  function PrintItems(items: seq<string>): string {
    if items == [] then ""
    else Quote(items[0]) + (if |items| > 1 then ", " else "") + PrintItems(items[1..])
  }

  function PrintHead(key: string, indent: nat): string {
    Indent(indent) + Quote(key) + " = "
  }

  function PrintNode(node: Node, indent: nat): string {
    match node
    case Empty => ""
    case Str(s) => Quote(s)
    case Strs(items) => "(" + PrintItems(items) + ")"
    case Obj(entries) => "{\n" + PrintEntries(entries, indent + 1) + Indent(indent) + "}"
  }

  /** `database_write_object` and its siblings; an entry without a type is left out. */
  function PrintEntry(e: Entry, indent: nat): string {
    if e.node == Empty then "" else PrintHead(e.key, indent) + PrintNode(e.node, indent) + ";\n"
  }

  function PrintEntries(entries: seq<Entry>, indent: nat): string {
    if entries == [] then "" else PrintEntry(entries[0], indent) + PrintEntries(entries[1..], indent)
  }

  // ----- what is written, by examples -----

  /** The escapes. */
  lemma WrittenStrings()
    ensures Quote("a\t\"") == "\"a\\t\\\"\"" && Quote("\n\r\\") == "\"\\n\\r\\\\\""
  {
    assert "a\t\""[1..] == "\t\"" && "\t\""[1..] == "\"" && "\""[1..] == "";
    assert "\n\r\\"[1..] == "\r\\" && "\r\\"[1..] == "\\" && "\\"[1..] == "";
    assert Escape("\"") == "\\\"" && Escape("\\") == "\\\\";
    assert Escape("\t\"") == "\\t\\\"" && Escape("\r\\") == "\\r\\\\";
  }

  lemma WrittenList(a: string, b: string)
    ensures PrintNode(Strs([a, b]), 1) == "(" + (Quote(a) + ", " + Quote(b)) + ")"
  {
    hide Quote;
    assert [a, b][1..] == [b] && [b][1..] == [];
    assert PrintItems([b]) == Quote(b) by {
      assert Quote(b) + "" + "" == Quote(b);
    }
    assert PrintItems([a, b]) == Quote(a) + ", " + Quote(b);
  }

  lemma WrittenEntry(key: string, node: Node, text: string, indent: nat)
    requires node != Empty && PrintNode(node, indent) == text
    ensures PrintEntries([Entry(key, node)], indent) == Indent(indent) + Quote(key) + " = " + text + ";\n"
  {
    hide Quote, Indent;
    var e := Entry(key, node);
    assert [e][1..] == [] && PrintEntry(e, indent) + "" == PrintEntry(e, indent);
  }

  lemma WrittenObject(o: string, k: string, s: string)
    ensures PrintNode(Obj([Entry(k, Str(s))]), 0) == "{\n" + ("\t" + Quote(k) + " = " + Quote(s) + ";\n") + "}"
  {
    hide Quote;
    WrittenEntry(k, Str(s), Quote(s), 1);
    assert Indent(0) == "" && Indent(1) == "\t";
  }

  // ----- reading -----

  /** The next character, or none at the end of the text. */
  function Peek(text: string, pos: nat): Option<char> {
    if pos < |text| then Some(text[pos]) else None
  }

  /** Past a comment that ends with its line. */
  function SkipLine(text: string, pos: nat): (p: nat)
    requires pos <= |text|
    ensures pos <= p <= |text|
    decreases |text| - pos
  {
    if pos == |text| then pos else if text[pos] == '\n' then pos + 1 else SkipLine(text, pos + 1)
  }

  /** Past a bracketed comment; a star that is not followed by a slash is dropped together with
      the character after it. */
  function SkipBlock(text: string, pos: nat): (p: Option<nat>)
    requires pos <= |text|
    ensures p.Some? ==> pos <= p.value <= |text|
    decreases |text| - pos
  {
    if pos == |text| then None
    else if text[pos] != '*' then SkipBlock(text, pos + 1)
    else if pos + 1 == |text| then None
    else if text[pos + 1] == '/' then Some(pos + 2)
    else SkipBlock(text, pos + 2)
  }

  /** `database_valid_char`: the next character that is neither white space nor in a comment. */
  function ValidChar(text: string, pos: nat): (r: Res<Option<char>>)
    requires pos <= |text|
    ensures r.Ok? ==> pos <= r.pos <= |text|
    ensures r.Ok? && r.value.Some? ==> pos < r.pos && text[r.pos - 1] == r.value.value && !IsSpace(r.value.value)
    ensures r.Ok? && r.value.None? ==> r.pos == |text|
    decreases |text| - pos
  {
    if pos == |text| then Ok(None, pos)
    else if IsSpace(text[pos]) then ValidChar(text, pos + 1)
    else if text[pos] != '/' then Ok(Some(text[pos]), pos + 1)
    else if Peek(text, pos + 1) == Some('/') then ValidChar(text, SkipLine(text, pos + 2))
    else if Peek(text, pos + 1) == Some('*') then
      var end := SkipBlock(text, pos + 2);
      if end.None? then Err(ExpectedCommentEnd) else ValidChar(text, end.value)
    else Ok(Some('/'), pos + 1)
  }

  /** A character pushed back is the next one read. */
  lemma {:induction false} Reread(text: string, pos: nat)
    requires pos <= |text| && ValidChar(text, pos).Ok? && ValidChar(text, pos).value.Some?
    ensures ValidChar(text, ValidChar(text, pos).pos - 1) == ValidChar(text, pos)
    decreases |text| - pos
  {
    hide Peek, SkipLine, SkipBlock;
    if IsSpace(text[pos]) {
      Reread(text, pos + 1);
    } else if text[pos] == '/' && Peek(text, pos + 1) == Some('/') {
      Reread(text, SkipLine(text, pos + 2));
    } else if text[pos] == '/' && Peek(text, pos + 1) == Some('*') {
      Reread(text, SkipBlock(text, pos + 2).value);
    }
  }

  function Unescape(c: Option<char>): char {
    match c
    case Some('n') => '\n'
    case Some('r') => '\r'
    case Some('t') => '\t'
    case Some(d) => d
    case None => EOF_CHAR
  }

  /** What the end of the file looks like when it is stored in a character. */
  const EOF_CHAR: char := 255 as char

  /** A buffer read as a C string. */
  function CString(buf: string): string {
    if buf == "" || buf[0] == '\0' then "" else [buf[0]] + CString(buf[1..])
  }

  function ReadChars(text: string, pos: nat, buf: string): (r: Res<string>)
    requires pos <= |text|
    ensures r.Ok? ==> pos <= r.pos <= |text|
    decreases |text| - pos
  {
    if pos == |text| then Ok(CString(buf), pos)
    else if text[pos] == '"' then Ok(CString(buf), pos + 1)
    else if text[pos] == '\n' then Err(UnterminatedString)
    else if text[pos] != '\\' then ReadChars(text, pos + 1, buf + [text[pos]])
    else ReadChars(text, if pos + 1 < |text| then pos + 2 else pos + 1, buf + [Unescape(Peek(text, pos + 1))])
  }

  /** `database_read_string`; none at the end of the text. */
  function ReadString(text: string, pos: nat): (r: Res<Option<string>>)
    requires pos <= |text|
    ensures r.Ok? ==> pos <= r.pos <= |text| && (if r.value.Some? then pos < r.pos else r.pos == |text|)
  {
    match ValidChar(text, pos)
    case Err(e) => Err(e)
    case Ok(None, p) => Ok(None, p)
    case Ok(Some(c), p) =>
      if c != '"' then Err(ExpectedOpenQuote)
      else match ReadChars(text, p, "")
        case Err(e) => Err(e)
        case Ok(s, q) => Ok(Some(s), q)
  }

  /** The items of a string list; after an item, a comma goes on and a parenthesis or the end of
      the text stops. */
  function ReadItems(text: string, pos: nat, items: seq<string>): (r: Res<seq<string>>)
    requires pos <= |text|
    ensures r.Ok? ==> pos <= r.pos <= |text|
    decreases |text| - pos
  {
    match ValidChar(text, pos)
    case Err(e) => Err(e)
    case Ok(None, p) => Ok(items, p)
    case Ok(Some(c), p) =>
      if c == ')' then Ok(items, p)
      else match ReadString(text, p - 1)
        case Err(e) => Err(e)
        case Ok(None, q) => Reread(text, pos); assert false; Ok(items, q)
        case Ok(Some(s), q) =>
          match ValidChar(text, q)
          case Err(e) => Err(e)
          case Ok(None, z) => Ok(items + [s], z)
          case Ok(Some(d), z) =>
            if d == ')' then Ok(items + [s], z)
            else if d == ',' then ReadItems(text, z, items + [s])
            else Err(ExpectedComma)
  }

  /** The data of a record, told by its first character, which was pushed back to `pos`. */
  function ReadData(text: string, pos: nat): (r: Res<Node>)
    requires pos < |text|
    ensures r.Ok? ==> pos < r.pos <= |text|
    decreases |text| - pos, 0
  {
    if text[pos] == '"' then
      match ReadChars(text, pos + 1, "")
      case Err(e) => Err(e)
      case Ok(s, q) => Ok(Str(s), q)
    else if text[pos] == '(' then
      match ReadItems(text, pos + 1, [])
      case Err(e) => Err(e)
      case Ok(items, q) => Ok(Strs(items), q)
    else if text[pos] == '{' then
      match ReadEntries(text, pos + 1, [])
      case Err(e) => Err(e)
      case Ok(entries, q) => Ok(Obj(entries), q)
    else Err(ExpectedStartData)
  }

  /** `database_read_record`; none when only the end of the text is left. */
  function ReadRecord(text: string, pos: nat): (r: Res<Option<Entry>>)
    requires pos <= |text|
    ensures r.Ok? ==> pos <= r.pos <= |text| && (if r.value.Some? then pos < r.pos else r.pos == |text|)
    decreases |text| - pos, 1
  {
    match ReadString(text, pos)
    case Err(e) => Err(e)
    case Ok(None, p) => Ok(None, p)
    case Ok(Some(key), p) =>
      match ValidChar(text, p)
      case Err(e) => Err(e)
      case Ok(None, q) => Err(ExpectedRecordData)
      case Ok(Some(c), q) =>
        var start := if c == '=' then ValidChar(text, q) else Ok(Some(c), q);
        match start
        case Err(e) => Err(e)
        case Ok(None, z) => Err(ExpectedStartData)
        case Ok(Some(d), z) =>
          match ReadData(text, z - 1)
          case Err(e) => Err(e)
          case Ok(node, y) =>
            match ValidChar(text, y)
            case Err(e) => Err(e)
            case Ok(None, w) => Err(ExpectedSemicolon)
            case Ok(Some(f), w) => if f == ';' then Ok(Some(Entry(key, node)), w) else Err(ExpectedSemicolon)
  }

  /** The records of an object up to its closing brace; each goes to the head of the dict. */
  function ReadEntries(text: string, pos: nat, entries: seq<Entry>): (r: Res<seq<Entry>>)
    requires pos <= |text|
    ensures r.Ok? ==> pos <= r.pos <= |text|
    decreases |text| - pos, 2
  {
    match ValidChar(text, pos)
    case Err(e) => Err(e)
    case Ok(None, p) => Ok(entries, p)
    case Ok(Some(c), p) =>
      if c == '}' then Ok(entries, p)
      else match ReadRecord(text, p - 1)
        case Err(e) => Err(e)
        case Ok(None, q) => RereadRecord(text, pos); assert false; Ok(entries, q)
        case Ok(Some(e), q) => ReadEntries(text, q, [e] + entries)
  }

  lemma RereadRecord(text: string, pos: nat)
    requires pos <= |text| && ValidChar(text, pos).Ok? && ValidChar(text, pos).value.Some?
    ensures var r := ReadString(text, ValidChar(text, pos).pos - 1); r.Ok? ==> r.value.Some?
  {
    Reread(text, pos);
  }

  /** `database_read`: records until the end of the text. */
  function ReadAll(text: string, pos: nat, entries: seq<Entry>): Res<seq<Entry>>
    requires pos <= |text|
    decreases |text| - pos
  {
    if pos == |text| then Ok(entries, pos)
    else match ReadRecord(text, pos)
      case Err(e) => Err(e)
      case Ok(None, p) => Ok(entries, p)
      case Ok(Some(e), p) => ReadAll(text, p, [e] + entries)
  }
}
