/** The reader and the writer of database.c as they run: a map with a position and one-character
    push-back, and an output with an indentation depth. */
module Database {
  import opened DatabaseFormat
  import opened DatabaseGrammar
  import opened Text

  class Reader {
    const map_: array<char>
    var pos: nat

    predicate Valid()
      reads this
    {
      pos <= map_.Length
    }

    ghost function Text(): string
      reads this, map_
    {
      map_[..]
    }

    constructor (map_: array<char>)
      ensures this.map_ == map_ && pos == 0 && Valid()
    {
      this.map_, pos := map_, 0;
    }

    method Getc() returns (c: Option<char>)
      requires Valid()
      modifies this
      ensures Valid() && c == Peek(Text(), old(pos))
      ensures pos == if c.Some? then old(pos) + 1 else old(pos)
    {
      if pos >= map_.Length {
        return None;
      }
      pos := pos + 1;
      return Some(map_[pos - 1]);
    }

    /** The character last read goes back into the map. */
    method Ungetc(c: char)
      requires Valid() && pos > 0 && map_[pos - 1] == c
      modifies this, map_
      ensures Valid() && pos == old(pos) - 1 && Text() == old(Text())
    {
      pos := pos - 1;
      map_[pos] := c;
    }

    /** The rest of a comment up to the end of its line. */
    method SkipLineComment()
      requires Valid()
      modifies this
      ensures Valid() && pos == SkipLine(Text(), old(pos))
    {
      var c := Getc();
      while c.Some? && c.value != '\n'
        invariant Valid() && (c.Some? ==> pos > 0 && c.value == map_[pos - 1])
        invariant SkipLine(Text(), old(pos))
               == if c.Some? && c.value == '\n' then pos else if c.None? then |Text()| else SkipLine(Text(), pos)
        invariant c.None? ==> pos == map_.Length
        decreases map_.Length - pos, c.Some?
      {
        c := Getc();
      }
    }

    method SkipBlockComment() returns (ok: bool)
      requires Valid()
      modifies this
      ensures Valid()
      ensures ok <==> SkipBlock(Text(), old(pos)).Some?
      ensures ok ==> pos == SkipBlock(Text(), old(pos)).value
    {
      while true
        invariant Valid() && SkipBlock(Text(), old(pos)) == SkipBlock(Text(), pos)
        decreases map_.Length - pos
      {
        var c := Getc();
        if c.None? {
          return false;
        }
        if c.value == '*' {
          c := Getc();
          if c.None? {
            return false;
          }
          if c.value == '/' {
            return true;
          }
        }
      }
    }

    /** `database_valid_char`. */
    method NextChar() returns (r: Res<Option<char>>)
      requires Valid()
      modifies this, map_
      ensures Valid() && Text() == old(Text()) && r == ValidChar(Text(), old(pos))
      ensures r.Ok? ==> pos == r.pos
    {
      while pos < map_.Length
        invariant Valid() && Text() == old(Text())
        invariant ValidChar(Text(), old(pos)) == ValidChar(Text(), pos)
      {
        var c := Getc();
        if IsSpace(c.value) {
          continue;
        }
        if c.value != '/' {
          return Ok(c, pos);
        }
        var cc := Getc();
        if cc == Some('/') {
          SkipLineComment();
        } else if cc == Some('*') {
          var ok := SkipBlockComment();
          if !ok {
            return Err(ExpectedCommentEnd);
          }
        } else {
          if cc.Some? {
            Ungetc(cc.value);
          }
          return Ok(c, pos);
        }
      }
      return Ok(None, pos);
    }

    /** `database_read_string`. */
    method ReadStr() returns (r: Res<Option<string>>)
      requires Valid()
      modifies this, map_
      ensures Valid() && Text() == old(Text()) && r == ReadString(Text(), old(pos))
      ensures r.Ok? ==> pos == r.pos
    {
      hide CString, ValidChar;
      var c := NextChar();
      if c.Err? {
        return Err(c.error);
      } else if c.value.None? {
        return Ok(None, pos);
      } else if c.value.value != '"' {
        return Err(ExpectedOpenQuote);
      }
      var buf := "";
      while pos < map_.Length && map_[pos] != '"'
        invariant Valid() && Text() == old(Text())
        invariant ReadChars(Text(), c.pos, "") == ReadChars(Text(), pos, buf)
      {
        var d := Getc();
        if d.value != '\\' {
          if d.value == '\n' {
            Ungetc('\n');
            return Err(UnterminatedString);
          }
          buf := buf + [d.value];
        } else {
          d := Getc();
          buf := buf + [Unescape(d)];
        }
      }
      if pos < map_.Length {
        var quote := Getc();
      }
      return Ok(Some(CString(buf)), pos);
    }

    /** `database_read_stringlist` after its parenthesis. */
    method ReadStrs() returns (r: Res<seq<string>>)
      requires Valid()
      modifies this, map_
      ensures Valid() && Text() == old(Text()) && r == ReadItems(Text(), old(pos), [])
      ensures r.Ok? ==> pos == r.pos
    {
      hide ValidChar, ReadString;
      var items := [];
      while true
        invariant Valid() && Text() == old(Text())
        invariant ReadItems(Text(), old(pos), []) == ReadItems(Text(), pos, items)
        decreases map_.Length - pos
      {
        ghost var start := pos;
        var c := NextChar();
        if c.Err? {
          return Err(c.error);
        } else if c.value.None? || c.value.value == ')' {
          return Ok(items, pos);
        }
        Ungetc(c.value.value);
        var s := ReadStr();
        if s.Err? {
          return Err(s.error);
        }
        RereadRecord(Text(), start);
        items := items + [s.value.value];
        c := NextChar();
        if c.Err? {
          return Err(c.error);
        } else if c.value.None? || c.value.value == ')' {
          return Ok(items, pos);
        } else if c.value.value != ',' {
          return Err(ExpectedComma);
        }
      }
    }

    /** `database_read_object` after its brace: records go to the head of the dict. */
    method ReadObject() returns (r: Res<seq<Entry>>)
      requires Valid()
      modifies this, map_
      ensures Valid() && Text() == old(Text()) && r == ReadEntries(Text(), old(pos), [])
      ensures r.Ok? ==> pos == r.pos
      decreases map_.Length - pos, 2
    {
      hide ValidChar, ReadString, ReadData, ReadRecord;
      var entries := [];
      while true
        invariant Valid() && Text() == old(Text()) && old(pos) <= pos
        invariant ReadEntries(Text(), old(pos), []) == ReadEntries(Text(), pos, entries)
        decreases map_.Length - pos
      {
        ghost var start := pos;
        var c := NextChar();
        if c.Err? {
          return Err(c.error);
        } else if c.value.None? || c.value.value == '}' {
          return Ok(entries, pos);
        }
        Ungetc(c.value.value);
        var e := ReadEntry();
        if e.Err? {
          return Err(e.error);
        }
        RereadRecord(Text(), start);
        RecordThere(Text(), c.pos - 1);
        entries := [e.value.value] + entries;
      }
    }

    /** `database_read_record`. */
    method ReadEntry() returns (r: Res<Option<Entry>>)
      requires Valid()
      modifies this, map_
      ensures Valid() && Text() == old(Text()) && r == ReadRecord(Text(), old(pos))
      ensures r.Ok? ==> pos == r.pos
      decreases map_.Length - pos, 1
    {
      hide ValidChar, ReadString, ReadItems, ReadEntries;
      var key := ReadStr();
      if key.Err? {
        return Err(key.error);
      } else if key.value.None? {
        return Ok(None, pos);
      }
      var c := NextChar();
      if c.Err? {
        return Err(c.error);
      } else if c.value.None? {
        return Err(ExpectedRecordData);
      }
      if c.value.value == '=' {
        c := NextChar();
        if c.Err? {
          return Err(c.error);
        } else if c.value.None? {
          return Err(ExpectedStartData);
        }
      }
      Ungetc(c.value.value);
      var node := ReadValue();
      if node.Err? {
        return Err(node.error);
      }
      c := NextChar();
      if c.Err? {
        return Err(c.error);
      } else if c.value != Some(';') {
        return Err(ExpectedSemicolon);
      }
      return Ok(Some(Entry(key.value.value, node.value)), pos);
    }

    /** The switch on the first character of the data. */
    method ReadValue() returns (r: Res<Node>)
      requires Valid() && pos < map_.Length
      modifies this, map_
      ensures Valid() && Text() == old(Text()) && r == ReadData(Text(), old(pos))
      ensures r.Ok? ==> pos == r.pos
      decreases map_.Length - pos, 0
    {
      hide ReadItems, ReadEntries, ReadChars;
      if map_[pos] == '"' {
        QuoteHere(Text(), pos);
        var s := ReadStr();
        if s.Err? {
          return Err(s.error);
        }
        return Ok(Str(s.value.value), pos);
      } else if map_[pos] == '(' {
        var c := Getc();
        var items := ReadStrs();
        if items.Err? {
          return Err(items.error);
        }
        return Ok(Strs(items.value), pos);
      } else if map_[pos] == '{' {
        var c := Getc();
        var entries := ReadObject();
        if entries.Err? {
          return Err(entries.error);
        }
        return Ok(Obj(entries.value), pos);
      }
      return Err(ExpectedStartData);
    }

    /** `database_read`. */
    method Read() returns (r: Res<seq<Entry>>)
      requires Valid()
      modifies this, map_
      ensures Valid() && Text() == old(Text()) && r == ReadAll(Text(), old(pos), [])
      ensures old(pos) == 0 ==> if r.Ok? then FileAt(Text(), 0, r.value) else forall es :: !FileAt(Text(), 0, es)
    {
      hide ReadRecord, FileAt;
      if pos == 0 {
        FileOrError(Text());
      }
      var entries := [];
      while pos < map_.Length
        invariant Valid() && Text() == old(Text())
        invariant ReadAll(Text(), old(pos), []) == ReadAll(Text(), pos, entries)
        decreases map_.Length - pos
      {
        var e := ReadEntry();
        if e.Err? {
          return Err(e.error);
        }
        if e.value.Some? {
          entries := [e.value.value] + entries;
        } else {
          return Ok(entries, pos);
        }
      }
      return Ok(entries, pos);
    }
  }

  lemma RecordThere(text: string, pos: nat)
    requires pos <= |text| && ReadRecord(text, pos).Ok?
    requires ReadString(text, pos).Ok? ==> ReadString(text, pos).value.Some?
    ensures ReadRecord(text, pos).value.Some?
  {
    hide ReadString, ReadData, ValidChar;
  }

  lemma QuoteHere(text: string, pos: nat)
    requires pos < |text| && text[pos] == '"'
    ensures ReadString(text, pos) == match ReadChars(text, pos + 1, "")
              case Err(e) => Err(e)
              case Ok(s, q) => Ok(Some(s), q)
  {
    hide ReadChars;
    assert ValidChar(text, pos) == Ok(Some('"'), pos + 1);
  }

  class Writer {
    var out: string
    var indent: nat

    constructor ()
      ensures out == "" && indent == 0
    {
      out, indent := "", 0;
    }

    method WriteIndent()
      modifies this`out
      ensures out == old(out) + Indent(indent)
    {
      for i := 0 to indent
        invariant out == old(out) + Indent(i)
      {
        out := out + "\t";
      }
    }

    method WriteQuotedString(s: string)
      modifies this`out
      ensures out == old(out) + Quote(s)
    {
      out := out + "\"";
      for i := 0 to |s|
        invariant out == old(out) + "\"" + Escape(s[..i])
      {
        EscapeMore(s, i);
        out := out + EscapeChar(s[i]);
      }
      assert s[..|s|] == s;
      out := out + "\"";
    }

    method BeginObject(key: string)
      modifies this
      ensures out == old(out) + PrintHead(key, old(indent)) + "{\n" && indent == old(indent) + 1
    {
      WriteIndent();
      WriteQuotedString(key);
      out := out + " = {\n";
      indent := indent + 1;
    }

    method EndObject()
      requires indent > 0
      modifies this
      ensures indent == old(indent) - 1 && out == old(out) + Indent(indent) + "};\n"
    {
      indent := indent - 1;
      WriteIndent();
      out := out + "};\n";
    }

    method WriteString(key: string, value: string)
      modifies this`out
      ensures out == old(out) + PrintEntry(Entry(key, Str(value)), indent)
    {
      hide Quote, Indent, PrintEntry;
      StringText(old(out), key, value, indent);
      WriteIndent();
      WriteQuotedString(key);
      out := out + " = ";
      WriteQuotedString(value);
      out := out + ";\n";
    }

    method WriteStringlist(key: string, items: seq<string>)
      modifies this`out
      ensures out == old(out) + PrintEntry(Entry(key, Strs(items)), indent)
    {
      hide Quote, Indent, PrintEntry, PrintItems;
      WriteIndent();
      WriteQuotedString(key);
      out := out + " = (";
      ghost var head := out;
      ghost var written := "";
      assert items[0..] == items;
      for i := 0 to |items|
        invariant out == head + written && PrintItems(items) == written + PrintItems(items[i..])
      {
        ItemText(items, i);
        WriteQuotedString(items[i]);
        written := written + Quote(items[i]);
        if i < |items| - 1 {
          out := out + ", ";
          written := written + ", ";
        }
      }
      out := out + ");\n";
      NoItemsText(items);
      StringlistText(old(out), key, items, indent);
    }

    /** `database_write_object`. */
    method WriteObject(key: string, entries: seq<Entry>)
      modifies this
      ensures out == old(out) + PrintEntry(Entry(key, Obj(entries)), indent) && indent == old(indent)
      decreases entries
    {
      hide PrintHead, PrintEntry, PrintEntries, Indent;
      BeginObject(key);
      ghost var head, written := out, "";
      assert entries[0..] == entries;
      for i := 0 to |entries|
        invariant indent == old(indent) + 1 && out == head + written
        invariant PrintEntries(entries, indent) == written + PrintEntries(entries[i..], indent)
      {
        EntriesText(entries, i, indent);
        assert entries[i] == Entry(entries[i].key, entries[i].node);
        match entries[i].node {
          case Obj(inner) => WriteObject(entries[i].key, inner);
          case Str(s) => WriteString(entries[i].key, s);
          case Strs(items) => WriteStringlist(entries[i].key, items);
          case Empty => EmptyPrints(entries[i], indent);
        }
        written := written + PrintEntry(entries[i], indent);
      }
      NoEntriesText(entries, indent);
      EndObject();
      ObjectText(old(out), key, entries, indent);
    }
  }

  lemma EmptyPrints(e: Entry, indent: nat)
    requires e.node == Empty
    ensures PrintEntry(e, indent) == ""
  {
  }

  lemma ObjectText(o: string, key: string, entries: seq<Entry>, indent: nat)
    ensures o + PrintHead(key, indent) + "{\n" + PrintEntries(entries, indent + 1) + Indent(indent) + "};\n"
         == o + PrintEntry(Entry(key, Obj(entries)), indent)
  {
    hide PrintHead, PrintEntries, Indent;
    assert "}" + ";\n" == "};\n";
  }

  lemma StringText(o: string, key: string, value: string, indent: nat)
    ensures o + Indent(indent) + Quote(key) + " = " + Quote(value) + ";\n"
         == o + PrintEntry(Entry(key, Str(value)), indent)
  {
    hide Quote, Indent;
  }

  lemma StringlistText(o: string, key: string, items: seq<string>, indent: nat)
    ensures o + Indent(indent) + Quote(key) + " = (" + PrintItems(items) + ");\n"
         == o + PrintEntry(Entry(key, Strs(items)), indent)
  {
    hide Quote, Indent, PrintItems;
    assert ")" + ";\n" == ");\n" && " = " + "(" == " = (";
  }

  lemma ItemText(items: seq<string>, i: nat)
    requires i < |items|
    ensures PrintItems(items[i..])
         == Quote(items[i]) + (if i < |items| - 1 then ", " else "") + PrintItems(items[i + 1..])
  {
    hide Quote;
    assert items[i..][0] == items[i] && items[i..][1..] == items[i + 1..];
  }

  lemma NoItemsText(items: seq<string>)
    ensures PrintItems(items[|items|..]) == ""
  {
  }

  lemma EntriesText(entries: seq<Entry>, i: nat, indent: nat)
    requires i < |entries|
    ensures PrintEntries(entries[i..], indent)
         == PrintEntry(entries[i], indent) + PrintEntries(entries[i + 1..], indent)
  {
    hide PrintEntry;
    assert entries[i..][0] == entries[i] && entries[i..][1..] == entries[i + 1..];
  }

  lemma NoEntriesText(entries: seq<Entry>, indent: nat)
    ensures PrintEntries(entries[|entries|..], indent) == ""
  {
  }

  lemma {:induction false} EscapeMore(s: string, i: nat)
    requires i < |s|
    ensures Escape(s[..i + 1]) == Escape(s[..i]) + EscapeChar(s[i])
    decreases i
  {
    hide EscapeChar;
    if i > 0 {
      var t := s[1..];
      EscapeMore(t, i - 1);
      assert s[..i + 1][1..] == t[..i] && s[..i][1..] == t[..i - 1];
    } else {
      assert s[..1][1..] == "" && s[..0] == "";
    }
  }
}
