/** The read buffer of sock.c: bytes are cut into lines in place. */
module Sock {
  import opened Chunks
  import opened Framing

  const NUL := '\0'

  predicate NoNul(s: string) {
    forall i :: 0 <= i < |s| ==> s[i] != NUL
  }

  // ----- a full buffer -----

  /** The first delimiter of `s`, or its end. */
  function Span(s: string, d: Delims): (n: nat)
    ensures n <= |s| && Free(s[..n], d) && (n < |s| ==> s[n] in d)
  {
    if s == [] || s[0] in d then 0 else
      assert s[..1 + Span(s[1..], d)] == [s[0]] + s[1..][..Span(s[1..], d)];
      1 + Span(s[1..], d)
  }

  /** The delimiters in front of `s`. */
  function Lead(s: string, d: Delims): (n: nat)
    ensures n <= |s| && Only(s[..n], d) && (n < |s| ==> s[n] !in d)
  {
    if s == [] || s[0] !in d then 0 else
      assert s[..1 + Lead(s[1..], d)] == [s[0]] + s[1..][..Lead(s[1..], d)];
      1 + Lead(s[1..], d)
  }

  /** What the buffer holds behind `text` without its leading delimiters, once they are skipped: a full
      buffer is moved without its terminator, and goes on with its own last bytes once more. */
  function Stale(text: string, len: nat, d: Delims): string {
    if |text| == len then text[|text| - Lead(text, d)..] else []
  }

  /** What is behind the bytes in use after the loop: it stays there as long as no line is taken. */
  function Behind(text: string, len: nat, d: Delims): string {
    if Free(Body(text, d), d) then Stale(text, len, d) else []
  }

  function Body(text: string, d: Delims): string {
    text[Lead(text, d)..]
  }

  /** A full buffer that begins with delimiters, holds one line or part of one behind them, and has a
      delimiter as many bytes before its end as it has in front. */
  predicate Broken(text: string, len: nat, d: Delims) {
    && |text| == len && text != [] && text[0] in d && Body(text, d) != []
    && Only(Body(text, d)[Span(Body(text, d), d)..], d)
    && text[|text| - Lead(text, d)] in d
  }

  /** How much the first round of the loop takes from the string in the buffer, if it takes a line. */
  function FirstTaken(s: string, d: Delims): nat {
    var n := Span(s, d);
    if n > 0 then (var m := Lead(s[n..], d); if m > 0 then n + m else 0) else 0
  }

  lemma {:induction false} SpanIs(s: string, n: nat, d: Delims)
    requires n <= |s| && Free(s[..n], d) && (n < |s| ==> s[n] in d)
    ensures Span(s, d) == n
  {
    var m := Span(s, d);
    assert forall i :: 0 <= i < n ==> s[..n][i] == s[i];
    assert forall i :: 0 <= i < m ==> s[..m][i] == s[i];
  }

  lemma {:induction false} LeadIs(s: string, n: nat, d: Delims)
    requires n <= |s| && Only(s[..n], d) && (n < |s| ==> s[n] !in d)
    ensures Lead(s, d) == n
  {
    var m := Lead(s, d);
    assert forall i :: 0 <= i < n ==> s[..n][i] == s[i];
    assert forall i :: 0 <= i < m ==> s[..m][i] == s[i];
  }

  lemma LeadJoin(s: string, t: string, d: Delims)
    ensures Lead(s + t, d) == if Only(s, d) then |s| + Lead(t, d) else Lead(s, d)
  {
    var n := if Only(s, d) then |s| + Lead(t, d) else Lead(s, d);
    var u := s + t;
    forall i | 0 <= i < n ensures u[i] in d {
      if i < |s| {
        assert s[..Lead(s, d)] <= s;
      } else {
        assert u[i] == t[..Lead(t, d)][i - |s|];
      }
    }
    LeadIs(u, n, d);
  }

  lemma SpanJoin(s: string, t: string, d: Delims)
    ensures Span(s + t, d) == if Free(s, d) then |s| + Span(t, d) else Span(s, d)
  {
    var n := if Free(s, d) then |s| + Span(t, d) else Span(s, d);
    var u := s + t;
    forall i | 0 <= i < n ensures u[i] !in d {
      if i < |s| {
        assert s[..Span(s, d)] <= s;
      } else {
        assert u[i] == t[..Span(t, d)][i - |s|];
      }
    }
    SpanIs(u, n, d);
  }

  /** If the stale bytes do not begin with a delimiter, they all come from the last line. */
  lemma StaleFree(text: string, len: nat, d: Delims)
    requires Stale(text, len, d) != [] && Stale(text, len, d)[0] !in d
    requires Body(text, d) != [] && Free(Body(text, d), d)
    ensures Free(Stale(text, len, d), d)
  {
    var k := Lead(text, d);
    assert forall i :: 0 <= i < k ==> text[i] == text[..k][i];
    assert forall i :: k <= i < |text| ==> text[i] == Body(text, d)[i - k];
  }

  /** A body with delimiters and the stale bytes behind it. */
  lemma TakenInside(body: string, junk: string, d: Delims)
    requires junk != [] && 0 < Span(body, d) < |body|
    ensures FirstTaken(body + junk, d) > |body| <==> Only(body[Span(body, d)..], d) && junk[0] in d
  {
    hide Span, Lead;
    var s, p := body + junk, Span(body, d);
    var tail := body[p..];
    assert tail[0] == body[p];
    TailLead(tail, junk, d);
    assert !Free(body, d);
    SpanJoin(body, junk, d);
    assert s[p..] == tail + junk;
    hide Only, Free;
    assert FirstTaken(s, d) == p + Lead(tail + junk, d);
  }

  lemma LeadPositive(s: string, d: Delims)
    requires s != []
    ensures Lead(s, d) > 0 <==> s[0] in d
  {
  }

  lemma TailLead(tail: string, junk: string, d: Delims)
    requires tail != [] && tail[0] in d && junk != []
    ensures 0 < Lead(tail + junk, d) && (Lead(tail + junk, d) > |tail| <==> Only(tail, d) && junk[0] in d)
  {
    LeadJoin(tail, junk, d);
    LeadPositive(tail, d);
    LeadPositive(junk, d);
    hide Lead, Only;
  }

  /** A body without delimiters and the stale bytes behind it. */
  lemma TakenOutside(body: string, junk: string, d: Delims)
    requires junk != [] && body != [] && Free(body, d) && (junk[0] !in d ==> Free(junk, d))
    ensures FirstTaken(body + junk, d) > |body| <==> junk[0] in d
  {
    hide Span, Lead;
    var s := body + junk;
    SpanJoin(body, junk, d);
    assert s[|body|..] == junk;
    if junk[0] in d {
      SpanIs(junk, 0, d);
      assert Lead(junk, d) > 0;
    } else {
      assert junk[..|junk|] == junk;
      SpanIs(junk, |junk|, d);
      assert s[|s|..] == [];
    }
  }

  /** How a full line buffer and its stale bytes are measured. */
  lemma FullTaken(body: string, junk: string, d: Delims)
    requires body != [] && body[0] !in d && junk != []
    requires Free(body, d) && junk[0] !in d ==> Free(junk, d)
    ensures FirstTaken(body + junk, d) > |body| <==> Only(body[Span(body, d)..], d) && junk[0] in d
  {
    hide Lead, FirstTaken;
    if Span(body, d) < |body| {
      TakenInside(body, junk, d);
    } else {
      assert body[..|body|] == body;
      TakenOutside(body, junk, d);
    }
  }

  /** The loop takes more bytes than are in use exactly when the buffer is broken. */
  lemma BrokenIff(text: string, len: nat, d: Delims)
    requires |text| <= len
    ensures Broken(text, len, d) <==> FirstTaken(Body(text, d) + Stale(text, len, d), d) > |Body(text, d)|
  {
    var body, junk := Body(text, d), Stale(text, len, d);
    if junk == [] {
      assert body + junk == body;
    } else if body == [] {
      assert body + junk == junk == text;
    } else {
      assert junk[0] == text[|text| - Lead(text, d)];
      assert body[0] !in d && text[0] == text[..Lead(text, d)][0];
      if Free(body, d) && junk[0] !in d {
        StaleFree(text, len, d);
      }
      hide Span, Lead;
      FullTaken(body, junk, d);
    }
  }

  class Socket {
    /** `read_buf`, with one place more than `read_buf_len`. */
    const buf: array<char>
    const delims: Delims
    var used: nat
    /** What `read_func` has been given. */
    var lines: seq<string>
    /** All bytes read. */
    ghost var stream: string

    /** The buffer is the C string `s`. */
    ghost predicate CText(s: string)
      reads buf
    {
      |s| < buf.Length && buf[..|s|] == s && buf[|s|] == NUL && NoNul(s) && buf[buf.Length - 1] == NUL
    }

    /** The bytes in use are `text`; what follows them may be stale. */
    ghost predicate Keeps(text: string)
      reads this`used, buf
    {
      used == |text| < buf.Length && buf[..used] == text && NoNul(text) && buf[buf.Length - 1] == NUL
    }

    ghost predicate Valid()
      reads this, buf
    {
      Keeps(Rest(stream, delims)) && lines == Lines(stream, delims)
    }

    /** `sock_set_readbuf`. */
    constructor (len: nat, delims: Delims)
      ensures Valid() && fresh(buf) && buf.Length == len + 1 && this.delims == delims && stream == [] && lines == []
    {
      this.delims, used, lines, stream := delims, 0, [], [];
      buf := new char[len + 1](_ => NUL);
    }

    /** `strcspn` of the buffer. */
    method StrCspn(ghost s: string) returns (n: nat)
      requires CText(s)
      ensures n == Span(s, delims)
    {
      n := 0;
      while buf[n] != NUL && buf[n] !in delims
        invariant n <= |s| && forall i :: 0 <= i < n ==> s[i] !in delims
        decreases |s| - n
      {
        assert buf[n] == s[n];
        n := n + 1;
      }
      assert n < |s| ==> buf[n] == s[n];
      SpanIs(s, n, delims);
    }

    /** `strspn` of the buffer from `from` on. */
    method StrSpn(from: nat, ghost s: string) returns (n: nat)
      requires CText(s) && from <= |s|
      ensures n == Lead(s[from..], delims)
    {
      ghost var t := s[from..];
      n := 0;
      while buf[from + n] in delims
        invariant n <= |t| && forall i :: 0 <= i < n ==> t[i] in delims
        decreases |t| - n
      {
        assert NUL !in delims;
        assert n < |t| ==> buf[from + n] == s[from + n] == t[n];
        n := n + 1;
      }
      assert n < |t| ==> buf[from + n] == s[from + n] == t[n];
      LeadIs(t, n, delims);
    }

    /** `memmove` of the bytes from `from` on, as far as `read_buf_len`, to the front. */
    method MoveToFront(from: nat)
      requires from < buf.Length
      modifies buf
      ensures forall k :: 0 <= k < buf.Length - 1 - from ==> buf[k] == old(buf[k + from])
      ensures forall k :: buf.Length - 1 - from <= k < buf.Length ==> buf[k] == old(buf[k])
    {
      forall k | 0 <= k < buf.Length - 1 - from {
        buf[k] := buf[k + from];
      }
    }

    /** Delimiters in front go. The terminator goes along unless the buffer is full. */
    method SkipDelims(ghost text: string)
      requires CText(text) && used == |text|
      modifies buf, this`used
      ensures used == |Body(text, delims)| && CText(Body(text, delims) + Stale(text, buf.Length - 1, delims))
    {
      assert text[0..] == text;
      var skiplen := StrSpn(0, text);
      ghost var s := Body(text, delims) + Stale(text, buf.Length - 1, delims);
      assert forall k :: 0 <= k < |text| ==> buf[k] == text[k];
      if skiplen > 0 {
        MoveToFront(skiplen);
        used := used - skiplen;
      } else {
        assert s == text;
      }
      assert buf[..|s|] == s;
    }

    /** One line goes to `read_func`, and what is used behind it to the front of the buffer. */
    method TakeLine(ghost text: string, ghost junk: string, retlen: nat, getlen: nat)
      requires CText(text + junk) && used == |text| && retlen < getlen <= |text|
      modifies buf, this`used, this`lines
      ensures lines == old(lines) + [text[..retlen]] && used == |text| - getlen && CText(text[getlen..])
    {
      ghost var s := text + junk;
      assert forall k :: 0 <= k < |text| ==> buf[k] == s[k] == text[k];
      buf[retlen] := NUL;
      assert buf[..retlen] == text[..retlen];
      lines := lines + [buf[..retlen]];
      MoveToFront(getlen);
      used := used - getlen;
      buf[used] := NUL;
      assert buf[..used] == text[getlen..];
    }

    /** The loop that hands over lines as long as there are complete ones; `junk0` is what the buffer
        holds behind the bytes in use. */
    method TakeLines(ghost text0: string, ghost junk0: string)
      requires CText(text0 + junk0) && used == |text0| && (text0 != [] ==> text0[0] !in delims)
      requires FirstTaken(text0 + junk0, delims) <= |text0|
      modifies buf, this`used, this`lines
      ensures Keeps(Rest(text0, delims)) && lines == old(lines) + Lines(text0, delims)
      ensures CText(Rest(text0, delims) + if Free(text0, delims) then junk0 else [])
    {
      hide Rest, Lines, Measured, Free, CText, Keeps;
      ghost var text, junk := text0, junk0;
      var retlen, span := Measure(text, junk);
      while retlen > 0 && span > 0
        invariant CText(text + junk) && used == |text| && Measured(text, junk, retlen, span, delims)
        invariant Rest(text, delims) == Rest(text0, delims)
        invariant lines + Lines(text, delims) == old(lines) + Lines(text0, delims)
        invariant (text == text0 && junk == junk0) || (junk == [] && !Free(text0, delims))
        decreases |text|
      {
        ghost var getlen := retlen + span;
        retlen, span := TakeRound(text, junk, retlen, span);
        text, junk := text[getlen..], [];
        assert text + junk == text;
      }
      NoRound(text, junk, retlen, span, delims);
      assert text + junk == text + if Free(text0, delims) then junk0 else [];
      InUse(text, junk);
    }

    lemma InUse(text: string, junk: string)
      requires CText(text + junk) && used == |text|
      ensures Keeps(text)
    {
      assert buf[..used] == (text + junk)[..used] == text;
    }

    /** One round of the loop, and its condition once more. */
    method TakeRound(ghost text: string, ghost junk: string, retlen0: nat, span0: nat) returns (retlen: nat, span: nat)
      requires CText(text + junk) && used == |text| && Measured(text, junk, retlen0, span0, delims)
      requires retlen0 > 0 && span0 > 0
      modifies buf, this`used, this`lines
      ensures retlen0 + span0 <= |text| && !Free(text, delims)
      ensures var left := text[retlen0 + span0..];
        && CText(left) && used == |left| && Measured(left, [], retlen, span, delims)
        && Rest(left, delims) == Rest(text, delims)
        && lines + Lines(left, delims) == old(lines) + Lines(text, delims)
    {
      hide Rest, Lines, Measured, Free;
      var getlen := retlen0 + span0;
      Round(text, junk, retlen0, span0, delims);
      TakeLine(text, junk, retlen0, getlen);
      ghost var left := text[getlen..];
      assert old(lines) + ([text[..retlen0]] + Lines(left, delims)) == lines + Lines(left, delims);
      assert left + [] == left;
      TakenWithin(left, delims);
      retlen, span := Measure(left, []);
    }

    /** `strcspn` and `strspn` in the condition of the loop. */
    method Measure(ghost text: string, ghost junk: string) returns (retlen: nat, span: nat)
      requires CText(text + junk) && (text != [] ==> text[0] !in delims) && FirstTaken(text + junk, delims) <= |text|
      ensures Measured(text, junk, retlen, span, delims)
    {
      retlen := StrCspn(text + junk);
      span := StrSpn(retlen, text + junk);
    }

    /** A read behind what the buffer holds, terminated. */
    method Append(ghost rest: string, chunk: string)
      requires Keeps(rest) && NoNul(chunk) && used + |chunk| < buf.Length
      modifies buf, this`used
      ensures CText(rest + chunk) && used == |rest + chunk|
    {
      forall k | 0 <= k < |chunk| {
        buf[used + k] := chunk[k];
      }
      used := used + |chunk|;
      buf[used] := NUL;
      assert buf[..used] == rest + chunk;
    }

    /** A read that returns bytes, which the buffer has room for. Unless the buffer is broken then, the lines handed over
        are those of the stream, and the bytes in use are what is left of it. The string in the buffer
        goes on behind them exactly if the buffer was full, began with delimiters, and holds no complete
        line. */
    method Receive(chunk: string)
      requires Valid() && chunk != "" && NoNul(chunk) && used + |chunk| < buf.Length
      requires !Broken(Rest(stream, delims) + chunk, buf.Length - 1, delims)
      modifies this, buf
      ensures Valid() && stream == old(stream) + chunk
      ensures CText(Rest(stream, delims) + Behind(Rest(old(stream), delims) + chunk, buf.Length - 1, delims))
    {
      ghost var rest, was := Rest(stream, delims), stream;
      Received(stream, chunk, buf.Length - 1, delims);
      hide *;
      Read(rest, chunk);
      stream := stream + chunk;
      Framed(was, chunk);
    }

    lemma Framed(was: string, chunk: string)
      requires stream == was + chunk
      requires var body := Body(Rest(was, delims) + chunk, delims);
        && Keeps(Rest(body, delims)) && lines == Lines(was, delims) + Lines(body, delims)
        && Rest(stream, delims) == Rest(body, delims) && Lines(stream, delims) == Lines(was, delims) + Lines(body, delims)
      ensures Valid()
    {
    }

    /** The bytes of a read come behind what the buffer keeps, and lines are taken. */
    method Read(ghost rest: string, chunk: string)
      requires Keeps(rest) && NoNul(chunk) && used + |chunk| < buf.Length
      requires var body := Body(rest + chunk, delims);
        && (body != [] ==> body[0] !in delims)
        && FirstTaken(body + Stale(rest + chunk, buf.Length - 1, delims), delims) <= |body|
      modifies buf, this`used, this`lines
      ensures var body := Body(rest + chunk, delims);
        && Keeps(Rest(body, delims)) && lines == old(lines) + Lines(body, delims)
        && CText(Rest(body, delims) + Behind(rest + chunk, buf.Length - 1, delims))
    {
      hide *;
      Append(rest, chunk);
      Frame(rest + chunk);
    }

    /** What happens after a read. */
    method Frame(ghost text: string)
      requires CText(text) && used == |text|
      requires var body := Body(text, delims);
        && (body != [] ==> body[0] !in delims)
        && FirstTaken(body + Stale(text, buf.Length - 1, delims), delims) <= |body|
      modifies buf, this`used, this`lines
      ensures var body := Body(text, delims);
        && Keeps(Rest(body, delims)) && lines == old(lines) + Lines(body, delims)
        && CText(Rest(body, delims) + Behind(text, buf.Length - 1, delims))
    {
      assert Behind(text, buf.Length - 1, delims) ==
        if Free(Body(text, delims), delims) then Stale(text, buf.Length - 1, delims) else [];
      hide *;
      SkipDelims(text);
      TakeLines(Body(text, delims), Stale(text, buf.Length - 1, delims));
    }

    /** `sock_flush_readbuf`. */
    method FlushReadbuf()
      requires used < buf.Length
      modifies this`used, this`lines, buf
      ensures used == 0 && lines == old(lines) + if old(used) > 0 then [old(buf[..used])] else []
    {
      if used > 0 {
        lines := lines + [buf[..used]];
        used := 0;
        buf[0] := NUL;
      }
    }

    /** What a hangup does: the buffer is flushed, and once more when the socket is closed. */
    method Hangup()
      requires Valid()
      modifies this`used, this`lines, buf
      ensures used == 0
      ensures lines == Lines(stream, delims) + if Rest(stream, delims) != [] then [Rest(stream, delims)] else []
    {
      hide Rest, Lines;
      FlushReadbuf();
      FlushReadbuf();
    }

    /** One event of a readable socket. A read that returns no byte is taken for a hangup; a full buffer
        asks for none. */
    method ReadEvent(chunk: string) returns (open: bool)
      requires Valid() && NoNul(chunk) && used + |chunk| < buf.Length
      requires chunk != "" ==> !Broken(Rest(stream, delims) + chunk, buf.Length - 1, delims)
      modifies this, buf
      ensures stream == old(stream) + chunk && open == (chunk != "") && (old(used) == buf.Length - 1 ==> !open)
      ensures open ==> Valid()
      ensures open ==>
        CText(Rest(stream, delims) + Behind(Rest(old(stream), delims) + chunk, buf.Length - 1, delims))
      ensures !open ==> used == 0
      ensures !open ==>
        lines == Lines(stream, delims) + if Rest(stream, delims) != [] then [Rest(stream, delims)] else []
    {
      hide Rest, Lines, Broken, Behind;
      open := |chunk| > 0;
      if open {
        Receive(chunk);
      } else {
        assert stream + chunk == stream;
        Hangup();
      }
    }
  }

  /** What a read that does not break the buffer adds. */
  lemma Received(stream: string, chunk: string, len: nat, d: Delims)
    requires |Rest(stream, d) + chunk| <= len && !Broken(Rest(stream, d) + chunk, len, d)
    ensures var text := Rest(stream, d) + chunk; var body := Body(text, d);
      && (body != [] ==> body[0] !in d)
      && FirstTaken(body + Stale(text, len, d), d) <= |body|
      && Rest(stream + chunk, d) == Rest(body, d) && Lines(stream + chunk, d) == Lines(stream, d) + Lines(body, d)
  {
    hide Rest, Lines, Broken;
    var text := Rest(stream, d) + chunk;
    BrokenIff(text, len, d);
    LinesAppend(stream, chunk, d);
    assert text == text[..Lead(text, d)] + Body(text, d);
    DelimsDropped(text[..Lead(text, d)], Body(text, d), d);
  }

  /** `text` begins with no delimiter, and a round behind `retlen` and `span` stays inside it. */
  ghost predicate Measured(text: string, junk: string, retlen: nat, span: nat, d: Delims) {
    && (text != [] ==> text[0] !in d) && FirstTaken(text + junk, d) <= |text|
    && retlen == Span(text + junk, d) && span == Lead((text + junk)[retlen..], d)
  }

  /** A round takes a line and the delimiters behind it, and what is left begins with no delimiter. */
  lemma Round(text: string, junk: string, n: nat, span: nat, d: Delims)
    requires Measured(text, junk, n, span, d) && n > 0 && span > 0
    ensures var m := n + span;
      && n < m <= |text| && !Free(text, d) && (m < |text| ==> text[m] !in d)
      && Rest(text, d) == Rest(text[m..], d) && Lines(text, d) == [text[..n]] + Lines(text[m..], d)
  {
    hide Rest, Lines, Span, Lead;
    var s := text + junk;
    var m := n + span;
    assert s[..n] == text[..n];
    assert s[n..][..m - n] == text[n..m];
    assert text[n] == s[n];
    TextTaken(text, n, m, d);
    if m < |text| {
      assert text[m] == s[n..][m - n];
    }
  }

  lemma NoRound(text: string, junk: string, n: nat, span: nat, d: Delims)
    requires Measured(text, junk, n, span, d) && (n == 0 || span == 0)
    ensures Free(text, d) && Rest(text, d) == text && Lines(text, d) == []
  {
    NoRoundFree(text, junk, n, span, d);
    hide Rest, Lines, Measured;
    FreeRest(text, d);
  }

  lemma NoRoundFree(text: string, junk: string, n: nat, span: nat, d: Delims)
    requires Measured(text, junk, n, span, d) && (n == 0 || span == 0)
    ensures Free(text, d)
  {
    hide Span;
    var s := text + junk;
    if text != [] {
      assert s[0] == text[0];
      assert n == |s|;
      assert s[..n] == s;
      assert forall i :: 0 <= i < |text| ==> text[i] == s[i];
    }
  }

  lemma TakenWithin(text: string, d: Delims)
    ensures FirstTaken(text, d) <= |text|
  {
  }

  /** The reads return bytes and fit into a buffer of `len` bytes, each into what is left of it, and none
      breaks it. */
  ghost predicate Fitting(chunks: seq<string>, len: nat, d: Delims) {
    forall i :: 0 <= i < |chunks| ==>
      && chunks[i] != "" && NoNul(chunks[i]) && |Rest(Concat(chunks[..i]), d)| + |chunks[i]| <= len
      && !Broken(Rest(Concat(chunks[..i]), d) + chunks[i], len, d)
  }

  /** However the stream is cut into reads that fit, the lines handed over are the lines of the whole
      stream, and at the hangup what is left, if anything. */
  method ReadAll(chunks: seq<string>, len: nat, d: Delims) returns (lines: seq<string>)
    requires Fitting(chunks, len, d)
    ensures var s := Concat(chunks); lines == Lines(s, d) + if Rest(s, d) != [] then [Rest(s, d)] else []
  {
    hide Rest, Lines, Broken, Behind;
    var sock := new Socket(len, d);
    assert chunks[..0] == [];
    for i := 0 to |chunks|
      invariant sock.Valid() && fresh(sock) && fresh(sock.buf) && sock.buf.Length == len + 1 && sock.delims == d
      invariant sock.stream == Concat(chunks[..i])
    {
      assert chunks[..i + 1][..i] == chunks[..i];
      var open := sock.ReadEvent(chunks[i]);
    }
    assert chunks[..|chunks|] == chunks;
    var open := sock.ReadEvent("");
    assert sock.stream == Concat(chunks);
    lines := sock.lines;
  }

  // ----- room for the next read -----

  /** A full buffer keeps everything, and leaves no room for another read, exactly if it holds no
      delimiter. */
  lemma FullIff(text: string, len: nat, d: Delims)
    requires 0 < len && |text| <= len
    ensures |Rest(text, d)| == len <==> |text| == len && Free(text, d)
  {
    RestFree(text, d);
    if Free(text, d) {
      FreeRest(text, d);
    }
  }

  /** As long as bytes are to come, wherever the last read ended, the next one has room. */
  predicate Roomy(stream: string, len: nat, d: Delims) {
    forall i :: 0 <= i < |stream| ==> |Rest(stream[..i], d)| < len
  }

  predicate FreeRun(s: string, d: Delims, lo: nat, hi: nat) {
    lo <= hi <= |s| && forall i :: lo <= i < hi ==> s[i] !in d
  }

  /** There is room however a stream is cut exactly if no `len` bytes without a delimiter follow one
      another before its last byte. */
  lemma RoomyIff(stream: string, len: nat, d: Delims)
    ensures Roomy(stream, len, d) <==>
      forall lo: nat, hi: nat :: hi < |stream| && FreeRun(stream, d, lo, hi) ==> hi - lo < len
  {
    if Roomy(stream, len, d) {
      forall lo: nat, hi: nat | hi < |stream| && FreeRun(stream, d, lo, hi) ensures hi - lo < len {
        assert |Rest(stream[..hi], d)| < len;
        var p := Start(stream[..hi], d);
        assert p > 0 ==> stream[..hi][p - 1] == stream[p - 1];
      }
    } else {
      var i :| 0 <= i < |stream| && |Rest(stream[..i], d)| >= len;
      assert FreeRun(stream, d, Start(stream[..i], d), i) by {
        assert forall j :: 0 <= j < i ==> stream[..i][j] == stream[j];
      }
    }
  }

  lemma RestAtMost(s: string, t: string, d: Delims)
    ensures |Rest(s + t, d)| <= |Rest(s, d)| + |t|
  {
    LinesAppend(s, t, d);
  }

  lemma RoomyMore(before: string, last: string, len: nat, d: Delims)
    requires Roomy(before, len, d) && |Rest(before, d)| + |last| <= len
    ensures Roomy(before + last, len, d)
  {
    hide Rest;
    var s := before + last;
    forall i | 0 <= i < |s| ensures |Rest(s[..i], d)| < len {
      if i < |before| {
        assert s[..i] == before[..i];
      } else {
        assert s[..i] == before + last[..i - |before|];
        RestAtMost(before, last[..i - |before|], d);
      }
    }
  }

  lemma FittingLess(chunks: seq<string>, len: nat, d: Delims)
    requires Fitting(chunks, len, d) && chunks != []
    ensures var n := |chunks| - 1;
      Fitting(chunks[..n], len, d) && NoNul(chunks[n]) && |Rest(Concat(chunks[..n]), d)| + |chunks[n]| <= len
  {
    hide Rest, Broken, Concat, NoNul;
    forall i | 0 <= i < |chunks| - 1 ensures chunks[..|chunks| - 1][..i] == chunks[..i] {
    }
  }

  /** Reads that fit never fill the buffer with bytes still to come. */
  lemma {:induction false} FittingRoomy(chunks: seq<string>, len: nat, d: Delims)
    requires Fitting(chunks, len, d)
    ensures Roomy(Concat(chunks), len, d) && NoNul(Concat(chunks))
  {
    hide Rest, Fitting, Roomy;
    if chunks == [] {
      assert Roomy([], len, d) by {
        NothingToRead(len, d);
      }
    } else {
      var n := |chunks| - 1;
      FittingLess(chunks, len, d);
      FittingRoomy(chunks[..n], len, d);
      RoomyMore(Concat(chunks[..n]), chunks[n], len, d);
    }
  }

  lemma NothingToRead(len: nat, d: Delims)
    ensures Roomy([], len, d)
  {
  }

  /** A stream read byte by byte. */
  function Bytes(s: string): seq<string> {
    seq(|s|, i requires 0 <= i < |s| => [s[i]])
  }

  lemma {:induction false} BytesConcat(s: string, i: nat)
    requires i <= |s|
    ensures Concat(Bytes(s)[..i]) == s[..i]
  {
    if i > 0 {
      BytesConcat(s, i - 1);
      assert Bytes(s)[..i][..i - 1] == Bytes(s)[..i - 1];
      assert s[..i] == s[..i - 1] + [s[i - 1]];
    }
  }

  lemma ByteFits(rest: string, c: char, len: nat, d: Delims)
    requires Free(rest, d) && |rest| < len
    ensures !Broken(rest + [c], len, d)
  {
    if rest == [] && c in d {
      LeadIs([c], 1, d);
      assert [] + [c] == [c];
    } else if rest != [] {
      assert (rest + [c])[0] == rest[0];
    }
  }

  lemma BytesFit(stream: string, len: nat, d: Delims)
    requires NoNul(stream) && Roomy(stream, len, d)
    ensures Fitting(Bytes(stream), len, d)
  {
    hide Rest, Broken, Concat;
    var chunks := Bytes(stream);
    forall i | 0 <= i < |chunks|
      ensures chunks[i] != "" && NoNul(chunks[i]) && |Rest(Concat(chunks[..i]), d)| + |chunks[i]| <= len
      ensures !Broken(Rest(Concat(chunks[..i]), d) + chunks[i], len, d)
    {
      BytesConcat(stream, i);
      RestFree(stream[..i], d);
      ByteFits(Rest(stream[..i], d), stream[i], len, d);
    }
  }

  /** A stream without zero bytes can be read by the socket exactly if there is room as long as bytes
      are to come; otherwise the full buffer ends the connection, however it is cut. */
  lemma FitsIff(stream: string, len: nat, d: Delims)
    ensures (exists chunks :: Fitting(chunks, len, d) && Concat(chunks) == stream) <==>
      NoNul(stream) && Roomy(stream, len, d)
  {
    hide Fitting, Roomy;
    if chunks :| Fitting(chunks, len, d) && Concat(chunks) == stream {
      FittingRoomy(chunks, len, d);
    }
    if NoNul(stream) && Roomy(stream, len, d) {
      BytesFit(stream, len, d);
      BytesConcat(stream, |stream|);
      assert Bytes(stream)[..|stream|] == Bytes(stream) && stream[..|stream|] == stream;
    }
  }

  /** When the string in the buffer goes on behind the bytes in use. */
  lemma BehindIff(text: string, len: nat, d: Delims)
    ensures Behind(text, len, d) != [] <==>
      |text| == len && text != [] && text[0] in d && Free(Body(text, d), d)
  {
    if text != [] {
      LeadPositive(text, d);
    }
  }

  const CRLF: Delims := {'\r', '\n'}

  /** A broken buffer of seven bytes: the loop takes seven of the five in use. */
  lemma BrokenInput()
    ensures var text := "\r\nabc\r\n";
      Broken(text, 7, CRLF) && |Body(text, CRLF)| == 5 && FirstTaken(Body(text, CRLF) + Stale(text, 7, CRLF), CRLF) == 7
  {
    var text := "\r\nabc\r\n";
    LeadIs(text, 2, CRLF);
    assert Body(text, CRLF) == "abc\r\n" && Stale(text, 7, CRLF) == "\r\n";
    SpanIs("abc\r\n", 3, CRLF);
    assert "abc\r\n"[3..] == "\r\n";
    var s := "abc\r\n\r\n";
    assert "abc\r\n" + "\r\n" == s;
    SpanIs(s, 3, CRLF);
    assert s[3..] == "\r\n\r\n";
    LeadIs(s[3..], 4, CRLF);
  }

  /** A full buffer of five bytes that begins with delimiters and is handled. */
  lemma HandledInput()
    ensures !Broken("\r\nabc", 5, CRLF) && Stale("\r\nabc", 5, CRLF) == "bc"
  {
    LeadIs("\r\nabc", 2, CRLF);
  }

  /** When a line is longer than the buffer, no way of reading gets to the end of the stream. */
  lemma Overlong(stream: string, len: nat, d: Delims, chunks: seq<string>)
    requires 0 < len < |stream| && Free(stream[..len], d) && Fitting(chunks, len, d)
    ensures Concat(chunks) != stream
  {
    NoRoom(stream, len, d);
    hide *;
    if Concat(chunks) == stream {
      FittingRoomy(chunks, len, d);
    }
  }

  lemma NoRoom(stream: string, len: nat, d: Delims)
    requires 0 < len < |stream| && Free(stream[..len], d)
    ensures !Roomy(stream, len, d)
  {
    FreeRest(stream[..len], d);
    hide Rest, Free;
    assert |Rest(stream[..len], d)| == len;
  }

  /** A line of six bytes and a buffer of five: a read can fill the buffer, so that the next one returns
      none, and no other way of reading gets further. */
  lemma OverlongInput(chunks: seq<string>)
    ensures Fitting(["abcde"], 5, CRLF) && Rest(Concat(["abcde"]), CRLF) == "abcde"
    ensures Fitting(chunks, 5, CRLF) ==> Concat(chunks) != "abcdef\r\n"
  {
    hide Fitting, Rest, Concat;
    var s := "abcdef\r\n";
    assert s[..5] == "abcde";
    OneReadFits("abcde", 5, CRLF);
    if Fitting(chunks, 5, CRLF) {
      Overlong(s, 5, CRLF, chunks);
    }
  }

  lemma OneReadFits(text: string, len: nat, d: Delims)
    requires text != "" && NoNul(text) && |text| <= len && Free(text, d)
    ensures Fitting([text], len, d) && Rest(Concat([text]), d) == text
  {
    assert [text][..0] == [] && Concat<char>([]) == [] && [] + text == text && Concat([text]) == text;
    assert Rest([], d) == [];
    FreeRest(text, d);
    assert !Broken(text, len, d);
    hide Rest, Broken, Concat;
  }

  lemma TextTaken(text: string, retlen: nat, getlen: nat, d: Delims)
    requires 0 < retlen < getlen <= |text| && Free(text[..retlen], d) && Only(text[retlen..getlen], d)
    ensures Rest(text, d) == Rest(text[getlen..], d) && Lines(text, d) == [text[..retlen]] + Lines(text[getlen..], d)
  {
    hide Rest, Lines;
    assert text == text[..retlen] + text[retlen..getlen] + text[getlen..];
    LineTaken(text[..retlen], text[retlen..getlen], text[getlen..], d);
  }
}
