/** The incremental request parser, loop by loop, proved against the request grammar. */
module RespParser {
  import opened Text
  import opened Resp
  import opened Buffers
  import opened RespProofs

  method FindFirstCRLF(data: Bytes, offset: nat) returns (r: int)
    ensures r == FindCRLF(data, offset)
  {
    if |data| < offset + 2 {
      return -1;
    }
    var i := offset;
    while i + 1 < |data|
      invariant offset <= i
      invariant FindCRLF(data, offset) == FindCRLF(data, i)
    {
      if data[i] == '\r' && data[i + 1] == '\n' {
        return i;
      }
      i := i + 1;
    }
    return -1;
  }

  function PrependAll(args: Command, rest: Parsed): Parsed {
    if rest.Complete? then Complete(args + rest.args, rest.used) else Incomplete
  }

  /** One turn of the bulk-string loop. */
  method ReadBulk(data: Bytes, pos: nat) returns (r: Bulk)
    ensures r == BulkAt(data, pos)
  {
    hide ScanInt, FindCRLF;
    if pos >= |data| || data[pos] != '$' {
      return NoBulk;
    }
    var crlf := FindFirstCRLF(data, pos + 1);
    if crlf < 0 {
      return NoBulk;
    }
    var bulkLen := Atoi(data[pos + 1..crlf]);
    if bulkLen < 0 {
      return Bulk([], crlf + 2);
    }
    var dataStart := crlf + 2;
    var dataEnd := dataStart + bulkLen;
    if dataEnd + 2 > |data| {
      return NoBulk;
    }
    if data[dataEnd] != '\r' || data[dataEnd + 1] != '\n' {
      return NoBulk;
    }
    return Bulk(data[dataStart..dataEnd], dataEnd + 2);
  }

  method ReadArray(data: Bytes) returns (r: Parsed)
    requires data != []
    ensures r == ParseArray(data)
  {
    hide ScanInt, FindCRLF, BulkAt;
    var crlf := FindFirstCRLF(data, 1);
    if crlf < 0 {
      return Incomplete;
    }
    var count := Atoi(data[1..crlf]);
    if count < 0 {
      return Complete([], crlf + 2);
    }
    var pos: nat, args, i := crlf + 2, [], 0;
    while i < count
      invariant 0 <= i <= count
      invariant ParseArray(data) == PrependAll(args, ParseBulks(data, pos, count - i))
    {
      var b := ReadBulk(data, pos);
      if b.NoBulk? {
        return Incomplete;
      }
      var rest := ParseBulks(data, b.next, count - i - 1);
      assert rest.Complete? ==> args + ([b.arg] + rest.args) == args + [b.arg] + rest.args;
      args := args + [b.arg];
      pos := b.next;
      i := i + 1;
    }
    assert args + [] == args;
    return Complete(args, pos);
  }

  method ReadInline(data: Bytes) returns (r: Parsed)
    ensures r == ParseInline(data)
  {
    hide FindCRLF;
    var crlf := FindFirstCRLF(data, 0);
    if crlf < 0 {
      return Incomplete;
    }
    var args := SplitLine(data[..crlf]);
    return Complete(args, crlf + 2);
  }

  lemma TokensAt(line: Bytes, start: nat, pos: nat)
    requires start <= |line| && pos == start + Run(line[start..], true)
    ensures Tokens(line[start..]) ==
            if pos == |line| then []
            else
              var n := Run(line[pos..], false);
              [line[pos..][..n]] + Tokens(line[pos..][n..])
  {
    hide Run, Tokens;
    TokensUnfold(line[start..]);
    assert line[start..][pos - start..] == line[pos..];
  }

  lemma TokensUnfold(s: Bytes)
    ensures var rest := s[Run(s, true)..];
            Tokens(s) == if rest == [] then [] else [rest[..Run(rest, false)]] + Tokens(rest[Run(rest, false)..])
  {
    hide Run;
  }

  /** Split on spaces. */
  method SplitLine(line: Bytes) returns (args: Command)
    ensures args == Tokens(line)
  {
    hide Run, Tokens;
    args := [];
    var pos := 0;
    assert line[0..] == line;
    TokensAt(line, |line|, |line|);
    while pos < |line|
      invariant 0 <= pos <= |line|
      invariant Tokens(line) == args + Tokens(line[pos..])
    {
      ghost var start := pos;
      pos := SkipRun(line, pos, true);
      TokensAt(line, start, pos);
      if pos >= |line| {
        break;
      }
      var end := SkipRun(line, pos, false);
      assert line[pos..][..end - pos] == line[pos..end];
      assert line[pos..][end - pos..] == line[end..];
      assert args + ([line[pos..end]] + Tokens(line[end..])) == args + [line[pos..end]] + Tokens(line[end..]);
      args := args + [line[pos..end]];
      pos := end;
    }
  }

  /** The inner loops of the split: the end of the run of (non-)spaces starting at `start`. */
  method SkipRun(line: Bytes, start: nat, blank: bool) returns (pos: nat)
    requires start <= |line|
    ensures pos == start + Run(line[start..], blank)
  {
    pos := start;
    while pos < |line| && (line[pos] == ' ') == blank
      invariant start <= pos <= |line|
      invariant start + Run(line[start..], blank) == pos + Run(line[pos..], blank)
    {
      assert line[pos..][1..] == line[pos + 1..];
      pos := pos + 1;
    }
  }

  /** Parse one command off the buffer.  Bytes are consumed only by a complete parse. */
  method ParseBuffer(buf: Buffer) returns (r: Parsed)
    requires buf.Valid()
    modifies buf`readPos, buf`writePos
    ensures buf.Valid()
    ensures r == Parse(old(buf.Readable()))
    ensures buf.Readable() == if r.Complete? then old(buf.Readable())[r.used..] else old(buf.Readable())
  {
    hide ParseArray, ParseInline;
    var data := buf.Readable();
    if data == [] {
      return Incomplete;
    }
    if data[0] == '*' {
      r := ReadArray(data);
    } else {
      r := ReadInline(data);
    }
    if r.Complete? {
      buf.Consume(r.used);
    }
  }

  /** The parse loop of one readable event: every complete command is taken off the buffer. */
  method DrainBuffer(buf: Buffer) returns (cmds: seq<Command>)
    requires buf.Valid()
    modifies buf`readPos, buf`writePos
    ensures buf.Valid()
    ensures Drained(cmds, buf.Readable()) == Drain(old(buf.Readable()))
  {
    hide Parse, Drain;
    cmds := [];
    while true
      invariant buf.Valid()
      invariant var d := Drain(buf.Readable());
                Drained(cmds + d.cmds, d.rest) == Drain(old(buf.Readable()))
      decreases |buf.Readable()|
    {
      FirstDrained(buf.Readable());
      var r := ParseBuffer(buf);
      if r.Incomplete? {
        assert cmds + [] == cmds;
        return;
      }
      ghost var d := Drain(buf.Readable());
      assert cmds + ([r.args] + d.cmds) == cmds + [r.args] + d.cmds;
      cmds := cmds + [r.args];
    }
  }

  /** A connection fed chunk by chunk: what has been parsed and what is still buffered is what one
      parse of the whole stream gives, however the stream was cut. */
  method ServeChunks(buf: Buffer, chunks: seq<Bytes>) returns (cmds: seq<Command>)
    requires buf.Valid() && buf.Readable() == []
    modifies buf, buf.data
    ensures buf.Valid() && (buf.data == old(buf.data) || fresh(buf.data))
    ensures Drained(cmds, buf.Readable()) == Drain(Concat(chunks))
  {
    hide Drain;
    cmds := [];
    var i := 0;
    ghost var state := Drained([], []);
    assert chunks[0..] == chunks;
    while i < |chunks|
      invariant 0 <= i <= |chunks|
      invariant buf.Valid() && (buf.data == old(buf.data) || fresh(buf.data))
      invariant state == Drained(cmds, buf.Readable())
      invariant FeedAll(Drained([], []), chunks) == FeedAll(state, chunks[i..])
    {
      assert chunks[i..][1..] == chunks[i + 1..];
      state := Feed(state, chunks[i]);
      buf.Append(chunks[i]);
      var more := DrainBuffer(buf);
      cmds := cmds + more;
      i := i + 1;
    }
    ChunkingIndependence(chunks, chunks);
  }
}
