/** The RESP2 request grammar: what the parser reads and what the append-only file writer prints. */
module Resp {
  import opened Text

  type Command = seq<Bytes>

  // ---------- printing (AOFWriter::formatRespCommand) ----------

  function FormatBulk(arg: Bytes): Bytes {
    "$" + Digits(|arg|) + CRLF + arg + CRLF
  }

  function FormatBulks(args: Command): Bytes {
    if args == [] then [] else FormatBulk(args[0]) + FormatBulks(args[1..])
  }

  function Format(args: Command): Bytes {
    "*" + Digits(|args|) + CRLF + FormatBulks(args)
  }

  function FormatAll(cmds: seq<Command>): Bytes {
    if cmds == [] then [] else Format(cmds[0]) + FormatAll(cmds[1..])
  }

  // ---------- parsing ----------

  predicate CRLFAt(data: Bytes, i: nat) {
    i + 1 < |data| && data[i] == '\r' && data[i + 1] == '\n'
  }

  /** The first CR LF at or after `offset`, or -1. */
  function FindCRLF(data: Bytes, offset: nat): (r: int)
    ensures r == -1 || (offset <= r && CRLFAt(data, r))
    ensures forall i :: offset <= i && (r == -1 || i < r) ==> !CRLFAt(data, i)
    decreases |data| - offset
  {
    if offset + 1 >= |data| then -1
    else if CRLFAt(data, offset) then offset
    else FindCRLF(data, offset + 1)
  }

  /** `Incomplete` is the source's `nullopt`: more bytes needed, or a malformed frame. */
  datatype Parsed = Incomplete | Complete(args: Command, used: nat)

  /** One bulk string read at `pos`: its bytes and the position behind it. */
  datatype Bulk = NoBulk | Bulk(arg: Bytes, next: nat)

  function BulkAt(data: Bytes, pos: nat): (r: Bulk)
    ensures r.Bulk? ==> pos < r.next <= |data|
  {
    if pos >= |data| || data[pos] != '$' then NoBulk
    else
      var crlf := FindCRLF(data, pos + 1);
      if crlf < 0 then NoBulk
      else
        var n := Atoi(data[pos + 1..crlf]);
        if n < 0 then Bulk([], crlf + 2)
        else
          var end := crlf + 2 + n;
          if end + 2 > |data| || !CRLFAt(data, end) then NoBulk
          else Bulk(data[crlf + 2..end], end + 2)
  }

  /** Parse `count` bulk strings starting at `pos`; `used` is the position reached. */
  function ParseBulks(data: Bytes, pos: nat, count: int): (r: Parsed)
    ensures r.Complete? && pos <= |data| ==> pos <= r.used <= |data|
    decreases count
  {
    if count <= 0 then Complete([], pos)
    else
      var b := BulkAt(data, pos);
      if b.NoBulk? then Incomplete else Prepend(b.arg, ParseBulks(data, b.next, count - 1))
  }

  function Prepend(arg: Bytes, rest: Parsed): Parsed {
    if rest.Complete? then Complete([arg] + rest.args, rest.used) else Incomplete
  }

  function ParseArray(data: Bytes): (r: Parsed)
    requires data != []
    ensures r.Complete? ==> 0 < r.used <= |data|
  {
    var crlf := FindCRLF(data, 1);
    if crlf < 0 then Incomplete
    else
      var count := Atoi(data[1..crlf]);
      if count < 0 then Complete([], crlf + 2) else ParseBulks(data, crlf + 2, count)
  }

  /** Length of the run of leading characters that are (or are not) spaces. */
  function Run(s: Bytes, blank: bool): (n: nat)
    ensures n <= |s|
    ensures forall i :: 0 <= i < n ==> (s[i] == ' ') == blank
    ensures n < |s| ==> (s[n] == ' ') != blank
  {
    if s != [] && (s[0] == ' ') == blank then 1 + Run(s[1..], blank) else 0
  }

  /** The maximal space-free pieces of a line, in order. */
  function Tokens(line: Bytes): Command
    decreases |line|
  {
    var rest := line[Run(line, true)..];
    if rest == [] then []
    else var n := Run(rest, false); [rest[..n]] + Tokens(rest[n..])
  }

  function ParseInline(data: Bytes): (r: Parsed)
    ensures r.Complete? ==> 0 < r.used <= |data|
  {
    var crlf := FindCRLF(data, 0);
    if crlf < 0 then Incomplete else Complete(Tokens(data[..crlf]), crlf + 2)
  }

  function Parse(data: Bytes): (r: Parsed)
    ensures r.Complete? ==> 0 < r.used <= |data|
  {
    if data == [] then Incomplete
    else if data[0] == '*' then ParseArray(data)
    else ParseInline(data)
  }

  // ---------- draining a stream ----------

  /** The commands parsed off the front of a stream, and the bytes left over. */
  datatype Drained = Drained(cmds: seq<Command>, rest: Bytes)

  function Drain(data: Bytes): Drained
    decreases |data|
  {
    var p := Parse(data);
    if p.Incomplete? then Drained([], data)
    else
      var d := Drain(data[p.used..]);
      Drained([p.args] + d.cmds, d.rest)
  }

  /** One more read of the connection: append the chunk, then parse as long as possible. */
  function Feed(d: Drained, chunk: Bytes): Drained {
    var e := Drain(d.rest + chunk);
    Drained(d.cmds + e.cmds, e.rest)
  }

  function FeedAll(d: Drained, chunks: seq<Bytes>): Drained
    decreases |chunks|
  {
    if chunks == [] then d else FeedAll(Feed(d, chunks[0]), chunks[1..])
  }

  function Concat(chunks: seq<Bytes>): Bytes {
    if chunks == [] then [] else chunks[0] + Concat(chunks[1..])
  }
}
