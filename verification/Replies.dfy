/** RESP2 replies: the serializer, and the reader a client needs. */
module Replies {
  import opened Text
  import opened Resp

  datatype Reply =
    | Simple(text: Bytes)
    | Error(text: Bytes)
    | Int(i: int)
    | BulkString(bytes: Bytes)
    | Null
    | Array(elements: seq<Reply>)

  function Serialize(r: Reply): Bytes
    decreases r, 1
  {
    match r
    case Simple(text) => "+" + text + CRLF
    case Error(text) => "-" + text + CRLF
    case Int(i) => ":" + IntText(i) + CRLF
    case BulkString(bytes) => "$" + Digits(|bytes|) + CRLF + bytes + CRLF
    case Null => "$-1" + CRLF
    case Array(elements) => "*" + Digits(|elements|) + CRLF + SerializeAll(elements)
  }

  function SerializeAll(rs: seq<Reply>): Bytes
    decreases rs, 0
  {
    if rs == [] then [] else Serialize(rs[0]) + SerializeAll(rs[1..])
  }

  // ---------- reading replies back ----------

  datatype Got = NoReply | Got(reply: Reply, rest: Bytes)
  datatype GotMany = NoReplies | GotMany(replies: seq<Reply>, rest: Bytes)

  /** One complete RESP2 value off the front of `data`. */
  function Read(data: Bytes): (g: Got)
    ensures g.Got? ==> |g.rest| < |data|
    decreases |data|, 0
  {
    var crlf := if data == [] then -1 else FindCRLF(data, 1);
    if crlf < 0 then NoReply
    else
      var line, rest := data[1..crlf], data[crlf + 2..];
      match data[0]
      case '+' => Got(Simple(line), rest)
      case '-' => Got(Error(line), rest)
      case ':' => Got(Int(Atoi(line)), rest)
      case '$' =>
        var n := Atoi(line);
        if n < 0 then Got(Null, rest)
        else if |rest| < n + 2 then NoReply
        else Got(BulkString(rest[..n]), rest[n + 2..])
      case '*' =>
        var m := ReadMany(rest, Atoi(line));
        if m.NoReplies? then NoReply else Got(Array(m.replies), m.rest)
      case _ => NoReply
  }

  function ReadMany(data: Bytes, n: int): (g: GotMany)
    ensures g.GotMany? ==> |g.rest| <= |data|
    decreases |data|, 1
  {
    if n <= 0 then GotMany([], data)
    else
      var g := Read(data);
      if g.NoReply? then NoReplies
      else
        var m := ReadMany(g.rest, n - 1);
        if m.NoReplies? then NoReplies else GotMany([g.reply] + m.replies, m.rest)
  }

  ghost predicate NoCRLF(text: Bytes) {
    forall i: nat :: !CRLFAt(text, i)
  }

  /** No CR LF in the text of a simple string or an error, at any depth. */
  ghost predicate Clean(r: Reply) {
    match r
    case Simple(text) => NoCRLF(text)
    case Error(text) => NoCRLF(text)
    case Array(elements) => forall i :: 0 <= i < |elements| ==> Clean(elements[i])
    case _ => true
  }

  lemma {:induction false} FirstCRLF(text: Bytes, rest: Bytes, pre: Bytes, k: nat)
    requires k <= |text| && forall i :: k <= i ==> !CRLFAt(text, i)
    ensures FindCRLF(pre + text + CRLF + rest, |pre| + k) == |pre| + |text|
    decreases |text| - k
  {
    var data := pre + text + CRLF + rest;
    if k < |text| {
      assert data[|pre| + k] == text[k];
      if k + 1 < |text| { assert data[|pre| + k + 1] == text[k + 1]; } else { assert data[|pre| + k + 1] == '\r'; }
      assert !CRLFAt(text, k);
      assert !CRLFAt(data, |pre| + k);
      FirstCRLF(text, rest, pre, k + 1);
    } else {
      assert CRLFAt(data, |pre| + k);
    }
  }

  /** A tag character, a line without CR LF, and what follows. */
  lemma LineSplits(tag: char, text: Bytes, rest: Bytes)
    requires NoCRLF(text)
    ensures var data := [tag] + text + CRLF + rest;
            FindCRLF(data, 1) == 1 + |text| && data[0] == tag
            && data[1..1 + |text|] == text && data[1 + |text| + 2..] == rest
  {
    hide FindCRLF;
    FirstCRLF(text, rest, [tag], 0);
    var data := [tag] + text + CRLF + rest;
    assert data[1..1 + |text|] == text;
    assert data[1 + |text| + 2..] == rest;
  }

  lemma IntTextClean(i: int)
    ensures NoCRLF(IntText(i))
  {
  }

  /** Every clean reply is read back as it was written, whatever follows it in the stream. */
  lemma {:induction false} ReplyRoundTrip(r: Reply, rest: Bytes)
    requires Clean(r)
    ensures Read(Serialize(r) + rest) == Got(r, rest)
    decreases r, 1
  {
    hide FindCRLF, ScanInt, Digits, IntText;
    var data := Serialize(r) + rest;
    match r
    case Simple(text) =>
      LineSplits('+', text, rest);
      assert data == ['+'] + text + CRLF + rest;
    case Error(text) =>
      LineSplits('-', text, rest);
      assert data == ['-'] + text + CRLF + rest;
    case Int(i) =>
      IntTextClean(i);
      ScanIntRoundTrip(i);
      LineSplits(':', IntText(i), rest);
      assert data == [':'] + IntText(i) + CRLF + rest;
    case BulkString(bytes) =>
      BulkReads(bytes, rest);
    case Null =>
      NullReads(rest);
    case Array(elements) =>
      var more := SerializeAll(elements) + rest;
      LengthLine('*', |elements|, more);
      assert data == ['*'] + Digits(|elements|) + CRLF + more;
      ManyRoundTrip(elements, rest);
  }

  lemma LengthLine(tag: char, n: nat, rest: Bytes)
    ensures NoCRLF(Digits(n)) && Atoi(Digits(n)) == n
    ensures var data := [tag] + Digits(n) + CRLF + rest;
            FindCRLF(data, 1) == 1 + |Digits(n)| && data[0] == tag
            && data[1..1 + |Digits(n)|] == Digits(n) && data[1 + |Digits(n)| + 2..] == rest
  {
    hide FindCRLF, ScanInt, Digits;
    IntTextClean(n);
    ScanIntRoundTrip(n);
    LineSplits(tag, Digits(n), rest);
  }

  lemma BulkReads(bytes: Bytes, rest: Bytes)
    ensures Read(Serialize(BulkString(bytes)) + rest) == Got(BulkString(bytes), rest)
  {
    hide FindCRLF, ScanInt, Digits;
    var body := bytes + CRLF + rest;
    LengthLine('$', |bytes|, body);
    assert Serialize(BulkString(bytes)) + rest == ['$'] + Digits(|bytes|) + CRLF + body;
    assert body[..|bytes|] == bytes && body[|bytes| + 2..] == rest;
  }

  lemma NullReads(rest: Bytes)
    ensures Read(Serialize(Null) + rest) == Got(Null, rest)
  {
    hide FindCRLF;
    LineSplits('$', "-1", rest);
    assert Serialize(Null) + rest == ['$'] + "-1" + CRLF + rest;
    assert IntText(-1) == "-1";
    ScanIntRoundTrip(-1);
  }

  lemma {:induction false} ManyRoundTrip(rs: seq<Reply>, rest: Bytes)
    requires forall i :: 0 <= i < |rs| ==> Clean(rs[i])
    ensures ReadMany(SerializeAll(rs) + rest, |rs|) == GotMany(rs, rest)
    decreases rs, 0
  {
    hide Read, Serialize;
    if rs == [] {
      assert SerializeAll(rs) + rest == rest;
    } else {
      var more := SerializeAll(rs[1..]) + rest;
      assert SerializeAll(rs) + rest == Serialize(rs[0]) + more;
      ReplyRoundTrip(rs[0], more);
      ManyRoundTrip(rs[1..], rest);
      assert [rs[0]] + rs[1..] == rs;
    }
  }

  lemma LineClean(data: Bytes)
    requires data != [] && FindCRLF(data, 1) >= 0
    ensures NoCRLF(data[1..FindCRLF(data, 1)])
  {
    var crlf := FindCRLF(data, 1);
    var line := data[1..crlf];
    forall i: nat ensures !CRLFAt(line, i) {
      if CRLFAt(line, i) {
        assert CRLFAt(data, i + 1);
      }
    }
  }

  /** Whatever is read is clean. */
  lemma {:induction false} ReadClean(data: Bytes)
    ensures Read(data).Got? ==> Clean(Read(data).reply)
    decreases |data|, 0
  {
    hide FindCRLF, ScanInt, NoCRLF;
    if data != [] && FindCRLF(data, 1) >= 0 {
      LineClean(data);
      var crlf := FindCRLF(data, 1);
      ReadManyClean(data[crlf + 2..], Atoi(data[1..crlf]));
    }
  }

  lemma {:induction false} ReadManyClean(data: Bytes, n: int)
    ensures var m := ReadMany(data, n);
            m.GotMany? ==> forall i :: 0 <= i < |m.replies| ==> Clean(m.replies[i])
    decreases |data|, 1
  {
    hide Read;
    if n > 0 {
      ReadClean(data);
      var g := Read(data);
      if g.Got? {
        ReadManyClean(g.rest, n - 1);
      }
    }
  }

  /** The condition is exact: a reply is read back as written if and only if it is clean. */
  lemma ReadBackIff(r: Reply, rest: Bytes)
    ensures Read(Serialize(r) + rest) == Got(r, rest) <==> Clean(r)
  {
    hide Read, Serialize;
    ReadClean(Serialize(r) + rest);
    if Clean(r) {
      ReplyRoundTrip(r, rest);
    }
  }
}
