/** Round trip, extension, chunking and truncation laws of the request codec. */
module RespProofs {
  import opened Text
  import opened Resp

  // ---------- extension: a complete parse ignores what follows ----------

  lemma {:induction false} FindCRLFExtends(p: Bytes, q: Bytes, offset: nat)
    requires FindCRLF(p, offset) >= 0
    ensures FindCRLF(p + q, offset) == FindCRLF(p, offset)
    decreases |p| - offset
  {
    if !CRLFAt(p, offset) {
      FindCRLFExtends(p, q, offset + 1);
    }
  }

  lemma BulkAtExtends(p: Bytes, q: Bytes, pos: nat)
    requires BulkAt(p, pos).Bulk?
    ensures BulkAt(p + q, pos) == BulkAt(p, pos)
  {
    hide ScanInt, FindCRLF;
    FindCRLFExtends(p, q, pos + 1);
    var crlf := FindCRLF(p, pos + 1);
    assert (p + q)[pos + 1..crlf] == p[pos + 1..crlf];
    var n := Atoi(p[pos + 1..crlf]);
    if n >= 0 {
      assert (p + q)[crlf + 2..crlf + 2 + n] == p[crlf + 2..crlf + 2 + n];
    }
  }

  lemma {:induction false} ParseBulksExtends(p: Bytes, q: Bytes, pos: nat, count: int)
    requires ParseBulks(p, pos, count).Complete?
    ensures ParseBulks(p + q, pos, count) == ParseBulks(p, pos, count)
    decreases count
  {
    hide BulkAt;
    if count > 0 {
      BulkAtExtends(p, q, pos);
      ParseBulksExtends(p, q, BulkAt(p, pos).next, count - 1);
    }
  }

  lemma ParseArrayExtends(p: Bytes, q: Bytes)
    requires p != [] && ParseArray(p).Complete?
    ensures ParseArray(p + q) == ParseArray(p)
  {
    hide ScanInt, FindCRLF, ParseBulks;
    FindCRLFExtends(p, q, 1);
    var crlf := FindCRLF(p, 1);
    assert (p + q)[1..crlf] == p[1..crlf];
    var count := Atoi(p[1..crlf]);
    if count >= 0 {
      ParseBulksExtends(p, q, crlf + 2, count);
    }
  }

  lemma ParseInlineExtends(p: Bytes, q: Bytes)
    requires ParseInline(p).Complete?
    ensures ParseInline(p + q) == ParseInline(p)
  {
    hide FindCRLF, Tokens;
    FindCRLFExtends(p, q, 0);
    var crlf := FindCRLF(p, 0);
    assert (p + q)[..crlf] == p[..crlf];
  }

  /** If `parse` succeeds on a prefix, it gives the same command and byte count on every extension. */
  lemma ParseExtends(p: Bytes, q: Bytes)
    requires Parse(p).Complete?
    ensures Parse(p + q) == Parse(p)
  {
    hide ParseArray, ParseInline;
    if p[0] == '*' {
      ParseArrayExtends(p, q);
    } else {
      ParseInlineExtends(p, q);
    }
  }

  lemma {:induction false} DrainAppends(p: Bytes, q: Bytes)
    ensures Drain(p + q) == Feed(Drain(p), q)
    decreases |p|
  {
    hide Parse;
    var r := Parse(p);
    if r.Complete? {
      ParseExtends(p, q);
      assert (p + q)[r.used..] == p[r.used..] + q;
      DrainAppends(p[r.used..], q);
    }
  }

  lemma {:induction false} FeedAllIsDrain(p: Bytes, chunks: seq<Bytes>)
    ensures FeedAll(Drain(p), chunks) == Drain(p + Concat(chunks))
    decreases |chunks|
  {
    hide Drain, Feed;
    if chunks == [] {
      assert p + Concat(chunks) == p;
    } else {
      DrainAppends(p, chunks[0]);
      FeedAllIsDrain(p + chunks[0], chunks[1..]);
      assert p + chunks[0] + Concat(chunks[1..]) == p + Concat(chunks);
    }
  }

  /** The commands drained from a byte stream, and the leftover bytes, do not depend on how
      the stream was split into reads. */
  lemma ChunkingIndependence(chunks: seq<Bytes>, chunks': seq<Bytes>)
    requires Concat(chunks) == Concat(chunks')
    ensures FeedAll(Drained([], []), chunks) == FeedAll(Drained([], []), chunks')
    ensures FeedAll(Drained([], []), chunks) == Drain(Concat(chunks))
  {
    FeedAllIsDrain([], chunks);
    FeedAllIsDrain([], chunks');
    assert [] + Concat(chunks) == Concat(chunks);
  }

  // ---------- round trip ----------

  /** A line of digits is terminated by the first CR LF after it. */
  lemma {:induction false} FindCRLFAfterDigits(pre: Bytes, n: nat, post: Bytes, k: nat)
    requires k <= |Digits(n)|
    ensures FindCRLF(pre + Digits(n) + CRLF + post, |pre| + k) == |pre| + |Digits(n)|
    decreases |Digits(n)| - k
  {
    var data := pre + Digits(n) + CRLF + post;
    if k < |Digits(n)| {
      assert data[|pre| + k] == Digits(n)[k] && IsDigit(Digits(n)[k]);
      FindCRLFAfterDigits(pre, n, post, k + 1);
    } else {
      assert CRLFAt(data, |pre| + k);
    }
  }

  lemma HeaderRoundTrip(pre: Bytes, n: nat, post: Bytes)
    ensures var data := pre + Digits(n) + CRLF + post;
            var crlf := FindCRLF(data, |pre|);
            crlf == |pre| + |Digits(n)| && Atoi(data[|pre|..crlf]) == n && data[crlf + 2..] == post
  {
    hide ScanInt, FindCRLF, Digits;
    var data := pre + Digits(n) + CRLF + post;
    FindCRLFAfterDigits(pre, n, post, 0);
    assert data[|pre|..|pre| + |Digits(n)|] == Digits(n);
    ScanIntRoundTrip(n);
    assert data[|pre| + |Digits(n)| + 2..] == post;
  }

  /** One formatted bulk string is read back, and the parser is left just behind it. */
  lemma BulkRoundTrip(pre: Bytes, arg: Bytes, later: Bytes)
    ensures BulkAt(pre + FormatBulk(arg) + later, |pre|) == Bulk(arg, |pre| + |FormatBulk(arg)|)
  {
    hide ScanInt, Digits, FindCRLF;
    var data := pre + FormatBulk(arg) + later;
    var head := pre + "$" + Digits(|arg|) + CRLF;
    var body := arg + CRLF + later;
    assert data == (pre + "$") + Digits(|arg|) + CRLF + body;
    HeaderRoundTrip(pre + "$", |arg|, body);
    assert data == head + body;
    assert data[|head|..|head| + |arg|] == arg;
    assert CRLFAt(data, |head| + |arg|);
  }

  lemma {:induction false} BulksRoundTrip(pre: Bytes, args: Command, post: Bytes)
    ensures ParseBulks(pre + FormatBulks(args) + post, |pre|, |args|)
            == Complete(args, |pre| + |FormatBulks(args)|)
    decreases |args|
  {
    hide FormatBulk, BulkAt;
    if args != [] {
      var bulk, later := FormatBulk(args[0]), FormatBulks(args[1..]);
      BulkRoundTrip(pre, args[0], later + post);
      BulksRoundTrip(pre + bulk, args[1..], post);
      assert pre + FormatBulks(args) + post == pre + bulk + later + post == pre + bulk + (later + post);
      assert [args[0]] + args[1..] == args;
    }
  }

  /** Parsing what the log writer printed gives the command back, for arbitrary binary arguments
      and whatever follows in the stream. */
  lemma FormatRoundTrip(args: Command, rest: Bytes)
    ensures Parse(Format(args) + rest) == Complete(args, |Format(args)|)
  {
    hide ScanInt, FindCRLF, Digits, ParseBulks, FormatBulks;
    var data := Format(args) + rest;
    var post := FormatBulks(args) + rest;
    assert data == "*" + Digits(|args|) + CRLF + post;
    HeaderRoundTrip("*", |args|, post);
    var head := "*" + Digits(|args|) + CRLF;
    assert data == head + FormatBulks(args) + rest;
    BulksRoundTrip(head, args, rest);
  }

  lemma DrainStep(args: Command, rest: Bytes)
    ensures Drain(Format(args) + rest) == Drained([args] + Drain(rest).cmds, Drain(rest).rest)
  {
    hide Parse, Format;
    FormatRoundTrip(args, rest);
    assert (Format(args) + rest)[|Format(args)|..] == rest;
  }

  lemma {:induction false} LogThenRest(cmds: seq<Command>, rest: Bytes)
    ensures Drain(FormatAll(cmds) + rest) == Drained(cmds + Drain(rest).cmds, Drain(rest).rest)
    decreases |cmds|
  {
    hide Drain, Format;
    if cmds == [] {
      assert FormatAll(cmds) + rest == rest;
    } else {
      var tail := FormatAll(cmds[1..]) + rest;
      assert FormatAll(cmds) + rest == Format(cmds[0]) + tail;
      DrainStep(cmds[0], tail);
      LogThenRest(cmds[1..], rest);
      assert [cmds[0]] + (cmds[1..] + Drain(rest).cmds) == cmds + Drain(rest).cmds;
    }
  }

  /** Parsing the concatenation of formatted commands yields exactly those commands. */
  lemma LogRoundTrip(cmds: seq<Command>)
    ensures Drain(FormatAll(cmds)) == Drained(cmds, [])
  {
    LogThenRest(cmds, []);
    assert FormatAll(cmds) + [] == FormatAll(cmds);
  }

  lemma {:induction false} FormatAllAppends(a: seq<Command>, b: seq<Command>)
    ensures FormatAll(a + b) == FormatAll(a) + FormatAll(b)
    decreases |a|
  {
    if a == [] {
      assert a + b == b;
    } else {
      assert (a + b)[1..] == a[1..] + b;
      FormatAllAppends(a[1..], b);
    }
  }

  // ---------- truncation ----------

  /** A torn command is never mistaken for a complete one: if a proper prefix parsed, its extension
      to the whole command would parse to the same byte count. */
  lemma TornCommandIncomplete(args: Command, k: nat)
    requires k < |Format(args)|
    ensures Parse(Format(args)[..k]).Incomplete?
  {
    hide Parse, Format;
    var p, q := Format(args)[..k], Format(args)[k..];
    if Parse(p).Complete? {
      ParseExtends(p, q);
      assert p + q == Format(args) + [];
      FormatRoundTrip(args, []);
      assert false;
    }
  }

  /** The number of whole commands in the first `k` bytes of a log. */
  function WholeCommands(cmds: seq<Command>, k: nat): (m: nat)
    ensures m <= |cmds|
    decreases |cmds|
  {
    if cmds == [] || k < |Format(cmds[0])| then 0
    else 1 + WholeCommands(cmds[1..], k - |Format(cmds[0])|)
  }

  /** `WholeCommands` is the largest number of commands whose text fits into `k` bytes. */
  lemma {:induction false} WholeCommandsIsLargest(cmds: seq<Command>, k: nat, m: nat)
    requires m <= |cmds|
    ensures m <= WholeCommands(cmds, k) <==> |FormatAll(cmds[..m])| <= k
    decreases |cmds|
  {
    if m > 0 {
      assert cmds[..m][1..] == cmds[1..][..m - 1];
      if k >= |Format(cmds[0])| {
        WholeCommandsIsLargest(cmds[1..], k - |Format(cmds[0])|, m - 1);
      }
    }
  }

  /** For every byte prefix of a log, exactly the longest prefix of complete commands is recovered. */
  lemma {:induction false} TruncatedLog(cmds: seq<Command>, k: nat)
    requires k <= |FormatAll(cmds)|
    ensures var m := WholeCommands(cmds, k);
            var p := FormatAll(cmds)[..k];
            && |FormatAll(cmds[..m])| <= k
            && Drain(p) == Drained(cmds[..m], p[|FormatAll(cmds[..m])|..])
            && (forall j :: m < j <= |cmds| ==> |FormatAll(cmds[..j])| > k)
  {
    hide Drain, Format, WholeCommands;
    var m := WholeCommands(cmds, k);
    var p := FormatAll(cmds)[..k];
    forall j | 0 <= j <= |cmds|
      ensures j <= m <==> |FormatAll(cmds[..j])| <= k
    {
      WholeCommandsIsLargest(cmds, k, j);
    }
    assert cmds == cmds[..m] + cmds[m..];
    FormatAllAppends(cmds[..m], cmds[m..]);
    var done := FormatAll(cmds[..m]);
    var tail := p[|done|..];
    assert p == done + tail;
    LogThenRest(cmds[..m], tail);
    TailIncomplete(cmds, m, tail);
    assert cmds[..m] + [] == cmds[..m];
  }

  lemma TailIncomplete(cmds: seq<Command>, m: nat, tail: Bytes)
    requires m <= |cmds|
    requires tail <= FormatAll(cmds[m..])
    requires m < |cmds| ==> |FormatAll(cmds[..m + 1])| > |FormatAll(cmds[..m])| + |tail|
    ensures Drain(tail) == Drained([], tail)
  {
    hide Parse, Format;
    if m < |cmds| {
      assert cmds[..m + 1] == cmds[..m] + [cmds[m]];
      FormatAllAppends(cmds[..m], [cmds[m]]);
      assert FormatAll([cmds[m]]) == Format(cmds[m]);
      assert FormatAll(cmds[m..]) == Format(cmds[m]) + FormatAll(cmds[m..][1..]);
      assert tail == Format(cmds[m])[..|tail|];
      TornCommandIncomplete(cmds[m], |tail|);
    }
  }

  /** What one parse contributes to a drain. */
  lemma FirstDrained(data: Bytes)
    ensures var p := Parse(data);
            if p.Incomplete? then Drain(data) == Drained([], data)
            else Drain(data) == Drained([p.args] + Drain(data[p.used..]).cmds, Drain(data[p.used..]).rest)
  {
    hide Parse;
  }
}
