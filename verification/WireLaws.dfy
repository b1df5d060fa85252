/** The bytes on the wire, written out: what each reply looks like and what requests are understood. */
module WireLaws {
  import opened Text
  import opened Resp
  import opened Replies

  // ---------- replies ----------

  /** The bytes of every reply; an array is its header and its elements one after the other. */
  lemma WireFormat(r: Reply)
    ensures Serialize(r) ==
              match r
              case Simple(text) => "+" + text + "\r\n"
              case Error(text) => "-" + text + "\r\n"
              case Int(i) => (if i < 0 then ":-" + Digits(-i) + "\r\n" else ":" + Digits(i) + "\r\n")
              case BulkString(b) => "$" + Digits(|b|) + "\r\n" + b + "\r\n"
              case Null => "$-1\r\n"
              case Array(rs) => "*" + Digits(|rs|) + "\r\n" + Concat(seq(|rs|, i requires 0 <= i < |rs| => Serialize(rs[i])))
  {
    hide Digits, Concat;
    match r
    case Array(rs) => SerializeAllIs(rs);
    case Int(i) => assert i < 0 ==> ":" + ("-" + Digits(-i)) == ":-" + Digits(-i);
    case _ =>
  }

  lemma {:induction false} SerializeAllIs(rs: seq<Reply>)
    ensures SerializeAll(rs) == Concat(seq(|rs|, i requires 0 <= i < |rs| => Serialize(rs[i])))
  {
    hide Serialize;
    var parts := seq(|rs|, i requires 0 <= i < |rs| => Serialize(rs[i]));
    if rs != [] {
      var more := seq(|rs[1..]|, i requires 0 <= i < |rs[1..]| => Serialize(rs[1..][i]));
      SerializeAllIs(rs[1..]);
      assert parts[0] == Serialize(rs[0]) && parts[1..] == more;
    }
  }

  // ---------- inline requests ----------

  function Spaces(n: nat): Bytes {
    seq(n, _ => ' ')
  }

  /** A line of words with `gaps[i]` spaces before word `i` and some at the end. */
  function Line(words: seq<Bytes>, gaps: seq<nat>): Bytes
    requires |gaps| == |words| + 1
  {
    if words == [] then Spaces(gaps[0]) else Spaces(gaps[0]) + words[0] + Line(words[1..], gaps[1..])
  }

  predicate Word(w: Bytes) {
    w != [] && forall i :: 0 <= i < |w| ==> w[i] != ' '
  }

  lemma RunIs(s: Bytes, blank: bool, rest: Bytes)
    requires forall i :: 0 <= i < |s| ==> (s[i] == ' ') == blank
    requires rest != [] ==> (rest[0] == ' ') != blank
    ensures Run(s + rest, blank) == |s|
  {
    var t := s + rest;
    assert forall i :: 0 <= i < |s| ==> t[i] == s[i];
    assert rest != [] ==> t[|s|] == rest[0];
  }

  /** Words separated by any number of spaces are the words of the line. */
  lemma {:induction false} TokensOfLine(words: seq<Bytes>, gaps: seq<nat>)
    requires |gaps| == |words| + 1
    requires forall i :: 0 <= i < |words| ==> Word(words[i])
    requires forall i :: 0 < i < |words| ==> gaps[i] > 0
    ensures Tokens(Line(words, gaps)) == words
    decreases |words|
  {
    hide Tokens, Run;
    var line := Line(words, gaps);
    if words == [] {
      RunIs(line, true, []);
      assert line + [] == line;
      TokensNone(line);
    } else {
      var more := Line(words[1..], gaps[1..]);
      var rest := words[0] + more;
      assert line == Spaces(gaps[0]) + rest;
      assert Word(words[0]);
      RunIs(Spaces(gaps[0]), true, rest);
      LineStart(words[1..], gaps[1..]);
      RunIs(words[0], false, more);
      TokensOfLine(words[1..], gaps[1..]);
      TokensFirst(line, gaps[0], rest, words[0], more);
      assert [words[0]] + words[1..] == words;
    }
  }

  lemma TokensNone(line: Bytes)
    requires Run(line, true) == |line|
    ensures Tokens(line) == []
  {
    hide Run;
  }

  lemma TokensFirst(line: Bytes, n: nat, rest: Bytes, word: Bytes, more: Bytes)
    requires Run(line, true) == n && n <= |line| && line[n..] == rest && word != []
    requires rest == word + more && Run(rest, false) == |word|
    ensures Tokens(line) == [word] + Tokens(more)
  {
    hide Run;
    assert rest[..|word|] == word && rest[|word|..] == more;
  }

  /** Behind a word the line is over or goes on with a space. */
  lemma LineStart(words: seq<Bytes>, gaps: seq<nat>)
    requires |gaps| == |words| + 1 && (words != [] ==> gaps[0] > 0)
    ensures var s := Line(words, gaps); s != [] ==> s[0] == ' '
  {
  }

  /** An inline request: every line of words without CR LF and not starting with `*` is the command of these words. */
  lemma InlineRoundTrip(words: seq<Bytes>, gaps: seq<nat>, rest: Bytes)
    requires |gaps| == |words| + 1
    requires forall i :: 0 <= i < |words| ==> Word(words[i])
    requires forall i :: 0 < i < |words| ==> gaps[i] > 0
    requires var s := Line(words, gaps); NoCRLF(s) && (s != [] ==> s[0] != '*')
    ensures Parse(Line(words, gaps) + "\r\n" + rest) == Complete(words, |Line(words, gaps)| + 2)
  {
    hide Tokens, Line, FindCRLF;
    var s := Line(words, gaps);
    var data := s + "\r\n" + rest;
    FirstCRLF(s, rest, [], 0);
    assert data == [] + s + CRLF + rest && data[..|s|] == s;
    assert data[0] == if s == [] then '\r' else s[0];
    TokensOfLine(words, gaps);
  }

  // ---------- the grammar of requests ----------

  /** `frame` is a bulk string: a length line, and the bytes of that length closed by CR LF; a negative length stands for
      an empty word and has no bytes. */
  ghost predicate BulkForm(frame: Bytes, text: Bytes, arg: Bytes) {
    && NoCRLF(text)
    && (if Atoi(text) < 0 then arg == [] && frame == "$" + text + "\r\n"
        else Atoi(text) == |arg| && frame == "$" + text + "\r\n" + arg + "\r\n")
  }

  lemma BulkSound(data: Bytes, pos: nat)
    requires pos <= |data| && BulkAt(data, pos).Bulk?
    ensures var b := BulkAt(data, pos);
            pos < b.next <= |data| && exists text :: BulkForm(data[pos..b.next], text, b.arg)
  {
    hide ScanInt, FindCRLF;
    var crlf := FindCRLF(data, pos + 1);
    var text := data[pos + 1..crlf];
    forall i: nat ensures !CRLFAt(text, i) {
      assert CRLFAt(text, i) ==> CRLFAt(data, pos + 1 + i);
    }
    var b := BulkAt(data, pos);
    var line := "$" + text + "\r\n";
    assert data[pos..crlf + 2] == line;
    if Atoi(text) >= 0 {
      assert data[pos..b.next] == line + b.arg + "\r\n";
    }
    assert BulkForm(data[pos..b.next], text, b.arg);
  }

  lemma BulkComplete(data: Bytes, pos: nat, next: nat, text: Bytes, arg: Bytes)
    requires pos <= next <= |data| && BulkForm(data[pos..next], text, arg)
    ensures BulkAt(data, pos) == Bulk(arg, next)
  {
    hide BulkAt, ScanInt, NoCRLF;
    var f, pre, rest := data[pos..next], data[..pos], data[next..];
    assert data == pre + f + rest;
    if Atoi(text) < 0 {
      EmptyBulk(pre, text, rest);
      assert data == pre + "$" + text + CRLF + rest;
    } else {
      FullBulk(pre, text, arg, rest);
      assert data == pre + "$" + text + CRLF + (arg + CRLF + rest);
    }
  }

  lemma EmptyBulk(pre: Bytes, text: Bytes, rest: Bytes)
    requires NoCRLF(text) && Atoi(text) < 0
    ensures BulkAt(pre + "$" + text + CRLF + rest, |pre|) == Bulk([], |pre| + |text| + 3)
  {
    hide ScanInt, FindCRLF, NoCRLF;
    var data, head := pre + "$" + text + CRLF + rest, pre + "$";
    LineFound(text, rest, head);
    assert data[|pre|] == '$' && data[|pre| + 1..|pre| + 1 + |text|] == text;
  }

  lemma FullBulk(pre: Bytes, text: Bytes, arg: Bytes, rest: Bytes)
    requires NoCRLF(text) && Atoi(text) == |arg|
    ensures BulkAt(pre + "$" + text + CRLF + (arg + CRLF + rest), |pre|) == Bulk(arg, |pre| + |text| + |arg| + 5)
  {
    hide ScanInt, FindCRLF, NoCRLF;
    var body := arg + CRLF + rest;
    var data, head, n := pre + "$" + text + CRLF + body, pre + "$", |pre| + |text| + 3;
    LineFound(text, body, head);
    assert data[|pre|] == '$' && data[|pre| + 1..|pre| + 1 + |text|] == text;
    assert data[n..] == body;
    BodyAt(data, n, arg, rest);
  }

  lemma BodyAt(data: Bytes, n: nat, arg: Bytes, rest: Bytes)
    requires n <= |data| && data[n..] == arg + CRLF + rest
    ensures n + |arg| + 2 <= |data| && CRLFAt(data, n + |arg|) && data[n..n + |arg|] == arg
  {
    assert data[n + |arg|] == data[n..][|arg|] && data[n + |arg| + 1] == data[n..][|arg| + 1];
    assert data[n..n + |arg|] == data[n..][..|arg|];
  }

  lemma LineFound(text: Bytes, rest: Bytes, pre: Bytes)
    requires NoCRLF(text)
    ensures FindCRLF(pre + text + CRLF + rest, |pre|) == |pre| + |text|
  {
    hide FindCRLF;
    FirstCRLF(text, rest, pre, 0);
  }

  /** `frame` is one bulk string for each word, one after the other. */
  ghost predicate BulksForm(frame: Bytes, args: Command) {
    if args == [] then frame == []
    else exists n: nat, text :: n <= |frame| && BulkForm(frame[..n], text, args[0]) && BulksForm(frame[n..], args[1..])
  }

  lemma {:induction false} BulksSound(data: Bytes, pos: nat, count: nat)
    requires pos <= |data| && ParseBulks(data, pos, count).Complete?
    ensures var p := ParseBulks(data, pos, count);
            |p.args| == count && pos <= p.used <= |data| && BulksForm(data[pos..p.used], p.args)
    decreases count
  {
    hide BulkAt, BulkForm;
    var p := ParseBulks(data, pos, count);
    if count > 0 {
      var b := BulkAt(data, pos);
      BulkSound(data, pos);
      BulksSound(data, b.next, count - 1);
      var text :| BulkForm(data[pos..b.next], text, b.arg);
      var f, n := data[pos..p.used], b.next - pos;
      assert f[..n] == data[pos..b.next] && f[n..] == data[b.next..p.used];
      assert p.args[0] == b.arg && p.args[1..] == ParseBulks(data, b.next, count - 1).args;
    }
  }

  lemma {:induction false} BulksComplete(data: Bytes, pos: nat, next: nat, args: Command)
    requires pos <= next <= |data| && BulksForm(data[pos..next], args)
    ensures ParseBulks(data, pos, |args|) == Complete(args, next)
    decreases |args|
  {
    hide BulkAt, BulkForm;
    if args != [] {
      var f := data[pos..next];
      var n: nat, text :| n <= |f| && BulkForm(f[..n], text, args[0]) && BulksForm(f[n..], args[1..]);
      assert f[..n] == data[pos..pos + n] && f[n..] == data[pos + n..next];
      BulkComplete(data, pos, pos + n, text, args[0]);
      BulksComplete(data, pos + n, next, args[1..]);
      assert [args[0]] + args[1..] == args;
    }
  }

  /** The first `used` bytes of the stream are the request `args`: a length line and as many bulk strings, or a negative
      length for no words. */
  ghost predicate ArrayForm(frame: Bytes, text: Bytes, args: Command) {
    && NoCRLF(text) && |frame| >= |text| + 3 && frame[..|text| + 3] == "*" + text + "\r\n"
    && (if Atoi(text) < 0 then args == [] && |frame| == |text| + 3
        else Atoi(text) == |args| && BulksForm(frame[|text| + 3..], args))
  }

  /** The parser takes exactly the requests of the grammar: a stream that starts with `*` parses to `args` and a number
      of bytes if and only if these bytes have the form of `args`. */
  lemma ParseIff(data: Bytes, args: Command, used: nat)
    requires data != [] && data[0] == '*'
    ensures Parse(data) == Complete(args, used) <==> used <= |data| && exists text :: ArrayForm(data[..used], text, args)
  {
    hide ParseArray, ArrayForm;
    if Parse(data) == Complete(args, used) {
      ArraySound(data, args, used);
    }
    if used <= |data| && exists text :: ArrayForm(data[..used], text, args) {
      var text :| ArrayForm(data[..used], text, args);
      ArrayComplete(data, args, used, text);
    }
  }

  lemma ArraySound(data: Bytes, args: Command, used: nat)
    requires data != [] && data[0] == '*' && ParseArray(data) == Complete(args, used)
    ensures used <= |data| && exists text :: ArrayForm(data[..used], text, args)
  {
    hide ScanInt, FindCRLF, ParseBulks, BulksForm;
    LineClean(data);
    hide NoCRLF;
    var crlf := FindCRLF(data, 1);
    var text := data[1..crlf];
    var f := data[..used];
    assert data[..crlf + 2] == "*" + text + "\r\n";
    if Atoi(text) >= 0 {
      BulksSound(data, crlf + 2, Atoi(text));
      assert f[crlf + 2..] == data[crlf + 2..used];
    }
    assert f[..|text| + 3] == data[..crlf + 2];
    assert ArrayForm(f, text, args);
  }

  lemma ArrayComplete(data: Bytes, args: Command, used: nat, text: Bytes)
    requires data != [] && used <= |data| && ArrayForm(data[..used], text, args)
    ensures ParseArray(data) == Complete(args, used)
  {
    hide ScanInt, FindCRLF, ParseBulks, BulksForm, NoCRLF;
    var f, n := data[..used], |text| + 3;
    assert data[..n] == f[..n] && data == data[..n] + data[n..];
    assert data == "*" + text + CRLF + data[n..];
    LineFound(text, data[n..], "*");
    assert data[1..|text| + 1] == text;
    if Atoi(text) >= 0 {
      assert f[n..] == data[n..used];
      BulksComplete(data, n, used, args);
    }
  }
}
