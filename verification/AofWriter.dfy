/** The append-only file writer's output: formatted commands and the rewrite child's snapshot file. */
module AofWriter {
  import opened Text
  import opened Resp
  import opened RespProofs
  import opened SortedPairs
  import opened Objects
  import opened Commands
  import opened CommandProofs
  import opened Snapshots
  import opened TtlSnapshots
  import opened Expiry
  import ZSets

  /** `formatRespCommand`. */
  method FormatRespCommand(args: Command) returns (result: Bytes)
    ensures result == Format(args)
  {
    hide Digits;
    result := "*" + Digits(|args|) + CRLF;
    var i := 0;
    assert args[0..] == args;
    while i < |args|
      invariant 0 <= i <= |args|
      invariant Format(args) == result + FormatBulks(args[i..])
    {
      assert args[i..][1..] == args[i + 1..];
      var bulk := "$" + Digits(|args[i]|) + CRLF + args[i] + CRLF;
      assert result + (bulk + FormatBulks(args[i + 1..])) == result + bulk + FormatBulks(args[i + 1..]);
      result := result + bulk;
      i := i + 1;
    }
    assert result + [] == result;
  }

  /** A container's elements in some order of iteration. */
  method AnyOrder(keys: set<Bytes>) returns (order: seq<Bytes>)
    ensures Lists(order, keys)
  {
    order := [];
    var todo := keys;
    while todo != {}
      invariant todo <= keys && Lists(order, keys - todo)
      decreases todo
    {
      var k :| k in todo;
      order, todo := order + [k], todo - {k};
    }
    assert keys - todo == keys;
  }

  /** The reconstruction command of one key, as the child's `switch` builds it. */
  method KeyCommand(env: Env, k: Bytes, v: Value) returns (cmd: Command)
    requires !Skipped(v)
    ensures Emits(env, k, v, cmd)
  {
    hide FieldWords, ScoreWords;
    match v
    case Str(o) =>
      cmd := ["SET", k, AsString(o)];
    case List(items) =>
      cmd := ["RPUSH", k] + items;
    case Hash(fields) =>
      var fs := AnyOrder(fields.Keys);
      var words := HashWords(fields, fs);
      cmd := ["HSET", k] + words;
    case Set(members) =>
      var ms := AnyOrder(members);
      cmd := ["SADD", k] + ms;
    case ZSet(scores) =>
      var ms := AnyOrder(scores.Keys);
      var words := ZSetWords(env, scores, ms);
      cmd := ["ZADD", k] + words;
  }

  method HashWords(h: map<Bytes, Bytes>, fs: seq<Bytes>) returns (words: Command)
    requires forall f :: f in fs ==> f in h
    ensures words == FieldWords(h, fs)
  {
    words := [];
    var i := 0;
    assert fs[0..] == fs;
    while i < |fs|
      invariant 0 <= i <= |fs|
      invariant FieldWords(h, fs) == words + FieldWords(h, fs[i..])
    {
      assert fs[i..][1..] == fs[i + 1..];
      words := words + [fs[i], h[fs[i]]];
      i := i + 1;
    }
  }

  method ZSetWords(env: Env, z: ZSets.Dict, ms: seq<Bytes>) returns (words: Command)
    requires forall m :: m in ms ==> m in z
    ensures words == ScoreWords(env, z, ms)
  {
    words := [];
    var i := 0;
    assert ms[0..] == ms;
    while i < |ms|
      invariant 0 <= i <= |ms|
      invariant ScoreWords(env, z, ms) == words + ScoreWords(env, z, ms[i..])
    {
      assert ms[i..][1..] == ms[i + 1..];
      words := words + [env.printScore(z[ms[i]]), ms[i]];
      i := i + 1;
    }
  }

  /** The lines of one key: its reconstruction command, then PEXPIRE when it has time left when asked. */
  method KeyLines(env: Env, asked: int, k: Bytes, e: Entry) returns (lines: seq<Command>)
    ensures Piece(env, asked, k, e, lines)
  {
    hide Emits;
    lines := [];
    if !Skipped(e.value) {
      var cmd := KeyCommand(env, k, e.value);
      lines := [cmd];
    }
    var ttl := Remaining(e.expireAt, asked);
    if ttl > 0 {
      lines := lines + [ExpireLine(k, ttl)];
    }
  }

  /** The child's loop over all keys, in whatever order they come; `at` are its clock readings. */
  method WriteSnapshot(env: Env, at: Readings, db: DB, keys: seq<Bytes>) returns (file: Bytes)
    requires Lists(keys, db.Keys)
    ensures exists cmds :: file == FormatAll(cmds) && IsTtlSnapshot(env, at, db, cmds)
  {
    hide Format, Piece, Overdue, FormatAll;
    file := [];
    ghost var done: seq<Bytes> := [];
    ghost var pieces: seq<seq<Command>> := [];
    FormatNone();
    var i := 0;
    while i < |keys|
      invariant 0 <= i <= |keys| && |pieces| == |done|
      invariant file == FormatAll(Flatten(pieces))
      invariant Distinct(done) && forall k :: k in done <==> k in keys[..i] && k in LiveKeys(db, at)
      invariant forall j :: 0 <= j < |done| ==> done[j] in db && Piece(env, at(done[j]).asked, done[j], db[done[j]], pieces[j])
    {
      var k := keys[i];
      assert k in keys && k !in keys[..i];
      assert keys[..i + 1] == keys[..i] + [k];
      if !Overdue(db[k].expireAt, at(k).found) {
        var lines := KeyLines(env, at(k).asked, k, db[k]);
        var text := FormatLines(lines);
        FormatAllAppends(Flatten(pieces), lines);
        assert (pieces + [lines])[..|pieces|] == pieces;
        file, pieces, done := file + text, pieces + [lines], done + [k];
      }
      i := i + 1;
    }
    assert keys[..i] == keys;
    assert PiecesOf(env, at, db, done, pieces);
    assert IsTtlSnapshot(env, at, db, Flatten(pieces));
  }

  method FormatLines(lines: seq<Command>) returns (text: Bytes)
    ensures text == FormatAll(lines)
  {
    hide Format;
    text := [];
    var i := 0;
    while i < |lines|
      invariant 0 <= i <= |lines| && text == FormatAll(lines[..i])
    {
      var line := FormatRespCommand(lines[i]);
      FormatAllSnoc(lines[..i], lines[i]);
      assert lines[..i + 1] == lines[..i] + [lines[i]];
      text := text + line;
      i := i + 1;
    }
    assert lines[..i] == lines;
  }

  lemma FormatNone()
    ensures FormatAll(Flatten([])) == []
  {
  }

  lemma FormatAllSnoc(cmds: seq<Command>, c: Command)
    ensures FormatAll(cmds + [c]) == FormatAll(cmds) + Format(c)
  {
    hide Format;
    FormatAllAppends(cmds, [c]);
    assert FormatAll([c]) == Format(c);
  }
}
