/** Start-up: replaying the append-only file, and what a torn tail means for the commands logged after it. */
module AofLoader {
  import opened Text
  import opened Resp
  import opened RespProofs
  import opened RespParser
  import opened Buffers
  import opened Commands
  import opened Snapshots
  import opened AofProtocol
  import opened Objects
  import opened Databases
  import opened Handlers
  import opened Executor
  import opened Locality
  import HashProofs
  import Timed

  /** The number of commands that are dispatched: empty ones are skipped. */
  function Dispatched(cmds: seq<Command>): nat {
    if cmds == [] then 0 else Dispatched(cmds[..|cmds| - 1]) + (if cmds[|cmds| - 1] == [] then 0 else 1)
  }

  /** `AOFLoader::load` on a buffer that holds the whole file: parse, and execute on the database object, until the buffer
      is empty or what is left is not a complete command. */
  method LoadBuffer(base: Env, level: nat -> nat, clock: nat -> int, buf: Buffer, db: Database<Value>) returns (count: nat, ghost env: Env)
    requires buf.Valid() && db.Valid() && Timed.Agree(db.State()) && View(db) == map[] && Levels(level)
    requires buf !in db.Repr && buf.data !in db.Repr
    modifies buf`readPos, buf`writePos, db.Repr
    ensures buf.Valid() && buf.Readable() == Drain(old(buf.Readable())).rest
    ensures db.Valid() && fresh(db.Repr - old(db.Repr)) && Timed.Agree(db.State()) && SameBase(base, env)
    ensures View(db) == Load(env, clock, old(buf.Readable()))
    ensures count == Dispatched(Drain(old(buf.Readable())).cmds)
  {
    hide Parse, Dispatch, Drain, RunAt, Dispatched, Database.Valid, HashProofs.Good, Timed.Agree, View, Levels, SameBase;
    ghost var file := buf.Readable();
    ghost var done: seq<Command> := [];
    count, env := 0, base;
    var parsed := 0;
    BaseSelf(base);
    NothingLoaded(env, clock, file);
    while |buf.Readable()| > 0
      invariant buf.Valid() && buf.data == old(buf.data) && buf !in db.Repr && buf.data !in db.Repr
      invariant db.Valid() && fresh(db.Repr - old(db.Repr)) && Timed.Agree(db.State()) && SameBase(base, env)
      invariant parsed == |done| && count == Dispatched(done) && View(db) == RunAt(env, clock, map[], done)
      invariant Drain(file) == Feed(Drained(done, []), buf.Readable())
      decreases |buf.Readable()|
    {
      FirstDrained(buf.Readable());
      assert [] + buf.Readable() == buf.Readable();
      var cmd := ParseBuffer(buf);
      if cmd.Incomplete? {
        assert done + [] == done;
        return;
      }
      FeedOne(done, cmd.args, buf.Readable());
      if cmd.args != [] {
        env := LoadOne(base, level, clock, db, env, done, parsed, cmd.args);
        count := count + 1;
      }
      OneMoreLoaded(env, clock, done, cmd.args);
      done, parsed := done + [cmd.args], parsed + 1;
    }
    FirstDrained([]);
    assert [] + buf.Readable() == [] && done + [] == done;
  }

  /** One logged command, as call number `n`. */
  method LoadOne(base: Env, level: nat -> nat, clock: nat -> int, db: Database<Value>,
                 ghost env: Env, ghost done: seq<Command>, n: nat, a: Command)
    returns (ghost env': Env)
    requires db.Valid() && Timed.Agree(db.State()) && Levels(level) && a != [] && SameBase(base, env) && n == |done|
    requires View(db) == RunAt(env, clock, map[], done)
    modifies db.Repr
    ensures db.Valid() && fresh(db.Repr - old(db.Repr)) && Timed.Agree(db.State()) && SameBase(base, env')
    ensures View(db) == Dispatch(At(env', n), clock(n), RunAt(env', clock, map[], done), a).db
  {
    hide Dispatch, RunAt, Database.Valid, HashProofs.Good, Timed.Agree, View, Levels, SameBase, Found, Learned, SameCall, AgreeBelow;
    ghost var d := View(db);
    ghost var seen;
    var reply;
    reply, seen := Execute(db, At(base, n), level, clock(n), a);
    LearnedLaw(base, env, seen, n);
    env' := Learned(env, seen, n);
    DispatchLocal(seen, At(env', n), clock(n), d, a);
    ReplayLocal(env, env', clock, map[], done);
  }

  lemma BaseSelf(base: Env)
    ensures SameBase(base, base)
  {
  }

  lemma FeedOne(done: seq<Command>, c: Command, rest: Bytes)
    ensures var d := Drain(rest);
            Feed(Drained(done + [c], []), rest) == Drained(done + ([c] + d.cmds), d.rest)
  {
    hide Drain;
    assert [] + rest == rest;
    assert done + [c] + Drain(rest).cmds == done + ([c] + Drain(rest).cmds);
  }

  lemma NothingLoaded(env: Env, clock: nat -> int, file: Bytes)
    ensures Dispatched([]) == 0 && RunAt(env, clock, map[], []) == map[]
    ensures Drain(file) == Feed(Drained([], []), file)
  {
    hide Drain;
    assert [] + file == file;
  }

  lemma OneMoreLoaded(env: Env, clock: nat -> int, done: seq<Command>, c: Command)
    ensures Dispatched(done + [c]) == Dispatched(done) + (if c == [] then 0 else 1)
    ensures RunAt(env, clock, map[], done + [c]) ==
            var d := RunAt(env, clock, map[], done); if c == [] then d else Dispatch(At(env, |done|), clock(|done|), d, c).db
  {
    hide Dispatch;
    assert (done + [c])[..|done|] == done;
  }

  // ---------- appending to a file with a torn tail ----------

  lemma {:induction false} RestIncomplete(f: Bytes)
    ensures Parse(Drain(f).rest).Incomplete?
    decreases |f|
  {
    hide Parse;
    var p := Parse(f);
    if p.Complete? {
      RestIncomplete(f[p.used..]);
    }
  }

  lemma {:induction false} SpaceRunStops(t: Bytes, w: Bytes)
    requires w != [] && w[0] == '*'
    ensures SpaceRun(t + w) == SpaceRun(t)
  {
    if t != [] {
      assert (t + w)[1..] == t[1..] + w;
      SpaceRunStops(t[1..], w);
    } else {
      assert t + w == w;
    }
  }

  lemma {:induction false} DigitRunStops(t: Bytes, w: Bytes)
    requires w != [] && w[0] == '*'
    ensures DigitRun(t + w) == DigitRun(t)
  {
    if t != [] {
      assert (t + w)[1..] == t[1..] + w;
      DigitRunStops(t[1..], w);
    } else {
      assert t + w == w;
    }
  }

  /** A number text is read up to the asterisk. */
  lemma AtoiStops(t: Bytes, w: Bytes)
    requires w != [] && w[0] == '*'
    ensures Atoi(t + w) == Atoi(t)
  {
    hide SpaceRun, DigitRun, DigitsValue;
    SpaceRunStops(t, w);
    var ws := SpaceRun(t);
    var sign := if ws < |t| && (t[ws] == '-' || t[ws] == '+') then 1 else 0;
    assert ws < |t| ==> (t + w)[ws] == t[ws];
    assert ws == |t| ==> (t + w)[ws] == '*';
    var body := t[ws + sign..];
    assert (t + w)[ws + sign..] == body + w;
    DigitRunStops(body, w);
    var n := DigitRun(body);
    assert (body + w)[..n] == body[..n];
  }

  lemma {:induction false} BulksCount(data: Bytes, pos: nat, count: int)
    requires ParseBulks(data, pos, count).Complete?
    ensures |ParseBulks(data, pos, count).args| == if count > 0 then count else 0
    decreases count
  {
    hide BulkAt;
    if count > 0 {
      BulksCount(data, BulkAt(data, pos).next, count - 1);
    }
  }

  lemma {:induction false} TokensShort(line: Bytes)
    ensures forall i :: 0 <= i < |Tokens(line)| ==> |Tokens(line)[i]| <= |line|
    decreases |line|
  {
    var rest := line[Run(line, true)..];
    if rest != [] {
      var n := Run(rest, false);
      TokensShort(rest[n..]);
    }
  }

  lemma {:induction false} NoCRLFThen(r: Bytes, w: Bytes, offset: nat)
    requires offset <= |r| && FindCRLF(r, offset) < 0 && w != [] && w[0] == '*'
    ensures FindCRLF(r + w, offset) == (var c := FindCRLF(w, 0); if c < 0 then c else |r| + c)
    decreases |r| - offset
  {
    var data := r + w;
    if offset < |r| {
      assert !CRLFAt(data, offset) by {
        if offset + 1 < |r| {
          assert !CRLFAt(r, offset);
        } else {
          assert data[offset + 1] == '*';
        }
      }
      NoCRLFThen(r, w, offset + 1);
    } else {
      ShiftCRLF(r, w, 0);
    }
  }

  lemma {:induction false} ShiftCRLF(r: Bytes, w: Bytes, k: nat)
    ensures FindCRLF(r + w, |r| + k) == (var c := FindCRLF(w, k); if c < 0 then c else |r| + c)
    decreases |w| - k
  {
    if k + 1 < |w| {
      assert CRLFAt(r + w, |r| + k) == CRLFAt(w, k);
      ShiftCRLF(r, w, k + 1);
    }
  }

  lemma HeaderEnds(args: Command)
    ensures FindCRLF(Format(args), 0) == 1 + |Digits(|args|)|
    ensures Format(args)[0] == '*' && |Format(args)| > |Digits(|args|)| + 1
  {
    hide Digits;
    assert Format(args) == "*" + Digits(|args|) + CRLF + FormatBulks(args);
    FindCRLFAfterDigits("*", |args|, FormatBulks(args), 0);
  }

  /** After a tail that does not begin an array, the next command's header is swallowed by a line. */
  lemma InlineTail(r: Bytes, x: Bytes)
    requires r != [] && r[0] != '*' && Parse(r).Incomplete? && |x| == |r| + 3
    ensures var c := ["SET", "k", x]; Parse(r + Format(c)).Complete? && Parse(r + Format(c)).args != c
  {
    hide FindCRLF, Tokens, Format, Digits;
    var c := ["SET", "k", x];
    var w := Format(c);
    HeaderEnds(c);
    NoCRLFThen(r, w, 0);
    OneDigit();
    var crlf := |r| + 2;
    assert |c| == 3 && FindCRLF(r + w, 0) == crlf;
    var toks := Tokens((r + w)[..crlf]);
    TokensShort((r + w)[..crlf]);
    assert |toks| > 2 ==> |toks[2]| <= crlf;
    assert c[2] == x;
  }

  lemma OneDigit()
    ensures |Digits(3)| == 1
  {
  }

  /** After a tail that begins an array, the number of words of the next parse is already fixed. */
  lemma ArrayTail(r: Bytes, args: Command)
    requires r != [] && r[0] == '*' && Parse(r).Incomplete?
    ensures var crlf := FindCRLF(r, 1);
            var count := Atoi(if crlf >= 0 then r[1..crlf] else r[1..]);
            Parse(r + Format(args)).Complete? ==>
              |Parse(r + Format(args)).args| == if count > 0 then count else 0
  {
    hide FindCRLF, ScanInt, Format, ParseBulks, Digits, Parse;
    var w := Format(args);
    var data := r + w;
    HeaderEnds(args);
    var crlf := FindCRLF(r, 1);
    if crlf >= 0 {
      FindCRLFExtends(r, w, 1);
      assert data[1..crlf] == r[1..crlf];
    } else {
      NoCRLFThen(r, w, 1);
      var h := 1 + |Digits(|args|)|;
      assert data[1..|r| + h] == r[1..] + w[..h];
      AtoiStops(r[1..], w[..h]);
    }
    if Parse(data).Complete? {
      ArrayCount(data);
    }
  }

  lemma ArrayCount(data: Bytes)
    requires data != [] && data[0] == '*' && FindCRLF(data, 1) >= 0 && Parse(data).Complete?
    ensures var count := Atoi(data[1..FindCRLF(data, 1)]);
            |Parse(data).args| == if count > 0 then count else 0
  {
    hide FindCRLF, ScanInt, ParseBulks;
    var end := FindCRLF(data, 1);
    var count := Atoi(data[1..end]);
    if count >= 0 {
      BulksCount(data, end + 2, count);
    }
  }

  /** What the logging rule hands to the writer. */
  predicate Logged(c: Command) {
    c != [] && IsWriteCommand(c[0])
  }

  lemma SetAndDelLogged(x: Bytes)
    ensures Logged(["SET", "k", x]) && Logged(["DEL", x])
  {
    assert Upper("SET") == "SET" && Upper("DEL") == "DEL";
  }

  /** A non-empty tail spoils some logged command appended behind it. */
  lemma TailSpoils(r: Bytes) returns (c: Command)
    requires r != [] && Parse(r).Incomplete?
    ensures Logged(c) && Drain(r + Format(c)).cmds != [c]
  {
    hide Parse, Format, ScanInt, FindCRLF, Logged;
    if r[0] != '*' {
      var x := seq(|r| + 3, _ => 'x');
      c := ["SET", "k", x];
      InlineTail(r, x);
      SetAndDelLogged(x);
    } else {
      var crlf := FindCRLF(r, 1);
      var count := Atoi(if crlf >= 0 then r[1..crlf] else r[1..]);
      c := if count == 3 then ["DEL", "v"] else ["SET", "k", "v"];
      ArrayTail(r, c);
      SetAndDelLogged("v");
    }
    FirstDrained(r + Format(c));
    var cmds, p := Drain(r + Format(c)).cmds, Parse(r + Format(c));
    assert p.Complete? ==> cmds != [] && cmds[0] == p.args;
  }

  /** The writer opens the file for appending whatever its tail is.  The commands it logs after start-up
      are all recovered if and only if the file it found had no torn tail. */
  lemma AppendableIff(f: Bytes)
    ensures (forall c :: Logged(c) ==> Drain(f + Format(c)).cmds == Drain(f).cmds + [c]) <==> Drain(f).rest == []
  {
    hide Drain, Format, Parse, Logged;
    var r := Drain(f).rest;
    if r == [] {
      forall c | Logged(c)
        ensures Drain(f + Format(c)).cmds == Drain(f).cmds + [c]
      {
        DrainAppends(f, Format(c));
        assert r + Format(c) == FormatAll([c]) by { assert FormatAll([c]) == Format(c); }
        LogRoundTrip([c]);
      }
    } else {
      RestIncomplete(f);
      var c := TailSpoils(r);
      DrainAppends(f, Format(c));
      var e := Drain(r + Format(c)).cmds;
      assert Drain(f + Format(c)).cmds == Drain(f).cmds + e;
      var n := |Drain(f).cmds|;
      assert (Drain(f).cmds + e)[n..] == e && (Drain(f).cmds + [c])[n..] == [c];
    }
  }
}
