/** The rewrite child's snapshot with deadlines: a PEXPIRE line carries the time a key had left.

    The child reads the clock anew for every key, once to look it up and once more to ask for the time it has
    left, after its value has been written. */
module TtlSnapshots {
  import opened Text
  import opened Resp
  import opened Objects
  import opened Expiry
  import opened Commands
  import opened CommandProofs
  import opened Snapshots
  import ZSets

  /** The child writes no reconstruction command for a container without elements. */
  predicate Skipped(v: Value) {
    match v
    case Str(_) => false
    case List(items) => items == []
    case Hash(fields) => fields == map[]
    case Set(members) => members == {}
    case ZSet(scores) => scores == map[]
  }

  /** The two readings for one key: when it was looked up, and when `ttl` computed what it had left.  (`ttl` first
      tests the deadline; a positive answer needs both of its readings before the deadline, and the test comes
      first, so the later one decides.) */
  datatype Reading = Reading(found: int, asked: int)

  type Readings = Bytes -> Reading

  /** The keys that the child's lookups find. */
  function LiveKeys(db: DB, at: Readings): set<Bytes> {
    set k | k in db && !Overdue(db[k].expireAt, at(k).found)
  }

  function ExpireLine(k: Bytes, ms: int): Command {
    ["PEXPIRE", k, IntText(ms)]
  }

  /** What the child writes for key `k` with entry `e`. */
  ghost predicate Piece(env: Env, asked: int, k: Bytes, e: Entry, cmds: seq<Command>) {
    var ttl := Remaining(e.expireAt, asked);
    var tail := if ttl > 0 then [ExpireLine(k, ttl)] else [];
    if Skipped(e.value) then cmds == tail
    else exists c :: Emits(env, k, e.value, c) && cmds == [c] + tail
  }

  function Flatten(pieces: seq<seq<Command>>): seq<Command> {
    if pieces == [] then [] else Flatten(pieces[..|pieces| - 1]) + pieces[|pieces| - 1]
  }

  ghost predicate PiecesOf(env: Env, at: Readings, db: DB, keys: seq<Bytes>, pieces: seq<seq<Command>>) {
    && Lists(keys, LiveKeys(db, at)) && |pieces| == |keys|
    && forall i :: 0 <= i < |keys| ==> keys[i] in db && Piece(env, at(keys[i]).asked, keys[i], db[keys[i]], pieces[i])
  }

  /** `cmds` is what the child writes for `db` with these readings, in some order of keys, fields and members. */
  ghost predicate IsTtlSnapshot(env: Env, at: Readings, db: DB, cmds: seq<Command>) {
    exists keys, pieces :: PiecesOf(env, at, db, keys, pieces) && cmds == Flatten(pieces)
  }

  // ---------- without deadlines it is the plain snapshot ----------

  lemma {:induction false} FlattenOnes(pieces: seq<seq<Command>>)
    requires forall i :: 0 <= i < |pieces| ==> |pieces[i]| == 1
    ensures |Flatten(pieces)| == |pieces| && forall i :: 0 <= i < |pieces| ==> [Flatten(pieces)[i]] == pieces[i]
    decreases |pieces|
  {
    if pieces != [] {
      FlattenOnes(pieces[..|pieces| - 1]);
    }
  }

  lemma StoredPiece(env: Env, asked: int, k: Bytes, e: Entry, cmds: seq<Command>)
    requires e.expireAt == -1 && Storable(e.value) && Piece(env, asked, k, e, cmds)
    ensures |cmds| == 1 && Emits(env, k, e.value, cmds[0])
  {
    hide Emits, CreateString;
    var c :| Emits(env, k, e.value, c) && cmds == [c] + [];
  }

  lemma StoredLive(db: DB, at: Readings)
    requires Stored(db)
    ensures LiveKeys(db, at) == db.Keys
  {
    hide Storable;
  }

  lemma PlainSnapshot(env: Env, at: Readings, db: DB, cmds: seq<Command>)
    requires Stored(db) && IsTtlSnapshot(env, at, db, cmds)
    ensures IsSnapshot(env, db, cmds)
  {
    hide Emits, Piece, Storable, Lists;
    var keys, pieces :| PiecesOf(env, at, db, keys, pieces) && cmds == Flatten(pieces);
    StoredLive(db, at);
    forall i | 0 <= i < |keys|
      ensures |pieces[i]| == 1 && Emits(env, keys[i], db[keys[i]].value, pieces[i][0])
    {
      StoredPiece(env, at(keys[i]).asked, keys[i], db[keys[i]], pieces[i]);
    }
    FlattenOnes(pieces);
    forall i | 0 <= i < |keys|
      ensures Emits(env, keys[i], db[keys[i]].value, cmds[i])
    {
      assert [cmds[i]] == pieces[i] && pieces[i][0] == cmds[i];
    }
    assert SnapshotIn(env, db, keys, cmds);
  }

  // ---------- replay ----------

  /** Entry `f` has the deadline of `e` back: none, or the time that was left when the child asked, counted from the
      moment its line was replayed, one of the first `n`. */
  ghost predicate GotBack(e: Entry, asked: int, clock: nat -> int, n: nat, f: Entry) {
    if e.expireAt < 0 then f.expireAt == -1 && !f.heaped
    else f.heaped && exists i :: 0 <= i < n && f.expireAt == clock(i) + (e.expireAt - asked)
  }

  /** The deadline was still to come when the child asked, or there was none. */
  predicate InTime(e: Entry, asked: int) {
    e.expireAt < 0 || asked < e.expireAt
  }

  /** Entry `e` as replay rebuilds it: always its value, and its deadline exactly when the child asked in time;
      otherwise it comes back without any. */
  ghost predicate Restored(e: Entry, asked: int, clock: nat -> int, n: nat, f: Entry) {
    && f.value == e.value
    && (GotBack(e, asked, clock, n, f) <==> InTime(e, asked))
    && (!InTime(e, asked) ==> f == Entry(e.value, -1))
  }

  ghost predicate Rebuilt(db: DB, at: Readings, clock: nat -> int, n: nat, keys: seq<Bytes>, r: DB) {
    && (forall k :: k in r <==> k in keys)
    && (forall k :: k in r ==> k in db && Restored(db[k], at(k).asked, clock, n, r[k]))
  }

  lemma {:induction false} WordsIgnoreCall(env: Env, n: nat, z: ZSets.Dict, ms: seq<Bytes>)
    requires forall m :: m in ms ==> m in z
    ensures ScoreWords(At(env, n), z, ms) == ScoreWords(env, z, ms)
    decreases |ms|
  {
    if ms != [] { WordsIgnoreCall(env, n, z, ms[1..]); }
  }

  lemma EmitsIgnoresCall(env: Env, n: nat, k: Bytes, v: Value, c: Command)
    requires Emits(env, k, v, c)
    ensures Emits(At(env, n), k, v, c)
  {
    hide ScoreWords, FieldWords, AsString;
    if v.ZSet? {
      var ms :| Lists(ms, v.scores.Keys) && c == ["ZADD", k] + ScoreWords(env, v.scores, ms);
      WordsIgnoreCall(env, n, v.scores, ms);
    }
  }

  lemma ExactIgnoresCall(env: Env, n: nat)
    requires ExactScores(env)
    ensures ExactScores(At(env, n))
  {
  }

  lemma RunAtSnoc(env: Env, clock: nat -> int, db: DB, cmds: seq<Command>, c: Command)
    requires c != []
    ensures RunAt(env, clock, db, cmds + [c]) ==
            Dispatch(At(env, |cmds|), clock(|cmds|), RunAt(env, clock, db, cmds), c).db
  {
    hide Dispatch;
    assert (cmds + [c])[..|cmds|] == cmds;
  }

  /** The PEXPIRE line puts the deadline on the entry and into the heap. */
  lemma ExpireLineWorks(env: Env, now: int, d: DB, k: Bytes, ms: int)
    requires k in d && d[k].expireAt == -1 && 0 < ms <= INT64_MAX
    ensures Dispatch(env, now, d, ExpireLine(k, ms)).db == d[k := d[k].(expireAt := now + ms, heaped := true)]
  {
    hide IntText, ScanInt;
    var a := ExpireLine(k, ms);
    assert Upper("PEXPIRE") == "PEXPIRE";
    ScanIntRoundTrip(ms);
    assert CreateString(IntText(ms)) == Integer(ms);
    PexpireReaches(env, now, d, a);
  }

  lemma PexpireReaches(env: Env, now: int, d: DB, a: Command)
    requires |a| == 3 && Upper(a[0]) == "PEXPIRE"
    ensures Dispatch(env, now, d, a) == ExpireAt(d, now, a, 1)
  {
    hide Upper, PushList, PopList, HSet, HDel, SAdd, SRem, ZAdd, ZRem, ReadOne, Touch, TouchAll, ExpireAt, TimeLeft;
    hide ScanArgs, Shown;
  }

  /** One key's lines rebuild that key and nothing else. */
  lemma PieceWorks(env: Env, clock: nat -> int, asked: int, done: seq<Command>, k: Bytes, e: Entry, cmds: seq<Command>)
    requires ExactScores(env) && Storable(e.value) && Piece(env, asked, k, e, cmds)
    requires Remaining(e.expireAt, asked) <= INT64_MAX && k !in RunAt(env, clock, map[], done)
    ensures var d, r := RunAt(env, clock, map[], done), RunAt(env, clock, map[], done + cmds);
            && r.Keys == d.Keys + {k} && (forall x :: x in d ==> r[x] == d[x])
            && Restored(e, asked, clock, |done + cmds|, r[k])
  {
    hide Emits, Storable, Dispatch, ExactScores, ExpireLine, RunAt;
    var ttl, n := Remaining(e.expireAt, asked), |done|;
    var d := RunAt(env, clock, map[], done);
    assert !Skipped(e.value) by { StorableKept(e.value); }
    var tail := if ttl > 0 then [ExpireLine(k, ttl)] else [];
    var c :| Emits(env, k, e.value, c) && cmds == [c] + tail;
    EmitsIgnoresCall(env, n, k, e.value, c);
    ExactIgnoresCall(env, n);
    EmittedRebuilds(At(env, n), clock(n), d, k, e.value, c);
    assert c != [] by { LoggableNonempty(c); }
    RunAtSnoc(env, clock, map[], done, c);
    var d1 := d[k := Entry(e.value, -1)];
    assert RunAt(env, clock, map[], done + [c]) == d1;
    if ttl > 0 {
      assert ExpireLine(k, ttl) != [] by { LineNonempty(k, ttl); }
      RunAtSnoc(env, clock, map[], done + [c], ExpireLine(k, ttl));
      ExpireLineWorks(At(env, n + 1), clock(n + 1), d1, k, ttl);
      assert done + [c] + [ExpireLine(k, ttl)] == done + cmds;
    } else {
      assert done + [c] == done + cmds;
    }
  }

  lemma LineNonempty(k: Bytes, ms: int)
    ensures ExpireLine(k, ms) != []
  {
  }

  lemma StorableKept(v: Value)
    requires Storable(v)
    ensures !Skipped(v)
  {
    hide CreateString;
  }

  lemma RestoredLater(e: Entry, asked: int, clock: nat -> int, n: nat, m: nat, f: Entry)
    requires Restored(e, asked, clock, n, f) && n <= m
    ensures Restored(e, asked, clock, m, f)
  {
  }

  /** Values as handlers store them, and times left that fit the 64 bits they are written with. */
  ghost predicate Writable(db: DB, at: Readings) {
    forall k :: k in db ==> Storable(db[k].value) && Remaining(db[k].expireAt, at(k).asked) <= INT64_MAX
  }

  lemma {:induction false} PiecesWork(env: Env, clock: nat -> int, at: Readings, db: DB, keys: seq<Bytes>, pieces: seq<seq<Command>>, n: nat)
    requires ExactScores(env) && Writable(db, at) && PiecesOf(env, at, db, keys, pieces) && n <= |keys|
    ensures var cmds := Flatten(pieces[..n]);
            Rebuilt(db, at, clock, |cmds|, keys[..n], RunAt(env, clock, map[], cmds))
  {
    hide ExactScores, Storable, Piece, Remaining, Rebuilt, Restored, RunAt, Overdue, LiveKeys;
    if n == 0 {
      assert pieces[..0] == [] && keys[..0] == [];
      NothingRun(env, clock);
      RebuiltNone(db, at, clock);
    } else {
      var m := n - 1;
      PiecesWork(env, clock, at, db, keys, pieces, m);
      var done, k := Flatten(pieces[..m]), keys[m];
      assert pieces[..n][..m] == pieces[..m] && pieces[..n][m] == pieces[m];
      assert keys[..n] == keys[..m] + [k] && k !in keys[..m];
      RebuiltKeys(db, at, clock, |done|, keys[..m], RunAt(env, clock, map[], done), k);
      PieceWorks(env, clock, at(k).asked, done, k, db[k], pieces[m]);
      RebuiltSnoc(db, at, clock, |done|, |done + pieces[m]|, keys[..m], k, RunAt(env, clock, map[], done),
                  RunAt(env, clock, map[], done + pieces[m]));
    }
  }

  lemma RebuiltNone(db: DB, at: Readings, clock: nat -> int)
    ensures Rebuilt(db, at, clock, 0, [], map[])
  {
  }

  lemma RebuiltKeys(db: DB, at: Readings, clock: nat -> int, n: nat, keys: seq<Bytes>, r: DB, k: Bytes)
    requires Rebuilt(db, at, clock, n, keys, r)
    ensures k in r <==> k in keys
  {
  }

  lemma RebuiltSnoc(db: DB, at: Readings, clock: nat -> int, n: nat, m: nat, keys: seq<Bytes>, k: Bytes, d: DB, r: DB)
    requires Rebuilt(db, at, clock, n, keys, d) && n <= m && k in db
    requires r.Keys == d.Keys + {k} && (forall x :: x in d ==> r[x] == d[x]) && Restored(db[k], at(k).asked, clock, m, r[k])
    ensures Rebuilt(db, at, clock, m, keys + [k], r)
  {
    hide Restored;
    forall x | x in d
      ensures Restored(db[x], at(x).asked, clock, m, d[x])
    {
      RestoredLater(db[x], at(x).asked, clock, n, m, d[x]);
    }
  }

  lemma NothingRun(env: Env, clock: nat -> int)
    ensures RunAt(env, clock, map[], []) == map[]
  {
  }

  /** Replaying the child's lines on an empty database, at whatever times, rebuilds exactly the keys that its lookups
      found, with their values; a key gets its deadline back if and only if it had none or the child asked for the
      time left before the deadline. */
  lemma TtlSnapshotRebuilds(env: Env, clock: nat -> int, at: Readings, db: DB, cmds: seq<Command>)
    requires ExactScores(env) && Writable(db, at) && IsTtlSnapshot(env, at, db, cmds)
    ensures var r := RunAt(env, clock, map[], cmds);
            && r.Keys == LiveKeys(db, at)
            && forall k :: k in r ==> Restored(db[k], at(k).asked, clock, |cmds|, r[k])
  {
    hide ExactScores, Writable, Piece, Restored, RunAt;
    var keys, pieces :| PiecesOf(env, at, db, keys, pieces) && cmds == Flatten(pieces);
    PiecesWork(env, clock, at, db, keys, pieces, |keys|);
    assert keys[..|keys|] == keys && pieces[..|keys|] == pieces;
  }

  // ---------- a key that comes back for ever ----------

  const LATE: Readings := (_: Bytes) => Reading(9, 10)

  /** A key with deadline 10, looked up at 9 and asked about at 10: its value is written and its deadline is not, so
      replay stores it without a deadline and no lookup at any later time drops it. */
  lemma Resurrected(env: Env, clock: nat -> int, later: int)
    ensures var e := Entry(Str(CreateString("v")), 10, true);
            var db, cmds := map["k" := e], [["SET", "k", "v"]];
            && IsTtlSnapshot(env, LATE, db, cmds)
            && RunAt(env, clock, map[], cmds) == map["k" := Entry(e.value, -1)]
            && "k" in Touch(RunAt(env, clock, map[], cmds), later, "k") && "k" !in Touch(db, 10, "k")
  {
    hide ScanInt, Dispatch, RunAt;
    var o := CreateString("v");
    var e := Entry(Str(o), 10, true);
    var db, c := map["k" := e], ["SET", "k", "v"];
    assert o == Raw("v") by { NoDigit(); }
    assert Emits(env, "k", e.value, c);
    assert Piece(env, 10, "k", e, [c]) by { assert [c] == [c] + []; }
    assert Flatten([[c]]) == [c] by { assert [[c]][..0] == []; }
    assert LiveKeys(db, LATE) == {"k"};
    assert PiecesOf(env, LATE, db, ["k"], [[c]]);
    RunAtSnoc(env, clock, map[], [], c);
    NothingRun(env, clock);
    assert [] + [c] == [c];
    EmitsIgnoresCall(env, 0, "k", e.value, c);
    SetLine(At(env, 0), clock(0), c);
  }

  lemma NoDigit()
    ensures CreateString("v") == Raw("v")
  {
    assert DigitRun("v"[0..]) == 0;
  }

  lemma SetLine(env: Env, now: int, c: Command)
    requires c == ["SET", "k", "v"]
    ensures Dispatch(env, now, map[], c).db == map["k" := Entry(Str(CreateString("v")), -1)]
  {
    hide CreateString;
    assert Upper("SET") == "SET";
  }
}
