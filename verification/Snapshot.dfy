/** Replaying command logs, and the compact snapshot that the rewrite child writes. */
module Snapshots {
  import opened Text
  import opened Resp
  import opened SortedPairs
  import opened Objects
  import opened Commands
  import opened CommandProofs
  import ZSets

  // ---------- replay ----------

  /** The commands of a log dispatched in order, command `i` of the log at time `clock(i)`; an empty
      command is skipped. */
  ghost function RunAt(env: Env, clock: nat -> int, db: DB, cmds: seq<Command>): DB {
    if cmds == [] then db
    else
      var n := |cmds| - 1;
      var d := RunAt(env, clock, db, cmds[..n]);
      if cmds[n] == [] then d else Dispatch(At(env, n), clock(n), d, cmds[n]).db
  }

  /** The same at one moment: the clock and the number of the call stand still. */
  ghost function RunAll(env: Env, db: DB, cmds: seq<Command>): DB {
    if cmds == [] then db
    else
      var n := |cmds| - 1;
      var d := RunAll(env, db, cmds[..n]);
      if cmds[n] == [] then d else Dispatch(env, 0, d, cmds[n]).db
  }

  /** What a log of a run without TTL commands may contain. */
  predicate Loggable(c: Command) {
    c != [] && !TtlCommand(c)
  }

  ghost predicate AllLoggable(cmds: seq<Command>) {
    forall i :: 0 <= i < |cmds| ==> Loggable(cmds[i])
  }

  lemma RunSnoc(env: Env, db: DB, cmds: seq<Command>, c: Command)
    requires c != []
    ensures RunAll(env, db, cmds + [c]) == Dispatch(env, 0, RunAll(env, db, cmds), c).db
  {
    hide Dispatch;
    assert (cmds + [c])[..|cmds|] == cmds;
  }

  /** Without TTL commands, replay keeps the database stored and does not depend on the clock. */
  lemma {:induction false} RunSteady(env: Env, clock: nat -> int, db: DB, cmds: seq<Command>)
    requires Stored(db) && AllLoggable(cmds)
    ensures Stored(RunAll(env, db, cmds)) && RunAt(env, clock, db, cmds) == RunAll(env, db, cmds)
  {
    hide Dispatch, Stored, TtlCommand;
    if cmds != [] {
      var n := |cmds| - 1;
      RunSteady(env, clock, db, cmds[..n]);
      assert Loggable(cmds[n]);
      DispatchSteady(env, n, clock(n), RunAll(env, db, cmds[..n]), cmds[n]);
      DispatchSteadyHere(env, 0, RunAll(env, db, cmds[..n]), cmds[n]);
    }
  }

  lemma {:induction false} RunConcat(env: Env, db: DB, a: seq<Command>, b: seq<Command>)
    ensures RunAll(env, db, a + b) == RunAll(env, RunAll(env, db, a), b)
    decreases |b|
  {
    hide Dispatch;
    if b == [] {
      assert a + b == a;
    } else {
      var n := |b| - 1;
      assert (a + b)[..|a + b| - 1] == a + b[..n];
      RunConcat(env, db, a, b[..n]);
    }
  }

  // ---------- one key's reconstruction command ----------

  ghost predicate Distinct(s: seq<Bytes>) {
    forall i, j :: 0 <= i < j < |s| ==> s[i] != s[j]
  }

  /** `f1 v1 f2 v2 ...` for the fields in the given order. */
  function FieldWords(h: map<Bytes, Bytes>, fs: seq<Bytes>): Command
    requires forall f :: f in fs ==> f in h
  {
    if fs == [] then [] else [fs[0], h[fs[0]]] + FieldWords(h, fs[1..])
  }

  /** `s1 m1 s2 m2 ...` for the members in the given order. */
  function ScoreWords(env: Env, z: ZSets.Dict, ms: seq<Bytes>): Command
    requires forall m :: m in ms ==> m in z
  {
    if ms == [] then [] else [env.printScore(z[ms[0]]), ms[0]] + ScoreWords(env, z, ms[1..])
  }

  /** `order` lists a container's keys, each once, in whatever order the container is iterated. */
  ghost predicate Lists(order: seq<Bytes>, keys: set<Bytes>) {
    Distinct(order) && forall x :: x in order <==> x in keys
  }

  /** The command written for key `k`. */
  ghost predicate Emits(env: Env, k: Bytes, v: Value, cmd: Command) {
    match v
    case Str(o) => cmd == ["SET", k, AsString(o)]
    case List(items) => cmd == ["RPUSH", k] + items
    case Hash(fields) => exists fs :: Lists(fs, fields.Keys) && cmd == ["HSET", k] + FieldWords(fields, fs)
    case Set(members) => exists ms :: Lists(ms, members) && cmd == ["SADD", k] + ms
    case ZSet(scores) => exists ms :: Lists(ms, scores.Keys) && cmd == ["ZADD", k] + ScoreWords(env, scores, ms)
  }

  /** Printed scores parse to themselves. */
  ghost predicate ExactScores(env: Env) {
    forall s :: env.parseScore(env.printScore(s)) == s
  }

  lemma UpperNames()
    ensures NameOf("SET") == Some(SET) && NameOf("RPUSH") == Some(RPUSH) && NameOf("HSET") == Some(HSET)
    ensures NameOf("SADD") == Some(SADD) && NameOf("ZADD") == Some(ZADD)
  {
    assert Upper("SET") == "SET";
    assert Upper("RPUSH") == "RPUSH";
    assert Upper("HSET") == "HSET";
    assert Upper("SADD") == "SADD";
    assert Upper("ZADD") == "ZADD";
  }

  lemma {:induction false} FieldWordsLaw(h: map<Bytes, Bytes>, fs: seq<Bytes>, acc: map<Bytes, Bytes>)
    requires forall f :: f in fs ==> f in h
    ensures |FieldWords(h, fs)| == 2 * |fs|
    ensures PutFields(acc, FieldWords(h, fs)) == acc + (map f | f in fs :: h[f])
    decreases |fs|
  {
    if fs != [] {
      hide PutFields, FieldWords;
      FieldWordsCons(h, fs, acc);
      FieldWordsLaw(h, fs[1..], acc[fs[0] := h[fs[0]]]);
      FieldsCons(h, fs, acc);
    }
  }

  lemma FieldWordsCons(h: map<Bytes, Bytes>, fs: seq<Bytes>, acc: map<Bytes, Bytes>)
    requires fs != [] && forall f :: f in fs ==> f in h
    ensures |FieldWords(h, fs)| == 2 + |FieldWords(h, fs[1..])|
    ensures PutFields(acc, FieldWords(h, fs)) == PutFields(acc[fs[0] := h[fs[0]]], FieldWords(h, fs[1..]))
  {
    var w := FieldWords(h, fs);
    assert w[2..] == FieldWords(h, fs[1..]) && w[0] == fs[0] && w[1] == h[fs[0]];
  }

  lemma FieldsCons(h: map<Bytes, Bytes>, fs: seq<Bytes>, acc: map<Bytes, Bytes>)
    requires fs != [] && forall f :: f in fs ==> f in h
    ensures acc[fs[0] := h[fs[0]]] + (map f | f in fs[1..] :: h[f]) == acc + (map f | f in fs :: h[f])
  {
    assert fs == [fs[0]] + fs[1..];
  }

  lemma {:induction false} ScoreWordsLaw(env: Env, z: ZSets.Dict, ms: seq<Bytes>)
    requires ExactScores(env) && forall m :: m in ms ==> m in z
    ensures var w := ScoreWords(env, z, ms);
            && |w| == 2 * |ms| && |ScorePairs(env, w)| == |ms|
            && forall i :: 0 <= i < |ms| ==> ScorePairs(env, w)[i] == Pair(z[ms[i]], ms[i])
    decreases |ms|
  {
    if ms != [] {
      var w := ScoreWords(env, z, ms);
      assert w[2..] == ScoreWords(env, z, ms[1..]) && w[0] == env.printScore(z[ms[0]]) && w[1] == ms[0];
      ScoreWordsLaw(env, z, ms[1..]);
      assert forall i :: 0 < i < |ms| ==> ms[i] == ms[1..][i - 1];
    }
  }

  lemma {:induction false} AddAllFrom(z: ZSets.Dict, ms: seq<Bytes>, ps: seq<Pair>)
    requires |ps| == |ms| && forall i :: 0 <= i < |ms| ==> ms[i] in z && ps[i] == Pair(z[ms[i]], ms[i])
    ensures ZSets.AddAll(map[], ps) == map m | m in ms :: z[m]
    decreases |ms|
  {
    if ms != [] {
      var n := |ms| - 1;
      AddAllFrom(z, ms[..n], ps[..n]);
      assert ms == ms[..n] + [ms[n]];
    }
  }

  lemma ListedMap<X>(h: map<Bytes, X>, ks: seq<Bytes>)
    requires Lists(ks, h.Keys)
    ensures (map k | k in ks :: h[k]) == h && map[] + h == h
    ensures h != map[] ==> ks != []
  {
    if h != map[] {
      var k :| k in h;
      assert k in ks;
    }
  }

  /** Dispatching a snapshot command reaches its handler. */
  lemma Reaches(env: Env, now: int, db: DB, c: Name, a: Command)
    requires a != [] && NameOf(a[0]) == Some(c) && Fits(c, |a|)
    ensures Dispatch(env, now, db, a) == Exec(env, now, db, c, a)
    ensures c == RPUSH ==> Dispatch(env, now, db, a) == PushList(db, now, a, false)
    ensures c == HSET ==> Dispatch(env, now, db, a) == HSet(db, now, a)
    ensures c == SADD ==> Dispatch(env, now, db, a) == SAdd(db, now, a)
    ensures c == ZADD ==> Dispatch(env, now, db, a) == ZAdd(env, db, now, a)
    ensures c != EXPIRE && c != PEXPIRE ==> Loggable(a)
  {
    hide NameOf, PushList, PopList, HSet, HDel, SAdd, SRem, ZAdd, ZRem, ReadOne, Touch, TouchAll, ExpireAt, TimeLeft;
  }

  lemma RebuildString(env: Env, now: int, db: DB, k: Bytes, o: StringObject)
    requires Storable(Str(o))
    ensures Loggable(["SET", k, AsString(o)])
    ensures Dispatch(env, now, db, ["SET", k, AsString(o)]).db == db[k := Entry(Str(o), -1)]
  {
    hide CreateString, AsString, NameOf;
    UpperNames();
    var s :| o == CreateString(s);
    CreateAsString(s);
  }

  lemma RebuildList(env: Env, now: int, db: DB, k: Bytes, items: seq<Bytes>)
    requires k !in db && items != []
    ensures Loggable(["RPUSH", k] + items)
    ensures Dispatch(env, now, db, ["RPUSH", k] + items).db == db[k := Entry(List(items), -1)]
  {
    hide NameOf;
    UpperNames();
    var a := ["RPUSH", k] + items;
    assert a[0] == "RPUSH" && a[1] == k && a[2..] == items && [] + items == items;
    Reaches(env, now, db, RPUSH, a);
    hide Dispatch;
  }

  lemma RebuildHash(env: Env, now: int, db: DB, k: Bytes, h: map<Bytes, Bytes>, fs: seq<Bytes>)
    requires k !in db && h != map[] && Lists(fs, h.Keys)
    ensures Loggable(["HSET", k] + FieldWords(h, fs))
    ensures Dispatch(env, now, db, ["HSET", k] + FieldWords(h, fs)).db == db[k := Entry(Hash(h), -1)]
  {
    hide NameOf, PutFields, FieldWords;
    UpperNames();
    ListedMap(h, fs);
    FieldWordsLaw(h, fs, map[]);
    var a := ["HSET", k] + FieldWords(h, fs);
    assert a[0] == "HSET" && a[1] == k && a[2..] == FieldWords(h, fs);
    Reaches(env, now, db, HSET, a);
    hide Dispatch;
  }

  lemma RebuildSet(env: Env, now: int, db: DB, k: Bytes, members: set<Bytes>, ms: seq<Bytes>)
    requires k !in db && members != {} && Lists(ms, members)
    ensures Loggable(["SADD", k] + ms)
    ensures Dispatch(env, now, db, ["SADD", k] + ms).db == db[k := Entry(Set(members), -1)]
  {
    hide NameOf;
    UpperNames();
    var a := ["SADD", k] + ms;
    assert a[0] == "SADD" && a[1] == k && a[2..] == ms;
    var x :| x in members;
    assert x in ms;
    assert {} + Words(ms) == members;
    Reaches(env, now, db, SADD, a);
    hide Dispatch;
  }

  lemma RebuildZSet(env: Env, now: int, db: DB, k: Bytes, z: ZSets.Dict, ms: seq<Bytes>)
    requires k !in db && z != map[] && Lists(ms, z.Keys) && ExactScores(env)
    ensures Loggable(["ZADD", k] + ScoreWords(env, z, ms))
    ensures Dispatch(env, now, db, ["ZADD", k] + ScoreWords(env, z, ms)).db == db[k := Entry(ZSet(z), -1)]
  {
    hide NameOf, ScorePairs, ScoreWords, ZSets.AddAll;
    UpperNames();
    ListedMap(z, ms);
    ScoreWordsLaw(env, z, ms);
    var a := ["ZADD", k] + ScoreWords(env, z, ms);
    assert a[0] == "ZADD" && a[1] == k && a[2..] == ScoreWords(env, z, ms);
    AddAllFrom(z, ms, ScorePairs(env, a[2..]));
    Reaches(env, now, db, ZADD, a);
    hide Dispatch, ExactScores, Lists;
  }

  /** The command written for a key rebuilds exactly that key, whatever the iteration order was. */
  lemma EmittedRebuilds(env: Env, now: int, db: DB, k: Bytes, v: Value, cmd: Command)
    requires k !in db && Storable(v) && Emits(env, k, v, cmd) && ExactScores(env)
    ensures Loggable(cmd) && Dispatch(env, now, db, cmd).db == db[k := Entry(v, -1)]
  {
    hide Dispatch, Loggable, ExactScores, FieldWords, ScoreWords;
    match v
    case Str(o) => RebuildString(env, now, db, k, o);
    case List(items) => RebuildList(env, now, db, k, items);
    case Hash(h) =>
      var fs :| Lists(fs, h.Keys) && cmd == ["HSET", k] + FieldWords(h, fs);
      RebuildHash(env, now, db, k, h, fs);
    case Set(members) =>
      var ms :| Lists(ms, members) && cmd == ["SADD", k] + ms;
      RebuildSet(env, now, db, k, members, ms);
    case ZSet(z) =>
      var ms :| Lists(ms, z.Keys) && cmd == ["ZADD", k] + ScoreWords(env, z, ms);
      RebuildZSet(env, now, db, k, z, ms);
  }

  // ---------- the snapshot ----------

  /** One reconstruction command per key, keys in the given order. */
  ghost predicate SnapshotIn(env: Env, db: DB, keys: seq<Bytes>, cmds: seq<Command>) {
    && Lists(keys, db.Keys) && |cmds| == |keys|
    && forall i :: 0 <= i < |keys| ==> Emits(env, keys[i], db[keys[i]].value, cmds[i])
  }

  ghost predicate IsSnapshot(env: Env, db: DB, cmds: seq<Command>) {
    exists keys :: SnapshotIn(env, db, keys, cmds)
  }

  ghost function Part(db: DB, keys: seq<Bytes>): DB {
    map k | k in keys && k in db :: db[k]
  }

  lemma {:induction false} SnapshotPrefix(env: Env, db: DB, keys: seq<Bytes>, cmds: seq<Command>, n: nat)
    requires Stored(db) && ExactScores(env) && SnapshotIn(env, db, keys, cmds) && n <= |keys|
    ensures AllLoggable(cmds[..n]) && RunAll(env, map[], cmds[..n]) == Part(db, keys[..n])
  {
    hide Emits, Loggable, Dispatch, ExactScores, Storable, RunAll;
    if n == 0 {
      RunNone(env, map[]);
      assert cmds[..0] == [];
    } else {
      var m := n - 1;
      SnapshotPrefix(env, db, keys, cmds, m);
      var k, part := keys[m], Part(db, keys[..m]);
      assert k in keys && k !in keys[..m];
      EmittedRebuilds(env, 0, part, k, db[k].value, cmds[m]);
      assert cmds[..n] == cmds[..m] + [cmds[m]] && keys[..n] == keys[..m] + [k];
      assert cmds[m] != [] by { LoggableNonempty(cmds[m]); }
      RunSnoc(env, map[], cmds[..m], cmds[m]);
      assert part[k := Entry(db[k].value, -1)] == Part(db, keys[..n]);
    }
  }

  lemma PartAll(db: DB, keys: seq<Bytes>)
    requires Lists(keys, db.Keys)
    ensures Part(db, keys) == db
  {
    hide Distinct;
  }

  lemma RunNone(env: Env, db: DB)
    ensures RunAll(env, db, []) == db
  {
  }

  lemma LoggableNonempty(c: Command)
    requires Loggable(c)
    ensures c != []
  {
  }

  /** Snapshot compaction preserves meaning: for any order of keys, fields and members, replaying the
      emitted commands on an empty database rebuilds the database. */
  lemma SnapshotRebuilds(env: Env, db: DB, cmds: seq<Command>)
    requires Stored(db) && ExactScores(env) && IsSnapshot(env, db, cmds)
    ensures AllLoggable(cmds) && RunAll(env, map[], cmds) == db
  {
    hide Emits, AllLoggable, ExactScores, RunAll, Stored, Part;
    var keys :| SnapshotIn(env, db, keys, cmds);
    SnapshotPrefix(env, db, keys, cmds, |keys|);
    assert cmds[..|keys|] == cmds && keys[..|keys|] == keys;
    PartAll(db, keys);
  }
}
