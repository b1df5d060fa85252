/** Laws of the handlers that replay and compaction rest on. */
module CommandProofs {
  import opened Text
  import opened Resp
  import opened SortedPairs
  import opened Objects
  import opened Replies
  import opened Commands
  import ZSets

  /** No deadlines, and every value is one a handler stores. */
  ghost predicate Stored(db: DB) {
    forall k :: k in db ==> db[k].expireAt == -1 && !db[k].heaped && Storable(db[k].value)
  }

  predicate TtlCommand(a: Command) {
    a != [] && (NameOf(a[0]) == Some(EXPIRE) || NameOf(a[0]) == Some(PEXPIRE))
  }

  lemma TouchStored(db: DB, now: int, k: Bytes)
    requires Stored(db)
    ensures Touch(db, now, k) == db
  {
  }

  lemma {:induction false} TouchAllStored(db: DB, now: int, ks: seq<Bytes>)
    requires Stored(db)
    ensures TouchAll(db, now, ks) == db
  {
    if ks != [] {
      TouchAllStored(db, now, ks[1..]);
    }
  }

  lemma StoredBase(db: DB, ks: set<Bytes>, k: Bytes, s: Bytes)
    requires Stored(db)
    ensures Stored(db - ks) && Stored(map[]) && Stored(db[k := Entry(Str(CreateString(s)), -1)])
  {
  }

  lemma {:induction false} PutFieldsGrows(h: map<Bytes, Bytes>, a: seq<Bytes>)
    requires h != map[] || |a| >= 2
    ensures PutFields(h, a) != map[]
    decreases |a|
  {
    if |a| >= 2 {
      assert a[0] in h[a[0] := a[1]];
      PutFieldsGrows(h[a[0] := a[1]], a[2..]);
    }
  }

  lemma AddAllGrows(z: ZSets.Dict, ps: seq<Pair>)
    requires z != map[] || ps != []
    ensures ZSets.AddAll(z, ps) != map[]
  {
    if ps != [] {
      assert ps[|ps| - 1].member in ZSets.AddAll(z, ps);
    }
  }

  // ---------- handler by handler: stored stays stored, and the clock is irrelevant ----------

  lemma PushListSteady(db: DB, now: int, a: Command, front: bool)
    requires Stored(db) && |a| >= 3
    ensures Stored(PushList(db, now, a, front).db) && PushList(db, now, a, front) == PushList(db, 0, a, front)
  {
    TouchStored(db, now, a[1]);
    TouchStored(db, 0, a[1]);
    ReversedLength(a[2..]);
  }

  lemma {:induction false} ReversedLength(s: seq<Bytes>)
    ensures |Reversed(s)| == |s|
  {
    if s != [] { ReversedLength(s[1..]); }
  }

  lemma {:induction false} ReversedSnoc(s: seq<Bytes>, x: Bytes)
    ensures Reversed(s + [x]) == [x] + Reversed(s)
  {
    if s != [] {
      assert (s + [x])[1..] == s[1..] + [x];
      ReversedSnoc(s[1..], x);
    }
  }

  lemma PopListSteady(db: DB, now: int, a: Command, front: bool)
    requires Stored(db) && |a| >= 2
    ensures Stored(PopList(db, now, a, front).db) && PopList(db, now, a, front) == PopList(db, 0, a, front)
  {
    TouchStored(db, now, a[1]);
    TouchStored(db, 0, a[1]);
  }

  lemma HSetSteady(db: DB, now: int, a: Command)
    requires Stored(db) && |a| >= 4
    ensures Stored(HSet(db, now, a).db) && HSet(db, now, a) == HSet(db, 0, a)
  {
    hide PutFields;
    TouchStored(db, now, a[1]);
    TouchStored(db, 0, a[1]);
    var h := if a[1] in db && db[a[1]].value.Hash? then db[a[1]].value.fields else map[];
    PutFieldsGrows(h, a[2..]);
  }

  lemma HDelSteady(db: DB, now: int, a: Command)
    requires Stored(db) && |a| >= 3
    ensures Stored(HDel(db, now, a).db) && HDel(db, now, a) == HDel(db, 0, a)
  {
    TouchStored(db, now, a[1]);
    TouchStored(db, 0, a[1]);
  }

  lemma SAddSteady(db: DB, now: int, a: Command)
    requires Stored(db) && |a| >= 3
    ensures Stored(SAdd(db, now, a).db) && SAdd(db, now, a) == SAdd(db, 0, a)
  {
    TouchStored(db, now, a[1]);
    TouchStored(db, 0, a[1]);
    assert a[2..][0] == a[2] && a[2] in Words(a[2..]);
  }

  lemma SRemSteady(db: DB, now: int, a: Command)
    requires Stored(db) && |a| >= 3
    ensures Stored(SRem(db, now, a).db) && SRem(db, now, a) == SRem(db, 0, a)
  {
    TouchStored(db, now, a[1]);
    TouchStored(db, 0, a[1]);
  }

  lemma ZAddSteady(env: Env, db: DB, now: int, a: Command)
    requires Stored(db) && |a| >= 4
    ensures Stored(ZAdd(env, db, now, a).db) && ZAdd(env, db, now, a) == ZAdd(env, db, 0, a)
  {
    hide ZSets.AddAll;
    TouchStored(db, now, a[1]);
    TouchStored(db, 0, a[1]);
    var z := if a[1] in db && db[a[1]].value.ZSet? then db[a[1]].value.scores else map[];
    AddAllGrows(z, ScorePairs(env, a[2..]));
  }

  lemma ZRemSteady(db: DB, now: int, a: Command)
    requires Stored(db) && |a| >= 3
    ensures Stored(ZRem(db, now, a).db) && ZRem(db, now, a) == ZRem(db, 0, a)
  {
    hide ZSets.RemAll;
    TouchStored(db, now, a[1]);
    TouchStored(db, 0, a[1]);
  }

  lemma {:induction false} PairsIgnoreCall(env: Env, n: nat, a: seq<Bytes>)
    ensures ScorePairs(At(env, n), a) == ScorePairs(env, a)
    decreases |a|
  {
    if |a| >= 2 { PairsIgnoreCall(env, n, a[2..]); }
  }

  lemma ZAddIgnoresCall(env: Env, n: nat, db: DB, now: int, a: Command)
    requires |a| >= 4
    ensures ZAdd(At(env, n), db, now, a) == ZAdd(env, db, now, a)
  {
    hide ZSets.AddAll, Touch, Store, ScorePairs;
    PairsIgnoreCall(env, n, a[2..]);
  }

  lemma ScanSteady(env: Env, now: int, db: DB, a: Command)
    requires Stored(db) && |a| >= 2
    ensures ScanOutcome(env, now, db, a).db == db
  {
    hide Stored, TouchAll, Shown, ScanArgs, Bulks;
    if ScanArgs(a).ScanRequest? {
      TouchAllStored(db, now, env.scan(env.call, db, ScanArgs(a).cursor, ScanArgs(a).count).1);
    }
  }

  /** A command that is not marked as a write changes no stored database. */
  lemma ReadsSteady(env: Env, now: int, db: DB, c: Name, a: Command)
    requires Stored(db) && Fits(c, |a|) && !IsWrite(c)
    ensures Exec(env, now, db, c, a).db == db
  {
    hide ReadOne, TouchAll, CountLive, Touch, Stored, Bulks, ScanOutcome;
    if |a| >= 2 {
      TouchStored(db, now, a[1]);
      TouchAllStored(db, now, a[1..]);
      ScanSteady(env, now, db, a);
    }
  }

  lemma SimpleWritesSteady(env: Env, n: nat, now: int, db: DB, c: Name, a: Command)
    requires Stored(db) && Fits(c, |a|) && c in {SET, DEL, FLUSHDB}
    ensures Stored(Exec(env, 0, db, c, a).db) && Exec(At(env, n), now, db, c, a).db == Exec(env, 0, db, c, a).db
  {
    hide Stored, Exec;
    SimpleWrite(env, 0, db, c, a);
    SimpleWrite(At(env, n), now, db, c, a);
    StoredBase(db, Words(a[1..]), if |a| >= 2 then a[1] else [], if |a| >= 3 then a[2] else []);
  }

  lemma SimpleWrite(env: Env, now: int, db: DB, c: Name, a: Command)
    requires Fits(c, |a|) && c in {SET, DEL, FLUSHDB}
    ensures Exec(env, now, db, c, a).db ==
            if c == SET then db[a[1] := Entry(Str(CreateString(a[2])), -1)] else if c == DEL then db - Words(a[1..]) else map[]
  {
    hide CreateString, Words;
  }

  lemma ContainerWritesSteady(env: Env, n: nat, now: int, db: DB, c: Name, a: Command)
    requires Stored(db) && Fits(c, |a|) && c in {LPUSH, RPUSH, LPOP, RPOP, HSET, HDEL, SADD, SREM, ZADD, ZREM}
    ensures Stored(Exec(env, 0, db, c, a).db) && Exec(At(env, n), now, db, c, a).db == Exec(env, 0, db, c, a).db
  {
    hide PushList, PopList, HSet, HDel, SAdd, SRem, ZAdd, ZRem, Stored, ScanArgs;
    match c
    case LPUSH => PushListSteady(db, now, a, true);
    case RPUSH => PushListSteady(db, now, a, false);
    case LPOP => PopListSteady(db, now, a, true);
    case RPOP => PopListSteady(db, now, a, false);
    case HSET => HSetSteady(db, now, a);
    case HDEL => HDelSteady(db, now, a);
    case SADD => SAddSteady(db, now, a);
    case SREM => SRemSteady(db, now, a);
    case ZADD =>
      ZAddSteady(env, db, now, a);
      ZAddIgnoresCall(env, n, db, now, a);
    case ZREM => ZRemSteady(db, now, a);
  }

  /** Without deadlines a handler's effect does not depend on the clock or on the number of the call, keeps
      the database stored, and is nothing at all for a command not marked as a write. */
  lemma ExecSteady(env: Env, n: nat, now: int, db: DB, c: Name, a: Command)
    requires Stored(db) && Fits(c, |a|) && c != EXPIRE && c != PEXPIRE
    ensures var d := Exec(At(env, n), now, db, c, a).db;
            Stored(d) && d == Exec(env, 0, db, c, a).db && (!IsWrite(c) ==> d == db)
  {
    hide Exec, Stored;
    if !IsWrite(c) {
      ReadsSteady(At(env, n), now, db, c, a);
      ReadsSteady(env, 0, db, c, a);
    } else if c in {SET, DEL, FLUSHDB} {
      SimpleWritesSteady(env, n, now, db, c, a);
    } else {
      ContainerWritesSteady(env, n, now, db, c, a);
    }
  }

  lemma DispatchSteady(env: Env, n: nat, now: int, db: DB, a: Command)
    requires Stored(db) && a != [] && !TtlCommand(a)
    ensures var d := Dispatch(At(env, n), now, db, a).db;
            Stored(d) && d == Dispatch(env, 0, db, a).db && (!IsWriteCommand(a[0]) ==> d == db)
  {
    hide Exec, NameOf, Stored, Arity;
    var c := NameOf(a[0]);
    if c.Some? && Fits(c.value, |a|) {
      ExecSteady(env, n, now, db, c.value, a);
    }
  }

  /** The special case of the environment as it is. */
  lemma DispatchSteadyHere(env: Env, now: int, db: DB, a: Command)
    requires Stored(db) && a != [] && !TtlCommand(a)
    ensures var d := Dispatch(env, now, db, a).db;
            Stored(d) && d == Dispatch(env, 0, db, a).db && (!IsWriteCommand(a[0]) ==> d == db)
  {
    hide Dispatch, IsWriteCommand, TtlCommand, Stored;
    assert At(env, env.call) == env;
    DispatchSteady(env, env.call, now, db, a);
  }

  // ---------- deadlines and the heap ----------

  /** Every deadline that can come is in the heap.  (A heap key is an entry with `heaped`, so the heap never
      holds a key that is not stored, nor another time.) */
  ghost predicate Agreed(db: DB) {
    forall k :: k in db && db[k].expireAt >= 0 ==> db[k].heaped
  }

  lemma TouchAgreed(db: DB, now: int, k: Bytes)
    requires Agreed(db)
    ensures Agreed(Touch(db, now, k))
  {
  }

  lemma {:induction false} TouchAllAgreed(db: DB, now: int, ks: seq<Bytes>)
    requires Agreed(db)
    ensures Agreed(TouchAll(db, now, ks))
    decreases |ks|
  {
    hide Agreed, Touch;
    if ks != [] {
      TouchAgreed(db, now, ks[0]);
      TouchAllAgreed(Touch(db, now, ks[0]), now, ks[1..]);
    }
  }

  lemma StoreAgreed(db: DB, k: Bytes, v: Value)
    requires Agreed(db)
    ensures Agreed(Store(db, k, v)) && Agreed(db - {k})
  {
  }

  lemma TouchedAgreed(db: DB, now: int, k: Bytes, v: Value)
    requires Agreed(db)
    ensures var t := Touch(db, now, k); Agreed(t) && Agreed(t - {k}) && Agreed(Store(t, k, v))
  {
    hide Agreed, Touch, Store;
    TouchAgreed(db, now, k);
    StoreAgreed(Touch(db, now, k), k, v);
  }

  lemma PushAgreed(db: DB, now: int, a: Command, front: bool)
    requires Agreed(db) && |a| >= 3
    ensures Agreed(PushList(db, now, a, front).db)
  {
    hide Agreed, Touch, Store, Reversed, WRONGTYPE;
    var d := Touch(db, now, a[1]);
    var l := if a[1] in d && d[a[1]].value.List? then d[a[1]].value.items else [];
    TouchedAgreed(db, now, a[1], List(if front then Reversed(a[2..]) + l else l + a[2..]));
  }

  lemma PopAgreed(db: DB, now: int, a: Command, front: bool)
    requires Agreed(db) && |a| >= 2
    ensures Agreed(PopList(db, now, a, front).db)
  {
    hide Agreed, Touch, Store, WRONGTYPE;
    var d := Touch(db, now, a[1]);
    var l := if a[1] in d && d[a[1]].value.List? then d[a[1]].value.items else [];
    TouchedAgreed(db, now, a[1], List(if l == [] then l else if front then l[1..] else l[..|l| - 1]));
  }

  lemma HSetAgreed(db: DB, now: int, a: Command)
    requires Agreed(db) && |a| >= 4
    ensures Agreed(HSet(db, now, a).db)
  {
    hide Agreed, Touch, Store, PutFields, WRONGTYPE, WrongNumber;
    var d := Touch(db, now, a[1]);
    var h := if a[1] in d && d[a[1]].value.Hash? then d[a[1]].value.fields else map[];
    TouchedAgreed(db, now, a[1], Hash(PutFields(h, a[2..])));
  }

  lemma HDelAgreed(db: DB, now: int, a: Command)
    requires Agreed(db) && |a| >= 3
    ensures Agreed(HDel(db, now, a).db)
  {
    hide Agreed, Touch, Store, Words, WRONGTYPE;
    var d := Touch(db, now, a[1]);
    var h := if a[1] in d && d[a[1]].value.Hash? then d[a[1]].value.fields else map[];
    TouchedAgreed(db, now, a[1], Hash(h - Words(a[2..])));
  }

  lemma SAddAgreed(db: DB, now: int, a: Command)
    requires Agreed(db) && |a| >= 3
    ensures Agreed(SAdd(db, now, a).db)
  {
    hide Agreed, Touch, Store, Words, WRONGTYPE;
    var d := Touch(db, now, a[1]);
    var s := if a[1] in d && d[a[1]].value.Set? then d[a[1]].value.members else {};
    TouchedAgreed(db, now, a[1], Set(s + Words(a[2..])));
  }

  lemma SRemAgreed(db: DB, now: int, a: Command)
    requires Agreed(db) && |a| >= 3
    ensures Agreed(SRem(db, now, a).db)
  {
    hide Agreed, Touch, Store, Words, WRONGTYPE;
    var d := Touch(db, now, a[1]);
    var s := if a[1] in d && d[a[1]].value.Set? then d[a[1]].value.members else {};
    TouchedAgreed(db, now, a[1], Set(s - Words(a[2..])));
  }

  lemma ZAddAgreed(env: Env, db: DB, now: int, a: Command)
    requires Agreed(db) && |a| >= 4
    ensures Agreed(ZAdd(env, db, now, a).db)
  {
    hide Agreed, Touch, Store, ZSets.AddAll, ScorePairs, WRONGTYPE, WrongNumber;
    var d := Touch(db, now, a[1]);
    var z := if a[1] in d && d[a[1]].value.ZSet? then d[a[1]].value.scores else map[];
    TouchedAgreed(db, now, a[1], ZSet(ZSets.AddAll(z, ScorePairs(env, a[2..]))));
  }

  lemma ZRemAgreed(db: DB, now: int, a: Command)
    requires Agreed(db) && |a| >= 3
    ensures Agreed(ZRem(db, now, a).db)
  {
    hide Agreed, Touch, Store, ZSets.RemAll, WRONGTYPE;
    var d := Touch(db, now, a[1]);
    var z := if a[1] in d && d[a[1]].value.ZSet? then d[a[1]].value.scores else map[];
    TouchedAgreed(db, now, a[1], ZSet(ZSets.RemAll(z, a[2..])));
  }

  lemma ExpireAgreed(db: DB, now: int, a: Command, unit: int)
    requires Agreed(db) && |a| >= 3
    ensures Agreed(ExpireAt(db, now, a, unit).db)
  {
    hide CreateString, Touch, NOT_AN_INTEGER;
    TouchAgreed(db, now, a[1]);
  }

  lemma AgreedBase(db: DB, ks: set<Bytes>, k: Bytes, s: Bytes)
    requires Agreed(db)
    ensures Agreed(db - ks) && Agreed(map[]) && Agreed(db[k := Entry(Str(CreateString(s)), -1)])
  {
    hide CreateString;
  }

  lemma ScanAgreed(env: Env, now: int, db: DB, a: Command)
    requires Agreed(db) && |a| >= 2
    ensures Agreed(ScanOutcome(env, now, db, a).db)
  {
    hide Agreed, TouchAll, Shown, ScanArgs, Bulks;
    if ScanArgs(a).ScanRequest? {
      TouchAllAgreed(db, now, env.scan(env.call, db, ScanArgs(a).cursor, ScanArgs(a).count).1);
    }
  }

  lemma KeyspaceAgreed(env: Env, now: int, db: DB, c: Name, a: Command)
    requires Agreed(db) && Fits(c, |a|)
    requires c in {PING, SET, DEL, EXISTS, KEYS, EXPIRE, PEXPIRE, TTL, PTTL, DBSIZE, SCAN, FLUSHDB, INFO}
    ensures Agreed(Exec(env, now, db, c, a).db)
  {
    hide TouchAll, CountLive, Bulks, CreateString, Words, ReadOne, ScanOutcome, WRONGTYPE, Agreed, Touch, ExpireAt;
    AgreedBase(db, Words(a[1..]), if |a| >= 2 then a[1] else [], if |a| >= 3 then a[2] else []);
    if |a| >= 2 {
      TouchAgreed(db, now, a[1]);
      TouchAllAgreed(db, now, a[1..]);
      ScanAgreed(env, now, db, a);
    }
    if |a| >= 3 {
      ExpireAgreed(db, now, a, 1000);
      ExpireAgreed(db, now, a, 1);
    }
  }

  lemma ContainersAgreed(env: Env, now: int, db: DB, c: Name, a: Command)
    requires Agreed(db) && Fits(c, |a|) && c in {LPUSH, RPUSH, LPOP, RPOP, HSET, HDEL, SADD, SREM, ZADD, ZREM}
    ensures Agreed(Exec(env, now, db, c, a).db)
  {
    hide Agreed, PushList, PopList, HSet, HDel, SAdd, SRem, ZAdd, ZRem;
    match c
    case LPUSH => PushAgreed(db, now, a, true);
    case RPUSH => PushAgreed(db, now, a, false);
    case LPOP => PopAgreed(db, now, a, true);
    case RPOP => PopAgreed(db, now, a, false);
    case HSET => HSetAgreed(db, now, a);
    case HDEL => HDelAgreed(db, now, a);
    case SADD => SAddAgreed(db, now, a);
    case SREM => SRemAgreed(db, now, a);
    case ZADD => ZAddAgreed(env, db, now, a);
    case ZREM => ZRemAgreed(db, now, a);
  }

  /** No handler stores a deadline without putting it into the heap. */
  lemma ExecAgreed(env: Env, now: int, db: DB, c: Name, a: Command)
    requires Agreed(db) && Fits(c, |a|)
    ensures Agreed(Exec(env, now, db, c, a).db)
  {
    hide Agreed, ReadOne, Touch;
    if c in {PING, SET, DEL, EXISTS, KEYS, EXPIRE, PEXPIRE, TTL, PTTL, DBSIZE, SCAN, FLUSHDB, INFO} {
      hide Exec;
      KeyspaceAgreed(env, now, db, c, a);
    } else if c in {LPUSH, RPUSH, LPOP, RPOP, HSET, HDEL, SADD, SREM, ZADD, ZREM} {
      hide Exec;
      ContainersAgreed(env, now, db, c, a);
    } else {
      TouchAgreed(db, now, a[1]);
    }
  }

  lemma DispatchAgreed(env: Env, now: int, db: DB, a: Command)
    requires Agreed(db) && a != []
    ensures Agreed(Dispatch(env, now, db, a).db)
  {
    hide Exec, NameOf, Agreed, Arity;
    var c := NameOf(a[0]);
    if c.Some? && Fits(c.value, |a|) {
      ExecAgreed(env, now, db, c.value, a);
    }
  }

  lemma StoredAgreed(db: DB)
    requires Stored(db)
    ensures Agreed(db) && forall k :: k in db ==> !db[k].heaped
  {
  }
}
