/** The whole command table on the database object: one method that does for every command what the dispatch
    function says. */
module Executor {
  import opened Text
  import opened Resp
  import opened Objects
  import opened Replies
  import opened Expiry
  import opened Commands
  import opened SortedPairs
  import opened HashTables
  import HashSpec
  import HashProofs
  import HashScan
  import ScanRuns
  import CommandProofs
  import Snapshots
  import Skiplists
  import ZSets
  import Timed
  import AofWriter
  import opened Databases
  import opened Handlers

  /** What a call may find out about its environment: the order in which it iterated a container, and its page. */
  ghost predicate Found(env: Env, seen: Env) {
    && seen == env.(order := seen.order, scan := seen.scan)
    && forall s :: seen.order(env.call, s) == env.order(env.call, s) || Snapshots.Lists(seen.order(env.call, s), s)
  }

  ghost function WithOrder(env: Env, keys: set<Bytes>, ks: seq<Bytes>): Env {
    env.(order := (c: nat, s: set<Bytes>) => if s == keys then ks else env.order(c, s))
  }

  lemma WithOrderFound(env: Env, keys: set<Bytes>, ks: seq<Bytes>)
    requires Snapshots.Lists(ks, keys)
    ensures Found(env, WithOrder(env, keys, ks)) && WithOrder(env, keys, ks).order(env.call, keys) == ks
  {
  }

  lemma SelfFound(env: Env)
    ensures Found(env, env)
  {
    assert env == env.(order := env.order, scan := env.scan);
  }

  // ---------- keys ----------

  lemma SetView(s: Timed.Store<Value>, k: Bytes, v: Value)
    requires Timed.Agree(s)
    ensures ViewOf(Timed.SetString(s, k, v)) == ViewOf(s)[k := Entry(v, -1)] && Timed.Agree(Timed.SetString(s, k, v))
  {
  }

  method CmdSet(db: Database<Value>, a: Command) returns (reply: Reply)
    requires db.Valid() && Timed.Agree(db.State()) && |a| == 3
    modifies db.Repr
    ensures db.Valid() && fresh(db.Repr - old(db.Repr)) && Timed.Agree(db.State())
    ensures View(db) == old(View(db))[a[1] := Entry(Str(CreateString(a[2])), -1)] && reply == OK
  {
    hide Database.Valid, HashProofs.Good, Timed.Agree, ViewOf, CreateString, Timed.SetString;
    SetView(db.State(), a[1], Str(CreateString(a[2])));
    db.SetString(a[1], Str(CreateString(a[2])));
    reply := OK;
  }

  method DelOne(db: Database<Value>, k: Bytes) returns (found: bool)
    requires db.Valid() && Timed.Agree(db.State())
    modifies db.Repr
    ensures db.Valid() && fresh(db.Repr - old(db.Repr)) && Timed.Agree(db.State())
    ensures View(db) == old(View(db)) - {k} && found == (k in old(View(db)))
  {
    hide Database.Valid, HashProofs.Good, Timed.Agree, ViewOf, Timed.Delete;
    ViewKeys(db.State(), k);
    DeletedView(db.State(), k);
    found := db.Delete(k);
  }

  ghost predicate DeletedUpTo(v: DB, ks: seq<Bytes>, i: nat, d: DB, count: int)
    requires i <= |ks|
  {
    d == v - Words(ks[..i]) && count == |v| - |d|
  }

  lemma DeletedNone(v: DB, ks: seq<Bytes>)
    ensures DeletedUpTo(v, ks, 0, v, 0)
  {
    assert ks[..0] == [];
    NoWords();
  }

  lemma DeletedStep(v: DB, ks: seq<Bytes>, i: nat, d: DB, count: int)
    requires i < |ks| && DeletedUpTo(v, ks, i, d, count)
    ensures DeletedUpTo(v, ks, i + 1, d - {ks[i]}, count + (if ks[i] in d then 1 else 0))
  {
    hide Words;
    MinusWords(v, ks, i);
    HashProofs.CardMinus(d, ks[i]);
  }

  lemma DeletedAll(v: DB, ks: seq<Bytes>, d: DB, count: int)
    requires DeletedUpTo(v, ks, |ks|, d, count)
    ensures d == v - Words(ks) && count == |v| - |d|
  {
    assert ks[..|ks|] == ks;
  }

  method DelEach(db: Database<Value>, ks: seq<Bytes>) returns (count: int)
    requires db.Valid() && Timed.Agree(db.State())
    modifies db.Repr
    ensures db.Valid() && fresh(db.Repr - old(db.Repr)) && Timed.Agree(db.State())
    ensures DeletedUpTo(old(View(db)), ks, |ks|, View(db), count)
  {
    hide Database.Valid, HashProofs.Good, Timed.Agree, View, DeletedUpTo;
    count := 0;
    ghost var v := View(db);
    DeletedNone(v, ks);
    var i := 0;
    while i < |ks|
      invariant 0 <= i <= |ks| && db.Valid() && fresh(db.Repr - old(db.Repr)) && Timed.Agree(db.State())
      invariant DeletedUpTo(v, ks, i, View(db), count)
    {
      DeletedStep(v, ks, i, View(db), count);
      var found := DelOne(db, ks[i]);
      count := count + (if found then 1 else 0);
      i := i + 1;
    }
  }

  method CmdDel(db: Database<Value>, ks: seq<Bytes>) returns (reply: Reply)
    requires db.Valid() && Timed.Agree(db.State())
    modifies db.Repr
    ensures db.Valid() && fresh(db.Repr - old(db.Repr)) && Timed.Agree(db.State())
    ensures View(db) == old(View(db)) - Words(ks) && reply == Int(|old(View(db))| - |View(db)|)
  {
    hide Database.Valid, HashProofs.Good, Timed.Agree, View, Words, DeletedUpTo;
    var count := DelEach(db, ks);
    DeletedAll(old(View(db)), ks, View(db), count);
    reply := Int(count);
  }

  method CmdExists(db: Database<Value>, now: int, ks: seq<Bytes>) returns (reply: Reply)
    requires db.Valid() && Timed.Agree(db.State())
    modifies db.Repr
    ensures db.Valid() && fresh(db.Repr - old(db.Repr)) && Timed.Agree(db.State())
    ensures View(db) == TouchAll(old(View(db)), now, ks) && reply == Int(CountLive(old(View(db)), now, ks))
  {
    hide Database.Valid, HashProofs.Good, Timed.Agree, ViewOf, Touch, Timed.Lazy, Timed.Seen;
    var count := 0;
    var i := 0;
    assert ks[0..] == ks;
    while i < |ks|
      invariant 0 <= i <= |ks| && db.Valid() && fresh(db.Repr - old(db.Repr)) && Timed.Agree(db.State())
      invariant TouchAll(View(db), now, ks[i..]) == TouchAll(old(View(db)), now, ks)
      invariant count + CountLive(View(db), now, ks[i..]) == CountLive(old(View(db)), now, ks)
    {
      assert ks[i..][0] == ks[i] && ks[i..][1..] == ks[i + 1..];
      LazyIsTouch(db.State(), now, ks[i]);
      var found := db.Exists(ks[i], now);
      if found {
        count := count + 1;
      }
      i := i + 1;
    }
    reply := Int(count);
  }

  lemma OnceEach(ks: seq<Bytes>, keys: set<Bytes>)
    requires forall k :: multiset(ks)[k] == if k in keys then 1 else 0
    ensures Snapshots.Lists(ks, keys)
  {
    forall x
      ensures x in ks <==> x in keys
    {
      assert x in ks <==> multiset(ks)[x] > 0;
    }
    forall i, j | 0 <= i < j < |ks|
      ensures ks[i] != ks[j]
    {
      if ks[i] == ks[j] {
        TwiceCounts(ks, i, j);
      }
    }
  }

  lemma TwiceCounts(ks: seq<Bytes>, i: nat, j: nat)
    requires i < j < |ks| && ks[i] == ks[j]
    ensures multiset(ks)[ks[i]] >= 2
  {
    var a, b := ks[..j], ks[j..];
    assert ks == a + b && a[i] in a && b[0] in b;
    assert multiset(ks) == multiset(a) + multiset(b);
  }

  lemma ViewKeySet(s: Timed.Store<Value>)
    ensures ViewOf(s).Keys == s.table.Keys && |ViewOf(s)| == |s.table|
  {
    assert |ViewOf(s)| == |ViewOf(s).Keys| && |s.table| == |s.table.Keys|;
  }

  method CmdKeys(db: Database<Value>, env: Env) returns (reply: Reply, ghost seen: Env)
    requires db.Valid() && Timed.Agree(db.State())
    modifies db.Repr
    ensures db.Valid() && fresh(db.Repr - old(db.Repr)) && Timed.Agree(db.State())
    ensures Found(env, seen) && seen.scan == env.scan && View(db) == old(View(db))
    ensures reply == Array(Bulks(seen.order(env.call, View(db).Keys)))
  {
    hide Database.Valid, HashProofs.Good, Timed.Agree, ViewOf, Bulks, Found, Snapshots.Lists;
    var ks := db.Keys();
    ViewKeySet(db.State());
    OnceEach(ks, View(db).Keys);
    WithOrderFound(env, View(db).Keys, ks);
    seen := WithOrder(env, View(db).Keys, ks);
    reply := Array(Bulks(ks));
  }

  lemma LeftView(s: Timed.Store<Value>, now: int, k: Bytes, ms: int, unit: int)
    requires unit > 0 && ms == Timed.TimeLeft(Timed.Seen(s.table, now, k), now)
    ensures var o := TimeLeft(ViewOf(s), now, ["TTL", k], unit);
            && o.db == ViewOf(Timed.Lazy(s, now, k))
            && o.reply == Int(if ms == -2 || ms == -1 then ms else if ms > 0 then ms / unit else 0)
  {
    LazyIsTouch(s, now, k);
  }

  method CmdTtl(db: Database<Value>, now: int, a: Command, unit: int) returns (reply: Reply)
    requires db.Valid() && Timed.Agree(db.State()) && |a| == 2 && unit > 0
    modifies db.Repr
    ensures db.Valid() && fresh(db.Repr - old(db.Repr)) && Timed.Agree(db.State())
    ensures Outcome(View(db), reply) == TimeLeft(old(View(db)), now, a, unit)
  {
    hide Database.Valid, HashProofs.Good, Timed.Agree, ViewOf, Touch, Timed.Lazy, Timed.Seen;
    LazyIsTouch(db.State(), now, a[1]);
    var ms := db.TimeToLive(a[1], now);
    LeftView(old(db.State()), now, a[1], ms, unit);
    reply := Int(if ms == -2 || ms == -1 then ms else if ms > 0 then ms / unit else 0);
  }

  /** The page that SCAN finds in a table: the entries from the cursor on, after one batch of the rehash. */
  ghost function PageOf(hash: HashSpec.Hash, t: HashSpec.State<Value>, cursor: nat, count: nat): (nat, seq<Bytes>)
    requires HashSpec.Shape(t)
  {
    var p := HashScan.Scan(HashSpec.RehashStep(hash, t, HashSpec.REHASH_BATCH), cursor, count);
    (p.cursor, p.keys)
  }

  /** The pages of this call are those of the environment, or those of the table. */
  ghost predicate Paged(env: Env, seen: Env, hash: HashSpec.Hash, t: HashSpec.State<Value>) {
    seen.scan == env.scan || Tabled(env, seen, hash, t)
  }

  ghost predicate Tabled(env: Env, seen: Env, hash: HashSpec.Hash, t: HashSpec.State<Value>) {
    && HashSpec.Shape(t)
    && forall d, cursor, count :: seen.scan(env.call, d, cursor, count) == PageOf(hash, t, cursor, count)
  }

  /** The reply to a SCAN with raw page `raw` and next cursor `next`, written out. */
  ghost predicate PageReply(v: DB, now: int, next: nat, raw: seq<Bytes>, pattern: Bytes, reply: Reply) {
    && reply.Array? && |reply.elements| == 2
    && reply.elements[0] == BulkString(IntText(next))
    && exists keys ::
         && reply.elements[1] == Array(Bulks(keys))
         && ShowsExactly(k => k in v && !(v[k].expireAt >= 0 && now >= v[k].expireAt), raw, pattern, keys)
  }

  method CmdScanAll(db: Database<Value>, env: Env, now: int, a: Command) returns (reply: Reply, ghost seen: Env)
    requires db.Valid() && Timed.Agree(db.State()) && |a| >= 2
    modifies db.Repr
    ensures db.Valid() && fresh(db.Repr - old(db.Repr)) && Timed.Agree(db.State())
    ensures Found(env, seen) && Outcome(View(db), reply) == ScanOutcome(seen, now, old(View(db)), a)
    ensures var req := ScanArgs(a);
            req.ScanRequest? ==>
              && Tabled(env, seen, db.table.hash, old(db.table.State()))
              && var page := PageOf(db.table.hash, old(db.table.State()), req.cursor, req.count);
                 PageReply(old(View(db)), now, page.0, page.1, req.pattern, reply)
    ensures Paged(env, seen, db.table.hash, old(db.table.State()))
  {
    hide Database.Valid, HashProofs.Good, Timed.Agree, ViewOf, ScanArgs, Found, TouchAll, Shown, Bulks, HashSpec.RehashStep, HashScan.Scan;
    hide ShowsExactly, PageReply, Tabled, HashSpec.Shape;
    var req := ScanArgs(a);
    seen := env;
    SelfFound(env);
    if req.BadCursor? {
      return Error("ERR invalid cursor"), seen;
    }
    if req.BadOption? {
      return Error("ERR syntax error"), seen;
    }
    ghost var d := View(db);
    ghost var t := db.table.State();
    var next, keys;
    ghost var raw;
    next, keys, raw := CmdScan(db, now, req);
    seen := WithPages(env, db.table.hash, t);
    WithPagesFound(env, db.table.hash, t);
    reply := Array([BulkString(Digits(next)), Array(Bulks(keys))]);
    PageReplied(d, now, next, raw, req.pattern, keys);
    WithPagesAt(env, db.table.hash, t, d, req.cursor, req.count);
  }

  lemma PageReplied(v: DB, now: int, next: nat, raw: seq<Bytes>, pattern: Bytes, keys: seq<Bytes>)
    requires ShowsExactly(k => k in v && !(v[k].expireAt >= 0 && now >= v[k].expireAt), raw, pattern, keys)
    ensures PageReply(v, now, next, raw, pattern, Array([BulkString(Digits(next)), Array(Bulks(keys))]))
  {
    hide ShowsExactly, Bulks, Digits;
  }

  ghost function WithPages(env: Env, hash: HashSpec.Hash, t: HashSpec.State<Value>): Env
    requires HashSpec.Shape(t)
  {
    env.(scan := (c, d, cursor, count) => PageOf(hash, t, cursor, count))
  }

  lemma WithPagesFound(env: Env, hash: HashSpec.Hash, t: HashSpec.State<Value>)
    requires HashSpec.Shape(t)
    ensures Found(env, WithPages(env, hash, t)) && Tabled(env, WithPages(env, hash, t), hash, t)
  {
    hide PageOf, HashSpec.Shape;
  }

  lemma WithPagesAt(env: Env, hash: HashSpec.Hash, t: HashSpec.State<Value>, d: DB, cursor: nat, count: nat)
    requires HashSpec.Shape(t)
    ensures WithPages(env, hash, t).call == env.call
    ensures WithPages(env, hash, t).scan(env.call, d, cursor, count) == PageOf(hash, t, cursor, count)
  {
    hide PageOf, HashSpec.Shape;
  }

  // ---------- sorted sets ----------

  /** Levels as the coin may give them to new skiplist nodes. */
  ghost predicate Levels(level: nat -> nat) {
    forall i :: 1 <= level(i) <= Skiplists.MAX_LEVEL
  }

  /** A sorted set as an object, built from its dictionary. */
  method FromDict(z: ZSets.Dict, level: nat -> nat) returns (zs: ZSets.ZSetData)
    requires Levels(level)
    ensures zs.Valid() && fresh(zs) && fresh(zs.skiplist) && fresh(zs.skiplist.nodes) && zs.dict == z
  {
    hide ZSets.AddAll, Snapshots.Lists;
    var ms := AofWriter.AnyOrder(z.Keys);
    var pairs: seq<Pair> := PairsFor(z, ms);
    zs := new ZSets.ZSetData();
    var _ := zs.ZAdd(pairs, level);
    DictBack(z, ms, pairs);
  }

  method PairsFor(z: ZSets.Dict, ms: seq<Bytes>) returns (pairs: seq<Pair>)
    requires Snapshots.Lists(ms, z.Keys)
    ensures |pairs| == |ms| && forall i :: 0 <= i < |ms| ==> ms[i] in z && pairs[i] == Pair(z[ms[i]], ms[i])
  {
    pairs := [];
    var i := 0;
    while i < |ms|
      invariant 0 <= i <= |ms| && |pairs| == i
      invariant forall j :: 0 <= j < i ==> ms[j] in z && pairs[j] == Pair(z[ms[j]], ms[j])
    {
      assert ms[i] in ms;
      pairs := pairs + [Pair(z[ms[i]], ms[i])];
      i := i + 1;
    }
  }

  lemma DictBack(z: ZSets.Dict, ms: seq<Bytes>, pairs: seq<Pair>)
    requires Snapshots.Lists(ms, z.Keys) && |pairs| == |ms|
    requires forall i :: 0 <= i < |ms| ==> ms[i] in z && pairs[i] == Pair(z[ms[i]], ms[i])
    ensures ZSets.AddAll(map[], pairs) == z
  {
    hide ZSets.AddAll;
    Snapshots.AddAllFrom(z, ms, pairs);
    Snapshots.ListedMap(z, ms);
  }

  method CmdZAdd(db: Database<Value>, env: Env, level: nat -> nat, now: int, a: Command) returns (reply: Reply)
    requires db.Valid() && Timed.Agree(db.State()) && |a| >= 4
    requires Levels(level)
    modifies db.Repr
    ensures db.Valid() && fresh(db.Repr - old(db.Repr)) && Timed.Agree(db.State())
    ensures Outcome(View(db), reply) == ZAdd(env, old(View(db)), now, a)
  {
    hide Database.Valid, HashProofs.Good, ScanRuns.CollectOne, Timed.Agree, Touch, View, HashTable.HasEntry, Commands.Store, WRONGTYPE, ZSets.AddAll, ScorePairs, Levels, WrongNumber;
    if |a| % 2 != 0 {
      return WrongNumber("zadd");
    }
    var e := Open(db, now, a[1], ZSet(map[]));
    if !e.value.ZSet? {
      return WRONGTYPE;
    }
    ZAddOpened(env, old(View(db)), now, a, e.value.scores);
    hide ZAdd;
    var z, added := Added(e.value.scores, ScorePairs(env, a[2..]), level);
    StoreTwice(Touch(old(View(db)), now, a[1]), a[1], ZSet(map[]), ZSet(z));
    Write(db, e, ZSet(z));
    reply := Int(added);
  }

  lemma ZAddOpened(env: Env, v: DB, now: int, a: Command, z: ZSets.Dict)
    requires |a| >= 4 && |a| % 2 == 0
    requires var d := Touch(v, now, a[1]); if a[1] in d then d[a[1]].value == ZSet(z) else z == map[]
    ensures var d, z' := Touch(v, now, a[1]), ZSets.AddAll(z, ScorePairs(env, a[2..]));
            ZAdd(env, v, now, a) == Outcome(Commands.Store(d, a[1], ZSet(z')), Int(|z'| - |z|))
  {
    hide Touch, Commands.Store, ZSets.AddAll, ScorePairs;
  }

  method Added(z: ZSets.Dict, pairs: seq<Pair>, level: nat -> nat) returns (z': ZSets.Dict, added: int)
    requires Levels(level)
    ensures z' == ZSets.AddAll(z, pairs) && added == |z'| - |z|
  {
    hide ZSets.AddAll;
    var zs := FromDict(z, level);
    added := zs.ZAdd(pairs, level);
    z' := zs.dict;
  }

  method CmdZRem(db: Database<Value>, level: nat -> nat, now: int, a: Command) returns (reply: Reply)
    requires db.Valid() && Timed.Agree(db.State()) && |a| >= 3
    requires Levels(level)
    modifies db.Repr
    ensures db.Valid() && fresh(db.Repr - old(db.Repr)) && Timed.Agree(db.State())
    ensures Outcome(View(db), reply) == ZRem(old(View(db)), now, a)
  {
    hide Database.Valid, HashProofs.Good, ScanRuns.CollectOne, Timed.Agree, Touch, View, HashTable.HasEntry, Commands.Store, WRONGTYPE, ZSets.RemAll, Levels;
    var e := Handlers.Locate(db, now, a[1]);
    if e == null {
      return Int(0);
    }
    if !e.value.ZSet? {
      return WRONGTYPE;
    }
    ZRemFound(old(View(db)), now, a, e.value.scores);
    hide ZRem;
    var removed := RemoveFrom(db, e, a[2..], level);
    reply := Int(removed);
  }

  method RemoveFrom(db: Database<Value>, e: HTEntry<Value>, members: seq<Bytes>, level: nat -> nat) returns (removed: int)
    requires db.Valid() && Timed.Agree(db.State()) && db.table.HasEntry(e) && e.key in db.State().table
    requires db.State().table[e.key] == HashSpec.Item(e.key, e.value, e.expireAt) && e.value.ZSet? && Levels(level)
    modifies db.Repr
    ensures db.Valid() && fresh(db.Repr - old(db.Repr)) && Timed.Agree(db.State())
    ensures var z, k := old(e.value.scores), e.key;
            var z' := ZSets.RemAll(z, members);
            && View(db) == (if z' == map[] then old(View(db)) - {k} else Commands.Store(old(View(db)), k, ZSet(z')))
            && removed == |z| - |z'|
  {
    hide Database.Valid, HashProofs.Good, Timed.Agree, View, HashTable.HasEntry, Commands.Store, ZSets.RemAll, Levels;
    var z;
    z, removed := Removed(e.value.scores, members, level);
    WriteOrDelete(db, e, ZSet(z), z == map[]);
  }

  lemma ZRemFound(v: DB, now: int, a: Command, z: ZSets.Dict)
    requires |a| >= 3 && a[1] in Touch(v, now, a[1]) && Touch(v, now, a[1])[a[1]].value == ZSet(z)
    ensures var d, z' := Touch(v, now, a[1]), ZSets.RemAll(z, a[2..]);
            ZRem(v, now, a) == Outcome(if z' == map[] then d - {a[1]} else Commands.Store(d, a[1], ZSet(z')), Int(|z| - |z'|))
  {
    hide Touch, Commands.Store, ZSets.RemAll;
  }

  method Removed(z: ZSets.Dict, members: seq<Bytes>, level: nat -> nat) returns (z': ZSets.Dict, removed: int)
    requires Levels(level)
    ensures z' == ZSets.RemAll(z, members) && removed == |z| - |z'|
  {
    hide ZSets.RemAll;
    var zs := FromDict(z, level);
    removed := zs.ZRem(members);
    z' := zs.dict;
  }

  // ---------- readers ----------

  lemma RankWrittenOut(z: ZSets.Dict, m: Bytes)
    requires m in z
    ensures RankIn(z, m) == |set x | x in z && (z[x] < z[m] || (z[x] == z[m] && ByteBefore(x, m)))|
  {
    hide Below, ByteBefore;
    ZSets.BelowWrittenOut(z, m);
  }

  method ReadSorted(env: Env, level: nat -> nat, c: Name, z: ZSets.Dict, a: Command) returns (reply: Reply)
    requires c in {ZCARD, ZSCORE, ZRANK, ZRANGE} && Fits(c, |a|)
    requires Levels(level)
    ensures reply == ReadZSet(env, c, z, a)
  {
    hide RankIn, OrderOf, PairReplies, Atoi, Skiplists.Slice, ZSets.Coherent, Below, ByteBefore;
    if c == ZCARD {
      return Int(|z|);
    }
    if c == ZRANGE {
      var zs := FromDict(z, level);
      var range := zs.ZRange(Atoi(a[2]), Atoi(a[3]));
      ZSets.OrderFromDict(zs.skiplist.Contents(), OrderOf(z), z);
      return Array(PairReplies(env, range, |a| == 5));
    }
    if a[2] !in z {
      return Null;
    }
    if c == ZSCORE {
      return BulkString(env.printScore(z[a[2]]));
    }
    var zs := FromDict(z, level);
    var rank := zs.ZRank(a[2]);
    RankWrittenOut(z, a[2]);
    reply := Int(rank.value);
  }

  method ReadFound(env: Env, level: nat -> nat, c: Name, v: Value, a: Command) returns (reply: Reply, ghost seen: Env)
    requires Reader(c) && Fits(c, |a|)
    requires Levels(level)
    ensures Found(env, seen) && seen.scan == env.scan && reply == ReadValue(seen, c, v, a)
  {
    hide Found, ReadZSet, AsString, Bulks, FieldReplies, Atoi, Skiplists.Slice, Snapshots.Lists, WRONGTYPE;
    seen := env;
    SelfFound(env);
    if c == GET && v.Str? {
      reply := BulkString(AsString(v.o));
    } else if c == LLEN && v.List? {
      reply := Int(|v.items|);
    } else if c == LRANGE && v.List? {
      reply := Array(Bulks(Skiplists.Slice(v.items, Atoi(a[2]), Atoi(a[3]))));
    } else if c == HGET && v.Hash? {
      reply := if a[2] in v.fields then BulkString(v.fields[a[2]]) else Null;
    } else if c == HLEN && v.Hash? {
      reply := Int(|v.fields|);
    } else if c == HGETALL && v.Hash? {
      var fs := AofWriter.AnyOrder(v.fields.Keys);
      WithOrderFound(env, v.fields.Keys, fs);
      seen := WithOrder(env, v.fields.Keys, fs);
      reply := Array(FieldReplies(v.fields, fs));
    } else if c == SISMEMBER && v.Set? {
      reply := Int(if a[2] in v.members then 1 else 0);
    } else if c == SMEMBERS && v.Set? {
      var ms := AofWriter.AnyOrder(v.members);
      WithOrderFound(env, v.members, ms);
      seen := WithOrder(env, v.members, ms);
      reply := Array(Bulks(ms));
    } else if c == SCARD && v.Set? {
      reply := Int(|v.members|);
    } else if c in {ZCARD, ZSCORE, ZRANK, ZRANGE} && v.ZSet? {
      reply := ReadSorted(env, level, c, v.scores, a);
    } else {
      reply := WRONGTYPE;
    }
  }

  method CmdRead(db: Database<Value>, env: Env, level: nat -> nat, now: int, c: Name, a: Command) returns (reply: Reply, ghost seen: Env)
    requires db.Valid() && Timed.Agree(db.State()) && |a| >= 2 && Reader(c) && Fits(c, |a|)
    requires Levels(level)
    modifies db.Repr
    ensures db.Valid() && fresh(db.Repr - old(db.Repr)) && Timed.Agree(db.State())
    ensures Found(env, seen) && seen.scan == env.scan && View(db) == Touch(old(View(db)), now, a[1]) && reply == ReadOne(seen, c, View(db), a)
  {
    hide Database.Valid, HashProofs.Good, ScanRuns.CollectOne, Timed.Agree, Touch, ViewOf, Found, ReadValue, Levels, Fits, Reader;
    var e := Handlers.Locate(db, now, a[1]);
    if e == null {
      SelfFound(env);
      return ReadNothing(c), env;
    }
    reply, seen := ReadFound(env, level, c, e.value, a);
  }

  // ---------- the table ----------

  lemma KeysExec(env: Env, now: int, d: DB, c: Name, a: Command)
    requires Fits(c, |a|)
    ensures c == SET ==> |a| == 3 && Exec(env, now, d, c, a) == Outcome(d[a[1] := Entry(Str(CreateString(a[2])), -1)], OK)
    ensures c == DEL ==> |a| >= 2 && Exec(env, now, d, c, a) == Outcome(d - Words(a[1..]), Int(|d| - |d - Words(a[1..])|))
    ensures c == EXISTS ==>
              |a| >= 2 && Exec(env, now, d, c, a) == Outcome(TouchAll(d, now, a[1..]), Int(CountLive(d, now, a[1..])))
    ensures c == SCAN ==> |a| >= 2 && Exec(env, now, d, c, a) == ScanOutcome(env, now, d, a)
  {
    hide CreateString, Words, TouchAll, CountLive, ScanOutcome;
  }

  lemma ServerExec(env: Env, now: int, d: DB, c: Name, a: Command)
    requires Fits(c, |a|)
    ensures c == PING ==> Exec(env, now, d, c, a) == Outcome(d, if |a| <= 1 then Simple("PONG") else BulkString(a[1]))
    ensures c == KEYS ==> Exec(env, now, d, c, a) == Outcome(d, Array(Bulks(env.order(env.call, d.Keys))))
    ensures c == DBSIZE ==> Exec(env, now, d, c, a) == Outcome(d, Int(|d|))
    ensures c == FLUSHDB ==> Exec(env, now, d, c, a) == Outcome(map[], OK)
    ensures c == INFO ==> Exec(env, now, d, c, a) == Outcome(d, BulkString(env.info(env.call, a)))
  {
    hide Bulks;
  }

  lemma TimesExec(env: Env, now: int, d: DB, c: Name, a: Command)
    requires Fits(c, |a|)
    ensures c == EXPIRE ==> |a| == 3 && Exec(env, now, d, c, a) == ExpireAt(d, now, a, 1000)
    ensures c == PEXPIRE ==> |a| == 3 && Exec(env, now, d, c, a) == ExpireAt(d, now, a, 1)
    ensures c == TTL ==> |a| == 2 && Exec(env, now, d, c, a) == TimeLeft(d, now, a, 1000)
    ensures c == PTTL ==> |a| == 2 && Exec(env, now, d, c, a) == TimeLeft(d, now, a, 1)
  {
    hide ExpireAt, TimeLeft;
  }

  lemma ContainersExec(env: Env, now: int, d: DB, c: Name, a: Command)
    requires Fits(c, |a|)
    ensures c in {LPUSH, RPUSH} ==> |a| >= 3 && Exec(env, now, d, c, a) == PushList(d, now, a, c == LPUSH)
    ensures c in {LPOP, RPOP} ==> |a| == 2 && Exec(env, now, d, c, a) == PopList(d, now, a, c == LPOP)
    ensures c == HSET ==> |a| >= 4 && Exec(env, now, d, c, a) == HSet(d, now, a)
    ensures c == HDEL ==> |a| >= 3 && Exec(env, now, d, c, a) == HDel(d, now, a)
    ensures c == SADD ==> |a| >= 3 && Exec(env, now, d, c, a) == SAdd(d, now, a)
    ensures c == SREM ==> |a| >= 3 && Exec(env, now, d, c, a) == SRem(d, now, a)
    ensures c == ZADD ==> |a| >= 4 && Exec(env, now, d, c, a) == ZAdd(env, d, now, a)
    ensures c == ZREM ==> |a| >= 3 && Exec(env, now, d, c, a) == ZRem(d, now, a)
  {
    hide PushList, PopList, HSet, HDel, SAdd, SRem, ZAdd, ZRem;
  }

  lemma ReadersExec(env: Env, now: int, d: DB, c: Name, a: Command)
    requires Fits(c, |a|) && Reader(c)
    ensures |a| >= 2 && (c == ZRANGE ==> |a| >= 4)
    ensures if c == ZRANGE && |a| == 5 && Upper(a[4]) != "WITHSCORES"
            then Exec(env, now, d, c, a) == Outcome(d, Error("ERR syntax error"))
            else Exec(env, now, d, c, a) == (var t := Touch(d, now, a[1]); Outcome(t, ReadOne(env, c, t, a)))
  {
    hide Touch, ReadOne, Upper;
  }

  predicate KeysCommand(c: Name) {
    c in {PING, SET, DEL, EXISTS, KEYS, DBSIZE, SCAN, FLUSHDB, INFO}
  }

  method ExecuteKeys(db: Database<Value>, env: Env, now: int, c: Name, a: Command) returns (reply: Reply, ghost seen: Env)
    requires db.Valid() && Timed.Agree(db.State()) && KeysCommand(c) && Fits(c, |a|)
    modifies db.Repr
    ensures db.Valid() && fresh(db.Repr - old(db.Repr)) && Timed.Agree(db.State())
    ensures Paged(env, seen, db.table.hash, old(db.table.State()))
    ensures Found(env, seen) && Outcome(View(db), reply) == Exec(seen, now, old(View(db)), c, a)
  {
    hide Database.Valid, HashProofs.Good, Timed.Agree, View, Exec, Fits, Found, Words, TouchAll, CountLive, Bulks, ScanOutcome, CreateString;
    hide Tabled, PageReply, ScanArgs;
    seen := env;
    SelfFound(env);
    KeysExec(env, now, View(db), c, a);
    ServerExec(env, now, View(db), c, a);
    match c
    case PING => reply := if |a| <= 1 then Simple("PONG") else BulkString(a[1]);
    case SET => reply := CmdSet(db, a);
    case DEL => reply := CmdDel(db, a[1..]);
    case EXISTS => reply := CmdExists(db, now, a[1..]);
    case KEYS =>
      reply, seen := CmdKeys(db, env);
      ServerExec(seen, now, old(View(db)), c, a);
      FoundCall(env, seen);
    case DBSIZE => reply := CmdDbSize(db);
    case SCAN =>
      reply, seen := CmdScanAll(db, env, now, a);
      KeysExec(seen, now, old(View(db)), c, a);
    case FLUSHDB => reply := CmdFlush(db);
    case INFO => reply := BulkString(env.info(env.call, a));
  }

  lemma FoundCall(env: Env, seen: Env)
    requires Found(env, seen)
    ensures seen.call == env.call
  {
  }

  method CmdDbSize(db: Database<Value>) returns (reply: Reply)
    requires db.Valid()
    ensures reply == Int(|View(db)|)
  {
    hide Database.Valid, HashProofs.Good;
    ViewKeySet(db.State());
    var n := db.DbSize();
    reply := Int(n);
  }

  method CmdFlush(db: Database<Value>) returns (reply: Reply)
    requires db.Valid()
    modifies db.Repr
    ensures db.Valid() && fresh(db.Repr - old(db.Repr)) && Timed.Agree(db.State()) && View(db) == map[] && reply == OK
  {
    hide Database.Valid, HashProofs.Good;
    db.FlushDb();
    reply := OK;
  }

  predicate ContainerCommand(c: Name) {
    c in {LPUSH, RPUSH, LPOP, RPOP, HSET, HDEL, SADD, SREM, ZADD, ZREM, EXPIRE, PEXPIRE, TTL, PTTL}
  }

  method ExecuteContainer(db: Database<Value>, env: Env, level: nat -> nat, now: int, c: Name, a: Command) returns (reply: Reply)
    requires db.Valid() && Timed.Agree(db.State()) && ContainerCommand(c) && Fits(c, |a|) && Levels(level)
    modifies db.Repr
    ensures db.Valid() && fresh(db.Repr - old(db.Repr)) && Timed.Agree(db.State())
    ensures Outcome(View(db), reply) == Exec(env, now, old(View(db)), c, a)
  {
    hide Database.Valid, HashProofs.Good, Timed.Agree, View, Exec, Fits, Levels, PushList, PopList, HSet, HDel, SAdd, SRem, ZAdd, ZRem, ExpireAt, TimeLeft;
    ContainersExec(env, now, View(db), c, a);
    TimesExec(env, now, View(db), c, a);
    match c
    case LPUSH => reply := CmdPush(db, now, a, true);
    case RPUSH => reply := CmdPush(db, now, a, false);
    case LPOP => reply := CmdPop(db, now, a, true);
    case RPOP => reply := CmdPop(db, now, a, false);
    case HSET => reply := CmdHSet(db, now, a);
    case HDEL => reply := CmdHDel(db, now, a);
    case SADD => reply := CmdSAdd(db, now, a);
    case SREM => reply := CmdSRem(db, now, a);
    case ZADD => reply := CmdZAdd(db, env, level, now, a);
    case ZREM => reply := CmdZRem(db, level, now, a);
    case EXPIRE => reply := CmdExpire(db, now, a, 1000);
    case PEXPIRE => reply := CmdExpire(db, now, a, 1);
    case TTL => reply := CmdTtl(db, now, a, 1000);
    case PTTL => reply := CmdTtl(db, now, a, 1);
  }

  method ExecuteReader(db: Database<Value>, env: Env, level: nat -> nat, now: int, c: Name, a: Command) returns (reply: Reply, ghost seen: Env)
    requires db.Valid() && Timed.Agree(db.State()) && Reader(c) && Fits(c, |a|) && Levels(level)
    modifies db.Repr
    ensures db.Valid() && fresh(db.Repr - old(db.Repr)) && Timed.Agree(db.State())
    ensures Found(env, seen) && seen.scan == env.scan && Outcome(View(db), reply) == Exec(seen, now, old(View(db)), c, a)
  {
    hide Database.Valid, HashProofs.Good, Timed.Agree, View, Exec, Fits, Levels, Found, Touch, ReadOne, Upper, Reader;
    ReadersExec(env, now, View(db), c, a);
    if c == ZRANGE && |a| == 5 && Upper(a[4]) != "WITHSCORES" {
      SelfFound(env);
      return Error("ERR syntax error"), env;
    }
    reply, seen := CmdRead(db, env, level, now, c, a);
    ReadersExec(seen, now, old(View(db)), c, a);
  }

  lemma ThreeKinds(c: Name)
    ensures KeysCommand(c) || ContainerCommand(c) || Reader(c)
  {
    match c
    case _ =>
  }

  /** `CommandTable::dispatch` on the database object: for every command, known or not, with the right number of
      words or not, reply and new database are those of the dispatch function, in an environment that differs
      from `env` only in what this call found out. */
  method Execute(db: Database<Value>, env: Env, level: nat -> nat, now: int, a: Command) returns (reply: Reply, ghost seen: Env)
    requires db.Valid() && Timed.Agree(db.State()) && a != [] && Levels(level)
    modifies db.Repr
    ensures db.Valid() && fresh(db.Repr - old(db.Repr)) && Timed.Agree(db.State())
    ensures Found(env, seen) && Outcome(View(db), reply) == Dispatch(seen, now, old(View(db)), a)
    ensures Paged(env, seen, db.table.hash, old(db.table.State()))
  {
    hide Database.Valid, HashProofs.Good, Timed.Agree, View, Exec, Fits, Levels, Found, NameOf, Upper, WrongNumber, UnknownCommand, Tabled;
    seen := env;
    SelfFound(env);
    var c := NameOf(a[0]);
    if c.None? {
      return UnknownCommand(a[0]), seen;
    }
    if !Fits(c.value, |a|) {
      return WrongNumber(Upper(a[0])), seen;
    }
    if KeysCommand(c.value) {
      reply, seen := ExecuteKeys(db, env, now, c.value, a);
    } else if ContainerCommand(c.value) {
      reply := ExecuteContainer(db, env, level, now, c.value, a);
    } else {
      ThreeKinds(c.value);
      reply, seen := ExecuteReader(db, env, level, now, c.value, a);
    }
  }
}
