/** A reachable table on which SCAN loses keys: more than 128 slots, grown in the middle of an iteration. */
module ScanLoss {
  import opened Text
  import opened HashSpec
  import opened HashProofs
  import opened HashScan
  import opened ScanRuns
  import Timed

  // ---------- a batch that does not finish ----------

  /** `n` migrations over occupied slots drain exactly those slots. */
  lemma {:induction false} StepSlots<V>(hash: Hash, s: State<V>, n: nat)
    requires Inv(hash, s) && s.rehashing && s.idx + n < |s.rehash|
    requires forall i :: s.idx <= i <= s.idx + n ==> s.rehash[i] != []
    ensures var s' := RehashStep(hash, s, n);
            && s'.rehashing && |s'.rehash| == |s.rehash|
            && forall j :: s.idx + n <= j < |s.rehash| ==> s'.rehash[j] == s.rehash[j]
    decreases n
  {
    hide Placed, Find, PushAll;
    if n > 0 {
      var m := MigrateOneSlot(hash, s);
      MigrateFirst(hash, s);
      MigrateLaw(hash, s);
      StepSlots(hash, m, n - 1);
    }
  }

  lemma MigrateFirst<V>(hash: Hash, s: State<V>)
    requires Shape(s) && s.rehashing && s.idx + 1 < |s.rehash|
    requires s.rehash[s.idx] != [] && s.rehash[s.idx + 1] != []
    ensures var m := MigrateOneSlot(hash, s);
            m.rehashing && m.idx == s.idx + 1 && m.rehash == s.rehash[s.idx := []]
  {
    hide PushAll, Count;
    assert NextSlot(s.rehash, s.idx) == s.idx;
    var r := s.rehash[s.idx := []];
    CountZero(r);
    assert r[s.idx + 1] != [];
  }

  lemma {:induction false} StopsAtEnd<V>(t: Slots<V>, slot: nat, count: int)
    requires slot <= |t| && count > Count(t[slot..])
    ensures ScanStop(t, slot, count) == |t|
    decreases |t| - slot
  {
    if slot < |t| {
      assert t[slot..][0] == t[slot] && t[slot..][1..] == t[slot + 1..];
      StopsAtEnd(t, slot + 1, count - |t[slot]|);
    }
  }

  lemma {:induction false} CountFrom<V>(t: Slots<V>, slot: nat)
    requires slot <= |t|
    ensures Count(t[slot..]) <= Count(t)
    decreases slot
  {
    if slot == 0 {
      assert t[0..] == t;
    } else {
      CountFrom(t, slot - 1);
      assert t[slot - 1..][1..] == t[slot..];
    }
  }

  /** A table without drain is full and its first 129 slots are occupied. */
  ghost predicate Full<V>(hash: Hash, s: State<V>) {
    && Good(hash, s) && !s.rehashing && |s.primary| > REHASH_BATCH && Size(s) == 2 * |s.primary|
    && forall i :: 0 <= i <= REHASH_BATCH ==> s.primary[i] != []
  }

  lemma GrowsWhenFull<V>(hash: Hash, s: State<V>, x: Bytes, v: V)
    requires Full(hash, s) && Lookup(hash, s, x).None?
    ensures Set(hash, s, x, v) == TriggerRehash(s.(primary := Push(hash, s.primary, Item(x, v, -1))))
  {
    hide Find, Push, Placed, Contents;
    CountEmpty<V>();
    EmptyTable<V>(hash);
    PushLaw(hash, s.primary, Item(x, v, -1));
  }

  /** The batch that `Database::scan` runs leaves every key of the slots from 128 on in the old table. */
  lemma StillOld<V>(hash: Hash, s: State<V>, x: Bytes, v: V, k: Bytes)
    requires Full(hash, s) && Lookup(hash, s, x).None? && Lookup(hash, s, k).Some?
    requires Slot(hash, s.primary, k) >= REHASH_BATCH
    ensures Good(hash, Set(hash, s, x, v))
    ensures var s2 := RehashStep(hash, Set(hash, s, x, v), REHASH_BATCH);
            Good(hash, s2) && |s2.primary| == 2 * |s.primary| && Lookup(hash, s2, k).Some? && Find(hash, s2.primary, k).None?
  {
    hide Placed, Count, Pos, Contents, RehashStep, Set, Loaded, Size;
    var s1 := Set(hash, s, x, v);
    SetRefines(hash, s, x, v);
    SetLaw(hash, s, x, v);
    GrowsWhenFull(hash, s, x, v);
    var s2 := RehashStep(hash, s1, REHASH_BATCH);
    StepRefines(hash, s1, REHASH_BATCH);
    RehashStepLaw(hash, s1, REHASH_BATCH);
    StepSlots(hash, s1, REHASH_BATCH);
    assert Find(hash, s2.rehash, k) == Find(hash, s1.rehash, k);
    AllocLaw<V>(hash, 2 * |s.primary|);
  }

  /** A call that goes on then ends the iteration without any of them. */
  lemma ScanLoses<V>(hash: Hash, s: State<V>, x: Bytes, v: V, cursor: nat, count: nat, k: Bytes)
    requires Full(hash, s) && Lookup(hash, s, x).None? && Lookup(hash, s, k).Some?
    requires Slot(hash, s.primary, k) >= REHASH_BATCH && 0 < cursor < 2 * |s.primary| && count > 4 * |s.primary|
    ensures Good(hash, Set(hash, s, x, v))
    ensures var page := Scan(RehashStep(hash, Set(hash, s, x, v), REHASH_BATCH), cursor, count);
            page.cursor == 0 && k !in page.keys
  {
    hide Placed, Count, Find, Contents, RehashStep, Set, FlatKeys, ScanStop;
    StillOld(hash, s, x, v, k);
    var s2 := RehashStep(hash, Set(hash, s, x, v), REHASH_BATCH);
    LoadBound(hash, s2);
    CountFrom(s2.primary, cursor);
    StopsAtEnd(s2.primary, cursor, count);
    PageHas(hash, s2, cursor, count, k);
  }

  // ---------- such a table is reached by 512 insertions ----------

  /** 512 keys that, under `hash`, hit each of the first 129 of 256 slots. */
  ghost predicate Covers(hash: Hash, ks: seq<Bytes>) {
    && |ks| == 512 && (forall i, j :: 0 <= i < j < |ks| ==> ks[i] != ks[j])
    && (forall i :: 0 <= i <= REHASH_BATCH ==> Hit(hash, ks, i))
  }

  ghost predicate Hit(hash: Hash, ks: seq<Bytes>, i: nat) {
    exists j :: 0 <= j < |ks| && hash(ks[j]) % 256 == i
  }

  /** Insert the first `n` keys. */
  ghost function Filling(ks: seq<Bytes>, n: nat): seq<Op<int>>
    requires n <= |ks|
  {
    seq(n, i requires 0 <= i < n => OpSet(ks[i], 0))
  }

  lemma FillingSnoc(ks: seq<Bytes>, n: nat)
    requires n < |ks|
    ensures |Filling(ks, n + 1)| == n + 1 && Filling(ks, n + 1)[..n] == Filling(ks, n) && Filling(ks, n + 1)[n] == OpSet(ks[n], 0)
  {
  }

  /** The capacity after `n` insertions, and whether the last one has just started a rehash. */
  function Capacity(n: nat): nat {
    if n == 0 then 0 else if n <= 8 then 4 else if n <= 16 then 8 else if n <= 32 then 16
    else if n <= 64 then 32 else if n <= 128 then 64 else if n <= 256 then 128 else 256
  }

  predicate JustGrown(n: nat) {
    n == 9 || n == 17 || n == 33 || n == 65 || n == 129 || n == 257
  }

  /** What inserting a new key does to the capacity while old tables have at most 128 slots. */
  lemma InsertShape<V>(hash: Hash, s: State<V>, k: Bytes, v: V)
    requires Good(hash, s) && |s.rehash| <= REHASH_BATCH && Lookup(hash, s, k).None?
    ensures var s', c := Set(hash, s, k, v), if s.primary == [] then INITIAL_CAPACITY else |s.primary|;
            if Size(s) + 1 > 2 * c then s'.rehashing && |s'.primary| == 2 * c
            else !s'.rehashing && |s'.primary| == c
  {
    hide Find, Contents, RehashStep, Prepare, Push, Placed, Count;
    RehashStepLaw(hash, s, REHASH_BATCH);
    PrepareLaw(hash, s, k);
    PreparedCapacity(hash, s, k);
    var p := Prepare(hash, s, k);
    CountEmpty<V>();
    PushLaw(hash, p.primary, Item(k, v, -1));
  }

  ghost predicate Filled(hash: Hash, ks: seq<Bytes>, n: nat, s: State<int>)
    requires n <= |ks|
  {
    && Good(hash, s) && Size(s) == n
    && |s.primary| == Capacity(n) && s.rehashing == JustGrown(n)
    && (forall k :: Lookup(hash, s, k).Some? <==> k in ks[..n])
    && (forall k :: Lookup(hash, s, k).Some? ==> Lookup(hash, s, k).value.expireAt == -1)
  }

  lemma FillOne(hash: Hash, ks: seq<Bytes>, n: nat, s: State<int>)
    requires Covers(hash, ks) && n < 512 && Filled(hash, ks, n, s)
    ensures Shape(s) && Filled(hash, ks, n + 1, Set(hash, s, ks[n], 0))
  {
    hide Find, Contents, Set, Loaded, Size, Lookup, DeadlineAfterSet, Inv, Hit;
    var k := ks[n];
    assert ks[..n + 1] == ks[..n] + [k] && k !in ks[..n];
    InvOfGood(hash, s);
    InsertShape(hash, s, k, 0);
    SetRefines(hash, s, k, 0);
    SetLaw(hash, s, k, 0);
    DeadlineSurvivesIff(hash, s, k);
  }

  /** Whatever the hash, inserting 512 different keys leads to a table of 256 slots without drain. */
  lemma {:induction false} FilledByRun(hash: Hash, ks: seq<Bytes>, n: nat)
    requires Covers(hash, ks) && n <= 512
    ensures Filled(hash, ks, n, Run(hash, Filling(ks, n)))
  {
    hide Filled, Run, Set, Filling, Good, Hit;
    if n == 0 {
      FilledStart(hash, ks);
    } else {
      FilledByRun(hash, ks, n - 1);
      FillOne(hash, ks, n - 1, Run(hash, Filling(ks, n - 1)));
      RunFilling(hash, ks, n - 1);
    }
  }

  lemma RunFilling(hash: Hash, ks: seq<Bytes>, n: nat)
    requires n < |ks|
    ensures Good(hash, Run(hash, Filling(ks, n)))
    ensures Run(hash, Filling(ks, n + 1)) == Set(hash, Run(hash, Filling(ks, n)), ks[n], 0)
  {
    hide Contents, Set, Loaded, Inv, Filling;
    FillingSnoc(ks, n);
  }

  lemma FilledStart(hash: Hash, ks: seq<Bytes>)
    ensures Filled(hash, ks, 0, Run(hash, Filling(ks, 0)))
  {
    EmptyGood<int>(hash);
    assert ks[..0] == [];
  }

  lemma FullAt512(hash: Hash, ks: seq<Bytes>, s: State<int>)
    requires Covers(hash, ks) && Filled(hash, ks, 512, s)
    ensures Full(hash, s)
  {
    hide Contents, Loaded, Size, Inv, Lookup;
    assert ks[..512] == ks;
    forall i: nat | i <= REHASH_BATCH
      ensures s.primary[i] != []
    {
      assert Hit(hash, ks, i);
      var j :| 0 <= j < |ks| && hash(ks[j]) % 256 == i;
      Occupied(hash, s, ks[j]);
    }
  }

  lemma Occupied(hash: Hash, s: State<int>, k: Bytes)
    requires !s.rehashing && Lookup(hash, s, k).Some?
    ensures s.primary != [] && s.primary[hash(k) % |s.primary|] != []
  {
    hide Pos;
  }

  // ---------- the iteration that loses keys ----------

  lemma {:induction false} NothingDue<V>(hash: Hash, s: State<V>, now: int, raw: seq<Bytes>)
    requires Good(hash, s)
    requires forall k :: Lookup(hash, s, k).Some? ==> Lookup(hash, s, k).value.expireAt == -1
    ensures Collected(hash, s, now, raw) == s
    decreases |raw|
  {
    hide Lookup, Good;
    if raw != [] { NothingDue(hash, s, now, raw[..|raw| - 1]); }
  }

  lemma FirstPage(hash: Hash, ks: seq<Bytes>, s: State<int>, k: Bytes)
    requires Covers(hash, ks) && Filled(hash, ks, 512, s) && Lookup(hash, s, k).Some? && hash(k) % 256 >= REHASH_BATCH
    ensures var it := DbAdvance(hash, Begin(s), "*", ScanCall(0, 1));
            it.s == s && it.cursor == 1 && !it.done && k !in it.seen
  {
    hide Find, Contents, Placed, FlatKeys, Lookup, Loaded, Size, Good, Timed.Shown;
    InvOfGood(hash, s);
    FullAt512(hash, ks, s);
    PageHas(hash, s, 0, 1, k);
    var page := Scan(s, 0, 1);
    NothingDue(hash, s, 0, page.keys);
    Timed.ShownIff(Contents(hash, s), 0, page.keys, "*", k);
    BoundInPrimary(hash, s, k);
  }

  lemma BoundInPrimary(hash: Hash, s: State<int>, k: Bytes)
    requires !s.rehashing && Lookup(hash, s, k).Some?
    ensures Find(hash, s.primary, k).Some?
  {
  }

  /** Whatever the hash: 512 keys that cover the first slots; a first page of one slot; a 513th key; then a page that asks
      for more than there is.  The cursor is back at 0, and no key of the slots from 128 on has been returned although
      all were bound all the time. */
  lemma LostKey(hash: Hash, ks: seq<Bytes>, x: Bytes, k: Bytes)
    requires Covers(hash, ks) && x !in ks && k in ks && hash(k) % 256 >= REHASH_BATCH
    ensures var s := Run(hash, Filling(ks, 512));
            var es := [ScanCall(0, 1), Work(OpSet(x, 0)), ScanCall(0, 2000)];
            && DbAdvanceAll(hash, Begin(s), "*", es).done && k !in DbAdvanceAll(hash, Begin(s), "*", es).seen
            && (forall i :: 0 <= i <= |es| ==> Lookup(hash, DbAdvanceAll(hash, Begin(s), "*", es[..i]).s, k).Some?)
  {
    hide Run, Filling, Set, RehashStep, Scan, Find, Contents, Good, Lookup, Timed.Shown, DbAdvance, Hit;
    var s := Run(hash, Filling(ks, 512));
    FilledByRun(hash, ks, 512);
    assert ks[..512] == ks;
    FullAt512(hash, ks, s);
    FirstPage(hash, ks, s, k);
    SecondPart(hash, ks, s, k, x);
    var e1: DbEvent<int>, e2: DbEvent<int>, e3: DbEvent<int> := ScanCall(0, 1), Work(OpSet(x, 0)), ScanCall(0, 2000);
    Prefixes(hash, Begin(s), e1, e2, e3);
  }

  /** There are such hashes and keys: keys of lengths 0 to 511, told apart by their lengths. */
  lemma SomeCover()
    ensures Covers((k: Bytes) => |k|, seq(512, i requires 0 <= i < 512 => seq(i, _ => 'a')))
  {
    var hash: Hash := (k: Bytes) => |k|;
    var ks: seq<Bytes> := seq(512, i requires 0 <= i < 512 => seq(i, _ => 'a'));
    assert forall i :: 0 <= i < 512 ==> |ks[i]| == i;
    forall i: nat | i <= REHASH_BATCH
      ensures Hit(hash, ks, i)
    {
      assert hash(ks[i]) % 256 == i;
    }
  }

  lemma Prefixes(hash: Hash, it: Iteration<int>, e1: DbEvent<int>, e2: DbEvent<int>, e3: DbEvent<int>)
    requires Good(hash, it.s)
    ensures var i1 := DbAdvance(hash, it, "*", e1);
            var i2 := DbAdvance(hash, i1, "*", e2);
            var i3 := DbAdvance(hash, i2, "*", e3);
            var es := [e1, e2, e3];
            && DbAdvanceAll(hash, it, "*", es[..0]) == it && DbAdvanceAll(hash, it, "*", es[..1]) == i1
            && DbAdvanceAll(hash, it, "*", es[..2]) == i2 && DbAdvanceAll(hash, it, "*", es[..3]) == i3
            && DbAdvanceAll(hash, it, "*", es) == i3
  {
    hide DbAdvance, DbAdvanceAll, Good;
    var es := [e1, e2, e3];
    var i1 := DbAdvance(hash, it, "*", e1);
    var i2 := DbAdvance(hash, i1, "*", e2);
    assert es[..0] == [] && es[..1] == [e1] + [] && es[..2] == [e1] + [e2] && es[..3] == es && es == [e1] + [e2, e3];
    AdvanceCons(hash, it, e1, []);
    AdvanceCons(hash, it, e1, [e2]);
    AdvanceCons(hash, it, e1, [e2, e3]);
    assert [e2, e3] == [e2] + [e3] && [e2] == [e2] + [] && [e3] == [e3] + [];
    AdvanceCons(hash, i1, e2, []);
    AdvanceCons(hash, i1, e2, [e3]);
    AdvanceCons(hash, i2, e3, []);
  }

  lemma AdvanceCons(hash: Hash, it: Iteration<int>, e: DbEvent<int>, rest: seq<DbEvent<int>>)
    requires Good(hash, it.s)
    ensures DbAdvanceAll(hash, it, "*", []) == it
    ensures DbAdvanceAll(hash, DbAdvance(hash, it, "*", e), "*", []) == DbAdvance(hash, it, "*", e)
    ensures DbAdvanceAll(hash, it, "*", [e] + rest) == DbAdvanceAll(hash, DbAdvance(hash, it, "*", e), "*", rest)
  {
    hide DbAdvance, Good;
    assert ([e] + rest)[1..] == rest;
  }

  lemma SecondPart(hash: Hash, ks: seq<Bytes>, s: State<int>, k: Bytes, x: Bytes)
    requires Covers(hash, ks) && Filled(hash, ks, 512, s) && Lookup(hash, s, k).Some? && hash(k) % 256 >= REHASH_BATCH && Lookup(hash, s, x).None?
    ensures var i1 := DbAdvance(hash, Begin(s), "*", ScanCall(0, 1));
            var i2 := DbAdvance(hash, i1, "*", Work(OpSet(x, 0)));
            var i3 := DbAdvance(hash, i2, "*", ScanCall(0, 2000));
            && Lookup(hash, i1.s, k).Some? && Lookup(hash, i2.s, k).Some? && Lookup(hash, i3.s, k).Some?
            && i3.done && k !in i3.seen
  {
    hide Set, RehashStep, Scan, Find, Contents, Good, Lookup, Timed.Shown, Loaded, Size;
    FirstPage(hash, ks, s, k);
    FullAt512(hash, ks, s);
    InvOfGood(hash, s);
    SetLaw(hash, s, x, 0);
    SetRefines(hash, s, x, 0);
    var s1 := Set(hash, s, x, 0);
    DeadlineSurvivesIff(hash, s, x);
    InvOfGood(hash, s1);
    RehashStepLaw(hash, s1, REHASH_BATCH);
    StepRefines(hash, s1, REHASH_BATCH);
    var s2 := RehashStep(hash, s1, REHASH_BATCH);
    ScanLoses(hash, s, x, 0, 1, 2000, k);
    var page := Scan(s2, 1, 2000);
    NothingDue(hash, s2, 0, page.keys);
    Timed.ShownIff(Contents(hash, s2), 0, page.keys, "*", k);
  }

  // ---------- a deadline that `set` resets ----------

  lemma PutKeepsOccupied<V>(hash: Hash, t: Slots<V>, it: Item<V>, i: nat)
    requires i < |t| && t[i] != []
    ensures Put(hash, t, it)[i] != []
  {
  }

  /** On the table that has just grown, a key of a slot from 128 on is given a deadline and then set again:
      its entry is still in the old table after the batch, so the deadline is gone. */
  lemma DeadlineLost(hash: Hash, ks: seq<Bytes>, s: State<int>, x: Bytes, k: Bytes, at: int)
    requires Covers(hash, ks) && Filled(hash, ks, 512, s) && at >= 0
    requires Lookup(hash, s, x).None? && Lookup(hash, s, k).Some? && hash(k) % 256 >= REHASH_BATCH
    ensures Good(hash, Set(hash, s, x, 0))
    ensures var s2 := Apply(hash, Set(hash, s, x, 0), OpWrite(Item(k, 0, at)));
            && Good(hash, s2) && Lookup(hash, s2, k) == Some(Item(k, 0, at))
            && Lookup(hash, Set(hash, s2, k, 1), k) == Some(Item(k, 1, -1))
  {
    hide Set, Contents, Good, Inv, Find, Modify, DeadlineAfterSet, Lookup;
    InvOfGood(hash, s);
    JustGrownShape(hash, ks, s, x, k);
    var s1, it := Set(hash, s, x, 0), Item(k, 0, at);
    InvOfGood(hash, s1);
    WriteRefines(hash, s1, it);
    ModifyLaw(hash, s1, it);
    StaysOld(hash, s1, it);
    SetLaw(hash, Apply(hash, s1, OpWrite(it)), k, 1);
  }

  lemma JustGrownShape(hash: Hash, ks: seq<Bytes>, s: State<int>, x: Bytes, k: Bytes)
    requires Covers(hash, ks) && Filled(hash, ks, 512, s) && Lookup(hash, s, x).None? && Lookup(hash, s, k).Some?
    ensures var s1 := Set(hash, s, x, 0);
            && Good(hash, s1) && s1.rehashing && |s1.rehash| == 256 && s1.idx == 0
            && (forall i :: 0 <= i <= REHASH_BATCH ==> s1.rehash[i] != [])
            && Lookup(hash, s1, k).Some? && Find(hash, s1.primary, k).None? && Find(hash, s1.rehash, k).Some?
  {
    hide Set, Contents, Good, Loaded, Size, Placed, Pos, Count, Find;
    FullAt512(hash, ks, s);
    InvOfGood(hash, s);
    SetRefines(hash, s, x, 0);
    SetLaw(hash, s, x, 0);
    GrowsWhenFull(hash, s, x, 0);
    AllocLaw<int>(hash, 512);
  }

  lemma StaysOld(hash: Hash, s1: State<int>, it: Item<int>)
    requires Inv(hash, s1) && s1.rehashing && |s1.rehash| == 256 && s1.idx == 0
    requires forall i :: 0 <= i <= REHASH_BATCH ==> s1.rehash[i] != []
    requires Find(hash, s1.primary, it.key).None? && Find(hash, s1.rehash, it.key).Some? && hash(it.key) % 256 >= REHASH_BATCH
    ensures var s2 := Modify(hash, s1, it);
            Inv(hash, s2) && DeadlineAfterSet(hash, s2, it.key) == -1
  {
    hide Placed, Put, Pos, RehashStep, Count;
    ModifyLaw(hash, s1, it);
    var s2 := Modify(hash, s1, it);
    PutLaw(hash, s1.rehash, it);
    forall i | 0 <= i <= REHASH_BATCH
      ensures s2.rehash[i] != []
    {
      PutKeepsOccupied(hash, s1.rehash, it, i);
    }
    StepSlots(hash, s2, REHASH_BATCH);
    RehashStepLaw(hash, s2, REHASH_BATCH);
    var s3 := RehashStep(hash, s2, REHASH_BATCH);
    assert Find(hash, s3.rehash, it.key) == Find(hash, s2.rehash, it.key);
  }
}
