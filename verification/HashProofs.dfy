/** Laws of the incremental hash table: it is one finite map, its load is bounded, and draining ends. */
module HashProofs {
  import opened Text
  import opened HashSpec

  // ---------- chains ----------

  lemma {:induction false} InChainIff<V>(c: seq<Item<V>>, k: Bytes)
    ensures InChain(c, k).Some? <==> exists j :: 0 <= j < |c| && c[j].key == k
  {
  }

  ghost predicate Distinct<V>(c: seq<Item<V>>) {
    forall j, l :: 0 <= j < l < |c| ==> c[j].key != c[l].key
  }

  lemma InChainAt<V>(c: seq<Item<V>>, j: nat)
    requires Distinct(c) && j < |c|
    ensures InChain(c, c[j].key) == Some(c[j])
  {
  }

  lemma InChainCons<V>(it: Item<V>, c: seq<Item<V>>, k: Bytes)
    ensures InChain([it] + c, k) == if k == it.key then Some(it) else InChain(c, k)
  {
    assert ([it] + c)[1..] == c;
  }

  lemma InChainTail<V>(c: seq<Item<V>>, k: Bytes)
    requires c != []
    ensures InChain(c, k) == if k == c[0].key then Some(c[0]) else InChain(c[1..], k)
  {
    assert [c[0]] + c[1..] == c;
    InChainCons(c[0], c[1..], k);
  }

  lemma WithoutDistinct<V>(c: seq<Item<V>>, k: Bytes)
    requires Distinct(c)
    ensures Distinct(Without(c, k))
    ensures |Without(c, k)| == |c| - (if InChain(c, k).Some? then 1 else 0)
  {
    hide Pos;
  }

  lemma InChainWithout<V>(c: seq<Item<V>>, k: Bytes, k': Bytes)
    requires Distinct(c)
    ensures InChain(Without(c, k), k') == if k' == k then None else InChain(c, k')
  {
    hide Pos;
    WithoutDistinct(c, k);
    var d := Without(c, k);
    var n, m := Pos(c, k), Pos(c, k');
    if n < |c| {
      if m < |c| && k' != k {
        var m' := if m < n then m else m - 1;
        assert d[m'] == c[m];
        InChainAt(d, m');
      } else {
        forall j | 0 <= j < |d|
          ensures d[j].key != k'
        {
          assert d[j] == c[if j < n then j else j + 1];
        }
      }
    }
  }

  lemma InChainReplace<V>(c: seq<Item<V>>, it: Item<V>, k: Bytes)
    requires Distinct(c) && Pos(c, it.key) < |c|
    ensures var d := c[Pos(c, it.key) := it];
            Distinct(d) && InChain(d, k) == if k == it.key then Some(it) else InChain(c, k)
  {
    var d := c[Pos(c, it.key) := it];
    if Pos(c, k) < |c| {
      assert d[Pos(c, k)].key == k;
      InChainAt(d, Pos(c, k));
    } else {
      InChainIff(c, k);
      InChainIff(d, k);
    }
  }

  // ---------- one table ----------

  lemma {:induction false} CountReplace<V>(t: Slots<V>, i: nat, c: seq<Item<V>>)
    requires i < |t|
    ensures Count(t[i := c]) == Count(t) - |t[i]| + |c|
  {
    if i == 0 {
      assert t[0 := c][1..] == t[1..];
    } else {
      assert t[i := c][1..] == t[1..][i - 1 := c];
      CountReplace(t[1..], i - 1, c);
    }
  }

  /** Replacing the chain of slot `i` by one that still belongs there. */
  lemma ReplaceSlot<V>(hash: Hash, t: Slots<V>, i: nat, c: seq<Item<V>>)
    requires i < |t| && Placed(hash, t) && Distinct(c)
    requires forall j :: 0 <= j < |c| ==> Slot(hash, t, c[j].key) == i
    ensures Placed(hash, t[i := c])
    ensures forall k :: Find(hash, t[i := c], k) == if Slot(hash, t, k) == i then InChain(c, k) else Find(hash, t, k)
    ensures Count(t[i := c]) == Count(t) - |t[i]| + |c|
  {
    hide Pos;
    CountReplace(t, i, c);
    var u: Slots<V> := t[i := c];
    forall a: nat, j: nat | 0 <= a < |u| && 0 <= j < |u[a]|
      ensures Slot(hash, u, u[a][j].key) == a
    {
      assert Slot(hash, u, u[a][j].key) == Slot(hash, t, u[a][j].key);
    }
  }

  lemma PushLaw<V>(hash: Hash, t: Slots<V>, it: Item<V>)
    requires t != [] && Placed(hash, t) && Find(hash, t, it.key).None?
    ensures Placed(hash, Push(hash, t, it)) && Count(Push(hash, t, it)) == Count(t) + 1
    ensures forall k :: Find(hash, Push(hash, t, it), k) == if k == it.key then Some(it) else Find(hash, t, k)
  {
    hide Pos;
    var i := Slot(hash, t, it.key);
    var c := [it] + t[i];
    assert Distinct(c) by {
      forall j | 0 <= j < |t[i]|
        ensures t[i][j].key != it.key
      {
        InChainIff(t[i], t[i][j].key);
      }
    }
    ReplaceSlot(hash, t, i, c);
    forall k { InChainCons(it, t[i], k); }
  }

  lemma DelLaw<V>(hash: Hash, t: Slots<V>, k: Bytes)
    requires Placed(hash, t)
    ensures Placed(hash, DelFrom(hash, t, k))
    ensures Count(DelFrom(hash, t, k)) == Count(t) - (if Find(hash, t, k).Some? then 1 else 0)
    ensures forall k' :: Find(hash, DelFrom(hash, t, k), k') == if k' == k then None else Find(hash, t, k')
  {
    hide Pos;
    if t != [] {
      var i := Slot(hash, t, k);
      forall k' ensures InChain(Without(t[i], k), k') == if k' == k then None else InChain(t[i], k')
      {
        InChainWithout(t[i], k, k');
      }
      WithoutDistinct(t[i], k);
      WithoutSubset(t[i], k);
      ReplaceSlot(hash, t, i, Without(t[i], k));
    }
  }

  lemma WithoutSubset<V>(c: seq<Item<V>>, k: Bytes)
    ensures forall j :: 0 <= j < |Without(c, k)| ==> Without(c, k)[j] in c
  {
    hide Pos;
  }

  lemma PutLaw<V>(hash: Hash, t: Slots<V>, it: Item<V>)
    requires Placed(hash, t) && Find(hash, t, it.key).Some?
    ensures Placed(hash, Put(hash, t, it)) && Count(Put(hash, t, it)) == Count(t)
    ensures forall k :: Find(hash, Put(hash, t, it), k) == if k == it.key then Some(it) else Find(hash, t, k)
  {
    hide Pos;
    var i := Slot(hash, t, it.key);
    forall k
      ensures InChain(t[i][Pos(t[i], it.key) := it], k) == if k == it.key then Some(it) else InChain(t[i], k)
    {
      InChainReplace(t[i], it, k);
    }
    InChainReplace(t[i], it, it.key);
    ReplaceSlot(hash, t, i, t[i][Pos(t[i], it.key) := it]);
  }

  lemma {:induction false} PushAllLaw<V>(hash: Hash, t: Slots<V>, c: seq<Item<V>>)
    requires t != [] && Placed(hash, t) && Distinct(c)
    requires forall j :: 0 <= j < |c| ==> Find(hash, t, c[j].key).None?
    ensures Placed(hash, PushAll(hash, t, c)) && Count(PushAll(hash, t, c)) == Count(t) + |c|
    ensures forall k :: Find(hash, PushAll(hash, t, c), k) ==
              if InChain(c, k).Some? then InChain(c, k) else Find(hash, t, k)
    decreases |c|
  {
    hide Pos, Push, Find, Placed, Count, InChain;
    if c != [] {
      PushLaw(hash, t, c[0]);
      PushAllLaw(hash, Push(hash, t, c[0]), c[1..]);
      forall k { InChainTail(c, k); }
      NotInTail(c);
    } else {
      forall k { InChainIff(c, k); }
    }
  }

  lemma NotInTail<V>(c: seq<Item<V>>)
    requires c != [] && Distinct(c)
    ensures InChain(c[1..], c[0].key).None?
  {
    InChainIff(c[1..], c[0].key);
  }

  // ---------- migration ----------

  /** One migration keeps the invariant, every lookup and the total size. */
  lemma MigrateLaw<V>(hash: Hash, s: State<V>)
    requires Inv(hash, s) && s.rehashing
    ensures Inv(hash, MigrateOneSlot(hash, s))
    ensures forall k :: Lookup(hash, MigrateOneSlot(hash, s), k) == Lookup(hash, s, k)
    ensures Size(MigrateOneSlot(hash, s)) == Size(s)
  {
    hide Find, Placed, InChain, Count, PushAll;
    ShapeMigrates(hash, s);
    var i := NextSlot(s.rehash, s.idx);
    if i < |s.rehash| {
      var c := s.rehash[i];
      ChainLeaves(hash, s.rehash, i);
      forall j | 0 <= j < |c|
        ensures Find(hash, s.primary, c[j].key).None?
      {
        FindAt(hash, s.rehash, i, j);
      }
      PushAllLaw(hash, s.primary, c);
      CountZeroFind(hash, s.rehash[i := []]);
    } else {
      CountZero(s.rehash);
      CountZeroFind(hash, s.rehash);
      EmptyTable<V>(hash);
    }
    EmptyTable<V>(hash);
  }

  lemma EmptyTable<V>(hash: Hash)
    ensures Placed<V>(hash, []) && Count<V>([]) == 0
    ensures forall k :: Find<V>(hash, [], k).None?
  {
  }

  lemma FindAt<V>(hash: Hash, t: Slots<V>, i: nat, j: nat)
    requires Placed(hash, t) && i < |t| && j < |t[i]|
    ensures Find(hash, t, t[i][j].key) == Some(t[i][j])
  {
    hide Pos;
    InChainAt(t[i], j);
  }

  lemma CountZeroFind<V>(hash: Hash, t: Slots<V>)
    ensures Count(t) == 0 ==> forall k :: Find(hash, t, k).None?
  {
    CountZero(t);
  }

  /** Taking a whole chain out of its slot removes exactly its keys. */
  lemma ChainLeaves<V>(hash: Hash, t: Slots<V>, i: nat)
    requires Placed(hash, t) && i < |t|
    ensures Distinct(t[i]) && Placed(hash, t[i := []]) && Count(t[i := []]) == Count(t) - |t[i]|
    ensures forall k :: Find(hash, t, k) == if InChain(t[i], k).Some? then InChain(t[i], k) else Find(hash, t[i := []], k)
    ensures forall k :: InChain(t[i], k).Some? ==> Find(hash, t[i := []], k).None?
  {
    hide Pos;
    ReplaceSlot(hash, t, i, []);
    forall k
      ensures InChain(t[i], k).Some? ==> Slot(hash, t, k) == i
    {
      InChainIff(t[i], k);
    }
  }

  /** Any number of migrations keeps the invariant, every lookup and the size, and either ends the
      drain or passes at least one slot per migration. */
  lemma {:induction false} RehashStepLaw<V>(hash: Hash, s: State<V>, n: int)
    requires Inv(hash, s)
    ensures var s' := RehashStep(hash, s, n);
            && Inv(hash, s') && Size(s') == Size(s) && |s'.primary| == |s.primary|
            && (forall k :: Lookup(hash, s', k) == Lookup(hash, s, k))
            && (s'.rehashing ==> s.rehashing && |s'.rehash| == |s.rehash| && s'.idx >= s.idx + n)
            && (n <= 0 ==> s' == s)
    decreases n
  {
    hide Inv, Size, Lookup, MigrateOneSlot;
    if n > 0 && s.rehashing {
      assert Shape(s) by { ShapeOf(hash, s); }
      MigrateLaw(hash, s);
      ShapeMigrates(hash, s);
      RehashStepLaw(hash, MigrateOneSlot(hash, s), n - 1);
    }
    assert Shape(s) by { ShapeOf(hash, s); }
  }

  lemma ShapeOf<V>(hash: Hash, s: State<V>)
    requires Inv(hash, s)
    ensures Shape(s)
  {
  }

  // ---------- the operations ----------

  /** The deadline `set` leaves on `k`: kept when the entry is already in the primary table, reset
      otherwise. */
  function DeadlineAfterSet<V>(hash: Hash, s: State<V>, k: Bytes): int
    requires Shape(s)
  {
    var p := Find(hash, RehashStep(hash, s, REHASH_BATCH).primary, k);
    if p.Some? then p.value.expireAt else -1
  }

  /** A key that is absent, or still in the old table after the batch, gets no deadline; the deadline of
      an existing key survives if and only if the batch has brought it to the primary table (or it had
      none). */
  lemma DeadlineSurvivesIff<V>(hash: Hash, s: State<V>, k: Bytes)
    requires Inv(hash, s)
    ensures Lookup(hash, s, k).None? ==> DeadlineAfterSet(hash, s, k) == -1
    ensures Lookup(hash, s, k).Some? ==>
              var d := Lookup(hash, s, k).value.expireAt;
              DeadlineAfterSet(hash, s, k) == d <==>
                d == -1 || Find(hash, RehashStep(hash, s, REHASH_BATCH).primary, k).Some?
  {
    hide Find, Inv, RehashStep;
    ShapeOf(hash, s);
    RehashStepLaw(hash, s, REHASH_BATCH);
  }

  lemma AllocLaw<V>(hash: Hash, capacity: nat)
    ensures Placed<V>(hash, Alloc(capacity)) && Count<V>(Alloc(capacity)) == 0
    ensures forall k :: Find<V>(hash, Alloc(capacity), k).None?
  {
    CountZero<V>(Alloc(capacity));
  }

  lemma DelKeepsEmpty<V>(hash: Hash, t: Slots<V>, k: Bytes, i: nat)
    requires i < |t| && t[i] == []
    ensures DelFrom(hash, t, k)[i] == []
  {
  }

  lemma PrepareLaw<V>(hash: Hash, s: State<V>, k: Bytes)
    requires Inv(hash, s)
    ensures var s1 := RehashStep(hash, s, REHASH_BATCH);
            var s' := Prepare(hash, s, k);
            && Inv(hash, s') && s'.primary != [] && Find(hash, s'.rehash, k).None?
            && Find(hash, s'.primary, k) == Find(hash, s1.primary, k)
            && (forall k' :: k' != k ==> Lookup(hash, s', k') == Lookup(hash, s, k'))
            && s'.rehashing == s1.rehashing && s'.idx == s1.idx && |s'.rehash| == |s1.rehash|
            && (s1.primary != [] ==> |s'.primary| == |s.primary|)
            && (Lookup(hash, s, k).None? ==> Size(s') == Size(s) && Find(hash, s'.primary, k).None?)
            && (Lookup(hash, s, k).Some? ==> Size(s') + (if Find(hash, s'.primary, k).None? then 1 else 0) == Size(s))
  {
    hide Find, Placed, Count, RehashStep, DelFrom;
    RehashStepLaw(hash, s, REHASH_BATCH);
    EmptyTable<V>(hash);
    AllocLaw<V>(hash, INITIAL_CAPACITY);
    assert PowerOfTwo(2) && PowerOfTwo(4);
    var s1 := RehashStep(hash, s, REHASH_BATCH);
    if s1.rehashing {
      DelLaw(hash, s1.rehash, k);
      forall i | 0 <= i < s1.idx
        ensures DelFrom(hash, s1.rehash, k)[i] == []
      {
        DelKeepsEmpty(hash, s1.rehash, k, i);
      }
    }
  }

  lemma StoreLaw<V>(hash: Hash, s: State<V>, k: Bytes, v: V)
    requires Inv(hash, s) && s.primary != [] && Find(hash, s.rehash, k).None?
    ensures var p := Find(hash, s.primary, k);
            var s' := Store(hash, s, k, v);
            && Inv(hash, s')
            && (forall k' :: k' != k ==> Lookup(hash, s', k') == Lookup(hash, s, k'))
            && Lookup(hash, s', k) == Some(Item(k, v, if p.Some? then p.value.expireAt else -1))
            && Size(s') == Size(s) + (if p.None? then 1 else 0)
  {
    hide Find, Placed, Count, Push, Put;
    var p := Find(hash, s.primary, k);
    if p.Some? {
      PutLaw(hash, s.primary, Item(k, v, p.value.expireAt));
    } else {
      PushLaw(hash, s.primary, Item(k, v, -1));
      AllocLaw<V>(hash, 2 * |s.primary|);
      assert PowerOfTwo(2 * |s.primary|);
    }
    EmptyTable<V>(hash);
  }

  /** `set` binds `k` and touches no other key; the size grows exactly when `k` is new. */
  lemma SetLaw<V>(hash: Hash, s: State<V>, k: Bytes, v: V)
    requires Inv(hash, s)
    ensures var s' := Set(hash, s, k, v);
            && Inv(hash, s')
            && (forall k' :: k' != k ==> Lookup(hash, s', k') == Lookup(hash, s, k'))
            && Lookup(hash, s', k) == Some(Item(k, v, DeadlineAfterSet(hash, s, k)))
            && Size(s') == Size(s) + (if Lookup(hash, s, k).None? then 1 else 0)
  {
    hide Find, Inv, Size, RehashStep, Prepare, Store, Lookup;
    ShapeOf(hash, s);
    PrepareLaw(hash, s, k);
    StoreLaw(hash, Prepare(hash, s, k), k, v);
  }

  /** `del` unbinds `k` and touches no other key; the size shrinks exactly when `k` was bound. */
  lemma DelStateLaw<V>(hash: Hash, s: State<V>, k: Bytes)
    requires Inv(hash, s)
    ensures var s' := Del(hash, s, k);
            && Inv(hash, s')
            && (forall k' :: k' != k ==> Lookup(hash, s', k') == Lookup(hash, s, k'))
            && Lookup(hash, s', k).None?
            && Size(s') == Size(s) - (if Lookup(hash, s, k).Some? then 1 else 0)
  {
    hide Find, Placed, Count, RehashStep, DelFrom;
    RehashStepLaw(hash, s, REHASH_BATCH);
    var s1 := RehashStep(hash, s, REHASH_BATCH);
    DelLaw(hash, s1.primary, k);
    DelLaw(hash, s1.rehash, k);
    forall i | 0 <= i < s1.idx
      ensures DelFrom(hash, s1.rehash, k)[i] == []
    {
      DelKeepsEmpty(hash, s1.rehash, k, i);
    }
    EmptyTable<V>(hash);
  }

  lemma PutKeepsEmpty<V>(hash: Hash, t: Slots<V>, it: Item<V>, i: nat)
    requires i < |t| && t[i] == []
    ensures Put(hash, t, it)[i] == []
  {
  }

  /** Writing through a found entry changes that key only. */
  lemma ModifyLaw<V>(hash: Hash, s: State<V>, it: Item<V>)
    requires Inv(hash, s) && Lookup(hash, s, it.key).Some?
    ensures var s' := Modify(hash, s, it);
            && Inv(hash, s')
            && (forall k' :: k' != it.key ==> Lookup(hash, s', k') == Lookup(hash, s, k'))
            && Lookup(hash, s', it.key) == Some(it)
            && Size(s') == Size(s) && (Loaded(s) ==> Loaded(s'))
  {
    hide Find, Placed, Count, Put;
    if Find(hash, s.primary, it.key).Some? {
      PutLaw(hash, s.primary, it);
    } else {
      PutLaw(hash, s.rehash, it);
      forall i | 0 <= i < s.idx
        ensures Put(hash, s.rehash, it)[i] == []
      {
        PutKeepsEmpty(hash, s.rehash, it, i);
      }
    }
  }

  // ---------- load and progress ----------

  lemma RehashStepKeepsLoad<V>(hash: Hash, s: State<V>, n: int)
    requires Inv(hash, s) && Loaded(s)
    ensures Loaded(RehashStep(hash, s, n))
  {
    hide Inv, Size, RehashStep, Lookup;
    RehashStepLaw(hash, s, n);
    ShapeOf(hash, s);
    ShapeOf(hash, RehashStep(hash, s, n));
  }

  /** A `set` adds at most one entry, and pays for it with 128 slots of draining. */
  lemma SetKeepsLoad<V>(hash: Hash, s: State<V>, k: Bytes, v: V)
    requires Inv(hash, s) && Loaded(s)
    ensures Loaded(Set(hash, s, k, v))
  {
    hide Find, Inv, RehashStep, Prepare, Lookup, Push, Put, Count;
    ShapeOf(hash, s);
    RehashStepLaw(hash, s, REHASH_BATCH);
    PrepareLaw(hash, s, k);
    var p := Prepare(hash, s, k);
    ShapeOf(hash, p);
    StoreLaw(hash, p, k, v);
    AllocLaw<V>(hash, 2 * |p.primary|);
    CountEmpty<V>();
  }

  lemma CountEmpty<V>()
    ensures Count<V>([]) == 0
  {
  }

  lemma DelKeepsLoad<V>(hash: Hash, s: State<V>, k: Bytes)
    requires Inv(hash, s) && Loaded(s)
    ensures Loaded(Del(hash, s, k))
  {
    hide Find, Inv, RehashStep, Lookup, DelFrom, Size;
    ShapeOf(hash, s);
    RehashStepKeepsLoad(hash, s, REHASH_BATCH);
    RehashStepLaw(hash, s, REHASH_BATCH);
    DelStateLaw(hash, s, k);
  }

  /** Even in the middle of a drain there are at most two entries per slot of the primary table. */
  lemma LoadBound<V>(hash: Hash, s: State<V>)
    requires Inv(hash, s) && Loaded(s) && s.primary != []
    ensures Size(s) <= 2 * |s.primary|
    ensures s.rehashing ==> s.idx < |s.rehash|
  {
  }

  // ---------- one finite map ----------

  lemma FindHasKey<V>(hash: Hash, t: Slots<V>, k: Bytes)
    requires Find(hash, t, k).Some?
    ensures k in KeysOf(t) && Find(hash, t, k).value.key == k
  {
    hide Pos;
    var i := Slot(hash, t, k);
    var j := Pos(t[i], k);
    assert t[i][j].key == k;
  }

  /** The map a state stands for is given by its lookups. */
  lemma ContentsAt<V>(hash: Hash, s: State<V>)
    ensures forall k :: k in Contents(hash, s) <==> Lookup(hash, s, k).Some?
    ensures forall k :: k in Contents(hash, s) ==>
              Contents(hash, s)[k] == Lookup(hash, s, k).value && Contents(hash, s)[k].key == k
  {
    hide Find, KeysOf;
    forall k | Lookup(hash, s, k).Some?
      ensures k in KeysOf(s.primary) + KeysOf(s.rehash) && Lookup(hash, s, k).value.key == k
    {
      if Find(hash, s.primary, k).Some? {
        FindHasKey(hash, s.primary, k);
      } else {
        FindHasKey(hash, s.rehash, k);
      }
    }
  }

  lemma SetContents<V>(hash: Hash, s: State<V>, k: Bytes, v: V)
    requires Inv(hash, s)
    ensures Contents(hash, Set(hash, s, k, v)) == Contents(hash, s)[k := Item(k, v, DeadlineAfterSet(hash, s, k))]
  {
    hide Set, Lookup, Contents, DeadlineAfterSet, Inv;
    ShapeOf(hash, s);
    SetLaw(hash, s, k, v);
    ContentsAt(hash, s);
    ContentsAt(hash, Set(hash, s, k, v));
  }

  lemma DelContents<V>(hash: Hash, s: State<V>, k: Bytes)
    requires Inv(hash, s)
    ensures Contents(hash, Del(hash, s, k)) == Contents(hash, s) - {k}
  {
    hide Del, Lookup, Contents, Inv;
    ShapeOf(hash, s);
    DelStateLaw(hash, s, k);
    ContentsAt(hash, s);
    ContentsAt(hash, Del(hash, s, k));
  }

  lemma RehashStepContents<V>(hash: Hash, s: State<V>, n: int)
    requires Inv(hash, s)
    ensures Contents(hash, RehashStep(hash, s, n)) == Contents(hash, s)
  {
    hide RehashStep, Lookup, Contents, Inv;
    ShapeOf(hash, s);
    RehashStepLaw(hash, s, n);
    ContentsAt(hash, s);
    ContentsAt(hash, RehashStep(hash, s, n));
  }

  lemma ModifyContents<V>(hash: Hash, s: State<V>, it: Item<V>)
    requires Inv(hash, s) && Lookup(hash, s, it.key).Some?
    ensures Contents(hash, Modify(hash, s, it)) == Contents(hash, s)[it.key := it]
  {
    hide Modify, Lookup, Contents, Inv;
    ModifyLaw(hash, s, it);
    ContentsAt(hash, s);
    ContentsAt(hash, Modify(hash, s, it));
  }

  // ---------- runs ----------

  /** `OpWrite` is a write of value and deadline through the entry that a lookup returned. */
  datatype Op<V> = OpSet(k: Bytes, v: V) | OpDel(k: Bytes) | OpStep(n: int) | OpWrite(it: Item<V>) | OpFlush

  function Apply<V>(hash: Hash, s: State<V>, op: Op<V>): State<V>
    requires Shape(s)
  {
    match op
    case OpSet(k, v) => Set(hash, s, k, v)
    case OpDel(k) => Del(hash, s, k)
    case OpStep(n) => RehashStep(hash, s, n)
    case OpWrite(it) => if Lookup(hash, s, it.key).Some? then Modify(hash, s, it) else s
    case OpFlush => Empty()
  }

  /** The same operation on a plain map. */
  function ApplyMap<V>(m: map<Bytes, V>, op: Op<V>): map<Bytes, V> {
    match op
    case OpSet(k, v) => m[k := v]
    case OpDel(k) => m - {k}
    case OpStep(n) => m
    case OpWrite(it) => if it.key in m then m[it.key := it.value] else m
    case OpFlush => map[]
  }

  ghost function Values<V>(m: map<Bytes, Item<V>>): map<Bytes, V> {
    map k | k in m :: m[k].value
  }

  lemma ValuesSet<V>(m: map<Bytes, Item<V>>, it: Item<V>)
    ensures Values(m[it.key := it]) == Values(m)[it.key := it.value]
  {
  }

  lemma ValuesDel<V>(m: map<Bytes, Item<V>>, k: Bytes)
    ensures Values(m - {k}) == Values(m) - {k}
  {
  }

  ghost predicate Good<V>(hash: Hash, s: State<V>) {
    Inv(hash, s) && Loaded(s) && Size(s) == |Contents(hash, s)|
  }

  lemma SetRefines<V>(hash: Hash, s: State<V>, k: Bytes, v: V)
    requires Good(hash, s)
    ensures Good(hash, Set(hash, s, k, v))
    ensures Values(Contents(hash, Set(hash, s, k, v))) == Values(Contents(hash, s))[k := v]
  {
    hide Inv, Loaded, Size, Contents, Set, Lookup, DeadlineAfterSet, Values;
    ShapeOf(hash, s);
    ContentsAt(hash, s);
    SetLaw(hash, s, k, v);
    SetKeepsLoad(hash, s, k, v);
    SetContents(hash, s, k, v);
    ValuesSet(Contents(hash, s), Item(k, v, DeadlineAfterSet(hash, s, k)));
  }

  lemma DelRefines<V>(hash: Hash, s: State<V>, k: Bytes)
    requires Good(hash, s)
    ensures Good(hash, Del(hash, s, k))
    ensures Values(Contents(hash, Del(hash, s, k))) == Values(Contents(hash, s)) - {k}
  {
    hide Inv, Loaded, Size, Contents, Del, Lookup, Values;
    ShapeOf(hash, s);
    ContentsAt(hash, s);
    DelStateLaw(hash, s, k);
    DelKeepsLoad(hash, s, k);
    DelContents(hash, s, k);
    CardMinus(Contents(hash, s), k);
    ValuesDel(Contents(hash, s), k);
  }

  lemma StepRefines<V>(hash: Hash, s: State<V>, n: int)
    requires Good(hash, s)
    ensures Good(hash, RehashStep(hash, s, n))
    ensures Contents(hash, RehashStep(hash, s, n)) == Contents(hash, s)
  {
    hide Inv, Loaded, Size, Contents, RehashStep, Lookup;
    ShapeOf(hash, s);
    RehashStepLaw(hash, s, n);
    RehashStepKeepsLoad(hash, s, n);
    RehashStepContents(hash, s, n);
  }

  lemma ModifyGood<V>(hash: Hash, s: State<V>, it: Item<V>)
    requires Good(hash, s) && (Find(hash, s.primary, it.key).Some? || Find(hash, s.rehash, it.key).Some?)
    ensures Lookup(hash, s, it.key).Some? && Good(hash, Modify(hash, s, it))
    ensures Contents(hash, Modify(hash, s, it)) == Contents(hash, s)[it.key := it]
  {
    hide Loaded, Size, Contents, Modify, Find;
    EmptyTable<V>(hash);
    assert Lookup(hash, s, it.key).Some?;
    ModifyLaw(hash, s, it);
    ModifyContents(hash, s, it);
    ContentsAt(hash, s);
  }

  lemma WriteRefines<V>(hash: Hash, s: State<V>, it: Item<V>)
    requires Good(hash, s)
    ensures var s' := if Lookup(hash, s, it.key).Some? then Modify(hash, s, it) else s;
            && Good(hash, s')
            && Values(Contents(hash, s')) ==
               (var m := Values(Contents(hash, s)); if it.key in m then m[it.key := it.value] else m)
  {
    hide Inv, Loaded, Size, Contents, Modify;
    ContentsAt(hash, s);
    if Lookup(hash, s, it.key).Some? {
      ModifyGood(hash, s, it);
      ValuesSet(Contents(hash, s), it);
    }
  }

  /** Every operation keeps the invariant, the load bound and the size counter, and acts as the
      plain map does. */
  lemma ApplyRefines<V>(hash: Hash, s: State<V>, op: Op<V>)
    requires Good(hash, s)
    ensures Good(hash, Apply(hash, s, op))
    ensures Values(Contents(hash, Apply(hash, s, op))) == ApplyMap(Values(Contents(hash, s)), op)
  {
    hide Inv, Loaded, Size, Contents, Set, Del, RehashStep, Modify, Lookup;
    ShapeOf(hash, s);
    match op
    case OpSet(k, v) => SetRefines(hash, s, k, v);
    case OpDel(k) => DelRefines(hash, s, k);
    case OpStep(n) => StepRefines(hash, s, n);
    case OpWrite(it) => WriteRefines(hash, s, it);
    case OpFlush => EmptyGood<V>(hash);
  }

  lemma CardMinus<K, X>(m: map<K, X>, k: K)
    ensures |m - {k}| == |m| - (if k in m then 1 else 0)
  {
    assert (m - {k}).Keys == m.Keys - {k};
    assert |m - {k}| == |(m - {k}).Keys| && |m| == |m.Keys|;
  }

  lemma EmptyGood<V>(hash: Hash)
    ensures Good<V>(hash, Empty()) && Contents<V>(hash, Empty()) == map[]
  {
    EmptyTable<V>(hash);
    ContentsAt<V>(hash, Empty());
  }

  /** The states reached by a sequence of operations from the empty table. */
  ghost function Run<V>(hash: Hash, ops: seq<Op<V>>): (s: State<V>)
    ensures Good(hash, s)
    decreases |ops|
  {
    if ops == [] then EmptyGood<V>(hash); Empty()
    else
      var s := Run(hash, ops[..|ops| - 1]);
      ApplyRefines(hash, s, ops[|ops| - 1]);
      Apply(hash, s, ops[|ops| - 1])
  }

  ghost function RunMap<V>(ops: seq<Op<V>>): map<Bytes, V>
    decreases |ops|
  {
    if ops == [] then map[] else ApplyMap(RunMap(ops[..|ops| - 1]), ops[|ops| - 1])
  }

  /** Two chained tables with slot-by-slot migration are one finite map, in every reachable state:
      lookups agree with the map, the size is its cardinality, and the load is bounded. */
  lemma {:induction false} RunIsMap<V>(hash: Hash, ops: seq<Op<V>>)
    ensures var s, m := Run(hash, ops), RunMap(ops);
            && Values(Contents(hash, s)) == m
            && (forall k :: Lookup(hash, s, k).Some? <==> k in m)
            && (forall k :: k in m ==> Lookup(hash, s, k).value.value == m[k])
            && Size(s) == |m|
            && (s.primary != [] ==> Size(s) <= 2 * |s.primary|)
    decreases |ops|
  {
    hide Apply, ApplyMap, Contents, Lookup;
    var s := Run(hash, ops);
    if ops == [] {
      EmptyGood<V>(hash);
    } else {
      RunIsMap(hash, ops[..|ops| - 1]);
      ApplyRefines(hash, Run(hash, ops[..|ops| - 1]), ops[|ops| - 1]);
    }
    ContentsAt(hash, s);
    if s.primary != [] { LoadBound(hash, s); }
    assert Values(Contents(hash, s)).Keys == Contents(hash, s).Keys;
  }

  // ---------- progress ----------

  /** The operations that run a whole batch of migrations first. */
  predicate Batches<V>(op: Op<V>) {
    op.OpSet? || op.OpDel? || (op.OpStep? && op.n >= 128)
  }

  /** Such an operation ends the drain or passes 128 slots of the old table; it never starts another. */
  lemma BatchProgress<V>(hash: Hash, s: State<V>, op: Op<V>)
    requires Good(hash, s) && s.rehashing && Batches(op)
    ensures var s' := Apply(hash, s, op);
            s'.rehashing ==> |s'.rehash| == |s.rehash| && s'.idx >= s.idx + 128
  {
    hide Find, Inv, RehashStep, Prepare, Lookup, Push, Put, Count, Contents, DelFrom;
    ShapeOf(hash, s);
    RehashStepLaw(hash, s, if op.OpStep? then op.n else REHASH_BATCH);
    if op.OpSet? {
      PrepareLaw(hash, s, op.k);
      var p := Prepare(hash, s, op.k);
      ShapeOf(hash, p);
      NoSecondGrowth(hash, s, op.k, op.v);
    }
  }

  lemma NoSecondGrowth<V>(hash: Hash, s: State<V>, k: Bytes, v: V)
    requires Inv(hash, s) && Loaded(s) && s.rehashing
    ensures var p := Prepare(hash, s, k); Store(hash, p, k, v).rehashing == p.rehashing
  {
    hide Find, Inv, RehashStep, Prepare, Lookup, Push, Put, Count;
    ShapeOf(hash, s);
    RehashStepLaw(hash, s, REHASH_BATCH);
    PrepareLaw(hash, s, k);
    var p := Prepare(hash, s, k);
    ShapeOf(hash, p);
    CountEmpty<V>();
    if Find(hash, p.primary, k).None? {
      PushLawCount(hash, p, k, v);
    }
  }

  lemma PushLawCount<V>(hash: Hash, p: State<V>, k: Bytes, v: V)
    requires Inv(hash, p) && p.primary != [] && Find(hash, p.primary, k).None?
    ensures Count(Push(hash, p.primary, Item(k, v, -1))) == Count(p.primary) + 1
  {
    hide Find, Push, Count, Placed;
    PushLaw(hash, p.primary, Item(k, v, -1));
  }

  ghost function ApplyAll<V>(hash: Hash, s: State<V>, ops: seq<Op<V>>): (r: State<V>)
    requires Good(hash, s)
    ensures Good(hash, r)
    decreases |ops|
  {
    if ops == [] then s
    else
      var r := ApplyAll(hash, s, ops[..|ops| - 1]);
      ApplyRefines(hash, r, ops[|ops| - 1]);
      Apply(hash, r, ops[|ops| - 1])
  }

  lemma {:induction false} DrainProgress<V>(hash: Hash, s: State<V>, ops: seq<Op<V>>)
    requires Good(hash, s) && forall i :: 0 <= i < |ops| ==> Batches(ops[i])
    requires forall i :: 0 <= i <= |ops| ==> ApplyAll(hash, s, ops[..i]).rehashing
    ensures var r := ApplyAll(hash, s, ops); |r.rehash| == |s.rehash| && r.idx >= s.idx + 128 * |ops|
    decreases |ops|
  {
    hide Good, Apply, Batches;
    assert ops[..|ops|] == ops;
    if ops != [] {
      var n := |ops| - 1;
      assert forall i :: 0 <= i <= n ==> ops[..n][..i] == ops[..i];
      assert ops[..n][..n] == ops[..n];
      DrainProgress(hash, s, ops[..n]);
      BatchProgress(hash, ApplyAll(hash, s, ops[..n]), ops[n]);
    }
  }

  /** The drain of a `c`-slot table is over within ceil(c / 128) sets, deletes and rehash steps, in any
      mixture: each of them runs a batch, and none starts a second growth before. */
  lemma DrainEnds<V>(hash: Hash, s: State<V>, ops: seq<Op<V>>)
    requires Good(hash, s) && forall i :: 0 <= i < |ops| ==> Batches(ops[i])
    requires |ops| == (|s.rehash| + 127) / 128
    ensures exists i :: 0 <= i <= |ops| && !ApplyAll(hash, s, ops[..i]).rehashing
  {
    hide Loaded, Size, Contents, Apply, Batches, ApplyAll;
    assert ops[..|ops|] == ops;
    ShapeOf(hash, ApplyAll(hash, s, ops));
    if forall i :: 0 <= i <= |ops| ==> ApplyAll(hash, s, ops[..i]).rehashing {
      DrainProgress(hash, s, ops);
    }
  }

  lemma PreparedCapacity<V>(hash: Hash, s: State<V>, k: Bytes)
    requires Inv(hash, s)
    ensures |Prepare(hash, s, k).primary| == if s.primary == [] then INITIAL_CAPACITY else |s.primary|
  {
    hide Find, RehashStep, Inv, DelFrom;
    ShapeOf(hash, s);
    RehashStepLaw(hash, s, REHASH_BATCH);
  }

  /** The table starts with four slots, and `set` doubles it exactly when no old table is left to drain and a new key
      would make more than two entries per slot. */
  lemma SetGrowsIff<V>(hash: Hash, s: State<V>, k: Bytes, v: V)
    requires Good(hash, s)
    ensures var s', c := Set(hash, s, k, v), if s.primary == [] then 4 else |s.primary|;
            var draining := RehashStep(hash, s, 128).rehashing;
            var grows := !draining && Lookup(hash, s, k).None? && Size(s) + 1 > 2 * c;
            && |s'.primary| == (if grows then 2 * c else c)
            && s'.rehashing == (grows || draining)
            && (grows ==> |s'.rehash| == c)
  {
    hide Find, Inv, RehashStep, Prepare, Lookup, Push, Put, Count, Contents;
    ShapeOf(hash, s);
    RehashStepLaw(hash, s, REHASH_BATCH);
    PrepareLaw(hash, s, k);
    PreparedCapacity(hash, s, k);
    var p := Prepare(hash, s, k);
    ShapeOf(hash, p);
    CountEmpty<V>();
    if Find(hash, p.primary, k).None? {
      PushLawCount(hash, p, k, v);
    }
  }
}
