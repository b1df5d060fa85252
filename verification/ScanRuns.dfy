/** The SCAN cursor while the table changes: what an iteration returns, and exactly when a call loses a key. */
module ScanRuns {
  import opened Text
  import opened HashSpec
  import opened HashProofs
  import opened HashScan
  import opened Expiry
  import Timed

  // ---------- an iteration over the table ----------

  datatype Event<V> = Call(count: nat) | Other(op: Op<V>)

  /** The table, the client's cursor, the keys returned so far, and whether the cursor is back at 0. */
  datatype Iteration<V> = Iteration(s: State<V>, cursor: nat, seen: set<Bytes>, done: bool)

  ghost function Begin<V>(s: State<V>): Iteration<V> { Iteration(s, 0, {}, false) }

  ghost function Advance<V>(hash: Hash, it: Iteration<V>, e: Event<V>): (r: Iteration<V>)
    requires Good(hash, it.s)
    ensures Good(hash, r.s)
  {
    match e
    case Call(count) =>
      var page := Scan(it.s, it.cursor, count);
      Iteration(it.s, page.cursor, it.seen + (set k | k in page.keys), page.cursor == 0)
    case Other(op) =>
      ApplyRefines(hash, it.s, op);
      it.(s := Apply(hash, it.s, op))
  }

  ghost function AdvanceAll<V>(hash: Hash, it: Iteration<V>, es: seq<Event<V>>): (r: Iteration<V>)
    requires Good(hash, it.s)
    decreases |es|
  {
    if es == [] then it else AdvanceAll(hash, Advance(hash, it, es[0]), es[1..])
  }

  /** Not yet passed by the cursor, whichever table holds the key. */
  ghost predicate Ahead<V>(hash: Hash, it: Iteration<V>, k: Bytes) {
    !it.done && it.s.primary != [] && it.cursor <= Slot(hash, it.s.primary, k)
  }

  ghost predicate SeenOrAhead<V>(hash: Hash, it: Iteration<V>, k: Bytes) {
    k in it.seen || Ahead(hash, it, k)
  }

  lemma BoundAllocated<V>(hash: Hash, s: State<V>, k: Bytes)
    requires Good(hash, s) && Lookup(hash, s, k).Some?
    ensures s.primary != []
  {
    hide Find, Contents, Loaded;
    EmptyTable<V>(hash);
  }

  /** Growth moves a key's slot up or leaves it. */
  lemma ModDoubles(h: nat, n: nat)
    requires n > 0
    ensures h % n <= h % (2 * n)
  {
    var a, b := h / n, h % n;
    var c := a / 2;
    if a % 2 == 0 {
      Regroup(n, a, c, b);
      RemainderIs(h, 2 * n, c, b);
    } else {
      Regroup(n, a - 1, c, n + b);
      RemainderIs(h, 2 * n, c, n + b);
    }
  }

  lemma Regroup(n: nat, a: nat, c: nat, r: nat)
    requires a == 2 * c
    ensures n * a + r == (2 * n) * c + r
  {
  }

  lemma RemainderIs(m: nat, n: nat, q: nat, r: nat)
    requires r < n && m == n * q + r
    ensures m % n == r
  {
    var d := m / n - q;
    assert n * d == r - m % n;
    if d >= 1 { MulAtLeast(n, d); }
    if d <= -1 { MulAtLeast(n, -d); }
  }

  lemma MulAtLeast(n: nat, d: nat)
    requires d >= 1
    ensures n * d >= n
  {
  }

  lemma StoreCapacity<V>(hash: Hash, s: State<V>, k: Bytes, v: V)
    requires s.primary != []
    ensures var n := |Store(hash, s, k, v).primary|; n == |s.primary| || n == 2 * |s.primary|
  {
    hide Find, Push, Put, Count;
  }

  lemma ApplyCapacity<V>(hash: Hash, s: State<V>, op: Op<V>)
    requires Inv(hash, s) && s.primary != [] && !op.OpFlush?
    ensures var n := |Apply(hash, s, op).primary|; n == |s.primary| || n == 2 * |s.primary|
  {
    hide Find, RehashStep, Push, Put, DelFrom, Store, Lookup, Inv;
    ShapeOf(hash, s);
    match op
    case OpSet(k, v) =>
      RehashStepLaw(hash, s, REHASH_BATCH);
      StoreCapacity(hash, Prepare(hash, s, k), k, v);
    case OpDel(k) => RehashStepLaw(hash, s, REHASH_BATCH);
    case OpStep(n) => RehashStepLaw(hash, s, n);
    case OpWrite(it) =>
  }

  /** As long as `k` stays bound, no other operation, growth included, brings it behind the cursor. */
  lemma OpKeepsAhead<V>(hash: Hash, it: Iteration<V>, op: Op<V>, k: Bytes)
    requires Good(hash, it.s) && SeenOrAhead(hash, it, k)
    requires Lookup(hash, Advance(hash, it, Other(op)).s, k).Some?
    ensures SeenOrAhead(hash, Advance(hash, it, Other(op)), k)
  {
    hide Good, Apply, Lookup;
    var next := Advance(hash, it, Other(op));
    BoundAllocated(hash, next.s, k);
    if k !in it.seen {
      InvOfGood(hash, it.s);
      if op.OpFlush? {
        FlushUnbinds(hash, it.s, k);
      } else {
        ApplyCapacity(hash, it.s, op);
        ModDoubles(hash(k), |it.s.primary|);
      }
    }
  }

  lemma FlushUnbinds<V>(hash: Hash, s: State<V>, k: Bytes)
    requires Shape(s)
    ensures Lookup(hash, Apply(hash, s, OpFlush), k).None?
  {
  }

  lemma InvOfGood<V>(hash: Hash, s: State<V>)
    requires Good(hash, s)
    ensures Inv(hash, s) && Shape(s)
  {
  }

  // ---------- what one call returns ----------

  /** A page lists exactly the bound keys of its stretch, and at cursor 0 those of the old table. */
  lemma PageHas<V>(hash: Hash, s: State<V>, cursor: nat, count: nat, k: Bytes)
    requires Inv(hash, s) && Lookup(hash, s, k).Some? && cursor < |s.primary|
    ensures k in Scan(s, cursor, count).keys <==>
            if Find(hash, s.primary, k).Some? then cursor <= Slot(hash, s.primary, k) < ScanStop(s.primary, cursor, count)
            else cursor == 0
  {
    hide Find, FlatKeys, Scan, Placed;
    var stop := ScanStop(s.primary, cursor, count);
    PageCount(s, cursor, count, k);
    FlatKeysCount(hash, s.primary, cursor, stop, k);
    FlatKeysCount(hash, s.rehash, 0, |s.rehash|, k);
    CountsIn(Scan(s, cursor, count).keys, k);
  }

  lemma CountsIn(ks: seq<Bytes>, k: Bytes)
    ensures k in ks <==> multiset(ks)[k] > 0
  {
  }

  /** Exactly when a call loses a key that was still to come: it goes on from a former call, the key is
      still in the old table, and the call passes the key's slot in the primary table. */
  lemma CallLosesIff<V>(hash: Hash, it: Iteration<V>, count: nat, k: Bytes)
    requires Good(hash, it.s) && count >= 1 && Lookup(hash, it.s, k).Some? && k !in it.seen && Ahead(hash, it, k)
    ensures !SeenOrAhead(hash, Advance(hash, it, Call(count)), k) <==>
            && it.cursor > 0 && Find(hash, it.s.primary, k).None?
            && Slot(hash, it.s.primary, k) < ScanStop(it.s.primary, it.cursor, count)
  {
    hide Find, FlatKeys, Good, Lookup;
    InvOfGood(hash, it.s);
    PageHas(hash, it.s, it.cursor, count, k);
  }

  // ---------- whole iterations ----------

  /** `k` is bound all the time, the client stops when the cursor is 0 again, every call asks for at
      least one entry, and a call that goes on from a former one finds `k` in the primary table, unless
      `k` has been returned already. */
  ghost predicate Steady<V>(hash: Hash, it: Iteration<V>, es: seq<Event<V>>, k: Bytes)
    requires Good(hash, it.s)
    decreases |es|
  {
    && Lookup(hash, it.s, k).Some?
    && (es != [] ==>
          && (es[0].Call? ==>
                !it.done && es[0].count >= 1 && (it.cursor == 0 || k in it.seen || Find(hash, it.s.primary, k).Some?))
          && Steady(hash, Advance(hash, it, es[0]), es[1..], k))
  }

  lemma {:induction false} SteadyScan<V>(hash: Hash, it: Iteration<V>, es: seq<Event<V>>, k: Bytes)
    requires Good(hash, it.s) && Steady(hash, it, es, k) && SeenOrAhead(hash, it, k)
    ensures SeenOrAhead(hash, AdvanceAll(hash, it, es), k)
    decreases |es|
  {
    hide Find, Good, Scan, Apply, Lookup, Ahead;
    if es != [] {
      var next := Advance(hash, it, es[0]);
      match es[0] {
        case Call(count) =>
          if k !in it.seen { CallLosesIff(hash, it, count, k); }
        case Other(op) =>
          assert Steady(hash, next, es[1..], k);
          OpKeepsAhead(hash, it, op, k);
      }
      SteadyScan(hash, next, es[1..], k);
    }
  }

  /** SCAN completeness: across any interleaving of scan calls with sets, deletes, writes, rehash steps
      and growth, a key bound throughout has been returned when the cursor is back at 0, provided that
      each call after the first finds it in the primary table. */
  lemma ScanComplete<V>(hash: Hash, s: State<V>, es: seq<Event<V>>, k: Bytes)
    requires Good(hash, s) && Steady(hash, Begin(s), es, k)
    ensures var end := AdvanceAll(hash, Begin(s), es); end.done ==> k in end.seen
  {
    hide Find, Good, Lookup;
    BoundAllocated(hash, s, k);
    SteadyScan(hash, Begin(s), es, k);
  }

  // ---------- iterations without growth ----------

  lemma MigrateKeepsPrimary<V>(hash: Hash, s: State<V>, k: Bytes)
    requires Inv(hash, s) && s.rehashing && Find(hash, s.primary, k).Some?
    ensures Find(hash, MigrateOneSlot(hash, s).primary, k).Some?
  {
    hide Find, Placed, InChain, Count, PushAll;
    var i := NextSlot(s.rehash, s.idx);
    if i < |s.rehash| {
      var c := s.rehash[i];
      ChainLeaves(hash, s.rehash, i);
      forall j | 0 <= j < |c|
        ensures Find(hash, s.primary, c[j].key).None?
      {
        FindAt(hash, s.rehash, i, j);
      }
      PushAllLaw(hash, s.primary, c);
    }
  }

  lemma {:induction false} StepKeepsPrimary<V>(hash: Hash, s: State<V>, n: int, k: Bytes)
    requires Inv(hash, s) && Find(hash, s.primary, k).Some?
    ensures Find(hash, RehashStep(hash, s, n).primary, k).Some?
    decreases n
  {
    hide Find, Inv, MigrateOneSlot;
    ShapeOf(hash, s);
    if n > 0 && s.rehashing {
      ShapeMigrates(hash, s);
      MigrateLaw(hash, s);
      MigrateKeepsPrimary(hash, s, k);
      StepKeepsPrimary(hash, MigrateOneSlot(hash, s), n - 1, k);
    }
  }

  lemma SetKeepsPrimary<V>(hash: Hash, s: State<V>, k': Bytes, v: V, k: Bytes)
    requires Inv(hash, s) && Find(hash, s.primary, k).Some? && |Set(hash, s, k', v).primary| == |s.primary|
    ensures Find(hash, Set(hash, s, k', v).primary, k).Some?
  {
    hide Find, RehashStep, Push, Put, DelFrom, Count, Placed;
    StepKeepsPrimary(hash, s, REHASH_BATCH, k);
    RehashStepLaw(hash, s, REHASH_BATCH);
    PrepareLaw(hash, s, k');
    EmptyTable<V>(hash);
    var p := Prepare(hash, s, k');
    var existing := Find(hash, p.primary, k');
    if existing.Some? {
      PutLaw(hash, p.primary, Item(k', v, existing.value.expireAt));
    } else {
      PushLaw(hash, p.primary, Item(k', v, -1));
    }
  }

  lemma DelKeepsPrimary<V>(hash: Hash, s: State<V>, k': Bytes, k: Bytes)
    requires Inv(hash, s) && Find(hash, s.primary, k).Some? && k' != k
    ensures Find(hash, Del(hash, s, k').primary, k).Some?
  {
    hide Find, RehashStep, DelFrom, Placed;
    StepKeepsPrimary(hash, s, REHASH_BATCH, k);
    RehashStepLaw(hash, s, REHASH_BATCH);
    DelLaw(hash, RehashStep(hash, s, REHASH_BATCH).primary, k');
  }

  /** A key of the primary table stays there as long as it is bound and the table does not grow. */
  lemma ApplyKeepsPrimary<V>(hash: Hash, s: State<V>, op: Op<V>, k: Bytes)
    requires Inv(hash, s) && Find(hash, s.primary, k).Some?
    requires |Apply(hash, s, op).primary| == |s.primary| && Lookup(hash, Apply(hash, s, op), k).Some?
    ensures Find(hash, Apply(hash, s, op).primary, k).Some?
  {
    hide Find, RehashStep, Set, Del, Put, Placed;
    ShapeOf(hash, s);
    match op
    case OpSet(k', v) => SetKeepsPrimary(hash, s, k', v, k);
    case OpDel(k') =>
      DelStateLaw(hash, s, k');
      DelKeepsPrimary(hash, s, k', k);
    case OpStep(n) => StepKeepsPrimary(hash, s, n, k);
    case OpWrite(it) =>
      if Find(hash, s.primary, it.key).Some? { PutLaw(hash, s.primary, it); }
    case OpFlush => EmptyTable<V>(hash);
  }

  /** `k` is bound all the time, the client stops when the cursor is 0 again, every call asks for at least
      one entry, and no new rehash starts. */
  ghost predicate NoGrowth<V>(hash: Hash, it: Iteration<V>, es: seq<Event<V>>, k: Bytes)
    requires Good(hash, it.s)
    decreases |es|
  {
    && Lookup(hash, it.s, k).Some?
    && (es != [] ==>
          var next := Advance(hash, it, es[0]);
          && (es[0].Call? ==> !it.done && es[0].count >= 1)
          && |next.s.primary| == |it.s.primary|
          && NoGrowth(hash, next, es[1..], k))
  }

  /** Before the first call, returned already, or in the primary table. */
  ghost predicate Reachable<V>(hash: Hash, it: Iteration<V>, k: Bytes) {
    it.cursor == 0 || k in it.seen || Find(hash, it.s.primary, k).Some?
  }

  /** The first call returns every key of the old table; the others stay in the primary table. */
  lemma CallPlaces<V>(hash: Hash, it: Iteration<V>, count: nat, k: Bytes)
    requires Good(hash, it.s) && Lookup(hash, it.s, k).Some? && Reachable(hash, it, k)
    ensures Reachable(hash, Advance(hash, it, Call(count)), k)
  {
    hide Find, Good, Lookup, FlatKeys;
    InvOfGood(hash, it.s);
    BoundAllocated(hash, it.s, k);
    if it.cursor < |it.s.primary| {
      PageHas(hash, it.s, it.cursor, count, k);
    }
  }

  lemma {:induction false} NoGrowthSteady<V>(hash: Hash, it: Iteration<V>, es: seq<Event<V>>, k: Bytes)
    requires Good(hash, it.s) && NoGrowth(hash, it, es, k) && Reachable(hash, it, k)
    ensures Steady(hash, it, es, k)
    decreases |es|
  {
    hide Find, Good, Scan, Apply, Lookup;
    if es != [] {
      var next := Advance(hash, it, es[0]);
      match es[0] {
        case Call(count) => CallPlaces(hash, it, count, k);
        case Other(op) =>
          assert NoGrowth(hash, next, es[1..], k);
          InvOfGood(hash, it.s);
          if Find(hash, it.s.primary, k).Some? { ApplyKeepsPrimary(hash, it.s, op, k); }
      }
      NoGrowthSteady(hash, next, es[1..], k);
    }
  }

  /** SCAN completeness as long as no new rehash starts: across any interleaving of calls with sets, deletes,
      writes and rehash steps, every key bound throughout has been returned when the cursor is back at 0. */
  lemma ScanCompleteWithoutGrowth<V>(hash: Hash, s: State<V>, es: seq<Event<V>>, k: Bytes)
    requires Good(hash, s) && NoGrowth(hash, Begin(s), es, k)
    ensures var end := AdvanceAll(hash, Begin(s), es); end.done ==> k in end.seen
  {
    hide Find, Good, Lookup, Steady, NoGrowth;
    NoGrowthSteady(hash, Begin(s), es, k);
    ScanComplete(hash, s, es, k);
  }

  // ---------- SCAN on the database ----------

  /** The table once the keys of a page that turn out to be due have been deleted, one by one. */
  ghost function Collected<V>(hash: Hash, s: State<V>, now: int, raw: seq<Bytes>): (r: State<V>)
    requires Good(hash, s)
    ensures Good(hash, r)
    decreases |raw|
  {
    if raw == [] then s else CollectOne(hash, Collected(hash, s, now, raw[..|raw| - 1]), now, raw[|raw| - 1])
  }

  /** Lazy expiry of one key. */
  ghost function CollectOne<V>(hash: Hash, s: State<V>, now: int, k: Bytes): (r: State<V>)
    requires Good(hash, s)
    ensures Good(hash, r)
  {
    var it := Lookup(hash, s, k);
    if it.Some? && Timed.Due(it.value, now) then DelRefines(hash, s, k); Del(hash, s, k) else s
  }

  lemma CollectedNone<V>(hash: Hash, s: State<V>, now: int)
    requires Good(hash, s)
    ensures Collected(hash, s, now, []) == s
  {
  }

  lemma CollectedSnoc<V>(hash: Hash, s: State<V>, now: int, raw: seq<Bytes>, i: nat)
    requires Good(hash, s) && i < |raw|
    ensures Collected(hash, s, now, raw[..i + 1]) == CollectOne(hash, Collected(hash, s, now, raw[..i]), now, raw[i])
  {
    hide Good, CollectOne;
    assert raw[..i + 1][..i] == raw[..i];
  }

  lemma DelCapacity<V>(hash: Hash, s: State<V>, k: Bytes)
    requires Inv(hash, s)
    ensures |Del(hash, s, k).primary| == |s.primary|
  {
    hide Inv, RehashStep, Find, DelFrom;
    ShapeOf(hash, s);
    RehashStepLaw(hash, s, REHASH_BATCH);
  }

  /** Collecting the due keys of a page keeps the capacity and every key that is not due. */
  lemma {:induction false} CollectedKeeps<V>(hash: Hash, s: State<V>, now: int, raw: seq<Bytes>, k: Bytes)
    requires Good(hash, s)
    ensures var r := Collected(hash, s, now, raw);
            && |r.primary| == |s.primary|
            && (Lookup(hash, s, k).Some? && !Timed.Due(Lookup(hash, s, k).value, now) ==> Lookup(hash, r, k) == Lookup(hash, s, k))
    decreases |raw|
  {
    hide Good, Lookup, Del;
    if raw != [] {
      var x, r := raw[|raw| - 1], Collected(hash, s, now, raw[..|raw| - 1]);
      CollectedKeeps(hash, s, now, raw[..|raw| - 1], k);
      InvOfGood(hash, r);
      DelStateLaw(hash, r, x);
      DelCapacity(hash, r, x);
    }
  }

  datatype DbEvent<V> = ScanCall(now: int, count: nat) | Work(op: Op<V>)

  /** `Database::scan`: a batch of migrations, one page, and the due keys of the page collected. */
  ghost function DbAdvance<V>(hash: Hash, it: Iteration<V>, pattern: Bytes, e: DbEvent<V>): (r: Iteration<V>)
    requires Good(hash, it.s)
    ensures Good(hash, r.s)
  {
    match e
    case ScanCall(now, count) =>
      StepRefines(hash, it.s, REHASH_BATCH);
      var s := RehashStep(hash, it.s, REHASH_BATCH);
      var page := Scan(s, it.cursor, count);
      var shown := Timed.Shown(Contents(hash, s), now, page.keys, pattern);
      Iteration(Collected(hash, s, now, page.keys), page.cursor, it.seen + (set k | k in shown), page.cursor == 0)
    case Work(op) =>
      ApplyRefines(hash, it.s, op);
      it.(s := Apply(hash, it.s, op))
  }

  ghost function DbAdvanceAll<V>(hash: Hash, it: Iteration<V>, pattern: Bytes, es: seq<DbEvent<V>>): (r: Iteration<V>)
    requires Good(hash, it.s)
    decreases |es|
  {
    if es == [] then it else DbAdvanceAll(hash, DbAdvance(hash, it, pattern, es[0]), pattern, es[1..])
  }

  /** As `Steady`, with `k` live at every page; where the key is counts after the page's own batch. */
  ghost predicate DbSteady<V>(hash: Hash, it: Iteration<V>, pattern: Bytes, es: seq<DbEvent<V>>, k: Bytes)
    requires Good(hash, it.s)
    decreases |es|
  {
    && Lookup(hash, it.s, k).Some?
    && (es != [] ==>
          && (es[0].ScanCall? ==>
                && !it.done && es[0].count >= 1 && !Timed.Due(Lookup(hash, it.s, k).value, es[0].now)
                && (it.cursor == 0 || k in it.seen || Find(hash, RehashStep(hash, it.s, REHASH_BATCH).primary, k).Some?))
          && DbSteady(hash, DbAdvance(hash, it, pattern, es[0]), pattern, es[1..], k))
  }

  lemma PageKeeps<V>(hash: Hash, it: Iteration<V>, pattern: Bytes, now: int, count: nat, k: Bytes)
    requires Good(hash, it.s) && SeenOrAhead(hash, it, k) && Matches(pattern, k)
    requires Lookup(hash, it.s, k).Some? && count >= 1 && !Timed.Due(Lookup(hash, it.s, k).value, now)
    requires it.cursor == 0 || k in it.seen || Find(hash, RehashStep(hash, it.s, REHASH_BATCH).primary, k).Some?
    ensures SeenOrAhead(hash, DbAdvance(hash, it, pattern, ScanCall(now, count)), k)
  {
    hide Find, Lookup, Good, Scan, RehashStep, Contents;
    InvOfGood(hash, it.s);
    RehashStepLaw(hash, it.s, REHASH_BATCH);
    StepRefines(hash, it.s, REHASH_BATCH);
    var mid := it.(s := RehashStep(hash, it.s, REHASH_BATCH));
    ContentsAt(hash, mid.s);
    var page := Scan(mid.s, it.cursor, count);
    var next := DbAdvance(hash, it, pattern, ScanCall(now, count));
    CollectedKeeps(hash, mid.s, now, page.keys, k);
    if k !in it.seen {
      CallLosesIff(hash, mid, count, k);
      Timed.ShownIff(Contents(hash, mid.s), now, page.keys, pattern, k);
    }
  }

  lemma {:induction false} DbSteadyScan<V>(hash: Hash, it: Iteration<V>, pattern: Bytes, es: seq<DbEvent<V>>, k: Bytes)
    requires Good(hash, it.s) && DbSteady(hash, it, pattern, es, k) && SeenOrAhead(hash, it, k) && Matches(pattern, k)
    ensures SeenOrAhead(hash, DbAdvanceAll(hash, it, pattern, es), k)
    decreases |es|
  {
    hide Find, Good, Scan, Apply, Lookup, Ahead, RehashStep, Matches;
    if es != [] {
      var next := DbAdvance(hash, it, pattern, es[0]);
      match es[0] {
        case ScanCall(now, count) => PageKeeps(hash, it, pattern, now, count, k);
        case Work(op) =>
          assert DbSteady(hash, next, pattern, es[1..], k);
          OpKeepsAhead(hash, it, op, k);
      }
      DbSteadyScan(hash, next, pattern, es[1..], k);
    }
  }

  /** Completeness of the SCAN command: a key that is live throughout and matches the pattern is in the
      keys of some page once the cursor is back at 0, whatever happens in between, provided that each page
      after the first finds it in the primary table. */
  lemma DbScanComplete<V>(hash: Hash, s: State<V>, pattern: Bytes, es: seq<DbEvent<V>>, k: Bytes)
    requires Good(hash, s) && DbSteady(hash, Begin(s), pattern, es, k) && Matches(pattern, k)
    ensures var end := DbAdvanceAll(hash, Begin(s), pattern, es); end.done ==> k in end.seen
  {
    hide Find, Good, Lookup, Matches;
    BoundAllocated(hash, s, k);
    DbSteadyScan(hash, Begin(s), pattern, es, k);
  }

  /** The proviso concerns large tables only: the page's own batch drains an old table of up to 128 slots. */
  lemma SmallTableDrained<V>(hash: Hash, s: State<V>, k: Bytes)
    requires Inv(hash, s) && |s.rehash| <= REHASH_BATCH && Lookup(hash, s, k).Some?
    ensures Find(hash, RehashStep(hash, s, REHASH_BATCH).primary, k).Some?
  {
    hide Find, RehashStep;
    RehashStepLaw(hash, s, REHASH_BATCH);
  }

  /** `k` is live at every page and bound in between, and no new rehash starts. */
  ghost predicate DbNoGrowth<V>(hash: Hash, it: Iteration<V>, pattern: Bytes, es: seq<DbEvent<V>>, k: Bytes)
    requires Good(hash, it.s)
    decreases |es|
  {
    && Lookup(hash, it.s, k).Some?
    && (es != [] ==>
          var next := DbAdvance(hash, it, pattern, es[0]);
          && (es[0].ScanCall? ==> !it.done && es[0].count >= 1 && !Timed.Due(Lookup(hash, it.s, k).value, es[0].now))
          && |next.s.primary| == |it.s.primary|
          && DbNoGrowth(hash, next, pattern, es[1..], k))
  }

  lemma {:induction false} CollectedKeepsPrimary<V>(hash: Hash, s: State<V>, now: int, raw: seq<Bytes>, k: Bytes)
    requires Good(hash, s) && Find(hash, s.primary, k).Some? && Lookup(hash, s, k).Some?
    requires !Timed.Due(Lookup(hash, s, k).value, now)
    ensures Find(hash, Collected(hash, s, now, raw).primary, k).Some?
    decreases |raw|
  {
    hide Good, Lookup, Del, Find;
    if raw != [] {
      var x, r := raw[|raw| - 1], Collected(hash, s, now, raw[..|raw| - 1]);
      CollectedKeepsPrimary(hash, s, now, raw[..|raw| - 1], k);
      CollectedKeeps(hash, s, now, raw[..|raw| - 1], k);
      InvOfGood(hash, r);
      if x != k { DelKeepsPrimary(hash, r, x, k); }
    }
  }

  lemma PagePlaces<V>(hash: Hash, it: Iteration<V>, pattern: Bytes, now: int, count: nat, k: Bytes)
    requires Good(hash, it.s) && Lookup(hash, it.s, k).Some? && Reachable(hash, it, k) && Matches(pattern, k)
    requires !Timed.Due(Lookup(hash, it.s, k).value, now)
    ensures Reachable(hash, DbAdvance(hash, it, pattern, ScanCall(now, count)), k)
  {
    hide Find, Lookup, Good, Scan, RehashStep, Contents, Reachable;
    InvOfGood(hash, it.s);
    RehashStepLaw(hash, it.s, REHASH_BATCH);
    StepRefines(hash, it.s, REHASH_BATCH);
    var mid := it.(s := RehashStep(hash, it.s, REHASH_BATCH));
    MidPlaced(hash, it, k);
    ContentsAt(hash, mid.s);
    var page := Scan(mid.s, it.cursor, count);
    CallPlaces(hash, mid, count, k);
    Timed.ShownIff(Contents(hash, mid.s), now, page.keys, pattern, k);
    var next := DbAdvance(hash, it, pattern, ScanCall(now, count));
    if Find(hash, mid.s.primary, k).Some? { CollectedKeepsPrimary(hash, mid.s, now, page.keys, k); }
    SamePlaced(hash, Advance(hash, mid, Call(count)), next, k);
  }

  lemma MidPlaced<V>(hash: Hash, it: Iteration<V>, k: Bytes)
    requires Good(hash, it.s) && Reachable(hash, it, k)
    ensures Reachable(hash, it.(s := RehashStep(hash, it.s, REHASH_BATCH)), k)
  {
    hide Find, RehashStep, Contents, Loaded;
    if Find(hash, it.s.primary, k).Some? { StepKeepsPrimary(hash, it.s, REHASH_BATCH, k); }
  }

  lemma SamePlaced<V>(hash: Hash, a: Iteration<V>, b: Iteration<V>, k: Bytes)
    requires Reachable(hash, a, k) && a.cursor == b.cursor && (k in a.seen ==> k in b.seen)
    requires Find(hash, a.s.primary, k).Some? ==> Find(hash, b.s.primary, k).Some?
    ensures Reachable(hash, b, k)
  {
    hide Find;
  }

  lemma {:induction false} DbNoGrowthSteady<V>(hash: Hash, it: Iteration<V>, pattern: Bytes, es: seq<DbEvent<V>>, k: Bytes)
    requires Good(hash, it.s) && DbNoGrowth(hash, it, pattern, es, k) && Reachable(hash, it, k) && Matches(pattern, k)
    ensures DbSteady(hash, it, pattern, es, k)
    decreases |es|
  {
    hide Find, Good, Scan, Apply, Lookup, RehashStep, Matches;
    if es != [] {
      var next := DbAdvance(hash, it, pattern, es[0]);
      match es[0] {
        case ScanCall(now, count) =>
          MidPlaced(hash, it, k);
          PagePlaces(hash, it, pattern, now, count, k);
        case Work(op) =>
          assert DbNoGrowth(hash, next, pattern, es[1..], k);
          InvOfGood(hash, it.s);
          if Find(hash, it.s.primary, k).Some? { ApplyKeepsPrimary(hash, it.s, op, k); }
      }
      DbNoGrowthSteady(hash, next, pattern, es[1..], k);
    }
  }

  /** The SCAN command returns every key that is live throughout and matches the pattern, as long as no new
      rehash starts. */
  lemma DbScanCompleteWithoutGrowth<V>(hash: Hash, s: State<V>, pattern: Bytes, es: seq<DbEvent<V>>, k: Bytes)
    requires Good(hash, s) && DbNoGrowth(hash, Begin(s), pattern, es, k) && Matches(pattern, k)
    ensures var end := DbAdvanceAll(hash, Begin(s), pattern, es); end.done ==> k in end.seen
  {
    hide Find, Good, Lookup, DbSteady, DbNoGrowth, Matches;
    DbNoGrowthSteady(hash, Begin(s), pattern, es, k);
    DbScanComplete(hash, s, pattern, es, k);
  }
}
