/** Expiry on values: what the database keeps in its table and its deadline heap, and the plain timed
    map it stands for. */
module Timed {
  import opened Text
  import opened HashSpec
  import opened Expiry
  import opened TTLHeaps

  type Table<V> = map<Bytes, Item<V>>

  predicate Due<V>(it: Item<V>, now: int) {
    Overdue(it.expireAt, now)
  }

  /** The entries a lookup at time `now` can see. */
  function Live<V>(t: Table<V>, now: int): Table<V> {
    map k | k in t && !Due(t[k], now) :: t[k]
  }

  function Seen<V>(t: Table<V>, now: int, k: Bytes): Option<Item<V>> {
    if k in t && !Due(t[k], now) then Some(t[k]) else None
  }

  /** Remaining milliseconds, -1 without deadline, -2 without key. */
  function TimeLeft<V>(seen: Option<Item<V>>, now: int): int {
    if seen.None? then -2 else Remaining(seen.value.expireAt, now)
  }

  // ---------- the database: table and heap ----------

  datatype Store<V> = Store(table: Table<V>, heap: map<Bytes, int>)

  /** Every heap key is in the table with an equal deadline, and every deadline in the table is in the heap. */
  ghost predicate Agree<V>(s: Store<V>) {
    && (forall k :: k in s.heap ==> k in s.table && s.table[k].expireAt == s.heap[k])
    && (forall k :: k in s.table && s.table[k].expireAt >= 0 ==> k in s.heap)
  }

  /** Lazy expiry of one key (`checkAndExpire` on the entry found). */
  function Lazy<V>(s: Store<V>, now: int, k: Bytes): Store<V> {
    if k in s.table && Due(s.table[k], now) then Store(s.table - {k}, s.heap - {k}) else s
  }

  function LazyAll<V>(s: Store<V>, now: int, ks: seq<Bytes>): Store<V> {
    if ks == [] then s else Lazy(LazyAll(s, now, ks[..|ks| - 1]), now, ks[|ks| - 1])
  }

  function SetString<V>(s: Store<V>, k: Bytes, v: V): Store<V> {
    Store(s.table[k := Item(k, v, -1)], s.heap - {k})
  }

  function Delete<V>(s: Store<V>, k: Bytes): Store<V> {
    Store(s.table - {k}, s.heap - {k})
  }

  function SetExpire<V>(s: Store<V>, now: int, k: Bytes, at: int): Store<V> {
    var s' := Lazy(s, now, k);
    if k in s'.table then Store(s'.table[k := s'.table[k].(expireAt := at)], s'.heap[k := at]) else s'
  }

  function Persist<V>(s: Store<V>, k: Bytes): Store<V> {
    if k in s.table then Store(s.table[k := s.table[k].(expireAt := -1)], s.heap - {k}) else s
  }

  /** Active expiry once the heap has given up `expired`. */
  ghost function Active<V>(s: Store<V>, expired: seq<Bytes>): Store<V> {
    var gone := set k | k in expired;
    Store(s.table - gone, s.heap - gone)
  }

  ghost function MinusAll<V>(t: Table<V>, ks: seq<Bytes>): Table<V> {
    t - (set k | k in ks)
  }

  lemma MinusOne<V>(t: Table<V>, ks: seq<Bytes>, i: nat)
    requires i < |ks|
    ensures MinusAll(t, ks[..i + 1]) == MinusAll(t, ks[..i]) - {ks[i]}
  {
    assert ks[..i + 1] == ks[..i] + [ks[i]];
  }

  /** The keys of a raw page that SCAN shows: live and matching `*` or the exact pattern. */
  function Shown<V>(t: Table<V>, now: int, raw: seq<Bytes>, pattern: Bytes): seq<Bytes> {
    Filtered(raw, k => Seen(t, now, k).Some?, pattern)
  }

  /** A page shows exactly its live and matching keys. */
  lemma ShownIff<V>(t: Table<V>, now: int, raw: seq<Bytes>, pattern: Bytes, k: Bytes)
    ensures k in Shown(t, now, raw, pattern) <==> k in raw && Seen(t, now, k).Some? && Matches(pattern, k)
  {
    FilteredIff(raw, k => Seen(t, now, k).Some?, pattern, k);
  }

  /** The same without naming the filter. */
  lemma ShownExactly<V>(t: Table<V>, now: int, raw: seq<Bytes>, pattern: Bytes)
    ensures ShowsExactly(k => k in t && !(t[k].expireAt >= 0 && now >= t[k].expireAt), raw, pattern, Shown(t, now, raw, pattern))
  {
    hide ShowsExactly, Filtered;
    var p, q := k => Seen(t, now, k).Some?, k => k in t && !(t[k].expireAt >= 0 && now >= t[k].expireAt);
    FilteredSame(raw, p, q, pattern);
    FilteredShows(raw, q, pattern);
  }

  lemma ShownNone<V>(t: Table<V>, now: int, pattern: Bytes)
    ensures Shown(t, now, [], pattern) == []
  {
  }

  lemma ShownSnoc<V>(t: Table<V>, now: int, raw: seq<Bytes>, i: nat, pattern: Bytes)
    requires i < |raw|
    ensures Shown(t, now, raw[..i + 1], pattern) == Shown(t, now, raw[..i], pattern)
            + (if Seen(t, now, raw[i]).Some? && Matches(pattern, raw[i]) then [raw[i]] else [])
  {
    assert raw[..i + 1][..i] == raw[..i];
  }

  // ---------- runs ----------

  /** What happens to the database.  `Insert` and `Update` are the handlers' `setObject` of an absent
      key and their writes through an entry they found; `Sweep` and `Scan` are background work. */
  datatype Op<V> =
    | Find(k: Bytes)
    | Put(k: Bytes, v: V)
    | Insert(k: Bytes, v: V)
    | Update(k: Bytes, v: V)
    | Remove(k: Bytes)
    | Expire(k: Bytes, at: int)
    | Sweep(expired: seq<Bytes>)
    | Scan(keys: seq<Bytes>)
    | Flush

  ghost predicate Enabled<V>(s: Store<V>, now: int, op: Op<V>) {
    match op
    case Insert(k, v) => k !in s.table
    case Update(k, v) => Seen(s.table, now, k).Some?
    case Sweep(expired) => PoppedFrom(s.heap, expired, s.heap - (set k | k in expired), now)
    case _ => true
  }

  ghost function Step<V>(s: Store<V>, now: int, op: Op<V>): Store<V> {
    match op
    case Find(k) => Lazy(s, now, k)
    case Put(k, v) => SetString(s, k, v)
    case Insert(k, v) => s.(table := s.table[k := Item(k, v, -1)])
    case Update(k, v) => if k in s.table then s.(table := s.table[k := s.table[k].(value := v)]) else s
    case Remove(k) => Delete(s, k)
    case Expire(k, at) => SetExpire(s, now, k, at)
    case Sweep(expired) => Active(s, expired)
    case Scan(keys) => LazyAll(s, now, keys)
    case Flush => Store(map[], map[])
  }

  /** The plain timed map: nothing is ever dropped because of its deadline. */
  function RefStep<V>(m: Table<V>, now: int, op: Op<V>): Table<V> {
    match op
    case Find(k) => m
    case Put(k, v) => m[k := Item(k, v, -1)]
    case Insert(k, v) => m[k := Item(k, v, -1)]
    case Update(k, v) => if Seen(m, now, k).Some? then m[k := m[k].(value := v)] else m
    case Remove(k) => m - {k}
    case Expire(k, at) => if Seen(m, now, k).Some? then m[k := m[k].(expireAt := at)] else m
    case Sweep(expired) => m
    case Scan(keys) => m
    case Flush => map[]
  }

  // ---------- heap and table agree ----------

  lemma {:induction false} LazyAllAgrees<V>(s: Store<V>, now: int, ks: seq<Bytes>)
    requires Agree(s)
    ensures Agree(LazyAll(s, now, ks))
    ensures forall k :: k in LazyAll(s, now, ks).table ==> k in s.table && LazyAll(s, now, ks).table[k] == s.table[k]
    ensures forall k :: k in s.table && !Due(s.table[k], now) ==> k in LazyAll(s, now, ks).table
    ensures forall k :: k in LazyAll(s, now, ks).heap ==> k in s.heap && LazyAll(s, now, ks).heap[k] == s.heap[k]
  {
    if ks != [] {
      LazyAllAgrees(s, now, ks[..|ks| - 1]);
    }
  }

  lemma {:induction false} LazyAllSeen<V>(s: Store<V>, now: int, ks: seq<Bytes>, k: Bytes)
    ensures Seen(LazyAll(s, now, ks).table, now, k) == Seen(s.table, now, k)
  {
    if ks != [] {
      LazyAllSeen(s, now, ks[..|ks| - 1], k);
    }
  }

  /** Every operation keeps heap and table in agreement; for an insertion this needs the key to be absent. */
  lemma StepAgrees<V>(s: Store<V>, now: int, op: Op<V>)
    requires Agree(s) && Enabled(s, now, op)
    ensures Agree(Step(s, now, op))
  {
    match op
    case Scan(keys) => LazyAllAgrees(s, now, keys);
    case _ =>
  }

  // ---------- expiry cannot be observed ----------

  ghost predicate NonNegative<V>(s: Store<V>) {
    forall k :: k in s.heap ==> s.heap[k] >= 0
  }

  ghost predicate Simulates<V>(s: Store<V>, m: Table<V>, now: int) {
    Agree(s) && NonNegative(s) && forall k :: Seen(s.table, now, k) == Seen(m, now, k)
  }

  /** Time passing keeps the correspondence. */
  lemma SimulatesLater<V>(s: Store<V>, m: Table<V>, now: int, later: int)
    requires Simulates(s, m, now) && now <= later
    ensures Simulates(s, m, later)
  {
    forall k
      ensures Seen(s.table, later, k) == Seen(m, later, k)
    {
      assert Seen(s.table, now, k) == Seen(m, now, k);
    }
  }

  lemma LookupsSimulate<V>(s: Store<V>, m: Table<V>, now: int, op: Op<V>)
    requires Simulates(s, m, now) && Enabled(s, now, op) && (op.Find? || op.Sweep? || op.Scan? || op.Flush?)
    ensures Simulates(Step(s, now, op), RefStep(m, now, op), now)
  {
    var s' := Step(s, now, op);
    StepAgrees(s, now, op);
    if op.Scan? { LazyAllAgrees(s, now, op.keys); }
    forall k | !op.Flush?
      ensures Seen(s'.table, now, k) == Seen(s.table, now, k)
    {
      if op.Sweep? && k in op.expired {
        assert k in s.heap && s.heap[k] >= 0;
      }
    }
  }

  lemma ChangesSimulate<V>(s: Store<V>, m: Table<V>, now: int, op: Op<V>)
    requires Simulates(s, m, now) && Enabled(s, now, op) && (op.Expire? ==> op.at >= 0)
    requires op.Put? || op.Insert? || op.Update? || op.Remove? || op.Expire?
    ensures Simulates(Step(s, now, op), RefStep(m, now, op), now)
  {
    StepAgrees(s, now, op);
    var s', m' := Step(s, now, op), RefStep(m, now, op);
    forall k
      ensures Seen(s'.table, now, k) == Seen(m', now, k)
    {
      assert Seen(s.table, now, k) == Seen(m, now, k);
      assert Seen(s.table, now, op.k) == Seen(m, now, op.k);
    }
  }

  /** One dispatched operation, with its clock reading. */
  datatype Timed<V> = Timed(now: int, op: Op<V>)

  /** A run: clock readings never go back and every operation is enabled. */
  ghost predicate IsRun<V>(states: seq<Store<V>>, ops: seq<Timed<V>>) {
    && |states| == |ops| + 1 && states[0] == Store(map[], map[])
    && (forall i, j :: 0 <= i < j < |ops| ==> ops[i].now <= ops[j].now)
    && (forall i :: 0 <= i < |ops| ==> Leads(states, ops, i))
  }

  ghost predicate Leads<V>(states: seq<Store<V>>, ops: seq<Timed<V>>, i: nat)
    requires |states| == |ops| + 1 && i < |ops|
  {
    && Enabled(states[i], ops[i].now, ops[i].op)
    && states[i + 1] == Step(states[i], ops[i].now, ops[i].op)
  }

  ghost predicate NoNegativeDeadline<V>(ops: seq<Timed<V>>) {
    forall i :: 0 <= i < |ops| && ops[i].op.Expire? ==> ops[i].op.at >= 0
  }

  /** Heap and table agree in every state of every run, for deadlines of either sign. */
  lemma {:induction false} RunAgrees<V>(states: seq<Store<V>>, ops: seq<Timed<V>>, n: nat)
    requires IsRun(states, ops) && n <= |ops|
    ensures Agree(states[n])
  {
    hide Agree, Enabled, Step;
    if n == 0 {
      StartSimulates<V>(0);
    } else {
      RunAgrees(states, ops, n - 1);
      assert Leads(states, ops, n - 1);
      StepAgrees(states[n - 1], ops[n - 1].now, ops[n - 1].op);
    }
  }

  /** The timed map after the first `n` operations. */
  function RefRun<V>(ops: seq<Timed<V>>, n: nat): Table<V>
    requires n <= |ops|
  {
    if n == 0 then map[] else RefStep(RefRun(ops, n - 1), ops[n - 1].now, ops[n - 1].op)
  }

  lemma {:induction false} RunSimulates<V>(states: seq<Store<V>>, ops: seq<Timed<V>>, n: nat, now: int)
    requires IsRun(states, ops) && NoNegativeDeadline(ops) && n <= |ops|
    requires n > 0 ==> ops[n - 1].now <= now
    ensures Simulates(states[n], RefRun(ops, n), now)
  {
    hide Simulates, Enabled, Step, RefStep;
    if n == 0 {
      StartSimulates<V>(now);
    } else {
      var i := n - 1;
      var t := ops[i].now;
      RunSimulates(states, ops, i, t);
      assert Leads(states, ops, i);
      var op := ops[i].op;
      if op.Find? || op.Sweep? || op.Scan? || op.Flush? {
        LookupsSimulate(states[i], RefRun(ops, i), t, op);
      } else {
        ChangesSimulate(states[i], RefRun(ops, i), t, op);
      }
      SimulatesLater(states[n], RefRun(ops, n), t, now);
    }
  }

  lemma StartSimulates<V>(now: int)
    ensures Agree<V>(Store(map[], map[])) && Simulates<V>(Store(map[], map[]), map[], now)
  {
  }

  /** Expiry is unobservable: however lazy expiry, active expiry with any work limit and scans are
      interleaved, every lookup at every later time answers as the plain timed map does, and so do
      the remaining time and the success of setting a deadline, which are functions of the lookup.
      Heap and table agree throughout. */
  lemma ExpiryUnobservable<V>(states: seq<Store<V>>, ops: seq<Timed<V>>, n: nat, now: int, k: Bytes)
    requires IsRun(states, ops) && NoNegativeDeadline(ops) && n <= |ops|
    requires n > 0 ==> ops[n - 1].now <= now
    ensures Agree(states[n])
    ensures Seen(states[n].table, now, k) == Seen(RefRun(ops, n), now, k)
    ensures TimeLeft(Seen(states[n].table, now, k), now) == TimeLeft(Seen(RefRun(ops, n), now, k), now)
  {
    hide IsRun, RefRun, Agree;
    RunSimulates(states, ops, n, now);
  }

  /** What a sweep with a work limit may take (`popExpired`). */
  ghost predicate Sweeps<V>(s: Store<V>, now: int, maxWork: int, expired: seq<Bytes>) {
    && Enabled(s, now, Sweep(expired)) && (|expired| <= maxWork || expired == [])
    && (|expired| < maxWork ==> forall k :: k in s.heap && k !in expired ==> s.heap[k] > now)
  }

  lemma MakeSweeps<V>(s: Store<V>, now: int, maxWork: int, expired: seq<Bytes>, rest: map<Bytes, int>)
    requires PoppedFrom(s.heap, expired, rest, now) && (|expired| <= maxWork || expired == [])
    requires |expired| < maxWork ==> forall k :: k in rest ==> rest[k] > now
    ensures Sweeps(s, now, maxWork, expired) && rest == Active(s, expired).heap
  {
    assert forall k :: k in s.heap && k !in expired ==> k in rest && rest[k] == s.heap[k];
  }

  /** The proviso on deadlines is exact: a sweep at a time after the epoch changes nothing that lookups
      see if and only if the heap holds no negative deadline, which lazy expiry would keep for ever. */
  lemma SweepInvisibleIff<V>(s: Store<V>, now: int, maxWork: int, expired: seq<Bytes>)
    requires Agree(s) && Sweeps(s, now, maxWork, expired) && now >= 0 && maxWork > 0
    ensures Live(Active(s, expired).table, now) == Live(s.table, now) <==> NonNegative(s)
  {
    var t := Active(s, expired).table;
    if NonNegative(s) {
      forall k | k in Live(s.table, now)
        ensures k in Live(t, now)
      {
        assert k in s.table;
      }
    } else {
      var k :| k in s.heap && s.heap[k] < 0;
      assert expired != [];
      var first := expired[0];
      assert first in s.heap && s.heap[first] < 0 by { EarliestTaken(s, now, expired, k); }
      assert first in Live(s.table, now) && first !in Live(t, now);
    }
  }

  lemma EarliestTaken<V>(s: Store<V>, now: int, expired: seq<Bytes>, k: Bytes)
    requires Enabled(s, now, Sweep(expired)) && expired != [] && k in s.heap
    ensures expired[0] in s.heap && s.heap[expired[0]] <= s.heap[k]
  {
    if k in expired {
      var j :| 0 <= j < |expired| && expired[j] == k;
    } else {
      assert k in s.heap - (set x | x in expired);
    }
  }

  /** A run in which a sweep takes a key that every lookup still sees: the deadline of a PEXPIRE far in the
      past is negative. */
  lemma NegativeDeadlineSwept()
    ensures var s1 := Step(Store(map[], map[]), 5, Put("k", 0));
            var s2 := Step(s1, 5, Expire("k", 5 - 10));
            && Seen(s2.table, 5, "k").Some? && Sweeps(s2, 5, 200, ["k"])
            && Seen(Step(s2, 5, Sweep(["k"])).table, 5, "k").None?
  {
  }

  /** `removeExpire` does not check expiry first: it gives the timed map's answer if and only if the key
      is not an expired entry still waiting to be collected, which it would bring back. */
  lemma PersistFaithfulIff<V>(s: Store<V>, now: int, k: Bytes)
    requires Agree(s)
    ensures Agree(Persist(s, k))
    ensures Seen(Persist(s, k).table, now, k) ==
              (var seen := Seen(s.table, now, k); if seen.Some? then Some(seen.value.(expireAt := -1)) else None)
            <==> !(k in s.table && Due(s.table[k], now))
  {
  }
}
