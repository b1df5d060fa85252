/** The incremental hash table on values: slot arrays are sequences of chains.

    The linked representation in `HashTables` is proved equal, operation by operation, to the
    functions here; the laws of the table over whole runs are proved about these functions.
 */
module HashSpec {
  import opened Text

  const INITIAL_CAPACITY := 4
  const REHASH_BATCH := 128

  type Hash = Bytes -> nat

  datatype Item<+V> = Item(key: Bytes, value: V, expireAt: int)

  /** `[]` is the table that has no slot array yet. */
  type Slots<V> = seq<seq<Item<V>>>

  datatype State<V> = State(primary: Slots<V>, rehash: Slots<V>, rehashing: bool, idx: nat)

  // ---------- one chain ----------

  /** Position of the first entry for `k`, or the length of the chain. */
  function Pos<V>(c: seq<Item<V>>, k: Bytes): (n: nat)
    ensures n <= |c|
    ensures forall i :: 0 <= i < n ==> c[i].key != k
    ensures n < |c| ==> c[n].key == k
  {
    if c == [] || c[0].key == k then 0 else 1 + Pos(c[1..], k)
  }

  function InChain<V>(c: seq<Item<V>>, k: Bytes): Option<Item<V>> {
    if Pos(c, k) < |c| then Some(c[Pos(c, k)]) else None
  }

  function Without<V>(c: seq<Item<V>>, k: Bytes): seq<Item<V>> {
    var n := Pos(c, k);
    if n < |c| then c[..n] + c[n + 1..] else c
  }

  // ---------- one table ----------

  function Slot<V>(hash: Hash, t: Slots<V>, k: Bytes): (i: nat)
    requires t != []
    ensures i < |t|
  {
    hash(k) % |t|
  }

  function Find<V>(hash: Hash, t: Slots<V>, k: Bytes): Option<Item<V>> {
    if t == [] then None else InChain(t[Slot(hash, t, k)], k)
  }

  function DelFrom<V>(hash: Hash, t: Slots<V>, k: Bytes): (r: Slots<V>)
    ensures |r| == |t|
  {
    if t == [] then t else t[Slot(hash, t, k) := Without(t[Slot(hash, t, k)], k)]
  }

  /** Insert at the head of the chain. */
  function Push<V>(hash: Hash, t: Slots<V>, it: Item<V>): (r: Slots<V>)
    requires t != []
    ensures |r| == |t|
  {
    var i := Slot(hash, t, it.key);
    t[i := [it] + t[i]]
  }

  function PushAll<V>(hash: Hash, t: Slots<V>, c: seq<Item<V>>): (r: Slots<V>)
    requires t != []
    ensures |r| == |t|
    decreases |c|
  {
    if c == [] then t else PushAll(hash, Push(hash, t, c[0]), c[1..])
  }

  /** Replace the item stored for its key. */
  function Put<V>(hash: Hash, t: Slots<V>, it: Item<V>): (r: Slots<V>)
    ensures |r| == |t|
  {
    if t == [] then t
    else
      var i := Slot(hash, t, it.key);
      var n := Pos(t[i], it.key);
      if n < |t[i]| then t[i := t[i][n := it]] else t
  }

  function Count<V>(t: Slots<V>): nat {
    if t == [] then 0 else |t[0]| + Count(t[1..])
  }

  function Alloc<V>(capacity: nat): (r: Slots<V>)
    ensures |r| == capacity && forall i :: 0 <= i < capacity ==> r[i] == []
  {
    seq(capacity, _ => [])
  }

  /** First slot at or after `i` that holds an entry, or the capacity. */
  function NextSlot<V>(t: Slots<V>, i: nat): (r: nat)
    requires i <= |t|
    ensures i <= r <= |t|
    ensures forall j :: i <= j < r ==> t[j] == []
    ensures r < |t| ==> t[r] != []
    decreases |t| - i
  {
    if i == |t| || t[i] != [] then i else NextSlot(t, i + 1)
  }

  // ---------- the two tables ----------

  function Empty<V>(): State<V> { State([], [], false, 0) }

  function Lookup<V>(hash: Hash, s: State<V>, k: Bytes): Option<Item<V>> {
    var p := Find(hash, s.primary, k);
    if p.Some? then p else if s.rehashing then Find(hash, s.rehash, k) else None
  }

  function Size<V>(s: State<V>): nat { Count(s.primary) + Count(s.rehash) }

  function MigrateOneSlot<V>(hash: Hash, s: State<V>): State<V>
    requires s.primary != [] && s.idx <= |s.rehash|
  {
    var i := NextSlot(s.rehash, s.idx);
    if i >= |s.rehash| then State(s.primary, [], false, 0)
    else
      var p := PushAll(hash, s.primary, s.rehash[i]);
      var r := s.rehash[i := []];
      if Count(r) == 0 then State(p, [], false, 0) else State(p, r, true, i + 1)
  }

  function RehashStep<V>(hash: Hash, s: State<V>, n: int): State<V>
    requires Shape(s)
    decreases n
  {
    if n <= 0 || !s.rehashing then s
    else ShapeMigrates(hash, s); RehashStep(hash, MigrateOneSlot(hash, s), n - 1)
  }

  function TriggerRehash<V>(s: State<V>): State<V> {
    State(Alloc(2 * |s.primary|), s.primary, true, 0)
  }

  /** `set` up to the point where `k` can only be in the primary table, which is allocated. */
  function Prepare<V>(hash: Hash, s: State<V>, k: Bytes): (r: State<V>)
    requires Shape(s)
    ensures r.primary != []
  {
    var s1 := RehashStep(hash, s, REHASH_BATCH);
    var s2 := if s1.rehashing then s1.(rehash := DelFrom(hash, s1.rehash, k)) else s1;
    if s2.primary == [] then s2.(primary := Alloc(INITIAL_CAPACITY)) else s2
  }

  /** Overwrite in place, keeping the deadline, or insert, and grow when overloaded. */
  function Store<V>(hash: Hash, s: State<V>, k: Bytes, v: V): State<V>
    requires s.primary != []
  {
    var existing := Find(hash, s.primary, k);
    if existing.Some? then s.(primary := Put(hash, s.primary, Item(k, v, existing.value.expireAt)))
    else
      var s' := s.(primary := Push(hash, s.primary, Item(k, v, -1)));
      if !s'.rehashing && Count(s'.primary) > 2 * |s'.primary| then TriggerRehash(s') else s'
  }

  function Set<V>(hash: Hash, s: State<V>, k: Bytes, v: V): State<V>
    requires Shape(s)
  {
    Store(hash, Prepare(hash, s, k), k, v)
  }

  function Del<V>(hash: Hash, s: State<V>, k: Bytes): State<V>
    requires Shape(s)
  {
    var s1 := RehashStep(hash, s, REHASH_BATCH);
    if Find(hash, s1.primary, k).Some? then s1.(primary := DelFrom(hash, s1.primary, k))
    else if s1.rehashing then s1.(rehash := DelFrom(hash, s1.rehash, k))
    else s1
  }

  /** Writing through the entry pointer that `find` returned: value and deadline of one key. */
  function Modify<V>(hash: Hash, s: State<V>, it: Item<V>): State<V> {
    if Find(hash, s.primary, it.key).Some? then s.(primary := Put(hash, s.primary, it))
    else s.(rehash := Put(hash, s.rehash, it))
  }

  // ---------- invariant ----------

  ghost predicate PowerOfTwo(n: nat) {
    n == 1 || (n > 1 && n % 2 == 0 && PowerOfTwo(n / 2))
  }

  /** What the cursors need in order to stay in range: slots before `idx` have been drained. */
  ghost predicate Shape<V>(s: State<V>) {
    && (s.primary != [] ==> |s.primary| >= INITIAL_CAPACITY && PowerOfTwo(|s.primary|))
    && (if s.rehashing then |s.rehash| >= INITIAL_CAPACITY && |s.primary| == 2 * |s.rehash| && s.idx < |s.rehash|
        else s.rehash == [] && s.idx == 0)
    && (forall i :: 0 <= i < s.idx ==> s.rehash[i] == [])
  }

  /** Every entry sits in its hash slot and no chain holds a key twice. */
  ghost predicate Placed<V>(hash: Hash, t: Slots<V>) {
    && (forall i, j :: 0 <= i < |t| && 0 <= j < |t[i]| ==> Slot(hash, t, t[i][j].key) == i)
    && (forall i, j, l :: 0 <= i < |t| && 0 <= j < l < |t[i]| ==> t[i][j].key != t[i][l].key)
  }

  ghost predicate Inv<V>(hash: Hash, s: State<V>) {
    && Shape(s) && Placed(hash, s.primary) && Placed(hash, s.rehash)
    && (forall k :: Find(hash, s.primary, k).None? || Find(hash, s.rehash, k).None?)
  }

  /** While a `c`-slot table is drained, at most one entry was added per 128 slots drained. */
  ghost predicate Loaded<V>(s: State<V>) {
    if s.rehashing then REHASH_BATCH * (Size(s) - 2 * |s.rehash| - 1) <= s.idx
    else Size(s) <= 2 * |s.primary|
  }

  // ---------- meaning ----------

  ghost function KeysOf<V>(t: Slots<V>): set<Bytes> {
    set i, j | 0 <= i < |t| && 0 <= j < |t[i]| :: t[i][j].key
  }

  ghost function Contents<V>(hash: Hash, s: State<V>): map<Bytes, Item<V>> {
    map k | k in KeysOf(s.primary) + KeysOf(s.rehash) && Lookup(hash, s, k).Some? :: Lookup(hash, s, k).value
  }

  lemma {:induction false} CountZero<V>(t: Slots<V>)
    ensures Count(t) == 0 <==> forall i :: 0 <= i < |t| ==> t[i] == []
  {
    if t != [] {
      CountZero(t[1..]);
      assert forall i :: 0 < i < |t| ==> t[i] == t[1..][i - 1];
    }
  }

  lemma ShapeMigrates<V>(hash: Hash, s: State<V>)
    requires Shape(s) && s.rehashing
    ensures var s' := MigrateOneSlot(hash, s);
            Shape(s') && |s'.primary| == |s.primary| && (s'.rehashing ==> |s'.rehash| == |s.rehash| && s'.idx > s.idx)
  {
    var i := NextSlot(s.rehash, s.idx);
    if i < |s.rehash| {
      CountZero(s.rehash[i := []]);
    }
  }
}
