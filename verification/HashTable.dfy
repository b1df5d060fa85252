/** The incremental hash table as it is laid out in memory: slot arrays of singly linked entries,
    relinked in place.  Every method is proved equal to its counterpart on values in `HashSpec`. */
module HashTables {
  import opened Text
  import opened HashSpec
  import opened HashProofs
  import opened HashScan

  class HTEntry<V> {
    const key: Bytes
    const hashCode: nat
    var value: V
    var expireAt: int
    var next: HTEntry?<V>

    constructor (key: Bytes, value: V, hashCode: nat)
      ensures this.key == key && this.value == value && this.hashCode == hashCode
      ensures expireAt == -1 && next == null
    {
      this.key, this.value, this.hashCode, expireAt, next := key, value, hashCode, -1, null;
    }

    ghost predicate Holds(hash: Hash, it: Item<V>)
      reads this
    {
      hashCode == hash(key) && it == Item(key, value, expireAt)
    }
  }

  ghost function At<V>(c: seq<HTEntry<V>>, j: nat): HTEntry?<V> {
    if j < |c| then c[j] else null
  }

  /** The entries of `c`, linked in order, hold `items`. */
  ghost predicate Chained<V>(hash: Hash, c: seq<HTEntry<V>>, items: seq<Item<V>>)
    reads c
  {
    && |c| == |items|
    && (forall j :: 0 <= j < |c| ==> c[j].Holds(hash, items[j]))
    && (forall j {:trigger c[j].next} :: 0 <= j < |c| ==> c[j].next == At(c, j + 1))
  }

  /** One slot array with its chains. */
  class Table<V> {
    const hash: Hash
    const slots: array<HTEntry?<V>>
    var size: nat
    ghost var chains: seq<seq<HTEntry<V>>>
    ghost var view: Slots<V>
    ghost var nodes: set<HTEntry<V>>

    /** The entries reached from the slots hold `view`. */
    ghost predicate Linked()
      reads this`chains, this`view, this`nodes, slots, nodes
    {
      && slots.Length == |chains| == |view|
      && (forall i :: 0 <= i < |chains| ==> slots[i] == At(chains[i], 0))
      && (forall i, j :: 0 <= i < |chains| && 0 <= j < |chains[i]| ==> chains[i][j] in nodes)
      && (forall i :: 0 <= i < |chains| ==> Chained(hash, chains[i], view[i]))
    }

    ghost predicate Rep()
      reads this`chains, this`view, this`nodes, slots, nodes
    {
      Linked() && Placed(hash, view)
    }

    ghost predicate Valid()
      reads this, slots, nodes
    {
      Rep() && size == Count(view)
    }

    constructor (hash: Hash, capacity: nat)
      ensures Valid() && fresh(slots) && this.hash == hash
      ensures view == Alloc(capacity) && nodes == {}
    {
      this.hash := hash;
      slots := new HTEntry?<V>[capacity](_ => null);
      size := 0;
      chains := seq(capacity, _ => []);
      view := Alloc(capacity);
      nodes := {};
      new;
      AllocLaw<V>(hash, capacity);
    }

    lemma NodeAt(i: nat, j: nat)
      requires Rep() && i < |chains| && j < |chains[i]|
      ensures chains[i][j] in nodes
      ensures j < |view[i]| && chains[i][j].Holds(hash, view[i][j])
      ensures Slot(hash, view, chains[i][j].key) == i
    {
    }

    lemma ValidPlaced()
      requires Valid()
      ensures Placed(hash, view) && slots.Length == |view|
    {
    }

    /** An entry has one place. */
    lemma OnePlace(i: nat, j: nat, i': nat, j': nat)
      requires Rep() && i < |chains| && j < |chains[i]| && i' < |chains| && j' < |chains[i']|
      requires chains[i][j] == chains[i'][j']
      ensures i == i' && j == j'
    {
      NodeAt(i, j);
      NodeAt(i', j');
    }

    /** `e` is the stored entry of its key. */
    ghost predicate Stores(e: HTEntry<V>)
      reads this`chains, this`view
    {
      && view != [] && |view| == |chains|
      && var i := Slot(hash, view, e.key);
      && Pos(view[i], e.key) < |chains[i]| == |view[i]|
      && chains[i][Pos(view[i], e.key)] == e
    }

    lemma StoresFind(e: HTEntry<V>)
      requires Rep() && Stores(e)
      ensures e in nodes && Find(hash, view, e.key).Some? && e.Holds(hash, Find(hash, view, e.key).value)
    {
      hide Pos;
      var i := Slot(hash, view, e.key);
      NodeAt(i, Pos(view[i], e.key));
    }

    /** `findInTable`. */
    method FindIn(key: Bytes, h: nat) returns (e: HTEntry?<V>)
      requires Rep() && h == hash(key)
      ensures e == null <==> Find(hash, view, key).None?
      ensures e != null ==> e.key == key && Stores(e)
    {
      if slots.Length == 0 {
        return null;
      }
      var idx := h % slots.Length;
      ghost var c, j := chains[idx], 0;
      e := slots[idx];
      while e != null
        invariant 0 <= j <= |c| && e == At(c, j)
        invariant forall l :: 0 <= l < j ==> c[l].key != key
        decreases |c| - j
      {
        NodeAt(idx, j);
        if e.hashCode == h && e.key == key {
          InChainAt(view[idx], j);
          return;
        }
        e, j := e.next, j + 1;
      }
      forall l | 0 <= l < |view[idx]|
        ensures view[idx][l].key != key
      {
        NodeAt(idx, l);
      }
    }
  
    /** The search of `delFromTable`: the entry for `key` and its predecessor in the chain. */
    method Locate(key: Bytes, h: nat) returns (prev: HTEntry?<V>, e: HTEntry?<V>, ghost j: nat)
      requires Rep() && h == hash(key) && slots.Length > 0
      ensures var i := Slot(hash, view, key);
              && j == Pos(view[i], key) <= |chains[i]| && |chains[i]| == |view[i]|
              && e == At(chains[i], j)
              && prev == if j == 0 then null else chains[i][j - 1]
    {
      var idx := h % slots.Length;
      ghost var c := chains[idx];
      j := 0;
      prev, e := null, slots[idx];
      while e != null && !(e.hashCode == h && e.key == key)
        invariant 0 <= j <= |c| && e == At(c, j)
        invariant prev == if j == 0 then null else c[j - 1]
        invariant forall l :: 0 <= l < j ==> view[idx][l].key != key
        decreases |c| - j
      {
        NodeAt(idx, j);
        prev, e, j := e, e.next, j + 1;
      }
      if e != null { NodeAt(idx, j); }
    }

    /** `delFromTable`: unlink the entry for `key`, if there is one. */
    method DeleteFrom(key: Bytes, h: nat) returns (found: bool)
      requires Valid() && h == hash(key)
      modifies this, slots, nodes
      ensures Valid() && view == DelFrom(hash, old(view), key)
      ensures found <==> Find(hash, old(view), key).Some?
      ensures nodes == old(nodes)
    {
      hide Placed, Count, Pos, DelFrom, Find;
      DelLaw(hash, view, key);
      DelAt(hash, view, key);
      if slots.Length == 0 {
        return false;
      }
      var idx := h % slots.Length;
      ghost var j;
      var prev, e;
      prev, e, j := Locate(key, h);
      if e == null {
        return false;
      }
      hide Linked;
      Unlink(idx, j, prev, e);
      size := size - 1;
      return true;
    }

    /** Take entry `j` out of the chain of slot `idx`. */
    method Unlink(idx: nat, ghost j: nat, prev: HTEntry?<V>, e: HTEntry<V>)
      requires Rep() && idx < slots.Length && j < |chains[idx]| && e == chains[idx][j]
      requires prev == if j == 0 then null else chains[idx][j - 1]
      modifies this`chains, this`view, slots, nodes`next
      ensures Linked()
      ensures view == old(view)[idx := old(view)[idx][..j] + old(view)[idx][j + 1..]]
    {
      hide Placed, Chained;
      NodeAt(idx, j);
      assert forall i :: 0 <= i < |chains| ==> slots[i] == At(chains[i], 0);
      ghost var c, items := chains[idx], view[idx];
      Bypass(idx, j, prev, e);
      ghost var c', items' := c[..j] + c[j + 1..], items[..j] + items[j + 1..];
      assert forall l :: 0 <= l < |c'| ==> c'[l] in nodes;
      chains := chains[idx := c'];
      view := view[idx := items'];
    }

    /** Bend the link in front of entry `j` of slot `idx` past it; the other chains are not concerned. */
    method Bypass(idx: nat, ghost j: nat, prev: HTEntry?<V>, e: HTEntry<V>)
      requires Rep() && idx < slots.Length && j < |chains[idx]| && e == chains[idx][j]
      requires prev == if j == 0 then null else chains[idx][j - 1]
      modifies slots, nodes`next
      ensures forall i :: 0 <= i < |chains| && i != idx ==> slots[i] == old(slots[i]) && Chained(hash, chains[i], view[i])
      ensures var c := chains[idx][..j] + chains[idx][j + 1..];
              slots[idx] == At(c, 0) && Chained(hash, c, view[idx][..j] + view[idx][j + 1..])
    {
      hide Placed;
      ghost var c, items := chains[idx], view[idx];
      OnlyPlace(idx, j, prev);
      assert Chained(hash, c, items);
      if prev != null {
        prev.next := e.next;
      } else {
        slots[idx] := e.next;
      }
      Unlinked(hash, c, items, j);
    }

    /** Link an entry in at the head of its chain. */
    method PushNode(e: HTEntry<V>)
      requires Valid() && view != [] && e !in nodes
      requires e.hashCode == hash(e.key) && Find(hash, view, e.key).None?
      modifies this, slots, e`next
      ensures Valid() && nodes == old(nodes) + {e}
      ensures view == Push(hash, old(view), Item(e.key, e.value, e.expireAt))
    {
      hide Placed, Count, Find;
      ghost var it := Item(e.key, e.value, e.expireAt);
      PushLaw(hash, view, it);
      var idx := e.hashCode % slots.Length;
      ghost var c := chains[idx];
      assert e !in c;
      e.next := slots[idx];
      slots[idx] := e;
      size := size + 1;
      assert Chained(hash, [e] + c, [it] + view[idx]) by {
        assert old(Chained(hash, c, view[idx]));
        Prepended(hash, e, c, it, view[idx]);
      }
      forall i | 0 <= i < |chains| && i != idx
        ensures Chained(hash, chains[i], view[i])
      {
        assert e !in chains[i];
      }
      chains := chains[idx := [e] + c];
      view := view[idx := [it] + view[idx]];
      nodes := nodes + {e};
    }

    /** `Linked`, except that `e` may hold something else than `view` says. */
    ghost predicate LinkedBut(e: HTEntry<V>)
      reads this`chains, this`view, this`nodes, slots, nodes
    {
      && slots.Length == |chains| == |view|
      && (forall i :: 0 <= i < |chains| ==> slots[i] == At(chains[i], 0) && |chains[i]| == |view[i]|)
      && (forall i, j :: 0 <= i < |chains| && 0 <= j < |chains[i]| ==> chains[i][j] in nodes)
      && (forall i, j :: 0 <= i < |chains| && 0 <= j < |chains[i]| && chains[i][j] != e ==>
            chains[i][j].Holds(hash, view[i][j]))
      && (forall i, j {:trigger chains[i][j].next} :: 0 <= i < |chains| && 0 <= j < |chains[i]| ==>
            chains[i][j].next == At(chains[i], j + 1))
    }

    lemma BeforeWrite(e: HTEntry<V>)
      requires Valid() && Stores(e)
      ensures e in nodes && LinkedBut(e) && Find(hash, view, e.key).Some?
      ensures e.hashCode == hash(e.key) && Placed(hash, view) && size == Count(view)
      ensures var i := Slot(hash, view, e.key);
              forall i', j' :: 0 <= i' < |chains| && 0 <= j' < |chains[i']| && chains[i'][j'] == e ==>
                i' == i && j' == Pos(view[i], e.key)
    {
      hide Placed, Count, Pos;
      StoresFind(e);
      var i := Slot(hash, view, e.key);
      forall i', j' | 0 <= i' < |chains| && 0 <= j' < |chains[i']| && chains[i'][j'] == e
        ensures i' == i && j' == Pos(view[i], e.key)
      {
        OnePlace(i', j', i, Pos(view[i], e.key));
      }
    }

    /** Bring `view` up to date after a write to the fields of `e`. */
    ghost method AfterWrite(e: HTEntry<V>)
      requires LinkedBut(e) && Stores(e) && e.hashCode == hash(e.key)
      requires Find(hash, view, e.key).Some? && Placed(hash, view) && size == Count(view)
      requires var i := Slot(hash, view, e.key);
               forall i', j' :: 0 <= i' < |chains| && 0 <= j' < |chains[i']| && chains[i'][j'] == e ==>
                 i' == i && j' == Pos(view[i], e.key)
      modifies this`view
      ensures Valid() && view == Put(hash, old(view), Item(e.key, e.value, e.expireAt))
    {
      hide Placed, Count, Pos;
      var it := Item(e.key, e.value, e.expireAt);
      PutLaw(hash, view, it);
      var i := Slot(hash, view, e.key);
      var j := Pos(view[i], e.key);
      view := view[i := view[i][j := it]];
      forall i' | 0 <= i' < |chains|
        ensures Chained(hash, chains[i'], view[i'])
      {
        assert i' != i ==> e !in chains[i'];
      }
    }

    /** The entries of one chain are distinct and occur in no other chain. */
    lemma ChainApart(i: nat)
      requires Rep() && i < |chains|
      ensures forall j, l :: 0 <= j < l < |chains[i]| ==> chains[i][j] != chains[i][l]
      ensures forall i', j' :: 0 <= i' < |chains| && 0 <= j' < |chains[i']| && i' != i ==> chains[i'][j'] !in chains[i]
    {
      hide Placed;
      forall i', j', j | 0 <= i' < |chains| && 0 <= j' < |chains[i']| && 0 <= j < |chains[i]| && chains[i'][j'] == chains[i][j]
        ensures i' == i && j' == j
      {
        OnePlace(i', j', i, j);
      }
    }

    /** Take the whole chain of slot `i` out of the table; the size counter is left to the caller. */
    method Detach(i: nat) returns (head: HTEntry?<V>, ghost c: seq<HTEntry<V>>)
      requires Rep() && i < slots.Length
      modifies this`chains, this`view, this`nodes, slots
      ensures Rep() && view == old(view)[i := []]
      ensures head == At(c, 0) && Chained(hash, c, old(view)[i])
      ensures forall j :: 0 <= j < |c| ==> c[j] in old(nodes) && c[j] !in nodes
      ensures forall j, l :: 0 <= j < l < |c| ==> c[j] != c[l]
      ensures nodes <= old(nodes)
    {
      hide Placed;
      ChainLeaves(hash, view, i);
      head, c := slots[i], chains[i];
      ChainApart(i);
      slots[i] := null;
      chains, view := chains[i := []], view[i := []];
      nodes := nodes - (set e | e in c);
    }

    /** The keys of one chain, by following the links. */
    method KeysOfSlot(i: nat) returns (ks: seq<Bytes>)
      requires Rep() && i < slots.Length
      ensures ks == ChainKeys(view[i])
    {
      hide Placed;
      ghost var c := chains[i];
      ks := [];
      var e := slots[i];
      while e != null
        invariant |ks| <= |c| && e == At(c, |ks|)
        invariant ks == ChainKeys(view[i])[..|ks|]
        decreases |c| - |ks|
      {
        NodeAt(i, |ks|);
        ks := ks + [e.key];
        e := e.next;
      }
    }

    /** All keys from slot `lo` on, until at least `count` keys were visited. */
    method KeysFrom(lo: nat, count: int) returns (stop: nat, ks: seq<Bytes>)
      requires Rep() && lo <= slots.Length
      ensures stop == ScanStop(view, lo, count) <= slots.Length
      ensures ks == FlatKeys(view, lo, stop)
    {
      hide Placed, FlatKeys, Chained;
      ks, stop := [], lo;
      FlatKeysEmpty(view, lo);
      while |ks| < count && stop < slots.Length
        invariant lo <= stop <= slots.Length == |view|
        invariant ScanStop(view, lo, count) == ScanStop(view, stop, count - |ks|)
        invariant ks == FlatKeys(view, lo, stop)
        decreases slots.Length - stop
      {
        var more := KeysOfSlot(stop);
        FlatKeysExtend(view, lo, stop);
        ks, stop := ks + more, stop + 1;
      }
    }

    /** All keys, slot by slot. */
    method AllKeys() returns (ks: seq<Bytes>)
      requires Rep()
      ensures ks == FlatKeys(view, 0, |view|)
    {
      hide Placed, FlatKeys, Chained;
      ks := [];
      var i := 0;
      FlatKeysEmpty(view, 0);
      while i < slots.Length
        invariant 0 <= i <= slots.Length == |view|
        invariant ks == FlatKeys(view, 0, i)
      {
        var more := KeysOfSlot(i);
        FlatKeysExtend(view, 0, i);
        ks, i := ks + more, i + 1;
      }
    }

    /** The predecessor of entry `j` of slot `idx` occurs nowhere else. */
    lemma OnlyPlace(idx: nat, j: nat, prev: HTEntry?<V>)
      requires Rep() && idx < |chains| && j < |chains[idx]|
      requires prev == if j == 0 then null else chains[idx][j - 1]
      ensures prev != null ==> prev in nodes
      ensures forall i :: 0 <= i < |chains| && i != idx && prev != null ==> prev !in chains[i]
      ensures forall l :: 0 <= l < |chains[idx]| && l != j - 1 && prev != null ==> prev != chains[idx][l]
    {
      forall i, l | 0 <= i < |chains| && 0 <= l < |chains[i]| && prev != null && chains[i][l] == prev
        ensures i == idx && l == j - 1
      {
        OnePlace(i, l, idx, j - 1);
      }
    }
  }

  lemma Prepended<V>(hash: Hash, e: HTEntry<V>, c: seq<HTEntry<V>>, it: Item<V>, items: seq<Item<V>>)
    requires Chained(hash, c, items) && e.Holds(hash, it) && e.next == At(c, 0)
    ensures Chained(hash, [e] + c, [it] + items)
  {
    var d := [e] + c;
    forall j | 0 <= j < |d|
      ensures d[j].Holds(hash, ([it] + items)[j]) && d[j].next == At(d, j + 1)
    {
      assert j > 0 ==> d[j] == c[j - 1];
    }
  }

  lemma DelAt<V>(hash: Hash, t: Slots<V>, key: Bytes)
    ensures t == [] ==> DelFrom(hash, t, key) == t && Find(hash, t, key).None?
    ensures t != [] ==>
              var i := Slot(hash, t, key);
              var j := Pos(t[i], key);
              if j < |t[i]| then DelFrom(hash, t, key) == t[i := t[i][..j] + t[i][j + 1..]] && Find(hash, t, key).Some?
              else DelFrom(hash, t, key) == t && Find(hash, t, key).None?
  {
    hide Pos;
  }

  /** Bending the link in front of entry `j` past it takes that entry out of the chain. */
  lemma Unlinked<V>(hash: Hash, c: seq<HTEntry<V>>, items: seq<Item<V>>, j: nat)
    requires j < |c| == |items|
    requires forall l :: 0 <= l < |c| ==> c[l].Holds(hash, items[l])
    requires forall l {:trigger c[l].next} :: 0 <= l < |c| ==> c[l].next == At(c, if l == j - 1 then l + 2 else l + 1)
    ensures Chained(hash, c[..j] + c[j + 1..], items[..j] + items[j + 1..])
  {
    var d, items' := c[..j] + c[j + 1..], items[..j] + items[j + 1..];
    forall l | 0 <= l < |d|
      ensures d[l].Holds(hash, items'[l]) && d[l].next == At(d, l + 1)
    {
      assert d[l] == c[if l < j then l else l + 1];
    }
  }

  /** The migration loop: relink every entry of a detached chain into the primary table. */
  method MoveChain<V>(primary: Table<V>, rehash: Table<V>, head: HTEntry?<V>,
                      ghost c: seq<HTEntry<V>>, ghost items: seq<Item<V>>)
    requires primary != rehash && primary.slots != rehash.slots && primary.nodes !! rehash.nodes
    requires primary.Valid() && primary.view != [] && rehash.Rep() && rehash.size == Count(rehash.view) + |c|
    requires head == At(c, 0) && Chained(primary.hash, c, items) && Distinct(items)
    requires forall j :: 0 <= j < |c| ==> c[j] !in primary.nodes && c[j] !in rehash.nodes
    requires forall j, l :: 0 <= j < l < |c| ==> c[j] != c[l]
    requires AllAbsent(primary.hash, primary.view, items)
    modifies primary, primary.slots, rehash`size, c`next
    ensures primary.Valid() && rehash.Rep() && rehash.size == Count(rehash.view)
    ensures primary.view == PushAll(primary.hash, old(primary.view), items)
    ensures primary.nodes <= old(primary.nodes) + (set e | e in c)
  {
    hide Placed, Count, Find, InChain, PushAll, Push, Distinct, Table.Rep, Table.Valid, Chained;
    ghost var hash, start := primary.hash, primary.view;
    ghost var all := set x | x in c;
    ghost var rest, pending := c, items;
    var e := head;
    while e != null
      invariant e == At(rest, 0) && Chained(hash, rest, pending) && Distinct(pending)
      invariant primary.Valid() && |primary.view| == |start| && rehash.Rep()
      invariant rehash.size == Count(rehash.view) + |rest|
      invariant primary.nodes <= old(primary.nodes) + all
      invariant forall l :: 0 <= l < |rest| ==> rest[l] in c && rest[l] !in primary.nodes
      invariant forall l, m :: 0 <= l < m < |rest| ==> rest[l] != rest[m]
      invariant AllAbsent(hash, primary.view, pending)
      invariant PushAll(hash, start, items) == PushAll(hash, primary.view, pending)
      decreases |rest|
    {
      var next := e.next;
      ChainTail(hash, rest, pending);
      primary.ValidPlaced();
      PushAllStep(hash, primary.view, pending);
      assert forall l :: 0 < l < |rest| ==> rest[l] != e;
      primary.PushNode(e);
      rehash.size := rehash.size - 1;
      e := next;
      rest, pending := rest[1..], pending[1..];
    }
    ChainLengths(hash, rest, pending);
    PushAllDone(hash, primary.view, pending);
  }

  ghost predicate AllAbsent<V>(hash: Hash, t: Slots<V>, items: seq<Item<V>>) {
    forall l :: 0 <= l < |items| ==> Find(hash, t, items[l].key).None?
  }

  lemma ChainLengths<V>(hash: Hash, c: seq<HTEntry<V>>, items: seq<Item<V>>)
    requires Chained(hash, c, items)
    ensures |c| == |items|
  {
  }

  lemma ChainTail<V>(hash: Hash, c: seq<HTEntry<V>>, items: seq<Item<V>>)
    requires c != [] && Chained(hash, c, items)
    ensures items != [] && c[0].Holds(hash, items[0])
    ensures c[0].next == At(c[1..], 0) && Chained(hash, c[1..], items[1..])
  {
  }

  lemma PushAllStep<V>(hash: Hash, t: Slots<V>, items: seq<Item<V>>)
    requires t != [] && items != [] && Placed(hash, t) && Distinct(items) && AllAbsent(hash, t, items)
    ensures Find(hash, t, items[0].key).None? && Distinct(items[1..])
    ensures PushAll(hash, t, items) == PushAll(hash, Push(hash, t, items[0]), items[1..])
    ensures AllAbsent(hash, Push(hash, t, items[0]), items[1..])
  {
    hide Placed, Find, Push;
    PushLaw(hash, t, items[0]);
  }

  lemma PushAllDone<V>(hash: Hash, t: Slots<V>, items: seq<Item<V>>)
    requires t != [] && items == []
    ensures PushAll(hash, t, items) == t
  {
  }

  /** The key-value store: a primary table and, while rehashing, the old table being drained. */
  class HashTable<V> {
    const hash: Hash
    var primary: Table<V>
    var rehash: Table<V>
    var isRehashing: bool
    var rehashIdx: nat
    /** What the table means: one map from keys to entries. */
    ghost var contents: map<Bytes, Item<V>>
    ghost var Repr: set<object>

    ghost predicate Owned()
      reads this, Repr
    {
      && this in Repr && primary in Repr && primary.slots in Repr && rehash in Repr && rehash.slots in Repr
      && primary.nodes <= Repr && rehash.nodes <= Repr
      && primary != rehash && primary.slots != rehash.slots && primary.nodes !! rehash.nodes
      && primary.hash == rehash.hash == hash
    }

    ghost predicate Valid()
      reads this, Repr
      ensures Valid() ==> this in Repr
    {
      && Owned() && primary.Valid() && rehash.Valid() && Good(hash, State())
      && contents == HashSpec.Contents(hash, State())
    }

    ghost function State(): HashSpec.State<V>
      reads this, primary, rehash
    {
      HashSpec.State(primary.view, rehash.view, isRehashing, rehashIdx)
    }

    ghost predicate HasEntry(e: HTEntry<V>)
      reads this, primary, rehash
    {
      primary.Stores(e) || rehash.Stores(e)
    }

    constructor (hash: Hash)
      ensures Valid() && fresh(Repr) && this.hash == hash
      ensures contents == map[]
    {
      var p := new Table<V>(hash, 0);
      var r := new Table<V>(hash, 0);
      this.hash, primary, rehash, isRehashing, rehashIdx := hash, p, r, false, 0;
      contents, Repr := map[], {p, p.slots, r, r.slots};
      new;
      assert forall o :: o in Repr ==> fresh(o);
      Repr := Repr + {this};
      StartsValid();
    }

    lemma StartsValid()
      requires Owned() && primary.Valid() && rehash.Valid()
      requires primary.view == Alloc<V>(0) && rehash.view == Alloc<V>(0) && !isRehashing && rehashIdx == 0
      requires contents == map[]
      ensures Valid()
    {
      hide Good, HashSpec.Contents, Table.Valid;
      StartsGood();
    }

    lemma StartsGood()
      requires primary.view == Alloc<V>(0) && rehash.view == Alloc<V>(0) && !isRehashing && rehashIdx == 0
      ensures Good(hash, State()) && State() == Empty<V>() && HashSpec.Contents(hash, State()) == map[]
    {
      hide Good, HashSpec.Contents;
      assert Alloc<V>(0) == [];
      EmptyGood<V>(hash);
    }

    /** `find`: primary first, then the old table. */
    method FindEntry(key: Bytes) returns (e: HTEntry?<V>)
      requires Valid()
      ensures e == null <==> Lookup(hash, State(), key).None?
      ensures e != null ==> e.key == key && HasEntry(e)
      ensures e != null ==> e in Repr && Lookup(hash, State(), key) == Some(Item(key, e.value, e.expireAt))
      ensures e != null <==> key in contents
      ensures e != null ==> contents[key] == Item(key, e.value, e.expireAt)
    {
      hide Find, Good, HashSpec.Contents;
      ContentsAt(hash, State());
      var h := hash(key);
      e := primary.FindIn(key, h);
      if e != null {
        primary.StoresFind(e);
        return;
      }
      if isRehashing {
        e := rehash.FindIn(key, h);
        if e != null { rehash.StoresFind(e); }
      }
    }

    /** `migrateOneSlot`. */
    method Migrate()
      requires Owned() && primary.Valid() && rehash.Valid() && Inv(hash, State()) && isRehashing
      modifies Repr
      ensures Owned() && primary.Valid() && rehash.Valid() && fresh(Repr - old(Repr)) && contents == old(contents)
      ensures State() == MigrateOneSlot(hash, old(State()))
    {
      hide Inv, Find, Placed, Count, PushAll, Distinct, AllAbsent, Chained, Table.Rep;
      ghost var s := State();
      assert Shape(s) by { ShapeOf(hash, s); }
      rehash.ValidPlaced();
      SkipEmpty();
      if rehashIdx >= rehash.slots.Length {
        DropOldTable();
        return;
      }
      ghost var i, items := rehashIdx, rehash.view[rehashIdx];
      ReadyToMove(hash, s, i);
      ghost var c;
      var head;
      head, c := rehash.Detach(rehashIdx);
      ChainLengths(hash, c, items);
      MoveChain(primary, rehash, head, c, items);
      rehashIdx := rehashIdx + 1;
      if rehash.size == 0 {
        DropOldTable();
      }
    }

    method SkipEmpty()
      requires rehash.Rep() && rehashIdx <= |rehash.view|
      modifies this`rehashIdx
      ensures rehashIdx == NextSlot(rehash.view, old(rehashIdx))
    {
      while rehashIdx < rehash.slots.Length && rehash.slots[rehashIdx] == null
        invariant rehashIdx <= |rehash.view|
        invariant NextSlot(rehash.view, rehashIdx) == NextSlot(rehash.view, old(rehashIdx))
        decreases rehash.slots.Length - rehashIdx
      {
        rehashIdx := rehashIdx + 1;
      }
    }

    method DropOldTable()
      requires Owned() && primary.Valid()
      modifies this
      ensures Owned() && primary.Valid() && rehash.Valid() && fresh(Repr - old(Repr)) && primary == old(primary)
      ensures contents == old(contents)
      ensures State() == HashSpec.State(primary.view, [], false, 0)
    {
      rehash := new Table<V>(hash, 0);
      isRehashing, rehashIdx := false, 0;
      Repr := Repr + {rehash, rehash.slots};
    }

    /** `rehashStep`. */
    method RehashSteps(nSteps: int)
      requires Valid()
      modifies Repr
      ensures Valid() && fresh(Repr - old(Repr))
      ensures State() == RehashStep(hash, old(State()), nSteps)
      ensures contents == old(contents)
    {
      hide Good, Inv, RehashStep, MigrateOneSlot, Table.Valid, HashSpec.Contents;
      ghost var s := State();
      GoodStates(hash, s, nSteps);
      RehashStepLaw(hash, s, 0);
      var i := 0;
      while i < nSteps && isRehashing
        invariant 0 <= i && (i <= nSteps || i == 0)
        invariant Owned() && primary.Valid() && rehash.Valid() && fresh(Repr - old(Repr)) && contents == old(contents)
        invariant Inv(hash, State()) && Shape(State()) && Shape(s)
        invariant RehashStep(hash, s, nSteps) == RehashStep(hash, State(), nSteps - i)
        decreases nSteps - i
      {
        OneStep(hash, State(), nSteps - i);
        Migrate();
        i := i + 1;
      }
      NoStep(hash, State(), nSteps - i);
    }

    /** The first half of `set`: migrate a batch, forget the key's old-table entry, allocate lazily. */
    method PrepareFor(key: Bytes, h: nat)
      requires Valid() && h == hash(key)
      modifies Repr
      ensures Owned() && primary.Valid() && rehash.Valid() && fresh(Repr - old(Repr))
      ensures Inv(hash, State()) && State() == Prepare(hash, old(State()), key)
    {
      hide Good, Inv, RehashStep, Table.Valid, DelFrom, Lookup, Find, Size;
      ghost var s := State();
      GoodStates(hash, s, REHASH_BATCH);
      PrepareLaw(hash, s, key);
      if isRehashing {
        RehashSteps(REHASH_BATCH);
      } else {
        NoStep(hash, s, REHASH_BATCH);
      }
      if isRehashing {
        var _ := rehash.DeleteFrom(key, h);
      }
      primary.ValidPlaced();
      if primary.slots.Length == 0 {
        primary := new Table<V>(hash, INITIAL_CAPACITY);
        Repr := Repr + {primary, primary.slots};
      }
    }

    method TriggerRehashing()
      requires Owned() && primary.Valid() && !isRehashing
      modifies this
      ensures Owned() && primary.Valid() && rehash.Valid() && fresh(Repr - old(Repr))
      ensures State() == TriggerRehash(old(State()))
    {
      hide Table.Valid;
      primary.ValidPlaced();
      rehash := primary;
      primary := new Table<V>(hash, rehash.slots.Length * 2);
      isRehashing, rehashIdx := true, 0;
      Repr := Repr + {primary, primary.slots};
    }

    /** The second half of `set`: overwrite in place, or insert and grow when overloaded. */
    method StoreIn(key: Bytes, v: V, h: nat)
      requires Owned() && primary.Valid() && rehash.Valid() && h == hash(key) && primary.view != []
      modifies Repr
      ensures Owned() && primary.Valid() && rehash.Valid() && fresh(Repr - old(Repr))
      ensures State() == Store(hash, old(State()), key, v)
    {
      hide Find, Push, Put, Count, Table.Rep;
      primary.ValidPlaced();
      var existing := primary.FindIn(key, h);
      if existing != null {
        primary.StoresFind(existing);
        primary.BeforeWrite(existing);
        existing.value := v;
        primary.AfterWrite(existing);
        return;
      }
      InsertNew(key, v, h);
    }

    method InsertNew(key: Bytes, v: V, h: nat)
      requires Owned() && primary.Valid() && rehash.Valid() && h == hash(key) && primary.view != []
      requires Find(hash, primary.view, key).None?
      modifies Repr
      ensures Owned() && primary.Valid() && rehash.Valid() && fresh(Repr - old(Repr))
      ensures State() == Store(hash, old(State()), key, v)
    {
      hide Find, Push, Put, Count, Table.Rep;
      primary.ValidPlaced();
      var e := new HTEntry<V>(key, v, h);
      primary.PushNode(e);
      Repr := Repr + {e};
      primary.ValidPlaced();
      if !isRehashing && primary.size > 2 * primary.slots.Length {
        TriggerRehashing();
      }
    }

    method SetKey(key: Bytes, v: V)
      requires Valid()
      modifies Repr
      ensures Valid() && fresh(Repr - old(Repr))
      ensures State() == Set(hash, old(State()), key, v)
      ensures contents == old(contents)[key := Item(key, v, DeadlineAfterSet(hash, old(State()), key))]
      ensures key !in old(contents) ==> contents == old(contents)[key := Item(key, v, -1)]
    {
      hide Good, Inv, Prepare, Store, Table.Valid, HashSpec.Contents, DeadlineAfterSet, Lookup, Find, RehashStep;
      ghost var s := State();
      GoodStates(hash, s, 0);
      SetRefines(hash, s, key, v);
      SetContents(hash, s, key, v);
      DeadlineSurvivesIff(hash, s, key);
      ContentsAt(hash, s);
      var h := hash(key);
      PrepareFor(key, h);
      StoreIn(key, v, h);
      contents := HashSpec.Contents(hash, State());
    }

    method DeleteKey(key: Bytes) returns (found: bool)
      requires Valid()
      modifies Repr
      ensures Valid() && fresh(Repr - old(Repr))
      ensures State() == Del(hash, old(State()), key)
      ensures found <==> Lookup(hash, old(State()), key).Some?
      ensures contents == old(contents) - {key} && (found <==> key in old(contents))
    {
      hide Good, Inv, RehashStep, DelFrom, Find, Table.Valid, HashSpec.Contents;
      ghost var s := State();
      GoodStates(hash, s, REHASH_BATCH);
      DelRefines(hash, s, key);
      DelContents(hash, s, key);
      ContentsAt(hash, s);
      RehashStepLaw(hash, s, REHASH_BATCH);
      if isRehashing {
        RehashSteps(REHASH_BATCH);
      } else {
        NoStep(hash, s, REHASH_BATCH);
      }
      found := DeleteNow(key, hash(key));
      contents := HashSpec.Contents(hash, State());
    }

    /** Primary table first, then the old one. */
    method DeleteNow(key: Bytes, h: nat) returns (found: bool)
      requires Owned() && primary.Valid() && rehash.Valid() && h == hash(key)
      modifies Repr
      ensures Owned() && primary.Valid() && rehash.Valid() && Repr == old(Repr)
      ensures found == Lookup(hash, old(State()), key).Some?
      ensures State() == if Find(hash, old(primary.view), key).Some?
                         then old(State()).(primary := DelFrom(hash, old(primary.view), key))
                         else if old(isRehashing) then old(State()).(rehash := DelFrom(hash, old(rehash.view), key))
                         else old(State())
    {
      hide DelFrom, Find, Table.Valid;
      DelAt(hash, primary.view, key);
      found := primary.DeleteFrom(key, h);
      if !found && isRehashing {
        found := rehash.DeleteFrom(key, h);
      }
    }

    /** Write value and deadline through a pointer that `FindEntry` returned. */
    method WriteEntry(e: HTEntry<V>, v: V, d: int)
      requires Valid() && HasEntry(e)
      modifies Repr
      ensures Valid() && fresh(Repr - old(Repr))
      ensures State() == Modify(hash, old(State()), Item(e.key, v, d))
      ensures contents == old(contents)[e.key := Item(e.key, v, d)]
    {
      hide Good, Find, Put, Table.Valid, HashSpec.Contents;
      ghost var s := State();
      if primary.Stores(e) {
        primary.BeforeWrite(e);
        ModifyGood(hash, s, Item(e.key, v, d));
      } else {
        rehash.BeforeWrite(e);
        ModifyGood(hash, s, Item(e.key, v, d));
      }
      FoundInOne(hash, s, e.key);
      WriteFields(if primary.Stores(e) then primary else rehash, if primary.Stores(e) then rehash else primary, e, v, d);
      contents := HashSpec.Contents(hash, State());
    }

    /** `keys`. */
    method ListKeys() returns (ks: seq<Bytes>)
      requires Valid()
      ensures ks == Keys(State())
      ensures forall k :: multiset(ks)[k] == if k in contents then 1 else 0
    {
      hide FlatKeys, HashSpec.Contents, Lookup;
      ContentsAt(hash, State());
      forall k { KeysOnce(hash, State(), k); }
      ks := primary.AllKeys();
      var more := rehash.AllKeys();
      ks := ks + more;
    }

    /** `scan`. */
    method ScanPage(cursor: nat, count: nat) returns (next: nat, ks: seq<Bytes>)
      requires Valid()
      ensures Page(next, ks) == Scan(State(), cursor, count)
    {
      hide Good, FlatKeys;
      primary.ValidPlaced();
      if primary.slots.Length == 0 {
        return 0, [];
      }
      if cursor >= primary.slots.Length {
        return 0, [];
      }
      var stop;
      stop, ks := primary.KeysFrom(cursor, count);
      if isRehashing && cursor == 0 {
        var more := rehash.AllKeys();
        ks := ks + more;
      } else {
        assert ks + [] == ks;
      }
      next := if stop >= primary.slots.Length then 0 else stop;
    }

    method FlushAll()
      requires Valid()
      modifies this
      ensures Valid() && fresh(Repr - old(Repr))
      ensures State() == Empty<V>() && contents == map[]
    {
      hide Good, Table.Valid, HashSpec.Contents;
      primary := new Table<V>(hash, 0);
      rehash := new Table<V>(hash, 0);
      isRehashing, rehashIdx := false, 0;
      Repr := Repr + {primary, primary.slots, rehash, rehash.slots};
      contents := map[];
      StartsGood();
    }
  }

  /** Write to the fields of an entry of table `t`; table `u` is not concerned. */
  method WriteFields<V>(ghost t: Table<V>, ghost u: Table<V>, e: HTEntry<V>, v: V, d: int)
    requires t.Valid() && u.Valid() && t != u && t.slots != u.slots && t.nodes !! u.nodes && t.Stores(e)
    modifies t`view, e
    ensures t.Valid() && u.Valid() && t.view == Put(t.hash, old(t.view), Item(e.key, v, d))
  {
    hide Find, Put, Count, Placed, Table.Linked;
    t.BeforeWrite(e);
    e.value, e.expireAt := v, d;
    t.AfterWrite(e);
  }

  lemma FoundInOne<V>(hash: Hash, s: State<V>, k: Bytes)
    requires Good(hash, s)
    ensures Find(hash, s.primary, k).None? || Find(hash, s.rehash, k).None?
  {
  }

  lemma GoodStates<V>(hash: Hash, s: State<V>, n: int)
    requires Good(hash, s)
    ensures Inv(hash, s) && Shape(s) && Good(hash, RehashStep(hash, s, n))
    ensures HashSpec.Contents(hash, RehashStep(hash, s, n)) == HashSpec.Contents(hash, s)
  {
    hide Inv, RehashStep, HashSpec.Contents;
    ShapeOf(hash, s);
    StepRefines(hash, s, n);
  }

  lemma OneStep<V>(hash: Hash, s: State<V>, n: int)
    requires Inv(hash, s) && s.rehashing && n > 0
    ensures Shape(s) && Inv(hash, MigrateOneSlot(hash, s)) && Shape(MigrateOneSlot(hash, s))
    ensures RehashStep(hash, s, n) == RehashStep(hash, MigrateOneSlot(hash, s), n - 1)
  {
    hide Inv, MigrateOneSlot;
    ShapeOf(hash, s);
    MigrateLaw(hash, s);
    ShapeMigrates(hash, s);
  }

  lemma NoStep<V>(hash: Hash, s: State<V>, n: int)
    requires Shape(s) && (!s.rehashing || n <= 0)
    ensures RehashStep(hash, s, n) == s
  {
  }

  lemma ReadyToMove<V>(hash: Hash, s: State<V>, i: nat)
    requires Inv(hash, s) && s.rehashing && i < |s.rehash|
    ensures Distinct(s.rehash[i]) && Count(s.rehash[i := []]) == Count(s.rehash) - |s.rehash[i]|
    ensures AllAbsent(hash, s.primary, s.rehash[i])
  {
    hide Find, Placed, Count;
    ChainLeaves(hash, s.rehash, i);
    forall j | 0 <= j < |s.rehash[i]|
      ensures Find(hash, s.primary, s.rehash[i][j].key).None?
    {
      FindAt(hash, s.rehash, i, j);
    }
  }
}
