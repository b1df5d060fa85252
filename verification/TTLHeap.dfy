/** The indexed binary min-heap of deadlines, as a map from keys to deadlines. */
module TTLHeaps {
  import opened Text

  datatype HeapEntry = HeapEntry(key: Bytes, expireAt: int)

  function Parent(i: nat): nat
    requires i > 0
  {
    (i - 1) / 2
  }

  ghost predicate LinkOrdered(h: seq<HeapEntry>, i: nat)
    requires 0 < i < |h|
  {
    h[Parent(i)].expireAt <= h[i].expireAt
  }

  /** No entry is earlier than its parent. */
  ghost predicate Ordered(h: seq<HeapEntry>) {
    forall i :: 0 < i < |h| ==> LinkOrdered(h, i)
  }

  /** Ordered, except that `x` may be earlier than its parent. */
  ghost predicate OrderedButUp(h: seq<HeapEntry>, x: nat) {
    forall i :: 0 < i < |h| && i != x ==> LinkOrdered(h, i)
  }

  /** Ordered, except that `x` may be later than its children. */
  ghost predicate OrderedButDown(h: seq<HeapEntry>, x: nat) {
    forall i :: 0 < i < |h| && Parent(i) != x ==> LinkOrdered(h, i)
  }

  /** Ordered, except around `x`; yet the children of `x` are no earlier than the parent of `x`. */
  ghost predicate OrderedAround(h: seq<HeapEntry>, x: nat) {
    && (forall i :: 0 < i < |h| && i != x && Parent(i) != x ==> LinkOrdered(h, i))
    && (forall c :: 0 < x < c < |h| && Parent(c) == x ==> h[Parent(x)].expireAt <= h[c].expireAt)
  }

  /** `index` is the exact inverse of the positions in `h`. */
  ghost predicate Indexed(h: seq<HeapEntry>, index: map<Bytes, nat>) {
    && (forall i :: 0 <= i < |h| ==> h[i].key in index && index[h[i].key] == i)
    && (forall k :: k in index ==> index[k] < |h| && h[index[k]].key == k)
  }

  /** The heap's meaning: each key's deadline. */
  ghost function DeadlinesOf(h: seq<HeapEntry>, index: map<Bytes, nat>): map<Bytes, int>
    requires Indexed(h, index)
  {
    map k | k in index :: h[index[k]].expireAt
  }

  function Swapped(h: seq<HeapEntry>, a: nat, b: nat): seq<HeapEntry>
    requires a < |h| && b < |h|
  {
    h[a := h[b]][b := h[a]]
  }

  /** The root of an ordered heap is the earliest entry. */
  lemma {:induction false} RootIsEarliest(h: seq<HeapEntry>, i: nat)
    requires Ordered(h) && i < |h|
    ensures h[0].expireAt <= h[i].expireAt
    decreases i
  {
    if i > 0 {
      assert LinkOrdered(h, i);
      RootIsEarliest(h, Parent(i));
    }
  }

  lemma OrderedIsOrderedAround(h: seq<HeapEntry>, x: nat)
    requires Ordered(h) && x < |h|
    ensures OrderedAround(h, x) && OrderedButUp(h, x) && OrderedButDown(h, x)
  {
    forall c | 0 < x < c < |h| && Parent(c) == x
      ensures h[Parent(x)].expireAt <= h[c].expireAt
    {
      assert LinkOrdered(h, c) && LinkOrdered(h, x);
    }
  }

  lemma SwapKeepsIndex(h: seq<HeapEntry>, index: map<Bytes, nat>, a: nat, b: nat)
    requires Indexed(h, index) && a < |h| && b < |h|
    ensures var h', index' := Swapped(h, a, b), index[h[b].key := a][h[a].key := b];
            Indexed(h', index') && DeadlinesOf(h', index') == DeadlinesOf(h, index)
  {
  }

  /** Lifting an early entry over its parent moves the only defect one level up. */
  lemma SiftUpStep(h: seq<HeapEntry>, x: nat)
    requires 0 < x < |h| && OrderedAround(h, x) && !LinkOrdered(h, x)
    ensures var h' := Swapped(h, x, Parent(x));
            OrderedAround(h', Parent(x)) && OrderedButUp(h', Parent(x))
  {
  }

  /** Sinking a late entry under its earliest child moves the only defect one level down. */
  lemma SiftDownStep(h: seq<HeapEntry>, x: nat, s: nat)
    requires x < s < |h| && Parent(s) == x && OrderedAround(h, x) && h[s].expireAt < h[x].expireAt
    requires forall c :: x < c < |h| && Parent(c) == x ==> h[s].expireAt <= h[c].expireAt
    ensures var h' := Swapped(h, x, s);
            OrderedAround(h', s) && OrderedButDown(h', s)
  {
  }

  /** Cutting off the last entry. */
  lemma DropLast(h: seq<HeapEntry>, index: map<Bytes, nat>)
    requires Indexed(h, index) && h != []
    ensures var k := h[|h| - 1].key;
            && Indexed(h[..|h| - 1], index - {k})
            && DeadlinesOf(h[..|h| - 1], index - {k}) == DeadlinesOf(h, index) - {k}
  {
  }

  class TTLHeap {
    var heap: seq<HeapEntry>
    var keyToIndex: map<Bytes, nat>

    ghost predicate Valid()
      reads this
    {
      Ordered(heap) && Indexed(heap, keyToIndex)
    }

    ghost function Deadlines(): map<Bytes, int>
      requires Indexed(heap, keyToIndex)
      reads this
    {
      DeadlinesOf(heap, keyToIndex)
    }

    constructor ()
      ensures Valid() && Deadlines() == map[]
    {
      heap, keyToIndex := [], map[];
    }

    method SwapEntries(a: nat, b: nat)
      requires Indexed(heap, keyToIndex) && a < |heap| && b < |heap|
      modifies this
      ensures heap == Swapped(old(heap), a, b)
      ensures Indexed(heap, keyToIndex) && Deadlines() == old(Deadlines())
    {
      SwapKeepsIndex(heap, keyToIndex, a, b);
      heap := Swapped(heap, a, b);
      keyToIndex := keyToIndex[heap[a].key := a];
      keyToIndex := keyToIndex[heap[b].key := b];
    }

    /** Repairs an upward defect at `start`; a downward defect there survives only if nothing moved. */
    method SiftUp(start: nat)
      requires Indexed(heap, keyToIndex) && start < |heap| && OrderedAround(heap, start)
      modifies this
      ensures Indexed(heap, keyToIndex) && Deadlines() == old(Deadlines()) && |heap| == old(|heap|)
      ensures OrderedAround(heap, start) && OrderedButDown(heap, start)
      ensures old(OrderedButUp(heap, start)) ==> Ordered(heap)
    {
      var idx: nat := start;
      while idx > 0
        invariant idx <= start < |heap| == old(|heap|)
        invariant Indexed(heap, keyToIndex) && Deadlines() == old(Deadlines())
        invariant OrderedAround(heap, idx)
        invariant if idx == start then heap == old(heap) else OrderedButUp(heap, idx)
      {
        var parent := Parent(idx);
        if heap[idx].expireAt >= heap[parent].expireAt {
          break;
        }
        SiftUpStep(heap, idx);
        SwapEntries(idx, parent);
        idx := parent;
      }
      if idx != start {
        assert Ordered(heap);
        OrderedIsOrderedAround(heap, start);
      }
    }

    /** The earliest among an entry and its children, the entry itself when tied. */
    method SmallestAround(idx: nat) returns (smallest: nat)
      requires idx < |heap|
      ensures idx <= smallest < |heap|
      ensures smallest != idx ==> Parent(smallest) == idx && heap[smallest].expireAt < heap[idx].expireAt
      ensures forall c :: idx < c < |heap| && Parent(c) == idx ==> heap[smallest].expireAt <= heap[c].expireAt
    {
      var left, right := 2 * idx + 1, 2 * idx + 2;
      smallest := idx;
      if left < |heap| && heap[left].expireAt < heap[smallest].expireAt {
        smallest := left;
      }
      if right < |heap| && heap[right].expireAt < heap[smallest].expireAt {
        smallest := right;
      }
      assert forall c :: idx < c < |heap| && Parent(c) == idx ==> c == left || c == right;
    }

    /** Repairs a downward defect at `start`; an upward defect there survives only if nothing moved. */
    method SiftDown(start: nat)
      requires Indexed(heap, keyToIndex) && start < |heap| && OrderedAround(heap, start)
      modifies this
      ensures Indexed(heap, keyToIndex) && Deadlines() == old(Deadlines()) && |heap| == old(|heap|)
      ensures OrderedAround(heap, start) && OrderedButUp(heap, start)
      ensures old(OrderedButDown(heap, start)) ==> Ordered(heap)
    {
      var idx: nat := start;
      while true
        invariant start <= idx < |heap| == old(|heap|)
        invariant Indexed(heap, keyToIndex) && Deadlines() == old(Deadlines())
        invariant OrderedAround(heap, idx)
        invariant if idx == start then heap == old(heap) else OrderedButDown(heap, idx)
        decreases |heap| - idx
      {
        var smallest := SmallestAround(idx);
        if smallest == idx {
          break;
        }
        SiftDownStep(heap, idx, smallest);
        SwapEntries(idx, smallest);
        idx := smallest;
      }
      if idx != start {
        assert Ordered(heap);
        OrderedIsOrderedAround(heap, start);
      }
    }

    method Push(key: Bytes, expireAt: int)
      requires Valid()
      modifies this
      ensures Valid() && Deadlines() == old(Deadlines())[key := expireAt]
      decreases key in keyToIndex
    {
      if key in keyToIndex {
        Update(key, expireAt);
        return;
      }
      heap := heap + [HeapEntry(key, expireAt)];
      var idx := |heap| - 1;
      keyToIndex := keyToIndex[key := idx];
      assert Deadlines() == old(Deadlines())[key := expireAt];
      AppendedAround(old(heap), heap[idx]);
      SiftUp(idx);
    }

    method Update(key: Bytes, expireAt: int)
      requires Valid()
      modifies this
      ensures Valid() && Deadlines() == old(Deadlines())[key := expireAt]
      decreases key !in keyToIndex
    {
      if key !in keyToIndex {
        Push(key, expireAt);
        return;
      }
      var idx := keyToIndex[key];
      OrderedIsOrderedAround(heap, idx);
      heap := heap[idx := heap[idx].(expireAt := expireAt)];
      assert Deadlines() == old(Deadlines())[key := expireAt];
      ReplacedAround(old(heap), idx, heap[idx]);
      SiftUp(idx);
      SiftDown(idx);
    }

    method Remove(key: Bytes)
      requires Valid()
      modifies this
      ensures Valid() && Deadlines() == old(Deadlines()) - {key}
    {
      if key !in keyToIndex {
        assert Deadlines() == Deadlines() - {key};
        return;
      }
      var idx := keyToIndex[key];
      var lastIdx := |heap| - 1;
      if idx != lastIdx {
        SwapEntries(idx, lastIdx);
      }
      CutLast();
      SwapCutAround(old(heap), idx);
      if idx < |heap| {
        SiftDown(idx);
        SiftUp(idx);
      }
    }

    /** Takes due keys off the root, earliest first, at most `maxWork` of them. */
    method PopExpired(now: int, maxWork: int) returns (expired: seq<Bytes>)
      requires Valid()
      modifies this
      ensures Valid()
      ensures PoppedFrom(old(Deadlines()), expired, Deadlines(), now)
      ensures |expired| <= maxWork || expired == []
      ensures |expired| < maxWork ==> forall k :: k in Deadlines() ==> Deadlines()[k] > now
    {
      expired := [];
      ghost var start := Deadlines();
      while heap != [] && |expired| < maxWork
        invariant Valid() && PoppedFrom(start, expired, Deadlines(), now)
        invariant |expired| <= maxWork || expired == []
        decreases |heap|
      {
        ghost var before := Deadlines();
        RootIsEarliestDeadline();
        if heap[0].expireAt > now {
          return;
        }
        var key := heap[0].key;
        PopRoot();
        PoppedOneMore(start, expired, before, now, key);
        expired := expired + [key];
      }
    }

    lemma RootIsEarliestDeadline()
      requires Valid() && heap != []
      ensures heap[0].key in Deadlines()
      ensures forall k :: k in Deadlines() ==> heap[0].expireAt <= Deadlines()[k]
    {
      forall k | k in Deadlines()
        ensures heap[0].expireAt <= Deadlines()[k]
      {
        RootIsEarliest(heap, keyToIndex[k]);
      }
    }

    method PopRoot()
      requires Valid() && heap != []
      modifies this
      ensures Valid() && |heap| == old(|heap|) - 1
      ensures Deadlines() == old(Deadlines()) - {old(heap[0].key)}
    {
      var lastIdx := |heap| - 1;
      if lastIdx > 0 {
        SwapEntries(0, lastIdx);
      }
      CutLast();
      SwapCutAround(old(heap), 0);
      if heap != [] {
        SiftDown(0);
      }
    }

    /** Drops the last entry from the array and from the index. */
    method CutLast()
      requires Indexed(heap, keyToIndex) && heap != []
      modifies this
      ensures Indexed(heap, keyToIndex) && heap == old(heap)[..old(|heap|) - 1]
      ensures Deadlines() == old(Deadlines()) - {old(heap[|heap| - 1].key)}
    {
      DropLast(heap, keyToIndex);
      keyToIndex := keyToIndex - {heap[|heap| - 1].key};
      heap := heap[..|heap| - 1];
    }
  }

  /** `expired` was taken from `before`, earliest first and all due; `after` is the rest, and no
      key left is earlier than a key taken. */
  ghost predicate PoppedFrom(before: map<Bytes, int>, expired: seq<Bytes>, after: map<Bytes, int>, now: int) {
    && (forall i :: 0 <= i < |expired| ==> expired[i] in before && before[expired[i]] <= now)
    && (forall i, j :: 0 <= i < j < |expired| ==>
          expired[i] != expired[j] && before[expired[i]] <= before[expired[j]])
    && after == before - (set k | k in expired)
    && (forall i, k :: 0 <= i < |expired| && k in after ==> before[expired[i]] <= after[k])
  }

  lemma PoppedOneMore(start: map<Bytes, int>, expired: seq<Bytes>, rest: map<Bytes, int>, now: int, key: Bytes)
    requires PoppedFrom(start, expired, rest, now)
    requires key in rest && rest[key] <= now && forall k :: k in rest ==> rest[key] <= rest[k]
    ensures PoppedFrom(start, expired + [key], rest - {key}, now)
  {
    var expired' := expired + [key];
    assert forall k :: k in expired' <==> k in expired || k == key;
    assert rest - {key} == start - (set k | k in expired');
  }

  lemma AppendedAround(h: seq<HeapEntry>, e: HeapEntry)
    requires Ordered(h)
    ensures OrderedAround(h + [e], |h|) && OrderedButUp(h + [e], |h|)
  {
    forall i | 0 < i < |h|
      ensures LinkOrdered(h + [e], i)
    {
      assert LinkOrdered(h, i);
    }
  }

  lemma ReplacedAround(h: seq<HeapEntry>, x: nat, e: HeapEntry)
    requires Ordered(h) && x < |h|
    ensures OrderedAround(h[x := e], x)
  {
    OrderedIsOrderedAround(h, x);
    forall i | 0 < i < |h| && i != x && Parent(i) != x
      ensures LinkOrdered(h[x := e], i)
    {
      assert LinkOrdered(h, i);
    }
  }

  /** Overwriting `x` by the last entry and cutting that off leaves a defect at `x` only. */
  lemma SwapCutAround(h: seq<HeapEntry>, x: nat)
    requires Ordered(h) && x < |h|
    ensures var n := |h| - 1;
            var h' := Swapped(h, x, n)[..n];
            if x == n then Ordered(h') else OrderedAround(h', x)
  {
    var n := |h| - 1;
    var h' := Swapped(h, x, n)[..n];
    OrderedIsOrderedAround(h, x);
    forall i | 0 < i < n && i != x && Parent(i) != x
      ensures LinkOrdered(h', i)
    {
      assert LinkOrdered(h, i);
    }
    if x == n {
      forall i | 0 < i < n
        ensures LinkOrdered(h', i)
      {
        assert LinkOrdered(h, i);
      }
    }
  }
}
