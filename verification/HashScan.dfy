/** KEYS and the SCAN cursor of the incremental hash table. */
module HashScan {
  import opened Text
  import opened HashSpec
  import opened HashProofs

  function ChainKeys<V>(c: seq<Item<V>>): (r: seq<Bytes>)
    ensures |r| == |c| && forall i :: 0 <= i < |c| ==> r[i] == c[i].key
  {
    seq(|c|, i requires 0 <= i < |c| => c[i].key)
  }

  /** The keys of slots `lo..hi`, slot by slot and chain by chain. */
  function FlatKeys<V>(t: Slots<V>, lo: nat, hi: nat): seq<Bytes>
    requires hi <= |t|
    decreases hi - lo
  {
    if lo >= hi then [] else ChainKeys(t[lo]) + FlatKeys(t, lo + 1, hi)
  }

  function Keys<V>(s: State<V>): seq<Bytes> {
    FlatKeys(s.primary, 0, |s.primary|) + FlatKeys(s.rehash, 0, |s.rehash|)
  }

  /** The slot at which a scan that still wants `count` entries stops. */
  function ScanStop<V>(t: Slots<V>, slot: nat, count: int): (r: nat)
    ensures slot <= r && (slot <= |t| ==> r <= |t|)
    ensures count > 0 && slot < |t| ==> r > slot
    decreases |t| - slot
  {
    if count <= 0 || slot >= |t| then slot else ScanStop(t, slot + 1, count - |t[slot]|)
  }

  datatype Page = Page(cursor: nat, keys: seq<Bytes>)

  function Scan<V>(s: State<V>, cursor: nat, count: nat): Page {
    if s.primary == [] then Page(0, [])
    else if cursor >= |s.primary| then Page(0, [])
    else
      var stop := ScanStop(s.primary, cursor, count);
      var rest := if s.rehashing && cursor == 0 then FlatKeys(s.rehash, 0, |s.rehash|) else [];
      Page(if stop >= |s.primary| then 0 else stop, FlatKeys(s.primary, cursor, stop) + rest)
  }

  lemma FlatKeysEmpty<V>(t: Slots<V>, i: nat)
    requires i <= |t|
    ensures FlatKeys(t, i, i) == []
  {
  }

  lemma FlatKeysExtend<V>(t: Slots<V>, lo: nat, i: nat)
    requires lo <= i < |t|
    ensures FlatKeys(t, lo, i + 1) == FlatKeys(t, lo, i) + ChainKeys(t[i])
  {
    hide ChainKeys;
    FlatKeysSplit(t, lo, i, i + 1);
    assert FlatKeys(t, i, i + 1) == ChainKeys(t[i]) + [];
  }

  // ---------- which keys a stretch of slots holds ----------

  lemma CountIn<T>(a: seq<T>, b: seq<T>, x: T)
    ensures multiset(a + b)[x] == multiset(a)[x] + multiset(b)[x]
  {
  }

  lemma ChainKeysCount<V>(c: seq<Item<V>>, k: Bytes)
    requires Distinct(c)
    ensures multiset(ChainKeys(c))[k] == if InChain(c, k).Some? then 1 else 0
  {
    var ks := ChainKeys(c);
    InChainIff(c, k);
    if InChain(c, k).Some? {
      var n := Pos(c, k);
      assert ks == ks[..n] + [k] + ks[n + 1..];
      assert k !in ks[..n] && k !in ks[n + 1..];
      assert multiset(ks) == multiset(ks[..n]) + multiset{k} + multiset(ks[n + 1..]);
    } else {
      assert k !in ks;
    }
  }

  lemma SlotKeysCount<V>(hash: Hash, t: Slots<V>, i: nat, k: Bytes)
    requires Placed(hash, t) && i < |t|
    ensures multiset(ChainKeys(t[i]))[k] == if Find(hash, t, k).Some? && Slot(hash, t, k) == i then 1 else 0
  {
    hide Pos, ChainKeys;
    ChainKeysCount(t[i], k);
    InChainIff(t[i], k);
  }

  /** In a well-placed table a key is listed once by the stretches that contain its slot, and by no other. */
  lemma {:induction false} FlatKeysCount<V>(hash: Hash, t: Slots<V>, lo: nat, hi: nat, k: Bytes)
    requires Placed(hash, t) && hi <= |t|
    ensures multiset(FlatKeys(t, lo, hi))[k] ==
            if Find(hash, t, k).Some? && lo <= Slot(hash, t, k) < hi then 1 else 0
    decreases hi - lo
  {
    hide Find, Placed, ChainKeys;
    if lo < hi {
      SlotKeysCount(hash, t, lo, k);
      FlatKeysCount(hash, t, lo + 1, hi, k);
      CountIn(ChainKeys(t[lo]), FlatKeys(t, lo + 1, hi), k);
    }
  }

  /** KEYS lists every bound key exactly once. */
  lemma KeysOnce<V>(hash: Hash, s: State<V>, k: Bytes)
    requires Inv(hash, s)
    ensures multiset(Keys(s))[k] == if Lookup(hash, s, k).Some? then 1 else 0
  {
    hide Find, FlatKeys;
    FlatKeysCount(hash, s.primary, 0, |s.primary|, k);
    FlatKeysCount(hash, s.rehash, 0, |s.rehash|, k);
    CountIn(FlatKeys(s.primary, 0, |s.primary|), FlatKeys(s.rehash, 0, |s.rehash|), k);
  }

  // ---------- a scan of an unchanging table ----------

  /** All keys returned by following the cursor, asking for `counts(i)` entries in call `i`. */
  function Follow<V>(s: State<V>, cursor: nat, counts: nat -> nat, i: nat): seq<Bytes>
    requires cursor < |s.primary| || s.primary == []
    requires forall j :: counts(j) >= 1
    decreases |s.primary| - cursor
  {
    var page := Scan(s, cursor, counts(i));
    page.keys + (if page.cursor == 0 then [] else Follow(s, page.cursor, counts, i + 1))
  }

  lemma {:induction false} FlatKeysSplit<V>(t: Slots<V>, lo: nat, mid: nat, hi: nat)
    requires lo <= mid <= hi <= |t|
    ensures FlatKeys(t, lo, hi) == FlatKeys(t, lo, mid) + FlatKeys(t, mid, hi)
    decreases mid - lo
  {
    if lo < mid {
      FlatKeysSplit(t, lo + 1, mid, hi);
    }
  }

  lemma StretchCount<V>(t: Slots<V>, lo: nat, mid: nat, hi: nat, k: Bytes)
    requires lo <= mid <= hi <= |t|
    ensures multiset(FlatKeys(t, lo, hi))[k] == multiset(FlatKeys(t, lo, mid))[k] + multiset(FlatKeys(t, mid, hi))[k]
  {
    hide FlatKeys;
    FlatKeysSplit(t, lo, mid, hi);
    CountIn(FlatKeys(t, lo, mid), FlatKeys(t, mid, hi), k);
  }

  /** How often the old table, listed by the first call only, contributes `k`. */
  function OldCount<V>(s: State<V>, cursor: nat, k: Bytes): nat {
    if s.rehashing && cursor == 0 then multiset(FlatKeys(s.rehash, 0, |s.rehash|))[k] else 0
  }

  lemma PageCount<V>(s: State<V>, cursor: nat, count: nat, k: Bytes)
    requires cursor < |s.primary|
    ensures var stop := ScanStop(s.primary, cursor, count);
            multiset(Scan(s, cursor, count).keys)[k] == multiset(FlatKeys(s.primary, cursor, stop))[k] + OldCount(s, cursor, k)
  {
    hide FlatKeys, ScanStop;
    var here := FlatKeys(s.primary, cursor, ScanStop(s.primary, cursor, count));
    CountIn(here, FlatKeys(s.rehash, 0, |s.rehash|), k);
    assert here + [] == here;
  }

  lemma FollowCount<V>(s: State<V>, cursor: nat, counts: nat -> nat, i: nat, k: Bytes)
    requires cursor < |s.primary|
    requires forall j :: counts(j) >= 1
    ensures var page := Scan(s, cursor, counts(i));
            && (page.cursor == 0 || cursor < page.cursor < |s.primary|)
            && multiset(Follow(s, cursor, counts, i))[k] == multiset(page.keys)[k]
               + (if page.cursor == 0 then 0 else multiset(Follow(s, page.cursor, counts, i + 1))[k])
  {
    hide FlatKeys;
    var page := Scan(s, cursor, counts(i));
    if page.cursor == 0 {
      assert page.keys + [] == page.keys;
    } else {
      CountIn(page.keys, Follow(s, page.cursor, counts, i + 1), k);
    }
  }

  lemma {:induction false} FollowLists<V>(s: State<V>, cursor: nat, counts: nat -> nat, i: nat, k: Bytes)
    requires cursor < |s.primary|
    requires forall j :: counts(j) >= 1
    ensures multiset(Follow(s, cursor, counts, i))[k]
            == multiset(FlatKeys(s.primary, cursor, |s.primary|))[k] + OldCount(s, cursor, k)
    decreases |s.primary| - cursor
  {
    hide FlatKeys, Follow;
    var n, page := |s.primary|, Scan(s, cursor, counts(i));
    var stop := ScanStop(s.primary, cursor, counts(i));
    PageCount(s, cursor, counts(i), k);
    StretchCount(s.primary, cursor, stop, n, k);
    FollowCount(s, cursor, counts, i, k);
    if page.cursor != 0 {
      FollowLists(s, page.cursor, counts, i + 1, k);
    } else {
      FlatKeysEmpty(s.primary, n);
    }
  }

  /** On an unchanging table the iteration ends and returns each bound key exactly once, whatever
      counts are asked for. */
  lemma ScanOnce<V>(hash: Hash, s: State<V>, counts: nat -> nat, k: Bytes)
    requires Inv(hash, s)
    requires forall j :: counts(j) >= 1
    ensures multiset(Follow(s, 0, counts, 0))[k] == if Lookup(hash, s, k).Some? then 1 else 0
  {
    hide Find, FlatKeys;
    KeysOnce(hash, s, k);
    CountIn(FlatKeys(s.primary, 0, |s.primary|), FlatKeys(s.rehash, 0, |s.rehash|), k);
    FlatKeysEmpty<V>([], 0);
    if s.primary != [] {
      FollowLists(s, 0, counts, 0, k);
    } else {
      EmptyTable<V>(hash);
    }
  }

  /** A page goes on slot by slot until it has `count` entries or the table ends: without its last slot it has fewer. */
  lemma {:induction false} PageSize<V>(t: Slots<V>, slot: nat, count: int)
    requires slot < |t| && count > 0
    ensures var stop := ScanStop(t, slot, count);
            && slot < stop <= |t|
            && (stop == |t| || |FlatKeys(t, slot, stop)| >= count)
            && |FlatKeys(t, slot, stop - 1)| < count
    decreases |t| - slot
  {
    hide ChainKeys;
    var rest := count - |t[slot]|;
    var stop := ScanStop(t, slot, count);
    assert |ChainKeys(t[slot])| == |t[slot]|;
    if slot + 1 < |t| && rest > 0 {
      PageSize(t, slot + 1, rest);
    } else {
      assert stop == slot + 1;
    }
  }
}
