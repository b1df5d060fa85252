/** Deadlines as the lookup reads them, and what a SCAN page shows; shared by the database and the commands. */
module Expiry {
  import opened Text

  /** Lazy expiry's test: a negative deadline never comes. */
  predicate Overdue(expireAt: int, now: int) {
    expireAt >= 0 && now >= expireAt
  }

  /** Remaining milliseconds, -1 without deadline. */
  function Remaining(expireAt: int, now: int): int {
    if expireAt < 0 then -1 else expireAt - now
  }

  /** Only `*` and the exact key are understood as patterns. */
  predicate Matches(pattern: Bytes, k: Bytes) {
    pattern == "*" || k == pattern
  }

  /** The keys of a raw page that are live and match, in order. */
  function Filtered(raw: seq<Bytes>, live: Bytes -> bool, pattern: Bytes): seq<Bytes> {
    if raw == [] then []
    else
      var k := raw[|raw| - 1];
      Filtered(raw[..|raw| - 1], live, pattern) + (if live(k) && Matches(pattern, k) then [k] else [])
  }

  lemma {:induction false} FilteredSame(raw: seq<Bytes>, p: Bytes -> bool, q: Bytes -> bool, pattern: Bytes)
    requires forall k :: p(k) == q(k)
    ensures Filtered(raw, p, pattern) == Filtered(raw, q, pattern)
    decreases |raw|
  {
    if raw != [] { FilteredSame(raw[..|raw| - 1], p, q, pattern); }
  }

  lemma {:induction false} FilteredIff(raw: seq<Bytes>, live: Bytes -> bool, pattern: Bytes, k: Bytes)
    ensures k in Filtered(raw, live, pattern) <==> k in raw && live(k) && Matches(pattern, k)
  {
    if raw != [] {
      var n := |raw| - 1;
      FilteredIff(raw[..n], live, pattern, k);
      assert raw == raw[..n] + [raw[n]];
    }
  }

  /** `keys` are the elements of `raw` at the positions `at`, which are all those with a wanted element. */
  ghost predicate PickedAt(raw: seq<Bytes>, keys: seq<Bytes>, wanted: Bytes -> bool, at: seq<nat>) {
    && |at| == |keys| && (forall i, j :: 0 <= i < j < |at| ==> at[i] < at[j])
    && (forall i :: 0 <= i < |at| ==> at[i] < |raw| && keys[i] == raw[at[i]])
    && (forall j :: 0 <= j < |raw| ==> (j in at <==> wanted(raw[j])))
  }

  /** `keys` are exactly the wanted elements of `raw`, in order. */
  ghost predicate Picks(raw: seq<Bytes>, keys: seq<Bytes>, wanted: Bytes -> bool) {
    exists at :: PickedAt(raw, keys, wanted, at)
  }

  lemma {:induction false} FilteredPicks(raw: seq<Bytes>, live: Bytes -> bool, pattern: Bytes)
    ensures Picks(raw, Filtered(raw, live, pattern), k => live(k) && (pattern == "*" || k == pattern))
    decreases |raw|
  {
    hide PickedAt;
    var wanted := k => live(k) && (pattern == "*" || k == pattern);
    if raw == [] {
      PickedNone(wanted);
    } else {
      var n := |raw| - 1;
      var init, x := raw[..n], raw[n];
      assert init + [x] == raw;
      FilteredPicks(init, live, pattern);
      var keys := Filtered(init, live, pattern);
      var at :| PickedAt(init, keys, wanted, at);
      if wanted(x) {
        PickedMore(init, keys, wanted, at, x);
      } else {
        PickedNoMore(init, keys, wanted, at, x);
        assert keys + [] == keys;
      }
    }
  }

  lemma PickedNone(wanted: Bytes -> bool)
    ensures PickedAt([], [], wanted, [])
  {
  }

  lemma PickedMore(raw: seq<Bytes>, keys: seq<Bytes>, wanted: Bytes -> bool, at: seq<nat>, x: Bytes)
    requires PickedAt(raw, keys, wanted, at) && wanted(x)
    ensures PickedAt(raw + [x], keys + [x], wanted, at + [|raw|])
  {
    var raw', at' := raw + [x], at + [|raw|];
    forall j | 0 <= j < |raw'|
      ensures j in at' <==> wanted(raw'[j])
    {
      assert j < |raw| ==> raw'[j] == raw[j];
      assert j in at' <==> j in at || j == |raw|;
    }
  }

  lemma PickedNoMore(raw: seq<Bytes>, keys: seq<Bytes>, wanted: Bytes -> bool, at: seq<nat>, x: Bytes)
    requires PickedAt(raw, keys, wanted, at) && !wanted(x)
    ensures PickedAt(raw + [x], keys, wanted, at)
  {
    var raw' := raw + [x];
    forall j | 0 <= j < |raw'|
      ensures j in at <==> wanted(raw'[j])
    {
      assert j < |raw| ==> raw'[j] == raw[j];
      assert |raw| !in at;
    }
  }

  /** What a page shows, written out: with `*` the live keys in order, with another pattern that key alone. */
  ghost predicate ShowsExactly(live: Bytes -> bool, raw: seq<Bytes>, pattern: Bytes, keys: seq<Bytes>) {
    && (pattern == "*" ==> Picks(raw, keys, live))
    && (pattern != "*" ==> (forall k :: k in keys ==> k == pattern) && (pattern in keys <==> pattern in raw && live(pattern)))
  }

  lemma FilteredShows(raw: seq<Bytes>, live: Bytes -> bool, pattern: Bytes)
    ensures ShowsExactly(live, raw, pattern, Filtered(raw, live, pattern))
  {
    hide Filtered, PickedAt;
    var keys := Filtered(raw, live, pattern);
    var wanted := k => live(k) && (pattern == "*" || k == pattern);
    FilteredPicks(raw, live, pattern);
    if pattern == "*" {
      var at :| PickedAt(raw, keys, wanted, at);
      PickedSame(raw, keys, wanted, live, at);
    } else {
      forall k ensures k in keys <==> k in raw && live(k) && k == pattern {
        PicksIff(raw, keys, wanted, k);
      }
    }
  }

  lemma PickedSame(raw: seq<Bytes>, keys: seq<Bytes>, p: Bytes -> bool, q: Bytes -> bool, at: seq<nat>)
    requires PickedAt(raw, keys, p, at) && forall k :: p(k) == q(k)
    ensures PickedAt(raw, keys, q, at)
  {
  }

  lemma PicksIff(raw: seq<Bytes>, keys: seq<Bytes>, wanted: Bytes -> bool, k: Bytes)
    requires Picks(raw, keys, wanted)
    ensures k in keys <==> k in raw && wanted(k)
  {
    var at :| PickedAt(raw, keys, wanted, at);
    if k in raw && wanted(k) {
      var j :| 0 <= j < |raw| && raw[j] == k;
      assert j in at;
      var i :| 0 <= i < |at| && at[i] == j;
      assert keys[i] == k;
    }
    if k in keys {
      var i :| 0 <= i < |keys| && keys[i] == k;
      assert at[i] in at;
    }
  }
}
