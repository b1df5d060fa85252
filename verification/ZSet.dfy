/** The sorted set: a skiplist for the order and a dictionary for the scores, kept coherent. */
module ZSets {
  import opened Text
  import opened SortedPairs
  import opened Skiplists
  import HashProofs

  type Dict = map<Bytes, Score>

  /** The pairs of the sequence are exactly the entries of the dictionary. */
  ghost predicate Coherent(s: seq<Pair>, d: Dict) {
    && Sorted(s) && |s| == |d|
    && (forall p :: p in s <==> p.member in d && d[p.member] == p.score)
  }

  /** ZADD on a dictionary: pairs applied from left to right. */
  function AddAll(d: Dict, pairs: seq<Pair>): Dict {
    if pairs == [] then d
    else
      var p := pairs[|pairs| - 1];
      AddAll(d, pairs[..|pairs| - 1])[p.member := p.score]
  }

  /** ZREM on a dictionary. */
  function RemAll(d: Dict, members: seq<Bytes>): Dict {
    if members == [] then d else RemAll(d, members[..|members| - 1]) - {members[|members| - 1]}
  }

  lemma RemAllNone(d: Dict)
    ensures RemAll(d, []) == d
  {
  }

  lemma RemAllSnoc(d: Dict, members: seq<Bytes>, i: nat)
    requires i < |members|
    ensures RemAll(d, members[..i + 1]) == RemAll(d, members[..i]) - {members[i]}
  {
    assert members[..i + 1][..i] == members[..i];
  }

  lemma {:induction false} RemAllIsMinus(d: Dict, members: seq<Bytes>)
    ensures RemAll(d, members) == d - (set m | m in members)
  {
    if members != [] {
      var n := |members| - 1;
      RemAllIsMinus(d, members[..n]);
      assert members == members[..n] + [members[n]];
    }
  }

  // ---------- coherence, step by step ----------

  lemma InsertCoherent(s: seq<Pair>, d: Dict, p: Pair)
    requires Coherent(s, d) && p.member !in d
    ensures p !in s && Coherent(SortedInsert(s, p), d[p.member := p.score])
  {
    hide Sorted, SortedInsert;
    InsertLaw(s, p);
  }

  lemma RemoveCoherent(s: seq<Pair>, d: Dict, m: Bytes)
    requires Coherent(s, d) && m in d
    ensures Pair(d[m], m) in s && Coherent(SortedRemove(s, Pair(d[m], m)), d - {m})
  {
    hide Sorted, SortedRemove;
    RemoveLaw(s, Pair(d[m], m));
    assert (d - {m}).Keys == d.Keys - {m};
    assert |d - {m}| == |(d - {m}).Keys| && |d| == |d.Keys|;
  }

  /** The order is determined by the dictionary alone. */
  lemma OrderFromDict(s: seq<Pair>, t: seq<Pair>, d: Dict)
    requires Coherent(s, d) && Coherent(t, d)
    ensures s == t
  {
    hide Sorted;
    SortedUnique(s, t);
  }

  ghost function Elements(s: seq<Pair>): set<Pair> {
    set q | q in s
  }

  /** The rank of a pair is the number of pairs below it. */
  lemma RankCounts(s: seq<Pair>, p: Pair)
    requires Sorted(s)
    ensures Rank(s, p) == |set q | q in s && Below(q, p)|
  {
    hide Below, Rank;
    RankSplits(s, p);
    var r := Rank(s, p);
    PrefixSet(s, r);
    assert (set q | q in s && Below(q, p)) == Elements(s[..r]) by {
      forall q | q in s && Below(q, p)
        ensures q in s[..r]
      {
        var i :| 0 <= i < |s| && s[i] == q;
        assert s[..r][i] == q;
      }
    }
  }

  lemma {:induction false} PrefixSet(s: seq<Pair>, r: nat)
    requires Sorted(s) && r <= |s|
    ensures |Elements(s[..r])| == r
  {
    hide Below;
    if r > 0 {
      var a := s[..r - 1];
      PrefixSet(s, r - 1);
      LastIsNew(s[..r]);
      assert s[..r][..r - 1] == a && s[..r] == a + [s[r - 1]];
      assert Elements(s[..r]) == Elements(a) + {s[r - 1]};
    }
  }

  lemma LastIsNew(s: seq<Pair>)
    requires Sorted(s) && s != []
    ensures s[|s| - 1] !in s[..|s| - 1]
  {
    var n := |s| - 1;
    if s[n] in s[..n] {
      var i :| 0 <= i < n && s[i] == s[n];
      SortedApart(s, i, n);
      assert false;
    }
  }

  lemma {:induction false} SameCard(ps: set<Pair>, ms: set<Bytes>)
    requires forall p :: p in ps ==> p.member in ms
    requires forall m :: m in ms ==> exists p :: p in ps && p.member == m
    requires forall p, q :: p in ps && q in ps && p.member == q.member ==> p == q
    ensures |ps| == |ms|
    decreases ps
  {
    if ps == {} {
      assert ms == {};
    } else {
      var p :| p in ps;
      forall m | m in ms - {p.member}
        ensures exists q :: q in ps - {p} && q.member == m
      {
        var q :| q in ps && q.member == m;
        assert q in ps - {p};
      }
      SameCard(ps - {p}, ms - {p.member});
    }
  }

  ghost function BelowPairs(s: seq<Pair>, p: Pair): set<Pair> {
    set q | q in s && Below(q, p)
  }

  ghost function BelowMembers(z: Dict, p: Pair): set<Bytes> {
    set x | x in z && Below(Pair(z[x], x), p)
  }

  /** As many members as pairs are below. */
  lemma MembersBelow(s: seq<Pair>, z: Dict, m: Bytes)
    requires Coherent(s, z) && m in z
    ensures var p := Pair(z[m], m);
            |set q | q in s && Below(q, p)| == |set x | x in z && Below(Pair(z[x], x), p)|
  {
    hide Below, Sorted;
    var p := Pair(z[m], m);
    forall x | x in BelowMembers(z, p)
      ensures exists q :: q in BelowPairs(s, p) && q.member == x
    {
      assert Pair(z[x], x) in s;
      assert Pair(z[x], x) in BelowPairs(s, p);
    }
    SameCard(BelowPairs(s, p), BelowMembers(z, p));
    assert BelowPairs(s, p) == set q | q in s && Below(q, p);
    assert BelowMembers(z, p) == set x | x in z && Below(Pair(z[x], x), p);
  }

  /** The members below, written out: a smaller score, or the same score and a name earlier in byte order. */
  lemma BelowWrittenOut(z: Dict, m: Bytes)
    requires m in z
    ensures (set x | x in z && Below(Pair(z[x], x), Pair(z[m], m)))
         == (set x | x in z && (z[x] < z[m] || (z[x] == z[m] && ByteBefore(x, m))))
  {
    hide Below, ByteBefore;
    forall x | x in z
      ensures Below(Pair(z[x], x), Pair(z[m], m)) <==> z[x] < z[m] || (z[x] == z[m] && ByteBefore(x, m))
    {
      BelowIs(Pair(z[x], x), Pair(z[m], m));
    }
  }

  class ZSetData {
    const skiplist: Skiplist
    var dict: Dict

    ghost predicate Valid()
      reads this, skiplist, skiplist.nodes
    {
      skiplist.Valid() && Coherent(skiplist.Contents(), dict)
    }

    constructor ()
      ensures Valid() && fresh(skiplist) && fresh(skiplist.nodes) && dict == map[]
    {
      skiplist := new Skiplist();
      dict := map[];
    }

    /** One turn of the ZADD loop. */
    method AddOne(score: Score, member: Bytes, level: nat) returns (isNew: bool)
      requires Valid() && 1 <= level <= MAX_LEVEL
      modifies this, skiplist, skiplist.nodes
      ensures Valid() && isNew == (member !in old(dict))
      ensures dict == old(dict)[member := score]
      ensures forall i :: 0 <= i < |skiplist.nodes| ==>
                skiplist.nodes[i] in old(skiplist.nodes) || fresh(skiplist.nodes[i])
    {
      hide Coherent, SortedInsert, SortedRemove, Skiplist.Valid;
      if member in dict {
        var oldScore := dict[member];
        if oldScore != score {
          RemoveCoherent(skiplist.Contents(), dict, member);
          var _ := skiplist.Remove(member, oldScore);
          InsertCoherent(skiplist.Contents(), dict - {member}, Pair(score, member));
          var _ := skiplist.Insert(member, score, level);
          assert (dict - {member})[member := score] == dict[member := score];
          dict := dict[member := score];
        }
        isNew := false;
      } else {
        InsertCoherent(skiplist.Contents(), dict, Pair(score, member));
        var _ := skiplist.Insert(member, score, level);
        dict := dict[member := score];
        isNew := true;
      }
    }
  
    /** ZADD's loop: repeated members in one call included, the reply is the growth in cardinality. */
    method ZAdd(pairs: seq<Pair>, level: nat -> nat) returns (added: int)
      requires Valid() && forall i :: 1 <= level(i) <= MAX_LEVEL
      modifies this, skiplist, skiplist.nodes
      ensures Valid() && dict == AddAll(old(dict), pairs)
      ensures added == |dict| - |old(dict)|
      ensures forall i :: 0 <= i < |skiplist.nodes| ==>
                skiplist.nodes[i] in old(skiplist.nodes) || fresh(skiplist.nodes[i])
    {
      hide Coherent, Skiplist.Valid;
      added := 0;
      var i := 0;
      while i < |pairs|
        invariant 0 <= i <= |pairs|
        invariant Valid() && dict == AddAll(old(dict), pairs[..i])
        invariant added == |dict| - |old(dict)|
        invariant forall j :: 0 <= j < |skiplist.nodes| ==>
                    skiplist.nodes[j] in old(skiplist.nodes) || fresh(skiplist.nodes[j])
      {
        assert pairs[..i + 1][..i] == pairs[..i];
        var isNew := AddOne(pairs[i].score, pairs[i].member, level(i));
        if isNew {
          added := added + 1;
        }
        i := i + 1;
      }
      assert pairs[..i] == pairs;
    }

    /** One turn of the ZREM loop. */
    method RemOne(member: Bytes) returns (found: bool)
      requires Valid()
      modifies this, skiplist, skiplist.nodes
      ensures Valid() && dict == old(dict) - {member} && found == (member in old(dict))
      ensures forall i :: 0 <= i < |skiplist.nodes| ==> skiplist.nodes[i] in old(skiplist.nodes)
    {
      hide Coherent, Skiplist.Valid, SortedRemove;
      found := member in dict;
      assert found || dict - {member} == dict;
      if found {
        RemoveCoherent(skiplist.Contents(), dict, member);
        var _ := skiplist.Remove(member, dict[member]);
        dict := dict - {member};
      }
    }

    /** ZREM's loop; the reply is the loss in cardinality. */
    method ZRem(members: seq<Bytes>) returns (removed: int)
      requires Valid()
      modifies this, skiplist, skiplist.nodes
      ensures Valid() && dict == RemAll(old(dict), members)
      ensures removed == |old(dict)| - |dict|
      ensures forall i :: 0 <= i < |skiplist.nodes| ==> skiplist.nodes[i] in old(skiplist.nodes)
    {
      hide Coherent, Skiplist.Valid, RemAll;
      removed := 0;
      assert members[..0] == [];
      RemAllNone(dict);
      var i := 0;
      while i < |members|
        invariant 0 <= i <= |members|
        invariant Valid() && dict == RemAll(old(dict), members[..i])
        invariant removed == |old(dict)| - |dict|
        invariant forall j :: 0 <= j < |skiplist.nodes| ==> skiplist.nodes[j] in old(skiplist.nodes)
      {
        RemAllSnoc(old(dict), members, i);
        HashProofs.CardMinus(dict, members[i]);
        var found := RemOne(members[i]);
        if found {
          removed := removed + 1;
        }
        i := i + 1;
      }
      assert members[..i] == members;
    }

    lemma RankOf(member: Bytes)
      requires Valid() && member in dict
      ensures var s, p, d := skiplist.Contents(), Pair(dict[member], member), dict;
              && Rank(s, p) < |s| && s[Rank(s, p)] == p && Sorted(s)
              && Rank(s, p) == |set x | x in d && (d[x] < d[member] || (d[x] == d[member] && ByteBefore(x, member)))|
    {
      hide Skiplist.Valid, Rank, Below, ByteBefore;
      var s, p := skiplist.Contents(), Pair(dict[member], member);
      InAtRank(s, p);
      RankCounts(s, p);
      MembersBelow(s, dict, member);
      BelowWrittenOut(dict, member);
    }

    /** ZRANK: found at the number of members with a smaller score, or the same score and a name earlier in byte
        order; the fallback after the loop is never reached for a member of the dictionary. */
    method ZRank(member: Bytes) returns (r: Option<nat>)
      requires Valid()
      ensures r.None? <==> member !in dict
      ensures r.Some? ==>
                var d := dict;
                r.value == |set x | x in d && (d[x] < d[member] || (d[x] == d[member] && ByteBefore(x, member)))|
    {
      hide Skiplist.Valid, Rank, Below, ByteBefore, Coherent;
      if member !in dict {
        return None;
      }
      var p := Pair(dict[member], member);
      ghost var s := skiplist.Contents();
      RankOf(member);
      FullSlice(s);
      SizeOf();
      var range := skiplist.RangeByRank(0, skiplist.size - 1);
      var rank := 0;
      while rank < |range|
        invariant 0 <= rank <= Rank(s, p) && range == s
      {
        if range[rank] == p {
          if rank < Rank(s, p) { SortedApart(s, rank, Rank(s, p)); }
          return Some(rank);
        }
        rank := rank + 1;
      }
      return None;
    }

    lemma SizeOf()
      requires Valid()
      ensures skiplist.size == |skiplist.Contents()|
    {
      hide Coherent;
    }

    /** ZRANGE: the sign-normalised slice of the sorted order. */
    method ZRange(start: int, stop: int) returns (r: seq<Pair>)
      requires Valid()
      ensures r == Slice(skiplist.Contents(), start, stop)
      ensures forall i, j :: 0 <= i < j < |r| ==> r[i].score <= r[j].score
      ensures forall i, j :: 0 <= i < j < |r| && r[i].score == r[j].score ==> ByteBefore(r[i].member, r[j].member)
    {
      hide Slice, ByteBefore, Coherent, Below;
      r := skiplist.RangeByRank(start, stop);
    }
  }

  lemma FullSlice<T>(s: seq<T>)
    ensures Slice(s, 0, |s| - 1) == s
  {
  }
}
