/** The order of a sorted set and its strictly sorted sequences. */
module SortedPairs {
  import opened Text

  /** Scores stand for the non-NaN doubles, numbered in their order (with -0 and 0 identified). */
  type Score = int

  datatype Pair = Pair(score: Score, member: Bytes)

  /** `Skiplist::lessThan`. */
  predicate Below(p: Pair, q: Pair) {
    if p.score != q.score then p.score < q.score else Less(p.member, q.member)
  }

  lemma BelowTrichotomy(p: Pair, q: Pair)
    ensures p == q ==> !Below(p, q)
    ensures p != q ==> Below(p, q) != Below(q, p)
  {
    LessTrichotomy(p.member, q.member);
  }

  /** The order written out: smaller score first, equal scores in byte order of the members. */
  lemma BelowIs(p: Pair, q: Pair)
    ensures Below(p, q) <==> p.score < q.score || (p.score == q.score && ByteBefore(p.member, q.member))
  {
    hide Less, ByteBefore;
    LessIsByteOrder(p.member, q.member);
  }

  /** A strictly sorted sequence, written out. */
  lemma SortedAscends(s: seq<Pair>)
    requires Sorted(s)
    ensures forall i, j :: 0 <= i < j < |s| ==> s[i].score <= s[j].score
    ensures forall i, j :: 0 <= i < j < |s| && s[i].score == s[j].score ==> ByteBefore(s[i].member, s[j].member)
  {
    hide Below, ByteBefore;
    forall i, j | 0 <= i < j < |s|
      ensures s[i].score <= s[j].score && (s[i].score == s[j].score ==> ByteBefore(s[i].member, s[j].member))
    {
      BelowIs(s[i], s[j]);
    }
  }

  lemma BelowTransitive(p: Pair, q: Pair, r: Pair)
    requires Below(p, q) && Below(q, r)
    ensures Below(p, r)
  {
    if p.score == q.score == r.score {
      LessTransitive(p.member, q.member, r.member);
    }
  }

  ghost predicate Sorted(s: seq<Pair>) {
    forall i, j :: 0 <= i < j < |s| ==> Below(s[i], s[j])
  }

  /** The number of pairs below `p`. */
  function Rank(s: seq<Pair>, p: Pair): (r: nat)
    ensures r <= |s|
  {
    if s == [] || !Below(s[0], p) then 0 else 1 + Rank(s[1..], p)
  }

  function SortedInsert(s: seq<Pair>, p: Pair): seq<Pair> {
    s[..Rank(s, p)] + [p] + s[Rank(s, p)..]
  }

  function SortedRemove(s: seq<Pair>, p: Pair): seq<Pair> {
    var r := Rank(s, p);
    if r < |s| && s[r] == p then s[..r] + s[r + 1..] else s
  }

  /** In a sorted sequence the pairs below `p` are exactly the first `Rank(s, p)` ones. */
  lemma {:induction false} RankSplits(s: seq<Pair>, p: Pair)
    requires Sorted(s)
    ensures forall i :: 0 <= i < |s| ==> (Below(s[i], p) <==> i < Rank(s, p))
  {
    if s != [] {
      RankSplits(s[1..], p);
      if Below(s[0], p) {
        assert forall i :: 0 < i < |s| ==> s[i] == s[1..][i - 1];
      } else {
        forall i | 0 < i < |s| && Below(s[i], p)
          ensures false
        {
          BelowTransitive(s[0], s[i], p);
        }
      }
    }
  }

  /** Membership is decided at the rank. */
  lemma InAtRank(s: seq<Pair>, p: Pair)
    requires Sorted(s)
    ensures p in s <==> Rank(s, p) < |s| && s[Rank(s, p)] == p
  {
    hide Below, Rank;
    RankSplits(s, p);
    BelowTrichotomy(p, p);
    if p in s {
      var i :| 0 <= i < |s| && s[i] == p;
      var r := if Rank(s, p) < |s| then Below(s[Rank(s, p)], s[i]) else false;
      assert Rank(s, p) < i ==> r;
    }
  }

  /** Sorted insertion keeps strict order and adds exactly `p`. */
  lemma InsertLaw(s: seq<Pair>, p: Pair)
    requires Sorted(s) && p !in s
    ensures Sorted(SortedInsert(s, p))
    ensures forall q :: q in SortedInsert(s, p) <==> q == p || q in s
    ensures |SortedInsert(s, p)| == |s| + 1
  {
    hide Below, Rank;
    RankSplits(s, p);
    var r := Rank(s, p);
    var t := SortedInsert(s, p);
    forall i, j | 0 <= i < j < |t|
      ensures Below(t[i], t[j])
    {
      if i == r {
        assert s[j - 1] != p;
        BelowTrichotomy(s[j - 1], p);
      }
    }
    assert t == s[..r] + [p] + s[r..] && s == s[..r] + s[r..];
  }

  /** Sorted removal keeps strict order and takes out exactly `p`. */
  lemma RemoveLaw(s: seq<Pair>, p: Pair)
    requires Sorted(s)
    ensures Sorted(SortedRemove(s, p))
    ensures forall q :: q in SortedRemove(s, p) <==> q != p && q in s
    ensures |SortedRemove(s, p)| == |s| - (if p in s then 1 else 0)
  {
    hide Below, Rank;
    InAtRank(s, p);
    var r := Rank(s, p);
    if p in s {
      var t := s[..r] + s[r + 1..];
      forall q
        ensures q in t <==> q != p && q in s
      {
        if q in s && q != p {
          var i :| 0 <= i < |s| && s[i] == q;
          assert t[if i < r then i else i - 1] == q;
        }
        if q in t {
          var i :| 0 <= i < |t| && t[i] == q;
          var j := if i < r then i else i + 1;
          assert s[j] == q;
          SortedApart(s, j, r);
        }
      }
    }
  }

  lemma SortedApart(s: seq<Pair>, i: nat, j: nat)
    requires Sorted(s) && i < |s| && j < |s| && i != j
    ensures s[i] != s[j]
  {
    BelowTrichotomy(s[i], s[i]);
    assert Below(s[i], s[j]) || Below(s[j], s[i]);
  }

  /** A strictly sorted sequence is determined by its elements. */
  lemma {:induction false} SortedUnique(s: seq<Pair>, t: seq<Pair>)
    requires Sorted(s) && Sorted(t)
    requires forall q :: q in s <==> q in t
    ensures s == t
    decreases |s|
  {
    if s == [] {
      var x := if |t| > 0 then t[|t| - 1] else Pair(0, []);
      assert t == [] || x in t;
    } else {
      assert s[0] in t && t != [];
      assert t[0] in s;
      FirstIsLeast(s, t[0]);
      FirstIsLeast(t, s[0]);
      BelowTrichotomy(s[0], t[0]);
      TailElements(s);
      TailElements(t);
      SortedUnique(s[1..], t[1..]);
      assert s == [s[0]] + s[1..] && t == [t[0]] + t[1..];
    }
  }

  lemma FirstIsLeast(s: seq<Pair>, q: Pair)
    requires Sorted(s) && q in s
    ensures q == s[0] || Below(s[0], q)
  {
  }

  lemma TailElements(s: seq<Pair>)
    requires Sorted(s) && s != []
    ensures forall q :: q in s[1..] <==> q in s && q != s[0]
  {
    forall j | 0 < j < |s|
      ensures s[j] != s[0]
    {
      SortedApart(s, 0, j);
    }
    assert forall j :: 0 < j < |s| ==> s[j] == s[1..][j - 1];
  }
}
