/** The skiplist: towers of forward links over one sorted list, for every outcome of the coin. */
module Skiplists {
  import opened Text
  import opened SortedPairs

  const MAX_LEVEL := 32

  class Node {
    const pair: Pair
    const height: nat
    var forward: seq<Node?>
    var backward: Node?

    constructor (member: Bytes, score: Score, level: nat)
      ensures pair == Pair(score, member) && height == level
      ensures forward == seq(level, _ => null) && backward == null
    {
      pair, height := Pair(score, member), level;
      forward, backward := seq(level, _ => null), null;
    }
  }

  /** `randomLevel`: whatever the dice show, a level between 1 and 32. */
  method RandomLevel(roll: nat -> nat) returns (level: nat)
    ensures 1 <= level <= MAX_LEVEL
    ensures forall l :: 1 <= l < level ==> roll(l) == 0
    ensures level < MAX_LEVEL ==> roll(level) != 0
  {
    level := 1;
    while roll(level) == 0 && level < MAX_LEVEL
      invariant 1 <= level <= MAX_LEVEL
      invariant forall l :: 1 <= l < level ==> roll(l) == 0
    {
      level := level + 1;
    }
  }

  // ---------- which node a tower link should reach ----------

  ghost function NodeAt(ns: seq<Node>, j: nat): Node? {
    if j < |ns| then ns[j] else null
  }

  /** The first position from `k` on whose tower reaches above level `i`. */
  ghost function Taller(ns: seq<Node>, k: nat, i: nat): (r: nat)
    requires k <= |ns|
    ensures k <= r <= |ns|
    ensures forall j :: k <= j < r ==> ns[j].height <= i
    ensures r < |ns| ==> ns[r].height > i
    decreases |ns| - k
  {
    if k == |ns| || ns[k].height > i then k else Taller(ns, k + 1, i)
  }

  /** What the level-`i` link of the node at position `k` must be. */
  ghost function Link(ns: seq<Node>, k: nat, i: nat): Node?
    requires k < |ns|
  {
    NodeAt(ns, Taller(ns, k + 1, i))
  }

  /** `ns` with `n` put in at position `q`. */
  ghost function With(ns: seq<Node>, q: nat, n: Node): seq<Node>
    requires q <= |ns|
  {
    ns[..q] + [n] + ns[q..]
  }

  ghost function Minus(ns: seq<Node>, q: nat): seq<Node>
    requires q < |ns|
  {
    ns[..q] + ns[q + 1..]
  }

  /** `p` is the last position before `q` whose tower reaches above level `i`. */
  ghost predicate Before(ns: seq<Node>, p: nat, q: nat, i: nat) {
    p < q <= |ns| && ns[p].height > i && forall j :: p < j < q ==> ns[j].height <= i
  }

  lemma WithAt(ns: seq<Node>, q: nat, n: Node)
    requires q <= |ns|
    ensures |With(ns, q, n)| == |ns| + 1 && With(ns, q, n)[q] == n
    ensures forall j :: 0 <= j < q ==> With(ns, q, n)[j] == ns[j]
    ensures forall j :: q <= j < |ns| ==> With(ns, q, n)[j + 1] == ns[j]
  {
  }

  lemma {:induction false} TallerBehind(ns: seq<Node>, q: nat, n: Node, k: nat, i: nat)
    requires q <= k <= |ns|
    ensures k + 1 <= |With(ns, q, n)|
    ensures Taller(With(ns, q, n), k + 1, i) == Taller(ns, k, i) + 1
    decreases |ns| - k
  {
    hide With;
    WithAt(ns, q, n);
    if k < |ns| && ns[k].height <= i {
      TallerBehind(ns, q, n, k + 1, i);
    }
  }

  lemma {:induction false} TallerAcross(ns: seq<Node>, q: nat, n: Node, k: nat, i: nat)
    requires k <= q <= |ns|
    ensures k <= |With(ns, q, n)|
    ensures var r := Taller(ns, k, i);
            Taller(With(ns, q, n), k, i) == if r < q then r else if n.height > i then q else r + 1
    decreases q - k
  {
    hide With;
    WithAt(ns, q, n);
    if k == q {
      TallerBehind(ns, q, n, q, i);
    } else if ns[k].height <= i {
      TallerAcross(ns, q, n, k + 1, i);
    }
  }

  /** Putting in a node at `q` redirects, on each level it reaches, exactly the link that passes over
      `q`; the new node takes over that link's target. */
  lemma LinkWith(ns: seq<Node>, q: nat, n: Node, i: nat, p: nat, k: nat)
    requires Before(ns, p, q, i) && k < |ns| && ns[k].height > i
    ensures |With(ns, q, n)| == |ns| + 1
    ensures Link(With(ns, q, n), if k < q then k else k + 1, i) ==
            if k == p && n.height > i then n else Link(ns, k, i)
  {
    hide Taller, With;
    WithAt(ns, q, n);
    if k >= q {
      TallerBehind(ns, q, n, k + 1, i);
    } else {
      TallerAcross(ns, q, n, k + 1, i);
      var r := Taller(ns, k + 1, i);
      assert k == p ==> r >= q;
      assert k != p ==> r < q by {
        if k != p {
          assert k < p;
          assert r <= p;
        }
      }
    }
  }

  lemma LinkOfNew(ns: seq<Node>, q: nat, n: Node, i: nat, p: nat)
    requires Before(ns, p, q, i)
    ensures |With(ns, q, n)| == |ns| + 1
    ensures Link(With(ns, q, n), q, i) == Link(ns, p, i)
  {
    hide Taller, With;
    WithAt(ns, q, n);
    TallerBehind(ns, q, n, q, i);
    TallerSkips(ns, p + 1, q, i);
  }

  lemma {:induction false} TallerSkips(ns: seq<Node>, k: nat, q: nat, i: nat)
    requires k <= q <= |ns|
    requires forall j :: k <= j < q ==> ns[j].height <= i
    ensures Taller(ns, k, i) == Taller(ns, q, i)
    decreases q - k
  {
    if k < q { TallerSkips(ns, k + 1, q, i); }
  }

  // ---------- the list ----------

  ghost function PairsOf(ns: seq<Node>): (r: seq<Pair>)
    requires ns != []
    ensures |r| == |ns| - 1 && forall j :: 0 <= j < |r| ==> r[j] == ns[j + 1].pair
  {
    seq(|ns| - 1, j requires 0 <= j < |ns| - 1 => ns[j + 1].pair)
  }

  /** Header first, then nodes in strict order, no taller than `level`. */
  ghost predicate Towers(ns: seq<Node>, header: Node, level: nat) {
    && ns != [] && ns[0] == header && header.height == MAX_LEVEL && 1 <= level <= MAX_LEVEL
    && (forall k :: 1 <= k < |ns| ==> 1 <= ns[k].height <= level && ns[k] != header)
    && Sorted(PairsOf(ns))
  }

  /** Every tower link reaches the next tower that is tall enough. */
  ghost predicate Linked(ns: seq<Node>)
    reads ns`forward
  {
    forall k :: 0 <= k < |ns| ==> LinkedAt(ns, k)
  }

  ghost predicate LinkedAt(ns: seq<Node>, k: nat)
    requires k < |ns|
    reads ns`forward
  {
    && |ns[k].forward| == ns[k].height
    && forall i :: 0 <= i < ns[k].height ==> ns[k].forward[i] == Link(ns, k, i)
  }

  /** Backward links invert level 0. */
  ghost predicate Doubly(ns: seq<Node>)
    reads ns`backward
  {
    forall k :: 1 <= k < |ns| ==> BackAt(ns, k)
  }

  ghost predicate BackAt(ns: seq<Node>, k: nat)
    requires 1 <= k < |ns|
    reads ns`backward
  {
    ns[k].backward == if k == 1 then null else ns[k - 1]
  }

  /** The sign-normalised, clamped, inclusive slice of a sequence. */
  function Slice<T>(s: seq<T>, start: int, stop: int): seq<T> {
    var n := |s|;
    var lo := if start < 0 then start + n else start;
    var hi := if stop < 0 then stop + n else stop;
    var from := if lo < 0 then 0 else lo;
    var to := if hi >= n then n - 1 else hi;
    if from > to then [] else s[from..to + 1]
  }

  lemma SliceIs<T>(s: seq<T>, start: int, stop: int, lo: int, hi: int)
    requires var a, b := if start < 0 then start + |s| else start, if stop < 0 then stop + |s| else stop;
             lo == (if a < 0 then 0 else a) && hi == (if b >= |s| then |s| - 1 else b)
    ensures Slice(s, start, stop) == if lo > hi || lo >= |s| then [] else s[lo..hi + 1]
  {
  }

  lemma NodesApart(ns: seq<Node>, header: Node, level: nat)
    requires Towers(ns, header, level)
    ensures forall j, k :: 0 <= j < k < |ns| ==> ns[j] != ns[k]
    ensures ns != [] && ns[0] == header && forall k :: 0 <= k < |ns| ==> 1 <= ns[k].height <= MAX_LEVEL
  {
    hide Below;
    forall j, k | 0 <= j < k < |ns|
      ensures ns[j] != ns[k]
    {
      if j > 0 {
        SortedApart(PairsOf(ns), j - 1, k - 1);
      }
    }
  }

  class Skiplist {
    const header: Node
    var level: nat
    var size: nat
    ghost var nodes: seq<Node>

    ghost predicate Valid()
      reads this, nodes
      ensures Valid() ==> nodes != []
    {
      && Towers(nodes, header, level) && Linked(nodes) && Doubly(nodes)
      && size == |nodes| - 1
      && (level > 1 ==> Taller(nodes, 1, level - 1) < |nodes|)
    }

    /** The pairs in order. */
    ghost function Contents(): seq<Pair>
      requires nodes != []
      reads this
    {
      PairsOf(nodes)
    }

    constructor ()
      ensures Valid() && fresh(nodes) && Contents() == []
    {
      var h := new Node([], 0, MAX_LEVEL);
      header, level, size, nodes := h, 1, 0, [h];
    }

    /** The search of `insert`, `remove` and `find`: on every level, the last node before the pair's
        place.  Levels not in use start (and end) at the header. */
    method Search(target: Pair) returns (update: seq<Node>, ghost pos: seq<nat>)
      requires Valid()
      ensures var q := Rank(Contents(), target) + 1;
              && |update| == |pos| == MAX_LEVEL
              && (forall i :: 0 <= i < MAX_LEVEL ==> Before(nodes, pos[i], q, i) && update[i] == nodes[pos[i]])
    {
      hide Below, Rank, Taller;
      ghost var q := Rank(Contents(), target) + 1;
      RankSplits(Contents(), target);
      var x := header;
      ghost var p: nat := 0;
      update, pos := seq(MAX_LEVEL, _ => header), seq(MAX_LEVEL, _ => 0);
      var i := level;
      while i > 0
        invariant 0 <= i <= level && |update| == |pos| == MAX_LEVEL
        invariant p < q && x == nodes[p] && nodes[p].height >= i
        invariant forall l :: i <= l < MAX_LEVEL ==> Before(nodes, pos[l], q, l) && update[l] == nodes[pos[l]]
      {
        i := i - 1;
        x, p := Along(target, i, x, p);
        update, pos := update[i := x], pos[i := p];
      }
    }

    /** The inner loop: run along one level while the next node is below the target. */
    method Along(target: Pair, i: nat, start: Node, ghost from: nat) returns (x: Node, ghost p: nat)
      requires Valid() && from < Rank(Contents(), target) + 1 && start == nodes[from] && start.height > i
      ensures Before(nodes, p, Rank(Contents(), target) + 1, i) && x == nodes[p]
    {
      hide Below, Rank, Taller;
      ghost var q := Rank(Contents(), target) + 1;
      RankSplits(Contents(), target);
      x, p := start, from;
      assert LinkedAt(nodes, p);
      while x.forward[i] != null && Below(x.forward[i].pair, target)
        invariant p < q && x == nodes[p] && x.height > i && LinkedAt(nodes, p)
        decreases |nodes| - p
      {
        x, p := x.forward[i], Taller(nodes, p + 1, i);
        assert Below(Contents()[p - 1], target);
        assert LinkedAt(nodes, p);
      }
      ghost var r := Taller(nodes, p + 1, i);
      assert r < |nodes| ==> !Below(Contents()[r - 1], target);
    }
  
    /** `remove`: unlink the pair's node on all its levels, then drop empty top levels. */
    method Remove(member: Bytes, score: Score) returns (found: bool)
      requires Valid()
      modifies this, nodes
      ensures Valid() && found == (Pair(score, member) in old(Contents()))
      ensures Contents() == SortedRemove(old(Contents()), Pair(score, member))
      ensures forall i :: 0 <= i < |nodes| ==> nodes[i] in old(nodes)
    {
      hide Below, Rank, Taller, Linked, Doubly, Towers, SortedRemove;
      NodesApart(nodes, header, level);
      var target := Pair(score, member);
      ghost var ns, q := nodes, Rank(Contents(), target) + 1;
      ghost var pos;
      var update;
      update, pos := Search(target);
      InAtRankHere(target);
      assert Before(ns, pos[0], q, 0) by { assert pos[0] >= 0; }
      JustBefore(ns, pos[0], q);
      NextOnLevel0(q - 1);
      var x := update[0].forward[0];
      if x == null || x.pair != target {
        return false;
      }
      CutOut(q, x, update, pos);
      ShrinkLevel();
      found := true;
    }

    /** Unlink the node at `q` on all its levels and at level 0 backwards. */
    method CutOut(ghost q: nat, x: Node, update: seq<Node>, ghost pos: seq<nat>)
      requires Valid() && 1 <= q < |nodes| && x == nodes[q] && q == Rank(Contents(), x.pair) + 1
      requires |update| == |pos| == MAX_LEVEL
      requires forall i :: 0 <= i < MAX_LEVEL ==> Before(nodes, pos[i], q, i) && update[i] == nodes[pos[i]]
      modifies this, nodes
      ensures nodes == Minus(old(nodes), q) && level == old(level)
      ensures Towers(nodes, header, level) && Linked(nodes) && Doubly(nodes) && size == |nodes| - 1
      ensures Contents() == SortedRemove(old(Contents()), x.pair)
    {
      hide Below, Rank, Taller, Linked, Doubly, Towers, Minus, SortedRemove, PairsOf, Link, Before;
      NodesApart(nodes, header, level);
      ghost var ns := nodes;
      NextOnLevel0(q);
      HeightAt(q);
      UnlinkNode(ns, q, x, update, pos, level);
      TowersMinus(ns, q, header, level);
      BackUnlink(ns, q, x);
      size := size - 1;
      nodes := Minus(ns, q);
    }

    lemma InAtRankHere(target: Pair)
      requires Valid()
      ensures var r := Rank(Contents(), target);
              target in Contents() <==> r + 1 < |nodes| && nodes[r + 1].pair == target
      ensures target !in Contents() ==> SortedRemove(Contents(), target) == Contents()
    {
      hide Below, Rank;
      InAtRank(Contents(), target);
    }

    lemma HeightAt(q: nat)
      requires Valid() && 1 <= q < |nodes|
      ensures nodes[q].height <= level
    {
    }

    lemma NextOnLevel0(k: nat)
      requires Valid() && k < |nodes|
      ensures |nodes[k].forward| >= 1 && nodes[k].forward[0] == NodeAt(nodes, k + 1)
    {
      hide Sorted;
      assert LinkedAt(nodes, k);
    }

    method ShrinkLevel()
      requires Towers(nodes, header, level) && Linked(nodes) && Doubly(nodes) && size == |nodes| - 1
      modifies this`level
      ensures Valid()
    {
      hide Taller, Sorted;
      assert LinkedAt(nodes, 0);
      while level > 1 && header.forward[level - 1] == null
        invariant Towers(nodes, header, level)
      {
        TowersShrink(nodes, header, level);
        level := level - 1;
      }
    }

    /** `find`. */
    method FindNode(member: Bytes, score: Score) returns (x: Node?)
      requires Valid()
      ensures x != null <==> Pair(score, member) in Contents()
      ensures x != null ==> x in nodes && x.pair == Pair(score, member)
    {
      hide Below, Rank, Taller, Linked, Doubly, Sorted;
      var target := Pair(score, member);
      ghost var q := Rank(Contents(), target) + 1;
      InAtRankHere(target);
      var y := header;
      ghost var p: nat := 0;
      var i := level;
      while i > 0
        invariant 0 <= i <= level
        invariant p < q && y == nodes[p] && y.height >= i
        invariant i < level ==> Before(nodes, p, q, i)
      {
        i := i - 1;
        y, p := Along(target, i, y, p);
      }
      NodesApart(nodes, header, level);
      JustBefore(nodes, p, q);
      NextOnLevel0(q - 1);
      x := y.forward[0];
      if x == null || x.pair != target {
        x := null;
      }
    }

    lemma RangeAscends(start: int, stop: int)
      requires Valid()
      ensures var r := Slice(Contents(), start, stop);
              forall i, j :: 0 <= i < j < |r| ==>
                r[i].score <= r[j].score && (r[i].score == r[j].score ==> ByteBefore(r[i].member, r[j].member))
    {
      hide Linked, Doubly, Taller, PairsOf, Below, ByteBefore;
      SortedAscends(Contents());
    }

    /** `rangeByRank`: negative ranks count from the end, both ends are clamped. */
    method RangeByRank(start: int, stop: int) returns (r: seq<Pair>)
      requires Valid()
      ensures r == Slice(Contents(), start, stop)
      ensures forall i, j :: 0 <= i < j < |r| ==> r[i].score <= r[j].score
      ensures forall i, j :: 0 <= i < j < |r| && r[i].score == r[j].score ==> ByteBefore(r[i].member, r[j].member)
    {
      hide Towers, Linked, Doubly, PairsOf, Taller, Slice, ByteBefore;
      var n := size;
      var lo := if start < 0 then start + n else start;
      var hi := if stop < 0 then stop + n else stop;
      lo := if lo < 0 then 0 else lo;
      hi := if hi >= n then n - 1 else hi;
      r := [];
      HeaderFirst();
      SliceIs(Contents(), start, stop, lo, hi);
      RangeAscends(start, stop);
      if lo > hi || lo >= n {
        return;
      }
      var x := header;
      var i := 0;
      while i <= lo
        invariant 0 <= i <= lo + 1 && x == NodeAt(nodes, i)
      {
        NextOnLevel0(i);
        x, i := x.forward[0], i + 1;
      }
      r := Gather(x, lo, hi);
    }

    /** The second loop of `rangeByRank`. */
    method Gather(start: Node?, lo: nat, hi: nat) returns (r: seq<Pair>)
      requires Valid() && lo <= hi < |Contents()| && start == NodeAt(nodes, lo + 1)
      ensures r == Contents()[lo..hi + 1]
    {
      hide Towers, Linked, Doubly, PairsOf;
      var x, i := start, lo;
      r := [];
      while i <= hi
        invariant lo <= i <= hi + 1 && x == NodeAt(nodes, i + 1)
        invariant r == Contents()[lo..i]
      {
        NextOnLevel0(i + 1);
        r := r + [x.pair];
        x, i := x.forward[0], i + 1;
      }
    }

    lemma HeaderFirst()
      requires Valid()
      ensures header == NodeAt(nodes, 0) && |Contents()| == size
    {
    }

    /** `insert`, whatever level (1 to 32) the coin gave. */
    method Insert(member: Bytes, score: Score, newLevel: nat) returns (node: Node)
      requires Valid() && 1 <= newLevel <= MAX_LEVEL && Pair(score, member) !in Contents()
      modifies this, nodes
      ensures Valid() && fresh(node) && node.pair == Pair(score, member)
      ensures forall i :: 0 <= i < |nodes| ==> nodes[i] in old(nodes) || nodes[i] == node
      ensures Contents() == SortedInsert(old(Contents()), node.pair)
    {
      hide Below, Rank, Taller, Linked, Doubly, With, Towers, PairsOf, SortedInsert, Before;
      NodesApart(nodes, header, level);
      var target := Pair(score, member);
      ghost var ns, q := nodes, Rank(Contents(), target) + 1;
      ghost var pos;
      var update;
      update, pos := Search(target);
      if newLevel > level {
        level := newLevel;
      }
      node := new Node(member, score, newLevel);
      TowersWith(ns, q, node, header, old(level), level);
      LinkIn(nodes, q, node, update, pos, header);
      size := size + 1;
      nodes := With(ns, q, node);
      OnlyNew(ns, q, node);
    }
  }

  lemma TowersMinus(ns: seq<Node>, q: nat, header: Node, level: nat)
    requires Towers(ns, header, level) && 1 <= q < |ns| && q == Rank(PairsOf(ns), ns[q].pair) + 1
    ensures Towers(Minus(ns, q), header, level) && |Minus(ns, q)| == |ns| - 1
    ensures PairsOf(Minus(ns, q)) == SortedRemove(PairsOf(ns), ns[q].pair)
  {
    hide Below, Rank, Minus, Sorted;
    MinusWith(ns, q);
    RemoveLaw(PairsOf(ns), ns[q].pair);
    assert PairsOf(Minus(ns, q)) == SortedRemove(PairsOf(ns), ns[q].pair);
  }

  /** Dropping an empty top level. */
  lemma TowersShrink(ns: seq<Node>, header: Node, level: nat)
    requires Towers(ns, header, level) && level > 1 && Link(ns, 0, level - 1) == null
    ensures Towers(ns, header, level - 1)
  {
    hide Taller, Sorted;
    assert Taller(ns, 1, level - 1) == |ns|;
  }

  /** The backward pointer around a removed node. */
  method BackUnlink(ghost ns: seq<Node>, ghost q: nat, x: Node)
    requires 1 <= q < |ns| && ns[q] == x && |x.forward| >= 1 && x.forward[0] == NodeAt(ns, q + 1)
    requires forall j, k :: 0 <= j < k < |ns| ==> ns[j] != ns[k]
    requires Doubly(ns) && Linked(Minus(ns, q))
    modifies ns`backward
    ensures Doubly(Minus(ns, q)) && Linked(Minus(ns, q))
  {
    hide Minus, Taller;
    MinusWith(ns, q);
    ghost var ms := Minus(ns, q);
    if x.forward[0] != null {
      assert ms[q] == ns[q + 1];
      x.forward[0].backward := x.backward;
    }
    forall k | 1 <= k < |ms|
      ensures BackAt(ms, k)
    {
      assert ms[k - 1] == ns[if k - 1 < q then k - 1 else k];
      if k < q {
        assert ms[k] == ns[k] && old(BackAt(ns, k));
      } else {
        assert ms[k] == ns[k + 1] && old(BackAt(ns, k + 1)) && old(BackAt(ns, q));
      }
    }
  }

  /** Taking out the node at `q` undoes putting it in. */
  lemma MinusWith(ns: seq<Node>, q: nat)
    requires q < |ns|
    ensures |Minus(ns, q)| == |ns| - 1 && With(Minus(ns, q), q, ns[q]) == ns
    ensures forall k :: 0 <= k < |ns| - 1 ==> Minus(ns, q)[k] == ns[if k < q then k else k + 1]
  {
  }

  lemma BeforeMinus(ns: seq<Node>, p: nat, q: nat, i: nat)
    requires q < |ns| && Before(ns, p, q, i)
    ensures Before(Minus(ns, q), p, q, i)
  {
    MinusWith(ns, q);
  }

  /** Level by level from the bottom, the links into `x` are redirected past it. */
  ghost predicate UnlinkedUpTo(ms: seq<Node>, x: Node, pos: seq<nat>, i: nat)
    requires |pos| == MAX_LEVEL
    reads ms`forward
  {
    forall k :: 0 <= k < |ms| ==> UnlinkedAtUpTo(ms, x, pos, i, k)
  }

  ghost predicate UnlinkedAtUpTo(ms: seq<Node>, x: Node, pos: seq<nat>, i: nat, k: nat)
    requires |pos| == MAX_LEVEL && k < |ms|
    reads ms`forward
  {
    && |ms[k].forward| == ms[k].height <= MAX_LEVEL
    && forall l :: 0 <= l < ms[k].height ==>
         ms[k].forward[l] == if i <= l < x.height && k == pos[l] then x else Link(ms, k, l)
  }

  lemma UnlinkStarts(ns: seq<Node>, q: nat, pos: seq<nat>, k: nat)
    requires q < |ns| && Linked(ns) && |pos| == MAX_LEVEL && k < |ns| - 1
    requires forall j :: 0 <= j < |ns| ==> ns[j].height <= MAX_LEVEL
    requires forall i :: 0 <= i < MAX_LEVEL ==> Before(ns, pos[i], q, i)
    ensures |Minus(ns, q)| == |ns| - 1 && UnlinkedAtUpTo(Minus(ns, q), ns[q], pos, 0, k)
  {
    hide Taller, With, Minus, Link;
    MinusWith(ns, q);
    var ms, x := Minus(ns, q), ns[q];
    var k' := if k < q then k else k + 1;
    assert ms[k] == ns[k'] && LinkedAt(ns, k');
    forall l | 0 <= l < ms[k].height
      ensures ms[k].forward[l] == if l < x.height && k == pos[l] then x else Link(ms, k, l)
    {
      BeforeMinus(ns, pos[l], q, l);
      LinkWith(ms, q, x, l, pos[l], k);
    }
  }

  /** The unlink loop of `remove`: it stops early exactly at the height of `x`, and then no link
      into `x` is left. */
  method UnlinkNode(ghost ns: seq<Node>, ghost q: nat, x: Node, update: seq<Node>, ghost pos: seq<nat>, level: nat)
    requires Linked(ns) && q < |ns| && ns[q] == x && x.height <= level <= MAX_LEVEL
    requires forall j, k :: 0 <= j < k < |ns| ==> ns[j] != ns[k]
    requires forall k :: 0 <= k < |ns| ==> ns[k].height <= MAX_LEVEL
    requires |update| == |pos| == MAX_LEVEL
    requires forall i :: 0 <= i < MAX_LEVEL ==> Before(ns, pos[i], q, i) && update[i] == ns[pos[i]]
    modifies ns`forward
    ensures Linked(Minus(ns, q)) && x.forward == old(x.forward)
  {
    hide Taller, With, Minus, Link;
    MinusWith(ns, q);
    ghost var ms := Minus(ns, q);
    assert x !in ms;
    assert LinkedAt(ns, q);
    forall k | 0 <= k < |ms|
      ensures UnlinkedAtUpTo(ms, x, pos, 0, k)
    {
      UnlinkStarts(ns, q, pos, k);
    }
    var i := 0;
    while i < level
      invariant 0 <= i <= x.height && x.forward == old(x.forward)
      invariant UnlinkedUpTo(ms, x, pos, i)
    {
      BeforeMinus(ns, pos[i], q, i);
      assert update[i] == ms[pos[i]] && UnlinkedAtUpTo(ms, x, pos, i, pos[i]);
      LinkInside(ms, pos[i], i);
      if update[i].forward[i] != x {
        break;
      }
      LinkOfNew(ms, q, x, i, pos[i]);
      label Bend:
      update[i].forward := update[i].forward[i := x.forward[i]];
      i := i + 1;
      forall k | 0 <= k < |ms|
        ensures UnlinkedAtUpTo(ms, x, pos, i, k)
      {
        assert old@Bend(UnlinkedAtUpTo(ms, x, pos, i - 1, k));
        assert k != pos[i - 1] ==> ms[k] != update[i - 1];
      }
    }
    forall k | 0 <= k < |ms|
      ensures LinkedAt(ms, k)
    {
      assert UnlinkedAtUpTo(ms, x, pos, i, k);
    }
  }

  lemma LinkInside(ms: seq<Node>, k: nat, i: nat)
    requires k < |ms|
    ensures Link(ms, k, i) == null || Link(ms, k, i) in ms
  {
  }

  lemma OnlyNew(ns: seq<Node>, q: nat, node: Node)
    requires q <= |ns|
    ensures forall i :: 0 <= i < |With(ns, q, node)| ==> With(ns, q, node)[i] in ns || With(ns, q, node)[i] == node
  {
  }

  lemma JustBefore(ns: seq<Node>, p: nat, q: nat)
    requires Before(ns, p, q, 0) && forall k :: 0 <= k < |ns| ==> ns[k].height >= 1
    ensures p == q - 1
  {
    assert ns[q - 1].height >= 1;
  }

  /** The backward pointers around a new node. */
  method BackLinks(ghost ns: seq<Node>, ghost q: nat, node: Node, prev: Node, header: Node)
    requires 1 <= q <= |ns| && prev == ns[q - 1] && header == ns[0] && node !in ns && node.height >= 1
    requires forall j, k :: 0 <= j < k < |ns| ==> ns[j] != ns[k]
    requires forall k :: 0 <= k < |ns| ==> ns[k].height >= 1
    requires Doubly(ns) && Linked(With(ns, q, node))
    modifies node`backward, ns`backward
    ensures Doubly(With(ns, q, node)) && Linked(With(ns, q, node))
  {
    hide With, Taller;
    WithAt(ns, q, node);
    Level0(ns, q, node);
    ghost var ns' := With(ns, q, node);
    assert LinkedAt(ns', q);
    node.backward := if prev == header then null else prev;
    if node.forward[0] != null {
      node.forward[0].backward := node;
    }
    forall k | 1 <= k < |ns'|
      ensures BackAt(ns', k)
    {
      if k > q {
        assert ns'[k] == ns[k - 1] && old(BackAt(ns, k - 1));
      } else if k < q {
        assert ns'[k] == ns[k] && old(BackAt(ns, k));
      }
    }
  }

  /** Level by level, the link that passes over the new node's place is redirected to it. */
  ghost predicate LinkedUpTo(ns: seq<Node>, node: Node, pos: seq<nat>, i: nat)
    requires |pos| == MAX_LEVEL
    reads ns`forward
  {
    forall k :: 0 <= k < |ns| ==> LinkedAtUpTo(ns, node, pos, i, k)
  }

  ghost predicate LinkedAtUpTo(ns: seq<Node>, node: Node, pos: seq<nat>, i: nat, k: nat)
    requires |pos| == MAX_LEVEL && k < |ns|
    reads ns`forward
  {
    && |ns[k].forward| == ns[k].height <= MAX_LEVEL
    && forall l :: 0 <= l < ns[k].height ==>
         ns[k].forward[l] == if l < i && k == pos[l] then node else Link(ns, k, l)
  }

  /** The links of a new node, forward and backward. */
  method LinkIn(ghost ns: seq<Node>, ghost q: nat, node: Node, update: seq<Node>, ghost pos: seq<nat>, header: Node)
    requires Linked(ns) && Doubly(ns) && 1 <= q <= |ns| && node !in ns && |node.forward| == node.height <= MAX_LEVEL
    requires node.height >= 1 && header == ns[0]
    requires forall j, k :: 0 <= j < k < |ns| ==> ns[j] != ns[k]
    requires forall k :: 0 <= k < |ns| ==> 1 <= ns[k].height <= MAX_LEVEL
    requires |update| == |pos| == MAX_LEVEL
    requires forall i :: 0 <= i < MAX_LEVEL ==> Before(ns, pos[i], q, i) && update[i] == ns[pos[i]]
    modifies ns`forward, ns`backward, node`forward, node`backward
    ensures Linked(With(ns, q, node)) && Doubly(With(ns, q, node))
  {
    hide Taller, Linked, Doubly, With, Before;
    SpliceIn(ns, q, node, update, pos);
    JustBefore(ns, pos[0], q);
    BackLinks(ns, q, node, update[0], header);
  }

  /** The splice loop of `insert`. */
  method SpliceIn(ghost ns: seq<Node>, ghost q: nat, node: Node, update: seq<Node>, ghost pos: seq<nat>)
    requires Linked(ns) && q <= |ns| && node !in ns && |node.forward| == node.height <= MAX_LEVEL
    requires forall j, k :: 0 <= j < k < |ns| ==> ns[j] != ns[k]
    requires forall k :: 0 <= k < |ns| ==> ns[k].height <= MAX_LEVEL
    requires |update| == |pos| == MAX_LEVEL
    requires forall i :: 0 <= i < MAX_LEVEL ==> Before(ns, pos[i], q, i) && update[i] == ns[pos[i]]
    modifies ns`forward, node`forward
    ensures Linked(With(ns, q, node))
  {
    hide Taller, With;
    var i := 0;
    forall k | 0 <= k < |ns|
      ensures LinkedAtUpTo(ns, node, pos, 0, k)
    {
      assert LinkedAt(ns, k);
    }
    while i < node.height
      invariant 0 <= i <= node.height == |node.forward|
      invariant forall l :: 0 <= l < i ==> node.forward[l] == Link(ns, pos[l], l)
      invariant LinkedUpTo(ns, node, pos, i)
    {
      assert Before(ns, pos[i], q, i);
      assert LinkedAtUpTo(ns, node, pos, i, pos[i]);
      label Splice:
      node.forward := node.forward[i := update[i].forward[i]];
      update[i].forward := update[i].forward[i := node];
      i := i + 1;
      forall k | 0 <= k < |ns|
        ensures LinkedAtUpTo(ns, node, pos, i, k)
      {
        assert old@Splice(LinkedAtUpTo(ns, node, pos, i - 1, k));
        assert k != pos[i - 1] ==> ns[k] != update[i - 1];
      }
    }
    SplicedLinks(ns, q, node, pos);
  }

  lemma SplicedLinks(ns: seq<Node>, q: nat, node: Node, pos: seq<nat>)
    requires q <= |ns| && |pos| == MAX_LEVEL && |node.forward| == node.height <= MAX_LEVEL
    requires forall i :: 0 <= i < MAX_LEVEL ==> Before(ns, pos[i], q, i)
    requires LinkedUpTo(ns, node, pos, node.height)
    requires forall l :: 0 <= l < node.height ==> Before(ns, pos[l], q, l) && node.forward[l] == Link(ns, pos[l], l)
    ensures Linked(With(ns, q, node))
  {
    hide Taller, With, Link;
    WithAt(ns, q, node);
    var ns' := With(ns, q, node);
    forall k' | 0 <= k' < |ns'|
      ensures LinkedAt(ns', k')
    {
      if k' == q {
        forall i | 0 <= i < node.height
          ensures node.forward[i] == Link(ns', q, i)
        {
          LinkOfNew(ns, q, node, i, pos[i]);
        }
      } else {
        var k := if k' < q then k' else k' - 1;
        assert ns'[k'] == ns[k] && LinkedAtUpTo(ns, node, pos, node.height, k);
        forall i | 0 <= i < ns[k].height
          ensures ns[k].forward[i] == Link(ns', k', i)
        {
          LinkWith(ns, q, node, i, pos[i], k);
        }
      }
    }
  }

  lemma TowersWith(ns: seq<Node>, q: nat, node: Node, header: Node, level: nat, level': nat)
    requires Towers(ns, header, level) && level <= level' <= MAX_LEVEL && node != header
    requires node.pair !in PairsOf(ns) && 1 <= node.height <= level' && q == Rank(PairsOf(ns), node.pair) + 1
    requires level > 1 ==> Taller(ns, 1, level - 1) < |ns|
    requires level' == level || level' == node.height
    ensures Towers(With(ns, q, node), header, level')
    ensures PairsOf(With(ns, q, node)) == SortedInsert(PairsOf(ns), node.pair)
    ensures |With(ns, q, node)| == |ns| + 1
    ensures level' > 1 ==> Taller(With(ns, q, node), 1, level' - 1) < |With(ns, q, node)|
  {
    hide Below, Rank, Taller, With;
    WithAt(ns, q, node);
    var ns' := With(ns, q, node);
    InsertLaw(PairsOf(ns), node.pair);
    assert PairsOf(ns') == SortedInsert(PairsOf(ns), node.pair);
    forall k | 1 <= k < |ns'|
      ensures 1 <= ns'[k].height <= level' && ns'[k] != header
    {
      if k > q { assert ns'[k] == ns[k - 1]; }
    }
    if level' > 1 {
      TallerAcross(ns, q, node, 1, level' - 1);
    }
  }

  /** Level 0 links neighbours. */
  lemma Level0(ns: seq<Node>, q: nat, node: Node)
    requires 1 <= q <= |ns| && node.height >= 1 && forall k :: 0 <= k < |ns| ==> ns[k].height >= 1
    ensures |With(ns, q, node)| == |ns| + 1 && Link(With(ns, q, node), q, 0) == NodeAt(ns, q)
  {
    hide With;
    WithAt(ns, q, node);
  }
}
