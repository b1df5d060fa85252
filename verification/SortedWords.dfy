/** The words of the commands on sorted sets. */
module SortedWords {
  import opened Text
  import opened Resp
  import opened SortedPairs
  import opened Objects
  import opened Replies
  import opened Commands
  import opened Executor
  import opened WordLaws
  import opened KeyWords
  import opened ContainerWords
  import Skiplists
  import ZSets

  // ---------- ZADD and ZREM ----------

  lemma AssignedLast<V(!new)>(h: map<Bytes, V>, fs: seq<Bytes>, vs: seq<V>, h': map<Bytes, V>, f: Bytes, v: V)
    requires Assigned(h, fs, vs, h')
    ensures Assigned(h, fs + [f], vs + [v], h'[f := v])
  {
    var gs, us := fs + [f], vs + [v];
    assert forall g :: g in gs <==> g == f || g in fs;
    LastAtNone(fs);
    hide LastAt;
    forall i: nat | LastAt(gs, i)
      ensures i < |gs| && h'[f := v][gs[i]] == us[i]
    {
      LastAtLast(fs, f, i);
    }
  }

  lemma LastAtLast(fs: seq<Bytes>, f: Bytes, i: nat)
    requires LastAt(fs + [f], i)
    ensures i <= |fs| && (i < |fs| ==> LastAt(fs, i) && fs[i] != f)
  {
    var gs := fs + [f];
    assert gs[|fs|] == f && forall j :: 0 <= j < |fs| ==> gs[j] == fs[j];
  }

  function MembersOf(ps: seq<Pair>): seq<Bytes> {
    seq(|ps|, i requires 0 <= i < |ps| => ps[i].member)
  }

  function ScoresOf(ps: seq<Pair>): seq<Score> {
    seq(|ps|, i requires 0 <= i < |ps| => ps[i].score)
  }

  lemma {:induction false} AddAllAssigns(z: ZSets.Dict, ps: seq<Pair>)
    ensures Assigned(z, MembersOf(ps), ScoresOf(ps), ZSets.AddAll(z, ps))
    decreases |ps|
  {
    hide Assigned;
    if ps == [] {
      AssignedNone(z);
      assert MembersOf(ps) == [] && ScoresOf(ps) == [];
    } else {
      var n := |ps| - 1;
      AddAllAssigns(z, ps[..n]);
      AssignedLast(z, MembersOf(ps[..n]), ScoresOf(ps[..n]), ZSets.AddAll(z, ps[..n]), ps[n].member, ps[n].score);
      assert MembersOf(ps) == MembersOf(ps[..n]) + [ps[n].member] && ScoresOf(ps) == ScoresOf(ps[..n]) + [ps[n].score];
    }
  }

  /** The scores that the words `ws` stand for. */
  function Parsed(env: Env, ws: seq<Bytes>): seq<Score> {
    seq(|ws|, i requires 0 <= i < |ws| => env.parseScore(ws[i]))
  }

  lemma {:induction false} ScorePairsAre(env: Env, ws: seq<Bytes>)
    ensures MembersOf(ScorePairs(env, ws)) == Odds(ws) && ScoresOf(ScorePairs(env, ws)) == Parsed(env, Evens(ws))
    decreases |ws|
  {
    if |ws| >= 2 {
      var more := ScorePairs(env, ws[2..]);
      ScorePairsAre(env, ws[2..]);
      HalvesStep(ws);
      assert MembersOf(ScorePairs(env, ws)) == [ws[1]] + MembersOf(more);
      assert ScoresOf(ScorePairs(env, ws)) == [env.parseScore(ws[0])] + ScoresOf(more);
      assert Parsed(env, Evens(ws)) == [env.parseScore(ws[0])] + Parsed(env, Evens(ws[2..]));
    }
  }

  /** The score-member pairs of `ws` went into the sorted set `z` of `k`; the reply is the number of members it did not have. */
  ghost predicate ScoresWritten(env: Env, o: Outcome, d: DB, k: Bytes, z: ZSets.Dict, ws: seq<Bytes>) {
    exists z' ::
      && Assigned(z, Odds(ws), Parsed(env, Evens(ws)), z')
      && o == Outcome(Put(d, k, ZSet(z')), Int(|set m | m in Odds(ws) && m !in z|))
  }

  lemma ZAddWord(env: Env, now: int, db: DB, w: Bytes, k: Bytes, ws: seq<Bytes>)
    requires Spells(w, "ZADD") && |ws| >= 2
    ensures var o, d := Dispatch(env, now, db, [w, k] + ws), After(db, now, k);
            if |ws| % 2 != 0 then o == Outcome(db, Error("ERR wrong number of arguments for '" + "zadd" + "' command"))
            else match Look(db, now, k)
                 case None => ScoresWritten(env, o, d, k, map[], ws)
                 case Some(ZSet(z)) => ScoresWritten(env, o, d, k, z, ws)
                 case Some(_) => o == Outcome(d, WRONG_TYPE)
  {
    hide Spells, Dispatch, Exec, ZAdd, After, Look, ScoresWritten, WRONG_TYPE;
    assert Spelling(ZADD) == "ZADD";
    var a := [w, k] + ws;
    assert a[1] == k && a[2..] == ws;
    Runs(env, now, db, a, ZADD);
    ContainersExec(env, now, db, ZADD, a);
    ZAddIs(env, db, now, a, ws);
  }

  lemma ZAddIs(env: Env, db: DB, now: int, a: Command, ws: seq<Bytes>)
    requires |a| >= 4 && a[2..] == ws
    ensures var o, d, k := ZAdd(env, db, now, a), After(db, now, a[1]), a[1];
            if |ws| % 2 != 0 then o == Outcome(db, Error("ERR wrong number of arguments for '" + "zadd" + "' command"))
            else match Look(db, now, k)
                 case None => ScoresWritten(env, o, d, k, map[], ws)
                 case Some(ZSet(z)) => ScoresWritten(env, o, d, k, z, ws)
                 case Some(_) => o == Outcome(d, WRONG_TYPE)
  {
    hide After, Look, Put, Touch, Commands.Store, ZSets.AddAll, ScorePairs, ScoresWritten, WRONGTYPE, WRONG_TYPE;
    var k, d := a[1], After(db, now, a[1]);
    LookIs(db, now, k);
    WrongTypeIs();
    ScoresPut(env, d, k, if k in d && d[k].value.ZSet? then d[k].value.scores else map[], ws);
  }

  lemma ScoresPut(env: Env, d: DB, k: Bytes, z: ZSets.Dict, ws: seq<Bytes>)
    ensures var z' := ZSets.AddAll(z, ScorePairs(env, ws));
            ScoresWritten(env, Outcome(Commands.Store(d, k, ZSet(z')), Int(|z'| - |z|)), d, k, z, ws)
  {
    hide Assigned, ZSets.AddAll, ScorePairs, Put, Commands.Store;
    var ps := ScorePairs(env, ws);
    var z' := ZSets.AddAll(z, ps);
    AddAllAssigns(z, ps);
    ScorePairsAre(env, ws);
    AssignedCounts(z, Odds(ws), Parsed(env, Evens(ws)), z');
    PutIs(d, k, ZSet(z'));
  }

  /** ZREM takes its words out, and the key with its last member; the reply counts those that were there. */
  lemma ZRemWord(env: Env, now: int, db: DB, w: Bytes, k: Bytes, ms: seq<Bytes>)
    requires Spells(w, "ZREM") && ms != []
    ensures var d := After(db, now, k);
            Dispatch(env, now, db, [w, k] + ms) ==
              match Look(db, now, k)
              case None => Outcome(d, Int(0))
              case Some(ZSet(z)) =>
                var z' := map m | m in z && m !in ms :: z[m];
                Outcome(if z' == map[] then d - {k} else Put(d, k, ZSet(z')), Int(|set m | m in z && m in ms|))
              case Some(_) => Outcome(d, WRONG_TYPE)
  {
    hide Spells, Dispatch, Exec, After, Look, Put, Touch, Commands.Store, Words, WRONGTYPE, ZSets.RemAll;
    assert Spelling(ZREM) == "ZREM";
    var a := [w, k] + ms;
    assert a[1] == k && a[2..] == ms;
    Runs(env, now, db, a, ZREM);
    ContainersExec(env, now, db, ZREM, a);
    LookIs(db, now, k);
    var d := After(db, now, k);
    WrongTypeIs();
    if k in d && d[k].value.ZSet? {
      var z := d[k].value.scores;
      RemAllIs(z, ms);
      PutIs(d, k, ZSet(ZSets.RemAll(z, ms)));
    }
  }

  lemma RemAllIs(z: ZSets.Dict, ms: seq<Bytes>)
    ensures ZSets.RemAll(z, ms) == map m | m in z && m !in ms :: z[m]
    ensures |z| - |ZSets.RemAll(z, ms)| == |set m | m in z && m in ms|
  {
    hide ZSets.RemAll;
    ZSets.RemAllIsMinus(z, ms);
    assert Words(ms) == set m | m in ms;
    MinusCounts(z, ms);
    MinusIs(z, ms);
  }

  // ---------- reading ----------

  lemma ZCardWord(env: Env, now: int, db: DB, w: Bytes, k: Bytes)
    requires Spells(w, "ZCARD")
    ensures Dispatch(env, now, db, [w, k]) == Outcome(After(db, now, k),
              match Look(db, now, k)
              case None => Int(0)
              case Some(ZSet(z)) => Int(|z|)
              case Some(_) => WRONG_TYPE)
  {
    hide Spells, Dispatch, Exec, After, Look;
    assert Spelling(ZCARD) == "ZCARD";
    Runs(env, now, db, [w, k], ZCARD);
    ReadersExec(env, now, db, ZCARD, [w, k]);
    LookIs(db, now, k);
  }

  lemma ZScoreWord(env: Env, now: int, db: DB, w: Bytes, k: Bytes, m: Bytes)
    requires Spells(w, "ZSCORE")
    ensures Dispatch(env, now, db, [w, k, m]) == Outcome(After(db, now, k),
              match Look(db, now, k)
              case None => Null
              case Some(ZSet(z)) => (if m in z then BulkString(env.printScore(z[m])) else Null)
              case Some(_) => WRONG_TYPE)
  {
    hide Spells, Dispatch, Exec, After, Look, RankIn;
    assert Spelling(ZSCORE) == "ZSCORE";
    Runs(env, now, db, [w, k, m], ZSCORE);
    ReadersExec(env, now, db, ZSCORE, [w, k, m]);
    LookIs(db, now, k);
  }

  /** ZRANK: the number of members with a smaller score, or the same score and a name earlier in byte order. */
  lemma ZRankWord(env: Env, now: int, db: DB, w: Bytes, k: Bytes, m: Bytes)
    requires Spells(w, "ZRANK")
    ensures Dispatch(env, now, db, [w, k, m]) == Outcome(After(db, now, k),
              match Look(db, now, k)
              case None => Null
              case Some(ZSet(z)) =>
                (if m in z then Int(|set x | x in z && (z[x] < z[m] || (z[x] == z[m] && ByteBefore(x, m)))|) else Null)
              case Some(_) => WRONG_TYPE)
  {
    hide Spells, Dispatch, Exec, After, Look, RankIn, ByteBefore;
    assert Spelling(ZRANK) == "ZRANK";
    Runs(env, now, db, [w, k, m], ZRANK);
    ReadersExec(env, now, db, ZRANK, [w, k, m]);
    LookIs(db, now, k);
    var v := Look(db, now, k);
    if v.Some? && v.value.ZSet? && m in v.value.scores {
      RankWrittenOut(v.value.scores, m);
    }
  }

  /** `ms` holds every member of `z` once, by ascending score and at equal scores in byte order. */
  ghost predicate Ranked(z: ZSets.Dict, ms: seq<Bytes>) {
    && |ms| == |z| && (forall m :: m in ms <==> m in z)
    && (forall i, j :: 0 <= i < j < |ms| ==>
          z[ms[i]] < z[ms[j]] || (z[ms[i]] == z[ms[j]] && ByteBefore(ms[i], ms[j])))
  }

  lemma OrderRanks(z: ZSets.Dict, s: seq<Pair>)
    requires ZSets.Coherent(s, z)
    ensures Ranked(z, MembersOf(s)) && forall i :: 0 <= i < |s| ==> s[i].member in z && z[s[i].member] == s[i].score
  {
    hide Below, ByteBefore;
    var ms := MembersOf(s);
    assert forall i :: 0 <= i < |s| ==> s[i] in s && ms[i] == s[i].member;
    forall m
      ensures m in ms <==> m in z
    {
      if m in z { assert Pair(z[m], m) in s; }
    }
    forall i, j | 0 <= i < j < |ms|
      ensures z[ms[i]] < z[ms[j]] || (z[ms[i]] == z[ms[j]] && ByteBefore(ms[i], ms[j]))
    {
      BelowIs(s[i], s[j]);
    }
  }

  /** As `Window`, each member followed by its printed score. */
  predicate ScoredWindow(env: Env, reply: Reply, z: ZSets.Dict, ms: seq<Bytes>, lo: nat, hi: int) {
    && reply.Array? && |reply.elements| == (if lo <= hi then 2 * (hi - lo + 1) else 0)
    && forall i :: 0 <= i <= hi - lo ==>
         && lo + i < |ms| && ms[lo + i] in z
         && reply.elements[2 * i] == BulkString(ms[lo + i])
         && reply.elements[2 * i + 1] == BulkString(env.printScore(z[ms[lo + i]]))
  }

  /** Without scores a range is the window of the members, with scores the scored one. */
  ghost predicate Ranged(env: Env, reply: Reply, z: ZSets.Dict, start: int, stop: int, scores: bool) {
    exists ms ::
      && Ranked(z, ms)
      && var lo, hi := From(|ms|, start), Upto(|ms|, stop);
         if scores then ScoredWindow(env, reply, z, ms, lo, hi) else Window(reply, ms, lo, hi)
  }

  lemma {:induction false} PlainReplies(env: Env, ps: seq<Pair>)
    ensures PairReplies(env, ps, false) == Bulks(MembersOf(ps))
  {
    if ps != [] {
      PlainReplies(env, ps[1..]);
      assert Bulks(MembersOf(ps)) == [BulkString(ps[0].member)] + Bulks(MembersOf(ps[1..]));
    }
  }

  lemma {:induction false} ScoredReplies(env: Env, ps: seq<Pair>)
    ensures var r := PairReplies(env, ps, true);
            && |r| == 2 * |ps|
            && forall i :: 0 <= i < |ps| ==>
                 r[2 * i] == BulkString(ps[i].member) && r[2 * i + 1] == BulkString(env.printScore(ps[i].score))
  {
    if ps != [] {
      ScoredReplies(env, ps[1..]);
      var r, more := PairReplies(env, ps, true), PairReplies(env, ps[1..], true);
      forall i | 0 <= i < |ps|
        ensures r[2 * i] == BulkString(ps[i].member) && r[2 * i + 1] == BulkString(env.printScore(ps[i].score))
      {
        if i > 0 {
          assert r[2 * i] == more[2 * (i - 1)] && r[2 * i + 1] == more[2 * (i - 1) + 1] && ps[i] == ps[1..][i - 1];
        }
      }
    }
  }

  lemma RangeIsRanged(env: Env, z: ZSets.Dict, a: Command)
    requires |a| >= 4
    ensures Ranged(env, Array(RangeReplies(env, z, a)), z, Atoi(a[2]), Atoi(a[3]), |a| == 5)
  {
    hide Atoi, Skiplists.Slice, PairReplies, ZSets.Coherent, Ranked, From, Upto, ScoredWindow, Window;
    var s, start, stop := OrderOf(z), Atoi(a[2]), Atoi(a[3]);
    var ms := MembersOf(s);
    OrderRanks(z, s);
    SliceAt(s, start, stop);
    var ps := Skiplists.Slice(s, start, stop);
    if |a| == 5 {
      ScoredRange(env, z, s, ps, From(|ms|, start), Upto(|ms|, stop));
    } else {
      PlainRange(env, s, ps, From(|ms|, start), Upto(|ms|, stop));
    }
  }

  lemma PlainRange(env: Env, s: seq<Pair>, ps: seq<Pair>, lo: nat, hi: int)
    requires if lo <= hi then hi < |s| && ps == s[lo..hi + 1] else ps == []
    ensures Window(Array(PairReplies(env, ps, false)), MembersOf(s), lo, hi)
  {
    hide PairReplies;
    PlainReplies(env, ps);
  }

  lemma ScoredRange(env: Env, z: ZSets.Dict, s: seq<Pair>, ps: seq<Pair>, lo: nat, hi: int)
    requires if lo <= hi then hi < |s| && ps == s[lo..hi + 1] else ps == []
    requires forall i :: 0 <= i < |s| ==> s[i].member in z && z[s[i].member] == s[i].score
    ensures ScoredWindow(env, Array(PairReplies(env, ps, true)), z, MembersOf(s), lo, hi)
  {
    hide PairReplies;
    ScoredReplies(env, ps);
    var ms := MembersOf(s);
    assert forall i :: 0 <= i <= hi - lo ==> ps[i] == s[lo + i] && ms[lo + i] == s[lo + i].member;
  }

  /** ZRANGE: the members by ascending score, from one position to another; several further words are ignored. */
  lemma ZRangeWord(env: Env, now: int, db: DB, w: Bytes, k: Bytes, start: Bytes, stop: Bytes, more: seq<Bytes>)
    requires Spells(w, "ZRANGE") && |more| != 1
    ensures var o := Dispatch(env, now, db, [w, k, start, stop] + more);
            && o.db == After(db, now, k)
            && match Look(db, now, k)
               case None => o.reply == Array([])
               case Some(ZSet(z)) => Ranged(env, o.reply, z, Atoi(start), Atoi(stop), false)
               case Some(_) => o.reply == WRONG_TYPE
  {
    hide Spells, Dispatch, Exec, After, Look, Atoi, RangeReplies, Ranged;
    assert Spelling(ZRANGE) == "ZRANGE";
    var a := [w, k, start, stop] + more;
    assert a[1] == k && a[2] == start && a[3] == stop;
    Runs(env, now, db, a, ZRANGE);
    ReadersExec(env, now, db, ZRANGE, a);
    LookIs(db, now, k);
    var v := Look(db, now, k);
    if v.Some? && v.value.ZSet? {
      RangeIsRanged(env, v.value.scores, a);
    }
  }

  /** With WITHSCORES each member is followed by its score; another fifth word is an error. */
  lemma ZRangeScoresWord(env: Env, now: int, db: DB, w: Bytes, k: Bytes, start: Bytes, stop: Bytes, option: Bytes)
    requires Spells(w, "ZRANGE")
    ensures var o := Dispatch(env, now, db, [w, k, start, stop, option]);
            if !Spells(option, "WITHSCORES") then o == Outcome(db, Error("ERR syntax error"))
            else
              && o.db == After(db, now, k)
              && match Look(db, now, k)
                 case None => o.reply == Array([])
                 case Some(ZSet(z)) => Ranged(env, o.reply, z, Atoi(start), Atoi(stop), true)
                 case Some(_) => o.reply == WRONG_TYPE
  {
    hide Spells, Dispatch, Exec, After, Look, Atoi, RangeReplies, Ranged, Upper;
    assert Spelling(ZRANGE) == "ZRANGE";
    var a := [w, k, start, stop, option];
    Runs(env, now, db, a, ZRANGE);
    ReadersExec(env, now, db, ZRANGE, a);
    SpellsIff(option, "WITHSCORES");
    LookIs(db, now, k);
    var v := Look(db, now, k);
    if v.Some? && v.value.ZSet? {
      RangeIsRanged(env, v.value.scores, a);
    }
  }

  /** ZSCORE after ZADD: the score of the last pair that names the member. */
  lemma ZAddScoreWords(env: Env, now: int, db: DB, zadd: Bytes, zscore: Bytes, k: Bytes, ws: seq<Bytes>, i: nat)
    requires Spells(zadd, "ZADD") && Spells(zscore, "ZSCORE") && |ws| % 2 == 0 && LastAt(Odds(ws), i)
    requires Look(db, now, k).None? || Look(db, now, k).value.ZSet?
    ensures Dispatch(env, now, Dispatch(env, now, db, [zadd, k] + ws).db, [zscore, k, ws[2 * i + 1]]).reply
         == BulkString(env.printScore(env.parseScore(ws[2 * i])))
  {
    hide Spells, Dispatch;
    ZAddWord(env, now, db, zadd, k, ws);
    var o := Dispatch(env, now, db, [zadd, k] + ws);
    ZScoreWord(env, now, o.db, zscore, k, ws[2 * i + 1]);
    var d := After(db, now, k);
    var z := if Look(db, now, k).Some? then Look(db, now, k).value.scores else map[];
    assert ScoresWritten(env, o, d, k, z, ws);
    hide ScoresWritten, Assigned, Put, After, Look;
    var z' := WrittenScores(env, o, d, k, z, ws);
    LastScore(env, z, ws, z', i);
    PutLooks(db, now, k, ZSet(z'));
  }

  lemma WrittenScores(env: Env, o: Outcome, d: DB, k: Bytes, z: ZSets.Dict, ws: seq<Bytes>) returns (z': ZSets.Dict)
    requires ScoresWritten(env, o, d, k, z, ws)
    ensures Assigned(z, Odds(ws), Parsed(env, Evens(ws)), z') && o.db == Put(d, k, ZSet(z'))
  {
    z' :| Assigned(z, Odds(ws), Parsed(env, Evens(ws)), z') && o.db == Put(d, k, ZSet(z'));
  }

  lemma LastScore(env: Env, z: ZSets.Dict, ws: seq<Bytes>, z': ZSets.Dict, i: nat)
    requires Assigned(z, Odds(ws), Parsed(env, Evens(ws)), z') && LastAt(Odds(ws), i)
    ensures ws[2 * i + 1] in z' && z'[ws[2 * i + 1]] == env.parseScore(ws[2 * i])
  {
    var ms := Odds(ws);
    LastAtNone(ms);
    hide LastAt;
    assert ms[i] == ws[2 * i + 1] && ms[i] in ms;
  }
}
