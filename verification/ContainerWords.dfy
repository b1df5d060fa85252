/** The words of the commands on lists, hashes and sets, and what one of them writes another reads. */
module ContainerWords {
  import opened Text
  import opened Resp
  import opened Objects
  import opened Replies
  import opened Commands
  import opened Executor
  import opened WordLaws
  import opened KeyWords
  import Skiplists
  import CommandProofs
  import RoundTrips

  // ---------- lists ----------

  lemma {:induction false} ReversedIs(xs: seq<Bytes>)
    ensures Reversed(xs) == seq(|xs|, i requires 0 <= i < |xs| => xs[|xs| - 1 - i])
  {
    if xs != [] {
      ReversedIs(xs[1..]);
    }
  }

  /** LPUSH puts its words in front one by one, so the last one comes first. */
  lemma LPushWord(env: Env, now: int, db: DB, w: Bytes, k: Bytes, xs: seq<Bytes>)
    requires Spells(w, "LPUSH") && xs != []
    ensures var d, front := After(db, now, k), seq(|xs|, i requires 0 <= i < |xs| => xs[|xs| - 1 - i]);
            Dispatch(env, now, db, [w, k] + xs) ==
              match Look(db, now, k)
              case None => Outcome(Put(d, k, List(front)), Int(|xs|))
              case Some(List(l)) => Outcome(Put(d, k, List(front + l)), Int(|xs| + |l|))
              case Some(_) => Outcome(d, WRONG_TYPE)
  {
    hide Spells, Dispatch, Exec, After, Look, Put, Reversed, Commands.Store, PushList, WRONG_TYPE;
    assert Spelling(LPUSH) == "LPUSH";
    var a := [w, k] + xs;
    assert a[1] == k && a[2..] == xs;
    Runs(env, now, db, a, LPUSH);
    ContainersExec(env, now, db, LPUSH, a);
    Pushed(db, now, a, true);
    ReversedIs(xs);
    assert Reversed(xs) + [] == Reversed(xs);
  }

  /** RPUSH puts its words at the end. */
  lemma RPushWord(env: Env, now: int, db: DB, w: Bytes, k: Bytes, xs: seq<Bytes>)
    requires Spells(w, "RPUSH") && xs != []
    ensures var d := After(db, now, k);
            Dispatch(env, now, db, [w, k] + xs) ==
              match Look(db, now, k)
              case None => Outcome(Put(d, k, List(xs)), Int(|xs|))
              case Some(List(l)) => Outcome(Put(d, k, List(l + xs)), Int(|l| + |xs|))
              case Some(_) => Outcome(d, WRONG_TYPE)
  {
    hide Spells, Dispatch, Exec, After, Look, Put, Reversed, Commands.Store, PushList, WRONG_TYPE;
    assert Spelling(RPUSH) == "RPUSH";
    var a := [w, k] + xs;
    assert a[1] == k && a[2..] == xs;
    Runs(env, now, db, a, RPUSH);
    ContainersExec(env, now, db, RPUSH, a);
    Pushed(db, now, a, false);
    assert [] + xs == xs;
  }

  lemma Pushed(db: DB, now: int, a: Command, front: bool)
    requires |a| >= 3
    ensures var d, xs := After(db, now, a[1]), a[2..];
            var more := l => if front then Reversed(xs) + l else l + xs;
            PushList(db, now, a, front) ==
              match Look(db, now, a[1])
              case None => Outcome(Put(d, a[1], List(more([]))), Int(|xs|))
              case Some(List(l)) => Outcome(Put(d, a[1], List(more(l))), Int(|l| + |xs|))
              case Some(_) => Outcome(d, WRONG_TYPE)
  {
    hide After, Look, Put, Touch, Reversed, Commands.Store;
    LookIs(db, now, a[1]);
    CommandProofs.ReversedLength(a[2..]);
    var d := After(db, now, a[1]);
    var l := if a[1] in d && d[a[1]].value.List? then d[a[1]].value.items else [];
    PutIs(d, a[1], List(if front then Reversed(a[2..]) + l else l + a[2..]));
  }

  /** LPOP takes the first element; the key goes with its last element. */
  lemma LPopWord(env: Env, now: int, db: DB, w: Bytes, k: Bytes)
    requires Spells(w, "LPOP")
    ensures var d := After(db, now, k);
            Dispatch(env, now, db, [w, k]) ==
              match Look(db, now, k)
              case None => Outcome(d, Null)
              case Some(List(l)) =>
                if l == [] then Outcome(d, Null)
                else Outcome(if |l| == 1 then d - {k} else Put(d, k, List(l[1..])), BulkString(l[0]))
              case Some(_) => Outcome(d, WRONG_TYPE)
  {
    hide Spells, Dispatch, Exec, After, Look, Put, Touch, Commands.Store;
    assert Spelling(LPOP) == "LPOP";
    Runs(env, now, db, [w, k], LPOP);
    ContainersExec(env, now, db, LPOP, [w, k]);
    LookIs(db, now, k);
    var d := After(db, now, k);
    if k in d && d[k].value.List? && |d[k].value.items| > 0 {
      PutIs(d, k, List(d[k].value.items[1..]));
    }
  }

  /** RPOP takes the last one. */
  lemma RPopWord(env: Env, now: int, db: DB, w: Bytes, k: Bytes)
    requires Spells(w, "RPOP")
    ensures var d := After(db, now, k);
            Dispatch(env, now, db, [w, k]) ==
              match Look(db, now, k)
              case None => Outcome(d, Null)
              case Some(List(l)) =>
                if l == [] then Outcome(d, Null)
                else Outcome(if |l| == 1 then d - {k} else Put(d, k, List(l[..|l| - 1])), BulkString(l[|l| - 1]))
              case Some(_) => Outcome(d, WRONG_TYPE)
  {
    hide Spells, Dispatch, Exec, After, Look, Put, Touch, Commands.Store;
    assert Spelling(RPOP) == "RPOP";
    Runs(env, now, db, [w, k], RPOP);
    ContainersExec(env, now, db, RPOP, [w, k]);
    LookIs(db, now, k);
    var d := After(db, now, k);
    if k in d && d[k].value.List? && |d[k].value.items| > 0 {
      PutIs(d, k, List(d[k].value.items[..|d[k].value.items| - 1]));
    }
  }

  lemma LLenWord(env: Env, now: int, db: DB, w: Bytes, k: Bytes)
    requires Spells(w, "LLEN")
    ensures Dispatch(env, now, db, [w, k]) == Outcome(After(db, now, k),
              match Look(db, now, k)
              case None => Int(0)
              case Some(List(l)) => Int(|l|)
              case Some(_) => WRONG_TYPE)
  {
    hide Spells, Dispatch, Exec, After, Look;
    assert Spelling(LLEN) == "LLEN";
    Runs(env, now, db, [w, k], LLEN);
    ReadersExec(env, now, db, LLEN, [w, k]);
    LookIs(db, now, k);
  }

  /** A position in a sequence of `n`: negative ones count from the end, those before the start are the start. */
  function From(n: nat, start: int): nat {
    if start >= 0 then start else if start + n >= 0 then start + n else 0
  }

  /** The last position: those behind the end are the end. */
  function Upto(n: nat, stop: int): int {
    if stop >= n then n - 1 else if stop >= 0 then stop else stop + n
  }

  lemma SliceAt<T>(s: seq<T>, start: int, stop: int)
    ensures var r, lo, hi := Skiplists.Slice(s, start, stop), From(|s|, start), Upto(|s|, stop);
            if lo <= hi then hi < |s| && r == s[lo..hi + 1] else r == []
  {
  }

  /** The reply lists the elements of `l` from position `lo` to position `hi`, both included. */
  predicate Window(reply: Reply, l: seq<Bytes>, lo: nat, hi: int) {
    && reply.Array? && |reply.elements| == (if lo <= hi then hi - lo + 1 else 0)
    && forall i :: 0 <= i < |reply.elements| ==> lo + i < |l| && reply.elements[i] == BulkString(l[lo + i])
  }

  lemma LRangeWord(env: Env, now: int, db: DB, w: Bytes, k: Bytes, start: Bytes, stop: Bytes)
    requires Spells(w, "LRANGE")
    ensures var o := Dispatch(env, now, db, [w, k, start, stop]);
            && o.db == After(db, now, k)
            && match Look(db, now, k)
               case None => o.reply == Array([])
               case Some(List(l)) => Window(o.reply, l, From(|l|, Atoi(start)), Upto(|l|, Atoi(stop)))
               case Some(_) => o.reply == WRONG_TYPE
  {
    hide Spells, Dispatch, Exec, After, Look, Atoi, Skiplists.Slice, From, Upto, Window;
    assert Spelling(LRANGE) == "LRANGE";
    var a := [w, k, start, stop];
    Runs(env, now, db, a, LRANGE);
    ReadersExec(env, now, db, LRANGE, a);
    LookIs(db, now, k);
    var v := Look(db, now, k);
    ListRead(env, if v.Some? then v.value else List([]), a);
    hide ReadValue, ReadNothing, WRONG_TYPE;
  }

  lemma ListRead(env: Env, v: Value, a: Command)
    requires |a| == 4
    ensures v.List? ==>
              Window(ReadValue(env, LRANGE, v, a), v.items, From(|v.items|, Atoi(a[2])), Upto(|v.items|, Atoi(a[3])))
    ensures !v.List? ==> ReadValue(env, LRANGE, v, a) == WRONG_TYPE
    ensures ReadNothing(LRANGE) == Array([])
  {
    hide Atoi, Skiplists.Slice, From, Upto;
    if v.List? {
      SliceAt(v.items, Atoi(a[2]), Atoi(a[3]));
    }
  }

  /** Words pushed to the end of a new list come out in front in the order sent and at the end in reverse. */
  lemma PushPopWords(env: Env, now: int, db: DB, push: Bytes, lpop: Bytes, rpop: Bytes, k: Bytes, xs: seq<Bytes>)
    requires Spells(push, "RPUSH") && Spells(lpop, "LPOP") && Spells(rpop, "RPOP")
    requires xs != [] && Look(db, now, k).None?
    ensures var o := Dispatch(env, now, db, [push, k] + xs);
            && o.reply == Int(|xs|)
            && Dispatch(env, now, o.db, [lpop, k]).reply == BulkString(xs[0])
            && Dispatch(env, now, o.db, [rpop, k]).reply == BulkString(xs[|xs| - 1])
  {
    hide Spells, Dispatch;
    RPushWord(env, now, db, push, k, xs);
    var d := Dispatch(env, now, db, [push, k] + xs).db;
    LPopWord(env, now, d, lpop, k);
    RPopWord(env, now, d, rpop, k);
  }

  // ---------- hashes ----------

  function Evens(ws: seq<Bytes>): seq<Bytes> {
    seq(|ws| / 2, i requires 0 <= i < |ws| / 2 => ws[2 * i])
  }

  function Odds(ws: seq<Bytes>): seq<Bytes> {
    seq(|ws| / 2, i requires 0 <= i < |ws| / 2 => ws[2 * i + 1])
  }

  /** `h'` is `h` after the assignments of `vs[i]` to `fs[i]`, one after the other: the last one to a field counts. */
  ghost predicate Assigned<V(!new)>(h: map<Bytes, V>, fs: seq<Bytes>, vs: seq<V>, h': map<Bytes, V>) {
    && |fs| == |vs|
    && (forall f :: f in h' <==> f in h || f in fs)
    && (forall f :: f in h && f !in fs ==> h'[f] == h[f])
    && (forall i: nat :: LastAt(fs, i) ==> h'[fs[i]] == vs[i])
  }

  /** Position `i` is the last one with its element. */
  predicate LastAt(fs: seq<Bytes>, i: nat) {
    i < |fs| && forall j :: i < j < |fs| ==> fs[j] != fs[i]
  }

  lemma AssignedNone<V(!new)>(h: map<Bytes, V>)
    ensures Assigned(h, [], [], h)
  {
  }

  lemma AssignedFirst<V(!new)>(h: map<Bytes, V>, f: Bytes, v: V, fs: seq<Bytes>, vs: seq<V>, h': map<Bytes, V>)
    requires Assigned(h[f := v], fs, vs, h')
    ensures Assigned(h, [f] + fs, [v] + vs, h')
  {
    var gs, us := [f] + fs, [v] + vs;
    assert forall g :: g in gs <==> g == f || g in fs;
    hide LastAt;
    LastAtNone(fs);
    forall i: nat | LastAt(gs, i)
      ensures i < |gs| && gs[i] in h' && h'[gs[i]] == us[i]
    {
      LastAtFirst(f, fs, i);
      assert i > 0 ==> us[i] == vs[i - 1];
    }
  }

  lemma LastAtNone(fs: seq<Bytes>)
    ensures forall i: nat :: LastAt(fs, i) ==> i < |fs|
  {
  }

  lemma LastAtFirst(f: Bytes, fs: seq<Bytes>, i: nat)
    requires LastAt([f] + fs, i)
    ensures i == 0 ==> f !in fs
    ensures i > 0 ==> LastAt(fs, i - 1) && ([f] + fs)[i] == fs[i - 1]
    ensures i <= |fs|
  {
    var gs := [f] + fs;
    assert forall j :: 0 <= j < |fs| ==> fs[j] == gs[j + 1];
  }

  lemma HalvesStep(ws: seq<Bytes>)
    requires |ws| >= 2
    ensures Evens(ws) == [ws[0]] + Evens(ws[2..]) && Odds(ws) == [ws[1]] + Odds(ws[2..])
  {
  }

  lemma {:induction false} PutFieldsAssigns(h: map<Bytes, Bytes>, ws: seq<Bytes>)
    ensures Assigned(h, Evens(ws), Odds(ws), PutFields(h, ws))
    decreases |ws|
  {
    hide Assigned;
    if |ws| < 2 {
      AssignedNone(h);
      assert Evens(ws) == [] && Odds(ws) == [];
    } else {
      PutFieldsAssigns(h[ws[0] := ws[1]], ws[2..]);
      AssignedFirst(h, ws[0], ws[1], Evens(ws[2..]), Odds(ws[2..]), PutFields(h, ws));
      HalvesStep(ws);
    }
  }

  lemma AssignedCounts<V(!new)>(h: map<Bytes, V>, fs: seq<Bytes>, vs: seq<V>, h': map<Bytes, V>)
    requires Assigned(h, fs, vs, h')
    ensures |h'| - |h| == |set f | f in fs && f !in h|
  {
    var fresh' := set f | f in fs && f !in h;
    assert h'.Keys == h.Keys + fresh' && h.Keys !! fresh';
    assert |h'| == |h'.Keys| && |h| == |h.Keys|;
  }

  /** The pairs of `ws` went into the hash `h` of `k`; the reply is the number of fields it did not have. */
  ghost predicate HashWritten(o: Outcome, d: DB, k: Bytes, h: map<Bytes, Bytes>, ws: seq<Bytes>) {
    exists h' ::
      && Assigned(h, Evens(ws), Odds(ws), h')
      && o == Outcome(Put(d, k, Hash(h')), Int(|set f | f in Evens(ws) && f !in h|))
  }

  lemma HSetWord(env: Env, now: int, db: DB, w: Bytes, k: Bytes, ws: seq<Bytes>)
    requires Spells(w, "HSET") && |ws| >= 2
    ensures var o, d := Dispatch(env, now, db, [w, k] + ws), After(db, now, k);
            if |ws| % 2 != 0 then o == Outcome(db, Error("ERR wrong number of arguments for '" + "hset" + "' command"))
            else match Look(db, now, k)
                 case None => HashWritten(o, d, k, map[], ws)
                 case Some(Hash(h)) => HashWritten(o, d, k, h, ws)
                 case Some(_) => o == Outcome(d, WRONG_TYPE)
  {
    hide Spells, Dispatch, Exec, HSet, After, Look, HashWritten, WRONG_TYPE;
    assert Spelling(HSET) == "HSET";
    var a := [w, k] + ws;
    assert a[1] == k && a[2..] == ws;
    Runs(env, now, db, a, HSET);
    ContainersExec(env, now, db, HSET, a);
    HSetIs(db, now, a, ws);
  }

  lemma HSetIs(db: DB, now: int, a: Command, ws: seq<Bytes>)
    requires |a| >= 4 && a[2..] == ws
    ensures var o, d, k := HSet(db, now, a), After(db, now, a[1]), a[1];
            if |ws| % 2 != 0 then o == Outcome(db, Error("ERR wrong number of arguments for '" + "hset" + "' command"))
            else match Look(db, now, k)
                 case None => HashWritten(o, d, k, map[], ws)
                 case Some(Hash(h)) => HashWritten(o, d, k, h, ws)
                 case Some(_) => o == Outcome(d, WRONG_TYPE)
  {
    hide After, Look, Put, Touch, Commands.Store, PutFields, HashWritten, WRONGTYPE, WRONG_TYPE;
    var k, d := a[1], After(db, now, a[1]);
    LookIs(db, now, k);
    WrongTypeIs();
    HashPut(d, k, if k in d && d[k].value.Hash? then d[k].value.fields else map[], ws);
  }

  lemma WrongTypeIs()
    ensures WRONGTYPE == WRONG_TYPE
  {
  }

  lemma HashPut(d: DB, k: Bytes, h: map<Bytes, Bytes>, ws: seq<Bytes>)
    ensures var h' := PutFields(h, ws);
            HashWritten(Outcome(Commands.Store(d, k, Hash(h')), Int(|h'| - |h|)), d, k, h, ws)
  {
    hide Assigned, PutFields, Put, Commands.Store;
    var h' := PutFields(h, ws);
    PutFieldsAssigns(h, ws);
    AssignedCounts(h, Evens(ws), Odds(ws), h');
    PutIs(d, k, Hash(h'));
  }

  lemma HGetWord(env: Env, now: int, db: DB, w: Bytes, k: Bytes, f: Bytes)
    requires Spells(w, "HGET")
    ensures Dispatch(env, now, db, [w, k, f]) == Outcome(After(db, now, k),
              match Look(db, now, k)
              case None => Null
              case Some(Hash(h)) => (if f in h then BulkString(h[f]) else Null)
              case Some(_) => WRONG_TYPE)
  {
    hide Spells, Dispatch, Exec, After, Look;
    assert Spelling(HGET) == "HGET";
    Runs(env, now, db, [w, k, f], HGET);
    ReadersExec(env, now, db, HGET, [w, k, f]);
    LookIs(db, now, k);
  }

  /** HDEL erases the named fields and the key with its last field; the reply counts the fields that were there. */
  lemma HDelWord(env: Env, now: int, db: DB, w: Bytes, k: Bytes, fs: seq<Bytes>)
    requires Spells(w, "HDEL") && fs != []
    ensures var d := After(db, now, k);
            Dispatch(env, now, db, [w, k] + fs) ==
              match Look(db, now, k)
              case None => Outcome(d, Int(0))
              case Some(Hash(h)) =>
                var h' := map f | f in h && f !in fs :: h[f];
                Outcome(if h' == map[] then d - {k} else Put(d, k, Hash(h')), Int(|set f | f in h && f in fs|))
              case Some(_) => Outcome(d, WRONG_TYPE)
  {
    hide Spells, Dispatch, Exec, After, Look, Put, Touch, Commands.Store, Words, WRONGTYPE;
    assert Spelling(HDEL) == "HDEL";
    var a := [w, k] + fs;
    assert a[1] == k && a[2..] == fs;
    Runs(env, now, db, a, HDEL);
    ContainersExec(env, now, db, HDEL, a);
    LookIs(db, now, k);
    var d := After(db, now, k);
    WrongTypeIs();
    if k in d && d[k].value.Hash? {
      var h := d[k].value.fields;
      MinusCounts(h, fs);
      MinusIs(h, fs);
      PutIs(d, k, Hash(h - Words(fs)));
    }
  }

  lemma HLenWord(env: Env, now: int, db: DB, w: Bytes, k: Bytes)
    requires Spells(w, "HLEN")
    ensures Dispatch(env, now, db, [w, k]) == Outcome(After(db, now, k),
              match Look(db, now, k)
              case None => Int(0)
              case Some(Hash(h)) => Int(|h|)
              case Some(_) => WRONG_TYPE)
  {
    hide Spells, Dispatch, Exec, After, Look;
    assert Spelling(HLEN) == "HLEN";
    Runs(env, now, db, [w, k], HLEN);
    ReadersExec(env, now, db, HLEN, [w, k]);
    LookIs(db, now, k);
  }

  /** The reply lists the fields `fs` of `h`, each followed by its value. */
  predicate FieldsListed(reply: Reply, h: map<Bytes, Bytes>, fs: seq<Bytes>) {
    && reply.Array? && |reply.elements| == 2 * |fs|
    && forall i :: 0 <= i < |fs| && fs[i] in h ==>
         reply.elements[2 * i] == BulkString(fs[i]) && reply.elements[2 * i + 1] == BulkString(h[fs[i]])
  }

  lemma {:induction false} FieldRepliesList(h: map<Bytes, Bytes>, fs: seq<Bytes>)
    ensures FieldsListed(Array(FieldReplies(h, fs)), h, fs)
  {
    if fs != [] {
      FieldRepliesList(h, fs[1..]);
      var r, more := FieldReplies(h, fs), FieldReplies(h, fs[1..]);
      forall i | 0 <= i < |fs| && fs[i] in h
        ensures r[2 * i] == BulkString(fs[i]) && r[2 * i + 1] == BulkString(h[fs[i]])
      {
        if i > 0 {
          assert r[2 * i] == more[2 * (i - 1)] && r[2 * i + 1] == more[2 * (i - 1) + 1] && fs[i] == fs[1..][i - 1];
        }
      }
    }
  }

  lemma HGetAllWord(env: Env, now: int, db: DB, w: Bytes, k: Bytes)
    requires Spells(w, "HGETALL")
    ensures var o := Dispatch(env, now, db, [w, k]);
            && o.db == After(db, now, k)
            && match Look(db, now, k)
               case None => o.reply == Array([])
               case Some(Hash(h)) => FieldsListed(o.reply, h, env.order(env.call, h.Keys))
               case Some(_) => o.reply == WRONG_TYPE
  {
    hide Spells, Dispatch, Exec, After, Look, FieldReplies, FieldsListed;
    assert Spelling(HGETALL) == "HGETALL";
    Runs(env, now, db, [w, k], HGETALL);
    ReadersExec(env, now, db, HGETALL, [w, k]);
    LookIs(db, now, k);
    var v := Look(db, now, k);
    if v.Some? && v.value.Hash? {
      FieldRepliesList(v.value.fields, env.order(env.call, v.value.fields.Keys));
    }
  }

  /** HGET after HSET: the value of the last pair that names the field. */
  lemma HSetGetWords(env: Env, now: int, db: DB, hset: Bytes, hget: Bytes, k: Bytes, ws: seq<Bytes>, i: nat)
    requires Spells(hset, "HSET") && Spells(hget, "HGET") && |ws| % 2 == 0 && LastAt(Evens(ws), i)
    requires Look(db, now, k).None? || Look(db, now, k).value.Hash?
    ensures Dispatch(env, now, Dispatch(env, now, db, [hset, k] + ws).db, [hget, k, ws[2 * i]]).reply == BulkString(ws[2 * i + 1])
  {
    hide Spells, Dispatch;
    HSetWord(env, now, db, hset, k, ws);
    var o := Dispatch(env, now, db, [hset, k] + ws);
    HGetWord(env, now, o.db, hget, k, ws[2 * i]);
    var d := After(db, now, k);
    var h := if Look(db, now, k).Some? then Look(db, now, k).value.fields else map[];
    assert HashWritten(o, d, k, h, ws);
    hide HashWritten, Assigned, Put, After, Look;
    var h' := WrittenHash(o, d, k, h, ws);
    LastPair(h, ws, h', i);
    PutLooks(db, now, k, Hash(h'));
  }

  lemma WrittenHash(o: Outcome, d: DB, k: Bytes, h: map<Bytes, Bytes>, ws: seq<Bytes>) returns (h': map<Bytes, Bytes>)
    requires HashWritten(o, d, k, h, ws)
    ensures Assigned(h, Evens(ws), Odds(ws), h') && o.db == Put(d, k, Hash(h'))
  {
    h' :| Assigned(h, Evens(ws), Odds(ws), h') && o.db == Put(d, k, Hash(h'));
  }

  lemma LastPair(h: map<Bytes, Bytes>, ws: seq<Bytes>, h': map<Bytes, Bytes>, i: nat)
    requires Assigned(h, Evens(ws), Odds(ws), h') && LastAt(Evens(ws), i)
    ensures ws[2 * i] in h' && h'[ws[2 * i]] == ws[2 * i + 1]
  {
    var fs := Evens(ws);
    LastAtNone(fs);
    hide LastAt;
    assert fs[i] == ws[2 * i] && fs[i] in fs;
  }

  /** What is put under `k` after a lookup is found by the next one. */
  lemma PutLooks(db: DB, now: int, k: Bytes, v: Value)
    ensures Look(Put(After(db, now, k), k, v), now, k) == Some(v)
  {
  }

  // ---------- sets ----------

  /** SADD adds its words; the reply counts those that were not there, repeated words once. */
  lemma SAddWord(env: Env, now: int, db: DB, w: Bytes, k: Bytes, xs: seq<Bytes>)
    requires Spells(w, "SADD") && xs != []
    ensures var d := After(db, now, k);
            Dispatch(env, now, db, [w, k] + xs) ==
              match Look(db, now, k)
              case None => Outcome(Put(d, k, Set(set x | x in xs)), Int(|set x | x in xs|))
              case Some(Set(s)) => Outcome(Put(d, k, Set(s + set x | x in xs)), Int(|set x | x in xs && x !in s|))
              case Some(_) => Outcome(d, WRONG_TYPE)
  {
    hide Spells, Dispatch, Exec, SAdd, After, Look, Put, WRONG_TYPE;
    assert Spelling(SADD) == "SADD";
    var a := [w, k] + xs;
    assert a[1] == k && a[2..] == xs;
    Runs(env, now, db, a, SADD);
    ContainersExec(env, now, db, SADD, a);
    SAddIs(db, now, a);
  }

  lemma SAddIs(db: DB, now: int, a: Command)
    requires |a| >= 3
    ensures var d, k, xs := After(db, now, a[1]), a[1], a[2..];
            SAdd(db, now, a) ==
              match Look(db, now, k)
              case None => Outcome(Put(d, k, Set(set x | x in xs)), Int(|set x | x in xs|))
              case Some(Set(s)) => Outcome(Put(d, k, Set(s + set x | x in xs)), Int(|set x | x in xs && x !in s|))
              case Some(_) => Outcome(d, WRONG_TYPE)
  {
    hide After, Look, Put, Touch, Commands.Store, WRONGTYPE, WRONG_TYPE, Words;
    var k, d := a[1], After(db, now, a[1]);
    LookIs(db, now, k);
    WrongTypeIs();
    var s := if k in d && d[k].value.Set? then d[k].value.members else {};
    PutIs(d, k, Set(s + Words(a[2..])));
    PlusCounts(s, a[2..]);
  }

  lemma PlusCounts(s: set<Bytes>, xs: seq<Bytes>)
    ensures Words(xs) == set x | x in xs
    ensures |s + Words(xs)| - |s| == |set x | x in xs && x !in s|
    ensures s == {} ==> s + Words(xs) == Words(xs)
  {
    var more := set x | x in xs && x !in s;
    assert s + Words(xs) == s + more && s !! more;
  }

  /** SREM takes its words out, and the key with its last member; the reply counts those that were there. */
  lemma SRemWord(env: Env, now: int, db: DB, w: Bytes, k: Bytes, xs: seq<Bytes>)
    requires Spells(w, "SREM") && xs != []
    ensures var d := After(db, now, k);
            Dispatch(env, now, db, [w, k] + xs) ==
              match Look(db, now, k)
              case None => Outcome(d, Int(0))
              case Some(Set(s)) =>
                var s' := set x | x in s && x !in xs;
                Outcome(if s' == {} then d - {k} else Put(d, k, Set(s')), Int(|set x | x in s && x in xs|))
              case Some(_) => Outcome(d, WRONG_TYPE)
  {
    hide Spells, Dispatch, Exec, SRem, After, Look, Put, WRONG_TYPE;
    assert Spelling(SREM) == "SREM";
    var a := [w, k] + xs;
    assert a[1] == k && a[2..] == xs;
    Runs(env, now, db, a, SREM);
    ContainersExec(env, now, db, SREM, a);
    SRemIs(db, now, a);
  }

  lemma SRemIs(db: DB, now: int, a: Command)
    requires |a| >= 3
    ensures var d, k, xs := After(db, now, a[1]), a[1], a[2..];
            SRem(db, now, a) ==
              match Look(db, now, k)
              case None => Outcome(d, Int(0))
              case Some(Set(s)) =>
                var s' := set x | x in s && x !in xs;
                Outcome(if s' == {} then d - {k} else Put(d, k, Set(s')), Int(|set x | x in s && x in xs|))
              case Some(_) => Outcome(d, WRONG_TYPE)
  {
    hide After, Look, Put, Touch, Commands.Store, WRONGTYPE, WRONG_TYPE, Words;
    var k, d := a[1], After(db, now, a[1]);
    LookIs(db, now, k);
    WrongTypeIs();
    var s := if k in d && d[k].value.Set? then d[k].value.members else {};
    LessCounts(s, a[2..]);
    PutIs(d, k, Set(s - Words(a[2..])));
  }

  lemma LessCounts(s: set<Bytes>, xs: seq<Bytes>)
    ensures s - Words(xs) == set x | x in s && x !in xs
    ensures |s| - |s - Words(xs)| == |set x | x in s && x in xs|
  {
    var hit := set x | x in s && x in xs;
    assert s == (s - Words(xs)) + hit && (s - Words(xs)) !! hit;
  }

  lemma SIsMemberWord(env: Env, now: int, db: DB, w: Bytes, k: Bytes, x: Bytes)
    requires Spells(w, "SISMEMBER")
    ensures Dispatch(env, now, db, [w, k, x]) == Outcome(After(db, now, k),
              match Look(db, now, k)
              case None => Int(0)
              case Some(Set(s)) => (if x in s then Int(1) else Int(0))
              case Some(_) => WRONG_TYPE)
  {
    hide Spells, Dispatch, Exec, After, Look;
    assert Spelling(SISMEMBER) == "SISMEMBER";
    Runs(env, now, db, [w, k, x], SISMEMBER);
    ReadersExec(env, now, db, SISMEMBER, [w, k, x]);
    LookIs(db, now, k);
  }

  lemma SMembersWord(env: Env, now: int, db: DB, w: Bytes, k: Bytes)
    requires Spells(w, "SMEMBERS")
    ensures var o := Dispatch(env, now, db, [w, k]);
            && o.db == After(db, now, k)
            && match Look(db, now, k)
               case None => o.reply == Array([])
               case Some(Set(s)) => var xs := env.order(env.call, s); Window(o.reply, xs, 0, |xs| - 1)
               case Some(_) => o.reply == WRONG_TYPE
  {
    hide Spells, Dispatch, Exec, After, Look, Bulks, Window;
    assert Spelling(SMEMBERS) == "SMEMBERS";
    Runs(env, now, db, [w, k], SMEMBERS);
    ReadersExec(env, now, db, SMEMBERS, [w, k]);
    LookIs(db, now, k);
    var v := Look(db, now, k);
    if v.Some? && v.value.Set? {
      WholeWindow(env.order(env.call, v.value.members));
    }
  }

  lemma WholeWindow(xs: seq<Bytes>)
    ensures Window(Array(Bulks(xs)), xs, 0, |xs| - 1)
  {
  }

  lemma SCardWord(env: Env, now: int, db: DB, w: Bytes, k: Bytes)
    requires Spells(w, "SCARD")
    ensures Dispatch(env, now, db, [w, k]) == Outcome(After(db, now, k),
              match Look(db, now, k)
              case None => Int(0)
              case Some(Set(s)) => Int(|s|)
              case Some(_) => WRONG_TYPE)
  {
    hide Spells, Dispatch, Exec, After, Look;
    assert Spelling(SCARD) == "SCARD";
    Runs(env, now, db, [w, k], SCARD);
    ReadersExec(env, now, db, SCARD, [w, k]);
    LookIs(db, now, k);
  }

  /** SISMEMBER after SADD: exactly the old members and the words added. */
  lemma SAddIsMemberWords(env: Env, now: int, db: DB, sadd: Bytes, sismember: Bytes, k: Bytes, xs: seq<Bytes>, x: Bytes)
    requires Spells(sadd, "SADD") && Spells(sismember, "SISMEMBER") && xs != []
    requires Look(db, now, k).None? || Look(db, now, k).value.Set?
    ensures var old' := Look(db, now, k);
            Dispatch(env, now, Dispatch(env, now, db, [sadd, k] + xs).db, [sismember, k, x]).reply
            == Int(if x in xs || (old'.Some? && x in old'.value.members) then 1 else 0)
  {
    hide Spells, Dispatch;
    SAddWord(env, now, db, sadd, k, xs);
    var d := Dispatch(env, now, db, [sadd, k] + xs).db;
    SIsMemberWord(env, now, d, sismember, k, x);
    hide Put, After, Look;
    var s := if Look(db, now, k).Some? then Look(db, now, k).value.members else {};
    PutLooks(db, now, k, Set(s + set x | x in xs));
    assert {} + (set x | x in xs) == set x | x in xs;
  }
}
