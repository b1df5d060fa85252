/** The words of the commands on keys, strings, deadlines and the server. */
module KeyWords {
  import opened Text
  import opened Resp
  import opened Objects
  import opened Replies
  import opened Commands
  import opened Expiry
  import opened Executor
  import opened WordLaws
  import Handlers
  import HashProofs

  // ---------- the server ----------

  lemma PingWord(env: Env, now: int, db: DB, w: Bytes, x: Bytes, more: seq<Bytes>)
    requires Spells(w, "PING")
    ensures Dispatch(env, now, db, [w]) == Outcome(db, Simple("PONG"))
    ensures Dispatch(env, now, db, [w, x] + more) == Outcome(db, BulkString(x))
  {
    hide Spells, Dispatch, Exec;
    assert Spelling(PING) == "PING";
    Runs(env, now, db, [w], PING);
    ServerExec(env, now, db, PING, [w]);
    Runs(env, now, db, [w, x] + more, PING);
    ServerExec(env, now, db, PING, [w, x] + more);
  }

  lemma DbsizeWord(env: Env, now: int, db: DB, w: Bytes)
    requires Spells(w, "DBSIZE")
    ensures Dispatch(env, now, db, [w]) == Outcome(db, Int(|db.Keys|))
  {
    hide Spells, Dispatch, Exec;
    assert Spelling(DBSIZE) == "DBSIZE";
    Runs(env, now, db, [w], DBSIZE);
    ServerExec(env, now, db, DBSIZE, [w]);
    assert |db.Keys| == |db|;
  }

  lemma FlushdbWord(env: Env, now: int, db: DB, w: Bytes, more: seq<Bytes>)
    requires Spells(w, "FLUSHDB")
    ensures Dispatch(env, now, db, [w] + more) == Outcome(map[], Simple("OK"))
  {
    hide Spells, Dispatch, Exec;
    assert Spelling(FLUSHDB) == "FLUSHDB";
    Runs(env, now, db, [w] + more, FLUSHDB);
    ServerExec(env, now, db, FLUSHDB, [w] + more);
  }

  lemma InfoWord(env: Env, now: int, db: DB, w: Bytes, more: seq<Bytes>)
    requires Spells(w, "INFO")
    ensures Dispatch(env, now, db, [w] + more) == Outcome(db, BulkString(env.info(env.call, [w] + more)))
  {
    hide Spells, Dispatch, Exec;
    assert Spelling(INFO) == "INFO";
    Runs(env, now, db, [w] + more, INFO);
    ServerExec(env, now, db, INFO, [w] + more);
  }

  // ---------- strings ----------

  lemma SetWord(env: Env, now: int, db: DB, w: Bytes, k: Bytes, v: Bytes)
    requires Spells(w, "SET")
    ensures Dispatch(env, now, db, [w, k, v]) == Outcome(db[k := Entry(Str(CreateString(v)), -1, false)], Simple("OK"))
  {
    hide Spells, Dispatch, Exec, CreateString;
    assert Spelling(SET) == "SET";
    Runs(env, now, db, [w, k, v], SET);
    KeysExec(env, now, db, SET, [w, k, v]);
  }

  lemma GetWord(env: Env, now: int, db: DB, w: Bytes, k: Bytes)
    requires Spells(w, "GET")
    ensures Dispatch(env, now, db, [w, k]) == Outcome(After(db, now, k),
              match Look(db, now, k)
              case None => Null
              case Some(Str(Integer(i))) => BulkString(IntText(i))
              case Some(Str(Raw(s))) => BulkString(s)
              case Some(_) => WRONG_TYPE)
  {
    hide Spells, Dispatch, Exec, After, Look, IntText;
    assert Spelling(GET) == "GET";
    Runs(env, now, db, [w, k], GET);
    ReadersExec(env, now, db, GET, [w, k]);
    LookIs(db, now, k);
  }

  // ---------- keys ----------

  /** DEL takes the named keys out, each counted once however often it is named; expired keys count too. */
  lemma DelWord(env: Env, now: int, db: DB, w: Bytes, ks: seq<Bytes>)
    requires Spells(w, "DEL") && ks != []
    ensures Dispatch(env, now, db, [w] + ks)
         == Outcome(map k | k in db && k !in ks :: db[k], Int(|set k | k in db && k in ks|))
  {
    hide Spells, Dispatch, Exec, Words;
    assert Spelling(DEL) == "DEL";
    var a := [w] + ks;
    assert a[1..] == ks;
    Runs(env, now, db, a, DEL);
    KeysExec(env, now, db, DEL, a);
    MinusCounts(db, ks);
    MinusIs(db, ks);
  }

  lemma MinusIs<V>(m: map<Bytes, V>, ks: seq<Bytes>)
    ensures m - Words(ks) == map k | k in m && k !in ks :: m[k]
  {
  }

  lemma MinusCounts<V>(m: map<Bytes, V>, ks: seq<Bytes>)
    ensures |m| - |m - Words(ks)| == |set k | k in m && k in ks|
  {
    var hit := set k | k in m && k in ks;
    var left := m - Words(ks);
    assert m.Keys == left.Keys + hit && left.Keys !! hit;
    assert |m| == |m.Keys| && |left| == |left.Keys|;
  }

  /** EXISTS counts every word that names a live key, repeated words each time. */
  lemma ExistsWord(env: Env, now: int, db: DB, w: Bytes, ks: seq<Bytes>)
    requires Spells(w, "EXISTS") && ks != []
    ensures Dispatch(env, now, db, [w] + ks)
         == Outcome(AfterAll(db, now, ks), Int(|set i: nat | i < |ks| && Look(db, now, ks[i]).Some?|))
  {
    hide Spells, Dispatch, Exec, Look, AfterAll, TouchAll, CountLive;
    assert Spelling(EXISTS) == "EXISTS";
    var a := [w] + ks;
    assert a[1..] == ks;
    Runs(env, now, db, a, EXISTS);
    KeysExec(env, now, db, EXISTS, a);
    TouchAllIs(db, now, ks);
    CountLiveIs(db, now, ks);
    assert LiveAt(db, now, ks) == set i: nat | i < |ks| && Look(db, now, ks[i]).Some?;
  }

  /** KEYS lists every stored key, whatever the pattern. */
  lemma KeysWord(env: Env, now: int, db: DB, w: Bytes, pattern: Bytes)
    requires Spells(w, "KEYS")
    ensures var o, ks := Dispatch(env, now, db, [w, pattern]), env.order(env.call, db.Keys);
            && o.db == db && o.reply.Array? && |o.reply.elements| == |ks|
            && forall i :: 0 <= i < |ks| ==> o.reply.elements[i] == BulkString(ks[i])
  {
    hide Spells, Dispatch, Exec;
    assert Spelling(KEYS) == "KEYS";
    Runs(env, now, db, [w, pattern], KEYS);
    ServerExec(env, now, db, KEYS, [w, pattern]);
  }

  // ---------- deadlines ----------

  /** The outcome of giving `k` the deadline `now + n * unit`. */
  function Timing(db: DB, now: int, k: Bytes, n: Bytes, unit: int): Outcome {
    match CreateString(n)
    case Raw(_) => Outcome(db, Error("ERR value is not an integer " + "or out of range"))
    case Integer(i) =>
      match Look(db, now, k)
      case None => Outcome(After(db, now, k), Int(0))
      case Some(v) => Outcome(db[k := Entry(v, now + i * unit, true)], Int(1))
  }

  lemma TimingIs(db: DB, now: int, a: Command, unit: int)
    requires |a| == 3
    ensures ExpireAt(db, now, a, unit) == Timing(db, now, a[1], a[2], unit)
  {
    hide CreateString;
    LookIs(db, now, a[1]);
  }

  /** EXPIRE: seconds from now; a missing or expired key gets no deadline and the reply 0. */
  lemma ExpireWord(env: Env, now: int, db: DB, w: Bytes, k: Bytes, n: Bytes)
    requires Spells(w, "EXPIRE")
    ensures Dispatch(env, now, db, [w, k, n]) == Timing(db, now, k, n, 1000)
  {
    hide Spells, Dispatch, Exec, ExpireAt, Timing;
    assert Spelling(EXPIRE) == "EXPIRE";
    Runs(env, now, db, [w, k, n], EXPIRE);
    TimesExec(env, now, db, EXPIRE, [w, k, n]);
    TimingIs(db, now, [w, k, n], 1000);
  }

  /** PEXPIRE: milliseconds. */
  lemma PExpireWord(env: Env, now: int, db: DB, w: Bytes, k: Bytes, n: Bytes)
    requires Spells(w, "PEXPIRE")
    ensures Dispatch(env, now, db, [w, k, n]) == Timing(db, now, k, n, 1)
  {
    hide Spells, Dispatch, Exec, ExpireAt, Timing;
    assert Spelling(PEXPIRE) == "PEXPIRE";
    Runs(env, now, db, [w, k, n], PEXPIRE);
    TimesExec(env, now, db, PEXPIRE, [w, k, n]);
    TimingIs(db, now, [w, k, n], 1);
  }

  /** The answer of TTL and PTTL. */
  function Left(db: DB, now: int, k: Bytes, unit: int): Reply
    requires unit > 0
  {
    if Look(db, now, k).None? then Int(-2)
    else if db[k].expireAt < 0 then Int(-1)
    else Int((db[k].expireAt - now) / unit)
  }

  lemma LeftIs(db: DB, now: int, a: Command, unit: int)
    requires |a| == 2 && unit > 0
    ensures TimeLeft(db, now, a, unit) == Outcome(After(db, now, a[1]), Left(db, now, a[1], unit))
  {
    LookIs(db, now, a[1]);
  }

  lemma TtlWord(env: Env, now: int, db: DB, w: Bytes, k: Bytes)
    requires Spells(w, "TTL")
    ensures Dispatch(env, now, db, [w, k]) == Outcome(After(db, now, k), Left(db, now, k, 1000))
  {
    hide Spells, Dispatch, Exec, TimeLeft, After, Left;
    assert Spelling(TTL) == "TTL";
    Runs(env, now, db, [w, k], TTL);
    TimesExec(env, now, db, TTL, [w, k]);
    LeftIs(db, now, [w, k], 1000);
  }

  lemma PTtlWord(env: Env, now: int, db: DB, w: Bytes, k: Bytes)
    requires Spells(w, "PTTL")
    ensures Dispatch(env, now, db, [w, k]) == Outcome(After(db, now, k), Left(db, now, k, 1))
  {
    hide Spells, Dispatch, Exec, TimeLeft, After, Left;
    assert Spelling(PTTL) == "PTTL";
    Runs(env, now, db, [w, k], PTTL);
    TimesExec(env, now, db, PTTL, [w, k]);
    LeftIs(db, now, [w, k], 1);
  }

  // ---------- SCAN ----------

  /** Pair `i` of the option words is one that SCAN understands. */
  predicate Understood(opts: seq<Bytes>, i: nat)
    requires 2 * i + 1 < |opts|
  {
    || Spells(opts[2 * i], "MATCH")
    || (Spells(opts[2 * i], "COUNT") && CreateString(opts[2 * i + 1]).Integer? && CreateString(opts[2 * i + 1]).i > 0)
  }

  /** Pair `i` is the last one with this option. */
  ghost predicate Latest(opts: seq<Bytes>, option: Bytes, i: nat) {
    && 2 * i + 1 < |opts| && Spells(opts[2 * i], option)
    && forall j :: i < j && 2 * j + 1 < |opts| ==> !Spells(opts[2 * j], option)
  }

  ghost predicate GivenFrom(opts: seq<Bytes>, option: Bytes, p: nat) {
    exists i: nat :: p <= i && 2 * i + 1 < |opts| && Spells(opts[2 * i], option)
  }

  ghost predicate UnderstoodFrom(opts: seq<Bytes>, p: nat) {
    forall i: nat :: p <= i && 2 * i + 1 < |opts| ==> Understood(opts, i)
  }

  /** The options from pair `p` on as SCAN takes them: the last of each kind, `count` and `pattern` when there is none. */
  ghost predicate Taken(opts: seq<Bytes>, p: nat, count: nat, pattern: Bytes, req: ScanRequest)
    requires req.ScanRequest?
  {
    && (forall i: nat :: p <= i && Latest(opts, "COUNT", i) ==> CreateString(opts[2 * i + 1]) == Integer(req.count))
    && (forall i: nat :: p <= i && Latest(opts, "MATCH", i) ==> opts[2 * i + 1] == req.pattern)
    && (!GivenFrom(opts, "COUNT", p) ==> req.count == count)
    && (!GivenFrom(opts, "MATCH", p) ==> req.pattern == pattern)
  }

  lemma {:induction false} OptionsTaken(a: Command, opts: seq<Bytes>, p: nat, req: ScanRequest)
    requires req.ScanRequest? && |a| >= 2 && opts == a[2..] && 2 * p <= |opts|
    ensures var r := ScanOptions(a, 2 + 2 * p, req);
            && (!UnderstoodFrom(opts, p) ==> r == BadOption)
            && (UnderstoodFrom(opts, p) ==> r.ScanRequest? && r.cursor == req.cursor && Taken(opts, p, req.count, req.pattern, r))
    decreases |a| - 2 * p
  {
    hide Spells, CreateString, Upper;
    if 2 * p + 1 < |opts| {
      assert opts[2 * p] == a[2 + 2 * p] && opts[2 * p + 1] == a[3 + 2 * p];
      SpellsIff(opts[2 * p], "COUNT");
      SpellsIff(opts[2 * p], "MATCH");
      if Understood(opts, p) {
        var count := if Upper(opts[2 * p]) == "COUNT" then CreateString(opts[2 * p + 1]).i else req.count;
        var pattern := if Upper(opts[2 * p]) == "COUNT" then req.pattern else opts[2 * p + 1];
        var next := ScanRequest(req.cursor, count, pattern);
        OptionsTaken(a, opts, p + 1, next);
        assert ScanOptions(a, 2 + 2 * p, req) == ScanOptions(a, 2 + 2 * (p + 1), next);
        UnderstoodStep(opts, p);
        if UnderstoodFrom(opts, p) {
          TakenStep(opts, p, req, next, ScanOptions(a, 2 + 2 * (p + 1), next));
        }
      }
    }
  }

  lemma UnderstoodStep(opts: seq<Bytes>, p: nat)
    requires 2 * p + 1 < |opts| && Understood(opts, p)
    ensures UnderstoodFrom(opts, p) <==> UnderstoodFrom(opts, p + 1)
  {
    hide Understood;
  }

  lemma TakenStep(opts: seq<Bytes>, p: nat, req: ScanRequest, next: ScanRequest, r: ScanRequest)
    requires req.ScanRequest? && next.ScanRequest? && r.ScanRequest?
    requires 2 * p + 1 < |opts| && Taken(opts, p + 1, next.count, next.pattern, r)
    requires if Spells(opts[2 * p], "COUNT")
             then CreateString(opts[2 * p + 1]) == Integer(next.count) && next.pattern == req.pattern && !Spells(opts[2 * p], "MATCH")
             else Spells(opts[2 * p], "MATCH") && next.pattern == opts[2 * p + 1] && next.count == req.count
    ensures Taken(opts, p, req.count, req.pattern, r)
  {
    hide Spells, CreateString;
    LatestStep(opts, "COUNT", p);
    LatestStep(opts, "MATCH", p);
  }

  lemma LatestStep(opts: seq<Bytes>, option: Bytes, p: nat)
    requires 2 * p + 1 < |opts|
    ensures Latest(opts, option, p) ==> !GivenFrom(opts, option, p + 1)
    ensures GivenFrom(opts, option, p) <==> Spells(opts[2 * p], option) || GivenFrom(opts, option, p + 1)
    ensures Spells(opts[2 * p], option) && !GivenFrom(opts, option, p + 1) ==> Latest(opts, option, p)
  {
    hide Spells;
  }

  /** What SCAN reads from its words: an error for a cursor that is no number, an error for a pair it does not understand,
      else the last COUNT and the last MATCH, 10 and `*` without them; a last word without a partner is ignored. */
  lemma ScanReads(w: Bytes, cursor: Bytes, opts: seq<Bytes>)
    ensures var r, c := ScanArgs([w, cursor] + opts), CreateString(cursor);
            if !(c.Integer? && c.i >= 0) then r == BadCursor
            else if !UnderstoodFrom(opts, 0) then r == BadOption
            else r.ScanRequest? && r.cursor == c.i && Taken(opts, 0, 10, "*", r)
  {
    hide CreateString, Taken, UnderstoodFrom;
    var a, c := [w, cursor] + opts, CreateString(cursor);
    assert a[1] == cursor && a[2..] == opts;
    if c.Integer? && c.i >= 0 {
      OptionsTaken(a, opts, 0, ScanRequest(c.i, 10, "*"));
    }
  }

  /** SCAN from its words: the errors change nothing; a page drops the expired keys it meets and shows the others
      that the pattern selects. */
  lemma ScanWord(env: Env, now: int, db: DB, w: Bytes, cursor: Bytes, opts: seq<Bytes>)
    requires Spells(w, "SCAN")
    ensures var o, c := Dispatch(env, now, db, [w, cursor] + opts), CreateString(cursor);
            if !(c.Integer? && c.i >= 0) then o == Outcome(db, Error("ERR invalid cursor"))
            else if !UnderstoodFrom(opts, 0) then o == Outcome(db, Error("ERR syntax error"))
            else exists n, pattern ::
                   && Taken(opts, 0, 10, "*", ScanRequest(c.i, n, pattern))
                   && var page := env.scan(env.call, db, c.i, n);
                      o.db == AfterAll(db, now, page.1) && PageReply(db, now, page.0, page.1, pattern, o.reply)
  {
    hide CreateString, Taken, UnderstoodFrom;
    ScanReads(w, cursor, opts);
    hide Spells, Dispatch, Exec, ScanArgs, PageReply, AfterAll, TouchAll, Shown, Bulks, ShowsExactly;
    assert Spelling(SCAN) == "SCAN";
    var a := [w, cursor] + opts;
    Runs(env, now, db, a, SCAN);
    KeysExec(env, now, db, SCAN, a);
    var r := ScanArgs(a);
    if r.ScanRequest? {
      var page := env.scan(env.call, db, r.cursor, r.count);
      TouchAllIs(db, now, page.1);
      Handlers.ShownWrittenOut(db, now, page.1, r.pattern);
      PageReplied(db, now, page.0, page.1, r.pattern, Shown(db, now, page.1, r.pattern));
    }
  }
}
