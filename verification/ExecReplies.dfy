/** The shape of EXEC's reply: one RESP2 array with one complete value per queued command. */
module ExecReplies {
  import opened Text
  import opened Resp
  import opened Replies
  import opened SortedPairs
  import opened Commands
  import opened Snapshots
  import opened Servers
  import Executor
  import opened Expiry
  import opened ServerProofs
  import ZSets
  import Skiplists
  import opened Objects

  /** Neither a transaction command nor SUBSCRIBE or UNSUBSCRIBE, which write once per channel. */
  predicate Plain(a: Command) {
    a != [] && !Control(a) && SpecialOf(a[0]) !in {Some(SUBSCRIBE), Some(UNSUBSCRIBE)}
  }

  ghost predicate AllPlain(queue: seq<Command>) {
    forall i :: 0 <= i < |queue| ==> Plain(queue[i])
  }

  /** The single reply to a plain command. */
  ghost function ReplyTo(env: Env, clock: nat -> int, s: Server, a: Command): Reply
    requires Plain(a)
  {
    var c := SpecialOf(a[0]);
    if c.None? then Dispatch(At(env, |s.history|), clock(|s.history|), s.db, a).reply
    else if !SpecialFits(c.value, |a|) then WrongNumber(Upper(a[0]))
    else if c.value == PUBLISH then Int(|SubscribersOf(s, a[1])|)
    else REWRITE_STARTED
  }

  ghost function QueueReplies(env: Env, clock: nat -> int, s: Server, id: Id, queue: seq<Command>): seq<Reply>
    requires id in s.conns && AllPlain(queue)
    decreases |queue|
  {
    if queue == [] then []
    else
      assert Plain(queue[0]);
      [ReplyTo(env, clock, s, queue[0])] + QueueReplies(env, clock, Direct(env, clock, s, id, queue[0]), id, queue[1..])
  }

  // ---------- one value per command ----------

  /** Out of subscriber mode a plain command appends exactly one value to its own connection and
      leaves its mode alone. */
  lemma PlainSays(env: Env, clock: nat -> int, s: Server, id: Id, a: Command)
    requires id in s.conns && Plain(a) && Related(s.channels, ModesOf(s)) && s.conns[id].mode.subscribed == {}
    ensures Direct(env, clock, s, id, a).conns[id].out == s.conns[id].out + Serialize(ReplyTo(env, clock, s, a))
    ensures LocalDirect(s.conns[id].mode, a) == s.conns[id].mode
  {
    hide Serialize, Dispatch, SpecialOf, ModesOf, Related, SubscribeAll, UnsubscribeAll, IsWriteCommand, Upper;
    var c := SpecialOf(a[0]);
    if c == Some(PUBLISH) && SpecialFits(PUBLISH, |a|) {
      MembersAre(s, a[1]);
      assert id !in SubscribersOf(s, a[1]);
    }
  }

  lemma SerializeCons(r: Reply, rs: seq<Reply>)
    ensures SerializeAll([r] + rs) == Serialize(r) + SerializeAll(rs)
  {
    hide Serialize;
    assert ([r] + rs)[1..] == rs;
  }

  lemma {:induction false} QueueSays(env: Env, clock: nat -> int, s: Server, id: Id, queue: seq<Command>)
    requires id in s.conns && AllPlain(queue) && Iterates(env)
    requires Related(s.channels, ModesOf(s)) && s.conns[id].mode.subscribed == {}
    ensures var rs := QueueReplies(env, clock, s, id, queue);
            && |rs| == |queue|
            && RunQueue(env, clock, s, id, queue).conns[id].out == s.conns[id].out + SerializeAll(rs)
    decreases |queue|
  {
    hide Serialize, SerializeAll, Direct, Plain, Related, Serial, ModesOf, ReplyTo, ForDb, Iterates, LocalDirect;
    if queue == [] {
      SerializeNone();
    } else {
      assert Plain(queue[0]);
      var t := Direct(env, clock, s, id, queue[0]);
      PlainSays(env, clock, s, id, queue[0]);
      DirectMoves(env, clock, s.db, s, id, queue[0]);
      MovedMode(env, clock, s.db, s, t, id, s.conns[id].mode, ForDb([queue[0]]));
      QueueSays(env, clock, t, id, queue[1..]);
      SerializeCons(ReplyTo(env, clock, s, queue[0]), QueueReplies(env, clock, t, id, queue[1..]));
    }
  }

  lemma SerializeNone()
    ensures SerializeAll([]) == []
  {
  }

  // ---------- which replies are clean ----------

  /** Command names that an error reply may quote without breaking the frame. */
  ghost predicate NameClean(a: Command) {
    a != [] && (NameOf(a[0]).Some? || SpecialOf(a[0]).Some? || NoCRLF(a[0]))
  }

  predicate NoCR(s: Bytes) {
    forall i :: 0 <= i < |s| ==> s[i] != '\r'
  }

  lemma ErrorsClean()
    ensures NoCRLF(WRONGTYPE.text) && NoCRLF(NOT_AN_INTEGER.text)
  {
    assert NoCR("WRONGTYPE Operation against a key ") && NoCR("holding the wrong kind of value");
    NotIntegerClean();
  }

  lemma NotIntegerClean()
    ensures NoCRLF(NOT_AN_INTEGER.text)
  {
    assert NoCR("ERR value is not an integer ") && NoCR("or out of range");
  }

  lemma StatusesClean()
    ensures NoCRLF(OK.text) && NoCRLF(REWRITE_STARTED.text) && NoCRLF("ERR syntax error") && NoCRLF("ERR invalid cursor") && NoCRLF("PONG")
  {
    assert NoCR("Background append only file ") && NoCR("rewriting started");
    assert NoCR("ERR syntax error") && NoCR("ERR invalid cursor") && NoCR("PONG") && NoCR("OK");
  }

  /** A quoted name breaks the frame if and only if the name itself does. */
  lemma QuotedClean(pre: Bytes, name: Bytes, post: Bytes)
    requires NoCR(pre) && NoCR(post) && post != [] && post[0] != '\n'
    ensures NoCRLF(pre + name + post) <==> NoCRLF(name)
  {
    var text := pre + name + post;
    forall i: nat
      ensures CRLFAt(text, i) <==> i >= |pre| && CRLFAt(name, i - |pre|)
    {
    }
    if !NoCRLF(name) {
      var k: nat :| CRLFAt(name, k);
      assert CRLFAt(text, |pre| + k);
    }
  }

  lemma UnknownClean(name: Bytes)
    ensures Clean(UnknownCommand(name)) <==> NoCRLF(name)
  {
    QuotedClean("ERR unknown command '", name, "'");
  }

  lemma WrongNumberClean(name: Bytes)
    ensures Clean(WrongNumber(name)) <==> NoCRLF(name)
  {
    QuotedClean("ERR wrong number of arguments for '", name, "' command");
  }

  /** Every known name is free of CR, in any case. */
  lemma NameOfClean(s: Bytes)
    requires NameOf(s).Some?
    ensures NoCRLF(Upper(s))
  {
    var u := Upper(s);
    hide Upper;
    assert NoCR(u);
  }

  lemma SpecialOfClean(s: Bytes)
    requires SpecialOf(s).Some?
    ensures NoCRLF(Upper(s))
  {
    hide NameOf;
    var u := Upper(s);
    hide Upper;
    assert NoCR(u);
  }

  lemma BulksClean(ks: seq<Bytes>)
    ensures Clean(Array(Bulks(ks)))
  {
  }

  lemma {:induction false} FieldRepliesClean(h: map<Bytes, Bytes>, ks: seq<Bytes>)
    ensures forall i :: 0 <= i < |FieldReplies(h, ks)| ==> Clean(FieldReplies(h, ks)[i])
  {
    if ks != [] { FieldRepliesClean(h, ks[1..]); }
  }

  lemma {:induction false} PairRepliesClean(env: Env, ps: seq<Pair>, withScores: bool)
    ensures forall i :: 0 <= i < |PairReplies(env, ps, withScores)| ==> Clean(PairReplies(env, ps, withScores)[i])
  {
    if ps != [] { PairRepliesClean(env, ps[1..], withScores); }
  }

  /** Every handler writes one clean reply, on every path. */
  lemma ReadOneClean(env: Env, c: Name, d: DB, a: Command)
    requires Reader(c) && Fits(c, |a|)
    ensures Clean(ReadOne(env, c, d, a))
  {
    hide NoCRLF, ReadValue;
    if a[1] in d { ReadValueClean(env, c, d[a[1]].value, a); }
  }

  lemma ReadValueClean(env: Env, c: Name, v: Value, a: Command)
    requires Reader(c) && Fits(c, |a|)
    ensures Clean(ReadValue(env, c, v, a))
  {
    hide NoCRLF, Bulks, FieldReplies, ReadZSet, Skiplists.Slice, AsString, Atoi, WRONGTYPE;
    WrongTypeClean();
    if c == LRANGE && v.List? { BulksClean(Skiplists.Slice(v.items, Atoi(a[2]), Atoi(a[3]))); }
    if c == HGETALL && v.Hash? { FieldRepliesClean(v.fields, env.order(env.call, v.fields.Keys)); }
    if c == SMEMBERS && v.Set? { BulksClean(env.order(env.call, v.members)); }
    if c in {ZCARD, ZSCORE, ZRANK, ZRANGE} && v.ZSet? { ReadZSetClean(env, c, v.scores, a); }
  }

  lemma WrongTypeClean()
    ensures Clean(WRONGTYPE)
  {
    ErrorsClean();
  }

  lemma ReadZSetClean(env: Env, c: Name, z: ZSets.Dict, a: Command)
    requires c in {ZCARD, ZSCORE, ZRANK, ZRANGE} && Fits(c, |a|)
    ensures Clean(ReadZSet(env, c, z, a))
  {
    hide PairReplies, RankIn, OrderOf, Skiplists.Slice, Atoi;
    if c == ZRANGE {
      PairRepliesClean(env, Skiplists.Slice(OrderOf(z), Atoi(a[2]), Atoi(a[3])), |a| == 5);
    }
  }

  lemma ListClean(db: DB, now: int, a: Command, front: bool)
    requires |a| >= 2
    ensures |a| >= 3 ==> Clean(PushList(db, now, a, front).reply)
    ensures Clean(PopList(db, now, a, front).reply)
  {
    hide NoCRLF, Touch, Store, Reversed;
    ErrorsClean();
  }

  lemma ContainerClean(env: Env, db: DB, now: int, a: Command)
    requires |a| >= 3
    ensures Clean(HDel(db, now, a).reply) && Clean(SAdd(db, now, a).reply)
    ensures Clean(SRem(db, now, a).reply) && Clean(ZRem(db, now, a).reply)
    ensures |a| >= 4 ==> Clean(HSet(db, now, a).reply) && Clean(ZAdd(env, db, now, a).reply)
  {
    hide NoCRLF, Touch, Store, Words, ZSets.AddAll, ZSets.RemAll, PutFields, ScorePairs, WrongNumber;
    ErrorsClean();
    assert NoCRLF("hset") && NoCRLF("zadd") by { assert NoCR("hset") && NoCR("zadd"); NoCRMeans("hset"); NoCRMeans("zadd"); }
    WrongNumberClean("hset");
    WrongNumberClean("zadd");
  }

  lemma NoCRMeans(s: Bytes)
    requires NoCR(s)
    ensures NoCRLF(s)
  {
  }

  lemma ScanClean(env: Env, now: int, db: DB, a: Command)
    requires |a| >= 2
    ensures Clean(ScanOutcome(env, now, db, a).reply)
  {
    hide NoCRLF, TouchAll, Bulks, ScanArgs, Shown;
    StatusesClean();
    if ScanArgs(a).ScanRequest? {
      var req := ScanArgs(a);
      BulksClean(Shown(db, now, env.scan(env.call, db, req.cursor, req.count).1, req.pattern));
    }
  }

  lemma TimesClean(db: DB, now: int, a: Command, unit: int)
    requires |a| >= 2 && unit > 0
    ensures Clean(TimeLeft(db, now, a, unit).reply) && (|a| >= 3 ==> Clean(ExpireAt(db, now, a, unit).reply))
  {
    hide NoCRLF, Touch, CreateString, Remaining, NOT_AN_INTEGER;
    NotIntegerCleanReply();
  }

  lemma NotIntegerCleanReply()
    ensures Clean(NOT_AN_INTEGER)
  {
    NotIntegerClean();
  }

  lemma PlainRepliesClean()
    ensures Clean(Simple("PONG")) && Clean(OK)
    ensures forall b :: Clean(BulkString(b))
    ensures forall i :: Clean(Int(i))
  {
    hide NoCRLF;
    StatusesClean();
  }

  lemma KeyspaceClean(env: Env, now: int, db: DB, c: Name, a: Command)
    requires Fits(c, |a|) && c in {PING, SET, DEL, EXISTS, KEYS, EXPIRE, PEXPIRE, TTL, PTTL, DBSIZE, SCAN, FLUSHDB, INFO}
    ensures Clean(Exec(env, now, db, c, a).reply)
  {
    hide Clean, Exec, Fits, TouchAll, CountLive, Bulks, CreateString, Words, ScanOutcome, ExpireAt, TimeLeft;
    PlainRepliesClean();
    if c in {EXPIRE, PEXPIRE, TTL, PTTL} {
      Executor.TimesExec(env, now, db, c, a);
      TimesClean(db, now, a, 1000);
      TimesClean(db, now, a, 1);
    } else if c in {SET, DEL, EXISTS, SCAN} {
      Executor.KeysExec(env, now, db, c, a);
      ScanClean(env, now, db, a);
    } else {
      Executor.ServerExec(env, now, db, c, a);
      BulksClean(env.order(env.call, db.Keys));
    }
  }

  lemma ExecClean(env: Env, now: int, db: DB, c: Name, a: Command)
    requires Fits(c, |a|)
    ensures Clean(Exec(env, now, db, c, a).reply)
  {
    hide Clean, PushList, PopList, HSet, HDel, SAdd, SRem, ZAdd, ZRem, ReadOne, TouchAll, CountLive, Touch, Bulks;
    hide CreateString, Words;
    if c in {PING, SET, DEL, EXISTS, KEYS, EXPIRE, PEXPIRE, TTL, PTTL, DBSIZE, SCAN, FLUSHDB, INFO} {
      hide Exec;
      KeyspaceClean(env, now, db, c, a);
    } else if c in {LPUSH, RPUSH, LPOP, RPOP} {
      ListClean(db, now, a, c in {LPUSH, LPOP});
    } else if c in {HSET, HDEL, SADD, SREM, ZADD, ZREM} {
      ContainerClean(env, db, now, a);
    } else {
      ReadOneClean(env, c, Touch(db, now, a[1]), a);
      SyntaxClean();
    }
  }

  lemma SyntaxClean()
    ensures Clean(Error("ERR syntax error"))
  {
    StatusesClean();
  }

  /** A plain command's reply is clean if and only if its name is known or has no CR LF. */
  lemma ReplyClean(env: Env, clock: nat -> int, s: Server, a: Command)
    requires Plain(a)
    ensures Clean(ReplyTo(env, clock, s, a)) <==> NameClean(a)
  {
    hide NoCRLF, Exec, NameOf, SpecialOf, WrongNumber, UnknownCommand, Fits, Upper;
    var c := SpecialOf(a[0]);
    if c.Some? {
      SpecialOfClean(a[0]);
      WrongNumberClean(Upper(a[0]));
      StatusesClean();
    } else {
      var n := NameOf(a[0]);
      if n.Some? {
        NameOfClean(a[0]);
        WrongNumberClean(Upper(a[0]));
        if Fits(n.value, |a|) {
          ExecClean(At(env, |s.history|), clock(|s.history|), s.db, n.value, a);
        }
      } else {
        UnknownClean(a[0]);
      }
    }
  }

  ghost predicate AllClean(rs: seq<Reply>) {
    forall i :: 0 <= i < |rs| ==> Clean(rs[i])
  }

  ghost predicate AllNamesClean(queue: seq<Command>) {
    forall i :: 0 <= i < |queue| ==> NameClean(queue[i])
  }

  lemma AllCleanCons(r: Reply, rs: seq<Reply>)
    ensures AllClean([r] + rs) <==> Clean(r) && AllClean(rs)
  {
    hide Clean;
    var all := [r] + rs;
    assert all[0] == r && forall i :: 0 <= i < |rs| ==> all[i + 1] == rs[i];
  }

  lemma AllNamesCons(queue: seq<Command>)
    requires queue != []
    ensures AllNamesClean(queue) <==> NameClean(queue[0]) && AllNamesClean(queue[1..])
  {
    hide NameClean;
    assert forall i :: 0 <= i < |queue| - 1 ==> queue[i + 1] == queue[1..][i];
  }

  lemma {:induction false} QueueClean(env: Env, clock: nat -> int, s: Server, id: Id, queue: seq<Command>)
    requires id in s.conns && AllPlain(queue)
    ensures AllClean(QueueReplies(env, clock, s, id, queue)) <==> AllNamesClean(queue)
    decreases |queue|
  {
    hide ReplyTo, Direct, Plain, NameClean, Clean;
    if queue != [] {
      assert Plain(queue[0]);
      ReplyClean(env, clock, s, queue[0]);
      var t := Direct(env, clock, s, id, queue[0]);
      QueueClean(env, clock, t, id, queue[1..]);
      AllCleanCons(ReplyTo(env, clock, s, queue[0]), QueueReplies(env, clock, t, id, queue[1..]));
      AllNamesCons(queue);
    }
  }

  // ---------- EXEC ----------

  function Output(s: Server, id: Id): Bytes {
    if id in s.conns then s.conns[id].out else []
  }

  /** EXEC of a queue without SUBSCRIBE and UNSUBSCRIBE appends one array holding the reply of each
      queued command, and a client reads it back as that array if and only if every queued name is known or
      free of CR LF. */
  lemma ExecReplyShape(env: Env, clock: nat -> int, db: DB, s: Server, id: Id, a: Command, rest: Bytes)
    requires Inv(env, clock, db, s) && Iterates(env) && id in s.conns && a != [] && RunsQueue(s.conns[id].mode, a)
    requires AllPlain(s.conns[id].mode.txn.value)
    ensures var queue := s.conns[id].mode.txn.value;
            var rs := QueueReplies(env, clock, Head(s, id, |queue|), id, queue);
            && |rs| == |queue|
            && Output(Receive(env, clock, s, id, a), id) == Output(s, id) + Serialize(Array(rs))
            && (Read(Serialize(Array(rs)) + rest) == Got(Array(rs), rest) <==> AllNamesClean(queue))
  {
    hide RunQueue, QueueReplies, Read, SerializeAll, Serial, ModesOf, Related, AllNamesClean, SpecialOf, AllPlain, Direct, Digits;
    hide AllowedWhileSubscribed;
    var queue := s.conns[id].mode.txn.value;
    var s0 := Head(s, id, |queue|);
    ExecStart(env, clock, db, s, id);
    var rs := QueueReplies(env, clock, s0, id, queue);
    QueueSays(env, clock, s0, id, queue);
    QueueClean(env, clock, s0, id, queue);
    ReadBackIff(Array(rs), rest);
    IsControl(a);
  }

  lemma IsControl(a: Command)
    requires a != [] && SpecialOf(a[0]) == Some(EXEC)
    ensures Control(a)
  {
  }

  /** A connection in MULTI is out of subscriber mode, and the array header changes nothing but its output. */
  lemma ExecStart(env: Env, clock: nat -> int, db: DB, s: Server, id: Id)
    requires Inv(env, clock, db, s) && id in s.conns && s.conns[id].mode.txn.Some?
    ensures var s0 := Head(s, id, |s.conns[id].mode.txn.value|);
            Related(s0.channels, ModesOf(s0)) && s0.conns[id].mode.subscribed == {} && s.conns[id].mode.subscribed == {}
  {
    hide Serial, Related, Digits;
    ModeAt(s, id);
    HeadMoved(env, clock, s.db, s, id, |s.conns[id].mode.txn.value|);
    assert ModeOk(ModesOf(s)[id]);
  }

  // ---------- a reply that cannot be read ----------

  const BROKEN: Command := ["X\r\nY"]

  lemma BrokenName()
    ensures Plain(BROKEN) && !NameClean(BROKEN) && !Control(BROKEN) && BROKEN != []
  {
    assert Upper("X\r\nY") == "X\r\nY";
    assert CRLFAt("X\r\nY", 1);
  }

  lemma MultiFirst()
    ensures LocalStep(Mode(None, {}), ["MULTI"]) == Mode(Some([]), {})
    ensures LocalStep(Mode(Some([]), {}), BROKEN) == Mode(Some([BROKEN]), {})
  {
    assert Upper("MULTI") == "MULTI";
    BrokenName();
    assert [] + [BROKEN] == [BROKEN];
  }

  /** A client sends MULTI, a name with CR LF in it, and EXEC: what it reads is not the reply. */
  lemma BrokenReply(env: Env, clock: nat -> int, states: seq<Server>, events: seq<Event>, rest: Bytes)
    requires events == [Connect(0), Arrive(0, ["MULTI"]), Arrive(0, BROKEN)]
    requires IsRun(env, clock, map[], states, events) && Iterates(env)
    ensures 0 in states[3].conns && states[3].conns[0].mode.txn == Some([BROKEN]) && AllPlain([BROKEN])
    ensures var rs := QueueReplies(env, clock, Head(states[3], 0, 1), 0, [BROKEN]);
            && Output(Receive(env, clock, states[3], 0, ["EXEC"]), 0) == Output(states[3], 0) + Serialize(Array(rs))
            && Read(Serialize(Array(rs)) + rest) != Got(Array(rs), rest)
  {
    hide Iterates, Inv, QueueReplies, Read, Serialize, Receive, Goes, LocalStep, Plain, NameClean;
    BrokenName();
    MultiFirst();
    NonInterference(env, clock, map[], states, events, 3, 0);
    AloneThree(events);
    RunInv(env, clock, map[], states, events, 3);
    assert Upper("EXEC") == "EXEC";
    assert !AllNamesClean([BROKEN]) by { assert [BROKEN][0] == BROKEN; }
    ExecReplyShape(env, clock, map[], states[3], 0, ["EXEC"], rest);
  }

  lemma AloneThree(events: seq<Event>)
    requires events == [Connect(0), Arrive(0, ["MULTI"]), Arrive(0, BROKEN)]
    ensures Alone(events[..3], 0) == Some(LocalStep(LocalStep(Mode(None, {}), ["MULTI"]), BROKEN))
  {
    hide LocalStep;
    var e1, e2 := [Connect(0)], [Connect(0), Arrive(0, ["MULTI"])];
    assert events[..3] == events && events[..2] == e2 && e2[..1] == e1 && e1[..0] == [];
    assert Alone(e1, 0) == Some(Mode(None, {}));
    assert Alone(e2, 0) == Some(LocalStep(Mode(None, {}), ["MULTI"]));
  }
}
