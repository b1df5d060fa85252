/** Isolation of transactions and connections, the pub/sub relation and the logging rule, over every
    interleaving of any number of connections. */
module ServerProofs {
  import opened Text
  import opened Resp
  import opened Replies
  import opened Commands
  import opened CommandProofs
  import opened Snapshots
  import opened Servers
  import AofProtocol
  import RespProofs
  import opened Objects
  import TtlSnapshots

  type Modes = map<Id, Mode>

  function ModesOf(s: Server): Modes {
    map i | i in s.conns :: s.conns[i].mode
  }

  // ---------- the invariant ----------

  /** A connection is in a channel's set iff the channel is in the connection's set; no empty set is
      kept and no closed connection is registered. */
  ghost predicate Related(channels: Channels, modes: Modes) {
    && (forall ch :: ch in channels ==> channels[ch] != {} && channels[ch] <= modes.Keys)
    && (forall id, ch :: id in modes ==> (ch in modes[id].subscribed <==> id in Members(channels, ch)))
  }

  /** A queue never holds MULTI, EXEC or DISCARD, and no connection is both in MULTI and in
      subscriber mode. */
  ghost predicate ModeOk(m: Mode) {
    m.txn.Some? ==> QueueOk(m.txn.value) && m.subscribed == {}
  }

  ghost predicate QueueOk(queue: seq<Command>) {
    forall i :: 0 <= i < |queue| ==> queue[i] != [] && !Control(queue[i])
  }

  ghost predicate ModesOk(modes: Modes) {
    forall id :: id in modes ==> ModeOk(modes[id])
  }

  function Writes(cmds: seq<Command>): seq<Command> {
    if cmds == [] then []
    else
      var n := |cmds| - 1;
      Writes(cmds[..n]) + (if cmds[n] != [] && IsWriteCommand(cmds[n][0]) then [cmds[n]] else [])
  }

  /** The commands of a history, and the history of some commands. */
  function Cmds(h: seq<Done>): seq<Command> {
    if h == [] then []
    else
      var n := |h| - 1;
      Cmds(h[..n]) + (if h[n].Ran? then [h[n].cmd] else [])
  }

  function Rans(cmds: seq<Command>): seq<Done> {
    seq(|cmds|, i requires 0 <= i < |cmds| => Ran(cmds[i]))
  }

  /** A history replayed in order on `db`, entry `i` at time `clock(i)`. */
  ghost function RunDone(env: Env, clock: nat -> int, db: DB, h: seq<Done>): DB {
    if h == [] then db
    else
      var n := |h| - 1;
      var d := RunDone(env, clock, db, h[..n]);
      match h[n]
      case Ran(a) => if a == [] then d else Dispatch(At(env, n), clock(n), d, a).db
      case Swept(gone) => d - gone
  }

  /** Entry `i` could happen: a tick takes only keys whose deadline in the heap had come by then. */
  ghost predicate Possible(env: Env, clock: nat -> int, db: DB, h: seq<Done>, i: nat)
    requires i < |h|
  {
    match h[i]
    case Ran(a) => a != []
    case Swept(gone) => forall k :: k in gone ==> Sweepable(RunDone(env, clock, db, h[..i]), clock(i), k)
  }

  ghost predicate AllPossible(env: Env, clock: nat -> int, db: DB, h: seq<Done>) {
    forall i :: 0 <= i < |h| ==> Possible(env, clock, db, h, i)
  }

  /** The database is the serial execution of the history on the initial database `db`, the log is the
      history's write commands, and every deadline that can come is in the heap. */
  ghost predicate Serial(env: Env, clock: nat -> int, db: DB, s: Server) {
    && AllPossible(env, clock, db, s.history)
    && s.db == RunDone(env, clock, db, s.history) && s.log == Writes(Cmds(s.history)) && Agreed(s.db)
  }

  ghost predicate Inv(env: Env, clock: nat -> int, db: DB, s: Server) {
    Related(s.channels, ModesOf(s)) && ModesOk(ModesOf(s)) && Serial(env, clock, db, s)
  }

  /** `order` is the iteration order of a container: every element, once. */
  ghost predicate Iterates(env: Env) {
    forall x: set<Bytes> :: Lists(env.subs(x), x)
  }

  // ---------- a connection on its own ----------

  /** What a dispatched command does to its own connection's mode. */
  function LocalDirect(m: Mode, a: Command): Mode {
    var c := if a == [] then None else SpecialOf(a[0]);
    if c.None? || !SpecialFits(c.value, |a|) then m
    else
      match c.value
      case MULTI => if m.txn.Some? then m else m.(txn := Some([]))
      case DISCARD => m.(txn := None)
      case SUBSCRIBE => m.(subscribed := m.subscribed + Words(a[1..]))
      case UNSUBSCRIBE => m.(subscribed := if |a| > 1 then m.subscribed - Words(a[1..]) else {})
      case _ => m
  }

  function LocalQueue(m: Mode, queue: seq<Command>): Mode
    decreases |queue|
  {
    if queue == [] then m else LocalQueue(LocalDirect(m, queue[0]), queue[1..])
  }

  /** The commands of a queue that reach the database. */
  function ForDb(queue: seq<Command>): seq<Command> {
    if queue == [] then []
    else (if queue[0] != [] && SpecialOf(queue[0][0]).None? then [queue[0]] else []) + ForDb(queue[1..])
  }

  predicate Gated(m: Mode, a: Command)
    requires a != []
  {
    m.subscribed != {} && !AllowedWhileSubscribed(a)
  }

  predicate RunsQueue(m: Mode, a: Command)
    requires a != []
  {
    SpecialOf(a[0]) == Some(EXEC) && |a| == 1 && m.txn.Some?
  }

  /** The mode of a connection that sees only its own commands. */
  ghost function LocalStep(m: Mode, a: Command): Mode {
    if a == [] || Gated(m, a) then m
    else if m.txn.Some? && !Control(a) then m.(txn := Some(m.txn.value + [a]))
    else if RunsQueue(m, a) then LocalQueue(m, m.txn.value).(txn := None)
    else LocalDirect(m, a)
  }

  /** What command `a` adds to the history: nothing when refused or queued, the whole queue for EXEC. */
  ghost function Block(m: Mode, a: Command): seq<Command> {
    if a == [] || Gated(m, a) || (m.txn.Some? && !Control(a)) then []
    else if RunsQueue(m, a) then ForDb(m.txn.value)
    else ForDb([a])
  }

  // ---------- the pub/sub relation ----------

  lemma JoinRelated(channels: Channels, modes: Modes, id: Id, ch: Bytes)
    requires Related(channels, modes) && id in modes
    ensures var m := modes[id];
            Related(Join(channels, id, ch), modes[id := m.(subscribed := m.subscribed + {ch})])
  {
    var channels' := Join(channels, id, ch);
    var modes' := modes[id := modes[id].(subscribed := modes[id].subscribed + {ch})];
    forall i, c | i in modes'
      ensures c in modes'[i].subscribed <==> i in Members(channels', c)
    {
      assert c in modes[i].subscribed <==> i in Members(channels, c);
    }
  }

  lemma LeaveMembers(channels: Channels, id: Id, ch: Bytes, c: Bytes)
    ensures Members(Leave(channels, id, ch), c) ==
            if c == ch then Members(channels, c) - {id} else Members(channels, c)
  {
  }

  lemma LeaveRelated(channels: Channels, modes: Modes, id: Id, ch: Bytes)
    requires Related(channels, modes) && id in modes
    ensures var m := modes[id];
            Related(Leave(channels, id, ch), modes[id := m.(subscribed := m.subscribed - {ch})])
  {
    var channels' := Leave(channels, id, ch);
    var modes' := modes[id := modes[id].(subscribed := modes[id].subscribed - {ch})];
    assert forall c :: c in channels' ==> channels'[c] != {} && channels'[c] <= modes'.Keys;
    forall i, c | i in modes'
      ensures c in modes'[i].subscribed <==> i in Members(channels', c)
    {
      assert c in modes[i].subscribed <==> i in Members(channels, c);
      LeaveMembers(channels, id, ch, c);
    }
  }

  lemma ConnectRelated(channels: Channels, modes: Modes, id: Id)
    requires Related(channels, modes) && id !in modes
    ensures Related(channels, modes[id := Mode(None, {})])
  {
    var modes' := modes[id := Mode(None, {})];
    forall i, c | i in modes'
      ensures c in modes'[i].subscribed <==> i in Members(channels, c)
    {
      if i != id { assert c in modes[i].subscribed <==> i in Members(channels, c); }
    }
  }

  lemma CloseRelated(channels: Channels, modes: Modes, id: Id)
    requires Related(channels, modes) && id in modes
    ensures Related(LeaveAll(channels, id, modes[id].subscribed), modes - {id})
  {
    var channels' := LeaveAll(channels, id, modes[id].subscribed);
    forall i, c | i in modes - {id}
      ensures c in modes[i].subscribed <==> i in Members(channels', c)
    {
      assert c in modes[i].subscribed <==> i in Members(channels, c);
    }
    forall c | c in channels'
      ensures channels'[c] != {} && channels'[c] <= (modes - {id}).Keys
    {
      assert c in modes[id].subscribed <==> id in Members(channels, c);
    }
  }

  // ---------- replies and modes ----------

  /** Nothing but connection `id`'s mode, the channels and the replies changed. */
  ghost predicate Became(s: Server, t: Server, id: Id, m: Mode) {
    && t.db == s.db && t.history == s.history && t.log == s.log
    && ModesOf(t) == ModesOf(s)[id := m]
    && (Related(s.channels, ModesOf(s)) ==> Related(t.channels, ModesOf(t)))
  }

  lemma SaySame(s: Server, id: Id, r: Reply)
    requires id in s.conns
    ensures var t := Say(s, id, r);
            t.db == s.db && t.history == s.history && t.log == s.log && t.channels == s.channels && ModesOf(t) == ModesOf(s)
  {
    hide Serialize;
  }

  lemma SetModeModes(s: Server, id: Id, m: Mode)
    requires id in s.conns
    ensures ModesOf(SetMode(s, id, m)) == ModesOf(s)[id := m]
  {
  }

  lemma ModeAt(s: Server, id: Id)
    ensures id in s.conns <==> id in ModesOf(s)
    ensures id in s.conns ==> ModesOf(s)[id] == s.conns[id].mode && ModesOf(s)[id := s.conns[id].mode] == ModesOf(s)
  {
  }

  /** A transaction begins, grows or ends with a reply: the channels are not touched. */
  lemma TxnBecomes(s: Server, id: Id, txn: Option<seq<Command>>, r: Reply)
    requires id in s.conns
    ensures var m := s.conns[id].mode.(txn := txn); Became(s, Say(SetMode(s, id, m), id, r), id, m)
  {
    hide Say, Serialize, ModesOf;
    var m := s.conns[id].mode.(txn := txn);
    ModeAt(s, id);
    SetModeModes(s, id, m);
    SaySame(SetMode(s, id, m), id, r);
    SameSubsRelated(s.channels, ModesOf(s), id, m);
  }

  lemma SameSubsRelated(channels: Channels, modes: Modes, id: Id, m: Mode)
    requires id in modes && m.subscribed == modes[id].subscribed
    ensures Related(channels, modes) ==> Related(channels, modes[id := m])
  {
    hide Members;
    assert modes[id := m].Keys == modes.Keys;
  }

  lemma SayBecomes(s: Server, id: Id, r: Reply)
    requires id in s.conns
    ensures Became(s, Say(s, id, r), id, s.conns[id].mode)
  {
    hide Say, Serialize, ModesOf, Related;
    ModeAt(s, id);
    SaySame(s, id, r);
  }

  lemma SubscribeBecomes(s: Server, id: Id, ch: Bytes)
    requires id in s.conns
    ensures var m := s.conns[id].mode;
            Became(s, Subscribe(s, id, ch), id, m.(subscribed := m.subscribed + {ch}))
  {
    hide Say, Serialize, ModesOf, Related, Join;
    var m := s.conns[id].mode;
    var m' := m.(subscribed := m.subscribed + {ch});
    var s1 := s.(channels := Join(s.channels, id, ch));
    assert ModesOf(s1) == ModesOf(s) by { SameConns(s, s1); }
    SetModeModes(s1, id, m');
    SaySame(SetMode(s1, id, m'), id, SubscribeReply("subscribe", ch, |m'.subscribed|));
    ModeAt(s, id);
    if Related(s.channels, ModesOf(s)) { JoinRelated(s.channels, ModesOf(s), id, ch); }
  }

  lemma SameConns(s: Server, t: Server)
    requires s.conns == t.conns
    ensures ModesOf(t) == ModesOf(s)
  {
  }

  lemma UnsubscribeBecomes(s: Server, id: Id, ch: Bytes)
    requires id in s.conns
    ensures var m := s.conns[id].mode;
            Became(s, Unsubscribe(s, id, ch), id, m.(subscribed := m.subscribed - {ch}))
  {
    hide Say, Serialize, ModesOf, Related, Leave;
    var m := s.conns[id].mode;
    var m' := m.(subscribed := m.subscribed - {ch});
    var s1 := s.(channels := Leave(s.channels, id, ch));
    assert ModesOf(s1) == ModesOf(s) by { SameConns(s, s1); }
    SetModeModes(s1, id, m');
    SaySame(SetMode(s1, id, m'), id, SubscribeReply("unsubscribe", ch, |m'.subscribed|));
    ModeAt(s, id);
    if Related(s.channels, ModesOf(s)) { LeaveRelated(s.channels, ModesOf(s), id, ch); }
  }

  lemma BecameMode(s: Server, t: Server, id: Id, m: Mode)
    requires Became(s, t, id, m)
    ensures id in t.conns && t.conns[id].mode == m
  {
    ModeAt(t, id);
  }

  lemma {:induction false} SubscribeAllBecomes(s: Server, id: Id, chs: seq<Bytes>)
    requires id in s.conns
    ensures var m := s.conns[id].mode;
            Became(s, SubscribeAll(s, id, chs), id, m.(subscribed := m.subscribed + Words(chs)))
    decreases |chs|
  {
    hide Subscribe, ModesOf, Related;
    var m := s.conns[id].mode;
    if chs == [] {
      ModeAt(s, id);
      assert m.subscribed + Words(chs) == m.subscribed;
    } else {
      var t := Subscribe(s, id, chs[0]);
      SubscribeBecomes(s, id, chs[0]);
      BecameMode(s, t, id, m.(subscribed := m.subscribed + {chs[0]}));
      SubscribeAllBecomes(t, id, chs[1..]);
      WordsCons(chs);
      assert m.subscribed + {chs[0]} + Words(chs[1..]) == m.subscribed + Words(chs);
    }
  }

  lemma WordsCons(chs: seq<Bytes>)
    requires chs != []
    ensures Words(chs) == {chs[0]} + Words(chs[1..])
  {
    assert chs == [chs[0]] + chs[1..];
  }

  lemma {:induction false} UnsubscribeAllBecomes(s: Server, id: Id, chs: seq<Bytes>)
    requires id in s.conns
    ensures var m := s.conns[id].mode;
            Became(s, UnsubscribeAll(s, id, chs), id, m.(subscribed := m.subscribed - Words(chs)))
    decreases |chs|
  {
    hide Unsubscribe, ModesOf, Related;
    var m := s.conns[id].mode;
    if chs == [] {
      ModeAt(s, id);
      assert m.subscribed - Words(chs) == m.subscribed;
    } else {
      var t := Unsubscribe(s, id, chs[0]);
      UnsubscribeBecomes(s, id, chs[0]);
      BecameMode(s, t, id, m.(subscribed := m.subscribed - {chs[0]}));
      UnsubscribeAllBecomes(t, id, chs[1..]);
      WordsCons(chs);
      assert m.subscribed - {chs[0]} - Words(chs[1..]) == m.subscribed - Words(chs);
    }
  }

  /** The bytes of an array of three bulk strings. */
  function ThreeBulks(x: Bytes, y: Bytes, z: Bytes): Bytes {
    "*3\r\n" + ("$" + Digits(|x|) + "\r\n" + x + "\r\n") + ("$" + Digits(|y|) + "\r\n" + y + "\r\n")
    + ("$" + Digits(|z|) + "\r\n" + z + "\r\n")
  }

  /** The bytes of an integer reply that is not negative. */
  function Number(n: nat): Bytes {
    ":" + Digits(n) + "\r\n"
  }

  /** PUBLISH appends one message to exactly the subscribers, touches nothing else, and answers their number. */
  lemma PublishExact(env: Env, clock: nat -> int, s: Server, id: Id, ch: Bytes, msg: Bytes, i: Id)
    requires id in s.conns && i in s.conns && Related(s.channels, ModesOf(s))
    ensures var t := Direct(env, clock, s, id, ["PUBLISH", ch, msg]);
            && t.db == s.db && t.history == s.history && t.log == s.log && t.channels == s.channels
            && t.conns.Keys == s.conns.Keys && t.conns[i].mode == s.conns[i].mode
            && t.conns[i].out == s.conns[i].out
               + (if ch in s.conns[i].mode.subscribed then ThreeBulks("message", ch, msg) else [])
               + (if i == id then Number(|set j | j in s.conns && ch in s.conns[j].mode.subscribed|) else [])
  {
    hide Serialize, Direct, ModesOf, Related, Message, ThreeBulks, Number;
    PublishSends(env, clock, s, id, ch, msg, i);
    MessageBytes(ch, msg);
    IntBytes(|SubscribersOf(s, ch)|);
    assert SubscribersOf(s, ch) == set j | j in s.conns && ch in s.conns[j].mode.subscribed;
  }

  lemma PublishSends(env: Env, clock: nat -> int, s: Server, id: Id, ch: Bytes, msg: Bytes, i: Id)
    requires id in s.conns && i in s.conns && Related(s.channels, ModesOf(s))
    ensures var t := Direct(env, clock, s, id, ["PUBLISH", ch, msg]);
            && t.db == s.db && t.history == s.history && t.log == s.log && t.channels == s.channels
            && t.conns.Keys == s.conns.Keys && t.conns[i].mode == s.conns[i].mode
            && t.conns[i].out == s.conns[i].out
               + (if ch in s.conns[i].mode.subscribed then Serialize(Message(ch, msg)) else [])
               + (if i == id then Serialize(Int(|SubscribersOf(s, ch)|)) else [])
  {
    hide Serialize, Direct, ModesOf, Related;
    PublishDirect(env, clock, s, id, ch, msg);
    MembersAre(s, ch);
    assert i in SubscribersOf(s, ch) <==> ch in s.conns[i].mode.subscribed;
  }

  lemma MessageBytes(ch: Bytes, msg: Bytes)
    ensures Serialize(Message(ch, msg)) == ThreeBulks("message", ch, msg)
  {
    hide Digits;
    ThreeBytes(BulkString("message"), BulkString(ch), BulkString(msg));
  }

  /** An array of three. */
  lemma ThreeBytes(x: Reply, y: Reply, z: Reply)
    ensures Serialize(Array([x, y, z])) == "*3\r\n" + Serialize(x) + Serialize(y) + Serialize(z)
  {
    hide Serialize, Digits;
    var rs := [x, y, z];
    AllBytes(rs);
    AllBytes([y, z]);
    AllBytes([z]);
    assert rs[1..] == [y, z] && [y, z][1..] == [z];
    DigitsAre(0, 3);
    ArrayBytes(rs);
    assert "*" + "3" + CRLF == "*3\r\n";
  }

  lemma AllBytes(rs: seq<Reply>)
    requires rs != []
    ensures SerializeAll(rs) == Serialize(rs[0]) + (if |rs| == 1 then [] else SerializeAll(rs[1..]))
  {
    hide Serialize;
  }

  lemma ArrayBytes(rs: seq<Reply>)
    ensures Serialize(Array(rs)) == "*" + Digits(|rs|) + CRLF + SerializeAll(rs)
  {
  }

  lemma IntBytes(n: nat)
    ensures Serialize(Int(n)) == Number(n)
  {
  }

  lemma PublishDirect(env: Env, clock: nat -> int, s: Server, id: Id, ch: Bytes, msg: Bytes)
    requires id in s.conns
    ensures id in Publish(s, ch, msg).conns
    ensures Direct(env, clock, s, id, ["PUBLISH", ch, msg]) ==
            Say(Publish(s, ch, msg), id, Int(|Members(s.channels, ch)|))
  {
    hide Serialize, Say, Members, Dispatch, SubscribeAll, UnsubscribeAll, SetMode;
    assert Upper("PUBLISH") == "PUBLISH";
  }

  /** The connections whose own subscriptions hold `ch`. */
  ghost function SubscribersOf(s: Server, ch: Bytes): set<Id> {
    set i | i in s.conns && ch in s.conns[i].mode.subscribed
  }

  lemma MembersAre(s: Server, ch: Bytes)
    requires Related(s.channels, ModesOf(s))
    ensures Members(s.channels, ch) == SubscribersOf(s, ch)
  {
    forall i ensures i in Members(s.channels, ch) <==> i in SubscribersOf(s, ch) {
      ModeAt(s, i);
      if i in s.conns { assert ch in ModesOf(s)[i].subscribed <==> i in Members(s.channels, ch); }
    }
  }

  lemma PublishBecomes(s: Server, id: Id, ch: Bytes, msg: Bytes)
    requires id in s.conns
    ensures Became(s, Publish(s, ch, msg), id, s.conns[id].mode) && Publish(s, ch, msg).conns.Keys == s.conns.Keys
  {
    hide Serialize, Related;
    assert ModesOf(Publish(s, ch, msg)) == ModesOf(s);
    ModeAt(s, id);
  }

  lemma PublishSayBecomes(s: Server, id: Id, ch: Bytes, msg: Bytes, r: Reply)
    requires id in s.conns
    ensures id in Publish(s, ch, msg).conns
    ensures Became(s, Say(Publish(s, ch, msg), id, r), id, s.conns[id].mode)
  {
    hide Serialize, Related, Say, Publish, ModesOf;
    PublishBecomes(s, id, ch, msg);
    BecameMode(s, Publish(s, ch, msg), id, s.conns[id].mode);
    SayBecomes(Publish(s, ch, msg), id, r);
  }

  // ---------- one dispatch ----------

  lemma SpecialBecomes(env: Env, clock: nat -> int, s: Server, id: Id, a: Command)
    requires id in s.conns && a != [] && SpecialOf(a[0]).Some? && Iterates(env)
    ensures Became(s, Direct(env, clock, s, id, a), id, LocalDirect(s.conns[id].mode, a))
  {
    hide Say, Publish, SetMode, Became, Subscribe, Unsubscribe, SubscribeAll, UnsubscribeAll, ModesOf, SpecialOf, Dispatch, Members;
    hide Upper;
    var m := s.conns[id].mode;
    var c := SpecialOf(a[0]);
    if !SpecialFits(c.value, |a|) {
      SayBecomes(s, id, WrongNumber(Upper(a[0])));
    } else {
      match c.value
      case MULTI =>
        SayBecomes(s, id, Error("ERR MULTI calls can not be nested"));
        TxnBecomes(s, id, Some([]), OK);
      case DISCARD =>
        SayBecomes(s, id, Error("ERR DISCARD without MULTI"));
        TxnBecomes(s, id, None, OK);
      case EXEC => SayBecomes(s, id, Error("ERR EXEC without MULTI"));
      case SUBSCRIBE => SubscribeAllBecomes(s, id, a[1..]);
      case UNSUBSCRIBE =>
        SayBecomes(s, id, Array([BulkString("unsubscribe"), Null, Int(0)]));
        UnsubscribeAllBecomes(s, id, if |a| > 1 then a[1..] else env.subs(m.subscribed));
        assert Lists(env.subs(m.subscribed), m.subscribed);
        assert m.subscribed - Words(env.subs(m.subscribed)) == {};
      case PUBLISH => PublishSayBecomes(s, id, a[1], a[2], Int(|Members(s.channels, a[1])|));
      case BGREWRITEAOF => SayBecomes(s, id, REWRITE_STARTED);
    }
  }

  /** Connection `id`'s mode became `m`, and `cmds` were executed and logged. */
  ghost predicate Moved(env: Env, clock: nat -> int, db: DB, s: Server, t: Server, id: Id, m: Mode, cmds: seq<Command>) {
    && t.conns.Keys == s.conns.Keys
    && ModesOf(t) == ModesOf(s)[id := m]
    && t.history == s.history + Rans(cmds)
    && (Related(s.channels, ModesOf(s)) ==> Related(t.channels, ModesOf(t)))
    && (Serial(env, clock, db, s) ==> Serial(env, clock, db, t))
  }

  lemma BecameMoved(env: Env, clock: nat -> int, db: DB, s: Server, t: Server, id: Id, m: Mode)
    requires id in s.conns && Became(s, t, id, m)
    ensures Moved(env, clock, db, s, t, id, m, [])
  {
    hide Related;
    assert forall i :: (i in t.conns <==> i in ModesOf(t)) && (i in s.conns <==> i in ModesOf(s));
    assert t.history == s.history + Rans([]);
  }

  lemma SerialSnoc(env: Env, clock: nat -> int, db: DB, s: Server, t: Server, a: Command)
    requires Serial(env, clock, db, s) && a != []
    requires var n := |s.history|; t.db == Dispatch(At(env, n), clock(n), s.db, a).db && t.history == s.history + [Ran(a)]
    requires t.log == if IsWriteCommand(a[0]) then s.log + [a] else s.log
    ensures Serial(env, clock, db, t)
  {
    hide Dispatch, IsWriteCommand, Agreed, AllPossible;
    var n := |s.history|;
    assert t.history[..n] == s.history;
    PossibleSnoc(env, clock, db, s.history, Ran(a));
    DispatchAgreed(At(env, n), clock(n), s.db, a);
    var c := Cmds(s.history);
    assert (c + [a])[..|c|] == c;
  }

  lemma PossibleSnoc(env: Env, clock: nat -> int, db: DB, h: seq<Done>, x: Done)
    requires AllPossible(env, clock, db, h)
    requires match x
             case Ran(a) => a != []
             case Swept(gone) => forall k :: k in gone ==> Sweepable(RunDone(env, clock, db, h), clock(|h|), k)
    ensures AllPossible(env, clock, db, h + [x])
  {
    hide RunDone, Sweepable;
    var h' := h + [x];
    forall i | 0 <= i < |h'|
      ensures Possible(env, clock, db, h', i)
    {
      if i < |h| {
        assert Possible(env, clock, db, h, i);
        assert h'[..i] == h[..i];
      } else {
        assert h'[..i] == h;
      }
    }
  }

  lemma SweepSerial(env: Env, clock: nat -> int, db: DB, s: Server, t: Server, gone: set<Bytes>)
    requires Serial(env, clock, db, s) && forall k :: k in gone ==> Sweepable(s.db, clock(|s.history|), k)
    requires t.db == s.db - gone && t.history == s.history + [Swept(gone)] && t.log == s.log
    ensures Serial(env, clock, db, t)
  {
    hide Dispatch, IsWriteCommand, AllPossible;
    assert t.history[..|s.history|] == s.history;
    PossibleSnoc(env, clock, db, s.history, Swept(gone));
    assert Cmds(s.history) + [] == Cmds(s.history);
  }

  lemma DbMoved(env: Env, clock: nat -> int, db: DB, s: Server, id: Id, a: Command)
    requires id in s.conns && a != [] && SpecialOf(a[0]).None?
    ensures Moved(env, clock, db, s, Direct(env, clock, s, id, a), id, s.conns[id].mode, [a])
  {
    hide Dispatch, IsWriteCommand, Say, Related, ModesOf, Serial, SpecialOf;
    var n := |s.history|;
    var o := Dispatch(At(env, n), clock(n), s.db, a);
    assert Rans([a]) == [Ran(a)];
    var s1 := s.(db := o.db, history := s.history + [Ran(a)], log := if IsWriteCommand(a[0]) then s.log + [a] else s.log);
    SaySame(s1, id, o.reply);
    SameConns(s, s1);
    ModeAt(s, id);
    if Serial(env, clock, db, s) {
      SerialSnoc(env, clock, db, s, Direct(env, clock, s, id, a), a);
    }
  }

  /** The whole effect of one dispatched command. */
  lemma DirectMoves(env: Env, clock: nat -> int, db: DB, s: Server, id: Id, a: Command)
    requires id in s.conns && Iterates(env)
    ensures Moved(env, clock, db, s, Direct(env, clock, s, id, a), id, LocalDirect(s.conns[id].mode, a), ForDb([a]))
  {
    hide Direct, Moved, Became, Iterates, SpecialOf, ForDb;
    ForDbOne(a);
    if a == [] {
      SelfMoved(env, clock, db, s, id);
      DirectNothing(env, clock, s, id);
    } else if SpecialOf(a[0]).None? {
      DbMoved(env, clock, db, s, id, a);
    } else {
      SpecialBecomes(env, clock, s, id, a);
      BecameMoved(env, clock, db, s, Direct(env, clock, s, id, a), id, LocalDirect(s.conns[id].mode, a));
    }
  }

  lemma DirectNothing(env: Env, clock: nat -> int, s: Server, id: Id)
    requires id in s.conns
    ensures Direct(env, clock, s, id, []) == s
  {
  }

  lemma ForDbOne(a: Command)
    ensures ForDb([a]) == if a != [] && SpecialOf(a[0]).None? then [a] else []
  {
    hide SpecialOf;
    assert [a][1..] == [];
  }

  lemma ForDbCons(queue: seq<Command>)
    requires queue != []
    ensures ForDb(queue) == ForDb([queue[0]]) + ForDb(queue[1..])
  {
    ForDbOne(queue[0]);
  }

  lemma MovedTwice(env: Env, clock: nat -> int, db: DB, s: Server, t: Server, u: Server, id: Id, m: Mode, m': Mode, a: seq<Command>, b: seq<Command>)
    requires Moved(env, clock, db, s, t, id, m, a) && Moved(env, clock, db, t, u, id, m', b)
    ensures Moved(env, clock, db, s, u, id, m', a + b)
  {
    hide Related, ModesOf, Serial;
    assert s.history + Rans(a) + Rans(b) == s.history + Rans(a + b);
  }

  lemma MovedMode(env: Env, clock: nat -> int, db: DB, s: Server, t: Server, id: Id, m: Mode, cmds: seq<Command>)
    requires Moved(env, clock, db, s, t, id, m, cmds)
    ensures id in t.conns && t.conns[id].mode == m
  {
    hide Related, Serial;
    ModeAt(t, id);
  }

  lemma {:induction false} QueueMoves(env: Env, clock: nat -> int, db: DB, s: Server, id: Id, queue: seq<Command>)
    requires id in s.conns && Iterates(env)
    ensures Moved(env, clock, db, s, RunQueue(env, clock, s, id, queue), id, LocalQueue(s.conns[id].mode, queue), ForDb(queue))
    decreases |queue|
  {
    hide Direct, Moved, Became, Iterates, SpecialOf, LocalDirect, ForDb;
    var m := s.conns[id].mode;
    if queue == [] {
      SelfMoved(env, clock, db, s, id);
      ForDbNone();
    } else {
      var t := Direct(env, clock, s, id, queue[0]);
      DirectMoves(env, clock, db, s, id, queue[0]);
      MovedMode(env, clock, db, s, t, id, LocalDirect(m, queue[0]), ForDb([queue[0]]));
      QueueMoves(env, clock, db, t, id, queue[1..]);
      MovedTwice(env, clock, db, s, t, RunQueue(env, clock, t, id, queue[1..]), id, LocalDirect(m, queue[0]),
                 LocalQueue(LocalDirect(m, queue[0]), queue[1..]), ForDb([queue[0]]), ForDb(queue[1..]));
      ForDbCons(queue);
    }
  }

  lemma ForDbNone()
    ensures ForDb([]) == []
  {
  }

  lemma SelfMoved(env: Env, clock: nat -> int, db: DB, s: Server, id: Id)
    requires id in s.conns
    ensures Moved(env, clock, db, s, s, id, s.conns[id].mode, [])
  {
    hide Related, Serial;
    ModeAt(s, id);
  }

  lemma SetTxnMoved(env: Env, clock: nat -> int, db: DB, s: Server, id: Id)
    requires id in s.conns
    ensures var m := s.conns[id].mode.(txn := None); Moved(env, clock, db, s, SetMode(s, id, m), id, m, [])
  {
    hide Related, ModesOf;
    var m := s.conns[id].mode.(txn := None);
    SetModeModes(s, id, m);
    ModeAt(s, id);
    SameSubsRelated(s.channels, ModesOf(s), id, m);
  }

  lemma HeadMoved(env: Env, clock: nat -> int, db: DB, s: Server, id: Id, n: nat)
    requires id in s.conns
    ensures Moved(env, clock, db, s, Head(s, id, n), id, s.conns[id].mode, [])
    ensures id in Head(s, id, n).conns && Head(s, id, n).conns[id].mode == s.conns[id].mode
  {
    hide Related, Digits;
    ModeAt(s, id);
    assert ModesOf(Head(s, id, n)) == ModesOf(s);
  }

  /** EXEC is one step: the queued commands enter the history together and in order. */
  lemma ExecMoves(env: Env, clock: nat -> int, db: DB, s: Server, id: Id, queue: seq<Command>)
    requires id in s.conns && Iterates(env)
    ensures var s1 := RunQueue(env, clock, Head(s, id, |queue|), id, queue);
            var m := LocalQueue(s.conns[id].mode, queue).(txn := None);
            s1.conns[id].mode.(txn := None) == m && Moved(env, clock, db, s, SetMode(s1, id, m), id, m, ForDb(queue))
  {
    hide Direct, Moved, Iterates, SpecialOf, LocalDirect, SetMode, RunQueue, LocalQueue, Head, ForDb, Control;
    var m := LocalQueue(s.conns[id].mode, queue);
    var s0 := Head(s, id, |queue|);
    HeadMoved(env, clock, db, s, id, |queue|);
    var s1 := RunQueue(env, clock, s0, id, queue);
    QueueMoves(env, clock, db, s0, id, queue);
    MovedMode(env, clock, db, s0, s1, id, m, ForDb(queue));
    SetTxnMoved(env, clock, db, s1, id);
    MovedTwice(env, clock, db, s, s0, s1, id, s.conns[id].mode, m, [], ForDb(queue));
    MovedTwice(env, clock, db, s, s1, SetMode(s1, id, m.(txn := None)), id, m, m.(txn := None), [] + ForDb(queue), []);
    assert [] + ForDb(queue) + [] == ForDb(queue);
  }

  /** One received command: its connection steps as if alone, the others keep their modes, and its
      block joins the history. */
  lemma ReceiveMoves(env: Env, clock: nat -> int, db: DB, s: Server, id: Id, a: Command)
    requires id in s.conns && Iterates(env)
    ensures var m := s.conns[id].mode;
            Moved(env, clock, db, s, Receive(env, clock, s, id, a), id, LocalStep(m, a), Block(m, a))
  {
    hide Direct, Moved, Became, Iterates, SpecialOf, LocalDirect, SetMode, RunQueue, LocalQueue, Head, ForDb, Say;
    hide AllowedWhileSubscribed, Control, QueueOk;
    var m := s.conns[id].mode;
    var t := Receive(env, clock, s, id, a);
    if a == [] {
      SelfMoved(env, clock, db, s, id);
    } else if Gated(m, a) {
      SayBecomes(s, id, Refusal(a[0]));
      BecameMoved(env, clock, db, s, t, id, m);
    } else if m.txn.Some? && !Control(a) {
      TxnBecomes(s, id, Some(m.txn.value + [a]), Simple("QUEUED"));
      BecameMoved(env, clock, db, s, t, id, m.(txn := Some(m.txn.value + [a])));
    } else if RunsQueue(m, a) {
      ExecMoves(env, clock, db, s, id, m.txn.value);
    } else {
      DirectMoves(env, clock, db, s, id, a);
    }
  }

  lemma LocalStepOk(m: Mode, a: Command)
    requires ModeOk(m)
    ensures ModeOk(LocalStep(m, a))
  {
    hide Upper, Words, LocalQueue;
    if a != [] && m.txn.Some? && !Gated(m, a) && Control(a) {
      assert SpecialOf(a[0]) in {Some(MULTI), Some(EXEC), Some(DISCARD)};
    }
  }

  // ---------- every step and every run ----------

  lemma StepInv(env: Env, clock: nat -> int, db: DB, s: Server, e: Event)
    requires Inv(env, clock, db, s) && Enabled(clock, s, e) && Iterates(env)
    ensures Inv(env, clock, db, Step(env, clock, s, e))
  {
    hide Receive, LeaveAll, Related, ModesOf, ModeOk, LocalStep, Serial, Block, Iterates;
    var modes := ModesOf(s);
    var t := Step(env, clock, s, e);
    match e
    case Connect(id) =>
      ModeAt(s, id);
      ConnectRelated(s.channels, modes, id);
      FreshOk();
      assert ModesOf(t) == modes[id := Mode(None, {})] by { ConnectModes(s, id); }
      SameSerial(env, clock, db, s, t);
    case Arrive(id, cmd) =>
      ModeAt(s, id);
      ReceiveMoves(env, clock, db, s, id, cmd);
      LocalStepOk(modes[id], cmd);
    case Close(id) =>
      ModeAt(s, id);
      CloseRelated(s.channels, modes, id);
      assert ModesOf(t) == modes - {id} by { CloseModes(s, id); }
      SameSerial(env, clock, db, s, t);
    case Tick(gone) =>
      SameConns(s, t);
      SweepSerial(env, clock, db, s, t, gone);
  }

  lemma FreshOk()
    ensures ModeOk(Mode(None, {}))
  {
  }

  lemma ConnectModes(s: Server, id: Id)
    ensures ModesOf(s.(conns := s.conns[id := Conn(Mode(None, {}), [])])) == ModesOf(s)[id := Mode(None, {})]
  {
  }

  lemma CloseModes(s: Server, id: Id)
    requires id in s.conns
    ensures ModesOf(s.(conns := s.conns - {id}, channels := LeaveAll(s.channels, id, s.conns[id].mode.subscribed)))
         == ModesOf(s) - {id}
  {
    hide LeaveAll;
  }

  lemma SameSerial(env: Env, clock: nat -> int, db: DB, s: Server, t: Server)
    requires t.db == s.db && t.history == s.history && t.log == s.log
    ensures Serial(env, clock, db, s) ==> Serial(env, clock, db, t)
  {
    hide AllPossible, RunDone, Agreed;
  }

  /** A server that has just loaded `db` and has no connection yet. */
  function Start(db: DB): Server { Server(db, map[], map[], [], []) }

  ghost predicate IsRun(env: Env, clock: nat -> int, db: DB, states: seq<Server>, events: seq<Event>) {
    && |states| == |events| + 1 && states[0] == Start(db) && Agreed(db)
    && forall i :: 0 <= i < |events| ==> Goes(env, clock, states, events, i)
  }

  ghost predicate Goes(env: Env, clock: nat -> int, states: seq<Server>, events: seq<Event>, i: nat)
    requires i < |events| < |states|
  {
    Enabled(clock, states[i], events[i]) && states[i + 1] == Step(env, clock, states[i], events[i])
  }

  lemma StartInv(env: Env, clock: nat -> int, db: DB)
    requires Agreed(db)
    ensures Inv(env, clock, db, Start(db))
  {
  }

  /** What the loader builds, from any file, has every deadline in the heap. */
  lemma {:induction false} LoadedAgreed(env: Env, clock: nat -> int, cmds: seq<Command>)
    ensures Agreed(RunAt(env, clock, map[], cmds))
    decreases |cmds|
  {
    hide Dispatch, Agreed;
    if cmds == [] {
      NothingAgreed();
    } else {
      var n := |cmds| - 1;
      LoadedAgreed(env, clock, cmds[..n]);
      if cmds[n] != [] { DispatchAgreed(At(env, n), clock(n), RunAt(env, clock, map[], cmds[..n]), cmds[n]); }
    }
  }

  lemma NothingAgreed()
    ensures Agreed(map[])
  {
  }

  /** The invariant holds in every state of every run. */
  lemma {:induction false} RunInv(env: Env, clock: nat -> int, db: DB, states: seq<Server>, events: seq<Event>, i: nat)
    requires IsRun(env, clock, db, states, events) && i <= |events| && Iterates(env)
    ensures Inv(env, clock, db, states[i])
  {
    hide Inv, Step, Enabled, Iterates;
    if i == 0 {
      StartInv(env, clock, db);
    } else {
      RunInv(env, clock, db, states, events, i - 1);
      assert Goes(env, clock, states, events, i - 1);
      StepInv(env, clock, db, states[i - 1], events[i - 1]);
    }
  }

  // ---------- non-interference ----------

  predicate Concerns(e: Event, id: Id) {
    !e.Tick? && e.id == id
  }

  /** Connection `id` with only its own events: absent, or in some mode. */
  ghost function Alone(events: seq<Event>, id: Id): Option<Mode> {
    if events == [] then None
    else
      var n := |events| - 1;
      var before := Alone(events[..n], id);
      if !Concerns(events[n], id) then before
      else
        match events[n]
        case Connect(_) => Some(Mode(None, {}))
        case Arrive(_, cmd) => if before.Some? then Some(LocalStep(before.value, cmd)) else None
        case Close(_) => None
  }

  ghost function ModeIn(s: Server, id: Id): Option<Mode> {
    if id in s.conns then Some(s.conns[id].mode) else None
  }

  lemma StepModes(env: Env, clock: nat -> int, s: Server, e: Event, id: Id)
    requires Enabled(clock, s, e) && Iterates(env)
    ensures var t := Step(env, clock, s, e);
            ModeIn(t, id) ==
              if !Concerns(e, id) then ModeIn(s, id)
              else match e
                   case Connect(_) => Some(Mode(None, {}))
                   case Arrive(_, cmd) => if id in s.conns then Some(LocalStep(s.conns[id].mode, cmd)) else None
                   case Close(_) => None
  {
    hide Receive, LeaveAll, Related, ModeOk, LocalStep, Serial, Block, Iterates, ModesOf, Sweepable;
    var t := Step(env, clock, s, e);
    ModeAt(s, id);
    ModeAt(t, id);
    if e.Arrive? {
      ReceiveMoves(env, clock, s.db, s, e.id, e.cmd);
    }
  }

  /** Transactions and subscriptions of a connection depend on its own commands alone, whatever the
      other connections and the timer do in between. */
  lemma {:induction false} NonInterference(env: Env, clock: nat -> int, db: DB, states: seq<Server>, events: seq<Event>, i: nat, id: Id)
    requires IsRun(env, clock, db, states, events) && i <= |events| && Iterates(env)
    ensures ModeIn(states[i], id) == Alone(events[..i], id)
  {
    hide Step, Enabled, Iterates, LocalStep;
    if i > 0 {
      NonInterference(env, clock, db, states, events, i - 1, id);
      assert Goes(env, clock, states, events, i - 1);
      StepModes(env, clock, states[i - 1], events[i - 1], id);
      assert events[..i][..i - 1] == events[..i - 1];
    }
  }

  // ---------- the serial history ----------

  /** The history that the events spell out: one contiguous block of commands per received command, decided
      by the connection's own past, and one entry per tick; so no tick falls inside an EXEC. */
  ghost function Spelled(events: seq<Event>): seq<Done> {
    if events == [] then []
    else
      var n := |events| - 1;
      Spelled(events[..n])
      + (match events[n]
         case Arrive(id, cmd) =>
           var m := Alone(events[..n], id); if m.Some? then Rans(Block(m.value, cmd)) else []
         case Tick(gone) => [Swept(gone)]
         case _ => [])
  }

  ghost function Adds(s: Server, e: Event): seq<Done>
    requires e.Arrive? ==> e.id in s.conns
  {
    match e
    case Arrive(id, cmd) => Rans(Block(s.conns[id].mode, cmd))
    case Tick(gone) => [Swept(gone)]
    case _ => []
  }

  lemma StepHistory(env: Env, clock: nat -> int, s: Server, e: Event)
    requires Enabled(clock, s, e) && Iterates(env)
    ensures Step(env, clock, s, e).history == s.history + Adds(s, e)
  {
    hide Receive, LeaveAll, Related, LocalStep, Serial, Block, Iterates, ModesOf, Rans, Sweepable;
    if e.Arrive? {
      ReceiveMoves(env, clock, s.db, s, e.id, e.cmd);
    }
  }

  /** In every state of every run, whatever was loaded at the start, the database is the serial execution of
      the spelled-out history, in which the commands of an EXEC are contiguous and in order and each tick
      takes only keys whose deadline had come; the log is the history's write commands. */
  lemma SerialHistory(env: Env, clock: nat -> int, db: DB, states: seq<Server>, events: seq<Event>, i: nat)
    requires IsRun(env, clock, db, states, events) && i <= |events| && Iterates(env)
    ensures var h := Spelled(events[..i]);
            && states[i].history == h && AllPossible(env, clock, db, h)
            && states[i].db == RunDone(env, clock, db, h) && states[i].log == Writes(Cmds(h))
  {
    hide RunDone, Writes, Cmds, Spelled, IsRun, Related, ModesOk, Iterates, AllPossible, Agreed;
    HistorySpelled(env, clock, db, states, events, i);
    RunInv(env, clock, db, states, events, i);
  }

  lemma {:induction false} HistorySpelled(env: Env, clock: nat -> int, db: DB, states: seq<Server>, events: seq<Event>, i: nat)
    requires IsRun(env, clock, db, states, events) && i <= |events| && Iterates(env)
    ensures states[i].history == Spelled(events[..i])
  {
    hide Step, Iterates, Block, Alone, Rans, Agreed, Sweepable;
    if i > 0 {
      HistorySpelled(env, clock, db, states, events, i - 1);
      assert Goes(env, clock, states, events, i - 1);
      var e := events[i - 1];
      StepHistory(env, clock, states[i - 1], e);
      if e.Arrive? { NonInterference(env, clock, db, states, events, i - 1, e.id); }
      assert events[..i][..i - 1] == events[..i - 1];
    }
  }

  /** Commands queued and then discarded leave no trace: whatever a connection in MULTI sends before its
      DISCARD adds nothing to the history. */
  lemma {:induction false} DiscardLeavesNothing(m: Mode, cmds: seq<Command>)
    requires m.txn.Some? && m.subscribed == {}
    requires forall i :: 0 <= i < |cmds| ==> cmds[i] != [] && !Control(cmds[i])
    ensures Sent(m, cmds + [["DISCARD"]]) == (m.(txn := None), [])
    decreases |cmds|
  {
    hide SpecialOf, Control, AllowedWhileSubscribed;
    if cmds == [] {
      assert cmds + [["DISCARD"]] == [["DISCARD"]];
      DiscardAlone(m);
    } else {
      var all := cmds + [["DISCARD"]];
      assert all[0] == cmds[0] && all[1..] == cmds[1..] + [["DISCARD"]];
      assert LocalStep(m, cmds[0]) == m.(txn := Some(m.txn.value + [cmds[0]]));
      DiscardLeavesNothing(LocalStep(m, cmds[0]), cmds[1..]);
    }
  }

  lemma DiscardAlone(m: Mode)
    requires m.txn.Some? && m.subscribed == {}
    ensures Sent(m, [["DISCARD"]]) == (m.(txn := None), [])
  {
    assert Upper("DISCARD") == "DISCARD";
    ForDbOne(["DISCARD"]);
    assert [["DISCARD"]][1..] == [];
  }

  /** The mode after a connection's commands, and what they add to the history. */
  ghost function Sent(m: Mode, cmds: seq<Command>): (Mode, seq<Command>)
    decreases |cmds|
  {
    if cmds == [] then (m, [])
    else
      var rest := Sent(LocalStep(m, cmds[0]), cmds[1..]);
      (rest.0, Block(m, cmds[0]) + rest.1)
  }

  /** Commands queued and then executed enter the history together, in the order they were sent. */
  lemma {:induction false} ExecRunsAll(m: Mode, cmds: seq<Command>)
    requires m.txn.Some? && m.subscribed == {}
    requires forall i :: 0 <= i < |cmds| ==> cmds[i] != [] && !Control(cmds[i])
    ensures Sent(m, cmds + [["EXEC"]]) == (LocalQueue(m, m.txn.value + cmds).(txn := None), ForDb(m.txn.value + cmds))
    decreases |cmds|
  {
    hide SpecialOf, Control, AllowedWhileSubscribed, LocalQueue, ForDb;
    if cmds == [] {
      assert cmds + [["EXEC"]] == [["EXEC"]];
      assert m.txn.value + cmds == m.txn.value;
      ExecAlone(m);
    } else {
      var all := cmds + [["EXEC"]];
      assert all[0] == cmds[0] && all[1..] == cmds[1..] + [["EXEC"]];
      var m' := m.(txn := Some(m.txn.value + [cmds[0]]));
      assert LocalStep(m, cmds[0]) == m';
      ExecRunsAll(m', cmds[1..]);
      assert [] + Sent(m', all[1..]).1 == Sent(m', all[1..]).1;
      assert m.txn.value + [cmds[0]] + cmds[1..] == m.txn.value + cmds;
      QueueIgnoresTxn(m, m', m.txn.value + cmds);
    }
  }

  lemma ExecAlone(m: Mode)
    requires m.txn.Some? && m.subscribed == {}
    ensures Sent(m, [["EXEC"]]) == (LocalQueue(m, m.txn.value).(txn := None), ForDb(m.txn.value))
  {
    assert Upper("EXEC") == "EXEC";
    assert [["EXEC"]][1..] == [];
    assert ForDb(m.txn.value) + [] == ForDb(m.txn.value);
  }

  lemma {:induction false} QueueIgnoresTxn(m: Mode, m': Mode, queue: seq<Command>)
    requires m.subscribed == m'.subscribed
    ensures LocalQueue(m, queue).(txn := None) == LocalQueue(m', queue).(txn := None)
    decreases |queue|
  {
    hide LocalDirect;
    if queue != [] {
      DirectIgnoresTxn(m, m', queue[0]);
      QueueIgnoresTxn(LocalDirect(m, queue[0]), LocalDirect(m', queue[0]), queue[1..]);
    }
  }

  lemma DirectIgnoresTxn(m: Mode, m': Mode, a: Command)
    requires m.subscribed == m'.subscribed
    ensures LocalDirect(m, a).subscribed == LocalDirect(m', a).subscribed
  {
    hide SpecialOf, SpecialFits, Words;
  }

  // ---------- recovery from the log ----------

  lemma {:induction false} WritesReplay(env: Env, db: DB, cmds: seq<Command>)
    requires Stored(db) && AllLoggable(cmds)
    ensures AllLoggable(Writes(cmds)) && RunAll(env, db, Writes(cmds)) == RunAll(env, db, cmds)
    ensures Stored(RunAll(env, db, cmds))
    decreases |cmds|
  {
    hide Dispatch, IsWriteCommand, Loggable, Stored, RunAll;
    if cmds == [] {
      RunNone(env, db);
    } else {
      var n := |cmds| - 1;
      var init, c, d := cmds[..n], cmds[n], RunAll(env, db, cmds[..n]);
      assert c != [] by { LoggableNonempty(c); }
      WritesReplay(env, db, init);
      assert Loggable(c) && init + [c] == cmds;
      WriteOrNothing(env, d, c);
      RunSnoc(env, db, init, c);
      RunSnoc(env, db, Writes(init), c);
      assert Writes(init) + [] == Writes(init);
    }
  }

  lemma WriteOrNothing(env: Env, d: DB, c: Command)
    requires Stored(d) && Loggable(c)
    ensures c != [] && Stored(Dispatch(env, 0, d, c).db) && (!IsWriteCommand(c[0]) ==> Dispatch(env, 0, d, c).db == d)
  {
    hide Dispatch, IsWriteCommand, TtlCommand, Stored;
    DispatchSteadyHere(env, 0, d, c);
  }

  /** Without deadlines no tick takes anything, and a history does what its commands do. */
  lemma {:induction false} SteadyHistory(env: Env, clock: nat -> int, db: DB, h: seq<Done>)
    requires Stored(db) && AllPossible(env, clock, db, h) && AllLoggable(Cmds(h))
    ensures RunDone(env, clock, db, h) == RunAll(env, db, Cmds(h)) && Stored(RunAll(env, db, Cmds(h)))
    decreases |h|
  {
    hide Dispatch, Stored, TtlCommand, RunAll;
    if h == [] {
      RunNone(env, db);
    } else {
      var n := |h| - 1;
      var d := RunDone(env, clock, db, h[..n]);
      PossiblePrefix(env, clock, db, h, n);
      PrefixLoggable(h);
      SteadyHistory(env, clock, db, h[..n]);
      assert Possible(env, clock, db, h, n);
      match h[n] {
        case Ran(a) =>
          assert Cmds(h)[|Cmds(h)| - 1] == a && Loggable(a);
          DispatchSteady(env, n, clock(n), d, a);
          RunSnoc(env, db, Cmds(h[..n]), a);
        case Swept(gone) =>
          StoredAgreed(d);
          assert gone == {};
          assert d - gone == d && Cmds(h[..n]) + [] == Cmds(h[..n]);
      }
    }
  }

  lemma PossiblePrefix(env: Env, clock: nat -> int, db: DB, h: seq<Done>, n: nat)
    requires AllPossible(env, clock, db, h) && n <= |h|
    ensures AllPossible(env, clock, db, h[..n])
  {
    hide RunDone, Sweepable;
    forall i | 0 <= i < n
      ensures Possible(env, clock, db, h[..n], i)
    {
      assert Possible(env, clock, db, h, i);
      assert h[..n][..i] == h[..i];
    }
  }

  lemma PrefixLoggable(h: seq<Done>)
    requires h != [] && AllLoggable(Cmds(h))
    ensures AllLoggable(Cmds(h[..|h| - 1]))
  {
    hide Loggable;
    var c := Cmds(h[..|h| - 1]);
    assert forall i :: 0 <= i < |c| ==> c[i] == Cmds(h)[i];
  }

  /** A server started on a well-formed log, at any point of a run whose history has no TTL command: a server
      started later on that log and the commands logged since has the same database, whatever the clock
      then says. */
  lemma LogRecovers(env: Env, clock: nat -> int, cmds: seq<Command>, states: seq<Server>, events: seq<Event>, i: nat, later: nat -> int)
    requires AllLoggable(cmds) && IsRun(env, clock, RunAll(env, map[], cmds), states, events) && i <= |events| && Iterates(env)
    requires AllLoggable(Cmds(states[i].history))
    ensures AofProtocol.Load(env, later, FormatAll(cmds) + FormatAll(states[i].log)) == states[i].db
  {
    hide RunAt, Writes, Goes, Related, ModesOk, Iterates, AllLoggable, Stored, AllPossible, RunDone, Cmds, Agreed, RunAll, FormatAll;
    var s, db := states[i], RunAll(env, map[], cmds);
    AofProtocol.EmptyStored();
    RunSteady(env, clock, map[], cmds);
    RunInv(env, clock, db, states, events, i);
    SteadyHistory(env, clock, db, s.history);
    WritesReplay(env, db, Cmds(s.history));
    RunConcat(env, map[], cmds, s.log);
    AofProtocol.BothLoggable(cmds, s.log);
    RespProofs.FormatAllAppends(cmds, s.log);
    AofProtocol.MakeLogOf(env, cmds + s.log);
    AofProtocol.LoadLog(env, later, FormatAll(cmds + s.log), cmds + s.log, s.db);
  }

  // ---------- a run with a tick ----------

  /** SET, PEXPIRE of one millisecond, and a tick after it: the tick deletes the key, although no command
      looked at it, and the database is empty. */
  lemma TickDeletes(env: Env, clock: nat -> int)
    requires 0 <= clock(1) < clock(2)
    ensures var h := [Ran(["SET", "k", "v"]), Ran(TtlSnapshots.ExpireLine("k", 1)), Swept({"k"})];
            AllPossible(env, clock, map[], h) && RunDone(env, clock, map[], h) == map[]
  {
    hide Dispatch, CreateString;
    var x, y, z: Done := Ran(["SET", "k", "v"]), Ran(TtlSnapshots.ExpireLine("k", 1)), Swept({"k"});
    var h := [x, y, z];
    assert h[..0] == [] && h[..1] == [x] && h[..2] == [x, y] && [x][..0] == [] && [x, y][..1] == [x];
    var e := Entry(Str(CreateString("v")), -1);
    SetReaches(env, clock(0), map[]);
    assert RunDone(env, clock, map[], [x]) == map["k" := e];
    TtlSnapshots.ExpireLineWorks(At(env, 1), clock(1), map["k" := e], "k", 1);
    var d := map["k" := e.(expireAt := clock(1) + 1, heaped := true)];
    assert RunDone(env, clock, map[], [x, y]) == d;
    assert Sweepable(d, clock(2), "k");
    assert Possible(env, clock, map[], h, 0) && Possible(env, clock, map[], h, 1) && Possible(env, clock, map[], h, 2);
  }

  lemma SetReaches(env: Env, now: int, d: DB)
    ensures Dispatch(At(env, 0), now, d, ["SET", "k", "v"]).db == d["k" := Entry(Str(CreateString("v")), -1)]
  {
    hide CreateString;
    assert Upper("SET") == "SET";
  }
}
