/** The connection state machine: subscriber gate, transaction queuing, EXEC, pub/sub and the logging
    rule, for any number of interleaved connections. */
module Servers {
  import opened Text
  import opened Resp
  import opened Replies
  import opened Commands
  import opened Snapshots

  type Id = nat

  /** What decides how a connection's next command is handled. */
  datatype Mode = Mode(txn: Option<seq<Command>>, subscribed: set<Bytes>)

  datatype Conn = Conn(mode: Mode, out: Bytes)

  /** `PubSubRegistry::channels_`. */
  type Channels = map<Bytes, set<Id>>

  /** What happened to the database: a dispatched command, or a timer tick that deleted the keys `gone`. */
  datatype Done = Ran(cmd: Command) | Swept(gone: set<Bytes>)

  /** `history` is what happened to the database, `log` the commands handed to the AOF writer. */
  datatype Server = Server(
    db: DB,
    conns: map<Id, Conn>,
    channels: Channels,
    history: seq<Done>,
    log: seq<Command>)

  // ---------- commands registered outside the database table ----------

  datatype Special = MULTI | EXEC | DISCARD | SUBSCRIBE | UNSUBSCRIBE | PUBLISH | BGREWRITEAOF

  function SpecialOf(s: Bytes): Option<Special> {
    match Upper(s)
    case "MULTI" => Some(MULTI)
    case "EXEC" => Some(EXEC)
    case "DISCARD" => Some(DISCARD)
    case "SUBSCRIBE" => Some(SUBSCRIBE)
    case "UNSUBSCRIBE" => Some(UNSUBSCRIBE)
    case "PUBLISH" => Some(PUBLISH)
    case "BGREWRITEAOF" => Some(BGREWRITEAOF)
    case _ => None
  }

  predicate SpecialFits(c: Special, n: nat) {
    match c
    case MULTI => n == 1
    case EXEC => n == 1
    case DISCARD => n == 1
    case SUBSCRIBE => n >= 2
    case UNSUBSCRIBE => n >= 1
    case PUBLISH => n == 3
    case BGREWRITEAOF => n == 1
  }

  // ---------- replies and pub/sub ----------

  function Say(s: Server, id: Id, r: Reply): Server
    requires id in s.conns
  {
    s.(conns := s.conns[id := s.conns[id].(out := s.conns[id].out + Serialize(r))])
  }

  function SubscribeReply(kind: Bytes, ch: Bytes, n: nat): Reply {
    Array([BulkString(kind), BulkString(ch), Int(n)])
  }

  function Members(channels: Channels, ch: Bytes): set<Id> {
    if ch in channels then channels[ch] else {}
  }

  function Join(channels: Channels, id: Id, ch: Bytes): Channels {
    channels[ch := Members(channels, ch) + {id}]
  }

  function SetMode(s: Server, id: Id, m: Mode): Server
    requires id in s.conns
  {
    s.(conns := s.conns[id := s.conns[id].(mode := m)])
  }

  /** `PubSubRegistry::subscribe` and its reply. */
  function Subscribe(s: Server, id: Id, ch: Bytes): (r: Server)
    requires id in s.conns
    ensures r.conns.Keys == s.conns.Keys
  {
    var m := s.conns[id].mode;
    var m' := m.(subscribed := m.subscribed + {ch});
    Say(SetMode(s.(channels := Join(s.channels, id, ch)), id, m'), id,
        SubscribeReply("subscribe", ch, |m'.subscribed|))
  }

  /** `PubSubRegistry::unsubscribe`; an emptied channel is erased. */
  function Leave(channels: Channels, id: Id, ch: Bytes): Channels {
    if ch !in channels then channels
    else if channels[ch] - {id} == {} then channels - {ch}
    else channels[ch := channels[ch] - {id}]
  }

  function Unsubscribe(s: Server, id: Id, ch: Bytes): (r: Server)
    requires id in s.conns
    ensures r.conns.Keys == s.conns.Keys
  {
    var m := s.conns[id].mode;
    var m' := m.(subscribed := m.subscribed - {ch});
    Say(SetMode(s.(channels := Leave(s.channels, id, ch)), id, m'), id,
        SubscribeReply("unsubscribe", ch, |m'.subscribed|))
  }

  function SubscribeAll(s: Server, id: Id, chs: seq<Bytes>): (r: Server)
    requires id in s.conns
    ensures r.conns.Keys == s.conns.Keys
    decreases |chs|
  {
    if chs == [] then s else SubscribeAll(Subscribe(s, id, chs[0]), id, chs[1..])
  }

  function UnsubscribeAll(s: Server, id: Id, chs: seq<Bytes>): (r: Server)
    requires id in s.conns
    ensures r.conns.Keys == s.conns.Keys
    decreases |chs|
  {
    if chs == [] then s else UnsubscribeAll(Unsubscribe(s, id, chs[0]), id, chs[1..])
  }

  function Message(ch: Bytes, msg: Bytes): Reply {
    Array([BulkString("message"), BulkString(ch), BulkString(msg)])
  }

  /** `PubSubRegistry::publish`: one message to every subscriber. */
  function Publish(s: Server, ch: Bytes, msg: Bytes): Server {
    s.(conns := map i | i in s.conns ::
         if i in Members(s.channels, ch) then s.conns[i].(out := s.conns[i].out + Serialize(Message(ch, msg)))
         else s.conns[i])
  }

  // ---------- dispatch ----------

  /** `CommandTable::dispatch` followed by the logging rule, for every command but EXEC. */
  ghost function Direct(env: Env, clock: nat -> int, s: Server, id: Id, a: Command): (r: Server)
    requires id in s.conns
    ensures r.conns.Keys == s.conns.Keys
  {
    var c := if a == [] then None else SpecialOf(a[0]);
    if a == [] then s
    else if c.None? then
      var n := |s.history|;
      var o := Dispatch(At(env, n), clock(n), s.db, a);
      Say(s.(db := o.db, history := s.history + [Ran(a)],
             log := if IsWriteCommand(a[0]) then s.log + [a] else s.log), id, o.reply)
    else if !SpecialFits(c.value, |a|) then
      Say(s, id, WrongNumber(Upper(a[0])))
    else
      var me := s.conns[id].mode;
      match c.value
      case MULTI =>
        if me.txn.Some? then Say(s, id, Error("ERR MULTI calls can not be nested"))
        else Say(SetMode(s, id, me.(txn := Some([]))), id, OK)
      case DISCARD =>
        if me.txn.None? then Say(s, id, Error("ERR DISCARD without MULTI"))
        else Say(SetMode(s, id, me.(txn := None)), id, OK)
      case EXEC => Say(s, id, Error("ERR EXEC without MULTI"))
      case SUBSCRIBE => SubscribeAll(s, id, a[1..])
      case UNSUBSCRIBE =>
        if |a| > 1 then UnsubscribeAll(s, id, a[1..])
        else if me.subscribed == {} then Say(s, id, Array([BulkString("unsubscribe"), Null, Int(0)]))
        else UnsubscribeAll(s, id, env.subs(me.subscribed))
      case PUBLISH => Say(Publish(s, a[1], a[2]), id, Int(|Members(s.channels, a[1])|))
      case BGREWRITEAOF => Say(s, id, REWRITE_STARTED)
  }

  /** The array header of EXEC's reply. */
  function Head(s: Server, id: Id, n: nat): Server
    requires id in s.conns
  {
    s.(conns := s.conns[id := s.conns[id].(out := s.conns[id].out + "*" + Digits(n) + CRLF)])
  }

  /** The loop of the EXEC handler. */
  ghost function RunQueue(env: Env, clock: nat -> int, s: Server, id: Id, queue: seq<Command>): (r: Server)
    requires id in s.conns
    ensures r.conns.Keys == s.conns.Keys
    decreases |queue|
  {
    if queue == [] then s else RunQueue(env, clock, Direct(env, clock, s, id, queue[0]), id, queue[1..])
  }

  /** Commands that a queue never holds. */
  predicate Control(a: Command) {
    a != [] && SpecialOf(a[0]) in {Some(MULTI), Some(EXEC), Some(DISCARD)}
  }

  predicate AllowedWhileSubscribed(a: Command)
    requires a != []
  {
    SpecialOf(a[0]) in {Some(SUBSCRIBE), Some(UNSUBSCRIBE)} || Upper(a[0]) == "PING" || Upper(a[0]) == "QUIT"
  }

  /** The answer to a command that a subscriber may not send. */
  function Refusal(name: Bytes): Reply {
    Error("ERR Can't execute '" + name
          + "': only (P)SUBSCRIBE / (P)UNSUBSCRIBE / PING / QUIT are allowed in this context")
  }

  /** One parsed command of connection `id`, as the server loop handles it. */
  ghost function Receive(env: Env, clock: nat -> int, s: Server, id: Id, a: Command): Server
    requires id in s.conns
  {
    var me := s.conns[id].mode;
    if a == [] then s
    else if me.subscribed != {} && !AllowedWhileSubscribed(a) then
      Say(s, id, Refusal(a[0]))
    else if me.txn.Some? && !Control(a) then
      Say(SetMode(s, id, me.(txn := Some(me.txn.value + [a]))), id, Simple("QUEUED"))
    else if SpecialOf(a[0]) == Some(EXEC) && |a| == 1 && me.txn.Some? then
      var queue := me.txn.value;
      var s1 := RunQueue(env, clock, Head(s, id, |queue|), id, queue);
      SetMode(s1, id, s1.conns[id].mode.(txn := None))
    else Direct(env, clock, s, id, a)
  }

  // ---------- events ----------

  datatype Event = Connect(id: Id) | Arrive(id: Id, cmd: Command) | Close(id: Id) | Tick(gone: set<Bytes>)

  /** A key that the timer may delete: its deadline in the heap has come, even if it is negative. */
  predicate Sweepable(db: DB, now: int, k: Bytes) {
    k in db && db[k].heaped && db[k].expireAt <= now
  }

  /** `PubSubRegistry::removeConnection`: leave every channel in `chs`, erasing those that become empty. */
  function LeaveAll(channels: Channels, id: Id, chs: set<Bytes>): Channels {
    map ch | ch in channels && !(ch in chs && channels[ch] - {id} == {}) ::
      if ch in chs then channels[ch] - {id} else channels[ch]
  }

  ghost predicate Enabled(clock: nat -> int, s: Server, e: Event) {
    match e
    case Connect(id) => id !in s.conns
    case Arrive(id, cmd) => id in s.conns
    case Close(id) => id in s.conns
    case Tick(gone) => forall k :: k in gone ==> Sweepable(s.db, clock(|s.history|), k)
  }

  ghost function Step(env: Env, clock: nat -> int, s: Server, e: Event): Server
    requires Enabled(clock, s, e)
  {
    match e
    case Connect(id) => s.(conns := s.conns[id := Conn(Mode(None, {}), [])])
    case Arrive(id, cmd) => Receive(env, clock, s, id, cmd)
    case Close(id) => s.(conns := s.conns - {id}, channels := LeaveAll(s.channels, id, s.conns[id].mode.subscribed))
    case Tick(gone) => s.(db := s.db - gone, history := s.history + [Swept(gone)])
  }
}
