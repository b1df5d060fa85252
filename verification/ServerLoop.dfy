/** The server loop in place: connections, the pub/sub registry and the dispatch of parsed commands. */
module ServerLoops {
  import opened Text
  import opened Resp
  import opened Replies
  import opened Commands
  import opened CommandProofs
  import opened Objects
  import opened Databases
  import opened Servers
  import opened ServerProofs
  import opened Locality
  import Handlers
  import HashProofs
  import Timed
  import Executor

  class Connection {
    var txn: Option<seq<Command>>
    var subscribed: set<Bytes>
    var out: Bytes

    constructor ()
      ensures txn == None && subscribed == {} && out == []
    {
      txn := None;
      subscribed := {};
      out := [];
    }

    ghost function Value(): Conn
      reads this
    {
      Conn(Mode(txn, subscribed), out)
    }
  }

  lemma LeaveOneMore(channels: Channels, id: Id, done: set<Bytes>, ch: Bytes)
    ensures Leave(LeaveAll(channels, id, done), id, ch) == LeaveAll(channels, id, done + {ch})
  {
    var all := LeaveAll(channels, id, done);
    assert ch in all && ch in done ==> all[ch] - {id} == all[ch];
    if ch in channels && ch in done { assert channels[ch] - {id} - {id} == channels[ch] - {id}; }
  }

  /** A connection that has, or has not, been sent the message. */
  function Heard(c: Conn, sent: bool, ch: Bytes, msg: Bytes): Conn {
    if sent then c.(out := c.out + Serialize(Message(ch, msg))) else c
  }

  /** A subscriber is held by the identity of its connection, as the pointer in the original. */
  class PubSubRegistry {
    var channels: Channels

    constructor ()
      ensures channels == map[]
    {
      channels := map[];
    }

    method Subscribe(ch: Bytes, id: Id, conn: Connection) returns (n: nat)
      modifies this, conn`subscribed
      ensures channels == Join(old(channels), id, ch)
      ensures conn.subscribed == old(conn.subscribed) + {ch} && n == |conn.subscribed|
    {
      var subs := if ch in channels then channels[ch] else {};
      channels := channels[ch := subs + {id}];
      conn.subscribed := conn.subscribed + {ch};
      n := |conn.subscribed|;
    }

    method Unsubscribe(ch: Bytes, id: Id, conn: Connection) returns (n: nat)
      modifies this, conn`subscribed
      ensures channels == Leave(old(channels), id, ch)
      ensures conn.subscribed == old(conn.subscribed) - {ch} && n == |conn.subscribed|
    {
      if ch in channels {
        channels := channels[ch := channels[ch] - {id}];
        if channels[ch] == {} {
          channels := channels - {ch};
        }
      }
      conn.subscribed := conn.subscribed - {ch};
      n := |conn.subscribed|;
    }

    /** One message to every subscriber; every subscriber is an open connection. */
    method Publish(ch: Bytes, msg: Bytes, conns: map<Id, Connection>) returns (delivered: nat)
      requires Members(channels, ch) <= conns.Keys
      requires Apart(conns)
      modifies set i | i in conns :: conns[i]`out
      ensures delivered == |Members(channels, ch)|
      ensures forall i :: i in conns ==>
                conns[i].Value() == Heard(old(conns[i].Value()), i in Members(channels, ch), ch, msg)
    {
      delivered := 0;
      if ch !in channels { return; }
      var rest := channels[ch];
      while rest != {}
        invariant rest <= channels[ch] && delivered == |channels[ch]| - |rest|
        invariant forall i :: i in conns ==>
                    conns[i].Value() == Heard(old(conns[i].Value()), i in channels[ch] - rest, ch, msg)
        decreases rest
      {
        var i :| i in rest;
        conns[i].out := conns[i].out + Serialize(Message(ch, msg));
        rest := rest - {i};
        delivered := delivered + 1;
      }
    }

    method RemoveConnection(id: Id, conn: Connection)
      modifies this, conn`subscribed
      ensures channels == LeaveAll(old(channels), id, old(conn.subscribed))
      ensures conn.subscribed == {}
    {
      var rest := conn.subscribed;
      assert channels == LeaveAll(old(channels), id, {});
      while rest != {}
        invariant rest <= conn.subscribed == old(conn.subscribed)
        invariant channels == LeaveAll(old(channels), id, conn.subscribed - rest)
        decreases rest
      {
        var ch :| ch in rest;
        LeaveOneMore(old(channels), id, conn.subscribed - rest, ch);
        assert conn.subscribed - rest + {ch} == conn.subscribed - (rest - {ch});
        if ch in channels {
          channels := channels[ch := channels[ch] - {id}];
          if channels[ch] == {} {
            channels := channels - {ch};
          }
        }
        rest := rest - {ch};
      }
      assert conn.subscribed - {} == conn.subscribed;
      conn.subscribed := {};
    }
  }

  lemma PublishAt(s: Server, ch: Bytes, msg: Bytes, i: Id)
    requires i in s.conns
    ensures var t := Servers.Publish(s, ch, msg);
            i in t.conns && t.conns[i] == Heard(s.conns[i], i in Members(s.channels, ch), ch, msg)
  {
    hide Serialize;
  }

  lemma PublishFrame(s: Server, ch: Bytes, msg: Bytes)
    ensures var t := Servers.Publish(s, ch, msg);
            t.conns.Keys == s.conns.Keys && t.channels == s.channels && t.db == s.db && t.log == s.log && t.history == s.history
  {
    hide Serialize;
  }

  ghost predicate Apart(conns: map<Id, Connection>) {
    forall i, j :: i in conns && j in conns && i != j ==> conns[i] != conns[j]
  }

  ghost predicate Tied(conns: map<Id, Connection>, values: map<Id, Conn>)
    requires conns.Keys == values.Keys
    reads set i | i in conns :: conns[i]
  {
    forall i :: i in conns ==> conns[i].Value() == values[i]
  }

  lemma ViewAgreed(s: Timed.Store<Value>)
    requires Timed.Agree(s)
    ensures Agreed(Handlers.ViewOf(s))
  {
  }

  lemma SubsIterate(e: Env, f: Env)
    requires Iterates(e) && e.subs == f.subs
    ensures Iterates(f)
  {
  }

  lemma QueueNone(env: Env, clock: nat -> int, s: Server, id: Id)
    requires id in s.conns
    ensures RunQueue(env, clock, s, id, []) == s
  {
  }

  /** One more command of the queue, in an environment that has learned from it. */
  lemma QueueStep(e0: Env, e: Env, f: Env, clock: nat -> int, s: Server, id: Id, queue: seq<Command>, i: nat)
    requires id in s.conns && i < |queue| && Iterates(e) && AgreeBelow(e0, e, |s.history|)
    requires AgreeBelow(e, f, |RunQueue(e, clock, s, id, queue[..i]).history|)
    ensures RunQueue(f, clock, s, id, queue[..i + 1]) == Direct(f, clock, RunQueue(e, clock, s, id, queue[..i]), id, queue[i])
    ensures AgreeBelow(e0, f, |s.history|)
  {
    hide Iterates, AgreeBelow, RunQueue, Direct;
    var t := RunQueue(e, clock, s, id, queue[..i]);
    QueueGrows(e, clock, s, id, queue[..i]);
    QueueLocal(e, f, clock, s, id, queue[..i]);
    QueueSnoc(f, clock, s, id, queue[..i], queue[i]);
    assert queue[..i + 1] == queue[..i] + [queue[i]];
    AgreeLess(e, f, |t.history|, |s.history|);
    AgreeTwice(e0, e, f, |s.history|);
  }

  lemma ReceiveCases(env: Env, clock: nat -> int, s: Server, id: Id, a: Command)
    requires id in s.conns
    ensures var m := s.conns[id].mode;
            Receive(env, clock, s, id, a) ==
              if a == [] then s
              else if Gated(m, a) then Say(s, id, Refusal(a[0]))
              else if m.txn.Some? && !Control(a) then Say(SetMode(s, id, m.(txn := Some(m.txn.value + [a]))), id, Simple("QUEUED"))
              else if RunsQueue(m, a) then
                var t := RunQueue(env, clock, Head(s, id, |m.txn.value|), id, m.txn.value);
                SetMode(t, id, t.conns[id].mode.(txn := None))
              else Direct(env, clock, s, id, a)
  {
    hide Say, Direct, RunQueue, Control, AllowedWhileSubscribed, SpecialOf, Head;
  }

  lemma WrongFits(env: Env, clock: nat -> int, s: Server, id: Id, a: Command)
    requires id in s.conns && a != [] && SpecialOf(a[0]).Some? && !SpecialFits(SpecialOf(a[0]).value, |a|)
    ensures Direct(env, clock, s, id, a) == Say(s, id, WrongNumber(Upper(a[0])))
  {
    hide Say, SpecialOf, SpecialFits, Upper;
  }

  lemma MovedRelated(env: Env, clock: nat -> int, db: DB, s: Server, t: Server, id: Id, m: Mode, cmds: seq<Command>)
    requires Moved(env, clock, db, s, t, id, m, cmds) && Related(s.channels, ModesOf(s))
    ensures Related(t.channels, ModesOf(t))
  {
    hide Related, ModesOf, Serial;
  }

  lemma DirectDb(env: Env, clock: nat -> int, s: Server, id: Id, a: Command)
    requires id in s.conns && a != [] && SpecialOf(a[0]).None?
    ensures var n := |s.history|;
            var o := Dispatch(At(env, n), clock(n), s.db, a);
            Direct(env, clock, s, id, a) ==
              Say(s.(db := o.db, history := s.history + [Ran(a)], log := if IsWriteCommand(a[0]) then s.log + [a] else s.log), id, o.reply)
  {
    hide Dispatch, SpecialOf, IsWriteCommand, Say;
  }

  /** `view` is the state of the connection state machine that the objects hold; `env` is what has been found out of
      its environment so far; `states` and `events` are the run so far, from the database `loaded`. */
  class ServerLoop {
    const base: Env
    const clock: nat -> int
    const level: nat -> nat
    const registry: PubSubRegistry
    const database: Database<Value>
    var conns: map<Id, Connection>
    var log: seq<Command>
    var readings: nat
    ghost var view: Server
    ghost var env: Env
    ghost var loaded: DB
    ghost var states: seq<Server>
    ghost var events: seq<Event>

    /** The database object holds `d`. */
    ghost predicate Holds(d: DB)
      reads database, database.Repr
    {
      database.Valid() && Timed.Agree(database.State()) && Handlers.View(database) == d
    }

    /** The loop's own objects are not parts of the database object. */
    ghost predicate Detached()
      reads this`conns, database
    {
      this !in database.Repr && registry !in database.Repr
      && forall i :: i in conns ==> conns[i] !in database.Repr
    }

    ghost predicate Valid()
      reads this, registry, database, database.Repr, set i | i in conns :: conns[i]
    {
      && Holds(view.db) && Detached() && Executor.Levels(level) && SameBase(base, env)
      && log == view.log && registry.channels == view.channels && readings == |view.history|
      && conns.Keys == view.conns.Keys
      && Apart(conns) && Tied(conns, view.conns)
    }

    /** A server on a database object that has been loaded. */
    constructor (base: Env, clock: nat -> int, level: nat -> nat, database: Database<Value>)
      requires database.Valid() && Timed.Agree(database.State()) && Executor.Levels(level) && Iterates(base)
      ensures Valid() && view == Start(Handlers.View(database)) && this.base == base && env == base
      ensures this.database == database && loaded == view.db && states == [view] && events == []
    {
      this.base, this.clock, this.level, this.database := base, clock, level, database;
      registry := new PubSubRegistry();
      conns, log, readings := map[], [], 0;
      view, env := Start(Handlers.View(database)), base;
      loaded, states, events := Handlers.View(database), [Start(Handlers.View(database))], [];
    }

    // ---------- replies and modes ----------

    method Reply(id: Id, r: Replies.Reply)
      requires Valid() && id in conns
      modifies this`view, conns[id]
      ensures Valid() && view == Say(old(view), id, r)
    {
      hide ServerLoop.Holds, Executor.Levels, SameBase, Serialize;
      conns[id].out := conns[id].out + Serialize(r);
      view := Say(view, id, r);
    }

    method SetTxn(id: Id, txn: Option<seq<Command>>)
      requires Valid() && id in conns
      modifies this`view, conns[id]
      ensures Valid() && view == SetMode(old(view), id, old(view).conns[id].mode.(txn := txn))
    {
      hide ServerLoop.Holds, Executor.Levels, SameBase, Serialize;
      conns[id].txn := txn;
      view := SetMode(view, id, view.conns[id].mode.(txn := txn));
    }

    // ---------- SUBSCRIBE, UNSUBSCRIBE, PUBLISH ----------

    method SubscribeOne(id: Id, ch: Bytes)
      requires Valid() && id in conns
      modifies this`view, registry, conns[id]
      ensures Valid() && view == Servers.Subscribe(old(view), id, ch)
    {
      hide ServerLoop.Holds, Executor.Levels, SameBase, Serialize;
      var n := registry.Subscribe(ch, id, conns[id]);
      ghost var m := view.conns[id].mode;
      view := SetMode(view.(channels := Join(view.channels, id, ch)), id, m.(subscribed := m.subscribed + {ch}));
      Reply(id, SubscribeReply("subscribe", ch, n));
    }

    method UnsubscribeOne(id: Id, ch: Bytes)
      requires Valid() && id in conns
      modifies this`view, registry, conns[id]
      ensures Valid() && view == Servers.Unsubscribe(old(view), id, ch)
    {
      hide ServerLoop.Holds, Executor.Levels, SameBase, Serialize;
      var n := registry.Unsubscribe(ch, id, conns[id]);
      ghost var m := view.conns[id].mode;
      view := SetMode(view.(channels := Leave(view.channels, id, ch)), id, m.(subscribed := m.subscribed - {ch}));
      Reply(id, SubscribeReply("unsubscribe", ch, n));
    }

    method SubscribeEach(id: Id, chs: seq<Bytes>)
      requires Valid() && id in conns
      modifies this`view, registry, conns[id]
      ensures Valid() && view == SubscribeAll(old(view), id, chs)
    {
      hide ServerLoop.Holds, Executor.Levels, SameBase, Serialize, Servers.Subscribe;
      var i := 0;
      while i < |chs|
        invariant 0 <= i <= |chs| && Valid() && id in view.conns
        invariant SubscribeAll(view, id, chs[i..]) == SubscribeAll(old(view), id, chs)
      {
        assert chs[i..][1..] == chs[i + 1..];
        SubscribeOne(id, chs[i]);
        i := i + 1;
      }
    }

    method UnsubscribeEach(id: Id, chs: seq<Bytes>)
      requires Valid() && id in conns
      modifies this`view, registry, conns[id]
      ensures Valid() && view == UnsubscribeAll(old(view), id, chs)
    {
      hide ServerLoop.Holds, Executor.Levels, SameBase, Serialize, Servers.Unsubscribe;
      var i := 0;
      while i < |chs|
        invariant 0 <= i <= |chs| && Valid() && id in view.conns
        invariant UnsubscribeAll(view, id, chs[i..]) == UnsubscribeAll(old(view), id, chs)
      {
        assert chs[i..][1..] == chs[i + 1..];
        UnsubscribeOne(id, chs[i]);
        i := i + 1;
      }
    }

    /** Every subscriber that the registry names must be open: the pub/sub relation guarantees it. */
    method Deliver(ch: Bytes, msg: Bytes) returns (n: nat)
      requires Valid() && Members(registry.channels, ch) <= conns.Keys
      modifies this`view, set i | i in conns :: conns[i]
      ensures Valid() && view == Servers.Publish(old(view), ch, msg) && n == |Members(old(view).channels, ch)|
    {
      hide ServerLoop.Holds, Executor.Levels, SameBase, Serialize, Members, Servers.Publish, Heard, Connection.Value;
      ghost var s, t := view, Servers.Publish(view, ch, msg);
      PublishFrame(s, ch, msg);
      view := t;
      n := registry.Publish(ch, msg, conns);
      forall i | i in conns ensures conns[i].Value() == t.conns[i] {
        PublishAt(s, ch, msg, i);
      }
    }

    method PublishTo(id: Id, ch: Bytes, msg: Bytes)
      requires Valid() && id in conns && Members(registry.channels, ch) <= conns.Keys
      modifies this`view, set i | i in conns :: conns[i]
      ensures Valid()
      ensures id in Servers.Publish(old(view), ch, msg).conns
      ensures view == Say(Servers.Publish(old(view), ch, msg), id, Int(|Members(old(view).channels, ch)|))
    {
      hide ServerLoop.Holds, Executor.Levels, SameBase, Serialize, Servers.Publish, Members, Say;
      var n := Deliver(ch, msg);
      Reply(id, Int(n));
    }

    // ---------- dispatch ----------

    /** What the loop relies on between commands: the pub/sub relation. */
    ghost predicate Ready()
      reads this, registry, database, database.Repr, set i | i in conns :: conns[i]
    {
      Valid() && Iterates(env) && Related(view.channels, ModesOf(view))
    }

    /** A command of the database table, executed on the database object, then the logging rule. */
    method ExecuteDb(id: Id, a: Command)
      requires Valid() && id in conns && a != [] && SpecialOf(a[0]).None?
      modifies this`view, this`env, this`log, this`readings, database.Repr, conns[id]
      ensures Valid() && view == Direct(env, clock, old(view), id, a) && env.subs == old(env).subs
      ensures AgreeBelow(old(env), env, |old(view).history|) && fresh(database.Repr - old(database.Repr))
    {
      hide ServerLoop.Holds, Dispatch, Direct, SpecialOf, IsWriteCommand, Say, Executor.Levels, SameBase, AgreeBelow, ServerLoop.Valid;
      ghost var s := view;
      SameKeys();
      var reply := ExecuteOn(a);
      DirectDb(env, clock, s, id, a);
      LogWrite(a);
      Reply(id, reply);
    }

    /** The logging rule. */
    method LogWrite(a: Command)
      requires Valid() && a != []
      modifies this`view, this`log
      ensures Valid() && view == old(view).(log := if IsWriteCommand(a[0]) then old(view).log + [a] else old(view).log)
    {
      hide ServerLoop.Holds, IsWriteCommand, Executor.Levels, SameBase;
      if IsWriteCommand(a[0]) {
        log := log + [a];
      }
      view := view.(log := log);
    }

    /** The command on the database object; the log and the reply are left to the caller. */
    method ExecuteOn(a: Command) returns (reply: Reply)
      requires Valid() && a != []
      modifies this`view, this`env, this`readings, database.Repr
      ensures Valid() && env.subs == old(env).subs
      ensures AgreeBelow(old(env), env, |old(view).history|) && fresh(database.Repr - old(database.Repr))
      ensures var n := |old(view).history|;
              var o := Dispatch(At(env, n), clock(n), old(view).db, a);
              reply == o.reply && view == old(view).(db := o.db, history := old(view).history + [Ran(a)])
    {
      hide Dispatch, Executor.Levels, SameBase, AgreeBelow, SameCall, Executor.Found, Learned, Timed.Agree, Database.Valid, HashProofs.Good, Handlers.View;
      ghost var seen;
      ghost var n := readings;
      reply, seen := Executor.Execute(database, At(base, readings), level, clock(readings), a);
      LearnedLaw(base, env, seen, n);
      env := Learned(env, seen, n);
      DispatchLocal(seen, At(env, n), clock(n), view.db, a);
      readings := readings + 1;
      view := view.(db := Dispatch(At(env, n), clock(n), view.db, a).db, history := view.history + [Ran(a)]);
    }

    /** MULTI, DISCARD, and EXEC outside a transaction. */
    method Transaction(id: Id, a: Command)
      requires Valid() && id in conns && Control(a) && SpecialFits(SpecialOf(a[0]).value, |a|)
      modifies this`view, conns[id]
      ensures Valid() && view == Direct(env, clock, old(view), id, a)
    {
      hide ServerLoop.Holds, Executor.Levels, SameBase, Dispatch, Serialize, SpecialOf, Say, SetMode;
      var c := SpecialOf(a[0]).value;
      if c == MULTI {
        if conns[id].txn.Some? {
          Reply(id, Error("ERR MULTI calls can not be nested"));
        } else {
          SetTxn(id, Some([]));
          Reply(id, OK);
        }
      } else if c == DISCARD {
        if conns[id].txn.None? {
          Reply(id, Error("ERR DISCARD without MULTI"));
        } else {
          SetTxn(id, None);
          Reply(id, OK);
        }
      } else {
        Reply(id, Error("ERR EXEC without MULTI"));
      }
    }

    /** SUBSCRIBE, UNSUBSCRIBE, PUBLISH and BGREWRITEAOF. */
    method Special(id: Id, a: Command)
      requires Ready() && id in conns && a != [] && !Control(a)
      requires SpecialOf(a[0]).Some? && SpecialFits(SpecialOf(a[0]).value, |a|)
      modifies this`view, registry, set i | i in conns :: conns[i]
      ensures Valid() && view == Direct(env, clock, old(view), id, a)
    {
      hide ServerLoop.Holds, Executor.Levels, Dispatch, Serialize, SpecialOf, Say, SubscribeAll, UnsubscribeAll, Servers.Publish, Iterates;
      match SpecialOf(a[0]).value
      case SUBSCRIBE => SubscribeEach(id, a[1..]);
      case UNSUBSCRIBE =>
        if |a| > 1 {
          UnsubscribeEach(id, a[1..]);
        } else if conns[id].subscribed == {} {
          Reply(id, Array([BulkString("unsubscribe"), Null, Int(0)]));
        } else {
          UnsubscribeEach(id, base.subs(conns[id].subscribed));
        }
      case PUBLISH => PublishTo(id, a[1], a[2]);
      case BGREWRITEAOF => Reply(id, REWRITE_STARTED);
    }

    /** `CommandTable::dispatch` and the logging rule, for every command but EXEC in a transaction. */
    method Execute(id: Id, a: Command)
      requires Ready() && id in conns
      modifies this`view, this`env, this`log, this`readings, registry, database.Repr, set i | i in conns :: conns[i]
      ensures Ready() && view == Direct(env, clock, old(view), id, a)
      ensures AgreeBelow(old(env), env, |old(view).history|) && fresh(database.Repr - old(database.Repr))
    {
      hide ServerLoop.Holds, Executor.Levels, SameBase, Dispatch, Direct, SpecialOf, SpecialFits, Say, Iterates, Related, ModesOf, Upper, AgreeBelow, Control;
      AgreeSelf(env, |view.history|);
      ghost var s, e := view, env;
      if a == [] {
        DirectNothing(env, clock, view, id);
        return;
      }
      var c := SpecialOf(a[0]);
      if c.None? {
        ExecuteDb(id, a);
        SubsIterate(e, env);
      } else if !SpecialFits(c.value, |a|) {
        WrongFits(env, clock, view, id, a);
        Reply(id, WrongNumber(Upper(a[0])));
      } else if Control(a) {
        Transaction(id, a);
      } else {
        Special(id, a);
      }
      DirectMoves(env, clock, s.db, s, id, a);
      MovedRelated(env, clock, s.db, s, view, id, LocalDirect(s.conns[id].mode, a), ForDb([a]));
    }

    /** The EXEC handler of a connection in a transaction. */
    method RunTransaction(id: Id)
      requires Ready() && id in conns && conns[id].txn.Some?
      modifies this`view, this`env, this`log, this`readings, registry, database.Repr, set i | i in conns :: conns[i]
      ensures Ready()
      ensures var queue := old(view).conns[id].mode.txn.value;
              var s := RunQueue(env, clock, Head(old(view), id, |queue|), id, queue);
              view == SetMode(s, id, s.conns[id].mode.(txn := None))
      ensures AgreeBelow(old(env), env, |old(view).history|) && fresh(database.Repr - old(database.Repr))
    {
      hide ServerLoop.Holds, Executor.Levels, SameBase, Tied, Apart, Iterates, Related, ModesOf, SetMode, Digits, AgreeBelow, RunQueue;
      TiedAt(id);
      var queue := conns[id].txn.value;
      ghost var s := view;
      WriteHead(id, |queue|);
      HeadMoved(env, clock, s.db, s, id, |queue|);
      MovedRelated(env, clock, s.db, s, view, id, s.conns[id].mode, []);
      RunAll(id, queue);
      SetTxnMoved(env, clock, view.db, view, id);
      ghost var m := view.conns[id].mode.(txn := None);
      MovedRelated(env, clock, view.db, view, SetMode(view, id, m), id, m, []);
      SetTxn(id, None);
    }

    /** The loop over the queue.  Later calls find out nothing about earlier ones, so what has been run stays as it is. */
    method RunAll(id: Id, queue: seq<Command>)
      requires Ready() && id in conns
      modifies this`view, this`env, this`log, this`readings, registry, database.Repr, set i | i in conns :: conns[i]
      ensures Ready() && view == RunQueue(env, clock, old(view), id, queue)
      ensures AgreeBelow(old(env), env, |old(view).history|) && fresh(database.Repr - old(database.Repr))
    {
      hide ServerLoop.Valid, Iterates, Related, ModesOf, Direct, AgreeBelow, RunQueue;
      SameKeys();
      ghost var start := view;
      AgreeSelf(env, |view.history|);
      QueueNone(env, clock, view, id);
      assert queue[..0] == [];
      var i := 0;
      while i < |queue|
        invariant 0 <= i <= |queue| && Ready() && fresh(database.Repr - old(database.Repr))
        invariant view == RunQueue(env, clock, start, id, queue[..i])
        invariant AgreeBelow(old(env), env, |start.history|) && conns == old(conns) && id in start.conns
      {
        SameKeys();
        ghost var e := env;
        Execute(id, queue[i]);
        QueueStep(old(env), e, env, clock, start, id, queue, i);
        i := i + 1;
      }
      assert queue[..i] == queue;
    }

    lemma TiedAt(id: Id)
      requires Valid() && id in conns
      ensures id in view.conns && conns[id].Value() == view.conns[id]
    {
      hide ServerLoop.Holds, Executor.Levels, SameBase, Apart;
    }

    lemma SameKeys()
      requires Valid()
      ensures conns.Keys == view.conns.Keys && Detached()
    {
      hide ServerLoop.Holds, Executor.Levels, SameBase, Tied, Apart;
    }

    method WriteHead(id: Id, n: nat)
      requires Valid() && id in conns
      modifies this`view, conns[id]
      ensures Valid() && view == Head(old(view), id, n)
    {
      hide ServerLoop.Holds, Executor.Levels, SameBase, Serialize;
      conns[id].out := conns[id].out + "*" + Digits(n) + CRLF;
      view := Head(view, id, n);
    }

    /** One parsed command. */
    method Handle(id: Id, a: Command)
      requires Ready() && id in conns
      modifies this`view, this`env, this`log, this`readings, registry, database.Repr, set i | i in conns :: conns[i]
      ensures Ready() && view == Servers.Receive(env, clock, old(view), id, a)
      ensures AgreeBelow(old(env), env, |old(view).history|) && fresh(database.Repr - old(database.Repr))
    {
      hide ServerLoop.Holds, Executor.Levels, SameBase, Iterates, Related, ModesOf, Servers.Receive, AgreeBelow;
      ghost var s := view;
      Branch(id, a);
      ReceiveMoves(env, clock, s.db, s, id, a);
      MovedRelated(env, clock, s.db, s, view, id, LocalStep(s.conns[id].mode, a), Block(s.conns[id].mode, a));
    }

    /** Gate, queuing, EXEC and dispatch, in this order. */
    method Branch(id: Id, a: Command)
      requires Ready() && id in conns
      modifies this`view, this`env, this`log, this`readings, registry, database.Repr, set i | i in conns :: conns[i]
      ensures Valid() && Iterates(env) && view == Servers.Receive(env, clock, old(view), id, a)
      ensures AgreeBelow(old(env), env, |old(view).history|) && fresh(database.Repr - old(database.Repr))
    {
      hide ServerLoop.Holds, Executor.Levels, SameBase, Iterates, Related, ModesOf, Direct, SetMode, RunQueue, Say, Head, Control;
      hide AllowedWhileSubscribed, SpecialOf, AgreeBelow, Servers.Receive, Refusal;
      AgreeSelf(env, |view.history|);
      ghost var s := view;
      var conn := conns[id];
      if a == [] {
      } else if conn.subscribed != {} && !AllowedWhileSubscribed(a) {
        Reply(id, Refusal(a[0]));
      } else if conn.txn.Some? && !Control(a) {
        SetTxn(id, Some(conn.txn.value + [a]));
        Reply(id, Simple("QUEUED"));
      } else if SpecialOf(a[0]) == Some(EXEC) && |a| == 1 && conn.txn.Some? {
        RunTransaction(id);
      } else {
        Execute(id, a);
      }
      ReceiveCases(env, clock, s, id, a);
    }

    // ---------- the events of the run ----------

    /** The objects hold the last state of a run of the connection state machine. */
    ghost predicate Running()
      reads this, registry, database, database.Repr, set i | i in conns :: conns[i]
    {
      Valid() && Iterates(env) && IsRun(env, clock, loaded, states, events) && states[|events|] == view
    }

    /** The loop starts as a run, whatever database object it was given. */
    lemma StartsRunning()
      requires Valid() && Iterates(env) && view == Start(loaded) && states == [view] && events == []
      ensures Running()
    {
      hide Iterates, Database.Valid, HashProofs.Good, Tied, Apart, Executor.Levels, SameBase;
      ViewAgreed(database.State());
    }

    lemma RunningReady()
      requires Running()
      ensures Ready()
    {
      hide ServerLoop.Valid, Iterates, Related, ModesOf, ModesOk, Serial, Goes;
      RunInv(env, clock, loaded, states, events, |events|);
    }

    /** The run goes on with event `e`, which has led from `s` to the present view. */
    ghost method Record(before: Env, s: Server, e: Event)
      requires Valid() && Iterates(before) && Iterates(env) && IsRun(before, clock, loaded, states, events)
      requires states[|events|] == s && Enabled(clock, s, e) && view == Step(env, clock, s, e)
      requires AgreeBelow(before, env, |s.history|)
      modifies this`states, this`events
      ensures Running() && events == old(events) + [e] && states == old(states) + [view]
    {
      hide ServerLoop.Holds, Executor.Levels, SameBase, Tied, Apart, Iterates, AgreeBelow, Step, Enabled, Goes;
      RunLocal(before, env, clock, loaded, states, events);
      Locality.RunSnoc(env, clock, loaded, states, events, e);
      states, events := states + [view], events + [e];
    }

    /** A parsed command of an open connection. */
    method Receive(id: Id, a: Command)
      requires Running() && id in conns
      modifies this`view, this`env, this`log, this`readings, this`states, this`events
      modifies registry, database.Repr, set i | i in conns :: conns[i]
      ensures Running() && events == old(events) + [Arrive(id, a)] && fresh(database.Repr - old(database.Repr))
      ensures view == Step(env, clock, old(view), Arrive(id, a))
    {
      hide ServerLoop.Valid, Iterates, AgreeBelow, Related, ModesOf, Servers.Receive, Goes;
      RunningReady();
      SameKeys();
      ghost var s, e := view, env;
      Handle(id, a);
      Record(e, s, Arrive(id, a));
    }

    /** The timer: the database object deletes what its heap gives up, at most 200 keys. */
    method Expire()
      requires Running()
      modifies this`view, this`readings, this`states, this`events, database.Repr
      ensures Running() && fresh(database.Repr - old(database.Repr))
      ensures exists gone ::
                && events == old(events) + [Tick(gone)] && Handlers.SweptFrom(old(view).db, clock(old(readings)), 200, gone)
                && view.db == old(view).db - gone
    {
      hide ServerLoop.Valid, Iterates, AgreeBelow, Goes, Servers.Sweepable, Handlers.SweptFrom;
      SameKeys();
      AgreeSelf(env, |view.history|);
      ghost var s := view;
      ghost var gone := Sweep();
      Record(env, s, Tick(gone));
    }

    method Sweep() returns (ghost gone: set<Bytes>)
      requires Valid()
      modifies this`view, this`readings, database.Repr
      ensures Valid() && fresh(database.Repr - old(database.Repr))
      ensures Enabled(clock, old(view), Tick(gone)) && view == Step(env, clock, old(view), Tick(gone))
      ensures Handlers.SweptFrom(old(view).db, clock(old(readings)), 200, gone)
    {
      hide Executor.Levels, SameBase, Timed.Agree, Database.Valid, HashProofs.Good, Handlers.View, Tied, Apart;
      gone := Handlers.ActiveExpire(database, clock(readings), 200);
      readings := readings + 1;
      view := view.(db := view.db - gone, history := view.history + [Swept(gone)]);
    }

    method Accept(id: Id)
      requires Running() && id !in conns
      modifies this`view, this`conns, this`states, this`events
      ensures Running() && events == old(events) + [Connect(id)] && id in conns
      ensures view == Step(env, clock, old(view), Connect(id))
    {
      hide ServerLoop.Valid, Iterates, AgreeBelow, Goes;
      SameKeys();
      AgreeSelf(env, |view.history|);
      ghost var s := view;
      Open(id);
      Record(env, s, Connect(id));
    }

    method Open(id: Id)
      requires Valid() && id !in conns
      modifies this`view, this`conns
      ensures Valid() && id in conns && view == Step(env, clock, old(view), Connect(id))
    {
      hide ServerLoop.Holds, Executor.Levels, SameBase;
      view := view.(conns := view.conns[id := Conn(Mode(None, {}), [])]);
      var conn := new Connection();
      conns := conns[id := conn];
    }

    method Drop(id: Id)
      requires Running() && id in conns
      modifies this`view, this`conns, this`states, this`events, registry, conns[id]
      ensures Running() && events == old(events) + [Close(id)] && id !in conns
      ensures view == Step(env, clock, old(view), Close(id))
    {
      hide ServerLoop.Valid, Iterates, AgreeBelow, Goes, LeaveAll;
      SameKeys();
      AgreeSelf(env, |view.history|);
      ghost var s := view;
      Shut(id);
      Record(env, s, Close(id));
    }

    method Shut(id: Id)
      requires Valid() && id in conns
      modifies this`view, this`conns, registry, conns[id]
      ensures Valid() && id !in conns && view == Step(env, clock, old(view), Close(id))
    {
      hide ServerLoop.Holds, Executor.Levels, SameBase, LeaveAll;
      registry.RemoveConnection(id, conns[id]);
      conns := conns - {id};
      view := view.(conns := view.conns - {id}, channels := LeaveAll(view.channels, id, view.conns[id].mode.subscribed));
    }

    /** What holds of the objects at any time: the database object holds the serial run of what the clients sent, with
        every EXEC contiguous and no tick inside, and the log is its writes. */
    lemma Meaning()
      requires Running()
      ensures var h := Spelled(events);
              && database.Valid() && Handlers.View(database) == RunDone(env, clock, loaded, h)
              && log == Writes(Cmds(h)) && AllPossible(env, clock, loaded, h) && Timed.Agree(database.State())
    {
      hide Iterates, Goes, Database.Valid, HashProofs.Good, Timed.Agree, Handlers.View, RunDone, Spelled, Writes, Cmds, AllPossible, Tied, Apart;
      SerialHistory(env, clock, loaded, states, events, |events|);
      assert events[..|events|] == events;
    }
  }
}
