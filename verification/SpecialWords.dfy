/** The words of the commands outside the table, the subscriber gate and the transaction queue: what a connection's mode
    becomes and the bytes it is sent. */
module SpecialWords {
  import opened Text
  import opened Resp
  import opened Replies
  import opened Commands
  import opened Servers
  import opened ServerProofs
  import opened WordLaws

  function SpecialSpelling(c: Special): Bytes {
    match c
    case MULTI => "MULTI"
    case EXEC => "EXEC"
    case DISCARD => "DISCARD"
    case SUBSCRIBE => "SUBSCRIBE"
    case UNSUBSCRIBE => "UNSUBSCRIBE"
    case PUBLISH => "PUBLISH"
    case BGREWRITEAOF => "BGREWRITEAOF"
  }

  /** A word means a special command exactly when it spells its name. */
  lemma SpecialIff(w: Bytes, c: Special)
    ensures SpecialOf(w) == Some(c) <==> Spells(w, SpecialSpelling(c))
  {
    hide Upper, Spells;
    SpecialUpper(c);
    SpellsIff(w, SpecialSpelling(c));
  }

  lemma SpecialUpper(c: Special)
    ensures NoLower(SpecialSpelling(c))
  {
    match c
    case _ =>
  }

  /** Connection `id` in mode `m`, with `bytes` sent to it; nothing else changes. */
  function Sent(s: Server, id: Id, m: Mode, bytes: Bytes): Server
    requires id in s.conns
  {
    s.(conns := s.conns[id := Conn(m, s.conns[id].out + bytes)])
  }

  lemma SaidIsSent(s: Server, id: Id, m: Mode, r: Reply)
    requires id in s.conns
    ensures Say(SetMode(s, id, m), id, r) == Sent(s, id, m, Serialize(r))
    ensures Say(s, id, r) == Sent(s, id, s.conns[id].mode, Serialize(r))
  {
    hide Serialize;
    var c := Conn(m, s.conns[id].out + Serialize(r));
    assert s.conns[id := s.conns[id].(mode := m)][id := c] == s.conns[id := c];
  }

  lemma SimpleBytes()
    ensures Serialize(OK) == "+OK\r\n" && Serialize(Simple("QUEUED")) == "+QUEUED\r\n"
  {
  }

  // ---------- gate and queue ----------

  lemma NothingSent(env: Env, clock: nat -> int, s: Server, id: Id)
    requires id in s.conns
    ensures Receive(env, clock, s, id, []) == s
  {
  }

  /** A subscriber may send SUBSCRIBE, UNSUBSCRIBE, PING and QUIT only. */
  lemma SubscriberRefused(env: Env, clock: nat -> int, s: Server, id: Id, a: Command)
    requires id in s.conns && a != [] && s.conns[id].mode.subscribed != {}
    requires !Spells(a[0], "SUBSCRIBE") && !Spells(a[0], "UNSUBSCRIBE") && !Spells(a[0], "PING") && !Spells(a[0], "QUIT")
    ensures Receive(env, clock, s, id, a) ==
            Sent(s, id, s.conns[id].mode, "-" + ("ERR Can't execute '" + a[0]
              + "': only (P)SUBSCRIBE / (P)UNSUBSCRIBE / PING / QUIT are allowed in this context") + "\r\n")
  {
    hide Upper, Spells, SpecialOf, Control, RunQueue, Direct;
    SpecialIff(a[0], SUBSCRIBE);
    SpecialIff(a[0], UNSUBSCRIBE);
    SpellsIff(a[0], "PING");
    SpellsIff(a[0], "QUIT");
  }

  /** Inside MULTI every command but MULTI, EXEC and DISCARD is queued, known or not, and runs nothing. */
  lemma Queued(env: Env, clock: nat -> int, s: Server, id: Id, a: Command)
    requires id in s.conns && a != [] && s.conns[id].mode.subscribed == {} && s.conns[id].mode.txn.Some?
    requires !Spells(a[0], "MULTI") && !Spells(a[0], "EXEC") && !Spells(a[0], "DISCARD")
    ensures Receive(env, clock, s, id, a) ==
            Sent(s, id, Mode(Some(s.conns[id].mode.txn.value + [a]), {}), "+QUEUED\r\n")
  {
    hide Upper, Spells, SpecialOf, RunQueue, Direct;
    SpecialIff(a[0], MULTI);
    SpecialIff(a[0], EXEC);
    SpecialIff(a[0], DISCARD);
    hide Say, SetMode, Serialize, Sent;
    SimpleBytes();
    SaidIsSent(s, id, Mode(Some(s.conns[id].mode.txn.value + [a]), {}), Simple("QUEUED"));
  }

  // ---------- transactions ----------

  lemma MultiWord(env: Env, clock: nat -> int, s: Server, id: Id, w: Bytes)
    requires id in s.conns && Spells(w, "MULTI") && s.conns[id].mode.subscribed == {}
    ensures var m := s.conns[id].mode;
            Receive(env, clock, s, id, [w]) ==
              if m.txn.None? then Sent(s, id, Mode(Some([]), {}), "+OK\r\n")
              else Sent(s, id, m, "-" + "ERR MULTI calls can not be nested" + "\r\n")
  {
    hide Upper, Spells, SpecialOf, RunQueue, Dispatch;
    SpecialIff(w, MULTI);
    hide Say, SetMode, Sent;
    SimpleBytes();
    SaidIsSent(s, id, Mode(Some([]), {}), OK);
    SaidIsSent(s, id, s.conns[id].mode, Error("ERR MULTI calls can not be nested"));
  }

  lemma DiscardWord(env: Env, clock: nat -> int, s: Server, id: Id, w: Bytes)
    requires id in s.conns && Spells(w, "DISCARD") && s.conns[id].mode.subscribed == {}
    ensures var m := s.conns[id].mode;
            Receive(env, clock, s, id, [w]) ==
              if m.txn.Some? then Sent(s, id, Mode(None, {}), "+OK\r\n")
              else Sent(s, id, m, "-" + "ERR DISCARD without MULTI" + "\r\n")
  {
    hide Upper, Spells, SpecialOf, RunQueue, Dispatch;
    SpecialIff(w, DISCARD);
    hide Say, SetMode, Sent;
    SimpleBytes();
    SaidIsSent(s, id, Mode(None, {}), OK);
    SaidIsSent(s, id, s.conns[id].mode, Error("ERR DISCARD without MULTI"));
  }

  /** EXEC without MULTI is an error; with MULTI it sends the header of an array of as many replies as were queued, runs the
      queue and leaves the transaction. */
  lemma ExecWord(env: Env, clock: nat -> int, s: Server, id: Id, w: Bytes)
    requires id in s.conns && Spells(w, "EXEC") && s.conns[id].mode.subscribed == {}
    ensures var m := s.conns[id].mode;
            var t := Receive(env, clock, s, id, [w]);
            if m.txn.None? then t == Sent(s, id, m, "-" + "ERR EXEC without MULTI" + "\r\n")
            else
              var r := RunQueue(env, clock, Sent(s, id, m, "*" + Digits(|m.txn.value|) + "\r\n"), id, m.txn.value);
              t == Sent(r, id, Mode(None, r.conns[id].mode.subscribed), [])
  {
    hide Upper, Spells, SpecialOf, RunQueue, Dispatch, Digits;
    SpecialIff(w, EXEC);
    var m := s.conns[id].mode;
    if m.txn.Some? {
      HeadSent(s, id, |m.txn.value|);
      hide Head, Sent, SetMode, Direct;
      var r := RunQueue(env, clock, Head(s, id, |m.txn.value|), id, m.txn.value);
      SetModeSent(r, id, Mode(None, r.conns[id].mode.subscribed));
    }
  }

  lemma HeadSent(s: Server, id: Id, n: nat)
    requires id in s.conns
    ensures Head(s, id, n) == Sent(s, id, s.conns[id].mode, "*" + Digits(n) + "\r\n")
  {
    hide Digits;
    assert s.conns[id].out + "*" + Digits(n) + CRLF == s.conns[id].out + ("*" + Digits(n) + "\r\n");
  }

  lemma SetModeSent(s: Server, id: Id, m: Mode)
    requires id in s.conns
    ensures SetMode(s, id, m) == Sent(s, id, m, [])
  {
    assert s.conns[id].out + [] == s.conns[id].out;
  }

  /** A special command with a number of words it may not have. */
  lemma SpecialWrongCount(env: Env, clock: nat -> int, s: Server, id: Id, a: Command, c: Special)
    requires id in s.conns && a != [] && s.conns[id].mode.subscribed == {} && s.conns[id].mode.txn.None?
    requires Spells(a[0], SpecialSpelling(c))
    requires match c
             case SUBSCRIBE => |a| < 2
             case UNSUBSCRIBE => |a| < 1
             case PUBLISH => |a| != 3
             case _ => |a| != 1
    ensures Receive(env, clock, s, id, a) ==
            Sent(s, id, s.conns[id].mode, "-" + ("ERR wrong number of arguments for '" + SpecialSpelling(c) + "' command") + "\r\n")
  {
    hide Upper, Spells, SpecialOf, RunQueue, Dispatch, SpecialSpelling;
    SpecialIff(a[0], c);
    SpecialUpper(c);
    SpellsIff(a[0], SpecialSpelling(c));
  }

  // ---------- pub/sub ----------

  /** The bytes that confirm one change of the subscriptions: kind, channel, and how many subscriptions there are then. */
  function Ack(kind: Bytes, ch: Bytes, n: nat): Bytes {
    "*3\r\n" + ("$" + Digits(|kind|) + "\r\n" + kind + "\r\n") + ("$" + Digits(|ch|) + "\r\n" + ch + "\r\n")
    + (":" + Digits(n) + "\r\n")
  }

  lemma AckBytes(kind: Bytes, ch: Bytes, n: nat)
    ensures Serialize(SubscribeReply(kind, ch, n)) == Ack(kind, ch, n)
  {
    hide Digits;
    ThreeBytes(BulkString(kind), BulkString(ch), Int(n));
  }

  /** The confirmations for `chs` one after the other, by a connection subscribed to `mine`. */
  function JoinAcks(mine: set<Bytes>, chs: seq<Bytes>): Bytes
    decreases |chs|
  {
    if chs == [] then []
    else Ack("subscribe", chs[0], |mine + {chs[0]}|) + JoinAcks(mine + {chs[0]}, chs[1..])
  }

  function LeaveAcks(mine: set<Bytes>, chs: seq<Bytes>): Bytes
    decreases |chs|
  {
    if chs == [] then []
    else Ack("unsubscribe", chs[0], |mine - {chs[0]}|) + LeaveAcks(mine - {chs[0]}, chs[1..])
  }

  /** From `s` to `t` only connection `id` and its place in the channels changed: its mode, the bytes sent to it. */
  ghost predicate Moved(s: Server, t: Server, id: Id, m: Mode, bytes: Bytes)
    requires id in s.conns
  {
    && t.db == s.db && t.history == s.history && t.log == s.log
    && t.conns == s.conns[id := Conn(m, s.conns[id].out + bytes)]
    && forall ch, i :: i != id ==> (i in Members(t.channels, ch) <==> i in Members(s.channels, ch))
  }

  lemma MovedTwice(s: Server, t: Server, u: Server, id: Id, m: Mode, n: Mode, x: Bytes, y: Bytes)
    requires id in s.conns && Moved(s, t, id, m, x) && id in t.conns && Moved(t, u, id, n, y)
    ensures Moved(s, u, id, n, x + y)
  {
    assert s.conns[id].out + x + y == s.conns[id].out + (x + y);
  }

  lemma JoinedMoves(s: Server, id: Id, ch: Bytes)
    requires id in s.conns
    ensures var m, t := s.conns[id].mode, Subscribe(s, id, ch);
            && Moved(s, t, id, Mode(m.txn, m.subscribed + {ch}), Ack("subscribe", ch, |m.subscribed + {ch}|))
            && forall c :: id in Members(t.channels, c) <==> c == ch || id in Members(s.channels, c)
  {
    hide Ack, Serialize, SubscribeReply, Say, SetMode;
    var m := s.conns[id].mode;
    var m' := Mode(m.txn, m.subscribed + {ch});
    var s' := s.(channels := Join(s.channels, id, ch));
    AckBytes("subscribe", ch, |m.subscribed + {ch}|);
    SaidIsSent(s', id, m', SubscribeReply("subscribe", ch, |m'.subscribed|));
  }

  lemma {:induction false} SubscribeAllMoves(s: Server, id: Id, chs: seq<Bytes>)
    requires id in s.conns
    ensures var m, t := s.conns[id].mode, SubscribeAll(s, id, chs);
            && Moved(s, t, id, Mode(m.txn, m.subscribed + Words(chs)), JoinAcks(m.subscribed, chs))
            && forall c :: id in Members(t.channels, c) <==> c in chs || id in Members(s.channels, c)
    decreases |chs|
  {
    hide Subscribe, Ack, Members, Moved, Words;
    var m := s.conns[id].mode;
    if chs == [] {
      MovedNone(s, id);
      NoChannels(m.subscribed);
    } else {
      var c0, rest := chs[0], chs[1..];
      var t, m' := Subscribe(s, id, c0), Mode(m.txn, m.subscribed + {c0});
      JoinedMoves(s, id, c0);
      MovedMode(s, t, id, m', Ack("subscribe", c0, |m'.subscribed|));
      SubscribeAllMoves(t, id, rest);
      MovedTwice(s, t, SubscribeAll(t, id, rest), id, m', Mode(m.txn, m'.subscribed + Words(rest)),
                 Ack("subscribe", c0, |m'.subscribed|), JoinAcks(m'.subscribed, rest));
      WordsCons(chs);
      assert m.subscribed + {c0} + Words(rest) == m.subscribed + Words(chs);
      assert chs == [c0] + rest;
    }
  }

  lemma NoChannels(mine: set<Bytes>)
    ensures mine + Words([]) == mine && mine - Words([]) == mine
  {
  }

  lemma MovedNone(s: Server, id: Id)
    requires id in s.conns
    ensures Moved(s, s, id, s.conns[id].mode, [])
  {
    assert s.conns[id].out + [] == s.conns[id].out;
  }

  lemma MovedMode(s: Server, t: Server, id: Id, m: Mode, bytes: Bytes)
    requires id in s.conns && Moved(s, t, id, m, bytes)
    ensures id in t.conns && t.conns[id].mode == m
  {
  }

  lemma LeftMoves(s: Server, id: Id, ch: Bytes)
    requires id in s.conns
    ensures var m, t := s.conns[id].mode, Unsubscribe(s, id, ch);
            && Moved(s, t, id, Mode(m.txn, m.subscribed - {ch}), Ack("unsubscribe", ch, |m.subscribed - {ch}|))
            && forall c :: id in Members(t.channels, c) <==> c != ch && id in Members(s.channels, c)
  {
    hide Ack, Serialize, SubscribeReply, Say, SetMode;
    var m := s.conns[id].mode;
    var m' := Mode(m.txn, m.subscribed - {ch});
    var s' := s.(channels := Leave(s.channels, id, ch));
    AckBytes("unsubscribe", ch, |m.subscribed - {ch}|);
    SaidIsSent(s', id, m', SubscribeReply("unsubscribe", ch, |m'.subscribed|));
  }

  lemma {:induction false} UnsubscribeAllMoves(s: Server, id: Id, chs: seq<Bytes>)
    requires id in s.conns
    ensures var m, t := s.conns[id].mode, UnsubscribeAll(s, id, chs);
            && Moved(s, t, id, Mode(m.txn, m.subscribed - Words(chs)), LeaveAcks(m.subscribed, chs))
            && forall c :: id in Members(t.channels, c) <==> c !in chs && id in Members(s.channels, c)
    decreases |chs|
  {
    hide Unsubscribe, Ack, Members, Moved, Words;
    var m := s.conns[id].mode;
    if chs == [] {
      MovedNone(s, id);
      NoChannels(m.subscribed);
    } else {
      var c0, rest := chs[0], chs[1..];
      var t, m' := Unsubscribe(s, id, c0), Mode(m.txn, m.subscribed - {c0});
      LeftMoves(s, id, c0);
      MovedMode(s, t, id, m', Ack("unsubscribe", c0, |m'.subscribed|));
      UnsubscribeAllMoves(t, id, rest);
      MovedTwice(s, t, UnsubscribeAll(t, id, rest), id, m', Mode(m.txn, m'.subscribed - Words(rest)),
                 Ack("unsubscribe", c0, |m'.subscribed|), LeaveAcks(m'.subscribed, rest));
      WordsCons(chs);
      assert m.subscribed - {c0} - Words(rest) == m.subscribed - Words(chs);
      assert chs == [c0] + rest;
    }
  }

  /** SUBSCRIBE: every channel named is joined and confirmed in turn, also by a subscriber. */
  lemma SubscribeWord(env: Env, clock: nat -> int, s: Server, id: Id, w: Bytes, chs: seq<Bytes>)
    requires id in s.conns && Spells(w, "SUBSCRIBE") && s.conns[id].mode.txn.None? && chs != []
    ensures var m, t := s.conns[id].mode, Receive(env, clock, s, id, [w] + chs);
            && Moved(s, t, id, Mode(None, m.subscribed + Words(chs)), JoinAcks(m.subscribed, chs))
            && forall c :: id in Members(t.channels, c) <==> c in chs || id in Members(s.channels, c)
  {
    hide Spells, Receive, SubscribeAll, Moved, JoinAcks, Members, Words;
    ChannelsReceived(env, clock, s, id, w, chs);
    SubscribeAllMoves(s, id, chs);
  }

  lemma ChannelsReceived(env: Env, clock: nat -> int, s: Server, id: Id, w: Bytes, chs: seq<Bytes>)
    requires id in s.conns && s.conns[id].mode.txn.None? && chs != []
    ensures Spells(w, "SUBSCRIBE") ==> Receive(env, clock, s, id, [w] + chs) == SubscribeAll(s, id, chs)
    ensures Spells(w, "UNSUBSCRIBE") ==> Receive(env, clock, s, id, [w] + chs) == UnsubscribeAll(s, id, chs)
  {
    hide Spells, SpecialOf, Receive, Direct, AllowedWhileSubscribed, SubscribeAll, UnsubscribeAll, Upper;
    SpecialIff(w, SUBSCRIBE);
    SpecialIff(w, UNSUBSCRIBE);
    var a := [w] + chs;
    assert a[0] == w && a[1..] == chs;
    if Spells(w, "SUBSCRIBE") || Spells(w, "UNSUBSCRIBE") {
      ChannelsAllowed(a);
      OutOfMulti(env, clock, s, id, a);
      ChannelsDirect(env, clock, s, id, a, chs);
    }
  }

  lemma ChannelsAllowed(a: Command)
    requires a != [] && (SpecialOf(a[0]) == Some(SUBSCRIBE) || SpecialOf(a[0]) == Some(UNSUBSCRIBE))
    ensures AllowedWhileSubscribed(a)
  {
    hide SpecialOf, Upper;
  }

  lemma OutOfMulti(env: Env, clock: nat -> int, s: Server, id: Id, a: Command)
    requires id in s.conns && a != [] && s.conns[id].mode.txn.None? && AllowedWhileSubscribed(a)
    ensures Receive(env, clock, s, id, a) == Direct(env, clock, s, id, a)
  {
    hide AllowedWhileSubscribed, Control, RunQueue, Direct, SpecialOf;
  }

  lemma ChannelsDirect(env: Env, clock: nat -> int, s: Server, id: Id, a: Command, chs: seq<Bytes>)
    requires id in s.conns && |a| >= 2 && a[1..] == chs
    ensures SpecialOf(a[0]) == Some(SUBSCRIBE) ==> Direct(env, clock, s, id, a) == SubscribeAll(s, id, chs)
    ensures SpecialOf(a[0]) == Some(UNSUBSCRIBE) ==> Direct(env, clock, s, id, a) == UnsubscribeAll(s, id, chs)
  {
    hide SpecialOf, Dispatch, SubscribeAll, UnsubscribeAll, Say, Publish, SetMode;
  }

  /** UNSUBSCRIBE with channels: each is left and confirmed in turn. */
  lemma UnsubscribeWord(env: Env, clock: nat -> int, s: Server, id: Id, w: Bytes, chs: seq<Bytes>)
    requires id in s.conns && Spells(w, "UNSUBSCRIBE") && s.conns[id].mode.txn.None? && chs != []
    ensures var m, t := s.conns[id].mode, Receive(env, clock, s, id, [w] + chs);
            && Moved(s, t, id, Mode(None, m.subscribed - Words(chs)), LeaveAcks(m.subscribed, chs))
            && forall c :: id in Members(t.channels, c) <==> c !in chs && id in Members(s.channels, c)
  {
    hide Spells, Receive, UnsubscribeAll, Moved, LeaveAcks, Members, Words;
    ChannelsReceived(env, clock, s, id, w, chs);
    UnsubscribeAllMoves(s, id, chs);
  }

  /** UNSUBSCRIBE alone leaves every channel, in the order in which they are iterated, or confirms that there is none. */
  lemma UnsubscribeAllWord(env: Env, clock: nat -> int, s: Server, id: Id, w: Bytes)
    requires id in s.conns && Spells(w, "UNSUBSCRIBE") && s.conns[id].mode.txn.None?
    ensures var m, t := s.conns[id].mode, Receive(env, clock, s, id, [w]);
            if m.subscribed == {}
            then t == Sent(s, id, m, "*3\r\n" + ("$" + Digits(|"unsubscribe"|) + "\r\n" + "unsubscribe" + "\r\n") + "$-1\r\n" + ":0\r\n")
            else
              var chs := env.subs(m.subscribed);
              && Moved(s, t, id, Mode(None, m.subscribed - Words(chs)), LeaveAcks(m.subscribed, chs))
              && forall c :: id in Members(t.channels, c) <==> c !in chs && id in Members(s.channels, c)
  {
    hide Upper, Spells, SpecialOf, RunQueue, Dispatch, UnsubscribeAll, Moved, LeaveAcks, Members, Words, Say, Sent, Serialize;
    SpecialIff(w, UNSUBSCRIBE);
    UnsubscribeAllMoves(s, id, env.subs(s.conns[id].mode.subscribed));
    SaidIsSent(s, id, s.conns[id].mode, Array([BulkString("unsubscribe"), Null, Int(0)]));
    NoneLeftBytes();
  }

  lemma NoneLeftBytes()
    ensures Serialize(Array([BulkString("unsubscribe"), Null, Int(0)]))
         == "*3\r\n" + ("$" + Digits(|"unsubscribe"|) + "\r\n" + "unsubscribe" + "\r\n") + "$-1\r\n" + ":0\r\n"
  {
    ThreeBytes(BulkString("unsubscribe"), Null, Int(0));
    assert Serialize(Null) == "$-1\r\n";
    assert Digits(0) == "0";
    assert Serialize(Int(0)) == ":0\r\n";
    assert Serialize(BulkString("unsubscribe")) == "$" + Digits(|"unsubscribe"|) + "\r\n" + "unsubscribe" + "\r\n";
  }

  /** PUBLISH in any case is the PUBLISH of `PublishExact`. */
  lemma PublishWord(env: Env, clock: nat -> int, s: Server, id: Id, w: Bytes, ch: Bytes, msg: Bytes, i: Id)
    requires id in s.conns && i in s.conns && Related(s.channels, ModesOf(s)) && Spells(w, "PUBLISH")
    requires s.conns[id].mode == Mode(None, {})
    ensures var t := Receive(env, clock, s, id, [w, ch, msg]);
            && t.db == s.db && t.history == s.history && t.log == s.log && t.channels == s.channels
            && t.conns.Keys == s.conns.Keys && t.conns[i].mode == s.conns[i].mode
            && t.conns[i].out == s.conns[i].out
               + (if ch in s.conns[i].mode.subscribed then ThreeBulks("message", ch, msg) else [])
               + (if i == id then Number(|set j | j in s.conns && ch in s.conns[j].mode.subscribed|) else [])
  {
    hide Spells, Direct, Related, ModesOf, ThreeBulks, Number;
    PublishReceived(env, clock, s, id, w, ch, msg);
    hide Receive;
    PublishExact(env, clock, s, id, ch, msg, i);
  }

  lemma PublishReceived(env: Env, clock: nat -> int, s: Server, id: Id, w: Bytes, ch: Bytes, msg: Bytes)
    requires id in s.conns && Spells(w, "PUBLISH") && s.conns[id].mode == Mode(None, {})
    ensures Receive(env, clock, s, id, [w, ch, msg]) == Direct(env, clock, s, id, ["PUBLISH", ch, msg])
  {
    hide Upper, Spells, SpecialOf, RunQueue, Dispatch, Say, Publish, Members;
    SpecialIff(w, PUBLISH);
    PublishSpelled();
    SpecialIff("PUBLISH", PUBLISH);
  }

  lemma PublishSpelled()
    ensures Spells("PUBLISH", "PUBLISH")
  {
  }

  lemma RewriteWord(env: Env, clock: nat -> int, s: Server, id: Id, w: Bytes)
    requires id in s.conns && Spells(w, "BGREWRITEAOF") && s.conns[id].mode == Mode(None, {})
    ensures Receive(env, clock, s, id, [w]) ==
            Sent(s, id, Mode(None, {}), "+" + ("Background append only file " + "rewriting started") + "\r\n")
  {
    hide Upper, Spells, SpecialOf, RunQueue, Dispatch;
    SpecialIff(w, BGREWRITEAOF);
    hide Say, Sent;
    SaidIsSent(s, id, Mode(None, {}), REWRITE_STARTED);
  }

  // ---------- commands of the table ----------

  /** Any other word goes to the table: one reply, one entry in the history, and one in the log exactly for the writers. */
  lemma TableWord(env: Env, clock: nat -> int, s: Server, id: Id, a: Command)
    requires id in s.conns && a != [] && s.conns[id].mode == Mode(None, {})
    requires forall c: Special :: !Spells(a[0], SpecialSpelling(c))
    ensures var n := |s.history|;
            var o := Dispatch(At(env, n), clock(n), s.db, a);
            Receive(env, clock, s, id, a) ==
              Sent(s, id, Mode(None, {}), Serialize(o.reply)).(
                db := o.db, history := s.history + [Ran(a)],
                log := if exists c: Name :: Spelling(c) in WRITES && Spells(a[0], Spelling(c)) then s.log + [a] else s.log)
  {
    hide Spells, SpecialOf, SpecialSpelling, Spelling, WRITES, RunQueue, Dispatch, Serialize, IsWriteCommand;
    NotSpecial(a[0]);
    LoggedIff(a[0]);
  }

  lemma NotSpecial(w: Bytes)
    requires forall c: Special :: !Spells(w, SpecialSpelling(c))
    ensures SpecialOf(w).None?
  {
    hide Spells, SpecialOf, SpecialSpelling;
    if SpecialOf(w).Some? {
      SpecialIff(w, SpecialOf(w).value);
    }
  }
}
