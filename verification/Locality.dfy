/** What a step of the server can know of its environment: only the oracles of the calls it makes.  Hence an
    environment that is found out call by call stands for the whole run. */
module Locality {
  import opened Text
  import opened Resp
  import opened Replies
  import opened SortedPairs
  import opened Objects
  import opened Commands
  import opened Executor
  import opened Servers
  import opened ServerProofs
  import opened Snapshots
  import Skiplists
  import ZSets

  /** Equal in everything that one call can look at. */
  ghost predicate SameCall(e: Env, f: Env) {
    && e.call == f.call && e.parseScore == f.parseScore && e.printScore == f.printScore
    && (forall s :: e.order(e.call, s) == f.order(e.call, s))
    && (forall d, cursor, count :: e.scan(e.call, d, cursor, count) == f.scan(e.call, d, cursor, count))
    && (forall a :: e.info(e.call, a) == f.info(e.call, a))
  }

  lemma {:induction false} PairsLocal(e: Env, f: Env, a: seq<Bytes>)
    requires SameCall(e, f)
    ensures ScorePairs(e, a) == ScorePairs(f, a)
    decreases |a|
  {
    if |a| >= 2 { PairsLocal(e, f, a[2..]); }
  }

  lemma {:induction false} PairRepliesLocal(e: Env, f: Env, ps: seq<Pair>, withScores: bool)
    requires SameCall(e, f)
    ensures PairReplies(e, ps, withScores) == PairReplies(f, ps, withScores)
    decreases |ps|
  {
    if ps != [] { PairRepliesLocal(e, f, ps[1..], withScores); }
  }

  lemma ZSetLocal(e: Env, f: Env, c: Name, z: ZSets.Dict, a: Command)
    requires SameCall(e, f) && c in {ZCARD, ZSCORE, ZRANK, ZRANGE} && Fits(c, |a|)
    ensures ReadZSet(e, c, z, a) == ReadZSet(f, c, z, a)
  {
    hide PairReplies, RankIn, OrderOf, Skiplists.Slice, Atoi;
    if c == ZRANGE {
      PairRepliesLocal(e, f, Skiplists.Slice(OrderOf(z), Atoi(a[2]), Atoi(a[3])), |a| == 5);
    }
  }

  lemma ReadLocal(e: Env, f: Env, c: Name, d: DB, a: Command)
    requires SameCall(e, f) && Reader(c) && Fits(c, |a|)
    ensures ReadOne(e, c, d, a) == ReadOne(f, c, d, a)
  {
    hide Bulks, FieldReplies, ReadZSet, Skiplists.Slice, Atoi, WRONGTYPE, AsString;
    if a[1] in d && d[a[1]].value.ZSet? && c in {ZCARD, ZSCORE, ZRANK, ZRANGE} {
      ZSetLocal(e, f, c, d[a[1]].value.scores, a);
    }
  }

  lemma ZAddLocal(e: Env, f: Env, db: DB, now: int, a: Command)
    requires SameCall(e, f) && |a| >= 4
    ensures ZAdd(e, db, now, a) == ZAdd(f, db, now, a)
  {
    hide ScorePairs, ZSets.AddAll, Touch, Store, SameCall;
    PairsLocal(e, f, a[2..]);
  }

  lemma ScanLocal(e: Env, f: Env, now: int, db: DB, a: Command)
    requires SameCall(e, f) && |a| >= 2
    ensures ScanOutcome(e, now, db, a) == ScanOutcome(f, now, db, a)
  {
    hide ScanArgs, TouchAll, Shown, Bulks;
  }

  lemma ExecLocal(e: Env, f: Env, now: int, db: DB, c: Name, a: Command)
    requires SameCall(e, f) && Fits(c, |a|)
    ensures Exec(e, now, db, c, a) == Exec(f, now, db, c, a)
  {
    hide Exec, Fits, ReadOne, ZAdd, ScanOutcome, PushList, PopList, HSet, HDel, SAdd, SRem, ZRem, ExpireAt, TimeLeft;
    hide Touch, TouchAll, CountLive, Bulks, CreateString, Words, Upper;
    if KeysCommand(c) {
      KeysExec(e, now, db, c, a);
      KeysExec(f, now, db, c, a);
      ServerExec(e, now, db, c, a);
      ServerExec(f, now, db, c, a);
      if c == SCAN { ScanLocal(e, f, now, db, a); }
    } else if ContainerCommand(c) {
      ContainersExec(e, now, db, c, a);
      ContainersExec(f, now, db, c, a);
      TimesExec(e, now, db, c, a);
      TimesExec(f, now, db, c, a);
      if c == ZADD { ZAddLocal(e, f, db, now, a); }
    } else {
      ThreeKinds(c);
      ReadersExec(e, now, db, c, a);
      ReadersExec(f, now, db, c, a);
      ReadLocal(e, f, c, Touch(db, now, a[1]), a);
    }
  }

  lemma DispatchLocal(e: Env, f: Env, now: int, db: DB, a: Command)
    requires SameCall(e, f) && a != []
    ensures Dispatch(e, now, db, a) == Dispatch(f, now, db, a)
  {
    hide SameCall, Exec, NameOf, Fits;
    var c := NameOf(a[0]);
    if c.Some? && Fits(c.value, |a|) { ExecLocal(e, f, now, db, c.value, a); }
  }

  // ---------- along a run ----------

  /** Equal for all calls before number `n`, and in the order of channels. */
  ghost predicate AgreeBelow(e: Env, f: Env, n: nat) {
    e.subs == f.subs && forall i :: 0 <= i < n ==> SameCall(At(e, i), At(f, i))
  }

  lemma DirectLocal(e: Env, f: Env, clock: nat -> int, s: Server, id: Id, a: Command)
    requires id in s.conns && AgreeBelow(e, f, |Direct(e, clock, s, id, a).history|)
    ensures Direct(e, clock, s, id, a) == Direct(f, clock, s, id, a)
  {
    hide Dispatch, SpecialOf, Say, SubscribeAll, UnsubscribeAll, Publish, SameCall, IsWriteCommand, SetMode;
    if a != [] && SpecialOf(a[0]).None? {
      var n := |s.history|;
      DbHistory(e, clock, s, id, a);
      assert SameCall(At(e, n), At(f, n));
      DispatchLocal(At(e, n), At(f, n), clock(n), s.db, a);
    }
  }

  lemma DbHistory(env: Env, clock: nat -> int, s: Server, id: Id, a: Command)
    requires id in s.conns && a != [] && SpecialOf(a[0]).None?
    ensures Direct(env, clock, s, id, a).history == s.history + [Ran(a)]
  {
    hide Dispatch, SpecialOf, Serialize, IsWriteCommand;
  }

  /** A dispatch never shortens the history. */
  lemma DirectGrows(env: Env, clock: nat -> int, s: Server, id: Id, a: Command)
    requires id in s.conns && Iterates(env)
    ensures |Direct(env, clock, s, id, a).history| >= |s.history|
  {
    hide Direct, ModesOf, Related, Serial, Iterates, LocalDirect;
    DirectMoves(env, clock, s.db, s, id, a);
  }

  lemma {:induction false} QueueGrows(env: Env, clock: nat -> int, s: Server, id: Id, queue: seq<Command>)
    requires id in s.conns && Iterates(env)
    ensures |RunQueue(env, clock, s, id, queue).history| >= |s.history|
    decreases |queue|
  {
    hide Direct, Iterates;
    if queue != [] {
      DirectGrows(env, clock, s, id, queue[0]);
      QueueGrows(env, clock, Direct(env, clock, s, id, queue[0]), id, queue[1..]);
    }
  }

  lemma AgreeLess(e: Env, f: Env, n: nat, m: nat)
    requires AgreeBelow(e, f, n) && m <= n
    ensures AgreeBelow(e, f, m)
  {
    hide SameCall;
  }

  lemma {:induction false} QueueLocal(e: Env, f: Env, clock: nat -> int, s: Server, id: Id, queue: seq<Command>)
    requires id in s.conns && Iterates(e) && AgreeBelow(e, f, |RunQueue(e, clock, s, id, queue).history|)
    ensures RunQueue(e, clock, s, id, queue) == RunQueue(f, clock, s, id, queue)
    decreases |queue|
  {
    hide Direct, Iterates, AgreeBelow;
    if queue != [] {
      var t := Direct(e, clock, s, id, queue[0]);
      QueueGrows(e, clock, t, id, queue[1..]);
      AgreeLess(e, f, |RunQueue(e, clock, s, id, queue).history|, |t.history|);
      DirectLocal(e, f, clock, s, id, queue[0]);
      QueueLocal(e, f, clock, t, id, queue[1..]);
    }
  }

  lemma {:induction false} QueueSnoc(env: Env, clock: nat -> int, s: Server, id: Id, queue: seq<Command>, a: Command)
    requires id in s.conns
    ensures RunQueue(env, clock, s, id, queue + [a]) == Direct(env, clock, RunQueue(env, clock, s, id, queue), id, a)
    decreases |queue|
  {
    hide Direct;
    if queue == [] {
      assert queue + [a] == [a] && [a][1..] == [];
    } else {
      assert (queue + [a])[1..] == queue[1..] + [a];
      QueueSnoc(env, clock, Direct(env, clock, s, id, queue[0]), id, queue[1..], a);
    }
  }

  lemma ReceiveLocal(e: Env, f: Env, clock: nat -> int, s: Server, id: Id, a: Command)
    requires id in s.conns && Iterates(e) && AgreeBelow(e, f, |Receive(e, clock, s, id, a).history|)
    ensures Receive(e, clock, s, id, a) == Receive(f, clock, s, id, a)
  {
    hide Direct, Iterates, AgreeBelow, RunQueue, SpecialOf, Control, AllowedWhileSubscribed, Say, Digits;
    var m := s.conns[id].mode;
    if a == [] || Gated(m, a) || (m.txn.Some? && !Control(a)) {
    } else if RunsQueue(m, a) {
      QueueLocal(e, f, clock, Head(s, id, |m.txn.value|), id, m.txn.value);
    } else {
      DirectLocal(e, f, clock, s, id, a);
    }
  }

  lemma StepLocal(e: Env, f: Env, clock: nat -> int, s: Server, ev: Event)
    requires Enabled(clock, s, ev) && Iterates(e) && AgreeBelow(e, f, |Step(e, clock, s, ev).history|)
    ensures Step(e, clock, s, ev) == Step(f, clock, s, ev)
  {
    hide Receive, Iterates, AgreeBelow, LeaveAll, Sweepable;
    if ev.Arrive? { ReceiveLocal(e, f, clock, s, ev.id, ev.cmd); }
  }

  lemma StepGrows(env: Env, clock: nat -> int, s: Server, ev: Event)
    requires Enabled(clock, s, ev) && Iterates(env)
    ensures |Step(env, clock, s, ev).history| >= |s.history|
  {
    hide Step, Iterates, Block, Sweepable;
    StepHistory(env, clock, s, ev);
  }

  lemma {:induction false} RunGrows(env: Env, clock: nat -> int, db: DB, states: seq<Server>, events: seq<Event>, i: nat, j: nat)
    requires IsRun(env, clock, db, states, events) && Iterates(env) && i <= j <= |events|
    ensures |states[i].history| <= |states[j].history|
    decreases j - i
  {
    hide Step, Enabled, Iterates;
    if i < j {
      RunGrows(env, clock, db, states, events, i, j - 1);
      assert Goes(env, clock, states, events, j - 1);
      StepGrows(env, clock, states[j - 1], events[j - 1]);
    }
  }

  /** A run stays a run when the environment changes only in calls that have not been made yet. */
  lemma RunLocal(e: Env, f: Env, clock: nat -> int, db: DB, states: seq<Server>, events: seq<Event>)
    requires IsRun(e, clock, db, states, events) && Iterates(e) && AgreeBelow(e, f, |states[|events|].history|)
    ensures IsRun(f, clock, db, states, events)
  {
    hide Step, Enabled, Iterates, AgreeBelow;
    forall i | 0 <= i < |events|
      ensures Goes(f, clock, states, events, i)
    {
      assert Goes(e, clock, states, events, i);
      RunGrows(e, clock, db, states, events, i + 1, |events|);
      AgreeLess(e, f, |states[|events|].history|, |states[i + 1].history|);
      StepLocal(e, f, clock, states[i], events[i]);
    }
  }

  /** One more event. */
  lemma RunSnoc(env: Env, clock: nat -> int, db: DB, states: seq<Server>, events: seq<Event>, e: Event)
    requires IsRun(env, clock, db, states, events) && Enabled(clock, states[|events|], e)
    ensures IsRun(env, clock, db, states + [Step(env, clock, states[|events|], e)], events + [e])
  {
    hide Step, Enabled;
    var states', events' := states + [Step(env, clock, states[|events|], e)], events + [e];
    forall i | 0 <= i < |events'|
      ensures Goes(env, clock, states', events', i)
    {
      if i < |events| { assert Goes(env, clock, states, events, i); }
    }
  }

  // ---------- finding out ----------

  /** What has been found out in call `n` becomes part of the environment. */
  ghost function Learned(env: Env, seen: Env, n: nat): Env {
    env.(order := (c: nat, s: set<Bytes>) => if c == n then seen.order(n, s) else env.order(c, s),
         scan := (c: nat, d: DB, cursor: nat, count: nat) =>
           if c == n then seen.scan(n, d, cursor, count) else env.scan(c, d, cursor, count))
  }

  /** Equal in all that does not depend on what a call finds out. */
  ghost predicate SameBase(base: Env, env: Env) {
    env.parseScore == base.parseScore && env.printScore == base.printScore && env.info == base.info && env.subs == base.subs
  }

  lemma LearnedLaw(base: Env, env: Env, seen: Env, n: nat)
    requires SameBase(base, env) && Found(At(base, n), seen)
    ensures SameBase(base, Learned(env, seen, n)) && AgreeBelow(env, Learned(env, seen, n), n)
    ensures SameCall(seen, At(Learned(env, seen, n), n))
  {
  }

  lemma AgreeSelf(env: Env, n: nat)
    ensures AgreeBelow(env, env, n)
  {
  }

  lemma AgreeTwice(e: Env, f: Env, g: Env, n: nat)
    requires AgreeBelow(e, f, n) && AgreeBelow(f, g, n)
    ensures AgreeBelow(e, g, n)
  {
    forall i | 0 <= i < n
      ensures SameCall(At(e, i), At(g, i))
    {
      assert SameCall(At(e, i), At(f, i)) && SameCall(At(f, i), At(g, i));
    }
  }

  /** Replaying commands, too, depends only on the calls made. */
  lemma {:induction false} ReplayLocal(e: Env, f: Env, clock: nat -> int, db: DB, cmds: seq<Command>)
    requires AgreeBelow(e, f, |cmds|)
    ensures RunAt(e, clock, db, cmds) == RunAt(f, clock, db, cmds)
    decreases |cmds|
  {
    hide Dispatch, SameCall;
    if cmds != [] {
      var n := |cmds| - 1;
      ReplayLocal(e, f, clock, db, cmds[..n]);
      if cmds[n] != [] { DispatchLocal(At(e, n), At(f, n), clock(n), RunAt(e, clock, db, cmds[..n]), cmds[n]); }
    }
  }
}
