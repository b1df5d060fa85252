/** The server and the append-only file together: every dispatched command is a step of the file
    protocol, including a BGREWRITEAOF in the middle of a transaction. */
module Systems {
  import opened Text
  import opened Resp
  import opened Commands
  import opened CommandProofs
  import opened Snapshots
  import opened Servers
  import opened ServerProofs
  import opened WordLaws
  import opened SpecialWords
  import Aof = AofProtocol

  datatype System = System(srv: Server, aof: Aof.State)

  /** An event of the server loop, with the outcomes of the forks it may cause, or a step of the child
      process or of the completion check. */
  datatype Act = Net(e: Event, forkOk: nat -> bool) | File(step: Aof.Step)

  /** What one received command dispatches. */
  ghost function Executed(m: Mode, a: Command): seq<Command> {
    if a == [] || Gated(m, a) || (m.txn.Some? && !Control(a)) then []
    else if RunsQueue(m, a) then m.txn.value
    else [a]
  }

  lemma BlockIsExecuted(m: Mode, a: Command)
    ensures Block(m, a) == ForDb(Executed(m, a))
  {
    hide Gated, Control, RunsQueue, SpecialOf;
    ForDbNone();
  }

  predicate Rewrites(a: Command) {
    a != [] && SpecialOf(a[0]) == Some(BGREWRITEAOF) && |a| == 1
  }

  predicate Stores(a: Command) {
    a != [] && SpecialOf(a[0]).None?
  }

  /** One dispatched command, as the file sees it. */
  ghost function FileOne(env: Env, now: int, x: Aof.State, a: Command, forkOk: bool): Aof.State
    requires Aof.AtRest(x) && (Stores(a) ==> Loggable(a))
  {
    if Stores(a) then Aof.Take(env, x, Aof.Client(now, a))
    else if Rewrites(a) then Aof.Take(env, x, Aof.TriggerRewrite(forkOk))
    else x
  }

  ghost predicate TtlFree(cmds: seq<Command>) {
    forall i :: 0 <= i < |cmds| ==> Stores(cmds[i]) ==> Loggable(cmds[i])
  }

  lemma RestStays(env: Env, now: int, x: Aof.State, a: Command, forkOk: bool)
    requires Aof.AtRest(x) && (Stores(a) ==> Loggable(a))
    ensures var x' := FileOne(env, now, x, a, forkOk);
            && Aof.AtRest(x')
            && x'.db == if Stores(a) then Dispatch(env, now, x.db, a).db else x.db
  {
    hide Stores, Rewrites, Dispatch, Loggable, IsWriteCommand, Format;
  }

  /** A sequence of dispatched commands; `n` database commands came before. */
  ghost function FileRun(env: Env, clock: nat -> int, x: Aof.State, n: nat, cmds: seq<Command>, forkOk: nat -> bool): Aof.State
    requires Aof.AtRest(x) && TtlFree(cmds)
    decreases |cmds|
  {
    if cmds == [] then x
    else
      RestStays(env, clock(n), x, cmds[0], forkOk(|cmds|));
      FileRun(env, clock, FileOne(env, clock(n), x, cmds[0], forkOk(|cmds|)),
              n + |ForDb([cmds[0]])|, cmds[1..], forkOk)
  }

  lemma OneRecoverable(env: Env, now: int, x: Aof.State, a: Command, forkOk: bool)
    requires ExactScores(env) && Aof.Safe(env, x) && Aof.AtRest(x) && (Stores(a) ==> Loggable(a))
    ensures Aof.Safe(env, FileOne(env, now, x, a, forkOk))
  {
    hide ExactScores, Aof.Safe, Stores, Rewrites, Loggable, Aof.Take;
    if Stores(a) {
      Aof.StepSafe(env, x, Aof.Client(now, a));
    } else if Rewrites(a) {
      Aof.StepSafe(env, x, Aof.TriggerRewrite(forkOk));
    }
  }

  lemma SafeStored(env: Env, x: Aof.State)
    requires Aof.Safe(env, x)
    ensures Stored(x.db)
  {
    hide Stored, Aof.LogOf, Aof.Buffered;
  }

  /** The file follows the history. */
  lemma {:induction false} FileFollows(env: Env, clock: nat -> int, db: DB, x: Aof.State, h: seq<Done>, cmds: seq<Command>, forkOk: nat -> bool)
    requires ExactScores(env) && Aof.Safe(env, x) && Aof.AtRest(x) && TtlFree(cmds)
    requires x.db == RunDone(env, clock, db, h)
    ensures var x' := FileRun(env, clock, x, |h|, cmds, forkOk);
            Aof.Safe(env, x') && Aof.AtRest(x') && x'.db == RunDone(env, clock, db, h + Rans(ForDb(cmds)))
    decreases |cmds|
  {
    hide ExactScores, Aof.Safe, Aof.AtRest, FileOne, Dispatch, Loggable, RunDone, ForDb, Stores, Stored;
    if cmds == [] {
      ForDbNone();
      assert h + Rans([]) == h;
    } else {
      var a, n := cmds[0], |h|;
      assert Stores(a) ==> Loggable(a);
      var x' := FileOne(env, clock(n), x, a, forkOk(|cmds|));
      RestStays(env, clock(n), x, a, forkOk(|cmds|));
      OneRecoverable(env, clock(n), x, a, forkOk(|cmds|));
      HistoryGrows(env, clock, db, h, a);
      SafeStored(env, x);
      if Stores(a) { SameEffect(env, n, clock(n), x.db, a); }
      FileFollows(env, clock, db, x', h + Rans(ForDb([a])), cmds[1..], forkOk);
      ForDbCons(cmds);
      assert h + Rans(ForDb([a])) + Rans(ForDb(cmds[1..])) == h + Rans(ForDb(cmds));
    }
  }

  lemma SameEffect(env: Env, n: nat, now: int, db: DB, a: Command)
    requires Stored(db) && Loggable(a)
    ensures Dispatch(At(env, n), now, db, a).db == Dispatch(env, now, db, a).db
  {
    hide Dispatch, Stored, TtlCommand, IsWriteCommand;
    DispatchSteady(env, n, now, db, a);
    DispatchSteadyHere(env, now, db, a);
  }

  lemma HistoryGrows(env: Env, clock: nat -> int, db: DB, h: seq<Done>, a: Command)
    ensures var d, n := RunDone(env, clock, db, h), |h|;
            RunDone(env, clock, db, h + Rans(ForDb([a]))) == if Stores(a) then Dispatch(At(env, n), clock(n), d, a).db else d
  {
    hide Dispatch, SpecialOf, ForDb;
    ForDbOne(a);
    if Stores(a) {
      assert Rans([a]) == [Ran(a)];
      assert (h + [Ran(a)])[..|h|] == h;
    } else {
      assert h + Rans([]) == h;
    }
  }

  // ---------- runs of the whole system ----------

  ghost predicate Enabled(env: Env, clock: nat -> int, s: System, act: Act) {
    match act
    case Net(e, forkOk) =>
      && Aof.AtRest(s.aof) && Servers.Enabled(clock, s.srv, e)
      && (e.Arrive? ==> TtlFree(Executed(s.srv.conns[e.id].mode, e.cmd)))
    case File(step) =>
      !step.Client? && !step.TriggerRewrite? && Aof.Enabled(env, s.aof, step)
  }

  ghost function Step(env: Env, clock: nat -> int, s: System, act: Act): System
    requires Enabled(env, clock, s, act)
  {
    match act
    case Net(e, forkOk) =>
      System(Servers.Step(env, clock, s.srv, e),
             if e.Arrive? then
               FileRun(env, clock, s.aof, |s.srv.history|, Executed(s.srv.conns[e.id].mode, e.cmd), forkOk)
             else s.aof)
    case File(step) => s.(aof := Aof.Take(env, s.aof, step))
  }

  /** The server keeps its invariant, the file is recoverable, and both have the same database. */
  ghost predicate Inv(env: Env, clock: nat -> int, db: DB, s: System) {
    ServerProofs.Inv(env, clock, db, s.srv) && Aof.Safe(env, s.aof) && s.aof.db == s.srv.db
  }

  lemma ArriveKeeps(env: Env, clock: nat -> int, db: DB, s: System, act: Act)
    requires Inv(env, clock, db, s) && Enabled(env, clock, s, act) && act.Net? && act.e.Arrive? && ExactScores(env) && Iterates(env)
    ensures Inv(env, clock, db, Step(env, clock, s, act))
  {
    hide ExactScores, Iterates, Aof.Safe, Aof.AtRest, RunDone, ForDb, Related, ModesOk, Servers.Step, FileRun;
    hide Executed, Block, TtlFree, Writes, AllPossible, Agreed, Cmds, Rans;
    StepInv(env, clock, db, s.srv, act.e);
    StepHistory(env, clock, s.srv, act.e);
    var m := s.srv.conns[act.e.id].mode;
    BlockIsExecuted(m, act.e.cmd);
    FileFollows(env, clock, db, s.aof, s.srv.history, Executed(m, act.e.cmd), act.forkOk);
  }

  /** Connections and, without deadlines, ticks leave the database alone. */
  lemma OthersKeep(env: Env, clock: nat -> int, db: DB, s: System, act: Act)
    requires Inv(env, clock, db, s) && Enabled(env, clock, s, act) && act.Net? && !act.e.Arrive? && Iterates(env)
    ensures Inv(env, clock, db, Step(env, clock, s, act))
  {
    hide Iterates, Aof.Safe, Aof.AtRest, ServerProofs.Inv, LeaveAll, Stored;
    StepInv(env, clock, db, s.srv, act.e);
    SafeStored(env, s.aof);
    StoredAgreed(s.aof.db);
    if act.e.Tick? {
      assert act.e.gone == {};
      assert s.srv.db - {} == s.srv.db;
    }
  }

  lemma FileKeepsDb(env: Env, x: Aof.State, step: Aof.Step)
    requires Aof.Enabled(env, x, step) && !step.Client?
    ensures Aof.Take(env, x, step).db == x.db
  {
  }

  lemma StepKeeps(env: Env, clock: nat -> int, db: DB, s: System, act: Act)
    requires Inv(env, clock, db, s) && Enabled(env, clock, s, act) && ExactScores(env) && Iterates(env)
    ensures Inv(env, clock, db, Step(env, clock, s, act))
  {
    hide ExactScores, Iterates, Aof.Safe, ServerProofs.Inv, Aof.Take, Aof.Enabled;
    match act
    case Net(e, forkOk) =>
      if e.Arrive? { ArriveKeeps(env, clock, db, s, act); } else { OthersKeep(env, clock, db, s, act); }
    case File(step) =>
      Aof.StepSafe(env, s.aof, step);
      FileKeepsDb(env, s.aof, step);
  }

  /** A server that has just loaded a well-formed log, `cmds`, and appends to it. */
  ghost predicate Begins(env: Env, cmds: seq<Command>, s: System) {
    Aof.Starts(env, s.aof, cmds) && s.srv == Start(s.aof.db)
  }

  ghost predicate IsRun(env: Env, clock: nat -> int, cmds: seq<Command>, states: seq<System>, acts: seq<Act>) {
    && |states| == |acts| + 1 && Begins(env, cmds, states[0])
    && forall i :: 0 <= i < |acts| ==> Goes(env, clock, states, acts, i)
  }

  ghost predicate Goes(env: Env, clock: nat -> int, states: seq<System>, acts: seq<Act>, i: nat)
    requires i < |acts| < |states|
  {
    Enabled(env, clock, states[i], acts[i]) && states[i + 1] == Step(env, clock, states[i], acts[i])
  }

  lemma BeginInv(env: Env, clock: nat -> int, cmds: seq<Command>, s: System)
    requires Begins(env, cmds, s)
    ensures Inv(env, clock, s.aof.db, s)
  {
    hide ServerProofs.Inv, Stored, Agreed, RunAll;
    Aof.EmptyStored();
    RunSteady(env, clock, map[], cmds);
    StoredAgreed(s.aof.db);
    StartInv(env, clock, s.aof.db);
    assert Aof.Inv(env, s.aof, Aof.Trace(cmds, [], []));
  }

  lemma {:induction false} RunKeeps(env: Env, clock: nat -> int, cmds: seq<Command>, states: seq<System>, acts: seq<Act>, i: nat)
    requires IsRun(env, clock, cmds, states, acts) && i <= |acts| && ExactScores(env) && Iterates(env)
    ensures Inv(env, clock, states[0].aof.db, states[i])
  {
    hide Inv, Step, Enabled, ExactScores, Iterates, Begins;
    if i == 0 {
      BeginInv(env, clock, cmds, states[0]);
    } else {
      RunKeeps(env, clock, cmds, states, acts, i - 1);
      assert Goes(env, clock, states, acts, i - 1);
      StepKeeps(env, clock, states[0].aof.db, states[i - 1], acts[i - 1]);
    }
  }

  /** End to end: from any well-formed log, whatever the clients send and however transactions, timer ticks,
      background rewrites, child exits, failures and renames are interleaved, the file of that name loads to
      exactly the database that the clients see, at every moment of every run without TTL commands. */
  lemma AlwaysRecovers(env: Env, clock: nat -> int, cmds: seq<Command>, states: seq<System>, acts: seq<Act>, i: nat, later: nat -> int)
    requires IsRun(env, clock, cmds, states, acts) && i <= |acts| && ExactScores(env) && Iterates(env)
    ensures Aof.Load(env, later, states[i].aof.file) == states[i].srv.db
  {
    hide Goes, Begins, ExactScores, Iterates, ServerProofs.Inv, Aof.Load;
    RunKeeps(env, clock, cmds, states, acts, i);
    SafeLoads(env, states[i].aof, later);
  }

  lemma SafeLoads(env: Env, x: Aof.State, later: nat -> int)
    requires Aof.Safe(env, x)
    ensures Aof.Load(env, later, x.file) == x.db
  {
    hide Aof.Load, Aof.LogOf, Stored;
    var t :| Aof.Inv(env, x, t);
    Aof.LoadLog(env, later, x.file, t.log, x.db);
  }

  /** BGREWRITEAOF from an idle connection forks a child with the current database, unless one is at work or the fork fails. */
  lemma RewriteRequested(env: Env, clock: nat -> int, s: System, id: Id, w: Bytes, forkOk: nat -> bool)
    requires Spells(w, "BGREWRITEAOF") && id in s.srv.conns && s.srv.conns[id].mode == Mode(None, {})
    requires Enabled(env, clock, s, Net(Arrive(id, [w]), forkOk))
    ensures Step(env, clock, s, Net(Arrive(id, [w]), forkOk)).aof ==
            if s.aof.isRewriting then s.aof
            else if forkOk(1) then s.aof.(isRewriting := true, rewriteBuffer := [], forked := s.aof.db, phase := Aof.Forked)
            else s.aof.(rewriteBuffer := [])
  {
    hide Spells, SpecialOf, Servers.Step, ForDb, Dispatch;
    SpecialIff(w, BGREWRITEAOF);
    var m := s.srv.conns[id].mode;
    assert Executed(m, [w]) == [[w]];
    FileRunOne(env, clock, s.aof, |s.srv.history|, [w], forkOk);
  }

  lemma FileRunOne(env: Env, clock: nat -> int, x: Aof.State, n: nat, a: Command, forkOk: nat -> bool)
    requires Aof.AtRest(x) && TtlFree([a])
    ensures Stores(a) ==> Loggable(a)
    ensures FileRun(env, clock, x, n, [a], forkOk) == FileOne(env, clock(n), x, a, forkOk(1))
  {
    hide FileOne, Aof.AtRest, Loggable, Stores;
    assert [a][0] == a;
    RestStays(env, clock(n), x, a, forkOk(1));
  }
}
