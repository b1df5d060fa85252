/** The append-only file protocol as a step machine: execute and log, fork, child ends, append the
    buffer, rename, reopen.

    A fork is a copy of the database.  System calls are outcomes carried by the steps.  The steps
    between the start of a completion check and its end are taken without interleaving, because the
    server has one thread; the child is another process and may end at any time.
 */
module AofProtocol {
  import opened Text
  import opened Resp
  import opened RespProofs
  import opened Commands
  import opened CommandProofs
  import opened Snapshots
  import opened TtlSnapshots
  import opened AofWriter

  datatype Phase =
    | Quiet                       // no rewrite
    | Forked                      // the child is writing
    | ChildDone(ok: bool)         // the child has exited, not yet noticed
    | Appending(next: nat)        // inside the check: buffer entries before `next` are in the temp file
    | Renamed                     // inside the check: renamed, descriptor still on the old file

  /** `file` is what the name of the append-only file leads to; `temp` is the rewrite temp file. */
  datatype State = State(
    db: DB,
    file: Bytes,
    temp: Bytes,
    isRewriting: bool,
    rewriteBuffer: seq<Bytes>,
    forked: DB,
    phase: Phase)

  datatype Step =
    | Client(now: int, args: Command)
    | TriggerRewrite(forkOk: bool)
    | ChildExit(ok: bool, snapshot: seq<Command>)
    | WaitFailed                  // the check finds no successful child: it failed, or waiting for it did
    | CheckStart(openOk: bool)
    | AppendNext
    | Rename(ok: bool)
    | Reopen

  /** Clearing the rewrite state, done on every outcome. */
  function Cleared(s: State): State {
    s.(isRewriting := false, rewriteBuffer := [], phase := Quiet)
  }

  /** Between two events of the server loop. */
  predicate AtRest(s: State) {
    s.phase.Quiet? || s.phase.Forked? || s.phase.ChildDone?
  }

  /** What the child writes for its copy of the database, at whatever times it looks. */
  ghost predicate ChildWrites(env: Env, db: DB, cmds: seq<Command>) {
    exists at :: IsTtlSnapshot(env, at, db, cmds)
  }

  lemma ChildWritesPlain(env: Env, db: DB, cmds: seq<Command>)
    requires Stored(db) && ChildWrites(env, db, cmds)
    ensures IsSnapshot(env, db, cmds)
  {
    hide Stored, IsTtlSnapshot, IsSnapshot;
    var at :| IsTtlSnapshot(env, at, db, cmds);
    PlainSnapshot(env, at, db, cmds);
  }

  ghost predicate Enabled(env: Env, s: State, step: Step) {
    match step
    case Client(now, args) => AtRest(s) && Loggable(args)
    case TriggerRewrite(forkOk) => AtRest(s)
    case ChildExit(ok, snapshot) => s.phase.Forked? && (ok ==> ChildWrites(env, s.forked, snapshot))
    case WaitFailed => s.phase.Forked? || s.phase.ChildDone?
    case CheckStart(openOk) => s.phase == ChildDone(true)
    case AppendNext => s.phase.Appending? && s.phase.next < |s.rewriteBuffer|
    case Rename(ok) => s.phase.Appending? && s.phase.next == |s.rewriteBuffer|
    case Reopen => s.phase.Renamed?
  }

  /** `log`: append to the file and, while rewriting, to the buffer. */
  function Log(s: State, args: Command): State {
    var text := Format(args);
    s.(file := s.file + text,
       rewriteBuffer := if s.isRewriting then s.rewriteBuffer + [text] else s.rewriteBuffer)
  }

  ghost function Take(env: Env, s: State, step: Step): State
    requires Enabled(env, s, step)
  {
    match step
    case Client(now, args) =>
      var s' := s.(db := Dispatch(env, now, s.db, args).db);
      if IsWriteCommand(args[0]) then Log(s', args) else s'
    case TriggerRewrite(forkOk) =>
      if s.isRewriting then s
      else if forkOk then s.(isRewriting := true, rewriteBuffer := [], forked := s.db, phase := Forked)
      else s.(isRewriting := false, rewriteBuffer := [])
    case ChildExit(ok, snapshot) =>
      s.(phase := ChildDone(ok), temp := if ok then FormatAll(snapshot) else s.temp)
    case WaitFailed => Cleared(s)
    case CheckStart(openOk) =>
      if openOk then s.(phase := Appending(0)) else Cleared(s)
    case AppendNext =>
      s.(temp := s.temp + s.rewriteBuffer[s.phase.next], phase := Appending(s.phase.next + 1))
    case Rename(ok) =>
      if ok then s.(file := s.temp, phase := Renamed) else Cleared(s)
    case Reopen => Cleared(s)
  }

  // ---------- what every step keeps ----------

  /** `file` is the text of commands whose replay gives `db`. */
  ghost predicate LogOf(env: Env, file: Bytes, cmds: seq<Command>, db: DB) {
    AllLoggable(cmds) && file == FormatAll(cmds) && RunAll(env, map[], cmds) == db
  }

  /** The commands behind the bytes: the log, the buffered commands, the child's snapshot. */
  datatype Trace = Trace(log: seq<Command>, buffered: seq<Command>, snapshot: seq<Command>)

  ghost predicate Buffered(buffer: seq<Bytes>, cmds: seq<Command>) {
    |buffer| == |cmds| && AllLoggable(cmds) && forall i :: 0 <= i < |cmds| ==> buffer[i] == Format(cmds[i])
  }

  ghost predicate Inv(env: Env, s: State, t: Trace) {
    && Stored(s.db) && LogOf(env, s.file, t.log, s.db)
    && (s.isRewriting <==> !s.phase.Quiet?)
    && (!s.phase.Quiet? ==>
          Stored(s.forked) && Buffered(s.rewriteBuffer, t.buffered) && RunAll(env, s.forked, t.buffered) == s.db)
    && (s.phase == ChildDone(true) ==> LogOf(env, s.temp, t.snapshot, s.forked))
    && (s.phase.Appending? ==>
          && s.phase.next <= |t.buffered|
          && LogOf(env, s.temp, t.snapshot + t.buffered[..s.phase.next],
                   RunAll(env, s.forked, t.buffered[..s.phase.next])))
  }

  ghost predicate Safe(env: Env, s: State) {
    exists t :: Inv(env, s, t)
  }

  lemma LogOfSnoc(env: Env, file: Bytes, cmds: seq<Command>, db: DB, c: Command)
    requires LogOf(env, file, cmds, db) && Loggable(c)
    ensures LogOf(env, file + Format(c), cmds + [c], Dispatch(env, 0, db, c).db)
  {
    hide Dispatch, Format, TtlCommand, RunAll;
    FormatAllSnoc(cmds, c);
    RunSnoc(env, map[], cmds, c);
  }

  lemma ClientStep(env: Env, s: State, t: Trace, now: int, args: Command)
    requires Inv(env, s, t) && AtRest(s) && Loggable(args)
    ensures Safe(env, Take(env, s, Client(now, args)))
  {
    hide Dispatch, Format, TtlCommand, RunAll, Stored, LogOf, IsWriteCommand, AllLoggable;
    DispatchSteadyHere(env, now, s.db, args);
    var s' := Take(env, s, Client(now, args));
    if IsWriteCommand(args[0]) {
      LogOfSnoc(env, s.file, t.log, s.db, args);
      BufferedSnoc(s.rewriteBuffer, t.buffered, args);
      RunSnoc(env, s.forked, t.buffered, args);
      assert Inv(env, s', Trace(t.log + [args], t.buffered + [args], t.snapshot));
    } else {
      assert Inv(env, s', t);
    }
  }

  lemma BufferedSnoc(buffer: seq<Bytes>, cmds: seq<Command>, c: Command)
    requires Loggable(c)
    ensures Buffered(buffer, cmds) ==> Buffered(buffer + [Format(c)], cmds + [c])
  {
    hide Format, Loggable;
  }

  lemma TriggerStep(env: Env, s: State, t: Trace, forkOk: bool)
    requires Inv(env, s, t) && AtRest(s)
    ensures Safe(env, Take(env, s, TriggerRewrite(forkOk)))
  {
    hide RunAll, Stored, LogOf;
    RunNone(env, s.db);
    assert Inv(env, Take(env, s, TriggerRewrite(forkOk)), if s.isRewriting then t else t.(buffered := []));
  }

  lemma ChildStep(env: Env, s: State, t: Trace, ok: bool, snapshot: seq<Command>)
    requires ExactScores(env) && Inv(env, s, t) && Enabled(env, s, ChildExit(ok, snapshot))
    ensures Safe(env, Take(env, s, ChildExit(ok, snapshot)))
  {
    hide RunAll, Stored, ExactScores, AllLoggable, IsSnapshot, ChildWrites, FormatAll;
    if ok {
      ChildWritesPlain(env, s.forked, snapshot);
      SnapshotRebuilds(env, s.forked, snapshot);
    }
    assert Inv(env, Take(env, s, ChildExit(ok, snapshot)), t.(snapshot := snapshot));
  }

  lemma CheckSteps(env: Env, s: State, t: Trace, step: Step)
    requires Inv(env, s, t) && Enabled(env, s, step)
    requires step.WaitFailed? || step.CheckStart? || step.AppendNext? || step.Rename? || step.Reopen?
    ensures Safe(env, Take(env, s, step))
  {
    hide RunAll, Stored, AllLoggable, FormatAll, Format;
    var s' := Take(env, s, step);
    match step
    case WaitFailed =>
      assert Inv(env, s', t);
    case CheckStart(openOk) =>
      RunNone(env, s.forked);
      assert t.snapshot + t.buffered[..0] == t.snapshot && t.buffered[..0] == [];
      assert Inv(env, s', t);
    case AppendNext =>
      var n, b := s.phase.next, t.buffered;
      assert b[..n + 1] == b[..n] + [b[n]];
      assert Loggable(b[n]) by { LoggableAt(b, n); }
      LogOfSnoc(env, s.temp, t.snapshot + b[..n], RunAll(env, s.forked, b[..n]), b[n]);
      RunSnoc(env, s.forked, b[..n], b[n]);
      assert t.snapshot + b[..n] + [b[n]] == t.snapshot + b[..n + 1];
      assert Inv(env, s', t);
    case Rename(ok) =>
      assert t.buffered[..|t.buffered|] == t.buffered;
      assert Inv(env, s', if ok then t.(log := t.snapshot + t.buffered) else t);
    case Reopen =>
      assert Inv(env, s', t);
  }

  lemma LoggableAt(cmds: seq<Command>, i: nat)
    requires AllLoggable(cmds) && i < |cmds|
    ensures Loggable(cmds[i])
  {
  }

  /** Every step of the protocol, with every outcome of fork, child, open and rename, keeps the
      database recoverable. */
  lemma StepSafe(env: Env, s: State, step: Step)
    requires ExactScores(env) && Safe(env, s) && Enabled(env, s, step)
    ensures Safe(env, Take(env, s, step))
  {
    hide Inv, Take, ExactScores, Loggable, ChildWrites;
    var t :| Inv(env, s, t);
    match step
    case Client(now, args) => ClientStep(env, s, t, now, args);
    case TriggerRewrite(forkOk) => TriggerStep(env, s, t, forkOk);
    case ChildExit(ok, snapshot) => ChildStep(env, s, t, ok, snapshot);
    case _ => CheckSteps(env, s, t, step);
  }

  // ---------- whole runs ----------

  /** `states` is a run: each step is enabled where it is taken and leads to the next state. */
  ghost predicate IsRun(env: Env, states: seq<State>, steps: seq<Step>) {
    && |states| == |steps| + 1
    && forall i :: 0 <= i < |steps| ==> Leads(env, states, steps, i)
  }

  ghost predicate Leads(env: Env, states: seq<State>, steps: seq<Step>, i: nat)
    requires |states| == |steps| + 1 && i < |steps|
  {
    Enabled(env, states[i], steps[i]) && states[i + 1] == Take(env, states[i], steps[i])
  }

  lemma {:induction false} RunSafe(env: Env, states: seq<State>, steps: seq<Step>, i: nat)
    requires ExactScores(env) && IsRun(env, states, steps) && Safe(env, states[0]) && i < |states|
    ensures Safe(env, states[i])
  {
    hide ExactScores, Safe, Take, Enabled;
    if i > 0 {
      RunSafe(env, states, steps, i - 1);
      assert Leads(env, states, steps, i - 1);
      StepSafe(env, states[i - 1], steps[i - 1]);
    }
  }

  /** The loader: parse the bytes, dispatch the commands in order on an empty database. */
  ghost function Load(env: Env, clock: nat -> int, file: Bytes): DB {
    RunAt(env, clock, map[], Drain(file).cmds)
  }

  lemma EmptyStored()
    ensures Stored(map[])
  {
  }

  lemma LoadLog(env: Env, clock: nat -> int, file: Bytes, cmds: seq<Command>, db: DB)
    requires LogOf(env, file, cmds, db)
    ensures Load(env, clock, file) == db && Drain(file) == Drained(cmds, [])
  {
    hide Drain, FormatAll, RunAll, RunAt, AllLoggable;
    LogRoundTrip(cmds);
    EmptyStored();
    RunSteady(env, clock, map[], cmds);
  }

  /** The start of a run: a server whose file is a well-formed log of its database. */
  ghost predicate Starts(env: Env, s: State, cmds: seq<Command>) {
    s.phase.Quiet? && !s.isRewriting && LogOf(env, s.file, cmds, s.db)
  }

  /** Recoverability over whole runs: in every state of every TTL-free run, whatever fork, child, open
      and rename do, loading the file that currently has the name gives exactly the current database,
      at whatever times the loader runs. */
  lemma AlwaysRecoverable(env: Env, states: seq<State>, steps: seq<Step>, cmds: seq<Command>, i: nat, clock: nat -> int)
    requires ExactScores(env) && IsRun(env, states, steps) && Starts(env, states[0], cmds) && i < |states|
    ensures Load(env, clock, states[i].file) == states[i].db
  {
    hide ExactScores, IsRun, Load, RunAll, FormatAll, RunAt, Stored;
    assert Safe(env, states[0]) by {
      EmptyStored();
      RunSteady(env, _ => 0, map[], cmds);
      assert Inv(env, states[0], Trace(cmds, [], []));
    }
    RunSafe(env, states, steps, i);
    var t :| Inv(env, states[i], t);
    LoadLog(env, clock, states[i].file, t.log, states[i].db);
  }

  /** While a rewrite is pending, the child's snapshot followed by the buffer also recovers the current
      database: the swap loses nothing. */
  lemma PendingRewriteRecovers(env: Env, s: State, clock: nat -> int, snapshot: seq<Command>)
    requires ExactScores(env) && Safe(env, s) && s.isRewriting && ChildWrites(env, s.forked, snapshot)
    ensures Load(env, clock, FormatAll(snapshot) + Concat(s.rewriteBuffer)) == s.db
  {
    hide ExactScores, Load, RunAll, FormatAll, Stored, IsSnapshot, ChildWrites, LogOf;
    var t :| Inv(env, s, t);
    ChildWritesPlain(env, s.forked, snapshot);
    SnapshotRebuilds(env, s.forked, snapshot);
    RunConcat(env, map[], snapshot, t.buffered);
    FormatAllAppends(snapshot, t.buffered);
    BufferText(s.rewriteBuffer, t.buffered);
    BothLoggable(snapshot, t.buffered);
    assert LogOf(env, FormatAll(snapshot + t.buffered), snapshot + t.buffered, s.db) by {
      MakeLogOf(env, snapshot + t.buffered);
    }
    LoadLog(env, clock, FormatAll(snapshot + t.buffered), snapshot + t.buffered, s.db);
  }

  lemma MakeLogOf(env: Env, cmds: seq<Command>)
    requires AllLoggable(cmds)
    ensures LogOf(env, FormatAll(cmds), cmds, RunAll(env, map[], cmds))
  {
  }

  lemma BothLoggable(a: seq<Command>, b: seq<Command>)
    requires AllLoggable(a) && AllLoggable(b)
    ensures AllLoggable(a + b)
  {
    hide Loggable;
  }

  lemma {:induction false} BufferText(buffer: seq<Bytes>, cmds: seq<Command>)
    requires Buffered(buffer, cmds)
    ensures Concat(buffer) == FormatAll(cmds)
    decreases |cmds|
  {
    hide Format, Loggable;
    if cmds != [] {
      BufferText(buffer[1..], cmds[1..]);
    }
  }

  /** A crash in the middle of writing a command to the file: the torn command is as if it had not
      been executed, the whole command as if it had. */
  lemma TornWrite(env: Env, s: State, now: int, args: Command, k: nat, clock: nat -> int)
    requires Safe(env, s) && Loggable(args) && IsWriteCommand(args[0]) && k <= |Format(args)|
    ensures Load(env, clock, s.file + Format(args)[..k]) ==
            if k < |Format(args)| then s.db else Dispatch(env, now, s.db, args).db
  {
    hide Load, RunAll, FormatAll, Stored, Dispatch, Format, RunAt, Drain, TtlCommand;
    var t :| Inv(env, s, t);
    if k < |Format(args)| {
      var tail := Format(args)[..k];
      LogThenRest(t.log, tail);
      TornCommandIncomplete(args, k);
      NothingDrained(tail);
      LoadLog(env, clock, s.file, t.log, s.db);
      assert t.log + [] == t.log;
      SameLoad(env, clock, s.file, s.file + tail);
    } else {
      assert Format(args)[..k] == Format(args);
      LogOfSnoc(env, s.file, t.log, s.db, args);
      DispatchSteadyHere(env, now, s.db, args);
      LoadLog(env, clock, s.file + Format(args), t.log + [args], Dispatch(env, 0, s.db, args).db);
    }
  }

  lemma NothingDrained(tail: Bytes)
    requires Parse(tail).Incomplete?
    ensures Drain(tail) == Drained([], tail)
  {
    hide Parse;
  }

  lemma SameLoad(env: Env, clock: nat -> int, f: Bytes, g: Bytes)
    requires Drain(f).cmds == Drain(g).cmds
    ensures Load(env, clock, f) == Load(env, clock, g)
  {
    hide Drain, RunAt;
  }

  // ---------- a rewrite that succeeds ----------

  datatype Request = Request(now: int, args: Command)

  ghost predicate Requests(rs: seq<Request>) {
    forall i :: 0 <= i < |rs| ==> Loggable(rs[i].args)
  }

  /** The frames that the requests put into the log. */
  function Frames(rs: seq<Request>): seq<Bytes> {
    if rs == [] then [] else Frames(rs[..|rs| - 1]) + FrameOf(rs[|rs| - 1].args)
  }

  function FrameOf(a: Command): seq<Bytes> {
    if a != [] && IsWriteCommand(a[0]) then [Format(a)] else []
  }

  /** Client steps, one after the other. */
  ghost function Serve(env: Env, s: State, rs: seq<Request>): (r: State)
    requires AtRest(s) && Requests(rs)
    ensures AtRest(r)
    decreases |rs|
  {
    if rs == [] then s
    else
      var n := |rs| - 1;
      Take(env, Serve(env, s, rs[..n]), Client(rs[n].now, rs[n].args))
  }

  /** From `s` to `r` the database changed, and `frames` went to the file and, while rewriting, to the buffer. */
  predicate Logs(s: State, r: State, frames: seq<Bytes>) {
    && r == s.(db := r.db, file := r.file, rewriteBuffer := r.rewriteBuffer)
    && r.file == s.file + Concat(frames)
    && r.rewriteBuffer == if s.isRewriting then s.rewriteBuffer + frames else s.rewriteBuffer
  }

  lemma LogsNone(s: State)
    ensures Logs(s, s, [])
  {
    assert s.file + [] == s.file && s.rewriteBuffer + [] == s.rewriteBuffer;
  }

  lemma LogsTwice(s: State, t: State, r: State, f: seq<Bytes>, g: seq<Bytes>)
    requires Logs(s, t, f) && Logs(t, r, g)
    ensures Logs(s, r, f + g)
  {
    hide Concat;
    ConcatPlus(f, g);
    assert s.file + Concat(f) + Concat(g) == s.file + (Concat(f) + Concat(g));
    assert s.rewriteBuffer + f + g == s.rewriteBuffer + (f + g);
  }

  lemma ClientLogs(env: Env, s: State, now: int, args: Command)
    requires AtRest(s) && Loggable(args)
    ensures Logs(s, Take(env, s, Client(now, args)), FrameOf(args))
  {
    hide Dispatch, Format, IsWriteCommand, TtlCommand;
    assert [Format(args)][1..] == [] && Concat([Format(args)]) == Format(args) + [];
  }

  lemma {:induction false} ServeLaw(env: Env, s: State, rs: seq<Request>)
    requires AtRest(s) && Requests(rs)
    ensures Logs(s, Serve(env, s, rs), Frames(rs))
    decreases |rs|
  {
    hide Take, Enabled, FrameOf, Loggable, Logs;
    if rs == [] {
      LogsNone(s);
    } else {
      var n := |rs| - 1;
      ServeLaw(env, s, rs[..n]);
      var t := Serve(env, s, rs[..n]);
      ClientLogs(env, t, rs[n].now, rs[n].args);
      LogsTwice(s, t, Serve(env, s, rs), Frames(rs[..n]), FrameOf(rs[n].args));
    }
  }

  lemma {:induction false} ConcatPlus(f: seq<Bytes>, g: seq<Bytes>)
    ensures Concat(f + g) == Concat(f) + Concat(g)
    decreases |f|
  {
    if f == [] {
      assert f + g == g;
    } else {
      assert (f + g)[1..] == f[1..] + g;
      ConcatPlus(f[1..], g);
    }
  }

  lemma ConcatSnoc(texts: seq<Bytes>, text: Bytes)
    ensures Concat(texts + [text]) == Concat(texts) + text
  {
    ConcatPlus(texts, [text]);
    assert [text][1..] == [] && Concat([text]) == text + [];
  }

  /** The append loop of the check. */
  ghost function AppendRest(env: Env, s: State): State
    requires s.phase.Appending? && s.phase.next <= |s.rewriteBuffer|
    decreases |s.rewriteBuffer| - (if s.phase.Appending? then s.phase.next else 0)
  {
    if s.phase.next == |s.rewriteBuffer| then s else AppendRest(env, Take(env, s, AppendNext))
  }

  lemma {:induction false} AppendRestLaw(env: Env, s: State)
    requires s.phase.Appending? && s.phase.next <= |s.rewriteBuffer|
    ensures var n := |s.rewriteBuffer|;
            AppendRest(env, s) == s.(temp := s.temp + Concat(s.rewriteBuffer[s.phase.next..]), phase := Appending(n))
    decreases |s.rewriteBuffer| - s.phase.next
  {
    var i, b := s.phase.next, s.rewriteBuffer;
    if i == |b| {
      assert b[i..] == [] && s.temp + [] == s.temp;
    } else {
      assert b[i..][0] == b[i] && b[i..][1..] == b[i + 1..];
      AppendRestLaw(env, Take(env, s, AppendNext));
      assert s.temp + b[i] + Concat(b[i + 1..]) == s.temp + (b[i] + Concat(b[i + 1..]));
    }
  }

  /** A rewrite that is triggered at rest and meets no failure, up to the start of the check: the server answers `before`,
      the child ends, the server answers `after`. */
  ghost function Prepared(env: Env, s: State, before: seq<Request>, snapshot: seq<Command>, after: seq<Request>): State
    requires s.phase.Quiet? && !s.isRewriting && Requests(before) && Requests(after) && ChildWrites(env, s.db, snapshot)
  {
    var s1 := Take(env, s, TriggerRewrite(true));
    ServeLaw(env, s1, before);
    var s2 := Serve(env, s1, before);
    var s3 := Take(env, s2, ChildExit(true, snapshot));
    ServeLaw(env, s3, after);
    Take(env, Serve(env, s3, after), CheckStart(true))
  }

  lemma PreparedLaw(env: Env, s: State, before: seq<Request>, snapshot: seq<Command>, after: seq<Request>)
    requires s.phase.Quiet? && !s.isRewriting && Requests(before) && Requests(after) && ChildWrites(env, s.db, snapshot)
    ensures var r := Prepared(env, s, before, snapshot, after);
            && r.phase == Appending(0) && r.temp == FormatAll(snapshot) && r.rewriteBuffer == Frames(before) + Frames(after)
            && r.db == Serve(env, Serve(env, s, before), after).db
  {
    hide ChildWrites, FormatAll, Frames, Requests, Concat, Serve;
    var s1 := Take(env, s, TriggerRewrite(true));
    ServeLaw(env, s1, before);
    var s3 := Take(env, Serve(env, s1, before), ChildExit(true, snapshot));
    ServeLaw(env, s3, after);
    assert [] + Frames(before) == Frames(before);
    SameDb(env, s, s1, before);
    SameDb(env, Serve(env, s, before), s3, after);
  }

  /** The whole rewrite: then the check appends the buffer, renames and reopens. */
  ghost function Rewrite(env: Env, s: State, before: seq<Request>, snapshot: seq<Command>, after: seq<Request>): State
    requires s.phase.Quiet? && !s.isRewriting && Requests(before) && Requests(after) && ChildWrites(env, s.db, snapshot)
  {
    var s4 := Prepared(env, s, before, snapshot, after);
    PreparedLaw(env, s, before, snapshot, after);
    AppendRestLaw(env, s4);
    Take(env, Take(env, AppendRest(env, s4), Rename(true)), Reopen)
  }

  /** Then the file is the snapshot followed by every frame logged since the fork, the server is quiet again, and its
      database is what the requests made of it. */
  lemma RewriteCompletes(env: Env, s: State, before: seq<Request>, snapshot: seq<Command>, after: seq<Request>)
    requires s.phase.Quiet? && !s.isRewriting && Requests(before) && Requests(after) && ChildWrites(env, s.db, snapshot)
    ensures var r := Rewrite(env, s, before, snapshot, after);
            && r.file == FormatAll(snapshot) + Concat(Frames(before) + Frames(after))
            && r.phase.Quiet? && !r.isRewriting && r.rewriteBuffer == []
            && r.db == Serve(env, Serve(env, s, before), after).db
  {
    hide ChildWrites, FormatAll, Concat, Frames, Requests, Prepared, Serve;
    PreparedLaw(env, s, before, snapshot, after);
    var s4 := Prepared(env, s, before, snapshot, after);
    AppendRestLaw(env, s4);
    assert s4.rewriteBuffer[0..] == s4.rewriteBuffer;
  }

  /** The database does not depend on the state of the file. */
  lemma {:induction false} SameDb(env: Env, s: State, t: State, rs: seq<Request>)
    requires AtRest(s) && AtRest(t) && Requests(rs) && s.db == t.db
    ensures Serve(env, s, rs).db == Serve(env, t, rs).db
    decreases |rs|
  {
    hide Dispatch, Format, IsWriteCommand;
    if rs != [] { SameDb(env, s, t, rs[..|rs| - 1]); }
  }
}
