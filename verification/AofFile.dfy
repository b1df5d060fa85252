/** The append-only file writer in place: logging, triggering a rewrite and completing it. */
module AofFiles {
  import opened Text
  import opened Resp
  import opened RespProofs
  import opened Commands
  import opened CommandProofs
  import opened Snapshots
  import opened AofWriter
  import opened AofProtocol

  /** `file` and `temp` are the contents of the two files; `state` is the state of the protocol, which
      also knows the database and the child's copy of it. */
  class Writer {
    var file: Bytes
    var temp: Bytes
    var isRewriting: bool
    var rewriteBuffer: seq<Bytes>
    var rewriteChildPid: int
    ghost var state: State

    ghost predicate Valid()
      reads this
    {
      && file == state.file && temp == state.temp
      && isRewriting == state.isRewriting && rewriteBuffer == state.rewriteBuffer
      && (rewriteChildPid >= 0 <==> !state.phase.Quiet?)
    }

    /** Open a file that is a well-formed log of the database. */
    constructor (file: Bytes, ghost db: DB)
      ensures Valid() && this.file == file && state.db == db && state.phase.Quiet? && !isRewriting
    {
      this.file, temp, isRewriting, rewriteBuffer, rewriteChildPid := file, [], false, [], -1;
      state := State(db, file, [], false, [], db, Quiet);
    }

    method Log(args: Command)
      modifies this`file, this`rewriteBuffer
      ensures file == old(file) + Format(args)
      ensures rewriteBuffer == if isRewriting then old(rewriteBuffer) + [Format(args)] else old(rewriteBuffer)
    {
      var resp := FormatRespCommand(args);
      file := file + resp;
      if isRewriting {
        rewriteBuffer := rewriteBuffer + [resp];
      }
    }

    /** The logging rule after a dispatched command. */
    method AfterDispatch(ghost env: Env, ghost now: int, args: Command)
      requires Valid() && AtRest(state) && Loggable(args)
      modifies this
      ensures Valid() && state == Take(env, old(state), Client(now, args))
      ensures var frame := if IsWriteCommand(args[0]) then Format(args) else [];
              && file == old(file) + frame && isRewriting == old(isRewriting)
              && rewriteBuffer == old(rewriteBuffer) + (if isRewriting && IsWriteCommand(args[0]) then [frame] else [])
      ensures state.db == Dispatch(env, now, old(state).db, args).db && state.phase == old(state).phase
    {
      hide Dispatch, Format, TtlCommand, IsWriteCommand;
      state := Take(env, state, Client(now, args));
      if IsWriteCommand(args[0]) {
        Log(args);
      }
    }

    /** Ignored while a rewrite is going on; otherwise the rewrite starts with an empty buffer and a child that has the
        present database, unless the fork fails. */
    method TriggerRewrite(ghost env: Env, pid: int)
      requires Valid() && AtRest(state)
      modifies this
      ensures Valid() && state == Take(env, old(state), AofProtocol.TriggerRewrite(pid >= 0))
      ensures file == old(file) && temp == old(temp) && state.db == old(state).db
      ensures old(isRewriting) ==>
                isRewriting && rewriteBuffer == old(rewriteBuffer) && rewriteChildPid == old(rewriteChildPid) && state == old(state)
      ensures !old(isRewriting) && pid >= 0 ==>
                isRewriting && rewriteBuffer == [] && rewriteChildPid == pid && state.phase.Forked? && state.forked == old(state).db
      ensures !old(isRewriting) && pid < 0 ==>
                !isRewriting && rewriteBuffer == [] && rewriteChildPid == old(rewriteChildPid) && state.phase == old(state).phase
    {
      state := Take(env, state, AofProtocol.TriggerRewrite(pid >= 0));
      if isRewriting { return; }
      isRewriting := true;
      rewriteBuffer := [];
      if pid < 0 {
        isRewriting := false;
        return;
      }
      rewriteChildPid := pid;
    }

    /** The child process ends; with success it has written a snapshot of its copy of the database. */
    method ChildEnds(ghost env: Env, ok: bool, snapshot: seq<Command>)
      requires Valid() && Enabled(env, state, ChildExit(ok, snapshot))
      modifies this`temp, this`state
      ensures Valid() && state == Take(env, old(state), ChildExit(ok, snapshot))
      ensures state.phase == ChildDone(ok) && state.db == old(state).db && temp == if ok then FormatAll(snapshot) else old(temp)
    {
      state := Take(env, state, ChildExit(ok, snapshot));
      if ok {
        temp := FormatAll(snapshot);
      }
    }

    /** What `waitpid` can report: nothing yet, success of a child that has succeeded, or no success, which
        may also be a failure of the call itself. */
    ghost predicate Reports(waited: Option<bool>)
      reads this
    {
      waited == Some(true) ==> state.phase.Quiet? || state.phase == ChildDone(true)
    }

    /** Completion: the buffer is appended to the child's file, which then takes the name; on any failure
        the old file stays.  The database stays recoverable either way. */
    method CheckRewriteComplete(ghost env: Env, waited: Option<bool>, openOk: bool, renameOk: bool)
      requires Valid() && AtRest(state) && Reports(waited) && ExactScores(env)
      modifies this
      ensures Valid() && AtRest(state) && state.db == old(state).db
      ensures waited.None? || old(state).phase.Quiet? ==> state == old(state)
      ensures waited.Some? && !old(state).phase.Quiet? ==>
                && !isRewriting && rewriteBuffer == [] && rewriteChildPid < 0
                && file == if waited.value && openOk && renameOk then old(temp) + Concat(old(rewriteBuffer)) else old(file)
      ensures Safe(env, old(state)) ==> Safe(env, state)
    {
      hide Safe, ExactScores, Concat, Dispatch, AofProtocol.Log, FormatAll, ChildWrites;
      if rewriteChildPid < 0 { return; }
      if waited.None? { return; }
      if waited.value {
        StepKeeps(env, state, CheckStart(openOk));
        state := Take(env, state, CheckStart(openOk));
        if openOk {
          AppendBuffer(env);
          StepKeeps(env, state, Rename(renameOk));
          state := Take(env, state, Rename(renameOk));
          if renameOk {
            file := temp;
            StepKeeps(env, state, Reopen);
            state := Take(env, state, Reopen);
          }
        }
      } else {
        StepKeeps(env, state, WaitFailed);
        state := Take(env, state, WaitFailed);
      }
      rewriteBuffer := [];
      isRewriting := false;
      rewriteChildPid := -1;
    }

    method AppendBuffer(ghost env: Env)
      requires Valid() && state.phase == Appending(0) && ExactScores(env)
      modifies this`temp, this`state
      ensures Valid() && state == old(state).(temp := temp, phase := Appending(|rewriteBuffer|))
      ensures temp == old(temp) + Concat(rewriteBuffer)
      ensures Safe(env, old(state)) ==> Safe(env, state)
    {
      hide Safe, ExactScores;
      var i := 0;
      while i < |rewriteBuffer|
        invariant 0 <= i <= |rewriteBuffer| && Valid() && state == old(state).(temp := temp, phase := Appending(i))
        invariant temp == old(temp) + Concat(rewriteBuffer[..i])
        invariant Safe(env, old(state)) ==> Safe(env, state)
      {
        ConcatSnoc(rewriteBuffer[..i], rewriteBuffer[i]);
        assert rewriteBuffer[..i + 1] == rewriteBuffer[..i] + [rewriteBuffer[i]];
        temp := temp + rewriteBuffer[i];
        StepKeeps(env, state, AppendNext);
        state := Take(env, state, AppendNext);
        i := i + 1;
      }
      assert rewriteBuffer[..i] == rewriteBuffer;
    }
  }

  lemma StepKeeps(env: Env, s: State, step: Step)
    requires ExactScores(env) && Enabled(env, s, step)
    ensures Safe(env, s) ==> Safe(env, Take(env, s, step))
  {
    hide Safe, Take, Enabled;
    if Safe(env, s) { StepSafe(env, s, step); }
  }
}
