/** The engine as it runs: one executor changed in place, one step record updated across attempts. */
module Orchestrator {
  import opened Common
  import opened Json
  import opened PrimitiveExecutor
  import opened Cvr
  import opened AppManifest
  import opened StepEngine
  import opened StepTheorems

  class StepRecord {
    const step: Step
    var status: Status
    var checkpointId: string
    var escalated: bool

    constructor (step: Step)
      ensures this.step == step && State() == StepState(Pending, "", false)
    {
      this.step := step;
      status, checkpointId, escalated := Pending, "", false;
    }

    function State(): StepState
      reads this
    {
      StepState(status, checkpointId, escalated)
    }
  }

  class Engine {
    const env: Env
    const executor: Executor

    constructor (env: Env, executor: Executor)
      requires executor.behaviour == env.behaviour
      ensures this.env == env && this.executor == executor
    {
      this.env := env;
      this.executor := executor;
    }

    ghost predicate Wired() {
      executor.behaviour == env.behaviour
    }

    /** Layer A: take the checkpoint. On failure the attempt is over and `c` is its whole result. */
    method TakeCheckpoint(step: Step) returns (id: string, failed: Option<CvrRun>)
      requires Wired()
      modifies executor
      ensures failed.Some? <==> !CheckpointTaken(env, old(executor.Current()), step)
      ensures failed.Some? ==> failed.value == FailedCheckpoint(env, old(executor.Current()), step)
      ensures failed.Some? ==> executor.Current() == failed.value.world
      ensures failed.None? ==>
                var r := env.behaviour(old(executor.Current()), CheckpointCall(step));
                && Some(id) == CheckpointId(r.result)
                && executor.Current() == After(old(executor.Current()), CheckpointCall(step), r)
    {
      id := "";
      var result, err := executor.Execute(CheckpointCall(step));
      var found := CheckpointId(result);
      if err.Some? || found.None? || !env.saves(executor.Current()) {
        var why := if err.Some? then err else Some(Failure("layer_a_failed"));
        failed := Some(CvrRun(executor.Current(), "", Unset, NoAction, why,
                              if step.primitive == CHECKPOINT then result else None, result));
        return;
      }
      id, failed := found.value, None;
    }

    /** Dispatch the primitive, verify it, and decide on a recovery action. */
    method DispatchAndVerify(step: Step, id: string, intent: Intent, strategy: Option<Strategy>, attempt: nat)
      returns (c: CvrRun)
      requires Wired()
      modifies executor
      ensures c == Dispatch(env, old(executor.Current()), step, id, intent, strategy, attempt)
      ensures executor.Current() == c.world
    {
      var main, err := executor.Execute(MainCall(step));
      var last := main;
      var r := Reply(main, err, executor.workspace);
      var outcome := ExecutionOutcome(r);
      if strategy.Some? && err.None? && Succeeded(r) {
        var call := StrategyCall(strategy.value);
        if call.None? {
          outcome := Errored;
        } else {
          var verifyErr;
          last, verifyErr := executor.Execute(call.value);
          if call.value.name == step.primitive {
            main := last;
          }
          outcome := Judge(strategy.value, Reply(last, verifyErr, executor.workspace));
        }
      }
      var action := NoAction;
      if outcome != Passed {
        action := Decide(env.tree, RecoveryCtx(FailureOf(r, outcome), attempt, intent, outcome, TREE_RETRIES));
      }
      c := CvrRun(executor.Current(), id, outcome, action, err, main, last);
    }

    /** One pass of the coordinator. */
    method Coordinate(step: Step, attempt: nat) returns (c: CvrRun)
      requires Wired()
      modifies executor
      ensures c == CvrExecute(env, old(executor.Current()), step, attempt)
      ensures executor.Current() == c.world
    {
      hide Dispatch, InferIntent, ChooseStrategy, FailedCheckpoint;
      var intent := InferIntent(env, executor.Current(), step.primitive);
      var strategy := ChooseStrategy(env, executor.Current(), step);
      var id := "";
      if ShouldCheckpoint(intent) {
        var failed;
        id, failed := TakeCheckpoint(step);
        if failed.Some? {
          return failed.value;
        }
      }
      c := DispatchAndVerify(step, id, intent, strategy, attempt);
    }

    method Restore(id: string, missing: RollbackError) returns (failed: Option<RollbackError>)
      requires Wired()
      modifies executor
      ensures RollbackRun(executor.Current(), failed) == WorkspaceRestore(env, old(executor.Current()), id, missing)
    {
      if id == "" {
        return Some(missing);
      }
      var _, err := executor.Execute(Call(RESTORE, RestoreParams(id)));
      failed := if err.Some? then Some(RestoreFailed) else None;
    }

    method RollBackApp(step: Step, result: Option<StepResult>, c: CvrRun, d: AppRollback)
      returns (failed: Option<RollbackError>)
      requires Wired()
      modifies executor
      ensures RollbackRun(executor.Current(), failed) == AppRollbackRun(env, old(executor.Current()), step, result, c, d)
    {
      if d.strategy != "primitive" {
        return None;
      }
      if d.primitive == "" {
        return Some(EmptyPrimitive);
      }
      if d.primitive == RESTORE {
        failed := Restore(c.checkpointId, MissingTarget);
        return;
      }
      var payload := RollbackPayload(step, result, c);
      if payload.None? {
        return Some(BadPayload);
      }
      var _, err := executor.Execute(Call(d.primitive, Value(payload.value)));
      failed := if err.Some? then Some(AppRollbackFailed) else None;
    }

    method RollBackDeclared(step: Step, result: Option<StepResult>, c: CvrRun, m: Option<Manifest>)
      returns (failed: Option<RollbackError>)
      requires Wired()
      modifies executor
      ensures RollbackRun(executor.Current(), failed) == DeclaredRollback(env, old(executor.Current()), step, result, c, m)
    {
      if m.Some? && FailClosed(m.value) {
        return Some(NotRecoverable);
      }
      if m.Some? && m.value.rollback.Some? {
        var d := m.value.rollback.value;
        failed := RollBackApp(step, result, c, d);
        if failed.Some? || (d.strategy == "primitive" && d.primitive == RESTORE) {
          return;
        }
        if c.checkpointId == "" {
          return None;
        }
      }
      failed := Restore(c.checkpointId, MissingCheckpoint);
    }

    /** Turn the coordinator's answer into a return or another attempt. */
    method RecoverFrom(record: StepRecord, c: CvrRun, m: Option<Manifest>, attempt: nat, maxRetries: nat)
      returns (again: bool, result: Option<StepResult>, failure: Option<StepFailure>)
      requires Wired() && executor.Current() == c.world && record.status == Running
      modifies executor, record
      ensures AttemptRun(executor.Current(), record.State(), again, result, failure) ==
              Recover(env, c, record.step, old(record.State()), m, attempt, maxRetries)
    {
      hide DeclaredRollback;
      again, result, failure := false, ResultOf(c), None;
      if c.err == Some(DepthExceeded) {
        record.status := StepFailed;
        return false, None, Some(DepthFailure);
      }
      if Succeeds(c) {
        return;
      }
      var decision := Policy(KindOf(result), attempt, maxRetries);
      match ChosenAction(m, c) {
        case Retry =>
          if attempt < maxRetries {
            decision := Again;
          }
        case RollBack =>
          var failed := RollBackDeclared(record.step, result, c, m);
          if failed.Some? {
            decision := Fail;
          } else {
            record.status := RolledBack;
            decision := Pause;
          }
        case Escalate => record.escalated, decision := true, Pause;
        case Rewrite => record.escalated, decision := true, Pause;
        case Abort => decision := Fail;
        case Skip => decision := Continue;
        case NoAction =>
        case Unrecognised =>
      }
      match decision {
        case Again => return true, None, None;
        case Pause =>
          if record.status != RolledBack {
            record.status := StepFailed;
          }
          return false, None, Some(Paused);
        case Fail =>
          record.status := StepFailed;
          return false, None, Some(Terminal);
        case Continue =>
          record.status := StepSkipped;
          return false, Some(StepResult(true, Absent, None)), None;
      }
    }

    /** The retry loop. */
    method ExecuteStep(record: StepRecord, taskLimit: int) returns (result: Option<StepResult>, failure: Option<StepFailure>)
      requires Wired()
      modifies executor, record
      ensures StepRun(executor.Current(), record.State(), result, failure) ==
              RunStep(env, old(executor.Current()), record.step, old(record.State()), taskLimit)
      ensures failure.None? <==> result.Some?
      ensures result.Some? ==> result.value.success
      ensures failure != Some(Exhausted)
    {
      hide CvrExecute, Recover;
      var step, maxRetries := record.step, MaxRetries(taskLimit);
      ghost var run := RunStep(env, executor.Current(), step, record.State(), taskLimit);
      ResultOrError(env, executor.Current(), step, record.State(), 0, maxRetries);
      var attempt := 0;
      while attempt <= maxRetries
        invariant attempt <= maxRetries + 1
        invariant RunFrom(env, executor.Current(), step, record.State(), attempt, maxRetries) == run
      {
        var manifest := env.lookup(executor.Current(), 1);
        record.status := Running;
        var c := Coordinate(step, attempt);
        record.checkpointId := c.checkpointId;
        var again;
        again, result, failure := RecoverFrom(record, c, manifest, attempt, maxRetries);
        if !again {
          return;
        }
        attempt := attempt + 1;
      }
      result, failure := None, Some(Exhausted);
    }
  }
}
