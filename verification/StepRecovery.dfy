/** What the engine calls and reports around a primitive: its verification, its failed checkpoint, its rollback and the
    payload of that rollback. */
module StepRecovery {
  import opened Common
  import opened Json
  import opened PrimitiveExecutor
  import opened Cvr
  import opened AppManifest
  import opened StepEngine
  import opened StepTheorems

  // ---- The checkpoint ------------------------------------------------------------------------------

  /** An attempt whose checkpoint fails makes that one call and no other, is never rolled back, whatever its app declares,
      and is tried again unless the limit is reached, the failure is a duplicate, or the executor is nested too deep. */
  lemma FailedCheckpointEnds(env: Env, w: World, step: Step, state: StepState, attempt: nat, maxRetries: nat)
    requires ShouldCheckpoint(InferIntent(env, w, step.primitive)) && !CheckpointTaken(env, w, step)
    ensures var call := Call("state.checkpoint", Value(JObj(map["label" := JStr(step.primitive + "-" + step.id)])));
            var r := env.behaviour(w, call);
            var a := Attempt(env, w, step, state, attempt, maxRetries);
            && a.world == After(w, call, r) && a.world.trace == w.trace + [call]
            && a.result == None && a.state.checkpointId == "" && a.state.status in {Running, StepFailed}
            && (a.again <==> r.err != Some(DepthExceeded) && attempt < maxRetries && KindOf(r.result) != Duplicate)
            && (!a.again ==> a.failure == Some(if r.err == Some(DepthExceeded) then DepthFailure else Paused))
  {
    hide InferIntent, CheckpointTaken, ChooseStrategy, Dispatch;
  }

  // ---- Verification --------------------------------------------------------------------------------

  function DeclaredVerification(verify: AppVerify, input: RawJson): Option<Call> {
    if verify.strategy == "primitive" then Some(Call(verify.primitive, input))
    else if verify.strategy == "command" then
      Some(Call("verify.command", Value(JObj(map["command" := JStr(verify.command)]))))
    else None
  }

  /** The call that verifies an attempt whose primitive succeeded: what its app declares, if that is a known way to verify,
      and otherwise the engine's own strategy, a test suite with 60 seconds unless it says how many. */
  function VerifyCall(env: Env, verify: Option<AppVerify>, step: Step): Option<Call> {
    if verify.Some? && verify.value.strategy in {"primitive", "command", "none"} then
      DeclaredVerification(verify.value, step.input)
    else match env.strategy
      case None => None
      case Some(AppDeclared(own, input)) => DeclaredVerification(own, input)
      case Some(TestSuite(_, command, filter, seconds)) =>
        Some(Call("verify.test", Value(JObj(map["command" := JStr(command), "filter" := JStr(filter),
                                                "timeout_s" := JNum(if seconds >= 1 then seconds else 60)]))))
  }

  lemma DeclaredCall(env: Env, w: World, step: Step)
    ensures var manifest := env.lookup(w, 2);
            var strategy := ChooseStrategy(env, w, step);
            VerifyCall(env, if manifest.Some? then manifest.value.verify else None, step) ==
            if strategy.Some? then StrategyCall(strategy.value) else None
  {
  }

  lemma DispatchTrace(env: Env, w: World, step: Step, id: string, intent: Intent, strategy: Option<Strategy>, attempt: nat)
    ensures var r := env.behaviour(w, MainCall(step));
            var call := if strategy.Some? then StrategyCall(strategy.value) else None;
            Dispatch(env, w, step, id, intent, strategy, attempt).world.trace ==
            w.trace + [MainCall(step)]
              + (if r.err.None? && (r.result.None? || r.result.value.success) && call.Some? then [call.value] else [])
  {
    hide Judge, Decide, StrategyCall, FailureOf;
  }

  lemma VerifiedBy(env: Env, w: World, step: Step, attempt: nat)
    ensures var ready := Ready(env, w, step);
            var r := env.behaviour(ready, MainCall(step));
            var manifest := env.lookup(w, 2);
            var call := VerifyCall(env, if manifest.Some? then manifest.value.verify else None, step);
            var dispatched := ShouldCheckpoint(InferIntent(env, w, step.primitive)) ==> CheckpointTaken(env, w, step);
            var said := r.result.None? || r.result.value.success;
            dispatched ==>
              CvrExecute(env, w, step, attempt).world.trace == ready.trace + [MainCall(step)]
                + (if r.err.None? && said && call.Some? then [call.value] else [])
  {
    hide InferIntent, ChooseStrategy, Dispatch, VerifyCall, StrategyCall;
    var intent, strategy := InferIntent(env, w, step.primitive), ChooseStrategy(env, w, step);
    var id := if ShouldCheckpoint(intent) then CheckpointId(env.behaviour(w, CheckpointCall(step)).result) else Some("");
    DeclaredCall(env, w, step);
    if id.Some? { DispatchTrace(env, Ready(env, w, step), step, id.value, intent, strategy, attempt); }
  }

  // ---- Rollback ------------------------------------------------------------------------------------

  /** The app declares a rollback by a primitive of its own. */
  predicate OwnRollback(m: Option<Manifest>) {
    && m.Some? && m.value.rollback.Some? && m.value.rollback.value.strategy == "primitive"
    && m.value.rollback.value.primitive !in {"", "state.restore"}
  }

  /** Each error of a rollback has its own cause. An app that mutates irreversibly or at high risk and declares no rollback
      is refused one, with or without a checkpoint. */
  lemma RollbackErrors(env: Env, w: World, step: Step, result: Option<StepResult>, c: CvrRun, m: Option<Manifest>)
    ensures var err := DeclaredRollback(env, w, step, result, c, m).err;
            var declared := m.Some? && m.value.rollback.Some?;
            var refused := && m.Some? && m.value.rollback.None? && m.value.intent.category == Mutation
                           && (m.value.intent.reversible ==> m.value.intent.risk == High);
            var d := if declared then m.value.rollback.value else AppRollback("", "");
            var payload := RollbackPayload(step, result, c);
            && (err == Some(NotRecoverable) <==> refused)
            && (err == Some(MissingCheckpoint) <==> !refused && !declared && c.checkpointId == "")
            && (err == Some(MissingTarget) <==> d == AppRollback("primitive", "state.restore") && c.checkpointId == "")
            && (err == Some(EmptyPrimitive) <==> declared && d == AppRollback("primitive", ""))
            && (err == Some(BadPayload) <==> OwnRollback(m) && payload.None?)
            && (err == Some(AppRollbackFailed) <==>
                OwnRollback(m) && payload.Some? && env.behaviour(w, Call(d.primitive, Value(payload.value))).err.Some?)
  {
    hide RollbackPayload, RestoreParams;
  }

  /** A mutation whose app declares a rollback is never retried once it failed, erred or timed out: the attempt ends, rolled
      back or with an error, whatever the decision tree says. */
  lemma DeclaredIsNotRetried(env: Env, w: World, step: Step, state: StepState, attempt: nat, maxRetries: nat)
    ensures var c := CvrExecute(env, w, step, attempt);
            var m := env.lookup(w, 1);
            var a := Attempt(env, w, step, state, attempt, maxRetries);
            && m.Some? && m.value.rollback.Some? && m.value.intent.category == Mutation
            && (c.outcome == Failed || c.outcome == Errored || c.outcome == Timeout) && c.err != Some(DepthExceeded) ==>
              && !a.again && a.result == None
              && (if DeclaredRollback(env, c.world, step, ResultOf(c), c, m).err.None?
                  then a.state.status == RolledBack && a.failure == Some(Paused)
                  else a.state.status == StepFailed && a.failure == Some(Terminal))
  {
    hide CvrExecute, DeclaredRollback;
  }

  /** An attempt that passed leaves the decision tree unasked. */
  lemma PassedIsUndecided(env: Env, w: World, step: Step, attempt: nat)
    ensures var c := CvrExecute(env, w, step, attempt);
            c.outcome == Passed || c.outcome == Unset ==> c.action == NoAction
  {
    hide InferIntent, CheckpointTaken, Decide, ChooseStrategy, FailureOf;
    DispatchDecides(env, Ready(env, w, step), step, attempt);
  }

  /** What the tree is asked about an attempt that did not pass: a timeout, an execution error, or a failed verification,
      always with the limit of 3. */
  lemma TreeIsAsked(env: Env, w: World, step: Step, id: string, intent: Intent, strategy: Option<Strategy>, attempt: nat)
    ensures var c := Dispatch(env, w, step, id, intent, strategy, attempt);
            var failed := env.behaviour(w, MainCall(step)).err.Some?;
            var cause := if c.outcome == Timeout then TimeoutFailure else if failed then ExecError else VerifyFail;
            c.outcome != Passed ==> c.action == Decide(env.tree, RecoveryCtx(cause, attempt, intent, c.outcome, 3))
  {
    hide Decide, StrategyCall, Unwrap, Verdict, Flag;
  }

  lemma DispatchDecides(env: Env, w: World, step: Step, attempt: nat)
    ensures forall id, intent, strategy ::
              var c := Dispatch(env, w, step, id, intent, strategy, attempt);
              c.outcome != Unset && (c.outcome == Passed ==> c.action == NoAction)
  {
    hide Decide, StrategyCall, FailureOf;
  }

  // ---- The payload of a rollback -------------------------------------------------------------------

  /** The outcome a payload reports, read back. */
  function OutcomeNamed(text: string): Option<Outcome> {
    if text == "passed" then Some(Passed) else if text == "failed" then Some(Failed)
    else if text == "skipped" then Some(Skipped) else if text == "timeout" then Some(Timeout)
    else if text == "error" then Some(Errored) else None
  }

  lemma OutcomeReadsBack(o: Outcome)
    ensures OutcomeNamed(OutcomeText(o)) == if o == Unset then None else Some(o)
    ensures o == Unset ==> OutcomeText(o) == ""
  {
    assert "passed"[0] == 'p' && "failed"[0] == 'f' && "skipped"[0] == 's' && "timeout"[0] == 't' && "error"[0] == 'e';
  }

  /** What a rollback primitive is told: always the primitive, the checkpoint id and the parameters, the result exactly when
      there is one that is not null, and the outcome exactly when the attempt came to one, and it reads back. There is a
      payload exactly when the parameters are absent, null or an object and the result is JSON. */
  lemma PayloadMeaning(step: Step, result: Option<StepResult>, c: CvrRun)
    ensures var payload := RollbackPayload(step, result, c);
            var data := if result.Some? then result.value.data else Absent;
            && (payload.Some? <==>
                !data.Malformed? && !step.input.Malformed? &&
                (step.input.Value? ==> step.input.doc.JObj? || step.input.doc.JNull?))
            && (payload.Some? ==>
                  && payload.value.JObj?
                  && var f := payload.value.fields;
                  && f.Keys == {"primitive", "checkpoint_id", "params"}
                       + (if data.Value? && data.doc != JNull then {"result"} else {})
                       + (if c.outcome != Unset then {"verify"} else {})
                  && f["primitive"] == JStr(step.primitive) && f["checkpoint_id"] == JStr(c.checkpointId)
                  && f["params"] == (if step.input.Value? then step.input.doc else JNull)
                  && ("result" in f ==> f["result"] == data.doc)
                  && ("verify" in f ==>
                        exists text :: OutcomeNamed(text) == Some(c.outcome) && f["verify"] == JObj(map["outcome" := JStr(text)])))
  {
    hide OutcomeText, OutcomeNamed;
    OutcomeReadsBack(c.outcome);
  }
}
