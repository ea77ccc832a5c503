/** One step of a task, run through attempts of checkpoint, dispatch, verify and recover. */
module StepEngine {
  import opened Common
  import opened Json
  import opened PrimitiveExecutor
  import opened Cvr
  import opened AppManifest

  datatype Status = Pending | Running | StepFailed | StepSkipped | RolledBack

  datatype Step = Step(id: string, primitive: string, input: RawJson)
  datatype StepState = StepState(status: Status, checkpointId: string, escalated: bool)

  // Everything around a step that the engine does not control. `lookup` answers the three registry
  // lookups an attempt makes (0: intent, 1: rollback, 2: verify); the registry may change in between.
  datatype Env = Env(
    behaviour: Behaviour,
    saves: World -> bool,
    lookup: (World, nat) -> Option<Manifest>,
    strategy: Option<Strategy>,
    tree: Tree)

  // Which return statement ended the step. Exhausted is the one after the loop.
  datatype StepFailure = DepthFailure | Paused | Terminal | Exhausted

  // ---- Decisions -------------------------------------------------------------------------------

  // The intent switch of the built-in primitives, one rule per case label, in order.
  datatype Rule = Rule(name: string, exact: bool, intent: Intent)

  const READS := Intent(Query, true, Low)
  const CHECKS := Intent(Verification, true, Medium)
  const WRITES := Intent(Mutation, false, High)

  const INTENT_RULES: seq<Rule> := [
    Rule("fs.read", false, READS), Rule("fs.list", false, READS), Rule("fs.diff", false, READS),
    Rule("code.search", false, READS), Rule("code.symbols", false, READS), Rule("db.query", false, READS),
    Rule("browser.goto", false, READS), Rule("browser.read", false, READS),
    Rule("verify.", false, CHECKS), Rule("test.", false, CHECKS), Rule("repo.run_tests", false, CHECKS),
    Rule(RESTORE, true, Intent(Rollback, true, High)),
    Rule("fs.write", false, WRITES), Rule("macro.safe_edit", false, WRITES), Rule("repo.patch", false, WRITES),
    Rule("db.execute", false, WRITES), Rule("shell.exec", false, WRITES)]

  function MatchRule(rules: seq<Rule>, p: string): Option<Intent> {
    if rules == [] then None
    else if if rules[0].exact then p == rules[0].name else rules[0].name <= p then Some(rules[0].intent)
    else MatchRule(rules[1..], p)
  }

  function StaticIntent(p: string): Option<Intent> {
    MatchRule(INTENT_RULES, p)
  }

  function InferIntent(env: Env, w: World, p: string): Intent {
    if StaticIntent(p).Some? then StaticIntent(p).value
    else if env.lookup(w, 0).Some? then env.lookup(w, 0).value.intent
    else WRITES
  }

  /** The strategy to run after the primitive: a declared one, none at all, or the engine's default. */
  function ChooseStrategy(env: Env, w: World, step: Step): Option<Strategy> {
    var manifest := env.lookup(w, 2);
    if manifest.None? || manifest.value.verify.None? then env.strategy
    else
      var verify := manifest.value.verify.value;
      if verify.strategy == "none" then None
      else if verify.strategy == "primitive" || verify.strategy == "command" then Some(AppDeclared(verify, step.input))
      else env.strategy
  }

  predicate FailClosed(m: Manifest) {
    m.rollback.None? && m.intent.category == Mutation && (!m.intent.reversible || m.intent.risk == High)
  }

  predicate PreferDeclaredRollback(m: Option<Manifest>, outcome: Outcome) {
    m.Some? && m.value.rollback.Some? && m.value.intent.category == Mutation && outcome in {Failed, Errored, Timeout}
  }

  datatype Decision = Again | Pause | Fail | Continue

  function Policy(kind: FailureKind, attempt: nat, maxRetries: nat): Decision {
    if kind == Duplicate || attempt >= maxRetries then Pause else Again
  }

  // ---- One attempt -----------------------------------------------------------------------------

  function CheckpointCall(step: Step): Call {
    Call(CHECKPOINT, Value(JObj(map["label" := JStr(step.primitive + "-" + step.id)])))
  }

  function MainCall(step: Step): Call {
    Call(step.primitive, step.input)
  }

  // What the coordinator hands back, with the two results its executor adapter remembered.
  datatype CvrRun = CvrRun(
    world: World, checkpointId: string, outcome: Outcome, action: Action, err: Option<Err>,
    main: Option<StepResult>, last: Option<StepResult>)

  predicate CheckpointTaken(env: Env, w: World, step: Step) {
    var r := env.behaviour(w, CheckpointCall(step));
    r.err.None? && CheckpointId(r.result).Some? && env.saves(After(w, CheckpointCall(step), r))
  }

  /** The run of an attempt whose checkpoint failed: nothing else is dispatched. */
  function FailedCheckpoint(env: Env, w: World, step: Step): CvrRun {
    var r := env.behaviour(w, CheckpointCall(step));
    CvrRun(After(w, CheckpointCall(step), r), "", Unset, NoAction,
           if r.err.Some? then r.err else Some(Failure("layer_a_failed")),
           if step.primitive == CHECKPOINT then r.result else None, r.result)
  }

  /** Dispatch, verify and decide, starting from the world left by the checkpoint. */
  function Dispatch(env: Env, w: World, step: Step, id: string, intent: Intent, strategy: Option<Strategy>, attempt: nat)
    : CvrRun
  {
    var r := env.behaviour(w, MainCall(step));
    var w1 := After(w, MainCall(step), r);
    if strategy.None? || r.err.Some? || !Succeeded(r) then
      Decided(env, CvrRun(w1, id, ExecutionOutcome(r), NoAction, r.err, r.result, r.result), r, intent, attempt)
    else
      var call := StrategyCall(strategy.value);
      if call.None? then
        Decided(env, CvrRun(w1, id, Errored, NoAction, None, r.result, r.result), r, intent, attempt)
      else
        var v := env.behaviour(w1, call.value);
        Decided(env, CvrRun(After(w1, call.value, v), id, Judge(strategy.value, v), NoAction, None,
                            if call.value.name == step.primitive then v.result else r.result, v.result),
                r, intent, attempt)
  }

  /** Ask the tree for an action unless the outcome is a pass. */
  function Decided(env: Env, run: CvrRun, r: Reply, intent: Intent, attempt: nat): CvrRun {
    if run.outcome == Passed then run
    else run.(action := Decide(env.tree,
                               RecoveryCtx(FailureOf(r, run.outcome), attempt, intent, run.outcome, TREE_RETRIES)))
  }

  function CvrExecute(env: Env, w: World, step: Step, attempt: nat): CvrRun {
    var intent := InferIntent(env, w, step.primitive);
    var strategy := ChooseStrategy(env, w, step);
    if !ShouldCheckpoint(intent) then Dispatch(env, w, step, "", intent, strategy, attempt)
    else if !CheckpointTaken(env, w, step) then FailedCheckpoint(env, w, step)
    else
      var r := env.behaviour(w, CheckpointCall(step));
      Dispatch(env, After(w, CheckpointCall(step), r), step, CheckpointId(r.result).value, intent, strategy, attempt)
  }

  // Why a rollback failed. MissingCheckpoint is the plain rollback without an id, MissingTarget a
  // declared rollback through state.restore without one.
  datatype RollbackError =
    | NotRecoverable | EmptyPrimitive | BadPayload | AppRollbackFailed | RestoreFailed | MissingCheckpoint | MissingTarget

  datatype RollbackRun = RollbackRun(world: World, err: Option<RollbackError>)

  function OutcomeText(o: Outcome): string {
    match o
    case Unset => "" case Passed => "passed" case Failed => "failed"
    case Skipped => "skipped" case Timeout => "timeout" case Errored => "error"
  }

  /** The payload of a declared rollback; None when the input or the result cannot be decoded. */
  function RollbackPayload(step: Step, result: Option<StepResult>, c: CvrRun): Option<Json> {
    var data := if result.Some? then result.value.data else Absent;
    if !(step.input.Absent? || (step.input.Value? && (step.input.doc.JObj? || step.input.doc.JNull?))) then None
    else if data.Malformed? then None
    else
      var original := if step.input.Absent? then JNull else step.input.doc;
      var basic := map["primitive" := JStr(step.primitive), "checkpoint_id" := JStr(c.checkpointId),
                       "params" := original];
      var withResult := if data.Value? && data.doc != JNull then basic["result" := data.doc] else basic;
      Some(JObj(if c.outcome == Unset then withResult
                else withResult["verify" := JObj(map["outcome" := JStr(OutcomeText(c.outcome))])]))
  }

  function WorkspaceRestore(env: Env, w: World, id: string, missing: RollbackError): RollbackRun {
    if id == "" then RollbackRun(w, Some(missing))
    else
      var c := Call(RESTORE, RestoreParams(id));
      var r := env.behaviour(w, c);
      RollbackRun(After(w, c, r), if r.err.Some? then Some(RestoreFailed) else None)
  }

  function AppRollbackRun(env: Env, w: World, step: Step, result: Option<StepResult>, c: CvrRun, d: AppRollback)
    : RollbackRun
  {
    if d.strategy != "primitive" then RollbackRun(w, None)
    else if d.primitive == "" then RollbackRun(w, Some(EmptyPrimitive))
    else if d.primitive == RESTORE then WorkspaceRestore(env, w, c.checkpointId, MissingTarget)
    else
      var payload := RollbackPayload(step, result, c);
      if payload.None? then RollbackRun(w, Some(BadPayload))
      else
        var call := Call(d.primitive, Value(payload.value));
        var r := env.behaviour(w, call);
        RollbackRun(After(w, call, r), if r.err.Some? then Some(AppRollbackFailed) else None)
  }

  function DeclaredRollback(env: Env, w: World, step: Step, result: Option<StepResult>, c: CvrRun, m: Option<Manifest>)
    : RollbackRun
  {
    if m.Some? && FailClosed(m.value) then RollbackRun(w, Some(NotRecoverable))
    else if m.Some? && m.value.rollback.Some? then
      var d := m.value.rollback.value;
      var app := AppRollbackRun(env, w, step, result, c, d);
      if app.err.Some? || (d.strategy == "primitive" && d.primitive == RESTORE) || c.checkpointId == "" then app
      else WorkspaceRestore(env, app.world, c.checkpointId, MissingCheckpoint)
    else WorkspaceRestore(env, w, c.checkpointId, MissingCheckpoint)
  }

  function ResultOf(c: CvrRun): Option<StepResult> {
    if c.main.Some? then c.main else c.last
  }

  predicate Succeeds(c: CvrRun) {
    c.err.None? && c.outcome == Passed && ResultOf(c).Some? && ResultOf(c).value.success
  }

  function KindOf(result: Option<StepResult>): FailureKind {
    if result.Some? && result.value.error.Some? then result.value.error.value.kind else Unknown
  }

  /** The recovery action of an attempt: a declared rollback overrides the tree. */
  function ChosenAction(m: Option<Manifest>, c: CvrRun): Action {
    if PreferDeclaredRollback(m, c.outcome) then RollBack else c.action
  }

  datatype AttemptRun = AttemptRun(
    world: World, state: StepState, again: bool, result: Option<StepResult>, failure: Option<StepFailure>)

  function Attempt(env: Env, w: World, step: Step, state: StepState, attempt: nat, maxRetries: nat): AttemptRun {
    var c := CvrExecute(env, w, step, attempt);
    Recover(env, c, step, state.(status := Running, checkpointId := c.checkpointId), env.lookup(w, 1), attempt, maxRetries)
  }

  /** What follows the coordinator's answer: return, retry, or recover and return. */
  function Recover(env: Env, c: CvrRun, step: Step, s: StepState, m: Option<Manifest>, attempt: nat, maxRetries: nat)
    : AttemptRun
  {
    if c.err == Some(DepthExceeded) then
      AttemptRun(c.world, s.(status := StepFailed), false, None, Some(DepthFailure))
    else if Succeeds(c) then AttemptRun(c.world, s, false, ResultOf(c), None)
    else
      var byPolicy := Policy(KindOf(ResultOf(c)), attempt, maxRetries);
      match ChosenAction(m, c)
      case Retry => Conclude(c.world, s, if attempt >= maxRetries then byPolicy else Again)
      case RollBack =>
        var rb := DeclaredRollback(env, c.world, step, ResultOf(c), c, m);
        if rb.err.Some? then Conclude(rb.world, s, Fail) else Conclude(rb.world, s.(status := RolledBack), Pause)
      case Escalate => Conclude(c.world, s.(escalated := true), Pause)
      case Rewrite => Conclude(c.world, s.(escalated := true), Pause)
      case Abort => Conclude(c.world, s, Fail)
      case Skip => Conclude(c.world, s, Continue)
      case NoAction => Conclude(c.world, s, byPolicy)
      case Unrecognised => Conclude(c.world, s, byPolicy)
  }

  function Conclude(w: World, s: StepState, d: Decision): AttemptRun {
    match d
    case Again => AttemptRun(w, s, true, None, None)
    case Pause =>
      AttemptRun(w, if s.status == RolledBack then s else s.(status := StepFailed), false, None, Some(Paused))
    case Fail => AttemptRun(w, s.(status := StepFailed), false, None, Some(Terminal))
    case Continue =>
      AttemptRun(w, s.(status := StepSkipped), false, Some(StepResult(true, Absent, None)), None)
  }

  // ---- All attempts ----------------------------------------------------------------------------

  datatype StepRun = StepRun(world: World, state: StepState, result: Option<StepResult>, failure: Option<StepFailure>)

  function MaxRetries(taskLimit: int): nat {
    if taskLimit > 0 then taskLimit else 3
  }

  function RunFrom(env: Env, w: World, step: Step, state: StepState, attempt: nat, maxRetries: nat): StepRun
    decreases maxRetries + 1 - attempt
  {
    if attempt > maxRetries then StepRun(w, state, None, Some(Exhausted))
    else
      var a := Attempt(env, w, step, state, attempt, maxRetries);
      if a.again then RunFrom(env, a.world, step, a.state, attempt + 1, maxRetries)
      else StepRun(a.world, a.state, a.result, a.failure)
  }

  function RunStep(env: Env, w: World, step: Step, state: StepState, taskLimit: int): StepRun {
    RunFrom(env, w, step, state, 0, MaxRetries(taskLimit))
  }
}
