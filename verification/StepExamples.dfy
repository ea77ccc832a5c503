/** Concrete runs of a step: what a rollback leaves behind, rollbacks without a checkpoint, calls beyond the
    dispatches, and a result that is not the primitive's own. */
module StepExamples {
  import opened Common
  import opened Json
  import opened PrimitiveExecutor
  import opened Cvr
  import opened AppManifest
  import opened StepEngine
  import opened StepTheorems
  import ManifestNormalizer
  import Text

  // ---- What a rollback does not undo ------------------------------------------------------------

  const DIRTY: Workspace := map["a.txt" := "half written"]

  function HalfWriter(w: World, c: Call): Reply {
    if c.name == CHECKPOINT then
      Reply(Some(StepResult(true, Value(JObj(map["checkpoint_id" := JStr("c1")])), None)), None, w.workspace)
    else if c.name == RESTORE then Reply(Some(StepResult(true, Absent, None)), None, w.workspace)
    else if w.workspace == map[] then Reply(None, Some(Failure("connection lost")), DIRTY)
    else Reply(Some(StepResult(false, Absent, None)), None, w.workspace)
  }

  const APP_WRITE := Step("s1", "app.write", Absent)
  const START := World(map[], map[], [])
  const NEW_STEP := StepState(Pending, "", false)

  function HalfWriteEnv(): Env {
    Env((w, c) => HalfWriter(w, c), w => true, (w, i) => None, None, DefaultTree())
  }

  /** A first attempt that errors half way is retried without a restore, so a step rolled back in its second
      attempt keeps the damage of the first: rolled back means back to the start of the last attempt only. */
  lemma RolledBackKeepsEarlierAttempts()
    ensures var run := RunStep(HalfWriteEnv(), START, APP_WRITE, NEW_STEP, 1);
            run.state.status == RolledBack && run.world.workspace == DIRTY != map[]
  {
    hide CvrExecute, Recover;
    FirstHalfWrite(START, NEW_STEP);
    var a0 := Attempt(HalfWriteEnv(), START, APP_WRITE, NEW_STEP, 0, 1);
    SecondHalfWrite(a0.world, a0.state);
    assert "a.txt" in DIRTY;
  }

  lemma FirstHalfRun(w: World)
    requires w.workspace == map[]
    ensures var c := CvrExecute(HalfWriteEnv(), w, APP_WRITE, 0);
            c.world.workspace == DIRTY && c.err == Some(Failure("connection lost")) && c.action == Retry
  {
    hide StaticIntent, Decide;
    UnknownPrimitive(APP_WRITE.primitive);
    DefaultDecision(RecoveryCtx(ExecError, 0, WRITES, Errored, TREE_RETRIES));
  }

  lemma FirstHalfWrite(w: World, s: StepState)
    requires w.workspace == map[]
    ensures var a := Attempt(HalfWriteEnv(), w, APP_WRITE, s, 0, 1);
            a.again && a.world.workspace == DIRTY
  {
    hide CvrExecute;
    FirstHalfRun(w);
  }

  lemma SecondHalfRun(w: World)
    requires w.workspace == DIRTY
    ensures var c := CvrExecute(HalfWriteEnv(), w, APP_WRITE, 1);
            c.checkpointId == "c1" && c.outcome == Failed && c.err.None? && c.action == RollBack
  {
    hide StaticIntent, Decide;
    UnknownPrimitive(APP_WRITE.primitive);
    assert "a.txt" in DIRTY;
    DefaultDecision(RecoveryCtx(VerifyFail, 1, WRITES, Failed, TREE_RETRIES));
  }

  lemma SecondHalfWrite(w: World, s: StepState)
    requires w.workspace == DIRTY
    ensures var a := Attempt(HalfWriteEnv(), w, APP_WRITE, s, 1, 1);
            !a.again && a.state.status == RolledBack && a.world.workspace == DIRTY
  {
    hide CvrExecute;
    SecondHalfRun(w);
    RollbackRestores(HalfWriteEnv(), w, APP_WRITE, s, 1, 1);
  }

  lemma UnknownPrimitive(p: string)
    requires p == "app.write"
    ensures StaticIntent(p) == None
  {
    hide MatchRule;
    NoRule(INTENT_RULES, p);
  }

  lemma UnknownCheckpoint(p: string)
    requires p == CHECKPOINT
    ensures StaticIntent(p) == None
  {
    hide MatchRule;
    NoRule(INTENT_RULES, p);
  }

  predicate Misses(r: Rule, p: string) {
    if r.exact then |r.name| != |p|
    else |r.name| > 1 && |p| > 1 && (r.name[0] != p[0] || r.name[1] != p[1])
  }

  lemma {:induction false} NoRule(rules: seq<Rule>, p: string)
    requires forall i :: 0 <= i < |rules| ==> Misses(rules[i], p)
    ensures MatchRule(rules, p) == None
  {
    if rules != [] {
      NoRule(rules[1..], p);
    }
  }

  // ---- Rollbacks without a checkpoint, one run each ----------------------------------------------

  function AppOf(intent: Intent, rollback: Option<AppRollback>): Manifest {
    Manifest("app", "app.write", "", BlankText, BlankText, "", "/tmp/app.sock", "active", "", None, "", rollback, intent)
  }

  /** An app whose write fails after changing the workspace and whose undo call does nothing. */
  function FailingApp(m: Manifest): Env {
    Env((w: World, c: Call) => Reply(Some(StepResult(c.name == "app.undo", Absent, None)), None,
                                     if c.name == "app.write" then DIRTY else w.workspace),
        w => true, (w, i) => Some(m), None, DefaultTree())
  }

  lemma FailingAppRun(m: Manifest)
    requires !ShouldCheckpoint(m.intent) && m.verify.None?
    ensures var c := CvrExecute(FailingApp(m), START, APP_WRITE, 0);
            && c.checkpointId == "" && c.outcome == Failed && c.err.None? && !Succeeds(c)
            && c.world == World(DIRTY, map[], [MainCall(APP_WRITE)])
            && ResultOf(c) == Some(StepResult(false, Absent, None))
            && (c.action == RollBack <==> !m.intent.reversible)
  {
    UnknownPrimitive(APP_WRITE.primitive);
    DefaultDecision(RecoveryCtx(VerifyFail, 0, m.intent, Failed, TREE_RETRIES));
  }

  // Which run each declaration leads to: the rollback's error, the final status, and the calls after the write.
  ghost predicate EndsWith(m: Manifest, err: Option<RollbackError>, status: Status, calls: seq<Call>) {
    var env := FailingApp(m);
    var c := CvrExecute(env, START, APP_WRITE, 0);
    var a := Attempt(env, START, APP_WRITE, NEW_STEP, 0, 3);
    && ChosenAction(Some(m), c) == RollBack && c.checkpointId == ""
    && DeclaredRollback(env, c.world, APP_WRITE, ResultOf(c), c, Some(m)).err == err
    && !a.again && a.state.status == status && a.result.None?
    && a.world.workspace == DIRTY && a.world.trace == [MainCall(APP_WRITE)] + calls
  }

  const REVERSIBLE := Intent(Mutation, true, Medium)

  /** An irreversible intent that is no mutation, and no declared rollback: the missing-checkpoint error. */
  lemma MissingCheckpointHappens()
    ensures EndsWith(AppOf(Intent(OtherCategory, false, Low), None), Some(MissingCheckpoint), StepFailed, [])
  {
    hide CvrExecute, RollbackPayload, Decide;
    FailingAppRun(AppOf(Intent(OtherCategory, false, Low), None));
  }

  /** A reversible mutation whose declared rollback is a workspace restore: the missing-target error. */
  lemma MissingTargetHappens()
    ensures EndsWith(AppOf(REVERSIBLE, Some(AppRollback("primitive", RESTORE))), Some(MissingTarget), StepFailed, [])
  {
    hide CvrExecute, RollbackPayload, Decide;
    FailingAppRun(AppOf(REVERSIBLE, Some(AppRollback("primitive", RESTORE))));
  }

  /** The same mutation with rollback declared as none: reported rolled back with nothing called and nothing undone. */
  lemma NothingUndoneHappens()
    ensures EndsWith(AppOf(REVERSIBLE, Some(AppRollback("none", ""))), None, RolledBack, [])
  {
    hide CvrExecute, RollbackPayload, Decide;
    FailingAppRun(AppOf(REVERSIBLE, Some(AppRollback("none", ""))));
  }

  lemma UndoPayload(c: CvrRun)
    requires ResultOf(c) == Some(StepResult(false, Absent, None))
    ensures RollbackPayload(APP_WRITE, ResultOf(c), c).Some?
  {
  }

  /** With a rollback primitive of its own: that one call, and no restore of the workspace. */
  lemma DeclaredRollbackOnlyHappens() returns (call: Call)
    ensures call.name == "app.undo"
    ensures EndsWith(AppOf(REVERSIBLE, Some(AppRollback("primitive", "app.undo"))), None, RolledBack, [call])
  {
    hide CvrExecute, RollbackPayload, Decide;
    var m := AppOf(REVERSIBLE, Some(AppRollback("primitive", "app.undo")));
    FailingAppRun(m);
    var c := CvrExecute(FailingApp(m), START, APP_WRITE, 0);
    UndoPayload(c);
    call := Call("app.undo", Value(RollbackPayload(APP_WRITE, ResultOf(c), c).value));
  }

  // ---- Calls beyond the dispatches --------------------------------------------------------------

  const OWN_ROLLBACK := AppOf(Intent(OtherCategory, false, Low), Some(AppRollback("primitive", "app.write")))

  /** An app that is busy for three calls and then fails, and declares its write as the rollback of its write. */
  function BusyApp(): Env {
    Env((w: World, c: Call) =>
          if |w.trace| < 3 then Reply(None, Some(Failure("busy")), w.workspace)
          else Reply(Some(StepResult(false, Absent, None)), None, w.workspace),
        w => true, (w, i) => Some(OWN_ROLLBACK), None, DefaultTree())
  }

  lemma BusyRun(w: World, attempt: nat)
    requires |w.trace| == attempt <= 3
    ensures var c := CvrExecute(BusyApp(), w, APP_WRITE, attempt);
            && c.checkpointId == "" && c.world.trace == w.trace + [MainCall(APP_WRITE)] && c.outcome != Passed
            && (if attempt < 3 then c.err == Some(Failure("busy")) && c.outcome == Errored && c.action == Retry
                else c.err.None? && c.action == RollBack && ResultOf(c) == Some(StepResult(false, Absent, None)))
  {
    hide StaticIntent, Decide;
    UnknownPrimitive(APP_WRITE.primitive);
    DefaultDecision(RecoveryCtx(ExecError, attempt, OWN_ROLLBACK.intent, Errored, TREE_RETRIES));
    DefaultDecision(RecoveryCtx(VerifyFail, attempt, OWN_ROLLBACK.intent, Failed, TREE_RETRIES));
  }

  lemma BusyAttempt(w: World, s: StepState, attempt: nat) returns (calls: seq<Call>)
    requires |w.trace| == attempt <= 3
    ensures var a := Attempt(BusyApp(), w, APP_WRITE, s, attempt, 3);
            && (a.again <==> attempt < 3) && a.world.trace == w.trace + calls
            && |calls| == (if attempt < 3 then 1 else 2) && forall c <- calls :: c.name == "app.write"
  {
    hide CvrExecute, RollbackPayload, Decide;
    BusyRun(w, attempt);
    var c := CvrExecute(BusyApp(), w, APP_WRITE, attempt);
    calls := [MainCall(APP_WRITE)];
    if attempt == 3 {
      UndoPayload(c);
      calls := calls + [Call("app.write", Value(RollbackPayload(APP_WRITE, ResultOf(c), c).value))];
    }
  }

  /** The attempts from the one numbered `attempt` on. */
  lemma {:induction false} BusyCalls(w: World, s: StepState, attempt: nat) returns (calls: seq<Call>)
    requires |w.trace| == attempt <= 3
    ensures RunFrom(BusyApp(), w, APP_WRITE, s, attempt, 3).world.trace == w.trace + calls
    ensures |calls| == 5 - attempt && forall c <- calls :: c.name == "app.write"
    decreases 3 - attempt
  {
    hide Attempt;
    calls := BusyAttempt(w, s, attempt);
    if attempt < 3 {
      var a := Attempt(BusyApp(), w, APP_WRITE, s, attempt, 3);
      var more := BusyCalls(a.world, a.state, attempt + 1);
      calls := calls + more;
    }
  }

  lemma BusyDisciplined()
    ensures Disciplined(BusyApp(), APP_WRITE) && !Apart(BusyApp(), APP_WRITE)
  {
    assert DeclaresCall(BusyApp().lookup(START, 1));
  }

  /** Past the bound: a manifest that registration accepts, whose step errs three times and then fails, is called five
      times at a limit of three, the last time as its own rollback. */
  lemma OwnRollbackIsOneMore() returns (calls: seq<Call>)
    ensures forall lower: ManifestNormalizer.Casing :: ManifestNormalizer.Normalize(lower, OWN_ROLLBACK).Ok?
    ensures Disciplined(BusyApp(), APP_WRITE) && !Apart(BusyApp(), APP_WRITE)
    ensures RunStep(BusyApp(), START, APP_WRITE, NEW_STEP, 3).world.trace == calls
    ensures |calls| == 5 && forall c <- calls :: c.name == "app.write"
  {
    hide RunFrom, Disciplined, Apart, ManifestNormalizer.Normalize;
    OwnRollbackRegisters();
    BusyDisciplined();
    calls := BusyCalls(START, NEW_STEP, 0);
  }

  lemma WriteIsNotReserved()
    ensures !exists p <- ManifestNormalizer.RESERVED :: Text.HasPrefix("app.write", p)
  {
    forall p <- ManifestNormalizer.RESERVED ensures !Text.HasPrefix("app.write", p) {
      assert p[0] != 'a';
    }
  }

  lemma OwnRollbackAccepted()
    ensures ManifestNormalizer.NormalizeRollback("", OWN_ROLLBACK.rollback).Present?
  {
    hide Text.Trim;
    assert Text.Trimmed("primitive") && Text.Trimmed("app.write") && Text.Trimmed("");
  }

  lemma OwnRollbackRegisters()
    ensures forall lower: ManifestNormalizer.Casing :: ManifestNormalizer.Normalize(lower, OWN_ROLLBACK).Ok?
  {
    hide Text.Trim, Text.HasPrefix, ManifestNormalizer.Lower, ManifestNormalizer.NormalizeRollback;
    WriteIsNotReserved();
    OwnRollbackAccepted();
    assert Text.Trimmed("");
  }

  const TAKE_CHECKPOINT := Step("s1", CHECKPOINT, Absent)

  /** Takes the engine's checkpoints and refuses the step's own. */
  function RefusingEnv(): Env {
    Env((w: World, c: Call) =>
          if c.params.Absent? then Reply(None, Some(Failure("refused")), w.workspace)
          else Reply(Some(StepResult(true, Value(JObj(map["checkpoint_id" := JStr("c1")])), None)), None, w.workspace),
        w => true, (w, i) => None, None, DefaultTree())
  }

  lemma RefusedRun(w: World, attempt: nat)
    requires attempt <= 1
    ensures var c := CvrExecute(RefusingEnv(), w, TAKE_CHECKPOINT, attempt);
            && c.err == Some(Failure("refused")) && c.outcome == Errored && c.action == Retry
            && c.world.trace == w.trace + [CheckpointCall(TAKE_CHECKPOINT), MainCall(TAKE_CHECKPOINT)]
  {
    hide StaticIntent, Decide;
    UnknownCheckpoint(CHECKPOINT);
    DefaultDecision(RecoveryCtx(ExecError, attempt, WRITES, Errored, TREE_RETRIES));
  }

  lemma RefusedAttempt(w: World, s: StepState, attempt: nat)
    requires attempt <= 1
    ensures var a := Attempt(RefusingEnv(), w, TAKE_CHECKPOINT, s, attempt, 1);
            && (a.again <==> attempt < 1)
            && a.world.trace == w.trace + [CheckpointCall(TAKE_CHECKPOINT), MainCall(TAKE_CHECKPOINT)]
  {
    hide CvrExecute, Decide;
    RefusedRun(w, attempt);
  }

  /** A state.checkpoint step is itself checkpointed first, so at a limit of one it makes four calls of that name. */
  lemma CheckpointStepDoubles()
    ensures Disciplined(RefusingEnv(), TAKE_CHECKPOINT)
    ensures var both := [CheckpointCall(TAKE_CHECKPOINT), MainCall(TAKE_CHECKPOINT)];
            && RunStep(RefusingEnv(), START, TAKE_CHECKPOINT, NEW_STEP, 1).world.trace == both + both
            && forall c <- both :: c.name == CHECKPOINT
  {
    hide Attempt;
    RefusedAttempt(START, NEW_STEP, 0);
    var a := Attempt(RefusingEnv(), START, TAKE_CHECKPOINT, NEW_STEP, 0, 1);
    RefusedAttempt(a.world, a.state, 1);
    assert RunFrom(RefusingEnv(), a.world, TAKE_CHECKPOINT, a.state, 1, 1).world ==
           Attempt(RefusingEnv(), a.world, TAKE_CHECKPOINT, a.state, 1, 1).world;
  }

  // ---- A borrowed result ------------------------------------------------------------------------

  const SELF_VERIFYING := AppOf(READS, None).(verify := Some(AppVerify("primitive", "app.write", "")))

  /** An app that verifies its write by the write itself, and counts its calls. */
  function CountingApp(): Env {
    Env((w: World, c: Call) => Reply(Some(StepResult(true, Value(JNum(1 + |w.trace|)), None)), None, w.workspace),
        w => true, (w, i) => Some(SELF_VERIFYING), None, DefaultTree())
  }

  lemma CountingRun()
    ensures var c := CvrExecute(CountingApp(), START, APP_WRITE, 0);
            c.err.None? && c.outcome == Passed && ResultOf(c) == Some(StepResult(true, Value(JNum(2)), None))
  {
    hide StaticIntent;
    UnknownPrimitive(APP_WRITE.primitive);
  }

  /** A step verified by its own primitive returns the result of the verification. */
  lemma BorrowedResultHappens()
    ensures var run := RunStep(CountingApp(), START, APP_WRITE, NEW_STEP, 1);
            && run.result == Some(StepResult(true, Value(JNum(2)), None))
            && LastStart(CountingApp(), START, APP_WRITE, NEW_STEP, 0, 1) == START
            && OwnReply(CountingApp(), START, APP_WRITE).result == Some(StepResult(true, Value(JNum(1)), None))
  {
    hide CvrExecute, StaticIntent;
    UnknownPrimitive(APP_WRITE.primitive);
    CountingRun();
  }
}
