/** What every run of a step guarantees, for every executor, registry, strategy and decision tree. */
module StepTheorems {
  import opened Common
  import opened Json
  import opened PrimitiveExecutor
  import opened Cvr
  import opened AppManifest
  import opened StepEngine

  // ---- The dispatch protocol -------------------------------------------------------------------

  // The calls of one attempt, in the order they are made, and the world and the step record it began with.
  datatype Segment = Segment(
    before: World, state: StepState, checkpoint: seq<Call>, main: seq<Call>, verify: seq<Call>, rollback: seq<Call>, restore: seq<Call>)

  function Calls(s: Segment): seq<Call> {
    s.checkpoint + s.main + s.verify + s.rollback + s.restore
  }

  /** The segments account, one after the other, for every call between the traces `from` and `to`. */
  ghost predicate Covers(segs: seq<Segment>, from: seq<Call>, to: seq<Call>) {
    if segs == [] then to == from
    else segs[0].before.trace == from && Covers(segs[1..], from + Calls(segs[0]), to)
  }

  /** The segments are the attempts of a run, in order: the first begins in `w`, each later one begins in the world
      and with the record that the one before it left when it asked for another, and the last one ends the run. */
  ghost predicate Attempts(
    env: Env, step: Step, segs: seq<Segment>, w: World, state: StepState, attempt: nat, maxRetries: nat, run: StepRun)
  {
    && segs != [] && segs[0].before == w && segs[0].state == state
    && var a := Attempt(env, w, step, state, attempt, maxRetries);
       if |segs| == 1 then !a.again && run == StepRun(a.world, a.state, a.result, a.failure)
       else a.again && Attempts(env, step, segs[1..], a.world, a.state, attempt + 1, maxRetries, run)
  }

  /** The world in which the last attempt of a run begins. */
  function LastStart(env: Env, w: World, step: Step, state: StepState, attempt: nat, maxRetries: nat): World
    requires attempt <= maxRetries
    decreases maxRetries - attempt
  {
    var a := Attempt(env, w, step, state, attempt, maxRetries);
    if a.again && attempt < maxRetries then LastStart(env, a.world, step, a.state, attempt + 1, maxRetries) else w
  }

  /** The world in which the primitive of an attempt is dispatched. */
  function Ready(env: Env, w: World, step: Step): World {
    if ShouldCheckpoint(InferIntent(env, w, step.primitive))
    then After(w, CheckpointCall(step), env.behaviour(w, CheckpointCall(step))) else w
  }

  /** Verification makes a call: there is a strategy with a call to make, and the primitive succeeded. */
  predicate Verifies(env: Env, ready: World, step: Step, strategy: Option<Strategy>) {
    var r := env.behaviour(ready, MainCall(step));
    strategy.Some? && StrategyCall(strategy.value).Some? && r.err.None? && Succeeded(r)
  }

  /** The way forward in one attempt: the checkpoint is made exactly when the intent asks for one, its failure stops
      the attempt, and verification follows exactly a primitive that succeeded. */
  ghost predicate Forward(env: Env, step: Step, s: Segment) {
    var wanted := ShouldCheckpoint(InferIntent(env, s.before, step.primitive));
    && s.checkpoint == (if wanted then [CheckpointCall(step)] else [])
    && s.main == (if wanted && !CheckpointTaken(env, s.before, step) then [] else [MainCall(step)])
    && s.verify == (if s.main != [] && Verifies(env, Ready(env, s.before, step), step, ChooseStrategy(env, s.before, step))
                    then [StrategyCall(ChooseStrategy(env, s.before, step).value).value] else [])
  }

  predicate DeclaresNoRollback(m: Option<Manifest>) { m.Some? ==> m.value.rollback.None? }

  predicate DeclaresRestore(m: Option<Manifest>) {
    m.Some? && m.value.rollback.Some? && m.value.rollback.value == AppRollback("primitive", RESTORE)
  }

  predicate DeclaresNothing(m: Option<Manifest>) {
    m.Some? && m.value.rollback.Some? && m.value.rollback.value.strategy != "primitive"
  }

  predicate DeclaresCall(m: Option<Manifest>) {
    && m.Some? && m.value.rollback.Some? && m.value.rollback.value.strategy == "primitive"
    && m.value.rollback.value.primitive !in {"", RESTORE}
  }

  /** The attempt ends in a rollback. */
  predicate RollsBack(c: CvrRun, m: Option<Manifest>) {
    c.err != Some(DepthExceeded) && !Succeeds(c) && ChosenAction(m, c) == RollBack
  }

  /** The declared rollback call, where there is one to make. */
  function RollbackSlot(step: Step, c: CvrRun, m: Option<Manifest>): seq<Call> {
    var payload := RollbackPayload(step, ResultOf(c), c);
    if DeclaresCall(m) && payload.Some? then [Call(m.value.rollback.value.primitive, Value(payload.value))] else []
  }

  /** The restore of the attempt's own checkpoint: not without one, not where recovery fails closed, and not after a
      declared rollback that failed. */
  function RestoreSlot(env: Env, step: Step, c: CvrRun, m: Option<Manifest>): seq<Call> {
    var byApp := m.Some? && m.value.rollback.Some? && !DeclaresRestore(m);
    if || c.checkpointId == "" || (m.Some? && FailClosed(m.value))
       || (byApp && AppRollbackRun(env, c.world, step, ResultOf(c), c, m.value.rollback.value).err.Some?) then []
    else [Call(RESTORE, RestoreParams(c.checkpointId))]
  }

  /** The way back: exactly when the attempt ends in a rollback, the declared call and then the restore. */
  ghost predicate Backward(env: Env, step: Step, s: Segment, attempt: nat) {
    var c, m := CvrExecute(env, s.before, step, attempt), env.lookup(s.before, 1);
    && s.rollback == (if RollsBack(c, m) then RollbackSlot(step, c, m) else [])
    && s.restore == (if RollsBack(c, m) then RestoreSlot(env, step, c, m) else [])
    && (s.main == [] ==> s.rollback == [] && s.restore == [])
  }

  /** Protocol of one attempt: every call in it, and no other. */
  ghost predicate WellFormed(env: Env, step: Step, s: Segment, attempt: nat) {
    Forward(env, step, s) && Backward(env, step, s, attempt)
  }

  ghost predicate Recovers(s: Segment) {
    s.rollback != [] || s.restore != []
  }

  lemma DispatchCalls(env: Env, w: World, step: Step, id: string, intent: Intent, strategy: Option<Strategy>, attempt: nat)
    returns (verify: seq<Call>)
    ensures Dispatch(env, w, step, id, intent, strategy, attempt).world.trace == w.trace + [MainCall(step)] + verify
    ensures verify == if Verifies(env, w, step, strategy) then [StrategyCall(strategy.value).value] else []
  {
    verify := if Verifies(env, w, step, strategy) then [StrategyCall(strategy.value).value] else [];
  }

  lemma RollbackCalls(env: Env, step: Step, c: CvrRun, m: Option<Manifest>)
    ensures DeclaredRollback(env, c.world, step, ResultOf(c), c, m).world.trace ==
            c.world.trace + RollbackSlot(step, c, m) + RestoreSlot(env, step, c, m)
  {
    hide RollbackPayload;
    if m.Some? && m.value.rollback.Some? && !DeclaresRestore(m) {
      var app := AppRollbackRun(env, c.world, step, ResultOf(c), c, m.value.rollback.value);
      assert app.world.trace == c.world.trace + RollbackSlot(step, c, m);
    }
  }

  lemma RecoverCalls(
    env: Env, c: CvrRun, step: Step, s: StepState, m: Option<Manifest>, attempt: nat, maxRetries: nat)
    ensures var a := Recover(env, c, step, s, m, attempt, maxRetries);
            && (a.again ==> !RollsBack(c, m))
            && a.world.trace == c.world.trace +
                 (if RollsBack(c, m) then RollbackSlot(step, c, m) + RestoreSlot(env, step, c, m) else [])
  {
    hide DeclaredRollback, RollbackSlot, RestoreSlot;
    RollbackCalls(env, step, c, m);
  }

  lemma CvrCalls(env: Env, w: World, step: Step, state: StepState, attempt: nat) returns (s: Segment)
    ensures s.before == w && s.state == state && Forward(env, step, s) && !Recovers(s)
    ensures var c := CvrExecute(env, w, step, attempt);
            && c.world.trace == w.trace + Calls(s)
            && (s.main == [] ==> c.outcome == Unset && c.action == NoAction)
  {
    hide Dispatch, InferIntent, ChooseStrategy, Verifies, CheckpointId;
    var intent := InferIntent(env, w, step.primitive);
    var strategy := ChooseStrategy(env, w, step);
    if !ShouldCheckpoint(intent) {
      var verify := DispatchCalls(env, w, step, "", intent, strategy, attempt);
      s := Segment(w, state, [], [MainCall(step)], verify, [], []);
    } else if CheckpointTaken(env, w, step) {
      var r := env.behaviour(w, CheckpointCall(step));
      var w1 := After(w, CheckpointCall(step), r);
      var verify := DispatchCalls(env, w1, step, CheckpointId(r.result).value, intent, strategy, attempt);
      s := Segment(w, state, [CheckpointCall(step)], [MainCall(step)], verify, [], []);
    } else {
      s := Segment(w, state, [CheckpointCall(step)], [], [], [], []);
    }
  }

  lemma AttemptCalls(env: Env, w: World, step: Step, state: StepState, attempt: nat, maxRetries: nat)
    returns (s: Segment)
    ensures s.before == w && s.state == state && WellFormed(env, step, s, attempt)
    ensures Attempt(env, w, step, state, attempt, maxRetries).world.trace == w.trace + Calls(s)
    ensures Attempt(env, w, step, state, attempt, maxRetries).again ==> !Recovers(s)
  {
    hide CvrExecute, Recover, InferIntent, ChooseStrategy, Verifies, CheckpointTaken, Ready, ShouldCheckpoint, StrategyCall;
    hide RollbackSlot, RestoreSlot;
    var c, m := CvrExecute(env, w, step, attempt), env.lookup(w, 1);
    var s0 := CvrCalls(env, w, step, state, attempt);
    RecoverCalls(env, c, step, state.(status := Running, checkpointId := c.checkpointId), m, attempt, maxRetries);
    s := s0;
    if RollsBack(c, m) {
      s := s0.(rollback := RollbackSlot(step, c, m), restore := RestoreSlot(env, step, c, m));
      assert Calls(s) == Calls(s0) + s.rollback + s.restore;
    }
  }

  /** An executor that never answers with neither a result nor an error, verified by another primitive. */
  ghost predicate Disciplined(env: Env, step: Step) {
    && (forall w, c :: env.behaviour(w, c).result.Some? || env.behaviour(w, c).err.Some?)
    && (forall w :: ChooseStrategy(env, w, step).Some? && StrategyCall(ChooseStrategy(env, w, step).value).Some? ==>
          StrategyCall(ChooseStrategy(env, w, step).value).value.name != step.primitive)
    && env.tree == DefaultTree()
  }

  lemma LateDispatchDecides(
    env: Env, w: World, step: Step, id: string, intent: Intent, strategy: Option<Strategy>, attempt: nat)
    requires env.tree == DefaultTree() && attempt >= TREE_RETRIES
    requires forall w, c :: env.behaviour(w, c).result.Some? || env.behaviour(w, c).err.Some?
    requires strategy.Some? && StrategyCall(strategy.value).Some? ==>
               StrategyCall(strategy.value).value.name != step.primitive
    ensures var c := Dispatch(env, w, step, id, intent, strategy, attempt);
            Succeeds(c) || c.action == RollBack || c.action == Escalate
  {
    forall failure, outcome { DefaultDecision(RecoveryCtx(failure, attempt, intent, outcome, TREE_RETRIES)); }
  }

  lemma RecoverEnds(env: Env, c: CvrRun, step: Step, s: StepState, m: Option<Manifest>, attempt: nat, maxRetries: nat)
    requires Succeeds(c) || c.action == RollBack || c.action == Escalate
    ensures !Recover(env, c, step, s, m, attempt, maxRetries).again
  {
  }

  /** With the default tree an attempt past the tree's limit that reaches the primitive is the last one. */
  lemma LateDispatchEnds(env: Env, s: Segment, step: Step, state: StepState, attempt: nat, maxRetries: nat)
    requires Disciplined(env, step) && attempt >= TREE_RETRIES
    requires Forward(env, step, s) && s.main != []
    ensures !Attempt(env, s.before, step, state, attempt, maxRetries).again
  {
    hide Dispatch, Recover, InferIntent;
    var w := s.before;
    var intent, strategy := InferIntent(env, w, step.primitive), ChooseStrategy(env, w, step);
    var c := CvrExecute(env, w, step, attempt);
    if ShouldCheckpoint(intent) {
      var id := CheckpointId(env.behaviour(w, CheckpointCall(step)).result).value;
      LateDispatchDecides(env, Ready(env, w, step), step, id, intent, strategy, attempt);
    } else {
      LateDispatchDecides(env, w, step, "", intent, strategy, attempt);
    }
    RecoverEnds(env, c, step, state.(status := Running, checkpointId := c.checkpointId), env.lookup(w, 1), attempt, maxRetries);
  }

  /** The theorem about every step run: it is a chain of attempts whose calls are exactly the run's and well-formed,
      rollback and restore occur only in the last one, and with the default tree an attempt past the tree's limit
      that dispatches the primitive is the last one. */
  lemma {:induction false} StepTrace(env: Env, w: World, step: Step, state: StepState, attempt: nat, maxRetries: nat)
    returns (segs: seq<Segment>)
    requires attempt <= maxRetries
    ensures Covers(segs, w.trace, RunFrom(env, w, step, state, attempt, maxRetries).world.trace)
    ensures Attempts(env, step, segs, w, state, attempt, maxRetries, RunFrom(env, w, step, state, attempt, maxRetries))
    ensures 1 <= |segs| <= maxRetries + 1 - attempt
    ensures segs[|segs| - 1].before == LastStart(env, w, step, state, attempt, maxRetries)
    ensures forall i :: 0 <= i < |segs| ==> WellFormed(env, step, segs[i], attempt + i)
    ensures forall i :: 0 <= i < |segs| - 1 ==> !Recovers(segs[i])
    ensures Disciplined(env, step) ==>
              forall i :: 0 <= i < |segs| - 1 && attempt + i >= TREE_RETRIES ==> segs[i].main == []
    ensures Plain(env) && RunFrom(env, w, step, state, attempt, maxRetries).state.status == RolledBack ==>
              RunFrom(env, w, step, state, attempt, maxRetries).world.workspace ==
              LastStart(env, w, step, state, attempt, maxRetries).workspace
    decreases maxRetries - attempt
  {
    hide Attempt, Forward, Backward, Disciplined, Plain, Calls;
    var s := AttemptCalls(env, w, step, state, attempt, maxRetries);
    var a := Attempt(env, w, step, state, attempt, maxRetries);
    if Plain(env) { RollbackRestores(env, w, step, state, attempt, maxRetries); }
    if a.again {
      AgainWithinLimit(env, w, step, state, attempt, maxRetries);
      if Disciplined(env, step) && attempt >= TREE_RETRIES && s.main != [] {
        LateDispatchEnds(env, s, step, state, attempt, maxRetries);
      }
      var rest := StepTrace(env, a.world, step, a.state, attempt + 1, maxRetries);
      segs := [s] + rest;
      assert segs[1..] == rest;
      assert forall i :: 1 <= i < |segs| ==> segs[i] == rest[i - 1];
    } else {
      segs := [s];
      assert segs[1..] == [];
    }
  }

  /** No attempt at the limit asks for another, so the return after the loop is never reached. */
  lemma AgainWithinLimit(env: Env, w: World, step: Step, state: StepState, attempt: nat, maxRetries: nat)
    ensures Attempt(env, w, step, state, attempt, maxRetries).again ==> attempt < maxRetries
  {
    hide CvrExecute, DeclaredRollback;
  }

  // ---- How often the primitive is called --------------------------------------------------------

  /** How many of the calls have the given name. */
  function Named(calls: seq<Call>, name: string): nat {
    if calls == [] then 0
    else Named(calls[..|calls| - 1], name) + if calls[|calls| - 1].name == name then 1 else 0
  }

  lemma {:induction false} NamedConcat(a: seq<Call>, b: seq<Call>, name: string)
    ensures Named(a + b, name) == Named(a, name) + Named(b, name)
  {
    if b == [] {
      assert a + b == a;
    } else {
      var last := |b| - 1;
      assert (a + b)[..|a + b| - 1] == a + b[..last];
      NamedConcat(a, b[..last], name);
    }
  }

  lemma NamedOne(c: Call, name: string)
    ensures Named([c], name) == if c.name == name then 1 else 0
  {
    assert [c][..0] == [];
  }

  function AllCalls(segs: seq<Segment>): seq<Call> {
    if segs == [] then [] else Calls(segs[0]) + AllCalls(segs[1..])
  }

  lemma {:induction false} CoversAll(segs: seq<Segment>, from: seq<Call>, to: seq<Call>)
    requires Covers(segs, from, to)
    ensures to == from + AllCalls(segs)
  {
    if segs != [] { CoversAll(segs[1..], from + Calls(segs[0]), to); }
  }

  /** The calls of its own primitive that an attempt makes, by slot: the dispatch; the checkpoint, if the step is a
      state.checkpoint; a verification or declared rollback by the same primitive; the restore, if it is a state.restore. */
  function OwnCalls(s: Segment, p: string): nat {
    |s.main| + (if p == CHECKPOINT then |s.checkpoint| else 0) + Named(s.verify, p) + Named(s.rollback, p)
    + (if p == RESTORE then |s.restore| else 0)
  }

  function TotalOwn(segs: seq<Segment>, p: string): nat {
    if segs == [] then 0 else OwnCalls(segs[0], p) + TotalOwn(segs[1..], p)
  }

  function Dispatches(segs: seq<Segment>): nat {
    if segs == [] then 0 else |segs[0].main| + Dispatches(segs[1..])
  }

  lemma SegmentOwn(env: Env, step: Step, s: Segment, attempt: nat)
    requires WellFormed(env, step, s, attempt)
    ensures Named(Calls(s), step.primitive) == OwnCalls(s, step.primitive)
  {
    hide CvrExecute, InferIntent, ChooseStrategy, Verifies, CheckpointTaken, RollsBack, RollbackSlot;
    var p := step.primitive;
    NamedConcat(s.checkpoint + s.main + s.verify + s.rollback, s.restore, p);
    NamedConcat(s.checkpoint + s.main + s.verify, s.rollback, p);
    NamedConcat(s.checkpoint + s.main, s.verify, p);
    NamedConcat(s.checkpoint, s.main, p);
    NamedOne(CheckpointCall(step), p);
    NamedOne(MainCall(step), p);
    if s.restore != [] { NamedOne(s.restore[0], p); }
  }

  /** Every attempt is well-formed, the first one being number `attempt`. */
  ghost predicate AllWellFormed(env: Env, step: Step, segs: seq<Segment>, attempt: nat) {
    forall i :: 0 <= i < |segs| ==> WellFormed(env, step, segs[i], attempt + i)
  }

  lemma {:induction false} TraceOwn(env: Env, step: Step, segs: seq<Segment>, attempt: nat)
    requires AllWellFormed(env, step, segs, attempt)
    ensures Named(AllCalls(segs), step.primitive) == TotalOwn(segs, step.primitive)
  {
    hide WellFormed, Calls, OwnCalls;
    if segs != [] {
      assert WellFormed(env, step, segs[0], attempt + 0);
      SegmentOwn(env, step, segs[0], attempt);
      NamedConcat(Calls(segs[0]), AllCalls(segs[1..]), step.primitive);
      forall i | 0 <= i < |segs[1..]| ensures WellFormed(env, step, segs[1..][i], attempt + 1 + i) {
        assert segs[1..][i] == segs[i + 1] && WellFormed(env, step, segs[i + 1], attempt + (i + 1));
      }
      TraceOwn(env, step, segs[1..], attempt + 1);
    }
  }

  lemma {:induction false} FewDispatches(segs: seq<Segment>, k: nat)
    requires forall i :: 0 <= i < |segs| ==> |segs[i].main| <= 1
    requires forall i :: k <= i < |segs| - 1 ==> segs[i].main == []
    ensures Dispatches(segs) <= k + 1 && Dispatches(segs) <= |segs|
  {
    if |segs| > 1 {
      FewDispatches(segs[1..], if k > 0 then k - 1 else 0);
    }
  }

  /** Nothing but the dispatch itself calls the step's primitive: it is not state.checkpoint or state.restore, and no
      manifest declares it as its own rollback. */
  ghost predicate Apart(env: Env, step: Step) {
    && step.primitive !in {CHECKPOINT, RESTORE}
    && (forall w :: DeclaresCall(env.lookup(w, 1)) ==> env.lookup(w, 1).value.rollback.value.primitive != step.primitive)
  }

  lemma SlotsApart(env: Env, step: Step, s: Segment, attempt: nat)
    requires Disciplined(env, step) && WellFormed(env, step, s, attempt) && step.primitive != CHECKPOINT
    ensures OwnCalls(s, step.primitive) <= |s.main| + (if Recovers(s) then 1 else 0)
    ensures Apart(env, step) ==> OwnCalls(s, step.primitive) == |s.main|
  {
    hide CvrExecute, InferIntent, ChooseStrategy, CheckpointTaken, RollsBack, RollbackPayload;
    var p := step.primitive;
    if s.verify != [] {
      assert s.verify == [s.verify[0]];
      NamedOne(s.verify[0], p);
    }
    if s.rollback != [] {
      assert s.rollback == [s.rollback[0]];
      NamedOne(s.rollback[0], p);
    }
  }

  /** Calls of the primitive beside its dispatches: none if it stands apart, and at most one, in the last attempt,
      for any primitive but state.checkpoint. */
  lemma {:induction false} OwnBeyondDispatches(env: Env, step: Step, segs: seq<Segment>, attempt: nat)
    requires Disciplined(env, step) && AllWellFormed(env, step, segs, attempt) && step.primitive != CHECKPOINT
    requires forall i :: 0 <= i < |segs| - 1 ==> !Recovers(segs[i])
    ensures TotalOwn(segs, step.primitive) <= Dispatches(segs) + 1
    ensures Apart(env, step) ==> TotalOwn(segs, step.primitive) == Dispatches(segs)
  {
    hide WellFormed, Disciplined, OwnCalls, Apart;
    if segs != [] {
      assert WellFormed(env, step, segs[0], attempt + 0);
      SlotsApart(env, step, segs[0], attempt);
      forall i | 0 <= i < |segs[1..]| ensures WellFormed(env, step, segs[1..][i], attempt + 1 + i) {
        assert segs[1..][i] == segs[i + 1] && WellFormed(env, step, segs[i + 1], attempt + (i + 1));
      }
      OwnBeyondDispatches(env, step, segs[1..], attempt + 1);
    }
  }

  /** The calls that a run adds to the trace. */
  function RunCalls(w: World, run: StepRun): seq<Call>
    requires |w.trace| <= |run.world.trace|
  {
    run.world.trace[|w.trace|..]
  }

  /** The protocol for a whole step, and how often it calls its primitive: as often as the slots of its attempts say,
      and, for a primitive that stands apart, at most min(limit + 1, 4) times, whatever limit the task sets. */
  lemma StepProtocol(env: Env, w: World, step: Step, state: StepState, taskLimit: int) returns (segs: seq<Segment>)
    ensures Covers(segs, w.trace, RunStep(env, w, step, state, taskLimit).world.trace)
    ensures Attempts(env, step, segs, w, state, 0, if taskLimit > 0 then taskLimit else 3,
                     RunStep(env, w, step, state, taskLimit))
    ensures 1 <= |segs| <= MaxRetries(taskLimit) + 1
    ensures AllWellFormed(env, step, segs, 0)
    ensures forall i :: 0 <= i < |segs| - 1 ==> !Recovers(segs[i])
    ensures w.trace <= RunStep(env, w, step, state, taskLimit).world.trace
    ensures var calls := Named(RunCalls(w, RunStep(env, w, step, state, taskLimit)), step.primitive);
            && calls == TotalOwn(segs, step.primitive)
            && (Disciplined(env, step) ==> Dispatches(segs) <= MaxRetries(taskLimit) + 1 && Dispatches(segs) <= 4)
            && (Disciplined(env, step) && step.primitive != CHECKPOINT ==> calls <= Dispatches(segs) + 1)
            && (Disciplined(env, step) && Apart(env, step) ==> calls <= MaxRetries(taskLimit) + 1 && calls <= 4)
    ensures Plain(env) && RunStep(env, w, step, state, taskLimit).state.status == RolledBack ==>
              RunStep(env, w, step, state, taskLimit).world.workspace == segs[|segs| - 1].before.workspace ==
              LastStart(env, w, step, state, 0, MaxRetries(taskLimit)).workspace
  {
    hide RunFrom, Backward, CheckpointTaken, InferIntent, Verifies, ChooseStrategy, Disciplined, Apart, Plain;
    segs := StepTrace(env, w, step, state, 0, MaxRetries(taskLimit));
    assert AllWellFormed(env, step, segs, 0);
    CoversAll(segs, w.trace, RunStep(env, w, step, state, taskLimit).world.trace);
    TraceOwn(env, step, segs, 0);
    if Disciplined(env, step) {
      assert forall i :: 0 <= i < |segs| ==> WellFormed(env, step, segs[i], 0 + i);
      FewDispatches(segs, TREE_RETRIES);
      if step.primitive != CHECKPOINT { OwnBeyondDispatches(env, step, segs, 0); }
      if Apart(env, step) { assert step.primitive != CHECKPOINT by { ApartIsNoCheckpoint(env, step); } }
    }
  }

  lemma ApartIsNoCheckpoint(env: Env, step: Step)
    requires Apart(env, step)
    ensures step.primitive != CHECKPOINT
  {
  }

  lemma RecoverResult(env: Env, c: CvrRun, step: Step, s: StepState, m: Option<Manifest>, attempt: nat, maxRetries: nat)
    ensures var a := Recover(env, c, step, s, m, attempt, maxRetries);
            !a.again ==>
              && (a.failure.None? <==> a.result.Some?)
              && (a.result.Some? ==> a.result.value.success)
              && a.failure != Some(Exhausted)
  {
  }

  /** A step ends either with a successful result or with an error, never with both or neither, and never
      by running out of attempts. */
  lemma {:induction false} ResultOrError(env: Env, w: World, step: Step, state: StepState, attempt: nat, maxRetries: nat)
    requires attempt <= maxRetries
    ensures var run := RunFrom(env, w, step, state, attempt, maxRetries);
            && (run.failure.None? <==> run.result.Some?)
            && (run.result.Some? ==> run.result.value.success)
            && run.failure != Some(Exhausted)
    decreases maxRetries - attempt
  {
    var a := Attempt(env, w, step, state, attempt, maxRetries);
    var c := CvrExecute(env, w, step, attempt);
    RecoverResult(env, c, step, state.(status := Running, checkpointId := c.checkpointId), env.lookup(w, 1), attempt, maxRetries);
    if a.again {
      AgainWithinLimit(env, w, step, state, attempt, maxRetries);
      ResultOrError(env, a.world, step, a.state, attempt + 1, maxRetries);
    }
  }

  // ---- Success ----------------------------------------------------------------------------------

  /** The reply to a verification call, in the words of its payload, speaks for the primitive. */
  predicate Confirms(s: Strategy, r: Reply) {
    var data := Unwrap(Data(r));
    && r.err.None?
    && match s
       case TestSuite(minTests, _, _, _) =>
         && "passed" in data && data["passed"] == JBool(true)
         && (minTests > 0 && "total" in data && data["total"].JNum? ==> data["total"].n >= minTests)
         && (minTests > 0 ==> "total" in data && data["total"].JNum?)
       case AppDeclared(_, _) =>
         && (r.result.Some? ==> r.result.value.success)
         && Verdict(data) != Some(false)
  }

  /** In the attempt begun in `w` the primitive was dispatched after any checkpoint asked for, succeeded, and was
      confirmed by the verification chosen for it. */
  ghost predicate Verified(env: Env, w: World, step: Step) {
    var ready := Ready(env, w, step);
    var r := env.behaviour(ready, MainCall(step));
    var strategy := ChooseStrategy(env, w, step);
    && (ShouldCheckpoint(InferIntent(env, w, step.primitive)) ==> CheckpointTaken(env, w, step))
    && r.err.None? && Succeeded(r)
    && (strategy.Some? ==>
          var call := StrategyCall(strategy.value);
          call.Some? && Confirms(strategy.value, env.behaviour(After(ready, MainCall(step), r), call.value)))
  }

  lemma PassedIsConfirmed(s: Strategy, r: Reply)
    ensures Judge(s, r) == Passed <==> Confirms(s, r)
  {
  }

  lemma PassedDispatch(env: Env, w: World, step: Step, id: string, intent: Intent, strategy: Option<Strategy>, attempt: nat)
    requires Dispatch(env, w, step, id, intent, strategy, attempt).outcome == Passed
    ensures var r := env.behaviour(w, MainCall(step));
            && r.err.None? && Succeeded(r)
            && (strategy.Some? ==>
                  var call := StrategyCall(strategy.value);
                  call.Some? && Confirms(strategy.value, env.behaviour(After(w, MainCall(step), r), call.value)))
  {
    hide Judge, Confirms;
    forall s, r { PassedIsConfirmed(s, r); }
  }

  lemma PassedRun(env: Env, w: World, step: Step, attempt: nat)
    requires CvrExecute(env, w, step, attempt).outcome == Passed
    ensures Verified(env, w, step)
  {
    hide Dispatch, InferIntent, ChooseStrategy, Confirms;
    var intent, strategy := InferIntent(env, w, step.primitive), ChooseStrategy(env, w, step);
    var id := if ShouldCheckpoint(intent) then CheckpointId(env.behaviour(w, CheckpointCall(step)).result) else Some("");
    if id.Some? { PassedDispatch(env, Ready(env, w, step), step, id.value, intent, strategy, attempt); }
  }

  /** A step reported successful was verified: in its last attempt the primitive succeeded and its verification
      confirmed it; or a tree other than the default one told the engine to skip. */
  lemma {:induction false} SuccessIsVerified(env: Env, w: World, step: Step, state: StepState, attempt: nat, maxRetries: nat)
    requires attempt <= maxRetries
    ensures var run := RunFrom(env, w, step, state, attempt, maxRetries);
            var last := LastStart(env, w, step, state, attempt, maxRetries);
            && (run.result.Some? ==> Verified(env, last, step) || run.state.status == StepSkipped)
            && (run.result.Some? && env.tree == DefaultTree() ==> Verified(env, last, step))
    decreases maxRetries - attempt
  {
    hide CvrExecute, Recover, Verified;
    var a := Attempt(env, w, step, state, attempt, maxRetries);
    var c := CvrExecute(env, w, step, attempt);
    if a.again {
      AgainWithinLimit(env, w, step, state, attempt, maxRetries);
      SuccessIsVerified(env, a.world, step, a.state, attempt + 1, maxRetries);
    } else if a.result.Some? {
      ResultMeansPassed(env, c, step, state.(status := Running, checkpointId := c.checkpointId), env.lookup(w, 1), attempt, maxRetries);
      if c.outcome == Passed { PassedRun(env, w, step, attempt); }
      if env.tree == DefaultTree() { ReachableActions(env, w, step, attempt); }
    }
  }

  lemma ResultMeansPassed(env: Env, c: CvrRun, step: Step, s: StepState, m: Option<Manifest>, attempt: nat, maxRetries: nat)
    ensures var a := Recover(env, c, step, s, m, attempt, maxRetries);
            a.result.Some? ==>
              || (c.outcome == Passed && a.result == ResultOf(c))
              || (c.action == Skip && a.state.status == StepSkipped)
  {
  }

  /** Of the default tree's actions the coordinator reaches only these: no failure it reports is a duplicate call. */
  lemma ReachableActions(env: Env, w: World, step: Step, attempt: nat)
    requires env.tree == DefaultTree()
    ensures CvrExecute(env, w, step, attempt).action in {NoAction, Retry, RollBack, Escalate}
  {
    hide InferIntent, ChooseStrategy;
    forall failure, intent, outcome { DefaultDecision(RecoveryCtx(failure, attempt, intent, outcome, TREE_RETRIES)); }
  }

  // ---- What an attempt leaves in the step record --------------------------------------------------

  /** The outcome of dispatch and verification: an error is a timeout exactly when it reports the deadline, a primitive that
      says it failed has failed, and a success is as good as its verification, if there is one. */
  lemma DispatchOutcome(env: Env, w: World, step: Step, id: string, intent: Intent, strategy: Option<Strategy>, attempt: nat)
    ensures var c := Dispatch(env, w, step, id, intent, strategy, attempt);
            var r := env.behaviour(w, MainCall(step));
            var said := r.result.None? || r.result.value.success;
            && (r.err == Some(DeadlineExceeded) ==> c.outcome == Timeout)
            && (r.err.Some? && r.err != Some(DeadlineExceeded) ==> c.outcome == Errored)
            && (r.err.None? && !said ==> c.outcome == Failed)
            && (r.err.None? && said && strategy.None? ==> c.outcome == Passed)
            && (r.err.None? && said && strategy.Some? ==>
                  var call := StrategyCall(strategy.value);
                  if call.None? then c.outcome == Errored
                  else
                    var v := env.behaviour(After(w, MainCall(step), r), call.value);
                    c.outcome == (if Confirms(strategy.value, v) then Passed
                                  else if strategy.value.TestSuite? then (if v.err.Some? then Errored else Failed)
                                  else if v.err == Some(DeadlineExceeded) then Timeout else Failed))
            && c.err == r.err
  {
    hide Judge, Confirms;
    forall s, r { PassedIsConfirmed(s, r); }
    forall s, r { UnconfirmedIs(s, r); }
  }

  /** What a verification comes to that does not confirm: a test suite that errs is an error, a declared verification that
      errs has failed or timed out, and every other one has failed. */
  lemma UnconfirmedIs(s: Strategy, r: Reply)
    ensures !Confirms(s, r) ==>
              Judge(s, r) == (if s.TestSuite? then (if r.err.Some? then Errored else Failed)
                              else if r.err == Some(DeadlineExceeded) then Timeout else Failed)
  {
  }

  /** How an attempt ends, told by the action chosen for it: whether there is another, the status and the escalation mark
      it leaves, and which error, if any, it returns. */
  lemma AttemptEnds(env: Env, w: World, step: Step, state: StepState, attempt: nat, maxRetries: nat)
    ensures var c := CvrExecute(env, w, step, attempt);
            var m := env.lookup(w, 1);
            var a := Attempt(env, w, step, state, attempt, maxRetries);
            var deep, good := c.err == Some(DepthExceeded), Succeeds(c);
            var action := ChosenAction(m, c);
            var recovering := !deep && !good;
            var undone := DeclaredRollback(env, c.world, step, ResultOf(c), c, m).err.None?;
            var passive := action == NoAction || action == Unrecognised;
            && a.state.checkpointId == c.checkpointId
            && (a.again <==> recovering && attempt < maxRetries &&
                             (action == Retry || (passive && KindOf(ResultOf(c)) != Duplicate)))
            && (a.state.escalated <==> state.escalated || (recovering && (action == Escalate || action == Rewrite)))
            && (a.state.status == RolledBack <==> recovering && action == RollBack && undone)
            && (a.state.status == StepSkipped <==> recovering && action == Skip)
            && (a.state.status == Running <==> a.again || (!deep && good))
            && (a.failure == Some(DepthFailure) <==> deep)
            && (a.failure == Some(Terminal) <==> recovering && (action == Abort || (action == RollBack && !undone)))
            && (a.result.Some? && a.state.status != StepSkipped ==> a.result == ResultOf(c))
  {
    hide CvrExecute, DeclaredRollback;
  }

  // ---- The result -------------------------------------------------------------------------------

  /** The reply to the primitive in the attempt begun in `w`. */
  function OwnReply(env: Env, w: World, step: Step): Reply {
    env.behaviour(Ready(env, w, step), MainCall(step))
  }

  /** The reply to its verification, where one is called. */
  function CheckReply(env: Env, w: World, step: Step): Option<Reply> {
    var strategy := ChooseStrategy(env, w, step);
    if strategy.None? || StrategyCall(strategy.value).None? then None
    else
      var call := StrategyCall(strategy.value).value;
      Some(env.behaviour(After(Ready(env, w, step), MainCall(step), OwnReply(env, w, step)), call))
  }

  /** The verification stands in for the primitive: it was called by the same name, or the primitive had no result. */
  predicate Borrowed(env: Env, w: World, step: Step) {
    && CheckReply(env, w, step).Some?
    && (OwnReply(env, w, step).result.None?
        || StrategyCall(ChooseStrategy(env, w, step).value).value.name == step.primitive)
  }

  lemma DispatchReturns(env: Env, w: World, step: Step, id: string, intent: Intent, strategy: Option<Strategy>, attempt: nat)
    ensures var c := Dispatch(env, w, step, id, intent, strategy, attempt);
            var r := env.behaviour(w, MainCall(step));
            var call := if strategy.Some? then StrategyCall(strategy.value) else None;
            c.outcome == Passed ==>
              ResultOf(c) ==
              if call.Some? && (r.result.None? || call.value.name == step.primitive)
              then env.behaviour(After(w, MainCall(step), r), call.value).result else r.result
  {
    hide Judge;
  }

  lemma RunReturns(env: Env, w: World, step: Step, attempt: nat)
    requires CvrExecute(env, w, step, attempt).outcome == Passed
    ensures ResultOf(CvrExecute(env, w, step, attempt)) ==
            if Borrowed(env, w, step) then CheckReply(env, w, step).value.result else OwnReply(env, w, step).result
  {
    hide Dispatch, InferIntent, ChooseStrategy;
    var intent, strategy := InferIntent(env, w, step.primitive), ChooseStrategy(env, w, step);
    var id := if ShouldCheckpoint(intent) then CheckpointId(env.behaviour(w, CheckpointCall(step)).result) else Some("");
    if id.Some? { DispatchReturns(env, Ready(env, w, step), step, id.value, intent, strategy, attempt); }
  }

  /** What a successful step returns, unless it was skipped: the result of its verification if that stands in for the
      primitive in the last attempt, and otherwise the primitive's own. So it returns the primitive's own result
      exactly when nothing stands in for it, or the stand-in gave the same. */
  lemma {:induction false} SuccessReturns(env: Env, w: World, step: Step, state: StepState, attempt: nat, maxRetries: nat)
    requires attempt <= maxRetries
    ensures var run := RunFrom(env, w, step, state, attempt, maxRetries);
            var last := LastStart(env, w, step, state, attempt, maxRetries);
            var own := OwnReply(env, last, step).result;
            run.result.Some? && (run.state.status != StepSkipped || env.tree == DefaultTree()) ==>
              && run.result == (if Borrowed(env, last, step) then CheckReply(env, last, step).value.result else own)
              && (run.result == own <==> (Borrowed(env, last, step) ==> CheckReply(env, last, step).value.result == own))
    decreases maxRetries - attempt
  {
    hide CvrExecute, Recover, Borrowed, CheckReply, OwnReply, ResultOf;
    var a := Attempt(env, w, step, state, attempt, maxRetries);
    var c := CvrExecute(env, w, step, attempt);
    if a.again {
      AgainWithinLimit(env, w, step, state, attempt, maxRetries);
      SuccessReturns(env, a.world, step, a.state, attempt + 1, maxRetries);
    } else if a.result.Some? {
      ResultMeansPassed(env, c, step, state.(status := Running, checkpointId := c.checkpointId), env.lookup(w, 1), attempt, maxRetries);
      if c.outcome == Passed { RunReturns(env, w, step, attempt); }
      if env.tree == DefaultTree() { ReachableActions(env, w, step, attempt); }
    }
  }

  // ---- Rollback ---------------------------------------------------------------------------------

  /** No app manifest anywhere; verification, if any, is the engine's own test suite. */
  ghost predicate Plain(env: Env) {
    && (forall w, i :: env.lookup(w, i) == None)
    && (env.strategy.Some? ==> env.strategy.value.TestSuite?)
  }

  lemma DispatchKeepsCheckpoint(
    env: Env, w: World, step: Step, id: string, intent: Intent, strategy: Option<Strategy>, attempt: nat)
    requires id in w.checkpoints && w.checkpoints[id] == w.workspace
    requires strategy.Some? ==> strategy.value.TestSuite?
    ensures var c := Dispatch(env, w, step, id, intent, strategy, attempt);
            c.checkpointId == id && id in c.world.checkpoints && c.world.checkpoints[id] == w.workspace
  {
    var w1 := After(w, MainCall(step), env.behaviour(w, MainCall(step)));
    assert id in w1.checkpoints && w1.checkpoints[id] == w.workspace;
    if strategy.Some? {
      var call := StrategyCall(strategy.value).value;
      assert call.name == "verify.test";
      assert After(w1, call, env.behaviour(w1, call)).checkpoints == w1.checkpoints;
    }
  }

  /** The checkpoint id of an attempt is the one taken in it, and still names the workspace the attempt
      began with when the coordinator returns. */
  lemma CheckpointSurvives(env: Env, w: World, step: Step, attempt: nat)
    requires Plain(env)
    ensures var c := CvrExecute(env, w, step, attempt);
            c.checkpointId != "" ==> c.checkpointId in c.world.checkpoints &&
                                     c.world.checkpoints[c.checkpointId] == w.workspace
  {
    hide Dispatch, InferIntent;
    var intent, strategy := InferIntent(env, w, step.primitive), ChooseStrategy(env, w, step);
    if ShouldCheckpoint(intent) && CheckpointTaken(env, w, step) {
      var id := CheckpointId(env.behaviour(w, CheckpointCall(step)).result).value;
      DispatchKeepsCheckpoint(env, Ready(env, w, step), step, id, intent, strategy, attempt);
    } else if !ShouldCheckpoint(intent) {
      DispatchDecides(env, w, step, "", intent, strategy, attempt);
    }
  }

  /** Ending rolled back without a manifest means the snapshot named by the checkpoint id was put back. */
  lemma RecoverRestores(env: Env, c: CvrRun, step: Step, s: StepState, attempt: nat, maxRetries: nat, snapshot: Workspace)
    requires s.status == Running
    requires c.checkpointId != "" ==> c.checkpointId in c.world.checkpoints && c.world.checkpoints[c.checkpointId] == snapshot
    ensures var a := Recover(env, c, step, s, None, attempt, maxRetries);
            a.state.status == RolledBack ==> !a.again && a.world.workspace == snapshot
  {
    assert RestoreTarget(RestoreParams(c.checkpointId)) == Some(c.checkpointId);
  }

  lemma RollbackRestores(env: Env, w: World, step: Step, state: StepState, attempt: nat, maxRetries: nat)
    requires Plain(env)
    ensures var a := Attempt(env, w, step, state, attempt, maxRetries);
            a.state.status == RolledBack ==> !a.again && a.world.workspace == w.workspace
  {
    CheckpointSurvives(env, w, step, attempt);
    var c := CvrExecute(env, w, step, attempt);
    RecoverRestores(env, c, step, state.(status := Running, checkpointId := c.checkpointId), attempt, maxRetries, w.workspace);
  }

  /** An attempt that took no checkpoint has an outcome that calls for a rollback: by the tree, which asks for one
      when an irreversible intent fails verification, or because the app declares a rollback for its mutation. */
  predicate Checkpointless(m: Option<Manifest>, intent: Intent, outcome: Outcome) {
    && !ShouldCheckpoint(intent)
    && ((outcome == Failed && !intent.reversible) || PreferDeclaredRollback(m, outcome))
  }

  /** Exactly when a rollback is decided with no checkpoint to go back to, under the default tree; and exactly when
      that ends in the missing-checkpoint error, or in the missing-target error of a declared workspace restore. */
  lemma MissingCheckpointIff(env: Env, w: World, step: Step, attempt: nat)
    requires env.tree == DefaultTree()
    ensures var c := CvrExecute(env, w, step, attempt);
            var m := env.lookup(w, 1);
            var rolls := ChosenAction(m, c) == RollBack;
            var err := DeclaredRollback(env, c.world, step, ResultOf(c), c, m).err;
            var bare := Checkpointless(m, InferIntent(env, w, step.primitive), c.outcome);
            && (rolls && c.checkpointId == "" <==> bare)
            && (rolls && err == Some(MissingCheckpoint) <==>
                bare && DeclaresNoRollback(m) && (m.Some? ==> !FailClosed(m.value)))
            && (rolls && err == Some(MissingTarget) <==> bare && DeclaresRestore(m))
  {
    hide Dispatch, InferIntent, ChooseStrategy, DeclaredRollback, FailClosed;
    var intent, strategy := InferIntent(env, w, step.primitive), ChooseStrategy(env, w, step);
    var c := CvrExecute(env, w, step, attempt);
    if !ShouldCheckpoint(intent) {
      DispatchDecides(env, w, step, "", intent, strategy, attempt);
    } else if CheckpointTaken(env, w, step) {
      var id := CheckpointId(env.behaviour(w, CheckpointCall(step)).result).value;
      DispatchDecides(env, Ready(env, w, step), step, id, intent, strategy, attempt);
    }
    RollbackMissesIff(env, c, step, env.lookup(w, 1));
  }

  /** What a rollback without a checkpoint does, by what the app declares: an error and nothing undone; one call of
      the declared primitive and no restore; or nothing at all, which counts as rolled back all the same. */
  lemma CheckpointlessRollback(env: Env, c: CvrRun, step: Step, m: Option<Manifest>)
    requires c.checkpointId == ""
    ensures var rb := DeclaredRollback(env, c.world, step, ResultOf(c), c, m);
            var payload := RollbackPayload(step, ResultOf(c), c);
            && (rb.world != c.world <==> DeclaresCall(m) && payload.Some?)
            && (rb.world != c.world ==>
                  rb.world.trace == c.world.trace + [Call(m.value.rollback.value.primitive, Value(payload.value))])
            && (rb == RollbackRun(c.world, None) <==> DeclaresNothing(m))
  {
    hide RollbackPayload;
    var rb := DeclaredRollback(env, c.world, step, ResultOf(c), c, m);
    assert rb.world != c.world ==> |rb.world.trace| == |c.world.trace| + 1;
  }

  /** An attempt with such an outcome is the last one, leaves what the rollback left, and is reported rolled back
      exactly when the rollback gave no error, also where it did nothing. Only the nesting limit comes first. */
  lemma CheckpointlessAttempt(env: Env, w: World, step: Step, state: StepState, attempt: nat, maxRetries: nat)
    requires env.tree == DefaultTree()
    ensures var c := CvrExecute(env, w, step, attempt);
            var m := env.lookup(w, 1);
            var rb := DeclaredRollback(env, c.world, step, ResultOf(c), c, m);
            var a := Attempt(env, w, step, state, attempt, maxRetries);
            Checkpointless(m, InferIntent(env, w, step.primitive), c.outcome) && c.err != Some(DepthExceeded) ==>
              && !a.again && a.result.None? && a.world == rb.world
              && (a.state.status == RolledBack <==> rb.err.None?)
              && (DeclaresNothing(m) ==> a.state.status == RolledBack && a.world == c.world)
  {
    hide CvrExecute, InferIntent, DeclaredRollback;
    var c, m := CvrExecute(env, w, step, attempt), env.lookup(w, 1);
    MissingCheckpointIff(env, w, step, attempt);
    if Checkpointless(m, InferIntent(env, w, step.primitive), c.outcome) {
      CheckpointlessRollback(env, c, step, m);
    }
  }

  lemma DispatchDecides(
    env: Env, w: World, step: Step, id: string, intent: Intent, strategy: Option<Strategy>, attempt: nat)
    ensures var c := Dispatch(env, w, step, id, intent, strategy, attempt);
            && c.checkpointId == id && c.outcome != Unset
            && (env.tree == DefaultTree() ==> (c.action == RollBack <==> c.outcome == Failed && !intent.reversible))
  {
    forall failure, outcome { DefaultDecision(RecoveryCtx(failure, attempt, intent, outcome, TREE_RETRIES)); }
  }

  lemma RollbackMissesIff(env: Env, c: CvrRun, step: Step, m: Option<Manifest>)
    ensures var err := DeclaredRollback(env, c.world, step, ResultOf(c), c, m).err;
            && (err == Some(MissingCheckpoint) <==>
                c.checkpointId == "" && DeclaresNoRollback(m) && (m.Some? ==> !FailClosed(m.value)))
            && (err == Some(MissingTarget) <==> c.checkpointId == "" && DeclaresRestore(m))
  {
    hide RollbackPayload;
  }

  lemma {:induction false} IrreversibleRulesMutate(rules: seq<Rule>, p: string)
    requires forall i :: 0 <= i < |rules| && !rules[i].intent.reversible ==> rules[i].intent.category == Mutation
    ensures var intent := MatchRule(rules, p);
            intent.Some? && !intent.value.reversible ==> intent.value.category == Mutation
  {
    if rules != [] {
      IrreversibleRulesMutate(rules[1..], p);
    }
  }

  /** Hence a primitive known to no manifest always has its checkpoint when a rollback is decided. */
  lemma PlainRollbackHasCheckpoint(env: Env, w: World, step: Step, attempt: nat)
    requires Plain(env) && env.tree == DefaultTree()
    ensures var c := CvrExecute(env, w, step, attempt);
            ChosenAction(env.lookup(w, 1), c) == RollBack ==>
              && c.checkpointId != "" && c.checkpointId in c.world.checkpoints && c.world.checkpoints[c.checkpointId] == w.workspace
              && DeclaredRollback(env, c.world, step, ResultOf(c), c, env.lookup(w, 1)).err != Some(MissingCheckpoint)
  {
    IrreversibleRulesMutate(INTENT_RULES, step.primitive);
    MissingCheckpointIff(env, w, step, attempt);
    CheckpointSurvives(env, w, step, attempt);
  }

  // ---- Back to the start of the step ------------------------------------------------------------

  predicate Fruitful(r: Reply) { r.err.None? && r.result.Some? && r.result.value.success }

  /** A call without a successful result leaves the workspace alone. */
  ghost predicate Tidy(env: Env) {
    forall w, c :: Fruitful(env.behaviour(w, c)) || After(w, c, env.behaviour(w, c)).workspace == w.workspace
  }

  /** The default verification, if any, is always answered. */
  ghost predicate Answers(env: Env) {
    env.strategy.Some? && StrategyCall(env.strategy.value).Some? ==>
      forall w :: env.behaviour(w, StrategyCall(env.strategy.value).value).err.None?
  }

  lemma UnfinishedDispatch(
    env: Env, w: World, step: Step, id: string, intent: Intent, attempt: nat)
    requires Plain(env) && Tidy(env) && Answers(env) && env.tree == DefaultTree()
    requires !intent.reversible && step.primitive != "verify.test"
    ensures var c := Dispatch(env, w, step, id, intent, env.strategy, attempt);
            Succeeds(c) || c.action == RollBack || c.world.workspace == w.workspace
  {
    hide After, Unwrap, Flag, Data;
    DispatchDecides(env, w, step, id, intent, env.strategy, attempt);
    var r := env.behaviour(w, MainCall(step));
    assert Fruitful(r) || After(w, MainCall(step), r).workspace == w.workspace;
    if env.strategy.Some? && r.err.None? && Succeeded(r) {
      var w1, call := After(w, MainCall(step), r), StrategyCall(env.strategy.value).value;
      var v := env.behaviour(w1, call);
      assert v.err.None?;
      assert Fruitful(v) || After(w1, call, v).workspace == w1.workspace;
    }
  }

  lemma AgainKeepsWorld(env: Env, c: CvrRun, step: Step, s: StepState, m: Option<Manifest>, attempt: nat, maxRetries: nat)
    requires s.status == Running
    ensures var a := Recover(env, c, step, s, m, attempt, maxRetries);
            && (a.again ==> a.world == c.world && !Succeeds(c) && ChosenAction(m, c) != RollBack)
            && (a.state.status == RolledBack ==> ChosenAction(m, c) == RollBack)
  {
    hide DeclaredRollback;
  }

  /** Without a manifest every attempt of a primitive infers the same intent. */
  function PlainIntent(p: string): Intent { if StaticIntent(p).Some? then StaticIntent(p).value else WRITES }

  lemma PlainAttempt(env: Env, w: World, step: Step, state: StepState, attempt: nat, maxRetries: nat)
    requires Plain(env) && Tidy(env) && Answers(env) && env.tree == DefaultTree()
    ensures var a := Attempt(env, w, step, state, attempt, maxRetries);
            && (a.state.status == RolledBack ==> !PlainIntent(step.primitive).reversible)
            && (a.again && !PlainIntent(step.primitive).reversible ==> a.world.workspace == w.workspace)
  {
    hide Dispatch, Recover, StaticIntent, Tidy, Answers;
    var c := CvrExecute(env, w, step, attempt);
    var intent := PlainIntent(step.primitive);
    AgainKeepsWorld(env, c, step, state.(status := Running, checkpointId := c.checkpointId), None, attempt, maxRetries);
    if !intent.reversible { IrreversibleIsNoCheck(step.primitive); }
    if !ShouldCheckpoint(intent) {
      DispatchDecides(env, w, step, "", intent, env.strategy, attempt);
      if !intent.reversible { UnfinishedDispatch(env, w, step, "", intent, attempt); }
    } else if CheckpointTaken(env, w, step) {
      var id := CheckpointId(env.behaviour(w, CheckpointCall(step)).result).value;
      DispatchDecides(env, Ready(env, w, step), step, id, intent, env.strategy, attempt);
      if !intent.reversible { UnfinishedDispatch(env, Ready(env, w, step), step, id, intent, attempt); }
    }
  }

  lemma IrreversibleIsNoCheck(p: string)
    requires !PlainIntent(p).reversible
    ensures p != "verify.test"
  {
    hide MatchRule;
    if p == "verify.test" { CheckRule(INTENT_RULES, p, 8); }
  }

  lemma {:induction false} CheckRule(rules: seq<Rule>, p: string, k: nat)
    requires k < |rules| && rules[k] == Rule("verify.", false, CHECKS) && "verify." <= p && p != ""
    requires forall i :: 0 <= i < k ==> |rules[i].name| > 0 && rules[i].name[0] != p[0]
    ensures MatchRule(rules, p) == Some(CHECKS)
  {
    if k > 0 { CheckRule(rules[1..], p, k - 1); }
  }

  lemma {:induction false} TidyKeepsStart(env: Env, w: World, step: Step, state: StepState, attempt: nat, maxRetries: nat)
    requires Plain(env) && Tidy(env) && Answers(env) && env.tree == DefaultTree() && attempt <= maxRetries
    requires RunFrom(env, w, step, state, attempt, maxRetries).state.status == RolledBack
    ensures !PlainIntent(step.primitive).reversible
    ensures LastStart(env, w, step, state, attempt, maxRetries).workspace == w.workspace
    decreases maxRetries - attempt
  {
    hide Attempt, PlainIntent, Tidy, Plain, Answers;
    var a := Attempt(env, w, step, state, attempt, maxRetries);
    PlainAttempt(env, w, step, state, attempt, maxRetries);
    if a.again {
      AgainWithinLimit(env, w, step, state, attempt, maxRetries);
      TidyKeepsStart(env, a.world, step, a.state, attempt + 1, maxRetries);
    }
  }

  /** Without a manifest, a step that ends rolled back has the workspace it started with exactly when its last attempt
      began with that workspace; and so it always is if calls without a successful result leave the workspace alone
      and the default verification is always answered. */
  lemma RolledBackToStart(env: Env, w: World, step: Step, state: StepState, taskLimit: int)
    requires Plain(env) && RunStep(env, w, step, state, taskLimit).state.status == RolledBack
    ensures RunStep(env, w, step, state, taskLimit).world.workspace == w.workspace <==>
            LastStart(env, w, step, state, 0, MaxRetries(taskLimit)).workspace == w.workspace
    ensures Tidy(env) && Answers(env) && env.tree == DefaultTree() ==>
              RunStep(env, w, step, state, taskLimit).world.workspace == w.workspace
  {
    hide Attempt, Plain, Tidy, Answers;
    var _ := StepTrace(env, w, step, state, 0, MaxRetries(taskLimit));
    if Tidy(env) && Answers(env) && env.tree == DefaultTree() {
      TidyKeepsStart(env, w, step, state, 0, MaxRetries(taskLimit));
    }
  }
}
