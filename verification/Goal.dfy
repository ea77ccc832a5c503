/** The goal control plane: a goal's row, its steps in sequence order, its reviews and its verifications, and
    the coordinator, review and approval actions on them. Steps, reviews and verifications are identified by
    their position; store writes succeed. */
module Goal {
  datatype GoalStatus = Created | Executing | Verifying | Completed | GoalFailed | GoalPaused
  datatype StepStatus = Pending | Running | Passed | Failed | Skipped | AwaitingReview | RolledBack
  datatype ReviewStatus = Undecided | Approved | Rejected
  datatype CheckStatus = CheckPending | CheckRunning | CheckPassed | CheckFailed

  datatype Step = Step(risk: string, status: StepStatus)
  datatype Review = Review(step: nat, status: ReviewStatus)

  // `dispatched` and `checked` record, in order, the steps handed to the engine and the verifications run.
  datatype Goal = Goal(
    status: GoalStatus, steps: seq<Step>, reviews: seq<Review>, checks: seq<CheckStatus>,
    dispatched: seq<nat>, checked: seq<nat>)

  // The outside world: whether the n-th dispatch and the n-th verification succeed.
  datatype Oracle = Oracle(engine: nat -> bool, verifier: nat -> bool)

  predicate Finished(s: Step) {
    s.status in {Passed, Skipped, RolledBack}
  }

  predicate HighRisk(s: Step) {
    s.risk == "high"
  }

  predicate HasReview(reviews: seq<Review>, step: nat, status: ReviewStatus) {
    exists r :: 0 <= r < |reviews| && reviews[r] == Review(step, status)
  }

  // ---- Store writes ------------------------------------------------------------------------------

  function SetStatus(g: Goal, status: GoalStatus): Goal {
    g.(status := status)
  }

  function SetStep(g: Goal, i: nat, status: StepStatus): Goal
    requires i < |g.steps|
  {
    g.(steps := g.steps[i := g.steps[i].(status := status)])
  }

  /** Insert a pending review; the unique index on undecided reviews of a step rejects a second one. */
  function CreateReview(g: Goal, step: nat): Goal {
    if HasReview(g.reviews, step, Undecided) then g else g.(reviews := g.reviews + [Review(step, Undecided)])
  }

  datatype Decision = Decided | NotFound | Conflict

  function DecideReview(g: Goal, r: nat, status: ReviewStatus): (Goal, Decision) {
    if r >= |g.reviews| then (g, NotFound)
    else if g.reviews[r].status == status then (g, Decided)
    else if g.reviews[r].status != Undecided then (g, Conflict)
    else (g.(reviews := g.reviews[r := g.reviews[r].(status := status)]), Decided)
  }

  // ---- Coordinator -------------------------------------------------------------------------------

  datatype StepsOutcome = AllFinished | Gated | Broken

  /** Run the steps from position `i` on, stopping at a failure or at a high-risk step not yet approved. */
  function ExecuteSteps(o: Oracle, g: Goal, i: nat, approved: set<nat>): (Goal, StepsOutcome)
    decreases |g.steps| - i
  {
    if i >= |g.steps| then (g, AllFinished)
    else if Finished(g.steps[i]) then ExecuteSteps(o, g, i + 1, approved)
    else if g.steps[i].status == Failed then (g, Broken)
    else if HighRisk(g.steps[i]) && i !in approved then (Gate(g, i), Gated)
    else
      var g1 := Attempt(o, g, i);
      if g1.steps[i].status == Failed then (g1, Broken) else ExecuteSteps(o, g1, i + 1, approved)
  }

  function Gate(g: Goal, i: nat): Goal
    requires i < |g.steps|
  {
    SetStatus(SetStep(CreateReview(g, i), i, AwaitingReview), GoalPaused)
  }

  /** Mark running, dispatch to the engine, mark the result. */
  function Attempt(o: Oracle, g: Goal, i: nat): (r: Goal)
    requires i < |g.steps|
    ensures |r.steps| == |g.steps|
  {
    var ok := o.engine(|g.dispatched|);
    SetStep(SetStep(g, i, Running).(dispatched := g.dispatched + [i]), i, if ok then Passed else Failed)
  }

  /** Run the verifications from position `k` on, stopping at the first failure. */
  function RunChecks(o: Oracle, g: Goal, k: nat): (r: (Goal, bool))
    decreases |g.checks| - k
  {
    if k >= |g.checks| then (g, true)
    else if g.checks[k] == CheckPassed then RunChecks(o, g, k + 1)
    else
      var ok := o.verifier(|g.checked|);
      var g1 := g.(checks := g.checks[k := CheckRunning]);
      var g2 := g1.(checks := g1.checks[k := if ok then CheckPassed else CheckFailed], checked := g.checked + [k]);
      if ok then RunChecks(o, g2, k + 1) else (g2, false)
  }

  function Finalize(o: Oracle, g: Goal): Goal {
    if g.checks == [] then SetStatus(g, Completed)
    else
      var (g1, passed) := RunChecks(o, SetStatus(g, Verifying), 0);
      SetStatus(g1, if passed then Completed else GoalFailed)
  }

  /** A coordinator run with the given approvals, after its entry checks. */
  function Coordinate(o: Oracle, g: Goal, approved: set<nat>): Goal {
    var (g1, outcome) := ExecuteSteps(o, SetStatus(g, Executing), 0, approved);
    match outcome
    case Gated => g1
    case Broken => SetStatus(g1, GoalFailed)
    case AllFinished => Finalize(o, g1)
  }

  function ApprovedSteps(reviews: seq<Review>): set<nat> {
    set r | 0 <= r < |reviews| && reviews[r].status == Approved :: reviews[r].step
  }

  predicate AnyUndecided(reviews: seq<Review>) {
    exists r :: 0 <= r < |reviews| && reviews[r].status == Undecided
  }

  // ---- Actions -------------------------------------------------------------------------------------

  datatype Action = Execute | Resume | Approve(review: nat) | Reject(review: nat)

  function Act(o: Oracle, g: Goal, a: Action): Goal {
    match a
    case Execute => if g.status in {Executing, Completed} then g else Coordinate(o, g, {})
    case Resume =>
      if g.status != GoalPaused || AnyUndecided(g.reviews) then g else Coordinate(o, g, ApprovedSteps(g.reviews))
    case Approve(r) => DecideReview(g, r, Approved).0
    case Reject(r) =>
      var (g1, d) := DecideReview(g, r, Rejected);
      if d == Decided then SetStatus(g1, GoalFailed) else g1
  }

  function ActAll(o: Oracle, g: Goal, acts: seq<Action>): Goal
    decreases |acts|
  {
    if acts == [] then g else ActAll(o, Act(o, g, acts[0]), acts[1..])
  }

  /** A goal as created: every step and every verification pending, no reviews, nothing done. */
  predicate Fresh(g: Goal) {
    && g.status == Created && g.reviews == [] && g.dispatched == [] && g.checked == []
    && (forall i :: 0 <= i < |g.steps| ==> g.steps[i].status == Pending)
    && (forall k :: 0 <= k < |g.checks| ==> g.checks[k] == CheckPending)
  }
}
