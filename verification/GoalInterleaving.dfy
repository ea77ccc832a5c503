/** Any number of coordinator runs and review decisions on one goal, interleaved at every store access. A
    decision reads the review and writes it in two separate steps, as the store does. */
module GoalInterleaving {
  import opened Goal

  // Where a run stands between two store accesses.
  datatype Pc =
    | Entered | Vetted | Cleared | Started | Walking
    | Gating | Requested | Holding | Launching | Dispatching | Marking(ok: bool) | Failing
    | Finishing | Verifying | Ended

  datatype Run = Run(resume: bool, pc: Pc, approved: set<nat>, listed: seq<Step>, i: nat)

  // A decision that has read its review as undecided and has yet to write.
  datatype Verdict = Verdict(review: nat, status: ReviewStatus)

  // `verified` says whether the goal has verifications; `marks` counts reject handlers that have yet to fail the goal;
  // `approvedEver` records the steps whose review was ever written as approved.
  datatype State = State(
    verified: bool, status: GoalStatus, steps: seq<Step>, reviews: seq<Review>,
    runs: map<nat, Run>, deciders: map<nat, Verdict>, marks: nat, approvedEver: set<nat>, dispatched: seq<nat>)

  datatype Event =
    | Begin(n: nat, resume: bool)
    | Move(n: nat, ok: bool)
    | ReadReview(d: nat, verdict: Verdict)
    | WriteReview(d: nat)
    | RepeatReject(r: nat)
    | MarkRejected

  predicate Initial(s: State) {
    && s.status == Created && s.reviews == [] && s.runs == map[] && s.deciders == map[]
    && s.marks == 0 && s.approvedEver == {} && s.dispatched == []
    && (forall i :: 0 <= i < |s.steps| ==> s.steps[i].status == Pending)
  }

  predicate Enabled(s: State, e: Event) {
    match e
    case Begin(n, _) => n !in s.runs
    case Move(n, _) => n in s.runs && s.runs[n].pc != Ended
    case ReadReview(d, v) =>
      d !in s.deciders && v.review < |s.reviews| && s.reviews[v.review].status == Undecided && v.status != Undecided
    case WriteReview(d) => d in s.deciders
    // A reject of a review that is already rejected succeeds without a write, and its handler goes on.
    case RepeatReject(r) => r < |s.reviews| && s.reviews[r].status == Rejected
    // A reject handler fails the goal some time after its own decision, whatever has become of the review.
    case MarkRejected => s.marks > 0
  }

  function SetStepOf(s: State, i: nat, status: StepStatus): (t: State)
    ensures t == s.(steps := t.steps) && Extends(s, t)
  {
    if i < |s.steps| then s.(steps := s.steps[i := s.steps[i].(status := status)]) else s
  }

  function Put(s: State, n: nat, r: Run): State {
    s.(runs := s.runs[n := r])
  }

  function AddReview(s: State, step: nat): (t: State)
    ensures t == s || t == s.(reviews := s.reviews + [Review(step, Undecided)])
  {
    if HasReview(s.reviews, step, Undecided) then s else s.(reviews := s.reviews + [Review(step, Undecided)])
  }

  /** Where a run stands after its next store access; `ok` is the engine's answer where it dispatches. */
  function NextRun(s: State, r: Run, ok: bool): Run
    requires r.pc != Ended
  {
    match r.pc
    case Entered =>
      var admitted := if r.resume then s.status == GoalPaused else s.status !in {Executing, Completed};
      r.(pc := if !admitted then Ended else if r.resume then Vetted else Cleared)
    case Vetted =>
      if AnyUndecided(s.reviews) then r.(pc := Ended) else r.(pc := Cleared, approved := ApprovedSteps(s.reviews))
    case Cleared => r.(pc := Started)
    case Started => r.(pc := Walking, listed := s.steps, i := 0)
    case Walking =>
      if r.i >= |r.listed| then r.(pc := Finishing)
      else if Finished(r.listed[r.i]) then r.(i := r.i + 1)
      else if r.listed[r.i].status == Failed then r.(pc := Failing)
      else if HighRisk(r.listed[r.i]) && r.i !in r.approved then r.(pc := Gating)
      else r.(pc := Launching)
    case Gating => r.(pc := Requested)
    case Requested => r.(pc := Holding)
    case Holding => r.(pc := Ended)
    case Launching => r.(pc := Dispatching)
    case Dispatching => r.(pc := Marking(ok))
    case Marking(passed) => if passed then r.(pc := Walking, i := r.i + 1) else r.(pc := Failing)
    case Failing => r.(pc := Ended)
    case Finishing => r.(pc := if s.verified then Pc.Verifying else Ended)
    case Verifying => r.(pc := Ended)
  }

  /** What that access changes in the store; `ok` is the verdict of all verifications where the run verifies. */
  function Effect(s: State, r: Run, ok: bool): State {
    match r.pc
    case Cleared => s.(status := Executing)
    case Gating => AddReview(s, r.i)
    case Requested => SetStepOf(s, r.i, AwaitingReview)
    case Holding => s.(status := GoalPaused)
    case Launching => SetStepOf(s, r.i, Running)
    case Dispatching => s.(dispatched := s.dispatched + [r.i])
    case Marking(passed) => SetStepOf(s, r.i, if passed then Passed else Failed)
    case Failing => s.(status := GoalFailed)
    case Finishing => s.(status := if s.verified then GoalStatus.Verifying else Completed)
    case Verifying => s.(status := if ok then Completed else GoalFailed)
    case _ => s
  }

  function MoveRun(s: State, n: nat, ok: bool): State
    requires n in s.runs && s.runs[n].pc != Ended
  {
    var r := s.runs[n];
    Put(Effect(s, r, ok), n, NextRun(s, r, ok))
  }

  function Write(s: State, d: nat): State
    requires d in s.deciders
  {
    var v := s.deciders[d];
    if v.review >= |s.reviews| then s.(deciders := s.deciders - {d})
    else
      s.(deciders := s.deciders - {d}, marks := if v.status == Rejected then s.marks + 1 else s.marks,
         reviews := s.reviews[v.review := s.reviews[v.review].(status := v.status)],
         approvedEver := if v.status == Approved then s.approvedEver + {s.reviews[v.review].step} else s.approvedEver)
  }

  function Next(s: State, e: Event): State
    requires Enabled(s, e)
  {
    match e
    case Begin(n, resume) => Put(s, n, Run(resume, Entered, {}, [], 0))
    case Move(n, ok) => MoveRun(s, n, ok)
    case ReadReview(d, v) => s.(deciders := s.deciders[d := v])
    case WriteReview(d) => Write(s, d)
    case RepeatReject(r) => s.(marks := s.marks + 1)
    case MarkRejected => s.(status := GoalFailed, marks := s.marks - 1)
  }

  ghost predicate Reaches(s: State, events: seq<Event>, t: State)
    decreases |events|
  {
    if events == [] then s == t
    else Enabled(s, events[0]) && Reaches(Next(s, events[0]), events[1..], t)
  }

  // ---- The review gate -------------------------------------------------------------------------------

  /** The step a run is working on is within its list and, if high-risk, approved for this run. */
  ghost predicate RunSafe(s: State, r: Run) {
    && r.approved <= s.approvedEver
    && (r.pc.Walking? || r.pc.Launching? || r.pc.Dispatching? || r.pc.Marking? ==>
          |r.listed| == |s.steps| && forall k :: 0 <= k < |r.listed| ==> r.listed[k].risk == s.steps[k].risk)
    && (r.pc.Launching? || r.pc.Dispatching? || r.pc.Marking? ==>
          r.i < |r.listed| && (HighRisk(r.listed[r.i]) ==> r.i in r.approved))
  }

  ghost predicate GateHolds(s: State) {
    && (forall n :: n in s.runs ==> RunSafe(s, s.runs[n]))
    && (forall r :: 0 <= r < |s.reviews| && s.reviews[r].status == Approved ==> s.reviews[r].step in s.approvedEver)
    && (forall k :: 0 <= k < |s.dispatched| ==>
          s.dispatched[k] < |s.steps| && (HighRisk(s.steps[s.dispatched[k]]) ==> s.dispatched[k] in s.approvedEver))
  }

  /** What no event changes: the number of steps and their risk; and what only grows. */
  ghost predicate Extends(s: State, t: State) {
    && |t.steps| == |s.steps| && (forall k :: 0 <= k < |s.steps| ==> t.steps[k].risk == s.steps[k].risk)
    && s.approvedEver <= t.approvedEver && s.dispatched <= t.dispatched
  }

  lemma NextExtends(s: State, e: Event)
    requires Enabled(s, e)
    ensures Extends(s, Next(s, e))
  {
    hide NextRun, Effect;
    if e.Move? { EffectFrame(s, s.runs[e.n], e.ok); }
  }

  lemma MoveSafe(s: State, r: Run, ok: bool)
    requires r.pc != Ended && RunSafe(s, r)
    requires ApprovedSteps(s.reviews) <= s.approvedEver
    ensures RunSafe(s, NextRun(s, r, ok))
  {
    hide ApprovedSteps, AnyUndecided;
  }

  lemma ApprovedWereApproved(s: State)
    requires GateHolds(s)
    ensures ApprovedSteps(s.reviews) <= s.approvedEver
  {
  }

  lemma SafeExtends(s: State, t: State, r: Run)
    requires RunSafe(s, r) && Extends(s, t)
    ensures RunSafe(t, r)
  {
  }

  /** A run's access adds at most an undecided review, and dispatches only the step the run is at. */
  lemma EffectFrame(s: State, r: Run, ok: bool)
    ensures var t := Effect(s, r, ok);
            && t.runs == s.runs && t.deciders == s.deciders && t.approvedEver == s.approvedEver && Extends(s, t)
            && (t.reviews == s.reviews || t.reviews == s.reviews + [Review(r.i, Undecided)])
            && t.dispatched == (if r.pc == Dispatching then s.dispatched + [r.i] else s.dispatched)
  {
    hide SetStepOf, AddReview, HasReview;
  }

  lemma MoveKeeps(s: State, n: nat, ok: bool)
    requires GateHolds(s) && n in s.runs && s.runs[n].pc != Ended
    ensures GateHolds(MoveRun(s, n, ok))
  {
    hide Effect, NextRun, ApprovedSteps;
    var r, t := s.runs[n], MoveRun(s, n, ok);
    EffectFrame(s, r, ok);
    ApprovedWereApproved(s);
    MoveSafe(s, r, ok);
    SafeExtends(s, t, NextRun(s, r, ok));
    forall m | m in s.runs ensures RunSafe(t, s.runs[m]) {
      SafeExtends(s, t, s.runs[m]);
    }
  }

  lemma GateKept(s: State, e: Event)
    requires GateHolds(s) && Enabled(s, e)
    ensures GateHolds(Next(s, e))
  {
    hide MoveRun;
    if e.Move? {
      MoveKeeps(s, e.n, e.ok);
    } else {
      NextExtends(s, e);
      forall m | m in s.runs ensures RunSafe(Next(s, e), s.runs[m]) {
        SafeExtends(s, Next(s, e), s.runs[m]);
      }
    }
  }

  lemma {:induction false} GateKeptThroughout(s: State, events: seq<Event>, t: State)
    requires GateHolds(s) && Reaches(s, events, t)
    ensures GateHolds(t)
    decreases |events|
  {
    if events != [] {
      GateKept(s, events[0]);
      GateKeptThroughout(Next(s, events[0]), events[1..], t);
    }
  }

  /** However runs and decisions interleave, even non-atomic ones: whenever a run is about to dispatch a
      high-risk step, some review of that step has been approved before, and so for every step ever dispatched. */
  lemma HighRiskNeedsApproval(s: State, events: seq<Event>, t: State)
    requires Initial(s) && Reaches(s, events, t)
    ensures forall n :: n in t.runs && t.runs[n].pc == Dispatching ==>
              t.runs[n].i < |t.steps| && (HighRisk(t.steps[t.runs[n].i]) ==> t.runs[n].i in t.approvedEver)
    ensures forall k :: 0 <= k < |t.dispatched| ==>
              t.dispatched[k] < |t.steps| && (HighRisk(t.steps[t.dispatched[k]]) ==> t.dispatched[k] in t.approvedEver)
  {
    GateKeptThroughout(s, events, t);
  }

  /** Some decision in `past` says `status` on a review of step `i`. */
  ghost predicate Decided(s: State, past: seq<Event>, i: nat, status: ReviewStatus) {
    exists k :: 0 <= k < |past| && past[k].ReadReview? && past[k].verdict.status == status
                && past[k].verdict.review < |s.reviews| && s.reviews[past[k].verdict.review].step == i
  }

  /** Whatever decisions have left behind goes back to a decision that was made. */
  ghost predicate HasHistory(s: State, past: seq<Event>) {
    && (forall d <- s.deciders :: s.deciders[d].review < |s.reviews|
          && Decided(s, past, s.reviews[s.deciders[d].review].step, s.deciders[d].status))
    && (forall i <- s.approvedEver :: Decided(s, past, i, Approved))
    && (forall r :: 0 <= r < |s.reviews| && s.reviews[r].status == Rejected ==> Decided(s, past, s.reviews[r].step, Rejected))
    && (s.marks > 0 ==> exists i :: Decided(s, past, i, Rejected))
  }

  lemma DecidedStays(s: State, t: State, past: seq<Event>, e: Event, i: nat, status: ReviewStatus)
    requires Decided(s, past, i, status) && |s.reviews| <= |t.reviews|
    requires forall r :: 0 <= r < |s.reviews| ==> t.reviews[r].step == s.reviews[r].step
    ensures Decided(t, past + [e], i, status)
  {
    var k :| 0 <= k < |past| && past[k].ReadReview? && past[k].verdict.status == status
             && past[k].verdict.review < |s.reviews| && s.reviews[past[k].verdict.review].step == i;
    assert (past + [e])[k] == past[k];
  }

  lemma ReviewsStay(s: State, e: Event)
    requires Enabled(s, e)
    ensures var t := Next(s, e);
            |s.reviews| <= |t.reviews| && forall r :: 0 <= r < |s.reviews| ==> t.reviews[r].step == s.reviews[r].step
    ensures e.Move? ==> var t := Next(s, e);
              t.deciders == s.deciders && t.approvedEver == s.approvedEver && t.marks == s.marks
              && forall r :: 0 <= r < |t.reviews| && t.reviews[r].status == Rejected ==> r < |s.reviews| && t.reviews[r] == s.reviews[r]
  {
    hide NextRun, HasReview;
  }

  lemma HistoryKept(s: State, past: seq<Event>, e: Event)
    requires HasHistory(s, past) && Enabled(s, e)
    ensures HasHistory(Next(s, e), past + [e])
  {
    hide MoveRun, Decided;
    var t, now := Next(s, e), past + [e];
    ReviewsStay(s, e);
    forall i, status | Decided(s, past, i, status) ensures Decided(t, now, i, status) {
      DecidedStays(s, t, past, e, i, status);
    }
    if e.ReadReview? { DecidedNow(t, past, e); }
  }

  lemma DecidedNow(s: State, past: seq<Event>, e: Event)
    requires e.ReadReview? && e.verdict.review < |s.reviews|
    ensures Decided(s, past + [e], s.reviews[e.verdict.review].step, e.verdict.status)
  {
    assert (past + [e])[|past|] == e;
  }

  lemma {:induction false} HistoryThroughout(s: State, past: seq<Event>, events: seq<Event>, t: State)
    requires HasHistory(s, past) && Reaches(s, events, t)
    ensures HasHistory(t, past + events)
    decreases |events|
  {
    hide HasHistory, Enabled, Next;
    if events == [] {
      assert past + events == past;
    } else {
      HistoryKept(s, past, events[0]);
      HistoryThroughout(Next(s, events[0]), past + [events[0]], events[1..], t);
      assert past + [events[0]] + events[1..] == past + events;
    }
  }

  /** In every interleaving from creation, a high-risk step that was dispatched has among the events an approval of a
      review of it, and a reject handler can fail the goal only if some decision was a rejection. */
  lemma DecisionsWereMade(s: State, events: seq<Event>, t: State)
    requires Initial(s) && Reaches(s, events, t)
    ensures forall k :: 0 <= k < |t.dispatched| ==>
              t.dispatched[k] < |t.steps|
              && (HighRisk(t.steps[t.dispatched[k]]) ==> Decided(t, events, t.dispatched[k], Approved))
    ensures Enabled(t, MarkRejected) ==> exists i :: Decided(t, events, i, Rejected)
  {
    HighRiskNeedsApproval(s, events, t);
    HistoryThroughout(s, [], events, t);
    assert [] + events == events;
  }

  /** However runs interleave, a goal becomes completed only by a run that walked to the end of its list and either has
      nothing to verify or has just had its verifications pass; one with verifications shows verifying until then. */
  lemma CompletedOnlyAtTheEnd(s: State, e: Event)
    requires Enabled(s, e)
    ensures Next(s, e).status == Completed && s.status != Completed <==>
            && s.status != Completed && e.Move?
            && (if s.verified then s.runs[e.n].pc == Pc.Verifying && e.ok else s.runs[e.n].pc in {Finishing, Pc.Verifying})
            && (s.runs[e.n].pc == Pc.Verifying ==> e.ok)
    ensures e.Move? && s.runs[e.n].pc == Finishing && s.verified ==>
              Next(s, e).status == GoalStatus.Verifying && Next(s, e).runs[e.n].pc == Pc.Verifying
    ensures e.Move? && Next(s, e).runs[e.n].pc == Finishing ==> s.runs[e.n].i >= |s.runs[e.n].listed|
  {
    hide HasReview;
  }

  // ---- Decisions -----------------------------------------------------------------------------------

  /** Every decided review of `s` is the same in `t`. */
  ghost predicate DecisionsStand(s: State, t: State) {
    && |s.reviews| <= |t.reviews|
    && (forall r :: 0 <= r < |s.reviews| ==>
          t.reviews[r].step == s.reviews[r].step && (s.reviews[r].status != Undecided ==> t.reviews[r] == s.reviews[r]))
  }

  /** Atomic decisions: nobody starts deciding a review while another decision about it is under way. */
  ghost predicate Atomic(s: State, events: seq<Event>)
    decreases |events|
  {
    events == [] ||
    (Enabled(s, events[0]) &&
     (events[0].ReadReview? ==>
        forall d :: d in s.deciders ==> s.deciders[d].review != events[0].verdict.review) &&
     Atomic(Next(s, events[0]), events[1..]))
  }

  /** A decision under way is the only one about its review, which is still undecided. */
  ghost predicate Exclusive(s: State) {
    && (forall d :: d in s.deciders ==>
          s.deciders[d].review < |s.reviews| && s.reviews[s.deciders[d].review].status == Undecided)
    && (forall d, f :: d in s.deciders && f in s.deciders && d != f ==> s.deciders[d].review != s.deciders[f].review)
  }

  lemma NextStands(s: State, e: Event)
    requires Exclusive(s) && Enabled(s, e)
    requires e.ReadReview? ==> forall d :: d in s.deciders ==> s.deciders[d].review != e.verdict.review
    ensures Exclusive(Next(s, e)) && DecisionsStand(s, Next(s, e))
  {
    hide Effect, NextRun;
    if e.Move? { EffectFrame(s, s.runs[e.n], e.ok); }
  }

  /** With atomic decisions a decided review keeps its decision for ever, whatever else happens. */
  lemma {:induction false} AtomicDecisionsStand(s: State, events: seq<Event>, t: State)
    requires Exclusive(s) && Atomic(s, events) && Reaches(s, events, t)
    ensures Exclusive(t) && DecisionsStand(s, t)
    decreases |events|
  {
    hide Next, Enabled;
    if events != [] {
      NextStands(s, events[0]);
      AtomicDecisionsStand(Next(s, events[0]), events[1..], t);
    }
  }

  /** One event overrides a decision exactly when it writes a verdict on a review already decided the other way. */
  lemma OverrideIff(s: State, e: Event)
    requires Enabled(s, e)
    ensures !DecisionsStand(s, Next(s, e)) <==>
            && e.WriteReview? && s.deciders[e.d].review < |s.reviews|
            && s.reviews[s.deciders[e.d].review].status !in {Undecided, s.deciders[e.d].status}
  {
    hide Effect, NextRun;
    if e.Move? { EffectFrame(s, s.runs[e.n], e.ok); }
    if e.WriteReview? && s.deciders[e.d].review < |s.reviews| {
      var v := s.deciders[e.d];
      assert Next(s, e).reviews[v.review].status == v.status;
    }
  }

  /** Without atomicity it does not: two decisions that both read the review as undecided are both written, and
      the second overrides the first. */
  lemma OverlappingDecisionsFlip(s: State, r: nat)
    requires s.deciders == map[] && r < |s.reviews| && s.reviews[r].status == Undecided
    ensures var s1 := Next(s, ReadReview(0, Verdict(r, Approved)));
            Enabled(s1, ReadReview(1, Verdict(r, Rejected))) &&
            var s2 := Next(s1, ReadReview(1, Verdict(r, Rejected)));
            var s3 := Next(s2, WriteReview(0));
            var s4 := Next(s3, WriteReview(1));
            s3.reviews[r].status == Approved && s4.reviews[r].status == Rejected && !DecisionsStand(s3, s4)
  {
    var s1 := Next(s, ReadReview(0, Verdict(r, Approved)));
    var s2 := Next(s1, ReadReview(1, Verdict(r, Rejected)));
    var s3 := Next(s2, WriteReview(0));
    assert s3.reviews[r].status == Approved;
    assert Next(s3, WriteReview(1)).reviews[r].status == Rejected;
  }

  lemma {:induction false} ReachesThen(s: State, events: seq<Event>, t: State, e: Event)
    requires Reaches(s, events, t) && Enabled(t, e)
    ensures Reaches(s, events + [e], Next(t, e))
    decreases |events|
  {
    if events == [] {
      assert [e][1..] == [];
    } else {
      assert (events + [e])[1..] == events[1..] + [e];
      ReachesThen(Next(s, events[0]), events[1..], t, e);
    }
  }

  // Where run 0 stands after each of its first moves towards the gate of step 0.
  const TO_THE_GATE := [Entered, Cleared, Started, Walking, Gating, Requested]

  ghost predicate OnTheWay(steps: seq<Step>, t: State, moves: nat) {
    && moves < |TO_THE_GATE| && 0 in t.runs && t.runs[0].pc == TO_THE_GATE[moves] && !t.runs[0].resume
    && t.runs[0].approved == {} && t.deciders == map[] && t.steps == steps
    && (moves == 0 ==> t.status == Created)
    && (moves >= 3 ==> t.runs[0].listed == steps && t.runs[0].i == 0)
    && t.reviews == if moves < 5 then [] else [Review(0, Undecided)]
  }

  lemma OneMove(steps: seq<Step>, t: State, moves: nat)
    requires OnTheWay(steps, t, moves) && moves < 5
    requires steps != [] && HighRisk(steps[0]) && steps[0].status == Pending
    ensures Enabled(t, Move(0, true)) && OnTheWay(steps, Next(t, Move(0, true)), moves + 1)
  {
    if moves == 0 { assert t.runs[0].pc == Entered; }
    else if moves == 1 { assert t.runs[0].pc == Cleared; }
    else if moves == 2 { assert t.runs[0].pc == Started; }
    else if moves == 3 { assert t.runs[0].pc == Walking; }
    else { assert t.runs[0].pc == Gating; }
  }

  /** A first run of a goal whose first step is high-risk requests the review of that step. */
  lemma RequestIsReached(s: State) returns (events: seq<Event>, t: State)
    requires Initial(s) && s.steps != [] && HighRisk(s.steps[0])
    ensures Reaches(s, events, t) && t.reviews == [Review(0, Undecided)] && t.deciders == map[]
  {
    hide Reaches, MoveRun;
    ReachesItself(s);
    ReachesThen(s, [], s, Begin(0, false));
    events, t := [] + [Begin(0, false)], Next(s, Begin(0, false));
    var moves := 0;
    while moves < 5
      invariant moves <= 5 && Reaches(s, events, t) && OnTheWay(s.steps, t, moves)
    {
      OneMove(s.steps, t, moves);
      ReachesThen(s, events, t, Move(0, true));
      events, t := events + [Move(0, true)], Next(t, Move(0, true));
      moves := moves + 1;
    }
  }

  lemma ReachesItself(s: State)
    ensures Reaches(s, [], s)
  {
  }

  /** So every goal that begins with a high-risk step has a run in which its review is approved and then rejected. */
  lemma FlipIsReached(s: State) returns (events: seq<Event>, t: State, u: State)
    requires Initial(s) && s.steps != [] && HighRisk(s.steps[0])
    ensures Reaches(s, events, t) && t.reviews == [Review(0, Approved)]
    ensures Enabled(t, WriteReview(1)) && u == Next(t, WriteReview(1)) && Reaches(s, events + [WriteReview(1)], u)
    ensures u.reviews == [Review(0, Rejected)] && !DecisionsStand(t, u)
  {
    hide Reaches;
    events, t := RequestIsReached(s);
    ReachesThen(s, events, t, ReadReview(0, Verdict(0, Approved)));
    events, t := events + [ReadReview(0, Verdict(0, Approved))], Next(t, ReadReview(0, Verdict(0, Approved)));
    ReachesThen(s, events, t, ReadReview(1, Verdict(0, Rejected)));
    events, t := events + [ReadReview(1, Verdict(0, Rejected))], Next(t, ReadReview(1, Verdict(0, Rejected)));
    ReachesThen(s, events, t, WriteReview(0));
    events, t := events + [WriteReview(0)], Next(t, WriteReview(0));
    ReachesThen(s, events, t, WriteReview(1));
    u := Next(t, WriteReview(1));
    OverrideIff(t, WriteReview(1));
  }
}
