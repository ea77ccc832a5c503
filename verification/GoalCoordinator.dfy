/** The goal store and the coordinator as they run: rows updated in place, one write at a time. */
module GoalCoordinator {
  import opened Goal

  class GoalStore {
    var status: GoalStatus
    var steps: seq<Step>
    var reviews: seq<Review>
    var checks: seq<CheckStatus>
    var dispatched: seq<nat>
    var checked: seq<nat>

    /** A goal created with its steps, all pending. */
    constructor (risks: seq<string>, verifications: nat)
      ensures Fresh(Row()) && |steps| == |risks| && |checks| == verifications
      ensures forall i :: 0 <= i < |risks| ==> steps[i].risk == (if risks[i] == "" then "low" else risks[i])
    {
      status := Created;
      steps := seq(|risks|, i requires 0 <= i < |risks| => Step(if risks[i] == "" then "low" else risks[i], Pending));
      checks := seq(verifications, _ => CheckPending);
      reviews, dispatched, checked := [], [], [];
    }

    function Row(): Goal
      reads this
    {
      Goal(status, steps, reviews, checks, dispatched, checked)
    }

    method UpdateStatus(s: GoalStatus)
      modifies this
      ensures Row() == SetStatus(old(Row()), s)
    {
      status := s;
    }

    method UpdateStep(i: nat, s: StepStatus)
      requires i < |steps|
      modifies this
      ensures Row() == SetStep(old(Row()), i, s)
    {
      steps := steps[i := steps[i].(status := s)];
    }

    method InsertReview(step: nat) returns (inserted: bool)
      modifies this
      ensures Row() == CreateReview(old(Row()), step)
      ensures inserted <==> |reviews| == |old(reviews)| + 1
    {
      inserted := true;
      for r := 0 to |reviews|
        invariant inserted && forall k :: 0 <= k < r ==> reviews[k] != Review(step, Undecided)
      {
        if reviews[r] == Review(step, Undecided) {
          return false;
        }
      }
      reviews := reviews + [Review(step, Undecided)];
    }

    method Decide(r: nat, s: ReviewStatus) returns (d: Decision)
      modifies this
      ensures (Row(), d) == DecideReview(old(Row()), r, s)
      ensures d != Decided ==> Row() == old(Row())
    {
      if r >= |reviews| {
        return NotFound;
      }
      if reviews[r].status == s {
        return Decided;
      }
      if reviews[r].status != Undecided {
        return Conflict;
      }
      reviews := reviews[r := reviews[r].(status := s)];
      d := Decided;
    }
  }

  class Coordinator {
    const store: GoalStore
    const oracle: Oracle

    constructor (store: GoalStore, oracle: Oracle)
      ensures this.store == store && this.oracle == oracle
    {
      this.store, this.oracle := store, oracle;
    }

    /** Hand step `i` to the engine. */
    method Dispatch(i: nat) returns (ok: bool)
      modifies store
      ensures ok == oracle.engine(|old(store.dispatched)|)
      ensures store.Row() == old(store.Row()).(dispatched := old(store.dispatched) + [i])
    {
      ok := oracle.engine(|store.dispatched|);
      store.dispatched := store.dispatched + [i];
    }

    /** Walk the listed steps in order; the statuses tested are those listed when the walk began. */
    method WalkSteps(approved: set<nat>) returns (outcome: StepsOutcome)
      modifies store
      ensures (store.Row(), outcome) == ExecuteSteps(oracle, old(store.Row()), 0, approved)
    {
      var listed := store.steps;
      ghost var whole := ExecuteSteps(oracle, store.Row(), 0, approved);
      for i := 0 to |listed|
        invariant |store.steps| == |listed|
        invariant forall k :: i <= k < |listed| ==> store.steps[k] == listed[k]
        invariant ExecuteSteps(oracle, store.Row(), i, approved) == whole
      {
        if Finished(listed[i]) {
          continue;
        }
        if listed[i].status == Failed {
          return Broken;
        }
        if HighRisk(listed[i]) && i !in approved {
          var _ := store.InsertReview(i);
          store.UpdateStep(i, AwaitingReview);
          store.UpdateStatus(GoalPaused);
          return Gated;
        }
        store.UpdateStep(i, Running);
        var ok := Dispatch(i);
        if !ok {
          store.UpdateStep(i, Failed);
          return Broken;
        }
        store.UpdateStep(i, Passed);
      }
      outcome := AllFinished;
    }

    method RunVerifications() returns (passed: bool)
      modifies store
      ensures (store.Row(), passed) == RunChecks(oracle, old(store.Row()), 0)
    {
      ghost var whole := RunChecks(oracle, store.Row(), 0);
      var n := |store.checks|;
      for k := 0 to n
        invariant |store.checks| == n
        invariant RunChecks(oracle, store.Row(), k) == whole
      {
        if store.checks[k] == CheckPassed {
          continue;
        }
        store.checks := store.checks[k := CheckRunning];
        var ok := oracle.verifier(|store.checked|);
        store.checked := store.checked + [k];
        store.checks := store.checks[k := if ok then CheckPassed else CheckFailed];
        if !ok {
          return false;
        }
      }
      passed := true;
    }

    method Finish()
      modifies store
      ensures store.Row() == Finalize(oracle, old(store.Row()))
    {
      if |store.checks| == 0 {
        store.UpdateStatus(Completed);
        return;
      }
      store.UpdateStatus(Verifying);
      var passed := RunVerifications();
      store.UpdateStatus(if passed then Completed else GoalFailed);
    }

    method Run(approved: set<nat>)
      modifies store
      ensures store.Row() == Coordinate(oracle, old(store.Row()), approved)
    {
      store.UpdateStatus(Executing);
      var outcome := WalkSteps(approved);
      match outcome {
        case Gated =>
        case Broken => store.UpdateStatus(GoalFailed);
        case AllFinished => Finish();
      }
    }

    method ExecuteGoal()
      modifies store
      ensures store.Row() == Act(oracle, old(store.Row()), Execute)
    {
      if store.status != Executing && store.status != Completed {
        Run({});
      }
    }

    method ResumeGoal()
      modifies store
      ensures store.Row() == Act(oracle, old(store.Row()), Resume)
    {
      if store.status != GoalPaused {
        return;
      }
      var listed := store.reviews;
      var approved: set<nat> := {};
      for r := 0 to |listed|
        invariant approved == ApprovedSteps(listed[..r])
        invariant !AnyUndecided(listed[..r])
        invariant store.Row() == old(store.Row())
      {
        if listed[r].status == Undecided {
          return;
        }
        if listed[r].status == Approved {
          approved := approved + {listed[r].step};
        }
        assert listed[..r + 1] == listed[..r] + [listed[r]];
        ApprovedSnoc(listed[..r], listed[r]);
      }
      assert listed[..|listed|] == listed;
      Run(approved);
    }

    method ApproveReview(r: nat)
      modifies store
      ensures store.Row() == Act(oracle, old(store.Row()), Approve(r))
    {
      var _ := store.Decide(r, Approved);
    }

    method RejectReview(r: nat)
      modifies store
      ensures store.Row() == Act(oracle, old(store.Row()), Reject(r))
    {
      var d := store.Decide(r, Rejected);
      if d == Decided {
        store.UpdateStatus(GoalFailed);
      }
    }
  }

  lemma ApprovedSnoc(reviews: seq<Review>, r: Review)
    ensures ApprovedSteps(reviews + [r]) == ApprovedSteps(reviews) + (if r.status == Approved then {r.step} else {})
    ensures AnyUndecided(reviews + [r]) <==> AnyUndecided(reviews) || r.status == Undecided
  {
    var all := reviews + [r];
    assert all[|reviews|] == r;
    assert forall k :: 0 <= k < |reviews| ==> all[k] == reviews[k];
  }
}
