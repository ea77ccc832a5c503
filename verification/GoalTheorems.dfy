/** What holds of a goal after any sequence of Execute, Resume, Approve and Reject. */
module GoalTheorems {
  import opened Goal

  // ---- Shape of the steps and reviews --------------------------------------------------------------

  /** Steps before `p` are finished, the one at `p` is not, everything after it is untouched. */
  ghost predicate Shaped(steps: seq<Step>, p: nat) {
    && p <= |steps|
    && (forall k :: 0 <= k < p ==> Finished(steps[k]))
    && (p < |steps| ==> steps[p].status in {Pending, Failed, AwaitingReview})
    && (forall k :: p < k < |steps| ==> steps[k].status == Pending)
  }

  ghost predicate AwaitsAt(g: Goal, p: nat) {
    p < |g.steps| && g.steps[p].status == AwaitingReview
  }

  ghost predicate Reviewed(g: Goal, p: nat) {
    // Undecided reviews are about the awaiting step, and there is at most one.
    && (forall r :: 0 <= r < |g.reviews| && g.reviews[r].status == Undecided ==> g.reviews[r].step == p && AwaitsAt(g, p))
    && (forall r, q :: 0 <= r < q < |g.reviews| ==>
          !(g.reviews[r].status == Undecided && g.reviews[q].status == Undecided))
    && (AwaitsAt(g, p) ==> HighRisk(g.steps[p]))
  }

  ghost predicate InvariantAt(g: Goal, p: nat) {
    && Shaped(g.steps, p) && Reviewed(g, p)
    && g.status !in {Executing, Verifying}
    && (g.status == GoalPaused ==>
          AwaitsAt(g, p) && (HasReview(g.reviews, p, Undecided) || HasReview(g.reviews, p, Approved)))
  }

  ghost predicate Invariant(g: Goal) {
    exists p: nat :: InvariantAt(g, p)
  }

  lemma GateKeeps(g: Goal, p: nat)
    requires Shaped(g.steps, p) && Reviewed(g, p) && p < |g.steps| && HighRisk(g.steps[p]) && g.steps[p].status != Failed
    ensures var t := Gate(g, p);
            && InvariantAt(t, p) && Shaped(t.steps, p) && Reviewed(t, p)
            && t == g.(status := GoalPaused, steps := t.steps, reviews := t.reviews) && |t.steps| == |g.steps|
  {
    var t := Gate(g, p);
    if HasReview(g.reviews, p, Undecided) {
      assert t.reviews == g.reviews;
    } else {
      assert t.reviews[|g.reviews|] == Review(p, Undecided);
      assert forall r :: 0 <= r < |g.reviews| ==> t.reviews[r] == g.reviews[r];
    }
    assert HasReview(t.reviews, p, Undecided);
  }

  lemma AttemptKeeps(o: Oracle, g: Goal, p: nat)
    requires Shaped(g.steps, p) && p < |g.steps|
    ensures var t := Attempt(o, g, p);
            && t == g.(steps := t.steps, dispatched := g.dispatched + [p])
            && t.steps == g.steps[p := g.steps[p].(status := t.steps[p].status)]
            && t.steps[p].status == (if o.engine(|g.dispatched|) then Passed else Failed)
            && Shaped(t.steps, if t.steps[p].status == Failed then p else p + 1)
  {
  }

  /** A run over the steps keeps the shape. `p` is the first unfinished step; if it awaits review and is to be
      run, its review must have been decided. */
  lemma {:induction false} StepsKeep(o: Oracle, g: Goal, i: nat, p: nat, approved: set<nat>) returns (q: nat)
    requires i <= p && Shaped(g.steps, p) && Reviewed(g, p)
    requires AwaitsAt(g, p) && p in approved ==> !AnyUndecided(g.reviews)
    requires forall k :: p < k < |g.steps| && HighRisk(g.steps[k]) ==> k !in approved || !AnyUndecided(g.reviews)
    ensures var (t, outcome) := ExecuteSteps(o, g, i, approved);
            && Shaped(t.steps, q) && Reviewed(t, q)
            && (outcome.Gated? ==> InvariantAt(t, q))
            && (outcome.AllFinished? ==> q == |t.steps| && !AnyUndecided(t.reviews))
            && (!outcome.Gated? ==> t.status == g.status)
            && |t.steps| == |g.steps| && t.checks == g.checks && t.checked == g.checked
    decreases |g.steps| - i
  {
    hide Attempt, Gate, InvariantAt;
    if i >= |g.steps| {
      q := p;
    } else if i < p {
      q := StepsKeep(o, g, i + 1, p, approved);
    } else if g.steps[i].status == Failed {
      q := p;
    } else if HighRisk(g.steps[i]) && i !in approved {
      GateKeeps(g, i);
      q := p;
    } else {
      AttemptKeeps(o, g, i);
      var g1 := Attempt(o, g, i);
      if g1.steps[i].status == Failed {
        q := p;
      } else {
        q := StepsKeep(o, g1, i + 1, i + 1, approved);
      }
    }
  }

  lemma {:induction false} ChecksTouchOnlyChecks(o: Oracle, g: Goal, k: nat)
    ensures var t := RunChecks(o, g, k).0;
            t == g.(checks := t.checks, checked := t.checked) && |t.checks| == |g.checks|
    decreases |g.checks| - k
  {
    if k < |g.checks| && g.checks[k] == CheckPassed {
      ChecksTouchOnlyChecks(o, g, k + 1);
    } else if k < |g.checks| && o.verifier(|g.checked|) {
      var g2 := g.(checks := g.checks[k := CheckRunning][k := CheckPassed], checked := g.checked + [k]);
      ChecksTouchOnlyChecks(o, g2, k + 1);
    }
  }

  lemma CoordinateKeeps(o: Oracle, g: Goal, p: nat, approved: set<nat>)
    requires Shaped(g.steps, p) && Reviewed(g, p)
    requires approved == {} || !AnyUndecided(g.reviews)
    ensures Invariant(Coordinate(o, g, approved))
  {
    var g0 := SetStatus(g, Executing);
    var q := StepsKeep(o, g0, 0, p, approved);
    var t := Coordinate(o, g, approved);
    var (g1, outcome) := ExecuteSteps(o, g0, 0, approved);
    if outcome.AllFinished? && g1.checks != [] {
      ChecksTouchOnlyChecks(o, SetStatus(g1, Verifying), 0);
    }
    assert InvariantAt(t, q);
  }

  lemma DecideKeeps(g: Goal, r: nat, status: ReviewStatus, p: nat)
    requires InvariantAt(g, p) && status != Undecided
    ensures var (t, d) := DecideReview(g, r, status);
            InvariantAt(if status == Rejected && d == Decided then SetStatus(t, GoalFailed) else t, p)
  {
    var (t, d) := DecideReview(g, r, status);
    assert forall q :: 0 <= q < |t.reviews| && q != r ==> t.reviews[q] == g.reviews[q];
    if status == Approved && g.status == GoalPaused && t != g {
      assert t.reviews[r] == Review(p, Approved);
    }
  }

  /** Every action keeps the invariant. */
  lemma ActKeeps(o: Oracle, g: Goal, a: Action)
    requires Invariant(g)
    ensures Invariant(Act(o, g, a))
  {
    var p: nat :| InvariantAt(g, p);
    match a
    case Execute => if g.status != Completed { CoordinateKeeps(o, g, p, {}); }
    case Resume =>
      if g.status == GoalPaused && !AnyUndecided(g.reviews) {
        CoordinateKeeps(o, g, p, ApprovedSteps(g.reviews));
      }
    case Approve(r) => DecideKeeps(g, r, Approved, p);
    case Reject(r) => DecideKeeps(g, r, Rejected, p);
  }

  lemma {:induction false} ActAllKeeps(o: Oracle, g: Goal, acts: seq<Action>)
    requires Invariant(g)
    ensures Invariant(ActAll(o, g, acts))
    decreases |acts|
  {
    if acts != [] {
      ActKeeps(o, g, acts[0]);
      ActAllKeeps(o, Act(o, g, acts[0]), acts[1..]);
    }
  }

  /** After any actions on a fresh goal: a finished prefix, at most one step that is failed or awaiting review,
      then only pending steps; undecided reviews belong to the awaiting step and there is at most one; a paused
      goal's awaiting step has an undecided or an approved review, so the goal is never stuck. */
  lemma GoalShape(o: Oracle, g: Goal, acts: seq<Action>) returns (p: nat)
    requires Fresh(g)
    ensures InvariantAt(ActAll(o, g, acts), p)
  {
    var first := 0;
    assert InvariantAt(g, first);
    ActAllKeeps(o, g, acts);
    p :| InvariantAt(ActAll(o, g, acts), p);
  }

  // ---- Completion ------------------------------------------------------------------------------------

  lemma {:induction false} StepsFinishAll(o: Oracle, g: Goal, i: nat, approved: set<nat>)
    requires forall k :: 0 <= k < i && k < |g.steps| ==> Finished(g.steps[k])
    ensures var (t, outcome) := ExecuteSteps(o, g, i, approved);
            && (outcome.AllFinished? ==> forall k :: 0 <= k < |t.steps| ==> Finished(t.steps[k]))
            && (outcome.Gated? ==> t.status == GoalPaused)
            && t.checks == g.checks && t.checked == g.checked
    decreases |g.steps| - i
  {
    if i < |g.steps| {
      if Finished(g.steps[i]) {
        StepsFinishAll(o, g, i + 1, approved);
      } else if g.steps[i].status != Failed && (!HighRisk(g.steps[i]) || i in approved) {
        var g1 := Attempt(o, g, i);
        if g1.steps[i].status != Failed { StepsFinishAll(o, g1, i + 1, approved); }
      }
    }
  }

  /** `ran` lists, in order, exactly the verifications below `end` that had not passed. */
  ghost predicate ListsUnpassed(checks: seq<CheckStatus>, end: int, ran: seq<nat>) {
    && (forall m, n :: 0 <= m < n < |ran| ==> ran[m] < ran[n])
    && (forall n: nat :: n in ran <==> n < end && n < |checks| && checks[n] != CheckPassed)
  }

  /** The verifications run between `g` and `t` are exactly those not passed before, in order: all of them on success,
      and otherwise all up to and including the failing one, which is the last. Later ones are untouched. */
  ghost predicate RanExactly(g: Goal, t: Goal, passed: bool) {
    && |t.checks| == |g.checks| && g.checked <= t.checked
    && (passed <==> forall n :: 0 <= n < |t.checks| ==> t.checks[n] == CheckPassed)
    && var ran := t.checked[|g.checked|..];
    && (!passed ==> ran != [] && ran[|ran| - 1] < |t.checks| && t.checks[ran[|ran| - 1]] == CheckFailed)
    && var end := if passed then |g.checks| else ran[|ran| - 1] + 1;
    && ListsUnpassed(g.checks, end, ran)
    && (forall n :: end <= n < |g.checks| ==> t.checks[n] == g.checks[n])
  }

  ghost predicate PassedBefore(g: Goal, k: nat) {
    k <= |g.checks| && forall n :: 0 <= n < k ==> g.checks[n] == CheckPassed
  }

  lemma ListsOneMore(checks: seq<CheckStatus>, k: nat, end: int, ran: seq<nat>)
    requires k < |checks| && checks[k] != CheckPassed && k < end
    requires forall n :: 0 <= n < k ==> checks[n] == CheckPassed
    requires ListsUnpassed(checks[k := CheckPassed], end, ran)
    ensures ListsUnpassed(checks, end, [k] + ran)
  {
    forall n | n in ran ensures k < n { assert checks[k := CheckPassed][n] != CheckPassed; }
    var all := [k] + ran;
    forall m, n | 0 <= m < n < |all| ensures all[m] < all[n] {
      assert all[n] == ran[n - 1] && ran[n - 1] in ran;
    }
  }

  /** One verification that passes, before any others. */
  lemma RanOneMore(g: Goal, g2: Goal, t: Goal, passed: bool, k: nat)
    requires PassedBefore(g, k) && k < |g.checks| && g.checks[k] != CheckPassed
    requires g2.checks == g.checks[k := CheckPassed] && g2.checked == g.checked + [k] && RanExactly(g2, t, passed)
    ensures RanExactly(g, t, passed)
  {
    var ran := t.checked[|g2.checked|..];
    var end := if passed then |g.checks| else ran[|ran| - 1] + 1;
    assert t.checked[|g.checked|] == g2.checked[|g.checked|] == k;
    assert t.checked[|g.checked|..] == [k] + ran;
    if !passed { LastIsLater(g2.checks, k, end, ran); }
    ListsOneMore(g.checks, k, end, ran);
    hide ListsUnpassed;
  }

  lemma LastIsLater(checks: seq<CheckStatus>, k: nat, end: int, ran: seq<nat>)
    requires ran != [] && ListsUnpassed(checks, end, ran)
    requires forall n :: 0 <= n <= k && n < |checks| ==> checks[n] == CheckPassed
    ensures k < ran[|ran| - 1] < end
  {
    assert ran[|ran| - 1] in ran;
  }

  lemma RanLast(g: Goal, g2: Goal, k: nat)
    requires PassedBefore(g, k) && k < |g.checks| && g.checks[k] != CheckPassed
    requires g2.checks == g.checks[k := CheckFailed] && g2.checked == g.checked + [k]
    ensures RanExactly(g, g2, false)
  {
    assert g2.checks[k] == CheckFailed && g2.checked[|g.checked|..] == [k];
  }

  lemma {:induction false} ChecksPass(o: Oracle, g: Goal, k: nat)
    requires PassedBefore(g, k)
    ensures var (t, passed) := RunChecks(o, g, k); RanExactly(g, t, passed)
    decreases |g.checks| - k
  {
    if k == |g.checks| {
      assert g.checked[|g.checked|..] == [];
    } else if g.checks[k] == CheckPassed {
      ChecksPass(o, g, k + 1);
    } else {
      hide RanExactly;
      var ok := o.verifier(|g.checked|);
      var g1 := g.(checks := g.checks[k := CheckRunning]);
      var g2 := g1.(checks := g1.checks[k := if ok then CheckPassed else CheckFailed], checked := g.checked + [k]);
      if ok {
        ChecksPass(o, g2, k + 1);
        RanOneMore(g, g2, RunChecks(o, g2, k + 1).0, RunChecks(o, g2, k + 1).1, k);
      } else {
        RanLast(g, g2, k);
      }
    }
  }

  /** A coordinator run leaves the goal completed only if every step is finished and every verification passed. */
  lemma CompletedMeansDone(o: Oracle, g: Goal, approved: set<nat>)
    ensures var t := Coordinate(o, g, approved);
            t.status == Completed ==>
              && (forall k :: 0 <= k < |t.steps| ==> Finished(t.steps[k]))
              && (forall n :: 0 <= n < |t.checks| ==> t.checks[n] == CheckPassed)
  {
    var g0 := SetStatus(g, Executing);
    StepsFinishAll(o, g0, 0, approved);
    var (g1, outcome) := ExecuteSteps(o, g0, 0, approved);
    if outcome.AllFinished? && g1.checks != [] {
      var g2 := SetStatus(g1, Verifying);
      ChecksPass(o, g2, 0);
      ChecksTouchOnlyChecks(o, g2, 0);
    }
  }

  // ---- How a run ends ----------------------------------------------------------------------------------

  /** The positions from `i` up to `p` of steps not finished. */
  function Todo(steps: seq<Step>, i: nat, p: nat): seq<nat>
    requires i <= p <= |steps|
    decreases p - i
  {
    if i == p then [] else (if Finished(steps[i]) then [] else [i]) + Todo(steps, i + 1, p)
  }

  /** The walk is gated at step `p`: it is high-risk and not approved, so it now awaits an undecided review. */
  ghost predicate GatedAt(g: Goal, t: Goal, p: nat, approved: set<nat>) {
    && p < |g.steps| == |t.steps| && g.steps[p].status != Failed && g.steps[p].risk == "high" && p !in approved
    && t.steps[p] == Step("high", AwaitingReview)
    && t.reviews == g.reviews + (if Review(p, Undecided) in g.reviews then [] else [Review(p, Undecided)])
  }

  /** The walk broke at step `p`: it had failed before, or it was dispatched, as the `n`-th step ever, and failed now. */
  ghost predicate BrokenAt(o: Oracle, g: Goal, t: Goal, p: nat, approved: set<nat>, n: nat) {
    && p < |g.steps| == |t.steps| && t.steps[p] == Step(g.steps[p].risk, Failed) && t.reviews == g.reviews
    && (g.steps[p].status != Failed ==> !o.engine(n) && (g.steps[p].risk == "high" ==> p in approved))
  }

  /** A walk from step `i` on went up to step `p`: each unfinished step before `p` was allowed, dispatched in its turn and
      passed; at `p` the walk was gated, broke, or was over; every other step is as before. */
  ghost predicate Walked(o: Oracle, g: Goal, t: Goal, i: nat, p: nat, approved: set<nat>) {
    && i <= p <= |g.steps| == |t.steps|
    && (forall k :: 0 <= k < i || p < k < |g.steps| ==> t.steps[k] == g.steps[k])
    && (forall k :: i <= k < p ==>
          if Finished(g.steps[k]) then t.steps[k] == g.steps[k]
          else && t.steps[k] == Step(g.steps[k].risk, Passed) && g.steps[k].status != Failed
               && (g.steps[k].risk == "high" ==> k in approved))
    && var ran, n := Todo(g.steps, i, p), |g.dispatched|;
    && (forall m :: n <= m < n + |ran| ==> o.engine(m))
    && var failing := p < |g.steps| && g.steps[p].status != Failed && t.steps[p].status == Failed;
    && t.dispatched == g.dispatched + ran + (if failing then [p] else [])
    && (p < |g.steps| ==> !Finished(g.steps[p]) && (GatedAt(g, t, p, approved) || BrokenAt(o, g, t, p, approved, n + |ran|)))
    && (p == |g.steps| ==> t.reviews == g.reviews)
  }

  /** A finished step is passed over. */
  lemma WalkSkips(o: Oracle, g: Goal, t: Goal, i: nat, p: nat, approved: set<nat>)
    requires i < |g.steps| && Finished(g.steps[i]) && Walked(o, g, t, i + 1, p, approved)
    ensures Walked(o, g, t, i, p, approved)
  {
    hide GatedAt, BrokenAt;
  }

  /** A step that is dispatched and passes. */
  lemma WalkPasses(o: Oracle, g: Goal, g1: Goal, t: Goal, i: nat, p: nat, approved: set<nat>)
    requires i < |g.steps| && !Finished(g.steps[i]) && g.steps[i].status != Failed && (HighRisk(g.steps[i]) ==> i in approved)
    requires o.engine(|g.dispatched|) && g1.reviews == g.reviews
    requires g1.steps == g.steps[i := Step(g.steps[i].risk, Passed)] && g1.dispatched == g.dispatched + [i]
    requires Walked(o, g1, t, i + 1, p, approved)
    ensures Walked(o, g, t, i, p, approved) && (GatedAt(g, t, p, approved) <==> GatedAt(g1, t, p, approved))
  {
    SameTodo(g.steps, g1.steps, i + 1, p);
    assert Todo(g.steps, i, p) == [i] + Todo(g.steps, i + 1, p);
    hide Todo;
    assert |g1.dispatched| + |Todo(g.steps, i + 1, p)| == |g.dispatched| + |Todo(g.steps, i, p)|;
    assert p < |g.steps| ==> g1.steps[p] == g.steps[p];
  }

  lemma WalkStops(o: Oracle, g: Goal, i: nat, approved: set<nat>)
    requires i < |g.steps| && !Finished(g.steps[i])
    ensures g.steps[i].status == Failed ==> Walked(o, g, g, i, i, approved)
    ensures g.steps[i].status != Failed && HighRisk(g.steps[i]) && i !in approved ==>
              Walked(o, g, Gate(g, i), i, i, approved) && GatedAt(g, Gate(g, i), i, approved)
    ensures g.steps[i].status != Failed && (HighRisk(g.steps[i]) ==> i in approved) && !o.engine(|g.dispatched|) ==>
              Walked(o, g, Attempt(o, g, i), i, i, approved)
  {
    assert Review(i, Undecided) in g.reviews <==> HasReview(g.reviews, i, Undecided);
    assert g.reviews + [] == g.reviews && g.dispatched + [] == g.dispatched;
  }

  lemma {:induction false} WalkMeaning(o: Oracle, g: Goal, i: nat, approved: set<nat>) returns (p: nat)
    requires i <= |g.steps|
    ensures var (t, outcome) := ExecuteSteps(o, g, i, approved);
            && Walked(o, g, t, i, p, approved)
            && (outcome.AllFinished? <==> p == |g.steps|)
            && (outcome.Gated? <==> GatedAt(g, t, p, approved))
            && (outcome.Gated? ==> t.status == GoalPaused)
            && (!outcome.Gated? ==> t.status == g.status)
            && t.checks == g.checks && t.checked == g.checked
    decreases |g.steps| - i
  {
    p := i;
    if i == |g.steps| {
      assert g.dispatched + [] == g.dispatched;
    } else if Finished(g.steps[i]) {
      hide Walked, GatedAt;
      p := WalkMeaning(o, g, i + 1, approved);
      WalkSkips(o, g, ExecuteSteps(o, g, i + 1, approved).0, i, p, approved);
    } else {
      hide Walked;
      WalkStops(o, g, i, approved);
      var g1 := Attempt(o, g, i);
      if g.steps[i].status != Failed && (!HighRisk(g.steps[i]) || i in approved) && g1.steps[i].status != Failed {
        hide GatedAt;
        p := WalkMeaning(o, g1, i + 1, approved);
        WalkPasses(o, g, g1, ExecuteSteps(o, g1, i + 1, approved).0, i, p, approved);
      }
    }
  }

  lemma {:induction false} SameTodo(a: seq<Step>, b: seq<Step>, i: nat, p: nat)
    requires i <= p <= |a| == |b| && forall k :: i <= k < |a| ==> a[k] == b[k]
    ensures Todo(a, i, p) == Todo(b, i, p)
    decreases p - i
  {
    if i < p { SameTodo(a, b, i + 1, p); }
  }

  /** How a coordinator run ends, told by where its walk went. It is paused exactly when the walk was gated; failed exactly
      when the walk broke, or all steps were finished and the last verification run failed; and completed exactly when all
      steps were finished and all verifications passed. */
  lemma RunEnds(o: Oracle, g: Goal, approved: set<nat>) returns (p: nat)
    ensures var t := Coordinate(o, g, approved);
            && t.status in {Completed, GoalFailed, GoalPaused}
            && Walked(o, g, t, 0, p, approved)
            && (p < |g.steps| ==> t.checks == g.checks && t.checked == g.checked)
            && (p == |g.steps| ==> RanExactly(g, t, t.status == Completed))
            && (t.status == GoalPaused <==> GatedAt(g, t, p, approved))
            && (t.status == GoalFailed <==>
                || (p < |g.steps| && t.steps[p].status == Failed)
                || (p == |g.steps| && exists n <- t.checked[|g.checked|..] :: n < |t.checks| && t.checks[n] == CheckFailed))
            && (t.status == Completed <==>
                p == |g.steps| && forall n :: 0 <= n < |t.checks| ==> t.checks[n] == CheckPassed)
  {
    hide Walked, GatedAt, RanExactly, Todo, ExecuteSteps, Finalize;
    var g0 := SetStatus(g, Executing);
    p := WalkMeaning(o, g0, 0, approved);
    var (g1, outcome) := ExecuteSteps(o, g0, 0, approved);
    var t := Coordinate(o, g, approved);
    if outcome.AllFinished? {
      FinalizeMeaning(o, g1);
      RanSame(g1, g, t, t.status == Completed);
    }
    WalkedSame(o, g0, g, g1, t, p, approved);
    WalkedStop(o, g, t, p, approved);
  }

  /** How a run whose steps are all finished ends. */
  lemma FinalizeMeaning(o: Oracle, g: Goal)
    ensures var t := Finalize(o, g);
            && t == g.(status := t.status, checks := t.checks, checked := t.checked)
            && t.status in {Completed, GoalFailed}
            && RanExactly(g, t, t.status == Completed)
            && |g.checked| <= |t.checked|
            && (t.status == GoalFailed <==>
                exists n <- t.checked[|g.checked|..] :: n < |t.checks| && t.checks[n] == CheckFailed)
            && (t.status == Completed <==> forall n :: 0 <= n < |t.checks| ==> t.checks[n] == CheckPassed)
  {
    hide ListsUnpassed;
    var g1, t := SetStatus(g, Verifying), Finalize(o, g);
    ChecksPass(o, g1, 0);
    ChecksTouchOnlyChecks(o, g1, 0);
    var ran := t.checked[|g.checked|..];
    if t.status == GoalFailed { assert ran[|ran| - 1] in ran; }
  }

  // The two predicates look at steps, reviews, dispatches and verifications only.
  lemma RanSame(g: Goal, g': Goal, t: Goal, passed: bool)
    requires RanExactly(g, t, passed) && g.checks == g'.checks && g.checked == g'.checked
    ensures RanExactly(g', t, passed)
  {
    hide ListsUnpassed;
  }

  lemma WalkedSame(o: Oracle, g: Goal, g': Goal, t: Goal, t': Goal, p: nat, approved: set<nat>)
    requires Walked(o, g, t, 0, p, approved)
    requires g.steps == g'.steps && g.reviews == g'.reviews && g.dispatched == g'.dispatched
    requires t.steps == t'.steps && t.reviews == t'.reviews && t.dispatched == t'.dispatched
    ensures Walked(o, g', t', 0, p, approved) && (GatedAt(g, t, p, approved) <==> GatedAt(g', t', p, approved))
  {
    hide Todo;
  }

  lemma WalkedStop(o: Oracle, g: Goal, t: Goal, p: nat, approved: set<nat>)
    requires Walked(o, g, t, 0, p, approved)
    ensures p <= |g.steps| == |t.steps| && (GatedAt(g, t, p, approved) <==> p < |g.steps| && t.steps[p].status != Failed)
  {
    hide Todo;
  }

  /** What the two review decisions and the guarded runs do to a goal: a decision is refused when there is no such review
      or it was decided the other way; deciding it the same way again is accepted, and every accepted rejection fails the
      goal. */
  lemma ActMeaning(o: Oracle, g: Goal, r: nat)
    ensures Act(o, g, Reject(r)) ==
            if r >= |g.reviews| || g.reviews[r].status == Approved then g
            else g.(status := GoalFailed, reviews := g.reviews[r := Review(g.reviews[r].step, Rejected)])
    ensures Act(o, g, Approve(r)) ==
            if r >= |g.reviews| || g.reviews[r].status == Rejected then g
            else g.(reviews := g.reviews[r := Review(g.reviews[r].step, Approved)])
    ensures Act(o, g, Execute) == if g.status == Executing || g.status == Completed then g else Coordinate(o, g, {})
    ensures Act(o, g, Resume) ==
            if g.status != GoalPaused || exists q <- g.reviews :: q.status == Undecided then g
            else Coordinate(o, g, set q <- g.reviews | q.status == Approved :: q.step)
  {
    hide Coordinate;
    assert ApprovedSteps(g.reviews) == set q <- g.reviews | q.status == Approved :: q.step;
    assert AnyUndecided(g.reviews) <==> exists q <- g.reviews :: q.status == Undecided;
  }

  lemma {:induction false} FinishedStepsAreSkipped(o: Oracle, g: Goal, i: nat, approved: set<nat>)
    requires forall k :: 0 <= k < |g.steps| ==> Finished(g.steps[k])
    ensures ExecuteSteps(o, g, i, approved) == (g, AllFinished)
    decreases |g.steps| - i
  {
    if i < |g.steps| {
      FinishedStepsAreSkipped(o, g, i + 1, approved);
    }
  }

  /** Executing again after a failure in verification only: no step is dispatched, and exactly the verifications that
      had not passed are run, in order and up to a failure. */
  lemma ReexecutionReverifies(o: Oracle, g: Goal)
    requires g.status == GoalFailed && forall k :: 0 <= k < |g.steps| ==> Finished(g.steps[k])
    ensures var t := Act(o, g, Execute);
            && t.dispatched == g.dispatched && t.steps == g.steps
            && (g.checks != [] ==> RanExactly(g, t, t.status == Completed))
            && (t.status == Completed <==> forall n :: 0 <= n < |t.checks| ==> t.checks[n] == CheckPassed)
  {
    var g0 := SetStatus(g, Executing);
    FinishedStepsAreSkipped(o, g0, 0, {});
    var g1 := SetStatus(g0, Verifying);
    ChecksPass(o, g1, 0);
    ChecksTouchOnlyChecks(o, g1, 0);
  }

  // ---- The undisturbed run ---------------------------------------------------------------------------

  ghost predicate AllSucceed(o: Oracle) {
    (forall n :: o.engine(n)) && (forall n :: o.verifier(n))
  }

  function HighRisks(steps: seq<Step>, i: nat): nat
    decreases |steps| - i
  {
    if i >= |steps| then 0 else (if HighRisk(steps[i]) then 1 else 0) + HighRisks(steps, i + 1)
  }

  function Unfinished(g: Goal): set<nat> {
    set i | 0 <= i < |g.steps| && !Finished(g.steps[i])
  }

  /** Paused at step `p`, whose review is the last one and the only one not approved. */
  ghost predicate HeldAt(g: Goal, p: nat) {
    && g.status == GoalPaused && Shaped(g.steps, p) && AwaitsAt(g, p) && HighRisk(g.steps[p])
    && g.reviews != [] && g.reviews[|g.reviews| - 1] == Review(p, Undecided)
    && (forall r :: 0 <= r < |g.reviews| - 1 ==> g.reviews[r].status == Approved && g.reviews[r].step < p)
    && (forall n :: 0 <= n < |g.checks| ==> g.checks[n] == CheckPending)
  }

  lemma {:induction false} SameRisks(a: seq<Step>, b: seq<Step>, i: nat)
    requires |a| == |b| && forall k :: i <= k < |a| ==> a[k].risk == b[k].risk
    ensures HighRisks(a, i) == HighRisks(b, i)
    decreases |a| - i
  {
    if i < |a| { SameRisks(a, b, i + 1); }
  }

  lemma {:induction false} ChecksSucceed(o: Oracle, g: Goal, k: nat)
    requires AllSucceed(o)
    ensures RunChecks(o, g, k).1
    decreases |g.checks| - k
  {
    if k < |g.checks| {
      if g.checks[k] == CheckPassed {
        ChecksSucceed(o, g, k + 1);
      } else {
        var g2 := g.(checks := g.checks[k := CheckRunning][k := CheckPassed], checked := g.checked + [k]);
        ChecksSucceed(o, g2, k + 1);
      }
    }
  }

  lemma GateHolds(g: Goal, i: nat)
    requires Shaped(g.steps, i) && i < |g.steps| && HighRisk(g.steps[i])
    requires forall r :: 0 <= r < |g.reviews| ==> g.reviews[r].status == Approved && g.reviews[r].step < i
    requires forall n :: 0 <= n < |g.checks| ==> g.checks[n] == CheckPending
    ensures HeldAt(Gate(g, i), i) && HighRisks(Gate(g, i).steps, i) == HighRisks(g.steps, i)
    ensures |Gate(g, i).steps| == |g.steps|
  {
    assert !HasReview(g.reviews, i, Undecided);
    SameRisks(g.steps, Gate(g, i).steps, i);
  }

  /** With everything succeeding, a run from step `i` goes on to the next high-risk step without approval and
      holds there, or finishes all steps if there is none. */
  lemma {:induction false} RunToNextGate(o: Oracle, g: Goal, i: nat, approved: set<nat>) returns (q: nat)
    requires AllSucceed(o) && Shaped(g.steps, i)
    requires AwaitsAt(g, i) ==> i in approved
    requires i < |g.steps| ==> g.steps[i].status != Failed
    requires forall k :: i < k ==> k !in approved
    requires forall r :: 0 <= r < |g.reviews| ==> g.reviews[r].status == Approved && (g.reviews[r].step < i || g.reviews[r].step in approved)
    requires forall n :: 0 <= n < |g.checks| ==> g.checks[n] == CheckPending
    ensures var (t, outcome) := ExecuteSteps(o, g, i, approved);
            var left := if i < |g.steps| && HighRisk(g.steps[i]) && i in approved then HighRisks(g.steps, i) - 1 else HighRisks(g.steps, i);
            && |t.steps| == |g.steps| && i <= q <= |g.steps|
            && (i < |g.steps| && i in approved ==> i < q)
            && (left == 0 ==> outcome.AllFinished? && t.checks == g.checks)
            && (left > 0 ==> outcome.Gated? && HeldAt(t, q) && HighRisks(t.steps, q) == left)
    decreases |g.steps| - i
  {
    hide Attempt, Gate, HeldAt;
    if i >= |g.steps| {
      q := i;
    } else if HighRisk(g.steps[i]) && i !in approved {
      q := i;
      GateHolds(g, i);
    } else {
      AttemptKeeps(o, g, i);
      var g1 := Attempt(o, g, i);
      SameRisks(g.steps, g1.steps, i + 1);
      q := RunToNextGate(o, g1, i + 1, approved);
    }
  }

  lemma {:induction false} SkipFinished(o: Oracle, g: Goal, i: nat, p: nat, approved: set<nat>)
    requires i <= p <= |g.steps| && forall k :: i <= k < p ==> Finished(g.steps[k])
    ensures ExecuteSteps(o, g, i, approved) == ExecuteSteps(o, g, p, approved)
    decreases p - i
  {
    if i < p { SkipFinished(o, g, i + 1, p, approved); }
  }

  /** Approve the newest review, then resume. */
  function Round(o: Oracle, g: Goal): Goal {
    Act(o, Act(o, g, Approve(if g.reviews == [] then 0 else |g.reviews| - 1)), Resume)
  }

  /** One Execute followed by `n` rounds. */
  function Drive(o: Oracle, g: Goal, n: nat): Goal {
    if n == 0 then Act(o, g, Execute) else Round(o, Drive(o, g, n - 1))
  }

  /** Paused at step `p` with every review approved, among them one of `p`. */
  ghost predicate ClearedAt(g: Goal, p: nat) {
    && g.status == GoalPaused && Shaped(g.steps, p) && AwaitsAt(g, p) && HighRisk(g.steps[p])
    && (forall r :: 0 <= r < |g.reviews| ==> g.reviews[r].status == Approved && g.reviews[r].step <= p)
    && p in ApprovedSteps(g.reviews)
    && (forall n :: 0 <= n < |g.checks| ==> g.checks[n] == CheckPending)
  }

  lemma ApproveClears(o: Oracle, g: Goal, p: nat)
    requires HeldAt(g, p)
    ensures var t := Act(o, g, Approve(|g.reviews| - 1));
            ClearedAt(t, p) && t.steps == g.steps
  {
    var last := |g.reviews| - 1;
    var t := Act(o, g, Approve(last));
    assert t.reviews == g.reviews[last := Review(p, Approved)];
    assert t.reviews[last].step == p;
  }

  lemma ResumeAdvances(o: Oracle, g: Goal, p: nat) returns (q: nat)
    requires AllSucceed(o) && ClearedAt(g, p)
    ensures var t := Act(o, g, Resume);
            && |t.steps| == |g.steps| && (forall k :: 0 <= k <= p ==> Finished(t.steps[k]))
            && HighRisks(g.steps, p) > 0
            && (HighRisks(g.steps, p) == 1 ==> t.status == Completed)
            && (HighRisks(g.steps, p) > 1 ==> HeldAt(t, q) && HighRisks(t.steps, q) == HighRisks(g.steps, p) - 1)
  {
    var approved, g2 := ApprovedSteps(g.reviews), SetStatus(g, Executing);
    SkipFinished(o, g2, 0, p, approved);
    q := RunToNextGate(o, g2, p, approved);
    StepsFinishAll(o, g2, 0, approved);
    var (t1, outcome) := ExecuteSteps(o, g2, 0, approved);
    if outcome.AllFinished? && t1.checks != [] {
      ChecksSucceed(o, SetStatus(t1, Verifying), 0);
      ChecksTouchOnlyChecks(o, SetStatus(t1, Verifying), 0);
    }
  }

  /** A round from a held goal finishes the held step and either completes the goal or holds it at a later step
      with one high-risk step fewer to go. */
  lemma RoundAdvances(o: Oracle, g: Goal, p: nat) returns (q: nat)
    requires AllSucceed(o) && HeldAt(g, p)
    ensures var t := Round(o, g);
            && Unfinished(t) < Unfinished(g)
            && HighRisks(g.steps, p) > 0
            && (HighRisks(g.steps, p) == 1 ==> t.status == Completed)
            && (HighRisks(g.steps, p) > 1 ==> HeldAt(t, q) && HighRisks(t.steps, q) == HighRisks(g.steps, p) - 1)
  {
    hide Act, ClearedAt;
    ApproveClears(o, g, p);
    q := ResumeAdvances(o, Act(o, g, Approve(|g.reviews| - 1)), p);
    assert p in Unfinished(g) && p !in Unfinished(Round(o, g));
  }

  lemma FirstRun(o: Oracle, g: Goal) returns (p: nat)
    requires AllSucceed(o) && Fresh(g)
    ensures var t := Act(o, g, Execute);
            && (HighRisks(g.steps, 0) == 0 ==> t.status == Completed)
            && (HighRisks(g.steps, 0) > 0 ==> HeldAt(t, p) && HighRisks(t.steps, p) == HighRisks(g.steps, 0))
  {
    var g0 := SetStatus(g, Executing);
    p := RunToNextGate(o, g0, 0, {});
    var (t1, outcome) := ExecuteSteps(o, g0, 0, {});
    if outcome.AllFinished? && t1.checks != [] {
      ChecksSucceed(o, SetStatus(t1, Verifying), 0);
    }
  }

  /** If everything succeeds and every review is approved, a goal with h high-risk steps pauses exactly h times
      and is completed by one Execute and h rounds; every round shrinks the set of unfinished steps. */
  lemma {:induction false} DriveCompletes(o: Oracle, g: Goal, n: nat) returns (p: nat)
    requires AllSucceed(o) && Fresh(g) && n <= HighRisks(g.steps, 0)
    ensures var t := Drive(o, g, n);
            && (n == HighRisks(g.steps, 0) ==> t.status == Completed)
            && (n < HighRisks(g.steps, 0) ==> HeldAt(t, p) && HighRisks(t.steps, p) == HighRisks(g.steps, 0) - n)
            && (n > 0 ==> Unfinished(t) < Unfinished(Drive(o, g, n - 1)))
  {
    hide Act, Fresh, HeldAt;
    if n == 0 {
      p := FirstRun(o, g);
    } else {
      var q := DriveCompletes(o, g, n - 1);
      p := RoundAdvances(o, Drive(o, g, n - 1), q);
    }
  }
}
