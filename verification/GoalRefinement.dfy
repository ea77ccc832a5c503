/** The interleaved model of the goal control plane against the sequential one: whatever state the other runs and decisions
    have led to, a run or a decision between whose store accesses nothing else happens does exactly what the sequential
    action does. */
module GoalRefinement {
  import opened Goal
  import opened GoalInterleaving
  import GoalTheorems

  /** The goal as the store shows it at this moment. */
  ghost predicate Shows(s: State, g: Goal) {
    && s.status == g.status && s.steps == g.steps && s.reviews == g.reviews && s.dispatched == g.dispatched
    && (s.verified <==> g.checks != [])
  }

  /** Nothing but the goal's rows and run `n` differs. */
  ghost predicate OnlyRun(s: State, t: State, n: nat) {
    && n in t.runs && t.runs == s.runs[n := t.runs[n]]
    && t == s.(status := t.status, steps := t.steps, reviews := t.reviews, dispatched := t.dispatched, runs := t.runs)
  }

  lemma ReachesOne(s: State, e: Event)
    requires Enabled(s, e)
    ensures Reaches(s, [e], Next(s, e))
  {
    assert [e][1..] == [];
  }

  lemma {:induction false} ReachesOn(s: State, first: seq<Event>, t: State, second: seq<Event>, u: State)
    requires Reaches(s, first, t) && Reaches(t, second, u)
    ensures Reaches(s, first + second, u)
    decreases |first|
  {
    hide Next, Enabled;
    if first == [] {
      assert first + second == second;
    } else {
      assert (first + second)[1..] == first[1..] + second;
      ReachesOn(Next(s, first[0]), first[1..], t, second, u);
    }
  }

  /** Run `n` makes its next access. */
  lemma Moves(s: State, first: seq<Event>, t: State, n: nat, ok: bool) returns (events: seq<Event>, u: State)
    requires Reaches(s, first, t) && n in t.runs && t.runs[n].pc != Ended
    ensures events == first + [Move(n, ok)] && u == MoveRun(t, n, ok) && Reaches(s, events, u)
  {
    hide Reaches, MoveRun;
    ReachesThen(s, first, t, Move(n, ok));
    events, u := first + [Move(n, ok)], MoveRun(t, n, ok);
  }

  // ---- One step of the walk ----------------------------------------------------------------------------

  /** Run `n` walks the steps as listed, of which those from its position on are as the store shows them. */
  ghost predicate Walks(s: State, n: nat, g: Goal) {
    && n in s.runs && s.runs[n].pc == Walking && Shows(s, g)
    && s.runs[n].i <= |g.steps| == |s.runs[n].listed|
    && forall k :: s.runs[n].i <= k < |g.steps| ==> s.runs[n].listed[k] == g.steps[k]
  }

  lemma SkipAlone(s: State, n: nat, g: Goal) returns (events: seq<Event>, t: State)
    requires Walks(s, n, g) && s.runs[n].i < |g.steps| && Finished(g.steps[s.runs[n].i])
    ensures Reaches(s, events, t) && OnlyRun(s, t, n) && Walks(t, n, g)
    ensures t.runs[n] == s.runs[n].(i := s.runs[n].i + 1)
  {
    ReachesItself(s);
    events, t := Moves(s, [], s, n, true);
  }

  lemma FailedAlone(s: State, n: nat, g: Goal) returns (events: seq<Event>, t: State)
    requires Walks(s, n, g) && s.runs[n].i < |g.steps| && g.steps[s.runs[n].i].status == Failed
    ensures Reaches(s, events, t) && OnlyRun(s, t, n) && Shows(t, g) && t.runs[n].pc == Failing
  {
    ReachesItself(s);
    events, t := Moves(s, [], s, n, true);
  }

  lemma OverAlone(s: State, n: nat, g: Goal) returns (events: seq<Event>, t: State)
    requires Walks(s, n, g) && s.runs[n].i == |g.steps|
    ensures Reaches(s, events, t) && OnlyRun(s, t, n) && Shows(t, g) && t.runs[n].pc == Finishing
  {
    ReachesItself(s);
    events, t := Moves(s, [], s, n, true);
  }

  lemma GateAlone(s: State, n: nat, g: Goal) returns (events: seq<Event>, t: State)
    requires Walks(s, n, g) && s.runs[n].i < |g.steps|
    requires var step := g.steps[s.runs[n].i]; !Finished(step) && step.status != Failed && HighRisk(step)
    requires s.runs[n].i !in s.runs[n].approved
    ensures Reaches(s, events, t) && OnlyRun(s, t, n) && Shows(t, Gate(g, s.runs[n].i)) && t.runs[n].pc == Ended
  {
    hide Reaches, HasReview, Next, Enabled;
    var u;
    events, u := RequestAlone(s, n, g);
    var second;
    second, t := HoldAlone(u, n);
    ReachesOn(s, events, u, second, t);
    events := events + second;
  }

  /** The gate asks for a review. */
  lemma RequestAlone(s: State, n: nat, g: Goal) returns (events: seq<Event>, t: State)
    requires Walks(s, n, g) && s.runs[n].i < |g.steps|
    requires var step := g.steps[s.runs[n].i]; !Finished(step) && step.status != Failed && HighRisk(step)
    requires s.runs[n].i !in s.runs[n].approved
    ensures Reaches(s, events, t)
    ensures t == Put(s, n, s.runs[n].(pc := Requested)).(reviews := CreateReview(g, s.runs[n].i).reviews)
  {
    hide Reaches, HasReview, ApprovedSteps, AnyUndecided;
    ReachesItself(s);
    var u;
    events, u := Moves(s, [], s, n, true);
    assert u == Put(s, n, s.runs[n].(pc := Gating));
    events, t := Moves(s, events, u, n, true);
  }

  /** Then it holds the step and the goal. */
  lemma HoldAlone(s: State, n: nat) returns (events: seq<Event>, t: State)
    requires n in s.runs && s.runs[n].pc == Requested && s.runs[n].i < |s.steps|
    ensures Reaches(s, events, t)
    ensures var i := s.runs[n].i;
            t == Put(s, n, s.runs[n].(pc := Ended)).(steps := s.steps[i := s.steps[i].(status := AwaitingReview)], status := GoalPaused)
  {
    hide Reaches, HasReview, ApprovedSteps, AnyUndecided, AddReview;
    ReachesItself(s);
    var u;
    events, u := Moves(s, [], s, n, true);
    events, t := Moves(s, events, u, n, true);
  }

  /** A step that may run is marked running before it is dispatched. */
  lemma LaunchAlone(s: State, n: nat, g: Goal) returns (events: seq<Event>, t: State)
    requires Walks(s, n, g) && s.runs[n].i < |g.steps|
    requires var step := g.steps[s.runs[n].i]; !Finished(step) && step.status != Failed
    requires HighRisk(g.steps[s.runs[n].i]) ==> s.runs[n].i in s.runs[n].approved
    ensures Reaches(s, events, t) && OnlyRun(s, t, n) && Shows(t, SetStep(g, s.runs[n].i, Running))
    ensures n in t.runs && t.runs[n] == s.runs[n].(pc := Dispatching)
  {
    hide Reaches;
    ReachesItself(s);
    var u;
    events, u := Moves(s, [], s, n, true);
    assert u.runs[n] == s.runs[n].(pc := Launching);
    events, t := Moves(s, events, u, n, true);
  }

  /** It is dispatched and marked with the engine's answer. */
  lemma AnswerAlone(o: Oracle, s: State, n: nat, g: Goal, i: nat) returns (events: seq<Event>, t: State)
    requires i < |g.steps| && n in s.runs && s.runs[n].pc == Dispatching && s.runs[n].i == i
    requires Shows(s, SetStep(g, i, Running))
    ensures Reaches(s, events, t) && OnlyRun(s, t, n) && Shows(t, Attempt(o, g, i))
    ensures n in t.runs
    ensures t.runs[n] == if o.engine(|g.dispatched|) then s.runs[n].(pc := Walking, i := i + 1) else s.runs[n].(pc := Failing)
  {
    hide Reaches;
    ReachesItself(s);
    var u;
    events, u := Moves(s, [], s, n, o.engine(|g.dispatched|));
    assert u.runs[n].pc.Marking?;
    events, t := Moves(s, events, u, n, true);
  }

  lemma DispatchAlone(o: Oracle, s: State, n: nat, g: Goal) returns (events: seq<Event>, t: State)
    requires Walks(s, n, g) && s.runs[n].i < |g.steps|
    requires var step := g.steps[s.runs[n].i]; !Finished(step) && step.status != Failed
    requires HighRisk(g.steps[s.runs[n].i]) ==> s.runs[n].i in s.runs[n].approved
    ensures var r, g1 := s.runs[n], Attempt(o, g, s.runs[n].i);
            && Reaches(s, events, t) && OnlyRun(s, t, n) && Shows(t, g1)
            && if g1.steps[r.i].status == Failed then t.runs[n].pc == Failing
               else Walks(t, n, g1) && t.runs[n] == r.(i := r.i + 1)
  {
    hide Reaches, OnlyRun;
    var first, u := LaunchAlone(s, n, g);
    var second;
    second, t := AnswerAlone(o, u, n, g, s.runs[n].i);
    events := first + second;
    ReachesOn(s, first, u, second, t);
    OnlyRunOn(s, u, t, n);
    assert forall k :: s.runs[n].i < k < |g.steps| ==> Attempt(o, g, s.runs[n].i).steps[k] == g.steps[k];
  }

  // ---- The whole walk ----------------------------------------------------------------------------------

  function Exit(outcome: StepsOutcome): Pc {
    match outcome case AllFinished => Finishing case Gated => Ended case Broken => Failing
  }

  lemma OnlyRunOn(s: State, t: State, u: State, n: nat)
    requires OnlyRun(s, t, n) && OnlyRun(t, u, n)
    ensures OnlyRun(s, u, n)
  {
  }

  lemma {:induction false} WalkAlone(o: Oracle, s: State, n: nat, g: Goal) returns (events: seq<Event>, t: State)
    requires Walks(s, n, g)
    ensures var (g1, outcome) := ExecuteSteps(o, g, s.runs[n].i, s.runs[n].approved);
            Reaches(s, events, t) && OnlyRun(s, t, n) && Shows(t, g1) && t.runs[n].pc == Exit(outcome)
    decreases |g.steps| - s.runs[n].i
  {
    hide Reaches, Shows, OnlyRun, Attempt, Gate;
    var i := s.runs[n].i;
    if i == |g.steps| {
      events, t := OverAlone(s, n, g);
    } else if Finished(g.steps[i]) {
      var first, u := SkipAlone(s, n, g);
      var second;
      second, t := WalkAlone(o, u, n, g);
      events := first + second;
      ReachesOn(s, first, u, second, t);
      OnlyRunOn(s, u, t, n);
    } else if g.steps[i].status == Failed {
      events, t := FailedAlone(s, n, g);
    } else if HighRisk(g.steps[i]) && i !in s.runs[n].approved {
      events, t := GateAlone(s, n, g);
    } else {
      var first, u := DispatchAlone(o, s, n, g);
      var g1 := Attempt(o, g, i);
      if g1.steps[i].status == Failed {
        events, t := first, u;
      } else {
        var second;
        second, t := WalkAlone(o, u, n, g1);
        events := first + second;
        ReachesOn(s, first, u, second, t);
        OnlyRunOn(s, u, t, n);
      }
    }
  }

  // ---- A run ---------------------------------------------------------------------------------------------

  /** After the walk: failed, or verified and finished. */
  lemma EndAlone(o: Oracle, s: State, n: nat, g: Goal, outcome: StepsOutcome) returns (events: seq<Event>, t: State)
    requires n in s.runs && Shows(s, g) && s.runs[n].pc == Exit(outcome)
    ensures var end := match outcome case Gated => g case Broken => SetStatus(g, GoalFailed) case AllFinished => Finalize(o, g);
            Reaches(s, events, t) && (t == s || OnlyRun(s, t, n)) && t.runs[n].pc == Ended && Shows(t, end)
  {
    hide Reaches, RunChecks;
    ReachesItself(s);
    events, t := [], s;
    if outcome.Broken? {
      events, t := Moves(s, [], s, n, true);
    } else if outcome.AllFinished? {
      events, t := Moves(s, [], s, n, true);
      if g.checks != [] {
        var passed := RunChecks(o, SetStatus(g, GoalStatus.Verifying), 0).1;
        GoalTheorems.ChecksTouchOnlyChecks(o, SetStatus(g, GoalStatus.Verifying), 0);
        assert t.runs[n].pc == Pc.Verifying;
        events, t := Moves(s, events, t, n, passed);
      }
    }
  }

  lemma RunAlone(o: Oracle, s: State, n: nat, g: Goal) returns (events: seq<Event>, t: State)
    requires n in s.runs && s.runs[n].pc == Cleared && Shows(s, g)
    ensures Reaches(s, events, t) && OnlyRun(s, t, n) && t.runs[n].pc == Ended
    ensures Shows(t, Coordinate(o, g, s.runs[n].approved))
  {
    hide Reaches;
    ReachesItself(s);
    var g0 := SetStatus(g, Executing);
    var first, u := Moves(s, [], s, n, true);
    first, u := Moves(s, first, u, n, true);
    assert Walks(u, n, g0) && OnlyRun(s, u, n);
    hide Shows, OnlyRun, ExecuteSteps, Finalize;
    var second, v := WalkAlone(o, u, n, g0);
    var (g1, outcome) := ExecuteSteps(o, g0, 0, s.runs[n].approved);
    var third;
    third, t := EndAlone(o, v, n, g1, outcome);
    ReachesOn(s, first, u, second, v);
    ReachesOn(s, first + second, v, third, t);
    events := first + second + third;
    OnlyRunOn(s, u, v, n);
    if t != v { OnlyRunOn(s, v, t, n); }
  }

  /** A run that nothing disturbs, begun in any state, does what the sequential Execute or Resume does. */
  lemma UndisturbedRun(o: Oracle, s: State, n: nat, resume: bool, g: Goal) returns (events: seq<Event>, t: State)
    requires n !in s.runs && Shows(s, g)
    ensures Reaches(s, events, t) && OnlyRun(s, t, n) && t.runs[n].pc == Ended
    ensures Shows(t, Act(o, g, if resume then Resume else Execute))
  {
    hide Reaches;
    ReachesItself(s);
    ReachesThen(s, [], s, Begin(n, resume));
    var first, u := [] + [Begin(n, resume)], Next(s, Begin(n, resume));
    first, u := Moves(s, first, u, n, true);
    if resume && u.runs[n].pc != Ended { first, u := Moves(s, first, u, n, true); }
    assert OnlyRun(s, u, n) && Shows(u, g);
    hide Shows, OnlyRun, Coordinate, ApprovedSteps, AnyUndecided;
    if u.runs[n].pc == Ended {
      events, t := first, u;
    } else {
      var second;
      second, t := RunAlone(o, u, n, g);
      ReachesOn(s, first, u, second, t);
      events := first + second;
      OnlyRunOn(s, u, t, n);
    }
  }

  // ---- A decision ------------------------------------------------------------------------------------------

  /** A decision that nothing disturbs, made in any state, does what the sequential Approve or Reject does, and leaves no
      decision under way and no goal still to be failed that was not there before. */
  lemma UndisturbedDecision(o: Oracle, s: State, d: nat, r: nat, approve: bool, g: Goal) returns (events: seq<Event>, t: State)
    requires d !in s.deciders && Shows(s, g)
    ensures Reaches(s, events, t) && Shows(t, Act(o, g, if approve then Approve(r) else Reject(r)))
    ensures t == s.(status := t.status, reviews := t.reviews, approvedEver := t.approvedEver)
    ensures t.approvedEver == if approve && t.reviews != s.reviews then s.approvedEver + {s.reviews[r].step} else s.approvedEver
  {
    hide Reaches;
    ReachesItself(s);
    events, t := [], s;
    if r < |s.reviews| && s.reviews[r].status == Undecided {
      var v := Verdict(r, if approve then Approved else Rejected);
      ReachesThen(s, events, t, ReadReview(d, v));
      events, t := events + [ReadReview(d, v)], Next(t, ReadReview(d, v));
      ReachesThen(s, events, t, WriteReview(d));
      events, t := events + [WriteReview(d)], Next(t, WriteReview(d));
      assert t.deciders == s.deciders;
      assert t.reviews[r] != s.reviews[r];
    } else if r < |s.reviews| && s.reviews[r].status == Rejected && !approve {
      ReachesThen(s, events, t, RepeatReject(r));
      events, t := events + [RepeatReject(r)], Next(t, RepeatReject(r));
    }
    if t.marks != s.marks {
      ReachesThen(s, events, t, MarkRejected);
      events, t := events + [MarkRejected], Next(t, MarkRejected);
    }
  }
}
