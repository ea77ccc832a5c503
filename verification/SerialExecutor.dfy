/** Many cancellable callers, one unbuffered job channel, one worker. A caller is one call to Do; its id is
    also the id of its job. Every outside call the worker makes is a separate step, so callers may arrive,
    give up and receive in between. */
module SerialExecutor {
  import opened Common
  import opened Transaction

  // Where a call to Do ended: cancelled before its job was taken, cancelled while waiting, or answered.
  datatype Outcome = Refused | Abandoned | Answered(answer: Answer)
  datatype Caller = Offering | Waiting | Returned(outcome: Outcome)
  datatype Worker = Idle | Busy(job: nat, phase: Phase)

  // `mail` holds the one-slot result channels that are full. `accepted` and `delivered` are history.
  datatype State = State(
    workspace: Workspace, callers: map<nat, Caller>, worker: Worker, mail: map<nat, Answer>,
    accepted: seq<nat>, delivered: seq<nat>)

  datatype Event = Call(j: nat) | Refuse(j: nat) | Accept(j: nat) | Work | Deliver | Receive(j: nat) | Abandon(j: nat)

  function Init(ws: Workspace): State {
    State(ws, map[], Idle, map[], [], [])
  }

  predicate At(s: State, j: nat, c: Caller) {
    j in s.callers && s.callers[j] == c
  }

  predicate Enabled(s: State, e: Event) {
    match e
    case Call(j) => j !in s.callers
    case Refuse(j) => At(s, j, Offering)
    case Accept(j) => At(s, j, Offering) && s.worker.Idle?
    case Work => s.worker.Busy? && !s.worker.phase.Finished?
    case Deliver => s.worker.Busy? && s.worker.phase.Finished? && s.worker.job !in s.mail
    case Receive(j) => At(s, j, Waiting) && j in s.mail
    case Abandon(j) => At(s, j, Waiting)
  }

  function Step(env: Env, s: State, e: Event): State
    requires Enabled(s, e)
  {
    match e
    case Call(j) => s.(callers := s.callers[j := Offering])
    case Refuse(j) => s.(callers := s.callers[j := Returned(Refused)])
    case Accept(j) => s.(callers := s.callers[j := Waiting], worker := Busy(j, Fetched), accepted := s.accepted + [j])
    case Work =>
      var (p, ws) := Advance(env, s.worker.job, s.worker.phase, s.workspace);
      s.(worker := Busy(s.worker.job, p), workspace := ws)
    case Deliver =>
      s.(mail := s.mail[s.worker.job := s.worker.phase.answer], worker := Idle, delivered := s.delivered + [s.worker.job])
    case Receive(j) => s.(callers := s.callers[j := Returned(Answered(s.mail[j]))], mail := s.mail - {j})
    case Abandon(j) => s.(callers := s.callers[j := Returned(Abandoned)])
  }

  /** `t` is reached from `s` by the given events, each enabled when it happens. */
  ghost predicate Runs(env: Env, s: State, events: seq<Event>, t: State)
    decreases |events|
  {
    if events == [] then s == t
    else Enabled(s, events[0]) && Runs(env, Step(env, s, events[0]), events[1..], t)
  }

  // ---- The serial execution every interleaving must agree with -----------------------------------

  /** The workspace after running the jobs one after the other. */
  function Serial(env: Env, ws: Workspace, jobs: seq<nat>): Workspace {
    if jobs == [] then ws
    else RunJob(env, jobs[|jobs| - 1], Serial(env, ws, jobs[..|jobs| - 1])).workspace
  }

  /** The answer of the k-th job in that serial execution. */
  function SerialAnswer(env: Env, ws: Workspace, jobs: seq<nat>, k: nat): Answer
    requires k < |jobs|
  {
    RunJob(env, jobs[k], Serial(env, ws, jobs[..k])).answer
  }

  ghost predicate IsAnswerOf(env: Env, ws: Workspace, jobs: seq<nat>, j: nat, a: Answer) {
    exists k: nat :: k < |jobs| && jobs[k] == j && a == SerialAnswer(env, ws, jobs, k)
  }

  function InHand(w: Worker): seq<nat> {
    if w.Idle? then [] else [w.job]
  }

  /** Each accepted job is delivered once or is the single one in the worker's hand. */
  ghost predicate Ledger(s: State) {
    && s.accepted == s.delivered + InHand(s.worker)
    && Distinct(s.accepted)
    && (forall j :: j in s.accepted <==>
          j in s.callers && s.callers[j] != Offering && s.callers[j] != Returned(Refused))
  }

  /** The worker is somewhere inside its job, started where the delivered jobs left off. */
  ghost predicate Progress(env: Env, ws: Workspace, s: State) {
    && (s.worker.Idle? ==> s.workspace == Serial(env, ws, s.delivered))
    && (s.worker.Busy? ==>
          Reached(env, s.worker.job, Serial(env, ws, s.delivered), s.worker.phase, s.workspace))
  }

  /** A full result channel, and a returned answer, hold the job's own serial answer. */
  ghost predicate Answers(env: Env, ws: Workspace, s: State) {
    && (forall j <- s.mail :: IsAnswerOf(env, ws, s.delivered, j, s.mail[j]))
    && (forall j <- s.callers :: s.callers[j].Returned? && s.callers[j].outcome.Answered? ==>
          IsAnswerOf(env, ws, s.delivered, j, s.callers[j].outcome.answer))
  }

  ghost predicate Invariant(env: Env, ws: Workspace, s: State) {
    Ledger(s) && Progress(env, ws, s) && Answers(env, ws, s)
  }

  lemma AnswersPersist(env: Env, ws: Workspace, jobs: seq<nat>, j: nat, a: Answer, more: nat)
    requires IsAnswerOf(env, ws, jobs, j, a)
    ensures IsAnswerOf(env, ws, jobs + [more], j, a)
  {
    var k: nat :| k < |jobs| && jobs[k] == j && a == SerialAnswer(env, ws, jobs, k);
    assert (jobs + [more])[..k] == jobs[..k];
    assert a == SerialAnswer(env, ws, jobs + [more], k);
  }

  lemma LedgerKept(env: Env, s: State, e: Event)
    requires Ledger(s) && Enabled(s, e)
    ensures Ledger(Step(env, s, e))
  {
    hide Advance;
    if e.Accept? {
      assert e.j !in s.accepted;
      assert Step(env, s, e).accepted == s.accepted + [e.j];
    }
  }

  lemma SerialSnoc(env: Env, ws: Workspace, jobs: seq<nat>, j: nat)
    ensures Serial(env, ws, jobs + [j]) == RunJob(env, j, Serial(env, ws, jobs)).workspace
    ensures IsAnswerOf(env, ws, jobs + [j], j, RunJob(env, j, Serial(env, ws, jobs)).answer)
  {
    hide RunJob;
    var all := jobs + [j];
    assert all[..|jobs|] == jobs && all[|jobs|] == j;
    assert SerialAnswer(env, ws, all, |jobs|) == RunJob(env, j, Serial(env, ws, jobs)).answer;
  }

  /** A finished job ends with its serial result. */
  lemma DeliveredAnswer(env: Env, ws: Workspace, delivered: seq<nat>, j: nat, now: Workspace, a: Answer)
    requires Reached(env, j, Serial(env, ws, delivered), Finished(a), now)
    ensures now == Serial(env, ws, delivered + [j]) && IsAnswerOf(env, ws, delivered + [j], j, a)
  {
    hide RunJob, Serial, IsAnswerOf;
    SerialSnoc(env, ws, delivered, j);
  }

  lemma FetchedReached(env: Env, j: nat, base: Workspace)
    ensures Reached(env, j, base, Fetched, base)
  {
  }

  lemma ProgressKept(env: Env, ws: Workspace, s: State, e: Event)
    requires Progress(env, ws, s) && Enabled(s, e)
    ensures Progress(env, ws, Step(env, s, e))
  {
    hide Advance, Serial, IsAnswerOf, Reached;
    match e
    case Deliver => DeliveredAnswer(env, ws, s.delivered, s.worker.job, s.workspace, s.worker.phase.answer);
    case Accept(j) => FetchedReached(env, j, s.workspace);
    case Work => AdvanceReaches(env, s.worker.job, Serial(env, ws, s.delivered), s.worker.phase, s.workspace);
    case _ =>
  }

  lemma AnswersKept(env: Env, ws: Workspace, s: State, e: Event)
    requires Progress(env, ws, s) && Answers(env, ws, s) && Enabled(s, e)
    ensures Answers(env, ws, Step(env, s, e))
  {
    hide Advance, Serial, IsAnswerOf, Reached;
    if e.Deliver? {
      DeliveredAnswer(env, ws, s.delivered, s.worker.job, s.workspace, s.worker.phase.answer);
      forall i, a | IsAnswerOf(env, ws, s.delivered, i, a)
        ensures IsAnswerOf(env, ws, s.delivered + [s.worker.job], i, a)
      {
        AnswersPersist(env, ws, s.delivered, i, a, s.worker.job);
      }
    }
  }

  /** Every step of every caller and of the worker keeps the invariant. */
  lemma StepKeeps(env: Env, ws: Workspace, s: State, e: Event)
    requires Invariant(env, ws, s) && Enabled(s, e)
    ensures Invariant(env, ws, Step(env, s, e))
  {
    hide Step, Ledger, Progress, Answers;
    LedgerKept(env, s, e);
    ProgressKept(env, ws, s, e);
    AnswersKept(env, ws, s, e);
  }

  lemma {:induction false} RunKeeps(env: Env, ws: Workspace, s: State, events: seq<Event>, t: State)
    requires Invariant(env, ws, s) && Runs(env, s, events, t)
    ensures Invariant(env, ws, t)
    decreases |events|
  {
    if events != [] {
      StepKeeps(env, ws, s, events[0]);
      RunKeeps(env, ws, Step(env, s, events[0]), events[1..], t);
    }
  }

  /** Serial equivalence. In every interleaving of calls, cancellations and worker steps: accepted jobs are
      distinct and form the delivered ones plus the one in hand; an idle worker has left exactly the serial
      workspace; every answered caller has its own job's serial answer; a job was accepted exactly when its
      caller neither is still offering it nor was refused. */
  lemma SerialEquivalence(env: Env, ws: Workspace, events: seq<Event>, t: State)
    requires Runs(env, Init(ws), events, t)
    ensures Distinct(t.accepted) && t.accepted == t.delivered + InHand(t.worker)
    ensures t.worker.Idle? ==> t.workspace == Serial(env, ws, t.accepted)
    ensures forall j, a :: At(t, j, Returned(Answered(a))) ==> IsAnswerOf(env, ws, t.accepted, j, a)
    ensures forall j :: j in t.callers ==>
              (j in t.accepted <==> t.callers[j] != Offering && t.callers[j] != Returned(Refused))
  {
    RunKeeps(env, ws, Init(ws), events, t);
    if t.worker.Busy? {
      forall j, a | IsAnswerOf(env, ws, t.delivered, j, a)
        ensures IsAnswerOf(env, ws, t.accepted, j, a)
      {
        AnswersPersist(env, ws, t.delivered, j, a, t.worker.job);
      }
    } else {
      assert t.accepted == t.delivered;
    }
  }

  /** A busy worker can always take its next step: the slot it delivers into is never full, whatever the
      callers have done. */
  lemma WorkerNeverBlocks(env: Env, ws: Workspace, events: seq<Event>, t: State)
    requires Runs(env, Init(ws), events, t) && t.worker.Busy?
    ensures Enabled(t, if t.worker.phase.Finished? then Deliver else Work)
  {
    RunKeeps(env, ws, Init(ws), events, t);
    assert t.accepted[|t.delivered|] == t.worker.job;
    assert forall k :: 0 <= k < |t.delivered| ==> t.delivered[k] == t.accepted[k];
  }

  // ---- What a call to Do returns ------------------------------------------------------------------

  /** The event by which a caller returns with the given outcome. */
  function ReturnEvent(j: nat, o: Outcome): Event {
    match o case Refused => Refuse(j) case Abandoned => Abandon(j) case Answered(_) => Receive(j)
  }

  lemma {:induction false} ReturnsInRun(env: Env, s: State, events: seq<Event>, t: State, j: nat)
    requires Runs(env, s, events, t) && !(j in s.callers && s.callers[j].Returned?)
    ensures j in t.callers && t.callers[j].Returned? <==>
              Refuse(j) in events || Abandon(j) in events || Receive(j) in events
    ensures j in t.callers && t.callers[j].Returned? ==> ReturnEvent(j, t.callers[j].outcome) in events
    decreases |events|
  {
    hide Advance;
    if events != [] {
      var u := Step(env, s, events[0]);
      assert events == [events[0]] + events[1..];
      if j in u.callers && u.callers[j].Returned? {
        ReturnedStays(env, u, events[1..], t, j);
      } else {
        ReturnsInRun(env, u, events[1..], t, j);
      }
    }
  }

  lemma {:induction false} ReturnedStays(env: Env, s: State, events: seq<Event>, t: State, j: nat)
    requires Runs(env, s, events, t) && j in s.callers && s.callers[j].Returned?
    ensures At(t, j, s.callers[j])
    decreases |events|
  {
    hide Advance;
    if events != [] { ReturnedStays(env, Step(env, s, events[0]), events[1..], t, j); }
  }

  lemma {:induction false} CallsInRun(env: Env, s: State, events: seq<Event>, t: State, j: nat)
    requires Runs(env, s, events, t)
    ensures j in t.callers <==> j in s.callers || Call(j) in events
    ensures j in t.accepted <==> j in s.accepted || Accept(j) in events
    decreases |events|
  {
    hide Advance;
    if events != [] {
      assert events == [events[0]] + events[1..];
      CallsInRun(env, Step(env, s, events[0]), events[1..], t, j);
    }
  }

  /** In every run the callers are those that called and the accepted jobs those accepted. A call has returned exactly
      when one of its three ways out was taken, and its outcome is that of the way it took: refused only if cancelled
      before its job was taken, abandoned only if cancelled while waiting, answered only by its result. */
  lemma OutcomeByEvent(env: Env, ws: Workspace, events: seq<Event>, t: State, j: nat)
    requires Runs(env, Init(ws), events, t)
    ensures (j in t.callers <==> Call(j) in events) && (j in t.accepted <==> Accept(j) in events)
    ensures j in t.callers && t.callers[j].Returned? <==>
              Refuse(j) in events || Abandon(j) in events || Receive(j) in events
    ensures At(t, j, Returned(Refused)) ==> Refuse(j) in events
    ensures At(t, j, Returned(Abandoned)) ==> Abandon(j) in events
    ensures j in t.callers && t.callers[j].Returned? && t.callers[j].outcome.Answered? ==> Receive(j) in events
  {
    CallsInRun(env, Init(ws), events, t, j);
    ReturnsInRun(env, Init(ws), events, t, j);
  }

  /** A caller that takes its result returns its own job's serial answer. */
  lemma ReceiveAnswers(env: Env, ws: Workspace, events: seq<Event>, t: State, j: nat) returns (a: Answer)
    requires Runs(env, Init(ws), events, t) && Enabled(t, Receive(j))
    ensures At(Step(env, t, Receive(j)), j, Returned(Answered(a))) && IsAnswerOf(env, ws, t.accepted, j, a)
  {
    RunKeeps(env, ws, Init(ws), events, t);
    a := t.mail[j];
    assert IsAnswerOf(env, ws, t.delivered, j, a);
    if t.worker.Busy? { AnswersPersist(env, ws, t.delivered, j, a, t.worker.job); } else { assert t.accepted == t.delivered; }
  }

  /** A delivered result stays in its channel for as long as its caller waits. */
  ghost predicate Kept(s: State) {
    forall j :: j in s.delivered && At(s, j, Waiting) ==> j in s.mail
  }

  lemma KeptStep(env: Env, s: State, e: Event)
    requires Ledger(s) && Kept(s) && Enabled(s, e)
    ensures Kept(Step(env, s, e))
  {
    hide Advance;
  }

  lemma {:induction false} RunKeepsMail(env: Env, ws: Workspace, s: State, events: seq<Event>, t: State)
    requires Invariant(env, ws, s) && Kept(s) && Runs(env, s, events, t)
    ensures Kept(t)
    decreases |events|
  {
    hide Step, Progress, Answers, Kept, Ledger;
    if events != [] {
      StepKeeps(env, ws, s, events[0]);
      KeptStep(env, s, events[0]);
      RunKeepsMail(env, ws, Step(env, s, events[0]), events[1..], t);
    }
  }

  /** A waiting caller's job is in the worker's hand, or its result is there to be taken. */
  lemma WaitingIsServed(env: Env, ws: Workspace, events: seq<Event>, t: State, j: nat)
    requires Runs(env, Init(ws), events, t) && At(t, j, Waiting)
    ensures j in t.delivered ==> Enabled(t, Receive(j))
    ensures j !in t.delivered ==> t.worker.Busy? && t.worker.job == j && j !in t.mail
  {
    RunKeeps(env, ws, Init(ws), events, t);
    MailIsDelivered(env, ws, t, j);
    RunKeepsMail(env, ws, Init(ws), events, t);
  }

  /** How many outside calls the worker still has to make for its job. */
  function CallsLeft(p: Phase): nat {
    match p case Fetched => 4 case Guarded(_, _) => 3 case Ran(_, _, _) => 2 case Checked(_, _, _, _, _) => 1 case Finished(_) => 0
  }

  /** From a state in which the worker holds job `j` and its caller waits, the worker's own steps and then the caller's
      receive lead to an answer. */
  lemma {:induction false} WorkAnswers(env: Env, s: State, j: nat) returns (more: seq<Event>, t: State)
    requires At(s, j, Waiting) && s.worker.Busy? && s.worker.job == j && j !in s.mail
    ensures Runs(env, s, more, t) && j in t.callers && t.callers[j].Returned? && t.callers[j].outcome.Answered?
    ensures |more| <= CallsLeft(s.worker.phase) + 2
    decreases CallsLeft(s.worker.phase)
  {
    if s.worker.phase.Finished? {
      var delivered := Step(env, s, Deliver);
      t := Step(env, delivered, Receive(j));
      more := [Deliver, Receive(j)];
      assert more[1..] == [Receive(j)] && more[1..][1..] == [];
      assert Runs(env, delivered, more[1..], t);
    } else {
      var u := Step(env, s, Work);
      var rest;
      rest, t := WorkAnswers(env, u, j);
      more := [Work] + rest;
      assert more[1..] == rest;
    }
  }

  /** A caller that waits and is not cancelled can always be answered: in every reachable state at most six more events,
      all of the worker or of the caller itself, return its own job's serial answer. */
  lemma WaitingCanBeAnswered(env: Env, ws: Workspace, events: seq<Event>, t: State, j: nat)
    returns (more: seq<Event>, u: State)
    requires Runs(env, Init(ws), events, t) && At(t, j, Waiting)
    ensures Runs(env, t, more, u) && |more| <= 6
    ensures j in u.callers && u.callers[j].Returned? && u.callers[j].outcome.Answered?
    ensures IsAnswerOf(env, ws, u.accepted, j, u.callers[j].outcome.answer)
  {
    hide Advance, Ledger, Progress, Answers, IsAnswerOf, Distinct;
    WaitingIsServed(env, ws, events, t, j);
    if j in t.delivered {
      more, u := [Receive(j)], Step(env, t, Receive(j));
      assert more[1..] == [];
    } else {
      more, u := WorkAnswers(env, t, j);
    }
    RunsConcat(env, Init(ws), events, t, more, u);
    SerialEquivalence(env, ws, events + more, u);
    assert At(u, j, Returned(Answered(u.callers[j].outcome.answer)));
  }

  lemma MailIsDelivered(env: Env, ws: Workspace, s: State, j: nat)
    requires Answers(env, ws, s)
    ensures j in s.mail ==> j in s.delivered
  {
    hide SerialAnswer;
    assert j in s.mail ==> IsAnswerOf(env, ws, s.delivered, j, s.mail[j]);
  }

  lemma {:induction false} RunsConcat(env: Env, s: State, first: seq<Event>, t: State, second: seq<Event>, u: State)
    requires Runs(env, s, first, t) && Runs(env, t, second, u)
    ensures Runs(env, s, first + second, u)
    decreases |first|
  {
    if first == [] {
      assert first + second == second;
    } else {
      RunsConcat(env, Step(env, s, first[0]), first[1..], t, second, u);
      assert (first + second)[1..] == first[1..] + second;
    }
  }

  // ---- Jobs that leave nothing behind -------------------------------------------------------------

  /** The serial workspace with every undone or rejected job left out. */
  function Committed(env: Env, ws: Workspace, jobs: seq<nat>): Workspace {
    if jobs == [] then ws
    else
      var before, j := Committed(env, ws, jobs[..|jobs| - 1]), jobs[|jobs| - 1];
      if !Known(env, env.job(j)) then before
      else if WantsCheckpoint(env, env.job(j)) && env.checkpoint(j, before).0.Some? then before
      else if Undone(env, j, before) then before
      else Effect(env, j, before).0
  }

  /** If restores succeed, a job that ends in an error after its checkpoint was taken counts as a no-op, unless
      its own error is a policy denial. */
  lemma {:induction false} UndoneJobsVanish(env: Env, ws: Workspace, jobs: seq<nat>)
    requires forall j, w :: env.restore(j, w) == None
    ensures Serial(env, ws, jobs) == Committed(env, ws, jobs)
  {
    if jobs != [] {
      UndoneJobsVanish(env, ws, jobs[..|jobs| - 1]);
    }
  }
}
