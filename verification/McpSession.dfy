/** The MCP client's request/response protocol as a machine: any number of calls and notifications compete for
    the call mutex, each read runs beside its caller's select, contexts are cancelled, the session is closed
    from outside, and the server process writes its answers byte by byte and may exit at any moment. */
module McpSession {
  import opened Common
  import opened McpFraming

  datatype Message = Request(id: nat, body: seq<Byte>) | Notification(body: seq<Byte>)

  datatype Outcome =
    | Success(frame: seq<Byte>) | Sent
    | MarshalError | WriteError | ReadError | Cancelled | Unavailable

  // What a caller does once its request is written: wait in the select, run the steps of close (next step
  // given), or wait for its reader after leaving the select with the given outcome.
  datatype Wait = Selecting | Closing(next: nat) | Draining(outcome: Outcome)

  // `ch` is the one-slot channel that the caller's reader fills.
  datatype Phase =
    | Blocked | Entered | Ready(id: nat)
    | InFlight(id: nat, ch: Option<Result>, wait: Wait)
    | Returned(id: nat, outcome: Outcome)

  datatype Call = Call(notify: bool, body: seq<Byte>, phase: Phase)

  // The session as all calls share it. `inbox`: messages the server has not taken; `owed`: answer bytes it has
  // not written yet; `unread`: bytes written and not read.
  datatype Session = Session(
    nextId: nat, inbox: seq<Message>, owed: seq<Byte>, unread: seq<Byte>,
    stdinClosed: bool, stdoutClosed: bool, exited: bool, done: bool)

  // `closers`: calls of close from outside, with the next step of each.
  datatype State = State(calls: map<nat, Call>, closers: map<nat, nat>, lock: Option<nat>, session: Session)

  // Steps of a call that holds the mutex, its reader's included.
  datatype Action =
    | Check | MarshalFails | Write | WriteFails | ReaderReads | ReaderFails(lost: nat, error: FrameError)
    | TakeResult | SeeCancel | SeeDone | CloseStep | Drain

  datatype ServerAction = Takes | Writes(n: nat) | Exits | CrashSeen

  datatype Event =
    | Arrive(j: nat, notify: bool, body: seq<Byte>) | Acquire(j: nat) | Act(j: nat, a: Action)
    | Shutdown(k: nat) | ShutdownStep(k: nat) | Server(b: ServerAction)

  type Replies = (nat, seq<Byte>) -> seq<Byte>

  const CLOSE_STEPS: nat := 4

  function Init(): State { State(map[], map[], None, Session(0, [], [], [], false, false, false, false)) }

  predicate WritesDead(w: Session) { w.stdinClosed || w.exited }

  predicate ReadsDead(w: Session) { w.stdoutClosed || w.exited }

  predicate Holds(p: Phase) { p.Entered? || p.Ready? || p.InFlight? }

  predicate CanAct(w: Session, p: Phase, a: Action) {
    match a
    case Check => p.Entered?
    case MarshalFails => p.Ready?
    case Write => p.Ready? && !WritesDead(w)
    case WriteFails => p.Ready? && WritesDead(w)
    // A reader that finds neither a whole frame nor a malformed one goes on waiting.
    case ReaderReads =>
      p.InFlight? && p.ch.None? && ReadFrame(w.unread).result !in {Failed(HeaderEof), Failed(BodyEof)}
    case ReaderFails(lost, _) => p.InFlight? && p.ch.None? && ReadsDead(w) && lost <= |w.unread|
    case TakeResult => p.InFlight? && p.wait.Selecting? && p.ch.Some?
    case SeeCancel => p.InFlight? && p.wait.Selecting?
    case SeeDone => p.InFlight? && p.wait.Selecting? && w.done
    case CloseStep => p.InFlight? && p.wait.Closing?
    case Drain => p.InFlight? && p.wait.Draining? && p.ch.Some?
  }

  /** One step of close: close stdin, close stdout, kill the process, mark the session done. Death follows the
      kill at a moment of its own. */
  function CloseEffect(w: Session, step: nat): Session {
    if step == 0 then w.(stdinClosed := true)
    else if step == 1 then w.(stdoutClosed := true)
    else if step == 3 then w.(done := true)
    else w
  }

  function ActOn(w: Session, c: Call, a: Action): (Session, Phase)
    requires CanAct(w, c.phase, a)
  {
    var p := c.phase;
    match a
    case Check =>
      if w.done then (w, Returned(0, Unavailable)) else (w.(nextId := w.nextId + 1), Ready(w.nextId + 1))
    case MarshalFails => (w, Returned(p.id, MarshalError))
    case Write =>
      if c.notify then (w.(inbox := w.inbox + [Notification(c.body)]), Returned(0, Sent))
      else (w.(inbox := w.inbox + [Request(p.id, c.body)]), InFlight(p.id, None, Selecting))
    case WriteFails => (w, Returned(p.id, WriteError))
    case ReaderReads => var r := ReadFrame(w.unread); (w.(unread := r.rest), p.(ch := Some(r.result)))
    case ReaderFails(lost, error) => (w.(unread := w.unread[lost..]), p.(ch := Some(Failed(error))))
    case TakeResult =>
      (w, Returned(p.id, if p.ch.value.Frame? then Success(p.ch.value.payload) else ReadError))
    case SeeCancel => (w, p.(wait := Closing(0)))
    case SeeDone => (w, p.(wait := Draining(Unavailable)))
    case CloseStep =>
      var next := p.wait.next + 1;
      (CloseEffect(w, p.wait.next), p.(wait := if next < CLOSE_STEPS then Closing(next) else Draining(Cancelled)))
    case Drain => (w, Returned(p.id, p.wait.outcome))
  }

  predicate CanServe(w: Session, b: ServerAction) {
    match b
    case Takes => w.inbox != [] && !w.exited
    case Writes(n) => n <= |w.owed| && !w.exited
    case Exits => true
    case CrashSeen => w.exited
  }

  /** The bytes with which the server answers one message. */
  function AnswerBytes(reply: Replies, m: Message): seq<Byte> {
    if m.Request? then Written(reply(m.id, m.body)) else []
  }

  function Serve(reply: Replies, w: Session, b: ServerAction): Session
    requires CanServe(w, b)
  {
    match b
    case Takes => w.(inbox := w.inbox[1..], owed := w.owed + AnswerBytes(reply, w.inbox[0]))
    case Writes(n) => w.(unread := w.unread + w.owed[..n], owed := w.owed[n..])
    case Exits => w.(exited := true)
    case CrashSeen => w.(done := true)
  }

  predicate Enabled(s: State, e: Event) {
    match e
    case Arrive(j, _, _) => j !in s.calls
    case Acquire(j) => j in s.calls && s.calls[j].phase.Blocked? && s.lock.None?
    case Act(j, a) => j in s.calls && CanAct(s.session, s.calls[j].phase, a)
    case Shutdown(k) => k !in s.closers
    case ShutdownStep(k) => k in s.closers && s.closers[k] < CLOSE_STEPS
    case Server(b) => CanServe(s.session, b)
  }

  function Step(reply: Replies, s: State, e: Event): State
    requires Enabled(s, e)
  {
    match e
    case Arrive(j, notify, body) => s.(calls := s.calls[j := Call(notify, body, Blocked)])
    case Acquire(j) =>
      var c := s.calls[j];
      s.(calls := s.calls[j := c.(phase := if c.notify then Ready(0) else Entered)], lock := Some(j))
    case Act(j, a) =>
      var (w, p) := ActOn(s.session, s.calls[j], a);
      State(s.calls[j := s.calls[j].(phase := p)], s.closers, if Holds(p) then s.lock else None, w)
    case Shutdown(k) => s.(closers := s.closers[k := 0])
    case ShutdownStep(k) =>
      s.(closers := s.closers[k := s.closers[k] + 1], session := CloseEffect(s.session, s.closers[k]))
    case Server(b) => s.(session := Serve(reply, s.session, b))
  }

  ghost predicate Runs(reply: Replies, s: State, events: seq<Event>, t: State)
    decreases |events|
  {
    if events == [] then s == t
    else Enabled(s, events[0]) && Runs(reply, Step(reply, s, events[0]), events[1..], t)
  }

  /** The server answers every request with one frame the reader accepts. */
  ghost predicate WellFormed(reply: Replies) {
    forall id, body :: Sendable(reply(id, body))
  }

  // ---------------------------------------------------------------- invariant

  function PendingBytes(reply: Replies, inbox: seq<Message>): seq<Byte> {
    if inbox == [] then [] else AnswerBytes(reply, inbox[0]) + PendingBytes(reply, inbox[1..])
  }

  /** All bytes a reader that never stops would still see. */
  function Expected(reply: Replies, w: Session): seq<Byte> {
    w.unread + w.owed + PendingBytes(reply, w.inbox)
  }

  predicate Quiet(reply: Replies, w: Session) { WritesDead(w) || Expected(reply, w) == [] }

  predicate Closed(w: Session, steps: nat) {
    steps <= CLOSE_STEPS && (steps > 0 ==> w.stdinClosed) && (steps > 1 ==> w.stdoutClosed)
  }

  predicate SessionSound(w: Session) {
    (w.stdoutClosed ==> w.stdinClosed) && (w.done ==> ReadsDead(w))
  }

  /** What is known of one call whatever the others do: its place in close, and its outcome. */
  predicate CallSound(reply: Replies, w: Session, c: Call) {
    && (c.notify ==> !c.phase.Entered? && !c.phase.InFlight?)
    && (c.phase.InFlight? && c.phase.wait.Closing? ==>
          c.phase.wait.next < CLOSE_STEPS && Closed(w, c.phase.wait.next))
    && (c.phase.InFlight? && c.phase.wait.Draining? ==>
          w.done && c.phase.wait.outcome in {Cancelled, Unavailable})
    && (c.phase.Returned? && c.phase.outcome.Success? ==> c.phase.outcome.frame == reply(c.phase.id, c.body))
    && (c.phase.Returned? ==> c.phase.outcome in (if c.notify then {Sent, MarshalError, WriteError}
                                                  else {MarshalError, WriteError, ReadError, Cancelled, Unavailable})
                              || (!c.notify && c.phase.outcome.Success?))
  }

  /** What is on the wire while a call holds the mutex. */
  predicate WireOf(reply: Replies, w: Session, c: Call) {
    if !c.phase.InFlight? then Quiet(reply, w)
    else match c.phase.ch
      case None => Expected(reply, w) == Written(reply(c.phase.id, c.body))
      case Some(Frame(p)) => p == reply(c.phase.id, c.body) && Expected(reply, w) == []
      case Some(Failed(_)) => WritesDead(w)
  }

  // A call that ended with any error but its own encoding error found the session over.
  predicate Fatal(p: Phase) {
    p.Returned? && p.outcome in {WriteError, ReadError, Cancelled, Unavailable}
  }

  // Requests can no longer be written, and none is in flight.
  predicate Over(s: State) {
    WritesDead(s.session) &&
    !(s.lock.Some? && s.lock.value in s.calls && s.calls[s.lock.value].phase.InFlight?)
  }

  ghost predicate Invariant(reply: Replies, s: State) {
    && SessionSound(s.session)
    && (forall j <- s.calls :: Holds(s.calls[j].phase) <==> s.lock == Some(j))
    && (forall j <- s.calls :: CallSound(reply, s.session, s.calls[j]))
    && (forall k <- s.closers :: Closed(s.session, s.closers[k]))
    && (if s.lock.None? then Quiet(reply, s.session)
        else s.lock.value in s.calls && WireOf(reply, s.session, s.calls[s.lock.value]))
    && (forall j <- s.calls :: Fatal(s.calls[j].phase) ==> Over(s))
  }

  /** Closing, exit and the done mark are never taken back. */
  predicate Advances(w: Session, v: Session) {
    && (w.stdinClosed ==> v.stdinClosed) && (w.stdoutClosed ==> v.stdoutClosed)
    && (w.exited ==> v.exited) && (w.done ==> v.done)
  }

  lemma {:induction false} PendingSnoc(reply: Replies, inbox: seq<Message>, m: Message)
    ensures PendingBytes(reply, inbox + [m]) == PendingBytes(reply, inbox) + AnswerBytes(reply, m)
  {
    hide AnswerBytes;
    var all := inbox + [m];
    if inbox == [] {
      assert all[0] == m && all[1..] == [];
    } else {
      assert all[0] == inbox[0] && all[1..] == inbox[1..] + [m];
      PendingSnoc(reply, inbox[1..], m);
    }
  }

  /** A reader that stops waiting has read the answer on the wire, whole. */
  lemma ReadsOwnAnswer(reply: Replies, w: Session, c: Call)
    requires WellFormed(reply) && WireOf(reply, w, c) && CanAct(w, c.phase, ReaderReads)
    ensures ReadFrame(w.unread) == Read(Frame(reply(c.phase.id, c.body)), [])
    ensures w.owed + PendingBytes(reply, w.inbox) == []
  {
    hide ReadFrame, Written, HeaderOf;
    var p := reply(c.phase.id, c.body);
    assert Sendable(p);
    assert w.unread == Written(p)[..|w.unread|];
    if |w.unread| < |Written(p)| {
      CutFrame(p, |w.unread|);
      assert false;
    }
    assert w.unread == Written(p) + [];
    FrameRoundTrip(p, []);
  }

  /** A step of the call that holds the mutex. */
  lemma ActKeeps(reply: Replies, w: Session, c: Call, a: Action)
    requires WellFormed(reply) && SessionSound(w) && CallSound(reply, w, c) && WireOf(reply, w, c)
    requires CanAct(w, c.phase, a)
    ensures var (v, p) := ActOn(w, c, a);
            && SessionSound(v) && Advances(w, v) && CallSound(reply, v, c.(phase := p))
            && WireOf(reply, v, c.(phase := p))
            && (p.InFlight? && !c.phase.InFlight? ==> !WritesDead(w))
            && (Fatal(p) ==> WritesDead(v))
  {
    hide ReadFrame, Written;
    if a.Write? {
      PendingSnoc(reply, w.inbox, if c.notify then Notification(c.body) else Request(c.phase.id, c.body));
    } else if a.ReaderReads? {
      ReadsOwnAnswer(reply, w, c);
    }
  }

  /** The server's steps move answer bytes along without changing them. */
  lemma ServeKeeps(reply: Replies, w: Session, b: ServerAction)
    requires SessionSound(w) && CanServe(w, b)
    ensures var v := Serve(reply, w, b);
            SessionSound(v) && Advances(w, v) && Expected(reply, v) == Expected(reply, w)
  {
    hide AnswerBytes;
    var v := Serve(reply, w, b);
    if b.Takes? {
      assert v.owed + PendingBytes(reply, v.inbox) == w.owed + PendingBytes(reply, w.inbox);
    } else if b.Writes? {
      assert v.unread + v.owed == w.unread + w.owed by { assert w.owed == w.owed[..b.n] + w.owed[b.n..]; }
    }
  }

  /** A call is not disturbed by what others do to the session. */
  lemma CallUndisturbed(reply: Replies, w: Session, v: Session, c: Call)
    requires Advances(w, v) && CallSound(reply, w, c)
    ensures CallSound(reply, v, c)
    ensures WireOf(reply, w, c) && Expected(reply, v) == Expected(reply, w) ==> WireOf(reply, v, c)
  {
  }

  lemma ActStepKeeps(reply: Replies, s: State, j: nat, a: Action)
    requires WellFormed(reply) && Invariant(reply, s) && Enabled(s, Act(j, a))
    ensures Invariant(reply, Step(reply, s, Act(j, a)))
  {
    hide CanAct, ActOn, CallSound, WireOf, Quiet, Closed, SessionSound;
    var t := Step(reply, s, Act(j, a));
    assert Holds(s.calls[j].phase) by { ActorHolds(s.session, s.calls[j].phase, a); }
    ActKeeps(reply, s.session, s.calls[j], a);
    forall i <- s.calls ensures CallSound(reply, t.session, s.calls[i]) || i == j {
      CallUndisturbed(reply, s.session, t.session, s.calls[i]);
    }
    if !Holds(t.calls[j].phase) { ReleasedIsQuiet(reply, t.session, t.calls[j]); }
    forall k <- s.closers ensures Closed(t.session, s.closers[k]) {
      ClosedStays(s.session, t.session, s.closers[k]);
    }
  }

  lemma ActorHolds(w: Session, p: Phase, a: Action)
    requires CanAct(w, p, a)
    ensures Holds(p)
  {
    hide ReadFrame;
  }

  lemma ReleasedIsQuiet(reply: Replies, w: Session, c: Call)
    requires WireOf(reply, w, c) && !Holds(c.phase)
    ensures Quiet(reply, w)
  {
  }

  lemma ClosedStays(w: Session, v: Session, steps: nat)
    requires Advances(w, v) && Closed(w, steps)
    ensures Closed(v, steps)
  {
  }

  /** Whatever changes the session from outside the calls, and only moves or hides bytes. */
  lemma OutsideKeeps(reply: Replies, s: State, t: State)
    requires Invariant(reply, s) && t.calls == s.calls && t.lock == s.lock
    requires SessionSound(t.session) && Advances(s.session, t.session)
    requires Expected(reply, t.session) == Expected(reply, s.session)
    requires forall k <- t.closers :: Closed(t.session, t.closers[k])
    ensures Invariant(reply, t)
  {
    hide CallSound, WireOf, Expected, Closed;
    forall i <- s.calls
      ensures CallSound(reply, t.session, s.calls[i])
      ensures s.lock == Some(i) ==> WireOf(reply, t.session, s.calls[i])
    {
      CallUndisturbed(reply, s.session, t.session, s.calls[i]);
    }
  }

  lemma ShutdownStepKeeps(reply: Replies, s: State, k: nat)
    requires Invariant(reply, s) && Enabled(s, ShutdownStep(k))
    ensures Invariant(reply, Step(reply, s, ShutdownStep(k)))
  {
    hide CallSound, WireOf;
    var t := Step(reply, s, ShutdownStep(k));
    assert Closed(s.session, s.closers[k]);
    OutsideKeeps(reply, s, t);
  }

  lemma StepKeeps(reply: Replies, s: State, e: Event)
    requires WellFormed(reply) && Invariant(reply, s) && Enabled(s, e)
    ensures Invariant(reply, Step(reply, s, e))
  {
    hide WireOf, Serve, CanServe, CanAct, ActOn;
    match e
    case Act(j, a) => ActStepKeeps(reply, s, j, a);
    case ShutdownStep(k) => ShutdownStepKeeps(reply, s, k);
    case Server(b) =>
      ServeKeeps(reply, s.session, b);
      OutsideKeeps(reply, s, Step(reply, s, e));
    case Shutdown(k) => OutsideKeeps(reply, s, Step(reply, s, e));
    case Arrive(j, notify, body) =>
    case Acquire(j) => EnteringKeepsWire(reply, s.session, Step(reply, s, e).calls[j]);
  }

  lemma EnteringKeepsWire(reply: Replies, w: Session, c: Call)
    requires Quiet(reply, w) && !c.phase.InFlight?
    ensures WireOf(reply, w, c)
  {
  }

  lemma {:induction false} RunKeeps(reply: Replies, s: State, events: seq<Event>, t: State)
    requires WellFormed(reply) && Invariant(reply, s) && Runs(reply, s, events, t)
    ensures Invariant(reply, t)
    decreases |events|
  {
    if events != [] {
      StepKeeps(reply, s, events[0]);
      RunKeeps(reply, Step(reply, s, events[0]), events[1..], t);
    }
  }

  // ---------------------------------------------------------------- main results

  /** In every interleaving, a call that succeeds returns the server's answer to its own request. */
  lemma SuccessIsOwnAnswer(reply: Replies, events: seq<Event>, t: State, j: nat)
    requires WellFormed(reply) && Runs(reply, Init(), events, t)
    requires j in t.calls && t.calls[j].phase.Returned? && t.calls[j].phase.outcome.Success?
    ensures t.calls[j].phase.outcome.frame == reply(t.calls[j].phase.id, t.calls[j].body)
  {
    RunKeeps(reply, Init(), events, t);
    assert CallSound(reply, t.session, t.calls[j]);
  }

  predicate Succeeded(s: State, j: nat) {
    j in s.calls && s.calls[j].phase.Returned? && s.calls[j].phase.outcome.Success?
  }

  /** One step of a session that is over ends no call with success. */
  lemma OverStays(reply: Replies, s: State, e: Event)
    requires WellFormed(reply) && Invariant(reply, s) && Over(s) && Enabled(s, e)
    ensures Over(Step(reply, s, e))
    ensures forall j :: Succeeded(Step(reply, s, e), j) ==> Succeeded(s, j)
  {
    hide WireOf, CallSound, Serve, CanServe, CanAct, ActOn;
    match e
    case Act(j, a) =>
      assert Holds(s.calls[j].phase) by { ActorHolds(s.session, s.calls[j].phase, a); }
      ActKeeps(reply, s.session, s.calls[j], a);
      SuccessNeedsFlight(s.session, s.calls[j], a);
    case Server(b) => ServeKeeps(reply, s.session, b);
    case _ =>
  }

  lemma SuccessNeedsFlight(w: Session, c: Call, a: Action)
    requires CanAct(w, c.phase, a) && !c.phase.InFlight?
    ensures var p := ActOn(w, c, a).1; p.Returned? ==> !p.outcome.Success?
  {
    hide ReadFrame;
  }

  lemma {:induction false} OverForGood(reply: Replies, s: State, events: seq<Event>, t: State)
    requires WellFormed(reply) && Invariant(reply, s) && Over(s) && Runs(reply, s, events, t)
    ensures forall j :: Succeeded(t, j) ==> Succeeded(s, j)
    decreases |events|
  {
    if events != [] {
      var u := Step(reply, s, events[0]);
      StepKeeps(reply, s, events[0]);
      OverStays(reply, s, events[0]);
      OverForGood(reply, u, events[1..], t);
    }
  }

  /** Once a call has left through the cancel branch, or has ended with any error other than failing to encode
      its own request, no later call succeeds. */
  lemma FailureIsFinal(reply: Replies, before: seq<Event>, s: State, after: seq<Event>, t: State, j: nat)
    requires WellFormed(reply) && Runs(reply, Init(), before, s) && Runs(reply, s, after, t)
    requires j in s.calls && s.calls[j].phase.Returned?
    requires s.calls[j].phase.outcome !in {Sent, MarshalError} && !s.calls[j].phase.outcome.Success?
    ensures forall i :: Succeeded(t, i) ==> Succeeded(s, i)
  {
    RunKeeps(reply, Init(), before, s);
    assert Fatal(s.calls[j].phase);
    OverForGood(reply, s, after, t);
  }

  /** A call that waits for its reader after leaving the select is never stuck: either it can return, or its
      reader can fail, whatever the server does. */
  lemma DrainingNeverBlocks(reply: Replies, events: seq<Event>, t: State, j: nat)
    requires WellFormed(reply) && Runs(reply, Init(), events, t)
    requires j in t.calls && t.calls[j].phase.InFlight? && t.calls[j].phase.wait.Draining?
    ensures Enabled(t, Act(j, Action.Drain)) || Enabled(t, Act(j, ReaderFails(0, HeaderEof)))
  {
    RunKeeps(reply, Init(), events, t);
    assert CallSound(reply, t.session, t.calls[j]);
  }

  // ---------------------------------------------------------------- how a call ends

  /** In every run a call returns without an answer only if it is a notification, and a notification never returns one. */
  lemma SentIsNotification(reply: Replies, events: seq<Event>, t: State, j: nat)
    requires WellFormed(reply) && Runs(reply, Init(), events, t) && j in t.calls && t.calls[j].phase.Returned?
    ensures t.calls[j].phase.outcome.Sent? ==> t.calls[j].notify
    ensures t.calls[j].phase.outcome.Success? ==> !t.calls[j].notify
  {
    RunKeeps(reply, Init(), events, t);
    assert CallSound(reply, t.session, t.calls[j]);
  }

  /** The session takes requests and the server is alive. */
  predicate Open(w: Session) { !w.stdinClosed && !w.stdoutClosed && !w.exited }

  /** A call that takes a frame out of its channel succeeds with the server's answer to its own request. */
  lemma TakenFrameIsSuccess(reply: Replies, events: seq<Event>, t: State, j: nat)
    requires WellFormed(reply) && Runs(reply, Init(), events, t)
    requires Enabled(t, Act(j, TakeResult)) && t.calls[j].phase.ch.value.Frame?
    ensures var c := t.calls[j];
            Step(reply, t, Act(j, TakeResult)).calls[j].phase == Returned(c.phase.id, Success(reply(c.phase.id, c.body)))
  {
    RunKeeps(reply, Init(), events, t);
    assert WireOf(reply, t.session, t.calls[j]);
  }

  /** The server can always take every message and write every byte it owes. */
  lemma {:induction false} ServerCatchesUp(reply: Replies, s: State) returns (more: seq<Event>, t: State)
    requires !s.session.exited
    ensures Runs(reply, s, more, t) && t.calls == s.calls && t.lock == s.lock && t.closers == s.closers
    ensures t.session.unread == Expected(reply, s.session)
    decreases |s.session.inbox|
  {
    hide AnswerBytes;
    if s.session.inbox == [] {
      var e := Server(Writes(|s.session.owed|));
      more, t := [e], Step(reply, s, e);
      assert more[1..] == [];
      assert s.session.owed[..|s.session.owed|] == s.session.owed;
    } else {
      var u := Step(reply, s, Server(Takes));
      var rest;
      rest, t := ServerCatchesUp(reply, u);
      more := [Server(Takes)] + rest;
      assert more[1..] == rest;
      assert u.session.owed + PendingBytes(reply, u.session.inbox) ==
             s.session.owed + PendingBytes(reply, s.session.inbox);
    }
  }

  /** What the wire of a call in its select holds while the session is open. */
  lemma SelectingWire(reply: Replies, s: State, j: nat)
    requires WellFormed(reply) && Invariant(reply, s) && Open(s.session)
    requires j in s.calls && s.calls[j].phase.InFlight? && s.calls[j].phase.wait.Selecting?
    ensures var p, own := s.calls[j].phase, reply(s.calls[j].phase.id, s.calls[j].body);
            p.ch == Some(Frame(own)) || (p.ch.None? && Expected(reply, s.session) == Written(own))
  {
    hide Expected, Written;
    assert Holds(s.calls[j].phase) && WireOf(reply, s.session, s.calls[j]);
  }

  /** With the answer on the wire, the call's own steps end it with success. */
  lemma ReadThenTake(reply: Replies, s: State, j: nat) returns (more: seq<Event>, t: State)
    requires WellFormed(reply) && j in s.calls && s.calls[j].phase.InFlight? && s.calls[j].phase.wait.Selecting?
    requires s.calls[j].phase.ch.None? && s.session.unread == Written(reply(s.calls[j].phase.id, s.calls[j].body))
    ensures Runs(reply, s, more, t) && j in t.calls
    ensures var c := s.calls[j]; t.calls[j].phase == Returned(c.phase.id, Success(reply(c.phase.id, c.body)))
  {
    hide ReadFrame, Written;
    var own := reply(s.calls[j].phase.id, s.calls[j].body);
    assert Sendable(own);
    assert s.session.unread == Written(own) + [];
    FrameRoundTrip(own, []);
    var read, take := Act(j, ReaderReads), Act(j, TakeResult);
    var u := Step(reply, s, read);
    more, t := [read, take], Step(reply, u, take);
    assert more[1..] == [take] && more[1..][1..] == [];
    assert Runs(reply, u, more[1..], t);
  }

  /** A call in its select is never lost: while the session is open, some further events end it with the server's answer
      to its own request, whatever has happened before. */
  lemma SelectingCanSucceed(reply: Replies, events: seq<Event>, s: State, j: nat) returns (more: seq<Event>, t: State)
    requires WellFormed(reply) && Runs(reply, Init(), events, s) && Open(s.session)
    requires j in s.calls && s.calls[j].phase.InFlight? && s.calls[j].phase.wait.Selecting?
    ensures Runs(reply, s, more, t) && j in t.calls
    ensures var c := s.calls[j]; t.calls[j].phase == Returned(c.phase.id, Success(reply(c.phase.id, c.body)))
  {
    RunKeeps(reply, Init(), events, s);
    SelectingWire(reply, s, j);
    hide Invariant, ReadFrame, Written, Expected;
    if s.calls[j].phase.ch.Some? {
      var e := Act(j, TakeResult);
      more, t := [e], Step(reply, s, e);
      assert more[1..] == [];
    } else {
      var first, u := ServerCatchesUp(reply, s);
      var second;
      second, t := ReadThenTake(reply, u, j);
      more := first + second;
      RunsConcat(reply, s, first, u, second, t);
    }
  }

  lemma {:induction false} RunsConcat(reply: Replies, s: State, first: seq<Event>, t: State, second: seq<Event>, u: State)
    requires Runs(reply, s, first, t) && Runs(reply, t, second, u)
    ensures Runs(reply, s, first + second, u)
    decreases |first|
  {
    if first == [] {
      assert first + second == second;
    } else {
      RunsConcat(reply, Step(reply, s, first[0]), first[1..], t, second, u);
      assert (first + second)[1..] == first[1..] + second;
    }
  }

  lemma RunsExtend(reply: Replies, s: State, first: seq<Event>, t: State, e: Event)
    requires Runs(reply, s, first, t) && Enabled(t, e)
    ensures Runs(reply, s, first + [e], Step(reply, t, e))
  {
    assert [e][1..] == [];
    assert Runs(reply, t, [e], Step(reply, t, e));
    RunsConcat(reply, s, first, t, [e], Step(reply, t, e));
  }

  /** A new call on a free, open session reaches its select under the next request id. */
  lemma NewCallIsWritten(reply: Replies, s: State, j: nat, body: seq<Byte>) returns (more: seq<Event>, t: State)
    requires Open(s.session) && !s.session.done && s.lock.None? && j !in s.calls
    ensures Runs(reply, s, more, t)
    ensures var id := s.session.nextId + 1;
            t == State(s.calls[j := Call(false, body, InFlight(id, None, Selecting))], s.closers, Some(j),
                       s.session.(nextId := id, inbox := s.session.inbox + [Request(id, body)]))
  {
    hide Runs, ReadFrame;
    var s1 := Step(reply, s, Arrive(j, false, body));
    var s2 := Step(reply, s1, Acquire(j));
    var s3 := Step(reply, s2, Act(j, Check));
    t := Step(reply, s3, Act(j, Write));
    assert Runs(reply, s, [], s) by { NothingRuns(reply, s); }
    RunsExtend(reply, s, [], s, Arrive(j, false, body));
    RunsExtend(reply, s, [] + [Arrive(j, false, body)], s1, Acquire(j));
    RunsExtend(reply, s, [] + [Arrive(j, false, body)] + [Acquire(j)], s2, Act(j, Check));
    more := [] + [Arrive(j, false, body)] + [Acquire(j)] + [Act(j, Check)] + [Act(j, Write)];
    RunsExtend(reply, s, [] + [Arrive(j, false, body)] + [Acquire(j)] + [Act(j, Check)], s3, Act(j, Write));
  }

  lemma NothingRuns(reply: Replies, s: State)
    ensures Runs(reply, s, [], s)
  {
  }

  /** From every reachable state in which the session is open and the mutex free, a new request can be served: it gets the
      next id and the server's answer to that id. */
  lemma NewCallCanSucceed(reply: Replies, events: seq<Event>, s: State, j: nat, body: seq<Byte>)
    returns (more: seq<Event>, t: State)
    requires WellFormed(reply) && Runs(reply, Init(), events, s) && Open(s.session) && s.lock.None? && j !in s.calls
    ensures Runs(reply, s, more, t) && j in t.calls
    ensures var id := s.session.nextId + 1;
            t.calls[j] == Call(false, body, Returned(id, Success(reply(id, body))))
  {
    RunKeeps(reply, Init(), events, s);
    assert !s.session.done;
    hide Runs, Invariant;
    var first, u := NewCallIsWritten(reply, s, j, body);
    RunsConcat(reply, Init(), events, s, first, u);
    var second;
    second, t := SelectingCanSucceed(reply, events + first, u, j);
    more := first + second;
    RunsConcat(reply, s, first, u, second, t);
    StoredStays(reply, u, second, t, j);
  }

  /** What a call asks for never changes. */
  lemma {:induction false} StoredStays(reply: Replies, s: State, events: seq<Event>, t: State, j: nat)
    requires Runs(reply, s, events, t) && j in s.calls
    ensures j in t.calls && t.calls[j].notify == s.calls[j].notify && t.calls[j].body == s.calls[j].body
    decreases |events|
  {
    hide CanAct, ActOn, CanServe, Serve;
    if events != [] { StoredStays(reply, Step(reply, s, events[0]), events[1..], t, j); }
  }

  /** The first request of a session is answered as request 1. */
  lemma FirstCallCanSucceed(reply: Replies, j: nat, body: seq<Byte>) returns (more: seq<Event>, t: State)
    requires WellFormed(reply)
    ensures Runs(reply, Init(), more, t) && j in t.calls
    ensures t.calls[j] == Call(false, body, Returned(1, Success(reply(1, body))))
  {
    NothingRuns(reply, Init());
    more, t := NewCallCanSucceed(reply, [], Init(), j, body);
  }

  /** A notification on a free session that takes messages is written and returns at once. */
  lemma NotificationIsWritten(reply: Replies, s: State, j: nat, body: seq<Byte>) returns (more: seq<Event>, t: State)
    requires !s.session.stdinClosed && !s.session.exited && s.lock.None? && j !in s.calls
    ensures Runs(reply, s, more, t)
    ensures t == State(s.calls[j := Call(true, body, Returned(0, Sent))], s.closers, None,
                       s.session.(inbox := s.session.inbox + [Notification(body)]))
  {
    hide Runs, ReadFrame;
    var s1 := Step(reply, s, Arrive(j, true, body));
    var s2 := Step(reply, s1, Acquire(j));
    t := Step(reply, s2, Act(j, Write));
    assert Runs(reply, s, [], s) by { NothingRuns(reply, s); }
    RunsExtend(reply, s, [], s, Arrive(j, true, body));
    RunsExtend(reply, s, [] + [Arrive(j, true, body)], s1, Acquire(j));
    RunsExtend(reply, s, [] + [Arrive(j, true, body)] + [Acquire(j)], s2, Act(j, Write));
    more := [] + [Arrive(j, true, body)] + [Acquire(j)] + [Act(j, Write)];
  }

  function CloseAll(w: Session): Session { w.(stdinClosed := true, stdoutClosed := true, done := true) }

  /** A close from outside ends with both pipes closed and the session done, and moves no call. */
  lemma ShutdownCloses(reply: Replies, s: State, k: nat) returns (more: seq<Event>, t: State)
    requires k !in s.closers
    ensures Runs(reply, s, more, t)
    ensures t == s.(closers := s.closers[k := 4], session := CloseAll(s.session))
  {
    hide Runs, CanAct, ActOn, CanServe, Serve;
    var e := ShutdownStep(k);
    var s0 := Step(reply, s, Shutdown(k));
    var s1 := Step(reply, s0, e);
    var s2 := Step(reply, s1, e);
    var s3 := Step(reply, s2, e);
    t := Step(reply, s3, e);
    assert Runs(reply, s, [], s) by { NothingRuns(reply, s); }
    RunsExtend(reply, s, [], s, Shutdown(k));
    RunsExtend(reply, s, [] + [Shutdown(k)], s0, e);
    RunsExtend(reply, s, [] + [Shutdown(k)] + [e], s1, e);
    RunsExtend(reply, s, [] + [Shutdown(k)] + [e] + [e], s2, e);
    RunsExtend(reply, s, [] + [Shutdown(k)] + [e] + [e] + [e], s3, e);
    more := [] + [Shutdown(k)] + [e] + [e] + [e] + [e];
  }

  predicate InSelect(s: State, j: nat) {
    j in s.calls && s.calls[j].phase.InFlight? && s.calls[j].phase.wait.Selecting?
  }

  function AtWait(s: State, j: nat, wait: Wait, w: Session): State
    requires InSelect(s, j)
  {
    s.(calls := s.calls[j := s.calls[j].(phase := s.calls[j].phase.(wait := wait))], session := w)
  }

  /** A cancelled call closes the session itself before it waits for its reader. */
  lemma CancelCloses(reply: Replies, s: State, j: nat) returns (more: seq<Event>)
    requires InSelect(s, j)
    ensures Runs(reply, s, more, AtWait(s, j, Draining(Cancelled), CloseAll(s.session)))
  {
    var e := Act(j, CloseStep);
    var w := s.session;
    var s0 := AtWait(s, j, Closing(0), w);
    var s1 := AtWait(s, j, Closing(1), w.(stdinClosed := true));
    var s2 := AtWait(s, j, Closing(2), w.(stdinClosed := true, stdoutClosed := true));
    var s3 := AtWait(s, j, Closing(3), w.(stdinClosed := true, stdoutClosed := true));
    NothingRuns(reply, s);
    CancelStep(reply, s, j);
    CloseOne(reply, s, j, w, 0);
    CloseOne(reply, s, j, s1.session, 1);
    CloseOne(reply, s, j, s2.session, 2);
    CloseOne(reply, s, j, s3.session, 3);
    hide Runs, Step, Enabled, AtWait;
    RunsExtend(reply, s, [], s, Act(j, SeeCancel));
    RunsExtend(reply, s, [] + [Act(j, SeeCancel)], s0, e);
    RunsExtend(reply, s, [] + [Act(j, SeeCancel)] + [e], s1, e);
    RunsExtend(reply, s, [] + [Act(j, SeeCancel)] + [e] + [e], s2, e);
    RunsExtend(reply, s, [] + [Act(j, SeeCancel)] + [e] + [e] + [e], s3, e);
    more := [] + [Act(j, SeeCancel)] + [e] + [e] + [e] + [e];
  }

  lemma CancelStep(reply: Replies, s: State, j: nat)
    requires InSelect(s, j)
    ensures Enabled(s, Act(j, SeeCancel)) && Step(reply, s, Act(j, SeeCancel)) == AtWait(s, j, Closing(0), s.session)
  {
    hide ReadFrame;
  }

  lemma CloseOne(reply: Replies, s: State, j: nat, w: Session, k: nat)
    requires InSelect(s, j) && k < 4
    ensures var u := AtWait(s, j, Closing(k), w);
            && Enabled(u, Act(j, CloseStep))
            && Step(reply, u, Act(j, CloseStep)) ==
               AtWait(s, j, if k < 3 then Closing(k + 1) else Draining(Cancelled), CloseEffect(w, k))
  {
    hide ReadFrame, CloseEffect;
  }

  /** Once its pipe is dead, a call that left its select returns with the outcome it left with, and frees the mutex. */
  lemma DrainingReturns(reply: Replies, s: State, j: nat) returns (more: seq<Event>, t: State)
    requires j in s.calls && s.calls[j].phase.InFlight? && s.calls[j].phase.wait.Draining? && ReadsDead(s.session)
    ensures Runs(reply, s, more, t)
    ensures var p := s.calls[j].phase;
            t == s.(calls := s.calls[j := s.calls[j].(phase := Returned(p.id, p.wait.outcome))], lock := None)
  {
    hide Runs, ReadFrame;
    assert Runs(reply, s, [], s) by { NothingRuns(reply, s); }
    var read, drain := Act(j, ReaderFails(0, BodyEof)), Act(j, Action.Drain);
    if s.calls[j].phase.ch.None? {
      var u := Step(reply, s, read);
      RunsExtend(reply, s, [], s, read);
      RunsExtend(reply, s, [] + [read], u, drain);
      more, t := [] + [read] + [drain], Step(reply, u, drain);
    } else {
      RunsExtend(reply, s, [], s, drain);
      more, t := [] + [drain], Step(reply, s, drain);
    }
  }

  /** A call cancelled in its select can always return so, leaving the session closed and the mutex free: it needs nothing
      from the server. */
  lemma CancelledCanReturn(reply: Replies, s: State, j: nat) returns (more: seq<Event>, t: State)
    requires InSelect(s, j)
    ensures Runs(reply, s, more, t)
    ensures t == State(s.calls[j := s.calls[j].(phase := Returned(s.calls[j].phase.id, Cancelled))], s.closers, None,
                       CloseAll(s.session))
  {
    hide Runs;
    var u := AtWait(s, j, Draining(Cancelled), CloseAll(s.session));
    var first := CancelCloses(reply, s, j);
    var second;
    second, t := DrainingReturns(reply, u, j);
    more := first + second;
    RunsConcat(reply, s, first, u, second, t);
  }

  /** When the server exits, a call in its select can return unavailable. */
  lemma CrashFreesCall(reply: Replies, s: State, j: nat) returns (more: seq<Event>, t: State)
    requires InSelect(s, j)
    ensures Runs(reply, s, more, t)
    ensures t == State(s.calls[j := s.calls[j].(phase := Returned(s.calls[j].phase.id, Unavailable))], s.closers, None,
                       s.session.(exited := true, done := true))
  {
    hide Runs, ReadFrame;
    var exit, seen, leave := Server(Exits), Server(CrashSeen), Act(j, SeeDone);
    var s1 := Step(reply, s, exit);
    var s2 := Step(reply, s1, seen);
    var u := Step(reply, s2, leave);
    assert Runs(reply, s, [], s) by { NothingRuns(reply, s); }
    RunsExtend(reply, s, [], s, exit);
    RunsExtend(reply, s, [] + [exit], s1, seen);
    RunsExtend(reply, s, [] + [exit] + [seen], s2, leave);
    var first := [] + [exit] + [seen] + [leave];
    assert u == AtWait(s, j, Draining(Unavailable), s.session.(exited := true, done := true));
    var second;
    second, t := DrainingReturns(reply, u, j);
    more := first + second;
    RunsConcat(reply, s, first, u, second, t);
  }

  // ---------------------------------------------------------------- why a call ends as it does

  /** What the events so far say about the phase of call `j`: which way it left its select, and by which event it returned. */
  predicate Explained(j: nat, p: Phase, past: seq<Event>) {
    && (Act(j, SeeCancel) in past <==>
        || (p.InFlight? && (p.wait.Closing? || p.wait == Draining(Cancelled)))
        || (p.Returned? && p.outcome == Cancelled))
    && (Act(j, SeeDone) in past ==>
        (p.InFlight? && p.wait == Draining(Unavailable)) || (p.Returned? && p.outcome == Unavailable))
    && (p.InFlight? && p.wait.Draining? ==> p.wait == Draining(Cancelled) || Act(j, SeeDone) in past)
    && (Act(j, TakeResult) in past <==> p.Returned? && (p.outcome.Success? || p.outcome == ReadError))
    && (Act(j, MarshalFails) in past <==> p.Returned? && p.outcome == MarshalError)
    && (Act(j, WriteFails) in past <==> p.Returned? && p.outcome == WriteError)
    && (Act(j, Write) in past <==> p.InFlight? || (p.Returned? && (p.outcome.Sent? || p.outcome.Success?
                                                 || p.outcome in {ReadError, Cancelled} || Act(j, SeeDone) in past)))
    && (p.Returned? && p.outcome == Unavailable ==> Act(j, SeeDone) in past || Act(j, Check) in past)
  }

  lemma ActExplained(w: Session, c: Call, j: nat, a: Action, past: seq<Event>)
    requires CanAct(w, c.phase, a) && Explained(j, c.phase, past)
    ensures Explained(j, ActOn(w, c, a).1, past + [Act(j, a)])
  {
    hide ReadFrame;
  }

  lemma StepExplained(reply: Replies, s: State, e: Event, j: nat, past: seq<Event>)
    requires Enabled(s, e) && j in Step(reply, s, e).calls
    requires Explained(j, if j in s.calls then s.calls[j].phase else Blocked, past)
    ensures Explained(j, Step(reply, s, e).calls[j].phase, past + [e])
  {
    hide CanAct, ActOn, CanServe, Serve;
    if e.Act? && e.j == j { ActExplained(s.session, s.calls[j], j, e.a, past); }
  }

  lemma {:induction false} RunExplained(
    reply: Replies, s: State, past: seq<Event>, events: seq<Event>, t: State, j: nat)
    requires Runs(reply, s, events, t) && j in t.calls
    requires Explained(j, if j in s.calls then s.calls[j].phase else Blocked, past)
    ensures Explained(j, t.calls[j].phase, past + events)
    decreases |events|
  {
    hide Explained, CanAct, ActOn, CanServe, Serve;
    if events == [] {
      assert past + events == past;
    } else {
      var u := Step(reply, s, events[0]);
      if j in u.calls {
        StepExplained(reply, s, events[0], j, past);
      } else {
        UnknownExplained(j, past, events[0], s);
      }
      RunExplained(reply, u, past + [events[0]], events[1..], t, j);
      assert past + [events[0]] + events[1..] == past + events;
    }
  }

  lemma UnknownExplained(j: nat, past: seq<Event>, e: Event, s: State)
    requires Enabled(s, e) && j !in s.calls && Explained(j, Blocked, past)
    ensures Explained(j, Blocked, past + [e])
  {
    hide CanAct, CanServe;
  }

  /** In every run each outcome has its own cause: a call ends cancelled exactly when it left its select by cancellation,
      with a frame or a read error exactly when it took its reader's result, with an encoding or a write error exactly when
      that step failed, without an answer only after writing, and unavailable only if it saw the session done. */
  lemma OutcomeByEvent(reply: Replies, events: seq<Event>, t: State, j: nat)
    requires Runs(reply, Init(), events, t) && j in t.calls && t.calls[j].phase.Returned?
    ensures var o := t.calls[j].phase.outcome;
            && (o == Cancelled <==> Act(j, SeeCancel) in events)
            && (o.Success? || o == ReadError <==> Act(j, TakeResult) in events)
            && (o == MarshalError <==> Act(j, MarshalFails) in events)
            && (o == WriteError <==> Act(j, WriteFails) in events)
            && (o.Sent? ==> Act(j, Write) in events)
            && (Act(j, SeeDone) in events ==> o == Unavailable)
            && (o == Unavailable ==> Act(j, SeeDone) in events || Act(j, Check) in events)
  {
    hide CanAct, ActOn, CanServe, Serve;
    RunExplained(reply, Init(), [], events, t, j);
    assert [] + events == events;
  }

  // ---------------------------------------------------------------- request ids

  function IdOf(p: Phase): nat { if p.Blocked? || p.Entered? then 0 else p.id }

  /** A call has an id of its own from before it is written, a notification has none. */
  predicate IdSound(c: Call) {
    && (c.phase.Entered? || c.phase.InFlight? ==> !c.notify)
    && (c.phase.Ready? ==> (c.phase.id > 0 <==> !c.notify))
    && (c.phase.InFlight? || (c.phase.Returned? && c.phase.outcome.Success?) ==> c.phase.id > 0)
  }

  predicate SameId(c: Call, d: Call) { IdOf(c.phase) == IdOf(d.phase) > 0 }

  /** Ids are handed out one after the other, each to one call. */
  ghost predicate IdsUnique(s: State) {
    && (forall j <- s.calls :: IdSound(s.calls[j]) && IdOf(s.calls[j].phase) <= s.session.nextId)
    && (forall i <- s.calls, j <- s.calls :: i != j ==> !SameId(s.calls[i], s.calls[j]))
  }

  /** A step keeps the id of its call, drops it, or hands out the next one. */
  lemma ActIds(w: Session, c: Call, a: Action)
    requires CanAct(w, c.phase, a) && IdSound(c) && IdOf(c.phase) <= w.nextId
    ensures var (v, p) := ActOn(w, c, a);
            && IdSound(c.(phase := p)) && w.nextId <= v.nextId && IdOf(p) <= v.nextId
            && (IdOf(p) in {0, IdOf(c.phase)} || IdOf(p) > w.nextId)
  {
    hide ReadFrame;
  }

  lemma ActIdsKept(reply: Replies, s: State, j: nat, a: Action)
    requires IdsUnique(s) && Enabled(s, Act(j, a))
    ensures IdsUnique(Step(reply, s, Act(j, a)))
  {
    hide CanAct, ActOn, IdSound, Holds;
    ActIds(s.session, s.calls[j], a);
    var t := Step(reply, s, Act(j, a));
    forall i <- s.calls | i != j ensures !SameId(t.calls[i], t.calls[j]) && !SameId(t.calls[j], t.calls[i]) {
      assert !SameId(s.calls[i], s.calls[j]);
    }
  }

  lemma IdsKept(reply: Replies, s: State, e: Event)
    requires IdsUnique(s) && Enabled(s, e)
    ensures IdsUnique(Step(reply, s, e))
  {
    hide CanAct, ActOn, CanServe;
    if e.Act? {
      hide IdsUnique, Step, Enabled;
      ActIdsKept(reply, s, e.j, e.a);
    } else {
      assert Step(reply, s, e).session.nextId == s.session.nextId;
      hide Serve, CloseEffect;
    }
  }

  lemma {:induction false} RunIds(reply: Replies, s: State, events: seq<Event>, t: State)
    requires IdsUnique(s) && Runs(reply, s, events, t)
    ensures IdsUnique(t)
    decreases |events|
  {
    hide CanAct, ActOn, CanServe, Serve, IdsUnique;
    if events != [] {
      IdsKept(reply, s, events[0]);
      RunIds(reply, Step(reply, s, events[0]), events[1..], t);
    }
  }

  /** No two calls ever succeed under the same request id. */
  lemma SuccessIdsDiffer(reply: Replies, events: seq<Event>, t: State, i: nat, j: nat)
    requires Runs(reply, Init(), events, t) && Succeeded(t, i) && Succeeded(t, j) && i != j
    ensures t.calls[i].phase.id != t.calls[j].phase.id && t.calls[i].phase.id > 0
  {
    RunIds(reply, Init(), events, t);
    assert IdOf(t.calls[i].phase) > 0;
  }
}
