/** One job of the sandbox runtime: checkpoint, run, verify and, on failure, restore. */
module Transaction {
  import opened Common

  datatype SideEffect = NoEffect | Read | Write | Exec | OtherEffect
  datatype Schema = Schema(sideEffect: SideEffect, checkpointRequired: bool, verifierHint: string)

  datatype Code = NotFound | Permission | TimeoutCode | Validation | Execution | OtherCode

  // An error: its code if it is a primitive error, and whether its text mentions a timeout or an adapter.
  datatype Err = Err(code: Option<Code>, timeoutText: bool, adapterText: bool)

  // One execution of a primitive: the workspace it leaves, its answer, its error, whether its result says
  // "passed", and whether the call's deadline had passed when it returned.
  datatype Reply = Reply(workspace: Workspace, result: string, err: Option<Err>, passed: bool, expired: bool)

  datatype FailureKind = NoFailure | TimeoutFailure | TestFail | PolicyDenied | SyntaxFailure | EnvironmentFailure | UnknownFailure

  // Everything the runtime calls, per job: any primitive, any checkpointer, any restorer. `restore` yields
  // None when the snapshot was put back and otherwise the workspace a failed restore leaves.
  datatype Env = Env(
    raw: set<string>,
    schemas: map<string, Schema>,
    job: nat -> string,
    run: (nat, string, Workspace) -> Reply,
    checkpoint: (nat, Workspace) -> (Option<Err>, string),
    restore: (nat, Workspace) -> Option<Workspace>)

  datatype Answer = Answer(result: string, err: Option<Err>)
  datatype JobRun = JobRun(workspace: Workspace, answer: Answer)

  const NOT_FOUND := Err(Some(NotFound), false, false)
  const VERIFIER_FAILED := Err(Some(Execution), false, false)

  predicate Known(env: Env, name: string) {
    name in env.raw && name in env.schemas
  }

  function Classify(name: string, r: Reply): FailureKind {
    if r.expired then TimeoutFailure
    else if r.err.None? then
      if name in {"verify.test", "test.run", "repo.run_tests"} && !r.passed then TestFail else NoFailure
    else
      var e := r.err.value;
      if e.code == Some(Permission) then PolicyDenied
      else if e.code == Some(TimeoutCode) then TimeoutFailure
      else if e.code == Some(Validation) then SyntaxFailure
      else if e.timeoutText then TimeoutFailure
      else if e.adapterText then EnvironmentFailure
      else UnknownFailure
  }

  /** Which kind of failure a reply is: a passed deadline comes first; without an error only a test primitive that did not
      say it passed has failed; an error is judged by its code before its text. */
  lemma ClassifyIff(name: string, r: Reply)
    ensures var kind := Classify(name, r);
            var code := if r.err.Some? then r.err.value.code else None;
            var judged := code in {Some(Permission), Some(TimeoutCode), Some(Validation)};
            var byText := !r.expired && r.err.Some? && !judged;
            && (kind == TimeoutFailure <==>
                r.expired || code == Some(TimeoutCode) || (byText && r.err.value.timeoutText))
            && (kind == TestFail <==> !r.expired && r.err.None? && !r.passed &&
                                      (name == "verify.test" || name == "test.run" || name == "repo.run_tests"))
            && (kind == PolicyDenied <==> !r.expired && code == Some(Permission))
            && (kind == SyntaxFailure <==> !r.expired && code == Some(Validation))
            && (kind == EnvironmentFailure <==> byText && !r.err.value.timeoutText && r.err.value.adapterText)
            && (kind == UnknownFailure <==> byText && !r.err.value.timeoutText && !r.err.value.adapterText)
  {
  }

  predicate ShouldRestore(schema: Schema, kind: FailureKind, err: Option<Err>) {
    && err.Some?
    && schema.sideEffect in {Write, Exec}
    && kind in {TimeoutFailure, TestFail, UnknownFailure, EnvironmentFailure, SyntaxFailure}
  }

  predicate WantsCheckpoint(env: Env, name: string)
    requires name in env.schemas
  {
    env.schemas[name].checkpointRequired && name != "state.checkpoint" && name != "state.restore"
  }

  /** The verifier of a job, run without checkpoint, verification or restore of its own. */
  function VerifierReply(env: Env, j: nat, hint: string, ws: Workspace): Reply {
    if Known(env, hint) then env.run(j, hint, ws) else Reply(ws, "", Some(NOT_FOUND), false, false)
  }

  // ---- A job as the worker performs it, one outside call at a time --------------------------------

  // `id` is empty when no checkpoint was taken; `snapshot` is the workspace the id names.
  datatype Phase =
    | Fetched
    | Guarded(id: string, snapshot: Workspace)
    | Ran(id: string, snapshot: Workspace, reply: Reply)
    | Checked(id: string, snapshot: Workspace, reply: Reply, err: Option<Err>, kind: FailureKind)
    | Finished(answer: Answer)

  /** The next phase of job `j`, and the workspace it leaves. */
  function Advance(env: Env, j: nat, p: Phase, ws: Workspace): (r: (Phase, Workspace))
    requires !p.Finished?
  {
    var name := env.job(j);
    match p
    case Fetched =>
      if !Known(env, name) then (Finished(Answer("", Some(NOT_FOUND))), ws)
      else if !WantsCheckpoint(env, name) then (Guarded("", ws), ws)
      else
        var (err, id) := env.checkpoint(j, ws);
        if err.Some? then (Finished(Answer("", err)), ws) else (Guarded(id, ws), ws)
    case Guarded(id, snapshot) =>
      var r := env.run(j, name, ws);
      (Ran(id, snapshot, r), r.workspace)
    case Ran(id, snapshot, r) =>
      var hint := if name in env.schemas then env.schemas[name].verifierHint else "";
      if r.err.Some? || hint == "" || hint !in env.raw then (Checked(id, snapshot, r, r.err, Classify(name, r)), ws)
      else
        var v := VerifierReply(env, j, hint, ws);
        if v.err.Some? then (Checked(id, snapshot, r, v.err, TestFail), v.workspace)
        else if !v.passed then (Checked(id, snapshot, r, Some(VERIFIER_FAILED), TestFail), v.workspace)
        else (Checked(id, snapshot, r, None, Classify(name, r)), v.workspace)
    case Checked(id, snapshot, r, err, kind) =>
      var restoring := id != "" && name in env.schemas && ShouldRestore(env.schemas[name], kind, err);
      var left := env.restore(j, ws);
      (Finished(Answer(r.result, err)), if !restoring then ws else if left.None? then snapshot else left.value)
  }

  // ---- A job as a whole ---------------------------------------------------------------------------

  /** The workspace after the primitive and its verifier, before any restore, and the error they end with. */
  function Effect(env: Env, j: nat, ws: Workspace): (Workspace, Option<Err>)
    requires Known(env, env.job(j))
  {
    var name := env.job(j);
    var r := env.run(j, name, ws);
    var hint := env.schemas[name].verifierHint;
    if r.err.Some? || hint == "" || hint !in env.raw then (r.workspace, r.err)
    else
      var v := VerifierReply(env, j, hint, r.workspace);
      (v.workspace, if v.err.Some? then v.err else if v.passed then None else Some(VERIFIER_FAILED))
  }

  /** The primitive itself was refused by policy. */
  predicate OwnDenial(env: Env, j: nat, ws: Workspace) {
    var r := env.run(j, env.job(j), ws);
    !r.expired && r.err.Some? && r.err.value.code == Some(Permission)
  }

  /** The job has a checkpoint to go back to and an error that calls for going back. */
  predicate Undone(env: Env, j: nat, ws: Workspace)
    requires Known(env, env.job(j))
  {
    && WantsCheckpoint(env, env.job(j)) && env.checkpoint(j, ws).0.None? && env.checkpoint(j, ws).1 != ""
    && Effect(env, j, ws).1.Some?
    && env.schemas[env.job(j)].sideEffect in {Write, Exec}
    && !OwnDenial(env, j, ws)
  }

  /** What running job `j` in workspace `ws` does, without following the runtime's phases. */
  function RunJob(env: Env, j: nat, ws: Workspace): JobRun {
    if !Known(env, env.job(j)) then JobRun(ws, Answer("", Some(NOT_FOUND)))
    else if WantsCheckpoint(env, env.job(j)) && env.checkpoint(j, ws).0.Some? then
      JobRun(ws, Answer("", env.checkpoint(j, ws).0))
    else
      var (dirty, err) := Effect(env, j, ws);
      var answer := Answer(env.run(j, env.job(j), ws).result, err);
      if !Undone(env, j, ws) then JobRun(dirty, answer)
      else JobRun(if env.restore(j, dirty).None? then ws else env.restore(j, dirty).value, answer)
  }

  /** A phase reached by job `j` from the workspace `base` with the workspace now at `ws`. */
  ghost predicate Reached(env: Env, j: nat, base: Workspace, p: Phase, ws: Workspace) {
    var name := env.job(j);
    if p.Finished? then JobRun(ws, p.answer) == RunJob(env, j, base)
    else if p.Fetched? then ws == base
    else
      && Known(env, name)
      && p.snapshot == base
      && p.id == (if WantsCheckpoint(env, name) then env.checkpoint(j, base).1 else "")
      && (WantsCheckpoint(env, name) ==> env.checkpoint(j, base).0.None?)
      && (p.Guarded? ==> ws == base)
      && (!p.Guarded? ==> p.reply == env.run(j, name, base))
      && (p.Ran? ==> ws == p.reply.workspace)
      && (p.Checked? ==>
            && (ws, p.err) == Effect(env, j, base)
            && (p.err.Some? ==> (p.kind == PolicyDenied <==> OwnDenial(env, j, base)) && p.kind != NoFailure))
  }

  /** Every step of the worker keeps its job on the way to the result the job has as a whole. */
  lemma AdvanceReaches(env: Env, j: nat, base: Workspace, p: Phase, ws: Workspace)
    requires !p.Finished? && Reached(env, j, base, p, ws)
    ensures var (p', ws') := Advance(env, j, p, ws); Reached(env, j, base, p', ws')
  {
    match p
    case Fetched =>
    case Guarded(_, _) =>
    case Ran(_, _, r) => assert Advance(env, j, p, ws).0.Checked?;
    case Checked(id, _, _, err, kind) =>
      assert (id != "" && ShouldRestore(env.schemas[env.job(j)], kind, err)) <==> Undone(env, j, base);
  }

  /** The job took a checkpoint of its own and is of a kind that is undone on failure. */
  predicate Guards(env: Env, j: nat, ws: Workspace) {
    var name := env.job(j);
    && name in env.schemas && env.schemas[name].checkpointRequired && name !in {"state.checkpoint", "state.restore"}
    && env.checkpoint(j, ws).0.None? && env.checkpoint(j, ws).1 != ""
    && (env.schemas[name].sideEffect == Write || env.schemas[name].sideEffect == Exec)
  }

  /** The workspace a restore of `ws` leaves when called in `dirty`. */
  function Restored(env: Env, j: nat, ws: Workspace, dirty: Workspace): Workspace {
    match env.restore(j, dirty) case None => ws case Some(left) => left
  }

  /** What a job does, in terms of the calls it makes. An unknown job, or one whose checkpoint fails, changes nothing.
      Otherwise its primitive runs; if that gives no error and the schema names a registered verifier, that verifier runs
      on what the primitive left and its verdict alone decides whether the job is kept. A job that ends in an error is
      undone exactly when it is a checkpointed write or exec job and the error is not a denial of its own primitive. */
  lemma JobMeaning(env: Env, j: nat, ws: Workspace)
    ensures var name := env.job(j);
            var run := RunJob(env, j, ws);
            if name !in env.raw || name !in env.schemas then
              run == JobRun(ws, Answer("", Some(Err(Some(NotFound), false, false))))
            else if env.schemas[name].checkpointRequired && name !in {"state.checkpoint", "state.restore"} &&
                    env.checkpoint(j, ws).0.Some? then
              run == JobRun(ws, Answer("", env.checkpoint(j, ws).0))
            else
              var r := env.run(j, name, ws);
              var hint := env.schemas[name].verifierHint;
              && run.answer.result == r.result
              && (r.err.Some? ==>
                    var denied := !r.expired && r.err.value.code == Some(Permission);
                    && run.answer.err == r.err
                    && run.workspace ==
                       if Guards(env, j, ws) && !denied then Restored(env, j, ws, r.workspace) else r.workspace)
              && (r.err.None? && (hint == "" || hint !in env.raw) ==> run.answer.err.None? && run.workspace == r.workspace)
              && (r.err.None? && hint != "" && hint in env.raw && hint !in env.schemas ==>
                    && run.answer.err == Some(Err(Some(NotFound), false, false))
                    && run.workspace == if Guards(env, j, ws) then Restored(env, j, ws, r.workspace) else r.workspace)
              && (r.err.None? && hint != "" && hint in env.raw && hint in env.schemas ==>
                    var v := env.run(j, hint, r.workspace);
                    && (run.answer.err.None? <==> v.err.None? && v.passed)
                    && (run.answer.err.Some? ==>
                          run.answer.err == if v.err.Some? then v.err else Some(Err(Some(Execution), false, false)))
                    && run.workspace == if run.answer.err.Some? && Guards(env, j, ws)
                                        then Restored(env, j, ws, v.workspace) else v.workspace)
  {
  }

  /** If restores succeed, a job either leaves exactly its effect or, precisely when it is undone, nothing. */
  lemma FailedJobIsNoOp(env: Env, j: nat, ws: Workspace)
    requires Known(env, env.job(j))
    requires forall w :: env.restore(j, w) == None
    requires WantsCheckpoint(env, env.job(j)) ==> env.checkpoint(j, ws).0.None?
    ensures RunJob(env, j, ws).workspace == if Undone(env, j, ws) then ws else Effect(env, j, ws).0
  {
  }

  /** The runtime's own transaction, updating the workspace in place. */
  class Runtime {
    const env: Env
    var workspace: Workspace

    constructor (env: Env, workspace: Workspace)
      ensures this.env == env && this.workspace == workspace
    {
      this.env, this.workspace := env, workspace;
    }

    method Execute(j: nat) returns (answer: Answer)
      modifies this
      ensures JobRun(workspace, answer) == RunJob(env, j, old(workspace))
    {
      var name := env.job(j);
      if !Known(env, name) {
        return Answer("", Some(NOT_FOUND));
      }
      var schema := env.schemas[name];
      var id, snapshot := "", workspace;
      if WantsCheckpoint(env, name) {
        var (failed, taken) := env.checkpoint(j, workspace);
        if failed.Some? {
          return Answer("", failed);
        }
        id := taken;
      }
      var r := env.run(j, name, workspace);
      workspace := r.workspace;
      var err, kind := r.err, Classify(name, r);
      if err.None? && schema.verifierHint != "" && schema.verifierHint in env.raw {
        var v := VerifierReply(env, j, schema.verifierHint, workspace);
        workspace := v.workspace;
        if v.err.Some? || !v.passed {
          err := if v.err.Some? then v.err else Some(VERIFIER_FAILED);
          kind := TestFail;
        }
      }
      if id != "" && ShouldRestore(schema, kind, err) {
        var left := env.restore(j, workspace);
        workspace := if left.None? then snapshot else left.value;
      }
      answer := Answer(r.result, err);
    }
  }
}
