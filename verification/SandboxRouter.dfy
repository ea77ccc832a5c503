/** The sandbox router's own protocol for an app primitive: call, verify by the legacy endpoint, roll back by the
    legacy endpoint. */
module SandboxRouter {
  import opened Common
  import opened Json
  import opened AppManifest
  import opened PrimitiveExecutor

  // What one socket call brings: the decoded result (null when there is none), no connection, or another error.
  datatype Answer = Answered(doc: Json) | Unreachable | CallError

  // An app sees the whole history of calls.
  type App = (seq<Call>, Call) -> Answer

  datatype RouteError = CallFailed | VerifyError | VerifyFailed | NotRecovered
  datatype Routed = Routed(data: Json) | NotRouted(error: RouteError)

  // `log`: the calls made; `lost`: the app was reported unavailable.
  datatype Route = Route(log: seq<Call>, lost: bool, outcome: Routed)

  function OrEmpty(params: RawJson): RawJson { if params.Absent? then Value(JObj(map[])) else params }

  /** One socket call; parameters that are not JSON cannot be sent. */
  function Ask(app: App, log: seq<Call>, c: Call): Answer {
    var a := app(log, c);
    if c.params.Malformed? && a.Answered? then CallError else a
  }

  /** A verify result passes unless it is an object whose `passed` is the boolean false. */
  predicate ResultPassed(data: Json) {
    !(data.JObj? && "passed" in data.fields && data.fields["passed"] == JBool(false))
  }

  /** The rollback parameters built from a call, its result and its failed verification. */
  function RouterEnvelope(name: string, params: RawJson, result: Json, verify: Json): RawJson {
    if params.Malformed? then Malformed
    else Value(JObj(map["primitive" := JStr(name), "params" := OrEmpty(params).doc, "result" := result,
                        "verify" := verify]))
  }

  function MainCall(name: string, params: RawJson): Call { Call(name, OrEmpty(params)) }

  function CheckCall(m: Manifest, params: RawJson): Call { Call(m.verifyEndpoint, OrEmpty(params)) }

  function UndoCall(m: Manifest, name: string, params: RawJson, result: Json, v: Answer): Call {
    Call(m.rollbackEndpoint, RouterEnvelope(name, params, result, if v.Answered? then v.doc else JNull))
  }

  function RouteApp(app: App, log: seq<Call>, m: Manifest, name: string, params: RawJson): Route {
    var main, check := MainCall(name, params), CheckCall(m, params);
    var r := Ask(app, log, main);
    var log1 := log + [main];
    if !r.Answered? then Route(log1, r.Unreachable?, NotRouted(CallFailed))
    else if m.verifyEndpoint == "" then Route(log1, false, Routed(r.doc))
    else
      var v := Ask(app, log1, check);
      var log2 := log1 + [check];
      if v.Answered? && ResultPassed(v.doc) then Route(log2, false, Routed(r.doc))
      else
        var error := if !v.Answered? then VerifyError else if m.rollbackEndpoint == "" then NotRecovered else VerifyFailed;
        if m.rollbackEndpoint == "" then Route(log2, v.Unreachable?, NotRouted(error))
        else
          var undo := UndoCall(m, name, params, r.doc, v);
          Route(log2 + [undo], v.Unreachable? || Ask(app, log2, undo).Unreachable?, NotRouted(error))
  }

  /** The router as it runs: calls in sequence over fresh connections. */
  class Router {
    const app: App
    var log: seq<Call>
    var lost: bool

    constructor (app: App)
      ensures this.app == app && log == [] && !lost
    {
      this.app := app;
      log, lost := [], false;
    }

    method CallSocket(c: Call) returns (a: Answer)
      modifies this
      ensures a == Ask(app, old(log), c) && log == old(log) + [c]
      ensures lost == (old(lost) || a.Unreachable?)
    {
      a := app(log, c);
      if a.Unreachable? {
        lost := true;
      } else if c.params.Malformed? {
        a := CallError;
      }
      log := log + [c];
    }

    method RoutePrimitive(m: Manifest, name: string, params: RawJson) returns (outcome: Routed)
      modifies this
      ensures var route := RouteApp(app, old(log), m, name, params);
              outcome == route.outcome && log == route.log && lost == (old(lost) || route.lost)
    {
      var result := CallSocket(MainCall(name, params));
      if !result.Answered? {
        return NotRouted(CallFailed);
      }
      if m.verifyEndpoint != "" {
        var verdict := CallSocket(CheckCall(m, params));
        if !(verdict.Answered? && ResultPassed(verdict.doc)) {
          if m.rollbackEndpoint != "" {
            var _ := CallSocket(UndoCall(m, name, params, result.doc, verdict));
          }
          if !verdict.Answered? {
            return NotRouted(VerifyError);
          }
          return NotRouted(if m.rollbackEndpoint == "" then NotRecovered else VerifyFailed);
        }
      }
      return Routed(result.doc);
    }
  }
}

/** What the router and the step engine make of the same normalised manifest. */
module RouterTheorems {
  import opened Common
  import opened Json
  import opened Cvr
  import opened AppManifest
  import opened ManifestNormalizer
  import opened SandboxRouter
  import PrimitiveExecutor
  import StepEngine

  /** A routed call succeeds exactly when the primitive answered and its verification, if there is an endpoint for
      one, answered and passed; then it yields the primitive's own result and nothing was rolled back. A rollback is
      called exactly when verification did not pass and there is an endpoint for it, each error has its own cause, and
      the app is reported unavailable exactly when one of the calls made found no connection. */
  lemma RouteMeaning(app: App, log: seq<PrimitiveExecutor.Call>, m: Manifest, name: string, params: RawJson)
    ensures var route := RouteApp(app, log, m, name, params);
            var main, check := MainCall(name, params), CheckCall(m, params);
            var r, v := Ask(app, log, main), Ask(app, log + [main], check);
            var passed := m.verifyEndpoint == "" || (v.Answered? && ResultPassed(v.doc));
            && (route.outcome.Routed? <==> r.Answered? && passed)
            && (route.outcome.Routed? ==> route.outcome == Routed(r.doc))
            && route.log == log + [main]
                 + (if r.Answered? && m.verifyEndpoint != "" then [check] else [])
                 + (if r.Answered? && !passed && m.rollbackEndpoint != "" then [UndoCall(m, name, params, r.doc, v)] else [])
            && (route.outcome == NotRouted(CallFailed) <==> !r.Answered?)
            && (route.outcome == NotRouted(VerifyError) <==> r.Answered? && !passed && !v.Answered?)
            && (route.outcome == NotRouted(NotRecovered) <==>
                r.Answered? && !passed && v.Answered? && m.rollbackEndpoint == "")
            && (route.lost <==> exists k :: |log| <= k < |route.log| && app(route.log[..k], route.log[k]) == Unreachable)
  {
    hide ResultPassed, RouterEnvelope, OrEmpty;
    var route := RouteApp(app, log, m, name, params);
    var main, check := MainCall(name, params), CheckCall(m, params);
    var n := |log|;
    assert route.log[..n] == log && route.log[n] == main;
    assert |route.log| > n + 1 ==> route.log[..n + 1] == log + [main] && route.log[n + 1] == check;
    assert |route.log| > n + 2 ==> route.log[..n + 2] == log + [main] + [check];
  }

  /** Parameters that are not JSON are refused before anything is sent; all others reach the app as they are. */
  lemma UnsendableIsRefused(app: App, log: seq<PrimitiveExecutor.Call>, m: Manifest, name: string, params: RawJson)
    ensures var route := RouteApp(app, log, m, name, params);
            params.Malformed? ==> route.outcome == NotRouted(CallFailed) && route.log == log + [MainCall(name, params)]
    ensures var main, check := MainCall(name, params), CheckCall(m, params);
            !params.Malformed? ==>
              && Ask(app, log, main) == app(log, main)
              && Ask(app, log + [main], check) == app(log + [main], check)
  {
    hide ResultPassed;
  }

  /** How the goal engine's executor reports a routed call. */
  function AsReply(routed: Routed, ws: Workspace): PrimitiveExecutor.Reply {
    match routed
    case Routed(doc) => PrimitiveExecutor.Reply(Some(PrimitiveExecutor.StepResult(true, Value(doc), None)), None, ws)
    case NotRouted(_) =>
      var error := PrimitiveExecutor.StepError(PrimitiveExecutor.Environment, "route error");
      PrimitiveExecutor.Reply(Some(PrimitiveExecutor.StepResult(false, Absent, Some(error))),
                              Some(PrimitiveExecutor.Failure("route error")), ws)
  }

  // ---------------------------------------------------------------- verification

  /** The two layers verify a normalised manifest's primitive with the same call, absent parameters aside; where the
      router verifies nothing, the engine runs the declared command, nothing, or its own default. */
  lemma VerifyViewsAgree(lower: Casing, m: Manifest, env: StepEngine.Env, w: PrimitiveExecutor.World, step: StepEngine.Step)
    requires Normalize(lower, m).Ok? && env.lookup(w, 2) == Some(Normalize(lower, m).manifest)
    ensures var n := Normalize(lower, m).manifest;
            var chosen := StepEngine.ChooseStrategy(env, w, step);
            var call := if chosen.Some? then StrategyCall(chosen.value) else None;
            && (n.verifyEndpoint != "" ==>
                  call.Some? && CheckCall(n, step.input) == call.value.(params := OrEmpty(call.value.params)))
            && (n.verifyEndpoint == "" ==>
                  if n.verify.None? then chosen == env.strategy
                  else call == None || call.value.name == "verify.command")
  {
    hide Normalize;
    EndpointsMatchDeclarations(lower, m);
    StrategiesKnown(lower, m);
  }

  /** The engine looks one `result` member deeper. */
  predicate Wrapped(f: map<string, Json>) { "result" in f && (f["result"].JObj? || f["result"].JNull?) }

  predicate Decides(f: map<string, Json>, name: string) { name in f && (f[name].JBool? || f[name].JNull?) }

  predicate Denies(f: map<string, Json>, name: string) { Decides(f, name) && f[name] != JBool(true) }

  /** The first of passed, ok and consistent that is a boolean or null is not true. */
  predicate Negative(f: map<string, Json>) {
    || Denies(f, "passed")
    || (!Decides(f, "passed") && Denies(f, "ok"))
    || (!Decides(f, "passed") && !Decides(f, "ok") && Denies(f, "consistent"))
  }

  /** Both layers read the same verdict out of an answer. A plain answer: its `passed` is a boolean, or nothing in it
      is negative. An answer wrapped around null: its `passed` is not false. One wrapped around an object: its `passed`
      is false and that object is negative, or neither. */
  predicate SameVerdict(doc: Json) {
    doc.JObj? ==>
      var f := doc.fields;
      var outerFails := "passed" in f && f["passed"] == JBool(false);
      if !Wrapped(f) then ("passed" in f && f["passed"].JBool?) || !Negative(f)
      else if f["result"].JNull? then !outerFails
      else (outerFails && Negative(f["result"].fields)) || (!outerFails && !Negative(f["result"].fields))
  }

  predicate EnginePassed(verify: AppVerify, params: RawJson, answer: Routed, ws: Workspace) {
    Judge(AppDeclared(verify, params), AsReply(answer, ws)) == Passed
  }

  /** Given the same answer to the verify call, router and engine agree on whether it passed exactly when the answer
      reads the same to both; a call that failed fails both. */
  lemma VerdictsAgreeIff(verify: AppVerify, params: RawJson, doc: Json, error: RouteError, ws: Workspace)
    ensures (ResultPassed(doc) <==> EnginePassed(verify, params, Routed(doc), ws)) <==> SameVerdict(doc)
    ensures !EnginePassed(verify, params, NotRouted(error), ws)
  {
    assert Data(AsReply(Routed(doc), ws)) == if doc.JObj? then doc.fields else map[];
    if doc.JObj? && !Wrapped(doc.fields) {
      assert Unwrap(doc.fields) == doc.fields;
    } else if !doc.JObj? {
      assert Unwrap(map[]) == map[];
    }
  }

  /** What the engine reads out of an answer that is an object. */
  lemma EngineReads(verify: AppVerify, params: RawJson, f: map<string, Json>, ws: Workspace)
    ensures EnginePassed(verify, params, Routed(JObj(f)), ws) <==> !Negative(Unwrap(f))
  {
    assert Data(AsReply(Routed(JObj(f)), ws)) == f;
  }

  const NOT_OK: map<string, Json> := map["ok" := JBool(false)]
  const NULL_PASS: map<string, Json> := map["passed" := JNull]
  const INNER_FAIL: map<string, Json> := map["result" := JObj(map["passed" := JBool(false)])]
  const OUTER_FAIL: map<string, Json> := map["passed" := JBool(false), "result" := JObj(map["passed" := JBool(true)])]

  /** Four answers on which they differ: a negative `ok`, a null `passed`, a failure inside `result`, and an outer
      failure over an inner pass. Only the last one is failed by the router and passed by the engine. */
  lemma VerdictsDiffer(verify: AppVerify, params: RawJson, ws: Workspace)
    ensures forall f <- {NOT_OK, NULL_PASS, INNER_FAIL} ::
              ResultPassed(JObj(f)) && !EnginePassed(verify, params, Routed(JObj(f)), ws)
    ensures !ResultPassed(JObj(OUTER_FAIL)) && EnginePassed(verify, params, Routed(JObj(OUTER_FAIL)), ws)
  {
    hide EnginePassed;
    forall f { EngineReads(verify, params, f, ws); }
  }

  // ---------------------------------------------------------------- rollback

  /** Both layers roll back by the same primitive. The engine makes no call where there is no endpoint, restores the
      workspace where the endpoint is state.restore, which the router sends to the app like any other, and refuses
      where the step's input is not an object. */
  lemma RollbackViewsAgree(lower: Casing, m: Manifest, env: StepEngine.Env, w: PrimitiveExecutor.World, step: StepEngine.Step,
                           result: Option<PrimitiveExecutor.StepResult>, c: StepEngine.CvrRun)
    requires Normalize(lower, m).Ok? && Normalize(lower, m).manifest.rollback.Some?
    ensures var endpoint := Normalize(lower, m).manifest.rollbackEndpoint;
            var run := StepEngine.AppRollbackRun(env, w, step, result, c, Normalize(lower, m).manifest.rollback.value);
            var payload := StepEngine.RollbackPayload(step, result, c);
            && run.err != Some(StepEngine.EmptyPrimitive)
            && (endpoint == "" ==> run == StepEngine.RollbackRun(w, None))
            && (endpoint == PrimitiveExecutor.RESTORE ==>
                  run == StepEngine.WorkspaceRestore(env, w, c.checkpointId, StepEngine.MissingTarget))
            && (endpoint !in {"", PrimitiveExecutor.RESTORE} ==>
                  if payload.None? then run == StepEngine.RollbackRun(w, Some(StepEngine.BadPayload))
                  else run.world.trace == w.trace + [PrimitiveExecutor.Call(endpoint, Value(payload.value))])
  {
    hide Normalize, StepEngine.RollbackPayload;
    EndpointsMatchDeclarations(lower, m);
    StrategiesKnown(lower, m);
  }

  /** The two envelopes name the same primitive, parameters and result whenever the engine builds one for parameters
      that were given and a result that is not null. They differ in the rest: the engine adds its checkpoint id and
      reports the verification as an outcome, the router passes the verify answer on as it came. */
  lemma EnvelopesShare(step: StepEngine.Step, doc: Json, error: Option<PrimitiveExecutor.StepError>, success: bool,
                       c: StepEngine.CvrRun, verify: Json)
    requires step.input.Value? && doc != JNull
    ensures var payload := StepEngine.RollbackPayload(step, Some(PrimitiveExecutor.StepResult(success, Value(doc), error)), c);
            var envelope := RouterEnvelope(step.primitive, step.input, doc, verify);
            && (payload.Some? <==> step.input.doc.JObj? || step.input.doc.JNull?)
            && (payload.Some? ==>
                  && payload.value.JObj? && envelope.Value? && envelope.doc.JObj?
                  && (forall name <- {"primitive", "params", "result"} ::
                        && name in payload.value.fields && name in envelope.doc.fields
                        && payload.value.fields[name] == envelope.doc.fields[name])
                  && "checkpoint_id" in payload.value.fields && "checkpoint_id" !in envelope.doc.fields
                  && envelope.doc.fields["verify"] == verify)
  {
  }
}
