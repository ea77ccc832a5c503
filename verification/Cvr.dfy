/** Intents, verification strategies and the recovery decision tree of the checkpoint-verify-recover layer. */
module Cvr {
  import opened Common
  import opened Json
  import opened PrimitiveExecutor

  datatype Category = Mutation | Query | Verification | Rollback | OtherCategory
  datatype Risk = Low | Medium | High | OtherRisk
  datatype Intent = Intent(category: Category, reversible: bool, risk: Risk)

  // Unset is the zero value a result keeps when no outcome was ever computed.
  datatype Outcome = Unset | Passed | Failed | Skipped | Timeout | Errored
  datatype Action = NoAction | Retry | RollBack | Rewrite | Skip | Escalate | Abort | Unrecognised
  datatype FailureCause = ExecError | VerifyFail | DuplicateCall | TimeoutFailure

  datatype RecoveryCtx = RecoveryCtx(
    failure: FailureCause, attempt: nat, intent: Intent, outcome: Outcome, maxRetries: nat)

  datatype Node = Node(matches: RecoveryCtx -> bool, action: Action)
  type Tree = seq<Node>

  // The limit the coordinator passes to the tree, whatever the task's own limit is.
  const TREE_RETRIES: nat := 3

  /** The action of the first matching node; Abort when no node matches. */
  function Decide(tree: Tree, ctx: RecoveryCtx): Action {
    if tree == [] then Abort
    else if tree[0].matches(ctx) then tree[0].action
    else Decide(tree[1..], ctx)
  }

  /** In any tree the first matching node decides, and a tree without one aborts. */
  lemma {:induction false} FirstMatchDecides(tree: Tree, ctx: RecoveryCtx, i: nat)
    requires i <= |tree| && forall k :: 0 <= k < i ==> !tree[k].matches(ctx)
    ensures i < |tree| && tree[i].matches(ctx) ==> Decide(tree, ctx) == tree[i].action
    ensures i == |tree| ==> Decide(tree, ctx) == Abort
  {
    if i > 0 { FirstMatchDecides(tree[1..], ctx, i - 1); }
  }

  const IrreversibleMutationNode := Node((c: RecoveryCtx) => !c.intent.reversible && c.outcome == Failed, RollBack)
  const MaxAttemptsNode := Node((c: RecoveryCtx) => c.attempt >= c.maxRetries, Escalate)
  const DuplicateNode := Node((c: RecoveryCtx) => c.failure == DuplicateCall, Abort)
  const TimeoutNode := Node((c: RecoveryCtx) => c.failure == TimeoutFailure, Retry)
  const DefaultRetryNode := Node((c: RecoveryCtx) => true, Retry)

  function DefaultTree(): Tree {
    [IrreversibleMutationNode, MaxAttemptsNode, DuplicateNode, TimeoutNode, DefaultRetryNode]
  }

  /** The default tree as one table: which of its four actions is taken, and exactly when. */
  lemma DefaultDecision(ctx: RecoveryCtx)
    ensures var irrecoverable := !ctx.intent.reversible && ctx.outcome == Failed;
            && (Decide(DefaultTree(), ctx) == RollBack <==> irrecoverable)
            && (Decide(DefaultTree(), ctx) == Escalate <==> !irrecoverable && ctx.attempt >= ctx.maxRetries)
            && (Decide(DefaultTree(), ctx) == Retry <==>
                !irrecoverable && ctx.attempt < ctx.maxRetries && ctx.failure != DuplicateCall)
            && (Decide(DefaultTree(), ctx) == Abort <==>
                !irrecoverable && ctx.attempt < ctx.maxRetries && ctx.failure == DuplicateCall)
  {
    var t := DefaultTree();
    assert t[1..] == [MaxAttemptsNode, DuplicateNode, TimeoutNode, DefaultRetryNode];
    assert t[1..][1..] == [DuplicateNode, TimeoutNode, DefaultRetryNode];
    assert t[1..][1..][1..] == [TimeoutNode, DefaultRetryNode];
    assert t[1..][1..][1..][1..] == [DefaultRetryNode];
    assert Decide(t[1..][1..][1..][1..], ctx) == Retry;
    assert Decide(t[1..][1..][1..], ctx) == Retry;
    assert Decide(t[1..][1..], ctx) == if ctx.failure == DuplicateCall then Abort else Retry;
  }

  predicate ShouldCheckpoint(intent: Intent) {
    intent.category == Mutation && (!intent.reversible || intent.risk == High)
  }

  /** A verify declaration of an app primitive; the strategy is free text until it has been normalised. */
  datatype AppVerify = AppVerify(strategy: string, primitive: string, command: string)
  datatype AppRollback = AppRollback(strategy: string, primitive: string)

  datatype Strategy =
    | TestSuite(minTests: int, command: string, filter: string, timeoutSec: int)
    | AppDeclared(verify: AppVerify, params: RawJson)

  /** The one call a strategy makes, if any. */
  function StrategyCall(s: Strategy): Option<Call> {
    match s
    case TestSuite(_, command, filter, timeoutSec) =>
      var seconds := if timeoutSec <= 0 then 60 else timeoutSec;
      Some(Call("verify.test",
                Value(JObj(map["command" := JStr(command), "filter" := JStr(filter), "timeout_s" := JNum(seconds)]))))
    case AppDeclared(verify, params) =>
      if verify.strategy == "primitive" then Some(Call(verify.primitive, params))
      else if verify.strategy == "command" then
        Some(Call("verify.command", Value(JObj(map["command" := JStr(verify.command)]))))
      else None
  }

  /** Verify payloads may be wrapped once in a `result` member. */
  function Unwrap(data: map<string, Json>): map<string, Json> {
    if "result" !in data then data
    else match data["result"]
      case JObj(inner) => inner
      case JNull => map[]
      case _ => data
  }

  function Flag(data: map<string, Json>, key: string): Option<bool> {
    if key !in data then None
    else match data[key]
      case JBool(b) => Some(b)
      case JNull => Some(false)
      case _ => None
  }

  /** The first of the three verdict members that decodes as a boolean. */
  function Verdict(data: map<string, Json>): Option<bool> {
    if Flag(data, "passed").Some? then Flag(data, "passed")
    else if Flag(data, "ok").Some? then Flag(data, "ok")
    else Flag(data, "consistent")
  }

  /** Success as the coordinator sees it: a missing result without an error counts as success. */
  predicate Succeeded(r: Reply) {
    if r.result.None? then r.err.None? else r.result.value.success
  }

  function Data(r: Reply): map<string, Json> {
    if r.result.None? then map[] else Members(r.result.value.data)
  }

  /** The outcome a strategy draws from the reply to its call. */
  function Judge(s: Strategy, r: Reply): Outcome {
    match s
    case TestSuite(minTests, _, _, _) =>
      var data := Unwrap(Data(r));
      var total := if "total" in data && data["total"].JNum? then data["total"].n else 0;
      if r.err.Some? then Errored
      else if minTests > 0 && total < minTests then Failed
      else if Flag(data, "passed") == Some(true) then Passed else Failed
    case AppDeclared(_, _) =>
      if r.err.Some? then (if r.err.value == DeadlineExceeded then Timeout else Failed)
      else if !Succeeded(r) || Verdict(Unwrap(Data(r))) == Some(false) then Failed
      else Passed
  }

  /** The outcome of the primitive call itself. */
  function ExecutionOutcome(r: Reply): Outcome {
    if r.err == Some(DeadlineExceeded) then Timeout
    else if r.err.Some? then Errored
    else if Succeeded(r) then Passed
    else Failed
  }

  function FailureOf(r: Reply, outcome: Outcome): FailureCause {
    if outcome == Timeout then TimeoutFailure
    else if outcome == Failed then VerifyFail
    else if r.err == Some(DeadlineExceeded) then TimeoutFailure
    else if r.err.Some? || !Succeeded(r) then ExecError
    else VerifyFail
  }
}
