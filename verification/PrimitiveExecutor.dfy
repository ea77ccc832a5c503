/** The primitive executor seen by the orchestrator: an arbitrary system that answers calls and changes a
    workspace. Only two facts about it are fixed. A `state.checkpoint` answered without error and with a
    checkpoint id has stored the workspace under that id and left the workspace alone; a `state.restore`
    answered without error for a stored id has put that snapshot back. */
module PrimitiveExecutor {
  import opened Common
  import opened Json

  datatype FailureKind = Environment | TestFail | Syntax | TimedOut | Duplicate | Unknown
  datatype StepError = StepError(kind: FailureKind, message: string)
  datatype StepResult = StepResult(success: bool, data: RawJson, error: Option<StepError>)

  // Errors distinguished by `errors.Is`; DepthExceeded is the sentinel of the CVR layer.
  datatype Err = DeadlineExceeded | DepthExceeded | Failure(text: string)

  datatype Call = Call(name: string, params: RawJson)
  datatype Reply = Reply(result: Option<StepResult>, err: Option<Err>, workspace: Workspace)

  datatype World = World(workspace: Workspace, checkpoints: map<string, Workspace>, trace: seq<Call>)

  // A behaviour sees the whole history, so every run of every executor is a run of some behaviour.
  type Behaviour = (World, Call) -> Reply

  const CHECKPOINT := "state.checkpoint"
  const RESTORE := "state.restore"

  /** The checkpoint id carried by a `state.checkpoint` result, if it is a non-empty string. */
  function CheckpointId(result: Option<StepResult>): (id: Option<string>)
    ensures id.Some? ==> id.value != ""
  {
    if result.None? then None else
    var data := Members(result.value.data);
    if "checkpoint_id" in data && data["checkpoint_id"].JStr? && data["checkpoint_id"].s != ""
    then Some(data["checkpoint_id"].s) else None
  }

  function RestoreParams(id: string): RawJson {
    Value(JObj(map["checkpoint_id" := JStr(id)]))
  }

  function RestoreTarget(params: RawJson): Option<string> {
    var data := Members(params);
    if "checkpoint_id" in data && data["checkpoint_id"].JStr? then Some(data["checkpoint_id"].s) else None
  }

  /** The world after the executor has answered `c` with `r`. */
  function After(w: World, c: Call, r: Reply): World {
    var traced := w.(trace := w.trace + [c]);
    if c.name == CHECKPOINT then
      var id := CheckpointId(r.result);
      if r.err.None? && id.Some? then traced.(checkpoints := w.checkpoints[id.value := w.workspace]) else traced
    else if c.name == RESTORE && r.err.None? && RestoreTarget(c.params).Some? &&
            RestoreTarget(c.params).value in w.checkpoints then
      traced.(workspace := w.checkpoints[RestoreTarget(c.params).value])
    else
      traced.(workspace := r.workspace)
  }

  /** The executor as the engine holds it: an object whose state every call changes in place. */
  class Executor {
    const behaviour: Behaviour
    var workspace: Workspace
    var checkpoints: map<string, Workspace>
    var trace: seq<Call>

    constructor (behaviour: Behaviour, workspace: Workspace)
      ensures this.behaviour == behaviour && Current() == World(workspace, map[], [])
    {
      this.behaviour := behaviour;
      this.workspace := workspace;
      checkpoints := map[];
      trace := [];
    }

    function Current(): World
      reads this
    {
      World(workspace, checkpoints, trace)
    }

    method Execute(c: Call) returns (result: Option<StepResult>, err: Option<Err>)
      modifies this
      ensures var r := behaviour(old(Current()), c);
              result == r.result && err == r.err && Current() == After(old(Current()), c, r)
    {
      var r := behaviour(Current(), c);
      if c.name == CHECKPOINT {
        var id := CheckpointId(r.result);
        if r.err.None? && id.Some? {
          checkpoints := checkpoints[id.value := workspace];
        }
      } else {
        var target := RestoreTarget(c.params);
        if c.name == RESTORE && r.err.None? && target.Some? && target.value in checkpoints {
          workspace := checkpoints[target.value];
        } else {
          workspace := r.workspace;
        }
      }
      trace := trace + [c];
      result, err := r.result, r.err;
    }
  }
}
