/** The SQLite registry of app primitives: one row per primitive name. */
module AppRegistry {
  import opened Common
  import opened Text
  import opened AppManifest
  import opened ManifestNormalizer

  // A row is the registered manifest; its columns carry their values exactly.
  type Rows = map<string, Manifest>

  datatype Registration = Registered(reactivated: bool) | Conflict(owner: string) | Invalid(problem: Problem)

  const ACTIVE := "active"
  const UNAVAILABLE := "unavailable"

  /** UPDATE ... SET availability WHERE app_id. */
  function SetAvailability(rows: Rows, appId: string, a: string): (r: Rows)
    ensures r.Keys == rows.Keys
    ensures forall k <- rows :: r[k] == if rows[k].appId == appId then rows[k].(availability := a) else rows[k]
  {
    map k <- rows :: if rows[k].appId == appId then rows[k].(availability := a) else rows[k]
  }

  predicate Taken(rows: Rows, n: Manifest) { n.name in rows && rows[n.name].appId != n.appId }

  predicate Dormant(rows: Rows, appId: string) {
    exists k <- rows :: rows[k].appId == appId && rows[k].availability == UNAVAILABLE
  }

  function AfterRegister(lower: Casing, rows: Rows, m: Manifest): (Rows, Registration) {
    var n := Normalize(lower, m);
    if n.Bad? then (rows, Invalid(n.problem))
    else if Taken(rows, n.manifest) then (rows, Conflict(rows[n.manifest.name].appId))
    else (SetAvailability(rows, n.manifest.appId, ACTIVE)[n.manifest.name := n.manifest.(availability := ACTIVE)],
          Registered(Dormant(rows, n.manifest.appId)))
  }

  function AfterUnregister(rows: Rows, appId: string, name: string): Rows {
    if name in rows && rows[name].appId == appId then rows - {name} else rows
  }

  function AfterLoss(rows: Rows, appId: string): Rows { SetAvailability(rows, appId, UNAVAILABLE) }

  // ---------------------------------------------------------------- every sequence of operations

  datatype Operation = Add(manifest: Manifest) | Remove(appId: string, name: string) | Lose(appId: string)

  function Apply(lower: Casing, rows: Rows, op: Operation): Rows {
    match op
    case Add(m) => AfterRegister(lower, rows, m).0
    case Remove(appId, name) => AfterUnregister(rows, appId, name)
    case Lose(appId) => AfterLoss(rows, appId)
  }

  function ApplyAll(lower: Casing, rows: Rows, ops: seq<Operation>): Rows
    decreases |ops|
  {
    if ops == [] then rows else ApplyAll(lower, Apply(lower, rows, ops[0]), ops[1..])
  }

  /** Every row lies under its own name and is a normalised manifest. */
  ghost predicate AllNormal(lower: Casing, rows: Rows) {
    forall k <- rows :: rows[k].name == k && Normalize(lower, rows[k]) == Ok(rows[k])
  }

  /** An app's rows share one availability, active or unavailable. */
  ghost predicate OneAvailability(rows: Rows) {
    && (forall k <- rows :: rows[k].availability in {ACTIVE, UNAVAILABLE})
    && (forall j <- rows, k <- rows :: rows[j].appId == rows[k].appId ==> rows[j].availability == rows[k].availability)
  }

  ghost predicate Consistent(lower: Casing, rows: Rows) { AllNormal(lower, rows) && OneAvailability(rows) }

  /** Changing the availability of a normalised manifest to a known one leaves it normalised. */
  lemma AvailabilityIsFree(lower: Casing, m: Manifest, a: string)
    requires Normalize(lower, m) == Ok(m) && a in AVAILABILITIES
    ensures Normalize(lower, m.(availability := a)) == Ok(m.(availability := a))
  {
    hide NormalizeVerify, NormalizeRollback, NormalizeSchema, Lower, HasPrefix;
  }

  lemma UpdateKeepsNormal(lower: Casing, rows: Rows, appId: string, a: string)
    requires AllNormal(lower, rows) && a in AVAILABILITIES
    ensures AllNormal(lower, SetAvailability(rows, appId, a))
  {
    hide Normalize;
    forall k <- rows ensures Normalize(lower, rows[k].(availability := a)) == Ok(rows[k].(availability := a)) {
      AvailabilityIsFree(lower, rows[k], a);
    }
  }

  lemma ApplyKeepsNormal(lower: Casing, rows: Rows, op: Operation)
    requires AllNormal(lower, rows)
    ensures AllNormal(lower, Apply(lower, rows, op))
  {
    hide Normalize;
    match op
    case Add(m) =>
      if Normalize(lower, m).Ok? {
        NormalizeIdempotent(lower, m);
        AvailabilityIsFree(lower, Normalize(lower, m).manifest, ACTIVE);
        UpdateKeepsNormal(lower, rows, Normalize(lower, m).manifest.appId, ACTIVE);
      }
    case Remove(_, _) =>
    case Lose(appId) => UpdateKeepsNormal(lower, rows, appId, UNAVAILABLE);
  }

  lemma UpdateKeepsOne(rows: Rows, appId: string, a: string)
    requires OneAvailability(rows) && a in {ACTIVE, UNAVAILABLE}
    ensures OneAvailability(SetAvailability(rows, appId, a))
  {
  }

  lemma InsertKeepsOne(rows: Rows, n: Manifest)
    requires OneAvailability(SetAvailability(rows, n.appId, ACTIVE))
    ensures OneAvailability(SetAvailability(rows, n.appId, ACTIVE)[n.name := n.(availability := ACTIVE)])
  {
  }

  lemma ApplyKeepsAvailability(lower: Casing, rows: Rows, op: Operation)
    requires OneAvailability(rows)
    ensures OneAvailability(Apply(lower, rows, op))
  {
    hide Normalize, Dormant, SetAvailability;
    match op
    case Add(m) =>
      if Normalize(lower, m).Ok? {
        UpdateKeepsOne(rows, Normalize(lower, m).manifest.appId, ACTIVE);
        InsertKeepsOne(rows, Normalize(lower, m).manifest);
        hide OneAvailability;
      }
    case Remove(_, _) =>
    case Lose(appId) => UpdateKeepsOne(rows, appId, UNAVAILABLE);
  }

  /** An operation other than its own app's unregistration leaves a name with its owner. */
  lemma OwnerKeptByStep(lower: Casing, rows: Rows, op: Operation, name: string)
    requires name in rows && op != Remove(rows[name].appId, name)
    ensures name in Apply(lower, rows, op) && Apply(lower, rows, op)[name].appId == rows[name].appId
  {
    hide Normalize;
  }

  /** Over any sequence of operations, a name keeps its owner until that app unregisters it. */
  lemma {:induction false} OwnerKept(lower: Casing, rows: Rows, ops: seq<Operation>, name: string)
    requires name in rows && Remove(rows[name].appId, name) !in ops
    ensures name in ApplyAll(lower, rows, ops) && ApplyAll(lower, rows, ops)[name].appId == rows[name].appId
    decreases |ops|
  {
    hide Apply;
    if ops != [] {
      assert ops[0] in ops && forall o <- ops[1..] :: o in ops;
      OwnerKeptByStep(lower, rows, ops[0], name);
      OwnerKept(lower, Apply(lower, rows, ops[0]), ops[1..], name);
    }
  }

  lemma {:induction false} RegistryConsistent(lower: Casing, rows: Rows, ops: seq<Operation>)
    requires Consistent(lower, rows)
    ensures Consistent(lower, ApplyAll(lower, rows, ops))
    decreases |ops|
  {
    hide Apply, AllNormal, OneAvailability;
    if ops != [] {
      ApplyKeepsNormal(lower, rows, ops[0]);
      ApplyKeepsAvailability(lower, rows, ops[0]);
      RegistryConsistent(lower, Apply(lower, rows, ops[0]), ops[1..]);
    }
  }

  /** Every manifest the registry can ever hand out has its endpoints and declarations in agreement. */
  lemma RegisteredEndpointsMatch(lower: Casing, ops: seq<Operation>, name: string)
    requires name in ApplyAll(lower, map[], ops)
    ensures var n := ApplyAll(lower, map[], ops)[name];
            && (n.verifyEndpoint != "" <==> n.verify.Some? && n.verify.value.strategy == "primitive")
            && (n.verifyEndpoint != "" ==> n.verifyEndpoint == n.verify.value.primitive)
            && (n.rollbackEndpoint != "" <==> n.rollback.Some? && n.rollback.value.strategy == "primitive")
            && (n.rollbackEndpoint != "" ==> n.rollbackEndpoint == n.rollback.value.primitive)
  {
    hide Normalize;
    RegistryConsistent(lower, map[], ops);
    EndpointsMatchDeclarations(lower, ApplyAll(lower, map[], ops)[name]);
  }

  lemma AlreadyMarked(rows: Rows, appId: string)
    requires AllUnavailable(rows, appId)
    ensures AfterLoss(rows, appId) == rows
  {
    forall k <- rows ensures AfterLoss(rows, appId)[k] == rows[k] {
      assert rows[k].appId == appId ==> rows[k].(availability := UNAVAILABLE) == rows[k];
    }
  }

  /** The operation registers a primitive of the app, or tries to. */
  predicate Registers(op: Operation, appId: string) { op.Add? && op.manifest.appId == appId }

  ghost predicate AllUnavailable(rows: Rows, appId: string) {
    forall k <- rows :: rows[k].appId == appId ==> rows[k].availability == UNAVAILABLE
  }

  lemma StepStaysUnavailable(lower: Casing, rows: Rows, op: Operation, appId: string)
    requires AllUnavailable(rows, appId) && !Registers(op, appId)
    ensures AllUnavailable(Apply(lower, rows, op), appId)
  {
    hide Normalize;
    if op.Add? { NormalizeKeepsIdentity(lower, op.manifest); }
  }

  /** After an app was marked unavailable, all its rows stay so until it registers again. */
  lemma {:induction false} StaysUnavailable(lower: Casing, rows: Rows, ops: seq<Operation>, appId: string)
    requires AllUnavailable(rows, appId) && forall o <- ops :: !Registers(o, appId)
    ensures AllUnavailable(ApplyAll(lower, rows, ops), appId)
    decreases |ops|
  {
    hide Apply, AllUnavailable;
    if ops != [] {
      assert ops[0] in ops && forall o <- ops[1..] :: o in ops;
      StepStaysUnavailable(lower, rows, ops[0], appId);
      StaysUnavailable(lower, Apply(lower, rows, ops[0]), ops[1..], appId);
    }
  }

  lemma NormalizeKeepsIdentity(lower: Casing, m: Manifest)
    ensures Normalize(lower, m).Ok? ==> Normalize(lower, m).manifest.appId == m.appId && Normalize(lower, m).manifest.name == m.name
  {
  }

  /** A registration succeeds exactly when the manifest normalises and its name is free or the app's own; then the
      app's rows are all active, the new manifest is found, and the app counts as reactivated exactly when it had an
      unavailable row. Otherwise nothing changes, and a conflict names the owner. */
  lemma RegistrationMeaning(lower: Casing, rows: Rows, m: Manifest)
    ensures var (after, r) := AfterRegister(lower, rows, m);
            && (r.Registered? <==> Normalize(lower, m).Ok? && (m.name in rows ==> rows[m.name].appId == m.appId))
            && (!r.Registered? ==> after == rows)
            && (r.Conflict? <==> Normalize(lower, m).Ok? && m.name in rows && rows[m.name].appId != m.appId)
            && (r.Conflict? ==> r.owner == rows[m.name].appId)
            && (r.Registered? ==> (r.reactivated <==>
                  exists k <- rows :: rows[k].appId == m.appId && rows[k].availability == "unavailable"))
            && (r.Registered? ==>
                  && m.name in after && after[m.name] == Normalize(lower, m).manifest.(availability := ACTIVE)
                  && (forall k <- after :: after[k].appId == m.appId ==> after[k].availability == ACTIVE)
                  && (forall k <- rows :: rows[k].appId != m.appId ==> k in after && after[k] == rows[k])
                  && after.Keys == rows.Keys + {m.name})
  {
    hide NormalizeVerify, NormalizeRollback, NormalizeSchema, Lower, HasPrefix;
    NormalizeKeepsIdentity(lower, m);
  }

  // ---------------------------------------------------------------- the registry object

  class Registry {
    const lower: Casing
    var rows: Rows

    constructor (lower: Casing)
      ensures this.lower == lower && rows == map[]
    {
      this.lower := lower;
      rows := map[];
    }

    /** Scans the rows of the app and of the name in whatever order the database gives them. */
    method Register(m: Manifest) returns (r: Registration)
      modifies this
      ensures (rows, r) == AfterRegister(lower, old(rows), m)
    {
      hide Normalize;
      var normalized := Normalize(lower, m);
      if normalized.Bad? { return Invalid(normalized.problem); }
      var n := normalized.manifest;
      var tx := rows;
      var todo := set k <- tx | tx[k].appId == n.appId || k == n.name;
      var reactivating := false;
      while todo != {}
        invariant todo <= tx.Keys
        invariant Taken(tx, n) ==> n.name in todo
        invariant reactivating ==> Dormant(tx, n.appId)
        invariant Dormant(tx, n.appId) ==>
                    reactivating || exists k <- todo :: tx[k].appId == n.appId && tx[k].availability == UNAVAILABLE
        decreases todo
      {
        var name :| name in todo;
        var appId, availability := tx[name].appId, tx[name].availability;
        if name == n.name && appId != n.appId { return Conflict(appId); }
        if appId == n.appId && availability == UNAVAILABLE { reactivating := true; }
        todo := todo - {name};
      }
      tx := SetAvailability(tx, n.appId, ACTIVE);
      tx := tx[n.name := n.(availability := ACTIVE)];
      rows := tx;
      return Registered(reactivating);
    }

    method Unregister(appId: string, name: string)
      modifies this
      ensures rows == AfterUnregister(old(rows), appId, name)
    {
      if name in rows && rows[name].appId == appId { rows := rows - {name}; }
    }

    method Get(name: string) returns (m: Option<Manifest>)
      ensures m == if name in rows then Some(rows[name]) else None
    {
      m := if name in rows then Some(rows[name]) else None;
    }

    /** Returns whether the loss was announced: not when the app has no rows or all were unavailable already. */
    method MarkUnavailable(appId: string) returns (announced: bool)
      modifies this
      ensures rows == AfterLoss(old(rows), appId)
      ensures announced == exists k <- old(rows) :: old(rows)[k].appId == appId && old(rows)[k].availability != UNAVAILABLE
    {
      var todo := set k <- rows | rows[k].appId == appId;
      ghost var all := todo;
      var found, alreadyUnavailable := 0, true;
      while todo != {}
        invariant todo <= all && found == |all| - |todo|
        invariant alreadyUnavailable <==> forall k <- all - todo :: rows[k].availability == UNAVAILABLE
        decreases todo
      {
        var name :| name in todo;
        if rows[name].availability != UNAVAILABLE { alreadyUnavailable := false; }
        todo := todo - {name};
        found := found + 1;
      }
      assert forall k <- rows :: rows[k].appId == appId ==> k in all;
      assert found == 0 ==> all == {};
      assert alreadyUnavailable <==> forall k <- all :: rows[k].availability == UNAVAILABLE by { assert all - todo == all; }
      if found == 0 || alreadyUnavailable {
        AlreadyMarked(rows, appId);
        return false;
      }
      rows := SetAvailability(rows, appId, UNAVAILABLE);
      return true;
    }
  }
}
