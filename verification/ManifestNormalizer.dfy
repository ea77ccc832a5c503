/** Normalisation of app manifests at registration. */
module ManifestNormalizer {
  import opened Common
  import opened Text
  import opened Json
  import opened Cvr
  import opened AppManifest

  datatype Problem = ReservedName | BadInputSchema | BadOutputSchema | BadVerify | BadRollback
  datatype Normalized = Ok(manifest: Manifest) | Bad(problem: Problem)

  const RESERVED: seq<string> := ["fs.", "state.", "shell.", "verify.", "macro.", "code.", "test."]

  const AVAILABILITIES: set<string> := {"active", "unavailable", "reactivating"}

  /** A table of lower-case letters: applying it twice is applying it once, and it neither makes nor removes spaces. */
  ghost predicate Lowers(lower: char -> char) {
    forall c :: lower(lower(c)) == lower(c) && (IsSpace(lower(c)) <==> IsSpace(c))
  }

  // Any such table, the one of ASCII among them.
  type Casing = lower: char -> char | Lowers(lower) witness AsciiLower

  function Lower(lower: Casing, s: string): (r: string)
    ensures |r| == |s|
    ensures forall i :: 0 <= i < |s| ==> r[i] == lower(s[i])
  {
    seq(|s|, i requires 0 <= i < |s| => lower(s[i]))
  }

  function NormalizeAvailability(a: string): string { if a in AVAILABILITIES then a else "active" }

  // ---------------------------------------------------------------- schemas

  predicate ValidSchema(f: map<string, Json>) {
    && ("type" in f ==> f["type"] == JStr("object"))
    && ("properties" in f ==> f["properties"].JObj?)
    && ("required" in f ==> f["required"].JArr? && forall x <- f["required"].items :: x.JStr? && x.s != "")
  }

  function NormalizeDocument(t: SchemaText): Option<SchemaText> {
    match t
    case BlankText => Some(Document(JObj(map[])))
    case Document(JObj(f)) => if ValidSchema(f) then Some(t) else None
    case _ => None
  }

  /** A schema as an object, whether given as such or as a string that holds its text. */
  function NormalizeSchema(t: SchemaText): Option<SchemaText> {
    match t
    case NullText => Some(Document(JObj(map[])))
    case Quoted(inner) => NormalizeDocument(inner)
    case _ => NormalizeDocument(t)
  }

  // ---------------------------------------------------------------- verify and rollback declarations

  /** The strategy and the primitive that a declaration and its legacy endpoint name together; none when they
      contradict each other. */
  function Merge(legacy: string, strategy: string, primitive: string): Option<(string, string)> {
    if legacy == "" then Some((strategy, primitive))
    else if strategy !in {"", "primitive"} then None
    else if primitive != "" && primitive != legacy then None
    else Some(("primitive", legacy))
  }

  // The outcome of a declaration: absent, refused, or present.
  datatype Declared<T> = Missing | Refused | Present(value: T)

  function NormalizeVerify(endpoint: string, verify: Option<AppVerify>): Declared<AppVerify> {
    var legacy := Trim(endpoint);
    if verify.None? then (if legacy == "" then Missing else Present(AppVerify("primitive", legacy, "")))
    else
      var command := Trim(verify.value.command);
      var merged := Merge(legacy, Trim(verify.value.strategy), Trim(verify.value.primitive));
      if merged.None? then Refused else
      var (strategy, primitive) := merged.value;
      var ok := || (strategy == "primitive" && primitive != "" && command == "")
                || (strategy == "command" && command != "" && primitive == "")
                || (strategy == "none" && primitive == "" && command == "");
      if ok then Present(AppVerify(strategy, primitive, command)) else Refused
  }

  function NormalizeRollback(endpoint: string, rollback: Option<AppRollback>): Declared<AppRollback> {
    var legacy := Trim(endpoint);
    if rollback.None? then (if legacy == "" then Missing else Present(AppRollback("primitive", legacy)))
    else
      var merged := Merge(legacy, Trim(rollback.value.strategy), Trim(rollback.value.primitive));
      if merged.None? then Refused else
      var (strategy, primitive) := merged.value;
      var ok := || (strategy == "primitive" && primitive != "")
                || (strategy == "none" && primitive == "");
      if ok then Present(AppRollback(strategy, primitive)) else Refused
  }

  function Optional<T>(d: Declared<T>): Option<T> { if d.Present? then Some(d.value) else None }

  function Normalize(lower: Casing, m: Manifest): Normalized {
    if exists p <- RESERVED :: HasPrefix(m.name, p) then Bad(ReservedName) else
    var input, output := NormalizeSchema(m.inputSchema), NormalizeSchema(m.outputSchema);
    if input.None? then Bad(BadInputSchema)
    else if output.None? then Bad(BadOutputSchema)
    else
      var verify := NormalizeVerify(m.verifyEndpoint, m.verify);
      var rollback := NormalizeRollback(m.rollbackEndpoint, m.rollback);
      if verify.Refused? then Bad(BadVerify)
      else if rollback.Refused? then Bad(BadRollback)
      else Ok(m.(
        availability := NormalizeAvailability(m.availability),
        uiLayoutHint := Lower(lower, Trim(m.uiLayoutHint)),
        inputSchema := input.value, outputSchema := output.value,
        verify := Optional(verify),
        verifyEndpoint := if verify.Present? && verify.value.strategy == "primitive" then verify.value.primitive
                          else Trim(m.verifyEndpoint),
        rollback := Optional(rollback),
        rollbackEndpoint := if rollback.Present? && rollback.value.strategy == "primitive" then rollback.value.primitive
                            else Trim(m.rollbackEndpoint)))
  }

  // ---------------------------------------------------------------- what is accepted

  /** A complete verify declaration: each strategy carries its own operand and nothing else. */
  predicate CompleteVerify(v: AppVerify) {
    match v.strategy
    case "primitive" => v.primitive != "" && v.command == ""
    case "command" => v.primitive == "" && v.command != ""
    case "none" => v.primitive == "" && v.command == ""
    case _ => false
  }

  predicate CompleteRollback(r: AppRollback) {
    match r.strategy
    case "primitive" => r.primitive != ""
    case "none" => r.primitive == ""
    case _ => false
  }

  /** A member says `final`, or leaves it to the legacy endpoint. */
  predicate Says(member: string, final: string, legacy: string) {
    Trim(member) == final || (Trim(member) == "" && legacy != "")
  }

  /** The result contradicts neither the legacy endpoint nor anything the declaration says. */
  predicate FitsVerify(legacy: string, declared: Option<AppVerify>, v: AppVerify) {
    && CompleteVerify(v)
    && (legacy != "" ==> v.strategy == "primitive" && v.primitive == legacy)
    && (declared.None? ==> legacy != "")
    && (declared.Some? ==> Says(declared.value.strategy, v.strategy, legacy))
    && (declared.Some? ==> Says(declared.value.primitive, v.primitive, legacy) && Trim(declared.value.command) == v.command)
  }

  predicate FitsRollback(legacy: string, declared: Option<AppRollback>, r: AppRollback) {
    && CompleteRollback(r)
    && (legacy != "" ==> r.strategy == "primitive" && r.primitive == legacy)
    && (declared.None? ==> legacy != "")
    && (declared.Some? ==> Says(declared.value.strategy, r.strategy, legacy))
    && (declared.Some? ==> Says(declared.value.primitive, r.primitive, legacy))
  }

  /** A declaration is accepted exactly when a complete one fits it, and the result is the one that does; it is
      missing exactly when neither form of it is given. */
  lemma AcceptedIffFits(endpoint: string, verify: Option<AppVerify>, rollback: Option<AppRollback>)
    ensures forall v :: NormalizeVerify(endpoint, verify) == Present(v) <==> FitsVerify(Trim(endpoint), verify, v)
    ensures NormalizeVerify(endpoint, verify) == Missing <==> verify.None? && Blank(endpoint)
    ensures forall r :: NormalizeRollback(endpoint, rollback) == Present(r) <==> FitsRollback(Trim(endpoint), rollback, r)
    ensures NormalizeRollback(endpoint, rollback) == Missing <==> rollback.None? && Blank(endpoint)
  {
    hide Trim;
  }

  // ---------------------------------------------------------------- results

  lemma LowerTrimmed(lower: Casing, s: string)
    ensures Lower(lower, Trim(Lower(lower, Trim(s)))) == Lower(lower, Trim(s))
  {
    var t := Trim(s);
    var l := Lower(lower, t);
    assert Trimmed(l);
    assert Lower(lower, l) == l;
  }

  lemma VerifyStable(endpoint: string, verify: Option<AppVerify>)
    ensures var d := NormalizeVerify(endpoint, verify);
            var e := if d.Present? && d.value.strategy == "primitive" then d.value.primitive else Trim(endpoint);
            && (!d.Refused? ==> Trim(e) == e && NormalizeVerify(e, Optional(d)) == d)
            && (!d.Refused? ==> (e != "" <==> d.Present? && d.value.strategy == "primitive"))
  {
    hide Trim;
  }

  lemma RollbackStable(endpoint: string, rollback: Option<AppRollback>)
    ensures var d := NormalizeRollback(endpoint, rollback);
            var e := if d.Present? && d.value.strategy == "primitive" then d.value.primitive else Trim(endpoint);
            && (!d.Refused? ==> Trim(e) == e && NormalizeRollback(e, Optional(d)) == d)
            && (!d.Refused? ==> (e != "" <==> d.Present? && d.value.strategy == "primitive"))
  {
    hide Trim;
  }

  lemma SchemaStable(t: SchemaText)
    ensures var n := NormalizeSchema(t); n.Some? ==> NormalizeSchema(n.value) == n
  {
  }

  /** A schema is accepted exactly when it is blank, null, or an object of the right shape, as such or once quoted; blank
      and null stand for the empty object, and any other accepted one is kept. */
  lemma SchemaMeaning(t: SchemaText)
    ensures var plain := if t.Quoted? then t.inner else t;
            var n := NormalizeSchema(t);
            && (plain.BlankText? || t.NullText? ==> n == Some(Document(JObj(map[]))))
            && (plain.Document? && plain.doc.JObj? ==>
                  var f := plain.doc.fields;
                  var shaped :=
                    && ("type" in f ==> f["type"] == JStr("object"))
                    && ("properties" in f ==> f["properties"].JObj?)
                    && ("required" in f ==> f["required"].JArr? && forall x <- f["required"].items :: x.JStr? && x.s != "");
                  n == if shaped then Some(plain) else None)
            && (!plain.BlankText? && !t.NullText? && !(plain.Document? && plain.doc.JObj?) ==> n.None?)
  {
  }

  /** A name is refused exactly when it begins with one of the seven reserved prefixes. */
  lemma ReservedIff(lower: Casing, m: Manifest)
    ensures Normalize(lower, m) == Bad(ReservedName) <==>
            || "fs." <= m.name || "state." <= m.name || "shell." <= m.name || "verify." <= m.name
            || "macro." <= m.name || "code." <= m.name || "test." <= m.name
  {
    hide NormalizeVerify, NormalizeRollback, NormalizeSchema, Trim, Lower;
    forall p: string ensures HasPrefix(m.name, p) <==> p <= m.name {}
    hide HasPrefix;
    var r := RESERVED;
    assert r[0] in r && r[1] in r && r[2] in r && r[3] in r && r[4] in r && r[5] in r && r[6] in r;
  }

  /** Acceptance, the reason of a refusal, and every member of the result. */
  lemma NormalizeMeaning(lower: Casing, m: Manifest)
    requires !(exists p <- RESERVED :: HasPrefix(m.name, p))
    ensures var r := Normalize(lower, m);
            var input, output := NormalizeSchema(m.inputSchema), NormalizeSchema(m.outputSchema);
            var verify := NormalizeVerify(m.verifyEndpoint, m.verify);
            var rollback := NormalizeRollback(m.rollbackEndpoint, m.rollback);
            && (r.Ok? <==> input.Some? && output.Some? && !verify.Refused? && !rollback.Refused?)
            && (r == Bad(BadInputSchema) <==> input.None?)
            && (r == Bad(BadOutputSchema) <==> input.Some? && output.None?)
            && (r == Bad(BadVerify) <==> input.Some? && output.Some? && verify.Refused?)
            && (r.Ok? ==>
                  var n := r.manifest;
                  && n.appId == m.appId && n.name == m.name && n.description == m.description
                  && n.socketPath == m.socketPath && n.intent == m.intent
                  && n.availability == (if m.availability in {"active", "unavailable", "reactivating"} then m.availability
                                        else "active")
                  && n.uiLayoutHint == Lower(lower, Trim(m.uiLayoutHint))
                  && Some(n.inputSchema) == input && Some(n.outputSchema) == output
                  && (n.verify.None? <==> verify.Missing?) && (n.verify.Some? ==> verify == Present(n.verify.value))
                  && (n.rollback.None? <==> rollback.Missing?) && (n.rollback.Some? ==> rollback == Present(n.rollback.value)))
  {
    hide NormalizeVerify, NormalizeRollback, NormalizeSchema, Trim, Lower, HasPrefix;
  }

  /** Normalising a normalised manifest changes nothing and never fails. */
  lemma NormalizeIdempotent(lower: Casing, m: Manifest)
    requires Normalize(lower, m).Ok?
    ensures Normalize(lower, Normalize(lower, m).manifest) == Normalize(lower, m)
  {
    hide NormalizeVerify, NormalizeRollback, NormalizeSchema, Trim, Lower, HasPrefix;
    VerifyStable(m.verifyEndpoint, m.verify);
    RollbackStable(m.rollbackEndpoint, m.rollback);
    SchemaStable(m.inputSchema);
    SchemaStable(m.outputSchema);
    LowerTrimmed(lower, m.uiLayoutHint);
  }

  /** In a normalised manifest the legacy endpoints are non-empty exactly when the declared strategy is
      "primitive", and then equal the declared primitive. */
  lemma EndpointsMatchDeclarations(lower: Casing, m: Manifest)
    requires Normalize(lower, m).Ok?
    ensures var n := Normalize(lower, m).manifest;
            && (n.verifyEndpoint != "" <==> n.verify.Some? && n.verify.value.strategy == "primitive")
            && (n.verifyEndpoint != "" ==> n.verifyEndpoint == n.verify.value.primitive)
            && (n.rollbackEndpoint != "" <==> n.rollback.Some? && n.rollback.value.strategy == "primitive")
            && (n.rollbackEndpoint != "" ==> n.rollbackEndpoint == n.rollback.value.primitive)
  {
    hide NormalizeVerify, NormalizeRollback, NormalizeSchema, Trim, Lower, HasPrefix;
    VerifyStable(m.verifyEndpoint, m.verify);
    RollbackStable(m.rollbackEndpoint, m.rollback);
  }

  lemma StrategiesKnown(lower: Casing, m: Manifest)
    requires Normalize(lower, m).Ok?
    ensures var n := Normalize(lower, m).manifest;
            && (n.verify.Some? ==> n.verify.value.strategy in {"primitive", "command", "none"})
            && (n.rollback.Some? ==> n.rollback.value.strategy in {"primitive", "none"})
  {
    hide Trim, NormalizeSchema, Lower, HasPrefix;
  }
}
