/** The key-value adapter's request handlers, over the map that either store holds, and the rollback envelope the
    sandbox router builds for it. */
module KvAdapter {
  import opened Common
  import opened Text
  import opened Order
  import opened Json
  import opened KvData
  import opened KvSpec
  import opened SandboxRouter
  import opened AppManifest
  import Cvr
  import StepEngine
  import StepExamples
  import RouterTheorems
  import PrimitiveExecutor

  datatype Reply = Ok(result: Json) | Fail(code: int)

  const INVALID_PARAMS := -32602

  // ---------------------------------------------------------------- decoding

  /** The members of the parameters; none when they are not an object. */
  function Fields(raw: RawJson): Option<map<string, Json>> {
    match raw
    case Absent => Some(map[])
    case Malformed => None
    case Value(doc) => AsObject(doc)
  }

  /** The error code that a request asks its handler to simulate, 0 for none; waiting is not modelled. */
  function SimulatedError(f: map<string, Json>): Option<int> {
    var control := AsObject(Member(f, "test_control"));
    if control.None? then None else
    var c := control.value;
    if AsInt(Member(c, "delay_ms")).None? || AsText(Member(c, "error_message")).None? then None
    else AsInt(Member(c, "error_code"))
  }

  datatype Item = Item(key: string, value: string, metadata: Metadata)

  function DecodeItem(f: map<string, Json>): Option<Item> {
    var key, value, meta := AsText(Member(f, "key")), AsText(Member(f, "value")), DecodeMetadata(Member(f, "metadata"));
    if key.None? || value.None? || meta.None? then None else Some(Item(key.value, value.value, meta.value))
  }

  function DecodeListed(j: Json): Option<Item> {
    var f := AsObject(j);
    if f.None? then None else DecodeItem(f.value)
  }

  function DecodeItems(j: Json): Option<seq<Item>> {
    var list := AsList(j);
    if list.None? || exists x <- list.value :: DecodeListed(x).None? then None
    else Some(seq(|list.value|, i requires 0 <= i < |list.value| => DecodeListed(list.value[i]).value))
  }

  function Stamped(items: seq<Item>, now: string): (r: seq<Entry>)
    ensures |r| == |items|
    ensures forall i :: 0 <= i < |r| ==> r[i] == Entry(items[i].key, items[i].value, items[i].metadata, now)
  {
    seq(|items|, i requires 0 <= i < |items| => Entry(items[i].key, items[i].value, items[i].metadata, now))
  }

  // ---------------------------------------------------------------- handlers

  function SetReply(key: string, created: bool, previous: Option<Entry>, now: string): Json {
    var exists_ := previous.Some?;
    var basic := map["stored" := JBool(true), "key" := JStr(key), "previous_exists" := JBool(exists_),
                     "previous_value" := JStr(if exists_ then previous.value.value else ""),
                     "updated_at" := JStr(now)];
    JObj(if created then basic
         else basic["previous_metadata" := EncodeMetadata(if exists_ then previous.value.metadata else NO_METADATA)])
  }

  function HandleSet(m: Store, raw: RawJson, now: string): (Store, Reply) {
    var f := Fields(raw);
    if f.None? then (m, Fail(INVALID_PARAMS)) else
    var item, mode, fault := DecodeItem(f.value), AsText(Member(f.value, "mode")), SimulatedError(f.value);
    if item.None? || mode.None? || fault.None? then (m, Fail(INVALID_PARAMS))
    else if fault.value != 0 then (m, Fail(fault.value))
    else if Blank(item.value.key) then (m, Fail(INVALID_PARAMS))
    else if mode.value !in {"", "upsert", "create"} then (m, Fail(INVALID_PARAMS))
    else
      var Item(key, value, metadata) := item.value;
      var entry := Entry(key, value, metadata, now);
      if mode.value == "create" then
        if key in m then (m, Fail(4091)) else (m[key := entry], Ok(SetReply(key, true, None, now)))
      else (m[key := entry], Ok(SetReply(key, false, if key in m then Some(m[key]) else None, now)))
  }

  function HandleDelete(m: Store, raw: RawJson): (Store, Reply) {
    var f := Fields(raw);
    if f.None? then (m, Fail(INVALID_PARAMS)) else
    var key, fault := AsText(Member(f.value, "key")), SimulatedError(f.value);
    if key.None? || fault.None? then (m, Fail(INVALID_PARAMS))
    else if fault.value != 0 then (m, Fail(fault.value))
    else if Blank(key.value) then (m, Fail(INVALID_PARAMS))
    else (m - {key.value}, Ok(JObj(map[
      "deleted" := JBool(key.value in m), "key" := JStr(key.value),
      "previous_value" := JStr(if key.value in m then m[key.value].value else "")])))
  }

  function HandleBatchSet(m: Store, raw: RawJson, now: string): (Store, Reply) {
    var f := Fields(raw);
    if f.None? then (m, Fail(INVALID_PARAMS)) else
    var items, mode, fault :=
      DecodeItems(Member(f.value, "entries")), AsText(Member(f.value, "mode")), SimulatedError(f.value);
    if items.None? || mode.None? || fault.None? then (m, Fail(INVALID_PARAMS))
    else if fault.value != 0 then (m, Fail(fault.value))
    else if mode.value !in {"", "upsert", "create"} then (m, Fail(INVALID_PARAMS))
    else
      var (n, r) := BatchUpsert(m, Stamped(items.value, now), mode.value);
      match r
      case Rejected(KeyRequired) => (n, Fail(INVALID_PARAMS))
      case Rejected(_) => (n, Fail(4092))
      case Stored(stored, created) => (n, Ok(JObj(map[
        "stored" := JNum(stored), "created" := JNum(created), "entry_count" := JNum(|items.value|),
        "completed_at" := JStr(now)])))
  }

  function HandleImport(m: Store, raw: RawJson, now: string): (Store, Reply) {
    var f := Fields(raw);
    if f.None? then (m, Fail(INVALID_PARAMS)) else
    var items, mode, fault :=
      DecodeItems(Member(f.value, "entries")), AsText(Member(f.value, "mode")), SimulatedError(f.value);
    if items.None? || mode.None? || fault.None? then (m, Fail(INVALID_PARAMS))
    else if fault.value != 0 then (m, Fail(fault.value))
    else
      var chosen := if mode.value == "" then "replace" else mode.value;
      if chosen !in {"replace", "merge"} then (m, Fail(INVALID_PARAMS))
      else if exists x <- items.value :: Blank(x.key) then (m, Fail(INVALID_PARAMS))
      else (ReplaceAll(m, Stamped(items.value, now), chosen == "merge"), Ok(JObj(map[
        "imported" := JNum(|items.value|), "mode" := JStr(chosen), "completed_at" := JStr(now)])))
  }

  function ExportItem(e: Entry, metadata: bool): Json {
    var basic := map["key" := JStr(e.key), "value" := JStr(e.value)];
    JObj(if metadata then basic["metadata" := EncodeMetadata(e.metadata)]["updated_at" := JStr(e.updatedAt)]
         else basic)
  }

  function ExportValue(e: Entry, metadata: bool): Json {
    if metadata then JObj(map["value" := JStr(e.value), "metadata" := EncodeMetadata(e.metadata),
                              "updated_at" := JStr(e.updatedAt)])
    else JStr(e.value)
  }

  function ExportList(entries: seq<Entry>, metadata: bool): (items: seq<Json>)
    ensures |items| == |entries|
    ensures forall i :: 0 <= i < |items| ==> items[i] == ExportItem(entries[i], metadata)
  {
    seq(|entries|, i requires 0 <= i < |entries| => ExportItem(entries[i], metadata))
  }

  ghost function HandleExport(m: Store, raw: RawJson): Reply {
    var f := Fields(raw);
    if f.None? then Fail(INVALID_PARAMS) else
    var format, metadata, fault :=
      AsText(Member(f.value, "format")), AsBool(Member(f.value, "include_metadata")), SimulatedError(f.value);
    if format.None? || metadata.None? || fault.None? then Fail(INVALID_PARAMS)
    else if fault.value != 0 then Fail(fault.value)
    else if format.value == "map" then
      Ok(JObj(map["format" := JStr("map"), "entry_count" := JNum(|m|),
                  "items" := JObj(map k <- m :: ExportValue(m[k], metadata.value))]))
    else
      var entries := Listing(m, "", 0);
      Ok(JObj(map["format" := JStr("entries"), "entry_count" := JNum(|entries|),
                  "entries" := JArr(ExportList(entries, metadata.value))]))
  }

  datatype Undo = Undo(key: string, exists_: bool, value: string, metadata: Metadata)

  /** A verdict that the rollback handler can decode. */
  predicate VerdictDecodes(verify: Json) {
    var f := AsObject(verify);
    f.Some? && AsText(Member(f.value, "outcome")).Some? && AsText(Member(f.value, "message")).Some?
  }

  function DecodeUndo(raw: RawJson): Option<Undo> {
    var f := Fields(raw);
    if f.None? then None else
    var params, result := AsObject(Member(f.value, "params")), AsObject(Member(f.value, "result"));
    if || params.None? || result.None? || !VerdictDecodes(Member(f.value, "verify"))
       || AsText(Member(f.value, "primitive")).None? || AsText(Member(f.value, "checkpoint_id")).None? then None
    else
      var key, exists_ := AsText(Member(params.value, "key")), AsBool(Member(result.value, "previous_exists"));
      var value := AsText(Member(result.value, "previous_value"));
      var metadata := DecodeMetadata(Member(result.value, "previous_metadata"));
      if key.None? || exists_.None? || value.None? || metadata.None? then None
      else Some(Undo(key.value, exists_.value, value.value, metadata.value))
  }

  function HandleRollbackSet(m: Store, raw: RawJson, now: string): (Store, Reply) {
    var u := DecodeUndo(raw);
    if u.None? || Blank(u.value.key) then (m, Fail(INVALID_PARAMS)) else
    var Undo(key, exists_, value, metadata) := u.value;
    if exists_ || value != "" || metadata != NO_METADATA then
      (m[key := Entry(key, value, metadata, now)], Ok(RolledBack(key, "restore_previous_value")))
    else (m - {key}, Ok(RolledBack(key, "delete_created_value")))
  }

  function RolledBack(key: string, action: string): Json {
    JObj(map["rolled_back" := JBool(true), "key" := JStr(key), "action" := JStr(action)])
  }

  // ---------------------------------------------------------------- what each write does

  /** The parameters of a request decode: `f` are their members, and no error is to be simulated. */
  predicate Served(raw: RawJson, f: map<string, Json>) { Fields(raw) == Some(f) && SimulatedError(f) == Some(0) }

  /** A request that cannot be decoded, or asks for a simulated error, is refused by every handler and changes nothing. */
  lemma UnservedRequest(m: Store, raw: RawJson, now: string)
    requires Fields(raw).None? || SimulatedError(Fields(raw).value) != Some(0)
    ensures HandleSet(m, raw, now).1.Fail? && HandleSet(m, raw, now).0 == m
    ensures HandleDelete(m, raw).1.Fail? && HandleDelete(m, raw).0 == m
    ensures HandleBatchSet(m, raw, now).1.Fail? && HandleBatchSet(m, raw, now).0 == m
    ensures HandleImport(m, raw, now).1.Fail? && HandleImport(m, raw, now).0 == m
    ensures HandleExport(m, raw).Fail?
  {
    hide SimulatedError, DecodeItems, DecodeItem, BatchUpsert, ReplaceAll, Listing;
  }

  /** A set is accepted exactly when it names a non-blank key, a known mode and, to create, a free key. */
  lemma SetAcceptedIff(m: Store, raw: RawJson, now: string, f: map<string, Json>)
    requires Served(raw, f)
    ensures var (n, r) := HandleSet(m, raw, now);
            var item, mode := DecodeItem(f), AsText(Member(f, "mode"));
            var fine := item.Some? && mode.Some? && !Blank(item.value.key) && mode.value in {"", "upsert", "create"};
            && (r.Ok? <==> fine && (mode.value == "create" ==> item.value.key !in m))
            && (r == Fail(4091) <==> fine && mode.value == "create" && item.value.key in m)
            && (r.Fail? ==> n == m && r.code in {4091, -32602})
            && (r.Ok? ==>
                  && r.result.JObj? && Member(r.result.fields, "stored") == JBool(true)
                  && Member(r.result.fields, "key") == JStr(item.value.key)
                  && Member(r.result.fields, "updated_at") == JStr(now))
  {
    hide DecodeItem, SimulatedError, Blank, EncodeMetadata;
  }

  /** A delete removes its key and nothing else, and says what was there. */
  lemma DeleteMeaning(m: Store, raw: RawJson, f: map<string, Json>)
    requires Served(raw, f)
    ensures var (n, r) := HandleDelete(m, raw);
            var key := AsText(Member(f, "key"));
            && (r.Ok? <==> key.Some? && !Blank(key.value))
            && (r.Fail? ==> n == m && r == Fail(-32602))
            && (r.Ok? ==>
                  && (forall k :: k in n <==> k in m && k != key.value)
                  && (forall k <- n :: n[k] == m[k])
                  && r.result == JObj(map["deleted" := JBool(key.value in m), "key" := JStr(key.value),
                                          "previous_value" := JStr(if key.value in m then m[key.value].value else "")]))
  {
    hide SimulatedError, Blank;
  }

  /** A batch is stored exactly when its entries decode, its mode is known, its keys are non-blank and distinct and, to
      create, new. Then each entry is found with the time of the request, every other key is as before, and the reply
      counts the entries and the growth; otherwise nothing changes. */
  lemma BatchSetMeaning(m: Store, raw: RawJson, now: string, f: map<string, Json>)
    requires Served(raw, f)
    ensures var (n, r) := HandleBatchSet(m, raw, now);
            var items, mode := DecodeItems(Member(f, "entries")), AsText(Member(f, "mode"));
            var fine := items.Some? && mode.Some? && mode.value in {"", "upsert", "create"};
            && (r.Ok? <==> fine && AllValid(Stamped(items.value, now)) &&
                           (mode.value == "create" ==> AllNew(m, Stamped(items.value, now))))
            && (r.Fail? ==> n == m && r.code in {4092, -32602})
            && (r.Fail? && fine ==> (r.code == -32602 <==> StartsBlank(Stamped(items.value, now))))
            && (r.Ok? ==>
                  && Overlaid(m, Stamped(items.value, now), n)
                  && r.result == JObj(map["stored" := JNum(|items.value|), "created" := JNum(|n| - |m|),
                                          "entry_count" := JNum(|items.value|), "completed_at" := JStr(now)]))
  {
    hide DecodeItems, SimulatedError, Blank, Overlaid, AllValid, AllNew;
    var items, mode := DecodeItems(Member(f, "entries")), AsText(Member(f, "mode"));
    if items.Some? && mode.Some? {
      var entries := Stamped(items.value, now);
      BatchMeaning(m, entries, mode.value);
      BlankFirst(entries);
    }
  }

  /** The first invalid entry of a batch, if there is one, has a blank key. */
  ghost predicate StartsBlank(entries: seq<Entry>) {
    exists i: nat :: FirstInvalid(entries, 0, i) && Blank(entries[i].key)
  }

  lemma BlankFirst(entries: seq<Entry>)
    ensures ValidationError(entries, 0) == Some(KeyRequired) <==> StartsBlank(entries)
  {
    hide Blank;
    if e :| ValidationError(entries, 0) == Some(e) {
      var i := FirstOffender(entries, 0);
      ErrorIsFirst(map[], entries, 0, i);
    }
    forall i: nat | FirstInvalid(entries, 0, i) ensures ValidationError(entries, 0) == Some(WhyInvalid(entries[i].key)) {
      ErrorIsFirst(map[], entries, 0, i);
    }
  }

  lemma {:induction false} FirstOffender(entries: seq<Entry>, from: nat) returns (i: nat)
    requires from <= |entries| && ValidationError(entries, from).Some?
    ensures FirstInvalid(entries, from, i)
    decreases |entries| - from
  {
    hide Invalid;
    if Invalid(entries, from) { i := from; } else { i := FirstOffender(entries, from + 1); }
  }

  /** An import is accepted exactly when its entries decode, its mode is known and no key is blank. Then the last entry
      given for a key is found under it with the time of the request; every other key is as before in merge mode and gone
      in replace mode, which is also the default. */
  lemma ImportMeaning(m: Store, raw: RawJson, now: string, f: map<string, Json>)
    requires Served(raw, f)
    ensures var (n, r) := HandleImport(m, raw, now);
            var items, mode := DecodeItems(Member(f, "entries")), AsText(Member(f, "mode"));
            && (r.Ok? <==> && items.Some? && mode.Some? && mode.value in {"", "replace", "merge"}
                           && forall x <- items.value :: !Blank(x.key))
            && (r.Fail? ==> n == m && r == Fail(-32602))
            && (r.Ok? ==>
                  && Imported(if mode.value == "merge" then m else map[], items.value, now, n)
                  && r.result == JObj(map["imported" := JNum(|items.value|), "completed_at" := JStr(now),
                                          "mode" := JStr(if mode.value == "merge" then "merge" else "replace")]))
  {
    hide DecodeItems, SimulatedError, Blank, Put, Imported;
    var items, mode := DecodeItems(Member(f, "entries")), AsText(Member(f, "mode"));
    if HandleImport(m, raw, now).1.Ok? {
      PutStamped(if mode.value == "merge" then m else map[], items.value, now);
    }
  }

  /** The store `n` is `base` with the items written: the last one of each key is found under it, other keys are as before. */
  ghost predicate Imported(base: Store, items: seq<Item>, now: string, n: Store) {
    && (forall i :: 0 <= i < |items| && LastOfKey(items, i) ==>
          var x := items[i]; x.key in n && n[x.key] == Entry(x.key, x.value, x.metadata, now))
    && (forall k :: (forall i :: 0 <= i < |items| ==> items[i].key != k) ==>
          (k in n <==> k in base) && (k in n ==> n[k] == base[k]))
  }

  lemma PutStamped(base: Store, items: seq<Item>, now: string)
    ensures Imported(base, items, now, Put(base, Stamped(items, now)))
  {
    hide Put;
    var entries := Stamped(items, now);
    forall i | 0 <= i < |items| && LastOfKey(items, i)
      ensures entries[i].key in Put(base, entries) && Put(base, entries)[entries[i].key] == entries[i]
    {
      PutLookup(base, entries, i);
    }
    forall k | forall i :: 0 <= i < |items| ==> items[i].key != k
      ensures (k in Put(base, entries) <==> k in base) && (k in base ==> Put(base, entries)[k] == base[k])
    {
      PutKeys(base, entries, k);
    }
  }

  ghost predicate LastOfKey(items: seq<Item>, i: nat)
    requires i < |items|
  {
    forall j :: i < j < |items| ==> items[j].key != items[i].key
  }

  /** An export as a list has every entry once, in key order, with metadata and time if asked. */
  lemma ExportedList(m: Store, raw: RawJson, f: map<string, Json>, metadata: bool) returns (list: seq<Json>)
    requires Served(raw, f) && AsBool(Member(f, "include_metadata")) == Some(metadata)
    requires AsText(Member(f, "format")).Some? && AsText(Member(f, "format")).value != "map"
    ensures var r := HandleExport(m, raw);
            && r.Ok? && r.result.JObj? && Member(r.result.fields, "entries") == JArr(list)
            && Member(r.result.fields, "format") == JStr("entries") && Member(r.result.fields, "entry_count") == JNum(|m|)
    ensures |list| == |Listing(m, "", 0)| == |m|
    ensures forall i :: 0 <= i < |list| ==> Exports(list[i], Listing(m, "", 0)[i], metadata)
  {
    hide SimulatedError, EncodeMetadata, HasPrefix, AsText, AsBool, Exports, ExportItem;
    WholeListing(m);
    hide Listing;
    list := ExportList(Listing(m, "", 0), metadata);
    forall i | 0 <= i < |list| ensures Exports(list[i], Listing(m, "", 0)[i], metadata) {
      ItemExports(Listing(m, "", 0)[i], metadata);
    }
  }

  lemma WholeListing(m: Store)
    ensures |Listing(m, "", 0)| == |m|
  {
    assert (set k <- m | HasPrefix(k, "")) == m.Keys;
  }

  /** One listed item of an export. */
  predicate Exports(j: Json, e: Entry, metadata: bool) {
    && j.JObj? && Member(j.fields, "key") == JStr(e.key) && Member(j.fields, "value") == JStr(e.value)
    && Member(j.fields, "metadata") == (if metadata then EncodeMetadata(e.metadata) else JNull)
    && Member(j.fields, "updated_at") == (if metadata then JStr(e.updatedAt) else JNull)
  }

  lemma ItemExports(e: Entry, metadata: bool)
    ensures Exports(ExportItem(e, metadata), e, metadata)
  {
    hide EncodeMetadata;
  }

  /** An export as an object has every entry under its key. */
  lemma ExportedMap(m: Store, raw: RawJson, f: map<string, Json>, metadata: bool) returns (items: map<string, Json>)
    requires Served(raw, f) && AsBool(Member(f, "include_metadata")) == Some(metadata)
    requires AsText(Member(f, "format")) == Some("map")
    ensures var r := HandleExport(m, raw);
            && r.Ok? && r.result.JObj? && Member(r.result.fields, "items") == JObj(items)
            && Member(r.result.fields, "format") == JStr("map") && Member(r.result.fields, "entry_count") == JNum(|m|)
    ensures items.Keys == m.Keys
    ensures forall k <- m :: items[k] ==
              if metadata then JObj(map["value" := JStr(m[k].value), "metadata" := EncodeMetadata(m[k].metadata),
                                        "updated_at" := JStr(m[k].updatedAt)])
              else JStr(m[k].value)
  {
    hide SimulatedError, EncodeMetadata, AsText, AsBool, Listing;
    items := map k <- m :: ExportValue(m[k], metadata);
  }

  /** Without a test_control a request asks for no error; with one, every handler that can decode the rest of its
      parameters answers with the error code it names and changes nothing. */
  lemma TestControl(m: Store, raw: RawJson, now: string, f: map<string, Json>, control: map<string, Json>, code: int)
    requires Fields(raw) == Some(f)
    ensures "test_control" !in f ==> SimulatedError(f) == Some(0)
    ensures Member(f, "test_control") == JObj(control) && Member(control, "error_code") == JNum(code) ==>
              var sound := AsInt(Member(control, "delay_ms")).Some? && AsText(Member(control, "error_message")).Some?;
              && SimulatedError(f) == (if sound then Some(code) else None)
              && (sound && code != 0 ==>
                    && (DecodeItem(f).Some? && AsText(Member(f, "mode")).Some? ==> HandleSet(m, raw, now) == (m, Fail(code)))
                    && (AsText(Member(f, "key")).Some? ==> HandleDelete(m, raw) == (m, Fail(code)))
                    && (DecodeItems(Member(f, "entries")).Some? && AsText(Member(f, "mode")).Some? ==>
                          HandleBatchSet(m, raw, now) == HandleImport(m, raw, now) == (m, Fail(code))))
  {
    hide DecodeItem, DecodeItems, BatchUpsert, ReplaceAll, Blank;
  }

  /** A verification result decodes exactly when it is null, or an object whose outcome and message are text, null or
      absent. */
  lemma VerdictDecodesIff(verify: Json)
    ensures VerdictDecodes(verify) <==>
            || verify.JNull?
            || (verify.JObj? && forall name <- {"outcome", "message"} ::
                  name !in verify.fields || verify.fields[name].JStr? || verify.fields[name].JNull?)
  {
    assert verify.JObj? ==>
      forall name :: AsText(Member(verify.fields, name)).Some? <==>
        name !in verify.fields || verify.fields[name].JStr? || verify.fields[name].JNull?;
  }

  /** A rollback of a set puts back what its envelope says was there, and otherwise removes the key. */
  lemma RollbackSetMeaning(m: Store, raw: RawJson, now: string)
    ensures var (n, r) := HandleRollbackSet(m, raw, now);
            var u := DecodeUndo(raw);
            && (r.Ok? <==> u.Some? && !Blank(u.value.key))
            && (r.Fail? ==> n == m && r == Fail(-32602))
            && (r.Ok? ==>
                  var back := u.value.exists_ || u.value.value != "" || u.value.metadata != NO_METADATA;
                  && (forall k :: k != u.value.key ==> (k in n <==> k in m) && (k in n ==> n[k] == m[k]))
                  && (u.value.key in n <==> back)
                  && (back ==> n[u.value.key] == Entry(u.value.key, u.value.value, u.value.metadata, now))
                  && r.result.JObj? && Member(r.result.fields, "rolled_back") == JBool(true)
                  && Member(r.result.fields, "key") == JStr(u.value.key)
                  && Member(r.result.fields, "action") ==
                     JStr(if back then "restore_previous_value" else "delete_created_value"))
  {
    hide DecodeUndo, Blank;
  }

  // ---------------------------------------------------------------- rollback of a set

  /** Equal keys, values and metadata; the time of the last write may differ. */
  ghost predicate SameContent(a: Store, b: Store) {
    a.Keys == b.Keys && forall k <- a :: a[k].value == b[k].value && a[k].metadata == b[k].metadata
  }

  /** What a successful set leaves behind. */
  lemma SetEffect(m: Store, raw: RawJson, now: string)
    returns (f: map<string, Json>, key: string, e: Entry, created: bool)
    requires HandleSet(m, raw, now).1.Ok?
    ensures Fields(raw) == Some(f) && AsText(Member(f, "key")) == Some(key) && !Blank(key)
    ensures created ==> key !in m
    ensures AsText(Member(f, "value")) == Some(e.value) && DecodeMetadata(Member(f, "metadata")) == Some(e.metadata)
    ensures e.key == key && e.updatedAt == now
    ensures HandleSet(m, raw, now) == (m[key := e],
      Ok(SetReply(key, created, if key in m then Some(m[key]) else None, now)))
  {
    hide DecodeMetadata, SetReply, SimulatedError;
    f := Fields(raw).value;
    key := AsText(Member(f, "key")).value;
    created := AsText(Member(f, "mode")).value == "create";
    e := HandleSet(m, raw, now).0[key];
  }

  /** The handler reads back from an envelope what the set's reply recorded. */
  lemma UndoDecodes(envelope: map<string, Json>, params: map<string, Json>, key: string, created: bool,
                    previous: Option<Entry>, now: string)
    requires AsObject(Member(envelope, "params")) == Some(params) && AsText(Member(params, "key")) == Some(key)
    requires Member(envelope, "result") == SetReply(key, created, previous, now)
    requires AsText(Member(envelope, "primitive")).Some? && AsText(Member(envelope, "checkpoint_id")).Some?
    requires created ==> previous.None?
    ensures DecodeUndo(Value(JObj(envelope))) ==
            if !VerdictDecodes(Member(envelope, "verify")) then None
            else Some(Undo(key, previous.Some?, if previous.Some? then previous.value.value else "",
                           if previous.Some? then previous.value.metadata else NO_METADATA))
  {
    hide DecodeMetadata, SetReply, AsText;
    ReplyRecords(key, created, previous, now);
  }

  lemma ReplyRecords(key: string, created: bool, previous: Option<Entry>, now: string)
    requires created ==> previous.None?
    ensures var r := SetReply(key, created, previous, now);
            && r.JObj? && AsBool(Member(r.fields, "previous_exists")) == Some(previous.Some?)
            && AsText(Member(r.fields, "previous_value")) ==
                 Some(if previous.Some? then previous.value.value else "")
            && DecodeMetadata(Member(r.fields, "previous_metadata")) ==
                 Some(if previous.Some? then previous.value.metadata else NO_METADATA)
  {
    hide DecodeMetadata, EncodeMetadata;
    MetadataRoundTrip(if previous.Some? then previous.value.metadata else NO_METADATA);
    NullMetadata();
  }

  lemma NullMetadata()
    ensures DecodeMetadata(JNull) == Some(NO_METADATA)
  {
    MetadataRoundTrip(NO_METADATA);
    assert EncodeMetadata(NO_METADATA) == JObj(map[]);
  }

  /** Undoing a set restores every key, unless the verdict in the envelope cannot be decoded: then the rollback is
      refused and the store is left alone. */
  lemma UndoRestores(m: Store, envelope: map<string, Json>, params: map<string, Json>, key: string, e: Entry,
                     created: bool, now: string, later: string)
    requires AsObject(Member(envelope, "params")) == Some(params) && AsText(Member(params, "key")) == Some(key)
    requires Member(envelope, "result") == SetReply(key, created, if key in m then Some(m[key]) else None, now)
    requires AsText(Member(envelope, "primitive")).Some? && AsText(Member(envelope, "checkpoint_id")).Some?
    requires !Blank(key) && (created ==> key !in m)
    ensures var (n, r) := HandleRollbackSet(m[key := e], Value(JObj(envelope)), later);
            if VerdictDecodes(Member(envelope, "verify")) then r.Ok? && SameContent(n, m)
            else r == Fail(INVALID_PARAMS) && n == m[key := e]
  {
    hide DecodeUndo, SetReply, VerdictDecodes, AsText;
    UndoDecodes(envelope, params, key, created, if key in m then Some(m[key]) else None, now);
  }

  /** Every successful kv.set is undone by kv.rollback_set with the envelope the sandbox router builds, exactly
      when the verification result in it can be decoded. */
  lemma RouterRollbackUndoesSet(m: Store, raw: RawJson, now: string, verify: Json, later: string)
    requires HandleSet(m, raw, now).1.Ok?
    ensures var (after, reply) := HandleSet(m, raw, now);
            var (n, r) := HandleRollbackSet(after, RouterEnvelope("kv.set", raw, reply.result, verify), later);
            if VerdictDecodes(verify) then r.Ok? && SameContent(n, m) else r == Fail(INVALID_PARAMS) && n == after
  {
    hide HandleRollbackSet, HandleSet, SetReply, VerdictDecodes;
    var f, key, e, created := SetEffect(m, raw, now);
    var reply := HandleSet(m, raw, now).1;
    var envelope := RouterEnvelope("kv.set", raw, reply.result, verify).doc.fields;
    UndoRestores(m, envelope, f, key, e, created, now, later);
  }

  /** Every successful kv.set is undone by kv.rollback_set with the envelope the step engine builds, whatever the
      verification outcome of that attempt. */
  lemma EngineRollbackUndoesSet(m: Store, step: StepEngine.Step, now: string, result: PrimitiveExecutor.StepResult,
                                run: StepEngine.CvrRun, later: string)
    requires HandleSet(m, step.input, now).1.Ok? && result.data == Value(HandleSet(m, step.input, now).1.result)
    ensures var payload := StepEngine.RollbackPayload(step, Some(result), run);
            && payload.Some?
            && var (n, r) := HandleRollbackSet(HandleSet(m, step.input, now).0, Value(payload.value), later);
               r.Ok? && SameContent(n, m)
  {
    hide HandleRollbackSet, HandleSet, SetReply, SimulatedError, Blank, DecodeMetadata, SameContent;
    var f, key, e, created := SetEffect(m, step.input, now);
    NamedKeyIsObject(step.input, f, key);
    SetReplyIsObject(key, created, if key in m then Some(m[key]) else None, now);
    var payload := StepEngine.RollbackPayload(step, Some(result), run);
    UndoRestores(m, payload.value.fields, f, key, e, created, now, later);
  }

  lemma NamedKeyIsObject(raw: RawJson, f: map<string, Json>, key: string)
    requires Fields(raw) == Some(f) && AsText(Member(f, "key")) == Some(key) && !Blank(key)
    ensures raw == Value(JObj(f))
  {
  }

  lemma SetReplyIsObject(key: string, created: bool, previous: Option<Entry>, now: string)
    ensures SetReply(key, created, previous, now).JObj?
  {
  }

  /** The usable key in the parameters of a set, if any. */
  function NamedKey(raw: RawJson): Option<string> {
    var f := Fields(raw);
    if f.None? then None else
    var key := AsText(Member(f.value, "key"));
    if key.None? || Blank(key.value) then None else key
  }

  /** Without a reply in it, an envelope makes the handler delete the key it names. */
  lemma UnreportedUndo(envelope: map<string, Json>, params: map<string, Json>)
    requires AsObject(Member(envelope, "params")) == Some(params) && "result" !in envelope
    requires AsText(Member(envelope, "primitive")).Some? && AsText(Member(envelope, "checkpoint_id")).Some?
    requires VerdictDecodes(Member(envelope, "verify"))
    ensures var key := AsText(Member(params, "key"));
            DecodeUndo(Value(JObj(envelope))) ==
            if key.None? then None else Some(Undo(key.value, false, "", NO_METADATA))
  {
    hide VerdictDecodes, DecodeMetadata, AsText;
    NullMetadata();
    assert AsText(JNull) == Some("") by { TextOfNull(); }
  }

  lemma TextOfNull()
    ensures AsText(JNull) == Some("")
  {
  }

  /** A set writes at most the key it names. */
  lemma SetTouchesNamedKey(m: Store, raw: RawJson, now: string)
    ensures var after := HandleSet(m, raw, now).0;
            after == m || (NamedKey(raw).Some? && NamedKey(raw).value in after && after == m[NamedKey(raw).value := after[NamedKey(raw).value]])
  {
    hide DecodeMetadata, SetReply, SimulatedError, Blank;
  }

  /** What a kv.set can have left: the content it found, if it never reached the adapter, or what its handler made. */
  predicate LeftBySet(m: Store, raw: RawJson, now: string, after: Store) {
    after == m || after == HandleSet(m, raw, now).0
  }

  /** What the engine's rollback of any kv.set leaves, whether the set succeeded, failed, never reached the adapter, or
      took effect without its reply arriving: the content before the set exactly when its reply is in the envelope, or
      the parameters name no usable key, or that key was not there. */
  lemma EngineRollbackIff(m: Store, step: StepEngine.Step, now: string, after: Store,
                          result: Option<PrimitiveExecutor.StepResult>, run: StepEngine.CvrRun, later: string)
    requires LeftBySet(m, step.input, now, after)
    requires result.Some? && !result.value.data.Absent? ==>
               && after == HandleSet(m, step.input, now).0 && HandleSet(m, step.input, now).1.Ok?
               && result.value.data == Value(HandleSet(m, step.input, now).1.result)
    ensures var payload := StepEngine.RollbackPayload(step, result, run);
            var n := if payload.Some? then HandleRollbackSet(after, Value(payload.value), later).0 else after;
            var reported := result.Some? && !result.value.data.Absent?;
            SameContent(n, m) <==>
            reported || NamedKey(step.input).None? || NamedKey(step.input).value !in m
  {
    hide HandleRollbackSet, HandleSet, SetReply, SimulatedError, NamedKey;
    var payload := StepEngine.RollbackPayload(step, result, run);
    if result.Some? && !result.value.data.Absent? {
      EngineRollbackUndoesSet(m, step, now, result.value, run, later);
    } else if payload.None? {
      SetTouchesNamedKey(m, step.input, now);
      NoFieldsNoKey(step.input);
    } else {
      UnreportedRollback(m, step, now, after, payload.value.fields, later);
    }
  }

  lemma NoFieldsNoKey(raw: RawJson)
    ensures Fields(raw).None? ==> NamedKey(raw).None?
  {
  }

  lemma UnreportedRollback(m: Store, step: StepEngine.Step, now: string, after: Store, envelope: map<string, Json>,
                           later: string)
    requires LeftBySet(m, step.input, now, after)
    requires Fields(step.input).Some? && "params" in envelope && "result" !in envelope
    requires envelope["params"] == if step.input.Absent? then JNull else step.input.doc
    requires AsText(Member(envelope, "primitive")).Some? && AsText(Member(envelope, "checkpoint_id")).Some?
    requires VerdictDecodes(Member(envelope, "verify"))
    ensures var key := NamedKey(step.input);
            SameContent(HandleRollbackSet(after, Value(JObj(envelope)), later).0, m) <==> key.None? || key.value !in m
  {
    hide HandleSet, DecodeUndo, VerdictDecodes, AsText, Blank;
    SetTouchesNamedKey(m, step.input, now);
    UnreportedUndo(envelope, Fields(step.input).value);
    var key := NamedKey(step.input);
    if key.Some? {
      assert HandleRollbackSet(after, Value(JObj(envelope)), later).0 == m - {key.value};
    }
  }

  const ONE_ENTRY: Store := map["a" := Entry("a", "kept", NO_METADATA, "")]
  const CREATE_A := StepEngine.Step("s1", "kv.set", Value(JObj(map["key" := JStr("a"), "mode" := JStr("create")])))

  lemma CreateConflicts(now: string)
    ensures NamedKey(CREATE_A.input) == Some("a")
    ensures HandleSet(ONE_ENTRY, CREATE_A.input, now) == (ONE_ENTRY, Fail(4091))
  {
    hide DecodeMetadata, SetReply, Blank;
    NullMetadata();
    assert !Blank("a") by { NotBlank("a"); }
  }

  lemma NotBlank(s: string)
    requires s == "a"
    ensures !Blank(s)
  {
    assert !IsSpace(s[0]);
  }

  /** The adapter's own manifest of kv.set. */
  const SET_MANIFEST := Manifest(
    "pb-kv-adapter", "kv.set", "", BlankText, BlankText, "", "/tmp/pb-kv.sock", "active",
    "kv.verify", Some(Cvr.AppVerify("primitive", "kv.verify", "")),
    "kv.rollback_set", Some(Cvr.AppRollback("primitive", "kv.rollback_set")),
    Cvr.Intent(Cvr.Mutation, true, Cvr.Medium))

  /** The engine before an adapter that holds one entry: kv.set is refused as its handler refuses it. */
  function ConflictEnv(): StepEngine.Env {
    StepEngine.Env((w: PrimitiveExecutor.World, c: PrimitiveExecutor.Call) =>
                     RouterTheorems.AsReply(if c.name == "kv.set" then NotRouted(CallFailed) else Routed(JNull), w.workspace),
                   w => true, (w, i) => Some(SET_MANIFEST), None, Cvr.DefaultTree())
  }

  lemma UnknownSet(p: string)
    requires p == "kv.set"
    ensures StepEngine.StaticIntent(p) == None
  {
    hide StepEngine.MatchRule;
    StepExamples.NoRule(StepEngine.INTENT_RULES, p);
  }

  lemma RefusedSetRun()
    ensures var c := StepEngine.CvrExecute(ConflictEnv(), StepExamples.START, CREATE_A, 0);
            && c.checkpointId == "" && c.outcome == Cvr.Errored && c.world.trace == [StepEngine.MainCall(CREATE_A)]
            && c.err == Some(PrimitiveExecutor.Failure("route error"))
            && StepEngine.ResultOf(c).Some? && StepEngine.ResultOf(c).value.data.Absent?
  {
    hide StepEngine.StaticIntent, Cvr.Decide;
    UnknownSet(CREATE_A.primitive);
  }

  lemma RefusedSetAttempt() returns (call: PrimitiveExecutor.Call, run: StepEngine.CvrRun,
                                     result: Option<PrimitiveExecutor.StepResult>)
    ensures var payload := StepEngine.RollbackPayload(CREATE_A, result, run);
            payload.Some? && call == PrimitiveExecutor.Call("kv.rollback_set", Value(payload.value))
    ensures result.Some? && result.value.data.Absent?
    ensures var a := StepEngine.Attempt(ConflictEnv(), StepExamples.START, CREATE_A, StepExamples.NEW_STEP, 0, 3);
            && !a.again && a.state.status == StepEngine.RolledBack
            && a.world.trace == [StepEngine.MainCall(CREATE_A), call]
  {
    hide StepEngine.CvrExecute, StepEngine.RollbackPayload;
    RefusedSetRun();
    run := StepEngine.CvrExecute(ConflictEnv(), StepExamples.START, CREATE_A, 0);
    result := StepEngine.ResultOf(run);
    CreatePayload(result, run);
    call := PrimitiveExecutor.Call("kv.rollback_set", Value(StepEngine.RollbackPayload(CREATE_A, result, run).value));
  }

  lemma CreatePayload(result: Option<PrimitiveExecutor.StepResult>, run: StepEngine.CvrRun)
    requires result.Some? && result.value.data.Absent?
    ensures StepEngine.RollbackPayload(CREATE_A, result, run).Some?
  {
  }

  /** So a kv.set in create mode on a key that exists fails and changes nothing; the engine's attempt at it, under the
      adapter's own manifest, ends in a kv.rollback_set and is reported rolled back; and that call deletes the key. */
  lemma FailedCreateDeletes(now: string, later: string) returns (call: PrimitiveExecutor.Call)
    ensures HandleSet(ONE_ENTRY, CREATE_A.input, now) == (ONE_ENTRY, Fail(4091))
    ensures var a := StepEngine.Attempt(ConflictEnv(), StepExamples.START, CREATE_A, StepExamples.NEW_STEP, 0, 3);
            && !a.again && a.state.status == StepEngine.RolledBack
            && a.world.trace == [StepEngine.MainCall(CREATE_A), call] && call.name == "kv.rollback_set"
    ensures !SameContent(HandleRollbackSet(ONE_ENTRY, call.params, later).0, ONE_ENTRY)
  {
    hide HandleRollbackSet, HandleSet, NamedKey, SameContent, StepEngine.Attempt, StepEngine.RollbackPayload;
    CreateConflicts(now);
    var run, result;
    call, run, result := RefusedSetAttempt();
    EngineRollbackIff(ONE_ENTRY, CREATE_A, now, ONE_ENTRY, result, run, later);
  }

  // ---------------------------------------------------------------- reachable stores, export and import

  datatype Request = Request(name: string, params: RawJson, now: string)

  /** The store after one request; kv.get, kv.list, kv.exists, kv.export, kv.verify and unknown methods only read. */
  function Handle(m: Store, q: Request): Store {
    if q.name == "kv.set" then HandleSet(m, q.params, q.now).0
    else if q.name == "kv.delete" then HandleDelete(m, q.params).0
    else if q.name == "kv.batch_set" then HandleBatchSet(m, q.params, q.now).0
    else if q.name == "kv.import" then HandleImport(m, q.params, q.now).0
    else if q.name == "kv.rollback_set" then HandleRollbackSet(m, q.params, q.now).0
    else m
  }

  /** Each of the five writing methods goes to its handler; every other request leaves the store alone. */
  lemma RequestsGoToHandlers(m: Store, params: RawJson, now: string, name: string)
    ensures Handle(m, Request("kv.set", params, now)) == HandleSet(m, params, now).0
    ensures Handle(m, Request("kv.delete", params, now)) == HandleDelete(m, params).0
    ensures Handle(m, Request("kv.batch_set", params, now)) == HandleBatchSet(m, params, now).0
    ensures Handle(m, Request("kv.import", params, now)) == HandleImport(m, params, now).0
    ensures Handle(m, Request("kv.rollback_set", params, now)) == HandleRollbackSet(m, params, now).0
    ensures name !in {"kv.set", "kv.delete", "kv.batch_set", "kv.import", "kv.rollback_set"} ==>
              Handle(m, Request(name, params, now)) == m
  {
    hide HandleSet, HandleDelete, HandleBatchSet, HandleImport, HandleRollbackSet;
    assert "kv.set"[3] != "kv.delete"[3] && "kv.set"[3] != "kv.batch_set"[3] && "kv.set"[3] != "kv.import"[3];
    assert "kv.set"[3] != "kv.rollback_set"[3] && "kv.delete"[3] != "kv.batch_set"[3] && "kv.delete"[3] != "kv.import"[3];
    assert "kv.delete"[3] != "kv.rollback_set"[3] && "kv.batch_set"[3] != "kv.import"[3];
    assert "kv.batch_set"[3] != "kv.rollback_set"[3] && "kv.import"[3] != "kv.rollback_set"[3];
  }

  function HandleAll(m: Store, requests: seq<Request>): Store
    decreases |requests|
  {
    if requests == [] then m
    else Handle(HandleAll(m, requests[..|requests| - 1]), requests[|requests| - 1])
  }

  /** Every entry lies under its own key, and no key is blank. */
  ghost predicate Sound(m: Store) { forall k <- m :: !Blank(k) && m[k].key == k }

  lemma {:induction false} PutSound(m: Store, entries: seq<Entry>)
    requires Sound(m) && forall i :: 0 <= i < |entries| ==> !Blank(entries[i].key)
    ensures Sound(Put(m, entries))
  {
    hide Blank;
    if entries != [] { PutSound(m, entries[..|entries| - 1]); }
  }

  lemma SetSound(m: Store, raw: RawJson, now: string)
    requires Sound(m)
    ensures Sound(HandleSet(m, raw, now).0)
  {
    hide Blank, DecodeItem, SimulatedError, SetReply;
  }

  lemma BatchSetSound(m: Store, raw: RawJson, now: string)
    requires Sound(m)
    ensures Sound(HandleBatchSet(m, raw, now).0)
  {
    hide Sound, Blank, DecodeItems, SimulatedError;
    forall items: seq<Item>, mode: string
      ensures Sound(BatchUpsert(m, Stamped(items, now), mode).0)
    {
      var entries := Stamped(items, now);
      if BatchUpsert(m, entries, mode).1.Stored? {
        forall i | 0 <= i < |entries| ensures !Blank(entries[i].key) { assert !Invalid(entries, i); }
        PutSound(m, entries);
      }
    }
  }

  lemma ImportSound(m: Store, raw: RawJson, now: string)
    requires Sound(m)
    ensures Sound(HandleImport(m, raw, now).0)
  {
    hide Blank, DecodeItems, SimulatedError;
    forall items: seq<Item>, merge: bool | !exists x <- items :: Blank(x.key)
      ensures Sound(ReplaceAll(m, Stamped(items, now), merge))
    {
      PutSound(if merge then m else map[], Stamped(items, now));
    }
  }

  lemma HandleSound(m: Store, q: Request)
    requires Sound(m)
    ensures Sound(Handle(m, q))
  {
    hide HandleSet, HandleBatchSet, HandleImport, Blank, DecodeUndo, SimulatedError;
    SetSound(m, q.params, q.now);
    BatchSetSound(m, q.params, q.now);
    ImportSound(m, q.params, q.now);
  }

  /** Whatever requests an adapter has served, its store has only non-blank keys, each holding its own entry. */
  lemma {:induction false} ReachableSound(m: Store, requests: seq<Request>)
    requires Sound(m)
    ensures Sound(HandleAll(m, requests))
    decreases |requests|
  {
    hide Handle, Sound;
    if requests != [] {
      ReachableSound(m, requests[..|requests| - 1]);
      HandleSound(HandleAll(m, requests[..|requests| - 1]), requests[|requests| - 1]);
    }
  }

  lemma ItemRoundTrip(e: Entry)
    ensures DecodeListed(ExportItem(e, true)) == Some(Item(e.key, e.value, e.metadata))
  {
    hide DecodeMetadata, EncodeMetadata;
    MetadataRoundTrip(e.metadata);
  }

  lemma ItemsRoundTrip(entries: seq<Entry>)
    ensures var items := DecodeItems(JArr(ExportList(entries, true)));
            && items.Some? && |items.value| == |entries|
            && forall i :: 0 <= i < |entries| ==>
                 items.value[i] == Item(entries[i].key, entries[i].value, entries[i].metadata)
  {
    hide DecodeListed, ExportItem;
    var list := ExportList(entries, true);
    forall i | 0 <= i < |entries|
      ensures DecodeListed(list[i]) == Some(Item(entries[i].key, entries[i].value, entries[i].metadata))
    {
      ItemRoundTrip(entries[i]);
    }
    assert forall x <- list :: exists i :: 0 <= i < |list| && list[i] == x;
  }

  /** Writing one entry per key of a sound store rebuilds its content. */
  lemma RebuildsContent(m: Store, keys: seq<string>, entries: seq<Entry>)
    requires |entries| == |keys| && Distinct(keys) && forall k :: k in keys <==> k in m
    requires forall i :: 0 <= i < |keys| ==>
               keys[i] in m && entries[i].key == keys[i] && entries[i].value == m[keys[i]].value
               && entries[i].metadata == m[keys[i]].metadata
    ensures SameContent(Put(map[], entries), m)
  {
    var n := Put(map[], entries);
    forall k ensures k in n <==> k in m { PutKeys(map[], entries, k); }
    forall k <- m ensures n[k].value == m[k].value && n[k].metadata == m[k].metadata {
      assert k in keys;
      var i :| 0 <= i < |keys| && keys[i] == k;
      PutLookup(map[], entries, i);
    }
  }

  const EXPORT_PARAMS := Value(JObj(map["include_metadata" := JBool(true)]))

  function ImportParams(entries: Json): RawJson {
    Value(JObj(map["entries" := entries, "mode" := JStr("replace")]))
  }

  lemma ExportGives(m: Store)
    ensures var r := HandleExport(m, EXPORT_PARAMS);
            && r.Ok? && r.result.JObj? && "entries" in r.result.fields
            && r.result.fields["entries"] == JArr(ExportList(Listing(m, "", 0), true))
  {
    hide Listing, ExportList;
  }

  lemma ImportTakes(target: Store, list: Json, items: seq<Item>, now: string)
    requires DecodeItems(list) == Some(items) && forall x <- items :: !Blank(x.key)
    ensures var (n, r) := HandleImport(target, ImportParams(list), now);
            r.Ok? && n == Put(map[], Stamped(items, now))
  {
    hide DecodeItems, Blank, Put;
  }

  lemma ListingKeys(m: Store) returns (keys: seq<string>)
    requires Sound(m)
    ensures Distinct(keys) && (forall k :: k in keys <==> k in m) && |Listing(m, "", 0)| == |keys|
    ensures forall i :: 0 <= i < |keys| ==>
              keys[i] in m && !Blank(keys[i]) && Listing(m, "", 0)[i] == m[keys[i]] && m[keys[i]].key == keys[i]
  {
    hide Blank;
    keys := SortedKeys(set k <- m | HasPrefix(k, ""));
    StringsOrdered();
    assert forall i :: 0 <= i < |keys| ==> keys[i] in keys;
  }

  lemma SoundExportImport(m: Store, target: Store, now: string)
    requires Sound(m)
    ensures var list := JArr(ExportList(Listing(m, "", 0), true));
            var (n, r) := HandleImport(target, ImportParams(list), now);
            r.Ok? && SameContent(n, m)
  {
    hide HandleImport, Listing, DecodeItems, Blank, Put, Sound;
    var entries := Listing(m, "", 0);
    ItemsRoundTrip(entries);
    var items := DecodeItems(JArr(ExportList(entries, true))).value;
    var keys := ListingKeys(m);
    assert forall x <- items :: exists i :: 0 <= i < |items| && items[i] == x;
    ImportTakes(target, JArr(ExportList(entries, true)), items, now);
    RebuildsContent(m, keys, Stamped(items, now));
  }

  /** Exporting the entries of a reachable store with their metadata and importing them in replace mode, into any
      store, is never rejected and gives back the same keys, values and metadata. */
  lemma ExportThenImport(requests: seq<Request>, target: Store, now: string)
    ensures var m := HandleAll(map[], requests);
            var exported := HandleExport(m, EXPORT_PARAMS);
            && exported.Ok? && exported.result.JObj? && "entries" in exported.result.fields
            && var (n, r) := HandleImport(target, ImportParams(exported.result.fields["entries"]), now);
               r.Ok? && SameContent(n, m)
  {
    var m := HandleAll(map[], requests);
    ReachableSound(map[], requests);
    hide HandleAll, HandleImport, HandleExport;
    ExportGives(m);
    SoundExportImport(m, target, now);
  }
}
