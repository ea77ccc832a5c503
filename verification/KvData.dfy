/** Entries of the key-value adapter, and their metadata as stored in and read back from JSON. */
module KvData {
  import opened Common
  import opened Json

  // A nil and an empty label map (or tag list) are one value here.
  datatype Metadata = Metadata(contentType: string, labels: map<string, string>, tags: seq<string>, version: int)
  datatype Entry = Entry(key: string, value: string, metadata: Metadata, updatedAt: string)

  const NO_METADATA := Metadata("", map[], [], 0)

  // ---- Decoding JSON members: absent and null members are zero values, other kinds are errors --------

  function Member(f: map<string, Json>, name: string): Json { if name in f then f[name] else JNull }

  function AsText(j: Json): Option<string> {
    match j case JNull => Some("") case JStr(s) => Some(s) case _ => None
  }

  function AsInt(j: Json): Option<int> {
    match j case JNull => Some(0) case JNum(n) => Some(n) case _ => None
  }

  function AsBool(j: Json): Option<bool> {
    match j case JNull => Some(false) case JBool(b) => Some(b) case _ => None
  }

  function AsObject(j: Json): Option<map<string, Json>> {
    match j case JNull => Some(map[]) case JObj(f) => Some(f) case _ => None
  }

  function AsList(j: Json): Option<seq<Json>> {
    match j case JNull => Some([]) case JArr(s) => Some(s) case _ => None
  }

  function AsTexts(j: Json): Option<seq<string>> {
    var items := AsList(j);
    if items.None? || exists x <- items.value :: AsText(x).None? then None
    else Some(seq(|items.value|, i requires 0 <= i < |items.value| => AsText(items.value[i]).value))
  }

  function AsTextMap(j: Json): Option<map<string, string>> {
    var f := AsObject(j);
    if f.None? || exists k <- f.value :: AsText(f.value[k]).None? then None
    else Some(map k <- f.value :: AsText(f.value[k]).value)
  }

  function LabelsJson(labels: map<string, string>): Json { JObj(map k <- labels :: JStr(labels[k])) }

  function TagsJson(tags: seq<string>): Json {
    JArr(seq(|tags|, i requires 0 <= i < |tags| => JStr(tags[i])))
  }

  /** Metadata as JSON: members with an empty value are left out. */
  function EncodeMetadata(m: Metadata): Json {
    var f0 := map[];
    var f1 := if m.contentType == "" then f0 else f0["content_type" := JStr(m.contentType)];
    var f2 := if m.labels == map[] then f1 else f1["labels" := LabelsJson(m.labels)];
    var f3 := if m.tags == [] then f2 else f2["tags" := TagsJson(m.tags)];
    JObj(if m.version == 0 then f3 else f3["version" := JNum(m.version)])
  }

  function DecodeMetadata(j: Json): Option<Metadata> {
    var f := AsObject(j);
    if f.None? then None else
    var contentType := AsText(Member(f.value, "content_type"));
    var labels := AsTextMap(Member(f.value, "labels"));
    var tags := AsTexts(Member(f.value, "tags"));
    var version := AsInt(Member(f.value, "version"));
    if contentType.None? || labels.None? || tags.None? || version.None? then None
    else Some(Metadata(contentType.value, labels.value, tags.value, version.value))
  }

  lemma LabelsRoundTrip(labels: map<string, string>)
    ensures AsTextMap(LabelsJson(labels)) == Some(labels) && AsTextMap(JNull) == Some(map[])
  {
    assert AsTextMap(LabelsJson(labels)).value == labels;
    assert AsTextMap(JNull).value == map[];
  }

  lemma TagsRoundTrip(tags: seq<string>)
    ensures AsTexts(TagsJson(tags)) == Some(tags) && AsTexts(JNull) == Some([])
  {
    assert AsTexts(TagsJson(tags)).value == tags;
    assert AsTexts(JNull).value == [];
  }

  /** Metadata survives its JSON form. */
  lemma MetadataRoundTrip(m: Metadata)
    ensures DecodeMetadata(EncodeMetadata(m)) == Some(m)
  {
    hide AsTextMap, AsTexts, LabelsJson, TagsJson;
    LabelsRoundTrip(m.labels);
    TagsRoundTrip(m.tags);
  }
}
