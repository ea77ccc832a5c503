/** Values shared by every component: optional values, workspaces and sequences without repetition. */
module Common {
  datatype Option<+T> = None | Some(value: T)

  // File contents by path.
  type Workspace = map<string, string>

  ghost predicate Distinct<T>(s: seq<T>) { forall i, j :: 0 <= i < j < |s| ==> s[i] != s[j] }
}

/** JSON documents as values. Parsing and printing of JSON text is not modelled: a raw message is either
    empty, not JSON at all, or carries exactly one document. */
module Json {
  import opened Common

  datatype Json =
    | JNull
    | JBool(b: bool)
    | JNum(n: int)
    | JStr(s: string)
    | JArr(items: seq<Json>)
    | JObj(fields: map<string, Json>)

  datatype RawJson = Absent | Malformed | Value(doc: Json)

  /** The object members of a raw message; empty unless the message is a JSON object. */
  function Members(raw: RawJson): map<string, Json> {
    if raw.Value? && raw.doc.JObj? then raw.doc.fields else map[]
  }
}
