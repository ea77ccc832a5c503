/** Manifests of app-registered primitives. */
module AppManifest {
  import opened Common
  import opened Json
  import opened Cvr

  // The text of a schema member: blank, the literal null, a JSON string holding further text, a JSON
  // document of any other kind, or something that is not JSON.
  datatype SchemaText = BlankText | NullText | Quoted(inner: SchemaText) | Document(doc: Json) | NotJson

  datatype Manifest = Manifest(
    appId: string, name: string, description: string,
    inputSchema: SchemaText, outputSchema: SchemaText,
    uiLayoutHint: string, socketPath: string, availability: string,
    verifyEndpoint: string, verify: Option<AppVerify>,
    rollbackEndpoint: string, rollback: Option<AppRollback>,
    intent: Intent)
}
