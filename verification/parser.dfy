/**
 * Turning a parsed shortcut document into a `Shortcut` (src/shortcut/parser.ts):
 * dispatch on the `schema` key, validate, convert.
 */
module ShortcutParsing {
  import opened Wrappers
  import opened Errors
  import opened Json
  import opened Host
  import opened Shortcuts
  import opened SchemaV1

  /** The newest schema version this program reads. */
  const MaxSchemaVersion := 1

  /** `shortcutObject.schema`: `None` is `undefined`; `null` has no properties at all. */
  function SchemaOf(obj: Value): Option<Value>
    requires !obj.Null?
  {
    if obj.Obj? && "schema" in obj.fields then Some(obj.fields["schema"]) else None
  }

  /** The `switch` accepts an absent `schema` and the number 1, and nothing else. */
  predicate KnownSchema(obj: Value)
    requires !obj.Null?
  {
    SchemaOf(obj) == None || SchemaOf(obj) == Some(Num(MaxSchemaVersion))
  }

  /**
   * `ShortcutParser.fromObject`. `validate` is the schema validator: the typed
   * file when `obj` matches the version 1 schema, `None` when it throws.
   */
  method FromObject(obj: Value, fileInfo: FileInfo, validate: Value -> Option<ShortcutFileV1>, host: Host)
    returns (r: Result<Shortcut, Error>)
    ensures obj.Null? ==> r == Err(PropertyOfNull)
    ensures !obj.Null? && !KnownSchema(obj) ==> r == Err(UnknownSchemaVersion)
    ensures !obj.Null? && KnownSchema(obj) && validate(obj).None? ==> r == Err(ValidationFailed)
    ensures !obj.Null? && KnownSchema(obj) && validate(obj).Some? ==>
      r.Ok? && fresh(r.value) && BuiltFrom(r.value, validate(obj).value, fileInfo, host)
  {
    if obj.Null? {
      return Err(PropertyOfNull);
    }
    if !KnownSchema(obj) {
      return Err(UnknownSchemaVersion);
    }
    var data := validate(obj);
    if data.None? {
      return Err(ValidationFailed);
    }
    var s := GetShortcutFromV1(data.value, fileInfo, host);
    return Ok(s);
  }
}
