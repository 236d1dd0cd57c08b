/** `SiteDeployer.validateWordingData`: the three field checks on a parsed JSON object. */
module Validation {

  /** A JavaScript value as `JSON.parse` can produce it, plus `undefined` for a missing field.
      Numbers are integers here. */
  datatype Json =
    | Undefined
    | Null
    | Bool(b: bool)
    | Number(n: int)
    | Str(s: string)
    | Array(elements: seq<Json>)
    | Object(fields: map<string, Json>)

  /** JavaScript truthiness. */
  predicate Truthy(v: Json)
  {
    match v
    case Undefined => false
    case Null => false
    case Bool(b) => b
    case Number(n) => n != 0
    case Str(s) => s != ""
    case Array(_) => true
    case Object(_) => true
  }

  /** `typeof v === 'object'` (true of null and of arrays). */
  predicate TypeofObject(v: Json)
  {
    v.Null? || v.Array? || v.Object?
  }

  /** `data.name`: the field, or `undefined`. */
  function Field(data: map<string, Json>, name: string): Json
  {
    if name in data then data[name] else Undefined
  }

  datatype Validation = Validation(valid: bool, errors: seq<string>)

  const MissingSiteId: string := "Champ \"site_id\" manquant"
  const MissingVersion: string := "Champ \"version\" manquant"
  const InvalidContent: string := "Champ \"content\" manquant ou invalide"

  /** Position of a message in the order the checks run. */
  function Rank(message: string): nat
  {
    if message == MissingSiteId then 0 else if message == MissingVersion then 1 else 2
  }

  predicate SiteIdOk(data: map<string, Json>) { Truthy(Field(data, "site_id")) }
  predicate VersionOk(data: map<string, Json>) { Truthy(Field(data, "version")) }
  predicate ContentOk(data: map<string, Json>)
  {
    Truthy(Field(data, "content")) && TypeofObject(Field(data, "content"))
  }

  /** `validateWordingData(data)` for an object `data`: one message per failed check, in the
      order site_id, version, content; valid exactly when there is none. */
  function ValidateWordingData(data: map<string, Json>): (r: Validation)
    ensures r.valid <==> r.errors == []
    ensures r.valid <==> SiteIdOk(data) && VersionOk(data) && ContentOk(data)
    ensures MissingSiteId in r.errors <==> !SiteIdOk(data)
    ensures MissingVersion in r.errors <==> !VersionOk(data)
    ensures InvalidContent in r.errors <==> !ContentOk(data)
    ensures forall m | m in r.errors :: m == MissingSiteId || m == MissingVersion || m == InvalidContent
    ensures |r.errors| == (if SiteIdOk(data) then 0 else 1) + (if VersionOk(data) then 0 else 1)
                          + (if ContentOk(data) then 0 else 1)
    ensures forall i, j :: 0 <= i < j < |r.errors| ==> Rank(r.errors[i]) < Rank(r.errors[j])
  {
    var e1 := if !Truthy(Field(data, "site_id")) then [MissingSiteId] else [];
    var e2 := if !Truthy(Field(data, "version")) then [MissingVersion] else [];
    var c := Field(data, "content");
    var e3 := if !Truthy(c) || !TypeofObject(c) then [InvalidContent] else [];
    var errors := e1 + e2 + e3;
    Validation(|errors| == 0, errors)
  }

  /** An array passes the content check (`typeof [] === 'object'`), while null and a string fail. */
  lemma ContentCheckExamples()
    ensures ContentOk(map["content" := Array([])])
    ensures !ContentOk(map["content" := Null])
    ensures !ContentOk(map["content" := Str("x")])
    ensures !ContentOk(map[])
  {
  }
}
