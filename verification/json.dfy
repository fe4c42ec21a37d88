/** The JSON values the registry reads from the shared file, local storage and the bundled
    defaults, with JavaScript's truthiness and property access. Numbers are integers. */
module JsonValue {

  datatype Json =
    | JNull
    | JBool(b: bool)
    | JNum(n: int)
    | JStr(s: string)
    | JArr(items: seq<Json>)
    | JObj(fields: map<string, Json>)

  /** JavaScript truthiness; a missing property reads as `JNull`. */
  predicate Truthy(j: Json) {
    match j
    case JNull => false
    case JBool(b) => b
    case JNum(n) => n != 0
    case JStr(s) => s != ""
    case _ => true
  }

  /** `typeof j === 'object' && j !== null`: arrays count as objects. */
  predicate IsObject(j: Json) {
    j.JArr? || j.JObj?
  }

  /** Property read `j.name` (or `j?.name`); anything but an object with that property
      yields `JNull`. */
  function Get(j: Json, name: string): Json {
    if j.JObj? && name in j.fields then j.fields[name] else JNull
  }

  /** A string property; a missing or non-string value reads as "". */
  function Str(j: Json, name: string): string {
    match Get(j, name)
    case JStr(s) => s
    case _ => ""
  }
}
