/**
  JSON values as the browser builds and reads them: the request payloads handed to the
  observation portal, and the opaque records the stores keep.
 */
module Json {
  import opened Common

  datatype Json =
    | JNull
    | JBool(b: bool)
    | JNum(n: real)
    | JStr(s: string)
    | JArr(items: seq<Json>)
    | JObj(fields: map<string, Json>)

  /** ECMAScript ToBoolean on a JSON value: null, false, 0 and the empty string are falsy. */
  predicate Truthy(j: Json)
  {
    match j
    case JNull => false
    case JBool(b) => b
    case JNum(n) => n != 0.0
    case JStr(s) => s != ""
    case JArr(_) => true
    case JObj(_) => true
  }

  /** The keys an object value carries (none for any other value). */
  function Keys(j: Json): set<string>
  {
    if j.JObj? then j.fields.Keys else {}
  }

  /** `obj[key] = value` on an object value; any other value is left as it is. */
  function SetKey(j: Json, key: string, value: Json): (r: Json)
    ensures j.JObj? ==> r.JObj? && r.fields == j.fields[key := value]
    ensures !j.JObj? ==> r == j
  {
    if j.JObj? then JObj(j.fields[key := value]) else j
  }

  /** Property access `j[key]`; None stands for `undefined`: a missing key, or a value that is no object. */
  function Get(j: Json, key: string): (v: Option<Json>)
    ensures v.Some? <==> key in Keys(j)
    ensures v.Some? ==> j.JObj? && v.value == j.fields[key]
  {
    if j.JObj? && key in j.fields then Some(j.fields[key]) else None
  }

  /**
    `obj[key] = v` while building an object literal. An undefined value leaves the key out,
    as the serialised request (JSON.stringify) leaves undefined-valued properties out.
   */
  function Put(m: map<string, Json>, key: string, v: Option<Json>): (r: map<string, Json>)
    ensures v.Some? ==> r.Keys == m.Keys + {key} && r[key] == v.value
    ensures v.Some? ==> forall k :: k in m && k != key ==> r[k] == m[k]
    ensures v.None? ==> r == m
  {
    if v.Some? then m[key := v.value] else m
  }

  /**
    A JavaScript object as the code builds it: a property may hold `undefined` (None), which
    JSON.stringify leaves out.
   */
  type JsObject = map<string, Option<Json>>

  /** Reading `o[k]` of a JavaScript object: `undefined` when the property is missing. */
  function Prop(o: JsObject, k: string): Option<Json>
  {
    if k in o then o[k] else None
  }

  /** The object as it is serialised: the properties holding `undefined` are left out. */
  function Serialise(o: JsObject): (j: Json)
    ensures j.JObj?
    ensures forall k {:trigger k in j.fields} :: k in j.fields <==> k in o && o[k].Some?
    ensures forall k {:trigger j.fields[k]} :: k in j.fields ==> j.fields[k] == o[k].value
  {
    JObj(map k | k in o && o[k].Some? :: o[k].value)
  }
}
