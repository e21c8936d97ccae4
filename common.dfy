/** Values shared by every part of the model: the usual Option and Result wrappers and the
    JSON values that request bodies and stored documents are made of. */
module Common {

  datatype Option<+T> = None | Some(value: T)

  datatype Result<+T, +E> = Ok(value: T) | Err(error: E)

  /** A parsed JSON value. Numbers are integers; a field that is absent from an object reads
      as `undefined` in JavaScript, which every check in this model treats like JNull. */
  datatype Json =
    | JNull
    | JBool(b: bool)
    | JNum(n: int)
    | JStr(s: string)
    | JArr(elems: seq<Json>)
    | JObj(fields: seq<(string, Json)>)

  /** JavaScript truthiness: null, undefined, false, 0 and "" are falsy, everything else is truthy. */
  predicate Truthy(j: Json) {
    match j
    case JNull => false
    case JBool(b) => b
    case JNum(n) => n != 0
    case JStr(s) => s != ""
    case JArr(_) => true
    case JObj(_) => true
  }

  /** The value of `fields[name]` after JSON.parse, where a repeated key keeps its last value. */
  function FieldValue(fields: seq<(string, Json)>, name: string): Json
  {
    if |fields| == 0 then JNull
    else if fields[|fields| - 1].0 == name then fields[|fields| - 1].1
    else FieldValue(fields[..|fields| - 1], name)
  }

  /** The JavaScript property read `v.name` on a parsed body: None when the read throws a
      TypeError (v is null), otherwise the value, JNull standing for undefined. */
  function Member(v: Json, name: string): Option<Json>
  {
    match v
    case JNull => None
    case JObj(fields) => Some(FieldValue(fields, name))
    case _ => Some(JNull)
  }
}
