/** JSON as Python holds it once parsed. */
module PyValue {
  import opened Wrappers

  /**
   Equality of these values is the code's own: type by type, so that 1, 1.0 and
   true differ, and regardless of the order of dictionary entries.
   */
  datatype Value =
    | PyNone
    | PyBool(b: bool)
    | PyInt(i: int)
    | PyFloat(r: real)
    | PyStr(s: string)
    | PyList(items: seq<Value>)
    | PyDict(members: map<string, Value>)

  function Get(v: Value, key: string): Option<Value> {
    if v.PyDict? && key in v.members then Some(v.members[key]) else None
  }

  predicate IsNumber(v: Value) {
    v.PyInt? || v.PyFloat?
  }

  function AsReal(v: Value): real
    requires IsNumber(v)
  {
    if v.PyInt? then v.i as real else v.r
  }

  predicate Truthy(v: Value) {
    match v
    case PyNone => false
    case PyBool(b) => b
    case PyInt(i) => i != 0
    case PyFloat(r) => r != 0.0
    case PyStr(s) => s != ""
    case PyList(items) => items != []
    case PyDict(members) => members != map[]
  }
}
