/** JSON values as the schema code handles them.  An object is a map: the order in which its
    members are written does not matter to any of the operations modelled here. */
module Json {
  datatype Value =
    | Null
    | Bool(b: bool)
    | Number(n: int)
    | Decimal(x: real)   // written with a point or an exponent
    | Text(s: string)
    | Array(items: seq<Value>)
    | Object(fields: map<string, Value>)

  const REF: string := "$ref"
  const DEFS: string := "$defs"
  const SCHEMA: string := "$schema"
  const DEFS_PREFIX: string := "#/$defs/"

  /** Somewhere in `v` an object has a `$ref` member that is a string. */
  predicate HasRef(v: Value) {
    match v
    case Object(fields) =>
      (REF in fields && fields[REF].Text?) || exists k :: k in fields && HasRef(fields[k])
    case Array(items) => exists i :: 0 <= i < |items| && HasRef(items[i])
    case _ => false
  }
}
