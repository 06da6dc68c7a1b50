/** When a JSON value is valid against a schema, for the keywords that the generator emits.  The
    standard is JSON Schema, in the dialect that generated documents declare (draft-07) and in the
    one that knows `prefixItems` (2020-12). */
module JsonSchema {
  import opened Json
  import RefInliner

  datatype Dialect = Draft07 | Draft2020

  /** What `$ref` resolves to.  A chain of more than `limit` references that stays at one place of
      the value is a loop, and nothing is valid against it. */
  datatype Rules = Rules(dialect: Dialect, defs: RefInliner.Defs, limit: nat)

  // ---------------------------------------------------------------- assertions on one value

  predicate IsNumber(v: Value) {
    v.Number? || v.Decimal?
  }

  function NumberOf(v: Value): real
    requires IsNumber(v)
  {
    if v.Number? then v.n as real else v.x
  }

  /** An integer is any number without a fractional part. */
  predicate IsInteger(v: Value) {
    IsNumber(v) && NumberOf(v).Floor as real == NumberOf(v)
  }

  predicate HasType(name: string, v: Value) {
    match v
    case Null => name == "null"
    case Bool(_) => name == "boolean"
    case Text(_) => name == "string"
    case Array(_) => name == "array"
    case Object(_) => name == "object"
    case Number(_) => name == "number" || name == "integer"
    case Decimal(_) => name == "number" || (name == "integer" && IsInteger(v))
  }

  /** `type`, `const`, and the bounds on numbers, strings and arrays. */
  predicate Asserts(f: map<string, Value>, v: Value) {
    ("type" in f && f["type"].Text? ==> HasType(f["type"].s, v)) &&
    ("const" in f ==> v == f["const"]) &&
    (IsNumber(v) ==>
       ("minimum" in f && IsNumber(f["minimum"]) ==> NumberOf(v) >= NumberOf(f["minimum"])) &&
       ("maximum" in f && IsNumber(f["maximum"]) ==> NumberOf(v) <= NumberOf(f["maximum"]))) &&
    (v.Text? ==> Between(|v.s|, f, "minLength", "maxLength")) &&
    (v.Array? ==> Between(|v.items|, f, "minItems", "maxItems"))
  }

  predicate Between(n: nat, f: map<string, Value>, low: string, high: string) {
    (low in f && f[low].Number? ==> n >= f[low].n) && (high in f && f[high].Number? ==> n <= f[high].n)
  }

  // ---------------------------------------------------------------- validation

  /** `v` is valid against schema `s`, following at most `refs` references before going down. */
  ghost predicate Valid(r: Rules, s: Value, v: Value, refs: nat)
    decreases v, refs, s, 2
  {
    match s
    case Bool(b) => b
    case Object(f) =>
      // In draft-07 a reference hides its siblings.
      (REF in f ==> RefValid(r, s, v, refs)) &&
      ((REF in f && r.dialect.Draft07?) ||
       (Asserts(f, v) && OneOfValid(r, s, v, refs) && MembersValid(r, s, v) && ItemsValid(r, s, v)))
    case _ => false
  }

  ghost predicate RefValid(r: Rules, s: Value, v: Value, refs: nat)
    requires s.Object? && REF in s.fields
    decreases v, refs, s, 0
  {
    s.fields[REF].Text? && RefInliner.Resolves(s.fields[REF].s, r.defs) && refs > 0 &&
    Valid(r, r.defs[RefInliner.LocalKey(s.fields[REF].s).value], v, refs - 1)
  }

  /** Exactly one choice is valid. */
  ghost predicate OneOfValid(r: Rules, s: Value, v: Value, refs: nat)
    requires s.Object?
    decreases v, refs, s, 0
  {
    var f := s.fields;
    "oneOf" in f && f["oneOf"].Array? ==>
      var choices := f["oneOf"].items;
      ExactlyOne(seq(|choices|, i requires 0 <= i < |choices| => Valid(r, choices[i], v, refs)))
  }

  predicate ExactlyOne(verdicts: seq<bool>) {
    exists i :: 0 <= i < |verdicts| && verdicts[i] && forall j :: 0 <= j < |verdicts| && verdicts[j] ==> j == i
  }

  ghost predicate MembersValid(r: Rules, s: Value, v: Value)
    requires s.Object?
    decreases v, 0, s, 1
  {
    var f := s.fields;
    v.Object? ==>
      ("required" in f && f["required"].Array? ==> AllIn(f["required"].items, v.fields)) &&
      forall k :: k in v.fields ==> MemberValid(r, s, v, k)
  }

  ghost predicate MemberValid(r: Rules, s: Value, v: Value, k: string)
    requires s.Object? && v.Object? && k in v.fields
    decreases v, 0, s, 0
  {
    var f := s.fields;
    if k in PropertySchemas(f) then Valid(r, PropertySchemas(f)[k], v.fields[k], r.limit)
    else "additionalProperties" in f ==> Valid(r, f["additionalProperties"], v.fields[k], r.limit)
  }

  predicate AllIn(names: seq<Value>, members: map<string, Value>) {
    forall i :: 0 <= i < |names| && names[i].Text? ==> names[i].s in members
  }

  function PropertySchemas(f: map<string, Value>): map<string, Value> {
    if "properties" in f && f["properties"].Object? then f["properties"].fields else map[]
  }

  function PrefixSchemas(dialect: Dialect, f: map<string, Value>): seq<Value> {
    if dialect.Draft2020? && "prefixItems" in f && f["prefixItems"].Array? then f["prefixItems"].items else []
  }

  /** Only the newer dialect knows `prefixItems`; to the older one `items` speaks of all items. */
  ghost predicate ItemsValid(r: Rules, s: Value, v: Value)
    requires s.Object?
    decreases v, 0, s, 1
  {
    v.Array? ==> forall i :: 0 <= i < |v.items| ==> ItemValid(r, s, v, i)
  }

  ghost predicate ItemValid(r: Rules, s: Value, v: Value, i: nat)
    requires s.Object? && v.Array? && i < |v.items|
    decreases v, 0, s, 0
  {
    var f := s.fields;
    var prefix := PrefixSchemas(r.dialect, f);
    if i < |prefix| then Valid(r, prefix[i], v.items[i], r.limit)
    else "items" in f ==> Valid(r, f["items"], v.items[i], r.limit)
  }

  /** `v` is valid against a document that carries its definitions. */
  ghost predicate Validates(dialect: Dialect, document: Value, v: Value) {
    exists enough: nat :: ValidFrom(dialect, document, v, enough)
  }

  /** It is valid however long chains of references may be, from `enough` on. */
  ghost predicate ValidFrom(dialect: Dialect, document: Value, v: Value, enough: nat) {
    forall limit: nat {:trigger Rules(dialect, RefInliner.SchemaDefs(document), limit)} :: limit >= enough ==>
      Valid(Rules(dialect, RefInliner.SchemaDefs(document), limit), document, v, limit)
  }
}
