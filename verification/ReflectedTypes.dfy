/** Reflected type descriptions, the JSON schema each one gets, and the references that
    schema contains. */
module ReflectedTypes {
  import opened Wrappers
  import opened Json
  import RefInliner

  /** A type as a field or element names it: with reflection data, found under its type path,
      or by path only. */
  datatype TypeRef = Reflected(path: string) | PathOnly(path: string)

  datatype Field = Field(name: string, ty: TypeRef)

  datatype Variant =
    | UnitVariant(name: string)
    | TupleVariant(name: string, types: seq<TypeRef>)
    | StructVariant(name: string, fields: seq<Field>)

  datatype TypeInfo =
    | Struct(fields: seq<Field>, skipped: set<nat>)
    | TupleStruct(types: seq<TypeRef>, skipped: set<nat>, hasSerializationData: bool)
    | Tuple(types: seq<TypeRef>)
    | List(item: TypeRef)
    | FixedArray(item: TypeRef, capacity: nat)
    | Map(keyPath: string, value: TypeRef)
    | Set(registered: Option<string>, valuePath: string)
    | Enum(variants: seq<Variant>)
    | Opaque

  /** The reflected types and the primitive schemas, both by type path. A described type is in
      the registry or only reached from one that is. */
  datatype Types = Types(
    infos: map<string, TypeInfo>, registered: set<string>, primitives: map<string, Value>)

  function PrimitiveSchema(types: Types, path: string): Option<Value> {
    if path in types.primitives then Some(types.primitives[path]) else None
  }

  // ---------------------------------------------------------------- schema shapes

  function TypeOnly(name: string): Value {
    Object(map["type" := Text(name)])
  }

  function Described(text: string): Value {
    Object(map["description" := Text(text)])
  }

  predicate IsStringLike(path: string) {
    path in {"alloc::string::String", "std::string::String", "str", "&str"}
  }

  function Texts(names: seq<string>): Value {
    Array(seq(|names|, i requires 0 <= i < |names| => Text(names[i])))
  }

  function ObjectSchema(properties: map<string, Value>, required: seq<string>): Value {
    var base := map["type" := Text("object"), "properties" := Object(properties),
                    "additionalProperties" := Bool(false)];
    Object(if required == [] then base else base["required" := Texts(required)])
  }

  function TupleSchema(items: seq<Value>): Value {
    Object(map["type" := Text("array"), "prefixItems" := Array(items), "items" := Bool(false),
               "minItems" := Number(|items|), "maxItems" := Number(|items|)])
  }

  function ListSchema(item: Value): Value {
    Object(map["type" := Text("array"), "items" := item])
  }

  function ArraySchema(item: Value, capacity: nat): Value {
    Object(map["type" := Text("array"), "items" := item,
               "minItems" := Number(capacity), "maxItems" := Number(capacity)])
  }

  function MapSchema(value: Value, keyPath: string): Value {
    var base := map["type" := Text("object"), "additionalProperties" := value];
    Object(if IsStringLike(keyPath) then base
           else base["description" :=
             Text("JSON map keys are strings; reflected key type is `" + keyPath + "`")])
  }

  function OneOf(choices: seq<Value>): Value {
    Object(map["oneOf" := Array(choices)])
  }

  function Nullable(inner: Value): Value {
    OneOf([TypeOnly("null"), inner])
  }

  function RefSchema(path: string): Value {
    Object(map[REF := Text(RefInliner.RefTo(path))])
  }

  // ---------------------------------------------------------------- the schema of a type

  function TypeRefSchema(types: Types, t: TypeRef): Value {
    match t
    case Reflected(path) => RefSchema(path)
    case PathOnly(path) =>
      match PrimitiveSchema(types, path)
      case Some(v) => v
      case None => Described("Unknown reflected field type: " + path)
  }

  function TypeRefSchemas(types: Types, ts: seq<TypeRef>): seq<Value> {
    seq(|ts|, i requires 0 <= i < |ts| => TypeRefSchema(types, ts[i]))
  }

  function FindVariant(variants: seq<Variant>, name: string): Option<Variant> {
    if variants == [] then None
    else if variants[0].name == name then Some(variants[0])
    else FindVariant(variants[1..], name)
  }

  /** The payload of an enum shaped like `Option`. */
  function OptionPayload(variants: seq<Variant>): Option<TypeRef> {
    var none, some := FindVariant(variants, "None"), FindVariant(variants, "Some");
    if none.Some? && some.Some? && none.value.UnitVariant? &&
       some.value.TupleVariant? && |some.value.types| == 1
    then Some(some.value.types[0]) else None
  }

  /** The module and name of the type are those of the standard `Option`. */
  predicate IsCoreOption(path: string) {
    var prefix := "core::option::Option<";
    |prefix| <= |path| && path[..|prefix|] == prefix
  }

  lemma IsCoreOptionIff(path: string)
    ensures IsCoreOption(path) <==> exists rest :: path == "core::option::Option<" + rest
  {
    if IsCoreOption(path) { assert path == "core::option::Option<" + path[21..]; }
  }

  predicate IsOptionField(types: Types, f: Field) {
    IsCoreOption(f.ty.path) ||
    (f.ty.Reflected? && f.ty.path in types.infos && types.infos[f.ty.path].Enum? &&
     FindVariant(types.infos[f.ty.path].variants, "None").Some? &&
     FindVariant(types.infos[f.ty.path].variants, "Some").Some?)
  }

  /** The payload of an option field whose enum is reflected. */
  function FieldPayload(types: Types, f: Field): Option<TypeRef> {
    if f.ty.Reflected? && f.ty.path in types.infos && types.infos[f.ty.path].Enum?
    then OptionPayload(types.infos[f.ty.path].variants) else None
  }

  function FieldSchema(types: Types, f: Field): Value {
    if !IsOptionField(types, f) then TypeRefSchema(types, f.ty)
    else match FieldPayload(types, f)
      case Some(t) => Nullable(TypeRefSchema(types, t))
      case None => Nullable(Object(map[]))
  }

  /** The properties and required names of the first `n` fields. */
  function Properties(types: Types, fields: seq<Field>, skipped: set<nat>, n: nat): map<string, Value>
    requires n <= |fields|
  {
    if n == 0 then map[]
    else if n - 1 in skipped then Properties(types, fields, skipped, n - 1)
    else Properties(types, fields, skipped, n - 1)[fields[n - 1].name := FieldSchema(types, fields[n - 1])]
  }

  function Required(types: Types, fields: seq<Field>, skipped: set<nat>, n: nat): seq<string>
    requires n <= |fields|
  {
    if n == 0 then []
    else
      Required(types, fields, skipped, n - 1) +
      if n - 1 in skipped || IsOptionField(types, fields[n - 1]) then [] else [fields[n - 1].name]
  }

  function FieldsSchema(types: Types, fields: seq<Field>, skipped: set<nat>): Value {
    ObjectSchema(Properties(types, fields, skipped, |fields|), Required(types, fields, skipped, |fields|))
  }

  /** The elements of the first `n` that are not skipped. */
  function Kept<T>(elements: seq<T>, skipped: set<nat>, n: nat): (kept: seq<T>)
    requires n <= |elements|
    ensures forall t :: t in kept ==> t in elements[..n]
  {
    if n == 0 then []
    else Kept(elements, skipped, n - 1) + if n - 1 in skipped then [] else [elements[n - 1]]
  }

  function NamedVariant(name: string, inner: Value): Value {
    Object(map["type" := Text("object"), "properties" := Object(map[name := inner]),
               "required" := Texts([name]), "additionalProperties" := Bool(false)])
  }

  function VariantSchema(types: Types, v: Variant): Value {
    match v
    case UnitVariant(name) => Object(map["type" := Text("string"), "const" := Text(name)])
    case TupleVariant(name, ts) =>
      NamedVariant(name, if |ts| == 1 then TypeRefSchema(types, ts[0]) else TupleSchema(TypeRefSchemas(types, ts)))
    case StructVariant(name, fields) => NamedVariant(name, FieldsSchema(types, fields, {}))
  }

  function VariantSchemas(types: Types, vs: seq<Variant>): seq<Value> {
    seq(|vs|, i requires 0 <= i < |vs| => VariantSchema(types, vs[i]))
  }

  function InlineSchema(types: Types, path: string, info: TypeInfo): Value {
    match info
    case Struct(fields, skipped) => FieldsSchema(types, fields, skipped)
    case TupleStruct(ts, skipped, hasData) =>
      if |ts| == 1 && !hasData then TypeRefSchema(types, ts[0])
      else TupleSchema(TypeRefSchemas(types, Kept(ts, skipped, |ts|)))
    case Tuple(ts) => TupleSchema(TypeRefSchemas(types, ts))
    case List(item) => ListSchema(TypeRefSchema(types, item))
    case FixedArray(item, capacity) => ArraySchema(TypeRefSchema(types, item), capacity)
    case Map(keyPath, value) => MapSchema(TypeRefSchema(types, value), keyPath)
    case Set(registered, valuePath) =>
      ListSchema(match registered
                 case Some(p) => RefSchema(p)
                 case None =>
                   match PrimitiveSchema(types, valuePath)
                   case Some(v) => v
                   case None => Object(map[]))
    case Enum(variants) =>
      (match OptionPayload(variants)
       case Some(t) => Nullable(TypeRefSchema(types, t))
       case None =>
         if |variants| == 1 then VariantSchema(types, variants[0])
         else OneOf(VariantSchemas(types, variants)))
    case Opaque =>
      match PrimitiveSchema(types, path)
      case Some(v) => v
      case None => Described("Opaque reflected type: " + path)
  }

  function SchemaOf(types: Types, path: string): Value
    requires path in types.infos
  {
    InlineSchema(types, path, types.infos[path])
  }

  // ---------------------------------------------------------------- the types a schema refers to

  function RefEdges(t: TypeRef): set<string> {
    if t.Reflected? then {t.path} else {}
  }

  function ListEdges(ts: seq<TypeRef>): set<string> {
    set i | 0 <= i < |ts| && ts[i].Reflected? :: ts[i].path
  }

  function FieldEdges(types: Types, f: Field): set<string> {
    if !IsOptionField(types, f) then RefEdges(f.ty)
    else match FieldPayload(types, f)
      case Some(t) => RefEdges(t)
      case None => {}
  }

  function FieldsEdges(types: Types, fields: seq<Field>, skipped: set<nat>, n: nat): set<string>
    requires n <= |fields|
  {
    if n == 0 then {}
    else
      FieldsEdges(types, fields, skipped, n - 1) +
      if n - 1 in skipped then {} else FieldEdges(types, fields[n - 1])
  }

  function VariantEdges(types: Types, v: Variant): set<string> {
    match v
    case UnitVariant(_) => {}
    case TupleVariant(_, ts) => ListEdges(ts)
    case StructVariant(_, fields) => FieldsEdges(types, fields, {}, |fields|)
  }

  function VariantsEdges(types: Types, vs: seq<Variant>): set<string> {
    if vs == [] then {}
    else VariantsEdges(types, vs[..|vs| - 1]) + VariantEdges(types, vs[|vs| - 1])
  }

  function Edges(types: Types, info: TypeInfo): set<string> {
    match info
    case Struct(fields, skipped) => FieldsEdges(types, fields, skipped, |fields|)
    case TupleStruct(ts, skipped, hasData) =>
      if |ts| == 1 && !hasData then RefEdges(ts[0]) else ListEdges(Kept(ts, skipped, |ts|))
    case Tuple(ts) => ListEdges(ts)
    case List(item) => RefEdges(item)
    case FixedArray(item, _) => RefEdges(item)
    case Map(_, value) => RefEdges(value)
    case Set(registered, _) => if registered.Some? then {registered.value} else {}
    case Enum(variants) =>
      (match OptionPayload(variants)
       case Some(t) => RefEdges(t)
       case None => VariantsEdges(types, variants))
    case Opaque => {}
  }

  ghost predicate DistinctFields(fields: seq<Field>) {
    forall i, j :: 0 <= i < j < |fields| ==> fields[i].name != fields[j].name
  }

  ghost predicate DistinctNames(info: TypeInfo) {
    (info.Struct? ==> DistinctFields(info.fields)) &&
    (info.Enum? ==> forall i :: 0 <= i < |info.variants| && info.variants[i].StructVariant? ==>
      DistinctFields(info.variants[i].fields))
  }

  /** What the reflection data guarantees: registered types are described, field names are
      distinct and every reflected type that a schema refers to is described. */
  ghost predicate Complete(types: Types) {
    types.registered <= types.infos.Keys &&
    forall p {:trigger Edges(types, types.infos[p])} :: p in types.infos ==>
      DistinctNames(types.infos[p]) && Edges(types, types.infos[p]) <= types.infos.Keys
  }

  /** Every schema of the table is a plain object. */
  ghost predicate PlainTable(table: map<string, Value>) {
    forall p :: p in table ==> table[p].Object? && table[p] != Object(map[]) && !HasRef(table[p])
  }

  ghost predicate WellFormed(types: Types) {
    Complete(types) && PlainTable(types.primitives)
  }
}
