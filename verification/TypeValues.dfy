/** The JSON values of a reflected type: those its values serialise to, and those its schema is
    to accept.  Neither speaks of schemas; both follow the structure of the type. */
module TypeValues {
  import opened Wrappers
  import opened Json
  import opened ReflectedTypes
  import opened JsonSchema
  import opened PrimitiveValues

  // ---------------------------------------------------------------- enums and options

  /** An enum with a unit variant `None` and a variant `Some` of one payload, as `Option` has. */
  predicate OptionLike(variants: seq<Variant>, payload: TypeRef) {
    UnitVariant("None") in variants && TupleVariant("Some", [payload]) in variants
  }

  predicate HasVariant(variants: seq<Variant>, name: string) {
    exists i :: 0 <= i < |variants| && variants[i].name == name
  }

  predicate IsEnum(types: Types, t: TypeRef) {
    t.Reflected? && t.path in types.infos && types.infos[t.path].Enum?
  }

  /** A field that need not be there: the standard `Option`, or an enum with both its variants. */
  predicate Optional(types: Types, f: Field) {
    IsCoreOption(f.ty.path) ||
    (IsEnum(types, f.ty) &&
     HasVariant(types.infos[f.ty.path].variants, "None") && HasVariant(types.infos[f.ty.path].variants, "Some"))
  }

  predicate HasPayload(types: Types, t: TypeRef, payload: TypeRef) {
    IsEnum(types, t) && OptionLike(types.infos[t.path].variants, payload)
  }

  // ---------------------------------------------------------------- types by rank

  /** The type whose JSON values are those of a one-field tuple struct. */
  predicate IsNewtype(info: TypeInfo) {
    info.TupleStruct? && |info.types| == 1 && !info.hasSerializationData
  }

  /** The types, how they nest, and which primitive a path names. */
  datatype World = World(types: Types, rank: string -> nat, primitiveOf: string -> Option<Primitive>)

  /** Values nest only finitely deep before something other than a newtype or an option comes: such
      a type ranks above what it wraps.  A type that holds its fields by value has no other choice. */
  ghost predicate Grounded(w: World) {
    forall p {:trigger w.types.infos[p]} :: p in w.types.infos ==>
      var info := w.types.infos[p];
      (IsNewtype(info) ==> Below(info.types[0], w.rank, w.rank(p))) &&
      (info.Enum? ==> forall t {:trigger OptionLike(info.variants, t)} ::
         OptionLike(info.variants, t) ==> Below(t, w.rank, w.rank(p)))
  }

  predicate Below(t: TypeRef, rank: string -> nat, bound: nat) {
    t.Reflected? ==> rank(t.path) < bound
  }

  function Height(t: TypeRef, rank: string -> nat): nat {
    if t.Reflected? then rank(t.path) + 1 else 0
  }

  // ---------------------------------------------------------------- elements and fields

  /** Where element `i` comes once those in `skipped` are left out. */
  function Position(skipped: set<nat>, i: nat): nat {
    if i == 0 then 0 else Position(skipped, i - 1) + if i - 1 in skipped then 0 else 1
  }

  /** `name` is that of field `i`, which is not left out. */
  predicate IsField(fields: seq<Field>, skipped: set<nat>, i: nat, name: string) {
    i < |fields| && i !in skipped && fields[i].name == name
  }

  // ---------------------------------------------------------------- what values serialise to

  predicate SerialisedPath(w: World, path: string, v: Value) {
    w.primitiveOf(path).Some? ==> Serialises(w.primitiveOf(path).value, v)
  }

  /** Some value of type `t` serialises to `v`, the way serde does by default: an object for a struct,
      the payload alone for a newtype, null or the payload for the standard `Option`, and the
      variant's name, with its content if it has any, for every other enum. */
  ghost predicate Serialised(w: World, t: TypeRef, v: Value)
    requires Grounded(w)
    decreases v, 1, Height(t, w.rank)
  {
    match t
    case PathOnly(path) => SerialisedPath(w, path, v)
    case Reflected(path) =>
      path in w.types.infos &&
      match w.types.infos[path]
      case Struct(fields, skipped) => SerialisedFields(w, fields, skipped, v)
      case TupleStruct(ts, skipped, hasData) =>
        if |ts| == 1 && !hasData then Serialised(w, ts[0], v)
        else SerialisedTuple(w, ts, skipped, v)
      case Tuple(ts) => SerialisedTuple(w, ts, {}, v)
      case List(item) => v.Array? && forall i :: 0 <= i < |v.items| ==> Serialised(w, item, v.items[i])
      case FixedArray(item, capacity) =>
        v.Array? && |v.items| == capacity &&
        forall i :: 0 <= i < |v.items| ==> Serialised(w, item, v.items[i])
      case Map(_, value) => v.Object? && forall k :: k in v.fields ==> Serialised(w, value, v.fields[k])
      case Set(registered, valuePath) =>
        v.Array? && forall i :: 0 <= i < |v.items| ==> Serialised(w, ItemOf(registered, valuePath), v.items[i])
      case Enum(variants) =>
        if IsCoreOption(path) then
          v == Null || exists payload :: OptionLike(variants, payload) && Serialised(w, payload, v)
        else exists i :: 0 <= i < |variants| && SerialisedVariant(w, variants[i], v)
      case Opaque => SerialisedPath(w, path, v)
  }

  function ItemOf(registered: Option<string>, valuePath: string): TypeRef {
    if registered.Some? then Reflected(registered.value) else PathOnly(valuePath)
  }

  ghost predicate SerialisedTuple(w: World, ts: seq<TypeRef>, skipped: set<nat>, v: Value)
    requires Grounded(w)
    decreases v, 0, 0
  {
    v.Array? && |v.items| == Position(skipped, |ts|) &&
    forall i: nat :: i < |ts| && i !in skipped ==>
      Position(skipped, i) < |v.items| && Serialised(w, ts[i], v.items[Position(skipped, i)])
  }

  ghost predicate SerialisedFields(
    w: World, fields: seq<Field>, skipped: set<nat>, v: Value)
    requires Grounded(w)
    decreases v, 0, 0
  {
    v.Object? && (forall k :: k in v.fields ==> exists i :: IsField(fields, skipped, i, k)) &&
    forall i: nat :: i < |fields| && i !in skipped ==>
      fields[i].name in v.fields && Serialised(w, fields[i].ty, v.fields[fields[i].name])
  }

  ghost predicate SerialisedVariant(w: World, variant: Variant, v: Value)
    requires Grounded(w)
    decreases v, 0, 1
  {
    if variant.UnitVariant? then v == Text(variant.name)
    else
      v.Object? && v.fields.Keys == {variant.name} &&
      var content := v.fields[variant.name];
      if variant.StructVariant? then SerialisedFields(w, variant.fields, {}, content)
      else if |variant.types| == 1 then Serialised(w, variant.types[0], content)
      else SerialisedTuple(w, variant.types, {}, content)
  }

  // ---------------------------------------------------------------- what schemas accept

  predicate AdmittedPath(w: World, path: string, v: Value) {
    w.primitiveOf(path).Some? ==> Accepts(w.primitiveOf(path).value, v)
  }

  /** The schema of type `t` accepts `v`. */
  ghost predicate Admitted(d: Dialect, w: World, t: TypeRef, v: Value)
    requires Grounded(w)
    decreases v, 1, Height(t, w.rank)
  {
    match t
    case PathOnly(path) => AdmittedPath(w, path, v)
    case Reflected(path) =>
      path in w.types.infos &&
      match w.types.infos[path]
      case Struct(fields, skipped) => AdmittedFields(d, w, fields, skipped, v)
      case TupleStruct(ts, skipped, hasData) =>
        if |ts| == 1 && !hasData then Admitted(d, w, ts[0], v)
        else AdmittedTuple(d, w, ts, skipped, v)
      case Tuple(ts) => AdmittedTuple(d, w, ts, {}, v)
      case List(item) => v.Array? && forall i :: 0 <= i < |v.items| ==> Admitted(d, w, item, v.items[i])
      case FixedArray(item, capacity) =>
        v.Array? && |v.items| == capacity &&
        forall i :: 0 <= i < |v.items| ==> Admitted(d, w, item, v.items[i])
      case Map(_, value) => v.Object? && forall k :: k in v.fields ==> Admitted(d, w, value, v.fields[k])
      case Set(registered, valuePath) =>
        v.Array? && forall i :: 0 <= i < |v.items| ==> Admitted(d, w, ItemOf(registered, valuePath), v.items[i])
      case Enum(variants) =>
        if exists payload :: OptionLike(variants, payload) then
          exists payload :: OptionLike(variants, payload) && NullOr(v, Admitted(d, w, payload, v))
        else exists i :: 0 <= i < |variants| && AdmittedVariant(d, w, variants[i], v)
      case Opaque => AdmittedPath(w, path, v)
  }

  /** One of two choices, null and a payload, but not both. */
  predicate NullOr(v: Value, payload: bool) {
    (v == Null) != payload
  }

  /** To the older dialect a tuple schema admits no items at all. */
  ghost predicate AdmittedTuple(
    d: Dialect, w: World, ts: seq<TypeRef>, skipped: set<nat>, v: Value)
    requires Grounded(w)
    decreases v, 0, 0
  {
    v.Array? && |v.items| == Position(skipped, |ts|) && (d.Draft07? ==> v.items == []) &&
    forall i: nat :: i < |ts| && i !in skipped ==>
      Position(skipped, i) < |v.items| && Admitted(d, w, ts[i], v.items[Position(skipped, i)])
  }

  /** Only fields that are not left out, all that are not optional, each admitted. */
  ghost predicate AdmittedFields(
    d: Dialect, w: World, fields: seq<Field>, skipped: set<nat>, v: Value)
    requires Grounded(w)
    decreases v, 0, 0
  {
    v.Object? && (forall k :: k in v.fields ==> exists i :: IsField(fields, skipped, i, k)) &&
    (forall i: nat :: i < |fields| && i !in skipped && !Optional(w.types, fields[i]) ==> fields[i].name in v.fields) &&
    forall i: nat :: i < |fields| && i !in skipped && fields[i].name in v.fields ==>
      AdmittedField(d, w, fields[i], v.fields[fields[i].name])
  }

  /** An optional field with a known payload may be null or the payload, any other must not be
      null. */
  ghost predicate AdmittedField(d: Dialect, w: World, f: Field, v: Value)
    requires Grounded(w)
    decreases v, 2, 0
  {
    if !Optional(w.types, f) then Admitted(d, w, f.ty, v)
    else if exists payload :: HasPayload(w.types, f.ty, payload) then
      exists payload :: HasPayload(w.types, f.ty, payload) && NullOr(v, Admitted(d, w, payload, v))
    else v != Null
  }

  ghost predicate AdmittedVariant(d: Dialect, w: World, variant: Variant, v: Value)
    requires Grounded(w)
    decreases v, 0, 1
  {
    if variant.UnitVariant? then v == Text(variant.name)
    else
      v.Object? && v.fields.Keys == {variant.name} &&
      var content := v.fields[variant.name];
      if variant.StructVariant? then AdmittedFields(d, w, variant.fields, {}, content)
      else if |variant.types| == 1 then Admitted(d, w, variant.types[0], content)
      else AdmittedTuple(d, w, variant.types, {}, content)
  }
}
