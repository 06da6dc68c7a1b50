/** The export path as a whole: what an inlined document accepts, when its types are not recursive,
    and what recursion does to it. */
module InlinedDocuments {
  import opened Json
  import opened ReflectedTypes
  import opened PrimitiveSchemas
  import opened JsonSchema
  import opened SchemaShapes
  import opened TypeValues
  import opened SchemaMeaning
  import opened SchemaBuilder
  import opened SchemaDocuments
  import opened InlinedMeaning
  import opened PrimitiveValues

  // ---------------------------------------------------------------- generated schemas are schemas

  /** Being a schema, as a value: what follows needs to know no more of it than what it says of each
      shape. */
  type Recogniser = Value -> bool

  ghost predicate Recognises(good: Recogniser) {
    forall s {:trigger IsSchema(s)} :: good(s) == IsSchema(s)
  }

  ghost function RecogniserOfSchemas(): (good: Recogniser)
    ensures Recognises(good)
  {
    (s: Value) => IsSchema(s)
  }

  /** Every schema of the table has one of the primitive shapes. */
  ghost predicate OfShapes(table: map<string, Value>) {
    forall path :: path in table ==> exists shape :: table[path] == Render(shape)
  }

  lemma PlainIsSchema(good: Recogniser, text: string, shape: Shape)
    requires Recognises(good)
    ensures good(Described(text)) && good(Object(map[])) && good(TypeOnly(text)) && good(Render(shape))
  {
    Keywords();
    ScalarsOnly(good, Described(text));
    ScalarsOnly(good, Object(map[]));
    ScalarsOnly(good, TypeOnly(text));
    ScalarsOnly(good, Render(shape));
  }

  lemma ScalarsOnly(good: Recogniser, s: Value)
    requires Recognises(good)
    requires s.Object? && forall k :: k in s.fields ==> k in SCALARS && IsScalar(s.fields[k])
    ensures good(s)
  {
    Keywords();
    assert IsSchema(s);
  }

  lemma RefIsSchema(good: Recogniser, path: string)
    requires Recognises(good)
    ensures good(RefSchema(path))
  {
    Keywords();
    assert IsSchema(RefSchema(path));
  }

  lemma OneOfIsSchema(good: Recogniser, choices: seq<Value>)
    requires Recognises(good)
    requires forall i :: 0 <= i < |choices| ==> good(choices[i])
    ensures good(OneOf(choices))
  {
    Keywords();
    assert OneOf(choices).fields["oneOf"].items == choices;
    assert IsSchema(OneOf(choices));
  }

  lemma NullableIsSchema(good: Recogniser, inner: Value)
    requires Recognises(good)
    requires good(inner)
    ensures good(Nullable(inner))
  {
    PlainIsSchema(good, "null", OneCharacter);
    OneOfIsSchema(good, [TypeOnly("null"), inner]);
  }

  lemma TupleIsSchema(good: Recogniser, items: seq<Value>)
    requires Recognises(good)
    requires forall i :: 0 <= i < |items| ==> good(items[i])
    ensures good(TupleSchema(items))
  {
    Keywords();
    var f := TupleSchema(items).fields;
    assert f["prefixItems"].items == items && f["items"] == Bool(false);
    assert IsSchema(TupleSchema(items));
  }

  lemma ElementsIsSchema(good: Recogniser, item: Value, capacity: nat)
    requires Recognises(good)
    requires good(item)
    ensures good(ListSchema(item)) && good(ArraySchema(item, capacity))
  {
    Keywords();
    assert ListSchema(item).fields["items"] == item && ArraySchema(item, capacity).fields["items"] == item;
    assert IsSchema(ListSchema(item));
    assert IsSchema(ArraySchema(item, capacity));
  }

  lemma MapIsSchema(good: Recogniser, value: Value, keyPath: string)
    requires Recognises(good)
    requires good(value)
    ensures good(MapSchema(value, keyPath))
  {
    MapKeywords(value, keyPath);
    MapLikeIsSchema(good, MapSchema(value, keyPath));
  }

  lemma MapLikeIsSchema(good: Recogniser, s: Value)
    requires Recognises(good) && s.Object?
    requires {"type", "additionalProperties"} <= s.fields.Keys <= {"type", "additionalProperties", "description"}
    requires s.fields["type"].Text? && good(s.fields["additionalProperties"])
    requires "description" in s.fields ==> s.fields["description"].Text?
    ensures good(s)
  {
    Keywords();
    assert IsSchema(s);
  }

  lemma ObjectIsSchema(good: Recogniser, properties: map<string, Value>, required: seq<string>)
    requires Recognises(good)
    requires AllSchemas(good, properties)
    ensures good(ObjectSchema(properties, required))
  {
    Keywords();
    var s := ObjectSchema(properties, required);
    assert s.fields["properties"] == Object(properties) && s.fields["additionalProperties"] == Bool(false);
    assert required != [] ==> s.fields["required"] == Texts(required);
    ObjectLikeIsSchema(good, s, properties);
  }

  lemma ObjectLikeIsSchema(good: Recogniser, s: Value, properties: map<string, Value>)
    requires Recognises(good) && AllSchemas(good, properties) && s.Object?
    requires {"type", "properties", "additionalProperties"} <= s.fields.Keys
    requires s.fields.Keys <= {"type", "properties", "additionalProperties", "required"}
    requires s.fields["type"].Text? && s.fields["properties"] == Object(properties)
    requires s.fields["additionalProperties"] == Bool(false)
    requires "required" in s.fields ==>
               s.fields["required"].Array? &&
               forall i :: 0 <= i < |s.fields["required"].items| ==> IsScalar(s.fields["required"].items[i])
    ensures good(s)
  {
    Keywords();
    assert IsSchema(s);
  }

  lemma TypeRefIsSchema(good: Recogniser, types: Types, t: TypeRef)
    requires Recognises(good)
    requires OfShapes(types.primitives)
    ensures TypeRefSchema(types, t).Object? && good(TypeRefSchema(types, t))
  {
    match t
    case Reflected(path) => RefIsSchema(good, path);
    case PathOnly(path) =>
      var shape :| path in types.primitives ==> types.primitives[path] == Render(shape);
      PlainIsSchema(good, "Unknown reflected field type: " + path, shape);
  }

  lemma TypeRefsAreSchemas(good: Recogniser, types: Types, ts: seq<TypeRef>)
    requires Recognises(good)
    requires OfShapes(types.primitives)
    ensures good(TupleSchema(TypeRefSchemas(types, ts)))
  {
    forall i | 0 <= i < |ts| { TypeRefIsSchema(good, types, ts[i]); }
    TupleIsSchema(good, TypeRefSchemas(types, ts));
  }

  ghost predicate AllSchemas(good: Recogniser, members: map<string, Value>) {
    forall k :: k in members ==> members[k].Object? && good(members[k])
  }

  lemma OneMoreSchema(good: Recogniser, members: map<string, Value>, name: string, s: Value)
    requires Recognises(good)
    requires AllSchemas(good, members) && s.Object? && good(s)
    ensures AllSchemas(good, members[name := s])
  {
  }

  lemma {:induction false} PropertiesAreSchemas(
    good: Recogniser, types: Types, fields: seq<Field>, skipped: set<nat>, n: nat)
    requires Recognises(good)
    requires OfShapes(types.primitives) && n <= |fields|
    ensures AllSchemas(good, Properties(types, fields, skipped, n))
  {
    if n > 0 {
      PropertiesAreSchemas(good, types, fields, skipped, n - 1);
      if n - 1 !in skipped {
        FieldIsSchema(good, types, fields[n - 1]);
        OneMoreSchema(good, Properties(types, fields, skipped, n - 1), fields[n - 1].name,
                      FieldSchema(types, fields[n - 1]));
      }
    }
  }

  lemma FieldIsSchema(good: Recogniser, types: Types, f: Field)
    requires Recognises(good)
    requires OfShapes(types.primitives)
    ensures FieldSchema(types, f).Object? && good(FieldSchema(types, f))
  {
    TypeRefIsSchema(good, types, f.ty);
    PlainIsSchema(good, "", OneCharacter);
    NullableIsSchema(good, Object(map[]));
    if FieldPayload(types, f).Some? {
      TypeRefIsSchema(good, types, FieldPayload(types, f).value);
      NullableIsSchema(good, TypeRefSchema(types, FieldPayload(types, f).value));
    }
  }

  lemma FieldsIsSchema(good: Recogniser, types: Types, fields: seq<Field>, skipped: set<nat>)
    requires Recognises(good)
    requires OfShapes(types.primitives)
    ensures FieldsSchema(types, fields, skipped).Object? && good(FieldsSchema(types, fields, skipped))
  {
    PropertiesAreSchemas(good, types, fields, skipped, |fields|);
    ObjectIsSchema(good, Properties(types, fields, skipped, |fields|), Required(types, fields, skipped, |fields|));
  }

  lemma NamedIsSchema(good: Recogniser, name: string, inner: Value)
    requires Recognises(good)
    requires inner.Object? && good(inner)
    ensures good(NamedVariant(name, inner))
  {
    assert NamedVariant(name, inner) == ObjectSchema(map[name := inner], [name]);
    ObjectIsSchema(good, map[name := inner], [name]);
  }

  lemma VariantIsSchema(good: Recogniser, types: Types, v: Variant)
    requires Recognises(good)
    requires OfShapes(types.primitives)
    ensures good(VariantSchema(types, v))
  {
    match v
    case UnitVariant(name) => ScalarsOnly(good, VariantSchema(types, v));
    case TupleVariant(name, ts) =>
      if |ts| == 1 {
        TypeRefIsSchema(good, types, ts[0]);
        NamedIsSchema(good, name, TypeRefSchema(types, ts[0]));
      } else {
        TypeRefsAreSchemas(good, types, ts);
        NamedIsSchema(good, name, TupleSchema(TypeRefSchemas(types, ts)));
      }
    case StructVariant(name, fields) =>
      FieldsIsSchema(good, types, fields, {});
      NamedIsSchema(good, name, FieldsSchema(types, fields, {}));
  }

  lemma VariantsAreSchemas(good: Recogniser, types: Types, variants: seq<Variant>)
    requires Recognises(good)
    requires OfShapes(types.primitives)
    ensures good(OneOf(VariantSchemas(types, variants)))
  {
    forall i | 0 <= i < |variants| { VariantIsSchema(good, types, variants[i]); }
    OneOfIsSchema(good, VariantSchemas(types, variants));
  }

  lemma EnumIsSchema(good: Recogniser, types: Types, path: string)
    requires Recognises(good)
    requires OfShapes(types.primitives) && path in types.infos && types.infos[path].Enum?
    ensures good(SchemaOf(types, path))
  {
    var variants := types.infos[path].variants;
    match OptionPayload(variants)
    case Some(t) =>
      TypeRefIsSchema(good, types, t);
      NullableIsSchema(good, TypeRefSchema(types, t));
    case None =>
      if |variants| == 1 {
        VariantIsSchema(good, types, variants[0]);
      } else {
        VariantsAreSchemas(good, types, variants);
      }
  }

  lemma SetIsSchema(good: Recogniser, types: Types, path: string)
    requires Recognises(good)
    requires OfShapes(types.primitives) && path in types.infos && types.infos[path].Set?
    ensures good(SchemaOf(types, path))
  {
    var (registered, valuePath) := (types.infos[path].registered, types.infos[path].valuePath);
    match registered
    case Some(p) =>
      RefIsSchema(good, p);
      ElementsIsSchema(good, RefSchema(p), 0);
    case None =>
      TypeRefIsSchema(good, types, PathOnly(valuePath));
      PlainIsSchema(good, "", OneCharacter);
      ElementsIsSchema(good, if PrimitiveSchema(types, valuePath).Some? then PrimitiveSchema(types, valuePath).value
                       else Object(map[]), 0);
  }

  lemma OpaqueIsSchema(good: Recogniser, types: Types, path: string)
    requires Recognises(good)
    requires OfShapes(types.primitives) && path in types.infos && types.infos[path].Opaque?
    ensures good(SchemaOf(types, path))
  {
    TypeRefIsSchema(good, types, PathOnly(path));
    PlainIsSchema(good, "Opaque reflected type: " + path, OneCharacter);
  }

  lemma TupleStructIsSchema(good: Recogniser, types: Types, path: string)
    requires Recognises(good)
    requires OfShapes(types.primitives) && path in types.infos && types.infos[path].TupleStruct?
    ensures good(SchemaOf(types, path))
  {
    var info := types.infos[path];
    if TypeValues.IsNewtype(info) {
      TypeRefIsSchema(good, types, info.types[0]);
    } else {
      TypeRefsAreSchemas(good, types, Kept(info.types, info.skipped, |info.types|));
    }
  }

  lemma ElementIsSchema(good: Recogniser, types: Types, t: TypeRef, capacity: nat, keyPath: string)
    requires Recognises(good)
    requires OfShapes(types.primitives)
    ensures good(ListSchema(TypeRefSchema(types, t))) && good(ArraySchema(TypeRefSchema(types, t), capacity))
    ensures good(MapSchema(TypeRefSchema(types, t), keyPath))
  {
    TypeRefIsSchema(good, types, t);
    ElementsIsSchema(good, TypeRefSchema(types, t), capacity);
    MapIsSchema(good, TypeRefSchema(types, t), keyPath);
  }

  /** Whatever is generated is well formed as a schema. */
  lemma SchemaIsSchema(good: Recogniser, types: Types, path: string)
    requires Recognises(good)
    requires OfShapes(types.primitives) && path in types.infos
    ensures good(SchemaOf(types, path))
  {
    match types.infos[path]
    case Struct(fields, skipped) => FieldsIsSchema(good, types, fields, skipped);
    case TupleStruct(_, _, _) => TupleStructIsSchema(good, types, path);
    case Tuple(ts) => TypeRefsAreSchemas(good, types, ts);
    case List(item) => ElementIsSchema(good, types, item, 0, "");
    case FixedArray(item, capacity) => ElementIsSchema(good, types, item, capacity, "");
    case Map(keyPath, value) => ElementIsSchema(good, types, value, 0, keyPath);
    case Set(_, _) => SetIsSchema(good, types, path);
    case Enum(_) => EnumIsSchema(good, types, path);
    case Opaque => OpaqueIsSchema(good, types, path);
  }

  lemma DefinitionsAreSchemas(types: Types, defs: Defs)
    requires OfShapes(types.primitives)
    requires forall k :: k in defs ==> k in types.infos && defs[k] == SchemaOf(types, k)
    ensures forall k :: k in defs ==> IsSchema(defs[k])
  {
    var good := RecogniserOfSchemas();
    forall k | k in defs
      ensures IsSchema(defs[k])
    {
      SchemaIsSchema(good, types, k);
    }
  }

  // ---------------------------------------------------------------- types without recursion

  /** Every type ranks above all the types that its schema refers to. */
  ghost predicate NotRecursive(w: World) {
    forall p, q {:trigger q in Edges(w.types, w.types.infos[p])} ::
      p in w.types.infos && q in Edges(w.types, w.types.infos[p]) ==> w.rank(q) < w.rank(p)
  }

  predicate AllBelow(v: Value, defs: Defs, rank: string -> nat, bound: nat) {
    forall r :: r in SchemaRefs.Refs(v) && RefInliner.Resolves(r, defs) ==> rank(RefInliner.LocalKey(r).value) < bound
  }

  lemma {:induction false} RefsBelowIff(v: Value, defs: Defs, rank: string -> nat, bound: nat)
    ensures RefInliner.RefsBelow(v, defs, rank, bound) <==> AllBelow(v, defs, rank, bound)
  {
    match v
    case Object(fields) =>
      forall k | k in fields { RefsBelowIff(fields[k], defs, rank, bound); }
      if AllBelow(v, defs, rank, bound) {
        forall k, r | k in fields && r in SchemaRefs.Refs(fields[k]) && RefInliner.Resolves(r, defs)
          ensures rank(RefInliner.LocalKey(r).value) < bound
        {
          assert r in SchemaRefs.Refs(v);
        }
      }
    case Array(items) =>
      forall i | 0 <= i < |items| { RefsBelowIff(items[i], defs, rank, bound); }
      if AllBelow(v, defs, rank, bound) {
        forall i, r | 0 <= i < |items| && r in SchemaRefs.Refs(items[i]) && RefInliner.Resolves(r, defs)
          ensures rank(RefInliner.LocalKey(r).value) < bound
        {
          assert r in SchemaRefs.Refs(v);
        }
      }
    case _ =>
  }

  lemma SoundIsWellFormed(w: World)
    requires Sound(w)
    ensures WellFormed(w.types)
  {
    var table := w.types.primitives;
    forall p | p in table
      ensures table[p].Object? && table[p] != Object(map[]) && !HasRef(table[p])
    {
      ShapeIsPlain(ShapeOf(w.primitiveOf(p).value));
    }
  }

  /** The definitions of types that are not recursive form no cycle. */
  lemma DefinitionsAreAcyclic(w: World, root: string)
    requires Sound(w) && NotRecursive(w)
    ensures RefInliner.Acyclic(ReachedDefs(w.types, root), w.rank)
  {
    var defs := ReachedDefs(w.types, root);
    SoundIsWellFormed(w);
    forall k | k in defs
      ensures RefInliner.RefsBelow(defs[k], defs, w.rank, w.rank(k))
    {
      SchemaRefs.SchemaRefsAreEdges(w.types, k);
      RefsBelowIff(defs[k], defs, w.rank, w.rank(k));
      forall r | r in SchemaRefs.Refs(defs[k])
        ensures w.rank(RefInliner.LocalKey(r).value) < w.rank(k) && RefInliner.LocalKey(r).Some?
      {
        var q :| q in Edges(w.types, w.types.infos[k]) && r == RefInliner.RefTo(q);
        RefInliner.RefToFindsKey(q);
      }
    }
  }

  /** Without recursion the inlined document, which carries no definitions, accepts exactly what the
      structure of the root admits, as the document does before inlining. */
  lemma InlinedDocumentMeans(d: Dialect, w: World, root: string, v: Value)
    requires Sound(w) && NotRecursive(w) && root in w.types.infos
    ensures Validates(d, RefInliner.InlinedSchema(Document(root, ReachedDefs(w.types, root))), v) <==>
            Admitted(d, w, Reflected(root), v)
  {
    var inlined := RefInliner.InlinedSchema(Document(root, ReachedDefs(w.types, root)));
    forall limit: nat
      ensures Valid(Rules(d, RefInliner.SchemaDefs(inlined), limit), inlined, v, limit) <==>
              Admitted(d, w, Reflected(root), v)
    {
      InlinedValid(Rules(d, RefInliner.SchemaDefs(inlined), limit), w, root, v, limit);
    }
    if Admitted(d, w, Reflected(root), v) { assert ValidFrom(d, inlined, v, 0); }
    if Validates(d, inlined, v) {
      var enough: nat :| ValidFrom(d, inlined, v, enough);
      var r := Rules(d, RefInliner.SchemaDefs(inlined), enough);
      assert Valid(r, inlined, v, enough);
    }
  }

  lemma InlinedValid(plain: Rules, w: World, root: string, v: Value, plainRefs: nat)
    requires Sound(w) && NotRecursive(w) && root in w.types.infos
    ensures var document := Document(root, ReachedDefs(w.types, root));
            Valid(plain, RefInliner.InlinedSchema(document), v, plainRefs) <==>
            Admitted(plain.dialect, w, Reflected(root), v)
  {
    var defs := ReachedDefs(w.types, root);
    var top := SomeTop(w.rank, w.types.infos.Keys);
    var r := Rules(plain.dialect, defs, top);
    SoundIsWellFormed(w);
    ReachedDefsDefine(w, root, r);
    ReachedDefsAreClosed(w.types, root);
    DefinitionsAreAcyclic(w, root);
    DefinitionsAreSchemas(w.types, defs);
    InliningKeepsValidity(r, plain, defs[root], v, top, plainRefs, w.rank, w.rank(root));
    ValidMeans(w, r, root, v, top);
    DocumentParts(root, defs);
    RefInliner.AcyclicRefExpands(root, defs, w.rank);
  }

  /** So whatever a value of a regular type serialises to is valid against the inlined document. */
  lemma InlinedValuesValidate(d: Dialect, w: World, root: string, v: Value)
    requires Regular(d, w) && NotRecursive(w) && root in w.types.infos && Serialised(w, Reflected(root), v)
    ensures Validates(d, RefInliner.InlinedSchema(Document(root, ReachedDefs(w.types, root))), v)
  {
    SerialisedIsAdmitted(d, w, Reflected(root), v);
    InlinedDocumentMeans(d, w, root, v);
  }

  // ---------------------------------------------------------------- recursion

  lemma ExpandedRefIsOmitted(key: string, defs: Defs, stack: seq<string>)
    requires key in stack
    ensures RefInliner.Inlined(RefSchema(key), defs, stack) == RefInliner.Omitted(key)
  {
    RefInliner.RefToFindsKey(key);
    assert RefSchema(key).fields.Keys == {REF};
  }

  lemma InlinedNullable(inner: Value, defs: Defs, stack: seq<string>)
    ensures RefInliner.Inlined(Nullable(inner), defs, stack) == Nullable(RefInliner.Inlined(inner, defs, stack))
  {
    Keywords();
    var nothing := TypeOnly("null");
    assert RefInliner.InlinedMembers(nothing, defs, stack) == nothing.fields;
    var choices := Array([nothing, inner]);
    assert RefInliner.InlinedItems(choices, defs, stack) == [nothing, RefInliner.Inlined(inner, defs, stack)];
    assert RefInliner.InlinedMembers(Nullable(inner), defs, stack) ==
           map["oneOf" := RefInliner.Inlined(choices, defs, stack)];
  }

  /** Where a type contains itself the inlined schema accepts anything, so `None` of an option whose
      payload is being expanded is refused: null is valid against both choices. */
  lemma RecursionUnderAnOption(r: Rules, key: string, defs: Defs, stack: seq<string>, v: Value, refs: nat)
    requires key in stack
    ensures Valid(r, RefInliner.Inlined(RefSchema(key), defs, stack), v, refs)
    ensures Valid(r, RefInliner.Inlined(Nullable(RefSchema(key)), defs, stack), v, refs) <==> v != Null
  {
    ExpandedRefIsOmitted(key, defs, stack);
    InlinedNullable(RefSchema(key), defs, stack);
    var text := "Recursive schema reference omitted for `" + key + "`";
    var accepts := VerdictOf(r);
    DescribedMeans(accepts, r, text, v, refs);
    NullableMeans(accepts, r, Described(text), v, refs);
    assert RefInliner.Omitted(key) == Described(text);
    assert accepts(Described(text), v, refs) == Valid(r, Described(text), v, refs);
    assert accepts(Nullable(Described(text)), v, refs) == Valid(r, Nullable(Described(text)), v, refs);
  }
}
