/** Which references a generated schema contains: exactly those to the types its edges name. */
module SchemaRefs {
  import opened Json
  import opened ReflectedTypes

  /** Every string bound to a `$ref` member somewhere in `v`. */
  function Refs(v: Value): set<string> {
    match v
    case Object(fields) =>
      (if REF in fields && fields[REF].Text? then {fields[REF].s} else {}) +
      set k, r | k in fields && r in Refs(fields[k]) :: r
    case Array(items) => set i, r | 0 <= i < |items| && r in Refs(items[i]) :: r
    case _ => {}
  }

  lemma {:induction false} HasRefIff(v: Value)
    ensures HasRef(v) <==> Refs(v) != {}
  {
    match v
    case Object(fields) =>
      forall k | k in fields { HasRefIff(fields[k]); }
      if k :| k in fields && HasRef(fields[k]) {
        var r :| r in Refs(fields[k]);
        assert r in Refs(v);
      }
    case Array(items) =>
      forall i | 0 <= i < |items| { HasRefIff(items[i]); }
      if i :| 0 <= i < |items| && HasRef(items[i]) {
        var r :| r in Refs(items[i]);
        assert r in Refs(v);
      }
    case _ =>
  }

  lemma {:induction false} RefsDefinedIff(v: Value, defs: RefInliner.Defs)
    ensures RefInliner.RefsDefined(v, defs) <==>
            forall r :: r in Refs(v) ==> RefInliner.Resolves(r, defs)
  {
    match v
    case Object(fields) =>
      forall k | k in fields { RefsDefinedIff(fields[k], defs); }
      if forall r :: r in Refs(v) ==> RefInliner.Resolves(r, defs) {
        forall k, r | k in fields && r in Refs(fields[k])
          ensures RefInliner.Resolves(r, defs)
        {
          assert r in Refs(v);
        }
      }
    case Array(items) =>
      forall i | 0 <= i < |items| { RefsDefinedIff(items[i], defs); }
      if forall r :: r in Refs(v) ==> RefInliner.Resolves(r, defs) {
        forall i, r | 0 <= i < |items| && r in Refs(items[i])
          ensures RefInliner.Resolves(r, defs)
        {
          assert r in Refs(v);
        }
      }
    case _ =>
  }

  function RefNames(paths: set<string>): set<string> {
    set p | p in paths :: RefInliner.RefTo(p)
  }

  lemma RefNamesUnion(a: set<string>, b: set<string>)
    ensures RefNames(a + b) == RefNames(a) + RefNames(b)
  {
  }

  function MemberRefs(fields: map<string, Value>): set<string> {
    set k, r | k in fields && r in Refs(fields[k]) :: r
  }

  function ItemRefs(items: seq<Value>): set<string> {
    set i, r | 0 <= i < |items| && r in Refs(items[i]) :: r
  }

  // ---------------------------------------------------------------- schema shapes

  lemma KeywordsAreNotRef()
    ensures REF !in {"type", "properties", "additionalProperties", "required", "prefixItems",
                     "items", "minItems", "maxItems", "description", "oneOf", "const",
                     "minimum", "maximum", "minLength", "maxLength"}
  {
    assert REF[0] == '$';
    assert "type"[0] == 't';
  }

  lemma TextsHaveNoRefs(names: seq<string>)
    ensures Refs(Texts(names)) == {}
  {
  }

  lemma ObjectSchemaRefs(properties: map<string, Value>, required: seq<string>)
    requires forall k :: k in properties ==> properties[k].Object?
    ensures Refs(ObjectSchema(properties, required)) == MemberRefs(properties)
  {
    KeywordsAreNotRef();
    TextsHaveNoRefs(required);
    var schema := ObjectSchema(properties, required);
    assert Refs(Object(properties)) == MemberRefs(properties);
    forall r | r in Refs(Object(properties))
      ensures r in Refs(schema)
    {
      assert "properties" in schema.fields && schema.fields["properties"] == Object(properties);
    }
  }

  lemma TupleSchemaRefs(items: seq<Value>)
    ensures Refs(TupleSchema(items)) == ItemRefs(items)
  {
    KeywordsAreNotRef();
    var schema := TupleSchema(items);
    assert Refs(Array(items)) == ItemRefs(items);
    forall r | r in ItemRefs(items)
      ensures r in Refs(schema)
    {
      assert schema.fields["prefixItems"] == Array(items);
    }
  }

  lemma ListSchemaRefs(item: Value, capacity: nat)
    ensures Refs(ListSchema(item)) == Refs(item)
    ensures Refs(ArraySchema(item, capacity)) == Refs(item)
  {
    KeywordsAreNotRef();
    assert ListSchema(item).fields["items"] == item;
    assert ArraySchema(item, capacity).fields["items"] == item;
  }

  lemma OneMemberRefs(fields: map<string, Value>, key: string)
    requires REF !in fields && key in fields
    requires forall k :: k in fields && k != key ==> Refs(fields[k]) == {}
    ensures Refs(Object(fields)) == Refs(fields[key])
  {
    forall r | r in Refs(fields[key])
      ensures r in Refs(Object(fields))
    {
      assert key in fields;
    }
  }

  lemma MapSchemaRefs(value: Value, keyPath: string)
    ensures Refs(MapSchema(value, keyPath)) == Refs(value)
  {
    KeywordsAreNotRef();
    var fields := MapSchema(value, keyPath).fields;
    assert fields["additionalProperties"] == value;
    forall k | k in fields && k != "additionalProperties"
      ensures Refs(fields[k]) == {}
    {
      assert fields[k].Text?;
    }
    OneMemberRefs(fields, "additionalProperties");
  }

  lemma OneOfRefs(choices: seq<Value>)
    ensures Refs(OneOf(choices)) == ItemRefs(choices)
  {
    KeywordsAreNotRef();
    assert OneOf(choices).fields["oneOf"] == Array(choices);
    assert Refs(Array(choices)) == ItemRefs(choices);
  }

  lemma NullableRefs(inner: Value)
    ensures Refs(Nullable(inner)) == Refs(inner)
  {
    KeywordsAreNotRef();
    var choices := [TypeOnly("null"), inner];
    OneOfRefs(choices);
    assert Refs(choices[0]) == {} && choices[1] == inner;
    assert ItemRefs(choices) == Refs(inner);
  }

  lemma RefSchemaRefs(path: string)
    ensures Refs(RefSchema(path)) == RefNames({path})
  {
  }

  lemma PlainSchemasHaveNoRefs(types: Types, path: string, text: string)
    requires WellFormed(types)
    ensures Refs(Described(text)) == {}
    ensures PrimitiveSchema(types, path).Some? ==>
              Refs(PrimitiveSchema(types, path).value) == {}
  {
    KeywordsAreNotRef();
    if PrimitiveSchema(types, path).Some? {
      HasRefIff(PrimitiveSchema(types, path).value);
    }
  }

  lemma NamedVariantRefs(name: string, inner: Value)
    requires inner.Object?
    ensures Refs(NamedVariant(name, inner)) == Refs(inner)
  {
    KeywordsAreNotRef();
    var wrapper := Object(map[name := inner]);
    TextsHaveNoRefs([name]);
    assert wrapper.fields[name] == inner;
    assert Refs(wrapper) == Refs(inner);
    assert NamedVariant(name, inner).fields["properties"] == wrapper;
  }

  // ---------------------------------------------------------------- fields, variants, types

  lemma TypeRefRefs(types: Types, t: TypeRef)
    requires WellFormed(types)
    ensures Refs(TypeRefSchema(types, t)) == RefNames(RefEdges(t))
    ensures TypeRefSchema(types, t).Object? && TypeRefSchema(types, t) != Object(map[])
  {
    match t
    case Reflected(path) =>
      RefSchemaRefs(path);
      assert REF in RefSchema(path).fields;
    case PathOnly(path) =>
      PlainSchemasHaveNoRefs(types, path, "Unknown reflected field type: " + path);
      assert "description" in Described("Unknown reflected field type: " + path).fields;
  }

  lemma TypeRefsRefs(types: Types, ts: seq<TypeRef>)
    requires WellFormed(types)
    ensures ItemRefs(TypeRefSchemas(types, ts)) == RefNames(ListEdges(ts))
  {
    forall i | 0 <= i < |ts| { TypeRefRefs(types, ts[i]); }
    forall r | r in RefNames(ListEdges(ts))
      ensures r in ItemRefs(TypeRefSchemas(types, ts))
    {
      var i :| 0 <= i < |ts| && ts[i].Reflected? && r == RefInliner.RefTo(ts[i].path);
      assert r in Refs(TypeRefSchemas(types, ts)[i]);
    }
  }

  lemma FieldRefs(types: Types, f: Field)
    requires WellFormed(types)
    ensures Refs(FieldSchema(types, f)) == RefNames(FieldEdges(types, f))
    ensures FieldSchema(types, f).Object?
  {
    TypeRefRefs(types, f.ty);
    match FieldPayload(types, f)
    case Some(t) =>
      TypeRefRefs(types, t);
      NullableRefs(TypeRefSchema(types, t));
    case None =>
      NullableRefs(Object(map[]));
      assert Refs(Object(map[])) == {};
  }

  lemma {:induction false} PropertiesRefs(types: Types, fields: seq<Field>, skipped: set<nat>, n: nat)
    requires WellFormed(types) && n <= |fields| && DistinctFields(fields)
    ensures var ps := Properties(types, fields, skipped, n);
            MemberRefs(ps) == RefNames(FieldsEdges(types, fields, skipped, n)) &&
            (forall k :: k in ps ==> ps[k].Object?) &&
            (forall k :: k in ps ==> exists i :: 0 <= i < n && fields[i].name == k)
  {
    if n > 0 {
      PropertiesRefs(types, fields, skipped, n - 1);
      if n - 1 !in skipped {
        FieldRefs(types, fields[n - 1]);
        AddMemberRefs(Properties(types, fields, skipped, n - 1), fields[n - 1].name,
                      FieldSchema(types, fields[n - 1]));
        FieldsEdgesStep(types, fields, skipped, n);
      }
    }
  }

  lemma FieldsEdgesStep(types: Types, fields: seq<Field>, skipped: set<nat>, n: nat)
    requires 0 < n <= |fields| && n - 1 !in skipped
    ensures RefNames(FieldsEdges(types, fields, skipped, n)) ==
            RefNames(FieldsEdges(types, fields, skipped, n - 1)) +
            RefNames(FieldEdges(types, fields[n - 1]))
  {
    RefNamesUnion(FieldsEdges(types, fields, skipped, n - 1), FieldEdges(types, fields[n - 1]));
  }

  lemma AddMemberRefs(m: map<string, Value>, k: string, v: Value)
    requires k !in m
    ensures MemberRefs(m[k := v]) == MemberRefs(m) + Refs(v)
  {
    var n := m[k := v];
    forall r | r in MemberRefs(m) + Refs(v)
      ensures r in MemberRefs(n)
    {
      if r in Refs(v) {
        assert n[k] == v;
      } else {
        var j :| j in m && r in Refs(m[j]);
        assert n[j] == m[j];
      }
    }
  }

  lemma FieldsSchemaRefs(types: Types, fields: seq<Field>, skipped: set<nat>)
    requires WellFormed(types) && DistinctFields(fields)
    ensures Refs(FieldsSchema(types, fields, skipped)) ==
            RefNames(FieldsEdges(types, fields, skipped, |fields|))
  {
    PropertiesRefs(types, fields, skipped, |fields|);
    ObjectSchemaRefs(Properties(types, fields, skipped, |fields|),
                     Required(types, fields, skipped, |fields|));
  }

  lemma VariantRefs(types: Types, v: Variant)
    requires WellFormed(types)
    requires v.StructVariant? ==> DistinctFields(v.fields)
    ensures Refs(VariantSchema(types, v)) == RefNames(VariantEdges(types, v))
    ensures VariantSchema(types, v).Object? && VariantSchema(types, v) != Object(map[])
  {
    KeywordsAreNotRef();
    assert "type" in VariantSchema(types, v).fields;
    match v
    case UnitVariant(name) =>
      var schema := VariantSchema(types, v);
      assert forall k :: k in schema.fields ==> schema.fields[k].Text?;
    case TupleVariant(name, ts) =>
      if |ts| == 1 {
        TypeRefRefs(types, ts[0]);
        NamedVariantRefs(name, TypeRefSchema(types, ts[0]));
        assert ListEdges(ts) == RefEdges(ts[0]);
      } else {
        TypeRefsRefs(types, ts);
        TupleSchemaRefs(TypeRefSchemas(types, ts));
        NamedVariantRefs(name, TupleSchema(TypeRefSchemas(types, ts)));
      }
    case StructVariant(name, fields) =>
      FieldsSchemaRefs(types, fields, {});
      NamedVariantRefs(name, FieldsSchema(types, fields, {}));
  }

  lemma {:induction false} VariantsRefs(types: Types, vs: seq<Variant>)
    requires WellFormed(types)
    requires forall i :: 0 <= i < |vs| && vs[i].StructVariant? ==> DistinctFields(vs[i].fields)
    ensures ItemRefs(VariantSchemas(types, vs)) == RefNames(VariantsEdges(types, vs))
  {
    if vs != [] {
      var init, last := vs[..|vs| - 1], vs[|vs| - 1];
      VariantsRefs(types, init);
      VariantRefs(types, last);
      LastVariant(types, vs);
      AddItemRefs(VariantSchemas(types, init), VariantSchema(types, last));
    }
  }

  lemma LastVariant(types: Types, vs: seq<Variant>)
    requires vs != []
    ensures var init, last := vs[..|vs| - 1], vs[|vs| - 1];
            VariantSchemas(types, vs) == VariantSchemas(types, init) + [VariantSchema(types, last)] &&
            RefNames(VariantsEdges(types, vs)) ==
              RefNames(VariantsEdges(types, init)) + RefNames(VariantEdges(types, last))
  {
    var init, last := vs[..|vs| - 1], vs[|vs| - 1];
    RefNamesUnion(VariantsEdges(types, init), VariantEdges(types, last));
  }

  lemma AddItemRefs(items: seq<Value>, v: Value)
    ensures ItemRefs(items + [v]) == ItemRefs(items) + Refs(v)
  {
    var more := items + [v];
    forall r | r in ItemRefs(items) + Refs(v)
      ensures r in ItemRefs(more)
    {
      if r in Refs(v) {
        assert more[|items|] == v;
      } else {
        var i :| 0 <= i < |items| && r in Refs(items[i]);
        assert more[i] == items[i];
      }
    }
  }

  lemma StructRefs(types: Types, path: string)
    requires WellFormed(types) && path in types.infos && types.infos[path].Struct?
    ensures Refs(SchemaOf(types, path)) == RefNames(Edges(types, types.infos[path]))
    ensures SchemaOf(types, path).Object? && SchemaOf(types, path) != Object(map[])
  {
    assert Edges(types, types.infos[path]) <= types.infos.Keys;
    FieldsSchemaRefs(types, types.infos[path].fields, types.infos[path].skipped);
    assert "type" in SchemaOf(types, path).fields;
  }

  lemma TupleRefs(types: Types, path: string)
    requires WellFormed(types) && path in types.infos && (types.infos[path].TupleStruct? || types.infos[path].Tuple?)
    ensures Refs(SchemaOf(types, path)) == RefNames(Edges(types, types.infos[path]))
    ensures SchemaOf(types, path).Object? && SchemaOf(types, path) != Object(map[])
  {
    var info := types.infos[path];
    if info.TupleStruct? && |info.types| == 1 && !info.hasSerializationData {
      TypeRefRefs(types, info.types[0]);
    } else {
      var ts := if info.Tuple? then info.types else Kept(info.types, info.skipped, |info.types|);
      TypeRefsRefs(types, ts);
      TupleSchemaRefs(TypeRefSchemas(types, ts));
      assert "type" in SchemaOf(types, path).fields;
    }
  }

  lemma ElementRefs(types: Types, path: string)
    requires WellFormed(types) && path in types.infos
    requires types.infos[path].List? || types.infos[path].FixedArray? || types.infos[path].Map?
    ensures Refs(SchemaOf(types, path)) == RefNames(Edges(types, types.infos[path]))
    ensures SchemaOf(types, path).Object? && SchemaOf(types, path) != Object(map[])
  {
    var info := types.infos[path];
    assert "type" in SchemaOf(types, path).fields;
    match info
    case List(item) =>
      TypeRefRefs(types, item);
      ListSchemaRefs(TypeRefSchema(types, item), 0);
    case FixedArray(item, capacity) =>
      TypeRefRefs(types, item);
      ListSchemaRefs(TypeRefSchema(types, item), capacity);
    case Map(keyPath, value) =>
      TypeRefRefs(types, value);
      MapSchemaRefs(TypeRefSchema(types, value), keyPath);
  }

  lemma SetOrOpaqueRefs(types: Types, path: string)
    requires WellFormed(types) && path in types.infos && (types.infos[path].Set? || types.infos[path].Opaque?)
    ensures Refs(SchemaOf(types, path)) == RefNames(Edges(types, types.infos[path]))
    ensures SchemaOf(types, path).Object? && SchemaOf(types, path) != Object(map[])
  {
    match types.infos[path]
    case Set(registered, valuePath) =>
      var schema := SchemaOf(types, path);
      assert "type" in schema.fields;
      ListSchemaRefs(schema.fields["items"], 0);
      PlainSchemasHaveNoRefs(types, valuePath, "");
      if registered.Some? { RefSchemaRefs(registered.value); }
      assert Refs(Object(map[])) == {};
    case Opaque =>
      PlainSchemasHaveNoRefs(types, path, "Opaque reflected type: " + path);
      assert "description" in Described("Opaque reflected type: " + path).fields;
  }

  lemma EnumRefs(types: Types, path: string)
    requires WellFormed(types) && path in types.infos && types.infos[path].Enum?
    ensures Refs(SchemaOf(types, path)) == RefNames(Edges(types, types.infos[path]))
    ensures SchemaOf(types, path).Object? && SchemaOf(types, path) != Object(map[])
  {
    assert Edges(types, types.infos[path]) <= types.infos.Keys;
    var variants := types.infos[path].variants;
    match OptionPayload(variants)
    case Some(t) =>
      TypeRefRefs(types, t);
      NullableRefs(TypeRefSchema(types, t));
      assert "oneOf" in SchemaOf(types, path).fields;
    case None =>
      if |variants| == 1 {
        VariantRefs(types, variants[0]);
        assert variants[..0] == [];
        assert VariantsEdges(types, variants) == VariantEdges(types, variants[0]);
      } else {
        VariantsRefs(types, variants);
        OneOfRefs(VariantSchemas(types, variants));
        assert "oneOf" in SchemaOf(types, path).fields;
      }
  }

  /** The references in a type's schema are exactly its edges, and the schema is a non-empty
      object: never a bare string, and never the placeholder. */
  lemma SchemaRefsAreEdges(types: Types, path: string)
    requires WellFormed(types) && path in types.infos
    ensures Refs(SchemaOf(types, path)) == RefNames(Edges(types, types.infos[path]))
    ensures SchemaOf(types, path).Object? && SchemaOf(types, path) != Object(map[])
  {
    match types.infos[path]
    case Struct(_, _) => StructRefs(types, path);
    case TupleStruct(_, _, _) => TupleRefs(types, path);
    case Tuple(_) => TupleRefs(types, path);
    case List(_) => ElementRefs(types, path);
    case FixedArray(_, _) => ElementRefs(types, path);
    case Map(_, _) => ElementRefs(types, path);
    case Set(_, _) => SetOrOpaqueRefs(types, path);
    case Enum(_) => EnumRefs(types, path);
    case Opaque => SetOrOpaqueRefs(types, path);
  }
}
