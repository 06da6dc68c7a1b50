/** What the schema of a type means: the schema accepts exactly the values that the type's
    structure admits. */
module SchemaMeaning {
  import opened Wrappers
  import opened Json
  import opened ReflectedTypes
  import opened PrimitiveSchemas
  import opened JsonSchema
  import opened SchemaShapes
  import opened PrimitiveValues
  import opened TypeValues

  ghost predicate DistinctVariants(variants: seq<Variant>) {
    forall i, j :: 0 <= i < j < |variants| ==> variants[i].name != variants[j].name
  }

  /** The table holds the schemas of the primitives and nothing else. */
  ghost predicate OfPrimitives(table: map<string, Value>, primitiveOf: string -> Option<Primitive>) {
    forall path {:trigger primitiveOf(path)} {:trigger table[path]} ::
      (path in table <==> primitiveOf(path).Some?) &&
      (path in table ==> KnownWidth(primitiveOf(path).value) && table[path] == Render(ShapeOf(primitiveOf(path).value)))
  }

  /** The source's own table holds the schemas of the primitives of the language. */
  lemma TheTableIsOfPrimitives()
    ensures OfPrimitives(Table(PrimitiveRows()), PrimitiveOf)
  {
    forall path
      ensures path in Table(PrimitiveRows()) <==> PrimitiveOf(path).Some?
      ensures path in Table(PrimitiveRows()) ==>
                KnownWidth(PrimitiveOf(path).value) &&
                Table(PrimitiveRows())[path] == Render(ShapeOf(PrimitiveOf(path).value))
    {
      TableIsOfPrimitives(path);
      PrimitivesHaveKnownWidth(path);
    }
  }

  /** What holds of the reflection data of any program: it is complete, uses the source's primitive
      schemas, variants of one enum differ in name, and types are grounded. */
  ghost predicate Sound(w: World) {
    Complete(w.types) && OfPrimitives(w.types.primitives, w.primitiveOf) && Grounded(w) && DistinctlyNamed(w.types)
  }

  ghost predicate DistinctlyNamed(types: Types) {
    forall p {:trigger types.infos[p]} :: p in types.infos && types.infos[p].Enum? ==>
      DistinctVariants(types.infos[p].variants)
  }

  /** The definitions hold the schemas of some types and of all that these refer to, and references
      may be followed as far as types nest. */
  ghost predicate Defines(w: World, r: Rules) {
    (forall p {:trigger Defined(w, r, p)} :: p in r.defs ==> Defined(w, r, p)) &&
    forall p {:trigger w.rank(p)} :: p in r.defs ==> w.rank(p) < r.limit
  }

  ghost predicate Defined(w: World, r: Rules, p: string)
    requires p in r.defs
  {
    p in w.types.infos && r.defs[p] == SchemaOf(w.types, p) && Edges(w.types, w.types.infos[p]) <= r.defs.Keys
  }

  // ---------------------------------------------------------------- variants by name

  lemma {:induction false} FindVariantFinds(variants: seq<Variant>, name: string)
    ensures FindVariant(variants, name).Some? <==> HasVariant(variants, name)
    ensures FindVariant(variants, name).Some? ==>
              FindVariant(variants, name).value in variants && FindVariant(variants, name).value.name == name
  {
    if variants != [] {
      FindVariantFinds(variants[1..], name);
      assert variants == [variants[0]] + variants[1..];
      if i :| 0 <= i < |variants[1..]| && variants[1..][i].name == name {
        assert variants[i + 1].name == name;
      }
      if i :| 1 <= i < |variants| && variants[i].name == name {
        assert variants[1..][i - 1].name == name;
      }
    }
  }

  lemma OneOfName(variants: seq<Variant>, a: Variant, b: Variant)
    requires DistinctVariants(variants) && a in variants && b in variants && a.name == b.name
    ensures a == b
  {
  }

  /** The payload of an enum is the one found by name. */
  lemma PayloadIsFound(variants: seq<Variant>, payload: TypeRef)
    requires DistinctVariants(variants)
    ensures OptionPayload(variants) == Some(payload) <==> OptionLike(variants, payload)
  {
    FindVariantFinds(variants, "None");
    FindVariantFinds(variants, "Some");
    if OptionLike(variants, payload) {
      var none, some := UnitVariant("None"), TupleVariant("Some", [payload]);
      var i :| 0 <= i < |variants| && variants[i] == none;
      var j :| 0 <= j < |variants| && variants[j] == some;
      assert variants[i].name == "None" && variants[j].name == "Some";
      OneOfName(variants, FindVariant(variants, "None").value, none);
      OneOfName(variants, FindVariant(variants, "Some").value, some);
    }
    if OptionPayload(variants) == Some(payload) {
      assert FindVariant(variants, "Some").value == TupleVariant("Some", [payload]);
    }
  }

  lemma PayloadsAgree(variants: seq<Variant>)
    requires DistinctVariants(variants)
    ensures forall payload :: OptionPayload(variants) == Some(payload) <==> OptionLike(variants, payload)
    ensures OptionPayload(variants).Some? <==> exists payload :: OptionLike(variants, payload)
  {
    forall payload { PayloadIsFound(variants, payload); }
    if OptionPayload(variants).Some? { assert OptionLike(variants, OptionPayload(variants).value); }
  }

  lemma OptionalAgrees(types: Types, f: Field)
    ensures IsOptionField(types, f) <==> Optional(types, f)
  {
    if IsEnum(types, f.ty) {
      FindVariantFinds(types.infos[f.ty.path].variants, "None");
      FindVariantFinds(types.infos[f.ty.path].variants, "Some");
    }
  }

  // ---------------------------------------------------------------- type references

  lemma {:induction false} TypeRefMeans(w: World, accepts: Verdict, r: Rules, t: TypeRef, v: Value, refs: nat)
    requires Sound(w) && Defines(w, r) && Decides(accepts, r)
    requires RefEdges(t) <= r.defs.Keys && refs >= Height(t, w.rank)
    ensures accepts(TypeRefSchema(w.types, t), v, refs) <==> Admitted(r.dialect, w, t, v)
    decreases v, 1, Height(t, w.rank), 0
  {
    match t
    case PathOnly(path) => PathMeans(w, accepts, r, path, "Unknown reflected field type: " + path, v, refs);
    case Reflected(path) => ReferenceMeans(w, accepts, r, path, v, refs);
  }

  lemma {:induction false} ReferenceMeans(
    w: World, accepts: Verdict, r: Rules, path: string, v: Value, refs: nat)
    requires Sound(w) && Defines(w, r) && Decides(accepts, r)
    requires path in r.defs && refs > w.rank(path)
    ensures accepts(RefSchema(path), v, refs) <==> Admitted(r.dialect, w, Reflected(path), v)
    decreases v, 1, w.rank(path), 3
  {
    var s := r.defs[path];
    RefMeans(accepts, r, path, v, refs);
    SchemaMeans(w, accepts, r, path, s, v, refs - 1);
  }

  /** The same for all elements of a value. */
  lemma {:induction false} ItemsMean(w: World, accepts: Verdict, r: Rules, t: TypeRef, v: Value)
    requires Sound(w) && Defines(w, r) && Decides(accepts, r) && RefEdges(t) <= r.defs.Keys && v.Array?
    ensures forall i :: 0 <= i < |v.items| ==>
              (accepts(TypeRefSchema(w.types, t), v.items[i], r.limit) <==>
               Admitted(r.dialect, w, t, v.items[i]))
    decreases v, 0, 0, 0
  {
    forall i | 0 <= i < |v.items|
      ensures accepts(TypeRefSchema(w.types, t), v.items[i], r.limit) <==>
              Admitted(r.dialect, w, t, v.items[i])
    {
      TypeRefMeans(w, accepts, r, t, v.items[i], r.limit);
    }
  }

  lemma PathMeans(w: World, accepts: Verdict, r: Rules, path: string, text: string, v: Value, refs: nat)
    requires OfPrimitives(w.types.primitives, w.primitiveOf) && Decides(accepts, r)
    ensures accepts(match PrimitiveSchema(w.types, path) case Some(s) => s case None => Described(text), v, refs) <==>
            AdmittedPath(w, path, v)
    ensures accepts(match PrimitiveSchema(w.types, path) case Some(s) => s case None => Object(map[]), v, refs) <==>
            AdmittedPath(w, path, v)
  {
    DescribedMeans(accepts, r, text, v, refs);
    if w.primitiveOf(path).Some? { PrimitiveMeans(accepts, r, w.primitiveOf(path).value, v, refs); }
  }

  // ---------------------------------------------------------------- tuples

  lemma {:induction false} KeptAt(ts: seq<TypeRef>, skipped: set<nat>, n: nat)
    requires n <= |ts|
    ensures |Kept(ts, skipped, n)| == Position(skipped, n)
  {
    if n > 0 { KeptAt(ts, skipped, n - 1); }
  }

  /** Element `i` is kept at its position. */
  lemma {:induction false} KeptElement(ts: seq<TypeRef>, skipped: set<nat>, n: nat, i: nat)
    requires i < n <= |ts| && i !in skipped
    ensures Position(skipped, i) < |Kept(ts, skipped, n)| && Kept(ts, skipped, n)[Position(skipped, i)] == ts[i]
  {
    KeptAt(ts, skipped, n - 1);
    if i < n - 1 { KeptElement(ts, skipped, n - 1, i); }
  }

  /** Every position is that of some element. */
  lemma {:induction false} ElementAt(skipped: set<nat>, n: nat, k: nat) returns (i: nat)
    requires k < Position(skipped, n)
    ensures i < n && i !in skipped && Position(skipped, i) == k
  {
    if k < Position(skipped, n - 1) {
      i := ElementAt(skipped, n - 1, k);
    } else {
      i := n - 1;
    }
  }

  lemma {:induction false} AllKept(ts: seq<TypeRef>, n: nat)
    requires n <= |ts|
    ensures Kept(ts, {}, n) == ts[..n]
  {
    if n > 0 { AllKept(ts, n - 1); }
  }

  /** Going through the kept elements in order is going through those that are not left out. */
  lemma KeptAdmitted(d: Dialect, w: World, ts: seq<TypeRef>, skipped: set<nat>, v: Value)
    requires Grounded(w) && v.Array? && |v.items| == |Kept(ts, skipped, |ts|)|
    requires d.Draft07? ==> v.items == []
    ensures AdmittedTuple(d, w, ts, skipped, v) <==>
            var kept := Kept(ts, skipped, |ts|);
            forall k :: 0 <= k < |kept| ==> Admitted(d, w, kept[k], v.items[k])
  {
    var kept := Kept(ts, skipped, |ts|);
    KeptAt(ts, skipped, |ts|);
    forall i: nat | i < |ts| && i !in skipped
      ensures Position(skipped, i) < |kept| && kept[Position(skipped, i)] == ts[i]
    {
      KeptElement(ts, skipped, |ts|, i);
    }
    if AdmittedTuple(d, w, ts, skipped, v) {
      forall k | 0 <= k < |kept|
        ensures Admitted(d, w, kept[k], v.items[k])
      {
        var i := ElementAt(skipped, |ts|, k);
        assert Admitted(d, w, ts[i], v.items[Position(skipped, i)]);
      }
    }
  }

  lemma {:induction false} TupleMeaning(w: World, accepts: Verdict, r: Rules,
                                        ts: seq<TypeRef>, skipped: set<nat>, v: Value, refs: nat)
    requires Sound(w) && Defines(w, r) && Decides(accepts, r)
    requires ListEdges(Kept(ts, skipped, |ts|)) <= r.defs.Keys
    ensures accepts(TupleSchema(TypeRefSchemas(w.types, Kept(ts, skipped, |ts|))), v, refs) <==>
            AdmittedTuple(r.dialect, w, ts, skipped, v)
    decreases v, 0, 1, 0
  {
    var kept := Kept(ts, skipped, |ts|);
    var items := TypeRefSchemas(w.types, kept);
    TupleMeans(accepts, r, items, v, refs);
    KeptAt(ts, skipped, |ts|);
    if v.Array? && |v.items| == |kept| && (r.dialect.Draft07? ==> v.items == []) {
      KeptAdmitted(r.dialect, w, ts, skipped, v);
      forall k | 0 <= k < |kept|
        ensures accepts(items[k], v.items[k], r.limit) <==> Admitted(r.dialect, w, kept[k], v.items[k])
      {
        assert RefEdges(kept[k]) <= ListEdges(kept);
        TypeRefMeans(w, accepts, r, kept[k], v.items[k], r.limit);
      }
    }
  }

  /** A tuple without left-out elements. */
  lemma {:induction false} WholeTupleMeaning(w: World, accepts: Verdict, r: Rules,
                                             ts: seq<TypeRef>, v: Value, refs: nat)
    requires Sound(w) && Defines(w, r) && Decides(accepts, r) && ListEdges(ts) <= r.defs.Keys
    ensures accepts(TupleSchema(TypeRefSchemas(w.types, ts)), v, refs) <==>
            AdmittedTuple(r.dialect, w, ts, {}, v)
    decreases v, 0, 2, 0
  {
    AllKept(ts, |ts|);
    assert ts[..|ts|] == ts;
    TupleMeaning(w, accepts, r, ts, {}, v, refs);
  }

  // ---------------------------------------------------------------- fields

  lemma {:induction false} PropertiesAre(types: Types, fields: seq<Field>, skipped: set<nat>, n: nat, name: string)
    requires n <= |fields|
    ensures name in Properties(types, fields, skipped, n) <==>
            exists i: nat :: i < n && IsField(fields, skipped, i, name)
  {
    if n > 0 {
      PropertiesAre(types, fields, skipped, n - 1, name);
      if n - 1 !in skipped && fields[n - 1].name == name { assert IsField(fields, skipped, n - 1, name); }
    }
  }

  lemma {:induction false} PropertyOfField(types: Types, fields: seq<Field>, skipped: set<nat>, n: nat, i: nat)
    requires i < n <= |fields| && i !in skipped && DistinctFields(fields)
    ensures fields[i].name in Properties(types, fields, skipped, n)
    ensures Properties(types, fields, skipped, n)[fields[i].name] == FieldSchema(types, fields[i])
  {
    if i < n - 1 {
      PropertyOfField(types, fields, skipped, n - 1, i);
      assert fields[n - 1].name != fields[i].name;
    }
  }

  lemma {:induction false} RequiredAre(types: Types, fields: seq<Field>, skipped: set<nat>, n: nat, name: string)
    requires n <= |fields|
    ensures name in Required(types, fields, skipped, n) <==>
            exists i: nat :: i < n && IsField(fields, skipped, i, name) && !Optional(types, fields[i])
  {
    if n > 0 {
      RequiredAre(types, fields, skipped, n - 1, name);
      OptionalAgrees(types, fields[n - 1]);
      if n - 1 !in skipped && fields[n - 1].name == name && !Optional(types, fields[n - 1]) {
        assert IsField(fields, skipped, n - 1, name);
      }
    }
  }

  lemma {:induction false} EdgesOfField(types: Types, fields: seq<Field>, skipped: set<nat>, n: nat, i: nat)
    requires i < n <= |fields| && i !in skipped
    ensures FieldEdges(types, fields[i]) <= FieldsEdges(types, fields, skipped, n)
  {
    if i < n - 1 { EdgesOfField(types, fields, skipped, n - 1, i); }
  }

  lemma {:induction false} FieldMeans(w: World, accepts: Verdict, r: Rules, f: Field, v: Value)
    requires Sound(w) && Defines(w, r) && Decides(accepts, r) && FieldEdges(w.types, f) <= r.defs.Keys
    ensures accepts(FieldSchema(w.types, f), v, r.limit) <==> AdmittedField(r.dialect, w, f, v)
    decreases v, 2, 0, 0
  {
    OptionalAgrees(w.types, f);
    if !Optional(w.types, f) {
      TypeRefMeans(w, accepts, r, f.ty, v, r.limit);
    } else {
      if IsEnum(w.types, f.ty) { PayloadsAgree(w.types.infos[f.ty.path].variants); }
      match FieldPayload(w.types, f)
      case Some(t) =>
        assert HasPayload(w.types, f.ty, t);
        TypeRefMeans(w, accepts, r, t, v, r.limit);
        NullableMeans(accepts, r, TypeRefSchema(w.types, t), v, r.limit);
      case None =>
        DescribedMeans(accepts, r, "", v, r.limit);
        NullableMeans(accepts, r, Object(map[]), v, r.limit);
    }
  }

  /** Properties and required names, for every name at once. */
  lemma NamesAgree(types: Types, fields: seq<Field>, skipped: set<nat>)
    requires DistinctFields(fields)
    ensures var properties := Properties(types, fields, skipped, |fields|);
            (forall name :: name in properties <==> exists i: nat :: IsField(fields, skipped, i, name)) &&
            forall i: nat :: i < |fields| && i !in skipped ==>
              fields[i].name in properties && properties[fields[i].name] == FieldSchema(types, fields[i])
    ensures forall name :: name in Required(types, fields, skipped, |fields|) <==>
              exists i: nat :: IsField(fields, skipped, i, name) && !Optional(types, fields[i])
  {
    forall name
      ensures name in Properties(types, fields, skipped, |fields|) <==>
              exists i: nat :: IsField(fields, skipped, i, name)
    {
      PropertiesAre(types, fields, skipped, |fields|, name);
    }
    forall i: nat | i < |fields| && i !in skipped
      ensures fields[i].name in Properties(types, fields, skipped, |fields|)
      ensures Properties(types, fields, skipped, |fields|)[fields[i].name] == FieldSchema(types, fields[i])
    {
      PropertyOfField(types, fields, skipped, |fields|, i);
    }
    forall name
      ensures name in Required(types, fields, skipped, |fields|) <==>
              exists i: nat :: IsField(fields, skipped, i, name) && !Optional(types, fields[i])
    {
      RequiredAre(types, fields, skipped, |fields|, name);
    }
  }

  lemma {:induction false} FieldsMeaning(w: World, accepts: Verdict, r: Rules,
                                         fields: seq<Field>, skipped: set<nat>, v: Value, refs: nat)
    requires Sound(w) && Defines(w, r) && Decides(accepts, r) && DistinctFields(fields)
    requires FieldsEdges(w.types, fields, skipped, |fields|) <= r.defs.Keys
    ensures accepts(FieldsSchema(w.types, fields, skipped), v, refs) <==>
            AdmittedFields(r.dialect, w, fields, skipped, v)
    decreases v, 0, 1, 0
  {
    var n := |fields|;
    var properties, required := Properties(w.types, fields, skipped, n), Required(w.types, fields, skipped, n);
    ObjectMeans(accepts, r, properties, required, v, refs);
    if v.Object? {
      NamesAgree(w.types, fields, skipped);
      forall i: nat | i < n && i !in skipped && fields[i].name in v.fields
        ensures accepts(properties[fields[i].name], v.fields[fields[i].name], r.limit) <==>
                AdmittedField(r.dialect, w, fields[i], v.fields[fields[i].name])
      {
        EdgesOfField(w.types, fields, skipped, n, i);
        FieldMeans(w, accepts, r, fields[i], v.fields[fields[i].name]);
      }
    }
  }

  // ---------------------------------------------------------------- variants and enums

  lemma {:induction false} VariantMeans(w: World, accepts: Verdict, r: Rules, variant: Variant, v: Value, refs: nat)
    requires Sound(w) && Defines(w, r) && Decides(accepts, r) && VariantEdges(w.types, variant) <= r.defs.Keys
    requires variant.StructVariant? ==> DistinctFields(variant.fields)
    ensures accepts(VariantSchema(w.types, variant), v, refs) <==> AdmittedVariant(r.dialect, w, variant, v)
    decreases v, 0, 3, 0
  {
    match variant
    case UnitVariant(name) => UnitMeans(accepts, r, w.types, name, v, refs);
    case TupleVariant(name, ts) =>
      if |ts| == 1 {
        NamedMeans(accepts, r, name, TypeRefSchema(w.types, ts[0]), v, refs);
        if v.Object? && name in v.fields { TypeRefMeans(w, accepts, r, ts[0], v.fields[name], r.limit); }
      } else {
        NamedMeans(accepts, r, name, TupleSchema(TypeRefSchemas(w.types, ts)), v, refs);
        if v.Object? && name in v.fields { WholeTupleMeaning(w, accepts, r, ts, v.fields[name], r.limit); }
      }
    case StructVariant(name, fields) =>
      NamedMeans(accepts, r, name, FieldsSchema(w.types, fields, {}), v, refs);
      if v.Object? && name in v.fields { FieldsMeaning(w, accepts, r, fields, {}, v.fields[name], r.limit); }
  }

  /** A value is of one variant only. */
  lemma VariantsExclude(d: Dialect, w: World, a: Variant, b: Variant, v: Value)
    requires Grounded(w)
    requires AdmittedVariant(d, w, a, v) && AdmittedVariant(d, w, b, v)
    ensures a.name == b.name
  {
    if !a.UnitVariant? && !b.UnitVariant? {
      assert a.name in v.fields.Keys && b.name in v.fields.Keys;
    }
  }

  lemma {:induction false} EdgesOfVariant(types: Types, variants: seq<Variant>, i: nat)
    requires i < |variants|
    ensures VariantEdges(types, variants[i]) <= VariantsEdges(types, variants)
  {
    var init := variants[..|variants| - 1];
    if i < |init| {
      EdgesOfVariant(types, init, i);
      assert init[i] == variants[i];
    }
  }

  lemma {:induction false} EnumMeans(w: World, accepts: Verdict, r: Rules, path: string, v: Value, refs: nat)
    requires Sound(w) && Defines(w, r) && Decides(accepts, r)
    requires path in r.defs && path in w.types.infos && w.types.infos[path].Enum? && refs >= w.rank(path)
    ensures accepts(SchemaOf(w.types, path), v, refs) <==> Admitted(r.dialect, w, Reflected(path), v)
    decreases v, 1, w.rank(path), 1
  {
    assert Defined(w, r, path);
    var variants := w.types.infos[path].variants;
    PayloadsAgree(variants);
    match OptionPayload(variants)
    case Some(t) =>
      assert OptionLike(variants, t);
      TypeRefMeans(w, accepts, r, t, v, refs);
      NullableMeans(accepts, r, TypeRefSchema(w.types, t), v, refs);
    case None =>
      ChoicesMean(w, accepts, r, path, v, refs);
  }

  lemma {:induction false} ChoicesMean(w: World, accepts: Verdict, r: Rules, path: string, v: Value, refs: nat)
    requires Sound(w) && Defines(w, r) && Decides(accepts, r)
    requires path in r.defs && path in w.types.infos && w.types.infos[path].Enum?
    requires OptionPayload(w.types.infos[path].variants).None?
    ensures var variants := w.types.infos[path].variants;
            accepts(SchemaOf(w.types, path), v, refs) <==>
            exists i :: 0 <= i < |variants| && AdmittedVariant(r.dialect, w, variants[i], v)
    decreases v, 0, 5, 0
  {
    var variants := w.types.infos[path].variants;
    assert Defined(w, r, path);
    assert DistinctNames(w.types.infos[path]);
    var verdicts := VerdictsOnVariants(w, accepts, r, variants, v, refs);
    if |variants| != 1 {
      OneOfMeans(accepts, r, VariantSchemas(w.types, variants), v, refs, verdicts);
      OneAtMost(r.dialect, w, variants, v, verdicts);
    }
  }

  lemma {:induction false} VerdictsOnVariants(
    w: World, accepts: Verdict, r: Rules, variants: seq<Variant>, v: Value, refs: nat) returns (verdicts: seq<bool>)
    requires Sound(w) && Defines(w, r) && Decides(accepts, r) && VariantsEdges(w.types, variants) <= r.defs.Keys
    requires forall i :: 0 <= i < |variants| && variants[i].StructVariant? ==> DistinctFields(variants[i].fields)
    ensures |verdicts| == |variants|
    ensures forall i :: 0 <= i < |variants| ==>
              verdicts[i] == accepts(VariantSchema(w.types, variants[i]), v, refs) &&
              verdicts[i] == AdmittedVariant(r.dialect, w, variants[i], v)
    decreases v, 0, 4, 0
  {
    verdicts := seq(|variants|, i requires 0 <= i < |variants| => AdmittedVariant(r.dialect, w, variants[i], v));
    forall i | 0 <= i < |variants|
      ensures verdicts[i] == accepts(VariantSchema(w.types, variants[i]), v, refs)
    {
      EdgesOfVariant(w.types, variants, i);
      VariantMeans(w, accepts, r, variants[i], v, refs);
    }
  }

  lemma OneAtMost(d: Dialect, w: World, variants: seq<Variant>, v: Value, verdicts: seq<bool>)
    requires Grounded(w) && DistinctVariants(variants) && |verdicts| == |variants|
    requires forall i :: 0 <= i < |variants| ==> verdicts[i] == AdmittedVariant(d, w, variants[i], v)
    ensures ExactlyOne(verdicts) <==> exists i :: 0 <= i < |variants| && AdmittedVariant(d, w, variants[i], v)
  {
    if i :| 0 <= i < |variants| && AdmittedVariant(d, w, variants[i], v) {
      forall j | 0 <= j < |verdicts| && verdicts[j]
        ensures j == i
      {
        VariantsExclude(d, w, variants[i], variants[j], v);
      }
      assert verdicts[i];
    }
    if i :| 0 <= i < |verdicts| && verdicts[i] { assert AdmittedVariant(d, w, variants[i], v); }
  }

  // ---------------------------------------------------------------- types

  lemma {:induction false} ProductMeans(
    w: World, accepts: Verdict, r: Rules, path: string, v: Value, refs: nat)
    requires Sound(w) && Defines(w, r) && Decides(accepts, r)
    requires path in r.defs && path in w.types.infos && refs >= w.rank(path)
    requires w.types.infos[path].Struct? || w.types.infos[path].TupleStruct? || w.types.infos[path].Tuple?
    ensures accepts(SchemaOf(w.types, path), v, refs) <==> Admitted(r.dialect, w, Reflected(path), v)
    decreases v, 1, w.rank(path), 1
  {
    assert Defined(w, r, path);
    match w.types.infos[path]
    case Struct(fields, skipped) =>
      assert DistinctNames(w.types.infos[path]);
      FieldsMeaning(w, accepts, r, fields, skipped, v, refs);
    case TupleStruct(ts, skipped, hasData) =>
      if |ts| == 1 && !hasData {
        TypeRefMeans(w, accepts, r, ts[0], v, refs);
      } else {
        TupleMeaning(w, accepts, r, ts, skipped, v, refs);
      }
    case Tuple(ts) => WholeTupleMeaning(w, accepts, r, ts, v, refs);
  }

  lemma {:induction false} SchemaMeans(
    w: World, accepts: Verdict, r: Rules, path: string, s: Value, v: Value, refs: nat)
    requires Sound(w) && Defines(w, r) && Decides(accepts, r)
    requires path in r.defs && s == r.defs[path] && refs >= w.rank(path)
    ensures accepts(s, v, refs) <==> Admitted(r.dialect, w, Reflected(path), v)
    decreases v, 1, w.rank(path), 2
  {
    assert Defined(w, r, path);
    match w.types.infos[path]
    case Struct(_, _) => ProductMeans(w, accepts, r, path, v, refs);
    case TupleStruct(_, _, _) => ProductMeans(w, accepts, r, path, v, refs);
    case Tuple(_) => ProductMeans(w, accepts, r, path, v, refs);
    case List(item) => ElementsMean(w, accepts, r, item, 0, "", v, refs);
    case FixedArray(item, capacity) => ElementsMean(w, accepts, r, item, capacity, "", v, refs);
    case Map(keyPath, value) => ElementsMean(w, accepts, r, value, 0, keyPath, v, refs);
    case Set(_, _) => SetMeans(w, accepts, r, path, v, refs);
    case Enum(_) => EnumMeans(w, accepts, r, path, v, refs);
    case Opaque => PathMeans(w, accepts, r, path, "Opaque reflected type: " + path, v, refs);
  }

  /** Lists, arrays and maps of elements of one type. */
  lemma {:induction false} ElementsMean(
    w: World, accepts: Verdict, r: Rules, t: TypeRef, capacity: nat, keyPath: string, v: Value, refs: nat)
    requires Sound(w) && Defines(w, r) && Decides(accepts, r) && RefEdges(t) <= r.defs.Keys
    ensures accepts(ListSchema(TypeRefSchema(w.types, t)), v, refs) <==>
            v.Array? && forall i :: 0 <= i < |v.items| ==> Admitted(r.dialect, w, t, v.items[i])
    ensures accepts(ArraySchema(TypeRefSchema(w.types, t), capacity), v, refs) <==>
            v.Array? && |v.items| == capacity &&
            forall i :: 0 <= i < |v.items| ==> Admitted(r.dialect, w, t, v.items[i])
    ensures accepts(MapSchema(TypeRefSchema(w.types, t), keyPath), v, refs) <==>
            v.Object? && forall k :: k in v.fields ==> Admitted(r.dialect, w, t, v.fields[k])
    decreases v, 0, 1, 0
  {
    var s := TypeRefSchema(w.types, t);
    ListMeans(accepts, r, s, v, refs);
    ArrayMeans(accepts, r, s, capacity, v, refs);
    MapMeans(accepts, r, s, keyPath, v, refs);
    if v.Array? { ItemsMean(w, accepts, r, t, v); }
    if v.Object? { MembersMean(w, accepts, r, t, v); }
  }

  lemma {:induction false} MembersMean(w: World, accepts: Verdict, r: Rules, t: TypeRef, v: Value)
    requires Sound(w) && Defines(w, r) && Decides(accepts, r) && RefEdges(t) <= r.defs.Keys && v.Object?
    ensures forall k :: k in v.fields ==>
              (accepts(TypeRefSchema(w.types, t), v.fields[k], r.limit) <==>
               Admitted(r.dialect, w, t, v.fields[k]))
    decreases v, 0, 0, 0
  {
    forall k | k in v.fields
      ensures accepts(TypeRefSchema(w.types, t), v.fields[k], r.limit) <==>
              Admitted(r.dialect, w, t, v.fields[k])
    {
      TypeRefMeans(w, accepts, r, t, v.fields[k], r.limit);
    }
  }

  lemma {:induction false} SetMeans(w: World, accepts: Verdict, r: Rules, path: string, v: Value, refs: nat)
    requires Sound(w) && Defines(w, r) && Decides(accepts, r)
    requires path in r.defs && path in w.types.infos && w.types.infos[path].Set?
    ensures accepts(SchemaOf(w.types, path), v, refs) <==> Admitted(r.dialect, w, Reflected(path), v)
    decreases v, 0, 1, 0
  {
    assert Defined(w, r, path);
    var item := SchemaOf(w.types, path).fields["items"];
    assert SchemaOf(w.types, path) == ListSchema(item);
    ListMeans(accepts, r, item, v, refs);
    if v.Array? {
      match w.types.infos[path].registered
      case Some(p) => ItemsMean(w, accepts, r, Reflected(p), v);
      case None =>
        forall i | 0 <= i < |v.items| {
          PathMeans(w, accepts, r, w.types.infos[path].valuePath, "", v.items[i], r.limit);
        }
    }
  }
}
