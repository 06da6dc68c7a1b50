/** The schema builder: a depth-first search over the reflected types that enters a type into
    `$defs` once, with a placeholder first so that recursive types terminate. */
module SchemaBuilder {
  import opened Wrappers
  import opened Json
  import opened ReflectedTypes
  import opened PrimitiveSchemas
  import SchemaRefs
  import JsonPointer

  // ---------------------------------------------------------------- reachability

  /** The reflected types as a graph: the finished schema of each and the types it refers to. */
  datatype Graph = Graph(schema: map<string, Value>, edges: map<string, set<string>>)

  /** `g` is the graph of `types`. */
  ghost predicate GraphOf(g: Graph, types: Types) {
    g.schema.Keys == g.edges.Keys == types.infos.Keys &&
    forall p {:trigger SchemaOf(types, p)} :: p in types.infos ==>
      g.schema[p] == SchemaOf(types, p) && g.edges[p] == Edges(types, types.infos[p])
  }

  predicate Edge(g: Graph, p: string, q: string) {
    p in g.edges && q in g.edges[p]
  }

  ghost predicate IsChain(g: Graph, chain: seq<string>) {
    forall i :: 0 <= i < |chain| - 1 ==> Edge(g, chain[i], chain[i + 1])
  }

  ghost predicate ChainFrom(g: Graph, chain: seq<string>, p: string, q: string) {
    chain != [] && chain[0] == p && chain[|chain| - 1] == q && IsChain(g, chain)
  }

  /** Type `q` is reached from `p` by following emitted references. */
  ghost predicate Reaches(g: Graph, p: string, q: string) {
    exists chain :: ChainFrom(g, chain, p, q)
  }

  lemma ReachesItself(g: Graph, p: string)
    ensures Reaches(g, p, p)
  {
    assert ChainFrom(g, [p], p, p);
  }

  lemma ReachesThrough(g: Graph, p: string, q: string, r: string)
    requires Edge(g, p, q) && Reaches(g, q, r)
    ensures Reaches(g, p, r)
  {
    var chain :| ChainFrom(g, chain, q, r);
    assert ChainFrom(g, [p] + chain, p, r);
  }

  /** A set that contains `p` and is closed under references contains all that `p` reaches. */
  lemma ClosedContainsReached(g: Graph, keys: set<string>, p: string, q: string)
    requires p in keys && Reaches(g, p, q)
    requires forall a, b :: a in keys && Edge(g, a, b) ==> b in keys
    ensures q in keys
  {
    var chain :| ChainFrom(g, chain, p, q);
    var i := 0;
    while i < |chain| - 1
      invariant 0 <= i <= |chain| - 1 && chain[i] in keys
    {
      assert Edge(g, chain[i], chain[i + 1]);
      i := i + 1;
    }
  }

  // ---------------------------------------------------------------- what a builder call adds

  type Defs = RefInliner.Defs

  /** From `before` to `after`, nothing changed or disappeared; each entry that was added
      holds the finished schema of a type reached from `needed`, with all it refers to present;
      and everything needed is present. */
  ghost predicate Extends(g: Graph, before: Defs, after: Defs, needed: set<string>) {
    before.Keys <= after.Keys && needed <= after.Keys &&
    (forall k :: k in before ==> after[k] == before[k]) &&
    (forall k {:trigger Added(g, after, needed, k)} ::
      k in after && k !in before ==> Added(g, after, needed, k))
  }

  ghost predicate Added(g: Graph, after: Defs, needed: set<string>, k: string)
    requires k in after
  {
    k in g.schema && k in g.edges && after[k] == g.schema[k] && g.edges[k] <= after.Keys &&
    exists q :: q in needed && Reaches(g, q, k)
  }

  lemma ExtendsTwice(g: Graph, d0: Defs, d1: Defs, d2: Defs, a: set<string>, b: set<string>)
    requires Extends(g, d0, d1, a) && Extends(g, d1, d2, b)
    ensures Extends(g, d0, d2, a + b)
  {
    forall k | k in d2 && k !in d0
      ensures Added(g, d2, a + b, k)
    {
      if k in d1 {
        assert Added(g, d1, a, k);
        var q :| q in a && Reaches(g, q, k);
        assert q in a + b;
      } else {
        assert Added(g, d2, b, k);
        var q :| q in b && Reaches(g, q, k);
        assert q in a + b;
      }
    }
  }

  /** The step of `ensure_definition`: placeholder in, children built, placeholder replaced. */
  lemma DefinitionAdded(g: Graph, before: Defs, built: Defs, path: string)
    requires path in g.schema && path in g.edges && path !in before
    requires Extends(g, before[path := Object(map[])], built, g.edges[path])
    ensures Extends(g, before, built[path := g.schema[path]], {path})
  {
    var after := built[path := g.schema[path]];
    assert path in built;
    forall k | k in after && k !in before
      ensures Added(g, after, {path}, k)
    {
      ReachesItself(g, path);
      if k != path {
        assert Added(g, built, g.edges[path], k);
        var q :| q in g.edges[path] && Reaches(g, q, k);
        ReachesThrough(g, path, q, k);
      }
    }
  }

  // ---------------------------------------------------------------- the builder

  class ReflectSchemaBuilder {
    const types: Types
    ghost const g: Graph
    var defs: Defs

    constructor (types: Types, ghost g: Graph)
      ensures this.types == types && this.g == g && defs == map[]
    {
      this.types := types;
      this.g := g;
      defs := map[];
    }

    /** The types still to be entered are among `left`, which each new definition shrinks: this
        is what makes the search of a cyclic type graph end. */
    ghost predicate Ready(left: set<string>)
      reads this
    {
      WellFormed(types) && GraphOf(g, types) &&
      forall p :: p in types.infos && p !in defs ==> p in left
    }

    method EnsureDefinition(path: string, ghost left: set<string>)
      requires Ready(left) && path in types.infos
      modifies this
      ensures Extends(g, old(defs), defs, {path})
      decreases left, 0
    {
      if path in defs { return; }
      ghost var before := defs;
      defs := defs[path := Object(map[])];
      var schema := InlineSchemaForType(path, left - {path});
      ghost var built := defs;
      defs := defs[path := schema];
      DefinitionAdded(g, before, built, path);
    }

    method SchemaForType(path: string, ghost left: set<string>) returns (schema: Value)
      requires Ready(left) && path in types.infos
      modifies this
      ensures schema == RefSchema(path) && Extends(g, old(defs), defs, {path})
      decreases left, 1
    {
      EnsureDefinition(path, left);
      return RefSchema(path);
    }

    method SchemaForReflectedOrPath(t: TypeRef, ghost left: set<string>) returns (schema: Value)
      requires Ready(left) && RefEdges(t) <= types.infos.Keys
      modifies this
      ensures schema == TypeRefSchema(types, t) && Extends(g, old(defs), defs, RefEdges(t))
      decreases left, 2
    {
      match t {
        case Reflected(path) => schema := SchemaForType(path, left);
        case PathOnly(path) =>
          var primitive := PrimitiveSchema(types, path);
          return if primitive.Some? then primitive.value
                 else Described("Unknown reflected field type: " + path);
      }
    }

    method SchemasForElements(ts: seq<TypeRef>, ghost left: set<string>) returns (schemas: seq<Value>)
      requires Ready(left) && ListEdges(ts) <= types.infos.Keys
      modifies this
      ensures schemas == TypeRefSchemas(types, ts) && Extends(g, old(defs), defs, ListEdges(ts))
      decreases left, 4
    {
      schemas := [];
      ghost var goal := TypeRefSchemas(types, ts);
      while |schemas| < |ts|
        invariant |schemas| <= |ts| && schemas == goal[..|schemas|]
        invariant Extends(g, old(defs), defs, ListEdges(ts[..|schemas|]))
      {
        var schema := SchemaForElement(ts, |schemas|, old(defs), left);
        schemas := schemas + [schema];
      }
      assert ts[..|ts|] == ts;
    }

    /** One turn of that loop; `start` is where the loop began. */
    method SchemaForElement(ts: seq<TypeRef>, i: nat, ghost start: Defs, ghost left: set<string>)
      returns (schema: Value)
      requires Ready(left) && ListEdges(ts) <= types.infos.Keys && i < |ts|
      requires Extends(g, start, defs, ListEdges(ts[..i]))
      modifies this
      ensures schema == TypeRefSchema(types, ts[i]) && Extends(g, start, defs, ListEdges(ts[..i + 1]))
      decreases left, 3
    {
      ghost var before := defs;
      ListEdgesStep(ts, i);
      schema := SchemaForReflectedOrPath(ts[i], left);
      ExtendsTwice(g, start, before, defs, ListEdges(ts[..i]), RefEdges(ts[i]));
    }

    static lemma ListEdgesStep(ts: seq<TypeRef>, i: nat)
      requires i < |ts|
      ensures RefEdges(ts[i]) <= ListEdges(ts)
      ensures ListEdges(ts[..i + 1]) == ListEdges(ts[..i]) + RefEdges(ts[i])
    {
    }

    /** `schema_for_option_enum`: defined for enums shaped like `Option` only. */
    method SchemaForOptionEnum(variants: seq<Variant>, ghost left: set<string>) returns (schema: Option<Value>)
      requires Ready(left)
      requires OptionPayload(variants).Some? ==> RefEdges(OptionPayload(variants).value) <= types.infos.Keys
      modifies this
      ensures var payload := OptionPayload(variants);
              if payload.Some? then
                schema == Some(Nullable(TypeRefSchema(types, payload.value))) &&
                Extends(g, old(defs), defs, RefEdges(payload.value))
              else schema == None && defs == old(defs)
      decreases left, 3
    {
      var noneVariant := FindVariant(variants, "None");
      if noneVariant.None? { return None; }
      var someVariant := FindVariant(variants, "Some");
      if someVariant.None? { return None; }
      if !noneVariant.value.UnitVariant? { return None; }
      if !someVariant.value.TupleVariant? { return None; }
      if |someVariant.value.types| != 1 { return None; }
      var inner := SchemaForReflectedOrPath(someVariant.value.types[0], left);
      return Some(Nullable(inner));
    }

    method SchemaForField(f: Field, ghost left: set<string>) returns (schema: Value)
      requires Ready(left) && FieldEdges(types, f) <= types.infos.Keys
      modifies this
      ensures schema == FieldSchema(types, f) && Extends(g, old(defs), defs, FieldEdges(types, f))
      decreases left, 4
    {
      if !IsOptionField(types, f) {
        schema := SchemaForReflectedOrPath(f.ty, left);
        return;
      }
      if f.ty.Reflected? && f.ty.path in types.infos && types.infos[f.ty.path].Enum? {
        var optionSchema := SchemaForOptionEnum(types.infos[f.ty.path].variants, left);
        if optionSchema.Some? { return optionSchema.value; }
      }
      return Nullable(Object(map[]));
    }

    /** The field loop of `schema_for_struct` and of struct variants. */
    method SchemaForFields(fields: seq<Field>, skipped: set<nat>, ghost left: set<string>) returns (schema: Value)
      requires Ready(left) && FieldsEdges(types, fields, skipped, |fields|) <= types.infos.Keys
      modifies this
      ensures schema == FieldsSchema(types, fields, skipped)
      ensures Extends(g, old(defs), defs, FieldsEdges(types, fields, skipped, |fields|))
      decreases left, 7
    {
      var properties: map<string, Value> := map[];
      var required: seq<string> := [];
      var i := 0;
      while i < |fields|
        invariant 0 <= i <= |fields|
        invariant properties == Properties(types, fields, skipped, i)
        invariant required == Required(types, fields, skipped, i)
        invariant Extends(g, old(defs), defs, FieldsEdges(types, fields, skipped, i))
      {
        properties, required := AddField(fields, skipped, i, properties, required, old(defs), left);
        i := i + 1;
      }
      return ObjectSchema(properties, required);
    }

    /** One turn of that loop; `start` is where the loop began. */
    method AddField(fields: seq<Field>, skipped: set<nat>, i: nat,
                    properties: map<string, Value>, required: seq<string>, ghost start: Defs, ghost left: set<string>)
      returns (moreProperties: map<string, Value>, moreRequired: seq<string>)
      requires Ready(left) && FieldsEdges(types, fields, skipped, |fields|) <= types.infos.Keys
      requires i < |fields|
      requires properties == Properties(types, fields, skipped, i)
      requires required == Required(types, fields, skipped, i)
      requires Extends(g, start, defs, FieldsEdges(types, fields, skipped, i))
      modifies this
      ensures moreProperties == Properties(types, fields, skipped, i + 1)
      ensures moreRequired == Required(types, fields, skipped, i + 1)
      ensures Extends(g, start, defs, FieldsEdges(types, fields, skipped, i + 1))
      decreases left, 6
    {
      FieldStep(types, fields, skipped, i);
      if i in skipped { return properties, required; }
      var fieldSchema := SchemaForFieldAt(fields, skipped, i, start, left);
      moreProperties := properties[fields[i].name := fieldSchema];
      moreRequired := required;
      if !IsOptionField(types, fields[i]) {
        moreRequired := required + [fields[i].name];
      }
    }

    static lemma FieldStep(types: Types, fields: seq<Field>, skipped: set<nat>, i: nat)
      requires i < |fields|
      ensures Properties(types, fields, skipped, i + 1) ==
              if i in skipped then Properties(types, fields, skipped, i)
              else Properties(types, fields, skipped, i)[fields[i].name := FieldSchema(types, fields[i])]
      ensures Required(types, fields, skipped, i + 1) ==
              if i in skipped || IsOptionField(types, fields[i]) then Required(types, fields, skipped, i)
              else Required(types, fields, skipped, i) + [fields[i].name]
      ensures i in skipped ==>
              FieldsEdges(types, fields, skipped, i + 1) == FieldsEdges(types, fields, skipped, i)
    {
    }

    method SchemaForFieldAt(fields: seq<Field>, skipped: set<nat>, i: nat, ghost start: Defs, ghost left: set<string>)
      returns (schema: Value)
      requires Ready(left) && FieldsEdges(types, fields, skipped, |fields|) <= types.infos.Keys
      requires i < |fields| && i !in skipped
      requires Extends(g, start, defs, FieldsEdges(types, fields, skipped, i))
      modifies this
      ensures schema == FieldSchema(types, fields[i])
      ensures Extends(g, start, defs, FieldsEdges(types, fields, skipped, i + 1))
      decreases left, 5
    {
      ghost var before := defs;
      EarlierFieldsEdges(fields, skipped, i + 1, |fields|);
      schema := SchemaForField(fields[i], left);
      ExtendsTwice(g, start, before, defs,
                   FieldsEdges(types, fields, skipped, i), FieldEdges(types, fields[i]));
    }

    lemma {:induction false} EarlierFieldsEdges(fields: seq<Field>, skipped: set<nat>, m: nat, n: nat)
      requires m <= n <= |fields|
      ensures FieldsEdges(types, fields, skipped, m) <= FieldsEdges(types, fields, skipped, n)
    {
      if m < n { EarlierFieldsEdges(fields, skipped, m, n - 1); }
    }

    method SchemaForVariant(v: Variant, ghost left: set<string>) returns (schema: Value)
      requires Ready(left) && VariantEdges(types, v) <= types.infos.Keys
      modifies this
      ensures schema == VariantSchema(types, v) && Extends(g, old(defs), defs, VariantEdges(types, v))
      decreases left, 8
    {
      match v {
        case UnitVariant(name) =>
          return Object(map["type" := Text("string"), "const" := Text(name)]);
        case TupleVariant(name, ts) =>
          var schemas := SchemasForElements(ts, left);
          return NamedVariant(name, if |ts| == 1 then schemas[0] else TupleSchema(schemas));
        case StructVariant(name, fields) =>
          var inner := SchemaForFields(fields, {}, left);
          return NamedVariant(name, inner);
      }
    }

    method SchemaForEnum(variants: seq<Variant>, ghost left: set<string>) returns (schema: Value)
      requires Ready(left) && Edges(types, Enum(variants)) <= types.infos.Keys
      modifies this
      ensures schema == InlineSchema(types, "", Enum(variants))
      ensures Extends(g, old(defs), defs, Edges(types, Enum(variants)))
      decreases left, 10
    {
      var optionInner := SchemaForOptionEnum(variants, left);
      if optionInner.Some? { return optionInner.value; }
      var schemas: seq<Value> := [];
      ghost var goal := VariantSchemas(types, variants);
      while |schemas| < |variants|
        invariant |schemas| <= |variants| && schemas == goal[..|schemas|]
        invariant Extends(g, old(defs), defs, VariantsEdges(types, variants[..|schemas|]))
      {
        var one := SchemaForVariantAt(variants, |schemas|, old(defs), left);
        schemas := schemas + [one];
      }
      assert variants[..|variants|] == variants && schemas == goal;
      return if |schemas| == 1 then schemas[0] else OneOf(schemas);
    }

    /** One turn of that loop. */
    method SchemaForVariantAt(variants: seq<Variant>, i: nat, ghost start: Defs, ghost left: set<string>)
      returns (schema: Value)
      requires Ready(left) && VariantsEdges(types, variants) <= types.infos.Keys && i < |variants|
      requires Extends(g, start, defs, VariantsEdges(types, variants[..i]))
      modifies this
      ensures schema == VariantSchema(types, variants[i])
      ensures Extends(g, start, defs, VariantsEdges(types, variants[..i + 1]))
      decreases left, 9
    {
      ghost var before := defs;
      assert variants[..i + 1][..i] == variants[..i];
      EarlierVariantsEdges(variants, i + 1);
      schema := SchemaForVariant(variants[i], left);
      ExtendsTwice(g, start, before, defs,
                   VariantsEdges(types, variants[..i]), VariantEdges(types, variants[i]));
    }

    lemma {:induction false} EarlierVariantsEdges(variants: seq<Variant>, n: nat)
      requires n <= |variants|
      ensures VariantsEdges(types, variants[..n]) <= VariantsEdges(types, variants)
      decreases |variants| - n
    {
      if n < |variants| {
        assert variants[..n + 1][..n] == variants[..n];
        EarlierVariantsEdges(variants, n + 1);
      } else {
        assert variants[..n] == variants;
      }
    }

    method InlineSchemaForType(path: string, ghost left: set<string>) returns (schema: Value)
      requires Ready(left) && path in types.infos
      modifies this
      ensures schema == SchemaOf(types, path)
      ensures Extends(g, old(defs), defs, g.edges[path])
      decreases left, 11
    {
      assert g.schema[path] == SchemaOf(types, path);
      assert Edges(types, types.infos[path]) <= types.infos.Keys;
      match types.infos[path] {
        case Struct(fields, skipped) => schema := SchemaForFields(fields, skipped, left);
        case TupleStruct(ts, skipped, hasData) =>
          if |ts| == 1 && !hasData {
            schema := SchemaForReflectedOrPath(ts[0], left);
          } else {
            var schemas := SchemasForElements(Kept(ts, skipped, |ts|), left);
            schema := TupleSchema(schemas);
          }
        case Tuple(ts) =>
          var schemas := SchemasForElements(ts, left);
          schema := TupleSchema(schemas);
        case List(item) =>
          var itemSchema := SchemaForReflectedOrPath(item, left);
          schema := ListSchema(itemSchema);
        case FixedArray(item, capacity) =>
          var itemSchema := SchemaForReflectedOrPath(item, left);
          schema := ArraySchema(itemSchema, capacity);
        case Map(keyPath, value) =>
          var valueSchema := SchemaForReflectedOrPath(value, left);
          schema := MapSchema(valueSchema, keyPath);
        case Set(registered, valuePath) =>
          var itemSchema: Value;
          if registered.Some? {
            itemSchema := SchemaForType(registered.value, left);
          } else {
            var primitive := PrimitiveSchema(types, valuePath);
            itemSchema := if primitive.Some? then primitive.value else Object(map[]);
          }
          schema := ListSchema(itemSchema);
        case Enum(variants) => schema := SchemaForEnum(variants, left);
        case Opaque =>
          var primitive := PrimitiveSchema(types, path);
          schema := if primitive.Some? then primitive.value
                    else Described("Opaque reflected type: " + path);
      }
    }
  }

  // ---------------------------------------------------------------- the finished document

  const DRAFT_07: string := "https://json-schema.org/draft-07/schema#"

  function TheGraph(types: Types): (g: Graph)
    ensures GraphOf(g, types)
  {
    Graph(map p | p in types.infos :: SchemaOf(types, p), map p | p in types.infos :: Edges(types, types.infos[p]))
  }

  /** `$defs` of a root: the finished schema of every type the root reaches. */
  ghost function ReachedDefs(types: Types, root: string): Defs {
    map p | p in types.infos && Reaches(TheGraph(types), root, p) :: SchemaOf(types, p)
  }

  function Document(root: string, defs: Defs): Value {
    Object(map[SCHEMA := Text(DRAFT_07), REF := Text(RefInliner.RefTo(root)), DEFS := Object(defs)])
  }

  /** The document in full. */
  lemma DocumentInFull(root: string, defs: Defs)
    ensures Document(root, defs) ==
            Object(map["$schema" := Text("https://json-schema.org/draft-07/schema#"),
                       "$ref" := Text("#/$defs/" + JsonPointer.Escape(root)), "$defs" := Object(defs)])
  {
  }

  /** Starting from nothing, the search ends with exactly the reached types. */
  lemma BuiltIsReached(g: Graph, root: string, defs: Defs)
    requires Extends(g, map[], defs, {root})
    ensures forall k :: k in defs ==> k in g.schema && Reaches(g, root, k) && defs[k] == g.schema[k]
    ensures forall k :: Reaches(g, root, k) ==> k in defs
  {
    forall k | k in defs
      ensures k in g.schema && Reaches(g, root, k) && defs[k] == g.schema[k]
    {
      assert Added(g, defs, {root}, k);
    }
    forall k | Reaches(g, root, k)
      ensures k in defs
    {
      forall a, b | a in defs.Keys && Edge(g, a, b)
        ensures b in defs.Keys
      {
        assert Added(g, defs, {root}, a);
      }
      ClosedContainsReached(g, defs.Keys, root, k);
    }
  }

  predicate EndsWith(s: string, t: string) {
    |t| <= |s| && s[|s| - |t|..] == t
  }

  lemma EndsWithIff(s: string, t: string)
    ensures EndsWith(s, t) <==> exists before :: s == before + t
  {
    if EndsWith(s, t) { assert s == s[..|s| - |t|] + t; }
  }

  /** `path` answers a request for `wanted`: its own path if that is registered, otherwise any
      registered path of which one is a suffix of the other. */
  predicate Answers(types: Types, wanted: string, path: string) {
    path in types.registered &&
    (path == wanted || (wanted !in types.registered && (EndsWith(path, wanted) || EndsWith(wanted, path))))
  }

  function Fallback(wanted: string): Value {
    Object(map[SCHEMA := Text(DRAFT_07),
               "description" := Text("Schema generation failed: Could not find reflected root type `" +
                                     wanted + "` in TypeRegistry")])
  }

  /** `find_root_type_info`; which of several suffix matches it finds is up to the registry. */
  method FindRoot(types: Types, wanted: string) returns (root: Option<string>)
    ensures root.Some? ==> Answers(types, wanted, root.value)
    ensures root.None? ==> forall p :: !Answers(types, wanted, p)
  {
    if wanted in types.registered { return Some(wanted); }
    if p :| p in types.registered && (EndsWith(p, wanted) || EndsWith(wanted, p)) { return Some(p); }
    return None;
  }

  /** `registry_to_jsonschema`. */
  method RegistryToJsonSchema(types: Types, wanted: string) returns (schema: Value, root: Option<string>)
    requires WellFormed(types)
    ensures root.Some? ==>
              Answers(types, wanted, root.value) && schema == Document(root.value, ReachedDefs(types, root.value))
    ensures root.None? ==> (forall p :: !Answers(types, wanted, p)) && schema == Fallback(wanted)
  {
    root := FindRoot(types, wanted);
    if root.None? { return Fallback(wanted), None; }
    ghost var g := TheGraph(types);
    var builder := new ReflectSchemaBuilder(types, g);
    builder.EnsureDefinition(root.value, types.infos.Keys);
    BuiltIsReached(g, root.value, builder.defs);
    assert builder.defs == ReachedDefs(types, root.value);
    schema := Document(root.value, builder.defs);
  }

  /** `$defs` is closed: every reference in it names one of its keys, every entry is an object
      and none is still the placeholder. */
  lemma ReachedDefsAreClosed(types: Types, root: string)
    requires WellFormed(types) && root in types.infos
    ensures var defs := ReachedDefs(types, root);
            root in defs && RefInliner.ClosedDefs(defs) &&
            forall k :: k in defs ==> defs[k] != Object(map[])
  {
    var g := TheGraph(types);
    ReachesItself(g, root);
    var defs := ReachedDefs(types, root);
    forall k | k in defs
      ensures defs[k].Object? && defs[k] != Object(map[]) && RefInliner.RefsDefined(defs[k], defs)
    {
      SchemaRefs.SchemaRefsAreEdges(types, k);
      SchemaRefs.RefsDefinedIff(defs[k], defs);
      forall r | r in SchemaRefs.Refs(defs[k])
        ensures RefInliner.Resolves(r, defs)
      {
        var q :| q in Edges(types, types.infos[k]) && r == RefInliner.RefTo(q);
        RefInliner.RefToFindsKey(q);
        assert defs[k] == SchemaOf(types, k);
        ReachedIsClosed(g, root, k, q);
      }
    }
  }

  lemma ReachedIsClosed(g: Graph, root: string, p: string, q: string)
    requires Reaches(g, root, p) && Edge(g, p, q)
    ensures Reaches(g, root, q)
  {
    var chain :| ChainFrom(g, chain, root, p);
    assert ChainFrom(g, chain + [q], root, q);
  }

  /** Building a schema and inlining it leaves no reference at all, however cyclic the types
      are. */
  lemma BuiltSchemaInlinesCompletely(types: Types, root: string)
    requires WellFormed(types) && root in types.infos
    ensures !HasRef(RefInliner.InlinedSchema(Document(root, ReachedDefs(types, root))))
  {
    var defs := ReachedDefs(types, root);
    ReachedDefsAreClosed(types, root);
    RefInliner.RefToFindsKey(root);
    DocumentParts(root, defs);
    var top := Object(map[REF := Text(RefInliner.RefTo(root))]);
    assert RefInliner.RefsDefined(top, defs);
    RefInliner.ClosedInliningRemovesAllRefs(top, defs, []);
  }

  lemma DocumentParts(root: string, defs: Defs)
    ensures RefInliner.SchemaDefs(Document(root, defs)) == defs
    ensures RefInliner.SchemaRoot(Document(root, defs)) ==
            Object(map[REF := Text(RefInliner.RefTo(root))])
  {
    var document := Document(root, defs);
    assert SCHEMA != REF && DEFS != REF && SCHEMA != DEFS;
    assert document.fields[DEFS] == Object(defs);
    assert document.fields - {SCHEMA, DEFS} == map[REF := Text(RefInliner.RefTo(root))];
  }

  lemma FallbackHasNoRef(wanted: string)
    ensures !HasRef(RefInliner.InlinedSchema(Fallback(wanted)))
  {
    var fallback := Fallback(wanted);
    assert "description"[0] == 'd' && REF[0] == '$';
    assert RefInliner.SchemaDefs(fallback) == map[];
    var top := RefInliner.SchemaRoot(fallback);
    assert forall k :: k in top.fields ==> k == "description" && top.fields[k].Text?;
    assert REF !in top.fields;
    assert RefInliner.RefsDefined(top, map[]);
    RefInliner.ClosedInliningRemovesAllRefs(top, map[], []);
  }

  /** The whole export path: build the schema for a requested type, then inline it. */
  method InlinedSchemaFor(infos: map<string, TypeInfo>, registered: set<string>, wanted: string)
    returns (schema: Value)
    requires Complete(Reflection(infos, registered))
    ensures var types := Reflection(infos, registered);
            if exists root :: Answers(types, wanted, root) then
              exists root :: Answers(types, wanted, root) &&
                schema == RefInliner.InlinedSchema(Document(root, ReachedDefs(types, root)))
            else schema == RefInliner.InlinedSchema(Fallback(wanted))
    ensures !HasRef(schema)
  {
    var types := Reflection(infos, registered);
    ReflectionIsWellFormed(infos, registered);
    var document, root := RegistryToJsonSchema(types, wanted);
    schema := RefInliner.InlineSchemaLocalRefs(document);
    if root.Some? {
      BuiltSchemaInlinesCompletely(types, root.value);
    } else {
      FallbackHasNoRef(wanted);
    }
  }
}
