/** What a whole generated document accepts, and whether that is what the values of the type
    serialise to. */
module SchemaDocuments {
  import opened Wrappers
  import opened Json
  import opened ReflectedTypes
  import opened PrimitiveSchemas
  import opened JsonSchema
  import opened SchemaShapes
  import opened PrimitiveValues
  import opened TypeValues
  import opened SchemaMeaning
  import opened SchemaBuilder

  // ---------------------------------------------------------------- what a document accepts

  ghost predicate RanksBelow(w: World, top: nat) {
    forall p {:trigger w.rank(p)} :: p in w.types.infos ==> w.rank(p) < top
  }

  lemma {:induction false} SomeTop(rank: string -> nat, paths: set<string>) returns (top: nat)
    ensures forall p {:trigger rank(p)} :: p in paths ==> rank(p) < top
  {
    if paths == {} { return 0; }
    var p :| p in paths;
    var rest := SomeTop(rank, paths - {p});
    return if rest > rank(p) then rest else rank(p) + 1;
  }

  lemma RootIsReached(types: Types, root: string)
    requires root in types.infos
    ensures root in ReachedDefs(types, root)
  {
    ReachesItself(TheGraph(types), root);
  }

  lemma ReachedDefsDefine(w: World, root: string, r: Rules)
    requires Complete(w.types) && r.defs == ReachedDefs(w.types, root) && RanksBelow(w, r.limit)
    ensures Defines(w, r)
  {
    forall p | p in r.defs
      ensures Defined(w, r, p)
    {
      forall q | q in Edges(w.types, w.types.infos[p])
        ensures q in r.defs
      {
        ReachedIsClosed(TheGraph(w.types), root, p, q);
      }
    }
  }

  /** The document itself is a reference to its root. */
  lemma DocumentIsItsRoot(accepts: Verdict, r: Rules, root: string, defs: Defs, v: Value, refs: nat)
    requires Decides(accepts, r) && root in r.defs && refs > 0
    ensures accepts(Document(root, defs), v, refs) <==> accepts(r.defs[root], v, refs - 1)
  {
    Keywords();
    RefInliner.RefToFindsKey(root);
    var s := Document(root, defs);
    assert SCHEMA[1] == 's' && DEFS[1] == 'd' && |SCHEMA| == 7 && |DEFS| == 5;
    assert s.fields[REF] == Text(RefInliner.RefTo(root));
    DocumentKeywords(root, defs);
    NoMembers(r, s, v);
    NoItems(r, s, v);
    assert Asserts(s.fields, v) && OneOfValid(r, s, v, refs);
    assert Valid(r, s, v, refs) <==> RefValid(r, s, v, refs);
    assert RefValid(r, s, v, refs) <==> Valid(r, r.defs[root], v, refs - 1);
  }

  lemma DocumentKeywords(root: string, defs: Defs)
    ensures var f := Document(root, defs).fields;
            "type" !in f && "const" !in f && "oneOf" !in f && "properties" !in f && "required" !in f &&
            "additionalProperties" !in f && "prefixItems" !in f && "items" !in f && "minimum" !in f &&
            "maximum" !in f && "minLength" !in f && "maxLength" !in f && "minItems" !in f && "maxItems" !in f
  {
    assert forall k :: k in Document(root, defs).fields ==> k[0] == '$';
    assert "type"[0] == 't' && "const"[0] == 'c' && "oneOf"[0] == 'o' && "properties"[0] == 'p';
    assert "required"[0] == 'r' && "additionalProperties"[0] == 'a' && "prefixItems"[0] == 'p' && "items"[0] == 'i';
    assert "minimum"[0] == 'm' && "maximum"[0] == 'm' && "minLength"[0] == 'm' && "maxLength"[0] == 'm';
    assert "minItems"[0] == 'm' && "maxItems"[0] == 'm';
  }

  /** Validation under given rules, instead of any verdict that decides it. */
  lemma ValidMeans(w: World, r: Rules, path: string, v: Value, refs: nat)
    requires Sound(w) && Defines(w, r) && path in r.defs && refs >= w.rank(path)
    ensures Valid(r, r.defs[path], v, refs) <==> Admitted(r.dialect, w, Reflected(path), v)
  {
    var accepts := VerdictOf(r);
    SchemaMeans(w, accepts, r, path, r.defs[path], v, refs);
    assert accepts(r.defs[path], v, refs) == Valid(r, r.defs[path], v, refs);
  }

  ghost function VerdictOf(r: Rules): (accepts: Verdict)
    ensures Decides(accepts, r)
  {
    (s: Value, v: Value, refs: nat) => Valid(r, s, v, refs)
  }

  lemma RootIsDefined(w: World, r: Rules, root: string)
    requires Sound(w) && root in w.types.infos && RanksBelow(w, r.limit) && r.defs == ReachedDefs(w.types, root)
    ensures root in r.defs && w.rank(root) < r.limit && Defines(w, r)
  {
    RootIsReached(w.types, root);
    ReachedDefsDefine(w, root, r);
  }

  lemma DefinedMeans(accepts: Verdict, w: World, r: Rules, root: string, v: Value)
    requires Decides(accepts, r) && Sound(w) && Defines(w, r) && root in r.defs && w.rank(root) < r.limit
    ensures accepts(r.defs[root], v, r.limit - 1) <==> Admitted(r.dialect, w, Reflected(root), v)
  {
    SchemaMeans(w, accepts, r, root, r.defs[root], v, r.limit - 1);
  }

  lemma DocumentAccepts(accepts: Verdict, w: World, r: Rules, root: string, v: Value)
    requires Decides(accepts, r) && Sound(w) && Defines(w, r) && root in r.defs && w.rank(root) < r.limit
    ensures accepts(Document(root, r.defs), v, r.limit) <==> Admitted(r.dialect, w, Reflected(root), v)
  {
    DefinedMeans(accepts, w, r, root, v);
    DocumentIsItsRoot(accepts, r, root, r.defs, v, r.limit);
  }

  lemma DocumentValid(dialect: Dialect, w: World, root: string, v: Value, limit: nat)
    requires Sound(w) && root in w.types.infos && RanksBelow(w, limit)
    ensures var defs := ReachedDefs(w.types, root);
            Valid(Rules(dialect, defs, limit), Document(root, defs), v, limit) <==>
            Admitted(dialect, w, Reflected(root), v)
  {
    var r := Rules(dialect, ReachedDefs(w.types, root), limit);
    RootIsDefined(w, r, root);
    DocumentAccepts(VerdictOf(r), w, r, root, v);
  }

  /** The generated document accepts exactly the values that the structure of its root admits. */
  lemma DocumentMeans(dialect: Dialect, w: World, root: string, v: Value)
    requires Sound(w) && root in w.types.infos
    ensures Validates(dialect, Document(root, ReachedDefs(w.types, root)), v) <==>
            Admitted(dialect, w, Reflected(root), v)
  {
    var defs := ReachedDefs(w.types, root);
    var document := Document(root, defs);
    DocumentParts(root, defs);
    var top := SomeTop(w.rank, w.types.infos.Keys);
    forall limit: nat | limit >= top
      ensures Valid(Rules(dialect, defs, limit), document, v, limit) <==>
              Admitted(dialect, w, Reflected(root), v)
    {
      DocumentValid(dialect, w, root, v, limit);
    }
    if Admitted(dialect, w, Reflected(root), v) {
      assert ValidFrom(dialect, document, v, top);
    }
    if Validates(dialect, document, v) {
      var enough: nat :| ValidFrom(dialect, document, v, enough);
      var limit := if enough > top then enough else top;
      var r := Rules(dialect, RefInliner.SchemaDefs(document), limit);
      assert Valid(r, document, v, limit);
    }
  }

  // ---------------------------------------------------------------- which schemas accept null

  /** The schema of type `t` accepts null: it says nothing at all, it is that of `()`, it is a newtype
      of such a type, or an option whose payload does not accept null as well. */
  ghost predicate AcceptsNull(w: World, t: TypeRef)
    requires Grounded(w)
    decreases Height(t, w.rank)
  {
    match t
    case PathOnly(path) => AdmittedPath(w, path, Null)
    case Reflected(path) =>
      path in w.types.infos &&
      match w.types.infos[path]
      case TupleStruct(ts, _, _) => IsNewtype(w.types.infos[path]) && AcceptsNull(w, ts[0])
      case Enum(variants) => exists payload :: OptionLike(variants, payload) && !AcceptsNull(w, payload)
      case Opaque => AdmittedPath(w, path, Null)
      case _ => false
  }

  lemma {:induction false} AcceptsNullIff(d: Dialect, w: World, t: TypeRef)
    requires Sound(w)
    ensures Admitted(d, w, t, Null) <==> AcceptsNull(w, t)
    decreases Height(t, w.rank)
  {
    if t.Reflected? && t.path in w.types.infos {
      var info := w.types.infos[t.path];
      if IsNewtype(info) { AcceptsNullIff(d, w, info.types[0]); }
      if info.Enum? {
        forall payload | OptionLike(info.variants, payload)
          ensures Admitted(d, w, payload, Null) <==> AcceptsNull(w, payload)
        {
          AcceptsNullIff(d, w, payload);
        }
      }
    }
  }

  /** The payload of no option accepts null: no option of an option, of `()`, or of an unknown type. */
  ghost predicate NoNullPayloads(w: World)
    requires Grounded(w)
  {
    forall p {:trigger w.types.infos[p]} :: p in w.types.infos && w.types.infos[p].Enum? ==>
      forall payload :: OptionLike(w.types.infos[p].variants, payload) ==> !AcceptsNull(w, payload)
  }

  // ---------------------------------------------------------------- what serialises validates

  /** Every optional field's type is described. */
  predicate OptionsDescribed(types: Types, fields: seq<Field>) {
    forall f :: f in fields && IsCoreOption(f.ty.path) ==> IsEnum(types, f.ty)
  }

  /** Options are the standard ones: no other enum has their two variants, and wherever a field is an
      option, its type is described. */
  ghost predicate StandardOptions(types: Types) {
    forall p {:trigger types.infos[p]} :: p in types.infos ==>
      match types.infos[p]
      case Struct(fields, _) => OptionsDescribed(types, fields)
      case Enum(variants) =>
        (IsCoreOption(p) <==> exists payload :: OptionLike(variants, payload)) &&
        forall i :: 0 <= i < |variants| && variants[i].StructVariant? ==> OptionsDescribed(types, variants[i].fields)
      case _ => true
  }

  /** A tuple of one or more elements, which draft-07 cannot describe the way the generator does. */
  predicate HasTuple(info: TypeInfo) {
    match info
    case TupleStruct(ts, skipped, _) => !IsNewtype(info) && Position(skipped, |ts|) > 0
    case Tuple(ts) => ts != []
    case Enum(variants) => exists i :: 0 <= i < |variants| && variants[i].TupleVariant? && |variants[i].types| > 1
    case _ => false
  }

  ghost predicate Describable(d: Dialect, types: Types) {
    d.Draft07? ==> forall p {:trigger types.infos[p]} :: p in types.infos ==> !HasTuple(types.infos[p])
  }

  /** What the proof below assumes of the types. */
  ghost predicate Regular(d: Dialect, w: World) {
    Sound(w) && StandardOptions(w.types) && NoNullPayloads(w) && Describable(d, w.types)
  }

  lemma {:induction false} WholeTuple(n: nat)
    ensures Position({}, n) == n
  {
    if n > 0 { WholeTuple(n - 1); }
  }

  lemma PathSerialised(w: World, path: string, v: Value)
    requires SerialisedPath(w, path, v)
    ensures AdmittedPath(w, path, v)
  {
    if w.primitiveOf(path).Some? { SerialisedIsAccepted(w.primitiveOf(path).value, v); }
  }

  /** Whatever a value of a regular type serialises to, its schema is to accept. */
  lemma {:induction false} SerialisedIsAdmitted(d: Dialect, w: World, t: TypeRef, v: Value)
    requires Regular(d, w) && Serialised(w, t, v)
    ensures Admitted(d, w, t, v)
    decreases v, 1, Height(t, w.rank), 2
  {
    match t
    case PathOnly(path) => PathSerialised(w, path, v);
    case Reflected(path) =>
      match w.types.infos[path]
      case Struct(fields, skipped) => FieldsSerialised(d, w, fields, skipped, v);
      case TupleStruct(ts, skipped, _) =>
        if IsNewtype(w.types.infos[path]) {
          SerialisedIsAdmitted(d, w, ts[0], v);
        } else {
          TupleSerialised(d, w, ts, skipped, v);
        }
      case Tuple(ts) =>
        WholeTuple(|ts|);
        TupleSerialised(d, w, ts, {}, v);
      case List(item) => ItemsSerialised(d, w, item, v);
      case FixedArray(item, _) => ItemsSerialised(d, w, item, v);
      case Map(_, value) =>
        forall k | k in v.fields { SerialisedIsAdmitted(d, w, value, v.fields[k]); }
      case Set(registered, valuePath) => ItemsSerialised(d, w, ItemOf(registered, valuePath), v);
      case Enum(_) => EnumSerialised(d, w, path, v);
      case Opaque => PathSerialised(w, path, v);
  }

  lemma {:induction false} ItemsSerialised(d: Dialect, w: World, t: TypeRef, v: Value)
    requires Regular(d, w) && v.Array?
    requires forall i :: 0 <= i < |v.items| ==> Serialised(w, t, v.items[i])
    ensures forall i :: 0 <= i < |v.items| ==> Admitted(d, w, t, v.items[i])
    decreases v, 0, 0, 0
  {
    forall i | 0 <= i < |v.items|
      ensures Admitted(d, w, t, v.items[i])
    {
      SerialisedIsAdmitted(d, w, t, v.items[i]);
    }
  }

  lemma {:induction false} TupleSerialised(
    d: Dialect, w: World, ts: seq<TypeRef>, skipped: set<nat>, v: Value)
    requires Regular(d, w) && SerialisedTuple(w, ts, skipped, v)
    requires d.Draft07? ==> Position(skipped, |ts|) == 0
    ensures AdmittedTuple(d, w, ts, skipped, v)
    decreases v, 0, 0, 0
  {
    forall i: nat | i < |ts| && i !in skipped
      ensures Admitted(d, w, ts[i], v.items[Position(skipped, i)])
    {
      SerialisedIsAdmitted(d, w, ts[i], v.items[Position(skipped, i)]);
    }
  }

  /** The option's own case: null, or a payload that is never null. */
  lemma {:induction false} OptionSerialised(
    d: Dialect, w: World, path: string, payload: TypeRef, v: Value)
    requires Regular(d, w) && path in w.types.infos && w.types.infos[path].Enum? && IsCoreOption(path)
    requires OptionLike(w.types.infos[path].variants, payload) && Serialised(w, Reflected(path), v)
    ensures NullOr(v, Admitted(d, w, payload, v))
    decreases v, 1, Height(Reflected(path), w.rank), 0
  {
    AcceptsNullIff(d, w, payload);
    if v != Null {
      var variants := w.types.infos[path].variants;
      var other :| OptionLike(variants, other) && Serialised(w, other, v);
      PayloadIsFound(variants, payload);
      PayloadIsFound(variants, other);
      SerialisedIsAdmitted(d, w, payload, v);
    }
  }

  lemma {:induction false} EnumSerialised(d: Dialect, w: World, path: string, v: Value)
    requires Regular(d, w) && path in w.types.infos && w.types.infos[path].Enum?
    requires Serialised(w, Reflected(path), v)
    ensures Admitted(d, w, Reflected(path), v)
    decreases v, 1, Height(Reflected(path), w.rank), 1
  {
    var variants := w.types.infos[path].variants;
    if IsCoreOption(path) {
      var payload :| OptionLike(variants, payload);
      OptionSerialised(d, w, path, payload, v);
    } else {
      var i :| 0 <= i < |variants| && SerialisedVariant(w, variants[i], v);
      VariantSerialised(d, w, path, i, v);
    }
  }

  lemma {:induction false} VariantSerialised(
    d: Dialect, w: World, path: string, i: nat, v: Value)
    requires Regular(d, w) && path in w.types.infos && w.types.infos[path].Enum?
    requires i < |w.types.infos[path].variants| && SerialisedVariant(w, w.types.infos[path].variants[i], v)
    ensures AdmittedVariant(d, w, w.types.infos[path].variants[i], v)
    decreases v, 0, 1, 0
  {
    match w.types.infos[path].variants[i]
    case UnitVariant(_) =>
    case TupleVariant(name, ts) =>
      if |ts| == 1 {
        SerialisedIsAdmitted(d, w, ts[0], v.fields[name]);
      } else {
        WholeTuple(|ts|);
        TupleSerialised(d, w, ts, {}, v.fields[name]);
      }
    case StructVariant(name, fields) => FieldsSerialised(d, w, fields, {}, v.fields[name]);
  }

  lemma {:induction false} FieldsSerialised(
    d: Dialect, w: World, fields: seq<Field>, skipped: set<nat>, v: Value)
    requires Regular(d, w) && OptionsDescribed(w.types, fields)
    requires SerialisedFields(w, fields, skipped, v)
    ensures AdmittedFields(d, w, fields, skipped, v)
    decreases v, 0, 0, 0
  {
    forall i: nat | i < |fields| && i !in skipped
      ensures AdmittedField(d, w, fields[i], v.fields[fields[i].name])
    {
      FieldSerialised(d, w, fields[i], v.fields[fields[i].name]);
    }
  }

  lemma {:induction false} FieldSerialised(d: Dialect, w: World, f: Field, v: Value)
    requires Regular(d, w) && (IsCoreOption(f.ty.path) ==> IsEnum(w.types, f.ty))
    requires Serialised(w, f.ty, v)
    ensures AdmittedField(d, w, f, v)
    decreases v, 2, 0, 0
  {
    if !Optional(w.types, f) {
      SerialisedIsAdmitted(d, w, f.ty, v);
    } else if IsCoreOption(f.ty.path) {
      var payload :| OptionLike(w.types.infos[f.ty.path].variants, payload);
      assert HasPayload(w.types, f.ty, payload);
      OptionSerialised(d, w, f.ty.path, payload, v);
    } else {
      assert forall payload :: !HasPayload(w.types, f.ty, payload);
    }
  }

  /** Exactly when the generator keeps its promise: if options are the standard ones, everything that
      a value of any described type serialises to is valid against the type's document if and only
      if no option's payload accepts null. */
  lemma SerialisedValuesValidateIff(w: World)
    requires Sound(w) && StandardOptions(w.types)
    ensures (forall root, v :: root in w.types.infos && Serialised(w, Reflected(root), v) ==>
               Validates(Draft2020, Document(root, ReachedDefs(w.types, root)), v)) <==>
            NoNullPayloads(w)
  {
    if NoNullPayloads(w) {
      forall root, v | root in w.types.infos && Serialised(w, Reflected(root), v)
        ensures Validates(Draft2020, Document(root, ReachedDefs(w.types, root)), v)
      {
        SerialisedIsAdmitted(Draft2020, w, Reflected(root), v);
        DocumentMeans(Draft2020, w, root, v);
      }
    } else {
      var p :| p in w.types.infos && w.types.infos[p].Enum? &&
        exists payload :: OptionLike(w.types.infos[p].variants, payload) && AcceptsNull(w, payload);
      NullIsRefused(Draft2020, w, p);
      assert Serialised(w, Reflected(p), Null);
    }
  }

  /** `None` of an option whose payload accepts null as well is valid against both choices, so
      against neither. */
  lemma NullIsRefused(d: Dialect, w: World, root: string)
    requires Sound(w) && StandardOptions(w.types) && root in w.types.infos && w.types.infos[root].Enum?
    requires exists payload :: OptionLike(w.types.infos[root].variants, payload) && AcceptsNull(w, payload)
    ensures Serialised(w, Reflected(root), Null)
    ensures !Validates(d, Document(root, ReachedDefs(w.types, root)), Null)
  {
    var variants := w.types.infos[root].variants;
    var payload :| OptionLike(variants, payload) && AcceptsNull(w, payload);
    forall other | OptionLike(variants, other)
      ensures other == payload
    {
      PayloadIsFound(variants, payload);
      PayloadIsFound(variants, other);
    }
    AcceptsNullIff(d, w, Reflected(root));
    DocumentMeans(d, w, root, Null);
  }

  // ---------------------------------------------------------------- what is refused

  /** Against the document of a struct nothing is valid but an object with all fields that are neither
      left out nor optional, and no member that is not one of its fields. */
  lemma StructRefuses(d: Dialect, w: World, root: string, v: Value)
    requires Sound(w) && root in w.types.infos && w.types.infos[root].Struct?
    requires var (fields, skipped) := (w.types.infos[root].fields, w.types.infos[root].skipped);
             !v.Object? ||
             (exists i: nat :: i < |fields| && i !in skipped && !Optional(w.types, fields[i]) &&
                               fields[i].name !in v.fields) ||
             (exists k :: k in v.fields && forall i :: !IsField(fields, skipped, i, k))
    ensures !Validates(d, Document(root, ReachedDefs(w.types, root)), v)
  {
    DocumentMeans(d, w, root, v);
  }

  /** An optional field may always be left out. */
  lemma OptionalMayBeAbsent(d: Dialect, w: World, root: string, v: Value, i: nat)
    requires Sound(w) && root in w.types.infos && w.types.infos[root].Struct?
    requires i < |w.types.infos[root].fields| && i !in w.types.infos[root].skipped
    requires Optional(w.types, w.types.infos[root].fields[i])
    requires v.Object? && Validates(d, Document(root, ReachedDefs(w.types, root)), v)
    ensures Validates(d, Document(root, ReachedDefs(w.types, root)),
                      Object(v.fields - {w.types.infos[root].fields[i].name}))
  {
    DocumentMeans(d, w, root, v);
    DocumentMeans(d, w, root, Object(v.fields - {w.types.infos[root].fields[i].name}));
    assert DistinctNames(w.types.infos[root]);
    FewerFields(d, w, w.types.infos[root].fields, w.types.infos[root].skipped, v, i);
  }

  lemma FewerFields(d: Dialect, w: World, fields: seq<Field>, skipped: set<nat>, v: Value, i: nat)
    requires Grounded(w) && DistinctFields(fields) && AdmittedFields(d, w, fields, skipped, v)
    requires i < |fields| && i !in skipped && Optional(w.types, fields[i])
    ensures AdmittedFields(d, w, fields, skipped, Object(v.fields - {fields[i].name}))
  {
    forall j: nat | j < |fields| && j !in skipped && !Optional(w.types, fields[j])
      ensures fields[j].name != fields[i].name
    {
    }
  }

  /** In the dialect that documents declare, nothing is valid against a tuple of one or more
      elements. */
  lemma DeclaredDialectRefusesTuples(w: World, root: string, v: Value)
    requires Sound(w) && root in w.types.infos
    requires w.types.infos[root].Tuple? || w.types.infos[root].TupleStruct?
    requires HasTuple(w.types.infos[root])
    ensures !Validates(Draft07, Document(root, ReachedDefs(w.types, root)), v)
  {
    DocumentMeans(Draft07, w, root, v);
    if w.types.infos[root].Tuple? { WholeTuple(|w.types.infos[root].types|); }
  }

  /** Without such tuples the declared dialect does as well as the newer one. */
  lemma SerialisedValuesValidate(d: Dialect, w: World, root: string, v: Value)
    requires Regular(d, w) && root in w.types.infos && Serialised(w, Reflected(root), v)
    ensures Validates(d, Document(root, ReachedDefs(w.types, root)), v)
  {
    SerialisedIsAdmitted(d, w, Reflected(root), v);
    DocumentMeans(d, w, root, v);
  }

  /** A number that is not finite is written as null, which the schema of its type refuses. */
  lemma NonFiniteIsRefused(d: Dialect, w: World, root: string)
    requires Sound(w) && root in w.types.infos && w.types.infos[root].Opaque?
    requires w.primitiveOf(root) == Some(Float)
    ensures !Validates(d, Document(root, ReachedDefs(w.types, root)), Null)
  {
    DocumentMeans(d, w, root, Null);
  }

  /** An enum of one's own that looks like `Option` serialises its variants by name, but its schema
      only speaks of null and the payload: `None` is valid exactly if the payload's schema happens to
      accept that text, and null, which no value serialises to, if the payload's does not. */
  lemma OwnOptionIsMisread(d: Dialect, w: World, root: string, payload: TypeRef)
    requires Sound(w) && root in w.types.infos && w.types.infos[root].Enum? && !IsCoreOption(root)
    requires OptionLike(w.types.infos[root].variants, payload)
    ensures Serialised(w, Reflected(root), Text("None")) && !Serialised(w, Reflected(root), Null)
    ensures Validates(d, Document(root, ReachedDefs(w.types, root)), Text("None")) <==>
            Admitted(d, w, payload, Text("None"))
    ensures Validates(d, Document(root, ReachedDefs(w.types, root)), Null) <==> !AcceptsNull(w, payload)
  {
    var variants := w.types.infos[root].variants;
    var i :| 0 <= i < |variants| && variants[i] == UnitVariant("None");
    assert SerialisedVariant(w, variants[i], Text("None"));
    OptionAdmits(d, w, root, payload, Text("None"));
    OptionAdmits(d, w, root, payload, Null);
    DocumentMeans(d, w, root, Text("None"));
    DocumentMeans(d, w, root, Null);
    AcceptsNullIff(d, w, payload);
  }

  /** An enum that looks like an option has one payload, and admits null or that. */
  lemma OptionAdmits(d: Dialect, w: World, path: string, payload: TypeRef, v: Value)
    requires Sound(w) && path in w.types.infos && w.types.infos[path].Enum?
    requires OptionLike(w.types.infos[path].variants, payload)
    ensures Admitted(d, w, Reflected(path), v) <==> NullOr(v, Admitted(d, w, payload, v))
  {
    var variants := w.types.infos[path].variants;
    forall other | OptionLike(variants, other)
      ensures other == payload
    {
      PayloadIsFound(variants, payload);
      PayloadIsFound(variants, other);
    }
  }

  /** A field that is the standard `Option` of a type without description: its `None` is refused, although
      null is what it serialises to. */
  lemma UndescribedOptionRefusesNull(d: Dialect, w: World, root: string, i: nat, v: Value)
    requires Sound(w) && root in w.types.infos && w.types.infos[root].Struct?
    requires i < |w.types.infos[root].fields| && i !in w.types.infos[root].skipped
    requires var t := w.types.infos[root].fields[i].ty;
             t.PathOnly? && IsCoreOption(t.path) && w.primitiveOf(t.path).None?
    requires v.Object? && w.types.infos[root].fields[i].name in v.fields
    requires v.fields[w.types.infos[root].fields[i].name] == Null
    ensures Serialised(w, w.types.infos[root].fields[i].ty, Null)
    ensures !Validates(d, Document(root, ReachedDefs(w.types, root)), v)
  {
    DocumentMeans(d, w, root, v);
    assert !AdmittedField(d, w, w.types.infos[root].fields[i], Null);
  }

  // ---------------------------------------------------------------- the generator

  /** The types of a registry with the source's own table and the primitives of the language. */
  function WorldOf(infos: map<string, TypeInfo>, registered: set<string>, rank: string -> nat): World {
    World(Reflection(infos, registered), rank, PrimitiveOf)
  }

  /** For the source's own table nothing is assumed about primitives. */
  lemma WorldIsSoundIff(infos: map<string, TypeInfo>, registered: set<string>, rank: string -> nat)
    ensures var w := WorldOf(infos, registered, rank);
            Sound(w) <==> Complete(w.types) && Grounded(w) && DistinctlyNamed(w.types)
  {
    TheTableIsOfPrimitives();
  }

  /** The generated document for a requested type accepts exactly what the structure of the type found
      admits, under either dialect. */
  method GenerateSchema(
    infos: map<string, TypeInfo>, registered: set<string>, wanted: string, ghost rank: string -> nat)
    returns (schema: Value, root: Option<string>)
    requires Sound(WorldOf(infos, registered, rank))
    ensures root.Some? ==> Answers(Reflection(infos, registered), wanted, root.value)
    ensures root.None? ==> forall p :: !Answers(Reflection(infos, registered), wanted, p)
    ensures root.Some? ==>
              forall d, v :: Validates(d, schema, v) <==>
                             Admitted(d, WorldOf(infos, registered, rank), Reflected(root.value), v)
  {
    ReflectionIsWellFormed(infos, registered);
    schema, root := RegistryToJsonSchema(Reflection(infos, registered), wanted);
    if root.Some? {
      var w := WorldOf(infos, registered, rank);
      forall d, v
        ensures Validates(d, schema, v) <==> Admitted(d, w, Reflected(root.value), v)
      {
        DocumentMeans(d, w, root.value, v);
      }
    }
  }
}
