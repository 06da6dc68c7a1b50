/** Inlining keeps the meaning of a schema whose definitions do not refer to each other in a cycle:
    the inlined schema, which needs no definitions, accepts the same values. */
module InlinedMeaning {
  import opened Json
  import opened JsonSchema
  import opened SchemaShapes
  import opened RefInliner

  /** The keywords hold what they should, a reference stands alone, and so on inside. */
  ghost predicate IsSchema(s: Value) {
    match s
    case Bool(_) => true
    case Object(f) =>
      (REF in f ==> f.Keys == {REF} && f[REF].Text?) &&
      (forall k :: k in f && k in SCALARS ==> IsScalar(f[k])) &&
      ("required" in f ==>
         f["required"].Array? &&
         forall i :: 0 <= i < |f["required"].items| ==> IsScalar(f["required"].items[i])) &&
      ("oneOf" in f ==>
         f["oneOf"].Array? && forall i :: 0 <= i < |f["oneOf"].items| ==> IsSchema(f["oneOf"].items[i])) &&
      ("prefixItems" in f ==>
         f["prefixItems"].Array? &&
         forall i :: 0 <= i < |f["prefixItems"].items| ==> IsSchema(f["prefixItems"].items[i])) &&
      ("properties" in f ==>
         f["properties"].Object? && forall k :: k in f["properties"].fields ==>
           f["properties"].fields[k].Object? && IsSchema(f["properties"].fields[k])) &&
      ("items" in f ==> IsSchema(f["items"])) &&
      ("additionalProperties" in f ==> IsSchema(f["additionalProperties"]))
    case _ => false
  }

  const SCALARS: set<string> :=
    {"type", "const", "minimum", "maximum", "minLength", "maxLength", "minItems", "maxItems", "description"}

  predicate IsScalar(v: Value) {
    !v.Object? && !v.Array?
  }

  ghost predicate SchemaDefinitions(defs: Defs) {
    forall k :: k in defs ==> IsSchema(defs[k]) && RefsDefined(defs[k], defs)
  }

  lemma ScalarsStay(v: Value, defs: Defs)
    requires IsScalar(v)
    ensures Inlined(v, defs, []) == v
  {
  }

  /** A schema without a reference is inlined member by member. */
  lemma InlinedByMember(s: Value, defs: Defs)
    requires s.Object? && (REF in s.fields ==> !s.fields[REF].Text?)
    ensures Inlined(s, defs, []).Object? && Inlined(s, defs, []).fields == InlinedMembers(s, defs, [])
  {
  }

  /** What the lemmas below share: a schema over acyclic definitions, and rules with and without
      them. */
  ghost predicate Inlinable(r: Rules, plain: Rules, s: Value, rank: string -> nat, bound: nat) {
    IsSchema(s) && RefsFine(s, r.defs, rank, bound) && SchemaDefinitions(r.defs) && Acyclic(r.defs, rank) &&
    bound <= r.limit && plain.dialect == r.dialect
  }

  /** The references in `v` are defined and point below `bound`. */
  ghost predicate RefsFine(v: Value, defs: Defs, rank: string -> nat, bound: nat) {
    RefsDefined(v, defs) && RefsBelow(v, defs, rank, bound)
  }

  lemma MemberFine(v: Value, k: string, defs: Defs, rank: string -> nat, bound: nat)
    requires v.Object? && k in v.fields && RefsFine(v, defs, rank, bound)
    ensures RefsFine(v.fields[k], defs, rank, bound)
  {
  }

  lemma ItemFine(v: Value, i: nat, defs: Defs, rank: string -> nat, bound: nat)
    requires v.Array? && i < |v.items| && RefsFine(v, defs, rank, bound)
    ensures RefsFine(v.items[i], defs, rank, bound)
  {
  }

  /** Inlining keeps what a schema accepts. */
  lemma {:induction false} InliningKeepsValidity(
    r: Rules, plain: Rules, s: Value, v: Value, refs: nat, plainRefs: nat, rank: string -> nat, bound: nat)
    requires Inlinable(r, plain, s, rank, bound) && bound <= refs
    ensures Valid(r, s, v, refs) <==> Valid(plain, Inlined(s, r.defs, []), v, plainRefs)
    decreases v, bound, s, 3
  {
    if s.Object? {
      if REF in s.fields {
        RefKept(r, plain, s, v, refs, plainRefs, rank, bound);
      } else {
        PartsKept(r, plain, s, v, refs, plainRefs, rank, bound);
      }
    }
  }

  lemma {:induction false} RefKept(
    r: Rules, plain: Rules, s: Value, v: Value, refs: nat, plainRefs: nat, rank: string -> nat, bound: nat)
    requires Inlinable(r, plain, s, rank, bound) && bound <= refs && s.Object? && REF in s.fields
    ensures Valid(r, s, v, refs) <==> Valid(plain, Inlined(s, r.defs, []), v, plainRefs)
    decreases v, bound, s, 0
  {
    var key := LocalKey(s.fields[REF].s).value;
    var target := r.defs[key];
    PushShrinks(r.defs, [], key);
    AcyclicIgnoresStack(target, r.defs, [key], rank, rank(key));
    assert [] + [key] == [key];
    assert Inlined(s, r.defs, []) == Inlined(target, r.defs, []);
    InliningKeepsValidity(r, plain, target, v, refs - 1, plainRefs, rank, rank(key));
    LoneRef(r, s, v, refs);
  }

  lemma LoneRef(r: Rules, s: Value, v: Value, refs: nat)
    requires s.Object? && s.fields.Keys == {REF} && s.fields[REF].Text? && Resolves(s.fields[REF].s, r.defs) && refs > 0
    ensures Valid(r, s, v, refs) <==> Valid(r, r.defs[LocalKey(s.fields[REF].s).value], v, refs - 1)
  {
    Keywords();
    NoMembers(r, s, v);
    NoItems(r, s, v);
    assert Asserts(s.fields, v) && OneOfValid(r, s, v, refs);
    assert Valid(r, s, v, refs) <==> RefValid(r, s, v, refs);
  }

  lemma {:induction false} PartsKept(
    r: Rules, plain: Rules, s: Value, v: Value, refs: nat, plainRefs: nat, rank: string -> nat, bound: nat)
    requires Inlinable(r, plain, s, rank, bound) && bound <= refs && s.Object? && REF !in s.fields
    ensures Valid(r, s, v, refs) <==> Valid(plain, Inlined(s, r.defs, []), v, plainRefs)
    decreases v, bound, s, 2
  {
    var t := Inlined(s, r.defs, []);
    InlinedByMember(s, r.defs);
    assert t.fields.Keys == s.fields.Keys;
    AssertsKept(s.fields, t.fields, r.defs, v);
    ChoicesKept(r, plain, s, v, refs, plainRefs, rank, bound);
    MembersKept(r, plain, s, v, rank, bound);
    ItemsKept(r, plain, s, v, rank, bound);
    Unfolded(r, s, v, refs);
    Unfolded(plain, t, v, plainRefs);
  }

  lemma Unfolded(r: Rules, s: Value, v: Value, refs: nat)
    requires s.Object? && REF !in s.fields
    ensures Valid(r, s, v, refs) <==>
            Asserts(s.fields, v) && OneOfValid(r, s, v, refs) && MembersValid(r, s, v) && ItemsValid(r, s, v)
  {
  }

  lemma AssertsKept(f: map<string, Value>, g: map<string, Value>, defs: Defs, v: Value)
    requires f.Keys == g.Keys
    requires forall k :: k in f && k in SCALARS ==> IsScalar(f[k])
    requires forall k :: k in f ==> g[k] == Inlined(f[k], defs, [])
    ensures Asserts(f, v) <==> Asserts(g, v)
  {
    forall k | k in f && k in SCALARS
      ensures g[k] == f[k]
    {
      ScalarsStay(f[k], defs);
    }
  }

  lemma {:induction false} ChoicesKept(
    r: Rules, plain: Rules, s: Value, v: Value, refs: nat, plainRefs: nat, rank: string -> nat, bound: nat)
    requires Inlinable(r, plain, s, rank, bound) && bound <= refs && s.Object? && REF !in s.fields
    ensures Inlined(s, r.defs, []).Object?
    ensures OneOfValid(r, s, v, refs) <==> OneOfValid(plain, Inlined(s, r.defs, []), v, plainRefs)
    decreases v, bound, s, 0
  {
    InlinedByMember(s, r.defs);
    var t := Inlined(s, r.defs, []);
    if "oneOf" in s.fields {
      var choices := s.fields["oneOf"].items;
      var inlined := t.fields["oneOf"].items;
      assert inlined == InlinedItems(s.fields["oneOf"], r.defs, []);
      forall i | 0 <= i < |choices|
        ensures Valid(r, choices[i], v, refs) <==> Valid(plain, inlined[i], v, plainRefs)
      {
        MemberFine(s, "oneOf", r.defs, rank, bound);
        ItemFine(s.fields["oneOf"], i, r.defs, rank, bound);
        InliningKeepsValidity(r, plain, choices[i], v, refs, plainRefs, rank, bound);
      }
      assert seq(|choices|, i requires 0 <= i < |choices| => Valid(r, choices[i], v, refs)) ==
             seq(|inlined|, i requires 0 <= i < |inlined| => Valid(plain, inlined[i], v, plainRefs));
    }
  }

  lemma {:induction false} MembersKept(
    r: Rules, plain: Rules, s: Value, v: Value, rank: string -> nat, bound: nat)
    requires Inlinable(r, plain, s, rank, bound) && s.Object? && REF !in s.fields
    ensures Inlined(s, r.defs, []).Object?
    ensures MembersValid(r, s, v) <==> MembersValid(plain, Inlined(s, r.defs, []), v)
    decreases v, bound, s, 1
  {
    InlinedByMember(s, r.defs);
    if v.Object? {
      if "required" in s.fields { RequiredKept(s, r.defs); }
      forall k | k in v.fields
        ensures MemberValid(r, s, v, k) <==> MemberValid(plain, Inlined(s, r.defs, []), v, k)
      {
        MemberKept(r, plain, s, v, k, rank, bound);
      }
    }
  }

  lemma {:induction false} MemberKept(
    r: Rules, plain: Rules, s: Value, v: Value, k: string, rank: string -> nat, bound: nat)
    requires Inlinable(r, plain, s, rank, bound) && s.Object? && REF !in s.fields
    requires v.Object? && k in v.fields
    ensures Inlined(s, r.defs, []).Object?
    ensures MemberValid(r, s, v, k) <==> MemberValid(plain, Inlined(s, r.defs, []), v, k)
    decreases v, bound, s, 0
  {
    InlinedByMember(s, r.defs);
    PropertiesKept(s, r.defs);
    var f := s.fields;
    if k in PropertySchemas(f) {
      MemberFine(s, "properties", r.defs, rank, bound);
      MemberFine(f["properties"], k, r.defs, rank, bound);
      InliningKeepsValidity(r, plain, PropertySchemas(f)[k], v.fields[k], r.limit, plain.limit, rank, bound);
    } else if "additionalProperties" in f {
      MemberFine(s, "additionalProperties", r.defs, rank, bound);
      InliningKeepsValidity(r, plain, f["additionalProperties"], v.fields[k], r.limit, plain.limit, rank, bound);
    }
  }

  lemma RequiredKept(s: Value, defs: Defs)
    requires IsSchema(s) && s.Object? && REF !in s.fields && "required" in s.fields
    ensures Inlined(s.fields["required"], defs, []) == s.fields["required"]
  {
    var names := s.fields["required"].items;
    forall i | 0 <= i < |names|
      ensures Inlined(names[i], defs, []) == names[i]
    {
      ScalarsStay(names[i], defs);
    }
    assert InlinedItems(s.fields["required"], defs, []) == names;
  }

  /** The properties are inlined one by one, even one that is called like a reference. */
  lemma PropertiesKept(s: Value, defs: Defs)
    requires IsSchema(s) && s.Object? && REF !in s.fields
    ensures Inlined(s, defs, []).Object?
    ensures var p, q := PropertySchemas(s.fields), PropertySchemas(Inlined(s, defs, []).fields);
            q.Keys == p.Keys && forall k :: k in p ==> q[k] == Inlined(p[k], defs, [])
  {
    InlinedByMember(s, defs);
    if "properties" in s.fields {
      InlinedByMember(s.fields["properties"], defs);
    }
  }

  lemma {:induction false} ItemsKept(
    r: Rules, plain: Rules, s: Value, v: Value, rank: string -> nat, bound: nat)
    requires Inlinable(r, plain, s, rank, bound) && s.Object? && REF !in s.fields
    ensures Inlined(s, r.defs, []).Object?
    ensures ItemsValid(r, s, v) <==> ItemsValid(plain, Inlined(s, r.defs, []), v)
    decreases v, bound, s, 1
  {
    InlinedByMember(s, r.defs);
    if v.Array? {
      forall i | 0 <= i < |v.items|
        ensures ItemValid(r, s, v, i) <==> ItemValid(plain, Inlined(s, r.defs, []), v, i)
      {
        ItemKept(r, plain, s, v, i, rank, bound);
      }
    }
  }

  lemma {:induction false} ItemKept(
    r: Rules, plain: Rules, s: Value, v: Value, i: nat, rank: string -> nat, bound: nat)
    requires Inlinable(r, plain, s, rank, bound) && s.Object? && REF !in s.fields
    requires v.Array? && i < |v.items|
    ensures Inlined(s, r.defs, []).Object?
    ensures ItemValid(r, s, v, i) <==> ItemValid(plain, Inlined(s, r.defs, []), v, i)
    decreases v, bound, s, 0
  {
    InlinedByMember(s, r.defs);
    var f, g := s.fields, Inlined(s, r.defs, []).fields;
    var prefix := PrefixSchemas(r.dialect, f);
    assert "prefixItems" in f ==> g["prefixItems"].items == InlinedItems(f["prefixItems"], r.defs, []);
    if i < |prefix| {
      MemberFine(s, "prefixItems", r.defs, rank, bound);
      ItemFine(f["prefixItems"], i, r.defs, rank, bound);
      InliningKeepsValidity(r, plain, prefix[i], v.items[i], r.limit, plain.limit, rank, bound);
    } else if "items" in f {
      MemberFine(s, "items", r.defs, rank, bound);
      InliningKeepsValidity(r, plain, f["items"], v.items[i], r.limit, plain.limit, rank, bound);
    }
  }
}
