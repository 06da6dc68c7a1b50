/** Removing local references from a schema: every `$ref` into `$defs` is replaced by the
    definition it names, recursively, with a stack of the definitions being expanded so that
    cyclic schemas terminate. */
module RefInliner {
  import opened Wrappers
  import opened Json
  import JsonPointer

  type Defs = map<string, Value>

  // ---------------------------------------------------------------- what inlining computes

  /** The key that a reference into `$defs` names. */
  function LocalKey(reference: string): Option<string> {
    if |DEFS_PREFIX| <= |reference| && reference[..|DEFS_PREFIX|] == DEFS_PREFIX
    then Some(JsonPointer.Unescape(reference[|DEFS_PREFIX|..]))
    else None
  }

  /** Exactly the references that begin with the prefix name a key: the rest of them, unescaped. */
  lemma LocalKeyIff(reference: string)
    ensures LocalKey(reference).Some? <==> exists rest :: reference == "#/$defs/" + rest
    ensures forall rest :: reference == "#/$defs/" + rest ==> LocalKey(reference) == Some(JsonPointer.Unescape(rest))
  {
    forall rest | reference == "#/$defs/" + rest
      ensures LocalKey(reference) == Some(JsonPointer.Unescape(rest))
    {
      assert reference[..8] == "#/$defs/" && reference[8..] == rest;
    }
    if LocalKey(reference).Some? {
      assert reference == "#/$defs/" + reference[8..];
    }
  }

  function Omitted(key: string): Value {
    Object(map["description" := Text("Recursive schema reference omitted for `" + key + "`")])
  }

  /** The definitions not being expanded. */
  function Unexpanded(defs: Defs, stack: seq<string>): set<string> {
    set k | k in defs && k !in stack
  }

  lemma PushShrinks(defs: Defs, stack: seq<string>, key: string)
    requires key in defs && key !in stack
    ensures |Unexpanded(defs, stack + [key])| < |Unexpanded(defs, stack)|
  {
    assert Unexpanded(defs, stack + [key]) == Unexpanded(defs, stack) - {key};
  }

  function Resolved(reference: string, defs: Defs, stack: seq<string>): Option<Value>
    decreases |Unexpanded(defs, stack)|, 0
  {
    match LocalKey(reference)
    case None => None
    case Some(key) =>
      if key in stack then Some(Omitted(key))
      else if key !in defs then None
      else
        PushShrinks(defs, stack, key);
        Some(Inlined(defs[key], defs, stack + [key]))
  }

  function Inlined(value: Value, defs: Defs, stack: seq<string>): Value
    decreases |Unexpanded(defs, stack)|, 1, value, 1
  {
    match value
    case Object(fields) =>
      var resolved := if REF in fields && fields[REF].Text?
                      then Resolved(fields[REF].s, defs, stack) else None;
      Rebuilt(fields, resolved, InlinedMembers(value, defs, stack))
    case Array(_) => Array(InlinedItems(value, defs, stack))
    case _ => value
  }

  /** An object from its inlined members and, if its reference was resolved, the resolved
      value: siblings of the reference are written over the resolved members. */
  function Rebuilt(fields: map<string, Value>, resolved: Option<Value>, all: map<string, Value>): Value {
    match resolved
    case None => Object(all)
    case Some(v) =>
      if fields.Keys == {REF} then v
      else Object((if v.Object? then v.fields else map[]) + (all - {REF}))
  }

  function InlinedMembers(value: Value, defs: Defs, stack: seq<string>): (all: map<string, Value>)
    requires value.Object?
    ensures all.Keys == value.fields.Keys
    ensures forall k :: k in all ==> all[k] == Inlined(value.fields[k], defs, stack)
    decreases |Unexpanded(defs, stack)|, 1, value, 0
  {
    map k | k in value.fields :: Inlined(value.fields[k], defs, stack)
  }

  function InlinedItems(value: Value, defs: Defs, stack: seq<string>): (all: seq<Value>)
    requires value.Array?
    ensures |all| == |value.items|
    ensures forall i :: 0 <= i < |all| ==> all[i] == Inlined(value.items[i], defs, stack)
    decreases |Unexpanded(defs, stack)|, 1, value, 0
  {
    seq(|value.items|, i requires 0 <= i < |value.items| => Inlined(value.items[i], defs, stack))
  }

  /** `inline_schema_local_refs`: the root without its `$schema` and `$defs`, inlined. */
  function SchemaDefs(schema: Value): Defs {
    if schema.Object? && DEFS in schema.fields && schema.fields[DEFS].Object?
    then schema.fields[DEFS].fields else map[]
  }

  function SchemaRoot(schema: Value): Value {
    if schema.Object? then Object(schema.fields - {SCHEMA, DEFS}) else schema
  }

  function InlinedSchema(schema: Value): Value {
    Inlined(SchemaRoot(schema), SchemaDefs(schema), [])
  }

  // ---------------------------------------------------------------- what inlining leaves

  predicate Resolves(reference: string, defs: Defs) {
    LocalKey(reference).Some? && LocalKey(reference).value in defs
  }

  /** Somewhere in `v` a `$ref` names a definition. */
  predicate HasLocalRef(v: Value, defs: Defs) {
    match v
    case Object(fields) =>
      (REF in fields && fields[REF].Text? && Resolves(fields[REF].s, defs)) ||
      exists k :: k in fields && HasLocalRef(fields[k], defs)
    case Array(items) => exists i :: 0 <= i < |items| && HasLocalRef(items[i], defs)
    case _ => false
  }

  /** A definition that is itself a string naming a definition. */
  predicate StringDefResolves(defs: Defs) {
    exists k :: k in defs && defs[k].Text? && Resolves(defs[k].s, defs)
  }

  /** A value that inlining turns into a string was that string, or ends in a string
      definition. */
  lemma {:induction false} StringsDoNotResolve(value: Value, defs: Defs, stack: seq<string>)
    requires !StringDefResolves(defs) && !value.Text?
    requires Inlined(value, defs, stack).Text?
    ensures !Resolves(Inlined(value, defs, stack).s, defs)
    decreases |Unexpanded(defs, stack)|, value
  {
    var key := LocalKey(value.fields[REF].s).value;
    PushShrinks(defs, stack, key);
    assert Inlined(value, defs, stack) == Inlined(defs[key], defs, stack + [key]);
    if !defs[key].Text? {
      StringsDoNotResolve(defs[key], defs, stack + [key]);
    }
  }

  lemma {:induction false} InliningClears(value: Value, defs: Defs, stack: seq<string>)
    requires !StringDefResolves(defs)
    ensures !HasLocalRef(Inlined(value, defs, stack), defs)
    decreases |Unexpanded(defs, stack)|, 1, value
  {
    match value
    case Object(fields) =>
      forall k | k in fields
        ensures !HasLocalRef(Inlined(fields[k], defs, stack), defs)
      {
        InliningClears(fields[k], defs, stack);
      }
      if REF in fields {
        if fields[REF].Text? {
          ResolvedIsClear(fields[REF].s, defs, stack);
        } else if Inlined(fields[REF], defs, stack).Text? {
          StringsDoNotResolve(fields[REF], defs, stack);
        }
      }
    case Array(items) =>
      forall i | 0 <= i < |items|
        ensures !HasLocalRef(Inlined(items[i], defs, stack), defs)
      {
        InliningClears(items[i], defs, stack);
      }
    case _ =>
  }

  lemma {:induction false} ResolvedIsClear(reference: string, defs: Defs, stack: seq<string>)
    requires !StringDefResolves(defs)
    ensures var r := Resolved(reference, defs, stack);
            if r.Some? then !HasLocalRef(r.value, defs) else !Resolves(reference, defs)
    decreases |Unexpanded(defs, stack)|, 0
  {
    var key := LocalKey(reference);
    if key.Some? && key.value !in stack && key.value in defs {
      PushShrinks(defs, stack, key.value);
      InliningClears(defs[key.value], defs, stack + [key.value]);
    }
  }

  function RefTo(key: string): string {
    DEFS_PREFIX + JsonPointer.Escape(key)
  }

  /** A generated reference is looked up under the very key it was built from. */
  lemma RefToFindsKey(key: string)
    ensures LocalKey(RefTo(key)) == Some(key)
  {
    JsonPointer.UnescapeUndoesEscape(key);
  }

  /** Inlining leaves no reference into `$defs` in any schema if and only if no definition is
      a string that names a definition. */
  lemma InliningClearsIff(defs: Defs)
    ensures (forall value :: !HasLocalRef(Inlined(value, defs, []), defs)) <==>
            !StringDefResolves(defs)
  {
    if StringDefResolves(defs) {
      var k :| k in defs && defs[k].Text? && Resolves(defs[k].s, defs);
      RefToFindsKey(k);
      PushShrinks(defs, [], k);
      var inner := Object(map[REF := Text(RefTo(k))]);
      assert inner.fields.Keys == {REF};
      assert Resolved(RefTo(k), defs, []) == Some(Inlined(defs[k], defs, [] + [k]));
      assert Inlined(inner, defs, []) == defs[k];
      var outer := Object(map[REF := inner]);
      assert Inlined(outer, defs, []).fields[REF] == defs[k];
      assert HasLocalRef(Inlined(outer, defs, []), defs);
    } else {
      forall value
        ensures !HasLocalRef(Inlined(value, defs, []), defs)
      {
        InliningClears(value, defs, []);
      }
    }
  }

  /** A value without references into `$defs` is left as it is. */
  lemma {:induction false} NothingToInline(value: Value, defs: Defs)
    requires !HasLocalRef(value, defs)
    ensures Inlined(value, defs, []) == value
  {
    match value
    case Object(fields) =>
      forall k | k in fields
        ensures Inlined(fields[k], defs, []) == fields[k]
      {
        NothingToInline(fields[k], defs);
      }
      assert (map k | k in fields :: Inlined(fields[k], defs, [])) == fields;
    case Array(items) =>
      forall i | 0 <= i < |items|
        ensures Inlined(items[i], defs, []) == items[i]
      {
        NothingToInline(items[i], defs);
      }
    case _ =>
  }

  /** Inlining twice is inlining once. */
  lemma InliningIsIdempotent(value: Value, defs: Defs)
    requires !StringDefResolves(defs)
    ensures Inlined(Inlined(value, defs, []), defs, []) == Inlined(value, defs, [])
  {
    InliningClears(value, defs, []);
    NothingToInline(Inlined(value, defs, []), defs);
  }

  // ---------------------------------------------------------------- closed schemas

  /** Every string `$ref` in `v` names a definition. */
  predicate RefsDefined(v: Value, defs: Defs) {
    match v
    case Object(fields) =>
      (REF in fields && fields[REF].Text? ==> Resolves(fields[REF].s, defs)) &&
      forall k :: k in fields ==> RefsDefined(fields[k], defs)
    case Array(items) => forall i :: 0 <= i < |items| ==> RefsDefined(items[i], defs)
    case _ => true
  }

  /** Definitions are objects and refer to definitions only. */
  predicate ClosedDefs(defs: Defs) {
    forall k :: k in defs ==> defs[k].Object? && RefsDefined(defs[k], defs)
  }

  /** If every reference is defined and every definition is an object, no `$ref` survives. */
  lemma {:induction false} ClosedInliningRemovesAllRefs(value: Value, defs: Defs, stack: seq<string>)
    requires ClosedDefs(defs) && RefsDefined(value, defs)
    ensures !HasRef(Inlined(value, defs, stack))
    ensures Inlined(value, defs, stack).Text? ==> value.Text?
    decreases |Unexpanded(defs, stack)|, 1, value
  {
    match value
    case Object(fields) =>
      forall k | k in fields
        ensures !HasRef(Inlined(fields[k], defs, stack))
        ensures Inlined(fields[k], defs, stack).Text? ==> fields[k].Text?
      {
        ClosedInliningRemovesAllRefs(fields[k], defs, stack);
      }
      if REF in fields && fields[REF].Text? {
        ClosedRefIsClear(fields[REF].s, defs, stack);
      }
    case Array(items) =>
      forall i | 0 <= i < |items|
        ensures !HasRef(Inlined(items[i], defs, stack))
      {
        ClosedInliningRemovesAllRefs(items[i], defs, stack);
      }
    case _ =>
  }

  lemma {:induction false} ClosedRefIsClear(reference: string, defs: Defs, stack: seq<string>)
    requires ClosedDefs(defs) && Resolves(reference, defs)
    ensures var r := Resolved(reference, defs, stack);
            r.Some? && !HasRef(r.value) && !r.value.Text?
    decreases |Unexpanded(defs, stack)|, 0
  {
    var key := LocalKey(reference).value;
    if key !in stack {
      PushShrinks(defs, stack, key);
      ClosedInliningRemovesAllRefs(defs[key], defs, stack + [key]);
    }
  }

  // ---------------------------------------------------------------- acyclic schemas lose nothing

  /** Every reference in `v` names a definition ranked below `bound`. */
  ghost predicate RefsBelow(v: Value, defs: Defs, rank: string -> nat, bound: nat) {
    match v
    case Object(fields) =>
      (REF in fields && fields[REF].Text? && Resolves(fields[REF].s, defs) ==>
        rank(LocalKey(fields[REF].s).value) < bound) &&
      forall k :: k in fields ==> RefsBelow(fields[k], defs, rank, bound)
    case Array(items) => forall i :: 0 <= i < |items| ==> RefsBelow(items[i], defs, rank, bound)
    case _ => true
  }

  /** The references between definitions form no cycle: each points strictly down. */
  ghost predicate Acyclic(defs: Defs, rank: string -> nat) {
    forall k :: k in defs ==> RefsBelow(defs[k], defs, rank, rank(k))
  }

  /** Without cycles the stack never matters: nothing is omitted, and each reference stands
      for the full expansion of its definition, whatever is being expanded around it. */
  lemma {:induction false} AcyclicIgnoresStack(
    value: Value, defs: Defs, stack: seq<string>, rank: string -> nat, bound: nat)
    requires Acyclic(defs, rank) && RefsBelow(value, defs, rank, bound)
    requires forall k :: k in stack ==> k in defs && rank(k) >= bound
    ensures Inlined(value, defs, stack) == Inlined(value, defs, [])
    decreases bound, 1, value
  {
    match value
    case Object(fields) =>
      forall k | k in fields
        ensures Inlined(fields[k], defs, stack) == Inlined(fields[k], defs, [])
      {
        AcyclicIgnoresStack(fields[k], defs, stack, rank, bound);
      }
      assert InlinedMembers(value, defs, stack) == InlinedMembers(value, defs, []);
      if REF in fields && fields[REF].Text? {
        AcyclicResolved(fields[REF].s, defs, stack, rank, bound);
      }
    case Array(items) =>
      forall i | 0 <= i < |items|
        ensures Inlined(items[i], defs, stack) == Inlined(items[i], defs, [])
      {
        AcyclicIgnoresStack(items[i], defs, stack, rank, bound);
      }
      assert InlinedItems(value, defs, stack) == InlinedItems(value, defs, []);
    case _ =>
  }

  lemma {:induction false} AcyclicResolved(
    reference: string, defs: Defs, stack: seq<string>, rank: string -> nat, bound: nat)
    requires Acyclic(defs, rank)
    requires Resolves(reference, defs) ==> rank(LocalKey(reference).value) < bound
    requires forall k :: k in stack ==> k in defs && rank(k) >= bound
    ensures Resolved(reference, defs, stack) == Resolved(reference, defs, [])
    decreases bound, 0
  {
    if Resolves(reference, defs) {
      var key := LocalKey(reference).value;
      assert [] + [key] == [key];
      PushShrinks(defs, stack, key);
      PushShrinks(defs, [], key);
      AcyclicIgnoresStack(defs[key], defs, stack + [key], rank, rank(key));
      AcyclicIgnoresStack(defs[key], defs, [key], rank, rank(key));
    }
  }

  /** So a reference to an acyclic definition expands to the definition's own expansion. */
  lemma AcyclicRefExpands(key: string, defs: Defs, rank: string -> nat)
    requires Acyclic(defs, rank) && key in defs
    ensures Inlined(Object(map[REF := Text(RefTo(key))]), defs, []) ==
            Inlined(defs[key], defs, [])
  {
    RefToFindsKey(key);
    PushShrinks(defs, [], key);
    var v := Object(map[REF := Text(RefTo(key))]);
    assert v.fields.Keys == {REF} && [] + [key] == [key];
    AcyclicIgnoresStack(defs[key], defs, [key], rank, rank(key));
  }

  // ---------------------------------------------------------------- the recursive procedures

  lemma MergeOneMore(base: map<string, Value>, all: map<string, Value>,
                     skip: set<string>, remaining: set<string>, k: string)
    requires k in remaining && k in all && k !in skip
    ensures (base + (all - skip - remaining))[k := all[k]] == base + (all - skip - (remaining - {k}))
  {
  }

  class LocalRefInliner {
    var stack: seq<string>

    constructor ()
      ensures stack == []
    {
      stack := [];
    }

    method ResolveLocalRef(reference: string, defs: Defs) returns (resolved: Option<Value>)
      modifies this
      ensures stack == old(stack)
      ensures resolved == Resolved(reference, defs, old(stack))
      decreases |Unexpanded(defs, stack)|, 0
    {
      var key := LocalKey(reference);
      if key.None? { return None; }
      if key.value in stack { return Some(Omitted(key.value)); }
      if key.value !in defs { return None; }
      PushShrinks(defs, stack, key.value);
      stack := stack + [key.value];
      var inlined := InlineLocalRefsInValue(defs[key.value], defs);
      stack := stack[..|stack| - 1];
      return Some(inlined);
    }

    method InlineLocalRefsInValue(value: Value, defs: Defs) returns (inlined: Value)
      modifies this
      ensures stack == old(stack)
      ensures inlined == Inlined(value, defs, old(stack))
      decreases |Unexpanded(defs, stack)|, 1, value, 2
    {
      match value {
        case Object(_) => inlined := InlineObject(value, defs);
        case Array(_) =>
          var items := InlineItems(value, defs);
          return Array(items);
        case _ => return value;
      }
    }

    method InlineObject(value: Value, defs: Defs) returns (inlined: Value)
      requires value.Object?
      modifies this
      ensures stack == old(stack)
      ensures inlined == Inlined(value, defs, old(stack))
      decreases |Unexpanded(defs, stack)|, 1, value, 1
    {
      ghost var all := InlinedMembers(value, defs, stack);
      var resolved: Option<Value> := None;
      if REF in value.fields && value.fields[REF].Text? {
        resolved := ResolveLocalRef(value.fields[REF].s, defs);
      }
      assert Inlined(value, defs, stack) == Rebuilt(value.fields, resolved, all);
      if resolved.None? {
        var members := InlineMembers(value, {}, map[], defs);
        assert members == all;
        return Object(members);
      }
      if value.fields.Keys == {REF} { return resolved.value; }
      var base := if resolved.value.Object? then resolved.value.fields else map[];
      var merged := InlineMembers(value, {REF}, base, defs);
      return Object(merged);
    }

    /** The members not in `skip`, inlined and written over `base`. */
    method InlineMembers(value: Value, skip: set<string>, base: map<string, Value>, defs: Defs)
      returns (merged: map<string, Value>)
      requires value.Object?
      modifies this
      ensures stack == old(stack)
      ensures merged == base + (InlinedMembers(value, defs, old(stack)) - skip)
      decreases |Unexpanded(defs, stack)|, 1, value, 0
    {
      merged := base;
      ghost var all := InlinedMembers(value, defs, stack);
      var remaining := value.fields.Keys - skip;
      while remaining != {}
        invariant stack == old(stack) && remaining <= value.fields.Keys - skip
        invariant merged == base + (all - skip - remaining)
        decreases remaining
      {
        var k :| k in remaining;
        var v := InlineLocalRefsInValue(value.fields[k], defs);
        MergeOneMore(base, all, skip, remaining, k);
        merged := merged[k := v];
        remaining := remaining - {k};
      }
    }

    method InlineItems(value: Value, defs: Defs) returns (inlined: seq<Value>)
      requires value.Array?
      modifies this
      ensures stack == old(stack)
      ensures inlined == InlinedItems(value, defs, old(stack))
      decreases |Unexpanded(defs, stack)|, 1, value, 0
    {
      inlined := [];
      ghost var all := InlinedItems(value, defs, stack);
      while |inlined| < |value.items|
        invariant stack == old(stack) && |inlined| <= |value.items|
        invariant inlined == all[..|inlined|]
      {
        var v := InlineLocalRefsInValue(value.items[|inlined|], defs);
        inlined := inlined + [v];
      }
    }
  }

  method InlineSchemaLocalRefs(schema: Value) returns (inlined: Value)
    ensures inlined == InlinedSchema(schema)
  {
    var inliner := new LocalRefInliner();
    inlined := inliner.InlineLocalRefsInValue(SchemaRoot(schema), SchemaDefs(schema));
  }
}
