/** What the generated schema shapes accept, in terms of what their parts accept. */
module SchemaShapes {
  import opened Json
  import opened ReflectedTypes
  import opened JsonSchema

  /** No two keywords are equal: they differ in length or in one of the first two characters. */
  lemma Keywords()
    ensures REF[0] == '$' && "type"[0] == 't' && "const"[0] == 'c' && "items"[0] == 'i' && "oneOf"[0] == 'o'
    ensures "minimum"[1] == 'i' && "maximum"[1] == 'a' && "minItems"[1] == 'i' && "maxItems"[1] == 'a'
    ensures "required"[0] == 'r' && "minItems"[0] == 'm' && "maxItems"[0] == 'm'
    ensures "minLength"[1] == 'i' && "maxLength"[1] == 'a'
    ensures "prefixItems"[0] == 'p' && "description"[0] == 'd'
    ensures |REF| == |"type"| == 4 && |"const"| == |"items"| == |"oneOf"| == 5
    ensures |"minimum"| == |"maximum"| == 7 && |"minItems"| == |"maxItems"| == |"required"| == 8
    ensures |"minLength"| == |"maxLength"| == 9 && |"properties"| == 10
    ensures |"prefixItems"| == |"description"| == 11 && |"additionalProperties"| == 20
  {
  }

  /** Validation under the rules `r`, as a value: what follows needs to know no more of it than what
      it says of each shape. */
  type Verdict = (Value, Value, nat) -> bool

  ghost predicate Decides(accepts: Verdict, r: Rules) {
    forall s, v, refs {:trigger Valid(r, s, v, refs)} :: accepts(s, v, refs) == Valid(r, s, v, refs)
  }

  // ---------------------------------------------------------------- schemas without some keywords

  /** Without a reference or a choice a schema asserts on the value and on its parts. */
  lemma PlainSchema(r: Rules, s: Value, v: Value, refs: nat)
    requires s.Object? && REF !in s.fields && "oneOf" !in s.fields
    ensures Valid(r, s, v, refs) <==> Asserts(s.fields, v) && MembersValid(r, s, v) && ItemsValid(r, s, v)
  {
    assert OneOfValid(r, s, v, refs);
  }

  lemma NoMembers(r: Rules, s: Value, v: Value)
    requires s.Object?
    requires "properties" !in s.fields && "required" !in s.fields && "additionalProperties" !in s.fields
    ensures MembersValid(r, s, v)
  {
  }

  lemma NoItems(r: Rules, s: Value, v: Value)
    requires s.Object? && "prefixItems" !in s.fields && "items" !in s.fields
    ensures ItemsValid(r, s, v)
  {
  }

  lemma ItemsOf(r: Rules, s: Value, v: Value)
    requires s.Object? && v.Array?
    ensures ItemsValid(r, s, v) <==>
            var prefix := PrefixSchemas(r.dialect, s.fields);
            forall i :: 0 <= i < |v.items| ==>
              if i < |prefix| then Valid(r, prefix[i], v.items[i], r.limit)
              else "items" in s.fields ==> Valid(r, s.fields["items"], v.items[i], r.limit)
  {
    forall i: nat | i < |v.items|
      ensures ItemValid(r, s, v, i) <==>
              var prefix := PrefixSchemas(r.dialect, s.fields);
              if i < |prefix| then Valid(r, prefix[i], v.items[i], r.limit)
              else "items" in s.fields ==> Valid(r, s.fields["items"], v.items[i], r.limit)
    {
    }
  }

  lemma MembersOf(r: Rules, s: Value, v: Value)
    requires s.Object? && v.Object?
    ensures MembersValid(r, s, v) <==>
            ("required" in s.fields && s.fields["required"].Array? ==> AllIn(s.fields["required"].items, v.fields)) &&
            forall k :: k in v.fields ==>
              if k in PropertySchemas(s.fields) then Valid(r, PropertySchemas(s.fields)[k], v.fields[k], r.limit)
              else "additionalProperties" in s.fields ==>
                     Valid(r, s.fields["additionalProperties"], v.fields[k], r.limit)
  {
    forall k | k in v.fields
      ensures MemberValid(r, s, v, k) <==>
              if k in PropertySchemas(s.fields) then Valid(r, PropertySchemas(s.fields)[k], v.fields[k], r.limit)
              else "additionalProperties" in s.fields ==>
                     Valid(r, s.fields["additionalProperties"], v.fields[k], r.limit)
    {
    }
  }

  lemma NothingIsValidAgainstFalse(r: Rules, v: Value, refs: nat)
    ensures !Valid(r, Bool(false), v, refs)
  {
  }

  // ---------------------------------------------------------------- shapes

  lemma DescribedMeans(accepts: Verdict, r: Rules, text: string, v: Value, refs: nat)
    requires Decides(accepts, r)
    ensures accepts(Described(text), v, refs)
    ensures accepts(Object(map[]), v, refs)
  {
    Keywords();
    NoKeywordMeans(r, Described(text), v, refs);
    NoKeywordMeans(r, Object(map[]), v, refs);
  }

  lemma NoKeywordMeans(r: Rules, s: Value, v: Value, refs: nat)
    requires s.Object? && forall k :: k in s.fields ==> k == "description"
    ensures Valid(r, s, v, refs)
  {
    Keywords();
    PlainSchema(r, s, v, refs);
    NoMembers(r, s, v);
    NoItems(r, s, v);
  }

  lemma TypeOnlyMeans(accepts: Verdict, r: Rules, name: string, v: Value, refs: nat)
    requires Decides(accepts, r)
    ensures accepts(TypeOnly(name), v, refs) <==> HasType(name, v)
  {
    Keywords();
    var s := TypeOnly(name);
    PlainSchema(r, s, v, refs);
    NoMembers(r, s, v);
    NoItems(r, s, v);
  }

  lemma RefMeans(accepts: Verdict, r: Rules, path: string, v: Value, refs: nat)
    requires Decides(accepts, r)
    requires path in r.defs && refs > 0
    ensures accepts(RefSchema(path), v, refs) <==> accepts(r.defs[path], v, refs - 1)
  {
    Keywords();
    RefInliner.RefToFindsKey(path);
    var s := RefSchema(path);
    assert s.fields[REF] == Text(RefInliner.RefTo(path));
    assert Asserts(s.fields, v) && OneOfValid(r, s, v, refs);
    NoMembers(r, s, v);
    NoItems(r, s, v);
    assert Valid(r, s, v, refs) <==> RefValid(r, s, v, refs);
    assert RefValid(r, s, v, refs) <==> Valid(r, r.defs[path], v, refs - 1);
  }

  lemma OneOfMeans(accepts: Verdict, r: Rules, choices: seq<Value>, v: Value, refs: nat, verdicts: seq<bool>)
    requires Decides(accepts, r)
    requires |verdicts| == |choices|
    requires forall i :: 0 <= i < |choices| ==> verdicts[i] == accepts(choices[i], v, refs)
    ensures accepts(OneOf(choices), v, refs) <==> ExactlyOne(verdicts)
  {
    Keywords();
    var s := OneOf(choices);
    assert s.fields["oneOf"].items == choices;
    NoMembers(r, s, v);
    NoItems(r, s, v);
    assert Asserts(s.fields, v);
    assert Valid(r, s, v, refs) <==> OneOfValid(r, s, v, refs);
    assert verdicts == seq(|choices|, i requires 0 <= i < |choices| => Valid(r, choices[i], v, refs));
  }

  lemma NullableMeans(accepts: Verdict, r: Rules, inner: Value, v: Value, refs: nat)
    requires Decides(accepts, r)
    ensures accepts(Nullable(inner), v, refs) <==> ((v == Null) != accepts(inner, v, refs))
  {
    Keywords();
    var choices := [TypeOnly("null"), inner];
    var verdicts := [v == Null, Valid(r, inner, v, refs)];
    TypeOnlyMeans(accepts, r, "null", v, refs);
    OneOfMeans(accepts, r, choices, v, refs, verdicts);
    assert verdicts[0] == (v == Null) && verdicts[1] == Valid(r, inner, v, refs);
  }

  lemma TupleMeans(accepts: Verdict, r: Rules, items: seq<Value>, v: Value, refs: nat)
    requires Decides(accepts, r)
    ensures accepts(TupleSchema(items), v, refs) <==>
            v.Array? && |v.items| == |items| && (r.dialect.Draft07? ==> items == []) &&
            forall i :: 0 <= i < |items| ==> accepts(items[i], v.items[i], r.limit)
  {
    Keywords();
    var s := TupleSchema(items);
    var f := s.fields;
    assert f["type"] == Text("array") && f["prefixItems"] == Array(items) && f["items"] == Bool(false);
    assert f["minItems"] == f["maxItems"] == Number(|items|);
    PlainSchema(r, s, v, refs);
    NoMembers(r, s, v);
    assert Asserts(f, v) <==> v.Array? && |v.items| == |items|;
    if v.Array? && |v.items| == |items| { PrefixMeans(r, s, items, v); }
  }

  /** With `items` false every item needs a schema of its own. */
  lemma PrefixMeans(r: Rules, s: Value, items: seq<Value>, v: Value)
    requires s.Object? && "prefixItems" in s.fields && s.fields["prefixItems"] == Array(items)
    requires "items" in s.fields && s.fields["items"] == Bool(false)
    requires v.Array? && |v.items| == |items|
    ensures ItemsValid(r, s, v) <==>
            (r.dialect.Draft07? ==> items == []) &&
            forall i :: 0 <= i < |items| ==> Valid(r, items[i], v.items[i], r.limit)
  {
    ItemsOf(r, s, v);
    forall i | 0 <= i < |items| { NothingIsValidAgainstFalse(r, v.items[i], r.limit); }
    if r.dialect.Draft07? && items != [] {
      assert !Valid(r, s.fields["items"], v.items[0], r.limit);
    } else {
      assert PrefixSchemas(r.dialect, s.fields) == items;
    }
  }

  lemma ListMeans(accepts: Verdict, r: Rules, item: Value, v: Value, refs: nat)
    requires Decides(accepts, r)
    ensures accepts(ListSchema(item), v, refs) <==>
            v.Array? && forall i :: 0 <= i < |v.items| ==> accepts(item, v.items[i], r.limit)
  {
    Keywords();
    var s := ListSchema(item);
    assert s.fields["type"] == Text("array") && s.fields["items"] == item;
    PlainSchema(r, s, v, refs);
    NoMembers(r, s, v);
    assert Asserts(s.fields, v) <==> v.Array?;
    if v.Array? { ItemsOf(r, s, v); }
  }

  lemma ArrayMeans(accepts: Verdict, r: Rules, item: Value, capacity: nat, v: Value, refs: nat)
    requires Decides(accepts, r)
    ensures accepts(ArraySchema(item, capacity), v, refs) <==>
            v.Array? && |v.items| == capacity &&
            forall i :: 0 <= i < |v.items| ==> accepts(item, v.items[i], r.limit)
  {
    Keywords();
    var s := ArraySchema(item, capacity);
    assert s.fields["type"] == Text("array") && s.fields["items"] == item;
    assert s.fields["minItems"] == s.fields["maxItems"] == Number(capacity);
    PlainSchema(r, s, v, refs);
    NoMembers(r, s, v);
    assert Asserts(s.fields, v) <==> v.Array? && |v.items| == capacity;
    if v.Array? { ItemsOf(r, s, v); }
  }

  lemma MapMeans(accepts: Verdict, r: Rules, value: Value, keyPath: string, v: Value, refs: nat)
    requires Decides(accepts, r)
    ensures accepts(MapSchema(value, keyPath), v, refs) <==>
            v.Object? && forall k :: k in v.fields ==> accepts(value, v.fields[k], r.limit)
  {
    MapKeywords(value, keyPath);
    MapLikeMeans(r, MapSchema(value, keyPath), value, v, refs);
  }

  lemma MapKeywords(value: Value, keyPath: string)
    ensures var f := MapSchema(value, keyPath).fields;
            {"type", "additionalProperties"} <= f.Keys <= {"type", "additionalProperties", "description"} &&
            f["type"] == Text("object") && f["additionalProperties"] == value &&
            ("description" in f ==> f["description"].Text?)
  {
    assert |"type"| == 4 && |"description"| == 11 && |"additionalProperties"| == 20;
    var f := MapSchema(value, keyPath).fields;
    var text := Text("JSON map keys are strings; reflected key type is `" + keyPath + "`");
    var base := map["type" := Text("object"), "additionalProperties" := value];
    assert f == if IsStringLike(keyPath) then base else base["description" := text];
  }

  lemma MapLikeMeans(r: Rules, s: Value, value: Value, v: Value, refs: nat)
    requires s.Object?
    requires {"type", "additionalProperties"} <= s.fields.Keys <= {"type", "additionalProperties", "description"}
    requires s.fields["type"] == Text("object") && s.fields["additionalProperties"] == value
    ensures Valid(r, s, v, refs) <==>
            v.Object? && forall k :: k in v.fields ==> Valid(r, value, v.fields[k], r.limit)
  {
    Keywords();
    PlainSchema(r, s, v, refs);
    NoItems(r, s, v);
    if v.Object? { MembersOf(r, s, v); }
    assert Asserts(s.fields, v) <==> v.Object?;
  }

  lemma ObjectMeans(
    accepts: Verdict, r: Rules, properties: map<string, Value>, required: seq<string>, v: Value, refs: nat)
    requires Decides(accepts, r)
    ensures accepts(ObjectSchema(properties, required), v, refs) <==>
            v.Object? && (forall name :: name in required ==> name in v.fields) &&
            forall k :: k in v.fields ==> k in properties && accepts(properties[k], v.fields[k], r.limit)
  {
    Keywords();
    var s := ObjectSchema(properties, required);
    assert forall k :: k in s.fields ==> k in {"type", "properties", "additionalProperties", "required"};
    PlainSchema(r, s, v, refs);
    NoItems(r, s, v);
    assert s.fields["type"] == Text("object");
    assert Asserts(s.fields, v) <==> v.Object?;
    if v.Object? { ObjectMembers(r, properties, required, v); }
  }

  lemma ObjectMembers(r: Rules, properties: map<string, Value>, required: seq<string>, v: Value)
    requires v.Object?
    ensures MembersValid(r, ObjectSchema(properties, required), v) <==>
            (forall name :: name in required ==> name in v.fields) &&
            forall k :: k in v.fields ==> k in properties && Valid(r, properties[k], v.fields[k], r.limit)
  {
    MembersOf(r, ObjectSchema(properties, required), v);
    Keywords();
    var f := ObjectSchema(properties, required).fields;
    assert f["properties"] == Object(properties) && f["additionalProperties"] == Bool(false);
    assert "required" in f <==> required != [];
    assert required != [] ==> f["required"] == Texts(required);
    AllRequired(required, v.fields);
    forall k | k in v.fields { NothingIsValidAgainstFalse(r, v.fields[k], r.limit); }
    assert PropertySchemas(f) == properties;
  }

  lemma AllRequired(required: seq<string>, members: map<string, Value>)
    ensures AllIn(Texts(required).items, members) <==> forall name :: name in required ==> name in members
  {
    var names := Texts(required).items;
    if AllIn(names, members) {
      forall name | name in required
        ensures name in members
      {
        var i :| 0 <= i < |required| && required[i] == name;
        assert names[i] == Text(name);
      }
    }
  }

  lemma NamedMeans(accepts: Verdict, r: Rules, name: string, inner: Value, v: Value, refs: nat)
    requires Decides(accepts, r)
    ensures accepts(NamedVariant(name, inner), v, refs) <==>
            v.Object? && v.fields.Keys == {name} && accepts(inner, v.fields[name], r.limit)
  {
    Keywords();
    assert NamedVariant(name, inner) == ObjectSchema(map[name := inner], [name]);
    ObjectMeans(accepts, r, map[name := inner], [name], v, refs);
    assert name in [name];
  }

  lemma UnitMeans(accepts: Verdict, r: Rules, types: Types, name: string, v: Value, refs: nat)
    requires Decides(accepts, r)
    ensures accepts(VariantSchema(types, UnitVariant(name)), v, refs) <==> v == Text(name)
  {
    Keywords();
    var s := VariantSchema(types, UnitVariant(name));
    assert s.fields["type"] == Text("string") && s.fields["const"] == Text(name);
    PlainSchema(r, s, v, refs);
    NoMembers(r, s, v);
    NoItems(r, s, v);
  }
}
