/** The schemas of primitive types, for which no definition is generated. */
module PrimitiveSchemas {
  import opened Json
  import opened ReflectedTypes

  datatype Shape =
    | Plain(name: string)
    | Ranged(low: int, high: int)
    | NonNegative
    | OneCharacter

  function Render(shape: Shape): Value {
    match shape
    case Plain(name) => TypeOnly(name)
    case Ranged(low, high) =>
      Object(map["type" := Text("integer"), "minimum" := Number(low), "maximum" := Number(high)])
    case NonNegative => Object(map["type" := Text("integer"), "minimum" := Number(0)])
    case OneCharacter =>
      Object(map["type" := Text("string"), "minLength" := Number(1), "maxLength" := Number(1)])
  }

  /** A primitive goes by its name, alone or with its module. */
  function Both(name: string): seq<string> {
    [name, "core::primitive::" + name]
  }

  /** The arms of `primitive_schema_for_type_path`: paths, and the schema they get. */
  function PrimitiveRows(): seq<(seq<string>, Shape)> {
    [(["()"], Plain("null")),
     (Both("bool"), Plain("boolean")),
     (Both("i8"), Ranged(-128, 127)),
     (Both("i16"), Ranged(-32768, 32767)),
     (Both("i32"), Plain("integer")),
     (Both("i64"), Plain("integer")),
     (Both("i128"), Plain("integer")),
     (Both("isize"), Plain("integer")),
     (Both("u8"), Ranged(0, 255)),
     (Both("u16"), Ranged(0, 65535)),
     (Both("u32"), NonNegative),
     (Both("u64"), NonNegative),
     (Both("u128"), NonNegative),
     (Both("usize"), NonNegative),
     (Both("f32"), Plain("number")),
     (Both("f64"), Plain("number")),
     (Both("char"), OneCharacter),
     (["alloc::string::String", "std::string::String", "str", "&str"], Plain("string"))]
  }

  /** The same schema under several paths. */
  function Named(paths: seq<string>, schema: Value): map<string, Value> {
    if paths == [] then map[] else Named(paths[1..], schema)[paths[0] := schema]
  }

  function Table(rows: seq<(seq<string>, Shape)>): map<string, Value> {
    if rows == [] then map[] else Table(rows[1..]) + Named(rows[0].0, Render(rows[0].1))
  }

  lemma ShapeIsPlain(shape: Shape)
    ensures Render(shape).Object? && Render(shape) != Object(map[]) && !HasRef(Render(shape))
  {
    assert REF[0] == '$';
    assert "type" in Render(shape).fields;
    assert REF !in Render(shape).fields;
  }

  lemma {:induction false} NamedHoldsSchema(paths: seq<string>, schema: Value)
    ensures forall p :: p in Named(paths, schema) ==> Named(paths, schema)[p] == schema
  {
    if paths != [] { NamedHoldsSchema(paths[1..], schema); }
  }

  /** No primitive schema contains a reference or is empty, as the builder assumes. */
  lemma {:induction false} PrimitivesArePlain(rows: seq<(seq<string>, Shape)>)
    ensures PlainTable(Table(rows))
  {
    if rows != [] {
      PrimitivesArePlain(rows[1..]);
      ShapeIsPlain(rows[0].1);
      NamedHoldsSchema(rows[0].0, Render(rows[0].1));
    }
  }

  /** The reflection data of a registry, with the source's own table of primitives. */
  function Reflection(infos: map<string, TypeInfo>, registered: set<string>): Types {
    Types(infos, registered, Table(PrimitiveRows()))
  }

  /** The source's own table is plain, so complete reflection data is all the builder needs. */
  lemma ReflectionIsWellFormed(infos: map<string, TypeInfo>, registered: set<string>)
    ensures WellFormed(Reflection(infos, registered)) <==> Complete(Reflection(infos, registered))
  {
    PrimitivesArePlain(PrimitiveRows());
  }
}
