/** The primitive types by their Rust meaning: which JSON values their values serialise to, which
    their schemas accept, and that the table of primitive schemas agrees. */
module PrimitiveValues {
  import opened Wrappers
  import opened Json
  import opened ReflectedTypes
  import opened PrimitiveSchemas
  import opened JsonSchema
  import opened SchemaShapes

  datatype Primitive = Unit | Boolean | Signed(bits: nat) | Unsigned(bits: nat) | Float | Character | Str

  const PRIMITIVE_MODULE: string := "core::primitive::"

  /** The primitive that a type path names, with or without its module. */
  function PrimitiveOf(path: string): Option<Primitive> {
    if IsStringLike(path) then Some(Str)
    else if path == "()" then Some(Unit)
    else if |path| > 17 && path[..17] == PRIMITIVE_MODULE then Bare(path[17..])
    else Bare(path)
  }

  function Bare(name: string): Option<Primitive> {
    if name == "bool" then Some(Boolean)
    else if name == "char" then Some(Character)
    else if name == "f32" || name == "f64" then Some(Float)
    else if name == "" then None
    else
      match Width(name[1..])
      case Some(bits) =>
        if name[0] == 'i' then Some(Signed(bits)) else if name[0] == 'u' then Some(Unsigned(bits)) else None
      case None => None
  }

  function Width(digits: string): Option<nat> {
    if digits == "8" then Some(8)
    else if digits == "16" then Some(16)
    else if digits == "32" then Some(32)
    else if digits == "64" || digits == "size" then Some(64)
    else if digits == "128" then Some(128)
    else None
  }

  function Power2(n: nat): nat {
    if n == 0 then 1 else 2 * Power2(n - 1)
  }

  /** `v` is what some value of the type serialises to. */
  predicate Serialises(p: Primitive, v: Value) {
    match p
    case Unit => v == Null
    case Boolean => v.Bool?
    case Signed(bits) => bits > 0 && v.Number? && -(Power2(bits - 1) as int) <= v.n < Power2(bits - 1)
    case Unsigned(bits) => v.Number? && 0 <= v.n < Power2(bits)
    case Float => IsNumber(v)   // a finite one
    case Character => v.Text? && |v.s| == 1
    case Str => v.Text?
  }

  /** What the schema of the type accepts: exactly the values up to 16 bits, any number of the right
      kind and sign beyond. */
  predicate Accepts(p: Primitive, v: Value) {
    match p
    case Unit => v == Null
    case Boolean => v.Bool?
    case Signed(bits) =>
      IsInteger(v) &&
      (0 < bits <= 16 ==> -(Power2(bits - 1) as real) <= NumberOf(v) < Power2(bits - 1) as real)
    case Unsigned(bits) => IsInteger(v) && NumberOf(v) >= 0.0 && (bits <= 16 ==> NumberOf(v) < Power2(bits) as real)
    case Float => IsNumber(v)
    case Character => v.Text? && |v.s| == 1
    case Str => v.Text?
  }

  lemma SerialisedIsAccepted(p: Primitive, v: Value)
    requires Serialises(p, v)
    ensures Accepts(p, v)
  {
  }

  function ShapeOf(p: Primitive): Shape {
    match p
    case Unit => Plain("null")
    case Boolean => Plain("boolean")
    case Signed(bits) =>
      if bits == 8 then Ranged(-128, 127) else if bits == 16 then Ranged(-32768, 32767) else Plain("integer")
    case Unsigned(bits) =>
      if bits == 8 then Ranged(0, 255) else if bits == 16 then Ranged(0, 65535) else NonNegative
    case Float => Plain("number")
    case Character => OneCharacter
    case Str => Plain("string")
  }

  // ---------------------------------------------------------------- the table of schemas

  lemma QualifiedName(name: string)
    requires name != ""
    ensures PrimitiveOf(PRIMITIVE_MODULE + name) == Bare(name)
  {
    var path := PRIMITIVE_MODULE + name;
    assert path[0] == 'c' && path[..17] == PRIMITIVE_MODULE && path[17..] == name;
    assert "alloc::string::String"[0] == 'a' && "std::string::String"[0] == 's' && "str"[0] == 's' && "&str"[0] == '&';
  }

  lemma ShortName(name: string)
    requires 0 < |name| <= 17 && name[0] in {'b', 'c', 'f', 'i', 'u'}
    ensures PrimitiveOf(name) == Bare(name)
  {
    assert "str"[0] == 's' && "&str"[0] == '&' && "()"[0] == '(';
    assert |"alloc::string::String"| == 21 && |"std::string::String"| == 19;
  }

  lemma Widths()
    ensures Width("8") == Some(8) && Width("16") == Some(16) && Width("32") == Some(32)
    ensures Width("64") == Some(64) && Width("size") == Some(64) && Width("128") == Some(128)
  {
    assert "16"[0] == '1' && "32"[0] == '3' && "64"[0] == '6';
  }

  /** A row holds the schema of the primitive that its paths name. */
  predicate RowOk(row: (seq<string>, Shape)) {
    forall j :: 0 <= j < |row.0| ==>
      PrimitiveOf(row.0[j]).Some? && row.1 == ShapeOf(PrimitiveOf(row.0[j]).value)
  }

  lemma BothNames(name: string, p: Primitive)
    requires 0 < |name| <= 17 && name[0] in {'b', 'c', 'f', 'i', 'u'} && Bare(name) == Some(p)
    ensures RowOk((Both(name), ShapeOf(p)))
  {
    QualifiedName(name);
    ShortName(name);
  }

  lemma IntegerRow(name: string, bits: nat)
    requires 1 < |name| <= 17 && name[0] in {'i', 'u'} && Width(name[1..]) == Some(bits)
    ensures RowOk((Both(name), ShapeOf(if name[0] == 'i' then Signed(bits) else Unsigned(bits))))
  {
    assert "bool"[0] == 'b' && "char"[0] == 'c' && "f32"[0] == 'f' && "f64"[0] == 'f';
    BothNames(name, if name[0] == 'i' then Signed(bits) else Unsigned(bits));
  }

  lemma SignedRows()
    ensures forall i :: 2 <= i < 8 ==> RowOk(PrimitiveRows()[i])
  {
    Widths();
    assert "i8"[1..] == "8" && "i16"[1..] == "16" && "i32"[1..] == "32" && "i64"[1..] == "64";
    assert "i128"[1..] == "128" && "isize"[1..] == "size";
    IntegerRow("i8", 8);
    IntegerRow("i16", 16);
    IntegerRow("i32", 32);
    IntegerRow("i64", 64);
    IntegerRow("i128", 128);
    IntegerRow("isize", 64);
  }

  lemma UnsignedRows()
    ensures forall i :: 8 <= i < 14 ==> RowOk(PrimitiveRows()[i])
  {
    Widths();
    assert "u8"[1..] == "8" && "u16"[1..] == "16" && "u32"[1..] == "32" && "u64"[1..] == "64";
    assert "u128"[1..] == "128" && "usize"[1..] == "size";
    IntegerRow("u8", 8);
    IntegerRow("u16", 16);
    IntegerRow("u32", 32);
    IntegerRow("u64", 64);
    IntegerRow("u128", 128);
    IntegerRow("usize", 64);
  }

  lemma OtherRows()
    ensures RowOk(PrimitiveRows()[0]) && RowOk(PrimitiveRows()[1]) && RowOk(PrimitiveRows()[17])
    ensures forall i :: 14 <= i < 17 ==> RowOk(PrimitiveRows()[i])
  {
    assert "bool"[0] == 'b' && "char"[0] == 'c' && "f32"[0] == 'f' && "f64"[0] == 'f';
    assert |"()"| == 2 && |"str"| == 3 && |"&str"| == 4;
    BothNames("bool", Boolean);
    BothNames("f32", Float);
    BothNames("f64", Float);
    BothNames("char", Character);
  }

  lemma RowsAreOk()
    ensures forall i :: 0 <= i < |PrimitiveRows()| ==> RowOk(PrimitiveRows()[i])
  {
    SignedRows();
    UnsignedRows();
    OtherRows();
  }

  lemma {:induction false} NamedHolds(paths: seq<string>, schema: Value, path: string)
    ensures path in PrimitiveSchemas.Named(paths, schema) <==> path in paths
    ensures path in paths ==> PrimitiveSchemas.Named(paths, schema)[path] == schema
  {
    if paths != [] { NamedHolds(paths[1..], schema, path); }
  }

  lemma {:induction false} TableHolds(rows: seq<(seq<string>, Shape)>, path: string)
    requires forall i :: 0 <= i < |rows| ==> RowOk(rows[i])
    ensures path in Table(rows) <==> exists i :: 0 <= i < |rows| && path in rows[i].0
    ensures path in Table(rows) ==>
              PrimitiveOf(path).Some? && Table(rows)[path] == Render(ShapeOf(PrimitiveOf(path).value))
  {
    if rows != [] {
      NamedHolds(rows[0].0, Render(rows[0].1), path);
      TableHolds(rows[1..], path);
      assert rows == [rows[0]] + rows[1..];
      assert path in rows[0].0 ==> RowOk(rows[0]);
    }
  }

  /** Every name of a primitive has its row. */
  lemma RowOfName(name: string) returns (i: nat)
    requires Bare(name).Some?
    ensures i < |PrimitiveRows()| && PrimitiveRows()[i].0 == Both(name)
  {
    var rows := PrimitiveRows();
    if name == "bool" { i := 1; }
    else if name == "char" { i := 16; }
    else if name == "f32" { i := 14; }
    else if name == "f64" { i := 15; }
    else {
      var digits := name[1..];
      i := if digits == "8" then 2 else if digits == "16" then 3 else if digits == "32" then 4
           else if digits == "64" then 5 else if digits == "128" then 6 else 7;
      if name[0] == 'u' { i := i + 6; }
      IntegerRowName(name, i);
    }
  }

  lemma IntegerRowName(name: string, i: nat)
    requires name != "" && name[0] in {'i', 'u'} && Width(name[1..]).Some?
    requires var digits := name[1..];
             i == (if digits == "8" then 2 else if digits == "16" then 3 else if digits == "32" then 4
                   else if digits == "64" then 5 else if digits == "128" then 6 else 7) +
                  (if name[0] == 'u' then 6 else 0)
    ensures i < |PrimitiveRows()| && PrimitiveRows()[i].0 == Both(name)
  {
    var digits := name[1..];
    assert name == [name[0]] + digits;
    assert ['i'] + "8" == "i8" && ['i'] + "16" == "i16" && ['i'] + "32" == "i32" && ['i'] + "64" == "i64";
    assert ['i'] + "128" == "i128" && ['i'] + "size" == "isize";
    assert ['u'] + "8" == "u8" && ['u'] + "16" == "u16" && ['u'] + "32" == "u32" && ['u'] + "64" == "u64";
    assert ['u'] + "128" == "u128" && ['u'] + "size" == "usize";
  }

  /** The table holds a schema exactly for the paths of primitives, and for each its own. */
  lemma TableIsOfPrimitives(path: string)
    ensures path in Table(PrimitiveRows()) <==> PrimitiveOf(path).Some?
    ensures PrimitiveOf(path).Some? ==>
              Table(PrimitiveRows())[path] == Render(ShapeOf(PrimitiveOf(path).value))
  {
    RowsAreOk();
    TableHolds(PrimitiveRows(), path);
    if PrimitiveOf(path).Some? {
      var i := RowOfPath(path);
    }
  }

  lemma RowOfPath(path: string) returns (i: nat)
    requires PrimitiveOf(path).Some?
    ensures i < |PrimitiveRows()| && path in PrimitiveRows()[i].0
  {
    if IsStringLike(path) {
      i := 17;
      assert path in PrimitiveRows()[17].0;
    } else if path == "()" {
      i := 0;
      assert PrimitiveRows()[0].0 == ["()"];
    } else if |path| > 17 && path[..17] == PRIMITIVE_MODULE {
      i := RowOfName(path[17..]);
      assert path == PRIMITIVE_MODULE + path[17..] == Both(path[17..])[1];
    } else {
      i := RowOfName(path);
      assert path == Both(path)[0];
    }
  }

  lemma Powers()
    ensures Power2(7) == 128 && Power2(8) == 256 && Power2(15) == 32768 && Power2(16) == 65536
  {
    assert Power2(4) == 16;
    assert Power2(8) == 256;
    assert Power2(12) == 4096;
  }

  predicate ShapeAccepts(shape: Shape, v: Value) {
    match shape
    case Plain(name) => HasType(name, v)
    case Ranged(low, high) => IsInteger(v) && low as real <= NumberOf(v) <= high as real
    case NonNegative => IsInteger(v) && NumberOf(v) >= 0.0
    case OneCharacter => v.Text? && |v.s| == 1
  }

  lemma ShapeMeans(accepts: Verdict, r: Rules, shape: Shape, v: Value, refs: nat)
    requires Decides(accepts, r)
    ensures accepts(Render(shape), v, refs) <==> ShapeAccepts(shape, v)
  {
    var s := Render(shape);
    ScalarKeywordsMean(r, s, v, refs);
    ShapeAsserts(shape, v);
    assert accepts(s, v, refs) == Valid(r, s, v, refs);
  }

  /** A schema with scalar keywords only asserts on the value itself. */
  lemma ScalarKeywordsMean(r: Rules, s: Value, v: Value, refs: nat)
    requires s.Object?
    requires s.fields.Keys <= {"type", "minimum", "maximum", "minLength", "maxLength"}
    ensures Valid(r, s, v, refs) <==> Asserts(s.fields, v)
  {
    Keywords();
    PlainSchema(r, s, v, refs);
    NoMembers(r, s, v);
    NoItems(r, s, v);
  }

  lemma ShapeAsserts(shape: Shape, v: Value)
    ensures Render(shape).Object? && (Asserts(Render(shape).fields, v) <==> ShapeAccepts(shape, v))
  {
    Keywords();
    TypeNames(v);
    var f := Render(shape).fields;
    match shape
    case Plain(name) => assert f == map["type" := Text(name)];
    case Ranged(low, high) =>
      assert f["type"] == Text("integer") && f["minimum"] == Number(low) && f["maximum"] == Number(high);
    case NonNegative => assert f["type"] == Text("integer") && f["minimum"] == Number(0);
    case OneCharacter =>
      assert f["type"] == Text("string") && f["minLength"] == f["maxLength"] == Number(1);
  }

  predicate KnownWidth(p: Primitive) {
    p.Signed? || p.Unsigned? ==> p.bits in {8, 16, 32, 64, 128}
  }

  lemma ShapeFits(p: Primitive, v: Value)
    requires KnownWidth(p)
    ensures ShapeAccepts(ShapeOf(p), v) <==> Accepts(p, v)
  {
    Powers();
    TypeNames(v);
    if IsInteger(v) {
      var n := NumberOf(v).Floor;
      assert NumberOf(v) == n as real;
      assert 127.0 >= NumberOf(v) <==> NumberOf(v) < 128.0;
      assert 32767.0 >= NumberOf(v) <==> NumberOf(v) < 32768.0;
      assert 255.0 >= NumberOf(v) <==> NumberOf(v) < 256.0;
      assert 65535.0 >= NumberOf(v) <==> NumberOf(v) < 65536.0;
    }
  }

  lemma PrimitivesHaveKnownWidth(path: string)
    ensures PrimitiveOf(path).Some? ==> KnownWidth(PrimitiveOf(path).value)
  {
  }

  /** The schema of a primitive accepts what it should. */
  lemma PrimitiveMeans(accepts: Verdict, r: Rules, p: Primitive, v: Value, refs: nat)
    requires Decides(accepts, r) && KnownWidth(p)
    ensures accepts(Render(ShapeOf(p)), v, refs) <==> Accepts(p, v)
  {
    ShapeMeans(accepts, r, ShapeOf(p), v, refs);
    ShapeFits(p, v);
  }

  lemma TypeNames(v: Value)
    ensures HasType("null", v) <==> v == Null
    ensures HasType("boolean", v) <==> v.Bool?
    ensures HasType("integer", v) <==> IsInteger(v)
    ensures HasType("number", v) <==> IsNumber(v)
    ensures HasType("string", v) <==> v.Text?
    ensures HasType("array", v) <==> v.Array?
    ensures HasType("object", v) <==> v.Object?
  {
    assert "null"[0] == 'n' && "boolean"[0] == 'b' && "integer"[0] == 'i' && "number"[1] == 'u';
    assert "string"[0] == 's' && "array"[0] == 'a' && "object"[0] == 'o' && "number"[0] == 'n';
  }
}
