/**
 * The conversions the repository's tests exercise, as facts about the model:
 * a one-column result of one or several rows, a four-column row read by name
 * into derived structs and by position into tuples, and parameters written
 * for three descriptors.
 */
module Scenarios {
  import opened Wrappers
  import opened Shapes
  import opened DeserializationErrors
  import opened MockValues
  import opened FieldNamesMeta
  import opened FieldReader
  import opened RowSpec
  import opened RsSpec
  import opened RowLaws
  import opened RsLaws
  import opened SerializationErrors
  import opened SerValues
  import opened ParamSerializer
  import PT = ParameterTypes
  import MockFactory

  /** The one-column result set of the 1x1 and mx1 tests: column `f1`. */
  const OneColumn := New(["f1"])

  /** `struct TestDataMin { f1: String }`. */
  const TestDataMin := Struct([Field("f1", Prim(Str))])

  /** A 1x1 result holding "a" reads as a `String`. */
  lemma OneByOneIntoString()
    ensures ConvertRs(Ok(false), OneColumn, Stream([[String("a")]]), Prim(Str)) == Ok(Text("a"))
  {
    OneRowReadAsRow(OneColumn, [String("a")], Prim(Str));
    RowCollapse(OneColumn, [String("a")], Prim(Str));
  }

  /** A 1x1 result holding "a" reads as a one-field struct. */
  lemma OneByOneIntoStruct()
    ensures ConvertRs(Ok(false), OneColumn, Stream([[String("a")]]), TestDataMin) == Ok(StructV([Text("a")]))
  {
    OneRowReadAsRow(OneColumn, [String("a")], TestDataMin);
    OneColumnStruct();
  }

  /** Column `f1` is the struct's field 0: its value fills that slot, and the row then ends. */
  lemma OneColumnStruct()
    ensures ConvertRow(OneColumn, [String("a")], TestDataMin) == Ok(StructV([Text("a")]))
  {
    var vs := [String("a")];
    assert ColumnName(OneColumn, vs) == "f1";
    assert FieldIndex(TestDataMin.fields, "f1") == Some(0);
    assert ReadRow(Done, OneColumn, vs, Prim(Str)) == RowStep(Ok(Text("a")), Done, []);
    assert Finish(TestDataMin.fields, [Some(Text("a"))], 1) == Ok([]);
    assert [Text("a")] + [] == [Text("a")];
    assert Finish(TestDataMin.fields, [Some(Text("a"))], 0) == Ok([Text("a")]);
    assert ReadStructCols(OneColumn, [], TestDataMin.fields, [Some(Text("a"))]).result == Ok(StructV([Text("a")]));
    assert NextKey(OneColumn, vs) == Some("f1");
    assert NextValueSeed(Done, OneColumn, vs, Prim(Str)) == RowStep(Ok(Text("a")), Done, []);
    assert NoSlots(1)[0 := Some(Text("a"))] == [Some(Text("a"))];
    assert ReadStructCols(OneColumn, vs, TestDataMin.fields, NoSlots(1)).result == Ok(StructV([Text("a")]));
    assert InitialNeed(|vs|) == Can;
  }

  /** A 1x1 result holding "a" reads as a `Vec<String>` of one element. */
  lemma OneByOneIntoVec()
    ensures ConvertRs(Ok(false), OneColumn, Stream([[String("a")]]), Seq(Prim(Str))) == Ok(SeqV([Text("a")]))
  {
    RowCollapse(OneColumn, [String("a")], Prim(Str));
    VecOfConvertedRows(false, OneColumn, [[String("a")]], Prim(Str), [Text("a")]);
  }

  /** A 1x1 result holding "a" reads as a `Vec<TestDataMin>` of one element. */
  lemma OneByOneIntoVecOfStruct()
    ensures ConvertRs(Ok(false), OneColumn, Stream([[String("a")]]), Seq(TestDataMin)) == Ok(SeqV([StructV([Text("a")])]))
  {
    OneColumnStruct();
    VecOfConvertedRows(false, OneColumn, [[String("a")]], TestDataMin, [StructV([Text("a")])]);
  }

  /** More than one row of "a", "b": a `Vec<String>` takes them all, in row order. */
  lemma ManyByOneIntoVec()
    ensures ConvertRs(Ok(true), OneColumn, Stream([[String("a")], [String("b")]]), Seq(Prim(Str)))
            == Ok(SeqV([Text("a"), Text("b")]))
  {
    RowCollapse(OneColumn, [String("a")], Prim(Str));
    RowCollapse(OneColumn, [String("b")], Prim(Str));
    VecOfConvertedRows(true, OneColumn, [[String("a")], [String("b")]], Prim(Str), [Text("a"), Text("b")]);
  }

  /** More than one row cannot collapse into a `String` or a `TestDataMin`. */
  lemma ManyByOneNotIntoValue()
    ensures ConvertRs(Ok(true), OneColumn, Stream([[String("a")], [String("b")]]), Prim(Str)) == Err(TrailingRows)
    ensures ConvertRs(Ok(true), OneColumn, Stream([[String("a")], [String("b")]]), TestDataMin) == Err(TrailingRows)
  {
    ManyRowsRefused(OneColumn, [[String("a")], [String("b")]], Prim(Str));
    ManyRowsRefused(OneColumn, [[String("a")], [String("b")]], TestDataMin);
  }

  /** The four-column result set of the mxn tests: `f1` .. `f4`. */
  const FourColumns := New(["f1", "f2", "f3", "f4"])

  /** A row of the mxn tests: a string, a timestamp and two shorts. */
  function Row4(a: string, t: NaiveDateTime, x: i16, y: i16): (row: seq<MValue>)
    ensures Fits(FourColumns, row)
  {
    [String(a), Timestamp(t), Short(x), Short(y)]
  }

  /**
   * `struct TestData { f1: String, f4: Option<i32>, f3: i32, f2: NaiveDateTime }`;
   * a `NaiveDateTime` is read through its `String` form.
   */
  const TestData := Struct([Field("f1", Prim(Str)), Field("f4", Opt(Prim(I32))), Field("f3", Prim(I32)), Field("f2", Prim(Str))])

  /** The columns fill TestData's fields by name, whatever the declaration order. */
  lemma RowIntoTestData(a: string, t: NaiveDateTime, x: i16, y: i16)
    ensures ConvertRow(FourColumns, Row4(a, t, x, y), TestData)
            == Ok(StructV([Text(a), SomeV(Int(y)), Int(x), Text(t.display)]))
  {
    var fields := TestData.fields;
    var s4 := [Some(Text(a)), Some(SomeV(Int(y))), Some(Int(x)), Some(Text(t.display))];
    TestDataColumns(a, t, x, y);
    StructEnd(FourColumns, fields, s4);
    FinishFills(fields, s4, 0);
    var f := Finish(fields, s4, 0);
    assert f.value == [Text(a), SomeV(Int(y)), Int(x), Text(t.display)];
    StructRowUnfold(Must, FourColumns, Row4(a, t, x, y), fields);
  }

  /** Column by column, each value lands in the slot of the field its column names. */
  lemma TestDataColumns(a: string, t: NaiveDateTime, x: i16, y: i16)
    ensures SlotsConform(TestData.fields, [Some(Text(a)), Some(SomeV(Int(y))), Some(Int(x)), Some(Text(t.display))])
    ensures ReadStructCols(FourColumns, Row4(a, t, x, y), TestData.fields, NoSlots(4)) ==
            ReadStructCols(FourColumns, [], TestData.fields, [Some(Text(a)), Some(SomeV(Int(y))), Some(Int(x)), Some(Text(t.display))])
  {
    TestDataF1(a, t, x, y);
    TestDataF2(a, t, x, y);
    TestDataF3(a, t, x, y);
    TestDataF4(a, t, x, y);
  }

  lemma TestDataF1(a: string, t: NaiveDateTime, x: i16, y: i16)
    ensures SlotsConform(TestData.fields, [Some(Text(a)), None, None, None])
    ensures ReadStructCols(FourColumns, Row4(a, t, x, y), TestData.fields, NoSlots(4)) ==
            ReadStructCols(FourColumns, [Timestamp(t), Short(x), Short(y)], TestData.fields, [Some(Text(a)), None, None, None])
  {
    var row := Row4(a, t, x, y);
    var slots := NoSlots(4);
    assert ColumnName(FourColumns, row) == "f1";
    assert LeafShape(TestData.fields[0].shape) == Prim(Str);
    assert ReadField(String(a), Prim(Str)) == Ok(Text(a));
    assert row[1..] == [Timestamp(t), Short(x), Short(y)];
    assert slots[0 := Some(Text(a))] == [Some(Text(a)), None, None, None];
    StructStep(FourColumns, row, TestData.fields, slots, 0);
  }

  lemma TestDataF2(a: string, t: NaiveDateTime, x: i16, y: i16)
    requires SlotsConform(TestData.fields, [Some(Text(a)), None, None, None])
    ensures SlotsConform(TestData.fields, [Some(Text(a)), None, None, Some(Text(t.display))])
    ensures ReadStructCols(FourColumns, [Timestamp(t), Short(x), Short(y)], TestData.fields, [Some(Text(a)), None, None, None]) ==
            ReadStructCols(FourColumns, [Short(x), Short(y)], TestData.fields, [Some(Text(a)), None, None, Some(Text(t.display))])
  {
    var vs := [Timestamp(t), Short(x), Short(y)];
    var slots: Slots := [Some(Text(a)), None, None, None];
    assert ColumnName(FourColumns, vs) == "f2";
    assert LeafShape(TestData.fields[3].shape) == Prim(Str);
    assert ReadField(Timestamp(t), Prim(Str)) == Ok(Text(t.display));
    assert vs[1..] == [Short(x), Short(y)];
    assert slots[3 := Some(Text(t.display))] == [Some(Text(a)), None, None, Some(Text(t.display))];
    StructStep(FourColumns, vs, TestData.fields, slots, 3);
  }

  lemma TestDataF3(a: string, t: NaiveDateTime, x: i16, y: i16)
    requires SlotsConform(TestData.fields, [Some(Text(a)), None, None, Some(Text(t.display))])
    ensures SlotsConform(TestData.fields, [Some(Text(a)), None, Some(Int(x)), Some(Text(t.display))])
    ensures ReadStructCols(FourColumns, [Short(x), Short(y)], TestData.fields, [Some(Text(a)), None, None, Some(Text(t.display))]) ==
            ReadStructCols(FourColumns, [Short(y)], TestData.fields, [Some(Text(a)), None, Some(Int(x)), Some(Text(t.display))])
  {
    var vs := [Short(x), Short(y)];
    var slots: Slots := [Some(Text(a)), None, None, Some(Text(t.display))];
    assert ColumnName(FourColumns, vs) == "f3";
    assert LeafShape(TestData.fields[2].shape) == Prim(I32);
    assert ReadField(Short(x), Prim(I32)) == Ok(Int(x));
    assert vs[1..] == [Short(y)];
    assert slots[2 := Some(Int(x))] == [Some(Text(a)), None, Some(Int(x)), Some(Text(t.display))];
    StructStep(FourColumns, vs, TestData.fields, slots, 2);
  }

  lemma TestDataF4(a: string, t: NaiveDateTime, x: i16, y: i16)
    requires SlotsConform(TestData.fields, [Some(Text(a)), None, Some(Int(x)), Some(Text(t.display))])
    ensures SlotsConform(TestData.fields, [Some(Text(a)), Some(SomeV(Int(y))), Some(Int(x)), Some(Text(t.display))])
    ensures ReadStructCols(FourColumns, [Short(y)], TestData.fields, [Some(Text(a)), None, Some(Int(x)), Some(Text(t.display))]) ==
            ReadStructCols(FourColumns, [], TestData.fields, [Some(Text(a)), Some(SomeV(Int(y))), Some(Int(x)), Some(Text(t.display))])
  {
    var vs := [Short(y)];
    var slots: Slots := [Some(Text(a)), None, Some(Int(x)), Some(Text(t.display))];
    assert ColumnName(FourColumns, vs) == "f4";
    assert LeafShape(TestData.fields[1].shape) == Opt(Prim(I32));
    assert ReadField(Short(y), Opt(Prim(I32))) == Ok(SomeV(Int(y)));
    assert vs[1..] == [];
    assert slots[1 := Some(SomeV(Int(y)))] == [Some(Text(a)), Some(SomeV(Int(y))), Some(Int(x)), Some(Text(t.display))];
    StructStep(FourColumns, vs, TestData.fields, slots, 1);
  }

  /** A row of four columns cannot collapse into a single `String`. */
  lemma RowNotIntoString(a: string, t: NaiveDateTime, x: i16, y: i16)
    ensures ConvertRow(FourColumns, Row4(a, t, x, y), Prim(Str)) == Err(TrailingCols)
  {
    RowCollapse(FourColumns, Row4(a, t, x, y), Prim(Str));
  }

  /** `(String, NaiveDateTime, i32, Option<i32>)` followed by one more `i32`. */
  const Elements := [Prim(Str), Prim(Str), Prim(I32), Opt(Prim(I32)), Prim(I32)]

  lemma Row4Reads(a: string, t: NaiveDateTime, x: i16, y: i16, n: nat)
    requires 3 <= n <= 5
    ensures ElementsRead(Row4(a, t, x, y), Elements[..n], 0)
  {
    var row := Row4(a, t, x, y);
    assert ReadField(row[0], Prim(Str)).Ok? && ReadField(row[1], Prim(Str)).Ok?;
    assert ReadField(row[2], Prim(I32)).Ok? && ReadField(row[3], Opt(Prim(I32))).Ok?;
    assert ReadField(row[3], Prim(I32)).Ok?;
  }

  /**
   * A row reads as a tuple of its four columns, and as a tuple of only the
   * first three (the fourth value is left over); a five-element tuple runs
   * out of values.
   */
  lemma RowIntoTuples(a: string, t: NaiveDateTime, x: i16, y: i16)
    ensures ConvertRow(FourColumns, Row4(a, t, x, y), Tuple(Elements[..4])).Ok?
    ensures ConvertRow(FourColumns, Row4(a, t, x, y), Tuple(Elements[..3])).Ok?
    ensures ConvertRow(FourColumns, Row4(a, t, x, y), Tuple(Elements)) == Err(SerdeError(InvalidLength))
  {
    var row := Row4(a, t, x, y);
    assert InitialNeed(|row|) == Must;
    Row4Reads(a, t, x, y, 4);
    TupleOutcome(Must, FourColumns, row, Elements[..4]);
    Row4Reads(a, t, x, y, 3);
    TupleOutcome(Must, FourColumns, row, Elements[..3]);
    Row4Reads(a, t, x, y, 5);
    assert Elements[..5] == Elements;
    TupleOutcome(Must, FourColumns, row, Elements);
  }

  /** `struct ShortData { f1: String, f2: NaiveDateTime, f4: Option<i32> }`: it has no field for column `f3`. */
  const ShortData := Struct([Field("f1", Prim(Str)), Field("f2", Prim(Str)), Field("f4", Opt(Prim(I32)))])

  /** Column `f3` is reported as an unknown field once `f1` and `f2` have been read. */
  lemma RowNotIntoShortData(a: string, t: NaiveDateTime, x: i16, y: i16)
    ensures ConvertRow(FourColumns, Row4(a, t, x, y), ShortData) == Err(UnknownField("f3"))
  {
    StructRowUnfold(Must, FourColumns, Row4(a, t, x, y), ShortData.fields);
    ShortDataF1(a, t, x, y);
    ShortDataRest(a, t, x, y);
  }

  lemma ShortDataF1(a: string, t: NaiveDateTime, x: i16, y: i16)
    ensures SlotsConform(ShortData.fields, [Some(Text(a)), None, None])
    ensures ReadStructCols(FourColumns, Row4(a, t, x, y), ShortData.fields, NoSlots(3)) ==
            ReadStructCols(FourColumns, [Timestamp(t), Short(x), Short(y)], ShortData.fields, [Some(Text(a)), None, None])
  {
    var row, fields := Row4(a, t, x, y), ShortData.fields;
    var slots := NoSlots(3);
    assert ColumnName(FourColumns, row) == "f1";
    assert LeafShape(fields[0].shape) == Prim(Str);
    assert ReadField(String(a), Prim(Str)) == Ok(Text(a));
    assert row[1..] == [Timestamp(t), Short(x), Short(y)];
    assert slots[0 := Some(Text(a))] == [Some(Text(a)), None, None];
    StructStep(FourColumns, row, fields, slots, 0);
  }

  lemma ShortDataRest(a: string, t: NaiveDateTime, x: i16, y: i16)
    ensures SlotsConform(ShortData.fields, [Some(Text(a)), None, None])
    ensures ReadStructCols(FourColumns, [Timestamp(t), Short(x), Short(y)], ShortData.fields, [Some(Text(a)), None, None]).result
            == Err(UnknownField("f3"))
  {
    var vs, fields := [Timestamp(t), Short(x), Short(y)], ShortData.fields;
    var slots: Slots := [Some(Text(a)), None, None];
    assert ColumnName(FourColumns, vs) == "f2";
    assert LeafShape(fields[1].shape) == Prim(Str);
    assert ReadField(Timestamp(t), Prim(Str)) == Ok(Text(t.display));
    assert vs[1..] == [Short(x), Short(y)];
    StructStep(FourColumns, vs, fields, slots, 1);
    assert ColumnName(FourColumns, [Short(x), Short(y)]) == "f3";
    UnknownF3(slots[1 := Some(Text(t.display))], x, y);
  }

  lemma UnknownF3(slots: Slots, x: i16, y: i16)
    requires SlotsConform(ShortData.fields, slots)
    ensures ReadStructCols(FourColumns, [Short(x), Short(y)], ShortData.fields, slots).result == Err(UnknownField("f3"))
  {
    assert ColumnName(FourColumns, [Short(x), Short(y)]) == "f3";
    assert FieldIndex(ShortData.fields, "f3") == None;
  }

  /** Three `i32` columns written from a tuple of a plain value, a present `Option` and a missing one. */
  const Shorts := [PT.Short, PT.NullableShort, PT.NullableShort]

  /**
   * `to_params` turns `(a, Some(b), None)` of `i32` values that fit into 16
   * bits into one database value per descriptor, and a row of those values
   * reads back as the same tuple.
   */
  lemma ParamsReadBack(parse: MockFactory.TimestampParser, a: i32, b: i32)
    requires InRange(I16, a) && InRange(I16, b)
    ensures Params(parse, TupleValue([Scalar(PI32(a)), SomeValue(Scalar(PI32(b))), NoneValue]), Shorts)
            == Ok([Short(a), Short(b), Null])
    ensures ConvertRow(New(["c1", "c2", "c3"]), [Short(a), Short(b), Null], Tuple([Prim(I32), Opt(Prim(I32)), Opt(Prim(I32))]))
            == Ok(TupleV([Int(a), SomeV(Int(b)), NoneV]))
  {
    var items := [Scalar(PI32(a)), SomeValue(Scalar(PI32(b))), NoneValue];
    var w3 := Writer([], [Short(a), Short(b), Null]);
    WriteShorts(parse, a, b);
    assert Write(parse, Writer(Shorts, []), TupleValue(items)) == WriteAll(parse, Writer(Shorts, []), items);
    TupleReadBack(a, b);
  }

  lemma WriteShorts(parse: MockFactory.TimestampParser, a: i32, b: i32)
    requires InRange(I16, a) && InRange(I16, b)
    ensures WriteAll(parse, Writer(Shorts, []), [Scalar(PI32(a)), SomeValue(Scalar(PI32(b))), NoneValue])
            == (Pass, Writer([], [Short(a), Short(b), Null]))
  {
    var items := [Scalar(PI32(a)), SomeValue(Scalar(PI32(b))), NoneValue];
    var w1 := Writer([PT.NullableShort, PT.NullableShort], [Short(a)]);
    var w2 := Writer([PT.NullableShort], [Short(a), Short(b)]);
    var w3 := Writer([], [Short(a), Short(b), Null]);
    WriteFirst(parse, a);
    WriteSecond(parse, a, b);
    WriteThird(parse, a, b);
    assert items[1..][1..] == [NoneValue];
    assert WriteAll(parse, w2, [NoneValue]) == (Pass, w3);
    assert WriteAll(parse, w1, items[1..]) == (Pass, w3);
  }

  lemma WriteFirst(parse: MockFactory.TimestampParser, a: i32)
    requires InRange(I16, a)
    ensures Write(parse, Writer(Shorts, []), Scalar(PI32(a))) == (Pass, Writer([PT.NullableShort, PT.NullableShort], [Short(a)]))
  {
    assert MockFactory.FromPrimitive(parse, PT.Short, PI32(a)) == Ok(Short(a));
    assert Shorts[1..] == [PT.NullableShort, PT.NullableShort];
    assert [] + [Short(a)] == [Short(a)];
  }

  lemma WriteSecond(parse: MockFactory.TimestampParser, a: i32, b: i32)
    requires InRange(I16, a) && InRange(I16, b)
    ensures Write(parse, Writer([PT.NullableShort, PT.NullableShort], [Short(a)]), SomeValue(Scalar(PI32(b))))
            == (Pass, Writer([PT.NullableShort], [Short(a), Short(b)]))
  {
    assert MockFactory.FromPrimitive(parse, PT.NullableShort, PI32(b)) == Ok(Short(b));
    assert [PT.NullableShort, PT.NullableShort][1..] == [PT.NullableShort];
    assert [Short(a)] + [Short(b)] == [Short(a), Short(b)];
  }

  lemma WriteThird(parse: MockFactory.TimestampParser, a: i32, b: i32)
    requires InRange(I16, a) && InRange(I16, b)
    ensures Write(parse, Writer([PT.NullableShort], [Short(a), Short(b)]), NoneValue)
            == (Pass, Writer([], [Short(a), Short(b), Null]))
  {
    assert MockFactory.FromNone(PT.NullableShort) == Ok(Null);
    assert [Short(a), Short(b)] + [Null] == [Short(a), Short(b), Null];
  }

  /** An `i32` outside the 16-bit range is refused by the short descriptor with a range error. */
  lemma ParamOutOfRange(parse: MockFactory.TimestampParser, a: i32)
    requires !InRange(I16, a)
    ensures Params(parse, Scalar(PI32(a)), [PT.Short]) == Err(Range("i32", MockFactory.Descriptor(PT.Short)))
  {
  }

  lemma TupleReadBack(a: i16, b: i16)
    ensures ConvertRow(New(["c1", "c2", "c3"]), [Short(a), Short(b), Null], Tuple([Prim(I32), Opt(Prim(I32)), Opt(Prim(I32))]))
            == Ok(TupleV([Int(a), SomeV(Int(b)), NoneV]))
  {
    var vs := [Short(a), Short(b), Null];
    var elems := [Prim(I32), Opt(Prim(I32)), Opt(Prim(I32))];
    assert ReadField(vs[0], elems[0]) == Ok(Int(a));
    assert ReadField(vs[1], elems[1]) == Ok(SomeV(Int(b)));
    assert ReadField(vs[2], elems[2]) == Ok(NoneV);
    TupleOutcome(Must, New(["c1", "c2", "c3"]), vs, elems);
    TupleTakesPrefix(Must, New(["c1", "c2", "c3"]), vs, elems);
    var r := ConvertRow(New(["c1", "c2", "c3"]), vs, Tuple(elems));
    assert r.value.items == [Int(a), SomeV(Int(b)), NoneV];
  }

  /** Descriptors left over are not reported: one value against two descriptors is written without error. */
  lemma LeftoverDescriptorsIgnored(parse: MockFactory.TimestampParser, a: i16)
    ensures Params(parse, Scalar(PI16(a)), [PT.Short, PT.String]) == Ok([Short(a)])
  {
    assert MockFactory.FromPrimitive(parse, PT.Short, PI16(a)) == Ok(Short(a));
    assert [PT.Short, PT.String][1..] == [PT.String];
    assert [] + [Short(a)] == [Short(a)];
    assert Write(parse, Writer([PT.Short, PT.String], []), Scalar(PI16(a))) == (Pass, Writer([PT.String], [Short(a)]));
  }

  /** More values than descriptors: the write that finds none left fails. */
  lemma TooManyValuesRefused(parse: MockFactory.TimestampParser, a: i16, b: i16)
    ensures Params(parse, TupleValue([Scalar(PI16(a)), Scalar(PI16(b))]), [PT.Short]) == Err(StructuralMismatch(TooManyValues))
  {
    SecondShortRefused(parse, a, b);
  }

  /** One descriptor, two values: the first takes the descriptor, the second finds none left. */
  lemma SecondShortRefused(parse: MockFactory.TimestampParser, a: i16, b: i16)
    ensures Write(parse, Writer([PT.Short], []), TupleValue([Scalar(PI16(a)), Scalar(PI16(b))])).0
            == Fail(StructuralMismatch(TooManyValues))
  {
    assert MockFactory.FromPrimitive(parse, PT.Short, PI16(a)).Ok?;
    SecondValueRefused(parse, Writer([PT.Short], []), PI16(a), PI16(b));
  }

  lemma SecondValueRefused(parse: MockFactory.TimestampParser, w: Writer, p: Primitive, q: Primitive)
    requires |w.metadata| == 1 && MockFactory.FromPrimitive(parse, w.metadata[0], p).Ok?
    ensures WriteAll(parse, w, [Scalar(p), Scalar(q)]).0 == Fail(StructuralMismatch(TooManyValues))
  {
    var items := [Scalar(p), Scalar(q)];
    var w1 := Write(parse, w, items[0]).1;
    assert Write(parse, w, items[0]).0 == Pass && w1.metadata == [];
    NothingLeftToWrite(parse, w1, q);
    assert items[1..] == [items[1]];
    assert WriteAll(parse, w1, items[1..]).0 == Fail(StructuralMismatch(TooManyValues));
  }

  lemma NothingLeftToWrite(parse: MockFactory.TimestampParser, w: Writer, p: Primitive)
    requires w.metadata == []
    ensures Write(parse, w, Scalar(p)) == (Fail(StructuralMismatch(TooManyValues)), w)
  {
  }
}
