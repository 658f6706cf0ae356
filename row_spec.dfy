/**
 * The meaning of serde_db's `RowDeserializer`: reading a Rust value from the
 * values still left in one row. `need` records how much of the row the value
 * has to take: `Must` (several columns, so a single leaf would leave columns
 * behind), `Can` (exactly one column) and `Done` (the row has been opened as a
 * struct, tuple or sequence, so further values are that container's members).
 */
module RowSpec {
  import opened Wrappers
  import opened Shapes
  import opened DeserializationErrors
  import opened MockValues
  import opened FieldNamesMeta
  import opened FieldReader

  datatype Need = Must | Can | Done

  /** `RowDeserializer::new`: a single-column row can collapse into a plain value, any other cannot. */
  function InitialNeed(len: nat): (n: Need)
    ensures n == Can <==> len == 1
    ensures n == Must <==> len != 1
  {
    if len == 1 then Can else Must
  }

  /** The reader's state after an operation: its result, its `need` and the values still in the row. */
  datatype RowStep = RowStep(result: Result<Out, DeserializationError>, need: Need, rest: seq<MValue>)

  const NoMoreValue := "next_value(): no more value found in row"
  const DoubleNesting := "double-nesting (struct/tuple in struct/tuple) not possible"
  const StructInStruct := "double-nesting (struct in struct) not possible"
  const EmptyRowIdentifier := "empty row in RowDeserializer::deserialize_identifier()"
  const NoMoreMapValue := "FieldsMapVisitor::next_value_seed(): no more value"
  const InvalidLength := "invalid length"

  /** The remaining values fit the columns, so `number_of_fields - len` does not underflow. */
  predicate Fits(names: FieldNames, vs: seq<MValue>)
  {
    |vs| <= names.NumberOfFields()
  }

  /** `rest` is what is left of `vs` after taking some values from its front. */
  predicate IsSuffix(rest: seq<MValue>, vs: seq<MValue>)
  {
    |rest| <= |vs| && rest == vs[|vs| - |rest|..]
  }

  /** The name of the column the next value comes from (`field_name(number_of_fields - len)`). */
  function ColumnName(names: FieldNames, vs: seq<MValue>): (n: string)
    requires Fits(names, vs) && vs != []
    ensures names.FieldName(names.NumberOfFields() - |vs|) == Some(n)
  {
    names.fields[names.NumberOfFields() - |vs|]
  }

  /** `next_value`: refuse while columns must not be left over, otherwise take one value. */
  function NextValue(need: Need, vs: seq<MValue>): (r: (Result<MValue, DeserializationError>, seq<MValue>))
    ensures need == Must ==> r == (Err(TrailingCols), vs)
    ensures need != Must && vs == [] ==> r == (Err(Usage(NoMoreValue)), vs)
    ensures need != Must && vs != [] ==> r == (Ok(vs[0]), vs[1..])
  {
    if need == Must then (Err(TrailingCols), vs)
    else if vs == [] then (Err(Usage(NoMoreValue)), vs)
    else (Ok(vs[0]), vs[1..])
  }

  /** A leaf hint: take one value and deserialize it with a `FieldDeserializer` as `s`. */
  function ReadLeaf(need: Need, vs: seq<MValue>, s: Shape): (st: RowStep)
    ensures IsSuffix(st.rest, vs) && st.need == need
    ensures st.result.Ok? ==> Conforms(st.result.value, s)
  {
    match NextValue(need, vs)
    case (Err(e), rest) => RowStep(Err(e), need, rest)
    case (Ok(v), rest) => RowStep(ReadField(v, s), need, rest)
  }

  /** The hints the row reader does not implement, with the text it reports. */
  function RowRefused(h: Hint): (e: DeserializationError)
    ensures e.NotImplemented?
  {
    match h
    case Char => NotImplemented("RowDeserializer::deserialize_char()!")
    case Unit => NotImplemented("RowDeserializer::deserialize_unit()")
    case Map => NotImplemented("RowDeserializer::deserialize_map()")
    case UnitStruct => NotImplemented("RowDeserializer::deserialize_unit_struct()")
    case TupleStruct => NotImplemented("RowDeserializer::deserialize_tuple_struct()")
    case Enum => NotImplemented("RowDeserializer::deserialize_enum()")
    case _ => NotImplemented("RowDeserializer")
  }

  /** `deserialize_ignored_any`: an ignored value is an unknown field, named by its column. */
  function IgnoredAnyError(names: FieldNames, vs: seq<MValue>): (e: DeserializationError)
    requires Fits(names, vs)
    ensures e.UnknownField?
  {
    UnknownField(if vs == [] then "unknown" else ColumnName(names, vs))
  }

  /** A struct field's state in the derived visitor: not seen yet, or its value. */
  type Slots = seq<Option<Out>>

  function NoSlots(n: nat): (slots: Slots)
    ensures |slots| == n && forall j :: 0 <= j < n ==> slots[j] == None
  {
    seq(n, _ => None)
  }

  predicate SlotsConform(fields: seq<Field>, slots: Slots)
  {
    |slots| == |fields| &&
    forall j :: 0 <= j < |fields| && slots[j].Some? ==> Conforms(slots[j].value, fields[j].shape)
  }

  /** How many fields have not been seen yet. */
  function Unset(slots: Slots): nat
  {
    if slots == [] then 0 else (if slots[0].None? then 1 else 0) + Unset(slots[1..])
  }

  lemma {:induction false} FillingASlot(slots: Slots, j: nat, o: Out)
    requires j < |slots| && slots[j].None?
    ensures Unset(slots[j := Some(o)]) < Unset(slots)
  {
    if j > 0 {
      assert slots[j := Some(o)][1..] == slots[1..][j - 1 := Some(o)];
      FillingASlot(slots[1..], j - 1, o);
    }
  }

  /** The derived field visitor: the first declared field with this name, if any. */
  function FieldIndex(fields: seq<Field>, name: string): (r: Option<nat>)
    ensures r.Some? ==> r.value < |fields| && fields[r.value].name == name
    ensures r.None? ==> forall j :: 0 <= j < |fields| ==> fields[j].name != name
  {
    if fields == [] then None
    else if fields[0].name == name then Some(0)
    else match FieldIndex(fields[1..], name)
      case None => None
      case Some(j) => Some(j + 1)
  }

  /**
   * The end of the derived visitor: every field seen yields its value, an
   * `Option` field not seen is `None`, any other field not seen is an error.
   */
  function Finish(fields: seq<Field>, slots: Slots, i: nat): (r: Result<seq<Out>, DeserializationError>)
    requires SlotsConform(fields, slots) && i <= |fields|
    ensures r.Ok? ==> |r.value| == |fields| - i &&
                      forall k :: 0 <= k < |r.value| ==> Conforms(r.value[k], fields[i + k].shape)
    decreases |fields| - i
  {
    if i == |fields| then Ok([])
    else
      var here: Result<Out, DeserializationError> :=
        if slots[i].Some? then Ok(slots[i].value)
        else if fields[i].shape.Opt? then Ok(NoneV)
        else Err(SerdeError("missing field `" + fields[i].name + "`"));
      match here
      case Err(e) => Err(e)
      case Ok(o) =>
        match Finish(fields, slots, i + 1)
        case Err(e) => Err(e)
        case Ok(tail) => Ok([o] + tail)
  }

  /** `FieldsMapVisitor::next_key_seed` with the derived identifier seed: the next column's name. */
  function NextKey(names: FieldNames, vs: seq<MValue>): (r: Option<string>)
    requires Fits(names, vs)
    ensures r.None? <==> vs == []
    ensures r.Some? ==> r.value == ColumnName(names, vs)
  {
    if vs == [] then None else Some(ColumnName(names, vs))
  }

  /** `FieldsSeqVisitor::next_element_seed`: take a value and read it as `s`, or end on an empty row. */
  function NextElement(vs: seq<MValue>, s: Shape): (r: (Result<Option<Out>, DeserializationError>, seq<MValue>))
    ensures vs == [] ==> r == (Ok(None), vs)
    ensures vs != [] ==> r.1 == vs[1..] && r.0.Ok? == ReadField(vs[0], s).Ok?
    ensures vs != [] && r.0.Ok? ==> r.0.value == Some(ReadField(vs[0], s).value)
    ensures vs != [] && r.0.Err? ==> r.0.error == ReadField(vs[0], s).error
    ensures r.0.Ok? && r.0.value.Some? ==> Conforms(r.0.value.value, s)
  {
    if vs == [] then (Ok(None), vs)
    else
      match ReadField(vs[0], s)
      case Ok(o) => (Ok(Some(o)), vs[1..])
      case Err(e) => (Err(e), vs[1..])
  }

  /** `Vec<T>`'s visitor over `FieldsSeqVisitor`: read every remaining value as `elem`. */
  function ReadSeqCols(vs: seq<MValue>, elem: Shape, acc: seq<Out>): (st: RowStep)
    requires forall k :: 0 <= k < |acc| ==> Conforms(acc[k], elem)
    ensures IsSuffix(st.rest, vs) && st.need == Done
    ensures st.result.Ok? ==> Conforms(st.result.value, Seq(elem))
    decreases |vs|
  {
    match NextElement(vs, elem)
    case (Err(e), rest) => RowStep(Err(e), Done, rest)
    case (Ok(None), rest) => RowStep(Ok(SeqV(acc)), Done, rest)
    case (Ok(Some(o)), rest) => ReadSeqCols(rest, elem, acc + [o])
  }

  /** A tuple's visitor over `FieldsSeqVisitor`: read exactly one value per element. */
  function ReadTupleCols(vs: seq<MValue>, elems: seq<Shape>, acc: seq<Out>): (st: RowStep)
    requires |acc| <= |elems|
    requires forall k :: 0 <= k < |acc| ==> Conforms(acc[k], elems[k])
    ensures IsSuffix(st.rest, vs) && st.need == Done
    ensures st.result.Ok? ==> Conforms(st.result.value, Tuple(elems))
    decreases |elems| - |acc|
  {
    if |acc| == |elems| then
      assert Conforms(TupleV(acc), Tuple(elems));
      RowStep(Ok(TupleV(acc)), Done, vs)
    else
      match NextElement(vs, elems[|acc|])
      case (Err(e), rest) => RowStep(Err(e), Done, rest)
      case (Ok(None), rest) => RowStep(Err(SerdeError(InvalidLength)), Done, rest)
      case (Ok(Some(o)), rest) =>
        assert forall k :: 0 <= k < |acc + [o]| ==> Conforms((acc + [o])[k], elems[k]);
        ReadTupleCols(rest, elems, acc + [o])
  }

  /**
   * `T::deserialize(&mut RowDeserializer)` for the type whose hints are `s`,
   * starting with `need` on the values `vs` still in a row with columns `names`.
   */
  function ReadRow(need: Need, names: FieldNames, vs: seq<MValue>, s: Shape): (st: RowStep)
    requires Fits(names, vs)
    ensures IsSuffix(st.rest, vs)
    ensures st.need == need || st.need == Done
    ensures need == Done ==> st.need == Done
    ensures st.result.Ok? ==> Conforms(st.result.value, s)
    decreases s, 2, 0, 0
  {
    match s
    case Prim(_) => ReadLeaf(need, vs, s)
    case Opt(_) => ReadLeaf(need, vs, s)
    case Newtype(inner) =>
      var st := ReadRow(need, names, vs, inner);
      RowStep(if st.result.Ok? then Ok(NewtypeV(st.result.value)) else st.result, st.need, st.rest)
    case Seq(elem) =>
      if need == Done then RowStep(Err(Usage(DoubleNesting)), need, vs) else ReadSeqCols(vs, elem, [])
    case Tuple(elems) =>
      if need == Done then RowStep(Err(Usage(DoubleNesting)), need, vs) else ReadTupleCols(vs, elems, [])
    case Struct(fields) =>
      if need == Done then RowStep(Err(Usage(StructInStruct)), need, vs)
      else ReadStructCols(names, vs, fields, NoSlots(|fields|))
    case Other(h) =>
      if h == Any then ReadLeaf(need, vs, Prim(Str))
      else if h == Identifier then
        RowStep(if vs == [] then Err(Usage(EmptyRowIdentifier)) else Ok(Text(ColumnName(names, vs))), need, vs)
      else if h == IgnoredAny then RowStep(Err(IgnoredAnyError(names, vs)), need, vs)
      else RowStep(Err(RowRefused(h)), need, vs)
  }

  /** `FieldsMapVisitor::next_value_seed`: read the value of the current key, if there is one. */
  function NextValueSeed(need: Need, names: FieldNames, vs: seq<MValue>, s: Shape): (st: RowStep)
    requires Fits(names, vs)
    ensures IsSuffix(st.rest, vs)
    ensures need == Done ==> st.need == Done
    ensures st.result.Ok? ==> Conforms(st.result.value, s)
    decreases s, 3, 0, 0
  {
    if vs == [] then RowStep(Err(Usage(NoMoreMapValue)), need, vs) else ReadRow(need, names, vs, s)
  }

  /**
   * A derived struct's visitor over `FieldsMapVisitor`: keys are the column
   * names in column order; a known name reads its field's value (with the
   * reader now `Done`), a name seen twice or unknown is an error.
   */
  function ReadStructCols(names: FieldNames, vs: seq<MValue>, fields: seq<Field>, slots: Slots): (st: RowStep)
    requires Fits(names, vs) && SlotsConform(fields, slots)
    ensures IsSuffix(st.rest, vs) && st.need == Done
    ensures st.result.Ok? ==> Conforms(st.result.value, Struct(fields))
    decreases Struct(fields), 1, |vs|, Unset(slots)
  {
    match NextKey(names, vs)
    case None => (
      match Finish(fields, slots, 0)
      case Ok(items) => RowStep(Ok(StructV(items)), Done, vs)
      case Err(e) => RowStep(Err(e), Done, vs))
    case Some(name) =>
      match FieldIndex(fields, name)
      case None => RowStep(Err(IgnoredAnyError(names, vs)), Done, vs)
      case Some(j) =>
        if slots[j].Some? then RowStep(Err(SerdeError("duplicate field `" + name + "`")), Done, vs)
        else
          assert fields[j] in fields;
          var st := NextValueSeed(Done, names, vs, fields[j].shape);
          if st.result.Err? then RowStep(st.result, Done, st.rest)
          else
            FillingASlot(slots, j, st.result.value);
            ReadStructCols(names, st.rest, fields, slots[j := Some(st.result.value)])
  }

  /** `DeserializableRow::try_into`: a fresh reader over a whole row. */
  function ConvertRow(names: FieldNames, vs: seq<MValue>, s: Shape): (r: Result<Out, DeserializationError>)
    requires Fits(names, vs)
    ensures r.Ok? ==> Conforms(r.value, s)
  {
    ReadRow(InitialNeed(|vs|), names, vs, s).result
  }
}
