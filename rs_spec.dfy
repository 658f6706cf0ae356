/**
 * The meaning of serde_db's `RsDeserializer`: the same `need` machine as the
 * row reader, one level up. A driver's result set is seen as the stream of
 * what its `next` will return: a row's values, or a fetch that fails.
 */
module RsSpec {
  import opened Wrappers
  import opened Shapes
  import opened DeserializationErrors
  import opened MockValues
  import opened FieldNamesMeta
  import opened RowSpec

  /** One call of `DeserializableResultSet::next` that has not happened yet. */
  datatype Fetch = Fetched(values: seq<MValue>) | FetchFailed(error: DeserializationError)

  /** Every row the stream will deliver fits the result set's columns. */
  predicate StreamFits(names: FieldNames, stream: seq<Fetch>)
  {
    forall k :: 0 <= k < |stream| && stream[k].Fetched? ==> Fits(names, stream[k].values)
  }

  /** The reader's state after an operation: its result, its `need` and the fetches still to come. */
  datatype RsStep = RsStep(result: Result<Out, DeserializationError>, need: Need, rest: seq<Fetch>)

  const NoRowFound := "no row found in result set"
  const SeqWhenDone := "deserialize_seq() when already done"

  /** `next()`: the next row, `None` at the end, or the fetch error. */
  function NextRow(stream: seq<Fetch>): (r: (Result<Option<seq<MValue>>, DeserializationError>, seq<Fetch>))
    ensures stream == [] ==> r == (Ok(None), stream)
    ensures stream != [] ==> r.1 == stream[1..]
    ensures stream != [] && stream[0].Fetched? ==> r.0 == Ok(Some(stream[0].values))
    ensures stream != [] && stream[0].FetchFailed? ==> r.0 == Err(stream[0].error)
  {
    if stream == [] then (Ok(None), stream)
    else match stream[0]
      case Fetched(vs) => (Ok(Some(vs)), stream[1..])
      case FetchFailed(e) => (Err(e), stream[1..])
  }

  /** `RsDeserializer::try_new`: `Must` if the result set has several rows; an error of the driver is passed on. */
  function TryNew(multipleRows: Result<bool, DeserializationError>): (r: Result<Need, DeserializationError>)
    ensures multipleRows.Err? <==> r.Err?
    ensures multipleRows.Err? ==> r.error == multipleRows.error
    ensures multipleRows.Ok? ==> r.value == (if multipleRows.value then Must else Can)
  {
    match multipleRows
    case Err(e) => Err(e)
    case Ok(multi) => Ok(if multi then Must else Can)
  }

  /** `pop_single_row`: refuse without fetching while rows must not be left over, otherwise fetch one. */
  function PopSingleRow(need: Need, stream: seq<Fetch>): (r: (Result<seq<MValue>, DeserializationError>, seq<Fetch>))
    ensures need == Must ==> r == (Err(TrailingRows), stream)
    ensures need != Must && stream == [] ==> r == (Err(Usage(NoRowFound)), stream)
    ensures need != Must && stream != [] ==> r.1 == stream[1..]
    ensures need != Must && stream != [] && stream[0].Fetched? ==> r.0 == Ok(stream[0].values)
    ensures need != Must && stream != [] && stream[0].FetchFailed? ==> r.0 == Err(stream[0].error)
  {
    if need == Must then (Err(TrailingRows), stream)
    else match NextRow(stream)
      case (Err(e), rest) => (Err(e), rest)
      case (Ok(None), rest) => (Err(Usage(NoRowFound)), rest)
      case (Ok(Some(vs)), rest) => (Ok(vs), rest)
  }

  /** Pop the single row and hand it to a fresh row reader, asked for `s`. */
  function ReadSingleRow(need: Need, names: FieldNames, stream: seq<Fetch>, s: Shape): (st: RsStep)
    requires StreamFits(names, stream)
    ensures st.need == need && (st.rest == stream || (stream != [] && st.rest == stream[1..]))
    ensures st.result.Ok? ==> Conforms(st.result.value, s)
  {
    var (row, rest) := PopSingleRow(need, stream);
    if row.Err? then RsStep(Err(row.error), need, rest)
    else
      assert stream[0].Fetched? && row.value == stream[0].values && rest == stream[1..];
      RsStep(ConvertRow(names, row.value, s), need, rest)
  }

  /** `RowsVisitor::next_element_seed`: the next row read by a fresh row reader as `elem`, or `None` at the end. */
  function NextRowElement(names: FieldNames, stream: seq<Fetch>, elem: Shape)
    : (r: (Result<Option<Out>, DeserializationError>, seq<Fetch>))
    requires StreamFits(names, stream)
    ensures stream == [] ==> r == (Ok(None), stream)
    ensures stream != [] ==> r.1 == stream[1..] && r.0 != Ok(None)
    ensures stream != [] && stream[0].FetchFailed? ==> r.0 == Err(stream[0].error)
    ensures stream != [] && stream[0].Fetched? ==>
              var x := ConvertRow(names, stream[0].values, elem);
              r.0 == (if x.Ok? then Ok(Some(x.value)) else Err(x.error))
    ensures r.0.Ok? && r.0.value.Some? ==> Conforms(r.0.value.value, elem)
  {
    match NextRow(stream)
    case (Err(e), rest) => (Err(e), rest)
    case (Ok(None), rest) => (Ok(None), rest)
    case (Ok(Some(vs)), rest) =>
      assert stream[0].Fetched?;
      match ConvertRow(names, vs, elem)
      case Err(e) => (Err(e), rest)
      case Ok(o) => (Ok(Some(o)), rest)
  }

  /** `Vec<T>`'s visitor over `RowsVisitor`: one element per row until the rows run out or one fails. */
  function ReadRows(names: FieldNames, stream: seq<Fetch>, elem: Shape, acc: seq<Out>): (st: RsStep)
    requires StreamFits(names, stream)
    requires forall k :: 0 <= k < |acc| ==> Conforms(acc[k], elem)
    ensures st.need == Done && |st.rest| <= |stream| && st.rest == stream[|stream| - |st.rest|..]
    ensures st.result.Ok? ==> Conforms(st.result.value, Seq(elem))
    decreases |stream|
  {
    var (e, rest) := NextRowElement(names, stream, elem);
    if e.Err? then RsStep(Err(e.error), Done, rest)
    else if e.value.None? then RsStep(Ok(SeqV(acc)), Done, rest)
    else
      AppendConforms(acc, e.value.value, elem);
      var st := ReadRows(names, rest, elem, acc + [e.value.value]);
      SuffixOfTail(stream, st.rest);
      st
  }

  /** A suffix of a stream's tail is a suffix of the stream. */
  lemma SuffixOfTail(stream: seq<Fetch>, rest: seq<Fetch>)
    requires stream != [] && |rest| <= |stream| - 1 && rest == stream[1..][|stream| - 1 - |rest|..]
    ensures rest == stream[|stream| - |rest|..]
  {
  }

  /** The hints the result-set reader does not implement, with the text it reports. */
  function RsRefused(h: Hint): (e: DeserializationError)
    ensures e.NotImplemented?
  {
    match h
    case Char => NotImplemented("RsDeserializer::deserialize_char()")
    case Unit => NotImplemented("RsDeserializer::deserialize_unit()")
    case Map => NotImplemented("RsDeserializer::deserialize_map()")
    case UnitStruct => NotImplemented("RsDeserializer::deserialize_unit_struct()")
    case Enum => NotImplemented("RsDeserializer::deserialize_enum()")
    case Identifier => NotImplemented("RsDeserializer::deserialize_identifier()")
    case IgnoredAny => NotImplemented("RsDeserializer::deserialize_ignored_any()")
    case _ => NotImplemented("RsDeserializer")
  }

  /** `T::deserialize(&mut RsDeserializer)` for the type whose hints are `s`. */
  function ReadRs(need: Need, names: FieldNames, stream: seq<Fetch>, s: Shape): (st: RsStep)
    requires StreamFits(names, stream)
    ensures |st.rest| <= |stream|
    ensures st.need == need || st.need == Done
    ensures st.result.Ok? ==> Conforms(st.result.value, s)
    decreases s
  {
    match s
    case Newtype(inner) =>
      var st := ReadRs(need, names, stream, inner);
      RsStep(if st.result.Ok? then Ok(NewtypeV(st.result.value)) else st.result, st.need, st.rest)
    case Seq(elem) =>
      if need == Done then RsStep(Err(Usage(SeqWhenDone)), need, stream)
      else ReadRows(names, stream, elem, [])
    case Other(h) =>
      if h == Any then ReadSingleRow(need, names, stream, Prim(Str))
      else if h == TupleStruct then ReadSingleRow(need, names, stream, s)
      else RsStep(Err(RsRefused(h)), need, stream)
    case _ => ReadSingleRow(need, names, stream, s)
  }

  /** `DeserializableResultSet::try_into`: a fresh reader over the whole result set. */
  function ConvertRs(multipleRows: Result<bool, DeserializationError>, names: FieldNames, stream: seq<Fetch>, s: Shape)
    : (r: Result<Out, DeserializationError>)
    requires StreamFits(names, stream)
    ensures multipleRows.Err? ==> r == Err(multipleRows.error)
    ensures r.Ok? ==> Conforms(r.value, s)
  {
    match TryNew(multipleRows)
    case Err(e) => Err(e)
    case Ok(need) => ReadRs(need, names, stream, s).result
  }

  /** The stream a result set holding `rows` delivers: the mock driver's fetches never fail. */
  function Stream(rows: seq<seq<MValue>>): (stream: seq<Fetch>)
    ensures |stream| == |rows|
    ensures forall k :: 0 <= k < |rows| ==> stream[k] == Fetched(rows[k])
  {
    if rows == [] then [] else [Fetched(rows[0])] + Stream(rows[1..])
  }

  lemma StreamTail(rows: seq<seq<MValue>>)
    requires rows != []
    ensures Stream(rows)[1..] == Stream(rows[1..])
  {
  }

  /** Rows of a result set that has one value per column fit its columns. */
  lemma RowsFit(names: FieldNames, rows: seq<seq<MValue>>)
    requires forall k :: 0 <= k < |rows| ==> |rows[k]| == names.NumberOfFields()
    ensures StreamFits(names, Stream(rows))
  {
  }

  /** A single-row read that fetches: the first row, read by a fresh row reader. */
  lemma SingleRowUnfold(need: Need, names: FieldNames, rows: seq<seq<MValue>>, s: Shape)
    requires need != Must && rows != [] && forall k :: 0 <= k < |rows| ==> |rows[k]| == names.NumberOfFields()
    ensures Fits(names, rows[0]) && StreamFits(names, Stream(rows))
    ensures ReadSingleRow(need, names, Stream(rows), s) == RsStep(ConvertRow(names, rows[0], s), need, Stream(rows[1..]))
  {
    RowsFit(names, rows);
    StreamTail(rows);
  }

  /** One step of the rows visitor, by what `next_element_seed` returns. */
  lemma ReadRowsStep(names: FieldNames, stream: seq<Fetch>, elem: Shape, acc: seq<Out>)
    requires StreamFits(names, stream)
    requires forall k :: 0 <= k < |acc| ==> Conforms(acc[k], elem)
    ensures var (e, rest) := NextRowElement(names, stream, elem);
            StreamFits(names, rest) &&
            (e.Err? ==> ReadRows(names, stream, elem, acc) == RsStep(Err(e.error), Done, rest)) &&
            (e == Ok(None) ==> ReadRows(names, stream, elem, acc) == RsStep(Ok(SeqV(acc)), Done, rest)) &&
            (e.Ok? && e.value.Some? ==>
               (forall k :: 0 <= k < |acc + [e.value.value]| ==> Conforms((acc + [e.value.value])[k], elem)) &&
               ReadRows(names, stream, elem, acc) == ReadRows(names, rest, elem, acc + [e.value.value]))
  {
    var (e, rest) := NextRowElement(names, stream, elem);
    if e.Ok? && e.value.Some? {
      AppendConforms(acc, e.value.value, elem);
    }
  }
}
