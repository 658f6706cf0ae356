/** What the result-set reader promises: the collapse rules one level up, and how a `Vec` takes every row. */
module RsLaws {
  import opened Wrappers
  import opened Seqs
  import opened Shapes
  import opened DeserializationErrors
  import opened MockValues
  import opened FieldNamesMeta
  import opened RowSpec
  import opened RsSpec

  /** The hints that pop a single row and hand it to a fresh row reader. */
  predicate PopsRow(s: Shape)
  {
    s.Prim? || s.Opt? || s.Tuple? || s.Struct? || s == Other(Any) || s == Other(TupleStruct)
  }

  /** The hint the fresh row reader is asked for: `deserialize_any` reads a `String`. */
  function RowShape(s: Shape): Shape
    requires PopsRow(s)
  {
    if s == Other(Any) then Prim(Str) else s
  }

  /**
   * A single-row hint while rows must not be left over fails with
   * `TrailingRows` without fetching; otherwise it fetches exactly one row and
   * converts it, or reports an empty result set or the fetch error.
   */
  lemma SingleRowRead(need: Need, names: FieldNames, stream: seq<Fetch>, s: Shape)
    requires StreamFits(names, stream) && PopsRow(s)
    ensures need == Must ==> ReadRs(need, names, stream, s) == RsStep(Err(TrailingRows), need, stream)
    ensures need != Must && stream == [] ==> ReadRs(need, names, stream, s) == RsStep(Err(Usage(NoRowFound)), need, stream)
    ensures need != Must && stream != [] && stream[0].FetchFailed? ==>
              ReadRs(need, names, stream, s) == RsStep(Err(stream[0].error), need, stream[1..])
    ensures need != Must && stream != [] && stream[0].Fetched? ==>
              ReadRs(need, names, stream, s) == RsStep(ConvertRow(names, stream[0].values, RowShape(s)), need, stream[1..])
  {
    SingleRowDelegates(need, names, stream, s);
  }

  /** The hints that pop a row all hand it to `ReadSingleRow`, `deserialize_any` asking it for a `String`. */
  lemma SingleRowDelegates(need: Need, names: FieldNames, stream: seq<Fetch>, s: Shape)
    requires StreamFits(names, stream) && PopsRow(s)
    ensures ReadRs(need, names, stream, s) == ReadSingleRow(need, names, stream, RowShape(s))
  {
  }

  /** Every row fits the columns. */
  predicate RowsFitNames(names: FieldNames, rows: seq<seq<MValue>>)
  {
    forall k :: 0 <= k < |rows| ==> Fits(names, rows[k])
  }

  lemma FittingRowsStream(names: FieldNames, rows: seq<seq<MValue>>)
    requires RowsFitNames(names, rows)
    ensures StreamFits(names, Stream(rows))
  {
  }

  /** Each row converted on its own by a fresh row reader, in order. */
  function RowResults(names: FieldNames, rows: seq<seq<MValue>>, elem: Shape): (r: seq<Result<Out, DeserializationError>>)
    requires RowsFitNames(names, rows)
    ensures |r| == |rows|
    decreases |rows|
  {
    if rows == [] then []
    else
      assert RowsFitNames(names, rows[1..]) by {
        forall k | 0 <= k < |rows[1..]| ensures Fits(names, rows[1..][k]) {
          assert rows[1..][k] == rows[k + 1];
        }
      }
      [ConvertRow(names, rows[0], elem)] + RowResults(names, rows[1..], elem)
  }

  /** Result `k` is row `k`'s own conversion. */
  lemma {:induction false} RowResultsAt(names: FieldNames, rows: seq<seq<MValue>>, elem: Shape, k: nat)
    requires RowsFitNames(names, rows) && k < |rows|
    ensures RowResults(names, rows, elem)[k] == ConvertRow(names, rows[k], elem)
    decreases k
  {
    if k > 0 {
      assert RowsFitNames(names, rows[1..]) by {
        forall j | 0 <= j < |rows[1..]| ensures Fits(names, rows[1..][j]) {
          assert rows[1..][j] == rows[j + 1];
        }
      }
      RowResultsAt(names, rows[1..], elem, k - 1);
    }
  }

  /** Result `k` is the first error. */
  predicate FirstFailure(results: seq<Result<Out, DeserializationError>>, k: nat)
  {
    k < |results| && results[k].Err? && forall j :: 0 <= j < k ==> results[j].Ok?
  }

  /** Every value if all results are values, otherwise the first error. */
  function Collect(results: seq<Result<Out, DeserializationError>>): (r: Result<seq<Out>, DeserializationError>)
    ensures r.Ok? <==> forall k :: 0 <= k < |results| ==> results[k].Ok?
    ensures r.Ok? ==> |r.value| == |results| && forall k :: 0 <= k < |results| ==> r.value[k] == results[k].value
    ensures r.Err? ==> exists k: nat :: FirstFailure(results, k) && r.error == results[k].error
    decreases |results|
  {
    if results == [] then Ok([])
    else match results[0]
      case Err(e) =>
        assert FirstFailure(results, 0);
        Err(e)
      case Ok(o) =>
        var tail := Collect(results[1..]);
        CollectCons(results, tail);
        if tail.Err? then Err(tail.error) else Ok([o] + tail.value)
  }

  lemma CollectCons(results: seq<Result<Out, DeserializationError>>, tail: Result<seq<Out>, DeserializationError>)
    requires results != [] && results[0].Ok?
    requires tail.Ok? <==> forall k :: 0 <= k < |results| - 1 ==> results[1..][k].Ok?
    requires tail.Ok? ==> |tail.value| == |results| - 1 &&
                          forall k :: 0 <= k < |results| - 1 ==> tail.value[k] == results[1..][k].value
    requires tail.Err? ==> exists k: nat :: FirstFailure(results[1..], k) && tail.error == results[1..][k].error
    ensures tail.Ok? <==> forall k :: 0 <= k < |results| ==> results[k].Ok?
    ensures tail.Ok? ==> forall k :: 0 <= k < |results| ==> ([results[0].value] + tail.value)[k] == results[k].value
    ensures tail.Err? ==> exists k: nat :: FirstFailure(results, k) && tail.error == results[k].error
  {
    if tail.Ok? {
      forall k | 0 <= k < |results| ensures results[k].Ok? {
        if k > 0 { assert results[k] == results[1..][k - 1]; }
      }
    } else {
      var k: nat :| FirstFailure(results[1..], k) && tail.error == results[1..][k].error;
      forall j | 0 <= j < k + 1 ensures results[j].Ok? {
        if j > 0 { assert results[j] == results[1..][j - 1]; }
      }
      assert FirstFailure(results, k + 1);
    }
  }

  /** The rows visitor's first step over a result set's rows: row 0's own conversion. */
  lemma RowsVisitorFirstRow(names: FieldNames, rows: seq<seq<MValue>>, elem: Shape, acc: seq<Out>)
    requires rows != [] && RowsFitNames(names, rows)
    requires forall k :: 0 <= k < |acc| ==> Conforms(acc[k], elem)
    ensures RowsFitNames(names, rows[1..]) && StreamFits(names, Stream(rows)) && StreamFits(names, Stream(rows[1..]))
    ensures RowResults(names, rows, elem)[1..] == RowResults(names, rows[1..], elem)
    ensures var x := RowResults(names, rows, elem)[0];
            (x.Err? ==> ReadRows(names, Stream(rows), elem, acc).result == Err(x.error)) &&
            (x.Ok? ==> (forall k :: 0 <= k < |acc + [x.value]| ==> Conforms((acc + [x.value])[k], elem)) &&
                       ReadRows(names, Stream(rows), elem, acc) == ReadRows(names, Stream(rows[1..]), elem, acc + [x.value]))
  {
    assert RowsFitNames(names, rows[1..]) by {
      forall k | 0 <= k < |rows[1..]| ensures Fits(names, rows[1..][k]) {
        assert rows[1..][k] == rows[k + 1];
      }
    }
    StreamTail(rows);
    ReadRowsStep(names, Stream(rows), elem, acc);
    var results := RowResults(names, rows, elem);
    assert results == [ConvertRow(names, rows[0], elem)] + RowResults(names, rows[1..], elem);
    assert Stream(rows)[0] == Fetched(rows[0]);
  }

  /** The rows visitor started with `acc` over `rows` ends as the rows' own conversions say. */
  predicate GathersRows(names: FieldNames, rows: seq<seq<MValue>>, elem: Shape, acc: seq<Out>)
    requires RowsFitNames(names, rows)
    requires forall k :: 0 <= k < |acc| ==> Conforms(acc[k], elem)
  {
    StreamFits(names, Stream(rows)) &&
    var st := ReadRows(names, Stream(rows), elem, acc);
    var c := Collect(RowResults(names, rows, elem));
    (c.Ok? ==> st.result == Ok(SeqV(acc + c.value)) && st.rest == []) &&
    (c.Err? ==> st.result == Err(c.error))
  }

  /** The rows visitor over a result set's rows collects the rows' own conversions. */
  lemma {:induction false} ReadRowsEveryRow(names: FieldNames, rows: seq<seq<MValue>>, elem: Shape, acc: seq<Out>)
    requires RowsFitNames(names, rows)
    requires forall k :: 0 <= k < |acc| ==> Conforms(acc[k], elem)
    ensures StreamFits(names, Stream(rows))
    ensures var st := ReadRows(names, Stream(rows), elem, acc);
            var c := Collect(RowResults(names, rows, elem));
            (c.Ok? ==> st.result == Ok(SeqV(acc + c.value)) && st.rest == []) &&
            (c.Err? ==> st.result == Err(c.error))
    decreases |rows|, 1
  {
    FittingRowsStream(names, rows);
    if rows == [] {
      assert Stream(rows) == [] && RowResults(names, rows, elem) == [];
      assert acc + [] == acc;
    } else {
      EveryRowStep(names, rows, elem, acc);
    }
  }

  lemma {:induction false} EveryRowStep(names: FieldNames, rows: seq<seq<MValue>>, elem: Shape, acc: seq<Out>)
    requires rows != [] && RowsFitNames(names, rows)
    requires forall k :: 0 <= k < |acc| ==> Conforms(acc[k], elem)
    ensures GathersRows(names, rows, elem, acc)
    decreases |rows|, 0
  {
    RowsVisitorFirstRow(names, rows, elem, acc);
    var x := RowResults(names, rows, elem)[0];
    if x.Ok? {
      ReadRowsEveryRow(names, rows[1..], elem, acc + [x.value]);
      EveryRowCons(names, rows, elem, acc);
    } else {
      FirstRowFails(names, rows, elem, acc);
    }
  }

  /** A first row that converts is appended, and the rest of the rows decide. */
  lemma EveryRowCons(names: FieldNames, rows: seq<seq<MValue>>, elem: Shape, acc: seq<Out>)
    requires rows != [] && RowsFitNames(names, rows) && RowsFitNames(names, rows[1..])
    requires forall k :: 0 <= k < |acc| ==> Conforms(acc[k], elem)
    requires RowResults(names, rows, elem)[0].Ok?
    requires RowResults(names, rows, elem)[1..] == RowResults(names, rows[1..], elem)
    requires var acc' := acc + [RowResults(names, rows, elem)[0].value];
             (forall k :: 0 <= k < |acc'| ==> Conforms(acc'[k], elem)) &&
             StreamFits(names, Stream(rows)) && StreamFits(names, Stream(rows[1..])) &&
             ReadRows(names, Stream(rows), elem, acc) == ReadRows(names, Stream(rows[1..]), elem, acc') &&
             GathersRows(names, rows[1..], elem, acc')
    ensures GathersRows(names, rows, elem, acc)
  {
    var results := RowResults(names, rows, elem);
    var o := results[0].value;
    var c := Collect(results[1..]);
    assert Collect(results) == if c.Err? then Err(c.error) else Ok([o] + c.value);
    if c.Ok? {
      AppendAssoc(acc, [o], c.value);
    }
  }

  /** A first row that does not convert ends the visitor with that row's error. */
  lemma FirstRowFails(names: FieldNames, rows: seq<seq<MValue>>, elem: Shape, acc: seq<Out>)
    requires rows != [] && RowsFitNames(names, rows)
    requires forall k :: 0 <= k < |acc| ==> Conforms(acc[k], elem)
    requires RowResults(names, rows, elem)[0].Err?
    requires StreamFits(names, Stream(rows))
    requires ReadRows(names, Stream(rows), elem, acc).result == Err(RowResults(names, rows, elem)[0].error)
    ensures GathersRows(names, rows, elem, acc)
  {
    var results := RowResults(names, rows, elem);
    assert Collect(results) == Err(results[0].error);
  }

  /**
   * A result set read as a `Vec` takes every row, each through a fresh row
   * reader: it succeeds exactly when every row converts, element k is row k's
   * value, and otherwise the error is the first failing row's.
   */
  lemma SeqReadsEveryRow(need: Need, names: FieldNames, rows: seq<seq<MValue>>, elem: Shape)
    requires RowsFitNames(names, rows)
    ensures StreamFits(names, Stream(rows))
    ensures need == Done ==> ReadRs(need, names, Stream(rows), Seq(elem)).result == Err(Usage(SeqWhenDone))
    ensures need != Done ==>
              var st := ReadRs(need, names, Stream(rows), Seq(elem));
              var c := Collect(RowResults(names, rows, elem));
              (c.Ok? ==> st.result == Ok(SeqV(c.value)) && st.rest == []) &&
              (c.Err? ==> st.result == Err(c.error))
  {
    ReadRowsEveryRow(names, rows, elem, []);
    SeqUnfold(need, names, Stream(rows), elem);
    var c := Collect(RowResults(names, rows, elem));
    if c.Ok? {
      assert [] + c.value == c.value;
    }
  }

  lemma SeqUnfold(need: Need, names: FieldNames, stream: seq<Fetch>, elem: Shape)
    requires StreamFits(names, stream)
    ensures ReadRs(need, names, stream, Seq(elem)) ==
            if need == Done then RsStep(Err(Usage(SeqWhenDone)), need, stream) else ReadRows(names, stream, elem, [])
  {
  }

  /** A fetch that fails while the rows are being read ends the read with that error. */
  lemma FetchErrorPropagates(need: Need, names: FieldNames, stream: seq<Fetch>, elem: Shape)
    requires StreamFits(names, stream) && need != Done
    requires stream != [] && stream[0].FetchFailed?
    ensures ReadRs(need, names, stream, Seq(elem)).result == Err(stream[0].error)
  {
  }

  /**
   * Dimensional collapse of a result set: a single-row type can be read only
   * from a result set with exactly one row, which is then read like that row;
   * more rows are refused with `TrailingRows`, none with `Usage`.
   */
  lemma ManyRowsRefused(names: FieldNames, rows: seq<seq<MValue>>, s: Shape)
    requires RowsFitNames(names, rows) && PopsRow(s) && |rows| > 1
    ensures StreamFits(names, Stream(rows))
    ensures ConvertRs(Ok(|rows| > 1), names, Stream(rows), s) == Err(TrailingRows)
  {
    FittingRowsStream(names, rows);
    ConvertRsUnfold(true, names, Stream(rows), s);
    SingleRowDelegates(Must, names, Stream(rows), s);
  }

  lemma NoRowRefused(names: FieldNames, s: Shape)
    requires PopsRow(s)
    ensures ConvertRs(Ok(false), names, Stream([]), s) == Err(Usage(NoRowFound))
  {
    ConvertRsUnfold(false, names, Stream([]), s);
    SingleRowDelegates(Can, names, Stream([]), s);
  }

  lemma OneRowReadAsRow(names: FieldNames, row: seq<MValue>, s: Shape)
    requires Fits(names, row) && PopsRow(s)
    ensures StreamFits(names, Stream([row]))
    ensures ConvertRs(Ok(false), names, Stream([row]), s) == ConvertRow(names, row, RowShape(s))
  {
    ConvertRsUnfold(false, names, Stream([row]), s);
    SingleRowDelegates(Can, names, Stream([row]), s);
    assert Stream([row])[0] == Fetched(row);
  }

  lemma ConvertRsUnfold(multi: bool, names: FieldNames, stream: seq<Fetch>, s: Shape)
    requires StreamFits(names, stream)
    ensures ConvertRs(Ok(multi), names, stream, s) == ReadRs(if multi then Must else Can, names, stream, s).result
  {
  }

  /** When every row converts, a result set of any number of rows reads as the `Vec` of their values, in row order. */
  lemma VecOfConvertedRows(multi: bool, names: FieldNames, rows: seq<seq<MValue>>, elem: Shape, items: seq<Out>)
    requires EachRowConverts(names, rows, elem, items)
    ensures StreamFits(names, Stream(rows))
    ensures ConvertRs(Ok(multi), names, Stream(rows), Seq(elem)) == Ok(SeqV(items))
  {
    CollectConverted(names, rows, elem, items);
    SeqOfCollected(if multi then Must else Can, names, rows, elem, items);
    ConvertRsUnfold(multi, names, Stream(rows), Seq(elem));
  }

  lemma SeqOfCollected(need: Need, names: FieldNames, rows: seq<seq<MValue>>, elem: Shape, items: seq<Out>)
    requires RowsFitNames(names, rows) && need != Done
    requires Collect(RowResults(names, rows, elem)) == Ok(items)
    ensures StreamFits(names, Stream(rows))
    ensures ReadRs(need, names, Stream(rows), Seq(elem)).result == Ok(SeqV(items))
  {
    SeqReadsEveryRow(need, names, rows, elem);
  }

  /** Every row fits the columns and converts on its own to the matching item. */
  predicate EachRowConverts(names: FieldNames, rows: seq<seq<MValue>>, elem: Shape, items: seq<Out>)
  {
    RowsFitNames(names, rows) && |items| == |rows| &&
    forall k :: 0 <= k < |rows| ==> ConvertRow(names, rows[k], elem) == Ok(items[k])
  }

  lemma CollectConverted(names: FieldNames, rows: seq<seq<MValue>>, elem: Shape, items: seq<Out>)
    requires EachRowConverts(names, rows, elem, items)
    ensures RowsFitNames(names, rows)
    ensures Collect(RowResults(names, rows, elem)) == Ok(items)
  {
    var results := RowResults(names, rows, elem);
    forall k | 0 <= k < |rows|
      ensures results[k] == Ok(items[k])
    {
      RowResultsAt(names, rows, elem, k);
    }
    CollectAllOk(results, items);
  }

  lemma CollectAllOk(results: seq<Result<Out, DeserializationError>>, items: seq<Out>)
    requires |results| == |items| && forall k :: 0 <= k < |items| ==> results[k] == Ok(items[k])
    ensures Collect(results) == Ok(items)
  {
    var c := Collect(results);
    assert c.Ok?;
    assert c.value == items;
  }

  /**
   * A newtype is transparent to the result-set reader: same fetches
   * consumed, same `need` afterwards, the inner value wrapped on success and
   * the same error otherwise.
   */
  lemma RsNewtypeTransparent(need: Need, names: FieldNames, stream: seq<Fetch>, s: Shape)
    requires StreamFits(names, stream)
    ensures var outer, inner := ReadRs(need, names, stream, Newtype(s)), ReadRs(need, names, stream, s);
            outer.need == inner.need && outer.rest == inner.rest &&
            (outer.result.Ok? <==> inner.result.Ok?) &&
            (inner.result.Ok? ==> outer.result == Ok(NewtypeV(inner.result.value))) &&
            (inner.result.Err? ==> outer.result == inner.result)
  {
  }

  /**
   * `deserialize_char`, `_unit`, `_map`, `_unit_struct`, `_enum`,
   * `_identifier` and `_ignored_any` are not implemented by the result-set
   * reader: whatever the state, they report so and fetch nothing.
   */
  lemma RsHintsRefused(need: Need, names: FieldNames, stream: seq<Fetch>, h: Hint)
    requires StreamFits(names, stream) && h != Any && h != TupleStruct
    ensures ReadRs(need, names, stream, Other(h)) == RsStep(Err(RsRefused(h)), need, stream)
    ensures ReadRs(need, names, stream, Other(h)).result.error.NotImplemented?
  {
  }
}
