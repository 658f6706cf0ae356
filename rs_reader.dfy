/**
 * `RsDeserializer` over the mock driver's `ResultSet`, with `RowsVisitor`:
 * the reader owns the result set, pulls rows from it one at a time and keeps
 * its `need` in a field. Every method is proved to do what `RsSpec` says on
 * the rows the result set still holds.
 */
module RsReaders {
  import opened Wrappers
  import opened Shapes
  import opened DeserializationErrors
  import opened RowSpec
  import opened RsSpec
  import opened MockRows
  import opened MockResultSets
  import opened RowReaders

  class RsReader {
    const rs: ResultSet
    var need: Need

    /** `RsDeserializer::try_new` over the mock adapter, whose `has_multiple_rows` cannot fail. */
    constructor (rs: ResultSet)
      ensures this.rs == rs && TryNew(Ok(rs.HasMultipleRows())) == Ok(need)
    {
      this.rs := rs;
      need := if rs.HasMultipleRows() then Must else Can;
    }

    /** `pop_single_row`: refuse without fetching while rows must not be left over, otherwise the next row. */
    method PopSingleRow() returns (r: Result<Row, DeserializationError>)
      requires rs.Valid()
      modifies rs
      ensures rs.Valid()
      ensures need == Must ==> r == Err(TrailingRows) && rs.Contents() == old(rs.Contents())
      ensures need != Must && old(rs.Contents()) == [] ==> r == Err(Usage(NoRowFound)) && rs.Contents() == []
      ensures need != Must && old(rs.Contents()) != [] ==>
                r.Ok? && fresh(r.value) && r.value.metadata == rs.md &&
                r.value.values == old(rs.Contents())[0] && rs.Contents() == old(rs.Contents())[1..]
    {
      if need == Must {
        return Err(TrailingRows);
      }
      var row := rs.Next();
      r := if row.None? then Err(Usage(NoRowFound)) else Ok(row.value);
    }

    /** The hints that pop the single row and hand it to a fresh `RowDeserializer`. */
    method DeserializeSingleRow(s: Shape) returns (r: Result<Out, DeserializationError>)
      requires rs.Valid()
      modifies rs
      ensures rs.Valid()
      ensures RsStep(r, need, Stream(rs.Contents())) == ReadSingleRow(need, rs.md, Stream(old(rs.Contents())), s)
    {
      ghost var before := rs.Contents();
      RowsFit(rs.md, before);
      var row := PopSingleRow();
      if row.Err? {
        return Err(row.error);
      }
      SingleRowUnfold(need, rs.md, before, s);
      r := TryIntoRow(row.value, s);
    }

    /** `T::deserialize(&mut RsDeserializer)` for the type whose hints are `s`. */
    method Deserialize(s: Shape) returns (r: Result<Out, DeserializationError>)
      requires rs.Valid()
      modifies this, rs
      ensures rs.Valid()
      ensures RsStep(r, need, Stream(rs.Contents())) == ReadRs(old(need), rs.md, Stream(old(rs.Contents())), s)
      decreases s
    {
      RowsFit(rs.md, rs.Contents());
      match s
      case Newtype(inner) =>
        var x := Deserialize(inner);
        r := if x.Ok? then Ok(NewtypeV(x.value)) else x;
      case Seq(elem) =>
        if need == Done {
          r := Err(Usage(SeqWhenDone));
        } else {
          need := Done;
          r := VisitRows(elem);
        }
      case Other(h) =>
        if h == Any {
          r := DeserializeSingleRow(Prim(Str));
        } else if h == TupleStruct {
          r := DeserializeSingleRow(s);
        } else {
          r := Err(RsRefused(h));
        }
      case _ =>
        r := DeserializeSingleRow(s);
    }

    /** `RowsVisitor::next_element_seed`: the next row, read as `elem` by a fresh row reader. */
    method NextElement(elem: Shape) returns (r: Result<Option<Out>, DeserializationError>)
      requires rs.Valid()
      modifies rs
      ensures rs.Valid()
      ensures (r, Stream(rs.Contents())) == NextRowElement(rs.md, Stream(old(rs.Contents())), elem)
    {
      RowsFit(rs.md, rs.Contents());
      ghost var before := rs.Contents();
      var row := rs.Next();
      if row.None? {
        return Ok(None);
      }
      StreamTail(before);
      var x := TryIntoRow(row.value, elem);
      r := if x.Ok? then Ok(Some(x.value)) else Err(x.error);
    }

    /** `Vec<T>`'s visitor over `RowsVisitor`: one element per row. */
    method VisitRows(elem: Shape) returns (r: Result<Out, DeserializationError>)
      requires rs.Valid()
      modifies rs
      ensures rs.Valid()
      ensures RsStep(r, Done, Stream(rs.Contents())) == ReadRows(rs.md, Stream(old(rs.Contents())), elem, [])
    {
      ghost var rows := rs.Contents();
      RowsFit(rs.md, rows);
      ghost var total := ReadRows(rs.md, Stream(rows), elem, []);
      var acc: seq<Out> := [];
      while true
        invariant rows == rs.Contents() && rs.Valid() && StreamFits(rs.md, Stream(rows))
        invariant forall k :: 0 <= k < |acc| ==> Conforms(acc[k], elem)
        invariant ReadRows(rs.md, Stream(rows), elem, acc) == total
        decreases |rows|
      {
        ReadRowsStep(rs.md, Stream(rows), elem, acc);
        var e := NextElement(elem);
        if e.Err? {
          return Err(e.error);
        } else if e.value.None? {
          return Ok(SeqV(acc));
        }
        acc := acc + [e.value.value];
        rows := rs.Contents();
      }
    }
  }

  /** `DeserializableResultSet::try_into` on the mock result set. */
  method TryInto(rs: ResultSet, s: Shape) returns (r: Result<Out, DeserializationError>)
    requires rs.Valid()
    modifies rs
    ensures r == ConvertRs(Ok(old(rs.HasMultipleRows())), rs.md, Stream(old(rs.Contents())), s)
    ensures r.Ok? ==> Conforms(r.value, s)
  {
    RowsFit(rs.md, rs.Contents());
    var reader := new RsReader(rs);
    r := reader.Deserialize(s);
  }
}
