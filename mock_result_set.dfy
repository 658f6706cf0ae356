/**
 * The mock driver's `ResultSet`: rows are pushed into `next_rows` and handed
 * out through `row_iter`; when `row_iter` runs dry, `next_rows` is swapped in.
 * Together the two buffers are a first-in first-out queue, `Contents()`.
 */
module MockResultSets {
  import opened Wrappers
  import opened MockValues
  import opened FieldNamesMeta
  import opened MockRows

  /** Every row has `n` values. */
  predicate HasWidth(rows: seq<seq<MValue>>, n: nat)
  {
    forall k :: 0 <= k < |rows| ==> |rows[k]| == n
  }

  class ResultSet {
    const md: FieldNames
    /** Rows pushed since the last swap, oldest first. */
    var nextRows: seq<seq<MValue>>
    /** Rows the current iterator has still to yield, in order. */
    var rowIter: seq<seq<MValue>>

    /** The rows still to come, in the order `next` hands them out. */
    function Contents(): seq<seq<MValue>>
      reads this
    {
      rowIter + nextRows
    }

    /** Every row has one value per column: `push` enforces it. */
    predicate Valid()
      reads this
    {
      HasWidth(Contents(), md.NumberOfFields())
    }

    /** `ResultSet::new`: no rows, the given column names. */
    constructor (fields: seq<string>)
      ensures md == New(fields) && Contents() == [] && Valid()
    {
      md := New(fields);
      nextRows := [];
      rowIter := [];
    }

    /** `push`: a row with the wrong number of values fails the assertion (a panic). */
    method Push(values: seq<MValue>)
      requires |values| == md.NumberOfFields()
      modifies this
      ensures Contents() == old(Contents()) + [values]
      ensures old(Valid()) ==> Valid()
    {
      nextRows := nextRows + [values];
      assert Contents() == old(Contents()) + [values];
    }

    /** `next`: the oldest row not yet handed out, as a row object of its own. */
    method Next() returns (row: Option<Row>)
      modifies this
      ensures old(Contents()) == [] ==> row == None && Contents() == []
      ensures old(Contents()) != [] ==>
                row.Some? && fresh(row.value) && row.value.metadata == md &&
                row.value.values == old(Contents())[0] && Contents() == old(Contents())[1..]
      ensures old(Valid()) ==> Valid()
    {
      if rowIter == [] {
        rowIter := nextRows;
        nextRows := [];
      }
      if rowIter == [] {
        row := None;
      } else {
        var r := new Row(md, rowIter[0]);
        row := Some(r);
        rowIter := rowIter[1..];
      }
    }

    /** `len`: rows in both buffers. */
    function Len(): (n: nat)
      reads this
      ensures n == |Contents()|
    {
      |nextRows| + |rowIter|
    }

    /** `has_multiple_rows`. */
    function HasMultipleRows(): (b: bool)
      reads this
      ensures b <==> |Contents()| > 1
    {
      Len() > 1
    }

    /** `number_of_fields`. */
    function NumberOfFields(): (n: nat)
      reads this
      ensures n == md.NumberOfFields()
    {
      md.NumberOfFields()
    }

    /** `field_name`. */
    function FieldName(i: nat): (r: Option<string>)
      reads this
      ensures r == md.FieldName(i)
    {
      md.FieldName(i)
    }
  }
}
