/**
 * The mock driver's `Row`: column metadata shared with its result set, and an
 * iterator over the values not yet taken. `values` is what that iterator still
 * yields; `len` shrinks with every `next`.
 */
module MockRows {
  import opened Wrappers
  import opened Shapes
  import opened DeserializationErrors
  import opened MockValues
  import opened FieldNamesMeta
  import FieldReader

  class Row {
    const metadata: FieldNames
    /** The values the row's iterator has still to yield (`value_iter.as_slice()`). */
    var values: seq<MValue>

    /** `Row::new`. */
    constructor (metadata: FieldNames, values: seq<MValue>)
      ensures this.metadata == metadata && this.values == values
    {
      this.metadata := metadata;
      this.values := values;
    }

    /** A row never holds more values than it has columns, as every row a result set builds. */
    predicate WellFormed()
      reads this
    {
      |values| <= metadata.NumberOfFields()
    }

    /** `DeserializableRow::len`: how many values are left. */
    function Len(): (n: nat)
      reads this
      ensures n == |values|
    {
      |values|
    }

    /** `DeserializableRow::number_of_fields`: the column count, which `next` does not change. */
    function NumberOfFields(): (n: nat)
      reads this
      ensures n == metadata.NumberOfFields()
    {
      metadata.NumberOfFields()
    }

    /** `DeserializableRow::field_name`. */
    function FieldName(i: nat): (r: Option<string>)
      reads this
      ensures r == metadata.FieldName(i)
    {
      metadata.FieldName(i)
    }

    /** `next`: remove and return the first remaining value. */
    method Next() returns (v: Option<MValue>)
      modifies this
      ensures old(values) == [] ==> v == None && values == old(values)
      ensures old(values) != [] ==> v == Some(old(values)[0]) && values == old(values)[1..]
      ensures WellFormed() <== old(WellFormed())
    {
      if values == [] {
        v := None;
      } else {
        v := Some(values[0]);
        values := values[1..];
      }
    }

    /**
     * `cloned_value`: the `i`-th of the values still remaining (not of the
     * original columns); indexing past the end panics.
     */
    function ClonedValue(i: nat): (v: MValue)
      reads this
      requires i < Len()
      ensures v == values[i] && v in values
    {
      values[i]
    }

    /** `field_into`: convert a copy of the `i`-th remaining value; the row is left as it is. */
    function FieldInto(i: nat, s: Shape): (r: Result<Out, DeserializationError>)
      reads this
      requires i < Len()
      ensures r.Ok? ==> Conforms(r.value, s)
      ensures r == FieldReader.ReadField(ClonedValue(i), s)
    {
      FieldReader.ReadField(values[i], s)
    }

    /**
     * `next_try_into`: take the next value and convert it; the value is gone
     * even when the conversion fails. On an empty row the source panics.
     */
    method NextTryInto(s: Shape) returns (r: Result<Out, DeserializationError>)
      requires Len() > 0
      modifies this
      ensures r == old(FieldInto(0, s))
      ensures values == old(values)[1..]
    {
      var v := Next();
      r := FieldReader.ReadField(v.value, s);
    }
  }
}
