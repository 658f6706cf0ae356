/** The mock driver's `FieldNames`: the column names a result set shares with its rows. */
module FieldNamesMeta {
  import opened Wrappers

  datatype FieldNames = FieldNames(fields: seq<string>)
  {
    /** `number_of_fields`. */
    function NumberOfFields(): nat
    {
      |fields|
    }

    /** `field_name`: the name of column `i`, or nothing past the last column. */
    function FieldName(i: nat): (r: Option<string>)
      ensures r.Some? <==> i < NumberOfFields()
    {
      if i < |fields| then Some(fields[i]) else None
    }
  }

  /** `FieldNames::new`: one name per column, in the order given. */
  function New(names: seq<string>): (f: FieldNames)
    ensures f.NumberOfFields() == |names|
    ensures forall i: nat :: i < |names| ==> f.FieldName(i) == Some(names[i])
  {
    FieldNames(names)
  }

  /**
   * The metadata is exactly its list of names: asking for the name of every
   * column in turn and building new metadata from the answers gives it back.
   */
  lemma NamesRecovered(f: FieldNames)
    ensures New(seq(f.NumberOfFields(), i requires 0 <= i < f.NumberOfFields() => f.FieldName(i).value)) == f
  {
  }
}
