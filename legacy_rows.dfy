/**
 * The older stack-style API, which the `DeserError` revision of serde_db and
 * its test utilities still use: a generic `Row` whose values are taken from
 * the back with `pop` (a reader first reverses them), the test driver's
 * `MockValue` with its panicking conversions, and `MockResultset`, which
 * likewise hands out rows from the back.
 */
module LegacyRows {
  import opened Wrappers
  import opened Seqs
  import opened Shapes
  import opened FieldNamesMeta
  import MockValues

  /** The older error type, as far as these files use it. */
  datatype DeserError = Implementation(description: string)

  const NoSuchElement := "element with index {} does not exist"

  /** The older test driver's value: never null, no `Null` variant. */
  datatype MockValue =
    | SHORT(i: i16)
    | STRING(s: string)
    | TIMESTAMP(ts: MockValues.NaiveDateTime)

  /** `DbValue::is_null`: a `MockValue` is never null. */
  predicate IsNull(v: MockValue): (b: bool)
    ensures !b
  {
    false
  }

  /**
   * `DbValueInto<T>::try_into` for the Rust type named by `k`, where the value
   * has one; `None` where the source panics instead (every other pair).
   */
  function TryInto(v: MockValue, k: PrimKind): (r: Option<Out>)
    ensures r.Some? <==> (k == I32 && v.SHORT?) || (k == Str && (v.STRING? || v.TIMESTAMP?))
    ensures r.Some? && v.SHORT? ==> r.value == Int(v.i)
    ensures r.Some? && v.STRING? ==> r.value == Text(v.s)
    ensures r.Some? ==> Conforms(r.value, Prim(k))
  {
    match k
    case I32 => if v.SHORT? then Some(Int(v.i)) else None
    case Str => (
      match v
      case STRING(s) => Some(Text(s))
      case TIMESTAMP(ts) => Some(Text(ts.display))
      case SHORT(_) => None)
    case _ => None
  }

  /** `DbValueInto<NaiveDateTime>::try_into`: a timestamp's own date-time; anything else panics. */
  function TryIntoDateTime(v: MockValue): (r: Option<MockValues.NaiveDateTime>)
    ensures r.Some? <==> v.TIMESTAMP?
    ensures r.Some? ==> r.value == v.ts
  {
    if v.TIMESTAMP? then Some(v.ts) else None
  }

  /** The current driver's value for an older one. */
  function Current(v: MockValue): MockValues.MValue
  {
    match v
    case SHORT(i) => MockValues.Short(i)
    case STRING(s) => MockValues.String(s)
    case TIMESTAMP(ts) => MockValues.Timestamp(ts)
  }

  /**
   * Where the older conversions produce a value, the current driver's
   * conversions produce the same one; they never see a null.
   */
  lemma ConversionsAgree(v: MockValue, k: PrimKind)
    ensures !MockValues.IsNull(Current(v))
    ensures TryInto(v, k).Some? ==> MockValues.Convert(Current(v), k) == Ok(TryInto(v, k).value)
  {
  }

  /** The older generic `Row`: its values are taken from the back. */
  class StackRow<V> {
    const metadata: FieldNames
    var values: seq<V>

    /** `Row::new`. */
    constructor (metadata: FieldNames, values: seq<V>)
      ensures this.metadata == metadata && this.values == values
    {
      this.metadata := metadata;
      this.values := values;
    }

    /** `len`: the number of values left. */
    function Len(): (n: nat)
      reads this
      ensures n == |values|
    {
      |values|
    }

    /** `pop`: remove and return the last value; an empty row stays as it is. */
    method Pop() returns (v: Option<V>)
      modifies this
      ensures old(values) == [] ==> v == None && values == old(values)
      ensures old(values) != [] ==>
                v == Some(old(values)[|old(values)| - 1]) && values == old(values)[..|old(values)| - 1]
    {
      if values == [] {
        v := None;
      } else {
        v := Some(values[|values| - 1]);
        values := values[..|values| - 1];
      }
    }

    /** `last`: the last value, which `pop` would return, without removing it. */
    function Last(): (r: Option<V>)
      reads this
      ensures r.Some? <==> |values| > 0
      ensures r.Some? ==> r.value == values[|values| - 1]
    {
      if values == [] then None else Some(values[|values| - 1])
    }

    /** `reverse_values`. */
    method ReverseValues()
      modifies this
      ensures values == Reverse(old(values))
    {
      values := Reverse(values);
    }

    /** `cloned_value`: a copy of value `i`, or an `Implementation` error past the end. */
    function ClonedValue(i: nat): (r: Result<V, DeserError>)
      reads this
      ensures r.Ok? <==> i < |values|
      ensures r.Ok? ==> r.value == values[i]
      ensures r.Err? ==> r.error == Implementation(NoSuchElement)
    {
      if i < |values| then Ok(values[i]) else Err(Implementation(NoSuchElement))
    }

    /**
     * `field_into_typed`: convert a copy of value `i` with the value's own
     * conversion `into`; the row is only read.
     */
    function FieldIntoTyped<T>(i: nat, into: V -> Result<T, DeserError>): (r: Result<T, DeserError>)
      reads this
      ensures i < |values| ==> r == into(values[i])
      ensures i >= |values| ==> r == Err(Implementation(NoSuchElement))
    {
      match ClonedValue(i)
      case Err(e) => Err(e)
      case Ok(v) => into(v)
    }

    /** `pop_into_typed`: take the last value and convert it; on an empty row the source panics. */
    method PopIntoTyped<T>(into: V -> Result<T, DeserError>) returns (r: Result<T, DeserError>)
      requires |values| > 0
      modifies this
      ensures r == into(old(values)[|old(values)| - 1])
      ensures values == old(values)[..|old(values)| - 1]
    {
      var v := Pop();
      r := into(v.value);
    }

    /** `get_fieldname`: the metadata's name for column `i`. */
    function GetFieldname(i: nat): (r: Option<string>)
      reads this
      ensures r.Some? <==> i < metadata.NumberOfFields()
      ensures r.Some? ==> r.value == metadata.fields[i]
    {
      metadata.FieldName(i)
    }
  }

  /**
   * Popping from the back of a reversed sequence takes its first element and
   * leaves the rest reversed: reverse-then-pop reads values in their original order.
   */
  lemma ReversedStackIsQueue<T>(s: seq<T>)
    requires s != []
    ensures Reverse(s)[|s| - 1] == s[0]
    ensures Reverse(s)[..|s| - 1] == Reverse(s[1..])
  {
    var r := Reverse(s);
    forall i | 0 <= i < |s| - 1
      ensures r[..|s| - 1][i] == Reverse(s[1..])[i]
    {
      assert s[1..][|s[1..]| - 1 - i] == s[|s| - 1 - i];
    }
  }

  /** The older test driver's result set: rows are pushed at the back and popped from the back. */
  class MockResultset {
    const md: FieldNames
    /** The rows' values, in the order they were pushed. */
    var rows: seq<seq<MockValue>>

    /** `MockResultset::new`: no rows yet, the given column names. */
    constructor (fields: seq<string>)
      ensures md == New(fields) && rows == []
    {
      md := New(fields);
      rows := [];
    }

    /** `push`: the source asserts that the row has one value per column. */
    method Push(values: seq<MockValue>)
      requires |values| == md.NumberOfFields()
      modifies this
      ensures rows == old(rows) + [values]
    {
      rows := rows + [values];
    }

    /** `has_multiple_rows`. */
    function HasMultipleRows(): (r: bool)
      reads this
      ensures r <==> |rows| > 1
    {
      |rows| > 1
    }

    /** `last_row`: the row `pop_row` would return, without removing it. */
    function LastRow(): (r: Option<seq<MockValue>>)
      reads this
      ensures r.Some? <==> |rows| > 0
      ensures r.Some? ==> r.value == rows[|rows| - 1]
    {
      if rows == [] then None else Some(rows[|rows| - 1])
    }

    /** `reverse_rows`. */
    method ReverseRows()
      modifies this
      ensures rows == Reverse(old(rows))
    {
      rows := Reverse(rows);
    }

    /** `pop_row`: remove the last row and hand it out as a `Row` sharing the metadata. */
    method PopRow() returns (r: Option<StackRow<MockValue>>)
      modifies this
      ensures old(rows) == [] ==> r == None && rows == old(rows)
      ensures old(rows) != [] ==>
                r.Some? && fresh(r.value) && r.value.metadata == md &&
                r.value.values == old(rows)[|old(rows)| - 1] && rows == old(rows)[..|old(rows)| - 1]
    {
      if rows == [] {
        r := None;
      } else {
        var row := new StackRow(md, rows[|rows| - 1]);
        rows := rows[..|rows| - 1];
        r := Some(row);
      }
    }

    /** `number_of_fields`. */
    function NumberOfFields(): (n: nat)
      ensures n == |md.fields|
    {
      md.NumberOfFields()
    }

    /** `get_fieldname`. */
    function GetFieldname(i: nat): (r: Option<string>)
      ensures r.Some? <==> i < |md.fields|
      ensures r.Some? ==> r.value == md.fields[i]
    {
      md.FieldName(i)
    }
  }
}
