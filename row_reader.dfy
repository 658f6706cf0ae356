/**
 * `RowDeserializer` with its two access visitors, `FieldsMapVisitor` and
 * `FieldsSeqVisitor`: a reader that owns a row, takes values from it one at a
 * time and keeps its `need` in a field. Every method is proved to do what
 * `RowSpec` says on the reader's state before the call.
 */
module RowReaders {
  import opened Wrappers
  import opened Shapes
  import opened DeserializationErrors
  import opened MockValues
  import opened FieldReader
  import opened RowSpec
  import opened MockRows

  class RowReader {
    const row: Row
    var need: Need

    /** `RowDeserializer::new`. */
    constructor (row: Row)
      ensures this.row == row && need == InitialNeed(|row.values|)
    {
      this.row := row;
      need := InitialNeed(row.Len());
    }

    /** `next_value`: refuse while columns must not be left over, otherwise take the next value. */
    method NextValue() returns (r: Result<MValue, DeserializationError>)
      modifies row
      ensures (r, row.values) == RowSpec.NextValue(need, old(row.values))
    {
      if need == Must {
        return Err(TrailingCols);
      }
      var v := row.Next();
      r := if v.Some? then Ok(v.value) else Err(Usage(NoMoreValue));
    }

    /** The hints that take one value and hand it to a `FieldDeserializer`. */
    method DeserializeLeaf(s: Shape) returns (r: Result<Out, DeserializationError>)
      modifies row
      ensures RowStep(r, need, row.values) == ReadLeaf(need, old(row.values), s)
    {
      var v := NextValue();
      r := if v.Err? then Err(v.error) else ReadField(v.value, s);
    }

    /** `deserialize_identifier`: the name of the column the next value comes from. */
    method DeserializeIdentifier() returns (r: Result<Out, DeserializationError>)
      requires row.WellFormed()
      ensures row.values == [] ==> r == Err(Usage(EmptyRowIdentifier))
      ensures row.values != [] ==> r == Ok(Text(ColumnName(row.metadata, row.values)))
    {
      if row.Len() == 0 {
        return Err(Usage(EmptyRowIdentifier));
      }
      var name := row.FieldName(row.NumberOfFields() - row.Len());
      r := Ok(Text(name.value));
    }

    /** `T::deserialize(&mut RowDeserializer)` for the type whose hints are `s`. */
    method Deserialize(s: Shape) returns (r: Result<Out, DeserializationError>)
      requires row.WellFormed()
      modifies this, row
      ensures row.WellFormed()
      ensures RowStep(r, need, row.values) == ReadRow(old(need), row.metadata, old(row.values), s)
      decreases s, 2, 0, 0
    {
      match s
      case Prim(_) =>
        r := DeserializeLeaf(s);
      case Opt(_) =>
        r := DeserializeLeaf(s);
      case Newtype(inner) =>
        var x := Deserialize(inner);
        r := if x.Ok? then Ok(NewtypeV(x.value)) else x;
      case Seq(elem) =>
        if need == Done {
          r := Err(Usage(DoubleNesting));
        } else {
          need := Done;
          r := VisitSeq(elem);
        }
      case Tuple(elems) =>
        if need == Done {
          r := Err(Usage(DoubleNesting));
        } else {
          need := Done;
          r := VisitTuple(elems);
        }
      case Struct(fields) =>
        if need == Done {
          r := Err(Usage(StructInStruct));
        } else {
          need := Done;
          r := VisitStruct(fields);
        }
      case Other(h) =>
        if h == Any {
          r := DeserializeLeaf(Prim(Str));
        } else if h == Identifier {
          r := DeserializeIdentifier();
        } else if h == IgnoredAny {
          r := Err(IgnoredAnyError(row.metadata, row.values));
        } else {
          r := Err(RowRefused(h));
        }
    }

    /** `FieldsSeqVisitor::next_element_seed`: take the next value, if any, and read it as `s`. */
    method NextElement(s: Shape) returns (r: Result<Option<Out>, DeserializationError>)
      modifies row
      ensures (r, row.values) == RowSpec.NextElement(old(row.values), s)
    {
      var v := row.Next();
      if v.None? {
        return Ok(None);
      }
      var x := ReadField(v.value, s);
      r := if x.Ok? then Ok(Some(x.value)) else Err(x.error);
    }

    /** `Vec<T>`'s visitor: elements until the row is empty or one fails. */
    method VisitSeq(elem: Shape) returns (r: Result<Out, DeserializationError>)
      modifies row
      ensures RowStep(r, Done, row.values) == ReadSeqCols(old(row.values), elem, [])
    {
      var acc: seq<Out> := [];
      while true
        invariant forall k :: 0 <= k < |acc| ==> Conforms(acc[k], elem)
        invariant ReadSeqCols(row.values, elem, acc) == ReadSeqCols(old(row.values), elem, [])
        decreases |row.values|
      {
        ghost var before := row.values;
        var e := NextElement(elem);
        if e.Err? {
          return Err(e.error);
        } else if e.value.None? {
          return Ok(SeqV(acc));
        }
        assert ReadSeqCols(before, elem, acc) == ReadSeqCols(row.values, elem, acc + [e.value.value]);
        acc := acc + [e.value.value];
      }
    }

    /** A tuple's visitor: exactly one element per component, or "invalid length" when the row runs out. */
    method VisitTuple(elems: seq<Shape>) returns (r: Result<Out, DeserializationError>)
      modifies row
      ensures RowStep(r, Done, row.values) == ReadTupleCols(old(row.values), elems, [])
    {
      var acc: seq<Out> := [];
      while |acc| < |elems|
        invariant |acc| <= |elems|
        invariant forall k :: 0 <= k < |acc| ==> Conforms(acc[k], elems[k])
        invariant ReadTupleCols(row.values, elems, acc) == ReadTupleCols(old(row.values), elems, [])
        decreases |elems| - |acc|
      {
        var e := NextElement(elems[|acc|]);
        if e.Err? {
          return Err(e.error);
        } else if e.value.None? {
          return Err(SerdeError(InvalidLength));
        }
        acc := acc + [e.value.value];
      }
      r := Ok(TupleV(acc));
    }

    /** `FieldsMapVisitor::next_key_seed` with the derived identifier seed. */
    method NextKey() returns (r: Result<Option<string>, DeserializationError>)
      requires row.WellFormed()
      ensures r == Ok(RowSpec.NextKey(row.metadata, row.values))
    {
      if row.Len() == 0 {
        return Ok(None);
      }
      var id := DeserializeIdentifier();
      r := Ok(Some(id.value.s));
    }

    /** `FieldsMapVisitor::next_value_seed`. */
    method NextValueSeed(s: Shape) returns (r: Result<Out, DeserializationError>)
      requires row.WellFormed()
      modifies this, row
      ensures row.WellFormed()
      ensures RowStep(r, need, row.values) == RowSpec.NextValueSeed(old(need), row.metadata, old(row.values), s)
      decreases s, 3, 0, 0
    {
      if row.Len() == 0 {
        return Err(Usage(NoMoreMapValue));
      }
      r := Deserialize(s);
    }

    /**
     * A derived struct's visitor: for each column a key, then that field's
     * value; at the end the fields not seen are `None` or missing.
     */
    method VisitStruct(fields: seq<Field>) returns (r: Result<Out, DeserializationError>)
      requires row.WellFormed() && need == Done
      modifies this, row
      ensures row.WellFormed() && need == Done
      ensures RowStep(r, Done, row.values) == ReadStructCols(row.metadata, old(row.values), fields, NoSlots(|fields|))
      decreases Struct(fields), 1, 0, 0
    {
      var slots := NoSlots(|fields|);
      while true
        invariant row.WellFormed() && need == Done && SlotsConform(fields, slots)
        invariant ReadStructCols(row.metadata, row.values, fields, slots)
               == ReadStructCols(row.metadata, old(row.values), fields, NoSlots(|fields|))
        decreases |row.values|, Unset(slots)
      {
        var key := NextKey();
        if key.value.None? {
          var items := Finish(fields, slots, 0);
          return if items.Ok? then Ok(StructV(items.value)) else Err(items.error);
        }
        var name := key.value.value;
        var j := FieldIndex(fields, name);
        if j.None? {
          return Err(IgnoredAnyError(row.metadata, row.values));
        }
        if slots[j.value].Some? {
          return Err(SerdeError("duplicate field `" + name + "`"));
        }
        assert fields[j.value] in fields;
        var v := NextValueSeed(fields[j.value].shape);
        if v.Err? {
          return v;
        }
        FillingASlot(slots, j.value, v.value);
        slots := slots[j.value := Some(v.value)];
      }
    }
  }

  /** `DeserializableRow::try_into`: a fresh `RowDeserializer` over the row, asked for `s`. */
  method TryIntoRow(row: Row, s: Shape) returns (r: Result<Out, DeserializationError>)
    requires row.WellFormed()
    modifies row
    ensures r == ConvertRow(row.metadata, old(row.values), s)
    ensures r.Ok? ==> Conforms(r.value, s)
  {
    var rd := new RowReader(row);
    r := rd.Deserialize(s);
  }
}
