/** What the row reader promises: the collapse rules, what each hint consumes, and when it fails. */
module RowLaws {
  import opened Wrappers
  import opened Shapes
  import opened DeserializationErrors
  import opened MockValues
  import opened FieldNamesMeta
  import opened FieldReader
  import opened RowSpec

  /** The shape a leaf hint hands to the `FieldDeserializer`: `deserialize_any` reads a `String`. */
  function LeafShape(s: Shape): Shape
    requires IsLeaf(s)
  {
    if s == Other(Any) then Prim(Str) else s
  }

  /**
   * A leaf hint while columns must not be left over fails with `TrailingCols`
   * and takes nothing; otherwise it takes exactly the next value, or fails with
   * `Usage` on an empty row.
   */
  lemma LeafRead(need: Need, names: FieldNames, vs: seq<MValue>, s: Shape)
    requires Fits(names, vs) && IsLeaf(s)
    ensures need == Must ==> ReadRow(need, names, vs, s) == RowStep(Err(TrailingCols), need, vs)
    ensures need != Must && vs == [] ==> ReadRow(need, names, vs, s) == RowStep(Err(Usage(NoMoreValue)), need, vs)
    ensures need != Must && vs != [] ==>
              ReadRow(need, names, vs, s) == RowStep(ReadField(vs[0], LeafShape(s)), need, vs[1..])
  {
  }

  /**
   * Dimensional collapse of a row: a plain value (or an `Option` of one) can be
   * read from a row only when it has exactly one value; a row with none or
   * several is refused with `TrailingCols`.
   */
  lemma RowCollapse(names: FieldNames, vs: seq<MValue>, s: Shape)
    requires Fits(names, vs) && IsLeaf(s)
    ensures |vs| != 1 ==> ConvertRow(names, vs, s) == Err(TrailingCols)
    ensures |vs| == 1 ==> ConvertRow(names, vs, s) == ReadField(vs[0], LeafShape(s))
  {
    LeafRead(InitialNeed(|vs|), names, vs, s);
  }

  /** Once the row has been opened as a container, a nested container is refused and nothing is taken. */
  lemma NoDoubleNesting(names: FieldNames, vs: seq<MValue>, s: Shape)
    requires Fits(names, vs) && (s.Seq? || s.Tuple? || s.Struct?)
    ensures ReadRow(Done, names, vs, s).result.Err?
    ensures ReadRow(Done, names, vs, s).result.error.Usage?
    ensures ReadRow(Done, names, vs, s).rest == vs
  {
  }

  /** The values a sequence of reads as `elem` produces, if all succeed. */
  predicate ReadsAs(vs: seq<MValue>, elem: Shape, items: seq<Out>)
  {
    |items| == |vs| && forall k :: 0 <= k < |vs| ==> ReadField(vs[k], elem) == Ok(items[k])
  }

  lemma {:induction false} SeqColsReadAll(vs: seq<MValue>, elem: Shape, acc: seq<Out>)
    requires forall k :: 0 <= k < |acc| ==> Conforms(acc[k], elem)
    ensures ReadSeqCols(vs, elem, acc).result.Ok? ==>
              ReadSeqCols(vs, elem, acc).rest == [] &&
              ReadSeqCols(vs, elem, acc).result.value.SeqV? &&
              var items := ReadSeqCols(vs, elem, acc).result.value.items;
              |acc| <= |items| && items[..|acc|] == acc && ReadsAs(vs, elem, items[|acc|..])
    decreases |vs|
  {
    if vs != [] && ReadField(vs[0], elem).Ok? {
      var o := ReadField(vs[0], elem).value;
      assert ReadSeqCols(vs, elem, acc) == ReadSeqCols(vs[1..], elem, acc + [o]);
      SeqColsReadAll(vs[1..], elem, acc + [o]);
      if ReadSeqCols(vs, elem, acc).result.Ok? {
        SeqColsCons(vs, elem, acc, ReadSeqCols(vs, elem, acc).result.value.items);
      }
    }
  }

  /** The elements read after `acc + [o]` from `vs[1..]` are those read after `acc` from `vs`. */
  lemma SeqColsCons(vs: seq<MValue>, elem: Shape, acc: seq<Out>, items: seq<Out>)
    requires vs != [] && ReadField(vs[0], elem).Ok?
    requires var acc' := acc + [ReadField(vs[0], elem).value];
             |acc'| <= |items| && items[..|acc'|] == acc' && ReadsAs(vs[1..], elem, items[|acc'|..])
    ensures |acc| <= |items| && items[..|acc|] == acc && ReadsAs(vs, elem, items[|acc|..])
  {
    var acc' := acc + [ReadField(vs[0], elem).value];
    assert items[..|acc|] == (items[..|acc'|])[..|acc|];
    assert items[|acc|..][1..] == items[|acc'|..];
    ReadsAsCons(vs, elem, items[|acc|..]);
  }

  lemma ReadsAsCons(vs: seq<MValue>, elem: Shape, items: seq<Out>)
    requires vs != [] && items != [] && ReadField(vs[0], elem) == Ok(items[0])
    requires ReadsAs(vs[1..], elem, items[1..])
    ensures ReadsAs(vs, elem, items)
  {
    forall k | 0 < k < |vs|
      ensures ReadField(vs[k], elem) == Ok(items[k])
    {
      assert vs[k] == vs[1..][k - 1] && items[k] == items[1..][k - 1];
    }
  }

  /** A row read as a `Vec` takes every remaining value, one element per value, in column order. */
  lemma SeqTakesWholeRow(need: Need, names: FieldNames, vs: seq<MValue>, elem: Shape)
    requires Fits(names, vs) && need != Done
    ensures ReadRow(need, names, vs, Seq(elem)).result.Ok? ==>
              ReadRow(need, names, vs, Seq(elem)).rest == [] &&
              ReadsAs(vs, elem, ReadRow(need, names, vs, Seq(elem)).result.value.items)
    ensures ReadRow(need, names, vs, Seq(elem)).need == Done
  {
    SeqColsReadAll(vs, elem, []);
  }

  /** Every remaining value reads as `elem`, so the sequence visitor reaches the end of the row. */
  lemma {:induction false} SeqColsSucceed(vs: seq<MValue>, elem: Shape, acc: seq<Out>)
    requires forall k :: 0 <= k < |acc| ==> Conforms(acc[k], elem)
    requires forall k :: 0 <= k < |vs| ==> ReadField(vs[k], elem).Ok?
    ensures ReadSeqCols(vs, elem, acc).result.Ok?
    decreases |vs|
  {
    if vs != [] {
      var o := ReadField(vs[0], elem).value;
      assert ReadSeqCols(vs, elem, acc) == ReadSeqCols(vs[1..], elem, acc + [o]);
      forall k | 0 <= k < |vs[1..]|
        ensures ReadField(vs[1..][k], elem).Ok?
      {
        assert vs[1..][k] == vs[k + 1];
      }
      SeqColsSucceed(vs[1..], elem, acc + [o]);
    }
  }

  /**
   * The first value that does not read as `elem` ends the sequence with that
   * value's error; the values after it are left in the row.
   */
  lemma {:induction false} SeqColsFirstError(vs: seq<MValue>, elem: Shape, acc: seq<Out>, i: nat)
    requires forall k :: 0 <= k < |acc| ==> Conforms(acc[k], elem)
    requires i < |vs| && ReadField(vs[i], elem).Err?
    requires forall k :: 0 <= k < i ==> ReadField(vs[k], elem).Ok?
    ensures ReadSeqCols(vs, elem, acc).result == Err(ReadField(vs[i], elem).error)
    ensures ReadSeqCols(vs, elem, acc).rest == vs[i + 1..]
    decreases |vs|
  {
    if i > 0 {
      var o := ReadField(vs[0], elem).value;
      assert ReadSeqCols(vs, elem, acc) == ReadSeqCols(vs[1..], elem, acc + [o]);
      forall k | 0 <= k < i - 1
        ensures ReadField(vs[1..][k], elem).Ok?
      {
        assert vs[1..][k] == vs[k + 1];
      }
      assert vs[1..][i - 1] == vs[i] && vs[1..][i..] == vs[i + 1..];
      SeqColsFirstError(vs[1..], elem, acc + [o], i - 1);
    }
  }

  /** A row read as a `Vec` succeeds exactly when every remaining value reads as the element type. */
  lemma SeqRowOutcome(need: Need, names: FieldNames, vs: seq<MValue>, elem: Shape)
    requires Fits(names, vs) && need != Done
    ensures ReadRow(need, names, vs, Seq(elem)).result.Ok? <==>
              forall k :: 0 <= k < |vs| ==> ReadField(vs[k], elem).Ok?
  {
    SeqColsReadAll(vs, elem, []);
    if forall k :: 0 <= k < |vs| ==> ReadField(vs[k], elem).Ok? {
      SeqColsSucceed(vs, elem, []);
    }
  }

  /** Otherwise the row read as a `Vec` fails with the error of the first value that does not read. */
  lemma SeqRowFirstError(need: Need, names: FieldNames, vs: seq<MValue>, elem: Shape, i: nat)
    requires Fits(names, vs) && need != Done
    requires i < |vs| && ReadField(vs[i], elem).Err?
    requires forall k :: 0 <= k < i ==> ReadField(vs[k], elem).Ok?
    ensures ReadRow(need, names, vs, Seq(elem)).result == Err(ReadField(vs[i], elem).error)
  {
    SeqColsFirstError(vs, elem, [], i);
  }

  lemma {:induction false} TupleColsTakePrefix(vs: seq<MValue>, elems: seq<Shape>, acc: seq<Out>)
    requires |acc| <= |elems|
    requires forall k :: 0 <= k < |acc| ==> Conforms(acc[k], elems[k])
    ensures var st := ReadTupleCols(vs, elems, acc);
            st.result.Ok? ==>
              |elems| - |acc| <= |vs| && st.rest == vs[|elems| - |acc|..] &&
              st.result.value.TupleV? && |st.result.value.items| == |elems| &&
              st.result.value.items[..|acc|] == acc &&
              forall k :: |acc| <= k < |elems| ==> ReadField(vs[k - |acc|], elems[k]) == Ok(st.result.value.items[k])
    decreases |elems| - |acc|
  {
    if |acc| < |elems| && vs != [] && ReadField(vs[0], elems[|acc|]).Ok? {
      var o := ReadField(vs[0], elems[|acc|]).value;
      TupleColsStep(vs, elems, acc);
      TupleColsTakePrefix(vs[1..], elems, acc + [o]);
      var st := ReadTupleCols(vs, elems, acc);
      if st.result.Ok? {
        PrefixExtends(vs, elems, acc, o, st.result.value.items);
      }
    }
  }

  /** The elements read after the first value, and the first value's own, make up the elements read from the whole. */
  lemma PrefixExtends(vs: seq<MValue>, elems: seq<Shape>, acc: seq<Out>, o: Out, items: seq<Out>)
    requires |acc| < |elems| && vs != [] && ReadField(vs[0], elems[|acc|]) == Ok(o)
    requires |items| == |elems| && items[..|acc| + 1] == acc + [o]
    requires |elems| - (|acc| + 1) <= |vs[1..]|
    requires forall k :: |acc| + 1 <= k < |elems| ==> ReadField(vs[1..][k - (|acc| + 1)], elems[k]) == Ok(items[k])
    ensures items[..|acc|] == acc
    ensures vs[1..][|elems| - (|acc| + 1)..] == vs[|elems| - |acc|..]
    ensures forall k :: |acc| <= k < |elems| ==> ReadField(vs[k - |acc|], elems[k]) == Ok(items[k])
  {
    assert items[..|acc|] == (items[..|acc| + 1])[..|acc|];
    forall k | |acc| <= k < |elems|
      ensures ReadField(vs[k - |acc|], elems[k]) == Ok(items[k])
    {
      if k == |acc| {
        assert items[k] == items[..|acc| + 1][k] == o;
      } else {
        assert vs[k - |acc|] == vs[1..][k - (|acc| + 1)];
      }
    }
  }

  /**
   * A row read as an n-tuple takes exactly the next n values, element k from
   * value k; values beyond the tuple stay in the row, and a row with fewer
   * values than the tuple has elements fails.
   */
  lemma TupleTakesPrefix(need: Need, names: FieldNames, vs: seq<MValue>, elems: seq<Shape>)
    requires Fits(names, vs) && need != Done
    ensures var st := ReadRow(need, names, vs, Tuple(elems));
            st.result.Ok? ==>
              |elems| <= |vs| && st.rest == vs[|elems|..] &&
              forall k :: 0 <= k < |elems| ==> ReadField(vs[k], elems[k]) == Ok(st.result.value.items[k])
    ensures |vs| < |elems| ==> ReadRow(need, names, vs, Tuple(elems)).result.Err?
  {
    TupleColsTakePrefix(vs, elems, []);
  }

  /** The names of the columns whose values are still in the row. */
  function RemainingColumns(names: FieldNames, vs: seq<MValue>): seq<string>
    requires Fits(names, vs)
  {
    names.fields[names.NumberOfFields() - |vs|..]
  }

  predicate Declares(fields: seq<Field>, name: string)
  {
    exists j :: 0 <= j < |fields| && fields[j].name == name
  }

  /** A member of an opened row takes at most one value (an identifier takes none). */
  lemma {:induction false} MemberTakesAtMostOne(names: FieldNames, vs: seq<MValue>, s: Shape)
    requires Fits(names, vs)
    ensures var st := ReadRow(Done, names, vs, s);
            st.result.Ok? ==> st.rest == vs || (vs != [] && st.rest == vs[1..])
  {
    if s.Newtype? {
      MemberTakesAtMostOne(names, vs, s.inner);
    }
  }

  /** Every column in `cols` names a field of the struct. */
  predicate AllDeclared(fields: seq<Field>, cols: seq<string>)
  {
    forall k :: 0 <= k < |cols| ==> Declares(fields, cols[k])
  }

  lemma {:induction false} StructColsCover(names: FieldNames, vs: seq<MValue>, fields: seq<Field>, slots: Slots)
    requires Fits(names, vs) && SlotsConform(fields, slots)
    ensures ReadStructCols(names, vs, fields, slots).result.Ok? ==>
              ReadStructCols(names, vs, fields, slots).rest == [] &&
              AllDeclared(fields, RemainingColumns(names, vs))
    decreases |vs|, Unset(slots)
  {
    var st := ReadStructCols(names, vs, fields, slots);
    if vs != [] && st.result.Ok? {
      var name := ColumnName(names, vs);
      var j := FieldIndex(fields, name).value;
      var v := NextValueSeed(Done, names, vs, fields[j].shape);
      FillingASlot(slots, j, v.result.value);
      var slots' := slots[j := Some(v.result.value)];
      assert st == ReadStructCols(names, v.rest, fields, slots');
      MemberTakesAtMostOne(names, vs, fields[j].shape);
      StructColsCover(names, v.rest, fields, slots');
      if v.rest != vs {
        DeclaredCons(fields, names, vs, j);
      }
    }
  }

  lemma DeclaredCons(fields: seq<Field>, names: FieldNames, vs: seq<MValue>, j: nat)
    requires Fits(names, vs) && vs != [] && j < |fields| && fields[j].name == ColumnName(names, vs)
    requires AllDeclared(fields, RemainingColumns(names, vs[1..]))
    ensures AllDeclared(fields, RemainingColumns(names, vs))
  {
    var cols := RemainingColumns(names, vs);
    forall k | 0 <= k < |cols|
      ensures Declares(fields, cols[k])
    {
      if k > 0 {
        assert cols[k] == RemainingColumns(names, vs[1..])[k - 1];
      }
    }
  }

  /**
   * A row read as a struct takes every remaining value, and succeeds only if
   * every remaining column's name is one of the struct's fields: a column the
   * struct does not declare is an `UnknownField` error, never silently dropped.
   */
  lemma StructCoversRow(need: Need, names: FieldNames, vs: seq<MValue>, fields: seq<Field>)
    requires Fits(names, vs) && need != Done
    ensures var st := ReadRow(need, names, vs, Struct(fields));
            st.result.Ok? ==>
              st.rest == [] && AllDeclared(fields, RemainingColumns(names, vs))
    ensures ReadRow(need, names, vs, Struct(fields)).need == Done
  {
    StructColsCover(names, vs, fields, NoSlots(|fields|));
  }

  /** The first remaining column not declared by the struct is reported by name. */
  lemma UnknownColumnReported(need: Need, names: FieldNames, vs: seq<MValue>, fields: seq<Field>)
    requires Fits(names, vs) && need != Done && vs != []
    requires !Declares(fields, ColumnName(names, vs))
    ensures ReadRow(need, names, vs, Struct(fields)).result == Err(UnknownField(ColumnName(names, vs)))
  {
  }

  /**
   * One step of a derived struct over a row: the current column names field
   * `j`, not seen yet, so the column's own value is read as that field and
   * fills its slot; a value that does not convert ends the read with its error.
   */
  lemma StructStep(names: FieldNames, vs: seq<MValue>, fields: seq<Field>, slots: Slots, j: nat)
    requires Fits(names, vs) && SlotsConform(fields, slots) && vs != []
    requires FieldIndex(fields, ColumnName(names, vs)) == Some(j) && slots[j].None? && IsLeaf(fields[j].shape)
    ensures var o := ReadField(vs[0], LeafShape(fields[j].shape));
            (o.Err? ==> ReadStructCols(names, vs, fields, slots) == RowStep(o, Done, vs[1..])) &&
            (o.Ok? ==> SlotsConform(fields, slots[j := Some(o.value)]) &&
                       ReadStructCols(names, vs, fields, slots) ==
                       ReadStructCols(names, vs[1..], fields, slots[j := Some(o.value)]))
  {
    LeafRead(Done, names, vs, fields[j].shape);
  }

  /** At the end of the row the derived struct is finished from its slots. */
  lemma StructEnd(names: FieldNames, fields: seq<Field>, slots: Slots)
    requires SlotsConform(fields, slots)
    ensures var f := Finish(fields, slots, 0);
            ReadStructCols(names, [], fields, slots).result == if f.Ok? then Ok(StructV(f.value)) else Err(f.error)
  {
  }

  /** The value a finished struct holds for field `j`: the value seen, or `None` for an unseen `Option`. */
  function SlotValue(fields: seq<Field>, slots: Slots, j: nat): Out
    requires j < |fields| == |slots|
  {
    if slots[j].Some? then slots[j].value else NoneV
  }

  /**
   * A derived struct finishes exactly when every field was seen or is an
   * `Option`; it then holds, field by field in declaration order, the value
   * seen or `None`.
   */
  lemma {:induction false} FinishFills(fields: seq<Field>, slots: Slots, i: nat)
    requires SlotsConform(fields, slots) && i <= |fields|
    ensures var r := Finish(fields, slots, i);
            (r.Ok? <==> forall j :: i <= j < |fields| ==> slots[j].Some? || fields[j].shape.Opt?) &&
            (r.Ok? ==> forall k :: 0 <= k < |r.value| ==> r.value[k] == SlotValue(fields, slots, i + k))
    decreases |fields| - i
  {
    if i < |fields| {
      FinishFills(fields, slots, i + 1);
      var r := Finish(fields, slots, i);
      if r.Ok? {
        var tail := Finish(fields, slots, i + 1);
        assert r.value == [SlotValue(fields, slots, i)] + tail.value;
      }
    }
  }

  /** Each of the first values that a tuple's elements take reads as its element. */
  predicate ElementsRead(vs: seq<MValue>, elems: seq<Shape>, from: nat)
    requires from <= |elems|
  {
    forall k :: 0 <= k < |vs| && from + k < |elems| ==> ReadField(vs[k], elems[from + k]).Ok?
  }

  lemma {:induction false} TupleColsOutcome(vs: seq<MValue>, elems: seq<Shape>, acc: seq<Out>)
    requires |acc| <= |elems|
    requires forall k :: 0 <= k < |acc| ==> Conforms(acc[k], elems[k])
    requires ElementsRead(vs, elems, |acc|)
    ensures |elems| - |acc| <= |vs| ==> ReadTupleCols(vs, elems, acc).result.Ok?
    ensures |elems| - |acc| > |vs| ==> ReadTupleCols(vs, elems, acc).result == Err(SerdeError(InvalidLength))
    decreases |elems| - |acc|
  {
    if |acc| < |elems| && vs != [] {
      ElementsReadShift(vs, elems, |acc|);
      TupleColsStep(vs, elems, acc);
      TupleColsOutcome(vs[1..], elems, acc + [ReadField(vs[0], elems[|acc|]).value]);
    }
  }

  /** A value that reads as the next element is appended to the elements read so far. */
  lemma TupleColsStep(vs: seq<MValue>, elems: seq<Shape>, acc: seq<Out>)
    requires |acc| < |elems| && vs != []
    requires forall k :: 0 <= k < |acc| ==> Conforms(acc[k], elems[k])
    requires ReadField(vs[0], elems[|acc|]).Ok?
    ensures var acc' := acc + [ReadField(vs[0], elems[|acc|]).value];
            (forall k :: 0 <= k < |acc'| ==> Conforms(acc'[k], elems[k])) &&
            ReadTupleCols(vs, elems, acc) == ReadTupleCols(vs[1..], elems, acc')
  {
  }

  lemma ElementsReadShift(vs: seq<MValue>, elems: seq<Shape>, from: nat)
    requires from < |elems| && vs != [] && ElementsRead(vs, elems, from)
    ensures ReadField(vs[0], elems[from]).Ok? && ElementsRead(vs[1..], elems, from + 1)
  {
    forall k | 0 <= k < |vs[1..]| && from + 1 + k < |elems|
      ensures ReadField(vs[1..][k], elems[from + 1 + k]).Ok?
    {
      assert vs[1..][k] == vs[k + 1];
    }
  }

  /**
   * A row read as an n-tuple whose values convert succeeds exactly when the
   * row still has at least n values; with fewer it fails with serde's
   * invalid-length error.
   */
  lemma TupleOutcome(need: Need, names: FieldNames, vs: seq<MValue>, elems: seq<Shape>)
    requires Fits(names, vs) && need != Done && ElementsRead(vs, elems, 0)
    ensures |elems| <= |vs| ==> ReadRow(need, names, vs, Tuple(elems)).result.Ok?
    ensures |elems| > |vs| ==> ReadRow(need, names, vs, Tuple(elems)).result == Err(SerdeError(InvalidLength))
  {
    TupleColsOutcome(vs, elems, []);
  }

  /** A row opened as a struct starts the derived visitor with no field seen. */
  lemma StructRowUnfold(need: Need, names: FieldNames, vs: seq<MValue>, fields: seq<Field>)
    requires Fits(names, vs) && need != Done
    ensures ReadRow(need, names, vs, Struct(fields)) == ReadStructCols(names, vs, fields, NoSlots(|fields|))
  {
  }

  /**
   * A newtype is transparent to the row reader: it reads what its inner type
   * reads, from the same values and with the same `need` afterwards, wrapped
   * on success and with the same error otherwise.
   */
  lemma RowNewtypeTransparent(need: Need, names: FieldNames, vs: seq<MValue>, s: Shape)
    requires Fits(names, vs)
    ensures var outer, inner := ReadRow(need, names, vs, Newtype(s)), ReadRow(need, names, vs, s);
            outer.need == inner.need && outer.rest == inner.rest &&
            (outer.result.Ok? <==> inner.result.Ok?) &&
            (inner.result.Ok? ==> outer.result == Ok(NewtypeV(inner.result.value))) &&
            (inner.result.Err? ==> outer.result == inner.result)
  {
  }

  /**
   * `deserialize_char`, `_unit`, `_map`, `_unit_struct`, `_tuple_struct` and
   * `_enum` are not implemented by the row reader: whatever the state, they
   * report so and take nothing from the row.
   */
  lemma RowHintsRefused(need: Need, names: FieldNames, vs: seq<MValue>, h: Hint)
    requires Fits(names, vs) && h != Any && h != Identifier && h != IgnoredAny
    ensures ReadRow(need, names, vs, Other(h)) == RowStep(Err(RowRefused(h)), need, vs)
    ensures ReadRow(need, names, vs, Other(h)).result.error.NotImplemented?
  {
  }
}
