/**
 * serde_db's parameter `Serializer`: it walks a Rust value, asks the next
 * parameter descriptor to turn each primitive into a database value, and
 * collects those values in order. `Write` is the meaning of one walk; the
 * `Serializer` class performs it step by step and is proved against it.
 */
module ParamSerializer {
  import opened Wrappers
  import opened Seqs
  import opened SerializationErrors
  import opened ParameterTypes
  import opened SerValues
  import opened MockFactory
  import MockValues

  datatype Outcome = Pass | Fail(error: SerializationError)

  /** The serializer's state: the descriptors still to come and the values written so far. */
  datatype Writer = Writer(metadata: seq<ParameterType>, output: seq<MValue>)

  const TooManyValues := "too many values specified"
  const StructVariantRefused := "serialize_struct_variant() not implemented"

  /** `get_current_field`: take the next descriptor, or fail when there is none left. */
  function CurrentFieldOf(metadata: seq<ParameterType>): (r: (Result<ParameterType, SerializationError>, seq<ParameterType>))
    ensures metadata == [] ==> r == (Err(FromStaticStr(TooManyValues)), metadata)
    ensures metadata != [] ==> r == (Ok(metadata[0]), metadata[1..])
  {
    if metadata == [] then (Err(FromStaticStr(TooManyValues)), metadata) else (Ok(metadata[0]), metadata[1..])
  }

  /** Write one value produced by the factory from the next descriptor. */
  function WriteWith(w: Writer, make: ParameterType -> Result<MValue, SerializationError>): (r: (Outcome, Writer))
    ensures w.metadata == [] ==> r == (Fail(StructuralMismatch(TooManyValues)), w)
    ensures w.metadata != [] ==> r.1.metadata == w.metadata[1..]
    ensures w.metadata != [] && make(w.metadata[0]).Ok? ==>
              r == (Pass, Writer(w.metadata[1..], w.output + [make(w.metadata[0]).value]))
    ensures w.metadata != [] && make(w.metadata[0]).Err? ==>
              r == (Fail(make(w.metadata[0]).error), Writer(w.metadata[1..], w.output))
  {
    match CurrentFieldOf(w.metadata)
    case (Err(e), rest) => (Fail(e), w)
    case (Ok(df), rest) =>
      match make(df)
      case Ok(v) => (Pass, Writer(rest, w.output + [v]))
      case Err(e) => (Fail(e), Writer(rest, w.output))
  }

  /** `serialize_unit_struct` / `serialize_unit_variant`: consume a descriptor, then refuse. */
  function Refuse(w: Writer, what: string): (r: (Outcome, Writer))
    ensures w.metadata == [] ==> r == (Fail(StructuralMismatch(TooManyValues)), w)
    ensures w.metadata != [] ==>
              r == (Fail(TypeError(what, Descriptor(w.metadata[0]))), Writer(w.metadata[1..], w.output))
  {
    match CurrentFieldOf(w.metadata)
    case (Err(e), _) => (Fail(e), w)
    case (Ok(df), rest) => (Fail(TypeError(what, Descriptor(df))), Writer(rest, w.output))
  }

  /**
   * `w'` is what writing on from `w` can leave behind: descriptors are only
   * consumed and values only added, never more values than descriptors consumed.
   */
  predicate Advances(w: Writer, w': Writer)
  {
    |w'.metadata| <= |w.metadata| &&
    |w.output| <= |w'.output| <= |w.output| + (|w.metadata| - |w'.metadata|)
  }

  /** The meaning of `value.serialize(&mut serializer)`. */
  function Write(parse: TimestampParser, w: Writer, v: SerValue): (r: (Outcome, Writer))
    ensures Advances(w, r.1)
    decreases v
  {
    match v
    case Scalar(p) => WriteWith(w, pt => FromPrimitive(parse, pt, p))
    case UnitValue => WriteWith(w, FromNone)
    case NoneValue => WriteWith(w, FromNone)
    case UnitStructValue => Refuse(w, "unit_struct")
    case UnitVariantValue => Refuse(w, "unit_variant")
    case SomeValue(inner) => Write(parse, w, inner)
    case NewtypeStructValue(inner) => Write(parse, w, inner)
    case NewtypeVariantValue(inner) => Write(parse, w, inner)
    case SeqValue(items) => WriteAll(parse, w, items)
    case TupleValue(items) => WriteAll(parse, w, items)
    case TupleStructValue(items) => WriteAll(parse, w, items)
    case TupleVariantValue(items) => WriteAll(parse, w, items)
    case MapValue(entries) => WriteEntries(parse, w, entries)
    case StructValue(fields) => WriteFields(parse, w, fields)
    case StructVariantValue(_) => (Fail(StructuralMismatch(StructVariantRefused)), w)
  }

  /** `serialize_element` / `serialize_field` for each item, stopping at the first error. */
  function WriteAll(parse: TimestampParser, w: Writer, items: seq<SerValue>): (r: (Outcome, Writer))
    ensures Advances(w, r.1)
    decreases items
  {
    if items == [] then (Pass, w)
    else
      var (o, w') := Write(parse, w, items[0]);
      if o.Fail? then (o, w')
      else
        var last := WriteAll(parse, w', items[1..]);
        last
  }

  /** A map's keys write nothing (`serialize_key` returns at once); its values are written in order. */
  function WriteEntries(parse: TimestampParser, w: Writer, entries: seq<MapEntry>): (r: (Outcome, Writer))
    ensures Advances(w, r.1)
    decreases entries
  {
    if entries == [] then (Pass, w)
    else
      assert entries[0] in entries && entries[0].value < entries[0];
      var (o, w') := Write(parse, w, entries[0].value);
      if o.Fail? then (o, w')
      else
        var last := WriteEntries(parse, w', entries[1..]);
        last
  }

  /** A struct's field names are ignored; its field values are written in declaration order. */
  function WriteFields(parse: TimestampParser, w: Writer, fields: seq<StructField>): (r: (Outcome, Writer))
    ensures Advances(w, r.1)
    decreases fields
  {
    if fields == [] then (Pass, w)
    else
      assert fields[0] in fields;
      var (o, w') := Write(parse, w, fields[0].value);
      if o.Fail? then (o, w')
      else
        var last := WriteFields(parse, w', fields[1..]);
        last
  }

  /** `to_params`: the values written for `v` against the descriptors, or the first error. */
  function Params(parse: TimestampParser, v: SerValue, metadata: seq<ParameterType>): (r: Result<seq<MValue>, SerializationError>)
    ensures r.Ok? ==> |r.value| <= |metadata|
  {
    var (o, w) := Write(parse, Writer(metadata, []), v);
    if o.Pass? then Ok(w.output) else Err(o.error)
  }

  /**
   * The factory call a leaf write makes against descriptor `pt`: the
   * reference each written value is checked against.
   */
  function Made(parse: TimestampParser, leaf: Leaf, pt: ParameterType): Result<MValue, SerializationError>
  {
    match leaf
    case LPrim(p) => FromPrimitive(parse, pt, p)
    case LNone => FromNone(pt)
    case LUnitStruct => Err(TypeError("unit_struct", Descriptor(pt)))
    case LUnitVariant => Err(TypeError("unit_variant", Descriptor(pt)))
  }

  /**
   * `w'` is `w` after the leaf writes `ls` all succeeded: one descriptor
   * consumed from the front per leaf, earlier output kept, and the `k`-th
   * new value made from the `k`-th leaf and the `k`-th descriptor.
   */
  predicate Spans(parse: TimestampParser, w: Writer, w': Writer, ls: seq<Leaf>)
  {
    |ls| <= |w.metadata| && w'.metadata == w.metadata[|ls|..] &&
    |w'.output| == |w.output| + |ls| && w'.output[..|w.output|] == w.output &&
    forall k :: 0 <= k < |ls| ==> Made(parse, ls[k], w.metadata[k]) == Ok(w'.output[|w.output| + k])
  }

  lemma Chain(parse: TimestampParser, w: Writer, w1: Writer, w2: Writer, a: seq<Leaf>, b: seq<Leaf>)
    requires Spans(parse, w, w1, a) && Spans(parse, w1, w2, b)
    ensures Spans(parse, w, w2, a + b)
  {
    assert w2.metadata == w.metadata[|a|..][|b|..];
    assert w2.output[..|w.output|] == w2.output[..|w1.output|][..|w.output|];
    forall k | 0 <= k < |a + b|
      ensures Made(parse, (a + b)[k], w.metadata[k]) == Ok(w2.output[|w.output| + k])
    {
      if k < |a| {
        assert w2.output[..|w1.output|][|w.output| + k] == w2.output[|w.output| + k];
      } else {
        assert w1.metadata[k - |a|] == w.metadata[k];
      }
    }
  }

  /** A successful write of `v` makes one value per leaf of `v`, in order, each from its own descriptor. */
  lemma {:induction false} WriteSpans(parse: TimestampParser, w: Writer, v: SerValue)
    ensures Write(parse, w, v).0.Pass? ==> Spans(parse, w, Write(parse, w, v).1, Leaves(v))
    decreases v
  {
    match v
    case SomeValue(inner) => WriteSpans(parse, w, inner);
    case NewtypeStructValue(inner) => WriteSpans(parse, w, inner);
    case NewtypeVariantValue(inner) => WriteSpans(parse, w, inner);
    case SeqValue(items) => WriteAllSpans(parse, w, items);
    case TupleValue(items) => WriteAllSpans(parse, w, items);
    case TupleStructValue(items) => WriteAllSpans(parse, w, items);
    case TupleVariantValue(items) => WriteAllSpans(parse, w, items);
    case MapValue(entries) => WriteEntriesSpans(parse, w, entries);
    case StructValue(fields) => WriteFieldsSpans(parse, w, fields);
    case _ =>
  }

  lemma {:induction false} WriteAllSpans(parse: TimestampParser, w: Writer, items: seq<SerValue>)
    ensures WriteAll(parse, w, items).0.Pass? ==> Spans(parse, w, WriteAll(parse, w, items).1, LeavesAll(items))
    decreases items
  {
    if items != [] {
      var (o, w') := Write(parse, w, items[0]);
      if o.Pass? {
        WriteSpans(parse, w, items[0]);
        var last := WriteAll(parse, w', items[1..]);
        assert WriteAll(parse, w, items) == last;
        WriteAllSpans(parse, w', items[1..]);
        if last.0.Pass? {
          Chain(parse, w, w', last.1, Leaves(items[0]), LeavesAll(items[1..]));
        }
      }
    }
  }

  lemma {:induction false} WriteEntriesSpans(parse: TimestampParser, w: Writer, entries: seq<MapEntry>)
    ensures WriteEntries(parse, w, entries).0.Pass? ==>
              Spans(parse, w, WriteEntries(parse, w, entries).1, LeavesEntries(entries))
    decreases entries
  {
    if entries != [] {
      var v := EntriesStep(parse, w, entries);
      var (o, w') := Write(parse, w, v);
      if o.Pass? {
        WriteSpans(parse, w, v);
        var last := WriteEntries(parse, w', entries[1..]);
        WriteEntriesSpans(parse, w', entries[1..]);
        if last.0.Pass? {
          Chain(parse, w, w', last.1, Leaves(v), LeavesEntries(entries[1..]));
        }
      }
    }
  }

  /** One entry of a map: its value is written, then the rest. */
  lemma EntriesStep(parse: TimestampParser, w: Writer, entries: seq<MapEntry>) returns (v: SerValue)
    requires entries != []
    ensures v == entries[0].value && v < entries[0] && entries[0] in entries
    ensures LeavesEntries(entries) == Leaves(v) + LeavesEntries(entries[1..])
    ensures var (o, w') := Write(parse, w, v);
            WriteEntries(parse, w, entries) == if o.Fail? then (o, w') else WriteEntries(parse, w', entries[1..])
  {
    v := entries[0].value;
    assert entries[0] in entries && v < entries[0];
  }

  lemma {:induction false} WriteFieldsSpans(parse: TimestampParser, w: Writer, fields: seq<StructField>)
    ensures WriteFields(parse, w, fields).0.Pass? ==>
              Spans(parse, w, WriteFields(parse, w, fields).1, LeavesFields(fields))
    decreases fields
  {
    if fields != [] {
      assert fields[0] in fields;
      var (o, w') := Write(parse, w, fields[0].value);
      if o.Pass? {
        WriteSpans(parse, w, fields[0].value);
        var last := WriteFields(parse, w', fields[1..]);
        assert WriteFields(parse, w, fields) == last;
        WriteFieldsSpans(parse, w', fields[1..]);
        if last.0.Pass? {
          Chain(parse, w, w', last.1, Leaves(fields[0].value), LeavesFields(fields[1..]));
        }
      }
    }
  }

  /**
   * `to_params` yields one database value per leaf of the input, in order,
   * the `k`-th made by the factory from the `k`-th leaf and the `k`-th
   * descriptor; so it fails whenever the input has more leaves than there
   * are descriptors. Descriptors left over are not reported.
   */
  lemma ParamsValues(parse: TimestampParser, v: SerValue, metadata: seq<ParameterType>)
    ensures Params(parse, v, metadata).Ok? ==>
              |Params(parse, v, metadata).value| == |Leaves(v)| <= |metadata| &&
              forall k :: 0 <= k < |Leaves(v)| ==>
                Made(parse, Leaves(v)[k], metadata[k]) == Ok(Params(parse, v, metadata).value[k])
    ensures |Leaves(v)| > |metadata| ==> Params(parse, v, metadata).Err?
  {
    WriteSpans(parse, Writer(metadata, []), v);
  }

  /** `head`: the first `count` characters (all of them when the text is shorter). */
  function Head(count: nat, s: string): (r: string)
    ensures r == s[..if count < |s| then count else |s|]
  {
    TakeIsPrefix(count, s);
    Take(count, s)
  }

  /** `tail`: the last `count` characters, taken from the reversed text and turned back. */
  function Tail(count: nat, s: string): (r: string)
    ensures r == s[|s| - (if count < |s| then count else |s|)..]
  {
    var m := if count < |s| then count else |s|;
    TakeIsPrefix(count, Reverse(s));
    ReverseOfReversedPrefix(s, m);
    Reverse(Take(count, Reverse(s)))
  }

  /** A serializer over a descriptor iterator, collecting the values it writes. */
  class Serializer {
    var output: seq<MValue>
    /** What the descriptor iterator has still to yield. */
    var metadata: seq<ParameterType>

    constructor (metadata: seq<ParameterType>)
      ensures this.metadata == metadata && output == []
    {
      this.metadata := metadata;
      output := [];
    }

    function State(): Writer
      reads this
    {
      Writer(metadata, output)
    }

    /** `get_current_field`. */
    method CurrentField() returns (r: Result<ParameterType, SerializationError>)
      modifies this
      ensures (r, metadata) == CurrentFieldOf(old(metadata)) && output == old(output)
    {
      if metadata == [] {
        r := Err(FromStaticStr(TooManyValues));
      } else {
        r := Ok(metadata[0]);
        metadata := metadata[1..];
      }
    }

    /** `push`. */
    method Push(v: MValue)
      modifies this
      ensures output == old(output) + [v] && metadata == old(metadata)
    {
      output := output + [v];
    }

    /** `into_inner`: the values written so far, in order. */
    function IntoInner(): (r: seq<MValue>)
      reads this
      ensures r == State().output
    {
      output
    }

    /** `serialize_bool` ... `serialize_bytes`: one primitive, one descriptor, one value. */
    method SerializePrimitive(parse: TimestampParser, p: Primitive) returns (r: Outcome)
      modifies this
      ensures (r, State()) == Write(parse, old(State()), Scalar(p))
    {
      var df := CurrentField();
      if df.Err? {
        return Fail(df.error);
      }
      var v := FromPrimitive(parse, df.value, p);
      if v.Err? {
        return Fail(v.error);
      }
      Push(v.value);
      r := Pass;
    }

    /** `serialize_none` and `serialize_unit`. */
    method SerializeNone() returns (r: Outcome)
      modifies this
      ensures (r, State()) == WriteWith(old(State()), FromNone)
    {
      var df := CurrentField();
      if df.Err? {
        return Fail(df.error);
      }
      var v := FromNone(df.value);
      if v.Err? {
        return Fail(v.error);
      }
      Push(v.value);
      r := Pass;
    }

    /** `serialize_unit_struct` and `serialize_unit_variant`. */
    method SerializeRefused(what: string) returns (r: Outcome)
      modifies this
      ensures (r, State()) == Refuse(old(State()), what)
    {
      var df := CurrentField();
      if df.Err? {
        return Fail(df.error);
      }
      r := Fail(TypeError(what, Descriptor(df.value)));
    }

    /** `value.serialize(self)`: dispatch on what the value's implementation calls. */
    method Serialize(parse: TimestampParser, v: SerValue) returns (r: Outcome)
      modifies this
      ensures (r, State()) == Write(parse, old(State()), v)
      decreases v, 1
    {
      match v
      case Scalar(p) => r := SerializePrimitive(parse, p);
      case UnitValue => r := SerializeNone();
      case NoneValue => r := SerializeNone();
      case UnitStructValue => r := SerializeRefused("unit_struct");
      case UnitVariantValue => r := SerializeRefused("unit_variant");
      case SomeValue(inner) => r := Serialize(parse, inner);
      case NewtypeStructValue(inner) => r := Serialize(parse, inner);
      case NewtypeVariantValue(inner) => r := Serialize(parse, inner);
      case SeqValue(items) => r := SerializeElements(parse, items);
      case TupleValue(items) => r := SerializeElements(parse, items);
      case TupleStructValue(items) => r := SerializeElements(parse, items);
      case TupleVariantValue(items) => r := SerializeElements(parse, items);
      case MapValue(entries) => r := SerializeEntries(parse, entries);
      case StructValue(fields) => r := SerializeFields(parse, fields);
      case StructVariantValue(_) => r := Fail(StructuralMismatch(StructVariantRefused));
    }

    /** The `Compound` of a sequence or tuple: `serialize_element` per item, then `end`. */
    method SerializeElements(parse: TimestampParser, items: seq<SerValue>) returns (r: Outcome)
      modifies this
      ensures (r, State()) == WriteAll(parse, old(State()), items)
      decreases items, 0
    {
      var i := 0;
      while i < |items|
        invariant 0 <= i <= |items|
        invariant WriteAll(parse, old(State()), items) == WriteAll(parse, State(), items[i..])
      {
        assert items[i..][1..] == items[i + 1..];
        r := Serialize(parse, items[i]);
        if r.Fail? {
          return;
        }
        i := i + 1;
      }
      r := Pass;
    }

    /** The `Compound` of a map: `serialize_key` writes nothing, `serialize_value` writes the value. */
    method SerializeEntries(parse: TimestampParser, entries: seq<MapEntry>) returns (r: Outcome)
      modifies this
      ensures (r, State()) == WriteEntries(parse, old(State()), entries)
      decreases entries, 0
    {
      var i := 0;
      while i < |entries|
        invariant 0 <= i <= |entries|
        invariant WriteEntries(parse, old(State()), entries) == WriteEntries(parse, State(), entries[i..])
      {
        assert entries[i..][1..] == entries[i + 1..];
        assert entries[i] in entries && entries[i].value < entries[i];
        r := Serialize(parse, entries[i].value);
        if r.Fail? {
          return;
        }
        i := i + 1;
      }
      r := Pass;
    }

    /** The `Compound` of a struct: `serialize_field` ignores the name and writes the value. */
    method SerializeFields(parse: TimestampParser, fields: seq<StructField>) returns (r: Outcome)
      modifies this
      ensures (r, State()) == WriteFields(parse, old(State()), fields)
      decreases fields, 0
    {
      var i := 0;
      while i < |fields|
        invariant 0 <= i <= |fields|
        invariant WriteFields(parse, old(State()), fields) == WriteFields(parse, State(), fields[i..])
      {
        assert fields[i..][1..] == fields[i + 1..];
        assert fields[i] in fields;
        r := Serialize(parse, fields[i].value);
        if r.Fail? {
          return;
        }
        i := i + 1;
      }
      r := Pass;
    }
  }

  /**
   * `to_params`: serialize `v` against the descriptors and hand back the
   * collected values, one per primitive of `v`.
   */
  method ToParams(parse: TimestampParser, v: SerValue, metadata: seq<ParameterType>)
    returns (r: Result<seq<MValue>, SerializationError>)
    ensures r == Params(parse, v, metadata)
    ensures r.Ok? ==> |r.value| == Width(v) <= |metadata|
    ensures r.Ok? ==> forall k :: 0 <= k < |r.value| ==> Made(parse, Leaves(v)[k], metadata[k]) == Ok(r.value[k])
  {
    var serializer := new Serializer(metadata);
    var o := serializer.Serialize(parse, v);
    if o.Fail? {
      return Err(o.error);
    }
    r := Ok(serializer.IntoInner());
    ParamsValues(parse, v, metadata);
  }
}
