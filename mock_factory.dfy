/**
 * The mock driver's `DbvFactory` implementation for `ParameterType`: how a
 * parameter descriptor turns one serialized Rust value into an `MValue`.
 * The nullable descriptors produce the same values as their non-nullable
 * counterparts (`Short(v)`), and `Null` for a missing value.
 */
module MockFactory {
  import opened Wrappers
  import opened Shapes
  import opened SerializationErrors
  import opened ParameterTypes
  import opened SerValues
  import MockValues

  type MValue = MockValues.MValue

  /** The parser behind `NaiveDateTime::from_str`: a date-time or the parser's error description. */
  type TimestampParser = string -> Result<MockValues.NaiveDateTime, string>

  /** `DbvFactory::descriptor`: the name of the descriptor's variant. */
  function Descriptor(pt: ParameterType): (d: string)
    ensures |d| > 0
  {
    match pt
    case Short => "Short"
    case NullableShort => "NullableShort"
    case String => "String"
    case NullableString => "NullableString"
    case Timestamp => "Timestamp"
    case NullableTimestamp => "NullableTimestamp"
  }

  predicate IsShort(pt: ParameterType)
  {
    pt == Short || pt == NullableShort
  }

  /** `from_i8` and `from_i16`: accepted exactly by the short descriptors, value unchanged. */
  function FromNarrowInt(typeName: string, pt: ParameterType, v: i16): (r: Result<MValue, SerializationError>)
    ensures r.Ok? <==> IsShort(pt)
    ensures r.Ok? ==> r.value == MockValues.Short(v)
    ensures r.Err? ==> r.error == TypeError(typeName, Descriptor(pt))
  {
    if IsShort(pt) then Ok(MockValues.Short(v)) else Err(TypeError(typeName, Descriptor(pt)))
  }

  /**
   * `from_i32` and `from_i64`: a short descriptor takes the value when it fits
   * into 16 bits and reports a range error otherwise; other descriptors report
   * a type error.
   */
  function FromWideInt(typeName: string, pt: ParameterType, v: int): (r: Result<MValue, SerializationError>)
    ensures r.Ok? <==> IsShort(pt) && InRange(I16, v)
    ensures r.Ok? ==> r.value.Short? && r.value.i == v
    ensures IsShort(pt) && !InRange(I16, v) ==> r == Err(Range(typeName, Descriptor(pt)))
    ensures !IsShort(pt) ==> r == Err(TypeError(typeName, Descriptor(pt)))
  {
    if IsShort(pt) then
      if -0x8000 <= v <= 0x7FFF then Ok(MockValues.Short(v)) else Err(Range(typeName, Descriptor(pt)))
    else
      Err(TypeError(typeName, Descriptor(pt)))
  }

  /** `mock_db_timestamp`: a parser failure becomes a framework (`Serde`) error. */
  function ParseTimestamp(parse: TimestampParser, s: string): (r: Result<MValue, SerializationError>)
    ensures r.Ok? <==> parse(s).Ok?
    ensures r.Ok? ==> r.value == MockValues.Timestamp(parse(s).value)
    ensures r.Err? ==> r.error == Custom(parse(s).error)
  {
    match parse(s)
    case Ok(ts) => Ok(MockValues.Timestamp(ts))
    case Err(msg) => Err(Custom(msg))
  }

  /** `from_str`: string descriptors keep the text, timestamp descriptors parse it. */
  function FromStr(parse: TimestampParser, pt: ParameterType, s: string): (r: Result<MValue, SerializationError>)
    ensures pt == String || pt == NullableString ==> r == Ok(MockValues.String(s))
    ensures pt == Timestamp || pt == NullableTimestamp ==> r == ParseTimestamp(parse, s)
    ensures IsShort(pt) ==> r == Err(TypeError("str", Descriptor(pt)))
  {
    match pt
    case String => Ok(MockValues.String(s))
    case NullableString => Ok(MockValues.String(s))
    case Timestamp => ParseTimestamp(parse, s)
    case NullableTimestamp => ParseTimestamp(parse, s)
    case _ => Err(TypeError("str", Descriptor(pt)))
  }

  /** `from_none`: only a nullable descriptor accepts a missing value, and it becomes `Null`. */
  function FromNone(pt: ParameterType): (r: Result<MValue, SerializationError>)
    ensures r.Ok? <==> IsNullable(pt)
    ensures r.Ok? ==> MockValues.IsNull(r.value)
    ensures r.Err? ==> r.error == TypeError("none", Descriptor(pt))
  {
    if IsNullable(pt) then Ok(MockValues.Null) else Err(TypeError("none", Descriptor(pt)))
  }

  /**
   * The `from_<type>` call the serializer makes for one primitive; the types
   * the mock driver has no column for are refused with a type error.
   */
  function FromPrimitive(parse: TimestampParser, pt: ParameterType, p: Primitive): (r: Result<MValue, SerializationError>)
    ensures r.Ok? ==> p.PI8? || p.PI16? || p.PI32? || p.PI64? || p.PStr?
    ensures r.Err? && !(p.PStr? && (pt == Timestamp || pt == NullableTimestamp)) ==> r.error.Type? || r.error.Range?
    // per kind: the integers go to the short descriptors (the wide ones only
    // when they fit in 16 bits), text to the string and timestamp descriptors,
    // and every other kind is refused by every descriptor, naming the kind
    ensures match p
      case PI8(v) => (r.Ok? <==> IsShort(pt)) && (r.Ok? ==> r.value == MockValues.Short(v)) &&
                     (!IsShort(pt) ==> r == Err(TypeError("i8", Descriptor(pt))))
      case PI16(v) => (r.Ok? <==> IsShort(pt)) && (r.Ok? ==> r.value == MockValues.Short(v)) &&
                      (!IsShort(pt) ==> r == Err(TypeError("i16", Descriptor(pt))))
      case PI32(v) => (r.Ok? <==> IsShort(pt) && InRange(I16, v)) && (r.Ok? ==> r.value.Short? && r.value.i == v) &&
                      (IsShort(pt) && !InRange(I16, v) ==> r == Err(Range("i32", Descriptor(pt)))) &&
                      (!IsShort(pt) ==> r == Err(TypeError("i32", Descriptor(pt))))
      case PI64(v) => (r.Ok? <==> IsShort(pt) && InRange(I16, v)) && (r.Ok? ==> r.value.Short? && r.value.i == v) &&
                      (IsShort(pt) && !InRange(I16, v) ==> r == Err(Range("i64", Descriptor(pt)))) &&
                      (!IsShort(pt) ==> r == Err(TypeError("i64", Descriptor(pt))))
      case PStr(s) => (pt == String || pt == NullableString ==> r == Ok(MockValues.String(s))) &&
                      (pt == Timestamp || pt == NullableTimestamp ==> r == ParseTimestamp(parse, s)) &&
                      (IsShort(pt) ==> r == Err(TypeError("str", Descriptor(pt))))
      case PBool(_) => r == Err(TypeError("bool", Descriptor(pt)))
      case PU8(_) => r == Err(TypeError("u8", Descriptor(pt)))
      case PU16(_) => r == Err(TypeError("u16", Descriptor(pt)))
      case PU32(_) => r == Err(TypeError("u32", Descriptor(pt)))
      case PU64(_) => r == Err(TypeError("u64", Descriptor(pt)))
      case PF32 => r == Err(TypeError("f32", Descriptor(pt)))
      case PF64 => r == Err(TypeError("f64", Descriptor(pt)))
      case PChar(_) => r == Err(TypeError("char", Descriptor(pt)))
      case PBytes(_) => r == Err(TypeError("bytes", Descriptor(pt)))
  {
    match p
    case PBool(_) => Err(TypeError("bool", Descriptor(pt)))
    case PI8(v) => FromNarrowInt("i8", pt, v)
    case PI16(v) => FromNarrowInt("i16", pt, v)
    case PI32(v) => FromWideInt("i32", pt, v)
    case PI64(v) => FromWideInt("i64", pt, v)
    case PU8(_) => Err(TypeError("u8", Descriptor(pt)))
    case PU16(_) => Err(TypeError("u16", Descriptor(pt)))
    case PU32(_) => Err(TypeError("u32", Descriptor(pt)))
    case PU64(_) => Err(TypeError("u64", Descriptor(pt)))
    case PF32 => Err(TypeError("f32", Descriptor(pt)))
    case PF64 => Err(TypeError("f64", Descriptor(pt)))
    case PChar(_) => Err(TypeError("char", Descriptor(pt)))
    case PStr(s) => FromStr(parse, pt, s)
    case PBytes(_) => Err(TypeError("bytes", Descriptor(pt)))
  }

  /** Different descriptors have different names, so an error's `db_type` identifies the parameter type. */
  lemma DescriptorInjective(a: ParameterType, b: ParameterType)
    ensures Descriptor(a) == Descriptor(b) ==> a == b
  {
  }

  /**
   * What the factory writes, the mock's `DbValueInto` reads back: an integer
   * accepted by a short descriptor comes back as the same `i32`, a string
   * accepted by a string descriptor as the same text, and a missing value as null.
   */
  lemma {:induction false} FactoryRoundTrip(parse: TimestampParser, pt: ParameterType, p: Primitive)
    requires FromPrimitive(parse, pt, p).Ok?
    ensures p.PI8? || p.PI16? || p.PI32? || p.PI64? ==>
              MockValues.Convert(FromPrimitive(parse, pt, p).value, I32) == Ok(Int(IntOf(p)))
    ensures p.PStr? && (pt == String || pt == NullableString) ==>
              MockValues.Convert(FromPrimitive(parse, pt, p).value, Str) == Ok(Text(p.s))
  {
    var v := FromPrimitive(parse, pt, p).value;
    if p.PI8? || p.PI16? || p.PI32? || p.PI64? {
      assert v.Short? && v.i == IntOf(p);
    }
  }

  function IntOf(p: Primitive): int
    requires p.PI8? || p.PI16? || p.PI32? || p.PI64?
  {
    match p
    case PI8(v) => v
    case PI16(v) => v
    case PI32(v) => v
    case PI64(v) => v
  }

  lemma NoneRoundTrip(pt: ParameterType)
    requires FromNone(pt).Ok?
    ensures MockValues.Convert(FromNone(pt).value, I32).Err?
    ensures MockValues.IsNull(FromNone(pt).value)
  {
  }
}
