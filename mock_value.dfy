/**
 * The mock driver's database value `MValue` and its `DbValue` / `DbValueInto`
 * implementations: what a single cell converts into.
 */
module MockValues {
  import opened Wrappers
  import opened Shapes
  import opened DeserializationErrors

  /** chrono's `NaiveDateTime`, known here only by its `to_string()` text. */
  datatype NaiveDateTime = DateTime(display: string)

  datatype MValue =
    | Null
    | Short(i: i16)
    | String(s: string)
    | Timestamp(ts: NaiveDateTime)

  /** `DbValue::is_null`. */
  predicate IsNull(v: MValue): (b: bool)
    ensures b <==> v == Null
    ensures v.Short? || v.String? || v.Timestamp? ==> !b
  {
    v == Null
  }

  function NotImplementedFor(target: string): ConversionError
  {
    ValueType(target + " not implemented")
  }

  /**
   * `DbValueInto<T>::try_into` for the Rust type named by `k`: a short widens
   * into `i16` and `i32`, a string or a timestamp's text into `String`, and
   * everything else is refused with a `ValueType` error.
   */
  function Convert(v: MValue, k: PrimKind): (r: Result<Out, ConversionError>)
    ensures r.Ok? ==> k in {I16, I32, Str} && Conforms(r.value, Prim(k))
    ensures r.Err? ==> r.error.ValueType?
    ensures k in {I16, I32} ==> (r.Ok? <==> v.Short?) && (v.Short? ==> r == Ok(Int(v.i)))
    ensures k == Str ==> (r.Ok? <==> v.String? || v.Timestamp?)
    ensures k == Str && v.String? ==> r == Ok(Text(v.s))
    ensures IsNull(v) ==> r.Err?
  {
    match k
    case I16 =>
      if v.Short? then Ok(Int(v.i)) else Err(ValueType("DbValueInto<i16> not implemented for value"))
    case I32 =>
      if v.Short? then Ok(Int(v.i)) else Err(ValueType("DbValueInto<i32> not implemented for value"))
    case Str => (
      match v
      case String(s) => Ok(Text(s))
      case Timestamp(ts) => Ok(Text(ts.display))
      case _ => Err(ValueType("DbValueInto<String> not implemented for value")))
    case F64 => Err(ValueType("DbValueInto<f64> not implemented for value"))
    case Bool => Err(NotImplementedFor("DbValueInto<bool>"))
    case U8 => Err(NotImplementedFor("DbValueInto<u8>"))
    case U16 => Err(NotImplementedFor("DbValueInto<u16>"))
    case U32 => Err(NotImplementedFor("DbValueInto<u32>"))
    case U64 => Err(NotImplementedFor("DbValueInto<u64>"))
    case I8 => Err(NotImplementedFor("DbValueInto<i8>"))
    case I64 => Err(NotImplementedFor("DbValueInto<i64>"))
    case F32 => Err(NotImplementedFor("DbValueInto<f32>"))
    case Bytes => Err(NotImplementedFor("DbValueInto<Vec<u8>>"))
  }
}
