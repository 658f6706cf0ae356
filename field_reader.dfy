/**
 * serde_db's `FieldDeserializer`: deserializes a Rust value from one database
 * value. Leaf hints go through the value's `DbValueInto` conversion, `Option`
 * looks at `is_null`, a newtype is transparent, and every structured hint is
 * refused.
 */
module FieldReader {
  import opened Wrappers
  import opened Shapes
  import opened DeserializationErrors
  import opened MockValues

  /** The structured hints a single value cannot satisfy, with the text the source reports. */
  function Refused(s: Shape): (r: DeserializationError)
    requires s.Tuple? || s.Seq? || s.Struct? || s.Other?
    ensures r.NotImplemented?
  {
    match s
    case Tuple(_) => NotImplemented("FieldDeserializer::deserialize_tuple() not implemented")
    case Seq(_) => NotImplemented("FieldDeserializer::deserialize_seq() not implemented")
    case Struct(_) => NotImplemented("FieldDeserializer::deserialize_struct() not implemented")
    case Other(h) =>
      match h
      case Any => NotImplemented("FieldDeserializer::deserialize_any() called")
      case Char => NotImplemented("FieldDeserializer::deserialize_char() not implemented!")
      case Unit => NotImplemented("FieldDeserializer::deserialize_unit(): not implemented!")
      case Map => NotImplemented("FieldDeserializer::deserialize_map(): not implemented!")
      case UnitStruct => NotImplemented("FieldDeserializer::deserialize_unit_struct(): not implemented!")
      case TupleStruct => NotImplemented("FieldDeserializer::deserialize_tuple_struct(): not implemented!")
      case Enum => NotImplemented("FieldDeserializer::deserialize_enum() not implemented")
      case Identifier => NotImplemented("FieldDeserializer::deserialize_identifier() not implemented")
      case IgnoredAny => NotImplemented("FieldDeserializer::deserialize_ignored_any() not implemented")
  }

  /**
   * `T::deserialize(FieldDeserializer::new(v))` for the type whose hints are `s`.
   * Whatever it produces is a value of that type; structured hints are refused.
   */
  function ReadField(v: MValue, s: Shape): (r: Result<Out, DeserializationError>)
    ensures r.Ok? ==> Conforms(r.value, s)
    ensures s.Tuple? || s.Seq? || s.Struct? || s.Other? ==> r == Err(Refused(s))
    decreases s
  {
    match s
    case Prim(k) => (
      match Convert(v, k)
      case Ok(o) => Ok(o)
      case Err(c) => Err(FromConversion(c)))
    case Opt(inner) =>
      if IsNull(v) then Ok(NoneV)
      else (
        match ReadField(v, inner)
        case Ok(o) => Ok(SomeV(o))
        case Err(e) => Err(e))
    case Newtype(inner) => (
      match ReadField(v, inner)
      case Ok(o) => Ok(NewtypeV(o))
      case Err(e) => Err(e))
    case _ => Err(Refused(s))
  }

  /** A shape that a null value can be read as: an `Option`, possibly inside newtypes. */
  predicate NullAccepting(s: Shape)
    decreases s
  {
    s.Opt? || (s.Newtype? && NullAccepting(s.inner))
  }

  /**
   * `Option` is decided by `is_null` alone: a null value reads as `None` under
   * every option, a non-null one never does, and only option shapes accept a null.
   */
  lemma {:induction false} NullReadsAsNone(v: MValue, s: Shape)
    ensures ReadField(v, Opt(s)) == Ok(NoneV) <==> IsNull(v)
    ensures IsNull(v) && ReadField(v, s).Ok? ==> NullAccepting(s)
    decreases s
  {
    if IsNull(v) && s.Newtype? {
      NullReadsAsNone(v, s.inner);
    }
  }

  /** A non-null value read as an `Option` is the value read as the inner type, wrapped in `Some`. */
  lemma SomeIsTransparent(v: MValue, s: Shape)
    requires !IsNull(v)
    ensures ReadField(v, Opt(s)).Ok? <==> ReadField(v, s).Ok?
    ensures ReadField(v, s).Ok? ==> ReadField(v, Opt(s)) == Ok(SomeV(ReadField(v, s).value))
    ensures ReadField(v, s).Err? ==> ReadField(v, Opt(s)) == ReadField(v, s)
  {
  }

  /**
   * A leaf hint is answered by the value's own `DbValueInto` conversion: the
   * read succeeds exactly when the conversion does, with the same value, and
   * a failed conversion is reported as that conversion's error, wrapped.
   */
  lemma ReadPrimDelegates(v: MValue, k: PrimKind)
    ensures ReadField(v, Prim(k)).Ok? <==> Convert(v, k).Ok?
    ensures Convert(v, k).Ok? ==> ReadField(v, Prim(k)).value == Convert(v, k).value
    ensures Convert(v, k).Err? ==> ReadField(v, Prim(k)) == Err(DeserializationError.ConversionError(Convert(v, k).error))
  {
  }

  /** A newtype reads exactly as the type it wraps: same success, same value wrapped, same error. */
  lemma NewtypeTransparent(v: MValue, s: Shape)
    ensures ReadField(v, Newtype(s)).Ok? <==> ReadField(v, s).Ok?
    ensures ReadField(v, s).Ok? ==> ReadField(v, Newtype(s)) == Ok(NewtypeV(ReadField(v, s).value))
    ensures ReadField(v, s).Err? ==> ReadField(v, Newtype(s)) == ReadField(v, s)
  {
  }
}
