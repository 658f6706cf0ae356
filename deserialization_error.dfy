/**
 * The error values of the deserialization side: the driver's `ConversionError`
 * and serde_db's `DeserializationError` with its constructors and accessors.
 */
module DeserializationErrors {
  import opened Wrappers

  /** What a driver's value conversion reports. */
  datatype ConversionError =
    | ValueType(msg: string)
    | NumberRange(msg: string)
    | Incomplete(msg: string)

  datatype DeserializationError =
    | ConversionError(cause: ConversionError)
    | SerdeError(msg: string)
    | Usage(msg: string)
    | NotImplemented(msg: string)
    | UnknownField(msg: string)
    | TrailingRows
    | TrailingCols

  /** `From<ConversionError>`: a conversion error is wrapped, not rewritten. */
  function FromConversion(c: ConversionError): (e: DeserializationError)
    ensures e.ConversionError?
  {
    ConversionError(c)
  }

  /** serde's `Error::custom`: framework messages become `SerdeError`. */
  function Custom(msg: string): (e: DeserializationError)
    ensures e.SerdeError? && e.msg == msg
  {
    SerdeError(msg)
  }

  /** `Error::cause`: only a wrapped conversion error has a cause. */
  function Cause(e: DeserializationError): (r: Option<ConversionError>)
    ensures r.Some? <==> e.ConversionError?
  {
    match e
    case ConversionError(c) => Some(c)
    case _ => None
  }

  /** `Error::description`: a fixed text per variant. */
  function Description(e: DeserializationError): (d: string)
    ensures |d| > 0
  {
    match e
    case ConversionError(_) => "conversion of database type to rust type failed"
    case SerdeError(_) => "general error from the deserialization framework"
    case Usage(_) =>
      "Structure of target object does not fit to the structure of the object being deserialized"
    case NotImplemented(_) => "function not implemented"
    case UnknownField(_) => "the target structure misses a field for which data are provided"
    case TrailingRows => "trailing rows"
    case TrailingCols => "trailing columns"
  }

  function DisplayConversion(c: ConversionError): string
  {
    c.msg + " "
  }

  /** `Display`: the message followed by a blank, or the bare variant name. */
  function Display(e: DeserializationError): (d: string)
    ensures e.TrailingRows? ==> d == "TrailingRows"
    ensures e.TrailingCols? ==> d == "TrailingCols"
    ensures !e.TrailingRows? && !e.TrailingCols? ==> |d| > 0 && d[|d| - 1] == ' '
    ensures e.ConversionError? ==> d[..|d| - 1] == e.cause.msg
    ensures e.SerdeError? || e.Usage? || e.NotImplemented? || e.UnknownField? ==> d[..|d| - 1] == e.msg
  {
    match e
    case ConversionError(c) => DisplayConversion(c)
    case SerdeError(s) => s + " "
    case Usage(s) => s + " "
    case NotImplemented(s) => s + " "
    case UnknownField(s) => s + " "
    case TrailingRows => "TrailingRows"
    case TrailingCols => "TrailingCols"
  }

  /** Wrapping a conversion error and asking for the cause gives it back unchanged. */
  lemma CauseOfConversion(c: ConversionError)
    ensures Cause(FromConversion(c)) == Some(c)
    ensures Display(FromConversion(c)) == DisplayConversion(c)
  {
  }

  /**
   * The two collapse errors display as their bare names, and no other error
   * can display like them: every other text ends in a blank.
   */
  lemma {:induction false} TrailingDisplayDistinct(e: DeserializationError)
    ensures Display(TrailingRows) != Display(TrailingCols)
    ensures !e.TrailingRows? && !e.TrailingCols? ==>
              Display(e) != "TrailingRows" && Display(e) != "TrailingCols"
  {
    if !e.TrailingRows? && !e.TrailingCols? {
      var d := Display(e);
      assert d[|d| - 1] == ' ';
    }
  }
}
