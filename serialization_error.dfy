/** serde_db's `SerializationError`, its factories and accessors. */
module SerializationErrors {
  import opened Wrappers

  /** A boxed underlying error, known here only by its description. */
  datatype ErrorCause = ErrorCause(description: string)

  datatype SerializationError =
    | Serde(msg: string)
    | Parse(value: string, dbType: string, cause: Option<ErrorCause>)
    | StructuralMismatch(msg: string)
    | Type(valueType: string, dbType: string)
    | Range(valueType: string, dbType: string)

  /** `parse_error`: keeps the offending text, the target type and the cause. */
  function ParseError(value: string, dbType: string, cause: Option<ErrorCause>): (e: SerializationError)
    ensures e.Parse? && e.value == value && e.dbType == dbType && e.cause == cause
  {
    Parse(value, dbType, cause)
  }

  /** `type_error`: the Rust type being written and the parameter's type descriptor. */
  function TypeError(valueType: string, dbType: string): (e: SerializationError)
    ensures e.Type? && e.valueType == valueType && e.dbType == dbType
  {
    Type(valueType, dbType)
  }

  /** `From<&str>`: a bare message is a structural mismatch. */
  function FromStaticStr(msg: string): (e: SerializationError)
    ensures e.StructuralMismatch? && e.msg == msg
  {
    StructuralMismatch(msg)
  }

  /** serde's `Error::custom`. */
  function Custom(msg: string): (e: SerializationError)
    ensures e.Serde? && e.msg == msg
  {
    Serde(msg)
  }

  /** `Error::cause`: present only for a parse error that was given one. */
  function Cause(e: SerializationError): (r: Option<ErrorCause>)
    ensures r.Some? <==> e.Parse? && e.cause.Some?
  {
    match e
    case Parse(_, _, c) => c
    case _ => None
  }

  /** `Error::description`; a parse error with a cause reports the cause's description. */
  function Description(e: SerializationError): (d: string)
    ensures e.Parse? && e.cause.Some? ==> d == e.cause.value.description
    ensures !(e.Parse? && e.cause.Some?) ==> |d| > 0
  {
    match e
    case Serde(_) => "error from framework"
    case StructuralMismatch(_) => "structural mismatch"
    case Parse(_, _, c) => if c.Some? then c.value.description else "parse error"
    case Type(_, _) => "type mismatch"
    case Range(_, _) => "range exceeded"
  }

  /** A cause handed to `parse_error` is what `cause` and `description` report. */
  lemma ParseCause(value: string, dbType: string, c: ErrorCause)
    ensures Cause(ParseError(value, dbType, Some(c))) == Some(c)
    ensures Description(ParseError(value, dbType, Some(c))) == c.description
    ensures Cause(ParseError(value, dbType, None)) == None
  {
  }
}
