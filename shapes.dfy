/**
 * The serde side of the boundary. A `Shape` is the sequence of hints a target
 * type's `Deserialize` implementation gives the deserializer (`deserialize_i32`,
 * `deserialize_option`, `deserialize_struct` with its field names, ...), and an
 * `Out` is what its visitor ends up holding.
 */
module Shapes {
  /** Leaf hints; `Str` stands for both `str` and `string`, `Bytes` for `bytes` and `byte_buf`. */
  datatype PrimKind = Bool | U8 | U16 | U32 | U64 | I8 | I16 | I32 | I64 | F32 | F64 | Str | Bytes

  /** Hints without further structure. */
  datatype Hint = Any | Char | Unit | Map | UnitStruct | TupleStruct | Enum | Identifier | IgnoredAny

  datatype Shape =
    | Prim(kind: PrimKind)
    | Opt(inner: Shape)
    | Newtype(inner: Shape)
    | Tuple(elems: seq<Shape>)
    | Seq(elem: Shape)
    | Struct(fields: seq<Field>)
    | Other(hint: Hint)

  /** A struct field as the derived visitor knows it: its name and its type's shape. */
  datatype Field = Field(name: string, shape: Shape)

  /** Values handed to a visitor; floating point is not modelled. */
  datatype Out =
    | BoolV(b: bool)
    | Int(i: int)
    | Text(s: string)
    | Blob(bytes: seq<bv8>)
    | NoneV
    | SomeV(v: Out)
    | NewtypeV(v: Out)
    | TupleV(items: seq<Out>)
    | SeqV(items: seq<Out>)
    | StructV(items: seq<Out>)

  predicate IsIntKind(k: PrimKind)
  {
    k in {U8, U16, U32, U64, I8, I16, I32, I64}
  }

  /** The value range of the Rust integer type a kind names. */
  predicate InRange(k: PrimKind, i: int)
    requires IsIntKind(k)
  {
    match k
    case U8 => 0 <= i < 0x100
    case U16 => 0 <= i < 0x1_0000
    case U32 => 0 <= i < 0x1_0000_0000
    case U64 => 0 <= i < 0x1_0000_0000_0000_0000
    case I8 => -0x80 <= i < 0x80
    case I16 => -0x8000 <= i < 0x8000
    case I32 => -0x8000_0000 <= i < 0x8000_0000
    case I64 => -0x8000_0000_0000_0000 <= i < 0x8000_0000_0000_0000
  }

  /** Rust's fixed-width integer types. */
  type i8 = x: int | InRange(I8, x)
  type i16 = x: int | InRange(I16, x)
  type i32 = x: int | InRange(I32, x)
  type i64 = x: int | InRange(I64, x)
  type u8 = x: int | InRange(U8, x)
  type u16 = x: int | InRange(U16, x)
  type u32 = x: int | InRange(U32, x)
  type u64 = x: int | InRange(U64, x)

  /**
   * `o` is a value of the Rust type described by `s`: the reference every
   * reader's result is checked against.
   */
  predicate Conforms(o: Out, s: Shape)
    decreases s
  {
    match s
    case Prim(k) =>
      if IsIntKind(k) then o.Int? && InRange(k, o.i)
      else if k == Bool then o.BoolV?
      else if k == Str then o.Text?
      else if k == Bytes then o.Blob?
      else false
    case Opt(inner) => o.NoneV? || (o.SomeV? && Conforms(o.v, inner))
    case Newtype(inner) => o.NewtypeV? && Conforms(o.v, inner)
    case Tuple(elems) =>
      o.TupleV? && |o.items| == |elems| &&
      forall i :: 0 <= i < |elems| ==> Conforms(o.items[i], elems[i])
    case Seq(elem) =>
      o.SeqV? && forall i :: 0 <= i < |o.items| ==> Conforms(o.items[i], elem)
    case Struct(fields) =>
      o.StructV? && |o.items| == |fields| &&
      forall i :: 0 <= i < |fields| ==> Conforms(o.items[i], fields[i].shape)
    case Other(h) => (h == Any || h == Identifier) && o.Text?
  }

  /** Shapes that read exactly one database value: the ones a single cell collapses into. */
  predicate IsLeaf(s: Shape)
  {
    s.Prim? || s.Opt? || s == Other(Any)
  }

  /** Appending a conforming value keeps a list of values conforming. */
  lemma AppendConforms(items: seq<Out>, o: Out, s: Shape)
    requires forall k :: 0 <= k < |items| ==> Conforms(items[k], s)
    requires Conforms(o, s)
    ensures forall k :: 0 <= k < |items + [o]| ==> Conforms((items + [o])[k], s)
  {
  }
}
