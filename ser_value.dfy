/**
 * The serde side of parameter serialization: the calls a value's `Serialize`
 * implementation makes on the `Serializer`, as a tree.
 */
module SerValues {
  import Shapes

  /** Arguments of the `serialize_<primitive>` calls; floats carry no value here. */
  datatype Primitive =
    | PBool(b: bool)
    | PI8(i8: Shapes.i8)
    | PI16(i16: Shapes.i16)
    | PI32(i32: Shapes.i32)
    | PI64(i64: Shapes.i64)
    | PU8(u8: Shapes.u8)
    | PU16(u16: Shapes.u16)
    | PU32(u32: Shapes.u32)
    | PU64(u64: Shapes.u64)
    | PF32
    | PF64
    | PChar(c: char)
    | PStr(s: string)
    | PBytes(bytes: seq<bv8>)

  datatype SerValue =
    | Scalar(p: Primitive)
    | UnitValue                                   // serialize_unit
    | UnitStructValue                             // serialize_unit_struct
    | UnitVariantValue                            // serialize_unit_variant
    | NoneValue                                   // serialize_none
    | SomeValue(inner: SerValue)                  // serialize_some
    | NewtypeStructValue(inner: SerValue)         // serialize_newtype_struct
    | NewtypeVariantValue(inner: SerValue)        // serialize_newtype_variant
    | SeqValue(items: seq<SerValue>)              // serialize_seq + serialize_element
    | TupleValue(items: seq<SerValue>)            // serialize_tuple + serialize_element
    | TupleStructValue(items: seq<SerValue>)      // serialize_tuple_struct + serialize_field
    | TupleVariantValue(items: seq<SerValue>)     // serialize_tuple_variant + serialize_field
    | MapValue(entries: seq<MapEntry>)            // serialize_map + serialize_key/serialize_value
    | StructValue(fields: seq<StructField>)       // serialize_struct + serialize_field
    | StructVariantValue(fields: seq<StructField>) // serialize_struct_variant

  datatype MapEntry = MapEntry(key: SerValue, value: SerValue)

  datatype StructField = StructField(name: string, value: SerValue)

  /**
   * One write the serializer asks the next parameter descriptor for: a
   * primitive, a missing value (`serialize_none` / `serialize_unit`), or a
   * unit struct or unit variant, which every descriptor refuses.
   */
  datatype Leaf = LPrim(p: Primitive) | LNone | LUnitStruct | LUnitVariant

  /** The descriptor-consuming writes of a value, in the order its `Serialize` makes them. */
  function Leaves(v: SerValue): seq<Leaf>
    decreases v
  {
    match v
    case Scalar(p) => [LPrim(p)]
    case UnitValue => [LNone]
    case UnitStructValue => [LUnitStruct]
    case UnitVariantValue => [LUnitVariant]
    case NoneValue => [LNone]
    case SomeValue(inner) => Leaves(inner)
    case NewtypeStructValue(inner) => Leaves(inner)
    case NewtypeVariantValue(inner) => Leaves(inner)
    case SeqValue(items) => LeavesAll(items)
    case TupleValue(items) => LeavesAll(items)
    case TupleStructValue(items) => LeavesAll(items)
    case TupleVariantValue(items) => LeavesAll(items)
    case MapValue(entries) => LeavesEntries(entries)
    case StructValue(fields) => LeavesFields(fields)
    case StructVariantValue(_) => []
  }

  function LeavesAll(items: seq<SerValue>): seq<Leaf>
    decreases items
  {
    if items == [] then [] else Leaves(items[0]) + LeavesAll(items[1..])
  }

  function LeavesEntries(entries: seq<MapEntry>): seq<Leaf>
    decreases entries
  {
    if entries == [] then []
    else
      assert entries[0] in entries && entries[0].value < entries[0];
      Leaves(entries[0].value) + LeavesEntries(entries[1..])
  }

  function LeavesFields(fields: seq<StructField>): seq<Leaf>
    decreases fields
  {
    if fields == [] then []
    else
      assert fields[0] in fields;
      Leaves(fields[0].value) + LeavesFields(fields[1..])
  }

  /** How many database values (and so parameter descriptors) a value takes when written. */
  function Width(v: SerValue): nat
  {
    |Leaves(v)|
  }
}
