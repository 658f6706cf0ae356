/** The mock driver's parameter descriptors: the target type of each statement parameter. */
module ParameterTypes {
  datatype ParameterType =
    | Short
    | NullableShort
    | String
    | NullableString
    | Timestamp
    | NullableTimestamp

  predicate IsNullable(pt: ParameterType)
  {
    pt in {NullableShort, NullableString, NullableTimestamp}
  }
}
