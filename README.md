# serde_db, modelled in Dafny

serde_db connects database drivers to serde. On the way in it *deserializes*:
a result set or a row becomes a Rust value, such as a plain value, an
`Option`, a struct, a tuple, or a `Vec` of these. The shape of the target
type decides how the data's dimensions are collapsed (*dimensional
collapse*):
- A result set with one row can be read as a struct or tuple, and then as
  that row.
- A row with one column can be read as a plain value.
- A `Vec` takes every row of a result set, or every value of a row.
- A struct's fields are matched to the columns by name.

Data that would be left over is refused with `TrailingRows` or
`TrailingCols`. On the way out it *serializes*: a Rust value becomes a
list of database values, one per parameter descriptor of a prepared
statement.

This project models:
- the three readers: `RsDeserializer`, `RowDeserializer` with its two
  access visitors, and `FieldDeserializer`;
- the parameter `Serializer` and `to_params`;
- both error types;
- the mock driver the repository's tests run against: its value, result
  set, row, field names, conversions and parameter factory;
- the older stack-style `Row`, mock value and mock result set.

Modelling choices:
- **Types and visitors.** A serde target type is a `Shape`, meaning the
  hints its `Deserialize` gives. What its visitor builds is an `Out`.
  `Conforms(o, s)` says that `o` is a value of the type `s`, and every
  reader is proved to produce only conforming values.
- **Specification and implementation.** Each reader has two parts:
  - a specification, as functions over the state before a call: `RowSpec`
    and `RsSpec`;
  - a class that owns the mutable state (`RowReaders.RowReader` and
    `RsReaders.RsReader`). Its methods are proved to move that state
    exactly as the specification says.

  The serializer follows the same pattern: `ParamSerializer.Write` is the
  specification, and the `ParamSerializer.Serializer` class is proved
  against it. The reference for what it writes is `SerValues.Leaves`: the
  *leaves* of a value are the calls that take a descriptor (a primitive, a
  none or unit, a unit struct or unit variant), in the order the value's
  `Serialize` makes them.
- **Drivers and files.** Where the source is generic over a driver,
  `RsSpec` reads a stream of fetches, any of which may fail. The classes
  use the mock driver, whose fetches never fail. Two pairs of files are the
  same up to the names of their types and items, and each pair shares one
  model:
  - `tests/mock_db/result_set.rs` and `resultset.rs`;
  - `field_names.rs` and `fieldnames.rs`.

  Likewise the older test driver's `MockRow` (`tests/util/mock_row.rs`) is
  the generic `Row` of `src/de/row/row.rs` with the older mock value and
  `MockMetadata`, the same up to names except that it has no `last`.
  `LegacyRows.StackRow` models both, and `MockMetadata` shares the
  `FieldNames` model.

## Model

| member | source | states |
|---|---|---|
| DeserializationErrors.FromConversion | src/de/deserialization_error.rs:52-56 | a driver's conversion error is wrapped as `ConversionError`, not rewritten |
| DeserializationErrors.Custom | src/de/deserialization_error.rs:58-62 | serde's custom messages become `SerdeError` carrying the message |
| DeserializationErrors.Cause | src/de/deserialization_error.rs:44-49 | only a wrapped conversion error has a cause |
| DeserializationErrors.CauseOfConversion | src/de/deserialization_error.rs:44-56 | wrapping a conversion error and asking for its cause gives it back unchanged; it displays as the conversion error does |
| DeserializationErrors.TrailingDisplayDistinct | src/de/deserialization_error.rs:80-92 | `TrailingRows` and `TrailingCols` display differently, and no other error displays like either, since every other text ends in a blank |
| DeserializationErrors.Description | src/de/deserialization_error.rs:23-42 | every variant has a non-empty description |
| DeserializationErrors.Display | src/de/deserialization_error.rs:80-92 | the two collapse errors display as their bare names; every other error displays as its message followed by one blank |
| SerializationErrors.ParseError | src/ser/serialization_error.rs:33-43 | a parse error keeps the offending text, the target type and the cause |
| SerializationErrors.TypeError | src/ser/serialization_error.rs:47-52 | a type error names the Rust type and the parameter's descriptor |
| SerializationErrors.FromStaticStr | src/ser/serialization_error.rs:85-89 | a bare message becomes a `StructuralMismatch` |
| SerializationErrors.Custom | src/ser/serialization_error.rs:91-95 | serde's custom messages become `Serde` |
| SerializationErrors.Cause | src/ser/serialization_error.rs:67-82 | a cause exists exactly for a parse error that was given one |
| SerializationErrors.ParseCause | src/ser/serialization_error.rs:55-82 | the cause given to `parse_error` is what `cause` returns and what `description` reports; without one there is no cause |
| SerializationErrors.Description | src/ser/serialization_error.rs:55-66 | a parse error with a cause is described by its cause; every other error has a non-empty description of its own |
| FieldNamesMeta.FieldNames.FieldName | tests/mock_db/field_names.rs:17-19 | a name exists exactly for the indexes below the column count |
| FieldNamesMeta.New | tests/mock_db/field_names.rs:7-15 | one name per column, in the order given |
| FieldNamesMeta.NamesRecovered | tests/util/mock_row.rs:98-112 | `MockMetadata` (the same code as `FieldNames`) is exactly its list of names: reading every column's name with `get_fieldname` and building new metadata from them gives the same metadata |
| MockValues.Convert | tests/mock_db/serde_db_impl/de.rs:22-113 | a short converts into `i16` and `i32` unchanged; a string or a timestamp's text converts into `String`; everything else, null included, is refused with a `ValueType` error; results conform to the target type |
| MockValues.IsNull | tests/mock_db/serde_db_impl/de.rs:12-20 | a mock value is null exactly when it is `Null`; shorts, strings and timestamps never are |
| FieldReader.Refused | src/de/field_deserializer.rs:22-26 | every structured hint on a single value is a `NotImplemented` error |
| FieldReader.ReadField | src/de/field_deserializer.rs:29-157 | a leaf goes through the value's conversion, and a conversion error is wrapped; `Option` looks at `is_null`; a newtype is transparent; tuple, seq, struct and the other hints are refused; every result conforms to the target type |
| FieldReader.ReadPrimDelegates | src/de/field_deserializer.rs:29-147 | a leaf hint succeeds exactly when the value's `DbValueInto` conversion does, with the same value; a failed conversion is that conversion's error, wrapped |
| FieldReader.NewtypeTransparent | src/de/field_deserializer.rs:186-192 | a newtype reads exactly as its inner type: same success, same value wrapped, same error |
| FieldReader.NullReadsAsNone | src/de/field_deserializer.rs:149-157 | a value reads as `None` under an `Option` exactly when it is null, and a null reads successfully only into an `Option`, possibly inside newtypes |
| FieldReader.SomeIsTransparent | src/de/field_deserializer.rs:149-157 | a non-null value read as an `Option` succeeds exactly when it reads as the inner type, and is that value in `Some`; otherwise the inner error is passed on |
| RowSpec.InitialNeed | src/de/row_deserializer.rs:28-39 | a new row reader may collapse into a plain value exactly when the row has one column, and must not otherwise |
| RowSpec.ColumnName | src/de/row_deserializer.rs:41-43 | the next value's column is `number_of_fields - len` |
| RowSpec.NextValue | src/de/row_deserializer.rs:45-56 | `TrailingCols` while columns must not be left over; `Usage` on an empty row; otherwise the first remaining value, which is removed |
| RowSpec.ReadLeaf | src/de/row_deserializer.rs:73-171 | a leaf hint takes at most one value from the front and keeps `need`; a result conforms |
| RowSpec.IgnoredAnyError | src/de/row_deserializer.rs:383-393 | an ignored value is an `UnknownField` error |
| RowSpec.NoSlots | src/de/row_deserializer.rs:288-305 | a derived struct starts with no field seen |
| RowSpec.FillingASlot | src/de/row_deserializer.rs:420-465 | filling a slot reduces the number of fields not yet seen, which bounds the map visitor |
| RowSpec.FieldIndex | src/de/row_deserializer.rs:420-445 | the derived field visitor finds a declared field with the key's name, or shows that no field has that name |
| RowSpec.Finish | src/de/row_deserializer.rs:288-305 | a derived struct ends with one conforming value per remaining field |
| RowSpec.NextKey | src/de/row_deserializer.rs:420-445 | the next key is the next column's name, and there is none exactly when the row is empty |
| RowSpec.NextElement | src/de/row_deserializer.rs:496-506 | the sequence visitor ends on an empty row; otherwise it takes exactly one value and reads it through the field reader |
| RowSpec.ReadSeqCols | src/de/row_deserializer.rs:219-233 | `Vec`'s visitor leaves the reader done, takes values from the front, and yields a conforming sequence |
| RowSpec.ReadTupleCols | src/de/row_deserializer.rs:325-339 | a tuple's visitor leaves the reader done, takes values from the front, and yields a conforming tuple |
| RowSpec.ReadRow | src/de/row_deserializer.rs:65-393 | every hint takes values only from the front of the row; the reader only moves to done; a result conforms to the target type |
| RowSpec.RowRefused | src/de/row_deserializer.rs:173-353 | the hints the row reader does not implement (`char`, `unit`, `map`, `unit_struct`, `tuple_struct`, `enum`) are reported as `NotImplemented` |
| RowSpec.NextValueSeed | src/de/row_deserializer.rs:448-465 | a map value reads from the front of the row, and a result conforms |
| RowSpec.ReadStructCols | src/de/row_deserializer.rs:288-305 | the struct visitor leaves the reader done, takes values from the front, and yields a conforming struct |
| RowSpec.ConvertRow | src/de/deserializable_row.rs:31-40 | a row converted by a fresh reader yields a value of the target type |
| RowLaws.LeafRead | src/de/row_deserializer.rs:45-56 | a leaf hint fails with `TrailingCols` and takes nothing while columns must not be left over; otherwise it reads exactly the next value, or fails with `Usage` on an empty row |
| RowLaws.RowCollapse | src/de/row_deserializer.rs:28-56 | a row converts into a plain value or `Option` only when it has exactly one value, and is then that value's own conversion; other rows give `TrailingCols` |
| RowLaws.NoDoubleNesting | src/de/row_deserializer.rs:219-339 | once a row is opened as a container, a nested seq, tuple or struct is a `Usage` error and takes nothing |
| RowLaws.SeqColsReadAll | src/de/row_deserializer.rs:219-233 | the sequence visitor succeeds only by taking every remaining value, each read as the element type in order |
| RowLaws.ReadsAsCons | src/de/row_deserializer.rs:496-506 | a first value read as the element, followed by the rest read as elements, reads as the whole |
| RowLaws.SeqTakesWholeRow | src/de/row_deserializer.rs:219-233 | a row read as a `Vec` takes every remaining value, one element per value in column order |
| RowLaws.SeqColsSucceed | src/de/row_deserializer.rs:219-233 | when every remaining value reads as the element type, the sequence visitor succeeds |
| RowLaws.SeqColsFirstError | src/de/row_deserializer.rs:219-233 | the first value that does not read as the element type ends the sequence with that value's error, and the values after it stay in the row |
| RowLaws.SeqColsCons | src/de/row_deserializer.rs:219-233 | one element read at the front extends the elements read in order |
| RowLaws.SeqRowOutcome | src/de/row_deserializer.rs:219-233 | a row read as a `Vec` succeeds exactly when every remaining value reads as the element type |
| RowLaws.SeqRowFirstError | src/de/row_deserializer.rs:219-233 | otherwise it fails with the error of the first value that does not read |
| RowLaws.RowNewtypeTransparent | src/de/row_deserializer.rs:258-273 | a newtype reads what its inner type reads from the row: same values taken, same `need` afterwards, the value wrapped or the same error |
| RowLaws.RowHintsRefused | src/de/row_deserializer.rs:173-353 | `char`, `unit`, `map`, `unit_struct`, `tuple_struct` and `enum` are `NotImplemented` in every state, take nothing and leave `need` as it was |
| RowLaws.TupleColsTakePrefix | src/de/row_deserializer.rs:325-339 | the tuple visitor takes exactly one value per remaining element, and values beyond the tuple stay |
| RowLaws.PrefixExtends | src/de/row_deserializer.rs:325-339 | the elements read after the first value, together with the first value's own, make up the elements read from the whole |
| RowLaws.TupleTakesPrefix | src/de/row_deserializer.rs:325-339 | a row read as an n-tuple reads element k from value k and leaves the rest in the row; with fewer values than elements it fails |
| RowLaws.MemberTakesAtMostOne | src/de/row_deserializer.rs:65-393 | inside an opened row, every hint takes at most one value |
| RowLaws.StructColsCover | src/de/row_deserializer.rs:420-465 | the struct visitor succeeds only after taking every value, and only if every remaining column names a field |
| RowLaws.DeclaredCons | src/de/row_deserializer.rs:420-445 | a first column that names a field, followed by declared columns, makes all the columns declared |
| RowLaws.StructCoversRow | src/de/row_deserializer.rs:288-305 | a row read as a struct succeeds only by taking every value, and every column must be a field, so no column is silently dropped |
| RowLaws.UnknownColumnReported | src/de/row_deserializer.rs:383-393 | a column the struct does not declare is reported as `UnknownField` with that column's name |
| RowLaws.StructStep | src/de/row_deserializer.rs:420-465 | a column naming an unseen field reads its own value as that field and fills its slot, or ends the read with the conversion error |
| RowLaws.StructEnd | src/de/row_deserializer.rs:288-305 | at the end of the row, the struct is finished from its slots |
| RowLaws.FinishFills | src/de/row_deserializer.rs:288-305 | a struct finishes exactly when each field was seen or is an `Option`, and then holds, in declaration order, the value seen or `None` |
| RowLaws.TupleColsOutcome | src/de/row_deserializer.rs:325-339 | the tuple visitor succeeds exactly when enough values are left, and otherwise reports serde's invalid-length error |
| RowLaws.TupleColsStep | src/de/row_deserializer.rs:496-506 | a value that reads as the next element is appended and the visitor moves on |
| RowLaws.ElementsReadShift | src/de/row_deserializer.rs:496-506 | if the values read as the elements from position i, the first reads as element i and the rest read from i + 1 |
| RowLaws.TupleOutcome | src/de/row_deserializer.rs:325-339 | a row whose values convert reads as an n-tuple exactly when it has at least n values; otherwise it gives the invalid-length error |
| RowLaws.StructRowUnfold | src/de/row_deserializer.rs:288-305 | a row opened as a struct starts the map visitor with no field seen |
| RowReaders.RowReader.constructor | src/de/row_deserializer.rs:28-39 | the reader owns the row, and its `need` depends on the row's length |
| RowReaders.RowReader.NextValue | src/de/row_deserializer.rs:45-56 | takes the next value from the row exactly as `RowSpec.NextValue` says |
| RowReaders.RowReader.DeserializeLeaf | src/de/row_deserializer.rs:73-171 | the leaf hints change the row and the result exactly as `RowSpec.ReadLeaf` says |
| RowReaders.RowReader.DeserializeIdentifier | src/de/row_deserializer.rs:355-381 | the identifier is the next value's column name, and an empty row is a `Usage` error; nothing is taken |
| RowReaders.RowReader.Deserialize | src/de/row_deserializer.rs:65-393 | every hint moves the reader's row and `need` exactly as `RowSpec.ReadRow` says |
| RowReaders.RowReader.NextElement | src/de/row_deserializer.rs:496-506 | the sequence visitor's step matches `RowSpec.NextElement` |
| RowReaders.RowReader.VisitSeq | src/de/row_deserializer.rs:219-233 | the `Vec` visitor's loop matches `RowSpec.ReadSeqCols` |
| RowReaders.RowReader.VisitTuple | src/de/row_deserializer.rs:325-339 | the tuple visitor's loop matches `RowSpec.ReadTupleCols` |
| RowReaders.RowReader.NextKey | src/de/row_deserializer.rs:420-445 | the next key is `RowSpec.NextKey`, never an error |
| RowReaders.RowReader.NextValueSeed | src/de/row_deserializer.rs:448-465 | matches `RowSpec.NextValueSeed` |
| RowReaders.RowReader.VisitStruct | src/de/row_deserializer.rs:288-305 | the map visitor's loop matches `RowSpec.ReadStructCols` |
| RowReaders.TryIntoRow | src/de/deserializable_row.rs:31-40 | a row's `try_into` is `RowSpec.ConvertRow` of its values, and so conforms |
| RsSpec.NextRow | src/de/deserializable_result_set.rs:24 | a fetch yields the next row, `None` at the end, or the driver's error |
| RsSpec.TryNew | src/de/rs_deserializer.rs:29-38 | a reader over several rows must not collapse, one over a single row may; the driver's error is passed on |
| RsSpec.PopSingleRow | src/de/rs_deserializer.rs:40-50 | `TrailingRows` without fetching while rows must not be left over; otherwise one fetch gives the row, a `Usage` error on an empty set, or the fetch error |
| RsSpec.ReadSingleRow | src/de/rs_deserializer.rs:59-323 | a single-row hint keeps `need`, fetches at most one row, and yields a conforming value |
| RsSpec.NextRowElement | src/de/rs_deserializer.rs:404-414 | the rows visitor ends at the end of the stream; otherwise it fetches one row and reads it with a fresh row reader |
| RsSpec.ReadRows | src/de/rs_deserializer.rs:237-251 | the rows visitor leaves the reader done, consumes the stream from the front, and yields a conforming sequence |
| RsSpec.SuffixOfTail | src/de/rs_deserializer.rs:404-414 | a suffix of the stream's tail is a suffix of the stream |
| RsSpec.ReadRs | src/de/rs_deserializer.rs:59-385 | every hint consumes at most the stream, moves `need` only to done, and yields a conforming value |
| RsSpec.RsRefused | src/de/rs_deserializer.rs:189-385 | the hints the result-set reader does not implement (`char`, `unit`, `map`, `unit_struct`, `enum`, `identifier`, `ignored_any`) are reported as `NotImplemented` |
| RsSpec.ConvertRs | src/de/deserializable_result_set.rs:50-61 | a result set's conversion passes on a driver error from `has_multiple_rows` and otherwise yields a conforming value |
| RsSpec.Stream | tests/mock_db/result_set.rs:30-40 | the mock result set delivers its rows in order, and none of its fetches fail |
| RsSpec.StreamTail | tests/mock_db/result_set.rs:30-40 | after a fetch, the stream is the remaining rows' stream |
| RsSpec.RowsFit | tests/mock_db/result_set.rs:24-28 | rows with one value per column fit the columns |
| RsSpec.SingleRowUnfold | src/de/rs_deserializer.rs:40-50 | a fetching single-row read is row 0 converted by a fresh row reader, and the stream moves on by one |
| RsSpec.ReadRowsStep | src/de/rs_deserializer.rs:237-251 | one step of the rows visitor, by what `next_element_seed` returns |
| RsLaws.SingleRowRead | src/de/rs_deserializer.rs:40-50 | a single-row hint is `TrailingRows` without fetching while rows must not be left over; otherwise it is the first row's conversion, `Usage` on no rows, or the fetch error |
| RsLaws.SingleRowDelegates | src/de/rs_deserializer.rs:59-323 | every single-row hint hands the popped row to a fresh row reader; `deserialize_any` asks it for a `String` |
| RsLaws.FittingRowsStream | tests/mock_db/result_set.rs:24-28 | a result set's rows that fit the columns make a fitting stream |
| RsLaws.RowResults | src/de/rs_deserializer.rs:404-414 | one result per row |
| RsLaws.RowResultsAt | src/de/rs_deserializer.rs:404-414 | result k is row k's own conversion by a fresh row reader |
| RsLaws.Collect | src/de/rs_deserializer.rs:237-251 | collecting succeeds exactly when every result is a value, gives the values in order, and otherwise gives the first error |
| RsLaws.CollectCons | src/de/rs_deserializer.rs:237-251 | collecting a first result and the rest gives the collection of all of them |
| RsLaws.RowsVisitorFirstRow | src/de/rs_deserializer.rs:404-414 | the rows visitor's first step converts row 0, and the remaining results are those of the remaining rows |
| RsLaws.ReadRowsEveryRow | src/de/rs_deserializer.rs:237-251 | the rows visitor over a result set's rows collects every row's own conversion in row order, or gives the first row error |
| RsLaws.EveryRowStep | src/de/rs_deserializer.rs:237-251 | one step of the rows visitor: the first row's conversion, then the rest of the rows |
| RsLaws.EveryRowCons | src/de/rs_deserializer.rs:237-251 | a first row that converts is appended, and the rest of the rows decide the outcome |
| RsLaws.FirstRowFails | src/de/rs_deserializer.rs:237-251 | a first row that does not convert ends the visitor with its error |
| RsLaws.RsNewtypeTransparent | src/de/rs_deserializer.rs:276-291 | a newtype reads what its inner type reads from the result set: same fetches consumed, same `need`, the value wrapped or the same error |
| RsLaws.RsHintsRefused | src/de/rs_deserializer.rs:189-385 | `char`, `unit`, `map`, `unit_struct`, `enum`, `identifier` and `ignored_any` are `NotImplemented` in every state, fetch nothing and leave `need` as it was |
| RsLaws.SeqReadsEveryRow | src/de/rs_deserializer.rs:237-251 | a result set read as a `Vec` takes every row, each through a fresh row reader: it succeeds exactly when every row converts, element k is row k, and otherwise the first failing row's error is reported; a reader already done refuses |
| RsLaws.SeqUnfold | src/de/rs_deserializer.rs:237-251 | `deserialize_seq` on a fresh reader is the rows visitor |
| RsLaws.FetchErrorPropagates | src/de/rs_deserializer.rs:404-414 | a fetch that fails while the rows are read ends the read with that error |
| RsLaws.ManyRowsRefused | src/de/rs_deserializer.rs:29-50 | a single-row type cannot be read from a result set with several rows: `TrailingRows` |
| RsLaws.NoRowRefused | src/de/rs_deserializer.rs:40-50 | a single-row type read from an empty result set is a `Usage` error |
| RsLaws.OneRowReadAsRow | src/de/rs_deserializer.rs:40-50 | a result set with one row converts into a single-row type as that row does |
| RsLaws.ConvertRsUnfold | src/de/deserializable_result_set.rs:50-61 | a result set's conversion is the reader started in the state `try_new` gives |
| RsLaws.VecOfConvertedRows | src/de/rs_deserializer.rs:237-251 | when every row converts, a result set of any number of rows reads as the `Vec` of the rows' values in row order |
| RsLaws.SeqOfCollected | src/de/rs_deserializer.rs:237-251 | when the rows' results collect to values, `deserialize_seq` yields exactly those values |
| RsLaws.CollectConverted | src/de/rs_deserializer.rs:404-414 | rows that each convert collect to the list of their values |
| RsLaws.CollectAllOk | src/de/rs_deserializer.rs:237-251 | results that are all values collect to those values |
| RsReaders.RsReader.constructor | src/de/rs_deserializer.rs:29-38 | the reader owns the result set and starts in the state `try_new` computes from `has_multiple_rows` |
| RsReaders.RsReader.PopSingleRow | src/de/rs_deserializer.rs:40-50 | refuses without fetching while rows must not be left over; otherwise hands out the oldest row, and the result set holds the rest |
| RsReaders.RsReader.DeserializeSingleRow | src/de/rs_deserializer.rs:59-323 | matches `RsSpec.ReadSingleRow` on the rows the result set holds |
| RsReaders.RsReader.Deserialize | src/de/rs_deserializer.rs:59-385 | every hint changes the result set and `need` exactly as `RsSpec.ReadRs` says |
| RsReaders.RsReader.NextElement | src/de/rs_deserializer.rs:404-414 | matches `RsSpec.NextRowElement` |
| RsReaders.RsReader.VisitRows | src/de/rs_deserializer.rs:237-251 | the rows visitor's loop matches `RsSpec.ReadRows` |
| RsReaders.TryInto | src/de/deserializable_result_set.rs:50-61 | the mock result set's `try_into` is `RsSpec.ConvertRs` over its rows, and so conforms |
| MockRows.Row.constructor | tests/mock_db/row.rs:15-21 | a row holds its metadata and values |
| MockRows.Row.Len | tests/mock_db/row.rs:65-68 | the number of values left |
| MockRows.Row.NumberOfFields | tests/mock_db/row.rs:75-77 | the column count of the shared metadata |
| MockRows.Row.FieldName | tests/mock_db/row.rs:79-82 | the metadata's name for column `i` |
| MockRows.Row.Next | tests/mock_db/row.rs:70-73 | removes and returns the first remaining value, and keeps the row within its columns |
| MockRows.Row.ClonedValue | tests/mock_db/row.rs:23-26 | the `i`-th of the values still remaining, counted from the front of what is left, not from the original columns |
| MockRows.Row.FieldInto | tests/mock_db/row.rs:38-44 | converts value `i` through the field reader without changing the row, and the result conforms |
| MockRows.Row.NextTryInto | tests/mock_db/row.rs:29-35 | takes the first value and converts it; the value is gone even when the conversion fails |
| MockResultSets.ResultSet.constructor | tests/mock_db/result_set.rs:16-22 | a new result set holds no rows and the given column names |
| MockResultSets.ResultSet.Push | tests/mock_db/result_set.rs:24-28 | a pushed row goes to the back of the queue, and every row keeps one value per column |
| MockResultSets.ResultSet.Next | tests/mock_db/result_set.rs:30-40 | hands out the oldest row as a new row object over the shared metadata, and the queue loses that row |
| MockResultSets.ResultSet.Len | tests/mock_db/result_set.rs:42-44 | the number of rows still to come, in both buffers |
| MockResultSets.ResultSet.HasMultipleRows | tests/mock_db/result_set.rs:46-48 | true exactly when more than one row is left |
| MockResultSets.ResultSet.NumberOfFields | tests/mock_db/result_set.rs:50-52 | the column count |
| MockResultSets.ResultSet.FieldName | tests/mock_db/result_set.rs:54-56 | the name of column `i` |
| MockFactory.Descriptor | tests/mock_db/serde_db_impl/ser.rs:113-122 | every descriptor has a non-empty name |
| MockFactory.DescriptorInjective | tests/mock_db/serde_db_impl/ser.rs:113-122 | different descriptors have different names |
| MockFactory.FromNarrowInt | tests/mock_db/serde_db_impl/ser.rs:17-31 | `i8` and `i16` are accepted exactly by the short descriptors with the value unchanged; otherwise a type error |
| MockFactory.FromWideInt | tests/mock_db/serde_db_impl/ser.rs:32-69 | `i32` and `i64` are accepted exactly by the short descriptors when they fit into 16 bits; a range error when they do not; a type error for other descriptors |
| MockFactory.ParseTimestamp | tests/mock_db/serde_db_impl/ser.rs:125-131 | a parsed date-time becomes a timestamp value, and a parser failure a `Serde` error with the parser's description |
| MockFactory.FromStr | tests/mock_db/serde_db_impl/ser.rs:91-101 | string descriptors keep the text, timestamp descriptors parse it, and short descriptors refuse it |
| MockFactory.FromNone | tests/mock_db/serde_db_impl/ser.rs:105-112 | only a nullable descriptor accepts a missing value, which becomes null; otherwise a type error |
| MockFactory.FromPrimitive | tests/mock_db/serde_db_impl/ser.rs:14-104 | per kind: `i8`/`i16` are taken by exactly the short descriptors and `i32`/`i64` by them when they fit in 16 bits, otherwise a range error, with the same value; a non-short descriptor refuses an integer with a type error naming it; text is kept by the string descriptors, parsed by the timestamp descriptors and refused by the short ones; `bool`, the unsigned types, floats, `char` and bytes are refused by every descriptor with a type error naming the kind |
| MockFactory.FactoryRoundTrip | tests/mock_db/serde_db_impl/ser.rs:17-101 | what the factory writes, the driver's conversions read back: an accepted integer as the same `i32`, a string as the same text |
| MockFactory.NoneRoundTrip | tests/mock_db/serde_db_impl/ser.rs:105-112 | a written missing value reads back as null |
| ParamSerializer.CurrentFieldOf | src/ser/serializer.rs:23-30 | takes the next descriptor, or fails with "too many values specified" when none is left |
| ParamSerializer.WriteWith | src/ser/serializer.rs:52-166 | one primitive consumes one descriptor, and the factory's value is appended, or its error is returned |
| ParamSerializer.Refuse | src/ser/serializer.rs:168-187 | a unit struct or unit variant consumes a descriptor and is refused with a type error naming it |
| ParamSerializer.Write | src/ser/serializer.rs:52-278 | a write, successful or not, never gives back a descriptor or drops a value, and never adds more values than it consumes descriptors |
| ParamSerializer.WriteAll | src/ser/serializer.rs:296-367 | the same for a sequence's or tuple's elements |
| ParamSerializer.WriteEntries | src/ser/serializer.rs:369-394 | the same for a map's values |
| ParamSerializer.WriteFields | src/ser/serializer.rs:396-417 | the same for a struct's field values |
| ParamSerializer.Params | src/ser/mod.rs:51-60 | `to_params` never yields more values than there are descriptors |
| ParamSerializer.Chain | src/ser/serializer.rs:296-417 | writing leaves `a` and then leaves `b` is writing `a + b`: descriptors, kept output and each new value line up |
| ParamSerializer.WriteSpans | src/ser/serializer.rs:52-278 | a successful write of a value makes one value per leaf, in order: the output written before is kept, and the `k`-th new value is what the factory makes of the `k`-th leaf with the `k`-th descriptor |
| ParamSerializer.WriteAllSpans | src/ser/serializer.rs:296-367 | the same for the elements of a sequence or tuple, element after element |
| ParamSerializer.WriteEntriesSpans | src/ser/serializer.rs:369-394 | the same for a map, whose keys write nothing and whose values are written in entry order |
| ParamSerializer.EntriesStep | src/ser/serializer.rs:369-394 | one map entry writes its value, then the rest |
| ParamSerializer.WriteFieldsSpans | src/ser/serializer.rs:396-417 | the same for a struct's fields, in declaration order |
| ParamSerializer.ParamsValues | src/ser/mod.rs:51-60 | `to_params` yields one value per leaf of the input, never more than there are descriptors, and value `k` is what the factory makes of leaf `k` with descriptor `k`; it fails when the input has more leaves than descriptors |
| ParamSerializer.Head | src/ser/serializer.rs:281-283 | the first `count` characters, or all of them |
| ParamSerializer.Tail | src/ser/serializer.rs:285-289 | the last `count` characters, or all of them |
| ParamSerializer.Serializer.constructor | src/ser/serializer.rs:17-21 | a new serializer holds the descriptors and no output |
| ParamSerializer.Serializer.CurrentField | src/ser/serializer.rs:23-30 | takes the next descriptor as `CurrentFieldOf` says and leaves the output alone |
| ParamSerializer.Serializer.Push | src/ser/serializer.rs:32-34 | appends one value |
| ParamSerializer.Serializer.IntoInner | src/ser/serializer.rs:36-38 | the values written so far |
| ParamSerializer.Serializer.SerializePrimitive | src/ser/serializer.rs:52-159 | a primitive changes the state exactly as `Write` says |
| ParamSerializer.Serializer.SerializeNone | src/ser/serializer.rs:209-214 | `serialize_none` and `serialize_unit` write the factory's null value |
| ParamSerializer.Serializer.SerializeRefused | src/ser/serializer.rs:168-187 | matches `Refuse` |
| ParamSerializer.Serializer.Serialize | src/ser/serializer.rs:52-278 | every kind of value changes the state exactly as `Write` says |
| ParamSerializer.Serializer.SerializeElements | src/ser/serializer.rs:296-367 | the element loop matches `WriteAll` |
| ParamSerializer.Serializer.SerializeEntries | src/ser/serializer.rs:369-394 | the map loop matches `WriteEntries` |
| ParamSerializer.Serializer.SerializeFields | src/ser/serializer.rs:396-417 | the struct loop matches `WriteFields` |
| ParamSerializer.ToParams | src/ser/mod.rs:51-60 | `to_params` gives the specified values: one per leaf of the input, value `k` made by the factory from leaf `k` and descriptor `k` |
| LegacyRows.TryInto | tests/util/mock_value.rs:97-129 | the older mock value converts a short into `i32` and a string or timestamp into `String`; every other pair has no value |
| LegacyRows.IsNull | tests/util/mock_value.rs:56-60 | the older mock value is never null |
| LegacyRows.TryIntoDateTime | tests/util/mock_value.rs:130-138 | only a timestamp converts into a date-time, and it is its own |
| LegacyRows.ConversionsAgree | tests/util/mock_value.rs:56-129 | the older mock values are never null, and where they convert, the current driver converts the same value to the same result |
| LegacyRows.StackRow.constructor | src/de/row/row.rs:21-26 | a row holds its metadata and values |
| LegacyRows.StackRow.Len | src/de/row/row.rs:70-73 | the number of values left (likewise `MockRow::len`, tests/util/mock_row.rs:63-66) |
| LegacyRows.StackRow.Pop | src/de/row/row.rs:76-80 | removes and returns the last value; an empty row stays empty (likewise `MockRow::pop`, tests/util/mock_row.rs:69-73) |
| LegacyRows.StackRow.Last | src/de/row/row.rs:83-86 | the value `pop` would return (the generic row only: `MockRow` has no `last`) |
| LegacyRows.StackRow.ReverseValues | src/de/row/row.rs:95-98 | the values in reverse order (likewise `MockRow::reverse_values`, tests/util/mock_row.rs:82-85) |
| LegacyRows.StackRow.ClonedValue | src/de/row/row.rs:29-35 | value `i`, or an `Implementation` error past the end (likewise `MockRow::cloned_value`, tests/util/mock_row.rs:25-31) |
| LegacyRows.StackRow.FieldIntoTyped | src/de/row/row.rs:47-54 | converts value `i` without changing the row, or gives the error for a missing index (likewise `MockRow::field_into_typed`, tests/util/mock_row.rs:42-47) |
| LegacyRows.StackRow.PopIntoTyped | src/de/row/row.rs:38-44 | takes the last value and converts it (likewise `MockRow::pop_into_typed`, tests/util/mock_row.rs:34-39) |
| LegacyRows.StackRow.GetFieldname | src/de/row/row.rs:89-92 | the metadata's name for column `i` (likewise `MockRow::get_fieldname`, tests/util/mock_row.rs:76-79) |
| LegacyRows.ReversedStackIsQueue | src/de/row/row.rs:76-98 | after `reverse_values`, `pop` takes the first original value and leaves the rest reversed, so values are read in column order |
| LegacyRows.MockResultset.constructor | tests/util/mock_resultset.rs:15-20 | no rows, the given column names |
| LegacyRows.MockResultset.Push | tests/util/mock_resultset.rs:21-24 | the row is added at the back |
| LegacyRows.MockResultset.HasMultipleRows | tests/util/mock_resultset.rs:38-40 | true exactly when more than one row is held |
| LegacyRows.MockResultset.LastRow | tests/util/mock_resultset.rs:42-44 | the row `pop_row` would return |
| LegacyRows.MockResultset.ReverseRows | tests/util/mock_resultset.rs:50-52 | the rows in reverse order |
| LegacyRows.MockResultset.PopRow | tests/util/mock_resultset.rs:54-56 | removes the last row and hands it out as a new row over the shared metadata |
| LegacyRows.MockResultset.NumberOfFields | tests/util/mock_resultset.rs:58-60 | the column count |
| LegacyRows.MockResultset.GetFieldname | tests/util/mock_resultset.rs:62-64 | the name of column `i` |
| Seqs.Reverse | src/de/row/row.rs:95-98 | element i of the result is element n-1-i of the input |
| Seqs.ReverseReverse | tests/util/mock_resultset.rs:50-56 | reversing twice gives back the original |
| Seqs.Take | src/ser/serializer.rs:281-283 | at most the first `n` elements |
| Seqs.TakeIsPrefix | src/ser/serializer.rs:281-289 | `take(n)` is the prefix of length min(n, len) |
| Scenarios.OneByOneIntoString | tests/test_resultset_1x1.rs:48-52 | a 1x1 result set holding "a" reads as the `String` "a" |
| Scenarios.OneByOneIntoStruct | tests/test_resultset_1x1.rs:43-47 | a 1x1 result set reads as a one-field struct holding "a" |
| Scenarios.OneColumnStruct | tests/test_resultset_1x1.rs:43-47 | the single column `f1` fills the struct's only field |
| Scenarios.OneByOneIntoVec | tests/test_resultset_1x1.rs:38-42 | a 1x1 result set reads as a `Vec<String>` of one element |
| Scenarios.OneByOneIntoVecOfStruct | tests/test_resultset_1x1.rs:33-37 | a 1x1 result set reads as a `Vec` of one struct |
| Scenarios.ManyByOneIntoVec | tests/test_resultset_mx1.rs:55-63 | several one-column rows read as a `Vec<String>` in row order |
| Scenarios.ManyByOneNotIntoValue | tests/test_resultset_mx1.rs:64-83 | several rows do not collapse into a struct or a `String`: `TrailingRows` |
| Scenarios.Row4 | tests/test_resultset_mxn.rs:287-301 | a four-column row of the mxn tests fits its columns |
| Scenarios.RowIntoTestData | tests/test_resultset_mxn.rs:131-140 | a row fills `TestData`'s fields by column name, whatever their declaration order |
| Scenarios.TestDataColumns | tests/test_resultset_mxn.rs:28-34 | column by column, each value lands in the slot of the field its column names |
| Scenarios.TestDataF1 | tests/test_resultset_mxn.rs:28-34 | column `f1` fills field `f1` |
| Scenarios.TestDataF2 | tests/test_resultset_mxn.rs:28-34 | column `f2` fills field `f2`, the last declared, with the timestamp's text |
| Scenarios.TestDataF3 | tests/test_resultset_mxn.rs:28-34 | column `f3` fills field `f3` |
| Scenarios.TestDataF4 | tests/test_resultset_mxn.rs:28-34 | column `f4` fills the `Option` field `f4` with `Some` |
| Scenarios.RowNotIntoString | tests/test_resultset_mxn.rs:233-247 | a four-column row does not collapse into a `String`: `TrailingCols` |
| Scenarios.Row4Reads | tests/test_resultset_mxn.rs:152-182 | the row's values read as the tuple elements of the tests |
| Scenarios.RowIntoTuples | tests/test_resultset_mxn.rs:152-182 | the row reads as a 4-tuple and as a 3-tuple, but not as a 5-tuple (invalid length) |
| Scenarios.RowNotIntoShortData | tests/test_resultset_mxn.rs:141-151 | a row does not read into `ShortData`, which has no field `f3`: `UnknownField("f3")` |
| Scenarios.ShortDataF1 | tests/test_resultset_mxn.rs:44-48 | column `f1` fills `ShortData`'s field `f1` |
| Scenarios.ShortDataRest | tests/test_resultset_mxn.rs:44-48 | after `f2`, column `f3` is reported as unknown |
| Scenarios.UnknownF3 | tests/test_resultset_mxn.rs:44-48 | column `f3` is unknown to `ShortData` whatever has been seen |
| Scenarios.ParamsReadBack | tests/test_serialization.rs:61-90 | `(a, Some(b), None)` of `i32` values written against nullable short descriptors gives `Short(a)`, `Short(b)` and null, which read back as the same tuple |
| Scenarios.WriteShorts | tests/test_serialization.rs:84-90 | the three values are written as `Short(a)`, `Short(b)` and null, consuming all three descriptors |
| Scenarios.WriteFirst | tests/test_serialization.rs:84-86 | a plain `i32` is written as a short |
| Scenarios.WriteSecond | tests/test_serialization.rs:87-87 | `Some(b)` is written as `b` |
| Scenarios.WriteThird | tests/test_serialization.rs:90-90 | `None` is written as null |
| Scenarios.ParamOutOfRange | tests/mock_db/serde_db_impl/ser.rs:32-40 | an `i32` outside 16 bits is refused by a short descriptor with a range error |
| Scenarios.TupleReadBack | tests/mock_db/serde_db_impl/de.rs:63-73 | a row of `Short(a)`, `Short(b)` and null reads as `(a, Some(b), None)` |
| Scenarios.LeftoverDescriptorsIgnored | src/ser/mod.rs:51-60 | descriptors left over are not reported |
| Scenarios.TooManyValuesRefused | src/ser/serializer.rs:23-30 | more values than descriptors fail with "too many values specified" |
| Scenarios.SecondShortRefused | src/ser/serializer.rs:23-30 | one short descriptor, two `i16` values: the second write finds no descriptor left |
| Scenarios.SecondValueRefused | src/ser/serializer.rs:23-30 | with one descriptor, a second primitive fails with "too many values specified" once the first was accepted |
| Scenarios.NothingLeftToWrite | src/ser/serializer.rs:23-30 | a primitive written with no descriptor left fails with "too many values specified" and changes nothing |

## Left out

- Floating point: `MValue::Double`, `DbValueInto<f64>` from a double, and the float serializer calls. The float primitives carry no value, and `f32`/`f64` targets never convert.
- `MockValues.Convert`: the error texts of `DbValueInto<i16>`, `<i32>`, `<f64>` and `<String>` are given without the value's `Debug` text.
- The mock driver's `NullableShort(Some(v))`, `NullableString(Some(s))` and `NullableTimestamp(Some(t))` values are modelled as `Short(v)`, `String(s)` and `Timestamp(t)`. Their `None` forms are modelled as `Null`. This follows what tests/test_serialization.rs:84-111 expects of `to_params`; the value enum in tests/mock_db/mvalue.rs:29-35 has only the plain variants.
- chrono's `NaiveDateTime` is known only by its `to_string()` text, and its parser is a function parameter (`MockFactory.TimestampParser`). A `NaiveDateTime` target is read through its `String` form.
- `Display`/`Debug` output beyond what is listed above, logging, and `trace!`/`log_enabled!` calls. `head` and `tail` are modelled, but the debug message using them is not.
- Panics become preconditions, for example `push` with the wrong row width, `next_try_into` on an empty row, and `pop_into_typed` on an empty row. They can also become a `None` result, as in the older `DbValueInto` conversions. `FieldDeserializer`'s panicking structured hints become `NotImplemented` errors.
- LegacyRows.TryInto: returns `None` where the older mock value's conversion panics, instead of modelling the panic.
- RowSpec.ReadRow: the error branch of `next_key_seed` when no field name exists cannot be reached from rows that fit their columns, so it is not modelled. The same holds for `deserialize_identifier` without a field name.
- RowSpec.ReadTupleCols: serde's invalid-length message is modelled as the fixed text "invalid length".
- The mock adapter's `has_multiple_rows` and `next` never fail, so the classes over the mock result set do not exercise fetch errors. `RsSpec` covers fetch errors over an arbitrary stream.
- Rows in the mock result set are stored as values. `next` creates a new row object, so the model does not capture aliasing between rows.
- RsSpec.ReadRs: for a non-single-row hint it states only a length bound on the fetches left. The exact rest is stated by `ReadRows` and `ReadSingleRow`.
- The older error type `DeserError` is modelled only with its `Implementation` variant, which is the only one these files construct.
- The older `into_typed` and the result set's `IntoIterator` are not modelled. `last_row_mut` and `fetch_all` are not modelled either, because they only hand out references or buffers.
- The mxn tests for `LongData`, `TestOption` and the map/fold loops are not modelled as scenarios.
- ParamSerializer.Write: for a failed write it states only counts (descriptors consumed, values added); that descriptors come from the front and earlier values are kept is stated for successful writes, by `WriteSpans`.
- ParamSerializer.WriteAll: like `Write`, for a failed write it states only counts; for a successful one the order and content are stated by `WriteAllSpans`.
- ParamSerializer.WriteEntries: like `Write`, for a failed write it states only counts; for a successful one the order and content are stated by `WriteEntriesSpans`.
- ParamSerializer.WriteFields: like `Write`, for a failed write it states only counts; for a successful one the order and content are stated by `WriteFieldsSpans`.
- ParamSerializer.ParamsValues: states what a successful `to_params` yields and that too few descriptors fail. It does not state the converse, that every leaf accepted by its descriptor makes the call succeed; a struct variant anywhere in the value also makes it fail.
- ParamSerializer.ToParams: takes the descriptors as a sequence rather than an iterator, and descriptors left over are not reported, as in the source.
- The scripts and the trait-only files (`DbValue`, `DbValueInto`, `DbvFactory`, `DeserializableRow`) are not modelled beyond the operations above.
