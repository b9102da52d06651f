# InfluxDB 3 client core, modelled in Dafny

This project models the core of the InfluxDB 3 Rust client. It has two halves.

The first half is the `influxdb3-core` crate:
- the name validator and the `TagName` newtype;
- `PointValue` with its line-protocol text and its `Encode`/`Decode` conversions;
- `TimestampPrecision`;
- `Point` with its setters, getters, removers, `is_empty` and line-protocol `serialize`;
- the write `Batcher`, which seals a request body once it holds 10 000 lines or at least 10 MiB, so a body can pass 10 MiB by its last line;
- the columnar decoder, which turns a record batch row into a `Point`, and the `PointStream` that drains batches.

The second half is the `influxdb3-macro` crate:
- `to_snake_case`;
- the attribute parser (`parse_struct`/`parse_fields`);
- the code that `#[derive(ToPoint)]` and `#[derive(FromPoint)]` generate, written as interpreters over the parsed struct description.

A Rust value of a supported type is a `Codec.Val` tagged with a `Codec.Ty`. A struct value is one `Val` per declared field. The wall clock (`Utc::now()`), the platform's `f64` text and `FromStr` for types without a modelled parser are parameters. A `HashMap`'s iteration order is a parameter too: a sequence that enumerates the map.

Files, one module each:
- `base.dfy`: results, errors, machine integers, UTF-8 and map collection.
- `decimal.dfy`: integer text and Rust's integer `FromStr`.
- `names.dfy` and `tag_name.dfy`.
- `point_value.dfy` and `codec.dfy`.
- `options.dfy` and `point.dfy`.
- `line_protocol.dfy` and `batcher.dfy`.
- `point_stream.dfy`.
- `snake_case.dfy` and `macro_parser.dfy`.
- `to_point.dfy` and `from_point.dfy`.

## Model

| member | source | states |
|---|---|---|
| Names.ValidateName | influxdb3-core/src/util.rs:1-5 | `validate_name`, which checks the UTF-8 bytes, accepts a text iff it is a well-formed name read on characters |
| Names.NameBytesIffNameChars | influxdb3-core/src/util.rs:4 | every UTF-8 byte of a text is allowed iff every character is; a non-ASCII character is never allowed |
| Names.FirstByteIsFirstChar | influxdb3-core/src/util.rs:3 | the first byte is ASCII alphanumeric iff the first character is |
| Names.EmptyNameRejected | influxdb3-core/src/util.rs:2 | the empty name is refused |
| Names.LeadingSeparatorRejected | influxdb3-core/src/util.rs:3 | a name starting with `_` or `-` is refused |
| Names.ForeignCharRejected | influxdb3-core/src/util.rs:4 | a name containing any character other than ASCII letters, digits, `_` and `-` is refused |
| Names.AppendKeepsValid | influxdb3-core/src/util.rs:3-4 | appending allowed characters to a valid name keeps it valid |
| TagNames.TryFrom | influxdb3-core/src/tag_name.rs:12-46 | conversion succeeds iff the text is a valid name; the tag name then holds the text unchanged; otherwise the error is `InvalidTagName` carrying the text |
| TagNames.AsRef | influxdb3-core/src/tag_name.rs:48-52 | the text of a tag name is always a valid name |
| TagNames.FromRef | influxdb3-core/src/tag_name.rs:54-58 | the copy has the same text |
| TagNames.TryFromAsRef | influxdb3-core/src/tag_name.rs:12-22 | converting a tag name's text back gives the same tag name |
| TagNames.TagMapKeysValid | influxdb3-core/src/tag_name.rs:7 | every key of a tag map is a well-formed name |
| Decimal.NatText | influxdb3-core/src/point_value.rs:21-22 | decimal text of a natural number: non-empty digits without a leading zero |
| Decimal.IntText | influxdb3-core/src/point_value.rs:21-22 | decimal text of an integer: a leading `-` exactly for negatives, digits after it |
| Decimal.DigitsValueOfNatText | influxdb3-core/src/point_value.rs:21-22 | the digits of `NatText(n)` read back as `n` |
| Decimal.ParseInt | influxdb3-macro/src/from_point.rs:58 | integer `FromStr` succeeds exactly on one or more digits, optionally after `+` (or `-` for a signed type), whose value lies in the type's range, and gives that value |
| Decimal.ParseIntText | influxdb3-macro/src/from_point.rs:58 | the decimal text of any in-range value parses back to it |
| Decimal.UnsignedRejectsMinus | influxdb3-macro/src/from_point.rs:58 | unsigned parsing refuses a leading `-` |
| PointValues.ReplaceChar | influxdb3-core/src/point_value.rs:24 | after replacing `c` by a text without `c`, no `c` is left |
| PointValues.EscapeIsPerChar | influxdb3-core/src/point_value.rs:24 | the two chained `replace` calls equal escaping each character on its own |
| PointValues.EscapeRoundTrip | influxdb3-core/src/point_value.rs:24 | unescaping the escaped string gives the original string back |
| PointValues.UnescapeFromEscapeEach | influxdb3-core/src/point_value.rs:24 | unescaping after any prefix recovers the escaped text |
| PointValues.RenderReadBack | influxdb3-core/src/point_value.rs:19-24 | the text of a null, boolean, integer, unsigned or string value reads back as the same value |
| PointValues.TimestampReadBack | influxdb3-core/src/point_value.rs:25 | the text of a timestamp parses back to its nanoseconds |
| Codec.Decode | influxdb3-core/src/point_value.rs:66-73 | a decoded value has the requested type; a decode error is `InvalidPointValueConversion` |
| Codec.Encode | influxdb3-core/src/point_value.rs:51-170 | encoding is total; the variant is one the type's `decode` accepts; the result is `Null` for a `None` and, outside options, only for `()` or a `PointValue` that is itself `Null` |
| Codec.GetValue | influxdb3-core/src/point_value.rs:29-37 | `Null` gives no value; otherwise the result succeeds iff `decode` does, and the value encodes back to the stored one |
| Codec.EncodeThenDecode | influxdb3-core/src/point_value.rs:57-164 | decoding the encoding of any value of a decodable type without nested options gives the value back |
| Codec.DecodeThenEncode | influxdb3-core/src/point_value.rs:173-303 | encoding a successfully decoded value gives the stored value back |
| Codec.DecodeOnlyAccepted | influxdb3-core/src/point_value.rs:173-303 | a variant the type does not accept is refused with `InvalidPointValueConversion` |
| Codec.SignedNarrowing | influxdb3-core/src/point_value.rs:197-231 | decoding an `Integer` into a signed width succeeds iff the value fits the width, and keeps the value |
| Codec.UnsignedNarrowing | influxdb3-core/src/point_value.rs:233-267 | decoding a `UInteger` into an unsigned width succeeds iff the value fits, and keeps the value |
| Codec.NoCrossVariantCoercion | influxdb3-core/src/point_value.rs:224-285 | there is no coercion between variants, such as signed and unsigned or integer and bool, and the message is the source's |
| Codec.OptionComposition | influxdb3-core/src/point_value.rs:57-73 | `None` encodes as `Null`; `Option<T>` decodes `Null` as `None` and otherwise wraps `T`'s result or error |
| Codec.GetValueIsOptionDecode | influxdb3-core/src/point_value.rs:29-37 | `get_value::<T>` agrees with `Option<T>::decode` |
| Codec.NestedOptionCollapses | influxdb3-core/src/point_value.rs:57-73 | `Some(None)` of a nested option encodes as `Null` and decodes as `None` |
| Options.Scale | influxdb3-core/src/options.rs:56-67 | each precision unit is a positive number of nanoseconds |
| Options.TryFrom | influxdb3-core/src/options.rs:42-54 | exactly the eight tokens are accepted, each naming its precision; anything else is `InvalidTimestampPrecision` carrying the token |
| Options.ProcessTimestamp | influxdb3-core/src/options.rs:56-67 | the result is the floor of the nanosecond instant divided by the unit |
| Options.V3RoundTrip | influxdb3-core/src/options.rs:32-54 | parsing each `v3_str` gives the precision back |
| Options.V2RoundTrip | influxdb3-core/src/options.rs:23-54 | parsing each `v2_str` gives the precision back, except microseconds, whose text is refused |
| Options.FloorDivNested | influxdb3-core/src/options.rs:63-65 | flooring twice is flooring by the product of the divisors |
| Options.CoarseningConsistent | influxdb3-core/src/options.rs:63-65 | seconds are milliseconds divided by 1000, and milliseconds are microseconds divided by 1000 |
| Base.CollectMapLast | influxdb3-core/src/point.rs:36-37 | collecting entries into a map keeps, for each key, the value of its last entry |
| Points.Default | influxdb3-core/src/point.rs:9-16 | the default point has an empty name, no tags or fields, and the epoch |
| Points.NewWithMeasurement | influxdb3-core/src/point.rs:19-26 | a new point has the given name and the current time, and is empty |
| Points.New | influxdb3-core/src/point.rs:28-44 | the point has the name and timestamp; its tag and field keys are those of the given entries |
| Points.NewLastWins | influxdb3-core/src/point.rs:36-37 | for a tag or field key given more than once, the point holds the value of its last entry |
| Points.SetMeasurement | influxdb3-core/src/point.rs:50-53 | only the name changes |
| Points.SetTimestamp | influxdb3-core/src/point.rs:55-61 | only the time changes |
| Points.SetTag | influxdb3-core/src/point.rs:63-70 | the tag reads back as the value; no other tag, field, name or time changes |
| Points.GetTag | influxdb3-core/src/point.rs:72-78 | a tag is found iff the point has a tag whose name has the key's text, and then its value is returned |
| Points.HasTag | influxdb3-core/src/point.rs:80-86 | true iff `get_tag` finds the key |
| Points.RemoveTag | influxdb3-core/src/point.rs:88-95 | the tag is gone; nothing else changes |
| Points.GetTagNames | influxdb3-core/src/point.rs:97-99 | the names listed are exactly the valid names the point has a tag for |
| Points.GetField | influxdb3-core/src/point.rs:101-106 | a missing key gives no value; a present key succeeds iff its value decodes, and the value encodes back to the stored one |
| Points.SetField | influxdb3-core/src/point.rs:108-116 | an invalid key leaves the point unchanged; a valid key stores the encoded value; no other field changes |
| Points.RemoveField | influxdb3-core/src/point.rs:118-121 | the field is gone; nothing else changes |
| Points.SetThenGetField | influxdb3-core/src/point.rs:101-116 | reading a field just set gives back the value |
| Points.IsEmptyIffNoFieldNames | influxdb3-core/src/point.rs:123-129 | a point is empty iff it has no field names |
| Points.FieldNamesTrack | influxdb3-core/src/point.rs:108-125 | the field names gain a name `set_field` stores under a valid key, stay the same for an invalid key, and lose exactly the name `remove_field` removes |
| Points.EmptinessTracksFields | influxdb3-core/src/point.rs:118-129 | emptiness ignores tags, the default point is empty, and removing a field empties a point iff that was its only field name |
| Points.SetFieldMakesNonEmpty | influxdb3-core/src/point.rs:108-129 | setting a field under a valid key makes the point non-empty |
| Points.RemoveUndoesSetField | influxdb3-core/src/point.rs:108-121 | removing a field just set under a new key restores the point |
| Points.RemoveUndoesSetTag | influxdb3-core/src/point.rs:63-95 | removing a tag just set under a new key restores the point |
| Points.SetTagOverwrites | influxdb3-core/src/point.rs:63-70 | the second `set_tag` on a key wins |
| LineProtocol.Serialize | influxdb3-core/src/point.rs:131-160 | the bytes appended are the UTF-8 of: the measurement, the default tags, the point's tags, a space, the comma-separated fields, a space, the scaled timestamp and a newline |
| LineProtocol.AppendTags | influxdb3-core/src/point.rs:134-145 | appends `,key=value` for each tag in enumeration order |
| LineProtocol.AppendFields | influxdb3-core/src/point.rs:147-156 | appends `key=value` for each field, with commas between them |
| LineProtocol.EnumeratedRenderable | influxdb3-core/src/point.rs:147-156 | every field in an enumeration of a serialisable point has a text |
| LineProtocol.LineNonEmpty | influxdb3-core/src/point.rs:157-159 | every line ends with a newline |
| LineProtocol.NoFieldsTwoSpaces | influxdb3-core/src/point.rs:146-158 | a point without fields serialises with two spaces between its tags and its timestamp |
| Batching.New | influxdb3-core/src/batch_writer.rs:15-23 | a new batcher holds nothing and satisfies the batching invariant |
| Batching.Push | influxdb3-core/src/batch_writer.rs:29-37 | the line is appended to the held bytes; the current buffer is sealed exactly when it reaches either bound; the invariant is kept |
| Batching.AddPoint | influxdb3-core/src/batch_writer.rs:25-40 | always succeeds; appends the point's line-protocol line, then does `Push`'s bookkeeping |
| Batching.AddPoints | influxdb3-core/src/batch_writer.rs:42-51 | always succeeds; the lines appended are the points' own lines (`LineOf(xs[i])`, the UTF-8 of the point's line-protocol text), one per point, in order, each non-empty; the batcher ends as if each line had been pushed in turn |
| Batching.RunPreserves | influxdb3-core/src/batch_writer.rs:42-51 | adding lines keeps the invariant and appends exactly their bytes |
| Batching.Finalize | influxdb3-core/src/batch_writer.rs:53-60 | the buffers together are exactly the bytes held, and none is empty |
| Batching.FirstFullFrom | influxdb3-core/src/batch_writer.rs:32 | the first prefix length that reaches either bound, or all the lines |
| Batching.GreedyConcat | influxdb3-core/src/batch_writer.rs:32-37 | the greedy groups put together are the lines |
| Batching.GreedyGroupsShape | influxdb3-core/src/batch_writer.rs:32-37 | every group has 1 to 10 000 lines, none of its proper prefixes is full, and every group but the last is full |
| Batching.BatchingIsGreedy | influxdb3-core/src/batch_writer.rs:25-60 | the buffers are the greedy grouping of the lines |
| Batching.Batching | influxdb3-core/src/batch_writer.rs:3-60 | the buffers together are all the lines; each buffer is 1 to 10 000 whole lines; every buffer but the last has 10 000 lines or at least 10 MiB; no lines give no buffers |
| Batching.BatchingContents | influxdb3-core/src/batch_writer.rs:25-60 | each buffer is the bytes of one greedy group, none is empty, and together they are all the lines in order |
| Batching.BatchingShape | influxdb3-core/src/batch_writer.rs:29-60 | each group has 1 to 10 000 lines; every buffer but the last has 10 000 lines or at least 10 MiB; no lines give no buffers |
| Batching.TenThousandAndOne | influxdb3-core/src/batch_writer.rs:3-37 | 10 001 short lines give one buffer of 10 000 lines and one of a single line |
| Batching.AddedPointsBuffered | influxdb3-core/src/batch_writer.rs:42-60 | the buffers `finalize` returns after `add_points` on a new batcher, put together, are exactly the points' lines in the order the points were added |
| PointStreams.ColumnTypeFrom | influxdb3-core/src/point_stream.rs:23-36 | a known column type comes only from its exact metadata text |
| PointStreams.ColumnTypeFromExact | influxdb3-core/src/point_stream.rs:23-36 | each known column type comes from exactly one text |
| PointStreams.Classify | influxdb3-core/src/point_stream.rs:126-131 | a column without the `iox::column::type` metadata is of unknown type |
| PointStreams.GetArrowValue | influxdb3-core/src/point_stream.rs:38-119 | an unsupported data type is `InvalidPointValue` carrying the column name and the type text; otherwise a null cell or null column gives `Null`, and any other cell gives the variant of its data type carrying the cell's payload, with timestamps scaled to nanoseconds; a timestamp chrono cannot hold and a UInt64 column are outside its precondition, as the source panics on them |
| PointStreams.ArrowValueReadsCell | influxdb3-core/src/point_stream.rs:38-113 | on a column of a supported, non-null type, every cell that can be read without a panic is read, and the value maps back to that very cell: the extraction loses nothing |
| PointStreams.TimestampRangeExamples | influxdb3-core/src/point_stream.rs:80-113 | `i64::MAX` seconds panics; the last millisecond of chrono's range is readable and the next second is not; a negative count's seconds round down; every nanosecond count is readable |
| PointStreams.SetTimeFrom | influxdb3-core/src/point_stream.rs:145-147 | a null leaves the point; a timestamp sets the time; any other value is a conversion error |
| PointStreams.ApplyColumnFails | influxdb3-core/src/point_stream.rs:132-165 | a column fails the row exactly when its value fails, and with that error |
| PointStreams.ApplyColumnByRole | influxdb3-core/src/point_stream.rs:135-165 | a measurement column sets the name; a tag column sets the tag; a time column sets the time; any other column sets a field; a null tag or time is skipped |
| PointStreams.InvalidFieldNameDropped | influxdb3-core/src/point_stream.rs:149 | a field column whose name is not a valid name leaves the point unchanged |
| PointStreams.FirstFailure | influxdb3-core/src/point_stream.rs:124-166 | the first column that fails the row, if any |
| PointStreams.ApplyColumnsError | influxdb3-core/src/point_stream.rs:121-169 | reading a row fails iff some column fails, and the error is the first failing column's |
| PointStreams.GetPoint | influxdb3-core/src/point_stream.rs:121-169 | reading a row fails iff some column fails, with the error of the first failing column |
| PointStreams.PollNext | influxdb3-core/src/point_stream.rs:188-214 | keeps the stream invariant; ends only once the source is exhausted; each item consumes a row or a source item |
| PointStreams.NewStream | influxdb3-core/src/point_stream.rs:180-182 | a new stream holds no batch and no pending row, and keeps the stream invariant iff every batch of its source is readable |
| PointStreams.DrainFrom | influxdb3-core/src/point_stream.rs:188-214 | draining yields the rest of the buffered batch, then the expected items of the source |
| PointStreams.DrainIsExpected | influxdb3-core/src/point_stream.rs:179-214 | a new stream yields one item per row of every batch, in order, and a source error as an error item |
| PointStreams.EmptyBatchSkipped | influxdb3-core/src/point_stream.rs:193-209 | a batch without rows yields nothing |
| SnakeCase.ToSnakeCase | influxdb3-macro/src/util.rs:1-19 | the loop with its flag computes the per-position reference conversion |
| SnakeCase.SnakeShape | influxdb3-macro/src/util.rs:6-15 | the result has no upper-case letter and is longer by one `_` per lower-to-upper transition |
| SnakeCase.SnakeOfNoUpper | influxdb3-macro/src/util.rs:12-15 | text without capitals is unchanged |
| SnakeCase.Idempotent | influxdb3-macro/src/util.rs:1-19 | converting twice is converting once |
| SnakeCase.Examples | influxdb3-macro/src/util.rs:6-11 | `CpuStats` becomes `cpu_stats`, `HTTPServer` becomes `httpserver`, `cpu_2Load` becomes `cpu_2load` |
| MacroParser.ParseStruct | influxdb3-macro/src/parser.rs:29-69 | a non-struct is refused with its message; a struct-level item other than `measurement` that carries a value is refused with syn's "expected `,`" before the fields are read; a struct without named fields is refused with its message; otherwise the parse succeeds iff `parse_fields` does, and its error is passed on; success keeps the struct name |
| MacroParser.ParseStructMeasurement | influxdb3-macro/src/parser.rs:40-62 | the measurement is the last `measurement = "..."`, else the snake-case struct name; the fields are those `parse_fields` gives |
| MacroParser.FoldIsLast | influxdb3-macro/src/parser.rs:44-52 | the overwrite loop yields the last string given for the key |
| MacroParser.ApplyMetasOk | influxdb3-macro/src/parser.rs:100-130 | the attribute items parse iff every key is known and only `rename` carries a value; otherwise the error is the first refused item's: "Unknown influxdb attribute" for an unknown key, syn's "expected `,`" for a flag with a value |
| MacroParser.ApplyMetasValue | influxdb3-macro/src/parser.rs:100-130 | the flags are set by the presence of their keys, `rename` is the last string, and the time count grows by the number of `time` items |
| MacroParser.ApplyMeta | influxdb3-macro/src/parser.rs:100-126 | one item is accepted iff its key is known and only `rename` carries a value; a refused item gives "Unknown influxdb attribute" for an unknown key and "expected `,`" otherwise |
| MacroParser.ApplyMetaValue | influxdb3-macro/src/parser.rs:100-126 | an accepted item sets its own flag, counts a `time` mark, and takes a `rename` string; nothing else changes |
| MacroParser.ParseField | influxdb3-macro/src/parser.rs:80-160 | a field keeps its name and type; it adds its time marks to the count; an ignored field is never a tag; a time field leaves at most one mark; any error is one of the four attribute messages |
| MacroParser.ParseFields | influxdb3-macro/src/parser.rs:71-162 | success gives one description per declared field, in order, with its name and type; any error is one of the four attribute messages |
| MacroParser.ParseFieldSpec | influxdb3-macro/src/parser.rs:80-160 | a field is accepted iff its keys are known and only `rename` carries a value, it is not `ignore` with `tag` or `time`, and it adds no second time mark; it yields its role, rename and flags |
| MacroParser.ParseFieldsSpec | influxdb3-macro/src/parser.rs:71-162 | the fields parse iff every field is accepted in order, and then give one description per declared field |
| MacroParser.AtMostOneTime | influxdb3-macro/src/parser.rs:145-150 | a successful parse has at most one field in the time role |
| MacroParser.FlagWithValueRefused | influxdb3-macro/src/parser.rs:100-129 | `#[influxdb(tag = "yes")]` is refused with "expected `,`" |
| MacroParser.StructLevelItems | influxdb3-macro/src/parser.rs:42-57 | a bare unknown struct-level key is ignored; one with a value is refused with "expected `,`" |
| MacroParser.TagNamedTimeStillCounts | influxdb3-macro/src/parser.rs:95-98 | a field named `time` but marked `tag` still counts as a time mark, so a second time field is refused |
| DeriveToPoint.TagEntry | influxdb3-macro/src/to_point.rs:23 | the key a tag is stored under is the rename, or else the field name |
| DeriveToPoint.ApplyTags | influxdb3-macro/src/to_point.rs:31-35 | the `set_tag` calls add the tag map the tag fields build, and change nothing else |
| DeriveToPoint.ApplyFields | influxdb3-macro/src/to_point.rs:36-40 | the `set_field` calls add the field map the plain fields build, and change nothing else |
| DeriveToPoint.ToPoint | influxdb3-macro/src/to_point.rs:7-65 | the point carries the measurement, the time field's instant (or now), and exactly the tags and fields the non-ignored fields give |
| DeriveToPoint.TagMapLast | influxdb3-macro/src/to_point.rs:31-35 | a tag field whose key no later tag field reuses is stored with its value |
| DeriveToPoint.FieldMapLast | influxdb3-macro/src/to_point.rs:36-40 | a plain field with a valid name that no later field reuses is stored as its encoding |
| DeriveToPoint.TimeOfField | influxdb3-macro/src/to_point.rs:26-30 | with a single non-ignored time field, the point's time is that field's |
| DeriveToPoint.TimeOfNone | influxdb3-macro/src/to_point.rs:44-46 | without a non-ignored time field, the point's time is now |
| DeriveToPoint.IgnoredNotRead | influxdb3-macro/src/to_point.rs:18-20 | changing the values of ignored fields does not change the point |
| DeriveFromPoint.FirstIgnoredWithoutDefault | influxdb3-macro/src/from_point.rs:11-18 | the first ignored field not marked `default`, if any |
| DeriveFromPoint.HasTimeFrom | influxdb3-macro/src/from_point.rs:29-34 | whether some field is in the time role |
| DeriveFromPoint.DeriveFromPoint | influxdb3-macro/src/from_point.rs:7-100 | parse errors pass through; success iff every ignored field is `default` and some field is in the time role; an ignored field without `default` gives that error first; with none, a struct without a time field gives the missing-time error |
| DeriveFromPoint.DerivedHasOneTime | influxdb3-macro/src/from_point.rs:29-34 | an accepted struct has exactly one field in the time role |
| DeriveFromPoint.DefaultOf | influxdb3-macro/src/from_point.rs:39 | the default value has the field's type |
| DeriveFromPoint.ParseTag | influxdb3-macro/src/from_point.rs:44 | `String` takes the text as it is; `bool` accepts exactly `true` and `false`; an integer type accepts exactly the decimal texts (a sign, `-` only for signed types, then digits) whose value fits the type, and yields that value |
| DeriveFromPoint.IntegerTagReadBack | influxdb3-macro/src/from_point.rs:58 | an integer tag holding the decimal text of an in-range value reads back as that value |
| DeriveFromPoint.Extract | influxdb3-macro/src/from_point.rs:29-91 | a time field reads the point's time; an ignored `default` field gets the default; a missing tag or field is the default or the "Missing required" error; a present tag parses or gives the "Failed to parse tag" error; a present field decodes, encoding back to the stored value, or gives the "Failed to convert field" error |
| DeriveFromPoint.FirstFailing | influxdb3-macro/src/from_point.rs:105-108 | the first field in a role whose read fails, if any |
| DeriveFromPoint.FromPoint | influxdb3-macro/src/from_point.rs:102-109 | success iff every field reads, giving one value per field; otherwise the error is that of a failing field all of whose predecessors in the literal's order (time, tags, fields) read |
| DeriveFromPoint.ExtractOfToPoint | influxdb3-macro/src/from_point.rs:29-91 | each field reads back its own value from the point `to_point` made |
| DeriveFromPoint.ToPointThenFromPoint | influxdb3-macro/src/from_point.rs:102-109 | `from_point(to_point(x)) == Ok(x)` given distinct keys per role, valid field names, flat field types, one non-ignored time field and defaults in ignored fields |
| DeriveFromPoint.DefaultedNeverReads | influxdb3-macro/src/from_point.rs:37-40 | an ignored `default` field's result does not depend on the point |
| DeriveFromPoint.IgnoredTimeStillRead | influxdb3-macro/src/from_point.rs:30-34 | a field named `time` marked `ignore, default` is skipped by `to_point`, which stores now, but `from_point` reads the point's time into it |
| DeriveFromPoint.MissingTagReported | influxdb3-macro/src/from_point.rs:53-57 | a tag without `default` that the point lacks fails with "Missing required tag: host", ahead of a plain field declared before it |

## Left out

- Client, builder, query types, the error type's formatting and the crate roots are not part of this model. They are HTTP and Flight I/O and configuration.
- `f32` encode and decode are not modelled; there are no floats beyond an `f64` bit pattern. A float's text comes from a parameter.
- Timestamps are integer nanoseconds. Chrono's out-of-range panics are preconditions: `timestamp_nanos_opt().expect` in `serialize` and `process_timestamp`, and `from_timestamp_*(..).expect` in the decoder (`PointStreams.Extractable`).
- `PointStreams.MinUtcSeconds`, `PointStreams.MaxUtcSeconds`: the range is that of chrono 0.4.35 and later (years -262143 to 262142). The chrono version is not part of this model.
- `set_tag`, `get_tag`, `has_tag` and `remove_tag` panic on an invalid key. In the model, a valid key is a precondition.
- `PointStreams.GetArrowValue`: a UInt64 column is excluded by its precondition. The source downcasts it to `Int64Array`, which panics. The stream's `RowSafe` counts it as a panic.
- `Codec.Mismatch`: the i64 mismatch message names the variant instead of printing the value's `{:?}` text.
- `DeriveFromPoint.ConversionDebug`: does not apply `{:?}` escaping to the message. Only the source's i64 message could contain characters the escape changes.
- `DeriveFromPoint.ParseTag`: `FromStr` for `f64`, `DateTime` and other types is a parameter. Only `String`, `bool` and the integer widths are defined.
- `SnakeCase.ToSnakeCase`: handles ASCII letters only. The source uses Unicode `is_uppercase`/`to_lowercase`.
- Macro input is modelled as already-parsed declarations. Token syntax, `syn` spans, attribute values that fail to parse as literals, parenthesised items such as `tag(x)`, and the expansion's token output are not modelled. syn's "expected `,`" is modelled only for an `= literal` the callback leaves unread.
- The `to_point` derive's only check is `parse_struct`, which is `MacroParser.ParseStruct`.
- `DeriveFromPoint.FromPoint` assumes at most one time-role field. The parser refuses a second one (`MacroParser.AtMostOneTime`).
- The wall clock (`Utc::now()`) is a parameter `now`. A map's iteration order is a parameter too: a sequence that enumerates the map.
- Async polling (`Poll::Pending`, wakers) is not modelled. The Flight source is a sequence of batches or errors.
