# Remote-Write 2.0 codec, symbol table and step protocols in Dafny

This project models the write path of a Prometheus Remote-Write benchmark and
proves what it keeps. Its centre is the generated protobuf codec of the
Remote-Write 2.0 `Request` (eight nested message types), with the hand-optimised
marshaller beside it. Around it stand the symbol table, the conversion of native
histograms, and three pieces of concurrent code: the copy-on-write encoder cache,
the lockstep rounds of the load generator and the sampling counter.

How the parts fit together:

* **Format.** `Words`, `Varints`, `Scalars`, `Skipping` and `Fields` give one field
  on the wire: varints with Go's word widths, ZigZag, fixed64, skipped groups,
  packed lists. `Decoding` and `Pieces` give the decode loop and the marshalled
  message, generic in a schema and an assignment per field. `Messages` instantiates
  both for the eight message types; `WireFormat` spells out the resulting bytes with
  the literal tag bytes of the generated code.
* **What the format means.** `Outcomes` gives every outcome of a tag and a length,
  `Records` the fields of any number and wire type, groups included, written out,
  and `FieldByField` what each case of each decoder does to any message.
* **Laws of the format.** `Suffixes`, `RoundTrip`, `NormalForm`, `Merging`, `Packing`
  and `Interop` hold the theorems about decoding and encoding as functions.
* **The Go code.** `Sizing`, `Writing`, `Marshalling`, `Unmarshalling`, `Optimised`
  and `RequestObject` are the imperative code: accumulating sizes, filling a
  buffer from its end backwards, decode loops with an index and a shift, the
  in-place reversal. Each method is proved equal to the functions above, so every
  law holds of it. `RequestObject.RequestMessage` is the mutable message.
* **Around the codec.** `Symbols`, `Pipeline`, `Conversion` and `Rounding`.
* **Concurrency.** `EncoderCache`, `Lockstep` and `Sampling` are step machines; a
  step is one atomic action of one goroutine, and the theorems speak of every state
  of every run, under every interleaving.

A `float64` is its 64-bit pattern, and a singular double is dropped when it is +0 or
-0. Strings and byte slices are sequences of bytes. Integers are mathematical, with
the truncations and wrap-arounds of `uint32`, `int32`, `uint64`, `int64` and `int`
written out. A decode error is one of the kinds that the Go code distinguishes.

Where the code and what is said about it differ, the code is modelled:

* A comment in the test of `OptimizedMarshal` (`internal/v2_hack/custom_test.go:84`)
  expects the output of the standard marshaller. The code writes exemplars before
  histograms and never writes `Labels`. `Optimised.FastOutputIsMarshal` and
  `Optimised.FastOutputDecodes` give the exact conditions for equal bytes and for
  output that decodes to the same message.
* Concatenating buffers is merging, as the protobuf encoding promises, errors
  included, with one exception: an end that a second buffer declares beyond its own
  can wrap to a negative number behind the first. `Decoding.DecodeConcat` gives the
  exact condition, `Merging.ErrorKindDependsOnPosition` an input.
* The generated pre-count of a packed list is one short when the payload ends inside
  an element, which the decoder accepts (`Fields.PackedCount`,
  `Fields.PackedDoublesCount`, `Packing.OverrunIsAccepted`).
* `deltasToCounts` adds rounded doubles, so large prefix sums can be lost
  (`Conversion.PrefixSumsCanBeLost`, with the exact condition beside it).

`dafny verify dfyconfig.toml` checks the whole project.

## Model

| member | source | states |
|---|---|---|
| Varints.SovIsLength | internal/v2_hack/types.pb.go:1880-1882 | `sovTypes` is, for every value, the number of bytes that the varint encoder writes |
| Varints.Varint64Length | internal/v2_hack/types.pb.go:1591-1601 | every uint64 takes one to ten bytes |
| Varints.VarintForm | internal/v2_hack/types.pb.go:1591-1601 | the bytes written are the groups of seven bits of the value, lowest first, the high bit on all but the last, and no more than needed |
| Varints.VarintOutcome | internal/v2_hack/types.pb.go:1892-1905 | every outcome of reading: continuing bytes and a last one are their groups, minimal or not; ten that continue overflow; fewer at the end of the input are cut short |
| Varints.VarintRoundTrip | internal/v2_hack/types.pb.go:1591-1601 | between any bytes before and after, the decoder recovers every uint64 and stops exactly behind its bytes |
| Varints.VarintTransport | internal/v2_hack/types.pb.go:1892-1905 | a varint is read the same wherever its bytes stand |
| Varints.OrIsAddition | internal/v2_hack/types.pb.go:1902 | the bits or-ed in by one turn lie above all bits read so far, so or-assignment adds them without carry, in a 64-bit and in a 32-bit variable |
| Varints.ReadVarint | internal/v2_hack/types.pb.go:1892-1905 | the loop over `iNdEx` and `shift` yields the varint cut to the width of its variable, or the overflow or end-of-input error |
| Varints.EncodeVarint | internal/v2_hack/types.pb.go:1591-1601 | writes exactly the varint's bytes so that they end at offset, returns their start, and leaves every other byte alone |
| Scalars.ZigZagInverts | internal/v2_hack/types.pb.go:1394 | 64-bit ZigZag is inverted by its decoder, and maps x to 2x or -2x-1 |
| Scalars.UnZigZagInverts | internal/v2_hack/types.pb.go:2964 | the 64-bit ZigZag decoder is undone by the encoder, so both are bijections |
| Scalars.ZigZag32Inverts | internal/v2_hack/types.pb.go:1482 | 32-bit ZigZag is inverted by its decoder, and maps x to 2x or -2x-1 |
| Scalars.UnZigZag32Inverts | internal/v2_hack/types.pb.go:2869 | the 32-bit ZigZag decoder is undone by the encoder |
| Scalars.SozIsLength | internal/v2_hack/types.pb.go:1883-1885 | `sozTypes` of a sign-extended value is the length of its 32-bit ZigZag varint, and of the 64-bit one |
| Scalars.NegativeEnum | internal/v2_hack/types.pb.go:2704-2718 | a negative enum is written sign-extended in ten bytes, and its low 32 bits are the same enum |
| Scalars.Fixed64RoundTrip | internal/v2_hack/types.pb.go:1283-1288 | eight little-endian bytes between any others read back as the same bit pattern |
| Scalars.Fixed64Bytes | internal/v2_hack/types.pb.go:1284-1285 | the eight bytes of a double are those of its pattern, least significant first |
| Skipping.DepthCountIsNesting | internal/v2_hack/types.pb.go:3507-3522 | counting depth ends at the same index, or with the same error, as recursive descent into nested groups |
| Skipping.SkippedFieldIsBalanced | internal/v2_hack/types.pb.go:3450-3527 | the skip loop ends, or fails, as recursive descent over one scalar field or one group with all groups inside it closed |
| Skipping.SkipTransport | internal/v2_hack/types.pb.go:3450-3527 | what is skipped does not depend on where the bytes stand |
| Skipping.Skip | internal/v2_hack/types.pb.go:3450-3527 | the loop of `skipTypes` computes that end or that error, and moves forward when it succeeds |
| Fields.FieldAt | internal/v2_hack/types.pb.go:1889-1995 | one turn of a decode loop strictly advances the index and stays inside the input, on every byte string |
| Fields.FieldTransport | internal/v2_hack/types.pb.go:1889-1995 | a field reads the same wherever its bytes stand |
| Fields.FieldRoundTrip | internal/v2_hack/types.pb.go:1889-1995 | a field of any layout, written by a marshaller, is read back whole, and reading stops at its last byte |
| Fields.FieldReadable | internal/v2_hack/types.pb.go:1981-1995 | an unknown field is kept with exactly its bytes, which stand alone as one unknown field |
| Fields.PackedCount | internal/v2_hack/types.pb.go:2076-2104 | a packed list has the pre-counted number of elements and ends with its payload; it has one more, read past the payload, exactly when the last byte of the payload is 128 or more |
| Fields.PackedDoublesCount | internal/v2_hack/types.pb.go:3061-3076 | a packed list of doubles has an element for every eight bytes begun, one more than the pre-count exactly when the length is no multiple of eight |
| Suffixes.FieldSuffix | internal/v2_hack/types.pb.go:1889-1995 | one turn of a decode loop at an index of b, and at the same place in a ++ b: the same outcome, unless the end that the field declares is an int in b and wraps in a ++ b; then the errors are end of input and negative length |
| Outcomes.TagOutcome | internal/v2_hack/types.pb.go:1906-1913 | for any uint64 tag: end-group first, then the number cut to an int32 must be positive |
| Outcomes.WrongWireTypeOutcome | internal/v2_hack/types.pb.go:1914-1917 | a known field of a wire type that it does not take is an error whatever follows, and an unknown one of wire type 6 or 7 |
| Outcomes.LengthOutcome | internal/v2_hack/types.pb.go:1934-1945 | for any length prefix: negative, ending past the largest int, ending past the input, or followed by its payload |
| Outcomes.DoubleOutcome | internal/v2_hack/types.pb.go:2840-2849 | a double is eight bytes, or cut short |
| Outcomes.UnknownLengthOutcome | internal/v2_hack/types.pb.go:3487-3506 | an unknown length-delimited field is kept with its payload, or fails by its length as a known one does |
| Outcomes.UnknownFixedOutcome | internal/v2_hack/types.pb.go:3485-3515 | an unknown field of eight or four bytes is kept whole, or cut short |
| Outcomes.StrayEndGroup | internal/v2_hack/types.pb.go:3509-3513 | skipping an end-group tag outside any group fails as such |
| Records.SkipRecord | internal/v2_hack/types.pb.go:3450-3527 | a varint, eight-byte, length-delimited or four-byte field, or a group of such fields and groups, of any number and between any bytes, is skipped exactly to its end |
| Records.OpenGroupIsCutShort | internal/v2_hack/types.pb.go:3507-3527 | a group that is never closed is cut short |
| Records.ForeignField | internal/v2_hack/types.pb.go:1981-1995 | such a field of a number that the message does not know is read as one unknown field, whatever follows |
| Records.ForeignRecordsAreUnknownBytes | internal/v2_hack/types.pb.go:1981-1995 | any list of such fields is well-formed unknown bytes |
| Records.ForeignRecordsAreKept | internal/v2_hack/types.pb.go:1981-1995 | decoding any list of such fields keeps exactly their bytes and changes nothing else |
| Decoding.DecodeConcat | internal/v2_hack/types.pb.go:1886-2002 | for every message type: if a decodes, the outcome of a ++ b, value or error, is that of decoding b into the result of a, if and only if b does not stop at an end that wraps behind a; if it does, both errors are named |
| Decoding.DecodeSuffix | internal/v2_hack/types.pb.go:1889-1995 | decoding from an index of b and from the same place in a ++ b have equal outcomes, or the two named errors, under that same condition |
| Decoding.DecodeEncoded | internal/v2_hack/types.pb.go:1886-2002 | for every message type: decoding written fields followed by unknown bytes assigns the fields in order and keeps the unknown bytes |
| Decoding.DecodeInvariant | internal/v2_hack/types.pb.go:1886-2002 | what every assignment of a decode loop keeps holds of every message that decodes |
| Decoding.LongestPrefix | internal/v2_hack/types.pb.go:1886-2002 | the index where a decode loop stops ends the longest prefix of the input that decodes, and the message there is its value |
| FieldByField.LabelStrings | internal/v2_hack/types.pb.go:2318-2432 | Label: the bytes of one of its strings set or append that field and nothing else |
| FieldByField.LabelRejects | internal/v2_hack/types.pb.go:2318-2432 | Label: its fields with a wire type not listed for them are an error |
| FieldByField.LabelKeepsOthers | internal/v2_hack/types.pb.go:2318-2432 | Label: fields of any other number, groups included, are kept in the unknown bytes and nothing else changes |
| FieldByField.SampleInts | internal/v2_hack/types.pb.go:2590-2670 | Sample: the bytes of one of its integers, decoded onto any message, assign that field and nothing else |
| FieldByField.SampleDoubles | internal/v2_hack/types.pb.go:2590-2670 | Sample: the bytes of one of its doubles assign that field and nothing else |
| FieldByField.SampleRejects | internal/v2_hack/types.pb.go:2590-2670 | Sample: its fields with a wire type not listed for them are an error |
| FieldByField.SampleKeepsOthers | internal/v2_hack/types.pb.go:2590-2670 | Sample: fields of any other number, groups included, are kept in the unknown bytes and nothing else changes |
| FieldByField.SpanInts | internal/v2_hack/types.pb.go:3359-3449 | BucketSpan: the bytes of one of its integers, decoded onto any message, assign that field and nothing else |
| FieldByField.SpanRejects | internal/v2_hack/types.pb.go:3359-3449 | BucketSpan: its fields with a wire type not listed for them are an error |
| FieldByField.SpanKeepsOthers | internal/v2_hack/types.pb.go:3359-3449 | BucketSpan: fields of any other number, groups included, are kept in the unknown bytes and nothing else changes |
| FieldByField.MetadataInts | internal/v2_hack/types.pb.go:2671-2778 | Metadata: the bytes of one of its integers, decoded onto any message, assign that field and nothing else |
| FieldByField.MetadataRejects | internal/v2_hack/types.pb.go:2671-2778 | Metadata: its fields with a wire type not listed for them are an error |
| FieldByField.MetadataKeepsOthers | internal/v2_hack/types.pb.go:2671-2778 | Metadata: fields of any other number, groups included, are kept in the unknown bytes and nothing else changes |
| FieldByField.ExemplarInts | internal/v2_hack/types.pb.go:2433-2589 | Exemplar: the bytes of one of its integers, decoded onto any message, assign that field and nothing else |
| FieldByField.ExemplarDoubles | internal/v2_hack/types.pb.go:2433-2589 | Exemplar: the bytes of one of its doubles assign that field and nothing else |
| FieldByField.ExemplarPackedInts | internal/v2_hack/types.pb.go:2433-2589 | Exemplar: a packed list of integers is appended to its field and nothing else changes |
| FieldByField.ExemplarRejects | internal/v2_hack/types.pb.go:2433-2589 | Exemplar: its fields with a wire type not listed for them are an error |
| FieldByField.ExemplarKeepsOthers | internal/v2_hack/types.pb.go:2433-2589 | Exemplar: fields of any other number, groups included, are kept in the unknown bytes and nothing else changes |
| FieldByField.HistogramInts | internal/v2_hack/types.pb.go:2779-3358 | Histogram: the bytes of one of its integers, decoded onto any message, assign that field and nothing else |
| FieldByField.HistogramDoubles | internal/v2_hack/types.pb.go:2779-3358 | Histogram: the bytes of one of its doubles assign that field and nothing else |
| FieldByField.HistogramMessages | internal/v2_hack/types.pb.go:2779-3358 | Histogram: the bytes of one of its embedded messages append or merge it, and nothing else, or fail as it does |
| FieldByField.HistogramPackedInts | internal/v2_hack/types.pb.go:2779-3358 | Histogram: a packed list of integers is appended to its field and nothing else changes |
| FieldByField.HistogramPackedDoubles | internal/v2_hack/types.pb.go:2779-3358 | Histogram: a packed list of doubles is appended to its field and nothing else changes |
| FieldByField.HistogramRejects | internal/v2_hack/types.pb.go:2779-3358 | Histogram: its fields with a wire type not listed for them are an error |
| FieldByField.HistogramKeepsOthers | internal/v2_hack/types.pb.go:2779-3358 | Histogram: fields of any other number, groups included, are kept in the unknown bytes and nothing else changes |
| FieldByField.TimeSeriesInts | internal/v2_hack/types.pb.go:2003-2317 | TimeSeries: the bytes of one of its integers, decoded onto any message, assign that field and nothing else |
| FieldByField.TimeSeriesMessages | internal/v2_hack/types.pb.go:2003-2317 | TimeSeries: the bytes of one of its embedded messages append or merge it, and nothing else, or fail as it does |
| FieldByField.TimeSeriesPackedInts | internal/v2_hack/types.pb.go:2003-2317 | TimeSeries: a packed list of integers is appended to its field and nothing else changes |
| FieldByField.TimeSeriesRejects | internal/v2_hack/types.pb.go:2003-2317 | TimeSeries: its fields with a wire type not listed for them are an error |
| FieldByField.TimeSeriesKeepsOthers | internal/v2_hack/types.pb.go:2003-2317 | TimeSeries: fields of any other number, groups included, are kept in the unknown bytes and nothing else changes |
| FieldByField.RequestStrings | internal/v2_hack/types.pb.go:1886-2002 | Request: the bytes of one of its strings set or append that field and nothing else |
| FieldByField.RequestMessages | internal/v2_hack/types.pb.go:1886-2002 | Request: the bytes of one of its embedded messages append or merge it, and nothing else, or fail as it does |
| FieldByField.RequestRejects | internal/v2_hack/types.pb.go:1886-2002 | Request: its fields with a wire type not listed for them are an error |
| FieldByField.RequestKeepsOthers | internal/v2_hack/types.pb.go:1886-2002 | Request: fields of any other number, groups included, are kept in the unknown bytes and nothing else changes |
| WireFormat.LabelWire | internal/v2_hack/types.pb.go:1172-1196 | the bytes of a Label, with literal tags |
| WireFormat.SampleWire | internal/v2_hack/types.pb.go:1269-1290 | the bytes of a Sample, with literal tags; only the patterns 0 and 0x8000000000000000 of a double are left out |
| WireFormat.SpanWire | internal/v2_hack/types.pb.go:1569-1589 | the bytes of a BucketSpan, with literal tags |
| WireFormat.MetadataWire | internal/v2_hack/types.pb.go:1307-1332 | the bytes of a Metadata, with literal tags |
| WireFormat.ExemplarWire | internal/v2_hack/types.pb.go:1213-1252 | the bytes of an Exemplar, with literal tags |
| WireFormat.HistogramWire | internal/v2_hack/types.pb.go:1349-1552 | the bytes of a Histogram: fourteen fields in order, the oneofs by their own tags, the two-byte tag of field 16 |
| WireFormat.TimeSeriesWire | internal/v2_hack/types.pb.go:1056-1155 | the bytes of a TimeSeries; the Metadata field is written even when empty |
| WireFormat.RequestWire | internal/v2_hack/types.pb.go:1006-1039 | the bytes of a Request: symbols, series, unknown bytes |
| RoundTrip.SpanRoundTrip | internal/v2_hack/types.pb.go:3359-3449 | a BucketSpan survives encoding and decoding |
| RoundTrip.MetadataRoundTrip | internal/v2_hack/types.pb.go:2671-2778 | a Metadata survives, negative enum included |
| RoundTrip.ExemplarRoundTrip | internal/v2_hack/types.pb.go:2433-2589 | an Exemplar survives up to the sign of a zero value |
| RoundTrip.HistogramRoundTrip | internal/v2_hack/types.pb.go:2779-3358 | a Histogram survives, both oneofs included, up to the sign of a zero sum or threshold |
| RoundTrip.TimeSeriesRoundTrip | internal/v2_hack/types.pb.go:2003-2317 | a TimeSeries survives, labels and unknown bytes at every level included, up to the sign of singular zeros |
| RoundTrip.RequestRoundTrip | internal/v2_hack/types.pb.go:1886-2002 | every Request tree with well-formed unknown bytes survives, up to the sign of singular zeros |
| NormalForm.RoundTripDomain | internal/v2_hack/types.pb.go:1886-2002 | a Request survives the round trip if and only if its unknown bytes, at every level, are whole fields unknown to their message |
| NormalForm.RequestSettles | internal/v2_hack/types.pb.go:1981-1995 | whatever is decoded has well-formed unknown bytes at every level, if the message had them before |
| NormalForm.EncodeIgnoresZeroSign | internal/v2_hack/types.pb.go:1282-1287 | replacing -0.0 by +0 in singular doubles does not change the bytes |
| NormalForm.DecodeEncodeDecode | internal/v2_hack/types.pb.go:1886-2002 | for every accepted input, decode-encode-decode is decode up to -0.0, and the encoded bytes are a fixed point |
| Merging.ConcatIsAppend | internal/v2_hack/types.pb.go:1981-1996 | if a decodes, the outcome of a ++ b is that of b appended to the message of a, errors included, if and only if b alone does not stop at an end that wraps behind a |
| Merging.SeriesConcatIsMerge | internal/v2_hack/types.pb.go:2003-2317 | for a TimeSeries, under the same exact condition: lists and unknown bytes appended, the created timestamp last-wins, the embedded Metadata merged field by field, errors equal |
| Merging.HistogramConcatIsMerge | internal/v2_hack/types.pb.go:2779-3358 | for a Histogram, under the same exact condition: lists appended, scalars last-wins, and each oneof last-wins across its two members |
| Merging.MetadataOnto | internal/v2_hack/types.pb.go:2671-2778 | decoding onto a Metadata takes exactly the fields that the bytes carry, even when zero |
| Merging.MetadataConcatIsMerge | internal/v2_hack/types.pb.go:2671-2778 | for a Metadata, under the same exact condition: every field last-wins, unknown bytes appended |
| Merging.LabelOnto | internal/v2_hack/types.pb.go:2318-2432 | decoding onto a Label takes exactly the carried ones of both strings from the bytes, keeps the others, and appends the lists |
| Merging.LabelConcatIsMerge | internal/v2_hack/types.pb.go:2318-2432 | for a Label, under the same exact condition: carried fields last-wins, lists and unknown bytes appended |
| Merging.SampleOnto | internal/v2_hack/types.pb.go:2590-2670 | decoding onto a Sample takes exactly the carried ones of value and timestamp from the bytes, keeps the others, and appends the lists |
| Merging.SampleConcatIsMerge | internal/v2_hack/types.pb.go:2590-2670 | for a Sample, under the same exact condition: carried fields last-wins, lists and unknown bytes appended |
| Merging.SpanOnto | internal/v2_hack/types.pb.go:3359-3449 | decoding onto a BucketSpan takes exactly the carried ones of offset and length from the bytes, keeps the others, and appends the lists |
| Merging.SpanConcatIsMerge | internal/v2_hack/types.pb.go:3359-3449 | for a BucketSpan, under the same exact condition: carried fields last-wins, lists and unknown bytes appended |
| Merging.ExemplarOnto | internal/v2_hack/types.pb.go:2433-2589 | decoding onto a Exemplar takes exactly the carried ones of value and timestamp from the bytes, keeps the others, and appends the lists |
| Merging.ExemplarConcatIsMerge | internal/v2_hack/types.pb.go:2433-2589 | for a Exemplar, under the same exact condition: carried fields last-wins, lists and unknown bytes appended |
| Merging.ErrorKindDependsOnPosition | internal/v2_hack/types.pb.go:1934-1944 | an input that meets the condition: the second part alone is cut short, behind two more bytes its length is negative |
| Packing.SeriesRefsAnyPacking | internal/v2_hack/types.pb.go:2031-2107 | any split of the references into packed runs and single elements appends the same list |
| Packing.ExemplarRefsAnyPacking | internal/v2_hack/types.pb.go:2461-2537 | the same for the references of an exemplar |
| Packing.DeltasAnyPacking | internal/v2_hack/types.pb.go:2947-3024 | the same for the ZigZag deltas of a histogram, positive and negative |
| Packing.CountsAnyPacking | internal/v2_hack/types.pb.go:3025-3078 | the same for the repeated doubles of a histogram |
| Packing.OverrunIsAccepted | internal/v2_hack/types.pb.go:2076-2104 | a series of four bytes whose packed references end inside a varint is accepted, with a reference that was not pre-counted |
| Interop.ReservedFieldsInterop | internal/v2_hack/types.proto:34-39 | an accepted input gives no symbols and no series if and only if it has no top-level field 4 or 5; it is then kept whole and marshalled back byte for byte |
| Interop.WrittenWithoutV2Fields | internal/v2_hack/types_test.go:64-97 | a request written with any fields but 4 and 5, of any wire type and with groups, is accepted, kept whole and marshalled back byte for byte |
| Interop.WrittenInterop | internal/v2_hack/types.proto:34-39 | any written request that is accepted gives no symbols and no series if and only if none of its fields is numbered 4 or 5 |
| Interop.TopLevelOfRecords | internal/v2_hack/types.proto:34-39 | the top-level numbers read from a written request are those of its fields |
| Sizing.SizeLabel | internal/v2_hack/types.pb.go:1674-1692 | `Size` of a Label is the length of its encoding |
| Sizing.SizeSample | internal/v2_hack/types.pb.go:1719-1735 | `Size` of a Sample is the length of its encoding |
| Sizing.SizeSpan | internal/v2_hack/types.pb.go:1862-1878 | `Size` of a BucketSpan is the length of its encoding |
| Sizing.SizeMetadata | internal/v2_hack/types.pb.go:1737-1756 | `Size` of a Metadata is the length of its encoding |
| Sizing.SizeExemplar | internal/v2_hack/types.pb.go:1694-1717 | `Size` of an Exemplar is the length of its encoding |
| Sizing.SizeHistogram | internal/v2_hack/types.pb.go:1758-1861 | `Size` of a Histogram is the length of its encoding, oneofs and packed lists included |
| Sizing.SizeTimeSeries | internal/v2_hack/types.pb.go:1626-1672 | `Size` of a TimeSeries is the length of its encoding, labels included |
| Sizing.SizeRequest | internal/v2_hack/types.pb.go:1602-1624 | `Size` of a Request is the length of its encoding, at every nesting level |
| Writing.PackVarint | internal/v2_hack/types.pb.go:1139-1147 | appends one varint to the temporary buffer of a packed list |
| Writing.PutCount | internal/v2_hack/types.pb.go:1504-1552 | a oneof member is written in front of what is there, and nothing below it changes |
| Marshalling.MarshalLabel | internal/v2_hack/types.pb.go:1172-1196 | fills exactly the last `Size` bytes of the slice with the encoding, the rest unchanged |
| Marshalling.MarshalSample | internal/v2_hack/types.pb.go:1269-1290 | the same for a Sample |
| Marshalling.MarshalSpan | internal/v2_hack/types.pb.go:1569-1589 | the same for a BucketSpan |
| Marshalling.MarshalMetadata | internal/v2_hack/types.pb.go:1307-1332 | the same for a Metadata |
| Marshalling.MarshalExemplar | internal/v2_hack/types.pb.go:1213-1252 | the same for an Exemplar |
| Marshalling.MarshalHistogram | internal/v2_hack/types.pb.go:1349-1502 | the same for a Histogram |
| Marshalling.MarshalTimeSeries | internal/v2_hack/types.pb.go:1056-1155 | the same for a TimeSeries, each embedded message written below the previous ones |
| Marshalling.MarshalRequest | internal/v2_hack/types.pb.go:1006-1039 | the same for a Request, in any buffer of at least `Size` bytes |
| Marshalling.Marshal | internal/v2_hack/types.pb.go:991-999 | a new buffer that holds exactly the encoding |
| Unmarshalling.ReadNarrow | internal/v2_hack/types.pb.go:2033-2048 | or-ing into a 32-bit variable gives the low 32 bits of the 64-bit varint |
| Unmarshalling.ReadPackedRefs | internal/v2_hack/types.pb.go:2050-2104 | the packed loop of uint32 references gives the list that the format defines, one longer than its pre-count and past the payload exactly when the payload ends inside a varint |
| Unmarshalling.ReadPackedDeltas | internal/v2_hack/types.pb.go:3132-3187 | the same loop with each element unzigzagged, with its pre-count |
| Unmarshalling.ReadPackedDoubles | internal/v2_hack/types.pb.go:3036-3076 | the packed loop of doubles, with the pre-count by eight bytes |
| Unmarshalling.ReadUnknown | internal/v2_hack/types.pb.go:1981-1995 | the bytes kept for an unknown field are exactly one scalar field or one balanced group; it fails with the error of the skip, with negative length if the end wraps, or with end of input if it lies outside |
| Unmarshalling.UnmarshalLabel | internal/v2_hack/types.pb.go:2318-2432 | on every input, decodes onto the given Label as the format defines, or fails with the same error |
| Unmarshalling.UnmarshalSample | internal/v2_hack/types.pb.go:2590-2670 | the same for a Sample |
| Unmarshalling.UnmarshalSpan | internal/v2_hack/types.pb.go:3359-3449 | the same for a BucketSpan |
| Unmarshalling.UnmarshalMetadata | internal/v2_hack/types.pb.go:2671-2778 | the same for a Metadata |
| Unmarshalling.UnmarshalExemplar | internal/v2_hack/types.pb.go:2433-2589 | the same for an Exemplar |
| Unmarshalling.UnmarshalHistogram | internal/v2_hack/types.pb.go:2779-3358 | the same for a Histogram, all sixteen cases of its switch |
| Unmarshalling.UnmarshalTimeSeries | internal/v2_hack/types.pb.go:2003-2317 | the same for a TimeSeries, whose Metadata is decoded onto the present one |
| RequestObject.RequestMessage.Unmarshal | internal/v2_hack/types.pb.go:1886-2002 | the object's loop brings it to the decoded message, starting from what it holds; after an error it holds the symbols, series and unknown bytes of the longest prefix that decodes, and one more series exactly when the contents of a whole field are in error |
| RequestObject.RequestMessage.Marshal | internal/v2_hack/types.pb.go:991-999 | the object's encoding, in a buffer of its own |
| RequestObject.Transfer | internal/v2_hack/types.pb.go:1886-2002 | marshalling one object and unmarshalling into a second gives it the contents of the first, up to singular -0.0 |
| Optimised.FastSize | internal/v2_hack/custom.go:23-28 | the optimised bytes are never more than `Size`, and exactly `Size` if and only if no series has Labels |
| Optimised.FastSeriesRoundTrip | internal/v2_hack/custom.go:74-165 | without Labels the optimised bytes of a series decode to the same series |
| Optimised.FastTimeSeriesWire | internal/v2_hack/custom.go:74-165 | the bytes of a series, with literal tags: exemplars before histograms, no labels |
| Optimised.FastRequestWire | internal/v2_hack/custom.go:37-70 | the bytes of a request, with literal tags |
| Optimised.FastRoundTrip | internal/v2_hack/custom.go:37-70 | without Labels the optimised bytes decode to the same Request as the generated ones |
| Optimised.SeriesBytesEqual | internal/v2_hack/custom.go:98-125 | without Labels the bytes of a series are the generated ones if and only if it lacks exemplars or histograms |
| Optimised.FastBytesEqual | internal/v2_hack/custom.go:98-125 | without Labels the bytes of a Request are the generated ones if and only if no series has both exemplars and histograms |
| Optimised.FastOutputDecodes | internal/v2_hack/custom.go:23-33 | in a buffer of its own, the output decodes to the message if and only if no series has Labels; otherwise it is rejected with an illegal tag |
| Optimised.FastOutputDecodesForAll | internal/v2_hack/custom.go:23-33 | the output decodes to the message whatever buffer is reused if and only if no series has Labels |
| Optimised.FastOutputIsMarshal | internal/v2_hack/custom_test.go:84-89 | in any buffer, the output is the generated one if and only if no series has Labels, nor both exemplars and histograms |
| Optimised.ReverseRange | internal/v2_hack/custom.go:157 | reverses the range and leaves the rest of the buffer alone |
| Optimised.PutRefsInPlace | internal/v2_hack/custom.go:141-163 | writing the varints downwards and reversing gives the bytes of the version with a temporary buffer, of the same length |
| Optimised.FastMarshalTimeSeries | internal/v2_hack/custom.go:74-165 | fills exactly the end of the slice with the optimised encoding of a series |
| Optimised.FastMarshalRequest | internal/v2_hack/custom.go:37-70 | fills exactly the end of the slice with the optimised encoding of a Request |
| Optimised.OptimizedMarshal | internal/v2_hack/custom.go:23-33 | reuses the given buffer if it holds `Size` bytes and returns its first n bytes as they then are |
| RequestObject.RequestMessage.OptimizedMarshal | internal/v2_hack/custom.go:23-33 | the same on the object, without a buffer to reuse |
| Symbols.SymbolsTable.constructor | internal/v2_hack/symbols.go:25-31 | a new table holds the empty string in slot 0 and nothing else |
| Symbols.SymbolsTable.Symbolize | internal/v2_hack/symbols.go:35-43 | keeps list and map inverse, appends a new string only, and returns the slot cut to 32 bits, which names the string if and only if the slot fits |
| Symbols.SymbolsTable.SymbolizeLabels | internal/v2_hack/symbols.go:46-55 | the references of the whole label set against the table after it, name and value alternating |
| Symbols.SymbolsTable.Reset | internal/v2_hack/symbols.go:64-73 | brings any table to the state of a new one |
| Symbols.RunKeepsTable | internal/v2_hack/symbols.go:35-73 | after any sequence of calls slot 0 is empty and no string occurs twice |
| Symbols.IssuedRefsStayValid | internal/v2_hack/symbols.go:35-43 | without a reset in between the table only grows, and every slot issued earlier still holds its string |
| Symbols.RefsStable | internal/v2_hack/symbols.go:46-55 | the references of a label set are the same against every later table |
| Symbols.InternedInOrder | internal/v2_hack/symbols.go:46-55 | a label set is interned label by label, name before value, each string where it comes first |
| Symbols.SlotsInOrder | internal/v2_hack/symbols.go:46-55 | the references alternate: the name of the k-th label, then its value |
| Symbols.LookupInverts | internal/v2_hack/symbols.go:76-83 | looking references up gives the label set back if and only if all its strings have slots below 2^32 |
| Symbols.LookupMeans | internal/v2_hack/symbols.go:76-80 | a lookup succeeds if and only if the number of references is even and all are in range, and pairs them up in order |
| Symbols.LessMeans | internal/v2_hack/symbols.go:81 | the order of names: the smaller byte where they first differ, or a proper prefix |
| Symbols.SortingSortedIsIdentity | internal/v2_hack/symbols.go:81 | any permutation in name order of a name-sorted label set without duplicate names is that set |
| Symbols.Desymbolize | internal/v2_hack/symbols.go:76-83 | the loop computes the lookup, and fails exactly where a reference is out of range or missing |
| Pipeline.LabelIdentity | internal/v2_hack/symbols.go:35-83 | label sets symbolised into one table and sent through either marshaller come back from the decoded request, if and only if their strings have slots below 2^32 |
| Conversion.SpansProtoToSpans | internal/v2_hack/codec.go:143-150 | element by element conversion of spans |
| Conversion.SpansToSpansProto | internal/v2_hack/codec.go:198-205 | element by element conversion of spans, without unknown bytes |
| Conversion.IntHistogramSurvives | internal/v2_hack/codec.go:89-178 | from an integer histogram to the message and back nothing changes |
| Conversion.FloatHistogramSurvives | internal/v2_hack/codec.go:111-196 | from a float histogram to the message and back nothing changes, and it does not read as an integer one |
| Conversion.WireIntSurvives | internal/v2_hack/codec.go:89-178 | from a message to an integer histogram and back nothing is lost if and only if it holds an integer histogram and nothing else |
| Conversion.IntHistogramWire | internal/v2_hack/codec.go:162-178 | the wire bytes of an integer histogram, field by field with literal tags: negative spans and deltas in 8 and 9, positive ones in 11 and 12, both counts written even when zero |
| Conversion.FloatHistogramWire | internal/v2_hack/codec.go:180-196 | the wire bytes of a float histogram, field by field with literal tags, its buckets in 10 and 13 |
| Conversion.IntHistogramCrosses | internal/v2_hack/codec.go:162-178 | an integer histogram crosses the wire as one, even with all counts zero |
| Conversion.FloatHistogramCrosses | internal/v2_hack/codec.go:180-196 | a float histogram crosses the wire as one, even with all counts zero |
| Conversion.DeltasToCounts | internal/v2_hack/codec.go:152-160 | the loop computes the rounded running sums |
| Conversion.ConvertedView | internal/v2_hack/codec.go:127-140 | the float view of any message without a float count is its integer view with rounded counts and summed deltas, positive to positive and negative to negative, and all other fields equal |
| Conversion.ViewOfIntHistogram | internal/v2_hack/codec.go:127-140 | the float view of a message made from an integer histogram, field by field |
| Conversion.CountsArePrefixSums | internal/v2_hack/codec.go:152-160 | for representable deltas the float buckets are the exact prefix sums if and only if all prefix sums are representable; for other deltas, only if |
| Conversion.CountsArePrefixSumsExactly | internal/v2_hack/codec.go:152-160 | for any deltas: exact if and only if each rounded step from a prefix sum lands on the next one |
| Conversion.DifferencesAreDeltas | internal/v2_hack/codec.go:152-160 | neighbouring exact counts differ by the deltas |
| Conversion.SmallCountsAreExact | internal/v2_hack/codec.go:128-140 | with counts, deltas and prefix sums of magnitude at most 2^53 the float view is exact |
| Conversion.PrefixSumsCanBeLost | internal/v2_hack/codec.go:152-160 | two deltas whose second count is lost to rounding |
| Rounding.RoundsToNearestEven | internal/v2_hack/codec.go:156 | a converted integer is the nearest one with at most 53 significant bits, and of two equally near the even one |
| Rounding.ExactIsRepresentable | internal/v2_hack/codec.go:156 | rounding leaves a number alone if and only if it has at most 53 significant bits |
| Rounding.RoundingSettles | internal/v2_hack/codec.go:156 | rounding to a double is idempotent |
| EncoderCache.StepKeepsInv | internal/zstd/zstd_pure.go:46-69 | every step of every goroutine keeps the invariant, and writes to no map that has been stored |
| EncoderCache.StoredMapsFrozen | internal/zstd/zstd_pure.go:58-63 | a stored map is the same in every later state |
| EncoderCache.CacheSafety | internal/zstd/zstd_pure.go:46-69 | in every reachable state: at most one encoder per level, one result per level for all calls, and each stored map extends all earlier ones |
| EncoderCache.SameEncoderForever | internal/zstd/zstd_pure.go:46-69 | a later call returns the encoder that an earlier one returned, whichever goroutines made them |
| EncoderCache.KnownLevelNeedsNoLock | internal/zstd/zstd_pure.go:46-51 | once a call for a level has returned, a call that loads the map later returns the same encoder without the mutex, whatever happens in between |
| EncoderCache.CallCanReturn | internal/zstd/zstd_pure.go:46-69 | from every reachable state every call that has begun can be brought to its return: nothing deadlocks |
| EncoderCache.CallCanBeMade | internal/zstd/zstd_pure.go:46-69 | from every reachable state any goroutine outside can make a call for any level and have its result |
| Lockstep.StepKeepsInv | cmd/client/main.go:229-282 | every step keeps each counter equal to the sum of the workers' shares, and each share tied to the worker's rounds |
| Lockstep.StepKeepsLedger | cmd/client/main.go:264-273 | every step keeps sent equal to the returns of the request, and failed plus the errors about to be counted equal to the returns with an error |
| Lockstep.CountersAreReturns | cmd/client/main.go:229-237 | in every reachable state sent counts every return of a target, and failed every return with an error but those about to be counted; between rounds exactly |
| Lockstep.RoundCanFinish | cmd/client/main.go:260-277 | from every state in a round, steps of that worker alone finish the round |
| Lockstep.WaitingCanGoOn | cmd/client/main.go:254-260 | a waiting worker can leave, or run a whole round and wait again |
| Lockstep.LockstepSafety | cmd/client/main.go:251-282 | in every reachable state: counters of any two constructible targets differ by at most the workers in a round; failed is at most sent; a worker between rounds has sent each such target once per round |
| Lockstep.LogStatus | cmd/client/main.go:194-219 | the totals are the sums of the loads, each host gets the sum over its targets, and each host is listed once |
| Lockstep.HostsAddUp | cmd/client/main.go:212-217 | in any order of the lines, the hosts add up to the grand total |
| Sampling.SampleEvery | internal/receiver/sample_log.go:22-28 | one call: nothing once the counter is past 1000000, else the next number, sampled exactly for 1, 10001, 20001 and so on |
| Sampling.RunSequentially | internal/receiver/sample_log.go:22-28 | sequential calls: exactly 101 are sampled once there have been more than a million |
| Sampling.UninterruptedCall | internal/receiver/sample_log.go:22-28 | the interleaved steps of one caller without another in between are that call |
| Sampling.CallersMove | internal/receiver/sample_log.go:22-28 | every caller always has its next step |
| Sampling.StepKeepsInv | internal/receiver/sample_log.go:22-28 | every load or add of every caller keeps the counter within the limit plus the callers past the check |
| Sampling.SamplingBound | internal/receiver/sample_log.go:16-28 | with T callers: returned numbers are distinct, the counter is at most 1000000 + T, and at most 101 calls are sampled while T is at most 10000 |

## Left out

- RequestObject.RequestMessage.Unmarshal: after an error in a series the Go code leaves the series decoded so far as the last one; its contents are not modelled, nor are those of the other message structs after an error.
- Lengths of 2^63 bytes and more: `int` has 64 bits in the model, and the laws about whole buffers assume encodings shorter than that. Index sums that wrap negative are modelled; an index within eight bytes of 2^63 in a slice of that size is not.
- Bit operations: `|=`, `^`, `<<` and `>>` are written as arithmetic on bounded integers (`Varints.OrIsAddition` proves that the or of the decode loop never carries; the exclusive or of ZigZag is with a word of all zeros or all ones).
- Message structs other than `Request` are values: the decoders return the updated struct instead of writing through a pointer, so aliasing between them is not modelled.
- nil and empty slices are one value; slice capacities, the pre-allocation before a packed list and the reuse of the label buffer are not modelled, and a slice returned by `Symbols` is a copy, so its overwriting after `Reset` is not seen.
- The generated blocks for a varint, a length, a tag, a packed list of one element type or an unknown field are repeated in the Go code; here each is one method, called by every decoder that has the block. The same holds for the marshallers.
- `MarshalTo`, which slices the buffer to `Size()` and calls the sized form, and the oneof `MarshalTo` methods, which do the same for one field.
- Typed errors: the text of an error and the field named in it.
- Conversion.DeltasToCounts: doubles that result from integers are modelled as the integers they equal, with rounding to 53 bits, ties to even; overflow to infinity cannot occur for sums of int64 and NaN cannot arise.
- Conversion.IntHistogramCrosses: the counter reset hint is taken to be a byte, as in the histogram package of Prometheus, which is not part of this model.
- Symbols.Desymbolize: a panic on a reference out of range or an odd number of references is a failure result; `ScratchBuilder.Sort` is any permutation in name order.
- Metadata type mapping, `ToMetadata`, `ToExemplar` and `ToLabels` (`internal/v2_hack/codec.go`): finite tables and field copies.
- EncoderCache.CacheSafety: `newEncoder` yields a fresh encoder each time and its fatal exit on an error is not modelled; the decoder and compression itself are foreign code.
- Lockstep.LockstepSafety: whether a request can be constructed for a target is fixed per target, as it depends on its URL; endpoint choice, response bodies, timing and the Prometheus counters incremented beside the atomic ones are left out, and the atomic counters do not wrap.
- Lockstep.LogStatus: the loaded numbers are parameters, since counters move between the loads; sorting and printing the lines is left out, and the int64 totals do not wrap.
- Sampling.SamplingBound: the 64-bit wrap of the counter is out of reach below 2^64 callers and is modelled only in the sequential counter object.
- HTTP and gRPC plumbing, the fifty API handlers, metric label classifiers, data-point counting, logging, environment parsing and the gogo reflection hooks: no rules of their own worth stating.
