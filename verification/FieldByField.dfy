// What each case of each switch does, stated on the bytes of one field and on
// any message: the one field it assigns, with literal tags, and nothing else.
// A field of any other number is kept in the unknown bytes; one of another wire
// type is an error. Together with Decoding.DecodeConcat this gives the meaning
// of any sequence of fields, in any order.
module FieldByField {
  import opened Words
  import opened Varints
  import opened Scalars
  import opened Fields
  import opened Decoding
  import opened Messages
  import opened Sizing
  import opened Records
  import opened Outcomes

  // ---- one field, any message type -----------------------------------------

  function IntOf(tag: byte, v: uint64): bytes { [tag] + Varint(v) }
  function DoubleOf(tag: byte, bits: uint64): bytes { [tag] + Fixed64(bits) }
  function ChunkOf(tag: byte, p: bytes): bytes { [tag] + (Varint(|p|) + p) }

  lemma OneFieldDecodes<M>(schema: Schema, apply: (M, Field) -> Result<M>, f: Field, m: M)
    requires Fits(schema, f) && 0 < |EncodeField(f)| < TWO_63
    ensures Decode(schema, apply, EncodeField(f), 0, m) == apply(m, f)
  {
    hide FieldAt, EncodeField, Fits;
    FieldRoundTrip(schema, f);
    DecodeTurn(schema, apply, EncodeField(f), 0, m);
    if apply(m, f).Ok? {
      DecodeEnd(schema, apply, EncodeField(f), |EncodeField(f)|, apply(m, f).value);
    }
  }

  lemma OneInt<M>(schema: Schema, apply: (M, Field) -> Result<M>, num: nat, v: uint64, m: M)
    requires 0 < num < 16 && schema(num) == Int
    ensures Decode(schema, apply, IntOf(8 * num, v), 0, m) == apply(m, IntField(num, v))
  {
    hide Varint, Decode;
    TagBytes();
    Varint64Length(v);
    OneFieldDecodes(schema, apply, IntField(num, v), m);
  }

  lemma OneDouble<M>(schema: Schema, apply: (M, Field) -> Result<M>, num: nat, bits: uint64, m: M)
    requires 0 < num < 16 && schema(num) == Double
    ensures Decode(schema, apply, DoubleOf(8 * num + 1, bits), 0, m) == apply(m, DoubleField(num, bits))
  {
    hide Varint, Fixed64, Decode;
    TagBytes();
    OneFieldDecodes(schema, apply, DoubleField(num, bits), m);
  }

  lemma OneChunk<M>(schema: Schema, apply: (M, Field) -> Result<M>, num: nat, p: bytes, m: M)
    requires 0 < num < 16 && schema(num) == Chunk && |ChunkOf(8 * num + 2, p)| < TWO_63
    ensures Decode(schema, apply, ChunkOf(8 * num + 2, p), 0, m) == apply(m, ChunkField(num, p))
  {
    hide Varint, Decode;
    TagBytes();
    OneFieldDecodes(schema, apply, ChunkField(num, p), m);
  }

  lemma OneInts<M>(schema: Schema, apply: (M, Field) -> Result<M>, num: nat, vs: seq<uint64>, m: M)
    requires 0 < num < 16 && schema(num) == Ints && |ChunkOf(8 * num + 2, IntBytes(vs))| < TWO_63
    ensures Decode(schema, apply, ChunkOf(8 * num + 2, IntBytes(vs)), 0, m) == apply(m, IntsField(num, vs))
  {
    hide Varint, Decode, IntBytes;
    TagBytes();
    OneFieldDecodes(schema, apply, IntsField(num, vs), m);
  }

  // The tag of field 16 has two bytes.
  lemma OneDoubles<M>(schema: Schema, apply: (M, Field) -> Result<M>, num: nat, vs: seq<uint64>, m: M)
    requires 0 < num <= 16 && schema(num) == Doubles && |DoublesOf(num, vs)| < TWO_63
    ensures Decode(schema, apply, DoublesOf(num, vs), 0, m) == apply(m, DoublesField(num, vs))
  {
    hide Varint, Decode, DoubleBytes;
    TagBytes();
    OneFieldDecodes(schema, apply, DoublesField(num, vs), m);
  }

  function DoublesOf(num: nat, vs: seq<uint64>): bytes
    requires 0 < num <= 16
  {
    var tag: bytes := if num == 16 then [0x82, 0x01] else [8 * num + 2];
    tag + (Varint(|DoubleBytes(vs)|) + DoubleBytes(vs))
  }

  // A first field of a known number and a wire type that it does not take.
  lemma RejectedField<M>(schema: Schema, apply: (M, Field) -> Result<M>, num: nat, wireType: nat, rest: bytes, m: M)
    requires 0 < num < 0x8000_0000 && wireType < 8 && wireType != 4
    requires schema(num) != Unknown && !Takes(schema(num), wireType)
    ensures Decode(schema, apply, Varint(8 * num + wireType) + rest, 0, m) == Err(WrongWireType)
  {
    hide Varint, FieldAt, Decode;
    WrongWireTypeOutcome(schema, num, wireType, rest);
    FirstError(schema, apply, Varint(8 * num + wireType) + rest, m);
  }

  // ---- Label --------------------------------------------------------------

  lemma LabelStrings(m: Label, p: bytes)
    requires |p| < TWO_63 - 11
    ensures DecodeLabel(ChunkOf(0x0a, p), m) == Ok(m.(name := p))
    ensures DecodeLabel(ChunkOf(0x12, p), m) == Ok(m.(value := p))
  {
    hide Varint, Fixed64, Decode, IntBytes, DoubleBytes, Map;
    Varint64Length(|p|);
    OneChunk(LabelSchema, ApplyLabel, 1, p, m);
    OneChunk(LabelSchema, ApplyLabel, 2, p, m);
  }

  predicate LabelTakes(num: nat, wireType: nat) {
    num in {1, 2} && wireType == 2
  }

  lemma LabelRejects(num: nat, wireType: nat, rest: bytes, m: Label)
    requires num in {1, 2} && wireType < 8 && wireType != 4 && !LabelTakes(num, wireType)
    ensures DecodeLabel(Varint(8 * num + wireType) + rest, m) == Err(WrongWireType)
  {
    hide Varint, Decode;
    RejectedField(LabelSchema, ApplyLabel, num, wireType, rest, m);
  }

  lemma LabelKeepsOthers(rs: seq<Record>, m: Label)
    requires |RecordsBytes(rs)| < TWO_63
    requires forall r :: r in rs ==> 0 < r.num < TWO_31 && r.num !in {1, 2}
    ensures DecodeLabel(RecordsBytes(rs), m) == Ok(m.(unrecognized := m.unrecognized + RecordsBytes(rs)))
  {
    hide RecordsBytes, Decode;
    AppendLaws();
    assert Keeps(ApplyLabel, KeepLabel);
    ForeignRecordsAreKept(LabelSchema, ApplyLabel, KeepLabel, rs, m);
  }

  // ---- Sample -------------------------------------------------------------

  lemma SampleInts(m: Sample, v: uint64)
    ensures DecodeSample(IntOf(0x10, v), m) == Ok(m.(timestamp := I64(v)))
  {
    hide Varint, Fixed64, Decode, IntBytes, DoubleBytes, Map;
    OneInt(SampleSchema, ApplySample, 2, v, m);
  }

  lemma SampleDoubles(m: Sample, d: uint64)
    ensures DecodeSample(DoubleOf(0x09, d), m) == Ok(m.(value := d))
  {
    hide Varint, Fixed64, Decode, IntBytes, DoubleBytes, Map;
    OneDouble(SampleSchema, ApplySample, 1, d, m);
  }

  predicate SampleTakes(num: nat, wireType: nat) {
    || (num == 1 && wireType == 1)
    || (num == 2 && wireType == 0)
  }

  lemma SampleRejects(num: nat, wireType: nat, rest: bytes, m: Sample)
    requires num in {1, 2} && wireType < 8 && wireType != 4 && !SampleTakes(num, wireType)
    ensures DecodeSample(Varint(8 * num + wireType) + rest, m) == Err(WrongWireType)
  {
    hide Varint, Decode;
    RejectedField(SampleSchema, ApplySample, num, wireType, rest, m);
  }

  lemma SampleKeepsOthers(rs: seq<Record>, m: Sample)
    requires |RecordsBytes(rs)| < TWO_63
    requires forall r :: r in rs ==> 0 < r.num < TWO_31 && r.num !in {1, 2}
    ensures DecodeSample(RecordsBytes(rs), m) == Ok(m.(unrecognized := m.unrecognized + RecordsBytes(rs)))
  {
    hide RecordsBytes, Decode;
    AppendLaws();
    assert Keeps(ApplySample, KeepSample);
    ForeignRecordsAreKept(SampleSchema, ApplySample, KeepSample, rs, m);
  }

  // ---- BucketSpan ---------------------------------------------------------

  lemma SpanInts(m: BucketSpan, v: uint64)
    ensures DecodeSpan(IntOf(0x08, v), m) == Ok(m.(offset := UnZigZag32(U32(v))))
    ensures DecodeSpan(IntOf(0x10, v), m) == Ok(m.(length := U32(v)))
  {
    hide Varint, Fixed64, Decode, IntBytes, DoubleBytes, Map;
    OneInt(SpanSchema, ApplySpan, 1, v, m);
    OneInt(SpanSchema, ApplySpan, 2, v, m);
  }

  predicate SpanTakes(num: nat, wireType: nat) {
    num in {1, 2} && wireType == 0
  }

  lemma SpanRejects(num: nat, wireType: nat, rest: bytes, m: BucketSpan)
    requires num in {1, 2} && wireType < 8 && wireType != 4 && !SpanTakes(num, wireType)
    ensures DecodeSpan(Varint(8 * num + wireType) + rest, m) == Err(WrongWireType)
  {
    hide Varint, Decode;
    RejectedField(SpanSchema, ApplySpan, num, wireType, rest, m);
  }

  lemma SpanKeepsOthers(rs: seq<Record>, m: BucketSpan)
    requires |RecordsBytes(rs)| < TWO_63
    requires forall r :: r in rs ==> 0 < r.num < TWO_31 && r.num !in {1, 2}
    ensures DecodeSpan(RecordsBytes(rs), m) == Ok(m.(unrecognized := m.unrecognized + RecordsBytes(rs)))
  {
    hide RecordsBytes, Decode;
    AppendLaws();
    assert Keeps(ApplySpan, KeepSpan);
    ForeignRecordsAreKept(SpanSchema, ApplySpan, KeepSpan, rs, m);
  }

  // ---- Metadata -----------------------------------------------------------

  lemma MetadataInts(m: Metadata, v: uint64)
    ensures DecodeMetadata(IntOf(0x08, v), m) == Ok(m.(kind := I32(v)))
    ensures DecodeMetadata(IntOf(0x18, v), m) == Ok(m.(helpRef := U32(v)))
    ensures DecodeMetadata(IntOf(0x20, v), m) == Ok(m.(unitRef := U32(v)))
  {
    hide Varint, Fixed64, Decode, IntBytes, DoubleBytes, Map;
    OneInt(MetadataSchema, ApplyMetadata, 1, v, m);
    OneInt(MetadataSchema, ApplyMetadata, 3, v, m);
    OneInt(MetadataSchema, ApplyMetadata, 4, v, m);
  }

  predicate MetadataTakes(num: nat, wireType: nat) {
    num in {1, 3, 4} && wireType == 0
  }

  lemma MetadataRejects(num: nat, wireType: nat, rest: bytes, m: Metadata)
    requires num in {1, 3, 4} && wireType < 8 && wireType != 4 && !MetadataTakes(num, wireType)
    ensures DecodeMetadata(Varint(8 * num + wireType) + rest, m) == Err(WrongWireType)
  {
    hide Varint, Decode;
    RejectedField(MetadataSchema, ApplyMetadata, num, wireType, rest, m);
  }

  lemma MetadataKeepsOthers(rs: seq<Record>, m: Metadata)
    requires |RecordsBytes(rs)| < TWO_63
    requires forall r :: r in rs ==> 0 < r.num < TWO_31 && r.num !in {1, 3, 4}
    ensures DecodeMetadata(RecordsBytes(rs), m) == Ok(m.(unrecognized := m.unrecognized + RecordsBytes(rs)))
  {
    hide RecordsBytes, Decode;
    AppendLaws();
    assert Keeps(ApplyMetadata, KeepMetadata);
    ForeignRecordsAreKept(MetadataSchema, ApplyMetadata, KeepMetadata, rs, m);
  }

  // ---- Exemplar -----------------------------------------------------------

  lemma ExemplarInts(m: Exemplar, v: uint64)
    ensures DecodeExemplar(IntOf(0x18, v), m) == Ok(m.(timestamp := I64(v)))
  {
    hide Varint, Fixed64, Decode, IntBytes, DoubleBytes, Map;
    OneInt(ExemplarSchema, ApplyExemplar, 3, v, m);
  }

  lemma ExemplarDoubles(m: Exemplar, d: uint64)
    ensures DecodeExemplar(DoubleOf(0x11, d), m) == Ok(m.(value := d))
  {
    hide Varint, Fixed64, Decode, IntBytes, DoubleBytes, Map;
    OneDouble(ExemplarSchema, ApplyExemplar, 2, d, m);
  }

  lemma ExemplarPackedInts(m: Exemplar, vs: seq<uint64>)
    requires |IntBytes(vs)| < TWO_63 - 11
    ensures DecodeExemplar(ChunkOf(0x0a, IntBytes(vs)), m) == Ok(m.(labelsRefs := m.labelsRefs + Map(Low32, vs)))
  {
    hide Varint, Fixed64, Decode, IntBytes, DoubleBytes, Map;
    Varint64Length(|IntBytes(vs)|);
    OneInts(ExemplarSchema, ApplyExemplar, 1, vs, m);
  }

  predicate ExemplarTakes(num: nat, wireType: nat) {
    || (num == 1 && (wireType == 0 || wireType == 2))
    || (num == 2 && wireType == 1)
    || (num == 3 && wireType == 0)
  }

  lemma ExemplarRejects(num: nat, wireType: nat, rest: bytes, m: Exemplar)
    requires num in {1, 2, 3} && wireType < 8 && wireType != 4 && !ExemplarTakes(num, wireType)
    ensures DecodeExemplar(Varint(8 * num + wireType) + rest, m) == Err(WrongWireType)
  {
    hide Varint, Decode;
    RejectedField(ExemplarSchema, ApplyExemplar, num, wireType, rest, m);
  }

  lemma ExemplarKeepsOthers(rs: seq<Record>, m: Exemplar)
    requires |RecordsBytes(rs)| < TWO_63
    requires forall r :: r in rs ==> 0 < r.num < TWO_31 && r.num !in {1, 2, 3}
    ensures DecodeExemplar(RecordsBytes(rs), m) == Ok(m.(unrecognized := m.unrecognized + RecordsBytes(rs)))
  {
    hide RecordsBytes, Decode;
    AppendLaws();
    assert Keeps(ApplyExemplar, KeepExemplar);
    ForeignRecordsAreKept(ExemplarSchema, ApplyExemplar, KeepExemplar, rs, m);
  }

  // ---- Histogram ----------------------------------------------------------

  lemma HistogramInts(m: Histogram, v: uint64)
    ensures DecodeHistogram(IntOf(0x08, v), m) == Ok(m.(count := CountInt(v)))
    ensures DecodeHistogram(IntOf(0x20, v), m) == Ok(m.(schema := UnZigZag32(U32(v))))
    ensures DecodeHistogram(IntOf(0x30, v), m) == Ok(m.(zeroCount := CountInt(v)))
    ensures DecodeHistogram(IntOf(0x70, v), m) == Ok(m.(resetHint := I32(v)))
    ensures DecodeHistogram(IntOf(0x78, v), m) == Ok(m.(timestamp := I64(v)))
  {
    hide Varint, Fixed64, Decode, IntBytes, DoubleBytes, Map;
    OneInt(HistogramSchema, ApplyHistogram, 1, v, m);
    OneInt(HistogramSchema, ApplyHistogram, 4, v, m);
    OneInt(HistogramSchema, ApplyHistogram, 6, v, m);
    OneInt(HistogramSchema, ApplyHistogram, 14, v, m);
    OneInt(HistogramSchema, ApplyHistogram, 15, v, m);
  }

  lemma HistogramDoubles(m: Histogram, d: uint64)
    ensures DecodeHistogram(DoubleOf(0x11, d), m) == Ok(m.(count := CountFloat(d)))
    ensures DecodeHistogram(DoubleOf(0x19, d), m) == Ok(m.(sum := d))
    ensures DecodeHistogram(DoubleOf(0x29, d), m) == Ok(m.(zeroThreshold := d))
    ensures DecodeHistogram(DoubleOf(0x39, d), m) == Ok(m.(zeroCount := CountFloat(d)))
  {
    hide Varint, Fixed64, Decode, IntBytes, DoubleBytes, Map;
    OneDouble(HistogramSchema, ApplyHistogram, 2, d, m);
    OneDouble(HistogramSchema, ApplyHistogram, 3, d, m);
    OneDouble(HistogramSchema, ApplyHistogram, 5, d, m);
    OneDouble(HistogramSchema, ApplyHistogram, 7, d, m);
  }

  lemma HistogramMessages(m: Histogram, p: bytes)
    requires |p| < TWO_63 - 11
    ensures DecodeHistogram(ChunkOf(0x42, p), m) ==
            match DecodeSpan(p, NO_SPAN) case Err(e) => Err(e) case Ok(x) => Ok(m.(negativeSpans := m.negativeSpans + [x]))
    ensures DecodeHistogram(ChunkOf(0x5a, p), m) ==
            match DecodeSpan(p, NO_SPAN) case Err(e) => Err(e) case Ok(x) => Ok(m.(positiveSpans := m.positiveSpans + [x]))
  {
    hide Varint, Fixed64, Decode, IntBytes, DoubleBytes, Map;
    Varint64Length(|p|);
    OneChunk(HistogramSchema, ApplyHistogram, 8, p, m);
    OneChunk(HistogramSchema, ApplyHistogram, 11, p, m);
  }

  lemma HistogramPackedInts(m: Histogram, vs: seq<uint64>)
    requires |IntBytes(vs)| < TWO_63 - 11
    ensures DecodeHistogram(ChunkOf(0x4a, IntBytes(vs)), m) == Ok(m.(negativeDeltas := m.negativeDeltas + Map(UnZigZag64, vs)))
    ensures DecodeHistogram(ChunkOf(0x62, IntBytes(vs)), m) == Ok(m.(positiveDeltas := m.positiveDeltas + Map(UnZigZag64, vs)))
  {
    hide Varint, Fixed64, Decode, IntBytes, DoubleBytes, Map;
    Varint64Length(|IntBytes(vs)|);
    OneInts(HistogramSchema, ApplyHistogram, 9, vs, m);
    OneInts(HistogramSchema, ApplyHistogram, 12, vs, m);
  }

  lemma HistogramPackedDoubles(m: Histogram, vs: seq<uint64>)
    requires |DoubleBytes(vs)| < TWO_63 - 12
    ensures DecodeHistogram(DoublesOf(10, vs), m) == Ok(m.(negativeCounts := m.negativeCounts + vs))
    ensures DecodeHistogram(DoublesOf(13, vs), m) == Ok(m.(positiveCounts := m.positiveCounts + vs))
    ensures DecodeHistogram(DoublesOf(16, vs), m) == Ok(m.(customValues := m.customValues + vs))
  {
    hide Varint, Fixed64, Decode, IntBytes, DoubleBytes, Map;
    Varint64Length(|DoubleBytes(vs)|);
    OneDoubles(HistogramSchema, ApplyHistogram, 10, vs, m);
    OneDoubles(HistogramSchema, ApplyHistogram, 13, vs, m);
    OneDoubles(HistogramSchema, ApplyHistogram, 16, vs, m);
  }

  predicate HistogramTakes(num: nat, wireType: nat) {
    || (num in {1, 4, 6, 14, 15} && wireType == 0)
    || (num in {2, 3, 5, 7} && wireType == 1)
    || (num in {8, 11} && wireType == 2)
    || (num in {9, 12} && (wireType == 0 || wireType == 2))
    || (num in {10, 13, 16} && (wireType == 1 || wireType == 2))
  }

  lemma HistogramRejects(num: nat, wireType: nat, rest: bytes, m: Histogram)
    requires 1 <= num <= 16 && wireType < 8 && wireType != 4 && !HistogramTakes(num, wireType)
    ensures DecodeHistogram(Varint(8 * num + wireType) + rest, m) == Err(WrongWireType)
  {
    hide Varint, Decode;
    RejectedField(HistogramSchema, ApplyHistogram, num, wireType, rest, m);
  }

  lemma HistogramKeepsOthers(rs: seq<Record>, m: Histogram)
    requires |RecordsBytes(rs)| < TWO_63
    requires forall r :: r in rs ==> 16 < r.num < TWO_31
    ensures DecodeHistogram(RecordsBytes(rs), m) == Ok(m.(unrecognized := m.unrecognized + RecordsBytes(rs)))
  {
    hide RecordsBytes, Decode;
    AppendLaws();
    assert Keeps(ApplyHistogram, KeepHistogram);
    ForeignRecordsAreKept(HistogramSchema, ApplyHistogram, KeepHistogram, rs, m);
  }

  // ---- TimeSeries ---------------------------------------------------------

  lemma TimeSeriesInts(m: TimeSeries, v: uint64)
    ensures DecodeTimeSeries(IntOf(0x30, v), m) == Ok(m.(createdTimestamp := I64(v)))
  {
    hide Varint, Fixed64, Decode, IntBytes, DoubleBytes, Map;
    OneInt(TimeSeriesSchema, ApplyTimeSeries, 6, v, m);
  }

  lemma TimeSeriesMessages(m: TimeSeries, p: bytes)
    requires |p| < TWO_63 - 11
    ensures DecodeTimeSeries(ChunkOf(0x12, p), m) ==
            match DecodeSample(p, NO_SAMPLE) case Err(e) => Err(e) case Ok(x) => Ok(m.(samples := m.samples + [x]))
    ensures DecodeTimeSeries(ChunkOf(0x1a, p), m) ==
            match DecodeHistogram(p, NO_HISTOGRAM) case Err(e) => Err(e) case Ok(x) => Ok(m.(histograms := m.histograms + [x]))
    ensures DecodeTimeSeries(ChunkOf(0x22, p), m) ==
            match DecodeExemplar(p, NO_EXEMPLAR) case Err(e) => Err(e) case Ok(x) => Ok(m.(exemplars := m.exemplars + [x]))
    ensures DecodeTimeSeries(ChunkOf(0x2a, p), m) ==
            match DecodeMetadata(p, m.metadata) case Err(e) => Err(e) case Ok(x) => Ok(m.(metadata := x))
    ensures DecodeTimeSeries(ChunkOf(0x3a, p), m) ==
            match DecodeLabel(p, NO_LABEL) case Err(e) => Err(e) case Ok(x) => Ok(m.(labels := m.labels + [x]))
  {
    hide Varint, Fixed64, Decode, IntBytes, DoubleBytes, Map;
    Varint64Length(|p|);
    OneChunk(TimeSeriesSchema, ApplyTimeSeries, 2, p, m);
    OneChunk(TimeSeriesSchema, ApplyTimeSeries, 3, p, m);
    OneChunk(TimeSeriesSchema, ApplyTimeSeries, 4, p, m);
    OneChunk(TimeSeriesSchema, ApplyTimeSeries, 5, p, m);
    OneChunk(TimeSeriesSchema, ApplyTimeSeries, 7, p, m);
  }

  lemma TimeSeriesPackedInts(m: TimeSeries, vs: seq<uint64>)
    requires |IntBytes(vs)| < TWO_63 - 11
    ensures DecodeTimeSeries(ChunkOf(0x0a, IntBytes(vs)), m) == Ok(m.(labelsRefs := m.labelsRefs + Map(Low32, vs)))
  {
    hide Varint, Fixed64, Decode, IntBytes, DoubleBytes, Map;
    Varint64Length(|IntBytes(vs)|);
    OneInts(TimeSeriesSchema, ApplyTimeSeries, 1, vs, m);
  }

  predicate TimeSeriesTakes(num: nat, wireType: nat) {
    || (num == 1 && (wireType == 0 || wireType == 2))
    || (num in {2, 3, 4, 5, 7} && wireType == 2)
    || (num == 6 && wireType == 0)
  }

  lemma TimeSeriesRejects(num: nat, wireType: nat, rest: bytes, m: TimeSeries)
    requires num in {1, 2, 3, 4, 5, 6, 7} && wireType < 8 && wireType != 4 && !TimeSeriesTakes(num, wireType)
    ensures DecodeTimeSeries(Varint(8 * num + wireType) + rest, m) == Err(WrongWireType)
  {
    hide Varint, Decode;
    RejectedField(TimeSeriesSchema, ApplyTimeSeries, num, wireType, rest, m);
  }

  lemma TimeSeriesKeepsOthers(rs: seq<Record>, m: TimeSeries)
    requires |RecordsBytes(rs)| < TWO_63
    requires forall r :: r in rs ==> 0 < r.num < TWO_31 && r.num !in {1, 2, 3, 4, 5, 6, 7}
    ensures DecodeTimeSeries(RecordsBytes(rs), m) == Ok(m.(unrecognized := m.unrecognized + RecordsBytes(rs)))
  {
    hide RecordsBytes, Decode;
    AppendLaws();
    assert Keeps(ApplyTimeSeries, KeepTimeSeries);
    ForeignRecordsAreKept(TimeSeriesSchema, ApplyTimeSeries, KeepTimeSeries, rs, m);
  }

  // ---- Request ------------------------------------------------------------

  lemma RequestStrings(m: Request, p: bytes)
    requires |p| < TWO_63 - 11
    ensures DecodeRequest(ChunkOf(0x22, p), m) == Ok(m.(symbols := m.symbols + [p]))
  {
    hide Varint, Fixed64, Decode, IntBytes, DoubleBytes, Map;
    Varint64Length(|p|);
    OneChunk(RequestSchema, ApplyRequest, 4, p, m);
  }

  lemma RequestMessages(m: Request, p: bytes)
    requires |p| < TWO_63 - 11
    ensures DecodeRequest(ChunkOf(0x2a, p), m) ==
            match DecodeTimeSeries(p, NO_TIME_SERIES) case Err(e) => Err(e) case Ok(x) => Ok(m.(timeseries := m.timeseries + [x]))
  {
    hide Varint, Fixed64, Decode, IntBytes, DoubleBytes, Map;
    Varint64Length(|p|);
    OneChunk(RequestSchema, ApplyRequest, 5, p, m);
  }

  predicate RequestTakes(num: nat, wireType: nat) {
    num in {4, 5} && wireType == 2
  }

  lemma RequestRejects(num: nat, wireType: nat, rest: bytes, m: Request)
    requires num in {4, 5} && wireType < 8 && wireType != 4 && !RequestTakes(num, wireType)
    ensures DecodeRequest(Varint(8 * num + wireType) + rest, m) == Err(WrongWireType)
  {
    hide Varint, Decode;
    RejectedField(RequestSchema, ApplyRequest, num, wireType, rest, m);
  }

  lemma RequestKeepsOthers(rs: seq<Record>, m: Request)
    requires |RecordsBytes(rs)| < TWO_63
    requires forall r :: r in rs ==> 0 < r.num < TWO_31 && r.num !in {4, 5}
    ensures DecodeRequest(RecordsBytes(rs), m) == Ok(m.(unrecognized := m.unrecognized + RecordsBytes(rs)))
  {
    hide RecordsBytes, Decode;
    AppendLaws();
    assert Keeps(ApplyRequest, KeepRequest);
    ForeignRecordsAreKept(RequestSchema, ApplyRequest, KeepRequest, rs, m);
  }
}
