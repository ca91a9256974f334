// The eight message types of Remote-Write 2.0: their fields, the assignment
// each Unmarshal switch makes, and the fields each marshaller writes.
// A double is its 64-bit pattern, a string its bytes, an int64 or enum a
// signed number of its width.
module Messages {
  import opened Words
  import opened Varints
  import opened Scalars
  import opened Fields
  import opened Decoding
  import opened Pieces

  datatype Count = NoCount | CountInt(n: uint64) | CountFloat(bits: uint64)

  datatype Label = Label(name: bytes, value: bytes, unrecognized: bytes)
  datatype Sample = Sample(value: uint64, timestamp: int64, unrecognized: bytes)
  datatype BucketSpan = BucketSpan(offset: int32, length: uint32, unrecognized: bytes)
  datatype Metadata = Metadata(kind: int32, helpRef: uint32, unitRef: uint32, unrecognized: bytes)
  datatype Exemplar = Exemplar(labelsRefs: seq<uint32>, value: uint64, timestamp: int64, unrecognized: bytes)
  datatype Histogram = Histogram(
    count: Count, sum: uint64, schema: int32, zeroThreshold: uint64, zeroCount: Count,
    negativeSpans: seq<BucketSpan>, negativeDeltas: seq<int64>, negativeCounts: seq<uint64>,
    positiveSpans: seq<BucketSpan>, positiveDeltas: seq<int64>, positiveCounts: seq<uint64>,
    resetHint: int32, timestamp: int64, customValues: seq<uint64>, unrecognized: bytes)
  datatype TimeSeries = TimeSeries(
    labelsRefs: seq<uint32>, samples: seq<Sample>, histograms: seq<Histogram>, exemplars: seq<Exemplar>,
    metadata: Metadata, createdTimestamp: int64, labels: seq<Label>, unrecognized: bytes)
  datatype Request = Request(symbols: seq<bytes>, timeseries: seq<TimeSeries>, unrecognized: bytes)

  const NO_LABEL := Label([], [], [])
  const NO_SAMPLE := Sample(0, 0, [])
  const NO_SPAN := BucketSpan(0, 0, [])
  const NO_METADATA := Metadata(0, 0, 0, [])
  const NO_EXEMPLAR := Exemplar([], 0, 0, [])
  const NO_HISTOGRAM := Histogram(NoCount, 0, 0, 0, NoCount, [], [], [], [], [], [], 0, 0, [], [])
  const NO_TIME_SERIES := TimeSeries([], [], [], [], NO_METADATA, 0, [], [])
  const NO_REQUEST := Request([], [], [])

  function Map<A, B>(f: A -> B, xs: seq<A>): (ys: seq<B>)
    ensures |ys| == |xs| && forall i :: 0 <= i < |xs| ==> ys[i] == f(xs[i])
  {
    seq(|xs|, i requires 0 <= i < |xs| => f(xs[i]))
  }

  function Same<T>(x: T): T { x }

  lemma MapSame<T>(xs: seq<T>)
    ensures Map(Same, xs) == xs
  {
  }

  lemma MapCons<A, B>(f: A -> B, xs: seq<A>)
    requires xs != []
    ensures Map(f, xs) == [f(xs[0])] + Map(f, xs[1..])
  {
  }

  function Low32(v: uint64): uint32 { U32(v) }
  function Refs(vs: seq<uint64>): seq<uint32> { Map(Low32, vs) }

  // A singular double is dropped when it compares equal to 0.
  predicate IsZero(bits: uint64) { bits == 0 || bits == TWO_63 }

  // ---- which fields each switch knows --------------------------------------

  function LabelSchema(num: int): Layout {
    if num == 1 || num == 2 then Chunk else Unknown
  }

  function SampleSchema(num: int): Layout {
    if num == 1 then Double else if num == 2 then Int else Unknown
  }

  function SpanSchema(num: int): Layout {
    if num == 1 || num == 2 then Int else Unknown
  }

  function MetadataSchema(num: int): Layout {
    if num == 1 || num == 3 || num == 4 then Int else Unknown
  }

  function ExemplarSchema(num: int): Layout {
    if num == 1 then Ints else if num == 2 then Double else if num == 3 then Int else Unknown
  }

  function HistogramSchema(num: int): Layout {
    if num == 1 || num == 4 || num == 6 || num == 14 || num == 15 then Int
    else if num == 2 || num == 3 || num == 5 || num == 7 then Double
    else if num == 8 || num == 11 then Chunk
    else if num == 9 || num == 12 then Ints
    else if num == 10 || num == 13 || num == 16 then Doubles
    else Unknown
  }

  function TimeSeriesSchema(num: int): Layout {
    if num == 1 then Ints
    else if num == 2 || num == 3 || num == 4 || num == 5 || num == 7 then Chunk
    else if num == 6 then Int
    else Unknown
  }

  function RequestSchema(num: int): Layout {
    if num == 4 || num == 5 then Chunk else Unknown
  }

  // ---- what each case of the switch assigns --------------------------------

  function KeepLabel(m: Label, raw: bytes): Label { m.(unrecognized := m.unrecognized + raw) }
  function KeepSample(m: Sample, raw: bytes): Sample { m.(unrecognized := m.unrecognized + raw) }
  function KeepSpan(m: BucketSpan, raw: bytes): BucketSpan { m.(unrecognized := m.unrecognized + raw) }
  function KeepMetadata(m: Metadata, raw: bytes): Metadata { m.(unrecognized := m.unrecognized + raw) }
  function KeepExemplar(m: Exemplar, raw: bytes): Exemplar { m.(unrecognized := m.unrecognized + raw) }
  function KeepHistogram(m: Histogram, raw: bytes): Histogram { m.(unrecognized := m.unrecognized + raw) }
  function KeepTimeSeries(m: TimeSeries, raw: bytes): TimeSeries { m.(unrecognized := m.unrecognized + raw) }
  function KeepRequest(m: Request, raw: bytes): Request { m.(unrecognized := m.unrecognized + raw) }

  function ApplyLabel(m: Label, f: Field): Result<Label> {
    match f
    case ChunkField(num, s) => Ok(if num == 1 then m.(name := s) else m.(value := s))
    case UnknownField(raw) => Ok(KeepLabel(m, raw))
    case _ => Ok(m)
  }

  function ApplySample(m: Sample, f: Field): Result<Sample> {
    match f
    case DoubleField(_, bits) => Ok(m.(value := bits))
    case IntField(_, v) => Ok(m.(timestamp := I64(v)))
    case UnknownField(raw) => Ok(KeepSample(m, raw))
    case _ => Ok(m)
  }

  function ApplySpan(m: BucketSpan, f: Field): Result<BucketSpan> {
    match f
    case IntField(num, v) => Ok(if num == 1 then m.(offset := UnZigZag32(U32(v))) else m.(length := U32(v)))
    case UnknownField(raw) => Ok(KeepSpan(m, raw))
    case _ => Ok(m)
  }

  function ApplyMetadata(m: Metadata, f: Field): Result<Metadata> {
    match f
    case IntField(num, v) =>
      Ok(if num == 1 then m.(kind := I32(v)) else if num == 3 then m.(helpRef := U32(v)) else m.(unitRef := U32(v)))
    case UnknownField(raw) => Ok(KeepMetadata(m, raw))
    case _ => Ok(m)
  }

  function ApplyExemplar(m: Exemplar, f: Field): Result<Exemplar> {
    match f
    case IntsField(_, vs) => Ok(m.(labelsRefs := m.labelsRefs + Refs(vs)))
    case DoubleField(_, bits) => Ok(m.(value := bits))
    case IntField(_, v) => Ok(m.(timestamp := I64(v)))
    case UnknownField(raw) => Ok(KeepExemplar(m, raw))
    case _ => Ok(m)
  }

  function ApplyHistogram(m: Histogram, f: Field): Result<Histogram> {
    match f
    case IntField(num, v) =>
      Ok(if num == 1 then m.(count := CountInt(v))
         else if num == 4 then m.(schema := UnZigZag32(U32(v)))
         else if num == 6 then m.(zeroCount := CountInt(v))
         else if num == 14 then m.(resetHint := I32(v))
         else m.(timestamp := I64(v)))
    case DoubleField(num, bits) =>
      Ok(if num == 2 then m.(count := CountFloat(bits))
         else if num == 3 then m.(sum := bits)
         else if num == 5 then m.(zeroThreshold := bits)
         else m.(zeroCount := CountFloat(bits)))
    case ChunkField(num, s) =>
      var span :- DecodeSpan(s, NO_SPAN);
      Ok(if num == 8 then m.(negativeSpans := m.negativeSpans + [span])
         else m.(positiveSpans := m.positiveSpans + [span]))
    case IntsField(num, vs) =>
      Ok(if num == 9 then m.(negativeDeltas := m.negativeDeltas + Map(UnZigZag64, vs))
         else m.(positiveDeltas := m.positiveDeltas + Map(UnZigZag64, vs)))
    case DoublesField(num, vs) =>
      Ok(if num == 10 then m.(negativeCounts := m.negativeCounts + vs)
         else if num == 13 then m.(positiveCounts := m.positiveCounts + vs)
         else m.(customValues := m.customValues + vs))
    case UnknownField(raw) => Ok(KeepHistogram(m, raw))
  }

  function ApplyTimeSeries(m: TimeSeries, f: Field): Result<TimeSeries> {
    match f
    case IntsField(_, vs) => Ok(m.(labelsRefs := m.labelsRefs + Refs(vs)))
    case ChunkField(num, s) =>
      if num == 2 then var x :- DecodeSample(s, NO_SAMPLE); Ok(m.(samples := m.samples + [x]))
      else if num == 3 then var x :- DecodeHistogram(s, NO_HISTOGRAM); Ok(m.(histograms := m.histograms + [x]))
      else if num == 4 then var x :- DecodeExemplar(s, NO_EXEMPLAR); Ok(m.(exemplars := m.exemplars + [x]))
      else if num == 5 then var x :- DecodeMetadata(s, m.metadata); Ok(m.(metadata := x))
      else var x :- DecodeLabel(s, NO_LABEL); Ok(m.(labels := m.labels + [x]))
    case IntField(_, v) => Ok(m.(createdTimestamp := I64(v)))
    case UnknownField(raw) => Ok(KeepTimeSeries(m, raw))
    case _ => Ok(m)
  }

  function ApplyRequest(m: Request, f: Field): Result<Request> {
    match f
    case ChunkField(num, s) =>
      if num == 4 then Ok(m.(symbols := m.symbols + [s]))
      else var x :- DecodeTimeSeries(s, NO_TIME_SERIES); Ok(m.(timeseries := m.timeseries + [x]))
    case UnknownField(raw) => Ok(KeepRequest(m, raw))
    case _ => Ok(m)
  }

  // Unmarshal into a message that may hold something already.
  function DecodeLabel(s: bytes, m: Label): Result<Label> { Decode(LabelSchema, ApplyLabel, s, 0, m) }
  function DecodeSample(s: bytes, m: Sample): Result<Sample> { Decode(SampleSchema, ApplySample, s, 0, m) }
  function DecodeSpan(s: bytes, m: BucketSpan): Result<BucketSpan> { Decode(SpanSchema, ApplySpan, s, 0, m) }
  function DecodeMetadata(s: bytes, m: Metadata): Result<Metadata> { Decode(MetadataSchema, ApplyMetadata, s, 0, m) }
  function DecodeExemplar(s: bytes, m: Exemplar): Result<Exemplar> { Decode(ExemplarSchema, ApplyExemplar, s, 0, m) }
  function DecodeHistogram(s: bytes, m: Histogram): Result<Histogram> { Decode(HistogramSchema, ApplyHistogram, s, 0, m) }
  function DecodeTimeSeries(s: bytes, m: TimeSeries): Result<TimeSeries> { Decode(TimeSeriesSchema, ApplyTimeSeries, s, 0, m) }
  function DecodeRequest(s: bytes, m: Request): Result<Request> { Decode(RequestSchema, ApplyRequest, s, 0, m) }

  // ---- what each marshaller writes -----------------------------------------

  function OptInt(num: nat, v: uint64): seq<Field> { if v == 0 then [] else [IntField(num, v)] }
  function OptDouble(num: nat, bits: uint64): seq<Field> { if IsZero(bits) then [] else [DoubleField(num, bits)] }
  function OptChunk(num: nat, s: bytes): seq<Field> { if s == [] then [] else [ChunkField(num, s)] }
  function OptInts(num: nat, vs: seq<uint64>): seq<Field> { if vs == [] then [] else [IntsField(num, vs)] }
  function OptDoubles(num: nat, vs: seq<uint64>): seq<Field> { if vs == [] then [] else [DoublesField(num, vs)] }

  function OptCount(intNum: nat, floatNum: nat, c: Count): seq<Field> {
    match c
    case NoCount => []
    case CountInt(n) => [IntField(intNum, n)]
    case CountFloat(bits) => [DoubleField(floatNum, bits)]
  }

  function Chunks(num: nat, ps: seq<bytes>): seq<Field> {
    if ps == [] then [] else [ChunkField(num, ps[0])] + Chunks(num, ps[1..])
  }

  // Each message as the list of its fields in wire order, one piece for each
  // field that the marshaller tests.
  function LabelPieces(m: Label): seq<seq<Field>> {
    [OptChunk(1, m.name), OptChunk(2, m.value)]
  }

  function SamplePieces(m: Sample): seq<seq<Field>> {
    [OptDouble(1, m.value), OptInt(2, U64(m.timestamp))]
  }

  function SpanPieces(m: BucketSpan): seq<seq<Field>> {
    [OptInt(1, ZigZag32(m.offset)), OptInt(2, m.length)]
  }

  function MetadataPieces(m: Metadata): seq<seq<Field>> {
    [OptInt(1, U64(m.kind)), OptInt(3, m.helpRef), OptInt(4, m.unitRef)]
  }

  function ExemplarPieces(m: Exemplar): seq<seq<Field>> {
    [OptInts(1, m.labelsRefs), OptDouble(2, m.value), OptInt(3, U64(m.timestamp))]
  }

  function HistogramPiece(m: Histogram, k: nat): seq<Field> {
    match k
    case 0 => OptCount(1, 2, m.count)
    case 1 => OptDouble(3, m.sum)
    case 2 => OptInt(4, ZigZag32(m.schema))
    case 3 => OptDouble(5, m.zeroThreshold)
    case 4 => OptCount(6, 7, m.zeroCount)
    case 5 => Chunks(8, Map(EncodeSpan, m.negativeSpans))
    case 6 => OptInts(9, Map(ZigZag64, m.negativeDeltas))
    case 7 => OptDoubles(10, m.negativeCounts)
    case 8 => Chunks(11, Map(EncodeSpan, m.positiveSpans))
    case 9 => OptInts(12, Map(ZigZag64, m.positiveDeltas))
    case 10 => OptDoubles(13, m.positiveCounts)
    case 11 => OptInt(14, U64(m.resetHint))
    case 12 => OptInt(15, U64(m.timestamp))
    case 13 => OptDoubles(16, m.customValues)
    case _ => []
  }

  function HistogramPieces(m: Histogram): (ps: seq<seq<Field>>)
    ensures |ps| == 14 && forall k :: 0 <= k < 14 ==> ps[k] == HistogramPiece(m, k)
  {
    seq(14, k requires 0 <= k < 14 => HistogramPiece(m, k))
  }

  function TimeSeriesPiece(m: TimeSeries, k: nat): seq<Field> {
    match k
    case 0 => OptInts(1, m.labelsRefs)
    case 1 => Chunks(2, Map(EncodeSample, m.samples))
    case 2 => Chunks(3, Map(EncodeHistogram, m.histograms))
    case 3 => Chunks(4, Map(EncodeExemplar, m.exemplars))
    case 4 => [ChunkField(5, EncodeMetadata(m.metadata))]
    case 5 => OptInt(6, U64(m.createdTimestamp))
    case 6 => Chunks(7, Map(EncodeLabel, m.labels))
    case _ => []
  }

  function TimeSeriesPieces(m: TimeSeries): (ps: seq<seq<Field>>)
    ensures |ps| == 7 && forall k :: 0 <= k < 7 ==> ps[k] == TimeSeriesPiece(m, k)
  {
    seq(7, k requires 0 <= k < 7 => TimeSeriesPiece(m, k))
  }

  lemma HistogramPieceList(m: Histogram)
    ensures HistogramPiece(m, 0) == OptCount(1, 2, m.count)
    ensures HistogramPiece(m, 1) == OptDouble(3, m.sum)
    ensures HistogramPiece(m, 2) == OptInt(4, ZigZag32(m.schema))
    ensures HistogramPiece(m, 3) == OptDouble(5, m.zeroThreshold)
    ensures HistogramPiece(m, 4) == OptCount(6, 7, m.zeroCount)
    ensures HistogramPiece(m, 5) == Chunks(8, Map(EncodeSpan, m.negativeSpans))
    ensures HistogramPiece(m, 6) == OptInts(9, Map(ZigZag64, m.negativeDeltas))
    ensures HistogramPiece(m, 7) == OptDoubles(10, m.negativeCounts)
    ensures HistogramPiece(m, 8) == Chunks(11, Map(EncodeSpan, m.positiveSpans))
    ensures HistogramPiece(m, 9) == OptInts(12, Map(ZigZag64, m.positiveDeltas))
    ensures HistogramPiece(m, 10) == OptDoubles(13, m.positiveCounts)
    ensures HistogramPiece(m, 11) == OptInt(14, U64(m.resetHint))
    ensures HistogramPiece(m, 12) == OptInt(15, U64(m.timestamp))
    ensures HistogramPiece(m, 13) == OptDoubles(16, m.customValues)
  {
    hide OptCount, OptInt, OptDouble, OptInts, OptDoubles, Chunks, ZigZag32, ZigZag64, EncodeSpan, Map, U64;
  }

  lemma SeriesPieceList(m: TimeSeries)
    ensures TimeSeriesPiece(m, 0) == OptInts(1, m.labelsRefs)
    ensures TimeSeriesPiece(m, 1) == Chunks(2, Map(EncodeSample, m.samples))
    ensures TimeSeriesPiece(m, 2) == Chunks(3, Map(EncodeHistogram, m.histograms))
    ensures TimeSeriesPiece(m, 3) == Chunks(4, Map(EncodeExemplar, m.exemplars))
    ensures TimeSeriesPiece(m, 4) == [ChunkField(5, EncodeMetadata(m.metadata))]
    ensures TimeSeriesPiece(m, 5) == OptInt(6, U64(m.createdTimestamp))
    ensures TimeSeriesPiece(m, 6) == Chunks(7, Map(EncodeLabel, m.labels))
  {
    hide OptInt, OptInts, Chunks, Map, U64, EncodeMetadata;
  }

  function RequestPieces(m: Request): seq<seq<Field>> {
    [Chunks(4, m.symbols), Chunks(5, Map(EncodeTimeSeries, m.timeseries))]
  }

  function EncodeLabel(m: Label): bytes { EncodePieces(LabelPieces(m), m.unrecognized) }
  function EncodeSample(m: Sample): bytes { EncodePieces(SamplePieces(m), m.unrecognized) }
  function EncodeSpan(m: BucketSpan): bytes { EncodePieces(SpanPieces(m), m.unrecognized) }
  function EncodeMetadata(m: Metadata): bytes { EncodePieces(MetadataPieces(m), m.unrecognized) }
  function EncodeExemplar(m: Exemplar): bytes { EncodePieces(ExemplarPieces(m), m.unrecognized) }
  function EncodeHistogram(m: Histogram): bytes { EncodePieces(HistogramPieces(m), m.unrecognized) }
  function EncodeTimeSeries(m: TimeSeries): bytes { EncodePieces(TimeSeriesPieces(m), m.unrecognized) }
  function EncodeRequest(m: Request): bytes { EncodePieces(RequestPieces(m), m.unrecognized) }
}
