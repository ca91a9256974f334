// The bytes of every message, spelled out: the literal tag bytes of the
// generated marshallers in front of base 128 varints, little-endian doubles
// and length-prefixed payloads. It fixes the format independently of the
// schemas, which reading and writing share.
module WireFormat {
  import opened Words
  import opened Varints
  import opened Scalars
  import opened Fields
  import opened Decoding
  import opened Pieces
  import opened Messages
  import opened Sizing

  // ---- one field -----------------------------------------------------------

  function IntWire(tag: byte, v: uint64): bytes { if v == 0 then [] else [tag] + Varint(v) }
  // Only the patterns of +0 and -0 are left out.
  function DoubleWire(tag: byte, bits: uint64): bytes {
    if bits == 0 || bits == 0x8000_0000_0000_0000 then [] else [tag] + Fixed64(bits)
  }

  function Delimited(tag: bytes, p: bytes): bytes { tag + Varint(|p|) + p }
  function StringWire(tag: byte, s: bytes): bytes { if s == [] then [] else Delimited([tag], s) }
  function PackedWire(tag: bytes, p: bytes): bytes { if p == [] then [] else Delimited(tag, p) }

  function Each(tag: byte, ps: seq<bytes>): bytes {
    if ps == [] then [] else Delimited([tag], ps[0]) + Each(tag, ps[1..])
  }

  function CountWire(intTag: byte, floatTag: byte, c: Count): bytes {
    match c
    case NoCount => []
    case CountInt(n) => [intTag] + Varint(n)
    case CountFloat(bits) => [floatTag] + Fixed64(bits)
  }

  lemma IntPiece(num: nat, v: uint64)
    requires 0 < num < 16
    ensures EncodeFields(OptInt(num, v)) == IntWire(8 * num, v)
  {
    hide Varint;
    TagBytes();
    OneField(IntField(num, v));
  }

  lemma DoublePiece(num: nat, bits: uint64)
    requires 0 < num < 16
    ensures EncodeFields(OptDouble(num, bits)) == DoubleWire(8 * num + 1, bits)
  {
    hide Varint, Fixed64;
    TagBytes();
    OneField(DoubleField(num, bits));
  }

  lemma CountPiece(intNum: nat, floatNum: nat, c: Count)
    requires 0 < intNum < 16 && 0 < floatNum < 16
    ensures EncodeFields(OptCount(intNum, floatNum, c)) == CountWire(8 * intNum, 8 * floatNum + 1, c)
  {
    hide Varint, Fixed64;
    TagBytes();
    match c
    case NoCount =>
    case CountInt(n) => OneField(IntField(intNum, n));
    case CountFloat(bits) => OneField(DoubleField(floatNum, bits));
  }

  lemma StringPiece(num: nat, s: bytes)
    requires 0 < num < 16
    ensures EncodeFields(OptChunk(num, s)) == StringWire(8 * num + 2, s)
  {
    hide Varint;
    TagBytes();
    OneField(ChunkField(num, s));
    Regroup([8 * num + 2], Varint(|s|), s);
  }

  lemma Regroup(a: bytes, b: bytes, c: bytes)
    ensures a + (b + c) == a + b + c
  {
  }

  lemma IntsPiece(num: nat, vs: seq<uint64>)
    requires 0 < num < 16
    ensures EncodeFields(OptInts(num, vs)) == PackedWire([8 * num + 2], IntBytes(vs))
  {
    hide Varint;
    TagBytes();
    OneField(IntsField(num, vs));
    Regroup([8 * num + 2], Varint(|IntBytes(vs)|), IntBytes(vs));
  }

  lemma DoublesPiece(num: nat, vs: seq<uint64>)
    requires 0 < num <= 16
    ensures EncodeFields(OptDoubles(num, vs)) == PackedWire(if num < 16 then [8 * num + 2] else [0x82, 0x01], DoubleBytes(vs))
  {
    hide Varint, Fixed64;
    TagBytes();
    OneField(DoublesField(num, vs));
    Regroup(Tag(num, 2), Varint(|DoubleBytes(vs)|), DoubleBytes(vs));
  }

  lemma {:induction false} ChunksPiece(num: nat, ps: seq<bytes>)
    requires 0 < num < 16
    ensures EncodeFields(Chunks(num, ps)) == Each(8 * num + 2, ps)
  {
    if ps != [] {
      hide Varint;
      TagBytes();
      ChunksPiece(num, ps[1..]);
      Regroup([8 * num + 2], Varint(|ps[0]|), ps[0]);
      var rest := Chunks(num, ps[1..]);
      assert Chunks(num, ps) == [ChunkField(num, ps[0])] + rest;
      assert ([ChunkField(num, ps[0])] + rest)[1..] == rest;
    }
  }

  lemma OneChunkPiece(num: nat, p: bytes)
    requires 0 < num < 16
    ensures EncodeFields([ChunkField(num, p)]) == Delimited([8 * num + 2], p)
  {
    hide Varint;
    TagBytes();
    OneField(ChunkField(num, p));
    Regroup([8 * num + 2], Varint(|p|), p);
  }

  lemma {:induction false} PiecesAre(ps: seq<seq<Field>>, u: bytes, qs: seq<bytes>)
    requires |qs| == |ps| && forall k :: 0 <= k < |ps| ==> EncodeFields(ps[k]) == qs[k]
    ensures EncodePieces(ps, u) == Concat(qs) + u
    decreases |ps|
  {
    if ps != [] {
      assert qs[0] == EncodeFields(ps[0]);
      PiecesAre(ps[1..], u, qs[1..]);
      EncodeConcat(ps[0], Flatten(ps[1..]));
      Regroup(qs[0], Concat(qs[1..]), u);
      Regroup(qs[0], EncodeFields(Flatten(ps[1..])), u);
    }
  }

  // ---- the messages --------------------------------------------------------

  lemma LabelWire(m: Label)
    ensures EncodeLabel(m) == Concat([StringWire(0x0a, m.name), StringWire(0x12, m.value)]) + m.unrecognized
  {
    hide EncodeFields, EncodePieces, OptChunk, StringWire, Concat;
    StringPiece(1, m.name);
    StringPiece(2, m.value);
    PiecesAre(LabelPieces(m), m.unrecognized, [StringWire(0x0a, m.name), StringWire(0x12, m.value)]);
  }

  lemma SampleWire(m: Sample)
    ensures EncodeSample(m) == Concat([DoubleWire(0x09, m.value), IntWire(0x10, U64(m.timestamp))]) + m.unrecognized
  {
    hide EncodeFields, EncodePieces, OptDouble, OptInt, DoubleWire, IntWire, Concat;
    DoublePiece(1, m.value);
    IntPiece(2, U64(m.timestamp));
    PiecesAre(SamplePieces(m), m.unrecognized, [DoubleWire(0x09, m.value), IntWire(0x10, U64(m.timestamp))]);
  }

  lemma SpanWire(m: BucketSpan)
    ensures EncodeSpan(m) == Concat([IntWire(0x08, ZigZag32(m.offset)), IntWire(0x10, m.length)]) + m.unrecognized
  {
    hide EncodeFields, EncodePieces, OptInt, IntWire, Concat, ZigZag32;
    IntPiece(1, ZigZag32(m.offset));
    IntPiece(2, m.length);
    PiecesAre(SpanPieces(m), m.unrecognized, [IntWire(0x08, ZigZag32(m.offset)), IntWire(0x10, m.length)]);
  }

  function MetadataBytes(m: Metadata): seq<bytes> {
    [IntWire(0x08, U64(m.kind)), IntWire(0x18, m.helpRef), IntWire(0x20, m.unitRef)]
  }

  lemma MetadataWire(m: Metadata)
    ensures EncodeMetadata(m) == Concat(MetadataBytes(m)) + m.unrecognized
  {
    hide EncodeFields, EncodePieces, OptInt, IntWire, Concat, U64;
    IntPiece(1, U64(m.kind));
    IntPiece(3, m.helpRef);
    IntPiece(4, m.unitRef);
    PiecesAre(MetadataPieces(m), m.unrecognized, MetadataBytes(m));
  }

  function ExemplarBytes(m: Exemplar): seq<bytes> {
    [PackedWire([0x0a], IntBytes(m.labelsRefs)), DoubleWire(0x11, m.value), IntWire(0x18, U64(m.timestamp))]
  }

  lemma ExemplarWire(m: Exemplar)
    ensures EncodeExemplar(m) == Concat(ExemplarBytes(m)) + m.unrecognized
  {
    hide EncodeFields, EncodePieces, OptInt, OptInts, OptDouble, IntWire, DoubleWire, PackedWire, IntBytes, Concat, U64;
    IntsPiece(1, m.labelsRefs);
    DoublePiece(2, m.value);
    IntPiece(3, U64(m.timestamp));
    PiecesAre(ExemplarPieces(m), m.unrecognized, ExemplarBytes(m));
  }

  function HistogramBytes(m: Histogram): seq<bytes> {
    [CountWire(0x08, 0x11, m.count),
     DoubleWire(0x19, m.sum),
     IntWire(0x20, ZigZag32(m.schema)),
     DoubleWire(0x29, m.zeroThreshold),
     CountWire(0x30, 0x39, m.zeroCount),
     Each(0x42, Map(EncodeSpan, m.negativeSpans)),
     PackedWire([0x4a], IntBytes(Map(ZigZag64, m.negativeDeltas))),
     PackedWire([0x52], DoubleBytes(m.negativeCounts)),
     Each(0x5a, Map(EncodeSpan, m.positiveSpans)),
     PackedWire([0x62], IntBytes(Map(ZigZag64, m.positiveDeltas))),
     PackedWire([0x6a], DoubleBytes(m.positiveCounts)),
     IntWire(0x70, U64(m.resetHint)),
     IntWire(0x78, U64(m.timestamp)),
     PackedWire([0x82, 0x01], DoubleBytes(m.customValues))]
  }

  lemma HistogramLowPieces(m: Histogram, k: nat)
    requires k < 7
    ensures EncodeFields(HistogramPiece(m, k)) == HistogramBytes(m)[k]
  {
    HistogramPieceList(m);
    hide EncodeFields, OptInt, OptInts, OptDouble, OptCount, Chunks, HistogramPiece;
    hide IntWire, DoubleWire, CountWire, PackedWire, Each, IntBytes, DoubleBytes, ZigZag32, ZigZag64, EncodeSpan, Map, U64;
    match k
    case 0 => CountPiece(1, 2, m.count);
    case 1 => DoublePiece(3, m.sum);
    case 2 => IntPiece(4, ZigZag32(m.schema));
    case 3 => DoublePiece(5, m.zeroThreshold);
    case 4 => CountPiece(6, 7, m.zeroCount);
    case 5 => ChunksPiece(8, Map(EncodeSpan, m.negativeSpans));
    case 6 => IntsPiece(9, Map(ZigZag64, m.negativeDeltas));
  }

  lemma HistogramHighPieces(m: Histogram, k: nat)
    requires 7 <= k < 14
    ensures EncodeFields(HistogramPiece(m, k)) == HistogramBytes(m)[k]
  {
    HistogramPieceList(m);
    hide EncodeFields, OptInt, OptInts, OptDoubles, Chunks, HistogramPiece;
    hide IntWire, DoubleWire, CountWire, PackedWire, Each, IntBytes, DoubleBytes, ZigZag32, ZigZag64, EncodeSpan, Map, U64;
    match k
    case 7 => DoublesPiece(10, m.negativeCounts);
    case 8 => ChunksPiece(11, Map(EncodeSpan, m.positiveSpans));
    case 9 => IntsPiece(12, Map(ZigZag64, m.positiveDeltas));
    case 10 => DoublesPiece(13, m.positiveCounts);
    case 11 => IntPiece(14, U64(m.resetHint));
    case 12 => IntPiece(15, U64(m.timestamp));
    case 13 => DoublesPiece(16, m.customValues);
  }

  lemma HistogramWire(m: Histogram)
    ensures EncodeHistogram(m) == Concat(HistogramBytes(m)) + m.unrecognized
  {
    hide EncodeFields, EncodePieces, Concat, HistogramPiece;
    var ps, qs := HistogramPieces(m), HistogramBytes(m);
    assert |qs| == 14;
    hide HistogramBytes, HistogramPieces;
    forall k | 0 <= k < 14 ensures EncodeFields(ps[k]) == qs[k] {
      if k < 7 {
        HistogramLowPieces(m, k);
      } else {
        HistogramHighPieces(m, k);
      }
    }
    PiecesAre(ps, m.unrecognized, qs);
  }

  function TimeSeriesBytes(m: TimeSeries): seq<bytes> {
    [PackedWire([0x0a], IntBytes(m.labelsRefs)),
     Each(0x12, Map(EncodeSample, m.samples)),
     Each(0x1a, Map(EncodeHistogram, m.histograms)),
     Each(0x22, Map(EncodeExemplar, m.exemplars)),
     Delimited([0x2a], EncodeMetadata(m.metadata)),
     IntWire(0x30, U64(m.createdTimestamp)),
     Each(0x3a, Map(EncodeLabel, m.labels))]
  }

  lemma TimeSeriesWire(m: TimeSeries)
    ensures EncodeTimeSeries(m) == Concat(TimeSeriesBytes(m)) + m.unrecognized
  {
    SeriesPieceList(m);
    hide EncodeFields, EncodePieces, Concat, OptInt, OptInts, Chunks, TimeSeriesPiece;
    hide IntWire, PackedWire, Delimited, Each, IntBytes, U64, Map;
    hide EncodeSample, EncodeHistogram, EncodeExemplar, EncodeMetadata, EncodeLabel;
    IntsPiece(1, m.labelsRefs);
    ChunksPiece(2, Map(EncodeSample, m.samples));
    ChunksPiece(3, Map(EncodeHistogram, m.histograms));
    ChunksPiece(4, Map(EncodeExemplar, m.exemplars));
    OneChunkPiece(5, EncodeMetadata(m.metadata));
    IntPiece(6, U64(m.createdTimestamp));
    ChunksPiece(7, Map(EncodeLabel, m.labels));
    PiecesAre(TimeSeriesPieces(m), m.unrecognized, TimeSeriesBytes(m));
  }

  lemma RequestWire(m: Request)
    ensures EncodeRequest(m) == Each(0x22, m.symbols) + Each(0x2a, Map(EncodeTimeSeries, m.timeseries)) + m.unrecognized
  {
    hide EncodeFields, EncodePieces, Chunks, Each, Map, EncodeTimeSeries;
    var a, b := Each(0x22, m.symbols), Each(0x2a, Map(EncodeTimeSeries, m.timeseries));
    ChunksPiece(4, m.symbols);
    ChunksPiece(5, Map(EncodeTimeSeries, m.timeseries));
    PiecesAre(RequestPieces(m), m.unrecognized, [a, b]);
    assert Concat([b]) == b && Concat([a, b]) == a + b;
  }
}
