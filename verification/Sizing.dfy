// Size() of every message: the generated accumulations, proved equal to the
// number of bytes that marshalling writes, at every nesting level.
module Sizing {
  import opened Words
  import opened Varints
  import opened Scalars
  import opened Fields
  import opened Decoding
  import opened Pieces
  import opened Messages

  // ---- one piece -----------------------------------------------------------

  lemma TagSize(num: nat, wireType: nat)
    requires 0 < num <= 16 && wireType < 8
    ensures |Tag(num, wireType)| == if num < 16 then 1 else 2
  {
    if num == 16 {
      assert Varint((128 + wireType) / 128) == [1];
    }
  }

  // The literal tag bytes of the generated marshallers.
  lemma TagBytes()
    ensures forall num, wireType :: 0 < num < 16 && 0 <= wireType < 8 ==> Tag(num, wireType) == [8 * num + wireType]
    ensures Tag(16, 2) == [0x82, 0x01]
  {
    assert Varint(1) == [1];
  }

  lemma OneField(f: Field)
    ensures EncodeFields([f]) == EncodeField(f)
  {
    assert [f][1..] == [];
  }

  lemma IntSize(num: nat, v: uint64)
    requires 0 < num < 16
    ensures |EncodeFields(OptInt(num, v))| == if v == 0 then 0 else 1 + Sov(v)
  {
    hide Varint, Sov;
    TagSize(num, 0);
    SovIsLength(v);
    OneField(IntField(num, v));
  }

  lemma DoubleSize(num: nat, bits: uint64)
    requires 0 < num < 16
    ensures |EncodeFields(OptDouble(num, bits))| == if IsZero(bits) then 0 else 9
  {
    hide Varint;
    TagSize(num, 1);
    OneField(DoubleField(num, bits));
  }

  lemma ChunkFieldSize(num: nat, s: bytes)
    requires 0 < num < 16
    ensures |EncodeField(ChunkField(num, s))| == 1 + |s| + Sov(|s|)
  {
    hide Varint, Sov;
    TagSize(num, 2);
    SovIsLength(|s|);
  }

  lemma IntsSize(num: nat, vs: seq<uint64>)
    requires 0 < num < 16
    ensures |EncodeFields(OptInts(num, vs))| ==
            if vs == [] then 0 else 1 + Sov(|IntBytes(vs)|) + |IntBytes(vs)|
  {
    hide Varint, Sov, IntBytes;
    TagSize(num, 2);
    SovIsLength(|IntBytes(vs)|);
    OneField(IntsField(num, vs));
  }

  lemma DoublesSize(num: nat, vs: seq<uint64>)
    requires 0 < num <= 16
    ensures |EncodeFields(OptDoubles(num, vs))| ==
            if vs == [] then 0 else (if num < 16 then 1 else 2) + Sov(8 * |vs|) + 8 * |vs|
  {
    hide Varint, Sov, DoubleBytes;
    TagSize(num, 2);
    SovIsLength(8 * |vs|);
    OneField(DoublesField(num, vs));
  }

  lemma CountSize(intNum: nat, floatNum: nat, c: Count)
    requires 0 < intNum < 16 && 0 < floatNum < 16
    ensures |EncodeFields(OptCount(intNum, floatNum, c))| ==
            match c case NoCount => 0 case CountInt(n) => 1 + Sov(n) case CountFloat(_) => 9
  {
    hide Varint, Sov;
    match c
    case NoCount =>
    case CountInt(n) =>
      TagSize(intNum, 0);
      SovIsLength(n);
      OneField(IntField(intNum, n));
    case CountFloat(bits) =>
      TagSize(floatNum, 1);
      OneField(DoubleField(floatNum, bits));
  }

  lemma ChunksFrom<E>(num: nat, enc: E -> bytes, xs: seq<E>, k: nat)
    requires 0 < num < 16 && k < |xs|
    ensures |EncodeFields(Chunks(num, Map(enc, xs[k..])))| ==
            1 + |enc(xs[k])| + Sov(|enc(xs[k])|) + |EncodeFields(Chunks(num, Map(enc, xs[k + 1..])))|
  {
    hide Varint, Sov, EncodeField;
    MapCons(enc, xs[k..]);
    assert xs[k..][1..] == xs[k + 1..];
    var ps, rest := Map(enc, xs[k..]), Map(enc, xs[k + 1..]);
    assert ps[1..] == rest;
    assert Chunks(num, ps)[1..] == Chunks(num, rest);
    ChunkFieldSize(num, enc(xs[k]));
  }

  lemma NoChunks<E>(num: nat, enc: E -> bytes)
    ensures |EncodeFields(Chunks(num, Map(enc, [])))| == 0
  {
  }

  lemma TwoPieces(ps: seq<seq<Field>>, u: bytes)
    requires |ps| == 2
    ensures |EncodePieces(ps, u)| == |EncodeFields(ps[0])| + |EncodeFields(ps[1])| + |u|
  {
    hide EncodeFields, EncodePieces;
    SizeOfPieces(ps, u);
    assert SizeUpTo(ps, 1) == |EncodeFields(ps[0])|;
  }

  lemma ThreePieces(ps: seq<seq<Field>>, u: bytes)
    requires |ps| == 3
    ensures |EncodePieces(ps, u)| == |EncodeFields(ps[0])| + |EncodeFields(ps[1])| + |EncodeFields(ps[2])| + |u|
  {
    hide EncodeFields, EncodePieces;
    SizeOfPieces(ps, u);
    assert SizeUpTo(ps, 1) == |EncodeFields(ps[0])|;
    assert SizeUpTo(ps, 2) == SizeUpTo(ps, 1) + |EncodeFields(ps[1])|;
  }

  // Oneof members are sized by their own Size().
  method SizeCount(intNum: nat, floatNum: nat, c: Count) returns (n: nat)
    requires 0 < intNum < 16 && 0 < floatNum < 16
    ensures n == |EncodeFields(OptCount(intNum, floatNum, c))|
  {
    CountSize(intNum, floatNum, c);
    match c {
      case NoCount => n := 0;
      case CountInt(v) => n := 1 + Sov(v);
      case CountFloat(_) => n := 9;
    }
  }

  // The payload of a packed varint list.
  method SizeInts(num: nat, vs: seq<uint64>) returns (n: nat)
    requires 0 < num < 16
    ensures n == |EncodeFields(OptInts(num, vs))|
  {
    hide Varint, Sov;
    n := 0;
    if |vs| > 0 {
      var l := 0;
      for k := 0 to |vs|
        invariant l + |IntBytes(vs[k..])| == |IntBytes(vs)|
      {
        SovIsLength(vs[k]);
        assert vs[k..][1..] == vs[k + 1..];
        l := l + Sov(vs[k]);
      }
      n := 1 + Sov(l) + l;
    }
    IntsSize(num, vs);
  }

  // Elements of a zigzag list are sized by sozTypes.
  method SizeDeltas(num: nat, deltas: seq<int64>) returns (n: nat)
    requires 0 < num < 16
    ensures n == |EncodeFields(OptInts(num, Map(ZigZag64, deltas)))|
  {
    hide Varint, Sov, ZigZag64;
    n := 0;
    ghost var vs := Map(ZigZag64, deltas);
    if |deltas| > 0 {
      var l := 0;
      for k := 0 to |deltas|
        invariant l + |IntBytes(vs[k..])| == |IntBytes(vs)|
      {
        SozIsLength(0, deltas[k]);
        assert vs[k..][1..] == vs[k + 1..];
        l := l + Soz(U64(deltas[k]));
      }
      n := 1 + Sov(l) + l;
    }
    IntsSize(num, vs);
  }

  // ---- the messages --------------------------------------------------------

  method SizeLabel(m: Label) returns (n: nat)
    ensures n == |EncodeLabel(m)|
  {
    n := 0;
    var l := |m.name|;
    if l > 0 {
      n := n + 1 + l + Sov(l);
    }
    l := |m.value|;
    if l > 0 {
      n := n + 1 + l + Sov(l);
    }
    n := n + |m.unrecognized|;
    LabelSize(m);
  }

  lemma LabelSize(m: Label)
    ensures |EncodeLabel(m)| == (if m.name == [] then 0 else 1 + |m.name| + Sov(|m.name|)) +
                                (if m.value == [] then 0 else 1 + |m.value| + Sov(|m.value|)) + |m.unrecognized|
  {
    hide EncodeField, EncodeFields, EncodePieces, Sov;
    assert |EncodeFields([])| == 0 by { NoChunks(1, Same); assert Chunks(1, Map(Same, [])) == []; }
    ChunkFieldSize(1, m.name);
    ChunkFieldSize(2, m.value);
    OneField(ChunkField(1, m.name));
    OneField(ChunkField(2, m.value));
    TwoPieces(LabelPieces(m), m.unrecognized);
  }

  method SizeSample(m: Sample) returns (n: nat)
    ensures n == |EncodeSample(m)|
  {
    hide EncodeFields, EncodePieces, Sov;
    ghost var ps := SamplePieces(m);
    n := 0;
    if !IsZero(m.value) {
      n := n + 9;
    }
    if m.timestamp != 0 {
      n := n + 1 + Sov(U64(m.timestamp));
    }
    DoubleSize(1, m.value);
    IntSize(2, U64(m.timestamp));
    n := n + |m.unrecognized|;
    TwoPieces(ps, m.unrecognized);
  }

  method SizeSpan(m: BucketSpan) returns (n: nat)
    ensures n == |EncodeSpan(m)|
  {
    hide EncodeFields, EncodePieces, Sov, Soz, ZigZag32;
    ghost var ps := SpanPieces(m);
    n := 0;
    if m.offset != 0 {
      n := n + 1 + Soz(U64(m.offset));
    }
    if m.length != 0 {
      n := n + 1 + Sov(m.length);
    }
    ZigZag32Inverts(m.offset);
    SozIsLength(m.offset, 0);
    SovIsLength(ZigZag32(m.offset));
    IntSize(1, ZigZag32(m.offset));
    IntSize(2, m.length);
    n := n + |m.unrecognized|;
    TwoPieces(ps, m.unrecognized);
  }

  method SizeMetadata(m: Metadata) returns (n: nat)
    ensures n == |EncodeMetadata(m)|
  {
    hide EncodeFields, EncodePieces, Sov;
    ghost var ps := MetadataPieces(m);
    n := 0;
    if m.kind != 0 {
      n := n + 1 + Sov(U64(m.kind));
    }
    if m.helpRef != 0 {
      n := n + 1 + Sov(m.helpRef);
    }
    if m.unitRef != 0 {
      n := n + 1 + Sov(m.unitRef);
    }
    IntSize(1, U64(m.kind));
    IntSize(3, m.helpRef);
    IntSize(4, m.unitRef);
    n := n + |m.unrecognized|;
    ThreePieces(ps, m.unrecognized);
  }

  method SizeExemplar(m: Exemplar) returns (n: nat)
    ensures n == |EncodeExemplar(m)|
  {
    hide EncodeFields, EncodePieces, Sov;
    ghost var ps := ExemplarPieces(m);
    n := SizeInts(1, m.labelsRefs);
    if !IsZero(m.value) {
      n := n + 9;
    }
    if m.timestamp != 0 {
      n := n + 1 + Sov(U64(m.timestamp));
    }
    DoubleSize(2, m.value);
    IntSize(3, U64(m.timestamp));
    n := n + |m.unrecognized|;
    ThreePieces(ps, m.unrecognized);
  }

  method SizeSpans(num: nat, xs: seq<BucketSpan>) returns (n: nat)
    requires 0 < num < 16
    ensures n == |EncodeFields(Chunks(num, Map(EncodeSpan, xs)))|
  {
    hide EncodeFields, EncodeSpan, Chunks, Map, Sov;
    n := 0;
    assert xs[0..] == xs;
    for k := 0 to |xs|
      invariant n + |EncodeFields(Chunks(num, Map(EncodeSpan, xs[k..])))| == |EncodeFields(Chunks(num, Map(EncodeSpan, xs)))|
    {
      ChunksFrom(num, EncodeSpan, xs, k);
      var l := SizeSpan(xs[k]);
      n := n + 1 + l + Sov(l);
    }
    assert xs[|xs|..] == [];
    NoChunks(num, EncodeSpan);
  }

  lemma NextPiece(ps: seq<seq<Field>>, k: nat)
    requires k < |ps|
    ensures SizeUpTo(ps, k + 1) == SizeUpTo(ps, k) + |EncodeFields(ps[k])|
  {
  }

  lemma SchemaSize(m: Histogram)
    ensures |EncodeFields(OptInt(4, ZigZag32(m.schema)))| == if m.schema == 0 then 0 else 1 + Soz(U64(m.schema))
  {
    hide EncodeFields, Sov, Soz, ZigZag32;
    ZigZag32Inverts(m.schema);
    SozIsLength(m.schema, 0);
    SovIsLength(ZigZag32(m.schema));
    IntSize(4, ZigZag32(m.schema));
  }

  // The size of a histogram is the sum over its fourteen fields.
  lemma HistogramSum(m: Histogram)
    ensures |EncodeHistogram(m)| ==
            |EncodeFields(OptCount(1, 2, m.count))| + |EncodeFields(OptDouble(3, m.sum))| +
            |EncodeFields(OptInt(4, ZigZag32(m.schema)))| + |EncodeFields(OptDouble(5, m.zeroThreshold))| +
            |EncodeFields(OptCount(6, 7, m.zeroCount))| + |EncodeFields(Chunks(8, Map(EncodeSpan, m.negativeSpans)))| +
            |EncodeFields(OptInts(9, Map(ZigZag64, m.negativeDeltas)))| + |EncodeFields(OptDoubles(10, m.negativeCounts))| +
            |EncodeFields(Chunks(11, Map(EncodeSpan, m.positiveSpans)))| +
            |EncodeFields(OptInts(12, Map(ZigZag64, m.positiveDeltas)))| + |EncodeFields(OptDoubles(13, m.positiveCounts))| +
            |EncodeFields(OptInt(14, U64(m.resetHint)))| + |EncodeFields(OptInt(15, U64(m.timestamp)))| +
            |EncodeFields(OptDoubles(16, m.customValues))| + |m.unrecognized|
  {
    hide EncodeFields, EncodePieces, ZigZag32, ZigZag64, Chunks, EncodeSpan, Map, SizeUpTo;
    hide OptInt, OptInts, OptDouble, OptDoubles, OptCount, U64;
    var ps := HistogramPieces(m);
    SizeOfPieces(ps, m.unrecognized);
    NoPieces(ps);
    NextPiece(ps, 0); NextPiece(ps, 1); NextPiece(ps, 2); NextPiece(ps, 3); NextPiece(ps, 4);
    NextPiece(ps, 5); NextPiece(ps, 6); NextPiece(ps, 7); NextPiece(ps, 8); NextPiece(ps, 9);
    NextPiece(ps, 10); NextPiece(ps, 11); NextPiece(ps, 12); NextPiece(ps, 13);
  }

  // if x != 0 { n += 9 }
  method SizeDouble(ghost num: nat, bits: uint64) returns (n: nat)
    requires 0 < num < 16
    ensures n == |EncodeFields(OptDouble(num, bits))|
  {
    DoubleSize(num, bits);
    n := 0;
    if !IsZero(bits) {
      n := 9;
    }
  }

  // if x != 0 { n += 1 + sovTypes(uint64(x)) }
  method SizeInt(ghost num: nat, x: int64) returns (n: nat)
    requires 0 < num < 16
    ensures n == |EncodeFields(OptInt(num, U64(x)))|
  {
    IntSize(num, U64(x));
    hide Sov, EncodeFields;
    n := 0;
    if x != 0 {
      n := 1 + Sov(U64(x));
    }
  }

  // if len(xs) > 0 { n += 1 + sovTypes(uint64(len(xs)*8)) + len(xs)*8 }, with
  // a two-byte tag from field 16 on.
  method SizeDoubles(num: nat, xs: seq<uint64>) returns (n: nat)
    requires 0 < num <= 16
    ensures n == |EncodeFields(OptDoubles(num, xs))|
  {
    DoublesSize(num, xs);
    hide Sov, EncodeFields;
    n := 0;
    if |xs| > 0 {
      n := (if num < 16 then 1 else 2) + Sov(|xs| * 8) + |xs| * 8;
    }
  }

  method SizeHistogram(m: Histogram) returns (n: nat)
    ensures n == |EncodeHistogram(m)|
  {
    hide *;
    n := SizeCount(1, 2, m.count);
    var l := SizeDouble(3, m.sum);
    n := n + l;
    SchemaSize(m);
    if m.schema != 0 {
      n := n + 1 + Soz(U64(m.schema));
    }
    l := SizeDouble(5, m.zeroThreshold);
    n := n + l;
    l := SizeCount(6, 7, m.zeroCount);
    n := n + l;
    l := SizeSpans(8, m.negativeSpans);
    n := n + l;
    l := SizeDeltas(9, m.negativeDeltas);
    n := n + l;
    l := SizeDoubles(10, m.negativeCounts);
    n := n + l;
    l := SizeSpans(11, m.positiveSpans);
    n := n + l;
    l := SizeDeltas(12, m.positiveDeltas);
    n := n + l;
    l := SizeDoubles(13, m.positiveCounts);
    n := n + l;
    l := SizeInt(14, m.resetHint);
    n := n + l;
    l := SizeInt(15, m.timestamp);
    n := n + l;
    l := SizeDoubles(16, m.customValues);
    n := n + l;
    n := n + |m.unrecognized|;
    HistogramSum(m);
  }

  lemma NoPieces(ps: seq<seq<Field>>)
    ensures SizeUpTo(ps, 0) == 0
  {
  }

  method SizeSamples(xs: seq<Sample>) returns (n: nat)
    ensures n == |EncodeFields(Chunks(2, Map(EncodeSample, xs)))|
  {
    hide EncodeFields, EncodeSample, Chunks, Map, Sov;
    n := 0;
    assert xs[0..] == xs;
    for k := 0 to |xs|
      invariant n + |EncodeFields(Chunks(2, Map(EncodeSample, xs[k..])))| == |EncodeFields(Chunks(2, Map(EncodeSample, xs)))|
    {
      ChunksFrom(2, EncodeSample, xs, k);
      var l := SizeSample(xs[k]);
      n := n + 1 + l + Sov(l);
    }
    assert xs[|xs|..] == [];
    NoChunks(2, EncodeSample);
  }

  method SizeHistograms(xs: seq<Histogram>) returns (n: nat)
    ensures n == |EncodeFields(Chunks(3, Map(EncodeHistogram, xs)))|
  {
    hide EncodeFields, EncodeHistogram, Chunks, Map, Sov;
    n := 0;
    assert xs[0..] == xs;
    for k := 0 to |xs|
      invariant n + |EncodeFields(Chunks(3, Map(EncodeHistogram, xs[k..])))| == |EncodeFields(Chunks(3, Map(EncodeHistogram, xs)))|
    {
      ChunksFrom(3, EncodeHistogram, xs, k);
      var l := SizeHistogram(xs[k]);
      n := n + 1 + l + Sov(l);
    }
    assert xs[|xs|..] == [];
    NoChunks(3, EncodeHistogram);
  }

  method SizeExemplars(xs: seq<Exemplar>) returns (n: nat)
    ensures n == |EncodeFields(Chunks(4, Map(EncodeExemplar, xs)))|
  {
    hide EncodeFields, EncodeExemplar, Chunks, Map, Sov;
    n := 0;
    assert xs[0..] == xs;
    for k := 0 to |xs|
      invariant n + |EncodeFields(Chunks(4, Map(EncodeExemplar, xs[k..])))| == |EncodeFields(Chunks(4, Map(EncodeExemplar, xs)))|
    {
      ChunksFrom(4, EncodeExemplar, xs, k);
      var l := SizeExemplar(xs[k]);
      n := n + 1 + l + Sov(l);
    }
    assert xs[|xs|..] == [];
    NoChunks(4, EncodeExemplar);
  }

  method SizeLabels(xs: seq<Label>) returns (n: nat)
    ensures n == |EncodeFields(Chunks(7, Map(EncodeLabel, xs)))|
  {
    hide EncodeFields, EncodeLabel, Chunks, Map, Sov;
    n := 0;
    assert xs[0..] == xs;
    for k := 0 to |xs|
      invariant n + |EncodeFields(Chunks(7, Map(EncodeLabel, xs[k..])))| == |EncodeFields(Chunks(7, Map(EncodeLabel, xs)))|
    {
      ChunksFrom(7, EncodeLabel, xs, k);
      var l := SizeLabel(xs[k]);
      n := n + 1 + l + Sov(l);
    }
    assert xs[|xs|..] == [];
    NoChunks(7, EncodeLabel);
  }

  // The size of a series is the sum over its seven fields.
  lemma SeriesSum(m: TimeSeries)
    ensures |EncodeTimeSeries(m)| ==
            |EncodeFields(OptInts(1, m.labelsRefs))| + |EncodeFields(Chunks(2, Map(EncodeSample, m.samples)))| +
            |EncodeFields(Chunks(3, Map(EncodeHistogram, m.histograms)))| +
            |EncodeFields(Chunks(4, Map(EncodeExemplar, m.exemplars)))| +
            |EncodeFields([ChunkField(5, EncodeMetadata(m.metadata))])| +
            |EncodeFields(OptInt(6, U64(m.createdTimestamp)))| +
            |EncodeFields(Chunks(7, Map(EncodeLabel, m.labels)))| + |m.unrecognized|
  {
    hide EncodeFields, EncodePieces, Chunks, Map, SizeUpTo, OptInt, OptInts, U64;
    hide EncodeSample, EncodeHistogram, EncodeExemplar, EncodeLabel, EncodeMetadata;
    var ps := TimeSeriesPieces(m);
    SizeOfPieces(ps, m.unrecognized);
    NoPieces(ps);
    NextPiece(ps, 0); NextPiece(ps, 1); NextPiece(ps, 2); NextPiece(ps, 3);
    NextPiece(ps, 4); NextPiece(ps, 5); NextPiece(ps, 6);
  }

  // Size() counts Labels (field 7), which the optimised marshaller never emits.
  method SizeTimeSeries(m: TimeSeries) returns (n: nat)
    ensures n == |EncodeTimeSeries(m)|
  {
    hide *;
    n := SizeInts(1, m.labelsRefs);
    var l := SizeSamples(m.samples);
    n := n + l;
    l := SizeHistograms(m.histograms);
    n := n + l;
    l := SizeExemplars(m.exemplars);
    n := n + l;
    l := SizeMetadata(m.metadata);
    n := n + 1 + l + Sov(l);
    ChunkFieldSize(5, EncodeMetadata(m.metadata));
    OneField(ChunkField(5, EncodeMetadata(m.metadata)));
    l := SizeInt(6, m.createdTimestamp);
    n := n + l;
    l := SizeLabels(m.labels);
    n := n + l;
    n := n + |m.unrecognized|;
    SeriesSum(m);
  }

  method SizeRequest(m: Request) returns (n: nat)
    ensures n == |EncodeRequest(m)|
  {
    hide EncodeFields, EncodePieces, EncodeTimeSeries, Chunks, Map, Sov;
    ghost var ps := RequestPieces(m);
    n := 0;
    var xs := m.symbols;
    assert xs[0..] == xs && Map(Same, xs) == xs by { MapSame(xs); }
    for k := 0 to |xs|
      invariant n + |EncodeFields(Chunks(4, Map(Same, xs[k..])))| == |EncodeFields(Chunks(4, xs))|
    {
      ChunksFrom(4, Same, xs, k);
      var l := |xs[k]|;
      n := n + 1 + l + Sov(l);
    }
    assert xs[|xs|..] == [];
    NoChunks(4, Same);
    ghost var n0 := n;
    var ts := m.timeseries;
    assert ts[0..] == ts;
    for k := 0 to |ts|
      invariant n + |EncodeFields(Chunks(5, Map(EncodeTimeSeries, ts[k..])))| ==
                n0 + |EncodeFields(Chunks(5, Map(EncodeTimeSeries, ts)))|
    {
      ChunksFrom(5, EncodeTimeSeries, ts, k);
      var l := SizeTimeSeries(ts[k]);
      n := n + 1 + l + Sov(l);
    }
    assert ts[|ts|..] == [];
    NoChunks(5, EncodeTimeSeries);
    n := n + |m.unrecognized|;
    TwoPieces(ps, m.unrecognized);
  }
}
