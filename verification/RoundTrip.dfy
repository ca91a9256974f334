// Unmarshal inverts Marshal on all eight message types.
module RoundTrip {
  import opened Words
  import opened Varints
  import opened Scalars
  import opened Fields
  import opened Decoding
  import opened Pieces
  import opened Messages

  // ---- what survives -------------------------------------------------------

  // Every XXX_unrecognized, at every level, is a sequence of whole fields
  // unknown to its message.
  ghost predicate LabelOk(m: Label) { UnknownBytes(LabelSchema, m.unrecognized) }
  ghost predicate SampleOk(m: Sample) { UnknownBytes(SampleSchema, m.unrecognized) }
  ghost predicate SpanOk(m: BucketSpan) { UnknownBytes(SpanSchema, m.unrecognized) }
  ghost predicate MetadataOk(m: Metadata) { UnknownBytes(MetadataSchema, m.unrecognized) }
  ghost predicate ExemplarOk(m: Exemplar) { UnknownBytes(ExemplarSchema, m.unrecognized) }
  ghost predicate HistogramOk(m: Histogram) {
    && UnknownBytes(HistogramSchema, m.unrecognized)
    && (forall x :: x in m.negativeSpans ==> SpanOk(x))
    && (forall x :: x in m.positiveSpans ==> SpanOk(x))
  }
  ghost predicate TimeSeriesOk(m: TimeSeries) {
    && UnknownBytes(TimeSeriesSchema, m.unrecognized)
    && (forall x :: x in m.samples ==> SampleOk(x))
    && (forall x :: x in m.histograms ==> HistogramOk(x))
    && (forall x :: x in m.exemplars ==> ExemplarOk(x))
    && MetadataOk(m.metadata)
    && (forall x :: x in m.labels ==> LabelOk(x))
  }
  ghost predicate RequestOk(m: Request) {
    && UnknownBytes(RequestSchema, m.unrecognized)
    && (forall x :: x in m.timeseries ==> TimeSeriesOk(x))
  }

  // A singular -0.0 is not written, so it comes back as +0.
  function PosZero(bits: uint64): uint64 { if bits == 0x8000_0000_0000_0000 then 0 else bits }

  function NormSample(m: Sample): Sample { m.(value := PosZero(m.value)) }
  function NormExemplar(m: Exemplar): Exemplar { m.(value := PosZero(m.value)) }
  function NormHistogram(m: Histogram): Histogram {
    m.(sum := PosZero(m.sum), zeroThreshold := PosZero(m.zeroThreshold))
  }
  function NormTimeSeries(m: TimeSeries): TimeSeries {
    m.(samples := Map(NormSample, m.samples),
       histograms := Map(NormHistogram, m.histograms),
       exemplars := Map(NormExemplar, m.exemplars))
  }
  function NormRequest(m: Request): Request { m.(timeseries := Map(NormTimeSeries, m.timeseries)) }

  // ---- folding one piece ---------------------------------------------------

  lemma FoldOne<M>(apply: (M, Field) -> Result<M>, m: M, f: Field)
    ensures Fold(apply, m, [f]) == apply(m, f)
  {
    if apply(m, f).Ok? {
      assert Fold(apply, apply(m, f).value, [f][1..]) == Ok(apply(m, f).value);
    }
  }

  lemma FoldOptInt<M>(apply: (M, Field) -> Result<M>, m: M, num: nat, v: uint64, m': M)
    requires if v == 0 then m' == m else apply(m, IntField(num, v)) == Ok(m')
    ensures Fold(apply, m, OptInt(num, v)) == Ok(m')
  {
    FoldOne(apply, m, IntField(num, v));
  }

  lemma FoldOptDouble<M>(apply: (M, Field) -> Result<M>, m: M, num: nat, bits: uint64, m': M)
    requires if IsZero(bits) then m' == m else apply(m, DoubleField(num, bits)) == Ok(m')
    ensures Fold(apply, m, OptDouble(num, bits)) == Ok(m')
  {
    FoldOne(apply, m, DoubleField(num, bits));
  }

  lemma FoldOptChunk<M>(apply: (M, Field) -> Result<M>, m: M, num: nat, s: bytes, m': M)
    requires if s == [] then m' == m else apply(m, ChunkField(num, s)) == Ok(m')
    ensures Fold(apply, m, OptChunk(num, s)) == Ok(m')
  {
    FoldOne(apply, m, ChunkField(num, s));
  }

  lemma FoldOptInts<M>(apply: (M, Field) -> Result<M>, m: M, num: nat, vs: seq<uint64>, m': M)
    requires if vs == [] then m' == m else apply(m, IntsField(num, vs)) == Ok(m')
    ensures Fold(apply, m, OptInts(num, vs)) == Ok(m')
  {
    FoldOne(apply, m, IntsField(num, vs));
  }

  lemma FoldOptDoubles<M>(apply: (M, Field) -> Result<M>, m: M, num: nat, vs: seq<uint64>, m': M)
    requires if vs == [] then m' == m else apply(m, DoublesField(num, vs)) == Ok(m')
    ensures Fold(apply, m, OptDoubles(num, vs)) == Ok(m')
  {
    FoldOne(apply, m, DoublesField(num, vs));
  }

  lemma FoldOptCount<M>(apply: (M, Field) -> Result<M>, m: M, intNum: nat, floatNum: nat, c: Count, m': M)
    requires match c
             case NoCount => m' == m
             case CountInt(n) => apply(m, IntField(intNum, n)) == Ok(m')
             case CountFloat(bits) => apply(m, DoubleField(floatNum, bits)) == Ok(m')
    ensures Fold(apply, m, OptCount(intNum, floatNum, c)) == Ok(m')
  {
    match c
    case NoCount =>
    case CountInt(n) => FoldOne(apply, m, IntField(intNum, n));
    case CountFloat(bits) => FoldOne(apply, m, DoubleField(floatNum, bits));
  }

  // add appends to one repeated field of a message.
  ghost predicate Adds<M(!new), E(!new)>(add: (M, seq<E>) -> M) {
    && (forall m: M, a: seq<E>, b: seq<E> :: add(add(m, a), b) == add(m, a + b))
    && (forall m: M :: add(m, []) == m)
  }

  // A repeated field: the elements are appended one by one.
  lemma {:induction false} FoldRepeated<M(!new), E(!new)>(
      apply: (M, Field) -> Result<M>, num: nat, enc: E -> bytes, norm: E -> E, add: (M, seq<E>) -> M, m: M, xs: seq<E>)
    requires forall m: M, x: E :: x in xs ==> apply(m, ChunkField(num, enc(x))) == Ok(add(m, [norm(x)]))
    requires Adds(add)
    ensures Fold(apply, m, Chunks(num, Map(enc, xs))) == Ok(add(m, Map(norm, xs)))
    decreases |xs|
  {
    if xs == [] {
      assert Map(enc, xs) == [] && Map(norm, xs) == [];
    } else {
      var m1 := add(m, [norm(xs[0])]);
      assert xs[0] in xs;
      FoldRepeated(apply, num, enc, norm, add, m1, xs[1..]);
      MapCons(enc, xs);
      MapCons(norm, xs);
      var rest := Chunks(num, Map(enc, xs[1..]));
      assert Map(enc, xs)[1..] == Map(enc, xs[1..]);
      assert Chunks(num, Map(enc, xs)) == [ChunkField(num, enc(xs[0]))] + rest;
      assert ([ChunkField(num, enc(xs[0]))] + rest)[1..] == rest;
    }
  }

  lemma {:induction false} ChunkSize(num: nat, ps: seq<bytes>, k: nat)
    requires k < |ps|
    ensures |ps[k]| < |EncodeFields(Chunks(num, ps))|
  {
    assert Chunks(num, ps)[1..] == Chunks(num, ps[1..]);
    if k > 0 {
      ChunkSize(num, ps[1..], k - 1);
    }
  }

  lemma {:induction false} ChunksFit(schema: Schema, num: nat, ps: seq<bytes>)
    requires 0 < num < 0x1000_0000 && schema(num) == Chunk
    ensures PieceFits(schema, Chunks(num, ps))
  {
    if ps != [] {
      ChunksFit(schema, num, ps[1..]);
    }
  }

  // ---- the flat messages ---------------------------------------------------

  lemma LabelRoundTrip(m: Label)
    requires LabelOk(m) && |EncodeLabel(m)| < TWO_63
    ensures DecodeLabel(EncodeLabel(m), NO_LABEL) == Ok(m)
  {
    hide UnknownBytes, Fold, Decode, EncodePieces;
    var m1 := NO_LABEL.(name := m.name);
    var m2 := m1.(value := m.value);
    FoldOptChunk(ApplyLabel, NO_LABEL, 1, m.name, m1);
    FoldOptChunk(ApplyLabel, m1, 2, m.value, m2);
    AppendLaws();
    assert Keeps(ApplyLabel, KeepLabel);
    DecodePieces(LabelSchema, ApplyLabel, KeepLabel, LabelPieces(m), m.unrecognized, [NO_LABEL, m1, m2]);
  }

  lemma SampleRoundTrip(m: Sample)
    requires SampleOk(m) && |EncodeSample(m)| < TWO_63
    ensures DecodeSample(EncodeSample(m), NO_SAMPLE) == Ok(NormSample(m))
  {
    hide UnknownBytes, Fold, Decode, EncodePieces;
    var m1 := NO_SAMPLE.(value := PosZero(m.value));
    var m2 := m1.(timestamp := m.timestamp);
    FoldOptDouble(ApplySample, NO_SAMPLE, 1, m.value, m1);
    FoldOptInt(ApplySample, m1, 2, U64(m.timestamp), m2);
    AppendLaws();
    assert Keeps(ApplySample, KeepSample);
    DecodePieces(SampleSchema, ApplySample, KeepSample, SamplePieces(m), m.unrecognized, [NO_SAMPLE, m1, m2]);
  }

  lemma SpanRoundTrip(m: BucketSpan)
    requires SpanOk(m) && |EncodeSpan(m)| < TWO_63
    ensures DecodeSpan(EncodeSpan(m), NO_SPAN) == Ok(m)
  {
    hide UnknownBytes, Fold, Decode, EncodePieces, ZigZag32, UnZigZag32;
    ZigZag32Inverts(m.offset);
    assert ZigZag32(m.offset) == 0 <==> m.offset == 0;
    var m1 := NO_SPAN.(offset := m.offset);
    var m2 := m1.(length := m.length);
    FoldOptInt(ApplySpan, NO_SPAN, 1, ZigZag32(m.offset), m1);
    FoldOptInt(ApplySpan, m1, 2, m.length, m2);
    AppendLaws();
    assert Keeps(ApplySpan, KeepSpan);
    DecodePieces(SpanSchema, ApplySpan, KeepSpan, SpanPieces(m), m.unrecognized, [NO_SPAN, m1, m2]);
  }

  lemma MetadataRoundTrip(m: Metadata)
    requires MetadataOk(m) && |EncodeMetadata(m)| < TWO_63
    ensures DecodeMetadata(EncodeMetadata(m), NO_METADATA) == Ok(m)
  {
    hide UnknownBytes, Fold, Decode, EncodePieces;
    NegativeEnum(m.kind);
    var m1 := NO_METADATA.(kind := m.kind);
    var m2 := m1.(helpRef := m.helpRef);
    var m3 := m2.(unitRef := m.unitRef);
    FoldOptInt(ApplyMetadata, NO_METADATA, 1, U64(m.kind), m1);
    FoldOptInt(ApplyMetadata, m1, 3, m.helpRef, m2);
    FoldOptInt(ApplyMetadata, m2, 4, m.unitRef, m3);
    AppendLaws();
    assert Keeps(ApplyMetadata, KeepMetadata);
    DecodePieces(MetadataSchema, ApplyMetadata, KeepMetadata, MetadataPieces(m), m.unrecognized, [NO_METADATA, m1, m2, m3]);
  }

  lemma ExemplarRoundTrip(m: Exemplar)
    requires ExemplarOk(m) && |EncodeExemplar(m)| < TWO_63
    ensures DecodeExemplar(EncodeExemplar(m), NO_EXEMPLAR) == Ok(NormExemplar(m))
  {
    hide UnknownBytes, Fold, Decode, EncodePieces;
    assert NO_EXEMPLAR.labelsRefs + Refs(m.labelsRefs) == m.labelsRefs;
    var m1 := NO_EXEMPLAR.(labelsRefs := m.labelsRefs);
    var m2 := m1.(value := PosZero(m.value));
    var m3 := m2.(timestamp := m.timestamp);
    FoldOptInts(ApplyExemplar, NO_EXEMPLAR, 1, m.labelsRefs, m1);
    FoldOptDouble(ApplyExemplar, m1, 2, m.value, m2);
    FoldOptInt(ApplyExemplar, m2, 3, U64(m.timestamp), m3);
    AppendLaws();
    assert Keeps(ApplyExemplar, KeepExemplar);
    DecodePieces(ExemplarSchema, ApplyExemplar, KeepExemplar, ExemplarPieces(m), m.unrecognized, [NO_EXEMPLAR, m1, m2, m3]);
  }

  // ---- the nested messages -------------------------------------------------

  function AddNegativeSpans(h: Histogram, xs: seq<BucketSpan>): Histogram {
    h.(negativeSpans := h.negativeSpans + xs)
  }

  function AddPositiveSpans(h: Histogram, xs: seq<BucketSpan>): Histogram {
    h.(positiveSpans := h.positiveSpans + xs)
  }

  lemma AddSpansLaws()
    ensures Adds(AddNegativeSpans) && Adds(AddPositiveSpans)
  {
    forall h: Histogram, a: seq<BucketSpan>, b: seq<BucketSpan>
      ensures AddNegativeSpans(AddNegativeSpans(h, a), b) == AddNegativeSpans(h, a + b)
      ensures AddPositiveSpans(AddPositiveSpans(h, a), b) == AddPositiveSpans(h, a + b)
    {
      assert h.negativeSpans + a + b == h.negativeSpans + (a + b);
      assert h.positiveSpans + a + b == h.positiveSpans + (a + b);
    }
    forall h: Histogram
      ensures AddNegativeSpans(h, []) == h && AddPositiveSpans(h, []) == h
    {
      assert h.negativeSpans + [] == h.negativeSpans && h.positiveSpans + [] == h.positiveSpans;
    }
  }

  lemma SpansRoundTrip(num: nat, h: Histogram, xs: seq<BucketSpan>)
    requires num == 8 || num == 11
    requires forall x :: x in xs ==> SpanOk(x)
    requires |EncodeFields(Chunks(num, Map(EncodeSpan, xs)))| < TWO_63
    ensures Fold(ApplyHistogram, h, Chunks(num, Map(EncodeSpan, xs))) ==
            Ok(if num == 8 then AddNegativeSpans(h, xs) else AddPositiveSpans(h, xs))
  {
    hide SpanOk, EncodeSpan, DecodeSpan, EncodeFields, Fold, Chunks, Adds;
    forall h: Histogram, x: BucketSpan | x in xs
      ensures num == 8 ==> ApplyHistogram(h, ChunkField(num, EncodeSpan(x))) == Ok(AddNegativeSpans(h, [Same(x)]))
      ensures num == 11 ==> ApplyHistogram(h, ChunkField(num, EncodeSpan(x))) == Ok(AddPositiveSpans(h, [Same(x)]))
    {
      var k :| 0 <= k < |xs| && xs[k] == x;
      ChunkSize(num, Map(EncodeSpan, xs), k);
      SpanRoundTrip(x);
    }
    AddSpansLaws();
    MapSame(xs);
    if num == 8 {
      FoldRepeated(ApplyHistogram, num, EncodeSpan, Same, AddNegativeSpans, h, xs);
    } else {
      FoldRepeated(ApplyHistogram, num, EncodeSpan, Same, AddPositiveSpans, h, xs);
    }
  }

  lemma AppendToNothing<T>(xs: seq<T>)
    ensures [] + xs == xs
  {
  }

  lemma DeltasReadBack(deltas: seq<int64>)
    ensures Map(UnZigZag64, Map(ZigZag64, deltas)) == deltas
  {
    forall k | 0 <= k < |deltas|
      ensures UnZigZag64(ZigZag64(deltas[k])) == deltas[k]
    {
      ZigZagInverts(deltas[k]);
    }
  }

  // The histogram after the first k pieces.
  function HistogramStage(m: Histogram, k: nat): Histogram {
    Histogram(
      if k > 0 then m.count else NoCount,
      if k > 1 then PosZero(m.sum) else 0,
      if k > 2 then m.schema else 0,
      if k > 3 then PosZero(m.zeroThreshold) else 0,
      if k > 4 then m.zeroCount else NoCount,
      if k > 5 then m.negativeSpans else [],
      if k > 6 then m.negativeDeltas else [],
      if k > 7 then m.negativeCounts else [],
      if k > 8 then m.positiveSpans else [],
      if k > 9 then m.positiveDeltas else [],
      if k > 10 then m.positiveCounts else [],
      if k > 11 then m.resetHint else 0,
      if k > 12 then m.timestamp else 0,
      if k > 13 then m.customValues else [],
      [])
  }

  ghost predicate HistogramStep(m: Histogram, k: nat) {
    Fold(ApplyHistogram, HistogramStage(m, k), HistogramPiece(m, k)) == Ok(HistogramStage(m, k + 1))
  }

  lemma HistogramScalarStep(m: Histogram, k: nat)
    requires k in {0, 1, 2, 3, 4, 11, 12}
    ensures HistogramStep(m, k)
  {
    hide Fold, ZigZag32, UnZigZag32, ZigZag64, EncodeSpan;
    var h, h' := HistogramStage(m, k), HistogramStage(m, k + 1);
    if k == 0 {
      FoldOptCount(ApplyHistogram, h, 1, 2, m.count, h');
    } else if k == 1 {
      FoldOptDouble(ApplyHistogram, h, 3, m.sum, h');
    } else if k == 2 {
      ZigZag32Inverts(m.schema);
      FoldOptInt(ApplyHistogram, h, 4, ZigZag32(m.schema), h');
    } else if k == 3 {
      FoldOptDouble(ApplyHistogram, h, 5, m.zeroThreshold, h');
    } else if k == 4 {
      FoldOptCount(ApplyHistogram, h, 6, 7, m.zeroCount, h');
    } else if k == 11 {
      NegativeEnum(m.resetHint);
      FoldOptInt(ApplyHistogram, h, 14, U64(m.resetHint), h');
    } else {
      FoldOptInt(ApplyHistogram, h, 15, U64(m.timestamp), h');
    }
  }

  lemma HistogramListStep(m: Histogram, k: nat)
    requires k in {6, 7, 9, 10, 13}
    ensures HistogramStep(m, k)
  {
    hide Fold, ZigZag32, ZigZag64, UnZigZag64, EncodeSpan;
    var h, h' := HistogramStage(m, k), HistogramStage(m, k + 1);
    AppendToNothing(m.negativeDeltas);
    AppendToNothing(m.positiveDeltas);
    AppendToNothing(m.negativeCounts);
    AppendToNothing(m.positiveCounts);
    AppendToNothing(m.customValues);
    if k == 6 {
      DeltasReadBack(m.negativeDeltas);
      FoldOptInts(ApplyHistogram, h, 9, Map(ZigZag64, m.negativeDeltas), h');
    } else if k == 7 {
      FoldOptDoubles(ApplyHistogram, h, 10, m.negativeCounts, h');
    } else if k == 9 {
      DeltasReadBack(m.positiveDeltas);
      FoldOptInts(ApplyHistogram, h, 12, Map(ZigZag64, m.positiveDeltas), h');
    } else if k == 10 {
      FoldOptDoubles(ApplyHistogram, h, 13, m.positiveCounts, h');
    } else {
      FoldOptDoubles(ApplyHistogram, h, 16, m.customValues, h');
    }
  }

  lemma HistogramPieceSize(m: Histogram, k: nat)
    requires k < 14
    ensures |EncodeFields(HistogramPiece(m, k))| <= |EncodeHistogram(m)|
  {
    hide EncodePieces, EncodeFields, HistogramPiece;
    PieceSize(HistogramPieces(m), m.unrecognized, k);
  }

  lemma SpanStages(m: Histogram)
    ensures HistogramStage(m, 6) == AddNegativeSpans(HistogramStage(m, 5), m.negativeSpans)
    ensures HistogramStage(m, 9) == AddPositiveSpans(HistogramStage(m, 8), m.positiveSpans)
  {
    AppendToNothing(m.negativeSpans);
    AppendToNothing(m.positiveSpans);
  }

  lemma HistogramSpanStep(m: Histogram, k: nat)
    requires HistogramOk(m) && |EncodeHistogram(m)| < TWO_63
    requires k in {5, 8}
    ensures HistogramStep(m, k)
  {
    HistogramPieceSize(m, k);
    SpanStages(m);
    HistogramPieceList(m);
    hide Fold, EncodeSpan, EncodeHistogram, EncodeFields, Chunks, SpanOk, UnknownBytes, HistogramPiece;
    hide HistogramStage, AddNegativeSpans, AddPositiveSpans, Map;
    if k == 5 {
      SpansRoundTrip(8, HistogramStage(m, 5), m.negativeSpans);
    } else {
      SpansRoundTrip(11, HistogramStage(m, 8), m.positiveSpans);
    }
  }

  lemma HistogramPieceFits(m: Histogram, k: nat)
    requires k < 14
    ensures PieceFits(HistogramSchema, HistogramPiece(m, k))
  {
    hide Chunks, ZigZag32, ZigZag64, EncodeSpan;
    if k == 5 {
      ChunksFit(HistogramSchema, 8, Map(EncodeSpan, m.negativeSpans));
    } else if k == 8 {
      ChunksFit(HistogramSchema, 11, Map(EncodeSpan, m.positiveSpans));
    }
  }

  lemma HistogramRoundTrip(m: Histogram)
    requires HistogramOk(m) && |EncodeHistogram(m)| < TWO_63
    ensures DecodeHistogram(EncodeHistogram(m), NO_HISTOGRAM) == Ok(NormHistogram(m))
  {
    hide UnknownBytes, Fold, Decode, EncodePieces, HistogramPiece, HistogramStage, HistogramStep, PieceFits;
    var ps, ms := HistogramPieces(m), seq(15, k requires 0 <= k < 15 => HistogramStage(m, k));
    forall k | 0 <= k < 14
      ensures Fold(ApplyHistogram, ms[k], ps[k]) == Ok(ms[k + 1]) && PieceFits(HistogramSchema, ps[k])
    {
      HistogramPieceFits(m, k);
      if k in {0, 1, 2, 3, 4, 11, 12} {
        HistogramScalarStep(m, k);
      } else if k in {6, 7, 9, 10, 13} {
        HistogramListStep(m, k);
      } else {
        HistogramSpanStep(m, k);
      }
      HistogramStepMeans(m, k);
    }
    HistogramEnds(m);
    AppendLaws();
    assert Keeps(ApplyHistogram, KeepHistogram);
    DecodePieces(HistogramSchema, ApplyHistogram, KeepHistogram, ps, m.unrecognized, ms);
  }

  lemma HistogramStepMeans(m: Histogram, k: nat)
    requires HistogramStep(m, k)
    ensures Fold(ApplyHistogram, HistogramStage(m, k), HistogramPiece(m, k)) == Ok(HistogramStage(m, k + 1))
  {
    hide Fold, HistogramStage, HistogramPiece;
  }

  lemma HistogramEnds(m: Histogram)
    ensures HistogramStage(m, 0) == NO_HISTOGRAM
    ensures HistogramStage(m, 14) == NormHistogram(m).(unrecognized := [])
  {
  }

  // ---- series and requests -------------------------------------------------

  function AddSamples(m: TimeSeries, xs: seq<Sample>): TimeSeries { m.(samples := m.samples + xs) }
  function AddHistograms(m: TimeSeries, xs: seq<Histogram>): TimeSeries { m.(histograms := m.histograms + xs) }
  function AddExemplars(m: TimeSeries, xs: seq<Exemplar>): TimeSeries { m.(exemplars := m.exemplars + xs) }
  function AddLabels(m: TimeSeries, xs: seq<Label>): TimeSeries { m.(labels := m.labels + xs) }
  // Append is associative and has a unit; as used for each repeated field.
  lemma SeqLaws<T>(s: seq<T>, a: seq<T>, b: seq<T>)
    ensures s + a + b == s + (a + b) && s + [] == s && [] + s == s
  {
  }

  lemma SeriesLaws()
    ensures Adds(AddSamples) && Adds(AddHistograms) && Adds(AddExemplars) && Adds(AddLabels)
  {
    forall m: TimeSeries, a, b ensures AddSamples(AddSamples(m, a), b) == AddSamples(m, a + b) {
      SeqLaws(m.samples, a, b);
    }
    forall m: TimeSeries, a, b ensures AddHistograms(AddHistograms(m, a), b) == AddHistograms(m, a + b) {
      SeqLaws(m.histograms, a, b);
    }
    forall m: TimeSeries, a, b ensures AddExemplars(AddExemplars(m, a), b) == AddExemplars(m, a + b) {
      SeqLaws(m.exemplars, a, b);
    }
    forall m: TimeSeries, a, b ensures AddLabels(AddLabels(m, a), b) == AddLabels(m, a + b) {
      SeqLaws(m.labels, a, b);
    }
    forall m: TimeSeries
      ensures AddSamples(m, []) == m && AddHistograms(m, []) == m && AddExemplars(m, []) == m && AddLabels(m, []) == m
    {
      SeqLaws(m.samples, [], []);
      SeqLaws(m.histograms, [], []);
      SeqLaws(m.exemplars, [], []);
      SeqLaws(m.labels, [], []);
    }
  }

  // Elements of a piece are shorter than the piece.
  lemma ElementSize<E>(num: nat, enc: E -> bytes, xs: seq<E>, x: E)
    requires x in xs
    ensures |enc(x)| < |EncodeFields(Chunks(num, Map(enc, xs)))|
  {
    hide EncodeFields, Chunks;
    var k :| 0 <= k < |xs| && xs[k] == x;
    ChunkSize(num, Map(enc, xs), k);
  }

  lemma SamplesRoundTrip(m: TimeSeries, xs: seq<Sample>)
    requires forall x :: x in xs ==> SampleOk(x)
    requires |EncodeFields(Chunks(2, Map(EncodeSample, xs)))| < TWO_63
    ensures Fold(ApplyTimeSeries, m, Chunks(2, Map(EncodeSample, xs))) == Ok(AddSamples(m, Map(NormSample, xs)))
  {
    hide SampleOk, EncodeSample, DecodeSample, EncodeFields, Fold, Chunks, Adds, NormSample;
    forall m: TimeSeries, x: Sample | x in xs
      ensures ApplyTimeSeries(m, ChunkField(2, EncodeSample(x))) == Ok(AddSamples(m, [NormSample(x)]))
    {
      ElementSize(2, EncodeSample, xs, x);
      SampleRoundTrip(x);
    }
    SeriesLaws();
    FoldRepeated(ApplyTimeSeries, 2, EncodeSample, NormSample, AddSamples, m, xs);
  }

  lemma HistogramsRoundTrip(m: TimeSeries, xs: seq<Histogram>)
    requires forall x :: x in xs ==> HistogramOk(x)
    requires |EncodeFields(Chunks(3, Map(EncodeHistogram, xs)))| < TWO_63
    ensures Fold(ApplyTimeSeries, m, Chunks(3, Map(EncodeHistogram, xs))) ==
            Ok(AddHistograms(m, Map(NormHistogram, xs)))
  {
    hide HistogramOk, EncodeHistogram, DecodeHistogram, EncodeFields, Fold, Chunks, Adds, NormHistogram;
    forall m: TimeSeries, x: Histogram | x in xs
      ensures ApplyTimeSeries(m, ChunkField(3, EncodeHistogram(x))) == Ok(AddHistograms(m, [NormHistogram(x)]))
    {
      ElementSize(3, EncodeHistogram, xs, x);
      HistogramRoundTrip(x);
    }
    SeriesLaws();
    FoldRepeated(ApplyTimeSeries, 3, EncodeHistogram, NormHistogram, AddHistograms, m, xs);
  }

  lemma ExemplarsRoundTrip(m: TimeSeries, xs: seq<Exemplar>)
    requires forall x :: x in xs ==> ExemplarOk(x)
    requires |EncodeFields(Chunks(4, Map(EncodeExemplar, xs)))| < TWO_63
    ensures Fold(ApplyTimeSeries, m, Chunks(4, Map(EncodeExemplar, xs))) ==
            Ok(AddExemplars(m, Map(NormExemplar, xs)))
  {
    hide ExemplarOk, EncodeExemplar, DecodeExemplar, EncodeFields, Fold, Chunks, Adds, NormExemplar;
    forall m: TimeSeries, x: Exemplar | x in xs
      ensures ApplyTimeSeries(m, ChunkField(4, EncodeExemplar(x))) == Ok(AddExemplars(m, [NormExemplar(x)]))
    {
      ElementSize(4, EncodeExemplar, xs, x);
      ExemplarRoundTrip(x);
    }
    SeriesLaws();
    FoldRepeated(ApplyTimeSeries, 4, EncodeExemplar, NormExemplar, AddExemplars, m, xs);
  }

  lemma LabelsRoundTrip(m: TimeSeries, xs: seq<Label>)
    requires forall x :: x in xs ==> LabelOk(x)
    requires |EncodeFields(Chunks(7, Map(EncodeLabel, xs)))| < TWO_63
    ensures Fold(ApplyTimeSeries, m, Chunks(7, Map(EncodeLabel, xs))) == Ok(AddLabels(m, xs))
  {
    hide LabelOk, EncodeLabel, DecodeLabel, EncodeFields, Fold, Chunks, Adds;
    forall m: TimeSeries, x: Label | x in xs
      ensures ApplyTimeSeries(m, ChunkField(7, EncodeLabel(x))) == Ok(AddLabels(m, [Same(x)]))
    {
      ElementSize(7, EncodeLabel, xs, x);
      LabelRoundTrip(x);
    }
    SeriesLaws();
    FoldRepeated(ApplyTimeSeries, 7, EncodeLabel, Same, AddLabels, m, xs);
    MapSame(xs);
  }

  // The series after the first k pieces.
  function SeriesStage(m: TimeSeries, k: nat): TimeSeries {
    TimeSeries(
      if k > 0 then m.labelsRefs else [],
      if k > 1 then Map(NormSample, m.samples) else [],
      if k > 2 then Map(NormHistogram, m.histograms) else [],
      if k > 3 then Map(NormExemplar, m.exemplars) else [],
      if k > 4 then m.metadata else NO_METADATA,
      if k > 5 then m.createdTimestamp else 0,
      if k > 6 then m.labels else [],
      [])
  }

  lemma SeriesStages(m: TimeSeries)
    ensures SeriesStage(m, 2) == AddSamples(SeriesStage(m, 1), Map(NormSample, m.samples))
    ensures SeriesStage(m, 3) == AddHistograms(SeriesStage(m, 2), Map(NormHistogram, m.histograms))
    ensures SeriesStage(m, 4) == AddExemplars(SeriesStage(m, 3), Map(NormExemplar, m.exemplars))
    ensures SeriesStage(m, 7) == AddLabels(SeriesStage(m, 6), m.labels)
  {
    hide Map;
    AppendToNothing(Map(NormSample, m.samples));
    AppendToNothing(Map(NormHistogram, m.histograms));
    AppendToNothing(Map(NormExemplar, m.exemplars));
    AppendToNothing(m.labels);
  }

  lemma SeriesPieceSize(m: TimeSeries, k: nat)
    requires k < 7
    ensures |EncodeFields(TimeSeriesPiece(m, k))| <= |EncodeTimeSeries(m)|
  {
    hide EncodePieces, EncodeFields, TimeSeriesPiece;
    PieceSize(TimeSeriesPieces(m), m.unrecognized, k);
  }

  lemma MetadataSize(m: TimeSeries)
    ensures |EncodeMetadata(m.metadata)| <= |EncodeTimeSeries(m)|
  {
    SeriesPieceSize(m, 4);
    hide EncodeMetadata, EncodeTimeSeries;
    var p := EncodeMetadata(m.metadata);
    assert EncodeFields([ChunkField(5, p)]) == EncodeField(ChunkField(5, p)) + EncodeFields([]) by {
      assert [ChunkField(5, p)][1..] == [];
    }
  }

  lemma SeriesSingularStep(m: TimeSeries, k: nat)
    requires TimeSeriesOk(m) && |EncodeTimeSeries(m)| < TWO_63 && k in {0, 4, 5}
    ensures Fold(ApplyTimeSeries, SeriesStage(m, k), TimeSeriesPiece(m, k)) == Ok(SeriesStage(m, k + 1))
  {
    MetadataSize(m);
    hide EncodeSample, EncodeHistogram, EncodeExemplar, EncodeLabel, Chunks, NormSample, NormHistogram, NormExemplar;
    hide Fold, EncodeFields, EncodeTimeSeries, EncodeMetadata, DecodeMetadata, MetadataOk, UnknownBytes, Map;
    var h, h' := SeriesStage(m, k), SeriesStage(m, k + 1);
    if k == 0 {
      assert [] + Refs(m.labelsRefs) == m.labelsRefs;
      FoldOptInts(ApplyTimeSeries, h, 1, m.labelsRefs, h');
    } else if k == 4 {
      MetadataRoundTrip(m.metadata);
      FoldOne(ApplyTimeSeries, h, ChunkField(5, EncodeMetadata(m.metadata)));
    } else {
      FoldOptInt(ApplyTimeSeries, h, 6, U64(m.createdTimestamp), h');
    }
  }

  lemma SeriesListStep(m: TimeSeries, k: nat)
    requires TimeSeriesOk(m) && |EncodeTimeSeries(m)| < TWO_63 && k in {1, 2, 3, 6}
    ensures Fold(ApplyTimeSeries, SeriesStage(m, k), TimeSeriesPiece(m, k)) == Ok(SeriesStage(m, k + 1))
  {
    SeriesPieceSize(m, k);
    SeriesPieceList(m);
    SeriesStages(m);
    hide Fold, EncodeFields, Chunks, EncodeTimeSeries, SeriesStage, UnknownBytes, Map, TimeSeriesPiece;
    hide TimeSeriesPieces, ApplyTimeSeries, NormSample, NormHistogram, NormExemplar, EncodeSample, EncodeHistogram;
    hide EncodeExemplar, EncodeLabel, EncodeMetadata;
    hide AddSamples, AddHistograms, AddExemplars, AddLabels, SampleOk, HistogramOk, ExemplarOk, LabelOk, MetadataOk;
    var h := SeriesStage(m, k);
    if k == 1 {
      SamplesRoundTrip(h, m.samples);
    } else if k == 2 {
      HistogramsRoundTrip(h, m.histograms);
    } else if k == 3 {
      ExemplarsRoundTrip(h, m.exemplars);
    } else {
      LabelsRoundTrip(h, m.labels);
    }
  }

  lemma SeriesPieceFits(m: TimeSeries, k: nat)
    requires k < 7
    ensures PieceFits(TimeSeriesSchema, TimeSeriesPiece(m, k))
  {
    hide Chunks, Map;
    match k
    case 1 => ChunksFit(TimeSeriesSchema, 2, Map(EncodeSample, m.samples));
    case 2 => ChunksFit(TimeSeriesSchema, 3, Map(EncodeHistogram, m.histograms));
    case 3 => ChunksFit(TimeSeriesSchema, 4, Map(EncodeExemplar, m.exemplars));
    case 6 => ChunksFit(TimeSeriesSchema, 7, Map(EncodeLabel, m.labels));
    case _ =>
  }

  lemma SeriesEnds(m: TimeSeries)
    ensures SeriesStage(m, 0) == NO_TIME_SERIES
    ensures SeriesStage(m, 7) == NormTimeSeries(m).(unrecognized := [])
  {
    hide Map;
  }

  lemma TimeSeriesRoundTrip(m: TimeSeries)
    requires TimeSeriesOk(m) && |EncodeTimeSeries(m)| < TWO_63
    ensures DecodeTimeSeries(EncodeTimeSeries(m), NO_TIME_SERIES) == Ok(NormTimeSeries(m))
  {
    hide UnknownBytes, Fold, Decode, EncodePieces, TimeSeriesPiece, SeriesStage, PieceFits, Map;
    hide SampleOk, HistogramOk, ExemplarOk, LabelOk, MetadataOk;
    var ps, ms := TimeSeriesPieces(m), seq(8, k requires 0 <= k < 8 => SeriesStage(m, k));
    forall k | 0 <= k < 7
      ensures Fold(ApplyTimeSeries, ms[k], ps[k]) == Ok(ms[k + 1]) && PieceFits(TimeSeriesSchema, ps[k])
    {
      SeriesPieceFits(m, k);
      if k in {0, 4, 5} {
        SeriesSingularStep(m, k);
      } else {
        SeriesListStep(m, k);
      }
    }
    SeriesEnds(m);
    AppendLaws();
    assert Keeps(ApplyTimeSeries, KeepTimeSeries);
    DecodePieces(TimeSeriesSchema, ApplyTimeSeries, KeepTimeSeries, ps, m.unrecognized, ms);
  }

  function AddSymbols(m: Request, xs: seq<bytes>): Request { m.(symbols := m.symbols + xs) }
  function AddTimeSeries(m: Request, xs: seq<TimeSeries>): Request { m.(timeseries := m.timeseries + xs) }
  lemma RequestLaws()
    ensures Adds(AddSymbols) && Adds(AddTimeSeries)
  {
    forall m: Request, a, b ensures AddSymbols(AddSymbols(m, a), b) == AddSymbols(m, a + b) {
      SeqLaws(m.symbols, a, b);
    }
    forall m: Request, a, b ensures AddTimeSeries(AddTimeSeries(m, a), b) == AddTimeSeries(m, a + b) {
      SeqLaws(m.timeseries, a, b);
    }
    forall m: Request ensures AddSymbols(m, []) == m && AddTimeSeries(m, []) == m {
      SeqLaws(m.symbols, [], []);
      SeqLaws(m.timeseries, [], []);
    }
  }

  lemma SymbolsRoundTrip(m: Request, xs: seq<bytes>)
    ensures Fold(ApplyRequest, m, Chunks(4, xs)) == Ok(AddSymbols(m, xs))
  {
    hide Fold, Chunks, Adds;
    RequestLaws();
    FoldRepeated(ApplyRequest, 4, Same, Same, AddSymbols, m, xs);
    MapSame(xs);
  }

  // enc is any marshaller of a series that its Unmarshal inverts.
  lemma ManySeriesRoundTrip(enc: TimeSeries -> bytes, m: Request, xs: seq<TimeSeries>)
    requires forall x :: x in xs ==> DecodeTimeSeries(enc(x), NO_TIME_SERIES) == Ok(NormTimeSeries(x))
    ensures Fold(ApplyRequest, m, Chunks(5, Map(enc, xs))) == Ok(AddTimeSeries(m, Map(NormTimeSeries, xs)))
  {
    hide DecodeTimeSeries, Fold, Chunks, Adds, NormTimeSeries;
    RequestLaws();
    FoldRepeated(ApplyRequest, 5, enc, NormTimeSeries, AddTimeSeries, m, xs);
  }

  lemma RequestWithSeries(enc: TimeSeries -> bytes, m: Request)
    requires UnknownBytes(RequestSchema, m.unrecognized)
    requires forall x :: x in m.timeseries ==> DecodeTimeSeries(enc(x), NO_TIME_SERIES) == Ok(NormTimeSeries(x))
    requires |EncodePieces([Chunks(4, m.symbols), Chunks(5, Map(enc, m.timeseries))], m.unrecognized)| < TWO_63
    ensures DecodeRequest(EncodePieces([Chunks(4, m.symbols), Chunks(5, Map(enc, m.timeseries))], m.unrecognized), NO_REQUEST)
            == Ok(NormRequest(m))
  {
    hide UnknownBytes, Fold, Decode, EncodePieces, Map, DecodeTimeSeries, Chunks, PieceFits;
    var ps := [Chunks(4, m.symbols), Chunks(5, Map(enc, m.timeseries))];
    var m1 := AddSymbols(NO_REQUEST, m.symbols);
    var m2 := AddTimeSeries(m1, Map(NormTimeSeries, m.timeseries));
    SymbolsRoundTrip(NO_REQUEST, m.symbols);
    ManySeriesRoundTrip(enc, m1, m.timeseries);
    ChunksFit(RequestSchema, 4, m.symbols);
    ChunksFit(RequestSchema, 5, Map(enc, m.timeseries));
    AppendLaws();
    assert Keeps(ApplyRequest, KeepRequest);
    AppendToNothing(m.symbols);
    AppendToNothing(Map(NormTimeSeries, m.timeseries));
    DecodePieces(RequestSchema, ApplyRequest, KeepRequest, ps, m.unrecognized, [NO_REQUEST, m1, m2]);
  }

  // Unmarshal(Marshal(m)) into an empty message is m, up to singular -0.0.
  lemma RequestRoundTrip(m: Request)
    requires RequestOk(m) && |EncodeRequest(m)| < TWO_63
    ensures DecodeRequest(EncodeRequest(m), NO_REQUEST) == Ok(NormRequest(m))
  {
    var ps := RequestPieces(m);
    PieceSize(ps, m.unrecognized, 1);
    hide UnknownBytes, EncodePieces, EncodeFields, DecodeRequest, TimeSeriesOk, Map, Chunks;
    forall x | x in m.timeseries
      ensures DecodeTimeSeries(EncodeTimeSeries(x), NO_TIME_SERIES) == Ok(NormTimeSeries(x))
    {
      ElementSize(5, EncodeTimeSeries, m.timeseries, x);
      TimeSeriesRoundTrip(x);
    }
    RequestWithSeries(EncodeTimeSeries, m);
  }
}
