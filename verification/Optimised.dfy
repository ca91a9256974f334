// The optimised marshaller: label refs are written in place, downwards, and
// reversed; exemplars come before histograms; Labels are never written.
module Optimised {
  import opened Words
  import opened Varints
  import opened Scalars
  import opened Fields
  import opened Decoding
  import opened Pieces
  import opened Messages
  import opened RoundTrip
  import opened Sizing
  import opened Writing
  import opened Marshalling
  import opened WireFormat

  // ---- what it writes ------------------------------------------------------

  function FastPiece(m: TimeSeries, k: nat): seq<Field> {
    match k
    case 0 => OptInts(1, m.labelsRefs)
    case 1 => Chunks(2, Map(EncodeSample, m.samples))
    case 2 => Chunks(4, Map(EncodeExemplar, m.exemplars))
    case 3 => Chunks(3, Map(EncodeHistogram, m.histograms))
    case 4 => [ChunkField(5, EncodeMetadata(m.metadata))]
    case 5 => OptInt(6, U64(m.createdTimestamp))
    case _ => []
  }

  function FastPieces(m: TimeSeries): (ps: seq<seq<Field>>)
    ensures |ps| == 6 && forall k :: 0 <= k < 6 ==> ps[k] == FastPiece(m, k)
  {
    seq(6, k requires 0 <= k < 6 => FastPiece(m, k))
  }

  function FastEncodeSeries(m: TimeSeries): bytes { EncodePieces(FastPieces(m), m.unrecognized) }

  function FastRequestPieces(m: Request): seq<seq<Field>> {
    [Chunks(4, m.symbols), Chunks(5, Map(FastEncodeSeries, m.timeseries))]
  }

  function FastEncode(m: Request): bytes { EncodePieces(FastRequestPieces(m), m.unrecognized) }

  predicate NoLabels(m: Request) {
    forall x :: x in m.timeseries ==> x.labels == []
  }

  // ---- sizes ---------------------------------------------------------------

  lemma FastSum(m: TimeSeries)
    ensures |FastEncodeSeries(m)| ==
            |EncodeFields(OptInts(1, m.labelsRefs))| + |EncodeFields(Chunks(2, Map(EncodeSample, m.samples)))| +
            |EncodeFields(Chunks(4, Map(EncodeExemplar, m.exemplars)))| +
            |EncodeFields(Chunks(3, Map(EncodeHistogram, m.histograms)))| +
            |EncodeFields([ChunkField(5, EncodeMetadata(m.metadata))])| +
            |EncodeFields(OptInt(6, U64(m.createdTimestamp)))| + |m.unrecognized|
  {
    hide EncodeFields, EncodePieces, Chunks, Map, SizeUpTo, OptInt, OptInts, U64;
    hide EncodeSample, EncodeHistogram, EncodeExemplar, EncodeLabel, EncodeMetadata;
    var ps := FastPieces(m);
    SizeOfPieces(ps, m.unrecognized);
    NoPieces(ps);
    NextPiece(ps, 0); NextPiece(ps, 1); NextPiece(ps, 2); NextPiece(ps, 3); NextPiece(ps, 4); NextPiece(ps, 5);
  }

  lemma FastSeriesSize(m: TimeSeries)
    ensures |EncodeTimeSeries(m)| == |FastEncodeSeries(m)| + |EncodeFields(Chunks(7, Map(EncodeLabel, m.labels)))|
    ensures m.labels == [] <==> |EncodeTimeSeries(m)| == |FastEncodeSeries(m)|
  {
    SeriesSum(m);
    FastSum(m);
    if m.labels != [] {
      ElementSize(7, EncodeLabel, m.labels, m.labels[0]);
    } else {
      NoChunks(7, EncodeLabel);
    }
    hide *;
  }

  lemma VarintGrows(a: nat, b: nat)
    requires a <= b
    ensures |Varint(a)| <= |Varint(b)|
  {
    if a >= 128 {
      VarintGrows(a / 128, b / 128);
    }
  }

  // Two lists of payloads, each no longer than its counterpart.
  lemma {:induction false} ChunksGrow(num: nat, ps: seq<bytes>, qs: seq<bytes>)
    requires |ps| == |qs| && forall k :: 0 <= k < |ps| ==> |ps[k]| <= |qs[k]|
    ensures |EncodeFields(Chunks(num, ps))| <= |EncodeFields(Chunks(num, qs))|
    ensures |EncodeFields(Chunks(num, ps))| == |EncodeFields(Chunks(num, qs))|
            ==> forall k :: 0 <= k < |ps| ==> |ps[k]| == |qs[k]|
  {
    if ps != [] {
      hide Varint, Tag;
      VarintGrows(|ps[0]|, |qs[0]|);
      ChunksGrow(num, ps[1..], qs[1..]);
      assert Chunks(num, ps)[1..] == Chunks(num, ps[1..]);
      assert Chunks(num, qs)[1..] == Chunks(num, qs[1..]);
      forall k | 0 < k < |ps| && |EncodeFields(Chunks(num, ps))| == |EncodeFields(Chunks(num, qs))|
        ensures |ps[k]| == |qs[k]|
      {
        assert |ps[1..][k - 1]| == |qs[1..][k - 1]|;
      }
    }
  }

  // Size() is reached exactly when no series has Labels; else it is too big.
  lemma FastSize(m: Request)
    ensures |FastEncode(m)| <= |EncodeRequest(m)|
    ensures |FastEncode(m)| == |EncodeRequest(m)| <==> NoLabels(m)
  {
    hide EncodeFields, EncodePieces, FastEncodeSeries, EncodeTimeSeries, Chunks;
    var ps, qs := Map(FastEncodeSeries, m.timeseries), Map(EncodeTimeSeries, m.timeseries);
    forall k | 0 <= k < |ps|
      ensures |ps[k]| <= |qs[k]| && (|ps[k]| == |qs[k]| <==> m.timeseries[k].labels == [])
    {
      FastSeriesSize(m.timeseries[k]);
    }
    ChunksGrow(5, ps, qs);
    TwoPieces(FastRequestPieces(m), m.unrecognized);
    TwoPieces(RequestPieces(m), m.unrecognized);
    if NoLabels(m) {
      forall k | 0 <= k < |ps| ensures |qs[k]| <= |ps[k]| {
        assert m.timeseries[k] in m.timeseries;
      }
      ChunksGrow(5, qs, ps);
    } else {
      var x :| x in m.timeseries && x.labels != [];
      var k :| 0 <= k < |m.timeseries| && m.timeseries[k] == x;
      assert |ps[k]| != |qs[k]|;
    }
  }

  // ---- decoding ------------------------------------------------------------

  function FastStage(m: TimeSeries, k: nat): TimeSeries {
    TimeSeries(
      if k > 0 then m.labelsRefs else [],
      if k > 1 then Map(NormSample, m.samples) else [],
      if k > 3 then Map(NormHistogram, m.histograms) else [],
      if k > 2 then Map(NormExemplar, m.exemplars) else [],
      if k > 4 then m.metadata else NO_METADATA,
      if k > 5 then m.createdTimestamp else 0,
      [], [])
  }

  lemma FastStages(m: TimeSeries)
    ensures FastStage(m, 0) == NO_TIME_SERIES
    ensures FastStage(m, 2) == AddSamples(FastStage(m, 1), Map(NormSample, m.samples))
    ensures FastStage(m, 3) == AddExemplars(FastStage(m, 2), Map(NormExemplar, m.exemplars))
    ensures FastStage(m, 4) == AddHistograms(FastStage(m, 3), Map(NormHistogram, m.histograms))
    ensures m.labels == [] ==> FastStage(m, 6) == NormTimeSeries(m).(unrecognized := [])
  {
    hide Map;
    AppendToNothing(Map(NormSample, m.samples));
    AppendToNothing(Map(NormHistogram, m.histograms));
    AppendToNothing(Map(NormExemplar, m.exemplars));
  }

  lemma FastPieceSize(m: TimeSeries, k: nat)
    requires k < 6
    ensures |EncodeFields(FastPiece(m, k))| <= |FastEncodeSeries(m)|
  {
    hide EncodePieces, EncodeFields, FastPiece;
    PieceSize(FastPieces(m), m.unrecognized, k);
  }

  lemma FastSingularStep(m: TimeSeries, k: nat)
    requires MetadataOk(m.metadata) && |EncodeMetadata(m.metadata)| < TWO_63 && k in {0, 4, 5}
    ensures Fold(ApplyTimeSeries, FastStage(m, k), FastPiece(m, k)) == Ok(FastStage(m, k + 1))
  {
    hide EncodeSample, EncodeHistogram, EncodeExemplar, EncodeLabel, Chunks, NormSample, NormHistogram, NormExemplar;
    hide Fold, EncodeFields, EncodeMetadata, DecodeMetadata, MetadataOk, Map;
    var h, h' := FastStage(m, k), FastStage(m, k + 1);
    if k == 0 {
      assert [] + Refs(m.labelsRefs) == m.labelsRefs;
      FoldOptInts(ApplyTimeSeries, h, 1, m.labelsRefs, h');
    } else if k == 4 {
      MetadataRoundTrip(m.metadata);
      FoldOne(ApplyTimeSeries, h, ChunkField(5, EncodeMetadata(m.metadata)));
    } else {
      FoldOptInt(ApplyTimeSeries, h, 6, U64(m.createdTimestamp), h');
    }
  }

  lemma FastListStep(m: TimeSeries, k: nat)
    requires TimeSeriesOk(m) && |FastEncodeSeries(m)| < TWO_63 && k in {1, 2, 3}
    ensures Fold(ApplyTimeSeries, FastStage(m, k), FastPiece(m, k)) == Ok(FastStage(m, k + 1))
  {
    FastPieceSize(m, k);
    FastStages(m);
    hide Fold, EncodeFields, Chunks, FastEncodeSeries, FastStage, Decoding.UnknownBytes, Map;
    hide AddSamples, AddHistograms, AddExemplars, SampleOk, HistogramOk, ExemplarOk, LabelOk, MetadataOk;
    var h := FastStage(m, k);
    if k == 1 {
      SamplesRoundTrip(h, m.samples);
    } else if k == 2 {
      ExemplarsRoundTrip(h, m.exemplars);
    } else {
      HistogramsRoundTrip(h, m.histograms);
    }
  }

  lemma FastPieceFits(m: TimeSeries, k: nat)
    requires k < 6
    ensures PieceFits(TimeSeriesSchema, FastPiece(m, k))
  {
    hide Chunks, Map;
    match k
    case 1 => ChunksFit(TimeSeriesSchema, 2, Map(EncodeSample, m.samples));
    case 2 => ChunksFit(TimeSeriesSchema, 4, Map(EncodeExemplar, m.exemplars));
    case 3 => ChunksFit(TimeSeriesSchema, 3, Map(EncodeHistogram, m.histograms));
    case _ =>
  }

  lemma FastSeriesRoundTrip(m: TimeSeries)
    requires TimeSeriesOk(m) && m.labels == [] && |EncodeTimeSeries(m)| < TWO_63
    ensures DecodeTimeSeries(FastEncodeSeries(m), NO_TIME_SERIES) == Ok(NormTimeSeries(m))
  {
    FastSeriesSize(m);
    MetadataSize(m);
    FastStages(m);
    hide UnknownBytes, Fold, Decode, EncodePieces, EncodeTimeSeries, FastPiece, FastStage, PieceFits, Map;
    hide SampleOk, HistogramOk, ExemplarOk, LabelOk, MetadataOk, EncodeMetadata;
    var ps, ms := FastPieces(m), seq(7, k requires 0 <= k < 7 => FastStage(m, k));
    forall k | 0 <= k < 6
      ensures Fold(ApplyTimeSeries, ms[k], ps[k]) == Ok(ms[k + 1]) && PieceFits(TimeSeriesSchema, ps[k])
    {
      FastPieceFits(m, k);
      if k in {0, 4, 5} {
        FastSingularStep(m, k);
      } else {
        FastListStep(m, k);
      }
    }
    AppendLaws();
    assert Keeps(ApplyTimeSeries, KeepTimeSeries);
    DecodePieces(TimeSeriesSchema, ApplyTimeSeries, KeepTimeSeries, ps, m.unrecognized, ms);
  }

  // Without Labels the fast bytes decode to the same message as the slow ones.
  lemma FastRoundTrip(m: Request)
    requires RequestOk(m) && NoLabels(m) && |EncodeRequest(m)| < TWO_63
    ensures DecodeRequest(FastEncode(m), NO_REQUEST) == Ok(NormRequest(m))
    ensures DecodeRequest(FastEncode(m), NO_REQUEST) == DecodeRequest(EncodeRequest(m), NO_REQUEST)
  {
    RequestRoundTrip(m);
    FastSize(m);
    PieceSize(RequestPieces(m), m.unrecognized, 1);
    hide UnknownBytes, EncodePieces, EncodeFields, DecodeRequest, TimeSeriesOk, Map, Chunks;
    forall x | x in m.timeseries
      ensures DecodeTimeSeries(FastEncodeSeries(x), NO_TIME_SERIES) == Ok(NormTimeSeries(x))
    {
      ElementSize(5, EncodeTimeSeries, m.timeseries, x);
      FastSeriesRoundTrip(x);
    }
    RequestWithSeries(FastEncodeSeries, m);
  }

  // ---- when the bytes are the same -----------------------------------------

  lemma Cancel(a: bytes, x: bytes, b: bytes, y: bytes)
    requires a + x == b + y && |a| == |b|
    ensures a == b && x == y
  {
    assert a == (a + x)[..|a|] == (b + y)[..|b|] == b;
    assert x == (a + x)[|a|..] == (b + y)[|b|..] == y;
  }

  lemma SamePayload(num: nat, p: bytes, x: bytes, q: bytes, y: bytes)
    requires |p| == |q| && EncodeField(ChunkField(num, p)) + x == EncodeField(ChunkField(num, q)) + y
    ensures p == q && x == y
  {
    hide Varint, Tag;
    Cancel(EncodeField(ChunkField(num, p)), x, EncodeField(ChunkField(num, q)), y);
    Cancel(Tag(num, 2), Prefixed(p), Tag(num, 2), Prefixed(q));
    Cancel(Varint(|p|), p, Varint(|q|), q);
  }

  lemma {:induction false} SamePayloads(num: nat, ps: seq<bytes>, qs: seq<bytes>)
    requires |ps| == |qs| && forall k :: 0 <= k < |ps| ==> |ps[k]| == |qs[k]|
    requires EncodeFields(Chunks(num, ps)) == EncodeFields(Chunks(num, qs))
    ensures ps == qs
  {
    if ps != [] {
      hide EncodeField;
      assert Chunks(num, ps)[1..] == Chunks(num, ps[1..]);
      assert Chunks(num, qs)[1..] == Chunks(num, qs[1..]);
      SamePayload(num, ps[0], EncodeFields(Chunks(num, ps[1..])), qs[0], EncodeFields(Chunks(num, qs[1..])));
      SamePayloads(num, ps[1..], qs[1..]);
      assert ps == [ps[0]] + ps[1..] && qs == [qs[0]] + qs[1..];
    }
  }

  lemma FirstByte(num: nat, ps: seq<bytes>)
    requires 0 < num < 16 && ps != []
    ensures |EncodeFields(Chunks(num, ps))| > 0 && EncodeFields(Chunks(num, ps))[0] == 8 * num + 2
  {
    assert Tag(num, 2) == [8 * num + 2];
    hide Varint, Prefixed;
  }

  // What follows the lists that the two layouts swap.
  function SeriesRest(m: TimeSeries): bytes {
    EncodeFields([ChunkField(5, EncodeMetadata(m.metadata))]) +
    (EncodeFields(OptInt(6, U64(m.createdTimestamp))) + m.unrecognized)
  }

  lemma SlowRest(m: TimeSeries)
    requires m.labels == []
    ensures Tail(TimeSeriesPieces(m), 4, m.unrecognized) == SeriesRest(m)
  {
    NoChunks(7, EncodeLabel);
    var t7 := EncodeFields(Chunks(7, Map(EncodeLabel, m.labels)));
    assert t7 == [] && t7 + m.unrecognized == m.unrecognized;
    hide EncodeFields, Tail, OptInt, OptInts, Chunks, Map, U64, EncodeMetadata, TimeSeriesPiece, TimeSeriesPieces;
    SeriesPieceList(m);
    SeriesTailEnds(m);
    SeriesTail(m, 4); SeriesTail(m, 5); SeriesTail(m, 6);
  }

  lemma SlowLayout(m: TimeSeries)
    requires m.labels == []
    ensures EncodeTimeSeries(m) ==
            EncodeFields(OptInts(1, m.labelsRefs)) + (EncodeFields(Chunks(2, Map(EncodeSample, m.samples))) +
            (EncodeFields(Chunks(3, Map(EncodeHistogram, m.histograms))) +
            (EncodeFields(Chunks(4, Map(EncodeExemplar, m.exemplars))) + SeriesRest(m))))
  {
    hide *;
    SlowRest(m);
    SeriesPieceList(m);
    SeriesTailEnds(m);
    SeriesTail(m, 0); SeriesTail(m, 1); SeriesTail(m, 2); SeriesTail(m, 3);
  }

  lemma FastPieceList(m: TimeSeries)
    ensures FastPiece(m, 0) == OptInts(1, m.labelsRefs)
    ensures FastPiece(m, 1) == Chunks(2, Map(EncodeSample, m.samples))
    ensures FastPiece(m, 2) == Chunks(4, Map(EncodeExemplar, m.exemplars))
    ensures FastPiece(m, 3) == Chunks(3, Map(EncodeHistogram, m.histograms))
    ensures FastPiece(m, 4) == [ChunkField(5, EncodeMetadata(m.metadata))]
    ensures FastPiece(m, 5) == OptInt(6, U64(m.createdTimestamp))
  {
    hide OptInt, OptInts, Chunks, Map, U64, EncodeMetadata;
  }

  lemma FastTail(m: TimeSeries, k: nat)
    requires k < 6
    ensures Tail(FastPieces(m), k, m.unrecognized) ==
            EncodeFields(FastPiece(m, k)) + Tail(FastPieces(m), k + 1, m.unrecognized)
    ensures |Tail(FastPieces(m), k, m.unrecognized)| <= |FastEncodeSeries(m)|
  {
    hide Tail, EncodeFields, EncodePieces, FastPiece;
    TailStep(FastPieces(m), k, m.unrecognized);
    TailFits(FastPieces(m), k, m.unrecognized);
  }

  lemma FastTailEnds(m: TimeSeries)
    ensures Tail(FastPieces(m), 6, m.unrecognized) == m.unrecognized + [] == m.unrecognized
    ensures Tail(FastPieces(m), 0, m.unrecognized) == FastEncodeSeries(m)
    ensures |m.unrecognized| <= |FastEncodeSeries(m)|
  {
    hide Tail, EncodePieces, FastPiece;
    TailEnds(FastPieces(m), m.unrecognized);
    TailFits(FastPieces(m), 6, m.unrecognized);
  }

  lemma FastRest(m: TimeSeries)
    ensures Tail(FastPieces(m), 4, m.unrecognized) == SeriesRest(m)
  {
    hide EncodeFields, Tail, OptInt, OptInts, Chunks, Map, U64, EncodeMetadata, FastPiece, FastPieces;
    FastPieceList(m);
    FastTailEnds(m);
    FastTail(m, 4); FastTail(m, 5);
  }

  lemma FastLayout(m: TimeSeries)
    ensures FastEncodeSeries(m) ==
            EncodeFields(OptInts(1, m.labelsRefs)) + (EncodeFields(Chunks(2, Map(EncodeSample, m.samples))) +
            (EncodeFields(Chunks(4, Map(EncodeExemplar, m.exemplars))) +
            (EncodeFields(Chunks(3, Map(EncodeHistogram, m.histograms))) + SeriesRest(m))))
  {
    hide *;
    FastRest(m);
    FastPieceList(m);
    FastTailEnds(m);
    FastTail(m, 0); FastTail(m, 1); FastTail(m, 2); FastTail(m, 3);
  }

  // Swapping two non-empty blocks that start differently changes the bytes.
  lemma SwapDiffers(a: bytes, b: bytes, h: bytes, x: bytes, r: bytes)
    requires |h| > 0 && |x| > 0 && h[0] != x[0]
    ensures a + (b + (h + (x + r))) != a + (b + (x + (h + r)))
  {
    var k := |a| + |b|;
    assert (a + (b + (h + (x + r))))[k] == h[0];
    assert (a + (b + (x + (h + r))))[k] == x[0];
  }

  lemma SeriesBytesEqual(m: TimeSeries)
    requires m.labels == []
    ensures FastEncodeSeries(m) == EncodeTimeSeries(m) <==> (m.exemplars == [] || m.histograms == [])
  {
    SlowLayout(m);
    FastLayout(m);
    hide FastEncodeSeries, EncodeTimeSeries, OptInts, SeriesRest, EncodeFields, Chunks, Map;
    var a, b := EncodeFields(OptInts(1, m.labelsRefs)), EncodeFields(Chunks(2, Map(EncodeSample, m.samples)));
    var h := EncodeFields(Chunks(3, Map(EncodeHistogram, m.histograms)));
    var x := EncodeFields(Chunks(4, Map(EncodeExemplar, m.exemplars)));
    var r := SeriesRest(m);
    if m.exemplars == [] {
      NoChunks(4, EncodeExemplar);
      assert x == [] && [] + r == r && [] + (h + r) == h + r;
    } else if m.histograms == [] {
      NoChunks(3, EncodeHistogram);
      assert h == [] && [] + r == r && [] + (x + r) == x + r;
    } else {
      FirstByte(3, Map(EncodeHistogram, m.histograms));
      FirstByte(4, Map(EncodeExemplar, m.exemplars));
      SwapDiffers(a, b, h, x, r);
    }
  }

  predicate Both(x: TimeSeries) { x.exemplars != [] && x.histograms != [] }

  lemma TwoPieceBytes(ps: seq<seq<Field>>, u: bytes)
    requires |ps| == 2
    ensures EncodePieces(ps, u) == EncodeFields(ps[0]) + (EncodeFields(ps[1]) + u)
  {
    hide EncodeFields, EncodePieces, Tail;
    TailEnds(ps, u);
    TailStep(ps, 0, u);
    TailStep(ps, 1, u);
  }

  // Without Labels: byte for byte equal exactly when no series carries both
  // exemplars and histograms.
  lemma FastBytesEqual(m: Request)
    requires NoLabels(m)
    ensures FastEncode(m) == EncodeRequest(m) <==> forall x :: x in m.timeseries ==> !Both(x)
  {
    hide EncodeFields, EncodePieces, FastEncodeSeries, EncodeTimeSeries, Chunks;
    var ts, u, s := m.timeseries, m.unrecognized, EncodeFields(Chunks(4, m.symbols));
    var ps, qs := Map(FastEncodeSeries, ts), Map(EncodeTimeSeries, ts);
    forall k | 0 <= k < |ts|
      ensures |ps[k]| == |qs[k]| && (ps[k] == qs[k] <==> !Both(ts[k]))
    {
      assert ts[k] in ts;
      FastSeriesSize(ts[k]);
      SeriesBytesEqual(ts[k]);
    }
    if forall x :: x in ts ==> !Both(x) {
      forall k | 0 <= k < |ts| ensures ps[k] == qs[k] { assert ts[k] in ts; }
      assert ps == qs;
    }
    TwoPieceBytes(FastRequestPieces(m), u);
    TwoPieceBytes(RequestPieces(m), u);
    if FastEncode(m) == EncodeRequest(m) {
      var e, f := EncodeFields(Chunks(5, ps)), EncodeFields(Chunks(5, qs));
      ChunksGrow(5, ps, qs);
      ChunksGrow(5, qs, ps);
      Cancel(s, e + u, s, f + u);
      Cancel(e, u, f, u);
      SamePayloads(5, ps, qs);
      forall x | x in ts ensures !Both(x) {
        var k :| 0 <= k < |ts| && ts[k] == x;
        assert ps[k] == qs[k];
      }
    }
  }

  // ---- what OptimizedMarshal returns ---------------------------------------

  // The message is written at the end of the first Size() bytes of the buffer,
  // and the first n of those are returned. base is the buffer before the call.
  function FastOutput(base: bytes, m: Request): bytes
    requires |EncodeRequest(m)| <= |base|
  {
    FastSize(m);
    var siz, n := |EncodeRequest(m)|, |FastEncode(m)|;
    (base[..siz - n] + FastEncode(m))[..n]
  }

  function Zeros(n: nat): bytes { seq(n, _ => 0) }

  // With Labels somewhere, the result starts with bytes of the old buffer.
  lemma FastOutputWithoutLabels(base: bytes, m: Request)
    requires |EncodeRequest(m)| <= |base| && NoLabels(m)
    ensures FastOutput(base, m) == FastEncode(m)
  {
    FastSize(m);
  }

  // In a buffer of its own, OptimizedMarshal produces what Unmarshal reads back
  // exactly when no series has Labels; else its output is rejected.
  lemma FastOutputDecodes(m: Request)
    requires RequestOk(m) && |EncodeRequest(m)| < TWO_63
    ensures var out := FastOutput(Zeros(|EncodeRequest(m)|), m);
            && (DecodeRequest(out, NO_REQUEST) == Ok(NormRequest(m)) <==> NoLabels(m))
            && (!NoLabels(m) ==> DecodeRequest(out, NO_REQUEST) == Err(IllegalTag))
  {
    var zeros := Zeros(|EncodeRequest(m)|);
    var out := FastOutput(zeros, m);
    FastSize(m);
    hide EncodeRequest, FastEncode, RequestOk, NormRequest;
    if NoLabels(m) {
      FastOutputWithoutLabels(zeros, m);
      FastRoundTrip(m);
    } else {
      SeriesMakeBytes(m);
      assert out[0] == 0;
      ZeroTag(out);
    }
  }

  // Whatever buffer is reused: the output decodes to the message for all of
  // them if and only if no series has Labels.
  lemma FastOutputDecodesForAll(m: Request)
    requires RequestOk(m) && |EncodeRequest(m)| < TWO_63
    ensures NoLabels(m) <==>
            forall base: bytes | |EncodeRequest(m)| <= |base| ::
              DecodeRequest(FastOutput(base, m), NO_REQUEST) == Ok(NormRequest(m))
  {
    hide EncodeRequest, DecodeRequest, FastEncode, FastOutput, RequestOk, NormRequest, NoLabels;
    FastOutputDecodes(m);
    if NoLabels(m) {
      forall base: bytes | |EncodeRequest(m)| <= |base|
        ensures DecodeRequest(FastOutput(base, m), NO_REQUEST) == Ok(NormRequest(m))
      {
        FastOutputWithoutLabels(base, m);
        FastRoundTrip(m);
      }
    } else {
      var zeros := Zeros(|EncodeRequest(m)|);
      assert DecodeRequest(FastOutput(zeros, m), NO_REQUEST) != Ok(NormRequest(m));
    }
  }

  lemma SeriesMakeBytes(m: Request)
    requires m.timeseries != []
    ensures |FastEncode(m)| > 0
  {
    hide EncodeFields, EncodePieces, FastEncodeSeries, Chunks, Varint;
    ElementSize(5, FastEncodeSeries, m.timeseries, m.timeseries[0]);
    TwoPieces(FastRequestPieces(m), m.unrecognized);
  }

  lemma ZeroTag(s: bytes)
    requires |s| > 0 && s[0] == 0
    ensures DecodeRequest(s, NO_REQUEST) == Err(IllegalTag)
  {
    assert VarintAt(s, 0, 0) == Ok((0, 1));
    assert TagAt(s, 0) == Err(IllegalTag);
    hide TagAt, PayloadAt;
    DecodeTurn(RequestSchema, ApplyRequest, s, 0, NO_REQUEST);
  }

  // In any buffer, the output is Marshal's exactly when no series has Labels and
  // none has both exemplars and histograms.
  lemma FastOutputIsMarshal(base: bytes, m: Request)
    requires |EncodeRequest(m)| <= |base|
    ensures FastOutput(base, m) == EncodeRequest(m) <==>
            NoLabels(m) && forall x :: x in m.timeseries ==> !Both(x)
  {
    hide EncodeRequest, FastEncode;
    FastSize(m);
    if NoLabels(m) {
      FastOutputWithoutLabels(base, m);
      FastBytesEqual(m);
    } else {
      assert |FastOutput(base, m)| == |FastEncode(m)| < |EncodeRequest(m)|;
    }
  }

  // ---- the bytes, spelled out ----------------------------------------------

  function FastTimeSeriesBytes(m: TimeSeries): seq<bytes> {
    [PackedWire([0x0a], IntBytes(m.labelsRefs)),
     Each(0x12, Map(EncodeSample, m.samples)),
     Each(0x22, Map(EncodeExemplar, m.exemplars)),
     Each(0x1a, Map(EncodeHistogram, m.histograms)),
     Delimited([0x2a], EncodeMetadata(m.metadata)),
     IntWire(0x30, U64(m.createdTimestamp))]
  }

  lemma FastTimeSeriesWire(m: TimeSeries)
    ensures FastEncodeSeries(m) == Concat(FastTimeSeriesBytes(m)) + m.unrecognized
  {
    FastPieceList(m);
    hide EncodeFields, EncodePieces, Concat, OptInt, OptInts, Chunks, FastPiece;
    hide IntWire, PackedWire, Delimited, Each, IntBytes, U64, Map;
    hide EncodeSample, EncodeHistogram, EncodeExemplar, EncodeMetadata;
    IntsPiece(1, m.labelsRefs);
    ChunksPiece(2, Map(EncodeSample, m.samples));
    ChunksPiece(4, Map(EncodeExemplar, m.exemplars));
    ChunksPiece(3, Map(EncodeHistogram, m.histograms));
    OneChunkPiece(5, EncodeMetadata(m.metadata));
    IntPiece(6, U64(m.createdTimestamp));
    PiecesAre(FastPieces(m), m.unrecognized, FastTimeSeriesBytes(m));
  }

  lemma FastRequestWire(m: Request)
    ensures FastEncode(m) == Each(0x22, m.symbols) + Each(0x2a, Map(FastEncodeSeries, m.timeseries)) + m.unrecognized
  {
    hide EncodeFields, EncodePieces, Chunks, Each, Map, FastEncodeSeries;
    var a, b := Each(0x22, m.symbols), Each(0x2a, Map(FastEncodeSeries, m.timeseries));
    ChunksPiece(4, m.symbols);
    ChunksPiece(5, Map(FastEncodeSeries, m.timeseries));
    PiecesAre(FastRequestPieces(m), m.unrecognized, [a, b]);
    assert Concat([b]) == b && Concat([a, b]) == a + b;
  }

  // ---- the in-place trick --------------------------------------------------

  function Reversed(s: bytes): (r: bytes)
    ensures |r| == |s|
  {
    seq(|s|, k requires 0 <= k < |s| => s[|s| - 1 - k])
  }

  lemma ReversedSnoc(s: bytes, b: byte)
    ensures Reversed(s + [b]) == [b] + Reversed(s)
  {
  }

  lemma ReversedTwice(s: bytes)
    ensures Reversed(Reversed(s)) == s
  {
  }

  // slices.Reverse(dAtA[lo:hi])
  method ReverseRange(dAtA: array<byte>, lo: nat, hi: nat)
    requires lo <= hi <= dAtA.Length
    modifies dAtA
    ensures Written(old(dAtA[..]), dAtA[..], lo, hi, Reversed(old(dAtA[lo..hi])))
  {
    ghost var was := dAtA[..];
    var i, j := lo, hi - 1;
    while i < j
      invariant lo <= i && j < hi && i + j == lo + hi - 1 && i <= j + 1
      invariant forall k :: lo <= k < i || j < k < hi ==> dAtA[k] == was[lo + hi - 1 - k]
      invariant forall k :: i <= k <= j || 0 <= k < lo || hi <= k < dAtA.Length ==> dAtA[k] == was[k]
      decreases j - i
    {
      dAtA[i], dAtA[j] := dAtA[j], dAtA[i];
      i, j := i + 1, j - 1;
    }
    assert dAtA[..] == was[..lo] + Reversed(was[lo..hi]) + was[hi..];
  }

  // The label refs: each varint is written downwards, the whole range is then
  // reversed. The bytes are those of the version with a temporary buffer.
  method PutRefsInPlace(dAtA: array<byte>, i: nat, refs: seq<uint32>, ghost before: bytes, ghost end: nat, ghost content: bytes)
    returns (j: nat)
    requires |EncodeFields(OptInts(1, refs))| <= i && Written(before, dAtA[..], i, end, content)
    modifies dAtA
    ensures j == i - |EncodeFields(OptInts(1, refs))|
    ensures Written(before, dAtA[..], j, end, EncodeFields(OptInts(1, refs)) + content)
  {
    hide Written, Varint, Tag, Prefixed, IntBytes, Reversed;
    j := i;
    if |refs| > 0 {
      OneField(IntsField(1, refs));
      assert |Tag(1, 2)| + |Prefixed(IntBytes(refs))| <= i;
      PrefixedSize(IntBytes(refs));
      var start, j10 := i, 0;
      ghost var done: bytes := [];
      EmptyReversed(content);
      RefsFrom(refs, 0);
      for k := 0 to |refs|
        invariant j10 == |done| && j + j10 == start
        invariant done + IntBytes(refs[k..]) == IntBytes(refs)
        invariant Written(before, dAtA[..], j, end, Reversed(done) + content)
      {
        RefsFrom(refs, k);
        var num: nat := refs[k];
        ghost var rest := IntBytes(refs[k + 1..]);
        assert done + (Varint(num) + rest) == IntBytes(refs);
        while num >= 128
          invariant j10 == |done| && j + j10 == start
          invariant done + (Varint(num) + rest) == IntBytes(refs)
          invariant Written(before, dAtA[..], j, end, Reversed(done) + content)
          decreases num
        {
          VarintHead(num, done, rest);
          ghost var b := num % 128 + 128;
          assert |done| < |IntBytes(refs)|;
          j := PutBelow(dAtA, j, num % 128 + 128, before, end, Reversed(done) + content);
          ReversedStep(done, b, content);
          done := done + [b];
          num := num / 128;
          j10 := j10 + 1;
        }
        VarintLast(num, done, rest);
        assert |done| < |IntBytes(refs)|;
        j := PutBelow(dAtA, j, num, before, end, Reversed(done) + content);
        ReversedStep(done, num, content);
        done := done + [num];
        j10 := j10 + 1;
      }
      NoRefsLeft(refs, done);
      ghost var was := dAtA[..];
      RangeWritten(before, was, j, start, end, Reversed(done), content);
      ReverseRange(dAtA, j, start);
      ReversedTwice(done);
      RewriteBelow(before, was, dAtA[..], j, start, end, Reversed(done), done, content);
      j := PutHeader(dAtA, j, 1, IntBytes(refs), j10, before, end, content);
    } else {
      assert [] + content == content;
    }
  }

  lemma PrefixedSize(p: bytes)
    ensures |Prefixed(p)| == |Varint(|p|)| + |p|
  {
    hide Varint;
  }

  lemma EmptyReversed(content: bytes)
    ensures Reversed([]) + content == content
  {
    assert Reversed([]) == [];
  }

  lemma RefsFrom(refs: seq<uint32>, k: nat)
    requires k < |refs|
    ensures IntBytes(refs[k..]) == Varint(refs[k]) + IntBytes(refs[k + 1..])
    ensures [] + IntBytes(refs[0..]) == IntBytes(refs)
  {
    hide Varint;
    assert refs[k..][1..] == refs[k + 1..];
    assert refs[0..] == refs;
  }

  lemma NoRefsLeft(refs: seq<uint32>, done: bytes)
    requires done + IntBytes(refs[|refs|..]) == IntBytes(refs)
    ensures done == IntBytes(refs)
  {
    assert refs[|refs|..] == [];
    assert IntBytes([]) == [];
  }

  lemma VarintHead(num: nat, done: bytes, rest: bytes)
    requires num >= 128
    ensures done + (Varint(num) + rest) == done + [num % 128 + 128] + (Varint(num / 128) + rest)
    ensures |done| < |done + (Varint(num) + rest)|
  {
  }

  lemma VarintLast(num: nat, done: bytes, rest: bytes)
    requires num < 128
    ensures done + (Varint(num) + rest) == done + [num] + rest
    ensures |done| < |done + (Varint(num) + rest)|
  {
  }

  lemma ReversedStep(done: bytes, b: byte, content: bytes)
    ensures [b] + (Reversed(done) + content) == Reversed(done + [b]) + content
  {
    ReversedSnoc(done, b);
    assert [b] + (Reversed(done) + content) == [b] + Reversed(done) + content;
  }

  lemma RangeWritten(before: bytes, now: bytes, j: nat, start: nat, end: nat, p: bytes, content: bytes)
    requires Written(before, now, j, end, p + content) && j + |p| == start
    ensures start <= |now| && now[j..start] == p
  {
  }

  // Replacing the lowest part of the filled region.
  lemma RewriteBelow(before: bytes, was: bytes, now: bytes, j: nat, start: nat, end: nat, p: bytes, q: bytes, content: bytes)
    requires Written(before, was, j, end, p + content) && j + |p| == start
    requires Written(was, now, j, start, q)
    ensures Written(before, now, j, end, q + content)
  {
    assert was[..j] == before[..j];
    assert was[start..] == content + before[end..];
    assert now == before[..j] + q + (content + before[end..]) == before[..j] + (q + content) + before[end..];
  }

  // ---- OptimizedMarshalToSizedBuffer ---------------------------------------

  method FastMarshalTimeSeries(m: TimeSeries, dAtA: array<byte>, len: nat) returns (n: nat)
    requires |FastEncodeSeries(m)| <= len <= dAtA.Length
    modifies dAtA
    ensures n == |FastEncodeSeries(m)|
    ensures Written(old(dAtA[..]), dAtA[..], len - n, len, FastEncodeSeries(m))
  {
    FastPieceList(m);
    hide *;
    ghost var before, ps, u := dAtA[..], FastPieces(m), m.unrecognized;
    NothingWritten(before, len);
    FastTailEnds(m);
    var i := PutBytes(dAtA, len, m.unrecognized, before, len, []);
    FastTail(m, 5);
    i := PutOptInt(dAtA, i, 6, U64(m.createdTimestamp), before, len, Tail(ps, 6, u));
    FastTail(m, 4);
    i := PutMetadata(dAtA, i, m.metadata, before, len, Tail(ps, 5, u));
    FastTail(m, 3);
    i := PutHistograms(dAtA, i, m.histograms, before, len, Tail(ps, 4, u));
    FastTail(m, 2);
    i := PutExemplars(dAtA, i, m.exemplars, before, len, Tail(ps, 3, u));
    FastTail(m, 1);
    i := PutSamples(dAtA, i, m.samples, before, len, Tail(ps, 2, u));
    FastTail(m, 0);
    i := PutRefsInPlace(dAtA, i, m.labelsRefs, before, len, Tail(ps, 1, u));
    n := len - i;
  }

  method PutFastTimeSeries(dAtA: array<byte>, i: nat, xs: seq<TimeSeries>, ghost before: bytes, ghost end: nat, ghost content: bytes)
    returns (j: nat)
    requires |EncodeFields(Chunks(5, Map(FastEncodeSeries, xs)))| <= i
    requires Written(before, dAtA[..], i, end, content)
    modifies dAtA
    ensures j == i - |EncodeFields(Chunks(5, Map(FastEncodeSeries, xs)))|
    ensures Written(before, dAtA[..], j, end, EncodeFields(Chunks(5, Map(FastEncodeSeries, xs))) + content)
  {
    assert i <= dAtA.Length;
    hide Written, EncodeFields, FastEncodeSeries, Chunks, Map, Tag, Varint, Prefixed;
    j := i;
    ListEnds(5, FastEncodeSeries, xs, content);
    for k := |xs| downto 0
      invariant j == i - |EncodeFields(Chunks(5, Map(FastEncodeSeries, xs[k..])))|
      invariant Written(before, dAtA[..], j, end, EncodeFields(Chunks(5, Map(FastEncodeSeries, xs[k..]))) + content)
    {
      ListStep(5, FastEncodeSeries, xs, k, content);
      ghost var mid, p := dAtA[..], FastEncodeSeries(xs[k]);
      ghost var rest := EncodeFields(Chunks(5, Map(FastEncodeSeries, xs[k + 1..]))) + content;
      var size := FastMarshalTimeSeries(xs[k], dAtA, j);
      j := PutEmbedded(dAtA, j, 5, p, size, mid, before, end, rest);
    }
  }

  method FastMarshalRequest(m: Request, dAtA: array<byte>, len: nat) returns (n: nat)
    requires |FastEncode(m)| <= len <= dAtA.Length
    modifies dAtA
    ensures n == |FastEncode(m)|
    ensures Written(old(dAtA[..]), dAtA[..], len - n, len, FastEncode(m))
  {
    hide Written, EncodeFields, EncodePieces, Tail, Chunks, Map, FastEncodeSeries;
    ghost var before, ps, u := dAtA[..], FastRequestPieces(m), m.unrecognized;
    NothingWritten(before, len);
    TailEnds(ps, u);
    TailFits(ps, 2, u);
    var i := PutBytes(dAtA, len, m.unrecognized, before, len, []);
    assert u + [] == u;
    TailStep(ps, 1, u);
    TailFits(ps, 1, u);
    i := PutFastTimeSeries(dAtA, i, m.timeseries, before, len, Tail(ps, 2, u));
    TailStep(ps, 0, u);
    i := PutSymbols(dAtA, i, m.symbols, before, len, Tail(ps, 1, u));
    n := len - i;
  }

  lemma OutputIsPrefix(base: bytes, after: bytes, m: Request)
    requires |EncodeRequest(m)| <= |base| && |FastEncode(m)| <= |EncodeRequest(m)|
    requires var siz, n := |EncodeRequest(m)|, |FastEncode(m)|; Written(base, after, siz - n, siz, FastEncode(m))
    ensures |after| == |base| && after[..|FastEncode(m)|] == FastOutput(base, m)
  {
    hide EncodeRequest, FastEncode;
    var siz, n := |EncodeRequest(m)|, |FastEncode(m)|;
    assert after[..siz] == base[..siz - n] + FastEncode(m);
    assert after[..n] == after[..siz][..n];
  }

  // make([]byte, size)
  method MakeBytes(size: nat) returns (buf: array<byte>)
    ensures fresh(buf) && buf.Length == size && buf[..] == Zeros(size)
  {
    buf := new byte[size](_ => 0);
  }

  // OptimizedMarshal: dst stands for the whole capacity of the slice it is
  // given. The result is buf[:n].
  method OptimizedMarshal(m: Request, dst: array<byte>) returns (buf: array<byte>, n: nat)
    modifies dst
    ensures n == |FastEncode(m)| <= buf.Length
    ensures if dst.Length >= |EncodeRequest(m)|
            then buf == dst && buf[..n] == FastOutput(old(dst[..]), m)
            else fresh(buf) && buf[..n] == FastOutput(Zeros(|EncodeRequest(m)|), m)
  {
    hide EncodeRequest, FastEncode, Zeros, FastOutput, Written;
    var siz := SizeRequest(m);
    buf := dst;
    if dst.Length < siz {
      buf := MakeBytes(siz);
    }
    ghost var base := buf[..];
    FastSize(m);
    n := FastMarshalRequest(m, buf, siz);
    OutputIsPrefix(base, buf[..], m);
  }
}
