// codec.go: histograms of the Prometheus model to and from the wire message,
// and the float view of an integer histogram.
module Conversion {
  import opened Words
  import opened Varints
  import opened Scalars
  import opened Fields
  import opened Decoding
  import opened Messages
  import opened RoundTrip
  import opened NormalForm
  import opened WireFormat
  import opened Rounding

  datatype Span = Span(offset: int32, length: uint32)

  // histogram.Histogram; doubles that are only passed on are bit patterns.
  datatype IntHistogram = IntHistogram(
    counterResetHint: byte, schema: int32, zeroThreshold: uint64, zeroCount: uint64, count: uint64, sum: uint64,
    positiveSpans: seq<Span>, positiveBuckets: seq<int64>, negativeSpans: seq<Span>, negativeBuckets: seq<int64>,
    customValues: seq<uint64>)

  // histogram.FloatHistogram, with its counts as bit patterns (F = uint64) or,
  // where they come from integers, as the integers that the doubles equal.
  datatype FloatHistogram<F> = FloatHistogram(
    counterResetHint: byte, schema: int32, zeroThreshold: uint64, zeroCount: F, count: F, sum: uint64,
    positiveSpans: seq<Span>, positiveBuckets: seq<F>, negativeSpans: seq<Span>, negativeBuckets: seq<F>,
    customValues: seq<uint64>)

  datatype FloatView = Native(bits: FloatHistogram<uint64>) | Converted(values: FloatHistogram<int>)

  // ---- spans ---------------------------------------------------------------

  function ToSpan(s: BucketSpan): Span { Span(s.offset, s.length) }
  function FromSpan(s: Span): BucketSpan { BucketSpan(s.offset, s.length, []) }

  method SpansProtoToSpans(s: seq<BucketSpan>) returns (spans: array<Span>)
    ensures fresh(spans) && spans[..] == Map(ToSpan, s)
  {
    spans := new Span[|s|](_ => Span(0, 0));
    for i := 0 to |s|
      invariant forall k :: 0 <= k < i ==> spans[k] == ToSpan(s[k])
    {
      spans[i] := Span(s[i].offset, s[i].length);
    }
  }

  method SpansToSpansProto(s: seq<Span>) returns (spans: array<BucketSpan>)
    ensures fresh(spans) && spans[..] == Map(FromSpan, s)
  {
    spans := new BucketSpan[|s|](_ => NO_SPAN);
    for i := 0 to |s|
      invariant forall k :: 0 <= k < i ==> spans[k] == FromSpan(s[k])
    {
      spans[i] := BucketSpan(s[i].offset, s[i].length, []);
    }
  }

  // ---- integer histograms --------------------------------------------------

  predicate IsFloatHistogram(h: Histogram) { h.count.CountFloat? }

  function IntOf(c: Count): uint64 { if c.CountInt? then c.n else 0 }
  function FloatOf(c: Count): uint64 { if c.CountFloat? then c.bits else 0 }

  // histogram.CounterResetHint is a byte.
  function Hint(resetHint: int32): byte { resetHint % 256 }

  function ToIntHistogram(h: Histogram): Option<IntHistogram> {
    if IsFloatHistogram(h) then None
    else Some(IntHistogram(
      Hint(h.resetHint), h.schema, h.zeroThreshold, IntOf(h.zeroCount), IntOf(h.count), h.sum,
      Map(ToSpan, h.positiveSpans), h.positiveDeltas, Map(ToSpan, h.negativeSpans), h.negativeDeltas, h.customValues))
  }

  function FromIntHistogram(timestamp: int64, h: IntHistogram): Histogram {
    Histogram(
      CountInt(h.count), h.sum, h.schema, h.zeroThreshold, CountInt(h.zeroCount),
      Map(FromSpan, h.negativeSpans), h.negativeBuckets, [],
      Map(FromSpan, h.positiveSpans), h.positiveBuckets, [],
      h.counterResetHint, timestamp, h.customValues, [])
  }

  function FromFloatHistogram(timestamp: int64, h: FloatHistogram<uint64>): Histogram {
    Histogram(
      CountFloat(h.count), h.sum, h.schema, h.zeroThreshold, CountFloat(h.zeroCount),
      Map(FromSpan, h.negativeSpans), [], h.negativeBuckets,
      Map(FromSpan, h.positiveSpans), [], h.positiveBuckets,
      h.counterResetHint, timestamp, h.customValues, [])
  }

  lemma SpansSurvive(xs: seq<Span>)
    ensures Map(ToSpan, Map(FromSpan, xs)) == xs
  {
  }

  lemma IntHistogramSurvives(timestamp: int64, h: IntHistogram)
    ensures ToIntHistogram(FromIntHistogram(timestamp, h)) == Some(h)
  {
    SpansSurvive(h.positiveSpans);
    SpansSurvive(h.negativeSpans);
    hide Map;
  }

  // The other way round nothing is lost exactly for a message that holds an
  // integer histogram in full and nothing else.
  predicate PlainInt(w: Histogram) {
    && w.count.CountInt? && w.zeroCount.CountInt?
    && w.positiveCounts == [] && w.negativeCounts == []
    && 0 <= w.resetHint < 256
    && w.unrecognized == []
    && (forall x :: x in w.positiveSpans ==> x.unrecognized == [])
    && (forall x :: x in w.negativeSpans ==> x.unrecognized == [])
  }

  lemma PlainSpans(xs: seq<BucketSpan>)
    ensures Map(FromSpan, Map(ToSpan, xs)) == xs <==> forall x :: x in xs ==> x.unrecognized == []
  {
    var ys := Map(FromSpan, Map(ToSpan, xs));
    forall k | 0 <= k < |xs|
      ensures ys[k] == xs[k] <==> xs[k].unrecognized == []
    {
    }
    if forall x :: x in xs ==> x.unrecognized == [] {
      forall k | 0 <= k < |xs| ensures ys[k] == xs[k] { assert xs[k] in xs; }
    }
  }

  lemma WireIntSurvives(w: Histogram)
    ensures (ToIntHistogram(w).Some? && FromIntHistogram(w.timestamp, ToIntHistogram(w).value) == w) <==> PlainInt(w)
  {
    PlainSpans(w.positiveSpans);
    PlainSpans(w.negativeSpans);
    hide Map;
  }

  // ---- through the wire ----------------------------------------------------

  lemma FromSpansOk(xs: seq<Span>)
    ensures forall x :: x in Map(FromSpan, xs) ==> SpanOk(x)
  {
    NoUnknownBytes(SpanSchema);
    hide Decoding.UnknownBytes;
  }

  // An integer histogram crosses the wire as one, even when all its counts are
  // zero, and comes back whole, up to the sign of a zero sum or threshold.
  lemma IntHistogramCrosses(timestamp: int64, h: IntHistogram)
    requires |EncodeHistogram(FromIntHistogram(timestamp, h))| < TWO_63
    ensures var got := DecodeHistogram(EncodeHistogram(FromIntHistogram(timestamp, h)), NO_HISTOGRAM);
            && got.Ok? && got.value.timestamp == timestamp
            && ToIntHistogram(got.value) == Some(h.(sum := PosZero(h.sum), zeroThreshold := PosZero(h.zeroThreshold)))
  {
    var w := FromIntHistogram(timestamp, h);
    FromSpansOk(h.positiveSpans);
    FromSpansOk(h.negativeSpans);
    NoUnknownBytes(HistogramSchema);
    hide Decoding.UnknownBytes, SpanOk, EncodeHistogram, DecodeHistogram;
    HistogramRoundTrip(w);
    SpansSurvive(h.positiveSpans);
    SpansSurvive(h.negativeSpans);
    hide Map;
  }

  lemma FloatHistogramCrosses(timestamp: int64, h: FloatHistogram<uint64>)
    requires |EncodeHistogram(FromFloatHistogram(timestamp, h))| < TWO_63
    ensures var got := DecodeHistogram(EncodeHistogram(FromFloatHistogram(timestamp, h)), NO_HISTOGRAM);
            && got.Ok? && got.value.timestamp == timestamp
            && ToIntHistogram(got.value) == None
            && ToFloatHistogram(got.value) ==
               Native(h.(sum := PosZero(h.sum), zeroThreshold := PosZero(h.zeroThreshold)))
  {
    var w := FromFloatHistogram(timestamp, h);
    FromSpansOk(h.positiveSpans);
    FromSpansOk(h.negativeSpans);
    NoUnknownBytes(HistogramSchema);
    hide Decoding.UnknownBytes, SpanOk, EncodeHistogram, DecodeHistogram;
    HistogramRoundTrip(w);
    SpansSurvive(h.positiveSpans);
    SpansSurvive(h.negativeSpans);
    hide Map;
  }

  // ---- where the fields of a histogram go ----------------------------------

  function SpanBytes(s: Span): bytes { IntWire(0x08, ZigZag32(s.offset)) + IntWire(0x10, s.length) }

  lemma OneSpanBytes(x: Span)
    ensures EncodeSpan(FromSpan(x)) == SpanBytes(x)
  {
    SpanWire(FromSpan(x));
    hide EncodeSpan, IntWire, ZigZag32;
    var a, b := IntWire(0x08, ZigZag32(x.offset)), IntWire(0x10, x.length);
    ConcatTwo(a, b);
    NothingBehind(a + b);
  }

  lemma ConcatTwo(a: bytes, b: bytes)
    ensures Concat([a, b]) == a + b
  {
    assert [a, b][1..] == [b];
    assert Concat([b]) == b;
  }

  lemma SpanBytesOf(xs: seq<Span>)
    ensures Map(EncodeSpan, Map(FromSpan, xs)) == Map(SpanBytes, xs)
  {
    hide EncodeSpan, FromSpan, SpanBytes;
    forall k | 0 <= k < |xs| ensures EncodeSpan(FromSpan(xs[k])) == SpanBytes(xs[k]) {
      OneSpanBytes(xs[k]);
    }
  }

  // The bytes that stand for an integer histogram: negative spans and deltas in
  // fields 8 and 9, positive ones in 11 and 12, and both counts written even
  // when they are zero.
  function IntHistogramBytes(timestamp: int64, h: IntHistogram): seq<bytes> {
    [[0x08] + Varint(h.count),
     DoubleWire(0x19, h.sum),
     IntWire(0x20, ZigZag32(h.schema)),
     DoubleWire(0x29, h.zeroThreshold),
     [0x30] + Varint(h.zeroCount),
     Each(0x42, Map(SpanBytes, h.negativeSpans)),
     PackedWire([0x4a], IntBytes(Map(ZigZag64, h.negativeBuckets))),
     [],
     Each(0x5a, Map(SpanBytes, h.positiveSpans)),
     PackedWire([0x62], IntBytes(Map(ZigZag64, h.positiveBuckets))),
     [],
     IntWire(0x70, h.counterResetHint),
     IntWire(0x78, U64(timestamp)),
     PackedWire([0x82, 0x01], DoubleBytes(h.customValues))]
  }

  lemma IntHistogramWire(timestamp: int64, h: IntHistogram)
    ensures EncodeHistogram(FromIntHistogram(timestamp, h)) == Concat(IntHistogramBytes(timestamp, h))
  {
    var w := FromIntHistogram(timestamp, h);
    SpanBytesOf(h.negativeSpans);
    SpanBytesOf(h.positiveSpans);
    HistogramWire(w);
    HintBytes(h.counterResetHint);
    NoDoubles(0x52);
    NoDoubles(0x6a);
    hide EncodeHistogram, Concat, EncodeSpan, FromSpan, SpanBytes, Map, Each, IntBytes, IntWire, DoubleWire, PackedWire;
    hide Varint, Fixed64, ZigZag32, ZigZag64, U64, DoubleBytes;
    var bs, cs := HistogramBytes(w), IntHistogramBytes(timestamp, h);
    assert |bs| == |cs| == 14;
    assert bs[0] == cs[0] && bs[1] == cs[1] && bs[2] == cs[2] && bs[3] == cs[3] && bs[4] == cs[4];
    assert bs[5] == cs[5] && bs[6] == cs[6] && bs[7] == cs[7] && bs[8] == cs[8] && bs[9] == cs[9];
    assert bs[10] == cs[10] && bs[11] == cs[11] && bs[12] == cs[12] && bs[13] == cs[13];
    hide HistogramBytes, IntHistogramBytes;
    assert bs == cs;
    NothingBehind(Concat(bs));
  }

  lemma HintBytes(hint: byte)
    ensures U64(hint) == hint
  {
  }

  lemma NoDoubles(tag: byte)
    ensures PackedWire([tag], DoubleBytes([])) == []
  {
  }

  lemma NoDeltas(tag: byte)
    ensures PackedWire([tag], IntBytes(Map(ZigZag64, []))) == []
  {
    var none: seq<int64> := [];
    assert Map(ZigZag64, none) == [];
  }

  lemma NothingBehind(s: bytes)
    ensures s + [] == s
  {
  }

  // The same for a float histogram, with its counts in fields 10 and 13.
  function FloatHistogramBytes(timestamp: int64, h: FloatHistogram<uint64>): seq<bytes> {
    [[0x11] + Fixed64(h.count),
     DoubleWire(0x19, h.sum),
     IntWire(0x20, ZigZag32(h.schema)),
     DoubleWire(0x29, h.zeroThreshold),
     [0x39] + Fixed64(h.zeroCount),
     Each(0x42, Map(SpanBytes, h.negativeSpans)),
     [],
     PackedWire([0x52], DoubleBytes(h.negativeBuckets)),
     Each(0x5a, Map(SpanBytes, h.positiveSpans)),
     [],
     PackedWire([0x6a], DoubleBytes(h.positiveBuckets)),
     IntWire(0x70, h.counterResetHint),
     IntWire(0x78, U64(timestamp)),
     PackedWire([0x82, 0x01], DoubleBytes(h.customValues))]
  }

  lemma FloatHistogramWire(timestamp: int64, h: FloatHistogram<uint64>)
    ensures EncodeHistogram(FromFloatHistogram(timestamp, h)) == Concat(FloatHistogramBytes(timestamp, h))
  {
    var w := FromFloatHistogram(timestamp, h);
    SpanBytesOf(h.negativeSpans);
    SpanBytesOf(h.positiveSpans);
    HistogramWire(w);
    HintBytes(h.counterResetHint);
    NoDeltas(0x4a);
    NoDeltas(0x62);
    hide EncodeHistogram, Concat, EncodeSpan, FromSpan, SpanBytes, Map, Each, IntBytes, IntWire, DoubleWire, PackedWire;
    hide Varint, Fixed64, ZigZag32, ZigZag64, U64, DoubleBytes;
    var bs, cs := HistogramBytes(w), FloatHistogramBytes(timestamp, h);
    assert |bs| == |cs| == 14;
    assert bs[0] == cs[0] && bs[1] == cs[1] && bs[2] == cs[2] && bs[3] == cs[3] && bs[4] == cs[4];
    assert bs[5] == cs[5] && bs[6] == cs[6] && bs[7] == cs[7] && bs[8] == cs[8] && bs[9] == cs[9];
    assert bs[10] == cs[10] && bs[11] == cs[11] && bs[12] == cs[12] && bs[13] == cs[13];
    hide HistogramBytes, FloatHistogramBytes;
    assert bs == cs;
    NothingBehind(Concat(bs));
  }

  // ---- doubles that hold integers ------------------------------------------

  // Partial sums of the deltas.
  function Sum(deltas: seq<int64>): int {
    if deltas == [] then 0 else Sum(deltas[..|deltas| - 1]) + deltas[|deltas| - 1]
  }

  // cur += float64(d), rounded at the conversion and at the addition.
  function FloatSum(deltas: seq<int64>): int {
    if deltas == [] then 0
    else F64(FloatSum(deltas[..|deltas| - 1]) + F64(deltas[|deltas| - 1]))
  }

  function FloatCounts(deltas: seq<int64>): seq<int> {
    seq(|deltas|, i requires 0 <= i < |deltas| => FloatSum(deltas[..i + 1]))
  }

  function ExactCounts(deltas: seq<int64>): seq<int> {
    seq(|deltas|, i requires 0 <= i < |deltas| => Sum(deltas[..i + 1]))
  }

  method DeltasToCounts(deltas: seq<int64>) returns (counts: array<int>)
    ensures fresh(counts) && counts[..] == FloatCounts(deltas)
  {
    counts := new int[|deltas|](_ => 0);
    var cur := 0;
    for i := 0 to |deltas|
      invariant cur == FloatSum(deltas[..i])
      invariant forall k :: 0 <= k < i ==> counts[k] == FloatSum(deltas[..k + 1])
    {
      assert deltas[..i + 1][..i] == deltas[..i];
      cur := F64(cur + F64(deltas[i]));
      counts[i] := cur;
    }
  }

  function ToFloatHistogram(h: Histogram): FloatView {
    if IsFloatHistogram(h) then
      Native(FloatHistogram(
        Hint(h.resetHint), h.schema, h.zeroThreshold, FloatOf(h.zeroCount), FloatOf(h.count), h.sum,
        Map(ToSpan, h.positiveSpans), h.positiveCounts, Map(ToSpan, h.negativeSpans), h.negativeCounts, h.customValues))
    else
      Converted(FloatHistogram(
        Hint(h.resetHint), h.schema, h.zeroThreshold, F64(IntOf(h.zeroCount)), F64(IntOf(h.count)), h.sum,
        Map(ToSpan, h.positiveSpans), FloatCounts(h.positiveDeltas),
        Map(ToSpan, h.negativeSpans), FloatCounts(h.negativeDeltas), h.customValues))
  }

  lemma FloatHistogramSurvives(timestamp: int64, h: FloatHistogram<uint64>)
    ensures ToFloatHistogram(FromFloatHistogram(timestamp, h)) == Native(h)
    ensures ToIntHistogram(FromFloatHistogram(timestamp, h)) == None
  {
    SpansSurvive(h.positiveSpans);
    SpansSurvive(h.negativeSpans);
    hide Map;
  }

  // The float view of an integer histogram is that histogram, its counts
  // rounded and its deltas summed up, positive ones and negative ones; nothing
  // else changes.
  lemma ConvertedView(h: Histogram)
    requires !h.count.CountFloat?
    ensures ToFloatHistogram(h).Converted? && ToIntHistogram(h).Some?
    ensures var v, w := ToFloatHistogram(h).values, ToIntHistogram(h).value;
            && v.counterResetHint == w.counterResetHint && v.schema == w.schema
            && v.zeroThreshold == w.zeroThreshold && v.sum == w.sum && v.customValues == w.customValues
            && v.positiveSpans == w.positiveSpans && v.negativeSpans == w.negativeSpans
            && v.count == F64(w.count) && v.zeroCount == F64(w.zeroCount)
            && v.positiveBuckets == FloatCounts(w.positiveBuckets)
            && v.negativeBuckets == FloatCounts(w.negativeBuckets)
    ensures var w := ToIntHistogram(h).value;
            && (h.count == NoCount ==> w.count == 0) && (!h.zeroCount.CountInt? ==> w.zeroCount == 0)
  {
    hide Map, F64, FloatCounts;
  }

  // An integer histogram and its view for any h that came from one.
  lemma ViewOfIntHistogram(timestamp: int64, h: IntHistogram)
    ensures ToFloatHistogram(FromIntHistogram(timestamp, h)) ==
            Converted(FloatHistogram(
              h.counterResetHint, h.schema, h.zeroThreshold, F64(h.zeroCount), F64(h.count), h.sum,
              h.positiveSpans, FloatCounts(h.positiveBuckets), h.negativeSpans, FloatCounts(h.negativeBuckets),
              h.customValues))
  {
    IntHistogramSurvives(timestamp, h);
    ConvertedView(FromIntHistogram(timestamp, h));
    hide Map, F64, FloatCounts;
  }

  predicate SumsExact(deltas: seq<int64>) {
    forall i :: 0 <= i <= |deltas| ==> Exact(Sum(deltas[..i]))
  }

  predicate DeltasExact(deltas: seq<int64>) {
    forall i :: 0 <= i < |deltas| ==> Exact(deltas[i])
  }

  lemma {:induction false} FloatSumExact(deltas: seq<int64>, i: nat)
    requires i <= |deltas| && SumsExact(deltas) && DeltasExact(deltas)
    ensures FloatSum(deltas[..i]) == Sum(deltas[..i])
  {
    hide F64;
    if i > 0 {
      FloatSumExact(deltas, i - 1);
      assert deltas[..i][..i - 1] == deltas[..i - 1];
      assert Exact(Sum(deltas[..i]));
    }
  }

  // For representable deltas, the float buckets are the prefix sums if and only
  // if every prefix sum is representable; for other deltas, only if.
  lemma CountsArePrefixSums(deltas: seq<int64>)
    ensures DeltasExact(deltas) ==> (FloatCounts(deltas) == ExactCounts(deltas) <==> SumsExact(deltas))
    ensures FloatCounts(deltas) == ExactCounts(deltas) ==> SumsExact(deltas)
  {
    hide F64;
    if SumsExact(deltas) && DeltasExact(deltas) {
      forall i | 0 <= i < |deltas|
        ensures FloatCounts(deltas)[i] == ExactCounts(deltas)[i]
      {
        FloatSumExact(deltas, i + 1);
      }
    }
    if FloatCounts(deltas) == ExactCounts(deltas) {
      forall i | 0 <= i <= |deltas|
        ensures Exact(Sum(deltas[..i]))
      {
        if i == 0 {
          SmallIsExact(0);
        } else {
          assert FloatCounts(deltas)[i - 1] == ExactCounts(deltas)[i - 1];
          RoundingSettles(FloatSum(deltas[..i][..i - 1]) + F64(deltas[i - 1]));
        }
      }
    }
  }

  // Each step lands on the next prefix sum again.
  predicate StepsLand(deltas: seq<int64>) {
    forall i :: 0 <= i < |deltas| ==> F64(Sum(deltas[..i]) + F64(deltas[i])) == Sum(deltas[..i + 1])
  }

  lemma {:induction false} FloatSumLands(deltas: seq<int64>, i: nat)
    requires i <= |deltas| && StepsLand(deltas)
    ensures FloatSum(deltas[..i]) == Sum(deltas[..i])
  {
    hide F64;
    if i > 0 {
      FloatSumLands(deltas, i - 1);
      assert deltas[..i][..i - 1] == deltas[..i - 1];
      assert F64(Sum(deltas[..i - 1]) + F64(deltas[i - 1])) == Sum(deltas[..i - 1 + 1]);
    }
  }

  // For deltas that are not representable themselves: no rounding error
  // survives a step.
  lemma CountsArePrefixSumsExactly(deltas: seq<int64>)
    ensures FloatCounts(deltas) == ExactCounts(deltas) <==> StepsLand(deltas)
  {
    hide F64;
    if StepsLand(deltas) {
      forall i | 0 <= i < |deltas|
        ensures FloatCounts(deltas)[i] == ExactCounts(deltas)[i]
      {
        FloatSumLands(deltas, i + 1);
      }
    }
    if FloatCounts(deltas) == ExactCounts(deltas) {
      forall i | 0 <= i < |deltas|
        ensures F64(Sum(deltas[..i]) + F64(deltas[i])) == Sum(deltas[..i + 1])
      {
        assert FloatCounts(deltas)[i] == ExactCounts(deltas)[i];
        assert deltas[..i + 1][..i] == deltas[..i];
        assert FloatSum(deltas[..i + 1]) == F64(FloatSum(deltas[..i]) + F64(deltas[i]));
        if i > 0 {
          assert FloatCounts(deltas)[i - 1] == ExactCounts(deltas)[i - 1];
        }
      }
    }
  }

  // Differences of neighbouring buckets are the deltas again.
  lemma DifferencesAreDeltas(deltas: seq<int64>, i: nat)
    requires i < |deltas|
    ensures ExactCounts(deltas)[i] - (if i == 0 then 0 else ExactCounts(deltas)[i - 1]) == deltas[i]
  {
    var first := deltas[..i + 1];
    assert first[..i] == deltas[..i];
    assert Sum(first) == Sum(first[..i]) + deltas[i];
    assert i == 0 ==> deltas[..i] == [];
  }

  // Magnitudes up to 2^53 are enough.
  lemma SmallCountsAreExact(h: Histogram)
    requires !IsFloatHistogram(h) && IntOf(h.count) <= TWO_53 && IntOf(h.zeroCount) <= TWO_53
    requires forall ds :: ds in {h.positiveDeltas, h.negativeDeltas} ==>
               && (forall i :: 0 <= i < |ds| ==> -TWO_53 <= ds[i] <= TWO_53)
               && (forall i :: 0 <= i <= |ds| ==> -TWO_53 <= Sum(ds[..i]) <= TWO_53)
    ensures ToFloatHistogram(h).Converted?
    ensures var v := ToFloatHistogram(h).values;
            && v.count == IntOf(h.count) && v.zeroCount == IntOf(h.zeroCount)
            && v.positiveBuckets == ExactCounts(h.positiveDeltas)
            && v.negativeBuckets == ExactCounts(h.negativeDeltas)
  {
    SmallIsExact(IntOf(h.count));
    SmallIsExact(IntOf(h.zeroCount));
    hide F64;
    forall ds | ds in {h.positiveDeltas, h.negativeDeltas}
      ensures FloatCounts(ds) == ExactCounts(ds)
    {
      forall i | 0 <= i < |ds| ensures Exact(ds[i]) { SmallIsExact(ds[i]); }
      forall i | 0 <= i <= |ds| ensures Exact(Sum(ds[..i])) { SmallIsExact(Sum(ds[..i])); }
      CountsArePrefixSums(ds);
    }
  }

  // One more than 2^53 is lost.
  lemma PrefixSumsCanBeLost()
    ensures FloatCounts([TWO_53, 1]) == [TWO_53, TWO_53]
    ensures ExactCounts([TWO_53, 1]) == [TWO_53, TWO_53 + 1]
  {
    var ds: seq<int64> := [TWO_53, 1];
    assert ds[..1] == [TWO_53] && ds[..2] == ds && ds[..1][..0] == [] && ds[..2][..1] == ds[..1];
    SmallIsExact(TWO_53);
    SmallIsExact(1);
    assert FloatSum([]) == 0 && FloatSum(ds[..1]) == F64(0 + F64(TWO_53)) == TWO_53;
    assert F64(TWO_53 + 1) == TWO_53 by {
      assert RoundFrom(TWO_53 + 1, 1) == RoundFrom(TWO_53 + 1, 2);
      assert (TWO_53 + 1) / 2 == TWO_53 / 2 && (TWO_53 + 1) % 2 == 1;
    }
    assert FloatSum(ds) == TWO_53;
    assert Sum([]) == 0 && Sum(ds[..1]) == TWO_53 && Sum(ds) == TWO_53 + 1;
  }
}
