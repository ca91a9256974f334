// MarshalToSizedBuffer of every message. dAtA[:len] is the slice that the
// method is given; it is filled from its end, and exactly Size() bytes of it
// change, at every nesting level.
module Marshalling {
  import opened Words
  import opened Varints
  import opened Scalars
  import opened Fields
  import opened Decoding
  import opened Pieces
  import opened Messages
  import opened Sizing
  import opened Writing

  // ---- lists of embedded messages ------------------------------------------

  lemma ListEnds<E>(num: nat, enc: E -> bytes, xs: seq<E>, content: bytes)
    ensures EncodeFields(Chunks(num, Map(enc, xs[|xs|..]))) == []
    ensures EncodeFields(Chunks(num, Map(enc, xs[|xs|..]))) + content == content
    ensures xs[0..] == xs
  {
    assert Map(enc, xs[|xs|..]) == [];
  }

  // The element that goes below those already written, and the room for it.
  lemma ListStep<E>(num: nat, enc: E -> bytes, xs: seq<E>, k: nat, content: bytes)
    requires k < |xs|
    ensures var p, rest := enc(xs[k]), EncodeFields(Chunks(num, Map(enc, xs[k + 1..])));
            EncodeFields(Chunks(num, Map(enc, xs[k..]))) + content == Tag(num, 2) + Prefixed(p) + (rest + content)
            && |EncodeFields(Chunks(num, Map(enc, xs[k..])))| == |Tag(num, 2)| + |Varint(|p|)| + |p| + |rest|
    ensures |EncodeFields(Chunks(num, Map(enc, xs[k..])))| <= |EncodeFields(Chunks(num, Map(enc, xs)))|
    decreases k
  {
    hide Varint, Tag;
    var p, rest := enc(xs[k]), EncodeFields(Chunks(num, Map(enc, xs[k + 1..])));
    MapCons(enc, xs[k..]);
    assert xs[k..][1..] == xs[k + 1..];
    var ps := Map(enc, xs[k..]);
    assert Chunks(num, ps)[1..] == Chunks(num, ps[1..]);
    assert ps[1..] == Map(enc, xs[k + 1..]);
    assert EncodeFields(Chunks(num, ps)) == EncodeField(ChunkField(num, p)) + rest;
    assert Tag(num, 2) + Prefixed(p) + rest + content == Tag(num, 2) + Prefixed(p) + (rest + content);
    if k > 0 {
      ListStep(num, enc, xs, k - 1, content);
    } else {
      assert xs[0..] == xs;
    }
  }

  // ---- the messages --------------------------------------------------------

  method MarshalLabel(m: Label, dAtA: array<byte>, len: nat) returns (n: nat)
    requires |EncodeLabel(m)| <= len <= dAtA.Length
    modifies dAtA
    ensures n == |EncodeLabel(m)|
    ensures Written(old(dAtA[..]), dAtA[..], len - n, len, EncodeLabel(m))
  {
    hide Written, EncodeFields, EncodePieces, Tail, OptChunk;
    ghost var before, ps, u := dAtA[..], LabelPieces(m), m.unrecognized;
    NothingWritten(before, len);
    TailEnds(ps, u);
    TailFits(ps, 2, u);
    var i := PutBytes(dAtA, len, m.unrecognized, before, len, []);
    assert u + [] == u;
    TailStep(ps, 1, u);
    TailFits(ps, 1, u);
    i := PutOptChunk(dAtA, i, 2, m.value, before, len, Tail(ps, 2, u));
    TailStep(ps, 0, u);
    TailFits(ps, 0, u);
    i := PutOptChunk(dAtA, i, 1, m.name, before, len, Tail(ps, 1, u));
    n := len - i;
  }

  method MarshalSample(m: Sample, dAtA: array<byte>, len: nat) returns (n: nat)
    requires |EncodeSample(m)| <= len <= dAtA.Length
    modifies dAtA
    ensures n == |EncodeSample(m)|
    ensures Written(old(dAtA[..]), dAtA[..], len - n, len, EncodeSample(m))
  {
    hide Written, EncodeFields, EncodePieces, Tail, OptInt, OptDouble, U64;
    ghost var before, ps, u := dAtA[..], SamplePieces(m), m.unrecognized;
    NothingWritten(before, len);
    TailEnds(ps, u);
    TailFits(ps, 2, u);
    var i := PutBytes(dAtA, len, m.unrecognized, before, len, []);
    assert u + [] == u;
    TailStep(ps, 1, u);
    TailFits(ps, 1, u);
    i := PutOptInt(dAtA, i, 2, U64(m.timestamp), before, len, Tail(ps, 2, u));
    TailStep(ps, 0, u);
    TailFits(ps, 0, u);
    i := PutOptDouble(dAtA, i, 1, m.value, before, len, Tail(ps, 1, u));
    n := len - i;
  }

  method MarshalSpan(m: BucketSpan, dAtA: array<byte>, len: nat) returns (n: nat)
    requires |EncodeSpan(m)| <= len <= dAtA.Length
    modifies dAtA
    ensures n == |EncodeSpan(m)|
    ensures Written(old(dAtA[..]), dAtA[..], len - n, len, EncodeSpan(m))
  {
    hide Written, EncodeFields, EncodePieces, Tail, OptInt, ZigZag32;
    ghost var before, ps, u := dAtA[..], SpanPieces(m), m.unrecognized;
    NothingWritten(before, len);
    TailEnds(ps, u);
    TailFits(ps, 2, u);
    var i := PutBytes(dAtA, len, m.unrecognized, before, len, []);
    assert u + [] == u;
    TailStep(ps, 1, u);
    TailFits(ps, 1, u);
    i := PutOptInt(dAtA, i, 2, m.length, before, len, Tail(ps, 2, u));
    TailStep(ps, 0, u);
    TailFits(ps, 0, u);
    i := PutOptInt(dAtA, i, 1, ZigZag32(m.offset), before, len, Tail(ps, 1, u));
    n := len - i;
  }

  method MarshalMetadata(m: Metadata, dAtA: array<byte>, len: nat) returns (n: nat)
    requires |EncodeMetadata(m)| <= len <= dAtA.Length
    modifies dAtA
    ensures n == |EncodeMetadata(m)|
    ensures Written(old(dAtA[..]), dAtA[..], len - n, len, EncodeMetadata(m))
  {
    hide Written, EncodeFields, EncodePieces, Tail, OptInt, U64;
    ghost var before, ps, u := dAtA[..], MetadataPieces(m), m.unrecognized;
    NothingWritten(before, len);
    TailEnds(ps, u);
    TailFits(ps, 3, u);
    var i := PutBytes(dAtA, len, m.unrecognized, before, len, []);
    assert u + [] == u;
    TailStep(ps, 2, u);
    TailFits(ps, 2, u);
    i := PutOptInt(dAtA, i, 4, m.unitRef, before, len, Tail(ps, 3, u));
    TailStep(ps, 1, u);
    TailFits(ps, 1, u);
    i := PutOptInt(dAtA, i, 3, m.helpRef, before, len, Tail(ps, 2, u));
    TailStep(ps, 0, u);
    TailFits(ps, 0, u);
    i := PutOptInt(dAtA, i, 1, U64(m.kind), before, len, Tail(ps, 1, u));
    n := len - i;
  }

  method MarshalExemplar(m: Exemplar, dAtA: array<byte>, len: nat) returns (n: nat)
    requires |EncodeExemplar(m)| <= len <= dAtA.Length
    modifies dAtA
    ensures n == |EncodeExemplar(m)|
    ensures Written(old(dAtA[..]), dAtA[..], len - n, len, EncodeExemplar(m))
  {
    hide Written, EncodeFields, EncodePieces, Tail, OptInt, OptDouble, OptInts, U64;
    ghost var before, ps, u := dAtA[..], ExemplarPieces(m), m.unrecognized;
    NothingWritten(before, len);
    TailEnds(ps, u);
    TailFits(ps, 3, u);
    var i := PutBytes(dAtA, len, m.unrecognized, before, len, []);
    assert u + [] == u;
    TailStep(ps, 2, u);
    TailFits(ps, 2, u);
    i := PutOptInt(dAtA, i, 3, U64(m.timestamp), before, len, Tail(ps, 3, u));
    TailStep(ps, 1, u);
    TailFits(ps, 1, u);
    i := PutOptDouble(dAtA, i, 2, m.value, before, len, Tail(ps, 2, u));
    TailStep(ps, 0, u);
    TailFits(ps, 0, u);
    i := PutOptInts(dAtA, i, 1, m.labelsRefs, before, len, Tail(ps, 1, u));
    n := len - i;
  }

  method PutSpans(dAtA: array<byte>, i: nat, num: nat, xs: seq<BucketSpan>, ghost before: bytes, ghost end: nat, ghost content: bytes)
    returns (j: nat)
    requires 0 < num <= 16 && |EncodeFields(Chunks(num, Map(EncodeSpan, xs)))| <= i
    requires Written(before, dAtA[..], i, end, content)
    modifies dAtA
    ensures j == i - |EncodeFields(Chunks(num, Map(EncodeSpan, xs)))|
    ensures Written(before, dAtA[..], j, end, EncodeFields(Chunks(num, Map(EncodeSpan, xs))) + content)
  {
    assert i <= dAtA.Length;
    hide Written, EncodeFields, EncodeSpan, Chunks, Map, Tag, Varint, Prefixed;
    j := i;
    ListEnds(num, EncodeSpan, xs, content);
    for k := |xs| downto 0
      invariant j == i - |EncodeFields(Chunks(num, Map(EncodeSpan, xs[k..])))|
      invariant Written(before, dAtA[..], j, end, EncodeFields(Chunks(num, Map(EncodeSpan, xs[k..]))) + content)
    {
      ListStep(num, EncodeSpan, xs, k, content);
      ghost var mid, p := dAtA[..], EncodeSpan(xs[k]);
      ghost var rest := EncodeFields(Chunks(num, Map(EncodeSpan, xs[k + 1..]))) + content;
      var size := MarshalSpan(xs[k], dAtA, j);
      j := PutEmbedded(dAtA, j, num, p, size, mid, before, end, rest);
    }
  }

  lemma HistogramTail(m: Histogram, k: nat)
    requires k < 14
    ensures Tail(HistogramPieces(m), k, m.unrecognized) ==
            EncodeFields(HistogramPiece(m, k)) + Tail(HistogramPieces(m), k + 1, m.unrecognized)
    ensures |Tail(HistogramPieces(m), k, m.unrecognized)| <= |EncodeHistogram(m)|
  {
    hide Tail, EncodeFields, EncodePieces, HistogramPiece;
    TailStep(HistogramPieces(m), k, m.unrecognized);
    TailFits(HistogramPieces(m), k, m.unrecognized);
  }

  lemma HistogramTailEnds(m: Histogram)
    ensures Tail(HistogramPieces(m), 14, m.unrecognized) == m.unrecognized + [] == m.unrecognized
    ensures Tail(HistogramPieces(m), 0, m.unrecognized) == EncodeHistogram(m)
    ensures |m.unrecognized| <= |EncodeHistogram(m)|
  {
    hide Tail, EncodePieces, HistogramPiece;
    TailEnds(HistogramPieces(m), m.unrecognized);
    TailFits(HistogramPieces(m), 14, m.unrecognized);
  }

  method MarshalHistogram(m: Histogram, dAtA: array<byte>, len: nat) returns (n: nat)
    requires |EncodeHistogram(m)| <= len <= dAtA.Length
    modifies dAtA
    ensures n == |EncodeHistogram(m)|
    ensures Written(old(dAtA[..]), dAtA[..], len - n, len, EncodeHistogram(m))
  {
    HistogramPieceList(m);
    hide *;
    ghost var before, ps, u := dAtA[..], HistogramPieces(m), m.unrecognized;
    NothingWritten(before, len);
    HistogramTailEnds(m);
    var i := PutBytes(dAtA, len, m.unrecognized, before, len, []);
    HistogramTail(m, 13);
    i := PutOptDoubles(dAtA, i, 16, m.customValues, before, len, Tail(ps, 14, u));
    HistogramTail(m, 12);
    i := PutOptInt(dAtA, i, 15, U64(m.timestamp), before, len, Tail(ps, 13, u));
    HistogramTail(m, 11);
    i := PutOptInt(dAtA, i, 14, U64(m.resetHint), before, len, Tail(ps, 12, u));
    HistogramTail(m, 10);
    i := PutOptDoubles(dAtA, i, 13, m.positiveCounts, before, len, Tail(ps, 11, u));
    HistogramTail(m, 9);
    i := PutOptDeltas(dAtA, i, 12, m.positiveDeltas, before, len, Tail(ps, 10, u));
    HistogramTail(m, 8);
    i := PutSpans(dAtA, i, 11, m.positiveSpans, before, len, Tail(ps, 9, u));
    HistogramTail(m, 7);
    i := PutOptDoubles(dAtA, i, 10, m.negativeCounts, before, len, Tail(ps, 8, u));
    HistogramTail(m, 6);
    i := PutOptDeltas(dAtA, i, 9, m.negativeDeltas, before, len, Tail(ps, 7, u));
    HistogramTail(m, 5);
    i := PutSpans(dAtA, i, 8, m.negativeSpans, before, len, Tail(ps, 6, u));
    HistogramTail(m, 4);
    i := PutCount(dAtA, i, 6, 7, m.zeroCount, before, len, Tail(ps, 5, u));
    HistogramTail(m, 3);
    i := PutOptDouble(dAtA, i, 5, m.zeroThreshold, before, len, Tail(ps, 4, u));
    HistogramTail(m, 2);
    i := PutOptInt(dAtA, i, 4, ZigZag32(m.schema), before, len, Tail(ps, 3, u));
    HistogramTail(m, 1);
    i := PutOptDouble(dAtA, i, 3, m.sum, before, len, Tail(ps, 2, u));
    HistogramTail(m, 0);
    i := PutCount(dAtA, i, 1, 2, m.count, before, len, Tail(ps, 1, u));
    n := len - i;
  }

  method PutSamples(dAtA: array<byte>, i: nat, xs: seq<Sample>, ghost before: bytes, ghost end: nat, ghost content: bytes)
    returns (j: nat)
    requires |EncodeFields(Chunks(2, Map(EncodeSample, xs)))| <= i
    requires Written(before, dAtA[..], i, end, content)
    modifies dAtA
    ensures j == i - |EncodeFields(Chunks(2, Map(EncodeSample, xs)))|
    ensures Written(before, dAtA[..], j, end, EncodeFields(Chunks(2, Map(EncodeSample, xs))) + content)
  {
    assert i <= dAtA.Length;
    hide Written, EncodeFields, EncodeSample, Chunks, Map, Tag, Varint, Prefixed;
    j := i;
    ListEnds(2, EncodeSample, xs, content);
    for k := |xs| downto 0
      invariant j == i - |EncodeFields(Chunks(2, Map(EncodeSample, xs[k..])))|
      invariant Written(before, dAtA[..], j, end, EncodeFields(Chunks(2, Map(EncodeSample, xs[k..]))) + content)
    {
      ListStep(2, EncodeSample, xs, k, content);
      ghost var mid, p := dAtA[..], EncodeSample(xs[k]);
      ghost var rest := EncodeFields(Chunks(2, Map(EncodeSample, xs[k + 1..]))) + content;
      var size := MarshalSample(xs[k], dAtA, j);
      j := PutEmbedded(dAtA, j, 2, p, size, mid, before, end, rest);
    }
  }

  method PutHistograms(dAtA: array<byte>, i: nat, xs: seq<Histogram>, ghost before: bytes, ghost end: nat, ghost content: bytes)
    returns (j: nat)
    requires |EncodeFields(Chunks(3, Map(EncodeHistogram, xs)))| <= i
    requires Written(before, dAtA[..], i, end, content)
    modifies dAtA
    ensures j == i - |EncodeFields(Chunks(3, Map(EncodeHistogram, xs)))|
    ensures Written(before, dAtA[..], j, end, EncodeFields(Chunks(3, Map(EncodeHistogram, xs))) + content)
  {
    assert i <= dAtA.Length;
    hide Written, EncodeFields, EncodeHistogram, Chunks, Map, Tag, Varint, Prefixed;
    j := i;
    ListEnds(3, EncodeHistogram, xs, content);
    for k := |xs| downto 0
      invariant j == i - |EncodeFields(Chunks(3, Map(EncodeHistogram, xs[k..])))|
      invariant Written(before, dAtA[..], j, end, EncodeFields(Chunks(3, Map(EncodeHistogram, xs[k..]))) + content)
    {
      ListStep(3, EncodeHistogram, xs, k, content);
      ghost var mid, p := dAtA[..], EncodeHistogram(xs[k]);
      ghost var rest := EncodeFields(Chunks(3, Map(EncodeHistogram, xs[k + 1..]))) + content;
      var size := MarshalHistogram(xs[k], dAtA, j);
      j := PutEmbedded(dAtA, j, 3, p, size, mid, before, end, rest);
    }
  }

  method PutExemplars(dAtA: array<byte>, i: nat, xs: seq<Exemplar>, ghost before: bytes, ghost end: nat, ghost content: bytes)
    returns (j: nat)
    requires |EncodeFields(Chunks(4, Map(EncodeExemplar, xs)))| <= i
    requires Written(before, dAtA[..], i, end, content)
    modifies dAtA
    ensures j == i - |EncodeFields(Chunks(4, Map(EncodeExemplar, xs)))|
    ensures Written(before, dAtA[..], j, end, EncodeFields(Chunks(4, Map(EncodeExemplar, xs))) + content)
  {
    assert i <= dAtA.Length;
    hide Written, EncodeFields, EncodeExemplar, Chunks, Map, Tag, Varint, Prefixed;
    j := i;
    ListEnds(4, EncodeExemplar, xs, content);
    for k := |xs| downto 0
      invariant j == i - |EncodeFields(Chunks(4, Map(EncodeExemplar, xs[k..])))|
      invariant Written(before, dAtA[..], j, end, EncodeFields(Chunks(4, Map(EncodeExemplar, xs[k..]))) + content)
    {
      ListStep(4, EncodeExemplar, xs, k, content);
      ghost var mid, p := dAtA[..], EncodeExemplar(xs[k]);
      ghost var rest := EncodeFields(Chunks(4, Map(EncodeExemplar, xs[k + 1..]))) + content;
      var size := MarshalExemplar(xs[k], dAtA, j);
      j := PutEmbedded(dAtA, j, 4, p, size, mid, before, end, rest);
    }
  }

  method PutLabels(dAtA: array<byte>, i: nat, xs: seq<Label>, ghost before: bytes, ghost end: nat, ghost content: bytes)
    returns (j: nat)
    requires |EncodeFields(Chunks(7, Map(EncodeLabel, xs)))| <= i
    requires Written(before, dAtA[..], i, end, content)
    modifies dAtA
    ensures j == i - |EncodeFields(Chunks(7, Map(EncodeLabel, xs)))|
    ensures Written(before, dAtA[..], j, end, EncodeFields(Chunks(7, Map(EncodeLabel, xs))) + content)
  {
    assert i <= dAtA.Length;
    hide Written, EncodeFields, EncodeLabel, Chunks, Map, Tag, Varint, Prefixed;
    j := i;
    ListEnds(7, EncodeLabel, xs, content);
    for k := |xs| downto 0
      invariant j == i - |EncodeFields(Chunks(7, Map(EncodeLabel, xs[k..])))|
      invariant Written(before, dAtA[..], j, end, EncodeFields(Chunks(7, Map(EncodeLabel, xs[k..]))) + content)
    {
      ListStep(7, EncodeLabel, xs, k, content);
      ghost var mid, p := dAtA[..], EncodeLabel(xs[k]);
      ghost var rest := EncodeFields(Chunks(7, Map(EncodeLabel, xs[k + 1..]))) + content;
      var size := MarshalLabel(xs[k], dAtA, j);
      j := PutEmbedded(dAtA, j, 7, p, size, mid, before, end, rest);
    }
  }

  // The Metadata field is not optional: it is written even when empty.
  method PutMetadata(dAtA: array<byte>, i: nat, m: Metadata, ghost before: bytes, ghost end: nat, ghost content: bytes)
    returns (j: nat)
    requires |EncodeFields([ChunkField(5, EncodeMetadata(m))])| <= i
    requires Written(before, dAtA[..], i, end, content)
    modifies dAtA
    ensures j == i - |EncodeFields([ChunkField(5, EncodeMetadata(m))])|
    ensures Written(before, dAtA[..], j, end, EncodeFields([ChunkField(5, EncodeMetadata(m))]) + content)
  {
    assert i <= dAtA.Length;
    hide Written, EncodeFields, EncodeMetadata, Tag, Varint;
    ghost var mid, p := dAtA[..], EncodeMetadata(m);
    OneField(ChunkField(5, p));
    var size := MarshalMetadata(m, dAtA, i);
    j := PutEmbedded(dAtA, i, 5, p, size, mid, before, end, content);
  }

  lemma SeriesTail(m: TimeSeries, k: nat)
    requires k < 7
    ensures Tail(TimeSeriesPieces(m), k, m.unrecognized) ==
            EncodeFields(TimeSeriesPiece(m, k)) + Tail(TimeSeriesPieces(m), k + 1, m.unrecognized)
    ensures |Tail(TimeSeriesPieces(m), k, m.unrecognized)| <= |EncodeTimeSeries(m)|
  {
    hide Tail, EncodeFields, EncodePieces, TimeSeriesPiece;
    TailStep(TimeSeriesPieces(m), k, m.unrecognized);
    TailFits(TimeSeriesPieces(m), k, m.unrecognized);
  }

  lemma SeriesTailEnds(m: TimeSeries)
    ensures Tail(TimeSeriesPieces(m), 7, m.unrecognized) == m.unrecognized + [] == m.unrecognized
    ensures Tail(TimeSeriesPieces(m), 0, m.unrecognized) == EncodeTimeSeries(m)
    ensures |m.unrecognized| <= |EncodeTimeSeries(m)|
  {
    hide Tail, EncodePieces, TimeSeriesPiece;
    TailEnds(TimeSeriesPieces(m), m.unrecognized);
    TailFits(TimeSeriesPieces(m), 7, m.unrecognized);
  }

  method MarshalTimeSeries(m: TimeSeries, dAtA: array<byte>, len: nat) returns (n: nat)
    requires |EncodeTimeSeries(m)| <= len <= dAtA.Length
    modifies dAtA
    ensures n == |EncodeTimeSeries(m)|
    ensures Written(old(dAtA[..]), dAtA[..], len - n, len, EncodeTimeSeries(m))
  {
    SeriesPieceList(m);
    hide *;
    ghost var before, ps, u := dAtA[..], TimeSeriesPieces(m), m.unrecognized;
    NothingWritten(before, len);
    SeriesTailEnds(m);
    var i := PutBytes(dAtA, len, m.unrecognized, before, len, []);
    SeriesTail(m, 6);
    i := PutLabels(dAtA, i, m.labels, before, len, Tail(ps, 7, u));
    SeriesTail(m, 5);
    i := PutOptInt(dAtA, i, 6, U64(m.createdTimestamp), before, len, Tail(ps, 6, u));
    SeriesTail(m, 4);
    i := PutMetadata(dAtA, i, m.metadata, before, len, Tail(ps, 5, u));
    SeriesTail(m, 3);
    i := PutExemplars(dAtA, i, m.exemplars, before, len, Tail(ps, 4, u));
    SeriesTail(m, 2);
    i := PutHistograms(dAtA, i, m.histograms, before, len, Tail(ps, 3, u));
    SeriesTail(m, 1);
    i := PutSamples(dAtA, i, m.samples, before, len, Tail(ps, 2, u));
    SeriesTail(m, 0);
    i := PutOptInts(dAtA, i, 1, m.labelsRefs, before, len, Tail(ps, 1, u));
    n := len - i;
  }

  method PutTimeSeries(dAtA: array<byte>, i: nat, xs: seq<TimeSeries>, ghost before: bytes, ghost end: nat, ghost content: bytes)
    returns (j: nat)
    requires |EncodeFields(Chunks(5, Map(EncodeTimeSeries, xs)))| <= i
    requires Written(before, dAtA[..], i, end, content)
    modifies dAtA
    ensures j == i - |EncodeFields(Chunks(5, Map(EncodeTimeSeries, xs)))|
    ensures Written(before, dAtA[..], j, end, EncodeFields(Chunks(5, Map(EncodeTimeSeries, xs))) + content)
  {
    assert i <= dAtA.Length;
    hide Written, EncodeFields, EncodeTimeSeries, Chunks, Map, Tag, Varint, Prefixed;
    j := i;
    ListEnds(5, EncodeTimeSeries, xs, content);
    for k := |xs| downto 0
      invariant j == i - |EncodeFields(Chunks(5, Map(EncodeTimeSeries, xs[k..])))|
      invariant Written(before, dAtA[..], j, end, EncodeFields(Chunks(5, Map(EncodeTimeSeries, xs[k..]))) + content)
    {
      ListStep(5, EncodeTimeSeries, xs, k, content);
      ghost var mid, p := dAtA[..], EncodeTimeSeries(xs[k]);
      ghost var rest := EncodeFields(Chunks(5, Map(EncodeTimeSeries, xs[k + 1..]))) + content;
      var size := MarshalTimeSeries(xs[k], dAtA, j);
      j := PutEmbedded(dAtA, j, 5, p, size, mid, before, end, rest);
    }
  }

  method PutSymbols(dAtA: array<byte>, i: nat, xs: seq<bytes>, ghost before: bytes, ghost end: nat, ghost content: bytes)
    returns (j: nat)
    requires |EncodeFields(Chunks(4, xs))| <= i
    requires Written(before, dAtA[..], i, end, content)
    modifies dAtA
    ensures j == i - |EncodeFields(Chunks(4, xs))|
    ensures Written(before, dAtA[..], j, end, EncodeFields(Chunks(4, xs)) + content)
  {
    MapSame(xs);
    hide Written, EncodeFields, Chunks, Map, Tag, Varint, Prefixed;
    j := i;
    ListEnds(4, Same, xs, content);
    for k := |xs| downto 0
      invariant j == i - |EncodeFields(Chunks(4, Map(Same, xs[k..])))|
      invariant Written(before, dAtA[..], j, end, EncodeFields(Chunks(4, Map(Same, xs[k..]))) + content)
    {
      ListStep(4, Same, xs, k, content);
      ghost var rest := EncodeFields(Chunks(4, Map(Same, xs[k + 1..]))) + content;
      j := PutChunk(dAtA, j, 4, xs[k], before, end, rest);
    }
  }

  method MarshalRequest(m: Request, dAtA: array<byte>, len: nat) returns (n: nat)
    requires |EncodeRequest(m)| <= len <= dAtA.Length
    modifies dAtA
    ensures n == |EncodeRequest(m)|
    ensures Written(old(dAtA[..]), dAtA[..], len - n, len, EncodeRequest(m))
  {
    hide Written, EncodeFields, EncodePieces, Tail, Chunks, Map, EncodeTimeSeries;
    ghost var before, ps, u := dAtA[..], RequestPieces(m), m.unrecognized;
    NothingWritten(before, len);
    TailEnds(ps, u);
    TailFits(ps, 2, u);
    var i := PutBytes(dAtA, len, m.unrecognized, before, len, []);
    assert u + [] == u;
    TailStep(ps, 1, u);
    TailFits(ps, 1, u);
    i := PutTimeSeries(dAtA, i, m.timeseries, before, len, Tail(ps, 2, u));
    TailStep(ps, 0, u);
    TailFits(ps, 0, u);
    i := PutSymbols(dAtA, i, m.symbols, before, len, Tail(ps, 1, u));
    n := len - i;
  }

  // Marshal: a buffer of exactly Size() bytes, filled completely.
  method Marshal(m: Request) returns (dAtA: array<byte>)
    ensures fresh(dAtA) && dAtA[..] == EncodeRequest(m)
  {
    hide EncodeRequest;
    var size := SizeRequest(m);
    dAtA := new byte[size];
    var n := MarshalRequest(m, dAtA, size);
    assert n == size;
  }
}
