// Decoding a ++ b is merging: repeated fields and unknown bytes are appended,
// singular fields are last-wins, and the embedded Metadata is merged
// (protobuf Encoding, "Last One Wins").
module Merging {
  import opened Words
  import opened Varints
  import opened Scalars
  import opened Skipping
  import opened Fields
  import opened Suffixes
  import opened Decoding
  import opened Messages

  function Append(m: Request, d: Request): Request {
    Request(m.symbols + d.symbols, m.timeseries + d.timeseries, m.unrecognized + d.unrecognized)
  }

  function AppendResult(m: Request, r: Result<Request>): Result<Request> {
    match r
    case Err(e) => Err(e)
    case Ok(d) => Ok(Append(m, d))
  }

  lemma ApplyOnto(m: Request, d: Request, f: Field)
    ensures ApplyRequest(Append(m, d), f) == AppendResult(m, ApplyRequest(d, f))
  {
    hide DecodeTimeSeries;
    match f
    case ChunkField(num, s) =>
      assert m.symbols + d.symbols + [s] == m.symbols + (d.symbols + [s]);
      if DecodeTimeSeries(s, NO_TIME_SERIES).Ok? {
        var x := DecodeTimeSeries(s, NO_TIME_SERIES).value;
        assert m.timeseries + d.timeseries + [x] == m.timeseries + (d.timeseries + [x]);
      }
    case UnknownField(raw) =>
      assert m.unrecognized + d.unrecognized + raw == m.unrecognized + (d.unrecognized + raw);
    case _ =>
  }

  lemma {:induction false} DecodeOnto(s: bytes, i: nat, m: Request, d: Request)
    ensures Decode(RequestSchema, ApplyRequest, s, i, Append(m, d)) ==
            AppendResult(m, Decode(RequestSchema, ApplyRequest, s, i, d))
    decreases |s| - i
  {
    hide FieldAt, Decode, Append, ApplyRequest;
    if i < |s| {
      DecodeTurn(RequestSchema, ApplyRequest, s, i, Append(m, d));
      DecodeTurn(RequestSchema, ApplyRequest, s, i, d);
      if FieldAt(RequestSchema, s, i).Ok? {
        var (f, j) := FieldAt(RequestSchema, s, i).value;
        ApplyOnto(m, d, f);
        if ApplyRequest(d, f).Ok? {
          DecodeOnto(s, j, m, ApplyRequest(d, f).value);
        }
      }
    } else {
      DecodeEnd(RequestSchema, ApplyRequest, s, i, Append(m, d));
      DecodeEnd(RequestSchema, ApplyRequest, s, i, d);
    }
  }

  lemma RequestStopsAlike(s: bytes, m: Request, m': Request, d: nat)
    requires |s| < TWO_63
    ensures StopsWrapped(RequestSchema, ApplyRequest, s, 0, m, d) == StopsWrapped(RequestSchema, ApplyRequest, s, 0, m', d)
  {
    hide StopsWrapped, Readable, DecodeTimeSeries;
    StopsAlike(RequestSchema, ApplyRequest, s, 0, m, m', d);
  }

  // When a decodes, a ++ b has the outcome of b, appended to the message of a,
  // if and only if b alone does not stop at an end that wraps behind a.
  lemma ConcatIsAppend(a: bytes, b: bytes)
    requires |a + b| < TWO_63 && DecodeRequest(a, NO_REQUEST).Ok?
    ensures var wrapped := StopsWrapped(RequestSchema, ApplyRequest, b, 0, NO_REQUEST, |a|);
            var both, second := DecodeRequest(a + b, NO_REQUEST), DecodeRequest(b, NO_REQUEST);
            var merged := AppendResult(DecodeRequest(a, NO_REQUEST).value, second);
            && (both == merged <==> !wrapped)
            && (wrapped ==> second == Err(UnexpectedEOF) && both == Err(InvalidLength))
  {
    var ma := DecodeRequest(a, NO_REQUEST).value;
    assert Append(ma, NO_REQUEST) == ma;
    hide Decode, Append, StopsWrapped;
    DecodeConcat(RequestSchema, ApplyRequest, a, b, NO_REQUEST);
    DecodeOnto(b, 0, ma, NO_REQUEST);
    RequestStopsAlike(b, ma, NO_REQUEST, |a|);
  }

  // ---- singular fields and the embedded message ----------------------------

  // The known field numbers that s[i..] carries.
  function Numbers(schema: Schema, s: bytes, i: nat): set<nat>
    decreases |s| - i
  {
    if i >= |s| || FieldAt(schema, s, i).Err? then {}
    else
      var (f, j) := FieldAt(schema, s, i).value;
      (if f.UnknownField? then {} else {f.num}) + Numbers(schema, s, j)
  }

  // The numbers carried by the Metadata payloads of a series.
  function MetadataNumbers(s: bytes, i: nat): set<nat>
    decreases |s| - i
  {
    if i >= |s| || FieldAt(TimeSeriesSchema, s, i).Err? then {}
    else
      var (f, j) := FieldAt(TimeSeriesSchema, s, i).value;
      PayloadNumbers(f) + MetadataNumbers(s, j)
  }

  function PayloadNumbers(f: Field): set<nat> {
    if f.ChunkField? && f.num == 5 then Numbers(MetadataSchema, f.payload, 0) else {}
  }

  // d merged onto base, when the bytes of d carry these fields: a carried
  // field is taken from d, even when it is zero there.
  function MergeMetadata(base: Metadata, d: Metadata, carried: set<nat>): Metadata {
    Metadata(
      if 1 in carried then d.kind else base.kind,
      if 3 in carried then d.helpRef else base.helpRef,
      if 4 in carried then d.unitRef else base.unitRef,
      base.unrecognized + d.unrecognized)
  }

  function MergeSeries(base: TimeSeries, d: TimeSeries, carried: set<nat>, meta: set<nat>): TimeSeries {
    TimeSeries(
      base.labelsRefs + d.labelsRefs, base.samples + d.samples, base.histograms + d.histograms,
      base.exemplars + d.exemplars, MergeMetadata(base.metadata, d.metadata, meta),
      if 6 in carried then d.createdTimestamp else base.createdTimestamp,
      base.labels + d.labels, base.unrecognized + d.unrecognized)
  }

  function MergedMetadata(base: Metadata, r: Result<Metadata>, carried: set<nat>): Result<Metadata> {
    match r
    case Err(e) => Err(e)
    case Ok(d) => Ok(MergeMetadata(base, d, carried))
  }

  function MergedSeries(base: TimeSeries, r: Result<TimeSeries>, carried: set<nat>, meta: set<nat>): Result<TimeSeries> {
    match r
    case Err(e) => Err(e)
    case Ok(d) => Ok(MergeSeries(base, d, carried, meta))
  }

  function Known(f: Field): set<nat> { if f.UnknownField? then {} else {f.num} }

  lemma MetadataTurn(base: Metadata, d: Metadata, carried: set<nat>, f: Field)
    requires f.IntField? ==> MetadataSchema(f.num) == Int
    ensures ApplyMetadata(MergeMetadata(base, d, carried), f) ==
            MergedMetadata(base, ApplyMetadata(d, f), carried + if f.IntField? then {f.num} else {})
  {
    if f.UnknownField? {
      assert base.unrecognized + d.unrecognized + f.raw == base.unrecognized + (d.unrecognized + f.raw);
    }
  }

  lemma {:induction false} MetadataOnto(s: bytes, i: nat, base: Metadata, d: Metadata, carried: set<nat>)
    requires |s| < TWO_63
    ensures Decode(MetadataSchema, ApplyMetadata, s, i, MergeMetadata(base, d, carried)) ==
            MergedMetadata(base, Decode(MetadataSchema, ApplyMetadata, s, i, d), carried + Numbers(MetadataSchema, s, i))
    decreases |s| - i
  {
    hide FieldAt, Decode, MergeMetadata, ApplyMetadata, UnknownRecord;
    var m := MergeMetadata(base, d, carried);
    if i < |s| {
      DecodeTurn(MetadataSchema, ApplyMetadata, s, i, m);
      DecodeTurn(MetadataSchema, ApplyMetadata, s, i, d);
      if FieldAt(MetadataSchema, s, i).Ok? {
        var (f, j) := FieldAt(MetadataSchema, s, i).value;
        FieldReadable(MetadataSchema, s, i);
        MetadataTurn(base, d, carried, f);
        OnlyScalars(d, f);
        MetadataOnto(s, j, base, ApplyMetadata(d, f).value, carried + Known(f));
        assert carried + Known(f) + Numbers(MetadataSchema, s, j) == carried + Numbers(MetadataSchema, s, i);
      }
    } else {
      DecodeEnd(MetadataSchema, ApplyMetadata, s, i, m);
      DecodeEnd(MetadataSchema, ApplyMetadata, s, i, d);
      assert carried + {} == carried;
    }
  }

  lemma OnlyScalars(d: Metadata, f: Field)
    requires Readable(MetadataSchema, f)
    ensures ApplyMetadata(d, f).Ok? && (f.IntField? || f.UnknownField?)
  {
    hide UnknownRecord;
  }

  lemma SeriesTurn(base: TimeSeries, d: TimeSeries, carried: set<nat>, meta: set<nat>, f: Field)
    requires Readable(TimeSeriesSchema, f)
    ensures ApplyTimeSeries(MergeSeries(base, d, carried, meta), f) ==
            MergedSeries(base, ApplyTimeSeries(d, f), carried + Known(f), meta + PayloadNumbers(f))
  {
    hide DecodeSample, DecodeHistogram, DecodeExemplar, DecodeLabel, Numbers, UnknownRecord, Refs;
    match f
    case IntsField(_, vs) =>
      assert base.labelsRefs + d.labelsRefs + Refs(vs) == base.labelsRefs + (d.labelsRefs + Refs(vs));
    case UnknownField(raw) =>
      assert base.unrecognized + d.unrecognized + raw == base.unrecognized + (d.unrecognized + raw);
    case ChunkField(num, s) =>
      if num == 2 && DecodeSample(s, NO_SAMPLE).Ok? {
        var x := DecodeSample(s, NO_SAMPLE).value;
        assert base.samples + d.samples + [x] == base.samples + (d.samples + [x]);
      } else if num == 3 && DecodeHistogram(s, NO_HISTOGRAM).Ok? {
        var x := DecodeHistogram(s, NO_HISTOGRAM).value;
        assert base.histograms + d.histograms + [x] == base.histograms + (d.histograms + [x]);
      } else if num == 4 && DecodeExemplar(s, NO_EXEMPLAR).Ok? {
        var x := DecodeExemplar(s, NO_EXEMPLAR).value;
        assert base.exemplars + d.exemplars + [x] == base.exemplars + (d.exemplars + [x]);
      } else if num == 5 {
        hide MergeMetadata, Decode;
        MetadataOnto(s, 0, base.metadata, d.metadata, meta);
      } else if num == 7 && DecodeLabel(s, NO_LABEL).Ok? {
        var x := DecodeLabel(s, NO_LABEL).value;
        assert base.labels + d.labels + [x] == base.labels + (d.labels + [x]);
      }
    case _ =>
  }

  lemma {:induction false} SeriesOnto(s: bytes, i: nat, base: TimeSeries, d: TimeSeries, carried: set<nat>, meta: set<nat>)
    requires |s| < TWO_63
    ensures Decode(TimeSeriesSchema, ApplyTimeSeries, s, i, MergeSeries(base, d, carried, meta)) ==
            MergedSeries(base, Decode(TimeSeriesSchema, ApplyTimeSeries, s, i, d),
                         carried + Numbers(TimeSeriesSchema, s, i), meta + MetadataNumbers(s, i))
    decreases |s| - i
  {
    hide FieldAt, Decode, MergeSeries, ApplyTimeSeries, PayloadNumbers, UnknownRecord, Readable;
    var m := MergeSeries(base, d, carried, meta);
    if i < |s| {
      DecodeTurn(TimeSeriesSchema, ApplyTimeSeries, s, i, m);
      DecodeTurn(TimeSeriesSchema, ApplyTimeSeries, s, i, d);
      if FieldAt(TimeSeriesSchema, s, i).Ok? {
        var (f, j) := FieldAt(TimeSeriesSchema, s, i).value;
        FieldReadable(TimeSeriesSchema, s, i);
        SeriesTurn(base, d, carried, meta, f);
        if ApplyTimeSeries(d, f).Ok? {
          SeriesOnto(s, j, base, ApplyTimeSeries(d, f).value, carried + Known(f), meta + PayloadNumbers(f));
          assert carried + Known(f) + Numbers(TimeSeriesSchema, s, j) == carried + Numbers(TimeSeriesSchema, s, i);
          assert meta + PayloadNumbers(f) + MetadataNumbers(s, j) == meta + MetadataNumbers(s, i);
        }
      }
    } else {
      DecodeEnd(TimeSeriesSchema, ApplyTimeSeries, s, i, m);
      DecodeEnd(TimeSeriesSchema, ApplyTimeSeries, s, i, d);
      assert carried + {} == carried && meta + {} == meta;
    }
  }

  // Whether a Metadata payload decodes does not depend on the Metadata present.
  lemma MetadataAlike(s: bytes, base: Metadata)
    requires |s| < TWO_63
    ensures DecodeMetadata(s, base).Ok? == DecodeMetadata(s, NO_METADATA).Ok?
  {
    assert MergeMetadata(base, NO_METADATA, {}) == base;
    hide Decode, MergeMetadata;
    MetadataOnto(s, 0, base, NO_METADATA, {});
  }

  lemma SeriesStopsAlike(s: bytes, m: TimeSeries, m': TimeSeries, d: nat)
    requires |s| < TWO_63
    ensures StopsWrapped(TimeSeriesSchema, ApplyTimeSeries, s, 0, m, d) ==
            StopsWrapped(TimeSeriesSchema, ApplyTimeSeries, s, 0, m', d)
  {
    hide StopsWrapped, UnknownRecord, DecodeSample, DecodeHistogram, DecodeExemplar, DecodeMetadata, DecodeLabel, Refs;
    forall x: TimeSeries, y: TimeSeries, f: Field | Readable(TimeSeriesSchema, f)
      ensures ApplyTimeSeries(x, f).Ok? == ApplyTimeSeries(y, f).Ok?
    {
      if f.ChunkField? && f.num == 5 {
        MetadataAlike(f.payload, x.metadata);
        MetadataAlike(f.payload, y.metadata);
      }
    }
    StopsAlike(TimeSeriesSchema, ApplyTimeSeries, s, 0, m, m', d);
  }

  // A series decoded from a ++ b merges the two series: lists and unknown
  // bytes appended, created_timestamp and every Metadata field last-wins; with
  // the outcome of b alone under the same condition.
  lemma SeriesConcatIsMerge(a: bytes, b: bytes)
    requires |a + b| < TWO_63 && DecodeTimeSeries(a, NO_TIME_SERIES).Ok?
    ensures var wrapped := StopsWrapped(TimeSeriesSchema, ApplyTimeSeries, b, 0, NO_TIME_SERIES, |a|);
            var both, second := DecodeTimeSeries(a + b, NO_TIME_SERIES), DecodeTimeSeries(b, NO_TIME_SERIES);
            var merged := MergedSeries(DecodeTimeSeries(a, NO_TIME_SERIES).value, second,
                                       Numbers(TimeSeriesSchema, b, 0), MetadataNumbers(b, 0));
            && (both == merged <==> !wrapped)
            && (wrapped ==> second == Err(UnexpectedEOF) && both == Err(InvalidLength))
  {
    var ma := DecodeTimeSeries(a, NO_TIME_SERIES).value;
    assert MergeSeries(ma, NO_TIME_SERIES, {}, {}) == ma;
    hide Decode, MergeSeries, StopsWrapped, Numbers, MetadataNumbers;
    DecodeConcat(TimeSeriesSchema, ApplyTimeSeries, a, b, NO_TIME_SERIES);
    SeriesOnto(b, 0, ma, NO_TIME_SERIES, {}, {});
    SeriesStopsAlike(b, ma, NO_TIME_SERIES, |a|);
    assert {} + Numbers(TimeSeriesSchema, b, 0) == Numbers(TimeSeriesSchema, b, 0);
    assert {} + MetadataNumbers(b, 0) == MetadataNumbers(b, 0);
  }

  // ---- oneofs --------------------------------------------------------------

  // A oneof is taken from d when either of its two members is carried: the last
  // one carried wins, whichever member base has.
  function MergeHistogram(base: Histogram, d: Histogram, carried: set<nat>): Histogram {
    Histogram(
      if 1 in carried || 2 in carried then d.count else base.count,
      if 3 in carried then d.sum else base.sum,
      if 4 in carried then d.schema else base.schema,
      if 5 in carried then d.zeroThreshold else base.zeroThreshold,
      if 6 in carried || 7 in carried then d.zeroCount else base.zeroCount,
      base.negativeSpans + d.negativeSpans, base.negativeDeltas + d.negativeDeltas,
      base.negativeCounts + d.negativeCounts,
      base.positiveSpans + d.positiveSpans, base.positiveDeltas + d.positiveDeltas,
      base.positiveCounts + d.positiveCounts,
      if 14 in carried then d.resetHint else base.resetHint,
      if 15 in carried then d.timestamp else base.timestamp,
      base.customValues + d.customValues, base.unrecognized + d.unrecognized)
  }

  function MergedHistogram(base: Histogram, r: Result<Histogram>, carried: set<nat>): Result<Histogram> {
    match r
    case Err(e) => Err(e)
    case Ok(d) => Ok(MergeHistogram(base, d, carried))
  }

  lemma Associates<T>(a: seq<T>, b: seq<T>, c: seq<T>)
    ensures a + b + c == a + (b + c)
  {
  }

  lemma HistogramIntTurn(base: Histogram, d: Histogram, carried: set<nat>, f: Field)
    requires f.IntField? && HistogramSchema(f.num) == Int
    ensures ApplyHistogram(MergeHistogram(base, d, carried), f) ==
            MergedHistogram(base, ApplyHistogram(d, f), carried + {f.num})
  {
    hide UnZigZag32, U32, I32, I64;
    assert f.num in {1, 4, 6, 14, 15};
    hide HistogramSchema;
    var h := ApplyHistogram(d, f).value;
    assert MergeHistogram(base, h, carried + {f.num}) == ApplyHistogram(MergeHistogram(base, d, carried), f).value;
  }

  lemma HistogramDoubleTurn(base: Histogram, d: Histogram, carried: set<nat>, f: Field)
    requires f.DoubleField? && HistogramSchema(f.num) == Double
    ensures ApplyHistogram(MergeHistogram(base, d, carried), f) ==
            MergedHistogram(base, ApplyHistogram(d, f), carried + {f.num})
  {
    assert f.num in {2, 3, 5, 7};
    hide HistogramSchema;
    var h := ApplyHistogram(d, f).value;
    assert MergeHistogram(base, h, carried + {f.num}) == ApplyHistogram(MergeHistogram(base, d, carried), f).value;
  }

  lemma HistogramSpanTurn(base: Histogram, d: Histogram, carried: set<nat>, f: Field)
    requires f.ChunkField? && HistogramSchema(f.num) == Chunk
    ensures ApplyHistogram(MergeHistogram(base, d, carried), f) ==
            MergedHistogram(base, ApplyHistogram(d, f), carried + {f.num})
  {
    hide DecodeSpan;
    assert f.num in {8, 11};
    hide HistogramSchema;
    if DecodeSpan(f.payload, NO_SPAN).Ok? {
      var span := DecodeSpan(f.payload, NO_SPAN).value;
      Associates(base.negativeSpans, d.negativeSpans, [span]);
      Associates(base.positiveSpans, d.positiveSpans, [span]);
    }
  }

  lemma HistogramDeltasTurn(base: Histogram, d: Histogram, carried: set<nat>, f: Field)
    requires f.IntsField? && HistogramSchema(f.num) == Ints
    ensures ApplyHistogram(MergeHistogram(base, d, carried), f) ==
            MergedHistogram(base, ApplyHistogram(d, f), carried + {f.num})
  {
    hide Map, UnZigZag64;
    assert f.num in {9, 12};
    hide HistogramSchema;
    Associates(base.negativeDeltas, d.negativeDeltas, Map(UnZigZag64, f.vs));
    Associates(base.positiveDeltas, d.positiveDeltas, Map(UnZigZag64, f.vs));
  }

  lemma HistogramCountsTurn(base: Histogram, d: Histogram, carried: set<nat>, f: Field)
    requires f.DoublesField? && HistogramSchema(f.num) == Doubles
    ensures ApplyHistogram(MergeHistogram(base, d, carried), f) ==
            MergedHistogram(base, ApplyHistogram(d, f), carried + {f.num})
  {
    assert f.num in {10, 13, 16};
    hide HistogramSchema;
    Associates(base.negativeCounts, d.negativeCounts, f.vs);
    Associates(base.positiveCounts, d.positiveCounts, f.vs);
    Associates(base.customValues, d.customValues, f.vs);
  }

  lemma HistogramTurn(base: Histogram, d: Histogram, carried: set<nat>, f: Field)
    requires Readable(HistogramSchema, f)
    ensures ApplyHistogram(MergeHistogram(base, d, carried), f) ==
            MergedHistogram(base, ApplyHistogram(d, f), carried + Known(f))
  {
    hide HistogramSchema, UnknownRecord;
    match f
    case IntField(_, _) => hide ApplyHistogram, MergeHistogram; HistogramIntTurn(base, d, carried, f);
    case DoubleField(_, _) => hide ApplyHistogram, MergeHistogram; HistogramDoubleTurn(base, d, carried, f);
    case ChunkField(_, _) => hide ApplyHistogram, MergeHistogram; HistogramSpanTurn(base, d, carried, f);
    case IntsField(_, _) => hide ApplyHistogram, MergeHistogram; HistogramDeltasTurn(base, d, carried, f);
    case DoublesField(_, _) => hide ApplyHistogram, MergeHistogram; HistogramCountsTurn(base, d, carried, f);
    case UnknownField(raw) =>
      Associates(base.unrecognized, d.unrecognized, raw);
      assert carried + {} == carried;
  }

  lemma {:induction false} HistogramOnto(s: bytes, i: nat, base: Histogram, d: Histogram, carried: set<nat>)
    requires |s| < TWO_63
    ensures Decode(HistogramSchema, ApplyHistogram, s, i, MergeHistogram(base, d, carried)) ==
            MergedHistogram(base, Decode(HistogramSchema, ApplyHistogram, s, i, d), carried + Numbers(HistogramSchema, s, i))
    decreases |s| - i
  {
    hide FieldAt, Decode, MergeHistogram, ApplyHistogram, UnknownRecord, HistogramSchema;
    var m := MergeHistogram(base, d, carried);
    if i < |s| {
      DecodeTurn(HistogramSchema, ApplyHistogram, s, i, m);
      DecodeTurn(HistogramSchema, ApplyHistogram, s, i, d);
      if FieldAt(HistogramSchema, s, i).Ok? {
        var (f, j) := FieldAt(HistogramSchema, s, i).value;
        FieldReadable(HistogramSchema, s, i);
        HistogramTurn(base, d, carried, f);
        if ApplyHistogram(d, f).Ok? {
          HistogramOnto(s, j, base, ApplyHistogram(d, f).value, carried + Known(f));
          assert carried + Known(f) + Numbers(HistogramSchema, s, j) == carried + Numbers(HistogramSchema, s, i);
        }
      }
    } else {
      DecodeEnd(HistogramSchema, ApplyHistogram, s, i, m);
      DecodeEnd(HistogramSchema, ApplyHistogram, s, i, d);
      assert carried + {} == carried;
    }
  }

  // A histogram decoded from a ++ b merges the two histograms.
  lemma HistogramConcatIsMerge(a: bytes, b: bytes)
    requires |a + b| < TWO_63 && DecodeHistogram(a, NO_HISTOGRAM).Ok?
    ensures var wrapped := StopsWrapped(HistogramSchema, ApplyHistogram, b, 0, NO_HISTOGRAM, |a|);
            var both, second := DecodeHistogram(a + b, NO_HISTOGRAM), DecodeHistogram(b, NO_HISTOGRAM);
            var merged := MergedHistogram(DecodeHistogram(a, NO_HISTOGRAM).value, second, Numbers(HistogramSchema, b, 0));
            && (both == merged <==> !wrapped)
            && (wrapped ==> second == Err(UnexpectedEOF) && both == Err(InvalidLength))
  {
    var ma := DecodeHistogram(a, NO_HISTOGRAM).value;
    assert MergeHistogram(ma, NO_HISTOGRAM, {}) == ma;
    hide Decode, MergeHistogram, StopsWrapped, Numbers;
    DecodeConcat(HistogramSchema, ApplyHistogram, a, b, NO_HISTOGRAM);
    HistogramOnto(b, 0, ma, NO_HISTOGRAM, {});
    HistogramStopsAlike(b, ma, NO_HISTOGRAM, |a|);
    assert {} + Numbers(HistogramSchema, b, 0) == Numbers(HistogramSchema, b, 0);
  }

  lemma HistogramStopsAlike(s: bytes, m: Histogram, m': Histogram, d: nat)
    requires |s| < TWO_63
    ensures StopsWrapped(HistogramSchema, ApplyHistogram, s, 0, m, d) ==
            StopsWrapped(HistogramSchema, ApplyHistogram, s, 0, m', d)
  {
    hide StopsWrapped, Readable, DecodeSpan, Map, UnZigZag32, UnZigZag64, U32, I32, I64;
    StopsAlike(HistogramSchema, ApplyHistogram, s, 0, m, m', d);
  }

  // ---- the flat messages ---------------------------------------------------

  function MergeLabel(base: Label, d: Label, carried: set<nat>): Label {
    Label(
      if 1 in carried then d.name else base.name,
      if 2 in carried then d.value else base.value,
      base.unrecognized + d.unrecognized)
  }

  function MergedLabel(base: Label, r: Result<Label>, carried: set<nat>): Result<Label> {
    match r
    case Err(e) => Err(e)
    case Ok(d) => Ok(MergeLabel(base, d, carried))
  }

  lemma LabelTurn(base: Label, d: Label, carried: set<nat>, f: Field)
    requires Readable(LabelSchema, f)
    ensures ApplyLabel(d, f).Ok?
    ensures ApplyLabel(MergeLabel(base, d, carried), f) == MergedLabel(base, ApplyLabel(d, f), carried + Known(f))
  {
    hide UnknownRecord, I64, U32, UnZigZag32, Refs;
    assert carried + {} == carried;
    if f.UnknownField? {
      Associates(base.unrecognized, d.unrecognized, f.raw);
    }
  }

  // Decoding onto a Label takes exactly the fields that the bytes carry.
  lemma {:induction false} LabelOnto(s: bytes, i: nat, base: Label, d: Label, carried: set<nat>)
    requires |s| < TWO_63
    ensures Decode(LabelSchema, ApplyLabel, s, i, MergeLabel(base, d, carried)) ==
            MergedLabel(base, Decode(LabelSchema, ApplyLabel, s, i, d), carried + Numbers(LabelSchema, s, i))
    decreases |s| - i
  {
    hide FieldAt, Decode, MergeLabel, ApplyLabel, Readable;
    var m := MergeLabel(base, d, carried);
    if i < |s| {
      DecodeTurn(LabelSchema, ApplyLabel, s, i, m);
      DecodeTurn(LabelSchema, ApplyLabel, s, i, d);
      if FieldAt(LabelSchema, s, i).Ok? {
        var (f, j) := FieldAt(LabelSchema, s, i).value;
        FieldReadable(LabelSchema, s, i);
        LabelTurn(base, d, carried, f);
        LabelOnto(s, j, base, ApplyLabel(d, f).value, carried + Known(f));
        assert carried + Known(f) + Numbers(LabelSchema, s, j) == carried + Numbers(LabelSchema, s, i);
      }
    } else {
      DecodeEnd(LabelSchema, ApplyLabel, s, i, m);
      DecodeEnd(LabelSchema, ApplyLabel, s, i, d);
      assert carried + {} == carried;
    }
  }

  lemma LabelConcatIsMerge(a: bytes, b: bytes)
    requires |a + b| < TWO_63 && DecodeLabel(a, NO_LABEL).Ok?
    ensures var wrapped := StopsWrapped(LabelSchema, ApplyLabel, b, 0, NO_LABEL, |a|);
            var both, second := DecodeLabel(a + b, NO_LABEL), DecodeLabel(b, NO_LABEL);
            var merged := MergedLabel(DecodeLabel(a, NO_LABEL).value, second, Numbers(LabelSchema, b, 0));
            && (both == merged <==> !wrapped)
            && (wrapped ==> second == Err(UnexpectedEOF) && both == Err(InvalidLength))
  {
    var ma := DecodeLabel(a, NO_LABEL).value;
    assert MergeLabel(ma, NO_LABEL, {}) == ma;
    hide Decode, MergeLabel, StopsWrapped, Numbers;
    DecodeConcat(LabelSchema, ApplyLabel, a, b, NO_LABEL);
    LabelOnto(b, 0, ma, NO_LABEL, {});
    LabelStopsAlike(b, ma, NO_LABEL, |a|);
    assert {} + Numbers(LabelSchema, b, 0) == Numbers(LabelSchema, b, 0);
  }

  lemma LabelStopsAlike(s: bytes, m: Label, m': Label, d: nat)
    requires |s| < TWO_63
    ensures StopsWrapped(LabelSchema, ApplyLabel, s, 0, m, d) == StopsWrapped(LabelSchema, ApplyLabel, s, 0, m', d)
  {
    hide StopsWrapped, UnknownRecord, I64, U32, UnZigZag32, Refs;
    StopsAlike(LabelSchema, ApplyLabel, s, 0, m, m', d);
  }

  function MergeSample(base: Sample, d: Sample, carried: set<nat>): Sample {
    Sample(
      if 1 in carried then d.value else base.value,
      if 2 in carried then d.timestamp else base.timestamp,
      base.unrecognized + d.unrecognized)
  }

  function MergedSample(base: Sample, r: Result<Sample>, carried: set<nat>): Result<Sample> {
    match r
    case Err(e) => Err(e)
    case Ok(d) => Ok(MergeSample(base, d, carried))
  }

  lemma SampleTurn(base: Sample, d: Sample, carried: set<nat>, f: Field)
    requires Readable(SampleSchema, f)
    ensures ApplySample(d, f).Ok?
    ensures ApplySample(MergeSample(base, d, carried), f) == MergedSample(base, ApplySample(d, f), carried + Known(f))
  {
    hide UnknownRecord, I64, U32, UnZigZag32, Refs;
    assert carried + {} == carried;
    if f.UnknownField? {
      Associates(base.unrecognized, d.unrecognized, f.raw);
    }
  }

  // Decoding onto a Sample takes exactly the fields that the bytes carry.
  lemma {:induction false} SampleOnto(s: bytes, i: nat, base: Sample, d: Sample, carried: set<nat>)
    requires |s| < TWO_63
    ensures Decode(SampleSchema, ApplySample, s, i, MergeSample(base, d, carried)) ==
            MergedSample(base, Decode(SampleSchema, ApplySample, s, i, d), carried + Numbers(SampleSchema, s, i))
    decreases |s| - i
  {
    hide FieldAt, Decode, MergeSample, ApplySample, Readable;
    var m := MergeSample(base, d, carried);
    if i < |s| {
      DecodeTurn(SampleSchema, ApplySample, s, i, m);
      DecodeTurn(SampleSchema, ApplySample, s, i, d);
      if FieldAt(SampleSchema, s, i).Ok? {
        var (f, j) := FieldAt(SampleSchema, s, i).value;
        FieldReadable(SampleSchema, s, i);
        SampleTurn(base, d, carried, f);
        SampleOnto(s, j, base, ApplySample(d, f).value, carried + Known(f));
        assert carried + Known(f) + Numbers(SampleSchema, s, j) == carried + Numbers(SampleSchema, s, i);
      }
    } else {
      DecodeEnd(SampleSchema, ApplySample, s, i, m);
      DecodeEnd(SampleSchema, ApplySample, s, i, d);
      assert carried + {} == carried;
    }
  }

  lemma SampleConcatIsMerge(a: bytes, b: bytes)
    requires |a + b| < TWO_63 && DecodeSample(a, NO_SAMPLE).Ok?
    ensures var wrapped := StopsWrapped(SampleSchema, ApplySample, b, 0, NO_SAMPLE, |a|);
            var both, second := DecodeSample(a + b, NO_SAMPLE), DecodeSample(b, NO_SAMPLE);
            var merged := MergedSample(DecodeSample(a, NO_SAMPLE).value, second, Numbers(SampleSchema, b, 0));
            && (both == merged <==> !wrapped)
            && (wrapped ==> second == Err(UnexpectedEOF) && both == Err(InvalidLength))
  {
    var ma := DecodeSample(a, NO_SAMPLE).value;
    assert MergeSample(ma, NO_SAMPLE, {}) == ma;
    hide Decode, MergeSample, StopsWrapped, Numbers;
    DecodeConcat(SampleSchema, ApplySample, a, b, NO_SAMPLE);
    SampleOnto(b, 0, ma, NO_SAMPLE, {});
    SampleStopsAlike(b, ma, NO_SAMPLE, |a|);
    assert {} + Numbers(SampleSchema, b, 0) == Numbers(SampleSchema, b, 0);
  }

  lemma SampleStopsAlike(s: bytes, m: Sample, m': Sample, d: nat)
    requires |s| < TWO_63
    ensures StopsWrapped(SampleSchema, ApplySample, s, 0, m, d) == StopsWrapped(SampleSchema, ApplySample, s, 0, m', d)
  {
    hide StopsWrapped, UnknownRecord, I64, U32, UnZigZag32, Refs;
    StopsAlike(SampleSchema, ApplySample, s, 0, m, m', d);
  }

  function MergeSpan(base: BucketSpan, d: BucketSpan, carried: set<nat>): BucketSpan {
    BucketSpan(
      if 1 in carried then d.offset else base.offset,
      if 2 in carried then d.length else base.length,
      base.unrecognized + d.unrecognized)
  }

  function MergedSpan(base: BucketSpan, r: Result<BucketSpan>, carried: set<nat>): Result<BucketSpan> {
    match r
    case Err(e) => Err(e)
    case Ok(d) => Ok(MergeSpan(base, d, carried))
  }

  lemma SpanTurn(base: BucketSpan, d: BucketSpan, carried: set<nat>, f: Field)
    requires Readable(SpanSchema, f)
    ensures ApplySpan(d, f).Ok?
    ensures ApplySpan(MergeSpan(base, d, carried), f) == MergedSpan(base, ApplySpan(d, f), carried + Known(f))
  {
    hide UnknownRecord, I64, U32, UnZigZag32, Refs;
    assert carried + {} == carried;
    if f.UnknownField? {
      Associates(base.unrecognized, d.unrecognized, f.raw);
    }
  }

  // Decoding onto a BucketSpan takes exactly the fields that the bytes carry.
  lemma {:induction false} SpanOnto(s: bytes, i: nat, base: BucketSpan, d: BucketSpan, carried: set<nat>)
    requires |s| < TWO_63
    ensures Decode(SpanSchema, ApplySpan, s, i, MergeSpan(base, d, carried)) ==
            MergedSpan(base, Decode(SpanSchema, ApplySpan, s, i, d), carried + Numbers(SpanSchema, s, i))
    decreases |s| - i
  {
    hide FieldAt, Decode, MergeSpan, ApplySpan, Readable;
    var m := MergeSpan(base, d, carried);
    if i < |s| {
      DecodeTurn(SpanSchema, ApplySpan, s, i, m);
      DecodeTurn(SpanSchema, ApplySpan, s, i, d);
      if FieldAt(SpanSchema, s, i).Ok? {
        var (f, j) := FieldAt(SpanSchema, s, i).value;
        FieldReadable(SpanSchema, s, i);
        SpanTurn(base, d, carried, f);
        SpanOnto(s, j, base, ApplySpan(d, f).value, carried + Known(f));
        assert carried + Known(f) + Numbers(SpanSchema, s, j) == carried + Numbers(SpanSchema, s, i);
      }
    } else {
      DecodeEnd(SpanSchema, ApplySpan, s, i, m);
      DecodeEnd(SpanSchema, ApplySpan, s, i, d);
      assert carried + {} == carried;
    }
  }

  lemma SpanConcatIsMerge(a: bytes, b: bytes)
    requires |a + b| < TWO_63 && DecodeSpan(a, NO_SPAN).Ok?
    ensures var wrapped := StopsWrapped(SpanSchema, ApplySpan, b, 0, NO_SPAN, |a|);
            var both, second := DecodeSpan(a + b, NO_SPAN), DecodeSpan(b, NO_SPAN);
            var merged := MergedSpan(DecodeSpan(a, NO_SPAN).value, second, Numbers(SpanSchema, b, 0));
            && (both == merged <==> !wrapped)
            && (wrapped ==> second == Err(UnexpectedEOF) && both == Err(InvalidLength))
  {
    var ma := DecodeSpan(a, NO_SPAN).value;
    assert MergeSpan(ma, NO_SPAN, {}) == ma;
    hide Decode, MergeSpan, StopsWrapped, Numbers;
    DecodeConcat(SpanSchema, ApplySpan, a, b, NO_SPAN);
    SpanOnto(b, 0, ma, NO_SPAN, {});
    SpanStopsAlike(b, ma, NO_SPAN, |a|);
    assert {} + Numbers(SpanSchema, b, 0) == Numbers(SpanSchema, b, 0);
  }

  lemma SpanStopsAlike(s: bytes, m: BucketSpan, m': BucketSpan, d: nat)
    requires |s| < TWO_63
    ensures StopsWrapped(SpanSchema, ApplySpan, s, 0, m, d) == StopsWrapped(SpanSchema, ApplySpan, s, 0, m', d)
  {
    hide StopsWrapped, UnknownRecord, I64, U32, UnZigZag32, Refs;
    StopsAlike(SpanSchema, ApplySpan, s, 0, m, m', d);
  }

  function MergeExemplar(base: Exemplar, d: Exemplar, carried: set<nat>): Exemplar {
    Exemplar(
      base.labelsRefs + d.labelsRefs,
      if 2 in carried then d.value else base.value,
      if 3 in carried then d.timestamp else base.timestamp,
      base.unrecognized + d.unrecognized)
  }

  function MergedExemplar(base: Exemplar, r: Result<Exemplar>, carried: set<nat>): Result<Exemplar> {
    match r
    case Err(e) => Err(e)
    case Ok(d) => Ok(MergeExemplar(base, d, carried))
  }

  lemma ExemplarTurn(base: Exemplar, d: Exemplar, carried: set<nat>, f: Field)
    requires Readable(ExemplarSchema, f)
    ensures ApplyExemplar(d, f).Ok?
    ensures ApplyExemplar(MergeExemplar(base, d, carried), f) == MergedExemplar(base, ApplyExemplar(d, f), carried + Known(f))
  {
    hide UnknownRecord, I64, U32, UnZigZag32, Refs;
    assert carried + {} == carried;
    if f.IntsField? {
      Associates(base.labelsRefs, d.labelsRefs, Refs(f.vs));
    }
    if f.UnknownField? {
      Associates(base.unrecognized, d.unrecognized, f.raw);
    }
  }

  // Decoding onto a Exemplar takes exactly the fields that the bytes carry.
  lemma {:induction false} ExemplarOnto(s: bytes, i: nat, base: Exemplar, d: Exemplar, carried: set<nat>)
    requires |s| < TWO_63
    ensures Decode(ExemplarSchema, ApplyExemplar, s, i, MergeExemplar(base, d, carried)) ==
            MergedExemplar(base, Decode(ExemplarSchema, ApplyExemplar, s, i, d), carried + Numbers(ExemplarSchema, s, i))
    decreases |s| - i
  {
    hide FieldAt, Decode, MergeExemplar, ApplyExemplar, Readable;
    var m := MergeExemplar(base, d, carried);
    if i < |s| {
      DecodeTurn(ExemplarSchema, ApplyExemplar, s, i, m);
      DecodeTurn(ExemplarSchema, ApplyExemplar, s, i, d);
      if FieldAt(ExemplarSchema, s, i).Ok? {
        var (f, j) := FieldAt(ExemplarSchema, s, i).value;
        FieldReadable(ExemplarSchema, s, i);
        ExemplarTurn(base, d, carried, f);
        ExemplarOnto(s, j, base, ApplyExemplar(d, f).value, carried + Known(f));
        assert carried + Known(f) + Numbers(ExemplarSchema, s, j) == carried + Numbers(ExemplarSchema, s, i);
      }
    } else {
      DecodeEnd(ExemplarSchema, ApplyExemplar, s, i, m);
      DecodeEnd(ExemplarSchema, ApplyExemplar, s, i, d);
      assert carried + {} == carried;
    }
  }

  lemma ExemplarConcatIsMerge(a: bytes, b: bytes)
    requires |a + b| < TWO_63 && DecodeExemplar(a, NO_EXEMPLAR).Ok?
    ensures var wrapped := StopsWrapped(ExemplarSchema, ApplyExemplar, b, 0, NO_EXEMPLAR, |a|);
            var both, second := DecodeExemplar(a + b, NO_EXEMPLAR), DecodeExemplar(b, NO_EXEMPLAR);
            var merged := MergedExemplar(DecodeExemplar(a, NO_EXEMPLAR).value, second, Numbers(ExemplarSchema, b, 0));
            && (both == merged <==> !wrapped)
            && (wrapped ==> second == Err(UnexpectedEOF) && both == Err(InvalidLength))
  {
    var ma := DecodeExemplar(a, NO_EXEMPLAR).value;
    assert MergeExemplar(ma, NO_EXEMPLAR, {}) == ma;
    hide Decode, MergeExemplar, StopsWrapped, Numbers;
    DecodeConcat(ExemplarSchema, ApplyExemplar, a, b, NO_EXEMPLAR);
    ExemplarOnto(b, 0, ma, NO_EXEMPLAR, {});
    ExemplarStopsAlike(b, ma, NO_EXEMPLAR, |a|);
    assert {} + Numbers(ExemplarSchema, b, 0) == Numbers(ExemplarSchema, b, 0);
  }

  lemma ExemplarStopsAlike(s: bytes, m: Exemplar, m': Exemplar, d: nat)
    requires |s| < TWO_63
    ensures StopsWrapped(ExemplarSchema, ApplyExemplar, s, 0, m, d) == StopsWrapped(ExemplarSchema, ApplyExemplar, s, 0, m', d)
  {
    hide StopsWrapped, UnknownRecord, I64, U32, UnZigZag32, Refs;
    StopsAlike(ExemplarSchema, ApplyExemplar, s, 0, m, m', d);
  }

  lemma MetadataConcatIsMerge(a: bytes, b: bytes)
    requires |a + b| < TWO_63 && DecodeMetadata(a, NO_METADATA).Ok?
    ensures var wrapped := StopsWrapped(MetadataSchema, ApplyMetadata, b, 0, NO_METADATA, |a|);
            var both, second := DecodeMetadata(a + b, NO_METADATA), DecodeMetadata(b, NO_METADATA);
            var merged := MergedMetadata(DecodeMetadata(a, NO_METADATA).value, second, Numbers(MetadataSchema, b, 0));
            && (both == merged <==> !wrapped)
            && (wrapped ==> second == Err(UnexpectedEOF) && both == Err(InvalidLength))
  {
    var ma := DecodeMetadata(a, NO_METADATA).value;
    assert MergeMetadata(ma, NO_METADATA, {}) == ma;
    hide Decode, MergeMetadata, StopsWrapped, Numbers;
    DecodeConcat(MetadataSchema, ApplyMetadata, a, b, NO_METADATA);
    MetadataOnto(b, 0, ma, NO_METADATA, {});
    MetadataStopsAlike(b, ma, NO_METADATA, |a|);
    assert {} + Numbers(MetadataSchema, b, 0) == Numbers(MetadataSchema, b, 0);
  }

  lemma MetadataStopsAlike(s: bytes, m: Metadata, m': Metadata, d: nat)
    requires |s| < TWO_63
    ensures StopsWrapped(MetadataSchema, ApplyMetadata, s, 0, m, d) ==
            StopsWrapped(MetadataSchema, ApplyMetadata, s, 0, m', d)
  {
    hide StopsWrapped, UnknownRecord, I32, U32;
    StopsAlike(MetadataSchema, ApplyMetadata, s, 0, m, m', d);
  }

  // ---- the kind of an error ------------------------------------------------

  // A length whose end is still an int at index 10, and wraps at index 11.
  const HUGE: uint64 := 0x7fff_ffff_ffff_fff5

  // A symbol of HUGE bytes, none of which follow.
  function CutOff(): bytes { [0x22] + Varint(HUGE) }

  lemma HugeLength()
    ensures |Varint(HUGE)| == 9
  {
    Pow2Table();
    Pow2Times128(56);
    VarintLength(HUGE, 9);
    VarintAtLeast(HUGE, 9);
  }

  // The tag byte of field 4 with wire type 2.
  lemma SymbolTag(s: bytes, i: nat)
    requires i < |s| && s[i] == 0x22
    ensures TagAt(s, i) == Ok(TagInfo(4, 2, i + 1))
  {
    assert VarintAt(s, i, 0) == Ok((0x22, i + 1));
  }

  lemma CutOffAt(s: bytes, i: nat)
    requires i < 100 && |s| == i + 10 && s[i] == 0x22 && Window(Varint(HUGE), 0, |Varint(HUGE)|, s, i + 1)
    ensures FieldAt(RequestSchema, s, i) == Err(if i == 0 then UnexpectedEOF else InvalidLength)
  {
    SymbolTag(s, i);
    HugeLength();
    hide TagAt, VarintAt, Varint, Window, LengthAt;
    LengthReadBack(HUGE, s, i + 1);
  }

  lemma OneEmptySymbol()
    ensures DecodeRequest([0x22, 0x00], NO_REQUEST) == Ok(Request([[]], [], []))
  {
    var a: bytes := [0x22, 0x00];
    SymbolTag(a, 0);
    assert VarintAt(a, 1, 0) == Ok((0, 2));
    hide TagAt, VarintAt;
    assert a[2..2] == [];
    assert FieldAt(RequestSchema, a, 0) == Ok((ChunkField(4, []), 2));
    hide FieldAt;
    var one: seq<bytes> := [[]];
    assert NO_REQUEST.symbols + one == one;
    DecodeTurn(RequestSchema, ApplyRequest, a, 0, NO_REQUEST);
    DecodeEnd(RequestSchema, ApplyRequest, a, 2, Request([[]], [], []));
  }

  lemma CutOffAlone(s: bytes, i: nat, m: Request)
    requires i < 100 && |s| == i + 10 && s[i..] == CutOff()
    ensures Decode(RequestSchema, ApplyRequest, s, i, m) == Err(if i == 0 then UnexpectedEOF else InvalidLength)
  {
    HugeLength();
    hide Varint, FieldAt;
    assert s[i] == CutOff()[0] == 0x22;
    forall k | 0 <= k < 9
      ensures Varint(HUGE)[k] == s[k + (i + 1)]
    {
      assert s[i..][k + 1] == CutOff()[k + 1];
    }
    CutOffAt(s, i);
    DecodeTurn(RequestSchema, ApplyRequest, s, i, m);
  }

  // An input where the condition fails: b is cut off, but behind two more
  // bytes its length is negative.
  lemma ErrorKindDependsOnPosition()
    ensures var a, b := [0x22, 0x00], CutOff();
            && DecodeRequest(a, NO_REQUEST) == Ok(Request([[]], [], []))
            && DecodeRequest(b, NO_REQUEST) == Err(UnexpectedEOF)
            && DecodeRequest(a + b, NO_REQUEST) == Err(InvalidLength)
            && StopsWrapped(RequestSchema, ApplyRequest, b, 0, NO_REQUEST, |a|)
  {
    var a: bytes, b := [0x22, 0x00], CutOff();
    HugeLength();
    hide FieldAt, Varint, Decode, CutOff;
    OneEmptySymbol();
    assert |b| == 10 by { CutOffSize(); }
    assert b[0..] == b && (a + b)[2..] == b;
    CutOffAlone(b, 0, NO_REQUEST);
    CutOffAlone(a + b, 2, Request([[]], [], []));
    DecodePrefix(RequestSchema, ApplyRequest, a, b, 0, NO_REQUEST);
    ConcatIsAppend(a, b);
  }

  lemma CutOffSize()
    ensures |CutOff()| == 10
  {
    HugeLength();
    hide Varint;
  }
}
