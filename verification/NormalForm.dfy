// Whatever Unmarshal accepts is in the domain of the round trip, so decoding
// and encoding again settles after one step.
module NormalForm {
  import opened Words
  import opened Fields
  import opened Decoding
  import opened Pieces
  import opened Messages
  import opened RoundTrip

  // Unknown bytes grow by whole unknown fields.
  lemma LabelSettles(s: bytes, m: Label)
    requires |s| < TWO_63 && LabelOk(m) && DecodeLabel(s, m).Ok?
    ensures LabelOk(DecodeLabel(s, m).value)
  {
    hide UnknownBytes, Decode, UnknownRecord;
    forall m: Label, f: Field | LabelOk(m) && Readable(LabelSchema, f) && ApplyLabel(m, f).Ok?
      ensures LabelOk(ApplyLabel(m, f).value)
    {
      if f.UnknownField? { UnknownBytesAppend(LabelSchema, m.unrecognized, f.raw); }
    }
    DecodeInvariant(LabelSchema, ApplyLabel, LabelOk, s, 0, m);
  }

  lemma SampleSettles(s: bytes, m: Sample)
    requires |s| < TWO_63 && SampleOk(m) && DecodeSample(s, m).Ok?
    ensures SampleOk(DecodeSample(s, m).value)
  {
    hide UnknownBytes, Decode, UnknownRecord;
    forall m: Sample, f: Field | SampleOk(m) && Readable(SampleSchema, f) && ApplySample(m, f).Ok?
      ensures SampleOk(ApplySample(m, f).value)
    {
      if f.UnknownField? { UnknownBytesAppend(SampleSchema, m.unrecognized, f.raw); }
    }
    DecodeInvariant(SampleSchema, ApplySample, SampleOk, s, 0, m);
  }

  lemma SpanSettles(s: bytes, m: BucketSpan)
    requires |s| < TWO_63 && SpanOk(m) && DecodeSpan(s, m).Ok?
    ensures SpanOk(DecodeSpan(s, m).value)
  {
    hide UnknownBytes, Decode, UnknownRecord;
    forall m: BucketSpan, f: Field | SpanOk(m) && Readable(SpanSchema, f) && ApplySpan(m, f).Ok?
      ensures SpanOk(ApplySpan(m, f).value)
    {
      if f.UnknownField? { UnknownBytesAppend(SpanSchema, m.unrecognized, f.raw); }
    }
    DecodeInvariant(SpanSchema, ApplySpan, SpanOk, s, 0, m);
  }

  lemma MetadataSettles(s: bytes, m: Metadata)
    requires |s| < TWO_63 && MetadataOk(m) && DecodeMetadata(s, m).Ok?
    ensures MetadataOk(DecodeMetadata(s, m).value)
  {
    hide UnknownBytes, Decode, UnknownRecord;
    forall m: Metadata, f: Field | MetadataOk(m) && Readable(MetadataSchema, f) && ApplyMetadata(m, f).Ok?
      ensures MetadataOk(ApplyMetadata(m, f).value)
    {
      if f.UnknownField? { UnknownBytesAppend(MetadataSchema, m.unrecognized, f.raw); }
    }
    DecodeInvariant(MetadataSchema, ApplyMetadata, MetadataOk, s, 0, m);
  }

  lemma ExemplarSettles(s: bytes, m: Exemplar)
    requires |s| < TWO_63 && ExemplarOk(m) && DecodeExemplar(s, m).Ok?
    ensures ExemplarOk(DecodeExemplar(s, m).value)
  {
    hide UnknownBytes, Decode, UnknownRecord;
    forall m: Exemplar, f: Field | ExemplarOk(m) && Readable(ExemplarSchema, f) && ApplyExemplar(m, f).Ok?
      ensures ExemplarOk(ApplyExemplar(m, f).value)
    {
      if f.UnknownField? { UnknownBytesAppend(ExemplarSchema, m.unrecognized, f.raw); }
    }
    DecodeInvariant(ExemplarSchema, ApplyExemplar, ExemplarOk, s, 0, m);
  }

  lemma HistogramStepOk(m: Histogram, f: Field)
    requires HistogramOk(m) && Readable(HistogramSchema, f) && ApplyHistogram(m, f).Ok?
    ensures HistogramOk(ApplyHistogram(m, f).value)
  {
    hide UnknownBytes, SpanOk, DecodeSpan, UnknownRecord;
    if f.UnknownField? {
      UnknownBytesAppend(HistogramSchema, m.unrecognized, f.raw);
    } else if f.ChunkField? {
      assert SpanOk(NO_SPAN) by { NoUnknownBytes(SpanSchema); SpanOkMeans(NO_SPAN); }
      SpanSettles(f.payload, NO_SPAN);
    }
  }

  lemma SpanOkMeans(m: BucketSpan)
    requires UnknownBytes(SpanSchema, m.unrecognized)
    ensures SpanOk(m)
  {
    hide UnknownBytes;
  }

  lemma HistogramSettles(s: bytes, m: Histogram)
    requires |s| < TWO_63 && HistogramOk(m) && DecodeHistogram(s, m).Ok?
    ensures HistogramOk(DecodeHistogram(s, m).value)
  {
    hide HistogramOk, Decode, Readable, ApplyHistogram;
    forall m: Histogram, f: Field | HistogramOk(m) && Readable(HistogramSchema, f) && ApplyHistogram(m, f).Ok?
      ensures HistogramOk(ApplyHistogram(m, f).value)
    {
      HistogramStepOk(m, f);
    }
    DecodeInvariant(HistogramSchema, ApplyHistogram, HistogramOk, s, 0, m);
  }

  lemma EmptyMessagesOk()
    ensures SampleOk(NO_SAMPLE) && HistogramOk(NO_HISTOGRAM) && ExemplarOk(NO_EXEMPLAR)
    ensures MetadataOk(NO_METADATA) && LabelOk(NO_LABEL) && TimeSeriesOk(NO_TIME_SERIES) && RequestOk(NO_REQUEST)
  {
    hide UnknownBytes;
    NoUnknownBytes(SampleSchema);
    NoUnknownBytes(HistogramSchema);
    NoUnknownBytes(ExemplarSchema);
    NoUnknownBytes(MetadataSchema);
    NoUnknownBytes(LabelSchema);
    NoUnknownBytes(TimeSeriesSchema);
    NoUnknownBytes(RequestSchema);
  }

  lemma TimeSeriesStepOk(m: TimeSeries, f: Field)
    requires TimeSeriesOk(m) && Readable(TimeSeriesSchema, f) && ApplyTimeSeries(m, f).Ok?
    ensures TimeSeriesOk(ApplyTimeSeries(m, f).value)
  {
    EmptyMessagesOk();
    hide UnknownBytes, UnknownRecord, SampleOk, HistogramOk, ExemplarOk, MetadataOk, LabelOk;
    hide DecodeSample, DecodeHistogram, DecodeExemplar, DecodeMetadata, DecodeLabel;
    match f
    case UnknownField(raw) => UnknownBytesAppend(TimeSeriesSchema, m.unrecognized, raw);
    case ChunkField(num, s) =>
      if num == 2 { SampleSettles(s, NO_SAMPLE); }
      else if num == 3 { HistogramSettles(s, NO_HISTOGRAM); }
      else if num == 4 { ExemplarSettles(s, NO_EXEMPLAR); }
      else if num == 5 { MetadataSettles(s, m.metadata); }
      else { LabelSettles(s, NO_LABEL); }
    case _ =>
  }

  lemma TimeSeriesSettles(s: bytes, m: TimeSeries)
    requires |s| < TWO_63 && TimeSeriesOk(m) && DecodeTimeSeries(s, m).Ok?
    ensures TimeSeriesOk(DecodeTimeSeries(s, m).value)
  {
    hide TimeSeriesOk, Decode, Readable, ApplyTimeSeries;
    forall m: TimeSeries, f: Field | TimeSeriesOk(m) && Readable(TimeSeriesSchema, f) && ApplyTimeSeries(m, f).Ok?
      ensures TimeSeriesOk(ApplyTimeSeries(m, f).value)
    {
      TimeSeriesStepOk(m, f);
    }
    DecodeInvariant(TimeSeriesSchema, ApplyTimeSeries, TimeSeriesOk, s, 0, m);
  }

  lemma RequestStepOk(m: Request, f: Field)
    requires RequestOk(m) && Readable(RequestSchema, f) && ApplyRequest(m, f).Ok?
    ensures RequestOk(ApplyRequest(m, f).value)
  {
    EmptyMessagesOk();
    hide UnknownBytes, UnknownRecord, TimeSeriesOk, DecodeTimeSeries;
    match f
    case UnknownField(raw) => UnknownBytesAppend(RequestSchema, m.unrecognized, raw);
    case ChunkField(num, s) =>
      if num != 4 { TimeSeriesSettles(s, NO_TIME_SERIES); }
    case _ =>
  }

  lemma RequestSettles(s: bytes, m: Request)
    requires |s| < TWO_63 && RequestOk(m) && DecodeRequest(s, m).Ok?
    ensures RequestOk(DecodeRequest(s, m).value)
  {
    hide RequestOk, Decode, Readable, ApplyRequest;
    forall m: Request, f: Field | RequestOk(m) && Readable(RequestSchema, f) && ApplyRequest(m, f).Ok?
      ensures RequestOk(ApplyRequest(m, f).value)
    {
      RequestStepOk(m, f);
    }
    DecodeInvariant(RequestSchema, ApplyRequest, RequestOk, s, 0, m);
  }

  // ---- the normal form -----------------------------------------------------

  // Dropping -0.0 on the way out is the same as having +0.
  lemma EncodeIgnoresZeroSign(m: Request)
    ensures EncodeRequest(NormRequest(m)) == EncodeRequest(m)
  {
    hide EncodePieces, EncodeTimeSeries, Chunks;
    forall k | 0 <= k < |m.timeseries|
      ensures EncodeTimeSeries(NormTimeSeries(m.timeseries[k])) == EncodeTimeSeries(m.timeseries[k])
    {
      SeriesIgnoresZeroSign(m.timeseries[k]);
    }
    assert Map(EncodeTimeSeries, NormRequest(m).timeseries) == Map(EncodeTimeSeries, m.timeseries);
  }

  lemma SeriesIgnoresZeroSign(m: TimeSeries)
    ensures EncodeTimeSeries(NormTimeSeries(m)) == EncodeTimeSeries(m)
  {
    hide EncodePieces, EncodeSample, EncodeHistogram, EncodeExemplar, Chunks;
    var n := NormTimeSeries(m);
    forall k | 0 <= k < |m.samples|
      ensures EncodeSample(NormSample(m.samples[k])) == EncodeSample(m.samples[k])
    {
      SampleIgnoresZeroSign(m.samples[k]);
    }
    forall k | 0 <= k < |m.histograms|
      ensures EncodeHistogram(NormHistogram(m.histograms[k])) == EncodeHistogram(m.histograms[k])
    {
      HistogramIgnoresZeroSign(m.histograms[k]);
    }
    forall k | 0 <= k < |m.exemplars|
      ensures EncodeExemplar(NormExemplar(m.exemplars[k])) == EncodeExemplar(m.exemplars[k])
    {
      ExemplarIgnoresZeroSign(m.exemplars[k]);
    }
    assert Map(EncodeSample, n.samples) == Map(EncodeSample, m.samples);
    assert Map(EncodeHistogram, n.histograms) == Map(EncodeHistogram, m.histograms);
    assert Map(EncodeExemplar, n.exemplars) == Map(EncodeExemplar, m.exemplars);
    assert TimeSeriesPieces(n) == TimeSeriesPieces(m);
  }

  lemma SampleIgnoresZeroSign(m: Sample)
    ensures EncodeSample(NormSample(m)) == EncodeSample(m)
  {
    hide EncodePieces;
  }

  lemma ExemplarIgnoresZeroSign(m: Exemplar)
    ensures EncodeExemplar(NormExemplar(m)) == EncodeExemplar(m)
  {
    hide EncodePieces;
  }

  lemma HistogramIgnoresZeroSign(m: Histogram)
    ensures EncodeHistogram(NormHistogram(m)) == EncodeHistogram(m)
  {
    hide EncodePieces, EncodeSpan, Chunks;
    assert HistogramPieces(NormHistogram(m)) == HistogramPieces(m);
  }

  // Every accepted input decodes to a message that survives another trip, and
  // the bytes of that trip are a fixed point: decoding and encoding them
  // changes nothing any more.
  lemma DecodeEncodeDecode(s: bytes)
    requires |s| < TWO_63 && DecodeRequest(s, NO_REQUEST).Ok?
    requires |EncodeRequest(DecodeRequest(s, NO_REQUEST).value)| < TWO_63
    ensures var m := DecodeRequest(s, NO_REQUEST).value;
            var e := EncodeRequest(m);
            DecodeRequest(e, NO_REQUEST) == Ok(NormRequest(m)) && EncodeRequest(NormRequest(m)) == e
  {
    hide RequestOk, DecodeRequest, EncodeRequest, NormRequest, TimeSeriesOk;
    var m := DecodeRequest(s, NO_REQUEST).value;
    EmptyMessagesOk();
    RequestSettles(s, NO_REQUEST);
    RequestRoundTrip(m);
    EncodeIgnoresZeroSign(m);
  }

  // ---- the exact domain of the round trip ----------------------------------

  lemma NormSeriesOk(m: TimeSeries)
    requires TimeSeriesOk(NormTimeSeries(m))
    ensures TimeSeriesOk(m)
  {
    hide Decoding.UnknownBytes;
    var n := NormTimeSeries(m);
    forall x | x in m.samples ensures SampleOk(x) {
      var k :| 0 <= k < |m.samples| && m.samples[k] == x;
      assert n.samples[k] in n.samples && n.samples[k] == NormSample(x);
    }
    forall x | x in m.histograms ensures HistogramOk(x) {
      var k :| 0 <= k < |m.histograms| && m.histograms[k] == x;
      assert n.histograms[k] in n.histograms && n.histograms[k] == NormHistogram(x);
    }
    forall x | x in m.exemplars ensures ExemplarOk(x) {
      var k :| 0 <= k < |m.exemplars| && m.exemplars[k] == x;
      assert n.exemplars[k] in n.exemplars && n.exemplars[k] == NormExemplar(x);
    }
  }

  lemma NormRequestOk(m: Request)
    requires RequestOk(NormRequest(m))
    ensures RequestOk(m)
  {
    hide Decoding.UnknownBytes, TimeSeriesOk;
    var n := NormRequest(m);
    forall x | x in m.timeseries ensures TimeSeriesOk(x) {
      var k :| 0 <= k < |m.timeseries| && m.timeseries[k] == x;
      assert n.timeseries[k] in n.timeseries && n.timeseries[k] == NormTimeSeries(x);
      NormSeriesOk(x);
    }
  }

  // A request survives the trip exactly when the unknown bytes it holds, at
  // every level, are whole fields unknown to their message.
  lemma RoundTripDomain(m: Request)
    requires |EncodeRequest(m)| < TWO_63
    ensures DecodeRequest(EncodeRequest(m), NO_REQUEST) == Ok(NormRequest(m)) <==> RequestOk(m)
  {
    hide RequestOk, DecodeRequest, EncodeRequest, NormRequest;
    if RequestOk(m) {
      RequestRoundTrip(m);
    } else if DecodeRequest(EncodeRequest(m), NO_REQUEST) == Ok(NormRequest(m)) {
      EmptyMessagesOk();
      RequestSettles(EncodeRequest(m), NO_REQUEST);
      NormRequestOk(m);
    }
  }
}
