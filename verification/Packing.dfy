// Packed and unpacked repeated scalars (protobuf Encoding, "Packed Repeated
// Fields"): however a sender splits a list into packed runs and single
// elements, the receiver appends the same list.
module Packing {
  import opened Words
  import opened Varints
  import opened Scalars
  import opened Skipping
  import opened Fields
  import opened Decoding
  import opened Messages
  import opened RoundTrip

  // One occurrence of the field: an element of its own, or a packed run.
  datatype Run = Single(v: uint64) | Packed(vs: seq<uint64>)

  function Values(r: Run): seq<uint64> { if r.Single? then [r.v] else r.vs }

  function AllValues(rs: seq<Run>): seq<uint64> {
    if rs == [] then [] else Values(rs[0]) + AllValues(rs[1..])
  }

  function IntRun(num: nat, r: Run): bytes {
    match r
    case Single(v) => Tag(num, 0) + Varint(v)
    case Packed(vs) => Tag(num, 2) + Prefixed(IntBytes(vs))
  }

  function DoubleRun(num: nat, r: Run): bytes {
    match r
    case Single(v) => Tag(num, 1) + Fixed64(v)
    case Packed(vs) => Tag(num, 2) + Prefixed(DoubleBytes(vs))
  }

  function Runs(run: Run -> bytes, rs: seq<Run>): bytes {
    if rs == [] then [] else run(rs[0]) + Runs(run, rs[1..])
  }

  function IntRuns(num: nat, rs: seq<Run>): bytes { Runs(r => IntRun(num, r), rs) }
  function DoubleRuns(num: nat, rs: seq<Run>): bytes { Runs(r => DoubleRun(num, r), rs) }

  lemma IntRunRead(schema: Schema, num: nat, r: Run)
    requires 0 < num < 0x1000_0000 && schema(num) == Ints && |IntRun(num, r)| < TWO_63
    ensures FieldAt(schema, IntRun(num, r), 0) == Ok((IntsField(num, Values(r)), |IntRun(num, r)|))
  {
    hide FieldAt, IntAt, SpanAt, PackedInts, Tag, Varint, Window, IntBytes;
    match r
    case Single(v) =>
      TagReadBack(schema, num, 0, Varint(v));
      IntReadBack(v, Tag(num, 0) + Varint(v), |Tag(num, 0)|);
    case Packed(vs) =>
      FieldRoundTrip(schema, IntsField(num, vs));
  }

  lemma DoubleRunRead(schema: Schema, num: nat, r: Run)
    requires 0 < num < 0x1000_0000 && schema(num) == Doubles && |DoubleRun(num, r)| < TWO_63
    ensures FieldAt(schema, DoubleRun(num, r), 0) == Ok((DoublesField(num, Values(r)), |DoubleRun(num, r)|))
  {
    hide FieldAt, DoubleAt, SpanAt, PackedDoubles, Tag, Varint, Fixed64, Window, DoubleBytes;
    match r
    case Single(v) =>
      TagReadBack(schema, num, 1, Fixed64(v));
      DoubleReadBack(v, Tag(num, 1) + Fixed64(v), |Tag(num, 1)|);
    case Packed(vs) =>
      FieldRoundTrip(schema, DoublesField(num, vs));
  }

  // run writes runs of field num, each of which is read alone as made, and
  // apply appends them with add.
  ghost predicate Repeated<M(!new), E(!new)>(schema: Schema, apply: (M, Field) -> Result<M>, run: Run -> bytes,
                                             made: seq<uint64> -> Field, add: (M, seq<E>) -> M, conv: uint64 -> E) {
    && (forall r :: |run(r)| < TWO_63 ==> FieldAt(schema, run(r), 0) == Ok((made(Values(r)), |run(r)|)))
    && (forall m: M, vs :: apply(m, made(vs)) == Ok(add(m, Map(conv, vs))))
    && Adds(add)
  }

  lemma MapConcat<A, B>(f: A -> B, a: seq<A>, b: seq<A>)
    ensures Map(f, a + b) == Map(f, a) + Map(f, b)
  {
  }

  lemma {:induction false} RunsAppend<M(!new), E(!new)>(
      schema: Schema, apply: (M, Field) -> Result<M>, run: Run -> bytes,
      made: seq<uint64> -> Field, add: (M, seq<E>) -> M, conv: uint64 -> E, rs: seq<Run>, m: M)
    requires Repeated(schema, apply, run, made, add, conv) && |Runs(run, rs)| < TWO_63
    ensures Decode(schema, apply, Runs(run, rs), 0, m) == Ok(add(m, Map(conv, AllValues(rs))))
    decreases |rs|
  {
    hide FieldAt, Decode, Map;
    if rs == [] {
      assert Map(conv, []) == [];
      DecodeEnd(schema, apply, [], 0, m);
    } else {
      var head, rest, vs := run(rs[0]), Runs(run, rs[1..]), Values(rs[0]);
      assert FieldAt(schema, head, 0) == Ok((made(vs), |head|));
      assert |head| > 0;
      var m' := add(m, Map(conv, vs));
      FieldInPrefix(schema, head, rest, 0);
      DecodeTurn(schema, apply, head + rest, 0, m);
      RunsAppend(schema, apply, run, made, add, conv, rs[1..], m');
      DecodeSuffix(schema, apply, head, rest, 0, m');
      MapConcat(conv, vs, AllValues(rs[1..]));
    }
  }

  // ---- the repeated scalars of the messages --------------------------------

  function AddRefs(m: TimeSeries, refs: seq<uint32>): TimeSeries { m.(labelsRefs := m.labelsRefs + refs) }
  function AddExemplarRefs(m: Exemplar, refs: seq<uint32>): Exemplar { m.(labelsRefs := m.labelsRefs + refs) }

  lemma SeriesRefsAnyPacking(rs: seq<Run>, m: TimeSeries)
    requires |IntRuns(1, rs)| < TWO_63
    ensures DecodeTimeSeries(IntRuns(1, rs), m) == Ok(AddRefs(m, Refs(AllValues(rs))))
  {
    hide FieldAt, IntRun, Map;
    var run := r => IntRun(1, r);
    forall r | |run(r)| < TWO_63 ensures FieldAt(TimeSeriesSchema, run(r), 0) == Ok((IntsField(1, Values(r)), |run(r)|)) {
      IntRunRead(TimeSeriesSchema, 1, r);
    }
    forall x: TimeSeries, a, b ensures AddRefs(AddRefs(x, a), b) == AddRefs(x, a + b) {
      SeqLaws(x.labelsRefs, a, b);
    }
    forall x: TimeSeries ensures AddRefs(x, []) == x {
      SeqLaws(x.labelsRefs, [], []);
    }
    RunsAppend(TimeSeriesSchema, ApplyTimeSeries, run, vs => IntsField(1, vs), AddRefs, Low32, rs, m);
  }

  lemma ExemplarRefsAnyPacking(rs: seq<Run>, m: Exemplar)
    requires |IntRuns(1, rs)| < TWO_63
    ensures DecodeExemplar(IntRuns(1, rs), m) == Ok(AddExemplarRefs(m, Refs(AllValues(rs))))
  {
    hide FieldAt, IntRun, Map;
    var run := r => IntRun(1, r);
    forall r | |run(r)| < TWO_63 ensures FieldAt(ExemplarSchema, run(r), 0) == Ok((IntsField(1, Values(r)), |run(r)|)) {
      IntRunRead(ExemplarSchema, 1, r);
    }
    forall x: Exemplar, a, b ensures AddExemplarRefs(AddExemplarRefs(x, a), b) == AddExemplarRefs(x, a + b) {
      SeqLaws(x.labelsRefs, a, b);
    }
    forall x: Exemplar ensures AddExemplarRefs(x, []) == x {
      SeqLaws(x.labelsRefs, [], []);
    }
    RunsAppend(ExemplarSchema, ApplyExemplar, run, vs => IntsField(1, vs), AddExemplarRefs, Low32, rs, m);
  }

  function AddDeltas(num: nat): (Histogram, seq<int64>) -> Histogram {
    (m: Histogram, xs: seq<int64>) =>
      if num == 9 then m.(negativeDeltas := m.negativeDeltas + xs) else m.(positiveDeltas := m.positiveDeltas + xs)
  }

  function AddCounts(num: nat): (Histogram, seq<uint64>) -> Histogram {
    (m: Histogram, xs: seq<uint64>) =>
      if num == 10 then m.(negativeCounts := m.negativeCounts + xs)
      else if num == 13 then m.(positiveCounts := m.positiveCounts + xs)
      else m.(customValues := m.customValues + xs)
  }

  lemma DeltasAnyPacking(num: nat, rs: seq<Run>, m: Histogram)
    requires num == 9 || num == 12
    requires |IntRuns(num, rs)| < TWO_63
    ensures DecodeHistogram(IntRuns(num, rs), m) == Ok(AddDeltas(num)(m, Map(UnZigZag64, AllValues(rs))))
  {
    hide FieldAt, IntRun, Map, UnZigZag64;
    var run, add := r => IntRun(num, r), AddDeltas(num);
    forall r | |run(r)| < TWO_63 ensures FieldAt(HistogramSchema, run(r), 0) == Ok((IntsField(num, Values(r)), |run(r)|)) {
      IntRunRead(HistogramSchema, num, r);
    }
    forall x: Histogram, a, b ensures add(add(x, a), b) == add(x, a + b) {
      SeqLaws(x.negativeDeltas, a, b);
      SeqLaws(x.positiveDeltas, a, b);
    }
    forall x: Histogram ensures add(x, []) == x {
      SeqLaws(x.negativeDeltas, [], []);
      SeqLaws(x.positiveDeltas, [], []);
    }
    RunsAppend(HistogramSchema, ApplyHistogram, run, vs => IntsField(num, vs), add, UnZigZag64, rs, m);
  }

  lemma CountsAnyPacking(num: nat, rs: seq<Run>, m: Histogram)
    requires num == 10 || num == 13 || num == 16
    requires |DoubleRuns(num, rs)| < TWO_63
    ensures DecodeHistogram(DoubleRuns(num, rs), m) == Ok(AddCounts(num)(m, AllValues(rs)))
  {
    hide FieldAt, DoubleRun, Map;
    var run, add := r => DoubleRun(num, r), AddCounts(num);
    forall r | |run(r)| < TWO_63 ensures FieldAt(HistogramSchema, run(r), 0) == Ok((DoublesField(num, Values(r)), |run(r)|)) {
      DoubleRunRead(HistogramSchema, num, r);
    }
    forall x: Histogram, a, b ensures add(add(x, a), b) == add(x, a + b) {
      SeqLaws(x.negativeCounts, a, b);
      SeqLaws(x.positiveCounts, a, b);
      SeqLaws(x.customValues, a, b);
    }
    forall x: Histogram ensures add(x, []) == x {
      SeqLaws(x.negativeCounts, [], []);
      SeqLaws(x.positiveCounts, [], []);
      SeqLaws(x.customValues, [], []);
    }
    forall x: Histogram, vs: seq<uint64>
      ensures ApplyHistogram(x, DoublesField(num, vs)) == Ok(add(x, Map(Same<uint64>, vs)))
    {
      MapSame(vs);
    }
    RunsAppend(HistogramSchema, ApplyHistogram, run, vs => DoublesField(num, vs), add, Same<uint64>, rs, m);
    MapSame(AllValues(rs));
  }

  // ---- a payload that ends inside a varint ---------------------------------

  // The references of a series, with a payload of one byte of a two-byte varint.
  function Overrun(): bytes { [0x0a, 0x01, 0x80, 0x01] }

  lemma OverrunVarints()
    ensures IntAt(Overrun(), 0) == Ok((0x0a, 1))
    ensures IntAt(Overrun(), 1) == Ok((1, 2))
    ensures IntAt(Overrun(), 2) == Ok((128, 4))
  {
    assert VarintAt(Overrun(), 3, 1) == Ok((1, 4));
  }

  lemma OverrunField()
    ensures FieldAt(TimeSeriesSchema, Overrun(), 0) == Ok((IntsField(1, [128]), 4))
  {
    OverrunVarints();
    hide IntAt, Overrun;
    var s, none: seq<uint64> := Overrun(), [];
    OverrunLength();
    assert [128] + none == [128];
    assert PackedInts(s, 4, 3) == Ok((none, 4));
    assert PackedInts(s, 2, 3) == Ok(([128], 4));
    hide PackedInts;
    assert SpanAt(s, 1) == Ok((2, 3));
  }

  lemma OverrunLength()
    ensures |Overrun()| == 4
  {
  }

  // It is accepted: the reference is read past its payload, and is not
  // pre-counted.
  lemma OverrunIsAccepted()
    ensures DecodeTimeSeries(Overrun(), NO_TIME_SERIES) == Ok(AddRefs(NO_TIME_SERIES, [128]))
    ensures |Overrun()| == 4 && EndBytes(Overrun(), 2, 3) == 0 && EndsMidVarint(Overrun(), 2, 3)
  {
    assert EndBytes(Overrun(), 3, 3) == 0;
    OverrunField();
    OverrunLength();
    hide FieldAt, Overrun;
    assert Refs([128]) == [128];
    DecodeTurn(TimeSeriesSchema, ApplyTimeSeries, Overrun(), 0, NO_TIME_SERIES);
    DecodeEnd(TimeSeriesSchema, ApplyTimeSeries, Overrun(), 4, AddRefs(NO_TIME_SERIES, [128]));
  }
}
