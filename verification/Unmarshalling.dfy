// Unmarshal of every message: the generated loops over tag, switch and
// unknown fields, proved equal to Decode on every input, errors included.
module Unmarshalling {
  import opened Words
  import opened Varints
  import opened Scalars
  import opened Skipping
  import opened Fields
  import opened Decoding
  import opened Messages

  // ---- the blocks that every switch is made of -----------------------------

  method ReadInt(s: bytes, i: nat) returns (r: Result<(uint64, nat)>)
    ensures r == IntAt(s, i)
  {
    hide VarintAt;
    r := ReadVarint(s, i, true);
  }

  // A loop that or-s into a 32-bit variable drops the bits above.
  method ReadNarrow(s: bytes, i: nat) returns (r: Result<(uint32, nat)>)
    ensures r == match IntAt(s, i) case Err(e) => Err(e) case Ok((v, j)) => Ok((U32(v), j))
  {
    var v :- ReadVarint(s, i, false);
    NarrowIsLow(VarintAt(s, i, 0).value.0);
    hide VarintAt, Trunc, U64, U32;
    return Ok(v);
  }

  lemma NarrowIsLow(v: nat)
    ensures Trunc(v, false) == U32(U64(v))
  {
    assert v % TWO_32 == v % TWO_64 % TWO_32 by {
      assert v == v / TWO_64 * TWO_32 * TWO_32 + v % TWO_64;
    }
  }

  // A negative enum comes back from its low 32 bits.
  lemma NarrowEnum(v: uint64)
    ensures I32(U32(v)) == I32(v)
  {
  }

  method ReadTag(s: bytes, i: nat) returns (r: Result<TagInfo>)
    ensures r == TagAt(s, i)
  {
    hide IntAt, I32;
    var wire :- ReadInt(s, i);
    var fieldNum, wireType := I32(wire.0 / 8), wire.0 % 8;
    if wireType == 4 {
      return Err(EndGroup);
    }
    if fieldNum <= 0 {
      return Err(IllegalTag);
    }
    return Ok(TagInfo(fieldNum, wireType, wire.1));
  }

  method ReadDouble(s: bytes, i: nat) returns (r: Result<(uint64, nat)>)
    ensures r == DoubleAt(s, i)
  {
    if i + 8 > |s| {
      return Err(UnexpectedEOF);
    }
    // binary.LittleEndian.Uint64
    var v: nat, k := 0, 8;
    while k > 0
      invariant 0 <= k <= 8 && v == LittleEndianAt(s, i + k, 8 - k)
    {
      k := k - 1;
      v := s[i + k] + 256 * v;
    }
    return Ok((v, i + 8));
  }

  // A length prefix, checked to be non-negative and inside the input.
  method ReadSpan(s: bytes, i: nat) returns (r: Result<(nat, nat)>)
    ensures r == SpanAt(s, i)
  {
    hide LengthAt;
    var l :- ReadLength(s, i);
    var postIndex :- Advance(l.1, l.0);
    if postIndex > |s| {
      return Err(UnexpectedEOF);
    }
    return Ok((l.1, postIndex));
  }

  // for _, integer := range dAtA[iNdEx:postIndex] { if integer < 128 { count++ } }
  method CountEndBytes(s: bytes, start: nat, post: nat) returns (count: nat)
    requires start <= post <= |s|
    ensures count == EndBytes(s, start, post)
  {
    count := 0;
    var k := start;
    while k < post
      invariant start <= k <= post
      invariant count + EndBytes(s, k, post) == EndBytes(s, start, post)
    {
      if s[k] < 128 {
        count := count + 1;
      }
      k := k + 1;
    }
  }

  // The elements read so far, in front of those still to come.
  function Extended(vs: seq<uint64>, r: Result<(seq<uint64>, nat)>): Result<(seq<uint64>, nat)> {
    match r
    case Err(e) => Err(e)
    case Ok((rest, j)) => Ok((vs + rest, j))
  }

  lemma ExtendedNone(r: Result<(seq<uint64>, nat)>)
    ensures Extended([], r) == r
  {
    if r.Ok? {
      assert [] + r.value.0 == r.value.0;
    }
  }

  lemma OneRef(v: uint64)
    ensures Refs([v]) == [U32(v)]
  {
  }

  lemma OneDelta(v: uint64)
    ensures Map(UnZigZag64, [v]) == [UnZigZag64(v)]
  {
  }

  lemma ExtendedTwice(vs: seq<uint64>, v: uint64, r: Result<(seq<uint64>, nat)>)
    ensures Extended(vs, Extended([v], r)) == Extended(vs + [v], r)
  {
    if r.Ok? {
      assert vs + ([v] + r.value.0) == vs + [v] + r.value.0;
    }
  }

  // A packed varint list into []uint32. elementCount is the capacity that is
  // allocated for an empty list: one element short when the payload ends inside
  // a varint.
  method ReadPackedRefs(s: bytes, start: nat, post: nat) returns (r: Result<(seq<uint32>, nat)>, elementCount: nat)
    requires start <= post <= |s|
    ensures r == match PackedInts(s, start, post) case Err(e) => Err(e) case Ok((vs, j)) => Ok((Refs(vs), j))
    ensures r.Ok? ==> |r.value.0| == elementCount + if EndsMidVarint(s, start, post) then 1 else 0
    ensures r.Ok? ==> (r.value.1 == post <==> !EndsMidVarint(s, start, post))
  {
    hide IntAt, EndBytes, EndsMidVarint;
    elementCount := CountEndBytes(s, start, post);
    if PackedInts(s, start, post).Ok? {
      PackedCount(s, start, post);
    }
    var refs: seq<uint32>, iNdEx := [], start;
    ExtendedNone(PackedInts(s, start, post));
    ghost var vs: seq<uint64> := [];
    while iNdEx < post
      invariant start <= iNdEx && refs == Refs(vs)
      invariant PackedInts(s, start, post) == Extended(vs, PackedInts(s, iNdEx, post))
      decreases post - iNdEx
    {
      var v := ReadNarrow(s, iNdEx);
      if v.Err? {
        return Err(v.error), elementCount;
      }
      ghost var w := IntAt(s, iNdEx).value.0;
      ExtendedTwice(vs, w, PackedInts(s, v.value.1, post));
      vs := vs + [w];
      refs := refs + [v.value.0];
      iNdEx := v.value.1;
    }
    assert vs + [] == vs;
    return Ok((refs, iNdEx)), elementCount;
  }

  // The same into []int64, each number unzigzagged.
  method ReadPackedDeltas(s: bytes, start: nat, post: nat) returns (r: Result<(seq<int64>, nat)>, elementCount: nat)
    requires start <= post <= |s|
    ensures r == match PackedInts(s, start, post) case Err(e) => Err(e) case Ok((vs, j)) => Ok((Map(UnZigZag64, vs), j))
    ensures r.Ok? ==> |r.value.0| == elementCount + if EndsMidVarint(s, start, post) then 1 else 0
    ensures r.Ok? ==> (r.value.1 == post <==> !EndsMidVarint(s, start, post))
  {
    hide IntAt, UnZigZag64, EndBytes, EndsMidVarint;
    elementCount := CountEndBytes(s, start, post);
    if PackedInts(s, start, post).Ok? {
      PackedCount(s, start, post);
    }
    var deltas: seq<int64>, iNdEx := [], start;
    ExtendedNone(PackedInts(s, start, post));
    ghost var vs: seq<uint64> := [];
    while iNdEx < post
      invariant start <= iNdEx && deltas == Map(UnZigZag64, vs)
      invariant PackedInts(s, start, post) == Extended(vs, PackedInts(s, iNdEx, post))
      decreases post - iNdEx
    {
      var v := ReadInt(s, iNdEx);
      if v.Err? {
        return Err(v.error), elementCount;
      }
      ExtendedTwice(vs, v.value.0, PackedInts(s, v.value.1, post));
      vs := vs + [v.value.0];
      deltas := deltas + [UnZigZag64(v.value.0)];
      iNdEx := v.value.1;
    }
    assert vs + [] == vs;
    return Ok((deltas, iNdEx)), elementCount;
  }

  // A packed list of doubles. elementCount is one short when the length of the
  // payload is no multiple of eight.
  method ReadPackedDoubles(s: bytes, start: nat, post: nat) returns (r: Result<(seq<uint64>, nat)>, elementCount: nat)
    requires start <= post <= |s|
    ensures r == PackedDoubles(s, start, post)
    ensures r.Ok? ==> |r.value.0| == elementCount + if (post - start) % 8 == 0 then 0 else 1
  {
    hide DoubleAt;
    elementCount := (post - start) / 8;
    if PackedDoubles(s, start, post).Ok? {
      PackedDoublesCount(s, start, post);
    }
    var vs, iNdEx := [], start;
    ExtendedNone(PackedDoubles(s, start, post));
    while iNdEx < post
      invariant start <= iNdEx
      invariant PackedDoubles(s, start, post) == Extended(vs, PackedDoubles(s, iNdEx, post))
      decreases post - iNdEx
    {
      DoubleAdvances(s, iNdEx);
      var v := ReadDouble(s, iNdEx);
      if v.Err? {
        return Err(v.error), elementCount;
      }
      ExtendedTwice(vs, v.value.0, PackedDoubles(s, v.value.1, post));
      vs := vs + [v.value.0];
      iNdEx := v.value.1;
    }
    assert vs + [] == vs;
    return Ok((vs, iNdEx)), elementCount;
  }

  lemma DoubleAdvances(s: bytes, i: nat)
    ensures DoubleAt(s, i).Ok? ==> DoubleAt(s, i).value.1 == i + 8
  {
  }

  // The default case: the field is skipped, and its bytes are kept. They are
  // one scalar field, or one group with every group inside it closed, and
  // nothing besides.
  method ReadUnknown(s: bytes, preIndex: nat) returns (r: Result<(bytes, nat)>)
    requires preIndex < |s|
    ensures r.Ok? ==>
              var (raw, end) := r.value;
              preIndex < end <= |s| && raw == s[preIndex..end] && Balanced(raw, 0) == Ok(|raw|)
    ensures match SkipFrom(s[preIndex..], 0, 0)
            case Err(e) => r == Err(e)
            case Ok(n) =>
              if preIndex + n >= TWO_63 then r == Err(InvalidLength)
              else if preIndex + n > |s| then r == Err(UnexpectedEOF)
              else r.Ok? && r.value.1 == preIndex + n
  {
    hide SkipFrom, Balanced;
    var skippy :- Skip(s[preIndex..]);
    var end :- Advance(preIndex, skippy);
    if end > |s| {
      return Err(UnexpectedEOF);
    }
    ghost var raw := s[preIndex..end];
    SkipTransport(s[preIndex..], 0, 0, raw, 0);
    SkippedFieldIsBalanced(raw, 0);
    return Ok((s[preIndex..end], end));
  }

  // ---- one turn of a loop --------------------------------------------------

  // What a turn must do to the message and the index.
  function Turn<M>(schema: Schema, apply: (M, Field) -> Result<M>, s: bytes, i: nat, m: M): Result<(M, nat)> {
    var r :- FieldAt(schema, s, i);
    var m' :- apply(m, r.0);
    Ok((m', r.1))
  }

  lemma TurnAdvances<M>(schema: Schema, apply: (M, Field) -> Result<M>, s: bytes, i: nat, m: M)
    requires i < |s|
    ensures Decode(schema, apply, s, i, m) ==
            match Turn(schema, apply, s, i, m)
            case Err(e) => Err(e)
            case Ok((m', j)) => Decode(schema, apply, s, j, m')
    ensures Turn(schema, apply, s, i, m).Ok? ==> i < Turn(schema, apply, s, i, m).value.1 <= |s|
  {
    hide FieldAt;
  }

  // ---- the messages --------------------------------------------------------

  method TurnLabel(s: bytes, iNdEx: nat, m: Label) returns (r: Result<(Label, nat)>)
    requires iNdEx < |s|
    ensures r == Turn(LabelSchema, ApplyLabel, s, iNdEx, m)
  {
    hide TagAt, IntAt, DoubleAt, SpanAt, SkipFrom, Balanced, PackedInts, PackedDoubles, EndsMidVarint;
    var tag :- ReadTag(s, iNdEx);
    match tag.num {
      case 1 =>
        if tag.wireType != 2 {
          return Err(WrongWireType);
        }
        var p :- ReadSpan(s, tag.next);
        return Ok((m.(name := s[p.0..p.1]), p.1));
      case 2 =>
        if tag.wireType != 2 {
          return Err(WrongWireType);
        }
        var p :- ReadSpan(s, tag.next);
        return Ok((m.(value := s[p.0..p.1]), p.1));
      case _ =>
        var u :- ReadUnknown(s, iNdEx);
        return Ok((m.(unrecognized := m.unrecognized + u.0), u.1));
    }
  }

  method UnmarshalLabel(s: bytes, m0: Label) returns (r: Result<Label>)
    ensures r == DecodeLabel(s, m0)
  {
    hide Decode, Turn;
    var m, iNdEx: nat := m0, 0;
    while iNdEx < |s|
      invariant Decode(LabelSchema, ApplyLabel, s, 0, m0) == Decode(LabelSchema, ApplyLabel, s, iNdEx, m)
      decreases |s| - iNdEx
    {
      TurnAdvances(LabelSchema, ApplyLabel, s, iNdEx, m);
      var t :- TurnLabel(s, iNdEx, m);
      m, iNdEx := t.0, t.1;
    }
    DecodeEnd(LabelSchema, ApplyLabel, s, iNdEx, m);
    return Ok(m);
  }

  method TurnSample(s: bytes, iNdEx: nat, m: Sample) returns (r: Result<(Sample, nat)>)
    requires iNdEx < |s|
    ensures r == Turn(SampleSchema, ApplySample, s, iNdEx, m)
  {
    hide TagAt, IntAt, DoubleAt, SpanAt, SkipFrom, Balanced, PackedInts, PackedDoubles, EndsMidVarint;
    var tag :- ReadTag(s, iNdEx);
    match tag.num {
      case 1 =>
        if tag.wireType != 1 {
          return Err(WrongWireType);
        }
        var v :- ReadDouble(s, tag.next);
        return Ok((m.(value := v.0), v.1));
      case 2 =>
        if tag.wireType != 0 {
          return Err(WrongWireType);
        }
        var v :- ReadInt(s, tag.next);
        return Ok((m.(timestamp := I64(v.0)), v.1));
      case _ =>
        var u :- ReadUnknown(s, iNdEx);
        return Ok((m.(unrecognized := m.unrecognized + u.0), u.1));
    }
  }

  method UnmarshalSample(s: bytes, m0: Sample) returns (r: Result<Sample>)
    ensures r == DecodeSample(s, m0)
  {
    hide Decode, Turn;
    var m, iNdEx: nat := m0, 0;
    while iNdEx < |s|
      invariant Decode(SampleSchema, ApplySample, s, 0, m0) == Decode(SampleSchema, ApplySample, s, iNdEx, m)
      decreases |s| - iNdEx
    {
      TurnAdvances(SampleSchema, ApplySample, s, iNdEx, m);
      var t :- TurnSample(s, iNdEx, m);
      m, iNdEx := t.0, t.1;
    }
    DecodeEnd(SampleSchema, ApplySample, s, iNdEx, m);
    return Ok(m);
  }

  method TurnSpan(s: bytes, iNdEx: nat, m: BucketSpan) returns (r: Result<(BucketSpan, nat)>)
    requires iNdEx < |s|
    ensures r == Turn(SpanSchema, ApplySpan, s, iNdEx, m)
  {
    hide TagAt, IntAt, DoubleAt, SpanAt, SkipFrom, Balanced, PackedInts, PackedDoubles, EndsMidVarint, UnZigZag32, U32;
    var tag :- ReadTag(s, iNdEx);
    match tag.num {
      case 1 =>
        if tag.wireType != 0 {
          return Err(WrongWireType);
        }
        var v :- ReadNarrow(s, tag.next);
        return Ok((m.(offset := UnZigZag32(v.0)), v.1));
      case 2 =>
        if tag.wireType != 0 {
          return Err(WrongWireType);
        }
        var v :- ReadNarrow(s, tag.next);
        return Ok((m.(length := v.0), v.1));
      case _ =>
        var u :- ReadUnknown(s, iNdEx);
        return Ok((m.(unrecognized := m.unrecognized + u.0), u.1));
    }
  }

  method UnmarshalSpan(s: bytes, m0: BucketSpan) returns (r: Result<BucketSpan>)
    ensures r == DecodeSpan(s, m0)
  {
    hide Decode, Turn;
    var m, iNdEx: nat := m0, 0;
    while iNdEx < |s|
      invariant Decode(SpanSchema, ApplySpan, s, 0, m0) == Decode(SpanSchema, ApplySpan, s, iNdEx, m)
      decreases |s| - iNdEx
    {
      TurnAdvances(SpanSchema, ApplySpan, s, iNdEx, m);
      var t :- TurnSpan(s, iNdEx, m);
      m, iNdEx := t.0, t.1;
    }
    DecodeEnd(SpanSchema, ApplySpan, s, iNdEx, m);
    return Ok(m);
  }

  method TurnMetadata(s: bytes, iNdEx: nat, m: Metadata) returns (r: Result<(Metadata, nat)>)
    requires iNdEx < |s|
    ensures r == Turn(MetadataSchema, ApplyMetadata, s, iNdEx, m)
  {
    hide TagAt, IntAt, DoubleAt, SpanAt, SkipFrom, Balanced, PackedInts, PackedDoubles, EndsMidVarint;
    var tag :- ReadTag(s, iNdEx);
    match tag.num {
      case 1 =>
        if tag.wireType != 0 {
          return Err(WrongWireType);
        }
        var v :- ReadNarrow(s, tag.next);
        NarrowEnum(IntAt(s, tag.next).value.0);
        return Ok((m.(kind := I32(v.0)), v.1));
      case 3 =>
        if tag.wireType != 0 {
          return Err(WrongWireType);
        }
        var v :- ReadNarrow(s, tag.next);
        return Ok((m.(helpRef := v.0), v.1));
      case 4 =>
        if tag.wireType != 0 {
          return Err(WrongWireType);
        }
        var v :- ReadNarrow(s, tag.next);
        return Ok((m.(unitRef := v.0), v.1));
      case _ =>
        var u :- ReadUnknown(s, iNdEx);
        return Ok((m.(unrecognized := m.unrecognized + u.0), u.1));
    }
  }

  method UnmarshalMetadata(s: bytes, m0: Metadata) returns (r: Result<Metadata>)
    ensures r == DecodeMetadata(s, m0)
  {
    hide Decode, Turn;
    var m, iNdEx: nat := m0, 0;
    while iNdEx < |s|
      invariant Decode(MetadataSchema, ApplyMetadata, s, 0, m0) == Decode(MetadataSchema, ApplyMetadata, s, iNdEx, m)
      decreases |s| - iNdEx
    {
      TurnAdvances(MetadataSchema, ApplyMetadata, s, iNdEx, m);
      var t :- TurnMetadata(s, iNdEx, m);
      m, iNdEx := t.0, t.1;
    }
    DecodeEnd(MetadataSchema, ApplyMetadata, s, iNdEx, m);
    return Ok(m);
  }

  method TurnExemplar(s: bytes, iNdEx: nat, m: Exemplar) returns (r: Result<(Exemplar, nat)>)
    requires iNdEx < |s|
    ensures r == Turn(ExemplarSchema, ApplyExemplar, s, iNdEx, m)
  {
    hide TagAt, IntAt, DoubleAt, SpanAt, SkipFrom, Balanced, PackedInts, PackedDoubles, EndsMidVarint;
    var tag :- ReadTag(s, iNdEx);
    match tag.num {
      case 1 =>
        if tag.wireType == 0 {
          var v :- ReadNarrow(s, tag.next);
          OneRef(IntAt(s, tag.next).value.0);
          return Ok((m.(labelsRefs := m.labelsRefs + [v.0]), v.1));
        } else if tag.wireType == 2 {
          var p :- ReadSpan(s, tag.next);
          var vs, _ :- ReadPackedRefs(s, p.0, p.1);
          return Ok((m.(labelsRefs := m.labelsRefs + vs.0), vs.1));
        } else {
          return Err(WrongWireType);
        }
      case 2 =>
        if tag.wireType != 1 {
          return Err(WrongWireType);
        }
        var v :- ReadDouble(s, tag.next);
        return Ok((m.(value := v.0), v.1));
      case 3 =>
        if tag.wireType != 0 {
          return Err(WrongWireType);
        }
        var v :- ReadInt(s, tag.next);
        return Ok((m.(timestamp := I64(v.0)), v.1));
      case _ =>
        var u :- ReadUnknown(s, iNdEx);
        return Ok((m.(unrecognized := m.unrecognized + u.0), u.1));
    }
  }

  method UnmarshalExemplar(s: bytes, m0: Exemplar) returns (r: Result<Exemplar>)
    ensures r == DecodeExemplar(s, m0)
  {
    hide Decode, Turn;
    var m, iNdEx: nat := m0, 0;
    while iNdEx < |s|
      invariant Decode(ExemplarSchema, ApplyExemplar, s, 0, m0) == Decode(ExemplarSchema, ApplyExemplar, s, iNdEx, m)
      decreases |s| - iNdEx
    {
      TurnAdvances(ExemplarSchema, ApplyExemplar, s, iNdEx, m);
      var t :- TurnExemplar(s, iNdEx, m);
      m, iNdEx := t.0, t.1;
    }
    DecodeEnd(ExemplarSchema, ApplyExemplar, s, iNdEx, m);
    return Ok(m);
  }

  method TurnHistogram(s: bytes, iNdEx: nat, m: Histogram) returns (r: Result<(Histogram, nat)>)
    requires iNdEx < |s|
    ensures r == Turn(HistogramSchema, ApplyHistogram, s, iNdEx, m)
  {
    hide TagAt, IntAt, DoubleAt, SpanAt, SkipFrom, Balanced, PackedInts, PackedDoubles, EndsMidVarint;
    hide UnZigZag32, UnZigZag64, U32, I32, I64, DecodeSpan;
    var tag :- ReadTag(s, iNdEx);
    match tag.num {
      case 1 =>
        if tag.wireType != 0 {
          return Err(WrongWireType);
        }
        var v :- ReadInt(s, tag.next);
        return Ok((m.(count := CountInt(v.0)), v.1));
      case 2 =>
        if tag.wireType != 1 {
          return Err(WrongWireType);
        }
        var v :- ReadDouble(s, tag.next);
        return Ok((m.(count := CountFloat(v.0)), v.1));
      case 3 =>
        if tag.wireType != 1 {
          return Err(WrongWireType);
        }
        var v :- ReadDouble(s, tag.next);
        return Ok((m.(sum := v.0), v.1));
      case 4 =>
        if tag.wireType != 0 {
          return Err(WrongWireType);
        }
        var v :- ReadNarrow(s, tag.next);
        return Ok((m.(schema := UnZigZag32(v.0)), v.1));
      case 5 =>
        if tag.wireType != 1 {
          return Err(WrongWireType);
        }
        var v :- ReadDouble(s, tag.next);
        return Ok((m.(zeroThreshold := v.0), v.1));
      case 6 =>
        if tag.wireType != 0 {
          return Err(WrongWireType);
        }
        var v :- ReadInt(s, tag.next);
        return Ok((m.(zeroCount := CountInt(v.0)), v.1));
      case 7 =>
        if tag.wireType != 1 {
          return Err(WrongWireType);
        }
        var v :- ReadDouble(s, tag.next);
        return Ok((m.(zeroCount := CountFloat(v.0)), v.1));
      case 8 =>
        if tag.wireType != 2 {
          return Err(WrongWireType);
        }
        var p :- ReadSpan(s, tag.next);
        var x :- UnmarshalSpan(s[p.0..p.1], NO_SPAN);
        return Ok((m.(negativeSpans := m.negativeSpans + [x]), p.1));
      case 9 =>
        if tag.wireType == 0 {
          var v :- ReadInt(s, tag.next);
          OneDelta(v.0);
          return Ok((m.(negativeDeltas := m.negativeDeltas + [UnZigZag64(v.0)]), v.1));
        } else if tag.wireType == 2 {
          var p :- ReadSpan(s, tag.next);
          var vs, _ :- ReadPackedDeltas(s, p.0, p.1);
          return Ok((m.(negativeDeltas := m.negativeDeltas + vs.0), vs.1));
        } else {
          return Err(WrongWireType);
        }
      case 10 =>
        if tag.wireType == 1 {
          var v :- ReadDouble(s, tag.next);
          return Ok((m.(negativeCounts := m.negativeCounts + [v.0]), v.1));
        } else if tag.wireType == 2 {
          var p :- ReadSpan(s, tag.next);
          var vs, _ :- ReadPackedDoubles(s, p.0, p.1);
          return Ok((m.(negativeCounts := m.negativeCounts + vs.0), vs.1));
        } else {
          return Err(WrongWireType);
        }
      case 11 =>
        if tag.wireType != 2 {
          return Err(WrongWireType);
        }
        var p :- ReadSpan(s, tag.next);
        var x :- UnmarshalSpan(s[p.0..p.1], NO_SPAN);
        return Ok((m.(positiveSpans := m.positiveSpans + [x]), p.1));
      case 12 =>
        if tag.wireType == 0 {
          var v :- ReadInt(s, tag.next);
          OneDelta(v.0);
          return Ok((m.(positiveDeltas := m.positiveDeltas + [UnZigZag64(v.0)]), v.1));
        } else if tag.wireType == 2 {
          var p :- ReadSpan(s, tag.next);
          var vs, _ :- ReadPackedDeltas(s, p.0, p.1);
          return Ok((m.(positiveDeltas := m.positiveDeltas + vs.0), vs.1));
        } else {
          return Err(WrongWireType);
        }
      case 13 =>
        if tag.wireType == 1 {
          var v :- ReadDouble(s, tag.next);
          return Ok((m.(positiveCounts := m.positiveCounts + [v.0]), v.1));
        } else if tag.wireType == 2 {
          var p :- ReadSpan(s, tag.next);
          var vs, _ :- ReadPackedDoubles(s, p.0, p.1);
          return Ok((m.(positiveCounts := m.positiveCounts + vs.0), vs.1));
        } else {
          return Err(WrongWireType);
        }
      case 14 =>
        if tag.wireType != 0 {
          return Err(WrongWireType);
        }
        var v :- ReadNarrow(s, tag.next);
        NarrowEnum(IntAt(s, tag.next).value.0);
        return Ok((m.(resetHint := I32(v.0)), v.1));
      case 15 =>
        if tag.wireType != 0 {
          return Err(WrongWireType);
        }
        var v :- ReadInt(s, tag.next);
        return Ok((m.(timestamp := I64(v.0)), v.1));
      case 16 =>
        if tag.wireType == 1 {
          var v :- ReadDouble(s, tag.next);
          return Ok((m.(customValues := m.customValues + [v.0]), v.1));
        } else if tag.wireType == 2 {
          var p :- ReadSpan(s, tag.next);
          var vs, _ :- ReadPackedDoubles(s, p.0, p.1);
          return Ok((m.(customValues := m.customValues + vs.0), vs.1));
        } else {
          return Err(WrongWireType);
        }
      case _ =>
        var u :- ReadUnknown(s, iNdEx);
        return Ok((m.(unrecognized := m.unrecognized + u.0), u.1));
    }
  }

  method UnmarshalHistogram(s: bytes, m0: Histogram) returns (r: Result<Histogram>)
    ensures r == DecodeHistogram(s, m0)
  {
    hide Decode, Turn;
    var m, iNdEx: nat := m0, 0;
    while iNdEx < |s|
      invariant Decode(HistogramSchema, ApplyHistogram, s, 0, m0) == Decode(HistogramSchema, ApplyHistogram, s, iNdEx, m)
      decreases |s| - iNdEx
    {
      TurnAdvances(HistogramSchema, ApplyHistogram, s, iNdEx, m);
      var t :- TurnHistogram(s, iNdEx, m);
      m, iNdEx := t.0, t.1;
    }
    DecodeEnd(HistogramSchema, ApplyHistogram, s, iNdEx, m);
    return Ok(m);
  }

  method TurnTimeSeries(s: bytes, iNdEx: nat, m: TimeSeries) returns (r: Result<(TimeSeries, nat)>)
    requires iNdEx < |s|
    ensures r == Turn(TimeSeriesSchema, ApplyTimeSeries, s, iNdEx, m)
  {
    hide TagAt, IntAt, DoubleAt, SpanAt, SkipFrom, Balanced, PackedInts, PackedDoubles, EndsMidVarint, I64;
    hide DecodeSample, DecodeHistogram, DecodeExemplar, DecodeMetadata, DecodeLabel;
    var tag :- ReadTag(s, iNdEx);
    match tag.num {
      case 1 =>
        if tag.wireType == 0 {
          var v :- ReadNarrow(s, tag.next);
          OneRef(IntAt(s, tag.next).value.0);
          return Ok((m.(labelsRefs := m.labelsRefs + [v.0]), v.1));
        } else if tag.wireType == 2 {
          var p :- ReadSpan(s, tag.next);
          var vs, _ :- ReadPackedRefs(s, p.0, p.1);
          return Ok((m.(labelsRefs := m.labelsRefs + vs.0), vs.1));
        } else {
          return Err(WrongWireType);
        }
      case 2 =>
        if tag.wireType != 2 {
          return Err(WrongWireType);
        }
        var p :- ReadSpan(s, tag.next);
        var x :- UnmarshalSample(s[p.0..p.1], NO_SAMPLE);
        return Ok((m.(samples := m.samples + [x]), p.1));
      case 3 =>
        if tag.wireType != 2 {
          return Err(WrongWireType);
        }
        var p :- ReadSpan(s, tag.next);
        var x :- UnmarshalHistogram(s[p.0..p.1], NO_HISTOGRAM);
        return Ok((m.(histograms := m.histograms + [x]), p.1));
      case 4 =>
        if tag.wireType != 2 {
          return Err(WrongWireType);
        }
        var p :- ReadSpan(s, tag.next);
        var x :- UnmarshalExemplar(s[p.0..p.1], NO_EXEMPLAR);
        return Ok((m.(exemplars := m.exemplars + [x]), p.1));
      case 5 =>
        if tag.wireType != 2 {
          return Err(WrongWireType);
        }
        var p :- ReadSpan(s, tag.next);
        var x :- UnmarshalMetadata(s[p.0..p.1], m.metadata);
        return Ok((m.(metadata := x), p.1));
      case 6 =>
        if tag.wireType != 0 {
          return Err(WrongWireType);
        }
        var v :- ReadInt(s, tag.next);
        return Ok((m.(createdTimestamp := I64(v.0)), v.1));
      case 7 =>
        if tag.wireType != 2 {
          return Err(WrongWireType);
        }
        var p :- ReadSpan(s, tag.next);
        var x :- UnmarshalLabel(s[p.0..p.1], NO_LABEL);
        return Ok((m.(labels := m.labels + [x]), p.1));
      case _ =>
        var u :- ReadUnknown(s, iNdEx);
        return Ok((m.(unrecognized := m.unrecognized + u.0), u.1));
    }
  }

  method UnmarshalTimeSeries(s: bytes, m0: TimeSeries) returns (r: Result<TimeSeries>)
    ensures r == DecodeTimeSeries(s, m0)
  {
    hide Decode, Turn;
    var m, iNdEx: nat := m0, 0;
    while iNdEx < |s|
      invariant Decode(TimeSeriesSchema, ApplyTimeSeries, s, 0, m0) == Decode(TimeSeriesSchema, ApplyTimeSeries, s, iNdEx, m)
      decreases |s| - iNdEx
    {
      TurnAdvances(TimeSeriesSchema, ApplyTimeSeries, s, iNdEx, m);
      var t :- TurnTimeSeries(s, iNdEx, m);
      m, iNdEx := t.0, t.1;
    }
    DecodeEnd(TimeSeriesSchema, ApplyTimeSeries, s, iNdEx, m);
    return Ok(m);
  }
}
