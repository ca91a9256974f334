// The exact outcome of every tag and every length prefix, errors included.
module Outcomes {
  import opened Words
  import opened Varints
  import Scalars
  import opened Skipping
  import opened Fields
  import opened Decoding

  // A uint64 that heads s, behind which anything follows.
  lemma HeadInt(w: uint64, rest: bytes)
    ensures IntAt(Varint(w) + rest, 0) == Ok((w, |Varint(w)|))
  {
    hide Varint, VarintAt;
    VarintRoundTrip(w, [], rest);
    assert [] + Varint(w) + rest == Varint(w) + rest;
  }

  // The field number is the tag without its last three bits, cut to an int32;
  // an end-group tag is reported before a number that is not positive.
  lemma TagOutcome(w: uint64, rest: bytes)
    ensures var num, wireType := w / 8 % 0x1_0000_0000, w % 8;
            TagAt(Varint(w) + rest, 0) ==
            if wireType == 4 then Err(EndGroup)
            else if num == 0 || num >= 0x8000_0000 then Err(IllegalTag)
            else Ok(TagInfo(num, wireType, |Varint(w)|))
  {
    hide Varint, IntAt;
    HeadInt(w, rest);
  }

  // The wire types that a layout takes.
  predicate Takes(layout: Layout, wireType: nat) {
    match layout
    case Int => wireType == 0
    case Double => wireType == 1
    case Chunk => wireType == 2
    case Ints => wireType == 0 || wireType == 2
    case Doubles => wireType == 1 || wireType == 2
    case Unknown => wireType in {0, 1, 2, 3, 5}
  }

  // A known field of a wire type that its layout does not take is an error,
  // whatever follows; so is an unknown one of wire type 6 or 7.
  lemma WrongWireTypeOutcome(schema: Schema, num: nat, wireType: nat, rest: bytes)
    requires 0 < num < 0x8000_0000 && wireType < 8 && wireType != 4 && !Takes(schema(num), wireType)
    ensures FieldAt(schema, Varint(8 * num + wireType) + rest, 0) ==
            Err(if schema(num) == Unknown then IllegalWireType else WrongWireType)
  {
    hide Varint, TagAt, IntAt, SpanAt, PackedInts, PackedDoubles;
    var s := Varint(8 * num + wireType) + rest;
    TagOutcome(8 * num + wireType, rest);
    HeadInt(8 * num + wireType, rest);
    assert s[0..] == s;
    if schema(num) == Unknown {
      assert TokenAt(s, 0) == Err(IllegalWireType);
    }
  }

  // A length prefix: negative as an int, ending past the largest int, ending
  // past the input, or followed by its payload.
  lemma LengthOutcome(schema: Schema, num: nat, n: uint64, rest: bytes)
    requires 0 < num < 0x8000_0000 && schema(num) == Chunk
    ensures var head := Varint(8 * num + 2) + Varint(n);
            FieldAt(schema, head + rest, 0) ==
            if n >= 0x8000_0000_0000_0000 || |head| + n >= 0x8000_0000_0000_0000 then Err(InvalidLength)
            else if n > |rest| then Err(UnexpectedEOF)
            else Ok((ChunkField(num, rest[..n]), |head| + n))
  {
    hide Varint, TagAt, IntAt, VarintAt;
    var tag := Varint(8 * num + 2);
    var head := tag + Varint(n);
    var s := head + rest;
    assert s == tag + (Varint(n) + rest);
    TagOutcome(8 * num + 2, Varint(n) + rest);
    VarintRoundTrip(n, tag, rest);
    assert IntAt(s, |tag|) == Ok((n, |head|)) by {
      assert VarintAt(s, |tag|, 0) == Ok((n as nat, |head|));
      IntIsVarint(s, |tag|);
    }
    if |head| + n < 0x8000_0000_0000_0000 && n <= |rest| {
      assert s[|head|..|head| + n] == rest[..n];
    }
  }

  // The same for a length-delimited field of an unknown number, which is kept
  // with its tag and its length.
  lemma UnknownLengthOutcome(schema: Schema, num: nat, n: uint64, rest: bytes)
    requires 0 < num < 0x8000_0000 && schema(num) == Unknown
    ensures var head := Varint(8 * num + 2) + Varint(n);
            FieldAt(schema, head + rest, 0) ==
            if n >= 0x8000_0000_0000_0000 || |head| + n >= 0x8000_0000_0000_0000 then Err(InvalidLength)
            else if n > |rest| then Err(UnexpectedEOF)
            else Ok((UnknownField(head + rest[..n]), |head| + n))
  {
    hide Varint, TagAt, IntAt, VarintAt, FieldAt, SkipFrom, TokenAt;
    var tag := Varint(8 * num + 2);
    var head := tag + Varint(n);
    var s := head + rest;
    assert s == tag + (Varint(n) + rest);
    TagOutcome(8 * num + 2, Varint(n) + rest);
    HeadInt(8 * num + 2, Varint(n) + rest);
    VarintRoundTrip(n, tag, rest);
    IntIsVarint(s, |tag|);
    TokenOf(s, 2);
    SkipScalar(s, 0);
    UnknownAtStart(schema, s);
    if |head| + n < 0x8000_0000_0000_0000 && n <= |rest| {
      assert s[..|head| + n] == head + rest[..n];
    }
  }

  // A first field of an unknown number is what the skipping loop passes.
  lemma UnknownAtStart(schema: Schema, s: bytes)
    requires TagAt(s, 0).Ok? && schema(TagAt(s, 0).value.num) == Unknown
    ensures var r := SkipFrom(s, 0, 0);
            FieldAt(schema, s, 0) ==
            if r.Err? then Err(r.error)
            else if r.value >= 0x8000_0000_0000_0000 then Err(InvalidLength)
            else if r.value > |s| then Err(UnexpectedEOF)
            else Ok((UnknownField(s[..r.value]), r.value))
  {
    hide TagAt, SkipFrom;
    assert s[0..] == s;
  }

  lemma TokenOf(s: bytes, wireType: nat)
    requires IntAt(s, 0).Ok? && IntAt(s, 0).value.0 % 8 == wireType
    ensures TokenAt(s, 0) == TokenBody(s, wireType, IntAt(s, 0).value.1)
  {
    hide IntAt;
  }

  lemma SkipScalar(s: bytes, i: nat)
    requires i < |s|
    ensures TokenAt(s, i).Err? ==> SkipFrom(s, i, 0) == Err(TokenAt(s, i).error)
    ensures TokenAt(s, i).Ok? && TokenAt(s, i).value.Scalar? ==> SkipFrom(s, i, 0) == Ok(TokenAt(s, i).value.next)
    ensures TokenAt(s, i).Ok? && TokenAt(s, i).value.Close? ==> SkipFrom(s, i, 0) == Err(UnexpectedEndOfGroup)
  {
    hide TokenAt;
  }

  // An unknown field of eight or four bytes.
  lemma UnknownFixedOutcome(schema: Schema, num: nat, wireType: nat, rest: bytes)
    requires 0 < num < 0x8000_0000 && schema(num) == Unknown && wireType in {1, 5}
    requires |Varint(8 * num + wireType) + rest| < TWO_63 - 8
    ensures var tag, n := Varint(8 * num + wireType), if wireType == 1 then 8 else 4;
            FieldAt(schema, tag + rest, 0) ==
            if |rest| < n then Err(UnexpectedEOF) else Ok((UnknownField(tag + rest[..n]), |tag| + n))
  {
    hide Varint, TagAt, IntAt, FieldAt, SkipFrom, TokenAt;
    var tag, n := Varint(8 * num + wireType), if wireType == 1 then 8 else 4;
    var s := tag + rest;
    TagOutcome(8 * num + wireType, rest);
    HeadInt(8 * num + wireType, rest);
    TokenOf(s, wireType);
    SkipScalar(s, 0);
    UnknownAtStart(schema, s);
    if |rest| >= n {
      assert s[..|tag| + n] == tag + rest[..n];
    }
  }

  lemma KnownAtStart(schema: Schema, s: bytes)
    requires TagAt(s, 0).Ok?
    ensures var tag := TagAt(s, 0).value;
            FieldAt(schema, s, 0) == PayloadAt(schema(tag.num), tag.num, tag.wireType, s, 0, tag.next)
  {
    hide TagAt, PayloadAt;
  }

  // A known double: eight bytes, or cut short.
  lemma DoubleOutcome(schema: Schema, num: nat, rest: bytes)
    requires 0 < num < 0x8000_0000 && schema(num) == Double
    ensures var tag := Varint(8 * num + 1);
            FieldAt(schema, tag + rest, 0) ==
            if |rest| < 8 then Err(UnexpectedEOF)
            else Ok((DoubleField(num, Scalars.Fixed64At(tag + rest, |tag|)), |tag| + 8))
  {
    hide Varint, TagAt, FieldAt, Scalars.Fixed64At;
    TagOutcome(8 * num + 1, rest);
    KnownAtStart(schema, Varint(8 * num + 1) + rest);
  }

  // An end-group tag outside any group, given to the skipping loop itself.
  lemma StrayEndGroup(num: nat, rest: bytes)
    requires num < 0x2000_0000_0000_0000
    ensures SkipFrom(Varint(8 * num + 4) + rest, 0, 0) == Err(UnexpectedEndOfGroup)
    ensures SkipFrom([], 0, 0) == Err(UnexpectedEOF)
  {
    hide Varint, IntAt;
    HeadInt(8 * num + 4, rest);
    TokenOf(Varint(8 * num + 4) + rest, 4);
    SkipScalar(Varint(8 * num + 4) + rest, 0);
  }

  lemma IntIsVarint(s: bytes, i: nat)
    requires VarintAt(s, i, 0).Ok? && VarintAt(s, i, 0).value.0 < TWO_64
    ensures IntAt(s, i) == Ok(VarintAt(s, i, 0).value)
  {
    hide VarintAt;
  }

  // A decoder of any message stops with the error of its first field.
  lemma FirstError<M>(schema: Schema, apply: (M, Field) -> Result<M>, s: bytes, m: M)
    requires |s| > 0 && FieldAt(schema, s, 0).Err?
    ensures Decode(schema, apply, s, 0, m) == Err(FieldAt(schema, s, 0).error)
  {
    hide FieldAt;
  }
}
