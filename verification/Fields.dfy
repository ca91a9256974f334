// One field on the wire, as every generated Unmarshal loop reads it and every
// generated marshaller writes it. The message types differ only in which
// field numbers they know and how each is laid out.
module Fields {
  import opened Words
  import opened Varints
  import opened Scalars
  import opened Skipping

  // How a generated switch treats a field number.
  datatype Layout =
    | Unknown      // kept as raw bytes
    | Int          // wire type 0
    | Double       // wire type 1
    | Chunk        // wire type 2: a string or an embedded message
    | Ints         // repeated scalar: wire type 0, or 2 when packed
    | Doubles      // repeated double: wire type 1, or 2 when packed

  type Schema = int -> Layout

  datatype Field =
    | IntField(num: nat, v: uint64)
    | DoubleField(num: nat, bits: uint64)
    | ChunkField(num: nat, payload: bytes)
    | IntsField(num: nat, vs: seq<uint64>)
    | DoublesField(num: nat, vs: seq<uint64>)
    | UnknownField(raw: bytes)

  // ---- reading -------------------------------------------------------------

  function DoubleAt(s: bytes, i: nat): Result<(uint64, nat)> {
    if i + 8 > |s| then Err(UnexpectedEOF) else Ok((Fixed64At(s, i), i + 8))
  }

  // A length prefix and the index where its payload ends, which must exist.
  function SpanAt(s: bytes, i: nat): (r: Result<(nat, nat)>)
    ensures r.Ok? ==> i < r.value.0 <= r.value.1 <= |s|
  {
    var l :- LengthAt(s, i);
    var post :- Advance(l.1, l.0);
    if post > |s| then Err(UnexpectedEOF) else Ok((l.1, post))
  }

  // The packed loops run while the index is before post, but each element is
  // bounded by the end of s only, so the last one may run past post.
  function PackedInts(s: bytes, i: nat, post: nat): (r: Result<(seq<uint64>, nat)>)
    ensures r.Ok? ==> i <= r.value.1 && post <= r.value.1
    ensures r.Ok? && i <= |s| && post <= |s| ==> r.value.1 <= |s|
    decreases post - i
  {
    if i >= post then Ok(([], i))
    else
      var v :- IntAt(s, i);
      var rest :- PackedInts(s, v.1, post);
      Ok(([v.0] + rest.0, rest.1))
  }

  function PackedDoubles(s: bytes, i: nat, post: nat): (r: Result<(seq<uint64>, nat)>)
    ensures r.Ok? ==> i <= r.value.1 && post <= r.value.1
    ensures r.Ok? && i <= |s| && post <= |s| ==> r.value.1 <= |s|
    decreases post - i
  {
    if i >= post then Ok(([], i))
    else
      var v :- DoubleAt(s, i);
      var rest :- PackedDoubles(s, v.1, post);
      Ok(([v.0] + rest.0, rest.1))
  }

  // The body of the switch, at index j after a tag with this number and type.
  function PayloadAt(layout: Layout, num: nat, wireType: int, s: bytes, pre: nat, j: nat): (r: Result<(Field, nat)>)
    requires pre < j <= |s|
    ensures r.Ok? ==> pre < r.value.1 <= |s|
    ensures r.Ok? && layout != Unknown ==> j <= r.value.1
  {
    match layout
    case Int =>
      if wireType != 0 then Err(WrongWireType)
      else var v :- IntAt(s, j); Ok((IntField(num, v.0), v.1))
    case Double =>
      if wireType != 1 then Err(WrongWireType)
      else var v :- DoubleAt(s, j); Ok((DoubleField(num, v.0), v.1))
    case Chunk =>
      if wireType != 2 then Err(WrongWireType)
      else var p :- SpanAt(s, j); Ok((ChunkField(num, s[p.0..p.1]), p.1))
    case Ints =>
      if wireType == 0 then
        var v :- IntAt(s, j); Ok((IntsField(num, [v.0]), v.1))
      else if wireType == 2 then
        var p :- SpanAt(s, j);
        var vs :- PackedInts(s, p.0, p.1);
        Ok((IntsField(num, vs.0), vs.1))
      else Err(WrongWireType)
    case Doubles =>
      if wireType == 1 then
        var v :- DoubleAt(s, j); Ok((DoublesField(num, [v.0]), v.1))
      else if wireType == 2 then
        var p :- SpanAt(s, j);
        var vs :- PackedDoubles(s, p.0, p.1);
        Ok((DoublesField(num, vs.0), vs.1))
      else Err(WrongWireType)
    case Unknown =>
      var n :- SkipFrom(s[pre..], 0, 0);
      var end :- Advance(pre, n);
      if end > |s| then Err(UnexpectedEOF) else Ok((UnknownField(s[pre..end]), end))
  }

  datatype TagInfo = TagInfo(num: nat, wireType: int, next: nat)

  // The tag at s[i] and the checks made before the switch.
  function TagAt(s: bytes, i: nat): (r: Result<TagInfo>)
    ensures r.Ok? ==> i < r.value.next <= |s| && r.value.num > 0
  {
    var wire :- IntAt(s, i);
    var num, wireType := I32(wire.0 / 8), wire.0 % 8;
    if wireType == 4 then Err(EndGroup)
    else if num <= 0 then Err(IllegalTag)
    else Ok(TagInfo(num, wireType, wire.1))
  }

  // One turn of an Unmarshal loop: the field at s[i] and the index after it.
  function FieldAt(schema: Schema, s: bytes, i: nat): (r: Result<(Field, nat)>)
    ensures r.Ok? ==> i < r.value.1 <= |s|
  {
    var tag :- TagAt(s, i);
    PayloadAt(schema(tag.num), tag.num, tag.wireType, s, i, tag.next)
  }

  // ---- position independence -----------------------------------------------

  lemma DoubleTransport(s: bytes, i: nat, t: bytes, d: int)
    requires DoubleAt(s, i).Ok? && Window(s, i, i + 8, t, d)
    ensures DoubleAt(t, i + d) == Ok((DoubleAt(s, i).value.0, i + 8 + d))
  {
    LittleEndianTransport(s, i, 8, t, d);
  }

  lemma SpanTransport(s: bytes, i: nat, t: bytes, d: int)
    requires |t| < TWO_63 && SpanAt(s, i).Ok?
    requires Window(s, i, SpanAt(s, i).value.1, t, d)
    ensures SpanAt(t, i + d) == Ok((SpanAt(s, i).value.0 + d, SpanAt(s, i).value.1 + d))
  {
    hide LengthAt;
    LengthTransport(s, i, t, d);
  }

  lemma {:induction false} PackedIntsTransport(s: bytes, i: nat, post: nat, t: bytes, d: int)
    requires 0 <= i + d && 0 <= post + d
    requires PackedInts(s, i, post).Ok? && Window(s, i, PackedInts(s, i, post).value.1, t, d)
    ensures PackedInts(t, i + d, post + d) ==
            Ok((PackedInts(s, i, post).value.0, PackedInts(s, i, post).value.1 + d))
    decreases post - i
  {
    if i < post {
      hide IntAt;
      IntTransport(s, i, t, d);
      PackedIntsTransport(s, IntAt(s, i).value.1, post, t, d);
    }
  }

  lemma {:induction false} PackedDoublesTransport(s: bytes, i: nat, post: nat, t: bytes, d: int)
    requires 0 <= i + d && 0 <= post + d
    requires PackedDoubles(s, i, post).Ok? && Window(s, i, PackedDoubles(s, i, post).value.1, t, d)
    ensures PackedDoubles(t, i + d, post + d) ==
            Ok((PackedDoubles(s, i, post).value.0, PackedDoubles(s, i, post).value.1 + d))
    decreases post - i
  {
    if i < post {
      DoubleTransport(s, i, t, d);
      PackedDoublesTransport(s, i + 8, post, t, d);
    }
  }

  lemma UnknownTransport(s: bytes, i: nat, t: bytes, d: int)
    requires |t| < TWO_63 && 0 <= i + d
    requires i <= |s| && SkipFrom(s[i..], 0, 0).Ok?
    requires i + SkipFrom(s[i..], 0, 0).value <= |s|
    requires Window(s, i, i + SkipFrom(s[i..], 0, 0).value, t, d)
    ensures SkipFrom(t[i + d..], 0, 0) == SkipFrom(s[i..], 0, 0)
  {
    var n := SkipFrom(s[i..], 0, 0).value;
    forall k | 0 <= k < n
      ensures s[i..][k] == t[i + d..][k]
    {
      assert s[i + k] == t[i + k + d];
    }
    SkipTransport(s[i..], 0, 0, t[i + d..], 0);
  }

  // The three layouts of a switch case, read again at a shifted index.
  ghost predicate Reread(layout: Layout, num: nat, wireType: int, s: bytes, pre: nat, j: nat, t: bytes, d: int)
    requires pre < j <= |s| && 0 <= pre + d && j + d <= |t|
    requires PayloadAt(layout, num, wireType, s, pre, j).Ok?
  {
    var r := PayloadAt(layout, num, wireType, s, pre, j).value;
    PayloadAt(layout, num, wireType, t, pre + d, j + d) == Ok((r.0, r.1 + d))
  }

  lemma SingularTransport(layout: Layout, num: nat, wireType: int, s: bytes, pre: nat, j: nat, t: bytes, d: int)
    requires |t| < TWO_63 && pre < j <= |s| && j + d <= |t|
    requires layout in {Int, Double, Chunk} && PayloadAt(layout, num, wireType, s, pre, j).Ok?
    requires Window(s, pre, PayloadAt(layout, num, wireType, s, pre, j).value.1, t, d)
    ensures Reread(layout, num, wireType, s, pre, j, t, d)
  {
    hide IntAt, SpanAt, Fixed64At;
    match layout
    case Int => IntTransport(s, j, t, d);
    case Double => DoubleTransport(s, j, t, d);
    case Chunk =>
      SpanTransport(s, j, t, d);
      WindowSlice(s, SpanAt(s, j).value.0, SpanAt(s, j).value.1, t, d);
  }

  lemma RepeatedTransport(layout: Layout, num: nat, wireType: int, s: bytes, pre: nat, j: nat, t: bytes, d: int)
    requires |t| < TWO_63 && pre < j <= |s| && j + d <= |t|
    requires layout in {Ints, Doubles} && PayloadAt(layout, num, wireType, s, pre, j).Ok?
    requires Window(s, pre, PayloadAt(layout, num, wireType, s, pre, j).value.1, t, d)
    ensures Reread(layout, num, wireType, s, pre, j, t, d)
  {
    hide IntAt, SpanAt, Fixed64At, PackedInts, PackedDoubles;
    if wireType == 2 {
      SpanTransport(s, j, t, d);
      var p := SpanAt(s, j).value;
      if layout == Ints {
        PackedIntsTransport(s, p.0, p.1, t, d);
      } else {
        PackedDoublesTransport(s, p.0, p.1, t, d);
      }
    } else if layout == Ints {
      IntTransport(s, j, t, d);
    } else {
      DoubleTransport(s, j, t, d);
    }
  }

  lemma SkippedTransport(num: nat, wireType: int, s: bytes, pre: nat, j: nat, t: bytes, d: int)
    requires |t| < TWO_63 && pre < j <= |s| && j + d <= |t|
    requires PayloadAt(Unknown, num, wireType, s, pre, j).Ok?
    requires Window(s, pre, PayloadAt(Unknown, num, wireType, s, pre, j).value.1, t, d)
    ensures Reread(Unknown, num, wireType, s, pre, j, t, d)
  {
    hide SkipFrom;
    UnknownTransport(s, pre, t, d);
    WindowSlice(s, pre, pre + SkipFrom(s[pre..], 0, 0).value, t, d);
  }

  lemma TagTransport(s: bytes, i: nat, t: bytes, d: int)
    requires TagAt(s, i).Ok? && Window(s, i, TagAt(s, i).value.next, t, d)
    ensures TagAt(t, i + d) == Ok(TagAt(s, i).value.(next := TagAt(s, i).value.next + d))
  {
    hide IntAt, I32;
    IntTransport(s, i, t, d);
  }

  // Skipping starts over at the tag, so it passes it again.
  lemma SkipPassesTag(s: bytes, i: nat)
    requires IntAt(s, i).Ok? && SkipFrom(s[i..], 0, 0).Ok?
    ensures IntAt(s, i).value.1 <= i + SkipFrom(s[i..], 0, 0).value
  {
    hide IntAt;
    IntTransport(s, i, s[i..], 0 - i);
  }

  lemma TagCovered(schema: Schema, s: bytes, i: nat)
    requires FieldAt(schema, s, i).Ok?
    ensures TagAt(s, i).Ok? && TagAt(s, i).value.next <= FieldAt(schema, s, i).value.1
  {
    hide I32, SkipFrom, IntAt;
    if schema(TagAt(s, i).value.num) == Unknown {
      SkipPassesTag(s, i);
    }
  }

  lemma PayloadTransport(layout: Layout, num: nat, wireType: int, s: bytes, pre: nat, j: nat, t: bytes, d: int)
    requires |t| < TWO_63 && pre < j <= |s| && j + d <= |t|
    requires PayloadAt(layout, num, wireType, s, pre, j).Ok?
    requires Window(s, pre, PayloadAt(layout, num, wireType, s, pre, j).value.1, t, d)
    ensures Reread(layout, num, wireType, s, pre, j, t, d)
  {
    hide PayloadAt, Reread, Window;
    match layout
    case Unknown => SkippedTransport(num, wireType, s, pre, j, t, d);
    case Ints => RepeatedTransport(layout, num, wireType, s, pre, j, t, d);
    case Doubles => RepeatedTransport(layout, num, wireType, s, pre, j, t, d);
    case _ => SingularTransport(layout, num, wireType, s, pre, j, t, d);
  }

  // A field reads the same wherever its bytes stand.
  lemma FieldTransport(schema: Schema, s: bytes, i: nat, t: bytes, d: int)
    requires |t| < TWO_63 && FieldAt(schema, s, i).Ok?
    requires Window(s, i, FieldAt(schema, s, i).value.1, t, d)
    ensures var r := FieldAt(schema, s, i).value;
            FieldAt(schema, t, i + d) == Ok((r.0, r.1 + d))
  {
    hide TagAt, PayloadAt, Window;
    var tag, r := TagAt(s, i).value, FieldAt(schema, s, i).value;
    TagCovered(schema, s, i);
    WindowPart(s, i, r.1, t, d, i, tag.next);
    TagTransport(s, i, t, d);
    PayloadTransport(schema(tag.num), tag.num, tag.wireType, s, i, tag.next, t, d);
  }

  lemma FieldInPrefix(schema: Schema, a: bytes, b: bytes, i: nat)
    requires |a + b| < TWO_63 && i <= |a| && FieldAt(schema, a, i).Ok?
    ensures FieldAt(schema, a + b, i) == FieldAt(schema, a, i)
  {
    hide FieldAt, Window;
    WindowConcat(a, b);
    WindowPart(a, 0, |a|, a + b, 0, i, FieldAt(schema, a, i).value.1);
    FieldTransport(schema, a, i, a + b, 0);
  }

  // ---- writing -------------------------------------------------------------

  function Tag(num: nat, wireType: nat): bytes { Varint(8 * num + wireType) }

  function IntBytes(vs: seq<uint64>): bytes {
    if vs == [] then [] else Varint(vs[0]) + IntBytes(vs[1..])
  }

  function DoubleBytes(vs: seq<uint64>): (s: bytes)
    ensures |s| == 8 * |vs|
  {
    if vs == [] then [] else Fixed64(vs[0]) + DoubleBytes(vs[1..])
  }

  function Prefixed(payload: bytes): bytes { Varint(|payload|) + payload }

  function EncodeField(f: Field): bytes {
    match f
    case IntField(num, v) => Tag(num, 0) + Varint(v)
    case DoubleField(num, bits) => Tag(num, 1) + Fixed64(bits)
    case ChunkField(num, payload) => Tag(num, 2) + Prefixed(payload)
    case IntsField(num, vs) => Tag(num, 2) + Prefixed(IntBytes(vs))
    case DoublesField(num, vs) => Tag(num, 2) + Prefixed(DoubleBytes(vs))
    case UnknownField(raw) => raw
  }

  // raw is exactly one field that the schema does not know.
  predicate UnknownRecord(schema: Schema, raw: bytes) {
    FieldAt(schema, raw, 0) == Ok((UnknownField(raw), |raw|))
  }

  // A field that a message of this schema can hold.
  predicate Fits(schema: Schema, f: Field) {
    match f
    case IntField(num, _) => 0 < num < 0x1000_0000 && schema(num) == Int
    case DoubleField(num, _) => 0 < num < 0x1000_0000 && schema(num) == Double
    case ChunkField(num, _) => 0 < num < 0x1000_0000 && schema(num) == Chunk
    case IntsField(num, _) => 0 < num < 0x1000_0000 && schema(num) == Ints
    case DoublesField(num, _) => 0 < num < 0x1000_0000 && schema(num) == Doubles
    case UnknownField(raw) => UnknownRecord(schema, raw)
  }

  // ---- reading back --------------------------------------------------------

  lemma DoubleReadBack(v: uint64, s: bytes, i: nat)
    requires Window(Fixed64(v), 0, 8, s, i)
    ensures DoubleAt(s, i) == Ok((v, i + 8))
  {
    WindowSlice(Fixed64(v), 0, 8, s, i);
    assert s == s[..i] + Fixed64(v) + s[i + 8..];
    Fixed64RoundTrip(v, s[..i], s[i + 8..]);
  }

  lemma WindowSplit(a: bytes, b: bytes, s: bytes, i: nat)
    requires Window(a + b, 0, |a + b|, s, i)
    ensures Window(a, 0, |a|, s, i) && Window(b, 0, |b|, s, i + |a|)
  {
    forall k | 0 <= k < |a|
      ensures a[k] == s[k + i]
    {
      assert (a + b)[k] == s[k + i];
    }
    forall k | 0 <= k < |b|
      ensures b[k] == s[k + (i + |a|)]
    {
      assert (a + b)[k + |a|] == s[k + |a| + i];
    }
  }

  lemma SpanReadBack(payload: bytes, s: bytes, i: nat)
    requires |s| < TWO_63
    requires Window(Prefixed(payload), 0, |Prefixed(payload)|, s, i)
    ensures var lo, hi := i + |Varint(|payload|)|, i + |Prefixed(payload)|;
            SpanAt(s, i) == Ok((lo, hi)) && hi <= |s| && s[lo..hi] == payload
            && Window(payload, 0, |payload|, s, lo)
  {
    hide LengthAt, Varint;
    var head := Varint(|payload|);
    WindowSplit(head, payload, s, i);
    LengthReadBack(|payload|, s, i);
    WindowSlice(payload, 0, |payload|, s, i + |head|);
    assert payload[0..|payload|] == payload;
  }

  lemma LengthReadBack(n: nat, s: bytes, i: nat)
    requires n < TWO_63 && Window(Varint(n), 0, |Varint(n)|, s, i)
    ensures LengthAt(s, i) == Ok((n, i + |Varint(n)|))
  {
    IntReadBack(n, s, i);
    hide VarintAt, Varint;
  }

  lemma IntsCons(v: uint64, rest: bytes, vs: seq<uint64>)
    requires PackedInts(rest, 0, |rest|) == Ok((vs, |rest|))
    ensures var s := Varint(v) + rest; PackedInts(s, 0, |s|) == Ok(([v] + vs, |s|))
  {
    hide Varint, IntAt, Window;
    var s, n := Varint(v) + rest, |Varint(v)|;
    WindowConcat(Varint(v), rest);
    IntReadBack(v, s, 0);
    PackedIntsTransport(rest, 0, |rest|, s, n);
  }

  lemma {:induction false} IntsReadBack(vs: seq<uint64>)
    ensures PackedInts(IntBytes(vs), 0, |IntBytes(vs)|) == Ok((vs, |IntBytes(vs)|))
  {
    if vs != [] {
      hide Varint, PackedInts;
      IntsReadBack(vs[1..]);
      IntsCons(vs[0], IntBytes(vs[1..]), vs[1..]);
      assert [vs[0]] + vs[1..] == vs;
    }
  }

  lemma DoublesCons(v: uint64, rest: bytes, vs: seq<uint64>)
    requires PackedDoubles(rest, 0, |rest|) == Ok((vs, |rest|))
    ensures var s := Fixed64(v) + rest; PackedDoubles(s, 0, |s|) == Ok(([v] + vs, |s|))
  {
    hide Fixed64, DoubleAt, Window;
    var s := Fixed64(v) + rest;
    WindowConcat(Fixed64(v), rest);
    DoubleReadBack(v, s, 0);
    PackedDoublesTransport(rest, 0, |rest|, s, 8);
  }

  lemma {:induction false} DoublesReadBack(vs: seq<uint64>)
    ensures PackedDoubles(DoubleBytes(vs), 0, |DoubleBytes(vs)|) == Ok((vs, |DoubleBytes(vs)|))
  {
    if vs != [] {
      hide Fixed64, PackedDoubles;
      DoublesReadBack(vs[1..]);
      DoublesCons(vs[0], DoubleBytes(vs[1..]), vs[1..]);
      assert [vs[0]] + vs[1..] == vs;
    }
  }

  // A packed list, read from the buffer that holds its length prefix.
  lemma PackedIntsReadBack(vs: seq<uint64>, s: bytes, i: nat)
    requires |s| < TWO_63
    requires Window(Prefixed(IntBytes(vs)), 0, |Prefixed(IntBytes(vs))|, s, i)
    ensures var lo, hi := i + |Varint(|IntBytes(vs)|)|, i + |Prefixed(IntBytes(vs))|;
            SpanAt(s, i) == Ok((lo, hi)) && hi <= |s| && PackedInts(s, lo, hi) == Ok((vs, hi))
  {
    hide SpanAt, Varint, PackedInts, IntBytes;
    var p := IntBytes(vs);
    SpanReadBack(p, s, i);
    IntsReadBack(vs);
    PackedIntsTransport(p, 0, |p|, s, i + |Varint(|p|)|);
  }

  lemma PackedDoublesReadBack(vs: seq<uint64>, s: bytes, i: nat)
    requires |s| < TWO_63
    requires Window(Prefixed(DoubleBytes(vs)), 0, |Prefixed(DoubleBytes(vs))|, s, i)
    ensures var lo, hi := i + |Varint(|DoubleBytes(vs)|)|, i + |Prefixed(DoubleBytes(vs))|;
            SpanAt(s, i) == Ok((lo, hi)) && hi <= |s| && PackedDoubles(s, lo, hi) == Ok((vs, hi))
  {
    hide SpanAt, Varint, PackedDoubles, DoubleBytes;
    var p := DoubleBytes(vs);
    SpanReadBack(p, s, i);
    DoublesReadBack(vs);
    PackedDoublesTransport(p, 0, |p|, s, i + |Varint(|p|)|);
  }

  // Past its tag, a field is read by the case of its own number.
  lemma TagReadBack(schema: Schema, num: nat, wireType: nat, body: bytes)
    requires 0 < num < 0x1000_0000 && wireType in {0, 1, 2} && |body| > 0
    ensures var s, j := Tag(num, wireType) + body, |Tag(num, wireType)|;
            FieldAt(schema, s, 0) == PayloadAt(schema(num), num, wireType, s, 0, j)
            && Window(body, 0, |body|, s, j)
  {
    hide PayloadAt, IntAt, Varint, Window;
    WindowConcat(Tag(num, wireType), body);
    IntReadBack(8 * num + wireType, Tag(num, wireType) + body, 0);
    assert I32((8 * num + wireType) / 8) == num;
  }

  // Reading what was written gives the field back and stops at its last byte.
  lemma FieldRoundTrip(schema: Schema, f: Field)
    requires Fits(schema, f) && |EncodeField(f)| < TWO_63
    ensures FieldAt(schema, EncodeField(f), 0) == Ok((f, |EncodeField(f)|))
  {
    hide FieldAt, IntAt, SpanAt, Fixed64, Fixed64At, PackedInts, PackedDoubles, Tag;
    hide Varint, Window, SkipFrom, IntBytes, DoubleBytes;
    var s := EncodeField(f);
    match f
    case IntField(num, v) =>
      TagReadBack(schema, num, 0, Varint(v));
      IntReadBack(v, s, |Tag(num, 0)|);
    case DoubleField(num, bits) =>
      TagReadBack(schema, num, 1, Fixed64(bits));
      DoubleReadBack(bits, s, |Tag(num, 1)|);
    case ChunkField(num, payload) =>
      TagReadBack(schema, num, 2, Prefixed(payload));
      SpanReadBack(payload, s, |Tag(num, 2)|);
    case IntsField(num, vs) =>
      TagReadBack(schema, num, 2, Prefixed(IntBytes(vs)));
      PackedIntsReadBack(vs, s, |Tag(num, 2)|);
    case DoublesField(num, vs) =>
      TagReadBack(schema, num, 2, Prefixed(DoubleBytes(vs)));
      PackedDoublesReadBack(vs, s, |Tag(num, 2)|);
    case UnknownField(raw) =>
  }

  // What the loop of a schema can read.
  predicate Readable(schema: Schema, f: Field) {
    match f
    case UnknownField(raw) => UnknownRecord(schema, raw)
    case ChunkField(num, payload) => schema(num) == Chunk && |payload| < TWO_63
    case _ => schema(f.num) == LayoutOf(f)
  }

  // The payload of a field lies inside the input; an unknown field is kept
  // whole and stands alone.
  lemma FieldReadable(schema: Schema, s: bytes, i: nat)
    requires |s| < TWO_63 && FieldAt(schema, s, i).Ok?
    ensures var (f, j) := FieldAt(schema, s, i).value;
            Readable(schema, f) && (f.UnknownField? ==> f.raw == s[i..j])
  {
    hide TagAt, IntAt, SpanAt, SkipFrom, PackedInts, PackedDoubles;
    var (f, j) := FieldAt(schema, s, i).value;
    if f.UnknownField? {
      FieldTransport(schema, s, i, s[i..j], 0 - i);
    }
  }

  function LayoutOf(f: Field): Layout {
    match f
    case IntField(_, _) => Int
    case DoubleField(_, _) => Double
    case ChunkField(_, _) => Chunk
    case IntsField(_, _) => Ints
    case DoublesField(_, _) => Doubles
    case UnknownField(_) => Unknown
  }

  // ---- the pre-count of packed elements ------------------------------------

  // The count taken before a packed list is read: bytes below 128.
  function EndBytes(s: bytes, i: nat, post: nat): nat
    requires post <= |s|
    decreases post - i
  {
    if i >= post then 0 else (if s[i] < 128 then 1 else 0) + EndBytes(s, i + 1, post)
  }

  // Within one varint only its last byte is below 128.
  lemma {:induction false} EndBytesOfVarint(s: bytes, i: nat, k: nat, post: nat)
    requires k <= 10 && i < post <= |s| && VarintAt(s, i, k).Ok?
    ensures var j := VarintAt(s, i, k).value.1;
            EndBytes(s, i, post) == if j <= post then 1 + EndBytes(s, j, post) else 0
    decreases 10 - k
  {
    if s[i] >= 128 && i + 1 < post {
      EndBytesOfVarint(s, i + 1, k + 1, post);
    }
  }

  // Within one varint only its last byte is below 128.
  lemma {:induction false} VarintBytes(s: bytes, i: nat, k: nat, p: nat)
    requires k <= 10 && VarintAt(s, i, k).Ok? && i <= p < VarintAt(s, i, k).value.1
    ensures p < |s| && (s[p] < 128 <==> p == VarintAt(s, i, k).value.1 - 1)
    decreases 10 - k
  {
    if s[i] >= 128 && p > i {
      VarintBytes(s, i + 1, k + 1, p);
    }
  }

  // The payload ends inside a varint.
  predicate EndsMidVarint(s: bytes, i: nat, post: nat)
    requires post <= |s|
  {
    i < post && s[post - 1] >= 128
  }

  // The list has exactly the pre-counted number of elements and ends with its
  // payload, unless the payload ends inside a varint: then there is one element
  // more, which is read past the end of the payload.
  lemma {:induction false} PackedCount(s: bytes, i: nat, post: nat)
    requires i <= post <= |s| && PackedInts(s, i, post).Ok?
    ensures var (vs, j) := PackedInts(s, i, post).value;
            if EndsMidVarint(s, i, post)
            then |vs| == EndBytes(s, i, post) + 1 && j > post
            else |vs| == EndBytes(s, i, post) && j == post
    decreases post - i
  {
    if i < post {
      EndBytesOfVarint(s, i, 0, post);
      var j := IntAt(s, i).value.1;
      if j <= post {
        PackedCount(s, j, post);
        VarintBytes(s, i, 0, j - 1);
      } else {
        VarintBytes(s, i, 0, post - 1);
      }
    }
  }

  // A packed list of doubles has an element for every eight bytes that its
  // payload begins; the generated pre-count divides by eight, and misses an
  // element that the payload does not hold in full.
  lemma {:induction false} PackedDoublesCount(s: bytes, i: nat, post: nat)
    requires i <= post && PackedDoubles(s, i, post).Ok?
    ensures var (vs, j) := PackedDoubles(s, i, post).value;
            && j == i + 8 * |vs|
            && |vs| == (post - i) / 8 + if (post - i) % 8 == 0 then 0 else 1
    decreases post - i
  {
    if i + 8 <= post {
      hide Fixed64At;
      PackedDoublesCount(s, i + 8, post);
    } else if i < post {
      assert PackedDoubles(s, i + 8, post) == Ok(([], i + 8));
    }
  }
}
