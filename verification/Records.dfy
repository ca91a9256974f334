// Fields as the protobuf encoding writes them, for any field number and wire
// type, groups included: what skipping one of them must pass (protobuf
// Encoding, "Message Structure" and "Groups").
module Records {
  import opened Words
  import opened Varints
  import opened Skipping
  import opened Fields
  import opened Decoding

  type FieldNumber = n: int | 0 <= n < 0x2000_0000_0000_0000
  type bytes4 = s: bytes | |s| == 4 witness [0, 0, 0, 0]
  type bytes8 = s: bytes | |s| == 8 witness [0, 0, 0, 0, 0, 0, 0, 0]

  // A group closes with a number of its own: skipping does not compare them.
  datatype Record =
    | VarintRecord(num: FieldNumber, v: uint64)
    | Fixed64Record(num: FieldNumber, eight: bytes8)
    | BytesRecord(num: FieldNumber, payload: bytes)
    | GroupRecord(num: FieldNumber, body: seq<Record>, close: FieldNumber)
    | Fixed32Record(num: FieldNumber, four: bytes4)

  function RecordBytes(r: Record): bytes
    decreases r
  {
    match r
    case VarintRecord(num, v) => Varint(8 * num) + Varint(v)
    case Fixed64Record(num, eight) => Varint(8 * num + 1) + eight
    case BytesRecord(num, payload) => Varint(8 * num + 2) + (Varint(|payload|) + payload)
    case GroupRecord(num, body, close) => Varint(8 * num + 3) + (RecordsBytes(body) + Varint(8 * close + 4))
    case Fixed32Record(num, four) => Varint(8 * num + 5) + four
  }

  function RecordsBytes(rs: seq<Record>): bytes
    decreases rs
  {
    if rs == [] then [] else RecordBytes(rs[0]) + RecordsBytes(rs[1..])
  }

  // bs stands in s at index i.
  ghost predicate Here(bs: bytes, s: bytes, i: nat) { Window(bs, 0, |bs|, s, i) }

  lemma HereSplit(a: bytes, b: bytes, s: bytes, i: nat)
    requires Here(a + b, s, i)
    ensures Here(a, s, i) && Here(b, s, i + |a|) && |a + b| == |a| + |b| && i + |a + b| <= |s|
  {
    WindowSplit(a, b, s, i);
  }

  lemma HereInt(v: uint64, s: bytes, i: nat)
    requires Here(Varint(v), s, i)
    ensures IntAt(s, i) == Ok((v, i + |Varint(v)|))
  {
    hide Varint;
    IntReadBack(v, s, i);
  }

  // The token of a scalar record is the whole record.
  lemma ScalarToken(r: Record, s: bytes, i: nat)
    requires !r.GroupRecord? && |s| < TWO_63 && Here(RecordBytes(r), s, i)
    ensures TokenAt(s, i) == Ok(Scalar(i + |RecordBytes(r)|))
  {
    hide Varint, Here, IntAt;
    match r
    case VarintRecord(num, v) =>
      HereSplit(Varint(8 * num), Varint(v), s, i);
      HereInt(8 * num, s, i);
      HereInt(v, s, i + |Varint(8 * num)|);
    case Fixed64Record(num, eight) =>
      HereSplit(Varint(8 * num + 1), eight, s, i);
      HereInt(8 * num + 1, s, i);
    case BytesRecord(num, payload) =>
      var tag, n := Varint(8 * num + 2), |payload|;
      HereSplit(tag, Varint(n) + payload, s, i);
      HereSplit(Varint(n), payload, s, i + |tag|);
      HereInt(8 * num + 2, s, i);
      HereInt(n, s, i + |tag|);
    case Fixed32Record(num, four) =>
      HereSplit(Varint(8 * num + 5), four, s, i);
      HereInt(8 * num + 5, s, i);
  }

  lemma TagToken(num: FieldNumber, close: bool, s: bytes, i: nat)
    requires |s| < TWO_63
    requires Here(Varint(8 * num + if close then 4 else 3), s, i)
    ensures var j := i + |Varint(8 * num + if close then 4 else 3)|;
            TokenAt(s, i) == Ok(if close then Close(j) else Open(j))
  {
    hide Varint, Here, IntAt;
    HereInt(8 * num + if close then 4 else 3, s, i);
  }

  // Inside a group, a record is passed whole.
  lemma {:induction false} RecordInGroup(r: Record, s: bytes, i: nat)
    requires |s| < TWO_63 && Here(RecordBytes(r), s, i) && i + |RecordBytes(r)| < |s|
    ensures Group(s, i) == Group(s, i + |RecordBytes(r)|)
    decreases r, 0
  {
    hide Varint, Here, TokenAt;
    if r.GroupRecord? {
      var tag, rest := Varint(8 * r.num + 3), RecordsBytes(r.body) + Varint(8 * r.close + 4);
      HereSplit(tag, rest, s, i);
      TagToken(r.num, false, s, i);
      BodyOfGroup(r.body, r.close, s, i + |tag|);
    } else {
      ScalarToken(r, s, i);
      assert |RecordBytes(r)| > 0 by { RecordNotEmpty(r); }
    }
  }

  lemma RecordNotEmpty(r: Record)
    ensures |RecordBytes(r)| > 0
  {
  }

  // Descending into a group ends behind its closing tag.
  lemma {:induction false} BodyOfGroup(body: seq<Record>, close: FieldNumber, s: bytes, i: nat)
    requires |s| < TWO_63 && Here(RecordsBytes(body) + Varint(8 * close + 4), s, i)
    ensures Group(s, i) == Ok(i + |RecordsBytes(body) + Varint(8 * close + 4)|)
    decreases body, 1
  {
    hide Varint, Here, TokenAt, RecordBytes;
    var end := Varint(8 * close + 4);
    if body == [] {
      assert RecordsBytes(body) + end == end;
      TagToken(close, true, s, i);
      HereSplit([], end, s, i);
    } else {
      var head, rest := RecordBytes(body[0]), RecordsBytes(body[1..]) + end;
      assert RecordsBytes(body) + end == head + rest;
      HereSplit(head, rest, s, i);
      RecordInGroup(body[0], s, i);
      BodyOfGroup(body[1..], close, s, i + |head|);
    }
  }

  // Skipping a record, whatever follows it, ends exactly behind it.
  lemma SkipRecord(r: Record, pre: bytes, post: bytes)
    requires |pre + RecordBytes(r) + post| < TWO_63
    ensures SkipFrom(pre + RecordBytes(r) + post, |pre|, 0) == Ok(|pre| + |RecordBytes(r)|)
  {
    hide Varint, TokenAt, SkipFrom;
    var s := pre + RecordBytes(r) + post;
    SkippedFieldIsBalanced(s, |pre|);
    BehindPrefix(pre, RecordBytes(r), post);
    RecordBalanced(r, s, |pre|);
  }

  lemma BehindPrefix(pre: bytes, bs: bytes, post: bytes)
    ensures Here(bs, pre + bs + post, |pre|)
  {
  }

  lemma RecordBalanced(r: Record, s: bytes, i: nat)
    requires |s| < TWO_63 && Here(RecordBytes(r), s, i)
    ensures Balanced(s, i) == Ok(i + |RecordBytes(r)|)
  {
    hide Varint, TokenAt, Here;
    RecordNotEmpty(r);
    assert i < |s| by { HereInside(RecordBytes(r), s, i); }
    if r.GroupRecord? {
      var tag, rest := Varint(8 * r.num + 3), RecordsBytes(r.body) + Varint(8 * r.close + 4);
      HereSplit(tag, rest, s, i);
      TagToken(r.num, false, s, i);
      BodyOfGroup(r.body, r.close, s, i + |tag|);
    } else {
      ScalarToken(r, s, i);
    }
  }

  lemma HereInside(bs: bytes, s: bytes, i: nat)
    requires Here(bs, s, i)
    ensures i + |bs| <= |s|
  {
  }

  // A group that is never closed is cut short.
  lemma {:induction false} OpenBody(body: seq<Record>, s: bytes, i: nat)
    requires |s| < TWO_63 && Here(RecordsBytes(body), s, i) && i + |RecordsBytes(body)| == |s|
    ensures Group(s, i) == Err(UnexpectedEOF)
  {
    hide Varint, Here, TokenAt, RecordBytes;
    if body != [] {
      var head, rest := RecordBytes(body[0]), RecordsBytes(body[1..]);
      HereSplit(head, rest, s, i);
      if rest == [] {
        LastRecord(body[0], s, i);
      } else {
        RecordInGroup(body[0], s, i);
        OpenBody(body[1..], s, i + |head|);
      }
    }
  }

  lemma LastRecord(r: Record, s: bytes, i: nat)
    requires |s| < TWO_63 && Here(RecordBytes(r), s, i) && i + |RecordBytes(r)| == |s|
    ensures Group(s, i) == Err(UnexpectedEOF)
  {
    hide Varint, Here, TokenAt;
    RecordNotEmpty(r);
    if r.GroupRecord? {
      var tag, rest := Varint(8 * r.num + 3), RecordsBytes(r.body) + Varint(8 * r.close + 4);
      HereSplit(tag, rest, s, i);
      TagToken(r.num, false, s, i);
      BodyOfGroup(r.body, r.close, s, i + |tag|);
    } else {
      ScalarToken(r, s, i);
    }
  }

  lemma OpenGroupIsCutShort(num: FieldNumber, body: seq<Record>)
    requires |Varint(8 * num + 3) + RecordsBytes(body)| < TWO_63
    ensures SkipFrom(Varint(8 * num + 3) + RecordsBytes(body), 0, 0) == Err(UnexpectedEOF)
  {
    hide Varint, TokenAt, SkipFrom, Group;
    var tag := Varint(8 * num + 3);
    var s := tag + RecordsBytes(body);
    BehindPrefix([], tag, RecordsBytes(body));
    assert [] + tag + RecordsBytes(body) == s;
    BehindPrefix(tag, RecordsBytes(body), []);
    assert tag + RecordsBytes(body) + [] == s;
    hide Here;
    TagToken(num, false, s, 0);
    OpenBody(body, s, |tag|);
    SkippedFieldIsBalanced(s, 0);
  }

  // ---- records that a message type does not know ---------------------------

  // A number that a decoder takes, and that is not one of its own.
  predicate Foreign(schema: Schema, r: Record) {
    0 < r.num < TWO_31 && schema(r.num) == Unknown
  }

  function WireType(r: Record): nat {
    match r
    case VarintRecord(_, _) => 0
    case Fixed64Record(_, _) => 1
    case BytesRecord(_, _) => 2
    case GroupRecord(_, _, _) => 3
    case Fixed32Record(_, _) => 5
  }

  lemma RecordTag(r: Record, post: bytes)
    requires 0 < r.num < TWO_31
    ensures TagAt(RecordBytes(r) + post, 0) == Ok(TagInfo(r.num, WireType(r), |Varint(8 * r.num + WireType(r))|))
  {
    hide Varint, IntAt;
    var tag := Varint(8 * r.num + WireType(r));
    var s := RecordBytes(r) + post;
    assert tag <= s;
    assert Here(tag, s, 0);
    HereInt(8 * r.num + WireType(r), s, 0);
  }

  // It is read as one unknown field, and nothing behind it is.
  lemma ForeignField(schema: Schema, r: Record, post: bytes)
    requires Foreign(schema, r) && |RecordBytes(r) + post| < TWO_63
    ensures FieldAt(schema, RecordBytes(r) + post, 0) == Ok((UnknownField(RecordBytes(r)), |RecordBytes(r)|))
  {
    hide TagAt, SkipFrom, RecordBytes, Varint;
    var s := RecordBytes(r) + post;
    RecordTag(r, post);
    assert [] + RecordBytes(r) + post == s;
    SkipRecord(r, [], post);
    assert s[0..] == s && s[0..|RecordBytes(r)|] == RecordBytes(r);
  }

  // The same anywhere in a buffer.
  lemma ForeignFieldAt(schema: Schema, pre: bytes, r: Record, post: bytes)
    requires Foreign(schema, r) && |pre + RecordBytes(r) + post| < TWO_63
    ensures var s := pre + RecordBytes(r) + post;
            && TagAt(s, |pre|).Ok? && TagAt(s, |pre|).value.num == r.num
            && FieldAt(schema, s, |pre|) == Ok((UnknownField(RecordBytes(r)), |pre| + |RecordBytes(r)|))
  {
    hide TagAt, FieldAt, RecordBytes, Window;
    var bs, s := RecordBytes(r), pre + RecordBytes(r) + post;
    assert bs + [] == bs;
    ForeignField(schema, r, []);
    RecordTag(r, []);
    assert Window(bs, 0, |bs|, s, |pre|) by { WindowInside(pre, bs, post); }
    TagCovered(schema, bs, 0);
    WindowPart(bs, 0, |bs|, s, |pre|, 0, TagAt(bs, 0).value.next);
    TagTransport(bs, 0, s, |pre|);
    FieldTransport(schema, bs, 0, s, |pre|);
  }

  lemma WindowInside(pre: bytes, bs: bytes, post: bytes)
    ensures Window(bs, 0, |bs|, pre + bs + post, |pre|)
  {
  }

  // Any list of them is what a message may hold as unknown bytes.
  lemma {:induction false} ForeignRecordsAreUnknownBytes(schema: Schema, rs: seq<Record>)
    requires (forall r :: r in rs ==> Foreign(schema, r)) && |RecordsBytes(rs)| < TWO_63
    ensures UnknownBytes(schema, RecordsBytes(rs))
  {
    hide RecordBytes, UnknownRecord;
    var raws := RawRecords(rs);
    RawRecordsConcat(rs);
    assert AllUnknown(schema, raws) by {
      forall raw | raw in raws ensures UnknownRecord(schema, raw) {
        var k :| 0 <= k < |raws| && raws[k] == raw;
        RecordAlone(schema, rs, k);
      }
    }
  }

  function RawRecords(rs: seq<Record>): seq<bytes> {
    seq(|rs|, k requires 0 <= k < |rs| => RecordBytes(rs[k]))
  }

  lemma {:induction false} RawRecordsConcat(rs: seq<Record>)
    ensures Concat(RawRecords(rs)) == RecordsBytes(rs)
  {
    if rs != [] {
      hide RecordBytes;
      RawRecordsConcat(rs[1..]);
      assert RawRecords(rs)[1..] == RawRecords(rs[1..]);
    }
  }

  lemma {:induction false} RecordShorter(rs: seq<Record>, k: nat)
    requires k < |rs|
    ensures |RecordBytes(rs[k])| <= |RecordsBytes(rs)|
  {
    if k > 0 {
      hide RecordBytes;
      RecordShorter(rs[1..], k - 1);
    }
  }

  lemma RecordAlone(schema: Schema, rs: seq<Record>, k: nat)
    requires k < |rs| && Foreign(schema, rs[k]) && |RecordsBytes(rs)| < TWO_63
    ensures UnknownRecord(schema, RecordBytes(rs[k]))
  {
    hide RecordBytes, FieldAt;
    RecordShorter(rs, k);
    assert RecordBytes(rs[k]) + [] == RecordBytes(rs[k]);
    ForeignField(schema, rs[k], []);
  }

  // Decoding a list of them keeps exactly their bytes.
  lemma ForeignRecordsAreKept<M(!new)>(schema: Schema, apply: (M, Field) -> Result<M>, keep: (M, bytes) -> M,
                                       rs: seq<Record>, m: M)
    requires (forall r :: r in rs ==> Foreign(schema, r)) && |RecordsBytes(rs)| < TWO_63
    requires Keeps(apply, keep)
    ensures Decode(schema, apply, RecordsBytes(rs), 0, m) == Ok(keep(m, RecordsBytes(rs)))
  {
    hide Decode, UnknownBytes, RecordBytes;
    ForeignRecordsAreUnknownBytes(schema, rs);
    var none: seq<Field> := [];
    assert EncodeFields(none) + RecordsBytes(rs) == RecordsBytes(rs);
    DecodeEncoded(schema, apply, keep, none, RecordsBytes(rs), m);
  }
}
