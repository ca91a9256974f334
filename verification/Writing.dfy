// Filling a buffer from the end backwards. Every method here extends the
// filled region downwards: before is the buffer as it was, end where filling
// began, and content what stands in i..end now. Bytes outside stay as before.
module Writing {
  import opened Words
  import opened Varints
  import opened Scalars
  import opened Fields
  import opened Decoding
  import opened Pieces
  import opened Messages
  import opened Sizing

  lemma WrittenBelow(before: bytes, mid: bytes, after: bytes, j: nat, i: nat, end: nat, p: bytes, content: bytes)
    requires Written(before, mid, i, end, content) && Written(mid, after, j, i, p)
    ensures Written(before, after, j, end, p + content)
  {
    assert mid[..j] == before[..j];
    assert mid[i..] == content + before[end..];
    assert before[..j] + p + (content + before[end..]) == before[..j] + (p + content) + before[end..];
  }

  // i--; dAtA[i] = b
  method PutBelow(dAtA: array<byte>, i: nat, b: byte, ghost before: bytes, ghost end: nat, ghost content: bytes)
    returns (j: nat)
    requires i > 0 && Written(before, dAtA[..], i, end, content)
    modifies dAtA
    ensures j == i - 1 && Written(before, dAtA[..], j, end, [b] + content)
  {
    ghost var mid := dAtA[..];
    j := i - 1;
    dAtA[j] := b;
    assert dAtA[..] == mid[..j] + [b] + mid[i..];
    WrittenBelow(before, mid, dAtA[..], j, i, end, [b], content);
  }

  // i = encodeVarintTypes(dAtA, i, v)
  method PutVarint(dAtA: array<byte>, i: nat, v: nat, ghost before: bytes, ghost end: nat, ghost content: bytes)
    returns (j: nat)
    requires |Varint(v)| <= i && Written(before, dAtA[..], i, end, content)
    modifies dAtA
    ensures j == i - |Varint(v)| && Written(before, dAtA[..], j, end, Varint(v) + content)
  {
    assert i <= dAtA.Length;
    hide Written, Varint;
    ghost var mid := dAtA[..];
    j := EncodeVarint(dAtA, i, v);
    WrittenBelow(before, mid, dAtA[..], j, i, end, Varint(v), content);
  }

  // i -= len(s); copy(dAtA[i:], s)
  method PutBytes(dAtA: array<byte>, i: nat, s: bytes, ghost before: bytes, ghost end: nat, ghost content: bytes)
    returns (j: nat)
    requires |s| <= i && Written(before, dAtA[..], i, end, content)
    modifies dAtA
    ensures j == i - |s| && Written(before, dAtA[..], j, end, s + content)
  {
    ghost var mid := dAtA[..];
    j := i - |s|;
    forall k | 0 <= k < |s| {
      dAtA[j + k] := s[k];
    }
    assert dAtA[..] == mid[..j] + s + mid[i..];
    WrittenBelow(before, mid, dAtA[..], j, i, end, s, content);
  }

  // i -= 8; binary.LittleEndian.PutUint64(dAtA[i:], bits)
  method PutFixed64(dAtA: array<byte>, i: nat, bits: uint64, ghost before: bytes, ghost end: nat, ghost content: bytes)
    returns (j: nat)
    requires 8 <= i && Written(before, dAtA[..], i, end, content)
    modifies dAtA
    ensures j == i - 8 && Written(before, dAtA[..], j, end, Fixed64(bits) + content)
  {
    assert i <= dAtA.Length;
    hide Written;
    ghost var mid, done: bytes := dAtA[..], [];
    j := i - 8;
    NothingWritten(mid, j);
    var v: nat := bits;
    for k := 0 to 8
      invariant |done| == k && done + LittleEndian(v, 8 - k) == Fixed64(bits)
      invariant Written(mid, dAtA[..], j, j + k, done)
    {
      PutByte(dAtA, j + k, v % 256, mid, j, done);
      done := done + [v % 256];
      v := v / 256;
    }
    assert done == Fixed64(bits);
    WrittenBelow(before, mid, dAtA[..], j, i, end, done, content);
  }

  // A tag below its field: the one or two bytes of 8*num + wireType.
  method PutTag(dAtA: array<byte>, i: nat, num: nat, wireType: nat, ghost before: bytes, ghost end: nat, ghost content: bytes)
    returns (j: nat)
    requires 0 < num <= 16 && wireType < 8
    requires |Tag(num, wireType)| <= i && Written(before, dAtA[..], i, end, content)
    modifies dAtA
    ensures j == i - |Tag(num, wireType)| && Written(before, dAtA[..], j, end, Tag(num, wireType) + content)
  {
    hide Written;
    TagSize(num, wireType);
    if num == 16 {
      j := PutBelow(dAtA, i, 1, before, end, content);
      j := PutBelow(dAtA, j, 128 + wireType, before, end, [1] + content);
      assert Tag(num, wireType) == [128 + wireType] + Varint(1);
      assert [128 + wireType] + ([1] + content) == Tag(num, wireType) + content;
    } else {
      j := PutBelow(dAtA, i, 8 * num + wireType, before, end, content);
    }
  }

  // ---- one piece -----------------------------------------------------------

  method PutIntField(dAtA: array<byte>, i: nat, num: nat, v: uint64, ghost before: bytes, ghost end: nat, ghost content: bytes)
    returns (j: nat)
    requires 0 < num <= 16 && |EncodeField(IntField(num, v))| <= i
    requires Written(before, dAtA[..], i, end, content)
    modifies dAtA
    ensures j == i - |EncodeField(IntField(num, v))|
    ensures Written(before, dAtA[..], j, end, EncodeField(IntField(num, v)) + content)
  {
    hide Written, Varint, Tag;
    j := PutVarint(dAtA, i, v, before, end, content);
    j := PutTag(dAtA, j, num, 0, before, end, Varint(v) + content);
    assert Tag(num, 0) + (Varint(v) + content) == Tag(num, 0) + Varint(v) + content;
  }

  method PutDoubleField(dAtA: array<byte>, i: nat, num: nat, bits: uint64, ghost before: bytes, ghost end: nat, ghost content: bytes)
    returns (j: nat)
    requires 0 < num <= 16 && |EncodeField(DoubleField(num, bits))| <= i
    requires Written(before, dAtA[..], i, end, content)
    modifies dAtA
    ensures j == i - |EncodeField(DoubleField(num, bits))|
    ensures Written(before, dAtA[..], j, end, EncodeField(DoubleField(num, bits)) + content)
  {
    hide Written, Fixed64, Tag;
    j := PutFixed64(dAtA, i, bits, before, end, content);
    j := PutTag(dAtA, j, num, 1, before, end, Fixed64(bits) + content);
    assert Tag(num, 1) + (Fixed64(bits) + content) == Tag(num, 1) + Fixed64(bits) + content;
  }

  method PutOptInt(dAtA: array<byte>, i: nat, num: nat, v: uint64, ghost before: bytes, ghost end: nat, ghost content: bytes)
    returns (j: nat)
    requires 0 < num <= 16 && |EncodeFields(OptInt(num, v))| <= i
    requires Written(before, dAtA[..], i, end, content)
    modifies dAtA
    ensures j == i - |EncodeFields(OptInt(num, v))|
    ensures Written(before, dAtA[..], j, end, EncodeFields(OptInt(num, v)) + content)
  {
    hide Written, EncodeField;
    j := i;
    if v != 0 {
      OneField(IntField(num, v));
      j := PutIntField(dAtA, j, num, v, before, end, content);
    } else {
      assert [] + content == content;
    }
  }

  method PutOptDouble(dAtA: array<byte>, i: nat, num: nat, bits: uint64, ghost before: bytes, ghost end: nat, ghost content: bytes)
    returns (j: nat)
    requires 0 < num <= 16 && |EncodeFields(OptDouble(num, bits))| <= i
    requires Written(before, dAtA[..], i, end, content)
    modifies dAtA
    ensures j == i - |EncodeFields(OptDouble(num, bits))|
    ensures Written(before, dAtA[..], j, end, EncodeFields(OptDouble(num, bits)) + content)
  {
    hide Written, EncodeField;
    j := i;
    if !IsZero(bits) {
      OneField(DoubleField(num, bits));
      j := PutDoubleField(dAtA, j, num, bits, before, end, content);
    } else {
      assert [] + content == content;
    }
  }

  // The length prefix and tag of a payload that has just been written.
  method PutHeader(dAtA: array<byte>, i: nat, num: nat, ghost p: bytes, size: nat,
                   ghost before: bytes, ghost end: nat, ghost content: bytes)
    returns (j: nat)
    requires 0 < num <= 16 && |p| == size && |Tag(num, 2)| + |Varint(size)| <= i
    requires Written(before, dAtA[..], i, end, p + content)
    modifies dAtA
    ensures j == i - |Tag(num, 2)| - |Varint(size)|
    ensures Written(before, dAtA[..], j, end, Tag(num, 2) + Prefixed(p) + content)
  {
    hide Written, Varint, Tag;
    j := PutVarint(dAtA, i, size, before, end, p + content);
    j := PutTag(dAtA, j, num, 2, before, end, Varint(size) + (p + content));
    assert Tag(num, 2) + (Varint(size) + (p + content)) == Tag(num, 2) + (Varint(size) + p) + content;
  }

  // The same for an embedded message, which has just been marshalled into
  // dAtA[..i] and took size bytes there.
  method PutEmbedded(dAtA: array<byte>, i: nat, num: nat, ghost p: bytes, size: nat,
                     ghost mid: bytes, ghost before: bytes, ghost end: nat, ghost content: bytes)
    returns (j: nat)
    requires 0 < num <= 16 && |p| == size && |Tag(num, 2)| + |Varint(size)| + size <= i
    requires Written(before, mid, i, end, content) && Written(mid, dAtA[..], i - size, i, p)
    modifies dAtA
    ensures j == i - |Tag(num, 2)| - |Varint(size)| - size
    ensures Written(before, dAtA[..], j, end, Tag(num, 2) + Prefixed(p) + content)
  {
    hide Written, Varint, Tag, Prefixed;
    WrittenBelow(before, mid, dAtA[..], i - size, i, end, p, content);
    j := PutHeader(dAtA, i - size, num, p, size, before, end, content);
  }

  method PutChunk(dAtA: array<byte>, i: nat, num: nat, s: bytes, ghost before: bytes, ghost end: nat, ghost content: bytes)
    returns (j: nat)
    requires 0 < num <= 16 && |EncodeField(ChunkField(num, s))| <= i
    requires Written(before, dAtA[..], i, end, content)
    modifies dAtA
    ensures j == i - |EncodeField(ChunkField(num, s))|
    ensures Written(before, dAtA[..], j, end, EncodeField(ChunkField(num, s)) + content)
  {
    hide Written, Varint, Tag;
    j := PutBytes(dAtA, i, s, before, end, content);
    j := PutHeader(dAtA, j, num, s, |s|, before, end, content);
  }

  method PutOptChunk(dAtA: array<byte>, i: nat, num: nat, s: bytes, ghost before: bytes, ghost end: nat, ghost content: bytes)
    returns (j: nat)
    requires 0 < num <= 16 && |EncodeFields(OptChunk(num, s))| <= i
    requires Written(before, dAtA[..], i, end, content)
    modifies dAtA
    ensures j == i - |EncodeFields(OptChunk(num, s))|
    ensures Written(before, dAtA[..], j, end, EncodeFields(OptChunk(num, s)) + content)
  {
    hide Written, EncodeField;
    j := i;
    if |s| > 0 {
      OneField(ChunkField(num, s));
      j := PutChunk(dAtA, j, num, s, before, end, content);
    } else {
      assert [] + content == content;
    }
  }

  // One number into the temporary buffer of a packed list.
  method PackVarint(tmp: array<byte>, at: nat, v: uint64) returns (j: nat)
    requires at + |Varint(v)| <= tmp.Length
    modifies tmp
    ensures j == at + |Varint(v)| && tmp[..j] == old(tmp[..at]) + Varint(v)
  {
    j := at;
    var num: nat := v;
    while num >= 128
      invariant at <= j && j + |Varint(num)| == at + |Varint(v)|
      invariant tmp[..j] + Varint(num) == old(tmp[..at]) + Varint(v)
      decreases num
    {
      ghost var done := tmp[..j];
      tmp[j] := num % 128 + 128;
      assert tmp[..j + 1] == done + [num % 128 + 128];
      VarintStep(num, done);
      num := num / 128;
      j := j + 1;
    }
    ghost var done := tmp[..j];
    tmp[j] := num;
    assert tmp[..j + 1] == done + [num];
    j := j + 1;
  }

  method PackInts(vs: seq<uint64>) returns (tmp: array<byte>, j: nat)
    ensures fresh(tmp) && j == |IntBytes(vs)| <= tmp.Length && tmp[..j] == IntBytes(vs)
  {
    hide Varint;
    tmp := new byte[|vs| * 10];
    j := 0;
    for k := 0 to |vs|
      invariant j <= 10 * k && tmp[..j] + IntBytes(vs[k..]) == IntBytes(vs)
    {
      Varint64Length(vs[k]);
      ghost var done := tmp[..j];
      j := PackVarint(tmp, j, vs[k]);
      assert vs[k..][1..] == vs[k + 1..];
      assert done + (Varint(vs[k]) + IntBytes(vs[k + 1..])) == tmp[..j] + IntBytes(vs[k + 1..]);
    }
    assert vs[|vs|..] == [];
  }

  // The same over signed numbers, each zigzagged first.
  method PackDeltas(deltas: seq<int64>) returns (tmp: array<byte>, j: nat)
    ensures var vs := Map(ZigZag64, deltas);
            fresh(tmp) && j == |IntBytes(vs)| <= tmp.Length && tmp[..j] == IntBytes(vs)
  {
    hide Varint, ZigZag64;
    ghost var vs := Map(ZigZag64, deltas);
    tmp := new byte[|deltas| * 10];
    j := 0;
    for k := 0 to |deltas|
      invariant j <= 10 * k && tmp[..j] + IntBytes(vs[k..]) == IntBytes(vs)
    {
      var x := ZigZag64(deltas[k]);
      Varint64Length(x);
      ghost var done := tmp[..j];
      j := PackVarint(tmp, j, x);
      assert vs[k..][1..] == vs[k + 1..];
      assert done + (Varint(x) + IntBytes(vs[k + 1..])) == tmp[..j] + IntBytes(vs[k + 1..]);
    }
    assert vs[|vs|..] == [];
  }

  method PutOptInts(dAtA: array<byte>, i: nat, num: nat, vs: seq<uint64>, ghost before: bytes, ghost end: nat, ghost content: bytes)
    returns (j: nat)
    requires 0 < num <= 16 && |EncodeFields(OptInts(num, vs))| <= i
    requires Written(before, dAtA[..], i, end, content)
    modifies dAtA
    ensures j == i - |EncodeFields(OptInts(num, vs))|
    ensures Written(before, dAtA[..], j, end, EncodeFields(OptInts(num, vs)) + content)
  {
    hide Written, Varint, Tag, IntBytes;
    j := i;
    if |vs| > 0 {
      OneField(IntsField(num, vs));
      var tmp, size := PackInts(vs);
      j := PutBytes(dAtA, j, tmp[..size], before, end, content);
      j := PutHeader(dAtA, j, num, IntBytes(vs), size, before, end, content);
    } else {
      assert [] + content == content;
    }
  }

  method PutOptDeltas(dAtA: array<byte>, i: nat, num: nat, deltas: seq<int64>, ghost before: bytes, ghost end: nat, ghost content: bytes)
    returns (j: nat)
    requires 0 < num <= 16 && |EncodeFields(OptInts(num, Map(ZigZag64, deltas)))| <= i
    requires Written(before, dAtA[..], i, end, content)
    modifies dAtA
    ensures j == i - |EncodeFields(OptInts(num, Map(ZigZag64, deltas)))|
    ensures Written(before, dAtA[..], j, end, EncodeFields(OptInts(num, Map(ZigZag64, deltas))) + content)
  {
    hide Written, Varint, Tag, IntBytes, ZigZag64;
    j := i;
    ghost var vs := Map(ZigZag64, deltas);
    if |deltas| > 0 {
      OneField(IntsField(num, vs));
      var tmp, size := PackDeltas(deltas);
      j := PutBytes(dAtA, j, tmp[..size], before, end, content);
      j := PutHeader(dAtA, j, num, IntBytes(vs), size, before, end, content);
    } else {
      assert [] + content == content;
    }
  }

  method PutOptDoubles(dAtA: array<byte>, i: nat, num: nat, vs: seq<uint64>, ghost before: bytes, ghost end: nat, ghost content: bytes)
    returns (j: nat)
    requires 0 < num <= 16 && |EncodeFields(OptDoubles(num, vs))| <= i
    requires Written(before, dAtA[..], i, end, content)
    modifies dAtA
    ensures j == i - |EncodeFields(OptDoubles(num, vs))|
    ensures Written(before, dAtA[..], j, end, EncodeFields(OptDoubles(num, vs)) + content)
  {
    hide Written, Varint, Tag, Fixed64;
    j := i;
    if |vs| > 0 {
      OneField(DoublesField(num, vs));
      assert vs[|vs|..] == [] && DoubleBytes([]) + content == content;
      for k := |vs| downto 0
        invariant j == i - |DoubleBytes(vs[k..])|
        invariant Written(before, dAtA[..], j, end, DoubleBytes(vs[k..]) + content)
      {
        assert vs[k..][1..] == vs[k + 1..];
        ghost var rest := DoubleBytes(vs[k + 1..]);
        j := PutFixed64(dAtA, j, vs[k], before, end, rest + content);
        assert Fixed64(vs[k]) + (rest + content) == Fixed64(vs[k]) + rest + content;
      }
      assert vs[0..] == vs;
      j := PutHeader(dAtA, j, num, DoubleBytes(vs), 8 * |vs|, before, end, content);
    } else {
      assert [] + content == content;
    }
  }

  // Oneof members are marshalled into dAtA[i-size:i] by their own MarshalTo.
  method PutCount(dAtA: array<byte>, i: nat, intNum: nat, floatNum: nat, c: Count,
                  ghost before: bytes, ghost end: nat, ghost content: bytes)
    returns (j: nat)
    requires 0 < intNum < 16 && 0 < floatNum < 16 && |EncodeFields(OptCount(intNum, floatNum, c))| <= i
    requires Written(before, dAtA[..], i, end, content)
    modifies dAtA
    ensures j == i - |EncodeFields(OptCount(intNum, floatNum, c))|
    ensures Written(before, dAtA[..], j, end, EncodeFields(OptCount(intNum, floatNum, c)) + content)
  {
    hide Written, EncodeField;
    var size := SizeCount(intNum, floatNum, c);
    j := i - size;
    match c {
      case NoCount =>
        assert [] + content == content;
      case CountInt(n) =>
        OneField(IntField(intNum, n));
        var o := PutIntField(dAtA, j + size, intNum, n, before, end, content);
      case CountFloat(bits) =>
        OneField(DoubleField(floatNum, bits));
        var o := PutDoubleField(dAtA, j + size, floatNum, bits, before, end, content);
    }
  }

  // ---- a list of pieces ----------------------------------------------------

  // What stands in the buffer once pieces k.. are written above u.
  function Tail(ps: seq<seq<Field>>, k: nat, u: bytes): bytes
    requires k <= |ps|
  {
    EncodeFields(Flatten(ps[k..])) + u
  }

  lemma TailStep(ps: seq<seq<Field>>, k: nat, u: bytes)
    requires k < |ps|
    ensures Tail(ps, k, u) == EncodeFields(ps[k]) + Tail(ps, k + 1, u)
  {
    hide EncodeFields;
    FlattenFrom(ps, k);
    EncodeConcat(ps[k], Flatten(ps[k + 1..]));
  }

  lemma TailEnds(ps: seq<seq<Field>>, u: bytes)
    ensures Tail(ps, |ps|, u) == u && Tail(ps, 0, u) == EncodePieces(ps, u)
  {
    assert ps[|ps|..] == [] && ps[0..] == ps;
    assert EncodeFields([]) + u == u;
  }

  lemma {:induction false} TailFits(ps: seq<seq<Field>>, k: nat, u: bytes)
    requires k <= |ps|
    ensures |Tail(ps, k, u)| <= |EncodePieces(ps, u)|
  {
    if k == 0 {
      TailEnds(ps, u);
    } else {
      hide Tail, EncodeFields, EncodePieces;
      TailFits(ps, k - 1, u);
      TailStep(ps, k - 1, u);
    }
  }
}
