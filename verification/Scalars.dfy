// ZigZag integers and little-endian doubles.
module Scalars {
  import opened Words
  import opened Varints

  // ---- ZigZag (protobuf Encoding, "Signed Integers") -----------------------

  // u ^ 0 or u ^ 11..1, the right operand being a sign bit spread over the word.
  function Xor64(u: uint64, ones: bool): uint64 { if ones then TWO_64 - 1 - u else u }
  function Xor32(u: uint32, ones: bool): uint32 { if ones then TWO_32 - 1 - u else u }

  // (uint64(x) << 1) ^ uint64(x >> 63)
  function ZigZag64(x: int64): uint64 { Xor64(U64(2 * U64(x)), x < 0) }

  // (v >> 1) ^ uint64((int64(v&1)<<63)>>63)
  function UnZigZag64(v: uint64): int64 { I64(Xor64(v / 2, v % 2 == 1)) }

  // (uint32(x) << 1) ^ uint32(x >> 31)
  function ZigZag32(x: int32): uint32 { Xor32(U32(2 * U32(x)), x < 0) }

  // int32((uint32(v) >> 1) ^ uint32(((v&1)<<31)>>31))
  function UnZigZag32(v: uint32): int32 { I32(Xor32(v / 2, v % 2 == 1)) }

  // sozTypes
  function Soz(x: uint64): nat { Sov(ZigZag64(I64(x))) }

  // Both widths are bijections between signed and unsigned words, and small
  // magnitudes become small numbers.
  lemma ZigZagInverts(x: int64)
    ensures UnZigZag64(ZigZag64(x)) == x
    ensures ZigZag64(x) == if x >= 0 then 2 * x else -2 * x - 1
  {
    assert U64(x) == if x >= 0 then x else x + TWO_64;
    assert U64(2 * U64(x)) == if x >= 0 then 2 * x else 2 * x + TWO_64;
    hide U64;
    assert ZigZag64(x) / 2 == if x >= 0 then x else -1 - x;
  }

  lemma UnZigZagInverts(v: uint64)
    ensures ZigZag64(UnZigZag64(v)) == v
  {
    var h := v / 2;
    assert v == 2 * h + v % 2;
    assert UnZigZag64(v) == if v % 2 == 0 then h else -1 - h;
    ZigZagInverts(UnZigZag64(v));
  }

  lemma ZigZag32Inverts(x: int32)
    ensures UnZigZag32(ZigZag32(x)) == x
    ensures ZigZag32(x) == if x >= 0 then 2 * x else -2 * x - 1
  {
    assert U32(x) == if x >= 0 then x else x + TWO_32;
    assert U32(2 * U32(x)) == if x >= 0 then 2 * x else 2 * x + TWO_32;
    hide U32;
    assert ZigZag32(x) / 2 == if x >= 0 then x else -1 - x;
  }

  lemma UnZigZag32Inverts(v: uint32)
    ensures ZigZag32(UnZigZag32(v)) == v
  {
    var h := v / 2;
    assert v == 2 * h + v % 2;
    assert UnZigZag32(v) == if v % 2 == 0 then h else -1 - h;
    ZigZag32Inverts(UnZigZag32(v));
  }

  // Size() measures a 32-bit zigzag by sozTypes of the sign-extended value;
  // that is the length the marshaller writes.
  lemma SozIsLength(x: int32, y: int64)
    ensures Soz(U64(x)) == |Varint(ZigZag32(x))|
    ensures Soz(U64(y)) == |Varint(ZigZag64(y))|
  {
    TruncationsInvert(0, 0, x, x);
    TruncationsInvert(0, 0, x, y);
    ZigZagInverts(x);
    ZigZag32Inverts(x);
    SovIsLength(ZigZag32(x));
    SovIsLength(ZigZag64(y));
  }

  // A negative enum is written sign-extended, in ten bytes, and its low 32
  // bits are the same enum.
  lemma NegativeEnum(x: int32)
    ensures I32(U64(x)) == x
    ensures x < 0 ==> |Varint(U64(x))| == 10
  {
    TruncationsInvert(0, 0, x, 0);
    if x < 0 {
      assert U64(x) >= TWO_63 == Pow2(63) by { Pow2Table(); }
      VarintAtLeast(U64(x), 10);
      Varint64Length(U64(x));
    }
  }

  lemma {:induction false} VarintAtLeast(v: nat, n: nat)
    requires n > 0 && v >= Pow2(7 * (n - 1))
    ensures |Varint(v)| >= n
  {
    if n > 1 {
      Pow2Times128(7 * (n - 2));
      assert 7 * (n - 1) == 7 * (n - 2) + 7;
      assert v >= 128 && v / 128 >= Pow2(7 * (n - 2));
      VarintAtLeast(v / 128, n - 1);
    }
  }

  // ---- fixed64 -------------------------------------------------------------

  // binary.LittleEndian.PutUint64, n bytes of it.
  function LittleEndian(v: nat, n: nat): (s: bytes)
    ensures |s| == n
  {
    if n == 0 then [] else [v % 256] + LittleEndian(v / 256, n - 1)
  }

  function Fixed64(v: uint64): (s: bytes)
    ensures |s| == 8
  {
    LittleEndian(v, 8)
  }

  // binary.LittleEndian.Uint64, n bytes of it.
  function LittleEndianAt(s: bytes, i: nat, n: nat): nat
    requires i + n <= |s|
    decreases n
  {
    if n == 0 then 0 else s[i] + 256 * LittleEndianAt(s, i + 1, n - 1)
  }

  function Fixed64At(s: bytes, i: nat): uint64
    requires i + 8 <= |s|
  {
    LittleEndianBound(s, i, 8);
    Pow256Is64();
    LittleEndianAt(s, i, 8)
  }

  function Pow256(n: nat): nat { if n == 0 then 1 else 256 * Pow256(n - 1) }

  lemma Pow256Is64()
    ensures Pow256(8) == TWO_64
  {
    assert Pow256(8) == 256 * 256 * 256 * 256 * Pow256(4);
  }

  lemma {:induction false} LittleEndianBound(s: bytes, i: nat, n: nat)
    requires i + n <= |s|
    ensures LittleEndianAt(s, i, n) < Pow256(n)
    decreases n
  {
    if n > 0 {
      LittleEndianBound(s, i + 1, n - 1);
    }
  }

  lemma {:induction false} LittleEndianTransport(s: bytes, i: nat, n: nat, t: bytes, d: int)
    requires Window(s, i, i + n, t, d)
    ensures LittleEndianAt(t, i + d, n) == LittleEndianAt(s, i, n)
    decreases n
  {
    if n > 0 {
      assert s[i] == t[i + d];
      LittleEndianTransport(s, i + 1, n - 1, t, d);
    }
  }

  lemma {:induction false} LittleEndianReadBack(v: nat, n: nat)
    requires v < Pow256(n)
    ensures LittleEndianAt(LittleEndian(v, n), 0, n) == v
    decreases n
  {
    if n > 0 {
      LittleEndianReadBack(v / 256, n - 1);
      LittleEndianTransport(LittleEndian(v / 256, n - 1), 0, n - 1, LittleEndian(v, n), 1);
    }
  }

  // All 2^64 bit patterns of a double survive between any other bytes, NaNs and
  // -0.0 included.
  lemma Fixed64RoundTrip(v: uint64, pre: bytes, post: bytes)
    ensures Fixed64At(pre + Fixed64(v) + post, |pre|) == v
  {
    Pow256Is64();
    LittleEndianReadBack(v, 8);
    LittleEndianTransport(Fixed64(v), 0, 8, pre + Fixed64(v) + post, |pre|);
  }

  // The eight bytes, least significant first.
  lemma Fixed64Bytes(v: uint64)
    ensures Fixed64(v) ==
            [v % 0x100, v / 0x100 % 0x100, v / 0x1_0000 % 0x100, v / 0x100_0000 % 0x100,
             v / 0x1_0000_0000 % 0x100, v / 0x100_0000_0000 % 0x100, v / 0x1_0000_0000_0000 % 0x100,
             v / 0x100_0000_0000_0000]
  {
    var a, b, c, d := v / 0x100, v / 0x1_0000, v / 0x100_0000, v / 0x1_0000_0000;
    var e, f, g := v / 0x100_0000_0000, v / 0x1_0000_0000_0000, v / 0x100_0000_0000_0000;
    assert a / 256 == b && b / 256 == c && c / 256 == d && d / 256 == e && e / 256 == f && f / 256 == g && g < 256;
    assert LittleEndian(g, 1) == [g];
    assert LittleEndian(f, 2) == [f % 256, g];
    assert LittleEndian(e, 3) == [e % 256, f % 256, g];
    assert LittleEndian(d, 4) == [d % 256, e % 256, f % 256, g];
    assert LittleEndian(c, 5) == [c % 256, d % 256, e % 256, f % 256, g];
    assert LittleEndian(b, 6) == [b % 256, c % 256, d % 256, e % 256, f % 256, g];
    assert LittleEndian(a, 7) == [a % 256, b % 256, c % 256, d % 256, e % 256, f % 256, g];
  }
}
