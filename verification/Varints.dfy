// Base 128 varints (protobuf Encoding, "Base 128 Varints"): least significant
// group of seven bits first, high bit set on every byte but the last.
module Varints {
  import opened Words

  // ---- encoding ------------------------------------------------------------

  function Varint(v: nat): (s: bytes)
    ensures |s| > 0
  {
    if v < 128 then [v] else [v % 128 + 128] + Varint(v / 128)
  }

  // math/bits.Len64
  function Len64(x: nat): nat {
    if x == 0 then 0 else 1 + Len64(x / 2)
  }

  // sovTypes: (Len64(x|1)+6)/7
  function Sov(x: nat): nat {
    (Len64(if x % 2 == 0 then x + 1 else x) + 6) / 7
  }

  lemma Len64Drops7(x: nat)
    requires x >= 128
    ensures Len64(x) == 7 + Len64(x / 128)
  {
    var a, b, c, d, e, f := x / 2, x / 4, x / 8, x / 16, x / 32, x / 64;
    assert a / 2 == b && b / 2 == c && c / 2 == d && d / 2 == e && e / 2 == f && f / 2 == x / 128;
    assert Len64(x) == 1 + Len64(a) && Len64(a) == 1 + Len64(b) && Len64(b) == 1 + Len64(c);
    assert Len64(c) == 1 + Len64(d) && Len64(d) == 1 + Len64(e) && Len64(e) == 1 + Len64(f);
  }

  lemma Len64Small(x: nat)
    requires 0 < x < 128
    ensures 1 <= Len64(x) <= 7
  {
    var a, b, c, d, e, f := x / 2, x / 4, x / 8, x / 16, x / 32, x / 64;
    assert a / 2 == b && b / 2 == c && c / 2 == d && d / 2 == e && e / 2 == f && f / 2 == 0;
    assert Len64(f) <= 1;
    assert Len64(e) <= 2;
    assert Len64(d) <= 3;
    assert Len64(c) <= 4;
    assert Len64(b) <= 5;
    assert Len64(a) <= 6;
  }

  // sovTypes is exactly the number of bytes the encoder writes.
  lemma {:induction false} SovIsLength(v: nat)
    ensures Sov(v) == |Varint(v)|
  {
    var x := if v % 2 == 0 then v + 1 else v;
    if v < 128 {
      Len64Small(x);
    } else {
      SovIsLength(v / 128);
      Len64Drops7(x);
      var w := v / 128;
      var y := if w % 2 == 0 then w + 1 else w;
      assert x / 128 == w;
      // setting the low bit does not change the bit length of a positive number
      if w % 2 == 0 {
        assert w / 2 == y / 2;
        assert Len64(w) == Len64(y);
      }
    }
  }

  lemma {:induction false} VarintLength(v: nat, n: nat)
    requires v < Pow2(7 * n) && n > 0
    ensures |Varint(v)| <= n
  {
    if v >= 128 {
      assert Pow2(7) == 128;
      if n == 1 {
        assert false;
      } else {
        assert Pow2(7 * n) == 128 * Pow2(7 * (n - 1)) by { Pow2Times128(7 * (n - 1)); }
        VarintLength(v / 128, n - 1);
      }
    }
  }

  lemma Pow2Times128(n: nat)
    ensures Pow2(n + 7) == 128 * Pow2(n)
  {
    assert Pow2(n + 7) == 2 * Pow2(n + 6) == 4 * Pow2(n + 5) == 8 * Pow2(n + 4);
    assert Pow2(n + 4) == 2 * Pow2(n + 3) == 4 * Pow2(n + 2) == 8 * Pow2(n + 1) == 16 * Pow2(n);
  }

  lemma Pow2Table()
    ensures Pow2(63) == TWO_63 && Pow2(70) == 128 * TWO_63
  {
    assert Pow2(7) == 128 by { Pow2Times128(0); }
    hide Pow2;
    assert Pow2(14) == 0x4000 by { Pow2Times128(7); }
    assert Pow2(21) == 0x20_0000 by { Pow2Times128(14); }
    assert Pow2(28) == 0x1000_0000 by { Pow2Times128(21); }
    assert Pow2(35) == 0x8_0000_0000 by { Pow2Times128(28); }
    assert Pow2(42) == 0x400_0000_0000 by { Pow2Times128(35); }
    assert Pow2(49) == 0x2_0000_0000_0000 by { Pow2Times128(42); }
    assert Pow2(56) == 0x100_0000_0000_0000 by { Pow2Times128(49); }
    assert Pow2(63) == TWO_63 by { Pow2Times128(56); }
    assert Pow2(70) == 128 * TWO_63 by { Pow2Times128(63); }
  }

  // Every uint64 takes one to ten bytes.
  lemma Varint64Length(v: uint64)
    ensures 1 <= |Varint(v)| <= 10
  {
    Pow2Table();
    VarintLength(v, 10);
  }

  // ---- decoding ------------------------------------------------------------

  // The value (before truncation to a word) and the index after the varint
  // that starts at s[i], when k of its bytes have been read already.
  function VarintAt(s: bytes, i: nat, k: nat): (r: Result<(nat, nat)>)
    requires k <= 10
    ensures r.Ok? ==> i < r.value.1 <= |s| && r.value.1 <= i + 10 - k
    decreases 10 - k
  {
    if k == 10 then Err(IntOverflow)
    else if i >= |s| then Err(UnexpectedEOF)
    else if s[i] < 128 then Ok((s[i], i + 1))
    else
      var r :- VarintAt(s, i + 1, k + 1);
      Ok((s[i] - 128 + 128 * r.0, r.1))
  }

  lemma {:induction false} VarintTransport(s: bytes, i: nat, k: nat, t: bytes, d: int)
    requires k <= 10 && VarintAt(s, i, k).Ok?
    requires Window(s, i, VarintAt(s, i, k).value.1, t, d)
    ensures VarintAt(t, i + d, k) == Ok((VarintAt(s, i, k).value.0, VarintAt(s, i, k).value.1 + d))
    decreases 10 - k
  {
    assert s[i] == t[i + d];
    if s[i] >= 128 {
      VarintTransport(s, i + 1, k + 1, t, d);
    }
  }

  lemma {:induction false} VarintReadBack(v: nat, k: nat)
    requires k + |Varint(v)| <= 10
    ensures VarintAt(Varint(v), 0, k) == Ok((v, |Varint(v)|))
    decreases v
  {
    if v >= 128 {
      VarintReadBack(v / 128, k + 1);
      VarintTransport(Varint(v / 128), 0, k + 1, Varint(v), 1);
    }
  }

  // The decoder recovers every uint64 and stops exactly after its bytes,
  // whatever follows.
  lemma VarintRoundTrip(v: uint64, pre: bytes, post: bytes)
    ensures VarintAt(pre + Varint(v) + post, |pre|, 0) == Ok((v, |pre| + |Varint(v)|))
  {
    Varint64Length(v);
    VarintReadBack(v, 0);
    VarintTransport(Varint(v), 0, 0, pre + Varint(v) + post, |pre|);
  }

  // The groups of seven bits of these bytes, least significant first.
  function Groups(bs: bytes): nat {
    if bs == [] then 0 else bs[0] % 128 + 128 * Groups(bs[1..])
  }

  // What the encoder writes: the value's groups, the high bit on every byte but
  // the last, and no byte more than it takes.
  lemma {:induction false} VarintForm(v: nat)
    ensures var bs := Varint(v);
            && Groups(bs) == v
            && bs[|bs| - 1] < 128
            && (forall k :: 0 <= k < |bs| - 1 ==> bs[k] >= 128)
            && (|bs| > 1 ==> bs[|bs| - 1] > 0)
  {
    if v >= 128 {
      VarintForm(v / 128);
      assert Varint(v)[1..] == Varint(v / 128);
    } else {
      assert [v][1..] == [];
    }
  }

  // n bytes of s from i on have the high bit set.
  predicate Continues(s: bytes, i: nat, n: nat) {
    i + n <= |s| && forall p :: i <= p < i + n ==> s[p] >= 128
  }

  // Every outcome of the decoder: n bytes that continue and one that does not
  // are their groups, in minimal form or not; ten that continue overflow; and
  // fewer, up to the end of s, are cut short.
  lemma {:induction false} VarintOutcome(s: bytes, i: nat, k: nat, n: nat)
    requires k + n <= 10 && Continues(s, i, n)
    ensures k + n < 10 && i + n < |s| && s[i + n] < 128 ==>
              VarintAt(s, i, k) == Ok((Groups(s[i..i + n + 1]), i + n + 1))
    ensures k + n == 10 ==> VarintAt(s, i, k) == Err(IntOverflow)
    ensures k + n < 10 && i + n == |s| ==> VarintAt(s, i, k) == Err(UnexpectedEOF)
    decreases n
  {
    if n > 0 {
      VarintOutcome(s, i + 1, k + 1, n - 1);
    }
    if k + n < 10 && i + n < |s| {
      var bs := s[i..i + n + 1];
      assert bs[1..] == s[i + 1..i + n + 1];
      assert n == 0 ==> bs[1..] == [];
    }
  }

  // The value as a uint64.
  function IntAt(s: bytes, i: nat): (r: Result<(uint64, nat)>)
    ensures r.Ok? ==> i < r.value.1 <= |s|
  {
    var r :- VarintAt(s, i, 0);
    Ok((U64(r.0), r.1))
  }

  lemma IntTransport(s: bytes, i: nat, t: bytes, d: int)
    requires IntAt(s, i).Ok? && Window(s, i, IntAt(s, i).value.1, t, d)
    ensures IntAt(t, i + d) == Ok((IntAt(s, i).value.0, IntAt(s, i).value.1 + d))
  {
    hide VarintAt;
    VarintTransport(s, i, 0, t, d);
  }

  lemma IntReadBack(v: uint64, s: bytes, i: nat)
    requires Window(Varint(v), 0, |Varint(v)|, s, i)
    ensures IntAt(s, i) == Ok((v, i + |Varint(v)|))
  {
    hide Varint, VarintAt;
    Varint64Length(v);
    VarintReadBack(v, 0);
    VarintTransport(Varint(v), 0, 0, s, i);
  }

  // ---- the loops -----------------------------------------------------------

  // Truncation to the width of the variable that a decode loop fills.
  function Trunc(x: nat, wide: bool): (r: uint64) {
    if wide then x % TWO_64 else x % TWO_32
  }

  // v |= uintN(b&0x7F) << shift. The bits or-ed in lie above every bit of v,
  // so the or is an addition.
  function OrIn(v: nat, b: byte, shift: nat, wide: bool): (r: uint64) {
    Trunc(v + Trunc(b % 128 * Pow2(shift), wide), wide)
  }

  function Bound(wide: bool): nat { if wide then TWO_64 else TWO_32 }

  lemma Dist(m: int, a: int, b: int)
    ensures m * (a + b) == m * a + m * b
  {
  }

  lemma {:induction false} Grow(m: nat, d: nat)
    requires d >= 1
    ensures m * d >= m
  {
    if d > 1 {
      Grow(m, d - 1);
      Dist(m, d - 1, 1);
    }
  }

  lemma UniqueRemainder(a: nat, m: nat, t: nat, r: nat)
    requires m > 0 && a == m * t + r && r < m
    ensures a % m == r
  {
    var t', r' := a / m, a % m;
    assert m * t + r == m * t' + r' && r' < m;
    if t > t' {
      Dist(m, t', t - t');
      Grow(m, t - t');
      assert false;
    } else if t < t' {
      Dist(m, t, t' - t);
      Grow(m, t' - t);
      assert false;
    }
  }

  lemma Times(p: nat, q: nat, t: nat, r: nat)
    ensures (q * t + r) * p == (p * q) * t + r * p
  {
    Dist(p, q * t, r);
    assert (q * t) * p == (p * q) * t;
  }

  lemma OneMore(r: nat, q: nat, p: nat)
    requires r < q && p > 0
    ensures r * p + p <= p * q
  {
    Dist(p, r + 1, q - 1 - r);
    Dist(p, r, 1);
  }

  // x * p modulo p * q only loses the part of x above q.
  lemma MulMod(x: nat, p: nat, q: nat)
    requires p > 0 && q > 0
    ensures p * q > 0 && x * p % (p * q) == x % q * p
  {
    var t, r := x / q, x % q;
    assert x == q * t + r;
    Times(p, q, t, r);
    OneMore(r, q, p);
    UniqueRemainder(x * p, p * q, t, r * p);
  }

  lemma Pow2Splits(a: nat, b: nat)
    ensures Pow2(a) * Pow2(b) == Pow2(a + b)
  {
    if a > 0 {
      Pow2Splits(a - 1, b);
      assert Pow2(a) * Pow2(b) == 2 * (Pow2(a - 1) * Pow2(b));
    }
  }

  // A multiple of 2^shift, cut to a word, is a smaller multiple of 2^shift,
  // and together with anything below 2^shift it still fits the word.
  lemma CutToBits(x: nat, shift: nat, bits: nat) returns (r: nat)
    ensures r <= x && x * Pow2(shift) % Pow2(bits) == r * Pow2(shift)
    ensures r > 0 ==> r * Pow2(shift) + Pow2(shift) <= Pow2(bits)
  {
    hide Pow2;
    if shift <= bits {
      Pow2Splits(shift, bits - shift);
      r := CutInside(x, Pow2(shift), Pow2(bits - shift), Pow2(bits));
    } else {
      Pow2Splits(bits, shift - bits);
      r := CutOutside(x, Pow2(shift), Pow2(shift - bits), Pow2(bits));
    }
  }

  lemma CutInside(x: nat, p: nat, q: nat, w: nat) returns (r: nat)
    requires p > 0 && q > 0 && w == p * q
    ensures w > 0 && r <= x && x * p % w == r * p && r * p + p <= w
  {
    r := x % q;
    MulMod(x, p, q);
    OneMore(r, q, p);
  }

  lemma CutOutside(x: nat, p: nat, q: nat, w: nat) returns (r: nat)
    requires w > 0 && p == w * q
    ensures r == 0 && x * p % w == r * p
  {
    r := 0;
    Reorder(x, w, q);
    UniqueRemainder(x * p, w, x * q, 0);
  }

  lemma Reorder(x: nat, p: nat, q: nat)
    ensures x * (p * q) == p * (x * q)
  {
  }

  lemma CutToWord(x: nat, shift: nat, wide: bool) returns (r: nat)
    ensures r <= x && Trunc(x * Pow2(shift), wide) == r * Pow2(shift)
    ensures r > 0 ==> r * Pow2(shift) + Pow2(shift) <= Bound(wide)
  {
    Pow2OfWord(wide);
    hide Pow2;
    r := CutToBits(x, shift, if wide then 64 else 32);
  }

  // The bits or-ed in at shift lie above every bit of v and inside the word:
  // the or is an addition that does not carry out.
  lemma OrIsAddition(v: nat, b: byte, shift: nat, wide: bool)
    requires v < Pow2(shift) && v < Bound(wide)
    ensures var y := Trunc(b % 128 * Pow2(shift), wide);
            && y % Pow2(shift) == 0
            && OrIn(v, b, shift, wide) == v + y < Pow2(shift + 7)
  {
    hide Pow2, Trunc, Bound;
    var r := CutToWord(b % 128, shift, wide);
    Pow2Times128(shift);
    var y := Trunc(b % 128 * Pow2(shift), wide);
    FitsBelow(v, r, Pow2(shift), y, Bound(wide));
    TruncIsMod(v + y, wide);
  }

  // A multiple y of p = 2^shift, and v below p.
  lemma FitsBelow(v: nat, r: nat, p: nat, y: nat, bound: nat)
    requires v < p && v < bound && r < 128 && y == r * p && (r > 0 ==> r * p + p <= bound)
    ensures y % p == 0 && v + y < 128 * p && v + y < bound
  {
    SmallMultiple(r, p);
  }

  // A multiple of p below 128 * p.
  lemma SmallMultiple(r: nat, p: nat)
    requires r < 128 && p > 0
    ensures r * p % p == 0 && r * p + p <= 128 * p && (r == 0 ==> r * p == 0)
  {
    UniqueRemainder(r * p, p, r, 0);
    OneMore(r, 128, p);
  }

  lemma TruncIsMod(x: nat, wide: bool)
    ensures Trunc(x, wide) == x % Bound(wide)
    ensures x < Bound(wide) ==> Trunc(x, wide) == x
  {
  }

  lemma Pow2OfWord(wide: bool)
    ensures Pow2(if wide then 64 else 32) == Bound(wide)
  {
    Pow2Table();
    assert Pow2(64) == 2 * Pow2(63);
    assert Pow2(32) == 16 * Pow2(28) && Pow2(28) == 0x1000_0000 by {
      Pow2Times128(0); Pow2Times128(7); Pow2Times128(14); Pow2Times128(21);
      assert Pow2(32) == 2 * Pow2(31) == 4 * Pow2(30) == 8 * Pow2(29);
    }
  }

  lemma TruncSum(a: nat, b: nat, wide: bool)
    ensures Trunc(Trunc(a, wide) + Trunc(b, wide), wide) == Trunc(a + b, wide)
  {
  }

  ghost function Lift(p: nat, w: nat, r: Result<(nat, nat)>): Result<(nat, nat)> {
    match r
    case Err(e) => Err(e)
    case Ok((v, j)) => Ok((p + w * v, j))
  }

  // What the loop has still to produce, with full the untruncated sum so far.
  ghost function Pending(s: bytes, i: nat, k: nat, full: nat, wide: bool): Result<(nat, nat)>
    requires k <= 10
  {
    Truncated(Lift(full, Pow2(7 * k), VarintAt(s, i, k)), wide)
  }

  function Truncated(r: Result<(nat, nat)>, wide: bool): Result<(nat, nat)> {
    match r
    case Err(e) => Err(e)
    case Ok((v, j)) => Ok((Trunc(v, wide), j))
  }

  lemma LiftLift(p: nat, w: nat, b: nat, r: Result<(nat, nat)>)
    ensures Lift(p, w, Lift(b, 128, r)) == Lift(p + w * b, 128 * w, r)
  {
    if r.Ok? {
      var v := r.value.0;
      assert w * (b + 128 * v) == w * b + (128 * w) * v;
    }
  }

  lemma VarintAsLift(s: bytes, i: nat, k: nat)
    requires k < 10 && i < |s|
    ensures VarintAt(s, i, k) ==
            if s[i] < 128 then Ok((s[i] % 128, i + 1)) else Lift(s[i] % 128, 128, VarintAt(s, i + 1, k + 1))
  {
    assert s[i] % 128 == if s[i] < 128 then s[i] else s[i] - 128;
  }

  lemma OrInStep(s: bytes, i: nat, k: nat, full: nat, wide: bool) returns (full': nat)
    requires k < 10 && i < |s|
    ensures OrIn(Trunc(full, wide), s[i], 7 * k, wide) == Trunc(full', wide)
    ensures Pending(s, i, k, full, wide) ==
            if s[i] < 128 then Ok((Trunc(full', wide), i + 1)) else Pending(s, i + 1, k + 1, full', wide)
  {
    hide Trunc, OrIn, Pow2, VarintAt;
    var w, b := Pow2(7 * k), s[i] % 128;
    full' := full + w * b;
    OrInValue(full, s[i], 7 * k, wide);
    VarintAsLift(s, i, k);
    if s[i] >= 128 {
      hide Lift;
      Pow2Times128(7 * k);
      assert 7 * k + 7 == 7 * (k + 1);
      LiftLift(full, w, b, VarintAt(s, i + 1, k + 1));
    }
  }

  lemma OrInValue(full: nat, b: byte, shift: nat, wide: bool)
    ensures OrIn(Trunc(full, wide), b, shift, wide) == Trunc(full + Pow2(shift) * (b % 128), wide)
  {
    var y := b % 128 * Pow2(shift);
    TruncSum(full, y, wide);
    assert y == Pow2(shift) * (b % 128);
  }

  // The hand-unrolled decode loop, into a 64-bit (wide) or 32-bit variable.
  method ReadVarint(s: bytes, start: nat, wide: bool) returns (r: Result<(nat, nat)>)
    ensures r == Truncated(VarintAt(s, start, 0), wide)
  {
    var v, iNdEx: nat, shift := 0, start, 0;
    ghost var full: nat, k: nat := 0, 0;
    while true
      invariant shift == 7 * k && k <= 10
      invariant v == Trunc(full, wide) && v < Pow2(shift)
      invariant Truncated(VarintAt(s, start, 0), wide) == Pending(s, iNdEx, k, full, wide)
      decreases 10 - k
    {
      if shift >= 64 {
        return Err(IntOverflow);
      }
      if iNdEx >= |s| {
        return Err(UnexpectedEOF);
      }
      var b := s[iNdEx];
      OrIsAddition(v, b, shift, wide);
      full := OrInStep(s, iNdEx, k, full, wide);
      v := OrIn(v, b, shift, wide);
      iNdEx := iNdEx + 1;
      if b < 128 {
        return Ok((v, iNdEx));
      }
      shift := shift + 7;
      k := k + 1;
    }
  }

  // after is before with content written over lo..hi.
  ghost predicate Written(before: bytes, after: bytes, lo: nat, hi: nat, content: bytes) {
    && lo <= hi <= |before|
    && |content| == hi - lo
    && after == before[..lo] + content + before[hi..]
  }

  lemma NothingWritten(s: bytes, i: nat)
    requires i <= |s|
    ensures Written(s, s, i, i, [])
  {
    assert s == s[..i] + [] + s[i..];
  }

  method PutByte(dAtA: array<byte>, o: nat, b: byte, ghost before: bytes, ghost lo: nat, ghost content: bytes)
    requires o < |before| && Written(before, dAtA[..], lo, o, content)
    modifies dAtA
    ensures Written(before, dAtA[..], lo, o + 1, content + [b])
  {
    ghost var was := dAtA[..];
    dAtA[o] := b;
    assert dAtA[..] == was[o := b];
    assert was[..o] == before[..lo] + content;
    assert was[o + 1..] == before[o + 1..];
  }

  // encodeVarintTypes: writes Varint(v) into dAtA so that it ends at offset.
  method EncodeVarint(dAtA: array<byte>, offset: nat, v: nat) returns (base: nat)
    requires |Varint(v)| <= offset <= dAtA.Length
    modifies dAtA
    ensures base == offset - |Varint(v)|
    ensures Written(old(dAtA[..]), dAtA[..], base, offset, Varint(v))
  {
    hide Written;
    SovIsLength(v);
    var o := offset - Sov(v);
    base := o;
    var x := v;
    ghost var before, done: bytes := dAtA[..], [];
    NothingWritten(before, base);
    while x >= 128
      invariant o == base + |done| && done + Varint(x) == Varint(v)
      invariant Written(before, dAtA[..], base, o, done)
      decreases x
    {
      PutByte(dAtA, o, x % 128 + 128, before, base, done);
      VarintStep(x, done);
      done := done + [x % 128 + 128];
      x := x / 128;
      o := o + 1;
    }
    PutByte(dAtA, o, x, before, base, done);
    assert done + [x] == Varint(v);
  }

  lemma VarintStep(x: nat, done: bytes)
    requires x >= 128
    ensures done + Varint(x) == done + [x % 128 + 128] + Varint(x / 128)
  {
  }
}
