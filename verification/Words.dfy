// Fixed-width integers of the Go code, written as bounded mathematical integers,
// and the error values that the decoders can return.
module Words {

  const TWO_31: int := 0x8000_0000
  const TWO_32: int := 0x1_0000_0000
  const TWO_53: int := 0x20_0000_0000_0000
  const TWO_63: int := 0x8000_0000_0000_0000
  const TWO_64: int := 0x1_0000_0000_0000_0000

  type byte = x: int | 0 <= x < 256
  type uint32 = x: int | 0 <= x < 0x1_0000_0000
  type uint64 = x: int | 0 <= x < 0x1_0000_0000_0000_0000
  type int32 = x: int | -0x8000_0000 <= x < 0x8000_0000
  type int64 = x: int | -0x8000_0000_0000_0000 <= x < 0x8000_0000_0000_0000

  // A byte slice or a Go string; neither carries an encoding here.
  type bytes = seq<byte>

  // Truncating conversions uint32(x), uint64(x), int32(x), int64(x).
  function U32(x: int): uint32 { x % TWO_32 }
  function U64(x: int): uint64 { x % TWO_64 }
  function I32(x: int): int32 { var u := x % TWO_32; if u < TWO_31 then u else u - TWO_32 }
  function I64(x: int): int64 { var u := x % TWO_64; if u < TWO_63 then u else u - TWO_64 }

  lemma TruncationsInvert(a: uint32, b: uint64, c: int32, d: int64)
    ensures U32(U64(a)) == a && U64(b) == b
    ensures I32(U64(c)) == c && I64(U64(d)) == d
  {
  }

  datatype Error =
    | IntOverflow            // a varint of more than ten bytes
    | UnexpectedEOF
    | InvalidLength          // a negative length, or an index sum that wraps negative
    | EndGroup               // an end-group tag outside any group
    | IllegalTag             // field number not positive
    | WrongWireType          // a known field number with an unexpected wire type
    | IllegalWireType        // wire type 6 or 7 in a skipped field
    | UnexpectedEndOfGroup

  datatype Result<+T> = Ok(value: T) | Err(error: Error) {
    predicate IsFailure() { Err? }
    function PropagateFailure<U>(): Result<U>
      requires Err?
    {
      Err(error)
    }
    function Extract(): T
      requires Ok?
    {
      value
    }
  }

  datatype Option<+T> = None | Some(value: T)

  // t holds s[i..j] shifted by d positions.
  ghost predicate Window(s: bytes, i: nat, j: nat, t: bytes, d: int) {
    && i <= j <= |s|
    && 0 <= i + d
    && j + d <= |t|
    && forall k :: i <= k < j ==> s[k] == t[k + d]
  }

  lemma WindowSlice(s: bytes, i: nat, j: nat, t: bytes, d: int)
    requires Window(s, i, j, t, d)
    ensures s[i..j] == t[i + d..j + d]
  {
    forall k | 0 <= k < j - i
      ensures s[i..j][k] == t[i + d..j + d][k]
    {
      assert s[i + k] == t[i + k + d];
    }
  }

  lemma WindowPart(s: bytes, i: nat, j: nat, t: bytes, d: int, i': nat, j': nat)
    requires Window(s, i, j, t, d) && i <= i' <= j' <= j
    ensures Window(s, i', j', t, d) && 0 <= i' + d && j' + d <= |t|
  {
  }

  lemma WindowConcat(a: bytes, b: bytes)
    ensures Window(a, 0, |a|, a + b, 0)
    ensures Window(b, 0, |b|, a + b, |a|) && Window(a + b, |a|, |a + b|, b, 0 - |a|)
  {
  }

  function Pow2(n: nat): (p: nat)
    ensures p > 0
  {
    if n == 0 then 1 else 2 * Pow2(n - 1)
  }
}
