// float64(n) of an integer: the nearest integer that has at most 53 significant
// bits, ties to even.
module Rounding {
  import opened Words
  import opened Varints

  // a / q to the nearest integer, ties to even.
  function NearestEven(a: nat, q: nat): nat
    requires q > 0
  {
    var k, r := a / q, a % q;
    if 2 * r < q || (2 * r == q && k % 2 == 0) then k else k + 1
  }

  // The multiple of a power of two that has at most 53 significant bits and is
  // nearest to a.
  function RoundFrom(a: nat, q: nat): nat
    requires q > 0
    decreases if a > TWO_53 * q then a - TWO_53 * q else 0
  {
    if a <= TWO_53 * q then NearestEven(a, q) * q else RoundFrom(a, 2 * q)
  }

  // float64(n): the nearest double, which for an integer n is an integer.
  function F64(n: int): int {
    if n >= 0 then RoundFrom(n, 1) else 0 - RoundFrom(0 - n, 1)
  }

  lemma SmallIsExact(n: int)
    requires -TWO_53 <= n <= TWO_53
    ensures F64(n) == n
  {
    assert forall a: nat :: NearestEven(a, 1) == a;
  }

  // Representable: rounding leaves it alone.
  predicate Exact(n: int) { F64(n) == n }

  // ---- rounding twice ------------------------------------------------------

  lemma {:induction false} TimesGrows(a: nat, b: nat, q: nat)
    ensures a <= b ==> a * q <= b * q
    ensures a < b ==> a * q + q <= b * q
    decreases b
  {
    if a < b {
      TimesGrows(a, b - 1, q);
      assert b * q == (b - 1) * q + q;
    }
  }

  lemma NearestIsBounded(a: nat, q: nat)
    requires q > 0 && a <= TWO_53 * q
    ensures NearestEven(a, q) <= TWO_53
  {
    var k, r := a / q, a % q;
    assert a == k * q + r;
    TimesGrows(TWO_53, k, q);
    assert k <= TWO_53 && (k == TWO_53 ==> r == 0);
  }

  // A multiple of 2^j * q within 53 bits of it is found from any smaller q.
  lemma {:induction false} MultipleIsExact(k: nat, q: nat, j: nat)
    requires q > 0 && k <= TWO_53
    ensures RoundFrom(k * (Pow2(j) * q), q) == k * (Pow2(j) * q)
    decreases j
  {
    var b := k * (Pow2(j) * q);
    TimesGrows(k, TWO_53, q);
    if b <= TWO_53 * q {
      var c := k * Pow2(j);
      assert b == c * q by { assert k * (Pow2(j) * q) == k * Pow2(j) * q; }
      QuotientOfMultiple(c, q);
    } else {
      assert j > 0;
      assert Pow2(j) * q == Pow2(j - 1) * (2 * q) by { assert Pow2(j) == 2 * Pow2(j - 1); }
      MultipleIsExact(k, 2 * q, j - 1);
    }
  }

  lemma QuotientOfMultiple(c: nat, q: nat)
    requires q > 0
    ensures NearestEven(c * q, q) == c
  {
    var k, r := c * q / q, c * q % q;
    assert c * q == k * q + r && 0 <= r < q;
    TimesGrows(k, c, q);
    TimesGrows(c, k, q);
    assert k == c && r == 0;
  }

  lemma {:induction false} RoundFromIsMultiple(a: nat, q: nat) returns (k: nat, j: nat)
    requires q > 0
    ensures k <= TWO_53 && RoundFrom(a, q) == k * (Pow2(j) * q)
    decreases if a > TWO_53 * q then a - TWO_53 * q else 0
  {
    if a <= TWO_53 * q {
      NearestIsBounded(a, q);
      k, j := NearestEven(a, q), 0;
      assert Pow2(0) * q == q;
    } else {
      k, j := RoundFromIsMultiple(a, 2 * q);
      assert Pow2(j + 1) * q == Pow2(j) * (2 * q) by { assert Pow2(j + 1) == 2 * Pow2(j); }
      j := j + 1;
    }
  }

  // What rounding returns is representable.
  lemma RoundingSettles(n: int)
    ensures Exact(F64(n))
  {
    var a := if n >= 0 then n else -n;
    var k, j := RoundFromIsMultiple(a, 1);
    MultipleIsExact(k, 1, j);
    assert Pow2(j) * 1 == Pow2(j);
  }

  // ---- rounding to nearest -------------------------------------------------

  function Abs(n: int): nat { if n >= 0 then n else -n }

  // An integer that a double holds: at most 53 significant bits.
  ghost predicate Representable(n: int) {
    exists k: nat, j: nat :: IsScaled(Abs(n), k, j)
  }

  predicate IsScaled(a: nat, k: nat, j: nat) { k <= 0x20_0000_0000_0000 && a == k * Pow2(j) }

  lemma ExactIsRepresentable(n: int)
    ensures Exact(n) <==> Representable(n)
  {
    var a := Abs(n);
    if Exact(n) {
      var k, j := RoundFromIsMultiple(a, 1);
      assert Pow2(j) * 1 == Pow2(j);
      assert IsScaled(a, k, j);
    }
    if Representable(n) {
      var k: nat, j: nat :| IsScaled(a, k, j);
      MultipleIsExact(k, 1, j);
      assert Pow2(j) * 1 == Pow2(j);
    }
  }

  // a lies between two neighbouring multiples A and A + q of q; M is a nearer one
  // of them, and D is any multiple.
  lemma NearestOfTwo(a: int, q: int, A: int, M: int, D: int)
    requires A <= a < A + q && (D <= A || D >= A + q)
    requires (M == A && 2 * (a - A) <= q) || (M == A + q && 2 * (a - A) >= q)
    ensures Abs(a - M) <= Abs(a - D)
    ensures Abs(a - M) == Abs(a - D) && D != M ==> 2 * (a - A) == q && (D == A || D == A + q)
  {
  }

  // Among the multiples of q, and when two of them are equally near.
  lemma NearestMultiple(a: nat, q: nat, c: nat)
    requires q > 0
    ensures var m := NearestEven(a, q);
            && Abs(a - m * q) <= Abs(a - c * q)
            && (Abs(a - m * q) == Abs(a - c * q) && c * q != m * q ==> m % 2 == 0 && (c == m + 1 || c + 1 == m))
  {
    var k, r, m := a / q, a % q, NearestEven(a, q);
    DivisionParts(a, q);
    Neighbours(k, c, q);
    Neighbours(k, m, q);
    hide NearestEven;
    assert m == k || m == k + 1;
    NearestOfTwo(a, q, k * q, m * q, c * q);
  }

  lemma DivisionParts(a: nat, q: nat)
    requires q > 0
    ensures var k, r, m := a / q, a % q, NearestEven(a, q);
            && a == k * q + r && 0 <= r < q
            && (m == k || m == k + 1)
            && (m == k ==> 2 * r <= q) && (m == k + 1 ==> 2 * r >= q)
            && (2 * r == q ==> m % 2 == 0)
  {
    assert a == a / q * q + a % q;
  }

  lemma Neighbours(k: nat, c: nat, q: nat)
    requires q > 0
    ensures c <= k ==> c * q <= k * q
    ensures c > k ==> c * q >= k * q + q
    ensures c * q == k * q <==> c == k
    ensures c * q == k * q + q <==> c == k + 1
  {
    TimesGrows(c, k, q);
    TimesGrows(k, c, q);
    TimesGrows(k + 1, c, q);
    assert (k + 1) * q == k * q + q;
  }

  // R = m * p is at least as near to a as x; and where both are equally near and
  // not the same, they are neighbours among the multiples of p, and m is even.
  predicate Nearer(a: int, R: int, x: int, m: int, p: nat) {
    && Abs(a - R) <= Abs(a - x)
    && (Abs(a - R) == Abs(a - x) && x != R ==>
          R == m * p && Abs(m) <= TWO_53 && m % 2 == 0 && (x == R + p || x == R - p))
  }

  lemma {:induction false} Pow2Grows(i: nat, j: nat)
    requires i <= j
    ensures Pow2(i) <= Pow2(j)
  {
    if i < j {
      Pow2Grows(i, j - 1);
    }
  }

  lemma AtMostHalf(k: nat, p: nat, half: nat)
    requires k <= TWO_53 && p <= half
    ensures k * p <= TWO_53 * half
  {
    TimesGrows(k, TWO_53, p);
    TimesGrows(p, half, TWO_53);
    assert p * TWO_53 == TWO_53 * p && half * TWO_53 == TWO_53 * half;
  }

  // Against a multiple of q.
  lemma NearerThanMultiple(a: nat, q: nat, c: nat)
    requires q > 0 && a <= TWO_53 * q
    ensures Nearer(a, NearestEven(a, q) * q, c * q, NearestEven(a, q), q)
  {
    var m := NearestEven(a, q);
    NearestIsBounded(a, q);
    NearestMultiple(a, q, c);
    Neighbours(m, c, q);
    Neighbours(c, m, q);
    hide NearestEven;
  }

  // Against a number below a multiple of q that is not above a.
  lemma NearerThanBelow(a: nat, q: nat, c: nat, x: nat)
    requires q > 0 && x <= c * q <= a <= TWO_53 * q
    ensures Nearer(a, NearestEven(a, q) * q, x, NearestEven(a, q), q)
  {
    NearerThanMultiple(a, q, c);
    hide NearestEven;
  }

  // Rounding from q = 2^j on, against k * 2^i.
  lemma {:induction false} NearestFrom(a: nat, j: nat, k: nat, i: nat) returns (m: nat, e: nat)
    requires k <= TWO_53 && (j == 0 || a > TWO_53 * Pow2(j - 1))
    ensures Nearer(a, RoundFrom(a, Pow2(j)), k * Pow2(i), m, Pow2(e))
    decreases if a > TWO_53 * Pow2(j) then a - TWO_53 * Pow2(j) else 0
  {
    var q := Pow2(j);
    if a > TWO_53 * q {
      assert Pow2(j + 1) == 2 * q;
      hide Nearer;
      m, e := NearestFrom(a, j + 1, k, i);
    } else {
      m, e := NearestEven(a, q), j;
      assert RoundFrom(a, q) == m * q;
      if i >= j {
        Pow2Splits(i - j, j);
        var c := k * Pow2(i - j);
        TimesTimes(k, Pow2(i - j), q);
        hide Nearer, RoundFrom, NearestEven;
        NearerThanMultiple(a, q, c);
      } else {
        var half := Pow2(j - 1);
        assert q == 2 * half;
        Pow2Grows(i, j - 1);
        AtMostHalf(k, Pow2(i), half);
        hide Nearer, RoundFrom, NearestEven, Pow2;
        NearerThanBelow(a, q, TWO_53 / 2, k * Pow2(i));
      }
    }
  }

  lemma TimesTimes(k: nat, p: nat, q: nat)
    ensures k * p * q == k * (p * q)
  {
  }

  // float64(n) is an integer that a double holds, no other is nearer to n, and
  // of two that are equally near it is the one with an even significand.
  lemma RoundsToNearestEven(n: int, x: int) returns (m: int, e: nat)
    requires Representable(x)
    ensures Representable(F64(n))
    ensures Nearer(n, F64(n), x, m, Pow2(e))
  {
    F64IsRepresentable(n);
    var k: nat, i: nat :| IsScaled(Abs(x), k, i);
    RoundedMagnitude(n);
    hide *;
    var a := Abs(n);
    var R := RoundFrom(a, 1);
    var m0, e0 := NearestFrom1(a, Abs(x), k, i);
    var mz, ez := NearestFrom1(a, 0, 0, 0);
    m, e := m0, e0;
    NearerMirrored(a, R, Abs(x), m0, Pow2(e0), n, x, mz, Pow2(ez));
    if n < 0 {
      m := 0 - m;
    }
  }

  lemma F64IsRepresentable(n: int)
    ensures Representable(F64(n))
  {
    RoundingSettles(n);
    ExactIsRepresentable(F64(n));
  }

  lemma RoundedMagnitude(n: int)
    ensures F64(n) == if n >= 0 then RoundFrom(Abs(n), 1) else 0 - RoundFrom(Abs(n), 1)
  {
  }

  lemma NearestFrom1(a: nat, y: nat, k: nat, i: nat) returns (m: nat, e: nat)
    requires IsScaled(y, k, i) || (y == k == i == 0)
    ensures Nearer(a, RoundFrom(a, 1), y, m, Pow2(e))
  {
    assert Pow2(0) == 1;
    hide RoundFrom, Nearer;
    m, e := NearestFrom(a, 0, k, i);
  }

  lemma NearerMirrored(a: nat, R: nat, y: nat, m: nat, p: nat, n: int, x: int, mz: int, pz: nat)
    requires a == Abs(n) && y == Abs(x)
    requires Nearer(a, R, y, m, p) && Nearer(a, R, 0, mz, pz)
    ensures if n >= 0 then Nearer(n, R, x, m, p) else Nearer(n, 0 - R, x, 0 - m, p)
  {
    assert (0 - m) * p == 0 - m * p;
  }
}
