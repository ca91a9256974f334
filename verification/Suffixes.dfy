// Reading at an index of b, and at the same place in a + b. The outcome is the
// same, with every index moved by |a|, but for one case: the end that a length
// declares is an int when counted from the start of b, and wraps to a negative
// number when counted from the start of a + b.
module Suffixes {
  import opened Words
  import opened Varints
  import opened Scalars
  import opened Skipping
  import opened Fields

  function Moved<T>(r: Result<(T, nat)>, d: nat): Result<(T, nat)> {
    match r
    case Err(e) => Err(e)
    case Ok((v, j)) => Ok((v, j + d))
  }

  lemma VarintTurn(s: bytes, i: nat, k: nat)
    requires k <= 10
    ensures VarintAt(s, i, k) ==
            if k == 10 then Err(IntOverflow)
            else if i >= |s| then Err(UnexpectedEOF)
            else if s[i] < 128 then Ok((s[i], i + 1))
            else
              match VarintAt(s, i + 1, k + 1)
              case Err(e) => Err(e)
              case Ok((v, j)) => Ok((s[i] - 128 + 128 * v, j))
  {
  }

  lemma {:induction false} VarintSuffix(a: bytes, b: bytes, i: nat, k: nat)
    requires k <= 10
    ensures VarintAt(a + b, |a| + i, k) == Moved(VarintAt(b, i, k), |a|)
    decreases 10 - k
  {
    hide VarintAt;
    var s, n := a + b, |a| + i;
    VarintTurn(b, i, k);
    VarintTurn(s, n, k);
    if k < 10 && i < |b| {
      assert s[n] == b[i];
      VarintSuffix(a, b, i + 1, k + 1);
      assert VarintAt(s, n + 1, k + 1) == Moved(VarintAt(b, i + 1, k + 1), |a|);
    }
  }

  lemma IntSuffix(a: bytes, b: bytes, i: nat)
    ensures IntAt(a + b, |a| + i) == Moved(IntAt(b, i), |a|)
  {
    hide VarintAt, U64;
    VarintSuffix(a, b, i, 0);
  }

  lemma LengthSuffix(a: bytes, b: bytes, i: nat)
    ensures LengthAt(a + b, |a| + i) == Moved(LengthAt(b, i), |a|)
  {
    hide IntAt;
    IntSuffix(a, b, i);
  }

  lemma DoubleSuffix(a: bytes, b: bytes, i: nat)
    ensures DoubleAt(a + b, |a| + i) == Moved(DoubleAt(b, i), |a|)
  {
    if i + 8 <= |b| {
      WindowConcat(a, b);
      LittleEndianTransport(b, i, 8, a + b, |a|);
    }
  }

  function Cons(v: uint64, r: Result<(seq<uint64>, nat)>): Result<(seq<uint64>, nat)> {
    match r
    case Err(e) => Err(e)
    case Ok((vs, j)) => Ok(([v] + vs, j))
  }

  lemma PackedIntsTurn(s: bytes, i: nat, post: nat)
    ensures PackedInts(s, i, post) ==
            if i >= post then Ok(([], i))
            else
              var v := IntAt(s, i);
              if v.Err? then Err(v.error) else Cons(v.value.0, PackedInts(s, v.value.1, post))
  {
    hide IntAt;
  }

  lemma PackedDoublesTurn(s: bytes, i: nat, post: nat)
    ensures PackedDoubles(s, i, post) ==
            if i >= post then Ok(([], i))
            else
              var v := DoubleAt(s, i);
              if v.Err? then Err(v.error) else Cons(v.value.0, PackedDoubles(s, v.value.1, post))
    ensures DoubleAt(s, i).Ok? ==> DoubleAt(s, i).value.1 == i + 8
  {
    hide Fixed64At;
  }

  lemma MovedCons(v: uint64, r: Result<(seq<uint64>, nat)>, d: nat)
    ensures Moved(Cons(v, r), d) == Cons(v, Moved(r, d))
  {
  }

  lemma {:induction false} PackedIntsSuffix(a: bytes, b: bytes, i: nat, post: nat)
    ensures PackedInts(a + b, |a| + i, |a| + post) == Moved(PackedInts(b, i, post), |a|)
    decreases post - i
  {
    var s, d := a + b, |a|;
    hide IntAt, PackedInts, Cons;
    PackedIntsTurn(b, i, post);
    PackedIntsTurn(s, d + i, d + post);
    if i < post {
      IntSuffix(a, b, i);
      if IntAt(b, i).Ok? {
        var (v, j) := IntAt(b, i).value;
        assert IntAt(s, d + i) == Ok((v, d + j));
        PackedIntsSuffix(a, b, j, post);
        MovedCons(v, PackedInts(b, j, post), d);
      }
    }
  }

  lemma {:induction false} PackedDoublesSuffix(a: bytes, b: bytes, i: nat, post: nat)
    ensures PackedDoubles(a + b, |a| + i, |a| + post) == Moved(PackedDoubles(b, i, post), |a|)
    decreases post - i
  {
    var s, d := a + b, |a|;
    hide DoubleAt, PackedDoubles, Cons;
    PackedDoublesTurn(b, i, post);
    PackedDoublesTurn(s, d + i, d + post);
    if i < post {
      DoubleSuffix(a, b, i);
      if DoubleAt(b, i).Ok? {
        var (v, j) := DoubleAt(b, i).value;
        assert DoubleAt(s, d + i) == Ok((v, d + j));
        PackedDoublesSuffix(a, b, j, post);
        MovedCons(v, PackedDoubles(b, j, post), d);
      }
    }
  }

  // ---- declared ends -------------------------------------------------------

  // An end that is an int here, and negative d places further on.
  predicate Wraps(end: Option<nat>, d: nat) {
    end.Some? && end.value < TWO_63 <= d + end.value
  }

  // The end that a length prefix at s[i] declares, inside s or not.
  function SpanEnd(s: bytes, i: nat): Option<nat> {
    match LengthAt(s, i)
    case Err(_) => None
    case Ok((n, lo)) => Some(lo + n)
  }

  // The end that the body of the switch computes before it checks it.
  function PayloadEnd(layout: Layout, wireType: int, s: bytes, pre: nat, j: nat): Option<nat>
    requires pre <= |s|
  {
    match layout
    case Unknown => (match SkipFrom(s[pre..], 0, 0) case Err(_) => None case Ok(n) => Some(pre + n))
    case Int => None
    case Double => None
    case _ => if wireType == 2 then SpanEnd(s, j) else None
  }

  // The end that the field at s[i] declares, if it is read that far.
  function DeclaredEnd(schema: Schema, s: bytes, i: nat): Option<nat> {
    match TagAt(s, i)
    case Err(_) => None
    case Ok(tag) => PayloadEnd(schema(tag.num), tag.wireType, s, i, tag.next)
  }

  lemma SpanSuffix(a: bytes, b: bytes, i: nat)
    requires |a + b| < TWO_63
    ensures if Wraps(SpanEnd(b, i), |a|)
            then SpanAt(b, i) == Err(UnexpectedEOF) && SpanAt(a + b, |a| + i) == Err(InvalidLength)
            else SpanAt(a + b, |a| + i) ==
                 match SpanAt(b, i) case Err(e) => Err(e) case Ok((lo, hi)) => Ok((lo + |a|, hi + |a|))
  {
    hide LengthAt;
    LengthSuffix(a, b, i);
  }

  // One case of the switch, at index j of b and at |a| + j of a + b.
  ghost predicate SamePayload(layout: Layout, num: nat, wireType: int, a: bytes, b: bytes, pre: nat, j: nat)
    requires pre < j <= |b|
  {
    var r, r' := PayloadAt(layout, num, wireType, b, pre, j),
                 PayloadAt(layout, num, wireType, a + b, |a| + pre, |a| + j);
    if Wraps(PayloadEnd(layout, wireType, b, pre, j), |a|)
    then r == Err(UnexpectedEOF) && r' == Err(InvalidLength)
    else r' == Moved(r, |a|)
  }

  lemma SingularSuffix(layout: Layout, num: nat, wireType: int, a: bytes, b: bytes, pre: nat, j: nat)
    requires |a + b| < TWO_63 && pre < j <= |b| && layout in {Int, Double, Chunk}
    ensures SamePayload(layout, num, wireType, a, b, pre, j)
  {
    hide IntAt, DoubleAt, SpanAt, SpanEnd;
    match layout
    case Int => IntSuffix(a, b, j);
    case Double => DoubleSuffix(a, b, j);
    case Chunk =>
      SpanSuffix(a, b, j);
      if SpanAt(b, j).Ok? {
        var (lo, hi) := SpanAt(b, j).value;
        assert (a + b)[lo + |a|..hi + |a|] == b[lo..hi];
      }
  }

  lemma RepeatedSuffix(layout: Layout, num: nat, wireType: int, a: bytes, b: bytes, pre: nat, j: nat)
    requires |a + b| < TWO_63 && pre < j <= |b| && layout in {Ints, Doubles}
    ensures SamePayload(layout, num, wireType, a, b, pre, j)
  {
    hide IntAt, DoubleAt, SpanAt, SpanEnd, PackedInts, PackedDoubles;
    if wireType == 2 {
      SpanSuffix(a, b, j);
      if SpanAt(b, j).Ok? {
        var (lo, hi) := SpanAt(b, j).value;
        PackedIntsSuffix(a, b, lo, hi);
        PackedDoublesSuffix(a, b, lo, hi);
      }
    } else {
      IntSuffix(a, b, j);
      DoubleSuffix(a, b, j);
    }
  }

  lemma UnknownSuffix(num: nat, wireType: int, a: bytes, b: bytes, pre: nat, j: nat)
    requires |a + b| < TWO_63 && pre < j <= |b|
    ensures SamePayload(Unknown, num, wireType, a, b, pre, j)
  {
    hide SkipFrom;
    assert (a + b)[|a| + pre..] == b[pre..];
    if SkipFrom(b[pre..], 0, 0).Ok? {
      var end := pre + SkipFrom(b[pre..], 0, 0).value;
      if end <= |b| {
        assert (a + b)[|a| + pre..|a| + end] == b[pre..end];
      }
    }
  }

  lemma TagSuffix(a: bytes, b: bytes, i: nat)
    ensures TagAt(a + b, |a| + i) ==
            match TagAt(b, i) case Err(e) => Err(e) case Ok(tag) => Ok(tag.(next := tag.next + |a|))
  {
    hide IntAt, I32;
    IntSuffix(a, b, i);
  }

  // One turn of a decode loop, at index i of b and at |a| + i of a + b.
  lemma FieldSuffix(schema: Schema, a: bytes, b: bytes, i: nat)
    requires |a + b| < TWO_63
    ensures if Wraps(DeclaredEnd(schema, b, i), |a|)
            then FieldAt(schema, b, i) == Err(UnexpectedEOF) && FieldAt(schema, a + b, |a| + i) == Err(InvalidLength)
            else FieldAt(schema, a + b, |a| + i) == Moved(FieldAt(schema, b, i), |a|)
  {
    hide TagAt, PayloadAt, PayloadEnd;
    TagSuffix(a, b, i);
    if TagAt(b, i).Ok? {
      var tag := TagAt(b, i).value;
      var layout := schema(tag.num);
      assert SamePayload(layout, tag.num, tag.wireType, a, b, i, tag.next) by {
        hide SamePayload;
        if layout == Unknown {
          UnknownSuffix(tag.num, tag.wireType, a, b, i, tag.next);
        } else if layout == Ints || layout == Doubles {
          RepeatedSuffix(layout, tag.num, tag.wireType, a, b, i, tag.next);
        } else {
          SingularSuffix(layout, tag.num, tag.wireType, a, b, i, tag.next);
        }
      }
    }
  }
}
