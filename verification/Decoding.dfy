// The Unmarshal loop of any message type, and what it does to a buffer that a
// marshaller filled. A message type is given by its schema and by apply, the
// assignment that its switch makes for one field.
module Decoding {
  import opened Words
  import opened Varints
  import opened Fields
  import opened Suffixes

  // Unmarshal from index i, with m the message so far.
  function Decode<M>(schema: Schema, apply: (M, Field) -> Result<M>, s: bytes, i: nat, m: M): Result<M>
    decreases |s| - i
  {
    if i >= |s| then Ok(m)
    else
      var r :- FieldAt(schema, s, i);
      var m' :- apply(m, r.0);
      Decode(schema, apply, s, r.1, m')
  }

  function Fold<M>(apply: (M, Field) -> Result<M>, m: M, fs: seq<Field>): Result<M> {
    if fs == [] then Ok(m)
    else
      var m' :- apply(m, fs[0]);
      Fold(apply, m', fs[1..])
  }

  function EncodeFields(fs: seq<Field>): bytes {
    if fs == [] then [] else EncodeField(fs[0]) + EncodeFields(fs[1..])
  }

  lemma {:induction false} FoldConcat<M>(apply: (M, Field) -> Result<M>, m: M, a: seq<Field>, b: seq<Field>)
    requires Fold(apply, m, a).Ok?
    ensures Fold(apply, m, a + b) == Fold(apply, Fold(apply, m, a).value, b)
    decreases |a|
  {
    if a == [] {
      assert a + b == b;
    } else {
      assert (a + b)[1..] == a[1..] + b;
      FoldConcat(apply, apply(m, a[0]).value, a[1..], b);
    }
  }

  lemma {:induction false} EncodeConcat(a: seq<Field>, b: seq<Field>)
    ensures EncodeFields(a + b) == EncodeFields(a) + EncodeFields(b)
  {
    if a == [] {
      assert a + b == b;
    } else {
      assert (a + b)[1..] == a[1..] + b;
      EncodeConcat(a[1..], b);
    }
  }

  // One turn, and the end, of the loop.
  lemma DecodeTurn<M>(schema: Schema, apply: (M, Field) -> Result<M>, s: bytes, i: nat, m: M)
    requires i < |s|
    ensures Decode(schema, apply, s, i, m) ==
            match FieldAt(schema, s, i)
            case Err(e) => Err(e)
            case Ok((f, j)) =>
              match apply(m, f)
              case Err(e) => Err(e)
              case Ok(m') => Decode(schema, apply, s, j, m')
  {
    hide FieldAt;
  }

  lemma DecodeEnd<M>(schema: Schema, apply: (M, Field) -> Result<M>, s: bytes, i: nat, m: M)
    requires i >= |s|
    ensures Decode(schema, apply, s, i, m) == Ok(m)
  {
  }

  // ---- concatenation -------------------------------------------------------

  lemma {:induction false} DecodePrefix<M>(schema: Schema, apply: (M, Field) -> Result<M>, a: bytes, b: bytes, i: nat, m: M)
    requires |a + b| < TWO_63 && i <= |a| && Decode(schema, apply, a, i, m).Ok?
    ensures Decode(schema, apply, a + b, i, m) ==
            Decode(schema, apply, a + b, |a|, Decode(schema, apply, a, i, m).value)
    decreases |a| - i
  {
    hide FieldAt, Decode;
    if i == |a| {
      DecodeEnd(schema, apply, a, i, m);
    } else {
      DecodeTurn(schema, apply, a, i, m);
      DecodeTurn(schema, apply, a + b, i, m);
      var (f, j) := FieldAt(schema, a, i).value;
      FieldInPrefix(schema, a, b, i);
      DecodePrefix(schema, apply, a, b, j, apply(m, f).value);
    }
  }

  // The loop stops at a field of s that declares an end which is an int here,
  // and negative d places further on.
  predicate StopsWrapped<M>(schema: Schema, apply: (M, Field) -> Result<M>, s: bytes, i: nat, m: M, d: nat)
    decreases |s| - i
  {
    i < |s| &&
    match FieldAt(schema, s, i)
    case Err(_) => Wraps(DeclaredEnd(schema, s, i), d)
    case Ok((f, j)) => apply(m, f).Ok? && StopsWrapped(schema, apply, s, j, apply(m, f).value, d)
  }

  // Decoding the tail of a buffer is decoding the tail alone, errors included,
  // unless the tail alone stops at an end that wraps behind a.
  lemma {:induction false} DecodeSuffix<M>(schema: Schema, apply: (M, Field) -> Result<M>, a: bytes, b: bytes, i: nat, m: M)
    requires |a + b| < TWO_63
    ensures var alone, behind := Decode(schema, apply, b, i, m), Decode(schema, apply, a + b, |a| + i, m);
            if StopsWrapped(schema, apply, b, i, m, |a|)
            then alone == Err(UnexpectedEOF) && behind == Err(InvalidLength)
            else behind == alone
    decreases |b| - i
  {
    hide FieldAt, Decode, DeclaredEnd;
    if i >= |b| {
      DecodeEnd(schema, apply, a + b, |a| + i, m);
      DecodeEnd(schema, apply, b, i, m);
    } else {
      FieldSuffix(schema, a, b, i);
      DecodeTurn(schema, apply, a + b, |a| + i, m);
      DecodeTurn(schema, apply, b, i, m);
      if FieldAt(schema, b, i).Ok? {
        var (f, j) := FieldAt(schema, b, i).value;
        if apply(m, f).Ok? {
          DecodeSuffix(schema, apply, a, b, j, apply(m, f).value);
        }
      }
    }
  }

  // If a decodes on its own, decoding a ++ b has the outcome of decoding a and
  // then b into the same message (protobuf Encoding, "Last One Wins"), if and
  // only if b does not stop at an end that wraps behind a. Where it does, the
  // input that was cut short is now one with a negative length.
  lemma DecodeConcat<M>(schema: Schema, apply: (M, Field) -> Result<M>, a: bytes, b: bytes, m: M)
    requires |a + b| < TWO_63 && Decode(schema, apply, a, 0, m).Ok?
    ensures var ma := Decode(schema, apply, a, 0, m).value;
            var both, second := Decode(schema, apply, a + b, 0, m), Decode(schema, apply, b, 0, ma);
            && (both == second <==> !StopsWrapped(schema, apply, b, 0, ma, |a|))
            && (StopsWrapped(schema, apply, b, 0, ma, |a|) ==>
                  second == Err(UnexpectedEOF) && both == Err(InvalidLength))
  {
    hide Decode, StopsWrapped;
    DecodePrefix(schema, apply, a, b, 0, m);
    DecodeSuffix(schema, apply, a, b, 0, Decode(schema, apply, a, 0, m).value);
  }

  // Where the loop stops does not depend on the message, if what apply accepts
  // does not.
  lemma {:induction false} StopsAlike<M(!new)>(schema: Schema, apply: (M, Field) -> Result<M>,
                                              s: bytes, i: nat, m: M, m': M, d: nat)
    requires |s| < TWO_63
    requires forall x: M, y: M, f: Field :: Readable(schema, f) ==> apply(x, f).Ok? == apply(y, f).Ok?
    ensures StopsWrapped(schema, apply, s, i, m, d) == StopsWrapped(schema, apply, s, i, m', d)
    decreases |s| - i
  {
    if i < |s| && FieldAt(schema, s, i).Ok? {
      hide FieldAt, Readable, DeclaredEnd;
      FieldReadable(schema, s, i);
      var (f, j) := FieldAt(schema, s, i).value;
      if apply(m, f).Ok? {
        StopsAlike(schema, apply, s, j, apply(m, f).value, apply(m', f).value, d);
      }
    }
  }

  // ---- round trip ----------------------------------------------------------

  // Decoding written fields assigns them in order.
  lemma {:induction false} DecodeFields<M>(schema: Schema, apply: (M, Field) -> Result<M>, fs: seq<Field>, m: M)
    requires |EncodeFields(fs)| < TWO_63
    requires forall f :: f in fs ==> Fits(schema, f)
    requires Fold(apply, m, fs).Ok?
    ensures Decode(schema, apply, EncodeFields(fs), 0, m) == Fold(apply, m, fs)
    decreases |fs|
  {
    if fs != [] {
      hide FieldAt, EncodeField, Fits;
      var f, head, rest := fs[0], EncodeField(fs[0]), EncodeFields(fs[1..]);
      assert f in fs;
      FieldRoundTrip(schema, f);
      FieldInPrefix(schema, head, rest, 0);
      DecodeFields(schema, apply, fs[1..], apply(m, f).value);
      FieldNonEmpty(schema, f);
      DecodeSuffix(schema, apply, head, rest, 0, apply(m, f).value);
    }
  }

  lemma FieldNonEmpty(schema: Schema, f: Field)
    requires Fits(schema, f)
    ensures |EncodeField(f)| > 0
  {
    hide IntAt, PayloadAt;
  }

  // ---- unknown fields ------------------------------------------------------

  function Concat(raws: seq<bytes>): bytes {
    if raws == [] then [] else raws[0] + Concat(raws[1..])
  }

  function UnknownFields(raws: seq<bytes>): seq<Field> {
    if raws == [] then [] else [UnknownField(raws[0])] + UnknownFields(raws[1..])
  }

  // u is a sequence of whole fields that the schema does not know.
  ghost predicate UnknownBytes(schema: Schema, u: bytes) {
    exists raws: seq<bytes> :: Concat(raws) == u && AllUnknown(schema, raws)
  }

  ghost predicate AllUnknown(schema: Schema, raws: seq<bytes>) {
    forall raw :: raw in raws ==> UnknownRecord(schema, raw)
  }

  lemma NoUnknownBytes(schema: Schema)
    ensures UnknownBytes(schema, [])
  {
    assert Concat([]) == [] && AllUnknown(schema, []);
  }

  lemma {:induction false} ConcatSnoc(raws: seq<bytes>, raw: bytes)
    ensures Concat(raws + [raw]) == Concat(raws) + raw
  {
    if raws != [] {
      ConcatSnoc(raws[1..], raw);
      assert (raws + [raw])[1..] == raws[1..] + [raw];
    } else {
      assert (raws + [raw])[1..] == [];
    }
  }

  lemma UnknownBytesAppend(schema: Schema, u: bytes, raw: bytes)
    requires UnknownBytes(schema, u) && UnknownRecord(schema, raw)
    ensures UnknownBytes(schema, u + raw)
  {
    hide UnknownRecord;
    var raws :| Concat(raws) == u && AllUnknown(schema, raws);
    ConcatSnoc(raws, raw);
    assert AllUnknown(schema, raws + [raw]);
  }

  // keep is how a message type appends to XXX_unrecognized.
  ghost predicate Keeps<M(!new)>(apply: (M, Field) -> Result<M>, keep: (M, bytes) -> M) {
    && (forall m: M, raw: bytes :: apply(m, UnknownField(raw)) == Ok(keep(m, raw)))
    && (forall m: M, a: bytes, b: bytes :: keep(keep(m, a), b) == keep(m, a + b))
    && (forall m: M :: keep(m, []) == m)
  }

  lemma AppendLaws()
    ensures forall u: bytes, a: bytes, b: bytes {:trigger u + a + b} :: u + a + b == u + (a + b)
    ensures forall u: bytes {:trigger u + []} :: u + [] == u
    ensures forall u: bytes {:trigger [] + u} :: [] + u == u
  {
    forall u: bytes, a: bytes, b: bytes
      ensures u + a + b == u + (a + b)
    {
    }
  }

  lemma {:induction false} FoldUnknown<M(!new)>(apply: (M, Field) -> Result<M>, keep: (M, bytes) -> M, raws: seq<bytes>, m: M)
    requires Keeps(apply, keep)
    ensures Fold(apply, m, UnknownFields(raws)) == Ok(keep(m, Concat(raws)))
    decreases |raws|
  {
    if raws != [] {
      FoldUnknown(apply, keep, raws[1..], keep(m, raws[0]));
      assert UnknownFields(raws)[1..] == UnknownFields(raws[1..]);
    }
  }

  lemma {:induction false} UnknownFieldsFit(schema: Schema, raws: seq<bytes>)
    requires AllUnknown(schema, raws)
    ensures EncodeFields(UnknownFields(raws)) == Concat(raws)
    ensures forall f :: f in UnknownFields(raws) ==> Fits(schema, f)
  {
    if raws != [] {
      hide UnknownRecord;
      assert raws[0] in raws;
      UnknownFieldsFit(schema, raws[1..]);
      assert UnknownFields(raws)[1..] == UnknownFields(raws[1..]);
    }
  }

  // Known fields, then the unknown bytes: what every marshaller writes.
  lemma DecodeEncoded<M(!new)>(schema: Schema, apply: (M, Field) -> Result<M>, keep: (M, bytes) -> M,
                               fs: seq<Field>, u: bytes, m: M)
    requires |EncodeFields(fs) + u| < TWO_63
    requires forall f :: f in fs ==> Fits(schema, f)
    requires UnknownBytes(schema, u) && Keeps(apply, keep)
    requires Fold(apply, m, fs).Ok?
    ensures Decode(schema, apply, EncodeFields(fs) + u, 0, m) == Ok(keep(Fold(apply, m, fs).value, u))
  {
    hide Fits, UnknownRecord;
    var raws :| Concat(raws) == u && AllUnknown(schema, raws);
    var us := UnknownFields(raws);
    UnknownFieldsFit(schema, raws);
    EncodeConcat(fs, us);
    FoldConcat(apply, m, fs, us);
    FoldUnknown(apply, keep, raws, Fold(apply, m, fs).value);
    DecodeFields(schema, apply, fs + us, m);
  }

  // ---- where decoding stops ------------------------------------------------

  // The index where the loop stops, at the end of s or at a field that is in
  // error, and the message at that point.
  function StopAt<M>(schema: Schema, apply: (M, Field) -> Result<M>, s: bytes, i: nat, m: M): (nat, M)
    decreases |s| - i
  {
    if i >= |s| then (i, m)
    else
      match FieldAt(schema, s, i)
      case Err(_) => (i, m)
      case Ok((f, j)) =>
        match apply(m, f)
        case Err(_) => (i, m)
        case Ok(m') => StopAt(schema, apply, s, j, m')
  }

  // What comes before the stop decodes to the message there.
  lemma {:induction false} StopDecodes<M>(schema: Schema, apply: (M, Field) -> Result<M>, s: bytes, i: nat, m: M)
    requires |s| < TWO_63 && i <= |s|
    ensures var (k, p) := StopAt(schema, apply, s, i, m);
            && i <= k <= |s|
            && Decode(schema, apply, s[..k], i, m) == Ok(p)
            && (Decode(schema, apply, s, i, m).Ok? <==> k == |s|)
    decreases |s| - i
  {
    hide FieldAt, Decode;
    var (k, p) := StopAt(schema, apply, s, i, m);
    if i == |s| {
      DecodeEnd(schema, apply, s, i, m);
      DecodeEnd(schema, apply, s[..k], i, m);
    } else {
      DecodeTurn(schema, apply, s, i, m);
      if FieldAt(schema, s, i).Ok? && apply(m, FieldAt(schema, s, i).value.0).Ok? {
        var (f, j) := FieldAt(schema, s, i).value;
        StopDecodes(schema, apply, s, j, apply(m, f).value);
        FieldTransport(schema, s, i, s[..k], 0);
        DecodeTurn(schema, apply, s[..k], i, m);
      } else {
        DecodeEnd(schema, apply, s[..k], i, m);
      }
    }
  }

  // No longer prefix decodes.
  lemma {:induction false} StopIsLast<M>(schema: Schema, apply: (M, Field) -> Result<M>, s: bytes, i: nat, m: M, k: nat)
    requires |s| < TWO_63 && i <= k <= |s| && Decode(schema, apply, s[..k], i, m).Ok?
    ensures k <= StopAt(schema, apply, s, i, m).0
    decreases |s| - i
  {
    hide FieldAt, Decode;
    if i < k {
      DecodeTurn(schema, apply, s[..k], i, m);
      var (f, j) := FieldAt(schema, s[..k], i).value;
      assert s[..k] + s[k..] == s;
      FieldInPrefix(schema, s[..k], s[k..], i);
      StopIsLast(schema, apply, s, j, apply(m, f).value, k);
    } else {
      StopAdvances(schema, apply, s, i, m);
    }
  }

  lemma {:induction false} StopAdvances<M>(schema: Schema, apply: (M, Field) -> Result<M>, s: bytes, i: nat, m: M)
    ensures i <= StopAt(schema, apply, s, i, m).0
    decreases |s| - i
  {
    if i < |s| && FieldAt(schema, s, i).Ok? {
      hide FieldAt;
      var (f, j) := FieldAt(schema, s, i).value;
      if apply(m, f).Ok? {
        StopAdvances(schema, apply, s, j, apply(m, f).value);
      }
    }
  }

  // The stop ends the longest prefix of s that decodes.
  lemma LongestPrefix<M>(schema: Schema, apply: (M, Field) -> Result<M>, s: bytes, m: M)
    requires |s| < TWO_63
    ensures var (k, p) := StopAt(schema, apply, s, 0, m);
            && k <= |s| && Decode(schema, apply, s[..k], 0, m) == Ok(p)
            && forall k' :: k < k' <= |s| ==> Decode(schema, apply, s[..k'], 0, m).Err?
  {
    hide Decode, StopAt;
    var (k, p) := StopAt(schema, apply, s, 0, m);
    StopDecodes(schema, apply, s, 0, m);
    forall k' | k < k' <= |s| ensures Decode(schema, apply, s[..k'], 0, m).Err? {
      if Decode(schema, apply, s[..k'], 0, m).Ok? {
        StopIsLast(schema, apply, s, 0, m, k');
      }
    }
  }

  // ---- invariants of decoding ----------------------------------------------

  // What every assignment keeps holds of every message that decodes.
  lemma {:induction false} DecodeInvariant<M(!new)>(schema: Schema, apply: (M, Field) -> Result<M>, inv: M -> bool,
                                                   s: bytes, i: nat, m: M)
    requires |s| < TWO_63 && inv(m) && Decode(schema, apply, s, i, m).Ok?
    requires forall m: M, f: Field :: inv(m) && Readable(schema, f) && apply(m, f).Ok? ==> inv(apply(m, f).value)
    ensures inv(Decode(schema, apply, s, i, m).value)
    decreases |s| - i
  {
    if i < |s| {
      hide FieldAt, Readable;
      FieldReadable(schema, s, i);
      var r := FieldAt(schema, s, i).value;
      DecodeInvariant(schema, apply, inv, s, r.1, apply(m, r.0).value);
    }
  }
}
