// A message on the wire as a list of pieces, one for each of its fields, and
// what decoding, sizing and concatenation make of such a list.
module Pieces {
  import opened Words
  import opened Fields
  import opened Decoding

  function Flatten(ps: seq<seq<Field>>): seq<Field> {
    if ps == [] then [] else ps[0] + Flatten(ps[1..])
  }

  function EncodePieces(ps: seq<seq<Field>>, u: bytes): bytes { EncodeFields(Flatten(ps)) + u }

  predicate PiecesFit(schema: Schema, ps: seq<seq<Field>>) {
    forall k :: 0 <= k < |ps| ==> PieceFits(schema, ps[k])
  }

  predicate PieceFits(schema: Schema, p: seq<Field>) {
    forall f :: f in p ==> Fits(schema, f)
  }

  lemma {:induction false} FlattenFits(schema: Schema, ps: seq<seq<Field>>)
    requires PiecesFit(schema, ps)
    ensures PieceFits(schema, Flatten(ps))
  {
    if ps != [] {
      hide Fits;
      FlattenFits(schema, ps[1..]);
      assert PieceFits(schema, ps[0]);
    }
  }

  lemma FlattenFrom(ps: seq<seq<Field>>, k: nat)
    requires k < |ps|
    ensures Flatten(ps[k..]) == ps[k] + Flatten(ps[k + 1..])
  {
    assert ps[k..][1..] == ps[k + 1..];
  }

  // ms[k] is the message after the first k pieces.
  ghost predicate Stages<M>(apply: (M, Field) -> Result<M>, ps: seq<seq<Field>>, ms: seq<M>) {
    |ms| == |ps| + 1 && forall k :: 0 <= k < |ps| ==> Fold(apply, ms[k], ps[k]) == Ok(ms[k + 1])
  }

  lemma {:induction false} FoldStages<M>(apply: (M, Field) -> Result<M>, ps: seq<seq<Field>>, ms: seq<M>)
    requires Stages(apply, ps, ms)
    ensures Fold(apply, ms[0], Flatten(ps)) == Ok(ms[|ps|])
    decreases |ps|
  {
    if ps != [] {
      hide Fold;
      assert Stages(apply, ps[1..], ms[1..]) by {
        forall k | 0 <= k < |ps[1..]|
          ensures Fold(apply, ms[1..][k], ps[1..][k]) == Ok(ms[1..][k + 1])
        {
          assert Fold(apply, ms[k + 1], ps[k + 1]) == Ok(ms[k + 2]);
        }
      }
      FoldStages(apply, ps[1..], ms[1..]);
      FoldConcat(apply, ms[0], ps[0], Flatten(ps[1..]));
    } else {
      assert Flatten(ps) == [];
    }
  }

  // Decoding what a marshaller wrote runs through the stages and then keeps
  // the unknown bytes.
  lemma DecodePieces<M(!new)>(schema: Schema, apply: (M, Field) -> Result<M>, keep: (M, bytes) -> M,
                              ps: seq<seq<Field>>, u: bytes, ms: seq<M>)
    requires |EncodePieces(ps, u)| < TWO_63
    requires PiecesFit(schema, ps) && Stages(apply, ps, ms)
    requires UnknownBytes(schema, u) && Keeps(apply, keep)
    ensures Decode(schema, apply, EncodePieces(ps, u), 0, ms[0]) == Ok(keep(ms[|ps|], u))
  {
    hide Fits, UnknownBytes, Keeps;
    FlattenFits(schema, ps);
    FoldStages(apply, ps, ms);
    DecodeEncoded(schema, apply, keep, Flatten(ps), u, ms[0]);
  }

  // ---- sizes ---------------------------------------------------------------

  // The bytes of the first k pieces.
  function SizeUpTo(ps: seq<seq<Field>>, k: nat): nat
    requires k <= |ps|
  {
    if k == 0 then 0 else SizeUpTo(ps, k - 1) + |EncodeFields(ps[k - 1])|
  }

  lemma {:induction false} SizeIsSum(ps: seq<seq<Field>>, k: nat)
    requires k <= |ps|
    ensures SizeUpTo(ps, k) + |EncodeFields(Flatten(ps[k..]))| == |EncodeFields(Flatten(ps))|
  {
    if k == 0 {
      assert ps[0..] == ps;
    } else {
      SizeIsSum(ps, k - 1);
      FlattenFrom(ps, k - 1);
      EncodeConcat(ps[k - 1], Flatten(ps[k..]));
    }
  }

  lemma SizeOfPieces(ps: seq<seq<Field>>, u: bytes)
    ensures |EncodePieces(ps, u)| == SizeUpTo(ps, |ps|) + |u|
  {
    SizeIsSum(ps, |ps|);
    assert Flatten(ps[|ps|..]) == [];
  }

  lemma PieceSize(ps: seq<seq<Field>>, u: bytes, k: nat)
    requires k < |ps|
    ensures |EncodeFields(ps[k])| + |EncodeFields(Flatten(ps[k + 1..]))| + |u| <= |EncodePieces(ps, u)|
  {
    SizeIsSum(ps, k);
    FlattenFrom(ps, k);
    EncodeConcat(ps[k], Flatten(ps[k + 1..]));
  }
}
