// Fields 4 and 5 are the only ones that Request shares with nothing in
// Remote-Write 1.0: a 1.0 request decodes to no symbols and no series.
module Interop {
  import opened Words
  import opened Fields
  import opened Decoding
  import opened Pieces
  import opened Messages
  import opened Merging
  import opened Records
  import opened RoundTrip

  function NothingKnown(num: int): Layout { Unknown }

  // The field numbers at the top level of s[i..], read without any schema.
  function TopLevel(s: bytes, i: nat): set<nat>
    decreases |s| - i
  {
    if i >= |s| || TagAt(s, i).Err? then {}
    else
      {TagAt(s, i).value.num} +
      match FieldAt(NothingKnown, s, i)
      case Err(_) => {}
      case Ok((_, j)) => TopLevel(s, j)
  }

  predicate WithoutV2Fields(nums: set<nat>) { 4 !in nums && 5 !in nums }

  lemma {:induction false} ReservedRun(s: bytes, i: nat, m: Request)
    requires i <= |s| && Decode(RequestSchema, ApplyRequest, s, i, m).Ok?
    ensures var r := Decode(RequestSchema, ApplyRequest, s, i, m).value;
            if WithoutV2Fields(TopLevel(s, i)) then r == KeepRequest(m, s[i..])
            else |r.symbols| + |r.timeseries| > |m.symbols| + |m.timeseries|
    decreases |s| - i
  {
    if i == |s| {
      assert m.unrecognized + s[i..] == m.unrecognized;
    } else {
      hide Decode, TagAt, FieldAt, ApplyRequest, KeepRequest;
      DecodeTurn(RequestSchema, ApplyRequest, s, i, m);
      var (f, j) := FieldAt(RequestSchema, s, i).value;
      HasTag(s, i);
      if TagAt(s, i).value.num in {4, 5} {
        AddsOne(s, i, m);
        NeverShrinks(s, j, ApplyRequest(m, f).value);
      } else {
        UnknownTurn(s, i, m);
        ReservedRun(s, j, ApplyRequest(m, f).value);
        KeepTwice(m, s, i, j);
      }
    }
  }

  lemma HasTag(s: bytes, i: nat)
    requires FieldAt(RequestSchema, s, i).Ok?
    ensures TagAt(s, i).Ok?
  {
    hide TagAt;
  }

  lemma KeepTwice(m: Request, s: bytes, i: nat, j: nat)
    requires i <= j <= |s|
    ensures KeepRequest(KeepRequest(m, s[i..j]), s[j..]) == KeepRequest(m, s[i..])
    ensures KeepRequest(m, s[i..j]).symbols == m.symbols && KeepRequest(m, s[i..j]).timeseries == m.timeseries
  {
    assert s[i..] == s[i..j] + s[j..];
    assert m.unrecognized + s[i..j] + s[j..] == m.unrecognized + (s[i..j] + s[j..]);
  }

  lemma UnknownTurn(s: bytes, i: nat, m: Request)
    requires FieldAt(RequestSchema, s, i).Ok? && TagAt(s, i).value.num != 4 && TagAt(s, i).value.num != 5
    ensures FieldAt(RequestSchema, s, i) == FieldAt(NothingKnown, s, i)
    ensures var (f, j) := FieldAt(RequestSchema, s, i).value; ApplyRequest(m, f) == Ok(KeepRequest(m, s[i..j]))
  {
    hide TagAt, Skipping.SkipFrom;
  }

  lemma AddsOne(s: bytes, i: nat, m: Request)
    requires FieldAt(RequestSchema, s, i).Ok? && TagAt(s, i).value.num in {4, 5}
    requires ApplyRequest(m, FieldAt(RequestSchema, s, i).value.0).Ok?
    ensures var r := ApplyRequest(m, FieldAt(RequestSchema, s, i).value.0).value;
            |r.symbols| + |r.timeseries| > |m.symbols| + |m.timeseries|
  {
    hide TagAt, SpanAt, DecodeTimeSeries;
  }

  lemma NeverShrinks(s: bytes, i: nat, m: Request)
    requires Decode(RequestSchema, ApplyRequest, s, i, m).Ok?
    ensures var r := Decode(RequestSchema, ApplyRequest, s, i, m).value;
            |r.symbols| + |r.timeseries| >= |m.symbols| + |m.timeseries|
  {
    assert Append(m, NO_REQUEST) == m;
    hide Decode;
    DecodeOnto(s, i, m, NO_REQUEST);
  }

  // An accepted input yields no symbols and no series exactly when it has no
  // top-level field 4 or 5; it is then kept whole, and marshalled back.
  lemma ReservedFieldsInterop(s: bytes)
    requires DecodeRequest(s, NO_REQUEST).Ok?
    ensures var m := DecodeRequest(s, NO_REQUEST).value;
            (m.symbols == [] && m.timeseries == []) == WithoutV2Fields(TopLevel(s, 0))
    ensures WithoutV2Fields(TopLevel(s, 0)) ==>
              DecodeRequest(s, NO_REQUEST) == Ok(Request([], [], s)) && EncodeRequest(Request([], [], s)) == s
  {
    hide Decode, TopLevel;
    ReservedRun(s, 0, NO_REQUEST);
    assert s[0..] == s && [] + s == s;
    var m := Request([], [], s);
    var none: seq<seq<Field>> := [[], []];
    assert RequestPieces(m) == none by {
      assert Map(EncodeTimeSeries, []) == [];
    }
    assert none[1..][1..] == [];
    assert Flatten(none) == Flatten(none[1..]) == [];
  }

  // ---- requests as they are written ----------------------------------------

  predicate Numbered(rs: seq<Record>) { forall r :: r in rs ==> 0 < r.num < TWO_31 }

  function RecordNumbers(rs: seq<Record>): set<nat> { set r | r in rs :: r.num }

  lemma {:induction false} TopLevelOfRecords(pre: bytes, rs: seq<Record>)
    requires Numbered(rs) && |pre + RecordsBytes(rs)| < TWO_63
    ensures TopLevel(pre + RecordsBytes(rs), |pre|) == RecordNumbers(rs)
    decreases |rs|
  {
    if rs != [] {
      hide RecordBytes, TagAt, FieldAt;
      var r, rest := rs[0], RecordsBytes(rs[1..]);
      var pre' := pre + RecordBytes(r);
      assert r in rs;
      assert pre + RecordsBytes(rs) == pre + RecordBytes(r) + rest == pre' + rest;
      ForeignFieldAt(NothingKnown, pre, r, rest);
      TopLevelOfRecords(pre', rs[1..]);
      assert rs == [r] + rs[1..];
      assert RecordNumbers(rs) == {r.num} + RecordNumbers(rs[1..]);
    }
  }

  // A request of any fields but 4 and 5, as every 1.0 request is, of any wire
  // type and with groups, is accepted, kept whole, and marshalled back.
  lemma WrittenWithoutV2Fields(rs: seq<Record>)
    requires Numbered(rs) && |RecordsBytes(rs)| < TWO_63
    requires forall r :: r in rs ==> r.num != 4 && r.num != 5
    ensures var s := RecordsBytes(rs);
            && DecodeRequest(s, NO_REQUEST) == Ok(Request([], [], s))
            && EncodeRequest(Request([], [], s)) == s
  {
    hide Decode, RecordBytes, RecordsBytes;
    var s := RecordsBytes(rs);
    AppendLaws();
    assert [] + s == s;
    ForeignRecordsAreKept(RequestSchema, ApplyRequest, KeepRequest, rs, NO_REQUEST);
    TopLevelOfRecords([], rs);
    ReservedFieldsInterop(s);
  }

  // Any written request that is accepted gives no symbols and no series exactly
  // when none of its fields is numbered 4 or 5.
  lemma WrittenInterop(rs: seq<Record>)
    requires Numbered(rs) && |RecordsBytes(rs)| < TWO_63 && DecodeRequest(RecordsBytes(rs), NO_REQUEST).Ok?
    ensures var m := DecodeRequest(RecordsBytes(rs), NO_REQUEST).value;
            (m.symbols == [] && m.timeseries == []) <==> forall r :: r in rs ==> r.num != 4 && r.num != 5
  {
    hide Decode, RecordBytes, RecordsBytes;
    var s := RecordsBytes(rs);
    assert [] + s == s;
    TopLevelOfRecords([], rs);
    ReservedFieldsInterop(s);
    if forall r :: r in rs ==> r.num != 4 && r.num != 5 {
    } else {
      var r :| r in rs && (r.num == 4 || r.num == 5);
      assert r.num in RecordNumbers(rs);
    }
  }
}
