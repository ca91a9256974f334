// The Request object: Unmarshal merges into its fields in place, and the
// marshallers read them.
module RequestObject {
  import opened Words
  import opened Skipping
  import opened Fields
  import opened Decoding
  import opened Messages
  import opened RoundTrip
  import opened Sizing
  import opened Marshalling
  import opened Optimised
  import opened Unmarshalling

  // What an error leaves of a message: the contents before the field in error,
  // and one more series, decoded in part, if it is the contents of a whole field
  // that are in error.
  predicate LeftBy(before: Request, after: Request, partial: bool) {
    && after.symbols == before.symbols
    && after.unrecognized == before.unrecognized
    && before.timeseries <= after.timeseries
    && |after.timeseries| == |before.timeseries| + if partial then 1 else 0
  }

  class RequestMessage {
    var symbols: seq<bytes>
    var timeseries: seq<TimeSeries>
    var unrecognized: bytes

    function View(): Request
      reads this
    {
      Request(symbols, timeseries, unrecognized)
    }

    constructor ()
      ensures View() == NO_REQUEST
    {
      symbols, timeseries, unrecognized := [], [], [];
    }

    method Reset()
      modifies this
      ensures View() == NO_REQUEST
    {
      symbols, timeseries, unrecognized := [], [], [];
    }

    // One turn of the loop: a field is appended to, or an error is returned.
    // A series is appended before it is decoded, so an error may leave one
    // that is not complete.
    method Turn(s: bytes, iNdEx: nat) returns (r: Result<nat>)
      requires iNdEx < |s|
      modifies this
      ensures match Unmarshalling.Turn(RequestSchema, ApplyRequest, s, iNdEx, old(View()))
              case Err(e) => r == Err(e) && LeftBy(old(View()), View(), FieldAt(RequestSchema, s, iNdEx).Ok?)
              case Ok((m, j)) => r == Ok(j) && View() == m
    {
      hide TagAt, SpanAt, SkipFrom, DecodeTimeSeries;
      var tag :- ReadTag(s, iNdEx);
      match tag.num {
        case 4 =>
          if tag.wireType != 2 {
            return Err(WrongWireType);
          }
          var p :- ReadSpan(s, tag.next);
          symbols := symbols + [s[p.0..p.1]];
          return Ok(p.1);
        case 5 =>
          if tag.wireType != 2 {
            return Err(WrongWireType);
          }
          var p :- ReadSpan(s, tag.next);
          ghost var was := timeseries;
          timeseries := timeseries + [NO_TIME_SERIES];
          var last := |timeseries| - 1;
          var x :- UnmarshalTimeSeries(s[p.0..p.1], timeseries[last]);
          timeseries := timeseries[last := x];
          assert timeseries == was + [x];
          return Ok(p.1);
        case _ =>
          var u :- ReadUnknown(s, iNdEx);
          unrecognized := unrecognized + u.0;
          return Ok(u.1);
      }
    }

    // Unmarshal into whatever the message holds already. After an error it holds
    // what the longest prefix of the input that decodes has brought.
    method Unmarshal(dAtA: bytes) returns (r: Result<()>)
      modifies this
      ensures match DecodeRequest(dAtA, old(View()))
              case Err(e) =>
                && r == Err(e)
                && var (k, m) := StopAt(RequestSchema, ApplyRequest, dAtA, 0, old(View()));
                   LeftBy(m, View(), FieldAt(RequestSchema, dAtA, k).Ok?)
              case Ok(m) => r == Ok(()) && View() == m
    {
      hide Decode, FieldAt, ApplyRequest;
      var iNdEx: nat := 0;
      while iNdEx < |dAtA|
        invariant Decode(RequestSchema, ApplyRequest, dAtA, 0, old(View())) ==
                  Decode(RequestSchema, ApplyRequest, dAtA, iNdEx, View())
        invariant StopAt(RequestSchema, ApplyRequest, dAtA, 0, old(View())) ==
                  StopAt(RequestSchema, ApplyRequest, dAtA, iNdEx, View())
        decreases |dAtA| - iNdEx
      {
        TurnAdvances(RequestSchema, ApplyRequest, dAtA, iNdEx, View());
        iNdEx :- Turn(dAtA, iNdEx);
      }
      DecodeEnd(RequestSchema, ApplyRequest, dAtA, iNdEx, View());
      return Ok(());
    }

    method Size() returns (n: nat)
      ensures n == |EncodeRequest(View())|
    {
      n := SizeRequest(View());
    }

    method Marshal() returns (dAtA: array<byte>)
      ensures fresh(dAtA) && dAtA[..] == EncodeRequest(View())
    {
      dAtA := Marshalling.Marshal(View());
    }

    method OptimizedMarshal() returns (buf: array<byte>, n: nat)
      ensures fresh(buf) && n <= buf.Length
      ensures buf[..n] == FastOutput(Zeros(|EncodeRequest(View())|), View())
    {
      hide EncodeRequest;
      var none := new byte[0];
      buf, n := Optimised.OptimizedMarshal(View(), none);
      assert |EncodeRequest(View())| == 0 ==> none[..] == Zeros(0);
    }
  }

  // Marshal, then Unmarshal into a second object: the first one's contents up
  // to singular -0.0, through the real buffer.
  method Transfer(from: RequestMessage, to: RequestMessage) returns (r: Result<()>)
    requires from != to && RequestOk(from.View()) && |EncodeRequest(from.View())| < TWO_63
    modifies to
    ensures r == Ok(()) && to.View() == NormRequest(old(from.View()))
  {
    hide RequestOk, EncodeRequest, DecodeRequest, NormRequest;
    to.Reset();
    var dAtA := from.Marshal();
    RequestRoundTrip(from.View());
    r := to.Unmarshal(dAtA[..]);
  }
}
