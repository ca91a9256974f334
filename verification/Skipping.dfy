// skipTypes: the extent of one field that the message type does not know,
// which may be a group of further fields.
module Skipping {
  import opened Words
  import opened Varints

  // An index sum in Go's int; a sum past 2^63-1 wraps to a negative number.
  function Advance(i: nat, n: nat): Result<nat> {
    if i + n >= TWO_63 then Err(InvalidLength) else Ok(i + n)
  }

  // A length prefix at s[i]: int(length) and the index after it.
  function LengthAt(s: bytes, i: nat): (r: Result<(nat, nat)>)
    ensures r.Ok? ==> i < r.value.1 <= |s| && r.value.0 < TWO_63
  {
    var r :- IntAt(s, i);
    if r.0 >= TWO_63 then Err(InvalidLength) else Ok(r)
  }

  datatype Token = Scalar(next: nat) | Open(next: nat) | Close(next: nat)

  // What follows a tag of this wire type. The index may run past the end of s.
  function TokenBody(s: bytes, wireType: nat, j: nat): (r: Result<Token>)
    ensures r.Ok? ==> j <= r.value.next
  {
    match wireType
    case 0 =>
      var v :- IntAt(s, j);
      Ok(Scalar(v.1))
    case 1 =>
      var n :- Advance(j, 8);
      Ok(Scalar(n))
    case 2 =>
      var l :- LengthAt(s, j);
      var n :- Advance(l.1, l.0);
      Ok(Scalar(n))
    case 3 => Ok(Open(j))
    case 4 => Ok(Close(j))
    case 5 =>
      var n :- Advance(j, 4);
      Ok(Scalar(n))
    case _ => Err(IllegalWireType)
  }

  // One turn of the skip loop: a tag and, unless it opens or closes a group,
  // its payload.
  function TokenAt(s: bytes, i: nat): (r: Result<Token>)
    ensures r.Ok? ==> i < r.value.next
  {
    var tag :- IntAt(s, i);
    TokenBody(s, tag.0 % 8, tag.1)
  }

  // The loop from index i inside depth open groups.
  function SkipFrom(s: bytes, i: nat, depth: nat): (r: Result<nat>)
    ensures r.Ok? ==> i < r.value
    decreases |s| - i
  {
    if i >= |s| then Err(UnexpectedEOF)
    else
      var t :- TokenAt(s, i);
      match t
      case Scalar(n) => if depth == 0 then Ok(n) else SkipFrom(s, n, depth)
      case Open(n) => SkipFrom(s, n, depth + 1)
      case Close(n) =>
        if depth == 0 then Err(UnexpectedEndOfGroup)
        else if depth == 1 then Ok(n)
        else SkipFrom(s, n, depth - 1)
  }

  // ---- the depth counter is recursive descent ------------------------------

  // The fields inside one group, read by recursion: the index after the
  // end-group tag that matches.
  function Group(s: bytes, i: nat): (r: Result<nat>)
    ensures r.Ok? ==> i < r.value
    decreases |s| - i
  {
    if i >= |s| then Err(UnexpectedEOF)
    else
      var t :- TokenAt(s, i);
      match t
      case Scalar(n) => Group(s, n)
      case Open(n) => var j :- Group(s, n); Group(s, j)
      case Close(n) => Ok(n)
  }

  // Counting depth finds the same end, or the same error, as nesting does:
  // after the innermost group ends, the loop is left with depth-1 open groups.
  lemma {:induction false} DepthCountIsNesting(s: bytes, i: nat, depth: nat)
    ensures SkipFrom(s, i, depth + 1) ==
            match Group(s, i)
            case Err(e) => Err(e)
            case Ok(j) => if depth == 0 then Ok(j) else SkipFrom(s, j, depth)
    decreases |s| - i
  {
    if i < |s| && TokenAt(s, i).Ok? {
      match TokenAt(s, i).value
      case Scalar(n) => DepthCountIsNesting(s, n, depth);
      case Open(n) =>
        DepthCountIsNesting(s, n, depth + 1);
        if Group(s, n).Ok? {
          DepthCountIsNesting(s, Group(s, n).value, depth);
        }
      case Close(n) =>
    }
  }

  // The end of one field by recursive descent: of a scalar, or of a group with
  // every group inside it closed.
  function Balanced(s: bytes, i: nat): Result<nat> {
    if i >= |s| then Err(UnexpectedEOF)
    else
      match TokenAt(s, i)
      case Err(e) => Err(e)
      case Ok(Scalar(n)) => Ok(n)
      case Ok(Open(n)) => Group(s, n)
      case Ok(Close(_)) => Err(UnexpectedEndOfGroup)
  }

  // The loop skips one such field, or fails as the descent does.
  lemma SkippedFieldIsBalanced(s: bytes, i: nat)
    ensures SkipFrom(s, i, 0) == Balanced(s, i)
  {
    if i < |s| && TokenAt(s, i).Ok? && TokenAt(s, i).value.Open? {
      DepthCountIsNesting(s, TokenAt(s, i).value.next, 0);
    }
  }

  // ---- position independence -----------------------------------------------

  lemma LengthTransport(s: bytes, i: nat, t: bytes, d: int)
    requires LengthAt(s, i).Ok? && Window(s, i, LengthAt(s, i).value.1, t, d)
    ensures LengthAt(t, i + d) == Ok((LengthAt(s, i).value.0, LengthAt(s, i).value.1 + d))
  {
    hide IntAt;
    IntTransport(s, i, t, d);
  }

  function Shifted(t: Token, d: int): Token
    requires t.next + d >= 0
  {
    match t
    case Scalar(n) => Scalar(n + d)
    case Open(n) => Open(n + d)
    case Close(n) => Close(n + d)
  }

  lemma TokenBodyTransport(s: bytes, wireType: nat, j: nat, t: bytes, d: int)
    requires |t| < TWO_63 && TokenBody(s, wireType, j).Ok?
    requires Window(s, j, TokenBody(s, wireType, j).value.next, t, d)
    ensures TokenBody(t, wireType, j + d) == Ok(Shifted(TokenBody(s, wireType, j).value, d))
  {
    hide IntAt, LengthAt;
    match wireType
    case 0 => IntTransport(s, j, t, d);
    case 2 => LengthTransport(s, j, t, d);
    case _ =>
  }

  lemma TokenTransport(s: bytes, i: nat, t: bytes, d: int)
    requires |t| < TWO_63 && TokenAt(s, i).Ok?
    requires Window(s, i, TokenAt(s, i).value.next, t, d)
    ensures TokenAt(t, i + d) == Ok(Shifted(TokenAt(s, i).value, d))
  {
    hide IntAt, TokenBody;
    IntTransport(s, i, t, d);
    var tag := IntAt(s, i).value;
    TokenBodyTransport(s, tag.0 % 8, tag.1, t, d);
  }

  lemma {:induction false} SkipTransport(s: bytes, i: nat, depth: nat, t: bytes, d: int)
    requires |t| < TWO_63 && SkipFrom(s, i, depth).Ok?
    requires Window(s, i, SkipFrom(s, i, depth).value, t, d)
    ensures SkipFrom(t, i + d, depth) == Ok(SkipFrom(s, i, depth).value + d)
    decreases |s| - i
  {
    hide TokenAt;
    TokenTransport(s, i, t, d);
    match TokenAt(s, i).value
    case Scalar(n) => if depth > 0 { SkipTransport(s, n, depth, t, d); }
    case Open(n) => SkipTransport(s, n, depth + 1, t, d);
    case Close(n) => if depth > 1 { SkipTransport(s, n, depth - 1, t, d); }
  }

  // ---- the loop ------------------------------------------------------------

  // A varint whose value is not wanted.
  method PassVarint(s: bytes, start: nat) returns (r: Result<nat>)
    ensures r == match IntAt(s, start) case Err(e) => Err(e) case Ok((_, j)) => Ok(j)
  {
    var iNdEx: nat, shift := start, 0;
    ghost var k: nat := 0;
    while true
      invariant shift == 7 * k && k <= 10
      invariant VarintAt(s, start, 0).Ok? == VarintAt(s, iNdEx, k).Ok?
      invariant VarintAt(s, start, 0).Ok? ==> VarintAt(s, start, 0).value.1 == VarintAt(s, iNdEx, k).value.1
      invariant VarintAt(s, start, 0).Err? ==> VarintAt(s, start, 0) == VarintAt(s, iNdEx, k)
      decreases 10 - k
    {
      if shift >= 64 {
        return Err(IntOverflow);
      }
      if iNdEx >= |s| {
        return Err(UnexpectedEOF);
      }
      iNdEx := iNdEx + 1;
      if s[iNdEx - 1] < 0x80 {
        return Ok(iNdEx);
      }
      shift := shift + 7;
      k := k + 1;
    }
  }

  method ReadLength(s: bytes, start: nat) returns (r: Result<(nat, nat)>)
    ensures r == LengthAt(s, start)
  {
    hide VarintAt;
    var l :- ReadVarint(s, start, true);
    if I64(l.0) < 0 {
      return Err(InvalidLength);
    }
    return Ok(l);
  }

  // The tag and payload of one turn of the loop.
  method ReadToken(s: bytes, start: nat) returns (r: Result<Token>)
    ensures r == TokenAt(s, start)
  {
    hide VarintAt, LengthAt;
    var wire :- ReadVarint(s, start, true);
    var next := wire.1;
    var wireType := wire.0 % 8;
    if wireType == 0 {
      next :- PassVarint(s, next);
    } else if wireType == 1 {
      next :- Advance(next, 8);
    } else if wireType == 2 {
      var l :- ReadLength(s, next);
      next :- Advance(l.1, l.0);
    } else if wireType == 3 {
      return Ok(Open(next));
    } else if wireType == 4 {
      return Ok(Close(next));
    } else if wireType == 5 {
      next :- Advance(next, 4);
    } else {
      return Err(IllegalWireType);
    }
    return Ok(Scalar(next));
  }

  // skipTypes
  method Skip(dAtA: bytes) returns (r: Result<nat>)
    ensures r == SkipFrom(dAtA, 0, 0)
    ensures r.Ok? ==> r.value > 0
  {
    hide TokenAt;
    var iNdEx: nat, depth: nat := 0, 0;
    while iNdEx < |dAtA|
      invariant SkipFrom(dAtA, 0, 0) == SkipFrom(dAtA, iNdEx, depth)
      invariant iNdEx > 0 ==> depth > 0
      decreases |dAtA| - iNdEx
    {
      var token :- ReadToken(dAtA, iNdEx);
      match token {
        case Scalar(_) =>
        case Open(_) =>
          depth := depth + 1;
        case Close(_) =>
          if depth == 0 {
            return Err(UnexpectedEndOfGroup);
          }
          depth := depth - 1;
      }
      iNdEx := token.next;
      if depth == 0 {
        return Ok(iNdEx);
      }
    }
    return Err(UnexpectedEOF);
  }
}
