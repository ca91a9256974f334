// SymbolsTable: string interning, its inversion after further growth of the
// table, and the 32-bit limit of its references.
module Symbols {
  import opened Words

  datatype Pair = Pair(name: bytes, value: bytes)

  // ---- the table as a list of strings --------------------------------------

  ghost predicate Distinct(t: seq<bytes>) {
    forall i, j :: 0 <= i < j < |t| ==> t[i] != t[j]
  }

  // A state that a table can be in: "" in slot 0 and no string twice.
  ghost predicate Table(t: seq<bytes>) {
    |t| > 0 && t[0] == [] && Distinct(t)
  }

  function Intern(t: seq<bytes>, s: bytes): seq<bytes> {
    if s in t then t else t + [s]
  }

  function IndexOf(t: seq<bytes>, s: bytes): (k: nat)
    requires s in t
    ensures k < |t| && t[k] == s
  {
    if t[0] == s then 0 else 1 + IndexOf(t[1..], s)
  }

  lemma InternKeepsTable(t: seq<bytes>, s: bytes)
    requires Table(t)
    ensures Table(Intern(t, s)) && t <= Intern(t, s) && s in Intern(t, s)
  {
  }

  function InternAll(t: seq<bytes>, ls: seq<Pair>): seq<bytes>
    decreases |ls|
  {
    if ls == [] then t else InternAll(Intern(Intern(t, ls[0].name), ls[0].value), ls[1..])
  }

  // The references of a label set against any table that contains its strings.
  function RefsOf(t: seq<bytes>, ls: seq<Pair>): seq<nat>
    requires forall l :: l in ls ==> l.name in t && l.value in t
  {
    if ls == [] then [] else [IndexOf(t, ls[0].name), IndexOf(t, ls[0].value)] + RefsOf(t, ls[1..])
  }

  lemma {:induction false} InternAllGrows(t: seq<bytes>, ls: seq<Pair>)
    requires Table(t)
    ensures Table(InternAll(t, ls)) && t <= InternAll(t, ls)
    ensures forall l :: l in ls ==> l.name in InternAll(t, ls) && l.value in InternAll(t, ls)
    decreases |ls|
  {
    if ls != [] {
      var t1 := Intern(t, ls[0].name);
      var t2 := Intern(t1, ls[0].value);
      InternKeepsTable(t, ls[0].name);
      InternKeepsTable(t1, ls[0].value);
      InternAllGrows(t2, ls[1..]);
      forall l | l in ls
        ensures l.name in InternAll(t, ls) && l.value in InternAll(t, ls)
      {
        if l == ls[0] {
          InPrefix(t2, InternAll(t2, ls[1..]), l.name);
          InPrefix(t2, InternAll(t2, ls[1..]), l.value);
        } else {
          assert l in ls[1..];
        }
      }
    }
  }

  lemma InPrefix(t: seq<bytes>, u: seq<bytes>, s: bytes)
    requires t <= u && s in t
    ensures s in u
  {
    var k :| 0 <= k < |t| && t[k] == s;
    assert u[k] == s;
  }

  // A reference means the same string in every later state of the table.
  lemma RefStable(t: seq<bytes>, u: seq<bytes>, s: bytes)
    requires Distinct(u) && t <= u && s in t
    ensures s in u && IndexOf(u, s) == IndexOf(t, s)
  {
    InPrefix(t, u, s);
    assert u[IndexOf(t, s)] == s;
  }

  lemma {:induction false} RefsStable(t: seq<bytes>, u: seq<bytes>, ls: seq<Pair>)
    requires Distinct(u) && t <= u && forall l :: l in ls ==> l.name in t && l.value in t
    ensures forall l :: l in ls ==> l.name in u && l.value in u
    ensures RefsOf(u, ls) == RefsOf(t, ls)
  {
    forall l | l in ls ensures l.name in u && l.value in u {
      InPrefix(t, u, l.name);
      InPrefix(t, u, l.value);
    }
    if ls != [] {
      RefStable(t, u, ls[0].name);
      RefStable(t, u, ls[0].value);
      RefsStable(t, u, ls[1..]);
    }
  }

  // One label of the list: its two strings are interned one after the other,
  // and keep their references to the end.
  lemma OneLabel(t: seq<bytes>, final: seq<bytes>, ls: seq<Pair>, k: nat)
    requires Table(t) && k < |ls| && InternAll(t, ls[k..]) == final
    requires Table(final) && forall l :: l in ls ==> l.name in final && l.value in final
    ensures var t1 := Intern(t, ls[k].name);
            var t2 := Intern(t1, ls[k].value);
            && Table(t1) && Table(t2) && |t1| <= |t2| <= |final| && t <= t1 && t1 <= t2
            && InternAll(t2, ls[k + 1..]) == final
            && ls[k].name in t1 && IndexOf(t1, ls[k].name) == IndexOf(final, ls[k].name)
            && ls[k].value in t2 && IndexOf(t2, ls[k].value) == IndexOf(final, ls[k].value)
    ensures RefsOf(final, ls[k..]) ==
            [IndexOf(final, ls[k].name), IndexOf(final, ls[k].value)] + RefsOf(final, ls[k + 1..])
  {
    var l := ls[k];
    var t1 := Intern(t, l.name);
    var t2 := Intern(t1, l.value);
    assert ls[k..][1..] == ls[k + 1..];
    InternKeepsTable(t, l.name);
    InternKeepsTable(t1, l.value);
    InternAllGrows(t2, ls[k + 1..]);
    hide Intern, InternAll, IndexOf;
    RefStable(t1, final, l.name);
    RefStable(t2, final, l.value);
  }

  lemma NoLabelsLeft(t: seq<bytes>, final: seq<bytes>, ls: seq<Pair>)
    requires InternAll(t, ls[|ls|..]) == final && forall l :: l in ls ==> l.name in final && l.value in final
    ensures t == final && RefsOf(final, ls[|ls|..]) == []
  {
    assert ls[|ls|..] == [];
  }

  // uint32(k) for each slot k.
  function Low(slots: seq<nat>): (refs: seq<uint32>)
    ensures |refs| == |slots|
  {
    seq(|slots|, k requires 0 <= k < |slots| => U32(slots[k]))
  }

  // The strings of a label set, name before value.
  function Strings(ls: seq<Pair>): seq<bytes> {
    if ls == [] then [] else [ls[0].name, ls[0].value] + Strings(ls[1..])
  }

  // The distinct strings of t and ss, each where it comes first.
  function FirstOccurrences(t: seq<bytes>, ss: seq<bytes>): seq<bytes>
    decreases |ss|
  {
    if ss == [] then t
    else FirstOccurrences(if ss[0] in t then t else t + [ss[0]], ss[1..])
  }

  // A label set is interned name before value, label by label, and its slots
  // come in the same order.
  lemma {:induction false} InternedInOrder(t: seq<bytes>, ls: seq<Pair>)
    ensures InternAll(t, ls) == FirstOccurrences(t, Strings(ls))
    decreases |ls|
  {
    if ls != [] {
      var name, value, rest := ls[0].name, ls[0].value, Strings(ls[1..]);
      InternedInOrder(Intern(Intern(t, name), value), ls[1..]);
      assert Strings(ls) == [name] + ([value] + rest);
      hide Strings, FirstOccurrences;
      FirstOfAll(t, name, [value] + rest);
      FirstOfAll(Intern(t, name), value, rest);
    }
  }

  lemma FirstOfAll(t: seq<bytes>, s: bytes, rest: seq<bytes>)
    ensures FirstOccurrences(t, [s] + rest) == FirstOccurrences(Intern(t, s), rest)
  {
    assert ([s] + rest)[1..] == rest;
  }

  lemma {:induction false} SlotsInOrder(t: seq<bytes>, ls: seq<Pair>, k: nat)
    requires (forall l :: l in ls ==> l.name in t && l.value in t) && k < |ls|
    ensures |RefsOf(t, ls)| == 2 * |ls|
    ensures ls[k].name in t && RefsOf(t, ls)[2 * k] == IndexOf(t, ls[k].name)
    ensures ls[k].value in t && RefsOf(t, ls)[2 * k + 1] == IndexOf(t, ls[k].value)
  {
    hide IndexOf;
    assert ls[k] in ls;
    if |ls| > 1 {
      SlotsInOrder(t, ls[1..], if k > 0 then k - 1 else 0);
    }
  }

  lemma LowNone()
    ensures Low([]) == []
  {
  }

  lemma LowTwo(a: nat, b: nat, rest: seq<nat>)
    ensures Low([a, b] + rest) == [U32(a), U32(b)] + Low(rest)
  {
  }

  // A slot is found from its low 32 bits exactly when it has no more.
  lemma SlotMeans(t: seq<bytes>, k: nat)
    requires Distinct(t) && k < |t|
    ensures U32(k) <= k && IndexOf(t, t[k]) == k
    ensures t[U32(k)] == t[k] <==> k < TWO_32
  {
    var u := U32(k);
    assert u <= k && (u == k <==> k < TWO_32);
    hide U32, IndexOf;
    var j := IndexOf(t, t[k]);
    assert j == k by {
      assert t[j] == t[k];
    }
    if u < k {
      assert t[u] != t[k];
    }
  }

  lemma AppendTwo(was: seq<uint32>, a: uint32, b: uint32, rest: seq<uint32>)
    ensures was + ([a, b] + rest) == was + [a] + [b] + rest
  {
  }

  // ---- the object ----------------------------------------------------------

  class SymbolsTable {
    var strings: seq<bytes>
    var symbolsMap: map<bytes, uint32>

    // strings and symbolsMap are inverse to each other; a reference is the
    // slot cut to 32 bits.
    ghost predicate Valid()
      reads this
    {
      && Table(strings)
      && (forall s :: s in symbolsMap ==> s in strings)
      && (forall k :: 0 <= k < |strings| ==> strings[k] in symbolsMap && symbolsMap[strings[k]] == U32(k))
    }

    // NewSymbolTable
    constructor ()
      ensures Valid() && strings == [[]] && symbolsMap == map[[] := 0]
    {
      symbolsMap := map[[] := 0];
      strings := [[]];
    }

    // A new string gets the next slot; a known one stays where it is. The
    // reference means the string exactly while its slot fits 32 bits.
    method Symbolize(str: bytes) returns (ref: uint32)
      requires Valid()
      modifies this
      ensures Valid() && strings == Intern(old(strings), str)
      ensures ref == U32(IndexOf(strings, str)) < |strings|
      ensures strings[ref] == str <==> IndexOf(strings, str) < TWO_32
    {
      hide IndexOf, U32;
      if str in symbolsMap {
        ref := symbolsMap[str];
        SlotMeans(strings, IndexOf(strings, str));
        return;
      }
      ghost var t := strings;
      assert str !in t;
      ref := U32(|strings|);
      strings := strings + [str];
      symbolsMap := symbolsMap[str := ref];
      InternKeepsTable(t, str);
      assert strings[|t|] == str;
      SlotMeans(strings, |t|);
    }

    // The references of a label set, name and value alternating.
    method SymbolizeLabels(lbls: seq<Pair>) returns (result: seq<uint32>)
      requires Valid()
      modifies this
      ensures Valid() && strings == InternAll(old(strings), lbls)
      ensures forall l :: l in lbls ==> l.name in strings && l.value in strings
      ensures result == Low(RefsOf(strings, lbls))
    {
      hide IndexOf, InternAll, Intern, RefsOf, Low, Distinct, U32;
      result := [];
      InternAllGrows(strings, lbls);
      ghost var final := InternAll(strings, lbls);
      assert lbls[0..] == lbls && [] + Low(RefsOf(final, lbls)) == Low(RefsOf(final, lbls));
      for k := 0 to |lbls|
        invariant Valid() && InternAll(strings, lbls[k..]) == final
        invariant result + Low(RefsOf(final, lbls[k..])) == Low(RefsOf(final, lbls))
      {
        var l := lbls[k];
        ghost var was, rest := result, RefsOf(final, lbls[k + 1..]);
        OneLabel(strings, final, lbls, k);
        LowTwo(IndexOf(final, l.name), IndexOf(final, l.value), rest);
        var off := Symbolize(l.name);
        result := result + [off];
        off := Symbolize(l.value);
        result := result + [off];
        AppendTwo(was, U32(IndexOf(final, l.name)), U32(IndexOf(final, l.value)), Low(rest));
      }
      NoLabelsLeft(strings, final, lbls);
      LowNone();
      assert result + [] == result;
    }

    // Symbols
    method Symbols() returns (s: seq<bytes>)
      ensures s == strings
    {
      s := strings;
    }

    // Reset keeps slot 0 and deletes every other key; the state is that of a
    // new table.
    method Reset()
      requires Valid()
      modifies this
      ensures Valid() && strings == [[]] && symbolsMap == map[[] := 0]
    {
      assert strings[0] in symbolsMap && symbolsMap[strings[0]] == 0;
      strings := strings[..1];
      assert strings == [[]];
      var keys := symbolsMap.Keys;
      while keys != {}
        invariant strings == [[]] && [] in symbolsMap && symbolsMap[[]] == 0
        invariant symbolsMap.Keys <= keys + {[]}
        decreases |keys|
      {
        var k :| k in keys;
        keys := keys - {k};
        if k == [] {
          continue;
        }
        symbolsMap := symbolsMap - {k};
      }
      assert symbolsMap.Keys == {[]};
      assert symbolsMap == map[[] := 0];
    }
  }

  // ---- runs ----------------------------------------------------------------

  datatype Op = Symbolized(s: bytes) | WasReset

  // The table after a sequence of calls on a new one.
  function Run(ops: seq<Op>): seq<bytes> {
    if ops == [] then [[]]
    else
      match ops[|ops| - 1]
      case Symbolized(s) => Intern(Run(ops[..|ops| - 1]), s)
      case WasReset => [[]]
  }

  lemma {:induction false} RunKeepsTable(ops: seq<Op>)
    ensures Table(Run(ops))
  {
    if ops != [] {
      RunKeepsTable(ops[..|ops| - 1]);
      if ops[|ops| - 1].Symbolized? {
        InternKeepsTable(Run(ops[..|ops| - 1]), ops[|ops| - 1].s);
      }
    }
  }

  // Without a Reset in between the table only grows, so a reference issued
  // after ops still means its string after ops + more.
  lemma {:induction false} IssuedRefsStayValid(ops: seq<Op>, more: seq<Op>, s: bytes)
    requires s in Run(ops) && forall op :: op in more ==> op.Symbolized?
    ensures Run(ops) <= Run(ops + more)
    ensures s in Run(ops + more) && IndexOf(Run(ops + more), s) == IndexOf(Run(ops), s)
    decreases |more|
  {
    if more == [] {
      assert ops + more == ops;
    } else {
      var init, last := more[..|more| - 1], more[|more| - 1];
      IssuedRefsStayValid(ops, init, s);
      assert (ops + more)[..|ops + more| - 1] == ops + init;
      assert last in more;
      RunKeepsTable(ops + init);
      InternKeepsTable(Run(ops + init), last.s);
      RefStable(Run(ops + init), Run(ops + more), s);
    }
  }

  // ---- desymbolizing -------------------------------------------------------

  // The pairs that desymbolizeLabels adds to its builder; None is a panic, for
  // a reference out of range or an odd number of them.
  function Lookup(refs: seq<uint32>, symbols: seq<bytes>): Option<seq<Pair>> {
    if refs == [] then Some([])
    else if refs[0] >= |symbols| || |refs| == 1 || refs[1] >= |symbols| then None
    else
      match Lookup(refs[2..], symbols)
      case None => None
      case Some(rest) => Some([Pair(symbols[refs[0]], symbols[refs[1]])] + rest)
  }

  // An even number of references, all in range.
  ghost predicate Paired(refs: seq<uint32>, symbols: seq<bytes>) {
    |refs| % 2 == 0 && forall i :: 0 <= i < |refs| ==> refs[i] < |symbols|
  }

  ghost predicate PairsOf(ls: seq<Pair>, refs: seq<uint32>, symbols: seq<bytes>)
    requires Paired(refs, symbols)
  {
    && 2 * |ls| == |refs|
    && forall k :: 0 <= k < |ls| ==> ls[k] == Pair(symbols[refs[2 * k]], symbols[refs[2 * k + 1]])
  }

  lemma PairedRest(refs: seq<uint32>, symbols: seq<bytes>)
    requires |refs| >= 2
    ensures Paired(refs, symbols) <==> refs[0] < |symbols| && refs[1] < |symbols| && Paired(refs[2..], symbols)
  {
    var rest := refs[2..];
    assert forall i :: 2 <= i < |refs| ==> refs[i] == rest[i - 2];
    if refs[0] < |symbols| && refs[1] < |symbols| && Paired(rest, symbols) {
      forall i | 0 <= i < |refs| ensures refs[i] < |symbols| {
        if i >= 2 {
          assert rest[i - 2] < |symbols|;
        }
      }
    }
    if Paired(refs, symbols) {
      forall i | 0 <= i < |rest| ensures rest[i] < |symbols| {
        assert refs[i + 2] < |symbols|;
      }
    }
  }

  lemma PairsRest(l: Pair, ls: seq<Pair>, refs: seq<uint32>, symbols: seq<bytes>)
    requires |refs| >= 2 && Paired(refs, symbols) && Paired(refs[2..], symbols)
    requires PairsOf(ls, refs[2..], symbols) && l == Pair(symbols[refs[0]], symbols[refs[1]])
    ensures PairsOf([l] + ls, refs, symbols)
  {
    var rest, all := refs[2..], [l] + ls;
    forall k | 0 <= k < |all| ensures all[k] == Pair(symbols[refs[2 * k]], symbols[refs[2 * k + 1]]) {
      if k > 0 {
        assert all[k] == ls[k - 1] && refs[2 * k] == rest[2 * (k - 1)] && refs[2 * k + 1] == rest[2 * (k - 1) + 1];
      }
    }
  }

  // A lookup succeeds exactly for an even number of references that are all in
  // range, and pairs them up in order.
  lemma {:induction false} LookupMeans(refs: seq<uint32>, symbols: seq<bytes>)
    ensures Lookup(refs, symbols).Some? <==> Paired(refs, symbols)
    ensures Paired(refs, symbols) ==> PairsOf(Lookup(refs, symbols).value, refs, symbols)
    decreases |refs|
  {
    if |refs| >= 2 {
      LookupMeans(refs[2..], symbols);
      PairedRest(refs, symbols);
      if Paired(refs, symbols) {
        var l, ls := Pair(symbols[refs[0]], symbols[refs[1]]), Lookup(refs[2..], symbols).value;
        PairsRest(l, ls, refs, symbols);
        hide Paired, PairsOf;
        assert Lookup(refs, symbols) == Some([l] + ls);
      }
    } else if |refs| == 1 {
      assert Lookup(refs, symbols) == None;
    }
  }

  // The order of strings.Compare.
  predicate Less(a: bytes, b: bytes) {
    b != [] && (a == [] || a[0] < b[0] || (a[0] == b[0] && Less(a[1..], b[1..])))
  }

  lemma {:induction false} LessIrreflexive(a: bytes)
    ensures !Less(a, a)
  {
    if a != [] {
      LessIrreflexive(a[1..]);
    }
  }

  // a is a proper prefix of b, or has the smaller byte where they first differ.
  lemma {:induction false} LessMeans(a: bytes, b: bytes, k: nat)
    requires k <= |a| && k <= |b| && a[..k] == b[..k]
    requires k < |a| && k < |b| ==> a[k] != b[k]
    ensures k == |a| ==> (Less(a, b) <==> |a| < |b|)
    ensures k == |b| ==> !Less(a, b)
    ensures k < |a| && k < |b| ==> (Less(a, b) <==> a[k] < b[k])
  {
    if k > 0 {
      assert a[0] == a[..k][0] == b[..k][0] == b[0];
      assert a[1..][..k - 1] == a[..k][1..] == b[..k][1..] == b[1..][..k - 1];
      LessMeans(a[1..], b[1..], k - 1);
    }
  }

  // Sorted by name, without duplicate names.
  ghost predicate NameSorted(ls: seq<Pair>) {
    forall i, j :: 0 <= i < j < |ls| ==> Less(ls[i].name, ls[j].name)
  }

  // Any outcome of ScratchBuilder.Sort: a permutation with no name after a
  // greater one.
  ghost predicate SortOf(sorted: seq<Pair>, ls: seq<Pair>) {
    && multiset(sorted) == multiset(ls)
    && forall i, j :: 0 <= i < j < |sorted| ==> !Less(sorted[j].name, sorted[i].name)
  }

  // The least name comes first in both.
  lemma SortedHead(sorted: seq<Pair>, ls: seq<Pair>)
    requires SortOf(sorted, ls) && NameSorted(ls) && ls != []
    ensures sorted != [] && sorted[0] == ls[0]
  {
    hide Less;
    var x := ls[0];
    assert x in multiset(sorted);
    var i :| 0 <= i < |sorted| && sorted[i] == x;
    var y := sorted[0];
    assert y in multiset(ls);
    var j :| 0 <= j < |ls| && ls[j] == y;
    if j > 0 {
      assert Less(x.name, y.name);
      if i == 0 {
        LessIrreflexive(x.name);
      }
    }
  }

  lemma {:induction false} SortingSortedIsIdentity(sorted: seq<Pair>, ls: seq<Pair>)
    requires SortOf(sorted, ls) && NameSorted(ls)
    ensures sorted == ls
    decreases |ls|
  {
    hide Less;
    if ls == [] {
      assert |sorted| == |multiset(sorted)| == 0;
    } else {
      SortedHead(sorted, ls);
      assert sorted == [ls[0]] + sorted[1..] && ls == [ls[0]] + ls[1..];
      assert multiset(sorted[1..]) == multiset(sorted) - multiset{ls[0]};
      assert multiset(ls[1..]) == multiset(ls) - multiset{ls[0]};
      SortingSortedIsIdentity(sorted[1..], ls[1..]);
    }
  }

  // All strings of the labels are in the first 2^32 slots.
  predicate Referable(t: seq<bytes>, ls: seq<Pair>)
    requires forall l :: l in ls ==> l.name in t && l.value in t
  {
    forall l :: l in ls ==> IndexOf(t, l.name) < TWO_32 && IndexOf(t, l.value) < TWO_32
  }

  lemma ReferableStep(t: seq<bytes>, ls: seq<Pair>)
    requires ls != [] && forall l :: l in ls ==> l.name in t && l.value in t
    ensures Referable(t, ls) <==>
            IndexOf(t, ls[0].name) < TWO_32 && IndexOf(t, ls[0].value) < TWO_32 && Referable(t, ls[1..])
  {
    hide IndexOf;
    assert ls == [ls[0]] + ls[1..];
  }

  lemma LookupStep(a: uint32, b: uint32, rest: seq<uint32>, t: seq<bytes>, l: Pair, ls: seq<Pair>)
    requires a < |t| && b < |t|
    ensures Lookup([a, b] + rest, t) == Some([l] + ls) <==> Pair(t[a], t[b]) == l && Lookup(rest, t) == Some(ls)
  {
    var refs, head := [a, b] + rest, Pair(t[a], t[b]);
    assert refs[2..] == rest;
    if Lookup(rest, t).Some? {
      var x := Lookup(rest, t).value;
      assert Lookup(refs, t) == Some([head] + x);
      assert ([head] + x)[0] == head && ([head] + x)[1..] == x;
      assert ([l] + ls)[0] == l && ([l] + ls)[1..] == ls;
    }
  }

  // References lead back to the labels exactly when every slot fits 32 bits.
  lemma {:induction false} LookupInverts(t: seq<bytes>, ls: seq<Pair>)
    requires Distinct(t) && forall l :: l in ls ==> l.name in t && l.value in t
    ensures Lookup(Low(RefsOf(t, ls)), t) == Some(ls) <==> Referable(t, ls)
  {
    if ls == [] {
      LowNone();
    } else {
      var l, rest := ls[0], RefsOf(t, ls[1..]);
      var a, b := IndexOf(t, l.name), IndexOf(t, l.value);
      LookupInverts(t, ls[1..]);
      assert RefsOf(t, ls) == [a, b] + rest;
      ReferableStep(t, ls);
      hide RefsOf, Low, Lookup, Referable, IndexOf, Distinct, U32;
      LowTwo(a, b, rest);
      SlotMeans(t, a);
      SlotMeans(t, b);
      LookupStep(U32(a), U32(b), Low(rest), t, l, ls[1..]);
      assert ls == [l] + ls[1..];
    }
  }

  // desymbolizeLabels up to the final sort; ok is false where Go panics.
  method Desymbolize(labelRefs: seq<uint32>, symbols: seq<bytes>) returns (ok: bool, added: seq<Pair>)
    ensures ok == Lookup(labelRefs, symbols).Some?
    ensures ok ==> added == Lookup(labelRefs, symbols).value
  {
    added := [];
    var i := 0;
    assert labelRefs[0..] == labelRefs;
    assert Lookup(labelRefs, symbols).Some? ==> [] + Lookup(labelRefs, symbols).value == Lookup(labelRefs, symbols).value;
    while i < |labelRefs|
      invariant 0 <= i <= |labelRefs|
      invariant Lookup(labelRefs, symbols) ==
                match Lookup(labelRefs[i..], symbols) case None => None case Some(rest) => Some(added + rest)
    {
      ghost var rest := labelRefs[i..];
      if labelRefs[i] >= |symbols| || i + 1 >= |labelRefs| || labelRefs[i + 1] >= |symbols| {
        return false, added;
      }
      assert rest[2..] == labelRefs[i + 2..];
      var l := Pair(symbols[labelRefs[i]], symbols[labelRefs[i + 1]]);
      ghost var tail := Lookup(rest[2..], symbols);
      assert tail.Some? ==> added + ([l] + tail.value) == added + [l] + tail.value;
      added := added + [l];
      i := i + 2;
    }
    assert labelRefs[i..] == [];
    assert added + [] == added;
    return true, added;
  }
}
