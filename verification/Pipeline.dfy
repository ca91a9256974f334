// From label sets to the wire and back: every series' references, sent through
// either marshaller, still name its original labels.
module Pipeline {
  import opened Words
  import opened Fields
  import opened Decoding
  import opened Pieces
  import opened Messages
  import opened RoundTrip
  import opened Optimised
  import opened Symbols

  // The label sets of a batch, symbolized one after the other into one table.
  function InternSets(t: seq<bytes>, sets: seq<seq<Pair>>): seq<bytes>
    decreases |sets|
  {
    if sets == [] then t else InternSets(InternAll(t, sets[0]), sets[1..])
  }

  // The references that SymbolizeLabels returns for each set, in the state
  // that the table has at that moment.
  function SetRefs(t: seq<bytes>, sets: seq<seq<Pair>>): seq<seq<nat>>
    requires Table(t)
    decreases |sets|
  {
    if sets == [] then []
    else
      InternAllGrows(t, sets[0]);
      var t1 := InternAll(t, sets[0]);
      [RefsOf(t1, sets[0])] + SetRefs(t1, sets[1..])
  }

  lemma {:induction false} SetsGrow(t: seq<bytes>, sets: seq<seq<Pair>>)
    requires Table(t)
    ensures Table(InternSets(t, sets)) && t <= InternSets(t, sets)
    ensures |SetRefs(t, sets)| == |sets|
    decreases |sets|
  {
    if sets != [] {
      InternAllGrows(t, sets[0]);
      SetsGrow(InternAll(t, sets[0]), sets[1..]);
    }
  }

  // In the final table all strings of the k-th set keep their slots.
  lemma {:induction false} SetSlotsStay(t: seq<bytes>, sets: seq<seq<Pair>>, k: nat)
    requires Table(t) && k < |sets|
    ensures |SetRefs(t, sets)| == |sets|
    ensures forall l :: l in sets[k] ==> l.name in InternSets(t, sets) && l.value in InternSets(t, sets)
    ensures SetRefs(t, sets)[k] == RefsOf(InternSets(t, sets), sets[k])
    decreases |sets|
  {
    InternAllGrows(t, sets[0]);
    var t1, final := InternAll(t, sets[0]), InternSets(t, sets);
    SetsGrow(t1, sets[1..]);
    hide RefsOf, InternAll;
    if k == 0 {
      RefsStable(t1, final, sets[0]);
    } else {
      SetSlotsStay(t1, sets[1..], k - 1);
    }
  }

  // A request built from the sets: the final table, and for each set a series
  // with its references and anything else.
  ghost predicate Built(m: Request, sets: seq<seq<Pair>>) {
    && Table([[]])
    && m.symbols == InternSets([[]], sets)
    && |m.timeseries| == |sets| == |SetRefs([[]], sets)|
    && forall k :: 0 <= k < |sets| ==> m.timeseries[k].labelsRefs == Low(SetRefs([[]], sets)[k])
  }

  // The receiver decodes bytes that the sender wrote with either marshaller
  // and looks the references up in the symbols it got. It finds the labels
  // that were symbolized exactly when all their strings are in the first 2^32
  // slots of the table, and sorting them by name changes nothing.
  lemma LabelIdentity(m: Request, sets: seq<seq<Pair>>, wire: bytes, k: nat, sorted: seq<Pair>)
    requires Built(m, sets) && RequestOk(m) && |EncodeRequest(m)| < TWO_63
    requires wire == EncodeRequest(m) || (wire == FastEncode(m) && NoLabels(m))
    requires k < |sets|
    ensures DecodeRequest(wire, NO_REQUEST).Ok?
    ensures var got := DecodeRequest(wire, NO_REQUEST).value;
            && |got.timeseries| == |sets| && got.symbols == m.symbols
            && (forall l :: l in sets[k] ==> l.name in m.symbols && l.value in m.symbols)
            && (Lookup(got.timeseries[k].labelsRefs, got.symbols) == Some(sets[k]) <==> Referable(m.symbols, sets[k]))
            && (|m.symbols| <= TWO_32 ==> Referable(m.symbols, sets[k]))
    ensures NameSorted(sets[k]) && SortOf(sorted, sets[k]) ==> sorted == sets[k]
  {
    hide RequestOk, EncodeRequest, FastEncode, DecodeRequest, NameSorted, SortOf, Lookup, RefsOf;
    RequestRoundTrip(m);
    if wire != EncodeRequest(m) {
      FastRoundTrip(m);
    }
    SetsGrow([[]], sets);
    SetSlotsStay([[]], sets, k);
    LookupInverts(m.symbols, sets[k]);
    if NameSorted(sets[k]) && SortOf(sorted, sets[k]) {
      SortingSortedIsIdentity(sorted, sets[k]);
    }
  }
}
