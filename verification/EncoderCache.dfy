// getEncoder: a copy-on-write map from compression level to encoder, read
// without a lock and extended under one, with the check made twice.
// Every step below is one access by one goroutine to what it shares with the
// others: av, mu or a map. Only a turn of the copying loop is two, a read of r1
// and a write to r2; StepKeepsInv shows that no other goroutine writes to r1,
// which has been stored, or holds r2, which has not.
module EncoderCache {
  import opened Words

  type MapId = nat      // a Go map, by identity
  type Encoder = nat    // an encoder, numbered in the order of creation

  // Where a goroutine stands inside getEncoder(level).
  datatype Caller =
    | Outside
    | Entered(level: int)                                   // before the first av.Load()
    | Loaded(level: int, r: MapId)                          // before r[compressionLevel]
    | Missed(level: int)                                    // not in r; before mu.Lock()
    | Locked(level: int)                                    // holds mu; before the second av.Load()
    | Reloaded(level: int, r1: MapId)                       // before r1[compressionLevel]
    | Creating(level: int, r1: MapId)                       // not in r1 either; before newEncoder
    | Allocating(level: int, e: Encoder, r1: MapId)         // before r2 is made
    | Copying(level: int, e: Encoder, r1: MapId, r2: MapId, left: set<int>)
    | Storing(level: int, e: Encoder, r2: MapId)            // r2 is complete; before av.Store(r2)
    | Unlocking(level: int, e: Encoder)

  datatype State = State(
    heap: seq<map<int, Encoder>>,      // the maps, by MapId
    av: MapId,
    mu: Option<nat>,                   // the holder
    callers: seq<Caller>,
    created: seq<int>,                 // the level each encoder was created for
    published: seq<MapId>,             // the maps stored in av, oldest first
    returned: set<(int, Encoder)>)     // level and result of every completed call

  function Put(m: map<int, Encoder>, k: int, e: Encoder): map<int, Encoder> { m[k := e] }

  // init stores an empty map.
  predicate Init(s: State) {
    && s.heap == [map[]] && s.av == 0 && s.mu == None
    && s.created == [] && s.published == [0] && s.returned == {}
    && forall t :: 0 <= t < |s.callers| ==> s.callers[t] == Outside
  }

  predicate Enter(s: State, s': State, t: nat, level: int) {
    && t < |s.callers| && s.callers[t] == Outside
    && s' == s.(callers := s.callers[t := Entered(level)])
  }

  predicate FirstLoad(s: State, s': State, t: nat) {
    && t < |s.callers| && s.callers[t].Entered?
    && s' == s.(callers := s.callers[t := Loaded(s.callers[t].level, s.av)])
  }

  predicate FirstLookup(s: State, s': State, t: nat) {
    && t < |s.callers| && s.callers[t].Loaded? && s.callers[t].r < |s.heap|
    && var Loaded(level, r) := s.callers[t];
       if level in s.heap[r]
       then s' == s.(callers := s.callers[t := Outside], returned := s.returned + {(level, s.heap[r][level])})
       else s' == s.(callers := s.callers[t := Missed(level)])
  }

  predicate Lock(s: State, s': State, t: nat) {
    && t < |s.callers| && s.callers[t].Missed? && s.mu == None
    && s' == s.(mu := Some(t), callers := s.callers[t := Locked(s.callers[t].level)])
  }

  predicate SecondLoad(s: State, s': State, t: nat) {
    && t < |s.callers| && s.callers[t].Locked?
    && s' == s.(callers := s.callers[t := Reloaded(s.callers[t].level, s.av)])
  }

  predicate SecondLookup(s: State, s': State, t: nat) {
    && t < |s.callers| && s.callers[t].Reloaded? && s.callers[t].r1 < |s.heap|
    && var Reloaded(level, r1) := s.callers[t];
       if level in s.heap[r1]
       then s' == s.(callers := s.callers[t := Unlocking(level, s.heap[r1][level])])
       else s' == s.(callers := s.callers[t := Creating(level, r1)])
  }

  // newEncoder
  predicate Create(s: State, s': State, t: nat) {
    && t < |s.callers| && s.callers[t].Creating?
    && var Creating(level, r1) := s.callers[t];
       s' == s.(created := s.created + [level], callers := s.callers[t := Allocating(level, |s.created|, r1)])
  }

  // r2 is made, and the loop over the keys of r1 begins.
  predicate Allocate(s: State, s': State, t: nat) {
    && t < |s.callers| && s.callers[t].Allocating? && s.callers[t].r1 < |s.heap|
    && var Allocating(level, e, r1) := s.callers[t];
       s' == s.(heap := s.heap + [map[]],
                callers := s.callers[t := Copying(level, e, r1, |s.heap|, s.heap[r1].Keys)])
  }

  // One turn of the copying loop, over the keys in any order.
  predicate Copy(s: State, s': State, t: nat, k: int) {
    && t < |s.callers| && s.callers[t].Copying? && s.callers[t].r1 < |s.heap| && s.callers[t].r2 < |s.heap|
    && var c := s.callers[t];
       && k in c.left && k in s.heap[c.r1]
       && s' == s.(heap := s.heap[c.r2 := Put(s.heap[c.r2], k, s.heap[c.r1][k])],
                   callers := s.callers[t := c.(left := c.left - {k})])
  }

  // r2[compressionLevel] = e, after the loop.
  predicate Insert(s: State, s': State, t: nat) {
    && t < |s.callers| && s.callers[t].Copying? && s.callers[t].r2 < |s.heap|
    && var c := s.callers[t];
       && c.left == {}
       && s' == s.(heap := s.heap[c.r2 := Put(s.heap[c.r2], c.level, c.e)],
                   callers := s.callers[t := Storing(c.level, c.e, c.r2)])
  }

  predicate Store(s: State, s': State, t: nat) {
    && t < |s.callers| && s.callers[t].Storing?
    && var c := s.callers[t];
       s' == s.(av := c.r2, published := s.published + [c.r2], callers := s.callers[t := Unlocking(c.level, c.e)])
  }

  predicate Unlock(s: State, s': State, t: nat) {
    && t < |s.callers| && s.callers[t].Unlocking?
    && var c := s.callers[t];
       s' == s.(mu := None, callers := s.callers[t := Outside], returned := s.returned + {(c.level, c.e)})
  }

  ghost predicate Next(s: State, s': State) {
    exists t: nat, x: int :: Step(s, s', t, x)
  }

  predicate Step(s: State, s': State, t: nat, x: int) {
    || Enter(s, s', t, x) || FirstLoad(s, s', t) || FirstLookup(s, s', t) || Lock(s, s', t)
    || SecondLoad(s, s', t) || SecondLookup(s, s', t) || Create(s, s', t) || Allocate(s, s', t)
    || Copy(s, s', t, x) || Insert(s, s', t) || Store(s, s', t) || Unlock(s, s', t)
  }

  ghost predicate IsRun(run: seq<State>) {
    && |run| > 0
    && Init(run[0])
    && forall i :: 0 <= i < |run| - 1 ==> Next(run[i], run[i + 1])
  }

  // ---- the invariant -------------------------------------------------------

  predicate Holds(c: Caller) {
    c.Locked? || c.Reloaded? || c.Creating? || c.Allocating? || c.Copying? || c.Storing? || c.Unlocking?
  }

  // An encoder that was created for this level.
  predicate For(s: State, level: int, e: Encoder) {
    e < |s.created| && s.created[e] == level
  }

  // The encoder that has been created but is not in the current map yet.
  predicate Pending(s: State, e: Encoder) {
    s.mu.Some? && s.mu.value < |s.callers| &&
    var c := s.callers[s.mu.value];
    (c.Allocating? || c.Copying? || c.Storing?) && c.e == e
  }

  ghost predicate MutexInv(s: State) {
    && (s.mu.Some? ==> s.mu.value < |s.callers| && Holds(s.callers[s.mu.value]))
    && forall t :: 0 <= t < |s.callers| && Holds(s.callers[t]) ==> s.mu == Some(t)
  }

  ghost predicate MapInv(s: State) {
    && s.av < |s.heap|
    && |s.published| > 0 && s.published[|s.published| - 1] == s.av
    && (forall i :: 0 <= i < |s.published| ==> s.published[i] < |s.heap|)
    // every map holds encoders of their own level
    && (forall i, level :: 0 <= i < |s.heap| && level in s.heap[i] ==> For(s, level, s.heap[i][level]))
    // the current map holds all encoders but the pending one
    && (forall e :: 0 <= e < |s.created| ==>
          Pending(s, e) || (s.created[e] in s.heap[s.av] && s.heap[s.av][s.created[e]] == e))
    && (forall i, j :: 0 <= i < j < |s.created| ==> s.created[i] != s.created[j])
    && (forall level, e :: (level, e) in s.returned ==> For(s, level, e))
  }

  ghost predicate CallerInv(s: State, c: Caller)
    requires s.av < |s.heap|
  {
    match c
    case Loaded(level, r) => r in s.published
    case Reloaded(level, r1) => r1 == s.av
    case Creating(level, r1) => r1 == s.av && level !in s.heap[s.av]
    case Allocating(level, e, r1) => r1 == s.av && level !in s.heap[s.av] && For(s, level, e)
    case Copying(level, e, r1, r2, left) =>
      && r1 == s.av && level !in s.heap[s.av] && For(s, level, e)
      && r2 < |s.heap| && r2 !in s.published
      && left <= s.heap[r1].Keys
      && s.heap[r2].Keys == s.heap[r1].Keys - left
      && (forall k :: k in s.heap[r2] ==> s.heap[r2][k] == s.heap[r1][k])
    case Storing(level, e, r2) =>
      && level !in s.heap[s.av] && For(s, level, e)
      && r2 < |s.heap| && r2 !in s.published
      && s.heap[r2] == Put(s.heap[s.av], level, e)
    case Unlocking(level, e) => For(s, level, e) && level in s.heap[s.av] && s.heap[s.av][level] == e
    case _ => true
  }

  // A published map extends the one published before it.
  ghost predicate ChainInv(s: State)
    requires forall i :: 0 <= i < |s.published| ==> s.published[i] < |s.heap|
  {
    forall i :: 0 <= i < |s.published| - 1 ==> Extends(s.heap[s.published[i]], s.heap[s.published[i + 1]])
  }

  predicate Extends(m: map<int, Encoder>, n: map<int, Encoder>) {
    m.Keys <= n.Keys && forall k :: k in m ==> n[k] == m[k]
  }

  ghost predicate Inv(s: State) {
    && MutexInv(s)
    && MapInv(s)
    && (forall t :: 0 <= t < |s.callers| ==> CallerInv(s, s.callers[t]))
    && ChainInv(s)
  }

  // A stored map is never written to again.
  ghost predicate Frozen(s: State, s': State) {
    && s.published <= s'.published
    && forall i :: 0 <= i < |s.published| ==>
         s.published[i] < |s.heap| && s.published[i] < |s'.heap| && s'.heap[s.published[i]] == s.heap[s.published[i]]
  }

  // Only the holder of mu can be between Lock and Unlock.
  lemma OthersAreQuiet(s: State, t: nat, u: nat)
    requires MutexInv(s) && t < |s.callers| && u < |s.callers| && t != u && s.mu == Some(t)
    ensures !Holds(s.callers[u])
  {
  }

  // Steps that leave maps and encoders alone.
  lemma ControlStep(s: State, s': State, t: nat)
    requires Inv(s) && t < |s.callers| && |s'.callers| == |s.callers|
    requires s'.heap == s.heap && s'.av == s.av && s'.created == s.created && s'.published == s.published
    requires s'.callers == s.callers[t := s'.callers[t]]
    requires MutexInv(s') && CallerInv(s', s'.callers[t])
    requires forall e: Encoder :: Pending(s, e) ==> Pending(s', e)
    requires forall level, e :: (level, e) in s'.returned ==> For(s, level, e)
    ensures Inv(s') && Frozen(s, s')
  {
    hide Pending;
    forall u | 0 <= u < |s'.callers|
      ensures CallerInv(s', s'.callers[u])
    {
      if u != t {
        assert CallerInv(s, s.callers[u]);
      }
    }
    assert forall level: int, e: Encoder :: For(s', level, e) == For(s, level, e);
  }

  lemma MutexUntouched(s: State, s': State, t: nat)
    requires MutexInv(s) && t < |s.callers| && |s'.callers| == |s.callers| && s'.mu == s.mu
    requires s'.callers == s.callers[t := s'.callers[t]]
    requires Holds(s'.callers[t]) == Holds(s.callers[t])
    ensures MutexInv(s')
  {
  }

  lemma ReaderSteps(s: State, s': State, t: nat, x: int)
    requires Inv(s) && (Enter(s, s', t, x) || FirstLoad(s, s', t) || FirstLookup(s, s', t))
    ensures Inv(s') && Frozen(s, s')
  {
    MutexUntouched(s, s', t);
    assert CallerInv(s, s.callers[t]) && s.published[|s.published| - 1] == s.av;
    forall e: Encoder | Pending(s, e) ensures Pending(s', e) {
      assert s.mu.value != t;
    }
    ControlStep(s, s', t);
  }

  lemma LockStep(s: State, s': State, t: nat)
    requires Inv(s) && Lock(s, s', t)
    ensures Inv(s') && Frozen(s, s')
  {
    forall e: Encoder ensures !Pending(s, e) {}
    ControlStep(s, s', t);
  }

  lemma RecheckSteps(s: State, s': State, t: nat)
    requires Inv(s) && (SecondLoad(s, s', t) || SecondLookup(s, s', t))
    ensures Inv(s') && Frozen(s, s')
  {
    MutexUntouched(s, s', t);
    assert s.mu == Some(t) && CallerInv(s, s.callers[t]);
    forall e: Encoder ensures !Pending(s, e) {}
    ControlStep(s, s', t);
  }

  lemma UnlockStep(s: State, s': State, t: nat)
    requires Inv(s) && Unlock(s, s', t)
    ensures Inv(s') && Frozen(s, s')
  {
    assert s.mu == Some(t);
    forall u | 0 <= u < |s'.callers| && Holds(s'.callers[u])
      ensures false
    {
      if u != t { OthersAreQuiet(s, t, u); }
    }
    forall e: Encoder ensures !Pending(s, e) {}
    assert CallerInv(s, s.callers[t]);
    ControlStep(s, s', t);
  }

  // Steps of the holder: nobody else is between Lock and Unlock.
  lemma HolderStep(s: State, s': State, t: nat)
    requires Inv(s) && t < |s.callers| && |s'.callers| == |s.callers| && s'.mu == s.mu == Some(t)
    requires s'.callers == s.callers[t := s'.callers[t]] && Holds(s'.callers[t])
    requires MapInv(s') && CallerInv(s', s'.callers[t]) && ChainInv(s') && s.published <= s'.published
    ensures Inv(s')
  {
    forall u | 0 <= u < |s'.callers|
      ensures CallerInv(s', s'.callers[u]) && (Holds(s'.callers[u]) ==> u == t)
    {
      if u != t { OthersAreQuiet(s, t, u); }
    }
  }

  lemma CreateStep(s: State, s': State, t: nat)
    requires Inv(s) && Create(s, s', t)
    ensures Inv(s') && Frozen(s, s')
  {
    assert s.mu == Some(t) && CallerInv(s, s.callers[t]);
    var level := s.callers[t].level;
    forall e: Encoder ensures !Pending(s, e) {}
    forall e | 0 <= e < |s.created| ensures s.created[e] != level {}
    forall l: int, e: Encoder | For(s, l, e) ensures For(s', l, e) {}
    assert MapInv(s') by {
      assert Pending(s', |s.created|);
    }
    HolderStep(s, s', t);
  }

  lemma AllocateStep(s: State, s': State, t: nat)
    requires Inv(s) && Allocate(s, s', t)
    ensures Inv(s') && Frozen(s, s')
  {
    assert s.mu == Some(t) && CallerInv(s, s.callers[t]);
    forall l: int, e: Encoder ensures For(s', l, e) == For(s, l, e) {}
    forall e: Encoder ensures Pending(s', e) == Pending(s, e) {}
    assert s.heap[s.av].Keys - s.heap[s.av].Keys == {};
    HolderStep(s, s', t);
  }

  // The map that the holder is filling is in no reader's hands.
  lemma FillKeepsMaps(s: State, s': State, t: nat, r2: MapId, m: map<int, Encoder>, c: Caller)
    requires Inv(s) && s.mu == Some(t) && t < |s.callers|
    requires s.callers[t].Copying? && s.callers[t].r2 == r2 < |s.heap|
    requires s' == s.(heap := s.heap[r2 := m], callers := s.callers[t := c])
    requires (c.Copying? || c.Storing?) && c.e == s.callers[t].e
    requires forall level :: level in m ==> For(s, level, m[level])
    ensures MapInv(s') && ChainInv(s') && Frozen(s, s')
  {
    assert CallerInv(s, s.callers[t]);
    assert s.published[|s.published| - 1] == s.av;
    forall l: int, e: Encoder ensures For(s', l, e) == For(s, l, e) {}
    forall e: Encoder ensures Pending(s', e) == Pending(s, e) {}
  }

  lemma CopyStep(s: State, s': State, t: nat, k: int)
    requires Inv(s) && Copy(s, s', t, k)
    ensures Inv(s') && Frozen(s, s')
  {
    assert s.mu == Some(t) && CallerInv(s, s.callers[t]);
    var c := s.callers[t];
    assert s.published[|s.published| - 1] == s.av;
    FillKeepsMaps(s, s', t, c.r2, s'.heap[c.r2], s'.callers[t]);
    HolderStep(s, s', t);
  }

  lemma InsertStep(s: State, s': State, t: nat)
    requires Inv(s) && Insert(s, s', t)
    ensures Inv(s') && Frozen(s, s')
  {
    assert s.mu == Some(t) && CallerInv(s, s.callers[t]);
    var c := s.callers[t];
    assert s.published[|s.published| - 1] == s.av;
    var full, part := s.heap[c.r1], s.heap[c.r2];
    assert part.Keys == full.Keys;
    assert forall k :: k in part ==> part[k] == full[k];
    assert part == full;
    assert For(s, c.level, c.e);
    FillKeepsMaps(s, s', t, c.r2, s'.heap[c.r2], s'.callers[t]);
    HolderStep(s, s', t);
  }

  lemma StoreStep(s: State, s': State, t: nat)
    requires Inv(s) && Store(s, s', t)
    ensures Inv(s') && Frozen(s, s')
  {
    assert s.mu == Some(t) && CallerInv(s, s.callers[t]);
    var c := s.callers[t];
    forall l: int, e: Encoder ensures For(s', l, e) == For(s, l, e) {}
    assert Extends(s.heap[s.av], s.heap[c.r2]);
    assert MapInv(s') by {
      forall e | 0 <= e < |s.created|
        ensures s.created[e] in s.heap[c.r2] && s.heap[c.r2][s.created[e]] == e
      {
        if Pending(s, e) {
          assert e == c.e && s.created[e] == c.level;
        }
      }
    }
    assert ChainInv(s') by {
      forall i | 0 <= i < |s'.published| - 1
        ensures Extends(s'.heap[s'.published[i]], s'.heap[s'.published[i + 1]])
      {
        if i < |s.published| - 1 {
          assert s'.published[i] == s.published[i] && s'.published[i + 1] == s.published[i + 1];
        } else {
          assert s'.published[i] == s.av && s'.published[i + 1] == c.r2;
        }
      }
    }
    HolderStep(s, s', t);
  }

  lemma StepKeepsInv(s: State, s': State, t: nat, x: int)
    requires Inv(s) && Step(s, s', t, x)
    ensures Inv(s') && Frozen(s, s')
  {
    hide Inv, Frozen, Enter, FirstLoad, FirstLookup, Lock, SecondLoad, SecondLookup;
    hide Create, Allocate, Copy, Insert, Store, Unlock;
    if Enter(s, s', t, x) || FirstLoad(s, s', t) || FirstLookup(s, s', t) {
      ReaderSteps(s, s', t, x);
    } else if Lock(s, s', t) {
      LockStep(s, s', t);
    } else if SecondLoad(s, s', t) || SecondLookup(s, s', t) {
      RecheckSteps(s, s', t);
    } else if Create(s, s', t) {
      CreateStep(s, s', t);
    } else if Allocate(s, s', t) {
      AllocateStep(s, s', t);
    } else if Copy(s, s', t, x) {
      CopyStep(s, s', t, x);
    } else if Insert(s, s', t) {
      InsertStep(s, s', t);
    } else if Store(s, s', t) {
      StoreStep(s, s', t);
    } else {
      UnlockStep(s, s', t);
    }
  }

  // ---- the map only grows --------------------------------------------------

  lemma ChainExtends(s: State, i: nat, j: nat)
    requires MapInv(s) && ChainInv(s) && i <= j < |s.published|
    ensures Extends(s.heap[s.published[i]], s.heap[s.published[j]])
    decreases j - i
  {
    if i < j {
      ChainExtends(s, i + 1, j);
    }
  }

  // What has been returned for a level is in the current map.
  ghost predicate ReturnedInv(s: State)
    requires s.av < |s.heap|
  {
    forall level, e :: (level, e) in s.returned ==> level in s.heap[s.av] && s.heap[s.av][level] == e
  }

  lemma CurrentMapGrows(s: State, s': State)
    requires Inv(s) && Inv(s') && Frozen(s, s')
    ensures Extends(s.heap[s.av], s'.heap[s'.av])
  {
    var i, j := |s.published| - 1, |s'.published| - 1;
    assert s'.published[i] == s.published[i] == s.av;
    ChainExtends(s', i, j);
  }

  // What a step adds to the results is in the map it was taken under.
  lemma NewResult(s: State, s': State, t: nat, x: int, level: int, e: Encoder)
    requires Inv(s) && Step(s, s', t, x) && (level, e) in s'.returned && (level, e) !in s.returned
    ensures level in s.heap[s.av] && s.heap[s.av][level] == e
  {
    assert t < |s.callers| && CallerInv(s, s.callers[t]);
    if s.callers[t].Loaded? {
      var i :| 0 <= i < |s.published| && s.published[i] == s.callers[t].r;
      ChainExtends(s, i, |s.published| - 1);
    }
  }

  lemma StepKeepsReturned(s: State, s': State, t: nat, x: int)
    requires Inv(s) && ReturnedInv(s) && Step(s, s', t, x)
    ensures Inv(s') && ReturnedInv(s')
  {
    StepKeepsInv(s, s', t, x);
    CurrentMapGrows(s, s');
    forall level, e | (level, e) in s'.returned
      ensures level in s'.heap[s'.av] && s'.heap[s'.av][level] == e
    {
      if (level, e) !in s.returned {
        NewResult(s, s', t, x, level, e);
      }
    }
  }

  // ---- whole runs ----------------------------------------------------------

  lemma {:induction false} RunKeepsInv(run: seq<State>, i: nat)
    requires IsRun(run) && i < |run|
    ensures Inv(run[i]) && ReturnedInv(run[i])
  {
    if i == 0 {
      assert Init(run[0]);
    } else {
      RunKeepsInv(run, i - 1);
      hide Step;
      assert Next(run[i - 1], run[i]);
      var t: nat, x: int :| Step(run[i - 1], run[i], t, x);
      StepKeepsReturned(run[i - 1], run[i], t, x);
    }
  }

  lemma {:induction false} StoredMapsFrozen(run: seq<State>, i: nat, j: nat)
    requires IsRun(run) && i <= j < |run|
    ensures Frozen(run[i], run[j])
    decreases j - i
  {
    RunKeepsInv(run, i);
    if i < j {
      assert Next(run[i], run[i + 1]);
      var t: nat, x: int :| Step(run[i], run[i + 1], t, x);
      StepKeepsInv(run[i], run[i + 1], t, x);
      hide Inv, Step, Next;
      StoredMapsFrozen(run, i + 1, j);
    }
  }

  // In every reachable state: one encoder at most has been created per level;
  // all completed calls for a level have returned one and the same encoder,
  // created for that level; and each stored map extends all earlier ones.
  lemma CacheSafety(run: seq<State>, i: nat)
    requires IsRun(run) && i < |run|
    ensures var s := run[i];
            && (forall a, b :: 0 <= a < b < |s.created| ==> s.created[a] != s.created[b])
            && (forall level, e, e' :: (level, e) in s.returned && (level, e') in s.returned ==> e == e')
            && (forall level, e :: (level, e) in s.returned ==> e < |s.created| && s.created[e] == level)
            && (forall a, b :: 0 <= a <= b < |s.published| ==>
                  s.published[a] < |s.heap| && s.published[b] < |s.heap|
                  && Extends(s.heap[s.published[a]], s.heap[s.published[b]]))
  {
    RunKeepsInv(run, i);
    var s := run[i];
    forall level, e, e' | (level, e) in s.returned && (level, e') in s.returned
      ensures e == e'
    {
      assert For(s, level, e) && For(s, level, e');
    }
    forall a, b | 0 <= a <= b < |s.published|
      ensures s.published[a] < |s.heap| && s.published[b] < |s.heap|
              && Extends(s.heap[s.published[a]], s.heap[s.published[b]])
    {
      ChainExtends(s, a, b);
    }
  }

  // A call that returns later in the run returns the encoder that an earlier
  // one returned, whichever goroutines made them.
  lemma SameEncoderForever(run: seq<State>, i: nat, j: nat, level: int, e: Encoder, e': Encoder)
    requires IsRun(run) && i <= j < |run|
    requires (level, e) in run[i].returned && (level, e') in run[j].returned
    ensures e == e'
  {
    ReturnsStay(run, i, j);
    CacheSafety(run, j);
  }

  lemma {:induction false} ReturnsStay(run: seq<State>, i: nat, j: nat)
    requires IsRun(run) && i <= j < |run|
    ensures run[i].returned <= run[j].returned
    decreases j - i
  {
    if i < j {
      assert Next(run[i], run[i + 1]);
      ReturnsStay(run, i + 1, j);
    }
  }

  // Once a call for a level has returned, a call that loads the map afterwards
  // finds the encoder there and returns it at once, without the mutex, whatever
  // the others do between its load and its lookup.
  lemma KnownLevelNeedsNoLock(run: seq<State>, i: nat, j: nat, k: nat, t: nat, level: int, e: Encoder)
    requires IsRun(run) && i <= j < k < |run| - 1
    requires (level, e) in run[i].returned
    requires t < |run[j].callers| && run[j].callers[t] == Entered(level) && FirstLoad(run[j], run[j + 1], t)
    requires t < |run[k].callers| && run[k].callers[t] == run[j + 1].callers[t] && FirstLookup(run[k], run[k + 1], t)
    ensures run[k + 1].callers[t] == Outside && run[k + 1].mu == run[k].mu
    ensures run[k + 1].returned == run[k].returned + {(level, e)}
  {
    ReturnsStay(run, i, j);
    RunKeepsInv(run, j);
    StoredMapsFrozen(run, j, k);
    var s := run[j];
    assert s.published[|s.published| - 1] == s.av;
  }

  // ---- every call can return -----------------------------------------------

  function LevelOf(c: Caller): int
    requires c != Outside
  {
    c.level
  }

  // Some call for this level has returned.
  ghost predicate HasResult(s: State, level: int) {
    exists e: Encoder :: (level, e) in s.returned
  }

  // How far the holder of mu is from releasing it.
  function Left(s: State, t: nat): nat
    requires t < |s.callers| && s.av < |s.heap|
  {
    match s.callers[t]
    case Locked(_) => 8 + |s.heap[s.av]|
    case Reloaded(_, _) => 7 + |s.heap[s.av]|
    case Creating(_, _) => 6 + |s.heap[s.av]|
    case Allocating(_, _, _) => 5 + |s.heap[s.av]|
    case Copying(_, _, _, _, left) => 3 + |left|
    case Storing(_, _, _) => 2
    case Unlocking(_, _) => 1
    case _ => 0
  }

  lemma OneOf(keys: set<int>) returns (k: int)
    requires keys != {}
    ensures k in keys
  {
    if forall x :: x !in keys {
      assert false;
    }
    k :| k in keys;
  }

  // The holder of mu always has a step to take, which releases it with a result
  // or brings it nearer to that.
  lemma HolderMoves(s: State, t: nat) returns (s': State, x: int)
    requires Inv(s) && s.mu == Some(t)
    ensures t < |s.callers| && s.callers[t] != Outside && |s'.callers| == |s.callers| && s'.av < |s'.heap|
    ensures Step(s, s', t, x) && s'.callers == s.callers[t := s'.callers[t]] && s.returned <= s'.returned
    ensures if s'.mu == None
            then s'.callers[t] == Outside && HasResult(s', LevelOf(s.callers[t]))
            else s'.mu == Some(t) && Left(s', t) < Left(s, t)
                 && s'.callers[t] != Outside && LevelOf(s'.callers[t]) == LevelOf(s.callers[t])
  {
    x := 0;
    assert CallerInv(s, s.callers[t]);
    var c := s.callers[t];
    match c {
      case Locked(level) =>
        s' := s.(callers := s.callers[t := Reloaded(level, s.av)]);
        assert SecondLoad(s, s', t);
      case Reloaded(level, r1) =>
        s' := if level in s.heap[r1]
              then s.(callers := s.callers[t := Unlocking(level, s.heap[r1][level])])
              else s.(callers := s.callers[t := Creating(level, r1)]);
        assert SecondLookup(s, s', t);
      case Creating(level, r1) =>
        s' := s.(created := s.created + [level], callers := s.callers[t := Allocating(level, |s.created|, r1)]);
        assert Create(s, s', t);
      case Allocating(level, e, r1) =>
        s' := s.(heap := s.heap + [map[]],
                 callers := s.callers[t := Copying(level, e, r1, |s.heap|, s.heap[r1].Keys)]);
        assert Allocate(s, s', t);
      case Copying(level, e, r1, r2, left) =>
        if left == {} {
          s' := s.(heap := s.heap[r2 := Put(s.heap[r2], level, e)], callers := s.callers[t := Storing(level, e, r2)]);
          assert Insert(s, s', t);
        } else {
          x := OneOf(left);
          s' := s.(heap := s.heap[r2 := Put(s.heap[r2], x, s.heap[r1][x])],
                   callers := s.callers[t := c.(left := left - {x})]);
          assert Copy(s, s', t, x);
        }
      case Storing(level, e, r2) =>
        s' := s.(av := r2, published := s.published + [r2], callers := s.callers[t := Unlocking(level, e)]);
        assert Store(s, s', t);
      case Unlocking(level, e) =>
        s' := s.(mu := None, callers := s.callers[t := Outside], returned := s.returned + {(level, e)});
        assert Unlock(s, s', t);
        assert (level, e) in s'.returned;
        assert HasResult(s', level);
    }
  }

  // path leads by steps from s to a state that satisfies the invariant.
  ghost predicate Path(path: seq<State>, s: State) {
    && |path| > 0 && path[0] == s
    && (forall i :: 0 <= i < |path| - 1 ==> Next(path[i], path[i + 1]))
    && Inv(path[|path| - 1])
  }

  lemma Joined(p: seq<State>, q: seq<State>, s: State)
    requires Path(p, s) && Path(q, p[|p| - 1])
    ensures Path(p + q[1..], s) && (p + q[1..])[|p + q[1..]| - 1] == q[|q| - 1]
  {
    var path := p + q[1..];
    forall i | 0 <= i < |path| - 1 ensures Next(path[i], path[i + 1]) {
      if i < |p| - 1 {
        assert path[i] == p[i] && path[i + 1] == p[i + 1];
      } else {
        assert path[i] == q[i - |p| + 1] && path[i + 1] == q[i - |p| + 2];
      }
    }
  }

  lemma OneStep(s: State, s': State, t: nat, x: int) returns (path: seq<State>)
    requires Inv(s) && Step(s, s', t, x)
    ensures Path(path, s) && path[|path| - 1] == s'
  {
    StepKeepsInv(s, s', t, x);
    assert Next(s, s');
    path := [s, s'];
  }

  // Steps of the holder alone release mu, with a result for its level.
  lemma {:induction false} HolderCanReturn(s: State, t: nat) returns (path: seq<State>)
    requires Inv(s) && s.mu == Some(t)
    ensures Path(path, s)
    ensures var last := path[|path| - 1];
            && last.mu == None && t < |s.callers| && s.callers[t] != Outside
            && last.callers == s.callers[t := Outside]
            && HasResult(last, LevelOf(s.callers[t]))
    decreases Left(s, t)
  {
    var s', x := HolderMoves(s, t);
    var first := OneStep(s, s', t, x);
    if s'.mu == None {
      path := first;
    } else {
      hide Inv, Step, Next, Left;
      var rest := HolderCanReturn(s', t);
      Joined(first, rest, s);
      path := first + rest[1..];
    }
  }

  // From every reachable state, every call that has begun can be brought to its
  // return, with a result for its level: nothing deadlocks.
  lemma CallCanReturn(s: State, t: nat) returns (path: seq<State>)
    requires Inv(s) && t < |s.callers| && s.callers[t] != Outside
    ensures Path(path, s)
    ensures var last := path[|path| - 1];
            && t < |last.callers| && last.callers[t] == Outside
            && HasResult(last, LevelOf(s.callers[t]))
    decreases match s.callers[t] case Entered(_) => 2 case Loaded(_, _) => 1 case _ => 0
  {
    var c := s.callers[t];
    if c.Entered? {
      var s' := s.(callers := s.callers[t := Loaded(c.level, s.av)]);
      assert FirstLoad(s, s', t);
      var first := OneStep(s, s', t, 0);
      var rest := CallCanReturn(s', t);
      Joined(first, rest, s);
      path := first + rest[1..];
    } else if c.Loaded? {
      assert CallerInv(s, c);
      var level, r := c.level, c.r;
      if level in s.heap[r] {
        var s' := s.(callers := s.callers[t := Outside], returned := s.returned + {(level, s.heap[r][level])});
        assert FirstLookup(s, s', t);
        path := OneStep(s, s', t, 0);
        assert (level, s.heap[r][level]) in s'.returned;
      } else {
        var s' := s.(callers := s.callers[t := Missed(level)]);
        assert FirstLookup(s, s', t);
        var first := OneStep(s, s', t, 0);
        var rest := CallCanReturn(s', t);
        Joined(first, rest, s);
        path := first + rest[1..];
      }
    } else if c.Missed? {
      path := MissedCanReturn(s, t);
    } else {
      assert s.mu == Some(t);
      path := HolderCanReturn(s, t);
    }
  }

  lemma MissedCanReturn(s: State, t: nat) returns (path: seq<State>)
    requires Inv(s) && t < |s.callers| && s.callers[t].Missed?
    ensures Path(path, s)
    ensures var last := path[|path| - 1];
            && t < |last.callers| && last.callers[t] == Outside
            && HasResult(last, LevelOf(s.callers[t]))
  {
    var wait: seq<State> := [s];
    if s.mu.Some? {
      assert s.mu.value != t;
      wait := HolderCanReturn(s, s.mu.value);
    }
    var free := wait[|wait| - 1];
    assert free.mu == None && t < |free.callers| && free.callers[t] == s.callers[t];
    var s' := free.(mu := Some(t), callers := free.callers[t := Locked(s.callers[t].level)]);
    assert Lock(free, s', t);
    var lock := OneStep(free, s', t, 0);
    var rest := HolderCanReturn(s', t);
    Joined(lock, rest, free);
    Joined(wait, lock + rest[1..], s);
    path := wait + (lock + rest[1..])[1..];
  }

  // And from every reachable state, any goroutine that is outside can make a
  // call for any level and have its result.
  lemma CallCanBeMade(s: State, t: nat, level: int) returns (path: seq<State>)
    requires Inv(s) && t < |s.callers| && s.callers[t] == Outside
    ensures Path(path, s)
    ensures var last := path[|path| - 1];
            t < |last.callers| && last.callers[t] == Outside && HasResult(last, level)
  {
    var s' := s.(callers := s.callers[t := Entered(level)]);
    assert Enter(s, s', t, level);
    var first := OneStep(s, s', t, level);
    var rest := CallCanReturn(s', t);
    Joined(first, rest, s);
    path := first + rest[1..];
  }
}
