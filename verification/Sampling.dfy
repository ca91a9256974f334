// sampleEvery: load the counter, give up if it has passed a million, else add
// one and sample every ten-thousandth number, under interleaved callers.
module Sampling {
  import opened Words

  const LIMIT: nat := 1000000
  const RATE: nat := 10000

  // ---- the shared counter --------------------------------------------------

  class AtomicUint64 {
    var v: uint64

    constructor ()
      ensures v == 0
    {
      v := 0;
    }

    method Load() returns (r: uint64)
      ensures r == v
    {
      r := v;
    }

    // Add(1) returns the new value; it wraps at 2^64.
    method Add() returns (r: uint64)
      modifies this
      ensures v == U64(old(v) + 1) && r == v
    {
      v := U64(v + 1);
      r := v;
    }
  }

  function IsSampled(n: nat): bool {
    n > 0 && (n - 1) % RATE == 0
  }

  // What one call does when no other caller comes in between: nothing once the
  // counter is past a million; else it takes the next number, and is sampled for
  // the numbers 1, 10001, 20001, ...
  predicate Call(before: nat, n: nat, sampled: bool, after: nat) {
    if before > 1_000_000 then n == 0 && !sampled && after == before
    else n == after == before + 1 && (sampled <==> n % 10_000 == 1)
  }

  // sampleEvery, with no other caller in between.
  method SampleEvery(counter: AtomicUint64) returns (n: uint64, sampled: bool)
    modifies counter
    ensures Call(old(counter.v), n, sampled, counter.v)
  {
    n := 0;
    var c := counter.Load();
    if c > LIMIT {
      return n, false;
    }
    n := counter.Add();
    return n, (n - 1) % RATE == 0;
  }

  // calls sequential calls on a new counter: how many were sampled.
  method RunSequentially(calls: nat) returns (count: nat)
    ensures count == CountSampled(if calls <= LIMIT then calls else LIMIT + 1)
    ensures calls > LIMIT ==> count == 101
  {
    var counter := new AtomicUint64();
    count := 0;
    for k := 0 to calls
      invariant counter.v == if k <= LIMIT then k else LIMIT + 1
      invariant count == CountSampled(counter.v)
    {
      var n, sampled := SampleEvery(counter);
      if sampled {
        count := count + 1;
      }
    }
    SampledUpTo(counter.v);
  }

  // ---- numbers -------------------------------------------------------------

  // Of the numbers 1..n, how many are sampled.
  function CountSampled(n: nat): nat {
    if n == 0 then 0 else CountSampled(n - 1) + if IsSampled(n) then 1 else 0
  }

  lemma {:induction false} SampledUpTo(n: nat)
    ensures CountSampled(n) == (n + RATE - 1) / RATE
  {
    if n > 0 {
      SampledUpTo(n - 1);
    }
  }

  // ---- interleaved callers -------------------------------------------------

  // Where a caller stands: between calls, or past the load with the counter
  // seen at most at the limit.
  datatype Caller = Outside | Passed

  // log holds the non-zero numbers returned so far, in the order of the adds.
  datatype State = State(counter: nat, callers: seq<Caller>, log: seq<nat>)

  predicate Init(s: State) {
    s.counter == 0 && s.log == [] && forall t :: 0 <= t < |s.callers| ==> s.callers[t] == Outside
  }

  // counter.Load() of caller t: it returns 0 at once, or passes.
  predicate LoadStep(s: State, s': State, t: nat) {
    && t < |s.callers| && s.callers[t] == Outside
    && s' == if s.counter > LIMIT then s else s.(callers := s.callers[t := Passed])
  }

  // counter.Add(1) of caller t, which returns the new value.
  predicate AddStep(s: State, s': State, t: nat) {
    && t < |s.callers| && s.callers[t] == Passed
    && s' == State(s.counter + 1, s.callers[t := Outside], s.log + [s.counter + 1])
  }

  predicate Next(s: State, s': State) {
    exists t: nat :: t < |s.callers| && (LoadStep(s, s', t) || AddStep(s, s', t))
  }

  ghost predicate IsRun(run: seq<State>) {
    && |run| > 0
    && Init(run[0])
    && forall i :: 0 <= i < |run| - 1 ==> Next(run[i], run[i + 1])
  }

  // The steps of one caller, without another's in between, are that call.
  lemma UninterruptedCall(s: State, t: nat, loaded: State, added: State)
    requires t < |s.callers| && s.callers[t] == Outside && LoadStep(s, loaded, t)
    requires |loaded.callers| == |s.callers| && (loaded.callers[t] == Passed ==> AddStep(loaded, added, t))
    ensures loaded.callers[t] == Passed <==> s.counter <= 1_000_000
    ensures if loaded.callers[t] == Passed
            then
              var n := s.counter + 1;
              && Call(s.counter, n, IsSampled(n), added.counter)
              && added.callers == s.callers && added.log == s.log + [n]
            else Call(s.counter, 0, false, loaded.counter) && loaded == s
  {
    if loaded.callers[t] == Passed {
      assert loaded.callers[t := Outside] == s.callers;
    }
  }

  // Every caller always has its next step: it loads, and once past the check
  // it adds.
  lemma CallersMove(s: State, t: nat) returns (s': State)
    requires t < |s.callers|
    ensures Next(s, s')
    ensures if s.callers[t] == Outside then LoadStep(s, s', t) else AddStep(s, s', t)
  {
    if s.callers[t] == Outside {
      s' := if s.counter > LIMIT then s else s.(callers := s.callers[t := Passed]);
      assert LoadStep(s, s', t);
    } else {
      s' := State(s.counter + 1, s.callers[t := Outside], s.log + [s.counter + 1]);
      assert AddStep(s, s', t);
    }
  }

  function PassedCount(cs: seq<Caller>): nat {
    if cs == [] then 0 else (if cs[0] == Passed then 1 else 0) + PassedCount(cs[1..])
  }

  lemma {:induction false} PassedUpdate(cs: seq<Caller>, t: nat, c: Caller)
    requires t < |cs|
    ensures PassedCount(cs[t := c]) ==
            PassedCount(cs) - (if cs[t] == Passed then 1 else 0) + (if c == Passed then 1 else 0)
    ensures PassedCount(cs) <= |cs|
  {
    if t == 0 {
      assert cs[t := c][1..] == cs[1..];
      PassedAtMost(cs);
    } else {
      assert cs[t := c][1..] == cs[1..][t - 1 := c];
      PassedUpdate(cs[1..], t - 1, c);
    }
  }

  lemma {:induction false} PassedAtMost(cs: seq<Caller>)
    ensures PassedCount(cs) <= |cs|
  {
    if cs != [] {
      PassedAtMost(cs[1..]);
    }
  }

  lemma {:induction false} NonePassed(cs: seq<Caller>)
    requires forall t :: 0 <= t < |cs| ==> cs[t] == Outside
    ensures PassedCount(cs) == 0
  {
    if cs != [] {
      NonePassed(cs[1..]);
    }
  }

  // The counter can only overshoot by callers that have passed already.
  ghost predicate Inv(s: State, callers: nat) {
    && |s.callers| == callers
    && s.counter + PassedCount(s.callers) <= LIMIT + callers
    && |s.log| == s.counter
    && forall i :: 0 <= i < |s.log| ==> s.log[i] == i + 1
  }

  lemma StepKeepsInv(s: State, s': State, callers: nat)
    requires Inv(s, callers) && Next(s, s')
    ensures Inv(s', callers)
  {
    var t: nat :| t < |s.callers| && (LoadStep(s, s', t) || AddStep(s, s', t));
    PassedUpdate(s.callers, t, s'.callers[t]);
    PassedAtMost(s'.callers);
    assert s.callers[t := s.callers[t]] == s.callers;
  }

  lemma {:induction false} RunKeepsInv(run: seq<State>, i: nat)
    requires IsRun(run) && i < |run|
    ensures Inv(run[i], |run[0].callers|)
  {
    if i == 0 {
      NonePassed(run[0].callers);
    } else {
      RunKeepsInv(run, i - 1);
      StepKeepsInv(run[i - 1], run[i], |run[0].callers|);
    }
  }

  function SampledIn(log: seq<nat>): nat {
    if log == [] then 0 else SampledIn(log[..|log| - 1]) + if IsSampled(log[|log| - 1]) then 1 else 0
  }

  lemma {:induction false} SampledInPrefix(log: seq<nat>)
    requires forall i :: 0 <= i < |log| ==> log[i] == i + 1
    ensures SampledIn(log) == CountSampled(|log|)
  {
    if log != [] {
      SampledInPrefix(log[..|log| - 1]);
    }
  }

  // In every state of every run with T callers: the returned numbers are 1, 2,
  // ... without repetition, the counter is at most LIMIT + T, and a sample is
  // taken once per RATE numbers; 101 at most while T <= RATE.
  lemma SamplingBound(run: seq<State>, i: nat)
    requires IsRun(run) && i < |run|
    ensures var s, callers := run[i], |run[0].callers|;
            && s.counter <= LIMIT + callers
            && (forall j, k :: 0 <= j < k < |s.log| ==> s.log[j] != s.log[k])
            && SampledIn(s.log) == (s.counter + RATE - 1) / RATE
            && (callers <= RATE ==> SampledIn(s.log) <= 101)
  {
    RunKeepsInv(run, i);
    var s := run[i];
    SampledInPrefix(s.log);
    SampledUpTo(s.counter);
  }
}
