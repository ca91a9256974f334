// The load generator: workers that each fire one request at every target and
// wait for all of them before the next round, over shared counters.
module Lockstep {

  // The goroutine that one round runs against one target.
  datatype Job =
    | Building           // before http.NewRequestWithContext
    | Requesting         // inside client.Do
    | Counted(err: bool) // recordSent is done; err is still to be looked at
    | Finished           // wg.Done()

  // A worker between rounds, gone, or in a round with its goroutines so far.
  datatype Worker = Waiting | Stopped | Round(jobs: seq<Job>)

  // A return of client.Do.
  datatype Response = Response(target: nat, err: bool)

  // sent and failed are the shared counters, one per target. own, ownFailed
  // and rounds record what each worker contributed, and log what client.Do
  // returned, in order.
  datatype State = State(
    buildable: seq<bool>,       // per target: does NewRequestWithContext succeed
    sent: seq<nat>, failed: seq<nat>,
    workers: seq<Worker>,
    own: seq<seq<nat>>, ownFailed: seq<seq<nat>>, rounds: seq<nat>,
    log: seq<Response>)

  function Targets(s: State): nat { |s.buildable| }

  predicate Shape(s: State) {
    && |s.sent| == |s.failed| == Targets(s)
    && |s.own| == |s.ownFailed| == |s.rounds| == |s.workers|
    && (forall w :: 0 <= w < |s.own| ==> |s.own[w]| == Targets(s))
    && (forall w :: 0 <= w < |s.ownFailed| ==> |s.ownFailed[w]| == Targets(s))
  }

  predicate Init(s: State) {
    && Shape(s) && s.log == []
    && (forall t :: 0 <= t < Targets(s) ==> s.sent[t] == 0 && s.failed[t] == 0)
    && (forall w :: 0 <= w < |s.workers| ==> s.workers[w] == Waiting && s.rounds[w] == 0)
    && (forall w, t :: 0 <= w < |s.own| && 0 <= t < |s.own[w]| ==> s.own[w][t] == 0)
    && (forall w, t :: 0 <= w < |s.ownFailed| && 0 <= t < |s.ownFailed[w]| ==> s.ownFailed[w][t] == 0)
  }

  // ---- steps ---------------------------------------------------------------

  predicate InRound(s: State, w: nat) { w < |s.workers| && s.workers[w].Round? }

  predicate Running(s: State, w: nat, t: nat, j: Job) {
    InRound(s, w) && t < |s.workers[w].jobs| && t < Targets(s) && s.workers[w].jobs[t] == j
  }

  function WithJob(s: State, w: nat, t: nat, j: Job): State
    requires InRound(s, w) && t < |s.workers[w].jobs|
  {
    s.(workers := s.workers[w := Round(s.workers[w].jobs[t := j])])
  }

  // case <-ctx.Done()
  predicate Stop(s: State, s': State, w: nat) {
    w < |s.workers| && s.workers[w] == Waiting && s' == s.(workers := s.workers[w := Stopped])
  }

  // case <-ticker.C
  predicate Tick(s: State, s': State, w: nat) {
    w < |s.workers| && s.workers[w] == Waiting && s' == s.(workers := s.workers[w := Round([])])
  }

  // wg.Add(1); go func ...
  predicate Spawn(s: State, s': State, w: nat) {
    && InRound(s, w) && |s.workers[w].jobs| < Targets(s)
    && s' == s.(workers := s.workers[w := Round(s.workers[w].jobs + [Building])])
  }

  predicate Build(s: State, s': State, w: nat, t: nat) {
    && Running(s, w, t, Building)
    && s' == WithJob(s, w, t, if s.buildable[t] then Requesting else Finished)
  }

  // client.Do returns and recordSent adds one.
  predicate Respond(s: State, s': State, w: nat, t: nat, err: bool) {
    && Shape(s) && Running(s, w, t, Requesting)
    && s' == WithJob(s, w, t, Counted(err)).(
               sent := s.sent[t := s.sent[t] + 1],
               own := s.own[w := s.own[w][t := s.own[w][t] + 1]],
               log := s.log + [Response(t, err)])
  }

  // recordFailed adds one after an error; the body is drained otherwise.
  predicate Finish(s: State, s': State, w: nat, t: nat, err: bool) {
    && Shape(s) && Running(s, w, t, Counted(err))
    && s' == if err
             then WithJob(s, w, t, Finished).(
                    failed := s.failed[t := s.failed[t] + 1],
                    ownFailed := s.ownFailed[w := s.ownFailed[w][t := s.ownFailed[w][t] + 1]])
             else WithJob(s, w, t, Finished)
  }

  // wg.Wait() returns.
  predicate EndRound(s: State, s': State, w: nat) {
    && Shape(s) && InRound(s, w) && |s.workers[w].jobs| == Targets(s)
    && (forall t :: 0 <= t < |s.workers[w].jobs| ==> s.workers[w].jobs[t] == Finished)
    && s' == s.(workers := s.workers[w := Waiting], rounds := s.rounds[w := s.rounds[w] + 1])
  }

  predicate Step(s: State, s': State, w: nat, t: nat, err: bool) {
    || Stop(s, s', w) || Tick(s, s', w) || Spawn(s, s', w) || Build(s, s', w, t)
    || Respond(s, s', w, t, err) || Finish(s, s', w, t, err) || EndRound(s, s', w)
  }

  ghost predicate Next(s: State, s': State) {
    exists w: nat, t: nat, err: bool :: Step(s, s', w, t, err)
  }

  ghost predicate IsRun(run: seq<State>) {
    && |run| > 0
    && Init(run[0])
    && forall i :: 0 <= i < |run| - 1 ==> Next(run[i], run[i + 1])
  }

  // ---- the invariant -------------------------------------------------------

  function Column(rows: seq<seq<nat>>, t: nat): nat
    requires forall w :: 0 <= w < |rows| ==> t < |rows[w]|
  {
    if rows == [] then 0 else rows[0][t] + Column(rows[1..], t)
  }

  lemma {:induction false} ColumnUpdate(rows: seq<seq<nat>>, w: nat, row: seq<nat>, t: nat)
    requires w < |rows| && t < |row| && forall v :: 0 <= v < |rows| ==> t < |rows[v]|
    ensures Column(rows[w := row], t) == Column(rows, t) - rows[w][t] + row[t]
  {
    if w == 0 {
      assert rows[w := row][1..] == rows[1..];
    } else {
      assert rows[w := row][1..] == rows[1..][w - 1 := row];
      ColumnUpdate(rows[1..], w - 1, row, t);
    }
  }

  // Has the goroutine of this round for target t counted its request?
  predicate Sent(worker: Worker, t: nat) {
    worker.Round? && t < |worker.jobs| && (worker.jobs[t].Counted? || worker.jobs[t].Finished?)
  }

  // Is its error, if any, still to be counted?
  predicate Undecided(worker: Worker, t: nat) {
    worker.Round? && t < |worker.jobs| && worker.jobs[t].Counted?
  }

  // One worker's share of one target: a request per completed round, and one
  // more once this round's has been counted; none if no request can be built.
  ghost predicate Share(s: State, w: nat, t: nat)
    requires Shape(s) && w < |s.workers| && t < Targets(s)
  {
    var worker := s.workers[w];
    && s.own[w][t] == (if s.buildable[t] then s.rounds[w] + (if Sent(worker, t) then 1 else 0) else 0)
    && s.ownFailed[w][t] + (if Undecided(worker, t) then 1 else 0) <= s.own[w][t]
    && (!s.buildable[t] && worker.Round? && t < |worker.jobs| ==> worker.jobs[t] in {Building, Finished})
  }

  function ResponsesTo(log: seq<Response>, t: nat): nat {
    if log == [] then 0
    else ResponsesTo(log[..|log| - 1], t) + if log[|log| - 1].target == t then 1 else 0
  }

  function ErrorsOf(log: seq<Response>, t: nat): nat {
    if log == [] then 0
    else ErrorsOf(log[..|log| - 1], t) + if log[|log| - 1] == Response(t, true) then 1 else 0
  }

  lemma OneMore(log: seq<Response>, r: Response, t: nat)
    ensures ResponsesTo(log + [r], t) == ResponsesTo(log, t) + if r.target == t then 1 else 0
    ensures ErrorsOf(log + [r], t) == ErrorsOf(log, t) + if r.target == t && r.err then 1 else 0
  {
    assert (log + [r])[..|log|] == log;
  }

  // Has this round's request for target t returned an error that is not counted
  // yet?
  predicate Owes(worker: Worker, t: nat) {
    worker.Round? && t < |worker.jobs| && worker.jobs[t] == Counted(true)
  }

  function Owing(workers: seq<Worker>, t: nat): nat {
    if workers == [] then 0 else (if Owes(workers[0], t) then 1 else 0) + Owing(workers[1..], t)
  }

  lemma {:induction false} OwingUpdate(workers: seq<Worker>, w: nat, worker: Worker, t: nat)
    requires w < |workers|
    ensures Owing(workers[w := worker], t) + (if Owes(workers[w], t) then 1 else 0) ==
            Owing(workers, t) + if Owes(worker, t) then 1 else 0
  {
    if w == 0 {
      assert workers[w := worker][1..] == workers[1..];
    } else {
      assert workers[w := worker][1..] == workers[1..][w - 1 := worker];
      OwingUpdate(workers[1..], w - 1, worker, t);
    }
  }

  // The counters are what client.Do returned: a request for every return, and a
  // failure for every error but those that a goroutine is about to count.
  ghost predicate Ledger(s: State) {
    && |s.sent| == |s.failed| == Targets(s)
    && forall t :: 0 <= t < Targets(s) ==>
         && s.sent[t] == ResponsesTo(s.log, t)
         && s.failed[t] + Owing(s.workers, t) == ErrorsOf(s.log, t)
  }

  // What one step changes of the ledger of target u.
  lemma CountStepLedger(s: State, s': State, w: nat, t: nat, err: bool, u: nat)
    requires Shape(s) && u < Targets(s) && (Respond(s, s', w, t, err) || Finish(s, s', w, t, err))
    ensures w < |s.workers| && s'.workers == s.workers[w := s'.workers[w]] && Shape(s') && s'.buildable == s.buildable
    ensures var owed, owes := if Owes(s.workers[w], u) then 1 else 0, if Owes(s'.workers[w], u) then 1 else 0;
            if s'.log == s.log
            then s'.sent[u] == s.sent[u] && s'.failed[u] + owes == s.failed[u] + owed
            else
              && s'.log == s.log + [Response(t, err)] && s'.failed == s.failed
              && s'.sent[u] == s.sent[u] + (if t == u then 1 else 0)
              && owes == owed + if t == u && err then 1 else 0
  {
  }

  lemma RoundStepLedger(s: State, s': State, w: nat, t: nat, u: nat)
    requires Inv(s) && u < Targets(s)
    requires Stop(s, s', w) || Tick(s, s', w) || Spawn(s, s', w) || Build(s, s', w, t) || EndRound(s, s', w)
    ensures w < |s.workers| && s'.workers == s.workers[w := s'.workers[w]] && Shape(s') && s'.buildable == s.buildable
    ensures Owes(s'.workers[w], u) == Owes(s.workers[w], u)
    ensures s'.log == s.log && s'.sent == s.sent && s'.failed == s.failed
  {
  }

  lemma StepKeepsLedger(s: State, s': State, w: nat, t: nat, err: bool)
    requires Inv(s) && Ledger(s) && Step(s, s', w, t, err)
    ensures Ledger(s')
  {
    hide Stop, Tick, Spawn, Build, Respond, Finish, EndRound, Owing, Owes, ErrorsOf, ResponsesTo, Column;
    assert |s'.sent| == |s'.failed| == Targets(s') == Targets(s) by {
      StepKeepsInv(s, s', w, t, err);
      SameTargets(s, s', w, t, err);
    }
    forall u | 0 <= u < Targets(s')
      ensures s'.sent[u] == ResponsesTo(s'.log, u) && s'.failed[u] + Owing(s'.workers, u) == ErrorsOf(s'.log, u)
    {
      if Respond(s, s', w, t, err) || Finish(s, s', w, t, err) {
        CountStepLedger(s, s', w, t, err, u);
        OneMore(s.log, Response(t, err), u);
      } else {
        RoundStepLedger(s, s', w, t, u);
      }
      hide Inv;
      OwingUpdate(s.workers, w, s'.workers[w], u);
    }
  }

  lemma SameTargets(s: State, s': State, w: nat, t: nat, err: bool)
    requires Step(s, s', w, t, err)
    ensures Targets(s') == Targets(s)
  {
  }

  ghost predicate Inv(s: State) {
    && Shape(s)
    && (forall w :: 0 <= w < |s.workers| && s.workers[w].Round? ==> |s.workers[w].jobs| <= Targets(s))
    && (forall w, t :: 0 <= w < |s.workers| && 0 <= t < Targets(s) ==> Share(s, w, t))
    && (forall t :: 0 <= t < Targets(s) ==> s.sent[t] == Column(s.own, t))
    && (forall t :: 0 <= t < Targets(s) ==> s.failed[t] == Column(s.ownFailed, t))
  }

  // Every step changes one worker, and at most that worker's rows.
  ghost predicate OneWorker(s: State, s': State, w: nat)
    requires Shape(s)
  {
    && w < |s.workers| && Shape(s') && s'.buildable == s.buildable && |s'.workers| == |s.workers|
    && s'.workers == s.workers[w := s'.workers[w]]
    && s'.own == s.own[w := s'.own[w]]
    && s'.ownFailed == s.ownFailed[w := s'.ownFailed[w]]
    && s'.rounds == s.rounds[w := s'.rounds[w]]
    && (forall t :: 0 <= t < Targets(s) ==> s'.sent[t] + s.own[w][t] == s.sent[t] + s'.own[w][t])
    && (forall t :: 0 <= t < Targets(s) ==> s'.failed[t] + s.ownFailed[w][t] == s.failed[t] + s'.ownFailed[w][t])
  }

  lemma OneWorkerKeepsInv(s: State, s': State, w: nat)
    requires Inv(s) && OneWorker(s, s', w)
    requires s'.workers[w].Round? ==> |s'.workers[w].jobs| <= Targets(s)
    requires forall t :: 0 <= t < Targets(s) ==> Share(s', w, t)
    ensures Inv(s')
  {
    forall t | 0 <= t < Targets(s)
      ensures s'.sent[t] == Column(s'.own, t) && s'.failed[t] == Column(s'.ownFailed, t)
    {
      ColumnUpdate(s.own, w, s'.own[w], t);
      ColumnUpdate(s.ownFailed, w, s'.ownFailed[w], t);
    }
    forall v, t | 0 <= v < |s'.workers| && 0 <= t < Targets(s)
      ensures Share(s', v, t)
    {
      assert Share(s, v, t);
    }
  }

  lemma RoundSteps(s: State, s': State, w: nat, t: nat)
    requires Inv(s)
    requires Stop(s, s', w) || Tick(s, s', w) || Spawn(s, s', w) || Build(s, s', w, t) || EndRound(s, s', w)
    ensures Inv(s')
  {
    hide Column;
    forall u | 0 <= u < Targets(s)
      ensures Share(s', w, u)
    {
      assert Share(s, w, u);
    }
    OneWorkerKeepsInv(s, s', w);
  }

  lemma CountSteps(s: State, s': State, w: nat, t: nat, err: bool)
    requires Inv(s) && (Respond(s, s', w, t, err) || Finish(s, s', w, t, err))
    ensures Inv(s')
  {
    hide Column;
    forall u | 0 <= u < Targets(s)
      ensures Share(s', w, u)
    {
      assert Share(s, w, u);
    }
    OneWorkerKeepsInv(s, s', w);
  }

  lemma StepKeepsInv(s: State, s': State, w: nat, t: nat, err: bool)
    requires Inv(s) && Step(s, s', w, t, err)
    ensures Inv(s')
  {
    hide Inv, Stop, Tick, Spawn, Build, Respond, Finish, EndRound;
    if Respond(s, s', w, t, err) || Finish(s, s', w, t, err) {
      CountSteps(s, s', w, t, err);
    } else {
      RoundSteps(s, s', w, t);
    }
  }

  lemma {:induction false} NothingYet(rows: seq<seq<nat>>, t: nat)
    requires forall w :: 0 <= w < |rows| ==> t < |rows[w]| && rows[w][t] == 0
    ensures Column(rows, t) == 0
  {
    if rows != [] {
      NothingYet(rows[1..], t);
    }
  }

  lemma {:induction false} RunKeepsInv(run: seq<State>, i: nat)
    requires IsRun(run) && i < |run|
    ensures Inv(run[i]) && Ledger(run[i]) && |run[i].workers| == |run[0].workers|
  {
    if i == 0 {
      var s := run[0];
      assert Init(s);
      forall t | 0 <= t < Targets(s)
        ensures Column(s.own, t) == 0 && Column(s.ownFailed, t) == 0
      {
        NothingYet(s.own, t);
        NothingYet(s.ownFailed, t);
      }
      forall t | 0 <= t < Targets(s) ensures Owing(s.workers, t) == 0 {
        NobodyOwes(s.workers, t);
      }
    } else {
      RunKeepsInv(run, i - 1);
      hide Inv, Ledger;
      assert Next(run[i - 1], run[i]);
      var w: nat, t: nat, err: bool :| Step(run[i - 1], run[i], w, t, err);
      StepKeepsInv(run[i - 1], run[i], w, t, err);
      StepKeepsLedger(run[i - 1], run[i], w, t, err);
    }
  }

  lemma {:induction false} NobodyOwes(workers: seq<Worker>, t: nat)
    requires forall w :: 0 <= w < |workers| ==> !workers[w].Round?
    ensures Owing(workers, t) == 0
  {
    if workers != [] {
      NobodyOwes(workers[1..], t);
    }
  }

  // In every reachable state: a target has been counted once for every return
  // of client.Do, and has failed once for every return with an error, but for
  // those that a goroutine has still to count; between rounds, exactly so.
  lemma CountersAreReturns(run: seq<State>, i: nat, t: nat)
    requires IsRun(run) && i < |run| && t < Targets(run[i])
    ensures var s := run[i];
            && t < |s.sent| && t < |s.failed|
            && s.sent[t] == ResponsesTo(s.log, t)
            && s.failed[t] + Owing(s.workers, t) == ErrorsOf(s.log, t)
            && ((forall w :: 0 <= w < |s.workers| ==> !s.workers[w].Round?) ==> s.failed[t] == ErrorsOf(s.log, t))
  {
    RunKeepsInv(run, i);
    hide Inv;
    var s := run[i];
    if forall w :: 0 <= w < |s.workers| ==> !s.workers[w].Round? {
      NobodyOwes(s.workers, t);
    }
  }

  // ---- a round can be finished ---------------------------------------------

  function JobWork(job: Job): nat {
    match job
    case Building => 3
    case Requesting => 2
    case Counted(_) => 1
    case Finished => 0
  }

  function JobsWork(jobs: seq<Job>): nat {
    if jobs == [] then 0 else JobWork(jobs[0]) + JobsWork(jobs[1..])
  }

  lemma {:induction false} JobsWorkUpdate(jobs: seq<Job>, t: nat, job: Job)
    requires t < |jobs|
    ensures JobsWork(jobs[t := job]) + JobWork(jobs[t]) == JobsWork(jobs) + JobWork(job)
  {
    if t == 0 {
      assert jobs[t := job][1..] == jobs[1..];
    } else {
      assert jobs[t := job][1..] == jobs[1..][t - 1 := job];
      JobsWorkUpdate(jobs[1..], t - 1, job);
    }
  }

  lemma {:induction false} JobsWorkAppend(jobs: seq<Job>, job: Job)
    ensures JobsWork(jobs + [job]) == JobsWork(jobs) + JobWork(job)
  {
    if jobs == [] {
      assert [job][1..] == [];
    } else {
      assert (jobs + [job])[1..] == jobs[1..] + [job];
      JobsWorkAppend(jobs[1..], job);
    }
  }

  // What a worker has left to do in its round.
  function Work(s: State, w: nat): nat
    requires InRound(s, w) && |s.workers[w].jobs| <= Targets(s)
  {
    4 * (Targets(s) - |s.workers[w].jobs|) + JobsWork(s.workers[w].jobs)
  }

  // In a round a worker always has a step to take, which ends the round or
  // leaves less to do in it.
  lemma WorkerMoves(s: State, w: nat) returns (s': State, t: nat, err: bool)
    requires Inv(s) && InRound(s, w)
    ensures Step(s, s', w, t, err)
    ensures if InRound(s', w)
            then |s'.workers[w].jobs| <= Targets(s') && Work(s', w) < Work(s, w) && s'.rounds == s.rounds
            else s'.workers[w] == Waiting && w < |s'.rounds| && s'.rounds[w] == s.rounds[w] + 1
  {
    var jobs := s.workers[w].jobs;
    t, err := 0, false;
    if |jobs| < Targets(s) {
      s' := s.(workers := s.workers[w := Round(jobs + [Building])]);
      JobsWorkAppend(jobs, Building);
      assert Spawn(s, s', w);
    } else if j: nat :| j < |jobs| && jobs[j] != Finished {
      t := j;
      match jobs[t] {
        case Building =>
          var next := if s.buildable[t] then Requesting else Finished;
          s' := WithJob(s, w, t, next);
          JobsWorkUpdate(jobs, t, next);
          assert Build(s, s', w, t);
        case Requesting =>
          s' := WithJob(s, w, t, Counted(err)).(
                  sent := s.sent[t := s.sent[t] + 1],
                  own := s.own[w := s.own[w][t := s.own[w][t] + 1]],
                  log := s.log + [Response(t, err)]);
          JobsWorkUpdate(jobs, t, Counted(err));
          assert Respond(s, s', w, t, err);
        case Counted(e) =>
          err := e;
          s' := if err
                then WithJob(s, w, t, Finished).(
                       failed := s.failed[t := s.failed[t] + 1],
                       ownFailed := s.ownFailed[w := s.ownFailed[w][t := s.ownFailed[w][t] + 1]])
                else WithJob(s, w, t, Finished);
          JobsWorkUpdate(jobs, t, Finished);
          assert Finish(s, s', w, t, err);
      }
    } else {
      s' := s.(workers := s.workers[w := Waiting], rounds := s.rounds[w := s.rounds[w] + 1]);
      assert EndRound(s, s', w);
    }
  }

  // From every state in which a worker is in a round, there are steps of this
  // worker alone, as many as client.Do returns allow, that finish the round.
  lemma {:induction false} RoundCanFinish(s: State, w: nat) returns (path: seq<State>)
    requires Inv(s) && InRound(s, w)
    ensures |path| > 0 && path[0] == s
    ensures forall i :: 0 <= i < |path| - 1 ==> Next(path[i], path[i + 1])
    ensures var last := path[|path| - 1];
            && w < |last.workers| && last.workers[w] == Waiting
            && w < |last.rounds| && last.rounds[w] == s.rounds[w] + 1
    decreases Work(s, w)
  {
    var s', t, err := WorkerMoves(s, w);
    StepKeepsInv(s, s', w, t, err);
    assert Next(s, s');
    hide Inv, Step;
    if InRound(s', w) {
      var rest := RoundCanFinish(s', w);
      path := [s] + rest;
    } else {
      path := [s, s'];
    }
  }

  // A worker that waits can leave, or run a whole round and wait again.
  lemma WaitingCanGoOn(s: State, w: nat) returns (path: seq<State>, gone: State)
    requires Inv(s) && w < |s.workers| && s.workers[w] == Waiting
    ensures Next(s, gone) && gone.workers == s.workers[w := Stopped] && gone.sent == s.sent && gone.failed == s.failed
    ensures |path| > 0 && path[0] == s
    ensures forall i :: 0 <= i < |path| - 1 ==> Next(path[i], path[i + 1])
    ensures var last := path[|path| - 1];
            && w < |last.workers| && last.workers[w] == Waiting
            && w < |last.rounds| && last.rounds[w] == s.rounds[w] + 1
  {
    gone := s.(workers := s.workers[w := Stopped]);
    assert Step(s, gone, w, 0, false);
    var started := s.(workers := s.workers[w := Round([])]);
    assert Step(s, started, w, 0, false);
    StepKeepsInv(s, started, w, 0, false);
    hide Inv, Step;
    var rest := RoundCanFinish(started, w);
    path := [s] + rest;
  }

  // ---- what lockstep promises ----------------------------------------------

  function InRoundCount(workers: seq<Worker>): nat {
    if workers == [] then 0 else (if workers[0].Round? then 1 else 0) + InRoundCount(workers[1..])
  }

  lemma {:induction false} InRoundAtMost(workers: seq<Worker>)
    ensures InRoundCount(workers) <= |workers|
  {
    if workers != [] {
      InRoundAtMost(workers[1..]);
    }
  }

  // Rows that differ by at most one where a worker is in a round, and not at
  // all elsewhere, add up to columns that differ by at most those workers.
  lemma {:induction false} ColumnsClose(rows: seq<seq<nat>>, workers: seq<Worker>, t: nat, u: nat)
    requires |rows| == |workers|
    requires forall w :: 0 <= w < |rows| ==> t < |rows[w]| && u < |rows[w]|
    requires forall w :: 0 <= w < |rows| ==>
               rows[w][t] <= rows[w][u] + (if workers[w].Round? then 1 else 0)
    ensures Column(rows, t) <= Column(rows, u) + InRoundCount(workers)
  {
    if rows != [] {
      ColumnsClose(rows[1..], workers[1..], t, u);
    }
  }

  lemma {:induction false} ColumnsOrdered(rows: seq<seq<nat>>, bounds: seq<seq<nat>>, t: nat)
    requires |rows| == |bounds|
    requires forall w :: 0 <= w < |rows| ==> t < |rows[w]| && t < |bounds[w]| && rows[w][t] <= bounds[w][t]
    ensures Column(rows, t) <= Column(bounds, t)
  {
    if rows != [] {
      ColumnsOrdered(rows[1..], bounds[1..], t);
    }
  }

  // In every reachable state: two targets for which requests can be built have
  // been sent numbers of requests that differ by no more than the workers now
  // in a round; a target fails no more often than it is sent; and a worker
  // between rounds has sent each such target one request per round.
  lemma LockstepSafety(run: seq<State>, i: nat)
    requires IsRun(run) && i < |run|
    ensures var s := run[i];
            && Shape(s)
            && (forall t, u :: 0 <= t < Targets(s) && 0 <= u < Targets(s) && s.buildable[t] && s.buildable[u] ==>
                  s.sent[t] <= s.sent[u] + InRoundCount(s.workers) <= s.sent[u] + |run[0].workers|)
            && (forall t :: 0 <= t < Targets(s) ==> s.failed[t] <= s.sent[t])
            && (forall w, t :: 0 <= w < |s.workers| && !s.workers[w].Round? && 0 <= t < Targets(s) && s.buildable[t] ==>
                  s.own[w][t] == s.rounds[w])
            && (forall t :: 0 <= t < Targets(s) && !s.buildable[t] ==> s.sent[t] == 0)
  {
    RunKeepsInv(run, i);
    var s := run[i];
    InRoundAtMost(s.workers);
    forall t, u | 0 <= t < Targets(s) && 0 <= u < Targets(s) && s.buildable[t] && s.buildable[u]
      ensures s.sent[t] <= s.sent[u] + InRoundCount(s.workers)
    {
      forall w | 0 <= w < |s.own|
        ensures s.own[w][t] <= s.own[w][u] + (if s.workers[w].Round? then 1 else 0)
      {
        assert Share(s, w, t) && Share(s, w, u);
      }
      ColumnsClose(s.own, s.workers, t, u);
    }
    forall t | 0 <= t < Targets(s)
      ensures s.failed[t] <= s.sent[t] && (!s.buildable[t] ==> s.sent[t] == 0)
    {
      forall w | 0 <= w < |s.own|
        ensures s.ownFailed[w][t] <= s.own[w][t] && (!s.buildable[t] ==> s.own[w][t] == 0)
      {
        assert Share(s, w, t);
      }
      ColumnsOrdered(s.ownFailed, s.own, t);
      if !s.buildable[t] {
        NothingYet(s.own, t);
      }
    }
    forall w, t | 0 <= w < |s.workers| && !s.workers[w].Round? && 0 <= t < Targets(s) && s.buildable[t]
      ensures s.own[w][t] == s.rounds[w]
    {
      assert Share(s, w, t);
    }
  }

  // ---- logStatus -----------------------------------------------------------

  datatype Counts = Counts(sent: int, failed: int)

  function Total(xs: seq<int>): int {
    if xs == [] then 0 else Total(xs[..|xs| - 1]) + xs[|xs| - 1]
  }

  // The loads of the targets of one host.
  function OfHost(hosts: seq<string>, xs: seq<int>, h: string): int
    requires |hosts| == |xs|
  {
    if hosts == [] then 0
    else
      OfHost(hosts[..|hosts| - 1], xs[..|xs| - 1], h) + if hosts[|hosts| - 1] == h then xs[|xs| - 1] else 0
  }

  lemma NextLoad(hosts: seq<string>, xs: seq<int>, i: nat)
    requires |hosts| == |xs| && i < |hosts|
    ensures Total(xs[..i + 1]) == Total(xs[..i]) + xs[i]
    ensures forall h :: OfHost(hosts[..i + 1], xs[..i + 1], h) ==
                        OfHost(hosts[..i], xs[..i], h) + if hosts[i] == h then xs[i] else 0
  {
    assert xs[..i + 1][..i] == xs[..i] && hosts[..i + 1][..i] == hosts[..i];
  }

  lemma {:induction false} AbsentHost(hosts: seq<string>, xs: seq<int>, h: string)
    requires |hosts| == |xs| && h !in hosts
    ensures OfHost(hosts, xs, h) == 0
  {
    if hosts != [] {
      AbsentHost(hosts[..|hosts| - 1], xs[..|xs| - 1], h);
    }
  }

  // sent[i] and failed[i] are what the i-th turn of the loop loads. Each host
  // gets the sum over its targets; order lists each host once.
  method LogStatus(hosts: seq<string>, sent: seq<int>, failed: seq<int>)
    returns (totalSent: int, totalFailed: int, byHost: map<string, Counts>, order: seq<string>)
    requires |hosts| == |sent| == |failed|
    ensures totalSent == Total(sent) && totalFailed == Total(failed)
    ensures forall h :: h in byHost <==> h in hosts
    ensures forall h :: h in byHost ==> byHost[h] == Counts(OfHost(hosts, sent, h), OfHost(hosts, failed, h))
    ensures forall h :: h in order <==> h in hosts
    ensures forall a, b :: 0 <= a < b < |order| ==> order[a] != order[b]
  {
    totalSent, totalFailed, byHost, order := 0, 0, map[], [];
    for i := 0 to |hosts|
      invariant totalSent == Total(sent[..i]) && totalFailed == Total(failed[..i])
      invariant forall h :: h in byHost <==> h in hosts[..i]
      invariant forall h :: h in byHost ==>
                  byHost[h] == Counts(OfHost(hosts[..i], sent[..i], h), OfHost(hosts[..i], failed[..i], h))
      invariant forall h :: h in order <==> h in hosts[..i]
      invariant forall a, b :: 0 <= a < b < |order| ==> order[a] != order[b]
    {
      NextLoad(hosts, sent, i);
      NextLoad(hosts, failed, i);
      var h := hosts[i];
      var s, f := sent[i], failed[i];
      totalSent := totalSent + s;
      totalFailed := totalFailed + f;
      assert hosts[..i + 1] == hosts[..i] + [h];
      if h !in byHost {
        AbsentHost(hosts[..i], sent[..i], h);
        AbsentHost(hosts[..i], failed[..i], h);
        byHost := byHost[h := Counts(0, 0)];
        order := order + [h];
      }
      var c := byHost[h];
      byHost := byHost[h := Counts(c.sent + s, c.failed + f)];
    }
    assert hosts[..|hosts|] == hosts && sent[..|sent|] == sent && failed[..|failed|] == failed;
  }

  function Across(order: seq<string>, hosts: seq<string>, xs: seq<int>): int
    requires |hosts| == |xs|
  {
    if order == [] then 0 else OfHost(hosts, xs, order[0]) + Across(order[1..], hosts, xs)
  }

  // The grand total is the sum of the lines printed for the hosts, whatever
  // order they are sorted into.
  lemma {:induction false} HostsAddUp(order: seq<string>, hosts: seq<string>, xs: seq<int>)
    requires |hosts| == |xs|
    requires forall h :: h in hosts ==> h in order
    requires forall a, b :: 0 <= a < b < |order| ==> order[a] != order[b]
    ensures Across(order, hosts, xs) == Total(xs)
    decreases |hosts|
  {
    if hosts == [] {
      AcrossNothing(order, hosts, xs);
    } else {
      var n := |hosts| - 1;
      HostsAddUp(order, hosts[..n], xs[..n]);
      assert hosts[n] in order;
      AcrossOne(order, hosts, xs);
    }
  }

  lemma {:induction false} AcrossNothing(order: seq<string>, hosts: seq<string>, xs: seq<int>)
    requires hosts == [] && xs == []
    ensures Across(order, hosts, xs) == 0
  {
    if order != [] {
      AcrossNothing(order[1..], hosts, xs);
    }
  }

  // The last target counts once, on the line of its host.
  lemma {:induction false} AcrossOne(order: seq<string>, hosts: seq<string>, xs: seq<int>)
    requires |hosts| == |xs| > 0
    requires forall a, b :: 0 <= a < b < |order| ==> order[a] != order[b]
    ensures var n := |hosts| - 1;
            Across(order, hosts, xs) == Across(order, hosts[..n], xs[..n]) + if hosts[n] in order then xs[n] else 0
    decreases |order|
  {
    if order != [] {
      AcrossOne(order[1..], hosts, xs);
    }
  }
}
