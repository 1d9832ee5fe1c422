/** Progress of the worker pool: when a batch can get stuck, how long a run can be, and what
    becomes of started workers after the dispatcher has left. */
module WorkerPoolProgress {
  import opened WorkerPool
  import opened WorkerPoolSafety

  predicate AtRest(w: Worker) {
    w.Idle? || w.Finished?
  }

  /** The dispatcher has returned and no goroutine is left. */
  predicate Final(s: State) {
    HasReturned(s.dispatcher) && forall i | 0 <= i < |s.workers| :: AtRest(s.workers[i])
  }

  /** Nothing but an outside cancellation can happen. */
  ghost predicate Stuck(o: Options, s: State) {
    forall a :: Enabled(o, s, a) ==> a == Cancel
  }

  // ---- Started workers ----

  function NextOfWorker(o: Options, w: Worker, i: nat): Action
    requires !AtRest(w)
  {
    match w
    case Retrying(failures) => if failures < Budget(o) then Attempt(i, true) else Exhaust(i)
    case Returned(_) => Count(i)
    case Counted(_) => Report(i)
    case Reported(_) => Release(i)
    case Released(_) => Done(i)
  }

  lemma WorkerCanStep(o: Options, b: Base, s: State, i: nat)
    requires Inv(o, b, s) && i < |s.workers| && !AtRest(s.workers[i])
    ensures Enabled(o, s, NextOfWorker(o, s.workers[i], i))
  {
    TallyAtMost(Reports, s.workers);
    TallyAtMost(Token, s.workers);
    TallyAtMost(Member, s.workers);
  }

  /** An action that worker i takes itself. */
  predicate Own(a: Action, i: nat) {
    match a
    case Attempt(j, _) => j == i
    case GiveUp(j) => j == i
    case Exhaust(j) => j == i
    case Count(j) => j == i
    case Report(j) => j == i
    case Release(j) => j == i
    case Done(j) => j == i
    case _ => false
  }

  lemma OwnStepAdvances(o: Options, s: State, a: Action, i: nat)
    requires Enabled(o, s, a) && Own(a, i)
    ensures i < |s.workers| == |Apply(o, s, a).workers|
    ensures WorkerRank(o, Apply(o, s, a).workers[i]) < WorkerRank(o, s.workers[i])
    ensures Apply(o, s, a).dispatcher == s.dispatcher && Apply(o, s, a).next == s.next
  {
  }

  /** From any reachable state, whatever the dispatcher does and whether or not the context
      is cancelled, a started worker can run to its end by its own actions alone. */
  lemma {:induction false} StartedWorkerCanFinish(o: Options, b: Base, s: State, i: nat) returns (acts: seq<Action>)
    requires Inv(o, b, s) && i < s.next
    ensures Feasible(o, s, acts) && (forall a | a in acts :: Own(a, i))
    ensures i < |Run(o, s, acts).workers| == |s.workers| && Run(o, s, acts).workers[i].Finished?
    ensures Run(o, s, acts).dispatcher == s.dispatcher
    decreases WorkerRank(o, s.workers[i])
  {
    if s.workers[i].Finished? {
      return [];
    }
    var a := NextOfWorker(o, s.workers[i], i);
    assert Own(a, i);
    WorkerCanStep(o, b, s, i);
    StepKeepsInv(o, b, s, a);
    OwnStepAdvances(o, s, a, i);
    hide Enabled, Apply, Inv, Own, NextOfWorker, WorkerRank;
    var rest := StartedWorkerCanFinish(o, b, Apply(o, s, a), i);
    acts := [a] + rest;
    assert acts[1..] == rest;
  }

  /** After the dispatcher has returned it starts no further job. */
  lemma {:induction false} ReturnIsFinal(o: Options, s: State, acts: seq<Action>)
    requires HasReturned(s.dispatcher) && Feasible(o, s, acts)
    ensures Run(o, s, acts).dispatcher == s.dispatcher && Run(o, s, acts).next == s.next
    decreases |acts|
  {
    if |acts| > 0 {
      ReturnIsFinal(o, Apply(o, s, acts[0]), acts[1..]);
    }
  }

  // ---- When the pool can get stuck ----

  lemma ProgramCanStep(o: Options, b: Base, s: State) returns (a: Action)
    requires Inv(o, b, s) && !Final(s) && (1 <= o.workerCount || |s.workers| == 0)
    ensures Enabled(o, s, a) && a != Cancel
  {
    if i :| 0 <= i < |s.workers| && !AtRest(s.workers[i]) {
      WorkerCanStep(o, b, s, i);
      return NextOfWorker(o, s.workers[i], i);
    }
    TallyAll(Token, s.workers, 0);
    TallyAll(Member, s.workers, 0);
    match s.dispatcher
    case Selecting => a := if s.next < |s.workers| then Acquire else FinishLoop;
    case Acquired => a := AddToGroup;
    case Added => a := Spawn;
    case Waiting => a := WaitReturns;
  }

  /** No reachable state that is not final is stuck, if and only if there is at least one
      worker token or there are no jobs. */
  lemma ProgressExactly(o: Options, b: Base, jobs: nat)
    ensures (forall s :: Reachable(o, b, jobs, s) && !Final(s) ==> !Stuck(o, s)) <==> 1 <= o.workerCount || jobs == 0
  {
    if 1 <= o.workerCount || jobs == 0 {
      forall s | Reachable(o, b, jobs, s) && !Final(s) ensures !Stuck(o, s) {
        ReachableInv(o, b, jobs, s);
        var a := ProgramCanStep(o, b, s);
      }
    } else {
      var start := Init(jobs, b.sent, b.failed);
      assert Feasible(o, start, []) && start == Run(o, start, []);
      assert Reachable(o, b, jobs, start) && !Final(start) && Stuck(o, start);
    }
  }

  // ---- Every run is bounded ----

  function WorkerRank(o: Options, w: Worker): nat {
    match w
    case Idle => Budget(o) + 6
    case Retrying(failures) => 5 + (if failures < Budget(o) then Budget(o) - failures else 0)
    case Returned(_) => 4
    case Counted(_) => 3
    case Reported(_) => 2
    case Released(_) => 1
    case Finished(_) => 0
  }

  function WorkersRank(o: Options, ws: seq<Worker>): nat {
    if |ws| == 0 then 0 else WorkersRank(o, ws[..|ws| - 1]) + WorkerRank(o, ws[|ws| - 1])
  }

  lemma {:induction false} WorkersRankUpdate(o: Options, ws: seq<Worker>, i: nat, w: Worker)
    requires i < |ws|
    ensures WorkersRank(o, ws[i := w]) + WorkerRank(o, ws[i]) == WorkersRank(o, ws) + WorkerRank(o, w)
  {
    var last := |ws| - 1;
    if i < last {
      WorkersRankUpdate(o, ws[..last], i, w);
      assert ws[i := w][..last] == ws[..last][i := w];
    } else {
      assert ws[i := w][..last] == ws[..last];
    }
  }

  lemma {:induction false} WorkersRankIdle(o: Options, ws: seq<Worker>)
    requires forall i | 0 <= i < |ws| :: ws[i].Idle?
    ensures WorkersRank(o, ws) == |ws| * (Budget(o) + 6)
  {
    if |ws| > 0 {
      WorkersRankIdle(o, ws[..|ws| - 1]);
      calc {
        |ws| * (Budget(o) + 6);
        (|ws| - 1 + 1) * (Budget(o) + 6);
        (|ws| - 1) * (Budget(o) + 6) + (Budget(o) + 6);
      }
    }
  }

  function DispatcherRank(s: State): nat
    requires s.next <= |s.workers|
  {
    var left := 3 * (|s.workers| - s.next);
    match s.dispatcher
    case Selecting => left + 3
    case Acquired => left + 2
    case Added => left + 1
    case Waiting => 1
    case _ => 0
  }

  /** Jobs not yet started, plus what the workers and the dispatcher still have to do. */
  function Measure(o: Options, s: State): nat
    requires s.next <= |s.workers|
  {
    DispatcherRank(s) + WorkersRank(o, s.workers) + (if s.cancelled then 0 else 1)
  }

  lemma WorkerStepDecreases(o: Options, s: State, a: Action, i: nat)
    requires Enabled(o, s, a) && (Own(a, i) || (a.Spawn? && i == s.next))
    requires i < |s.workers| && (a.Spawn? ==> s.workers[i].Idle?)
    ensures |Apply(o, s, a).workers| == |s.workers|
    ensures WorkersRank(o, Apply(o, s, a).workers) < WorkersRank(o, s.workers)
  {
    var t := Apply(o, s, a);
    StepTally(o, s, a, Token);
    WorkersRankUpdate(o, s.workers, i, t.workers[i]);
  }

  lemma StepDecreases(o: Options, s: State, a: Action)
    requires Shape(o, s) && Enabled(o, s, a)
    ensures Shape(o, Apply(o, s, a)) && Measure(o, Apply(o, s, a)) < Measure(o, s)
  {
    var i, t := Moved(s, a), Apply(o, s, a);
    StepKeepsShape(o, s, a);
    if i < |s.workers| {
      WorkerStepDecreases(o, s, a, i);
      assert DispatcherRank(t) <= DispatcherRank(s) && t.cancelled == s.cancelled;
    } else {
      assert t.workers == s.workers;
    }
  }

  lemma {:induction false} RunBounded(o: Options, s: State, acts: seq<Action>)
    requires Shape(o, s) && Feasible(o, s, acts)
    ensures |acts| <= Measure(o, s)
    decreases |acts|
  {
    if |acts| > 0 {
      StepDecreases(o, s, acts[0]);
      RunBounded(o, Apply(o, s, acts[0]), acts[1..]);
    }
  }

  /** Every schedule of a batch is finite: at most max(MaxRetries, -1) + 10 steps for each
      job and four more. */
  lemma SchedulesBounded(o: Options, b: Base, jobs: nat, acts: seq<Action>)
    requires Feasible(o, Init(jobs, b.sent, b.failed), acts)
    ensures |acts| <= jobs * (Budget(o) + 9) + 4
  {
    var start := Init(jobs, b.sent, b.failed);
    InitInv(o, b, jobs);
    RunBounded(o, start, acts);
    WorkersRankIdle(o, start.workers);
    calc {
      jobs * (Budget(o) + 9) + 4;
      jobs * ((Budget(o) + 6) + 3) + 4;
      jobs * (Budget(o) + 6) + 3 * jobs + 4;
    }
  }

  /** With at least one worker token every schedule that cannot be carried on has ended:
      the dispatcher has returned and every started job is finished. */
  lemma MaximalSchedulesEnd(o: Options, b: Base, jobs: nat, s: State)
    requires Reachable(o, b, jobs, s) && Stuck(o, s) && 1 <= o.workerCount
    ensures Final(s)
    ensures !s.cancelled ==> s.dispatcher == ReturnedNil && forall w | w in s.workers :: w.Finished?
  {
    ReachableInv(o, b, jobs, s);
    if !Final(s) {
      var a := ProgramCanStep(o, b, s);
    }
  }
}
