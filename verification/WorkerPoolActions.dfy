/** What a batch does, told by the actions in its schedule. */
module WorkerPoolActions {
  import opened WorkerPool
  import opened WorkerPoolSafety
  import opened WorkerPoolProgress

  // ---- Sends ----

  lemma StepSends(o: Options, s: State, a: Action, i: nat, ok: bool)
    requires Enabled(o, s, a)
    ensures multiset(Apply(o, s, a).sends)[Outcome(i, ok)]
         == multiset(s.sends)[Outcome(i, ok)] + (if a == Attempt(i, ok) then 1 else 0)
  {
    if a.Attempt? {
      Appended(s.sends, Outcome(a.job, a.ok));
    }
  }

  lemma FirstAction(acts: seq<Action>, a: Action)
    requires |acts| > 0
    ensures multiset(acts)[a] == multiset(acts[1..])[a] + (if acts[0] == a then 1 else 0)
    ensures a in acts <==> acts[0] == a || a in acts[1..]
  {
    assert acts == [acts[0]] + acts[1..];
  }

  /** The sends of a job with an outcome are the schedule's attempts of that job with that outcome. */
  lemma {:induction false} SendsAreAttempts(o: Options, s: State, acts: seq<Action>, i: nat, ok: bool)
    requires Feasible(o, s, acts)
    ensures multiset(Run(o, s, acts).sends)[Outcome(i, ok)] == multiset(s.sends)[Outcome(i, ok)] + multiset(acts)[Attempt(i, ok)]
    decreases |acts|
  {
    hide Apply, Enabled;
    if |acts| > 0 {
      StepSends(o, s, acts[0], i, ok);
      FirstAction(acts, Attempt(i, ok));
      SendsAreAttempts(o, Apply(o, s, acts[0]), acts[1..], i, ok);
    }
  }

  // ---- How the dispatcher returns ----

  lemma {:induction false} ErrorIsSeeCancel(o: Options, s: State, acts: seq<Action>)
    requires Feasible(o, s, acts) && s.dispatcher != ReturnedErr
    ensures Run(o, s, acts).dispatcher == ReturnedErr <==> SeeCancel in acts
    decreases |acts|
  {
    if |acts| > 0 {
      var a, rest := acts[0], acts[1..];
      assert acts == [a] + rest;
      if a == SeeCancel {
        ReturnIsFinal(o, Apply(o, s, a), rest);
      } else {
        ErrorIsSeeCancel(o, Apply(o, s, a), rest);
      }
    }
  }

  /** An error leaves at least the last job without a worker, so it is neither sent nor counted. */
  lemma ErrorLeavesLast(o: Options, b: Base, jobs: nat, s: State)
    requires Reachable(o, b, jobs, s) && s.dispatcher == ReturnedErr
    ensures 0 < jobs && s.cancelled && s.next < jobs
    ensures multiset(s.sends)[Outcome(jobs - 1, true)] == multiset(s.sends)[Outcome(jobs - 1, false)] == 0
    ensures s.sent + s.failed < b.sent + b.failed + jobs
  {
    ReachableInv(o, b, jobs, s);
    assert s.workers[jobs - 1].Idle? && JobSendsMatch(o, s, jobs - 1);
    CountersConserve(o, b, jobs, s);
    assert s.workers[jobs - 1] in s.workers;
  }

  lemma ErrorInActions(o: Options, b: Base, jobs: nat, acts: seq<Action>)
    requires Feasible(o, Init(jobs, b.sent, b.failed), acts)
    requires Run(o, Init(jobs, b.sent, b.failed), acts).dispatcher == ReturnedErr
    ensures 0 < jobs && Attempt(jobs - 1, true) !in acts && Attempt(jobs - 1, false) !in acts
    ensures var s := Run(o, Init(jobs, b.sent, b.failed), acts);
            s.sent + s.failed < b.sent + b.failed + jobs
  {
    var start := Init(jobs, b.sent, b.failed);
    ErrorLeavesLast(o, b, jobs, Run(o, start, acts));
    SendsAreAttempts(o, start, acts, jobs - 1, true);
    SendsAreAttempts(o, start, acts, jobs - 1, false);
    assert Attempt(jobs - 1, true) !in multiset(acts) && Attempt(jobs - 1, false) !in multiset(acts);
  }

  // ---- What is counted ----

  lemma {:induction false} CountedOnce(o: Options, s: State, acts: seq<Action>, i: nat)
    requires Feasible(o, s, acts) && i < |s.workers| && Shape(o, s)
    ensures i < |Run(o, s, acts).workers|
    ensures HasCounted(Run(o, s, acts).workers[i]) <==> HasCounted(s.workers[i]) || Count(i) in acts
    decreases |acts|
  {
    if |acts| > 0 {
      var a, rest := acts[0], acts[1..];
      assert acts == [a] + rest;
      StepCounts(o, s, a, i);
      CountedOnce(o, Apply(o, s, a), rest, i);
    }
  }

  lemma StepCounts(o: Options, s: State, a: Action, i: nat)
    requires Enabled(o, s, a) && i < |s.workers| && Shape(o, s)
    ensures Shape(o, Apply(o, s, a)) && |Apply(o, s, a).workers| == |s.workers|
    ensures HasCounted(Apply(o, s, a).workers[i]) <==> HasCounted(s.workers[i]) || a == Count(i)
  {
    StepKeepsShape(o, s, a);
  }

  /** The jobs whose worker weighs one. */
  function Weighing(k: Tallied, ws: seq<Worker>): set<nat> {
    set i: nat | i < |ws| && Weight(k, ws[i]) == 1
  }

  lemma {:induction false} TallyIsCount(k: Tallied, ws: seq<Worker>)
    ensures Tally(k, ws) == |Weighing(k, ws)|
  {
    if |ws| > 0 {
      var last := |ws| - 1;
      TallyIsCount(k, ws[..last]);
      WeighingStep(k, ws);
    }
  }

  lemma WeighingStep(k: Tallied, ws: seq<Worker>)
    requires |ws| > 0
    ensures var last := |ws| - 1;
            |Weighing(k, ws)| == |Weighing(k, ws[..last])| + Weight(k, ws[last])
  {
    var last := |ws| - 1;
    var before := Weighing(k, ws[..last]);
    assert Weight(k, ws[last]) <= 1;
    hide Weight;
    assert Weighing(k, ws) == before + (if Weight(k, ws[last]) == 1 then {last} else {});
    assert last !in before;
  }

  /** The jobs that a schedule counts as sent, and those that it counts as failed. */
  function CountedSent(acts: seq<Action>, jobs: nat): set<nat> {
    set i: nat | i < jobs && Count(i) in acts && Attempt(i, true) in acts
  }

  function CountedFailed(acts: seq<Action>, jobs: nat): set<nat> {
    set i: nat | i < jobs && Count(i) in acts && Attempt(i, true) !in acts
  }

  lemma CountersAreActions(o: Options, b: Base, jobs: nat, acts: seq<Action>)
    requires Feasible(o, Init(jobs, b.sent, b.failed), acts)
    ensures var s := Run(o, Init(jobs, b.sent, b.failed), acts);
            && s.sent == b.sent + |CountedSent(acts, jobs)|
            && s.failed == b.failed + |CountedFailed(acts, jobs)|
  {
    var start := Init(jobs, b.sent, b.failed);
    var s := Run(o, start, acts);
    InitInv(o, b, jobs);
    RunKeepsInv(o, b, start, acts);
    TallyIsCount(CountedOk, s.workers);
    TallyIsCount(CountedBad, s.workers);
    forall i: nat | i < jobs
      ensures Weight(CountedOk, s.workers[i]) == 1 <==> Count(i) in acts && Attempt(i, true) in acts
      ensures Weight(CountedBad, s.workers[i]) == 1 <==> Count(i) in acts && Attempt(i, true) !in acts
    {
      CountedOnce(o, start, acts, i);
      SendsAreAttempts(o, start, acts, i, true);
      assert JobSendsMatch(o, s, i);
      assert Attempt(i, true) in acts <==> multiset(acts)[Attempt(i, true)] > 0;
    }
    assert Weighing(CountedOk, s.workers) == CountedSent(acts, jobs);
    assert Weighing(CountedBad, s.workers) == CountedFailed(acts, jobs);
  }

  /** In every reachable state at most WorkerCount jobs are in their retry loop, and each holds
      a token. */
  lemma RunningSendsBounded(o: Options, b: Base, jobs: nat, s: State)
    requires Reachable(o, b, jobs, s)
    ensures |set i: nat | i < |s.workers| && s.workers[i].Retrying?| <= s.tokens <= o.workerCount
    ensures s.dispatcher == ReturnedNil ==> s.tokens == 0 && forall w | w in s.workers :: w.Finished?
  {
    TokensBoundSends(o, b, jobs, s);
    ReachableInv(o, b, jobs, s);
    TallyIsCount(Sending, s.workers);
    assert Weighing(Sending, s.workers) == set i: nat | i < |s.workers| && s.workers[i].Retrying?;
    if s.dispatcher == ReturnedNil {
      EveryoneFinished(o, b, s);
    }
  }

  /** When the batch returns nil every job has been counted. */
  lemma NilCountsAll(o: Options, b: Base, jobs: nat, acts: seq<Action>, i: nat)
    requires Feasible(o, Init(jobs, b.sent, b.failed), acts) && i < jobs
    requires Run(o, Init(jobs, b.sent, b.failed), acts).dispatcher == ReturnedNil
    ensures Count(i) in acts
  {
    var start := Init(jobs, b.sent, b.failed);
    InitInv(o, b, jobs);
    RunKeepsInv(o, b, start, acts);
    EveryoneFinished(o, b, Run(o, start, acts));
    CountedOnce(o, start, acts, i);
  }

  // ---- Why a job fails ----

  predicate FailedWorker(w: Worker) {
    !w.Idle? && !w.Retrying? && !w.ok
  }

  predicate NotBegun(w: Worker) {
    !FailedWorker(w) && (w.Retrying? ==> w.failures == 0)
  }

  lemma StepFails(o: Options, s: State, a: Action, i: nat)
    requires Enabled(o, s, a) && 0 <= o.maxRetries && i < |s.workers| && Shape(o, s) && NotBegun(s.workers[i])
    ensures |Apply(o, s, a).workers| == |s.workers| && Shape(o, Apply(o, s, a))
    ensures a != GiveUp(i) && a != Attempt(i, false) ==> NotBegun(Apply(o, s, a).workers[i])
  {
    StepKeepsShape(o, s, a);
  }

  /** With at least one attempt allowed, a job fails only after a failed attempt or after its
      wait or the rate limiter has given up. */
  lemma {:induction false} FailureHasCause(o: Options, s: State, acts: seq<Action>, i: nat)
    requires Feasible(o, s, acts) && 0 <= o.maxRetries && i < |s.workers| && Shape(o, s) && NotBegun(s.workers[i])
    ensures i < |Run(o, s, acts).workers|
    ensures FailedWorker(Run(o, s, acts).workers[i]) ==> GiveUp(i) in acts || Attempt(i, false) in acts
    decreases |acts|
  {
    hide Apply, Enabled, Shape, NotBegun;
    if |acts| > 0 {
      var a := acts[0];
      StepFails(o, s, a, i);
      FirstAction(acts, GiveUp(i));
      FirstAction(acts, Attempt(i, false));
      if a != GiveUp(i) && a != Attempt(i, false) {
        FailureHasCause(o, Apply(o, s, a), acts[1..], i);
      } else {
        LengthKept(o, Apply(o, s, a), acts[1..]);
      }
    } else {
      NotFailedYet(s.workers[i]);
    }
  }

  lemma NotFailedYet(w: Worker)
    requires NotBegun(w)
    ensures !FailedWorker(w)
  {
  }

  lemma {:induction false} LengthKept(o: Options, s: State, acts: seq<Action>)
    requires Feasible(o, s, acts)
    ensures |Run(o, s, acts).workers| == |s.workers|
    decreases |acts|
  {
    if |acts| > 0 {
      StepTally(o, s, acts[0], Token);
      LengthKept(o, Apply(o, s, acts[0]), acts[1..]);
    }
  }

  /** So a schedule without a cancel, a failed attempt or a giving up sends every job. */
  lemma NothingFails(o: Options, b: Base, jobs: nat, acts: seq<Action>)
    requires Feasible(o, Init(jobs, b.sent, b.failed), acts) && 0 <= o.maxRetries
    requires HasReturned(Run(o, Init(jobs, b.sent, b.failed), acts).dispatcher)
    requires forall a | a in acts :: a != Cancel && !a.GiveUp? && (a.Attempt? ==> a.ok)
    ensures Run(o, Init(jobs, b.sent, b.failed), acts).dispatcher == ReturnedNil
    ensures Run(o, Init(jobs, b.sent, b.failed), acts).failed == b.failed
  {
    var start := Init(jobs, b.sent, b.failed);
    var s := Run(o, start, acts);
    InitInv(o, b, jobs);
    RunKeepsInv(o, b, start, acts);
    NeverCancelled(o, start, acts);
    forall i: nat | i < jobs ensures Weight(CountedBad, s.workers[i]) == 0 {
      FailureHasCause(o, start, acts, i);
    }
    TallyAll(CountedBad, s.workers, 0);
  }

  lemma {:induction false} NeverCancelled(o: Options, s: State, acts: seq<Action>)
    requires Feasible(o, s, acts) && !s.cancelled && Cancel !in acts
    ensures !Run(o, s, acts).cancelled
    decreases |acts|
  {
    if |acts| > 0 {
      assert acts[0] in acts && forall a | a in acts[1..] :: a in acts;
      NeverCancelled(o, Apply(o, s, acts[0]), acts[1..]);
    }
  }

  // ---- What a cancelled dispatcher may do ----

  /** A dispatcher with jobs left starts the next one exactly when a token is free, and leaves
      exactly when the context is done; when both hold, either may happen. */
  lemma SelectChoices(o: Options, b: Base, jobs: nat, s: State)
    requires Reachable(o, b, jobs, s) && s.dispatcher == Selecting && s.next < jobs
    ensures Enabled(o, s, Acquire) <==> s.tokens < o.workerCount
    ensures Enabled(o, s, SeeCancel) <==> s.cancelled
    ensures s.cancelled ==> Apply(o, s, SeeCancel) == s.(dispatcher := ReturnedErr)
    ensures !Enabled(o, s, FinishLoop) && !Enabled(o, s, WaitReturns)
  {
    ReachableInv(o, b, jobs, s);
  }

  /** Without a worker token a batch with jobs can return only with an error, and it can do
      so as soon as the context is done. */
  lemma NoTokenNeedsCancel(o: Options, b: Base, jobs: nat)
    requires o.workerCount == 0 && 0 < jobs
    ensures forall s | Reachable(o, b, jobs, s) :: s.dispatcher == Selecting || s.dispatcher == ReturnedErr
    ensures exists s :: Reachable(o, b, jobs, s) && s.dispatcher == ReturnedErr && s.next == 0
  {
    var start := Init(jobs, b.sent, b.failed);
    forall s | Reachable(o, b, jobs, s) ensures s.dispatcher == Selecting || s.dispatcher == ReturnedErr {
      var acts :| Feasible(o, start, acts) && s == Run(o, start, acts);
      NoTokenStays(o, start, acts);
    }
    var s1 := Apply(o, start, Cancel);
    var s2 := Apply(o, s1, SeeCancel);
    assert [Cancel, SeeCancel][1..] == [SeeCancel] && [SeeCancel][1..] == [];
    assert Feasible(o, s1, [SeeCancel]) && Run(o, s1, [SeeCancel]) == s2;
    assert Feasible(o, start, [Cancel, SeeCancel]) && Run(o, start, [Cancel, SeeCancel]) == s2;
    assert Reachable(o, b, jobs, s2);
  }

  lemma {:induction false} NoTokenStays(o: Options, s: State, acts: seq<Action>)
    requires Feasible(o, s, acts) && o.workerCount == 0 && s.next < |s.workers|
    requires s.dispatcher == Selecting || s.dispatcher == ReturnedErr
    ensures Run(o, s, acts).dispatcher == Selecting || Run(o, s, acts).dispatcher == ReturnedErr
    decreases |acts|
  {
    if |acts| > 0 {
      StepTally(o, s, acts[0], Token);
      NoTokenStays(o, Apply(o, s, acts[0]), acts[1..]);
    }
  }
}
