/** Sending one job with retries, as the loop of processEmailWithRetry, and its place in the
    worker pool: a worker's own retry steps are exactly the runs of this loop. */
module Retry {
  import opened Backoff
  import opened WorkerPool
  import opened WorkerPoolSafety

  /** A job, updated in place by the retry loop. `token` is the verification token that the
      content links to. */
  class EmailJob {
    const recipient: nat
    const token: string
    var retryCount: nat

    constructor (recipient: nat, token: string)
      ensures this.recipient == recipient && this.token == token && retryCount == 0
    {
      this.recipient, this.token, retryCount := recipient, token, 0;
    }
  }

  /** What the outside does at each attempt: the backoff timer fires before cancellation,
      the rate limiter admits the attempt, the email client accepts the email. */
  datatype Outside = Outside(waitOk: int -> bool, limiterOk: int -> bool, sendOk: int -> bool)

  datatype Result = Sent | WaitCancelled | LimiterError | RetriesExceeded

  predicate Admitted(e: Outside, attempt: nat) {
    (0 < attempt ==> e.waitOk(attempt)) && e.limiterOk(attempt)
  }

  /** The attempt is made and fails, so the loop goes on to the next one. */
  predicate Fails(e: Outside, attempt: nat) {
    Admitted(e, attempt) && !e.sendOk(attempt)
  }

  /** The number of the attempt, counting from k, at which the loop ends: the first that does
      not fail, or the budget. */
  function Failures(budget: nat, e: Outside, k: nat): (n: nat)
    ensures k <= n && (forall j: nat | k <= j < n :: Fails(e, j))
    ensures n < budget ==> !Fails(e, n)
    ensures n <= budget || n == k
    decreases budget - k
  {
    if budget <= k || !Fails(e, k) then k else Failures(budget, e, k + 1)
  }

  /** That attempt is made and its send goes through. */
  predicate GoesThrough(budget: nat, e: Outside, k: nat) {
    var n := Failures(budget, e, k);
    n < budget && Admitted(e, n) && e.sendOk(n)
  }

  /** Attempt number k is the first whose send goes through, and every one up to it is made. */
  predicate FirstSent(e: Outside, k: int) {
    && (forall j | 0 <= j <= k :: (0 < j ==> e.waitOk(j)) && e.limiterOk(j))
    && (forall j | 0 <= j < k :: !e.sendOk(j))
    && 0 <= k && e.sendOk(k)
  }

  lemma LoopInFields(e: Outside, maxRetries: nat)
    ensures var n := Failures(maxRetries + 1, e, 0);
            && (n == maxRetries + 1 <==>
                  forall j | 0 <= j <= maxRetries :: (0 < j ==> e.waitOk(j)) && e.limiterOk(j) && !e.sendOk(j))
            && (GoesThrough(maxRetries + 1, e, 0) <==> exists k | 0 <= k <= maxRetries :: FirstSent(e, k))
            && (GoesThrough(maxRetries + 1, e, 0) ==> FirstSent(e, n))
  {
    var n := Failures(maxRetries + 1, e, 0);
    assert forall j: nat | j < n :: Fails(e, j);
    if n == maxRetries + 1 {
      forall j | 0 <= j <= maxRetries ensures (0 < j ==> e.waitOk(j)) && e.limiterOk(j) && !e.sendOk(j) {
        assert Fails(e, j);
      }
    }
    if GoesThrough(maxRetries + 1, e, 0) {
      forall j | 0 <= j <= n ensures (0 < j ==> e.waitOk(j)) && e.limiterOk(j) && (j < n ==> !e.sendOk(j)) {
        assert j < n ==> Fails(e, j);
      }
      assert FirstSent(e, n);
    }
    if k :| 0 <= k <= maxRetries && FirstSent(e, k) {
      assert !Fails(e, k);
      assert forall j: nat | j < k :: Fails(e, j);
      assert n == k;
    }
  }

  /** `sends` counts calls of sendEmail and `delays` lists the requested backoffs. The loop
      makes one failed send for each of the attempts 0 to failures - 1; the result says what
      happened at attempt number `failures`. */
  method ProcessEmailWithRetry(job: EmailJob, maxRetries: int, e: Outside)
    returns (result: Result, sends: nat, delays: seq<int>)
    modifies job
    ensures var failures := job.retryCount - old(job.retryCount);
            && 0 <= failures && sends == failures + (if result == Sent then 1 else 0)
            && (forall j: nat | j < failures :: Fails(e, j))
            && (result == Sent ==> Admitted(e, failures) && e.sendOk(failures) && |delays| == failures)
            && (result == WaitCancelled ==> 0 < failures && !e.waitOk(failures))
            && (result == LimiterError ==> (0 < failures ==> e.waitOk(failures)) && !e.limiterOk(failures))
            && (if result == RetriesExceeded then failures == Budget(Options(0, maxRetries)) else failures <= maxRetries)
    ensures sends <= Budget(Options(0, maxRetries))
    ensures job.retryCount - old(job.retryCount) == Failures(Budget(Options(0, maxRetries)), e, 0)
    ensures result == Sent <==> GoesThrough(Budget(Options(0, maxRetries)), e, 0)
    ensures var failures := job.retryCount - old(job.retryCount);
            |delays| == if result == RetriesExceeded && 0 < failures then failures - 1 else failures
    ensures 0 <= maxRetries ==>
              && (result == RetriesExceeded <==>
                    forall j | 0 <= j <= maxRetries :: (0 < j ==> e.waitOk(j)) && e.limiterOk(j) && !e.sendOk(j))
              && (result == RetriesExceeded ==> sends == maxRetries + 1 && job.retryCount == old(job.retryCount) + maxRetries + 1)
              && (result == Sent <==> exists k | 0 <= k <= maxRetries :: FirstSent(e, k))
              && (result == Sent ==> FirstSent(e, sends - 1) && job.retryCount == old(job.retryCount) + sends - 1)
    ensures maxRetries < 0 ==> result == RetriesExceeded && sends == 0 && job.retryCount == old(job.retryCount)
    ensures forall j | 0 <= j < |delays| :: delays[j] == Delay(j + 1)
    ensures |delays| <= maxRetries || |delays| == 0
    ensures |delays| <= 34 ==> Total(delays) == (Pow2(|delays|) - 1) * SECOND
  {
    hide Pow2, Total, Delay, FirstSent;
    if 0 <= maxRetries {
      LoopInFields(e, maxRetries);
    }
    ghost var budget := Budget(Options(0, maxRetries));
    sends, delays := 0, [];
    var attempt := 0;
    while attempt <= maxRetries
      invariant 0 <= attempt <= budget
      invariant sends == attempt && job.retryCount == old(job.retryCount) + attempt
      invariant |delays| == if attempt == 0 then 0 else attempt - 1
      invariant forall j | 0 <= j < |delays| :: delays[j] == Delay(j + 1)
      invariant forall j: nat | j < attempt :: Fails(e, j)
      invariant Failures(budget, e, 0) == Failures(budget, e, attempt)
    {
      if attempt > 0 {
        delays := delays + [Delay(attempt)];
        if !e.waitOk(attempt) {
          result := WaitCancelled;
          if |delays| <= 34 { TotalDelay(delays); }
          return;
        }
      }
      if !e.limiterOk(attempt) {
        result := LimiterError;
        if |delays| <= 34 { TotalDelay(delays); }
        return;
      }
      sends := sends + 1;
      if e.sendOk(attempt) {
        result := Sent;
        if |delays| <= 34 { TotalDelay(delays); }
        return;
      }
      job.retryCount := job.retryCount + 1;
      attempt := attempt + 1;
    }
    result := RetriesExceeded;
    if |delays| <= 34 { TotalDelay(delays); }
  }

  // ---- The loop as steps of a worker ----

  /** The pool actions of worker i for the attempts from number k on. */
  function RetryActions(o: Options, e: Outside, i: nat, k: nat): seq<Action>
    decreases Budget(o) - k
  {
    if Budget(o) <= k then [Exhaust(i)]
    else if !Admitted(e, k) then [GiveUp(i)]
    else if e.sendOk(k) then [Attempt(i, true)]
    else [Attempt(i, false)] + RetryActions(o, e, i, k + 1)
  }

  /** The worker has returned after so many failed sends. */
  function AfterLoop(s: State, i: nat, failures: nat, ok: bool): State
    requires i < |s.workers| == |s.retryCount|
  {
    s.(workers := s.workers[i := Returned(ok)],
       sends := s.sends + seq(failures, j => Outcome(i, false)) + (if ok then [Outcome(i, true)] else []),
       retryCount := s.retryCount[i := s.retryCount[i] + failures])
  }

  lemma FailedFirst(o: Options, s: State, i: nat, k: nat, more: nat, ok: bool)
    requires i < |s.workers| == |s.retryCount| && s.workers[i] == Retrying(k) && k < Budget(o)
    ensures var t := Apply(o, s, Attempt(i, false));
            && i < |t.workers| == |t.retryCount| && t.workers[i] == Retrying(k + 1)
            && AfterLoop(t, i, more, ok) == AfterLoop(s, i, more + 1, ok)
  {
    var t := Apply(o, s, Attempt(i, false));
    assert t.sends + seq(more, j => Outcome(i, false)) == s.sends + seq(more + 1, j => Outcome(i, false));
  }

  lemma LastStep(o: Options, s: State, a: Action, i: nat, k: nat)
    requires i < |s.workers| == |s.retryCount| && s.workers[i] == Retrying(k)
    requires if Budget(o) <= k then a == Exhaust(i) else a == GiveUp(i) || a == Attempt(i, true)
    ensures Enabled(o, s, a) && Apply(o, s, a) == AfterLoop(s, i, 0, a.Attempt?)
  {
    assert s.sends + seq(0, j => Outcome(i, false)) == s.sends;
    assert s.retryCount[i := s.retryCount[i]] == s.retryCount;
  }

  lemma OneStepRun(o: Options, s: State, a: Action)
    requires Enabled(o, s, a)
    ensures Feasible(o, s, [a]) && Run(o, s, [a]) == Apply(o, s, a)
  {
    assert [a][1..] == [];
  }

  /** A worker at the start of attempt k can take these actions. They leave it returned with
      the result of the loop, and they change nothing else but its retry count, which grows by
      the loop's failures, and the send log. */
  lemma {:induction false} LoopRunsInPool(o: Options, e: Outside, s: State, i: nat, k: nat)
    requires i < |s.workers| == |s.retryCount| && s.workers[i] == Retrying(k)
    ensures Feasible(o, s, RetryActions(o, e, i, k))
    ensures Run(o, s, RetryActions(o, e, i, k))
         == AfterLoop(s, i, Failures(Budget(o), e, k) - k, GoesThrough(Budget(o), e, k))
    decreases Budget(o) - k
  {
    hide AfterLoop, Apply;
    var acts := RetryActions(o, e, i, k);
    if k < Budget(o) && Fails(e, k) {
      assert acts[0] == Attempt(i, false) && acts[1..] == RetryActions(o, e, i, k + 1);
      var rest := Failures(Budget(o), e, k + 1) - (k + 1);
      FailedFirst(o, s, i, k, rest, GoesThrough(Budget(o), e, k));
      LoopRunsInPool(o, e, Apply(o, s, Attempt(i, false)), i, k + 1);
    } else {
      assert acts == [acts[0]];
      LastStep(o, s, acts[0], i, k);
      OneStepRun(o, s, acts[0]);
    }
  }

  // ---- A worker's steps as a run of the loop ----

  predicate IsRetryStep(a: Action, i: nat) {
    match a
    case Attempt(j, _) => j == i
    case GiveUp(j) => j == i
    case Exhaust(j) => j == i
    case _ => false
  }

  /** The retry steps of worker i in a schedule, in order. */
  function OwnRetries(acts: seq<Action>, i: nat): seq<Action> {
    if |acts| == 0 then []
    else (if IsRetryStep(acts[0], i) then [acts[0]] else []) + OwnRetries(acts[1..], i)
  }

  lemma {:induction false} NoRetryAfterReturn(o: Options, s: State, acts: seq<Action>, i: nat)
    requires Shape(o, s) && i < |s.workers| && !s.workers[i].Idle? && !s.workers[i].Retrying?
    requires Feasible(o, s, acts)
    ensures OwnRetries(acts, i) == []
    decreases |acts|
  {
    if |acts| > 0 {
      StepKeepsShape(o, s, acts[0]);
      NoRetryAfterReturn(o, Apply(o, s, acts[0]), acts[1..], i);
    }
  }

  lemma {:induction false} LaterAttemptsOnly(o: Options, e: Outside, f: Outside, i: nat, k: nat)
    requires forall j: nat | k <= j :: Admitted(e, j) == Admitted(f, j) && e.sendOk(j) == f.sendOk(j)
    ensures RetryActions(o, e, i, k) == RetryActions(o, f, i, k)
    decreases Budget(o) - k
  {
    assert Admitted(e, k) == Admitted(f, k);
    if k < Budget(o) {
      LaterAttemptsOnly(o, e, f, i, k + 1);
    }
  }

  /** What one step does to a worker in its retry loop. */
  lemma StepOfRetrying(o: Options, s: State, a: Action, i: nat, k: nat)
    requires Shape(o, s) && i < |s.workers| && s.workers[i] == Retrying(k) && Enabled(o, s, a)
    ensures var t := Apply(o, s, a);
            && Shape(o, t) && |t.workers| == |s.workers|
            && (if !IsRetryStep(a, i) then t.workers[i] == Retrying(k)
                else if a == Attempt(i, false) then k < Budget(o) && t.workers[i] == Retrying(k + 1)
                else
                  && !t.workers[i].Idle? && !t.workers[i].Retrying?
                  && (if a == Exhaust(i) then Budget(o) <= k else k < Budget(o) && (a == GiveUp(i) || a == Attempt(i, true))))
  {
    StepKeepsShape(o, s, a);
  }

  /** In whatever way a schedule interleaves the workers, the retry steps of a worker that
      has returned are the run of the retry loop for some behaviour of the outside. */
  lemma {:induction false} PoolRunsAreLoops(o: Options, s: State, acts: seq<Action>, i: nat, k: nat) returns (e: Outside)
    requires Shape(o, s) && i < |s.workers| && s.workers[i] == Retrying(k)
    requires Feasible(o, s, acts) && i < |Run(o, s, acts).workers| && !Run(o, s, acts).workers[i].Retrying?
    ensures OwnRetries(acts, i) == RetryActions(o, e, i, k)
    decreases |acts|
  {
    var a, t := acts[0], Apply(o, s, acts[0]);
    StepOfRetrying(o, s, a, i, k);
    hide Enabled, Apply, Shape;
    if !IsRetryStep(a, i) {
      e := PoolRunsAreLoops(o, t, acts[1..], i, k);
    } else if a == Attempt(i, false) {
      var later := PoolRunsAreLoops(o, t, acts[1..], i, k + 1);
      e := Outside(j => j == k || later.waitOk(j), j => j == k || later.limiterOk(j), j => j != k && later.sendOk(j));
      LaterAttemptsOnly(o, e, later, i, k + 1);
    } else {
      NoRetryAfterReturn(o, t, acts[1..], i);
      e := Outside(j => true, j => !a.GiveUp?, j => true);
    }
  }
}
