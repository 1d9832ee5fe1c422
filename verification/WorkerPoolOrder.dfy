/** The order of results. The drain loop reports the i-th result it receives under the name
    of the i-th job, so the names are right only if results arrive in job order. */
module WorkerPoolOrder {
  import opened WorkerPool
  import opened WorkerPoolSafety
  import opened WorkerPoolProgress
  import opened Retry

  /** The i-th result is a failure exactly when job i has failed. */
  predicate NamesRight(results: seq<Outcome>) {
    forall i | 0 <= i < |results| :: results[i].ok <==> Outcome(i, true) in results
  }

  // ---- One token: results arrive in job order ----

  /** Only the job started last can still owe its report, and then no token is free. */
  ghost predicate InOrder(s: State) {
    && s.next <= |s.workers|
    && (forall k | 0 <= k < |s.results| :: s.results[k].job == k)
    && (forall i | 0 <= i < s.next - 1 :: HasReported(s.workers[i]))
    && (s.dispatcher == Acquired || s.dispatcher == Added ==> |s.results| == s.next)
    && |s.results| == (if 0 < s.next && !HasReported(s.workers[s.next - 1]) then s.next - 1 else s.next)
  }

  lemma ReportKeepsOrder(o: Options, s: State, a: Action)
    requires Shape(o, s) && InOrder(s) && a.Report? && Enabled(o, s, a)
    ensures InOrder(Apply(o, s, a))
  {
    hide Tally, Budget;
    assert a.job == s.next - 1;
  }

  lemma WorkerStepKeepsOrder(o: Options, s: State, a: Action)
    requires InOrder(s) && !a.Report? && !a.Spawn? && Enabled(o, s, a) && Moved(s, a) < |s.workers|
    ensures InOrder(Apply(o, s, a))
  {
    hide Tally, Budget;
    var i, t := Moved(s, a), Apply(o, s, a);
    assert t.next == s.next && t.results == s.results && t.dispatcher == s.dispatcher;
    assert t.workers == s.workers[i := t.workers[i]] && (HasReported(t.workers[i]) <==> HasReported(s.workers[i]));
    hide Enabled, Apply, Moved, HasReported;
  }

  lemma OtherStepKeepsOrder(o: Options, s: State, a: Action)
    requires Shape(o, s) && InOrder(s) && !a.Report? && !a.Acquire? && Enabled(o, s, a)
    ensures InOrder(Apply(o, s, a))
  {
    hide Tally, Budget;
    if !a.Spawn? && Moved(s, a) < |s.workers| {
      WorkerStepKeepsOrder(o, s, a);
    }
  }

  /** A token is free only when the job started last has released its own. */
  lemma AcquireKeepsOrder(o: Options, s: State)
    requires Shape(o, s) && TokensHeld(o, s) && o.workerCount <= 1
    requires InOrder(s) && Enabled(o, s, Acquire)
    ensures InOrder(Apply(o, s, Acquire))
  {
    TallyAtMost(Token, s.workers);
    if 0 < s.next {
      assert !s.workers[s.next - 1].Idle? && Weight(Token, s.workers[s.next - 1]) == 0;
    }
  }

  lemma StepKeepsOrder(o: Options, s: State, a: Action)
    requires Shape(o, s) && TokensHeld(o, s) && o.workerCount <= 1
    requires InOrder(s) && Enabled(o, s, a)
    ensures InOrder(Apply(o, s, a))
  {
    hide *;
    if a.Report? {
      ReportKeepsOrder(o, s, a);
    } else if a.Acquire? {
      AcquireKeepsOrder(o, s);
    } else {
      OtherStepKeepsOrder(o, s, a);
    }
  }

  lemma {:induction false} RunKeepsOrder(o: Options, b: Base, s: State, acts: seq<Action>)
    requires Inv(o, b, s) && InOrder(s) && o.workerCount <= 1 && Feasible(o, s, acts)
    ensures InOrder(Run(o, s, acts))
    decreases |acts|
  {
    if |acts| > 0 {
      StepKeepsInv(o, b, s, acts[0]);
      StepKeepsOrder(o, s, acts[0]);
      hide Enabled, Apply, InOrder, Inv;
      RunKeepsOrder(o, b, Apply(o, s, acts[0]), acts[1..]);
    }
  }

  lemma OneTokenNamesRight(o: Options, b: Base, jobs: nat, s: State)
    requires Reachable(o, b, jobs, s) && o.workerCount <= 1
    ensures NamesRight(s.results)
  {
    var start := Init(jobs, b.sent, b.failed);
    var acts :| Feasible(o, start, acts) && s == Run(o, start, acts);
    InitInv(o, b, jobs);
    RunKeepsOrder(o, b, start, acts);
    forall i | 0 <= i < |s.results| ensures s.results[i].ok <==> Outcome(i, true) in s.results {
      assert s.results[i].job == i;
      assert s.results[i] in s.results;
    }
  }

  // ---- Two tokens: they need not ----

  lemma NotEnded(o: Options, b: Base, s: State)
    requires Inv(o, b, s) && !s.cancelled && s.dispatcher != ReturnedNil
    ensures !Final(s)
  {
  }

  lemma StillGoing(o: Options, s: State, a: Action)
    requires Enabled(o, s, a) && a != Cancel && !s.cancelled
    ensures !Apply(o, s, a).cancelled && s.results <= Apply(o, s, a).results
  {
  }

  lemma OneMore(o: Options, s: State, a: Action, rest: seq<Action>)
    requires Enabled(o, s, a) && Feasible(o, Apply(o, s, a), rest)
    ensures Feasible(o, s, [a] + rest) && Run(o, s, [a] + rest) == Run(o, Apply(o, s, a), rest)
  {
    assert ([a] + rest)[1..] == rest;
  }

  /** A batch that is not cancelled can always be carried on until it returns nil, and the
      results received so far stay in front. */
  lemma {:induction false} CanComplete(o: Options, b: Base, s: State) returns (acts: seq<Action>)
    requires Inv(o, b, s) && 1 <= o.workerCount && !s.cancelled
    ensures Feasible(o, s, acts) && Run(o, s, acts).dispatcher == ReturnedNil
    ensures s.results <= Run(o, s, acts).results
    decreases Measure(o, s)
  {
    if s.dispatcher == ReturnedNil {
      return [];
    }
    hide *;
    NotEnded(o, b, s);
    var a := ProgramCanStep(o, b, s);
    StepKeepsInv(o, b, s, a);
    StepDecreases(o, s, a);
    StillGoing(o, s, a);
    var rest := CanComplete(o, b, Apply(o, s, a));
    OneMore(o, s, a, rest);
    acts := [a] + rest;
  }

  /** Two jobs are under way. Every attempt for the second fails and it has reported before
      the first has been sent. Nothing is cancelled on the way. */
  lemma OvertakenState(o: Options, b: Base, jobs: nat) returns (s: State)
    requires 2 <= o.workerCount && 2 <= jobs && 0 <= o.maxRetries
    ensures Reachable(o, b, jobs, s) && !s.cancelled
    ensures s.results == [Outcome(1, false), Outcome(0, true)]
  {
    hide Tally, Weight, RetryActions, Admitted;
    var start := Init(jobs, b.sent, b.failed);
    var s3, acts3 := StartJob(o, start, [], start);
    var s6, acts6 := StartJob(o, start, acts3, s3);
    var tried, triedActs := AllAttemptsFail(o, start, acts6, s6, 1);
    var s8, acts8 := Steps2(o, start, triedActs, tried, Count(1), Report(1));
    var s11, acts11 := Steps3(o, start, acts8, s8, Attempt(0, true), Count(0), Report(0));
    s := s11;
  }

  /** A job whose sends all fail runs through its retries and returns an error. */
  lemma AllAttemptsFail(o: Options, start: State, acts: seq<Action>, s: State, i: nat) returns (t: State, all: seq<Action>)
    requires Feasible(o, start, acts) && Run(o, start, acts) == s
    requires i < |s.workers| == |s.retryCount| && s.workers[i] == Retrying(0)
    ensures Feasible(o, start, all) && Run(o, start, all) == t
    ensures t == s.(workers := s.workers[i := Returned(false)], sends := t.sends, retryCount := t.retryCount)
    ensures |t.retryCount| == |s.retryCount|
    ensures 0 <= o.maxRetries ==> t.retryCount[i] == s.retryCount[i] + o.maxRetries + 1
  {
    var e := Outside(j => true, j => true, j => false);
    LoopRunsInPool(o, e, s, i, 0);
    assert !GoesThrough(Budget(o), e, 0);
    RunConcat(o, start, acts, RetryActions(o, e, i, 0));
    all := acts + RetryActions(o, e, i, 0);
    t := Run(o, s, RetryActions(o, e, i, 0));
  }

  /** MaxRetries + 1 failed attempts for one job is a state that the pool can reach, so the
      bound on attempts is met. */
  lemma AttemptsAttained(o: Options, b: Base, jobs: nat) returns (s: State)
    requires 1 <= o.workerCount && 1 <= jobs && 0 <= o.maxRetries
    ensures Reachable(o, b, jobs, s) && !s.cancelled
    ensures multiset(s.sends)[Outcome(0, false)] == o.maxRetries + 1
  {
    hide Tally, Weight, RetryActions, Admitted;
    var start := Init(jobs, b.sent, b.failed);
    var s3, acts3 := StartJob(o, start, [], start);
    var tried, all := AllAttemptsFail(o, start, acts3, s3, 0);
    s := tried;
    assert Reachable(o, b, jobs, s);
    AttemptsBounded(o, b, jobs, s, 0);
    ReachableInv(o, b, jobs, s);
    assert JobSendsMatch(o, s, 0);
  }

  lemma OneStep(o: Options, start: State, acts: seq<Action>, s: State, a: Action) returns (t: State, all: seq<Action>)
    requires Feasible(o, start, acts) && Run(o, start, acts) == s && Enabled(o, s, a)
    ensures Feasible(o, start, all) && Run(o, start, all) == t == Apply(o, s, a)
  {
    hide Enabled, Apply;
    t := Apply(o, s, a);
    OneMore(o, s, a, []);
    assert [a] + [] == [a];
    RunConcat(o, start, acts, [a]);
    all := acts + [a];
  }

  lemma Steps2(o: Options, start: State, acts: seq<Action>, s: State, a: Action, b: Action) returns (t: State, all: seq<Action>)
    requires Feasible(o, start, acts) && Run(o, start, acts) == s
    requires Enabled(o, s, a) && Enabled(o, Apply(o, s, a), b)
    ensures Feasible(o, start, all) && Run(o, start, all) == t
    ensures t == Apply(o, Apply(o, s, a), b)
  {
    hide *;
    var t1, one := OneStep(o, start, acts, s, a);
    t, all := OneStep(o, start, one, t1, b);
  }

  lemma Steps3(o: Options, start: State, acts: seq<Action>, s: State, a: Action, b: Action, c: Action)
    returns (t: State, all: seq<Action>)
    requires Feasible(o, start, acts) && Run(o, start, acts) == s
    requires Enabled(o, s, a) && Enabled(o, Apply(o, s, a), b) && Enabled(o, Apply(o, Apply(o, s, a), b), c)
    ensures Feasible(o, start, all) && Run(o, start, all) == t
    ensures t == Apply(o, Apply(o, Apply(o, s, a), b), c)
  {
    hide *;
    var t1, one := OneStep(o, start, acts, s, a);
    t, all := Steps2(o, start, one, t1, b, c);
  }

  lemma StartJob(o: Options, start: State, acts: seq<Action>, s: State) returns (t: State, all: seq<Action>)
    requires Feasible(o, start, acts) && Run(o, start, acts) == s
    requires s.dispatcher == Selecting && s.next < |s.workers| && s.tokens < o.workerCount
    ensures Feasible(o, start, all) && Run(o, start, all) == t
    ensures t == s.(tokens := s.tokens + 1, group := s.group + 1, next := s.next + 1,
                    workers := s.workers[s.next := Retrying(0)])
  {
    t, all := Steps3(o, start, acts, s, Acquire, AddToGroup, Spawn);
  }

  lemma OvertakingMisnames(o: Options, b: Base, jobs: nat) returns (t: State)
    requires 2 <= o.workerCount && 2 <= jobs && 0 <= o.maxRetries
    ensures Reachable(o, b, jobs, t) && t.dispatcher == ReturnedNil && !NamesRight(t.results)
  {
    var s := OvertakenState(o, b, jobs);
    ReachableInv(o, b, jobs, s);
    var rest := CanComplete(o, b, s);
    t := Run(o, s, rest);
    var start := Init(jobs, b.sent, b.failed);
    var acts :| Feasible(o, start, acts) && s == Run(o, start, acts);
    RunConcat(o, start, acts, rest);
    assert t.results[0] == s.results[0] && t.results[1] == s.results[1];
    assert t.results[1] in t.results;
  }

  /** In every run that returns nil the failure log names the users whose email has failed,
      if and only if there is at most one worker token, or at most one job, or no attempt is
      ever made. */
  lemma NamesRightExactly(o: Options, b: Base, jobs: nat)
    ensures (forall s :: Reachable(o, b, jobs, s) && s.dispatcher == ReturnedNil ==> NamesRight(s.results))
       <==> o.workerCount <= 1 || jobs <= 1 || o.maxRetries < 0
  {
    if 2 <= o.workerCount && 2 <= jobs && 0 <= o.maxRetries {
      var t := OvertakingMisnames(o, b, jobs);
    } else {
      forall s | Reachable(o, b, jobs, s) && s.dispatcher == ReturnedNil ensures NamesRight(s.results) {
        if o.workerCount <= 1 {
          OneTokenNamesRight(o, b, jobs, s);
        } else {
          BatchComplete(o, b, jobs, s);
          FewNamesRight(o, b, jobs, s);
        }
      }
    }
  }

  lemma FewNamesRight(o: Options, b: Base, jobs: nat, s: State)
    requires Reachable(o, b, jobs, s) && s.dispatcher == ReturnedNil && (jobs <= 1 || o.maxRetries < 0)
    ensures NamesRight(s.results)
  {
    BatchComplete(o, b, jobs, s);
    forall i | 0 <= i < |s.results| ensures s.results[i].ok <==> Outcome(i, true) in s.results {
      var r := s.results[i];
      assert r in s.results;
      if o.maxRetries < 0 {
        AttemptsBounded(o, b, jobs, s, i);
        AttemptsBounded(o, b, jobs, s, r.job);
        assert r == Outcome(r.job, r.ok);
      } else {
        assert s.results == [r] && r.job == 0;
      }
    }
  }
}
