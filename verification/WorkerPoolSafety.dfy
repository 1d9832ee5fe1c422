/** What every schedule of the worker pool keeps, and what a batch has done once
    processEmailBatch returns nil. */
module WorkerPoolSafety {
  import opened WorkerPool

  /** The counters before the batch. */
  datatype Base = Base(sent: nat, failed: nat)

  ghost predicate Shape(o: Options, s: State) {
    && |s.workers| == |s.retryCount|
    && s.next <= |s.workers|
    && (forall i | 0 <= i < |s.workers| :: s.workers[i].Idle? <==> s.next <= i)
    && (s.dispatcher == Acquired || s.dispatcher == Added ==> s.next < |s.workers|)
    && (s.dispatcher == Waiting || s.dispatcher == ReturnedNil ==> s.next == |s.workers|)
    && (s.dispatcher == ReturnedErr ==> s.cancelled && s.next < |s.workers|)
  }

  /** The tokens out are those of the workers that owe a release, and of the dispatcher
      between the channel send and the start of the goroutine. */
  ghost predicate TokensHeld(o: Options, s: State) {
    && s.tokens == Tally(Token, s.workers) + (if s.dispatcher == Acquired || s.dispatcher == Added then 1 else 0)
    && s.tokens <= o.workerCount
  }

  /** The wait group counts the workers that owe a Done, and one that is about to start. */
  ghost predicate GroupCounted(s: State) {
    && s.group == Tally(Member, s.workers) + (if s.dispatcher == Added then 1 else 0)
    && (s.dispatcher == ReturnedNil ==> s.group == 0)
  }

  ghost predicate Counters(b: Base, s: State) {
    && s.sent == b.sent + Tally(CountedOk, s.workers)
    && s.failed == b.failed + Tally(CountedBad, s.workers)
  }

  /** The channel holds one report for each worker that has reported, and nothing else. */
  ghost predicate ResultsMatch(s: State) {
    && |s.results| == Tally(Reports, s.workers)
    && Successes(s.results) == Tally(ReportsOk, s.workers)
    && (forall r | r in s.results :: r.job < |s.workers|)
    && (forall i | 0 <= i < |s.workers| :: JobResultsMatch(s, i))
  }

  ghost predicate JobResultsMatch(s: State, i: nat)
    requires i < |s.workers|
  {
    var w := s.workers[i];
    && multiset(s.results)[Outcome(i, true)] == (if HasReported(w) && w.ok then 1 else 0)
    && multiset(s.results)[Outcome(i, false)] == (if HasReported(w) && !w.ok then 1 else 0)
  }

  ghost predicate JobSendsMatch(o: Options, s: State, i: nat)
    requires i < |s.workers| == |s.retryCount|
  {
    var w := s.workers[i];
    && multiset(s.sends)[Outcome(i, false)] == s.retryCount[i]
    && multiset(s.sends)[Outcome(i, true)] == (if Succeeded(w) then 1 else 0)
    && (w.Idle? ==> s.retryCount[i] == 0)
    && (w.Retrying? ==> s.retryCount[i] == w.failures)
    && s.retryCount[i] + (if Succeeded(w) then 1 else 0) <= Budget(o)
  }

  /** The attempts made for a job are its retry count plus the one send that went through. */
  ghost predicate SendsMatch(o: Options, s: State) {
    && |s.workers| == |s.retryCount|
    && (forall e | e in s.sends :: e.job < |s.workers|)
    && (forall i | 0 <= i < |s.workers| :: JobSendsMatch(o, s, i))
  }

  ghost predicate Inv(o: Options, b: Base, s: State) {
    Shape(o, s) && TokensHeld(o, s) && GroupCounted(s) && Counters(b, s) && ResultsMatch(s) && SendsMatch(o, s)
  }

  // ---- The invariant holds at the start and every step keeps it ----

  lemma InitInv(o: Options, b: Base, jobs: nat)
    ensures Inv(o, b, Init(jobs, b.sent, b.failed))
  {
    var ws := Init(jobs, b.sent, b.failed).workers;
    TallyAll(Token, ws, 0);
    TallyAll(Member, ws, 0);
    TallyAll(CountedOk, ws, 0);
    TallyAll(CountedBad, ws, 0);
    TallyAll(Reports, ws, 0);
    TallyAll(ReportsOk, ws, 0);
  }

  /** The worker that an action moves, if any, and where it goes. */
  function Moved(s: State, a: Action): nat {
    match a
    case Attempt(i, _) => i
    case GiveUp(i) => i
    case Exhaust(i) => i
    case Count(i) => i
    case Report(i) => i
    case Release(i) => i
    case Done(i) => i
    case Spawn => s.next
    case _ => |s.workers|
  }

  lemma StepTally(o: Options, s: State, a: Action, k: Tallied)
    requires Enabled(o, s, a)
    ensures var i, t := Moved(s, a), Apply(o, s, a);
            && |t.workers| == |s.workers|
            && (i < |s.workers| ==>
                  && t.workers == s.workers[i := t.workers[i]]
                  && Tally(k, t.workers) + Weight(k, s.workers[i]) == Tally(k, s.workers) + Weight(k, t.workers[i]))
            && (|s.workers| <= i ==> t.workers == s.workers)
  {
    var i, t := Moved(s, a), Apply(o, s, a);
    if i < |s.workers| {
      TallyUpdate(k, s.workers, i, t.workers[i]);
    }
  }

  lemma StepKeepsShape(o: Options, s: State, a: Action)
    requires Shape(o, s) && Enabled(o, s, a)
    ensures Shape(o, Apply(o, s, a))
  {
  }

  lemma StepKeepsTokens(o: Options, s: State, a: Action)
    requires Shape(o, s) && TokensHeld(o, s) && Enabled(o, s, a)
    ensures TokensHeld(o, Apply(o, s, a))
  {
    hide Tally, Budget;
    StepTally(o, s, a, Token);
  }

  lemma StepKeepsGroup(o: Options, s: State, a: Action)
    requires Shape(o, s) && GroupCounted(s) && Enabled(o, s, a)
    ensures GroupCounted(Apply(o, s, a))
  {
    hide Tally, Budget;
    StepTally(o, s, a, Member);
  }

  lemma StepKeepsCounters(o: Options, b: Base, s: State, a: Action)
    requires Shape(o, s) && Counters(b, s) && Enabled(o, s, a)
    ensures Counters(b, Apply(o, s, a))
  {
    hide Tally, Budget;
    StepTally(o, s, a, CountedOk);
    StepTally(o, s, a, CountedBad);
  }

  lemma Appended(log: seq<Outcome>, e: Outcome)
    ensures forall f :: multiset(log + [e])[f] == multiset(log)[f] + (if e == f then 1 else 0)
    ensures forall f :: f in log + [e] <==> f in log || f == e
  {
  }

  lemma OtherStepKeepsReports(o: Options, s: State, a: Action, i: nat)
    requires Shape(o, s) && !a.Report? && Enabled(o, s, a) && i < |s.workers|
    ensures Apply(o, s, a).results == s.results && |Apply(o, s, a).workers| == |s.workers|
    ensures var v, w := s.workers[i], Apply(o, s, a).workers[i];
            HasReported(w) == HasReported(v) && (HasReported(v) ==> w.ok == v.ok)
  {
    hide Budget, Tally;
  }

  lemma ReportKeepsJobResults(o: Options, s: State, a: Action, i: nat)
    requires Shape(o, s) && a.Report? && Enabled(o, s, a) && i < |s.workers| && JobResultsMatch(s, i)
    ensures |Apply(o, s, a).workers| == |s.workers| && JobResultsMatch(Apply(o, s, a), i)
  {
    hide Tally, Budget, Successes;
    Appended(s.results, Outcome(a.job, s.workers[a.job].ok));
    if a.job != i {
      assert Apply(o, s, a).workers[i] == s.workers[i];
    }
  }

  lemma StepKeepsJobResults(o: Options, s: State, a: Action, i: nat)
    requires Shape(o, s) && Enabled(o, s, a) && i < |s.workers| && JobResultsMatch(s, i)
    ensures |Apply(o, s, a).workers| == |s.workers| && JobResultsMatch(Apply(o, s, a), i)
  {
    hide Enabled, Apply, Shape;
    if a.Report? {
      ReportKeepsJobResults(o, s, a, i);
    } else {
      OtherStepKeepsReports(o, s, a, i);
    }
  }

  lemma ReportsAfter(o: Options, s: State, a: Action)
    requires Shape(o, s) && Enabled(o, s, a)
    ensures a.Report? ==> a.job < |s.workers| && s.workers[a.job].Counted?
    ensures Apply(o, s, a).results == s.results + (if a.Report? then [Outcome(a.job, s.workers[a.job].ok)] else [])
    ensures |Apply(o, s, a).workers| == |s.workers| && |Apply(o, s, a).retryCount| == |s.retryCount|
  {
    hide Tally, Budget;
    assert s.results + [] == s.results;
  }

  lemma TallyAfter(o: Options, s: State, a: Action)
    requires Shape(o, s) && Enabled(o, s, a)
    ensures Tally(Reports, Apply(o, s, a).workers) == Tally(Reports, s.workers) + (if a.Report? then 1 else 0)
    ensures Tally(ReportsOk, Apply(o, s, a).workers)
         == Tally(ReportsOk, s.workers) + (if a.Report? && s.workers[a.job].ok then 1 else 0)
  {
    hide Tally, Budget;
    StepTally(o, s, a, Reports);
    StepTally(o, s, a, ReportsOk);
  }

  lemma SuccessesAppend(results: seq<Outcome>, e: Outcome)
    ensures Successes(results + [e]) == Successes(results) + (if e.ok then 1 else 0)
  {
    assert (results + [e])[..|results|] == results;
  }

  /** ResultsMatch follows from its parts. */
  lemma ResultsMatchFrom(s: State)
    requires |s.results| == Tally(Reports, s.workers) && Successes(s.results) == Tally(ReportsOk, s.workers)
    requires forall r | r in s.results :: r.job < |s.workers|
    requires forall i | 0 <= i < |s.workers| :: JobResultsMatch(s, i)
    ensures ResultsMatch(s)
  {
  }

  lemma StepKeepsResults(o: Options, s: State, a: Action)
    requires Shape(o, s) && ResultsMatch(s) && Enabled(o, s, a)
    ensures ResultsMatch(Apply(o, s, a))
  {
    hide Enabled, Apply, Shape, Tally, JobResultsMatch, Successes;
    var t := Apply(o, s, a);
    ReportsAfter(o, s, a);
    TallyAfter(o, s, a);
    forall i | 0 <= i < |t.workers| ensures JobResultsMatch(t, i) {
      StepKeepsJobResults(o, s, a, i);
    }
    if a.Report? {
      var e := Outcome(a.job, s.workers[a.job].ok);
      SuccessesAppend(s.results, e);
      Appended(s.results, e);
    } else {
      assert t.results == s.results;
    }
    ResultsMatchFrom(t);
  }

  lemma AttemptKeepsJobSends(o: Options, s: State, a: Action, i: nat)
    requires Shape(o, s) && a.Attempt? && Enabled(o, s, a)
    requires i < |s.workers| && JobSendsMatch(o, s, i)
    ensures JobSendsMatch(o, Apply(o, s, a), i)
  {
    Appended(s.sends, Outcome(a.job, a.ok));
    if a.job == i {
      assert s.retryCount[i] == s.workers[i].failures < Budget(o);
    } else {
      assert Apply(o, s, a).workers[i] == s.workers[i];
    }
  }

  lemma OtherStepKeepsJobSends(o: Options, s: State, a: Action, i: nat)
    requires Shape(o, s) && !a.Attempt? && Enabled(o, s, a)
    requires i < |s.workers| && JobSendsMatch(o, s, i)
    ensures Apply(o, s, a).sends == s.sends && Apply(o, s, a).retryCount == s.retryCount
    ensures |Apply(o, s, a).workers| == |s.workers| && JobSendsMatch(o, Apply(o, s, a), i)
  {
    var t := Apply(o, s, a);
    assert t.sends == s.sends && t.retryCount == s.retryCount;
    if i != Moved(s, a) {
      assert t.workers[i] == s.workers[i];
    }
  }

  lemma StepKeepsSends(o: Options, s: State, a: Action)
    requires Shape(o, s) && SendsMatch(o, s) && Enabled(o, s, a)
    ensures SendsMatch(o, Apply(o, s, a))
  {
    var t := Apply(o, s, a);
    assert |t.workers| == |s.workers| && |t.retryCount| == |s.retryCount|;
    forall i | 0 <= i < |s.workers| ensures JobSendsMatch(o, t, i) {
      if a.Attempt? {
        AttemptKeepsJobSends(o, s, a, i);
      } else {
        OtherStepKeepsJobSends(o, s, a, i);
      }
    }
    assert forall e | e in t.sends :: e in s.sends || (a.Attempt? && e == Outcome(a.job, a.ok));
  }

  lemma StepKeepsInv(o: Options, b: Base, s: State, a: Action)
    requires Inv(o, b, s) && Enabled(o, s, a)
    ensures Inv(o, b, Apply(o, s, a))
  {
    StepKeepsShape(o, s, a);
    StepKeepsTokens(o, s, a);
    StepKeepsGroup(o, s, a);
    StepKeepsCounters(o, b, s, a);
    StepKeepsResults(o, s, a);
    StepKeepsSends(o, s, a);
  }

  lemma {:induction false} RunKeepsInv(o: Options, b: Base, s: State, acts: seq<Action>)
    requires Inv(o, b, s) && Feasible(o, s, acts)
    ensures Inv(o, b, Run(o, s, acts))
    ensures |Run(o, s, acts).workers| == |s.workers|
    decreases |acts|
  {
    if |acts| > 0 {
      StepKeepsInv(o, b, s, acts[0]);
      StepTally(o, s, acts[0], Token);
      RunKeepsInv(o, b, Apply(o, s, acts[0]), acts[1..]);
    }
  }

  /** The state that a schedule reaches from the start of a batch. */
  ghost predicate Reachable(o: Options, b: Base, jobs: nat, s: State) {
    exists acts :: Feasible(o, Init(jobs, b.sent, b.failed), acts) && s == Run(o, Init(jobs, b.sent, b.failed), acts)
  }

  lemma ReachableInv(o: Options, b: Base, jobs: nat, s: State)
    requires Reachable(o, b, jobs, s)
    ensures Inv(o, b, s) && |s.workers| == jobs
  {
    var start := Init(jobs, b.sent, b.failed);
    var acts :| Feasible(o, start, acts) && s == Run(o, start, acts);
    InitInv(o, b, jobs);
    RunKeepsInv(o, b, start, acts);
  }

  // ---- What holds in every reachable state ----

  /** At most WorkerCount tokens are out and at most that many sends are running. The wait
      group covers every token, except for the one the dispatcher holds before its Add.
      So once wg.Wait has let the dispatcher go, no token is held and nothing is sending. */
  lemma TokensBoundSends(o: Options, b: Base, jobs: nat, s: State)
    requires Reachable(o, b, jobs, s)
    ensures Tally(Sending, s.workers) <= s.tokens <= o.workerCount
    ensures s.tokens <= s.group + (if s.dispatcher == Acquired then 1 else 0)
    ensures s.dispatcher == ReturnedNil ==> s.tokens == s.group == Tally(Sending, s.workers) == 0
  {
    ReachableInv(o, b, jobs, s);
    TallyMonotone(Sending, Token, s.workers);
    TallyMonotone(Token, Member, s.workers);
  }

  /** No started worker can be held up: its next channel operation finds room or a token,
      and its Done finds a positive count. This needs nothing of the dispatcher, so it
      holds after an early cancel too. */
  lemma ChannelsNeverBlock(o: Options, b: Base, jobs: nat, s: State, i: nat)
    requires Reachable(o, b, jobs, s) && i < jobs
    ensures |s.workers| == jobs
    ensures s.workers[i].Counted? ==> |s.results| < jobs
    ensures s.workers[i].Reported? ==> 0 < s.tokens
    ensures s.workers[i].Released? ==> 0 < s.group
  {
    ReachableInv(o, b, jobs, s);
    TallyAtMost(Reports, s.workers);
    TallyAtMost(Token, s.workers);
    TallyAtMost(Member, s.workers);
  }

  lemma {:induction false} TallyCounted(ws: seq<Worker>)
    ensures Tally(CountedOk, ws) + Tally(CountedBad, ws) <= |ws|
    ensures Tally(CountedOk, ws) + Tally(CountedBad, ws) == |ws| <==> forall i | 0 <= i < |ws| :: HasCounted(ws[i])
  {
    if |ws| > 0 {
      TallyCounted(ws[..|ws| - 1]);
      forall i | 0 <= i < |ws| - 1 ensures ws[i] == ws[..|ws| - 1][i] {}
    }
  }

  /** The two counters never overtake the batch, and they account for the whole batch
      exactly when every worker has counted. */
  lemma CountersConserve(o: Options, b: Base, jobs: nat, s: State)
    requires Reachable(o, b, jobs, s)
    ensures s.sent + s.failed <= b.sent + b.failed + jobs
    ensures b.sent <= s.sent && b.failed <= s.failed
    ensures s.sent + s.failed == b.sent + b.failed + jobs <==> forall w | w in s.workers :: HasCounted(w)
  {
    ReachableInv(o, b, jobs, s);
    TallyCounted(s.workers);
    forall i | 0 <= i < |s.workers| ensures s.workers[i] in s.workers {}
  }

  /** For a batch that begins with every email so far counted: in each of its reachable states
      no more are counted than there are, its own included. */
  lemma CountedAtMostTotal(o: Options, b: Base, jobs: nat, s: State, total: nat)
    requires Reachable(o, b, jobs, s) && b.sent + b.failed == total
    ensures s.sent + s.failed <= total + jobs
    ensures s.dispatcher == ReturnedNil ==> s.sent + s.failed == total + jobs
  {
    CountersConserve(o, b, jobs, s);
    if s.dispatcher == ReturnedNil {
      BatchComplete(o, b, jobs, s);
    }
  }

  /** No step of any schedule, from whatever state, lowers a counter, takes back a result or
      an attempt, or lowers a retry count. */
  lemma {:induction false} RecordsGrow(o: Options, s: State, acts: seq<Action>)
    requires Feasible(o, s, acts) && |s.retryCount| == |s.workers|
    ensures var t := Run(o, s, acts);
            && s.sent <= t.sent && s.failed <= t.failed && s.results <= t.results && s.sends <= t.sends
            && |t.retryCount| == |s.retryCount| && forall i | 0 <= i < |s.retryCount| :: s.retryCount[i] <= t.retryCount[i]
    decreases |acts|
  {
    if |acts| > 0 {
      StepTally(o, s, acts[0], Token);
      RecordsGrow(o, Apply(o, s, acts[0]), acts[1..]);
    }
  }

  /** RetryCount is the number of failed attempts, a job is attempted at most
      MaxRetries + 1 times, an attempt that goes through is the only one that does, and a
      job that was never started is never sent. */
  lemma AttemptsBounded(o: Options, b: Base, jobs: nat, s: State, i: nat)
    requires Reachable(o, b, jobs, s) && i < jobs
    ensures |s.retryCount| == jobs && s.retryCount[i] == multiset(s.sends)[Outcome(i, false)]
    ensures multiset(s.sends)[Outcome(i, false)] + multiset(s.sends)[Outcome(i, true)] <= Budget(o)
    ensures multiset(s.sends)[Outcome(i, false)] + multiset(s.sends)[Outcome(i, true)]
         <= if o.maxRetries < 0 then 0 else o.maxRetries + 1
    ensures multiset(s.sends)[Outcome(i, true)] <= 1
    ensures s.next <= i ==> Outcome(i, true) !in s.sends && Outcome(i, false) !in s.sends
  {
    ReachableInv(o, b, jobs, s);
    assert JobSendsMatch(o, s, i);
    assert s.next <= i ==> s.workers[i].Idle?;
  }

  lemma EveryoneFinished(o: Options, b: Base, s: State)
    requires Inv(o, b, s) && s.dispatcher == ReturnedNil
    ensures forall i | 0 <= i < |s.workers| :: s.workers[i].Finished?
  {
    TallyAtMost(Member, s.workers);
    forall i | 0 <= i < |s.workers| ensures s.workers[i].Finished? {
      assert !s.workers[i].Idle?;
      assert Weight(Member, s.workers[i]) != 1;
    }
  }

  /** When processEmailBatch returns nil, the result channel holds exactly one report for
      every job and nothing else, so a loop of len(jobs) receives empties it without
      blocking. A report is a success exactly when one send of that job went through, and
      the counters have grown by exactly the reported successes and failures. */
  lemma BatchComplete(o: Options, b: Base, jobs: nat, s: State)
    requires Reachable(o, b, jobs, s) && s.dispatcher == ReturnedNil
    ensures |s.results| == jobs
    ensures forall r | r in s.results :: r.job < jobs
    ensures forall i | 0 <= i < jobs ::
              multiset(s.results)[Outcome(i, true)] + multiset(s.results)[Outcome(i, false)] == 1
    ensures forall i | 0 <= i < jobs ::
              Outcome(i, true) in s.results <==> multiset(s.sends)[Outcome(i, true)] == 1
    ensures s.sent == b.sent + Successes(s.results)
    ensures s.sent + s.failed == b.sent + b.failed + jobs
  {
    ReachableInv(o, b, jobs, s);
    EveryoneFinished(o, b, s);
    forall i | 0 <= i < |s.workers|
      ensures Weight(Reports, s.workers[i]) == 1
      ensures multiset(s.results)[Outcome(i, true)] + multiset(s.results)[Outcome(i, false)] == 1
      ensures Outcome(i, true) in s.results <==> multiset(s.sends)[Outcome(i, true)] == 1
    {
      assert JobResultsMatch(s, i) && JobSendsMatch(o, s, i);
      assert Outcome(i, true) in s.results <==> Outcome(i, true) in multiset(s.results);
    }
    TallyAll(Reports, s.workers, 1);
    TallySame(CountedOk, ReportsOk, s.workers);
    CountersConserve(o, b, jobs, s);
  }

  /** A batch that returns nil without a new failure has sent every job exactly once. */
  lemma NoFailureMeansAllSent(o: Options, b: Base, jobs: nat, s: State)
    requires Reachable(o, b, jobs, s) && s.dispatcher == ReturnedNil && s.failed == b.failed
    ensures forall i | 0 <= i < jobs :: multiset(s.sends)[Outcome(i, true)] == 1
  {
    ReachableInv(o, b, jobs, s);
    EveryoneFinished(o, b, s);
    TallyAtMost(CountedBad, s.workers);
    forall i | 0 <= i < jobs ensures multiset(s.sends)[Outcome(i, true)] == 1 {
      assert JobSendsMatch(o, s, i);
      assert Weight(CountedBad, s.workers[i]) != 1;
    }
  }
}
