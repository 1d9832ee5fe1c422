/** The bounded worker pool of one batch as a step machine: one dispatcher, one worker
    for each job, the semaphore channel, the wait group, the result channel, the shared
    counters and the cancellation flag. A schedule is a list of actions, one for each
    atomic step that the Go runtime may pick next. */
module WorkerPool {

  datatype Options = Options(workerCount: nat, maxRetries: int)

  /** Where a job's goroutine is. `failures` is the loop variable `attempt` of the retry
      loop. The two deferred calls run last-in first-out: token first, then Done. */
  datatype Worker =
    | Idle
    | Retrying(failures: nat)
    | Returned(ok: bool)
    | Counted(ok: bool)
    | Reported(ok: bool)
    | Released(ok: bool)
    | Finished(ok: bool)

  datatype Dispatcher = Selecting | Acquired | Added | Waiting | ReturnedNil | ReturnedErr

  /** What became of a job, or of one send attempt made for it. */
  datatype Outcome = Outcome(job: nat, ok: bool)

  datatype State = State(
    dispatcher: Dispatcher,
    next: nat,               // jobs whose goroutine has been started
    workers: seq<Worker>,    // one for each job
    tokens: nat,             // elements in the workerPool channel
    group: nat,              // the WaitGroup counter
    sent: nat,               // metrics.SentEmails
    failed: nat,             // metrics.FailedEmails
    results: seq<Outcome>,   // the results channel, oldest first
    sends: seq<Outcome>,     // every send attempt, oldest first
    retryCount: seq<nat>,    // RetryCount of each job
    cancelled: bool)         // the context is done

  datatype Action =
    | Cancel
    | Acquire
    | AddToGroup
    | Spawn
    | SeeCancel
    | FinishLoop
    | WaitReturns
    | Attempt(job: nat, ok: bool)
    | GiveUp(job: nat)
    | Exhaust(job: nat)
    | Count(job: nat)
    | Report(job: nat)
    | Release(job: nat)
    | Done(job: nat)

  function Init(jobs: nat, sent: nat, failed: nat): State {
    State(Selecting, 0, seq(jobs, i => Idle), 0, 0, sent, failed, [], [], seq(jobs, i => 0), false)
  }

  /** The number of passes the retry loop can make. */
  function Budget(o: Options): nat {
    if o.maxRetries < 0 then 0 else o.maxRetries + 1
  }

  predicate HasReturned(d: Dispatcher) {
    d == ReturnedNil || d == ReturnedErr
  }

  /** Whether the action can happen now. A channel operation or a wait that would block is
      not enabled, and neither is one that would panic. */
  predicate Enabled(o: Options, s: State, a: Action) {
    match a
    case Cancel => !s.cancelled
    case Acquire => s.dispatcher == Selecting && s.next < |s.workers| && s.tokens < o.workerCount
    case AddToGroup => s.dispatcher == Acquired
    case Spawn => s.dispatcher == Added && s.next < |s.workers|
    case SeeCancel => s.dispatcher == Selecting && s.next < |s.workers| && s.cancelled
    case FinishLoop => s.dispatcher == Selecting && s.next == |s.workers|
    case WaitReturns => s.dispatcher == Waiting && s.group == 0
    case Attempt(i, _) =>
      && i < |s.workers| && i < |s.retryCount|
      && s.workers[i].Retrying? && s.workers[i].failures < Budget(o)
    case GiveUp(i) => i < |s.workers| && s.workers[i].Retrying? && s.workers[i].failures < Budget(o)
    case Exhaust(i) => i < |s.workers| && s.workers[i].Retrying? && Budget(o) <= s.workers[i].failures
    case Count(i) => i < |s.workers| && s.workers[i].Returned?
    case Report(i) => i < |s.workers| && s.workers[i].Counted? && |s.results| < |s.workers|
    case Release(i) => i < |s.workers| && s.workers[i].Reported? && 0 < s.tokens
    case Done(i) => i < |s.workers| && s.workers[i].Released? && 0 < s.group
  }

  function Move(s: State, i: nat, w: Worker): State
    requires i < |s.workers|
  {
    s.(workers := s.workers[i := w])
  }

  function Apply(o: Options, s: State, a: Action): State
    requires Enabled(o, s, a)
  {
    match a
    case Cancel => s.(cancelled := true)
    case Acquire => s.(dispatcher := Acquired, tokens := s.tokens + 1)
    case AddToGroup => s.(dispatcher := Added, group := s.group + 1)
    case Spawn => Move(s, s.next, Retrying(0)).(dispatcher := Selecting, next := s.next + 1)
    case SeeCancel => s.(dispatcher := ReturnedErr)
    case FinishLoop => s.(dispatcher := Waiting)
    case WaitReturns => s.(dispatcher := ReturnedNil)
    case Attempt(i, ok) =>
      var logged := s.(sends := s.sends + [Outcome(i, ok)]);
      if ok then Move(logged, i, Returned(true))
      else Move(logged, i, Retrying(s.workers[i].failures + 1)).(retryCount := s.retryCount[i := s.retryCount[i] + 1])
    case GiveUp(i) => Move(s, i, Returned(false))
    case Exhaust(i) => Move(s, i, Returned(false))
    case Count(i) =>
      var moved := Move(s, i, Counted(s.workers[i].ok));
      if s.workers[i].ok then moved.(sent := s.sent + 1) else moved.(failed := s.failed + 1)
    case Report(i) =>
      Move(s, i, Reported(s.workers[i].ok)).(results := s.results + [Outcome(i, s.workers[i].ok)])
    case Release(i) => Move(s, i, Released(s.workers[i].ok)).(tokens := s.tokens - 1)
    case Done(i) => Move(s, i, Finished(s.workers[i].ok)).(group := s.group - 1)
  }

  predicate Feasible(o: Options, s: State, acts: seq<Action>)
    decreases |acts|
  {
    |acts| == 0 || (Enabled(o, s, acts[0]) && Feasible(o, Apply(o, s, acts[0]), acts[1..]))
  }

  function Run(o: Options, s: State, acts: seq<Action>): State
    requires Feasible(o, s, acts)
    decreases |acts|
  {
    if |acts| == 0 then s else Run(o, Apply(o, s, acts[0]), acts[1..])
  }

  /** Running one schedule after another is running their concatenation. */
  lemma {:induction false} RunConcat(o: Options, s: State, first: seq<Action>, second: seq<Action>)
    requires Feasible(o, s, first) && Feasible(o, Run(o, s, first), second)
    ensures Feasible(o, s, first + second)
    ensures Run(o, s, first + second) == Run(o, Run(o, s, first), second)
    decreases |first|
  {
    hide Enabled, Apply;
    if |first| == 0 {
      assert first + second == second;
    } else {
      RunConcat(o, Apply(o, s, first[0]), first[1..], second);
      assert (first + second)[1..] == first[1..] + second;
    }
  }

  /** The number of successes in a list of results. */
  function Successes(results: seq<Outcome>): nat {
    if |results| == 0 then 0
    else Successes(results[..|results| - 1]) + (if results[|results| - 1].ok then 1 else 0)
  }

  // ---- Counting workers by stage ----

  datatype Tallied = Token | Member | CountedOk | CountedBad | Reports | ReportsOk | Sending

  function Weight(k: Tallied, w: Worker): nat {
    match k
    case Token => if w.Retrying? || w.Returned? || w.Counted? || w.Reported? then 1 else 0
    case Member => if w.Idle? || w.Finished? then 0 else 1
    case CountedOk => if HasCounted(w) && w.ok then 1 else 0
    case CountedBad => if HasCounted(w) && !w.ok then 1 else 0
    case Reports => if HasReported(w) then 1 else 0
    case ReportsOk => if HasReported(w) && w.ok then 1 else 0
    case Sending => if w.Retrying? then 1 else 0
  }

  predicate HasReported(w: Worker) {
    w.Reported? || w.Released? || w.Finished?
  }

  predicate HasCounted(w: Worker) {
    w.Counted? || HasReported(w)
  }

  /** The retry loop of this worker ended with a send that went through. */
  predicate Succeeded(w: Worker) {
    !w.Idle? && !w.Retrying? && w.ok
  }

  function Tally(k: Tallied, ws: seq<Worker>): nat {
    if |ws| == 0 then 0 else Tally(k, ws[..|ws| - 1]) + Weight(k, ws[|ws| - 1])
  }

  lemma {:induction false} TallyUpdate(k: Tallied, ws: seq<Worker>, i: nat, w: Worker)
    requires i < |ws|
    ensures Tally(k, ws[i := w]) + Weight(k, ws[i]) == Tally(k, ws) + Weight(k, w)
  {
    var last := |ws| - 1;
    if i < last {
      TallyUpdate(k, ws[..last], i, w);
      assert ws[i := w][..last] == ws[..last][i := w];
    } else {
      assert ws[i := w][..last] == ws[..last];
    }
  }

  lemma {:induction false} TallyAtMost(k: Tallied, ws: seq<Worker>)
    ensures Tally(k, ws) <= |ws|
    ensures (exists i | 0 <= i < |ws| :: Weight(k, ws[i]) == 0) ==> Tally(k, ws) < |ws|
    ensures (exists i | 0 <= i < |ws| :: Weight(k, ws[i]) == 1) ==> 0 < Tally(k, ws)
  {
    if |ws| > 0 {
      TallyAtMost(k, ws[..|ws| - 1]);
      forall i | 0 <= i < |ws| - 1 ensures ws[i] == ws[..|ws| - 1][i] {}
    }
  }

  lemma {:induction false} TallyAll(k: Tallied, ws: seq<Worker>, b: nat)
    requires forall i | 0 <= i < |ws| :: Weight(k, ws[i]) == b
    ensures Tally(k, ws) == b * |ws|
  {
    if |ws| > 0 {
      TallyAll(k, ws[..|ws| - 1], b);
    }
  }

  lemma {:induction false} TallySame(k: Tallied, l: Tallied, ws: seq<Worker>)
    requires forall i | 0 <= i < |ws| :: Weight(k, ws[i]) == Weight(l, ws[i])
    ensures Tally(k, ws) == Tally(l, ws)
  {
    if |ws| > 0 {
      TallySame(k, l, ws[..|ws| - 1]);
    }
  }

  /** A tally of one kind is no more than a tally of a kind that weighs each worker at least as much. */
  lemma {:induction false} TallyMonotone(k: Tallied, l: Tallied, ws: seq<Worker>)
    requires forall w: Worker :: Weight(k, w) <= Weight(l, w)
    ensures Tally(k, ws) <= Tally(l, ws)
  {
    if |ws| > 0 {
      TallyMonotone(k, l, ws[..|ws| - 1]);
    }
  }
}
