/** ProcessPendingUsers: paging through the pending users, building a job for each, running
    each batch on the worker pool and draining its results. */
module ScheduledEmails {
  import opened Paging
  import opened WorkerPool
  import opened WorkerPoolActions
  import opened WorkerPoolSafety
  import opened Retry
  import opened WorkerPoolOrder
  import opened Wrappers

  // ---- The users table and its query ----

  datatype Status = Active | Inactive | Pending

  datatype User = User(id: nat, createdAt: int, status: Status, verifiedAt: Option<int>, deletedAt: Option<int>)

  predicate IsPending(u: User) {
    u.deletedAt == None && u.verifiedAt == None && u.status == Pending
  }

  /** ORDER BY created_at ASC, id ASC. */
  predicate Before(u: User, v: User) {
    u.createdAt < v.createdAt || (u.createdAt == v.createdAt && u.id < v.id)
  }

  /** The rows that the WHERE clauses keep, each once, in the order asked for. */
  ghost predicate Selection(rows: seq<User>, table: set<User>) {
    && (forall u :: u in rows <==> u in table && IsPending(u))
    && (forall i, j | 0 <= i < j < |rows| :: Before(rows[i], rows[j]))
  }

  /** The primary key. */
  ghost predicate DistinctIds(table: set<User>) {
    forall u, v | u in table && v in table && u.id == v.id :: u == v
  }

  /** The order is total on distinct ids, so the database has no choice: every query over
      one table cuts its page from the same list. */
  lemma {:induction false} SelectionUnique(a: seq<User>, b: seq<User>)
    requires forall u :: u in a <==> u in b
    requires forall i, j | 0 <= i < j < |a| :: Before(a[i], a[j])
    requires forall i, j | 0 <= i < j < |b| :: Before(b[i], b[j])
    ensures a == b
  {
    assert b == [] || b[0] in b;
    if |a| > 0 {
      assert a[0] in b && b[0] in a;
      assert forall u | u in a :: u == a[0] || Before(a[0], u);
      assert forall u | u in b :: u == b[0] || Before(b[0], u);
      assert a[0] == b[0];
      forall u ensures u in a[1..] <==> u in b[1..] {
        assert u in a <==> u == a[0] || u in a[1..];
        assert u in b <==> u == b[0] || u in b[1..];
      }
      SelectionUnique(a[1..], b[1..]);
    }
  }

  function Ids(users: seq<User>): seq<nat> {
    seq(|users|, i requires 0 <= i < |users| => users[i].id)
  }

  ghost predicate NoRepeat(ids: seq<nat>) {
    |ids| == 0 || (ids[|ids| - 1] !in ids[..|ids| - 1] && NoRepeat(ids[..|ids| - 1]))
  }

  lemma {:induction false} NoRepeatMeans(ids: seq<nat>)
    ensures NoRepeat(ids) <==> forall i, j | 0 <= i < j < |ids| :: ids[i] != ids[j]
  {
    var n := |ids|;
    if n > 0 {
      var rest := ids[..n - 1];
      NoRepeatMeans(rest);
      assert forall i | 0 <= i < n - 1 :: rest[i] == ids[i];
      assert ids[n - 1] in rest <==> exists i | 0 <= i < n - 1 :: ids[i] == ids[n - 1];
    }
  }

  /** No user of a page occurs twice in it. */
  lemma PageNoRepeat(pending: seq<User>, from: nat, to: nat)
    requires from <= to <= |pending| && NoRepeat(Ids(pending))
    ensures NoRepeat(Ids(pending[from..to]))
  {
    NoRepeatMeans(Ids(pending));
    NoRepeatMeans(Ids(pending[from..to]));
    assert forall i | 0 <= i < to - from :: Ids(pending[from..to])[i] == Ids(pending)[from + i];
  }

  // ---- The outside of a run ----

  /** How the building of one job ends. A template failure comes after the token is stored. */
  datatype Build = NoToken | NotStored | NotRendered | Built

  /** Everything a run takes from outside: the answer to the query at each offset (None for
      an error), the outcome of each job's building, the random tokens, and the schedule that
      the runtime picks for the pool of the batch at an offset, given its number of jobs and
      the two counters before it. */
  datatype World = World(
    answer: nat -> Option<seq<User>>,
    build: nat -> Build,
    token: nat -> string,
    schedule: (nat, nat, nat, nat) -> seq<Action>)

  /** Each successful query returns a page of some ordered selection from the table. */
  ghost predicate AnswersQueries(w: World, table: set<User>, batchSize: nat) {
    forall offset | w.answer(offset).Some? ::
      exists rows :: Selection(rows, table) && w.answer(offset).value == Slice(rows, offset, batchSize)
  }

  /** Every query returns a page of this one list. */
  ghost predicate AnswersWithPages(w: World, pending: seq<User>, batchSize: nat) {
    forall offset | w.answer(offset).Some? :: w.answer(offset).value == Slice(pending, offset, batchSize)
  }

  lemma AnswerIsPage(w: World, pending: seq<User>, batchSize: nat, offset: nat)
    requires AnswersWithPages(w, pending, batchSize) && w.answer(offset).Some?
    ensures w.answer(offset).value == Slice(pending, offset, batchSize)
  {
  }

  /** While the table does not change, all queries page through one list, in which no user
      occurs twice. */
  lemma OffsetPagingIsStable(w: World, table: set<User>, pending: seq<User>, batchSize: nat)
    requires DistinctIds(table) && Selection(pending, table) && AnswersQueries(w, table, batchSize)
    ensures AnswersWithPages(w, pending, batchSize)
    ensures NoRepeat(Ids(pending))
  {
    forall offset | w.answer(offset).Some? ensures w.answer(offset).value == Slice(pending, offset, batchSize) {
      var rows :| Selection(rows, table) && w.answer(offset).value == Slice(rows, offset, batchSize);
      SelectionUnique(rows, pending);
    }
    forall i, j | 0 <= i < j < |pending| ensures Ids(pending)[i] != Ids(pending)[j] {
      assert pending[i] in table && pending[j] in table && Before(pending[i], pending[j]);
    }
    NoRepeatMeans(Ids(pending));
  }

  /** Each schedule takes only steps that can be taken, from the start of its batch, and goes
      on until the dispatcher has returned. Workers that an early cancel left behind may have
      gone on after that. */
  ghost predicate RunsPools(w: World, o: Options) {
    forall offset, jobs, sent, failed ::
      var start, acts := Init(jobs, sent, failed), w.schedule(offset, jobs, sent, failed);
      Feasible(o, start, acts) && HasReturned(Run(o, start, acts).dispatcher)
  }

  /** The context was cancelled while the batch of the users from one place to another was
      under way. */
  ghost predicate CancelledIn(w: World, from: nat, to: nat) {
    from <= to && exists sent: nat, failed: nat :: HasCancel(w, from, to, sent, failed)
  }

  predicate HasCancel(w: World, from: nat, to: nat, sent: nat, failed: nat)
    requires from <= to
  {
    sent + failed == from && Cancel in w.schedule(from, to - from, sent, failed)
  }

  lemma CancelSeen(w: World, from: nat, to: nat, sent: nat, failed: nat)
    requires from <= to && sent + failed == from && Cancel in w.schedule(from, to - from, sent, failed)
    ensures CancelledIn(w, from, to)
  {
    assert HasCancel(w, from, to, sent, failed);
  }

  /** The first of these users whose job cannot be built is the one after those whose token is
      stored, or the last of them if it was the template that failed. */
  ghost predicate StopsBuilding(w: World, users: seq<User>, stored: nat) {
    exists k | 0 <= k < |users| ::
      && w.build(users[k].id) != Built
      && (forall i | 0 <= i < k :: w.build(users[i].id) == Built)
      && stored == if w.build(users[k].id) == NotRendered then k + 1 else k
  }

  /** The same for the users from one place on; `reached` is the place after the last stored token. */
  ghost predicate StopsFrom(w: World, pending: seq<User>, from: nat, reached: nat) {
    from <= reached && from <= |pending| && StopsBuilding(w, pending[from..], reached - from)
  }

  lemma StopsInPage(w: World, pending: seq<User>, from: nat, to: nat, stored: nat)
    requires from <= to <= |pending| && StopsBuilding(w, pending[from..to], stored)
    ensures StopsFrom(w, pending, from, from + stored)
  {
    var page, rest := pending[from..to], pending[from..];
    assert forall i | 0 <= i < |page| :: page[i] == rest[i];
  }

  lemma {:induction false} CancelTaken(o: Options, s: State, acts: seq<Action>)
    requires Feasible(o, s, acts) && !s.cancelled && Run(o, s, acts).cancelled
    ensures Cancel in acts
    decreases |acts|
  {
    if acts[0] != Cancel {
      CancelTaken(o, Apply(o, s, acts[0]), acts[1..]);
    }
  }

  /** A schedule of the batch: where it leads is reachable, and the batch fails only if the
      context is cancelled on the way. */
  lemma ScheduleEnds(o: Options, b: Base, jobs: nat, acts: seq<Action>)
    requires Feasible(o, Init(jobs, b.sent, b.failed), acts)
    ensures var s := Run(o, Init(jobs, b.sent, b.failed), acts);
            Reachable(o, b, jobs, s) && (s.dispatcher == ReturnedErr ==> Cancel in acts)
  {
    var start := Init(jobs, b.sent, b.failed);
    var s := Run(o, start, acts);
    assert Reachable(o, b, jobs, s);
    ReachableInv(o, b, jobs, s);
    if s.dispatcher == ReturnedErr {
      CancelTaken(o, start, acts);
    }
  }

  // ---- Runs in which nothing goes wrong ----

  ghost predicate AllAnswered(w: World) {
    forall offset :: w.answer(offset).Some?
  }

  predicate AllBuilt(w: World, users: seq<User>) {
    forall u | u in users :: w.build(u.id) == Built
  }

  /** No dispatcher takes the cancel branch. */
  ghost predicate NeverLeaves(w: World) {
    forall offset, jobs, sent, failed :: SeeCancel !in w.schedule(offset, jobs, sent, failed)
  }

  /** Nothing is cancelled, no wait gives up and every send goes through. */
  ghost predicate NothingGoesWrong(w: World) {
    forall offset, jobs, sent, failed ::
      forall a | a in w.schedule(offset, jobs, sent, failed) :: a != Cancel && !a.GiveUp? && (a.Attempt? ==> a.ok)
  }

  // ---- The effects of a run ----

  /** A verification token stored for a user, or an email with a token handed to the client
      for that user. `batch` is the offset of the batch. */
  datatype Event =
    | Stored(batch: nat, user: nat, token: string)
    | Attempted(batch: nat, user: nat, token: string, ok: bool)

  function StoredUsers(log: seq<Event>): seq<nat> {
    if |log| == 0 then []
    else StoredUsers(log[..|log| - 1]) + (if log[|log| - 1].Stored? then [log[|log| - 1].user] else [])
  }

  lemma {:induction false} StoredUsersConcat(a: seq<Event>, b: seq<Event>)
    ensures StoredUsers(a + b) == StoredUsers(a) + StoredUsers(b)
  {
    if |b| == 0 {
      assert a + b == a;
    } else {
      StoredUsersConcat(a, b[..|b| - 1]);
      assert (a + b)[..|a + b| - 1] == a + b[..|b| - 1];
    }
  }

  /** How many attempts for a user went through (ok) or failed (not ok). */
  function Attempts(log: seq<Event>, user: nat, ok: bool): nat {
    if |log| == 0 then 0
    else
      var e := log[|log| - 1];
      Attempts(log[..|log| - 1], user, ok) + (if e.Attempted? && e.user == user && e.ok == ok then 1 else 0)
  }

  lemma {:induction false} AttemptsConcat(a: seq<Event>, b: seq<Event>, user: nat, ok: bool)
    ensures Attempts(a + b, user, ok) == Attempts(a, user, ok) + Attempts(b, user, ok)
  {
    if |b| == 0 {
      assert a + b == a;
    } else {
      AttemptsConcat(a, b[..|b| - 1], user, ok);
      assert (a + b)[..|a + b| - 1] == a + b[..|b| - 1];
    }
  }

  /** At every point of the log: an attempt uses a token that is already stored for that user
      in that batch, and a token is stored only after batches that have attempts behind them
      are left. */
  predicate TokensBeforeSends(log: seq<Event>) {
    |log| == 0 ||
    var earlier, e := log[..|log| - 1], log[|log| - 1];
    && TokensBeforeSends(earlier)
    && (e.Attempted? ==> Stored(e.batch, e.user, e.token) in earlier)
    && (e.Stored? ==> forall d | d in earlier && d.Attempted? :: d.batch < e.batch)
  }

  /** The same by position: the token of each attempt is stored before it, and all tokens of
      a batch are stored before the first attempt of the batch. */
  lemma {:induction false} TokensBeforeSendsByPosition(log: seq<Event>)
    requires TokensBeforeSends(log)
    ensures forall j | 0 <= j < |log| && log[j].Attempted? ::
              Stored(log[j].batch, log[j].user, log[j].token) in log[..j]
    ensures forall i, j | 0 <= i < j < |log| && log[i].Attempted? && log[j].Stored? :: log[i].batch != log[j].batch
  {
    if |log| > 0 {
      var last := |log| - 1;
      var earlier := log[..last];
      TokensBeforeSendsByPosition(earlier);
      forall j | 0 <= j < |log| && log[j].Attempted?
        ensures Stored(log[j].batch, log[j].user, log[j].token) in log[..j]
      {
        if j < last {
          assert earlier[j] == log[j] && earlier[..j] == log[..j];
        }
      }
      forall i, j | 0 <= i < j < |log| && log[i].Attempted? && log[j].Stored? ensures log[i].batch != log[j].batch {
        assert log[i] == earlier[i] && earlier[i] in earlier;
        assert j < last ==> log[j] == earlier[j];
      }
    }
  }

  /** The tokens stored while building jobs for these users. */
  function StoredEvents(batch: nat, users: seq<User>, w: World): seq<Event> {
    seq(|users|, i requires 0 <= i < |users| => Stored(batch, users[i].id, w.token(users[i].id)))
  }

  lemma StoredEventsExtend(batch: nat, users: seq<User>, k: nat, w: World)
    requires k < |users|
    ensures StoredEvents(batch, users[..k + 1], w)
         == StoredEvents(batch, users[..k], w) + [Stored(batch, users[k].id, w.token(users[k].id))]
  {
  }

  lemma {:induction false} StoredUsersOfBatch(batch: nat, users: seq<User>, w: World)
    ensures StoredUsers(StoredEvents(batch, users, w)) == Ids(users)
    ensures forall user, ok :: Attempts(StoredEvents(batch, users, w), user, ok) == 0
  {
    var n := |users|;
    if n > 0 {
      StoredUsersOfBatch(batch, users[..n - 1], w);
      StoredEventsExtend(batch, users, n - 1, w);
      assert users[..n] == users;
      assert StoredEvents(batch, users, w)[..n - 1] == StoredEvents(batch, users[..n - 1], w);
    }
  }

  /** The email attempts behind a pool's send log. */
  function AttemptEvents(batch: nat, jobs: seq<EmailJob>, sends: seq<Outcome>): seq<Event>
    requires forall e | e in sends :: e.job < |jobs|
  {
    if |sends| == 0 then []
    else
      var e := sends[|sends| - 1];
      AttemptEvents(batch, jobs, sends[..|sends| - 1])
      + [Attempted(batch, jobs[e.job].recipient, jobs[e.job].token, e.ok)]
  }

  lemma {:induction false} AttemptEventsOfBatch(batch: nat, jobs: seq<EmailJob>, sends: seq<Outcome>)
    requires forall e | e in sends :: e.job < |jobs|
    ensures StoredUsers(AttemptEvents(batch, jobs, sends)) == []
    ensures forall e | e in AttemptEvents(batch, jobs, sends) ::
              exists i, ok | 0 <= i < |jobs| :: e == Attempted(batch, jobs[i].recipient, jobs[i].token, ok)
  {
    if |sends| > 0 {
      AttemptEventsOfBatch(batch, jobs, sends[..|sends| - 1]);
    }
  }

  lemma AttemptsAppend(log: seq<Event>, e: Event, user: nat, ok: bool)
    ensures Attempts(log + [e], user, ok) == Attempts(log, user, ok) + (if e.Attempted? && e.user == user && e.ok == ok then 1 else 0)
  {
    assert (log + [e])[..|log|] == log;
  }

  lemma AttemptEventsStep(batch: nat, jobs: seq<EmailJob>, sends: seq<Outcome>)
    requires |sends| > 0 && forall e | e in sends :: e.job < |jobs|
    ensures var rest, e := sends[..|sends| - 1], sends[|sends| - 1];
            && (forall d | d in rest :: d.job < |jobs|)
            && AttemptEvents(batch, jobs, sends)
            == AttemptEvents(batch, jobs, rest) + [Attempted(batch, jobs[e.job].recipient, jobs[e.job].token, e.ok)]
  {
  }

  lemma {:induction false} AttemptsOfJob(batch: nat, jobs: seq<EmailJob>, sends: seq<Outcome>, i: nat, ok: bool)
    requires forall e | e in sends :: e.job < |jobs|
    requires i < |jobs| && forall j, k | 0 <= j < k < |jobs| :: jobs[j].recipient != jobs[k].recipient
    ensures Attempts(AttemptEvents(batch, jobs, sends), jobs[i].recipient, ok) == multiset(sends)[Outcome(i, ok)]
  {
    if |sends| > 0 {
      hide Attempts, AttemptEvents;
      var rest, e := sends[..|sends| - 1], sends[|sends| - 1];
      AttemptEventsStep(batch, jobs, sends);
      AttemptsAppend(AttemptEvents(batch, jobs, rest), Attempted(batch, jobs[e.job].recipient, jobs[e.job].token, e.ok),
                     jobs[i].recipient, ok);
      AttemptsOfJob(batch, jobs, rest, i, ok);
      assert sends == rest + [e];
      Appended(rest, e);
    }
  }

  lemma {:induction false} NoAttemptsElsewhere(batch: nat, jobs: seq<EmailJob>, sends: seq<Outcome>, user: nat, ok: bool)
    requires forall e | e in sends :: e.job < |jobs|
    requires forall j | 0 <= j < |jobs| :: jobs[j].recipient != user
    ensures Attempts(AttemptEvents(batch, jobs, sends), user, ok) == 0
  {
    if |sends| > 0 {
      NoAttemptsElsewhere(batch, jobs, sends[..|sends| - 1], user, ok);
    }
  }

  lemma OneMoreEvent(log: seq<Event>, e: Event)
    requires TokensBeforeSends(log)
    requires e.Attempted? ==> Stored(e.batch, e.user, e.token) in log
    requires e.Stored? ==> forall d | d in log && d.Attempted? :: d.batch < e.batch
    ensures TokensBeforeSends(log + [e])
  {
    assert (log + [e])[..|log|] == log;
  }

  lemma StoredOnly(batch: nat, users: seq<User>, w: World)
    ensures forall d | d in StoredEvents(batch, users, w) :: d.Stored?
  {
  }

  /** Storing the tokens of a later batch keeps the order of effects. */
  lemma {:induction false} StoringKeepsOrder(log: seq<Event>, batch: nat, users: seq<User>, w: World)
    requires TokensBeforeSends(log) && forall e | e in log :: e.batch < batch
    ensures TokensBeforeSends(log + StoredEvents(batch, users, w))
  {
    var n := |users|;
    if n == 0 {
      assert log + StoredEvents(batch, users, w) == log;
    } else {
      var earlier, e := StoredEvents(batch, users[..n - 1], w), Stored(batch, users[n - 1].id, w.token(users[n - 1].id));
      StoringKeepsOrder(log, batch, users[..n - 1], w);
      StoredEventsExtend(batch, users, n - 1, w);
      StoredOnly(batch, users[..n - 1], w);
      hide TokensBeforeSends, StoredEvents;
      assert users[..n] == users;
      OneMoreEvent(log + earlier, e);
      assert log + (earlier + [e]) == (log + earlier) + [e];
    }
  }

  lemma AttemptEventsExtend(batch: nat, jobs: seq<EmailJob>, sends: seq<Outcome>)
    requires |sends| > 0 && forall e | e in sends :: e.job < |jobs|
    ensures var rest, e := sends[..|sends| - 1], sends[|sends| - 1];
            && (forall f | f in rest :: f.job < |jobs|) && e.job < |jobs|
            && AttemptEvents(batch, jobs, sends)
               == AttemptEvents(batch, jobs, rest) + [Attempted(batch, jobs[e.job].recipient, jobs[e.job].token, e.ok)]
  {
    assert sends[|sends| - 1] in sends;
  }

  /** Attempts that use stored tokens keep the order of effects. */
  lemma {:induction false} AttemptingKeepsOrder(log: seq<Event>, batch: nat, jobs: seq<EmailJob>, sends: seq<Outcome>)
    requires TokensBeforeSends(log) && forall e | e in sends :: e.job < |jobs|
    requires forall j | 0 <= j < |jobs| :: Stored(batch, jobs[j].recipient, jobs[j].token) in log
    ensures TokensBeforeSends(log + AttemptEvents(batch, jobs, sends))
  {
    if |sends| == 0 {
      assert log + AttemptEvents(batch, jobs, sends) == log;
    } else {
      hide TokensBeforeSends, AttemptEvents;
      var rest, e := sends[..|sends| - 1], sends[|sends| - 1];
      AttemptEventsExtend(batch, jobs, sends);
      AttemptingKeepsOrder(log, batch, jobs, rest);
      var earlier, last := AttemptEvents(batch, jobs, rest), Attempted(batch, jobs[e.job].recipient, jobs[e.job].token, e.ok);
      OneMoreEvent(log + earlier, last);
      assert log + (earlier + [last]) == (log + earlier) + [last];
    }
  }

  /** Attempts for a user: none before its batch, no more than the retry budget, at most one
      that went through, and exactly one if the user must have been reached. */
  ghost predicate UserBudgeted(log: seq<Event>, user: nat, o: Options, begun: bool, reached: bool) {
    var good, bad := Attempts(log, user, true), Attempts(log, user, false);
    && good + bad <= Budget(o) && good <= 1
    && (!begun ==> good + bad == 0)
    && (reached ==> good == 1)
  }

  ghost predicate AttemptsBudgeted(log: seq<Event>, pending: seq<User>, done: nat, o: Options, clean: bool) {
    forall i | 0 <= i < |pending| :: UserBudgeted(log, pending[i].id, o, i < done, i < done && clean)
  }

  lemma EffectsCounted(log: seq<Event>, batch: nat, users: seq<User>, w: World, jobs: seq<EmailJob>, sends: seq<Outcome>,
                       user: nat, ok: bool)
    requires forall e | e in sends :: e.job < |jobs|
    ensures Attempts(log + StoredEvents(batch, users, w) + AttemptEvents(batch, jobs, sends), user, ok)
         == Attempts(log, user, ok) + Attempts(AttemptEvents(batch, jobs, sends), user, ok)
  {
    AttemptsConcat(log + StoredEvents(batch, users, w), AttemptEvents(batch, jobs, sends), user, ok);
    AttemptsConcat(log, StoredEvents(batch, users, w), user, ok);
    StoredUsersOfBatch(batch, users, w);
  }

  /** What a batch adds for one of its own users. */
  lemma OwnAttempts(offset: nat, jobs: seq<EmailJob>, o: Options, b: Base, s: State, k: nat)
    requires Reachable(o, b, |jobs|, s) && k < |jobs|
    requires forall i, j | 0 <= i < j < |jobs| :: jobs[i].recipient != jobs[j].recipient
    ensures forall e | e in s.sends :: e.job < |jobs|
    ensures UserBudgeted(AttemptEvents(offset, jobs, s.sends), jobs[k].recipient, o, true,
                         s.dispatcher == ReturnedNil && s.failed == 0)
  {
    ReachableInv(o, b, |jobs|, s);
    AttemptsOfJob(offset, jobs, s.sends, k, true);
    AttemptsOfJob(offset, jobs, s.sends, k, false);
    AttemptsBounded(o, b, |jobs|, s, k);
    CountersConserve(o, b, |jobs|, s);
    if s.dispatcher == ReturnedNil && s.failed == 0 {
      NoFailureMeansAllSent(o, b, |jobs|, s);
    }
  }

  lemma PageUserAdded(before: seq<Event>, added: seq<Event>, all: seq<Event>, user: nat, o: Options, clean: bool)
    requires Attempts(all, user, true) == Attempts(before, user, true) + Attempts(added, user, true)
    requires Attempts(all, user, false) == Attempts(before, user, false) + Attempts(added, user, false)
    requires UserBudgeted(before, user, o, false, false) && UserBudgeted(added, user, o, true, clean)
    ensures UserBudgeted(all, user, o, true, clean)
  {
  }

  lemma OtherUserKept(before: seq<Event>, all: seq<Event>, user: nat, o: Options, begun: bool, reached: bool, still: bool)
    requires Attempts(all, user, true) == Attempts(before, user, true)
    requires Attempts(all, user, false) == Attempts(before, user, false)
    requires UserBudgeted(before, user, o, begun, reached) && (still ==> reached)
    ensures UserBudgeted(all, user, o, begun, still)
  {
  }

  lemma PendingApart(pending: seq<User>, i: nat, j: nat)
    requires NoRepeat(Ids(pending)) && i < |pending| && j < |pending| && i != j
    ensures pending[i].id != pending[j].id
  {
    NoRepeatMeans(Ids(pending));
    assert Ids(pending)[i] == pending[i].id && Ids(pending)[j] == pending[j].id;
  }

  /** The effects of a batch, up to any state of its pool, keep the attempts budgeted. */
  lemma BatchKeepsBudget(log: seq<Event>, pending: seq<User>, offset: nat, users: seq<User>, jobs: seq<EmailJob>,
                         o: Options, before: bool, sends: seq<Outcome>, clean: bool, w: World)
    requires NoRepeat(Ids(pending))
    requires offset + |users| <= |pending| && users == pending[offset..offset + |users|]
    requires |jobs| == |users| && forall i | 0 <= i < |jobs| :: jobs[i].recipient == users[i].id
    requires AttemptsBudgeted(log, pending, offset, o, before) && (clean ==> before)
    requires forall e | e in sends :: e.job < |jobs|
    requires forall k | 0 <= k < |jobs| ::
               UserBudgeted(AttemptEvents(offset, jobs, sends), jobs[k].recipient, o, true, clean)
    ensures AttemptsBudgeted(log + StoredEvents(offset, users, w) + AttemptEvents(offset, jobs, sends), pending,
                             offset + |users|, o, clean)
  {
    hide UserBudgeted, Attempts, AttemptEvents, StoredEvents, Ids, NoRepeat;
    var added := AttemptEvents(offset, jobs, sends);
    var all := log + StoredEvents(offset, users, w) + added;
    var done := offset + |users|;
    forall i | 0 <= i < |pending| ensures UserBudgeted(all, pending[i].id, o, i < done, i < done && clean) {
      var user := pending[i].id;
      assert UserBudgeted(log, user, o, i < offset, i < offset && before);
      EffectsCounted(log, offset, users, w, jobs, sends, user, true);
      EffectsCounted(log, offset, users, w, jobs, sends, user, false);
      if offset <= i < done {
        assert jobs[i - offset].recipient == user;
        PageUserAdded(log, added, all, user, o, clean);
      } else {
        forall j | 0 <= j < |jobs| ensures jobs[j].recipient != user {
          PendingApart(pending, i, offset + j);
        }
        NoAttemptsElsewhere(offset, jobs, sends, user, true);
        NoAttemptsElsewhere(offset, jobs, sends, user, false);
        OtherUserKept(log, all, user, o, i < done, i < offset && before, i < done && clean);
      }
    }
  }

  /** Tokens stored for a batch that never starts add no attempts. */
  lemma BuildingKeepsBudget(log: seq<Event>, pending: seq<User>, offset: nat, users: seq<User>, o: Options, before: bool, w: World)
    requires AttemptsBudgeted(log, pending, offset, o, before)
    ensures AttemptsBudgeted(log + StoredEvents(offset, users, w), pending, offset + |users|, o, false)
  {
    StoredUsersOfBatch(offset, users, w);
    forall i | 0 <= i < |pending|
      ensures UserBudgeted(log + StoredEvents(offset, users, w), pending[i].id, o, i < offset + |users|, false)
    {
      assert UserBudgeted(log, pending[i].id, o, i < offset, i < offset && before);
      AttemptsConcat(log, StoredEvents(offset, users, w), pending[i].id, true);
      AttemptsConcat(log, StoredEvents(offset, users, w), pending[i].id, false);
    }
  }

  /** The order of effects, the users reached and the batches begun, for any part of a run
      that has reached the users before `done`. */
  ghost predicate EffectsOrdered(log: seq<Event>, pending: seq<User>, done: nat)
    requires done <= |pending|
  {
    && StoredUsers(log) == Ids(pending[..done])
    && TokensBeforeSends(log)
    && (forall e | e in log :: e.batch < done)
  }

  lemma StoringKeepsEffects(log: seq<Event>, pending: seq<User>, offset: nat, users: seq<User>, w: World)
    requires offset + |users| <= |pending| && users == pending[offset..offset + |users|] && EffectsOrdered(log, pending, offset)
    ensures EffectsOrdered(log + StoredEvents(offset, users, w), pending, offset + |users|)
  {
    var stored := StoredEvents(offset, users, w);
    StoringKeepsOrder(log, offset, users, w);
    StoredUsersOfBatch(offset, users, w);
    StoredUsersConcat(log, stored);
    assert Ids(pending[..offset]) + Ids(users) == Ids(pending[..offset + |users|]);
    forall e | e in log + stored ensures e.batch < offset + |users| {
      assert e in log || e in stored;
    }
  }

  lemma AttemptingKeepsEffects(log: seq<Event>, pending: seq<User>, offset: nat, users: seq<User>, jobs: seq<EmailJob>,
                               sends: seq<Outcome>, w: World)
    requires offset + |users| <= |pending| && users == pending[offset..offset + |users|] && EffectsOrdered(log, pending, offset)
    requires |jobs| == |users|
    requires forall i | 0 <= i < |jobs| :: jobs[i].recipient == users[i].id && jobs[i].token == w.token(users[i].id)
    requires forall e | e in sends :: e.job < |jobs|
    ensures EffectsOrdered(log + StoredEvents(offset, users, w) + AttemptEvents(offset, jobs, sends),
                           pending, offset + |users|)
  {
    var stored, made := StoredEvents(offset, users, w), AttemptEvents(offset, jobs, sends);
    StoringKeepsEffects(log, pending, offset, users, w);
    forall j | 0 <= j < |jobs| ensures Stored(offset, jobs[j].recipient, jobs[j].token) in log + stored {
      assert stored[j] in stored;
    }
    AttemptingKeepsOrder(log + stored, offset, jobs, sends);
    AttemptEventsOfBatch(offset, jobs, sends);
    StoredUsersConcat(log + stored, made);
    forall e | e in log + stored + made ensures e.batch < offset + |users| {
      assert e in log + stored || e in made;
      assert |users| == 0 ==> e in log;
    }
  }

  /** The effects of a run that has reached the users before `done`. */
  ghost predicate Effects(log: seq<Event>, pending: seq<User>, done: nat, o: Options, clean: bool) {
    done <= |pending| && EffectsOrdered(log, pending, done) && AttemptsBudgeted(log, pending, done, o, clean)
  }

  ghost predicate JobsFor(jobs: seq<EmailJob>, users: seq<User>, w: World) {
    && |jobs| == |users|
    && (forall i | 0 <= i < |jobs| :: jobs[i].recipient == users[i].id && jobs[i].token == w.token(users[i].id))
  }

  lemma EffectsAtStart(pending: seq<User>, o: Options)
    ensures Effects([], pending, 0, o, true)
  {
    assert pending[..0] == [];
    forall i | 0 <= i < |pending| ensures UserBudgeted([], pending[i].id, o, false, false) {}
  }

  lemma EffectsWeaken(log: seq<Event>, pending: seq<User>, done: nat, o: Options, clean: bool)
    requires Effects(log, pending, done, o, clean)
    ensures Effects(log, pending, done, o, false)
  {
    forall i | 0 <= i < |pending| ensures UserBudgeted(log, pending[i].id, o, i < done, false) {
      assert UserBudgeted(log, pending[i].id, o, i < done, i < done && clean);
    }
  }

  lemma JobRecipientsDistinct(jobs: seq<EmailJob>, users: seq<User>, w: World)
    requires JobsFor(jobs, users, w) && NoRepeat(Ids(users))
    ensures NoRepeat(Recipients(jobs)) && |jobs| == |users|
  {
    assert Recipients(jobs) == Ids(users);
  }

  /** A page that is built and run, or whose building fails, carries the effects on. */
  lemma EffectsOfPage(log: seq<Event>, pending: seq<User>, offset: nat, users: seq<User>, stored: nat, jobs: seq<EmailJob>,
                      o: Options, before: bool, sent: seq<Event>, clean: bool, failedBuild: bool, w: World)
    requires NoRepeat(Ids(pending))
    requires Effects(log, pending, offset, o, before) && (clean ==> before)
    requires offset + |users| <= |pending| && users == pending[offset..offset + |users|]
    requires if failedBuild then stored <= |users| && sent == []
             else stored == |users| && JobsFor(jobs, users, w) && SendsOfBatch(offset, jobs, sent, o, clean)
    ensures var all := log + StoredEvents(offset, users[..stored], w) + sent;
            && Effects(all, pending, offset + stored, o, false)
            && (!failedBuild ==> Effects(all, pending, offset + |users|, o, clean))
  {
    if failedBuild {
      EffectsOfFailedBuild(log, pending, offset, users, stored, o, before, w);
      assert log + StoredEvents(offset, users[..stored], w) + [] == log + StoredEvents(offset, users[..stored], w);
    } else {
      assert users[..stored] == users;
      EffectsOfBatch(log, pending, offset, users, jobs, o, before, sent, clean, w);
    }
  }

  /** Some tokens of a batch are stored and then the run ends. */
  lemma EffectsOfFailedBuild(log: seq<Event>, pending: seq<User>, offset: nat, users: seq<User>, k: nat,
                             o: Options, clean: bool, w: World)
    requires Effects(log, pending, offset, o, clean) && k <= |users|
    requires offset + |users| <= |pending| && users == pending[offset..offset + |users|]
    ensures Effects(log + StoredEvents(offset, users[..k], w), pending, offset + k, o, false)
  {
    StoringKeepsEffects(log, pending, offset, users[..k], w);
    BuildingKeepsBudget(log, pending, offset, users[..k], o, clean, w);
  }

  /** The send attempts that some run of the pool made for these jobs. */
  ghost predicate SendsOfBatch(batch: nat, jobs: seq<EmailJob>, events: seq<Event>, o: Options, clean: bool) {
    && (exists sends: seq<Outcome> ::
          (forall e | e in sends :: e.job < |jobs|) && events == AttemptEvents(batch, jobs, sends))
    && (forall k | 0 <= k < |jobs| :: UserBudgeted(events, jobs[k].recipient, o, true, clean))
  }

  /** All tokens of a batch are stored and its pool runs. */
  lemma EffectsOfBatch(log: seq<Event>, pending: seq<User>, offset: nat, users: seq<User>, jobs: seq<EmailJob>,
                       o: Options, before: bool, events: seq<Event>, clean: bool, w: World)
    requires NoRepeat(Ids(pending))
    requires Effects(log, pending, offset, o, before) && (clean ==> before)
    requires offset + |users| <= |pending| && users == pending[offset..offset + |users|]
    requires JobsFor(jobs, users, w) && SendsOfBatch(offset, jobs, events, o, clean)
    ensures Effects(log + StoredEvents(offset, users, w) + events, pending, offset + |users|, o, clean)
    ensures Effects(log + StoredEvents(offset, users, w) + events, pending, offset + |users|, o, false)
  {
    var sends: seq<Outcome> :| (forall e | e in sends :: e.job < |jobs|) && events == AttemptEvents(offset, jobs, sends);
    AttemptingKeepsEffects(log, pending, offset, users, jobs, sends, w);
    BatchKeepsBudget(log, pending, offset, users, jobs, o, before, sends, clean, w);
    EffectsWeaken(log + StoredEvents(offset, users, w) + events, pending, offset + |users|, o, clean);
  }

  lemma PoolSendsOfBatch(batch: nat, jobs: seq<EmailJob>, o: Options, b: Base, s: State)
    requires forall i, j | 0 <= i < j < |jobs| :: jobs[i].recipient != jobs[j].recipient
    requires Reachable(o, b, |jobs|, s)
    ensures forall e | e in s.sends :: e.job < |jobs|
    ensures SendsOfBatch(batch, jobs, AttemptEvents(batch, jobs, s.sends), o, s.dispatcher == ReturnedNil && s.failed == 0)
    ensures |s.retryCount| == |jobs| && forall k | 0 <= k < |jobs| ::
              s.retryCount[k] == Attempts(AttemptEvents(batch, jobs, s.sends), jobs[k].recipient, false)
  {
    ReachableInv(o, b, |jobs|, s);
    forall k | 0 <= k < |jobs|
      ensures UserBudgeted(AttemptEvents(batch, jobs, s.sends), jobs[k].recipient, o, true,
                           s.dispatcher == ReturnedNil && s.failed == 0)
      ensures s.retryCount[k] == Attempts(AttemptEvents(batch, jobs, s.sends), jobs[k].recipient, false)
    {
      OwnAttempts(batch, jobs, o, b, s, k);
      AttemptsOfJob(batch, jobs, s.sends, k, false);
      AttemptsBounded(o, b, |jobs|, s, k);
    }
  }

  /** What lies in the result channel when the pool has returned nil. */
  lemma ResultsOfBatch(batch: nat, jobs: seq<EmailJob>, o: Options, b: Base, s: State)
    requires forall i, j | 0 <= i < j < |jobs| :: jobs[i].recipient != jobs[j].recipient
    requires Reachable(o, b, |jobs|, s) && s.dispatcher == ReturnedNil
    ensures forall e | e in s.sends :: e.job < |jobs|
    ensures |s.results| == |jobs| && s.sent == b.sent + Successes(s.results)
    ensures s.sent + s.failed == b.sent + b.failed + |jobs|
    ensures forall i | 0 <= i < |jobs| ::
              && Attempts(AttemptEvents(batch, jobs, s.sends), jobs[i].recipient, true)
                 == (if Outcome(i, true) in s.results then 1 else 0)
              && (Outcome(i, true) in s.results <==> Outcome(i, false) !in s.results)
  {
    ReachableInv(o, b, |jobs|, s);
    BatchComplete(o, b, |jobs|, s);
    forall i | 0 <= i < |jobs|
      ensures Attempts(AttemptEvents(batch, jobs, s.sends), jobs[i].recipient, true)
              == (if Outcome(i, true) in s.results then 1 else 0)
      ensures Outcome(i, true) in s.results <==> Outcome(i, false) !in s.results
    {
      AttemptsOfJob(batch, jobs, s.sends, i, true);
      AttemptsBounded(o, b, |jobs|, s, i);
      assert forall ok :: Outcome(i, ok) in s.results <==> multiset(s.results)[Outcome(i, ok)] > 0;
    }
  }

  lemma PoolRuns(w: World, o: Options, offset: nat, jobs: nat, sent: nat, failed: nat)
    requires RunsPools(w, o)
    ensures Feasible(o, Init(jobs, sent, failed), w.schedule(offset, jobs, sent, failed))
    ensures var d := Run(o, Init(jobs, sent, failed), w.schedule(offset, jobs, sent, failed)).dispatcher;
            d == ReturnedNil || d == ReturnedErr
  {
  }

  lemma BatchUntroubled(w: World, o: Options, offset: nat, jobs: nat, sent: nat, failed: nat)
    requires RunsPools(w, o)
    ensures Feasible(o, Init(jobs, sent, failed), w.schedule(offset, jobs, sent, failed))
    ensures NothingGoesWrong(w) && 0 <= o.maxRetries ==>
              var s := Run(o, Init(jobs, sent, failed), w.schedule(offset, jobs, sent, failed));
              s.dispatcher == ReturnedNil && s.failed == failed
  {
    if NothingGoesWrong(w) && 0 <= o.maxRetries {
      NothingFails(o, Base(sent, failed), jobs, w.schedule(offset, jobs, sent, failed));
    }
  }

  /** The state of the pool at the end of its schedule. */
  lemma BatchRun(batch: nat, jobs: seq<EmailJob>, o: Options, b: Base, acts: seq<Action>)
    requires forall i, j | 0 <= i < j < |jobs| :: jobs[i].recipient != jobs[j].recipient
    requires Feasible(o, Init(|jobs|, b.sent, b.failed), acts)
    ensures var s := Run(o, Init(|jobs|, b.sent, b.failed), acts);
            && (forall e | e in s.sends :: e.job < |jobs|)
            && var sent := AttemptEvents(batch, jobs, s.sends);
            && SendsOfBatch(batch, jobs, sent, o, s.dispatcher == ReturnedNil && s.failed == 0)
            && |s.retryCount| == |jobs|
            && (forall i | 0 <= i < |jobs| :: s.retryCount[i] == Attempts(sent, jobs[i].recipient, false))
            && b.sent <= s.sent && b.failed <= s.failed && s.sent + s.failed <= b.sent + b.failed + |jobs|
            && (s.dispatcher == ReturnedErr ==> Cancel in acts)
            && (s.dispatcher == ReturnedNil ==>
                  && |s.results| == |jobs|
                  && (forall i | 0 <= i < |jobs| ::
                        Attempts(sent, jobs[i].recipient, true) == (if Outcome(i, true) in s.results then 1 else 0))
                  && (forall i | 0 <= i < |jobs| :: Outcome(i, true) in s.results <==> Outcome(i, false) !in s.results)
                  && s.sent == b.sent + Successes(s.results)
                  && s.sent + s.failed == b.sent + b.failed + |jobs|
                  && (NamesKnown(o, |jobs|) ==> NamesRight(s.results)))
  {
    var s := Run(o, Init(|jobs|, b.sent, b.failed), acts);
    ScheduleEnds(o, b, |jobs|, acts);
    PoolSendsOfBatch(batch, jobs, o, b, s);
    CountersConserve(o, b, |jobs|, s);
    if s.dispatcher == ReturnedNil {
      ResultsOfBatch(batch, jobs, o, b, s);
      KnownNamesRight(o, b, |jobs|, s);
    }
  }

  lemma SendsInBatch(o: Options, b: Base, s: State)
    requires Inv(o, b, s)
    ensures forall e | e in s.sends :: e.job < |s.workers|
  {
  }

  lemma StartsEmpty(jobs: nat, b: Base)
    ensures var start := Init(jobs, b.sent, b.failed);
            start.sends == [] && start.dispatcher == Selecting && |start.workers| == jobs
  {
  }

  /** What a schedule says about the batch that runs along it. */
  lemma BatchTold(batch: nat, jobs: seq<EmailJob>, o: Options, b: Base, acts: seq<Action>)
    requires forall i, j | 0 <= i < j < |jobs| :: jobs[i].recipient != jobs[j].recipient
    requires Feasible(o, Init(|jobs|, b.sent, b.failed), acts)
    ensures var s := Run(o, Init(|jobs|, b.sent, b.failed), acts);
            && (forall e | e in s.sends :: e.job < |jobs|)
            && (forall i, ok | 0 <= i < |jobs| ::
                  Attempts(AttemptEvents(batch, jobs, s.sends), jobs[i].recipient, ok) == multiset(acts)[Attempt(i, ok)])
            && (s.dispatcher == ReturnedErr <==> SeeCancel in acts)
            && s.sent == b.sent + |CountedSent(acts, |jobs|)| && s.failed == b.failed + |CountedFailed(acts, |jobs|)|
            && (s.dispatcher == ReturnedNil ==> forall i: nat | i < |jobs| :: Count(i) in acts)
            && (s.dispatcher == ReturnedErr ==>
                  && 0 < |jobs| && Attempt(|jobs| - 1, true) !in acts && Attempt(|jobs| - 1, false) !in acts
                  && s.sent + s.failed < b.sent + b.failed + |jobs|)
  {
    var start := Init(|jobs|, b.sent, b.failed);
    var s := Run(o, start, acts);
    ScheduleEnds(o, b, |jobs|, acts);
    ReachableInv(o, b, |jobs|, s);
    ErrorIsSeeCancel(o, start, acts);
    CountersAreActions(o, b, |jobs|, acts);
    SendsInBatch(o, b, s);
    StartsEmpty(|jobs|, b);
    hide *;
    forall i, ok | 0 <= i < |jobs|
      ensures Attempts(AttemptEvents(batch, jobs, s.sends), jobs[i].recipient, ok) == multiset(acts)[Attempt(i, ok)]
    {
      AttemptsOfJob(batch, jobs, s.sends, i, ok);
      SendsAreAttempts(o, start, acts, i, ok);
    }
    if s.dispatcher == ReturnedErr {
      ErrorInActions(o, b, |jobs|, acts);
    }
    if s.dispatcher == ReturnedNil {
      forall i: nat | i < |jobs| ensures Count(i) in acts {
        NilCountsAll(o, b, |jobs|, acts, i);
      }
    }
  }

  function Recipients(jobs: seq<EmailJob>): seq<nat> {
    seq(|jobs|, i requires 0 <= i < |jobs| => jobs[i].recipient)
  }

  lemma RecipientsDiffer(jobs: seq<EmailJob>)
    requires NoRepeat(Recipients(jobs))
    ensures forall i, j | 0 <= i < j < |jobs| :: jobs[i].recipient != jobs[j].recipient
  {
    NoRepeatMeans(Recipients(jobs));
    forall i, j | 0 <= i < j < |jobs| ensures jobs[i].recipient != jobs[j].recipient {
      assert Recipients(jobs)[i] != Recipients(jobs)[j];
    }
  }

  lemma DistinctJobs(jobs: seq<EmailJob>)
    requires forall i, j | 0 <= i < j < |jobs| :: jobs[i].recipient != jobs[j].recipient
    ensures forall i, j | 0 <= i < |jobs| && 0 <= j < |jobs| && jobs[i] == jobs[j] :: i == j
  {
    assert forall i, j | 0 <= i < j < |jobs| :: jobs[i] != jobs[j];
  }

  datatype Verdict =
    | Success
    | SomeFailed(failed: nat, total: nat)
    | FetchFailed
    | BuildFailed
    | BatchCancelled

  datatype PageEnd = Completed | NotBuilt | Interrupted

  // ---- The failure log ----

  /** When results can be attributed to jobs for certain. */
  predicate NamesKnown(o: Options, jobs: nat) {
    o.workerCount <= 1 || jobs <= 1 || o.maxRetries < 0
  }

  lemma KnownNamesRight(o: Options, b: Base, jobs: nat, s: State)
    requires Reachable(o, b, jobs, s) && s.dispatcher == ReturnedNil
    ensures NamesKnown(o, jobs) ==> NamesRight(s.results)
  {
    NamesRightExactly(o, b, jobs);
  }

  /** The users for whom the log has no attempt that went through, in order. */
  function FailedUsers(log: seq<Event>, users: seq<User>): seq<nat> {
    if |users| == 0 then []
    else
      var u := users[|users| - 1];
      FailedUsers(log, users[..|users| - 1]) + (if Attempts(log, u.id, true) == 0 then [u.id] else [])
  }

  /** Where names are known, the failure log so far lists the failed users of the pages so far. */
  ghost predicate FailuresLogged(errors: seq<nat>, log: seq<Event>, pending: seq<User>, offset: nat, o: Options, batchSize: nat) {
    offset <= |pending| && (NamesKnown(o, batchSize) ==> errors == FailedUsers(log, pending[..offset]))
    && |errors| == |FailedUsers(log, pending[..offset])|
  }

  lemma NobodyFailed(pending: seq<User>, o: Options, batchSize: nat)
    ensures FailuresLogged([], [], pending, 0, o, batchSize)
  {
  }

  lemma EveryFailureLogged(errors: seq<nat>, log: seq<Event>, pending: seq<User>, o: Options, batchSize: nat)
    requires FailuresLogged(errors, log, pending, |pending|, o, batchSize)
    ensures |errors| == |FailedUsers(log, pending)|
    ensures NamesKnown(o, batchSize) ==> errors == FailedUsers(log, pending)
  {
    assert pending[..|pending|] == pending;
  }

  lemma {:induction false} FailedUsersSame(log: seq<Event>, later: seq<Event>, users: seq<User>)
    requires forall u | u in users :: (Attempts(log, u.id, true) == 0) == (Attempts(later, u.id, true) == 0)
    ensures FailedUsers(log, users) == FailedUsers(later, users)
  {
    if |users| > 0 {
      assert users[|users| - 1] in users;
      FailedUsersSame(log, later, users[..|users| - 1]);
    }
  }

  lemma {:induction false} FailedUsersConcat(log: seq<Event>, a: seq<User>, b: seq<User>)
    ensures FailedUsers(log, a + b) == FailedUsers(log, a) + FailedUsers(log, b)
  {
    if |b| == 0 {
      assert a + b == a;
    } else {
      FailedUsersConcat(log, a, b[..|b| - 1]);
      assert (a + b)[..|a + b| - 1] == a + b[..|b| - 1];
    }
  }

  function NamedFailures(jobs: seq<EmailJob>, results: seq<Outcome>): seq<nat>
    requires |jobs| == |results|
  {
    var n := |jobs|;
    if n == 0 then []
    else NamedFailures(jobs[..n - 1], results[..n - 1]) + (if results[n - 1].ok then [] else [jobs[n - 1].recipient])
  }

  lemma {:induction false} NamedFailuresCount(jobs: seq<EmailJob>, results: seq<Outcome>)
    requires |jobs| == |results|
    ensures |NamedFailures(jobs, results)| + Successes(results) == |jobs|
  {
    if |jobs| > 0 {
      NamedFailuresCount(jobs[..|jobs| - 1], results[..|jobs| - 1]);
    }
  }

  /** The users of the first n jobs whose email has failed, in job order. */
  function FailedRecipients(jobs: seq<EmailJob>, results: seq<Outcome>, n: nat): seq<nat>
    requires n <= |jobs|
  {
    if n == 0 then []
    else FailedRecipients(jobs, results, n - 1) + (if Outcome(n - 1, true) in results then [] else [jobs[n - 1].recipient])
  }

  /** With names right the failure log lists the failed users and no others. */
  lemma {:induction false} NamesAreFailures(jobs: seq<EmailJob>, results: seq<Outcome>, n: nat)
    requires n <= |jobs| == |results| && NamesRight(results)
    ensures NamedFailures(jobs[..n], results[..n]) == FailedRecipients(jobs, results, n)
  {
    if n > 0 {
      NamesAreFailures(jobs, results, n - 1);
      assert jobs[..n][..n - 1] == jobs[..n - 1] && results[..n][..n - 1] == results[..n - 1];
    }
  }

  /** Names in the failure log that are right are those of the users without a sent email. */
  lemma NamedAreFailed(jobs: seq<EmailJob>, users: seq<User>, results: seq<Outcome>, sent: seq<Event>, w: World)
    requires JobsFor(jobs, users, w) && |results| == |jobs| && NamesRight(results)
    requires forall i | 0 <= i < |jobs| :: Attempts(sent, jobs[i].recipient, true) == (if Outcome(i, true) in results then 1 else 0)
    ensures NamedFailures(jobs, results) == FailedUsers(sent, users)
  {
    NamesAreFailures(jobs, results, |jobs|);
    assert jobs[..|jobs|] == jobs && results[..|jobs|] == results && users[..|jobs|] == users;
    FailedAreFailed(jobs, users, results, sent, w, |jobs|);
  }

  lemma {:induction false} FailedAreFailed(jobs: seq<EmailJob>, users: seq<User>, results: seq<Outcome>, sent: seq<Event>,
                                           w: World, n: nat)
    requires JobsFor(jobs, users, w) && n <= |jobs|
    requires forall i | 0 <= i < |jobs| :: Attempts(sent, jobs[i].recipient, true) == (if Outcome(i, true) in results then 1 else 0)
    ensures FailedRecipients(jobs, results, n) == FailedUsers(sent, users[..n])
  {
    if n > 0 {
      FailedAreFailed(jobs, users, results, sent, w, n - 1);
      assert users[..n][..n - 1] == users[..n - 1];
    }
  }

  lemma AttemptsOfPage(log: seq<Event>, offset: nat, users: seq<User>, sent: seq<Event>, w: World, user: nat, ok: bool)
    ensures Attempts(log + StoredEvents(offset, users, w) + sent, user, ok) == Attempts(log, user, ok) + Attempts(sent, user, ok)
  {
    AttemptsConcat(log + StoredEvents(offset, users, w), sent, user, ok);
    AttemptsConcat(log, StoredEvents(offset, users, w), user, ok);
    StoredUsersOfBatch(offset, users, w);
  }

  lemma StopMeansUnbuilt(w: World, users: seq<User>, stored: nat)
    requires StopsBuilding(w, users, stored)
    ensures !AllBuilt(w, users)
  {
    var k :| 0 <= k < |users| && w.build(users[k].id) != Built;
    assert users[k] in users;
  }

  lemma BuiltMeans(w: World, users: seq<User>)
    requires forall u | u in users :: w.build(u.id) == Built
    ensures AllBuilt(w, users)
  {
  }

  /** The emails attempted for each user are the attempts of that job in the schedule. */
  ghost predicate SentByActions(sent: seq<Event>, users: seq<User>, acts: seq<Action>) {
    forall i, ok | 0 <= i < |users| :: Attempts(sent, users[i].id, ok) == multiset(acts)[Attempt(i, ok)]
  }

  lemma JobsSentByActions(jobs: seq<EmailJob>, users: seq<User>, w: World, sent: seq<Event>, acts: seq<Action>)
    requires JobsFor(jobs, users, w)
    requires forall i, ok | 0 <= i < |jobs| :: Attempts(sent, jobs[i].recipient, ok) == multiset(acts)[Attempt(i, ok)]
    ensures SentByActions(sent, users, acts)
  {
    hide Attempts;
  }

  /** The places of the users for whom the log has no attempt that went through. */
  function Unsent(log: seq<Event>, users: seq<User>): set<nat> {
    set i: nat | i < |users| && Attempts(log, users[i].id, true) == 0
  }

  lemma {:induction false} FailedUsersSize(log: seq<Event>, users: seq<User>)
    ensures |FailedUsers(log, users)| == |Unsent(log, users)|
  {
    hide Attempts;
    if |users| > 0 {
      var last := |users| - 1;
      FailedUsersSize(log, users[..last]);
      var before := Unsent(log, users[..last]);
      assert Unsent(log, users) == before + (if Attempts(log, users[last].id, true) == 0 then {last} else {});
      assert last !in before;
    }
  }

  lemma FailedUsersCounted(sent: seq<Event>, users: seq<User>, acts: seq<Action>)
    requires SentByActions(sent, users, acts) && forall i: nat | i < |users| :: Count(i) in acts
    ensures |FailedUsers(sent, users)| == |CountedFailed(acts, |users|)|
  {
    hide Attempts, FailedUsers;
    FailedUsersSize(sent, users);
    forall i: nat | i < |users| ensures Attempts(sent, users[i].id, true) == 0 <==> Attempt(i, true) !in acts {
      assert Attempts(sent, users[i].id, true) == multiset(acts)[Attempt(i, true)];
    }
    assert Unsent(sent, users) == CountedFailed(acts, |users|);
  }

  /** A page adds its failed users and leaves the earlier ones as they were. */
  lemma FailedUsersOfPage(log: seq<Event>, pending: seq<User>, offset: nat, users: seq<User>, jobs: seq<EmailJob>,
                          o: Options, before: bool, sent: seq<Event>, clean: bool, w: World)
    requires NoRepeat(Ids(pending)) && Effects(log, pending, offset, o, before)
    requires offset + |users| <= |pending| && users == pending[offset..offset + |users|]
    requires JobsFor(jobs, users, w) && SendsOfBatch(offset, jobs, sent, o, clean)
    ensures FailedUsers(log + StoredEvents(offset, users, w) + sent, pending[..offset + |users|])
         == FailedUsers(log, pending[..offset]) + FailedUsers(sent, users)
  {
    hide *;
    var earlier, all := pending[..offset], log + StoredEvents(offset, users, w) + sent;
    forall u | u in earlier ensures Attempts(log, u.id, true) == Attempts(all, u.id, true) {
      AttemptsOfPage(log, offset, users, sent, w, u.id, true);
      var i :| 0 <= i < |earlier| && earlier[i] == u;
      OthersNotSent(pending, offset, users, jobs, o, sent, clean, w, i, true);
    }
    forall u | u in users ensures Attempts(sent, u.id, true) == Attempts(all, u.id, true) {
      AttemptsOfPage(log, offset, users, sent, w, u.id, true);
      NotYetSent(log, pending, offset, users, o, before, u);
    }
    assert pending[..offset + |users|] == earlier + users;
    FailedUsersConcat(all, earlier, users);
    FailedUsersSame(log, all, earlier);
    FailedUsersSame(sent, all, users);
  }

  lemma FailuresOfPage(errors: seq<nat>, log: seq<Event>, pending: seq<User>, offset: nat, users: seq<User>, jobs: seq<EmailJob>,
                       o: Options, batchSize: nat, before: bool, sent: seq<Event>, clean: bool, w: World,
                       later: seq<nat>, completed: bool)
    requires NoRepeat(Ids(pending)) && Effects(log, pending, offset, o, before)
    requires offset + |users| <= |pending| && users == pending[offset..offset + |users|] && |users| <= batchSize
    requires completed ==> JobsFor(jobs, users, w) && SendsOfBatch(offset, jobs, sent, o, clean)
    requires FailuresLogged(errors, log, pending, offset, o, batchSize)
    requires completed ==> |later| == |errors| + |FailedUsers(sent, users)|
    requires completed && NamesKnown(o, |users|) ==> later == errors + FailedUsers(sent, users)
    ensures completed ==>
              FailuresLogged(later, log + StoredEvents(offset, users[..|users|], w) + sent, pending, offset + |users|, o, batchSize)
  {
    assert users[..|users|] == users;
    if completed {
      FailedUsersOfPage(log, pending, offset, users, jobs, o, before, sent, clean, w);
    }
  }

  lemma OthersNotSent(pending: seq<User>, offset: nat, users: seq<User>, jobs: seq<EmailJob>, o: Options, sent: seq<Event>,
                      clean: bool, w: World, i: nat, ok: bool)
    requires NoRepeat(Ids(pending)) && offset + |users| <= |pending| && users == pending[offset..offset + |users|]
    requires JobsFor(jobs, users, w) && SendsOfBatch(offset, jobs, sent, o, clean)
    requires i < |pending| && !(offset <= i < offset + |users|)
    ensures Attempts(sent, pending[i].id, ok) == 0
  {
    var sends: seq<Outcome> :| (forall e | e in sends :: e.job < |jobs|) && sent == AttemptEvents(offset, jobs, sends);
    forall j | 0 <= j < |jobs| ensures jobs[j].recipient != pending[i].id {
      PendingApart(pending, i, offset + j);
    }
    NoAttemptsElsewhere(offset, jobs, sends, pending[i].id, ok);
  }

  lemma NotYetSent(log: seq<Event>, pending: seq<User>, offset: nat, users: seq<User>, o: Options, before: bool, u: User)
    requires Effects(log, pending, offset, o, before)
    requires offset + |users| <= |pending| && users == pending[offset..offset + |users|] && u in users
    ensures Attempts(log, u.id, true) == 0
  {
    var j :| 0 <= j < |users| && users[j] == u;
    assert UserBudgeted(log, pending[offset + j].id, o, offset + j < offset, offset + j < offset && before);
  }

  lemma FullStart(pending: seq<User>, size: nat, k: nat, offset: nat)
    requires offset == Min(Start(size, k), |pending|) && Start(size, k) < |pending|
    ensures offset == Start(size, k)
  {
  }

  // ---- The log and the schedules ----

  /** The attempts for the user at place i are those of its job in the schedule of the batch
      from one place to another. */
  ghost predicate ByBatch(log: seq<Event>, pending: seq<User>, i: nat, w: World, from: nat, to: nat, sent: nat, failed: nat) {
    && from <= i < to <= |pending| && sent + failed == from
    && forall ok :: Attempts(log, pending[i].id, ok) == multiset(w.schedule(from, to - from, sent, failed))[Attempt(i - from, ok)]
  }

  ghost predicate BySchedule(log: seq<Event>, pending: seq<User>, i: nat, batchSize: nat, w: World) {
    exists from: nat, to: nat, sent: nat, failed: nat :: to <= from + batchSize && ByBatch(log, pending, i, w, from, to, sent, failed)
  }

  /** Users before a place are attempted as the schedules of their batches say, and no others are. */
  ghost predicate AsScheduled(log: seq<Event>, pending: seq<User>, done: nat, batchSize: nat, w: World) {
    && done <= |pending|
    && (forall i: nat | i < done :: BySchedule(log, pending, i, batchSize, w))
    && (forall i: nat, ok | done <= i < |pending| :: Attempts(log, pending[i].id, ok) == 0)
  }

  lemma SameByBatch(log: seq<Event>, all: seq<Event>, pending: seq<User>, i: nat, batchSize: nat, w: World)
    requires BySchedule(log, pending, i, batchSize, w) && i < |pending|
    requires forall ok :: Attempts(all, pending[i].id, ok) == Attempts(log, pending[i].id, ok)
    ensures BySchedule(all, pending, i, batchSize, w)
  {
    hide Attempts;
    var from: nat, to: nat, sent: nat, failed: nat :| to <= from + batchSize && ByBatch(log, pending, i, w, from, to, sent, failed);
    assert ByBatch(all, pending, i, w, from, to, sent, failed);
  }

  /** A batch that runs is attempted as its schedule says and leaves the others as they were. */
  lemma ScheduledPage(log: seq<Event>, pending: seq<User>, offset: nat, users: seq<User>, jobs: seq<EmailJob>, o: Options,
                      batchSize: nat, sent: seq<Event>, clean: bool, w: World, good: nat, bad: nat)
    requires NoRepeat(Ids(pending)) && offset + |users| <= |pending| && users == pending[offset..offset + |users|]
    requires |users| <= batchSize && good + bad == offset
    requires JobsFor(jobs, users, w) && SendsOfBatch(offset, jobs, sent, o, clean)
    requires SentByActions(sent, users, w.schedule(offset, |users|, good, bad))
    requires AsScheduled(log, pending, offset, batchSize, w)
    ensures AsScheduled(log + StoredEvents(offset, users, w) + sent, pending, offset + |users|, batchSize, w)
  {
    hide Attempts, StoredEvents, Ids, NoRepeat, SendsOfBatch, JobsFor;
    var all, to := log + StoredEvents(offset, users, w) + sent, offset + |users|;
    forall i: nat, ok | i < |pending| && !(offset <= i < to)
      ensures Attempts(all, pending[i].id, ok) == Attempts(log, pending[i].id, ok)
    {
      AttemptsOfPage(log, offset, users, sent, w, pending[i].id, ok);
      OthersNotSent(pending, offset, users, jobs, o, sent, clean, w, i, ok);
    }
    forall i: nat | i < to ensures BySchedule(all, pending, i, batchSize, w) {
      if i < offset {
        SameByBatch(log, all, pending, i, batchSize, w);
      } else {
        forall ok
          ensures Attempts(all, pending[i].id, ok) == multiset(w.schedule(offset, to - offset, good, bad))[Attempt(i - offset, ok)]
        {
          AttemptsOfPage(log, offset, users, sent, w, pending[i].id, ok);
          assert users[i - offset] == pending[i];
        }
        assert ByBatch(all, pending, i, w, offset, to, good, bad);
      }
    }
  }

  lemma UnbuiltPage(log: seq<Event>, pending: seq<User>, offset: nat, users: seq<User>, batchSize: nat, w: World)
    requires AsScheduled(log, pending, offset, batchSize, w)
    ensures AsScheduled(log + StoredEvents(offset, users, w) + [], pending, offset, batchSize, w)
  {
    hide Attempts, StoredEvents;
    var all := log + StoredEvents(offset, users, w) + [];
    forall i: nat, ok | i < |pending| ensures Attempts(all, pending[i].id, ok) == Attempts(log, pending[i].id, ok) {
      AttemptsOfPage(log, offset, users, [], w, pending[i].id, ok);
      NoAttempts(pending[i].id, ok);
    }
    forall i: nat | i < offset ensures BySchedule(all, pending, i, batchSize, w) {
      SameByBatch(log, all, pending, i, batchSize, w);
    }
  }

  lemma NoAttempts(user: nat, ok: bool)
    ensures Attempts([], user, ok) == 0
  {
  }

  /** What a page adds to the effects and to the failure log. */
  lemma PageOfRun(errors: seq<nat>, log: seq<Event>, pending: seq<User>, offset: nat, users: seq<User>, stored: nat,
                  jobs: seq<EmailJob>, o: Options, batchSize: nat, before: bool, sent: seq<Event>, clean: bool, end: PageEnd,
                  w: World, later: seq<nat>)
    requires NoRepeat(Ids(pending)) && Effects(log, pending, offset, o, before) && (clean ==> before)
    requires offset + |users| <= |pending| && users == pending[offset..offset + |users|] && |users| <= batchSize
    requires if end == NotBuilt then stored <= |users| && sent == []
             else stored == |users| && JobsFor(jobs, users, w) && SendsOfBatch(offset, jobs, sent, o, clean)
    requires FailuresLogged(errors, log, pending, offset, o, batchSize)
    requires end == Completed ==> |later| == |errors| + |FailedUsers(sent, users)|
    requires end == Completed && NamesKnown(o, |users|) ==> later == errors + FailedUsers(sent, users)
    ensures var all := log + StoredEvents(offset, users[..stored], w) + sent;
            && Effects(all, pending, offset + stored, o, false)
            && (end != NotBuilt ==> Effects(all, pending, offset + |users|, o, clean))
            && (end == Completed ==> FailuresLogged(later, all, pending, offset + |users|, o, batchSize))
  {
    hide *;
    EffectsOfPage(log, pending, offset, users, stored, jobs, o, before, sent, clean, end == NotBuilt, w);
    FailuresOfPage(errors, log, pending, offset, users, jobs, o, batchSize, before, sent, clean, w, later, end == Completed);
  }

  // ---- The books of a run ----

  /** The fields of the processor. */
  datatype Books = Books(total: nat, sent: nat, failed: nat, last: Option<nat>, fetches: nat, log: seq<Event>, errors: seq<nat>)

  /** What the run promises of its effects and counters, wherever it stops. */
  ghost predicate Stopped(k: Books, pending: seq<User>, reached: nat, o: Options, batchSize: nat, w: World) {
    && k.sent + k.failed <= k.total <= |pending|
    && Effects(k.log, pending, reached, o, false)
    && AsScheduled(k.log, pending, k.total, batchSize, w)
  }

  /** Between two pages: everything before the offset is done, and nothing after it. */
  ghost predicate UpTo(k: Books, pending: seq<User>, offset: nat, o: Options, batchSize: nat, w: World, last: Option<nat>) {
    && offset <= |pending| && offset == Min(Start(batchSize, k.fetches), |pending|)
    && (0 < k.fetches ==> Start(batchSize, k.fetches - 1) < |pending|)
    && k.total == k.sent + k.failed == offset && |k.errors| == k.failed
    && k.last == (if offset == 0 then last else Some(pending[offset - 1].id))
    && Effects(k.log, pending, offset, o, k.failed == 0)
    && FailuresLogged(k.errors, k.log, pending, offset, o, batchSize)
    && AsScheduled(k.log, pending, offset, batchSize, w)
    && (NothingGoesWrong(w) && 0 <= o.maxRetries ==> k.failed == 0)
  }

  lemma NothingDone(pending: seq<User>, o: Options, batchSize: nat, w: World, last: Option<nat>)
    ensures UpTo(Books(0, 0, 0, last, 0, [], []), pending, 0, o, batchSize, w, last)
  {
    EffectsAtStart(pending, o);
    NobodyFailed(pending, o, batchSize);
    forall i: nat, ok | i < |pending| ensures Attempts([], pending[i].id, ok) == 0 {
      NoAttempts(pending[i].id, ok);
    }
  }

  lemma UpToStopped(k: Books, pending: seq<User>, offset: nat, o: Options, batchSize: nat, w: World, last: Option<nat>)
    requires UpTo(k, pending, offset, o, batchSize, w, last)
    ensures k.total == k.sent + k.failed == offset == |k.errors| + k.sent && offset <= |pending|
    ensures Stopped(k, pending, offset, o, batchSize, w)
  {
    EffectsWeaken(k.log, pending, offset, o, k.failed == 0);
  }

  lemma StoppedMeans(k: Books, pending: seq<User>, reached: nat, o: Options, batchSize: nat, w: World)
    requires Stopped(k, pending, reached, o, batchSize, w)
    ensures k.sent + k.failed <= k.total <= |pending|
    ensures Effects(k.log, pending, reached, o, false)
    ensures AsScheduled(k.log, pending, k.total, batchSize, w)
  {
  }

  lemma UpToPlace(k: Books, pending: seq<User>, offset: nat, o: Options, batchSize: nat, w: World, last: Option<nat>)
    requires UpTo(k, pending, offset, o, batchSize, w, last)
    ensures offset == Min(Start(batchSize, k.fetches), |pending|)
    ensures 0 < k.fetches ==> Start(batchSize, k.fetches - 1) < |pending|
  {
  }

  /** The page at the offset. */
  lemma PageAt(k: Books, pending: seq<User>, offset: nat, o: Options, batchSize: nat, w: World, last: Option<nat>)
    requires UpTo(k, pending, offset, o, batchSize, w, last) && 0 < batchSize && NoRepeat(Ids(pending))
    ensures var page := Slice(pending, offset, batchSize);
            if page == [] then offset == |pending| && PageCount(|pending|, batchSize) == k.fetches
            else
              && offset + |page| <= |pending| && page == pending[offset..offset + |page|] && |page| <= batchSize
              && offset + |page| == Min(Start(batchSize, k.fetches + 1), |pending|)
              && Start(batchSize, k.fetches) == offset < |pending|
              && page[|page| - 1] == pending[offset + |page| - 1]
              && NoRepeat(Ids(page))
  {
    UpToPlace(k, pending, offset, o, batchSize, w, last);
    PagePlace(pending, batchSize, k.fetches, offset);
    hide *;
    var page := Slice(pending, offset, batchSize);
    if page != [] {
      PageNoRepeat(pending, offset, offset + |page|);
    }
  }

  lemma PagePlace(pending: seq<User>, batchSize: nat, k: nat, offset: nat)
    requires 0 < batchSize && offset == Min(Start(batchSize, k), |pending|)
    requires 0 < k ==> Start(batchSize, k - 1) < |pending|
    ensures var page := Slice(pending, offset, batchSize);
            if page == [] then offset == |pending| && PageCount(|pending|, batchSize) == k
            else
              && offset + |page| <= |pending| && page == pending[offset..offset + |page|] && |page| <= batchSize
              && offset + |page| == Min(Start(batchSize, k + 1), |pending|)
              && Start(batchSize, k) == offset < |pending|
              && page[|page| - 1] == pending[offset + |page| - 1]
  {
    NextPage(pending, batchSize, k, offset);
  }

  // UpTo and Stopped taken apart and put together, part by part.

  lemma UpToParts(k: Books, pending: seq<User>, offset: nat, o: Options, batchSize: nat, w: World, last: Option<nat>)
    requires UpTo(k, pending, offset, o, batchSize, w, last)
    ensures offset <= |pending| && k.total == k.sent + k.failed == offset && |k.errors| == k.failed
    ensures Effects(k.log, pending, offset, o, k.failed == 0)
    ensures FailuresLogged(k.errors, k.log, pending, offset, o, batchSize)
    ensures AsScheduled(k.log, pending, offset, batchSize, w)
    ensures NothingGoesWrong(w) && 0 <= o.maxRetries ==> k.failed == 0
  {
  }

  lemma UpToFrom(k: Books, pending: seq<User>, offset: nat, o: Options, batchSize: nat, w: World, last: Option<nat>)
    requires 0 < offset <= |pending| && offset == Min(Start(batchSize, k.fetches), |pending|)
    requires 0 < k.fetches && Start(batchSize, k.fetches - 1) < |pending|
    requires k.total == k.sent + k.failed == offset && |k.errors| == k.failed && k.last == Some(pending[offset - 1].id)
    requires Effects(k.log, pending, offset, o, k.failed == 0)
    requires FailuresLogged(k.errors, k.log, pending, offset, o, batchSize)
    requires AsScheduled(k.log, pending, offset, batchSize, w)
    requires NothingGoesWrong(w) && 0 <= o.maxRetries ==> k.failed == 0
    ensures UpTo(k, pending, offset, o, batchSize, w, last)
  {
  }

  lemma StoppedFrom(k: Books, pending: seq<User>, reached: nat, o: Options, batchSize: nat, w: World)
    requires k.sent + k.failed <= k.total <= |pending|
    requires Effects(k.log, pending, reached, o, false)
    requires AsScheduled(k.log, pending, k.total, batchSize, w)
    ensures Stopped(k, pending, reached, o, batchSize, w)
  {
  }

  /** What a page leaves, from what ProcessPage says about it. */
  lemma PageDone(k: Books, l: Books, pending: seq<User>, offset: nat, users: seq<User>, stored: nat, jobs: seq<EmailJob>,
                 sent: seq<Event>, end: PageEnd, o: Options, batchSize: nat, w: World, last: Option<nat>)
    requires UpTo(k, pending, offset, o, batchSize, w, last) && 0 < batchSize && NoRepeat(Ids(pending))
    requires users == Slice(pending, offset, batchSize) && users != []
    requires l.fetches == k.fetches + 1 && stored <= |users| && l.log == k.log + StoredEvents(offset, users[..stored], w) + sent
    requires l.sent + l.failed <= l.total && k.failed <= l.failed
    requires end == NotBuilt ==> sent == [] && l.total == offset
    requires end != NotBuilt ==>
               && stored == |users| && JobsFor(jobs, users, w) && l.total == offset + |users|
               && SendsOfBatch(offset, jobs, sent, o, end == Completed && l.failed == 0)
               && SentByActions(sent, users, w.schedule(offset, |users|, k.sent, k.failed))
    requires end == Completed ==>
               && l.sent + l.failed == l.total && |l.errors| == l.failed && l.last == Some(users[|users| - 1].id)
               && l.failed == k.failed + |FailedUsers(sent, users)|
               && (NamesKnown(o, |users|) ==> l.errors == k.errors + FailedUsers(sent, users))
               && (NothingGoesWrong(w) && 0 <= o.maxRetries ==> l.failed == k.failed)
    ensures Stopped(l, pending, offset + stored, o, batchSize, w)
    ensures end == Completed ==> UpTo(l, pending, offset + |users|, o, batchSize, w, last)
  {
    hide *;
    PageAt(k, pending, offset, o, batchSize, w, last);
    UpToParts(k, pending, offset, o, batchSize, w, last);
    PageOfRun(k.errors, k.log, pending, offset, users, stored, jobs, o, batchSize, k.failed == 0, sent,
              end == Completed && l.failed == 0, end, w, l.errors);
    if end == NotBuilt {
      UnbuiltPage(k.log, pending, offset, users[..stored], batchSize, w);
    } else {
      assert users[..stored] == users;
      ScheduledPage(k.log, pending, offset, users, jobs, o, batchSize, sent, end == Completed && l.failed == 0, w, k.sent, k.failed);
    }
    StoppedFrom(l, pending, offset + stored, o, batchSize, w);
    if end == Completed {
      UpToFrom(l, pending, offset + |users|, o, batchSize, w, last);
    }
  }

  lemma EverythingDone(k: Books, pending: seq<User>, o: Options, batchSize: nat, w: World, last: Option<nat>)
    requires UpTo(k, pending, |pending|, o, batchSize, w, last)
    ensures Effects(k.log, pending, |pending|, o, k.failed == 0)
    ensures k.failed == |FailedUsers(k.log, pending)| && (NamesKnown(o, batchSize) ==> k.errors == FailedUsers(k.log, pending))
    ensures k.last == (if pending == [] then last else Some(pending[|pending| - 1].id))
    ensures NothingGoesWrong(w) && 0 <= o.maxRetries ==> k.failed == 0
  {
    EveryFailureLogged(k.errors, k.log, pending, o, batchSize);
  }

  lemma NotAnswered(w: World, offset: nat)
    requires w.answer(offset) == None
    ensures !AllAnswered(w)
  {
  }

  lemma UnbuiltAmong(w: World, pending: seq<User>, from: nat, to: nat)
    requires from <= to <= |pending|
    ensures AllBuilt(w, pending) ==> AllBuilt(w, pending[from..to])
  {
  }

  lemma Leaves(w: World, offset: nat, jobs: nat, sent: nat, failed: nat)
    requires SeeCancel in w.schedule(offset, jobs, sent, failed)
    ensures !NeverLeaves(w)
  {
  }

  // ---- The processor ----

  class EmailProcessor {
    const options: Options
    const batchSize: nat
    var totalEmails: nat
    var sentEmails: nat
    var failedEmails: nat
    var lastProcessed: Option<nat>
    var fetches: nat
    var log: seq<Event>          // effects on the database and the email client
    var errorLog: seq<nat>       // users named in "email processing failed" lines

    constructor (options: Options, batchSize: nat)
      ensures this.options == options && this.batchSize == batchSize
      ensures totalEmails == sentEmails == failedEmails == fetches == 0
      ensures lastProcessed == None && log == [] && errorLog == []
    {
      this.options, this.batchSize := options, batchSize;
      totalEmails, sentEmails, failedEmails, fetches := 0, 0, 0, 0;
      lastProcessed, log, errorLog := None, [], [];
    }

    /** Builds jobs in order and stops at the first user whose job cannot be built. Every
        token stored on the way stays stored. */
    method CreateEmailJobs(batch: nat, users: seq<User>, w: World) returns (jobs: Option<seq<EmailJob>>)
      modifies this`log
      ensures jobs.Some? ==>
                && JobsFor(jobs.value, users, w)
                && (forall i | 0 <= i < |jobs.value| :: fresh(jobs.value[i]) && jobs.value[i].retryCount == 0)
                && (forall u | u in users :: w.build(u.id) == Built)
                && log == old(log) + StoredEvents(batch, users, w)
                && |log| == |old(log)| + |users|
                && (forall i | 0 <= i < |users| ::
                      && jobs.value[i].recipient == users[i].id && jobs.value[i].token == w.token(users[i].id)
                      && log[|old(log)| + i] == Stored(batch, users[i].id, w.token(users[i].id)))
      ensures jobs.None? ==>
                exists stored | 0 <= stored <= |users| ::
                  StopsBuilding(w, users, stored) && log == old(log) + StoredEvents(batch, users[..stored], w)
    {
      var built: seq<EmailJob> := [];
      assert StoredEvents(batch, users[..0], w) == [];
      for k := 0 to |users|
        invariant JobsFor(built, users[..k], w)
        invariant forall i | 0 <= i < |built| :: fresh(built[i]) && built[i].retryCount == 0
        invariant forall i | 0 <= i < k :: w.build(users[i].id) == Built
        invariant log == old(log) + StoredEvents(batch, users[..k], w)
      {
        var user := users[k];
        StoredEventsExtend(batch, users, k, w);
        if w.build(user.id) == NoToken || w.build(user.id) == NotStored {
          assert StopsBuilding(w, users, k);
          return None;
        }
        log := log + [Stored(batch, user.id, w.token(user.id))];
        if w.build(user.id) == NotRendered {
          assert StopsBuilding(w, users, k + 1);
          return None;
        }
        var job := new EmailJob(user.id, w.token(user.id));
        built := built + [job];
      }
      assert users[..|users|] == users;
      return Some(built);
    }

    /** Runs the pool of a batch as the runtime schedules it. Whether or not it returns early,
        every send is for one of the jobs, within its retry budget and with its token, and
        the retry counts are the failed sends. When it returns nil, every job is counted and
        lies in the result channel once. */
    method ProcessEmailBatch(batch: nat, jobs: seq<EmailJob>, w: World) returns (done: bool, results: seq<Outcome>, ghost sent: seq<Event>)
      requires RunsPools(w, options)
      requires NoRepeat(Recipients(jobs))
      modifies this`sentEmails, this`failedEmails, this`log, jobs
      ensures log == old(log) + sent
      ensures SendsOfBatch(batch, jobs, sent, options, done && failedEmails == 0)
      ensures forall i | 0 <= i < |jobs| :: jobs[i].retryCount == Attempts(sent, jobs[i].recipient, false)
      ensures old(sentEmails) <= sentEmails && old(failedEmails) <= failedEmails
      ensures sentEmails + failedEmails <= old(sentEmails) + old(failedEmails) + |jobs|
      ensures !done ==> Cancel in w.schedule(batch, |jobs|, old(sentEmails), old(failedEmails))
      ensures done && NamesKnown(options, |jobs|) ==> NamesRight(results)
      ensures var acts := w.schedule(batch, |jobs|, old(sentEmails), old(failedEmails));
              && (done <==> SeeCancel !in acts)
              && (forall i, ok | 0 <= i < |jobs| :: Attempts(sent, jobs[i].recipient, ok) == multiset(acts)[Attempt(i, ok)])
              && sentEmails == old(sentEmails) + |CountedSent(acts, |jobs|)|
              && failedEmails == old(failedEmails) + |CountedFailed(acts, |jobs|)|
              && (done ==> forall i: nat | i < |jobs| :: Count(i) in acts)
              && (!done ==> 0 < |jobs| && Attempt(|jobs| - 1, true) !in acts && Attempt(|jobs| - 1, false) !in acts)
      ensures !done ==> sentEmails + failedEmails < old(sentEmails) + old(failedEmails) + |jobs|
      ensures NothingGoesWrong(w) && 0 <= options.maxRetries ==> done && failedEmails == old(failedEmails)
      ensures done ==>
                && |results| == |jobs|
                && (forall i | 0 <= i < |jobs| ::
                      Attempts(sent, jobs[i].recipient, true) == (if Outcome(i, true) in results then 1 else 0))
                && (forall i | 0 <= i < |jobs| :: Outcome(i, true) in results <==> Outcome(i, false) !in results)
                && sentEmails == old(sentEmails) + Successes(results)
                && sentEmails + failedEmails == old(sentEmails) + old(failedEmails) + |jobs|
    {
      hide *;
      ghost var b := Base(sentEmails, failedEmails);
      var schedule := w.schedule(batch, |jobs|, sentEmails, failedEmails);
      PoolRuns(w, options, batch, |jobs|, sentEmails, failedEmails);
      var s := Run(options, Init(|jobs|, sentEmails, failedEmails), schedule);
      RecipientsDiffer(jobs);
      BatchRun(batch, jobs, options, b, schedule);
      BatchTold(batch, jobs, options, b, schedule);
      BatchUntroubled(w, options, batch, |jobs|, sentEmails, failedEmails);
      sentEmails, failedEmails := s.sent, s.failed;
      sent := AttemptEvents(batch, jobs, s.sends);
      log := log + AttemptEvents(batch, jobs, s.sends);
      DistinctJobs(jobs);
      forall i | 0 <= i < |jobs| {
        jobs[i].retryCount := s.retryCount[i];
      }
      return s.dispatcher == ReturnedNil, s.results, sent;
    }

    /** Receives one result for each job; the i-th result received is reported under the
        name of the i-th job. */
    method DrainResults(jobs: seq<EmailJob>, results: seq<Outcome>)
      requires |results| == |jobs|
      modifies this`errorLog
      ensures |errorLog| == |old(errorLog)| + |jobs| - Successes(results)
      ensures errorLog == old(errorLog) + NamedFailures(jobs, results)
    {
      var channel, i := results, 0;
      assert results[..0] == [] && jobs[..0] == [];
      while i < |jobs|
        invariant 0 <= i <= |jobs| && channel == results[i..]
        invariant errorLog == old(errorLog) + NamedFailures(jobs[..i], results[..i])
      {
        assert channel[0] == results[i];
        assert jobs[..i + 1][..i] == jobs[..i] && results[..i + 1][..i] == results[..i];
        var result := channel[0];
        channel := channel[1..];
        if !result.ok {
          errorLog := errorLog + [jobs[i].recipient];
        }
        i := i + 1;
      }
      assert jobs[..i] == jobs && results[..i] == results;
      NamedFailuresCount(jobs, results);
    }

    /** The rest of the loop's pass for a page whose jobs are built: run them and drain the
        results. `sent` lists the attempts that the pool made. */
    method RunPage(offset: nat, users: seq<User>, jobs: seq<EmailJob>, w: World) returns (done: bool, ghost sent: seq<Event>)
      requires 0 < |users| && RunsPools(w, options)
      requires NoRepeat(Ids(users)) && JobsFor(jobs, users, w)
      requires totalEmails == sentEmails + failedEmails == offset && |errorLog| == failedEmails
      modifies this, jobs
      ensures fetches == old(fetches) && log == old(log) + sent && totalEmails == offset + |users|
      ensures SendsOfBatch(offset, jobs, sent, options, done && failedEmails == 0)
      ensures forall i | 0 <= i < |jobs| :: jobs[i].retryCount == Attempts(sent, jobs[i].recipient, false)
      ensures sentEmails + failedEmails <= totalEmails && old(failedEmails) <= failedEmails
      ensures var acts := w.schedule(offset, |users|, old(sentEmails), old(failedEmails));
              && (done <==> SeeCancel !in acts) && SentByActions(sent, users, acts)
      ensures done ==>
                && sentEmails + failedEmails == totalEmails && |errorLog| == failedEmails
                && lastProcessed == Some(users[|users| - 1].id)
                && failedEmails == old(failedEmails) + |FailedUsers(sent, users)|
                && (NamesKnown(options, |users|) ==> errorLog == old(errorLog) + FailedUsers(sent, users))
      ensures !done ==> CancelledIn(w, offset, totalEmails) && sentEmails + failedEmails < totalEmails
      ensures NothingGoesWrong(w) && 0 <= options.maxRetries ==> done && failedEmails == old(failedEmails)
    {
      hide *;
      totalEmails := totalEmails + |jobs|;
      JobRecipientsDistinct(jobs, users, w);
      ghost var acts := w.schedule(offset, |users|, old(sentEmails), old(failedEmails));
      var results;
      done, results, sent := ProcessEmailBatch(offset, jobs, w);
      JobsSentByActions(jobs, users, w, sent, acts);
      if !done {
        CancelSeen(w, offset, totalEmails, old(sentEmails), old(failedEmails));
        return;
      }
      DrainResults(jobs, results);
      FailedUsersCounted(sent, users, acts);
      if NamesRight(results) {
        NamedAreFailed(jobs, users, results, sent, w);
      }

      lastProcessed := Some(users[|users| - 1].id);
    }

    /** One pass of the loop for a page that is not empty. `stored` is the number of its users
        whose token is stored. */
    method ProcessPage(offset: nat, users: seq<User>, w: World)
      returns (end: PageEnd, ghost stored: nat, ghost jobs: seq<EmailJob>, ghost sent: seq<Event>)
      requires 0 < |users| && RunsPools(w, options)
      requires NoRepeat(Ids(users))
      requires totalEmails == sentEmails + failedEmails == offset && |errorLog| == failedEmails
      modifies this
      ensures fetches == old(fetches) && stored <= |users|
      ensures log == old(log) + StoredEvents(offset, users[..stored], w) + sent
      ensures sentEmails + failedEmails <= totalEmails && old(failedEmails) <= failedEmails
      ensures end == NotBuilt <==> !AllBuilt(w, users)
      ensures end == NotBuilt ==>
                && sent == [] && StopsBuilding(w, users, stored)
                && totalEmails == offset == sentEmails + failedEmails
      ensures end != NotBuilt ==>
                && stored == |users| && JobsFor(jobs, users, w) && totalEmails == offset + |users|
                && SendsOfBatch(offset, jobs, sent, options, end == Completed && failedEmails == 0)
                && var acts := w.schedule(offset, |users|, old(sentEmails), old(failedEmails));
                && (end == Completed <==> SeeCancel !in acts) && SentByActions(sent, users, acts)
      ensures end == Completed ==>
                && sentEmails + failedEmails == totalEmails && |errorLog| == failedEmails
                && lastProcessed == Some(users[|users| - 1].id)
                && failedEmails == old(failedEmails) + |FailedUsers(sent, users)|
                && (NamesKnown(options, |users|) ==> errorLog == old(errorLog) + FailedUsers(sent, users))
      ensures end == Interrupted ==> CancelledIn(w, offset, totalEmails) && sentEmails + failedEmails < totalEmails
      ensures NothingGoesWrong(w) && 0 <= options.maxRetries && AllBuilt(w, users) ==>
                end == Completed && failedEmails == old(failedEmails)
    {
      hide *;
      ghost var before := log;
      var built := CreateEmailJobs(offset, users, w);
      if built == None {
        ghost var k :| 0 <= k <= |users| && StopsBuilding(w, users, k) && log == before + StoredEvents(offset, users[..k], w);
        assert log == before + StoredEvents(offset, users[..k], w) + [];
        StopMeansUnbuilt(w, users, k);
        return NotBuilt, k, [], [];
      }
      BuiltMeans(w, users);
      assert users[..|users|] == users;
      if |built.value| == 0 {
        assert false;
      }
      var done, attempts := RunPage(offset, users, built.value, w);
      return if done then Completed else Interrupted, |users|, built.value, attempts;
    }

    method ProcessPendingUsers(w: World, ghost pending: seq<User>)
      returns (verdict: Verdict, ghost reached: nat)
      requires 1 <= batchSize
      requires totalEmails == sentEmails == failedEmails == fetches == 0 && log == [] && errorLog == []
      requires AnswersWithPages(w, pending, batchSize) && RunsPools(w, options)
      requires NoRepeat(Ids(pending))
      modifies this
      ensures sentEmails + failedEmails <= totalEmails <= |pending|
      ensures Effects(log, pending, reached, options, false)
      ensures AsScheduled(log, pending, totalEmails, batchSize, w)
      ensures verdict == Success || verdict.SomeFailed? ==>
                && Effects(log, pending, |pending|, options, verdict == Success)
                && totalEmails == sentEmails + failedEmails == |pending|
                && fetches == PageCount(|pending|, batchSize) + 1
                && failedEmails == |errorLog| == |FailedUsers(log, pending)|
                && lastProcessed == (if pending == [] then old(lastProcessed) else Some(pending[|pending| - 1].id))
                && (NamesKnown(options, batchSize) ==> errorLog == FailedUsers(log, pending))
      ensures verdict == Success ==> sentEmails == |pending|
      ensures verdict.SomeFailed? ==> verdict == SomeFailed(failedEmails, totalEmails) && 0 < failedEmails
      ensures verdict == FetchFailed ==> w.answer(totalEmails) == None
      ensures verdict == BuildFailed ==> StopsFrom(w, pending, totalEmails, reached)
      ensures verdict == BatchCancelled ==>
                0 < fetches && CancelledIn(w, Start(batchSize, fetches - 1), totalEmails) && sentEmails + failedEmails < totalEmails
      ensures verdict == FetchFailed || verdict == BuildFailed ==> sentEmails + failedEmails == totalEmails
      ensures AllAnswered(w) && AllBuilt(w, pending) && NeverLeaves(w) ==> verdict == Success || verdict.SomeFailed?
      ensures AllAnswered(w) && AllBuilt(w, pending) && NothingGoesWrong(w) && 0 <= options.maxRetries ==> verdict == Success
    {
      hide *;
      var offset := 0;
      ghost var last := lastProcessed;
      NothingDone(pending, options, batchSize, w, last);
      NothingRead(pending, batchSize);
      while true
        invariant UpTo(Books(totalEmails, sentEmails, failedEmails, lastProcessed, fetches, log, errorLog), pending, offset,
                       options, batchSize, w, last)
        invariant offset <= |pending|
        decreases |pending| - offset
      {
        ghost var books := Books(totalEmails, sentEmails, failedEmails, lastProcessed, fetches, log, errorLog);
        UpToStopped(books, pending, offset, options, batchSize, w, last);
        StoppedMeans(books, pending, offset, options, batchSize, w);
        var answer := w.answer(offset);
        if answer == None {
          NotAnswered(w, offset);
          return FetchFailed, offset;
        }
        var users := answer.value;
        AnswerIsPage(w, pending, batchSize, offset);
        PageAt(books, pending, offset, options, batchSize, w, last);
        fetches := fetches + 1;
        if |users| == 0 {
          EverythingDone(books, pending, options, batchSize, w, last);
          break;
        }
        var end, stored, jobs, sent := ProcessPage(offset, users, w);
        ghost var now := Books(totalEmails, sentEmails, failedEmails, lastProcessed, fetches, log, errorLog);
        PageDone(books, now, pending, offset, users, stored, jobs, sent, end, options, batchSize, w, last);
        StoppedMeans(now, pending, offset + stored, options, batchSize, w);
        UnbuiltAmong(w, pending, offset, offset + |users|);
        match end {
          case NotBuilt =>
            StopsInPage(w, pending, offset, offset + |users|, stored);
            return BuildFailed, offset + stored;
          case Interrupted =>
            Leaves(w, offset, |users|, books.sent, books.failed);
            return BatchCancelled, offset + stored;
          case Completed =>
        }
        offset := offset + |users|;
      }
      if failedEmails > 0 {
        return SomeFailed(failedEmails, totalEmails), offset;
      }
      return Success, offset;
    }
  }
}
