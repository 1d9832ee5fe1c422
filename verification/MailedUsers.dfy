/** Who is mailed, told in the columns of the users table and the entries of the log. */
module MailedUsers {
  import opened ScheduledEmails
  import opened WorkerPool
  import opened Wrappers

  lemma {:induction false} StoredIsListed(log: seq<Event>, e: Event)
    requires e in log && e.Stored?
    ensures e.user in StoredUsers(log)
  {
    var last := log[|log| - 1];
    if e != last {
      assert e in log[..|log| - 1];
      StoredIsListed(log[..|log| - 1], e);
    }
  }

  lemma {:induction false} AttemptIsStored(log: seq<Event>, e: Event)
    requires TokensBeforeSends(log) && e in log && e.Attempted?
    ensures Stored(e.batch, e.user, e.token) in log
  {
    var last := log[|log| - 1];
    if e != last {
      assert e in log[..|log| - 1];
      AttemptIsStored(log[..|log| - 1], e);
    }
  }

  /** Every user for whom a token is stored or an email attempted is, in the table, not
      deleted, not verified and of status pending. */
  lemma OnlyPendingMailed(table: set<User>, pending: seq<User>, log: seq<Event>, reached: nat, o: Options, clean: bool, e: Event)
    requires Selection(pending, table) && Effects(log, pending, reached, o, clean) && e in log
    ensures exists u :: u in table && u.id == e.user && u.deletedAt == None && u.verifiedAt == None && u.status == Pending
  {
    if e.Attempted? {
      AttemptIsStored(log, e);
      StoredIsListed(log, Stored(e.batch, e.user, e.token));
    } else {
      StoredIsListed(log, e);
    }
    var ids := Ids(pending[..reached]);
    assert e.user in ids;
    var i :| 0 <= i < |ids| && ids[i] == e.user;
    assert pending[i] in pending && pending[i].id == e.user;
  }

  /** The list that is paged through holds exactly the users of the table that are not
      deleted, not verified and of status pending, the oldest first, and by id among users of
      the same time. */
  lemma PendingInFields(table: set<User>, pending: seq<User>)
    requires Selection(pending, table)
    ensures forall u :: u in pending <==> u in table && u.deletedAt == None && u.verifiedAt == None && u.status == Pending
    ensures forall i, j | 0 <= i < j < |pending| ::
              && pending[i].createdAt <= pending[j].createdAt
              && (pending[i].createdAt == pending[j].createdAt ==> pending[i].id < pending[j].id)
  {
  }

  /** The number of places in the log that hold an attempt for the user with that outcome. */
  lemma {:induction false} AttemptsCounted(log: seq<Event>, user: nat, ok: bool)
    ensures Attempts(log, user, ok) == |AttemptPlaces(log, user, ok)|
  {
    if |log| > 0 {
      var last := |log| - 1;
      AttemptsCounted(log[..last], user, ok);
      AttemptPlacesStep(log, user, ok);
    }
  }

  predicate IsAttempt(e: Event, user: nat, ok: bool) {
    e.Attempted? && e.user == user && e.ok == ok
  }

  function AttemptPlaces(log: seq<Event>, user: nat, ok: bool): set<nat> {
    set j: nat | j < |log| && IsAttempt(log[j], user, ok)
  }

  lemma AttemptPlacesStep(log: seq<Event>, user: nat, ok: bool)
    requires |log| > 0
    ensures var last := |log| - 1;
            |AttemptPlaces(log, user, ok)| == |AttemptPlaces(log[..last], user, ok)| + (if IsAttempt(log[last], user, ok) then 1 else 0)
  {
    hide IsAttempt;
    var last := |log| - 1;
    var before := AttemptPlaces(log[..last], user, ok);
    assert AttemptPlaces(log, user, ok) == before + (if IsAttempt(log[last], user, ok) then {last} else {});
    assert last !in before;
  }

  /** The failed users are those without an attempt that went through. */
  lemma {:induction false} FailedUsersExactly(log: seq<Event>, users: seq<User>, id: nat)
    ensures id in FailedUsers(log, users) <==>
              exists i | 0 <= i < |users| :: users[i].id == id && AttemptPlaces(log, users[i].id, true) == {}
  {
    if |users| > 0 {
      var rest, last := users[..|users| - 1], users[|users| - 1];
      FailedUsersExactly(log, rest, id);
      AttemptsCounted(log, last.id, true);
      assert forall i | 0 <= i < |rest| :: rest[i] == users[i];
    }
  }
}
