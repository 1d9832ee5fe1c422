/** Offset paging over pending users while the table changes: users who have been handled may
    verify their address or be deleted before the next page is read, and others may register. */
module ChangingUsers {
  import opened Paging
  import opened ScheduledEmails
  import opened Sets

  ghost predicate InOrder(users: seq<User>) {
    forall i, j | 0 <= i < j < |users| :: Before(users[i], users[j])
  }

  /** Every user who is pending now and has not been read comes after those who have. */
  ghost predicate OthersAfter(read: seq<User>, now: seq<User>) {
    forall u, v | u in read && v in now && v !in read :: Before(u, v)
  }

  /** How many users at the front of the list have been read. */
  function Front(read: seq<User>, now: seq<User>): (n: nat)
    ensures n <= |now| && (forall i | 0 <= i < n :: now[i] in read)
    ensures n < |now| ==> now[n] !in read
  {
    if |now| == 0 || now[0] !in read then 0 else
    var n := Front(read, now[1..]) + 1;
    assert forall i | 0 < i < n :: now[i] == now[1..][i - 1];
    n
  }

  lemma ReadComeFirst(read: seq<User>, now: seq<User>)
    requires InOrder(now) && OthersAfter(read, now)
    ensures forall i | Front(read, now) <= i < |now| :: now[i] !in read
  {
    var n := Front(read, now);
    forall i | n <= i < |now| ensures now[i] !in read {
      assert now[n] in now;
      assert i == n || Before(now[n], now[i]);
      assert !Before(now[i], now[n]);
    }
  }

  function Members(users: seq<User>): set<User> {
    set u | u in users
  }

  lemma {:induction false} SetSize(users: seq<User>)
    requires InOrder(users)
    ensures |Members(users)| == |users|
  {
    if |users| > 0 {
      var rest, last := users[..|users| - 1], users[|users| - 1];
      SetSize(rest);
      assert forall i | 0 <= i < |rest| :: rest[i] == users[i] && Before(rest[i], last);
      assert Members(users) == Members(rest) + {last};
    }
  }

  lemma FrontMeans(read: seq<User>, now: seq<User>, u: User)
    requires InOrder(now) && OthersAfter(read, now)
    ensures u in now[..Front(read, now)] <==> u in now && u in read
  {
    var n := Front(read, now);
    ReadComeFirst(read, now);
    if u in now && u in read {
      var i :| 0 <= i < |now| && now[i] == u;
      assert i < n && now[..n][i] == u;
    }
  }

  lemma FrontOrdered(read: seq<User>, now: seq<User>)
    requires InOrder(now)
    ensures InOrder(now[..Front(read, now)])
  {
  }

  lemma FrontSize(read: seq<User>, now: seq<User>)
    requires InOrder(read) && InOrder(now) && OthersAfter(read, now)
    ensures Front(read, now) <= |read|
    ensures Front(read, now) == |read| <==> forall u | u in read :: u in now
  {
    var front := now[..Front(read, now)];
    FrontOrdered(read, now);
    SetSize(read);
    SetSize(front);
    forall u ensures u in Members(front) <==> u in now && u in read {
      FrontMeans(read, now, u);
    }
    SubsetSize(Members(front), Members(read));
    assert Members(front) == Members(read) <==> forall u | u in read :: u in now by {
      assert forall u :: u in Members(read) <==> u in read;
    }
  }

  lemma NotLater(users: seq<User>, n: nat, k: nat)
    requires InOrder(users) && n < k <= |users|
    ensures users[n] !in users[k..]
  {
    forall i | k <= i < |users| ensures users[i] != users[n] {
      assert Before(users[n], users[i]);
    }
  }

  /** Users who have been read and are still pending come before every one who has not. */
  ghost predicate KeptBefore(read: seq<User>, now: seq<User>) {
    forall u, v | u in read && u in now && v in now && v !in read :: Before(u, v)
  }

  /** If the pages left hold exactly the unread users, everyone read is still pending or no
      one else is. */
  lemma LeftMeansKept(read: seq<User>, now: seq<User>)
    requires InOrder(read) && InOrder(now)
    requires forall u | u in now[Min(|read|, |now|)..] :: u !in read
    requires forall u | u in now && u !in read :: u in now[Min(|read|, |now|)..]
    ensures KeptBefore(read, now)
    ensures (forall u | u in read :: u in now) || (forall u | u in now :: u in read)
  {
    var k := Min(|read|, |now|);
    var front, left := now[..k], now[k..];
    assert now == front + left;
    forall u, v | u in read && u in now && v in now && v !in read ensures Before(u, v) {
      assert u in front && v in left;
      var i :| 0 <= i < k && front[i] == u;
      var j :| 0 <= j < |left| && left[j] == v;
      assert Before(now[i], now[k + j]);
    }
    if k == |read| {
      forall i | 0 <= i < k ensures front[i] in read {
        assert front[i] in now;
        NotLater(now, i, k);
      }
      FrontIsAll(read, front);
    } else {
      assert left == [];
    }
  }

  lemma FrontIsAll(read: seq<User>, front: seq<User>)
    requires InOrder(read) && InOrder(front) && |front| == |read|
    requires forall i | 0 <= i < |front| :: front[i] in read
    ensures forall u | u in read :: u in front
  {
    SetSize(read);
    SetSize(front);
    SubsetSize(Members(front), Members(read));
    assert forall u :: u in read <==> u in Members(read);
    assert forall u :: u in front <==> u in Members(front);
  }

  /** When every user who has not been read comes after all who have, as when sign-ups become
      visible in the order of their times: no user is read a second time, and
      no pending user is missed if and only if every user who has been read is still pending
      or no other user is. */
  lemma NoneMissedExactly(read: seq<User>, now: seq<User>)
    requires InOrder(read) && InOrder(now) && OthersAfter(read, now)
    ensures var left := now[Min(|read|, |now|)..];
            && (forall u | u in left :: u !in read)
            && ((forall u | u in now && u !in read :: u in left)
                <==> (forall u | u in read :: u in now) || (forall u | u in now :: u in read))
  {
    var n, k := Front(read, now), Min(|read|, |now|);
    var left := now[k..];
    ReadComeFirst(read, now);
    FrontSize(read, now);
    assert forall u | u in left :: exists i | k <= i < |now| :: now[i] == u;
    if n == |read| {
      forall u | u in now && u !in read ensures u in left {
        var i :| 0 <= i < |now| && now[i] == u;
        assert left[i - k] == u;
      }
    } else if n < |now| {
      NotLater(now, n, k);
      assert now[n] in now;
    }
  }

  lemma NobodyLeft(read: seq<User>, now: seq<User>)
    requires InOrder(read) && InOrder(now) && forall u | u in now :: u in read
    ensures |now| <= |read|
  {
    SetSize(read);
    SetSize(now);
    SubsetSize(Members(now), Members(read));
  }

  /** Whatever has changed since they were read: the pages from the number of users already
      read on hold exactly the pending users who have not been read, if and only if those who
      have been and are still pending come before all others, and either all of them are
      still pending or nobody else is. */
  lemma LeftIsUnreadExactly(read: seq<User>, now: seq<User>)
    requires InOrder(read) && InOrder(now)
    ensures var left := now[Min(|read|, |now|)..];
            (forall u | u in left :: u !in read) && (forall u | u in now && u !in read :: u in left)
            <==> KeptBefore(read, now) && ((forall u | u in read :: u in now) || (forall u | u in now :: u in read))
  {
    var left := now[Min(|read|, |now|)..];
    if (forall u | u in left :: u !in read) && (forall u | u in now && u !in read :: u in left) {
      LeftMeansKept(read, now);
    }
    if KeptBefore(read, now) && forall u | u in read :: u in now {
      NoneMissedExactly(read, now);
    } else if forall u | u in now :: u in read {
      NobodyLeft(read, now);
      assert left == [];
    }
  }

  /** The other way to fail: a sign-up that becomes visible late, with a time before that of a
      user already read, is missed, and the last user read is read again. */
  lemma LateSignUp(read: seq<User>, late: User)
    requires InOrder(read) && |read| > 0 && Before(late, read[0])
    ensures var now := [late] + read;
            InOrder(now) && now[Min(|read|, |now|)..] == [read[|read| - 1]] && late !in read
  {
    var now := [late] + read;
    forall i, j | 0 <= i < j < |now| ensures Before(now[i], now[j]) {
      assert i > 0 ==> now[i] == read[i - 1];
      assert now[j] == read[j - 1];
      assert j > 1 ==> Before(read[0], read[j - 1]);
    }
    assert forall k | 0 <= k < |read| :: read[k] == now[k + 1];
  }
}
