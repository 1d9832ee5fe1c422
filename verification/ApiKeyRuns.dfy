/** What holds over every serial run of key creation, revocation, use and expiry sweeps. */
module ApiKeyRuns {
  import opened Wrappers
  import opened ApiKeys
  import opened Sets

  datatype Step =
    | CreateKey(at: int, id: nat, org: nat, name: string, value: string)
    | RevokeKey(at: int, org: nat, id: nat, kind: RevocationType)
    | UseKey(at: int, id: nat)
    | Sweep(at: int)

  function After(t: Table, s: Step): Table {
    match s
    case CreateKey(at, id, org, name, value) => AfterHandleCreate(t, id, org, name, value, at)
    case RevokeKey(at, org, id, kind) => AfterHandleRevoke(t, org, id, kind, at)
    case UseKey(at, id) => AfterTouch(t, id, at)
    case Sweep(at) => AfterSweep(t, at)
  }

  function Replay(t: Table, steps: seq<Step>): Table {
    if |steps| == 0 then t else After(Replay(t, steps[..|steps| - 1]), steps[|steps| - 1])
  }

  ghost predicate ClockOrdered(steps: seq<Step>) {
    forall i, j | 0 <= i < j < |steps| :: steps[i].at <= steps[j].at
  }

  // ---- The cap ----

  ghost predicate WithinCap(t: Table) {
    forall org :: |LiveIds(t, org)| <= MAX_KEYS
  }

  /** Revoking, using and sweeping keys make no key live. */
  lemma OthersShrinkLive(t: Table, s: Step, org: nat)
    requires !s.CreateKey?
    ensures LiveIds(After(t, s), org) <= LiveIds(t, org)
  {
  }

  /** Over every serial run, no organization ever has more than ten live keys. */
  lemma {:induction false} CapHolds(t: Table, steps: seq<Step>)
    requires WithinCap(t)
    ensures WithinCap(Replay(t, steps))
  {
    if |steps| > 0 {
      var before, s := Replay(t, steps[..|steps| - 1]), steps[|steps| - 1];
      CapHolds(t, steps[..|steps| - 1]);
      forall org ensures |LiveIds(After(before, s), org)| <= MAX_KEYS {
        if s.CreateKey? {
          if s.id !in before {
            LiveIdsInsert(before, s.id, NewKey(s.org, s.name, s.value, s.at), org);
          }
        } else {
          OthersShrinkLive(before, s, org);
          SubsetSize(LiveIds(After(before, s), org), LiveIds(before, org));
        }
      }
    }
  }

  // ---- Names ----

  ghost predicate NamesUnique(t: Table) {
    forall i, j | i in t && j in t && i != j && t[i].Live() && t[j].Live() && t[i].org == t[j].org :: t[i].name != t[j].name
  }

  lemma {:induction false} NamesStayUnique(t: Table, steps: seq<Step>)
    requires NamesUnique(t)
    ensures NamesUnique(Replay(t, steps))
  {
    if |steps| > 0 {
      var before, s := Replay(t, steps[..|steps| - 1]), steps[|steps| - 1];
      NamesStayUnique(t, steps[..|steps| - 1]);
      var after := After(before, s);
      forall i, j | i in after && j in after && i != j && after[i].Live() && after[j].Live() && after[i].org == after[j].org
        ensures after[i].name != after[j].name
      {
        assert s.CreateKey? || (i in before && j in before && before[i].Live() && before[j].Live()
                                && before[i].name == after[i].name && before[j].name == after[j].name);
      }
    }
  }

  // ---- The life of a key ----

  /** Active, then with an expiry, then deleted. */
  function Phase(k: Key): nat {
    if !k.Live() then 2 else if k.expiresAt.Some? then 1 else 0
  }

  /** How a row may develop. */
  predicate Forward(k: Key, l: Key) {
    && l.org == k.org && l.name == k.name && l.value == k.value
    && Phase(k) <= Phase(l)
    && (k.expiresAt.Some? ==> l.expiresAt.Some?)
    && (!k.Live() ==> l == k)
  }

  /** Rows are never removed. Every key keeps its organization, name and value and only moves
      forward; an expiry is never cleared, and a deleted row is never touched again. */
  lemma {:induction false} KeysMoveForward(t: Table, steps: seq<Step>, id: nat)
    requires id in t
    ensures id in Replay(t, steps) && Forward(t[id], Replay(t, steps)[id])
  {
    if |steps| > 0 {
      KeysMoveForward(t, steps[..|steps| - 1], id);
    }
  }

  // ---- Revocation ----

  /** For every instant of the day: what lies between the call and the expiry it sets. */
  lemma RevocationWindow(k: Key, kind: RevocationType, now: int)
    requires kind != Invalid
    ensures var ahead := Revoked(k, kind, now).expiresAt.value - now;
            match kind
            case Immediate => -HOUR < ahead <= 23 * HOUR
            case Day => 23 * HOUR < ahead <= 47 * HOUR
            case Week => 167 * HOUR < ahead <= 191 * HOUR
            case Invalid => true
    ensures Revoked(k, kind, now).IsRevoked(now) <==> kind == Immediate && 23 * HOUR <= now % DAY
    ensures k.Live() ==> (Revoked(k, kind, now).Live() <==> kind != Immediate)
  {
  }

  /** The midnights from the day of the call that the expiry is set by. */
  function Days(kind: RevocationType): int
    requires kind != Invalid
  {
    match kind
    case Immediate => 1
    case Day => 2
    case Week => 8
  }

  /** The midnights between two instants. */
  function Midnights(now: int, later: int): int {
    (Midnight(later) - Midnight(now)) / DAY
  }

  /** When a key is revoked for a day or a week and then once more, before that expiry, the
      second call moves the expiry later if and only if its days reach further. One for a
      week after one for a day always does, an immediate one never. */
  lemma SecondRevokeExtendsExactly(k: Key, first: RevocationType, second: RevocationType, now: int, later: int)
    requires (first == Day || first == Week) && second != Invalid && now <= later
    requires !Revoked(k, first, now).IsRevoked(later)
    ensures var once := Revoked(k, first, now);
            var twice := Revoked(once, second, later);
            && (once.expiresAt.value < twice.expiresAt.value <==> Days(first) < Midnights(now, later) + Days(second))
            && (second == Immediate ==> twice.expiresAt.value <= once.expiresAt.value)
            && (first == Day && second == Week ==> once.expiresAt.value < twice.expiresAt.value)
  {
  }

  // ---- Sweeps ----

  /** The time of the last sweep of a run. */
  function LastSweep(steps: seq<Step>): Option<int> {
    if |steps| == 0 then None
    else if steps[|steps| - 1].Sweep? then Some(steps[|steps| - 1].at)
    else LastSweep(steps[..|steps| - 1])
  }

  ghost predicate NoneOverdue(t: Table, swept: Option<int>) {
    swept.Some? ==> forall id | id in t && t[id].Live() && t[id].expiresAt.Some? :: swept.value <= t[id].expiresAt.value
  }

  lemma {:induction false} LastSweepInRun(steps: seq<Step>)
    requires LastSweep(steps).Some?
    ensures exists i | 0 <= i < |steps| :: steps[i].Sweep? && steps[i].at == LastSweep(steps).value
  {
    if !steps[|steps| - 1].Sweep? {
      LastSweepInRun(steps[..|steps| - 1]);
      var i :| 0 <= i < |steps| - 1 && steps[..|steps| - 1][i].Sweep? && steps[..|steps| - 1][i].at == LastSweep(steps).value;
      assert steps[i] == steps[..|steps| - 1][i];
    }
  }

  /** In every reachable state each live key, and so each key that FetchByValue accepts, has
      no expiry or one that is not before the last sweep. */
  lemma {:induction false} SweepsAreThorough(t: Table, steps: seq<Step>)
    requires ClockOrdered(steps)
    ensures NoneOverdue(Replay(t, steps), LastSweep(steps))
  {
    if |steps| > 0 {
      var rest, s := steps[..|steps| - 1], steps[|steps| - 1];
      SweepsAreThorough(t, rest);
      if LastSweep(steps).Some? {
        if !s.Sweep? {
          LastSweepInRun(rest);
          assert LastSweep(steps).value <= s.at;
        }
        var before, after := Replay(t, rest), Replay(t, steps);
        forall id | id in after && after[id].Live() && after[id].expiresAt.Some?
          ensures LastSweep(steps).value <= after[id].expiresAt.value
        {
          if s.RevokeKey? && id == s.id && id in before && s.kind != Invalid {
            RevocationWindow(before[id], s.kind, s.at);
          }
        }
      }
    }
  }

  predicate Touches(s: Step, id: nat) {
    s.RevokeKey? && s.id == id
  }

  /** A key with an expiry that is not revoked again stays accepted up to the first sweep
      after its expiry and no longer. Until that sweep it is accepted although it may be
      past its expiry. */
  lemma {:induction false} AcceptedUntilSwept(t: Table, steps: seq<Step>, id: nat)
    requires id in t && t[id].Live() && t[id].expiresAt.Some?
    requires forall s | s in steps :: !Touches(s, id)
    ensures id in Replay(t, steps) && Replay(t, steps)[id].expiresAt == t[id].expiresAt
    ensures Replay(t, steps)[id].Live() <==> forall s | s in steps && s.Sweep? :: s.at <= t[id].expiresAt.value
  {
    if |steps| > 0 {
      var rest, s := steps[..|steps| - 1], steps[|steps| - 1];
      assert steps == rest + [s];
      assert s in steps && !Touches(s, id);
      AcceptedUntilSwept(t, rest, id);
    }
  }

  /** The grace period of a delayed revocation: 23 hours for a day and 167 for a week. */
  function Grace(kind: RevocationType): int {
    if kind == Day then 23 * HOUR else 167 * HOUR
  }

  /** After a day or week revocation, and as long as it is not repeated, the key is accepted
      throughout its grace period and is gone once a sweep runs a further day after it. */
  lemma RevocationGrace(t: Table, id: nat, kind: RevocationType, now: int, steps: seq<Step>)
    requires id in t && t[id].Live() && (kind == Day || kind == Week)
    requires forall s | s in steps :: !Touches(s, id)
    ensures var after := Replay(AfterRevoke(t, id, kind, now), steps);
            && id in after
            && ((forall s | s in steps :: s.at <= now + Grace(kind)) ==> after[id].Live())
            && ((exists s :: s in steps && s.Sweep? && now + Grace(kind) + DAY < s.at) ==> !after[id].Live())
  {
    RevocationWindow(t[id], kind, now);
    AcceptedUntilSwept(AfterRevoke(t, id, kind, now), steps, id);
  }

  /** An immediate revocation takes effect at once and for good, whatever expiry it sets. */
  lemma ImmediateIsFinal(t: Table, id: nat, now: int, steps: seq<Step>)
    requires id in t && t[id].Live()
    ensures var revoked := AfterRevoke(t, id, Immediate, now);
            && id in revoked && !revoked[id].Live()
            && id in Replay(revoked, steps) && Replay(revoked, steps)[id] == revoked[id]
  {
    KeysMoveForward(AfterRevoke(t, id, Immediate, now), steps, id);
  }

  // ---- Creation and use ----

  /** The time of the last use of a key in a run. */
  function LastUse(steps: seq<Step>, id: nat): Option<int> {
    if |steps| == 0 then None
    else if steps[|steps| - 1].UseKey? && steps[|steps| - 1].id == id then Some(steps[|steps| - 1].at)
    else LastUse(steps[..|steps| - 1], id)
  }

  /** A live key without an expiry that nobody revokes stays as it is, but for its last use. */
  lemma {:induction false} UnrevokedKeyStays(t: Table, steps: seq<Step>, id: nat)
    requires id in t && t[id].Live() && t[id].expiresAt == None
    requires forall s | s in steps :: !Touches(s, id)
    ensures id in Replay(t, steps)
    ensures Replay(t, steps)[id] == if LastUse(steps, id) == None then t[id] else t[id].(lastUsedAt := LastUse(steps, id))
  {
    if |steps| > 0 {
      var rest, s := steps[..|steps| - 1], steps[|steps| - 1];
      assert steps == rest + [s];
      assert s in steps && !Touches(s, id);
      UnrevokedKeyStays(t, rest, id);
    }
  }

  /** A request with an unused id and a name that no live key of the organization has creates
      a key if and only if fewer than ten are live. The key then has the values asked for and
      is accepted for good unless somebody revokes it; only its last use changes. */
  lemma CreatedKeyLives(t: Table, at: int, id: nat, org: nat, name: string, value: string, steps: seq<Step>)
    requires id !in t
    requires forall i | i in t && t[i].org == org && t[i].deletedAt == None :: t[i].name != name
    requires forall s | s in steps :: !Touches(s, id)
    ensures var first := After(t, CreateKey(at, id, org, name, value));
            && (id in first <==> |set i | i in t && t[i].org == org && t[i].deletedAt == None| < 10)
            && (id !in first ==> first == t)
            && (id in first ==>
                  && first.Keys == t.Keys + {id} && (forall i | i in t :: first[i] == t[i])
                  && id in Replay(first, steps)
                  && Replay(first, steps)[id] == Key(org, name, value, None, None, LastUse(steps, id), at))
  {
    LiveIdsInFields(t, org);
    assert !NameTaken(t, org, name);
    var first := After(t, CreateKey(at, id, org, name, value));
    if id in first {
      UnrevokedKeyStays(first, steps, id);
    }
  }

  // ---- Revoking twice ----

  lemma {:induction false} ReplayConcat(t: Table, a: seq<Step>, b: seq<Step>)
    ensures Replay(t, a + b) == Replay(Replay(t, a), b)
  {
    if |b| == 0 {
      assert a + b == a;
    } else {
      ReplayConcat(t, a, b[..|b| - 1]);
      assert (a + b)[..|a + b| - 1] == a + b[..|b| - 1];
    }
  }

  lemma ReplayOne(t: Table, s: Step)
    ensures Replay(t, [s]) == After(t, s)
  {
    assert [s][..0] == [];
    assert Replay(t, [s][..0]) == t;
  }

  /** Over a whole run: a live key is revoked through the handler for a day or a week, other
      steps follow, and then the handler is asked to revoke it again. The key ends with a
      later expiry than the first call gave it if and only if the second call comes before
      that expiry and its days reach further; otherwise its expiry is the first one or earlier. */
  lemma RevokedTwiceExactly(t: Table, org: nat, id: nat, first: RevocationType, now: int, between: seq<Step>,
                            second: RevocationType, later: int)
    requires id in t && t[id].Live() && t[id].org == org && !t[id].IsRevoked(now)
    requires (first == Day || first == Week) && second != Invalid
    requires now <= later && (forall s | s in between :: s.at <= later && !Touches(s, id))
    ensures var end := Replay(t, [RevokeKey(now, org, id, first)] + between + [RevokeKey(later, org, id, second)]);
            var expiry := Midnight(now) + Days(first) * DAY - HOUR;
            && id in end && end[id].expiresAt.Some?
            && (expiry < end[id].expiresAt.value <==> later < expiry && Days(first) < Midnights(now, later) + Days(second))
  {
    var one, two := RevokeKey(now, org, id, first), RevokeKey(later, org, id, second);
    ReplayConcat(t, [one] + between, [two]);
    ReplayConcat(t, [one], between);
    ReplayOne(t, one);
    var revoked := AfterRevoke(t, id, first, now);
    assert After(t, one) == revoked;
    var mid := Replay(revoked, between);
    ReplayOne(mid, two);
    AcceptedUntilSwept(revoked, between, id);
    KeysMoveForward(revoked, between, id);
    var k := Revoked(t[id], first, now);
    assert mid[id].expiresAt == k.expiresAt;
    if later < k.expiresAt.value {
      assert mid[id].Live() && !mid[id].IsRevoked(later);
      SecondRevokeExtendsExactly(t[id], first, second, now, later);
    } else {
      assert After(mid, two) == mid;
    }
  }

  // ---- The cap counts keys that the list leaves out ----

  /** Creation counts live keys, the list shows unexpired ones. The counts differ exactly
      while some live key of the organization is past its expiry, waiting for a sweep. */
  lemma CapAndListAgree(t: Table, org: nat, now: int)
    ensures |ListedIds(t, org, now)| <= |LiveIds(t, org)|
    ensures |ListedIds(t, org, now)| == |LiveIds(t, org)| <==> forall id | id in LiveIds(t, org) :: !t[id].IsRevoked(now)
  {
    var listed, live := ListedIds(t, org, now), LiveIds(t, org);
    SubsetSize(listed, live);
    if id :| id in live && t[id].IsRevoked(now) {
      SubsetSize(listed, live - {id});
      assert |live - {id}| == |live| - 1;
    } else {
      assert listed == live;
    }
  }
}
