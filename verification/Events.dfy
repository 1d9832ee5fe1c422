/** The events table, the filter builder and the repository's queries. Times are microseconds. */
module Events {
  import opened Pagination
  import opened Paging
  import opened Wrappers

  const SECOND: int := 1_000_000
  const DAY: int := 86_400 * SECOND

  // ---- Rows and the database ----

  /** A row of the events table; a text column may be NULL. */
  datatype Event = Event(
    id: nat,
    org: string,
    name: Option<string>,
    userId: Option<string>,
    username: Option<string>,
    createdAt: int,
    deleted: bool)

  /** The columns that the migrations create. */
  const COLUMNS: set<string> := {
    "id", "type", "username", "user_id", "organization_id", "name", "request_details", "metadata",
    "created_at", "updated_at", "deleted_at"}

  ghost predicate NewestFirst(es: seq<Event>) {
    forall i, j | 0 <= i < j < |es| :: es[j].createdAt <= es[i].createdAt
  }

  /** An order that ORDER BY created_at DESC may give the rows. */
  ghost predicate Ordered(order: seq<Event>, rows: seq<Event>) {
    multiset(order) == multiset(rows) && NewestFirst(order)
  }

  /** How the database answers one request: what instant a date starts at, the orders it picks
      where a query leaves a choice, the rows an OFFSET and a LIMIT leave, and whether a query
      fails for a reason of its own. */
  datatype Database = Database(
    midnight: string -> Option<int>,
    order: seq<Event> -> seq<Event>,
    rank: seq<Event> -> seq<Actor>,
    cut: (seq<Event>, int, int) -> seq<Event>,
    countFails: bool,
    selectFails: bool)

  /** The answers are ones that the queries allow. */
  ghost predicate Lawful(db: Database) {
    && (forall rows :: Ordered(db.order(rows), rows))
    && (forall rows :: Ranking(db.rank(rows), rows))
    && (forall rows, offset: nat, limit: nat | 0 < limit :: db.cut(rows, offset, limit) == Slice(rows, offset, limit))
  }

  // ---- Conditions ----

  datatype Options = Options(
    org: string,
    httpStatus: string,
    httpMethod: string,
    name: string,
    userId: string,
    username: string,
    startDate: string,
    endDate: string,
    search: string,
    paginator: Paginator)

  /** One WHERE condition. */
  datatype Cond =
    | OrgIs(org: string)
    | StatusIs(status: string)
    | StatusStarts(digits: string)
    | MethodIs(verb: string)
    | NameIs(name: string)
    | UserIs(userId: string)
    | UsernameIs(username: string)
    | Within(first: string, last: string)
    | Since(first: string)
    | Until(last: string)
    | Found(term: string)

  /** 23:59:59 of the day that starts at the given midnight. */
  function LastSecond(midnight: int): int {
    midnight + DAY - SECOND
  }

  /** The condition names only columns that exist, and its dates can be read. */
  predicate Answerable(c: Cond, db: Database) {
    match c
    case StatusIs(_) => "http_status" in COLUMNS
    case StatusStarts(_) => "http_status" in COLUMNS
    case MethodIs(_) => "http_method" in COLUMNS
    case Found(_) => "http_status" in COLUMNS && "http_method" in COLUMNS && "http_endpoint" in COLUMNS
    case Within(first, last) => db.midnight(first).Some? && db.midnight(last).Some?
    case Since(first) => db.midnight(first).Some?
    case Until(last) => db.midnight(last).Some?
    case _ => true
  }

  /** The row meets an answerable condition. */
  predicate Met(c: Cond, db: Database, e: Event)
    requires Answerable(c, db)
  {
    match c
    case OrgIs(org) => e.org == org
    case NameIs(name) => e.name == Some(name)
    case UserIs(userId) => e.userId == Some(userId)
    case UsernameIs(username) => e.username == Some(username)
    case Within(first, last) => db.midnight(first).value <= e.createdAt <= LastSecond(db.midnight(last).value)
    case Since(first) => db.midnight(first).value <= e.createdAt
    case Until(last) => e.createdAt <= LastSecond(db.midnight(last).value)
    case _ => false
  }

  predicate AllAnswerable(q: seq<Cond>, db: Database) {
    forall c | c in q :: Answerable(c, db)
  }

  predicate AllMet(q: seq<Cond>, db: Database, e: Event)
    requires AllAnswerable(q, db)
  {
    forall c | c in q :: Met(c, db, e)
  }

  /** The rows a query on the event model selects: those not soft-deleted that meet every condition. */
  function Select(rows: seq<Event>, q: seq<Cond>, db: Database): (es: seq<Event>)
    requires AllAnswerable(q, db)
  {
    if |rows| == 0 then []
    else
      var e := rows[|rows| - 1];
      Select(rows[..|rows| - 1], q, db) + (if !e.deleted && AllMet(q, db, e) then [e] else [])
  }

  // ---- What a listing asks for ----

  predicate StartsBy(date: string, db: Database, e: Event) {
    db.midnight(date).Some? && db.midnight(date).value <= e.createdAt
  }

  predicate EndsBy(date: string, db: Database, e: Event) {
    db.midnight(date).Some? && e.createdAt <= LastSecond(db.midnight(date).value)
  }

  /** The event passes every filter that is not blank. */
  predicate Wanted(o: Options, db: Database, e: Event) {
    && (Blank(o.org) || e.org == o.org)
    && (Blank(o.name) || e.name == Some(o.name))
    && (Blank(o.userId) || e.userId == Some(o.userId))
    && (Blank(o.username) || e.username == Some(o.username))
    && (Blank(o.startDate) || StartsBy(o.startDate, db, e))
    && (Blank(o.endDate) || EndsBy(o.endDate, db, e))
  }

  /** The filters that the table can answer: none on the request's status or method, no search,
      and only dates that can be read. */
  predicate Servable(o: Options, db: Database) {
    && Blank(o.httpStatus) && Blank(o.httpMethod) && Blank(o.search)
    && (Blank(o.startDate) || db.midnight(o.startDate).Some?)
    && (Blank(o.endDate) || db.midnight(o.endDate).Some?)
  }

  /** The live events that a listing is about. */
  function Matching(rows: seq<Event>, o: Options, db: Database): seq<Event> {
    if |rows| == 0 then []
    else
      var e := rows[|rows| - 1];
      Matching(rows[..|rows| - 1], o, db) + (if !e.deleted && Wanted(o, db, e) then [e] else [])
  }

  lemma LastCounted(rows: seq<Event>, e: Event)
    requires |rows| > 0
    ensures multiset(rows)[e] == multiset(rows[..|rows| - 1])[e] + (if rows[|rows| - 1] == e then 1 else 0)
  {
    assert rows == rows[..|rows| - 1] + [rows[|rows| - 1]];
  }

  lemma KeptCounted(kept: seq<Event>, last: Event, keep: bool, e: Event)
    ensures multiset(kept + (if keep then [last] else []))[e] == multiset(kept)[e] + (if keep && last == e then 1 else 0)
  {
  }

  /** Matching keeps exactly the live events that the options want. */
  lemma {:induction false} MatchingExactly(rows: seq<Event>, o: Options, db: Database, e: Event)
    ensures multiset(Matching(rows, o, db))[e] == if !e.deleted && Wanted(o, db, e) then multiset(rows)[e] else 0
  {
    hide Wanted;
    if |rows| > 0 {
      var rest, last := rows[..|rows| - 1], rows[|rows| - 1];
      MatchingExactly(rest, o, db, e);
      LastCounted(rows, e);
      KeptCounted(Matching(rest, o, db), last, !last.deleted && Wanted(o, db, last), e);
    }
  }

  function MatchingPlaces(rows: seq<Event>, o: Options, db: Database): set<nat> {
    set i: nat | i < |rows| && !rows[i].deleted && Wanted(o, db, rows[i])
  }

  lemma {:induction false} MatchingCounted(rows: seq<Event>, o: Options, db: Database)
    ensures |Matching(rows, o, db)| == |MatchingPlaces(rows, o, db)|
  {
    hide Wanted;
    if |rows| > 0 {
      var last := |rows| - 1;
      var rest, e := rows[..last], rows[last];
      MatchingCounted(rest, o, db);
      var before := MatchingPlaces(rest, o, db);
      assert MatchingPlaces(rows, o, db) == before + (if !e.deleted && Wanted(o, db, e) then {last} else {});
      assert last !in before;
    }
  }

  /** The number of matching events by columns. */
  lemma MatchingInFields(rows: seq<Event>, o: Options, db: Database)
    requires Servable(o, db)
    ensures |Matching(rows, o, db)|
         == |set i: nat | i < |rows| && !rows[i].deleted
                          && (Blank(o.org) || rows[i].org == o.org)
                          && (Blank(o.name) || rows[i].name == Some(o.name))
                          && (Blank(o.userId) || rows[i].userId == Some(o.userId))
                          && (Blank(o.username) || rows[i].username == Some(o.username))
                          && (Blank(o.startDate) || db.midnight(o.startDate).value <= rows[i].createdAt)
                          && (Blank(o.endDate) || rows[i].createdAt <= db.midnight(o.endDate).value + 86_399_000_000)|
  {
    MatchingCounted(rows, o, db);
    hide Matching, Blank;
    assert MatchingPlaces(rows, o, db)
        == set i: nat | i < |rows| && !rows[i].deleted
                        && (Blank(o.org) || rows[i].org == o.org)
                        && (Blank(o.name) || rows[i].name == Some(o.name))
                        && (Blank(o.userId) || rows[i].userId == Some(o.userId))
                        && (Blank(o.username) || rows[i].username == Some(o.username))
                        && (Blank(o.startDate) || db.midnight(o.startDate).value <= rows[i].createdAt)
                        && (Blank(o.endDate) || rows[i].createdAt <= db.midnight(o.endDate).value + 86_399_000_000);
  }

  /** Whatever the start date, an end date lets an event of that day or an earlier one pass
      if and only if it does not fall after the start of the day's last second. */
  lemma EndFilterExactly(o: Options, db: Database, e: Event)
    requires !Blank(o.endDate) && db.midnight(o.endDate).Some?
    requires Wanted(o.(endDate := ""), db, e)
    requires e.createdAt < db.midnight(o.endDate).value + DAY
    ensures Wanted(o, db, e) <==> e.createdAt <= db.midnight(o.endDate).value + DAY - SECOND
  {
  }

  /** What the built filter means. */
  ghost predicate Means(q: seq<Cond>, o: Options, db: Database) {
    && (AllAnswerable(q, db) <==> Servable(o, db))
    && (AllAnswerable(q, db) ==> forall e :: AllMet(q, db, e) <==> Wanted(o, db, e))
  }

  predicate StatusClass(status: string) {
    |status| == 3 && status[1..] == "xx"
  }

  /** The options ask for this condition. */
  predicate Asks(o: Options, c: Cond) {
    match c
    case OrgIs(org) => !Blank(o.org) && org == o.org
    case StatusIs(status) => !Blank(o.httpStatus) && !StatusClass(o.httpStatus) && status == o.httpStatus
    case StatusStarts(digits) => !Blank(o.httpStatus) && StatusClass(o.httpStatus) && digits == o.httpStatus[..1]
    case MethodIs(verb) => !Blank(o.httpMethod) && verb == o.httpMethod
    case NameIs(name) => !Blank(o.name) && name == o.name
    case UserIs(userId) => !Blank(o.userId) && userId == o.userId
    case UsernameIs(username) => !Blank(o.username) && username == o.username
    case Within(first, last) => !Blank(o.startDate) && !Blank(o.endDate) && first == o.startDate && last == o.endDate
    case Since(first) => !Blank(o.startDate) && Blank(o.endDate) && first == o.startDate
    case Until(last) => Blank(o.startDate) && !Blank(o.endDate) && last == o.endDate
    case Found(term) => !Blank(o.search) && term == o.search
  }

  lemma NoRequestColumns()
    ensures "http_status" !in COLUMNS && "http_method" !in COLUMNS
  {
    assert forall c | c in COLUMNS :: |c| != 11;
    assert |"http_status"| == 11 && |"http_method"| == 11;
  }

  lemma AskedAnswerable(q: seq<Cond>, o: Options, db: Database)
    requires forall c :: c in q <==> Asks(o, c)
    ensures AllAnswerable(q, db) <==> Servable(o, db)
  {
    NoRequestColumns();
    hide COLUMNS, Blank;
    if AllAnswerable(q, db) {
      assert Asks(o, MethodIs(o.httpMethod)) <==> MethodIs(o.httpMethod) in q;
      assert Asks(o, Found(o.search)) <==> Found(o.search) in q;
      assert Asks(o, StatusIs(o.httpStatus)) <==> StatusIs(o.httpStatus) in q;
      assert StatusClass(o.httpStatus) ==> (Asks(o, StatusStarts(o.httpStatus[..1])) <==> StatusStarts(o.httpStatus[..1]) in q);
      assert Asks(o, Within(o.startDate, o.endDate)) <==> Within(o.startDate, o.endDate) in q;
      assert Asks(o, Since(o.startDate)) <==> Since(o.startDate) in q;
      assert Asks(o, Until(o.endDate)) <==> Until(o.endDate) in q;
    }
  }

  lemma AskedMet(q: seq<Cond>, o: Options, db: Database, e: Event)
    requires forall c :: c in q <==> Asks(o, c)
    requires AllAnswerable(q, db)
    ensures AllMet(q, db, e) <==> Wanted(o, db, e)
  {
    AskedAnswerable(q, o, db);
    hide COLUMNS, Blank, LastSecond;
    if AllMet(q, db, e) {
      assert Asks(o, OrgIs(o.org)) <==> OrgIs(o.org) in q;
      assert Asks(o, NameIs(o.name)) <==> NameIs(o.name) in q;
      assert Asks(o, UserIs(o.userId)) <==> UserIs(o.userId) in q;
      assert Asks(o, UsernameIs(o.username)) <==> UsernameIs(o.username) in q;
      assert Asks(o, Within(o.startDate, o.endDate)) <==> Within(o.startDate, o.endDate) in q;
      assert Asks(o, Since(o.startDate)) <==> Since(o.startDate) in q;
      assert Asks(o, Until(o.endDate)) <==> Until(o.endDate) in q;
    }
  }

  lemma AskedMeans(q: seq<Cond>, o: Options, db: Database)
    requires forall c :: c in q <==> Asks(o, c)
    ensures Means(q, o, db)
  {
    NoRequestColumns();
    AskedAnswerable(q, o, db);
    if AllAnswerable(q, db) {
      forall e ensures AllMet(q, db, e) <==> Wanted(o, db, e) {
        AskedMet(q, o, db, e);
      }
    }
  }

  lemma {:induction false} SelectMatches(rows: seq<Event>, q: seq<Cond>, o: Options, db: Database)
    requires Means(q, o, db) && AllAnswerable(q, db)
    ensures Select(rows, q, db) == Matching(rows, o, db)
  {
    if |rows| > 0 {
      SelectMatches(rows[..|rows| - 1], q, o, db);
    }
  }

  lemma {:induction false} SameMatching(rows: seq<Event>, o: Options, db: Database, p: Options, eb: Database)
    requires forall e | e in rows :: Wanted(o, db, e) == Wanted(p, eb, e)
    ensures Matching(rows, o, db) == Matching(rows, p, eb)
  {
    hide Wanted;
    if |rows| > 0 {
      SameMatching(rows[..|rows| - 1], o, db, p, eb);
      assert rows[|rows| - 1] in rows;
    }
  }

  /** The answer to a listing: whether it succeeds, the page, and the total. */
  function Listing(rows: seq<Event>, o: Options, db: Database): (bool, seq<Event>, nat) {
    if !Servable(o, db) || db.countFails || db.selectFails then (false, [], 0)
    else
      var matching := Matching(rows, o, db);
      (true, db.cut(db.order(matching), o.paginator.Offset(), o.paginator.perPage), |matching|)
  }

  // ---- Actors ----

  /** COALESCE(NULLIF(username, ''), user_id). */
  type Actor = Option<string>

  function ActorOf(e: Event): Actor {
    if e.username == None || e.username == Some("") then e.userId else e.username
  }

  /** COUNT(*) of a group. */
  function Tally(rows: seq<Event>, a: Actor): nat {
    if |rows| == 0 then 0
    else Tally(rows[..|rows| - 1], a) + if ActorOf(rows[|rows| - 1]) == a then 1 else 0
  }

  function Actors(rows: seq<Event>): set<Actor> {
    set e | e in rows :: ActorOf(e)
  }

  ghost predicate Distinct(names: seq<Actor>) {
    forall i, j | 0 <= i < j < |names| :: names[i] != names[j]
  }

  /** One row for each group, in an order that ORDER BY events DESC may give. */
  ghost predicate Ranking(names: seq<Actor>, rows: seq<Event>) {
    && Distinct(names)
    && (forall a :: a in names <==> a in Actors(rows))
    && (forall i, j | 0 <= i < j < |names| :: Tally(rows, names[j]) <= Tally(rows, names[i]))
  }

  /** A live event of the organization in the last 24 hours. */
  predicate IsRecent(e: Event, org: string, now: int) {
    !e.deleted && now - DAY <= e.createdAt && e.org == org
  }

  /** The events that both metrics are about. */
  function Recent(rows: seq<Event>, org: string, now: int): seq<Event> {
    if |rows| == 0 then []
    else
      var e := rows[|rows| - 1];
      Recent(rows[..|rows| - 1], org, now) + (if IsRecent(e, org, now) then [e] else [])
  }

  /** Recent keeps exactly the live events of that organization and window. */
  lemma {:induction false} RecentExactly(rows: seq<Event>, org: string, now: int, e: Event)
    ensures multiset(Recent(rows, org, now))[e]
         == if IsRecent(e, org, now) then multiset(rows)[e] else 0
  {
    hide IsRecent;
    if |rows| > 0 {
      var rest, last := rows[..|rows| - 1], rows[|rows| - 1];
      RecentExactly(rest, org, now, e);
      LastCounted(rows, e);
      KeptCounted(Recent(rest, org, now), last, IsRecent(last, org, now), e);
    }
  }

  lemma {:induction false} RecentPlaces(rows: seq<Event>, org: string, now: int)
    ensures |Recent(rows, org, now)| == |set i: nat | i < |rows| && IsRecent(rows[i], org, now)|
  {
    hide IsRecent;
    if |rows| > 0 {
      var rest, last := rows[..|rows| - 1], |rows| - 1;
      RecentPlaces(rest, org, now);
      var before := set i: nat | i < |rest| && IsRecent(rest[i], org, now);
      assert (set i: nat | i < |rows| && IsRecent(rows[i], org, now))
          == before + (if IsRecent(rows[last], org, now) then {last} else {});
    }
  }

  lemma RecentInFields(rows: seq<Event>, org: string, now: int)
    ensures (set i: nat | i < |rows| && IsRecent(rows[i], org, now))
         == set i: nat | i < |rows| && !rows[i].deleted && rows[i].org == org && now - 24 * 3600 * 1_000_000 <= rows[i].createdAt
  {
  }

  function GroupPlaces(rows: seq<Event>, org: string, now: int, a: Actor): set<nat> {
    set i: nat | i < |rows| && IsRecent(rows[i], org, now) && ActorOf(rows[i]) == a
  }

  lemma {:induction false} TallyPlaces(rows: seq<Event>, org: string, now: int, a: Actor)
    ensures Tally(Recent(rows, org, now), a) == |GroupPlaces(rows, org, now, a)|
  {
    hide IsRecent, ActorOf;
    if |rows| > 0 {
      var last := |rows| - 1;
      var rest, e := rows[..last], rows[last];
      TallyPlaces(rest, org, now, a);
      TallyAppend(Recent(rest, org, now), e, a);
      GroupPlacesStep(rows, org, now, a);
    }
  }

  lemma GroupPlacesStep(rows: seq<Event>, org: string, now: int, a: Actor)
    requires |rows| > 0
    ensures var last := |rows| - 1;
            |GroupPlaces(rows, org, now, a)|
            == |GroupPlaces(rows[..last], org, now, a)| + (if IsRecent(rows[last], org, now) && ActorOf(rows[last]) == a then 1 else 0)
  {
    hide IsRecent, ActorOf;
    var last := |rows| - 1;
    var before := GroupPlaces(rows[..last], org, now, a);
    assert GroupPlaces(rows, org, now, a) == before + (if IsRecent(rows[last], org, now) && ActorOf(rows[last]) == a then {last} else {});
    assert last !in before;
  }

  /** The group's count by columns: rows with that username, if it is not empty, and rows
      without one and with that user id. */
  lemma TallyInFields(rows: seq<Event>, org: string, now: int, a: Actor)
    ensures Tally(Recent(rows, org, now), a)
         == |set i: nat | i < |rows| && !rows[i].deleted && rows[i].org == org && now - 24 * 3600 * 1_000_000 <= rows[i].createdAt
                          && (if rows[i].username.Some? && rows[i].username.value != "" then rows[i].username == a
                              else rows[i].userId == a)|
  {
    TallyPlaces(rows, org, now, a);
    hide Tally, Recent;
    assert GroupPlaces(rows, org, now, a)
        == set i: nat | i < |rows| && !rows[i].deleted && rows[i].org == org && now - 24 * 3600 * 1_000_000 <= rows[i].createdAt
                        && (if rows[i].username.Some? && rows[i].username.value != "" then rows[i].username == a
                            else rows[i].userId == a);
  }

  lemma {:induction false} ActiveTally(rows: seq<Event>, e: Event)
    requires e in rows
    ensures 0 < Tally(rows, ActorOf(e))
  {
    if e != rows[|rows| - 1] {
      ActiveTally(rows[..|rows| - 1], e);
    }
  }

  lemma RecentRow(rows: seq<Event>, org: string, now: int, i: nat)
    requires i < |rows| && IsRecent(rows[i], org, now)
    ensures rows[i] in Recent(rows, org, now)
  {
    RecentExactly(rows, org, now, rows[i]);
    assert rows[i] in multiset(rows);
    assert rows[i] in multiset(Recent(rows, org, now));
  }

  /** Fewer than five leaders are all actors. */
  lemma FewLeadersCover(names: seq<Actor>, rows: seq<Event>, e: Event)
    requires Ranking(names, rows) && |Leaders(names, rows)| < MAX_ACTORS && e in rows
    ensures Listed(Leaders(names, rows), ActorOf(e))
  {
    assert ActorOf(e) in Actors(rows);
    OmittedIsBehind(names, rows, ActorOf(e));
  }

  lemma LeaderActive(names: seq<Actor>, rows: seq<Event>, k: nat)
    requires Ranking(names, rows) && k < |Leaders(names, rows)|
    ensures Leaders(names, rows)[k].events == Tally(rows, Leaders(names, rows)[k].name) > 0
  {
    assert names[k] in Actors(rows);
    var e :| e in rows && ActorOf(e) == names[k];
    ActiveTally(rows, e);
  }

  /** The leaders by columns. */
  lemma LeadersInFields(rows: seq<Event>, org: string, now: int, names: seq<Actor>)
    requires Ranking(names, Recent(rows, org, now))
    ensures var actors := Leaders(names, Recent(rows, org, now));
            && (forall k | 0 <= k < |actors| ::
                  actors[k].events == |set i: nat | i < |rows| && !rows[i].deleted && rows[i].org == org
                                        && now - 24 * 3600 * 1_000_000 <= rows[i].createdAt
                                        && (if rows[i].username.Some? && rows[i].username.value != ""
                                            then rows[i].username == actors[k].name
                                            else rows[i].userId == actors[k].name)| > 0)
            && (|actors| < 5 ==>
                  forall i | 0 <= i < |rows| && !rows[i].deleted && rows[i].org == org
                             && now - 24 * 3600 * 1_000_000 <= rows[i].createdAt ::
                    Listed(actors, if rows[i].username.Some? && rows[i].username.value != "" then rows[i].username
                                   else rows[i].userId))
  {
    var recent := Recent(rows, org, now);
    var actors := Leaders(names, recent);
    hide Recent, Ranking, Leaders, Tally, Listed;
    forall k | 0 <= k < |actors|
      ensures actors[k].events == |set i: nat | i < |rows| && !rows[i].deleted && rows[i].org == org
                                    && now - 24 * 3600 * 1_000_000 <= rows[i].createdAt
                                    && (if rows[i].username.Some? && rows[i].username.value != ""
                                        then rows[i].username == actors[k].name
                                        else rows[i].userId == actors[k].name)| > 0
    {
      LeaderActive(names, recent, k);
      TallyInFields(rows, org, now, actors[k].name);
    }
    if |actors| < 5 {
      forall i | 0 <= i < |rows| && !rows[i].deleted && rows[i].org == org
                 && now - 24 * 3600 * 1_000_000 <= rows[i].createdAt
        ensures Listed(actors, if rows[i].username.Some? && rows[i].username.value != "" then rows[i].username
                               else rows[i].userId)
      {
        RecentRow(rows, org, now, i);
        FewLeadersCover(names, recent, rows[i]);
      }
    }
  }

  lemma TallyAppend(rows: seq<Event>, e: Event, a: Actor)
    ensures Tally(rows + [e], a) == Tally(rows, a) + (if ActorOf(e) == a then 1 else 0)
    ensures Tally(rows + [], a) == Tally(rows, a)
  {
    assert (rows + [e])[..|rows|] == rows && rows + [] == rows;
  }

  datatype ActorCount = ActorCount(name: Actor, events: nat)

  const MAX_ACTORS: nat := 5

  predicate Listed(actors: seq<ActorCount>, a: Actor) {
    exists i :: 0 <= i < |actors| && actors[i].name == a
  }

  /** At most five different actors, each with the number of its events, the busiest first,
      and no busier actor left out. */
  ghost predicate TopActors(actors: seq<ActorCount>, rows: seq<Event>) {
    && |actors| == Min(MAX_ACTORS, |Actors(rows)|)
    && (forall i | 0 <= i < |actors| :: actors[i].name in Actors(rows) && actors[i].events == Tally(rows, actors[i].name))
    && (forall i, j | 0 <= i < j < |actors| :: actors[i].name != actors[j].name && actors[j].events <= actors[i].events)
    && (forall a, i | a in Actors(rows) && !Listed(actors, a) && 0 <= i < |actors| :: Tally(rows, a) <= actors[i].events)
  }

  /** The leaders of a ranking, with their counts. */
  function Leaders(names: seq<Actor>, rows: seq<Event>): seq<ActorCount> {
    seq(Min(MAX_ACTORS, |names|), i requires 0 <= i < Min(MAX_ACTORS, |names|) => ActorCount(names[i], Tally(rows, names[i])))
  }

  lemma {:induction false} RankingSize(names: seq<Actor>)
    requires Distinct(names)
    ensures |set a | a in names| == |names|
  {
    if |names| > 0 {
      var rest, last := names[..|names| - 1], names[|names| - 1];
      RankingSize(rest);
      assert forall i | 0 <= i < |rest| :: names[i] != last;
      assert (set a | a in names) == (set a | a in rest) + {last};
    }
  }

  lemma LeadersAreTop(names: seq<Actor>, rows: seq<Event>)
    requires Ranking(names, rows)
    ensures TopActors(Leaders(names, rows), rows)
  {
    RankingSize(names);
    assert (set a | a in names) == Actors(rows);
    var actors := Leaders(names, rows);
    forall a, i | a in Actors(rows) && !Listed(actors, a) && 0 <= i < |actors| ensures Tally(rows, a) <= actors[i].events {
      OmittedIsBehind(names, rows, a);
    }
  }

  lemma OmittedIsBehind(names: seq<Actor>, rows: seq<Event>, a: Actor)
    requires a in names
    ensures Listed(Leaders(names, rows), a) || exists j :: MAX_ACTORS <= j < |names| && names[j] == a
  {
    var j :| 0 <= j < |names| && names[j] == a;
    if j < MAX_ACTORS {
      assert Leaders(names, rows)[j].name == a;
    }
  }

  // ---- The repository ----

  /** One more condition on a query. */
  method Where(q: seq<Cond>, c: Cond) returns (r: seq<Cond>)
    ensures forall d :: d in r <==> d in q || d == c
  {
    r := q + [c];
  }

  method WhereRequest(q: seq<Cond>, opts: Options) returns (r: seq<Cond>)
    ensures forall c :: c in r <==> c in q || ((c.StatusIs? || c.StatusStarts? || c.MethodIs?) && Asks(opts, c))
  {
    hide Blank;
    r := q;
    if !Blank(opts.httpStatus) {
      if |opts.httpStatus| == 3 && opts.httpStatus[1..] == "xx" {
        r := Where(r, StatusStarts(opts.httpStatus[..1]));
      } else {
        r := Where(r, StatusIs(opts.httpStatus));
      }
    }
    if !Blank(opts.httpMethod) {
      r := Where(r, MethodIs(opts.httpMethod));
    }
  }

  method WhereDates(q: seq<Cond>, opts: Options) returns (r: seq<Cond>)
    ensures forall c :: c in r <==> c in q || ((c.Within? || c.Since? || c.Until?) && Asks(opts, c))
  {
    hide Blank;
    r := q;
    if !Blank(opts.startDate) && !Blank(opts.endDate) {
      r := Where(r, Within(opts.startDate, opts.endDate));
    } else if !Blank(opts.startDate) {
      r := Where(r, Since(opts.startDate));
    } else if !Blank(opts.endDate) {
      r := Where(r, Until(opts.endDate));
    }
  }

  class EventRepo {
    var rows: seq<Event>

    constructor ()
      ensures rows == []
    {
      rows := [];
    }

    method Create(e: Event)
      modifies this
      ensures rows == old(rows) + [e]
    {
      rows := rows + [e];
    }

    /** The conditions that the options ask for, and no others. */
    method BuildQuery(opts: Options) returns (q: seq<Cond>)
      ensures forall c :: c in q <==> Asks(opts, c)
    {
      hide Blank;
      q := [];
      if !Blank(opts.org) {
        q := Where(q, OrgIs(opts.org));
      }
      q := WhereRequest(q, opts);
      if !Blank(opts.name) {
        q := Where(q, NameIs(opts.name));
      }
      if !Blank(opts.userId) {
        q := Where(q, UserIs(opts.userId));
      }
      if !Blank(opts.username) {
        q := Where(q, UsernameIs(opts.username));
      }
      q := WhereDates(q, opts);
      if !Blank(opts.search) {
        q := Where(q, Found(opts.search));
      }
    }

    /** The page asked for and the total, both over the same events. A filter that the table
        cannot answer makes the whole call fail. */
    method ListAll(opts: Options, db: Database) returns (ok: bool, events: seq<Event>, count: nat)
      requires Lawful(db)
      ensures (ok, events, count) == Listing(rows, opts, db)
      ensures ok <==>
                && !db.countFails && !db.selectFails && Blank(opts.httpStatus) && Blank(opts.httpMethod) && Blank(opts.search)
                && (Blank(opts.startDate) || db.midnight(opts.startDate).Some?)
                && (Blank(opts.endDate) || db.midnight(opts.endDate).Some?)
      ensures !ok ==> events == [] && count == 0
      ensures ok ==>
                count == |set i: nat | i < |rows| && !rows[i].deleted
                                       && (Blank(opts.org) || rows[i].org == opts.org)
                                       && (Blank(opts.name) || rows[i].name == Some(opts.name))
                                       && (Blank(opts.userId) || rows[i].userId == Some(opts.userId))
                                       && (Blank(opts.username) || rows[i].username == Some(opts.username))
                                       && (Blank(opts.startDate) || db.midnight(opts.startDate).value <= rows[i].createdAt)
                                       && (Blank(opts.endDate)
                                           || rows[i].createdAt <= db.midnight(opts.endDate).value + 86_399_000_000)|
      ensures ok ==> count == |Matching(rows, opts, db)|
      ensures ok && 0 <= opts.paginator.Offset() && 0 < opts.paginator.perPage ==>
                && events == Slice(db.order(Matching(rows, opts, db)), opts.paginator.Offset(), opts.paginator.perPage)
                && forall i, j | 0 <= i < j < |events| :: events[j].createdAt <= events[i].createdAt
    {
      var countQuery := BuildQuery(opts);
      AskedMeans(countQuery, opts, db);
      if db.countFails || !AllAnswerable(countQuery, db) {
        return false, [], 0;
      }
      SelectMatches(rows, countQuery, opts, db);
      count := |Select(rows, countQuery, db)|;

      var listQuery := BuildQuery(opts);
      AskedMeans(listQuery, opts, db);
      if db.selectFails || !AllAnswerable(listQuery, db) {
        return false, [], 0;
      }
      SelectMatches(rows, listQuery, opts, db);
      MatchingInFields(rows, opts, db);
      events := db.cut(db.order(Select(rows, listQuery, db)), opts.paginator.Offset(), opts.paginator.perPage);
      ok := true;
    }

    /** The number of places in the table that hold a recent event. */
    method Metrics(org: string, now: int) returns (count: nat)
      ensures count == |set i: nat | i < |rows| && !rows[i].deleted && rows[i].org == org
                                     && now - 24 * 3600 * 1_000_000 <= rows[i].createdAt|
      ensures count == |set i: nat | i < |rows| && IsRecent(rows[i], org, now)|
      ensures count == |Recent(rows, org, now)|
    {
      RecentPlaces(rows, org, now);
      RecentInFields(rows, org, now);
      count := |Recent(rows, org, now)|;
    }

    method TopActorMetrics(org: string, now: int, db: Database) returns (actors: seq<ActorCount>)
      requires Lawful(db)
      ensures TopActors(actors, Recent(rows, org, now))
      ensures |actors| <= 5
      ensures forall i, j | 0 <= i < j < |actors| :: actors[i].name != actors[j].name && actors[j].events <= actors[i].events
      ensures forall k | 0 <= k < |actors| ::
                actors[k].events == |set i: nat | i < |rows| && !rows[i].deleted && rows[i].org == org
                                      && now - 24 * 3600 * 1_000_000 <= rows[i].createdAt
                                      && (if rows[i].username.Some? && rows[i].username.value != ""
                                          then rows[i].username == actors[k].name
                                          else rows[i].userId == actors[k].name)| > 0
      ensures |actors| < 5 ==>
                forall i | 0 <= i < |rows| && !rows[i].deleted && rows[i].org == org
                           && now - 24 * 3600 * 1_000_000 <= rows[i].createdAt ::
                  Listed(actors, if rows[i].username.Some? && rows[i].username.value != "" then rows[i].username
                                 else rows[i].userId)
    {
      var recent := Recent(rows, org, now);
      var names := db.rank(recent);
      LeadersAreTop(names, recent);
      LeadersInFields(rows, org, now, names);
      actors := Leaders(names, recent);
    }
  }
}
