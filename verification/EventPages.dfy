/** Pages of events in the order created_at DESC. That order leaves events with equal times in
    any sequence, and each query may choose its own. */
module EventPages {
  import opened Events
  import opened Int64
  import opened Pagination
  import opened Paging

  // ---- Orders ----

  ghost predicate NoRepeats(es: seq<Event>) {
    forall e :: multiset(es)[e] <= 1
  }

  /** The events that are at least as new as the given time. */
  function Newer(es: seq<Event>, time: int): seq<Event> {
    if |es| == 0 then []
    else Newer(es[..|es| - 1], time) + (if time <= es[|es| - 1].createdAt then [es[|es| - 1]] else [])
  }

  lemma {:induction false} NewerCounts(es: seq<Event>, time: int, e: Event)
    ensures multiset(Newer(es, time))[e] == if time <= e.createdAt then multiset(es)[e] else 0
  {
    if |es| > 0 {
      NewerCounts(es[..|es| - 1], time, e);
      assert es == es[..|es| - 1] + [es[|es| - 1]];
    }
  }

  /** The events before the given place are at least as new as the given time, the others are not. */
  ghost predicate Parts(es: seq<Event>, time: int, at: nat) {
    && at <= |es|
    && (forall i | 0 <= i < at :: time <= es[i].createdAt)
    && (forall i | at <= i < |es| :: es[i].createdAt < time)
  }

  lemma {:induction false} NewerIsPrefix(es: seq<Event>, time: int)
    requires NewestFirst(es)
    ensures Parts(es, time, |Newer(es, time)|) && Newer(es, time) == es[..|Newer(es, time)|]
  {
    if |es| > 0 {
      var rest, last := es[..|es| - 1], es[|es| - 1];
      if time <= last.createdAt {
        NewerAll(es, time);
      } else {
        NewerIsPrefix(rest, time);
        assert Newer(es, time) == Newer(rest, time) == rest[..|Newer(rest, time)|] == es[..|Newer(rest, time)|];
      }
    }
  }

  lemma {:induction false} NewerAll(es: seq<Event>, time: int)
    requires forall i | 0 <= i < |es| :: time <= es[i].createdAt
    ensures Newer(es, time) == es
  {
    if |es| > 0 {
      var rest, last := es[..|es| - 1], es[|es| - 1];
      NewerAll(rest, time);
      assert Newer(es, time) == rest + [last];
      assert es == rest + [last];
    }
  }

  /** A cut that no tie spans: the same events come before it in every order. */
  predicate CleanCut(order: seq<Event>, at: nat) {
    at == 0 || |order| <= at || order[at - 1].createdAt != order[at].createdAt
  }

  lemma CutIsNewer(es: seq<Event>, at: nat)
    requires NewestFirst(es) && 0 < at < |es| && CleanCut(es, at)
    ensures |Newer(es, es[at - 1].createdAt)| == at
  {
    NewerIsPrefix(es, es[at - 1].createdAt);
  }

  lemma NewerDetermined(a: seq<Event>, b: seq<Event>, time: int)
    requires multiset(a) == multiset(b)
    ensures multiset(Newer(a, time)) == multiset(Newer(b, time))
    ensures |Newer(a, time)| == |Newer(b, time)|
  {
    forall e ensures multiset(Newer(a, time))[e] == multiset(Newer(b, time))[e] {
      NewerCounts(a, time, e);
      NewerCounts(b, time, e);
    }
    SameLength(Newer(a, time), Newer(b, time));
  }

  lemma CutDetermined(rows: seq<Event>, a: seq<Event>, b: seq<Event>, at: nat)
    requires Ordered(a, rows) && Ordered(b, rows) && at <= |rows| && CleanCut(a, at)
    ensures |a| == |b| == |rows| && multiset(a[..at]) == multiset(b[..at])
  {
    hide Newer, Parts, NewestFirst;
    SameLength(a, rows);
    SameLength(b, rows);
    if at == |rows| {
      assert a[..at] == a && b[..at] == b;
    } else if at > 0 {
      var time := a[at - 1].createdAt;
      CutIsNewer(a, at);
      NewerIsPrefix(a, time);
      NewerIsPrefix(b, time);
      NewerDetermined(a, b, time);
    }
  }

  /** So between two clean cuts as well. */
  lemma PieceDetermined(rows: seq<Event>, a: seq<Event>, b: seq<Event>, from: nat, to: nat)
    requires Ordered(a, rows) && Ordered(b, rows) && from <= to <= |rows| && CleanCut(a, from) && CleanCut(a, to)
    ensures |a| == |b| == |rows| && multiset(a[from..to]) == multiset(b[from..to])
  {
    hide Ordered, CleanCut;
    CutDetermined(rows, a, b, from);
    CutDetermined(rows, a, b, to);
    assert a[..to] == a[..from] + a[from..to];
    assert b[..to] == b[..from] + b[from..to];
    assert multiset(a[from..to]) == multiset(a[..to]) - multiset(a[..from]);
    assert multiset(b[from..to]) == multiset(b[..to]) - multiset(b[..from]);
  }

  lemma SameLength(a: seq<Event>, b: seq<Event>)
    requires multiset(a) == multiset(b)
    ensures |a| == |b|
  {
    assert |multiset(a)| == |a| && |multiset(b)| == |b|;
  }

  lemma OrderedLength(order: seq<Event>, rows: seq<Event>)
    requires Ordered(order, rows)
    ensures |order| == |rows|
  {
    SameLength(order, rows);
  }

  // ---- Reading all pages ----

  /** The rows that pages 1, 2, ... show when page k + 1 is cut from orders[k]. */
  function Pages(orders: seq<seq<Event>>, size: nat): seq<Event> {
    if |orders| == 0 then []
    else
      var k := |orders| - 1;
      Pages(orders[..k], size) + Slice(orders[k], Start(size, k), size)
  }

  ghost predicate AllOrdered(orders: seq<seq<Event>>, rows: seq<Event>) {
    forall k | 0 <= k < |orders| :: Ordered(orders[k], rows)
  }

  /** However ties are broken, the page lengths add up to the total. */
  lemma {:induction false} LengthsAddUp(orders: seq<seq<Event>>, rows: seq<Event>, size: nat)
    requires AllOrdered(orders, rows)
    ensures |Pages(orders, size)| == Min(Start(size, |orders|), |rows|)
  {
    if |orders| > 0 {
      var k := |orders| - 1;
      LengthsAddUp(orders[..k], rows, size);
      SameLength(orders[k], rows);
    }
  }

  lemma PagesLast(orders: seq<seq<Event>>, size: nat)
    requires |orders| > 0
    ensures var k := |orders| - 1;
            Pages(orders, size) == Pages(orders[..k], size) + Slice(orders[k], Start(size, k), size)
  {
  }

  lemma NoPages(order: seq<Event>, size: nat)
    ensures Pages([], size) == [] == order[..Min(Start(size, 0), |order|)]
  {
  }

  lemma SliceIsPiece(order: seq<Event>, from: nat, size: nat)
    ensures 0 <= Min(from, |order|) <= Min(from + size, |order|) <= |order|
    ensures Slice(order, from, size) == order[Min(from, |order|)..Min(from + size, |order|)]
  {
  }

  lemma NextStart(size: nat, k: nat)
    ensures Start(size, k) + size == Start(size, k + 1)
  {
  }

  /** With one fixed order the pages are the ordered list, cut into pieces: no gap, no repeat. */
  lemma {:induction false} OneOrderTiles(order: seq<Event>, size: nat, orders: seq<seq<Event>>)
    requires forall k | 0 <= k < |orders| :: orders[k] == order
    ensures Pages(orders, size) == order[..Min(Start(size, |orders|), |order|)]
  {
    hide *;
    if |orders| > 0 {
      var k := |orders| - 1;
      OneOrderTiles(order, size, orders[..k]);
      PagesLast(orders, size);
      NextStart(size, k);
      SliceIsPiece(order, Start(size, k), size);
      var a, b := Min(Start(size, k), |order|), Min(Start(size, k + 1), |order|);
      assert order[..b] == order[..a] + order[a..b];
    } else {
      NoPages(order, size);
    }
  }

  /** No page boundary falls between two events with the same time. */
  ghost predicate NoTieAcrossPages(order: seq<Event>, size: nat) {
    forall k: nat | 0 < k :: CleanCut(order, Start(size, k))
  }

  lemma BoundaryClean(order: seq<Event>, size: nat, k: nat)
    requires NoTieAcrossPages(order, size)
    ensures CleanCut(order, Min(Start(size, k), |order|))
  {
    assert k > 0 ==> CleanCut(order, Start(size, k));
  }

  lemma ButLast(orders: seq<seq<Event>>, rows: seq<Event>)
    requires AllOrdered(orders, rows) && |orders| > 0
    ensures AllOrdered(orders[..|orders| - 1], rows) && Ordered(orders[|orders| - 1], rows)
  {
  }

  lemma {:induction false} CleanCutsTile(rows: seq<Event>, order: seq<Event>, orders: seq<seq<Event>>, size: nat)
    requires Ordered(order, rows) && AllOrdered(orders, rows) && NoTieAcrossPages(order, size)
    ensures |order| == |rows|
    ensures multiset(Pages(orders, size)) == multiset(order[..Min(Start(size, |orders|), |rows|)])
  {
    hide *;
    OrderedLength(order, rows);
    if |orders| > 0 {
      var k := |orders| - 1;
      var a, b := Min(Start(size, k), |rows|), Min(Start(size, k + 1), |rows|);
      ButLast(orders, rows);
      PagesLast(orders, size);
      OrderedLength(orders[k], rows);
      CleanCutsTile(rows, order, orders[..k], size);
      BoundaryClean(order, size, k);
      BoundaryClean(order, size, k + 1);
      NextStart(size, k);
      SliceIsPiece(orders[k], Start(size, k), size);
      PieceDetermined(rows, order, orders[k], a, b);
      assert order[..b] == order[..a] + order[a..b];
    } else {
      NoPages(order, size);
    }
  }

  lemma {:induction false} NeverShown(orders: seq<seq<Event>>, size: nat, e: Event)
    requires forall k | 0 <= k < |orders| :: e !in Slice(orders[k], Start(size, k), size)
    ensures e !in Pages(orders, size)
  {
    if |orders| > 0 {
      NeverShown(orders[..|orders| - 1], size, e);
    }
  }

  /** The order with the events on both sides of a cut exchanged. */
  function Exchanged(order: seq<Event>, at: nat): seq<Event>
    requires 0 < at < |order|
  {
    order[at - 1 := order[at]][at := order[at - 1]]
  }

  lemma ExchangeOrdered(order: seq<Event>, rows: seq<Event>, at: nat)
    requires Ordered(order, rows) && 0 < at < |order| && order[at - 1].createdAt == order[at].createdAt
    ensures Ordered(Exchanged(order, at), rows)
  {
  }

  /** The orders of a reader for whom the tie at the start of page k + 1 is broken one way up
      to that page and the other way on it. */
  function Unlucky(order: seq<Event>, size: nat, k: nat, n: nat): seq<seq<Event>>
    requires 0 < Start(size, k) < |order|
  {
    seq(n, j requires 0 <= j < n => Choice(order, size, k, j))
  }

  function Choice(order: seq<Event>, size: nat, k: nat, j: nat): seq<Event>
    requires 0 < Start(size, k) < |order|
  {
    if j == k then Exchanged(order, Start(size, k)) else order
  }

  lemma NotElsewhere(order: seq<Event>, at: nat, from: nat, size: nat)
    requires NoRepeats(order) && at < |order| && !(from <= at < from + size)
    ensures order[at] !in Slice(order, from, size)
  {
    var e, page := order[at], Slice(order, from, size);
    if e in page {
      var i :| 0 <= i < |page| && page[i] == e;
      Apart(order, Min(at, from + i), if at < from + i then from + i else at);
    }
  }

  lemma Apart(es: seq<Event>, i: nat, j: nat)
    requires NoRepeats(es) && i < j < |es|
    ensures es[i] != es[j]
  {
    assert es == es[..j] + [es[j]] + es[j + 1..];
    assert es[i] in es[..j];
    assert multiset(es)[es[j]] == multiset(es[..j])[es[j]] + 1 + multiset(es[j + 1..])[es[j]];
  }

  /** That reader never sees the second event of the tie. */
  lemma TieLosesAnEvent(rows: seq<Event>, order: seq<Event>, size: nat, k: nat, n: nat)
    requires NoRepeats(order) && Ordered(order, rows) && 0 < Start(size, k) < |order|
    requires order[Start(size, k) - 1].createdAt == order[Start(size, k)].createdAt
    ensures AllOrdered(Unlucky(order, size, k, n), rows)
    ensures order[Start(size, k)] !in Pages(Unlucky(order, size, k, n), size)
  {
    var orders := Unlucky(order, size, k, n);
    forall j: nat | j < n
      ensures Ordered(orders[j], rows) && order[Start(size, k)] !in Slice(orders[j], Start(size, j), size)
    {
      ChoiceMisses(rows, order, size, k, j);
    }
    NeverShown(orders, size, order[Start(size, k)]);
  }

  lemma ChoiceMisses(rows: seq<Event>, order: seq<Event>, size: nat, k: nat, j: nat)
    requires NoRepeats(order) && Ordered(order, rows) && 0 < Start(size, k) < |order|
    requires order[Start(size, k) - 1].createdAt == order[Start(size, k)].createdAt
    ensures Ordered(Choice(order, size, k, j), rows)
    ensures order[Start(size, k)] !in Slice(Choice(order, size, k, j), Start(size, j), size)
  {
    var at := Start(size, k);
    if j == k {
      ExchangeOrdered(order, rows, at);
      NotElsewhere(Exchanged(order, at), at - 1, at, size);
    } else {
      PagesApart(size, j, k);
      NotElsewhere(order, at, Start(size, j), size);
    }
  }

  lemma PagesApart(size: nat, j: nat, k: nat)
    requires j != k
    ensures !(Start(size, j) <= Start(size, k) < Start(size, j) + size)
  {
    StartExactly(size, j);
    StartExactly(size, k);
    StartExactly(size, j + 1);
    if j < k {
      MulMonotone(j + 1, k, size);
    } else {
      MulMonotone(k + 1, j, size);
      StartExactly(size, k + 1);
    }
  }

  /** Reading every page shows every event exactly once, whatever order each query picks. */
  ghost predicate AlwaysTiles(rows: seq<Event>, size: nat)
    requires 0 < size
  {
    forall orders | |orders| == PageCount(|rows|, size) && AllOrdered(orders, rows) :: multiset(Pages(orders, size)) == multiset(rows)
  }

  /** Pages show every event exactly once under every choice of orders if and only if no two
      events with the same time are on different sides of a page boundary. */
  lemma PagesTileExactly(rows: seq<Event>, order: seq<Event>, size: nat)
    requires 0 < size && NoRepeats(rows) && Ordered(order, rows)
    ensures AlwaysTiles(rows, size) <==> NoTieAcrossPages(order, size)
  {
    var n := PageCount(|rows|, size);
    SameLength(order, rows);
    assert order[..|rows|] == order;
    StartExactly(size, n);
    PagesFill(|rows|, size);
    if NoTieAcrossPages(order, size) {
      forall orders | |orders| == n && AllOrdered(orders, rows) ensures multiset(Pages(orders, size)) == multiset(rows) {
        CleanCutsTile(rows, order, orders, size);
      }
    } else {
      var k: nat :| 0 < k && !CleanCut(order, Start(size, k));
      TieLosesAnEvent(rows, order, size, k, n);
      assert order[Start(size, k)] in multiset(order);
      assert |Unlucky(order, size, k, n)| == n;
    }
  }

  /** The last page reaches the end. */
  lemma PagesFill(n: nat, size: nat)
    requires 0 < size
    ensures n <= PageCount(n, size) * size
  {
    assert n + size - 1 == PageCount(n, size) * size + (n + size - 1) % size;
  }

  // ---- The listing ----

  lemma NoRepeatsKept(rows: seq<Event>, o: Options, db: Database)
    requires NoRepeats(rows)
    ensures NoRepeats(Matching(rows, o, db))
  {
    forall e ensures multiset(Matching(rows, o, db))[e] <= 1 {
      MatchingExactly(rows, o, db, e);
    }
  }

  lemma AllLengths(rows: seq<Event>, orders: seq<seq<Event>>, size: nat)
    requires 0 < size && AllOrdered(orders, rows) && |orders| == PageCount(|rows|, size)
    ensures |Pages(orders, size)| == |rows|
  {
    LengthsAddUp(orders, rows, size);
    StartExactly(size, |orders|);
    PagesFill(|rows|, size);
  }

  /** All page lengths add up to the number of rows, and with one order for all queries the
      pages make up that order. */
  lemma TotalIsPageLengths(rows: seq<Event>, order: seq<Event>, orders: seq<seq<Event>>, size: nat)
    requires 0 < size && Ordered(order, rows) && AllOrdered(orders, rows) && |orders| == PageCount(|rows|, size)
    ensures |Pages(orders, size)| == |rows|
    ensures (forall k | 0 <= k < |orders| :: orders[k] == order) ==> Pages(orders, size) == order
  {
    AllLengths(rows, orders, size);
    StartExactly(size, |orders|);
    PagesFill(|rows|, size);
    OrderedLength(order, rows);
    if forall k | 0 <= k < |orders| :: orders[k] == order {
      OneOrderTiles(order, size, orders);
      assert order[..|order|] == order;
    }
  }

  /** For the events that a listing is about: its pages show each of them exactly once,
      whatever order each query picks, if and only if no tie crosses a page boundary. */
  lemma ListingShowsAllExactly(rows: seq<Event>, o: Options, db: Database, order: seq<Event>, size: nat)
    requires 0 < size && NoRepeats(rows) && Ordered(order, Matching(rows, o, db))
    ensures AlwaysTiles(Matching(rows, o, db), size) <==> NoTieAcrossPages(order, size)
  {
    NoRepeatsKept(rows, o, db);
    PagesTileExactly(Matching(rows, o, db), order, size);
  }

  // ---- Reading all pages through the listing ----

  /** What requests for pages 1, 2, ... return together, when request k + 1 is answered by dbs[k]. */
  function ReadAll(rows: seq<Event>, o: Options, size: nat, dbs: seq<Database>): seq<Event> {
    if |dbs| == 0 then []
    else
      var k := |dbs| - 1;
      ReadAll(rows, o, size, dbs[..k]) + Listing(rows, o.(paginator := Paginator(size, k + 1)), dbs[k]).1
  }

  /** Each request is answered without a failure, and dates are read as by the given database. */
  ghost predicate Answering(dbs: seq<Database>, db: Database) {
    forall k | 0 <= k < |dbs| ::
      Lawful(dbs[k]) && !dbs[k].countFails && !dbs[k].selectFails && dbs[k].midnight == db.midnight
  }

  function Orders(dbs: seq<Database>, rows: seq<Event>): seq<seq<Event>> {
    seq(|dbs|, k requires 0 <= k < |dbs| => dbs[k].order(rows))
  }

  lemma LawfulOrder(db: Database, rows: seq<Event>)
    requires Lawful(db)
    ensures Ordered(db.order(rows), rows)
  {
  }

  lemma LawfulCut(db: Database, rows: seq<Event>, offset: nat, limit: nat)
    requires Lawful(db) && 0 < limit
    ensures db.cut(rows, offset, limit) == Slice(rows, offset, limit)
  {
  }

  lemma SameRequest(rows: seq<Event>, o: Options, db: Database, p: Paginator, answer: Database)
    requires answer.midnight == db.midnight
    ensures Matching(rows, o.(paginator := p), answer) == Matching(rows, o, db)
    ensures Servable(o.(paginator := p), answer) == Servable(o, db)
  {
    hide Blank;
    SameMatching(rows, o.(paginator := p), answer, o, db);
  }

  /** One request returns the page at its place in the order that its query picked. */
  lemma RequestReturnsPage(rows: seq<Event>, o: Options, db: Database, size: nat, k: nat, answer: Database)
    requires Servable(o, db) && 0 < size < TWO_63 && k + 1 < TWO_63 && k * size < TWO_63
    requires Lawful(answer) && !answer.countFails && !answer.selectFails && answer.midnight == db.midnight
    ensures Listing(rows, o.(paginator := Paginator(size, k + 1)), answer).1
         == Slice(answer.order(Matching(rows, o, db)), Start(size, k), size)
  {
    hide Lawful, Servable, Matching, Slice;
    var p := Paginator(size, k + 1);
    SameRequest(rows, o, db, p, answer);
    OffsetExactly(p);
    LawfulCut(answer, answer.order(Matching(rows, o, db)), p.Offset(), size);
  }

  lemma LastRequest(rows: seq<Event>, o: Options, size: nat, dbs: seq<Database>, matching: seq<Event>)
    requires |dbs| > 0
    ensures var k := |dbs| - 1;
            && ReadAll(rows, o, size, dbs)
               == ReadAll(rows, o, size, dbs[..k]) + Listing(rows, o.(paginator := Paginator(size, k + 1)), dbs[k]).1
            && Orders(dbs, matching)[..k] == Orders(dbs[..k], matching)
            && |Orders(dbs, matching)| == |dbs| && Orders(dbs, matching)[k] == dbs[k].order(matching)
  {
    hide Listing;
  }

  lemma {:induction false} ReadAllIsPages(rows: seq<Event>, o: Options, db: Database, size: nat, dbs: seq<Database>)
    requires Servable(o, db) && Answering(dbs, db) && 0 < size < TWO_63
    requires |dbs| < TWO_63 && (|dbs| > 0 ==> (|dbs| - 1) * size < TWO_63)
    ensures ReadAll(rows, o, size, dbs) == Pages(Orders(dbs, Matching(rows, o, db)), size)
  {
    hide Lawful, Servable, Matching, Slice, Listing;
    if |dbs| > 0 {
      var k := |dbs| - 1;
      MulMonotone(k - 1, k, size);
      LastRequest(rows, o, size, dbs, Matching(rows, o, db));
      ReadAllIsPages(rows, o, db, size, dbs[..k]);
      RequestReturnsPage(rows, o, db, size, k, dbs[k]);
    }
  }

  /** The total that each request returns is the number of rows that all requests return
      together, whatever orders their queries pick. */
  lemma ReturnedTotals(rows: seq<Event>, o: Options, db: Database, size: nat, dbs: seq<Database>, k: nat)
    requires 0 < size < TWO_63 && |Matching(rows, o, db)| < TWO_63
    requires Servable(o, db) && Answering(dbs, db) && |dbs| == PageCount(|Matching(rows, o, db)|, size) && k < |dbs|
    ensures Listing(rows, o.(paginator := Paginator(size, k + 1)), dbs[k]).2 == |ReadAll(rows, o, size, dbs)|
  {
    hide Lawful, Matching, Servable, PageCount, Pages, ReadAll, Ordered, AllOrdered;
    var matching := Matching(rows, o, db);
    PagesFit(|matching|, size);
    ReadAllIsPages(rows, o, db, size, dbs);
    AnswersOrdered(dbs, db, matching);
    AllLengths(matching, Orders(dbs, matching), size);
    SameRequest(rows, o, db, Paginator(size, k + 1), dbs[k]);
  }

  /** The last page starts before the end, so its offset fits when the number of rows does. */
  lemma PagesFit(n: nat, size: nat)
    requires 0 < size && n < TWO_63
    ensures PageCount(n, size) < TWO_63 && (0 < PageCount(n, size) ==> (PageCount(n, size) - 1) * size < TWO_63)
  {
    var m := PageCount(n, size);
    assert n + size - 1 == m * size + (n + size - 1) % size;
    if 0 < m {
      assert (m - 1) * size == m * size - size < n;
      MulMonotone(1, size, m - 1);
    }
  }

  /** A database like the given one that picks this order for these rows. */
  function Picking(db: Database, rows: seq<Event>, order: seq<Event>): Database {
    db.(order := other => if other == rows then order else db.order(other))
  }

  lemma PickingLawful(db: Database, rows: seq<Event>, order: seq<Event>)
    requires Lawful(db) && Ordered(order, rows)
    ensures Lawful(Picking(db, rows, order)) && Picking(db, rows, order).order(rows) == order
  {
    hide Ordered, Ranking;
  }

  lemma OrdersAnswered(db: Database, rows: seq<Event>, orders: seq<seq<Event>>) returns (dbs: seq<Database>)
    requires Lawful(db) && !db.countFails && !db.selectFails && AllOrdered(orders, rows)
    ensures |dbs| == |orders| && Answering(dbs, db) && Orders(dbs, rows) == orders
  {
    hide Lawful, Ordered;
    dbs := seq(|orders|, k requires 0 <= k < |orders| => Picking(db, rows, orders[k]));
    forall k | 0 <= k < |dbs| ensures Lawful(dbs[k]) && dbs[k].order(rows) == orders[k] {
      PickingLawful(db, rows, orders[k]);
    }
  }

  lemma AnswersOrdered(dbs: seq<Database>, db: Database, rows: seq<Event>)
    requires Answering(dbs, db)
    ensures AllOrdered(Orders(dbs, rows), rows)
  {
    hide Lawful, Ordered;
    forall k | 0 <= k < |dbs| ensures Ordered(dbs[k].order(rows), rows) {
      LawfulOrder(dbs[k], rows);
    }
  }

  lemma TiledRequests(rows: seq<Event>, o: Options, db: Database, size: nat, dbs: seq<Database>)
    requires Servable(o, db) && Answering(dbs, db) && 0 < size < TWO_63
    requires |Matching(rows, o, db)| < TWO_63 && |dbs| == PageCount(|Matching(rows, o, db)|, size)
    requires AlwaysTiles(Matching(rows, o, db), size)
    ensures multiset(ReadAll(rows, o, size, dbs)) == multiset(Matching(rows, o, db))
  {
    hide Lawful, Servable, Matching, Answering, AllOrdered, PageCount, Ordered, Pages, ReadAll;
    var matching := Matching(rows, o, db);
    PagesFit(|matching|, size);
    ReadAllIsPages(rows, o, db, size, dbs);
    AnswersOrdered(dbs, db, matching);
  }

  lemma UntiledRequests(rows: seq<Event>, o: Options, db: Database, size: nat) returns (dbs: seq<Database>)
    requires Lawful(db) && !db.countFails && !db.selectFails && Servable(o, db) && 0 < size < TWO_63
    requires |Matching(rows, o, db)| < TWO_63 && !AlwaysTiles(Matching(rows, o, db), size)
    ensures |dbs| == PageCount(|Matching(rows, o, db)|, size) && Answering(dbs, db)
    ensures multiset(ReadAll(rows, o, size, dbs)) != multiset(Matching(rows, o, db))
  {
    hide Lawful, Servable, Matching, Answering, AllOrdered, PageCount, Ordered, Pages, ReadAll;
    var matching := Matching(rows, o, db);
    PagesFit(|matching|, size);
    var orders :| |orders| == PageCount(|matching|, size) && AllOrdered(orders, matching)
                  && multiset(Pages(orders, size)) != multiset(matching);
    dbs := OrdersAnswered(db, matching, orders);
    ReadAllIsPages(rows, o, db, size, dbs);
  }

  /** Whatever orders the queries pick, the requests for all pages of a listing return each
      matching event exactly once. */
  ghost predicate AlwaysShowsAll(rows: seq<Event>, o: Options, db: Database, size: nat)
    requires 0 < size
  {
    var matching := Matching(rows, o, db);
    forall dbs | |dbs| == PageCount(|matching|, size) && Answering(dbs, db) ::
      multiset(ReadAll(rows, o, size, dbs)) == multiset(matching)
  }

  /** End to end, over a table that does not change: this holds if and only if no two matching
      events with the same time are on different sides of a page boundary. */
  lemma RequestsShowAllExactly(rows: seq<Event>, o: Options, db: Database, size: nat)
    requires 0 < size < TWO_63 && NoRepeats(rows) && |Matching(rows, o, db)| < TWO_63
    requires Lawful(db) && !db.countFails && !db.selectFails && Servable(o, db)
    ensures AlwaysShowsAll(rows, o, db, size) <==> NoTieAcrossPages(db.order(Matching(rows, o, db)), size)
  {
    hide Lawful, Servable, Matching, Answering, AllOrdered, PageCount, Ordered, Pages, ReadAll, AlwaysTiles, NoTieAcrossPages;
    var matching := Matching(rows, o, db);
    LawfulOrder(db, matching);
    ListingShowsAllExactly(rows, o, db, db.order(matching), size);
    if AlwaysTiles(matching, size) {
      forall dbs | |dbs| == PageCount(|matching|, size) && Answering(dbs, db)
        ensures multiset(ReadAll(rows, o, size, dbs)) == multiset(matching)
      {
        TiledRequests(rows, o, db, size, dbs);
      }
    } else {
      var dbs := UntiledRequests(rows, o, db, size);
    }
  }
}
