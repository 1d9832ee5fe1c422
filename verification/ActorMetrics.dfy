/** The actor counts of a time window against its event count. */
module ActorMetrics {
  import opened Events
  import opened Sets

  function Sum(actors: seq<ActorCount>): nat {
    if |actors| == 0 then 0 else Sum(actors[..|actors| - 1]) + actors[|actors| - 1].events
  }

  /** The events of the given rows whose actor is listed. */
  function Covered(rows: seq<Event>, actors: seq<ActorCount>): nat {
    if |rows| == 0 then 0
    else Covered(rows[..|rows| - 1], actors) + if Listed(actors, ActorOf(rows[|rows| - 1])) then 1 else 0
  }

  /** The tallies of different actors add up to the number of events they cover. */
  lemma {:induction false} TalliesCover(rows: seq<Event>, actors: seq<ActorCount>)
    requires forall i | 0 <= i < |actors| :: actors[i].events == Tally(rows, actors[i].name)
    requires forall i, j | 0 <= i < j < |actors| :: actors[i].name != actors[j].name
    ensures Sum(actors) == Covered(rows, actors)
  {
    if |actors| == 0 {
      NoneCovered(rows);
    } else {
      var rest, last := actors[..|actors| - 1], actors[|actors| - 1];
      TalliesCover(rows, rest);
      OneMoreCovered(rows, rest, last);
      assert rest + [last] == actors;
    }
  }

  lemma {:induction false} NoneCovered(rows: seq<Event>)
    ensures Covered(rows, []) == 0
  {
    if |rows| > 0 {
      NoneCovered(rows[..|rows| - 1]);
    }
  }

  lemma {:induction false} OneMoreCovered(rows: seq<Event>, actors: seq<ActorCount>, more: ActorCount)
    requires forall i | 0 <= i < |actors| :: actors[i].name != more.name
    ensures Covered(rows, actors + [more]) == Covered(rows, actors) + Tally(rows, more.name)
  {
    if |rows| > 0 {
      OneMoreCovered(rows[..|rows| - 1], actors, more);
      ListedOneMore(actors, more, ActorOf(rows[|rows| - 1]));
    }
  }

  lemma ListedOneMore(actors: seq<ActorCount>, more: ActorCount, a: Actor)
    ensures Listed(actors + [more], a) <==> Listed(actors, a) || more.name == a
  {
    var all := actors + [more];
    assert all[|actors|] == more;
    assert forall i | 0 <= i < |actors| :: all[i] == actors[i];
  }

  lemma {:induction false} CoveredExactly(rows: seq<Event>, actors: seq<ActorCount>)
    ensures Covered(rows, actors) <= |rows|
    ensures Covered(rows, actors) == |rows| <==> forall a | a in Actors(rows) :: Listed(actors, a)
  {
    if |rows| > 0 {
      var rest, last := rows[..|rows| - 1], rows[|rows| - 1];
      CoveredExactly(rest, actors);
      assert rows == rest + [last];
      assert Actors(rows) == Actors(rest) + {ActorOf(last)};
    }
  }

  lemma {:induction false} NamesOf(actors: seq<ActorCount>)
    requires forall i, j | 0 <= i < j < |actors| :: actors[i].name != actors[j].name
    ensures |set i | 0 <= i < |actors| :: actors[i].name| == |actors|
  {
    if |actors| > 0 {
      var rest, last := actors[..|actors| - 1], actors[|actors| - 1];
      NamesOf(rest);
      assert (set i | 0 <= i < |actors| :: actors[i].name) == (set i | 0 <= i < |rest| :: rest[i].name) + {last.name};
    }
  }

  /** The listed counts add up to at most the event count, and to exactly that count if and
      only if at most five actors were active. */
  lemma TopActorsAddUp(actors: seq<ActorCount>, rows: seq<Event>)
    requires TopActors(actors, rows)
    ensures Sum(actors) <= |rows|
    ensures Sum(actors) == |rows| <==> |Actors(rows)| <= MAX_ACTORS
  {
    TalliesCover(rows, actors);
    CoveredExactly(rows, actors);
    NamesOf(actors);
    var names := set i | 0 <= i < |actors| :: actors[i].name;
    SubsetSize(names, Actors(rows));
    assert forall a :: a in names <==> Listed(actors, a);
  }
}
