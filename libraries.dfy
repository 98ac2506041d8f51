/**
 * The Libraries view (src/components/Libraries.jsx): one profile card per
 * library with its events, totals, averages, category breakdown, upcoming
 * events and three most recent events.
 */
module LibraryPage {
  import opened Records
  import opened Sequences
  import opened Aggregates
  import opened Ranking
  import opened Tallies

  /** The figures of one library's card. */
  datatype Profile = Profile(
    libraryEvents: seq<Event>,
    totalAttendees: int,
    totalCost: real,
    avgAttendees: real,
    avgCost: real,
    categoryBreakdown: seq<Tally>,
    upcomingEvents: seq<Event>)

  /** `events.filter(e => e.library === library.name)`. */
  function EventsAt(es: seq<Event>, library: Library): seq<Event> {
    Select(es, ByLibrary, Name(library.name))
  }

  function ProfileOf(es: seq<Event>, library: Library, now: Instant): Profile {
    var own := EventsAt(es, library);
    var t := TotalsOf(own);
    Profile(own, t.attendees, t.cost, Average(t.attendees as real, t.count), Average(t.cost, t.count),
            CategoryTallies(own), Upcoming(own, now))
  }

  /** The card covers, in order, exactly the events held at the library. */
  lemma EventsAtSpec(es: seq<Event>, library: Library)
    ensures IsSubseq(EventsAt(es, library), es)
    ensures forall e :: e in EventsAt(es, library) <==> e in es && e.data.library == library.name
    ensures forall e :: multiset(EventsAt(es, library))[e] == if e.data.library == library.name then multiset(es)[e] else 0
  {
    SelectSpec(es, ByLibrary, Name(library.name));
  }

  /** The card's totals are sums over its events, and its averages are 0 when it has none. */
  lemma ProfileFigures(es: seq<Event>, library: Library, now: Instant)
    ensures var p := ProfileOf(es, library, now);
      var n := |p.libraryEvents|;
      && p.libraryEvents == EventsAt(es, library)
      && p.totalAttendees == SumAttendance(p.libraryEvents) && p.totalCost == SumCost(p.libraryEvents)
      && IsAverage(p.avgAttendees, p.totalAttendees as real, n)
      && IsAverage(p.avgCost, p.totalCost, n)
  {
    var own := EventsAt(es, library);
    var t := TotalsOf(own);
    var p := ProfileOf(es, library, now);
    assert p.libraryEvents == own && p.totalAttendees == t.attendees && p.totalCost == t.cost;
    assert p.avgAttendees == Average(t.attendees as real, |own|) && p.avgCost == Average(t.cost, |own|);
  }

  /** The category counts of a card add up to the number of its events. */
  lemma BreakdownAddsUp(es: seq<Event>, library: Library, now: Instant)
    ensures SumCounts(ProfileOf(es, library, now).categoryBreakdown) == |EventsAt(es, library)|
  {
    CategoryTalliesSpec(EventsAt(es, library));
  }

  /** The card's upcoming events are, in order, those of its events that are upcoming. */
  lemma UpcomingAt(es: seq<Event>, library: Library, now: Instant)
    ensures var p := ProfileOf(es, library, now);
      && IsSubseq(p.upcomingEvents, p.libraryEvents)
      && (forall e :: e in p.upcomingEvents <==> e in es && e.data.library == library.name && IsUpcoming(e.data.date, now))
      && forall e :: multiset(p.upcomingEvents)[e]
           == if e.data.library == library.name && IsUpcoming(e.data.date, now) then multiset(es)[e] else 0
  {
    EventsAtSpec(es, library);
  }

  /** The first three of a stable newest-first ordering of `own`. */
  lemma RecentOfSorted(own: seq<Event>, sorted: seq<Event>, recent: seq<Event>)
    requires NewestFirst(sorted) && multiset(sorted) == multiset(own)
    requires forall k :: WithKey(sorted, Recency, k) == WithKey(own, Recency, k)
    requires |recent| == Min(3, |sorted|) && recent == sorted[..|recent|]
    ensures |recent| == Min(3, |own|)
    ensures NewestFirst(recent)
    ensures multiset(recent) <= multiset(own)
    ensures forall e :: e in recent ==> e in own
    ensures forall e, x :: e in recent && multiset(recent)[x] < multiset(own)[x] ==> Recency(e) >= Recency(x)
    ensures forall k :: WithKey(recent, Recency, k) <= WithKey(own, Recency, k)
  {
    assert |sorted| == |own| by {
      assert |multiset(sorted)| == |multiset(own)|;
    }
    var m := |recent|;
    assert NewestFirst(recent) by {
      SplitDescending(sorted, m, Recency);
    }
    assert multiset(recent) <= multiset(own) by {
      assert sorted == recent + sorted[m..];
      assert multiset(sorted) == multiset(recent) + multiset(sorted[m..]);
    }
    StableFront(own, sorted, m, Recency);
  }

  /**
   * `libraryEvents.sort(newest first).slice(0, 3)`: the filtered list is a
   * fresh array, so the sort reorders nothing outside this card. At most
   * three of the library's events, newest first, none older than one left out;
   * the sort is stable, so events sharing a date are taken in list order.
   */
  method RecentAt(es: seq<Event>, library: Library) returns (recent: seq<Event>)
    ensures |recent| == Min(3, |EventsAt(es, library)|)
    ensures NewestFirst(recent)
    ensures multiset(recent) <= multiset(EventsAt(es, library))
    ensures forall e :: e in recent ==> e in es && e.data.library == library.name
    ensures forall e, x :: e in recent && multiset(recent)[x] < multiset(EventsAt(es, library))[x] ==> Recency(e) >= Recency(x)
    ensures forall k :: WithKey(recent, Recency, k) <= WithKey(EventsAt(es, library), Recency, k)
  {
    var own := EventsAt(es, library);
    var a := new Event[|own|](i requires 0 <= i < |own| => own[i]);
    assert a[..] == own;
    recent := Recent(a, 3);
    RecentOfSorted(own, a[..], recent);
    EventsAtSpec(es, library);
  }
}
