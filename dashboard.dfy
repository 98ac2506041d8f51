/**
 * The Dashboard view (src/components/Dashboard.jsx): the statistics cards,
 * the top categories and the per-library cards. Its "recent events" list,
 * which reorders the application's own event list, is modelled with the
 * store (module App).
 */
module Dashboard {
  import opened Records
  import opened Sequences
  import opened Aggregates
  import opened Ranking
  import opened Tallies

  datatype Stats = Stats(
    totalEvents: int,
    upcomingEvents: int,
    totalAttendees: int,
    totalCost: real,
    activeLibraries: int,
    avgCost: real)

  /**
   * The six statistics cards. `now` is the moment the view is drawn.
   * Upcoming events are among all events; attendance is adults plus
   * children; the average cost is 0 when there are no events.
   */
  function StatsOf(es: seq<Event>, libraries: seq<Library>, now: Instant): (s: Stats)
    ensures s.totalEvents == |es| && s.activeLibraries == |libraries|
    ensures 0 <= s.upcomingEvents <= s.totalEvents
    ensures s.upcomingEvents == |Upcoming(es, now)|
    ensures s.totalAttendees == SumAdults(es) + SumChildren(es)
    ensures s.totalCost == SumCost(es)
    ensures IsAverage(s.avgCost, s.totalCost, |es|)
  {
    var t := TotalsOf(es);
    Stats(|es|, |Upcoming(es, now)|, SumAttendance(es), t.cost, |libraries|, Average(t.cost, |es|))
  }

  /** `Object.entries(categoryStats).sort(by count).slice(0, 5)`. */
  function TopCategories(es: seq<Event>): seq<Tally> {
    Top(CategoryTallies(es), 5)
  }

  /**
   * At most five categories, largest count first; each count is the number
   * of events in that category; no category left out has more events than
   * one shown; and categories with equal counts appear in the order they
   * first occur among the events.
   */
  lemma TopCategoriesSpec(es: seq<Event>)
    ensures var r, all := TopCategories(es), CategoryTallies(es);
      && |r| == Min(5, |all|)
      && Descending(r, CountOf)
      && (forall t :: t in r ==> t in all && t.count == |Select(es, ByCategory, t.key)| >= 1)
      && (forall t, u :: t in r && multiset(r)[u] < multiset(all)[u] ==> t.count >= u.count)
      && (forall c :: WithKey(r, CountOf, c) <= WithKey(all, CountOf, c))
  {
    var all := CategoryTallies(es);
    TopSpec(all, 5);
    TopDominates(all, 5);
    CategoryTalliesSpec(es);
    forall c {
      TopStable(all, 5, c);
    }
    forall t | t in all
      ensures t.count == |Select(es, ByCategory, t.key)| >= 1
    {
    }
  }

  /** The counting loop followed by the sort and the cut to five. */
  method TopCategoriesOf(es: seq<Event>) returns (top: seq<Tally>)
    ensures top == TopCategories(es)
  {
    var tallies := CountByCategory(es);
    top := Take(SortByCount(tallies), 5);
  }

  /** The "Library Locations" cards: one per library, in order, even without events. */
  function LibraryCards(es: seq<Event>, libraries: seq<Library>): seq<Group> {
    Groups(es, ByLibrary, Names(LibraryNames(libraries)), true)
  }

  /**
   * There is one card per library, in the order of `libraries`; a card's
   * count, attendance and cost are those of exactly the events whose
   * library is that library's name.
   */
  lemma LibraryCardsSpec(es: seq<Event>, libraries: seq<Library>)
    ensures var cards := LibraryCards(es, libraries);
      && |cards| == |libraries|
      && forall i :: 0 <= i < |cards| ==>
           && cards[i].key == Name(libraries[i].name)
           && cards[i].totals == TotalsOf(Select(es, ByLibrary, Name(libraries[i].name)))
           && forall e :: e in Select(es, ByLibrary, Name(libraries[i].name)) <==> e in es && e.data.library == libraries[i].name
  {
    GroupsSpec(es, ByLibrary, Names(LibraryNames(libraries)), true);
    forall i | 0 <= i < |libraries| {
      SelectSpec(es, ByLibrary, Name(libraries[i].name));
    }
  }
}
