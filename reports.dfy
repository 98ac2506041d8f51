/**
 * The Reports view (src/components/Reports.jsx): a multi-select filter over
 * the events, the summary figures of what it keeps, the per-library,
 * per-category, per-month and per-funding-source breakdowns, and the
 * handlers that edit the filter.
 */
module Reports {
  import opened Records
  import opened Sequences
  import opened Aggregates
  import opened Tallies

  // ---------------------------------------------------------------------------
  // Filter

  /**
   * The four filter states of the view. An empty list means "every category"
   * (or library); an empty date text means "no bound".
   */
  datatype ReportFilter = ReportFilter(categories: seq<string>, libraries: seq<string>, dateFrom: string, dateTo: string)

  /** The filter the view starts with, and the one `clearFilters` restores. */
  const NoFilter := ReportFilter([], [], "", "")

  /** The test `events.filter` applies to one event; both date bounds are inclusive. */
  predicate Keeps(f: ReportFilter, e: Event) {
    && (|f.categories| == 0 || e.data.category in f.categories)
    && (|f.libraries| == 0 || e.data.library in f.libraries)
    && (f.dateFrom == "" || OnOrAfter(e.data.date, f.dateFrom))
    && (f.dateTo == "" || OnOrBefore(e.data.date, f.dateTo))
  }

  /** `filteredEvents`. */
  function FilterEvents(f: ReportFilter, es: seq<Event>): (r: seq<Event>)
    ensures |r| <= |es|
  {
    if es == [] then []
    else if Keeps(f, es[0]) then [es[0]] + FilterEvents(f, es[1..])
    else FilterEvents(f, es[1..])
  }

  /** The filter keeps, in their order, exactly the events that pass its test. */
  lemma {:induction false} FilterSpec(f: ReportFilter, es: seq<Event>)
    ensures IsSubseq(FilterEvents(f, es), es)
    ensures forall e :: e in FilterEvents(f, es) <==> e in es && Keeps(f, e)
    ensures forall e :: multiset(FilterEvents(f, es))[e] == if Keeps(f, e) then multiset(es)[e] else 0
  {
    if es != [] {
      var x, rest := es[0], es[1..];
      FilterSpec(f, rest);
      var r := FilterEvents(f, rest);
      assert es == [x] + rest;
      assert multiset(es) == multiset{x} + multiset(rest);
      if Keeps(f, x) {
        assert FilterEvents(f, es) == [x] + r;
        assert multiset(FilterEvents(f, es)) == multiset{x} + multiset(r);
      } else {
        assert FilterEvents(f, es) == r;
      }
    }
  }

  /** With no category, no library and no date chosen, every event is kept. */
  lemma {:induction false} NoFilterKeepsAll(es: seq<Event>)
    ensures FilterEvents(NoFilter, es) == es
  {
    if es != [] {
      NoFilterKeepsAll(es[1..]);
    }
  }

  /** An event dated on a bound passes that bound: both ends of the range are inclusive. */
  lemma BoundsInclusive(e: Event)
    requires ParseIsoDate(e.data.date).Some?
    ensures Keeps(ReportFilter([], [], e.data.date, e.data.date), e)
  {
  }

  /** A filter whose test is stricter keeps a subsequence of what the other keeps. */
  lemma {:induction false} StricterFilter(g: ReportFilter, f: ReportFilter, es: seq<Event>)
    requires forall e :: Keeps(g, e) ==> Keeps(f, e)
    ensures IsSubseq(FilterEvents(g, es), FilterEvents(f, es))
  {
    if es != [] {
      StricterFilter(g, f, es[1..]);
      if Keeps(g, es[0]) {
        assert (FilterEvents(g, es))[1..] == FilterEvents(g, es[1..]);
      }
    }
  }

  /**
   * Adding a constraint never enlarges the result: setting a date bound where
   * there was none, or narrowing a category or library list to a part of it
   * (a first choice narrows "all" to that one; an empty list stays "all").
   */
  lemma AddConstraint(f: ReportFilter, g: ReportFilter, es: seq<Event>)
    requires f.dateFrom == "" || g.dateFrom == f.dateFrom
    requires f.dateTo == "" || g.dateTo == f.dateTo
    requires |g.categories| == 0 ==> |f.categories| == 0
    requires |g.categories| > 0 && |f.categories| > 0 ==> forall c :: c in g.categories ==> c in f.categories
    requires |g.libraries| == 0 ==> |f.libraries| == 0
    requires |g.libraries| > 0 && |f.libraries| > 0 ==> forall l :: l in g.libraries ==> l in f.libraries
    ensures IsSubseq(FilterEvents(g, es), FilterEvents(f, es))
  {
    StricterFilter(g, f, es);
  }

  /** `clearFilters`: every filter back to empty. */
  function ClearFilters(f: ReportFilter): (r: ReportFilter)
    ensures r.categories == [] && r.libraries == [] && r.dateFrom == "" && r.dateTo == ""
  {
    NoFilter
  }

  /** After `clearFilters` the report covers every event. */
  lemma ClearedShowsAll(f: ReportFilter, es: seq<Event>)
    ensures FilterEvents(ClearFilters(f), es) == es
  {
    NoFilterKeepsAll(es);
  }

  // ---------------------------------------------------------------------------
  // Checkbox handlers

  /** `prev.filter(x => x !== item)`. */
  function Without(s: seq<string>, item: string): (r: seq<string>)
    ensures forall x :: x in r <==> x in s && x != item
    ensures forall x :: multiset(r)[x] == if x == item then 0 else multiset(s)[x]
    ensures IsSubseq(r, s)
  {
    if s == [] then []
    else
      assert s == [s[0]] + s[1..];
      if s[0] == item then Without(s[1..], item)
      else [s[0]] + Without(s[1..], item)
  }

  /** `prev.includes(item) ? prev.filter(x => x !== item) : [...prev, item]`. */
  function Toggle(s: seq<string>, item: string): seq<string> {
    if item in s then Without(s, item) else s + [item]
  }

  lemma {:induction false} WithoutDistinct(s: seq<string>, item: string)
    requires Distinct(s)
    ensures Distinct(Without(s, item))
  {
    if s != [] {
      WithoutDistinct(s[1..], item);
    }
  }

  /**
   * A toggle flips whether the clicked item is chosen and changes nothing
   * else: every other item is chosen after exactly when it was before, the
   * others keep their order, and a list without repeats stays without them.
   */
  lemma ToggleSpec(s: seq<string>, item: string)
    ensures item in Toggle(s, item) <==> item !in s
    ensures forall x :: x != item ==> (x in Toggle(s, item) <==> x in s)
    ensures IsSubseq(Without(s, item), Toggle(s, item))
    ensures Distinct(s) ==> Distinct(Toggle(s, item))
  {
    if item in s {
      SubseqRefl(Without(s, item));
      if Distinct(s) {
        WithoutDistinct(s, item);
      }
    } else {
      WithoutAbsent(s, item);
      SubseqPrefix(s, [item]);
      if Distinct(s) {
        DistinctAppend(s, item);
      }
    }
  }

  lemma {:induction false} WithoutAbsent(s: seq<string>, item: string)
    requires item !in s
    ensures Without(s, item) == s
  {
    if s != [] {
      WithoutAbsent(s[1..], item);
    }
  }

  /** `handleCategoryChange`. */
  function ToggleCategory(f: ReportFilter, category: string): (r: ReportFilter)
    ensures r.libraries == f.libraries && r.dateFrom == f.dateFrom && r.dateTo == f.dateTo
    ensures forall c :: c in r.categories <==> (c in f.categories) != (c == category)
  {
    ToggleSpec(f.categories, category);
    f.(categories := Toggle(f.categories, category))
  }

  /** `handleLibraryChange`. */
  function ToggleLibrary(f: ReportFilter, library: string): (r: ReportFilter)
    ensures r.categories == f.categories && r.dateFrom == f.dateFrom && r.dateTo == f.dateTo
    ensures forall l :: l in r.libraries <==> (l in f.libraries) != (l == library)
  {
    ToggleSpec(f.libraries, library);
    f.(libraries := Toggle(f.libraries, library))
  }

  // ---------------------------------------------------------------------------
  // Summary figures

  datatype Summary = Summary(
    totalEvents: int,
    totalAttendees: int,
    totalAdults: int,
    totalChildren: int,
    totalCost: real,
    avgAttendees: real,
    avgCost: real)

  /**
   * The statistics cards: totals over the filtered events, attendance split
   * into adults and children, and averages that are 0 when nothing is kept.
   */
  function Summarize(es: seq<Event>): (s: Summary)
    ensures s.totalEvents == |es|
    ensures s.totalAttendees == s.totalAdults + s.totalChildren
    ensures s.totalAttendees == SumAttendance(es) && s.totalCost == SumCost(es)
    ensures |es| == 0 ==> s.totalAttendees == 0 && s.totalCost == 0.0
    ensures IsAverage(s.avgAttendees, s.totalAttendees as real, |es|) && IsAverage(s.avgCost, s.totalCost, |es|)
  {
    var t := TotalsOf(es);
    Summary(t.count, t.attendees, t.adults, t.children, t.cost,
            Average(t.attendees as real, t.count), Average(t.cost, t.count))
  }

  // ---------------------------------------------------------------------------
  // Breakdowns by a reference list

  /** `eventsPerLibrary`: one row per library with events, in the order of `libraries`. */
  function EventsPerLibrary(es: seq<Event>, libraries: seq<Library>): seq<Group> {
    Groups(es, ByLibrary, Names(LibraryNames(libraries)), false)
  }

  /** `categoryData`: one row per category with events, in the order of `categories`. */
  function CategoryData(es: seq<Event>, categories: seq<string>): seq<Group> {
    Groups(es, ByCategory, Names(categories), false)
  }

  /**
   * The library rows follow the order of `libraries` and leave out the
   * libraries without events; each row counts and sums exactly the events of
   * its library, and every library with an event has its row.
   */
  lemma EventsPerLibrarySpec(es: seq<Event>, libraries: seq<Library>)
    ensures var r := EventsPerLibrary(es, libraries);
      && IsSubseq(GroupKeys(r), Names(LibraryNames(libraries)))
      && (forall g :: g in r ==> g.totals.count > 0 && g.totals == TotalsOf(Select(es, ByLibrary, g.key)))
      && (forall lib :: lib in libraries && (exists e :: e in es && e.data.library == lib.name) ==>
            GroupFor(es, ByLibrary, Name(lib.name)) in r)
  {
    var keys := Names(LibraryNames(libraries));
    GroupsSpec(es, ByLibrary, keys, false);
    forall lib | lib in libraries && (exists e :: e in es && e.data.library == lib.name)
      ensures GroupFor(es, ByLibrary, Name(lib.name)) in EventsPerLibrary(es, libraries)
    {
      var e :| e in es && e.data.library == lib.name;
      var i :| 0 <= i < |libraries| && libraries[i] == lib;
      assert keys[i] == Name(lib.name);
      SelectSpec(es, ByLibrary, Name(lib.name));
      assert e in Select(es, ByLibrary, Name(lib.name));
    }
  }

  /**
   * The category rows follow the order of `categories` and leave out the
   * categories without events; each row counts and sums exactly the events of
   * its category, and every listed category with an event has its row.
   */
  lemma CategoryDataSpec(es: seq<Event>, categories: seq<string>)
    ensures var r := CategoryData(es, categories);
      && IsSubseq(GroupKeys(r), Names(categories))
      && (forall g :: g in r ==> g.totals.count > 0 && g.totals == TotalsOf(Select(es, ByCategory, g.key)))
      && (forall c :: c in categories && (exists e :: e in es && e.data.category == c) ==>
            GroupFor(es, ByCategory, Name(c)) in r)
  {
    var keys := Names(categories);
    GroupsSpec(es, ByCategory, keys, false);
    forall c | c in categories && (exists e :: e in es && e.data.category == c)
      ensures GroupFor(es, ByCategory, Name(c)) in CategoryData(es, categories)
    {
      var e :| e in es && e.data.category == c;
      var i :| 0 <= i < |categories| && categories[i] == c;
      assert keys[i] == Name(c);
      SelectSpec(es, ByCategory, Name(c));
      assert e in Select(es, ByCategory, Name(c));
    }
  }

  /** The three funding sources the view reports, in its order. */
  const FundingSources: seq<string> := ["Library Budget", "Donation", "Other"]

  /** `fundingData`: amount and count per funding source with events. */
  function FundingData(es: seq<Event>): seq<Group> {
    Groups(es, ByFunding, Names(FundingSources), false)
  }

  /**
   * At most three rows, in the fixed order, each with events; their amounts
   * plus the cost of the events with any other funding text make up the total
   * cost, so with no negative cost they sum to at most the total.
   */
  lemma FundingDataSpec(es: seq<Event>)
    ensures var r := FundingData(es);
      && |r| <= 3
      && IsSubseq(GroupKeys(r), Names(FundingSources))
      && (forall g :: g in r ==> g.totals.count > 0 && g.totals == TotalsOf(Select(es, ByFunding, g.key)))
      && SumTotals(r).cost + TotalsOf(Rest(es, ByFunding, Names(FundingSources))).cost == TotalsOf(es).cost
      && ((forall e :: e in es ==> e.data.cost >= 0.0) ==> SumTotals(r).cost <= TotalsOf(es).cost)
  {
    var keys := Names(FundingSources);
    assert |keys| == 3 && Distinct(keys) by {
      assert keys == [Name("Library Budget"), Name("Donation"), Name("Other")];
      assert keys[1..] == [Name("Donation"), Name("Other")] && keys[2..] == [Name("Other")];
      assert Distinct(keys[2..]) && Distinct(keys[1..]);
    }
    KeptGroupsOver(es, ByFunding, keys);
  }

  // ---------------------------------------------------------------------------
  // Monthly trends

  /** Chronological order of month keys; the unreadable-date bucket sorts last. */
  predicate MonthBefore(a: Key, b: Key) {
    match (a, b)
    case (Month(y1, m1), Month(y2, m2)) => y1 < y2 || (y1 == y2 && m1 < m2)
    case (Month(_, _), Undated) => true
    case _ => false
  }

  predicate IsMonthKey(k: Key) {
    k.Month? || k.Undated?
  }

  lemma MonthOrderTotal(a: Key, b: Key)
    requires IsMonthKey(a) && IsMonthKey(b) && a != b
    ensures MonthBefore(a, b) != MonthBefore(b, a)
  {
  }

  /** Places `k` before the first key that comes after it. */
  function InsertMonth(k: Key, ks: seq<Key>): (r: seq<Key>)
    ensures |r| == |ks| + 1
    ensures r[0] == k || (ks != [] && r[0] == ks[0])
    ensures multiset(r) == multiset(ks) + multiset{k}
  {
    if ks == [] || MonthBefore(k, ks[0]) then [k] + ks
    else
      assert ks == [ks[0]] + ks[1..];
      [ks[0]] + InsertMonth(k, ks[1..])
  }

  /** `Object.values(monthlyData).sort((a, b) => new Date(a.month) - new Date(b.month))`, on the keys. */
  function SortMonths(ks: seq<Key>): (r: seq<Key>)
    ensures multiset(r) == multiset(ks)
  {
    if ks == [] then []
    else
      assert ks == [ks[0]] + ks[1..];
      InsertMonth(ks[0], SortMonths(ks[1..]))
  }

  /** Each key comes strictly before the next. */
  predicate MonthsAscend(ks: seq<Key>) {
    forall i :: 0 < i < |ks| ==> MonthBefore(ks[i - 1], ks[i])
  }

  lemma {:induction false} InsertMonthAscends(k: Key, ks: seq<Key>)
    requires IsMonthKey(k) && (forall x :: x in ks ==> IsMonthKey(x))
    requires MonthsAscend(ks) && k !in ks
    ensures MonthsAscend(InsertMonth(k, ks))
  {
    if !(ks == [] || MonthBefore(k, ks[0])) {
      assert ks[0] in ks;
      MonthOrderTotal(k, ks[0]);
      InsertMonthAscends(k, ks[1..]);
      var r := InsertMonth(k, ks);
      var tail := InsertMonth(k, ks[1..]);
      forall i | 0 < i < |r|
        ensures MonthBefore(r[i - 1], r[i])
      {
        if i > 1 {
          assert r[i - 1] == tail[i - 2] && r[i] == tail[i - 1];
        } else {
          assert r[1] == tail[0];
        }
      }
    }
  }

  lemma {:induction false} SortMonthsAscends(ks: seq<Key>)
    requires Distinct(ks) && forall x :: x in ks ==> IsMonthKey(x)
    ensures MonthsAscend(SortMonths(ks))
  {
    if ks != [] {
      SortMonthsAscends(ks[1..]);
      assert ks[0] in ks;
      assert multiset(SortMonths(ks[1..])) == multiset(ks[1..]);
      assert ks[0] !in multiset(SortMonths(ks[1..]));
      forall x | x in SortMonths(ks[1..])
        ensures IsMonthKey(x)
      {
        assert x in multiset(ks[1..]);
      }
      InsertMonthAscends(ks[0], SortMonths(ks[1..]));
    }
  }

  /** Keys in strictly ascending order are distinct. */
  lemma {:induction false} AscendingDistinct(ks: seq<Key>)
    requires MonthsAscend(ks)
    ensures Distinct(ks)
    ensures forall i :: 0 < i < |ks| ==> MonthBefore(ks[0], ks[i])
  {
    if ks != [] {
      AscendingDistinct(ks[1..]);
      forall i | 0 < i < |ks|
        ensures MonthBefore(ks[0], ks[i])
      {
        if i > 1 {
          assert ks[1..][i - 1] == ks[i];
        }
      }
      assert ks[0] !in ks[1..];
    }
  }

  lemma MonthKeysOf(es: seq<Event>)
    ensures forall k :: k in KeysSeen(es, ByMonth) ==> IsMonthKey(k)
  {
    KeysSeenSpec(es, ByMonth);
  }

  /** The monthly rows: the months the events fall in, in chronological order, each with its totals. */
  function MonthlyRows(es: seq<Event>): seq<Group> {
    Groups(es, ByMonth, SortMonths(KeysSeen(es, ByMonth)), true)
  }

  /** The sorted month keys ascend and are exactly the months of the events. */
  lemma SortedMonthKeys(es: seq<Event>)
    ensures var keys := SortMonths(KeysSeen(es, ByMonth));
      && MonthsAscend(keys)
      && Distinct(keys)
      && forall k :: k in keys <==> exists e :: e in es && MonthOf(e.data.date) == k
  {
    var seen := KeysSeen(es, ByMonth);
    var keys := SortMonths(seen);
    assert forall k :: k in seen <==> exists e :: e in es && MonthOf(e.data.date) == k by {
      KeysSeenSpec(es, ByMonth);
    }
    assert forall k :: k in keys <==> k in seen by {
      forall k
        ensures k in keys <==> k in seen
      {
        assert k in keys <==> k in multiset(seen);
      }
    }
    assert MonthsAscend(keys) by {
      KeysSeenSpec(es, ByMonth);
      MonthKeysOf(es);
      SortMonthsAscends(seen);
    }
    AscendingDistinct(keys);
  }

  /**
   * The rows ascend month by month; there is a row for exactly the months
   * some event falls in; each row holds the totals of that month's events;
   * and the rows' events, attendees and cost add up to the totals of all
   * events, so every event lands in exactly one row.
   */
  lemma MonthlyRowsSpec(es: seq<Event>)
    ensures var r := MonthlyRows(es);
      && MonthsAscend(GroupKeys(r))
      && (forall k :: k in GroupKeys(r) <==> exists e :: e in es && MonthOf(e.data.date) == k)
      && (forall g :: g in r ==> g.totals == TotalsOf(Select(es, ByMonth, g.key)))
      && SumTotals(r) == TotalsOf(es)
  {
    var keys := SortMonths(KeysSeen(es, ByMonth));
    SortedMonthKeys(es);
    MonthRowsOver(es, keys);
  }

  /** Grouping by month over any distinct list of exactly the events' months
      gives one row per key, in key order, with the key's totals, adding up
      to the totals of all events. */
  lemma MonthRowsOver(es: seq<Event>, keys: seq<Key>)
    requires Distinct(keys)
    requires forall k :: k in keys <==> exists e :: e in es && MonthOf(e.data.date) == k
    ensures var r := Groups(es, ByMonth, keys, true);
      && GroupKeys(r) == keys
      && (forall g :: g in r ==> g.totals == TotalsOf(Select(es, ByMonth, g.key)))
      && SumTotals(r) == TotalsOf(es)
  {
    var r := Groups(es, ByMonth, keys, true);
    assert GroupKeys(r) == keys && forall g :: g in r ==> g.totals == TotalsOf(Select(es, ByMonth, g.key)) by {
      GroupsSpec(es, ByMonth, keys, true);
    }
    assert SumTotals(r) == TotalsOf(es) by {
      forall e | e in es
        ensures KeyOf(ByMonth, e) in keys
      {
      }
      GroupsConserve(es, ByMonth, keys, true);
    }
  }

  /**
   * The month loop: accumulate per-month totals in a dictionary keyed by
   * month, then read its rows back sorted by month.
   */
  method MonthlyTrends(es: seq<Event>) returns (rows: seq<Group>)
    ensures rows == MonthlyRows(es)
  {
    var acc, order := Accumulate(es, ByMonth);
    var keys := SortMonths(order);
    forall k | k in keys
      ensures k in acc
    {
      assert k in multiset(order);
    }
    rows := seq(|keys|, j requires 0 <= j < |keys| => Group(keys[j], acc[keys[j]]));
    GroupsSpec(es, ByMonth, keys, true);
  }
}
