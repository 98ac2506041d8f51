/**
 * The application shell (src/App.jsx): the event and library collections
 * with the handlers that change them, the data seeded on a first visit,
 * the fixed category list, and the navigation highlight.
 */
module App {
  import opened Records
  import opened Sequences
  import opened Ranking
  import opened Tallies
  import Dashboard

  /** The categories every view offers; the application never changes them. */
  const Categories: seq<string> := [
    "Book Club", "Author Talk", "Children's Storytime", "Workshop", "Reading Group",
    "Computer Class", "Film Screening", "Art Exhibition", "Community Meeting", "Educational Program"]

  // ---------------------------------------------------------------------------
  // Ids

  /** No two events share an id. */
  predicate UniqueIds(es: seq<Event>) {
    forall i, j :: 0 <= i < j < |es| ==> es[i].id != es[j].id
  }

  /** `Math.max(...events.map(e => e.id))`. */
  function MaxId(es: seq<Event>): (m: int)
    requires es != []
    ensures forall e :: e in es ==> e.id <= m
    ensures exists e :: e in es && e.id == m
  {
    if |es| == 1 then es[0].id
    else
      var rest := MaxId(es[1..]);
      assert es[1..][0] in es;
      if es[0].id >= rest then es[0].id else rest
  }

  /** The id `addEvent` gives a new event: one more than the largest, or 1 for the first. */
  function NextId(es: seq<Event>): (id: int)
    ensures forall e :: e in es ==> e.id < id
    ensures es == [] ==> id == 1
  {
    if |es| > 0 then MaxId(es) + 1 else 1
  }

  /** The new id is exactly one more than the largest id there is. */
  lemma NextIdIsMaxPlusOne(es: seq<Event>)
    requires es != []
    ensures exists e :: e in es && NextId(es) == e.id + 1
  {
    var m := MaxId(es);
    var e :| e in es && e.id == m;
    assert NextId(es) == e.id + 1;
  }

  /** Existing ids 1, 3 and 4 give the new event id 5. */
  lemma NextIdExample(d: EventData)
    ensures NextId([Event(1, d), Event(3, d), Event(4, d)]) == 5
  {
    var es := [Event(1, d), Event(3, d), Event(4, d)];
    assert es[1..] == [Event(3, d), Event(4, d)];
    assert es[1..][1..] == [Event(4, d)];
  }

  // ---------------------------------------------------------------------------
  // Replace and remove by id

  /** `events.map(e => e.id === id ? { ...data, id } : e)`. */
  function ReplaceById(es: seq<Event>, id: int, data: EventData): (r: seq<Event>)
    ensures |r| == |es|
  {
    seq(|es|, i requires 0 <= i < |es| => if es[i].id == id then Event(id, data) else es[i])
  }

  /**
   * Replacing keeps the length, the order and every id; each record with
   * the id now holds the new data; every other record is untouched; ids
   * stay unique; and an id no record has changes nothing.
   */
  lemma ReplaceByIdSpec(es: seq<Event>, id: int, data: EventData)
    ensures var r := ReplaceById(es, id, data);
      && (forall i :: 0 <= i < |es| ==> r[i].id == es[i].id)
      && (forall i :: 0 <= i < |es| && es[i].id == id ==> r[i].data == data)
      && (forall i :: 0 <= i < |es| && es[i].id != id ==> r[i] == es[i])
      && (UniqueIds(es) ==> UniqueIds(r))
      && ((forall e :: e in es ==> e.id != id) ==> r == es)
  {
  }

  /** `events.filter(e => e.id !== id)`. */
  function RemoveById(es: seq<Event>, id: int): (r: seq<Event>)
    ensures |r| <= |es|
  {
    if es == [] then []
    else if es[0].id == id then RemoveById(es[1..], id)
    else [es[0]] + RemoveById(es[1..], id)
  }

  /**
   * Removing drops exactly the records with the id and keeps the others in
   * order, and an id no record has changes nothing.
   */
  lemma {:induction false} RemoveByIdSpec(es: seq<Event>, id: int)
    ensures var r := RemoveById(es, id);
      && IsSubseq(r, es)
      && (forall e :: e in r <==> e in es && e.id != id)
      && (forall e :: multiset(r)[e] == if e.id == id then 0 else multiset(es)[e])
      && ((forall e :: e in es ==> e.id != id) ==> r == es)
  {
    if es != [] {
      var x, rest := es[0], es[1..];
      RemoveByIdSpec(rest, id);
      assert es == [x] + rest;
      assert x in es;
      if x.id == id {
        assert RemoveById(es, id) == RemoveById(rest, id);
      } else {
        assert RemoveById(es, id) == [x] + RemoveById(rest, id);
      }
    }
  }

  /** Ids of a list with one more record in front are unique when the tail's are and the new id is not among them. */
  lemma UniqueIdsCons(x: Event, t: seq<Event>)
    ensures UniqueIds([x] + t) <==> UniqueIds(t) && forall e :: e in t ==> e.id != x.id
  {
    var s := [x] + t;
    if UniqueIds(s) {
      forall e | e in t
        ensures e.id != x.id
      {
        var k :| 0 <= k < |t| && t[k] == e;
        assert s[0] == x && s[k + 1] == e;
      }
      forall i, j | 0 <= i < j < |t|
        ensures t[i].id != t[j].id
      {
        assert s[i + 1] == t[i] && s[j + 1] == t[j];
      }
    }
    if UniqueIds(t) && forall e :: e in t ==> e.id != x.id {
      forall i, j | 0 <= i < j < |s|
        ensures s[i].id != s[j].id
      {
        assert s[j] == t[j - 1];
        if i > 0 {
          assert s[i] == t[i - 1];
        }
      }
    }
  }

  /** Removing records keeps unique ids unique. */
  lemma {:induction false} RemoveKeepsUniqueIds(es: seq<Event>, id: int)
    requires UniqueIds(es)
    ensures UniqueIds(RemoveById(es, id))
  {
    if es != [] {
      var tail := RemoveById(es[1..], id);
      assert es == [es[0]] + es[1..];
      UniqueIdsCons(es[0], es[1..]);
      RemoveKeepsUniqueIds(es[1..], id);
      if es[0].id != id {
        RemoveByIdSpec(es[1..], id);
        UniqueIdsCons(es[0], tail);
      }
    }
  }

  // ---------------------------------------------------------------------------
  // Seed data

  function SeedEvents(): seq<Event> {
    [ Event(1, EventData("Children's Storytime: Winter Tales", "Central Library", "Children's Storytime", "2024-12-15",
                         Attendees(8, 25), 150.0, "Library Budget", "Winter themed stories for children aged 3-7")),
      Event(2, EventData("Author Talk: Local History", "Westside Branch", "Author Talk", "2024-12-20",
                         Attendees(45, 0), 500.0, "Donation", "Meet local author discussing city heritage")),
      Event(3, EventData("Digital Literacy Workshop", "Central Library", "Computer Class", "2025-01-10",
                         Attendees(20, 0), 200.0, "Library Budget", "Basic computer skills for seniors")),
      Event(4, EventData("Book Club: Modern Fiction", "Eastside Branch", "Book Club", "2025-01-15",
                         Attendees(15, 0), 50.0, "Other", "Monthly book discussion group")),
      Event(5, EventData("Children's Art Workshop", "Westside Branch", "Workshop", "2025-01-20",
                         Attendees(5, 18), 300.0, "Donation", "Creative arts for ages 8-12")) ]
  }

  function SeedLibraries(): seq<Library> {
    [ Library(1, "Central Library", "123 Main Street", 200),
      Library(2, "Westside Branch", "456 West Avenue", 100),
      Library(3, "Eastside Branch", "789 East Boulevard", 80) ]
  }

  /**
   * The seed holds five events with ids 1 to 5 and costs 150, 500, 200, 50
   * and 300, and three libraries with ids 1 to 3.
   */
  lemma SeedIds()
    ensures |SeedEvents()| == 5 && UniqueIds(SeedEvents())
    ensures forall i :: 0 <= i < 5 ==> SeedEvents()[i].id == i + 1
    ensures [SeedEvents()[0].data.cost, SeedEvents()[1].data.cost, SeedEvents()[2].data.cost,
             SeedEvents()[3].data.cost, SeedEvents()[4].data.cost] == [150.0, 500.0, 200.0, 50.0, 300.0]
    ensures |SeedLibraries()| == 3 && forall i :: 0 <= i < 3 ==> SeedLibraries()[i].id == i + 1
  {
  }

  /** Every seeded event names a listed category and a seeded library. */
  lemma SeedReferences()
    ensures forall e :: e in SeedEvents() ==> e.data.category in Categories
    ensures forall e :: e in SeedEvents() ==> exists l :: l in SeedLibraries() && l.name == e.data.library
  {
    var ls := SeedLibraries();
    assert ls[0].name == "Central Library" && ls[1].name == "Westside Branch" && ls[2].name == "Eastside Branch";
  }

  // ---------------------------------------------------------------------------
  // Navigation

  /** `location.pathname === path || location.pathname.startsWith(path + '/')`. */
  predicate IsActive(pathname: string, path: string) {
    pathname == path || StartsWith(pathname, path + "/")
  }

  /** The sidebar entries, the Dashboard's first. */
  const NavPaths: seq<string> := ["/", "/events", "/libraries", "/reports"]

  /** Whether entry `i` is highlighted: the Dashboard entry also asks for the exact root path. */
  predicate EntryActive(pathname: string, i: int)
    requires 0 <= i < |NavPaths|
  {
    if i == 0 then IsActive(pathname, "/") && pathname == "/" else IsActive(pathname, NavPaths[i])
  }

  /**
   * The Dashboard entry is highlighted on the root path only; an entry is
   * highlighted on its own path and the paths below it; and never are two
   * entries highlighted at once.
   */
  lemma NavigationSpec(pathname: string)
    ensures EntryActive(pathname, 0) <==> pathname == "/"
    ensures forall i :: 1 <= i < |NavPaths| ==> (EntryActive(pathname, i) <==> (pathname == NavPaths[i] || StartsWith(pathname, NavPaths[i] + "/")))
    ensures forall i, j :: 0 <= i < j < |NavPaths| ==> !(EntryActive(pathname, i) && EntryActive(pathname, j))
  {
    forall i, j | 0 <= i < j < |NavPaths| && EntryActive(pathname, i)
      ensures !EntryActive(pathname, j)
    {
      var p, q := NavPaths[i], NavPaths[j];
      assert |pathname| >= |p| && pathname[..|p|] == p;
      if j > 0 && i > 0 {
        assert pathname[1] == p[1] && q[1] != p[1];
      }
      if i == 0 {
        assert |pathname| == 1;
      }
    }
  }

  /** The Events entry stays highlighted on the add and edit forms but not on a longer sibling path. */
  lemma NavigationExamples()
    ensures IsActive("/events/new", "/events") && IsActive("/events/edit/3", "/events")
    ensures !IsActive("/eventsx", "/events") && !EntryActive("/events", 0)
  {
    assert ("/events/new")[..8] == "/events/";
    assert ("/events/edit/3")[..8] == "/events/";
    assert ("/eventsx")[..8] != "/events/" by {
      assert ("/eventsx")[7] == 'x';
    }
  }

  // ---------------------------------------------------------------------------
  // The store

  /**
   * The application state: the two collections and, as ghost state, what
   * was last written to local storage under "libraryEvents" and "libraries".
   */
  class EventStore {
    var events: seq<Event>
    var libraries: seq<Library>
    ghost var savedEvents: Option<seq<Event>>
    ghost var savedLibraries: Option<seq<Library>>

    /**
     * The mount effect: each collection is what was saved, or the seed data
     * when nothing was saved, in which case the seed is written back.
     */
    constructor Load(storedEvents: Option<seq<Event>>, storedLibraries: Option<seq<Library>>)
      ensures events == (if storedEvents.Some? then storedEvents.value else SeedEvents())
      ensures libraries == (if storedLibraries.Some? then storedLibraries.value else SeedLibraries())
      ensures savedEvents == Some(events) && savedLibraries == Some(libraries)
    {
      events := if storedEvents.Some? then storedEvents.value else SeedEvents();
      libraries := if storedLibraries.Some? then storedLibraries.value else SeedLibraries();
      savedEvents := Some(events);
      savedLibraries := Some(libraries);
    }

    /**
     * `addEvent`: the new event goes at the end with an id above every
     * existing id; the earlier records and the libraries are unchanged.
     */
    method AddEvent(data: EventData)
      modifies this
      ensures events == old(events) + [Event(NextId(old(events)), data)]
      ensures forall e :: e in old(events) ==> e.id < events[|events| - 1].id
      ensures UniqueIds(old(events)) ==> UniqueIds(events)
      ensures libraries == old(libraries) && savedLibraries == old(savedLibraries)
      ensures savedEvents == Some(events)
    {
      var id := NextId(events);
      events := events + [Event(id, data)];
      savedEvents := Some(events);
    }

    /** `updateEvent`: every record with the id takes the new data and keeps the id; nothing else changes. */
    method UpdateEvent(id: int, data: EventData)
      modifies this
      ensures events == ReplaceById(old(events), id, data)
      ensures libraries == old(libraries) && savedLibraries == old(savedLibraries)
      ensures savedEvents == Some(events)
    {
      events := ReplaceById(events, id, data);
      savedEvents := Some(events);
    }

    /** `deleteEvent`: the records with the id go; the others stay in order. */
    method DeleteEvent(id: int)
      modifies this
      ensures events == RemoveById(old(events), id)
      ensures libraries == old(libraries) && savedLibraries == old(savedLibraries)
      ensures savedEvents == Some(events)
    {
      events := RemoveById(events, id);
      savedEvents := Some(events);
    }

    /**
     * Drawing the Dashboard. Its `events.sort(...)` sorts the application's
     * own array in place, without `setEvents` and without saving: afterwards
     * the collection is newest first, holds the same records, and differs
     * in order from what local storage holds. The sort is stable (events
     * sharing a date keep their order), so the new order is fixed by the old
     * one; see `Ranking.TiesDetermineOrder`. The recent list is its first
     * five records, and the category counts are taken from the sorted order.
     */
    method ShowDashboard(now: Instant) returns (stats: Dashboard.Stats, recent: seq<Event>, top: seq<Tally>)
      modifies this
      ensures multiset(events) == multiset(old(events)) && NewestFirst(events)
      ensures forall k :: WithKey(events, Recency, k) == WithKey(old(events), Recency, k)
      ensures stats == Dashboard.StatsOf(old(events), old(libraries), now)
      ensures recent == Take(events, 5)
      ensures top == Dashboard.TopCategories(events)
      ensures libraries == old(libraries) && savedEvents == old(savedEvents) && savedLibraries == old(savedLibraries)
    {
      var es := events;
      var a := new Event[|es|](i requires 0 <= i < |es| => es[i]);
      assert a[..] == es;
      recent := Recent(a, 5);
      events := a[..];
      top := Dashboard.TopCategoriesOf(events);
      stats := Dashboard.StatsOf(es, libraries, now);
    }
  }
}
