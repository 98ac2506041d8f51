/**
 * Worked figures on the data a first visit seeds (src/App.jsx), as the
 * views would show them.
 */
module Scenarios {
  import opened Records
  import opened Aggregates
  import opened Reports
  import opened LibraryPage
  import App

  /** The next event created after the seed gets id 6. */
  lemma SeedNextId()
    ensures App.NextId(App.SeedEvents()) == 6
  {
    var s := App.SeedEvents();
    assert forall e :: e in s ==> e.id <= 5;
    assert s[4] in s && s[4].id == 5;
  }

  /** Central Library holds two seeded events: 53 attendees (28 adults, 25 children) and a cost of 350. */
  lemma CentralLibraryCard()
    ensures TotalsOf(EventsAt(App.SeedEvents(), App.SeedLibraries()[0])) == Totals(2, 28, 25, 53, 350.0)
  {
    var s := App.SeedEvents();
    var own := EventsAt(s, App.SeedLibraries()[0]);
    assert own == [s[0], s[2]];
  }

  /** An ISO text reads as the day it writes. */
  lemma ReadsAs(s: string, d: Date)
    requires ValidDate(d) && FormatIsoDate(d) == s
    ensures ParseIsoDate(s) == Some(d)
  {
    ParseFormat(d);
  }

  /** The texts of the seeded dates and of the report bound read as those days. */
  lemma SeedDatesParse()
    ensures ParseIsoDate("2025-01-01") == Some(Date(2025, 1, 1))
    ensures ParseIsoDate("2024-12-15") == Some(Date(2024, 12, 15))
    ensures ParseIsoDate("2024-12-20") == Some(Date(2024, 12, 20))
    ensures ParseIsoDate("2025-01-10") == Some(Date(2025, 1, 10))
    ensures ParseIsoDate("2025-01-15") == Some(Date(2025, 1, 15))
    ensures ParseIsoDate("2025-01-20") == Some(Date(2025, 1, 20))
  {
    ReadsAs("2025-01-01", Date(2025, 1, 1));
    ReadsAs("2024-12-15", Date(2024, 12, 15));
    ReadsAs("2024-12-20", Date(2024, 12, 20));
    ReadsAs("2025-01-10", Date(2025, 1, 10));
    ReadsAs("2025-01-15", Date(2025, 1, 15));
    ReadsAs("2025-01-20", Date(2025, 1, 20));
  }

  /** Every seeded date is a readable `YYYY-MM-DD` date. */
  lemma SeedDatesReadable()
    ensures forall e :: e in App.SeedEvents() ==> ParseIsoDate(e.data.date).Some?
  {
    SeedDatesParse();
    var s := App.SeedEvents();
    assert s[0].data.date == "2024-12-15" && s[1].data.date == "2024-12-20" && s[2].data.date == "2025-01-10"
      && s[3].data.date == "2025-01-15" && s[4].data.date == "2025-01-20";
  }

  /** Of the seeded events, a report from 1 January 2025 on passes the last three only. */
  lemma JanuaryKept()
    ensures var f, s := ReportFilter([], [], "2025-01-01", ""), App.SeedEvents();
      !Keeps(f, s[0]) && !Keeps(f, s[1]) && Keeps(f, s[2]) && Keeps(f, s[3]) && Keeps(f, s[4])
  {
    SeedDatesParse();
  }

  /** A report from 1 January 2025 on keeps the three January events, costing 550 in all. */
  lemma ReportFromJanuary()
    ensures var r := FilterEvents(ReportFilter([], [], "2025-01-01", ""), App.SeedEvents());
      |r| == 3 && SumCost(r) == 550.0
  {
    var s := App.SeedEvents();
    var f := ReportFilter([], [], "2025-01-01", "");
    JanuaryKept();
    assert FilterEvents(f, s[4..]) == [s[4]];
    assert FilterEvents(f, s[2..]) == [s[2], s[3], s[4]];
    assert FilterEvents(f, s) == [s[2], s[3], s[4]];
  }
}
