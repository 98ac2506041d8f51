/**
 * The Events list view (src/components/Events.jsx): a free-text search and
 * single-choice filters over the events, the reset link, and the shortened
 * description shown in each row.
 */
module EventList {
  import opened Records
  import opened Sequences

  /** The five filter inputs of the view; "" means the input is empty. */
  datatype Query = Query(search: string, library: string, category: string, dateFrom: string, dateTo: string)

  const EmptyQuery := Query("", "", "", "", "")

  /** `text.toLowerCase().includes(term.toLowerCase())`. */
  predicate Mentions(text: string, term: string) {
    Includes(Lower(text), Lower(term))
  }

  /** The test `events.filter` applies to one event. */
  predicate Matches(q: Query, e: Event) {
    && (Mentions(e.data.title, q.search) || Mentions(e.data.description, q.search))
    && (q.library == "" || e.data.library == q.library)
    && (q.category == "" || e.data.category == q.category)
    && (q.dateFrom == "" || OnOrAfter(e.data.date, q.dateFrom))
    && (q.dateTo == "" || OnOrBefore(e.data.date, q.dateTo))
  }

  /** `filteredEvents`: the rows the table shows. */
  function Visible(q: Query, es: seq<Event>): (r: seq<Event>)
    ensures |r| <= |es|
  {
    if es == [] then []
    else if Matches(q, es[0]) then [es[0]] + Visible(q, es[1..])
    else Visible(q, es[1..])
  }

  /** The table shows, in their order, exactly the events that match. */
  lemma {:induction false} VisibleSpec(q: Query, es: seq<Event>)
    ensures IsSubseq(Visible(q, es), es)
    ensures forall e :: e in Visible(q, es) <==> e in es && Matches(q, e)
    ensures forall e :: multiset(Visible(q, es))[e] == if Matches(q, e) then multiset(es)[e] else 0
  {
    if es != [] {
      var x, rest := es[0], es[1..];
      VisibleSpec(q, rest);
      var r := Visible(q, rest);
      assert es == [x] + rest;
      assert multiset(es) == multiset{x} + multiset(rest);
      if Matches(q, x) {
        assert Visible(q, es) == [x] + r;
        assert multiset(Visible(q, es)) == multiset{x} + multiset(r);
      } else {
        assert Visible(q, es) == r;
      }
    }
  }

  /** An empty search term is found in every title: it matches every event. */
  lemma EmptySearchMatches(e: Event)
    ensures Mentions(e.data.title, "")
  {
    assert Lower("") == "";
    IncludesEmpty(Lower(e.data.title));
  }

  /** With every input empty, every event is shown. */
  lemma {:induction false} EmptyQueryShowsAll(es: seq<Event>)
    ensures Visible(EmptyQuery, es) == es
  {
    if es != [] {
      EmptySearchMatches(es[0]);
      EmptyQueryShowsAll(es[1..]);
    }
  }

  /** Lower-casing twice is lower-casing once. */
  lemma LowerIdempotent(s: string)
    ensures Lower(Lower(s)) == Lower(s)
  {
  }

  /** The search ignores case: lower-casing the text or the term first changes nothing. */
  lemma MentionsIgnoresCase(text: string, term: string)
    ensures Mentions(Lower(text), term) <==> Mentions(text, term)
    ensures Mentions(text, Lower(term)) <==> Mentions(text, term)
  {
    LowerIdempotent(text);
    LowerIdempotent(term);
  }

  /**
   * `q` constrains at least as much as `p`: its search term contains p's,
   * and each other input is either left as in `p` or set where p's is empty.
   */
  predicate Refines(q: Query, p: Query) {
    && Includes(Lower(q.search), Lower(p.search))
    && (p.library == "" || q.library == p.library)
    && (p.category == "" || q.category == p.category)
    && (p.dateFrom == "" || q.dateFrom == p.dateFrom)
    && (p.dateTo == "" || q.dateTo == p.dateTo)
  }

  lemma RefinedMatches(q: Query, p: Query, e: Event)
    requires Refines(q, p) && Matches(q, e)
    ensures Matches(p, e)
  {
    if Mentions(e.data.title, q.search) {
      IncludesTrans(Lower(e.data.title), Lower(q.search), Lower(p.search));
    } else {
      IncludesTrans(Lower(e.data.description), Lower(q.search), Lower(p.search));
    }
  }

  /** Adding a constraint never enlarges the table: a refined query shows a subsequence. */
  lemma {:induction false} RefineNarrows(q: Query, p: Query, es: seq<Event>)
    requires Refines(q, p)
    ensures IsSubseq(Visible(q, es), Visible(p, es))
  {
    if es != [] {
      RefineNarrows(q, p, es[1..]);
      if Matches(q, es[0]) {
        RefinedMatches(q, p, es[0]);
        assert Visible(q, es)[1..] == Visible(q, es[1..]);
      }
    }
  }

  /** The "Clear filters" link is offered only when a filter other than the search is set. */
  predicate ClearLinkShown(q: Query) {
    q.library != "" || q.category != "" || q.dateFrom != "" || q.dateTo != ""
  }

  /** The link's click handler: all five inputs emptied, the search term included. */
  function ClearQuery(q: Query): (r: Query)
    ensures r.search == "" && r.library == "" && r.category == "" && r.dateFrom == "" && r.dateTo == ""
  {
    EmptyQuery
  }

  /**
   * Clicking the link hides it, and while it is hidden the search term is
   * the only input that narrows the table.
   */
  lemma ClearLinkLaws(q: Query, es: seq<Event>)
    ensures !ClearLinkShown(ClearQuery(q))
    ensures !ClearLinkShown(q) ==> Visible(q, es) == Visible(EmptyQuery.(search := q.search), es)
  {
    if !ClearLinkShown(q) {
      assert q == EmptyQuery.(search := q.search);
    }
  }

  /** After the reset every event is shown again. */
  lemma ClearShowsAll(q: Query, es: seq<Event>)
    ensures Visible(ClearQuery(q), es) == es
  {
    EmptyQueryShowsAll(es);
  }

  /** The description as a row shows it: longer than 60 characters, its first 60 and "...". */
  function Shorten(d: string): (r: string)
    ensures |d| <= 60 ==> r == d
    ensures |d| > 60 ==> |r| == 63 && r[..60] == d[..60] && r[60..] == "..."
  {
    if |d| > 60 then d[..60] + "..." else d
  }

  /** Shortening never yields more than 63 characters and is idempotent. */
  lemma ShortenIdempotent(d: string)
    ensures |Shorten(d)| <= 63
    ensures Shorten(Shorten(d)) == Shorten(d)
  {
    if |d| > 60 {
      var r := Shorten(d);
      assert r[..60] + "..." == r;
    }
  }
}
