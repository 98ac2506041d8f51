/**
 * `events.reduce((acc, e) => { acc[e.category] = (acc[e.category] || 0) + 1; ... }, {})`
 * as the Dashboard and Libraries views build it, `Object.entries` of the
 * result, and the Dashboard's stable sort of those entries by count.
 */
module Tallies {
  import opened Records
  import opened Sequences
  import opened Aggregates
  import opened Ranking

  /** The keys of the events in the order each first occurs: the key order of the accumulator object. */
  function KeysSeen(es: seq<Event>, field: Grouping): seq<Key>
    decreases |es|
  {
    if es == [] then []
    else
      var prev := KeysSeen(es[..|es| - 1], field);
      var k := KeyOf(field, es[|es| - 1]);
      if k in prev then prev else prev + [k]
  }

  /** The keys seen are distinct and are exactly the keys of the events. */
  lemma {:induction false} KeysSeenSpec(es: seq<Event>, field: Grouping)
    ensures Distinct(KeysSeen(es, field))
    ensures forall k :: k in KeysSeen(es, field) <==> exists e :: e in es && KeyOf(field, e) == k
    decreases |es|
  {
    if es != [] {
      var init, last := es[..|es| - 1], es[|es| - 1];
      KeysSeenSpec(init, field);
      assert es == init + [last];
      var prev := KeysSeen(init, field);
      if KeyOf(field, last) !in prev {
        DistinctAppend(prev, KeyOf(field, last));
      }
      forall k | exists e :: e in es && KeyOf(field, e) == k
        ensures k in KeysSeen(es, field)
      {
        var e :| e in es && KeyOf(field, e) == k;
        if e != last {
          assert e in init;
        }
      }
    }
  }

  /** One `[category, count]` entry of `Object.entries(categoryStats)`. */
  datatype Tally = Tally(key: Key, count: int)

  function TallyOf(g: Group): Tally {
    Tally(g.key, g.totals.count)
  }

  function TalliesOf(gs: seq<Group>): (r: seq<Tally>)
    ensures |r| == |gs| && forall i :: 0 <= i < |gs| ==> r[i] == TallyOf(gs[i])
  {
    if gs == [] then [] else [TallyOf(gs[0])] + TalliesOf(gs[1..])
  }

  /** The entries of the accumulator: one per key, in first-seen order, with its count. */
  function CategoryTallies(es: seq<Event>): seq<Tally> {
    TalliesOf(Groups(es, ByCategory, KeysSeen(es, ByCategory), true))
  }

  function SumCounts(ts: seq<Tally>): int {
    if ts == [] then 0 else ts[0].count + SumCounts(ts[1..])
  }

  lemma {:induction false} SumCountsOf(gs: seq<Group>)
    ensures SumCounts(TalliesOf(gs)) == SumTotals(gs).count
  {
    if gs != [] {
      SumCountsOf(gs[1..]);
      assert TalliesOf(gs)[1..] == TalliesOf(gs[1..]);
    }
  }

  /**
   * The tallies name each category of the events once, in first-seen order;
   * each count is the number of events in that category and is at least 1;
   * and the counts add up to the number of events.
   */
  lemma CategoryTalliesSpec(es: seq<Event>)
    ensures var ts := CategoryTallies(es);
      && |ts| == |KeysSeen(es, ByCategory)|
      && (forall i :: 0 <= i < |ts| ==> ts[i].key == KeysSeen(es, ByCategory)[i])
      && (forall i :: 0 <= i < |ts| ==> ts[i].count == |Select(es, ByCategory, ts[i].key)| >= 1)
      && SumCounts(ts) == |es|
  {
    KeysSeenSpec(es, ByCategory);
    TalliesOver(es, KeysSeen(es, ByCategory));
  }

  /**
   * Tallying over any distinct list of exactly the events' categories gives
   * one entry per category, in list order, each counting that category's
   * events (at least one), and the counts add up to the number of events.
   */
  lemma TalliesOver(es: seq<Event>, keys: seq<Key>)
    requires Distinct(keys)
    requires forall k :: k in keys <==> exists e :: e in es && KeyOf(ByCategory, e) == k
    ensures var ts := TalliesOf(Groups(es, ByCategory, keys, true));
      && |ts| == |keys|
      && (forall i :: 0 <= i < |ts| ==> ts[i].key == keys[i])
      && (forall i :: 0 <= i < |ts| ==> ts[i].count == |Select(es, ByCategory, ts[i].key)| >= 1)
      && SumCounts(ts) == |es|
  {
    var gs := Groups(es, ByCategory, keys, true);
    assert |gs| == |keys| && forall i :: 0 <= i < |gs| ==> gs[i] == GroupFor(es, ByCategory, keys[i]) by {
      GroupsSpec(es, ByCategory, keys, true);
    }
    forall i | 0 <= i < |keys|
      ensures |Select(es, ByCategory, keys[i])| >= 1
    {
      assert keys[i] in keys;
      var e :| e in es && KeyOf(ByCategory, e) == keys[i];
      SelectSpec(es, ByCategory, keys[i]);
      assert e in Select(es, ByCategory, keys[i]);
    }
    assert SumCounts(TalliesOf(gs)) == |es| by {
      SumCountsOf(gs);
      GroupsConserve(es, ByCategory, keys, true);
    }
  }

  /**
   * `acc` and `order` hold what the accumulator loop has built from `es`:
   * the keys in creation order and, for each, the totals of its events.
   */
  ghost predicate Accumulated(acc: map<Key, Totals>, order: seq<Key>, es: seq<Event>, field: Grouping) {
    && order == KeysSeen(es, field)
    && (forall k :: k in acc <==> k in order)
    && (forall k :: k in acc ==> acc[k] == TotalsOf(Select(es, field, k)))
  }

  lemma KeysSeenSnoc(es: seq<Event>, e: Event, field: Grouping)
    ensures KeysSeen(es + [e], field)
         == if KeyOf(field, e) in KeysSeen(es, field) then KeysSeen(es, field) else KeysSeen(es, field) + [KeyOf(field, e)]
  {
    assert (es + [e])[..|es|] == es;
  }

  /** One turn of the accumulator loop on an event whose key is already there. */
  lemma AccumulateOld(acc: map<Key, Totals>, order: seq<Key>, es: seq<Event>, e: Event, field: Grouping)
    requires Accumulated(acc, order, es, field) && KeyOf(field, e) in acc
    ensures Accumulated(acc[KeyOf(field, e) := Plus(acc[KeyOf(field, e)], TotalsOf([e]))], order, es + [e], field)
  {
    var k0 := KeyOf(field, e);
    var next := acc[k0 := Plus(acc[k0], TotalsOf([e]))];
    KeysSeenSnoc(es, e, field);
    assert KeysSeen(es + [e], field) == order;
    assert forall k :: k in next <==> k in acc;
    forall k | k in next
      ensures next[k] == TotalsOf(Select(es + [e], field, k))
    {
      TotalsSnoc(es, e, field, k);
    }
  }

  /** One turn of the accumulator loop on an event with a new key. */
  lemma AccumulateNew(acc: map<Key, Totals>, order: seq<Key>, es: seq<Event>, e: Event, field: Grouping)
    requires Accumulated(acc, order, es, field) && KeyOf(field, e) !in acc
    ensures Accumulated(acc[KeyOf(field, e) := TotalsOf([e])], order + [KeyOf(field, e)], es + [e], field)
  {
    var k := KeyOf(field, e);
    var next := acc[k := TotalsOf([e])];
    KeysSeenSnoc(es, e, field);
    assert KeysSeen(es + [e], field) == order + [k];
    forall k' | k' in next
      ensures next[k'] == TotalsOf(Select(es + [e], field, k'))
    {
      TotalsSnoc(es, e, field, k');
      if k' == k {
        SelectUnseen(es, field, k);
        PlusZero(TotalsOf([e]));
      }
    }
  }

  /** A key not seen yet has no events. */
  lemma SelectUnseen(es: seq<Event>, field: Grouping, k: Key)
    requires k !in KeysSeen(es, field)
    ensures Select(es, field, k) == []
  {
    KeysSeenSpec(es, field);
    SelectNone(es, field, k);
  }

  /**
   * The accumulator loop shared by the per-category counts and the monthly
   * trends: a dictionary from key to running totals, filled one event at a
   * time (`acc[k] = (acc[k] || zero) + e`), with its keys in creation order.
   */
  method Accumulate(es: seq<Event>, field: Grouping) returns (acc: map<Key, Totals>, order: seq<Key>)
    ensures order == KeysSeen(es, field)
    ensures forall k :: k in acc <==> k in order
    ensures forall k :: k in acc ==> acc[k] == TotalsOf(Select(es, field, k))
  {
    acc, order := map[], [];
    var i := 0;
    while i < |es|
      invariant 0 <= i <= |es|
      invariant Accumulated(acc, order, es[..i], field)
    {
      var e := es[i];
      var k := KeyOf(field, e);
      assert es[..i + 1] == es[..i] + [e];
      if k in acc {
        assert Accumulated(acc[k := Plus(acc[k], TotalsOf([e]))], order, es[..i + 1], field) by {
          AccumulateOld(acc, order, es[..i], e, field);
        }
        acc := acc[k := Plus(acc[k], TotalsOf([e]))];
      } else {
        assert Accumulated(acc[k := TotalsOf([e])], order + [k], es[..i + 1], field) by {
          AccumulateNew(acc, order, es[..i], e, field);
        }
        acc := acc[k := TotalsOf([e])];
        order := order + [k];
      }
      i := i + 1;
    }
    assert es[..i] == es;
  }

  /** `Object.entries(categoryStats)` after the counting loop. */
  method CountByCategory(es: seq<Event>) returns (tallies: seq<Tally>)
    ensures tallies == CategoryTallies(es)
  {
    var acc, order := Accumulate(es, ByCategory);
    tallies := seq(|order|, j requires 0 <= j < |order| => Tally(order[j], acc[order[j]].count));
    GroupsSpec(es, ByCategory, order, true);
  }

  function CountOf(t: Tally): int { t.count }

  /**
   * Places `t` in front of the first entry whose count is not larger, so that
   * it stays ahead of the entries with an equal count (which came after it).
   */
  function InsertByCount(t: Tally, xs: seq<Tally>): (r: seq<Tally>)
    ensures |r| == |xs| + 1
    ensures r[0] == t || (xs != [] && r[0] == xs[0])
  {
    if xs == [] || t.count >= xs[0].count then [t] + xs
    else [xs[0]] + InsertByCount(t, xs[1..])
  }

  /** `entries.sort((a, b) => b[1] - a[1])`, a stable sort by descending count. */
  function SortByCount(s: seq<Tally>): (r: seq<Tally>)
    ensures |r| == |s|
  {
    if s == [] then [] else InsertByCount(s[0], SortByCount(s[1..]))
  }

  /** Inserting keeps neighbours in descending order. */
  lemma {:induction false} InsertSteps(t: Tally, xs: seq<Tally>)
    requires StepsDescend(xs, CountOf)
    ensures StepsDescend(InsertByCount(t, xs), CountOf)
  {
    if !(xs == [] || t.count >= xs[0].count) {
      InsertSteps(t, xs[1..]);
      var r := InsertByCount(t, xs);
      forall k | 0 < k < |r|
        ensures CountOf(r[k - 1]) >= CountOf(r[k])
      {
        if k > 1 {
          assert r[k - 1] == InsertByCount(t, xs[1..])[k - 2] && r[k] == InsertByCount(t, xs[1..])[k - 1];
        }
      }
    }
  }

  /** Inserting adds exactly the one entry. */
  lemma {:induction false} InsertPerm(t: Tally, xs: seq<Tally>)
    ensures multiset(InsertByCount(t, xs)) == multiset(xs) + multiset{t}
  {
    if !(xs == [] || t.count >= xs[0].count) {
      InsertPerm(t, xs[1..]);
      assert xs == [xs[0]] + xs[1..];
    }
  }

  /** Inserting `t` affects the entries of t's count only by putting `t` in front of them. */
  lemma {:induction false} InsertStable(t: Tally, xs: seq<Tally>, c: int)
    ensures WithKey(InsertByCount(t, xs), CountOf, c) == WithKey([t] + xs, CountOf, c)
  {
    if xs == [] || t.count >= xs[0].count {
    } else {
      InsertStable(t, xs[1..], c);
      WithKeyCons(xs[0], InsertByCount(t, xs[1..]), CountOf, c);
      WithKeyCons(t, xs[1..], CountOf, c);
      WithKeyCons(t, xs, CountOf, c);
      WithKeyCons(xs[0], xs[1..], CountOf, c);
      assert xs == [xs[0]] + xs[1..];
    }
  }

  /**
   * The sort orders entries by descending count, keeps exactly the same
   * entries, and is stable: the entries sharing a count stay in their input order.
   */
  lemma {:induction false} SortByCountSpec(s: seq<Tally>)
    ensures Descending(SortByCount(s), CountOf)
    ensures multiset(SortByCount(s)) == multiset(s)
    ensures forall c :: WithKey(SortByCount(s), CountOf, c) == WithKey(s, CountOf, c)
  {
    SortSteps(s);
    StepsDescending(SortByCount(s), CountOf);
    SortPerm(s);
    forall c {
      SortStable(s, c);
    }
  }

  lemma {:induction false} SortSteps(s: seq<Tally>)
    ensures StepsDescend(SortByCount(s), CountOf)
  {
    if s != [] {
      SortSteps(s[1..]);
      InsertSteps(s[0], SortByCount(s[1..]));
    }
  }

  lemma {:induction false} SortPerm(s: seq<Tally>)
    ensures multiset(SortByCount(s)) == multiset(s)
  {
    if s != [] {
      SortPerm(s[1..]);
      InsertPerm(s[0], SortByCount(s[1..]));
      assert s == [s[0]] + s[1..];
    }
  }

  lemma {:induction false} SortStable(s: seq<Tally>, c: int)
    ensures WithKey(SortByCount(s), CountOf, c) == WithKey(s, CountOf, c)
  {
    if s != [] {
      SortStable(s[1..], c);
      InsertStable(s[0], SortByCount(s[1..]), c);
      WithKeyCons(s[0], SortByCount(s[1..]), CountOf, c);
      WithKeyCons(s[0], s[1..], CountOf, c);
      assert s == [s[0]] + s[1..];
    }
  }

  /** `entries.sort(by count).slice(0, n)`. */
  function Top(s: seq<Tally>, n: nat): seq<Tally> {
    Take(SortByCount(s), n)
  }

  /**
   * The top entries are at most `n`, in descending count; together with the
   * entries left out they are exactly the input, and no entry left out has a
   * larger count than one kept.
   */
  lemma TopSpec(s: seq<Tally>, n: nat)
    ensures var r, left := Top(s, n), SortByCount(s)[Min(n, |s|)..];
      && |r| == Min(n, |s|)
      && Descending(r, CountOf)
      && multiset(r) + multiset(left) == multiset(s)
      && forall i, j :: 0 <= i < |r| && 0 <= j < |left| ==> r[i].count >= left[j].count
  {
    var sorted := SortByCount(s);
    var m := Min(n, |s|);
    assert multiset(sorted) == multiset(s) && |sorted| == |s| by {
      SortPerm(s);
    }
    assert Top(s, n) == sorted[..m];
    assert Descending(sorted, CountOf) by {
      SortSteps(s);
      StepsDescending(sorted, CountOf);
    }
    TopOfSorted(s, sorted, m);
  }

  /** Splitting a count-descending permutation of `s` after its first `m` entries. */
  lemma TopOfSorted(s: seq<Tally>, sorted: seq<Tally>, m: nat)
    requires multiset(sorted) == multiset(s) && Descending(sorted, CountOf) && m <= |sorted|
    ensures var r, left := sorted[..m], sorted[m..];
      && Descending(r, CountOf)
      && multiset(r) + multiset(left) == multiset(s)
      && forall i, j :: 0 <= i < |r| && 0 <= j < |left| ==> r[i].count >= left[j].count
  {
    assert sorted == sorted[..m] + sorted[m..];
    SplitDescending(sorted, m, CountOf);
  }

  /**
   * Ties among the top entries keep their input order: the top entries with
   * any one count are the first entries with that count in the input.
   */
  lemma TopStable(s: seq<Tally>, n: nat, c: int)
    ensures WithKey(Top(s, n), CountOf, c) <= WithKey(s, CountOf, c)
  {
    var sorted := SortByCount(s);
    var r := Top(s, n);
    assert sorted == r + sorted[|r|..];
    WithKeyAppend(r, sorted[|r|..], CountOf, c);
    SortStable(s, c);
  }

  /** Every top entry comes from the input, and none left out has a larger count than one kept. */
  lemma TopDominates(s: seq<Tally>, n: nat)
    ensures forall t :: t in Top(s, n) ==> t in s
    ensures forall t, u :: t in Top(s, n) && multiset(Top(s, n))[u] < multiset(s)[u] ==> t.count >= u.count
  {
    var sorted := SortByCount(s);
    var m := Min(n, |s|);
    var r := Top(s, n);
    assert r == sorted[..m];
    assert forall t :: t in sorted <==> t in s by {
      SortPerm(s);
      forall t
        ensures t in sorted <==> t in s
      {
        assert t in sorted <==> t in multiset(sorted);
      }
    }
    assert forall t :: t in r ==> t in sorted by {
      assert sorted == r + sorted[m..];
    }
    assert Descending(sorted, CountOf) by {
      SortSteps(s);
      StepsDescending(sorted, CountOf);
    }
    FrontDominates(sorted, m, CountOf);
    SortPerm(s);
  }
}
