/**
 * The sums, counts and groupings that Reports, Dashboard and Libraries each
 * compute inline with `filter` and `reduce`, written once. Every view's
 * figure is a projection of `TotalsOf` over some selection of events.
 */
module Aggregates {
  import opened Records
  import opened Sequences

  /** `e.attendees.adults + e.attendees.children`. */
  function Attendance(e: Event): int {
    e.data.attendees.adults + e.data.attendees.children
  }

  /** `events.reduce((sum, e) => sum + e.attendees.adults + e.attendees.children, 0)`. */
  function SumAttendance(es: seq<Event>): int {
    if es == [] then 0 else Attendance(es[0]) + SumAttendance(es[1..])
  }

  /** `events.reduce((sum, e) => sum + e.attendees.adults, 0)`. */
  function SumAdults(es: seq<Event>): int {
    if es == [] then 0 else es[0].data.attendees.adults + SumAdults(es[1..])
  }

  /** `events.reduce((sum, e) => sum + e.attendees.children, 0)`. */
  function SumChildren(es: seq<Event>): int {
    if es == [] then 0 else es[0].data.attendees.children + SumChildren(es[1..])
  }

  /** `events.reduce((sum, e) => sum + e.cost, 0)`. */
  function SumCost(es: seq<Event>): real {
    if es == [] then 0.0 else es[0].data.cost + SumCost(es[1..])
  }

  /** Total attendance is total adults plus total children. */
  lemma {:induction false} AttendanceSplit(es: seq<Event>)
    ensures SumAttendance(es) == SumAdults(es) + SumChildren(es)
  {
    if es != [] {
      AttendanceSplit(es[1..]);
    }
  }

  /** Summing costs never goes below zero when no record holds a negative cost. */
  lemma {:induction false} CostNonNegative(es: seq<Event>)
    requires forall e :: e in es ==> e.data.cost >= 0.0
    ensures SumCost(es) >= 0.0
  {
    if es != [] {
      assert es[0] in es;
      CostNonNegative(es[1..]);
    }
  }

  // ---------------------------------------------------------------------------
  // Totals of a selection

  /** Every figure the views show for one set of events. */
  datatype Totals = Totals(count: int, adults: int, children: int, attendees: int, cost: real)

  const NoTotals := Totals(0, 0, 0, 0, 0.0)

  function Plus(a: Totals, b: Totals): Totals {
    Totals(a.count + b.count, a.adults + b.adults, a.children + b.children, a.attendees + b.attendees, a.cost + b.cost)
  }

  /** The totals of a sequence of events; attendance always splits into adults and children. */
  function TotalsOf(es: seq<Event>): (t: Totals)
    ensures t.count == |es| && t.attendees == t.adults + t.children
    ensures es == [] ==> t == NoTotals
  {
    AttendanceSplit(es);
    Totals(|es|, SumAdults(es), SumChildren(es), SumAttendance(es), SumCost(es))
  }

  lemma TotalsCons(e: Event, es: seq<Event>)
    ensures TotalsOf([e] + es) == Plus(TotalsOf([e]), TotalsOf(es))
  {
    var s := [e] + es;
    assert s[0] == e && s[1..] == es;
    assert [e][1..] == [];
    assert SumAdults(s) == e.data.attendees.adults + SumAdults(es);
    assert SumChildren(s) == e.data.attendees.children + SumChildren(es);
    assert SumAttendance(s) == Attendance(e) + SumAttendance(es);
    assert SumCost(s) == e.data.cost + SumCost(es);
    var one := [e];
    assert one[0] == e && one[1..] == [];
    assert SumAdults(one) == e.data.attendees.adults;
    assert SumChildren(one) == e.data.attendees.children;
    assert SumAttendance(one) == Attendance(e);
    assert SumCost(one) == e.data.cost;
  }

  /** Totals add up over concatenation: the reduce of a + b is the sum of the reduces. */
  lemma {:induction false} TotalsAppend(a: seq<Event>, b: seq<Event>)
    ensures TotalsOf(a + b) == Plus(TotalsOf(a), TotalsOf(b))
  {
    if a == [] {
      assert a + b == b;
    } else {
      TotalsAppend(a[1..], b);
      assert a + b == [a[0]] + (a[1..] + b);
      assert a == [a[0]] + a[1..];
      TotalsCons(a[0], a[1..] + b);
      TotalsCons(a[0], a[1..]);
    }
  }

  /** `avg` is the mean of `total` over `n` events: 0 when there are none, and `avg * n == total` otherwise. */
  predicate IsAverage(avg: real, total: real, n: int) {
    (n <= 0 ==> avg == 0.0) && (n > 0 ==> avg * (n as real) == total)
  }

  /** `total / n` when there is at least one event, and 0 otherwise (no division by zero). */
  function Average(total: real, n: int): (r: real)
    ensures IsAverage(r, total, n)
  {
    if n > 0 then total / (n as real) else 0.0
  }

  // ---------------------------------------------------------------------------
  // Grouping

  /** The field a view groups by. */
  datatype Grouping = ByLibrary | ByCategory | ByFunding | ByMonth

  /** A group's identity: a library, category or funding-source name, or a calendar month. */
  datatype Key = Name(name: string) | Month(year: int, month: int) | Undated

  /** The month an ISO date falls in; an unreadable date gets a key of its own. */
  function MonthOf(date: string): (k: Key)
    ensures k.Month? <==> ParseIsoDate(date).Some?
  {
    match ParseIsoDate(date)
    case Some(d) => Month(d.year, d.month)
    case None => Undated
  }

  function KeyOf(field: Grouping, e: Event): Key {
    match field
    case ByLibrary => Name(e.data.library)
    case ByCategory => Name(e.data.category)
    case ByFunding => Name(e.data.fundingSource)
    case ByMonth => MonthOf(e.data.date)
  }

  /** `events.filter(e => key(e) === k)`. */
  function Select(es: seq<Event>, field: Grouping, k: Key): (r: seq<Event>)
    ensures |r| <= |es|
  {
    if es == [] then []
    else if KeyOf(field, es[0]) == k then [es[0]] + Select(es[1..], field, k)
    else Select(es[1..], field, k)
  }

  /** The selection keeps, in order, exactly the events with key `k`. */
  lemma {:induction false} SelectSpec(es: seq<Event>, field: Grouping, k: Key)
    ensures IsSubseq(Select(es, field, k), es)
    ensures forall e :: e in Select(es, field, k) <==> e in es && KeyOf(field, e) == k
    ensures forall e :: multiset(Select(es, field, k))[e] == if KeyOf(field, e) == k then multiset(es)[e] else 0
  {
    if es != [] {
      var x, rest := es[0], es[1..];
      SelectSpec(rest, field, k);
      assert es == [x] + rest;
      var r := Select(rest, field, k);
      assert multiset(es) == multiset{x} + multiset(rest);
      if KeyOf(field, x) == k {
        assert Select(es, field, k) == [x] + r;
        assert multiset(Select(es, field, k)) == multiset{x} + multiset(r);
      } else {
        assert Select(es, field, k) == r;
      }
    }
  }

  lemma SelectCons(e: Event, es: seq<Event>, field: Grouping, k: Key)
    ensures Select([e] + es, field, k) == if KeyOf(field, e) == k then [e] + Select(es, field, k) else Select(es, field, k)
  {
    assert ([e] + es)[1..] == es;
  }

  /** Selecting from a + b selects from a, then from b. */
  lemma {:induction false} SelectAppend(a: seq<Event>, b: seq<Event>, field: Grouping, k: Key)
    ensures Select(a + b, field, k) == Select(a, field, k) + Select(b, field, k)
  {
    if a == [] {
      assert a + b == b;
    } else {
      var x, t := a[0], a[1..];
      SelectAppend(t, b, field, k);
      assert a == [x] + t && a + b == [x] + (t + b);
      SelectCons(x, t + b, field, k);
      SelectCons(x, t, field, k);
      assert [x] + (Select(t, field, k) + Select(b, field, k)) == ([x] + Select(t, field, k)) + Select(b, field, k);
    }
  }

  /** Nothing is selected when no event carries the key. */
  lemma {:induction false} SelectNone(es: seq<Event>, field: Grouping, k: Key)
    requires forall e :: e in es ==> KeyOf(field, e) != k
    ensures Select(es, field, k) == []
  {
    if es != [] {
      assert es[0] in es;
      SelectNone(es[1..], field, k);
    }
  }

  /** Selecting from events with one more at the end. */
  lemma SelectSnoc(es: seq<Event>, e: Event, field: Grouping, k: Key)
    ensures Select(es + [e], field, k) == Select(es, field, k) + (if KeyOf(field, e) == k then [e] else [])
  {
    SelectAppend(es, [e], field, k);
    SelectCons(e, [], field, k);
    assert [e] + [] == [e];
  }

  /** The totals of a key's events with one more event at the end. */
  lemma TotalsSnoc(es: seq<Event>, e: Event, field: Grouping, k: Key)
    ensures TotalsOf(Select(es + [e], field, k))
         == if KeyOf(field, e) == k then Plus(TotalsOf(Select(es, field, k)), TotalsOf([e])) else TotalsOf(Select(es, field, k))
  {
    SelectSnoc(es, e, field, k);
    if KeyOf(field, e) == k {
      TotalsAppend(Select(es, field, k), [e]);
    } else {
      assert Select(es, field, k) + [] == Select(es, field, k);
    }
  }

  /** The events whose key is none of `keys`. */
  function Rest(es: seq<Event>, field: Grouping, keys: seq<Key>): (r: seq<Event>)
    ensures forall e :: e in r ==> e in es && KeyOf(field, e) !in keys
  {
    if es == [] then []
    else if KeyOf(field, es[0]) in keys then Rest(es[1..], field, keys)
    else [es[0]] + Rest(es[1..], field, keys)
  }

  /** When every event's key is listed, nothing is left over. */
  lemma {:induction false} RestOfCovered(es: seq<Event>, field: Grouping, keys: seq<Key>)
    requires forall e :: e in es ==> KeyOf(field, e) in keys
    ensures Rest(es, field, keys) == []
  {
    if es != [] {
      assert es[0] in es;
      RestOfCovered(es[1..], field, keys);
    }
  }

  /** The group keys of a list of names (libraries, categories, funding sources). */
  function Names(names: seq<string>): (r: seq<Key>)
    ensures |r| == |names| && forall i :: 0 <= i < |r| ==> r[i] == Name(names[i])
  {
    seq(|names|, i requires 0 <= i < |names| => Name(names[i]))
  }

  /** `libraries.map(lib => lib.name)`. */
  function LibraryNames(libraries: seq<Library>): (r: seq<string>)
    ensures |r| == |libraries| && forall i :: 0 <= i < |r| ==> r[i] == libraries[i].name
  {
    seq(|libraries|, i requires 0 <= i < |libraries| => libraries[i].name)
  }

  /** One row of a grouped view: a key and the totals of the events carrying it. */
  datatype Group = Group(key: Key, totals: Totals)

  function GroupFor(es: seq<Event>, field: Grouping, k: Key): Group {
    Group(k, TotalsOf(Select(es, field, k)))
  }

  function GroupKeys(gs: seq<Group>): (r: seq<Key>)
    ensures |r| == |gs| && forall i :: 0 <= i < |gs| ==> r[i] == gs[i].key
  {
    if gs == [] then [] else [gs[0].key] + GroupKeys(gs[1..])
  }

  /**
   * `keys.map(k => group of k)`, followed by `.filter(g => g.count > 0)` unless
   * empty groups are kept.
   */
  function Groups(es: seq<Event>, field: Grouping, keys: seq<Key>, keepEmpty: bool): (r: seq<Group>)
    ensures |r| <= |keys|
  {
    if keys == [] then []
    else
      var g := GroupFor(es, field, keys[0]);
      var rest := Groups(es, field, keys[1..], keepEmpty);
      if keepEmpty || g.totals.count > 0 then [g] + rest else rest
  }

  /**
   * The rows follow the order of `keys`; each row holds the totals of exactly
   * the events with its key; every key with at least one event has a row, and
   * with `keepEmpty` every key has one, in place.
   */
  lemma {:induction false} GroupsSpec(es: seq<Event>, field: Grouping, keys: seq<Key>, keepEmpty: bool)
    ensures var r := Groups(es, field, keys, keepEmpty);
      && (keepEmpty ==> |r| == |keys| && forall i :: 0 <= i < |r| ==> r[i] == GroupFor(es, field, keys[i]))
      && (forall g :: g in r ==> g == GroupFor(es, field, g.key) && g.key in keys && (keepEmpty || g.totals.count > 0))
      && (forall k :: k in keys && Select(es, field, k) != [] ==> GroupFor(es, field, k) in r)
      && IsSubseq(GroupKeys(r), keys)
  {
    if keys != [] {
      GroupsSpec(es, field, keys[1..], keepEmpty);
      var g := GroupFor(es, field, keys[0]);
      var rest := Groups(es, field, keys[1..], keepEmpty);
      assert GroupKeys([g] + rest) == [keys[0]] + GroupKeys(rest);
      assert keys == [keys[0]] + keys[1..];
    }
  }

  function SumTotals(gs: seq<Group>): Totals {
    if gs == [] then NoTotals else Plus(gs[0].totals, SumTotals(gs[1..]))
  }

  /** The totals one event contributes to the group with key `k`. */
  function Share(field: Grouping, e: Event, k: Key): Totals {
    if KeyOf(field, e) == k then TotalsOf([e]) else NoTotals
  }

  /** No totals is the unit of adding totals. */
  lemma PlusZero(a: Totals)
    ensures Plus(a, NoTotals) == a && Plus(NoTotals, a) == a
  {
  }

  /** The sum of the groups with a first group in front. */
  lemma SumTotalsCons(g: Group, gs: seq<Group>)
    ensures SumTotals([g] + gs) == Plus(g.totals, SumTotals(gs))
  {
    assert ([g] + gs)[1..] == gs;
  }

  /** The first key's group comes first in the sum. */
  lemma GroupsFront(es: seq<Event>, field: Grouping, keys: seq<Key>)
    requires keys != []
    ensures SumTotals(Groups(es, field, keys, true)) == Plus(GroupFor(es, field, keys[0]).totals, SumTotals(Groups(es, field, keys[1..], true)))
  {
    SumTotalsCons(GroupFor(es, field, keys[0]), Groups(es, field, keys[1..], true));
  }

  /** An event added in front adds its share to a group. */
  lemma GroupForCons(e: Event, es: seq<Event>, field: Grouping, k: Key)
    ensures GroupFor([e] + es, field, k).totals == Plus(Share(field, e, k), GroupFor(es, field, k).totals)
  {
    SelectCons(e, es, field, k);
    TotalsCons(e, Select(es, field, k));
    PlusZero(TotalsOf(Select(es, field, k)));
  }

  /** The totals an event contributes to the groups of `keys`: its own when its key is listed. */
  function Listed(field: Grouping, e: Event, keys: seq<Key>): Totals {
    if KeyOf(field, e) in keys then TotalsOf([e]) else NoTotals
  }

  /** Over distinct keys, an event's contribution is its share of the first key plus that of the others. */
  lemma ListedSplit(field: Grouping, e: Event, keys: seq<Key>)
    requires Distinct(keys) && keys != []
    ensures Listed(field, e, keys) == Plus(Share(field, e, keys[0]), Listed(field, e, keys[1..]))
  {
    var x, t := KeyOf(field, e), TotalsOf([e]);
    if x == keys[0] {
      assert x !in keys[1..];
      PlusZero(t);
    } else {
      assert x in keys <==> x in keys[1..];
      PlusZero(Listed(field, e, keys));
    }
  }

  /** The totals an event leaves over when its key is not among `keys`. */
  function Unlisted(field: Grouping, e: Event, keys: seq<Key>): (t: Totals)
    ensures Plus(Listed(field, e, keys), t) == TotalsOf([e])
  {
    PlusZero(TotalsOf([e]));
    if KeyOf(field, e) in keys then NoTotals else TotalsOf([e])
  }

  /** An event added in front is left over exactly when its key is not listed. */
  lemma RestCons(e: Event, es: seq<Event>, field: Grouping, keys: seq<Key>)
    ensures TotalsOf(Rest([e] + es, field, keys)) == Plus(Unlisted(field, e, keys), TotalsOf(Rest(es, field, keys)))
  {
    assert ([e] + es)[1..] == es;
    var rest := Rest(es, field, keys);
    if KeyOf(field, e) in keys {
      PlusZero(TotalsOf(rest));
    } else {
      TotalsCons(e, rest);
    }
  }

  /** Rearranging four summands. */
  lemma PlusShuffle(a: Totals, b: Totals, c: Totals, d: Totals)
    ensures Plus(Plus(a, b), Plus(c, d)) == Plus(Plus(b, c), Plus(a, d))
    ensures Plus(Plus(a, b), Plus(c, d)) == Plus(Plus(a, d), Plus(b, c))
  {
  }

  /** Adding one event to the front adds its totals to the one group with its key, if any. */
  lemma {:induction false} GroupsCons(e: Event, es: seq<Event>, field: Grouping, keys: seq<Key>)
    requires Distinct(keys)
    ensures SumTotals(Groups([e] + es, field, keys, true)) == Plus(SumTotals(Groups(es, field, keys, true)), Listed(field, e, keys))
  {
    if keys == [] {
      PlusZero(NoTotals);
    } else {
      var k, ks := keys[0], keys[1..];
      GroupsCons(e, es, field, ks);
      GroupsFront([e] + es, field, keys);
      GroupsFront(es, field, keys);
      GroupForCons(e, es, field, k);
      ListedSplit(field, e, keys);
      PlusShuffle(Share(field, e, k), GroupFor(es, field, k).totals, SumTotals(Groups(es, field, ks, true)), Listed(field, e, ks));
    }
  }

  /** With no events every group is empty. */
  lemma {:induction false} GroupsOfNothing(field: Grouping, keys: seq<Key>)
    ensures SumTotals(Groups([], field, keys, true)) == NoTotals
  {
    if keys != [] {
      GroupsOfNothing(field, keys[1..]);
      var g := GroupFor([], field, keys[0]);
      var rest := Groups([], field, keys[1..], true);
      assert Groups([], field, keys, true) == [g] + rest;
      assert g.totals == NoTotals;
      SumTotalsCons(g, rest);
      PlusZero(NoTotals);
    }
  }

  /**
   * Conservation: over distinct keys, the group totals plus the totals of the
   * events whose key is not listed add up to the totals of all events. In
   * particular every event is counted in exactly one place.
   */
  lemma {:induction false} Partition(es: seq<Event>, field: Grouping, keys: seq<Key>)
    requires Distinct(keys)
    ensures Plus(SumTotals(Groups(es, field, keys, true)), TotalsOf(Rest(es, field, keys))) == TotalsOf(es)
  {
    if es == [] {
      GroupsOfNothing(field, keys);
      PlusZero(NoTotals);
    } else {
      var e, tail := es[0], es[1..];
      assert es == [e] + tail;
      Partition(tail, field, keys);
      GroupsCons(e, tail, field, keys);
      RestCons(e, tail, field, keys);
      TotalsCons(e, tail);
      PlusShuffle(SumTotals(Groups(tail, field, keys, true)), Listed(field, e, keys), Unlisted(field, e, keys), TotalsOf(Rest(tail, field, keys)));
    }
  }

  /** Leaving out the empty groups does not change the sum of the groups. */
  lemma {:induction false} DropEmptyGroups(es: seq<Event>, field: Grouping, keys: seq<Key>)
    ensures SumTotals(Groups(es, field, keys, false)) == SumTotals(Groups(es, field, keys, true))
  {
    if keys != [] {
      DropEmptyGroups(es, field, keys[1..]);
      var g := GroupFor(es, field, keys[0]);
      var all := Groups(es, field, keys[1..], true);
      var kept := Groups(es, field, keys[1..], false);
      assert Groups(es, field, keys, true) == [g] + all;
      SumTotalsCons(g, all);
      if g.totals.count > 0 {
        assert Groups(es, field, keys, false) == [g] + kept;
        SumTotalsCons(g, kept);
      } else {
        assert Groups(es, field, keys, false) == kept;
        assert Select(es, field, keys[0]) == [];
        PlusZero(SumTotals(all));
      }
    }
  }

  /**
   * The non-empty groups over distinct keys: at most one per key, in key
   * order, each with its key's totals; their cost plus the cost of the events
   * no key names is the whole cost, so with no negative cost they cost at
   * most the whole.
   */
  lemma KeptGroupsOver(es: seq<Event>, field: Grouping, keys: seq<Key>)
    requires Distinct(keys)
    ensures var r := Groups(es, field, keys, false);
      && |r| <= |keys|
      && IsSubseq(GroupKeys(r), keys)
      && (forall g :: g in r ==> g.totals.count > 0 && g.totals == TotalsOf(Select(es, field, g.key)))
      && SumTotals(r).cost + TotalsOf(Rest(es, field, keys)).cost == TotalsOf(es).cost
      && ((forall e :: e in es ==> e.data.cost >= 0.0) ==> SumTotals(r).cost <= TotalsOf(es).cost)
  {
    var r := Groups(es, field, keys, false);
    assert |r| <= |keys| && IsSubseq(GroupKeys(r), keys)
        && forall g :: g in r ==> g.totals.count > 0 && g.totals == TotalsOf(Select(es, field, g.key)) by {
      GroupsSpec(es, field, keys, false);
      SubseqBounds(GroupKeys(r), keys);
    }
    assert SumTotals(r).cost + TotalsOf(Rest(es, field, keys)).cost == TotalsOf(es).cost by {
      Partition(es, field, keys);
      DropEmptyGroups(es, field, keys);
    }
    if forall e :: e in es ==> e.data.cost >= 0.0 {
      CostNonNegative(Rest(es, field, keys));
    }
  }

  /** When the keys name every event's key exactly once, the groups add up to the whole. */
  lemma GroupsConserve(es: seq<Event>, field: Grouping, keys: seq<Key>, keepEmpty: bool)
    requires Distinct(keys)
    requires forall e :: e in es ==> KeyOf(field, e) in keys
    ensures SumTotals(Groups(es, field, keys, keepEmpty)) == TotalsOf(es)
  {
    var all := SumTotals(Groups(es, field, keys, true));
    Partition(es, field, keys);
    RestOfCovered(es, field, keys);
    assert TotalsOf(Rest(es, field, keys)) == NoTotals;
    PlusZero(all);
    DropEmptyGroups(es, field, keys);
  }

  // ---------------------------------------------------------------------------
  // Upcoming events

  /** `events.filter(e => new Date(e.date) >= now)`. */
  function Upcoming(es: seq<Event>, now: Instant): (r: seq<Event>)
    ensures IsSubseq(r, es) && |r| <= |es|
    ensures forall e :: e in r <==> e in es && IsUpcoming(e.data.date, now)
    ensures forall e :: multiset(r)[e] == if IsUpcoming(e.data.date, now) then multiset(es)[e] else 0
  {
    if es == [] then []
    else
      assert es == [es[0]] + es[1..];
      if IsUpcoming(es[0].data.date, now) then [es[0]] + Upcoming(es[1..], now)
      else Upcoming(es[1..], now)
  }
}
