/**
 * The "recent events" lists of the Dashboard and Libraries views: the events
 * sorted in place, newest date first, then cut to a fixed length.
 */
module Ranking {
  import opened Records
  import opened Sequences

  // ---------------------------------------------------------------------------
  // Newest first

  /** Every element's key is at least the key of every element after it. */
  predicate Descending<T>(s: seq<T>, key: T -> int) {
    forall i, j :: 0 <= i < j < |s| ==> key(s[i]) >= key(s[j])
  }

  /** Every event is at least as recent as every event after it. */
  predicate NewestFirst(s: seq<Event>) {
    Descending(s, Recency)
  }

  /** The elements whose key is `k`, in their order. */
  function WithKey<T>(s: seq<T>, key: T -> int, k: int): (r: seq<T>)
  {
    if s == [] then []
    else if key(s[0]) == k then [s[0]] + WithKey(s[1..], key, k)
    else WithKey(s[1..], key, k)
  }

  /** Only elements of `s` with key `k` are listed. */
  lemma {:induction false} WithKeyMember<T>(s: seq<T>, key: T -> int, k: int, x: T)
    ensures x in WithKey(s, key, k) ==> x in s && key(x) == k
  {
    if s != [] {
      WithKeyMember(s[1..], key, k, x);
    }
  }

  lemma WithKeyCons<T>(x: T, xs: seq<T>, key: T -> int, k: int)
    ensures WithKey([x] + xs, key, k) == (if key(x) == k then [x] else []) + WithKey(xs, key, k)
  {
    assert ([x] + xs)[1..] == xs;
  }

  /** Taking the elements of one key distributes over concatenation. */
  lemma {:induction false} WithKeyAppend<T>(a: seq<T>, b: seq<T>, key: T -> int, k: int)
    ensures WithKey(a + b, key, k) == WithKey(a, key, k) + WithKey(b, key, k)
  {
    if a == [] {
      assert a + b == b;
    } else {
      WithKeyAppend(a[1..], b, key, k);
      assert a + b == [a[0]] + (a[1..] + b);
      WithKeyCons(a[0], a[1..] + b, key, k);
      assert a == [a[0]] + a[1..];
      WithKeyCons(a[0], a[1..], key, k);
    }
  }

  /** Exchanging two neighbours with different keys keeps, for every key, its elements in order. */
  lemma SwapKeepsTies<T>(s: seq<T>, j: int, key: T -> int)
    requires 0 < j < |s| && key(s[j - 1]) != key(s[j])
    ensures forall k :: WithKey(s[j - 1 := s[j]][j := s[j - 1]], key, k) == WithKey(s, key, k)
  {
    var t := s[j - 1 := s[j]][j := s[j - 1]];
    var x, y, pre, post := s[j - 1], s[j], s[..j - 1], s[j + 1..];
    assert s == pre + ([x] + ([y] + post));
    assert t == pre + ([y] + ([x] + post));
    forall k
      ensures WithKey(t, key, k) == WithKey(s, key, k)
    {
      WithKeyAppend(pre, [x] + ([y] + post), key, k);
      WithKeyAppend(pre, [y] + ([x] + post), key, k);
      WithKeyCons(x, [y] + post, key, k);
      WithKeyCons(y, post, key, k);
      WithKeyCons(y, [x] + post, key, k);
      WithKeyCons(x, post, key, k);
    }
  }

  /** An element heads the list of the elements with its key. */
  lemma HeadWithKey<T>(s: seq<T>, key: T -> int)
    requires s != []
    ensures WithKey(s, key, key(s[0])) == [s[0]] + WithKey(s[1..], key, key(s[0]))
  {
    assert s == [s[0]] + s[1..];
    WithKeyCons(s[0], s[1..], key, key(s[0]));
  }

  /** Two descending lists with the same elements per key start with the same element. */
  lemma SameHead<T>(s: seq<T>, t: seq<T>, key: T -> int)
    requires Descending(s, key) && Descending(t, key) && s != []
    requires forall k :: WithKey(s, key, k) == WithKey(t, key, k)
    ensures t != [] && t[0] == s[0]
  {
    var k := key(s[0]);
    HeadWithKey(s, key);
    WithKeyMember(t, key, k, s[0]);
    var i :| 0 <= i < |t| && t[i] == s[0];
    assert key(t[0]) >= k by {
      if i > 0 {
        assert key(t[0]) >= key(t[i]);
      }
    }
    HeadWithKey(t, key);
    WithKeyMember(s, key, key(t[0]), t[0]);
    var j :| 0 <= j < |s| && s[j] == t[0];
    assert k >= key(t[0]) by {
      if j > 0 {
        assert key(s[0]) >= key(s[j]);
      }
    }
    assert WithKey(t, key, k) == [t[0]] + WithKey(t[1..], key, k);
    assert WithKey(s, key, k)[0] == s[0];
  }

  /** Dropping the same first element keeps the elements per key equal. */
  lemma SameTailTies<T>(s: seq<T>, t: seq<T>, key: T -> int)
    requires s != [] && t != [] && s[0] == t[0]
    requires forall k :: WithKey(s, key, k) == WithKey(t, key, k)
    ensures forall k :: WithKey(s[1..], key, k) == WithKey(t[1..], key, k)
  {
    forall k
      ensures WithKey(s[1..], key, k) == WithKey(t[1..], key, k)
    {
      var x, a, b := s[0], WithKey(s[1..], key, k), WithKey(t[1..], key, k);
      assert s == [x] + s[1..] && t == [x] + t[1..];
      WithKeyCons(x, s[1..], key, k);
      WithKeyCons(x, t[1..], key, k);
      if key(x) == k {
        assert a == ([x] + a)[1..] && b == ([x] + b)[1..];
      } else {
        assert [] + a == a && [] + b == b;
      }
    }
  }

  /**
   * A stable descending order is unique: two descending lists that hold, for
   * every key, the same elements in the same order are equal.
   */
  lemma {:induction false} TiesDetermineOrder<T>(s: seq<T>, t: seq<T>, key: T -> int)
    requires Descending(s, key) && Descending(t, key)
    requires forall k :: WithKey(s, key, k) == WithKey(t, key, k)
    ensures s == t
    decreases |s|
  {
    if s == [] {
      if t != [] {
        SameHead(t, s, key);
      }
    } else {
      SameHead(s, t, key);
      SameTailTies(s, t, key);
      SplitDescending(s, 1, key);
      SplitDescending(t, 1, key);
      TiesDetermineOrder(s[1..], t[1..], key);
      assert s == [s[0]] + s[1..] && t == [t[0]] + t[1..];
    }
  }

  /** Neighbouring elements never increase in key. */
  predicate StepsDescend<T>(s: seq<T>, key: T -> int) {
    forall k :: 0 < k < |s| ==> key(s[k - 1]) >= key(s[k])
  }

  /** Order between neighbours extends to order between any two elements. */
  lemma {:induction false} StepsDescending<T>(s: seq<T>, key: T -> int)
    requires StepsDescend(s, key)
    ensures Descending(s, key)
  {
    if |s| > 1 {
      StepsDescending(s[1..], key);
      assert Descending(s[1..], key);
      forall j | 0 < j < |s|
        ensures key(s[0]) >= key(s[j])
      {
        assert s[1..][0] == s[1] && (j == 1 || s[1..][j - 1] == s[j]);
      }
      forall i, j | 0 < i < j < |s|
        ensures key(s[i]) >= key(s[j])
      {
        assert s[1..][i - 1] == s[i] && s[1..][j - 1] == s[j];
      }
    }
  }

  /**
   * An in-place insertion sort by adjacent swaps on a descending key, the
   * shape of `array.sort((a, b) => key(b) - key(a))`: elements with the same
   * key keep their relative order.
   */
  method SortDescending<T>(a: array<T>, key: T -> int)
    modifies a
    ensures Descending(a[..], key)
    ensures multiset(a[..]) == multiset(old(a[..]))
    ensures forall k :: WithKey(a[..], key, k) == WithKey(old(a[..]), key, k)
  {
    var i := 0;
    while i < a.Length
      invariant 0 <= i <= a.Length
      invariant forall k :: 0 < k < i ==> key(a[k - 1]) >= key(a[k])
      invariant multiset(a[..]) == multiset(old(a[..]))
      invariant forall k :: WithKey(a[..], key, k) == WithKey(old(a[..]), key, k)
    {
      InsertBack(a, i, key);
      i := i + 1;
    }
    StepsDescending(a[..], key);
  }

  /** Moves `a[i]` left past every smaller key, so that `a[..i + 1]` descends. */
  method InsertBack<T>(a: array<T>, i: int, key: T -> int)
    requires 0 <= i < a.Length
    requires forall k :: 0 < k < i ==> key(a[k - 1]) >= key(a[k])
    modifies a
    ensures forall k :: 0 < k <= i ==> key(a[k - 1]) >= key(a[k])
    ensures multiset(a[..]) == multiset(old(a[..]))
    ensures forall k :: WithKey(a[..], key, k) == WithKey(old(a[..]), key, k)
  {
    var j := i;
    while j > 0 && key(a[j - 1]) < key(a[j])
      invariant 0 <= j <= i
      invariant multiset(a[..]) == multiset(old(a[..]))
      invariant forall k :: WithKey(a[..], key, k) == WithKey(old(a[..]), key, k)
      invariant forall k :: 0 < k <= i && k != j && k != j + 1 ==> key(a[k - 1]) >= key(a[k])
      invariant 0 < j < i ==> key(a[j - 1]) >= key(a[j + 1])
      invariant j < i ==> key(a[j]) > key(a[j + 1])
    {
      SwapKeepsTies(a[..], j, key);
      Swap(a, j - 1, j);
      j := j - 1;
    }
  }

  /** Exchanges two elements of the array; the array holds the same elements. */
  method Swap<T>(a: array<T>, i: int, j: int)
    requires 0 <= i < j < a.Length
    modifies a
    ensures a[..] == old(a[..])[i := old(a[j])][j := old(a[i])]
    ensures multiset(a[..]) == multiset(old(a[..]))
  {
    ghost var s := a[..];
    a[i], a[j] := a[j], a[i];
    assert a[..] == s[i := s[j]][j := s[i]];
  }

  /**
   * `events.sort(newest first).slice(0, n)`: sorts the array in place (the
   * caller's array is reordered too) and returns its first `n` events, none
   * older than any event left out.
   */
  method Recent(a: array<Event>, n: nat) returns (r: seq<Event>)
    modifies a
    ensures multiset(a[..]) == multiset(old(a[..])) && NewestFirst(a[..])
    ensures forall k :: WithKey(a[..], Recency, k) == WithKey(old(a[..]), Recency, k)
    ensures |r| == Min(n, a.Length) && r == a[..|r|]
    ensures NewestFirst(r) && multiset(r) <= multiset(old(a[..]))
    ensures forall i, j :: 0 <= i < |r| <= j < a.Length ==> Recency(r[i]) >= Recency(a[j])
  {
    SortDescending(a, Recency);
    r := Take(a[..], n);
    assert r == a[..|r|];
    assert a[..] == r + a[|r|..];
  }

  /**
   * A descending list cut after `m` elements: both parts descend, and every
   * element of the front has a key at least that of every element of the back.
   */
  lemma SplitDescending<T>(s: seq<T>, m: int, key: T -> int)
    requires Descending(s, key) && 0 <= m <= |s|
    ensures Descending(s[..m], key) && Descending(s[m..], key)
    ensures forall i, j :: 0 <= i < m && 0 <= j < |s| - m ==> key(s[..m][i]) >= key(s[m..][j])
  {
    forall i, j | 0 <= i < j < m
      ensures key(s[..m][i]) >= key(s[..m][j])
    {
      assert s[..m][i] == s[i] && s[..m][j] == s[j];
    }
    forall i, j | 0 <= i < j < |s| - m
      ensures key(s[m..][i]) >= key(s[m..][j])
    {
      assert s[m..][i] == s[m + i] && s[m..][j] == s[m + j];
    }
    forall i, j | 0 <= i < m && 0 <= j < |s| - m
      ensures key(s[..m][i]) >= key(s[m..][j])
    {
      assert s[..m][i] == s[i] && s[m..][j] == s[m + j];
    }
  }

  /**
   * In a descending list, an element among the first `m` has a key at least
   * that of any element not among them.
   */
  lemma FrontDominates<T>(s: seq<T>, m: int, key: T -> int)
    requires Descending(s, key) && 0 <= m <= |s|
    ensures forall e, x :: e in s[..m] && multiset(s[..m])[x] < multiset(s)[x] ==> key(e) >= key(x)
  {
    SplitDescending(s, m, key);
    assert s == s[..m] + s[m..];
    assert multiset(s) == multiset(s[..m]) + multiset(s[m..]);
    forall e, x | e in s[..m] && multiset(s[..m])[x] < multiset(s)[x]
      ensures key(e) >= key(x)
    {
      var i :| 0 <= i < m && s[..m][i] == e;
      assert x in multiset(s[m..]);
      assert x in s[m..];
      var j :| 0 <= j < |s| - m && s[m..][j] == x;
    }
  }
  /**
   * The front of a stable descending ordering of `s`: its elements come from
   * `s`, none is outranked by an element left out (a copy counts as left out
   * when the front holds fewer copies than `s`), and for every key they are
   * the first elements of `s` with that key.
   */
  lemma StableFront<T>(s: seq<T>, sorted: seq<T>, m: int, key: T -> int)
    requires Descending(sorted, key) && multiset(sorted) == multiset(s) && 0 <= m <= |sorted|
    requires forall k :: WithKey(sorted, key, k) == WithKey(s, key, k)
    ensures forall e :: e in sorted[..m] ==> e in s
    ensures forall e, x :: e in sorted[..m] && multiset(sorted[..m])[x] < multiset(s)[x] ==> key(e) >= key(x)
    ensures forall k :: WithKey(sorted[..m], key, k) <= WithKey(s, key, k)
  {
    var r := sorted[..m];
    assert sorted == r + sorted[m..];
    forall e | e in r
      ensures e in s
    {
      assert e in multiset(sorted);
    }
    FrontDominates(sorted, m, key);
    forall k
      ensures WithKey(r, key, k) <= WithKey(s, key, k)
    {
      WithKeyAppend(r, sorted[m..], key, k);
    }
  }
}
