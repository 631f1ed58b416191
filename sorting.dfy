/** The list operations of the appointment pipelines: `filter`, a stable
    `sort` under a numeric comparator `(a, b) => key(a) - key(b)`, and
    `slice(0, limit)` with the JavaScript treatment of a negative end. */
module Sorting {

  predicate SortedBy<T>(s: seq<T>, key: T -> int) {
    forall i, j :: 0 <= i < j < |s| ==> key(s[i]) <= key(s[j])
  }

  /** `s.filter(keep)`. */
  function Filter<T>(s: seq<T>, keep: T -> bool): (r: seq<T>)
    ensures |r| <= |s|
    ensures forall k :: 0 <= k < |r| ==> keep(r[k])
    decreases |s|
  {
    if s == [] then []
    else if keep(s[|s| - 1]) then Filter(s[..|s| - 1], keep) + [s[|s| - 1]]
    else Filter(s[..|s| - 1], keep)
  }

  /** The kept elements are exactly the elements of `s` that pass `keep`,
      each as many times as it occurs in `s`. */
  lemma {:induction false} FilterContents<T>(s: seq<T>, keep: T -> bool)
    ensures forall x :: x in Filter(s, keep) <==> x in s && keep(x)
    decreases |s|
  {
    if s != [] {
      var init := s[..|s| - 1];
      FilterContents(init, keep);
      assert s == init + [s[|s| - 1]];
    }
  }

  lemma {:induction false} FilterCounts<T>(s: seq<T>, keep: T -> bool)
    ensures forall x :: keep(x) ==> multiset(Filter(s, keep))[x] == multiset(s)[x]
    ensures forall x :: !keep(x) ==> multiset(Filter(s, keep))[x] == 0
    decreases |s|
  {
    if s != [] {
      var init := s[..|s| - 1];
      FilterCounts(init, keep);
      assert s == init + [s[|s| - 1]];
    }
  }

  /** Places `x` after every element of `s` whose key is at most its own. */
  function Insert<T>(x: T, s: seq<T>, key: T -> int): (r: seq<T>)
    ensures multiset(r) == multiset(s) + multiset{x}
    ensures |r| == |s| + 1
    decreases |s|
  {
    if s == [] then [x]
    else if key(s[|s| - 1]) <= key(x) then s + [x]
    else
      assert s == s[..|s| - 1] + [s[|s| - 1]];
      Insert(x, s[..|s| - 1], key) + [s[|s| - 1]]
  }

  predicate KeysAtMost<T>(s: seq<T>, key: T -> int, bound: int) {
    forall k :: 0 <= k < |s| ==> key(s[k]) <= bound
  }

  lemma {:induction false} InsertKeysAtMost<T>(x: T, s: seq<T>, key: T -> int, bound: int)
    requires KeysAtMost(s, key, bound) && key(x) <= bound
    ensures KeysAtMost(Insert(x, s, key), key, bound)
    decreases |s|
  {
    if s != [] && key(s[|s| - 1]) > key(x) {
      InsertKeysAtMost(x, s[..|s| - 1], key, bound);
    }
  }

  lemma {:induction false} InsertSorted<T>(x: T, s: seq<T>, key: T -> int)
    requires SortedBy(s, key)
    ensures SortedBy(Insert(x, s, key), key)
    decreases |s|
  {
    if s != [] {
      var init, last := s[..|s| - 1], s[|s| - 1];
      assert KeysAtMost(init, key, key(last));
      if key(last) > key(x) {
        InsertSorted(x, init, key);
        InsertKeysAtMost(x, init, key, key(last));
      }
    }
  }

  /** Stable sort of `s` by ascending key: each element in turn is placed
      after all earlier ones whose key is not greater, so equal keys keep
      their input order, as the stable `Array.prototype.sort` does. */
  function SortBy<T>(s: seq<T>, key: T -> int): (r: seq<T>)
    ensures |r| == |s| && multiset(r) == multiset(s)
    decreases |s|
  {
    if s == [] then []
    else
      assert s == s[..|s| - 1] + [s[|s| - 1]];
      Insert(s[|s| - 1], SortBy(s[..|s| - 1], key), key)
  }

  /** The sorted list is ordered by key and is a permutation of the input. */
  lemma {:induction false} SortByCorrect<T>(s: seq<T>, key: T -> int)
    ensures SortedBy(SortBy(s, key), key)
    ensures multiset(SortBy(s, key)) == multiset(s)
    decreases |s|
  {
    if s != [] {
      var init, last := s[..|s| - 1], s[|s| - 1];
      SortByCorrect(init, key);
      InsertSorted(last, SortBy(init, key), key);
    }
  }

  /** The end index `slice(0, limit)` uses on a list of length `n`. */
  function SliceEnd(n: nat, limit: int): (e: nat)
    ensures e <= n
    ensures limit >= 0 ==> e == if limit < n then limit else n
    ensures limit < 0 ==> e == if n + limit > 0 then n + limit else 0
  {
    if limit >= 0 then (if limit < n then limit else n)
    else if n + limit > 0 then n + limit else 0
  }

  /** `s.slice(0, limit)`. */
  function SliceTo<T>(s: seq<T>, limit: int): (r: seq<T>)
    ensures r == s[..SliceEnd(|s|, limit)]
  {
    s[..SliceEnd(|s|, limit)]
  }

  /** `s.filter(keep).sort(by key).slice(0, limit)`. */
  function TopBy<T>(s: seq<T>, keep: T -> bool, key: T -> int, limit: int): seq<T> {
    SliceTo(SortBy(Filter(s, keep), key), limit)
  }

  /** What the pipeline keeps: only elements of `s` that pass `keep`, in
      key order, no more than `limit` of them for a non-negative limit, and
      all of them when the limit is at least their number. */
  lemma TopByShape<T>(s: seq<T>, keep: T -> bool, key: T -> int, limit: int)
    ensures var r := TopBy(s, keep, key, limit);
      SortedBy(r, key)
      && (forall k :: 0 <= k < |r| ==> keep(r[k]) && r[k] in s)
      && (limit >= 0 ==> |r| <= limit)
      && (limit >= |Filter(s, keep)| ==> multiset(r) == multiset(Filter(s, keep)))
  {
    var f := Filter(s, keep);
    var sorted := SortBy(f, key);
    SortByCorrect(f, key);
    FilterContents(s, keep);
    var r := TopBy(s, keep, key, limit);
    forall k | 0 <= k < |r| ensures keep(r[k]) && r[k] in s {
      assert r[k] == sorted[k];
      assert sorted[k] in multiset(sorted);
      assert r[k] in f;
    }
    if limit >= |f| {
      assert r == sorted;
    }
  }

  /** Nothing the slice drops beats anything it keeps: the kept prefix and
      the dropped rest together are exactly the filtered input, and every
      dropped element's key is at least every kept element's key. */
  lemma TopByComplete<T>(s: seq<T>, keep: T -> bool, key: T -> int, limit: int)
    ensures var sorted := SortBy(Filter(s, keep), key);
      var r := TopBy(s, keep, key, limit);
      var dropped := sorted[|r|..];
      multiset(r) + multiset(dropped) == multiset(Filter(s, keep))
      && forall i, j :: 0 <= i < |r| && |r| <= j < |sorted| ==> key(r[i]) <= key(sorted[j])
  {
    var f := Filter(s, keep);
    var sorted := SortBy(f, key);
    SortByCorrect(f, key);
    SortedSplit(sorted, key, SliceEnd(|f|, limit));
  }

  /** A prefix of a sorted list and the rest: together the whole list, and
      no key of the rest below a key of the prefix. */
  lemma SortedSplit<T>(sorted: seq<T>, key: T -> int, n: nat)
    requires SortedBy(sorted, key) && n <= |sorted|
    ensures multiset(sorted[..n]) + multiset(sorted[n..]) == multiset(sorted)
    ensures forall i, j :: 0 <= i < n <= j < |sorted| ==> key(sorted[..n][i]) <= key(sorted[j])
  {
    assert sorted == sorted[..n] + sorted[n..];
  }

  /** Every element that passes the filter is kept when the limit leaves
      room for all of them. */
  lemma TopByIncludes<T>(s: seq<T>, keep: T -> bool, key: T -> int, limit: int, x: T)
    requires x in s && keep(x) && |Filter(s, keep)| <= limit
    ensures x in TopBy(s, keep, key, limit)
  {
    FilterContents(s, keep);
    TopByShape(s, keep, key, limit);
    assert x in multiset(Filter(s, keep));
  }
}
