/** A stable sort by an integer key: the library sorts of the source, which promise no more. */
module StableSort {

  ghost predicate SortedBy<T>(key: T -> int, s: seq<T>) {
    forall i, j :: 0 <= i < j < |s| ==> key(s[i]) <= key(s[j])
  }

  /** Insertion after the entries with keys up to that of `x`. */
  function Insert<T(==)>(key: T -> int, sorted: seq<T>, x: T): (r: seq<T>)
    ensures multiset(r) == multiset(sorted) + multiset{x}
    ensures SortedBy(key, sorted) ==> SortedBy(key, r)
  {
    if |sorted| == 0 || key(x) < key(sorted[0]) then [x] + sorted
    else
      var rest := Insert(key, sorted[1..], x);
      ConsSorted(key, sorted, x, rest);
      [sorted[0]] + rest
  }

  lemma ConsSorted<T>(key: T -> int, sorted: seq<T>, x: T, rest: seq<T>)
    requires |sorted| > 0 && key(sorted[0]) <= key(x)
    requires multiset(rest) == multiset(sorted[1..]) + multiset{x}
    requires SortedBy(key, sorted[1..]) ==> SortedBy(key, rest)
    ensures multiset([sorted[0]] + rest) == multiset(sorted) + multiset{x}
    ensures SortedBy(key, sorted) ==> SortedBy(key, [sorted[0]] + rest)
  {
    assert sorted == [sorted[0]] + sorted[1..];
    if SortedBy(key, sorted) {
      forall i | 0 <= i < |rest|
        ensures key(sorted[0]) <= key(rest[i])
      {
        assert rest[i] in multiset(rest);
        assert rest[i] == x || rest[i] in sorted[1..];
      }
    }
  }

  function Sort<T(==)>(key: T -> int, s: seq<T>): (r: seq<T>)
    ensures multiset(r) == multiset(s)
    ensures SortedBy(key, r)
  {
    if |s| == 0 then []
    else
      assert s == s[..|s| - 1] + [s[|s| - 1]];
      Insert(key, Sort(key, s[..|s| - 1]), s[|s| - 1])
  }

  function Only<T>(key: T -> int, x: T, k: int): seq<T> {
    if key(x) == k then [x] else []
  }

  /** The entries with one key, in order. */
  function OfKey<T>(key: T -> int, s: seq<T>, k: int): seq<T> {
    if |s| == 0 then [] else Only(key, s[0], k) + OfKey(key, s[1..], k)
  }

  lemma {:induction false} NoneOfKey<T>(key: T -> int, s: seq<T>, k: int)
    requires forall i :: 0 <= i < |s| ==> key(s[i]) != k
    ensures OfKey(key, s, k) == []
    decreases |s|
  {
    if |s| > 0 { NoneOfKey(key, s[1..], k); }
  }

  lemma OfKeyCons<T>(key: T -> int, x: T, s: seq<T>, k: int)
    ensures OfKey(key, [x] + s, k) == Only(key, x, k) + OfKey(key, s, k)
  {
    assert ([x] + s)[1..] == s;
  }

  lemma Associate<T>(a: seq<T>, b: seq<T>, c: seq<T>)
    ensures a + b + c == a + (b + c)
  {
  }

  lemma {:induction false} OfKeySnoc<T>(key: T -> int, s: seq<T>, x: T, k: int)
    ensures OfKey(key, s + [x], k) == OfKey(key, s, k) + Only(key, x, k)
    decreases |s|
  {
    if |s| == 0 {
      assert s + [x] == [x] + [];
      OfKeyCons(key, x, [], k);
    } else {
      OfKeySnoc(key, s[1..], x, k);
      assert s + [x] == [s[0]] + (s[1..] + [x]);
      OfKeyCons(key, s[0], s[1..] + [x], k);
      Associate(Only(key, s[0], k), OfKey(key, s[1..], k), Only(key, x, k));
    }
  }

  lemma {:induction false} InsertIsStable<T>(key: T -> int, sorted: seq<T>, x: T, k: int)
    requires SortedBy(key, sorted)
    ensures OfKey(key, Insert(key, sorted, x), k) == OfKey(key, sorted, k) + Only(key, x, k)
    decreases |sorted|
  {
    if |sorted| == 0 || key(x) < key(sorted[0]) {
      OfKeyCons(key, x, sorted, k);
      if key(x) == k { NoneOfKey(key, sorted, k); }
    } else {
      InsertIsStable(key, sorted[1..], x, k);
      OfKeyCons(key, sorted[0], Insert(key, sorted[1..], x), k);
      Associate(Only(key, sorted[0], k), OfKey(key, sorted[1..], k), Only(key, x, k));
    }
  }

  lemma SortSnoc<T>(key: T -> int, s: seq<T>, x: T)
    ensures Sort(key, s + [x]) == Insert(key, Sort(key, s), x)
  {
    assert (s + [x])[..|s|] == s;
  }

  /** Entries with equal keys keep their order. */
  lemma {:induction false} SortIsStable<T>(key: T -> int, s: seq<T>, k: int)
    ensures OfKey(key, Sort(key, s), k) == OfKey(key, s, k)
    decreases |s|
  {
    if |s| > 0 {
      var init, last := s[..|s| - 1], s[|s| - 1];
      assert s == init + [last];
      SortSnoc(key, init, last);
      SortIsStable(key, init, k);
      InsertIsStable(key, Sort(key, init), last, k);
      OfKeySnoc(key, init, last, k);
    }
  }
}
