/**
 * `Array.prototype.sort` with a numeric comparator `(a, b) => key(a) - key(b)`.
 * Since ECMAScript 2019 (ECMA-262 10th edition, section 22.1.3.27) the sort must
 * be stable. The algorithm the engine uses is its own; this module models it
 * by an insertion sort and proves that any sorted, stable arrangement of the
 * input is this one, so the choice of algorithm does not matter.
 */
module StableSort {
  import opened Seqs

  /** Non-decreasing by `key`. */
  ghost predicate SortedBy<T>(s: seq<T>, key: T -> int) {
    forall i, j :: 0 <= i < j < |s| ==> key(s[i]) <= key(s[j])
  }

  /** The elements of `s` whose key is `k`, in their order in `s`. */
  function WithKey<T(!new)>(s: seq<T>, key: T -> int, k: int): seq<T> {
    Filter(s, x => key(x) == k)
  }

  /** A stable reordering keeps, for every key, the relative order of the elements with that key. */
  ghost predicate StableReorderingOf<T(!new)>(r: seq<T>, s: seq<T>, key: T -> int) {
    forall k :: WithKey(r, key, k) == WithKey(s, key, k)
  }

  lemma WithKeyCons<T(!new)>(x: T, s: seq<T>, key: T -> int, k: int)
    ensures WithKey([x] + s, key, k) == (if key(x) == k then [x] else []) + WithKey(s, key, k)
  {
    assert ([x] + s)[0] == x && ([x] + s)[1..] == s;
  }

  /** Insert `x` in front of the first element whose key is not smaller than its own. */
  function Insert<T(!new)>(x: T, s: seq<T>, key: T -> int): (r: seq<T>)
    ensures multiset(r) == multiset(s) + multiset{x}
    ensures SortedBy(s, key) ==> SortedBy(r, key)
  {
    if s == [] then [x]
    else if key(x) <= key(s[0]) then [x] + s
    else
      var rest := Insert(x, s[1..], key);
      assert s == [s[0]] + s[1..];
      InsertKeepsSorted(x, s, key, rest);
      [s[0]] + rest
  }

  /** The step of `Insert` past a smaller head keeps the list sorted. */
  lemma InsertKeepsSorted<T(!new)>(x: T, s: seq<T>, key: T -> int, rest: seq<T>)
    requires s != [] && key(s[0]) < key(x)
    requires multiset(rest) == multiset(s[1..]) + multiset{x}
    requires SortedBy(s[1..], key) ==> SortedBy(rest, key)
    ensures SortedBy(s, key) ==> SortedBy([s[0]] + rest, key)
  {
    if SortedBy(s, key) {
      assert SortedBy(s[1..], key);
      forall y | y in rest ensures key(s[0]) <= key(y) {
        assert y in multiset(rest);
        if y != x {
          assert y in multiset(s[1..]);
          var i :| 0 <= i < |s[1..]| && s[1..][i] == y;
          assert s[i + 1] == y;
        }
      }
      SortedCons(s[0], rest, key);
    }
  }

  /** `Insert` puts `x` before every element of equal key, and moves nothing else. */
  lemma {:induction false} InsertWithKey<T(!new)>(x: T, s: seq<T>, key: T -> int, k: int)
    ensures WithKey(Insert(x, s, key), key, k) == if key(x) == k then [x] + WithKey(s, key, k) else WithKey(s, key, k)
  {
    if s == [] {
      WithKeyCons(x, [], key, k);
    } else if key(x) <= key(s[0]) {
      WithKeyCons(x, s, key, k);
    } else {
      InsertWithKey(x, s[1..], key, k);
      WithKeyCons(s[0], Insert(x, s[1..], key), key, k);
      WithKeyCons(s[0], s[1..], key, k);
      assert s == [s[0]] + s[1..];
    }
  }

  /** The sorted arrangement `Array.prototype.sort` produces for `(a, b) => key(a) - key(b)`. */
  function SortBy<T(!new)>(s: seq<T>, key: T -> int): (r: seq<T>)
    ensures SortedBy(r, key)
    ensures multiset(r) == multiset(s)
    ensures StableReorderingOf(r, s, key)
  {
    if s == [] then []
    else
      var rest := SortBy(s[1..], key);
      assert s == [s[0]] + s[1..];
      var r := Insert(s[0], rest, key);
      forall k ensures WithKey(r, key, k) == WithKey(s, key, k) {
        InsertWithKey(s[0], rest, key, k);
        WithKeyCons(s[0], s[1..], key, k);
      }
      r
  }

  /**
   * Sortedness and stability determine the result: every sorted, stable
   * reordering of `s` is `SortBy(s, key)`.
   */
  lemma SortedStableUnique<T(!new)>(r: seq<T>, s: seq<T>, key: T -> int)
    requires SortedBy(r, key) && StableReorderingOf(r, s, key)
    ensures r == SortBy(s, key)
  {
    SortedStableEqual(r, SortBy(s, key), key);
  }

  lemma {:induction false} SortedStableEqual<T(!new)>(r: seq<T>, t: seq<T>, key: T -> int)
    requires SortedBy(r, key) && SortedBy(t, key) && StableReorderingOf(r, t, key)
    ensures r == t
    decreases |r|
  {
    if r == [] || t == [] {
      if r != [] { NonEmptyHasOwnKey(r, key); }
      if t != [] { NonEmptyHasOwnKey(t, key); }
    } else {
      var k0, k1 := key(r[0]), key(t[0]);
      NonEmptyHasOwnKey(r, key);
      NonEmptyHasOwnKey(t, key);
      // t holds an element with key k0, and r one with key k1; both are sorted.
      FirstKeyIsLeast(t, key, k0);
      FirstKeyIsLeast(r, key, k1);
      assert k0 == k1;
      forall k ensures WithKey(r[1..], key, k) == WithKey(t[1..], key, k) {
        assert r == [r[0]] + r[1..];
        assert t == [t[0]] + t[1..];
        WithKeyCons(r[0], r[1..], key, k);
        WithKeyCons(t[0], t[1..], key, k);
      }
      SortedStableEqual(r[1..], t[1..], key);
      assert r == [r[0]] + r[1..];
      assert t == [t[0]] + t[1..];
    }
  }

  /** The first element of a non-empty sequence heads the elements with its key. */
  lemma NonEmptyHasOwnKey<T(!new)>(t: seq<T>, key: T -> int)
    requires t != []
    ensures WithKey(t, key, key(t[0])) != [] && WithKey(t, key, key(t[0]))[0] == t[0]
  {
    assert t == [t[0]] + t[1..];
    WithKeyCons(t[0], t[1..], key, key(t[0]));
  }

  /** In a sorted sequence no key that occurs is smaller than the first one. */
  lemma FirstKeyIsLeast<T(!new)>(t: seq<T>, key: T -> int, k: int)
    requires SortedBy(t, key) && t != [] && WithKey(t, key, k) != []
    ensures key(t[0]) <= k
  {
    var y := WithKey(t, key, k)[0];
    assert y in WithKey(t, key, k);
    var i :| 0 <= i < |t| && t[i] == y;
  }

  /** Filtering a sorted sequence leaves it sorted. */
  lemma {:induction false} FilterSorted<T(!new)>(s: seq<T>, p: T -> bool, key: T -> int)
    requires SortedBy(s, key)
    ensures SortedBy(Filter(s, p), key)
  {
    if s != [] {
      var rest := Filter(s[1..], p);
      FilterSorted(s[1..], p, key);
      if p(s[0]) {
        assert Filter(s, p) == [s[0]] + rest;
        HeadBelowFiltered(s, p, key);
        SortedCons(s[0], rest, key);
      } else {
        assert Filter(s, p) == rest;
      }
    }
  }

  lemma HeadBelowFiltered<T(!new)>(s: seq<T>, p: T -> bool, key: T -> int)
    requires SortedBy(s, key) && s != []
    ensures forall x :: x in Filter(s[1..], p) ==> key(s[0]) <= key(x)
  {
    forall x | x in Filter(s[1..], p) ensures key(s[0]) <= key(x) {
      var m :| 0 <= m < |s[1..]| && s[1..][m] == x;
      assert s[1 + m] == x;
    }
  }

  lemma SortedCons<T>(x: T, s: seq<T>, key: T -> int)
    requires SortedBy(s, key) && forall y :: y in s ==> key(x) <= key(y)
    ensures SortedBy([x] + s, key)
  {
    var r := [x] + s;
    forall i, j | 0 <= i < j < |r| ensures key(r[i]) <= key(r[j]) {
      assert r[j] == s[j - 1] && s[j - 1] in s;
      if i > 0 {
        assert r[i] == s[i - 1];
      }
    }
  }
}
