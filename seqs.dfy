/**
 * Generic sequence operations that the source gets from JavaScript's Array
 * and Set built-ins: `filter`, `indexOf` and `Array.from(new Set(..))`.
 */
module Seqs {

  /** `a` can be obtained from `b` by deleting elements: an order-preserving subsequence. */
  ghost predicate Subsequence<T>(a: seq<T>, b: seq<T>)
    decreases |b|
  {
    a == [] || (b != [] && ((a[0] == b[0] && Subsequence(a[1..], b[1..])) || Subsequence(a, b[1..])))
  }

  /** `Array.prototype.filter`: the elements of `s` satisfying `p`, in their original order. */
  function Filter<T(!new)>(s: seq<T>, p: T -> bool): (r: seq<T>)
    ensures |r| <= |s|
    ensures forall x :: x in r <==> x in s && p(x)
    ensures Subsequence(r, s)
  {
    if s == [] then []
    else
      var rest := Filter(s[1..], p);
      assert s == [s[0]] + s[1..];
      if p(s[0]) then
        assert ([s[0]] + rest)[1..] == rest;
        [s[0]] + rest
      else rest
  }

  lemma {:induction false} FilterAppend<T(!new)>(a: seq<T>, b: seq<T>, p: T -> bool)
    ensures Filter(a + b, p) == Filter(a, p) + Filter(b, p)
  {
    if a == [] {
      assert a + b == b;
    } else {
      assert (a + b)[1..] == a[1..] + b;
      FilterAppend(a[1..], b, p);
      var head := if p(a[0]) then [a[0]] else [];
      calc {
        Filter(a + b, p);
        head + Filter(a[1..] + b, p);
        head + (Filter(a[1..], p) + Filter(b, p));
        (head + Filter(a[1..], p)) + Filter(b, p);
      }
    }
  }

  /** Keeping every element changes nothing. */
  lemma {:induction false} FilterAll<T(!new)>(s: seq<T>, p: T -> bool)
    requires forall x :: x in s ==> p(x)
    ensures Filter(s, p) == s
  {
    if s != [] {
      FilterAll(s[1..], p);
    }
  }

  /** `Array.prototype.indexOf` with strict equality: the first index of `x`, or -1. */
  function IndexOf<T(==)>(s: seq<T>, x: T): (r: int)
    ensures -1 <= r < |s|
    ensures r == -1 <==> x !in s
    ensures 0 <= r ==> s[r] == x && forall j :: 0 <= j < r ==> s[j] != x
  {
    if s == [] then -1
    else if s[0] == x then 0
    else
      var i := IndexOf(s[1..], x);
      if i == -1 then -1 else i + 1
  }

  /** No element occurs twice. */
  predicate Distinct<T(==)>(s: seq<T>) {
    forall i, j :: 0 <= i < j < |s| ==> s[i] != s[j]
  }

  /** Filtering keeps each element's multiplicity or drops the element altogether. */
  lemma {:induction false} FilterMultiset<T(!new)>(s: seq<T>, p: T -> bool)
    ensures forall x :: multiset(Filter(s, p))[x] == if p(x) then multiset(s)[x] else 0
  {
    if s != [] {
      FilterMultiset(s[1..], p);
      assert s == [s[0]] + s[1..];
    }
  }

  /** Filtering keeps a sequence free of repetitions. */
  lemma {:induction false} FilterDistinct<T(!new)>(s: seq<T>, p: T -> bool)
    requires Distinct(s)
    ensures Distinct(Filter(s, p))
  {
    if s != [] {
      FilterDistinct(s[1..], p);
      var rest := Filter(s[1..], p);
      if p(s[0]) {
        assert s[0] !in s[1..] by {
          forall m | 0 <= m < |s[1..]| ensures s[1..][m] != s[0] {
            assert s[1..][m] == s[m + 1];
          }
        }
        assert s[0] !in rest;
        var r := [s[0]] + rest;
        forall i, j | 0 <= i < j < |r| ensures r[i] != r[j] {
          if i == 0 {
            assert r[j] in rest;
          } else {
            assert r[i] == rest[i - 1] && r[j] == rest[j - 1];
          }
        }
      }
    }
  }

  /** Putting a new element in front keeps a sequence free of repetitions. */
  lemma DistinctCons<T>(x: T, s: seq<T>)
    requires Distinct(s) && x !in s
    ensures Distinct([x] + s)
  {
    var r := [x] + s;
    forall i, j | 0 <= i < j < |r| ensures r[i] != r[j] {
      assert r[j] == s[j - 1];
      if i > 0 {
        assert r[i] == s[i - 1];
      }
    }
  }

  /** Filtering one more element of `s` extends the filtered prefix by that element or by nothing. */
  lemma FilterPrefixStep<T(!new)>(s: seq<T>, i: nat, p: T -> bool)
    requires i < |s|
    ensures Filter(s[..i + 1], p) == Filter(s[..i], p) + if p(s[i]) then [s[i]] else []
  {
    assert s[..i + 1] == s[..i] + [s[i]];
    FilterAppend(s[..i], [s[i]], p);
    assert [s[i]][1..] == [];
  }

  /** The filtered prefix is a prefix of the filtered sequence. */
  lemma FilterPrefix<T(!new)>(s: seq<T>, i: nat, p: T -> bool)
    requires i <= |s|
    ensures Filter(s[..i], p) <= Filter(s, p)
  {
    assert s == s[..i] + s[i..];
    FilterAppend(s[..i], s[i..], p);
  }

  /**
   * `Array.from(new Set(s))`: a JavaScript Set iterates in insertion order, and
   * inserting an element already present leaves it where it was, so the result
   * keeps the first occurrence of each element.
   */
  function Dedup<T(==,!new)>(s: seq<T>): (r: seq<T>)
    ensures Distinct(r)
    ensures forall x :: x in r <==> x in s
    ensures |r| <= |s|
    ensures Subsequence(r, s)
  {
    if s == [] then []
    else
      var init := Dedup(s[..|s| - 1]);
      var last := s[|s| - 1];
      assert s == s[..|s| - 1] + [last];
      SubsequenceExtend(init, s[..|s| - 1], last);
      if last in init then init else init + [last]
  }

  /** Appending the same element to both sides keeps a subsequence a subsequence, and so does appending to the larger side alone. */
  lemma {:induction false} SubsequenceExtend<T>(a: seq<T>, b: seq<T>, x: T)
    requires Subsequence(a, b)
    ensures Subsequence(a, b + [x]) && Subsequence(a + [x], b + [x])
    decreases |b|
  {
    if b == [] {
      assert a == [];
      assert ([] + [x])[1..] == [];
    } else {
      assert (b + [x])[1..] == b[1..] + [x];
      if a != [] && a[0] == b[0] && Subsequence(a[1..], b[1..]) {
        SubsequenceExtend(a[1..], b[1..], x);
        assert (a + [x])[1..] == a[1..] + [x];
      } else if a != [] {
        SubsequenceExtend(a, b[1..], x);
      } else {
        SubsequenceExtend(a, b[1..], x);
        assert a + [x] == [x];
      }
    }
  }

  /**
   * The order `Dedup` keeps: an element whose first occurrence in `s` comes
   * earlier also comes earlier in `Dedup(s)`.
   */
  lemma {:induction false} DedupFirstOccurrenceOrder<T(!new)>(s: seq<T>, i: nat, j: nat)
    requires i < j < |Dedup(s)|
    ensures IndexOf(s, Dedup(s)[i]) < IndexOf(s, Dedup(s)[j])
  {
    var init := Dedup(s[..|s| - 1]);
    var last := s[|s| - 1];
    assert s == s[..|s| - 1] + [last];
    IndexOfPrefix(s[..|s| - 1], last, Dedup(s)[i]);
    if j < |init| {
      DedupFirstOccurrenceOrder(s[..|s| - 1], i, j);
      IndexOfPrefix(s[..|s| - 1], last, Dedup(s)[j]);
    } else {
      // Dedup(s)[j] is `last`, which does not occur before the end of `s`.
      assert Dedup(s)[j] == last && last !in init;
      assert last !in s[..|s| - 1];
      IndexOfPrefix(s[..|s| - 1], last, last);
    }
  }

  lemma {:induction false} IndexOfPrefix<T>(s: seq<T>, y: T, x: T)
    ensures x in s ==> IndexOf(s + [y], x) == IndexOf(s, x)
    ensures x !in s && x == y ==> IndexOf(s + [y], x) == |s|
  {
    if s != [] {
      assert (s + [y])[1..] == s[1..] + [y];
      IndexOfPrefix(s[1..], y, x);
    }
  }
}
