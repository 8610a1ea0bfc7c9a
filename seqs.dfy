/**
 * The array operations the pages chain together: `filter`, `findIndex`, a count
 * of the elements that satisfy a test, and `Array.prototype.sort` with a
 * comparator on one string key (ascending or descending), as an insertion sort
 * whose result is sorted and a permutation of its input.
 */
module Seqs {
  import opened Text

  /** `s.filter(p)`: the elements that pass, in their original order. */
  function Filter<T(==)>(s: seq<T>, p: T -> bool): (r: seq<T>)
    ensures |r| <= |s|
    ensures forall k :: 0 <= k < |r| ==> r[k] in s && p(r[k])
    ensures forall k :: 0 <= k < |s| && p(s[k]) ==> s[k] in r
    ensures multiset(r) <= multiset(s)
  {
    if s == [] then []
    else
      assert s == [s[0]] + s[1..];
      if p(s[0]) then [s[0]] + Filter(s[1..], p)
      else Filter(s[1..], p)
  }

  /** Filtering keeps every element when all of them pass. */
  lemma {:induction false} FilterKeepsAll<T>(s: seq<T>, p: T -> bool)
    requires forall k :: 0 <= k < |s| ==> p(s[k])
    ensures Filter(s, p) == s
  {
    if s != [] {
      FilterKeepsAll(s[1..], p);
    }
  }

  /** Filtering distributes over concatenation, so relative order is kept. */
  lemma {:induction false} FilterAppend<T>(a: seq<T>, b: seq<T>, p: T -> bool)
    ensures Filter(a + b, p) == Filter(a, p) + Filter(b, p)
  {
    if a == [] {
      assert a + b == b;
    } else {
      assert (a + b)[1..] == a[1..] + b;
      FilterAppend(a[1..], b, p);
    }
  }

  /** How often `x` occurs among the filtered elements. */
  lemma {:induction false} FilterMultiset<T>(s: seq<T>, p: T -> bool, x: T)
    ensures multiset(Filter(s, p))[x] == if p(x) then multiset(s)[x] else 0
  {
    if s != [] {
      FilterMultiset(s[1..], p, x);
      var rest := Filter(s[1..], p);
      assert s == [s[0]] + s[1..];
      assert multiset(s) == multiset{s[0]} + multiset(s[1..]);
      if p(s[0]) {
        assert Filter(s, p) == [s[0]] + rest;
        assert multiset(Filter(s, p)) == multiset{s[0]} + multiset(rest);
      } else {
        assert Filter(s, p) == rest;
      }
    }
  }

  /** Two filters in a row are one filter with the conjunction of the tests. */
  lemma {:induction false} FilterFilter<T>(s: seq<T>, p: T -> bool, q: T -> bool, both: T -> bool)
    requires forall x :: both(x) == (p(x) && q(x))
    ensures Filter(Filter(s, p), q) == Filter(s, both)
  {
    if s != [] {
      FilterFilter(s[1..], p, q, both);
    }
  }

  /** The number of elements of `s` that satisfy `p`. */
  function Count<T>(s: seq<T>, p: T -> bool): (n: nat)
    ensures n <= |s|
  {
    if s == [] then 0 else (if p(s[0]) then 1 else 0) + Count(s[1..], p)
  }

  lemma {:induction false} CountAppend<T>(a: seq<T>, b: seq<T>, p: T -> bool)
    ensures Count(a + b, p) == Count(a, p) + Count(b, p)
  {
    if a == [] {
      assert a + b == b;
    } else {
      assert (a + b)[1..] == a[1..] + b;
      CountAppend(a[1..], b, p);
    }
  }

  /** `s.filter(p).length` is the count of passing elements. */
  lemma {:induction false} FilterCount<T>(s: seq<T>, p: T -> bool)
    ensures |Filter(s, p)| == Count(s, p)
  {
    if s != [] {
      FilterCount(s[1..], p);
    }
  }

  /** Every element passes exactly one of two complementary tests. */
  lemma {:induction false} CountSplit<T>(s: seq<T>, p: T -> bool, q: T -> bool)
    requires forall x :: q(x) == !p(x)
    ensures Count(s, p) + Count(s, q) == |s|
  {
    if s != [] {
      CountSplit(s[1..], p, q);
    }
  }

  /** No element passes exactly when the count is zero. */
  lemma {:induction false} CountZero<T>(s: seq<T>, p: T -> bool)
    ensures Count(s, p) == 0 <==> forall k :: 0 <= k < |s| ==> !p(s[k])
  {
    if s != [] {
      CountZero(s[1..], p);
      assert forall k :: 1 <= k < |s| ==> s[k] == s[1..][k - 1];
    }
  }

  /** Two sequences holding the same elements have the same count: a sort never changes it. */
  lemma {:induction false} CountMultiset<T>(a: seq<T>, b: seq<T>, p: T -> bool)
    requires multiset(a) == multiset(b)
    ensures Count(a, p) == Count(b, p)
  {
    forall x ensures multiset(Filter(a, p))[x] == multiset(Filter(b, p))[x] {
      FilterMultiset(a, p, x);
      FilterMultiset(b, p, x);
    }
    assert multiset(Filter(a, p)) == multiset(Filter(b, p));
    assert |Filter(a, p)| == |multiset(Filter(a, p))| == |multiset(Filter(b, p))| == |Filter(b, p)|;
    FilterCount(a, p);
    FilterCount(b, p);
  }

  /** `s.findIndex(p)`: the first index whose element passes, or -1. */
  function FindIndex<T>(s: seq<T>, p: T -> bool): (i: int)
    ensures -1 <= i < |s|
    ensures i == -1 <==> forall k :: 0 <= k < |s| ==> !p(s[k])
    ensures 0 <= i ==> p(s[i]) && forall k :: 0 <= k < i ==> !p(s[k])
  {
    if s == [] then -1
    else if p(s[0]) then 0
    else
      var j := FindIndex(s[1..], p);
      if j == -1 then -1 else j + 1
  }

  /**
   * The comparator of the sorts: ascending compares `a` to `b` and descending
   * `b` to `a`, both by the code-unit order of the key.
   */
  predicate InOrder(desc: bool, a: string, b: string) {
    if desc then StrLe(b, a) else StrLe(a, b)
  }

  lemma InOrderTotal(desc: bool, a: string, b: string)
    ensures InOrder(desc, a, b) || InOrder(desc, b, a)
  {
    StrLeTotal(a, b);
  }

  lemma InOrderTransitive(desc: bool, a: string, b: string, c: string)
    requires InOrder(desc, a, b) && InOrder(desc, b, c)
    ensures InOrder(desc, a, c)
  {
    if desc { StrLeTransitive(c, b, a); } else { StrLeTransitive(a, b, c); }
  }

  /** Every pair of elements is in comparator order. */
  predicate SortedBy<T>(s: seq<T>, key: T -> string, desc: bool) {
    forall i, j :: 0 <= i < j < |s| ==> InOrder(desc, key(s[i]), key(s[j]))
  }

  /**
   * The first `n` elements of a sorted rearrangement `s` of `all`: elements of
   * `all`, a sub-multiset of it, and no element left out comes before an
   * element kept.
   */
  lemma PrefixOfSorted<T>(s: seq<T>, all: seq<T>, n: nat, key: T -> string, desc: bool)
    requires SortedBy(s, key, desc) && multiset(s) == multiset(all) && n <= |s|
    ensures forall k :: 0 <= k < n ==> s[k] in all
    ensures multiset(s[..n]) <= multiset(all)
    ensures forall e, k :: e in all && e !in s[..n] && 0 <= k < n ==> InOrder(desc, key(s[k]), key(e))
  {
    assert s == s[..n] + s[n..];
    assert multiset(s) == multiset(s[..n]) + multiset(s[n..]);
    forall k | 0 <= k < n ensures s[k] in all {
      assert s[k] in multiset(s);
    }
    forall e, k | e in all && e !in s[..n] && 0 <= k < n ensures InOrder(desc, key(s[k]), key(e)) {
      assert e in multiset(s);
      var j :| 0 <= j < |s| && s[j] == e;
      assert j >= n;
    }
  }

  /**
   * Insertion step: `x` goes before the first element it may precede. An element
   * whose key ties with `x` stays after it.
   */
  function Insert<T(==)>(x: T, s: seq<T>, key: T -> string, desc: bool): (r: seq<T>)
    ensures |r| == |s| + 1
    ensures multiset(r) == multiset(s) + multiset{x}
  {
    if s == [] || InOrder(desc, key(x), key(s[0])) then [x] + s
    else
      assert s == [s[0]] + s[1..];
      [s[0]] + Insert(x, s[1..], key, desc)
  }

  /** A key that may precede `x` and every element of `s` may precede every element after the insertion. */
  lemma {:induction false} InsertLowerBound<T>(x: T, s: seq<T>, key: T -> string, desc: bool, lo: string)
    requires InOrder(desc, lo, key(x))
    requires forall k :: 0 <= k < |s| ==> InOrder(desc, lo, key(s[k]))
    ensures forall k :: 0 <= k < |Insert(x, s, key, desc)| ==> InOrder(desc, lo, key(Insert(x, s, key, desc)[k]))
  {
    if s != [] && !InOrder(desc, key(x), key(s[0])) {
      var t := Insert(x, s[1..], key, desc);
      assert forall k :: 0 <= k < |s[1..]| ==> s[1..][k] == s[k + 1];
      InsertLowerBound(x, s[1..], key, desc, lo);
      assert Insert(x, s, key, desc) == [s[0]] + t;
    }
  }

  lemma {:induction false} InsertSorted<T>(x: T, s: seq<T>, key: T -> string, desc: bool)
    requires SortedBy(s, key, desc)
    ensures SortedBy(Insert(x, s, key, desc), key, desc)
  {
    var r := Insert(x, s, key, desc);
    if s == [] {
    } else if InOrder(desc, key(x), key(s[0])) {
      forall i, j | 0 <= i < j < |r| ensures InOrder(desc, key(r[i]), key(r[j])) {
        if i == 0 && j > 1 {
          InOrderTransitive(desc, key(x), key(s[0]), key(s[j - 1]));
        }
      }
    } else {
      var t := Insert(x, s[1..], key, desc);
      InsertSorted(x, s[1..], key, desc);
      InOrderTotal(desc, key(x), key(s[0]));
      assert forall k :: 0 <= k < |s[1..]| ==> s[1..][k] == s[k + 1];
      InsertLowerBound(x, s[1..], key, desc, key(s[0]));
      assert r == [s[0]] + t;
      forall i, j | 0 <= i < j < |r| ensures InOrder(desc, key(r[i]), key(r[j])) {
        if i == 0 {
          assert r[j] == t[j - 1];
        } else {
          assert r[i] == t[i - 1] && r[j] == t[j - 1];
        }
      }
    }
  }

  /** `s.slice().sort(cmp)`: a sorted rearrangement of the same elements. */
  function SortBy<T(==)>(s: seq<T>, key: T -> string, desc: bool): (r: seq<T>)
    ensures |r| == |s|
    ensures multiset(r) == multiset(s)
    ensures SortedBy(r, key, desc)
  {
    if s == [] then []
    else
      var rest := SortBy(s[1..], key, desc);
      InsertSorted(s[0], rest, key, desc);
      assert s == [s[0]] + s[1..];
      Insert(s[0], rest, key, desc)
  }

  /** `s.slice(0, n)`. */
  function Take<T>(s: seq<T>, n: nat): (r: seq<T>)
    ensures |r| <= n && |r| <= |s|
    ensures |s| <= n ==> r == s
    ensures n <= |s| ==> |r| == n
    ensures r == s[..|r|]
  {
    if |s| <= n then s else s[..n]
  }
}
