/**
 * Python's `list.sort(key=...)` for keys that are tuples of integers: a
 * stable sort under the lexicographic order of the keys. Both sorts of the
 * system use it: search results by (format priority, -bitrate, queue length)
 * and the download listing by timestamp, newest first.
 */
module Sorting {

  /** Python's `<=` on tuples of integers: lexicographic, a proper prefix first. */
  predicate LexLe(a: seq<int>, b: seq<int>)
    decreases |a|
  {
    |a| == 0 || (|b| > 0 && (a[0] < b[0] || (a[0] == b[0] && LexLe(a[1..], b[1..]))))
  }

  lemma {:induction false} LexLeRefl(a: seq<int>)
    ensures LexLe(a, a)
    decreases |a|
  {
    if |a| > 0 {
      LexLeRefl(a[1..]);
    }
  }

  lemma {:induction false} LexLeTotal(a: seq<int>, b: seq<int>)
    ensures LexLe(a, b) || LexLe(b, a)
    decreases |a|
  {
    if |a| > 0 && |b| > 0 && a[0] == b[0] {
      LexLeTotal(a[1..], b[1..]);
    }
  }

  lemma {:induction false} LexLeTrans(a: seq<int>, b: seq<int>, c: seq<int>)
    requires LexLe(a, b) && LexLe(b, c)
    ensures LexLe(a, c)
    decreases |a|
  {
    if |a| > 0 && a[0] == b[0] && b[0] == c[0] {
      LexLeTrans(a[1..], b[1..], c[1..]);
    }
  }

  /** Every element's key is `<=` the key of every later element. */
  ghost predicate SortedBy<T>(s: seq<T>, key: T -> seq<int>) {
    forall i, j :: 0 <= i < j < |s| ==> LexLe(key(s[i]), key(s[j]))
  }

  /** The elements of `s` whose key is `k`, in their order in `s`. */
  function FilterKey<T>(s: seq<T>, key: T -> seq<int>, k: seq<int>): (r: seq<T>)
    ensures |r| <= |s|
    ensures forall i :: 0 <= i < |r| ==> r[i] in s && key(r[i]) == k
    ensures forall i :: 0 <= i < |s| && key(s[i]) == k ==> s[i] in r
    decreases |s|
  {
    if |s| == 0 then []
    else (if key(s[0]) == k then [s[0]] else []) + FilterKey(s[1..], key, k)
  }

  lemma FilterKeyCons<T>(x: T, s: seq<T>, key: T -> seq<int>, k: seq<int>)
    ensures FilterKey([x] + s, key, k) == (if key(x) == k then [x] else []) + FilterKey(s, key, k)
  {
    assert ([x] + s)[1..] == s;
  }

  /** Inserts `x` before the first element whose key is not smaller than `x`'s. */
  function Insert<T>(x: T, s: seq<T>, key: T -> seq<int>): (r: seq<T>)
    ensures |r| == |s| + 1
    ensures multiset(r) == multiset(s) + multiset{x}
    decreases |s|
  {
    if |s| == 0 || LexLe(key(x), key(s[0])) then [x] + s
    else
      assert s == [s[0]] + s[1..];
      [s[0]] + Insert(x, s[1..], key)
  }

  lemma {:induction false} InsertSorted<T>(x: T, s: seq<T>, key: T -> seq<int>)
    requires SortedBy(s, key)
    ensures SortedBy(Insert(x, s, key), key)
    decreases |s|
  {
    var r := Insert(x, s, key);
    if |s| == 0 {
    } else if LexLe(key(x), key(s[0])) {
      forall i, j | 0 <= i < j < |r|
        ensures LexLe(key(r[i]), key(r[j]))
      {
        if i == 0 {
          if j > 1 {
            LexLeTrans(key(x), key(s[0]), key(s[j - 1]));
          }
        }
      }
    } else {
      LexLeTotal(key(x), key(s[0]));
      var t := Insert(x, s[1..], key);
      InsertSorted(x, s[1..], key);
      assert r == [s[0]] + t;
      forall j | 0 < j < |r|
        ensures LexLe(key(s[0]), key(r[j]))
      {
        var y := r[j];
        assert y == t[j - 1];
        assert y in multiset(t);
        if y != x {
          assert y in multiset(s[1..]);
          var m :| 0 <= m < |s[1..]| && s[1..][m] == y;
          assert s[m + 1] == y;
        }
      }
    }
  }

  lemma {:induction false} InsertStable<T>(x: T, s: seq<T>, key: T -> seq<int>, k: seq<int>)
    ensures FilterKey(Insert(x, s, key), key, k)
            == (if key(x) == k then [x] else []) + FilterKey(s, key, k)
    decreases |s|
  {
    if |s| == 0 || LexLe(key(x), key(s[0])) {
      FilterKeyCons(x, s, key, k);
    } else {
      var hx := if key(x) == k then [x] else [];
      var hs := if key(s[0]) == k then [s[0]] else [];
      var u := Insert(x, s[1..], key);
      InsertStable(x, s[1..], key, k);
      FilterKeyCons(s[0], u, key, k);
      FilterKeyCons(s[0], s[1..], key, k);
      assert [s[0]] + s[1..] == s;
      DistinctKeys(key(x), key(s[0]), k);
      SwapEmpty(hs, hx, FilterKey(s[1..], key, k));
    }
  }

  /** Keys out of order are different, so at most one of them is `k`. */
  lemma DistinctKeys(a: seq<int>, b: seq<int>, k: seq<int>)
    requires !LexLe(a, b)
    ensures !(a == k && b == k)
  {
    LexLeRefl(a);
  }

  /** Concatenation order does not matter when one of two heads is empty. */
  lemma SwapEmpty<T>(p: seq<T>, q: seq<T>, f: seq<T>)
    requires p == [] || q == []
    ensures p + (q + f) == q + (p + f)
  {
    if p == [] {
      assert p + (q + f) == q + f;
      assert p + f == f;
    } else {
      assert q + f == f;
      assert q + (p + f) == p + f;
    }
  }

  /**
   * Python's stable `sorted(s, key=key)`: a permutation of `s`, ordered by
   * key, in which elements with equal keys keep their relative order.
   */
  function SortBy<T>(s: seq<T>, key: T -> seq<int>): (r: seq<T>)
    ensures |r| == |s|
    ensures multiset(r) == multiset(s)
    ensures SortedBy(r, key)
    decreases |s|
  {
    if |s| == 0 then []
    else
      var t := SortBy(s[1..], key);
      InsertSorted(s[0], t, key);
      assert s == [s[0]] + s[1..];
      Insert(s[0], t, key)
  }

  /** Sorting keeps the relative order of elements whose keys are equal. */
  lemma {:induction false} SortByStable<T>(s: seq<T>, key: T -> seq<int>, k: seq<int>)
    ensures FilterKey(SortBy(s, key), key, k) == FilterKey(s, key, k)
    decreases |s|
  {
    if |s| > 0 {
      SortByStable(s[1..], key, k);
      InsertStable(s[0], SortBy(s[1..], key), key, k);
      FilterKeyCons(s[0], s[1..], key, k);
      assert [s[0]] + s[1..] == s;
    }
  }

  /**
   * A prefix of a sorted sequence is sorted and holds its best-ranked
   * elements: nothing outside the prefix ranks strictly before anything in it.
   */
  lemma SortedPrefix<T>(s: seq<T>, key: T -> seq<int>, n: nat)
    requires SortedBy(s, key) && n <= |s|
    ensures SortedBy(s[..n], key)
    ensures multiset(s[..n]) <= multiset(s)
    ensures forall x, y :: x in s[..n] && y in multiset(s) - multiset(s[..n])
                           ==> LexLe(key(x), key(y))
  {
    var r := s[..n];
    assert s == r + s[n..];
    assert multiset(s) == multiset(r) + multiset(s[n..]);
    forall x, y | x in r && y in multiset(s) - multiset(r)
      ensures LexLe(key(x), key(y))
    {
      assert y in multiset(s[n..]);
      var i :| 0 <= i < n && r[i] == x;
      var j :| 0 <= j < |s[n..]| && s[n..][j] == y;
      assert s[n + j] == y;
    }
  }

  /** Filtering a prefix gives a prefix of the filtered sequence. */
  lemma {:induction false} FilterKeyPrefix<T>(s: seq<T>, key: T -> seq<int>, k: seq<int>, n: nat)
    requires n <= |s|
    ensures FilterKey(s[..n], key, k) <= FilterKey(s, key, k)
    decreases n
  {
    if n > 0 {
      var h := if key(s[0]) == k then [s[0]] else [];
      var a := FilterKey(s[1..][..n - 1], key, k);
      var b := FilterKey(s[1..], key, k);
      FilterKeyPrefix(s[1..], key, k, n - 1);
      assert s[..n][1..] == s[1..][..n - 1];
      assert FilterKey(s[..n], key, k) == h + a;
      assert FilterKey(s, key, k) == h + b;
      assert a == b[..|a|];
      assert (h + b)[..|h + a|] == h + a;
    }
  }

  /**
   * The first `n` elements after a stable sort, restricted to any one key,
   * are the earliest elements of the input with that key, in input order.
   */
  lemma StableSortPrefix<T>(s: seq<T>, key: T -> seq<int>, n: nat)
    requires n <= |s|
    ensures forall k :: FilterKey(SortBy(s, key)[..n], key, k) <= FilterKey(s, key, k)
  {
    forall k
      ensures FilterKey(SortBy(s, key)[..n], key, k) <= FilterKey(s, key, k)
    {
      FilterKeyPrefix(SortBy(s, key), key, k, n);
      SortByStable(s, key, k);
    }
  }
}
