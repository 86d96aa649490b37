/**
 * `Array.prototype.sort` with a comparator `(a, b) => key(b) - key(a)`: since
 * ECMAScript 2019 the sort is stable, so the result is the elements in
 * non-increasing key order with ties kept in their input order. Modelled as a
 * stable insertion sort over sequences.
 */
module StableSort {

  ghost predicate SortedDesc<T>(s: seq<T>, key: T -> int) {
    forall i, j :: 0 <= i < j < |s| ==> key(s[i]) >= key(s[j])
  }

  /** The elements of `s` whose key is `k`, in the order they occur in `s`. */
  function WithKey<T>(s: seq<T>, key: T -> int, k: int): (r: seq<T>)
    ensures |r| <= |s|
    ensures forall x :: x in r ==> x in s && key(x) == k
  {
    if |s| == 0 then []
    else if key(s[0]) == k then [s[0]] + WithKey(s[1..], key, k)
    else WithKey(s[1..], key, k)
  }

  /** Places `x` before the first element whose key does not exceed its own. */
  function Insert<T>(x: T, s: seq<T>, key: T -> int): (r: seq<T>)
    requires SortedDesc(s, key)
    ensures SortedDesc(r, key)
    ensures multiset(r) == multiset(s) + multiset{x}
    ensures |r| == |s| + 1
  {
    if |s| == 0 then [x]
    else if key(s[0]) > key(x) then
      var tail := Insert(x, s[1..], key);
      HeadDominates(x, s, tail, key);
      [s[0]] + tail
    else
      [x] + s
  }

  lemma HeadDominates<T>(x: T, s: seq<T>, tail: seq<T>, key: T -> int)
    requires |s| > 0 && SortedDesc(s, key) && key(s[0]) > key(x)
    requires SortedDesc(tail, key) && multiset(tail) == multiset(s[1..]) + multiset{x}
    ensures SortedDesc([s[0]] + tail, key)
    ensures multiset([s[0]] + tail) == multiset(s) + multiset{x}
  {
    assert s == [s[0]] + s[1..];
    forall j | 0 <= j < |tail|
      ensures key(s[0]) >= key(tail[j])
    {
      assert tail[j] in multiset(tail);
      if tail[j] != x {
        assert tail[j] in multiset(s[1..]);
        var i :| 0 <= i < |s[1..]| && s[1..][i] == tail[j];
        assert s[i + 1] == tail[j];
      }
    }
  }

  /** The stable descending sort of `s` by `key`. */
  function Sort<T>(s: seq<T>, key: T -> int): (r: seq<T>)
    ensures SortedDesc(r, key)
    ensures multiset(r) == multiset(s)
    ensures |r| == |s|
  {
    if |s| == 0 then []
    else
      assert s == [s[0]] + s[1..];
      Insert(s[0], Sort(s[1..], key), key)
  }

  lemma {:induction false} InsertKeepsKeyClasses<T>(x: T, s: seq<T>, key: T -> int, k: int)
    requires SortedDesc(s, key)
    ensures WithKey(Insert(x, s, key), key, k)
         == (if key(x) == k then [x] else []) + WithKey(s, key, k)
    decreases |s|
  {
    if |s| == 0 {
    } else if key(s[0]) > key(x) {
      InsertKeepsKeyClasses(x, s[1..], key, k);
      var r := Insert(x, s, key);
      assert r[1..] == Insert(x, s[1..], key);
    } else {
      var r := [x] + s;
      assert r[1..] == s;
    }
  }

  /** Stability: among elements with equal keys the sort keeps the input order. */
  lemma {:induction false} SortIsStable<T>(s: seq<T>, key: T -> int, k: int)
    ensures WithKey(Sort(s, key), key, k) == WithKey(s, key, k)
    decreases |s|
  {
    if |s| > 0 {
      SortIsStable(s[1..], key, k);
      InsertKeepsKeyClasses(s[0], Sort(s[1..], key), key, k);
    }
  }

  /** Sorting a sorted sequence changes nothing. */
  lemma {:induction false} SortOfSortedIsIdentity<T>(s: seq<T>, key: T -> int)
    requires SortedDesc(s, key)
    ensures Sort(s, key) == s
    decreases |s|
  {
    if |s| > 0 {
      SortOfSortedIsIdentity(s[1..], key);
      assert Sort(s[1..], key) == s[1..];
      if |s| > 1 {
        assert key(s[1]) <= key(s[0]);
      }
    }
  }

  lemma HeadHasItsKey<T>(s: seq<T>, key: T -> int)
    requires |s| > 0
    ensures WithKey(s, key, key(s[0])) == [s[0]] + WithKey(s[1..], key, key(s[0]))
  {
  }

  /** With equal key groups, the head of a sorted `b` has a key no smaller than the head of `a`. */
  lemma HeadKeyIsMaximal<T>(a: seq<T>, b: seq<T>, key: T -> int)
    requires |a| > 0 && |b| > 0 && SortedDesc(b, key)
    requires forall k :: WithKey(a, key, k) == WithKey(b, key, k)
    ensures key(b[0]) >= key(a[0])
  {
    HeadHasItsKey(a, key);
    var y := WithKey(b, key, key(a[0]))[0];
    assert y in WithKey(b, key, key(a[0]));
    var j :| 0 <= j < |b| && b[j] == y;
  }

  /**
   * A sequence is determined by being sorted and by its equal-key groups: two
   * sorted sequences with the same groups, in the same order, are equal. Hence
   * `Sort` is the only stable descending arrangement of its input.
   */
  lemma {:induction false} SortedStableIsUnique<T>(a: seq<T>, b: seq<T>, key: T -> int)
    requires SortedDesc(a, key) && SortedDesc(b, key)
    requires forall k :: WithKey(a, key, k) == WithKey(b, key, k)
    ensures a == b
    decreases |a| + |b|
  {
    if |a| == 0 && |b| == 0 {
      return;
    }
    if |a| == 0 {
      HeadHasItsKey(b, key);
      assert false;
    }
    if |b| == 0 {
      HeadHasItsKey(a, key);
      assert false;
    }
    HeadKeyIsMaximal(a, b, key);
    HeadKeyIsMaximal(b, a, key);
    var ka := key(a[0]);
    assert WithKey(a, key, ka) == [a[0]] + WithKey(a[1..], key, ka);
    assert WithKey(b, key, ka) == [b[0]] + WithKey(b[1..], key, ka);
    forall k
      ensures WithKey(a[1..], key, k) == WithKey(b[1..], key, k)
    {
      if k != ka {
        assert WithKey(a, key, k) == WithKey(a[1..], key, k);
        assert WithKey(b, key, k) == WithKey(b[1..], key, k);
      } else {
        assert WithKey(a, key, k)[1..] == WithKey(a[1..], key, k);
        assert WithKey(b, key, k)[1..] == WithKey(b[1..], key, k);
      }
    }
    SortedStableIsUnique(a[1..], b[1..], key);
    assert a == [a[0]] + a[1..];
    assert b == [b[0]] + b[1..];
  }

  /** In a sorted sequence, nothing after the first `n` elements has a larger key than any of them. */
  lemma PrefixDominatesRest<T>(s: seq<T>, key: T -> int, n: nat)
    requires SortedDesc(s, key) && n <= |s|
    ensures forall x, i :: x in multiset(s) - multiset(s[..n]) && 0 <= i < n ==> key(x) <= key(s[i])
  {
    assert s == s[..n] + s[n..];
    assert multiset(s) == multiset(s[..n]) + multiset(s[n..]);
    forall x, i | x in multiset(s) - multiset(s[..n]) && 0 <= i < n
      ensures key(x) <= key(s[i])
    {
      assert x in multiset(s[n..]);
      var j :| 0 <= j < |s[n..]| && s[n..][j] == x;
      assert s[n + j] == x;
    }
  }

  /** Two permutations of each other hold the same elements. */
  lemma PermutationMembers<T>(s: seq<T>, t: seq<T>)
    requires multiset(s) == multiset(t)
    ensures forall i :: 0 <= i < |s| ==> s[i] in t
    ensures forall k :: 0 <= k < |t| ==> t[k] in s
  {
    forall i | 0 <= i < |s|
      ensures s[i] in t
    {
      assert s[i] in multiset(s);
    }
    forall k | 0 <= k < |t|
      ensures t[k] in s
    {
      assert t[k] in multiset(t);
    }
  }

  /** Insertion looks only at key values: two keys that agree everywhere insert alike. */
  lemma {:induction false} InsertRespectsKeys<T>(x: T, s: seq<T>, key1: T -> int, key2: T -> int)
    requires forall y :: key1(y) == key2(y)
    requires SortedDesc(s, key1)
    ensures SortedDesc(s, key2)
    ensures Insert(x, s, key1) == Insert(x, s, key2)
    decreases |s|
  {
    if |s| > 0 && key1(s[0]) > key1(x) {
      InsertRespectsKeys(x, s[1..], key1, key2);
    }
  }

  /** Hence two comparators that compare the same values give the same order. */
  lemma {:induction false} SortRespectsKeys<T>(s: seq<T>, key1: T -> int, key2: T -> int)
    requires forall y :: key1(y) == key2(y)
    ensures Sort(s, key1) == Sort(s, key2)
    decreases |s|
  {
    if |s| > 0 {
      SortRespectsKeys(s[1..], key1, key2);
      InsertRespectsKeys(s[0], Sort(s[1..], key1), key1, key2);
    }
  }
}
