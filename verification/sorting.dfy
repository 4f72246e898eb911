/**
 * Stable sorting of a sequence by a string key, as `Array.prototype.sort`
 * does with a comparator that compares one string field of each element.
 */
module Sorting {
  import StringOrder

  /** Every element's key is no greater than the key of any later element. */
  predicate SortedBy<T>(s: seq<T>, key: T -> string) {
    forall i, j :: 0 <= i < j < |s| ==> StringOrder.Le(key(s[i]), key(s[j]))
  }

  /** Neighbouring elements are in key order. */
  predicate AdjacentSortedBy<T>(s: seq<T>, key: T -> string) {
    forall i :: 0 < i < |s| ==> StringOrder.Le(key(s[i - 1]), key(s[i]))
  }

  /** No element occurs twice. */
  predicate Distinct<T(==)>(s: seq<T>) {
    forall i, j :: 0 <= i < j < |s| ==> s[i] != s[j]
  }

  /** Applies `f` to every element, keeping the order. */
  function MapSeq<T, U>(s: seq<T>, f: T -> U): (r: seq<U>)
    ensures |r| == |s|
  {
    seq(|s|, i requires 0 <= i < |s| => f(s[i]))
  }

  lemma {:induction false} AdjacentSortedIsSorted<T>(s: seq<T>, key: T -> string)
    requires AdjacentSortedBy(s, key)
    ensures SortedBy(s, key)
    decreases |s|
  {
    if |s| > 1 {
      AdjacentSortedIsSorted(s[1..], key);
      forall j | 0 < j < |s|
        ensures StringOrder.Le(key(s[0]), key(s[j]))
      {
        if j > 1 {
          assert StringOrder.Le(key(s[1..][0]), key(s[1..][j - 1]));
          StringOrder.LeTransitive(key(s[0]), key(s[1]), key(s[j]));
        }
      }
      forall i, j | 0 < i < j < |s|
        ensures StringOrder.Le(key(s[i]), key(s[j]))
      {
        assert s[i] == s[1..][i - 1] && s[j] == s[1..][j - 1];
      }
    }
  }

  /**
   * Inserts `x` in front of the first element whose key is not smaller, so
   * that `x` stays ahead of elements with an equal key (stability).
   */
  function Insert<T>(x: T, s: seq<T>, key: T -> string): (r: seq<T>)
    ensures multiset(r) == multiset(s) + multiset{x}
    ensures |r| == |s| + 1
    ensures r[0] == x || (|s| > 0 && r[0] == s[0])
    ensures AdjacentSortedBy(s, key) ==> AdjacentSortedBy(r, key)
  {
    if |s| == 0 || StringOrder.Le(key(x), key(s[0])) then
      [x] + s
    else
      StringOrder.LeTotal(key(x), key(s[0]));
      var rest := Insert(x, s[1..], key);
      assert s == [s[0]] + s[1..];
      [s[0]] + rest
  }

  /** Insertion sort: a stable sort of `s` by `key`. */
  function SortBy<T>(s: seq<T>, key: T -> string): (r: seq<T>)
    ensures multiset(r) == multiset(s)
    ensures |r| == |s|
    ensures SortedBy(r, key)
  {
    if |s| == 0 then []
    else
      var r := Insert(s[0], SortBy(s[1..], key), key);
      assert s == [s[0]] + s[1..];
      AdjacentSortedIsSorted(r, key);
      r
  }

  /** Sorting a sequence that is already in key order leaves it as it is. */
  lemma {:induction false} SortBySortedIsIdentity<T>(s: seq<T>, key: T -> string)
    requires SortedBy(s, key)
    ensures SortBy(s, key) == s
    decreases |s|
  {
    if |s| > 0 {
      assert SortedBy(s[1..], key) by {
        forall i, j | 0 <= i < j < |s[1..]|
          ensures StringOrder.Le(key(s[1..][i]), key(s[1..][j]))
        {
          assert s[1..][i] == s[i + 1] && s[1..][j] == s[j + 1];
        }
      }
      SortBySortedIsIdentity(s[1..], key);
      assert s == [s[0]] + s[1..];
    }
  }

  /** Sorting is idempotent. */
  lemma SortByIdempotent<T>(s: seq<T>, key: T -> string)
    ensures SortBy(SortBy(s, key), key) == SortBy(s, key)
  {
    SortBySortedIsIdentity(SortBy(s, key), key);
  }

  lemma {:induction false} MapSeqConcat<T, U>(a: seq<T>, b: seq<T>, f: T -> U)
    ensures MapSeq(a + b, f) == MapSeq(a, f) + MapSeq(b, f)
  {
    var l := MapSeq(a + b, f);
    var r := MapSeq(a, f) + MapSeq(b, f);
    assert |l| == |r|;
    forall i | 0 <= i < |l| ensures l[i] == r[i] {
      if i < |a| {
        assert (a + b)[i] == a[i];
      } else {
        assert (a + b)[i] == b[i - |a|];
      }
    }
  }

  lemma IndexOf<T>(b: seq<T>, x: T) returns (j: nat)
    requires x in multiset(b)
    ensures j < |b| && b[j] == x
  {
    assert x in b;
    j :| 0 <= j < |b| && b[j] == x;
  }

  lemma RemoveAtMultiset<T>(b: seq<T>, j: nat)
    requires j < |b|
    ensures multiset(b[..j] + b[j + 1..]) == multiset(b) - multiset{b[j]}
  {
    assert b == b[..j] + [b[j]] + b[j + 1..];
  }

  lemma MapSeqRemoveAt<T, U>(b: seq<T>, j: nat, f: T -> U)
    requires j < |b|
    ensures multiset(MapSeq(b, f)) == multiset(MapSeq(b[..j] + b[j + 1..], f)) + multiset{f(b[j])}
  {
    var p, x, q := b[..j], b[j], b[j + 1..];
    assert b == p + ([x] + q);
    MapSeqConcat(p, [x] + q, f);
    MapSeqConcat([x], q, f);
    MapSeqConcat(p, q, f);
    assert MapSeq([x], f) == [f(x)];
    calc {
      multiset(MapSeq(b, f));
      multiset(MapSeq(p, f) + ([f(x)] + MapSeq(q, f)));
      multiset(MapSeq(p, f)) + multiset{f(x)} + multiset(MapSeq(q, f));
      multiset(MapSeq(p, f) + MapSeq(q, f)) + multiset{f(x)};
      multiset(MapSeq(p + q, f)) + multiset{f(x)};
    }
  }

  /** Mapping two permutations of each other yields permutations of each other. */
  lemma {:induction false} MapSeqPreservesPermutation<T, U>(a: seq<T>, b: seq<T>, f: T -> U)
    requires multiset(a) == multiset(b)
    ensures multiset(MapSeq(a, f)) == multiset(MapSeq(b, f))
    decreases |a|
  {
    if |a| == 0 {
      assert |b| == |multiset(b)| == 0;
    } else {
      var j := IndexOf(b, a[0]);
      var a', b' := a[..0] + a[1..], b[..j] + b[j + 1..];
      RemoveAtMultiset(a, 0);
      RemoveAtMultiset(b, j);
      assert multiset(a') == multiset(b');
      MapSeqPreservesPermutation(a', b', f);
      MapSeqRemoveAt(a, 0, f);
      MapSeqRemoveAt(b, j, f);
    }
  }

  lemma {:induction false} DistinctHasSingleCopies<T>(s: seq<T>, x: T)
    requires Distinct(s)
    ensures multiset(s)[x] <= 1
    decreases |s|
  {
    if |s| > 0 {
      assert s == [s[0]] + s[1..];
      assert Distinct(s[1..]) by {
        forall i, j | 0 <= i < j < |s[1..]| ensures s[1..][i] != s[1..][j] {
          assert s[1..][i] == s[i + 1] && s[1..][j] == s[j + 1];
        }
      }
      DistinctHasSingleCopies(s[1..], x);
      if s[0] == x {
        assert x !in s[1..] by {
          forall k | 0 <= k < |s[1..]| ensures s[1..][k] != x {
            assert s[1..][k] == s[k + 1];
          }
        }
      }
    }
  }

  /** A permutation of a sequence without repetitions has none either. */
  lemma DistinctPermutation<T>(a: seq<T>, b: seq<T>)
    requires multiset(a) == multiset(b)
    requires Distinct(a)
    ensures Distinct(b)
  {
    forall i, j | 0 <= i < j < |b| ensures b[i] != b[j] {
      if b[i] == b[j] {
        assert b == b[..i] + [b[i]] + b[i + 1..j] + [b[j]] + b[j + 1..];
        assert multiset(b)[b[i]] >= 2;
        DistinctHasSingleCopies(a, b[i]);
      }
    }
  }
}
