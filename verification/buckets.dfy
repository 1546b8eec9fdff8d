/** Splitting a sequence by a key and putting the parts side by side. Both snapshot pipelines, the
    date sweep of hoardling.c and the Go snapshot, are instances. */
module Buckets {

  /** The elements of `s` with key `k`, in the order of `s`. */
  function Filter<T>(s: seq<T>, key: T -> int, k: int): seq<T> {
    if s == [] then []
    else
      var last := s[|s| - 1];
      Filter(s[..|s| - 1], key, k) + if key(last) == k then [last] else []
  }

  /** The buckets of `ks`, one after the other. */
  function Concat<T>(s: seq<T>, key: T -> int, ks: seq<int>): seq<T> {
    if ks == [] then [] else Concat(s, key, ks[..|ks| - 1]) + Filter(s, key, ks[|ks| - 1])
  }

  ghost predicate StrictlyIncreasing(ks: seq<int>) {
    forall i, j :: 0 <= i < j < |ks| ==> ks[i] < ks[j]
  }

  ghost predicate SortedBy<T>(r: seq<T>, key: T -> int) {
    forall i, j :: 0 <= i < j < |r| ==> key(r[i]) <= key(r[j])
  }

  /** `r` is `s` sorted by key with equal keys left in their order. */
  ghost predicate IsStableSort<T>(r: seq<T>, s: seq<T>, key: T -> int) {
    && SortedBy(r, key)
    && forall k: int :: Filter(r, key, k) == Filter(s, key, k)
  }

  lemma {:induction false} FilterLast<T>(s: seq<T>, key: T -> int, k: int)
    ensures s == [] ==> Filter(s, key, k) == []
    ensures s != [] ==> var n := |s| - 1;
              Filter(s, key, k) == Filter(s[..n], key, k) + if key(s[n]) == k then [s[n]] else []
  {
  }

  lemma {:induction false} FilterConcat<T>(a: seq<T>, b: seq<T>, key: T -> int, k: int)
    ensures Filter(a + b, key, k) == Filter(a, key, k) + Filter(b, key, k)
  {
    hide Filter;
    FilterLast(a + b, key, k);
    FilterLast(b, key, k);
    if b == [] {
      assert a + b == a;
    } else {
      assert (a + b)[..|a + b| - 1] == a + b[..|b| - 1];
      FilterConcat(a, b[..|b| - 1], key, k);
    }
  }

  lemma {:induction false} FilterKeys<T>(s: seq<T>, key: T -> int, k: int)
    ensures forall i :: 0 <= i < |Filter(s, key, k)| ==> key(Filter(s, key, k)[i]) == k
  {
    hide Filter;
    FilterLast(s, key, k);
    if s != [] {
      FilterKeys(s[..|s| - 1], key, k);
    }
  }

  lemma {:induction false} FilterOne<T>(s: seq<T>, key: T -> int, k: int, j: int)
    requires forall i :: 0 <= i < |s| ==> key(s[i]) == k
    ensures Filter(s, key, j) == if j == k then s else []
  {
    hide Filter;
    FilterLast(s, key, j);
    if s != [] {
      FilterOne(s[..|s| - 1], key, k, j);
      assert s == s[..|s| - 1] + [s[|s| - 1]];
    }
  }

  lemma {:induction false} FilterEmpty<T>(s: seq<T>, key: T -> int, k: int)
    ensures Filter(s, key, k) == [] <==> forall i :: 0 <= i < |s| ==> key(s[i]) != k
  {
    hide Filter;
    FilterLast(s, key, k);
    if s != [] {
      var n := |s| - 1;
      FilterEmpty(s[..n], key, k);
      assert forall i :: 0 <= i < n ==> s[..n][i] == s[i];
      if key(s[n]) != k {
        assert Filter(s[..n], key, k) + [] == Filter(s[..n], key, k);
      }
    }
  }

  lemma {:induction false} KeyOfLast(ks: seq<int>, k: int)
    requires ks != [] && StrictlyIncreasing(ks)
    ensures k in ks <==> k in ks[..|ks| - 1] || k == ks[|ks| - 1]
    ensures k in ks[..|ks| - 1] ==> k < ks[|ks| - 1]
    ensures StrictlyIncreasing(ks[..|ks| - 1])
  {
    assert ks == ks[..|ks| - 1] + [ks[|ks| - 1]];
  }

  lemma {:induction false} FilterBuckets<T>(s: seq<T>, key: T -> int, ks: seq<int>, k: int)
    requires StrictlyIncreasing(ks)
    ensures Filter(Concat(s, key, ks), key, k) == if k in ks then Filter(s, key, k) else []
  {
    hide Filter, StrictlyIncreasing;
    if ks == [] {
      FilterLast(Concat(s, key, ks), key, k);
    } else {
      var n := |ks| - 1;
      KeyOfLast(ks, k);
      FilterBuckets(s, key, ks[..n], k);
      FilterConcat(Concat(s, key, ks[..n]), Filter(s, key, ks[n]), key, k);
      FilterKeys(s, key, ks[n]);
      FilterOne(Filter(s, key, ks[n]), key, ks[n], k);
    }
  }

  lemma {:induction false} ConcatLast<T>(s: seq<T>, key: T -> int, ks: seq<int>)
    ensures ks == [] ==> Concat(s, key, ks) == []
    ensures ks != [] ==> Concat(s, key, ks) == Concat(s, key, ks[..|ks| - 1]) + Filter(s, key, ks[|ks| - 1])
  {
  }

  lemma {:induction false} BucketsHaveKeys<T>(s: seq<T>, key: T -> int, ks: seq<int>, i: nat)
    requires i < |Concat(s, key, ks)|
    ensures key(Concat(s, key, ks)[i]) in ks
  {
    hide Filter, Concat;
    ConcatLast(s, key, ks);
    var n := |ks| - 1;
    var before := Concat(s, key, ks[..n]);
    if i < |before| {
      BucketsHaveKeys(s, key, ks[..n], i);
    } else {
      FilterKeys(s, key, ks[n]);
      assert Concat(s, key, ks)[i] == Filter(s, key, ks[n])[i - |before|];
    }
  }

  lemma {:induction false} SortedConcat<T>(a: seq<T>, b: seq<T>, key: T -> int, k: int)
    requires SortedBy(a, key) && (forall i :: 0 <= i < |a| ==> key(a[i]) < k) && forall i :: 0 <= i < |b| ==> key(b[i]) == k
    ensures SortedBy(a + b, key)
  {
  }

  lemma {:induction false} BucketsSorted<T>(s: seq<T>, key: T -> int, ks: seq<int>)
    requires StrictlyIncreasing(ks)
    ensures SortedBy(Concat(s, key, ks), key)
  {
    hide Filter, Concat, SortedBy;
    ConcatLast(s, key, ks);
    if ks == [] {
      NothingSorted(Concat(s, key, ks), key);
    } else {
      var n := |ks| - 1;
      var before := Concat(s, key, ks[..n]);
      BucketsSorted(s, key, ks[..n]);
      FilterKeys(s, key, ks[n]);
      forall i | 0 <= i < |before|
        ensures key(before[i]) < ks[n]
      {
        BucketsHaveKeys(s, key, ks[..n], i);
        KeyOfLast(ks, key(before[i]));
      }
      SortedConcat(before, Filter(s, key, ks[n]), key, ks[n]);
    }
  }

  lemma {:induction false} NothingSorted<T>(s: seq<T>, key: T -> int)
    requires s == []
    ensures SortedBy(s, key)
  {
  }

  /** The buckets are the stable sort of the whole exactly when every key has its bucket. */
  lemma {:induction false} BucketsAreStableSort<T>(s: seq<T>, key: T -> int, ks: seq<int>)
    requires StrictlyIncreasing(ks)
    ensures IsStableSort(Concat(s, key, ks), s, key) <==> forall i :: 0 <= i < |s| ==> key(s[i]) in ks
  {
    hide Filter, Concat;
    BucketsSorted(s, key, ks);
    var r := Concat(s, key, ks);
    if forall i :: 0 <= i < |s| ==> key(s[i]) in ks {
      forall k: int
        ensures Filter(r, key, k) == Filter(s, key, k)
      {
        FilterBuckets(s, key, ks, k);
        FilterEmpty(s, key, k);
      }
    } else {
      var i :| 0 <= i < |s| && key(s[i]) !in ks;
      FilterBuckets(s, key, ks, key(s[i]));
      FilterEmpty(s, key, key(s[i]));
      assert Filter(r, key, key(s[i])) != Filter(s, key, key(s[i]));
    }
  }

  lemma {:induction false} FilterCount<T>(s: seq<T>, key: T -> int, x: T)
    ensures multiset(Filter(s, key, key(x)))[x] == multiset(s)[x]
  {
    hide Filter;
    FilterLast(s, key, key(x));
    if s != [] {
      var n := |s| - 1;
      FilterCount(s[..n], key, x);
      assert s == s[..n] + [s[n]];
      assert s[n] == x ==> key(s[n]) == key(x);
    }
  }

  /** A stable sort loses nothing and duplicates nothing. */
  lemma {:induction false} StableSortIsPermutation<T>(r: seq<T>, s: seq<T>, key: T -> int)
    requires IsStableSort(r, s, key)
    ensures multiset(r) == multiset(s)
  {
    hide Filter;
    forall x: T
      ensures multiset(r)[x] == multiset(s)[x]
    {
      FilterCount(r, key, x);
      FilterCount(s, key, x);
    }
  }
}
