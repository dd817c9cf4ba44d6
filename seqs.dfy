/**
 * The collection helpers the system takes from lodash and from JavaScript's
 * arrays: `filter`, `uniqBy`, `difference`, `reduce` with `+`, and a stable sort.
 */
module Seqs {
  /** `values.reduce((a, b) => a + b)`, with 0 for the empty list. */
  function Sum(values: seq<real>): real
  {
    if |values| == 0 then 0.0 else Sum(values[..|values| - 1]) + values[|values| - 1]
  }

  function Filter<T>(s: seq<T>, keep: T -> bool): (r: seq<T>)
    ensures |r| <= |s|
    ensures forall i :: 0 <= i < |r| ==> r[i] in s && keep(r[i])
    ensures forall i :: 0 <= i < |s| && keep(s[i]) ==> s[i] in r
  {
    if |s| == 0 then []
    else if keep(s[0]) then [s[0]] + Filter(s[1..], keep)
    else Filter(s[1..], keep)
  }

  /** lodash `difference(a, b)`: the entries of `a`, in order, that are not in `b`. */
  function Difference<T(==)>(a: seq<T>, b: seq<T>): (r: seq<T>)
    ensures forall i :: 0 <= i < |r| ==> r[i] in a && r[i] !in b
    ensures forall i :: 0 <= i < |a| && a[i] !in b ==> a[i] in r
  {
    Filter(a, x => x !in b)
  }

  /** A sequence with no member is empty. */
  lemma NoMemberEmpty<T>(s: seq<T>)
    ensures (forall a :: a !in s) ==> |s| == 0
  {
    if |s| > 0 {
      assert s[0] in s;
    }
  }

  /** No entry occurs twice. */
  predicate Distinct<T(==)>(s: seq<T>)
  {
    forall i, j :: 0 <= i < j < |s| ==> s[i] != s[j]
  }

  predicate KeysDistinct<T, K(==)>(s: seq<T>, key: T -> K)
  {
    forall i, j :: 0 <= i < j < |s| ==> key(s[i]) != key(s[j])
  }

  /** lodash `uniqBy(s, key)` once the keys in `seen` are already taken. */
  function UniqByFrom<T, K(==)>(s: seq<T>, key: T -> K, seen: set<K>): (r: seq<T>)
  {
    if |s| == 0 then []
    else if key(s[0]) in seen then UniqByFrom(s[1..], key, seen)
    else [s[0]] + UniqByFrom(s[1..], key, seen + {key(s[0])})
  }

  /** lodash `uniqBy(s, key)`: the first entry of each key, in order. */
  function UniqBy<T, K(==)>(s: seq<T>, key: T -> K): seq<T>
  {
    UniqByFrom(s, key, {})
  }

  lemma {:induction false} UniqByFromSubset<T, K>(s: seq<T>, key: T -> K, seen: set<K>)
    ensures forall i :: 0 <= i < |UniqByFrom(s, key, seen)| ==>
      UniqByFrom(s, key, seen)[i] in s && key(UniqByFrom(s, key, seen)[i]) !in seen
  {
    if |s| > 0 {
      if key(s[0]) in seen {
        UniqByFromSubset(s[1..], key, seen);
      } else {
        UniqByFromSubset(s[1..], key, seen + {key(s[0])});
      }
    }
  }

  lemma {:induction false} UniqByFromDistinct<T, K>(s: seq<T>, key: T -> K, seen: set<K>)
    ensures KeysDistinct(UniqByFrom(s, key, seen), key)
  {
    if |s| > 0 && key(s[0]) !in seen {
      var seen' := seen + {key(s[0])};
      var tail := UniqByFrom(s[1..], key, seen');
      var r := UniqByFrom(s, key, seen);
      UniqByFromDistinct(s[1..], key, seen');
      UniqByFromSubset(s[1..], key, seen');
      assert r == [s[0]] + tail;
      forall i, j | 0 <= i < j < |r| ensures key(r[i]) != key(r[j]) {
        assert r[j] == tail[j - 1];
        if i > 0 {
          assert r[i] == tail[i - 1];
        }
      }
    } else if |s| > 0 {
      UniqByFromDistinct(s[1..], key, seen);
    }
  }

  lemma {:induction false} UniqByFromCovers<T, K>(s: seq<T>, key: T -> K, seen: set<K>, k: nat)
    requires k < |s| && key(s[k]) !in seen
    ensures exists y :: y in UniqByFrom(s, key, seen) && key(y) == key(s[k])
  {
    var r := UniqByFrom(s, key, seen);
    if key(s[0]) in seen {
      UniqByFromCovers(s[1..], key, seen, k - 1);
    } else if key(s[k]) == key(s[0]) {
      assert r[0] == s[0];
    } else {
      var seen' := seen + {key(s[0])};
      UniqByFromCovers(s[1..], key, seen', k - 1);
      var y :| y in UniqByFrom(s[1..], key, seen') && key(y) == key(s[k]);
      assert r == [s[0]] + UniqByFrom(s[1..], key, seen');
      assert y in r;
    }
  }

  /** uniqBy keeps one entry per key, only entries of the input, and every key of the input. */
  lemma UniqByFacts<T, K>(s: seq<T>, key: T -> K)
    ensures KeysDistinct(UniqBy(s, key), key)
    ensures forall i :: 0 <= i < |UniqBy(s, key)| ==> UniqBy(s, key)[i] in s
    ensures forall k :: 0 <= k < |s| ==> exists y :: y in UniqBy(s, key) && key(y) == key(s[k])
  {
    UniqByFromDistinct(s, key, {});
    UniqByFromSubset(s, key, {});
    forall k | 0 <= k < |s| ensures exists y :: y in UniqBy(s, key) && key(y) == key(s[k]) {
      UniqByFromCovers(s, key, {}, k);
    }
  }

  /** The key of entry `k` is the key of some entry uniqBy keeps. */
  lemma UniqByCoversAt<T, K>(s: seq<T>, key: T -> K, k: nat)
    requires k < |s|
    ensures exists j :: 0 <= j < |UniqBy(s, key)| && key(UniqBy(s, key)[j]) == key(s[k])
  {
    var u := UniqBy(s, key);
    UniqByFromCovers(s, key, {}, k);
    var y :| y in u && key(y) == key(s[k]);
    var j :| 0 <= j < |u| && u[j] == y;
  }

  lemma {:induction false} UniqByFromKeepsFirst<T, K>(s: seq<T>, key: T -> K, seen: set<K>, k: nat)
    requires k < |s| && key(s[k]) !in seen
    requires forall j :: 0 <= j < k ==> key(s[j]) != key(s[k])
    ensures s[k] in UniqByFrom(s, key, seen)
  {
    if k > 0 {
      var seen' := if key(s[0]) in seen then seen else seen + {key(s[0])};
      assert forall j :: 0 <= j < k - 1 ==> s[1..][j] == s[j + 1];
      UniqByFromKeepsFirst(s[1..], key, seen', k - 1);
    }
  }

  /** The first entry of each key is the one uniqBy keeps. */
  lemma UniqByKeepsFirst<T, K>(s: seq<T>, key: T -> K, k: nat)
    requires k < |s| && forall j :: 0 <= j < k ==> key(s[j]) != key(s[k])
    ensures s[k] in UniqBy(s, key)
  {
    UniqByFromKeepsFirst(s, key, {}, k);
  }

  /** Filtering keeps the keys apart. */
  lemma {:induction false} FilterKeysDistinct<T, K>(s: seq<T>, keep: T -> bool, key: T -> K)
    requires KeysDistinct(s, key)
    ensures KeysDistinct(Filter(s, keep), key)
  {
    if |s| > 0 {
      assert KeysDistinct(s[1..], key);
      FilterKeysDistinct(s[1..], keep, key);
      if keep(s[0]) {
        var r := Filter(s, keep);
        var tail := Filter(s[1..], keep);
        assert r == [s[0]] + tail;
        forall i, j | 0 <= i < j < |r| ensures key(r[i]) != key(r[j]) {
          assert r[j] == tail[j - 1] && r[j] in s[1..];
          if i > 0 {
            assert r[i] == tail[i - 1];
          } else {
            var m :| 0 <= m < |s[1..]| && s[1..][m] == r[j];
            assert s[m + 1] == r[j];
          }
        }
      }
    }
  }

  ghost predicate TotalOrder<T(!new)>(leq: (T, T) -> bool)
  {
    (forall a, b :: leq(a, b) || leq(b, a))
    && (forall a, b, c :: leq(a, b) && leq(b, c) ==> leq(a, c))
  }

  predicate SortedBy<T>(s: seq<T>, leq: (T, T) -> bool)
  {
    forall i, j :: 0 <= i < j < |s| ==> leq(s[i], s[j])
  }

  ghost predicate Antisymmetric<T(!new)>(leq: (T, T) -> bool)
  {
    forall a, b :: leq(a, b) && leq(b, a) ==> a == b
  }

  /** The head of a sorted sequence is at or below every entry. */
  lemma SortedHeadLeast<T>(s: seq<T>, x: T, leq: (T, T) -> bool)
    requires SortedBy(s, leq) && x in multiset(s)
    ensures x == s[0] || leq(s[0], x)
  {
    var i :| 0 <= i < |s| && s[i] == x;
  }

  lemma SortedTail<T>(s: seq<T>, leq: (T, T) -> bool)
    requires SortedBy(s, leq) && |s| > 0
    ensures SortedBy(s[1..], leq) && s == [s[0]] + s[1..]
  {
  }

  /** Under an antisymmetric order, the sorted arrangement of a multiset is unique. */
  lemma {:induction false} SortedUnique<T(!new)>(s: seq<T>, t: seq<T>, leq: (T, T) -> bool)
    requires Antisymmetric(leq) && SortedBy(s, leq) && SortedBy(t, leq)
    requires multiset(s) == multiset(t)
    ensures s == t
  {
    if |s| == 0 {
      assert |t| == |multiset(t)| == 0;
    } else {
      assert |t| == |multiset(t)| == |s|;
      assert s[0] in multiset(s) && t[0] in multiset(t);
      SortedHeadLeast(s, t[0], leq);
      SortedHeadLeast(t, s[0], leq);
      assert s[0] == t[0];
      SortedTail(s, leq);
      SortedTail(t, leq);
      assert multiset(s[1..]) == multiset(t[1..]) by {
        assert multiset(s) == multiset([s[0]] + s[1..]) == multiset([s[0]]) + multiset(s[1..]);
        assert multiset(t) == multiset([t[0]] + t[1..]) == multiset([t[0]]) + multiset(t[1..]);
        assert multiset(s[1..]) == multiset(s) - multiset([s[0]]);
        assert multiset(t[1..]) == multiset(t) - multiset([t[0]]);
      }
      SortedUnique(s[1..], t[1..], leq);
    }
  }

  /** Sorting sees only the multiset of its input. */
  lemma SortPermutationInvariant<T(!new)>(s: seq<T>, t: seq<T>, leq: (T, T) -> bool)
    requires TotalOrder(leq) && Antisymmetric(leq)
    requires multiset(s) == multiset(t)
    ensures InsertionSort(s, leq) == InsertionSort(t, leq)
  {
    SortSorted(s, leq);
    SortSorted(t, leq);
    SortedUnique(InsertionSort(s, leq), InsertionSort(t, leq), leq);
  }

  /** Puts `x` before the first entry it is not after; equal entries keep their order. */
  function Insert<T>(x: T, s: seq<T>, leq: (T, T) -> bool): (r: seq<T>)
    ensures multiset(r) == multiset(s) + multiset{x}
    ensures |r| == |s| + 1
  {
    if |s| == 0 then [x]
    else if leq(x, s[0]) then [x] + s
    else
      assert s == [s[0]] + s[1..];
      [s[0]] + Insert(x, s[1..], leq)
  }

  /** A stable sort (lodash `sortBy` / `orderBy` ascending), as insertion sort. */
  function InsertionSort<T>(s: seq<T>, leq: (T, T) -> bool): (r: seq<T>)
    ensures multiset(r) == multiset(s)
    ensures |r| == |s|
  {
    if |s| == 0 then []
    else
      assert s == [s[0]] + s[1..];
      Insert(s[0], InsertionSort(s[1..], leq), leq)
  }

  lemma {:induction false} InsertSorted<T(!new)>(x: T, s: seq<T>, leq: (T, T) -> bool)
    requires TotalOrder(leq) && SortedBy(s, leq)
    ensures SortedBy(Insert(x, s, leq), leq)
  {
    if |s| > 0 && !leq(x, s[0]) {
      InsertSorted(x, s[1..], leq);
      var r := Insert(x, s, leq);
      var t := Insert(x, s[1..], leq);
      assert r == [s[0]] + t;
      assert multiset(t) == multiset(s[1..]) + multiset{x};
      forall j | 0 < j < |r| ensures leq(s[0], r[j]) {
        assert r[j] in multiset(t);
        if r[j] == x {
        } else {
          assert r[j] in multiset(s[1..]);
          var k :| 0 <= k < |s[1..]| && s[1..][k] == r[j];
          assert s[k + 1] == r[j];
        }
      }
    }
  }

  /** The sort's output is ordered and holds exactly the input's entries. */
  lemma {:induction false} SortSorted<T(!new)>(s: seq<T>, leq: (T, T) -> bool)
    requires TotalOrder(leq)
    ensures SortedBy(InsertionSort(s, leq), leq)
    ensures multiset(InsertionSort(s, leq)) == multiset(s)
  {
    if |s| > 0 {
      SortSorted(s[1..], leq);
      InsertSorted(s[0], InsertionSort(s[1..], leq), leq);
    }
  }

  /** Sorting what is already sorted changes nothing. */
  lemma {:induction false} SortOfSorted<T(!new)>(s: seq<T>, leq: (T, T) -> bool)
    requires SortedBy(s, leq)
    ensures InsertionSort(s, leq) == s
  {
    if |s| > 0 {
      assert SortedBy(s[1..], leq);
      SortOfSorted(s[1..], leq);
      if |s| > 1 {
        assert leq(s[0], s[1]);
      }
      assert [s[0]] + s[1..] == s;
    }
  }

  function Reverse<T>(s: seq<T>): (r: seq<T>)
    ensures |r| == |s|
    ensures forall i :: 0 <= i < |s| ==> r[i] == s[|s| - 1 - i]
  {
    if |s| == 0 then [] else Reverse(s[1..]) + [s[0]]
  }
}
