/** Ordering, enumeration and paging of lists, as the core uses them:
    a stable sort into descending order of an integer key (JavaScript's
    `Array.prototype.sort` with a `b - a` comparator is stable, and a
    database `orderBy: desc` is modelled the same way), the enumeration of
    a table's keys in an unspecified order, JavaScript's `slice` with its
    negative-index rule, and the `skip`/`take` window of a query. */
module Listing {

  /** Keys never increase from left to right. */
  ghost predicate NonIncreasing<T>(s: seq<T>, key: T -> int)
  {
    forall i, j :: 0 <= i < j < |s| ==> key(s[i]) >= key(s[j])
  }

  /** No element occurs twice. */
  ghost predicate Distinct<T>(s: seq<T>)
  {
    forall i, j :: 0 <= i < j < |s| ==> s[i] != s[j]
  }

  /** Inserts `x` after every element whose key is at least its own. */
  function InsertDesc<T>(s: seq<T>, x: T, key: T -> int): (r: seq<T>)
    ensures |r| == |s| + 1
    ensures multiset(r) == multiset(s) + multiset{x}
  {
    if s == [] then [x]
    else if key(s[0]) >= key(x) then
      assert s == [s[0]] + s[1..];
      [s[0]] + InsertDesc(s[1..], x, key)
    else
      [x] + s
  }

  /** A first element whose key bounds the rest keeps a list non-increasing. */
  lemma NonIncreasingCons<T>(y: T, t: seq<T>, key: T -> int)
    requires NonIncreasing(t, key)
    requires forall j :: 0 <= j < |t| ==> key(y) >= key(t[j])
    ensures NonIncreasing([y] + t, key)
  {
    var r := [y] + t;
    forall i, j | 0 <= i < j < |r| ensures key(r[i]) >= key(r[j]) {
      assert r[j] == t[j - 1];
      if i > 0 {
        assert r[i] == t[i - 1];
      }
    }
  }

  /** Every element of an insertion is `x` or an element of `s`. */
  lemma InsertDescBound<T>(s: seq<T>, x: T, key: T -> int, bound: int)
    requires key(x) <= bound
    requires forall j :: 0 <= j < |s| ==> key(s[j]) <= bound
    ensures forall j :: 0 <= j < |InsertDesc(s, x, key)| ==> key(InsertDesc(s, x, key)[j]) <= bound
  {
    var r := InsertDesc(s, x, key);
    forall j | 0 <= j < |r| ensures key(r[j]) <= bound {
      assert r[j] in multiset(r);
      if r[j] != x {
        assert r[j] in multiset(s);
        var k :| 0 <= k < |s| && s[k] == r[j];
      }
    }
  }

  lemma {:induction false} InsertDescSorted<T>(s: seq<T>, x: T, key: T -> int)
    requires NonIncreasing(s, key)
    ensures NonIncreasing(InsertDesc(s, x, key), key)
    decreases |s|
  {
    if s != [] && key(s[0]) >= key(x) {
      var t := s[1..];
      InsertDescSorted(t, x, key);
      InsertDescBound(t, x, key, key(s[0]));
      NonIncreasingCons(s[0], InsertDesc(t, x, key), key);
    } else if s != [] {
      NonIncreasingCons(x, s, key);
    }
  }

  /** Stable sort into descending key order, by insertion from the left. */
  function SortDesc<T>(s: seq<T>, key: T -> int): (r: seq<T>)
    ensures |r| == |s|
    ensures multiset(r) == multiset(s)
    ensures NonIncreasing(r, key)
  {
    if s == [] then []
    else
      var init := SortDesc(s[..|s| - 1], key);
      assert s == s[..|s| - 1] + [s[|s| - 1]];
      InsertDescSorted(init, s[|s| - 1], key);
      InsertDesc(init, s[|s| - 1], key)
  }

  /** The elements of `s` whose key is `q`, in their order in `s`. */
  function WithKey<T>(s: seq<T>, key: T -> int, q: int): (r: seq<T>)
    ensures forall i :: 0 <= i < |r| ==> key(r[i]) == q
  {
    if s == [] then []
    else (if key(s[0]) == q then [s[0]] else []) + WithKey(s[1..], key, q)
  }

  lemma {:induction false} WithKeyAppend<T>(a: seq<T>, b: seq<T>, key: T -> int, q: int)
    ensures WithKey(a + b, key, q) == WithKey(a, key, q) + WithKey(b, key, q)
    decreases |a|
  {
    if a != [] {
      assert (a + b)[1..] == a[1..] + b;
      WithKeyAppend(a[1..], b, key, q);
    } else {
      assert a + b == b;
    }
  }

  lemma {:induction false} WithKeyAbsent<T>(s: seq<T>, key: T -> int, q: int)
    requires forall i :: 0 <= i < |s| ==> key(s[i]) < q
    ensures WithKey(s, key, q) == []
    decreases |s|
  {
    if s != [] {
      WithKeyAbsent(s[1..], key, q);
    }
  }

  /** How `WithKey` treats a first element. */
  lemma WithKeyCons<T>(y: T, t: seq<T>, key: T -> int, q: int)
    ensures WithKey([y] + t, key, q) == (if key(y) == q then [y] else []) + WithKey(t, key, q)
  {
    assert ([y] + t)[1..] == t;
  }

  lemma SeqAssoc<T>(a: seq<T>, b: seq<T>, c: seq<T>)
    ensures a + (b + c) == (a + b) + c
  {
  }

  /** The step of `InsertDescStable` where `x` goes past the first element. */
  lemma InsertDescStableStep<T>(y: T, t: seq<T>, x: T, key: T -> int, q: int)
    requires key(y) >= key(x)
    requires WithKey(InsertDesc(t, x, key), key, q)
          == WithKey(t, key, q) + (if key(x) == q then [x] else [])
    ensures WithKey(InsertDesc([y] + t, x, key), key, q)
         == WithKey([y] + t, key, q) + (if key(x) == q then [x] else [])
  {
    var tx: seq<T> := if key(x) == q then [x] else [];
    var hy: seq<T> := if key(y) == q then [y] else [];
    assert ([y] + t)[1..] == t;
    assert InsertDesc([y] + t, x, key) == [y] + InsertDesc(t, x, key);
    WithKeyCons(y, InsertDesc(t, x, key), key, q);
    WithKeyCons(y, t, key, q);
    SeqAssoc(hy, WithKey(t, key, q), tx);
  }

  lemma NonIncreasingTail<T>(y: T, t: seq<T>, key: T -> int)
    requires NonIncreasing([y] + t, key)
    ensures NonIncreasing(t, key)
  {
    var s := [y] + t;
    forall i, j | 0 <= i < j < |t| ensures key(t[i]) >= key(t[j]) {
      assert t[i] == s[i + 1] && t[j] == s[j + 1];
    }
  }

  /** The step of `InsertDescStable` where `x` goes in front. */
  lemma InsertDescFront<T>(s: seq<T>, x: T, key: T -> int, q: int)
    requires NonIncreasing(s, key)
    requires s != [] && key(s[0]) < key(x)
    ensures WithKey(InsertDesc(s, x, key), key, q)
         == WithKey(s, key, q) + (if key(x) == q then [x] else [])
  {
    if key(x) == q {
      forall i | 0 <= i < |s| ensures key(s[i]) < q {
        if i > 0 {
          assert key(s[0]) >= key(s[i]);
        }
      }
      WithKeyAbsent(s, key, q);
    }
    WithKeyCons(x, s, key, q);
  }

  lemma {:induction false} InsertDescStable<T>(s: seq<T>, x: T, key: T -> int, q: int)
    requires NonIncreasing(s, key)
    ensures WithKey(InsertDesc(s, x, key), key, q)
         == WithKey(s, key, q) + (if key(x) == q then [x] else [])
    decreases |s|
  {
    if s == [] {
      WithKeyCons(x, [], key, q);
    } else if key(s[0]) >= key(x) {
      var y, t := s[0], s[1..];
      assert s == [y] + t;
      NonIncreasingTail(y, t, key);
      InsertDescStable(t, x, key, q);
      InsertDescStableStep(y, t, x, key, q);
    } else {
      InsertDescFront(s, x, key, q);
    }
  }

  lemma InsertLastStable<T>(init: seq<T>, last: T, key: T -> int, q: int)
    requires WithKey(SortDesc(init, key), key, q) == WithKey(init, key, q)
    ensures WithKey(InsertDesc(SortDesc(init, key), last, key), key, q) == WithKey(init + [last], key, q)
  {
    InsertDescStable(SortDesc(init, key), last, key, q);
    WithKeyAppend(init, [last], key, q);
    assert [last][1..] == [];
  }

  /** The sort is stable: among elements with equal keys, the order of the
      input is kept. Together with NonIncreasing and the permutation
      property this fixes the output completely. */
  lemma {:induction false} SortDescStable<T>(s: seq<T>, key: T -> int, q: int)
    ensures WithKey(SortDesc(s, key), key, q) == WithKey(s, key, q)
    decreases |s|
  {
    if s != [] {
      var init, last := s[..|s| - 1], s[|s| - 1];
      SortDescStable(init, key, q);
      InsertLastStable(init, last, key, q);
      SortDescLast(s, key);
    }
  }

  /** Sorting a non-empty list inserts its last element into the sorted
      rest. */
  lemma SortDescLast<T>(s: seq<T>, key: T -> int)
    requires s != []
    ensures s == s[..|s| - 1] + [s[|s| - 1]]
    ensures SortDesc(s, key) == InsertDesc(SortDesc(s[..|s| - 1], key), s[|s| - 1], key)
  {
    assert s == s[..|s| - 1] + [s[|s| - 1]];
  }

  /** In a list without repeats every element occurs once. */
  lemma {:induction false} DistinctOccursOnce<T>(s: seq<T>, x: T)
    requires Distinct(s)
    ensures multiset(s)[x] <= 1
    decreases |s|
  {
    if s != [] {
      assert s == [s[0]] + s[1..];
      DistinctOccursOnce(s[1..], x);
      if s[0] == x {
        assert x !in s[1..];
      }
    }
  }

  /** An element at two positions occurs at least twice. */
  lemma OccursTwice<T>(b: seq<T>, i: nat, j: nat)
    requires i < j < |b| && b[i] == b[j]
    ensures multiset(b)[b[i]] >= 2
  {
    assert b == b[..j] + [b[j]] + b[j + 1..];
    assert b[..j][i] == b[i];
  }

  /** A rearrangement of a list without repeats has no repeats. */
  lemma DistinctPermutation<T>(a: seq<T>, b: seq<T>)
    requires multiset(a) == multiset(b)
    requires Distinct(a)
    ensures Distinct(b)
  {
    forall i, j | 0 <= i < j < |b| ensures b[i] != b[j] {
      if b[i] == b[j] {
        DistinctOccursOnce(a, b[i]);
        OccursTwice(b, i, j);
      }
    }
  }

  /** Appending an element not yet present keeps a list without repeats. */
  lemma DistinctAppend<T>(s: seq<T>, x: T)
    requires Distinct(s) && x !in s
    ensures Distinct(s + [x])
  {
    var r := s + [x];
    forall i, j | 0 <= i < j < |r| ensures r[i] != r[j] {
      if j == |s| {
        assert r[i] == s[i];
      } else {
        assert r[i] == s[i] && r[j] == s[j];
      }
    }
  }

  /** The keys of a table, each once, in an order the table does not fix
      (the order rows come back from a store). */
  method EnumerateKeys<K, V>(m: map<K, V>) returns (ks: seq<K>)
    ensures Distinct(ks)
    ensures forall k :: k in m <==> k in ks
    ensures |ks| == |m.Keys|
  {
    ks := [];
    var rest := m.Keys;
    while rest != {}
      invariant rest <= m.Keys
      invariant Distinct(ks)
      invariant forall k :: k in m <==> (k in ks || k in rest)
      invariant forall k :: k in ks ==> k !in rest
      invariant |ks| + |rest| == |m.Keys|
      decreases |rest|
    {
      var k :| k in rest;
      ks := ks + [k];
      rest := rest - {k};
    }
  }

  /** `Array.prototype.slice(start, end)`: a negative index counts from the
      end, and indices are clamped to the list. */
  function SliceIndex(x: int, n: nat): (r: nat)
    ensures r <= n
    ensures 0 <= x ==> r == if x < n then x else n
  {
    if x < 0 then (if n + x < 0 then 0 else n + x) else if x < n then x else n
  }

  function JsSlice<T>(s: seq<T>, start: int, end: int): (r: seq<T>)
    ensures |r| <= |s|
  {
    var lo, hi := SliceIndex(start, |s|), SliceIndex(end, |s|);
    if lo < hi then s[lo..hi] else []
  }

  /** For a window that starts at a non-negative offset the slice is the
      run of at most `count` elements that begins there. */
  lemma JsSliceWindow<T>(s: seq<T>, start: int, count: int)
    requires 0 <= start && 0 <= count
    ensures |JsSlice(s, start, start + count)| <= count
    ensures start >= |s| ==> JsSlice(s, start, start + count) == []
    ensures start < |s| ==>
      JsSlice(s, start, start + count) == s[start..if start + count < |s| then start + count else |s|]
  {
  }

  /** The `skip`/`take` window of a query over an ordered result. */
  function Window<T>(s: seq<T>, skip: nat, take: nat): (r: seq<T>)
    ensures |r| <= take
    ensures skip >= |s| ==> r == []
    ensures forall i :: 0 <= i < |r| ==> skip + i < |s| && r[i] == s[skip + i]
    ensures skip <= |s| ==> |r| == if |s| - skip < take then |s| - skip else take
  {
    if skip >= |s| then [] else s[skip..if skip + take < |s| then skip + take else |s|]
  }

  /** On a non-negative offset and count, `slice(skip, skip + take)` is the
      same window a `skip`/`take` query returns. */
  lemma JsSliceIsWindow<T>(s: seq<T>, skip: nat, take: nat)
    ensures JsSlice(s, skip, skip + take) == Window(s, skip, take)
  {
    JsSliceWindow(s, skip, take);
  }
}
