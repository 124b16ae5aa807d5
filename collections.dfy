/** The two array idioms all three reports are built from: a stable sort by
    a numeric key (`[...xs].sort((a, b) => key(a) - key(b))`; JavaScript's sort
    is stable) and grouping into a dictionary of arrays keyed by a field
    (`if (!acc[k]) acc[k] = []; acc[k].push(x)`, then `Object.entries`). */
module Collections {

  predicate SortedBy<T>(s: seq<T>, key: T -> int) {
    forall i, j :: 0 <= i < j < |s| ==> key(s[i]) <= key(s[j])
  }

  lemma PrefixNext<T>(s: seq<T>, i: int)
    requires 0 <= i < |s|
    ensures s[..i + 1] == s[..i] + [s[i]]
  {
  }

  lemma SortedByTail<T>(s: seq<T>, key: T -> int)
    requires s != [] && SortedBy(s, key)
    ensures SortedBy(s[1..], key)
  {
    forall i, j | 0 <= i < j < |s| - 1 ensures key(s[1..][i]) <= key(s[1..][j]) {
      assert s[1..][i] == s[i + 1] && s[1..][j] == s[j + 1];
    }
  }

  /** The elements of `s` that satisfy `p`, in their order in `s`. */
  function Filter<T>(s: seq<T>, p: T -> bool): (r: seq<T>)
    ensures |r| <= |s|
    decreases |s|
  {
    if s == [] then [] else Filter(s[..|s| - 1], p) + (if p(s[|s| - 1]) then [s[|s| - 1]] else [])
  }

  /** What Filter keeps comes from `s` and passes `p`. */
  lemma {:induction false} FilterMembers<T>(s: seq<T>, p: T -> bool)
    ensures forall x :: x in Filter(s, p) ==> x in s && p(x)
    decreases |s|
  {
    if s != [] {
      FilterMembers(s[..|s| - 1], p);
    }
  }

  /** Filter keeps every element of `s` that passes `p`. */
  lemma {:induction false} FilterKeeps<T>(s: seq<T>, p: T -> bool, i: int)
    requires 0 <= i < |s| && p(s[i])
    ensures s[i] in Filter(s, p)
    decreases |s|
  {
    if i < |s| - 1 {
      FilterKeeps(s[..|s| - 1], p, i);
    }
  }

  /** Filter keeps nothing exactly when nothing passes. */
  lemma FilterEmpty<T>(s: seq<T>, p: T -> bool)
    ensures Filter(s, p) == [] <==> forall i :: 0 <= i < |s| ==> !p(s[i])
  {
    if exists i :: 0 <= i < |s| && p(s[i]) {
      var i :| 0 <= i < |s| && p(s[i]);
      FilterKeeps(s, p, i);
    } else {
      FilterNone(s, p);
    }
  }

  /** The first element Filter keeps is the first element that passes. */
  lemma {:induction false} FilterFirst<T>(s: seq<T>, p: T -> bool)
    requires exists i :: 0 <= i < |s| && p(s[i])
    ensures Filter(s, p) != []
    ensures exists i ::
              && 0 <= i < |s| && p(s[i]) && Filter(s, p)[0] == s[i]
              && forall j :: 0 <= j < i ==> !p(s[j])
    decreases |s|
  {
    var s' := s[..|s| - 1];
    assert forall j :: 0 <= j < |s'| ==> s'[j] == s[j];
    if exists i :: 0 <= i < |s'| && p(s'[i]) {
      FilterFirst(s', p);
      var i :| 0 <= i < |s'| && p(s'[i]) && Filter(s', p)[0] == s'[i]
        && forall j :: 0 <= j < i ==> !p(s'[j]);
      assert Filter(s, p)[0] == s[i];
    } else {
      FilterNone(s', p);
      assert Filter(s, p) == [s[|s| - 1]];
    }
  }

  /** The last element Filter keeps is the last element that passes. */
  lemma {:induction false} FilterLast<T>(s: seq<T>, p: T -> bool)
    requires exists i :: 0 <= i < |s| && p(s[i])
    ensures Filter(s, p) != []
    ensures exists i ::
              && 0 <= i < |s| && p(s[i]) && Filter(s, p)[|Filter(s, p)| - 1] == s[i]
              && forall j :: i < j < |s| ==> !p(s[j])
    decreases |s|
  {
    var s' := s[..|s| - 1];
    if !p(s[|s| - 1]) {
      assert forall j :: 0 <= j < |s'| ==> s'[j] == s[j];
      assert exists i :: 0 <= i < |s'| && p(s'[i]);
      FilterLast(s', p);
      var i :| 0 <= i < |s'| && p(s'[i]) && Filter(s', p)[|Filter(s', p)| - 1] == s'[i]
        && forall j :: i < j < |s'| ==> !p(s'[j]);
      assert Filter(s, p) == Filter(s', p);
      assert s[i] == s'[i];
    }
  }

  /** A subsequence of a sequence with strictly increasing keys has strictly
      increasing keys. */
  lemma {:induction false} FilterKeepsStrictOrder<T>(s: seq<T>, p: T -> bool, key: T -> int)
    requires forall i, j :: 0 <= i < j < |s| ==> key(s[i]) < key(s[j])
    ensures forall i, j :: 0 <= i < j < |Filter(s, p)| ==> key(Filter(s, p)[i]) < key(Filter(s, p)[j])
    decreases |s|
  {
    if s != [] {
      var s' := s[..|s| - 1];
      FilterKeepsStrictOrder(s', p, key);
      FilterMembers(s', p);
      var r' := Filter(s', p);
      forall x | x in r' ensures key(x) < key(s[|s| - 1]) {
        var i :| 0 <= i < |s'| && s'[i] == x;
        assert s[i] == x;
      }
      var r := Filter(s, p);
      assert r == r' + if p(s[|s| - 1]) then [s[|s| - 1]] else [];
      forall i, j | 0 <= i < j < |r| ensures key(r[i]) < key(r[j]) {
        if j < |r'| {
          assert r[i] == r'[i] && r[j] == r'[j];
        } else {
          assert r[i] == r'[i] && r[i] in r' && r[j] == s[|s| - 1];
        }
      }
    }
  }

  /** The test "the key of x is k". */
  function Is<T, K(==)>(key: T -> K, k: K): T -> bool {
    x => key(x) == k
  }

  lemma {:induction false} FilterAppend<T>(a: seq<T>, b: seq<T>, p: T -> bool)
    ensures Filter(a + b, p) == Filter(a, p) + Filter(b, p)
    decreases |b|
  {
    if b == [] {
      assert a + b == a;
    } else {
      var b' := b[..|b| - 1];
      assert (a + b)[..|a + b| - 1] == a + b';
      FilterAppend(a, b', p);
    }
  }

  lemma {:induction false} FilterNone<T>(s: seq<T>, p: T -> bool)
    requires forall i :: 0 <= i < |s| ==> !p(s[i])
    ensures Filter(s, p) == []
    decreases |s|
  {
    if s != [] {
      FilterNone(s[..|s| - 1], p);
    }
  }

  lemma {:induction false} FilterAll<T>(s: seq<T>, p: T -> bool)
    requires forall i :: 0 <= i < |s| ==> p(s[i])
    ensures Filter(s, p) == s
    decreases |s|
  {
    if s != [] {
      var s' := s[..|s| - 1];
      var last := s[|s| - 1];
      assert forall i :: 0 <= i < |s'| ==> p(s'[i]) by {
        forall i | 0 <= i < |s'| ensures p(s'[i]) { assert s'[i] == s[i]; }
      }
      FilterAll(s', p);
      assert p(last);
      assert Filter(s, p) == s' + [last];
      assert s' + [last] == s;
    }
  }

  /** Insert `x` after every element whose key is not larger than its own. */
  function InsertBy<T>(x: T, s: seq<T>, key: T -> int): (r: seq<T>)
    ensures |r| == |s| + 1
    ensures multiset(r) == multiset(s) + multiset{x}
    decreases |s|
  {
    if s == [] || key(s[|s| - 1]) <= key(x) then
      s + [x]
    else
      var s' := s[..|s| - 1];
      assert s == s' + [s[|s| - 1]];
      InsertBy(x, s', key) + [s[|s| - 1]]
  }

  /** Insertion sort by `key`: a permutation of `s` (SortByIsSorted and
      SortByIsStable state the order). */
  function SortBy<T>(s: seq<T>, key: T -> int): (r: seq<T>)
    ensures |r| == |s|
    ensures multiset(r) == multiset(s)
    decreases |s|
  {
    if s == [] then []
    else
      assert s == s[..|s| - 1] + [s[|s| - 1]];
      InsertBy(s[|s| - 1], SortBy(s[..|s| - 1], key), key)
  }

  lemma {:induction false} InsertByIsSorted<T>(x: T, s: seq<T>, key: T -> int)
    requires SortedBy(s, key)
    ensures SortedBy(InsertBy(x, s, key), key)
    decreases |s|
  {
    if s == [] || key(s[|s| - 1]) <= key(x) {
    } else {
      var s' := s[..|s| - 1];
      var last := s[|s| - 1];
      InsertByIsSorted(x, s', key);
      var r' := InsertBy(x, s', key);
      forall y | y in r' ensures key(y) <= key(last) {
        assert y in multiset(r');
        if y != x {
          assert y in multiset(s');
        }
      }
    }
  }

  /** The sort puts the keys in ascending order. */
  lemma {:induction false} SortByIsSorted<T>(s: seq<T>, key: T -> int)
    ensures SortedBy(SortBy(s, key), key)
    decreases |s|
  {
    if s != [] {
      SortByIsSorted(s[..|s| - 1], key);
      InsertByIsSorted(s[|s| - 1], SortBy(s[..|s| - 1], key), key);
    }
  }

  /** A sorted permutation starts at a least element of `s` and ends at a greatest one. */
  lemma SortedPermutationEnds<T>(s: seq<T>, r: seq<T>, key: T -> int)
    requires s != [] && multiset(r) == multiset(s) && SortedBy(r, key)
    ensures |r| == |s| && r[0] in s && r[|r| - 1] in s
    ensures forall x :: x in s ==> key(r[0]) <= key(x) <= key(r[|r| - 1])
  {
    assert |r| == |multiset(r)| == |multiset(s)| == |s|;
    assert r[0] in multiset(r) && r[|r| - 1] in multiset(r);
    forall x | x in s ensures key(r[0]) <= key(x) <= key(r[|r| - 1]) {
      assert x in multiset(s);
      assert x in r;
    }
  }

  lemma {:induction false} InsertByFilter<T>(x: T, s: seq<T>, key: T -> int)
    ensures Filter(InsertBy(x, s, key), Is(key, key(x))) == Filter(s, Is(key, key(x))) + [x]
    decreases |s|
  {
    var p := Is(key, key(x));
    assert p(x);
    if s == [] || key(s[|s| - 1]) <= key(x) {
      var r := s + [x];
      assert r[..|r| - 1] == s;
    } else {
      var s' := s[..|s| - 1];
      var last := s[|s| - 1];
      InsertByFilter(x, s', key);
      var r := InsertBy(x, s', key) + [last];
      assert r[..|r| - 1] == InsertBy(x, s', key);
      assert !p(last);
    }
  }

  lemma {:induction false} InsertByCount<T>(x: T, s: seq<T>, key: T -> int, p: T -> bool)
    ensures |Filter(InsertBy(x, s, key), p)| == |Filter(s, p)| + (if p(x) then 1 else 0)
    decreases |s|
  {
    if s == [] || key(s[|s| - 1]) <= key(x) {
      FilterAppend(s, [x], p);
    } else {
      var s' := s[..|s| - 1];
      InsertByCount(x, s', key, p);
      FilterAppend(InsertBy(x, s', key), [s[|s| - 1]], p);
    }
  }

  /** The sort is stable: the elements that share a key come out in the order
      they went in. */
  lemma {:induction false} SortByIsStable<T>(s: seq<T>, key: T -> int, v: int)
    ensures Filter(SortBy(s, key), Is(key, v)) == Filter(s, Is(key, v))
    decreases |s|
  {
    if s != [] {
      var s' := s[..|s| - 1];
      var x := s[|s| - 1];
      SortByIsStable(s', key, v);
      if key(x) == v {
        InsertByFilter(x, SortBy(s', key), key);
      } else {
        InsertByCount(x, SortBy(s', key), key, Is(key, v));
        InsertByFilterOther(x, SortBy(s', key), key, Is(key, v));
      }
    }
  }

  lemma {:induction false} InsertByFilterOther<T>(x: T, s: seq<T>, key: T -> int, p: T -> bool)
    requires !p(x)
    ensures Filter(InsertBy(x, s, key), p) == Filter(s, p)
    decreases |s|
  {
    if s == [] || key(s[|s| - 1]) <= key(x) {
      FilterAppend(s, [x], p);
    } else {
      var s' := s[..|s| - 1];
      InsertByFilterOther(x, s', key, p);
      FilterAppend(InsertBy(x, s', key), [s[|s| - 1]], p);
      FilterAppend(s', [s[|s| - 1]], p);
      assert s == s' + [s[|s| - 1]];
    }
  }

  /** Sorting keeps how many elements pass any test. */
  lemma {:induction false} SortByCount<T>(s: seq<T>, key: T -> int, p: T -> bool)
    ensures |Filter(SortBy(s, key), p)| == |Filter(s, p)|
    decreases |s|
  {
    if s != [] {
      SortByCount(s[..|s| - 1], key, p);
      InsertByCount(s[|s| - 1], SortBy(s[..|s| - 1], key), key, p);
    }
  }

  /** The distinct keys of `s`, in the order of their first appearance (the
      order `Object.entries` lists the keys of a dictionary filled from `s`). */
  function KeysInOrder<T, K(==)>(s: seq<T>, key: T -> K): (ks: seq<K>)
    ensures forall i, j :: 0 <= i < j < |ks| ==> ks[i] != ks[j]
    ensures forall i :: 0 <= i < |s| ==> key(s[i]) in ks
    ensures forall k :: k in ks ==> exists i :: 0 <= i < |s| && key(s[i]) == k
    decreases |s|
  {
    if s == [] then []
    else
      var s' := s[..|s| - 1];
      var ks := KeysInOrder(s', key);
      assert forall i :: 0 <= i < |s'| ==> s'[i] == s[i];
      if key(s[|s| - 1]) in ks then ks else ks + [key(s[|s| - 1])]
  }

  /** In a list without repetitions the last element is not among the others. */
  lemma DistinctLast<T>(s: seq<T>)
    requires s != [] && forall i, j :: 0 <= i < j < |s| ==> s[i] != s[j]
    ensures s[|s| - 1] !in s[..|s| - 1]
    ensures forall x :: x in s <==> x in s[..|s| - 1] || x == s[|s| - 1]
  {
    assert s == s[..|s| - 1] + [s[|s| - 1]];
  }

  /** The first index of an element with key `k`. */
  function FirstWithKey<T, K(==)>(s: seq<T>, key: T -> K, k: K): (j: nat)
    requires exists i :: 0 <= i < |s| && key(s[i]) == k
    ensures j < |s| && key(s[j]) == k
    ensures forall i :: 0 <= i < j ==> key(s[i]) != k
  {
    if key(s[0]) == k then 0
    else
      assert exists i :: 0 <= i < |s[1..]| && key(s[1..][i]) == k by {
        var i :| 0 <= i < |s| && key(s[i]) == k;
        assert key(s[1..][i - 1]) == k;
      }
      1 + FirstWithKey(s[1..], key, k)
  }

  /** The group of a key that occurs starts with the key's first occurrence. */
  lemma {:induction false} FilterStartsWithFirst<T, K>(s: seq<T>, key: T -> K, k: K)
    requires exists i :: 0 <= i < |s| && key(s[i]) == k
    ensures Filter(s, Is(key, k)) != []
    ensures Filter(s, Is(key, k))[0] == s[FirstWithKey(s, key, k)]
    decreases |s|
  {
    var j := FirstWithKey(s, key, k);
    var s' := s[..|s| - 1];
    if j == |s| - 1 {
      FilterNone(s', Is(key, k));
    } else {
      assert key(s'[j]) == k;
      FilterStartsWithFirst(s', key, k);
      var j' := FirstWithKey(s', key, k);
      assert j' == j by {
        assert forall i :: 0 <= i < |s'| ==> s'[i] == s[i];
      }
    }
  }

  /** `if (!acc[k]) acc[k] = []; acc[k].push(x)` over `s`: the dictionary of
      groups, and the order in which its keys were created. */
  method GroupBy<T, K(==)>(s: seq<T>, key: T -> K) returns (order: seq<K>, groups: map<K, seq<T>>)
    ensures order == KeysInOrder(s, key)
    ensures forall k :: k in groups <==> k in order
    ensures forall k :: k in groups ==> groups[k] == Filter(s, Is(key, k))
  {
    order := [];
    groups := map[];
    for i := 0 to |s|
      invariant order == KeysInOrder(s[..i], key)
      invariant forall k :: k in groups <==> k in order
      invariant forall k :: k in groups ==> groups[k] == Filter(s[..i], Is(key, k))
    {
      assert s[..i + 1][..i] == s[..i];
      var k := key(s[i]);
      if k !in groups {
        FilterNone(s[..i], Is(key, k));
        groups := groups[k := []];
        order := order + [k];
      }
      groups := groups[k := groups[k] + [s[i]]];
    }
    assert s[..|s|] == s;
  }

  /** `for (let i = lo; i < hi; i++) if (keep(i)) out.push(f(i))`: the values
      `f(i)` of the indices that pass `keep`, in ascending order of index. */
  function Collect<U>(lo: int, hi: int, keep: int -> bool, f: int -> U): seq<U>
    decreases hi - lo
  {
    if hi <= lo then [] else Collect(lo, hi - 1, keep, f) + (if keep(hi - 1) then [f(hi - 1)] else [])
  }

  /** One more index: its value is appended when it passes. */
  lemma CollectNext<U>(lo: int, hi: int, keep: int -> bool, f: int -> U)
    requires lo <= hi
    ensures keep(hi) ==> Collect(lo, hi + 1, keep, f) == Collect(lo, hi, keep, f) + [f(hi)]
    ensures !keep(hi) ==> Collect(lo, hi + 1, keep, f) == Collect(lo, hi, keep, f)
  {
  }

  /** The indices from `lo` up to `hi` that pass `keep`, ascending. */
  function Positions(lo: int, hi: int, keep: int -> bool): seq<int> {
    Collect(lo, hi, keep, (i: int) => i)
  }

  /** Exactly the indices that pass are listed, each once, in ascending order. */
  lemma {:induction false} PositionsAreKept(lo: int, hi: int, keep: int -> bool)
    ensures forall i :: i in Positions(lo, hi, keep) <==> lo <= i < hi && keep(i)
    ensures forall k, l :: 0 <= k < l < |Positions(lo, hi, keep)| ==> Positions(lo, hi, keep)[k] < Positions(lo, hi, keep)[l]
    decreases hi - lo
  {
    if hi > lo {
      PositionsAreKept(lo, hi - 1, keep);
      var p' := Positions(lo, hi - 1, keep);
      var p := Positions(lo, hi, keep);
      if keep(hi - 1) {
        assert p == p' + [hi - 1];
        forall k, l | 0 <= k < l < |p| ensures p[k] < p[l] {
          assert p[k] == p'[k] && p[k] in p';
          if l < |p'| {
            assert p[l] == p'[l];
          }
        }
      } else {
        assert p == p';
      }
    }
  }

  /** The `k`-th value collected is `f` of the `k`-th index that passes. */
  lemma {:induction false} CollectAtPositions<U>(lo: int, hi: int, keep: int -> bool, f: int -> U)
    ensures |Collect(lo, hi, keep, f)| == |Positions(lo, hi, keep)|
    ensures forall k :: 0 <= k < |Collect(lo, hi, keep, f)| ==> Collect(lo, hi, keep, f)[k] == f(Positions(lo, hi, keep)[k])
    decreases hi - lo
  {
    if hi > lo {
      CollectAtPositions(lo, hi - 1, keep, f);
      var c', p' := Collect(lo, hi - 1, keep, f), Positions(lo, hi - 1, keep);
      var c, p := Collect(lo, hi, keep, f), Positions(lo, hi, keep);
      if keep(hi - 1) {
        assert c == c' + [f(hi - 1)] && p == p' + [hi - 1];
        forall k | 0 <= k < |c| ensures c[k] == f(p[k]) {
          if k < |c'| {
            assert c[k] == c'[k] && p[k] == p'[k];
          }
        }
      } else {
        assert c == c' && p == p';
      }
    }
  }

  /** Collecting under tests and values that agree on the indices gives the
      same sequence. */
  lemma {:induction false} CollectAgrees<U>(lo: int, hi: int, keep: int -> bool, f: int -> U, keep': int -> bool, f': int -> U)
    requires forall i :: lo <= i < hi ==> keep(i) == keep'(i)
    requires forall i :: lo <= i < hi && keep(i) ==> f(i) == f'(i)
    ensures Collect(lo, hi, keep, f) == Collect(lo, hi, keep', f')
    decreases hi - lo
  {
    if hi > lo {
      CollectAgrees(lo, hi - 1, keep, f, keep', f');
    }
  }

  /** `a` is `b` with some elements left out, the rest in their order. */
  predicate IsSubsequence<T(==)>(a: seq<T>, b: seq<T>)
    decreases |b|
  {
    if a == [] then true
    else if b == [] then false
    else (a[0] == b[0] && IsSubsequence(a[1..], b[1..])) || IsSubsequence(a, b[1..])
  }

  lemma {:induction false} IsSubsequenceReflexive<T>(a: seq<T>)
    ensures IsSubsequence(a, a)
    decreases |a|
  {
    if a != [] {
      IsSubsequenceReflexive(a[1..]);
    }
  }
}
