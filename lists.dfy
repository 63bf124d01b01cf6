/** The array operations the application uses on query results: `filter`, `slice(0, n)`,
    `Array.from(new Set(xs))` and the stable `sort` with a numeric comparator. */
module Lists {

  predicate NoDup<T(==)>(s: seq<T>) {
    forall i, j :: 0 <= i < j < |s| ==> s[i] != s[j]
  }

  /** `s.filter(p)`: the elements satisfying `p`, in their original order. */
  function Filter<T(!new)>(s: seq<T>, p: T -> bool): (r: seq<T>)
    ensures |r| <= |s|
  {
    if s == [] then [] else Filter(s[..|s| - 1], p) + (if p(s[|s| - 1]) then [s[|s| - 1]] else [])
  }

  /** The filter keeps exactly the elements that satisfy the predicate. */
  lemma {:induction false} FilterMembers<T(!new)>(s: seq<T>, p: T -> bool)
    ensures forall x :: x in Filter(s, p) <==> x in s && p(x)
  {
    if s != [] {
      FilterMembers(s[..|s| - 1], p);
      assert s == s[..|s| - 1] + [s[|s| - 1]];
    }
  }

  lemma {:induction false} FilterAppend<T(!new)>(a: seq<T>, b: seq<T>, p: T -> bool)
    ensures Filter(a + b, p) == Filter(a, p) + Filter(b, p)
  {
    if b != [] {
      assert (a + b)[..|a + b| - 1] == a + b[..|b| - 1];
      FilterAppend(a, b[..|b| - 1], p);
    } else {
      assert a + b == a;
    }
  }

  /** A filter every element passes returns the sequence itself. */
  lemma {:induction false} FilterKeepsAll<T(!new)>(s: seq<T>, p: T -> bool)
    requires forall i :: 0 <= i < |s| ==> p(s[i])
    ensures Filter(s, p) == s
  {
    if s != [] {
      FilterKeepsAll(s[..|s| - 1], p);
      assert s[..|s| - 1] + [s[|s| - 1]] == s;
    }
  }

  /** Filtering a duplicate-free sequence keeps it duplicate-free. */
  lemma {:induction false} FilterNoDup<T(!new)>(s: seq<T>, p: T -> bool)
    requires NoDup(s)
    ensures NoDup(Filter(s, p))
  {
    if s != [] {
      var init := s[..|s| - 1];
      assert NoDup(init);
      FilterNoDup(init, p);
      FilterMembers(init, p);
      assert s[|s| - 1] !in init;
    }
  }

  /** `s.slice(0, n)`. */
  function Take<T>(s: seq<T>, n: nat): (r: seq<T>)
    ensures |r| == if n < |s| then n else |s|
    ensures r <= s
  {
    if n < |s| then s[..n] else s
  }

  /** `Array.from(new Set(s))`: the distinct elements of `s`, each at its first occurrence. */
  function Dedup<T(==,!new)>(s: seq<T>): (r: seq<T>)
    ensures NoDup(r) && |r| <= |s|
    ensures forall x :: x in r <==> x in s
  {
    if s == [] then []
    else
      var r := Dedup(s[..|s| - 1]);
      assert forall x :: x in s <==> x in s[..|s| - 1] || x == s[|s| - 1];
      if s[|s| - 1] in r then r else r + [s[|s| - 1]]
  }

  /** The position of the first occurrence of `x` in `s`. */
  function FirstIndex<T(==)>(s: seq<T>, x: T): (k: nat)
    requires x in s
    ensures k < |s| && s[k] == x && x !in s[..k]
  {
    if s[0] == x then 0 else 1 + FirstIndex(s[1..], x)
  }

  lemma {:induction false} FirstIndexOfPrefix<T>(s: seq<T>, n: nat, x: T)
    requires n <= |s| && x in s[..n]
    ensures FirstIndex(s[..n], x) == FirstIndex(s, x)
  {
    if s[0] != x {
      assert s[..n][1..] == s[1..][..n - 1];
      FirstIndexOfPrefix(s[1..], n - 1, x);
    }
  }

  /** The set built from `s` keeps the order of first occurrence. */
  lemma {:induction false} DedupKeepsFirstOccurrenceOrder<T(!new)>(s: seq<T>)
    ensures forall i, j :: 0 <= i < j < |Dedup(s)| ==> FirstIndex(s, Dedup(s)[i]) < FirstIndex(s, Dedup(s)[j])
  {
    if s != [] {
      var init := s[..|s| - 1];
      DedupKeepsFirstOccurrenceOrder(init);
      var r := Dedup(s);
      var r0 := Dedup(init);
      forall x | x in r0 ensures FirstIndex(s, x) == FirstIndex(init, x) {
        FirstIndexOfPrefix(s, |s| - 1, x);
      }
      if s[|s| - 1] !in r0 {
        assert s[|s| - 1] !in init;
        assert FirstIndex(s, s[|s| - 1]) == |s| - 1;
      }
    }
  }

  /** The first `n` distinct elements are in order of first occurrence, and every element
      left out first occurs after all of them. */
  lemma TakeDedupFirst<T(!new)>(s: seq<T>, n: nat)
    ensures forall i, j :: 0 <= i < j < |Take(Dedup(s), n)| ==>
      Take(Dedup(s), n)[i] in s && Take(Dedup(s), n)[j] in s &&
      FirstIndex(s, Take(Dedup(s), n)[i]) < FirstIndex(s, Take(Dedup(s), n)[j])
    ensures forall u, v :: u in s && u !in Take(Dedup(s), n) && v in Take(Dedup(s), n) ==>
      v in s && FirstIndex(s, v) < FirstIndex(s, u)
  {
    var unique := Dedup(s);
    var kept := Take(unique, n);
    DedupKeepsFirstOccurrenceOrder(s);
    assert forall i :: 0 <= i < |kept| ==> kept[i] == unique[i];
    forall u, v | u in s && u !in kept && v in kept
      ensures v in s && FirstIndex(s, v) < FirstIndex(s, u)
    {
      var i :| 0 <= i < |kept| && kept[i] == v;
      var j :| 0 <= j < |unique| && unique[j] == u;
      assert i < j;
    }
  }

  /** Sorted by non-increasing `key`. */
  predicate SortedDesc<T>(s: seq<T>, key: T -> int) {
    forall i, j :: 0 <= i < j < |s| ==> key(s[i]) >= key(s[j])
  }

  /** Places `x` in front of the first element whose key is not larger than its own. */
  function InsertDesc<T(!new)>(x: T, s: seq<T>, key: T -> int): (r: seq<T>)
    requires SortedDesc(s, key)
    ensures |r| == |s| + 1 && (r[0] == x || (s != [] && r[0] == s[0]))
    ensures SortedDesc(r, key)
    ensures multiset(r) == multiset(s) + multiset{x}
  {
    if s == [] || key(s[0]) <= key(x) then [x] + s
    else
      var t := InsertDesc(x, s[1..], key);
      assert key(t[0]) <= key(s[0]);
      assert multiset(s) == multiset{s[0]} + multiset(s[1..]) by {
        assert s == [s[0]] + s[1..];
      }
      [s[0]] + t
  }

  /** `s.sort((a, b) => key(b) - key(a))`. The comparator sorts by non-increasing key,
      and JavaScript's sort is stable, so equal keys keep their input order. */
  function SortDesc<T(!new)>(s: seq<T>, key: T -> int): (r: seq<T>)
    ensures SortedDesc(r, key)
    ensures multiset(r) == multiset(s) && |r| == |s|
  {
    if s == [] then []
    else
      var t := SortDesc(s[1..], key);
      assert multiset(s) == multiset(s[1..]) + multiset{s[0]} by {
        assert s == [s[0]] + s[1..];
      }
      InsertDesc(s[0], t, key)
  }

  lemma FilterSingle<T(!new)>(a: T, p: T -> bool)
    ensures Filter([a], p) == if p(a) then [a] else []
  {
    assert [a][..0] == [];
  }

  lemma InsertDescUnfold<T(!new)>(x: T, s: seq<T>, key: T -> int)
    requires SortedDesc(s, key) && s != [] && key(s[0]) > key(x)
    ensures SortedDesc(s[1..], key)
    ensures InsertDesc(x, s, key) == [s[0]] + InsertDesc(x, s[1..], key)
  {
  }

  /** Two pieces of which one is empty can be swapped. */
  lemma SwapEmpty<T>(a: seq<T>, b: seq<T>, rest: seq<T>)
    requires a == [] || b == []
    ensures b + (a + rest) == a + (b + rest)
  {
  }

  lemma {:induction false} InsertDescStable<T(!new)>(x: T, s: seq<T>, key: T -> int, p: T -> bool, k: int)
    requires SortedDesc(s, key)
    requires forall a :: p(a) ==> key(a) == k
    ensures Filter(InsertDesc(x, s, key), p) == Filter([x], p) + Filter(s, p)
  {
    if s == [] || key(s[0]) <= key(x) {
      FilterAppend([x], s, p);
    } else {
      InsertDescUnfold(x, s, key);
      var t := InsertDesc(x, s[1..], key);
      InsertDescStable(x, s[1..], key, p, k);
      FilterAppend([s[0]], t, p);
      assert s == [s[0]] + s[1..];
      FilterAppend([s[0]], s[1..], p);
      // key(x) < key(s[0]), so the filter keeps at most one of the two
      FilterSingle(x, p);
      FilterSingle(s[0], p);
      SwapEmpty(Filter([x], p), Filter([s[0]], p), Filter(s[1..], p));
    }
  }

  /** Stability: among elements with one and the same key (`p` selects some of them), the
      sorted result keeps the input order. */
  lemma {:induction false} SortDescStable<T(!new)>(s: seq<T>, key: T -> int, p: T -> bool, k: int)
    requires forall a :: p(a) ==> key(a) == k
    ensures Filter(SortDesc(s, key), p) == Filter(s, p)
  {
    if s != [] {
      SortDescStable(s[1..], key, p, k);
      InsertDescStable(s[0], SortDesc(s[1..], key), key, p, k);
      assert s == [s[0]] + s[1..];
      FilterAppend([s[0]], s[1..], p);
    }
  }

  /** The sum of `f` over the elements of `s`. */
  function SumOf<T>(s: seq<T>, f: T -> int): int {
    if s == [] then 0 else f(s[0]) + SumOf(s[1..], f)
  }

  /** Sorting does not change the sum of any measure of the elements. */
  lemma {:induction false} SortDescSum<T(!new)>(s: seq<T>, key: T -> int, f: T -> int)
    ensures SumOf(SortDesc(s, key), f) == SumOf(s, f)
  {
    if s != [] {
      SortDescSum(s[1..], key, f);
      InsertDescSum(s[0], SortDesc(s[1..], key), key, f);
    }
  }

  lemma {:induction false} InsertDescSum<T(!new)>(x: T, s: seq<T>, key: T -> int, f: T -> int)
    requires SortedDesc(s, key)
    ensures SumOf(InsertDesc(x, s, key), f) == f(x) + SumOf(s, f)
  {
    if s != [] && key(s[0]) > key(x) {
      InsertDescSum(x, s[1..], key, f);
      var t := InsertDesc(x, s[1..], key);
      assert ([s[0]] + t)[1..] == t;
    } else {
      assert ([x] + s)[1..] == s;
    }
  }

  /** No two elements agree on `f`. */
  predicate DistinctBy<T, K(==)>(s: seq<T>, f: T -> K) {
    forall i, j :: 0 <= i < j < |s| ==> f(s[i]) != f(s[j])
  }

  lemma {:induction false} InsertDescDistinctBy<T(!new), K>(x: T, s: seq<T>, key: T -> int, f: T -> K)
    requires SortedDesc(s, key) && DistinctBy(s, f)
    requires forall i :: 0 <= i < |s| ==> f(s[i]) != f(x)
    ensures DistinctBy(InsertDesc(x, s, key), f)
  {
    if s != [] && key(s[0]) > key(x) {
      var t := InsertDesc(x, s[1..], key);
      InsertDescDistinctBy(x, s[1..], key, f);
      forall j | 0 <= j < |t| ensures f(t[j]) != f(s[0]) {
        assert t[j] in multiset(t);
        assert t[j] == x || t[j] in multiset(s[1..]);
      }
    }
  }

  /** Sorting keeps elements distinct on any projection. */
  lemma {:induction false} SortDescDistinctBy<T(!new), K>(s: seq<T>, key: T -> int, f: T -> K)
    requires DistinctBy(s, f)
    ensures DistinctBy(SortDesc(s, key), f)
  {
    if s != [] {
      var t := SortDesc(s[1..], key);
      assert DistinctBy(s[1..], f);
      SortDescDistinctBy(s[1..], key, f);
      forall i | 0 <= i < |t| ensures f(t[i]) != f(s[0]) {
        assert t[i] in multiset(t);
        assert t[i] in s[1..];
      }
      InsertDescDistinctBy(s[0], t, key, f);
    }
  }

  /** Filtering twice by the same predicate is filtering once. */
  lemma {:induction false} FilterIdempotent<T(!new)>(s: seq<T>, p: T -> bool)
    ensures Filter(Filter(s, p), p) == Filter(s, p)
  {
    if s != [] {
      var init := s[..|s| - 1];
      FilterIdempotent(init, p);
      var last := if p(s[|s| - 1]) then [s[|s| - 1]] else [];
      FilterAppend(Filter(init, p), last, p);
    }
  }

  /** A filtered sequence stays distinct on any projection. */
  lemma {:induction false} FilterDistinctBy<T(!new), K>(s: seq<T>, p: T -> bool, f: T -> K)
    requires DistinctBy(s, f)
    ensures DistinctBy(Filter(s, p), f)
  {
    if s != [] {
      var init := s[..|s| - 1];
      assert DistinctBy(init, f);
      FilterDistinctBy(init, p, f);
      var fi := Filter(init, p);
      forall i | 0 <= i < |fi| ensures f(fi[i]) != f(s[|s| - 1]) {
        FilterMembers(init, p);
        assert fi[i] in init;
      }
    }
  }

  /** What a limit cuts off a sorted list ranks no higher than anything it keeps. */
  lemma TakeSortedTop<T>(s: seq<T>, n: nat, key: T -> int)
    requires SortedDesc(s, key)
    ensures forall x, y :: x in s && x !in Take(s, n) && y in Take(s, n) ==> key(y) >= key(x)
  {
    forall x, y | x in s && x !in Take(s, n) && y in Take(s, n) ensures key(y) >= key(x) {
      var j :| 0 <= j < |s| && s[j] == x;
      var i :| 0 <= i < |Take(s, n)| && Take(s, n)[i] == y;
      assert s[i] == y;
      if j < |Take(s, n)| {
        assert false;
      }
    }
  }

  /** Sorting keeps exactly the elements it was given. */
  lemma SortDescMembers<T(!new)>(s: seq<T>, key: T -> int)
    ensures forall x :: x in SortDesc(s, key) <==> x in s
  {
    var sorted := SortDesc(s, key);
    assert forall x :: x in sorted <==> x in multiset(sorted);
    assert forall x :: x in s <==> x in multiset(s);
  }

  /** A prefix of a sorted sequence is sorted. */
  lemma SortedPrefix<T>(s: seq<T>, n: nat, key: T -> int)
    requires SortedDesc(s, key)
    ensures SortedDesc(Take(s, n), key)
  {
    var r := Take(s, n);
    assert forall i :: 0 <= i < |r| ==> r[i] == s[i];
  }

  /** A prefix takes no element more often than the sequence has it. */
  lemma TakeMultiset<T>(s: seq<T>, n: nat)
    ensures multiset(Take(s, n)) <= multiset(s)
  {
    if n < |s| {
      assert s == s[..n] + s[n..];
    }
  }

  /** A filter takes no element more often than the sequence has it. */
  lemma {:induction false} FilterMultiset<T(!new)>(s: seq<T>, p: T -> bool)
    ensures multiset(Filter(s, p)) <= multiset(s)
  {
    if s != [] {
      FilterMultiset(s[..|s| - 1], p);
      assert s == s[..|s| - 1] + [s[|s| - 1]];
    }
  }

  /** A filter keeps every copy of an element that satisfies the predicate and no copy of
      one that does not. */
  lemma {:induction false} FilterCount<T(!new)>(s: seq<T>, p: T -> bool, x: T)
    ensures multiset(Filter(s, p))[x] == if p(x) then multiset(s)[x] else 0
  {
    if s != [] {
      FilterCount(s[..|s| - 1], p, x);
      assert s == s[..|s| - 1] + [s[|s| - 1]];
    }
  }

  /** `r` is `s` with some elements left out and the others in their order. */
  predicate Subsequence<T(==)>(r: seq<T>, s: seq<T>)
    decreases |s|
  {
    if r == [] then true
    else if s == [] then false
    else if r[|r| - 1] == s[|s| - 1] then Subsequence(r[..|r| - 1], s[..|s| - 1])
    else Subsequence(r, s[..|s| - 1])
  }

  /** A filter keeps the order of what it keeps. */
  lemma {:induction false} FilterSubsequence<T(!new)>(s: seq<T>, p: T -> bool)
    ensures Subsequence(Filter(s, p), s)
  {
    if s != [] {
      var init, last := s[..|s| - 1], s[|s| - 1];
      var f := Filter(init, p);
      FilterSubsequence(init, p);
      if p(last) {
        assert Filter(s, p) == f + [last];
        assert (f + [last])[..|f|] == f;
      } else {
        assert Filter(s, p) == f;
        if f != [] {
          FilterMembers(init, p);
          assert f[|f| - 1] in f;
          assert f[|f| - 1] != last;
        }
      }
    }
  }

  /** `order by key desc limit n`: the `n` elements of largest key, largest first, each
      row at most as often as the table holds it. */
  function TopBy<T(!new)>(s: seq<T>, key: T -> int, n: nat): (r: seq<T>)
    ensures |r| <= n && SortedDesc(r, key)
    ensures |r| == if n < |s| then n else |s|
    ensures multiset(r) <= multiset(s)
    ensures forall x :: x in r ==> x in s
    ensures |r| < n ==> forall x :: x in s ==> x in r
    ensures forall x, y :: x in s && x !in r && y in r ==> key(y) >= key(x)
  {
    var sorted := SortDesc(s, key);
    SortDescMembers(s, key);
    TakeSortedTop(sorted, n, key);
    SortedPrefix(sorted, n, key);
    TakeMultiset(sorted, n);
    Take(sorted, n)
  }

  /** `where p order by key desc limit n`. */
  function TopWhere<T(!new)>(s: seq<T>, p: T -> bool, key: T -> int, n: nat): (r: seq<T>)
    ensures |r| <= n && SortedDesc(r, key)
    ensures |r| == if n < |Filter(s, p)| then n else |Filter(s, p)|
    ensures multiset(r) <= multiset(Filter(s, p))
    ensures forall x :: x in r ==> x in s && p(x)
    ensures |r| < n ==> forall x :: x in s && p(x) ==> x in r
    ensures forall x, y :: x in s && p(x) && x !in r && y in r ==> key(y) >= key(x)
  {
    FilterMembers(s, p);
    TopBy(Filter(s, p), key, n)
  }

  /** `s.findIndex(p)`, with `|s|` for "none": the first position whose element satisfies `p`. */
  function FirstWhere<T>(s: seq<T>, p: T -> bool): (k: nat)
    ensures k <= |s|
    ensures k < |s| ==> p(s[k])
    ensures forall j :: 0 <= j < k ==> !p(s[j])
  {
    if s == [] then 0
    else if p(s[0]) then 0
    else 1 + FirstWhere(s[1..], p)
  }

  /** `s.map(f)`. */
  function Map<T, U>(s: seq<T>, f: T -> U): (r: seq<U>)
    ensures |r| == |s| && forall i :: 0 <= i < |s| ==> r[i] == f(s[i])
  {
    seq(|s|, i requires 0 <= i < |s| => f(s[i]))
  }

  lemma MapAppend<T, U>(a: seq<T>, b: seq<T>, f: T -> U)
    ensures Map(a + b, f) == Map(a, f) + Map(b, f)
  {
  }

  /** Taking one element out before mapping takes its image out after. */
  lemma MapRemove<T, U>(b: seq<T>, k: nat, f: T -> U)
    requires k < |b|
    ensures multiset(Map(b, f)) == multiset(Map(b[..k] + b[k + 1..], f)) + multiset{f(b[k])}
  {
    assert b == b[..k] + [b[k]] + b[k + 1..];
    MapAppend(b[..k] + [b[k]], b[k + 1..], f);
    MapAppend(b[..k], [b[k]], f);
    MapAppend(b[..k], b[k + 1..], f);
  }

  /** Taking one element out of a sequence takes one occurrence out of its multiset. */
  lemma RemoveMultiset<T>(b: seq<T>, k: nat)
    requires k < |b|
    ensures multiset(b) == multiset(b[..k] + b[k + 1..]) + multiset{b[k]}
  {
    assert b == b[..k] + [b[k]] + b[k + 1..];
  }

  lemma MultisetCancel<T>(m: multiset<T>, n: multiset<T>, x: T)
    requires m + multiset{x} == n + multiset{x}
    ensures m == n
  {
    assert forall y :: m[y] == (m + multiset{x})[y] - multiset{x}[y];
    assert forall y :: n[y] == (n + multiset{x})[y] - multiset{x}[y];
  }

  /** Mapping two orderings of the same elements gives two orderings of the same images. */
  lemma {:induction false} MapPermutation<T, U>(a: seq<T>, b: seq<T>, f: T -> U)
    requires multiset(a) == multiset(b)
    ensures multiset(Map(a, f)) == multiset(Map(b, f))
    decreases |a|
  {
    if a == [] {
      assert |b| == |multiset(b)| == 0;
    } else {
      var k := MatchingIndex(a, b);
      MapPermutation(a[1..], b[..k] + b[k + 1..], f);
      MapPermutationStep(a, b, k, f);
    }
  }

  /** Where the first element of `a` sits in `b`; the rests are again permutations. */
  lemma MatchingIndex<T>(a: seq<T>, b: seq<T>) returns (k: nat)
    requires a != [] && multiset(a) == multiset(b)
    ensures k < |b| && b[k] == a[0]
    ensures multiset(a[1..]) == multiset(b[..k] + b[k + 1..])
  {
    RemoveMultiset(a, 0);
    assert a[..0] + a[1..] == a[1..];
    var x, ra := a[0], multiset(a[1..]);
    assert multiset(a) == ra + multiset{x};
    assert x in multiset(b);
    k :| 0 <= k < |b| && b[k] == x;
    RemoveMultiset(b, k);
    var rb := multiset(b[..k] + b[k + 1..]);
    assert multiset(b) == rb + multiset{x};
    MultisetCancel(ra, rb, x);
  }

  lemma MapPermutationStep<T, U>(a: seq<T>, b: seq<T>, k: nat, f: T -> U)
    requires a != [] && k < |b| && b[k] == a[0]
    requires multiset(Map(a[1..], f)) == multiset(Map(b[..k] + b[k + 1..], f))
    ensures multiset(Map(a, f)) == multiset(Map(b, f))
  {
    MapRemove(a, 0, f);
    assert a[..0] + a[1..] == a[1..];
    MapRemove(b, k, f);
  }
}
