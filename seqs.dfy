/** The array pipelines the TypeScript code builds its results with, as functions on sequences:
    Array.prototype.filter, slice(0, n), a reduce that sums, a descending sort by a numeric key, and the
    first-appearance order in which a Map or a plain object keeps the keys it is given. */
module Seqs {

  /** a can be obtained from b by deleting elements: a keeps b's order. */
  predicate IsSubseq<T(==)>(a: seq<T>, b: seq<T>)
    decreases |b|
  {
    if a == [] then true
    else if b == [] then false
    else if a[0] == b[0] then IsSubseq(a[1..], b[1..])
    else IsSubseq(a, b[1..])
  }

  /** s.filter(p): exactly the elements that satisfy p, in the order of s. */
  function Filter<T(==)>(s: seq<T>, p: T -> bool): (r: seq<T>)
    ensures |r| <= |s|
    ensures forall i :: 0 <= i < |r| ==> p(r[i])
  {
    if s == [] then []
    else if p(s[0]) then [s[0]] + Filter(s[1..], p)
    else Filter(s[1..], p)
  }

  /** Filtering with a predicate every element satisfies changes nothing. */
  lemma {:induction false} FilterKeepsAll<T>(s: seq<T>, p: T -> bool)
    requires forall i :: 0 <= i < |s| ==> p(s[i])
    ensures Filter(s, p) == s
  {
    if s != [] {
      FilterKeepsAll(s[1..], p);
    }
  }

  /** Filtering with a predicate no element satisfies leaves nothing. */
  lemma {:induction false} FilterDropsAll<T>(s: seq<T>, p: T -> bool)
    requires forall i :: 0 <= i < |s| ==> !p(s[i])
    ensures Filter(s, p) == []
  {
    if s != [] {
      FilterDropsAll(s[1..], p);
    }
  }

  /** Filtering a concatenation filters each part. */
  lemma {:induction false} FilterAppend<T>(a: seq<T>, b: seq<T>, p: T -> bool)
    ensures Filter(a + b, p) == Filter(a, p) + Filter(b, p)
  {
    if a == [] {
      assert a + b == b;
    } else {
      FilterAppend(a[1..], b, p);
      FilterAppendCons(a[0], a[1..], b, p);
      assert a == [a[0]] + a[1..];
    }
  }

  /** The step of FilterAppend: putting x in front of t keeps the equation for t + b. */
  lemma FilterAppendCons<T>(x: T, t: seq<T>, b: seq<T>, p: T -> bool)
    requires Filter(t + b, p) == Filter(t, p) + Filter(b, p)
    ensures Filter(([x] + t) + b, p) == Filter([x] + t, p) + Filter(b, p)
  {
    ConsAssoc(x, t, b);
    ConsAssoc(x, Filter(t, p), Filter(b, p));
    FilterCons(x, t + b, p);
    FilterCons(x, t, p);
  }

  /** Concatenation re-associates around a first element. */
  lemma ConsAssoc<T>(x: T, u: seq<T>, v: seq<T>)
    ensures ([x] + u) + v == [x] + (u + v)
  {
  }

  /** Filtering a sequence with a first element x keeps x in front exactly when p(x). */
  lemma FilterCons<T>(x: T, s: seq<T>, p: T -> bool)
    ensures Filter([x] + s, p) == if p(x) then [x] + Filter(s, p) else Filter(s, p)
  {
    assert ([x] + s)[0] == x && ([x] + s)[1..] == s;
  }

  /** An element is kept exactly when it is in s and satisfies p. */
  lemma {:induction false} FilterMembers<T>(s: seq<T>, p: T -> bool)
    ensures forall x :: x in Filter(s, p) <==> x in s && p(x)
  {
    if s != [] {
      FilterMembers(s[1..], p);
      assert forall x :: x in s <==> x == s[0] || x in s[1..];
    }
  }

  /** What a filter keeps is a subsequence of what it filtered. */
  lemma {:induction false} FilterIsSubseq<T>(s: seq<T>, p: T -> bool)
    ensures IsSubseq(Filter(s, p), s)
  {
    if s != [] {
      FilterIsSubseq(s[1..], p);
    }
  }

  /** Filtering drops something exactly when some element fails the predicate. */
  lemma {:induction false} FilterShorter<T>(s: seq<T>, p: T -> bool)
    ensures |Filter(s, p)| < |s| <==> exists i :: 0 <= i < |s| && !p(s[i])
  {
    if s != [] {
      FilterShorter(s[1..], p);
      if exists i :: 0 <= i < |s[1..]| && !p(s[1..][i]) {
        var i :| 0 <= i < |s[1..]| && !p(s[1..][i]);
        assert !p(s[i + 1]);
      }
      if exists i :: 0 <= i < |s| && !p(s[i]) {
        var i :| 0 <= i < |s| && !p(s[i]);
        if i > 0 {
          assert !p(s[1..][i - 1]);
        }
      }
    }
  }

  /** Filtering with a predicate that fails on exactly one position drops exactly that element. */
  lemma {:induction false} FilterDropsOne<T>(s: seq<T>, p: T -> bool, k: int)
    requires 0 <= k < |s| && !p(s[k])
    requires forall i :: 0 <= i < |s| && i != k ==> p(s[i])
    ensures Filter(s, p) == s[..k] + s[k + 1..]
  {
    if k == 0 {
      FilterKeepsAll(s[1..], p);
      assert s[..0] + s[1..] == s[1..];
    } else {
      FilterDropsOne(s[1..], p, k - 1);
      assert s[..k] + s[k + 1..] == [s[0]] + (s[1..][..k - 1] + s[1..][k..]);
    }
  }

  /** Two predicates that agree on every element filter alike. */
  lemma {:induction false} FilterCongruent<T>(s: seq<T>, p: T -> bool, q: T -> bool)
    requires forall i :: 0 <= i < |s| ==> p(s[i]) == q(s[i])
    ensures Filter(s, p) == Filter(s, q)
  {
    if s != [] {
      FilterCongruent(s[1..], p, q);
    }
  }

  /** Two filters can be applied in either order. */
  lemma {:induction false} FilterCommute<T>(s: seq<T>, p: T -> bool, q: T -> bool)
    ensures Filter(Filter(s, p), q) == Filter(Filter(s, q), p)
  {
    if s != [] {
      FilterCommute(s[1..], p, q);
    }
  }

  /** Filtering by p and then by q is filtering once by a test that holds where both do. */
  lemma {:induction false} FilterBoth<T>(s: seq<T>, p: T -> bool, q: T -> bool, pq: T -> bool)
    requires forall x :: pq(x) == (p(x) && q(x))
    ensures Filter(s, pq) == Filter(Filter(s, p), q)
  {
    if s != [] {
      FilterBoth(s[1..], p, q, pq);
    }
  }

  /** Number of elements of s that satisfy p. */
  function CountWhere<T(==)>(s: seq<T>, p: T -> bool): nat {
    |Filter(s, p)|
  }

  /** s.reduce((sum, x) => sum + f(x), 0). */
  function Sum<T>(s: seq<T>, f: T -> int): int {
    if s == [] then 0 else f(s[0]) + Sum(s[1..], f)
  }

  lemma {:induction false} SumAppend<T>(a: seq<T>, b: seq<T>, f: T -> int)
    ensures Sum(a + b, f) == Sum(a, f) + Sum(b, f)
  {
    if a == [] {
      assert a + b == b;
    } else {
      SumAppend(a[1..], b, f);
      assert (a + b)[0] == a[0] && (a + b)[1..] == a[1..] + b;
    }
  }

  /** A sum of non-negative terms is non-negative and at least each term. */
  lemma {:induction false} SumNonNegative<T>(s: seq<T>, f: T -> int)
    requires forall i :: 0 <= i < |s| ==> f(s[i]) >= 0
    ensures Sum(s, f) >= 0
    ensures forall i :: 0 <= i < |s| ==> f(s[i]) <= Sum(s, f)
  {
    if s != [] {
      SumNonNegative(s[1..], f);
      forall i | 1 <= i < |s| ensures f(s[i]) <= Sum(s, f) {
        assert s[i] == s[1..][i - 1];
      }
    }
  }

  /** s.slice(0, limit): the first limit elements, or, for a negative limit, all but the last -limit. */
  function Slice<T>(s: seq<T>, limit: int): (r: seq<T>)
    ensures |r| <= |s| && r == s[..|r|]
    ensures 0 <= limit ==> |r| == if limit < |s| then limit else |s|
    ensures limit < 0 ==> |r| == if |s| + limit < 0 then 0 else |s| + limit
  {
    if limit < 0 then (if |s| + limit < 0 then [] else s[..|s| + limit])
    else if limit < |s| then s[..limit]
    else s
  }

  /** Non-increasing by key. */
  predicate SortedDesc<T>(s: seq<T>, key: T -> int) {
    forall i, j :: 0 <= i < j < |s| ==> key(s[i]) >= key(s[j])
  }

  /** Inserts x after every element whose key is at least x's (so the sort below is stable). */
  function InsertDesc<T>(x: T, s: seq<T>, key: T -> int): (r: seq<T>)
    ensures |r| == |s| + 1
  {
    if s == [] then [x]
    else if key(s[0]) >= key(x) then [s[0]] + InsertDesc(x, s[1..], key)
    else [x] + s
  }

  /** An upper bound on the keys of x and of s bounds the keys after the insertion. */
  lemma {:induction false} InsertDescBound<T>(x: T, s: seq<T>, key: T -> int, b: int)
    requires key(x) <= b
    requires forall i :: 0 <= i < |s| ==> key(s[i]) <= b
    ensures forall i :: 0 <= i < |s| + 1 ==> key(InsertDesc(x, s, key)[i]) <= b
  {
    if s != [] && key(s[0]) >= key(x) {
      InsertDescBound(x, s[1..], key, b);
    }
  }

  /** Inserting adds exactly x. */
  lemma {:induction false} InsertDescPermutes<T>(x: T, s: seq<T>, key: T -> int)
    ensures multiset(InsertDesc(x, s, key)) == multiset(s) + multiset{x}
  {
    if s != [] && key(s[0]) >= key(x) {
      InsertDescPermutes(x, s[1..], key);
      assert s == [s[0]] + s[1..];
    }
  }

  /** Inserting into a non-increasing sequence keeps it non-increasing. */
  lemma {:induction false} InsertDescSorted<T>(x: T, s: seq<T>, key: T -> int)
    requires SortedDesc(s, key)
    ensures SortedDesc(InsertDesc(x, s, key), key)
  {
    if s != [] && key(s[0]) >= key(x) {
      var rest := InsertDesc(x, s[1..], key);
      InsertDescSorted(x, s[1..], key);
      InsertDescBound(x, s[1..], key, key(s[0]));
      var r := [s[0]] + rest;
      forall i, j | 0 <= i < j < |r| ensures key(r[i]) >= key(r[j]) {
        assert r[j] == rest[j - 1];
        if i > 0 {
          assert r[i] == rest[i - 1];
        }
      }
    }
  }

  /** arr.sort((a, b) => key(b) - key(a)) as an insertion sort. */
  function SortDesc<T>(s: seq<T>, key: T -> int): (r: seq<T>)
    ensures |r| == |s|
  {
    if s == [] then [] else InsertDesc(s[|s| - 1], SortDesc(s[..|s| - 1], key), key)
  }

  /** The sort returns a non-increasing permutation of its input. */
  lemma {:induction false} SortDescSpec<T>(s: seq<T>, key: T -> int)
    ensures SortedDesc(SortDesc(s, key), key)
    ensures multiset(SortDesc(s, key)) == multiset(s)
  {
    if s != [] {
      SortDescSpec(s[..|s| - 1], key);
      InsertDescSorted(s[|s| - 1], SortDesc(s[..|s| - 1], key), key);
      InsertDescPermutes(s[|s| - 1], SortDesc(s[..|s| - 1], key), key);
      assert s == s[..|s| - 1] + [s[|s| - 1]];
    }
  }

  /** When pre + rest is non-increasing, no element of rest has a key above one of pre. */
  lemma SortedSplitBelow<T>(pre: seq<T>, rest: seq<T>, key: T -> int)
    requires SortedDesc(pre + rest, key)
    ensures forall x | x in multiset(rest) :: forall i :: 0 <= i < |pre| ==> key(x) <= key(pre[i])
  {
    forall x | x in multiset(rest)
      ensures forall i :: 0 <= i < |pre| ==> key(x) <= key(pre[i])
    {
      var p :| 0 <= p < |rest| && rest[p] == x;
      forall i | 0 <= i < |pre| ensures key(x) <= key(pre[i]) {
        assert (pre + rest)[i] == pre[i] && (pre + rest)[|pre| + p] == x;
      }
    }
  }

  /** The first limit elements by descending key: sort, then slice(0, limit). */
  function TopBy<T>(s: seq<T>, key: T -> int, limit: int): seq<T> {
    Slice(SortDesc(s, key), limit)
  }

  /** The sorted elements after the top list are exactly those of s the top list leaves out. */
  lemma TopByRest<T>(s: seq<T>, key: T -> int, limit: int)
    ensures SortedDesc(TopBy(s, key, limit), key)
    ensures multiset(TopBy(s, key, limit)) <= multiset(s)
    ensures forall x | x in multiset(s) - multiset(TopBy(s, key, limit)) ::
      forall i :: 0 <= i < |TopBy(s, key, limit)| ==> key(x) <= key(TopBy(s, key, limit)[i])
  {
    var sorted := SortDesc(s, key);
    var r := TopBy(s, key, limit);
    var rest := sorted[|r|..];
    SortDescSpec(s, key);
    assert sorted == r + rest;
    SortedSplitBelow(r, rest, key);
    assert multiset(sorted) == multiset(r) + multiset(rest);
  }

  /** The top list has the length slice gives, is ordered by descending key, is drawn from s, and every
      element of s left out, counted with multiplicity, has a key no larger than any key kept. */
  lemma TopBySpec<T>(s: seq<T>, key: T -> int, limit: int)
    ensures 0 <= limit ==> |TopBy(s, key, limit)| == if limit < |s| then limit else |s|
    ensures SortedDesc(TopBy(s, key, limit), key)
    ensures multiset(TopBy(s, key, limit)) <= multiset(s)
    ensures forall x | x in multiset(s) - multiset(TopBy(s, key, limit)) ::
      forall i :: 0 <= i < |TopBy(s, key, limit)| ==> key(x) <= key(TopBy(s, key, limit)[i])
    ensures forall j :: 0 <= j < |s| ==>
      s[j] in TopBy(s, key, limit) || forall i :: 0 <= i < |TopBy(s, key, limit)| ==> key(s[j]) <= key(TopBy(s, key, limit)[i])
  {
    var r := TopBy(s, key, limit);
    TopByRest(s, key, limit);
    forall j | 0 <= j < |s| && s[j] !in r
      ensures forall i :: 0 <= i < |r| ==> key(s[j]) <= key(r[i])
    {
      assert s[j] in multiset(s) - multiset(r);
    }
  }

  /** The keys of s in the order they first appear, each once: the order in which a Map, or an object
      with non-numeric keys, lists the keys set on it. */
  function Distinct<T(==)>(s: seq<T>): (r: seq<T>)
    ensures forall i :: 0 <= i < |r| ==> r[i] in s
    ensures forall i :: 0 <= i < |s| ==> s[i] in r
    ensures NoDuplicates(r)
  {
    if s == [] then []
    else
      var d := Distinct(s[..|s| - 1]);
      assert forall i :: 0 <= i < |s| - 1 ==> s[i] == s[..|s| - 1][i];
      if s[|s| - 1] in d then d else d + [s[|s| - 1]]
  }

  lemma DistinctMembers<T>(s: seq<T>, x: T)
    ensures x in Distinct(s) <==> x in s
  {
    if x in Distinct(s) {
      var i :| 0 <= i < |Distinct(s)| && Distinct(s)[i] == x;
    }
    if x in s {
      var i :| 0 <= i < |s| && s[i] == x;
    }
  }

  /** One more key extends the first-appearance order exactly when it is new. */
  lemma DistinctSnoc<T>(s: seq<T>, x: T)
    ensures Distinct(s + [x]) == if x in s then Distinct(s) else Distinct(s) + [x]
    ensures forall y :: y in s + [x] <==> y in s || y == x
  {
    assert (s + [x])[..|s|] == s;
    DistinctMembers(s, x);
  }

  predicate NoDuplicates<T(==)>(s: seq<T>) {
    forall i, j :: 0 <= i < j < |s| ==> s[i] != s[j]
  }

  /** Filtering a duplicate-free sequence leaves it duplicate-free. */
  lemma {:induction false} FilterNoDuplicates<T>(s: seq<T>, p: T -> bool)
    requires NoDuplicates(s)
    ensures NoDuplicates(Filter(s, p))
  {
    if s != [] {
      FilterNoDuplicates(s[1..], p);
      FilterMembers(s[1..], p);
      assert s[0] !in s[1..];
    }
  }

  /** The sum over keys of how often each occurs in m. */
  function SumCounts<T(==)>(keys: seq<T>, m: multiset<T>): nat {
    if keys == [] then 0 else m[keys[0]] + SumCounts(keys[1..], m)
  }

  lemma {:induction false} SumCountsAppend<T>(keys: seq<T>, k: T, m: multiset<T>)
    ensures SumCounts(keys + [k], m) == SumCounts(keys, m) + m[k]
  {
    if keys == [] {
      assert keys + [k] == [k];
    } else {
      SumCountsAppend(keys[1..], k, m);
      assert (keys + [k])[1..] == keys[1..] + [k];
    }
  }

  /** Adding one occurrence of x raises the sum by one exactly when x is among the (distinct) keys. */
  lemma {:induction false} SumCountsAdd<T>(keys: seq<T>, m: multiset<T>, x: T)
    requires NoDuplicates(keys)
    ensures SumCounts(keys, m + multiset{x}) == SumCounts(keys, m) + (if x in keys then 1 else 0)
  {
    if keys != [] {
      SumCountsAdd(keys[1..], m, x);
      assert x in keys <==> x == keys[0] || x in keys[1..] by {
        assert keys == [keys[0]] + keys[1..];
      }
      if x == keys[0] {
        assert x !in keys[1..];
      }
    }
  }

  /** Counting every distinct key of s adds up to the length of s: grouping loses and invents nothing. */
  lemma {:induction false} SumCountsDistinct<T>(s: seq<T>)
    ensures SumCounts(Distinct(s), multiset(s)) == |s|
  {
    if s != [] {
      var init, x := s[..|s| - 1], s[|s| - 1];
      assert s == init + [x];
      SumCountsDistinct(init);
      var d := Distinct(init);
      SumCountsAdd(d, multiset(init), x);
      if x !in d {
        SumCountsAppend(d, x, multiset(s));
        assert multiset(init)[x] == 0;
      }
    }
  }
}
