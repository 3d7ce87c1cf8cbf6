/** The grouping step both stores use for their file-type breakdown: a loop that counts keys into a
    keyed table whose keys come back in first-insertion order, and the rows built from it. */
module Stats {
  import opened Seqs
  import opened Format

  /** One row of the file-type breakdown: the group, how many files fall in it, its rounded share in
      percent, and the colour the chart draws it with. */
  datatype TypeStat = TypeStat(kind: string, count: nat, percentage: int, color: string)

  /** The counting loop: the first time a key is seen it gets an entry of 0, then every occurrence adds one.
      The entries come out in the order the keys were first seen. */
  method Tally(keys: seq<string>) returns (order: seq<string>, counts: map<string, nat>)
    ensures order == Distinct(keys)
    ensures forall k :: k in counts <==> k in keys
    ensures forall k :: k in counts ==> counts[k] == multiset(keys)[k]
  {
    order, counts := [], map[];
    var i := 0;
    while i < |keys|
      invariant 0 <= i <= |keys|
      invariant order == Distinct(keys[..i]) && Counted(keys[..i], counts)
    {
      TallyStep(keys, i, order, counts);
      var k := keys[i];
      var next := if k in counts then counts else counts[k := 0];
      if k !in counts {
        order := order + [k];
      }
      counts := next[k := next[k] + 1];
      i := i + 1;
    }
    assert keys[..i] == keys;
  }

  /** One turn of the counting loop takes the table of a prefix of the keys to the table of the prefix
      one longer. */
  lemma TallyStep(keys: seq<string>, i: int, order: seq<string>, counts: map<string, nat>)
    requires 0 <= i < |keys| && order == Distinct(keys[..i]) && Counted(keys[..i], counts)
    ensures var k := keys[i];
      var next := (if k in counts then counts else counts[k := 0]);
      (if k in counts then order else order + [k]) == Distinct(keys[..i + 1]) &&
      Counted(keys[..i + 1], next[k := next[k] + 1])
  {
    var k := keys[i];
    var seen := keys[..i];
    assert keys[..i + 1] == seen + [k];
    assert k in counts <==> k in seen by {
      CountedStep(seen, k, counts);
    }
    assert (if k in counts then order else order + [k]) == Distinct(seen + [k]) by {
      DistinctSnoc(seen, k);
    }
    var next := (if k in counts then counts else counts[k := 0]);
    assert Counted(seen + [k], next[k := next[k] + 1]) by {
      CountedStep(seen, k, counts);
    }
  }

  /** counts holds exactly the keys seen, each with its number of occurrences. */
  ghost predicate Counted(seen: seq<string>, counts: map<string, nat>) {
    (forall x :: x in counts <==> x in seen) &&
    (forall x :: x in counts ==> counts[x] == multiset(seen)[x])
  }

  /** Counting one more key: the table after the step is the table of the longer prefix. */
  lemma CountedStep(seen: seq<string>, k: string, counts: map<string, nat>)
    requires Counted(seen, counts)
    ensures k in counts <==> k in seen
    ensures var next := (if k in counts then counts else counts[k := 0]);
      Counted(seen + [k], next[k := next[k] + 1])
  {
    var next := (if k in counts then counts else counts[k := 0]);
    var after := next[k := next[k] + 1];
    var m := multiset(seen + [k]);
    assert m == multiset(seen) + multiset{k};
    forall x ensures x in after <==> x in seen + [k] {
    }
    forall x | x in after ensures after[x] == m[x] {
      if x == k {
        assert next[k] == multiset(seen)[k];
      }
    }
  }

  function TotalCount(stats: seq<TypeStat>): int {
    if stats == [] then 0 else stats[0].count + TotalCount(stats[1..])
  }

  function TotalPercentage(stats: seq<TypeStat>): int {
    if stats == [] then 0 else stats[0].percentage + TotalPercentage(stats[1..])
  }

  /** Rows whose counts are the tallies of their keys add up to the sum of those tallies. */
  lemma {:induction false} TotalCountIsSum(stats: seq<TypeStat>, keys: seq<string>, m: multiset<string>)
    requires |stats| == |keys|
    requires forall k :: 0 <= k < |stats| ==> stats[k].count == m[keys[k]]
    ensures TotalCount(stats) == SumCounts(keys, m)
  {
    if stats != [] {
      TotalCountIsSum(stats[1..], keys[1..], m);
    }
  }

  /** Rounding every row's share to a whole percent moves the total by at most half a percent per row:
      2 * n * (sum of percentages) is within n * (number of rows) of 200 * (sum of counts). */
  lemma {:induction false} PercentagesNearShare(stats: seq<TypeStat>, n: int)
    requires n > 0
    requires forall k :: 0 <= k < |stats| ==> stats[k].percentage == Percent(stats[k].count, n)
    ensures n * (2 * TotalPercentage(stats) - |stats|) <= 200 * TotalCount(stats)
    ensures 200 * TotalCount(stats) < n * (2 * TotalPercentage(stats) + |stats|) || stats == []
  {
    if stats != [] {
      var p, c := stats[0].percentage, stats[0].count;
      PercentagesNearShare(stats[1..], n);
      assert n * (2 * p - 1) <= 2 * (c * 100) < n * (2 * p + 1);
      NearShareStep(n, p, c, TotalPercentage(stats[1..]), TotalCount(stats[1..]), |stats| - 1);
    }
  }

  /** One more row: its own rounding error adds at most half a percent to the bounds of the rest. */
  lemma NearShareStep(n: int, p: int, c: int, restP: int, restC: int, m: nat)
    requires n * (2 * p - 1) <= 2 * (c * 100) < n * (2 * p + 1)
    requires n * (2 * restP - m) <= 200 * restC
    requires 200 * restC < n * (2 * restP + m) || (m == 0 && restP == 0 && restC == 0)
    ensures n * (2 * (p + restP) - (1 + m)) <= 200 * (c + restC)
    ensures 200 * (c + restC) < n * (2 * (p + restP) + (1 + m))
  {
    assert n * (2 * (p + restP) - (1 + m)) == n * (2 * p - 1) + n * (2 * restP - m);
    assert n * (2 * (p + restP) + (1 + m)) == n * (2 * p + 1) + n * (2 * restP + m);
    assert 200 * (c + restC) == 2 * (c * 100) + 200 * restC;
  }

  /** When the counts add up to the whole, the percentages add up to 100 give or take half a point per
      row. */
  lemma PercentagesNear100(stats: seq<TypeStat>, n: int)
    requires n > 0
    requires forall k :: 0 <= k < |stats| ==> stats[k].percentage == Percent(stats[k].count, n)
    requires TotalCount(stats) == n
    ensures 200 - |stats| < 2 * TotalPercentage(stats) <= 200 + |stats|
  {
    PercentagesNearShare(stats, n);
    var P, m := TotalPercentage(stats), |stats|;
    if 2 * P - m > 200 {
      MulMonotone(n, 201, 2 * P - m);
    }
    if 2 * P + m <= 200 {
      MulMonotone(n, 2 * P + m, 200);
    }
  }
}
