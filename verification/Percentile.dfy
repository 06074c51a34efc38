/** Nearest-rank percentiles over integer samples. */
module Percentile {
  import opened Sorting
  import opened Wrappers

  predicate AtMost(a: int, b: int) { a <= b }

  /** How many samples are at or below a value. */
  function CountAtMost(s: seq<int>, v: int): nat { Sum((x: int) => if x <= v then 1 else 0, s) }

  lemma {:induction false} NoneAtMost(s: seq<int>, v: int)
    requires forall i :: 0 <= i < |s| ==> v < s[i]
    ensures CountAtMost(s, v) == 0
  {
    if s != [] {
      NoneAtMost(s[1..], v);
      assert CountAtMost(s, v) == (if s[0] <= v then 1 else 0) + CountAtMost(s[1..], v);
    }
  }

  /** In ascending order, place `k` is reached by more than `k` samples and by no more below. */
  lemma {:induction false} CountAtPlace(s: seq<int>, k: nat, v: int)
    requires Pairwise(AtMost, s) && k < |s|
    ensures v >= s[k] ==> CountAtMost(s, v) >= k + 1
    ensures v < s[k] ==> CountAtMost(s, v) <= k
  {
    assert CountAtMost(s, v) == (if s[0] <= v then 1 else 0) + CountAtMost(s[1..], v);
    if k > 0 {
      assert AtMost(s[0], s[k]);
      CountAtPlace(s[1..], k - 1, v);
    } else if v < s[0] {
      forall i | 0 <= i < |s| ensures v < s[i] { if i > 0 { assert AtMost(s[0], s[i]); } }
      NoneAtMost(s, v);
    }
  }

  // The nearest rank

  datatype Error = NoSamples | BadPercentile

  function Rank(percentile: nat, count: nat): nat { (percentile * count + 99) / 100 }

  /** The same rank as the negated floor of a negated quotient, at least one. */
  function NegatedFloorRank(percentile: nat, count: nat): int {
    var rank := -((-(percentile * count)) / 100);
    if rank < 1 then 1 else rank
  }

  lemma RankFormulasAgree(percentile: nat, count: nat)
    requires 1 <= percentile <= 100 && count >= 1
    ensures Rank(percentile, count) == NegatedFloorRank(percentile, count)
    ensures 1 <= Rank(percentile, count) <= count
    ensures 100 * (Rank(percentile, count) - 1) < percentile * count <= 100 * Rank(percentile, count)
  {
    var product := percentile * count;
    assert 1 <= product <= 100 * count;
  }

  function NearestRank(sorted: seq<int>, percentile: int): Result<int, Error> {
    if sorted == [] then Err(NoSamples)
    else if !(1 <= percentile <= 100) then Err(BadPercentile)
    else
      RankFormulasAgree(percentile, |sorted|);
      Ok(sorted[Rank(percentile, |sorted|) - 1])
  }

  function PercentileOf(s: seq<int>, percentile: int): Result<int, Error> {
    NearestRank(Sorted(AtMost, s), percentile)
  }

  /** The value is a sample with at least that share of the samples at or below it. */
  predicate Reaches(s: seq<int>, percentile: int, v: int) {
    v in s && 100 * CountAtMost(s, v) >= percentile * |s|
  }

  lemma CountSorted(s: seq<int>, v: int)
    ensures CountAtMost(Sorted(AtMost, s), v) == CountAtMost(s, v)
  {
    SumSorted((x: int) => if x <= v then 1 else 0, AtMost, s);
  }

  lemma RankedReaches(s: seq<int>, percentile: int)
    requires s != [] && 1 <= percentile <= 100
    ensures Reaches(s, percentile, PercentileOf(s, percentile).value)
  {
    var sorted, k := Sorted(AtMost, s), Rank(percentile, |s|) - 1;
    RankFormulasAgree(percentile, |s|);
    SortedIsOrdered(AtMost, s);
    SortedMembers(AtMost, s, sorted[k]);
    CountAtPlace(sorted, k, sorted[k]);
    CountSorted(s, sorted[k]);
  }

  lemma NothingBelowReaches(s: seq<int>, percentile: int, w: int)
    requires s != [] && 1 <= percentile <= 100 && Reaches(s, percentile, w)
    ensures PercentileOf(s, percentile).value <= w
  {
    var sorted, k := Sorted(AtMost, s), Rank(percentile, |s|) - 1;
    RankFormulasAgree(percentile, |s|);
    SortedIsOrdered(AtMost, s);
    CountAtPlace(sorted, k, w);
    CountSorted(s, w);
  }

  /** The nearest rank of samples in any order is the least sample that reaches the share. */
  lemma NearestRankIsLeast(s: seq<int>, percentile: int, v: int)
    requires s != [] && 1 <= percentile <= 100
    ensures PercentileOf(s, percentile) == Ok(v) <==>
      Reaches(s, percentile, v) && forall w :: Reaches(s, percentile, w) ==> v <= w
  {
    RankedReaches(s, percentile);
    forall w | Reaches(s, percentile, w) ensures PercentileOf(s, percentile).value <= w {
      NothingBelowReaches(s, percentile, w);
    }
  }

  lemma RankGrows(p: nat, q: nat, count: nat)
    requires p <= q
    ensures Rank(p, count) <= Rank(q, count)
  {
    assert p * count <= q * count;
  }

  /** A higher percentile is never a smaller value. */
  lemma NearestRankIsMonotone(s: seq<int>, p: int, q: int)
    requires s != [] && 1 <= p <= q <= 100
    ensures PercentileOf(s, p).value <= PercentileOf(s, q).value
  {
    var sorted := Sorted(AtMost, s);
    SortedIsOrdered(AtMost, s);
    RankFormulasAgree(p, |s|);
    RankFormulasAgree(q, |s|);
    RankGrows(p, q, |s|);
    var i, j := Rank(p, |s|) - 1, Rank(q, |s|) - 1;
    assert i < j ==> AtMost(sorted[i], sorted[j]);
  }
}
