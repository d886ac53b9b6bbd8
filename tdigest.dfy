/**
  The mergeable quantile digest class of src/common/tdigest.hpp: a buffer of
  raw samples, a list of (mean, weight) centroids and the running total
  weight, updated in place by add, compress, merge and reset and read by
  percentile and total_weight.
*/
module Digest {
  import opened DigestMath

  /** What percentile answers: the invalid_argument exception for q outside
      [0, 1], NaN for an empty digest, or an estimate. */
  datatype Quantile = OutOfRange | NotANumber | Estimate(value: real)

  lemma NonNegativeWeight(s: seq<Centroid>)
    requires Positive(s)
    ensures WeightOf(s) >= 0.0
  {
    if s != [] {
      PositiveWeight(s);
    }
  }

  lemma PositiveAppend(a: seq<Centroid>, b: seq<Centroid>)
    requires Positive(a) && Positive(b)
    ensures Positive(a + b)
  {
    forall i | 0 <= i < |a + b| ensures (a + b)[i].weight > 0.0 {
      if i >= |a| {
        assert (a + b)[i] == b[i - |a|];
      }
    }
  }

  class TDigest {
    const compression: real
    /** Raw samples waiting for compression. */
    var buffer: seq<real>
    /** Compressed centroids. */
    var centroids: seq<Centroid>
    var totalWeight: real

    /** The digest's invariant: a positive compression; the total weight is
        one per buffered sample plus the centroid weights; centroid weights
        are positive and their means non-decreasing. */
    ghost predicate Valid()
      reads this
    {
      && compression > 0.0
      && totalWeight == |buffer| as real + WeightOf(centroids)
      && Positive(centroids)
      && SortedByMean(centroids)
    }

    /** The (value, weight) list percentile builds before sorting: the
        centroids followed by the buffered samples. */
    ghost function View(): seq<Centroid>
      reads this
    {
      centroids + Units(buffer)
    }

    /** The allocation step of Create, once the compression is known to be
        positive. */
    constructor (compression: real)
      requires compression > 0.0
      ensures Valid() && this.compression == compression
      ensures buffer == [] && centroids == [] && totalWeight == 0.0
    {
      this.compression := compression;
      buffer, centroids, totalWeight := [], [], 0.0;
    }

    /** TDigest(compression): null stands for the invalid_argument thrown
        when compression is not positive. */
    static method Create(compression: real) returns (d: TDigest?)
      ensures d == null <==> !(compression > 0.0)
      ensures d != null ==> fresh(d) && d.Valid() && d.compression == compression
      ensures d != null ==> d.buffer == [] && d.centroids == [] && d.totalWeight == 0.0
    {
      if !(compression > 0.0) {
        return null;
      }
      d := new TDigest(compression);
    }

    /** add(x): buffers x with weight one; the centroids are untouched. */
    method Add(x: real)
      requires Valid()
      modifies this
      ensures Valid()
      ensures buffer == old(buffer) + [x]
      ensures totalWeight == old(totalWeight) + 1.0
      ensures centroids == old(centroids)
    {
      buffer := buffer + [x];
      totalWeight := totalWeight + 1.0;
    }

    /** compress(): folds the buffered samples and the centroids into new
        centroids; a no-op on an empty digest. */
    method Compress()
      requires Valid()
      modifies this
      ensures Valid()
      ensures old(buffer) == [] && old(centroids) == [] ==> centroids == [] && buffer == []
      ensures buffer == [] && totalWeight == old(totalWeight)
      ensures |centroids| <= |old(buffer)| + |old(centroids)|
      ensures exists sorted ::
        && SortedPermutation(sorted, Units(old(buffer)) + old(centroids))
        && Positive(sorted)
        && centroids == Build(sorted, compression)
    {
      if buffer == [] && centroids == [] {
        assert SortedPermutation([], Units(buffer) + centroids);
        assert centroids == Build([], compression);
        return;
      }
      var merged := Units(buffer) + centroids;
      SamplesFirstFacts(buffer, centroids);
      buffer := [];
      var sorted := SortByMean(merged);
      BuildFrom(sorted);
      BuildProperties(sorted, compression);
    }

    /** merge(other): folds this digest's centroids and samples together
        with other's into new centroids of this digest, clears this buffer and
        adds other's total weight. other itself is read only; it may be this
        digest. */
    method Merge(other: TDigest)
      requires Valid() && other.Valid()
      modifies this
      ensures Valid()
      ensures totalWeight == old(totalWeight) + old(other.totalWeight)
      ensures buffer == []
      ensures |centroids| <= |old(centroids)| + |old(buffer)| + |old(other.centroids)| + |old(other.buffer)|
      ensures exists sorted ::
        && SortedPermutation(sorted, old(centroids) + Units(old(buffer)) + old(other.centroids) + Units(old(other.buffer)))
        && Positive(sorted)
        && centroids == Build(sorted, compression)
      ensures other != this ==>
        other.buffer == old(other.buffer) && other.centroids == old(other.centroids) &&
        other.totalWeight == old(other.totalWeight)
    {
      var merged := centroids + Units(buffer) + other.centroids + Units(other.buffer);
      CombineFacts(centroids, buffer, other.centroids, other.buffer);
      totalWeight := totalWeight + other.totalWeight;
      var sorted := SortByMean(merged);
      buffer := [];
      BuildFrom(sorted);
      BuildProperties(sorted, compression);
    }

    /** percentile(q): nearest-rank lookup over the sorted view. */
    method Percentile(q: real) returns (r: Quantile)
      requires Valid()
      ensures r == OutOfRange <==> !(0.0 <= q <= 1.0)
      ensures r == NotANumber <==> 0.0 <= q <= 1.0 && totalWeight <= 0.0
      ensures r.Estimate? ==> View() != []
      ensures r.Estimate? ==> exists sorted ::
        && SortedPermutation(sorted, View()) && Positive(sorted) && WeightOf(sorted) == totalWeight
        && r.value == NearestRank(sorted, q, totalWeight)
      ensures r.Estimate? && buffer == [] ==> r.value == NearestRank(centroids, q, totalWeight)
    {
      if !(0.0 <= q <= 1.0) {
        return OutOfRange;
      }
      var merged := centroids + Units(buffer);
      PositiveAppend(centroids, Units(buffer));
      WeightOfAppend(centroids, Units(buffer));
      UnitsWeight(buffer);
      NonNegativeWeight(centroids);
      if totalWeight <= 0.0 || merged == [] {
        // both empty cases answer NaN
        return NotANumber;
      }
      if buffer != [] {
        merged := SortByMean(merged);
      } else {
        assert merged == centroids;
      }
      assert SortedPermutation(merged, View()) && Positive(merged);
      var v := Scan(merged, q, totalWeight);
      r := Estimate(v);
    }

    /** reset(): back to the empty digest. */
    method Reset()
      requires Valid()
      modifies this
      ensures Valid()
      ensures buffer == [] && centroids == [] && totalWeight == 0.0
    {
      buffer := [];
      centroids := [];
      totalWeight := 0.0;
    }

    /** total_weight(): one per buffered sample plus the centroid weights. */
    function TotalWeight(): (w: real)
      reads this
      requires Valid()
      ensures w == |buffer| as real + WeightOf(centroids)
      ensures w >= 0.0
    {
      NonNegativeWeight(centroids);
      totalWeight
    }

    /** build_from(merged): the greedy fold of a sorted (value, weight) list
        into centroids. (The source keeps an unused `cumulative`.) */
    method BuildFrom(merged: seq<Centroid>)
      requires compression > 0.0 && Positive(merged)
      modifies this`centroids
      ensures centroids == Build(merged, compression)
    {
      centroids := [];
      if merged == [] {
        return;
      }
      var total := WeightOf(merged);
      var kLimit := 4.0 * total / compression;
      var limit := if 1.0 < kLimit then kLimit else 1.0;
      assert limit == Limit(merged, compression);
      var currentMean := merged[0].mean;
      var currentWeight := merged[0].weight;
      ghost var cur := [merged[0]];
      ghost var done: seq<seq<Centroid>> := [];
      SummarySingle(merged[0]);
      for i := 1 to |merged|
        invariant Greedy(merged[i..], limit, cur, done) == Runs(merged, limit)
        invariant cur != [] && Positive(cur) && WeightOf(cur) > 0.0
        invariant forall k :: 0 <= k < |done| ==> WeightOf(done[k]) > 0.0
        invariant currentWeight == WeightOf(cur) && currentMean == Summary(cur).mean
        invariant centroids == Summaries(done)
      {
        var v, w := merged[i].mean, merged[i].weight;
        assert merged[i..][1..] == merged[i + 1..];
        if currentWeight + w <= limit {
          // merge into the current centroid
          AbsorbMean(cur, merged[i], currentMean, currentWeight);
          currentMean := Absorb(currentMean, currentWeight, v, w);
          currentWeight := currentWeight + w;
          cur := cur + [merged[i]];
        } else {
          // emit the current centroid and start a new one
          centroids := centroids + [Centroid(currentMean, currentWeight)];
          assert (done + [cur])[..|done|] == done;
          done := done + [cur];
          currentMean := v;
          currentWeight := w;
          cur := [merged[i]];
          SummarySingle(merged[i]);
        }
      }
      centroids := centroids + [Centroid(currentMean, currentWeight)];
      assert (done + [cur])[..|done|] == done;
      done := done + [cur];
    }
  }

  /** The list compress assembles: the buffered samples, then the
      centroids. */
  lemma SamplesFirstFacts(buffered: seq<real>, mine: seq<Centroid>)
    requires Positive(mine)
    ensures Positive(Units(buffered) + mine)
    ensures WeightOf(Units(buffered) + mine) == |buffered| as real + WeightOf(mine)
  {
    PositiveAppend(Units(buffered), mine);
    WeightOfAppend(Units(buffered), mine);
    UnitsWeight(buffered);
  }

  /** The list merge assembles: this digest's centroids and samples, then
      the other's. */
  lemma CombineFacts(mine: seq<Centroid>, buffered: seq<real>, theirs: seq<Centroid>, pending: seq<real>)
    requires Positive(mine) && Positive(theirs)
    ensures Positive(mine + Units(buffered) + theirs + Units(pending))
    ensures WeightOf(mine + Units(buffered) + theirs + Units(pending))
      == (|buffered| as real + WeightOf(mine)) + (|pending| as real + WeightOf(theirs))
  {
    var left := mine + Units(buffered);
    PositiveAppend(mine, Units(buffered));
    PositiveAppend(left, theirs);
    PositiveAppend(left + theirs, Units(pending));
    WeightOfAppend(mine, Units(buffered));
    WeightOfAppend(left, theirs);
    WeightOfAppend(left + theirs, Units(pending));
    UnitsWeight(buffered);
    UnitsWeight(pending);
  }

  /** The scan of percentile: the value of the first entry whose
      cumulative weight reaches `target`, else the last entry's value. */
  method Scan(view: seq<Centroid>, q: real, total: real) returns (v: real)
    requires view != []
    ensures v == NearestRank(view, q, total)
  {
    var target := q * total;
    var cumulative := 0.0;
    var i := 0;
    while i < |view|
      invariant 0 <= i <= |view|
      invariant i < |view| ==> i + RankIndex(view[i..], target, cumulative) == RankIndex(view, target, 0.0)
      invariant i == |view| ==> RankIndex(view, target, 0.0) == |view| - 1
    {
      var w := view[i].weight;
      if cumulative + w >= target {
        return view[i].mean;
      }
      assert i + 1 < |view| ==> view[i..][1..] == view[i + 1..];
      cumulative := cumulative + w;
      i := i + 1;
    }
    // the target lies beyond the end: the last value
    return view[|view| - 1].mean;
  }

  /** What percentile's answer is, for any sorted permutation of the digest's
      view it may scan (std::sort is not stable): one of the view's values,
      the smallest for q = 0 and the largest for q = 1. */
  lemma PercentileFacts(sorted: seq<Centroid>, raw: seq<Centroid>, q: real, total: real)
    requires SortedPermutation(sorted, raw) && Positive(sorted)
    requires sorted != [] && WeightOf(sorted) == total && 0.0 <= q <= 1.0
    ensures exists i :: 0 <= i < |raw| && raw[i].mean == NearestRank(sorted, q, total)
    ensures q == 0.0 ==> forall i :: 0 <= i < |raw| ==> NearestRank(sorted, q, total) <= raw[i].mean
    ensures q == 1.0 ==> forall i :: 0 <= i < |raw| ==> raw[i].mean <= NearestRank(sorted, q, total)
  {
    var k := RankIndex(sorted, q * total, 0.0);
    assert sorted[k] in multiset(sorted);
    assert sorted[k] in raw;
    forall i | 0 <= i < |raw| ensures exists j :: 0 <= j < |sorted| && sorted[j] == raw[i] {
      assert raw[i] in multiset(raw);
      assert raw[i] in sorted;
    }
    if q == 0.0 {
      NearestRankAtZero(sorted, total);
    }
    if q == 1.0 {
      NearestRankAtTotal(sorted);
    }
  }

  /** Two percentile calls on the same digest, whatever order std::sort left
      equal values in: a larger q never gives a smaller value, and the same q
      gives the same value. */
  lemma PercentileMonotone(s1: seq<Centroid>, s2: seq<Centroid>, raw: seq<Centroid>, q1: real, q2: real, total: real)
    requires SortedPermutation(s1, raw) && SortedPermutation(s2, raw) && Positive(s1) && Positive(s2)
    requires s1 != [] && total >= 0.0 && q1 <= q2
    ensures s2 != []
    ensures NearestRank(s1, q1, total) <= NearestRank(s2, q2, total)
    ensures NearestRank(s1, q1, total) == NearestRank(s2, q1, total)
  {
    NearestRankMonotone(s1, total, q1, q2);
    NearestRankPermutation(s1, s2, q2, total);
    NearestRankPermutation(s1, s2, q1, total);
  }

  /** n adds on a fresh digest: total_weight() is n. */
  method SampleTotal(compression: real, samples: seq<real>) returns (w: real)
    requires compression > 0.0
    ensures w == |samples| as real
  {
    var d := new TDigest(compression);
    for i := 0 to |samples|
      invariant d.Valid() && d.centroids == []
      invariant d.buffer == samples[..i]
    {
      d.Add(samples[i]);
      assert samples[..i + 1] == samples[..i] + [samples[i]];
    }
    w := d.TotalWeight();
  }
}
