/**
  The value-level core of the mergeable quantile digest (src/common/tdigest.hpp):
  weighted sums, the sort that compress, merge and percentile apply, the greedy
  fold of build_from and the nearest-rank scan of percentile. Doubles are
  modelled as reals.
*/
module DigestMath {

  /** A (mean, weight) pair. It is both a centroid of the digest and one entry
      of the (value, weight) lists that compress, merge and percentile build;
      a raw sample x becomes Centroid(x, 1.0). */
  datatype Centroid = Centroid(mean: real, weight: real)

  /** Sum of the weights of a list. */
  function WeightOf(s: seq<Centroid>): real
  {
    if s == [] then 0.0 else s[0].weight + WeightOf(s[1..])
  }

  /** Sum of mean * weight over a list. */
  function MomentOf(s: seq<Centroid>): real
  {
    if s == [] then 0.0 else s[0].mean * s[0].weight + MomentOf(s[1..])
  }

  ghost predicate Positive(s: seq<Centroid>)
  {
    forall i :: 0 <= i < |s| ==> s[i].weight > 0.0
  }

  /** Non-decreasing by value, the order `a.first < b.first` sorts into. */
  ghost predicate SortedByMean(s: seq<Centroid>)
  {
    forall i, j :: 0 <= i <= j < |s| ==> s[i].mean <= s[j].mean
  }

  /** What std::sort promises: sorted, and the same multiset of entries. */
  ghost predicate SortedPermutation(sorted: seq<Centroid>, items: seq<Centroid>)
  {
    SortedByMean(sorted) && multiset(sorted) == multiset(items)
  }

  lemma {:induction false} WeightOfAppend(a: seq<Centroid>, b: seq<Centroid>)
    ensures WeightOf(a + b) == WeightOf(a) + WeightOf(b)
    decreases |a|
  {
    if a == [] {
      assert a + b == b;
    } else {
      assert (a + b)[1..] == a[1..] + b;
      WeightOfAppend(a[1..], b);
    }
  }

  lemma {:induction false} MomentOfAppend(a: seq<Centroid>, b: seq<Centroid>)
    ensures MomentOf(a + b) == MomentOf(a) + MomentOf(b)
    decreases |a|
  {
    if a == [] {
      assert a + b == b;
    } else {
      assert (a + b)[1..] == a[1..] + b;
      MomentOfAppend(a[1..], b);
    }
  }

  /** A non-empty list of positive weights has positive total weight. */
  lemma {:induction false} PositiveWeight(s: seq<Centroid>)
    requires s != [] && Positive(s)
    ensures WeightOf(s) > 0.0
    decreases |s|
  {
    if |s| > 1 {
      PositiveWeight(s[1..]);
    }
  }

  // ---------------------------------------------------------------------------
  // Raw samples

  /** The buffered samples as (x, 1.0) entries. */
  function Units(xs: seq<real>): (r: seq<Centroid>)
    ensures |r| == |xs|
    ensures forall i :: 0 <= i < |xs| ==> r[i] == Centroid(xs[i], 1.0)
  {
    if xs == [] then [] else [Centroid(xs[0], 1.0)] + Units(xs[1..])
  }

  /** Each buffered sample weighs exactly 1. */
  lemma {:induction false} UnitsWeight(xs: seq<real>)
    ensures WeightOf(Units(xs)) == |xs| as real
    decreases |xs|
  {
    if xs != [] {
      assert Units(xs)[1..] == Units(xs[1..]);
      UnitsWeight(xs[1..]);
    }
  }

  // ---------------------------------------------------------------------------
  // Sorting by value (std::sort with `a.first < b.first`)

  lemma ConsSorted(x: Centroid, t: seq<Centroid>)
    requires SortedByMean(t)
    requires t != [] ==> x.mean <= t[0].mean
    ensures SortedByMean([x] + t)
  {
    var r := [x] + t;
    forall i, j | 0 <= i <= j < |r| ensures r[i].mean <= r[j].mean {
      if i == 0 && j > 0 {
        assert r[j] == t[j - 1];
      } else if i > 0 {
        assert r[i] == t[i - 1] && r[j] == t[j - 1];
      }
    }
  }

  lemma TailSorted(s: seq<Centroid>)
    requires s != [] && SortedByMean(s)
    ensures SortedByMean(s[1..])
  {
    forall i, j | 0 <= i <= j < |s[1..]| ensures s[1..][i].mean <= s[1..][j].mean {
      assert s[1..][i] == s[i + 1] && s[1..][j] == s[j + 1];
    }
  }

  /** Inserts p into a sorted list before the first entry with a larger value. */
  function InsertByMean(p: Centroid, s: seq<Centroid>): (r: seq<Centroid>)
    requires SortedByMean(s)
    ensures |r| == |s| + 1
    ensures r[0] == p || (s != [] && r[0] == s[0])
    ensures SortedByMean(r)
    decreases |s|
  {
    if s == [] || p.mean <= s[0].mean then
      ConsSorted(p, s);
      [p] + s
    else
      TailSorted(s);
      var t := InsertByMean(p, s[1..]);
      assert |s| > 1 ==> s[1..][0] == s[1];
      ConsSorted(s[0], t);
      [s[0]] + t
  }

  /** Inserting keeps every entry and adds p. */
  lemma {:induction false} InsertMultiset(p: Centroid, s: seq<Centroid>)
    requires SortedByMean(s)
    ensures multiset(InsertByMean(p, s)) == multiset(s) + multiset{p}
    decreases |s|
  {
    if s == [] || p.mean <= s[0].mean {
      assert InsertByMean(p, s) == [p] + s;
    } else {
      var head, tail := s[0], s[1..];
      TailSorted(s);
      var t := InsertByMean(p, tail);
      InsertMultiset(p, tail);
      assert InsertByMean(p, s) == [head] + t;
      assert s == [head] + tail;
      assert multiset([head] + t) == multiset([head]) + multiset(t);
      assert multiset([head] + tail) == multiset([head]) + multiset(tail);
    }
  }

  /** Inserting adds p's weight and keeps the weights positive. */
  lemma InsertWeight(p: Centroid, s: seq<Centroid>)
    requires SortedByMean(s)
    ensures WeightOf(InsertByMean(p, s)) == p.weight + WeightOf(s)
    ensures p.weight > 0.0 && Positive(s) ==> Positive(InsertByMean(p, s))
  {
    InsertAddsWeight(p, s);
    if p.weight > 0.0 && Positive(s) {
      InsertPositive(p, s);
    }
  }

  lemma {:induction false} InsertAddsWeight(p: Centroid, s: seq<Centroid>)
    requires SortedByMean(s)
    ensures WeightOf(InsertByMean(p, s)) == p.weight + WeightOf(s)
    decreases |s|
  {
    var r := InsertByMean(p, s);
    if s == [] || p.mean <= s[0].mean {
      assert r[1..] == s;
    } else {
      TailSorted(s);
      InsertAddsWeight(p, s[1..]);
      assert r[1..] == InsertByMean(p, s[1..]);
    }
  }

  lemma {:induction false} InsertPositive(p: Centroid, s: seq<Centroid>)
    requires SortedByMean(s) && p.weight > 0.0 && Positive(s)
    ensures Positive(InsertByMean(p, s))
    decreases |s|
  {
    var r := InsertByMean(p, s);
    if s == [] || p.mean <= s[0].mean {
      assert r == [p] + s;
    } else {
      TailSorted(s);
      var t := InsertByMean(p, s[1..]);
      InsertPositive(p, s[1..]);
      assert r == [s[0]] + t;
    }
  }

  /** An insertion sort; only its contract (a sorted permutation of the
      input, with the same total weight) is relied on. */
  function SortByMean(s: seq<Centroid>): (r: seq<Centroid>)
    ensures SortedPermutation(r, s)
    ensures |r| == |s|
    ensures WeightOf(r) == WeightOf(s)
    ensures Positive(s) ==> Positive(r)
    decreases |s|
  {
    if s == [] then []
    else
      var t := SortByMean(s[1..]);
      InsertMultiset(s[0], t);
      InsertWeight(s[0], t);
      assert s == [s[0]] + s[1..];
      InsertByMean(s[0], t)
  }

  // ---------------------------------------------------------------------------
  // The fold of build_from, as a split of the sorted list into runs

  /** max(1.0, 4 * total / compression), the weight bound k_limit. */
  function Limit(items: seq<Centroid>, compression: real): (r: real)
    requires compression > 0.0
    ensures r >= 1.0 && r >= 4.0 * WeightOf(items) / compression
    ensures r == 1.0 || r == 4.0 * WeightOf(items) / compression
  {
    var k := 4.0 * WeightOf(items) / compression;
    if 1.0 < k then k else 1.0
  }

  /** The greedy scan: `done` holds the runs already emitted, `cur` the run
      being accumulated, `rest` the entries not yet visited. An entry joins
      `cur` when the weights together stay within `limit`; otherwise `cur` is
      emitted and the entry starts the next run. The last run is always
      emitted. */
  function Greedy(rest: seq<Centroid>, limit: real, cur: seq<Centroid>, done: seq<seq<Centroid>>)
    : seq<seq<Centroid>>
    decreases |rest|
  {
    if rest == [] then done + [cur]
    else if WeightOf(cur) + rest[0].weight <= limit then
      Greedy(rest[1..], limit, cur + [rest[0]], done)
    else
      Greedy(rest[1..], limit, [rest[0]], done + [cur])
  }

  /** The runs build_from folds `items` into. */
  function Runs(items: seq<Centroid>, limit: real): seq<seq<Centroid>>
  {
    if items == [] then [] else Greedy(items[1..], limit, [items[0]], [])
  }

  /** The runs laid end to end. */
  function Flatten(runs: seq<seq<Centroid>>): seq<Centroid>
  {
    if runs == [] then [] else Flatten(runs[..|runs| - 1]) + runs[|runs| - 1]
  }

  ghost predicate WellFormedRun(run: seq<Centroid>, limit: real)
  {
    run != [] && Positive(run) && (|run| >= 2 ==> WeightOf(run) <= limit)
  }

  ghost predicate WellFormedRuns(runs: seq<seq<Centroid>>, limit: real)
  {
    forall k :: 0 <= k < |runs| ==> WellFormedRun(runs[k], limit)
  }

  lemma FlattenSnoc(runs: seq<seq<Centroid>>, run: seq<Centroid>)
    ensures Flatten(runs + [run]) == Flatten(runs) + run
  {
    assert (runs + [run])[..|runs|] == runs;
  }

  lemma {:induction false} GreedyShape(rest: seq<Centroid>, limit: real, cur: seq<Centroid>,
                                       done: seq<seq<Centroid>>)
    requires Positive(rest)
    requires WellFormedRun(cur, limit) && WellFormedRuns(done, limit)
    ensures Flatten(Greedy(rest, limit, cur, done)) == Flatten(done) + cur + rest
    ensures WellFormedRuns(Greedy(rest, limit, cur, done), limit)
    decreases |rest|
  {
    if rest == [] {
      FlattenSnoc(done, cur);
    } else if WeightOf(cur) + rest[0].weight <= limit {
      WeightOfAppend(cur, [rest[0]]);
      assert WeightOf([rest[0]]) == rest[0].weight;
      GreedyShape(rest[1..], limit, cur + [rest[0]], done);
      assert Flatten(done) + (cur + [rest[0]]) + rest[1..] == Flatten(done) + cur + rest;
    } else {
      FlattenSnoc(done, cur);
      GreedyShape(rest[1..], limit, [rest[0]], done + [cur]);
      assert Flatten(done) + cur + [rest[0]] + rest[1..] == Flatten(done) + cur + rest;
    }
  }

  /** build_from's split: the runs are contiguous pieces of the input, laid
      end to end they give back the input, none is empty, and every run of two
      or more entries weighs at most the limit. */
  lemma RunsShape(items: seq<Centroid>, limit: real)
    requires Positive(items)
    ensures Flatten(Runs(items, limit)) == items
    ensures WellFormedRuns(Runs(items, limit), limit)
  {
    if items != [] {
      GreedyShape(items[1..], limit, [items[0]], []);
      assert Flatten([]) + [items[0]] + items[1..] == items;
    }
  }

  /** The centroid a run folds into: its total weight and its weighted mean. */
  function Summary(run: seq<Centroid>): Centroid
    requires WeightOf(run) > 0.0
  {
    Centroid(MomentOf(run) / WeightOf(run), WeightOf(run))
  }

  function Summaries(runs: seq<seq<Centroid>>): (r: seq<Centroid>)
    requires forall k :: 0 <= k < |runs| ==> WeightOf(runs[k]) > 0.0
    ensures |r| == |runs|
    ensures forall k :: 0 <= k < |runs| ==> r[k] == Summary(runs[k])
  {
    if runs == [] then [] else Summaries(runs[..|runs| - 1]) + [Summary(runs[|runs| - 1])]
  }

  lemma RunsWeighPositive(runs: seq<seq<Centroid>>, limit: real)
    requires WellFormedRuns(runs, limit)
    ensures forall k :: 0 <= k < |runs| ==> WeightOf(runs[k]) > 0.0
  {
    forall k | 0 <= k < |runs| ensures WeightOf(runs[k]) > 0.0 {
      PositiveWeight(runs[k]);
    }
  }

  /** The centroids build_from produces from `items`. */
  function Build(items: seq<Centroid>, compression: real): (r: seq<Centroid>)
    requires compression > 0.0 && Positive(items)
    ensures |r| <= |items|
    ensures WeightOf(r) == WeightOf(items)
  {
    var limit := Limit(items, compression);
    var runs := Runs(items, limit);
    RunsShape(items, limit);
    RunsWeighPositive(runs, limit);
    FlattenLength(runs, limit);
    SummariesWeight(runs);
    Summaries(runs)
  }

  // ---------------------------------------------------------------------------
  // Properties of the fold

  lemma {:induction false} MomentAtMost(run: seq<Centroid>, hi: real)
    requires Positive(run)
    requires forall i :: 0 <= i < |run| ==> run[i].mean <= hi
    ensures MomentOf(run) <= hi * WeightOf(run)
    decreases |run|
  {
    if run != [] {
      MomentAtMost(run[1..], hi);
      var m, w := run[0].mean, run[0].weight;
      assert m * w <= hi * w by {
        assert (hi - m) * w >= 0.0;
      }
      assert hi * WeightOf(run) == hi * w + hi * WeightOf(run[1..]);
    }
  }

  lemma {:induction false} MomentAtLeast(run: seq<Centroid>, lo: real)
    requires Positive(run)
    requires forall i :: 0 <= i < |run| ==> lo <= run[i].mean
    ensures lo * WeightOf(run) <= MomentOf(run)
    decreases |run|
  {
    if run != [] {
      MomentAtLeast(run[1..], lo);
      var m, w := run[0].mean, run[0].weight;
      assert lo * w <= m * w by {
        assert (m - lo) * w >= 0.0;
      }
      assert lo * WeightOf(run) == lo * w + lo * WeightOf(run[1..]);
    }
  }

  /** Dividing lo * w <= m <= hi * w by a positive w. */
  lemma DivideBounds(m: real, w: real, lo: real, hi: real)
    requires w > 0.0 && lo * w <= m <= hi * w
    ensures lo <= m / w <= hi
  {
    var q := m / w;
    assert q * w == m;
    assert (q - hi) * w <= 0.0;
    assert (q - lo) * w >= 0.0;
  }

  /** A run's centroid mean lies within any bounds of the run's values. */
  lemma SummaryWithin(run: seq<Centroid>, lo: real, hi: real)
    requires run != [] && Positive(run)
    requires forall i :: 0 <= i < |run| ==> lo <= run[i].mean <= hi
    ensures WeightOf(run) > 0.0
    ensures lo <= Summary(run).mean <= hi
  {
    PositiveWeight(run);
    var m, w := MomentOf(run), WeightOf(run);
    assert lo * w <= m by {
      MomentAtLeast(run, lo);
    }
    assert m <= hi * w by {
      MomentAtMost(run, hi);
    }
    DivideBounds(m, w, lo, hi);
    assert Summary(run).mean == m / w;
  }

  /** A bound on all of Flatten(runs) is a bound on every run. */
  lemma {:induction false} FlattenBounded(runs: seq<seq<Centroid>>, lo: real, hi: real)
    requires forall i :: 0 <= i < |Flatten(runs)| ==> lo <= Flatten(runs)[i].mean <= hi
    ensures forall k, j :: 0 <= k < |runs| && 0 <= j < |runs[k]| ==> lo <= runs[k][j].mean <= hi
    decreases |runs|
  {
    if runs != [] {
      var init, last := runs[..|runs| - 1], runs[|runs| - 1];
      assert Flatten(runs) == Flatten(init) + last;
      assert forall i :: 0 <= i < |Flatten(init)| ==> Flatten(runs)[i] == Flatten(init)[i];
      assert forall j :: 0 <= j < |last| ==> Flatten(runs)[|Flatten(init)| + j] == last[j];
      FlattenBounded(init, lo, hi);
      forall k, j | 0 <= k < |runs| && 0 <= j < |runs[k]| ensures lo <= runs[k][j].mean <= hi {
        if k < |init| {
          assert runs[k] == init[k];
        }
      }
    }
  }

  /** Bounds on all of Flatten(runs) bound every run's centroid mean. */
  lemma SummariesWithin(runs: seq<seq<Centroid>>, limit: real, lo: real, hi: real)
    requires WellFormedRuns(runs, limit)
    requires forall i :: 0 <= i < |Flatten(runs)| ==> lo <= Flatten(runs)[i].mean <= hi
    ensures forall k :: 0 <= k < |runs| ==> WeightOf(runs[k]) > 0.0 && lo <= Summary(runs[k]).mean <= hi
  {
    FlattenBounded(runs, lo, hi);
    forall k | 0 <= k < |runs| ensures WeightOf(runs[k]) > 0.0 && lo <= Summary(runs[k]).mean <= hi {
      SummaryWithin(runs[k], lo, hi);
    }
  }

  /** For a sorted input, the centroid means come out non-decreasing. */
  lemma {:induction false} SummariesSorted(runs: seq<seq<Centroid>>, limit: real)
    requires WellFormedRuns(runs, limit)
    requires SortedByMean(Flatten(runs))
    ensures forall k :: 0 <= k < |runs| ==> WeightOf(runs[k]) > 0.0
    ensures SortedByMean(Summaries(runs))
    decreases |runs|
  {
    RunsWeighPositive(runs, limit);
    if runs != [] {
      var init, last := runs[..|runs| - 1], runs[|runs| - 1];
      var flat := Flatten(init);
      assert Flatten(runs) == flat + last;
      SortedSplit(flat, last);
      assert WellFormedRuns(init, limit) by {
        forall k | 0 <= k < |init| ensures WellFormedRun(init[k], limit) {
          assert init[k] == runs[k];
        }
      }
      SummariesSorted(init, limit);
      assert WellFormedRun(last, limit) by {
        assert last == runs[|runs| - 1];
      }
      var pivot := last[0].mean;
      SummaryWithin(last, pivot, last[|last| - 1].mean);
      if init != [] {
        FlattenMember(init, 0, 0);
        SummariesWithin(init, limit, flat[0].mean, pivot);
      }
      assert Summaries(runs) == Summaries(init) + [Summary(last)];
      SnocSorted(Summaries(init), Summary(last));
    }
  }

  /** Both halves of a sorted sequence are sorted, and the left half lies
      below the right half. */
  lemma SortedSplit(a: seq<Centroid>, b: seq<Centroid>)
    requires SortedByMean(a + b)
    ensures SortedByMean(a) && SortedByMean(b)
    ensures forall i, j :: 0 <= i < |a| && 0 <= j < |b| ==> a[i].mean <= b[j].mean
  {
    forall i, j | 0 <= i <= j < |a| ensures a[i].mean <= a[j].mean {
      assert (a + b)[i] == a[i] && (a + b)[j] == a[j];
    }
    forall i, j | 0 <= i <= j < |b| ensures b[i].mean <= b[j].mean {
      assert (a + b)[|a| + i] == b[i] && (a + b)[|a| + j] == b[j];
    }
    forall i, j | 0 <= i < |a| && 0 <= j < |b| ensures a[i].mean <= b[j].mean {
      assert (a + b)[i] == a[i] && (a + b)[|a| + j] == b[j];
    }
  }

  /** Appending an upper bound keeps a sequence sorted. */
  lemma SnocSorted(s: seq<Centroid>, p: Centroid)
    requires SortedByMean(s)
    requires forall i :: 0 <= i < |s| ==> s[i].mean <= p.mean
    ensures SortedByMean(s + [p])
  {
  }

  lemma {:induction false} FlattenMember(runs: seq<seq<Centroid>>, k: nat, j: nat)
    requires k < |runs| && j < |runs[k]|
    ensures |Flatten(runs)| > 0
    decreases |runs|
  {
    var init, last := runs[..|runs| - 1], runs[|runs| - 1];
    if k < |init| {
      assert init[k] == runs[k];
      FlattenMember(init, k, j);
    }
  }

  lemma {:induction false} FlattenLength(runs: seq<seq<Centroid>>, limit: real)
    requires WellFormedRuns(runs, limit)
    ensures |runs| <= |Flatten(runs)|
    decreases |runs|
  {
    if runs != [] {
      var init := runs[..|runs| - 1];
      assert WellFormedRuns(init, limit) by {
        forall k | 0 <= k < |init| ensures WellFormedRun(init[k], limit) {
          assert init[k] == runs[k];
        }
      }
      FlattenLength(init, limit);
      assert WellFormedRun(runs[|runs| - 1], limit);
    }
  }

  lemma {:induction false} SummariesWeight(runs: seq<seq<Centroid>>)
    requires forall k :: 0 <= k < |runs| ==> WeightOf(runs[k]) > 0.0
    ensures WeightOf(Summaries(runs)) == WeightOf(Flatten(runs))
    decreases |runs|
  {
    if runs != [] {
      var init, last := runs[..|runs| - 1], runs[|runs| - 1];
      assert forall k :: 0 <= k < |init| ==> init[k] == runs[k];
      SummariesWeight(init);
      WeightOfAppend(Summaries(init), [Summary(last)]);
      WeightOfAppend(Flatten(init), last);
      assert WeightOf([Summary(last)]) == WeightOf(last);
    }
  }

  lemma SummariesPositive(runs: seq<seq<Centroid>>)
    requires forall k :: 0 <= k < |runs| ==> WeightOf(runs[k]) > 0.0
    ensures Positive(Summaries(runs))
  {
  }

  /** What build_from guarantees of the centroids it produces: no more
      centroids than entries, the total weight conserved, positive weights,
      at least one centroid for a non-empty input, and for a sorted input
      non-decreasing means. */
  lemma BuildProperties(items: seq<Centroid>, compression: real)
    requires compression > 0.0 && Positive(items)
    ensures |Build(items, compression)| <= |items|
    ensures WeightOf(Build(items, compression)) == WeightOf(items)
    ensures Positive(Build(items, compression))
    ensures items != [] ==> Build(items, compression) != []
    ensures SortedByMean(items) ==> SortedByMean(Build(items, compression))
  {
    var limit := Limit(items, compression);
    var runs := Runs(items, limit);
    RunsShape(items, limit);
    RunsWeighPositive(runs, limit);
    FlattenLength(runs, limit);
    SummariesWeight(runs);
    SummariesPositive(runs);
    if items != [] {
      assert |Flatten(runs)| > 0;
      assert runs != [];
    }
    if SortedByMean(items) {
      SummariesSorted(runs, limit);
    }
  }

  /** Each centroid build_from emits is the fold of one contiguous run of the
      input: the runs laid end to end are the input, the centroid's weight
      is the run's total weight, its mean is the run's weighted mean and, for
      a sorted input, lies between the run's first (smallest) and last
      (largest) value; a run of two or more entries weighs at most
      max(1, 4 * total / compression). */
  lemma BuildRuns(items: seq<Centroid>, compression: real)
    requires compression > 0.0 && Positive(items)
    ensures var runs := Runs(items, Limit(items, compression));
      && Flatten(runs) == items
      && |Build(items, compression)| == |runs|
      && (forall k :: 0 <= k < |runs| ==> runs[k] != [] && WeightOf(runs[k]) > 0.0)
      && (forall k :: 0 <= k < |runs| ==>
            Build(items, compression)[k] == Centroid(MomentOf(runs[k]) / WeightOf(runs[k]), WeightOf(runs[k])))
      && (forall k :: 0 <= k < |runs| && |runs[k]| >= 2 ==> WeightOf(runs[k]) <= Limit(items, compression))
      && (SortedByMean(items) ==> forall k :: 0 <= k < |runs| ==>
            runs[k][0].mean <= Build(items, compression)[k].mean <= runs[k][|runs[k]| - 1].mean)
  {
    var limit := Limit(items, compression);
    var runs := Runs(items, limit);
    RunsShape(items, limit);
    RunsWeighPositive(runs, limit);
    if SortedByMean(items) {
      forall k | 0 <= k < |runs|
        ensures runs[k][0].mean <= Build(items, compression)[k].mean <= runs[k][|runs[k]| - 1].mean
      {
        assert WellFormedRun(runs[k], limit);
        RunSorted(runs, k);
        SummaryWithin(runs[k], runs[k][0].mean, runs[k][|runs[k]| - 1].mean);
      }
    }
  }

  /** Every run of a sorted flattening is itself sorted. */
  lemma {:induction false} RunSorted(runs: seq<seq<Centroid>>, k: nat)
    requires k < |runs|
    requires SortedByMean(Flatten(runs))
    ensures SortedByMean(runs[k])
    decreases |runs|
  {
    var init, last := runs[..|runs| - 1], runs[|runs| - 1];
    var flat := Flatten(init);
    assert Flatten(runs) == flat + last;
    SortedSplit(flat, last);
    if k < |init| {
      assert init[k] == runs[k];
      RunSorted(init, k);
    }
  }

  /** A run of one entry folds into that entry. */
  lemma SummarySingle(p: Centroid)
    requires p.weight > 0.0
    ensures WeightOf([p]) == p.weight
    ensures Summary([p]) == p
  {
    assert [p][1..] == [];
    assert MomentOf([p]) == p.mean * p.weight;
    assert p.mean * p.weight / p.weight == p.mean;
  }

  /** The weighted-mean update of build_from. */
  function Absorb(mean: real, weight: real, v: real, w: real): real
    requires weight + w != 0.0
  {
    (mean * weight + v * w) / (weight + w)
  }

  /** Absorb applied to a run's centroid (mean, weight) gives the centroid
      of the run extended by (v, w). */
  lemma AbsorbMean(run: seq<Centroid>, p: Centroid, mean: real, weight: real)
    requires WeightOf(run) > 0.0 && p.weight > 0.0
    requires mean == Summary(run).mean && weight == WeightOf(run)
    ensures WeightOf(run + [p]) == weight + p.weight > 0.0
    ensures Absorb(mean, weight, p.mean, p.weight) == Summary(run + [p]).mean
  {
    WeightOfAppend(run, [p]);
    MomentOfAppend(run, [p]);
    assert WeightOf([p]) == p.weight;
    assert MomentOf([p]) == p.mean * p.weight;
    assert mean * weight == MomentOf(run);
  }

  // ---------------------------------------------------------------------------
  // The nearest-rank scan of percentile

  /** Index of the first entry whose cumulative weight before it plus its own
      weight reaches `target`, scanning from `cumulative`; the last entry
      when none does. */
  function RankIndex(view: seq<Centroid>, target: real, cumulative: real): (k: nat)
    requires view != []
    ensures k < |view|
    decreases |view|
  {
    if cumulative + view[0].weight >= target || |view| == 1 then 0
    else 1 + RankIndex(view[1..], target, cumulative + view[0].weight)
  }

  /** The value percentile returns for quantile q of total weight `total`:
      the scan's target is q * total. */
  function NearestRank(view: seq<Centroid>, q: real, total: real): (r: real)
    requires view != []
    ensures exists i :: 0 <= i < |view| && view[i].mean == r
  {
    view[RankIndex(view, q * total, 0.0)].mean
  }

  /** Weight of the entries up to and including entry j. */
  function Through(view: seq<Centroid>, j: nat): real
    requires j < |view|
  {
    WeightOf(view[..j + 1])
  }

  /** The index found is the first one whose cumulative weight reaches the
      target; every earlier entry falls short. */
  lemma {:induction false} RankIndexIsFirst(view: seq<Centroid>, target: real, cumulative: real)
    requires view != []
    ensures var k := RankIndex(view, target, cumulative);
      (cumulative + Through(view, k) >= target || k == |view| - 1) &&
      forall j :: 0 <= j < k ==> cumulative + Through(view, j) < target
    decreases |view|
  {
    var k := RankIndex(view, target, cumulative);
    assert view[..1] == [view[0]];
    assert WeightOf([view[0]]) == view[0].weight;
    if !(cumulative + view[0].weight >= target || |view| == 1) {
      var c := cumulative + view[0].weight;
      var tail := view[1..];
      RankIndexIsFirst(tail, target, c);
      forall j | 0 < j <= k ensures cumulative + Through(view, j) == c + Through(tail, j - 1) {
        assert view[..j + 1] == [view[0]] + tail[..j];
        WeightOfAppend([view[0]], tail[..j]);
      }
    }
  }

  /** A larger target never finds an earlier entry. */
  lemma {:induction false} RankIndexMonotone(view: seq<Centroid>, t1: real, t2: real, cumulative: real)
    requires view != [] && t1 <= t2
    ensures RankIndex(view, t1, cumulative) <= RankIndex(view, t2, cumulative)
    decreases |view|
  {
    if !(cumulative + view[0].weight >= t1 || |view| == 1) {
      RankIndexMonotone(view[1..], t1, t2, cumulative + view[0].weight);
    }
  }

  lemma ScaleMonotone(q1: real, q2: real, total: real)
    requires q1 <= q2 && total >= 0.0
    ensures q1 * total <= q2 * total
  {
    assert q2 * total - q1 * total == (q2 - q1) * total;
  }

  /** percentile is monotone in q over a sorted view. */
  lemma NearestRankMonotone(view: seq<Centroid>, total: real, q1: real, q2: real)
    requires view != [] && SortedByMean(view)
    requires total >= 0.0 && q1 <= q2
    ensures NearestRank(view, q1, total) <= NearestRank(view, q2, total)
  {
    ScaleMonotone(q1, q2, total);
    RankIndexMonotone(view, q1 * total, q2 * total, 0.0);
  }

  /** With a non-negative first weight, a target of zero (q = 0) selects the
      first entry, which for a sorted view is the smallest value. */
  lemma NearestRankAtZero(view: seq<Centroid>, total: real)
    requires view != [] && view[0].weight >= 0.0
    ensures NearestRank(view, 0.0, total) == view[0].mean
    ensures SortedByMean(view) ==> forall i :: 0 <= i < |view| ==> NearestRank(view, 0.0, total) <= view[i].mean
  {
    assert 0.0 * total == 0.0;
  }

  lemma {:induction false} RankIndexAtTotal(view: seq<Centroid>, cumulative: real)
    requires view != [] && Positive(view)
    ensures RankIndex(view, cumulative + WeightOf(view), cumulative) == |view| - 1
    decreases |view|
  {
    if |view| > 1 {
      PositiveWeight(view[1..]);
      RankIndexAtTotal(view[1..], cumulative + view[0].weight);
    }
  }

  /** With positive weights, a target of the total weight (q = 1) is reached
      exactly at the last entry, which for a sorted view is the largest
      value: the fallback after the scan is never needed in exact
      arithmetic. */
  lemma NearestRankAtTotal(view: seq<Centroid>)
    requires view != [] && Positive(view)
    ensures NearestRank(view, 1.0, WeightOf(view)) == view[|view| - 1].mean
    ensures Through(view, |view| - 1) == WeightOf(view)
    ensures SortedByMean(view) ==> forall i :: 0 <= i < |view| ==> view[i].mean <= NearestRank(view, 1.0, WeightOf(view))
  {
    RankIndexAtTotal(view, 0.0);
    assert 1.0 * WeightOf(view) == 0.0 + WeightOf(view);
    assert view[..|view|] == view;
  }

  /** For every q in [0, 1] the scan over a view of positive weights stops at
      an entry whose cumulative weight reaches q * total: the fallback after
      the scan is never taken in exact arithmetic. */
  lemma NearestRankReached(view: seq<Centroid>, q: real)
    requires view != [] && Positive(view) && 0.0 <= q <= 1.0
    ensures Through(view, |view| - 1) >= q * WeightOf(view)
    ensures Through(view, RankIndex(view, q * WeightOf(view), 0.0)) >= q * WeightOf(view)
  {
    TotalReachesTarget(view, q);
    RankIndexIsFirst(view, q * WeightOf(view), 0.0);
  }

  /** The weight through the last entry, the total, is at least q * total. */
  lemma TotalReachesTarget(view: seq<Centroid>, q: real)
    requires view != [] && Positive(view) && 0.0 <= q <= 1.0
    ensures Through(view, |view| - 1) >= q * WeightOf(view)
  {
    PositiveWeight(view);
    ScaleAtMost(q, WeightOf(view));
    NearestRankAtTotal(view);
  }

  lemma ScaleAtMost(q: real, total: real)
    requires 0.0 <= q <= 1.0 && total >= 0.0
    ensures q * total <= total
  {
    assert total - q * total == (1.0 - q) * total;
  }

  // ---------------------------------------------------------------------------
  // Independence from the order of equal values

  /** Total weight of the entries whose value is at most m; it depends only
      on the multiset of entries. */
  function WeightAtMost(s: seq<Centroid>, m: real): real
  {
    if s == [] then 0.0
    else (if s[0].mean <= m then s[0].weight else 0.0) + WeightAtMost(s[1..], m)
  }

  lemma {:induction false} WeightAtMostAppend(a: seq<Centroid>, b: seq<Centroid>, m: real)
    ensures WeightAtMost(a + b, m) == WeightAtMost(a, m) + WeightAtMost(b, m)
    decreases |a|
  {
    if a == [] {
      assert a + b == b;
    } else {
      assert (a + b)[0] == a[0];
      assert (a + b)[1..] == a[1..] + b;
      WeightAtMostAppend(a[1..], b, m);
    }
  }

  /** Taking entry i out of a list: the multiset loses it, and so does
      WeightAtMost when it counts. */
  lemma RemoveAt(b: seq<Centroid>, i: nat, m: real)
    requires i < |b|
    ensures multiset(b[..i] + b[i + 1..]) == multiset(b) - multiset{b[i]}
    ensures WeightAtMost(b, m) == (if b[i].mean <= m then b[i].weight else 0.0) + WeightAtMost(b[..i] + b[i + 1..], m)
  {
    var x := b[i];
    assert b == b[..i] + [x] + b[i + 1..];
    assert multiset(b) == multiset(b[..i]) + multiset([x]) + multiset(b[i + 1..]);
    WeightAtMostAppend(b[..i] + [x], b[i + 1..], m);
    WeightAtMostAppend(b[..i], [x], m);
    WeightAtMostAppend(b[..i], b[i + 1..], m);
    assert [x][1..] == [];
  }

  /** Reordering the entries leaves WeightAtMost unchanged. */
  lemma {:induction false} WeightAtMostPermutation(a: seq<Centroid>, b: seq<Centroid>, m: real)
    requires multiset(a) == multiset(b)
    ensures WeightAtMost(a, m) == WeightAtMost(b, m)
    decreases |a|
  {
    if a == [] {
      assert |multiset(b)| == 0;
    } else {
      var x := a[0];
      assert a == [x] + a[1..];
      assert multiset(a[1..]) == multiset(a) - multiset{x};
      assert x in multiset(b);
      var i :| 0 <= i < |b| && b[i] == x;
      RemoveAt(b, i, m);
      WeightAtMostPermutation(a[1..], b[..i] + b[i + 1..], m);
    }
  }

  lemma {:induction false} WeightAtMostBounds(s: seq<Centroid>, m: real)
    requires Positive(s)
    ensures 0.0 <= WeightAtMost(s, m) <= WeightOf(s)
    ensures (forall i :: 0 <= i < |s| ==> s[i].mean <= m) ==> WeightAtMost(s, m) == WeightOf(s)
    ensures (forall i :: 0 <= i < |s| ==> s[i].mean > m) ==> WeightAtMost(s, m) == 0.0
    decreases |s|
  {
    if s != [] {
      WeightAtMostBounds(s[1..], m);
    }
  }

  /** In a sorted view, the weight through entry j is at most the weight of
      all entries valued at most s[j]. */
  lemma ThroughAtMost(s: seq<Centroid>, j: nat)
    requires SortedByMean(s) && Positive(s) && j < |s|
    ensures Through(s, j) <= WeightAtMost(s, s[j].mean)
  {
    var m := s[j].mean;
    assert s == s[..j + 1] + s[j + 1..];
    WeightAtMostAppend(s[..j + 1], s[j + 1..], m);
    WeightAtMostBounds(s[..j + 1], m);
    WeightAtMostBounds(s[j + 1..], m);
  }

  /** In a sorted view, if entry k is valued above m then the entries valued
      at most m all come before k. */
  lemma AtMostBefore(s: seq<Centroid>, k: nat, m: real)
    requires SortedByMean(s) && Positive(s) && 0 < k < |s| && s[k].mean > m
    ensures WeightAtMost(s, m) <= Through(s, k - 1)
  {
    assert s == s[..k] + s[k..];
    assert s[..k] == s[..k - 1 + 1];
    WeightAtMostAppend(s[..k], s[k..], m);
    WeightAtMostBounds(s[..k], m);
    WeightAtMostBounds(s[k..], m);
  }

  /** Over two sorted orderings of the same entries, the nearest-rank value of
      the first is at most that of the second. */
  lemma RankValueAtMost(s1: seq<Centroid>, s2: seq<Centroid>, target: real)
    requires s1 != [] && SortedByMean(s1) && SortedByMean(s2) && Positive(s1) && Positive(s2)
    requires multiset(s1) == multiset(s2)
    ensures s2 != []
    ensures s1[RankIndex(s1, target, 0.0)].mean <= s2[RankIndex(s2, target, 0.0)].mean
  {
    assert s1[0] in multiset(s2);
    var k1, k2 := RankIndex(s1, target, 0.0), RankIndex(s2, target, 0.0);
    var m1, m2 := s1[k1].mean, s2[k2].mean;
    RankIndexIsFirst(s1, target, 0.0);
    RankIndexIsFirst(s2, target, 0.0);
    if k1 == 0 {
      // m1 is the smallest value, and m2 is one of the values
      assert s2[k2] in multiset(s1);
      var i :| 0 <= i < |s1| && s1[i] == s2[k2];
    } else if 0.0 + Through(s2, k2) < target {
      // the scan of s2 fell through to its last, largest value
      assert k2 == |s2| - 1;
      assert s1[k1] in multiset(s2);
      var i :| 0 <= i < |s2| && s2[i] == s1[k1];
    } else {
      // the weight valued at most m2 reaches the target, which the entries
      // before k1 do not
      ThroughAtMost(s2, k2);
      WeightAtMostPermutation(s1, s2, m2);
      assert 0.0 + Through(s1, k1 - 1) < target;
      if m1 > m2 {
        AtMostBefore(s1, k1, m2);
      }
    }
  }

  /** The nearest-rank value does not depend on how equal values are ordered:
      every sorted ordering of the same entries gives the same answer. */
  lemma NearestRankPermutation(s1: seq<Centroid>, s2: seq<Centroid>, q: real, total: real)
    requires s1 != [] && SortedByMean(s1) && SortedByMean(s2) && Positive(s1) && Positive(s2)
    requires multiset(s1) == multiset(s2)
    ensures s2 != [] && NearestRank(s1, q, total) == NearestRank(s2, q, total)
  {
    RankValueAtMost(s1, s2, q * total);
    RankValueAtMost(s2, s1, q * total);
  }
}
