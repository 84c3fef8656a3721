/** The two aggregators behind the charts: cumulative grade weight by week and assignment
    count by week. Both walk the schedule after a stable sort by week and never merge weeks. */
module Charts {
  import opened Schedule

  /** The running totals of `weight_pct` along `s`: element k is the sum of the first k + 1 weights. */
  function RunningTotals(s: seq<Entry>): (r: seq<real>)
    ensures |r| == |s| && forall k :: 0 <= k < |s| ==> r[k] == Total(s[..k + 1])
  {
    seq(|s|, k requires 0 <= k < |s| => Total(s[..k + 1]))
  }

  /** Each running total is the previous one plus the weight of its own entry; the first is the
      first entry's weight. */
  lemma RunningTotalsStep(s: seq<Entry>, k: nat)
    requires k < |s|
    ensures RunningTotals(s)[k] == (if k == 0 then 0.0 else RunningTotals(s)[k - 1]) + s[k].weightPct
  {
    assert s[..k + 1][..k] == s[..k];
    assert Total(s[..k + 1]) == Total(s[..k]) + s[k].weightPct;
    if k == 0 {
      assert s[..0] == [];
    }
  }

  /** The last running total is the sum of every weight, duplicates included. */
  lemma RunningTotalsLast(s: seq<Entry>)
    requires s != []
    ensures RunningTotals(s)[|s| - 1] == Total(s)
  {
    assert s[..|s|] == s;
  }

  /** The cumulative-weight chart ends at the schedule's total weight. */
  lemma CumulativeEndsAtTotal(schedule: seq<Entry>)
    requires schedule != []
    ensures RunningTotals(SortByWeek(schedule))[|schedule| - 1] == Total(schedule)
  {
    var sorted := SortByWeek(schedule);
    RunningTotalsLast(sorted);
    TotalSortByWeek(schedule);
  }

  /** With no negative weight, the running totals never decrease. */
  lemma {:induction false} RunningTotalsMonotone(s: seq<Entry>, i: nat, j: nat)
    requires forall e :: e in s ==> 0.0 <= e.weightPct
    requires i <= j < |s|
    ensures RunningTotals(s)[i] <= RunningTotals(s)[j]
  {
    if i < j {
      RunningTotalsMonotone(s, i, j - 1);
      RunningTotalsStep(s, j);
    }
  }

  /** Sorting keeps the entries, so it keeps "no negative weight". */
  lemma SortedWeightsNonNegative(schedule: seq<Entry>)
    requires forall e :: e in schedule ==> 0.0 <= e.weightPct
    ensures forall e :: e in SortByWeek(schedule) ==> 0.0 <= e.weightPct
  {
    forall e | e in SortByWeek(schedule) ensures 0.0 <= e.weightPct {
      assert e in multiset(SortByWeek(schedule));
    }
  }

  /** When no weight is negative, the cumulative-weight chart never goes down. */
  lemma CumulativeMonotone(schedule: seq<Entry>, i: nat, j: nat)
    requires forall e :: e in schedule ==> 0.0 <= e.weightPct
    requires i <= j < |schedule|
    ensures RunningTotals(SortByWeek(schedule))[i] <= RunningTotals(SortByWeek(schedule))[j]
  {
    SortedWeightsNonNegative(schedule);
    RunningTotalsMonotone(SortByWeek(schedule), i, j);
  }

  /** `compute_cumulative_weights`: the weeks of the stably sorted schedule and the running
      total of `weight_pct` along it. */
  method CumulativeWeights(schedule: seq<Entry>) returns (weeks: seq<int>, cumulative: seq<real>)
    ensures |weeks| == |schedule| && |cumulative| == |schedule|
    ensures forall k :: 0 <= k < |weeks| ==> weeks[k] == SortByWeek(schedule)[k].week
    ensures forall i, j :: 0 <= i <= j < |weeks| ==> weeks[i] <= weeks[j]
    ensures cumulative == RunningTotals(SortByWeek(schedule))
  {
    var sorted := SortByWeek(schedule);
    weeks, cumulative := [], [];
    var total := 0.0;
    for i := 0 to |sorted|
      invariant |weeks| == i && |cumulative| == i
      invariant forall k :: 0 <= k < i ==> weeks[k] == sorted[k].week
      invariant total == Total(sorted[..i])
      invariant forall k :: 0 <= k < i ==> cumulative[k] == Total(sorted[..k + 1])
    {
      assert sorted[..i + 1][..i] == sorted[..i];
      weeks := weeks + [sorted[i].week];
      total := total + sorted[i].weightPct;
      cumulative := cumulative + [total];
    }
  }

  /** Pairs up two parallel sequences. */
  function Zip(weeks: seq<int>, counts: seq<int>): (r: seq<(int, int)>)
    requires |weeks| == |counts|
    ensures |r| == |weeks| && forall k :: 0 <= k < |r| ==> r[k] == (weeks[k], counts[k])
  {
    seq(|weeks|, k requires 0 <= k < |weeks| => (weeks[k], counts[k]))
  }

  /** `compute_assignments_by_week`: the sorted weeks and each entry's assignment count.
      The (week, count) pairs are a permutation of the input's: nothing is merged or lost. */
  method AssignmentsByWeek(schedule: seq<Entry>) returns (weeks: seq<int>, counts: seq<int>)
    ensures |weeks| == |schedule| && |counts| == |schedule|
    ensures forall k :: 0 <= k < |weeks| ==>
              weeks[k] == SortByWeek(schedule)[k].week && counts[k] == SortByWeek(schedule)[k].assignments
    ensures forall i, j :: 0 <= i <= j < |weeks| ==> weeks[i] <= weeks[j]
    ensures multiset(Zip(weeks, counts)) == multiset(PairsOf(schedule))
    ensures forall w :: PairsWithWeek(Zip(weeks, counts), w) == PairsOf(WithWeek(schedule, w))
  {
    var sorted := SortByWeek(schedule);
    weeks, counts := [], [];
    for i := 0 to |sorted|
      invariant |weeks| == i && |counts| == i
      invariant forall k :: 0 <= k < i ==> weeks[k] == sorted[k].week && counts[k] == sorted[k].assignments
    {
      weeks := weeks + [sorted[i].week];
      counts := counts + [sorted[i].assignments];
    }
    var pairs := Zip(weeks, counts);
    assert forall k :: 0 <= k < |pairs| ==> pairs[k] == PairsOf(sorted)[k];
    assert pairs == PairsOf(sorted);
    PairsPermutation(schedule);
    forall w ensures PairsWithWeek(pairs, w) == PairsOf(WithWeek(schedule, w)) {
      PairsWithWeekOf(sorted, w);
      SortByWeekStable(schedule, w);
    }
  }
}
