/** Schedule entries and the ordering and sums the aggregators are built on. */
module Schedule {

  /** One normalised schedule record: `{week, assignments, weight_pct, notes}`.
      `weight_pct` is a mathematical real, not an IEEE double. */
  datatype Entry = Entry(week: int, assignments: int, weightPct: real, notes: string)

  /** Ascending by week; equal weeks may repeat. */
  predicate SortedByWeek(s: seq<Entry>) {
    forall i, j :: 0 <= i < j < |s| ==> s[i].week <= s[j].week
  }

  /** The entries of `s` with week `w`, in the order they occur in `s`. */
  function WithWeek(s: seq<Entry>, w: int): (r: seq<Entry>)
    ensures |r| <= |s|
  {
    if s == [] then []
    else if s[0].week == w then [s[0]] + WithWeek(s[1..], w)
    else WithWeek(s[1..], w)
  }

  /** Places `x` in front of the first entry whose week is not below its own. */
  function Insert(x: Entry, t: seq<Entry>): (r: seq<Entry>)
    ensures |r| == |t| + 1
    ensures multiset(r) == multiset{x} + multiset(t)
  {
    if t == [] || x.week <= t[0].week then [x] + t
    else
      assert t == [t[0]] + t[1..];
      [t[0]] + Insert(x, t[1..])
  }

  lemma {:induction false} InsertBound(x: Entry, t: seq<Entry>, b: int)
    requires b <= x.week && forall k :: 0 <= k < |t| ==> b <= t[k].week
    ensures forall k :: 0 <= k < |Insert(x, t)| ==> b <= Insert(x, t)[k].week
  {
    if t != [] && t[0].week < x.week {
      InsertBound(x, t[1..], b);
    }
  }

  lemma {:induction false} InsertSorted(x: Entry, t: seq<Entry>)
    requires SortedByWeek(t)
    ensures SortedByWeek(Insert(x, t))
  {
    if t != [] && t[0].week < x.week {
      InsertSorted(x, t[1..]);
      InsertBound(x, t[1..], t[0].week);
    }
  }

  /** The stable sort by week that Python's `sorted(s, key=week)` and `list.sort(key=week)` perform,
      written as an insertion sort: the first entry goes in front of every later entry of equal week. */
  function SortByWeek(s: seq<Entry>): (r: seq<Entry>)
    ensures |r| == |s|
    ensures multiset(r) == multiset(s)
    ensures SortedByWeek(r)
  {
    if s == [] then []
    else
      assert s == [s[0]] + s[1..];
      InsertSorted(s[0], SortByWeek(s[1..]));
      Insert(s[0], SortByWeek(s[1..]))
  }

  lemma {:induction false} WithWeekInsert(x: Entry, t: seq<Entry>, w: int)
    ensures WithWeek(Insert(x, t), w) == if x.week == w then [x] + WithWeek(t, w) else WithWeek(t, w)
  {
    if t == [] || x.week <= t[0].week {
      assert ([x] + t)[1..] == t;
    } else {
      WithWeekInsert(x, t[1..], w);
      assert ([t[0]] + Insert(x, t[1..]))[1..] == Insert(x, t[1..]);
      if x.week == w {
        // t[0] lies before x and has a smaller week, so it is not in either filter
        assert t[0].week != w;
      } else if t[0].week == w {
        assert ([x] + WithWeek(t[1..], w))[1..] == WithWeek(t[1..], w);
      }
    }
  }

  /** Stability: for every week, the entries of that week keep their input order;
      no entry is merged with another of the same week. */
  lemma {:induction false} SortByWeekStable(s: seq<Entry>, w: int)
    ensures WithWeek(SortByWeek(s), w) == WithWeek(s, w)
  {
    if s != [] {
      SortByWeekStable(s[1..], w);
      WithWeekInsert(s[0], SortByWeek(s[1..]), w);
    }
  }

  lemma {:induction false} WithWeekHead(s: seq<Entry>)
    requires s != []
    ensures WithWeek(s, s[0].week) == [s[0]] + WithWeek(s[1..], s[0].week)
  {
  }

  lemma {:induction false} WithWeekNonEmpty(s: seq<Entry>, i: nat)
    requires i < |s|
    ensures WithWeek(s, s[i].week) != []
  {
    if i > 0 && s[0].week != s[i].week {
      WithWeekNonEmpty(s[1..], i - 1);
    }
  }

  lemma {:induction false} WithWeekIn(s: seq<Entry>, w: int)
    ensures forall e :: e in WithWeek(s, w) ==> e in s && e.week == w
  {
    if s != [] {
      WithWeekIn(s[1..], w);
    }
  }

  /** If `a` and `b` agree on every week, `b` is sorted and both are non-empty, then `b` starts
      at a week no later than `a` does. */
  lemma {:induction false} LeastWeekBound(a: seq<Entry>, b: seq<Entry>)
    requires a != [] && SortedByWeek(b)
    requires forall w :: WithWeek(a, w) == WithWeek(b, w)
    ensures b != [] && b[0].week <= a[0].week
  {
    var wa := a[0].week;
    WithWeekNonEmpty(a, 0);
    assert WithWeek(b, wa) != [];
    WithWeekIn(b, wa);
    var eb := WithWeek(b, wa)[0];
    assert eb in WithWeek(b, wa);
    var ib :| 0 <= ib < |b| && b[ib] == eb;
  }

  lemma WithWeekTail(s: seq<Entry>, w: int)
    requires s != []
    ensures WithWeek(s[1..], w) == if s[0].week == w then WithWeek(s, w)[1..] else WithWeek(s, w)
  {
  }

  /** A stable sort by week has exactly one possible outcome: two week-sorted sequences that agree
      on every week's entries are equal. So SortByWeek is the result of any stable sort by week,
      Python's in particular. */
  lemma {:induction false} StableSortUnique(a: seq<Entry>, b: seq<Entry>)
    requires SortedByWeek(a) && SortedByWeek(b)
    requires forall w :: WithWeek(a, w) == WithWeek(b, w)
    ensures a == b
  {
    if a != [] {
      LeastWeekBound(a, b);
      LeastWeekBound(b, a);
      var w := a[0].week;
      WithWeekHead(a);
      WithWeekHead(b);
      assert a[0] == WithWeek(a, w)[0] == WithWeek(b, w)[0] == b[0];
      forall v ensures WithWeek(a[1..], v) == WithWeek(b[1..], v) {
        WithWeekTail(a, v);
        WithWeekTail(b, v);
      }
      StableSortUnique(a[1..], b[1..]);
      assert a == [a[0]] + a[1..] && b == [b[0]] + b[1..];
    } else if b != [] {
      LeastWeekBound(b, a);
      assert false;
    }
  }

  /** Python's `sum(weight_pct for each entry)`, a left fold in list order. */
  function Total(s: seq<Entry>): real {
    if s == [] then 0.0 else Total(s[..|s| - 1]) + s[|s| - 1].weightPct
  }

  /** With no negative weight the total is not negative. */
  lemma {:induction false} TotalNonNegative(s: seq<Entry>)
    requires forall k :: 0 <= k < |s| ==> 0.0 <= s[k].weightPct
    ensures 0.0 <= Total(s)
  {
    if s != [] {
      TotalNonNegative(s[..|s| - 1]);
    }
  }

  lemma {:induction false} TotalCons(x: Entry, t: seq<Entry>)
    ensures Total([x] + t) == x.weightPct + Total(t)
  {
    if t != [] {
      assert ([x] + t)[..|t|] == [x] + t[..|t| - 1];
      TotalCons(x, t[..|t| - 1]);
    } else {
      assert ([x] + t)[..0] == [];
    }
  }

  lemma {:induction false} TotalInsert(x: Entry, t: seq<Entry>)
    ensures Total(Insert(x, t)) == x.weightPct + Total(t)
  {
    if t == [] || x.week <= t[0].week {
      TotalCons(x, t);
    } else {
      TotalInsert(x, t[1..]);
      TotalCons(t[0], Insert(x, t[1..]));
      TotalCons(t[0], t[1..]);
      assert t == [t[0]] + t[1..];
    }
  }

  /** Sorting does not change the total weight: duplicate weeks are all counted. */
  lemma {:induction false} TotalSortByWeek(s: seq<Entry>)
    ensures Total(SortByWeek(s)) == Total(s)
  {
    if s != [] {
      TotalSortByWeek(s[1..]);
      TotalInsert(s[0], SortByWeek(s[1..]));
      TotalCons(s[0], s[1..]);
      assert s == [s[0]] + s[1..];
    }
  }

  /** The (week, assignments) pair an entry contributes to the assignments chart. */
  function Pair(e: Entry): (int, int) {
    (e.week, e.assignments)
  }

  function PairsOf(s: seq<Entry>): (r: seq<(int, int)>)
    ensures |r| == |s| && forall k :: 0 <= k < |s| ==> r[k] == Pair(s[k])
  {
    if s == [] then [] else [Pair(s[0])] + PairsOf(s[1..])
  }

  lemma {:induction false} PairsOfInsert(x: Entry, t: seq<Entry>)
    ensures multiset(PairsOf(Insert(x, t))) == multiset{Pair(x)} + multiset(PairsOf(t))
  {
    if t == [] || x.week <= t[0].week {
      assert ([x] + t)[1..] == t;
      assert PairsOf([x] + t) == [Pair(x)] + PairsOf(t);
    } else {
      var rest := Insert(x, t[1..]);
      PairsOfInsert(x, t[1..]);
      assert ([t[0]] + rest)[1..] == rest;
      assert PairsOf(Insert(x, t)) == [Pair(t[0])] + PairsOf(rest);
      assert PairsOf(t) == [Pair(t[0])] + PairsOf(t[1..]);
    }
  }

  /** The sorted (week, assignments) pairs are a permutation of the input's pairs. */
  lemma {:induction false} PairsPermutation(s: seq<Entry>)
    ensures multiset(PairsOf(SortByWeek(s))) == multiset(PairsOf(s))
  {
    if s != [] {
      var t := SortByWeek(s[1..]);
      assert SortByWeek(s) == Insert(s[0], t);
      PairsPermutation(s[1..]);
      PairsOfInsert(s[0], t);
    }
  }

  /** The pairs of `ps` whose week is `w`, in order. */
  function PairsWithWeek(ps: seq<(int, int)>, w: int): seq<(int, int)> {
    if ps == [] then []
    else if ps[0].0 == w then [ps[0]] + PairsWithWeek(ps[1..], w)
    else PairsWithWeek(ps[1..], w)
  }

  /** Taking pairs commutes with selecting one week. */
  lemma {:induction false} PairsWithWeekOf(s: seq<Entry>, w: int)
    ensures PairsWithWeek(PairsOf(s), w) == PairsOf(WithWeek(s, w))
  {
    if s != [] {
      PairsWithWeekOf(s[1..], w);
      assert PairsOf(s)[1..] == PairsOf(s[1..]);
    }
  }

  /** The upload route's sanity band for the total weight: 90 to 110 inclusive. */
  predicate InBand(total: real) {
    90.0 <= total <= 110.0
  }
}
