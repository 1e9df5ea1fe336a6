/** The bootstrap summary: numpy's `median` and its default ("linear")
    `percentile`, applied to each metric's column of bootstrap results. */
module Summary {
  import Sorting
  import Interpolation
  import opened Metrics

  /** Linear interpolation from `a` (t = 0) to `b` (t = 1); a fraction in [0, 1]
      stays between the two ends. */
  function Lerp(a: real, b: real, t: real): (r: real)
    ensures t == 0.0 ==> r == a
    ensures t == 1.0 ==> r == b
    ensures 0.0 <= t <= 1.0 ==> Interpolation.Min(a, b) <= r <= Interpolation.Max(a, b)
  {
    if 0.0 <= t <= 1.0 then
      Interpolation.LerpBetween(a, b, t);
      a + t * (b - a)
    else a + t * (b - a)
  }

  /** Raising the fraction moves the interpolant towards the larger end. */
  lemma LerpMonotone(a: real, b: real, t1: real, t2: real)
    requires a <= b && t1 <= t2
    ensures Lerp(a, b, t1) <= Lerp(a, b, t2)
  {
    Interpolation.MulNonNegative(t2 - t1, b - a);
    assert Lerp(a, b, t2) - Lerp(a, b, t1) == (t2 - t1) * (b - a);
  }

  /** numpy's virtual index for percentile `q` of `n` values. */
  function Position(q: real, n: nat): (pos: real)
    requires n > 0 && 0.0 <= q <= 100.0
    ensures 0.0 <= pos <= (n - 1) as real
  {
    Interpolation.MulNonNegative(q, (n - 1) as real);
    Interpolation.MulNonNegative(100.0 - q, (n - 1) as real);
    q * (n - 1) as real / 100.0
  }

  lemma PositionMonotone(q1: real, q2: real, n: nat)
    requires n > 0 && 0.0 <= q1 <= q2 <= 100.0
    ensures Position(q1, n) <= Position(q2, n)
  {
    Interpolation.MulNonNegative(q2 - q1, (n - 1) as real);
  }

  /** Reading sorted data at a fractional position: the value below the position,
      moved towards the next one by the fractional part. */
  function ReadSorted(sorted: seq<real>, pos: real): (r: real)
    requires |sorted| > 0 && 0.0 <= pos <= (|sorted| - 1) as real
    requires Sorting.RealsSorted(sorted)
    ensures sorted[0] <= r <= sorted[|sorted| - 1]
  {
    var lo := pos.Floor;
    var hi := if lo + 1 < |sorted| then lo + 1 else lo;
    Interpolation.LerpBetween(sorted[lo], sorted[hi], pos - lo as real);
    Lerp(sorted[lo], sorted[hi], pos - lo as real)
  }

  /** The reading lies between the values just below and just above the position. */
  lemma ReadSortedBetween(sorted: seq<real>, pos: real)
    requires |sorted| > 0 && 0.0 <= pos <= (|sorted| - 1) as real
    requires Sorting.RealsSorted(sorted)
    ensures var lo := pos.Floor;
      && 0 <= lo < |sorted|
      && sorted[lo] <= ReadSorted(sorted, pos) <= sorted[if lo + 1 < |sorted| then lo + 1 else lo]
  {
    var lo := pos.Floor;
    var hi := if lo + 1 < |sorted| then lo + 1 else lo;
    assert sorted[lo] <= sorted[hi];
    Interpolation.LerpBetween(sorted[lo], sorted[hi], pos - lo as real);
  }

  lemma ReadSortedMonotone(sorted: seq<real>, p1: real, p2: real)
    requires |sorted| > 0 && 0.0 <= p1 <= p2 <= (|sorted| - 1) as real
    requires Sorting.RealsSorted(sorted)
    ensures ReadSorted(sorted, p1) <= ReadSorted(sorted, p2)
  {
    var n := |sorted|;
    var lo1, lo2 := p1.Floor, p2.Floor;
    assert lo1 <= lo2;
    if lo1 == lo2 {
      var hi := if lo1 + 1 < n then lo1 + 1 else lo1;
      assert sorted[lo1] <= sorted[hi];
      LerpMonotone(sorted[lo1], sorted[hi], p1 - lo1 as real, p2 - lo2 as real);
    } else {
      ReadSortedBetween(sorted, p1);
      ReadSortedBetween(sorted, p2);
      assert lo1 + 1 <= lo2;
      assert sorted[lo1 + 1] <= sorted[lo2];
    }
  }

  /** `np.percentile(v, q)`: the sorted data read at the virtual index q (n - 1) / 100;
      the result lies between the smallest and the largest value. */
  function Percentile(v: seq<real>, q: real): (r: real)
    requires |v| > 0 && 0.0 <= q <= 100.0
    ensures Minimum(v) <= r <= Maximum(v)
  {
    ReadSorted(Sorting.SortReals(v), Position(q, |v|))
  }

  /** The smallest and largest values, as the ends of the sorted data. */
  function Minimum(v: seq<real>): (m: real)
    requires |v| > 0
    ensures m in v && forall i :: 0 <= i < |v| ==> m <= v[i]
  {
    var sorted := Sorting.SortReals(v);
    assert sorted[0] in multiset(v);
    forall i | 0 <= i < |v| ensures sorted[0] <= v[i] {
      assert v[i] in multiset(sorted);
    }
    sorted[0]
  }

  function Maximum(v: seq<real>): (m: real)
    requires |v| > 0
    ensures m in v && forall i :: 0 <= i < |v| ==> v[i] <= m
  {
    var sorted := Sorting.SortReals(v);
    assert sorted[|v| - 1] in multiset(v);
    forall i | 0 <= i < |v| ensures v[i] <= sorted[|v| - 1] {
      assert v[i] in multiset(sorted);
    }
    sorted[|v| - 1]
  }

  /** A larger percentile is never smaller. */
  lemma PercentileMonotone(v: seq<real>, q1: real, q2: real)
    requires |v| > 0 && 0.0 <= q1 <= q2 <= 100.0
    ensures Percentile(v, q1) <= Percentile(v, q2)
  {
    PositionMonotone(q1, q2, |v|);
    ReadSortedMonotone(Sorting.SortReals(v), Position(q1, |v|), Position(q2, |v|));
  }

  /** The data's minimum and maximum are the 0th and 100th percentiles. */
  lemma PercentileExtremes(v: seq<real>)
    requires |v| > 0
    ensures Percentile(v, 0.0) == Minimum(v) && Percentile(v, 100.0) == Maximum(v)
  {
    var n := |v|;
    var sorted := Sorting.SortReals(v);
    assert Minimum(v) == sorted[0] && Maximum(v) == sorted[n - 1];
    assert Position(0.0, n) == 0 as real;
    assert Position(100.0, n) == (n - 1) as real;
    ReadSortedAt(sorted, 0);
    ReadSortedAt(sorted, n - 1);
    assert Percentile(v, 0.0) == ReadSorted(sorted, 0 as real);
    assert Percentile(v, 100.0) == ReadSorted(sorted, (n - 1) as real);
  }

  /** At a whole-number position the reading is the value stored there. */
  lemma ReadSortedAt(sorted: seq<real>, k: nat)
    requires k < |sorted| && Sorting.RealsSorted(sorted)
    ensures ReadSorted(sorted, k as real) == sorted[k]
  {
    var pos := k as real;
    assert pos.Floor == k;
    var hi := if k + 1 < |sorted| then k + 1 else k;
    assert ReadSorted(sorted, pos) == Lerp(sorted[k], sorted[hi], 0.0);
  }

  /** `np.median(v)`: the middle of the sorted data, or the mean of its two middles. */
  function Median(v: seq<real>): (m: real)
    requires |v| > 0
    ensures Minimum(v) <= m <= Maximum(v)
  {
    var sorted := Sorting.SortReals(v);
    var n := |v|;
    assert sorted[n / 2] in multiset(v);
    if n % 2 == 1 then sorted[n / 2]
    else
      assert sorted[n / 2 - 1] in multiset(v);
      (sorted[n / 2 - 1] + sorted[n / 2]) / 2.0
  }

  /** The median is the 50th percentile, the centre of the 95% interval. */
  lemma MedianIsFiftiethPercentile(v: seq<real>)
    requires |v| > 0
    ensures Median(v) == Percentile(v, 50.0)
  {
    var n := |v|;
    var sorted := Sorting.SortReals(v);
    var pos := Position(50.0, n);
    HalfPosition(n);
    assert Percentile(v, 50.0) == ReadSorted(sorted, pos);
    if n % 2 == 1 {
      MiddleOdd(sorted);
      assert Median(v) == sorted[n / 2];
    } else {
      MiddleEven(sorted);
      assert Median(v) == (sorted[n / 2 - 1] + sorted[n / 2]) / 2.0;
    }
  }

  lemma HalfPosition(n: nat)
    requires n > 0
    ensures Position(50.0, n) == (n - 1) as real / 2.0
  {
  }

  lemma MiddleOdd(sorted: seq<real>)
    requires |sorted| % 2 == 1 && Sorting.RealsSorted(sorted)
    ensures ReadSorted(sorted, (|sorted| - 1) as real / 2.0) == sorted[|sorted| / 2]
  {
    var n, m := |sorted|, |sorted| / 2;
    assert n == 2 * m + 1;
    var pos := (n - 1) as real / 2.0;
    assert pos == m as real;
    assert pos.Floor == m;
  }

  lemma MiddleEven(sorted: seq<real>)
    requires |sorted| > 0 && |sorted| % 2 == 0 && Sorting.RealsSorted(sorted)
    ensures ReadSorted(sorted, (|sorted| - 1) as real / 2.0) == (sorted[|sorted| / 2 - 1] + sorted[|sorted| / 2]) / 2.0
  {
    var n, m := |sorted|, |sorted| / 2;
    assert n == 2 * m;
    var pos := (n - 1) as real / 2.0;
    assert pos == (m - 1) as real + 0.5;
    assert pos.Floor == m - 1;
    assert ReadSorted(sorted, pos) == Lerp(sorted[m - 1], sorted[m], 0.5);
  }

  datatype EvaluationSummary = EvaluationSummary(
    score: real,
    ppv90Median: real, ppv90Lower: real, ppv90Upper: real,
    aurocMedian: real, aurocLower: real, aurocUpper: real,
    auprcMedian: real, auprcLower: real, auprcUpper: real,
    aurocFull: real, auprcFull: real, ppv90Full: real)

  const LowerPercentile: real := 2.5
  const UpperPercentile: real := 97.5

  function Aurocs(rounds: seq<MetricTriple>): (c: seq<real>)
    ensures |c| == |rounds| && forall k :: 0 <= k < |rounds| ==> c[k] == rounds[k].auroc
  {
    seq(|rounds|, k requires 0 <= k < |rounds| => rounds[k].auroc)
  }

  function Auprcs(rounds: seq<MetricTriple>): (c: seq<real>)
    ensures |c| == |rounds| && forall k :: 0 <= k < |rounds| ==> c[k] == rounds[k].auprc
  {
    seq(|rounds|, k requires 0 <= k < |rounds| => rounds[k].auprc)
  }

  function Ppv90s(rounds: seq<MetricTriple>): (c: seq<real>)
    ensures |c| == |rounds| && forall k :: 0 <= k < |rounds| ==> c[k] == rounds[k].ppv90
  {
    seq(|rounds|, k requires 0 <= k < |rounds| => rounds[k].ppv90)
  }

  ghost predicate TripleInUnit(m: MetricTriple)
  {
    0.0 <= m.auroc <= 1.0 && 0.0 <= m.auprc <= 1.0 && 0.0 <= m.ppv90 <= 1.0
  }

  /** The dictionary `bootstrap_metrics` returns: "Score" is the median PPV at 90%
      recall, each median lies inside its 95% interval, and when every input metric
      lies in [0, 1] so does every entry. */
  function Summarize(full: MetricTriple, rounds: seq<MetricTriple>): (r: EvaluationSummary)
    requires |rounds| > 0
    ensures r.score == r.ppv90Median
    ensures r.ppv90Lower <= r.ppv90Median <= r.ppv90Upper
    ensures r.aurocLower <= r.aurocMedian <= r.aurocUpper
    ensures r.auprcLower <= r.auprcMedian <= r.auprcUpper
    ensures (r.aurocFull, r.auprcFull, r.ppv90Full) == (full.auroc, full.auprc, full.ppv90)
    ensures TripleInUnit(full) && (forall k :: 0 <= k < |rounds| ==> TripleInUnit(rounds[k])) ==>
      && 0.0 <= r.ppv90Lower && r.ppv90Upper <= 1.0
      && 0.0 <= r.aurocLower && r.aurocUpper <= 1.0
      && 0.0 <= r.auprcLower && r.auprcUpper <= 1.0
  {
    var ppv, auroc, auprc := Ppv90s(rounds), Aurocs(rounds), Auprcs(rounds);
    ColumnSummary(ppv);
    ColumnSummary(auroc);
    ColumnSummary(auprc);
    EvaluationSummary(
      Median(ppv),
      Median(ppv), Percentile(ppv, LowerPercentile), Percentile(ppv, UpperPercentile),
      Median(auroc), Percentile(auroc, LowerPercentile), Percentile(auroc, UpperPercentile),
      Median(auprc), Percentile(auprc, LowerPercentile), Percentile(auprc, UpperPercentile),
      full.auroc, full.auprc, full.ppv90)
  }

  /** One column's 95% interval brackets its median and stays within the data. */
  lemma ColumnSummary(c: seq<real>)
    requires |c| > 0
    ensures Percentile(c, LowerPercentile) <= Median(c) <= Percentile(c, UpperPercentile)
    ensures (forall k :: 0 <= k < |c| ==> 0.0 <= c[k] <= 1.0) ==>
      0.0 <= Percentile(c, LowerPercentile) && Percentile(c, UpperPercentile) <= 1.0
  {
    MedianIsFiftiethPercentile(c);
    PercentileMonotone(c, LowerPercentile, 50.0);
    PercentileMonotone(c, 50.0, UpperPercentile);
  }
}
