/** The three scores computed per label/score sample: AUROC (sklearn's
    `roc_auc_score`, written as the pair-counting statistic it equals), the
    precision-recall curve (`precision_recall_curve`), average precision
    (`average_precision_score`) and the precision read off at 90% recall on the
    curve reversed into ascending-recall order. */
module Metrics {
  import opened Wrappers
  import opened Binary
  import Sorting
  import Interpolation

  datatype MetricTriple = MetricTriple(auroc: real, auprc: real, ppv90: real)

  datatype MetricError =
    | InconsistentLengths  // sklearn: "Found input variables with inconsistent numbers of samples"
    | SingleClass          // sklearn: "Only one class present in y_true. ROC AUC score is not defined"

  function Positives(y: seq<Bit>): nat { SumBits(y) }
  function Negatives(y: seq<Bit>): nat { |y| - SumBits(y) }

  // ---------- AUROC ----------

  /** Credit of a positive scored `a` against a negative scored `b`; ties split evenly. */
  function Credit(a: real, b: real): real
  {
    if a > b then 1.0 else if a == b then 0.5 else 0.0
  }

  /** Total credit of a positive scored `x` against the negatives of `(y, s)`. */
  function CreditAgainstNegatives(x: real, y: seq<Bit>, s: seq<real>): (c: real)
    requires |y| == |s|
    ensures 0.0 <= c <= Negatives(y) as real
  {
    if |y| == 0 then 0.0
    else (if y[0] == 0 then Credit(x, s[0]) else 0.0) + CreditAgainstNegatives(x, y[1..], s[1..])
  }

  /** Total credit of the positives of `(yo, so)` against the negatives of `(y, s)`. */
  function PairCredit(yo: seq<Bit>, so: seq<real>, y: seq<Bit>, s: seq<real>): (c: real)
    requires |yo| == |so| && |y| == |s|
    ensures 0.0 <= c <= PairCount(yo, y) as real
  {
    if |yo| == 0 then 0.0
    else (if yo[0] == 1 then CreditAgainstNegatives(so[0], y, s) else 0.0) + PairCredit(yo[1..], so[1..], y, s)
  }

  /** The number of (positive of `yo`, negative of `y`) pairs, counted row by row. */
  function PairCount(yo: seq<Bit>, y: seq<Bit>): nat
  {
    if |yo| == 0 then 0 else (if yo[0] == 1 then Negatives(y) else 0) + PairCount(yo[1..], y)
  }

  lemma {:induction false} PairCountIsProduct(yo: seq<Bit>, y: seq<Bit>)
    ensures PairCount(yo, y) == Positives(yo) * Negatives(y)
  {
    if |yo| > 0 {
      PairCountIsProduct(yo[1..], y);
      assert Positives(yo) == yo[0] + Positives(yo[1..]);
    }
  }

  /** Dividing by a positive number keeps order. */
  lemma DivideMonotone(a: real, b: real, p: real)
    requires 0.0 < p && a <= b
    ensures a / p <= b / p
  {
    var x, z := a / p, b / p;
    assert x * p == a && z * p == b;
  }

  /** The probability that a positive outscores a negative, ties counting one half. */
  function AUROC(y: seq<Bit>, s: seq<real>): (r: real)
    requires |y| == |s| && Positives(y) > 0 && Negatives(y) > 0
    ensures 0.0 <= r <= 1.0
  {
    PairCountIsProduct(y, y);
    var pairs := PairCount(y, y) as real;
    var c := PairCredit(y, s, y, s);
    Interpolation.FractionInUnit(c, pairs);
    c / pairs
  }

  /** A score above every negative's score earns full credit against all of them. */
  lemma {:induction false} FullCreditAboveNegatives(x: real, y: seq<Bit>, s: seq<real>)
    requires |y| == |s|
    requires forall j :: 0 <= j < |y| && y[j] == 0 ==> s[j] < x
    ensures CreditAgainstNegatives(x, y, s) == Negatives(y) as real
  {
    if |y| > 0 {
      FullCreditAboveNegatives(x, y[1..], s[1..]);
      assert SumBits(y) == y[0] + SumBits(y[1..]);
    }
  }

  lemma {:induction false} FullPairCredit(yo: seq<Bit>, so: seq<real>, y: seq<Bit>, s: seq<real>)
    requires |yo| == |so| && |y| == |s|
    requires forall i, j :: 0 <= i < |yo| && 0 <= j < |y| && yo[i] == 1 && y[j] == 0 ==> s[j] < so[i]
    ensures PairCredit(yo, so, y, s) == PairCount(yo, y) as real
  {
    if |yo| > 0 {
      forall i, j | 0 <= i < |yo| - 1 && 0 <= j < |y| && yo[1..][i] == 1 && y[j] == 0 ensures s[j] < so[1..][i] {
        assert yo[1..][i] == yo[i + 1] && so[1..][i] == so[i + 1];
      }
      FullPairCredit(yo[1..], so[1..], y, s);
      var rest := PairCredit(yo[1..], so[1..], y, s);
      if yo[0] == 1 {
        forall j | 0 <= j < |y| && y[j] == 0 ensures s[j] < so[0] {
          assert yo[0] == 1;
        }
        FullCreditAboveNegatives(so[0], y, s);
        assert PairCredit(yo, so, y, s) == CreditAgainstNegatives(so[0], y, s) + rest;
        assert PairCount(yo, y) == Negatives(y) + PairCount(yo[1..], y);
      } else {
        assert PairCredit(yo, so, y, s) == rest;
        assert PairCount(yo, y) == PairCount(yo[1..], y);
      }
    }
  }

  /** Scores that rank every positive above every negative give AUROC 1. */
  lemma PerfectRankingAUROC(y: seq<Bit>, s: seq<real>)
    requires |y| == |s| && Positives(y) > 0 && Negatives(y) > 0
    requires forall i, j :: 0 <= i < |y| && 0 <= j < |y| && y[i] == 1 && y[j] == 0 ==> s[j] < s[i]
    ensures AUROC(y, s) == 1.0
  {
    FullPairCredit(y, s, y, s);
    PairCountIsProduct(y, y);
    ProductPositive(Positives(y), Negatives(y));
    var pairs := PairCount(y, y) as real;
    assert pairs > 0.0 && PairCredit(y, s, y, s) == pairs;
    DivideSelf(pairs);
  }

  lemma ProductPositive(a: nat, b: nat)
    requires a > 0 && b > 0
    ensures a * b > 0
  {
  }

  lemma DivideSelf(p: real)
    requires p > 0.0
    ensures p / p == 1.0
  {
  }

  // ---------- precision-recall curve ----------

  /** True positives at threshold `t`: positives scored at least `t`. */
  function TruePositivesAt(y: seq<Bit>, s: seq<real>, t: real): (n: nat)
    requires |y| == |s|
    ensures n <= Positives(y)
  {
    if |y| == 0 then 0
    else (if y[0] == 1 && s[0] >= t then 1 else 0) + TruePositivesAt(y[1..], s[1..], t)
  }

  /** False positives at threshold `t`: negatives scored at least `t`. */
  function FalsePositivesAt(y: seq<Bit>, s: seq<real>, t: real): (n: nat)
    requires |y| == |s|
    ensures n <= Negatives(y)
  {
    if |y| == 0 then 0
    else (if y[0] == 0 && s[0] >= t then 1 else 0) + FalsePositivesAt(y[1..], s[1..], t)
  }

  /** Raising the threshold never adds true positives. */
  lemma {:induction false} TruePositivesAntitone(y: seq<Bit>, s: seq<real>, t1: real, t2: real)
    requires |y| == |s| && t1 <= t2
    ensures TruePositivesAt(y, s, t2) <= TruePositivesAt(y, s, t1)
  {
    if |y| > 0 {
      TruePositivesAntitone(y[1..], s[1..], t1, t2);
    }
  }

  /** At a threshold no score falls below, every positive is a true positive. */
  lemma {:induction false} TruePositivesAtMinimum(y: seq<Bit>, s: seq<real>, t: real)
    requires |y| == |s| && forall i :: 0 <= i < |s| ==> t <= s[i]
    ensures TruePositivesAt(y, s, t) == Positives(y)
  {
    if |y| > 0 {
      TruePositivesAtMinimum(y[1..], s[1..], t);
    }
  }

  /** A threshold equal to some score is reached by that sample. */
  lemma {:induction false} SomeoneAtThreshold(y: seq<Bit>, s: seq<real>, t: real)
    requires |y| == |s| && t in s
    ensures TruePositivesAt(y, s, t) + FalsePositivesAt(y, s, t) > 0
  {
    if s[0] != t {
      SomeoneAtThreshold(y[1..], s[1..], t);
    }
  }

  function PrecisionAt(y: seq<Bit>, s: seq<real>, t: real): (p: real)
    requires |y| == |s|
    ensures 0.0 <= p <= 1.0
  {
    var tp := TruePositivesAt(y, s, t);
    var predicted := tp + FalsePositivesAt(y, s, t);
    if predicted == 0 then 0.0
    else
      Interpolation.FractionInUnit(tp as real, predicted as real);
      tp as real / predicted as real
  }

  /** Recall; sklearn sets it to 1 when there are no positives at all. */
  function RecallAt(y: seq<Bit>, s: seq<real>, t: real): (r: real)
    requires |y| == |s|
    ensures 0.0 <= r <= 1.0
  {
    var tp := TruePositivesAt(y, s, t);
    if Positives(y) == 0 then 1.0
    else
      Interpolation.FractionInUnit(tp as real, Positives(y) as real);
      tp as real / Positives(y) as real
  }

  lemma RecallAntitone(y: seq<Bit>, s: seq<real>, t1: real, t2: real)
    requires |y| == |s| && t1 <= t2
    ensures RecallAt(y, s, t2) <= RecallAt(y, s, t1)
  {
    TruePositivesAntitone(y, s, t1, t2);
    if Positives(y) > 0 {
      DivideMonotone(TruePositivesAt(y, s, t2) as real, TruePositivesAt(y, s, t1) as real, Positives(y) as real);
    }
  }

  /** The curve as sklearn returns it: one point per distinct score, by increasing
      threshold, followed by the point (recall 0, precision 1). */
  datatype Curve = Curve(precisions: seq<real>, recalls: seq<real>)

  function PrecisionRecallCurve(y: seq<Bit>, s: seq<real>): (c: Curve)
    requires |y| == |s|
    ensures |c.precisions| == |c.recalls| >= 1
  {
    var thresholds := Sorting.DistinctAscending(s);
    Curve(seq(|thresholds|, k requires 0 <= k < |thresholds| => PrecisionAt(y, s, thresholds[k])) + [1.0],
          seq(|thresholds|, k requires 0 <= k < |thresholds| => RecallAt(y, s, thresholds[k])) + [0.0])
  }

  ghost predicate NonIncreasing(xs: seq<real>)
  {
    forall i, j :: 0 <= i < j < |xs| ==> xs[i] >= xs[j]
  }

  ghost predicate InUnit(xs: seq<real>)
  {
    forall i :: 0 <= i < |xs| ==> 0.0 <= xs[i] <= 1.0
  }

  /** Every precision and recall on the curve lies in [0, 1]; the last point is
      (recall 0, precision 1). */
  lemma CurveInUnit(y: seq<Bit>, s: seq<real>)
    requires |y| == |s|
    ensures var c := PrecisionRecallCurve(y, s);
      && InUnit(c.precisions) && InUnit(c.recalls)
      && c.recalls[|c.recalls| - 1] == 0.0 && c.precisions[|c.precisions| - 1] == 1.0
  {
  }

  /** Recall never increases along the curve (thresholds increase along it). */
  lemma CurveRecallsNonIncreasing(y: seq<Bit>, s: seq<real>)
    requires |y| == |s|
    ensures NonIncreasing(PrecisionRecallCurve(y, s).recalls)
  {
    var thresholds := Sorting.DistinctAscending(s);
    var c := PrecisionRecallCurve(y, s);
    var n := |thresholds|;
    forall i, j | 0 <= i < j < |c.recalls| ensures c.recalls[i] >= c.recalls[j] {
      if j < n {
        assert c.recalls[i] == RecallAt(y, s, thresholds[i]);
        assert c.recalls[j] == RecallAt(y, s, thresholds[j]);
        RecallAntitone(y, s, thresholds[i], thresholds[j]);
      } else {
        assert c.recalls[j] == 0.0;
        assert c.recalls[i] == RecallAt(y, s, thresholds[i]) || i == n;
      }
    }
  }

  /** The lowest threshold is the smallest score, at which everything is predicted
      positive: with positives present the first point has recall 1. */
  lemma CurveStartsAtFullRecall(y: seq<Bit>, s: seq<real>)
    requires |y| == |s| && Positives(y) > 0
    ensures PrecisionRecallCurve(y, s).recalls[0] == 1.0
  {
    var thresholds := Sorting.DistinctAscending(s);
    assert |s| > 0;
    assert s[0] in thresholds;
    var t := thresholds[0];
    forall i | 0 <= i < |s| ensures t <= s[i] {
      assert s[i] in thresholds;
      var k :| 0 <= k < |thresholds| && thresholds[k] == s[i];
      assert k == 0 || thresholds[0] < thresholds[k];
    }
    TruePositivesAtMinimum(y, s, t);
    var p := Positives(y) as real;
    DivideSelf(p);
    assert PrecisionRecallCurve(y, s).recalls[0] == RecallAt(y, s, t);
  }

  // ---------- average precision ----------

  /** `-sum(diff(recall) * precision[:-1])`: each drop in recall weighted by the
      precision at the higher-recall end. */
  function AveragePrecisionSum(precisions: seq<real>, recalls: seq<real>): real
    requires |precisions| == |recalls|
  {
    if |recalls| <= 1 then 0.0
    else (recalls[0] - recalls[1]) * precisions[0] + AveragePrecisionSum(precisions[1..], recalls[1..])
  }

  /** On a curve with precisions in [0, 1] and non-increasing recalls, the weighted
      sum lies between zero and the total drop in recall. */
  lemma {:induction false} AveragePrecisionTelescopes(precisions: seq<real>, recalls: seq<real>)
    requires |precisions| == |recalls| >= 1
    requires InUnit(precisions) && NonIncreasing(recalls)
    ensures 0.0 <= AveragePrecisionSum(precisions, recalls) <= recalls[0] - recalls[|recalls| - 1]
  {
    if |recalls| > 1 {
      var p, drop := precisions[0], recalls[0] - recalls[1];
      var ps, rs := precisions[1..], recalls[1..];
      assert InUnit(ps) by {
        forall i | 0 <= i < |ps| ensures 0.0 <= ps[i] <= 1.0 {
          assert ps[i] == precisions[i + 1];
        }
      }
      assert NonIncreasing(rs) by {
        forall i, j | 0 <= i < j < |rs| ensures rs[i] >= rs[j] {
          assert rs[i] == recalls[i + 1] && rs[j] == recalls[j + 1];
        }
      }
      AveragePrecisionTelescopes(ps, rs);
      var rest := AveragePrecisionSum(ps, rs);
      assert 0.0 <= rest <= rs[0] - rs[|rs| - 1];
      assert rs[0] == recalls[1] && rs[|rs| - 1] == recalls[|recalls| - 1];
      assert 0.0 <= drop && 0.0 <= p <= 1.0;
      Interpolation.MulNonNegative(drop, p);
      Interpolation.MulNonNegative(drop, 1.0 - p);
      assert drop * (1.0 - p) == drop - drop * p;
      assert AveragePrecisionSum(precisions, recalls) == drop * p + rest;
    }
  }

  function AveragePrecision(y: seq<Bit>, s: seq<real>): (ap: real)
    requires |y| == |s|
    ensures 0.0 <= ap <= 1.0
  {
    var c := PrecisionRecallCurve(y, s);
    CurveInUnit(y, s);
    CurveRecallsNonIncreasing(y, s);
    AveragePrecisionTelescopes(c.precisions, c.recalls);
    AveragePrecisionSum(c.precisions, c.recalls)
  }

  // ---------- PPV at 90% recall ----------

  function Reverse(xs: seq<real>): (r: seq<real>)
    ensures |r| == |xs| && forall i :: 0 <= i < |xs| ==> r[i] == xs[|xs| - 1 - i]
  {
    if |xs| == 0 then [] else Reverse(xs[1..]) + [xs[0]]
  }

  const RecallTarget: real := 0.9

  /** `np.interp(0.9, recalls[::-1], precisions[::-1])`. */
  function PrecisionAtRecall(c: Curve): (r: real)
    requires |c.precisions| == |c.recalls| >= 1
    ensures (forall i :: 0 <= i < |c.precisions| ==> 0.0 <= c.precisions[i] <= 1.0) ==> 0.0 <= r <= 1.0
  {
    var fp := Reverse(c.precisions);
    if forall i :: 0 <= i < |c.precisions| ==> 0.0 <= c.precisions[i] <= 1.0 then
      Interpolation.InterpBounded(RecallTarget, Reverse(c.recalls), fp, 0.0, 1.0);
      Interpolation.Interp(RecallTarget, Reverse(c.recalls), fp)
    else Interpolation.Interp(RecallTarget, Reverse(c.recalls), fp)
  }

  /** On a curve for data with positives, the reversed recalls run from 0 up to 1, so
      `np.interp` neither clamps nor leaves [0, 1]: the result lies between the
      precisions of the two curve points whose recalls bracket 90%. */
  lemma PrecisionAtRecallBracketed(y: seq<Bit>, s: seq<real>)
    requires |y| == |s| && Positives(y) > 0
    ensures var c := PrecisionRecallCurve(y, s);
      var xp := Reverse(c.recalls);
      var r := PrecisionAtRecall(c);
      && 0.0 <= r <= 1.0
      && Interpolation.NonDecreasing(xp)
      && xp[0] <= RecallTarget <= xp[|xp| - 1]
      && exists j :: 0 <= j < |xp| - 1 && xp[j] <= RecallTarget <= xp[j + 1]
           && Interpolation.Min(Reverse(c.precisions)[j], Reverse(c.precisions)[j + 1]) <= r
           && r <= Interpolation.Max(Reverse(c.precisions)[j], Reverse(c.precisions)[j + 1])
  {
    var c := PrecisionRecallCurve(y, s);
    CurveInUnit(y, s);
    CurveRecallsNonIncreasing(y, s);
    CurveStartsAtFullRecall(y, s);
    var xp := Reverse(c.recalls);
    var fp := Reverse(c.precisions);
    assert xp[0] == 0.0 && xp[|xp| - 1] == 1.0;
    Interpolation.InterpBounded(RecallTarget, xp, fp, 0.0, 1.0);
    var j := Interpolation.LastAtMost(xp, RecallTarget);
    assert j < |xp| - 1;
  }

  // ---------- the three metrics together ----------

  /** AUROC, AUPRC and PPV at 90% recall for one sample, with sklearn's errors. */
  function ComputeMetrics(y: seq<Bit>, s: seq<real>): (r: Result<MetricTriple, MetricError>)
    ensures r.Ok? <==> |y| == |s| && Positives(y) > 0 && Negatives(y) > 0
    ensures r.Err? ==> r.error == (if Positives(y) == 0 || Negatives(y) == 0 then SingleClass else InconsistentLengths)
    ensures r.Ok? ==> && 0.0 <= r.value.auroc <= 1.0
                      && 0.0 <= r.value.auprc <= 1.0
                      && 0.0 <= r.value.ppv90 <= 1.0
  {
    if Positives(y) == 0 || Negatives(y) == 0 then Err(SingleClass)
    else if |y| != |s| then Err(InconsistentLengths)
    else
      PrecisionAtRecallBracketed(y, s);
      Ok(MetricTriple(AUROC(y, s), AveragePrecision(y, s), PrecisionAtRecall(PrecisionRecallCurve(y, s))))
  }
}
