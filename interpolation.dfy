/** `np.interp(x, xp, fp)`: piecewise-linear interpolation with clamping to the
    end values, as numpy's compiled routine computes it for a non-decreasing `xp`. */
module Interpolation {

  ghost predicate NonDecreasing(xs: seq<real>)
  {
    forall i, j :: 0 <= i < j < |xs| ==> xs[i] <= xs[j]
  }

  function Min(a: real, b: real): real { if a <= b then a else b }
  function Max(a: real, b: real): real { if a <= b then b else a }

  /** The last position whose abscissa is at most `x` (numpy's binary search on sorted `xp`). */
  function LastAtMost(xp: seq<real>, x: real): (j: nat)
    requires |xp| > 0 && xp[0] <= x
    ensures j < |xp| && xp[j] <= x
    ensures forall k :: j < k < |xp| ==> x < xp[k]
  {
    if xp[|xp| - 1] <= x then |xp| - 1 else LastAtMost(xp[..|xp| - 1], x)
  }

  /** Linear interpolation between two ordinates stays between them. */
  lemma LerpBetween(a: real, b: real, t: real)
    requires 0.0 <= t <= 1.0
    ensures Min(a, b) <= a + t * (b - a) <= Max(a, b)
  {
    if a <= b {
      MulNonNegative(t, b - a);
      MulNonNegative(1.0 - t, b - a);
    } else {
      MulNonNegative(t, a - b);
      MulNonNegative(1.0 - t, a - b);
    }
  }

  lemma MulNonNegative(u: real, v: real)
    requires 0.0 <= u && 0.0 <= v
    ensures 0.0 <= u * v
  {
  }

  /** A fraction whose numerator lies between zero and its positive denominator lies in [0, 1]. */
  lemma FractionInUnit(e: real, d: real)
    requires 0.0 < d && 0.0 <= e <= d
    ensures 0.0 <= e / d <= 1.0
  {
    var t := e / d;
    assert t * d == e;
  }

  /** `np.interp(x, xp, fp)`. Left of the first abscissa it returns the first ordinate,
      right of the last one the last ordinate; at an abscissa it returns that point's
      ordinate; in between it interpolates between the bracketing points. */
  function Interp(x: real, xp: seq<real>, fp: seq<real>): (r: real)
    requires |xp| == |fp| > 0
    ensures x < xp[0] ==> r == fp[0]
    ensures xp[0] <= x && x > xp[|xp| - 1] ==> r == fp[|fp| - 1]
    ensures xp[0] <= x ==>
      var j := LastAtMost(xp, x);
      && (j == |xp| - 1 || xp[j] == x ==> r == fp[j])
      && (j < |xp| - 1 ==> xp[j] <= x < xp[j + 1] && Min(fp[j], fp[j + 1]) <= r <= Max(fp[j], fp[j + 1]))
  {
    if x < xp[0] then fp[0]
    else if x > xp[|xp| - 1] then fp[|fp| - 1]
    else
      var j := LastAtMost(xp, x);
      if j == |xp| - 1 then fp[j]
      else if xp[j] == x then fp[j]
      else
        var slope := (fp[j + 1] - fp[j]) / (xp[j + 1] - xp[j]);
        var t := (x - xp[j]) / (xp[j + 1] - xp[j]);
        assert slope * (x - xp[j]) == t * (fp[j + 1] - fp[j]);
        FractionInUnit(x - xp[j], xp[j + 1] - xp[j]);
        LerpBetween(fp[j], fp[j + 1], t);
        slope * (x - xp[j]) + fp[j]
  }

  /** Within the range of a sorted `xp`, the result lies between two consecutive
      ordinates; in particular it lies between the smallest and largest ordinate. */
  lemma InterpBounded(x: real, xp: seq<real>, fp: seq<real>, lo: real, hi: real)
    requires |xp| == |fp| > 0
    requires forall i :: 0 <= i < |fp| ==> lo <= fp[i] <= hi
    ensures lo <= Interp(x, xp, fp) <= hi
  {
  }
}
