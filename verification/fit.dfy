/**
 * `fitChildren`: the 64 freshly generated child statistics are re-centred on
 * the parent's mean and stretched uniformly so that they fit the parent's
 * envelope. Then the first child attaining the lowest min is snapped to the
 * parent's min, and the first attaining the highest max to the parent's max.
 */
module Fit {
  import opened Stats

  /** The points re-expressed relative to `center` (`relative`). */
  function Relative(points: seq<Stat>, center: real): (r: seq<Stat>)
    ensures |r| == |points|
  {
    seq(|points|, i requires 0 <= i < |points| =>
      Stat(points[i].min - center, points[i].mean - center, points[i].max - center))
  }

  /**
   * `Array.prototype.findIndex` with the predicate `p => key(p) === v`:
   * the first index whose key equals `v`, or -1 when there is none.
   */
  function FindIndex(s: seq<Stat>, key: Stat -> real, v: real): (i: int)
    ensures -1 <= i < |s|
    ensures 0 <= i ==> key(s[i]) == v && forall j :: 0 <= j < i ==> key(s[j]) != v
    ensures i == -1 ==> forall j :: 0 <= j < |s| ==> key(s[j]) != v
  {
    if s == [] then -1
    else if key(s[0]) == v then 0
    else
      var k := FindIndex(s[1..], key, v);
      assert forall j :: 1 <= j < |s| ==> s[1..][j - 1] == s[j];
      if k == -1 then -1 else k + 1
  }

  /** Shifting every record by the same amount shifts the extremes by that amount. */
  lemma RelativeExtremes(points: seq<Stat>, c: real)
    requires |points| > 0
    ensures MinOfMins(Relative(points, c)) == MinOfMins(points) - c
    ensures MaxOfMaxes(Relative(points, c)) == MaxOfMaxes(points) - c
  {
    var rel := Relative(points, c);
    var lo, hi := MinOfMins(points), MaxOfMaxes(points);
    forall k | 0 <= k < |rel|
      ensures lo - c <= rel[k].min && rel[k].max <= hi - c
    {
      assert lo <= points[k].min && points[k].max <= hi;
    }
    var i :| 0 <= i < |points| && points[i].min == lo;
    var j :| 0 <= j < |points| && points[j].max == hi;
    assert rel[i].min == lo - c && rel[j].max == hi - c;
    MinOfMinsIs(rel, lo - c);
    MaxOfMaxesIs(rel, hi - c);
  }

  /** A lower bound that is attained is the min of mins. */
  lemma MinOfMinsIs(s: seq<Stat>, v: real)
    requires forall i :: 0 <= i < |s| ==> v <= s[i].min
    requires exists i :: 0 <= i < |s| && s[i].min == v
    ensures MinOfMins(s) == v
  {
  }

  /** An upper bound that is attained is the max of maxes. */
  lemma MaxOfMaxesIs(s: seq<Stat>, v: real)
    requires forall i :: 0 <= i < |s| ==> s[i].max <= v
    requires exists i :: 0 <= i < |s| && s[i].max == v
    ensures MaxOfMaxes(s) == v
  {
  }

  /** `fit(k)`: scaling the local extremes by `k` keeps them inside the global ones. */
  predicate Fits(gMin: real, gMax: real, lMin: real, lMax: real, k: real) {
    gMin <= lMin * k && lMax * k <= gMax
  }

  /**
   * The stretch factor: `minStretch` when it fits, `maxStretch` otherwise.
   * A zero local extreme makes the JavaScript quotient infinite or NaN, and
   * `fit` of such a quotient is false, so `minStretch` is never taken then;
   * a zero `localRelMax` reached here is given the factor 0.
   */
  function Stretch(lMin: real, lMax: real, gMin: real, gMax: real): real
  {
    if lMin != 0.0 && Fits(gMin, gMax, lMin, lMax, gMin / lMin) then gMin / lMin
    else if lMax != 0.0 then gMax / lMax
    else 0.0
  }

  /**
   * With the local extremes on either side of zero and the global ones too,
   * the chosen stretch is non-negative and fits.
   */
  lemma StretchFits(lMin: real, lMax: real, gMin: real, gMax: real)
    requires lMin <= 0.0 <= lMax && gMin <= 0.0 <= gMax
    ensures Stretch(lMin, lMax, gMin, gMax) >= 0.0
    ensures Fits(gMin, gMax, lMin, lMax, Stretch(lMin, lMax, gMin, gMax))
  {
    if lMin != 0.0 && Fits(gMin, gMax, lMin, lMax, gMin / lMin) {
      QuotientNonNegative(gMin, lMin);
    } else if lMax != 0.0 {
      var k := gMax / lMax;
      QuotientNonNegative(gMax, lMax);
      if lMin != 0.0 {
        QuotientCancels(gMin, lMin);
        MinSideWhenMaxBinds(lMin, lMax, gMin, gMax);
      }
      QuotientCancels(gMax, lMax);
    }
  }

  /**
   * When both local extremes are strictly on either side of zero, the chosen
   * stretch is the smaller of `minStretch` and `maxStretch`.
   */
  lemma StretchIsSmaller(lMin: real, lMax: real, gMin: real, gMax: real)
    requires lMin < 0.0 < lMax && gMin <= 0.0 <= gMax
    ensures var ms, xs := gMin / lMin, gMax / lMax;
            Stretch(lMin, lMax, gMin, gMax) == if ms <= xs then ms else xs
  {
    var ms, xs := gMin / lMin, gMax / lMax;
    QuotientCancels(gMin, lMin);
    if Fits(gMin, gMax, lMin, lMax, ms) {
      UpperFromProduct(lMax, ms, gMax);
    } else {
      LowerFromProduct(lMax, ms, gMax);
    }
  }

  lemma QuotientNonNegative(g: real, l: real)
    requires (g <= 0.0 && l < 0.0) || (g >= 0.0 && l > 0.0)
    ensures g / l >= 0.0
  {
  }

  lemma QuotientCancels(g: real, l: real)
    requires l != 0.0
    ensures l * (g / l) == g
  {
  }

  lemma UpperFromProduct(l: real, k: real, g: real)
    requires l > 0.0 && l * k <= g
    ensures k <= g / l
  {
  }

  lemma LowerFromProduct(l: real, k: real, g: real)
    requires l > 0.0 && l * k > g
    ensures k > g / l
  {
  }

  /** `minStretch` overshoots the max bound, so the max bound's stretch keeps the min side inside. */
  lemma MinSideWhenMaxBinds(lMin: real, lMax: real, gMin: real, gMax: real)
    requires lMin < 0.0 < lMax && gMin <= 0.0 <= gMax
    requires !(lMax * (gMin / lMin) <= gMax)
    ensures gMin <= lMin * (gMax / lMax)
  {
    var a, b := -lMin, lMax;
    var g1, g2 := -gMin, gMax;
    assert gMin / lMin == g1 / a;
    assert b * (g1 / a) > g2;
    CrossMultiply(a, b, g1, g2);
    assert lMin * (gMax / lMax) == -(a * (g2 / b));
  }

  lemma CrossMultiply(a: real, b: real, g1: real, g2: real)
    requires a > 0.0 && b > 0.0 && b * (g1 / a) > g2
    ensures a * (g2 / b) < g1
  {
    assert b * g1 > a * g2 by {
      assert b * (g1 / a) * a == b * g1;
    }
  }

  /** The key `indexOfMin` searches on. */
  function MinKey(p: Stat): real { p.min }

  /** The key `indexOfMax` searches on. */
  function MaxKey(p: Stat): real { p.max }

  /** A non-empty sequence attains its lowest min and its highest max, so both searches succeed. */
  lemma ExtremesFound(rel: seq<Stat>)
    requires |rel| > 0
    ensures 0 <= FindIndex(rel, MinKey, MinOfMins(rel))
    ensures 0 <= FindIndex(rel, MaxKey, MaxOfMaxes(rel))
  {
    var i :| 0 <= i < |rel| && rel[i].min == MinOfMins(rel);
    var j :| 0 <= j < |rel| && rel[j].max == MaxOfMaxes(rel);
    assert MinKey(rel[i]) == MinOfMins(rel) && MaxKey(rel[j]) == MaxOfMaxes(rel);
  }

  /** `indexOfMin`: the first point whose min is the lowest min. */
  function IndexOfMin(points: seq<Stat>): (i: nat)
    requires |points| > 0
    ensures i < |points| && points[i].min == MinOfMins(points)
    ensures forall j :: 0 <= j < i ==> points[j].min != MinOfMins(points)
  {
    var rel := Relative(points, MeanOfMeans(points));
    FirstLowest(points);
    FindIndex(rel, MinKey, MinOfMins(rel))
  }

  /** `indexOfMax`: the first point whose max is the highest max. */
  function IndexOfMax(points: seq<Stat>): (i: nat)
    requires |points| > 0
    ensures i < |points| && points[i].max == MaxOfMaxes(points)
    ensures forall j :: 0 <= j < i ==> points[j].max != MaxOfMaxes(points)
  {
    var rel := Relative(points, MeanOfMeans(points));
    FirstHighest(points);
    FindIndex(rel, MaxKey, MaxOfMaxes(rel))
  }

  /** Searching the relative points for their lowest min finds the first lowest min of the points. */
  lemma FirstLowest(points: seq<Stat>)
    requires |points| > 0
    ensures var rel := Relative(points, MeanOfMeans(points));
            var i := FindIndex(rel, MinKey, MinOfMins(rel));
            0 <= i < |points| && points[i].min == MinOfMins(points)
            && forall j :: 0 <= j < i ==> points[j].min != MinOfMins(points)
  {
    var c := MeanOfMeans(points);
    var rel := Relative(points, c);
    RelativeExtremes(points, c);
    ExtremesFound(rel);
    var i := FindIndex(rel, MinKey, MinOfMins(rel));
    assert MinKey(rel[i]) == MinOfMins(rel);
    forall j | 0 <= j < i
      ensures points[j].min != MinOfMins(points)
    {
      assert MinKey(rel[j]) != MinOfMins(rel);
    }
  }

  /** Searching the relative points for their highest max finds the first highest max of the points. */
  lemma FirstHighest(points: seq<Stat>)
    requires |points| > 0
    ensures var rel := Relative(points, MeanOfMeans(points));
            var i := FindIndex(rel, MaxKey, MaxOfMaxes(rel));
            0 <= i < |points| && points[i].max == MaxOfMaxes(points)
            && forall j :: 0 <= j < i ==> points[j].max != MaxOfMaxes(points)
  {
    var c := MeanOfMeans(points);
    var rel := Relative(points, c);
    RelativeExtremes(points, c);
    ExtremesFound(rel);
    var i := FindIndex(rel, MaxKey, MaxOfMaxes(rel));
    assert MaxKey(rel[i]) == MaxOfMaxes(rel);
    forall j | 0 <= j < i
      ensures points[j].max != MaxOfMaxes(points)
    {
      assert MaxKey(rel[j]) != MaxOfMaxes(rel);
    }
  }

  /** The stretch `fitChildren` uses for these points and this parent. */
  function StretchFor(points: seq<Stat>, parent: Stat): real
    requires |points| > 0
  {
    var rel := Relative(points, MeanOfMeans(points));
    Stretch(MinOfMins(rel), MaxOfMaxes(rel), parent.min - parent.mean, parent.max - parent.mean)
  }

  /** `fitPoint`: a relative point moved onto the parent's mean and scaled by `k`. */
  function FitPoint(rel: Stat, mean: real, k: real): Stat {
    Stat(mean + rel.min * k, mean + rel.mean * k, mean + rel.max * k)
  }

  /** The fitted points, given the relative points, the stretch and the two snapped indices. */
  function Snapped(rel: seq<Stat>, parent: Stat, k: real, iMin: nat, iMax: nat): (r: seq<Stat>)
    ensures |r| == |rel|
  {
    seq(|rel|, i requires 0 <= i < |rel| =>
      var p := FitPoint(rel[i], parent.mean, k);
      Stat(if i == iMin then parent.min else p.min, p.mean, if i == iMax then parent.max else p.max))
  }

  /**
   * What `fitChildren` returns: every point re-centred on the parent's mean
   * with its offsets scaled by the stretch, except that the first lowest min
   * is the parent's min and the first highest max is the parent's max.
   */
  function Fitted(points: seq<Stat>, parent: Stat): (r: seq<Stat>)
    requires |points| > 0
    ensures |r| == |points|
  {
    Snapped(Relative(points, MeanOfMeans(points)), parent, StretchFor(points, parent),
            IndexOfMin(points), IndexOfMax(points))
  }

  /** `fitChildren`: build the stretched points, then overwrite the two extremes. */
  method FitChildren(points: seq<Stat>, parent: Stat) returns (r: seq<Stat>)
    requires |points| > 0
    ensures r == Fitted(points, parent)
  {
    var center := MeanOfMeans(points);
    var relative := Relative(points, center);
    var localRelMin := MinOfMins(relative);
    var localRelMax := MaxOfMaxes(relative);
    var indexOfMin := FindIndex(relative, MinKey, localRelMin);
    var indexOfMax := FindIndex(relative, MaxKey, localRelMax);
    ExtremesFound(relative);
    var globalRelMin := parent.min - parent.mean;
    var globalRelMax := parent.max - parent.mean;
    var stretch := Stretch(localRelMin, localRelMax, globalRelMin, globalRelMax);
    var fitPoints := seq(|relative|, i requires 0 <= i < |relative| => FitPoint(relative[i], parent.mean, stretch));
    ghost var stretched := fitPoints;
    fitPoints := fitPoints[indexOfMin := fitPoints[indexOfMin].(min := parent.min)];
    ghost var once := fitPoints;
    fitPoints := fitPoints[indexOfMax := fitPoints[indexOfMax].(max := parent.max)];
    r := fitPoints;
    SnapTwice(relative, parent, stretch, indexOfMin, indexOfMax, stretched, once, r);
    FittedUnfolds(points, parent);
  }

  /** `Fitted` is the stretch and the two searches applied to the relative points. */
  lemma FittedUnfolds(points: seq<Stat>, parent: Stat)
    requires |points| > 0
    ensures var rel := Relative(points, MeanOfMeans(points));
            Fitted(points, parent) == Snapped(rel, parent,
              Stretch(MinOfMins(rel), MaxOfMaxes(rel), parent.min - parent.mean, parent.max - parent.mean),
              FindIndex(rel, MinKey, MinOfMins(rel)), FindIndex(rel, MaxKey, MaxOfMaxes(rel)))
  {
  }

  /** Overwriting the min at `iMin`, then the max at `iMax`, of the stretched points gives `Snapped`. */
  lemma SnapTwice(rel: seq<Stat>, parent: Stat, k: real, iMin: nat, iMax: nat,
                  stretched: seq<Stat>, once: seq<Stat>, r: seq<Stat>)
    requires iMin < |rel| && iMax < |rel| && |stretched| == |rel|
    requires forall i :: 0 <= i < |rel| ==> stretched[i] == FitPoint(rel[i], parent.mean, k)
    requires once == stretched[iMin := stretched[iMin].(min := parent.min)]
    requires r == once[iMax := once[iMax].(max := parent.max)]
    ensures r == Snapped(rel, parent, k, iMin, iMax)
  {
    var snapped := Snapped(rel, parent, k, iMin, iMax);
    forall i | 0 <= i < |rel|
      ensures r[i] == snapped[i]
    {
      var p := FitPoint(rel[i], parent.mean, k);
      assert stretched[i] == p;
    }
  }

  /** The fit returns as many points as it was given, with the two extremes flush against the parent. */
  lemma FittedSnaps(points: seq<Stat>, parent: Stat)
    requires |points| > 0
    ensures |Fitted(points, parent)| == |points|
    ensures forall i :: 0 <= i < |points| && points[i].min == MinOfMins(points)
              && (forall j :: 0 <= j < i ==> points[j].min != MinOfMins(points))
              ==> Fitted(points, parent)[i].min == parent.min
    ensures forall i :: 0 <= i < |points| && points[i].max == MaxOfMaxes(points)
              && (forall j :: 0 <= j < i ==> points[j].max != MaxOfMaxes(points))
              ==> Fitted(points, parent)[i].max == parent.max
  {
    var iMin, iMax := IndexOfMin(points), IndexOfMax(points);
    forall i | 0 <= i < |points| && points[i].min == MinOfMins(points)
        && (forall j :: 0 <= j < i ==> points[j].min != MinOfMins(points))
      ensures Fitted(points, parent)[i].min == parent.min
    {
      assert i == iMin;
    }
    forall i | 0 <= i < |points| && points[i].max == MaxOfMaxes(points)
        && (forall j :: 0 <= j < i ==> points[j].max != MaxOfMaxes(points))
      ensures Fitted(points, parent)[i].max == parent.max
    {
      assert i == iMax;
    }
  }

  lemma ScaleMono(x: real, y: real, k: real)
    requires x <= y && k >= 0.0
    ensures x * k <= y * k
  {
  }

  /**
   * The points do not all sit on one value: their extremes differ. Then at
   * least one relative extreme is non-zero, so the stretch `fitChildren`
   * picks is a finite quotient; flat points make it divide zero by zero.
   */
  predicate Spread(points: seq<Stat>)
    requires |points| > 0
  {
    MinOfMins(points) < MaxOfMaxes(points)
  }

  /** Ordered points that are spread have a non-zero relative extreme. */
  lemma SpreadHasOffset(points: seq<Stat>)
    requires |points| > 0 && Spread(points)
    requires forall i :: 0 <= i < |points| ==> Ordered(points[i])
    ensures var rel := Relative(points, MeanOfMeans(points));
      MinOfMins(rel) < 0.0 || MaxOfMaxes(rel) > 0.0
  {
    MeanOfMeansBetween(points);
    RelativeExtremes(points, MeanOfMeans(points));
  }

  /**
   * Ordered points that are not spread all equal their mean; both relative
   * extremes are zero and the model's stretch is 0 (the JavaScript one is
   * `0 / 0`, which is NaN).
   */
  lemma FlatStretchIsZero(points: seq<Stat>, parent: Stat)
    requires |points| > 0 && !Spread(points)
    requires forall i :: 0 <= i < |points| ==> Ordered(points[i])
    ensures var rel := Relative(points, MeanOfMeans(points));
      MinOfMins(rel) == 0.0 && MaxOfMaxes(rel) == 0.0
    ensures StretchFor(points, parent) == 0.0
  {
    MeanOfMeansBetween(points);
    RelativeExtremes(points, MeanOfMeans(points));
  }

  /**
   * Containment: when the parent and every point are ordered and the points
   * are spread, every fitted point is ordered and lies within the parent's
   * envelope, and the fitted points reach both of the parent's extremes.
   */
  lemma FittedContained(points: seq<Stat>, parent: Stat)
    requires |points| > 0 && Spread(points) && Ordered(parent)
    requires forall i :: 0 <= i < |points| ==> Ordered(points[i])
    ensures forall i :: 0 <= i < |points| ==>
              Ordered(Fitted(points, parent)[i]) && Within(Fitted(points, parent)[i], parent.min, parent.max)
    ensures MinOfMins(Fitted(points, parent)) == parent.min
    ensures MaxOfMaxes(Fitted(points, parent)) == parent.max
  {
    var c := MeanOfMeans(points);
    var rel := Relative(points, c);
    MeanOfMeansBetween(points);
    RelativeExtremes(points, c);
    assert forall i :: 0 <= i < |rel| ==> Ordered(rel[i]) by {
      forall i | 0 <= i < |rel| ensures Ordered(rel[i]) {
        assert Ordered(points[i]);
      }
    }
    StretchFits(MinOfMins(rel), MaxOfMaxes(rel), parent.min - parent.mean, parent.max - parent.mean);
    SnappedContained(rel, parent, StretchFor(points, parent), IndexOfMin(points), IndexOfMax(points));
  }

  /** Containment for the stretch `fitChildren` picks and any two snapped indices. */
  lemma {:induction false} SnappedContained(rel: seq<Stat>, parent: Stat, k: real, iMin: nat, iMax: nat)
    requires iMin < |rel| && iMax < |rel| && Ordered(parent)
    requires forall i :: 0 <= i < |rel| ==> Ordered(rel[i])
    requires MinOfMins(rel) <= 0.0 <= MaxOfMaxes(rel)
    requires k >= 0.0 && Fits(parent.min - parent.mean, parent.max - parent.mean, MinOfMins(rel), MaxOfMaxes(rel), k)
    ensures forall i :: 0 <= i < |rel| ==>
              Ordered(Snapped(rel, parent, k, iMin, iMax)[i])
              && Within(Snapped(rel, parent, k, iMin, iMax)[i], parent.min, parent.max)
    ensures MinOfMins(Snapped(rel, parent, k, iMin, iMax)) == parent.min
    ensures MaxOfMaxes(Snapped(rel, parent, k, iMin, iMax)) == parent.max
  {
    var lMin, lMax := MinOfMins(rel), MaxOfMaxes(rel);
    var gMin, gMax := parent.min - parent.mean, parent.max - parent.mean;
    var r := Snapped(rel, parent, k, iMin, iMax);
    forall i | 0 <= i < |rel|
      ensures Ordered(r[i]) && Within(r[i], parent.min, parent.max)
    {
      var p := FitPoint(rel[i], parent.mean, k);
      PointContained(rel[i], lMin, lMax, k, parent);
      assert r[i] == Stat(if i == iMin then parent.min else p.min, p.mean, if i == iMax then parent.max else p.max);
    }
    assert r[iMin].min == parent.min && r[iMax].max == parent.max;
    MinOfMinsIs(r, parent.min);
    MaxOfMaxesIs(r, parent.max);
  }

  /** One stretched point: ordered offsets stay ordered and inside the envelope. */
  lemma PointContained(rel: Stat, lMin: real, lMax: real, k: real, parent: Stat)
    requires lMin <= rel.min && Ordered(rel) && rel.max <= lMax && k >= 0.0
    requires Fits(parent.min - parent.mean, parent.max - parent.mean, lMin, lMax, k)
    ensures Ordered(FitPoint(rel, parent.mean, k))
    ensures Within(FitPoint(rel, parent.mean, k), parent.min, parent.max)
  {
    ScaleMono(lMin, rel.min, k);
    ScaleMono(rel.min, rel.mean, k);
    ScaleMono(rel.mean, rel.max, k);
    ScaleMono(rel.max, lMax, k);
  }

  /** Mean preservation: spread points, once fitted, average to the parent's mean. */
  lemma {:induction false} FittedMean(points: seq<Stat>, parent: Stat)
    requires |points| > 0 && Spread(points)
    ensures MeanOfMeans(Fitted(points, parent)) == parent.mean
  {
    var c := MeanOfMeans(points);
    var rel := Relative(points, c);
    var n := |points| as real;
    RelativeSum(points, c);
    assert c == SumOfMeans(points) / n;
    ZeroSum(SumOfMeans(rel), SumOfMeans(points), n, c);
    SnappedMean(rel, parent, StretchFor(points, parent), IndexOfMin(points), IndexOfMax(points));
  }

  /** Snapping touches only mins and maxes, so relative means summing to zero average to the parent's mean. */
  lemma {:induction false} SnappedMean(rel: seq<Stat>, parent: Stat, k: real, iMin: nat, iMax: nat)
    requires |rel| > 0 && SumOfMeans(rel) == 0.0
    ensures MeanOfMeans(Snapped(rel, parent, k, iMin, iMax)) == parent.mean
  {
    var r := Snapped(rel, parent, k, iMin, iMax);
    forall i | 0 <= i < |rel|
      ensures r[i].mean == parent.mean + rel[i].mean * k
    {
      assert r[i].mean == FitPoint(rel[i], parent.mean, k).mean;
    }
    SumAffine(rel, r, parent.mean, k);
    assert SumOfMeans(rel) * k == 0.0;
    MeanOfConstantSum(SumOfMeans(r), |rel| as real, parent.mean);
  }

  /** Shifting every mean by `c` shifts their sum by `c` per point. */
  lemma {:induction false} RelativeSum(points: seq<Stat>, c: real)
    ensures SumOfMeans(Relative(points, c)) == SumOfMeans(points) - (|points| as real) * c
  {
    var rel := Relative(points, c);
    forall i | 0 <= i < |points|
      ensures rel[i].mean == -c + points[i].mean * 1.0
    {
    }
    SumAffine(points, rel, -c, 1.0);
  }

  lemma ZeroSum(shifted: real, sum: real, n: real, c: real)
    requires n > 0.0 && c == sum / n && shifted == sum - n * c
    ensures shifted == 0.0
  {
    QuotientCancels(sum, n);
  }

  lemma MeanOfConstantSum(sum: real, n: real, a: real)
    requires n > 0.0 && sum == n * a
    ensures sum / n == a
  {
  }

  /** Moving every mean by the same affine map moves their sum accordingly. */
  lemma {:induction false} SumAffine(s: seq<Stat>, r: seq<Stat>, a: real, k: real)
    requires |r| == |s|
    requires forall i :: 0 <= i < |s| ==> r[i].mean == a + s[i].mean * k
    ensures SumOfMeans(r) == (|s| as real) * a + SumOfMeans(s) * k
  {
    if s == [] {
      assert r == [];
    } else {
      forall i | 0 <= i < |s| - 1
        ensures r[1..][i].mean == a + s[1..][i].mean * k
      {
        assert r[1..][i] == r[i + 1] && s[1..][i] == s[i + 1];
      }
      SumAffine(s[1..], r[1..], a, k);
      assert SumOfMeans(r) == r[0].mean + SumOfMeans(r[1..]);
      assert SumOfMeans(s) == s[0].mean + SumOfMeans(s[1..]);
      assert r[0].mean == a + s[0].mean * k;
      AffineStep(s[0].mean, r[0].mean, SumOfMeans(s[1..]), SumOfMeans(r[1..]), SumOfMeans(s), SumOfMeans(r),
                 |s[1..]| as real, |s| as real, a, k);
    }
  }

  lemma AffineStep(x: real, xR: real, rest: real, restR: real, sum: real, sumR: real, m: real, n: real, a: real, k: real)
    requires xR == a + x * k && restR == m * a + rest * k && n == m + 1.0
    requires sum == x + rest && sumR == xR + restR
    ensures sumR == n * a + sum * k
  {
  }
}
