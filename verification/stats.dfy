/**
 * The `{min, mean, max}` record that every cache node carries, the d3-array
 * aggregates the generator takes over a list of such records, and the
 * mid-resolution groupings of a node's 64 children (`midResChildren`).
 */
module Stats {
  import opened Powers

  /** Number of children of every expanded node. */
  const NumChildren := 64
  /** `cacheWrite` stores the groupings for resolutions 0 .. 5. */
  const NumMidRes := 6

  datatype Stat = Stat(min: real, mean: real, max: real)

  /** A path of child indices, each naming one of the 64 children. */
  predicate ValidPath(path: seq<int>) {
    forall i :: 0 <= i < |path| ==> 0 <= path[i] < NumChildren
  }

  /** The shape every statistic should have: the mean lies between the extremes. */
  predicate Ordered(s: Stat) {
    s.min <= s.mean <= s.max
  }

  /** The statistic lies inside the envelope `[lo, hi]`. */
  predicate Within(s: Stat, lo: real, hi: real) {
    lo <= s.min && s.max <= hi
  }

  /** `d3array.min(points, p => p.min)` */
  function MinOfMins(s: seq<Stat>): (r: real)
    requires |s| > 0
    ensures forall i :: 0 <= i < |s| ==> r <= s[i].min
    ensures exists i :: 0 <= i < |s| && s[i].min == r
  {
    if |s| == 1 then s[0].min
    else
      var rest := MinOfMins(s[1..]);
      assert forall i :: 1 <= i < |s| ==> s[1..][i - 1] == s[i];
      if s[0].min <= rest then s[0].min else rest
  }

  /** `d3array.max(points, p => p.max)` */
  function MaxOfMaxes(s: seq<Stat>): (r: real)
    requires |s| > 0
    ensures forall i :: 0 <= i < |s| ==> s[i].max <= r
    ensures exists i :: 0 <= i < |s| && s[i].max == r
  {
    if |s| == 1 then s[0].max
    else
      var rest := MaxOfMaxes(s[1..]);
      assert forall i :: 1 <= i < |s| ==> s[1..][i - 1] == s[i];
      if s[0].max >= rest then s[0].max else rest
  }

  /** `d3array.sum(points, p => p.mean)` */
  function SumOfMeans(s: seq<Stat>): real
  {
    if s == [] then 0.0 else s[0].mean + SumOfMeans(s[1..])
  }

  /** The arithmetic mean of the means, `sum / points.length`. */
  function MeanOfMeans(s: seq<Stat>): real
    requires |s| > 0
  {
    SumOfMeans(s) / (|s| as real)
  }

  /** Bounds on the means bound their sum. */
  lemma {:induction false} SumOfMeansBounds(s: seq<Stat>, lo: real, hi: real)
    requires forall i :: 0 <= i < |s| ==> lo <= s[i].mean <= hi
    ensures (|s| as real) * lo <= SumOfMeans(s) <= (|s| as real) * hi
  {
    if s != [] {
      assert forall i :: 0 <= i < |s| - 1 ==> s[1..][i] == s[i + 1];
      SumOfMeansBounds(s[1..], lo, hi);
    }
  }

  /** Bounds on every mean bound their average. */
  lemma MeanOfMeansWithin(s: seq<Stat>, lo: real, hi: real)
    requires |s| > 0
    requires forall i :: 0 <= i < |s| ==> lo <= s[i].mean <= hi
    ensures lo <= MeanOfMeans(s) <= hi
  {
    SumOfMeansBounds(s, lo, hi);
    DivideBounds(SumOfMeans(s), |s| as real, lo, hi);
  }

  /** Given ordered records, the average mean lies between the smallest min and the largest max. */
  lemma MeanOfMeansBetween(s: seq<Stat>)
    requires |s| > 0
    requires forall i :: 0 <= i < |s| ==> Ordered(s[i])
    ensures MinOfMins(s) <= MeanOfMeans(s) <= MaxOfMaxes(s)
  {
    assert forall i :: 0 <= i < |s| ==> MinOfMins(s) <= s[i].mean <= MaxOfMaxes(s);
    MeanOfMeansWithin(s, MinOfMins(s), MaxOfMaxes(s));
  }

  lemma DivideBounds(sum: real, n: real, lo: real, hi: real)
    requires n > 0.0 && n * lo <= sum <= n * hi
    ensures lo <= sum / n <= hi
  {
  }

  /** One mid-resolution point: the aggregate of a run of children (`midResPoint`). */
  function Aggregate(points: seq<Stat>): (r: Stat)
    requires |points| > 0
    ensures forall i :: 0 <= i < |points| ==> r.min <= points[i].min && points[i].max <= r.max
    ensures (exists i :: 0 <= i < |points| && r.min == points[i].min)
         && (exists i :: 0 <= i < |points| && r.max == points[i].max)
    ensures (|points| as real) * r.mean == SumOfMeans(points)
  {
    Stat(MinOfMins(points), MeanOfMeans(points), MaxOfMaxes(points))
  }

  lemma AggregateOrdered(points: seq<Stat>)
    requires |points| > 0
    requires forall i :: 0 <= i < |points| ==> Ordered(points[i])
    ensures Ordered(Aggregate(points))
  {
    MeanOfMeansBetween(points);
  }

  /** `64 / 2 ** res`: how many children each mid-resolution point covers. */
  function GroupWidth(res: nat): (w: nat)
    requires res <= NumMidRes
    ensures w == Pow2(NumMidRes - res) && Pow2(res) * w == NumChildren
  {
    Pow2Add(res, NumMidRes - res);
    assert Pow2(6) == 64;
    64 / Pow2(res)
  }

  /** `children.slice(i * width, (i + 1) * width)` */
  function Group(children: seq<Stat>, res: nat, i: nat): (g: seq<Stat>)
    requires |children| == NumChildren && res <= NumMidRes && i < Pow2(res)
    ensures |g| == GroupWidth(res) > 0
  {
    var w := GroupWidth(res);
    var lo := GroupStart(res, i);
    children[lo .. lo + w]
  }

  /** `i * width`, the first child covered by group `i`. */
  function GroupStart(res: nat, i: nat): (lo: nat)
    requires res <= NumMidRes && i < Pow2(res)
    ensures lo == i * GroupWidth(res) && lo + GroupWidth(res) <= NumChildren
  {
    var w := GroupWidth(res);
    MulLeftMono(i + 1, Pow2(res), w);
    MulSucc(i, w);
    i * w
  }

  lemma MulLeftMono(a: nat, b: nat, w: nat)
    requires a <= b
    ensures a * w <= b * w
  {
  }

  lemma MulSucc(a: nat, w: nat)
    ensures (a + 1) * w == a * w + w
  {
  }

  /** `midResChildren(children, res)`: the children in `2 ** res` equal runs, aggregated. */
  function MidResChildren(children: seq<Stat>, res: nat): (r: seq<Stat>)
    requires |children| == NumChildren && res <= NumMidRes
    ensures |r| == Pow2(res)
  {
    seq(Pow2(res), i requires 0 <= i < Pow2(res) => Aggregate(Group(children, res, i)))
  }

  /** The six groupings `cacheWrite` stores, for resolutions 0 to 5. */
  function AllMidRes(children: seq<Stat>): (r: seq<seq<Stat>>)
    requires |children| == NumChildren
    ensures |r| == NumMidRes
    ensures forall res :: 0 <= res < NumMidRes ==> |r[res]| == Pow2(res)
  {
    seq(NumMidRes, res requires 0 <= res < NumMidRes => MidResChildren(children, res))
  }

  /**
   * Every child lies inside the envelope of the group that covers it, the
   * group with index `j / width`, and each group's extremes are attained by
   * one of the children it covers.
   */
  lemma MidResCoversChild(children: seq<Stat>, res: nat, j: nat)
    requires |children| == NumChildren && res <= NumMidRes && j < NumChildren
    ensures j / GroupWidth(res) < Pow2(res)
    ensures var g := MidResChildren(children, res)[j / GroupWidth(res)];
      g.min <= children[j].min && children[j].max <= g.max
  {
    var i := GroupOf(res, j);
    var lo := GroupStart(res, i);
    var grp := Group(children, res, i);
    var k := j - lo;
    assert grp[k] == children[j];
    var g := Aggregate(grp);
    assert g.min <= grp[k].min && grp[k].max <= g.max;
    assert MidResChildren(children, res)[i] == g;
  }

  /** The group covering child `j`: the one with index `j / width`. */
  lemma GroupOf(res: nat, j: nat) returns (i: nat)
    requires res <= NumMidRes && j < NumChildren
    ensures i == j / GroupWidth(res) && i < Pow2(res)
    ensures GroupStart(res, i) <= j < GroupStart(res, i) + GroupWidth(res)
  {
    var w := GroupWidth(res);
    DivBelow(j, w, Pow2(res));
    i := j / w;
  }

  lemma DivBelow(j: nat, w: nat, p: nat)
    requires w > 0 && j < p * w
    ensures j / w < p && (j / w) * w <= j < (j / w + 1) * w
  {
    if j / w >= p {
      MulLeftMono(p, j / w, w);
    }
  }

  /** Each group's min and max are those of children it covers. */
  lemma MidResAttained(children: seq<Stat>, res: nat, i: nat)
    requires |children| == NumChildren && res <= NumMidRes && i < Pow2(res)
    ensures var lo, w, g := GroupStart(res, i), GroupWidth(res), MidResChildren(children, res)[i];
      (exists j :: lo <= j < lo + w && g.min == children[j].min)
      && (exists j :: lo <= j < lo + w && g.max == children[j].max)
  {
    assert MidResChildren(children, res)[i] == Aggregate(Group(children, res, i));
    SliceAttained(children, GroupStart(res, i), GroupWidth(res));
  }

  lemma SliceAttained(s: seq<Stat>, lo: nat, w: nat)
    requires 0 < w && lo + w <= |s|
    ensures var g := Aggregate(s[lo .. lo + w]);
      (exists j :: lo <= j < lo + w && g.min == s[j].min)
      && (exists j :: lo <= j < lo + w && g.max == s[j].max)
  {
    var grp := s[lo .. lo + w];
    var g := Aggregate(grp);
    var a :| 0 <= a < |grp| && g.min == grp[a].min;
    var b :| 0 <= b < |grp| && g.max == grp[b].max;
    assert lo <= lo + a < lo + w && g.min == s[lo + a].min;
    assert lo <= lo + b < lo + w && g.max == s[lo + b].max;
  }

  /** Each group's mean is the average of the means of the run of children it covers. */
  lemma MidResMean(children: seq<Stat>, res: nat, i: nat)
    requires |children| == NumChildren && res <= NumMidRes && i < Pow2(res)
    ensures var lo, w := GroupStart(res, i), GroupWidth(res);
      MidResChildren(children, res)[i].mean == MeanOfMeans(children[lo .. lo + w])
  {
    assert MidResChildren(children, res)[i] == Aggregate(Group(children, res, i));
  }

  /** Resolution 0 is one point carrying the overall min and max. */
  lemma MidResCoarsest(children: seq<Stat>)
    requires |children| == NumChildren
    ensures MidResChildren(children, 0) == [Stat(MinOfMins(children), MeanOfMeans(children), MaxOfMaxes(children))]
  {
    assert Group(children, 0, 0) == children;
  }

  /** At resolution 6 every group is a single child, so the grouping is the children themselves. */
  lemma MidResFinest(children: seq<Stat>)
    requires |children| == NumChildren
    ensures MidResChildren(children, NumMidRes) == children
  {
    var r := MidResChildren(children, NumMidRes);
    forall i | 0 <= i < NumChildren
      ensures r[i] == children[i]
    {
      var grp := Group(children, NumMidRes, i);
      assert grp == [children[i]];
      assert SumOfMeans(grp) == children[i].mean + SumOfMeans([]);
      assert r[i] == Aggregate(grp);
    }
  }

  /** Groupings of ordered children inside an envelope are ordered and inside it too. */
  lemma MidResWithin(children: seq<Stat>, res: nat, lo: real, hi: real)
    requires |children| == NumChildren && res <= NumMidRes
    requires forall j :: 0 <= j < NumChildren ==> Ordered(children[j]) && Within(children[j], lo, hi)
    ensures forall i :: 0 <= i < Pow2(res) ==>
      Ordered(MidResChildren(children, res)[i]) && Within(MidResChildren(children, res)[i], lo, hi)
  {
    forall i | 0 <= i < Pow2(res)
      ensures Ordered(MidResChildren(children, res)[i]) && Within(MidResChildren(children, res)[i], lo, hi)
    {
      GroupWithin(children, res, i, lo, hi);
    }
  }

  lemma GroupWithin(children: seq<Stat>, res: nat, i: nat, lo: real, hi: real)
    requires |children| == NumChildren && res <= NumMidRes && i < Pow2(res)
    requires forall j :: 0 <= j < NumChildren ==> Ordered(children[j]) && Within(children[j], lo, hi)
    ensures Ordered(MidResChildren(children, res)[i]) && Within(MidResChildren(children, res)[i], lo, hi)
  {
    var start := GroupStart(res, i);
    var grp := Group(children, res, i);
    assert forall k :: 0 <= k < |grp| ==> grp[k] == children[start + k];
    AggregateOrdered(grp);
    var g := Aggregate(grp);
    assert MidResChildren(children, res)[i] == g;
    var a :| 0 <= a < |grp| && g.min == grp[a].min;
    var b :| 0 <= b < |grp| && g.max == grp[b].max;
  }
}
