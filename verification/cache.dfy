/**
 * The lazily filled statistics tree of the data generator: `cacheLookup`,
 * `copyStat`, `cacheWrite`, `computeChildren` and `getStatPoint`.
 *
 * A cache node carries its statistic, and once expanded its 64 children and
 * the six mid-resolution groupings of them. The root is the cache object
 * itself: it has a list of children (empty at first) and no statistic.
 */
module Cache {
  import opened Wrappers
  import opened Stats
  import opened Noise
  import opened Fit

  datatype Node = Node(stat: Stat, children: Children)

  /**
   * A node's `children` and `midResChildren`: absent until `cacheWrite`
   * sets both at once.
   */
  datatype Children = Unexpanded | Expanded(nodes: seq<Node>, midRes: seq<seq<Stat>>)

  /** `copyStat`: a fresh, unexpanded node carrying only min, mean and max. */
  function CopyStat(s: Stat): Node {
    Node(s, Unexpanded)
  }

  /** `children.map(copyStat)` */
  function Leaves(points: seq<Stat>): (r: seq<Node>)
    ensures |r| == |points|
  {
    seq(|points|, i requires 0 <= i < |points| => CopyStat(points[i]))
  }

  /** The statistics of a list of nodes. */
  function StatsOf(nodes: seq<Node>): (r: seq<Stat>)
    ensures |r| == |nodes|
  {
    seq(|nodes|, i requires 0 <= i < |nodes| => nodes[i].stat)
  }

  /** Copying keeps exactly the statistics, and the copies are not expanded. */
  lemma LeavesRoundTrip(points: seq<Stat>)
    ensures StatsOf(Leaves(points)) == points
    ensures forall i :: 0 <= i < |points| ==> Leaves(points)[i].children == Unexpanded
  {
  }

  /** `q` lies strictly below `p` in the tree. */
  predicate StrictlyBelow(q: seq<int>, p: seq<int>) {
    |q| > |p| && q[..|p|] == p
  }

  // ---------------------------------------------------------------------
  // What the cache must hold: the statistic every path resolves to.
  // ---------------------------------------------------------------------

  /** `d3array.range(64).map(i => getNoise([...parentPath, i]))`: the raw siblings below `parentPath`. */
  function Siblings(noise: NoiseField, parentPath: seq<int>): (r: seq<Stat>)
    requires |parentPath| < NoiseLevels
    ensures |r| == NumChildren
    ensures ShadowNonNegative(noise) ==> forall i :: 0 <= i < NumChildren ==> Ordered(r[i])
  {
    seq(NumChildren, i requires 0 <= i < NumChildren => GetNoise(noise, parentPath + [i]))
  }

  /**
   * The children `computeChildren` writes below `parentPath`: the raw
   * siblings at the root, and below it the siblings fitted into the parent.
   */
  function ChildStats(noise: NoiseField, parentPath: seq<int>): (r: seq<Stat>)
    requires |parentPath| < NoiseLevels && ValidPath(parentPath)
    ensures |r| == NumChildren
    decreases |parentPath| + 1, 0
  {
    if parentPath == [] then Siblings(noise, [])
    else Fitted(Siblings(noise, parentPath), Resolve(noise, parentPath))
  }

  /** The statistic a path resolves to: its entry among its parent's children. */
  function Resolve(noise: NoiseField, path: seq<int>): Stat
    requires 1 <= |path| <= NoiseLevels && ValidPath(path)
    decreases |path|, 1
  {
    var parentPath := path[..|path| - 1];
    assert ValidPath(parentPath);
    ChildStats(noise, parentPath)[path[|path| - 1]]
  }

  /** A child resolves to its entry in its parent's children. */
  lemma ResolveChild(noise: NoiseField, parentPath: seq<int>, i: int)
    requires |parentPath| < NoiseLevels && ValidPath(parentPath) && 0 <= i < NumChildren
    ensures ValidPath(parentPath + [i])
    ensures Resolve(noise, parentPath + [i]) == ChildStats(noise, parentPath)[i]
  {
    assert (parentPath + [i])[..|parentPath|] == parentPath;
  }

  /**
   * With positive shadows the raw siblings are ordered and spread: the first
   * sibling's own min lies strictly below its max.
   */
  lemma SiblingsSpread(noise: NoiseField, parentPath: seq<int>)
    requires ShadowPositive(noise)
    requires |parentPath| < NoiseLevels
    ensures forall i :: 0 <= i < NumChildren ==> Ordered(Siblings(noise, parentPath)[i])
    ensures Spread(Siblings(noise, parentPath))
  {
    ShadowPositiveIsNonNegative(noise);
    var s := Siblings(noise, parentPath);
    assert s[0] == GetNoise(noise, parentPath + [0]);
    assert MinOfMins(s) <= s[0].min < s[0].max <= MaxOfMaxes(s);
  }

  /**
   * Below the root, no set of siblings that `fitChildren` receives is flat,
   * so its stretch is a finite quotient rather than `0 / 0`.
   */
  ghost predicate FittedSiblingsSpread(noise: NoiseField) {
    forall p: seq<int> {:trigger Spread(Siblings(noise, p))} ::
      1 <= |p| < NoiseLevels && ValidPath(p) ==> Spread(Siblings(noise, p))
  }

  /** Positive shadows meet both hypotheses of the lemmas below. */
  lemma PositiveShadowsSpread(noise: NoiseField)
    requires ShadowPositive(noise)
    ensures ShadowNonNegative(noise) && FittedSiblingsSpread(noise)
  {
    ShadowPositiveIsNonNegative(noise);
    forall p: seq<int> | 1 <= |p| < NoiseLevels && ValidPath(p)
      ensures Spread(Siblings(noise, p))
    {
      SiblingsSpread(noise, p);
    }
  }

  /** With non-negative shadows and spread siblings every resolved statistic is ordered. */
  lemma {:induction false} ChildStatsOrdered(noise: NoiseField, parentPath: seq<int>)
    requires ShadowNonNegative(noise) && FittedSiblingsSpread(noise)
    requires |parentPath| < NoiseLevels && ValidPath(parentPath)
    ensures forall i :: 0 <= i < NumChildren ==> Ordered(ChildStats(noise, parentPath)[i])
  {
    if parentPath != [] {
      var n := |parentPath| - 1;
      var grand := parentPath[..n];
      assert ValidPath(grand);
      ChildStatsOrdered(noise, grand);
      assert parentPath == grand + [parentPath[n]];
      ResolveChild(noise, grand, parentPath[n]);
      assert Spread(Siblings(noise, parentPath));
      FittedContained(Siblings(noise, parentPath), Resolve(noise, parentPath));
    }
  }

  lemma ResolveOrdered(noise: NoiseField, path: seq<int>)
    requires ShadowNonNegative(noise) && FittedSiblingsSpread(noise)
    requires 1 <= |path| <= NoiseLevels && ValidPath(path)
    ensures Ordered(Resolve(noise, path))
  {
    var parentPath := path[..|path| - 1];
    assert ValidPath(parentPath);
    ChildStatsOrdered(noise, parentPath);
  }

  /**
   * Below the root, the children lie within their parent's envelope, reach
   * both of its extremes, and average to its mean.
   */
  lemma ChildrenFitParent(noise: NoiseField, parentPath: seq<int>)
    requires ShadowNonNegative(noise) && FittedSiblingsSpread(noise)
    requires 1 <= |parentPath| < NoiseLevels && ValidPath(parentPath)
    ensures var cs, p := ChildStats(noise, parentPath), Resolve(noise, parentPath);
      (forall i :: 0 <= i < NumChildren ==> Within(cs[i], p.min, p.max))
      && MinOfMins(cs) == p.min && MaxOfMaxes(cs) == p.max && MeanOfMeans(cs) == p.mean
  {
    ResolveOrdered(noise, parentPath);
    assert Spread(Siblings(noise, parentPath));
    FittedContained(Siblings(noise, parentPath), Resolve(noise, parentPath));
    FittedMean(Siblings(noise, parentPath), Resolve(noise, parentPath));
  }

  /** The coarsest mid-resolution grouping of a fitted node's children is the node's own statistic. */
  lemma CoarsestMidResIsParent(noise: NoiseField, parentPath: seq<int>)
    requires ShadowNonNegative(noise) && FittedSiblingsSpread(noise)
    requires 1 <= |parentPath| < NoiseLevels && ValidPath(parentPath)
    ensures MidResChildren(ChildStats(noise, parentPath), 0) == [Resolve(noise, parentPath)]
  {
    ChildrenFitParent(noise, parentPath);
    MidResCoarsest(ChildStats(noise, parentPath));
  }

  /** Containment is transitive: every resolved statistic lies within each of its ancestors'. */
  lemma {:induction false} WithinAncestor(noise: NoiseField, path: seq<int>, k: nat)
    requires ShadowNonNegative(noise) && FittedSiblingsSpread(noise)
    requires 1 <= k <= |path| <= NoiseLevels && ValidPath(path)
    ensures ValidPath(path[..k])
    ensures Within(Resolve(noise, path), Resolve(noise, path[..k]).min, Resolve(noise, path[..k]).max)
    decreases |path| - k
  {
    assert ValidPath(path[..k]);
    if k == |path| {
      assert path[..k] == path;
      ResolveOrdered(noise, path);
    } else {
      WithinAncestor(noise, path, k + 1);
      var p := path[..k + 1];
      var parent := path[..k];
      assert p == parent + [path[k]] && ValidPath(parent);
      ChildrenFitParent(noise, parent);
      ResolveChild(noise, parent, path[k]);
      WithinTrans(Resolve(noise, path), Resolve(noise, p), Resolve(noise, parent));
    }
  }

  lemma WithinTrans(a: Stat, b: Stat, c: Stat)
    requires Within(a, b.min, b.max) && Within(b, c.min, c.max)
    ensures Within(a, c.min, c.max)
  {
  }

  // ---------------------------------------------------------------------
  // Looking up and writing nodes.
  // ---------------------------------------------------------------------

  /**
   * `cacheLookup` below a list of children: nothing for an empty path, an
   * index with no child, or a node on the way that has no children.
   */
  function LookupIn(kids: seq<Node>, path: seq<int>): (r: Option<Node>)
    ensures r.Some? ==> path != [] && 0 <= path[0] < |kids|
    decreases |path|
  {
    if path == [] || !(0 <= path[0] < |kids|) then None
    else if |path| == 1 then Some(kids[path[0]])
    else match kids[path[0]].children
      case Unexpanded => None
      case Expanded(cs, _) => LookupIn(cs, path[1..])
  }

  /** One more step of the lookup: into the children of the node reached so far. */
  function Step(curr: Option<Node>, i: int): Option<Node> {
    match curr
    case None => None
    case Some(n) =>
      match n.children
      case Unexpanded => None
      case Expanded(cs, _) => if 0 <= i < |cs| then Some(cs[i]) else None
  }

  /** Looking up `p + [i]` is looking up `p` and then taking child `i`. */
  lemma {:induction false} LookupExtend(kids: seq<Node>, p: seq<int>, i: int)
    ensures LookupIn(kids, p + [i]) ==
      if p == [] then (if 0 <= i < |kids| then Some(kids[i]) else None)
      else Step(LookupIn(kids, p), i)
    decreases |p|
  {
    var q := p + [i];
    if p != [] && 0 <= p[0] < |kids| && |p| > 1 {
      match kids[p[0]].children
      case Unexpanded =>
      case Expanded(cs, _) =>
        assert q[1..] == p[1..] + [i];
        LookupExtend(cs, p[1..], i);
    }
  }

  /** Every non-empty prefix of a path that is found is found too, and the path is in range. */
  lemma {:induction false} LookupPrefix(kids: seq<Node>, p: seq<int>, k: nat)
    requires LookupIn(kids, p).Some? && 1 <= k <= |p|
    ensures LookupIn(kids, p[..k]).Some?
    ensures LookupIn(kids, p[..k]).value.children.Expanded? || k == |p|
    decreases |p|
  {
    if k == |p| {
      assert p[..k] == p;
    } else {
      var cs := kids[p[0]].children.nodes;
      if k > 1 {
        LookupPrefix(cs, p[1..], k - 1);
        assert p[..k][1..] == p[1..][..k - 1];
      }
    }
  }

  /** Below a missing node, or below a node without children, nothing is found. */
  lemma {:induction false} DeadEnd(kids: seq<Node>, p: seq<int>, q: seq<int>)
    requires p != [] && StrictlyBelow(q, p)
    requires LookupIn(kids, p).None? || LookupIn(kids, p).value.children.Unexpanded?
    ensures LookupIn(kids, q).None?
    decreases |p|
  {
    if 0 <= p[0] < |kids| && |p| > 1 {
      match kids[p[0]].children
      case Unexpanded =>
      case Expanded(cs, _) =>
        assert q[1..][..|p| - 1] == p[1..];
        DeadEnd(cs, p[1..], q[1..]);
    }
  }

  /** `cacheWrite`'s effect on a node: its children become copies of `points`, with their groupings. */
  function Expand(n: Node, points: seq<Stat>): Node
    requires |points| == NumChildren
  {
    n.(children := Expanded(Leaves(points), AllMidRes(points)))
  }

  /** `cacheWrite` below the root: the node at `path` is expanded and nothing else changes. */
  function WriteIn(kids: seq<Node>, path: seq<int>, points: seq<Stat>): (r: seq<Node>)
    requires LookupIn(kids, path).Some? && |points| == NumChildren
    ensures |r| == |kids|
    decreases |path|
  {
    var i := path[0];
    var n := kids[i];
    if |path| == 1 then kids[i := Expand(n, points)]
    else kids[i := n.(children := n.children.(nodes := WriteIn(n.children.nodes, path[1..], points)))]
  }

  /** After the write, the node at `path` is the old node expanded with `points`. */
  lemma {:induction false} WriteAt(kids: seq<Node>, path: seq<int>, points: seq<Stat>)
    requires LookupIn(kids, path).Some? && |points| == NumChildren
    ensures LookupIn(WriteIn(kids, path, points), path) == Some(Expand(LookupIn(kids, path).value, points))
    decreases |path|
  {
    if |path| > 1 {
      WriteAt(kids[path[0]].children.nodes, path[1..], points);
    }
  }

  /**
   * Nothing found before the write is lost by it, unless it lay strictly
   * below the written node, and every statistic found stays the same.
   */
  lemma {:induction false} WriteKeeps(kids: seq<Node>, path: seq<int>, points: seq<Stat>, q: seq<int>)
    requires LookupIn(kids, path).Some? && |points| == NumChildren
    requires LookupIn(kids, q).Some? && !StrictlyBelow(q, path)
    ensures LookupIn(WriteIn(kids, path, points), q).Some?
    ensures LookupIn(WriteIn(kids, path, points), q).value.stat == LookupIn(kids, q).value.stat
    decreases |path|
  {
    var w := WriteIn(kids, path, points);
    if q[0] != path[0] {
      assert w[q[0]] == kids[q[0]];
    } else if |q| > 1 {
      if |path| == 1 {
        assert false;
      } else {
        WriteKeeps(kids[path[0]].children.nodes, path[1..], points, q[1..]);
      }
    }
  }

  /** The statistics directly below the root are not changed by a write further down. */
  lemma WriteStats(kids: seq<Node>, path: seq<int>, points: seq<Stat>)
    requires LookupIn(kids, path).Some? && |points| == NumChildren
    ensures StatsOf(WriteIn(kids, path, points)) == StatsOf(kids)
  {
  }

  /**
   * A node found after a write is either one of the fresh copies directly
   * below the written node, carrying the written statistic, or a node that
   * was found before, not below the written node, with its old statistic.
   */
  lemma {:induction false} WriteFound(kids: seq<Node>, path: seq<int>, points: seq<Stat>, q: seq<int>)
    requires LookupIn(kids, path).Some? && |points| == NumChildren
    requires LookupIn(WriteIn(kids, path, points), q).Some?
    ensures var found := LookupIn(WriteIn(kids, path, points), q).value;
      (|q| == |path| + 1 && q[..|path|] == path && 0 <= q[|path|] < NumChildren
         && found == CopyStat(points[q[|path|]]))
      || (!StrictlyBelow(q, path) && LookupIn(kids, q).Some? && found.stat == LookupIn(kids, q).value.stat)
    decreases |path|
  {
    var w := WriteIn(kids, path, points);
    if q[0] != path[0] {
      assert w[q[0]] == kids[q[0]];
      assert LookupIn(w, q) == LookupIn(kids, q);
    } else if |q| > 1 {
      if |path| == 1 {
        var rest := q[1..];
        assert w[q[0]].children.nodes == Leaves(points);
        if |rest| > 1 {
          assert false;
        }
        assert q[..1] == path;
      } else {
        WriteFound(kids[path[0]].children.nodes, path[1..], points, q[1..]);
        if |q[1..]| == |path[1..]| + 1 && q[1..][..|path| - 1] == path[1..] {
          assert q[..|path|] == [q[0]] + q[1..][..|path| - 1];
          assert path == [path[0]] + path[1..];
        }
      }
    }
  }

  // ---------------------------------------------------------------------
  // The cache invariant.
  // ---------------------------------------------------------------------

  /**
   * The shape `cacheWrite` gives every expanded node: 64 children, each
   * shaped in turn, and the six groupings of their statistics.
   */
  ghost predicate Shaped(n: Node)
    decreases n
  {
    match n.children
    case Unexpanded => true
    case Expanded(cs, midRes) =>
      |cs| == NumChildren && midRes == AllMidRes(StatsOf(cs))
      && forall i :: 0 <= i < |cs| ==> Shaped(cs[i])
  }

  ghost predicate KidsShaped(kids: seq<Node>) {
    |kids| == NumChildren && forall i :: 0 <= i < NumChildren ==> Shaped(kids[i])
  }

  /** Every node found in a shaped tree is shaped. */
  lemma {:induction false} LookupShaped(kids: seq<Node>, p: seq<int>)
    requires KidsShaped(kids) && LookupIn(kids, p).Some?
    ensures Shaped(LookupIn(kids, p).value)
    decreases |p|
  {
    if |p| > 1 {
      LookupShaped(kids[p[0]].children.nodes, p[1..]);
    }
  }

  /** A write keeps the tree shaped. */
  lemma {:induction false} WriteShaped(kids: seq<Node>, path: seq<int>, points: seq<Stat>)
    requires KidsShaped(kids) && LookupIn(kids, path).Some? && |points| == NumChildren
    ensures KidsShaped(WriteIn(kids, path, points))
    decreases |path|
  {
    var w := WriteIn(kids, path, points);
    var i := path[0];
    var n := kids[i];
    if |path| == 1 {
      LeavesRoundTrip(points);
      assert Shaped(w[i]);
    } else {
      var cs := n.children.nodes;
      WriteShaped(cs, path[1..], points);
      WriteStats(cs, path[1..], points);
      assert Shaped(w[i]);
    }
    assert forall j :: 0 <= j < NumChildren && j != i ==> w[j] == kids[j];
  }

  /** Below a shaped tree, anything found strictly below `p` means all 64 children of `p` are found. */
  lemma BelowFound(kids: seq<Node>, p: seq<int>, q: seq<int>, j: int)
    requires KidsShaped(kids) && LookupIn(kids, q).Some?
    requires StrictlyBelow(q, p) && 0 <= j < NumChildren
    ensures LookupIn(kids, p + [j]).Some?
  {
    LookupExtend(kids, p, j);
    if p != [] {
      if LookupIn(kids, p).None? || LookupIn(kids, p).value.children.Unexpanded? {
        DeadEnd(kids, p, q);
      }
      LookupShaped(kids, p);
    }
  }

  /** Every node found below `kids` holds the statistic its path resolves to. */
  ghost predicate Resolved(noise: NoiseField, kids: seq<Node>) {
    forall p :: LookupIn(kids, p).Some? ==>
      1 <= |p| <= NoiseLevels && ValidPath(p) && LookupIn(kids, p).value.stat == Resolve(noise, p)
  }

  lemma SplitLast(path: seq<int>)
    requires path != []
    ensures path == path[..|path| - 1] + [path[|path| - 1]]
  {
  }

  lemma FoundIsResolved(noise: NoiseField, kids: seq<Node>, path: seq<int>)
    requires Resolved(noise, kids) && LookupIn(kids, path).Some?
    ensures 1 <= |path| <= NoiseLevels && ValidPath(path)
    ensures LookupIn(kids, path).value.stat == Resolve(noise, path)
  {
  }

  /**
   * A miss below `p` means nothing strictly below `p` was found, so a step
   * that keeps every node not strictly below `p` keeps every node.
   */
  lemma MissKeeps(before: seq<Node>, after: seq<Node>, p: seq<int>, j: int)
    requires before == [] || KidsShaped(before)
    requires LookupIn(before, p + [j]).None? && 0 <= j < NumChildren
    requires forall q :: LookupIn(before, q).Some? && !StrictlyBelow(q, p) ==>
               LookupIn(after, q).Some? && LookupIn(after, q).value.stat == LookupIn(before, q).value.stat
    ensures forall q :: LookupIn(before, q).Some? ==>
              LookupIn(after, q).Some? && LookupIn(after, q).value.stat == LookupIn(before, q).value.stat
  {
    forall q | LookupIn(before, q).Some?
      ensures LookupIn(after, q).Some? && LookupIn(after, q).value.stat == LookupIn(before, q).value.stat
    {
      if StrictlyBelow(q, p) {
        BelowFound(before, p, q, j);
        assert false;
      }
    }
  }

  /** A write of the children the written node resolves to keeps every found node resolved. */
  lemma WriteResolved(noise: NoiseField, kids: seq<Node>, path: seq<int>)
    requires Resolved(noise, kids) && LookupIn(kids, path).Some? && |path| < NoiseLevels
    ensures ValidPath(path)
    ensures Resolved(noise, WriteIn(kids, path, ChildStats(noise, path)))
  {
    var points := ChildStats(noise, path);
    var w := WriteIn(kids, path, points);
    forall q | LookupIn(w, q).Some?
      ensures 1 <= |q| <= NoiseLevels && ValidPath(q) && LookupIn(w, q).value.stat == Resolve(noise, q)
    {
      WriteFound(kids, path, points, q);
      if |q| == |path| + 1 && q[..|path|] == path && 0 <= q[|path|] < NumChildren
         && LookupIn(w, q).value == CopyStat(points[q[|path|]]) {
        SplitLast(q);
        ResolveChild(noise, path, q[|path|]);
      }
    }
  }

  /** The first write at the root leaves every found node resolved. */
  lemma RootResolved(noise: NoiseField)
    ensures Resolved(noise, Leaves(ChildStats(noise, [])))
  {
    var kids := Leaves(ChildStats(noise, []));
    forall q | LookupIn(kids, q).Some?
      ensures 1 <= |q| <= NoiseLevels && ValidPath(q) && LookupIn(kids, q).value.stat == Resolve(noise, q)
    {
      assert |q| == 1;
      assert q == [] + [q[0]];
      ResolveChild(noise, [], q[0]);
    }
  }

  lemma LeavesShaped(points: seq<Stat>)
    requires |points| == NumChildren
    ensures KidsShaped(Leaves(points))
  {
  }

  /**
   * After a miss on `path`, writing `points` as the children of its parent
   * leaves the path found and fresh, its prefixes found, and every node
   * found before still found with its statistic.
   */
  lemma MissFilled(before: seq<Node>, after: seq<Node>, path: seq<int>, points: seq<Stat>)
    requires path != [] && |points| == NumChildren
    requires (before == [] || KidsShaped(before)) && LookupIn(before, path).None?
    requires var pp := path[..|path| - 1];
      (pp == [] ==> after == Leaves(points))
      && (pp != [] ==>
            LookupIn(after, pp).Some? && LookupIn(after, pp).value.children.Expanded?
            && LookupIn(after, pp).value.children.nodes == Leaves(points))
      && (forall k :: 1 <= k < |pp| ==> LookupIn(after, pp[..k]).Some?)
      && (forall q :: LookupIn(before, q).Some? && !StrictlyBelow(q, pp) ==>
            LookupIn(after, q).Some? && LookupIn(after, q).value.stat == LookupIn(before, q).value.stat)
    ensures forall k :: 1 <= k < |path| ==> LookupIn(after, path[..k]).Some?
    ensures 0 <= path[|path| - 1] < NumChildren ==>
              LookupIn(after, path).Some? && LookupIn(after, path).value.children == Unexpanded
    ensures 0 <= path[|path| - 1] < NumChildren ==> forall q :: LookupIn(before, q).Some? ==>
              LookupIn(after, q).Some? && LookupIn(after, q).value.stat == LookupIn(before, q).value.stat
  {
    var pp := path[..|path| - 1];
    var last := path[|path| - 1];
    SplitLast(path);
    LookupExtend(after, pp, last);
    forall k | 1 <= k < |path|
      ensures LookupIn(after, path[..k]).Some?
    {
      assert path[..k] == pp[..k];
      if k == |pp| {
        assert pp[..k] == pp;
      }
    }
    if 0 <= last < NumChildren {
      MissKeeps(before, after, pp, last);
    }
  }

  /**
   * The cache object. Its root has no statistic: only a list of children,
   * empty until the first write, and the groupings of those children.
   */
  class StatCache {
    /** The per-level noise generators the raw statistics are sampled from. */
    const noise: NoiseField
    /** `cache.children` */
    var children: seq<Node>
    /** `cache.midResChildren` */
    var midRes: Option<seq<seq<Stat>>>

    /**
     * Every node found holds the statistic its path resolves to, and every
     * written node has the shape `cacheWrite` gives it.
     */
    ghost predicate Valid()
      reads this
    {
      Resolved(noise, children)
      && ((children == [] && midRes == None)
          || (KidsShaped(children) && midRes == Some(AllMidRes(StatsOf(children)))))
    }

    /** `{ children: [] }` */
    constructor(noise: NoiseField)
      ensures Valid() && this.noise == noise && children == [] && midRes == None
    {
      this.noise := noise;
      children := [];
      midRes := None;
    }

    /**
     * `cacheLookup`: walk down from the root one index at a time; `kids`
     * is `curr.children`, absent once `curr` is undefined or unexpanded.
     */
    method CacheLookup(path: seq<int>) returns (r: Option<Node>)
      ensures r == LookupIn(children, path)
    {
      if path == [] {
        return None;
      }
      r := None;
      var kids: Option<seq<Node>> := Some(children);
      for k := 0 to |path|
        invariant k == 0 ==> kids == Some(children) && r == None
        invariant k > 0 ==> r == LookupIn(children, path[..k])
        invariant k > 0 ==> kids == if r.Some? && r.value.children.Expanded? then Some(r.value.children.nodes) else None
      {
        if kids.None? {
          DeadEnd(children, path[..k], path);
          return None;
        }
        var cs := kids.value;
        LookupExtend(children, path[..k], path[k]);
        assert path[..k + 1] == path[..k] + [path[k]];
        if 0 <= path[k] < |cs| {
          r := Some(cs[path[k]]);
          kids := if r.value.children.Expanded? then Some(r.value.children.nodes) else None;
        } else {
          r := None;
          kids := None;
        }
      }
      assert path[..|path|] == path;
    }

    /**
     * `cacheWrite`: the node at `path` (the root for an empty path) gets
     * copies of `points` as its children, and their six groupings.
     */
    method CacheWrite(path: seq<int>, points: seq<Stat>)
      requires |points| == NumChildren
      requires path == [] || LookupIn(children, path).Some?
      modifies this
      ensures path == [] ==> children == Leaves(points) && midRes == Some(AllMidRes(points))
      ensures path != [] ==> children == WriteIn(old(children), path, points) && midRes == old(midRes)
    {
      if path == [] {
        children := Leaves(points);
        midRes := Some(AllMidRes(points));
      } else {
        children := WriteIn(children, path, points);
      }
    }

    /**
     * `computeChildren`: sample the 64 raw siblings below `parentPath`,
     * resolve the parent (recursively filling the cache above it), fit the
     * siblings into it unless it is the root, and write them.
     */
    method ComputeChildren(parentPath: seq<int>)
      requires Valid() && |parentPath| < NoiseLevels && ValidPath(parentPath)
      modifies this
      decreases |parentPath| + 1, 0
      ensures Valid()
      ensures parentPath == [] ==> children == Leaves(ChildStats(noise, []))
      ensures parentPath != [] ==>
                LookupIn(children, parentPath).Some?
                && LookupIn(children, parentPath).value.children.Expanded?
                && LookupIn(children, parentPath).value.children.nodes == Leaves(ChildStats(noise, parentPath))
      ensures forall k :: 1 <= k < |parentPath| ==> LookupIn(children, parentPath[..k]).Some?
      ensures forall q :: LookupIn(old(children), q).Some? && !StrictlyBelow(q, parentPath) ==>
                LookupIn(children, q).Some?
                && LookupIn(children, q).value.stat == LookupIn(old(children), q).value.stat
    {
      ghost var before := children;
      var points := Siblings(noise, parentPath);
      var parent := GetStatPoint(parentPath);
      ghost var mid := children;
      var finalPoints := points;
      if parent.Some? {
        finalPoints := FitChildren(points, parent.value.stat);
      }
      assert finalPoints == ChildStats(noise, parentPath);
      CacheWrite(parentPath, finalPoints);
      if parentPath == [] {
        RootResolved(noise);
        LeavesShaped(finalPoints);
        LeavesRoundTrip(finalPoints);
      } else {
        WriteResolved(noise, mid, parentPath);
        WriteShaped(mid, parentPath, finalPoints);
        WriteStats(mid, parentPath, finalPoints);
        WriteAt(mid, parentPath, finalPoints);
        forall k | 1 <= k < |parentPath|
          ensures LookupIn(children, parentPath[..k]).Some?
        {
          WriteKeeps(mid, parentPath, finalPoints, parentPath[..k]);
        }
        forall q | LookupIn(before, q).Some? && !StrictlyBelow(q, parentPath)
          ensures LookupIn(children, q).Some? && LookupIn(children, q).value.stat == LookupIn(before, q).value.stat
        {
          WriteKeeps(mid, parentPath, finalPoints, q);
        }
      }
    }

    /**
     * `getStatPoint`: nothing for an empty path; the cached node on a hit;
     * on a miss, compute the parent's children and look again.
     */
    method GetStatPoint(path: seq<int>) returns (r: Option<Node>)
      requires Valid()
      requires |path| <= NoiseLevels && (path == [] || ValidPath(path[..|path| - 1]))
      modifies this
      decreases |path|, 1
      ensures Valid()
      ensures r == LookupIn(children, path)
      ensures path == [] ==> r == None && children == old(children) && midRes == old(midRes)
      ensures LookupIn(old(children), path).Some? ==> children == old(children) && midRes == old(midRes)
      ensures path != [] && ValidPath(path) ==> r.Some? && r.value.stat == Resolve(noise, path)
      ensures path != [] && ValidPath(path) && LookupIn(old(children), path).None? ==> r.Some? && r.value.children == Unexpanded
      ensures forall k :: 1 <= k < |path| ==> LookupIn(children, path[..k]).Some?
      ensures ValidPath(path) ==> forall q :: LookupIn(old(children), q).Some? ==>
                LookupIn(children, q).Some?
                && LookupIn(children, q).value.stat == LookupIn(old(children), q).value.stat
    {
      if path == [] {
        return None;
      }
      r := CacheLookup(path);
      if r.Some? {
        forall k | 1 <= k < |path|
          ensures LookupIn(children, path[..k]).Some?
        {
          LookupPrefix(children, path, k);
        }
        FoundIsResolved(noise, children, path);
        return;
      }
      ghost var before := children;
      var parentPath := path[..|path| - 1];
      ComputeChildren(parentPath);
      MissFilled(before, children, path, ChildStats(noise, parentPath));
      r := CacheLookup(path);
      if r.Some? {
        FoundIsResolved(noise, children, path);
      }
    }
  }
}
