/**
 * The tree view's coordinate arithmetic: the time domain of each level of
 * the expanded path, the placement of the mid-resolution cone, and which
 * cells are expanded or clickable.
 *
 * A path starts with a stand-in root entry that is ignored; entry `i + 1`
 * is the cell expanded at level `i`. Timestamps are integers here, where the
 * source uses doubles.
 */
module TreeLayout {
  import opened Wrappers
  import opened Powers

  /** `numCells`: cells in a tree row. */
  const NumCells := 64
  /** `rootStart`, which is `-(2 ** 60)`. */
  const RootStart := -1152921504606846976
  /** `rootResolution`: level 0's cells are `2 ** 56` ns wide. */
  const RootResolution := 56
  /** Each level's cells are `2 ** 6` times narrower than its parent's. */
  const ResolutionStep := 6
  /** `levelClickable` stops expanding at level 9, so a path has at most ten entries. */
  const MaxPathLength := 10
  /** The tree's cell size and the number of rows of a level's cone. */
  const TreeCellW := 8
  const TreeCellH := 10
  const LevelOffset := 7

  /** The root starts `2 ** 60` ns before zero. */
  lemma RootStartIsPower()
    ensures RootStart == -(Pow2(60) as int)
  {
    Pow2Sixty();
  }

  // ---------------------------------------------------------------------
  // Level domains.
  // ---------------------------------------------------------------------

  datatype Domain = Domain(start: int, end: int)

  /** `res` at level `i`. */
  function Res(i: nat): (r: nat)
    requires i < MaxPathLength
    ensures r >= 2
  {
    RootResolution - ResolutionStep * i
  }

  /** The width of level `i`'s domain: 64 cells of `2 ** res` ns. */
  function LevelWidth(i: nat): int
    requires i < MaxPathLength
  {
    Pow2(Res(i)) * NumCells
  }

  /**
   * Where level `i`'s domain starts: the root start, and for each later
   * level the parent's start moved by the expanded cell's index of parent cells.
   */
  function LevelStart(path: seq<int>, i: nat): int
    requires i < |path| && i < MaxPathLength
  {
    if i == 0 then RootStart else LevelStart(path, i - 1) + Pow2(Res(i - 1)) * path[i]
  }

  function LevelDomain(path: seq<int>, i: nat): Domain
    requires i < |path| && i < MaxPathLength
  {
    Domain(LevelStart(path, i), LevelStart(path, i) + LevelWidth(i))
  }

  /**
   * The domain loop of `computeDerivedState`: one domain per path entry,
   * advancing `start` by the next entry's cells and lowering `res` by six.
   */
  method LevelDomains(path: seq<int>) returns (domains: seq<Domain>)
    requires |path| <= MaxPathLength
    ensures |domains| == |path|
    ensures forall i :: 0 <= i < |path| ==> domains[i] == LevelDomain(path, i)
  {
    var start := RootStart;
    var res := RootResolution;
    domains := [];
    for i := 0 to |path|
      invariant |domains| == i && res == RootResolution - ResolutionStep * i
      invariant forall k :: 0 <= k < i ==> domains[k] == LevelDomain(path, k)
      invariant i < |path| ==> start == LevelStart(path, i)
    {
      var end := start + Pow2(res) * NumCells;
      domains := domains + [Domain(start, end)];
      if i + 1 < |path| {
        start := start + Pow2(res) * path[i + 1];
      }
      res := res - ResolutionStep;
    }
  }

  /** Level `i` spans `2 ** (62 - 6 i)` ns: level 0 covers `2 ** 62` ns from the root start. */
  lemma LevelWidthIs(i: nat)
    requires i < MaxPathLength
    ensures LevelWidth(i) == Pow2(62 - ResolutionStep * i)
  {
    var n, m := Res(i), 62 - ResolutionStep * i;
    Pow2Six(n, m);
    assert LevelWidth(i) == Pow2(n) * 64;
  }

  /** Level 0's domain is `[-(2 ** 60), 3 * 2 ** 60)`. */
  lemma RootDomain(path: seq<int>)
    requires 1 <= |path|
    ensures LevelDomain(path, 0) == Domain(-(Pow2(60) as int), 3 * Pow2(60))
  {
    RootStartIsPower();
    LevelWidthIs(0);
    Pow2Add(2, 60);
    assert Pow2(2) == 4;
  }

  /**
   * For an entry in [0, 64), level `i + 1`'s domain is slice number
   * `path[i + 1]` of level `i`'s domain cut into 64 equal slices.
   */
  lemma LevelNested(path: seq<int>, i: nat)
    requires i + 1 < |path| && i + 1 < MaxPathLength && 0 <= path[i + 1] < NumCells
    ensures LevelWidth(i) == NumCells * LevelWidth(i + 1)
    ensures LevelStart(path, i + 1) == LevelStart(path, i) + path[i + 1] * LevelWidth(i + 1)
    ensures LevelDomain(path, i).start <= LevelDomain(path, i + 1).start
    ensures LevelDomain(path, i + 1).end <= LevelDomain(path, i).end
  {
    Pow2Six(Res(i + 1), Res(i));
    SliceArith(LevelStart(path, i), Pow2(Res(i + 1)), path[i + 1]);
  }

  /** A parent cell `64 c` wide starting at `start`, and the domain of 64 cells of width `c` under its `k`-th slice. */
  lemma SliceArith(start: int, c: int, k: int)
    requires c > 0 && 0 <= k < NumCells
    ensures (64 * c) * NumCells == NumCells * (c * NumCells)
    ensures start + (64 * c) * k == start + k * (c * NumCells)
    ensures start <= start + (64 * c) * k
    ensures start + (64 * c) * k + c * NumCells <= start + (64 * c) * NumCells
  {
    MulMono(64 * c, 0, k);
    MulMono(64 * c, k + 1, NumCells);
  }

  lemma MulMono(c: int, a: int, b: int)
    requires c >= 0 && a <= b
    ensures c * a <= c * b
  {
  }

  /** Every level's domain lies inside the domain of every level above it. */
  lemma {:induction false} LevelInsideAncestor(path: seq<int>, j: nat, i: nat)
    requires j <= i < |path| && i < MaxPathLength
    requires forall k :: 0 < k < |path| ==> 0 <= path[k] < NumCells
    ensures LevelDomain(path, j).start <= LevelDomain(path, i).start
    ensures LevelDomain(path, i).end <= LevelDomain(path, j).end
    decreases i - j
  {
    if j < i {
      LevelNested(path, j);
      LevelInsideAncestor(path, j + 1, i);
    }
  }

  // ---------------------------------------------------------------------
  // The mid-resolution cone.
  // ---------------------------------------------------------------------

  /**
   * `midResStart(parent, exp)`: the linear map from [0, 63] onto
   * [0, 64 - 2 ** exp], at `parent`.
   */
  function MidResStart(parent: real, exp: nat): real {
    ((NumCells - Pow2(exp)) as real) * (parent / (NumCells - 1) as real)
  }

  /** The map sends the first cell to 0, the last to `64 - 2 ** exp`, and is the identity at `exp` 0. */
  lemma MidResStartEnds(parent: real, exp: nat)
    ensures MidResStart(0.0, exp) == 0.0
    ensures MidResStart(63.0, exp) == (NumCells - Pow2(exp)) as real
    ensures MidResStart(parent, 0) == parent
  {
  }

  /** For a cell of the row and a grouping of at most 64, the group start stays in [0, 64 - 2 ** exp]. */
  lemma MidResStartBounds(parent: real, exp: nat)
    requires 0.0 <= parent <= 63.0 && exp <= 6
    ensures 0.0 <= MidResStart(parent, exp) <= (NumCells - Pow2(exp)) as real
  {
    Pow2Monotone(exp, 6);
    Pow2Six(0, 6);
    var c := (NumCells - Pow2(exp)) as real;
    var t := parent / 63.0;
    ScaleUnit(c, t);
    assert MidResStart(parent, exp) == c * t;
  }

  lemma ScaleUnit(c: real, t: real)
    requires c >= 0.0 && 0.0 <= t <= 1.0
    ensures 0.0 <= c * t <= c
  {
  }

  /** The box of the cone at row `row` below a parent cell. */
  datatype ConeBox = ConeBox(x: real, y: int, w: int, numCells: nat)

  /** `cone(parent, row)` for a whole row; rows below zero are drawn as row 0's width. */
  function Cone(parent: real, row: int): ConeBox {
    var exp := if row > 0 then row else 0;
    var numCells := Pow2(exp);
    ConeBox(MidResStart(parent, exp) * TreeCellW as real, (-LevelOffset + 1 + row) * TreeCellH,
            numCells * TreeCellW, numCells)
  }

  /** For a parent cell of the row and a row of at most 64 cells, the cone stays inside the tree row. */
  lemma ConeInsideRow(parent: real, row: int)
    requires 0.0 <= parent <= 63.0 && row <= 6
    ensures var c := Cone(parent, row);
      0.0 <= c.x && c.x + c.w as real <= (NumCells * TreeCellW) as real
      && c.numCells == Pow2(if row > 0 then row else 0)
  {
    var exp := if row > 0 then row else 0;
    MidResStartBounds(parent, exp);
    var m := MidResStart(parent, exp);
    var n := Pow2(exp);
    assert m + n as real <= NumCells as real;
    ScaleRow(m, n as real);
  }

  lemma ScaleRow(m: real, n: real)
    requires 0.0 <= m && m + n <= NumCells as real
    ensures 0.0 <= m * 8.0 && m * 8.0 + n * 8.0 <= (NumCells * TreeCellW) as real
  {
  }

  // ---------------------------------------------------------------------
  // Expanded and clickable cells.
  // ---------------------------------------------------------------------

  /** `isCellExpanded(level, cell)`: the path's entry after `level` is `cell`; undefined past its end. */
  function IsCellExpanded(path: seq<int>, level: int, cell: int): bool {
    0 <= level + 1 < |path| && path[level + 1] == cell
  }

  /** Each visible level has exactly one expanded cell, and a level past the path has none. */
  lemma ExpandedUnique(path: seq<int>, level: int, c1: int, c2: int)
    ensures 0 <= level + 1 < |path| ==> IsCellExpanded(path, level, path[level + 1])
    ensures IsCellExpanded(path, level, c1) && IsCellExpanded(path, level, c2) ==> c1 == c2
    ensures !(0 <= level + 1 < |path|) ==> !IsCellExpanded(path, level, c1)
  {
  }

  function LevelClickable(level: int): bool {
    level < 9
  }

  /** The hit-test result `{cell, level, midRes}`; `cell` and `midRes` may be absent. */
  datatype Hit = Hit(cell: Option<int>, level: int, midRes: Option<int>)

  /** `cellClickable(obj)`: a hit on a full-resolution cell of a clickable level. */
  function CellClickable(obj: Option<Hit>): bool {
    obj.Some? && obj.value.cell.Some? && obj.value.midRes.None? && LevelClickable(obj.value.level)
  }

  /** `path.slice(0, n)`: a negative `n` counts back from the end; both ends are clamped. */
  function SliceTo(path: seq<int>, n: int): (r: seq<int>)
    ensures |r| == if n < 0 then (if |path| + n < 0 then 0 else |path| + n) else (if n < |path| then n else |path|)
    ensures r == path[..|r|]
  {
    if n < 0 then (if |path| + n < 0 then [] else path[..|path| + n])
    else if n < |path| then path[..n] else path
  }

  /** The path a mouse-up on a cell of a clickable level sets: the path down to `level`, then `cell`. */
  function ClickPath(path: seq<int>, level: int, cell: int): seq<int> {
    SliceTo(path, level + 1) + [cell]
  }

  /**
   * Clicking a cell at a visible level keeps the path above it, makes the
   * cell the expanded one of its level, and collapses every level below.
   */
  lemma ClickExpands(path: seq<int>, level: int, cell: int)
    requires 0 <= level < |path|
    ensures var p := ClickPath(path, level, cell);
      |p| == level + 2 && p[..level + 1] == path[..level + 1]
      && IsCellExpanded(p, level, cell)
      && (forall l, c :: l < level ==> (IsCellExpanded(p, l, c) <==> IsCellExpanded(path, l, c)))
      && (forall l, c :: l > level ==> !IsCellExpanded(p, l, c))
  {
    var p := ClickPath(path, level, cell);
    assert p[..level + 1] == path[..level + 1];
    forall l, c | l < level
      ensures IsCellExpanded(p, l, c) <==> IsCellExpanded(path, l, c)
    {
      if 0 <= l + 1 {
        assert p[l + 1] == path[l + 1];
      }
    }
  }

  /**
   * From a path of at most ten entries, expanding a clickable hit at any
   * level, the root level -1 included, leaves at most ten entries, so every
   * level domain keeps a resolution of at least `2 ** 2` ns.
   */
  lemma ClickKeepsPathShort(path: seq<int>, hit: Hit)
    requires CellClickable(Some(hit)) && |path| <= MaxPathLength
    ensures |ClickPath(path, hit.level, hit.cell.value)| <= MaxPathLength
  {
  }
}
