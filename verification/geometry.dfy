/**
 * Mesh helpers: cutting the Delaunay library's flat index list into
 * triangles, looking points up by index, and the adjacency graph of a
 * triangle mesh. The Delaunay triangulation itself is not modelled; its
 * flat output is the input here.
 */
module Geometry {
  import opened Wrappers

  // ---------------------------------------------------------------------
  // Triangulate.
  // ---------------------------------------------------------------------

  function Min(a: int, b: int): int {
    if a < b then a else b
  }

  /** `indices.slice(3 k, 3 k + 3)`: the `k`-th triple, cut short at the end of the list. */
  function Chunk(indices: seq<int>, k: nat): seq<int>
    requires 3 * k < |indices|
  {
    indices[3 * k..Min(3 * k + 3, |indices|)]
  }

  /** The triples the loop pushes, one per started group of three. */
  function Triangles(indices: seq<int>): seq<seq<int>> {
    seq((|indices| + 2) / 3, k requires 0 <= k < (|indices| + 2) / 3 => Chunk(indices, k))
  }

  /** The triangles laid end to end. */
  function Flatten(ts: seq<seq<int>>): seq<int> {
    if ts == [] then [] else Flatten(ts[..|ts| - 1]) + ts[|ts| - 1]
  }

  /** `triangulate`: the stride-three loop over the library's index list. */
  method Triangulate(indices: seq<int>) returns (triangles: seq<seq<int>>)
    ensures triangles == Triangles(indices)
  {
    triangles := [];
    var i := 0;
    while i < |indices|
      invariant i == 3 * |triangles| && i <= |indices| + 2
      invariant forall k :: 0 <= k < |triangles| ==> 3 * k < |indices| && triangles[k] == Chunk(indices, k)
      decreases |indices| - i
    {
      triangles := triangles + [indices[i..Min(i + 3, |indices|)]];
      i := i + 3;
    }
  }

  /** Laid end to end, the triangles give back the index list. */
  lemma TrianglesFlatten(indices: seq<int>)
    ensures Flatten(Triangles(indices)) == indices
  {
    var n := (|indices| + 2) / 3;
    var ts := Triangles(indices);
    for j := 0 to n
      invariant 3 * j <= |indices| + 2
      invariant Flatten(ts[..j]) == indices[..Min(3 * j, |indices|)]
    {
      assert ts[..j + 1][..j] == ts[..j];
      assert 3 * j < |indices|;
      assert indices[..Min(3 * j + 3, |indices|)] == indices[..3 * j] + ts[j];
    }
    assert ts[..n] == ts;
    assert indices[..Min(3 * n, |indices|)] == indices;
  }

  /** A list whose length is a multiple of three is cut into whole triangles. */
  lemma TrianglesWhole(indices: seq<int>)
    requires |indices| % 3 == 0
    ensures |Triangles(indices)| == |indices| / 3
    ensures forall t :: t in Triangles(indices) ==> |t| == 3
  {
  }

  // ---------------------------------------------------------------------
  // Point lookup.
  // ---------------------------------------------------------------------

  /** `indexes.map(i => points[i])`; an index outside the list reads `undefined`, here `None`. */
  function PointLookup<P>(points: seq<P>, indexes: seq<int>): (r: seq<Option<P>>)
    ensures |r| == |indexes|
    ensures forall k :: 0 <= k < |r| ==> (r[k].Some? <==> 0 <= indexes[k] < |points|)
  {
    seq(|indexes|, k requires 0 <= k < |indexes| =>
      if 0 <= indexes[k] < |points| then Some(points[indexes[k]]) else None)
  }

  /** Looking up a list of indices piece by piece is looking it up at once. */
  lemma PointLookupAppend<P>(points: seq<P>, a: seq<int>, b: seq<int>)
    ensures PointLookup(points, a + b) == PointLookup(points, a) + PointLookup(points, b)
  {
  }

  /** Looking up a triangle's indices and then a vertex is looking up that vertex's index. */
  lemma PointLookupVertex<P>(points: seq<P>, t: seq<int>, k: nat)
    requires k < |t| && 0 <= t[k] < |points|
    ensures PointLookup(points, t)[k] == Some(points[t[k]])
    ensures PointLookup(points, t)[k] == PointLookup(points, [t[k]])[0]
  {
  }

  // ---------------------------------------------------------------------
  // Create graph.
  // ---------------------------------------------------------------------

  /** A triangle's first three entries are its vertices. */
  predicate IsTriangle(t: seq<int>) {
    |t| >= 3
  }

  /** The three sides the inner loop walks: (a, b), (b, c), (c, a). */
  function Sides(t: seq<int>): (r: seq<(int, int)>)
    requires IsTriangle(t)
    ensures |r| == 3
  {
    [(t[0], t[1]), (t[1], t[2]), (t[2], t[0])]
  }

  /** Every side of every triangle, in loop order. */
  function AllSides(ts: seq<seq<int>>): seq<(int, int)>
    requires forall t :: t in ts ==> IsTriangle(t)
  {
    if ts == [] then [] else AllSides(ts[..|ts| - 1]) + Sides(ts[|ts| - 1])
  }

  /** `x` and `y` are joined by one of the sides, in either direction. */
  predicate Linked(sides: seq<(int, int)>, x: int, y: int) {
    (x, y) in sides || (y, x) in sides
  }

  /** Every vertex of every triangle is a point of the list, else `graph[i]` is undefined and the source throws. */
  predicate VerticesInRange(n: nat, ts: seq<seq<int>>) {
    forall t :: t in ts ==> IsTriangle(t) && 0 <= t[0] < n && 0 <= t[1] < n && 0 <= t[2] < n
  }

  lemma {:induction false} AllSidesInRange(n: nat, ts: seq<seq<int>>)
    requires VerticesInRange(n, ts)
    ensures forall e :: e in AllSides(ts) ==> 0 <= e.0 < n && 0 <= e.1 < n
  {
    if ts != [] {
      assert forall t :: t in ts[..|ts| - 1] ==> t in ts;
      AllSidesInRange(n, ts[..|ts| - 1]);
    }
  }

  /** The sides are exactly the sides of the triangles, each one of the three of some triangle. */
  lemma {:induction false} AllSidesMembers(ts: seq<seq<int>>, e: (int, int))
    requires forall t :: t in ts ==> IsTriangle(t)
    ensures e in AllSides(ts) <==> exists k :: 0 <= k < |ts| && e in Sides(ts[k])
  {
    if ts != [] {
      var init := ts[..|ts| - 1];
      assert forall t :: t in init ==> t in ts;
      AllSidesMembers(init, e);
      if e in AllSides(ts) && e !in Sides(ts[|ts| - 1]) {
        var k :| 0 <= k < |init| && e in Sides(init[k]);
        assert ts[k] == init[k];
      }
      if exists k :: 0 <= k < |ts| && e in Sides(ts[k]) {
        var k :| 0 <= k < |ts| && e in Sides(ts[k]);
        if k < |init| {
          assert init[k] == ts[k];
        }
      }
    }
  }

  /**
   * `createGraph`: one adjacency set per point, and for each side (i, j) of
   * each triangle, `j` joins `i`'s set and `i` joins `j`'s.
   */
  method CreateGraph<P>(points: seq<P>, triangles: seq<seq<int>>) returns (graph: seq<set<int>>)
    requires VerticesInRange(|points|, triangles)
    ensures |graph| == |points|
    ensures forall x, y :: 0 <= x < |graph| ==> (y in graph[x] <==> Linked(AllSides(triangles), x, y))
  {
    graph := seq(|points|, _ => {});
    for t := 0 to |triangles|
      invariant |graph| == |points|
      invariant forall x, y :: 0 <= x < |graph| ==> (y in graph[x] <==> Linked(AllSides(triangles[..t]), x, y))
    {
      var tri := triangles[t];
      assert tri in triangles;
      var sides := Sides(tri);
      ghost var done := AllSides(triangles[..t]);
      for s := 0 to 3
        invariant |graph| == |points|
        invariant forall x, y :: 0 <= x < |graph| ==> (y in graph[x] <==> Linked(done + sides[..s], x, y))
      {
        var (i, j) := sides[s];
        graph := graph[j := graph[j] + {i}];
        graph := graph[i := graph[i] + {j}];
        LinkedExtend(done + sides[..s], i, j);
        assert done + sides[..s + 1] == done + sides[..s] + [(i, j)];
      }
      assert triangles[..t + 1][..t] == triangles[..t];
      assert sides[..3] == sides;
    }
    assert triangles[..|triangles|] == triangles;
  }

  lemma LinkedExtend(sides: seq<(int, int)>, i: int, j: int)
    ensures forall x, y :: Linked(sides + [(i, j)], x, y) <==> Linked(sides, x, y) || (x == i && y == j) || (x == j && y == i)
  {
  }

  /** The graph is symmetric, and has no vertex outside the point list. */
  lemma GraphSymmetric(points: nat, triangles: seq<seq<int>>, graph: seq<set<int>>)
    requires VerticesInRange(points, triangles) && |graph| == points
    requires forall x, y :: 0 <= x < |graph| ==> (y in graph[x] <==> Linked(AllSides(triangles), x, y))
    ensures forall x, y :: 0 <= x < points && y in graph[x] ==> 0 <= y < points && x in graph[y]
  {
    AllSidesInRange(points, triangles);
  }

  /** The graph's edges are exactly the sides of the triangles. */
  lemma GraphIsSides(points: nat, triangles: seq<seq<int>>, graph: seq<set<int>>, x: int, y: int)
    requires VerticesInRange(points, triangles) && |graph| == points && 0 <= x < points
    requires forall x, y :: 0 <= x < |graph| ==> (y in graph[x] <==> Linked(AllSides(triangles), x, y))
    ensures y in graph[x] <==> exists k :: 0 <= k < |triangles| && ((x, y) in Sides(triangles[k]) || (y, x) in Sides(triangles[k]))
  {
    assert forall t :: t in triangles ==> IsTriangle(t);
    AllSidesMembers(triangles, (x, y));
    AllSidesMembers(triangles, (y, x));
  }
}
