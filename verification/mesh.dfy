/** Turning a height map into a mesh: the affine rescale `scaleHeightMap`,
    the vertex layout `generateVertices`, the quad-to-triangle index
    arithmetic `generateTriangles`, and the face records `saveToOBJ` writes. */
module Mesh {
  import opened Arith
  import opened Grid
  import opened Terrain

  // ---------------------------------------------------------------------
  // scaleHeightMap

  /** The smallest entry of a non-empty row. */
  function RowMin(s: seq<real>): (r: real)
    requires |s| > 0
    ensures r in s && forall k :: 0 <= k < |s| ==> r <= s[k]
  {
    if |s| == 1 then s[0]
    else
      var m := RowMin(s[1..]);
      assert forall k :: 1 <= k < |s| ==> s[k] == s[1..][k - 1];
      if s[0] <= m then s[0] else m
  }

  /** The largest entry of a non-empty row. */
  function RowMax(s: seq<real>): (r: real)
    requires |s| > 0
    ensures r in s && forall k :: 0 <= k < |s| ==> s[k] <= r
  {
    if |s| == 1 then s[0]
    else
      var m := RowMax(s[1..]);
      assert forall k :: 1 <= k < |s| ==> s[k] == s[1..][k - 1];
      if s[0] >= m then s[0] else m
  }

  /** A table with at least one entry in every row. */
  predicate NonEmpty(m: seq<seq<real>>)
  {
    |m| > 0 && forall x :: 0 <= x < |m| ==> |m[x]| > 0
  }

  /** np.min(arr) */
  function Min(m: seq<seq<real>>): (r: real)
    requires NonEmpty(m)
    ensures forall x, y :: 0 <= x < |m| && 0 <= y < |m[x]| ==> r <= m[x][y]
    ensures exists x, y :: 0 <= x < |m| && 0 <= y < |m[x]| && m[x][y] == r
  {
    var a := RowMin(m[0]);
    if |m| == 1 then a
    else
      var b := Min(m[1..]);
      assert forall x :: 1 <= x < |m| ==> m[x] == m[1..][x - 1];
      if a <= b then a else b
  }

  /** np.max(arr) */
  function Max(m: seq<seq<real>>): (r: real)
    requires NonEmpty(m)
    ensures forall x, y :: 0 <= x < |m| && 0 <= y < |m[x]| ==> m[x][y] <= r
    ensures exists x, y :: 0 <= x < |m| && 0 <= y < |m[x]| && m[x][y] == r
  {
    var a := RowMax(m[0]);
    if |m| == 1 then a
    else
      var b := Max(m[1..]);
      assert forall x :: 1 <= x < |m| ==> m[x] == m[1..][x - 1];
      if a >= b then a else b
  }

  /** Apply f to every entry. */
  function MapEntries(m: seq<seq<real>>, f: real -> real): (r: seq<seq<real>>)
    ensures |r| == |m| && forall x :: 0 <= x < |m| ==> |r[x]| == |m[x]|
    ensures forall x, y :: 0 <= x < |m| && 0 <= y < |m[x]| ==> r[x][y] == f(m[x][y])
  {
    seq(|m|, x requires 0 <= x < |m| => seq(|m[x]|, y requires 0 <= y < |m[x]| => f(m[x][y])))
  }

  /** scaleHeightMap as written: (v + |min|) / (max - min). A constant map
      (max == min) divides by zero, so it is excluded. */
  function ScaleHeightMapAsWritten(m: seq<seq<real>>): (r: seq<seq<real>>)
    requires NonEmpty(m) && Min(m) < Max(m)
    ensures |r| == |m| && forall x :: 0 <= x < |m| ==> |r[x]| == |m[x]|
  {
    var lo, hi := Min(m), Max(m);
    seq(|m|, x requires 0 <= x < |m| => seq(|m[x]|, y requires 0 <= y < |m[x]| => Shifted(m[x][y], Abs(lo), hi - lo)))
  }

  /** (v + shift) / span */
  function Shifted(v: real, shift: real, span: real): real
    requires span > 0.0
  {
    (v + shift) / span
  }

  /** The normalisation the code evidently intends: (v - min) / (max - min). */
  function ScaleHeightMap(m: seq<seq<real>>): (r: seq<seq<real>>)
    requires NonEmpty(m) && Min(m) < Max(m)
    ensures |r| == |m| && forall x :: 0 <= x < |m| ==> |r[x]| == |m[x]|
    ensures forall x, y :: 0 <= x < |m| && 0 <= y < |m[x]| ==> 0.0 <= r[x][y] <= 1.0
    ensures forall x, y :: 0 <= x < |m| && 0 <= y < |m[x]| ==> (r[x][y] == 0.0 <==> m[x][y] == Min(m))
    ensures forall x, y :: 0 <= x < |m| && 0 <= y < |m[x]| ==> (r[x][y] == 1.0 <==> m[x][y] == Max(m))
  {
    var lo, hi := Min(m), Max(m);
    var r := MapEntries(m, v => (v - lo) / (hi - lo));
    forall x, y | 0 <= x < |m| && 0 <= y < |m[x]|
      ensures 0.0 <= r[x][y] <= 1.0
      ensures r[x][y] == 0.0 <==> m[x][y] == lo
      ensures r[x][y] == 1.0 <==> m[x][y] == hi
    {
      UnitFraction(m[x][y] - lo, hi - lo);
    }
    r
  }

  /** a / b lies in [0, 1] for 0 <= a <= b, and is 0 or 1 exactly at the ends. */
  lemma UnitFraction(a: real, b: real)
    requires 0.0 <= a <= b && b > 0.0
    ensures 0.0 <= a / b <= 1.0
    ensures a / b == 0.0 <==> a == 0.0
    ensures a / b == 1.0 <==> a == b
  {
    var q := a / b;
    assert a == q * b;
    if q < 0.0 {
      MulNonNeg(-q, b);
    }
    if q > 1.0 {
      MulNonNeg(q - 1.0, b);
    }
  }

  /** For a map whose minimum is at most 0 (so |min| == -min), the source's
      formula is exactly the normalisation. */
  lemma ScaleAgreesWhenMinNonPositive(m: seq<seq<real>>)
    requires NonEmpty(m) && Min(m) < Max(m) && Min(m) <= 0.0
    ensures ScaleHeightMapAsWritten(m) == ScaleHeightMap(m)
  {
    var a, b := ScaleHeightMapAsWritten(m), ScaleHeightMap(m);
    var lo, hi := Min(m), Max(m);
    assert Abs(lo) == -lo;
    hide Min, Max, RowMin, RowMax, Abs;
    forall x | 0 <= x < |m|
      ensures a[x] == b[x]
    {
      forall y | 0 <= y < |m[x]|
        ensures a[x][y] == b[x][y]
      {
        assert a[x][y] == Shifted(m[x][y], Abs(lo), hi - lo);
        assert b[x][y] == (m[x][y] - lo) / (hi - lo);
      }
    }
  }

  /** For a map with a positive minimum the source's formula leaves [0, 1]:
      [[1, 2]] has min 1, max 2, and 1 maps to (1 + 1) / 1 = 2. */
  lemma ScaleAsWrittenOvershoots()
    ensures var m := [[1.0, 2.0]];
            NonEmpty(m) && Min(m) < Max(m) && ScaleHeightMapAsWritten(m)[0][0] == 2.0
  {
    var m := [[1.0, 2.0]];
    assert RowMin(m[0][1..]) == 2.0;
    assert RowMax(m[0][1..]) == 2.0;
    assert Min(m) == 1.0 && Max(m) == 2.0;
    assert ScaleHeightMapAsWritten(m)[0][0] == (1.0 + Abs(1.0)) / (2.0 - 1.0);
  }

  /** Whenever the minimum is positive the source's formula is not the
      normalisation: at the minimum it gives (min + min) / (max - min) > 0. */
  lemma ScaleAsWrittenNotNormalisation(m: seq<seq<real>>)
    requires NonEmpty(m) && Min(m) < Max(m) && Min(m) > 0.0
    ensures ScaleHeightMapAsWritten(m) != ScaleHeightMap(m)
  {
    hide Shifted, Min, Max, RowMin, RowMax, Abs;
    var lo, hi := Min(m), Max(m);
    var x, y :| 0 <= x < |m| && 0 <= y < |m[x]| && m[x][y] == lo;
    assert ScaleHeightMap(m)[x][y] == 0.0;
    assert ScaleHeightMapAsWritten(m)[x][y] == Shifted(lo, Abs(lo), hi - lo);
    ShiftedPositive(lo, Abs(lo), hi - lo);
  }

  lemma ShiftedPositive(v: real, shift: real, span: real)
    requires v + shift > 0.0 && span > 0.0
    ensures Shifted(v, shift, span) > 0.0
  {
    PositiveQuotient(v + shift, span);
  }

  lemma PositiveQuotient(a: real, b: real)
    requires a > 0.0 && b > 0.0
    ensures a / b > 0.0
  {
    var q := a / b;
    assert a == q * b;
    if q <= 0.0 {
      MulNonNeg(-q, b);
    }
  }

  // ---------------------------------------------------------------------
  // generateVertices

  datatype Vec3 = Vec3(x: real, y: real, z: real)

  /** The vertex generateVertices emits for cell (x, y) of a rows x cols map:
      ground position spread evenly over [-1, 1] in both directions, height
      -0.75 + 0.5 h. */
  function Vertex(h: seq<seq<real>>, rows: nat, cols: nat, x: int, y: int): Vec3
    requires IsShape(h, rows, cols) && rows != 1 && cols != 1 && 0 <= x < rows && 0 <= y < cols
  {
    Vec3(Spread(x, rows), -0.75 + 0.5 * h[x][y], Spread(y, cols))
  }

  /** base + step * k with base -1 and step size / (n - 1), size 2. */
  function Spread(k: int, n: int): real
    requires n != 1
  {
    -1.0 + 2.0 / (n - 1) as real * k as real
  }

  /** generateVertices(heightMap) for a rows x cols map: one vertex per cell,
      in row-major order (vertex k is that of cell (k / cols, k % cols); see
      FlatCell for the other direction). A side of 1 divides by zero (size / (shape - 1)),
      so it is excluded. */
  method GenerateVertices(h: seq<seq<real>>, rows: nat, cols: nat) returns (vs: seq<Vec3>)
    requires IsShape(h, rows, cols) && rows != 1 && cols != 1
    ensures |vs| == rows * cols
    ensures forall k :: 0 <= k < |vs| ==>
              cols > 0 && k / cols < rows && vs[k] == Vertex(h, rows, cols, k / cols, k % cols)
    ensures forall k :: 0 <= k < |vs| ==> -1.0 <= vs[k].x <= 1.0 && -1.0 <= vs[k].z <= 1.0
  {
    vs := [];
    var x := 0;
    while x < rows
      invariant 0 <= x <= rows
      invariant |vs| == x * cols
      invariant RowMajorVertices(vs, h, rows, cols)
    {
      var y := 0;
      while y < cols
        invariant 0 <= y <= cols
        invariant |vs| == x * cols + y
        invariant RowMajorVertices(vs, h, rows, cols)
      {
        AppendVertex(vs, h, rows, cols, x, y);
        vs := vs + [Vertex(h, rows, cols, x, y)];
        y := y + 1;
      }
      x := x + 1;
    }
    FlatInSquare(h, rows, cols, vs);
  }

  /** Vertex k of the list is the vertex of cell (k / cols, k % cols). */
  predicate RowMajorVertices(vs: seq<Vec3>, h: seq<seq<real>>, rows: nat, cols: nat)
    requires IsShape(h, rows, cols) && rows != 1 && cols != 1
  {
    forall k :: 0 <= k < |vs| ==>
      cols > 0 && k / cols < rows && vs[k] == Vertex(h, rows, cols, k / cols, k % cols)
  }

  /** Appending the vertex of cell (x, y) at index x * cols + y keeps the layout. */
  lemma AppendVertex(vs: seq<Vec3>, h: seq<seq<real>>, rows: nat, cols: nat, x: int, y: int)
    requires IsShape(h, rows, cols) && rows != 1 && cols != 1
    requires 0 <= x < rows && 0 <= y < cols && |vs| == x * cols + y
    requires RowMajorVertices(vs, h, rows, cols)
    ensures RowMajorVertices(vs + [Vertex(h, rows, cols, x, y)], h, rows, cols)
  {
    hide Vertex;
    RowMajorSplit(x, y, cols);
  }

  /** Vertex x * cols + y of the list is the vertex of cell (x, y). */
  lemma FlatCell(h: seq<seq<real>>, rows: nat, cols: nat, vs: seq<Vec3>, x: int, y: int)
    requires IsShape(h, rows, cols) && rows != 1 && cols != 1
    requires |vs| == rows * cols && 0 <= x < rows && 0 <= y < cols
    requires forall k :: 0 <= k < |vs| ==>
               cols > 0 && k / cols < rows && vs[k] == Vertex(h, rows, cols, k / cols, k % cols)
    ensures x * cols + y < |vs| && vs[x * cols + y] == Vertex(h, rows, cols, x, y)
  {
    var k := x * cols + y;
    RowMajorBound(x, y, rows, cols);
    RowMajorSplit(x, y, cols);
    assert vs[k] == Vertex(h, rows, cols, k / cols, k % cols);
  }

  /** Every vertex of the flat list lies over the square [-1, 1] x [-1, 1]. */
  lemma FlatInSquare(h: seq<seq<real>>, rows: nat, cols: nat, vs: seq<Vec3>)
    requires IsShape(h, rows, cols) && rows != 1 && cols != 1
    requires forall k :: 0 <= k < |vs| ==>
               cols > 0 && k / cols < rows && vs[k] == Vertex(h, rows, cols, k / cols, k % cols)
    ensures forall k :: 0 <= k < |vs| ==> -1.0 <= vs[k].x <= 1.0 && -1.0 <= vs[k].z <= 1.0
  {
    forall k | 0 <= k < |vs|
      ensures -1.0 <= vs[k].x <= 1.0 && -1.0 <= vs[k].z <= 1.0
    {
      SpreadBound(k / cols, rows);
      SpreadBound(k % cols, cols);
    }
  }

  /** Different cells get different ground positions: the (x, z) of a vertex
      gives back its cell, so the vertex list is a faithful grid. */
  lemma VertexPositionsDistinct(h: seq<seq<real>>, rows: nat, cols: nat, x1: int, y1: int, x2: int, y2: int)
    requires IsShape(h, rows, cols) && rows != 1 && cols != 1
    requires 0 <= x1 < rows && 0 <= y1 < cols && 0 <= x2 < rows && 0 <= y2 < cols
    requires Vertex(h, rows, cols, x1, y1).x == Vertex(h, rows, cols, x2, y2).x
    requires Vertex(h, rows, cols, x1, y1).z == Vertex(h, rows, cols, x2, y2).z
    ensures x1 == x2 && y1 == y2
  {
    SpreadInjective(x1, x2, rows);
    SpreadInjective(y1, y2, cols);
  }

  /** Spread is strictly increasing, hence one-to-one. */
  lemma SpreadInjective(a: int, b: int, n: int)
    requires n >= 2 && Spread(a, n) == Spread(b, n)
    ensures a == b
  {
    var step := 2.0 / (n - 1) as real;
    assert step > 0.0;
    assert step * (a as real - b as real) == 0.0;
    if a != b {
      if a > b {
        MulPositive(step, a as real - b as real);
      } else {
        MulPositive(step, b as real - a as real);
      }
    }
  }

  lemma MulPositive(a: real, b: real)
    requires a > 0.0 && b > 0.0
    ensures a * b > 0.0
  {
  }

  /** -1 + 2 k / (n - 1) lies in [-1, 1] for 0 <= k < n. */
  lemma SpreadBound(k: int, n: int)
    requires 0 <= k < n && n >= 2
    ensures -1.0 <= Spread(k, n) <= 1.0
  {
    UnitFraction(k as real, (n - 1) as real);
    assert 2.0 / (n - 1) as real * k as real == 2.0 * (k as real / (n - 1) as real);
  }

  // ---------------------------------------------------------------------
  // generateTriangles and the face records of saveToOBJ

  /** A surface (a, b, c): three indices into the vertex list. */
  datatype Tri = Tri(a: int, b: int, c: int)

  /** An edge (u, v) between two vertex indices. */
  datatype Edge = Edge(u: int, v: int)

  /** range(n - 1) has this many elements. */
  function Span(n: int): nat
  {
    if n >= 1 then n - 1 else 0
  }

  /** The quad (x, y) handled by the q-th iteration of the nested loop over
      range(rows - 1) x range(cols - 1). */
  function QuadOf(q: int, cols: int): Cell
    requires cols >= 2
  {
    Cell(q / (cols - 1), q % (cols - 1))
  }

  /** The cell whose vertex sits at index k of the row-major vertex list. */
  function CellOf(k: int, cols: int): Cell
    requires cols >= 1
  {
    Cell(k / cols, k % cols)
  }

  /** The two surfaces of quad (x, y), with base = x * stride + y,
      a = base, b = base + 1, c = base + stride + 1, d = base + stride:
      (a, b, c) and (a, c, d). */
  function QuadSurfaces(q: Cell, stride: int): (ts: seq<Tri>)
    ensures |ts| == 2
  {
    var a := q.i * stride + q.j;
    [Tri(a, a + 1, a + stride + 1), Tri(a, a + stride + 1, a + stride)]
  }

  /** The five edges of quad (x, y): (a, b), (b, c), (c, a), (c, d), (d, a). */
  function QuadEdges(q: Cell, stride: int): (es: seq<Edge>)
    ensures |es| == 5
  {
    var a := q.i * stride + q.j;
    var b, c, d := a + 1, a + stride + 1, a + stride;
    [Edge(a, b), Edge(b, c), Edge(c, a), Edge(c, d), Edge(d, a)]
  }

  /** The three sides of a triangle, in order. */
  function Sides(t: Tri): seq<Edge>
  {
    [Edge(t.a, t.b), Edge(t.b, t.c), Edge(t.c, t.a)]
  }

  /** e joins the same two vertices as f, in either direction. */
  predicate SameEdge(e: Edge, f: Edge)
  {
    (e.u == f.u && e.v == f.v) || (e.u == f.v && e.v == f.u)
  }

  /** The edges of a quad are exactly the sides of its two surfaces, with the
      shared diagonal (a, c) listed once: every edge is a side of one of the
      surfaces, and every side of either surface is one of the edges. */
  lemma QuadEdgesAreSides(q: Cell, stride: int)
    ensures var es, ts := QuadEdges(q, stride), QuadSurfaces(q, stride);
            && (forall k :: 0 <= k < 5 ==> exists t, m :: 0 <= t < 2 && 0 <= m < 3 && SameEdge(es[k], Sides(ts[t])[m]))
            && (forall t, m :: 0 <= t < 2 && 0 <= m < 3 ==> exists k :: 0 <= k < 5 && SameEdge(es[k], Sides(ts[t])[m]))
  {
    var es, ts := QuadEdges(q, stride), QuadSurfaces(q, stride);
    var s0, s1 := Sides(ts[0]), Sides(ts[1]);
    assert SameEdge(es[0], s0[0]) && SameEdge(es[1], s0[1]) && SameEdge(es[2], s0[2]);
    assert SameEdge(es[2], s1[0]) && SameEdge(es[3], s1[1]) && SameEdge(es[4], s1[2]);
  }

  /** With the row-major stride cols, the surfaces of quad (x, y) join the
      vertices of the quad's corner cells: (x, y), (x, y + 1), (x + 1, y + 1)
      and (x, y), (x + 1, y + 1), (x + 1, y), every index inside the vertex
      list of a rows x cols map. */
  lemma QuadSurfacesJoinCorners(rows: int, cols: int, q: Cell)
    requires 0 <= q.i < rows - 1 && 0 <= q.j < cols - 1
    ensures var ts := QuadSurfaces(q, cols);
            && CellOf(ts[0].a, cols) == Cell(q.i, q.j)
            && CellOf(ts[0].b, cols) == Cell(q.i, q.j + 1)
            && CellOf(ts[0].c, cols) == Cell(q.i + 1, q.j + 1)
            && ts[1].a == ts[0].a && ts[1].b == ts[0].c
            && CellOf(ts[1].c, cols) == Cell(q.i + 1, q.j)
    ensures forall t, m :: 0 <= t < 2 && 0 <= m < 3 ==>
              0 <= Corners(QuadSurfaces(q, cols)[t])[m] < rows * cols
  {
    var x, y := q.i, q.j;
    QuadLayout(x, y, cols);
    hide QuadSurfaces;
    RowMajorSplit(x, y, cols);
    RowMajorSplit(x, y + 1, cols);
    RowMajorSplit(x + 1, y + 1, cols);
    RowMajorSplit(x + 1, y, cols);
    RowMajorBound(x, y, rows, cols);
    RowMajorBound(x, y + 1, rows, cols);
    RowMajorBound(x + 1, y + 1, rows, cols);
    RowMajorBound(x + 1, y, rows, cols);
  }

  /** The four corners of quad (x, y) at stride cols, as row-major indices. */
  lemma QuadLayout(x: int, y: int, cols: int)
    ensures QuadSurfaces(Cell(x, y), cols)
         == [Tri(x * cols + y, x * cols + (y + 1), (x + 1) * cols + (y + 1)),
             Tri(x * cols + y, (x + 1) * cols + (y + 1), (x + 1) * cols + y)]
  {
    assert (x + 1) * cols == x * cols + cols;
  }

  /** The three vertex indices of a surface, in order. */
  function Corners(t: Tri): seq<int>
  {
    [t.a, t.b, t.c]
  }

  /** generateTriangles(heightMap) for a rows x cols map: for every quad of
      the nested loop, in order, five edges and two surfaces. The source
      strides by shape[0], that is stride == rows; the vertex list is laid
      out with stride cols (see QuadSurfacesJoinCorners and
      TrianglesAsWrittenLeaveGrid). */
  method GenerateTriangles(rows: int, cols: int, stride: int) returns (edges: seq<Edge>, surfaces: seq<Tri>)
    ensures |surfaces| == 2 * (Span(rows) * Span(cols)) && |edges| == 5 * (Span(rows) * Span(cols))
    ensures forall k :: 0 <= k < |surfaces| ==>
              cols >= 2 && QuadOf(k / 2, cols).i < rows - 1 &&
              surfaces[k] == QuadSurfaces(QuadOf(k / 2, cols), stride)[k % 2]
    ensures forall k :: 0 <= k < |edges| ==>
              cols >= 2 && QuadOf(k / 5, cols).i < rows - 1 &&
              edges[k] == QuadEdges(QuadOf(k / 5, cols), stride)[k % 5]
    ensures stride == cols ==> SurfacesInside(surfaces, rows * cols)
    ensures stride == cols ==> EdgesInside(edges, rows * cols)
  {
    hide QuadSurfaces, QuadEdges, QuadOf;
    edges, surfaces := [], [];
    var done := 0;
    var x := 0;
    while x < rows - 1
      invariant 0 <= x && (x <= rows - 1 || x == 0)
      invariant done == x * Span(cols)
      invariant |surfaces| == 2 * done && |edges| == 5 * done
      invariant SurfacesBelow(surfaces, x, cols, stride) && EdgesBelow(edges, x, cols, stride)
    {
      var y := 0;
      while y < cols - 1
        invariant 0 <= y && (y <= cols - 1 || y == 0)
        invariant done == x * Span(cols) + y
        invariant |surfaces| == 2 * done && |edges| == 5 * done
        invariant SurfacesBelow(surfaces, x + 1, cols, stride) && EdgesBelow(edges, x + 1, cols, stride)
      {
        AppendQuad(edges, surfaces, done, x, y, cols, stride);
        edges := edges + QuadEdges(Cell(x, y), stride);
        surfaces := surfaces + QuadSurfaces(Cell(x, y), stride);
        done := done + 1;
        y := y + 1;
      }
      x := x + 1;
    }
    if stride == cols {
      RowMajorSurfacesInside(surfaces, rows, cols);
      RowMajorEdgesInside(edges, rows, cols);
    }
  }

  /** Both ends of every edge lie in 0 .. n - 1. */
  predicate EdgesInside(es: seq<Edge>, n: int)
  {
    forall k :: 0 <= k < |es| ==> 0 <= es[k].u < n && 0 <= es[k].v < n
  }

  /** Edges laid out with the row-major stride join only existing vertices. */
  lemma RowMajorEdgesInside(es: seq<Edge>, rows: int, cols: int)
    requires EdgesBelow(es, rows - 1, cols, cols)
    ensures EdgesInside(es, rows * cols)
  {
    forall k | 0 <= k < |es|
      ensures 0 <= es[k].u < rows * cols && 0 <= es[k].v < rows * cols
    {
      EdgeInside(es, rows, cols, k);
    }
  }

  lemma EdgeInside(es: seq<Edge>, rows: int, cols: int, k: int)
    requires EdgesBelow(es, rows - 1, cols, cols) && 0 <= k < |es|
    ensures 0 <= es[k].u < rows * cols && 0 <= es[k].v < rows * cols
  {
    EdgeAt(es, rows - 1, cols, cols, k);
    hide EdgesBelow;
    var q := QuadOf(k / 5, cols);
    assert 0 <= q.i && 0 <= q.j < cols - 1;
    hide QuadOf;
    QuadSurfacesJoinCorners(rows, cols, q);
    EdgeEndsAreCorners(q, cols, k % 5);
    assert es[k] == QuadEdges(q, cols)[k % 5];
  }

  /** One instance of EdgesBelow. */
  lemma EdgeAt(s: seq<Edge>, lim: int, cols: int, stride: int, k: int)
    requires EdgesBelow(s, lim, cols, stride) && 0 <= k < |s|
    ensures cols >= 2 && QuadOf(k / 5, cols).i < lim && s[k] == QuadEdges(QuadOf(k / 5, cols), stride)[k % 5]
  {
  }

  /** Both ends of every quad edge are corners of one of the quad's surfaces. */
  lemma EdgeEndsAreCorners(q: Cell, stride: int, m: int)
    requires 0 <= m < 5
    ensures var e, ts := QuadEdges(q, stride)[m], QuadSurfaces(q, stride);
            && (e.u in Corners(ts[0]) || e.u in Corners(ts[1]))
            && (e.v in Corners(ts[0]) || e.v in Corners(ts[1]))
  {
  }

  /** Every vertex index of every surface lies in 0 .. n - 1. */
  predicate SurfacesInside(s: seq<Tri>, n: int)
  {
    forall k, m :: 0 <= k < |s| && 0 <= m < 3 ==> 0 <= Corners(s[k])[m] < n
  }

  /** Surfaces laid out with the row-major stride index only existing vertices. */
  lemma RowMajorSurfacesInside(s: seq<Tri>, rows: int, cols: int)
    requires SurfacesBelow(s, rows - 1, cols, cols)
    ensures SurfacesInside(s, rows * cols)
  {
    forall k | 0 <= k < |s|
      ensures forall m :: 0 <= m < 3 ==> 0 <= Corners(s[k])[m] < rows * cols
    {
      SurfaceInside(s, rows, cols, k);
    }
  }

  lemma SurfaceInside(s: seq<Tri>, rows: int, cols: int, k: int)
    requires SurfacesBelow(s, rows - 1, cols, cols) && 0 <= k < |s|
    ensures forall m :: 0 <= m < 3 ==> 0 <= Corners(s[k])[m] < rows * cols
  {
    SurfaceAt(s, rows - 1, cols, cols, k);
    hide SurfacesBelow;
    var q := QuadOf(k / 2, cols);
    QuadSurfacesJoinCorners(rows, cols, q);
    assert s[k] == QuadSurfaces(q, cols)[k % 2];
  }

  /** One instance of SurfacesBelow. */
  lemma SurfaceAt(s: seq<Tri>, lim: int, cols: int, stride: int, k: int)
    requires SurfacesBelow(s, lim, cols, stride) && 0 <= k < |s|
    ensures cols >= 2 && QuadOf(k / 2, cols).i < lim && s[k] == QuadSurfaces(QuadOf(k / 2, cols), stride)[k % 2]
  {
  }

  /** Surface k of the list belongs to quad QuadOf(k / 2), whose row is below lim. */
  predicate SurfacesBelow(s: seq<Tri>, lim: int, cols: int, stride: int)
  {
    forall k :: 0 <= k < |s| ==>
      cols >= 2 && QuadOf(k / 2, cols).i < lim && s[k] == QuadSurfaces(QuadOf(k / 2, cols), stride)[k % 2]
  }

  /** Edge k of the list belongs to quad QuadOf(k / 5), whose row is below lim. */
  predicate EdgesBelow(s: seq<Edge>, lim: int, cols: int, stride: int)
  {
    forall k :: 0 <= k < |s| ==>
      cols >= 2 && QuadOf(k / 5, cols).i < lim && s[k] == QuadEdges(QuadOf(k / 5, cols), stride)[k % 5]
  }

  /** Appending the edges and surfaces of the q-th quad (x, y) keeps both
      lists indexed by quad. */
  lemma AppendQuad(es: seq<Edge>, ss: seq<Tri>, q: int, x: int, y: int, cols: int, stride: int)
    requires cols >= 2 && 0 <= x && 0 <= y < cols - 1 && q == x * (cols - 1) + y
    requires |ss| == 2 * q && |es| == 5 * q
    requires SurfacesBelow(ss, x + 1, cols, stride) && EdgesBelow(es, x + 1, cols, stride)
    ensures SurfacesBelow(ss + QuadSurfaces(Cell(x, y), stride), x + 1, cols, stride)
    ensures EdgesBelow(es + QuadEdges(Cell(x, y), stride), x + 1, cols, stride)
  {
    RowMajorSplit(x, y, cols - 1);
    assert QuadOf(q, cols) == Cell(x, y);
    var ss' := ss + QuadSurfaces(Cell(x, y), stride);
    forall k | |ss| <= k < |ss'|
      ensures QuadOf(k / 2, cols) == Cell(x, y) && ss'[k] == QuadSurfaces(Cell(x, y), stride)[k % 2]
    {
      DivModUnique(k, 2, q, k - 2 * q);
    }
    var es' := es + QuadEdges(Cell(x, y), stride);
    forall k | |es| <= k < |es'|
      ensures QuadOf(k / 5, cols) == Cell(x, y) && es'[k] == QuadEdges(Cell(x, y), stride)[k % 5]
    {
      DivModUnique(k, 5, q, k - 5 * q);
    }
  }

  /** With the source's stride shape[0] on a map that is not square, a
      surface leaves the vertex list: for a 3 x 2 map (6 vertices), quad
      (1, 0) yields the surface (3, 4, 7). */
  lemma TrianglesAsWrittenLeaveGrid()
    ensures var rows, cols := 3, 2;
            var t := QuadSurfaces(Cell(1, 0), rows)[0];
            1 < rows - 1 && 0 < cols - 1 && t == Tri(3, 4, 7) && t.c >= rows * cols
  {
  }

  /** On a square map the source's stride is the row-major one. */
  lemma TrianglesAsWrittenOnSquare(n: int, q: Cell)
    requires 0 <= q.i < n - 1 && 0 <= q.j < n - 1
    ensures forall t, m :: 0 <= t < 2 && 0 <= m < 3 ==>
              0 <= Corners(QuadSurfaces(q, n)[t])[m] < n * n
    ensures forall m :: 0 <= m < 5 ==>
              0 <= QuadEdges(q, n)[m].u < n * n && 0 <= QuadEdges(q, n)[m].v < n * n
  {
    QuadSurfacesJoinCorners(n, n, q);
    forall m | 0 <= m < 5
      ensures 0 <= QuadEdges(q, n)[m].u < n * n && 0 <= QuadEdges(q, n)[m].v < n * n
    {
      EdgeEndsAreCorners(q, n, m);
    }
  }

  /** One line "f i j k" of the OBJ file: 1-based vertex indices. */
  datatype Face = Face(v1: int, v2: int, v3: int)

  /** saveToOBJ writes surface (a, b, c) as "f c+1 b+1 a+1": one-based and
      in reverse order. */
  function FaceOf(t: Tri): (f: Face)
    ensures ToTri(f) == t
  {
    Face(t.c + 1, t.b + 1, t.a + 1)
  }

  /** Reading a face record back as a surface. */
  function ToTri(f: Face): (t: Tri)
  {
    Tri(f.v3 - 1, f.v2 - 1, f.v1 - 1)
  }

  /** The records are exactly the surfaces: face records and surfaces are in
      one-to-one correspondence, and a surface inside an n-vertex list gives
      a record inside 1 .. n, the numbering of OBJ vertex lines. */
  lemma FaceRoundTrip(f: Face, t: Tri, n: int)
    ensures ToTri(FaceOf(t)) == t && FaceOf(ToTri(f)) == f
    ensures (0 <= t.a < n && 0 <= t.b < n && 0 <= t.c < n) <==>
            (1 <= FaceOf(t).v1 <= n && 1 <= FaceOf(t).v2 <= n && 1 <= FaceOf(t).v3 <= n)
  {
  }

  /** The face lines of saveToOBJ, one per surface, in order. */
  function Faces(ts: seq<Tri>): (fs: seq<Face>)
    ensures |fs| == |ts| && forall k :: 0 <= k < |ts| ==> ToTri(fs[k]) == ts[k]
  {
    seq(|ts|, k requires 0 <= k < |ts| => FaceOf(ts[k]))
  }
}
