/** The square height grid the synthesiser works on, grid positions, and the
    Python `range` / nested-loop traversal orders used by every pass. */
module Grid {
  import opened Arith

  /** A position (row i, column j); also used for mesh quads. */
  datatype Cell = Cell(i: int, j: int)

  /** A grid of heights, row by row. */
  type Grid = seq<seq<real>>

  /** Square: every row is as long as there are rows (the side is d.shape[0]). */
  predicate IsGrid(d: Grid)
  {
    forall i :: 0 <= i < |d| ==> |d[i]| == |d|
  }

  predicate InGrid(c: Cell, n: int)
  {
    0 <= c.i < n && 0 <= c.j < n
  }

  function At(d: Grid, c: Cell): real
    requires IsGrid(d) && InGrid(c, |d|)
  {
    d[c.i][c.j]
  }

  /** d[c] = x */
  function Set(d: Grid, c: Cell, x: real): (r: Grid)
    requires IsGrid(d) && InGrid(c, |d|)
    ensures IsGrid(r) && |r| == |d|
    ensures At(r, c) == x
    ensures forall e :: InGrid(e, |d|) && e != c ==> At(r, e) == At(d, e)
  {
    d[c.i := d[c.i][c.j := x]]
  }

  /** np.zeros((n, n)) */
  function Zeros(n: nat): (r: Grid)
    ensures IsGrid(r) && |r| == n
    ensures forall c :: InGrid(c, n) ==> At(r, c) == 0.0
  {
    seq(n, _ => seq(n, _ => 0.0))
  }

  /** Two grids of the same side that agree at every position are equal. */
  lemma GridExt(a: Grid, b: Grid)
    requires IsGrid(a) && IsGrid(b) && |a| == |b|
    requires forall c :: InGrid(c, |a|) ==> At(a, c) == At(b, c)
    ensures a == b
  {
    forall i | 0 <= i < |a|
      ensures a[i] == b[i]
    {
      forall j | 0 <= j < |a|
        ensures a[i][j] == b[i][j]
      {
        assert At(a, Cell(i, j)) == At(b, Cell(i, j));
      }
    }
  }

  /** Python's range(start, stop, step) for a positive step. */
  function Range(start: int, stop: int, step: int): (r: seq<int>)
    requires step > 0
    ensures forall k :: 0 <= k < |r| ==> start <= r[k] < stop
    ensures forall a, b :: 0 <= a < b < |r| ==> r[a] < r[b]
    decreases stop - start
  {
    if start < stop then [start] + Range(start + step, stop, step) else []
  }

  /** range(start, stop, step) holds exactly the numbers of [start, stop)
      congruent to start modulo step. */
  lemma {:induction false} RangeMembers(start: int, stop: int, step: int)
    requires step > 0
    ensures forall x :: x in Range(start, stop, step) <==> start <= x < stop && x % step == start % step
    decreases stop - start
  {
    if start < stop {
      var rest := Range(start + step, stop, step);
      assert Range(start, stop, step) == [start] + rest;
      RangeMembers(start + step, stop, step);
      ModShift(start, 1, step);
      forall x | start < x < stop && x % step == start % step
        ensures x in rest
      {
        SameResidue(x, start, step);
        MultipleBounds(x - start, step);
      }
    }
  }

  predicate Distinct<T(==)>(s: seq<T>)
  {
    forall a, b :: 0 <= a < b < |s| ==> s[a] != s[b]
  }

  /** The positions visited by `for i in xs: for j in ys`, in that order. */
  function Cells(xs: seq<int>, ys: seq<int>): (r: seq<Cell>)
    ensures forall c :: c in r <==> c.i in xs && c.j in ys
    ensures |r| == |xs| * |ys|
  {
    if |xs| == 0 then []
    else
      var row := seq(|ys|, k requires 0 <= k < |ys| => Cell(xs[0], ys[k]));
      assert forall k :: 0 <= k < |ys| ==> row[k] == Cell(xs[0], ys[k]);
      assert forall c: Cell :: c.i == xs[0] && c.j in ys ==> c in row;
      row + Cells(xs[1..], ys)
  }

  /** Distinct loop ranges visit every position at most once. */
  lemma {:induction false} CellsDistinct(xs: seq<int>, ys: seq<int>)
    requires Distinct(xs) && Distinct(ys)
    ensures Distinct(Cells(xs, ys))
    decreases |xs|
  {
    if |xs| > 0 {
      var row := seq(|ys|, k requires 0 <= k < |ys| => Cell(xs[0], ys[k]));
      var rest := Cells(xs[1..], ys);
      assert Cells(xs, ys) == row + rest;
      CellsDistinct(xs[1..], ys);
      assert xs[0] !in xs[1..];
      forall a, b | 0 <= a < b < |row + rest|
        ensures (row + rest)[a] != (row + rest)[b]
      {
        if b < |row| {
        } else if a < |row| {
          assert (row + rest)[b] in rest;
        } else {
          assert (row + rest)[a] == rest[a - |row|];
          assert (row + rest)[b] == rest[b - |row|];
        }
      }
    }
  }

  /** The visit order of the nested loop: the pair (xs[a], ys[b]) is visited
      a * |ys| + b-th, row by row. */
  lemma {:induction false} CellAt(xs: seq<int>, ys: seq<int>, a: int, b: int)
    requires 0 <= a < |xs| && 0 <= b < |ys|
    ensures a * |ys| + b < |Cells(xs, ys)| && Cells(xs, ys)[a * |ys| + b] == Cell(xs[a], ys[b])
    decreases a
  {
    var row := seq(|ys|, k requires 0 <= k < |ys| => Cell(xs[0], ys[k]));
    var rest := Cells(xs[1..], ys);
    assert Cells(xs, ys) == row + rest;
    RowMajorBound(a, b, |xs|, |ys|);
    hide Cells;
    if a == 0 {
      assert (row + rest)[b] == row[b];
    } else {
      CellAt(xs[1..], ys, a - 1, b);
      var k' := (a - 1) * |ys| + b;
      assert a * |ys| + b == k' + |row| by {
        assert a * |ys| == (a - 1) * |ys| + |ys|;
      }
      assert (row + rest)[k' + |row|] == rest[k'];
      assert xs[a] == xs[1..][a - 1];
    }
  }

  lemma RangeDistinct(start: int, stop: int, step: int)
    requires step > 0
    ensures Distinct(Range(start, stop, step))
  {
  }
}
