/** The two neighbour-averaging boundary rules of the synthesiser:
    `fixed` averages only the in-range neighbours, `periodic` wraps
    coordinates modulo n - 1 and always divides by four. */
module Boundary {
  import opened Arith
  import opened Grid

  /** One (p, q) pair of an offset list; the neighbour is (i + p*v, j + q*v). */
  datatype Offset = Offset(p: int, q: int)

  /** Diagonal neighbours, used by the diamond pass. */
  const DiamondOffsets: seq<Offset> := [Offset(-1, -1), Offset(-1, 1), Offset(1, 1), Offset(1, -1)]

  /** Axis neighbours, used by both square passes. */
  const SquareOffsets: seq<Offset> := [Offset(-1, 0), Offset(0, -1), Offset(1, 0), Offset(0, 1)]

  /** The boundary function handed to the generator. */
  datatype Policy = Periodic | Fixed

  /** Where Python would raise: `fixed` divides by a zero count, `periodic`
      reduces modulo d.shape[0] - 1 == 0 (or indexes an empty array). */
  datatype Error = BoundaryUnderflow | DegeneratePeriod

  datatype Result<T> = Success(value: T) | Failure(error: Error)

  function Neighbour(c: Cell, v: int, o: Offset): Cell
  {
    Cell(c.i + o.p * v, c.j + o.q * v)
  }

  /** (i % (n-1), j % (n-1)) */
  function Wrap(n: int, c: Cell): Cell
    requires n >= 2
  {
    Cell(c.i % (n - 1), c.j % (n - 1))
  }

  /** The loop of `fixed`: running sum and count of the in-range neighbours. */
  function FixedLoop(d: Grid, c: Cell, v: int, offs: seq<Offset>): (acc: (real, nat))
    requires IsGrid(d)
    ensures acc.1 <= |offs|
    ensures acc.1 > 0 <==> exists k :: 0 <= k < |offs| && InGrid(Neighbour(c, v, offs[k]), |d|)
  {
    if |offs| == 0 then (0.0, 0)
    else
      var rest := FixedLoop(d, c, v, offs[1..]);
      var nb := Neighbour(c, v, offs[0]);
      assert forall k :: 0 < k < |offs| ==> offs[k] == offs[1..][k - 1];
      if InGrid(nb, |d|) then (At(d, nb) + rest.0, rest.1 + 1) else rest
  }

  /** `fixed(d, i, j, v, offsets)` */
  function FixedAverage(d: Grid, c: Cell, v: int, offs: seq<Offset>): (r: Result<real>)
    requires IsGrid(d)
    ensures r.Failure? <==> forall k :: 0 <= k < |offs| ==> !InGrid(Neighbour(c, v, offs[k]), |d|)
    ensures r.Failure? ==> r.error == BoundaryUnderflow
  {
    var acc := FixedLoop(d, c, v, offs);
    if acc.1 == 0 then Failure(BoundaryUnderflow) else Success(acc.0 / acc.1 as real)
  }

  /** The loop of `periodic`: the sum of the wrapped neighbours. */
  function PeriodicLoop(d: Grid, c: Cell, v: int, offs: seq<Offset>): real
    requires IsGrid(d) && (|d| >= 2 || |offs| == 0)
  {
    if |offs| == 0 then 0.0
    else At(d, Wrap(|d|, Neighbour(c, v, offs[0]))) + PeriodicLoop(d, c, v, offs[1..])
  }

  /** `periodic(d, i, j, v, offsets)` */
  function PeriodicAverage(d: Grid, c: Cell, v: int, offs: seq<Offset>): (r: Result<real>)
    requires IsGrid(d)
    ensures r.Failure? <==> |d| < 2 && |offs| > 0
    ensures r.Failure? ==> r.error == DegeneratePeriod
  {
    if |d| < 2 && |offs| > 0 then Failure(DegeneratePeriod)
    else Success(PeriodicLoop(d, c, v, offs) / 4.0)
  }

  /** Whether the rule returns a value rather than raising. */
  predicate Defined(policy: Policy, n: int, c: Cell, v: int, offs: seq<Offset>)
  {
    match policy
    case Periodic => n >= 2 || |offs| == 0
    case Fixed => exists k :: 0 <= k < |offs| && InGrid(Neighbour(c, v, offs[k]), n)
  }

  /** avg(d, i, j, v, offsets) for the chosen rule. */
  function Average(policy: Policy, d: Grid, c: Cell, v: int, offs: seq<Offset>): (r: Result<real>)
    requires IsGrid(d)
    ensures r.Success? <==> Defined(policy, |d|, c, v, offs)
  {
    match policy
    case Periodic => PeriodicAverage(d, c, v, offs)
    case Fixed => FixedAverage(d, c, v, offs)
  }

  /** The value of a defined average. */
  function Avg(policy: Policy, d: Grid, c: Cell, v: int, offs: seq<Offset>): real
    requires IsGrid(d) && Defined(policy, |d|, c, v, offs)
  {
    Average(policy, d, c, v, offs).value
  }

  /** The in-range neighbours, in offset order. */
  function InRangeNeighbours(n: int, c: Cell, v: int, offs: seq<Offset>): (r: seq<Cell>)
    ensures forall e :: e in r <==> InGrid(e, n) && exists k :: 0 <= k < |offs| && e == Neighbour(c, v, offs[k])
  {
    if |offs| == 0 then []
    else
      var nb := Neighbour(c, v, offs[0]);
      var rest := InRangeNeighbours(n, c, v, offs[1..]);
      assert forall k :: 0 < k < |offs| ==> offs[k] == offs[1..][k - 1];
      if InGrid(nb, n) then [nb] + rest else rest
  }

  /** The positions a rule reads at centre c. */
  function Reads(policy: Policy, n: int, c: Cell, v: int, offs: seq<Offset>): (r: seq<Cell>)
    ensures forall e :: e in r ==> InGrid(e, n)
    ensures policy == Periodic ==> forall e :: e in r ==> 0 <= e.i < n - 1 && 0 <= e.j < n - 1
  {
    match policy
    case Periodic =>
      if n < 2 then []
      else seq(|offs|, k requires 0 <= k < |offs| => Wrap(n, Neighbour(c, v, offs[k])))
    case Fixed => InRangeNeighbours(n, c, v, offs)
  }

  /** Sum of the heights at a list of positions. */
  function SumAt(d: Grid, cs: seq<Cell>): real
    requires IsGrid(d) && forall e :: e in cs ==> InGrid(e, |d|)
  {
    if |cs| == 0 then 0.0 else At(d, cs[0]) + SumAt(d, cs[1..])
  }

  /** `fixed` returns the sum of the in-range neighbours divided by how many
      were in range, and raises exactly when none is. */
  lemma {:induction false} FixedIsInRangeMean(d: Grid, c: Cell, v: int, offs: seq<Offset>)
    requires IsGrid(d)
    ensures var nbs := InRangeNeighbours(|d|, c, v, offs);
            FixedAverage(d, c, v, offs) ==
              if |nbs| == 0 then Failure(BoundaryUnderflow)
              else Success(SumAt(d, nbs) / |nbs| as real)
  {
    FixedLoopIsSum(d, c, v, offs);
  }

  lemma {:induction false} FixedLoopIsSum(d: Grid, c: Cell, v: int, offs: seq<Offset>)
    requires IsGrid(d)
    ensures var nbs := InRangeNeighbours(|d|, c, v, offs);
            FixedLoop(d, c, v, offs) == (SumAt(d, nbs), |nbs|)
  {
    if |offs| > 0 {
      FixedLoopIsSum(d, c, v, offs[1..]);
    }
  }

  /** `periodic` reads only positions in [0, n-1) x [0, n-1) and always
      divides by four, however many offsets it is given. */
  lemma {:induction false} PeriodicIsQuarterSum(d: Grid, c: Cell, v: int, offs: seq<Offset>)
    requires IsGrid(d) && |d| >= 2
    ensures PeriodicAverage(d, c, v, offs) == Success(SumAt(d, Reads(Periodic, |d|, c, v, offs)) / 4.0)
  {
    PeriodicLoopIsSum(d, c, v, offs);
  }

  lemma {:induction false} PeriodicLoopIsSum(d: Grid, c: Cell, v: int, offs: seq<Offset>)
    requires IsGrid(d) && |d| >= 2
    ensures PeriodicLoop(d, c, v, offs) == SumAt(d, Reads(Periodic, |d|, c, v, offs))
  {
    if |offs| > 0 {
      PeriodicLoopIsSum(d, c, v, offs[1..]);
      var rs := Reads(Periodic, |d|, c, v, offs);
      assert rs[1..] == Reads(Periodic, |d|, c, v, offs[1..]);
    }
  }

  /** A rule depends only on the positions it reads: two grids of the same
      side that agree there give the same result. */
  lemma AverageFrame(policy: Policy, d1: Grid, d2: Grid, c: Cell, v: int, offs: seq<Offset>)
    requires IsGrid(d1) && IsGrid(d2) && |d1| == |d2|
    requires forall e :: e in Reads(policy, |d1|, c, v, offs) ==> At(d1, e) == At(d2, e)
    ensures Average(policy, d1, c, v, offs) == Average(policy, d2, c, v, offs)
  {
    match policy
    case Periodic =>
      if |d1| >= 2 {
        PeriodicIsQuarterSum(d1, c, v, offs);
        PeriodicIsQuarterSum(d2, c, v, offs);
        SumAtFrame(d1, d2, Reads(policy, |d1|, c, v, offs));
      }
    case Fixed =>
      FixedIsInRangeMean(d1, c, v, offs);
      FixedIsInRangeMean(d2, c, v, offs);
      SumAtFrame(d1, d2, InRangeNeighbours(|d1|, c, v, offs));
  }

  lemma {:induction false} SumAtFrame(d1: Grid, d2: Grid, cs: seq<Cell>)
    requires IsGrid(d1) && IsGrid(d2) && |d1| == |d2|
    requires forall e :: e in cs ==> InGrid(e, |d1|) && At(d1, e) == At(d2, e)
    ensures SumAt(d1, cs) == SumAt(d2, cs)
  {
    if |cs| > 0 {
      SumAtFrame(d1, d2, cs[1..]);
    }
  }

  /** When all four neighbours are in range, `fixed` is the plain four-way mean. */
  lemma FixedAllInRange(d: Grid, c: Cell, v: int, offs: seq<Offset>)
    requires IsGrid(d) && |offs| == 4
    requires forall k :: 0 <= k < 4 ==> InGrid(Neighbour(c, v, offs[k]), |d|)
    ensures FixedAverage(d, c, v, offs) ==
      Success((At(d, Neighbour(c, v, offs[0])) + At(d, Neighbour(c, v, offs[1]))
             + At(d, Neighbour(c, v, offs[2])) + At(d, Neighbour(c, v, offs[3]))) / 4.0)
  {
    var a0, a1, a2, a3 := At(d, Neighbour(c, v, offs[0])), At(d, Neighbour(c, v, offs[1])),
                          At(d, Neighbour(c, v, offs[2])), At(d, Neighbour(c, v, offs[3]));
    assert FixedLoop(d, c, v, offs[4..]) == (0.0, 0);
    assert FixedLoop(d, c, v, offs[3..]) == (a3, 1) by { assert offs[3..][1..] == offs[4..]; }
    assert FixedLoop(d, c, v, offs[2..]) == (a2 + a3, 2) by { assert offs[2..][1..] == offs[3..]; }
    assert FixedLoop(d, c, v, offs[1..]) == (a1 + (a2 + a3), 3) by { assert offs[1..][1..] == offs[2..]; }
    assert FixedLoop(d, c, v, offs) == (a0 + (a1 + (a2 + a3)), 4);
  }

  /** The sum `periodic` forms over four offsets. */
  lemma PeriodicLoopFour(d: Grid, c: Cell, v: int, offs: seq<Offset>)
    requires IsGrid(d) && |d| >= 2 && |offs| == 4
    ensures PeriodicLoop(d, c, v, offs) ==
      At(d, Wrap(|d|, Neighbour(c, v, offs[0]))) + At(d, Wrap(|d|, Neighbour(c, v, offs[1])))
      + At(d, Wrap(|d|, Neighbour(c, v, offs[2]))) + At(d, Wrap(|d|, Neighbour(c, v, offs[3])))
  {
    var n := |d|;
    var a0, a1, a2, a3 := At(d, Wrap(n, Neighbour(c, v, offs[0]))), At(d, Wrap(n, Neighbour(c, v, offs[1]))),
                          At(d, Wrap(n, Neighbour(c, v, offs[2]))), At(d, Wrap(n, Neighbour(c, v, offs[3])));
    assert PeriodicLoop(d, c, v, offs[4..]) == 0.0;
    assert PeriodicLoop(d, c, v, offs[3..]) == a3 by { assert offs[3..][1..] == offs[4..]; }
    assert PeriodicLoop(d, c, v, offs[2..]) == a2 + a3 by { assert offs[2..][1..] == offs[3..]; }
    assert PeriodicLoop(d, c, v, offs[1..]) == a1 + (a2 + a3) by { assert offs[1..][1..] == offs[2..]; }
  }

  /** At a diamond centre at least v away from every edge, all four diagonal
      neighbours are in range, so `fixed` never underflows there and divides by 4. */
  lemma FixedAtDiamondCentre(d: Grid, c: Cell, v: int)
    requires IsGrid(d) && v >= 0
    requires v <= c.i <= |d| - 1 - v && v <= c.j <= |d| - 1 - v
    ensures FixedAverage(d, c, v, DiamondOffsets) ==
      Success((d[c.i - v][c.j - v] + d[c.i - v][c.j + v] + d[c.i + v][c.j + v] + d[c.i + v][c.j - v]) / 4.0)
  {
    FixedAllInRange(d, c, v, DiamondOffsets);
  }

  /** Where no neighbour reaches the last row or column, wrapping changes
      nothing and the two rules agree. */
  lemma FixedAgreesWithPeriodicInside(d: Grid, c: Cell, v: int, offs: seq<Offset>)
    requires IsGrid(d) && |d| >= 2 && |offs| == 4
    requires forall k :: 0 <= k < 4 ==>
      var e := Neighbour(c, v, offs[k]); 0 <= e.i < |d| - 1 && 0 <= e.j < |d| - 1
    ensures FixedAverage(d, c, v, offs) == PeriodicAverage(d, c, v, offs)
  {
    FixedAllInRange(d, c, v, offs);
    forall k | 0 <= k < 4
      ensures Wrap(|d|, Neighbour(c, v, offs[k])) == Neighbour(c, v, offs[k])
    {
      var e := Neighbour(c, v, offs[k]);
      DivModUnique(e.i, |d| - 1, 0, e.i);
      DivModUnique(e.j, |d| - 1, 0, e.j);
    }
    PeriodicLoopFour(d, c, v, offs);
  }

  /** Row 0 and row n-1 wrap to the same row, so `periodic` gives the same
      value at (0, j) and (n-1, j). */
  lemma {:induction false} PeriodicRowWrap(d: Grid, j: int, v: int, offs: seq<Offset>)
    requires IsGrid(d) && |d| >= 2
    ensures PeriodicAverage(d, Cell(0, j), v, offs) == PeriodicAverage(d, Cell(|d| - 1, j), v, offs)
  {
    PeriodicLoopRowWrap(d, j, v, offs);
  }

  lemma {:induction false} PeriodicLoopRowWrap(d: Grid, j: int, v: int, offs: seq<Offset>)
    requires IsGrid(d) && |d| >= 2
    ensures PeriodicLoop(d, Cell(0, j), v, offs) == PeriodicLoop(d, Cell(|d| - 1, j), v, offs)
  {
    if |offs| > 0 {
      PeriodicLoopRowWrap(d, j, v, offs[1..]);
      ModShift(offs[0].p * v, 1, |d| - 1);
    }
  }

  /** Likewise column 0 and column n-1. */
  lemma {:induction false} PeriodicColumnWrap(d: Grid, i: int, v: int, offs: seq<Offset>)
    requires IsGrid(d) && |d| >= 2
    ensures PeriodicAverage(d, Cell(i, 0), v, offs) == PeriodicAverage(d, Cell(i, |d| - 1), v, offs)
  {
    PeriodicLoopColumnWrap(d, i, v, offs);
  }

  lemma {:induction false} PeriodicLoopColumnWrap(d: Grid, i: int, v: int, offs: seq<Offset>)
    requires IsGrid(d) && |d| >= 2
    ensures PeriodicLoop(d, Cell(i, 0), v, offs) == PeriodicLoop(d, Cell(i, |d| - 1), v, offs)
  {
    if |offs| > 0 {
      PeriodicLoopColumnWrap(d, i, v, offs[1..]);
      ModShift(offs[0].q * v, 1, |d| - 1);
    }
  }

  /** A value that is a defined average plus p is that average shifted by p. */
  lemma AverageOfShifted(policy: Policy, d: Grid, c: Cell, v: int, offs: seq<Offset>, x: real, p: real)
    requires IsGrid(d) && Defined(policy, |d|, c, v, offs)
    requires x == Avg(policy, d, c, v, offs) + p
    ensures Average(policy, d, c, v, offs) == Success(x - p)
  {
  }
}
