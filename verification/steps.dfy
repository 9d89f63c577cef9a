/** What one subdivision step does to the grid, read as a simultaneous update,
    and what the whole run leaves alone. */
module Steps {
  import opened Arith
  import opened Grid
  import opened Boundary
  import opened Pass
  import opened Synthesis
  import opened Layout

  /** The square passes in the other order: columns, then rows (each with the
      draws it takes in the source order). */
  function ColumnsThenRows(d: Grid, w: int, s: real, u: nat -> real, t0: nat): (r: Grid)
    requires IsGrid(d) && |d| >= 2 && w >= 1
    ensures IsGrid(r) && |r| == |d|
  {
    var rc := RowCells(|d|, w);
    var cc := ColCells(|d|, w);
    TargetsValid(Periodic, |d|, w);
    var d2 := ApplyPass(Periodic, d, w / 2, SquareOffsets, cc, Perturb(s, u, t0 + |rc|, |cc|));
    ApplyPass(Periodic, d2, w / 2, SquareOffsets, rc, Perturb(s, u, t0, |rc|))
  }

  /** The row and column square passes commute. */
  lemma SquarePassesCommute(d: Grid, w: int, s: real, u: nat -> real, t0: nat)
    requires IsGrid(d) && Aligned(|d|, w)
    ensures SquarePasses(d, w, s, u, t0) == ColumnsThenRows(d, w, s, u, t0)
  {
    hide ApplyPass, Cells, Range, FixedAverage, PeriodicAverage, FixedLoop, PeriodicLoop, Reads, InRangeNeighbours, ReadsAvoid;
    var n, v := |d|, w / 2;
    var rc, cc := RowCells(n, w), ColCells(n, w);
    TargetsValid(Periodic, n, w);
    TargetsDisjoint(n, w);
    SquaresAvoidSquares(n, w);
    PassesCommute(Periodic, SquareOffsets, rc, Perturb(s, u, t0, |rc|),
                  Periodic, SquareOffsets, cc, Perturb(s, u, t0 + |rc|, |cc|), d, v);
  }

  /** The diamond pass as the ApplyPass call it is, with the facts it needs
      about its targets. */
  lemma DiamondPassParts(d: Grid, w: int, s: real, policy: Policy, u: nat -> real, t0: nat)
    requires IsGrid(d) && Aligned(|d|, w)
    ensures var n, v := |d|, w / 2;
            var dc := DiamondCells(n, w);
            var pd := Perturb(s, u, t0, |dc|);
            && ValidTargets(policy, n, v, DiamondOffsets, dc)
            && var r := DiamondPass(d, w, s, policy, u, t0);
               && (forall t :: 0 <= t < |dc| ==> At(r, dc[t]) == Avg(policy, d, dc[t], v, DiamondOffsets) + pd[t])
               && (forall c :: InGrid(c, n) && c !in dc ==> At(r, c) == At(d, c))
  {
    hide ApplyPass, Cells, Range, Draw, FixedAverage, PeriodicAverage, FixedLoop, PeriodicLoop, Reads, InRangeNeighbours, ReadsAvoid;
    var n, v := |d|, w / 2;
    var dc := DiamondCells(n, w);
    TargetsValid(policy, n, w);
    TargetsDisjoint(n, w);
    DiamondAvoidsItself(policy, n, w);
    PassIsSimultaneous(policy, d, v, DiamondOffsets, dc, Perturb(s, u, t0, |dc|));
  }

  /** The diamond pass sets each of its targets to the rule's average over the
      grid as it was before the pass, plus that target's draw, and changes
      nothing else. */
  lemma DiamondPassEffect(d: Grid, w: int, s: real, policy: Policy, u: nat -> real, t0: nat)
    requires IsGrid(d) && Aligned(|d|, w)
    ensures var dc, r := DiamondCells(|d|, w), DiamondPass(d, w, s, policy, u, t0);
            && (forall t :: 0 <= t < |dc| ==> (InGrid(dc[t], |d|) &&
                  Average(policy, d, dc[t], w / 2, DiamondOffsets) == Success(At(r, dc[t]) - Draw(s, u, t0 + t))))
            && (forall c :: InGrid(c, |d|) && c !in dc ==> At(r, c) == At(d, c))
  {
    hide ApplyPass, Cells, Range, Draw, DiamondPass, Average, Avg, Defined;
    var n, v := |d|, w / 2;
    var dc := DiamondCells(n, w);
    var pd := Perturb(s, u, t0, |dc|);
    var r := DiamondPass(d, w, s, policy, u, t0);
    DiamondPassParts(d, w, s, policy, u, t0);
    forall t | 0 <= t < |dc|
      ensures Average(policy, d, dc[t], v, DiamondOffsets) == Success(At(r, dc[t]) - Draw(s, u, t0 + t))
    {
      AverageOfShifted(policy, d, dc[t], v, DiamondOffsets, At(r, dc[t]), pd[t]);
    }
  }

  /** The two square passes as the two ApplyPass calls they are, with the
      facts both passes need about their targets. */
  lemma SquarePassesParts(d: Grid, w: int, s: real, u: nat -> real, t0: nat)
    requires IsGrid(d) && Aligned(|d|, w)
    ensures var n, v := |d|, w / 2;
            var rc, cc := RowCells(n, w), ColCells(n, w);
            var pr, pc := Perturb(s, u, t0, |rc|), Perturb(s, u, t0 + |rc|, |cc|);
            && ValidTargets(Periodic, n, v, SquareOffsets, rc) && ValidTargets(Periodic, n, v, SquareOffsets, cc)
            && var r := SquarePasses(d, w, s, u, t0);
               && (forall t :: 0 <= t < |rc| ==> At(r, rc[t]) == Avg(Periodic, d, rc[t], v, SquareOffsets) + pr[t])
               && (forall t :: 0 <= t < |cc| ==> At(r, cc[t]) == Avg(Periodic, d, cc[t], v, SquareOffsets) + pc[t])
               && (forall c :: InGrid(c, n) && c !in rc && c !in cc ==> At(r, c) == At(d, c))
  {
    hide ApplyPass, Cells, Range, Draw, FixedAverage, PeriodicAverage, FixedLoop, PeriodicLoop, Reads, InRangeNeighbours, ReadsAvoid;
    var n, v := |d|, w / 2;
    var rc, cc := RowCells(n, w), ColCells(n, w);
    var pr, pc := Perturb(s, u, t0, |rc|), Perturb(s, u, t0 + |rc|, |cc|);
    TargetsValid(Periodic, n, w);
    TargetsDisjoint(n, w);
    SquaresAvoidSquares(n, w);
    TwoPasses(Periodic, SquareOffsets, rc, pr, Periodic, SquareOffsets, cc, pc, d, v);
  }

  /** The two square passes set each of their targets to the periodic average
      over the grid as it was before either pass, plus that target's draw,
      and change nothing else. */
  lemma SquarePassesEffect(d: Grid, w: int, s: real, u: nat -> real, t0: nat)
    requires IsGrid(d) && Aligned(|d|, w)
    ensures var rc, cc, r := RowCells(|d|, w), ColCells(|d|, w), SquarePasses(d, w, s, u, t0);
            && (forall t :: 0 <= t < |rc| ==> (InGrid(rc[t], |d|) &&
                  Average(Periodic, d, rc[t], w / 2, SquareOffsets) == Success(At(r, rc[t]) - Draw(s, u, t0 + t))))
            && (forall t :: 0 <= t < |cc| ==> (InGrid(cc[t], |d|) &&
                  Average(Periodic, d, cc[t], w / 2, SquareOffsets) == Success(At(r, cc[t]) - Draw(s, u, t0 + |rc| + t))))
            && (forall c :: InGrid(c, |d|) && c !in rc && c !in cc ==> At(r, c) == At(d, c))
  {
    hide ApplyPass, Cells, Range, Draw, SquarePasses, Average, Avg, Defined;
    var n, v := |d|, w / 2;
    var rc, cc := RowCells(n, w), ColCells(n, w);
    var pr, pc := Perturb(s, u, t0, |rc|), Perturb(s, u, t0 + |rc|, |cc|);
    var r := SquarePasses(d, w, s, u, t0);
    SquarePassesParts(d, w, s, u, t0);
    forall t | 0 <= t < |rc|
      ensures Average(Periodic, d, rc[t], v, SquareOffsets) == Success(At(r, rc[t]) - Draw(s, u, t0 + t))
    {
      AverageOfShifted(Periodic, d, rc[t], v, SquareOffsets, At(r, rc[t]), pr[t]);
    }
    forall t | 0 <= t < |cc|
      ensures Average(Periodic, d, cc[t], v, SquareOffsets) == Success(At(r, cc[t]) - Draw(s, u, t0 + |rc| + t))
    {
      AverageOfShifted(Periodic, d, cc[t], v, SquareOffsets, At(r, cc[t]), pc[t]);
    }
  }

  /** One subdivision step as a simultaneous update. Each diamond centre gets
      the caller's rule averaged over the grid before the step; each square
      target gets the `periodic` average over the grid after the diamond pass,
      whatever rule the caller chose; each adds its own draw, in the order
      diamond, row, column; every other position keeps its height. */
  lemma StepEffect(d: Grid, w: int, s: real, policy: Policy, u: nat -> real, t0: nat)
    requires IsGrid(d) && Aligned(|d|, w)
    ensures var n, v := |d|, w / 2;
            var dc, rc, cc := DiamondCells(n, w), RowCells(n, w), ColCells(n, w);
            var d1, r := DiamondPass(d, w, s, policy, u, t0), Step(d, w, s, policy, u, t0);
            && (forall t :: 0 <= t < |dc| ==> (InGrid(dc[t], n) &&
                  Average(policy, d, dc[t], v, DiamondOffsets) == Success(At(r, dc[t]) - Draw(s, u, t0 + t))))
            && (forall t :: 0 <= t < |rc| ==> (InGrid(rc[t], n) &&
                  Average(Periodic, d1, rc[t], v, SquareOffsets) == Success(At(r, rc[t]) - Draw(s, u, t0 + |dc| + t))))
            && (forall t :: 0 <= t < |cc| ==> (InGrid(cc[t], n) &&
                  Average(Periodic, d1, cc[t], v, SquareOffsets) == Success(At(r, cc[t]) - Draw(s, u, t0 + |dc| + |rc| + t))))
            && (forall c :: InGrid(c, n) && c !in dc && c !in rc && c !in cc ==> At(r, c) == At(d, c))
  {
    hide ApplyPass, Cells, Range, Draw, PeriodicAverage, FixedAverage, DiamondPass, SquarePasses;
    var n := |d|;
    var dc := DiamondCells(n, w);
    var d1 := DiamondPass(d, w, s, policy, u, t0);
    var r := Step(d, w, s, policy, u, t0);
    assert r == SquarePasses(d1, w, s, u, t0 + |dc|);
    DiamondPassEffect(d, w, s, policy, u, t0);
    SquarePassesEffect(d1, w, s, u, t0 + |dc|);
    TargetsDisjoint(n, w);
    forall t | 0 <= t < |dc|
      ensures At(r, dc[t]) == At(d1, dc[t])
    {
      assert dc[t] in dc;
    }
  }

  /** A draw of random.uniform(-s, s) is at most |s| away from 0. */
  lemma DrawBound(s: real, u: nat -> real, t: nat)
    requires -1.0 <= u(t) <= 1.0
    ensures Abs(Draw(s, u, t)) <= Abs(s)
  {
    ScaleBound(s, u(t));
  }

  /** A value that is its average plus a perturbation within |s| is within |s| of that average. */
  lemma WithinScaleOfShift(a: Result<real>, x: real, p: real, s: real)
    requires a == Success(x - p) && Abs(p) <= Abs(s)
    ensures a.Success? && Abs(x - a.value) <= Abs(s)
  {
  }

  /** With unit draws in [-1, 1], every position a step writes ends up within
      |s| of the average its pass computed for it. */
  lemma StepWithinScale(d: Grid, w: int, s: real, policy: Policy, u: nat -> real, t0: nat)
    requires IsGrid(d) && Aligned(|d|, w)
    requires forall t: nat :: -1.0 <= u(t) <= 1.0
    ensures var n, v := |d|, w / 2;
            var dc, rc, cc := DiamondCells(n, w), RowCells(n, w), ColCells(n, w);
            var d1, r := DiamondPass(d, w, s, policy, u, t0), Step(d, w, s, policy, u, t0);
            && (forall t :: 0 <= t < |dc| ==> (InGrid(dc[t], n) &&
                  var a := Average(policy, d, dc[t], v, DiamondOffsets); a.Success? && Abs(At(r, dc[t]) - a.value) <= Abs(s)))
            && (forall t :: 0 <= t < |rc| ==> (InGrid(rc[t], n) &&
                  var a := Average(Periodic, d1, rc[t], v, SquareOffsets); a.Success? && Abs(At(r, rc[t]) - a.value) <= Abs(s)))
            && (forall t :: 0 <= t < |cc| ==> (InGrid(cc[t], n) &&
                  var a := Average(Periodic, d1, cc[t], v, SquareOffsets); a.Success? && Abs(At(r, cc[t]) - a.value) <= Abs(s)))
  {
    hide ApplyPass, Cells, Range, Draw, DiamondPass, SquarePasses, Step, Average, Avg, Defined, Abs;
    var n, v := |d|, w / 2;
    var dc, rc, cc := DiamondCells(n, w), RowCells(n, w), ColCells(n, w);
    var d1, r := DiamondPass(d, w, s, policy, u, t0), Step(d, w, s, policy, u, t0);
    StepEffect(d, w, s, policy, u, t0);
    forall t | 0 <= t < |dc|
      ensures var a := Average(policy, d, dc[t], v, DiamondOffsets); a.Success? && Abs(At(r, dc[t]) - a.value) <= Abs(s)
    {
      DrawBound(s, u, t0 + t);
      WithinScaleOfShift(Average(policy, d, dc[t], v, DiamondOffsets), At(r, dc[t]), Draw(s, u, t0 + t), s);
    }
    forall t | 0 <= t < |rc|
      ensures var a := Average(Periodic, d1, rc[t], v, SquareOffsets); a.Success? && Abs(At(r, rc[t]) - a.value) <= Abs(s)
    {
      DrawBound(s, u, t0 + |dc| + t);
      WithinScaleOfShift(Average(Periodic, d1, rc[t], v, SquareOffsets), At(r, rc[t]), Draw(s, u, t0 + |dc| + t), s);
    }
    forall t | 0 <= t < |cc|
      ensures var a := Average(Periodic, d1, cc[t], v, SquareOffsets); a.Success? && Abs(At(r, cc[t]) - a.value) <= Abs(s)
    {
      DrawBound(s, u, t0 + |dc| + |rc| + t);
      WithinScaleOfShift(Average(Periodic, d1, cc[t], v, SquareOffsets), At(r, cc[t]), Draw(s, u, t0 + |dc| + |rc| + t), s);
    }
  }

  /** At any width, a step changes only the targets of its three passes. */
  lemma StepFrame(d: Grid, w: int, s: real, policy: Policy, u: nat -> real, t0: nat)
    requires IsGrid(d) && |d| >= 2 && w >= 1
    ensures var n, r := |d|, Step(d, w, s, policy, u, t0);
            forall c :: InGrid(c, n) && c !in DiamondCells(n, w) && c !in RowCells(n, w) && c !in ColCells(n, w)
                        ==> At(r, c) == At(d, c)
  {
    hide Cells, Range, Draw, Average, Avg, Defined;
    TargetsValid(policy, |d|, w);
  }

  /** A step at width w >= 2 never writes a position whose coordinates are
      both multiples of w. */
  lemma StepKeepsCoarse(d: Grid, w: int, s: real, policy: Policy, u: nat -> real, t0: nat, c: Cell)
    requires IsGrid(d) && |d| >= 2 && w >= 2
    requires InGrid(c, |d|) && c.i % w == 0 && c.j % w == 0
    ensures At(Step(d, w, s, policy, u, t0), c) == At(d, c)
  {
    hide Step, Cells, Range;
    StepFrame(d, w, s, policy, u, t0);
    DiamondTargets(|d|, w);
    RowTargets(|d|, w);
    ColTargets(|d|, w);
  }

  /** From width 2^j on, the run never writes a position whose coordinates
      are both multiples of 2^j. */
  lemma {:induction false} RunKeepsCoarse(d: Grid, j: nat, s: real, ds: real, policy: Policy, u: nat -> real, t0: nat, c: Cell)
    requires IsGrid(d) && Pow2(j) < |d|
    requires InGrid(c, |d|) && c.i % Pow2(j) == 0 && c.j % Pow2(j) == 0
    ensures At(Run(d, Pow2(j), s, ds, policy, u, t0), c) == At(d, c)
    decreases j
  {
    hide Step;
    if j > 0 {
      var w := Pow2(j);
      var h := Pow2(j - 1);
      assert w == 2 * h && w / 2 == h;
      RunUnfold(d, w, s, ds, policy, u, t0);
      StepKeepsCoarse(d, w, s, policy, u, t0, c);
      HalfDivides(c.i, w, h);
      HalfDivides(c.j, w, h);
      RunKeepsCoarse(Step(d, w, s, policy, u, t0), j - 1, s * ds, ds, policy, u, t0 + StepDraws(|d|, w), c);
    }
  }

  /** For n = 2^k + 1 the four corners of the generated map are never
      written and stay 0. */
  lemma GenerateKeepsCorners(k: nat, ds: real, policy: Policy, u: nat -> real)
    ensures var n := Pow2(k) + 1;
            var g := Generate(n, ds, policy, u);
            && At(g, Cell(0, 0)) == 0.0 && At(g, Cell(0, n - 1)) == 0.0
            && At(g, Cell(n - 1, 0)) == 0.0 && At(g, Cell(n - 1, n - 1)) == 0.0
  {
    hide Step;
    var n := Pow2(k) + 1;
    DivModUnique(n - 1, Pow2(k), 1, 0);
    DivModUnique(0, Pow2(k), 0, 0);
    RunKeepsCoarse(Zeros(n), k, 1.0, ds, policy, u, 0, Cell(0, 0));
    RunKeepsCoarse(Zeros(n), k, 1.0, ds, policy, u, 0, Cell(0, n - 1));
    RunKeepsCoarse(Zeros(n), k, 1.0, ds, policy, u, 0, Cell(n - 1, 0));
    RunKeepsCoarse(Zeros(n), k, 1.0, ds, policy, u, 0, Cell(n - 1, n - 1));
  }

  /** The two copies (i, 0) and (i, n-1) of an edge position are both row
      square targets, and `periodic` gives them the same average; but each
      adds its own draw, so after the step they differ by exactly the
      difference of their draws. The generated map is not tileable. */
  lemma RowEdgeCopies(d: Grid, w: int, s: real, policy: Policy, u: nat -> real, t0: nat, ta: nat, tb: nat)
    requires IsGrid(d) && Aligned(|d|, w)
    requires ta < |RowCells(|d|, w)| && tb < |RowCells(|d|, w)|
    requires RowCells(|d|, w)[ta].i == RowCells(|d|, w)[tb].i
    requires RowCells(|d|, w)[ta].j == 0 && RowCells(|d|, w)[tb].j == |d| - 1
    ensures var rc, r, t1 := RowCells(|d|, w), Step(d, w, s, policy, u, t0), t0 + |DiamondCells(|d|, w)|;
            At(r, rc[ta]) - At(r, rc[tb]) == Draw(s, u, t1 + ta) - Draw(s, u, t1 + tb)
  {
    hide ApplyPass, Cells, Range, Draw, DiamondPass, SquarePasses, Step, PeriodicLoop;
    var rc := RowCells(|d|, w);
    var d1 := DiamondPass(d, w, s, policy, u, t0);
    StepEffect(d, w, s, policy, u, t0);
    PeriodicColumnWrap(d1, rc[ta].i, w / 2, SquareOffsets);
  }

  /** Likewise the copies (0, j) and (n-1, j), written by the column pass. */
  lemma ColEdgeCopies(d: Grid, w: int, s: real, policy: Policy, u: nat -> real, t0: nat, ta: nat, tb: nat)
    requires IsGrid(d) && Aligned(|d|, w)
    requires ta < |ColCells(|d|, w)| && tb < |ColCells(|d|, w)|
    requires ColCells(|d|, w)[ta].j == ColCells(|d|, w)[tb].j
    requires ColCells(|d|, w)[ta].i == 0 && ColCells(|d|, w)[tb].i == |d| - 1
    ensures var cc, r, t1 := ColCells(|d|, w), Step(d, w, s, policy, u, t0), t0 + |DiamondCells(|d|, w)| + |RowCells(|d|, w)|;
            At(r, cc[ta]) - At(r, cc[tb]) == Draw(s, u, t1 + ta) - Draw(s, u, t1 + tb)
  {
    hide ApplyPass, Cells, Range, Draw, DiamondPass, SquarePasses, Step, PeriodicLoop;
    var cc := ColCells(|d|, w);
    var d1 := DiamondPass(d, w, s, policy, u, t0);
    StepEffect(d, w, s, policy, u, t0);
    PeriodicRowWrap(d1, cc[ta].j, w / 2, SquareOffsets);
  }
}
