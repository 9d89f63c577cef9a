/** The diamond-square synthesiser: one subdivision step (a diamond pass and
    two square passes) and the halving loop that drives it.

    Randomness: the t-th call random.uniform(-s, s) of a run is modelled as
    s * u(t), where u is a supplied stream of unit draws (Python computes
    uniform(a, b) as a + (b - a) * random(), which for a = -s, b = s is
    s * (2 * random() - 1)). */
module Synthesis {
  import opened Arith
  import opened Grid
  import opened Boundary
  import opened Pass

  /** Diamond targets: for i in range(v, n, w): for j in range(v, n, w). */
  function DiamondCells(n: int, w: int): seq<Cell>
    requires w >= 1
  {
    Cells(Range(w / 2, n, w), Range(w / 2, n, w))
  }

  /** Row square targets: for i in range(v, n, w): for j in range(0, n, w). */
  function RowCells(n: int, w: int): seq<Cell>
    requires w >= 1
  {
    Cells(Range(w / 2, n, w), Range(0, n, w))
  }

  /** Column square targets: for i in range(0, n, w): for j in range(v, n, w). */
  function ColCells(n: int, w: int): seq<Cell>
    requires w >= 1
  {
    Cells(Range(0, n, w), Range(w / 2, n, w))
  }

  /** The t-th call random.uniform(-s, s) of a run. */
  function Draw(s: real, u: nat -> real, t: nat): real
  {
    s * u(t)
  }

  /** The perturbations of len consecutive draws starting at draw t0. */
  function Perturb(s: real, u: nat -> real, t0: nat, len: nat): (p: seq<real>)
    ensures |p| == len
    ensures forall t :: 0 <= t < len ==> p[t] == Draw(s, u, t0 + t)
  {
    seq(len, t requires 0 <= t < len => Draw(s, u, t0 + t))
  }

  /** How many draws one step at width w consumes. */
  function StepDraws(n: int, w: int): nat
    requires w >= 1
  {
    |DiamondCells(n, w)| + |RowCells(n, w)| + |ColCells(n, w)|
  }

  /** Every loop target lies on the grid and every rule call is defined:
      a diamond centre always has its (-v, -v) neighbour in range, and
      `periodic` only needs n >= 2. */
  lemma TargetsValid(policy: Policy, n: int, w: int)
    requires n >= 2 && w >= 1
    ensures ValidTargets(policy, n, w / 2, DiamondOffsets, DiamondCells(n, w))
    ensures ValidTargets(Periodic, n, w / 2, SquareOffsets, RowCells(n, w))
    ensures ValidTargets(Periodic, n, w / 2, SquareOffsets, ColCells(n, w))
  {
    var v := w / 2;
    var dc := DiamondCells(n, w);
    var vs := Range(v, n, w);
    forall t | 0 <= t < |dc|
      ensures InGrid(dc[t], n) && Defined(policy, n, dc[t], v, DiamondOffsets)
    {
      assert dc[t] in dc;
      var k :| 0 <= k < |vs| && vs[k] == dc[t].i;
      var k' :| 0 <= k' < |vs| && vs[k'] == dc[t].j;
      assert InGrid(Neighbour(dc[t], v, DiamondOffsets[0]), n);
    }
    var rc := RowCells(n, w);
    forall t | 0 <= t < |rc|
      ensures InGrid(rc[t], n)
    {
      assert rc[t] in rc;
    }
    var cc := ColCells(n, w);
    forall t | 0 <= t < |cc|
      ensures InGrid(cc[t], n)
    {
      assert cc[t] in cc;
    }
  }

  /** The diamond pass: the caller's boundary rule on diagonal neighbours. */
  function DiamondPass(d: Grid, w: int, s: real, policy: Policy, u: nat -> real, t0: nat): (r: Grid)
    requires IsGrid(d) && |d| >= 2 && w >= 1
    ensures IsGrid(r) && |r| == |d|
  {
    var dc := DiamondCells(|d|, w);
    TargetsValid(policy, |d|, w);
    ApplyPass(policy, d, w / 2, DiamondOffsets, dc, Perturb(s, u, t0, |dc|))
  }

  /** The two square passes: always `periodic`, whatever rule the caller chose. */
  function SquarePasses(d: Grid, w: int, s: real, u: nat -> real, t0: nat): (r: Grid)
    requires IsGrid(d) && |d| >= 2 && w >= 1
    ensures IsGrid(r) && |r| == |d|
  {
    var rc := RowCells(|d|, w);
    var cc := ColCells(|d|, w);
    TargetsValid(Periodic, |d|, w);
    var d2 := ApplyPass(Periodic, d, w / 2, SquareOffsets, rc, Perturb(s, u, t0, |rc|));
    ApplyPass(Periodic, d2, w / 2, SquareOffsets, cc, Perturb(s, u, t0 + |rc|, |cc|))
  }

  /** single_diamond_square_step(d, w, s, avg), drawing from u starting at t0. */
  function Step(d: Grid, w: int, s: real, policy: Policy, u: nat -> real, t0: nat): (r: Grid)
    requires IsGrid(d) && |d| >= 2 && w >= 1
    ensures IsGrid(r) && |r| == |d|
  {
    var dc := DiamondCells(|d|, w);
    SquarePasses(DiamondPass(d, w, s, policy, u, t0), w, s, u, t0 + |dc|)
  }

  /** The loop of diamondSquareGenerator from width w and scale s on. */
  function Run(d: Grid, w: int, s: real, ds: real, policy: Policy, u: nat -> real, t0: nat): (r: Grid)
    requires IsGrid(d) && (w <= 1 || w < |d|)
    ensures IsGrid(r) && |r| == |d|
    decreases w
  {
    if w > 1 then Run(Step(d, w, s, policy, u, t0), w / 2, s * ds, ds, policy, u, t0 + StepDraws(|d|, w))
    else d
  }

  /** diamondSquareGenerator(n, ds, bdry): zeros, w = n - 1, s = 1.0. */
  function Generate(n: nat, ds: real, policy: Policy, u: nat -> real): (r: Grid)
    ensures IsGrid(r) && |r| == n
  {
    Run(Zeros(n), n - 1, 1.0, ds, policy, u, 0)
  }

  /** One turn of the loop: the remaining run from the stepped grid at half
      the width is the remaining run from before the step. */
  lemma RunStep(d: Grid, w: int, s: real, ds: real, policy: Policy, u: nat -> real, t0: nat, x: Grid)
    requires IsGrid(d) && 1 < w < |d|
    requires Run(d, w, s, ds, policy, u, t0) == x
    ensures Run(Step(d, w, s, policy, u, t0), w / 2, s * ds, ds, policy, u, t0 + StepDraws(|d|, w)) == x
  {
    hide Step;
  }

  /** The generator as the source writes it, a halving while-loop; it also
      reports how many subdivision steps it ran: one per entry of the
      schedule, so k steps when n = 2^k + 1. */
  method DiamondSquareGenerator(n: nat, ds: real, policy: Policy, u: nat -> real) returns (d: Grid, steps: nat)
    ensures d == Generate(n, ds, policy, u)
    ensures steps == |Schedule(n - 1, 1.0, ds)|
    ensures forall k: nat :: n == Pow2(k) + 1 ==> steps == k
  {
    hide Step;
    d := Zeros(n);
    var w, s := n - 1, 1.0;
    var t: nat := 0;
    steps := 0;
    while w > 1
      invariant IsGrid(d) && |d| == n && (w <= 1 || w < n)
      invariant Run(d, w, s, ds, policy, u, t) == Generate(n, ds, policy, u)
      invariant steps + |Schedule(w, s, ds)| == |Schedule(n - 1, 1.0, ds)|
      decreases w
    {
      RunStep(d, w, s, ds, policy, u, t, Generate(n, ds, policy, u));
      d := Step(d, w, s, policy, u, t);
      t := t + StepDraws(n, w);
      w := w / 2;
      s := s * ds;
      steps := steps + 1;
    }
    forall k: nat | n == Pow2(k) + 1
      ensures steps == k
    {
      ScheduleWidths(k, 1.0, ds);
    }
  }

  // ---------------------------------------------------------------------
  // The step schedule

  datatype StepParams = StepParams(w: int, s: real)

  /** The (width, scale) pairs the loop visits from (w, s). */
  function Schedule(w: int, s: real, ds: real): (sc: seq<StepParams>)
    decreases w
  {
    if w > 1 then [StepParams(w, s)] + Schedule(w / 2, s * ds, ds) else []
  }

  /** Every scheduled width is above 1 and at most the starting width. */
  lemma {:induction false} ScheduleBounded(w: int, s: real, ds: real)
    ensures forall m: nat :: m < |Schedule(w, s, ds)| ==> 1 < Schedule(w, s, ds)[m].w <= w
    decreases w
  {
    if w > 1 {
      ScheduleBounded(w / 2, s * ds, ds);
      assert Schedule(w, s, ds) == [StepParams(w, s)] + Schedule(w / 2, s * ds, ds);
    }
  }

  /** Every width of the schedule is a valid step width on a grid of side n. */
  predicate Fits(sc: seq<StepParams>, n: int)
  {
    forall m: nat :: m < |sc| ==> 1 <= sc[m].w < n
  }

  /** Apply Step once per schedule entry, threading the draw counter. */
  function RunSchedule(d: Grid, sc: seq<StepParams>, policy: Policy, u: nat -> real, t0: nat): (r: Grid)
    requires IsGrid(d) && Fits(sc, |d|)
    ensures IsGrid(r) && |r| == |d|
    decreases |sc|
  {
    if |sc| == 0 then d
    else RunSchedule(Step(d, sc[0].w, sc[0].s, policy, u, t0), sc[1..], policy, u, t0 + StepDraws(|d|, sc[0].w))
  }

  /** For n - 1 = 2^k the loop runs exactly k steps, at widths 2^k, ..., 2. */
  lemma {:induction false} ScheduleWidths(k: nat, s: real, ds: real)
    ensures |Schedule(Pow2(k), s, ds)| == k
    ensures forall m: nat :: m < k ==> Schedule(Pow2(k), s, ds)[m].w == Pow2(k - m)
  {
    if k > 0 {
      ScheduleWidths(k - 1, s * ds, ds);
      assert Pow2(k) / 2 == Pow2(k - 1);
      assert Schedule(Pow2(k), s, ds) == [StepParams(Pow2(k), s)] + Schedule(Pow2(k - 1), s * ds, ds);
    }
  }

  /** The m-th step runs at scale s * ds^m. */
  lemma {:induction false} ScheduleScale(w: int, s: real, ds: real, m: nat)
    requires m < |Schedule(w, s, ds)|
    ensures Schedule(w, s, ds)[m].s == s * Pow(ds, m)
    decreases m
  {
    var sc := Schedule(w, s, ds);
    assert sc == [StepParams(w, s)] + Schedule(w / 2, s * ds, ds);
    if m > 0 {
      ScheduleScale(w / 2, s * ds, ds, m - 1);
      assert sc[m] == Schedule(w / 2, s * ds, ds)[m - 1];
      ScaleShift(s, ds, m);
    }
  }

  lemma ScaleShift(s: real, ds: real, m: nat)
    requires m > 0
    ensures (s * ds) * Pow(ds, m - 1) == s * Pow(ds, m)
  {
    assert Pow(ds, m) == Pow(ds, m - 1) * ds;
  }

  lemma RunUnfold(d: Grid, w: int, s: real, ds: real, policy: Policy, u: nat -> real, t0: nat)
    requires IsGrid(d) && 1 < w < |d|
    ensures Run(d, w, s, ds, policy, u, t0)
         == Run(Step(d, w, s, policy, u, t0), w / 2, s * ds, ds, policy, u, t0 + StepDraws(|d|, w))
  {
    hide Step;
  }

  lemma RunScheduleUnfold(d: Grid, sc: seq<StepParams>, policy: Policy, u: nat -> real, t0: nat)
    requires IsGrid(d) && Fits(sc, |d|) && |sc| > 0
    ensures RunSchedule(d, sc, policy, u, t0)
         == RunSchedule(Step(d, sc[0].w, sc[0].s, policy, u, t0), sc[1..], policy, u, t0 + StepDraws(|d|, sc[0].w))
  {
    hide Step;
  }

  /** The loop is exactly the sequence of steps of its schedule. */
  lemma {:induction false} RunFollowsSchedule(d: Grid, w: int, s: real, ds: real, policy: Policy, u: nat -> real, t0: nat)
    requires IsGrid(d) && (w <= 1 || w < |d|)
    ensures Fits(Schedule(w, s, ds), |d|)
    ensures Run(d, w, s, ds, policy, u, t0) == RunSchedule(d, Schedule(w, s, ds), policy, u, t0)
    decreases w
  {
    hide Step;
    ScheduleBounded(w, s, ds);
    if w > 1 {
      var d1 := Step(d, w, s, policy, u, t0);
      var t1 := t0 + StepDraws(|d|, w);
      RunFollowsSchedule(d1, w / 2, s * ds, ds, policy, u, t1);
      var sc := Schedule(w, s, ds);
      assert sc[0] == StepParams(w, s);
      assert sc[1..] == Schedule(w / 2, s * ds, ds);
      RunUnfold(d, w, s, ds, policy, u, t0);
      RunScheduleUnfold(d, sc, policy, u, t0);
      calc {
        Run(d, w, s, ds, policy, u, t0);
        Run(d1, w / 2, s * ds, ds, policy, u, t1);
        RunSchedule(d1, sc[1..], policy, u, t1);
        RunSchedule(d, sc, policy, u, t0);
      }
    } else {
      assert Schedule(w, s, ds) == [];
      assert Run(d, w, s, ds, policy, u, t0) == d;
    }
  }

  /** For a side of 2^k + 1 the generator is exactly k steps, the m-th at
      width 2^(k-m) and scale ds^m. */
  lemma GenerateIsKSteps(k: nat, ds: real, policy: Policy, u: nat -> real)
    ensures var sc := Schedule(Pow2(k), 1.0, ds);
            && Fits(sc, Pow2(k) + 1)
            && Generate(Pow2(k) + 1, ds, policy, u) == RunSchedule(Zeros(Pow2(k) + 1), sc, policy, u, 0)
            && |sc| == k
            && forall m: nat :: m < k ==> sc[m] == StepParams(Pow2(k - m), Pow(ds, m))
  {
    hide Step;
    RunFollowsSchedule(Zeros(Pow2(k) + 1), Pow2(k), 1.0, ds, policy, u, 0);
    ScheduleWidths(k, 1.0, ds);
    forall m: nat | m < k
      ensures Schedule(Pow2(k), 1.0, ds)[m] == StepParams(Pow2(k - m), Pow(ds, m))
    {
      ScheduleScale(Pow2(k), 1.0, ds, m);
    }
  }
}
