/** One averaging pass of the synthesiser: the Python double loop that sets
    d[i, j] = avg(d, i, j, v, offsets) + perturbation at each target position
    in turn, reading the grid as already updated by the earlier targets. */
module Pass {
  import opened Grid
  import opened Boundary

  /** Every target is on the grid and the rule is defined there. */
  predicate ValidTargets(policy: Policy, n: int, v: int, offs: seq<Offset>, cells: seq<Cell>)
  {
    forall t :: 0 <= t < |cells| ==> InGrid(cells[t], n) && Defined(policy, n, cells[t], v, offs)
  }

  /** No target is read while averaging any target of the same pass. */
  predicate ReadsAvoid(policy: Policy, n: int, v: int, offs: seq<Offset>, cells: seq<Cell>, others: seq<Cell>)
  {
    forall t, e :: 0 <= t < |cells| && e in Reads(policy, n, cells[t], v, offs) ==> e !in others
  }

  /** The sequential pass, target by target, with perturbation pert[t] for target t. */
  function ApplyPass(policy: Policy, d: Grid, v: int, offs: seq<Offset>, cells: seq<Cell>, pert: seq<real>): (r: Grid)
    requires IsGrid(d) && |pert| == |cells| && ValidTargets(policy, |d|, v, offs, cells)
    ensures IsGrid(r) && |r| == |d|
    ensures forall c :: InGrid(c, |d|) && c !in cells ==> At(r, c) == At(d, c)
    decreases |cells|
  {
    if |cells| == 0 then d
    else
      var c := cells[0];
      var d' := Set(d, c, Avg(policy, d, c, v, offs) + pert[0]);
      assert forall e :: e in cells[1..] ==> e in cells;
      ApplyPass(policy, d', v, offs, cells[1..], pert[1..])
  }

  /** When the targets are distinct and no target reads another, the
      sequential pass equals the simultaneous update computed from the grid
      as it was before the pass. */
  lemma {:induction false} PassIsSimultaneous(policy: Policy, d: Grid, v: int, offs: seq<Offset>, cells: seq<Cell>, pert: seq<real>)
    requires IsGrid(d) && |pert| == |cells| && ValidTargets(policy, |d|, v, offs, cells)
    requires Distinct(cells) && ReadsAvoid(policy, |d|, v, offs, cells, cells)
    ensures var r := ApplyPass(policy, d, v, offs, cells, pert);
            forall t :: 0 <= t < |cells| ==> At(r, cells[t]) == Avg(policy, d, cells[t], v, offs) + pert[t]
    decreases |cells|
  {
    if |cells| > 0 {
      var d' := Set(d, cells[0], Avg(policy, d, cells[0], v, offs) + pert[0]);
      TailHypotheses(policy, |d|, v, offs, cells);
      PassIsSimultaneous(policy, d', v, offs, cells[1..], pert[1..]);
      var r := ApplyPass(policy, d', v, offs, cells[1..], pert[1..]);
      PassUnfold(policy, d, v, offs, cells, pert);
      hide ApplyPass;
      forall t | 0 <= t < |cells|
        ensures At(r, cells[t]) == Avg(policy, d, cells[t], v, offs) + pert[t]
      {
        if t == 0 {
          assert At(r, cells[0]) == At(d', cells[0]);
        } else {
          TailTarget(policy, d, d', r, v, offs, cells, pert, t);
        }
      }
    }
  }

  /** The first iteration of the pass, then the rest. */
  lemma PassUnfold(policy: Policy, d: Grid, v: int, offs: seq<Offset>, cells: seq<Cell>, pert: seq<real>)
    requires IsGrid(d) && |pert| == |cells| && ValidTargets(policy, |d|, v, offs, cells) && |cells| > 0
    ensures var d' := Set(d, cells[0], Avg(policy, d, cells[0], v, offs) + pert[0]);
            ValidTargets(policy, |d|, v, offs, cells[1..]) &&
            ApplyPass(policy, d, v, offs, cells, pert) == ApplyPass(policy, d', v, offs, cells[1..], pert[1..])
  {
  }

  /** A later target is unaffected by the write to the first one. */
  lemma TailTarget(policy: Policy, d: Grid, d': Grid, r: Grid, v: int, offs: seq<Offset>, cells: seq<Cell>, pert: seq<real>, t: int)
    requires IsGrid(d) && |pert| == |cells| && ValidTargets(policy, |d|, v, offs, cells)
    requires 1 <= t < |cells|
    requires d' == Set(d, cells[0], Avg(policy, d, cells[0], v, offs) + pert[0])
    requires cells[0] !in Reads(policy, |d|, cells[t], v, offs)
    requires IsGrid(r) && |r| == |d|
    requires forall k :: 0 <= k < |cells| - 1 ==>
               At(r, cells[1..][k]) == Avg(policy, d', cells[1..][k], v, offs) + pert[1..][k]
    ensures At(r, cells[t]) == Avg(policy, d, cells[t], v, offs) + pert[t]
  {
    assert cells[t] == cells[1..][t - 1];
    assert pert[t] == pert[1..][t - 1];
    AverageFrame(policy, d', d, cells[t], v, offs);
  }

  lemma TailHypotheses(policy: Policy, n: int, v: int, offs: seq<Offset>, cells: seq<Cell>)
    requires |cells| > 0 && ValidTargets(policy, n, v, offs, cells)
    requires Distinct(cells) && ReadsAvoid(policy, n, v, offs, cells, cells)
    ensures ValidTargets(policy, n, v, offs, cells[1..])
    ensures Distinct(cells[1..]) && ReadsAvoid(policy, n, v, offs, cells[1..], cells[1..])
    ensures cells[0] !in cells[1..]
    ensures forall t :: 1 <= t < |cells| ==> cells[0] !in Reads(policy, n, cells[t], v, offs)
  {
    var rest := cells[1..];
    assert forall t :: 0 <= t < |rest| ==> rest[t] == cells[t + 1];
    assert forall e :: e in rest ==> e in cells;
    assert cells[0] in cells;
  }

  /** Two passes over disjoint targets, neither of which reads the other's
      targets, run one after the other: both act as if on the original grid. */
  lemma TwoPasses(p1: Policy, offs1: seq<Offset>, cells1: seq<Cell>, pert1: seq<real>,
                  p2: Policy, offs2: seq<Offset>, cells2: seq<Cell>, pert2: seq<real>,
                  d: Grid, v: int)
    requires IsGrid(d)
    requires |pert1| == |cells1| && ValidTargets(p1, |d|, v, offs1, cells1)
    requires |pert2| == |cells2| && ValidTargets(p2, |d|, v, offs2, cells2)
    requires Distinct(cells1) && ReadsAvoid(p1, |d|, v, offs1, cells1, cells1)
    requires Distinct(cells2) && ReadsAvoid(p2, |d|, v, offs2, cells2, cells2)
    requires forall c :: c in cells1 ==> c !in cells2
    requires ReadsAvoid(p2, |d|, v, offs2, cells2, cells1)
    ensures var r := ApplyPass(p2, ApplyPass(p1, d, v, offs1, cells1, pert1), v, offs2, cells2, pert2);
            && (forall t :: 0 <= t < |cells1| ==> At(r, cells1[t]) == Avg(p1, d, cells1[t], v, offs1) + pert1[t])
            && (forall t :: 0 <= t < |cells2| ==> At(r, cells2[t]) == Avg(p2, d, cells2[t], v, offs2) + pert2[t])
            && (forall c :: InGrid(c, |d|) && c !in cells1 && c !in cells2 ==> At(r, c) == At(d, c))
  {
    var a := ApplyPass(p1, d, v, offs1, cells1, pert1);
    var r := ApplyPass(p2, a, v, offs2, cells2, pert2);
    hide ApplyPass, Average, Defined, Reads;
    PassIsSimultaneous(p1, d, v, offs1, cells1, pert1);
    PassIsSimultaneous(p2, a, v, offs2, cells2, pert2);
    forall t | 0 <= t < |cells1|
      ensures At(r, cells1[t]) == Avg(p1, d, cells1[t], v, offs1) + pert1[t]
    {
      assert cells1[t] in cells1;
    }
    forall t | 0 <= t < |cells2|
      ensures At(r, cells2[t]) == Avg(p2, d, cells2[t], v, offs2) + pert2[t]
    {
      AverageFrame(p2, a, d, cells2[t], v, offs2);
    }
  }

  /** Such passes commute. */
  lemma PassesCommute(p1: Policy, offs1: seq<Offset>, cells1: seq<Cell>, pert1: seq<real>,
                      p2: Policy, offs2: seq<Offset>, cells2: seq<Cell>, pert2: seq<real>,
                      d: Grid, v: int)
    requires IsGrid(d)
    requires |pert1| == |cells1| && ValidTargets(p1, |d|, v, offs1, cells1)
    requires |pert2| == |cells2| && ValidTargets(p2, |d|, v, offs2, cells2)
    requires Distinct(cells1) && ReadsAvoid(p1, |d|, v, offs1, cells1, cells1)
    requires Distinct(cells2) && ReadsAvoid(p2, |d|, v, offs2, cells2, cells2)
    requires forall c :: c in cells1 ==> c !in cells2
    requires ReadsAvoid(p1, |d|, v, offs1, cells1, cells2) && ReadsAvoid(p2, |d|, v, offs2, cells2, cells1)
    ensures ApplyPass(p2, ApplyPass(p1, d, v, offs1, cells1, pert1), v, offs2, cells2, pert2)
         == ApplyPass(p1, ApplyPass(p2, d, v, offs2, cells2, pert2), v, offs1, cells1, pert1)
  {
    var left := ApplyPass(p2, ApplyPass(p1, d, v, offs1, cells1, pert1), v, offs2, cells2, pert2);
    var right := ApplyPass(p1, ApplyPass(p2, d, v, offs2, cells2, pert2), v, offs1, cells1, pert1);
    hide ApplyPass, Avg, Average, Defined, Reads;
    TwoPasses(p1, offs1, cells1, pert1, p2, offs2, cells2, pert2, d, v);
    TwoPasses(p2, offs2, cells2, pert2, p1, offs1, cells1, pert1, d, v);
    AgreeOnTargets(d, left, right, cells1, cells2);
  }

  /** Two grids that agree on two target lists and both equal d elsewhere are equal. */
  lemma AgreeOnTargets(d: Grid, left: Grid, right: Grid, cells1: seq<Cell>, cells2: seq<Cell>)
    requires IsGrid(d) && IsGrid(left) && IsGrid(right) && |left| == |d| && |right| == |d|
    requires forall t :: 0 <= t < |cells1| ==> InGrid(cells1[t], |d|) && At(left, cells1[t]) == At(right, cells1[t])
    requires forall t :: 0 <= t < |cells2| ==> InGrid(cells2[t], |d|) && At(left, cells2[t]) == At(right, cells2[t])
    requires forall c :: InGrid(c, |d|) && c !in cells1 && c !in cells2 ==> At(left, c) == At(d, c) && At(right, c) == At(d, c)
    ensures left == right
  {
    forall c | InGrid(c, |d|)
      ensures At(left, c) == At(right, c)
    {
      if c in cells1 {
        var t :| 0 <= t < |cells1| && cells1[t] == c;
      } else if c in cells2 {
        var t :| 0 <= t < |cells2| && cells2[t] == c;
      }
    }
    GridExt(left, right);
  }
}
