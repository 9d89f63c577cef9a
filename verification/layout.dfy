/** Which positions each pass of a subdivision step writes and reads.

    For a side n with (n - 1) a multiple of an even width w, and v = w / 2,
    every position falls in one of four residue classes modulo w:
      coarse  (0, 0)   set by earlier steps (or the initial zeros),
      diamond (v, v)   written by the diamond pass,
      row     (v, 0)   written by the row square pass,
      column  (0, v)   written by the column square pass. */
module Layout {
  import opened Arith
  import opened Grid
  import opened Boundary
  import opened Pass
  import opened Synthesis

  /** The widths the generator runs at when n = 2^k + 1: even, and (n - 1)
      is a multiple of them, so the classes above tile the grid. */
  predicate Aligned(n: int, w: int)
  {
    n >= 2 && w >= 2 && w % 2 == 0 && (n - 1) % w == 0
  }

  /** The residue class of a position. */
  function Residue(c: Cell, w: int): Cell
    requires w > 0
  {
    Cell(c.i % w, c.j % w)
  }

  /** Moving by v = w/2 in one coordinate swaps the residues 0 and v. */
  function Flip(r: int, w: int): int
    requires w > 0
  {
    (r + w / 2) % w
  }

  /** range(r, n, w) for 0 <= r < w holds exactly the numbers in [0, n)
      with residue r. */
  lemma RangeResidue(r: int, n: int, w: int)
    requires 0 <= r < w
    ensures forall x :: x in Range(r, n, w) <==> 0 <= x < n && x % w == r
  {
    RangeMembers(r, n, w);
    DivModUnique(r, w, 0, r);
    hide Range;
    forall x | 0 <= x < n && x % w == r
      ensures r <= x
    {
      ResidueAtMost(x, r, w);
    }
  }

  /** A non-negative x with residue r (0 <= r < w) is at least r. */
  lemma ResidueAtMost(x: int, r: int, w: int)
    requires 0 <= r < w && 0 <= x && x % w == r
    ensures r <= x
  {
    SameResidue(x, r, w);
    MultipleBounds(x - r, w);
  }

  /** The diamond pass targets exactly the on-grid positions of class (v, v). */
  lemma DiamondTargets(n: int, w: int)
    requires w >= 1
    ensures forall c :: c in DiamondCells(n, w) <==> InGrid(c, n) && Residue(c, w) == Cell(w / 2, w / 2)
  {
    RangeResidue(w / 2, n, w);
  }

  /** The row square pass targets exactly the on-grid positions of class (v, 0). */
  lemma RowTargets(n: int, w: int)
    requires w >= 1
    ensures forall c :: c in RowCells(n, w) <==> InGrid(c, n) && Residue(c, w) == Cell(w / 2, 0)
  {
    RangeResidue(w / 2, n, w);
    RangeResidue(0, n, w);
  }

  /** The column square pass targets exactly the on-grid positions of class (0, v). */
  lemma ColTargets(n: int, w: int)
    requires w >= 1
    ensures forall c :: c in ColCells(n, w) <==> InGrid(c, n) && Residue(c, w) == Cell(0, w / 2)
  {
    RangeResidue(w / 2, n, w);
    RangeResidue(0, n, w);
  }

  /** x + v and x - v have the residue of x shifted by v. */
  lemma HalfShift(x: int, w: int)
    requires w >= 2 && w % 2 == 0
    ensures (x + w / 2) % w == Flip(x % w, w)
    ensures (x - w / 2) % w == Flip(x % w, w)
  {
    var v, q, r := w / 2, x / w, x % w;
    assert x == q * w + r;
    assert x + v == (r + v) + q * w;
    ModShift(r + v, q, w);
    assert x - v == (r + v) + (q - 1) * w;
    ModShift(r + v, q - 1, w);
  }

  /** Flip swaps the residues 0 and v. */
  lemma FlipClasses(w: int)
    requires w >= 2 && w % 2 == 0
    ensures Flip(0, w) == w / 2 && Flip(w / 2, w) == 0
  {
    DivModUnique(w / 2, w, 0, w / 2);
    DivModUnique(w, w, 1, 0);
  }

  /** Moving x by p * v with p in {-1, 0, 1} flips its residue unless p is 0. */
  lemma OffsetResidue(x: int, p: int, w: int)
    requires w >= 2 && w % 2 == 0 && -1 <= p <= 1
    ensures (x + p * (w / 2)) % w == if p == 0 then x % w else Flip(x % w, w)
  {
    HalfShift(x, w);
    if p == 1 {
      assert x + p * (w / 2) == x + w / 2;
    } else if p == -1 {
      assert x + p * (w / 2) == x - w / 2;
    }
  }

  /** A neighbour at offset (p, q) with p, q in {-1, 0, 1} flips the residue of
      each coordinate whose offset is non-zero. */
  lemma NeighbourResidue(c: Cell, w: int, o: Offset)
    requires w >= 2 && w % 2 == 0
    requires -1 <= o.p <= 1 && -1 <= o.q <= 1
    ensures Residue(Neighbour(c, w / 2, o), w)
         == Cell(if o.p == 0 then c.i % w else Flip(c.i % w, w),
                 if o.q == 0 then c.j % w else Flip(c.j % w, w))
  {
    OffsetResidue(c.i, o.p, w);
    OffsetResidue(c.j, o.q, w);
  }

  /** Wrapping modulo n - 1 keeps the residue when n - 1 is a multiple of w. */
  lemma WrapResidue(n: int, w: int, c: Cell)
    requires n >= 2 && w > 0 && (n - 1) % w == 0
    ensures Residue(Wrap(n, c), w) == Residue(c, w)
  {
    ModOfMod(c.i, n - 1, w);
    ModOfMod(c.j, n - 1, w);
  }

  /** Whatever the rule, each position it reads has the residue class of one
      of the (unwrapped) neighbours. */
  lemma ReadResidue(policy: Policy, n: int, w: int, c: Cell, offs: seq<Offset>, e: Cell)
    requires Aligned(n, w) && e in Reads(policy, n, c, w / 2, offs)
    ensures exists k :: 0 <= k < |offs| && Residue(e, w) == Residue(Neighbour(c, w / 2, offs[k]), w)
  {
    var rs := Reads(policy, n, c, w / 2, offs);
    match policy
    case Periodic =>
      var k :| 0 <= k < |rs| && rs[k] == e;
      WrapResidue(n, w, Neighbour(c, w / 2, offs[k]));
    case Fixed =>
  }

  /** The diamond pass, under either rule, reads only coarse positions. */
  lemma DiamondReadsCoarse(policy: Policy, n: int, w: int, c: Cell, e: Cell)
    requires Aligned(n, w) && Residue(c, w) == Cell(w / 2, w / 2)
    requires e in Reads(policy, n, c, w / 2, DiamondOffsets)
    ensures Residue(e, w) == Cell(0, 0)
  {
    ReadResidue(policy, n, w, c, DiamondOffsets, e);
    var k :| 0 <= k < 4 && Residue(e, w) == Residue(Neighbour(c, w / 2, DiamondOffsets[k]), w);
    NeighbourResidue(c, w, DiamondOffsets[k]);
    FlipClasses(w);
  }

  /** The row square pass reads only coarse positions and diamond positions. */
  lemma RowReads(n: int, w: int, c: Cell, e: Cell)
    requires Aligned(n, w) && Residue(c, w) == Cell(w / 2, 0)
    requires e in Reads(Periodic, n, c, w / 2, SquareOffsets)
    ensures Residue(e, w) == Cell(0, 0) || Residue(e, w) == Cell(w / 2, w / 2)
  {
    ReadResidue(Periodic, n, w, c, SquareOffsets, e);
    var k :| 0 <= k < 4 && Residue(e, w) == Residue(Neighbour(c, w / 2, SquareOffsets[k]), w);
    NeighbourResidue(c, w, SquareOffsets[k]);
    FlipClasses(w);
  }

  /** The column square pass reads only coarse positions and diamond positions. */
  lemma ColReads(n: int, w: int, c: Cell, e: Cell)
    requires Aligned(n, w) && Residue(c, w) == Cell(0, w / 2)
    requires e in Reads(Periodic, n, c, w / 2, SquareOffsets)
    ensures Residue(e, w) == Cell(0, 0) || Residue(e, w) == Cell(w / 2, w / 2)
  {
    ReadResidue(Periodic, n, w, c, SquareOffsets, e);
    var k :| 0 <= k < 4 && Residue(e, w) == Residue(Neighbour(c, w / 2, SquareOffsets[k]), w);
    NeighbourResidue(c, w, SquareOffsets[k]);
    FlipClasses(w);
  }

  /** The diamond pass never reads one of its own targets. */
  lemma DiamondAvoidsItself(policy: Policy, n: int, w: int)
    requires Aligned(n, w)
    ensures ReadsAvoid(policy, n, w / 2, DiamondOffsets, DiamondCells(n, w), DiamondCells(n, w))
  {
    var dc := DiamondCells(n, w);
    DiamondTargets(n, w);
    forall t, e | 0 <= t < |dc| && e in Reads(policy, n, dc[t], w / 2, DiamondOffsets)
      ensures e !in dc
    {
      assert dc[t] in dc;
      DiamondReadsCoarse(policy, n, w, dc[t], e);
    }
  }

  /** Neither square pass reads a target of either square pass. */
  lemma SquaresAvoidSquares(n: int, w: int)
    requires Aligned(n, w)
    ensures var rc, cc := RowCells(n, w), ColCells(n, w);
            && ReadsAvoid(Periodic, n, w / 2, SquareOffsets, rc, rc)
            && ReadsAvoid(Periodic, n, w / 2, SquareOffsets, rc, cc)
            && ReadsAvoid(Periodic, n, w / 2, SquareOffsets, cc, cc)
            && ReadsAvoid(Periodic, n, w / 2, SquareOffsets, cc, rc)
  {
    var rc, cc := RowCells(n, w), ColCells(n, w);
    RowTargets(n, w);
    ColTargets(n, w);
    forall t, e | 0 <= t < |rc| && e in Reads(Periodic, n, rc[t], w / 2, SquareOffsets)
      ensures e !in rc && e !in cc
    {
      assert rc[t] in rc;
      RowReads(n, w, rc[t], e);
    }
    forall t, e | 0 <= t < |cc| && e in Reads(Periodic, n, cc[t], w / 2, SquareOffsets)
      ensures e !in rc && e !in cc
    {
      assert cc[t] in cc;
      ColReads(n, w, cc[t], e);
    }
  }

  /** The three target lists of a step are each free of repeats and pairwise disjoint. */
  lemma TargetsDisjoint(n: int, w: int)
    requires w >= 2 && w % 2 == 0
    ensures Distinct(DiamondCells(n, w)) && Distinct(RowCells(n, w)) && Distinct(ColCells(n, w))
    ensures forall c :: c in DiamondCells(n, w) ==> c !in RowCells(n, w) && c !in ColCells(n, w)
    ensures forall c :: c in RowCells(n, w) ==> c !in ColCells(n, w)
  {
    RangeDistinct(w / 2, n, w);
    RangeDistinct(0, n, w);
    CellsDistinct(Range(w / 2, n, w), Range(w / 2, n, w));
    CellsDistinct(Range(w / 2, n, w), Range(0, n, w));
    CellsDistinct(Range(0, n, w), Range(w / 2, n, w));
    DiamondTargets(n, w);
    RowTargets(n, w);
    ColTargets(n, w);
  }

  /** Every width the generator runs at for n = 2^k + 1 is aligned with n,
      so the step lemmas above apply to each entry of its schedule. */
  lemma ScheduleAligned(k: nat, ds: real)
    ensures forall m: nat :: m < |Schedule(Pow2(k), 1.0, ds)| ==> Aligned(Pow2(k) + 1, Schedule(Pow2(k), 1.0, ds)[m].w)
  {
    var sc := Schedule(Pow2(k), 1.0, ds);
    ScheduleWidths(k, 1.0, ds);
    forall m: nat | m < |sc|
      ensures Aligned(Pow2(k) + 1, sc[m].w)
    {
      assert sc[m].w == Pow2(k - m);
      var e := k - m - 1;
      assert Pow2(k - m) == 2 * Pow2(e);
      Pow2Add(m, k - m);
      DivModUnique(Pow2(k), Pow2(k - m), Pow2(m), 0);
      DivModUnique(Pow2(k - m), 2, Pow2(e), 0);
    }
  }
}
