/** Integer and real arithmetic facts used by the index reasoning of the
    diamond-square synthesiser and the mesh layout. Dafny's `%` is Euclidean,
    which agrees with Python's `%` for a positive divisor. */
module Arith {

  /** 2^k */
  function Pow2(k: nat): (r: nat)
    ensures r >= 1
  {
    if k == 0 then 1 else 2 * Pow2(k - 1)
  }

  /** 2^(a+b) = 2^a * 2^b */
  lemma {:induction false} Pow2Add(a: nat, b: nat)
    ensures Pow2(a + b) == Pow2(a) * Pow2(b)
    decreases a
  {
    if a > 0 {
      Pow2Add(a - 1, b);
      assert Pow2(a + b) == 2 * Pow2(a - 1 + b);
    }
  }

  /** b^m, built the way the generator builds its scale: one factor per step. */
  function Pow(b: real, m: nat): real
  {
    if m == 0 then 1.0 else Pow(b, m - 1) * b
  }

  /** Python's abs on a float. */
  function Abs(x: real): (r: real)
    ensures r >= 0.0
    ensures r == x || r == -x
  {
    if x < 0.0 then -x else x
  }

  /** a * m grows with a: a positive multiplier gives at least m. */
  lemma {:induction false} MulAtLeast(a: int, m: int)
    requires a >= 1 && m > 0
    ensures a * m >= m
    decreases a
  {
    if a > 1 {
      MulAtLeast(a - 1, m);
      assert a * m == (a - 1) * m + m;
    }
  }

  /** Euclidean division is unique. */
  lemma DivModUnique(x: int, m: int, q: int, r: int)
    requires m > 0 && 0 <= r < m && x == q * m + r
    ensures x / m == q && x % m == r
  {
    var q' := x / m;
    var r' := x % m;
    assert x == q' * m + r';
    if q' < q {
      assert (q - q') * m == r' - r;
      MulAtLeast(q - q', m);
    } else if q' > q {
      assert (q' - q) * m == r - r';
      MulAtLeast(q' - q, m);
    }
  }

  lemma ModShift(a: int, c: int, m: int)
    requires m > 0
    ensures (a + c * m) % m == a % m
  {
    DivModUnique(a + c * m, m, a / m + c, a % m);
  }

  /** Reducing modulo a multiple of w keeps the residue modulo w. */
  lemma ModOfMod(x: int, m: int, w: int)
    requires w > 0 && m > 0 && m % w == 0
    ensures (x % m) % w == x % w
  {
    var c := m / w;
    assert m == c * w;
    assert x == (x / m) * m + x % m;
    assert x == x % m + ((x / m) * c) * w;
    ModShift(x % m, (x / m) * c, w);
  }

  /** Two numbers with the same residue differ by a multiple of the modulus. */
  lemma SameResidue(a: int, b: int, m: int)
    requires m > 0 && a % m == b % m
    ensures (a - b) % m == 0
  {
    DivModUnique(a - b, m, a / m - b / m, 0);
  }

  /** A multiple of m greater than -m is non-negative; a positive one is at least m. */
  lemma MultipleBounds(y: int, m: int)
    requires m > 0 && y % m == 0
    ensures y > -m ==> y >= 0
    ensures y > 0 ==> y >= m
  {
    var q := y / m;
    assert y == q * m;
    if q < 0 {
      MulAtLeast(-q, m);
      assert y == -((-q) * m);
    } else if q > 0 {
      MulAtLeast(q, m);
    }
  }

  /** If m is a multiple of w and w = 2h, then m is a multiple of h. */
  lemma HalfDivides(m: int, w: int, h: int)
    requires h > 0 && w == 2 * h && m % w == 0
    ensures m % h == 0
  {
    var c := m / w;
    assert m == c * w;
    DivModUnique(m, h, 2 * c, 0);
  }

  /** Row-major layout: x * cols + y addresses a distinct slot below rows * cols. */
  lemma RowMajorBound(x: int, y: int, rows: int, cols: int)
    requires 0 <= x < rows && 0 <= y < cols
    ensures 0 <= x * cols + y < rows * cols
  {
    assert x * cols <= (rows - 1) * cols;
  }

  lemma RowMajorSplit(x: int, y: int, cols: int)
    requires 0 <= y < cols
    ensures (x * cols + y) / cols == x && (x * cols + y) % cols == y
  {
    DivModUnique(x * cols + y, cols, x, y);
  }

  lemma MulNonNeg(a: real, b: real)
    requires a >= 0.0 && b >= 0.0
    ensures a * b >= 0.0
  {
  }

  /** Scaling by a factor in [-1, 1] does not increase the magnitude. */
  lemma ScaleBound(s: real, x: real)
    requires -1.0 <= x <= 1.0
    ensures Abs(s * x) <= Abs(s)
  {
    if s >= 0.0 {
      MulNonNeg(s, 1.0 - x);
      MulNonNeg(s, 1.0 + x);
    } else {
      MulNonNeg(-s, 1.0 - x);
      MulNonNeg(-s, 1.0 + x);
    }
  }
}
