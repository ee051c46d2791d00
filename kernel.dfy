/** The point-Jacobi sweep of the pressure-Poisson kernel, as functions of field values.
    A sweep computes, for every strict-interior cell, the stencil value s0 and the masked
    residual ss from the pre-sweep pressure, relaxes the cell by omega * ss, and sums ss * ss
    into the residual gosa. */
module Kernel {
  import opened Fields

  /** What a sweep reads besides the pressure: the extents imax = MIMAX-1, jmax = MJMAX-1,
      kmax = MKMAX-1, the relaxation factor, the coefficient fields a (4 components),
      b and c (3 components), the boundary mask bnd and the source term wrk1. */
  datatype Problem = Problem(imax: int, jmax: int, kmax: int, omega: real,
                             a: VecField, b: VecField, c: VecField, bnd: Field, wrk1: Field)
  {
    /** Every field covers the whole MIMAX x MJMAX x MKMAX grid. */
    ghost predicate Valid() {
      && ShapedVec(a, imax + 1, jmax + 1, kmax + 1, 4)
      && ShapedVec(b, imax + 1, jmax + 1, kmax + 1, 3)
      && ShapedVec(c, imax + 1, jmax + 1, kmax + 1, 3)
      && Shaped(bnd, imax + 1, jmax + 1, kmax + 1)
      && Shaped(wrk1, imax + 1, jmax + 1, kmax + 1)
    }

    /** P is a pressure field over the same grid. */
    ghost predicate Fits(P: Field) {
      Shaped(P, imax + 1, jmax + 1, kmax + 1)
    }

    predicate IsInterior(i: int, j: int, k: int) {
      Interior(imax, jmax, kmax, i, j, k)
    }

    predicate IsCell(i: int, j: int, k: int) {
      InGrid(imax + 1, jmax + 1, kmax + 1, i, j, k)
    }

    /** The cells with i < imax, j < jmax, k < kmax: all but the outermost layer. */
    predicate InBox(i: int, j: int, k: int) {
      InGrid(imax, jmax, kmax, i, j, k)
    }
  }

  /** The values jacobi reads at one interior cell: the pressure at the cell (pc), at its six
      axial neighbours (i+1: pip, i-1: pim, and likewise for j and k) and at the twelve cross
      neighbours the b terms use (pipjp is p[i+1][j+1][k], and so on), the coefficients
      a[0..3], b[0..2], c[0..2], the source term and the mask. */
  datatype Taps = Taps(
    pc: real, pip: real, pim: real, pjp: real, pjm: real, pkp: real, pkm: real,
    pipjp: real, pipjm: real, pimjp: real, pimjm: real,
    pjpkp: real, pjmkp: real, pjpkm: real, pjmkm: real,
    pipkp: real, pimkp: real, pipkm: real, pimkm: real,
    a0: real, a1: real, a2: real, a3: real, b0: real, b1: real, b2: real,
    c0: real, c1: real, c2: real, wrk1: real, bnd: real)

  /** s0: the six axial neighbours weighted by a and c, the three cross differences
      weighted by b, plus the source term, summed in the order jacobi sums them. */
  function S0(t: Taps): real {
    t.a0 * t.pip
    + t.a1 * t.pjp
    + t.a2 * t.pkp
    + t.b0 * (t.pipjp - t.pipjm - t.pimjp + t.pimjm)
    + t.b1 * (t.pjpkp - t.pjmkp - t.pjpkm + t.pjmkm)
    + t.b2 * (t.pipkp - t.pimkp - t.pipkm + t.pimkm)
    + t.c0 * t.pim
    + t.c1 * t.pjm
    + t.c2 * t.pkm
    + t.wrk1
  }

  /** ss: the residual scaled by the diagonal coefficient a[3] and masked by bnd. */
  function SS(t: Taps): (ss: real)
    ensures t.bnd == 0.0 ==> ss == 0.0
  {
    (S0(t) * t.a3 - t.pc) * t.bnd
  }

  /** The taps of cell (i, j, k) of pressure P. Every index read lies within one of the cell,
      so inside the grid for an interior cell. */
  function Gather(P: Field, pr: Problem, i: int, j: int, k: int): Taps
    requires pr.Valid() && pr.Fits(P) && pr.IsInterior(i, j, k)
  {
    var a, b, c := pr.a[i][j][k], pr.b[i][j][k], pr.c[i][j][k];
    Taps(P[i][j][k], P[i+1][j][k], P[i-1][j][k], P[i][j+1][k], P[i][j-1][k], P[i][j][k+1], P[i][j][k-1],
         P[i+1][j+1][k], P[i+1][j-1][k], P[i-1][j+1][k], P[i-1][j-1][k],
         P[i][j+1][k+1], P[i][j-1][k+1], P[i][j+1][k-1], P[i][j-1][k-1],
         P[i+1][j][k+1], P[i-1][j][k+1], P[i+1][j][k-1], P[i-1][j][k-1],
         a[0], a[1], a[2], a[3], b[0], b[1], b[2], c[0], c[1], c[2],
         pr.wrk1[i][j][k], pr.bnd[i][j][k])
  }

  /** s0 at an interior cell of P. */
  function Stencil(P: Field, pr: Problem, i: int, j: int, k: int): real
    requires pr.Valid() && pr.Fits(P) && pr.IsInterior(i, j, k)
  {
    S0(Gather(P, pr, i, j, k))
  }

  /** ss at an interior cell of P; 0 wherever the mask is 0. */
  function Residual(P: Field, pr: Problem, i: int, j: int, k: int): (ss: real)
    requires pr.Valid() && pr.Fits(P) && pr.IsInterior(i, j, k)
    ensures pr.bnd[i][j][k] == 0.0 ==> ss == 0.0
  {
    SS(Gather(P, pr, i, j, k))
  }

  /** The relaxed value p + omega * ss that the sweep stores for an interior cell. */
  function Relaxed(P: Field, pr: Problem, i: int, j: int, k: int): (v: real)
    requires pr.Valid() && pr.Fits(P) && pr.IsInterior(i, j, k)
    ensures pr.bnd[i][j][k] == 0.0 ==> v == P[i][j][k]
  {
    Update(P[i][j][k], pr.omega, Residual(P, pr, i, j, k))
  }

  /** The relaxation step p + omega * ss. */
  function Update(p: real, omega: real, ss: real): real {
    p + omega * ss
  }

  /** Relaxing leaves a cell as it was exactly when omega or its residual is 0. */
  lemma RelaxedUnchangedIff(P: Field, pr: Problem, i: int, j: int, k: int)
    requires pr.Valid() && pr.Fits(P) && pr.IsInterior(i, j, k)
    ensures Relaxed(P, pr, i, j, k) == P[i][j][k] <==> pr.omega == 0.0 || Residual(P, pr, i, j, k) == 0.0
  {
  }

  /** One sweep: every interior cell is relaxed from the pre-sweep field P alone, every other
      cell keeps its value. */
  function Sweep(P: Field, pr: Problem): (Q: Field)
    requires pr.Valid() && pr.Fits(P)
    ensures pr.Fits(Q)
    ensures forall i, j, k {:trigger Q[i][j][k]} | pr.IsInterior(i, j, k) :: Q[i][j][k] == Relaxed(P, pr, i, j, k)
    ensures forall i, j, k {:trigger Q[i][j][k]} | pr.IsCell(i, j, k) && !pr.IsInterior(i, j, k) :: Q[i][j][k] == P[i][j][k]
  {
    seq(|P|, i requires 0 <= i < |P| =>
      seq(|P[i]|, j requires 0 <= j < |P[i]| =>
        seq(|P[i][j]|, k requires 0 <= k < |P[i][j]| =>
          if pr.IsInterior(i, j, k) then Relaxed(P, pr, i, j, k) else P[i][j][k])))
  }

  /** The field of residuals ss of one sweep: ss at interior cells, 0 elsewhere. */
  function Residuals(P: Field, pr: Problem): (R: Field)
    requires pr.Valid() && pr.Fits(P)
    ensures pr.Fits(R)
    ensures forall i, j, k | pr.IsInterior(i, j, k) :: R[i][j][k] == Residual(P, pr, i, j, k)
    ensures forall i, j, k | pr.IsCell(i, j, k) && !pr.IsInterior(i, j, k) :: R[i][j][k] == 0.0
  {
    seq(|P|, i requires 0 <= i < |P| =>
      seq(|P[i]|, j requires 0 <= j < |P[i]| =>
        seq(|P[i][j]|, k requires 0 <= k < |P[i][j]| =>
          if pr.IsInterior(i, j, k) then Residual(P, pr, i, j, k) else 0.0)))
  }

  function Copy(x: real): real { x }

  /** ss * ss. The second factor is written as Copy(x) so that the solver treats the product
      as one of two terms rather than as a power, which it handles poorly. */
  function Square(x: real): (y: real)
    ensures y >= 0.0
  {
    x * Copy(x)
  }

  /** Sum of R[i][j][k]^2 over 1 <= k < n: the innermost loop's contribution to gosa. */
  function RowSq(R: Field, pr: Problem, i: int, j: int, n: int): (s: real)
    requires pr.Fits(R) && 0 <= i <= pr.imax && 0 <= j <= pr.jmax && n <= pr.kmax - 1
    ensures s >= 0.0
    decreases n
  {
    if n <= 1 then 0.0 else RowSq(R, pr, i, j, n - 1) + Square(R[i][j][n-1])
  }

  /** Sum of R[i][j][k]^2 over 1 <= j < n and the interior k. */
  function PlaneSq(R: Field, pr: Problem, i: int, n: int): (s: real)
    requires pr.Fits(R) && 0 <= i <= pr.imax && n <= pr.jmax - 1
    ensures s >= 0.0
    decreases n
  {
    if n <= 1 then 0.0 else PlaneSq(R, pr, i, n - 1) + RowSq(R, pr, i, n - 1, pr.kmax - 1)
  }

  /** Sum of R[i][j][k]^2 over 1 <= i < n and the interior j and k. */
  function BlockSq(R: Field, pr: Problem, n: int): (s: real)
    requires pr.Fits(R) && n <= pr.imax - 1
    ensures s >= 0.0
    decreases n
  {
    if n <= 1 then 0.0 else BlockSq(R, pr, n - 1) + PlaneSq(R, pr, n - 1, pr.jmax - 1)
  }

  /** gosa of one sweep from P: the sum of ss * ss over the interior, in loop order. */
  function Gosa(P: Field, pr: Problem): (g: real)
    requires pr.Valid() && pr.Fits(P)
    ensures g >= 0.0
  {
    BlockSq(Residuals(P, pr), pr, pr.imax - 1)
  }

  /** The pressure after n sweeps from P, each sweep reading only the previous one's result. */
  function Iterate(n: nat, P: Field, pr: Problem): (Q: Field)
    requires pr.Valid() && pr.Fits(P)
    ensures pr.Fits(Q)
    decreases n
  {
    if n == 0 then P else Iterate(n - 1, Sweep(P, pr), pr)
  }

  /** The (n+1)-th sweep is applied to the result of the first n. */
  lemma {:induction false} IterateLast(n: nat, P: Field, pr: Problem)
    requires pr.Valid() && pr.Fits(P)
    ensures Iterate(n + 1, P, pr) == Sweep(Iterate(n, P, pr), pr)
    decreases n
  {
    if n > 0 {
      IterateLast(n - 1, Sweep(P, pr), pr);
    }
  }

  lemma SquarePositive(x: real)
    requires x != 0.0
    ensures Square(x) > 0.0
  {
  }

  lemma SquareZero(x: real)
    ensures Square(x) >= 0.0
    ensures Square(x) == 0.0 <==> x == 0.0
  {
    if x != 0.0 {
      SquarePositive(x);
    }
  }

  lemma {:induction false} RowSqZero(R: Field, pr: Problem, i: int, j: int, n: int)
    requires pr.Fits(R) && 0 <= i <= pr.imax && 0 <= j <= pr.jmax && n <= pr.kmax - 1
    ensures RowSq(R, pr, i, j, n) == 0.0 <==> forall k | 1 <= k < n :: R[i][j][k] == 0.0
    decreases n
  {
    if n > 1 {
      RowSqZero(R, pr, i, j, n - 1);
      SquareZero(R[i][j][n-1]);
    }
  }

  lemma {:induction false} PlaneSqZero(R: Field, pr: Problem, i: int, n: int)
    requires pr.Fits(R) && 0 <= i <= pr.imax && n <= pr.jmax - 1
    ensures PlaneSq(R, pr, i, n) == 0.0 <==>
      forall j, k | 1 <= j < n && 1 <= k < pr.kmax - 1 :: R[i][j][k] == 0.0
    decreases n
  {
    if n > 1 {
      PlaneSqZero(R, pr, i, n - 1);
      RowSqZero(R, pr, i, n - 1, pr.kmax - 1);
    }
  }

  lemma {:induction false} BlockSqZero(R: Field, pr: Problem, n: int)
    requires pr.Fits(R) && n <= pr.imax - 1
    ensures BlockSq(R, pr, n) == 0.0 <==>
      forall i, j, k | 1 <= i < n && 1 <= j < pr.jmax - 1 && 1 <= k < pr.kmax - 1 :: R[i][j][k] == 0.0
    decreases n
  {
    if n > 1 {
      BlockSqZero(R, pr, n - 1);
      PlaneSqZero(R, pr, n - 1, pr.jmax - 1);
    }
  }

  /** gosa vanishes exactly when every interior residual does. */
  lemma GosaZeroIff(P: Field, pr: Problem)
    requires pr.Valid() && pr.Fits(P)
    ensures Gosa(P, pr) == 0.0 <==> forall i, j, k | pr.IsInterior(i, j, k) :: Residual(P, pr, i, j, k) == 0.0
  {
    var R := Residuals(P, pr);
    BlockSqZero(R, pr, pr.imax - 1);
    if Gosa(P, pr) == 0.0 {
      forall i, j, k | pr.IsInterior(i, j, k) ensures Residual(P, pr, i, j, k) == 0.0 {
        assert R[i][j][k] == 0.0;
      }
    }
    if forall i, j, k | pr.IsInterior(i, j, k) :: Residual(P, pr, i, j, k) == 0.0 {
      forall i, j, k | 1 <= i < pr.imax - 1 && 1 <= j < pr.jmax - 1 && 1 <= k < pr.kmax - 1
        ensures R[i][j][k] == 0.0
      {
        assert pr.IsInterior(i, j, k);
      }
    }
  }

  /** A sweep whose gosa is 0 changes nothing. */
  lemma FixedPointOfZeroGosa(P: Field, pr: Problem)
    requires pr.Valid() && pr.Fits(P) && Gosa(P, pr) == 0.0
    ensures Sweep(P, pr) == P
  {
    GosaZeroIff(P, pr);
    var Q := Sweep(P, pr);
    forall i, j, k | pr.IsInterior(i, j, k) ensures Q[i][j][k] == P[i][j][k] {
      RelaxedUnchangedIff(P, pr, i, j, k);
    }
    FieldsEqual(Q, P, pr.imax + 1, pr.jmax + 1, pr.kmax + 1);
  }

  /** With omega != 0, a sweep that changes nothing has gosa 0. */
  lemma ZeroGosaOfFixedPoint(P: Field, pr: Problem)
    requires pr.Valid() && pr.Fits(P) && pr.omega != 0.0 && Sweep(P, pr) == P
    ensures Gosa(P, pr) == 0.0
  {
    var Q := Sweep(P, pr);
    forall i, j, k | pr.IsInterior(i, j, k) ensures Residual(P, pr, i, j, k) == 0.0 {
      assert Q[i][j][k] == Relaxed(P, pr, i, j, k);
      RelaxedUnchangedIff(P, pr, i, j, k);
    }
    GosaZeroIff(P, pr);
  }

  /** With omega != 0, a sweep leaves the pressure unchanged exactly when its gosa is 0. */
  lemma FixedPointIff(P: Field, pr: Problem)
    requires pr.Valid() && pr.Fits(P) && pr.omega != 0.0
    ensures Sweep(P, pr) == P <==> Gosa(P, pr) == 0.0
  {
    if Gosa(P, pr) == 0.0 {
      FixedPointOfZeroGosa(P, pr);
    }
    if Sweep(P, pr) == P {
      ZeroGosaOfFixedPoint(P, pr);
    }
  }

  /** Where bnd is 0 on the whole interior, a sweep changes nothing and reports gosa = 0. */
  lemma MaskedSweep(P: Field, pr: Problem)
    requires pr.Valid() && pr.Fits(P)
    requires forall i, j, k | pr.IsInterior(i, j, k) :: pr.bnd[i][j][k] == 0.0
    ensures Sweep(P, pr) == P && Gosa(P, pr) == 0.0
  {
    GosaZeroIff(P, pr);
    FieldsEqual(Sweep(P, pr), P, pr.imax + 1, pr.jmax + 1, pr.kmax + 1);
  }

  /** Any number of sweeps leaves every non-interior cell at its initial value. */
  lemma {:induction false} IterateKeepsBoundary(n: nat, P: Field, pr: Problem)
    requires pr.Valid() && pr.Fits(P)
    ensures forall i, j, k | pr.IsCell(i, j, k) && !pr.IsInterior(i, j, k) ::
      Iterate(n, P, pr)[i][j][k] == P[i][j][k]
  {
    if n > 0 {
      IterateKeepsBoundary(n - 1, Sweep(P, pr), pr);
    }
  }

  /** A field that one sweep leaves unchanged stays unchanged for any number of sweeps. */
  lemma {:induction false} FixedPointStays(n: nat, P: Field, pr: Problem)
    requires pr.Valid() && pr.Fits(P) && Sweep(P, pr) == P
    ensures Iterate(n, P, pr) == P
  {
    if n > 0 {
      FixedPointStays(n - 1, P, pr);
    }
  }

  /** s0 at an interior cell reads only its 3 x 3 x 3 neighbourhood, which lies inside the box
      i < imax, j < jmax, k < kmax. */
  lemma StencilReadsNeighbours(P: Field, Q: Field, pr: Problem, i: int, j: int, k: int)
    requires pr.Valid() && pr.Fits(P) && pr.Fits(Q) && pr.IsInterior(i, j, k)
    requires forall x, y, z | i - 1 <= x <= i + 1 && j - 1 <= y <= j + 1 && k - 1 <= z <= k + 1 ::
      P[x][y][z] == Q[x][y][z]
    ensures forall x, y, z | i - 1 <= x <= i + 1 && j - 1 <= y <= j + 1 && k - 1 <= z <= k + 1 ::
      pr.InBox(x, y, z)
    ensures Stencil(P, pr, i, j, k) == Stencil(Q, pr, i, j, k)
    ensures Residual(P, pr, i, j, k) == Residual(Q, pr, i, j, k)
    ensures Relaxed(P, pr, i, j, k) == Relaxed(Q, pr, i, j, k)
  {
  }

  /** A sweep never reads the outermost layer (index imax, jmax or kmax): two fields that agree
      on the other cells give sweeps and residuals that agree there too. */
  lemma SweepIgnoresOuterLayer(P: Field, Q: Field, pr: Problem)
    requires pr.Valid() && pr.Fits(P) && pr.Fits(Q)
    requires forall i, j, k | pr.InBox(i, j, k) :: P[i][j][k] == Q[i][j][k]
    ensures forall i, j, k | pr.InBox(i, j, k) :: Sweep(P, pr)[i][j][k] == Sweep(Q, pr)[i][j][k]
  {
    var P', Q' := Sweep(P, pr), Sweep(Q, pr);
    forall i, j, k | pr.InBox(i, j, k)
      ensures P'[i][j][k] == Q'[i][j][k]
    {
      if pr.IsInterior(i, j, k) {
        StencilReadsNeighbours(P, Q, pr, i, j, k);
      }
    }
  }

  /** Nor does the residual gosa of a sweep depend on the outermost layer. */
  lemma GosaIgnoresOuterLayer(P: Field, Q: Field, pr: Problem)
    requires pr.Valid() && pr.Fits(P) && pr.Fits(Q)
    requires forall i, j, k | pr.InBox(i, j, k) :: P[i][j][k] == Q[i][j][k]
    ensures Gosa(P, pr) == Gosa(Q, pr)
  {
    var R, S := Residuals(P, pr), Residuals(Q, pr);
    forall i, j, k | pr.IsCell(i, j, k)
      ensures R[i][j][k] == S[i][j][k]
    {
      if pr.IsInterior(i, j, k) {
        StencilReadsNeighbours(P, Q, pr, i, j, k);
      }
    }
    FieldsEqual(R, S, pr.imax + 1, pr.jmax + 1, pr.kmax + 1);
  }

  /** Hence no number of sweeps depends on the outermost layer. */
  lemma {:induction false} IterateIgnoresOuterLayer(n: nat, P: Field, Q: Field, pr: Problem)
    requires pr.Valid() && pr.Fits(P) && pr.Fits(Q)
    requires forall i, j, k | pr.InBox(i, j, k) :: P[i][j][k] == Q[i][j][k]
    ensures forall i, j, k | pr.InBox(i, j, k) :: Iterate(n, P, pr)[i][j][k] == Iterate(n, Q, pr)[i][j][k]
  {
    if n > 0 {
      SweepIgnoresOuterLayer(P, Q, pr);
      IterateIgnoresOuterLayer(n - 1, Sweep(P, pr), Sweep(Q, pr), pr);
    }
  }

  /** Nor does the gosa of any later sweep. */
  lemma IterateGosaIgnoresOuterLayer(n: nat, P: Field, Q: Field, pr: Problem)
    requires pr.Valid() && pr.Fits(P) && pr.Fits(Q)
    requires forall i, j, k | pr.InBox(i, j, k) :: P[i][j][k] == Q[i][j][k]
    ensures Gosa(Iterate(n, P, pr), pr) == Gosa(Iterate(n, Q, pr), pr)
  {
    IterateIgnoresOuterLayer(n, P, Q, pr);
    GosaIgnoresOuterLayer(Iterate(n, P, pr), Iterate(n, Q, pr), pr);
  }
}

/** The state initmt leaves behind, and what the first sweep makes of it. */
module Seeding {
  import opened Fields
  import opened Kernel

  /** The seed pressure of plane k: k^2 / (kmax-1)^2, a quadratic ramp from 0 at k = 0 to 1 at
      k = kmax-1. */
  function Seed(k: int, kmax: int): (s: real)
    requires kmax >= 2
    ensures s >= 0.0
  {
    (k * k) as real / Scale(kmax)
  }

  /** The divisor of the seed, (kmax-1)^2, as a real. */
  function Scale(kmax: int): (d: real)
    requires kmax >= 2
    ensures d >= 1.0
  {
    SquareLess(0, kmax - 1);
    ((kmax - 1) * (kmax - 1)) as real
  }

  /** Every cell of the box i < imax, j < jmax, k < kmax holds the values initmt writes. */
  ghost predicate Initialized(P: Field, pr: Problem)
    requires pr.Valid() && pr.Fits(P)
  {
    && pr.kmax >= 2
    && forall i, j, k | pr.InBox(i, j, k) ::
      && P[i][j][k] == Seed(k, pr.kmax)
      && pr.a[i][j][k] == [1.0, 1.0, 1.0, 1.0 / 6.0]
      && pr.b[i][j][k] == [0.0, 0.0, 0.0]
      && pr.c[i][j][k] == [1.0, 1.0, 1.0]
      && pr.bnd[i][j][k] == 1.0
      && pr.wrk1[i][j][k] == 0.0
  }

  lemma SquareLess(k: int, k': int)
    requires 0 <= k < k'
    ensures k * k < k' * k'
  {
    assert k * k <= k * k';
    assert k * k' < k' * k';
  }

  lemma DivideMonotone(x: real, y: real, d: real)
    requires d > 0.0 && x < y
    ensures x / d < y / d
  {
  }

  /** The seed is 0 on the plane k = 0, 1 on the plane k = kmax-1, and grows strictly with k. */
  lemma SeedRamp(kmax: int, k: int, k': int)
    requires kmax >= 2 && 0 <= k < k' <= kmax - 1
    ensures Seed(0, kmax) == 0.0 && Seed(kmax - 1, kmax) == 1.0
    ensures 0.0 <= Seed(k, kmax) < Seed(k', kmax) <= 1.0
  {
    SeedEnds(kmax);
    SeedGrows(kmax, k, k');
    if k' < kmax - 1 {
      SeedGrows(kmax, k', kmax - 1);
    }
  }

  lemma SeedEnds(kmax: int)
    requires kmax >= 2
    ensures Seed(0, kmax) == 0.0 && Seed(kmax - 1, kmax) == 1.0
  {
    var d := Scale(kmax);
    assert Seed(kmax - 1, kmax) == d / d;
  }

  lemma SeedGrows(kmax: int, k: int, k': int)
    requires kmax >= 2 && 0 <= k < k'
    ensures Seed(k, kmax) < Seed(k', kmax)
  {
    var d := Scale(kmax);
    SquareLess(k, k');
    var x, y := (k * k) as real, (k' * k') as real;
    DivideMonotone(x, y, d);
    assert Seed(k, kmax) == x / d && Seed(k', kmax) == y / d;
  }

  /** Seed values of three adjacent planes: the second difference is 2 / (kmax-1)^2. */
  lemma SeedSecondDifference(k: int, kmax: int)
    requires kmax >= 2
    ensures Seed(k + 1, kmax) + Seed(k - 1, kmax) == 2.0 * Seed(k, kmax) + 2.0 / Scale(kmax)
  {
    var d := Scale(kmax);
    var m := (k * k) as real;
    assert ((k + 1) * (k + 1)) as real + ((k - 1) * (k - 1)) as real == 2.0 * m + 2.0 by {
      assert (k + 1) * (k + 1) + (k - 1) * (k - 1) == 2 * (k * k) + 2;
    }
    DivideSum(((k + 1) * (k + 1)) as real, ((k - 1) * (k - 1)) as real, d);
    DivideSum(2.0 * m, 2.0, d);
    DivideScale(m, d);
  }

  lemma DivideSum(x: real, y: real, d: real)
    requires d > 0.0
    ensures x / d + y / d == (x + y) / d
  {
  }

  lemma DivideScale(x: real, d: real)
    requires d > 0.0
    ensures 2.0 * (x / d) == (2.0 * x) / d
  {
  }

  /** With the seeded coefficients, s0 is the sum of the six axial neighbours. */
  lemma SeededStencil(P: Field, pr: Problem, i: int, j: int, k: int)
    requires pr.Valid() && pr.Fits(P) && Initialized(P, pr) && pr.IsInterior(i, j, k)
    ensures Stencil(P, pr, i, j, k) == 4.0 * Seed(k, pr.kmax) + Seed(k + 1, pr.kmax) + Seed(k - 1, pr.kmax)
  {
    var s := Seed(k, pr.kmax);
    assert pr.InBox(i, j, k) && pr.InBox(i + 1, j + 1, k + 1) && pr.InBox(i - 1, j - 1, k - 1);
    assert pr.InBox(i + 1, j, k) && pr.InBox(i - 1, j, k) && pr.InBox(i, j + 1, k) && pr.InBox(i, j - 1, k);
    assert pr.InBox(i, j, k + 1) && pr.InBox(i, j, k - 1);
    var a, b, c := pr.a[i][j][k], pr.b[i][j][k], pr.c[i][j][k];
    assert a == [1.0, 1.0, 1.0, 1.0 / 6.0] && b == [0.0, 0.0, 0.0] && c == [1.0, 1.0, 1.0];
    assert a[0] * P[i+1][j][k] == s;
    assert a[1] * P[i][j+1][k] == s;
    assert a[2] * P[i][j][k+1] == Seed(k + 1, pr.kmax);
    assert c[0] * P[i-1][j][k] == s;
    assert c[1] * P[i][j-1][k] == s;
    assert c[2] * P[i][j][k-1] == Seed(k - 1, pr.kmax);
    assert b[0] == 0.0 && b[1] == 0.0 && b[2] == 0.0;
    assert pr.wrk1[i][j][k] == 0.0;
  }

  lemma ResidualArithmetic(st: real, a3: real, p: real, bnd: real, s: real, d: real)
    requires d > 0.0 && st == 6.0 * s + 2.0 / d && a3 == 1.0 / 6.0 && p == s && bnd == 1.0
    ensures (st * a3 - p) * bnd == 1.0 / (3.0 * d)
  {
  }

  /** The residual of every interior cell of the seeded state: 1 / (3 (kmax-1)^2). */
  function Rise(kmax: int): real
    requires kmax >= 2
  {
    1.0 / (3.0 * Scale(kmax))
  }

  /** From the seeded state, with unit coefficients, b = 0, bnd = 1 and no source, every
      interior residual is 1 / (3 (kmax-1)^2). */
  lemma SeededResidual(P: Field, pr: Problem, i: int, j: int, k: int)
    requires pr.Valid() && pr.Fits(P) && Initialized(P, pr) && pr.IsInterior(i, j, k)
    ensures P[i][j][k] == Seed(k, pr.kmax)
    ensures Residual(P, pr, i, j, k) == Rise(pr.kmax)
  {
    var d := Scale(pr.kmax);
    var s := Seed(k, pr.kmax);
    assert pr.InBox(i, j, k);
    SeededStencil(P, pr, i, j, k);
    SeedSecondDifference(k, pr.kmax);
    var st := Stencil(P, pr, i, j, k);
    assert pr.a[i][j][k][3] == 1.0 / 6.0 && pr.bnd[i][j][k] == 1.0 && P[i][j][k] == s;
    ResidualArithmetic(st, pr.a[i][j][k][3], P[i][j][k], pr.bnd[i][j][k], s, d);
  }

  /** Hence one sweep from the seeded state raises every interior cell by omega times that
      residual, whatever omega is. */
  lemma FirstSweepFromSeed(P: Field, pr: Problem, i: int, j: int, k: int)
    requires pr.Valid() && pr.Fits(P) && Initialized(P, pr) && pr.IsInterior(i, j, k)
    ensures Relaxed(P, pr, i, j, k) == Seed(k, pr.kmax) + pr.omega * Rise(pr.kmax)
  {
    SeededResidual(P, pr, i, j, k);
  }
}
