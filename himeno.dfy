/** The benchmark's global state and the procedures that update it in place: the static arrays
    p, a, b, c, bnd, wrk1, wrk2 with the extents imax, jmax, kmax and the factor omega, filled by
    initmt and relaxed by jacobi, run in the order main runs them. */
module Himeno {
  import opened Fields
  import opened Kernel
  import opened Seeding
  import opened Flops
  import opened Storage

  /** Number of Jacobi sweeps main asks for. */
  const NN := 200

  class Grid {
    const imax: int
    const jmax: int
    const kmax: int
    const omega: real
    const p: array3<real>
    const a: array4<real>
    const b: array4<real>
    const c: array4<real>
    const bnd: array3<real>
    const wrk1: array3<real>
    const wrk2: array3<real>

    /** The extents and the arrays are laid out as the static declarations lay them out. */
    predicate Valid() {
      Layout(imax, jmax, kmax, p, a, b, c, bnd, wrk1, wrk2)
    }

    predicate IsCell(i: int, j: int, k: int) {
      InGrid(imax + 1, jmax + 1, kmax + 1, i, j, k)
    }

    predicate IsInterior(i: int, j: int, k: int) {
      Interior(imax, jmax, kmax, i, j, k)
    }

    /** The cells initmt fills: i < imax, j < jmax, k < kmax. */
    predicate InBox(i: int, j: int, k: int) {
      InGrid(imax, jmax, kmax, i, j, k)
    }

    /** The current pressure. */
    ghost function Pressure(): (P: Field)
      requires Valid()
      reads p
      ensures Shaped(P, imax + 1, jmax + 1, kmax + 1)
    {
      Snap(p)
    }

    /** Everything a sweep reads besides the pressure. */
    ghost function ReadOnly(): (pr: Problem)
      requires Valid()
      reads a, b, c, bnd, wrk1
      ensures pr.Valid()
      ensures pr.imax == imax && pr.jmax == jmax && pr.kmax == kmax && pr.omega == omega
    {
      Problem(imax, jmax, kmax, omega, SnapVec(a), SnapVec(b), SnapVec(c), Snap(bnd), Snap(wrk1))
    }

    /** P and pr are the values the arrays hold now. */
    ghost predicate Current(P: Field, pr: Problem)
      requires Valid()
      reads p, a, b, c, bnd, wrk1
      ensures Current(P, pr) ==> pr.Valid() && pr.Fits(P)
    {
      && pr.imax == imax && pr.jmax == jmax && pr.kmax == kmax && pr.omega == omega
      && Stored(P, pr, p, a, b, c, bnd, wrk1)
    }

    /** The current pressure and coefficients are what the arrays hold. */
    lemma Snapshot()
      requires Valid()
      ensures Current(Pressure(), ReadOnly())
    {
    }

    /** The arrays are zero-filled static storage; main then sets omega and the extents
        imax = MIMAX-1, jmax = MJMAX-1, kmax = MKMAX-1. */
    constructor (mimax: int, mjmax: int, mkmax: int)
      requires mimax >= 3 && mjmax >= 3 && mkmax >= 3
      ensures Valid()
      ensures imax == mimax - 1 && jmax == mjmax - 1 && kmax == mkmax - 1 && omega == 0.8
      ensures fresh(p) && fresh(a) && fresh(b) && fresh(c) && fresh(bnd) && fresh(wrk1) && fresh(wrk2)
      ensures forall i, j, k | IsCell(i, j, k) ::
        p[i, j, k] == 0.0 && bnd[i, j, k] == 0.0 && wrk1[i, j, k] == 0.0 && wrk2[i, j, k] == 0.0
      ensures forall i, j, k, l | IsCell(i, j, k) && 0 <= l < 4 :: a[i, j, k, l] == 0.0
      ensures forall i, j, k, l | IsCell(i, j, k) && 0 <= l < 3 :: b[i, j, k, l] == 0.0 && c[i, j, k, l] == 0.0
    {
      imax, jmax, kmax := mimax - 1, mjmax - 1, mkmax - 1;
      omega := 0.8;
      p := new real[mimax, mjmax, mkmax]((i, j, k) => 0.0);
      a := new real[mimax, mjmax, mkmax, 4]((i, j, k, l) => 0.0);
      b := new real[mimax, mjmax, mkmax, 3]((i, j, k, l) => 0.0);
      c := new real[mimax, mjmax, mkmax, 3]((i, j, k, l) => 0.0);
      bnd := new real[mimax, mjmax, mkmax]((i, j, k) => 0.0);
      wrk1 := new real[mimax, mjmax, mkmax]((i, j, k) => 0.0);
      wrk2 := new real[mimax, mjmax, mkmax]((i, j, k) => 0.0);
    }

    /** Cell (i, j, k) of every array initmt writes holds what the first loop of initmt stores. */
    ghost predicate Zeroed(i: int, j: int, k: int)
      requires Valid() && IsCell(i, j, k)
      reads p, a, b, c, bnd, wrk1
    {
      && a[i, j, k, 0] == 0.0 && a[i, j, k, 1] == 0.0 && a[i, j, k, 2] == 0.0 && a[i, j, k, 3] == 0.0
      && b[i, j, k, 0] == 0.0 && b[i, j, k, 1] == 0.0 && b[i, j, k, 2] == 0.0
      && c[i, j, k, 0] == 0.0 && c[i, j, k, 1] == 0.0 && c[i, j, k, 2] == 0.0
      && p[i, j, k] == 0.0 && wrk1[i, j, k] == 0.0 && bnd[i, j, k] == 0.0
    }

    /** Cell (i, j, k) holds what the second loop of initmt stores. */
    ghost predicate Seeded(i: int, j: int, k: int)
      requires Valid() && IsCell(i, j, k)
      reads p, a, b, c, bnd, wrk1
    {
      && a[i, j, k, 0] == 1.0 && a[i, j, k, 1] == 1.0 && a[i, j, k, 2] == 1.0 && a[i, j, k, 3] == 1.0 / 6.0
      && b[i, j, k, 0] == 0.0 && b[i, j, k, 1] == 0.0 && b[i, j, k, 2] == 0.0
      && c[i, j, k, 0] == 1.0 && c[i, j, k, 1] == 1.0 && c[i, j, k, 2] == 1.0
      && p[i, j, k] == Seed(k, kmax) && wrk1[i, j, k] == 0.0 && bnd[i, j, k] == 1.0
    }

    /** Cell (i, j, k) of every array initmt writes is as it was before. */
    twostate predicate Kept(i: int, j: int, k: int)
      requires Valid() && IsCell(i, j, k)
      reads p, a, b, c, bnd, wrk1
    {
      && a[i, j, k, 0] == old(a[i, j, k, 0]) && a[i, j, k, 1] == old(a[i, j, k, 1])
      && a[i, j, k, 2] == old(a[i, j, k, 2]) && a[i, j, k, 3] == old(a[i, j, k, 3])
      && b[i, j, k, 0] == old(b[i, j, k, 0]) && b[i, j, k, 1] == old(b[i, j, k, 1])
      && b[i, j, k, 2] == old(b[i, j, k, 2])
      && c[i, j, k, 0] == old(c[i, j, k, 0]) && c[i, j, k, 1] == old(c[i, j, k, 1])
      && c[i, j, k, 2] == old(c[i, j, k, 2])
      && p[i, j, k] == old(p[i, j, k]) && wrk1[i, j, k] == old(wrk1[i, j, k])
      && bnd[i, j, k] == old(bnd[i, j, k])
    }

    /** The body of the first loop nest of initmt, at one cell. */
    method ZeroCell(i: int, j: int, k: int)
      requires Valid() && IsCell(i, j, k)
      modifies p, a, b, c, bnd, wrk1
      ensures Zeroed(i, j, k)
      ensures forall x, y, z | IsCell(x, y, z) && !(x == i && y == j && z == k) :: Kept(x, y, z)
    {
      a[i, j, k, 0] := 0.0;
      a[i, j, k, 1] := 0.0;
      a[i, j, k, 2] := 0.0;
      a[i, j, k, 3] := 0.0;
      b[i, j, k, 0] := 0.0;
      b[i, j, k, 1] := 0.0;
      b[i, j, k, 2] := 0.0;
      c[i, j, k, 0] := 0.0;
      c[i, j, k, 1] := 0.0;
      c[i, j, k, 2] := 0.0;
      p[i, j, k] := 0.0;
      wrk1[i, j, k] := 0.0;
      bnd[i, j, k] := 0.0;
    }

    /** The first loop nest of initmt: zero every array over the box. */
    method ZeroBox()
      requires Valid()
      modifies p, a, b, c, bnd, wrk1
      ensures forall i, j, k | InBox(i, j, k) :: Zeroed(i, j, k)
      ensures forall i, j, k | IsCell(i, j, k) && !InBox(i, j, k) :: Kept(i, j, k)
    {
      var i := 0;
      while i < imax
        invariant 0 <= i <= imax
        invariant forall x, y, z | InBox(x, y, z) && x < i :: Zeroed(x, y, z)
        invariant forall x, y, z | IsCell(x, y, z) && !(InBox(x, y, z) && x < i) :: Kept(x, y, z)
      {
        var j := 0;
        while j < jmax
          invariant 0 <= j <= jmax
          invariant forall x, y, z | InBox(x, y, z) && Before(x, y, 0, i, j, 0) :: Zeroed(x, y, z)
          invariant forall x, y, z | IsCell(x, y, z) && !(InBox(x, y, z) && Before(x, y, 0, i, j, 0)) :: Kept(x, y, z)
        {
          var k := 0;
          while k < kmax
            invariant 0 <= k <= kmax
            invariant forall x, y, z | InBox(x, y, z) && Before(x, y, z, i, j, k) :: Zeroed(x, y, z)
            invariant forall x, y, z | IsCell(x, y, z) && !(InBox(x, y, z) && Before(x, y, z, i, j, k)) :: Kept(x, y, z)
          {
            label before:
            ZeroCell(i, j, k);
            forall x, y, z | InBox(x, y, z) && Before(x, y, z, i, j, k) ensures Zeroed(x, y, z) {
              assert old@before(Zeroed(x, y, z)) && Kept@before(x, y, z);
            }
            k := k + 1;
          }
          j := j + 1;
        }
        i := i + 1;
      }
    }

    /** The body of the second loop nest of initmt, at one cell. The seed is computed in C int
        as k*k and (kmax-1)*(kmax-1) before both are converted to double. */
    method FillCell(i: int, j: int, k: int)
      requires Valid() && IsCell(i, j, k) && IsInt((kmax - 1) * (kmax - 1))
      modifies p, a, b, c, bnd, wrk1
      ensures Seeded(i, j, k)
      ensures forall x, y, z | IsCell(x, y, z) && !(x == i && y == j && z == k) :: Kept(x, y, z)
    {
      SquareLess(0, kmax - 1);
      a[i, j, k, 0] := 1.0;
      a[i, j, k, 1] := 1.0;
      a[i, j, k, 2] := 1.0;
      a[i, j, k, 3] := 1.0 / 6.0;
      b[i, j, k, 0] := 0.0;
      b[i, j, k, 1] := 0.0;
      b[i, j, k, 2] := 0.0;
      c[i, j, k, 0] := 1.0;
      c[i, j, k, 1] := 1.0;
      c[i, j, k, 2] := 1.0;
      p[i, j, k] := (k * k) as real / ((kmax - 1) * (kmax - 1)) as real;
      wrk1[i, j, k] := 0.0;
      bnd[i, j, k] := 1.0;
    }

    /** The second loop nest of initmt: the coefficients, mask, source and seed pressure over
        the box. */
    method FillBox()
      requires Valid() && IsInt((kmax - 1) * (kmax - 1))
      modifies p, a, b, c, bnd, wrk1
      ensures forall i, j, k | InBox(i, j, k) :: Seeded(i, j, k)
      ensures forall i, j, k | IsCell(i, j, k) && !InBox(i, j, k) :: Kept(i, j, k)
    {
      var i := 0;
      while i < imax
        invariant 0 <= i <= imax
        invariant forall x, y, z | InBox(x, y, z) && x < i :: Seeded(x, y, z)
        invariant forall x, y, z | IsCell(x, y, z) && !(InBox(x, y, z) && x < i) :: Kept(x, y, z)
      {
        var j := 0;
        while j < jmax
          invariant 0 <= j <= jmax
          invariant forall x, y, z | InBox(x, y, z) && Before(x, y, 0, i, j, 0) :: Seeded(x, y, z)
          invariant forall x, y, z | IsCell(x, y, z) && !(InBox(x, y, z) && Before(x, y, 0, i, j, 0)) :: Kept(x, y, z)
        {
          var k := 0;
          while k < kmax
            invariant 0 <= k <= kmax
            invariant forall x, y, z | InBox(x, y, z) && Before(x, y, z, i, j, k) :: Seeded(x, y, z)
            invariant forall x, y, z | IsCell(x, y, z) && !(InBox(x, y, z) && Before(x, y, z, i, j, k)) :: Kept(x, y, z)
          {
            label before:
            FillCell(i, j, k);
            forall x, y, z | InBox(x, y, z) && Before(x, y, z, i, j, k) ensures Seeded(x, y, z) {
              assert old@before(Seeded(x, y, z)) && Kept@before(x, y, z);
            }
            k := k + 1;
          }
          j := j + 1;
        }
        i := i + 1;
      }
    }

    /** initmt: after it, every cell of the box holds the seeded values, whatever the first
        loop nest wrote there, and the outermost layer is as it was. */
    method Initmt() returns (ghost P: Field, ghost pr: Problem)
      requires Valid() && IsInt((kmax - 1) * (kmax - 1))
      modifies p, a, b, c, bnd, wrk1
      ensures Current(P, pr) && Initialized(P, pr)
      ensures forall i, j, k | InBox(i, j, k) :: Seeded(i, j, k)
      ensures forall i, j, k | IsCell(i, j, k) && !InBox(i, j, k) :: Kept(i, j, k)
    {
      ZeroBox();
      label zeroed:
      FillBox();
      forall i, j, k | IsCell(i, j, k) && !InBox(i, j, k) ensures Kept(i, j, k) {
        assert Kept@zeroed(i, j, k);
      }
      P, pr := Pressure(), ReadOnly();
      Snapshot();
      SeededState(P, pr);
    }

    /** The seeded cells, read as field values, are the state Initialized describes. */
    lemma SeededState(P: Field, pr: Problem)
      requires Valid() && Current(P, pr)
      requires forall i, j, k | InBox(i, j, k) :: Seeded(i, j, k)
      ensures Initialized(P, pr)
    {
      forall i, j, k | pr.InBox(i, j, k)
        ensures P[i][j][k] == Seed(k, pr.kmax)
        ensures pr.a[i][j][k] == [1.0, 1.0, 1.0, 1.0 / 6.0]
        ensures pr.b[i][j][k] == [0.0, 0.0, 0.0]
        ensures pr.c[i][j][k] == [1.0, 1.0, 1.0]
        ensures pr.bnd[i][j][k] == 1.0 && pr.wrk1[i][j][k] == 0.0
      {
        SeededCell(i, j, k, P, pr);
      }
    }

    lemma SeededCell(i: int, j: int, k: int, P: Field, pr: Problem)
      requires Valid() && InBox(i, j, k) && Seeded(i, j, k) && Current(P, pr)
      ensures P[i][j][k] == Seed(k, kmax)
      ensures pr.a[i][j][k] == [1.0, 1.0, 1.0, 1.0 / 6.0]
      ensures pr.b[i][j][k] == [0.0, 0.0, 0.0]
      ensures pr.c[i][j][k] == [1.0, 1.0, 1.0]
      ensures pr.bnd[i][j][k] == 1.0 && pr.wrk1[i][j][k] == 0.0
    {
      var av, bv, cv := pr.a[i][j][k], pr.b[i][j][k], pr.c[i][j][k];
      assert |av| == 4 && av[0] == 1.0 && av[1] == 1.0 && av[2] == 1.0 && av[3] == 1.0 / 6.0;
      assert |bv| == 3 && bv[0] == 0.0 && bv[1] == 0.0 && bv[2] == 0.0;
      assert |cv| == 3 && cv[0] == 1.0 && cv[1] == 1.0 && cv[2] == 1.0;
    }

    /** s0 and ss at one interior cell: the nineteen pressures and eleven coefficients jacobi
        reads there, combined as jacobi combines them. */
    function CellResidual(i: int, j: int, k: int): real
      requires Valid() && IsInterior(i, j, k)
      reads p, a, b, c, bnd, wrk1
    {
      SS(Taps(p[i, j, k], p[i+1, j, k], p[i-1, j, k], p[i, j+1, k], p[i, j-1, k], p[i, j, k+1], p[i, j, k-1],
              p[i+1, j+1, k], p[i+1, j-1, k], p[i-1, j+1, k], p[i-1, j-1, k],
              p[i, j+1, k+1], p[i, j-1, k+1], p[i, j+1, k-1], p[i, j-1, k-1],
              p[i+1, j, k+1], p[i-1, j, k+1], p[i+1, j, k-1], p[i-1, j, k-1],
              a[i, j, k, 0], a[i, j, k, 1], a[i, j, k, 2], a[i, j, k, 3],
              b[i, j, k, 0], b[i, j, k, 1], b[i, j, k, 2],
              c[i, j, k, 0], c[i, j, k, 1], c[i, j, k, 2],
              wrk1[i, j, k], bnd[i, j, k]))
    }

    /** Computed from the arrays, ss is the residual of the current pressure and coefficients. */
    lemma CellResidualIs(i: int, j: int, k: int, P: Field, pr: Problem)
      requires Valid() && IsInterior(i, j, k) && Current(P, pr)
      ensures CellResidual(i, j, k) == Residual(P, pr, i, j, k)
    {
      TapsOfArrays(i, j, k, P, pr);
    }

    /** The taps read from the arrays are those of the current pressure and coefficients. */
    lemma TapsOfArrays(i: int, j: int, k: int, P: Field, pr: Problem)
      requires Valid() && IsInterior(i, j, k) && Current(P, pr)
      ensures Gather(P, pr, i, j, k)
        == Taps(p[i, j, k], p[i+1, j, k], p[i-1, j, k], p[i, j+1, k], p[i, j-1, k], p[i, j, k+1], p[i, j, k-1],
                p[i+1, j+1, k], p[i+1, j-1, k], p[i-1, j+1, k], p[i-1, j-1, k],
                p[i, j+1, k+1], p[i, j-1, k+1], p[i, j+1, k-1], p[i, j-1, k-1],
                p[i+1, j, k+1], p[i-1, j, k+1], p[i+1, j, k-1], p[i-1, j, k-1],
                a[i, j, k, 0], a[i, j, k, 1], a[i, j, k, 2], a[i, j, k, 3],
                b[i, j, k, 0], b[i, j, k, 1], b[i, j, k, 2],
                c[i, j, k, 0], c[i, j, k, 1], c[i, j, k, 2],
                wrk1[i, j, k], bnd[i, j, k])
    {
      forall x, y, z | i - 1 <= x <= i + 1 && j - 1 <= y <= j + 1 && k - 1 <= z <= k + 1
        ensures P[x][y][z] == p[x, y, z]
      {
      }
    }

    /** The value the first loop nest of jacobi stores in wrk2[i][j][k]. */
    function CellRelaxed(i: int, j: int, k: int): real
      requires Valid() && IsInterior(i, j, k)
      reads p, a, b, c, bnd, wrk1
    {
      Update(p[i, j, k], omega, CellResidual(i, j, k))
    }

    /** What the innermost loop over row (i, j) adds to gosa before reaching k = n. */
    function RowGosa(i: int, j: int, n: int): real
      requires Valid() && 1 <= i < imax - 1 && 1 <= j < jmax - 1 && n <= kmax - 1
      reads p, a, b, c, bnd, wrk1
      decreases n
    {
      if n <= 1 then 0.0 else RowGosa(i, j, n - 1) + Square(CellResidual(i, j, n - 1))
    }

    /** What the middle loop over plane i adds to gosa before reaching j = n. */
    function PlaneGosa(i: int, n: int): real
      requires Valid() && 1 <= i < imax - 1 && n <= jmax - 1
      reads p, a, b, c, bnd, wrk1
      decreases n
    {
      if n <= 1 then 0.0 else PlaneGosa(i, n - 1) + RowGosa(i, n - 1, kmax - 1)
    }

    /** What the outer loop adds to gosa before reaching i = n. */
    function BlockGosa(n: int): real
      requires Valid() && n <= imax - 1
      reads p, a, b, c, bnd, wrk1
      decreases n
    {
      if n <= 1 then 0.0 else BlockGosa(n - 1) + PlaneGosa(n - 1, jmax - 1)
    }

    /** R holds the residual the arrays give at every interior cell. */
    ghost predicate HoldsResiduals(R: Field)
      requires Valid()
      reads p, a, b, c, bnd, wrk1
    {
      && Shaped(R, imax + 1, jmax + 1, kmax + 1)
      && forall x, y, z | IsInterior(x, y, z) :: R[x][y][z] == CellResidual(x, y, z)
    }

    /** The residual field of the current pressure and coefficients is the one the arrays give. */
    lemma ResidualsHeld(P: Field, pr: Problem)
      requires Valid() && Current(P, pr)
      ensures HoldsResiduals(Residuals(P, pr))
    {
      ghost var R := Residuals(P, pr);
      forall x, y, z | IsInterior(x, y, z) ensures R[x][y][z] == CellResidual(x, y, z) {
        CellResidualIs(x, y, z, P, pr);
      }
    }

    lemma {:induction false} RowGosaIs(i: int, j: int, n: int, pr: Problem, R: Field)
      requires Valid() && 1 <= i < imax - 1 && 1 <= j < jmax - 1 && n <= kmax - 1
      requires pr.imax == imax && pr.jmax == jmax && pr.kmax == kmax && HoldsResiduals(R)
      ensures RowGosa(i, j, n) == RowSq(R, pr, i, j, n)
      decreases n
    {
      if n > 1 {
        RowGosaIs(i, j, n - 1, pr, R);
        assert IsInterior(i, j, n - 1);
      }
    }

    lemma {:induction false} PlaneGosaIs(i: int, n: int, pr: Problem, R: Field)
      requires Valid() && 1 <= i < imax - 1 && n <= jmax - 1
      requires pr.imax == imax && pr.jmax == jmax && pr.kmax == kmax && HoldsResiduals(R)
      ensures PlaneGosa(i, n) == PlaneSq(R, pr, i, n)
      decreases n
    {
      if n > 1 {
        PlaneGosaIs(i, n - 1, pr, R);
        RowGosaIs(i, n - 1, kmax - 1, pr, R);
      }
    }

    lemma {:induction false} BlockGosaIs(n: int, pr: Problem, R: Field)
      requires Valid() && n <= imax - 1
      requires pr.imax == imax && pr.jmax == jmax && pr.kmax == kmax && HoldsResiduals(R)
      ensures BlockGosa(n) == BlockSq(R, pr, n)
      decreases n
    {
      if n > 1 {
        BlockGosaIs(n - 1, pr, R);
        PlaneGosaIs(n - 1, jmax - 1, pr, R);
      }
    }

    /** The innermost loop of the first half of a sweep, for row (i, j): relaxes the interior
        cells of the row into wrk2 and adds their squared residuals to gosa. */
    method RelaxRow(i: int, j: int, g0: real) returns (gosa: real)
      requires Valid() && 1 <= i < imax - 1 && 1 <= j < jmax - 1
      modifies wrk2
      ensures gosa == g0 + RowGosa(i, j, kmax - 1)
      ensures forall x, y, z | x == i && y == j && 1 <= z < kmax - 1 :: wrk2[x, y, z] == CellRelaxed(x, y, z)
      ensures forall x, y, z | IsCell(x, y, z) && !(x == i && y == j && 1 <= z < kmax - 1) ::
        wrk2[x, y, z] == old(wrk2[x, y, z])
    {
      gosa := g0;
      var k := 1;
      while k < kmax - 1
        invariant 1 <= k <= kmax - 1
        invariant gosa == g0 + RowGosa(i, j, k)
        invariant forall x, y, z | x == i && y == j && 1 <= z < k :: wrk2[x, y, z] == CellRelaxed(x, y, z)
        invariant forall x, y, z | IsCell(x, y, z) && !(x == i && y == j && 1 <= z < k) ::
          wrk2[x, y, z] == old(wrk2[x, y, z])
      {
        var ss := CellResidual(i, j, k);
        wrk2[i, j, k] := Update(p[i, j, k], omega, ss);
        gosa := gosa + Square(ss);
        k := k + 1;
      }
    }

    /** The middle loop of the first half of a sweep, for plane i. */
    method RelaxPlane(i: int, g0: real) returns (gosa: real)
      requires Valid() && 1 <= i < imax - 1
      modifies wrk2
      ensures gosa == g0 + PlaneGosa(i, jmax - 1)
      ensures forall x, y, z | x == i && 1 <= y < jmax - 1 && 1 <= z < kmax - 1 :: wrk2[x, y, z] == CellRelaxed(x, y, z)
      ensures forall x, y, z | IsCell(x, y, z) && !(x == i && 1 <= y < jmax - 1 && 1 <= z < kmax - 1) ::
        wrk2[x, y, z] == old(wrk2[x, y, z])
    {
      gosa := g0;
      var j := 1;
      while j < jmax - 1
        invariant 1 <= j <= jmax - 1
        invariant gosa == g0 + PlaneGosa(i, j)
        invariant forall x, y, z | x == i && 1 <= y < j && 1 <= z < kmax - 1 :: wrk2[x, y, z] == CellRelaxed(x, y, z)
        invariant forall x, y, z | IsCell(x, y, z) && !(x == i && 1 <= y < j && 1 <= z < kmax - 1) ::
          wrk2[x, y, z] == old(wrk2[x, y, z])
      {
        gosa := RelaxRow(i, j, gosa);
        j := j + 1;
      }
    }

    /** The outer loop of the first half of a sweep. */
    method RelaxBlock() returns (gosa: real)
      requires Valid()
      modifies wrk2
      ensures gosa == BlockGosa(imax - 1)
      ensures forall x, y, z | IsInterior(x, y, z) :: wrk2[x, y, z] == CellRelaxed(x, y, z)
      ensures forall x, y, z | IsCell(x, y, z) && !IsInterior(x, y, z) :: wrk2[x, y, z] == old(wrk2[x, y, z])
    {
      gosa := 0.0;
      var i := 1;
      while i < imax - 1
        invariant 1 <= i <= imax - 1
        invariant gosa == BlockGosa(i)
        invariant forall x, y, z | IsInterior(x, y, z) && x < i :: wrk2[x, y, z] == CellRelaxed(x, y, z)
        invariant forall x, y, z | IsCell(x, y, z) && !(IsInterior(x, y, z) && x < i) :: wrk2[x, y, z] == old(wrk2[x, y, z])
      {
        gosa := RelaxPlane(i, gosa);
        i := i + 1;
      }
    }

    /** The first half of a sweep of jacobi: for every interior cell, in i, j, k order, compute
        ss from the current pressure, add ss * ss to gosa, and store the relaxed value in wrk2.
        gosa starts from 0, so it is the residual of this sweep alone. */
    method Relax(ghost P: Field, ghost pr: Problem) returns (gosa: real)
      requires Valid() && Current(P, pr)
      modifies wrk2
      ensures gosa == Gosa(P, pr)
      ensures forall i, j, k | IsInterior(i, j, k) :: wrk2[i, j, k] == Relaxed(P, pr, i, j, k)
      ensures forall i, j, k | IsCell(i, j, k) && !IsInterior(i, j, k) :: wrk2[i, j, k] == old(wrk2[i, j, k])
    {
      ResidualsHeld(P, pr);
      BlockGosaIs(imax - 1, pr, Residuals(P, pr));
      RelaxedAll(P, pr);
      gosa := RelaxBlock();
    }

    /** Computed from the arrays, the value stored in wrk2 is the relaxed value of the current
        pressure and coefficients. */
    lemma CellRelaxedIs(i: int, j: int, k: int, P: Field, pr: Problem)
      requires Valid() && IsInterior(i, j, k) && Current(P, pr)
      ensures CellRelaxed(i, j, k) == Relaxed(P, pr, i, j, k)
    {
      CellResidualIs(i, j, k, P, pr);
    }

    lemma RelaxedAll(P: Field, pr: Problem)
      requires Valid() && Current(P, pr)
      ensures forall i, j, k | IsInterior(i, j, k) :: CellRelaxed(i, j, k) == Relaxed(P, pr, i, j, k)
    {
      forall i, j, k | IsInterior(i, j, k) ensures CellRelaxed(i, j, k) == Relaxed(P, pr, i, j, k) {
        CellRelaxedIs(i, j, k, P, pr);
      }
    }

    /** The loop nest of the second half of a sweep: copy wrk2 into p over the interior. */
    method CopyBack()
      requires Valid()
      modifies p
      ensures forall i, j, k | IsInterior(i, j, k) :: p[i, j, k] == wrk2[i, j, k]
      ensures forall i, j, k | IsCell(i, j, k) && !IsInterior(i, j, k) :: p[i, j, k] == old(p[i, j, k])
    {
      var i := 1;
      while i < imax - 1
        invariant 1 <= i <= imax - 1
        invariant forall x, y, z | IsInterior(x, y, z) && x < i :: p[x, y, z] == wrk2[x, y, z]
        invariant forall x, y, z | IsCell(x, y, z) && !(IsInterior(x, y, z) && x < i) :: p[x, y, z] == old(p[x, y, z])
      {
        var j := 1;
        while j < jmax - 1
          invariant 1 <= j <= jmax - 1
          invariant forall x, y, z | IsInterior(x, y, z) && Before(x, y, 1, i, j, 1) :: p[x, y, z] == wrk2[x, y, z]
          invariant forall x, y, z | IsCell(x, y, z) && !(IsInterior(x, y, z) && Before(x, y, 1, i, j, 1)) :: p[x, y, z] == old(p[x, y, z])
        {
          var k := 1;
          while k < kmax - 1
            invariant 1 <= k <= kmax - 1
            invariant forall x, y, z | IsInterior(x, y, z) && Before(x, y, z, i, j, k) :: p[x, y, z] == wrk2[x, y, z]
            invariant forall x, y, z | IsCell(x, y, z) && !(IsInterior(x, y, z) && Before(x, y, z, i, j, k)) :: p[x, y, z] == old(p[x, y, z])
          {
            p[i, j, k] := wrk2[i, j, k];
            k := k + 1;
          }
          j := j + 1;
        }
        i := i + 1;
      }
    }

    /** The second half of a sweep of jacobi. When wrk2 holds the relaxed values of the
        pressure P the sweep started from, p then holds the swept pressure. */
    method Commit(ghost P: Field, ghost pr: Problem)
      requires Valid() && Current(P, pr)
      requires forall i, j, k | IsInterior(i, j, k) :: wrk2[i, j, k] == Relaxed(P, pr, i, j, k)
      modifies p
      ensures Current(Sweep(P, pr), pr)
      ensures forall i, j, k | IsCell(i, j, k) && !IsInterior(i, j, k) :: p[i, j, k] == old(p[i, j, k])
    {
      CopyBack();
      ghost var Q := Sweep(P, pr);
      forall x, y, z | IsCell(x, y, z) ensures Q[x][y][z] == p[x, y, z] {
        if !IsInterior(x, y, z) {
          assert old(p[x, y, z]) == P[x][y][z];
        }
      }
    }

    /** The scratch buffer agrees with the pressure on the interior, as it does once a sweep
        has copied wrk2 back into p. */
    ghost predicate Committed()
      requires Valid()
      reads p, wrk2
    {
      forall i, j, k | IsInterior(i, j, k) :: wrk2[i, j, k] == p[i, j, k]
    }

    /** One pass of the n loop of jacobi: relax from the pressure P into wrk2, then commit. */
    method SweepOnce(ghost P: Field, ghost pr: Problem) returns (gosa: real)
      requires Valid() && Current(P, pr)
      modifies p, wrk2
      ensures Current(Sweep(P, pr), pr)
      ensures gosa == Gosa(P, pr)
      ensures Committed()
      ensures forall i, j, k | IsCell(i, j, k) && !IsInterior(i, j, k) ::
        p[i, j, k] == old(p[i, j, k]) && wrk2[i, j, k] == old(wrk2[i, j, k])
    {
      gosa := Relax(P, pr);
      Commit(P, pr);
    }

    /** Pass n of the n loop of jacobi, on arrays holding the pressure after n sweeps of P0. */
    method Pass(n: nat, ghost P0: Field, ghost pr: Problem) returns (gosa: real)
      requires Valid() && pr.Valid() && pr.Fits(P0) && Current(Iterate(n, P0, pr), pr)
      modifies p, wrk2
      ensures Current(Iterate(n + 1, P0, pr), pr)
      ensures gosa == Gosa(Iterate(n, P0, pr), pr)
      ensures Committed()
      ensures forall i, j, k | IsCell(i, j, k) && !IsInterior(i, j, k) ::
        p[i, j, k] == old(p[i, j, k]) && wrk2[i, j, k] == old(wrk2[i, j, k])
    {
      gosa := SweepOnce(Iterate(n, P0, pr), pr);
      IterateLast(n, P0, pr);
    }

    /** jacobi(nn), for arrays holding the pressure P0 and the coefficients, mask and source pr:
        nn passes of the n loop, each a relaxation into wrk2 from the pressure the pass starts
        from followed by the copy back into p. The arrays end holding nn point-Jacobi sweeps of
        P0 and still holding pr, so the coefficients, mask and source are not written; the
        returned gosa is that of the last sweep alone, measured on the pressure the last sweep
        started from; and the outermost layer of p and wrk2 is never written. */
    method Jacobi(nn: int, ghost P0: Field, ghost pr: Problem) returns (gosa: real)
      requires Valid() && nn >= 1 && Current(P0, pr)
      modifies p, wrk2
      ensures Current(Iterate(nn, P0, pr), pr)
      ensures gosa == Gosa(Iterate(nn - 1, P0, pr), pr)
      ensures Committed()
      ensures forall i, j, k | IsCell(i, j, k) && !IsInterior(i, j, k) ::
        p[i, j, k] == old(p[i, j, k]) && wrk2[i, j, k] == old(wrk2[i, j, k])
    {
      gosa := 0.0;
      var n := 0;
      while n < nn
        invariant 0 <= n <= nn
        invariant Current(Iterate(n, P0, pr), pr)
        invariant n >= 1 ==> gosa == Gosa(Iterate(n - 1, P0, pr), pr)
        invariant n >= 1 ==> Committed()
        invariant forall i, j, k | IsCell(i, j, k) && !IsInterior(i, j, k) ::
          p[i, j, k] == old(p[i, j, k]) && wrk2[i, j, k] == old(wrk2[i, j, k])
      {
        gosa := Pass(n, P0, pr);
        n := n + 1;
      }
    }
  }

  /** The first part of main: set omega and the extents imax = MIMAX-1, jmax = MJMAX-1,
      kmax = MKMAX-1 of the preset on the zero-filled static arrays, then seed them with initmt.
      P and pr are the seeded pressure and coefficients; the outermost layer of P keeps its
      static zero. */
  method Setup(s: Preset) returns (g: Grid, ghost P: Field, ghost pr: Problem)
    ensures fresh(g) && fresh(g.p) && fresh(g.wrk2) && g.Valid() && g.Current(P, pr)
    ensures (pr.imax + 1, pr.jmax + 1, pr.kmax + 1) == Extents(s) && pr.omega == 0.8
    ensures Initialized(P, pr)
    ensures forall i, j, k | pr.IsCell(i, j, k) && !pr.InBox(i, j, k) :: P[i][j][k] == 0.0
  {
    var (mimax, mjmax, mkmax) := Extents(s);
    g := new Grid(mimax, mjmax, mkmax);
    P, pr := g.Initmt();
    forall i, j, k | pr.IsCell(i, j, k) && !pr.InBox(i, j, k) ensures P[i][j][k] == 0.0 {
      assert g.IsCell(i, j, k) && !g.InBox(i, j, k);
    }
  }

  /** main: seed the arrays, run jacobi(NN), and count the operations of one sweep in int
      arithmetic. P and pr are the seeded pressure and coefficients: P is 0 on the outermost
      layer, which no sweep writes. The loop count main reports is NN, the arrays end holding
      NN sweeps of P, and gosa is the residual of the last sweep. */
  method Run(s: Preset) returns (g: Grid, gosa: real, nflop: Option<int>, nflopWide: Option<int>, loops: int,
                                 ghost P: Field, ghost pr: Problem)
    ensures fresh(g) && g.Valid() && loops == NN && pr.Valid() && pr.Fits(P)
    ensures (pr.imax + 1, pr.jmax + 1, pr.kmax + 1) == Extents(s) && pr.omega == 0.8
    ensures Initialized(P, pr)
    ensures forall i, j, k | pr.IsCell(i, j, k) && !pr.InBox(i, j, k) :: P[i][j][k] == 0.0
    ensures g.Current(Iterate(loops, P, pr), pr)
    ensures gosa == Gosa(Iterate(loops - 1, P, pr), pr)
    ensures nflop == NFlop(pr.imax, pr.jmax, pr.kmax)
    ensures nflop.Some? <==> s != ExtLarge
    ensures nflop.Some? ==> nflop.value == Work(pr.imax, pr.jmax, pr.kmax)
    ensures nflopWide == Some(Work(pr.imax, pr.jmax, pr.kmax))
  {
    g, P, pr := Setup(s);
    loops := NN;
    gosa := g.Jacobi(loops, P, pr);
    PresetCount(s, g.imax, g.jmax, g.kmax);
    nflop := NFlop(g.imax, g.jmax, g.kmax);
    PresetCountWide(s, g.imax, g.jmax, g.kmax);
    nflopWide := NFlopWide(g.imax, g.jmax, g.kmax);
  }
}
