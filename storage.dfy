/** How the benchmark's static arrays are laid out, and what it means for them to hold the
    values the model computes with. */
module Storage {
  import opened Fields
  import opened Kernel

  /** A scalar array covering the whole (imax+1) x (jmax+1) x (kmax+1) grid, that is
      MIMAX x MJMAX x MKMAX. */
  predicate Spans(x: array3<real>, imax: int, jmax: int, kmax: int) {
    x.Length0 == imax + 1 && x.Length1 == jmax + 1 && x.Length2 == kmax + 1
  }

  /** A vector array over the same grid with n components per cell. */
  predicate SpansVec(x: array4<real>, imax: int, jmax: int, kmax: int, n: int) {
    x.Length0 == imax + 1 && x.Length1 == jmax + 1 && x.Length2 == kmax + 1 && x.Length3 == n
  }

  /** The seven static arrays: every extent at least 2, each array covering the grid, and no two
      of them the same storage. */
  predicate Layout(imax: int, jmax: int, kmax: int, p: array3<real>, a: array4<real>, b: array4<real>,
                   c: array4<real>, bnd: array3<real>, wrk1: array3<real>, wrk2: array3<real>)
  {
    && imax >= 2 && jmax >= 2 && kmax >= 2
    && Spans(p, imax, jmax, kmax) && Spans(bnd, imax, jmax, kmax)
    && Spans(wrk1, imax, jmax, kmax) && Spans(wrk2, imax, jmax, kmax)
    && SpansVec(a, imax, jmax, kmax, 4) && SpansVec(b, imax, jmax, kmax, 3) && SpansVec(c, imax, jmax, kmax, 3)
    && p != bnd && p != wrk1 && p != wrk2 && bnd != wrk1 && bnd != wrk2 && wrk1 != wrk2
    && a != b && a != c && b != c
  }

  /** The arrays hold the pressure P and the coefficients, mask and source of pr. */
  ghost predicate Stored(P: Field, pr: Problem, p: array3<real>, a: array4<real>, b: array4<real>,
                         c: array4<real>, bnd: array3<real>, wrk1: array3<real>)
    reads p, a, b, c, bnd, wrk1
  {
    && Mirrors(P, p) && MirrorsVec(pr.a, a) && MirrorsVec(pr.b, b) && MirrorsVec(pr.c, c)
    && Mirrors(pr.bnd, bnd) && Mirrors(pr.wrk1, wrk1)
  }
}
