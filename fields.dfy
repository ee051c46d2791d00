/** Values of the benchmark's 3-D fields and the link between them and the arrays that store them.
    A scalar field `double x[MIMAX][MJMAX][MKMAX]` is seen as a `Field`, indexed `f[i][j][k]`;
    a vector field `double x[MIMAX][MJMAX][MKMAX][n]` as a `VecField`, indexed `v[i][j][k][l]`. */
module Fields {

  type Field = seq<seq<seq<real>>>
  type VecField = seq<seq<seq<seq<real>>>>

  /** (i, j, k) addresses a cell of an n0 x n1 x n2 grid. */
  predicate InGrid(n0: int, n1: int, n2: int, i: int, j: int, k: int) {
    0 <= i < n0 && 0 <= j < n1 && 0 <= k < n2
  }

  /** The strict interior swept by the solver: 1 <= i < imax-1, and likewise for j and k. */
  predicate Interior(imax: int, jmax: int, kmax: int, i: int, j: int, k: int) {
    1 <= i < imax - 1 && 1 <= j < jmax - 1 && 1 <= k < kmax - 1
  }

  /** (x, y, z) comes before (i, j, k) in the order of the nested i, j, k loops. */
  predicate Before(x: int, y: int, z: int, i: int, j: int, k: int) {
    x < i || (x == i && (y < j || (y == j && z < k)))
  }

  ghost predicate Shaped(f: Field, n0: int, n1: int, n2: int) {
    && |f| == n0
    && (forall i | 0 <= i < n0 :: |f[i]| == n1)
    && (forall i, j | 0 <= i < n0 && 0 <= j < n1 :: |f[i][j]| == n2)
  }

  ghost predicate ShapedVec(v: VecField, n0: int, n1: int, n2: int, n3: int) {
    && |v| == n0
    && (forall i | 0 <= i < n0 :: |v[i]| == n1)
    && (forall i, j | 0 <= i < n0 && 0 <= j < n1 :: |v[i][j]| == n2)
    && (forall i, j, k | InGrid(n0, n1, n2, i, j, k) :: |v[i][j][k]| == n3)
  }

  /** f is the value held by the scalar array x. */
  ghost predicate Mirrors(f: Field, x: array3<real>)
    reads x
  {
    && Shaped(f, x.Length0, x.Length1, x.Length2)
    && forall i, j, k | InGrid(x.Length0, x.Length1, x.Length2, i, j, k) :: f[i][j][k] == x[i, j, k]
  }

  /** v is the value held by the vector array x. */
  ghost predicate MirrorsVec(v: VecField, x: array4<real>)
    reads x
  {
    && ShapedVec(v, x.Length0, x.Length1, x.Length2, x.Length3)
    && forall i, j, k, l | InGrid(x.Length0, x.Length1, x.Length2, i, j, k) && 0 <= l < x.Length3 ::
      v[i][j][k][l] == x[i, j, k, l]
  }

  /** The value currently held by a scalar array. */
  ghost function Snap(x: array3<real>): (f: Field)
    reads x
    ensures Shaped(f, x.Length0, x.Length1, x.Length2)
    ensures forall i, j, k | InGrid(x.Length0, x.Length1, x.Length2, i, j, k) :: f[i][j][k] == x[i, j, k]
  {
    seq(x.Length0, i requires 0 <= i < x.Length0 reads x =>
      seq(x.Length1, j requires 0 <= j < x.Length1 reads x =>
        seq(x.Length2, k requires 0 <= k < x.Length2 reads x => x[i, j, k])))
  }

  /** The value currently held by a vector array. */
  ghost function SnapVec(x: array4<real>): (v: VecField)
    reads x
    ensures ShapedVec(v, x.Length0, x.Length1, x.Length2, x.Length3)
    ensures forall i, j, k, l | InGrid(x.Length0, x.Length1, x.Length2, i, j, k) && 0 <= l < x.Length3 ::
      v[i][j][k][l] == x[i, j, k, l]
  {
    seq(x.Length0, i requires 0 <= i < x.Length0 reads x =>
      seq(x.Length1, j requires 0 <= j < x.Length1 reads x =>
        seq(x.Length2, k requires 0 <= k < x.Length2 reads x =>
          seq(x.Length3, l requires 0 <= l < x.Length3 reads x => x[i, j, k, l]))))
  }

  /** Two fields of the same shape that agree cell by cell are the same field. */
  lemma FieldsEqual(f: Field, g: Field, n0: int, n1: int, n2: int)
    requires Shaped(f, n0, n1, n2) && Shaped(g, n0, n1, n2)
    requires forall i, j, k | InGrid(n0, n1, n2, i, j, k) :: f[i][j][k] == g[i][j][k]
    ensures f == g
  {
    forall i | 0 <= i < n0 ensures f[i] == g[i] {
      forall j | 0 <= j < n1 ensures f[i][j] == g[i][j] {
        assert forall k | 0 <= k < n2 :: f[i][j][k] == g[i][j][k];
      }
    }
  }
}
