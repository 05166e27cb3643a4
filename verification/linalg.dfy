/**
 * Real linear algebra over the 6-dimensional phase space (x, px, y, py, tau, delta).
 * Matrices are row sequences; all products are exact over `real`.
 */
module LinAlg {

  type Vector = seq<real>
  type Matrix = seq<seq<real>>

  /** Dimension of the phase space. */
  const Dim: nat := 6

  /** `m` has `r` rows of `c` entries each. */
  predicate IsMatrix(m: Matrix, r: nat, c: nat) {
    |m| == r && forall i | 0 <= i < r :: |m[i]| == c
  }

  type Vec6 = v: Vector | |v| == Dim witness [0.0, 0.0, 0.0, 0.0, 0.0, 0.0]
  type Mat6 = m: Matrix | IsMatrix(m, Dim, Dim) witness Eye(6)

  /** Scalar product, summed from the last index down. */
  function Dot(a: Vector, b: Vector): real
    requires |a| == |b|
    decreases |a|
  {
    if |a| == 0 then 0.0 else Dot(a[..|a| - 1], b[..|b| - 1]) + a[|a| - 1] * b[|b| - 1]
  }

  /** Column `j` of `m`. */
  function Col(m: Matrix, j: nat): (c: Vector)
    requires forall i | 0 <= i < |m| :: j < |m[i]|
    ensures |c| == |m| && forall i | 0 <= i < |m| :: c[i] == m[i][j]
  {
    seq(|m|, i requires 0 <= i < |m| => m[i][j])
  }

  /** Row vector `a` times matrix `m` (which has |a| rows of `cols` entries). */
  function RowTimes(a: Vector, m: Matrix, cols: nat): (r: Vector)
    requires IsMatrix(m, |a|, cols)
    ensures |r| == cols
  {
    seq(cols, j requires 0 <= j < cols => Dot(a, Col(m, j)))
  }

  function MatMul(a: Matrix, b: Matrix): (c: Matrix)
    requires |a| > 0 ==> IsMatrix(a, |a|, |b|)
    requires |b| > 0 ==> IsMatrix(b, |b|, |b[0]|)
    ensures |c| == |a|
  {
    var cols := if |b| == 0 then 0 else |b[0]|;
    seq(|a|, i requires 0 <= i < |a| => RowTimes(a[i], b, cols))
  }

  function MatVec(a: Matrix, v: Vector): (r: Vector)
    requires forall i | 0 <= i < |a| :: |a[i]| == |v|
    ensures |r| == |a|
  {
    seq(|a|, i requires 0 <= i < |a| => Dot(a[i], v))
  }

  function VecAdd(u: Vector, v: Vector): (r: Vector)
    requires |u| == |v|
    ensures |r| == |u|
  {
    seq(|u|, i requires 0 <= i < |u| => u[i] + v[i])
  }

  function VecSub(u: Vector, v: Vector): (r: Vector)
    requires |u| == |v|
    ensures |r| == |u|
  {
    seq(|u|, i requires 0 <= i < |u| => u[i] - v[i])
  }

  function Scale(c: real, v: Vector): (r: Vector)
    ensures |r| == |v|
  {
    seq(|v|, i requires 0 <= i < |v| => c * v[i])
  }

  function Zeros(n: nat): (r: Vector)
    ensures |r| == n && forall i | 0 <= i < n :: r[i] == 0.0
  {
    seq(n, i => 0.0)
  }

  function Eye(n: nat): (m: Matrix)
    ensures IsMatrix(m, n, n)
    ensures forall i, j | 0 <= i < n && 0 <= j < n :: m[i][j] == if i == j then 1.0 else 0.0
  {
    seq(n, i => seq(n, j => if i == j then 1.0 else 0.0))
  }

  function MatSub(a: Matrix, b: Matrix): (c: Matrix)
    requires |a| == |b| && forall i | 0 <= i < |a| :: |a[i]| == |b[i]|
    ensures |c| == |a| && forall i | 0 <= i < |a| :: |c[i]| == |a[i]|
  {
    seq(|a|, i requires 0 <= i < |a| => VecSub(a[i], b[i]))
  }

  /** Matrix product of two 6x6 matrices, as a 6x6 matrix. */
  function Mul6(a: Mat6, b: Mat6): (c: Mat6)
  {
    MatMul(a, b)
  }

  /** Matrix-vector product in the 6-dimensional phase space. */
  function Apply6(a: Mat6, v: Vec6): (r: Vec6)
  {
    MatVec(a, v)
  }

  /** Affine map x -> a.x + b. */
  function Affine6(a: Mat6, b: Vec6, v: Vec6): (r: Vec6)
  {
    VecAdd(MatVec(a, v), b)
  }

  // ---------------------------------------------------------------------------
  // Scalar-product lemmas

  lemma {:induction false} DotAddLeft(p: Vector, q: Vector, v: Vector)
    requires |p| == |q| == |v|
    ensures Dot(VecAdd(p, q), v) == Dot(p, v) + Dot(q, v)
  {
    if |p| > 0 {
      var n := |p| - 1;
      assert VecAdd(p, q)[..n] == VecAdd(p[..n], q[..n]);
      DotAddLeft(p[..n], q[..n], v[..n]);
    }
  }

  lemma {:induction false} DotAddRight(a: Vector, u: Vector, v: Vector)
    requires |a| == |u| == |v|
    ensures Dot(a, VecAdd(u, v)) == Dot(a, u) + Dot(a, v)
  {
    if |a| > 0 {
      var n := |a| - 1;
      assert VecAdd(u, v)[..n] == VecAdd(u[..n], v[..n]);
      DotAddRight(a[..n], u[..n], v[..n]);
    }
  }

  lemma {:induction false} DotSubRight(a: Vector, u: Vector, v: Vector)
    requires |a| == |u| == |v|
    ensures Dot(a, VecSub(u, v)) == Dot(a, u) - Dot(a, v)
  {
    if |a| > 0 {
      var n := |a| - 1;
      assert VecSub(u, v)[..n] == VecSub(u[..n], v[..n]);
      DotSubRight(a[..n], u[..n], v[..n]);
    }
  }

  lemma {:induction false} DotSubLeft(p: Vector, q: Vector, v: Vector)
    requires |p| == |q| == |v|
    ensures Dot(VecSub(p, q), v) == Dot(p, v) - Dot(q, v)
  {
    if |p| > 0 {
      var n := |p| - 1;
      assert VecSub(p, q)[..n] == VecSub(p[..n], q[..n]);
      DotSubLeft(p[..n], q[..n], v[..n]);
    }
  }

  lemma {:induction false} DotScaleLeft(c: real, r: Vector, v: Vector)
    requires |r| == |v|
    ensures Dot(Scale(c, r), v) == c * Dot(r, v)
  {
    if |r| > 0 {
      var n := |r| - 1;
      forall k | 0 <= k < n
        ensures Scale(c, r)[..n][k] == Scale(c, r[..n])[k]
      {
      }
      assert Scale(c, r)[..n] == Scale(c, r[..n]);
      DotScaleLeft(c, r[..n], v[..n]);
      calc {
        Dot(Scale(c, r), v);
        Dot(Scale(c, r[..n]), v[..n]) + (c * r[n]) * v[n];
        c * Dot(r[..n], v[..n]) + c * (r[n] * v[n]);
        c * (Dot(r[..n], v[..n]) + r[n] * v[n]);
      }
    }
  }

  lemma {:induction false} DotZerosLeft(v: Vector)
    ensures Dot(Zeros(|v|), v) == 0.0
  {
    if |v| > 0 {
      assert Zeros(|v|)[..|v| - 1] == Zeros(|v| - 1);
      DotZerosLeft(v[..|v| - 1]);
    }
  }

  lemma {:induction false} DotZerosRight(a: Vector)
    ensures Dot(a, Zeros(|a|)) == 0.0
  {
    if |a| > 0 {
      assert Zeros(|a|)[..|a| - 1] == Zeros(|a| - 1);
      DotZerosRight(a[..|a| - 1]);
    }
  }

  /** The scalar product splits into the product of the leading parts and that of the last entries. */
  lemma DotLast(a: Vector, b: Vector, head: real, tail: real)
    requires |a| == |b| > 0
    requires Dot(a[..|a| - 1], b[..|b| - 1]) == head && b[|b| - 1] == tail
    ensures Dot(a, b) == head + a[|a| - 1] * tail
  {
  }

  /** The scalar product with p + c.q, by linearity in the left factor. */
  lemma {:induction false} DotAddScaled(r: Vector, p: Vector, c: real, q: Vector, v: Vector)
    requires |p| == |q| == |v| && r == VecAdd(p, Scale(c, q))
    ensures Dot(r, v) == Dot(p, v) + c * Dot(q, v)
  {
    DotAddLeft(p, Scale(c, q), v);
    DotScaleLeft(c, q, v);
  }

  /** The scalar product with the i-th unit vector picks coordinate i. */
  lemma {:induction false} DotUnitLeft(u: Vector, i: nat, v: Vector)
    requires |u| == |v| && i < |u|
    requires forall k | 0 <= k < |u| :: u[k] == if k == i then 1.0 else 0.0
    ensures Dot(u, v) == v[i]
  {
    var n := |u| - 1;
    if i < n {
      DotUnitLeft(u[..n], i, v[..n]);
    } else {
      assert forall k | 0 <= k < n :: u[..n][k] == 0.0;
      assert u[..n] == Zeros(n);
      DotZerosLeft(v[..n]);
    }
  }

  lemma {:induction false} DotUnitRight(a: Vector, i: nat, u: Vector)
    requires |u| == |a| && i < |u|
    requires forall k | 0 <= k < |u| :: u[k] == if k == i then 1.0 else 0.0
    ensures Dot(a, u) == a[i]
  {
    var n := |u| - 1;
    if i < n {
      DotUnitRight(a[..n], i, u[..n]);
    } else {
      assert forall k | 0 <= k < n :: u[..n][k] == 0.0;
      assert u[..n] == Zeros(n);
      DotZerosRight(a[..n]);
    }
  }

  // ---------------------------------------------------------------------------
  // The exchange of summation order behind every associativity law

  /** Peeling the last row off a row-times-matrix product. */
  lemma RowTimesSplit(a: Vector, m: Matrix, cols: nat)
    requires |a| > 0 && IsMatrix(m, |a|, cols)
    ensures RowTimes(a, m, cols)
         == VecAdd(RowTimes(a[..|a| - 1], m[..|a| - 1], cols), Scale(a[|a| - 1], m[|a| - 1]))
  {
    var n := |a| - 1;
    forall j | 0 <= j < cols
      ensures RowTimes(a, m, cols)[j]
           == VecAdd(RowTimes(a[..n], m[..n], cols), Scale(a[n], m[n]))[j]
    {
      assert Col(m, j)[..n] == Col(m[..n], j);
    }
  }

  /** (a.m).v == a.(m.v): a row vector times a matrix, then dotted with v. */
  lemma {:induction false} RowTimesDot(a: Vector, m: Matrix, v: Vector)
    requires IsMatrix(m, |a|, |v|)
    ensures Dot(RowTimes(a, m, |v|), v) == Dot(a, MatVec(m, v))
  {
    var cols := |v|;
    if |a| == 0 {
      assert RowTimes(a, m, cols) == Zeros(cols);
      DotZerosLeft(v);
    } else {
      var n := |a| - 1;
      RowTimesDot(a[..n], m[..n], v);
      RowTimesDotStep(a, m, v);
    }
  }

  /** The inductive step of RowTimesDot: the law for all rows but the last gives it for all rows. */
  lemma {:induction false} RowTimesDotStep(a: Vector, m: Matrix, v: Vector)
    requires |a| > 0 && IsMatrix(m, |a|, |v|)
    requires Dot(RowTimes(a[..|a| - 1], m[..|a| - 1], |v|), v) == Dot(a[..|a| - 1], MatVec(m[..|a| - 1], v))
    ensures Dot(RowTimes(a, m, |v|), v) == Dot(a, MatVec(m, v))
  {
    var n := |a| - 1;
    var left := RowTimes(a[..n], m[..n], |v|);
    var mv := MatVec(m, v);
    RowTimesSplit(a, m, |v|);
    DotAddScaled(RowTimes(a, m, |v|), left, a[n], m[n], v);
    assert mv[..n] == MatVec(m[..n], v);
    DotLast(a, mv, Dot(left, v), Dot(m[n], v));
  }

  lemma MatVecMatMul(a: Matrix, b: Matrix, v: Vector)
    requires |b| > 0 && IsMatrix(a, |a|, |b|) && IsMatrix(b, |b|, |v|)
    ensures MatVec(MatMul(a, b), v) == MatVec(a, MatVec(b, v))
  {
    forall i | 0 <= i < |a|
      ensures MatVec(MatMul(a, b), v)[i] == MatVec(a, MatVec(b, v))[i]
    {
      RowTimesDot(a[i], b, v);
    }
  }

  lemma MatMulAssoc(a: Matrix, b: Matrix, c: Matrix)
    requires |b| > 0 && |c| > 0
    requires IsMatrix(a, |a|, |b|) && IsMatrix(b, |b|, |c|) && IsMatrix(c, |c|, |c[0]|)
    ensures MatMul(MatMul(a, b), c) == MatMul(a, MatMul(b, c))
  {
    var cols := |c[0]|;
    var bc := MatMul(b, c);
    forall i | 0 <= i < |a|
      ensures MatMul(MatMul(a, b), c)[i] == MatMul(a, bc)[i]
    {
      forall l | 0 <= l < cols
        ensures MatMul(MatMul(a, b), c)[i][l] == MatMul(a, bc)[i][l]
      {
        assert Col(bc, l) == MatVec(b, Col(c, l));
        RowTimesDot(a[i], b, Col(c, l));
      }
    }
  }

  lemma MatMulEyeLeft(m: Matrix, n: nat)
    requires n > 0 && IsMatrix(m, n, n)
    ensures MatMul(Eye(n), m) == m
  {
    forall i | 0 <= i < n
      ensures MatMul(Eye(n), m)[i] == m[i]
    {
      forall j | 0 <= j < n
        ensures MatMul(Eye(n), m)[i][j] == m[i][j]
      {
        DotUnitLeft(Eye(n)[i], i, Col(m, j));
      }
    }
  }

  lemma MatMulEyeRight(m: Matrix, n: nat)
    requires n > 0 && IsMatrix(m, n, n)
    ensures MatMul(m, Eye(n)) == m
  {
    forall i | 0 <= i < n
      ensures MatMul(m, Eye(n))[i] == m[i]
    {
      forall j | 0 <= j < n
        ensures MatMul(m, Eye(n))[i][j] == m[i][j]
      {
        DotUnitRight(m[i], j, Col(Eye(n), j));
      }
    }
  }

  lemma MatVecEye(v: Vector)
    ensures MatVec(Eye(|v|), v) == v
  {
    forall i | 0 <= i < |v|
      ensures MatVec(Eye(|v|), v)[i] == v[i]
    {
      DotUnitLeft(Eye(|v|)[i], i, v);
    }
  }

  lemma MatVecZeros(a: Matrix, n: nat)
    requires forall i | 0 <= i < |a| :: |a[i]| == n
    ensures MatVec(a, Zeros(n)) == Zeros(|a|)
  {
    forall i | 0 <= i < |a|
      ensures MatVec(a, Zeros(n))[i] == 0.0
    {
      DotZerosRight(a[i]);
    }
  }

  lemma MatVecAdd(a: Matrix, u: Vector, v: Vector)
    requires |u| == |v| && forall i | 0 <= i < |a| :: |a[i]| == |u|
    ensures MatVec(a, VecAdd(u, v)) == VecAdd(MatVec(a, u), MatVec(a, v))
  {
    forall i | 0 <= i < |a|
      ensures MatVec(a, VecAdd(u, v))[i] == VecAdd(MatVec(a, u), MatVec(a, v))[i]
    {
      DotAddRight(a[i], u, v);
    }
  }

  lemma MatVecSub(a: Matrix, u: Vector, v: Vector)
    requires |u| == |v| && forall i | 0 <= i < |a| :: |a[i]| == |u|
    ensures MatVec(a, VecSub(u, v)) == VecSub(MatVec(a, u), MatVec(a, v))
  {
    forall i | 0 <= i < |a|
      ensures MatVec(a, VecSub(u, v))[i] == VecSub(MatVec(a, u), MatVec(a, v))[i]
    {
      DotSubRight(a[i], u, v);
    }
  }

  /** (I - R).d == d - R.d */
  lemma MatSubVec(a: Matrix, b: Matrix, v: Vector)
    requires |a| == |b| && forall i | 0 <= i < |a| :: |a[i]| == |b[i]| == |v|
    ensures MatVec(MatSub(a, b), v) == VecSub(MatVec(a, v), MatVec(b, v))
  {
    forall i | 0 <= i < |a|
      ensures MatVec(MatSub(a, b), v)[i] == VecSub(MatVec(a, v), MatVec(b, v))[i]
    {
      DotSubLeft(a[i], b[i], v);
    }
  }

  /** A six-term scalar product written out. */
  lemma Dot6(a: Vector, b: Vector)
    requires |a| == 6 && |b| == 6
    ensures Dot(a, b) == a[0] * b[0] + a[1] * b[1] + a[2] * b[2] + a[3] * b[3] + a[4] * b[4] + a[5] * b[5]
  {
    assert a[..1][..0] == [] && b[..1][..0] == [];
    assert Dot(a[..1], b[..1]) == a[0] * b[0];
    assert a[..2][..1] == a[..1] && b[..2][..1] == b[..1];
    assert Dot(a[..2], b[..2]) == Dot(a[..1], b[..1]) + a[1] * b[1];
    assert a[..3][..2] == a[..2] && b[..3][..2] == b[..2];
    assert Dot(a[..3], b[..3]) == Dot(a[..2], b[..2]) + a[2] * b[2];
    assert a[..4][..3] == a[..3] && b[..4][..3] == b[..3];
    assert Dot(a[..4], b[..4]) == Dot(a[..3], b[..3]) + a[3] * b[3];
    assert a[..5][..4] == a[..4] && b[..5][..4] == b[..4];
    assert Dot(a[..5], b[..5]) == Dot(a[..4], b[..4]) + a[4] * b[4];
    assert a[..5] == a[..|a| - 1] && b[..5] == b[..|b| - 1];
  }
}
