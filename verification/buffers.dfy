/**
 * In-place updates of flat particle buffers (cpbd/optics.py).
 *
 * A buffer holds six coordinates per particle, x, px, y, py, tau, p, one
 * particle after another. Every update here acts on each complete block of six
 * on its own, so each is specified by a block map `f : Vec6 -> Vec6` through
 * `Blockwise(u, f)`, and each method is shown to leave exactly that in the array.
 */
module ParticleBuffers {
  import opened LinAlg
  import opened MathLib

  /** Particle i of a buffer. */
  function Block(u: seq<real>, i: nat): Vec6
    requires 6 * i + 6 <= |u|
  {
    u[6 * i .. 6 * i + 6]
  }

  /** f applied to every complete block of six; an incomplete tail is kept. */
  function Blockwise(u: seq<real>, f: Vec6 -> Vec6): (r: seq<real>)
    ensures |r| == |u|
    decreases |u|
  {
    if |u| < 6 then u else f(u[..6]) + Blockwise(u[6..], f)
  }

  lemma {:induction false} BlockwiseAppend(a: seq<real>, b: seq<real>, f: Vec6 -> Vec6)
    requires |a| % 6 == 0
    ensures Blockwise(a + b, f) == Blockwise(a, f) + Blockwise(b, f)
    decreases |a|
  {
    if |a| == 0 {
      assert a + b == b;
    } else {
      assert (a + b)[..6] == a[..6];
      assert (a + b)[6..] == a[6..] + b;
      BlockwiseAppend(a[6..], b, f);
    }
  }

  /** Every particle of the result is f of the same particle of the input. */
  lemma {:induction false} BlockwiseBlock(u: seq<real>, f: Vec6 -> Vec6, i: nat)
    requires 6 * i + 6 <= |u|
    ensures Block(Blockwise(u, f), i) == f(Block(u, i))
    decreases i
  {
    if i > 0 {
      BlockwiseBlock(u[6..], f, i - 1);
      assert Block(u[6..], i - 1) == Block(u, i);
      assert Blockwise(u, f) == f(u[..6]) + Blockwise(u[6..], f);
      assert Block(Blockwise(u, f), i) == Block(Blockwise(u[6..], f), i - 1);
    }
  }

  /** The coordinates after the last complete particle are left as they were. */
  lemma {:induction false} BlockwiseTail(u: seq<real>, f: Vec6 -> Vec6)
    ensures Blockwise(u, f)[|u| / 6 * 6 ..] == u[|u| / 6 * 6 ..]
    decreases |u|
  {
    if |u| >= 6 {
      BlockwiseTail(u[6..], f);
      assert |u[6..]| / 6 * 6 + 6 == |u| / 6 * 6;
    }
  }

  /** Mapping by f and then by g is mapping by their composition h. */
  lemma {:induction false} BlockwiseThen(u: seq<real>, f: Vec6 -> Vec6, g: Vec6 -> Vec6, h: Vec6 -> Vec6)
    requires forall p: Vec6 :: h(p) == g(f(p))
    ensures Blockwise(Blockwise(u, f), g) == Blockwise(u, h)
    decreases |u|
  {
    if |u| >= 6 {
      BlockwiseThen(u[6..], f, g, h);
      var w := Blockwise(u, f);
      assert w[..6] == f(u[..6]) && w[6..] == Blockwise(u[6..], f);
    }
  }

  /** A block map that keeps every particle keeps the whole buffer. */
  lemma {:induction false} BlockwiseKeep(u: seq<real>, f: Vec6 -> Vec6)
    requires forall p: Vec6 :: f(p) == p
    ensures Blockwise(u, f) == u
    decreases |u|
  {
    if |u| >= 6 {
      BlockwiseKeep(u[6..], f);
      assert u == u[..6] + u[6..];
    }
  }

  /** Undoing: if g inverts f on every particle, g after f gives the buffer back. */
  lemma BlockwiseUndo(u: seq<real>, f: Vec6 -> Vec6, g: Vec6 -> Vec6)
    requires forall p: Vec6 :: g(f(p)) == p
    ensures Blockwise(Blockwise(u, f), g) == u
  {
    var h: Vec6 -> Vec6 := p => p;
    BlockwiseThen(u, f, g, h);
    BlockwiseKeep(u, h);
  }

  /** Coordinate k of particle i after a block map. */
  lemma BlockwiseAt(u: seq<real>, f: Vec6 -> Vec6, i: nat, k: nat)
    requires 6 * i + 6 <= |u| && k < 6
    ensures Blockwise(u, f)[6 * i + k] == f(Block(u, i))[k]
  {
    BlockwiseBlock(u, f, i);
    assert Block(Blockwise(u, f), i)[k] == Blockwise(u, f)[6 * i + k];
  }

  /** The loop `for i in range(n/6)` rewriting X[6i:6i+6] from its old value. */
  method ApplyPerParticle(u: array<real>, f: Vec6 -> Vec6)
    modifies u
    ensures u[..] == Blockwise(old(u[..]), f)
  {
    ghost var u0 := u[..];
    var i := 0;
    while i < u.Length / 6
      invariant 0 <= i <= u.Length / 6 && u.Length == |u0|
      invariant u[..6 * i] == Blockwise(u0[..6 * i], f)
      invariant u[6 * i..] == u0[6 * i..]
    {
      ghost var before := u[..];
      var p := u[6 * i .. 6 * i + 6];
      assert p == u0[6 * i .. 6 * i + 6] by {
        assert p == u[6 * i..][..6];
      }
      var q := f(p);
      forall k | 0 <= k < 6 {
        u[6 * i + k] := q[k];
      }
      assert u[..6 * i] == before[..6 * i];
      assert u[6 * i .. 6 * i + 6] == q;
      assert u[6 * i + 6..] == before[6 * i + 6..];
      BlockwiseAppend(u0[..6 * i], u0[6 * i .. 6 * i + 6], f);
      assert u0[..6 * i] + u0[6 * i .. 6 * i + 6] == u0[..6 * i + 6];
      ghost var b := u0[6 * i .. 6 * i + 6];
      assert b[..6] == b && b[6..] == [];
      assert Blockwise(b, f) == q + Blockwise([], f);
      assert u[..6 * i + 6] == u[..6 * i] + u[6 * i .. 6 * i + 6];
      assert u[6 * i + 6..] == u0[6 * i + 6..] by {
        assert before[6 * i + 6..] == before[6 * i..][6..];
        assert u0[6 * i + 6..] == u0[6 * i..][6..];
      }
      i := i + 1;
    }
    assert u0 == u0[..6 * i] + u0[6 * i..];
    assert |u0[6 * i..]| < 6;
    BlockwiseAppend(u0[..6 * i], u0[6 * i..], f);
    assert Blockwise(u0[6 * i..], f) == u0[6 * i..];
    assert u[..] == u[..6 * i] + u[6 * i..];
  }

  // ---------------------------------------------------------------------------
  // Rotation about the beam axis and the misalignment transforms

  /** rot_mtx(angle) written with c = cos(angle), s = sin(angle). */
  function RotCS(c: real, s: real): Mat6
  {
    [[c, 0.0, s, 0.0, 0.0, 0.0],
     [0.0, c, 0.0, s, 0.0, 0.0],
     [-s, 0.0, c, 0.0, 0.0, 0.0],
     [0.0, -s, 0.0, c, 0.0, 0.0],
     [0.0, 0.0, 0.0, 0.0, 1.0, 0.0],
     [0.0, 0.0, 0.0, 0.0, 0.0, 1.0]]
  }

  function RotMtx(lib: Lib, angle: real): Mat6
  {
    RotCS(lib.cos(angle), lib.sin(angle))
  }

  /** The rotation turns (x, px) and (y, py) together by the angle with cosine c and sine s. */
  function Rotate(c: real, s: real, q: Vec6): Vec6
  {
    [c * q[0] + s * q[2], c * q[1] + s * q[3], -s * q[0] + c * q[2], -s * q[1] + c * q[3], q[4], q[5]]
  }

  /** Multiplying by rot_mtx is the rotation above. */
  lemma RotApply(c: real, s: real, q: Vec6)
    ensures Apply6(RotCS(c, s), q) == Rotate(c, s, q)
  {
    var m := RotCS(c, s);
    var r := Apply6(m, q);
    assert r[0] == Dot(m[0], q) && r[1] == Dot(m[1], q) && r[2] == Dot(m[2], q);
    assert r[3] == Dot(m[3], q) && r[4] == Dot(m[4], q) && r[5] == Dot(m[5], q);
    Dot6(m[0], q);
    assert r[0] == c * q[0] + s * q[2];
    Dot6(m[1], q);
    assert r[1] == c * q[1] + s * q[3];
    Dot6(m[2], q);
    assert r[2] == -s * q[0] + c * q[2];
    Dot6(m[3], q);
    assert r[3] == -s * q[1] + c * q[3];
    Dot6(m[4], q);
    assert r[4] == q[4];
    Dot6(m[5], q);
    assert r[5] == q[5];
  }

  /** The transverse offset (dx, 0, dy, 0, 0, 0) of a misaligned element. */
  function Offset(dx: real, dy: real): Vec6
  {
    [dx, 0.0, dy, 0.0, 0.0, 0.0]
  }

  function Sub6(u: Vec6, v: Vec6): Vec6 { VecSub(u, v) }
  function Add6(u: Vec6, v: Vec6): Vec6 { VecAdd(u, v) }

  /** transform_vec_ent on one particle: remove the offset, then rotate by rot_mtx(tilt). */
  function Entrance(lib: Lib, dx: real, dy: real, tilt: real): Vec6 -> Vec6
  {
    p => Rotate(lib.cos(tilt), lib.sin(tilt), Sub6(p, Offset(dx, dy)))
  }

  /** transform_vec_ext on one particle: rotate by rot_mtx(-tilt), then restore the offset. */
  function Exit(lib: Lib, dx: real, dy: real, tilt: real): Vec6 -> Vec6
  {
    p => Add6(Rotate(lib.cos(-tilt), lib.sin(-tilt), p), Offset(dx, dy))
  }

  /** Rotating back (sine -s) after rotating (sine s) gives the particle back when c^2 + s^2 = 1. */
  lemma RotRoundTrip(c: real, s: real, q: Vec6)
    requires UnitCircle(c, s)
    ensures Rotate(c, -s, Rotate(c, s, q)) == q
  {
    var v := Rotate(c, -s, Rotate(c, s, q));
    assert v[0] == c * (c * q[0] + s * q[2]) + -s * (-s * q[0] + c * q[2]) == (c * c + s * s) * q[0];
    assert v[1] == c * (c * q[1] + s * q[3]) + -s * (-s * q[1] + c * q[3]) == (c * c + s * s) * q[1];
    assert v[2] == --s * (c * q[0] + s * q[2]) + c * (-s * q[0] + c * q[2]) == (c * c + s * s) * q[2];
    assert v[3] == --s * (c * q[1] + s * q[3]) + c * (-s * q[1] + c * q[3]) == (c * c + s * s) * q[3];
    forall i | 0 <= i < 6 ensures v[i] == q[i] { }
  }

  /** Putting the offset back after taking it off gives the particle back. */
  lemma OffsetRoundTrip(p: Vec6, d: Vec6)
    ensures Add6(Sub6(p, d), d) == p
  {
    var r := Add6(Sub6(p, d), d);
    forall i | 0 <= i < 6 ensures r[i] == p[i] { }
  }

  /** Rotating back by the tilt undoes the rotation; the offset is then restored. */
  lemma ExitOfRotated(lib: Lib, dx: real, dy: real, tilt: real, q: Vec6)
    requires RotationLawsAt(lib, tilt)
    ensures Exit(lib, dx, dy, tilt)(Rotate(lib.cos(tilt), lib.sin(tilt), q)) == Add6(q, Offset(dx, dy))
  {
    var c, s := lib.cos(tilt), lib.sin(tilt);
    var r := Rotate(c, s, q);
    RotRoundTrip(c, s, q);
    assert Rotate(lib.cos(-tilt), lib.sin(-tilt), r) == Rotate(c, -s, r);
    assert Exit(lib, dx, dy, tilt)(r) == Add6(Rotate(lib.cos(-tilt), lib.sin(-tilt), r), Offset(dx, dy));
  }

  /** Leaving the element's frame undoes entering it (cos^2 + sin^2 = 1, parity of cos and sin). */
  lemma ExitAfterEntrance(lib: Lib, dx: real, dy: real, tilt: real, p: Vec6)
    requires RotationLawsAt(lib, tilt)
    ensures Exit(lib, dx, dy, tilt)(Entrance(lib, dx, dy, tilt)(p)) == p
  {
    ExitOfRotated(lib, dx, dy, tilt, Sub6(p, Offset(dx, dy)));
    OffsetRoundTrip(p, Offset(dx, dy));
  }

  /** Entering the element's frame keeps the momentum deviation p (coordinate 5). */
  lemma EntranceKeepsMomentum(lib: Lib, dx: real, dy: real, tilt: real, p: Vec6)
    ensures Entrance(lib, dx, dy, tilt)(p)[5] == p[5]
  {
    var q := Sub6(p, Offset(dx, dy));
    assert q[5] == p[5];
  }

  /** Leaving the element's frame keeps the momentum deviation p (coordinate 5). */
  lemma ExitKeepsMomentum(lib: Lib, dx: real, dy: real, tilt: real, p: Vec6)
    ensures Exit(lib, dx, dy, tilt)(p)[5] == p[5]
  {
  }

  /** transform_vec_ext undoes transform_vec_ent on the whole buffer. */
  lemma ExitUndoesEntrance(lib: Lib, u: seq<real>, dx: real, dy: real, tilt: real)
    requires RotationLawsAt(lib, tilt)
    ensures Blockwise(Blockwise(u, Entrance(lib, dx, dy, tilt)), Exit(lib, dx, dy, tilt)) == u
  {
    forall p: Vec6 ensures Exit(lib, dx, dy, tilt)(Entrance(lib, dx, dy, tilt)(p)) == p {
      ExitAfterEntrance(lib, dx, dy, tilt, p);
    }
    BlockwiseUndo(u, Entrance(lib, dx, dy, tilt), Exit(lib, dx, dy, tilt));
  }

  method TransformVecEnt(lib: Lib, X: array<real>, dx: real, dy: real, tilt: real) returns (r: array<real>)
    modifies X
    ensures r == X
    ensures X[..] == Blockwise(old(X[..]), Entrance(lib, dx, dy, tilt))
  {
    ApplyPerParticle(X, Entrance(lib, dx, dy, tilt));
    r := X;
  }

  method TransformVecExt(lib: Lib, X: array<real>, dx: real, dy: real, tilt: real) returns (r: array<real>)
    modifies X
    ensures r == X
    ensures X[..] == Blockwise(old(X[..]), Exit(lib, dx, dy, tilt))
  {
    ApplyPerParticle(X, Exit(lib, dx, dy, tilt));
    r := X;
  }

  // ---------------------------------------------------------------------------
  // Second-order tracking (t_apply)

  predicate IsTensor(t: seq<seq<seq<real>>>) {
    |t| == 6 && forall a | 0 <= a < 6 :: IsMatrix(t[a], 6, 6)
  }

  /** The second-order coefficients T[k][i][j]. */
  type Tensor6 = t: seq<seq<seq<real>>> | IsTensor(t) witness [Eye(6), Eye(6), Eye(6), Eye(6), Eye(6), Eye(6)]

  /** Quadratic terms of the rows x, px and tau (k = 0, 1, 4). */
  function PlaneTerms(t: Tensor6, k: nat, p: Vec6): real
    requires k < 6
  {
    var x, px, y, py, dp := p[0], p[1], p[2], p[3], p[5];
    t[k][0][0] * (x * x) + t[k][0][1] * (x * px) + t[k][0][5] * (x * dp)
      + t[k][1][1] * (px * px) + t[k][1][5] * (px * dp) + t[k][5][5] * (dp * dp)
      + t[k][2][2] * (y * y) + t[k][2][3] * (y * py) + t[k][3][3] * (py * py)
  }

  /** Quadratic terms of the rows y and py (k = 2, 3). */
  function CrossTerms(t: Tensor6, k: nat, p: Vec6): real
    requires k < 6
  {
    var x, px, y, py, dp := p[0], p[1], p[2], p[3], p[5];
    t[k][0][2] * (x * y) + t[k][0][3] * (x * py) + t[k][1][2] * (px * y)
      + t[k][1][3] * (px * py) + t[k][2][5] * (y * dp) + t[k][3][5] * (py * dp)
  }

  /**
   * The aligned part of t_apply on one particle: R.x plus the quadratic terms on
   * rows 0 to 4; coordinate 5 is never written.
   */
  function SecondOrder(r: Mat6, t: Tensor6): Vec6 -> Vec6
  {
    p =>
      var xr := Apply6(r, p);
      [xr[0] + PlaneTerms(t, 0, p), xr[1] + PlaneTerms(t, 1, p),
       xr[2] + CrossTerms(t, 2, p), xr[3] + CrossTerms(t, 3, p),
       xr[4] + PlaneTerms(t, 4, p), p[5]]
  }

  /** A misalignment is present: offset or tilt non-zero. */
  predicate Misaligned(dx: real, dy: real, tilt: real) {
    dx != 0.0 || dy != 0.0 || tilt != 0.0
  }

  /** What t_apply leaves in the buffer. */
  function TApplyResult(lib: Lib, r: Mat6, t: Tensor6, u: seq<real>, dx: real, dy: real, tilt: real): seq<real>
  {
    if Misaligned(dx, dy, tilt) then
      Blockwise(Blockwise(Blockwise(u, Entrance(lib, dx, dy, tilt)), SecondOrder(r, t)), Exit(lib, dx, dy, tilt))
    else
      Blockwise(u, SecondOrder(r, t))
  }

  method TApply(lib: Lib, r: Mat6, t: Tensor6, X: array<real>, dx: real, dy: real, tilt: real) returns (res: array<real>)
    requires X.Length % 6 == 0
    modifies X
    ensures res == X
    ensures X[..] == TApplyResult(lib, r, t, old(X[..]), dx, dy, tilt)
  {
    res := X;
    if Misaligned(dx, dy, tilt) {
      res := TransformVecEnt(lib, res, dx, dy, tilt);
    }
    ApplyPerParticle(res, SecondOrder(r, t));
    if Misaligned(dx, dy, tilt) {
      res := TransformVecExt(lib, res, dx, dy, tilt);
    }
  }

  /** The aligned part never writes coordinate 5. */
  lemma SecondOrderKeepsMomentum(r: Mat6, t: Tensor6, p: Vec6)
    ensures SecondOrder(r, t)(p)[5] == p[5]
  {
  }

  /** A block map that keeps coordinate k of every particle keeps it in the buffer. */
  lemma BlockwiseKeepsAt(u: seq<real>, f: Vec6 -> Vec6, i: nat, k: nat)
    requires 6 * i + 6 <= |u| && k < 6
    requires forall p: Vec6 :: f(p)[k] == p[k]
    ensures Blockwise(u, f)[6 * i + k] == u[6 * i + k]
  {
    BlockwiseAt(u, f, i, k);
  }

  lemma EntranceBufferKeepsMomentum(lib: Lib, u: seq<real>, dx: real, dy: real, tilt: real, i: nat)
    requires 6 * i + 6 <= |u|
    ensures Blockwise(u, Entrance(lib, dx, dy, tilt))[6 * i + 5] == u[6 * i + 5]
  {
    forall p: Vec6 ensures Entrance(lib, dx, dy, tilt)(p)[5] == p[5] {
      EntranceKeepsMomentum(lib, dx, dy, tilt, p);
    }
    BlockwiseKeepsAt(u, Entrance(lib, dx, dy, tilt), i, 5);
  }

  lemma ExitBufferKeepsMomentum(lib: Lib, u: seq<real>, dx: real, dy: real, tilt: real, i: nat)
    requires 6 * i + 6 <= |u|
    ensures Blockwise(u, Exit(lib, dx, dy, tilt))[6 * i + 5] == u[6 * i + 5]
  {
    forall p: Vec6 ensures Exit(lib, dx, dy, tilt)(p)[5] == p[5] {
      ExitKeepsMomentum(lib, dx, dy, tilt, p);
    }
    BlockwiseKeepsAt(u, Exit(lib, dx, dy, tilt), i, 5);
  }

  lemma SecondOrderBufferKeepsMomentum(r: Mat6, t: Tensor6, u: seq<real>, i: nat)
    requires 6 * i + 6 <= |u|
    ensures Blockwise(u, SecondOrder(r, t))[6 * i + 5] == u[6 * i + 5]
  {
    forall p: Vec6 ensures SecondOrder(r, t)(p)[5] == p[5] {
      SecondOrderKeepsMomentum(r, t, p);
    }
    BlockwiseKeepsAt(u, SecondOrder(r, t), i, 5);
  }

  /** t_apply keeps the momentum deviation of every particle. */
  lemma TApplyKeepsMomentum(lib: Lib, r: Mat6, t: Tensor6, u: seq<real>, dx: real, dy: real, tilt: real, i: nat)
    requires 6 * i + 6 <= |u|
    ensures TApplyResult(lib, r, t, u, dx, dy, tilt)[6 * i + 5] == u[6 * i + 5]
  {
    var u1 := Blockwise(u, Entrance(lib, dx, dy, tilt));
    var u2 := Blockwise(u1, SecondOrder(r, t));
    if Misaligned(dx, dy, tilt) {
      EntranceBufferKeepsMomentum(lib, u, dx, dy, tilt, i);
      SecondOrderBufferKeepsMomentum(r, t, u1, i);
      ExitBufferKeepsMomentum(lib, u2, dx, dy, tilt, i);
    } else {
      SecondOrderBufferKeepsMomentum(r, t, u, i);
    }
  }

  predicate ZeroTensor(t: Tensor6) {
    forall a, b, c | 0 <= a < 6 && 0 <= b < 6 && 0 <= c < 6 :: t[a][b][c] == 0.0
  }

  /** With T = 0 the quadratic part vanishes: rows 0 to 4 of every particle are those of R.x. */
  lemma ZeroTensorIsLinear(r: Mat6, t: Tensor6, p: Vec6, k: nat)
    requires ZeroTensor(t) && k < 5
    ensures SecondOrder(r, t)(p)[k] == Apply6(r, p)[k]
  {
  }

  /** With T = 0 and no misalignment, t_apply gives R.x on coordinates 0 to 4 of each particle. */
  lemma TApplyAlignedLinear(lib: Lib, r: Mat6, t: Tensor6, u: seq<real>, i: nat, k: nat)
    requires ZeroTensor(t) && 6 * i + 6 <= |u| && k < 5
    ensures TApplyResult(lib, r, t, u, 0.0, 0.0, 0.0)[6 * i + k] == Apply6(r, Block(u, i))[k]
  {
    BlockwiseBlock(u, SecondOrder(r, t), i);
    ZeroTensorIsLinear(r, t, Block(u, i), k);
    assert Block(Blockwise(u, SecondOrder(r, t)), i)[k] == Blockwise(u, SecondOrder(r, t))[6 * i + k];
  }

  // ---------------------------------------------------------------------------
  // Linear tracking (mul_p_array, map4corr)

  /** x -> R.x + B on one particle. */
  function AffineMap(r: Mat6, b: Vec6): Vec6 -> Vec6
  {
    p => Affine6(r, b, p)
  }

  /** map4corr: every particle becomes R.x + B, in place. */
  method Map4Corr(r: Mat6, b: Vec6, X: array<real>) returns (res: array<real>)
    requires X.Length % 6 == 0
    modifies X
    ensures res == X
    ensures X[..] == Blockwise(old(X[..]), AffineMap(r, b))
  {
    ApplyPerParticle(X, AffineMap(r, b));
    res := X;
  }

  // ---------------------------------------------------------------------------
  // Drift-kick-drift thin-lens maps of sextupoles and octupoles

  /**
   * Drift z/2 in the element's frame (offset dx, dy), kick px and py by the
   * force evaluated at the mid-point, drift z/2 back out. tau and p are kept.
   */
  function DriftKickDrift(z: real, dx: real, dy: real, force: (real, real) -> (real, real)): Vec6 -> Vec6
  {
    p => KickParticle(z, dx, dy, force, p)
  }

  /** Horizontal position, relative to the element axis, after the first half-drift. */
  function MidX(z: real, dx: real, p: Vec6): real
  {
    p[0] + p[1] * (z / 2.0) - dx
  }

  /** Vertical position, relative to the element axis, after the first half-drift. */
  function MidY(z: real, dy: real, p: Vec6): real
  {
    p[2] + p[3] * (z / 2.0) - dy
  }

  /** One particle through the drift-kick-drift map. */
  function KickParticle(z: real, dx: real, dy: real, force: (real, real) -> (real, real), p: Vec6): Vec6
  {
    var x, y := MidX(z, dx, p), MidY(z, dy, p);
    var px := p[1] + force(x, y).0;
    var py := p[3] + force(x, y).1;
    [x + px * (z / 2.0) + dx, px, y + py * (z / 2.0) + dy, py, p[4], p[5]]
  }

  /** The sextupole kick (-ms/2 (x^2 - y^2), ms x y). */
  function SextupoleForce(ms: real, x: real, y: real): (real, real)
  {
    (-ms / 2.0 * (x * x - y * y), x * y * ms)
  }

  /** The octupole kick (-moct/2 (x^3 - 3 y^2 x), moct (3 y x^2 - y^3)). */
  function OctupoleForce(moct: real, x: real, y: real): (real, real)
  {
    (-moct / 2.0 * (x * x * x - 3.0 * y * y * x), moct * (3.0 * y * x * x - y * y * y))
  }

  /** map4sextupole on one particle with integrated strength ms. */
  function SextupoleKick(z: real, ms: real, dx: real, dy: real): Vec6 -> Vec6
  {
    DriftKickDrift(z, dx, dy, (x, y) => SextupoleForce(ms, x, y))
  }

  /** map4octupole on one particle with integrated strength moct. */
  function OctupoleKick(z: real, moct: real, dx: real, dy: real): Vec6 -> Vec6
  {
    DriftKickDrift(z, dx, dy, (x, y) => OctupoleForce(moct, x, y))
  }

  /** A zero-length kick moves no particle transversally; tau and p are never changed. */
  lemma ThinKickKeepsPosition(dx: real, dy: real, force: (real, real) -> (real, real), p: Vec6)
    ensures DriftKickDrift(0.0, dx, dy, force)(p)[0] == p[0]
    ensures DriftKickDrift(0.0, dx, dy, force)(p)[2] == p[2]
    ensures DriftKickDrift(0.0, dx, dy, force)(p)[4..] == p[4..]
  {
  }

  /**
   * Running a drift-kick-drift map backwards, over -z with the opposite force,
   * undoes it exactly: the second half-drift brings the particle back to the
   * same mid-point, where the opposite kick cancels the first one.
   */
  lemma DriftKickDriftReversible(z: real, dx: real, dy: real, f: (real, real) -> (real, real),
                                 g: (real, real) -> (real, real), p: Vec6)
    requires forall x, y :: g(x, y).0 == -f(x, y).0 && g(x, y).1 == -f(x, y).1
    ensures DriftKickDrift(-z, dx, dy, g)(DriftKickDrift(z, dx, dy, f)(p)) == p
  {
    var q := KickParticle(z, dx, dy, f, p);
    var x, y := MidX(z, dx, p), MidY(z, dy, p);
    // the backward half-drift returns to the same mid-point
    MidXBack(z, dx, q, x);
    MidYBack(z, dy, q, y);
    var r := KickParticle(-z, dx, dy, g, q);
    assert r[1] == q[1] + g(x, y).0 && r[3] == q[3] + g(x, y).1;
    assert q[1] == p[1] + f(x, y).0 && q[3] == p[3] + f(x, y).1;
    assert r[1] == p[1] && r[3] == p[3];
    forall k | 0 <= k < 6 ensures r[k] == p[k] { }
  }

  /** The backward half-drift from a horizontal exit position returns to the mid-point x. */
  lemma MidXBack(z: real, d: real, q: Vec6, x: real)
    requires q[0] == x + q[1] * (z / 2.0) + d
    ensures MidX(-z, d, q) == x
  {
    var h := z / 2.0;
    assert -z / 2.0 == -h;
    assert q[1] * (-h) == -(q[1] * h);
  }

  /** The same in the vertical plane. */
  lemma MidYBack(z: real, d: real, q: Vec6, y: real)
    requires q[2] == y + q[3] * (z / 2.0) + d
    ensures MidY(-z, d, q) == y
  {
    var h := z / 2.0;
    assert -z / 2.0 == -h;
    assert q[3] * (-h) == -(q[3] * h);
  }

  /** Running the sextupole backwards (-z, -ms) undoes it exactly, for every length. */
  lemma SextupoleReversible(z: real, ms: real, dx: real, dy: real, p: Vec6)
    ensures SextupoleKick(-z, -ms, dx, dy)(SextupoleKick(z, ms, dx, dy)(p)) == p
  {
    forall x, y ensures SextupoleForce(-ms, x, y).0 == -SextupoleForce(ms, x, y).0
                     && SextupoleForce(-ms, x, y).1 == -SextupoleForce(ms, x, y).1 {
    }
    DriftKickDriftReversible(z, dx, dy, (x, y) => SextupoleForce(ms, x, y), (x, y) => SextupoleForce(-ms, x, y), p);
  }

  /** For a thin sextupole, kicking with ms and then with -ms restores px and py. */
  lemma SextupoleThinOpposite(ms: real, dx: real, dy: real, p: Vec6)
    ensures SextupoleKick(0.0, -ms, dx, dy)(SextupoleKick(0.0, ms, dx, dy)(p)) == p
  {
    SextupoleReversible(0.0, ms, dx, dy, p);
  }

  lemma OctupoleReversible(z: real, moct: real, dx: real, dy: real, p: Vec6)
    ensures OctupoleKick(-z, -moct, dx, dy)(OctupoleKick(z, moct, dx, dy)(p)) == p
  {
    forall x, y ensures OctupoleForce(-moct, x, y).0 == -OctupoleForce(moct, x, y).0
                     && OctupoleForce(-moct, x, y).1 == -OctupoleForce(moct, x, y).1 {
    }
    DriftKickDriftReversible(z, dx, dy, (x, y) => OctupoleForce(moct, x, y), (x, y) => OctupoleForce(-moct, x, y), p);
  }

  method Map4Sextupole(u: array<real>, z: real, ms: real, dx: real, dy: real) returns (res: array<real>)
    requires u.Length % 6 == 0
    modifies u
    ensures res == u
    ensures u[..] == Blockwise(old(u[..]), SextupoleKick(z, ms, dx, dy))
  {
    ApplyPerParticle(u, SextupoleKick(z, ms, dx, dy));
    res := u;
  }

  method Map4Octupole(u: array<real>, z: real, moct: real, dx: real, dy: real) returns (res: array<real>)
    requires u.Length % 6 == 0
    modifies u
    ensures res == u
    ensures u[..] == Blockwise(old(u[..]), OctupoleKick(z, moct, dx, dy))
  {
    ApplyPerParticle(u, OctupoleKick(z, moct, dx, dy));
    res := u;
  }
}
