/**
 * Twiss parameters and the rules that move them: the envelope transport of a
 * transfer map (`map_x_twiss` and the Twiss case of `TransferMap.__mul__`) and
 * the matched (periodic) Twiss of a one-turn matrix (`periodic_twiss`).
 *
 * The rules are rational formulas over the entries of a 6x6 matrix; the
 * transcendental functions come from a `Lib` value. Divisions go through
 * `Div`, which is 0 where floating point would produce an infinity or NaN;
 * every property assumes the divisor it needs is nonzero.
 */
module TwissOptics {
  import opened LinAlg
  import opened MathLib
  import opened Wrappers
  import opened TransferMaps
  import opened Linear2

  /**
   * A Twiss object: the envelope (beta, alpha, gamma) and phase advance of both
   * planes, the dispersion, the centroid trajectory, the energy dE deviation of
   * that trajectory, the reference energy E, the position s and an id.
   */
  datatype Twiss = Twiss(
    betaX: real, alphaX: real, gammaX: real,
    betaY: real, alphaY: real, gammaY: real,
    mux: real, muy: real,
    Dx: real, Dxp: real, Dy: real, Dyp: real,
    x: real, xp: real, y: real, yp: real, tau: real, p: real, dE: real,
    E: real, s: real, id: string)

  /** An energy gain larger than this (1e-10) rescales the transverse optics. */
  const ZeroTol: real := 0.0000000001

  predicate Accelerating(deltaE: real) {
    Abs(deltaE) > ZeroTol
  }

  /** (i, j) lies in the horizontal block (rows/columns 0-1) or the vertical one (2-3). */
  predicate InTransverseBlock(i: int, j: int) {
    || (0 <= i < 2 && 0 <= j < 2)
    || (2 <= i < 4 && 2 <= j < 4)
  }

  /** The eight transverse-block entries multiplied by k; the rest as they are. */
  function ScaleTransverse(M: Mat6, k: real): (u: Mat6)
  {
    seq(6, i requires 0 <= i < 6 =>
      seq(6, j requires 0 <= j < 6 => if InTransverseBlock(i, j) then M[i][j] * k else M[i][j]))
  }

  /**
   * The matrix the envelope is transported with: R(E), and on an energy gain
   * its transverse blocks scaled by sqrt(Ef / Ei) (adiabatic damping).
   */
  function UsedMatrix(lib: Lib, R: Mat6, deltaE: real, E: real): Mat6
  {
    if Accelerating(deltaE) then ScaleTransverse(R, lib.sqrt(Div(E + deltaE, E))) else R
  }

  /** The reference energy after the map. */
  function FinalEnergy(deltaE: real, E: real): real
  {
    if Accelerating(deltaE) then E + deltaE else E
  }

  // Single-plane formulas, for the block [[a, b], [c, d]].

  function NewBeta(a: real, b: real, beta: real, alpha: real, gamma: real): real
  {
    a * a * beta - 2.0 * b * a * alpha + b * b * gamma
  }

  function NewAlpha(a: real, b: real, c: real, d: real, beta: real, alpha: real, gamma: real): real
  {
    -a * c * beta + (b * c + d * a) * alpha - b * d * gamma
  }

  /** One transported dispersion coordinate: a D + b D' + e. */
  function DispersionRow(a: real, b: real, D: real, Dp: real, e: real): real
  {
    a * D + b * Dp + e
  }

  /** gamma recomputed from alpha and beta. */
  function GammaOf(beta: real, alpha: real): real
  {
    Div(1.0 + alpha * alpha, beta)
  }

  /** The raw phase increment: arctan(b / (a beta - b alpha)), or +-pi/2 by the sign of b on a zero denominator. */
  function RawPhase(lib: Lib, a: real, b: real, beta: real, alpha: real): real
  {
    var denom := a * beta - b * alpha;
    if denom == 0.0 then Div(lib.pi / 2.0 * b, Abs(b)) else lib.arctan(b / denom)
  }

  /** The phase increment, moved into [0, pi) by adding pi to a negative raw value. */
  function PhaseAdvance(lib: Lib, a: real, b: real, beta: real, alpha: real): real
  {
    var d := RawPhase(lib, a, b, beta, alpha);
    if d < 0.0 then d + lib.pi else d
  }

  /** map_x_twiss: the Twiss after a map whose matrix at the incoming energy is R. */
  function MapXTwiss(lib: Lib, R: Mat6, deltaE: real, t: Twiss): (r: Twiss)
  {
    var M := UsedMatrix(lib, R, deltaE, t.E);
    var betaX := NewBeta(M[0][0], M[0][1], t.betaX, t.alphaX, t.gammaX);
    var alphaX := NewAlpha(M[0][0], M[0][1], M[1][0], M[1][1], t.betaX, t.alphaX, t.gammaX);
    var betaY := NewBeta(M[2][2], M[2][3], t.betaY, t.alphaY, t.gammaY);
    var alphaY := NewAlpha(M[2][2], M[2][3], M[3][2], M[3][3], t.betaY, t.alphaY, t.gammaY);
    Twiss(betaX, alphaX, GammaOf(betaX, alphaX),
          betaY, alphaY, GammaOf(betaY, alphaY),
          t.mux + PhaseAdvance(lib, M[0][0], M[0][1], t.betaX, t.alphaX),
          t.muy + PhaseAdvance(lib, M[2][2], M[2][3], t.betaY, t.alphaY),
          DispersionRow(M[0][0], M[0][1], t.Dx, t.Dxp, M[0][5]),
          DispersionRow(M[1][0], M[1][1], t.Dx, t.Dxp, M[1][5]),
          DispersionRow(M[2][2], M[2][3], t.Dy, t.Dyp, M[2][5]),
          DispersionRow(M[3][2], M[3][3], t.Dy, t.Dyp, M[3][5]),
          t.x, t.xp, t.y, t.yp, t.tau, t.p, t.dE,
          FinalEnergy(deltaE, t.E), t.s, t.id)
  }

  /** The trajectory coordinates a Twiss hands to the map: (x, xp, y, yp, tau, p). */
  function Trajectory(t: Twiss): Vec6
  {
    [t.x, t.xp, t.y, t.yp, t.tau, t.p]
  }

  /**
   * map * twiss: the envelope by map_x_twiss at the incoming energy, the
   * trajectory tracked linearly at the outgoing energy (its sixth coordinate is
   * stored as dE; p is kept), and s advanced by the map length.
   */
  function MulTwiss(lib: Lib, m: TransferMap, t: Twiss): (r: Twiss)
  {
    var o := MapXTwiss(lib, m.R(t.E), m.deltaE, t);
    var v := Track(m, o.E, Trajectory(t));
    Twiss(o.betaX, o.alphaX, o.gammaX, o.betaY, o.alphaY, o.gammaY, o.mux, o.muy,
          o.Dx, o.Dxp, o.Dy, o.Dyp,
          v[0], v[1], v[2], v[3], v[4], o.p, v[5],
          o.E, t.s + m.length, o.id)
  }

  /** The Twiss product `transfer_map * tws` as a function value, for the walks that are given one. */
  function TwissMul(lib: Lib): (TransferMap, Twiss) -> Twiss
  {
    (m: TransferMap, t: Twiss) => MulTwiss(lib, m, t)
  }

  // ---------------------------------------------------------------------------
  // Properties of map_x_twiss

  /** h b / |b| is h, -h or 0 by the sign of b. */
  lemma SignedHalf(h: real, b: real)
    ensures b > 0.0 ==> Div(h * b, Abs(b)) == h
    ensures b < 0.0 ==> Div(h * b, Abs(b)) == -h
    ensures b == 0.0 ==> Div(h * b, Abs(b)) == 0.0
  {
    var r := Div(h * b, Abs(b));
    if b > 0.0 {
      Cancel(r, h, b);
    } else if b < 0.0 {
      assert r * (-b) == h * b;
      Cancel(r, -h, -b);
    }
  }

  /** Under the arctan laws the raw increment lies in [-pi/2, pi/2]. */
  lemma RawPhaseRange(lib: Lib, a: real, b: real, beta: real, alpha: real)
    requires ArctanLaws(lib)
    ensures -lib.pi / 2.0 <= RawPhase(lib, a, b, beta, alpha) <= lib.pi / 2.0
  {
    if a * beta - b * alpha == 0.0 {
      var h := lib.pi / 2.0;
      SignedHalf(h, b);
      assert RawPhase(lib, a, b, beta, alpha) == Div(h * b, Abs(b));
      assert h > 0.0 && -h == -lib.pi / 2.0;
    } else {
      var t := b / (a * beta - b * alpha);
      assert -lib.pi / 2.0 < lib.arctan(t) < lib.pi / 2.0;
    }
  }

  /** Under the arctan laws the phase increment lies in [0, pi). */
  lemma PhaseAdvanceRange(lib: Lib, a: real, b: real, beta: real, alpha: real)
    requires ArctanLaws(lib)
    ensures 0.0 <= PhaseAdvance(lib, a, b, beta, alpha) < lib.pi
  {
    RawPhaseRange(lib, a, b, beta, alpha);
  }

  /** The phases never decrease, and each grows by less than pi. */
  lemma PhasesAdvance(lib: Lib, R: Mat6, deltaE: real, t: Twiss)
    requires ArctanLaws(lib)
    ensures t.mux <= MapXTwiss(lib, R, deltaE, t).mux < t.mux + lib.pi
    ensures t.muy <= MapXTwiss(lib, R, deltaE, t).muy < t.muy + lib.pi
  {
    var M := UsedMatrix(lib, R, deltaE, t.E);
    PhaseAdvanceRange(lib, M[0][0], M[0][1], t.betaX, t.alphaX);
    PhaseAdvanceRange(lib, M[2][2], M[2][3], t.betaY, t.alphaY);
  }

  /**
   * The energy rule: without a gain the matrix used is R(E) itself and E is
   * kept; with a gain E becomes E + deltaE and the matrix is R(E) with its
   * transverse blocks scaled by sqrt(Ef / Ei). The momentum p, position s and
   * id are carried over.
   */
  lemma MapXTwissEnergy(lib: Lib, R: Mat6, deltaE: real, t: Twiss)
    ensures var r := MapXTwiss(lib, R, deltaE, t);
            && r.p == t.p && r.s == t.s && r.id == t.id
            && (!Accelerating(deltaE) ==> r.E == t.E && UsedMatrix(lib, R, deltaE, t.E) == R)
            && (Accelerating(deltaE) ==>
                  && r.E == t.E + deltaE
                  && UsedMatrix(lib, R, deltaE, t.E) == ScaleTransverse(R, lib.sqrt(Div(t.E + deltaE, t.E))))
  {
  }

  /** Scaling touches exactly the eight transverse-block entries. */
  lemma ScaleTransverseEntries(M: Mat6, k: real)
    ensures forall i, j | 0 <= i < 6 && 0 <= j < 6 ::
              ScaleTransverse(M, k)[i][j] == (if InTransverseBlock(i, j) then M[i][j] * k else M[i][j])
  {
  }

  /** beta and gamma of a plane are consistent: beta > 0 and beta * gamma = 1 + alpha^2. */
  predicate PlaneConsistent(beta: real, alpha: real, gamma: real) {
    beta > 0.0 && beta * gamma == 1.0 + alpha * alpha
  }

  predicate Consistent(t: Twiss) {
    PlaneConsistent(t.betaX, t.alphaX, t.gammaX) && PlaneConsistent(t.betaY, t.alphaY, t.gammaY)
  }

  /** beta * beta' is a sum of squares, (a beta - b alpha)^2 + b^2. */
  lemma NewBetaTimesBeta(a: real, b: real, beta: real, alpha: real, gamma: real)
    requires beta * gamma == 1.0 + alpha * alpha
    ensures beta * NewBeta(a, b, beta, alpha, gamma) == (a * beta - b * alpha) * (a * beta - b * alpha) + b * b
  {
    calc {
      beta * NewBeta(a, b, beta, alpha, gamma);
      a * a * beta * beta - 2.0 * b * a * alpha * beta + b * b * (beta * gamma);
      a * a * beta * beta - 2.0 * b * a * alpha * beta + b * b * (1.0 + alpha * alpha);
      (a * beta - b * alpha) * (a * beta - b * alpha) + b * b;
    }
  }

  /** A nonsingular block maps a consistent plane to a consistent plane. */
  lemma PlaneStaysConsistent(a: real, b: real, c: real, d: real, beta: real, alpha: real, gamma: real)
    requires PlaneConsistent(beta, alpha, gamma)
    requires Det2(a, b, c, d) != 0.0
    ensures var beta' := NewBeta(a, b, beta, alpha, gamma);
            var alpha' := NewAlpha(a, b, c, d, beta, alpha, gamma);
            PlaneConsistent(beta', alpha', GammaOf(beta', alpha'))
  {
    var beta' := NewBeta(a, b, beta, alpha, gamma);
    NewBetaTimesBeta(a, b, beta, alpha, gamma);
    var u := a * beta - b * alpha;
    SquareNonNegative(u);
    SquareNonNegative(b);
    if b == 0.0 {
      assert a != 0.0;
      assert u == a * beta;
      ProductNonZero(a, beta);
      SquarePositive(u);
    } else {
      SquarePositive(b);
    }
    assert beta * beta' > 0.0;
    PositiveFactor(beta, beta');
  }

  lemma SquareNonNegative(u: real)
    ensures u * u >= 0.0
  {
    if u < 0.0 {
      assert u * u == (-u) * (-u);
    }
  }

  lemma SquarePositive(u: real)
    requires u != 0.0
    ensures u * u > 0.0
  {
    if u < 0.0 {
      assert u * u == (-u) * (-u);
    }
  }

  lemma ProductNonZero(u: real, v: real)
    requires u != 0.0 && v != 0.0
    ensures u * v != 0.0
  {
  }

  lemma PositiveFactor(u: real, v: real)
    requires u > 0.0 && u * v > 0.0
    ensures v > 0.0
  {
  }

  /** A nonzero factor cancels. */
  lemma Cancel(x: real, y: real, b: real)
    requires b != 0.0 && x * b == y * b
    ensures x == y
  {
    assert (x - y) * b == 0.0;
  }

  /**
   * Transport keeps the envelope consistent: from beta > 0 and
   * beta gamma = 1 + alpha^2 in both planes, map_x_twiss gives the same, as long
   * as the transverse blocks of the matrix it uses are nonsingular.
   */
  lemma MapXTwissConsistent(lib: Lib, R: Mat6, deltaE: real, t: Twiss)
    requires Consistent(t)
    requires var M := UsedMatrix(lib, R, deltaE, t.E);
             Det2(M[0][0], M[0][1], M[1][0], M[1][1]) != 0.0 && Det2(M[2][2], M[2][3], M[3][2], M[3][3]) != 0.0
    ensures Consistent(MapXTwiss(lib, R, deltaE, t))
  {
    var M := UsedMatrix(lib, R, deltaE, t.E);
    PlaneStaysConsistent(M[0][0], M[0][1], M[1][0], M[1][1], t.betaX, t.alphaX, t.gammaX);
    PlaneStaysConsistent(M[2][2], M[2][3], M[3][2], M[3][3], t.betaY, t.alphaY, t.gammaY);
  }

  /** No coupling between the planes and no column-4 term in the transverse rows. */
  predicate Decoupled(M: Mat6) {
    && M[0][2] == 0.0 && M[0][3] == 0.0 && M[0][4] == 0.0
    && M[1][2] == 0.0 && M[1][3] == 0.0 && M[1][4] == 0.0
    && M[2][0] == 0.0 && M[2][1] == 0.0 && M[2][4] == 0.0
    && M[3][0] == 0.0 && M[3][1] == 0.0 && M[3][4] == 0.0
  }

  /**
   * The dispersion moves as a particle would: for a decoupled matrix the new
   * (Dx, Dxp, Dy, Dyp) are the first four rows of M applied to
   * (Dx, Dxp, Dy, Dyp, 0, 1).
   */
  lemma DispersionTransport(lib: Lib, R: Mat6, deltaE: real, t: Twiss)
    requires Decoupled(UsedMatrix(lib, R, deltaE, t.E))
    ensures var M := UsedMatrix(lib, R, deltaE, t.E);
            var r := MapXTwiss(lib, R, deltaE, t);
            var v := MatVec(M, [t.Dx, t.Dxp, t.Dy, t.Dyp, 0.0, 1.0]);
            r.Dx == v[0] && r.Dxp == v[1] && r.Dy == v[2] && r.Dyp == v[3]
  {
    DispersionRows(UsedMatrix(lib, R, deltaE, t.E), t.Dx, t.Dxp, t.Dy, t.Dyp);
  }

  /** The transverse rows of a decoupled matrix applied to (Dx, Dxp, Dy, Dyp, 0, 1). */
  lemma DispersionRows(M: Mat6, dx: real, dxp: real, dy: real, dyp: real)
    requires Decoupled(M)
    ensures var v := MatVec(M, [dx, dxp, dy, dyp, 0.0, 1.0]);
            && v[0] == DispersionRow(M[0][0], M[0][1], dx, dxp, M[0][5])
            && v[1] == DispersionRow(M[1][0], M[1][1], dx, dxp, M[1][5])
            && v[2] == DispersionRow(M[2][2], M[2][3], dy, dyp, M[2][5])
            && v[3] == DispersionRow(M[3][2], M[3][3], dy, dyp, M[3][5])
  {
    var w: Vector := [dx, dxp, dy, dyp, 0.0, 1.0];
    Dot6(M[0], w);
    Dot6(M[1], w);
    Dot6(M[2], w);
    Dot6(M[3], w);
  }

  /**
   * With a unit-determinant block, the recomputed gamma is the transported one:
   * gamma' = c^2 beta - 2 c d alpha + d^2 gamma.
   */
  lemma GammaTransport(a: real, b: real, c: real, d: real, beta: real, alpha: real, gamma: real)
    requires PlaneConsistent(beta, alpha, gamma)
    requires Det2(a, b, c, d) == 1.0
    ensures var beta' := NewBeta(a, b, beta, alpha, gamma);
            GammaOf(beta', NewAlpha(a, b, c, d, beta, alpha, gamma)) == c * c * beta - 2.0 * c * d * alpha + d * d * gamma
  {
    var beta' := NewBeta(a, b, beta, alpha, gamma);
    var alpha' := NewAlpha(a, b, c, d, beta, alpha, gamma);
    var gamma' := c * c * beta - 2.0 * c * d * alpha + d * d * gamma;
    PlaneStaysConsistent(a, b, c, d, beta, alpha, gamma);
    assert beta' * gamma' - alpha' * alpha' == (a * d - b * c) * (a * d - b * c) * (beta * gamma - alpha * alpha);
    assert beta' * gamma' == 1.0 + alpha' * alpha';
  }

  /**
   * The identity matrix leaves the envelope, the dispersion and (when arctan 0 = 0)
   * the phases as they were, for a consistent Twiss and no energy gain.
   */
  lemma IdentityKeepsOptics(lib: Lib, deltaE: real, t: Twiss)
    requires Consistent(t) && !Accelerating(deltaE) && lib.arctan(0.0) == 0.0
    ensures var r := MapXTwiss(lib, Eye(6), deltaE, t);
            && r.betaX == t.betaX && r.alphaX == t.alphaX && r.gammaX == t.gammaX
            && r.betaY == t.betaY && r.alphaY == t.alphaY && r.gammaY == t.gammaY
            && r.Dx == t.Dx && r.Dxp == t.Dxp && r.Dy == t.Dy && r.Dyp == t.Dyp
            && r.mux == t.mux && r.muy == t.muy && r.E == t.E
  {
    var r := MapXTwiss(lib, Eye(6), deltaE, t);
    assert r.betaX == t.betaX;
    assert r.gammaX * t.betaX == 1.0 + t.alphaX * t.alphaX;
    assert r.gammaY * t.betaY == 1.0 + t.alphaY * t.alphaY;
    assert 0.0 / t.betaX == 0.0 && 0.0 / t.betaY == 0.0;
  }

  /**
   * The Twiss product keeps a consistent Twiss consistent when the transverse
   * blocks of the matrix it uses are non-singular; it advances s by the map
   * length and keeps p and the id.
   */
  lemma MulTwissConsistent(lib: Lib, m: TransferMap, t: Twiss)
    requires Consistent(t)
    requires var M := UsedMatrix(lib, m.R(t.E), m.deltaE, t.E);
             Det2(M[0][0], M[0][1], M[1][0], M[1][1]) != 0.0 && Det2(M[2][2], M[2][3], M[3][2], M[3][3]) != 0.0
    ensures Consistent(MulTwiss(lib, m, t))
    ensures MulTwiss(lib, m, t).s == t.s + m.length
    ensures MulTwiss(lib, m, t).p == t.p && MulTwiss(lib, m, t).id == t.id
  {
    MapXTwissConsistent(lib, m.R(t.E), m.deltaE, t);
  }

  // ---------------------------------------------------------------------------
  // periodic_twiss

  /** cos mu of a plane, from the trace of its block. */
  function CosMu(a: real, d: real): real
  {
    (a + d) / 2.0
  }

  /** Both |cos mu| < 1: a periodic solution exists. */
  predicate Stable(R: Mat6) {
    Abs(CosMu(R[0][0], R[1][1])) < 1.0 && Abs(CosMu(R[2][2], R[3][3])) < 1.0
  }

  /** numpy's sign: -1, 0 or 1. */
  function Sign(x: real): real
  {
    if x > 0.0 then 1.0 else if x < 0.0 then -1.0 else 0.0
  }

  /** sin mu, with the sign of the block's upper-right entry b. */
  function SinMu(lib: Lib, b: real, cosMu: real): real
  {
    Sign(b) * lib.sqrt(1.0 - cosMu * cosMu)
  }

  /** The periodic dispersion of a plane: inv(-(B - I)) . (e, f), B = [[a, b], [c, d]]. */
  function PeriodicDispersion(a: real, b: real, c: real, d: real, e: real, f: real): (real, real)
  {
    Solve2(-(a - 1.0), -b, -c, -(d - 1.0), e, f)
  }

  /** The matched beta of a plane: |b / sin mu|. */
  function PeriodicBeta(lib: Lib, a: real, b: real, d: real): real
  {
    Abs(Div(b, SinMu(lib, b, CosMu(a, d))))
  }

  /** The matched alpha of a plane: (a - d) / (2 sin mu). */
  function PeriodicAlpha(lib: Lib, a: real, b: real, d: real): real
  {
    Div(a - d, 2.0 * SinMu(lib, b, CosMu(a, d)))
  }

  /**
   * periodic_twiss: None when either plane is unstable; otherwise a copy of
   * `base` with the matched beta, alpha, gamma and dispersion of R.
   */
  function PeriodicTwiss(lib: Lib, base: Twiss, R: Mat6): (r: Option<Twiss>)
  {
    if !Stable(R) then None
    else
      var betaX := PeriodicBeta(lib, R[0][0], R[0][1], R[1][1]);
      var alphaX := PeriodicAlpha(lib, R[0][0], R[0][1], R[1][1]);
      var betaY := PeriodicBeta(lib, R[2][2], R[2][3], R[3][3]);
      var alphaY := PeriodicAlpha(lib, R[2][2], R[2][3], R[3][3]);
      var dx := PeriodicDispersion(R[0][0], R[0][1], R[1][0], R[1][1], R[0][5], R[1][5]);
      var dy := PeriodicDispersion(R[2][2], R[2][3], R[3][2], R[3][3], R[2][5], R[3][5]);
      Some(Twiss(betaX, alphaX, GammaOf(betaX, alphaX),
                 betaY, alphaY, GammaOf(betaY, alphaY),
                 base.mux, base.muy, dx.0, dx.1, dy.0, dy.1,
                 base.x, base.xp, base.y, base.yp, base.tau, base.p, base.dE,
                 base.E, base.s, base.id))
  }

  /** The stability test decides alone: None exactly when |cos mu| >= 1 in a plane. */
  lemma PeriodicNoneIffUnstable(lib: Lib, base: Twiss, R: Mat6)
    ensures PeriodicTwiss(lib, base, R).None? <==>
              Abs((R[0][0] + R[1][1]) / 2.0) >= 1.0 || Abs((R[2][2] + R[3][3]) / 2.0) >= 1.0
  {
  }

  /** With sqrt the square root and |cos| < 1, sin mu is nonzero and has the sign of b. */
  lemma SinMuFacts(lib: Lib, b: real, cosMu: real)
    requires SqrtLaws(lib)
    requires Abs(cosMu) < 1.0 && b != 0.0
    ensures var s := SinMu(lib, b, cosMu);
            s != 0.0 && s * s == 1.0 - cosMu * cosMu && b / s > 0.0
  {
    var q := lib.sqrt(1.0 - cosMu * cosMu);
    assert cosMu * cosMu < 1.0 by {
      if cosMu >= 0.0 {
        assert cosMu * cosMu <= cosMu * 1.0;
      } else {
        assert cosMu * cosMu <= (-cosMu) * 1.0;
      }
    }
    assert q >= 0.0 && q * q == 1.0 - cosMu * cosMu;
    assert q > 0.0;
    var s := Sign(b) * q;
    assert s * s == q * q;
    if b > 0.0 {
      assert s == q;
    } else {
      assert s == -q;
      assert b / s == (-b) / q;
    }
  }

  /**
   * One stable plane with b != 0: sin mu is nonzero, beta = b / sin mu > 0,
   * 2 alpha sin mu = a - d, and gamma = (1 + alpha^2) / beta makes it consistent.
   */
  lemma PlanePeriodic(lib: Lib, a: real, b: real, d: real)
    requires SqrtLaws(lib) && Abs(CosMu(a, d)) < 1.0 && b != 0.0
    ensures var s := SinMu(lib, b, CosMu(a, d));
            var beta := PeriodicBeta(lib, a, b, d);
            var alpha := PeriodicAlpha(lib, a, b, d);
            && s != 0.0 && s * s == 1.0 - CosMu(a, d) * CosMu(a, d)
            && beta == b / s && beta * s == b && alpha * 2.0 * s == a - d
            && PlaneConsistent(beta, alpha, GammaOf(beta, alpha))
  {
    var s := SinMu(lib, b, CosMu(a, d));
    SinMuFacts(lib, b, CosMu(a, d));
    var beta := PeriodicBeta(lib, a, b, d);
    assert beta == b / s;
    assert beta * s == b;
  }

  /**
   * The periodic solution of a stable lattice with nonzero R01 and R23 has
   * beta = |R01 / sin mu_x| > 0, alpha = (R00 - R11) / (2 sin mu_x) and
   * gamma = (1 + alpha^2) / beta, the y plane alike, so it is consistent.
   */
  lemma PeriodicConsistent(lib: Lib, base: Twiss, R: Mat6)
    requires SqrtLaws(lib) && Stable(R) && R[0][1] != 0.0 && R[2][3] != 0.0
    ensures PeriodicTwiss(lib, base, R).Some?
    ensures var t := PeriodicTwiss(lib, base, R).value;
            var sx := SinMu(lib, R[0][1], CosMu(R[0][0], R[1][1]));
            var sy := SinMu(lib, R[2][3], CosMu(R[2][2], R[3][3]));
            && sx != 0.0 && t.betaX == Abs(R[0][1] / sx) && t.alphaX == (R[0][0] - R[1][1]) / (2.0 * sx)
            && sy != 0.0 && t.betaY == Abs(R[2][3] / sy) && t.alphaY == (R[2][2] - R[3][3]) / (2.0 * sy)
            && Consistent(t)
  {
    PlanePeriodic(lib, R[0][0], R[0][1], R[1][1]);
    PlanePeriodic(lib, R[2][2], R[2][3], R[3][3]);
  }

  /**
   * A unit-determinant stable block maps its periodic beta and alpha to
   * themselves: with beta = b / s, alpha = (a - d) / (2 s) and
   * s^2 = 1 - ((a + d) / 2)^2, one turn gives the same beta and alpha back.
   */
  lemma PlaneFixedPoint(a: real, b: real, c: real, d: real, s: real, beta: real, alpha: real, gamma: real)
    requires Det2(a, b, c, d) == 1.0
    requires s != 0.0 && s * s == 1.0 - CosMu(a, d) * CosMu(a, d)
    requires beta * s == b && alpha * 2.0 * s == a - d
    requires beta * gamma == 1.0 + alpha * alpha
    ensures NewBeta(a, b, beta, alpha, gamma) == beta
    ensures NewAlpha(a, b, c, d, beta, alpha, gamma) == alpha
  {
    // (1 + alpha^2) s^2 = -b c, so gamma b = gamma beta s = (1 + alpha^2) s and gamma s = -c.
    assert 4.0 * (alpha * s) * (alpha * s) == (a - d) * (a - d);
    assert 4.0 * s * s == 4.0 - (a + d) * (a + d);
    assert (1.0 + alpha * alpha) * s * s == -b * c;
    assert gamma * s * s * beta == -b * c;
    assert gamma * s * b == -b * c;
    assert b != 0.0;
    assert gamma * s == -c;
    assert NewBeta(a, b, beta, alpha, gamma) * s == beta * s by {
      calc {
        NewBeta(a, b, beta, alpha, gamma) * s;
        a * a * (beta * s) - b * a * (alpha * 2.0 * s) + b * b * (gamma * s);
        a * a * b - b * a * (a - d) - b * b * c;
        b * (a * d - b * c);
        beta * s;
      }
    }
    assert NewAlpha(a, b, c, d, beta, alpha, gamma) * 2.0 * s == alpha * 2.0 * s by {
      calc {
        NewAlpha(a, b, c, d, beta, alpha, gamma) * 2.0 * s;
        -2.0 * a * c * (beta * s) + (b * c + d * a) * (alpha * 2.0 * s) - 2.0 * b * d * (gamma * s);
        -2.0 * a * c * b + (b * c + d * a) * (a - d) + 2.0 * b * d * c;
        (a - d) * (a * d - b * c);
        alpha * 2.0 * s;
      }
    }
  }

  /**
   * For a unit-determinant stable block, (B - I) is nonsingular: its determinant
   * is 2 - (a + d) = 2 (1 - cos mu) > 0.
   */
  lemma DispersionSolvable(a: real, b: real, c: real, d: real)
    requires Det2(a, b, c, d) == 1.0 && Abs(CosMu(a, d)) < 1.0
    ensures Det2(-(a - 1.0), -b, -c, -(d - 1.0)) == 2.0 - (a + d) > 0.0
  {
  }

  /** The periodic dispersion is a fixed point of the dispersion transport. */
  lemma DispersionFixedPoint(a: real, b: real, c: real, d: real, e: real, f: real)
    requires Det2(-(a - 1.0), -b, -c, -(d - 1.0)) != 0.0
    ensures var (D, Dp) := PeriodicDispersion(a, b, c, d, e, f);
            DispersionRow(a, b, D, Dp, e) == D && DispersionRow(c, d, D, Dp, f) == Dp
  {
    Solve2Solves(-(a - 1.0), -b, -c, -(d - 1.0), e, f);
  }

  /**
   * The matched Twiss reproduces itself: transporting the periodic solution of a
   * stable one-turn matrix with unit-determinant blocks and b != 0 through that
   * same matrix (without energy gain) gives back its beta, alpha, gamma and
   * dispersion in both planes.
   */
  lemma PeriodicIsMatched(lib: Lib, base: Twiss, R: Mat6, deltaE: real)
    requires SqrtLaws(lib) && Stable(R) && R[0][1] != 0.0 && R[2][3] != 0.0
    requires Det2(R[0][0], R[0][1], R[1][0], R[1][1]) == 1.0 && Det2(R[2][2], R[2][3], R[3][2], R[3][3]) == 1.0
    requires !Accelerating(deltaE)
    ensures PeriodicTwiss(lib, base, R).Some?
    ensures var t := PeriodicTwiss(lib, base, R).value;
            var r := MapXTwiss(lib, R, deltaE, t);
            && r.betaX == t.betaX && r.alphaX == t.alphaX && r.gammaX == t.gammaX
            && r.betaY == t.betaY && r.alphaY == t.alphaY && r.gammaY == t.gammaY
            && r.Dx == t.Dx && r.Dxp == t.Dxp && r.Dy == t.Dy && r.Dyp == t.Dyp
  {
    var t := PeriodicTwiss(lib, base, R).value;
    assert UsedMatrix(lib, R, deltaE, t.E) == R;
    EnvelopeMatched(lib, R, deltaE, t);
    DispersionSolvable(R[0][0], R[0][1], R[1][0], R[1][1]);
    DispersionSolvable(R[2][2], R[2][3], R[3][2], R[3][3]);
    DispersionFixedPointAt(R[0][0], R[0][1], R[1][0], R[1][1], R[0][5], R[1][5], t.Dx, t.Dxp);
    DispersionFixedPointAt(R[2][2], R[2][3], R[3][2], R[3][3], R[2][5], R[3][5], t.Dy, t.Dyp);
    DispersionMatched(lib, R, deltaE, t);
  }

  /** The envelope half of PeriodicIsMatched, for t the periodic solution of R. */
  lemma EnvelopeMatched(lib: Lib, R: Mat6, deltaE: real, t: Twiss)
    requires SqrtLaws(lib) && Stable(R) && R[0][1] != 0.0 && R[2][3] != 0.0
    requires Det2(R[0][0], R[0][1], R[1][0], R[1][1]) == 1.0 && Det2(R[2][2], R[2][3], R[3][2], R[3][3]) == 1.0
    requires UsedMatrix(lib, R, deltaE, t.E) == R
    requires t.betaX == PeriodicBeta(lib, R[0][0], R[0][1], R[1][1]) && t.alphaX == PeriodicAlpha(lib, R[0][0], R[0][1], R[1][1])
    requires t.betaY == PeriodicBeta(lib, R[2][2], R[2][3], R[3][3]) && t.alphaY == PeriodicAlpha(lib, R[2][2], R[2][3], R[3][3])
    requires t.gammaX == GammaOf(t.betaX, t.alphaX) && t.gammaY == GammaOf(t.betaY, t.alphaY)
    ensures var r := MapXTwiss(lib, R, deltaE, t);
            && r.betaX == t.betaX && r.alphaX == t.alphaX && r.gammaX == t.gammaX
            && r.betaY == t.betaY && r.alphaY == t.alphaY && r.gammaY == t.gammaY
  {
    PlaneMatched(lib, R[0][0], R[0][1], R[1][0], R[1][1]);
    PlaneMatched(lib, R[2][2], R[2][3], R[3][2], R[3][3]);
  }

  /** The dispersion half of PeriodicIsMatched: a dispersion fixed point of R comes back. */
  lemma DispersionMatched(lib: Lib, R: Mat6, deltaE: real, t: Twiss)
    requires UsedMatrix(lib, R, deltaE, t.E) == R
    requires DispersionRow(R[0][0], R[0][1], t.Dx, t.Dxp, R[0][5]) == t.Dx
    requires DispersionRow(R[1][0], R[1][1], t.Dx, t.Dxp, R[1][5]) == t.Dxp
    requires DispersionRow(R[2][2], R[2][3], t.Dy, t.Dyp, R[2][5]) == t.Dy
    requires DispersionRow(R[3][2], R[3][3], t.Dy, t.Dyp, R[3][5]) == t.Dyp
    ensures var r := MapXTwiss(lib, R, deltaE, t);
            r.Dx == t.Dx && r.Dxp == t.Dxp && r.Dy == t.Dy && r.Dyp == t.Dyp
  {
  }

  lemma DispersionFixedPointAt(a: real, b: real, c: real, d: real, e: real, f: real, D: real, Dp: real)
    requires Det2(-(a - 1.0), -b, -c, -(d - 1.0)) != 0.0
    requires (D, Dp) == PeriodicDispersion(a, b, c, d, e, f)
    ensures DispersionRow(a, b, D, Dp, e) == D && DispersionRow(c, d, D, Dp, f) == Dp
  {
    DispersionFixedPoint(a, b, c, d, e, f);
  }

  /** One plane of the matched solution: beta, alpha and the recomputed gamma come back. */
  lemma PlaneMatched(lib: Lib, a: real, b: real, c: real, d: real)
    requires SqrtLaws(lib) && Abs(CosMu(a, d)) < 1.0 && b != 0.0 && Det2(a, b, c, d) == 1.0
    ensures var beta := PeriodicBeta(lib, a, b, d);
            var alpha := PeriodicAlpha(lib, a, b, d);
            var gamma := GammaOf(beta, alpha);
            var beta' := NewBeta(a, b, beta, alpha, gamma);
            var alpha' := NewAlpha(a, b, c, d, beta, alpha, gamma);
            beta' == beta && alpha' == alpha && GammaOf(beta', alpha') == gamma
  {
    PlanePeriodic(lib, a, b, d);
    var beta := PeriodicBeta(lib, a, b, d);
    var alpha := PeriodicAlpha(lib, a, b, d);
    PlaneFixedPoint(a, b, c, d, SinMu(lib, b, CosMu(a, d)), beta, alpha, GammaOf(beta, alpha));
  }
}
