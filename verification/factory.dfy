/**
 * The map factory: the z-dependent transfer map built for each element
 * (create_transfer_map, uni_matrix and the element-specific helpers in
 * cpbd/optics.py).
 *
 * The structural decisions are modelled exactly: which matrix, offset, energy
 * gain and nonlinear action each element kind gets, the curvature rule, the
 * corrector kick, the length-gated matrix of a Matrix element, the multipole
 * matrix, the order tags and the octupole strength default. The second-order
 * tensors, the symplectic integrator, the fringe fields and the matrices built
 * from field integrals are supplied by a `Physics` value.
 */
module MapFactory {
  import opened LinAlg
  import opened MathLib
  import opened Wrappers
  import opened TransferMaps
  import opened ParticleBuffers
  import opened Elements

  /** An update of a whole particle buffer that keeps its length. */
  type BufferMap = f: seq<real> -> seq<real> | forall u :: |f(u)| == |u|
    witness (u: seq<real>) => u

  /**
   * The physics the factory calls and which is not part of this model:
   * t_nnn(z, h, k1, k2), sym_map(z, ., h, k1, k2, energy), fringe_ent/fringe_ext,
   * undulator_R_z(z, lperiod, Kx, Ky, energy), map4undulator(., z, kz, kx, energy),
   * cavity_R_z(z, V, f, E, phi), sol(z, k, energy) and the multipole kick(., kn).
   */
  datatype Physics = Physics(
    tnnn: (real, real, real, real) -> Tensor6,
    symMap: (real, real, real, real, real) -> BufferMap,
    fringe: (ElementData, bool) -> (Mat6, Tensor6),
    undulatorR: (real, real, real, real, real) -> Mat6,
    undulatorMap: (real, real, real, real) -> BufferMap,
    cavityR: (real, real, real, real, real) -> Mat6,
    solenoidR: (real, real, real) -> Mat6,
    multipoleKick: seq<real> -> BufferMap)

  /** np.zeros((6, 6, 6)) */
  const ZeroT: Tensor6 := seq(6, a => seq(6, b => seq(6, c => 0.0)))

  // ---------------------------------------------------------------------------
  // uni_matrix

  /**
   * 1 / (beta^2 gamma^2) with beta = 1 - 0.5 / gamma^2: the path-length slope of a
   * particle at the Lorentz factor gamma; no correction when gamma is 0.
   */
  function PathSlope(gamma: real): real
  {
    if gamma == 0.0 then 0.0
    else
      var beta := 1.0 - 0.5 / gamma / gamma;
      var q := beta * beta * (gamma * gamma);
      if q == 0.0 then 0.0 else 1.0 / q
  }

  /** The r56 term with the energy correction -z / (beta^2 gamma^2). */
  function EnergyR56(r56: real, z: real, gamma: real): real
  {
    r56 - z * PathSlope(gamma)
  }

  /** uni_matrix before the tilt: the focusing matrix of a combined-function magnet. */
  function UniMatrixAligned(lib: Lib, z: real, k1: real, hx: real, energy: real): Mat6
  {
    var kx2 := k1 + hx * hx;
    var ky2 := -k1;
    var cx := lib.focC(z, kx2);
    var cy := lib.focC(z, ky2);
    var sy := if ky2 != 0.0 then lib.focS(z, ky2) else z;
    var sx := if kx2 != 0.0 then lib.focS(z, kx2) else z;
    var dx := if kx2 != 0.0 then hx / kx2 * (1.0 - cx) else z * z * hx / 2.0;
    var r56 := if kx2 != 0.0 then hx * hx * (z - sx) / kx2 else hx * hx * z * z * z / 6.0;
    var r56e := EnergyR56(r56, z, energy / lib.meGeV);
    [[cx, sx, 0.0, 0.0, 0.0, dx],
     [-kx2 * sx, cx, 0.0, 0.0, 0.0, sx * hx],
     [0.0, 0.0, cy, sy, 0.0, 0.0],
     [0.0, 0.0, -ky2 * sy, cy, 0.0, 0.0],
     [hx * sx, dx, 0.0, 0.0, 1.0, r56e],
     [0.0, 0.0, 0.0, 0.0, 0.0, 1.0]]
  }

  /** A matrix seen from a frame rotated by `tilt`: rot_mtx(-tilt) . m . rot_mtx(tilt). */
  function Tilted(lib: Lib, m: Mat6, tilt: real): Mat6
  {
    Mul6(Mul6(RotMtx(lib, -tilt), m), RotMtx(lib, tilt))
  }

  /** uni_matrix(z, k1, hx, sum_tilts, energy). */
  function UniMatrix(lib: Lib, z: real, k1: real, hx: real, sumTilts: real, energy: real): Mat6
  {
    var u := UniMatrixAligned(lib, z, k1, hx, energy);
    if sumTilts != 0.0 then Tilted(lib, u, sumTilts) else u
  }

  /** The drift matrix over z with path-length coefficient r56. */
  function DriftMatrix(z: real, r56: real): Mat6
  {
    [[1.0, z, 0.0, 0.0, 0.0, 0.0],
     [0.0, 1.0, 0.0, 0.0, 0.0, 0.0],
     [0.0, 0.0, 1.0, z, 0.0, 0.0],
     [0.0, 0.0, 0.0, 1.0, 0.0, 0.0],
     [0.0, 0.0, 0.0, 0.0, 1.0, r56],
     [0.0, 0.0, 0.0, 0.0, 0.0, 1.0]]
  }

  /** The path-length coefficient of a drift of length z at the given energy. */
  function DriftR56(lib: Lib, z: real, energy: real): real
  {
    EnergyR56(0.0, z, energy / lib.meGeV)
  }

  /** Without focusing, curvature or tilt, uni_matrix is the drift matrix: R01 = R23 = z. */
  lemma UniMatrixDriftLimit(lib: Lib, z: real, energy: real)
    requires FocusingLaws(lib)
    ensures UniMatrix(lib, z, 0.0, 0.0, 0.0, energy) == DriftMatrix(z, DriftR56(lib, z, energy))
    ensures UniMatrix(lib, z, 0.0, 0.0, 0.0, energy)[0][1] == z
    ensures UniMatrix(lib, z, 0.0, 0.0, 0.0, energy)[2][3] == z
  {
    assert lib.focC(z, 0.0) == 1.0;
    assert -(0.0) == 0.0;
  }

  /** A drift moves x and y by z times their slopes and tau by r56 times p. */
  lemma DriftApply(z: real, r56: real, v: Vec6)
    ensures Apply6(DriftMatrix(z, r56), v) == DriftStep(z, r56, v)
  {
    var m := DriftMatrix(z, r56);
    var r := Apply6(m, v);
    assert r[0] == v[0] + z * v[1] by { Dot6(m[0], v); }
    assert r[1] == v[1] by { Dot6(m[1], v); }
    assert r[2] == v[2] + z * v[3] by { Dot6(m[2], v); }
    assert r[3] == v[3] by { Dot6(m[3], v); }
    assert r[4] == v[4] + r56 * v[5] by { Dot6(m[4], v); }
    assert r[5] == v[5] by { Dot6(m[5], v); }
  }

  /** The path-length coefficient of a drift is proportional to its length. */
  lemma DriftR56Additive(lib: Lib, z1: real, z2: real, energy: real)
    ensures DriftR56(lib, z1 + z2, energy) == DriftR56(lib, z1, energy) + DriftR56(lib, z2, energy)
  {
    var k := PathSlope(energy / lib.meGeV);
    assert (z1 + z2) * k == z1 * k + z2 * k;
  }

  // ---------------------------------------------------------------------------
  // Corrector kick, Matrix element, multipole

  /**
   * kick_b(z, l, angle_x, angle_y): the offset of a corrector slice of length z,
   * a uniform bend of the full angle over the length l (a thin kick when l == 0).
   */
  function KickB(z: real, l: real, angleX: real, angleY: real): Vec6
  {
    var hx := if l == 0.0 then 0.0 else angleX / l;
    var hy := if l == 0.0 then 0.0 else angleY / l;
    var dx1 := if l != 0.0 then hx * z else angleX;
    var dy1 := if l != 0.0 then hy * z else angleY;
    [hx * z * z / 2.0, dx1, hy * z * z / 2.0, dy1, 0.0, 0.0]
  }

  /** Over its full length a corrector deflects by exactly its angles, thick or thin. */
  lemma KickBFullLength(l: real, angleX: real, angleY: real)
    ensures KickB(l, l, angleX, angleY)[1] == angleX
    ensures KickB(l, l, angleX, angleY)[3] == angleY
    ensures KickB(l, l, angleX, angleY)[0] == angleX * l / 2.0
    ensures KickB(l, l, angleX, angleY)[2] == angleY * l / 2.0
    ensures KickB(l, l, angleX, angleY)[4..] == [0.0, 0.0]
  {
    if l != 0.0 {
      assert angleX / l * l == angleX;
      assert angleY / l * l == angleY;
      assert angleX / l * l * l / 2.0 == angleX * l / 2.0;
      assert angleY / l * l * l / 2.0 == angleY * l / 2.0;
    }
  }

  /** Rm: the identity with its transverse 4x4 block replaced by rm11..rm44. */
  function MatrixRm(rm: Block4): Mat6
  {
    seq(6, i requires 0 <= i < 6 => seq(6, j requires 0 <= j < 6 => if i < 4 && j < 4 then rm[i][j] else if i == j then 1.0 else 0.0))
  }

  /** r_matrix(z, l, Rm): a plain drift inside the element, Rm once its length is reached. */
  function RMatrix(lib: Lib, z: real, l: real, rm: Mat6): Mat6
  {
    if z < l then UniMatrix(lib, z, 0.0, 0.0, 0.0, 0.0) else rm
  }

  /** A Matrix element acts as Rm over its full length and as a drift on any shorter slice. */
  lemma RMatrixGate(lib: Lib, z: real, l: real, rm: Mat6)
    requires FocusingLaws(lib)
    ensures z >= l ==> RMatrix(lib, z, l, rm) == rm
    ensures z < l ==> RMatrix(lib, z, l, rm) == DriftMatrix(z, 0.0)
  {
    if z < l {
      UniMatrixDriftLimit(lib, z, 0.0);
    }
  }

  /** The Matrix element's Rm keeps tau and p and carries the given transverse block. */
  lemma MatrixRmBlock(rm: Block4, v: Vec6)
    ensures forall i, j | 0 <= i < 4 && 0 <= j < 4 :: MatrixRm(rm)[i][j] == rm[i][j]
    ensures Apply6(MatrixRm(rm), v)[4] == v[4] && Apply6(MatrixRm(rm), v)[5] == v[5]
  {
    var m := MatrixRm(rm);
    Dot6(m[4], v);
    Dot6(m[5], v);
  }

  /** The multipole matrix: identity with R10 = -kn[1], R32 = kn[1], R15 = kn[0]. */
  function MultipoleR(kn: seq<real>): Mat6
    requires |kn| >= 2
  {
    [[1.0, 0.0, 0.0, 0.0, 0.0, 0.0],
     [-kn[1], 1.0, 0.0, 0.0, 0.0, kn[0]],
     [0.0, 0.0, 1.0, 0.0, 0.0, 0.0],
     [0.0, 0.0, kn[1], 1.0, 0.0, 0.0],
     [0.0, 0.0, 0.0, 0.0, 1.0, 0.0],
     [0.0, 0.0, 0.0, 0.0, 0.0, 1.0]]
  }

  /**
   * Linearly a multipole is a thin lens: a quadrupole kick of strength kn[1] that
   * focuses in one plane and defocuses in the other, plus the dipole term kn[0]
   * times the momentum deviation; positions, tau and p pass unchanged.
   */
  lemma MultipoleThinLens(kn: seq<real>, v: Vec6)
    requires |kn| >= 2
    ensures Apply6(MultipoleR(kn), v) == [v[0], v[1] - kn[1] * v[0] + kn[0] * v[5], v[2], v[3] + kn[1] * v[2], v[4], v[5]]
  {
    var m := MultipoleR(kn);
    var r := Apply6(m, v);
    assert r[0] == v[0] by { Dot6(m[0], v); }
    assert r[1] == v[1] - kn[1] * v[0] + kn[0] * v[5] by { Dot6(m[1], v); }
    assert r[2] == v[2] by { Dot6(m[2], v); }
    assert r[3] == v[3] + kn[1] * v[2] by { Dot6(m[3], v); }
    assert r[4] == v[4] by { Dot6(m[4], v); }
    assert r[5] == v[5] by { Dot6(m[5], v); }
  }

  // ---------------------------------------------------------------------------
  // Cavity

  /**
   * map4cav's energy update of one particle: with the gain de = V cos(phi) and
   * E + de > 0, p becomes (p E + V cos(k tau + phi) - de) / (E + de) with
   * k = 2 pi f / c; otherwise the particle is kept.
   */
  function CavityParticle(lib: Lib, energy: real, v: real, freq: real, phi: real, p: Vec6): Vec6
  {
    var de := v * lib.cos(phi);
    var k := 2.0 * lib.pi * freq / lib.speedOfLight;
    if energy + de > 0.0 then p[5 := (p[5] * energy + v * lib.cos(p[4] * k + phi) - de) / (energy + de)]
    else p
  }

  function CavityKick(lib: Lib, energy: real, v: real, freq: real, phi: real): Vec6 -> Vec6
  {
    p => CavityParticle(lib, energy, v, freq, phi, p)
  }

  /** The reference particle (tau = 0, p = 0) stays on the reference energy; x to tau are never changed. */
  lemma CavityKeepsReference(lib: Lib, energy: real, v: real, freq: real, phi: real, p: Vec6)
    ensures CavityParticle(lib, energy, v, freq, phi, p)[..5] == p[..5]
    ensures p[4] == 0.0 && p[5] == 0.0 ==> CavityParticle(lib, energy, v, freq, phi, p)[5] == 0.0
  {
    if p[4] == 0.0 && p[5] == 0.0 {
      var k := 2.0 * lib.pi * freq / lib.speedOfLight;
      assert p[4] * k + phi == phi;
    }
  }

  // ---------------------------------------------------------------------------
  // The element map

  /** What create_transfer_map needs to build a map without failing. */
  predicate Buildable(d: ElementData) {
    && (d.kind == Cavity ==> d.l != 0.0)
    && (d.kind == Multipole ==> |d.kn| >= 2)
    && (d.kind == Undulator && d.symplecticSolver ==> d.lperiod != 0.0 && (d.ax != -1.0 ==> d.ax != 0.0))
  }

  /** hx: zero for a zero-length element, else angle / l. */
  function CurvatureOf(d: ElementData): real
  {
    if d.l == 0.0 then 0.0 else d.angle / d.l
  }

  /** The tilt of the map: the element tilt plus its error dtilt. */
  function TiltOf(d: ElementData): real
  {
    d.dtilt + d.tilt
  }

  /** The octupole's integrated strength once defaulted (moct, or k3 l when unset). */
  function OctupoleStrength(d: ElementData): real
  {
    if d.moct.Some? then d.moct.value else d.k3 * d.l
  }

  /** The integrated strength k2 l every sextupole map is built with (sym_map of a thin one excepted). */
  function SextupoleStrength(d: ElementData): real
  {
    d.k2 * d.l
  }

  /** The strength k3 z a thick octupole kicks with over a slice of length z. */
  function OctupoleSliceStrength(d: ElementData, z: real): real
  {
    d.k3 * z
  }

  /** The kinds the factory tracks with a map of order above 1. */
  predicate NonlinearKind(d: ElementData) {
    || d.kind == Sextupole || d.kind == Octupole || d.kind == Cavity
    || (d.kind == Undulator && d.symplecticSolver)
    || (d.kind == Multipole && d.n > 2)
  }

  function OrderOf(d: ElementData): nat
  {
    match d.kind
    case Sextupole => 2
    case Octupole => 3
    case Cavity => 2
    case Undulator => if d.symplecticSolver then 2 else 1
    case Multipole => if d.n > 2 then 2 else 1
    case _ => 1
  }

  /** The order tag is above 1 exactly for the nonlinear kinds, and never above 3. */
  lemma OrderTags(d: ElementData)
    ensures OrderOf(d) > 1 <==> NonlinearKind(d)
    ensures 1 <= OrderOf(d) <= 3
    ensures d.kind == Octupole <==> OrderOf(d) == 3
  {
  }

  /** The curvature is zero for a zero-length element and integrates to the bend angle otherwise. */
  lemma CurvatureRule(d: ElementData)
    ensures d.l == 0.0 ==> CurvatureOf(d) == 0.0
    ensures d.l != 0.0 ==> CurvatureOf(d) * d.l == d.angle
  {
  }

  /** R_z(z, energy) of each kind. */
  function RzOf(lib: Lib, ph: Physics, d: ElementData, z: real, energy: real): Mat6
    requires Buildable(d)
  {
    match d.kind
    case Edge =>
      Tilted(lib, ph.fringe(d, d.entranceEdge).0, d.tilt + d.dtilt)
    case Sextupole => UniMatrix(lib, z, 0.0, 0.0, 0.0, energy)
    case Octupole => UniMatrix(lib, z, 0.0, 0.0, 0.0, energy)
    case Hcor => UniMatrix(lib, z, 0.0, 0.0, 0.0, energy)
    case Vcor => UniMatrix(lib, z, 0.0, 0.0, 0.0, energy)
    case Undulator => ph.undulatorR(z, d.lperiod, d.kx, d.ky, energy)
    case Cavity =>
      if d.deltaE == 0.0 then UniMatrix(lib, z, 0.0, 0.0, TiltOf(d), energy)
      else ph.cavityR(z, d.v * z / d.l, d.freq, energy, d.phi)
    case Solenoid => ph.solenoidR(z, d.ksol, energy)
    case MatrixElement => RMatrix(lib, z, d.l, MatrixRm(d.rm))
    case Multipole => MultipoleR(d.kn)
    case _ => UniMatrix(lib, z, d.k1, CurvatureOf(d), TiltOf(d), energy)
  }

  /** b_z = (I - R_z).(dx, 0, dy, 0, 0, 0): the offset of a displaced element. */
  function DisplacedOffset(r: Mat6, dx: real, dy: real): Vec6
  {
    MatVec(MatSub(Eye(6), r), Offset(dx, dy))
  }

  /** B_z(z, energy): the corrector kick for Hcor and Vcor, the displacement offset otherwise. */
  function BzOf(lib: Lib, ph: Physics, d: ElementData, z: real, energy: real): Vec6
    requires Buildable(d)
  {
    match d.kind
    case Hcor => KickB(z, d.l, d.angle, 0.0)
    case Vcor => KickB(z, d.l, 0.0, d.angle)
    case _ => DisplacedOffset(RzOf(lib, ph, d, z, energy), d.dx, d.dy)
  }

  /** delta_e_z: the cavity gains V cos(phi) in proportion to the length travelled; nothing else gains energy. */
  function DeltaEzOf(lib: Lib, d: ElementData, z: real): real
    requires Buildable(d)
  {
    if d.kind == Cavity then d.v * lib.cos(d.phi) * z / d.l else 0.0
  }

  /** kz and kx of the symplectic undulator integrator. */
  function UndulatorWaveNumbers(lib: Lib, d: ElementData): (real, real)
    requires d.lperiod != 0.0 && (d.ax != -1.0 ==> d.ax != 0.0)
  {
    (2.0 * lib.pi / d.lperiod, if d.ax == -1.0 then 0.0 else 2.0 * lib.pi / d.ax)
  }

  /** The default map_z: t_apply with the element's R_z and T_z, offsets and total tilt. */
  function GenericMapZ(lib: Lib, ph: Physics, d: ElementData, u: seq<real>, z: real, energy: real): (r: seq<real>)
    requires Buildable(d)
    ensures |r| == |u|
  {
    TApplyResult(lib, RzOf(lib, ph, d, z, energy), ph.tnnn(z, CurvatureOf(d), d.k1, d.k2), u, d.dx, d.dy, TiltOf(d))
  }

  /** map_z(u, z, energy) of each kind: the action used for tracking at order 2. */
  function MapZOf(lib: Lib, ph: Physics, d: ElementData, u: seq<real>, z: real, energy: real): (r: seq<real>)
    requires Buildable(d)
    ensures |r| == |u|
  {
    match d.kind
    case Edge =>
      var rt := ph.fringe(d, d.entranceEdge);
      TApplyResult(lib, rt.0, rt.1, u, d.dx, d.dy, d.tilt)
    case Sextupole => Blockwise(u, SextupoleKick(z, SextupoleStrength(d), d.dx, d.dy))
    case Octupole =>
      Blockwise(u, OctupoleKick(z, if d.l == 0.0 then OctupoleStrength(d) else OctupoleSliceStrength(d, z), d.dx, d.dy))
    case Undulator =>
      if d.symplecticSolver then
        var kk := UndulatorWaveNumbers(lib, d);
        ph.undulatorMap(z, kk.0, kk.1, energy)(u)
      else TApplyResult(lib, RzOf(lib, ph, d, z, energy), ph.tnnn(z, CurvatureOf(d), d.k1, d.k2), u, 0.0, 0.0, 0.0)
    case Hcor => Blockwise(u, AffineMap(RzOf(lib, ph, d, z, energy), BzOf(lib, ph, d, z, energy)))
    case Vcor => Blockwise(u, AffineMap(RzOf(lib, ph, d, z, energy), BzOf(lib, ph, d, z, energy)))
    case Cavity =>
      Blockwise(GenericMapZ(lib, ph, d, u, z, energy), CavityKick(lib, energy, d.v * z / d.l, d.freq, d.phi))
    case Solenoid => TApplyResult(lib, RzOf(lib, ph, d, z, energy), ZeroT, u, d.dx, d.dy, d.tilt)
    case MatrixElement => TApplyResult(lib, RzOf(lib, ph, d, z, energy), ph.tnnn(z, 0.0, 0.0, 0.0), u, d.dx, d.dy, d.tilt)
    case Multipole => ph.multipoleKick(d.kn)(u)
    case _ => GenericMapZ(lib, ph, d, u, z, energy)
  }

  /** sym_map_z(u, z, energy) of each kind: the action used for tracking at order 3. */
  function SymMapZOf(lib: Lib, ph: Physics, d: ElementData, u: seq<real>, z: real, energy: real): (r: seq<real>)
    requires Buildable(d)
    ensures |r| == |u|
  {
    match d.kind
    case Edge => TApplyResult(lib, ph.fringe(d, d.entranceEdge).0, ZeroT, u, d.dx, d.dy, d.tilt)
    case Sextupole => Blockwise(u, SextupoleKick(z, if d.l == 0.0 then d.ms else SextupoleStrength(d), d.dx, d.dy))
    case Undulator => MapZOf(lib, ph, d, u, z, energy)
    case MatrixElement => MapZOf(lib, ph, d, u, z, energy)
    case Multipole => MapZOf(lib, ph, d, u, z, energy)
    case _ => ph.symMap(z, CurvatureOf(d), d.k1, d.k2, energy)(u)
  }

  /** create_transfer_map on the element's parameters. */
  function ElementMapOf(lib: Lib, ph: Physics, d: ElementData): (em: ElementMap)
    requires Buildable(d)
    ensures em.length == d.l && em.order == OrderOf(d) && em.hx == CurvatureOf(d)
    ensures forall z, e :: em.Rz(z, e) == RzOf(lib, ph, d, z, e) && em.Bz(z, e) == BzOf(lib, ph, d, z, e)
    ensures forall z :: em.deltaEz(z) == DeltaEzOf(lib, d, z)
    ensures forall u, z, e :: em.mapZ(u, z, e) == MapZOf(lib, ph, d, u, z, e)
    ensures forall u, z, e :: em.symMapZ(u, z, e) == SymMapZOf(lib, ph, d, u, z, e)
  {
    ElementMap(
      d.l, OrderOf(d), CurvatureOf(d),
      (z, e) => RzOf(lib, ph, d, z, e),
      (z, e) => BzOf(lib, ph, d, z, e),
      z => DeltaEzOf(lib, d, z),
      (u, z, e) => MapZOf(lib, ph, d, u, z, e),
      (u, z, e) => SymMapZOf(lib, ph, d, u, z, e))
  }

  /** The element's parameters after create_transfer_map: an unset octupole moct becomes k3 l. */
  function WithDefaults(d: ElementData): (r: ElementData)
    ensures r.kind == Octupole ==> r.moct.Some?
  {
    if d.kind == Octupole && d.moct.None? then d.(moct := Some(d.k3 * d.l)) else d
  }

  /**
   * create_transfer_map(element): defaults the octupole strength on the element
   * itself, then builds the map from its parameters.
   */
  method CreateTransferMap(lib: Lib, ph: Physics, element: Element) returns (em: ElementMap)
    requires Buildable(element.data)
    modifies element
    ensures element.data == WithDefaults(old(element.data))
    ensures element.transferMap == old(element.transferMap)
    ensures Buildable(element.data) && em == ElementMapOf(lib, ph, element.data)
  {
    element.data := WithDefaults(element.data);
    em := ElementMapOf(lib, ph, element.data);
  }

  // ---------------------------------------------------------------------------
  // Properties of the built maps

  /** A displaced element acts as R (x - d) + d: its offset B_z = (I - R) d is the displacement seen through R. */
  lemma DisplacedTracking(r: Mat6, dx: real, dy: real, x: Vec6)
    ensures Affine6(r, DisplacedOffset(r, dx, dy), x) == VecAdd(Apply6(r, VecSub(x, Offset(dx, dy))), Offset(dx, dy))
  {
    var off := Offset(dx, dy);
    MatSubVec(Eye(6), r, off);
    MatVecEye(off);
    MatVecSub(r, x, off);
    var lhs := Affine6(r, DisplacedOffset(r, dx, dy), x);
    var rhs := VecAdd(Apply6(r, VecSub(x, off)), off);
    forall i | 0 <= i < 6 ensures lhs[i] == rhs[i] { }
  }

  /** Every element except a corrector tracks as its matrix about the displaced axis. */
  lemma ElementDisplacement(lib: Lib, ph: Physics, d: ElementData, z: real, e: real, x: Vec6)
    requires Buildable(d) && d.kind != Hcor && d.kind != Vcor
    ensures Track(Slice(ElementMapOf(lib, ph, d), z), e, x)
         == VecAdd(Apply6(RzOf(lib, ph, d, z, e), VecSub(x, Offset(d.dx, d.dy))), Offset(d.dx, d.dy))
  {
    DisplacedTracking(RzOf(lib, ph, d, z, e), d.dx, d.dy, x);
  }

  /** A drift matrix maps the offset (dx, 0, dy, 0, 0, 0) to itself, so a displaced drift has no offset. */
  lemma DriftIgnoresDisplacement(z: real, r56: real, dx: real, dy: real)
    ensures DisplacedOffset(DriftMatrix(z, r56), dx, dy) == Zeros(6)
  {
    var off := Offset(dx, dy);
    MatSubVec(Eye(6), DriftMatrix(z, r56), off);
    MatVecEye(off);
    DriftApply(z, r56, off);
  }

  /** An untilted, uncurved, unfocusing element of one of the default kinds. */
  predicate PlainDrift(d: ElementData) {
    && (d.kind == Drift || d.kind == Marker || d.kind == Monitor)
    && d.k1 == 0.0 && CurvatureOf(d) == 0.0 && TiltOf(d) == 0.0
  }

  /**
   * Proof step: unfolds Slice and ElementMapOf for the slicing lemmas below.
   * A slice of an element's map carries the element's R_z and B_z at that length.
   */
  lemma SliceOfElement(lib: Lib, ph: Physics, d: ElementData, z: real, e: real, x: Vec6)
    requires Buildable(d)
    ensures Track(Slice(ElementMapOf(lib, ph, d), z), e, x) == Affine6(RzOf(lib, ph, d, z, e), BzOf(lib, ph, d, z, e), x)
  {
    var em := ElementMapOf(lib, ph, d);
    assert Slice(em, z).R(e) == em.Rz(z, e) == RzOf(lib, ph, d, z, e);
    assert Slice(em, z).B(e) == em.Bz(z, e) == BzOf(lib, ph, d, z, e);
  }

  /** A plain drift's matrix is the drift matrix and its offset vanishes. */
  lemma PlainDriftParts(lib: Lib, ph: Physics, d: ElementData, z: real, e: real)
    requires FocusingLaws(lib) && PlainDrift(d)
    ensures RzOf(lib, ph, d, z, e) == DriftMatrix(z, DriftR56(lib, z, e))
    ensures BzOf(lib, ph, d, z, e) == Zeros(6)
  {
    UniMatrixDriftLimit(lib, z, e);
    assert RzOf(lib, ph, d, z, e) == UniMatrix(lib, z, 0.0, 0.0, 0.0, e);
    DriftIgnoresDisplacement(z, DriftR56(lib, z, e), d.dx, d.dy);
  }

  /** One particle through a slice of a plain drift, written out. */
  lemma DriftSliceTracking(lib: Lib, ph: Physics, d: ElementData, z: real, e: real, x: Vec6)
    requires FocusingLaws(lib) && PlainDrift(d)
    ensures Track(Slice(ElementMapOf(lib, ph, d), z), e, x) == DriftStep(z, DriftR56(lib, z, e), x)
  {
    var r56 := DriftR56(lib, z, e);
    SliceOfElement(lib, ph, d, z, e, x);
    PlainDriftParts(lib, ph, d, z, e);
    DriftApply(z, r56, x);
    var y := Apply6(DriftMatrix(z, r56), x);
    assert VecAdd(y, Zeros(6)) == y;
  }

  /** A particle after a drift of length z with path-length coefficient r56. */
  function DriftStep(z: real, r56: real, x: Vec6): Vec6
  {
    [x[0] + z * x[1], x[1], x[2] + z * x[3], x[3], x[4] + r56 * x[5], x[5]]
  }

  /** Drifts add up: their lengths and their path-length coefficients. */
  lemma DriftStepsAdd(z1: real, z2: real, a: real, b: real, c: real, x: Vec6)
    requires c == a + b
    ensures DriftStep(z2, b, DriftStep(z1, a, x)) == DriftStep(z1 + z2, c, x)
  {
    var w, v := DriftStep(z2, b, DriftStep(z1, a, x)), DriftStep(z1 + z2, c, x);
    assert w[0] == v[0] && w[2] == v[2] && w[4] == v[4];
  }

  /** Two maps that act as drifts compose into the map that acts as their summed drift. */
  lemma DriftTracksChain(s1: TransferMap, s2: TransferMap, s12: TransferMap, e: real, x: Vec6,
                         z1: real, z2: real, a: real, b: real, c: real)
    requires c == a + b
    requires Track(s1, e, x) == DriftStep(z1, a, x)
    requires Track(s2, e, Track(s1, e, x)) == DriftStep(z2, b, Track(s1, e, x))
    requires Track(s12, e, x) == DriftStep(z1 + z2, c, x)
    ensures Track(Compose(s2, s1), e, x) == Track(s12, e, x)
  {
    ComposeTracks(s2, s1, e, x);
    DriftStepsAdd(z1, z2, a, b, c, x);
  }

  /** Every slice of the map moves every particle as a drift of the slice length. */
  ghost predicate ActsAsDrift(lib: Lib, em: ElementMap) {
    forall z, e, x: Vec6 :: Track(Slice(em, z), e, x) == DriftStep(z, DriftR56(lib, z, e), x)
  }

  lemma PlainDriftActsAsDrift(lib: Lib, ph: Physics, d: ElementData)
    requires FocusingLaws(lib) && PlainDrift(d)
    ensures ActsAsDrift(lib, ElementMapOf(lib, ph, d))
  {
    forall z, e, x: Vec6
      ensures Track(Slice(ElementMapOf(lib, ph, d), z), e, x) == DriftStep(z, DriftR56(lib, z, e), x)
    {
      DriftSliceTracking(lib, ph, d, z, e, x);
    }
  }

  /** Slices of a map that acts as a drift compose like one slice of the summed length. */
  lemma DriftMapSlicesCompose(lib: Lib, em: ElementMap, z1: real, z2: real, e: real, x: Vec6)
    requires ActsAsDrift(lib, em)
    ensures Track(Compose(Slice(em, z2), Slice(em, z1)), e, x) == Track(Slice(em, z1 + z2), e, x)
  {
    var s1, s2, s12 := Slice(em, z1), Slice(em, z2), Slice(em, z1 + z2);
    var y := Track(s1, e, x);
    assert y == DriftStep(z1, DriftR56(lib, z1, e), x);
    assert Track(s2, e, y) == DriftStep(z2, DriftR56(lib, z2, e), y);
    assert Track(s12, e, x) == DriftStep(z1 + z2, DriftR56(lib, z1 + z2, e), x);
    DriftR56Additive(lib, z1, z2, e);
    DriftTracksChain(s1, s2, s12, e, x, z1, z2, DriftR56(lib, z1, e), DriftR56(lib, z2, e), DriftR56(lib, z1 + z2, e));
  }

  /** Two consecutive slices of a plain drift track like one slice of the summed length. */
  lemma DriftSlicesCompose(lib: Lib, ph: Physics, d: ElementData, z1: real, z2: real, e: real, x: Vec6)
    requires FocusingLaws(lib) && PlainDrift(d)
    ensures Track(Compose(Slice(ElementMapOf(lib, ph, d), z2), Slice(ElementMapOf(lib, ph, d), z1)), e, x)
         == Track(Slice(ElementMapOf(lib, ph, d), z1 + z2), e, x)
  {
    PlainDriftActsAsDrift(lib, ph, d);
    DriftMapSlicesCompose(lib, ElementMapOf(lib, ph, d), z1, z2, e, x);
  }

  /** A horizontal corrector deflects every particle by its angle and leaves py untouched. */
  lemma HcorDeflects(lib: Lib, ph: Physics, d: ElementData, e: real, x: Vec6)
    requires FocusingLaws(lib) && d.kind == Hcor
    ensures Track(FullMap(ElementMapOf(lib, ph, d)), e, x)[1] == x[1] + d.angle
    ensures Track(FullMap(ElementMapOf(lib, ph, d)), e, x)[3] == x[3]
  {
    var r56 := DriftR56(lib, d.l, e);
    UniMatrixDriftLimit(lib, d.l, e);
    DriftApply(d.l, r56, x);
    KickBFullLength(d.l, d.angle, 0.0);
  }

  /** A vertical corrector deflects every particle by its angle and leaves px untouched. */
  lemma VcorDeflects(lib: Lib, ph: Physics, d: ElementData, e: real, x: Vec6)
    requires FocusingLaws(lib) && d.kind == Vcor
    ensures Track(FullMap(ElementMapOf(lib, ph, d)), e, x)[3] == x[3] + d.angle
    ensures Track(FullMap(ElementMapOf(lib, ph, d)), e, x)[1] == x[1]
  {
    var r56 := DriftR56(lib, d.l, e);
    UniMatrixDriftLimit(lib, d.l, e);
    DriftApply(d.l, r56, x);
    KickBFullLength(d.l, 0.0, d.angle);
  }

  /**
   * Proof step: unfolds FullMap and ElementMapOf for the lemmas below.
   * The buffer actions of an element's own map are map_z and sym_map_z at the element length.
   */
  lemma FullMapActions(lib: Lib, ph: Physics, d: ElementData, u: seq<real>, e: real)
    requires Buildable(d)
    ensures FullMap(ElementMapOf(lib, ph, d)).kick(u, e) == MapZOf(lib, ph, d, u, d.l, e)
    ensures FullMap(ElementMapOf(lib, ph, d)).symKick(u, e) == SymMapZOf(lib, ph, d, u, d.l, e)
  {
    var em := ElementMapOf(lib, ph, d);
    assert FullMap(em).kick(u, e) == em.mapZ(u, em.length, e);
    assert FullMap(em).symKick(u, e) == em.symMapZ(u, em.length, e);
  }

  /** The thin sextupole's drift-kick-drift with zero strength is the identity on every particle. */
  lemma ZeroStrengthSextupole(dx: real, dy: real, p: Vec6)
    ensures SextupoleKick(0.0, 0.0, dx, dy)(p) == p
  {
    var q := SextupoleKick(0.0, 0.0, dx, dy)(p);
    forall k | 0 <= k < 6 ensures q[k] == p[k] { }
  }

  /** Proof step: unfolds MapZOf for a sextupole, whose map_z kicks with k2 l. */
  lemma SextupoleMapZ(lib: Lib, ph: Physics, d: ElementData, u: seq<real>, z: real, e: real)
    requires d.kind == Sextupole
    ensures MapZOf(lib, ph, d, u, z, e) == Blockwise(u, SextupoleKick(z, SextupoleStrength(d), d.dx, d.dy))
  {
  }

  /** Proof step: unfolds SymMapZOf for a thin sextupole, whose sym_map_z kicks with ms. */
  lemma ThinSextupoleSymMapZ(lib: Lib, ph: Physics, d: ElementData, u: seq<real>, z: real, e: real)
    requires d.kind == Sextupole && d.l == 0.0
    ensures SymMapZOf(lib, ph, d, u, z, e) == Blockwise(u, SextupoleKick(z, d.ms, d.dx, d.dy))
  {
  }

  /**
   * A zero-length sextupole's `map` (order 2) is built with strength k2 l = 0:
   * it leaves every buffer as it is.
   */
  lemma ThinSextupoleMapIdle(lib: Lib, ph: Physics, d: ElementData, u: seq<real>, e: real)
    requires d.kind == Sextupole && d.l == 0.0
    ensures FullMap(ElementMapOf(lib, ph, d)).kick(u, e) == u
  {
    FullMapActions(lib, ph, d, u, e);
    SextupoleMapZ(lib, ph, d, u, d.l, e);
    assert SextupoleStrength(d) == 0.0;
    var f := SextupoleKick(0.0, 0.0, d.dx, d.dy);
    forall p: Vec6 ensures f(p) == p {
      ZeroStrengthSextupole(d.dx, d.dy, p);
    }
    BlockwiseKeep(u, f);
  }

  /** Kicking a buffer with a thin sextupole of strength ms and then with -ms leaves it as it was. */
  lemma ThinSextupoleUndo(ms: real, dx: real, dy: real, u: seq<real>)
    ensures Blockwise(Blockwise(u, SextupoleKick(0.0, ms, dx, dy)), SextupoleKick(0.0, -ms, dx, dy)) == u
  {
    var g, h := SextupoleKick(0.0, ms, dx, dy), SextupoleKick(0.0, -ms, dx, dy);
    forall p: Vec6 ensures h(g(p)) == p {
      SextupoleThinOpposite(ms, dx, dy, p);
    }
    BlockwiseUndo(u, g, h);
  }

  /**
   * A zero-length sextupole's `sym_map` (order 3) kicks with ms, and the kick with
   * the opposite strength -ms undoes it.
   */
  lemma ThinSextupoleSymMap(lib: Lib, ph: Physics, d: ElementData, u: seq<real>, e: real)
    requires d.kind == Sextupole && d.l == 0.0
    ensures FullMap(ElementMapOf(lib, ph, d)).symKick(u, e) == Blockwise(u, SextupoleKick(0.0, d.ms, d.dx, d.dy))
    ensures Blockwise(FullMap(ElementMapOf(lib, ph, d)).symKick(u, e), SextupoleKick(0.0, -d.ms, d.dx, d.dy)) == u
  {
    assert FullMap(ElementMapOf(lib, ph, d)).symKick(u, e) == Blockwise(u, SextupoleKick(0.0, d.ms, d.dx, d.dy)) by {
      FullMapActions(lib, ph, d, u, e);
      ThinSextupoleSymMapZ(lib, ph, d, u, d.l, e);
    }
    ThinSextupoleUndo(d.ms, d.dx, d.dy, u);
  }

  /** A zero-length octupole kicks with its (defaulted) moct. */
  lemma ThinOctupoleStrength(lib: Lib, ph: Physics, d: ElementData, u: seq<real>, z: real, e: real)
    requires d.kind == Octupole && d.l == 0.0
    ensures MapZOf(lib, ph, d, u, z, e) == Blockwise(u, OctupoleKick(z, OctupoleStrength(d), d.dx, d.dy))
    ensures OctupoleStrength(WithDefaults(d)) == OctupoleStrength(d)
  {
  }

  /**
   * A thick octupole's slice kicks with k3 times its own length, whatever moct
   * holds: the slice over -z therefore undoes the slice over z.
   */
  lemma ThickOctupoleReversible(lib: Lib, ph: Physics, d: ElementData, u: seq<real>, z: real, e: real, moct: Option<real>)
    requires d.kind == Octupole && d.l != 0.0
    ensures MapZOf(lib, ph, d, MapZOf(lib, ph, d, u, z, e), -z, e) == u
    ensures MapZOf(lib, ph, d.(moct := moct), u, z, e) == MapZOf(lib, ph, d, u, z, e)
  {
    var f := OctupoleKick(z, d.k3 * z, d.dx, d.dy);
    var g := OctupoleKick(-z, d.k3 * -z, d.dx, d.dy);
    assert d.k3 * -z == -(d.k3 * z);
    forall p: Vec6 ensures g(f(p)) == p {
      OctupoleReversible(z, d.k3 * z, d.dx, d.dy, p);
    }
    var v := MapZOf(lib, ph, d, u, z, e);
    assert v == Blockwise(u, OctupoleKick(z, OctupoleSliceStrength(d, z), d.dx, d.dy));
    assert OctupoleSliceStrength(d, z) == d.k3 * z;
    assert v == Blockwise(u, f);
    assert MapZOf(lib, ph, d, v, -z, e) == Blockwise(v, OctupoleKick(-z, OctupoleSliceStrength(d, -z), d.dx, d.dy));
    assert OctupoleSliceStrength(d, -z) == d.k3 * -z;
    assert MapZOf(lib, ph, d, v, -z, e) == Blockwise(v, g);
    BlockwiseUndo(u, f, g);
    var d' := d.(moct := moct);
    assert MapZOf(lib, ph, d', u, z, e) == Blockwise(u, OctupoleKick(z, OctupoleSliceStrength(d', z), d'.dx, d'.dy));
    assert OctupoleSliceStrength(d', z) == d.k3 * z;
  }

  /** A cavity gains V cos(phi) over its length, in proportion to the length of each slice. */
  lemma CavityEnergyGain(lib: Lib, d: ElementData, z1: real, z2: real)
    requires d.kind == Cavity && d.l != 0.0
    ensures DeltaEzOf(lib, d, d.l) == d.v * lib.cos(d.phi)
    ensures DeltaEzOf(lib, d, z1 + z2) == DeltaEzOf(lib, d, z1) + DeltaEzOf(lib, d, z2)
    ensures DeltaEzOf(lib, d, 0.0) == 0.0
  {
    var g := d.v * lib.cos(d.phi);
    assert g * d.l / d.l == g;
    assert g * (z1 + z2) / d.l == g * z1 / d.l + g * z2 / d.l;
  }

  /** Only a cavity changes the reference energy. */
  lemma OnlyCavitiesGainEnergy(lib: Lib, ph: Physics, d: ElementData, z: real)
    requires Buildable(d) && d.kind != Cavity
    ensures Slice(ElementMapOf(lib, ph, d), z).deltaE == 0.0
  {
  }
}
