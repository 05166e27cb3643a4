/**
 * The first-order transfer map of one lattice segment and its composition algebra
 * (class TransferMap in cpbd/optics.py).
 *
 * A map holds its linear matrix R and its offset B as functions of the reference
 * energy, its length, its declared order (1 linear, 2 kick or quadratic map,
 * 3 symplectic integrator), its energy gain and the `identity` flag used by the
 * lattice traversal. The nonlinear actions `map` and `sym_map` (here `kick` and `symKick`) are kept as
 * functions on flat particle buffers (six coordinates per particle).
 */
module TransferMaps {
  import opened LinAlg

  /**
   * A nonlinear action on a particle buffer at a given energy. The source updates
   * the buffer in place, so the action never changes its length.
   */
  type Kick = k: (seq<real>, real) -> seq<real> | forall u, e :: |k(u, e)| == |u|
    witness (u: seq<real>, e: real) => u

  /** A nonlinear action that also depends on the sub-length z travelled. */
  type KickZ = k: (seq<real>, real, real) -> seq<real> | forall u, z, e :: |k(u, z, e)| == |u|
    witness (u: seq<real>, z: real, e: real) => u

  datatype TransferMap = TransferMap(
    R: real -> Mat6,
    B: real -> Vec6,
    length: real,
    order: nat,
    deltaE: real,
    identity: bool,
    kick: Kick,
    symKick: Kick)

  /** The buffer is left as it is (the default `map` of a fresh map). */
  const KeepBuffer: Kick := (u: seq<real>, energy: real) => u

  /**
   * TransferMap(order, identity): R = I, B = 0, length 0, no energy gain.
   * A fresh map has no `sym_map`; it is never reached for order 1, and the model
   * gives it the same do-nothing action as `map`.
   */
  function NewMap(order: nat, identity: bool): (m: TransferMap)
    ensures m.order == order && m.identity == identity
    ensures m.length == 0.0 && m.deltaE == 0.0
    ensures forall e :: m.R(e) == Eye(6) && m.B(e) == Zeros(6)
  {
    TransferMap(e => Eye(6), e => Zeros(6), 0.0, order, 0.0, identity, KeepBuffer, KeepBuffer)
  }

  /** TransferMap(identity=True), the unit the traversal starts from. */
  function IdentityMap(): TransferMap
  {
    NewMap(1, true)
  }

  /**
   * a * b: b is applied first, then a. Only the linear parts are combined; the
   * product is a fresh order-1 map without energy gain, whatever a and b were.
   */
  function Compose(a: TransferMap, b: TransferMap): (m: TransferMap)
    ensures m.order == 1 && m.deltaE == 0.0 && !m.identity
  {
    TransferMap(
      e => Mul6(a.R(e), b.R(e)),
      e => Affine6(a.R(e), a.B(e), b.B(e)),
      b.length + a.length,
      1, 0.0, false, KeepBuffer, KeepBuffer)
  }

  /** Two maps act alike on the linear level: same R and B at every energy, same length. */
  ghost predicate SameLinear(a: TransferMap, b: TransferMap) {
    && a.length == b.length
    && forall e :: a.R(e) == b.R(e) && a.B(e) == b.B(e)
  }

  /** Particle coordinates after the linear part of a map: R.x + B. */
  function Track(m: TransferMap, energy: real, x: Vec6): Vec6
  {
    Affine6(m.R(energy), m.B(energy), x)
  }

  /** Composing then tracking is tracking twice: (a*b).x == a.(b.x). */
  lemma ComposeTracks(a: TransferMap, b: TransferMap, energy: real, x: Vec6)
    ensures Track(Compose(a, b), energy, x) == Track(a, energy, Track(b, energy, x))
    ensures Compose(a, b).length == a.length + b.length
  {
    var ra, rb := a.R(energy), b.R(energy);
    MatVecMatMul(ra, rb, x);
    MatVecAdd(ra, MatVec(rb, x), b.B(energy));
    var lhs := Track(Compose(a, b), energy, x);
    var rhs := Track(a, energy, Track(b, energy, x));
    forall i | 0 <= i < 6 ensures lhs[i] == rhs[i] { }
  }

  lemma ComposeIdentityLeft(m: TransferMap)
    ensures SameLinear(Compose(IdentityMap(), m), m)
  {
    forall e ensures Compose(IdentityMap(), m).R(e) == m.R(e) && Compose(IdentityMap(), m).B(e) == m.B(e) {
      MatMulEyeLeft(m.R(e), 6);
      MatVecEye(m.B(e));
      assert VecAdd(m.B(e), Zeros(6)) == m.B(e);
    }
  }

  lemma ComposeIdentityRight(m: TransferMap)
    ensures SameLinear(Compose(m, IdentityMap()), m)
  {
    forall e ensures Compose(m, IdentityMap()).R(e) == m.R(e) && Compose(m, IdentityMap()).B(e) == m.B(e) {
      MatMulEyeRight(m.R(e), 6);
      MatVecZeros(m.R(e), 6);
      assert VecAdd(Zeros(6), m.B(e)) == m.B(e);
    }
  }

  /** Composition of the linear parts at one energy is associative. */
  lemma ComposeAssocAt(a: TransferMap, b: TransferMap, c: TransferMap, e: real)
    ensures Compose(Compose(a, b), c).R(e) == Compose(a, Compose(b, c)).R(e)
    ensures Compose(Compose(a, b), c).B(e) == Compose(a, Compose(b, c)).B(e)
  {
    var ra, rb, rc := a.R(e), b.R(e), c.R(e);
    MatMulAssoc(ra, rb, rc);
    // (ra.rb).bc + (ra.bb + ba) == ra.(rb.bc + bb) + ba
    MatVecMatMul(ra, rb, c.B(e));
    MatVecAdd(ra, MatVec(rb, c.B(e)), b.B(e));
    var x, y, z := MatVec(ra, MatVec(rb, c.B(e))), MatVec(ra, b.B(e)), a.B(e);
    var lhs, rhs := VecAdd(x, VecAdd(y, z)), VecAdd(VecAdd(x, y), z);
    forall i | 0 <= i < 6 ensures lhs[i] == rhs[i] { }
    assert lhs == rhs;
  }

  /** (a*b)*c and a*(b*c) agree on R, B, length, order and energy gain. */
  lemma ComposeAssoc(a: TransferMap, b: TransferMap, c: TransferMap)
    ensures SameLinear(Compose(Compose(a, b), c), Compose(a, Compose(b, c)))
    ensures Compose(Compose(a, b), c).order == Compose(a, Compose(b, c)).order
    ensures Compose(Compose(a, b), c).deltaE == Compose(a, Compose(b, c)).deltaE
  {
    forall e
      ensures Compose(Compose(a, b), c).R(e) == Compose(a, Compose(b, c)).R(e)
      ensures Compose(Compose(a, b), c).B(e) == Compose(a, Compose(b, c)).B(e)
    {
      ComposeAssocAt(a, b, c, e);
    }
  }

  /**
   * The z-dependent description of an element's transport built by the map factory:
   * R_z, B_z, delta_e_z, map_z and sym_map_z as functions of the sub-length z,
   * plus the element's nominal length, its order tag and its curvature hx.
   */
  datatype ElementMap = ElementMap(
    length: real,
    order: nat,
    hx: real,
    Rz: (real, real) -> Mat6,
    Bz: (real, real) -> Vec6,
    deltaEz: real -> real,
    mapZ: KickZ,
    symMapZ: KickZ)

  /**
   * __call__(s): a copy of the map with R, B, delta_e, map and sym_map re-evaluated
   * at the sub-length s. The order and the identity flag are copied, never changed.
   */
  function Slice(em: ElementMap, s: real): (m: TransferMap)
    ensures m.length == s && m.order == em.order && !m.identity
    ensures m.deltaE == em.deltaEz(s)
    ensures forall e :: m.R(e) == em.Rz(s, e) && m.B(e) == em.Bz(s, e)
  {
    TransferMap(
      e => em.Rz(s, e),
      e => em.Bz(s, e),
      s, em.order, em.deltaEz(s), false,
      (u, e) => em.mapZ(u, s, e),
      (u, e) => em.symMapZ(u, s, e))
  }

  /** The element's own transfer map: its fields evaluated at the element length. */
  function FullMap(em: ElementMap): TransferMap
  {
    Slice(em, em.length)
  }
}
