/**
 * Tracking particles through a transfer map: mul_p_array, the particle case of
 * __mul__, and apply (cpbd/optics.py).
 */
module Tracking {
  import opened LinAlg
  import opened Wrappers
  import opened TransferMaps
  import opened ParticleBuffers

  /** particles[:] = v. */
  method CopyInto(a: array<real>, v: seq<real>)
    requires |v| == a.Length
    modifies a
    ensures a[..] == v
  {
    forall i | 0 <= i < a.Length {
      a[i] := v[i];
    }
  }

  /**
   * What mul_p_array leaves in the buffer: the linear map on every particle when
   * the map or the request is of order 1, else the map's `map` (order 2) or
   * `sym_map` (order 3); None for any other requested order.
   */
  function MulPArrayResult(m: TransferMap, u: seq<real>, energy: real, order: int): (r: Option<seq<real>>)
    ensures r.Some? <==> (m.order == 1 || order == 1 || order == 2 || order == 3)
    ensures r.Some? ==> |r.value| == |u|
  {
    if m.order == 1 || order == 1 then Some(Blockwise(u, AffineMap(m.R(energy), m.B(energy))))
    else if order == 2 then Some(m.kick(u, energy))
    else if order == 3 then Some(m.symKick(u, energy))
    else None
  }

  /**
   * mul_p_array: updates the buffer in place and returns it, or returns None
   * (null) without touching it when the requested order is not handled.
   */
  method MulPArray(m: TransferMap, particles: array<real>, energy: real, order: int) returns (res: array?<real>)
    requires (m.order == 1 || order == 1) ==> particles.Length % 6 == 0
    modifies particles
    ensures MulPArrayResult(m, old(particles[..]), energy, order).Some? ==>
              res == particles && particles[..] == MulPArrayResult(m, old(particles[..]), energy, order).value
    ensures MulPArrayResult(m, old(particles[..]), energy, order).None? ==>
              res == null && particles[..] == old(particles[..])
  {
    if m.order == 1 || order == 1 {
      ApplyPerParticle(particles, AffineMap(m.R(energy), m.B(energy)));
      return particles;
    }
    if order == 2 {
      CopyInto(particles, m.kick(particles[..], energy));
      return particles;
    }
    if order == 3 {
      CopyInto(particles, m.symKick(particles[..], energy));
      return particles;
    }
    return null;
  }

  /** Tracking with b and then with a is tracking with a*b, on every buffer. */
  lemma LinearTrackingComposes(a: TransferMap, b: TransferMap, u: seq<real>, energy: real)
    ensures Blockwise(Blockwise(u, AffineMap(b.R(energy), b.B(energy))), AffineMap(a.R(energy), a.B(energy)))
         == Blockwise(u, AffineMap(Compose(a, b).R(energy), Compose(a, b).B(energy)))
  {
    var f, g := AffineMap(b.R(energy), b.B(energy)), AffineMap(a.R(energy), a.B(energy));
    var h := AffineMap(Compose(a, b).R(energy), Compose(a, b).B(energy));
    forall p: Vec6 ensures h(p) == g(f(p)) {
      ComposeTracks(a, b, energy, p);
    }
    BlockwiseThen(u, f, g, h);
  }

  /** The identity map leaves every buffer as it is. */
  lemma IdentityTracking(u: seq<real>, energy: real)
    ensures Blockwise(u, AffineMap(IdentityMap().R(energy), IdentityMap().B(energy))) == u
  {
    var f := AffineMap(IdentityMap().R(energy), IdentityMap().B(energy));
    forall p: Vec6 ensures f(p) == p {
      MatVecEye(p);
      assert VecAdd(p, Zeros(6)) == p;
    }
    BlockwiseKeep(u, f);
  }

  // ---------------------------------------------------------------------------
  // Single particles

  /** A particle: its six coordinates, its position s and its energy E. */
  datatype Particle = Particle(x: real, px: real, y: real, py: real, tau: real, p: real, s: real, E: real)

  function Coords(q: Particle): Vec6
  {
    [q.x, q.px, q.y, q.py, q.tau, q.p]
  }

  /**
   * map * particle: a new particle whose coordinates are tracked at energy 0 by
   * the linear part of the map and whose s is advanced by the map length. Its
   * energy is whatever a new Particle starts with (`freshE`): the input's energy
   * is not carried over.
   */
  function MulParticle(m: TransferMap, q: Particle, freshE: real): (r: Particle)
    ensures Coords(r) == Track(m, 0.0, Coords(q))
    ensures r.s == q.s + m.length && r.E == freshE
  {
    var v := Affine6(m.R(0.0), m.B(0.0), Coords(q));
    Particle(v[0], v[1], v[2], v[3], v[4], v[5], q.s + m.length, freshE)
  }

  /** (a*b)*q and a*(b*q) put the particle at the same coordinates and position. */
  lemma MulParticleAssoc(a: TransferMap, b: TransferMap, q: Particle, freshE: real)
    ensures Coords(MulParticle(Compose(a, b), q, freshE)) == Coords(MulParticle(a, MulParticle(b, q, freshE), freshE))
    ensures MulParticle(Compose(a, b), q, freshE).s == MulParticle(a, MulParticle(b, q, freshE), freshE).s
  {
    ComposeTracks(a, b, 0.0, Coords(q));
  }

  // ---------------------------------------------------------------------------
  // apply

  /** Every particle of the list has the energy of the first one. */
  predicate SameEnergy(ps: seq<Particle>)
    requires |ps| > 0
  {
    forall k | 0 <= k < |ps| :: ps[k].E == ps[0].E
  }

  /**
   * The ParticleArray conversions apply relies on, which are not part of this
   * model: `pack` is list2array, `unpack(buffer, E, s, list)` is array2ex_list
   * after E and s are set, and `initialS` is the s of a new ParticleArray.
   */
  datatype ArrayCodec = ArrayCodec(
    pack: seq<Particle> -> seq<real>,
    unpack: (seq<real>, real, real, seq<Particle>) -> seq<Particle>,
    initialS: real)

  /**
   * apply on a list of particles. With differing energies each particle is
   * tracked on a temporary copy that is then dropped: only E and s change.
   * With one common energy the list goes through a ParticleArray.
   */
  method ApplyToList(m: TransferMap, ps: seq<Particle>, order: int, codec: ArrayCodec) returns (res: seq<Particle>)
    requires |ps| > 0
    requires SameEnergy(ps) && (m.order == 1 || order == 1) ==> |codec.pack(ps)| % 6 == 0
    ensures !SameEnergy(ps) ==> |res| == |ps|
    ensures !SameEnergy(ps) ==> forall k | 0 <= k < |ps| ::
              Coords(res[k]) == Coords(ps[k]) && res[k].E == ps[k].E + m.deltaE && res[k].s == ps[k].s + m.length
    ensures SameEnergy(ps) ==>
              var u := codec.pack(ps);
              var mapped := MulPArrayResult(m, u, ps[0].E, order);
              res == codec.unpack(if mapped.Some? then mapped.value else u,
                                  ps[0].E + m.deltaE, codec.initialS + m.length, ps)
  {
    if !SameEnergy(ps) {
      res := ps;
      var k := 0;
      while k < |ps|
        invariant 0 <= k <= |ps| && |res| == |ps|
        invariant forall j | 0 <= j < k ::
                    Coords(res[j]) == Coords(ps[j]) && res[j].E == ps[j].E + m.deltaE && res[j].s == ps[j].s + m.length
        invariant res[k..] == ps[k..]
      {
        var tmp := new real[6](i requires 0 <= i < 6 => Coords(ps[k])[i]);
        var _ := MulPArray(m, tmp, ps[k].E, order);
        res := res[k := res[k].(E := res[k].E + m.deltaE, s := res[k].s + m.length)];
        k := k + 1;
      }
    } else {
      var arr := new real[|codec.pack(ps)|](i requires 0 <= i < |codec.pack(ps)| => codec.pack(ps)[i]);
      assert arr[..] == codec.pack(ps);
      var e := ps[0].E;
      var _ := MulPArray(m, arr, e, order);
      res := codec.unpack(arr[..], e + m.deltaE, codec.initialS + m.length, ps);
    }
  }

  /** A ParticleArray: a flat buffer with one energy and one position for the whole bunch. */
  class ParticleArray {
    var particles: array<real>
    var E: real
    var s: real

    constructor (particles: array<real>, E: real, s: real)
      ensures this.particles == particles && this.E == E && this.s == s
    {
      this.particles := particles;
      this.E := E;
      this.s := s;
    }
  }

  /** apply on a ParticleArray: track the buffer at its energy, then advance E and s. */
  method ApplyToArray(m: TransferMap, pa: ParticleArray, order: int)
    requires (m.order == 1 || order == 1) ==> pa.particles.Length % 6 == 0
    modifies pa, pa.particles
    ensures pa.particles == old(pa.particles)
    ensures var mapped := MulPArrayResult(m, old(pa.particles[..]), old(pa.E), order);
            pa.particles[..] == if mapped.Some? then mapped.value else old(pa.particles[..])
    ensures pa.E == old(pa.E) + m.deltaE && pa.s == old(pa.s) + m.length
  {
    var _ := MulPArray(m, pa.particles, pa.E, order);
    pa.E := pa.E + m.deltaE;
    pa.s := pa.s + m.length;
  }
}
