/**
 * Chromaticity of a lattice and its correction with two sextupole families
 * (cpbd/chromaticity.py).
 *
 * The walks carry the Twiss from element to element with the Twiss product
 * `mul` (`transfer_map * tws`). The five-point Simpson integrals over a bend or
 * a quadrupole (natural chromaticity) and over a sextupole (sextupole
 * chromaticity) are float quadrature over Twiss values traced inside the
 * element; they are given as the functions `quad` and `sexQuad` of the element,
 * its map and the Twiss at its entrance. pi is `lib.pi`.
 */
module Chromaticity {
  import opened MathLib
  import opened Wrappers
  import opened TransferMaps
  import opened Elements
  import opened Lattice
  import opened TwissOptics
  import opened Linear2
  import opened SextupoleFamilies
  import opened Tracing

  // ---------------------------------------------------------------------------
  // natural_chromaticity, sextupole_chromaticity, chromaticity

  /** The Twiss at the exit of an element with map em, from the Twiss t at its entrance. */
  function Through(mul: (TransferMap, Twiss) -> Twiss, em: ElementMap, t: Twiss): Twiss {
    mul(FullMap(em), t)
  }

  /** The element classes whose focusing natural_chromaticity integrates. */
  predicate Focusing(k: Kind) {
    k == SBend || k == RBend || k == Bend || k == Quadrupole
  }

  /** A pair of horizontal and vertical values. */
  datatype Pair = Pair(x: real, y: real)

  /** The running integrals of a walk and the Twiss at the entrance of the next element. */
  datatype Walk = Walk(integral: Pair, twiss: Twiss)

  /**
   * natural_chromaticity's integrals over the elements ds (with maps ems) from the
   * Twiss tw0: a bend or a quadrupole adds its quadrature, a multipole adds
   * beta_x kn[1] and subtracts beta_y kn[1] at its exit. None when a multipole
   * has no kn[1].
   */
  function NaturalWalk(mul: (TransferMap, Twiss) -> Twiss, quad: (ElementData, ElementMap, Twiss) -> Pair,
                       ds: seq<ElementData>, ems: seq<ElementMap>, tw0: Twiss): Option<Walk>
    requires |ems| == |ds|
  {
    if |ds| == 0 then Some(Walk(Pair(0.0, 0.0), tw0))
    else
      var prev := NaturalWalk(mul, quad, ds[..|ds| - 1], ems[..|ds| - 1], tw0);
      if prev.None? then None
      else NaturalStep(mul, quad, ds[|ds| - 1], ems[|ds| - 1], prev.value)
  }

  /** One element of natural_chromaticity's walk. */
  function NaturalStep(mul: (TransferMap, Twiss) -> Twiss, quad: (ElementData, ElementMap, Twiss) -> Pair,
                       d: ElementData, em: ElementMap, w: Walk): Option<Walk>
  {
    var next := Through(mul, em, w.twiss);
    if Focusing(d.kind) then Some(Walk(Plus(w.integral, quad(d, em, w.twiss)), next))
    else if d.kind == Multipole then
      if |d.kn| < 2 then None
      else Some(Walk(Plus(w.integral, MultipoleShare(next, d.kn[1])), next))
    else Some(Walk(w.integral, next))
  }

  /** Component-wise sum. */
  function Plus(p: Pair, q: Pair): Pair {
    Pair(p.x + q.x, p.y + q.y)
  }

  /** A thin multipole's share of the integrals: beta_x kn[1] and -beta_y kn[1] at its exit. */
  function MultipoleShare(t: Twiss, kn1: real): Pair {
    Pair(t.betaX * kn1, -(t.betaY * kn1))
  }

  /** The chromaticity from the integrals: -integral / (4 pi), times the number of superperiods. */
  function NaturalOf(lib: Lib, integral: Pair, ns: real): Pair
    requires lib.pi > 0.0
  {
    Pair(-integral.x / (4.0 * lib.pi) * ns, -integral.y / (4.0 * lib.pi) * ns)
  }

  /** natural_chromaticity(lattice, tws_0, nsuperperiod). */
  method NaturalChromaticity(mul: (TransferMap, Twiss) -> Twiss, quad: (ElementData, ElementMap, Twiss) -> Pair,
                             lib: Lib, lat: seq<Element>, tw0: Twiss, ns: real)
    returns (ksi: Option<Pair>)
    requires lib.pi > 0.0
    ensures var w := NaturalWalk(mul, quad, ParamsOf(lat), MapsOf(lat), tw0);
            ksi == if w.None? then None else Some(NaturalOf(lib, w.value.integral, ns))
  {
    ghost var ds := ParamsOf(lat);
    ghost var ems := MapsOf(lat);
    var w := Walk(Pair(0.0, 0.0), tw0);
    for i := 0 to |lat|
      invariant NaturalWalk(mul, quad, ds[..i], ems[..i], tw0) == Some(w)
    {
      var next := NaturalElement(mul, quad, lat[i], w);
      NaturalWalkStep(mul, quad, ds, ems, tw0, i);
      if next.None? {
        NaturalWalkStaysNone(mul, quad, ds, ems, tw0, i + 1);
        return None;
      }
      w := next.value;
    }
    assert ds[..|lat|] == ds && ems[..|lat|] == ems;
    ksi := Some(NaturalOf(lib, w.integral, ns));
  }

  /** The work natural_chromaticity does on one element. */
  method NaturalElement(mul: (TransferMap, Twiss) -> Twiss, quad: (ElementData, ElementMap, Twiss) -> Pair,
                        e: Element, w: Walk)
    returns (next: Option<Walk>)
    ensures next == NaturalStep(mul, quad, e.data, e.transferMap, w)
  {
    var integrX, integrY := w.integral.x, w.integral.y;
    var d := e.data;
    if Focusing(d.kind) {
      var q := quad(d, e.transferMap, w.twiss);
      integrX := integrX + q.x;
      integrY := integrY + q.y;
    } else if d.kind == Multipole {
      var twissZ := Through(mul, e.transferMap, w.twiss);
      if |d.kn| < 2 {
        return None;
      }
      integrX := integrX + twissZ.betaX * d.kn[1];
      integrY := integrY - twissZ.betaY * d.kn[1];
      assert Pair(integrX, integrY) == Plus(w.integral, MultipoleShare(twissZ, d.kn[1]));
    }
    next := Some(Walk(Pair(integrX, integrY), Through(mul, e.transferMap, w.twiss)));
  }

  /** The walk over the first i + 1 elements is the walk over the first i followed by element i. */
  lemma NaturalWalkStep(mul: (TransferMap, Twiss) -> Twiss, quad: (ElementData, ElementMap, Twiss) -> Pair,
                        ds: seq<ElementData>, ems: seq<ElementMap>, tw0: Twiss, i: nat)
    requires |ems| == |ds| && i < |ds|
    ensures var prev := NaturalWalk(mul, quad, ds[..i], ems[..i], tw0);
            NaturalWalk(mul, quad, ds[..i + 1], ems[..i + 1], tw0)
              == if prev.None? then None else NaturalStep(mul, quad, ds[i], ems[i], prev.value)
  {
    assert ds[..i + 1][..i] == ds[..i] && ems[..i + 1][..i] == ems[..i];
  }

  /** A walk that has failed stays failed. */
  lemma {:induction false} NaturalWalkStaysNone(mul: (TransferMap, Twiss) -> Twiss, quad: (ElementData, ElementMap, Twiss) -> Pair,
                                                ds: seq<ElementData>, ems: seq<ElementMap>, tw0: Twiss, k: nat)
    requires |ems| == |ds| && k <= |ds|
    requires NaturalWalk(mul, quad, ds[..k], ems[..k], tw0).None?
    ensures NaturalWalk(mul, quad, ds, ems, tw0).None?
    decreases |ds| - k
  {
    if k < |ds| {
      NaturalWalkStep(mul, quad, ds, ems, tw0, k);
      NaturalWalkStaysNone(mul, quad, ds, ems, tw0, k + 1);
    } else {
      assert ds[..k] == ds && ems[..k] == ems;
    }
  }

  /**
   * sextupole_chromaticity's integrals: a sextupole adds its quadrature times
   * its k2; every element carries the Twiss on.
   */
  function SextupoleWalk(mul: (TransferMap, Twiss) -> Twiss, sexQuad: (ElementData, ElementMap, Twiss) -> Pair,
                         ds: seq<ElementData>, ems: seq<ElementMap>, tw0: Twiss): Walk
    requires |ems| == |ds|
  {
    if |ds| == 0 then Walk(Pair(0.0, 0.0), tw0)
    else SextupoleStep(mul, sexQuad, ds[|ds| - 1], ems[|ds| - 1],
                       SextupoleWalk(mul, sexQuad, ds[..|ds| - 1], ems[..|ds| - 1], tw0))
  }

  /** One element of sextupole_chromaticity's walk. */
  function SextupoleStep(mul: (TransferMap, Twiss) -> Twiss, sexQuad: (ElementData, ElementMap, Twiss) -> Pair,
                         d: ElementData, em: ElementMap, w: Walk): Walk
  {
    var next := Through(mul, em, w.twiss);
    if d.kind == Sextupole then Walk(Plus(w.integral, Scaled(sexQuad(d, em, w.twiss), d.k2)), next)
    else Walk(w.integral, next)
  }

  /** Both components times c. */
  function Scaled(p: Pair, c: real): Pair {
    Pair(p.x * c, p.y * c)
  }

  /** The walk over the first i + 1 elements is the walk over the first i followed by element i. */
  lemma SextupoleWalkStep(mul: (TransferMap, Twiss) -> Twiss, sexQuad: (ElementData, ElementMap, Twiss) -> Pair,
                          ds: seq<ElementData>, ems: seq<ElementMap>, tw0: Twiss, i: nat)
    requires |ems| == |ds| && i < |ds|
    ensures SextupoleWalk(mul, sexQuad, ds[..i + 1], ems[..i + 1], tw0)
            == SextupoleStep(mul, sexQuad, ds[i], ems[i], SextupoleWalk(mul, sexQuad, ds[..i], ems[..i], tw0))
  {
    assert ds[..i + 1][..i] == ds[..i] && ems[..i + 1][..i] == ems[..i];
  }

  /** The sextupole chromaticity from its integrals: (integral_x, -integral_y) / (4 pi), times the superperiods. */
  function SextupoleOf(lib: Lib, integral: Pair, ns: real): Pair
    requires lib.pi > 0.0
  {
    Pair(integral.x / (4.0 * lib.pi) * ns, -integral.y / (4.0 * lib.pi) * ns)
  }

  /** sextupole_chromaticity(lattice, tws0, nsuperperiod). */
  method SextupoleChromaticity(mul: (TransferMap, Twiss) -> Twiss, sexQuad: (ElementData, ElementMap, Twiss) -> Pair,
                               lib: Lib, lat: seq<Element>, tw0: Twiss, ns: real)
    returns (ksi: Pair)
    requires lib.pi > 0.0
    ensures ksi == SextupoleOf(lib, SextupoleWalk(mul, sexQuad, ParamsOf(lat), MapsOf(lat), tw0).integral, ns)
  {
    ghost var ds := ParamsOf(lat);
    ghost var ems := MapsOf(lat);
    var w := Walk(Pair(0.0, 0.0), tw0);
    for i := 0 to |lat|
      invariant SextupoleWalk(mul, sexQuad, ds[..i], ems[..i], tw0) == w
    {
      w := SextupoleElement(mul, sexQuad, lat[i], w);
      SextupoleWalkStep(mul, sexQuad, ds, ems, tw0, i);
    }
    assert ds[..|lat|] == ds && ems[..|lat|] == ems;
    ksi := SextupoleOf(lib, w.integral, ns);
  }

  /** The work sextupole_chromaticity does on one element. */
  method SextupoleElement(mul: (TransferMap, Twiss) -> Twiss, sexQuad: (ElementData, ElementMap, Twiss) -> Pair,
                          e: Element, w: Walk)
    returns (next: Walk)
    ensures next == SextupoleStep(mul, sexQuad, e.data, e.transferMap, w)
  {
    var integrX, integrY := w.integral.x, w.integral.y;
    if e.data.kind == Sextupole {
      var q := sexQuad(e.data, e.transferMap, w.twiss);
      integrX := integrX + q.x * e.data.k2;
      integrY := integrY + q.y * e.data.k2;
      assert Pair(integrX, integrY) == Plus(w.integral, Scaled(q, e.data.k2));
    }
    next := Walk(Pair(integrX, integrY), Through(mul, e.transferMap, w.twiss));
  }

  /** chromaticity(lattice, tws_0, nsuperperiod): the natural and the sextupole parts added component-wise. */
  method Chromaticity(mul: (TransferMap, Twiss) -> Twiss, quad: (ElementData, ElementMap, Twiss) -> Pair,
                      sexQuad: (ElementData, ElementMap, Twiss) -> Pair,
                      lib: Lib, lat: seq<Element>, tw0: Twiss, ns: real)
    returns (ksi: Option<Pair>)
    requires lib.pi > 0.0
    ensures var w := NaturalWalk(mul, quad, ParamsOf(lat), MapsOf(lat), tw0);
            var s := SextupoleOf(lib, SextupoleWalk(mul, sexQuad, ParamsOf(lat), MapsOf(lat), tw0).integral, ns);
            ksi == if w.None? then None
                   else Some(Pair(NaturalOf(lib, w.value.integral, ns).x + s.x, NaturalOf(lib, w.value.integral, ns).y + s.y))
  {
    var natural := NaturalChromaticity(mul, quad, lib, lat, tw0, ns);
    var sext := SextupoleChromaticity(mul, sexQuad, lib, lat, tw0, ns);
    if natural.None? {
      return None;
    }
    ksi := Some(Pair(natural.value.x + sext.x, natural.value.y + sext.y));
  }

  // ---------------------------------------------------------------------------
  // Properties of the chromaticity walks

  /** A walk whose integrals start from a instead of zero. */
  function Offset(a: Pair, w: Walk): Walk {
    Walk(Plus(a, w.integral), w.twiss)
  }

  /**
   * The walks are additive: over a lattice split in two, the integrals are those
   * of the first part plus those of the second part walked from the Twiss the
   * first part ends with; the whole walk fails exactly when one of the parts does.
   */
  lemma {:induction false} NaturalWalkAppend(mul: (TransferMap, Twiss) -> Twiss, quad: (ElementData, ElementMap, Twiss) -> Pair,
                                             ds1: seq<ElementData>, ems1: seq<ElementMap>,
                                             ds2: seq<ElementData>, ems2: seq<ElementMap>, tw0: Twiss)
    requires |ems1| == |ds1| && |ems2| == |ds2|
    ensures var w1 := NaturalWalk(mul, quad, ds1, ems1, tw0);
            NaturalWalk(mul, quad, ds1 + ds2, ems1 + ems2, tw0)
              == if w1.None? then None
                 else match NaturalWalk(mul, quad, ds2, ems2, w1.value.twiss)
                      case None => None
                      case Some(w2) => Some(Offset(w1.value.integral, w2))
    decreases |ds2|
  {
    var n := |ds2|;
    if n == 0 {
      assert ds1 + ds2 == ds1 && ems1 + ems2 == ems1;
    } else {
      NaturalWalkAppend(mul, quad, ds1, ems1, ds2[..n - 1], ems2[..n - 1], tw0);
      var ds, ems := ds1 + ds2, ems1 + ems2;
      assert ds[..|ds| - 1] == ds1 + ds2[..n - 1] && ds[|ds| - 1] == ds2[n - 1];
      assert ems[..|ds| - 1] == ems1 + ems2[..n - 1] && ems[|ds| - 1] == ems2[n - 1];
      var prev := NaturalWalk(mul, quad, ds1 + ds2[..n - 1], ems1 + ems2[..n - 1], tw0);
      var whole := NaturalWalk(mul, quad, ds, ems, tw0);
      assert whole == if prev.None? then None else NaturalStep(mul, quad, ds2[n - 1], ems2[n - 1], prev.value);
      var w1 := NaturalWalk(mul, quad, ds1, ems1, tw0);
      if w1.Some? {
        var w2 := NaturalWalk(mul, quad, ds2[..n - 1], ems2[..n - 1], w1.value.twiss);
        var last := NaturalWalk(mul, quad, ds2, ems2, w1.value.twiss);
        assert last == if w2.None? then None else NaturalStep(mul, quad, ds2[n - 1], ems2[n - 1], w2.value);
        if w2.Some? {
          assert prev == Some(Offset(w1.value.integral, w2.value));
          NaturalStepOffset(mul, quad, ds2[n - 1], ems2[n - 1], w1.value.integral, w2.value);
        }
      }
    }
  }

  /** A step from offset integrals is the offset step. */
  lemma NaturalStepOffset(mul: (TransferMap, Twiss) -> Twiss, quad: (ElementData, ElementMap, Twiss) -> Pair,
                          d: ElementData, em: ElementMap, a: Pair, w: Walk)
    ensures NaturalStep(mul, quad, d, em, Offset(a, w))
            == match NaturalStep(mul, quad, d, em, w)
               case None => None
               case Some(r) => Some(Offset(a, r))
  {
  }

  /** Likewise for the sextupole walk. */
  lemma {:induction false} SextupoleWalkAppend(mul: (TransferMap, Twiss) -> Twiss, sexQuad: (ElementData, ElementMap, Twiss) -> Pair,
                                               ds1: seq<ElementData>, ems1: seq<ElementMap>,
                                               ds2: seq<ElementData>, ems2: seq<ElementMap>, tw0: Twiss)
    requires |ems1| == |ds1| && |ems2| == |ds2|
    ensures var w1 := SextupoleWalk(mul, sexQuad, ds1, ems1, tw0);
            SextupoleWalk(mul, sexQuad, ds1 + ds2, ems1 + ems2, tw0)
              == Offset(w1.integral, SextupoleWalk(mul, sexQuad, ds2, ems2, w1.twiss))
    decreases |ds2|
  {
    var n := |ds2|;
    if n == 0 {
      assert ds1 + ds2 == ds1 && ems1 + ems2 == ems1;
    } else {
      SextupoleWalkAppend(mul, sexQuad, ds1, ems1, ds2[..n - 1], ems2[..n - 1], tw0);
      assert (ds1 + ds2)[..|ds1 + ds2| - 1] == ds1 + ds2[..n - 1];
      assert (ems1 + ems2)[..|ds1 + ds2| - 1] == ems1 + ems2[..n - 1];
      var w1 := SextupoleWalk(mul, sexQuad, ds1, ems1, tw0);
      SextupoleStepOffset(mul, sexQuad, ds2[n - 1], ems2[n - 1], w1.integral,
                          SextupoleWalk(mul, sexQuad, ds2[..n - 1], ems2[..n - 1], w1.twiss));
    }
  }

  /** A step from offset integrals is the offset step. */
  lemma SextupoleStepOffset(mul: (TransferMap, Twiss) -> Twiss, sexQuad: (ElementData, ElementMap, Twiss) -> Pair,
                            d: ElementData, em: ElementMap, a: Pair, w: Walk)
    ensures SextupoleStep(mul, sexQuad, d, em, Offset(a, w)) == Offset(a, SextupoleStep(mul, sexQuad, d, em, w))
  {
  }

  /** Without sextupoles the sextupole part vanishes, so the chromaticity is the natural one. */
  lemma {:induction false} NoSextupolesNoCorrection(mul: (TransferMap, Twiss) -> Twiss, sexQuad: (ElementData, ElementMap, Twiss) -> Pair,
                                                    ds: seq<ElementData>, ems: seq<ElementMap>, tw0: Twiss)
    requires |ems| == |ds|
    requires forall i | 0 <= i < |ds| :: ds[i].kind != Sextupole
    ensures SextupoleWalk(mul, sexQuad, ds, ems, tw0).integral == Pair(0.0, 0.0)
  {
    if |ds| > 0 {
      NoSextupolesNoCorrection(mul, sexQuad, ds[..|ds| - 1], ems[..|ds| - 1], tw0);
    }
  }

  /**
   * A single multipole: its kn[1] at the beta functions it ends with makes the
   * chromaticity -beta_x kn[1] / (4 pi) and +beta_y kn[1] / (4 pi) per
   * superperiod.
   */
  lemma ThinMultipole(mul: (TransferMap, Twiss) -> Twiss, quad: (ElementData, ElementMap, Twiss) -> Pair, lib: Lib,
                      d: ElementData, em: ElementMap, tw0: Twiss)
    requires lib.pi > 0.0 && d.kind == Multipole && |d.kn| >= 2
    ensures var t := Through(mul, em, tw0);
            var w := NaturalWalk(mul, quad, [d], [em], tw0);
            && w.Some?
            && NaturalOf(lib, w.value.integral, 1.0) == Pair(-t.betaX * d.kn[1] / (4.0 * lib.pi), t.betaY * d.kn[1] / (4.0 * lib.pi))
  {
    assert [d][..0] == [] && [em][..0] == [];
  }

  // ---------------------------------------------------------------------------
  // calculate_sex_strength

  /** The sums m1x, m1y (first family) and m2x, m2y (second family) of calculate_sex_strength. */
  datatype Moments = Moments(m1x: real, m1y: real, m2x: real, m2y: real)

  /**
   * One element's share, from the Twiss t at its entrance: an element with the
   * first family's id adds Dx beta_x / (4 pi) ns to m1x and subtracts
   * Dx beta_y / (4 pi) ns from m1y; one with the second family's id does the same
   * to m2x and m2y; any other element adds nothing.
   */
  function AddMoments(lib: Lib, m: Moments, id: string, n0: string, n1: string, t: Twiss, ns: real): Moments
    requires lib.pi > 0.0
  {
    if id == n0 then
      m.(m1x := m.m1x + t.Dx * t.betaX / (4.0 * lib.pi) * ns, m1y := m.m1y - t.Dx * t.betaY / (4.0 * lib.pi) * ns)
    else if id == n1 then
      m.(m2x := m.m2x + t.Dx * t.betaX / (4.0 * lib.pi) * ns, m2y := m.m2y - t.Dx * t.betaY / (4.0 * lib.pi) * ns)
    else m
  }

  /** The sums so far and the Twiss at the entrance of the next element. */
  datatype Sums = Sums(moments: Moments, twiss: Twiss)

  /** The sums and the Twiss after the first k elements, from Twiss tw0 at the start. */
  function MomentsUpTo(mul: (TransferMap, Twiss) -> Twiss, lib: Lib, ds: seq<ElementData>, ems: seq<ElementMap>, tw0: Twiss,
                       n0: string, n1: string, ns: real, k: nat): Sums
    requires |ems| == |ds| && k <= |ds| && lib.pi > 0.0
  {
    if k == 0 then Sums(Moments(0.0, 0.0, 0.0, 0.0), tw0)
    else
      var prev := MomentsUpTo(mul, lib, ds, ems, tw0, n0, n1, ns, k - 1);
      Sums(AddMoments(lib, prev.moments, ds[k - 1].id, n0, n1, prev.twiss, ns), Through(mul, ems[k - 1], prev.twiss))
  }

  /**
   * The strengths of the families n0 and n1: the solution of
   * [[m1x, m2x], [m1y, m2y]] k = (ksi_x_comp - ksi_x, ksi_y_comp - ksi_y),
   * recorded under n0 and then n1.
   */
  function StrengthsFor(m: Moments, ksi: Pair, ksiComp: Pair, n0: string, n1: string): Dict
  {
    var k := Solve2(m.m1x, m.m2x, m.m1y, m.m2y, ksiComp.x - ksi.x, ksiComp.y - ksi.y);
    Dict([n0, n1], map[n0 := k.0][n1 := k.1])
  }

  /** calculate_sex_strength on the lattice parameters ds and maps ems. */
  function SexStrengthOf(mul: (TransferMap, Twiss) -> Twiss, lib: Lib, ds: seq<ElementData>, ems: seq<ElementMap>,
                         tw0: Twiss, ksi: Pair, ksiComp: Pair, ns: real): Result<Dict, FamilyError>
    requires |ems| == |ds| && lib.pi > 0.0
  {
    var found := SextupoleIdOf(ds);
    if found.Failure? then Failure(found.error)
    else
      SextupoleIdSucceeds(ds);
      var names := found.value.keys;
      var m := MomentsUpTo(mul, lib, ds, ems, tw0, names[0], names[1], ns, |ds|).moments;
      Success(StrengthsFor(m, ksi, ksiComp, names[0], names[1]))
  }

  /**
   * calculate_sex_strength(lattice, tws_0, ksi, ksi_comp, nsuperperiod): finds the
   * two families, sums their moments along the lattice and solves for the two
   * strengths that bring the chromaticity ksi to ksi_comp.
   */
  method CalculateSexStrength(mul: (TransferMap, Twiss) -> Twiss, lib: Lib, lat: seq<Element>, tw0: Twiss,
                              ksi: Pair, ksiComp: Pair, ns: real)
    returns (r: Result<Dict, FamilyError>)
    requires lib.pi > 0.0
    ensures r == SexStrengthOf(mul, lib, ParamsOf(lat), MapsOf(lat), tw0, ksi, ksiComp, ns)
  {
    var sex := SextupoleId(lat);
    if sex.Failure? {
      return Failure(sex.error);
    }
    var names := sex.value.keys;
    var m := SumMoments(mul, lib, lat, tw0, names[0], names[1], ns);
    assert names[0] != names[1];
    var stg := SolveStrengths(m, ksi, ksiComp, names[0], names[1]);
    r := Success(stg);
  }

  /** The loop of calculate_sex_strength: the sums of the two families along the lattice. */
  method SumMoments(mul: (TransferMap, Twiss) -> Twiss, lib: Lib, lat: seq<Element>, tw0: Twiss,
                    n0: string, n1: string, ns: real)
    returns (m: Moments)
    requires lib.pi > 0.0
    ensures m == MomentsUpTo(mul, lib, ParamsOf(lat), MapsOf(lat), tw0, n0, n1, ns, |lat|).moments
  {
    ghost var ds := ParamsOf(lat);
    ghost var ems := MapsOf(lat);
    m := Moments(0.0, 0.0, 0.0, 0.0);
    var twsElem := tw0;
    for i := 0 to |lat|
      invariant Sums(m, twsElem) == MomentsUpTo(mul, lib, ds, ems, tw0, n0, n1, ns, i)
    {
      m, twsElem := MomentsElement(mul, lib, lat[i], n0, n1, ns, m, twsElem);
    }
  }

  /** The 2x2 solve of calculate_sex_strength and the dictionary of the two strengths, first family first. */
  method SolveStrengths(m: Moments, ksi: Pair, ksiComp: Pair, n0: string, n1: string) returns (stg: Dict)
    requires n0 != n1
    ensures stg == StrengthsFor(m, ksi, ksiComp, n0, n1)
  {
    var k := Solve2(m.m1x, m.m2x, m.m1y, m.m2y, ksiComp.x - ksi.x, ksiComp.y - ksi.y);
    stg := Dict([], map[]);
    stg := Put(stg, n0, k.0);
    assert stg == Dict([n0], map[n0 := k.0]);
    stg := Put(stg, n1, k.1);
    assert stg.keys == [n0, n1];
  }

  /** The work calculate_sex_strength does on one element. */
  method MomentsElement(mul: (TransferMap, Twiss) -> Twiss, lib: Lib, e: Element, n0: string, n1: string, ns: real,
                        m: Moments, twsElem: Twiss)
    returns (m': Moments, next: Twiss)
    requires lib.pi > 0.0
    ensures m' == AddMoments(lib, m, e.data.id, n0, n1, twsElem, ns)
    ensures next == Through(mul, e.transferMap, twsElem)
  {
    m' := m;
    if e.data.id == n0 {
      m' := m'.(m1x := m'.m1x + twsElem.Dx * twsElem.betaX / (4.0 * lib.pi) * ns);
      m' := m'.(m1y := m'.m1y - twsElem.Dx * twsElem.betaY / (4.0 * lib.pi) * ns);
    } else if e.data.id == n1 {
      m' := m'.(m2x := m'.m2x + twsElem.Dx * twsElem.betaX / (4.0 * lib.pi) * ns);
      m' := m'.(m2y := m'.m2y - twsElem.Dx * twsElem.betaY / (4.0 * lib.pi) * ns);
    }
    next := Through(mul, e.transferMap, twsElem);
    if e.data.id == n0 {
      assert m'.m1x == m.m1x + twsElem.Dx * twsElem.betaX / (4.0 * lib.pi) * ns;
      assert m'.m1y == m.m1y - twsElem.Dx * twsElem.betaY / (4.0 * lib.pi) * ns;
    }
  }

  // ---------------------------------------------------------------------------
  // Properties of calculate_sex_strength

  /** Strengths a and b of the two families change the chromaticity from ksi to ksiComp. */
  predicate Compensates(m: Moments, ksi: Pair, ksiComp: Pair, a: real, b: real) {
    && m.m1x * a + m.m2x * b == ksiComp.x - ksi.x
    && m.m1y * a + m.m2y * b == ksiComp.y - ksi.y
  }

  /**
   * With a nonsingular moment matrix the strengths solve the compensation
   * equations, and no other pair of strengths does.
   */
  lemma StrengthsSolve(m: Moments, ksi: Pair, ksiComp: Pair, n0: string, n1: string, a: real, b: real)
    requires n0 != n1 && Det2(m.m1x, m.m2x, m.m1y, m.m2y) != 0.0
    ensures var stg := StrengthsFor(m, ksi, ksiComp, n0, n1).values;
            stg.Keys == {n0, n1} && Compensates(m, ksi, ksiComp, stg[n0], stg[n1])
    ensures Compensates(m, ksi, ksiComp, a, b) ==> StrengthsFor(m, ksi, ksiComp, n0, n1).values == map[n0 := a, n1 := b]
  {
    Solve2Solves(m.m1x, m.m2x, m.m1y, m.m2y, ksiComp.x - ksi.x, ksiComp.y - ksi.y);
    if Compensates(m, ksi, ksiComp, a, b) {
      Solve2Unique(m.m1x, m.m2x, m.m1y, m.m2y, ksiComp.x - ksi.x, ksiComp.y - ksi.y, a, b);
    }
  }

  /** The first family's sums, with the roles of the two families swapped. */
  function Swapped(m: Moments): Moments {
    Moments(m.m2x, m.m2y, m.m1x, m.m1y)
  }

  /** Naming the families the other way round swaps the sums of the two families. */
  lemma {:induction false} MomentsSwap(mul: (TransferMap, Twiss) -> Twiss, lib: Lib, ds: seq<ElementData>, ems: seq<ElementMap>,
                                       tw0: Twiss, n0: string, n1: string, ns: real, k: nat)
    requires |ems| == |ds| && k <= |ds| && lib.pi > 0.0 && n0 != n1
    ensures MomentsUpTo(mul, lib, ds, ems, tw0, n1, n0, ns, k).moments == Swapped(MomentsUpTo(mul, lib, ds, ems, tw0, n0, n1, ns, k).moments)
    ensures MomentsUpTo(mul, lib, ds, ems, tw0, n1, n0, ns, k).twiss == MomentsUpTo(mul, lib, ds, ems, tw0, n0, n1, ns, k).twiss
  {
    if k > 0 {
      MomentsSwap(mul, lib, ds, ems, tw0, n0, n1, ns, k - 1);
      var prev := MomentsUpTo(mul, lib, ds, ems, tw0, n0, n1, ns, k - 1);
      AddMomentsSwap(lib, prev.moments, ds[k - 1].id, n0, n1, prev.twiss, ns);
    }
  }

  /** One element's share with the families named the other way round is the swapped share. */
  lemma AddMomentsSwap(lib: Lib, m: Moments, id: string, n0: string, n1: string, t: Twiss, ns: real)
    requires lib.pi > 0.0 && n0 != n1
    ensures AddMoments(lib, Swapped(m), id, n1, n0, t, ns) == Swapped(AddMoments(lib, m, id, n0, n1, t, ns))
  {
  }

  /**
   * The strength each family gets does not depend on which of the two the
   * dictionary lists first.
   */
  lemma FamilyOrderIrrelevant(mul: (TransferMap, Twiss) -> Twiss, lib: Lib, ds: seq<ElementData>, ems: seq<ElementMap>,
                              tw0: Twiss, ksi: Pair, ksiComp: Pair, n0: string, n1: string, ns: real)
    requires |ems| == |ds| && lib.pi > 0.0 && n0 != n1
    requires var m := MomentsUpTo(mul, lib, ds, ems, tw0, n0, n1, ns, |ds|).moments;
             Det2(m.m1x, m.m2x, m.m1y, m.m2y) != 0.0
    ensures StrengthsFor(MomentsUpTo(mul, lib, ds, ems, tw0, n1, n0, ns, |ds|).moments, ksi, ksiComp, n1, n0).values
            == StrengthsFor(MomentsUpTo(mul, lib, ds, ems, tw0, n0, n1, ns, |ds|).moments, ksi, ksiComp, n0, n1).values
  {
    var m := MomentsUpTo(mul, lib, ds, ems, tw0, n0, n1, ns, |ds|).moments;
    MomentsSwap(mul, lib, ds, ems, tw0, n0, n1, ns, |ds|);
    Solve2SwapColumns(m.m1x, m.m2x, m.m1y, m.m2y, ksiComp.x - ksi.x, ksiComp.y - ksi.y);
  }

  // ---------------------------------------------------------------------------
  // compensate_chromaticity

  /** Why compensate_chromaticity fails. */
  datatype CompensationError =
    | NoPeriodicSolution             // twiss() returns None, and indexing it fails
    | MissingCoefficient             // a multipole without kn[1] in natural_chromaticity
    | NoTwoFamilies(error: FamilyError)

  /**
   * What compensate_chromaticity computes from the parameters ds and maps ems:
   * the periodic Twiss at the start (twiss() from the Twiss `blank`, the start
   * of its list, labelled "none"), the natural chromaticity from it, and the two
   * family strengths that bring the chromaticity to ksiComp.
   */
  function CompensationOf(lib: Lib, quad: (ElementData, ElementMap, Twiss) -> Pair, ds: seq<ElementData>, ems: seq<ElementMap>,
                          blank: Twiss, ksiComp: Pair, ns: real): Result<Dict, CompensationError>
    requires |ems| == |ds| && lib.pi > 0.0
  {
    var start := StartTwiss(lib, ems, Some(blank), blank);
    if start.None? then Failure(NoPeriodicSolution)
    else
      var t0 := start.value.(id := "none");
      var w := NaturalWalk(TwissMul(lib), quad, ds, ems, t0);
      if w.None? then Failure(MissingCoefficient)
      else
        var s := SexStrengthOf(TwissMul(lib), lib, ds, ems, t0, NaturalOf(lib, w.value.integral, ns), ksiComp, ns);
        if s.Failure? then Failure(NoTwoFamilies(s.error)) else Success(s.value)
  }

  /**
   * compensate_chromaticity up to the write-back: the Twiss list, its first
   * entry, the natural chromaticity and the strengths.
   */
  method PlanCompensation(lib: Lib, quad: (ElementData, ElementMap, Twiss) -> Pair, lat: seq<Element>, blank: Twiss,
                          ksiComp: Pair, ns: real)
    returns (r: Result<Dict, CompensationError>)
    requires lib.pi > 0.0
    ensures r == CompensationOf(lib, quad, ParamsOf(lat), MapsOf(lat), blank, ksiComp, ns)
    ensures r.Success? ==> |r.value.keys| == 2 && r.value.keys[0] in r.value.values && r.value.keys[1] in r.value.values
  {
    var tws := ComputeTwiss(lib, lat, Some(blank), blank, None);
    if tws.None? {
      return Failure(NoPeriodicSolution);
    }
    var tws0 := tws.value[0];
    var ksi := NaturalChromaticity(TwissMul(lib), quad, lib, lat, tws0, ns);
    if ksi.None? {
      return Failure(MissingCoefficient);
    }
    var stg := CalculateSexStrength(TwissMul(lib), lib, lat, tws0, ksi.value, ksiComp, ns);
    if stg.Failure? {
      return Failure(NoTwoFamilies(stg.error));
    }
    SextupoleIdSucceeds(ParamsOf(lat));
    r := Success(stg.value);
  }

  /**
   * compensate_chromaticity(lattice, ksi_x_comp, ksi_y_comp, nsuperperiod): the
   * strengths of CompensationOf, written back into the sextupoles of the two
   * families. On failure no element changes. Rebuilding the maps afterwards is
   * not part of this model.
   */
  method CompensateChromaticity(lib: Lib, quad: (ElementData, ElementMap, Twiss) -> Pair, lat: seq<Element>, blank: Twiss,
                                ksiComp: Pair, ns: real)
    returns (r: Result<Dict, CompensationError>)
    requires lib.pi > 0.0
    modifies set e | e in lat
    ensures r == CompensationOf(lib, quad, old(ParamsOf(lat)), old(MapsOf(lat)), blank, ksiComp, ns)
    ensures r.Failure? ==> forall e | e in lat :: e.data == old(e.data)
    ensures r.Success? ==> |r.value.keys| == 2 && r.value.keys[0] in r.value.values && r.value.keys[1] in r.value.values
    ensures r.Success? ==> forall e | e in lat :: e.data == Compensated(old(e.data), r.value.keys, r.value.values)
    ensures forall e | e in lat :: e.transferMap == old(e.transferMap)
  {
    r := PlanCompensation(lib, quad, lat, blank, ksiComp, ns);
    if r.Success? {
      WriteBack(lat, r.value.keys, r.value.values);
    }
  }

  /** calculate_sex_strength, when it finds the two families, returns the solve for their moments. */
  lemma SexStrengthIs(mul: (TransferMap, Twiss) -> Twiss, lib: Lib, ds: seq<ElementData>, ems: seq<ElementMap>,
                      tw0: Twiss, ksi: Pair, ksiComp: Pair, ns: real)
    requires |ems| == |ds| && lib.pi > 0.0
    requires SexStrengthOf(mul, lib, ds, ems, tw0, ksi, ksiComp, ns).Success?
    ensures SextupoleIdOf(ds).Success? && |SextupoleIdOf(ds).value.keys| == 2
    ensures var names := SextupoleIdOf(ds).value.keys;
            var m := MomentsUpTo(mul, lib, ds, ems, tw0, names[0], names[1], ns, |ds|).moments;
            SexStrengthOf(mul, lib, ds, ems, tw0, ksi, ksiComp, ns).value == StrengthsFor(m, ksi, ksiComp, names[0], names[1])
  {
    SextupoleIdSucceeds(ds);
  }

  /**
   * When calculate_sex_strength succeeds it names the two families: two
   * distinct ids, exactly the ids of the family members.
   */
  lemma SexStrengthNames(mul: (TransferMap, Twiss) -> Twiss, lib: Lib, ds: seq<ElementData>, ems: seq<ElementMap>,
                         tw0: Twiss, ksi: Pair, ksiComp: Pair, ns: real)
    requires |ems| == |ds| && lib.pi > 0.0
    requires SexStrengthOf(mul, lib, ds, ems, tw0, ksi, ksiComp, ns).Success?
    ensures var stg := SexStrengthOf(mul, lib, ds, ems, tw0, ksi, ksiComp, ns).value;
            && |stg.keys| == 2 && stg.keys[0] != stg.keys[1]
            && (forall key :: key in stg.keys <==> exists i | 0 <= i < |ds| :: FamilyMember(ds[i]) && ds[i].id == key)
  {
    SexStrengthIs(mul, lib, ds, ems, tw0, ksi, ksiComp, ns);
    SextupoleIdSucceeds(ds);
    var names := SextupoleIdOf(ds).value.keys;
    assert SexStrengthOf(mul, lib, ds, ems, tw0, ksi, ksiComp, ns).value.keys == [names[0], names[1]] == names;
  }

  /**
   * When the moment matrix of the two families is nonsingular, the strengths
   * calculate_sex_strength returns move the chromaticity from ksi to ksiComp.
   */
  lemma SexStrengthCompensates(mul: (TransferMap, Twiss) -> Twiss, lib: Lib, ds: seq<ElementData>, ems: seq<ElementMap>,
                               tw0: Twiss, ksi: Pair, ksiComp: Pair, ns: real)
    requires |ems| == |ds| && lib.pi > 0.0
    requires SexStrengthOf(mul, lib, ds, ems, tw0, ksi, ksiComp, ns).Success?
    ensures var stg := SexStrengthOf(mul, lib, ds, ems, tw0, ksi, ksiComp, ns).value;
            && |stg.keys| == 2
            && var m := MomentsUpTo(mul, lib, ds, ems, tw0, stg.keys[0], stg.keys[1], ns, |ds|).moments;
               Det2(m.m1x, m.m2x, m.m1y, m.m2y) != 0.0 ==>
                 Compensates(m, ksi, ksiComp, stg.values[stg.keys[0]], stg.values[stg.keys[1]])
  {
    SexStrengthIs(mul, lib, ds, ems, tw0, ksi, ksiComp, ns);
    SextupoleIdSucceeds(ds);
    var names := SextupoleIdOf(ds).value.keys;
    var m := MomentsUpTo(mul, lib, ds, ems, tw0, names[0], names[1], ns, |ds|).moments;
    if Det2(m.m1x, m.m2x, m.m1y, m.m2y) != 0.0 {
      StrengthsSolve(m, ksi, ksiComp, names[0], names[1], 0.0, 0.0);
    }
  }
}
