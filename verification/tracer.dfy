/**
 * Tracking an object element by element through a lattice (`trace_obj`), and
 * the Twiss computation of a lattice (`twiss`) built on it: the start is either
 * the given Twiss or the matched solution of the one-turn matrix, and the
 * result is the Twiss after every element, or at chosen positions.
 */
module Tracing {
  import opened LinAlg
  import opened MathLib
  import opened Wrappers
  import opened TransferMaps
  import opened Elements
  import opened Lattice
  import opened TwissOptics

  /** The ids of the elements, in lattice order. */
  function IdsOf(lat: seq<Element>): (r: seq<string>)
    reads lat
    ensures |r| == |lat| && forall k {:trigger r[k]} | 0 <= k < |lat| :: r[k] == lat[k].data.id
  {
    if |lat| == 0 then [] else IdsOf(lat[..|lat| - 1]) + [lat[|lat| - 1].data.id]
  }

  /** An element's object is kept when nothing is observed in particular, or when its id is observed. */
  predicate Keeps(observe: Option<seq<string>>, id: string) {
    observe.None? || id in observe.value
  }

  /**
   * The object after the first k elements: each element multiplies it by its
   * full map and labels the product with the element's id.
   */
  function After<T>(ems: seq<ElementMap>, ids: seq<string>, mul: (TransferMap, T) -> T,
                    setId: (T, string) -> T, start: T, k: nat): T
    requires |ids| == |ems| && k <= |ems|
  {
    if k == 0 then start
    else setId(mul(FullMap(ems[k - 1]), After(ems, ids, mul, setId, start, k - 1)), ids[k - 1])
  }

  /** The objects kept among those after the first k elements, in order. */
  function Kept<T>(ems: seq<ElementMap>, ids: seq<string>, mul: (TransferMap, T) -> T,
                   setId: (T, string) -> T, start: T, observe: Option<seq<string>>, k: nat): seq<T>
    requires |ids| == |ems| && k <= |ems|
  {
    if k == 0 then []
    else
      Kept(ems, ids, mul, setId, start, observe, k - 1)
        + (if Keeps(observe, ids[k - 1]) then [After(ems, ids, mul, setId, start, k)] else [])
  }

  /**
   * The object the walk starts from: without an observation list it is labelled
   * "none" (and listed first); with one it is taken as it is.
   */
  function StartObject<T>(setId: (T, string) -> T, obj: T, observe: Option<seq<string>>): T
  {
    if observe.None? then setId(obj, "none") else obj
  }

  /** The list trace_obj returns when no sampling is asked for. */
  function TraceObjList<T>(ems: seq<ElementMap>, ids: seq<string>, mul: (TransferMap, T) -> T,
                           setId: (T, string) -> T, obj: T, observe: Option<seq<string>>): seq<T>
    requires |ids| == |ems|
  {
    var start := StartObject(setId, obj, observe);
    (if observe.None? then [start] else []) + Kept(ems, ids, mul, setId, start, observe, |ems|)
  }

  /**
   * trace_obj(lattice, obj, observe=...) without nPoints: walks the elements in
   * order, multiplying the object by each element's map and labelling it with
   * the element's id. `mul` is the map product on the object and `setId` sets
   * its id.
   */
  method TraceObj<T>(lat: seq<Element>, obj: T, observe: Option<seq<string>>,
                     mul: (TransferMap, T) -> T, setId: (T, string) -> T)
    returns (objs: seq<T>)
    ensures objs == TraceObjList(MapsOf(lat), IdsOf(lat), mul, setId, obj, observe)
  {
    ghost var ems, ids := MapsOf(lat), IdsOf(lat);
    ghost var start := StartObject(setId, obj, observe);
    ghost var head := if observe.None? then [start] else [];
    var cur := obj;
    if observe.None? {
      cur := setId(cur, "none");
      objs := [cur];
    } else {
      objs := [];
    }
    var k := 0;
    while k < |lat|
      invariant 0 <= k <= |lat|
      invariant cur == After(ems, ids, mul, setId, start, k)
      invariant objs == head + Kept(ems, ids, mul, setId, start, observe, k)
    {
      var e := lat[k];
      assert ems[k] == e.transferMap && ids[k] == e.data.id;
      cur := setId(mul(FullMap(e.transferMap), cur), e.data.id);
      assert cur == After(ems, ids, mul, setId, start, k + 1);
      if observe.None? || e.data.id in observe.value {
        objs := objs + [cur];
      }
      k := k + 1;
    }
  }

  /**
   * Without an observation list, trace_obj lists every stage: one more object
   * than there are elements, the first being the input labelled "none", and each
   * next one the previous one multiplied by the next element's map and labelled
   * with that element's id.
   */
  lemma {:induction false} TraceAllStages<T>(ems: seq<ElementMap>, ids: seq<string>, mul: (TransferMap, T) -> T,
                                            setId: (T, string) -> T, obj: T)
    requires |ids| == |ems|
    ensures var objs := TraceObjList(ems, ids, mul, setId, obj, None);
            && |objs| == |ems| + 1
            && objs[0] == setId(obj, "none")
            && forall k | 0 <= k < |ems| :: objs[k + 1] == setId(mul(FullMap(ems[k]), objs[k]), ids[k])
  {
    var start := setId(obj, "none");
    KeptAll(ems, ids, mul, setId, start, |ems|);
    var objs := TraceObjList(ems, ids, mul, setId, obj, None);
    forall k | 0 <= k < |ems|
      ensures objs[k + 1] == setId(mul(FullMap(ems[k]), objs[k]), ids[k])
    {
      assert objs[k] == After(ems, ids, mul, setId, start, k);
    }
  }

  /** With nothing observed in particular, Kept lists the object after each of the first k elements. */
  lemma {:induction false} KeptAll<T>(ems: seq<ElementMap>, ids: seq<string>, mul: (TransferMap, T) -> T,
                                     setId: (T, string) -> T, start: T, k: nat)
    requires |ids| == |ems| && k <= |ems|
    ensures var kept := Kept(ems, ids, mul, setId, start, None, k);
            && |kept| == k
            && forall j | 0 <= j < k :: kept[j] == After(ems, ids, mul, setId, start, j + 1)
  {
    if k > 0 {
      KeptAll(ems, ids, mul, setId, start, k - 1);
    }
  }

  /**
   * The stages (element counts 1..k) whose element, the k-th, is observed, in
   * increasing order.
   */
  function ObservedStages(ids: seq<string>, observe: seq<string>, k: nat): seq<nat>
    requires k <= |ids|
  {
    if k == 0 then []
    else ObservedStages(ids, observe, k - 1) + (if ids[k - 1] in observe then [k] else [])
  }

  /** The observed stages lie in 1..k, their elements are observed, and they increase. */
  lemma {:induction false} ObservedStagesSorted(ids: seq<string>, observe: seq<string>, k: nat)
    requires k <= |ids|
    ensures forall j | 0 <= j < |ObservedStages(ids, observe, k)| ::
              1 <= ObservedStages(ids, observe, k)[j] <= k && ids[ObservedStages(ids, observe, k)[j] - 1] in observe
    ensures forall i, j | 0 <= i < j < |ObservedStages(ids, observe, k)| ::
              ObservedStages(ids, observe, k)[i] < ObservedStages(ids, observe, k)[j]
  {
    if k > 0 {
      ObservedStagesSorted(ids, observe, k - 1);
    }
  }

  /**
   * With an observation list, trace_obj keeps exactly the objects after the
   * observed elements, in lattice order: the j-th kept object is the one after
   * the first n elements, where n runs increasingly over the stages whose last
   * element is observed.
   */
  lemma {:induction false} TraceObserved<T>(ems: seq<ElementMap>, ids: seq<string>, mul: (TransferMap, T) -> T,
                                           setId: (T, string) -> T, obj: T, observe: seq<string>, k: nat)
    requires |ids| == |ems| && k <= |ems|
    ensures var kept, stages := Kept(ems, ids, mul, setId, obj, Some(observe), k), ObservedStages(ids, observe, k);
            && |kept| == |stages|
            && (forall j | 0 <= j < |stages| :: 1 <= stages[j] <= k && ids[stages[j] - 1] in observe)
            && (forall j | 0 <= j < |stages| :: kept[j] == After(ems, ids, mul, setId, obj, stages[j]))
            && (forall i, j | 0 <= i < j < |stages| :: stages[i] < stages[j])
  {
    ObservedStagesSorted(ids, observe, k);
    KeptAtStages(ems, ids, mul, setId, obj, observe, k);
  }

  /** The kept objects are the objects after the observed stages. */
  lemma {:induction false} KeptAtStages<T>(ems: seq<ElementMap>, ids: seq<string>, mul: (TransferMap, T) -> T,
                                          setId: (T, string) -> T, obj: T, observe: seq<string>, k: nat)
    requires |ids| == |ems| && k <= |ems|
    ensures |Kept(ems, ids, mul, setId, obj, Some(observe), k)| == |ObservedStages(ids, observe, k)|
    ensures forall j | 0 <= j < |ObservedStages(ids, observe, k)| && ObservedStages(ids, observe, k)[j] <= k ::
              Kept(ems, ids, mul, setId, obj, Some(observe), k)[j] == After(ems, ids, mul, setId, obj, ObservedStages(ids, observe, k)[j])
  {
    if k > 0 {
      KeptAtStages(ems, ids, mul, setId, obj, observe, k - 1);
      ObservedStagesSorted(ids, observe, k - 1);
    }
  }

  // ---------------------------------------------------------------------------
  // twiss

  /** Setting a Twiss id, as a function value. */
  function TwissLabel(): (Twiss, string) -> Twiss
  {
    (t: Twiss, s: string) => t.(id := s)
  }

  /** gamma recomputed from alpha and beta in both planes. */
  function WithGammas(t: Twiss): Twiss
  {
    t.(gammaX := GammaOf(t.betaX, t.alphaX), gammaY := GammaOf(t.betaY, t.alphaY))
  }

  /**
   * The Twiss the lattice is traced from: with no initial Twiss the periodic
   * solution of the one-turn matrix at energy 0 (a blank Twiss carries the
   * remaining fields); then, if the Twiss has a zero beta, the periodic solution
   * of the one-turn matrix at its energy (keeping its other fields); otherwise
   * the Twiss itself with both gammas recomputed. None when a periodic solution
   * is asked for and does not exist.
   */
  function StartTwiss(lib: Lib, ems: seq<ElementMap>, tws0: Option<Twiss>, blank: Twiss): Option<Twiss>
  {
    var first := if tws0.Some? then tws0 else PeriodicTwiss(lib, blank, LatticeR(ems, 0.0));
    if first.None? then None
    else if first.value.betaX == 0.0 || first.value.betaY == 0.0 then
      PeriodicTwiss(lib, first.value, LatticeR(ems, first.value.E))
    else Some(WithGammas(first.value))
  }

  /** The start of twiss(), computed from the lattice's one-turn matrices. */
  method TwissStart(lib: Lib, lat: seq<Element>, tws0: Option<Twiss>, blank: Twiss) returns (start: Option<Twiss>)
    ensures start == StartTwiss(lib, MapsOf(lat), tws0, blank)
  {
    var first: Twiss;
    if tws0.None? {
      var R := LatticeTransferMap(lat, 0.0);
      var p := PeriodicTwiss(lib, blank, R);
      if p.None? {
        return None;
      }
      first := p.value;
    } else {
      first := tws0.value;
    }
    if first.betaX == 0.0 || first.betaY == 0.0 {
      var R := LatticeTransferMap(lat, first.E);
      var p := PeriodicTwiss(lib, first, R);
      if p.None? {
        return None;
      }
      start := p;
    } else {
      start := Some(WithGammas(first));
    }
  }

  /**
   * twiss(lattice, tws0, nPoints): the Twiss list of the lattice, or None when no
   * periodic solution exists. Without sampling positions (nPoints None) it is the
   * start Twiss labelled "none" and the Twiss after every element; with the
   * sampling positions `samples` (the linspace over the lattice length) it is
   * trace_z at those positions, which fails (None) past the end of the lattice.
   * `blank` is the Twiss a Twiss(None) would create.
   */
  method ComputeTwiss(lib: Lib, lat: seq<Element>, tws0: Option<Twiss>, blank: Twiss, samples: Option<seq<real>>)
    returns (res: Option<seq<Twiss>>)
    ensures StartTwiss(lib, MapsOf(lat), tws0, blank).None? ==> res.None?
    ensures StartTwiss(lib, MapsOf(lat), tws0, blank).Some? && samples.None? ==>
              res == Some(TraceObjList(MapsOf(lat), IdsOf(lat), TwissMul(lib), TwissLabel(),
                                       StartTwiss(lib, MapsOf(lat), tws0, blank).value, None))
    ensures StartTwiss(lib, MapsOf(lat), tws0, blank).Some? && samples.Some? ==>
              res == (if |lat| == 0 then None
                      else TraceFrom(LengthsOf(lat), MapsOf(lat), TwissMul(lib),
                                     StartTwiss(lib, MapsOf(lat), tws0, blank).value, samples.value, 0))
  {
    var start := TwissStart(lib, lat, tws0, blank);
    if start.None? {
      return None;
    }
    if samples.None? {
      var objs := TraceObj(lat, start.value, None, TwissMul(lib), TwissLabel());
      res := Some(objs);
    } else {
      res := TraceZ(lat, start.value, samples.value, TwissMul(lib));
    }
  }

  /**
   * A given Twiss with positive betas is the start of twiss() as it is, with
   * gamma = (1 + alpha^2) / beta recomputed in both planes, which makes it
   * consistent.
   */
  lemma StartConsistent(lib: Lib, ems: seq<ElementMap>, tws0: Twiss, blank: Twiss)
    requires tws0.betaX > 0.0 && tws0.betaY > 0.0
    ensures StartTwiss(lib, ems, Some(tws0), blank) == Some(WithGammas(tws0))
    ensures Consistent(WithGammas(tws0))
  {
    var t := WithGammas(tws0);
    assert t.betaX * t.gammaX == 1.0 + t.alphaX * t.alphaX;
    assert t.betaY * t.gammaY == 1.0 + t.alphaY * t.alphaY;
  }

  /**
   * A zero beta asks for the periodic solution of the whole lattice at the
   * Twiss's energy, and twiss() gives None exactly when that one-turn matrix is
   * unstable in a plane.
   */
  lemma StartPeriodic(lib: Lib, ems: seq<ElementMap>, tws0: Twiss, blank: Twiss)
    requires tws0.betaX == 0.0 || tws0.betaY == 0.0
    ensures StartTwiss(lib, ems, Some(tws0), blank) == PeriodicTwiss(lib, tws0, LatticeR(ems, tws0.E))
    ensures StartTwiss(lib, ems, Some(tws0), blank).None? <==> !Stable(LatticeR(ems, tws0.E))
  {
  }
}
