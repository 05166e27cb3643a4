/**
 * Walks over the element sequence of a lattice (cpbd/optics.py): the one-turn
 * matrix of lattice_transfer_map, the z-dependent tracer trace_z, and the
 * Navigator with get_map, which cuts the next dz metres of the lattice into
 * transfer maps.
 *
 * A lattice is a sequence of Element objects; the walks read each element's
 * length `l` and its transfer map, and change neither.
 */
module Lattice {
  import opened LinAlg
  import opened Wrappers
  import opened TransferMaps
  import opened Elements

  // ---------------------------------------------------------------------------
  // Reading the lattice

  /** The transfer maps of the elements, in lattice order. */
  function MapsOf(lat: seq<Element>): (r: seq<ElementMap>)
    reads lat
    ensures |r| == |lat| && forall k {:trigger r[k]} | 0 <= k < |lat| :: r[k] == lat[k].transferMap
  {
    if |lat| == 0 then [] else MapsOf(lat[..|lat| - 1]) + [lat[|lat| - 1].transferMap]
  }

  /** The lengths `l` of the elements, in lattice order. */
  function LengthsOf(lat: seq<Element>): (r: seq<real>)
    reads lat
    ensures |r| == |lat| && forall k {:trigger r[k]} | 0 <= k < |lat| :: r[k] == lat[k].data.l
  {
    if |lat| == 0 then [] else LengthsOf(lat[..|lat| - 1]) + [lat[|lat| - 1].data.l]
  }

  /** s[0] + ... + s[n-1], summed from the left as the traversals accumulate it. */
  function Sum(s: seq<real>): real
  {
    if |s| == 0 then 0.0 else Sum(s[..|s| - 1]) + s[|s| - 1]
  }

  lemma SumStep(s: seq<real>, k: nat)
    requires k < |s|
    ensures Sum(s[..k + 1]) == Sum(s[..k]) + s[k]
  {
    assert s[..k + 1][..k] == s[..k];
  }

  /** Where element i starts: the sum of the lengths before it. */
  function Start(ls: seq<real>, i: nat): real
    requires i <= |ls|
  {
    Sum(ls[..i])
  }

  /** Where element i ends. */
  function End(ls: seq<real>, i: nat): real
    requires i < |ls|
  {
    Sum(ls[..i + 1])
  }

  lemma EndIsStartPlusLength(ls: seq<real>, i: nat)
    requires i < |ls|
    ensures End(ls, i) == Start(ls, i) + ls[i]
    ensures i + 1 < |ls| ==> Start(ls, i + 1) == End(ls, i)
  {
    SumStep(ls, i);
  }

  // ---------------------------------------------------------------------------
  // lattice_transfer_map

  /** R(energy) of the whole lattice: the product R_{n-1} ... R_1 R_0 of the element matrices. */
  function LatticeR(ems: seq<ElementMap>, energy: real): Mat6
  {
    if |ems| == 0 then Eye(6)
    else Mul6(FullMap(ems[|ems| - 1]).R(energy), LatticeR(ems[..|ems| - 1], energy))
  }

  /** lattice_transfer_map: multiply the element matrices from the left, one element at a time. */
  method LatticeTransferMap(lat: seq<Element>, energy: real) returns (R: Mat6)
    ensures R == LatticeR(MapsOf(lat), energy)
  {
    ghost var ems := MapsOf(lat);
    R := Eye(6);
    var k := 0;
    while k < |lat|
      invariant 0 <= k <= |lat|
      invariant R == LatticeR(ems[..k], energy)
    {
      assert ems[..k + 1][..k] == ems[..k];
      R := Mul6(lat[k].transferMap.Rz(lat[k].transferMap.length, energy), R);
      k := k + 1;
    }
    assert ems[..|lat|] == ems;
  }

  /** The lattice as one map: the composition of every element's own map, first element applied first. */
  function ComposeAll(ems: seq<ElementMap>): TransferMap
  {
    if |ems| == 0 then IdentityMap() else Compose(FullMap(ems[|ems| - 1]), ComposeAll(ems[..|ems| - 1]))
  }

  /** lattice_transfer_map is the R of the lattice composed into a single map. */
  lemma {:induction false} LatticeRIsComposition(ems: seq<ElementMap>, energy: real)
    ensures LatticeR(ems, energy) == ComposeAll(ems).R(energy)
    decreases |ems|
  {
    if |ems| > 0 {
      LatticeRIsComposition(ems[..|ems| - 1], energy);
    }
  }

  /** The matrix of two lattices one after the other is the product of their matrices. */
  lemma {:induction false} LatticeRConcat(a: seq<ElementMap>, b: seq<ElementMap>, energy: real)
    ensures LatticeR(a + b, energy) == Mul6(LatticeR(b, energy), LatticeR(a, energy))
    decreases |b|
  {
    if |b| == 0 {
      assert a + b == a;
      MatMulEyeLeft(LatticeR(a, energy), 6);
    } else {
      var b' := b[..|b| - 1];
      assert (a + b)[..|a + b| - 1] == a + b';
      LatticeRConcat(a, b', energy);
      var rl := FullMap(b[|b| - 1]).R(energy);
      MatMulAssoc(rl, LatticeR(b', energy), LatticeR(a, energy));
    }
  }

  // ---------------------------------------------------------------------------
  // trace_z

  /**
   * From element i, the element the tracer stops at for position z: it moves on
   * while z lies beyond the end of the current element, and fails (None) when it
   * would move past the last one.
   */
  function Reach(ls: seq<real>, i: nat, z: real): (r: Option<nat>)
    requires i < |ls|
    decreases |ls| - i
  {
    if z <= End(ls, i) then Some(i)
    else if i + 1 < |ls| then Reach(ls, i + 1, z)
    else None
  }

  /** The element reached lies at or after i, and z does not lie beyond its end. */
  lemma {:induction false} ReachFindsElement(ls: seq<real>, i: nat, z: real)
    requires i < |ls|
    ensures Reach(ls, i, z).Some? ==> i <= Reach(ls, i, z).value < |ls|
    ensures Reach(ls, i, z).Some? ==> z <= End(ls, Reach(ls, i, z).value)
    ensures Reach(ls, i, z).Some? ==> forall k | i <= k < Reach(ls, i, z).value :: z > End(ls, k)
    decreases |ls| - i
  {
    if z > End(ls, i) && i + 1 < |ls| {
      ReachFindsElement(ls, i + 1, z);
    }
  }

  /** The tracer fails exactly when z lies beyond the end of every element from i on. */
  lemma {:induction false} ReachFailsPastEnd(ls: seq<real>, i: nat, z: real)
    requires i < |ls|
    ensures Reach(ls, i, z).None? <==> forall k | i <= k < |ls| :: z > End(ls, k)
    decreases |ls| - i
  {
    if z > End(ls, i) && i + 1 < |ls| {
      ReachFailsPastEnd(ls, i + 1, z);
    }
  }

  /** The object after the first j elements: obj0 multiplied by their maps in turn. */
  function Advance<T>(ems: seq<ElementMap>, mul: (TransferMap, T) -> T, obj0: T, j: nat): T
    requires j <= |ems|
  {
    if j == 0 then obj0 else mul(FullMap(ems[j - 1]), Advance(ems, mul, obj0, j - 1))
  }

  /**
   * trace_z from element i on, for the positions zs in turn: each position is
   * reached from where the previous one stopped, and the object there is the
   * slice of the reached element from its start up to z, applied to the object
   * at the element's entrance.
   */
  function TraceFrom<T>(ls: seq<real>, ems: seq<ElementMap>, mul: (TransferMap, T) -> T, obj0: T,
                        zs: seq<real>, i: nat): Option<seq<T>>
    requires |ems| == |ls| && i < |ls|
    decreases |zs|
  {
    if |zs| == 0 then Some([])
    else match Reach(ls, i, zs[0])
      case None => None
      case Some(j) =>
        if j >= |ls| then None
        else
          var here := mul(Slice(ems[j], zs[0] - Start(ls, j)), Advance(ems, mul, obj0, j));
          match TraceFrom(ls, ems, mul, obj0, zs[1..], j)
          case None => None
          case Some(rest) => Some([here] + rest)
  }

  /** Prepends the objects already computed to the rest of the trace, or fails with it. */
  function Prepend<T>(done: seq<T>, rest: Option<seq<T>>): Option<seq<T>>
  {
    if rest.None? then None else Some(done + rest.value)
  }

  lemma PrependNil<T>(rest: Option<seq<T>>)
    ensures Prepend([], rest) == rest
  {
    if rest.Some? {
      assert [] + rest.value == rest.value;
    }
  }

  lemma PrependTwice<T>(a: seq<T>, b: seq<T>, rest: Option<seq<T>>)
    ensures Prepend(a, Prepend(b, rest)) == Prepend(a + b, rest)
  {
    if rest.Some? {
      assert a + (b + rest.value) == (a + b) + rest.value;
    }
  }

  /** The first position, reached at element j, contributes the slice of element j up to it. */
  lemma TraceFromReached<T>(ls: seq<real>, ems: seq<ElementMap>, mul: (TransferMap, T) -> T, obj0: T,
                            zs: seq<real>, i: nat, j: nat)
    requires |ems| == |ls| && i < |ls| && |zs| > 0 && Reach(ls, i, zs[0]) == Some(j)
    ensures j < |ls|
    ensures TraceFrom(ls, ems, mul, obj0, zs, i)
         == Prepend([mul(Slice(ems[j], zs[0] - Start(ls, j)), Advance(ems, mul, obj0, j))],
                    TraceFrom(ls, ems, mul, obj0, zs[1..], j))
  {
    ReachFindsElement(ls, i, zs[0]);
  }

  /** One position of trace_z, reached at element j, moves one object from the rest of the trace to the output. */
  lemma TraceStep<T>(ls: seq<real>, ems: seq<ElementMap>, mul: (TransferMap, T) -> T, obj0: T,
                     zs: seq<real>, n: nat, i: nat, j: nat, out: seq<T>, d: real, objElem: T, n': nat, out': seq<T>)
    requires |ems| == |ls| && i < |ls| && n < |zs| && Reach(ls, i, zs[n]) == Some(j) && j < |ls|
    requires d == zs[n] - Start(ls, j) && objElem == Advance(ems, mul, obj0, j)
    requires TraceFrom(ls, ems, mul, obj0, zs, 0) == Prepend(out, TraceFrom(ls, ems, mul, obj0, zs[n..], i))
    requires n' == n + 1 && out' == out + [mul(Slice(ems[j], d), objElem)]
    ensures TraceFrom(ls, ems, mul, obj0, zs, 0) == Prepend(out', TraceFrom(ls, ems, mul, obj0, zs[n'..], j))
  {
    var here := mul(Slice(ems[j], d), objElem);
    assert zs[n..][0] == zs[n] && zs[n..][1..] == zs[n + 1..];
    TraceFromReached(ls, ems, mul, obj0, zs[n..], i, j);
    PrependTwice(out, [here], TraceFrom(ls, ems, mul, obj0, zs[n + 1..], j));
  }

  /** A position the tracer cannot reach makes the whole trace fail. */
  lemma TraceStuck<T>(ls: seq<real>, ems: seq<ElementMap>, mul: (TransferMap, T) -> T, obj0: T,
                      zs: seq<real>, n: nat, i: nat, out: seq<T>)
    requires |ems| == |ls| && i < |ls| && n < |zs| && Reach(ls, i, zs[n]).None?
    requires TraceFrom(ls, ems, mul, obj0, zs, 0) == Prepend(out, TraceFrom(ls, ems, mul, obj0, zs[n..], i))
    ensures TraceFrom(ls, ems, mul, obj0, zs, 0).None?
  {
    assert zs[n..][0] == zs[n];
    TraceFromUnreached(ls, ems, mul, obj0, zs[n..], i);
  }

  /** Once every position is placed, the trace is the output. */
  lemma TraceDone<T>(ls: seq<real>, ems: seq<ElementMap>, mul: (TransferMap, T) -> T, obj0: T,
                     zs: seq<real>, n: nat, i: nat, out: seq<T>)
    requires |ems| == |ls| && i < |ls| && n == |zs|
    requires TraceFrom(ls, ems, mul, obj0, zs, 0) == Prepend(out, TraceFrom(ls, ems, mul, obj0, zs[n..], i))
    ensures TraceFrom(ls, ems, mul, obj0, zs, 0) == Some(out)
  {
    assert zs[n..] == [] && out + [] == out;
  }

  /** A position the tracer cannot reach makes the whole trace fail. */
  lemma TraceFromUnreached<T>(ls: seq<real>, ems: seq<ElementMap>, mul: (TransferMap, T) -> T, obj0: T,
                              zs: seq<real>, i: nat)
    requires |ems| == |ls| && i < |ls| && |zs| > 0 && Reach(ls, i, zs[0]).None?
    ensures TraceFrom(ls, ems, mul, obj0, zs, i).None?
  {
  }

  /** One turn of the inner loop of trace_z: z lies beyond element j, so the walk moves to j + 1. */
  lemma SeekStep<T>(ls: seq<real>, ems: seq<ElementMap>, mul: (TransferMap, T) -> T, obj0: T, z: real,
                    i: nat, j: nat, L: real, objElem: T, j': nat, L': real, objElem': T)
    requires |ems| == |ls| && i <= j && j + 1 < |ls| && z > L
    requires L == End(ls, j) && objElem == Advance(ems, mul, obj0, j)
    requires Reach(ls, i, z) == Reach(ls, j, z)
    requires j' == j + 1 && L' == L + ls[j'] && objElem' == mul(FullMap(ems[j]), objElem)
    ensures L' == End(ls, j') && objElem' == Advance(ems, mul, obj0, j')
    ensures Reach(ls, i, z) == Reach(ls, j', z)
  {
    EndIsStartPlusLength(ls, j);
    EndIsStartPlusLength(ls, j');
  }

  /** Where the inner loop of trace_z stops: at j when z lies within element j, else nowhere. */
  lemma SeekEnds(ls: seq<real>, i: nat, j: nat, z: real)
    requires i <= j < |ls| && Reach(ls, i, z) == Reach(ls, j, z)
    ensures z <= End(ls, j) ==> Reach(ls, i, z) == Some(j)
    ensures z > End(ls, j) && j + 1 >= |ls| ==> Reach(ls, i, z) == None
  {
  }

  /**
   * The inner while loop of trace_z: from element i, whose end is L and at whose
   * entrance the object is objElem, move on while z lies beyond the end of the
   * current element. Fails (false) when it would move past the last element.
   */
  method Seek<T>(ls: seq<real>, ems: seq<ElementMap>, mul: (TransferMap, T) -> T, ghost obj0: T,
                 z: real, i: nat, L: real, objElem: T)
    returns (found: bool, i': nat, L': real, objElem': T)
    requires |ems| == |ls| && i < |ls|
    requires L == End(ls, i) && objElem == Advance(ems, mul, obj0, i)
    ensures found <==> Reach(ls, i, z).Some?
    ensures found ==> Reach(ls, i, z) == Some(i') && i' < |ls|
    ensures found ==> L' == End(ls, i') && objElem' == Advance(ems, mul, obj0, i')
  {
    i', L', objElem' := i, L, objElem;
    while z > L'
      invariant i <= i' < |ls|
      invariant L' == End(ls, i') && objElem' == Advance(ems, mul, obj0, i')
      invariant Reach(ls, i, z) == Reach(ls, i', z)
      decreases |ls| - i'
    {
      var next := mul(FullMap(ems[i']), objElem');
      if i' + 1 >= |ls| {
        SeekEnds(ls, i, i', z);
        return false, i', L', next;
      }
      var L1 := L' + ls[i' + 1];
      SeekStep(ls, ems, mul, obj0, z, i, i', L', objElem', i' + 1, L1, next);
      i', L', objElem' := i' + 1, L1, next;
    }
    SeekEnds(ls, i, i', z);
    found := true;
  }

  /**
   * One turn of the outer loop of trace_z: the position zs[n] is reached from
   * element i, and the object there joins the output. Fails (false) when the
   * position lies beyond the end of the lattice.
   */
  method TraceNext<T>(ls: seq<real>, ems: seq<ElementMap>, ghost obj0: T, zs: seq<real>, mul: (TransferMap, T) -> T,
                      n: nat, i: nat, L: real, objElem: T, out: seq<T>)
    returns (found: bool, n': nat, i': nat, L': real, objElem': T, out': seq<T>)
    requires |ems| == |ls| && n < |zs| && i < |ls|
    requires L == End(ls, i) && objElem == Advance(ems, mul, obj0, i)
    requires TraceFrom(ls, ems, mul, obj0, zs, 0) == Prepend(out, TraceFrom(ls, ems, mul, obj0, zs[n..], i))
    ensures !found ==> TraceFrom(ls, ems, mul, obj0, zs, 0).None?
    ensures found ==> n' == n + 1 && i' < |ls|
    ensures found ==> L' == End(ls, i') && objElem' == Advance(ems, mul, obj0, i')
    ensures found ==> TraceFrom(ls, ems, mul, obj0, zs, 0) == Prepend(out', TraceFrom(ls, ems, mul, obj0, zs[n'..], i'))
  {
    var z := zs[n];
    found, i', L', objElem' := Seek(ls, ems, mul, obj0, z, i, L, objElem);
    if !found {
      TraceStuck(ls, ems, mul, obj0, zs, n, i, out);
      return false, n, i', L', objElem', out;
    }
    EndIsStartPlusLength(ls, i');
    var objZ := mul(Slice(ems[i'], z - (L' - ls[i'])), objElem');
    n', out' := n + 1, out + [objZ];
    TraceStep(ls, ems, mul, obj0, zs, n, i, i', out, z - (L' - ls[i']), objElem', n', out');
  }

  /**
   * The walk of trace_z over the element lengths `ls` and element maps `ems` of
   * a non-empty lattice.
   */
  method Trace<T>(ls: seq<real>, ems: seq<ElementMap>, obj0: T, zs: seq<real>, mul: (TransferMap, T) -> T)
    returns (res: Option<seq<T>>)
    requires |ems| == |ls| && |ls| > 0
    ensures res == TraceFrom(ls, ems, mul, obj0, zs, 0)
  {
    var i := 0;
    var L := ls[0];
    var objElem := obj0;
    var out := [];
    assert ls[..0] == [] && zs[0..] == zs;
    EndIsStartPlusLength(ls, 0);
    PrependNil(TraceFrom(ls, ems, mul, obj0, zs, 0));
    var n := 0;
    while n < |zs|
      invariant 0 <= n <= |zs| && 0 <= i < |ls|
      invariant L == End(ls, i) && objElem == Advance(ems, mul, obj0, i)
      invariant TraceFrom(ls, ems, mul, obj0, zs, 0) == Prepend(out, TraceFrom(ls, ems, mul, obj0, zs[n..], i))
    {
      var found;
      found, n, i, L, objElem, out := TraceNext(ls, ems, obj0, zs, mul, n, i, L, objElem, out);
      if !found {
        return None;
      }
    }
    TraceDone(ls, ems, mul, obj0, zs, n, i, out);
    res := Some(out);
  }

  /**
   * trace_z(lattice, obj0, z_array). The object may be a Twiss or a Particle; `mul`
   * is the map product on it. An empty lattice, or a position beyond the end of
   * the lattice, makes the sequence index fail: the result is None. The walk
   * reads the element lengths and maps, which it does not change.
   */
  method TraceZ<T>(lat: seq<Element>, obj0: T, zs: seq<real>, mul: (TransferMap, T) -> T)
    returns (res: Option<seq<T>>)
    ensures |lat| == 0 ==> res.None?
    ensures |lat| > 0 ==> res == TraceFrom(LengthsOf(lat), MapsOf(lat), mul, obj0, zs, 0)
  {
    if |lat| == 0 {
      return None;
    }
    res := Trace(LengthsOf(lat), MapsOf(lat), obj0, zs, mul);
  }

  // ---------------------------------------------------------------------------
  // Navigator and get_map

  /** The cursor of a lattice walk. */
  class Navigator {
    /** Current position. */
    var z0: real
    /** Index of the element the position lies in. */
    var nElem: nat
    /** Where that element starts: the sum of the lengths before it. */
    var sumLengths: real

    /** A fresh navigator stands at the start of the first element. */
    constructor ()
      ensures z0 == 0.0 && nElem == 0 && sumLengths == 0.0
    {
      z0 := 0.0;
      nElem := 0;
      sumLengths := 0.0;
    }

    /** The cursor is consistent with the lattice lengths: z0 lies in element nElem. */
    predicate Valid(ls: seq<real>)
      reads this
    {
      && nElem < |ls|
      && sumLengths == Start(ls, nElem)
      && sumLengths <= z0 <= End(ls, nElem)
    }
  }

  /** One piece of the walk: element k traversed over length dl. */
  datatype Step = Step(k: nat, dl: real)

  /**
   * How get_map groups the steps into returned maps: a step of a nonlinear
   * element (or of any element when a nonlinear order is requested) is returned
   * on its own; consecutive linear steps are composed into one map.
   */
  datatype Group = Single(step: Step) | Run(steps: seq<Step>)

  /** The steps a group covers. */
  function Covered(g: Group): seq<Step>
  {
    match g
    case Single(s) => [s]
    case Run(ss) => ss
  }

  function Flatten(plan: seq<Group>): seq<Step>
  {
    if |plan| == 0 then [] else Flatten(plan[..|plan| - 1]) + Covered(plan[|plan| - 1])
  }

  /** A step must be returned on its own: its element's map or the requested order is nonlinear. */
  predicate Atomic(ems: seq<ElementMap>, order: int, s: Step)
  {
    s.k < |ems| && (ems[s.k].order > 1 || order > 1)
  }

  /** Steps of elements of the lattice that may be composed. */
  predicate LinearSteps(ems: seq<ElementMap>, order: int, ss: seq<Step>)
  {
    forall t | 0 <= t < |ss| :: ss[t].k < |ems| && !Atomic(ems, order, ss[t])
  }

  /** The slices of a run composed in order, starting from the identity: the last step is applied last. */
  function RunMap(ems: seq<ElementMap>, ss: seq<Step>): TransferMap
    requires forall j | 0 <= j < |ss| :: ss[j].k < |ems|
  {
    if |ss| == 0 then IdentityMap()
    else Compose(Slice(ems[ss[|ss| - 1].k], ss[|ss| - 1].dl), RunMap(ems, ss[..|ss| - 1]))
  }

  /** The grouping rules: a single is atomic, a run is non-empty, linear and at most 101 steps long. */
  predicate GroupOk(ems: seq<ElementMap>, order: int, g: Group)
  {
    match g
    case Single(s) => Atomic(ems, order, s)
    case Run(ss) => 1 <= |ss| <= 101 && LinearSteps(ems, order, ss)
  }

  /** The map a group stands for. */
  function GroupMap(ems: seq<ElementMap>, order: int, g: Group): TransferMap
    requires GroupOk(ems, order, g)
  {
    match g
    case Single(s) => Slice(ems[s.k], s.dl)
    case Run(ss) => RunMap(ems, ss)
  }

  /** The returned maps are the maps of well-formed groups, one for one. */
  ghost predicate Realizes(ems: seq<ElementMap>, order: int, plan: seq<Group>, tms: seq<TransferMap>)
  {
    && |tms| == |plan|
    && forall j | 0 <= j < |plan| :: GroupOk(ems, order, plan[j]) && tms[j] == GroupMap(ems, order, plan[j])
  }

  /** Emitting one more group keeps the plan and the maps in step. */
  lemma PushGroup(ems: seq<ElementMap>, order: int, plan: seq<Group>, tms: seq<TransferMap>, g: Group, m: TransferMap)
    requires Realizes(ems, order, plan, tms) && GroupOk(ems, order, g) && m == GroupMap(ems, order, g)
    ensures Realizes(ems, order, plan + [g], tms + [m])
    ensures Flatten(plan + [g]) == Flatten(plan) + Covered(g)
  {
    assert (plan + [g])[..|plan|] == plan;
  }

  /** Composing one more linear slice onto a pending run. */
  lemma ExtendRun(ems: seq<ElementMap>, order: int, cur: seq<Step>, s: Step)
    requires LinearSteps(ems, order, cur) && s.k < |ems| && !Atomic(ems, order, s)
    ensures LinearSteps(ems, order, cur + [s])
    ensures RunMap(ems, cur + [s]) == Compose(Slice(ems[s.k], s.dl), RunMap(ems, cur))
  {
    assert (cur + [s])[..|cur|] == cur;
  }

  /** `if tm.identity == False: TM.append(tm)` on the groups: the pending run, if any, becomes one group. */
  function Flushed(plan: seq<Group>, cur: seq<Step>): seq<Group>
  {
    if |cur| == 0 then plan else plan + [Run(cur)]
  }

  /**
   * One slice inside the while loop of get_map, on the groups emitted so far and
   * the pending linear steps: a nonlinear slice flushes the run and stands
   * alone; a linear one joins the run, which is emitted once it holds more than
   * 100 slices.
   */
  function PassStep(ems: seq<ElementMap>, order: int, plan: seq<Group>, cur: seq<Step>, s: Step): (seq<Group>, seq<Step>)
  {
    if Atomic(ems, order, s) then (Flushed(plan, cur) + [Single(s)], [])
    else if |cur| + 1 > 100 then (plan + [Run(cur + [s])], [])
    else (plan, cur + [s])
  }

  /** The groups emitted and the run pending after the slices `steps` of the while loop of get_map. */
  function Pass(ems: seq<ElementMap>, order: int, steps: seq<Step>): (seq<Group>, seq<Step>)
  {
    if |steps| == 0 then ([], [])
    else
      var pc := Pass(ems, order, steps[..|steps| - 1]);
      PassStep(ems, order, pc.0, pc.1, steps[|steps| - 1])
  }

  /**
   * The grouping get_map returns for the steps of a walk: the groups of the
   * while loop over all steps but the last, then the last slice, alone (after
   * the pending run) if nonlinear, else closing the pending run.
   */
  function GreedyPlan(ems: seq<ElementMap>, order: int, steps: seq<Step>): seq<Group>
    requires |steps| >= 1
  {
    var pc := Pass(ems, order, steps[..|steps| - 1]);
    var s := steps[|steps| - 1];
    if Atomic(ems, order, s) then Flushed(pc.0, pc.1) + [Single(s)] else pc.0 + [Run(pc.1 + [s])]
  }

  /** A run is followed by another run only when it holds 101 slices. */
  predicate RunsFull(plan: seq<Group>)
  {
    forall j | 0 <= j < |plan| - 1 :: plan[j].Run? && plan[j + 1].Run? ==> |plan[j].steps| == 101
  }

  /** Every group obeys the grouping rules. */
  predicate GroupsOk(ems: seq<ElementMap>, order: int, plan: seq<Group>)
  {
    forall j | 0 <= j < |plan| :: GroupOk(ems, order, plan[j])
  }

  /** Appending a group to a plan appends its steps. */
  lemma FlattenPush(plan: seq<Group>, g: Group)
    ensures Flatten(plan + [g]) == Flatten(plan) + Covered(g)
  {
    assert (plan + [g])[..|plan|] == plan;
  }

  /** Appending a group that obeys the rules. */
  lemma GroupsOkPush(ems: seq<ElementMap>, order: int, plan: seq<Group>, g: Group)
    requires GroupsOk(ems, order, plan) && GroupOk(ems, order, g)
    ensures GroupsOk(ems, order, plan + [g])
  {
    forall j | 0 <= j < |plan| + 1 ensures GroupOk(ems, order, (plan + [g])[j]) {
      if j < |plan| {
        assert (plan + [g])[j] == plan[j];
      }
    }
  }

  /** Appending a group after a full run, or after a group that is not a run. */
  lemma RunsFullPush(plan: seq<Group>, g: Group)
    requires RunsFull(plan)
    requires |plan| > 0 && plan[|plan| - 1].Run? && g.Run? ==> |plan[|plan| - 1].steps| == 101
    ensures RunsFull(plan + [g])
  {
    var q := plan + [g];
    forall j | 0 <= j < |q| - 1 && q[j].Run? && q[j + 1].Run? ensures |q[j].steps| == 101 {
      assert q[j] == plan[j];
      if j + 1 < |plan| {
        assert q[j + 1] == plan[j + 1];
      }
    }
  }

  /** The loop's state: the groups obey the rules and cut runs only when full, the last group too. */
  predicate LoopShape(ems: seq<ElementMap>, order: int, p: seq<Group>, c: seq<Step>)
  {
    && |c| <= 100 && LinearSteps(ems, order, c)
    && GroupsOk(ems, order, p) && RunsFull(p)
    && (|p| > 0 && p[|p| - 1].Run? ==> |p[|p| - 1].steps| == 101)
  }

  /** A nonlinear slice: the pending run, then the slice alone. */
  lemma FlushSingleShape(ems: seq<ElementMap>, order: int, p: seq<Group>, c: seq<Step>, s: Step)
    requires LoopShape(ems, order, p, c) && Atomic(ems, order, s)
    ensures Flatten(Flushed(p, c) + [Single(s)]) == Flatten(p) + c + [s]
    ensures GroupsOk(ems, order, Flushed(p, c) + [Single(s)]) && RunsFull(Flushed(p, c) + [Single(s)])
    ensures LoopShape(ems, order, Flushed(p, c) + [Single(s)], [])
  {
    var q := Flushed(p, c);
    if |c| > 0 {
      FlattenPush(p, Run(c));
      GroupsOkPush(ems, order, p, Run(c));
      RunsFullPush(p, Run(c));
    } else {
      assert c == [];
    }
    FlattenPush(q, Single(s));
    GroupsOkPush(ems, order, q, Single(s));
    RunsFullPush(q, Single(s));
  }

  /** A linear slice that closes the pending run. */
  lemma CloseRunShape(ems: seq<ElementMap>, order: int, p: seq<Group>, c: seq<Step>, s: Step)
    requires LoopShape(ems, order, p, c) && s.k < |ems| && !Atomic(ems, order, s)
    ensures Flatten(p + [Run(c + [s])]) == Flatten(p) + c + [s]
    ensures GroupsOk(ems, order, p + [Run(c + [s])]) && RunsFull(p + [Run(c + [s])])
  {
    FlattenPush(p, Run(c + [s]));
    ExtendRun(ems, order, c, s);
    GroupsOkPush(ems, order, p, Run(c + [s]));
    RunsFullPush(p, Run(c + [s]));
  }

  /** One slice of the while loop keeps the loop's shape and covers one more step. */
  lemma PassStepShape(ems: seq<ElementMap>, order: int, p: seq<Group>, c: seq<Step>, s: Step)
    requires LoopShape(ems, order, p, c) && s.k < |ems|
    ensures Flatten(PassStep(ems, order, p, c, s).0) + PassStep(ems, order, p, c, s).1 == Flatten(p) + c + [s]
    ensures LoopShape(ems, order, PassStep(ems, order, p, c, s).0, PassStep(ems, order, p, c, s).1)
  {
    if Atomic(ems, order, s) {
      FlushSingleShape(ems, order, p, c, s);
    } else if |c| + 1 > 100 {
      CloseRunShape(ems, order, p, c, s);
      assert |c + [s]| == 101;
    } else {
      ExtendRun(ems, order, c, s);
    }
  }

  /**
   * The state of the while loop: the groups and the pending run cover the
   * steps, and the loop's shape holds.
   */
  lemma {:induction false} PassShape(ems: seq<ElementMap>, order: int, steps: seq<Step>)
    requires forall j | 0 <= j < |steps| :: steps[j].k < |ems|
    ensures Flatten(Pass(ems, order, steps).0) + Pass(ems, order, steps).1 == steps
    ensures LoopShape(ems, order, Pass(ems, order, steps).0, Pass(ems, order, steps).1)
    decreases |steps|
  {
    if |steps| > 0 {
      var init, s := steps[..|steps| - 1], steps[|steps| - 1];
      assert init + [s] == steps;
      PassShape(ems, order, init);
      var pc := Pass(ems, order, init);
      assert Pass(ems, order, steps) == PassStep(ems, order, pc.0, pc.1, s);
      PassStepShape(ems, order, pc.0, pc.1, s);
    }
  }

  /**
   * get_map's grouping covers the steps of the walk in order with groups that
   * obey the rules, and it cuts a stretch of linear slices only after 101 of
   * them: a run is followed by another run only when it is full.
   */
  lemma GreedyPlanShape(ems: seq<ElementMap>, order: int, steps: seq<Step>)
    requires |steps| >= 1 && forall j | 0 <= j < |steps| :: steps[j].k < |ems|
    ensures Flatten(GreedyPlan(ems, order, steps)) == steps
    ensures GroupsOk(ems, order, GreedyPlan(ems, order, steps))
    ensures RunsFull(GreedyPlan(ems, order, steps))
  {
    var init, s := steps[..|steps| - 1], steps[|steps| - 1];
    assert init + [s] == steps;
    PassShape(ems, order, init);
    var pc := Pass(ems, order, init);
    if Atomic(ems, order, s) {
      FlushSingleShape(ems, order, pc.0, pc.1, s);
    } else {
      CloseRunShape(ems, order, pc.0, pc.1, s);
    }
  }

  /** A plan that obeys the rules, split into its last group and the rest. */
  lemma ShapePrefix(ems: seq<ElementMap>, order: int, p: seq<Group>)
    requires GroupsOk(ems, order, p) && RunsFull(p) && |p| > 0
    ensures p == p[..|p| - 1] + [p[|p| - 1]]
    ensures GroupsOk(ems, order, p[..|p| - 1]) && RunsFull(p[..|p| - 1]) && GroupOk(ems, order, p[|p| - 1])
    ensures Flatten(p) == Flatten(p[..|p| - 1]) + Covered(p[|p| - 1])
    ensures |p| > 1 && p[|p| - 2].Run? && p[|p| - 1].Run? ==> |p[|p| - 2].steps| == 101
  {
    var p0 := p[..|p| - 1];
    assert forall j | 0 <= j < |p0| :: p0[j] == p[j];
    assert RunsFull(p0) by {
      forall j | 0 <= j < |p0| - 1 && p0[j].Run? && p0[j + 1].Run? ensures |p0[j].steps| == 101 {
        assert p0[j] == p[j] && p0[j + 1] == p[j + 1];
      }
    }
    assert GroupsOk(ems, order, p0) by {
      forall j | 0 <= j < |p0| ensures GroupOk(ems, order, p0[j]) {
        assert p0[j] == p[j];
      }
    }
  }

  /** Every group that obeys the rules covers at least one step. */
  lemma {:induction false} FlattenLength(ems: seq<ElementMap>, order: int, p: seq<Group>)
    requires GroupsOk(ems, order, p)
    ensures |Flatten(p)| >= |p|
    decreases |p|
  {
    if |p| > 0 {
      var p0 := p[..|p| - 1];
      assert GroupsOk(ems, order, p0) by {
        forall j | 0 <= j < |p0| ensures GroupOk(ems, order, p0[j]) {
          assert p0[j] == p[j];
        }
      }
      FlattenLength(ems, order, p0);
      assert GroupOk(ems, order, p[|p| - 1]);
    }
  }

  /** Dropping the last step of a linear run. */
  lemma LinearPrefix(ems: seq<ElementMap>, order: int, c: seq<Step>)
    requires LinearSteps(ems, order, c) && |c| > 0
    ensures LinearSteps(ems, order, c[..|c| - 1]) && c == c[..|c| - 1] + [c[|c| - 1]]
    ensures c[|c| - 1].k < |ems| && !Atomic(ems, order, c[|c| - 1])
  {
    var c0 := c[..|c| - 1];
    assert forall j | 0 <= j < |c0| :: c0[j] == c[j];
  }

  /**
   * The while loop's state is determined by its shape: groups and a pending
   * run that cover the steps and have the loop's shape are the ones it reaches.
   */
  lemma {:induction false} PassUnique(ems: seq<ElementMap>, order: int, steps: seq<Step>, p: seq<Group>, c: seq<Step>)
    requires Flatten(p) + c == steps && LoopShape(ems, order, p, c)
    ensures Pass(ems, order, steps) == (p, c)
    decreases |steps|, |p|, 0
  {
    if |steps| == 0 {
      FlattenLength(ems, order, p);
    } else if |c| > 0 {
      LinearPrefix(ems, order, c);
      var c0, s := c[..|c| - 1], c[|c| - 1];
      var init := Flatten(p) + c0;
      assert init + [s] == steps;
      assert steps[..|steps| - 1] == init;
      PassUnique(ems, order, init, p, c0);
    } else {
      FlattenLength(ems, order, p);
      ShapePrefix(ems, order, p);
      var p0, g := p[..|p| - 1], p[|p| - 1];
      match g
      case Single(s) =>
        var init := Flatten(p0);
        assert init + [s] == steps;
        assert steps[..|steps| - 1] == init;
        BeforeSingle(ems, order, p0);
      case Run(r) =>
        assert |r| == 101;
        LinearPrefix(ems, order, r);
        var r0, s := r[..|r| - 1], r[|r| - 1];
        var init := Flatten(p0) + r0;
        assert init + [s] == steps;
        assert steps[..|steps| - 1] == init;
        PassUnique(ems, order, init, p0, r0);
    }
  }

  /**
   * The groups before a nonlinear slice are what the loop has emitted and
   * then flushed when the slice arrives.
   */
  lemma {:induction false} BeforeSingle(ems: seq<ElementMap>, order: int, p0: seq<Group>)
    requires GroupsOk(ems, order, p0) && RunsFull(p0)
    ensures Flushed(Pass(ems, order, Flatten(p0)).0, Pass(ems, order, Flatten(p0)).1) == p0
    decreases |Flatten(p0)|, |p0|, 1
  {
    if |p0| == 0 {
    } else if p0[|p0| - 1].Run? && |p0[|p0| - 1].steps| <= 100 {
      ShapePrefix(ems, order, p0);
      var p1, r := p0[..|p0| - 1], p0[|p0| - 1].steps;
      FlattenLength(ems, order, p0);
      PassUnique(ems, order, Flatten(p0), p1, r);
    } else {
      FlattenLength(ems, order, p0);
      PassUnique(ems, order, Flatten(p0), p0, []);
    }
  }

  /**
   * The grouping of get_map is the only one that covers the steps in order
   * with groups that obey the rules and cuts runs only when full.
   */
  lemma GreedyUnique(ems: seq<ElementMap>, order: int, steps: seq<Step>, plan: seq<Group>)
    requires |steps| >= 1 && Flatten(plan) == steps && GroupsOk(ems, order, plan) && RunsFull(plan)
    ensures plan == GreedyPlan(ems, order, steps)
  {
    FlattenLength(ems, order, plan);
    ShapePrefix(ems, order, plan);
    var p0, g := plan[..|plan| - 1], plan[|plan| - 1];
    match g
    case Single(s) =>
      assert Flatten(p0) + [s] == steps;
      assert steps[..|steps| - 1] == Flatten(p0);
      BeforeSingle(ems, order, p0);
    case Run(r) =>
      LinearPrefix(ems, order, r);
      var r0, s := r[..|r| - 1], r[|r| - 1];
      assert Flatten(p0) + r0 + [s] == steps;
      assert steps[..|steps| - 1] == Flatten(p0) + r0;
      PassUnique(ems, order, Flatten(p0) + r0, p0, r0);
  }

  /** One more slice of the while loop. */
  lemma PassNext(ems: seq<ElementMap>, order: int, done: seq<Step>, plan: seq<Group>, cur: seq<Step>, s: Step,
                 plan': seq<Group>, cur': seq<Step>)
    requires Pass(ems, order, done) == (plan, cur)
    requires (plan', cur') == PassStep(ems, order, plan, cur, s)
    ensures Pass(ems, order, done + [s]) == (plan', cur')
  {
    assert (done + [s])[..|done|] == done;
  }

  /** The last slice after the while loop completes the grouping. */
  lemma GreedyLast(ems: seq<ElementMap>, order: int, done: seq<Step>, plan: seq<Group>, cur: seq<Step>, s: Step,
                   plan': seq<Group>)
    requires Pass(ems, order, done) == (plan, cur)
    requires plan' == (if Atomic(ems, order, s) then Flushed(plan, cur) + [Single(s)] else plan + [Run(cur + [s])])
    ensures GreedyPlan(ems, order, done + [s]) == plan'
  {
    assert (done + [s])[..|done|] == done;
  }

  /** The total length of a list of steps. */
  function StepsLength(ss: seq<Step>): real
  {
    if |ss| == 0 then 0.0 else StepsLength(ss[..|ss| - 1]) + ss[|ss| - 1].dl
  }

  /**
   * Steps through whole elements from element n on, one per element, in order:
   * the first from z0 to the end of element n (firstEnd), the others over their
   * full element length. Stated step by step; FullStepsAt states it index by index.
   */
  predicate FullSteps(ls: seq<real>, n: nat, z0: real, firstEnd: real, steps: seq<Step>)
    decreases |steps|
  {
    && n + |steps| <= |ls|
    && (|steps| > 0 ==>
          && FullSteps(ls, n, z0, firstEnd, steps[..|steps| - 1])
          && steps[|steps| - 1] == WholeStep(ls, n, z0, firstEnd, |steps| - 1))
  }

  /** The j-th whole-element step of a walk from z0 in element n. */
  function WholeStep(ls: seq<real>, n: nat, z0: real, firstEnd: real, j: nat): Step
    requires n + j < |ls|
  {
    Step(n + j, if j == 0 then firstEnd - z0 else ls[n + j])
  }

  /** The steps are whole-element steps exactly when the j-th one is WholeStep(j), for every j. */
  lemma {:induction false} FullStepsAt(ls: seq<real>, n: nat, z0: real, firstEnd: real, steps: seq<Step>)
    ensures FullSteps(ls, n, z0, firstEnd, steps) <==>
              n + |steps| <= |ls| && forall j | 0 <= j < |steps| :: steps[j] == WholeStep(ls, n, z0, firstEnd, j)
    decreases |steps|
  {
    if |steps| > 0 {
      var init := steps[..|steps| - 1];
      FullStepsAt(ls, n, z0, firstEnd, init);
      assert forall j | 0 <= j < |init| :: init[j] == steps[j];
    }
  }

  /** The steps of a walk: whole-element steps followed by a last, partial one. */
  predicate WalkSteps(ls: seq<real>, n: nat, z0: real, firstEnd: real, steps: seq<Step>)
  {
    |steps| >= 1 && FullSteps(ls, n, z0, firstEnd, steps[..|steps| - 1]) && steps[|steps| - 1].k == n + |steps| - 1
  }

  lemma AddFullStep(ls: seq<real>, n: nat, z0: real, firstEnd: real, steps: seq<Step>, s: Step)
    requires FullSteps(ls, n, z0, firstEnd, steps) && n + |steps| < |ls|
    requires s == WholeStep(ls, n, z0, firstEnd, |steps|)
    ensures FullSteps(ls, n, z0, firstEnd, steps + [s])
    ensures StepsLength(steps + [s]) == StepsLength(steps) + s.dl
  {
    assert (steps + [s])[..|steps|] == steps;
  }

  lemma AddLastStep(ls: seq<real>, n: nat, z0: real, firstEnd: real, steps: seq<Step>, s: Step)
    requires FullSteps(ls, n, z0, firstEnd, steps) && s.k == n + |steps|
    ensures WalkSteps(ls, n, z0, firstEnd, steps + [s])
    ensures StepsLength(steps + [s]) == StepsLength(steps) + s.dl
  {
    assert (steps + [s])[..|steps|] == steps;
  }

  /** Sums over adjacent slices add up. */
  lemma {:induction false} SumConcat(a: seq<real>, b: seq<real>)
    ensures Sum(a + b) == Sum(a) + Sum(b)
    decreases |b|
  {
    if |b| == 0 {
      assert a + b == a;
    } else {
      assert (a + b)[..|a + b| - 1] == a + b[..|b| - 1];
      SumConcat(a, b[..|b| - 1]);
    }
  }

  /** The end of element i measured from the start of element n. */
  lemma SpanStep(ls: seq<real>, n: nat, i: nat)
    requires n <= i < |ls|
    ensures Sum(ls[n..i + 1]) == Sum(ls[n..i]) + ls[i]
  {
    assert ls[n..i + 1][..i - n] == ls[n..i];
  }

  /** A navigator start that agrees with the lattice gives element starts and ends. */
  lemma SpanFromStart(ls: seq<real>, n: nat, i: nat)
    requires n <= i < |ls|
    ensures Start(ls, n) + Sum(ls[n..i]) == Start(ls, i)
    ensures Start(ls, n) + Sum(ls[n..i + 1]) == End(ls, i)
  {
    assert ls[..i] == ls[..n] + ls[n..i];
    assert ls[..i + 1] == ls[..n] + ls[n..i + 1];
    SumConcat(ls[..n], ls[n..i]);
    SumConcat(ls[..n], ls[n..i + 1]);
  }

  /**
   * The bookkeeping of get_map between slices: the emitted maps realize the plan,
   * and the pending accumulator `tm` is the composition of the pending linear
   * steps `cur`, counted by recCount; it is the identity exactly when nothing is
   * pending.
   */
  ghost predicate Pending(ems: seq<ElementMap>, order: int, plan: seq<Group>, tms: seq<TransferMap>,
                          cur: seq<Step>, tm: TransferMap, recCount: int, bound: nat)
  {
    && Realizes(ems, order, plan, tms)
    && LinearSteps(ems, order, cur)
    && recCount == |cur| <= bound
    && tm == RunMap(ems, cur)
    && (tm.identity <==> |cur| == 0)
  }

  /** Nothing emitted and nothing pending. */
  lemma PendingStart(ems: seq<ElementMap>, order: int)
    ensures Pending(ems, order, [], [], [], IdentityMap(), 0, 100)
  {
  }

  /** `if tm.identity == False: TM.append(tm)`: the pending run, if any, is emitted as one group. */
  method FlushRun(ghost ems: seq<ElementMap>, order: int, tm: TransferMap, tms: seq<TransferMap>,
                  ghost plan: seq<Group>, ghost cur: seq<Step>, ghost recCount: int, ghost bound: nat)
    returns (tms': seq<TransferMap>, ghost plan': seq<Group>)
    requires Pending(ems, order, plan, tms, cur, tm, recCount, bound) && bound <= 101
    ensures Pending(ems, order, plan', tms', [], IdentityMap(), 0, 100)
    ensures Flatten(plan') == Flatten(plan) + cur
    ensures tm.identity ==> tms' == tms
    ensures !tm.identity ==> tms' == tms + [tm]
    ensures plan' == Flushed(plan, cur)
  {
    if !tm.identity {
      PushGroup(ems, order, plan, tms, Run(cur), tm);
      tms', plan' := tms + [tm], plan + [Run(cur)];
    } else {
      tms', plan' := tms, plan;
    }
  }

  /**
   * A slice that must stand alone (the slice `step` of element map `em`): the
   * pending run is emitted first, then the slice itself, and the accumulator
   * starts again from the identity.
   */
  method EmitAtomic(ghost ems: seq<ElementMap>, order: int, em: ElementMap, dl: real,
                    tm: TransferMap, ghost recCount: int, tms: seq<TransferMap>,
                    ghost plan: seq<Group>, ghost cur: seq<Step>, ghost step: Step)
    returns (tms': seq<TransferMap>, ghost plan': seq<Group>)
    requires Pending(ems, order, plan, tms, cur, tm, recCount, 100)
    requires step.k < |ems| && ems[step.k] == em && step.dl == dl && Atomic(ems, order, step)
    ensures Pending(ems, order, plan', tms', [], IdentityMap(), 0, 100)
    ensures Flatten(plan') == Flatten(plan) + cur + [step]
    ensures tms' == (if tm.identity then tms else tms + [tm]) + [Slice(em, dl)]
    ensures plan' == Flushed(plan, cur) + [Single(step)]
  {
    var tms1;
    ghost var plan1;
    tms1, plan1 := FlushRun(ems, order, tm, tms, plan, cur, recCount, 100);
    PushGroup(ems, order, plan1, tms1, Single(step), Slice(em, dl));
    tms' := tms1 + [Slice(em, dl)];
    plan' := plan1 + [Single(step)];
  }

  /** Composing a linear slice onto the accumulator keeps the bookkeeping, one slice over the bound. */
  lemma PendingExtend(ems: seq<ElementMap>, order: int, plan: seq<Group>, tms: seq<TransferMap>,
                      cur: seq<Step>, tm: TransferMap, recCount: int, step: Step, em: ElementMap)
    requires Pending(ems, order, plan, tms, cur, tm, recCount, 100)
    requires step.k < |ems| && ems[step.k] == em && !Atomic(ems, order, step)
    ensures Pending(ems, order, plan, tms, cur + [step], Compose(Slice(em, step.dl), tm), recCount + 1, 101)
  {
    ExtendRun(ems, order, cur, step);
  }

  /** A pending run within a smaller bound is within it. */
  lemma PendingWithin(ems: seq<ElementMap>, order: int, plan: seq<Group>, tms: seq<TransferMap>,
                      cur: seq<Step>, tm: TransferMap, recCount: int, bound: nat)
    requires Pending(ems, order, plan, tms, cur, tm, recCount, 101) && recCount <= bound
    ensures Pending(ems, order, plan, tms, cur, tm, recCount, bound)
  {
  }

  /**
   * A linear slice inside the while loop of get_map: composed onto the
   * accumulator, which is emitted once it holds more than 100 slices.
   */
  method ComposeLinear(ghost ems: seq<ElementMap>, order: int, em: ElementMap, dl: real,
                       tm: TransferMap, recCount: int, tms: seq<TransferMap>,
                       ghost plan: seq<Group>, ghost cur: seq<Step>, ghost step: Step)
    returns (tm': TransferMap, recCount': int, tms': seq<TransferMap>, ghost plan': seq<Group>, ghost cur': seq<Step>)
    requires Pending(ems, order, plan, tms, cur, tm, recCount, 100)
    requires step.k < |ems| && ems[step.k] == em && step.dl == dl && !Atomic(ems, order, step)
    ensures Pending(ems, order, plan', tms', cur', tm', recCount', 100)
    ensures Flatten(plan') + cur' == Flatten(plan) + cur + [step]
    ensures recCount + 1 > 100 ==> tms' == tms + [Compose(Slice(em, dl), tm)] && tm' == IdentityMap() && recCount' == 0
    ensures recCount + 1 <= 100 ==> tms' == tms && tm' == Compose(Slice(em, dl), tm) && recCount' == recCount + 1
    ensures (plan', cur') == PassStep(ems, order, plan, cur, step)
  {
    PendingExtend(ems, order, plan, tms, cur, tm, recCount, step, em);
    tm' := Compose(Slice(em, dl), tm);
    recCount' := recCount + 1;
    cur' := cur + [step];
    tms', plan' := tms, plan;
    if recCount' > 100 {
      tms', plan' := FlushRun(ems, order, tm', tms, plan, cur', recCount', 101);
      tm', recCount', cur' := IdentityMap(), 0, [];
      assert Flatten(plan') + cur' == Flatten(plan') by { assert Flatten(plan') + [] == Flatten(plan'); }
    } else {
      PendingWithin(ems, order, plan', tms', cur', tm', recCount', 100);
    }
  }

  /** A slice inside the while loop of get_map: emitted alone if nonlinear, else composed. */
  method PushSlice(ghost ems: seq<ElementMap>, order: int, em: ElementMap, dl: real,
                   tm: TransferMap, recCount: int, tms: seq<TransferMap>,
                   ghost plan: seq<Group>, ghost cur: seq<Step>, ghost step: Step)
    returns (tm': TransferMap, recCount': int, tms': seq<TransferMap>, ghost plan': seq<Group>, ghost cur': seq<Step>)
    requires Pending(ems, order, plan, tms, cur, tm, recCount, 100)
    requires step.k < |ems| && ems[step.k] == em && step.dl == dl
    ensures Pending(ems, order, plan', tms', cur', tm', recCount', 100)
    ensures Flatten(plan') + cur' == Flatten(plan) + cur + [step]
    ensures em.order > 1 || order > 1 ==>
              tms' == (if tm.identity then tms else tms + [tm]) + [Slice(em, dl)] && tm' == IdentityMap() && recCount' == 0
    ensures !(em.order > 1 || order > 1) && recCount + 1 > 100 ==>
              tms' == tms + [Compose(Slice(em, dl), tm)] && tm' == IdentityMap() && recCount' == 0
    ensures !(em.order > 1 || order > 1) && recCount + 1 <= 100 ==>
              tms' == tms && tm' == Compose(Slice(em, dl), tm) && recCount' == recCount + 1
    ensures (plan', cur') == PassStep(ems, order, plan, cur, step)
  {
    if em.order > 1 || order > 1 {
      tms', plan' := EmitAtomic(ems, order, em, dl, tm, recCount, tms, plan, cur, step);
      tm', recCount', cur' := IdentityMap(), 0, [];
    } else {
      tm', recCount', tms', plan', cur' := ComposeLinear(ems, order, em, dl, tm, recCount, tms, plan, cur, step);
    }
  }

  /**
   * The last slice, after the while loop: as inside it, except that a linear
   * slice is composed without the check on the count, and the accumulator is
   * then emitted if it is not the identity.
   */
  method PushLastSlice(ghost ems: seq<ElementMap>, order: int, em: ElementMap, dl: real,
                       tm: TransferMap, recCount: int, tms: seq<TransferMap>,
                       ghost plan: seq<Group>, ghost cur: seq<Step>, ghost step: Step)
    returns (tms': seq<TransferMap>, ghost plan': seq<Group>)
    requires Pending(ems, order, plan, tms, cur, tm, recCount, 100)
    requires step.k < |ems| && ems[step.k] == em && step.dl == dl
    ensures Realizes(ems, order, plan', tms')
    ensures Flatten(plan') == Flatten(plan) + cur + [step]
    ensures em.order > 1 || order > 1 ==> tms' == (if tm.identity then tms else tms + [tm]) + [Slice(em, dl)]
    ensures !(em.order > 1 || order > 1) ==> tms' == tms + [Compose(Slice(em, dl), tm)]
    ensures plan' == (if Atomic(ems, order, step) then Flushed(plan, cur) + [Single(step)] else plan + [Run(cur + [step])])
  {
    if em.order > 1 || order > 1 {
      tms', plan' := EmitAtomic(ems, order, em, dl, tm, recCount, tms, plan, cur, step);
    } else {
      assert !Atomic(ems, order, step);
      PendingExtend(ems, order, plan, tms, cur, tm, recCount, step, em);
      var tm1 := Compose(Slice(em, dl), tm);
      tms', plan' := FlushRun(ems, order, tm1, tms, plan, cur + [step], recCount + 1, 101);
      assert Flatten(plan) + (cur + [step]) == Flatten(plan) + cur + [step];
    }
  }

  /**
   * Where the walk of get_map stands between two elements: started at z0 in
   * element n, whose start is s0, and heading for z1, it stands at `pos` in
   * element i, whose end is L.
   */
  ghost predicate Position(ls: seq<real>, n: nat, z0: real, s0: real, z1: real, i: nat, pos: real, L: real)
  {
    && n <= i < |ls|
    && L == s0 + Sum(ls[n..i + 1])
    && (i > n ==> pos == s0 + Sum(ls[n..i]) && z1 > pos)
    && (i == n ==> pos == z0)
    && Crossed(ls, n, s0, z1, i)
  }

  /** `while z1 > L` held at every element end the walk crossed: those of elements n to i - 1. */
  ghost predicate Crossed(ls: seq<real>, n: nat, s0: real, z1: real, i: nat)
  {
    forall k | n <= k < i && k < |ls| :: z1 > EndFrom(ls, n, s0, k)
  }

  /** The end of element k, measured from the start s0 of element n. */
  function EndFrom(ls: seq<real>, n: nat, s0: real, k: nat): real
    requires n <= k < |ls|
  {
    s0 + Sum(ls[n..k + 1])
  }

  /** The steps of the walk so far: one per element from n to i - 1, reaching pos. */
  ghost predicate Stepped(ls: seq<real>, n: nat, z0: real, s0: real, i: nat, pos: real, done: seq<Step>)
  {
    && n < |ls|
    && |done| == i - n
    && FullSteps(ls, n, z0, s0 + ls[n], done)
    && StepsLength(done) == pos - z0
  }

  lemma WalkStart(ls: seq<real>, ems: seq<ElementMap>, order: int, n: nat, z0: real, s0: real, z1: real)
    requires n < |ls|
    ensures Position(ls, n, z0, s0, z1, n, z0, s0 + ls[n])
    ensures Stepped(ls, n, z0, s0, n, z0, Flatten([]) + [])
    ensures Pending(ems, order, [], [], [], IdentityMap(), 0, 100)
  {
    assert ls[n..n] == [];
    SpanStep(ls, n, n);
    PendingStart(ems, order);
    assert Flatten([]) + [] == [];
  }

  /** Crossing the end L of element i leads to element i + 1. */
  /** Crossing the end of element i as well. */
  lemma CrossedOn(ls: seq<real>, n: nat, s0: real, z1: real, i: nat)
    requires Crossed(ls, n, s0, z1, i) && n <= i < |ls| && z1 > EndFrom(ls, n, s0, i)
    ensures Crossed(ls, n, s0, z1, i + 1)
  {
  }

  lemma PositionOn(ls: seq<real>, n: nat, z0: real, s0: real, z1: real, i: nat, pos: real, L: real,
                   i': nat, pos': real, L': real)
    requires Position(ls, n, z0, s0, z1, i, pos, L) && z1 > L && i + 1 < |ls|
    requires i' == i + 1 && pos' == L && L' == L + ls[i']
    ensures Position(ls, n, z0, s0, z1, i', pos', L')
  {
    SpanStep(ls, n, i + 1);
    CrossedOn(ls, n, s0, z1, i);
  }

  /** The step from pos to the end L of element i is a whole-element step. */
  lemma SteppedOn(ls: seq<real>, n: nat, z0: real, s0: real, z1: real, i: nat, pos: real, L: real, done: seq<Step>,
                  step: Step, i': nat, pos': real, done': seq<Step>)
    requires Position(ls, n, z0, s0, z1, i, pos, L) && Stepped(ls, n, z0, s0, i, pos, done) && i + 1 < |ls|
    requires step == Step(i, L - pos) && i' == i + 1 && pos' == L && done' == done + [step]
    ensures Stepped(ls, n, z0, s0, i', pos', done')
  {
    SpanStep(ls, n, i);
    AddFullStep(ls, n, z0, s0 + ls[n], done, step);
  }

  /** Crossing the end of the last element: the walk has reached the end of the lattice. */
  lemma WalkPastEnd(ls: seq<real>, n: nat, z0: real, s0: real, z1: real, i: nat, pos: real, L: real)
    requires Position(ls, n, z0, s0, z1, i, pos, L) && i + 1 >= |ls|
    ensures L == s0 + Sum(ls[n..|ls|])
  {
    assert ls[n..i + 1] == ls[n..|ls|];
  }

  /** z0 + dz lies in element i: with the last, partial step the walk is complete. */
  lemma WalkEnd(ls: seq<real>, n: nat, z0: real, s0: real, dz: real, i: nat, pos: real, L: real,
                done: seq<Step>, steps: seq<Step>)
    requires Position(ls, n, z0, s0, z0 + dz, i, pos, L) && Stepped(ls, n, z0, s0, i, pos, done)
    requires z0 + dz <= L
    requires steps == done + [Step(i, z0 + dz - pos)]
    ensures WalkSteps(ls, n, z0, s0 + ls[n], steps)
    ensures i == n + |steps| - 1
    ensures StepsLength(steps) == dz
    ensures L - ls[i] == s0 + Sum(ls[n..i])
    ensures z0 + dz <= L - ls[i] + ls[i]
    ensures i > n ==> z0 + dz > L - ls[i]
  {
    AddLastStep(ls, n, z0, s0 + ls[n], done, Step(i, z0 + dz - pos));
    SpanStep(ls, n, i);
  }

  /**
   * The body of the while loop of get_map, on the maps: the slice from pos to the
   * end L of element i is pushed.
   */
  method CrossElement(ghost ls: seq<real>, ems: seq<ElementMap>, order: int, ghost n: nat, ghost z0: real,
                      ghost s0: real, ghost z1: real, i: nat, pos: real, L: real,
                      tm: TransferMap, recCount: int, tms: seq<TransferMap>, ghost plan: seq<Group>, ghost cur: seq<Step>)
    returns (tm': TransferMap, recCount': int, tms': seq<TransferMap>, ghost plan': seq<Group>, ghost cur': seq<Step>)
    requires |ems| == |ls| && Position(ls, n, z0, s0, z1, i, pos, L) && i + 1 < |ls|
    requires Stepped(ls, n, z0, s0, i, pos, Flatten(plan) + cur)
    requires Pending(ems, order, plan, tms, cur, tm, recCount, 100)
    ensures Stepped(ls, n, z0, s0, i + 1, L, Flatten(plan') + cur')
    ensures Pending(ems, order, plan', tms', cur', tm', recCount', 100)
    ensures Flatten(plan') + cur' == Flatten(plan) + cur + [Step(i, L - pos)]
    ensures ems[i].order > 1 || order > 1 ==>
              tms' == (if tm.identity then tms else tms + [tm]) + [Slice(ems[i], L - pos)] && tm' == IdentityMap() && recCount' == 0
    ensures !(ems[i].order > 1 || order > 1) && recCount + 1 > 100 ==>
              tms' == tms + [Compose(Slice(ems[i], L - pos), tm)] && tm' == IdentityMap() && recCount' == 0
    ensures !(ems[i].order > 1 || order > 1) && recCount + 1 <= 100 ==>
              tms' == tms && tm' == Compose(Slice(ems[i], L - pos), tm) && recCount' == recCount + 1
    ensures (plan', cur') == PassStep(ems, order, plan, cur, Step(i, L - pos))
  {
    var dl := L - pos;
    ghost var step := Step(i, dl);
    tm', recCount', tms', plan', cur' := PushSlice(ems, order, ems[i], dl, tm, recCount, tms, plan, cur, step);
    SteppedOn(ls, n, z0, s0, z1, i, pos, L, Flatten(plan) + cur, step, i + 1, L, Flatten(plan') + cur');
  }

  /** The body of the while loop of get_map, on the position: the walk moves to the end of element i. */
  method NextElement(ls: seq<real>, ghost n: nat, ghost z0: real, ghost s0: real, ghost z1: real,
                     i: nat, pos: real, L: real, rest: real)
    returns (i': nat, pos': real, L': real, rest': real)
    requires Position(ls, n, z0, s0, z1, i, pos, L) && z1 > L && i + 1 < |ls| && rest == z1 - pos
    ensures i' == i + 1 && pos' == L && rest' == z1 - pos'
    ensures Position(ls, n, z0, s0, z1, i', pos', L')
  {
    rest' := rest - (L - pos);
    i' := i + 1;
    pos' := L;
    L' := L + ls[i'];
    PositionOn(ls, n, z0, s0, z1, i, pos, L, i', pos', L');
  }

  /**
   * The while loop of get_map, over the element lengths `ls` and element maps
   * `ems` of the lattice: from z0 in element n, whose start is s0, it pushes the
   * slices up to the end of each element that z0 + dz lies beyond. `ok` is false
   * when it would move past the last element (the sequence index fails); L is
   * then the end of the lattice.
   */
  method WalkWhole(ls: seq<real>, ems: seq<ElementMap>, order: int, n: nat, z0: real, s0: real, dz: real)
    returns (ok: bool, i: nat, pos: real, L: real, rest: real, tm: TransferMap, recCount: int,
             tms: seq<TransferMap>, ghost plan: seq<Group>, ghost cur: seq<Step>)
    requires |ems| == |ls| && n < |ls|
    ensures ok ==> Position(ls, n, z0, s0, z0 + dz, i, pos, L) && z0 + dz <= L && rest == z0 + dz - pos
    ensures ok ==> Stepped(ls, n, z0, s0, i, pos, Flatten(plan) + cur)
    ensures ok ==> Pending(ems, order, plan, tms, cur, tm, recCount, 100)
    ensures ok ==> Pass(ems, order, Flatten(plan) + cur) == (plan, cur)
    ensures !ok ==> L == s0 + Sum(ls[n..|ls|]) && z0 + dz > L
    ensures !ok ==> Crossed(ls, n, s0, z0 + dz, |ls|)
  {
    plan, cur := [], [];
    tms := [];
    tm := IdentityMap();
    i := n;
    var z1 := z0 + dz;
    L := s0 + ls[i];
    pos := z0;
    recCount := 0;
    rest := dz;
    WalkStart(ls, ems, order, n, z0, s0, z1);
    while z1 > L
      invariant Position(ls, n, z0, s0, z1, i, pos, L)
      invariant Stepped(ls, n, z0, s0, i, pos, Flatten(plan) + cur)
      invariant Pending(ems, order, plan, tms, cur, tm, recCount, 100)
      invariant Pass(ems, order, Flatten(plan) + cur) == (plan, cur)
      invariant rest == z1 - pos
      decreases |ls| - i
    {
      if i + 1 >= |ls| {
        // the sequence index past the last element fails
        WalkPastEnd(ls, n, z0, s0, z1, i, pos, L);
        CrossedOn(ls, n, s0, z1, i);
        ok := false;
        return;
      }
      ghost var done, plan0, cur0 := Flatten(plan) + cur, plan, cur;
      tm, recCount, tms, plan, cur := CrossElement(ls, ems, order, n, z0, s0, z1, i, pos, L, tm, recCount, tms, plan, cur);
      PassNext(ems, order, done, plan0, cur0, Step(i, L - pos), plan, cur);
      i, pos, L, rest := NextElement(ls, n, z0, s0, z1, i, pos, L, rest);
    }
    ok := true;
  }

  /**
   * The outcome of a walk of get_map over dz metres from the cursor (z0, n, s0):
   * its steps run from z0 in element n to z0 + dz in element n', through every
   * element in between, and add up to dz; the maps tms realize the grouping
   * `plan` of those steps; and the new cursor (z0', n', s0') stands at z0 + dz,
   * with s0' the start of element n' measured from s0 and z0' inside element n'
   * (strictly past its start when the walk crossed an element end); every
   * element end before element n' lies below z0 + dz, so element n' is the
   * first whose end the walk does not pass.
   */
  ghost predicate Moved(ls: seq<real>, ems: seq<ElementMap>, order: int, n: nat, z0: real, s0: real, dz: real,
                        n': nat, z0': real, s0': real, plan: seq<Group>, tms: seq<TransferMap>)
  {
    && n <= n' < |ls|
    && WalkSteps(ls, n, z0, s0 + ls[n], Flatten(plan))
    && plan == GreedyPlan(ems, order, Flatten(plan))
    && n' == n + |Flatten(plan)| - 1
    && StepsLength(Flatten(plan)) == dz
    && Realizes(ems, order, plan, tms)
    && z0' == z0 + dz
    && s0' == s0 + Sum(ls[n..n'])
    && z0' <= s0' + ls[n']
    && (n' > n ==> z0' > s0')
    && Crossed(ls, n, s0, z0', n')
  }

  /**
   * The walk of get_map on the cursor values (z0, nElem, sumLengths), over the
   * element lengths `ls` and element maps `ems` of the lattice: the transfer maps
   * of the next dz metres and the new cursor. `ok` is false when the walk runs
   * past the last element (the sequence index fails, and the maps collected are
   * lost); z0' is then the end of the lattice, the position the cursor had
   * reached.
   */
  method Cut(ls: seq<real>, ems: seq<ElementMap>, dz: real, z0: real, nElem: nat, sumLengths: real, order: int)
    returns (ok: bool, z0': real, nElem': nat, sumLengths': real, tms: seq<TransferMap>, ghost plan: seq<Group>)
    requires |ems| == |ls| && nElem < |ls|
    ensures ok ==> Moved(ls, ems, order, nElem, z0, sumLengths, dz, nElem', z0', sumLengths', plan, tms)
    ensures !ok ==> z0' == sumLengths + Sum(ls[nElem..|ls|]) && z0 + dz > z0'
    ensures !ok ==> Crossed(ls, nElem, sumLengths, z0 + dz, |ls|)
  {
    var i, pos, L, rest, tm, recCount;
    ghost var cur;
    ok, i, pos, L, rest, tm, recCount, tms, plan, cur := WalkWhole(ls, ems, order, nElem, z0, sumLengths, dz);
    if !ok {
      return false, L, nElem, sumLengths, tms, plan;
    }
    ghost var done, plan0, cur0 := Flatten(plan) + cur, plan, cur;
    tms, plan := PushLastSlice(ems, order, ems[i], rest, tm, recCount, tms, plan, cur, Step(i, rest));
    GreedyLast(ems, order, done, plan0, cur0, Step(i, rest), plan);
    WalkEnd(ls, nElem, z0, sumLengths, dz, i, pos, L, done, Flatten(plan));
    z0' := pos + rest;
    sumLengths' := L - ls[i];
    nElem' := i;
  }

  /** The walk stops at the first element whose end is not crossed: there is only one. */
  lemma StopUnique(ls: seq<real>, n: nat, s0: real, z: real, n1: nat, n2: nat)
    requires n <= n1 < |ls| && n <= n2 < |ls|
    requires Crossed(ls, n, s0, z, n1) && z <= EndFrom(ls, n, s0, n1)
    requires Crossed(ls, n, s0, z, n2) && z <= EndFrom(ls, n, s0, n2)
    ensures n1 == n2
  {
  }

  /** Where a walk stops, the target lies within the last element it reached. */
  lemma MovedStops(ls: seq<real>, n: nat, z: real, s0: real, n': nat, s0': real)
    requires n <= n' < |ls| && s0' == s0 + Sum(ls[n..n']) && z <= s0' + ls[n']
    ensures z <= EndFrom(ls, n, s0, n')
  {
    SpanStep(ls, n, n');
  }

  /**
   * get_map's stop is determined: two outcomes of a walk over dz metres from the
   * same cursor stop on the same element, at the same position, after crossing
   * the same number of elements.
   */
  lemma MovedDetermined(ls: seq<real>, ems: seq<ElementMap>, order: int, n: nat, z0: real, s0: real, dz: real,
                        n1: nat, z1: real, t1: real, plan1: seq<Group>, tms1: seq<TransferMap>,
                        n2: nat, z2: real, t2: real, plan2: seq<Group>, tms2: seq<TransferMap>)
    requires Moved(ls, ems, order, n, z0, s0, dz, n1, z1, t1, plan1, tms1)
    requires Moved(ls, ems, order, n, z0, s0, dz, n2, z2, t2, plan2, tms2)
    ensures n1 == n2 && z1 == z2 && t1 == t2 && |Flatten(plan1)| == |Flatten(plan2)|
  {
    MovedStops(ls, n, z0 + dz, s0, n1, t1);
    MovedStops(ls, n, z0 + dz, s0, n2, t2);
    StopUnique(ls, n, s0, z0 + dz, n1, n2);
  }

  /** A walk that reaches its target and one that runs past the last element exclude each other. */
  lemma MovedNotPastEnd(ls: seq<real>, ems: seq<ElementMap>, order: int, n: nat, z0: real, s0: real, dz: real,
                        n': nat, z0': real, s0': real, plan: seq<Group>, tms: seq<TransferMap>)
    requires Moved(ls, ems, order, n, z0, s0, dz, n', z0', s0', plan, tms)
    ensures !Crossed(ls, n, s0, z0 + dz, |ls|)
  {
    MovedStops(ls, n, z0 + dz, s0, n', s0');
  }

  /** A walk forward from a cursor consistent with the lattice leaves it consistent. */
  lemma CutKeepsCursor(ls: seq<real>, n: nat, z0: real, s0: real, dz: real, n': nat, z0': real, s0': real)
    requires n <= n' < |ls| && s0 == Start(ls, n) && s0 <= z0 && dz >= 0.0
    requires z0' == z0 + dz && s0' == s0 + Sum(ls[n..n']) && z0' <= s0' + ls[n'] && (n' > n ==> z0' > s0')
    ensures s0' == Start(ls, n') && s0' <= z0' <= End(ls, n')
  {
    SpanFromStart(ls, n, n');
    SpanStep(ls, n, n');
  }

  /**
   * get_map(lattice, dz, navi, order): the transfer maps of the next dz metres
   * from the navigator's position, which then moves by dz. The walk reads the
   * element lengths and maps, which it does not change. The result is None
   * when the walk runs past the last element (the sequence index fails); the
   * navigator's position has then been moved to the end of the lattice, and its
   * element index and start are unchanged.
   *
   * The ghost `plan` records how the steps of the walk were grouped.
   */
  method GetMap(lat: seq<Element>, dz: real, navi: Navigator, order: int)
    returns (res: Option<seq<TransferMap>>, ghost plan: seq<Group>)
    modifies navi
    ensures res.Some? ==> Moved(old(LengthsOf(lat)), old(MapsOf(lat)), order, old(navi.nElem), old(navi.z0),
                                old(navi.sumLengths), dz, navi.nElem, navi.z0, navi.sumLengths, plan, res.value)
    ensures res.None? ==> navi.nElem == old(navi.nElem) && navi.sumLengths == old(navi.sumLengths)
    ensures res.None? && old(navi.nElem) < |lat| ==>
              navi.z0 == old(navi.sumLengths) + Sum(old(LengthsOf(lat))[old(navi.nElem)..|lat|])
              && old(navi.z0) + dz > navi.z0
    ensures res.None? && old(navi.nElem) < |lat| ==>
              Crossed(old(LengthsOf(lat)), old(navi.nElem), old(navi.sumLengths), old(navi.z0) + dz, |lat|)
    ensures old(navi.nElem) >= |lat| ==> res.None? && navi.z0 == old(navi.z0)
    ensures old(navi.Valid(LengthsOf(lat))) && dz >= 0.0 && res.Some? ==> navi.Valid(old(LengthsOf(lat)))
  {
    plan := [];
    if navi.nElem >= |lat| {
      return None, plan;
    }
    var ls := LengthsOf(lat);
    ghost var ems := MapsOf(lat);
    ghost var valid0 := navi.Valid(ls);
    ghost var n0, z00, s00 := navi.nElem, navi.z0, navi.sumLengths;
    var ok, z0, nElem, sumLengths, tms;
    ok, z0, nElem, sumLengths, tms, plan := Cut(ls, MapsOf(lat), dz, navi.z0, navi.nElem, navi.sumLengths, order);
    if !ok {
      assert ls == old(LengthsOf(lat)) && n0 == old(navi.nElem) && s00 == old(navi.sumLengths);
      navi.z0 := z0;
      return None, plan;
    }
    if valid0 && dz >= 0.0 {
      CutKeepsCursor(ls, navi.nElem, navi.z0, navi.sumLengths, dz, nElem, z0, sumLengths);
    }
    navi.z0, navi.nElem, navi.sumLengths := z0, nElem, sumLengths;
    res := Some(tms);
    assert Moved(ls, ems, order, n0, z00, s00, dz, navi.nElem, navi.z0, navi.sumLengths, plan, res.value);
  }
}
