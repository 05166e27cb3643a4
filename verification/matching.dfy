/**
 * The objective function of the optics matcher: the matcher writes its trial
 * values into the varied elements (or into the initial Twiss), tracks the Twiss
 * through the lattice with the elements' new maps, and adds up a penalty for
 * every constraint the optics miss. The optimiser that drives it is not modelled;
 * only the initial vector it is started from is.
 */
module Matching {
  import opened MathLib
  import opened Wrappers
  import opened TransferMaps
  import opened Elements
  import opened MapFactory
  import opened Lattice
  import opened TwissOptics
  import opened TwissFields
  import opened MatchVariables
  import opened VariableWrites

  /** The keys weights_default names; every other key gets the smallest weight. */
  function NamedWeights(): seq<string>
  {
    ["periodic", "Dx", "Dxp", "tau", "i5", "negative_length", "alpha_x", "alpha_y", "mux", "muy", "beta_x", "beta_y"]
  }

  /** The default penalty weight of a constraint key. */
  function WeightsDefault(key: string): (w: real)
    ensures 0.0001 <= w <= 10000000.0
    ensures key in ["periodic", "Dx", "Dxp", "tau", "mux", "muy"] ==> w == 10000000.0
    ensures key in ["alpha_x", "alpha_y", "beta_x", "beta_y"] ==> w == 100000.0
    ensures key == "i5" ==> w == 1000.0
    ensures key == "negative_length" ==> w == 1500000.0
    ensures key !in NamedWeights() ==> w == 0.0001
  {
    if key == "periodic" then 10000000.0
    else if key == "Dx" then 10000000.0
    else if key == "Dxp" then 10000000.0
    else if key == "tau" then 10000000.0
    else if key == "i5" then 1000.0
    else if key == "negative_length" then 1500000.0
    else if key in ["alpha_x", "alpha_y"] then 100000.0
    else if key in ["mux", "muy"] then 10000000.0
    else if key in ["beta_x", "beta_y"] then 100000.0
    else 0.0001
  }

  // ---------------------------------------------------------------------------
  // Constraints and their penalties

  /**
   * A constraint on a Twiss field: ['<', v1], ['>', v1], ['->', ref] (equal to
   * the value at the reference element) or a plain target value.
   */
  datatype Constraint = Below(v1: real) | Above(v1: real) | Follows(ref: Element) | Target(value: real)

  /** The constraints on one element, in dictionary order. */
  type FieldConstraints = seq<(TwissField, Constraint)>

  /** The 'global' constraints, and the constraints keyed by element (a dictionary's items). */
  datatype Constraints = Constraints(global: FieldConstraints, local: seq<(Element, FieldConstraints)>)

  /** constr[e] when e is a key, in dictionary order. */
  function LocalOf(local: seq<(Element, FieldConstraints)>, e: Element): Option<FieldConstraints>
  {
    if |local| == 0 then None
    else if local[0].0 == e then Some(local[0].1)
    else LocalOf(local[1..], e)
  }

  /** The reference elements the '->' constraints name. */
  function RefsIn(cs: FieldConstraints): set<Element>
  {
    set i | 0 <= i < |cs| && cs[i].1.Follows? :: cs[i].1.ref
  }

  function Refs(local: seq<(Element, FieldConstraints)>): set<Element>
  {
    if |local| == 0 then {} else Refs(local[..|local| - 1]) + RefsIn(local[|local| - 1].1)
  }

  function Square(v: real): (r: real)
    ensures r >= 0.0
  {
    v * v
  }

  lemma SquareOfNonZero(u: real)
    requires u != 0.0
    ensures Square(u) > 0.0
  {
    calc {
      Square(u);
      u * u;
    > { SquarePositive(u); }
      0.0;
    }
  }

  lemma ProductSigns(w: real, q: real)
    ensures w >= 0.0 && q >= 0.0 ==> w * q >= 0.0
    ensures w > 0.0 && q > 0.0 ==> w * q > 0.0
  {
  }

  /** The penalty of a global constraint: only '<' and '>' are evaluated there. */
  function GlobalTerm(c: Constraint, v: real): (r: real)
    ensures r >= 0.0
  {
    match c
    case Below(v1) => if v > v1 then Square(v - v1) else 0.0
    case Above(v1) => if v < v1 then Square(v - v1) else 0.0
    case _ => 0.0
  }

  /**
   * The penalty of a constraint on an element's field value v. A bound adds the
   * squared excess, and again the squared distance to the bound while v is
   * negative. '->' adds the squared distance to the value saved at the reference,
   * or nothing before the reference has been passed; a negative value there
   * fails (None), as the reference element is then subtracted from it. A target adds its weight
   * times the squared distance.
   */
  function LocalTerm(f: TwissField, c: Constraint, v: real, saved: map<Element, Twiss>, weights: string -> real): Option<real>
  {
    match c
    case Below(v1) => Some(GlobalTerm(c, v) + (if v < 0.0 then Square(v - v1) else 0.0))
    case Above(v1) => Some(GlobalTerm(c, v) + (if v < 0.0 then Square(v - v1) else 0.0))
    case Follows(ref) =>
      if v < 0.0 then None
      else Some(if ref in saved then Square(v - Get(saved[ref], f)) else 0.0)
    case Target(value) => Some(TargetPenalty(weights, f, value, v))
  }

  /** weights(name) times the squared distance to the target. */
  function TargetPenalty(weights: string -> real, f: TwissField, value: real, v: real): real
  {
    weights(FieldName(f)) * Square(value - v)
  }

  function AddOpt(a: Option<real>, b: Option<real>): Option<real>
  {
    if a.Some? && b.Some? then Some(a.value + b.value) else None
  }

  /** The sum of the global penalties for Twiss t. */
  function GlobalSum(cs: FieldConstraints, t: Twiss): real
  {
    if |cs| == 0 then 0.0
    else GlobalSum(cs[..|cs| - 1], t) + GlobalTerm(cs[|cs| - 1].1, Get(t, cs[|cs| - 1].0))
  }

  /** The sum of an element's penalties for Twiss t, None once one fails. */
  function LocalSum(cs: FieldConstraints, t: Twiss, saved: map<Element, Twiss>, weights: string -> real): Option<real>
  {
    if |cs| == 0 then Some(0.0)
    else
      var (f, c) := cs[|cs| - 1];
      AddOpt(LocalSum(cs[..|cs| - 1], t, saved, weights), LocalTerm(f, c, Get(t, f), saved, weights))
  }

  /** How far the evaluation is after some elements: the penalty so far, the Twiss, and the Twiss saved at references. */
  datatype Progress = Progress(err: Option<real>, twiss: Twiss, saved: map<Element, Twiss>)

  /**
   * One element of the evaluation: the element's map carries the Twiss on; the
   * Twiss is saved when the element is a reference; then the global constraints
   * and the element's own constraints are charged.
   */
  function Step(mul: (TransferMap, Twiss) -> Twiss, cs: Constraints, refs: set<Element>, weights: string -> real,
                e: Element, em: ElementMap, prev: Progress): Progress
  {
    var t := mul(FullMap(em), prev.twiss);
    var saved := if e in refs then prev.saved[e := t] else prev.saved;
    Progress(AddOpt(prev.err, Charge(cs, weights, e, t, saved)), t, saved)
  }

  /** What an element with Twiss t is charged: the global penalties and its own. */
  function Charge(cs: Constraints, weights: string -> real, e: Element, t: Twiss, saved: map<Element, Twiss>): Option<real>
  {
    var own := LocalOf(cs.local, e);
    AddOpt(Some(GlobalSum(cs.global, t)), if own.Some? then LocalSum(own.value, t, saved, weights) else Some(0.0))
  }

  /** The reference elements of all '->' constraints, global and local. */
  function AllRefs(cs: Constraints): set<Element>
  {
    Refs(cs.local) + RefsIn(cs.global)
  }

  /** The evaluation after the first k elements, starting from Twiss tw0 with no penalty and nothing saved. */
  function PenaltyAfter(mul: (TransferMap, Twiss) -> Twiss, lat: seq<Element>, ems: seq<ElementMap>, cs: Constraints, tw0: Twiss,
                        weights: string -> real, k: nat): Progress
    requires |ems| == |lat| && k <= |lat|
  {
    if k == 0 then Progress(Some(0.0), tw0, map[])
    else Step(mul, cs, AllRefs(cs), weights, lat[k - 1], ems[k - 1], PenaltyAfter(mul, lat, ems, cs, tw0, weights, k - 1))
  }

  /**
   * The second half of errf: tracks the Twiss through the lattice with the
   * Twiss product `mul` and adds up the penalties, element by element,
   * constraint by constraint. None when a '->' constraint meets a negative value.
   */
  method Penalty(mul: (TransferMap, Twiss) -> Twiss, lat: seq<Element>, cs: Constraints, tw0: Twiss, weights: string -> real)
    returns (err: Option<real>)
    ensures err == PenaltyAfter(mul, lat, MapsOf(lat), cs, tw0, weights, |lat|).err
  {
    ghost var ems := MapsOf(lat);
    var refs := ReferencePoints(cs);
    var p := Progress(Some(0.0), tw0, map[]);
    for k := 0 to |lat|
      invariant p.err.Some? && p == PenaltyAfter(mul, lat, ems, cs, tw0, weights, k)
    {
      var next := ChargeNext(mul, lat, cs, refs, tw0, weights, k, p, ems);
      if next.err.None? {
        return None;
      }
      p := next;
    }
    err := p.err;
  }

  /** The work of one element, from a penalty that is still defined. */
  method ChargeElement(mul: (TransferMap, Twiss) -> Twiss, cs: Constraints, refs: set<Element>, weights: string -> real,
                       e: Element, em: ElementMap, prev: Progress)
    returns (next: Progress)
    requires prev.err.Some?
    ensures next == Step(mul, cs, refs, weights, e, em, prev)
  {
    var twLoc := mul(FullMap(em), prev.twiss);
    var total := prev.err.value;
    var g := GlobalPenalty(cs.global, twLoc);
    total := total + g;
    var saved := prev.saved;
    if e in refs {
      saved := saved[e := twLoc];
    }
    var own := LocalOf(cs.local, e);
    if own.Some? {
      var l := LocalPenalty(own.value, twLoc, saved, weights);
      if l.None? {
        return Progress(None, twLoc, saved);
      }
      total := total + l.value;
    }
    next := Progress(Some(total), twLoc, saved);
  }

  /** Charges the k-th element, carrying the evaluation after k elements on to the evaluation after k + 1. */
  method ChargeNext(mul: (TransferMap, Twiss) -> Twiss, lat: seq<Element>, cs: Constraints, refs: set<Element>, tw0: Twiss,
                    weights: string -> real, k: nat, prev: Progress, ghost ems: seq<ElementMap>)
    returns (next: Progress)
    requires ems == MapsOf(lat) && k < |lat| && refs == AllRefs(cs)
    requires prev.err.Some? && prev == PenaltyAfter(mul, lat, ems, cs, tw0, weights, k)
    ensures next == PenaltyAfter(mul, lat, ems, cs, tw0, weights, k + 1)
    ensures next.err.None? ==> PenaltyAfter(mul, lat, ems, cs, tw0, weights, |lat|).err.None?
  {
    next := ChargeElement(mul, cs, refs, weights, lat[k], lat[k].transferMap, prev);
    if next.err.None? {
      AbortedStaysAborted(mul, lat, ems, cs, tw0, weights, k + 1, |lat|);
    }
  }

  /** A None penalty stays None: the evaluation aborted. */
  lemma {:induction false} AbortedStaysAborted(mul: (TransferMap, Twiss) -> Twiss, lat: seq<Element>, ems: seq<ElementMap>, cs: Constraints,
                                              tw0: Twiss, weights: string -> real, k: nat, n: nat)
    requires |ems| == |lat| && k <= n <= |lat|
    requires PenaltyAfter(mul, lat, ems, cs, tw0, weights, k).err.None?
    ensures PenaltyAfter(mul, lat, ems, cs, tw0, weights, n).err.None?
    decreases n - k
  {
    if k < n {
      AbortedStaysAborted(mul, lat, ems, cs, tw0, weights, k, n - 1);
    }
  }

  /** Collects the reference elements, as errf does before tracking. */
  method ReferencePoints(cs: Constraints) returns (refs: set<Element>)
    ensures refs == AllRefs(cs)
  {
    refs := {};
    for i := 0 to |cs.local|
      invariant refs == Refs(cs.local[..i])
    {
      assert cs.local[..i + 1][..i] == cs.local[..i];
      var more := FollowRefs(cs.local[i].1);
      refs := refs + more;
    }
    assert cs.local[..|cs.local|] == cs.local;
    var more := FollowRefs(cs.global);
    refs := refs + more;
  }

  method FollowRefs(cs: FieldConstraints) returns (refs: set<Element>)
    ensures refs == RefsIn(cs)
  {
    refs := {};
    for i := 0 to |cs|
      invariant refs == RefsIn(cs[..i])
    {
      assert cs[..i + 1] == cs[..i] + [cs[i]];
      if cs[i].1.Follows? {
        refs := refs + {cs[i].1.ref};
      }
    }
    assert cs[..|cs|] == cs;
  }

  method GlobalPenalty(cs: FieldConstraints, t: Twiss) returns (g: real)
    ensures g == GlobalSum(cs, t)
  {
    g := 0.0;
    for i := 0 to |cs|
      invariant g == GlobalSum(cs[..i], t)
    {
      assert cs[..i + 1][..i] == cs[..i];
      var (f, c) := cs[i];
      var v := Get(t, f);
      match c
      case Below(v1) =>
        if v > v1 {
          g := g + Square(v - v1);
        }
      case Above(v1) =>
        if v < v1 {
          g := g + Square(v - v1);
        }
      case _ =>
    }
    assert cs[..|cs|] == cs;
  }

  method LocalPenalty(cs: FieldConstraints, t: Twiss, saved: map<Element, Twiss>, weights: string -> real)
    returns (l: Option<real>)
    ensures l == LocalSum(cs, t, saved, weights)
  {
    var sum := 0.0;
    for i := 0 to |cs|
      invariant LocalSum(cs[..i], t, saved, weights) == Some(sum)
    {
      assert cs[..i + 1][..i] == cs[..i];
      var (f, c) := cs[i];
      var term := ConstraintPenalty(f, c, Get(t, f), saved, weights);
      if term.None? {
        LocalSumAborted(cs, i + 1, t, saved, weights);
        return None;
      }
      sum := sum + term.value;
    }
    assert cs[..|cs|] == cs;
    l := Some(sum);
  }

  /** The penalty of one constraint on the element's value v of its field. */
  method ConstraintPenalty(f: TwissField, c: Constraint, v: real, saved: map<Element, Twiss>, weights: string -> real)
    returns (term: Option<real>)
    ensures term == LocalTerm(f, c, v, saved, weights)
  {
    var err := 0.0;
    match c {
      case Below(v1) =>
        if v > v1 {
          err := err + Square(v - v1);
        }
        if v < 0.0 {
          err := err + Square(v - v1);
        }
      case Above(v1) =>
        if v < v1 {
          err := err + Square(v - v1);
        }
        if v < 0.0 {
          err := err + Square(v - v1);
        }
      case Follows(ref) =>
        if ref in saved {
          err := err + Square(v - Get(saved[ref], f));
        }
        if v < 0.0 {
          return None;
        }
      case Target(value) =>
        err := TargetPenalty(weights, f, value, v);
    }
    term := Some(err);
  }

  /** Once an element's constraints fail, their whole sum fails. */
  lemma {:induction false} LocalSumAborted(cs: FieldConstraints, i: nat, t: Twiss, saved: map<Element, Twiss>, weights: string -> real)
    requires i <= |cs|
    requires LocalSum(cs[..i], t, saved, weights).None?
    ensures LocalSum(cs, t, saved, weights).None?
    decreases |cs| - i
  {
    if i < |cs| {
      assert cs[..i + 1][..i] == cs[..i];
      LocalSumAborted(cs, i + 1, t, saved, weights);
    } else {
      assert cs[..i] == cs;
    }
  }

  /**
   * errf(x): the objective the optimiser minimises. With a negative Drift trial
   * length it is the 'negative_length' weight, and the lattice keeps only the
   * writes made before that variable; otherwise every variable is written and the
   * penalty is that of the lattice with its new maps, from the initial Twiss with
   * its variables set. None when the evaluation fails on a '->' constraint. s0
   * is the parameters and maps of the varied elements on entry.
   */
  method Errf(lib: Lib, ph: Physics, lat: seq<Element>, cs: Constraints, vars: seq<Variable>, x: seq<real>,
              tw: Twiss, varyBendAngle: bool, weights: string -> real, ghost s0: Writes)
    returns (err: Option<real>)
    requires |x| == |vars|
    requires s0.data == DataOf(vars) && s0.maps == TransferMapsOf(vars)
    modifies VarElements(vars)
    ensures var stop := FirstNegativeDrift(s0.data, vars, x, 0);
            && Holds(AssignAll(lib, ph, s0, vars, x, stop, varyBendAngle))
            && (stop < |vars| ==> err == Some(weights("negative_length")))
            && (stop == |vars| ==>
                  err == PenaltyAfter(TwissMul(lib), lat, MapsOf(lat), cs, SetsTo(tw, vars, x, |vars|), weights, |lat|).err)
  {
    var twLoc := ApplyVariables(lib, ph, vars, x, tw, varyBendAngle, s0);
    if twLoc.None? {
      return Some(weights("negative_length"));
    }
    err := Penalty(TwissMul(lib), lat, cs, twLoc.value, weights);
  }

  // ---------------------------------------------------------------------------
  // Properties of the penalty

  /**
   * A '<' bound costs nothing exactly when the value is within it and the bound
   * is not undercut by a negative value; for a nonnegative value only an excess
   * costs. Likewise for '>'.
   */
  lemma BoundPenalty(v: real, v1: real, saved: map<Element, Twiss>, weights: string -> real, f: TwissField)
    ensures GlobalTerm(Below(v1), v) == 0.0 <==> v <= v1
    ensures GlobalTerm(Above(v1), v) == 0.0 <==> v >= v1
    ensures v >= 0.0 ==> LocalTerm(f, Below(v1), v, saved, weights) == Some(GlobalTerm(Below(v1), v))
    ensures v >= 0.0 ==> LocalTerm(f, Above(v1), v, saved, weights) == Some(GlobalTerm(Above(v1), v))
    ensures v < 0.0 && v != v1 ==> LocalTerm(f, Below(v1), v, saved, weights).value > 0.0
  {
    if v != v1 {
      SquareOfNonZero(v - v1);
    }
  }

  /** A target with a positive weight costs nothing exactly when it is met. */
  lemma TargetCost(f: TwissField, value: real, v: real, saved: map<Element, Twiss>, weights: string -> real)
    requires weights(FieldName(f)) > 0.0
    ensures LocalTerm(f, Target(value), v, saved, weights).value >= 0.0
    ensures LocalTerm(f, Target(value), v, saved, weights).value == 0.0 <==> v == value
  {
    var w := weights(FieldName(f));
    ProductSigns(w, Square(value - v));
    assert TargetPenalty(weights, f, value, v) == w * Square(value - v);
    if v != value {
      SquareOfNonZero(value - v);
    }
  }

  /** With nonnegative weights, every penalty term is nonnegative. */
  lemma LocalTermNonNegative(f: TwissField, c: Constraint, v: real, saved: map<Element, Twiss>, weights: string -> real)
    requires forall key :: weights(key) >= 0.0
    ensures LocalTerm(f, c, v, saved, weights).Some? ==> LocalTerm(f, c, v, saved, weights).value >= 0.0
  {
    if c.Target? {
      var w := weights(FieldName(f));
      ProductSigns(w, Square(c.value - v));
      assert TargetPenalty(weights, f, c.value, v) == w * Square(c.value - v);
    }
  }

  lemma {:induction false} LocalSumNonNegative(cs: FieldConstraints, t: Twiss, saved: map<Element, Twiss>, weights: string -> real)
    requires forall key :: weights(key) >= 0.0
    ensures LocalSum(cs, t, saved, weights).Some? ==> LocalSum(cs, t, saved, weights).value >= 0.0
  {
    if |cs| > 0 {
      var (f, c) := cs[|cs| - 1];
      LocalSumNonNegative(cs[..|cs| - 1], t, saved, weights);
      LocalTermNonNegative(f, c, Get(t, f), saved, weights);
    }
  }

  lemma {:induction false} GlobalSumNonNegative(cs: FieldConstraints, t: Twiss)
    ensures GlobalSum(cs, t) >= 0.0
  {
    if |cs| > 0 {
      GlobalSumNonNegative(cs[..|cs| - 1], t);
    }
  }

  /** With nonnegative weights, the penalty of the whole lattice is nonnegative whenever it is defined. */
  lemma {:induction false} PenaltyNonNegative(mul: (TransferMap, Twiss) -> Twiss, lat: seq<Element>, ems: seq<ElementMap>, cs: Constraints,
                                             tw0: Twiss, weights: string -> real, k: nat)
    requires |ems| == |lat| && k <= |lat|
    requires forall key :: weights(key) >= 0.0
    ensures var p := PenaltyAfter(mul, lat, ems, cs, tw0, weights, k); p.err.Some? ==> p.err.value >= 0.0
  {
    if k > 0 {
      PenaltyNonNegative(mul, lat, ems, cs, tw0, weights, k - 1);
      var prev := PenaltyAfter(mul, lat, ems, cs, tw0, weights, k - 1);
      var t := mul(FullMap(ems[k - 1]), prev.twiss);
      var saved := PenaltyAfter(mul, lat, ems, cs, tw0, weights, k).saved;
      GlobalSumNonNegative(cs.global, t);
      var own := LocalOf(cs.local, lat[k - 1]);
      if own.Some? {
        LocalSumNonNegative(own.value, t, saved, weights);
      }
    }
  }

  /** The default weights are all positive, so errf with them is never negative. */
  lemma DefaultWeightsPositive()
    ensures forall key :: WeightsDefault(key) > 0.0
  {
  }
}
