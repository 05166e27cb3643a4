/**
 * The variables of the optics matcher and the first half of its objective: each
 * trial value is written into its element (rebuilding the element's map) or into
 * a field of the initial Twiss, and a Drift with a negative trial length stops
 * the writes.
 */
module MatchVariables {
  import opened MathLib
  import opened Wrappers
  import opened TransferMaps
  import opened Elements
  import opened MapFactory
  import opened TwissOptics
  import opened TwissFields

  /** A matching variable: an element whose parameter is varied, or a named field of the initial Twiss. */
  datatype Variable = ElementVar(elem: Element) | TwissVar(field: TwissField)

  /** The element classes the matcher can vary. */
  predicate Varied(k: Kind) {
    k == Drift || k == Quadrupole || IsBend(k)
  }

  /** The varied elements. */
  function VarElements(vars: seq<Variable>): set<Element>
  {
    set i | 0 <= i < |vars| && vars[i].ElementVar? :: vars[i].elem
  }

  /** The parameter a value is written to: l of a Drift, k1 of a Quadrupole, angle or k1 of a bend. */
  function Written(d: ElementData, xi: real, varyBendAngle: bool): (r: ElementData)
    ensures r.kind == d.kind
  {
    if d.kind == Drift then d.(l := xi)
    else if d.kind == Quadrupole then d.(k1 := xi)
    else if IsBend(d.kind) then (if varyBendAngle then d.(angle := xi) else d.(k1 := xi))
    else d
  }

  /** The parameter the matcher starts a varied element from; 0 for an element it cannot vary. */
  function StartValue(d: ElementData, varyBendAngle: bool): real
  {
    if d.kind == Quadrupole then d.k1
    else if d.kind == Drift then d.l
    else if IsBend(d.kind) then (if varyBendAngle then d.angle else d.k1)
    else 0.0
  }

  /** The start value of a variable: 10 for a beta function, 0 for another Twiss field. */
  function InitialValue(v: Variable, varyBendAngle: bool): real
    reads if v.ElementVar? then {v.elem} else {}
  {
    match v
    case TwissVar(f) => if f == BetaX || f == BetaY then 10.0 else 0.0
    case ElementVar(e) => StartValue(e.data, varyBendAngle)
  }

  /** The vector the optimiser starts from, one value per variable. */
  method InitialVector(vars: seq<Variable>, varyBendAngle: bool) returns (x: seq<real>)
    ensures |x| == |vars|
    ensures forall i | 0 <= i < |vars| :: x[i] == InitialValue(vars[i], varyBendAngle)
  {
    x := seq(|vars|, _ => 0.0);
    for i := 0 to |vars|
      invariant |x| == |vars|
      invariant forall j | 0 <= j < i :: x[j] == InitialValue(vars[j], varyBendAngle)
      invariant forall j | i <= j < |vars| :: x[j] == 0.0
    {
      match vars[i]
      case TwissVar(f) =>
        if f == BetaX || f == BetaY {
          x := x[i := 10.0];
        } else {
          x := x[i := 0.0];
        }
      case ElementVar(e) =>
        var d := e.data;
        if d.kind == Quadrupole {
          x := x[i := d.k1];
        }
        if d.kind == Drift {
          x := x[i := d.l];
        }
        if IsBend(d.kind) {
          if varyBendAngle {
            x := x[i := d.angle];
          } else {
            x := x[i := d.k1];
          }
        }
    }
  }

  /**
   * Writing an element's start value back into it changes nothing, so the
   * objective at the initial vector sees the lattice as it was given.
   */
  lemma StartValueWrittenBack(d: ElementData, varyBendAngle: bool)
    ensures Written(d, StartValue(d, varyBendAngle), varyBendAngle) == d
  {
  }

  /** The current parameters of the varied elements. */
  function DataOf(vars: seq<Variable>): (r: map<Element, ElementData>)
    reads VarElements(vars)
    ensures r.Keys == VarElements(vars)
  {
    map e | e in VarElements(vars) :: e.data
  }

  /** The current maps of the varied elements. */
  function TransferMapsOf(vars: seq<Variable>): (r: map<Element, ElementMap>)
    reads VarElements(vars)
    ensures r.Keys == VarElements(vars)
  {
    map e | e in VarElements(vars) :: e.transferMap
  }

  /** A Drift variable with a negative trial length, the element's class read from the parameters d. */
  predicate NegativeDrift(d: map<Element, ElementData>, v: Variable, xi: real)
  {
    v.ElementVar? && v.elem in d && d[v.elem].kind == Drift && xi < 0.0
  }

  /** The index of the first variable at or after i that is a Drift with a negative trial length, or |vars|. */
  function FirstNegativeDrift(d: map<Element, ElementData>, vars: seq<Variable>, x: seq<real>, i: nat): (r: nat)
    requires i <= |vars| == |x|
    ensures i <= r <= |vars|
    ensures forall j | i <= j < r :: !NegativeDrift(d, vars[j], x[j])
    ensures r < |vars| ==> NegativeDrift(d, vars[r], x[r])
    decreases |vars| - i
  {
    if i == |vars| then i
    else if NegativeDrift(d, vars[i], x[i]) then i
    else FirstNegativeDrift(d, vars, x, i + 1)
  }

  /** The parameters and the maps of the varied elements. */
  datatype Writes = Writes(data: map<Element, ElementData>, maps: map<Element, ElementMap>)

  /**
   * The parameters and maps after the writes of the first n variables from s0:
   * a write to an element of a varied class replaces its parameter and rebuilds
   * its map from the new parameters; a write to any other element changes nothing.
   */
  function AssignAll(lib: Lib, ph: Physics, s0: Writes, vars: seq<Variable>, x: seq<real>, n: nat,
                     varyBendAngle: bool): (s: Writes)
    requires n <= |vars| == |x|
    ensures s.data.Keys == s0.data.Keys
  {
    if n == 0 then s0
    else
      var prev := AssignAll(lib, ph, s0, vars, x, n - 1, varyBendAngle);
      if vars[n - 1].ElementVar? && vars[n - 1].elem in prev.data && Varied(prev.data[vars[n - 1].elem].kind) then
        var e := vars[n - 1].elem;
        var d := Written(prev.data[e], x[n - 1], varyBendAngle);
        Writes(prev.data[e := d], prev.maps[e := ElementMapOf(lib, ph, d)])
      else prev
  }

  /** The elements hold the parameters and the maps s gives them. */
  ghost predicate Holds(s: Writes)
    reads s.data.Keys
  {
    && (forall e | e in s.data :: e.data == s.data[e])
    && (forall e | e in s.data :: e in s.maps && e.transferMap == s.maps[e])
  }

  /** The initial Twiss after the writes of the first n variables. */
  function SetsTo(tw: Twiss, vars: seq<Variable>, x: seq<real>, n: nat): Twiss
    requires n <= |vars| == |x|
  {
    if n == 0 then tw
    else
      var prev := SetsTo(tw, vars, x, n - 1);
      if vars[n - 1].TwissVar? then Set(prev, vars[n - 1].field, x[n - 1]) else prev
  }

  /**
   * Writes the i-th trial value into its element, of a varied class, and
   * rebuilds the element's map from the new parameters.
   */
  method WriteVariable(lib: Lib, ph: Physics, vars: seq<Variable>, x: seq<real>, i: nat, varyBendAngle: bool,
                       ghost s0: Writes)
    requires i < |vars| == |x| && vars[i].ElementVar? && Varied(vars[i].elem.data.kind)
    requires s0.data.Keys == VarElements(vars)
    requires Holds(AssignAll(lib, ph, s0, vars, x, i, varyBendAngle))
    modifies vars[i].elem
    ensures Holds(AssignAll(lib, ph, s0, vars, x, i + 1, varyBendAngle))
  {
    ghost var s := AssignAll(lib, ph, s0, vars, x, i, varyBendAngle);
    var e := vars[i].elem;
    assert e in VarElements(vars);
    WriteElement(lib, ph, e, x[i], varyBendAngle);
    AssignAllStep(lib, ph, s0, vars, x, i, varyBendAngle);
    HoldsAfterWrite(s, e, e.data, e.transferMap);
  }

  /** Writes one trial value into an element of a varied class and rebuilds its map. */
  method WriteElement(lib: Lib, ph: Physics, e: Element, xi: real, varyBendAngle: bool)
    requires Varied(e.data.kind)
    modifies e
    ensures e.data == Written(old(e.data), xi, varyBendAngle)
    ensures e.transferMap == ElementMapOf(lib, ph, e.data)
  {
    e.data := Written(e.data, xi, varyBendAngle);
    var m := CreateTransferMap(lib, ph, e);
    e.transferMap := m;
  }

  /** The i-th write, to an element of a varied class, replaces its parameters and its map. */
  lemma AssignAllStep(lib: Lib, ph: Physics, s0: Writes, vars: seq<Variable>, x: seq<real>, i: nat, varyBendAngle: bool)
    requires i < |vars| == |x| && vars[i].ElementVar? && vars[i].elem in s0.data
    requires Varied(AssignAll(lib, ph, s0, vars, x, i, varyBendAngle).data[vars[i].elem].kind)
    ensures var prev := AssignAll(lib, ph, s0, vars, x, i, varyBendAngle);
            var e := vars[i].elem;
            var d := Written(prev.data[e], x[i], varyBendAngle);
            AssignAll(lib, ph, s0, vars, x, i + 1, varyBendAngle) == Writes(prev.data[e := d], prev.maps[e := ElementMapOf(lib, ph, d)])
  {
  }

  /** Once e holds the parameters d and the map m and every other element holds what s gives it, the updated s holds. */
  lemma HoldsAfterWrite(s: Writes, e: Element, d: ElementData, m: ElementMap)
    requires e in s.data
    requires forall o | o in s.data && o != e :: o.data == s.data[o]
    requires forall o | o in s.data && o != e :: o in s.maps && o.transferMap == s.maps[o]
    requires e.data == d && e.transferMap == m
    ensures Holds(Writes(s.data[e := d], s.maps[e := m]))
  {
  }

  /**
   * Writing every element variable's start value back, the values the matcher
   * starts from, leaves the parameters of the varied elements as they were.
   */
  lemma {:induction false} StartValuesKeepData(lib: Lib, ph: Physics, s0: Writes, vars: seq<Variable>, x: seq<real>,
                                              n: nat, varyBendAngle: bool)
    requires n <= |vars| == |x|
    requires forall i | 0 <= i < |vars| && vars[i].ElementVar? && vars[i].elem in s0.data ::
               x[i] == StartValue(s0.data[vars[i].elem], varyBendAngle)
    ensures AssignAll(lib, ph, s0, vars, x, n, varyBendAngle).data == s0.data
  {
    if n > 0 {
      StartValuesKeepData(lib, ph, s0, vars, x, n - 1, varyBendAngle);
      var prev := AssignAll(lib, ph, s0, vars, x, n - 1, varyBendAngle);
      if vars[n - 1].ElementVar? && vars[n - 1].elem in prev.data && Varied(prev.data[vars[n - 1].elem].kind) {
        var e := vars[n - 1].elem;
        StartValueWrittenBack(s0.data[e], varyBendAngle);
        assert prev.data[e := Written(prev.data[e], x[n - 1], varyBendAngle)] == s0.data;
      }
    }
  }

  /** The writes never change an element's class. */
  lemma {:induction false} AssignAllKeepsKinds(lib: Lib, ph: Physics, s0: Writes, vars: seq<Variable>, x: seq<real>,
                                               n: nat, varyBendAngle: bool, e: Element)
    requires n <= |vars| == |x|
    requires e in s0.data
    ensures AssignAll(lib, ph, s0, vars, x, n, varyBendAngle).data[e].kind == s0.data[e].kind
  {
    if n > 0 {
      AssignAllKeepsKinds(lib, ph, s0, vars, x, n - 1, varyBendAngle, e);
    }
  }
}
