/**
 * The loop of errf over the variables: the trial values written in order, up to
 * the first Drift with a negative trial length.
 */
module VariableWrites {
  import opened MathLib
  import opened Wrappers
  import opened Elements
  import opened MapFactory
  import opened TransferMaps
  import opened TwissOptics
  import opened TwissFields
  import opened MatchVariables

  /**
   * The first half of errf: writes each trial value into its variable, in
   * order, rebuilding the element's map after each write. A Drift with a
   * negative trial length stops it (None) before that variable or any later one
   * is written; the earlier writes stay. Otherwise it returns the initial Twiss
   * with the Twiss variables set. s0 is the parameters and maps of the varied
   * elements on entry.
   */
  method ApplyVariables(lib: Lib, ph: Physics, vars: seq<Variable>, x: seq<real>, tw: Twiss, varyBendAngle: bool,
                        ghost s0: Writes)
    returns (twLoc: Option<Twiss>)
    requires |x| == |vars|
    requires s0.data == DataOf(vars) && s0.maps == TransferMapsOf(vars)
    modifies VarElements(vars)
    ensures var stop := FirstNegativeDrift(s0.data, vars, x, 0);
            && Holds(AssignAll(lib, ph, s0, vars, x, stop, varyBendAngle))
            && (twLoc.None? <==> stop < |vars|)
            && (twLoc.Some? ==> twLoc.value == SetsTo(tw, vars, x, |vars|))
  {
    var cur := tw;
    var i := 0;
    while i < |vars|
      invariant 0 <= i <= |vars|
      invariant Applied(lib, ph, s0, vars, x, tw, varyBendAngle, i, cur)
    {
      var ok;
      ok, cur := ApplyVariable(lib, ph, vars, x, i, varyBendAngle, tw, cur, s0);
      if !ok {
        return None;
      }
      i := i + 1;
    }
    twLoc := Some(cur);
  }

  /**
   * The first i variables are written, none of them a Drift with a negative
   * trial length, and cur is the initial Twiss tw with those among them that are
   * Twiss fields set.
   */
  ghost predicate Applied(lib: Lib, ph: Physics, s0: Writes, vars: seq<Variable>, x: seq<real>, tw: Twiss,
                          varyBendAngle: bool, i: nat, cur: Twiss)
    requires i <= |vars| == |x|
    reads s0.data.Keys
  {
    && FirstNegativeDrift(s0.data, vars, x, 0) == FirstNegativeDrift(s0.data, vars, x, i)
    && Holds(AssignAll(lib, ph, s0, vars, x, i, varyBendAngle))
    && cur == SetsTo(tw, vars, x, i)
  }

  /**
   * One turn of the loop of errf over the variables: a Drift with a negative
   * trial length stops it (false) and changes nothing; otherwise the trial value
   * is written into the Twiss field or into the element, whose map is rebuilt.
   */
  method ApplyVariable(lib: Lib, ph: Physics, vars: seq<Variable>, x: seq<real>, i: nat, varyBendAngle: bool,
                       ghost tw: Twiss, cur: Twiss, ghost s0: Writes)
    returns (ok: bool, next: Twiss)
    requires i < |vars| == |x| && s0.data.Keys == VarElements(vars)
    requires Applied(lib, ph, s0, vars, x, tw, varyBendAngle, i, cur)
    modifies VarElements(vars)
    ensures ok == !NegativeDrift(s0.data, vars[i], x[i])
    ensures ok ==> Applied(lib, ph, s0, vars, x, tw, varyBendAngle, i + 1, next)
    ensures !ok ==> && FirstNegativeDrift(s0.data, vars, x, 0) == i
                    && Holds(AssignAll(lib, ph, s0, vars, x, i, varyBendAngle))
  {
    match vars[i] {
      case TwissVar(f) =>
        return true, Set(cur, f, x[i]);
      case ElementVar(e) =>
        ok := ApplyElementVariable(lib, ph, vars, x, i, varyBendAngle, tw, cur, s0);
        return ok, cur;
    }
  }

  /** The turn of the loop for a variable that is an element. */
  method ApplyElementVariable(lib: Lib, ph: Physics, vars: seq<Variable>, x: seq<real>, i: nat, varyBendAngle: bool,
                              ghost tw: Twiss, ghost cur: Twiss, ghost s0: Writes)
    returns (ok: bool)
    requires i < |vars| == |x| && vars[i].ElementVar? && s0.data.Keys == VarElements(vars)
    requires Applied(lib, ph, s0, vars, x, tw, varyBendAngle, i, cur)
    modifies VarElements(vars)
    ensures ok == !NegativeDrift(s0.data, vars[i], x[i])
    ensures ok ==> Applied(lib, ph, s0, vars, x, tw, varyBendAngle, i + 1, cur)
    ensures !ok ==> && FirstNegativeDrift(s0.data, vars, x, 0) == i
                    && Holds(AssignAll(lib, ph, s0, vars, x, i, varyBendAngle))
  {
    var e := vars[i].elem;
    assert e in VarElements(vars);
    assert e.data.kind == s0.data[e].kind by {
      AssignAllKeepsKinds(lib, ph, s0, vars, x, i, varyBendAngle, e);
    }
    if e.data.kind == Drift && x[i] < 0.0 {
      return false;
    }
    if Varied(e.data.kind) {
      WriteVariable(lib, ph, vars, x, i, varyBendAngle, s0);
    }
    return true;
  }
}
