/**
 * Two-by-two linear systems, as the optics solve them with a matrix inverse:
 * the dispersion of a periodic cell and the strengths of two sextupole families.
 *
 * Division is total here: `Div(a, 0)` is 0 where floating point would give an
 * infinity or NaN (or numpy's inverse would raise on a singular matrix). Every
 * property below assumes a nonzero denominator.
 */
module Linear2 {

  /** a / b, and 0 when b is 0. */
  function Div(a: real, b: real): (r: real)
    ensures b != 0.0 ==> r * b == a
    ensures b == 0.0 ==> r == 0.0
  {
    if b == 0.0 then 0.0 else a / b
  }

  function Abs(x: real): (r: real)
    ensures r >= 0.0 && (r == x || r == -x)
  {
    if x < 0.0 then -x else x
  }

  /** The determinant of [[p, q], [r, t]]. */
  function Det2(p: real, q: real, r: real, t: real): real
  {
    p * t - q * r
  }

  /**
   * inv([[p, q], [r, t]]) . (u, v): the inverse is the adjugate divided by the
   * determinant.
   */
  function Solve2(p: real, q: real, r: real, t: real, u: real, v: real): (real, real)
  {
    var det := Det2(p, q, r, t);
    (Div(t * u - q * v, det), Div(p * v - r * u, det))
  }

  /** With a nonzero determinant, the result of Solve2 satisfies both equations. */
  lemma Solve2Solves(p: real, q: real, r: real, t: real, u: real, v: real)
    requires Det2(p, q, r, t) != 0.0
    ensures var (x, y) := Solve2(p, q, r, t, u, v);
            p * x + q * y == u && r * x + t * y == v
  {
    var det := Det2(p, q, r, t);
    var (x, y) := Solve2(p, q, r, t, u, v);
    assert x * det == t * u - q * v;
    assert y * det == p * v - r * u;
    assert (p * x + q * y) * det == u * det by {
      calc {
        (p * x + q * y) * det;
        p * (x * det) + q * (y * det);
        p * (t * u - q * v) + q * (p * v - r * u);
        u * det;
      }
    }
    assert (r * x + t * y) * det == v * det by {
      calc {
        (r * x + t * y) * det;
        r * (x * det) + t * (y * det);
        r * (t * u - q * v) + t * (p * v - r * u);
        v * det;
      }
    }
  }

  /** ... and it is the only solution. */
  lemma Solve2Unique(p: real, q: real, r: real, t: real, u: real, v: real, x: real, y: real)
    requires Det2(p, q, r, t) != 0.0
    requires p * x + q * y == u && r * x + t * y == v
    ensures Solve2(p, q, r, t, u, v) == (x, y)
  {
    var det := Det2(p, q, r, t);
    assert x * det == t * u - q * v by {
      calc {
        t * u - q * v;
        t * (p * x + q * y) - q * (r * x + t * y);
        x * det;
      }
    }
    assert y * det == p * v - r * u by {
      calc {
        p * v - r * u;
        p * (r * x + t * y) - r * (p * x + q * y);
        y * det;
      }
    }
    assert Div(t * u - q * v, det) == x;
    assert Div(p * v - r * u, det) == y;
  }

  /** Swapping the two unknowns (the columns) swaps the two components of the solution. */
  lemma Solve2SwapColumns(p: real, q: real, r: real, t: real, u: real, v: real)
    requires Det2(p, q, r, t) != 0.0
    ensures Solve2(q, p, t, r, u, v).0 == Solve2(p, q, r, t, u, v).1
    ensures Solve2(q, p, t, r, u, v).1 == Solve2(p, q, r, t, u, v).0
  {
    var (x, y) := Solve2(p, q, r, t, u, v);
    Solve2Solves(p, q, r, t, u, v);
    assert Det2(q, p, t, r) == -Det2(p, q, r, t);
    Solve2Unique(q, p, t, r, u, v, y, x);
  }
}
