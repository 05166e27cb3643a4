/**
 * The transcendental functions and physical constants the optics use.
 *
 * They are not computed here: a `Lib` value carries them as plain functions,
 * and each property that relies on one of their laws (cos^2 + sin^2 = 1,
 * the range of arctan, ...) states that law as a precondition.
 */
module MathLib {

  /** A strictly positive physical constant. */
  type PosReal = r: real | r > 0.0 witness 1.0

  datatype Lib = Lib(
    cos: real -> real,
    sin: real -> real,
    sqrt: real -> real,
    arctan: real -> real,
    pi: real,
    /** Real part of cos(z * sqrt(k2)) for a focusing strength k2 of either sign. */
    focC: (real, real) -> real,
    /** Real part of sin(z * sqrt(k2)) / sqrt(k2), for k2 != 0. */
    focS: (real, real) -> real,
    /** Electron rest energy in GeV (m_e_GeV). */
    meGeV: PosReal,
    /** Speed of light in m/s (speed_of_light). */
    speedOfLight: PosReal)

  /** cos and sin are even and odd at `a`, and cos^2 + sin^2 = 1 there. */
  predicate RotationLawsAt(lib: Lib, a: real) {
    && lib.cos(-a) == lib.cos(a)
    && lib.sin(-a) == -lib.sin(a)
    && UnitCircle(lib.cos(a), lib.sin(a))
  }

  /** (c, s) lies on the unit circle. */
  predicate UnitCircle(c: real, s: real) {
    c * c + s * s == 1.0
  }

  /** pi is positive and arctan ranges in (-pi/2, pi/2). */
  ghost predicate ArctanLaws(lib: Lib) {
    && lib.pi > 0.0
    && forall t :: -lib.pi / 2.0 < lib.arctan(t) < lib.pi / 2.0
  }

  /** sqrt is the non-negative square root on non-negative arguments. */
  ghost predicate SqrtLaws(lib: Lib) {
    forall t :: t >= 0.0 ==> lib.sqrt(t) >= 0.0 && lib.sqrt(t) * lib.sqrt(t) == t
  }

  /** The focusing cosine is 1 for a vanishing strength (cos 0 = 1). */
  ghost predicate FocusingLaws(lib: Lib) {
    forall z :: lib.focC(z, 0.0) == 1.0
  }
}
