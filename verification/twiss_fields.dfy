/**
 * The numeric attributes of a Twiss as the matcher addresses them: by name, in
 * constraints, in the weight table and in Twiss variables.
 */
module TwissFields {
  import opened TwissOptics


  /** The numeric attributes of a Twiss that constraints and variables name. */
  datatype TwissField =
    | BetaX | AlphaX | GammaX | BetaY | AlphaY | GammaY | Mux | Muy
    | DispX | DispXp | DispY | DispYp | X | Xp | Y | Yp | Tau | P | EnergyDev | Energy | S

  /** The attribute's name, which is also its key in the weight table. */
  function FieldName(f: TwissField): string
  {
    match f
    case BetaX => "beta_x"
    case AlphaX => "alpha_x"
    case GammaX => "gamma_x"
    case BetaY => "beta_y"
    case AlphaY => "alpha_y"
    case GammaY => "gamma_y"
    case Mux => "mux"
    case Muy => "muy"
    case DispX => "Dx"
    case DispXp => "Dxp"
    case DispY => "Dy"
    case DispYp => "Dyp"
    case X => "x"
    case Xp => "xp"
    case Y => "y"
    case Yp => "yp"
    case Tau => "tau"
    case P => "p"
    case EnergyDev => "dE"
    case Energy => "E"
    case S => "s"
  }

  /** tws.__dict__[name] */
  function Get(t: Twiss, f: TwissField): real
  {
    match f
    case BetaX => t.betaX
    case AlphaX => t.alphaX
    case GammaX => t.gammaX
    case BetaY => t.betaY
    case AlphaY => t.alphaY
    case GammaY => t.gammaY
    case Mux => t.mux
    case Muy => t.muy
    case DispX => t.Dx
    case DispXp => t.Dxp
    case DispY => t.Dy
    case DispYp => t.Dyp
    case X => t.x
    case Xp => t.xp
    case Y => t.y
    case Yp => t.yp
    case Tau => t.tau
    case P => t.p
    case EnergyDev => t.dE
    case Energy => t.E
    case S => t.s
  }

  /** tws.__dict__[name] = v: the named field becomes v, every other one is copied. */
  function Set(t: Twiss, f: TwissField, v: real): Twiss
  {
    Twiss(
      if f == BetaX then v else t.betaX, if f == AlphaX then v else t.alphaX, if f == GammaX then v else t.gammaX,
      if f == BetaY then v else t.betaY, if f == AlphaY then v else t.alphaY, if f == GammaY then v else t.gammaY,
      if f == Mux then v else t.mux, if f == Muy then v else t.muy,
      if f == DispX then v else t.Dx, if f == DispXp then v else t.Dxp,
      if f == DispY then v else t.Dy, if f == DispYp then v else t.Dyp,
      if f == X then v else t.x, if f == Xp then v else t.xp, if f == Y then v else t.y, if f == Yp then v else t.yp,
      if f == Tau then v else t.tau, if f == P then v else t.p, if f == EnergyDev then v else t.dE,
      if f == Energy then v else t.E, if f == S then v else t.s,
      t.id)
  }

  /** Setting a field makes it v and leaves every other field, and the id, as they were. */
  lemma SetField(t: Twiss, f: TwissField, g: TwissField, v: real)
    ensures Get(Set(t, f, v), g) == (if g == f then v else Get(t, g))
    ensures Set(t, f, v).id == t.id
  {
    match f
    case BetaX =>
    case AlphaX =>
    case GammaX =>
    case BetaY =>
    case AlphaY =>
    case GammaY =>
    case Mux =>
    case Muy =>
    case DispX =>
    case DispXp =>
    case DispY =>
    case DispYp =>
    case X =>
    case Xp =>
    case Y =>
    case Yp =>
    case Tau =>
    case P =>
    case EnergyDev =>
    case Energy =>
    case S =>
  }

  /** Two Twiss values that agree on every named field and on the id are equal. */
  lemma FieldsDetermineTwiss(t: Twiss, u: Twiss)
    requires forall f :: Get(t, f) == Get(u, f)
    requires t.id == u.id
    ensures t == u
  {
    assert Get(t, BetaX) == Get(u, BetaX) && Get(t, AlphaX) == Get(u, AlphaX) && Get(t, GammaX) == Get(u, GammaX);
    assert Get(t, BetaY) == Get(u, BetaY) && Get(t, AlphaY) == Get(u, AlphaY) && Get(t, GammaY) == Get(u, GammaY);
    assert Get(t, Mux) == Get(u, Mux) && Get(t, Muy) == Get(u, Muy);
    assert Get(t, DispX) == Get(u, DispX) && Get(t, DispXp) == Get(u, DispXp);
    assert Get(t, DispY) == Get(u, DispY) && Get(t, DispYp) == Get(u, DispYp);
    assert Get(t, X) == Get(u, X) && Get(t, Xp) == Get(u, Xp) && Get(t, Y) == Get(u, Y) && Get(t, Yp) == Get(u, Yp);
    assert Get(t, Tau) == Get(u, Tau) && Get(t, P) == Get(u, P) && Get(t, EnergyDev) == Get(u, EnergyDev);
    assert Get(t, Energy) == Get(u, Energy) && Get(t, S) == Get(u, S);
  }
}
