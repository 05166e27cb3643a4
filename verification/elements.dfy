/**
 * Lattice elements as the optics, matching and chromaticity code see them.
 *
 * An element is an object: the matcher and the chromaticity compensation write
 * its strengths and its transfer map in place, and the same object may be shared
 * by several places in a lattice. Its parameters are kept together in one value
 * (`ElementData`) that the object holds.
 */
module Elements {
  import opened LinAlg
  import opened Wrappers
  import opened TransferMaps

  /** The element classes the map factory distinguishes. */
  datatype Kind =
    | Quadrupole | SBend | RBend | Bend | Drift | Monitor | Marker | Edge
    | Sextupole | Octupole | Undulator | Hcor | Vcor | Cavity | Solenoid
    | MatrixElement | Multipole | UnknownElement

  predicate IsBend(k: Kind) {
    k == SBend || k == RBend || k == Bend
  }

  /** The 4x4 transverse block rm11..rm44 of a Matrix element. */
  type Block4 = m: Matrix | IsMatrix(m, 4, 4)
    witness [[0.0, 0.0, 0.0, 0.0], [0.0, 0.0, 0.0, 0.0], [0.0, 0.0, 0.0, 0.0], [0.0, 0.0, 0.0, 0.0]]

  /** The parameters of an element, as read by the map factory and the optics tools. */
  datatype ElementData = ElementData(
    kind: Kind,
    id: string,
    l: real,
    angle: real,
    k1: real,
    k2: real,
    k3: real,
    /** Integrated sextupole strength, used for zero-length sextupoles. */
    ms: real,
    /** Integrated octupole strength; None until the map factory defaults it. */
    moct: Option<real>,
    tilt: real,
    dtilt: real,
    dx: real,
    dy: real,
    /** Multipole coefficients kn and multipole order n. */
    kn: seq<real>,
    n: int,
    /** Cavity voltage, frequency, phase and nominal energy gain. */
    v: real,
    freq: real,
    phi: real,
    deltaE: real,
    /** Solenoid strength. */
    ksol: real,
    /** Matrix element transverse block. */
    rm: Block4,
    /** Undulator period, deflection parameters and solver choice. */
    lperiod: real,
    kx: real,
    ky: real,
    ax: real,
    symplecticSolver: bool,
    /** Edge: true at the entrance of the bend (pos == 1). */
    entranceEdge: bool)

  /** A lattice element: its parameters and the transfer map built from them. */
  class Element {
    var data: ElementData
    var transferMap: ElementMap

    constructor (data: ElementData, transferMap: ElementMap)
      ensures this.data == data && this.transferMap == transferMap
    {
      this.data := data;
      this.transferMap := transferMap;
    }
  }
}
