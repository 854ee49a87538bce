/**
 * The event content the analyzer reads: reconstructed jets and packed
 * particle-flow candidates, reduced to the attributes the evaluator consumes.
 * Floating-point quantities are modelled as reals.
 */
module Objects {

  import opened Wrappers

  /** A reconstructed jet: only its kinematics are read. */
  datatype Jet = Jet(pt: real, eta: real, phi: real, mass: real)

  /**
   * A packed particle-flow candidate. `lostInnerHits` follows the framework's
   * encoding: negative when the first pixel-barrel hit is valid, zero when no
   * inner hit is missing, positive when inner hits are missing.
   */
  datatype Candidate = Candidate(
    pt: real,
    eta: real,
    phi: real,
    charge: int,
    hasTrackDetails: bool,
    lostInnerHits: int)

  /**
   * The cone test `deltaR(jet, candidate) <= 0.4`. The angular distance is
   * floating-point trigonometry with azimuthal wrap-around, so the model takes
   * it as an oracle over (jet, candidate) pairs.
   */
  type Cone = (Jet, Candidate) -> bool

  /** A collection handle as the framework hands it out: valid or not. */
  datatype Event = Event(jets: Option<seq<Jet>>, candidates: Option<seq<Candidate>>)

  function Abs(x: real): (r: real)
    ensures r >= 0.0 && (r == x || r == -x)
  {
    if x < 0.0 then -x else x
  }
}
