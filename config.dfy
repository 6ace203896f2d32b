/**
 * The tuning constants of the helicopter game and the random source the
 * tunnel generator draws from.
 */
module Config {

  /** Render target size in pixels. */
  const Width: int := 360
  const Height: int := 240

  /** Downward acceleration per frame without thrust, upward acceleration with thrust. */
  const Gravity: real := 0.5
  const Thrust: real := 0.3

  /** The craft's bounding box. */
  const HeliWidth: int := 32
  const HeliHeight: int := 16

  /** Fixed horizontal position of the craft, a quarter of the way into the screen. */
  const HeliX: int := Width / 4

  /** Horizontal scrolling per frame, and the symmetric bound on vertical speed. */
  const SpeedX: int := 4
  const MaxSpeedY: real := 10.0

  /** Tunnel geometry: centre offset bound, segment length bounds, corridor height. */
  const CenterOffsetMax: int := 70
  const SegmentMin: int := 80
  const SegmentMax: int := 120
  const TunnelHeight: int := 100

  /** When thrusting while moving downward, the speed is first reset to zero. */
  const ResetSpeedOnThrust: bool := true

  /** The arguments of one call `random.randint(lo, hi)`: the `index`-th call the game makes. */
  datatype Draw = Draw(lo: int, hi: int, index: nat)

  /**
   * The random source: the result of every call the game could make.
   * Nothing is assumed about it except that each result lies in the
   * inclusive range [lo, hi].
   */
  type Oracle = imap<Draw, int>

  ghost predicate IsRandInt(randint: Oracle)
  {
    forall a: int, b: int, n: nat :: a <= b ==> Draw(a, b, n) in randint && a <= randint[Draw(a, b, n)] <= b
  }
}
