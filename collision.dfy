/** The termination rule: leaving the screen, or touching the tunnel walls. */
module Collision {
  import opened Config

  /** Strictly above the top or strictly below the bottom of the screen. */
  predicate OutOfScreen(posY: real)
  {
    posY < 0.0 || posY > Height as real
  }

  /**
   * Whether a craft at `posY` ends the game, given the tunnel centre at its
   * x. The top edge of the craft is taken half the craft's WIDTH above its
   * centre, the bottom edge half its height below, so the craft survives
   * exactly in the band from `center - 34` to `center + 42`.
   */
  function Collides(posY: real, center: real): (over: bool)
    ensures !over <==> 0.0 <= posY <= Height as real && center - 34.0 <= posY <= center + 42.0
    ensures OutOfScreen(posY) ==> over
  {
    var top := posY - HeliWidth as real * 0.5;
    var bottom := posY + HeliHeight as real * 0.5;
    if OutOfScreen(posY) then true
    else
      var tunnelTop := center - TunnelHeight as real * 0.5;
      var tunnelBottom := center + TunnelHeight as real * 0.5;
      top < tunnelTop || bottom > tunnelBottom
  }

  /** The screen edges themselves are not out of screen; anything past them is. */
  lemma ScreenBoundary(eps: real)
    requires eps > 0.0
    ensures !OutOfScreen(0.0) && !OutOfScreen(Height as real)
    ensures OutOfScreen(-eps) && OutOfScreen(Height as real + eps)
  {
  }
}
