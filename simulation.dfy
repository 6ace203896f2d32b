/**
 * The game state as a value, and what `reset` and `step` do to it. The
 * class `Game.HelicopterGame` is proved to follow these functions.
 */
module Simulation {
  import opened Config
  import opened Physics
  import opened Tunnel
  import opened Collision
  import opened Trail

  /** Everything `reset` and `step` read or write; `draws` counts the random draws used so far. */
  datatype GameState = GameState(
    gameOver: bool,
    action: int,
    tunnel: seq<Point>,
    posY: real,
    speedY: real,
    trail: seq<TrailPoint>,
    distance: int,
    frameIndex: int,
    explosionIndex: int,
    draws: nat)

  /** The two flat points the tunnel is rebuilt from. */
  const StartTunnel: seq<Point> := [Point(0, Height / 2), Point(Width / 2, Height / 2)]

  /** What holds between any two frames of a game. */
  ghost predicate Inv(s: GameState)
  {
    Window(s.tunnel) && -MaxSpeedY <= s.speedY <= MaxSpeedY && Aligned(s.trail)
  }

  /** The tunnel centre at the craft's x; the lookup never fails on a window. */
  function Center(t: seq<Point>): (c: real)
    requires Window(t)
    ensures CenterLow as real <= c <= CenterHigh as real
  {
    CenterFound(t);
    CenterAt(t, HeliX).value
  }

  /** A fresh game, using the draws from `n` on for its first tunnel update. */
  function ResetState(randint: Oracle, n: nat): (s: GameState)
    requires IsRandInt(randint)
    ensures Inv(s) && |s.tunnel| <= MaxWindowPoints
    // a running game, no thrust, the craft at rest mid-screen, no trail, all counters at zero
    ensures !s.gameOver && s.action == 0 && s.posY == Height as real / 2.0 && s.speedY == 0.0 && s.trail == []
    ensures s.distance == 0 && s.frameIndex == 0 && s.explosionIndex == 0
    // the start tunnel after one update, from draw `n` on
    ensures (s.tunnel, s.draws) == UpdateTunnel(StartTunnel, randint, n)
  {
    UpdateTunnelKeepsWindow(StartTunnel, randint, n);
    var (tunnel, next) := UpdateTunnel(StartTunnel, randint, n);
    WindowLength(tunnel);
    GameState(false, 0, tunnel, Height as real / 2.0, 0.0, [], 0, 0, 0, next)
  }

  /** One frame: nothing happens once the game is over. */
  function StepState(s: GameState, randint: Oracle): (s': GameState)
    requires Window(s.tunnel) && IsRandInt(randint)
    ensures Window(s'.tunnel)
    ensures s.gameOver ==> s' == s
    ensures s.draws <= s'.draws
  {
    if s.gameOver then s else RunningStep(s, randint)
  }

  /** One frame of a running game: count, physics, tunnel, collision, trail. */
  function RunningStep(s: GameState, randint: Oracle): (s': GameState)
    requires !s.gameOver && Window(s.tunnel) && IsRandInt(randint)
    ensures Window(s'.tunnel)
    // one more frame and one scroll step; the action is kept
    ensures s'.frameIndex == s.frameIndex + 1 && s'.distance == s.distance + SpeedX
    ensures s'.action == s.action && s'.explosionIndex == s.explosionIndex
    // thrust or gravity under the stored action, then the move by the new speed
    ensures s'.speedY == NextSpeed(s.action, s.speedY) && s'.posY == s.posY + s'.speedY
    // the tunnel scrolls, extends and prunes once, taking its draws in order
    ensures (s'.tunnel, s'.draws) == UpdateTunnel(s.tunnel, randint, s.draws)
    // the game ends exactly when the craft leaves the safe band
    ensures s'.gameOver <==> Collides(s'.posY, Center(s'.tunnel))
    ensures s'.trail == TrailAfter(s.trail, s'.posY)
  {
    var moved := Moved(s.(frameIndex := s.frameIndex + 1, distance := s.distance + SpeedX));
    UpdateTunnelKeepsWindow(moved.tunnel, randint, moved.draws);
    Trailed(Checked(Scrolled(moved, randint)))
  }

  /** A running frame is the four phases in the order the game runs them. */
  lemma RunningStepPhases(s: GameState, randint: Oracle)
    requires !s.gameOver && Window(s.tunnel) && IsRandInt(randint)
    ensures StepState(s, randint)
         == Trailed(Checked(Scrolled(Moved(s.(frameIndex := s.frameIndex + 1, distance := s.distance + SpeedX)), randint)))
  {
  }

  /** The speed update and the move (`__update_helicopter_pos`). */
  function Moved(s: GameState): GameState
  {
    var speed := NextSpeed(s.action, s.speedY);
    s.(speedY := speed, posY := s.posY + speed)
  }

  /** The tunnel update (`__update_tunnel`). */
  function Scrolled(s: GameState, randint: Oracle): GameState
    requires |s.tunnel| >= 2 && IsRandInt(randint)
  {
    var (tunnel, next) := UpdateTunnel(s.tunnel, randint, s.draws);
    s.(tunnel := tunnel, draws := next)
  }

  /** The collision check (`__check_collision`): it can only end the game. */
  function Checked(s: GameState): GameState
    requires Window(s.tunnel)
  {
    s.(gameOver := s.gameOver || Collides(s.posY, Center(s.tunnel)))
  }

  /** The trail update (`__update_trail`). */
  function Trailed(s: GameState): GameState
  {
    s.(trail := TrailAfter(s.trail, s.posY))
  }

  /** `step` keeps the invariant, so the centre assertion holds on every frame. */
  lemma StepKeepsInv(s: GameState, randint: Oracle)
    requires Inv(s) && IsRandInt(randint)
    ensures Inv(StepState(s, randint))
  {
    if !s.gameOver {
      var s' := RunningStep(s, randint);
      TrailAfterAligned(s.trail, s'.posY);
      assert Aligned(s'.trail);
    }
  }
}
