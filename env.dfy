/**
 * The reinforcement-learning wrapper around the game: an action in {0, 1}
 * per step, an observation vector of ten numbers, a reward of 1 per frame
 * survived, and termination when the game is over.
 */
module Env {
  import opened Config
  import opened Tunnel
  import opened Collision
  import opened Simulation
  import opened Game

  /** Tunnel points reported in an observation. */
  const MaxTunnelSteps: nat := 4
  /** Two numbers for the craft, two per reported tunnel point. */
  const ObsSize: nat := 2 + MaxTunnelSteps * 2

  /** The info dictionary returned with every observation. */
  datatype Info = Info(gameOver: bool)

  /** Entry `j` of the filler row pattern: x slots read 1.0, y slots 0.5. */
  function Filler(j: nat): real
  {
    if j % 2 == 0 then 1.0 else 0.5
  }

  /** Screen x in [-Width, 2 * Width] scaled into [0, 1]. */
  function ScaleX(x: int): real
  {
    (x + Width) as real / (Width * 3) as real
  }

  /** Screen y in [0, Height] scaled into [0, 1]. */
  function ScaleY(y: int): real
  {
    y as real / Height as real
  }

  /**
   * Entry `j` of the flattened tunnel block: point `j / 2`, its x for even
   * `j` and its y for odd `j`, or the filler when the tunnel is shorter.
   */
  function Slot(t: seq<Point>, j: nat): real
  {
    var k := j / 2;
    if k < |t| then (if j % 2 == 0 then ScaleX(t[k].x) else ScaleY(t[k].y))
    else Filler(j)
  }

  /** The craft's two numbers: height over screen height, speed mapped from [-max, max] to [0, 1]. */
  function PlayerObs(posY: real, speedY: real): (p: seq<real>)
    ensures |p| == 2
    ensures 0.0 <= p[0] <= 1.0 <==> 0.0 <= posY <= Height as real
    ensures 0.0 <= p[1] <= 1.0 <==> -MaxSpeedY <= speedY <= MaxSpeedY
  {
    [posY / Height as real, speedY / MaxSpeedY * 0.5 + 0.5]
  }

  /** The whole observation: the craft, then the first four tunnel points. */
  function Observation(posY: real, speedY: real, t: seq<Point>): (obs: seq<real>)
    ensures |obs| == ObsSize
    ensures obs[0] == PlayerObs(posY, speedY)[0] && obs[1] == PlayerObs(posY, speedY)[1]
    // then point k's scaled x and y at entries 2 + 2k and 3 + 2k, or the filler
    ensures forall i :: 2 <= i < ObsSize ==> obs[i] == Slot(t, i - 2)
  {
    PlayerObs(posY, speedY) + TunnelObs(t, 0)
  }

  /** Entries `j` to the end of the flattened tunnel block. */
  function TunnelObs(t: seq<Point>, j: nat): (r: seq<real>)
    requires j <= 2 * MaxTunnelSteps
    ensures |r| == 2 * MaxTunnelSteps - j
    ensures forall i :: 0 <= i < |r| ==> r[i] == Slot(t, j + i)
    decreases 2 * MaxTunnelSteps - j
  {
    if j == 2 * MaxTunnelSteps then [] else [Slot(t, j)] + TunnelObs(t, j + 1)
  }

  /** Every entry of a well-formed observation lies in the box [0, 1]. */
  predicate InBox(obs: seq<real>)
  {
    forall i :: 0 <= i < |obs| ==> 0.0 <= obs[i] <= 1.0
  }

  /**
   * A window always reaches at least four points: the second lies left of
   * x = 180 and the third left of the right edge.
   */
  lemma WindowFillsObservation(t: seq<Point>)
    requires Window(t)
    ensures |t| >= MaxTunnelSteps
  {
    assert Gap(t, 0) <= InitialSegment;
    if |t| >= 3 {
      assert Gap(t, 1) <= InitialSegment;
    }
  }

  /** The tunnel entries of any window lie in [0, 1]. */
  lemma TunnelSlotsInBox(t: seq<Point>, j: nat)
    requires Window(t) && j < 2 * MaxTunnelSteps
    ensures 0.0 <= Slot(t, j) <= 1.0
  {
    var k := j / 2;
    if k < |t| {
      if k == 0 {
        assert Gap(t, 0) <= InitialSegment;
      } else {
        ChainSpread(t, 1, k);
      }
      assert -Width <= t[k].x <= 2 * Width;
    }
  }

  /** The whole tunnel block of a window's observation lies in [0, 1]. */
  lemma TunnelObsInBox(t: seq<Point>)
    requires Window(t)
    ensures forall j :: 0 <= j < 2 * MaxTunnelSteps ==> 0.0 <= Slot(t, j) <= 1.0
  {
    forall j | 0 <= j < 2 * MaxTunnelSteps
      ensures 0.0 <= Slot(t, j) <= 1.0
    {
      TunnelSlotsInBox(t, j);
    }
  }

  /**
   * Inside the frame invariant, the observation lies in the declared box
   * exactly when the craft is on screen: the speed, the tunnel x and the
   * tunnel y always fit.
   */
  lemma ObservationInBox(s: GameState)
    requires Inv(s)
    ensures InBox(Observation(s.posY, s.speedY, s.tunnel)) <==> 0.0 <= s.posY <= Height as real
  {
    var obs := Observation(s.posY, s.speedY, s.tunnel);
    var p := PlayerObs(s.posY, s.speedY);
    if 0.0 <= s.posY <= Height as real {
      assert 0.0 <= obs[0] <= 1.0 && 0.0 <= obs[1] <= 1.0;
      TunnelObsInBox(s.tunnel);
      forall i | 2 <= i < |obs|
        ensures 0.0 <= obs[i] <= 1.0
      {
        assert obs[i] == Slot(s.tunnel, i - 2);
      }
      assert InBox(obs);
    } else {
      assert !(0.0 <= obs[0] <= 1.0);
      assert !InBox(obs);
    }
  }

  /** A running game never leaves the screen, so its observation is in the box. */
  lemma RunningObservationInBox(s: GameState)
    requires Inv(s) && !Collides(s.posY, Center(s.tunnel))
    ensures InBox(Observation(s.posY, s.speedY, s.tunnel))
  {
    ObservationInBox(s);
  }

  class HelicopterEnv {
    const game: HelicopterGame

    ghost predicate Valid()
      reads this, game
    {
      game.Valid()
    }

    /** Builds the game (which resets itself) and resets once more. */
    constructor (randint: Oracle)
      requires IsRandInt(randint)
      ensures Valid() && game.randint == randint
      ensures game.State() == ResetState(randint, ResetState(randint, 0).draws)
    {
      game := new HelicopterGame(randint);
      new;
      var obs, info := Reset();
    }

    /** Resets the game and reports the first observation. */
    method Reset() returns (obs: seq<real>, info: Info)
      requires IsRandInt(game.randint)
      modifies game
      ensures Valid() && game.State() == ResetState(game.randint, old(game.draws))
      ensures obs == Observation(game.posY, game.speedY, game.tunnel) && InBox(obs)
      ensures info == Info(game.gameOver)
    {
      game.Reset();
      ResetIsOnScreen(game.randint, old(game.draws));
      obs := GetObs();
      info := GetInfo();
    }

    /**
     * Applies the action for one frame; the reward is 1 while the game
     * runs and 0 once it is over, and the episode never truncates.
     */
    method Step(action: int) returns (obs: seq<real>, reward: real, terminated: bool, truncated: bool, info: Info)
      requires Valid() && (action == 0 || action == 1)
      modifies game
      ensures Valid()
      ensures game.State() == StepState(old(game.State()).(action := action), game.randint)
      ensures obs == Observation(game.posY, game.speedY, game.tunnel)
      ensures terminated == game.gameOver && !truncated && info == Info(terminated)
      ensures reward == (if terminated then 0.0 else 1.0)
      ensures !terminated ==> InBox(obs)
    {
      game.action := action;
      game.Step();
      obs := GetObs();
      reward := if game.gameOver then 0.0 else 1.0;
      terminated := game.gameOver;
      truncated := false;
      info := GetInfo();
      if !terminated {
        StepStaysOnScreen(old(game.State()).(action := action), game.randint);
        ObservationInBox(game.State());
      }
    }

    method GetInfo() returns (info: Info)
      ensures info == Info(game.gameOver)
    {
      info := Info(game.gameOver);
    }

    /**
     * Fills the tunnel block with the filler pattern, overwrites one row per
     * tunnel point (at most four), and puts the craft's two numbers first.
     */
    method GetObs() returns (obs: seq<real>)
      ensures obs == Observation(game.posY, game.speedY, game.tunnel)
    {
      var player := [game.posY / Height as real, game.speedY / MaxSpeedY * 0.5 + 0.5];
      var block := new real[2 * MaxTunnelSteps];
      for k := 0 to MaxTunnelSteps
        invariant forall j :: 0 <= j < 2 * k ==> block[j] == Filler(j)
      {
        block[2 * k] := 1.0;
        block[2 * k + 1] := 0.5;
      }
      var rows := if |game.tunnel| < MaxTunnelSteps then |game.tunnel| else MaxTunnelSteps;
      for k := 0 to rows
        invariant forall j :: 0 <= j < 2 * k ==> block[j] == Slot(game.tunnel, j)
        invariant forall j :: 2 * k <= j < 2 * MaxTunnelSteps ==> block[j] == Filler(j)
      {
        var p := game.tunnel[k];
        block[2 * k] := (p.x + Width) as real / (Width * 3) as real;
        block[2 * k + 1] := p.y as real / Height as real;
      }
      assert forall j :: 0 <= j < 2 * MaxTunnelSteps ==> block[j] == Slot(game.tunnel, j);
      obs := player + block[..];
      assert obs == Observation(game.posY, game.speedY, game.tunnel);
    }
  }

  /** A fresh game has the craft mid-screen and the speed at rest. */
  lemma ResetIsOnScreen(randint: Oracle, n: nat)
    requires IsRandInt(randint)
    ensures var s := ResetState(randint, n); InBox(Observation(s.posY, s.speedY, s.tunnel))
  {
    ObservationInBox(ResetState(randint, n));
  }

  /** After a frame that does not end the game, the craft is on screen. */
  lemma StepStaysOnScreen(s: GameState, randint: Oracle)
    requires Inv(s) && IsRandInt(randint)
    ensures var s' := StepState(s, randint); !s'.gameOver ==> 0.0 <= s'.posY <= Height as real
  {
  }
}
