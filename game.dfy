/**
 * The game object: its fields are updated in place, frame by frame, by
 * `Step`, and rebuilt by `Reset`. Every method is proved to follow the pure
 * description in module `Simulation`.
 */
module Game {
  import opened Config
  import opened Physics
  import opened Tunnel
  import opened Collision
  import opened Trail
  import opened Simulation

  class HelicopterGame {
    /** The random source and the number of draws taken from it so far. */
    const randint: Oracle
    var draws: nat

    var gameOver: bool
    var action: int
    var tunnel: seq<Point>
    var posY: real
    var speedY: real
    var trail: seq<TrailPoint>
    var distance: int
    var frameIndex: int
    var explosionIndex: int

    /** The fields as a value. */
    function State(): GameState
      reads this
    {
      GameState(gameOver, action, tunnel, posY, speedY, trail, distance, frameIndex, explosionIndex, draws)
    }

    ghost predicate Valid()
      reads this
    {
      IsRandInt(randint) && Inv(State())
    }

    constructor (randint: Oracle)
      requires IsRandInt(randint)
      ensures this.randint == randint
      ensures Valid() && State() == ResetState(randint, 0)
    {
      this.randint := randint;
      draws := 0;
      tunnel := StartTunnel;
      new;
      Reset();
    }

    /** Rebuilds the whole state; the new tunnel already uses fresh draws. */
    method Reset()
      requires IsRandInt(randint)
      modifies this
      ensures Valid() && State() == ResetState(randint, old(draws))
    {
      gameOver := false;
      action := 0;
      tunnel := StartTunnel;
      UpdateTunnel();
      posY := Height as real / 2.0;
      speedY := 0.0;
      trail := [];
      distance := 0;
      frameIndex := 0;
      explosionIndex := 0;
      assert State() == ResetState(randint, old(draws));
    }

    /** One frame; a finished game is left as it is. */
    method Step()
      requires Valid()
      modifies this
      ensures Valid() && State() == StepState(old(State()), randint)
    {
      if gameOver {
        return;
      }
      ghost var s0 := State();
      frameIndex := frameIndex + 1;
      distance := distance + SpeedX;
      ghost var s1 := State();
      assert s1 == s0.(frameIndex := s0.frameIndex + 1, distance := s0.distance + SpeedX);
      UpdateHelicopterPos();
      ghost var s2 := State();
      assert s2 == Moved(s1);
      UpdateTunnel();
      ghost var s3 := State();
      assert s3 == Scrolled(s2, randint);
      UpdateTunnelKeepsWindow(s2.tunnel, randint, s2.draws);
      CheckCollision();
      ghost var s4 := State();
      assert s4 == Checked(s3);
      UpdateTrail();
      assert State() == Trailed(s4);
      RunningStepPhases(s0, randint);
      StepKeepsInv(s0, randint);
    }

    /** Thrust or gravity, the speed clamp, then the move. */
    method UpdateHelicopterPos()
      modifies this`speedY, this`posY
      ensures speedY == NextSpeed(action, old(speedY))
      ensures posY == old(posY) + speedY
    {
      if action == 1 {
        if ResetSpeedOnThrust && speedY > 0.0 {
          speedY := 0.0;
        }
        speedY := speedY - Thrust;
      } else {
        speedY := speedY + Gravity;
      }
      speedY := if -MaxSpeedY < (if MaxSpeedY < speedY then MaxSpeedY else speedY)
                then (if MaxSpeedY < speedY then MaxSpeedY else speedY)
                else -MaxSpeedY;
      posY := posY + speedY;
    }

    /** Scroll every point, append while short of the right edge, drop from the front. */
    method UpdateTunnel()
      requires IsRandInt(randint) && |tunnel| >= 2
      modifies this`tunnel, this`draws
      ensures (tunnel, draws) == Tunnel.UpdateTunnel(old(tunnel), randint, old(draws))
    {
      ShiftTunnel();
      ExtendTunnel();
      PruneTunnel();
    }

    /** Moves every tunnel point left by the scroll speed. */
    method ShiftTunnel()
      modifies this`tunnel
      ensures tunnel == Shift(old(tunnel), SpeedX)
    {
      for i := 0 to |tunnel|
        invariant |tunnel| == |old(tunnel)|
        invariant forall k :: 0 <= k < i ==> tunnel[k] == Point(old(tunnel)[k].x - SpeedX, old(tunnel)[k].y)
        invariant forall k :: i <= k < |tunnel| ==> tunnel[k] == old(tunnel)[k]
      {
        tunnel := tunnel[i := Point(tunnel[i].x - SpeedX, tunnel[i].y)];
      }
    }

    /** Appends random points until the tunnel reaches the right edge. */
    method ExtendTunnel()
      requires IsRandInt(randint) && |tunnel| >= 2
      modifies this`tunnel, this`draws
      ensures (tunnel, draws) == Extend(old(tunnel), randint, old(draws))
      ensures |tunnel| >= 2 && Last(tunnel).x >= Width
    {
      while tunnel[|tunnel| - 1].x < Width
        invariant |tunnel| >= 2
        invariant Extend(tunnel, randint, draws) == Extend(old(tunnel), randint, old(draws))
        decreases Width - tunnel[|tunnel| - 1].x
      {
        var segment := randint[Draw(SegmentMin, SegmentMax, draws)];
        var offset := randint[Draw(-CenterOffsetMax, CenterOffsetMax, draws + 1)];
        assert Point(tunnel[|tunnel| - 1].x + segment, Height / 2 + offset) == NewPoint(Last(tunnel).x, randint, draws);
        tunnel := tunnel + [Point(tunnel[|tunnel| - 1].x + segment, Height / 2 + offset)];
        draws := draws + 2;
      }
    }

    /** Drops front points while the second one is already off screen. */
    method PruneTunnel()
      requires |tunnel| >= 2 && Last(tunnel).x >= Width
      modifies this`tunnel
      ensures tunnel == Prune(old(tunnel))
    {
      while tunnel[1].x < 0
        invariant |tunnel| >= 2 && Last(tunnel).x >= Width
        invariant Prune(tunnel) == Prune(old(tunnel))
        decreases |tunnel|
      {
        ghost var before := tunnel;
        tunnel := tunnel[1..];
        assert Last(tunnel) == Last(before) && Prune(before) == Prune(tunnel);
      }
    }

    /**
     * Looks up the tunnel centre at the craft's x (the lookup cannot fail on
     * a window), then ends the game if the craft is off screen or touches a
     * wall. The game is never revived here.
     */
    method CheckCollision()
      requires Window(tunnel)
      modifies this`gameOver
      ensures gameOver == (old(gameOver) || Collides(posY, Center(tunnel)))
    {
      CenterFound(tunnel);
      ghost var center := Center(tunnel);
      var centerY: Option<real> := None;
      for i := 0 to |tunnel| - 1
        invariant centerY.None?
        invariant FindSegment(tunnel, HeliX, i) == FindSegment(tunnel, HeliX, 0)
      {
        var left, right := tunnel[i], tunnel[i + 1];
        if left.x <= HeliX <= right.x {
          assert FindSegment(tunnel, HeliX, i) == Some(i) && 0 < Gap(tunnel, i);
          centerY := Some(Interpolate(left, right, HeliX));
          assert centerY == CenterAt(tunnel, HeliX);
          break;
        }
      }
      assert centerY.Some?;
      assert centerY.value == center;
      var top := posY - HeliWidth as real * 0.5;
      var bottom := posY + HeliHeight as real * 0.5;
      if posY < 0.0 || posY > Height as real {
        gameOver := true;
        return;
      }
      var tunnelTop := centerY.value - TunnelHeight as real * 0.5;
      var tunnelBottom := centerY.value + TunnelHeight as real * 0.5;
      if top < tunnelTop || bottom > tunnelBottom {
        gameOver := true;
      }
    }

    /** Shift old positions left, put the craft's at the front, keep those on screen. */
    method UpdateTrail()
      modifies this`trail
      ensures trail == TrailAfter(old(trail), posY)
    {
      for i := 0 to |trail|
        invariant |trail| == |old(trail)|
        invariant forall k :: 0 <= k < i ==> trail[k] == TrailPoint(old(trail)[k].x - SpeedX, old(trail)[k].y)
        invariant forall k :: i <= k < |trail| ==> trail[k] == old(trail)[k]
      {
        trail := trail[i := TrailPoint(trail[i].x - SpeedX, trail[i].y)];
      }
      assert trail == ShiftTrail(old(trail), SpeedX);
      trail := [TrailPoint(HeliX, posY)] + trail;
      var kept := [];
      for i := 0 to |trail|
        invariant kept == Visible(trail[..i])
      {
        assert trail[..i + 1][..i] == trail[..i];
        if trail[i].x >= 0 {
          kept := kept + [trail[i]];
        }
      }
      assert trail[..|trail|] == trail;
      trail := kept;
    }
  }
}
