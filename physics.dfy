/** Vertical physics of the craft: thrust or gravity, then a speed clamp. */
module Physics {
  import opened Config

  /** `max(-MaxSpeedY, min(MaxSpeedY, v))`. */
  function Clamp(v: real): (c: real)
    ensures -MaxSpeedY <= c <= MaxSpeedY
    ensures -MaxSpeedY <= v <= MaxSpeedY ==> c == v
    ensures MaxSpeedY < v ==> c == MaxSpeedY
    ensures v < -MaxSpeedY ==> c == -MaxSpeedY
  {
    var upper := if MaxSpeedY < v then MaxSpeedY else v;
    if upper < -MaxSpeedY then -MaxSpeedY else upper
  }

  /**
   * The vertical speed after one frame under `action` (1 is thrust, anything
   * else is no thrust).
   */
  function NextSpeed(action: int, speed: real): (v: real)
    ensures -MaxSpeedY <= v <= MaxSpeedY
    // thrust always leaves the craft moving upward
    ensures action == 1 ==> v <= -Thrust
    // a downward speed is caught: thrust then starts from rest
    ensures action == 1 && speed > 0.0 ==> v == -Thrust
    ensures action == 1 && -MaxSpeedY + Thrust <= speed <= 0.0 ==> v == speed - Thrust
    ensures action == 1 && speed < -MaxSpeedY + Thrust ==> v == -MaxSpeedY
    // gravity strictly speeds the craft downward until the clamp is reached
    ensures action != 1 && speed < MaxSpeedY ==> speed < v
    ensures action != 1 && -MaxSpeedY - Gravity <= speed <= MaxSpeedY - Gravity ==> v == speed + Gravity
    ensures action != 1 && MaxSpeedY - Gravity < speed ==> v == MaxSpeedY
    ensures action != 1 && speed < -MaxSpeedY - Gravity ==> v == -MaxSpeedY
  {
    var accelerated :=
      if action == 1 then
        (if ResetSpeedOnThrust && speed > 0.0 then 0.0 else speed) - Thrust
      else
        speed + Gravity;
    Clamp(accelerated)
  }

  /** The speed after `k` frames without thrust, starting at rest. */
  function FreeFall(k: nat): real
  {
    if k == 0 then 0.0 else NextSpeed(0, FreeFall(k - 1))
  }

  /**
   * Falling from rest, the speed grows by exactly `Gravity` per frame until
   * it reaches `MaxSpeedY` after 20 frames, and stays there.
   */
  lemma {:induction false} FreeFallSpeed(k: nat)
    ensures k <= 20 ==> FreeFall(k) == Gravity * k as real
    ensures k >= 20 ==> FreeFall(k) == MaxSpeedY
  {
    if k > 0 {
      FreeFallSpeed(k - 1);
    }
  }
}
