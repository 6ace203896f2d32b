# Helicopter game — a verified model

The helicopter game is a side-scroller. A craft sits at a fixed x, a quarter of
the way into a 360 × 240 screen. Each frame, the player either thrusts (action 1)
or lets gravity act (action 0). The tunnel is a centre line of control points.
It scrolls left by 4 pixels per frame and is extended with random segments at
the right edge. The game ends when the craft leaves the screen, or leaves the
100-pixel corridor around the interpolated centre line.

The reinforcement-learning environment wraps the game:

- an action in {0, 1} per step;
- an observation of ten numbers: the craft's height and speed, then the first
  four tunnel points, each scaled into [0, 1];
- a reward of 1 for every frame survived;
- termination when the game is over.

A video helper pads every recorded frame with black pixels so that both of its
sides are multiples of 16.

The project is organised as follows.

- `config.dfy`: the game's tuning constants. It also holds the random source,
  an oracle that gives the result of the `index`-th call `randint(lo, hi)`.
  Every result is only known to lie in [lo, hi].
- `physics.dfy`: the thrust, gravity and speed-clamp rule.
- `collision.dfy`: the rule that ends the game.
- `tunnel.dfy`: scrolling, extending and pruning the centre line, and the
  lookup of the centre at the craft's x. It also defines the *window* invariant
  that every tunnel satisfies between frames.
- `trail.dfy`: the trail of past positions.
- `simulation.dfy`: the whole game state as a value, and `reset` and `step` as
  functions on it.
- `game.dfy`: the game object. Its fields are updated in place by loop
  methods. Each method is proved to follow the functions of `simulation.dfy`.
- `env.dfy`: the environment object, with observations, rewards and termination.
- `record_video.dfy`: the frame padding.

Facts the proofs establish beyond the source's own checks:

- The centre lookup in the collision check can never fail.
- A window always holds between 4 and 7 points, so the filler entries of an
  observation never show up in practice.
- The top edge of the craft is computed with half its *width* (16), not half its
  height (8). So the craft survives exactly while its centre lies between
  `centre - 34` and `centre + 42`. The model keeps this as written.
- The observation of a running game always lies in the declared [0, 1] box.
  The terminal observation may lie outside it: the craft can be off screen.

## Model

| member | source | states |
|---|---|---|
| Physics.Clamp | helicopter_game.py:416-419 | the speed is limited to [-10, 10] and left unchanged inside that range |
| Physics.NextSpeed | helicopter_game.py:408-419 | the new speed for every action and speed: thrust gives exactly -0.3 when the craft was falling, the old speed minus 0.3 otherwise, and -10 once that would pass -10; without thrust the speed grows by exactly 0.5, and is 10 (or -10) once that would leave the range |
| Physics.FreeFallSpeed | helicopter_game.py:408-420 | falling from rest, the speed after k frames is 0.5·k up to frame 20 and 10 from then on |
| Collision.Collides | helicopter_game.py:226-235 | the game ends exactly when the craft is off screen or its centre leaves the band from centre-34 to centre+42; off screen always ends it |
| Collision.ScreenBoundary | helicopter_game.py:229-231 | y = 0 and y = 240 are on screen, anything strictly beyond them is not |
| Tunnel.NewPoint | helicopter_game.py:426-436 | an appended point lies 80 to 120 to the right of the last point, with its centre within 70 of mid-screen |
| Tunnel.Shift | helicopter_game.py:423-424 | definition: every point moved left by the same amount, its centre kept (its loop is Game.HelicopterGame.ShiftTunnel) |
| Tunnel.Extend | helicopter_game.py:426-436 | definition: append NewPoint while the last point is short of x = 360; what it guarantees is Tunnel.ExtendSpec |
| Tunnel.ExtendSpec | helicopter_game.py:426-436 | extending keeps the old points as a prefix and reaches x >= 360; it appends only while the last point is short of 360; every new segment is 80 to 120 long and every new centre is in [50, 190]; exactly two draws are used per new point |
| Tunnel.Prune | helicopter_game.py:437-438 | definition: drop the first point while the second lies left of x = 0; what it guarantees is Tunnel.PruneSpec |
| Tunnel.PruneSpec | helicopter_game.py:437-438 | pruning keeps a suffix of at least two points whose second point is on screen; it drops exactly the leading points whose successor lies left of x = 0 |
| Tunnel.UpdateTunnel | helicopter_game.py:422-438 | scroll, extend, prune in that order; the draw counter never goes backwards (its shape is Tunnel.UpdateTunnelShape) |
| Tunnel.UpdateTunnelShape | helicopter_game.py:422-438 | the result is a suffix of the scrolled tunnel followed by the appended points: every old point that survives has moved left by exactly 4 with its centre kept, and two draws are used per appended point |
| Tunnel.UpdateTunnelKeepsWindow | helicopter_game.py:422-438 | from the start tunnel or any window, an update yields a window: a chain with gaps of 80 to 180, centres in [50, 190], t[0].x < 0 <= t[1].x and last x >= 360 |
| Tunnel.ShiftKeepsChain | helicopter_game.py:423-424 | scrolling every point left by the same amount keeps all gaps |
| Tunnel.ExtendKeepsChain | helicopter_game.py:426-436 | extending a chain keeps its gaps in [80, 180] and its centres in band, and no point lies past 480 |
| Tunnel.PruneKeepsChain | helicopter_game.py:437-438 | pruning a chain leaves a chain with the same last point |
| Tunnel.ChainSpread | helicopter_game.py:426-436 | along a chain, x grows by at least 80 per point |
| Tunnel.WindowLength | helicopter_game.py:422-438 | a window never holds more than 7 points, whatever the draws |
| Tunnel.FindSegment | helicopter_game.py:218-222 | the lookup returns the first segment whose x range contains the craft's x; no earlier segment contains it, and none at all does when it fails |
| Tunnel.Interpolate | helicopter_game.py:222-223 | the interpolated centre lies between the two end points' centres and equals them at the ends |
| Tunnel.CenterAt | helicopter_game.py:217-225 | a found centre lies on a segment that covers x, between that segment's centres; a missing centre means no segment covers x |
| Tunnel.SegmentExists | helicopter_game.py:218-225 | when x lies between a point and the last point, the lookup from that point succeeds |
| Tunnel.CenterFound | helicopter_game.py:225 | on every window the points increase in x, the lookup at the craft's x succeeds (the assertion never fails), and the centre lies in [50, 190] |
| Trail.ShiftTrail | helicopter_game.py:441-442 | definition: every trail point moved left by the same amount, its y kept |
| Trail.Visible | helicopter_game.py:444 | the filter keeps only points with x >= 0 and never lengthens the trail |
| Trail.VisibleFilters | helicopter_game.py:444 | every point with x >= 0 is kept as often as it occurs, and no other point is kept |
| Trail.VisibleConcat | helicopter_game.py:444 | the filter works point by point and keeps the order: filtering a concatenation concatenates the filtered parts |
| Trail.VisibleSingle | helicopter_game.py:444 | a single point is kept exactly when its x is at least 0 |
| Trail.TrailAfter | helicopter_game.py:440-444 | definition: shift the trail, put the craft's position in front, filter; what it guarantees is Trail.TrailAfterAligned |
| Trail.VisibleKeepsAll | helicopter_game.py:444 | a trail with nothing off screen is kept unchanged |
| Trail.VisibleAligned | helicopter_game.py:444 | on an evenly spaced trail, the filter keeps exactly the first 23 points |
| Trail.TrailAfterAligned | helicopter_game.py:440-444 | after an update, the newest point is the craft's, each older point keeps its y one step further left, and the trail is capped at 23 points |
| Simulation.Center | helicopter_game.py:216-225 | the centre at the craft's x lies in [50, 190] on every window |
| Simulation.ResetState | helicopter_game.py:167-183 | a reset game is running, with action 0, the craft at rest at y = 120, no trail and all counters at zero; its tunnel is the two start points after one update from the given draw on; it satisfies the frame invariant, with at most 7 tunnel points |
| Simulation.StepState | helicopter_game.py:200-214 | a finished game is left exactly as it is; a frame keeps the tunnel a window and never gives back draws |
| Simulation.RunningStep | helicopter_game.py:203-214 | a running frame adds 1 to the frame count and 4 to the distance and keeps the action; the speed becomes NextSpeed of the old one and the craft moves by it; the tunnel and draw counter become one tunnel update of the old ones; the game ends exactly when the new position collides with the new tunnel; the trail is updated with the new position |
| Simulation.Moved | helicopter_game.py:408-420 | definition: the speed update followed by the move |
| Simulation.Scrolled | helicopter_game.py:422-438 | definition: the tunnel update, which also advances the draw counter |
| Simulation.Checked | helicopter_game.py:216-235 | definition: the game becomes over when the craft collides, and is never revived |
| Simulation.Trailed | helicopter_game.py:440-444 | definition: the trail update with the current position |
| Simulation.StepKeepsInv | helicopter_game.py:200-214 | every frame keeps the invariant: a window tunnel, speed within ±10 and an evenly spaced trail |
| Game.HelicopterGame.constructor | helicopter_game.py:79-141 | a new game is in exactly the reset state, using the first draws |
| Game.HelicopterGame.Reset | helicopter_game.py:167-183 | the fields become exactly the reset state, built from the next unused draws |
| Game.HelicopterGame.Step | helicopter_game.py:200-214 | the fields after a call are exactly the step function of the fields before, and the invariant is kept |
| Game.HelicopterGame.UpdateHelicopterPos | helicopter_game.py:408-420 | the speed becomes the next speed for the current action, and the position moves by it |
| Game.HelicopterGame.UpdateTunnel | helicopter_game.py:422-438 | the tunnel and the draw counter become the pure tunnel update of their old values |
| Game.HelicopterGame.ShiftTunnel | helicopter_game.py:423-424 | every point has moved left by 4 and nothing else changed |
| Game.HelicopterGame.ExtendTunnel | helicopter_game.py:426-436 | the loop appends exactly the points of the pure extension and leaves the last point at x >= 360 |
| Game.HelicopterGame.PruneTunnel | helicopter_game.py:437-438 | the loop removes exactly the points the pure pruning removes |
| Game.HelicopterGame.CheckCollision | helicopter_game.py:216-235 | the game is over afterwards exactly when it was over before or the craft collides at the looked-up centre |
| Game.HelicopterGame.UpdateTrail | helicopter_game.py:440-444 | the trail becomes the shifted trail with the craft's position in front, with off-screen points dropped |
| Env.PlayerObs | helicopter_env.py:64-71 | the height entry lies in [0, 1] exactly when the craft is on screen, and the speed entry exactly when the speed is within ±10 |
| Env.Observation | helicopter_env.py:63-79 | an observation has 10 entries: the craft's two numbers, then entry 2 + j is tunnel slot j |
| Env.Slot | helicopter_env.py:73-78 | definition: tunnel slot j is point j/2's x mapped from [-360, 720] or its y mapped from [0, 240], or the filler 1.0 / 0.5 past the tunnel's end |
| Env.TunnelObs | helicopter_env.py:73-78 | entry j of the tunnel block is point j/2's scaled x or y, or the filler 1.0 / 0.5 when the tunnel is shorter |
| Env.WindowFillsObservation | helicopter_env.py:73-78 | a window has at least four points, so all four tunnel rows come from real points |
| Env.TunnelSlotsInBox | helicopter_env.py:73-78 | every tunnel entry of a window's observation lies in [0, 1] |
| Env.ObservationInBox | helicopter_env.py:18-23 | between frames, the observation lies in the declared [0, 1] box exactly when the craft is on screen |
| Env.RunningObservationInBox | helicopter_env.py:18-23 | a craft that does not collide yields an observation inside the box |
| Env.ResetIsOnScreen | helicopter_env.py:26-31 | the observation after a reset lies inside the box |
| Env.StepStaysOnScreen | helicopter_env.py:33-43 | after a frame that does not end the game, the craft is on screen |
| Env.HelicopterEnv.constructor | helicopter_env.py:13-24 | a new environment holds a game reset twice: once by the game, once by the environment |
| Env.HelicopterEnv.Reset | helicopter_env.py:26-31 | the game is reset, and the returned observation describes it and lies in the box; the info reports it is not over |
| Env.HelicopterEnv.Step | helicopter_env.py:33-43 | the game advances by one frame under the given action; terminated equals game over and is also reported in the info; truncated is always false; the reward is 1 exactly when the game still runs; a running game's observation lies in the box |
| Env.HelicopterEnv.GetInfo | helicopter_env.py:60-61 | the info reports whether the game is over |
| Env.HelicopterEnv.GetObs | helicopter_env.py:63-79 | the array filled row by row equals the observation of the current craft and tunnel |
| RecordVideo.PadAmount | record_video.py:14-15 | the padding is below 16, makes the size a multiple of 16, and is zero exactly when the size already is one |
| RecordVideo.PadFrameTo16 | record_video.py:7-27 | the result is well formed, with both sides the next multiples of 16 and the channel count unchanged; original pixels stay in place and every added pixel is black; an aligned frame is returned unchanged |
| RecordVideo.CropUndoesPad | record_video.py:21-26 | cropping the padded frame back to its original size gives the original frame |
| RecordVideo.PadIdempotent | record_video.py:17-18 | padding an already padded frame changes nothing |

## Left out

- Drawing, sprites, fonts, the jagged wall outline (`_get_jagged_boundary`), the
  explosion animation and the event loop (`run`, `__handle_events`, `draw`) are
  not modelled. They only read the state that is modelled here, except for the
  explosion frame counter, which only drawing advances.
- `render` of the environment and the gymnasium/numpy machinery (spaces,
  seeding through `super().reset`) are not modelled.
- The Python random generator is not modelled. It is an oracle: the game keeps
  a count of the draws it has taken, and each draw is only known to lie in its
  inclusive range. Seeding is not modelled.
- Floating point is modelled as exact reals. The `float32` conversion of the
  observation is not modelled. Every tunnel coordinate the game produces is a
  whole number, so tunnel points use integers.
- Env.HelicopterEnv.Step: it requires the action to be 0 or 1, where the
  source's assertion would raise on any other action.
- Env.HelicopterEnv.Reset: the `seed` and `options` arguments are not
  modelled, because the game draws from the unseeded module-level generator.
- RecordVideo.PadFrameTo16: a frame is a nested sequence of integer channel
  values, not a numpy array with a dtype.
- The rest of `record_video.py` (recording with a trained policy), and the
  training, evaluation and benchmark scripts, are not modelled. They drive the
  environment through I/O and a learned policy.
