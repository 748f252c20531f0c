# fireworks.js in Dafny

This project models the simulation core of the fireworks page script
`fireworks.js`. It covers the firework projectile and the explosion particle
(their constructors and their per-frame `update`), the explosion factory
`createParticles`, and one call of the frame driver `loop` without its
drawing. A frame does the following, in order:

1. The global hue moves on.
2. The `fireworks` array is walked from the last index down. Each firework is
   updated; those that arrive explode into 100 particles and are spliced out.
3. The `particles` array is walked the same way. The particles created in
   step 2 are included. Those that have faded are spliced out.
4. The two spawn counters count up, wait at their period, or launch a
   firework.

The program changes state in place, and so does the model:

- `Firework`, `Particle` and the script's global state (`Show.Simulation`)
  are classes, and their methods update fields.
- The two arrays are `seq` fields, reassigned by `push` and `splice`.
- The two reverse walks are `while` loops with invariants.

`Firework` and `Particle` each have a `State()` snapshot. Each `Update`
method is proved against a pure step function: `Fireworks.Step` or
`Particles.Step`. The properties of
the script are proved as lemmas about those functions, and about the
sequence functions that describe the passes:

- `Keep` is what a reverse splice pass leaves.
- `Explosions` and `Origins` give where the new particles appear.
- `TimerStep` and `RunFrames` describe the counters.

Modules:

- `Geometry`: points, the trail shift `pop` + `unshift`, and `Host`, the
  functions the script takes from its environment.
- `Randomness`: `random(min, max)` over a given stream of samples in [0, 1).
- `Fireworks` and `Particles`: the two entity kinds.
- `Collections`: reverse splice passes over an array.
- `Timers`: the two spawn counters.
- `Show`: `createParticles` and the frame driver.

`Math.random()` is a stream `sample: nat -> real` whose values lie in [0, 1),
read one sample per call. `Math.PI`, `Math.cos`, `Math.sin`, `Math.atan2`
and `calculateDistance` are the uninterpreted fields of `Geometry.Host`.
The canvas size, the pointer position and the `mousedown` flag are
parameters of `Show.Simulation.Frame`.

A spawn counter below its period is incremented. A counter at its period
launches a firework and is reset when its launch condition holds. When the
condition is false (for `timerTick`, the pointer is held), the counter keeps
its value: it is neither reset nor incremented (fireworks.js:170-196).
`Timers.TimerStep` models this, so a counter can wait at its period.

## Model

| member | source | states |
|---|---|---|
| Geometry.Repeat | fireworks.js:42-46 | the trail a constructor builds has exactly `n` entries, each a copy of the spawn point |
| Geometry.Shift | fireworks.js:55-56 | `pop` then `unshift`: the length is kept, entry 0 is the pre-update position, entry `i > 0` is old entry `i - 1` |
| Randomness.Scale | fireworks.js:21-23 | a sample in [0, 1) scaled by `random(min, max)` lies in [min, max] and strictly below `max` when `min < max` |
| Randomness.RandomSource.Random | fireworks.js:21-23 | `random(min, max)` consumes exactly one sample, returns it scaled into [min, max), and advances the draw counter by one |
| Fireworks.Launch | fireworks.js:33-52 | a new firework sits at its launch point, with its target, the sampled brightness and a trail of three copies of the launch point. It has speed 2, acceleration 1.05, travelled distance 0 and marker radius 1. With brightness in [50, 70) it satisfies the firework invariant |
| Fireworks.Firework.constructor | fireworks.js:33-52 | the constructed object's fields are `Launch` of its arguments and one brightness sample in [50, 70); exactly one random draw |
| Fireworks.NextRadius | fireworks.js:58-62 | the sawtooth keeps the marker radius in [1, 8.3); it grows strictly while below 8 and resets to 1 otherwise |
| Fireworks.Step | fireworks.js:54-77 | one update preserves the firework invariant: trail of three, radius in [1, 8.3), acceleration 1.05, speed at least 2, brightness in range |
| Fireworks.StepMoves | fireworks.js:66-77 | the travelled distance is the distance from the launch point to the candidate position. On arrival the position is kept; otherwise it advances by the velocity `(vx, vy)`. Launch point, target, target distance and heading never change |
| Fireworks.StepShiftsAndAccelerates | fireworks.js:55-64 | each update shifts the trail by the pre-update position and multiplies the speed by the acceleration, which stays the same |
| Fireworks.StepShifts | fireworks.js:55-56 | after one update trail entry 0 is the old position and entry `j > 0` is old entry `j - 1`; the length is unchanged |
| Fireworks.StepNKeepsInv | fireworks.js:54-78 | any number of updates keeps the firework invariant (trail length 3, radius in [1, 8.3), speed at least 2) |
| Fireworks.AcceleratedIsPow | fireworks.js:64 | accelerating `k` times multiplies by 1.05^k and keeps a positive speed positive |
| Fireworks.SpeedAfter | fireworks.js:64 | after `k` updates the speed is the starting speed accelerated `k` times |
| Fireworks.LaunchSpeed | fireworks.js:48-64 | a launched firework moves at exactly 2·1.05^k after `k` updates, and every update makes it strictly faster |
| Fireworks.TrailAt | fireworks.js:42-56 | trail entry `j` after `k` updates is the position `j + 1` updates earlier, or the spawn point if fewer than `j + 1` updates were made |
| Fireworks.LaunchTrail | fireworks.js:42-56 | the same trail statement for a firework fresh from the constructor |
| Fireworks.PathGrows | fireworks.js:64-66 | for a positive starting speed, the path length after `k` updates (the sum of the accelerated speeds) is non-negative and grows strictly with every update |
| Fireworks.CandidateOnRay | fireworks.js:64-69 | the candidate position `(x + vx, y + vy)` is the accelerated speed along the firework's angle from its position |
| Fireworks.StepAlong | fireworks.js:64-77 | an update that does not arrive moves the firework to that point, and keeps its heading, launch point and target distance |
| Fireworks.FliesOnRay | fireworks.js:64-77 | a firework that has not arrived in `k` updates is `Path(speed, k)` along the ray from its start at its angle, with speed `speed`·1.05^k |
| Fireworks.FliesMeasures | fireworks.js:64-71 | while the firework has not arrived, update `k + 1` measures the travelled distance from the launch point to the candidate position, which lies `Path(speed, k + 1)` along that ray |
| Fireworks.LaunchRay | fireworks.js:33-71 | until a launched firework arrives, its candidate positions lie on the ray from the launch point at angle `atan2(ty - sy, tx - sx)`, at a parameter that grows strictly with every update, and each travelled distance is measured to the candidate |
| Fireworks.Firework.Update | fireworks.js:54-78 | the object's new fields are `Step` of the old ones; the returned flag is the arrival test on the candidate position; the invariant is kept |
| Particles.Step | fireworks.js:114-123 | one update keeps the particle invariant, keeps the decay, and makes alpha strictly smaller |
| Particles.ExpiresAfterStep | fireworks.js:122-126 | the removal test holds exactly when the alpha after the decrement is at most the decay |
| Particles.StepNKeepsInv | fireworks.js:114-123 | any number of updates keeps the particle invariant: trail of five, friction 0.95, gravity 1, decay in [0.015, 0.03), positive speed |
| Particles.FadeAfter | fireworks.js:118-122 | after `k` updates alpha has dropped by exactly `k` decays and the speed is multiplied by 0.95^k |
| Particles.Lifetime | fireworks.js:110-126 | a fresh particle is removed by update `k + 1` exactly when (k + 2)·decay ≥ 1; so it survives at least 32 updates and is removed by the 66th |
| Particles.TrailAt | fireworks.js:99-116 | trail entry `j` after `k` updates is the position `j + 1` updates earlier, or the spawn point |
| Particles.Particle.constructor | fireworks.js:96-112 | the new particle is at the given point with five copies of it as trail and alpha 1. Five draws in order: angle in [0, 2π), speed in [1, 10), hue within 50 of the global hue, brightness in [50, 80), decay in [0.015, 0.03) |
| Particles.Particle.Update | fireworks.js:114-127 | the new fields are `Step` of the old ones; the returned flag is the removal test; the invariant is kept |
| Timers.TimerStep | fireworks.js:170-182 | a counter launches exactly when it has reached its period and its condition holds. Launching resets it to 0; otherwise it counts up below the period and waits at it; it stays in [0, period] |
| Timers.RunStaysInRange | fireworks.js:170-196 | whatever the pointer does over any run of frames, each counter stays within [0, period] |
| Timers.PeriodicWhileEnabled | fireworks.js:170-182 | while its condition holds on every frame, a counter launches once per `period + 1` frames: launches·(period + 1) + final value = start + frames |
| Timers.StallWhileDisabled | fireworks.js:170-196 | while its condition fails on every frame, a counter never launches and climbs to its period, where it stays |
| Timers.AutonomousEvery26 | fireworks.js:13-16 | pointer never held, both counters starting at 0: the autonomous counter launches exactly frames / 26 times and ends at frames mod 26; the pointer counter never launches |
| Collections.Keep | fireworks.js:158-168 | a splice pass leaves exactly as many entries as were not removed |
| Collections.KeepSubset | fireworks.js:158-168 | a pass only removes: every survivor was in the array |
| Collections.KeepMember | fireworks.js:158-168 | in a duplicate-free array an entry survives the pass exactly when it is not removed |
| Collections.KeepDistinct | fireworks.js:158-168 | the survivors of a duplicate-free array are duplicate-free |
| Collections.SpliceStep | fireworks.js:158-162 | with the walk at index `i`, entry `i - 1` is still the original one, and splicing it out when it is removed (keeping it otherwise) gives the walk at `i - 1`: a reverse splice pass visits every original entry once and keeps the rest in order |
| Collections.WalkedEnds | fireworks.js:158-162 | the walk starts from the whole array and ends at the survivors in their original order |
| Show.ExplosionCount | fireworks.js:71-73 | a pass produces one explosion per arriving firework |
| Show.Origins | fireworks.js:140-145 | the explosions of a pass place exactly 100 particles each |
| Show.OriginsAt | fireworks.js:140-145 | particle `k` created in a pass belongs to explosion k / 100 |
| Show.BurstsStep | fireworks.js:158-162 | updating firework `i - 1` in the reverse walk adds its target, and 100 particle origins there, exactly when it arrives |
| Show.SurvivingFireworksValid | fireworks.js:158-162 | the fireworks a pass keeps are distinct and each still valid |
| Show.SurvivingParticlesValid | fireworks.js:164-168 | the particles a pass keeps are distinct and each still valid |
| Show.GrownParticlesValid | fireworks.js:140-145 | appending freshly spawned particles to valid ones leaves every particle valid |
| Show.FireworksUpdated | fireworks.js:158-162 | fireworks that each hold the update of their earlier state have all stepped once, and the survivors are distinct and valid |
| Show.ParticlesUpdated | fireworks.js:164-168 | particles that each hold the update of their earlier state have all stepped once |
| Show.SparksDoNotExpire | fireworks.js:110-126 | no freshly spawned particle (alpha 1, decay below 0.03) is removed by its first update |
| Show.FreshSparksSurvive | fireworks.js:164-168 | in the particle pass over old particles followed by new sparks, every spark survives: the result is the surviving old particles followed by all the sparks, in order |
| Show.Launched | fireworks.js:172-177 | pushing a valid firework not yet live keeps the live ones distinct and valid |
| Show.Simulation.constructor | fireworks.js:10-16 | the script starts with no fireworks and no particles, hue 120 and both counters at 0 |
| Show.Simulation.PushParticle | fireworks.js:143 | one `push(new Particle(x, y))`: the array grows by one fresh, freshly spawned particle at (x, y), five draws, nothing else changes |
| Show.Simulation.CreateParticles | fireworks.js:140-145 | the array becomes the old one plus exactly 100 fresh particles, each spawned at (x, y) with alpha 1 and decay in [0.015, 0.03). The existing particles keep their state; 500 draws |
| Show.Simulation.Explode | fireworks.js:71-73 | the arrival branch: 100 particles at the target are appended, and the firework is spliced out of its index |
| Show.Simulation.UpdateFirework | fireworks.js:54-78 | the firework's state is `Step` of its old state. On arrival it is spliced out and 100 particles appear at its target; otherwise the array is unchanged. Existing particles are untouched |
| Show.Simulation.UpdateParticle | fireworks.js:114-127 | the particle's state is `Step` of its old state, and it is spliced out exactly when the removal test holds; fireworks, hue and counters are untouched |
| Show.Simulation.WalkFirework | fireworks.js:158-162 | one turn of the firework loop moves the walk down one index and leaves the updated firework at its stepped state |
| Show.Simulation.WalkFireworkInPlace | fireworks.js:158-162 | one turn of the firework loop changes only the firework it updates |
| Show.Simulation.WalkFireworkAndSparks | fireworks.js:158-162 | one turn of the firework loop appends exactly the particles of its explosion, if any, after those created earlier in the pass |
| Show.Simulation.WalkFireworks | fireworks.js:158-162 | the firework loop leaves the non-arriving fireworks in their original order, every firework stepped once, and the particles of every explosion (in the order the pass meets them) appended |
| Show.Simulation.FireworkPass | fireworks.js:158-162 | the firework half of `loop`: survivors are `Keep` of the old array by the arrival test, each firework stepped exactly once, and 100·(number arriving) fresh particles appended at the targets. Everything remains valid |
| Show.Simulation.WalkParticle | fireworks.js:164-168 | one turn of the particle loop moves the walk down one index and leaves the updated particle at its stepped state |
| Show.Simulation.WalkParticleInPlace | fireworks.js:164-168 | one turn of the particle loop changes only the particle it updates |
| Show.Simulation.WalkParticles | fireworks.js:164-168 | the particle loop leaves the unexpired particles in their original order and every particle stepped once |
| Show.Simulation.ParticlePass | fireworks.js:164-168 | the particle half of `loop`: survivors are `Keep` of the old array by the removal test, each particle stepped exactly once, all valid, fireworks untouched |
| Show.Simulation.ParticlePassAfterBursts | fireworks.js:164-168 | the particle pass right after the firework pass also updates the new sparks, which start it freshly spawned at the explosion points |
| Show.Simulation.UpdateAll | fireworks.js:158-168 | both passes in order. Fireworks: `Keep` by arrival, each stepped once. Particles: `Keep` by removal over the old particles plus 100·(number arriving) sparks, each stepped once |
| Show.Simulation.AdvanceHue | fireworks.js:151 | the hue grows by exactly 0.5 and nothing else changes |
| Show.Simulation.LaunchFirework | fireworks.js:172-177 | `fireworks.push(new Firework(...))`: one fresh firework at the end, in the state `Launch` gives, one draw |
| Show.Simulation.RandomTarget | fireworks.js:175-176 | the target of an autonomous launch: x = random(0, width), then y = random(0, height / 2), two draws in that order |
| Show.Simulation.ResetTimer | fireworks.js:178 | `timerTick = 0` and nothing else changes |
| Show.Simulation.AutoFire | fireworks.js:171-179 | the firing branch: a firework from (width / 2, height) to the random target is pushed and the timer is reset, three draws |
| Show.Simulation.AutoLaunch | fireworks.js:170-182 | `timerTick` follows `TimerStep` with the pointer up as condition; exactly one firework is launched when it fires, none otherwise |
| Show.Simulation.ResetLimiter | fireworks.js:192 | `limiterTick = 0` and nothing else changes |
| Show.Simulation.PointerFire | fireworks.js:185-193 | the firing branch: a firework from (width / 2, height) to the pointer is pushed and the limiter is reset, one draw |
| Show.Simulation.PointerLaunch | fireworks.js:184-196 | `limiterTick` follows `TimerStep` with the pointer held as condition; exactly one firework is launched when it fires, none otherwise |
| Show.Simulation.Spawn | fireworks.js:170-196 | both counters move on; at most one firework is launched (by the timer only with the pointer up, by the limiter only with it held); existing entities are untouched |
| Show.Simulation.Frame | fireworks.js:148-197 | one `loop`: hue + 0.5, and each firework stepped once. Survivors are `Keep` by arrival, followed by the launched firework if any. 100 sparks per arrival join the particle pass, and the particles left are `Keep` by removal. Counters follow `TimerStep`. Everything remains valid |

## Left out

- The drawing is not modelled: the `draw` methods (fireworks.js:80-91, 129-136) and the compositing and fade fill (fireworks.js:153-156). They only paint the canvas.
- `requestAnimationFrame` (fireworks.js:149) is not modelled: it is host scheduling. `Show.Simulation.Frame` is one call of `loop`.
- The DOM listeners (fireworks.js:200-219) are not modelled. Their effects (`mx`, `my`, `mousedown`, the canvas size) are parameters of `Frame`.
- `animateYearCounter` and `window.onload` (fireworks.js:222-280) are DOM and CSS work with a timer.
- Floating-point arithmetic: numbers are exact reals, so IEEE-754 rounding is not modelled.
- `Math.PI`, `Math.cos`, `Math.sin`, `Math.atan2` and `calculateDistance` are uninterpreted (a `Geometry.Host`). So nothing is proved that depends on their values.
- Fireworks.Step: the model does not prove that the travelled distance never decreases, nor how many updates a launch takes to arrive. Both depend on the values of `calculateDistance`. `Fireworks.LaunchRay` proves the part that does not: until arrival, the candidate positions move strictly outward along one ray from the launch point.
- `Math.random` is a given stream of samples in [0, 1). How the host produces them is not modelled.
- The constructors' `coordinateCount` field is not modelled. The `while (coordinateCount--)` loop leaves it at -1, and nothing reads it afterwards; the loop itself is modelled.
- `Fireworks.Firework.Update` and `Particles.Particle.Update` return the arrival or removal flag instead of splicing the global arrays. The splice and the call of `createParticles` are in `Show.Simulation.Explode` and `Show.Simulation.UpdateParticle`, in the source's order.
- `mx` and `my` are `undefined` in the script until the first `mousemove`. In the model they are always numbers.
- Show.Simulation.Frame: does not state the sparks' colour (hue, brightness) or heading. `Particles.Particle.constructor` states them for one particle in terms of its samples.
- Show.Simulation.Frame: does not tie `launchDraw` to the draw counter at the start of the frame. It states only that launches draw after it.
- Show.Simulation.CreateParticles: states the 500 draws in total, not which sample each particle receives.
