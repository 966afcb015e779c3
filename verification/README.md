# Collision simulator: a Dafny model of the physics kernel

This project models the core of a 2-D elastic-collision simulator written in
Java (JavaFX). Circular bodies ("things") move on a rectangular field. Each
animation tick, every body moves by its velocity and then walks the list of
bodies. For every other body it applies the pairwise collision rule, and
after every element it applies the wall rule to itself. Collision counters
and rate counters count the events. A session can be reset to its starting
bodies, or saved to and loaded from a line-oriented text file. Three
gas-scenario launchers build a grid of gas particles with shuffled
velocities.

The model uses `real` arithmetic throughout. Bodies are immutable
datatypes, and a body's identity is its index in the list. Every rule
returns the updated list together with the number of events it raised.

| module | file | models |
|---|---|---|
| `Vectors` | vectors.dfy | `PhysicsVector` |
| `Things` | things.dfy | `Thing`, `Ball`, `GasParticle` |
| `CollisionEngine` | collision_engine.dfy | the pair rule and the wall rule |
| `Motion` | motion.dfy | `Thing.move` and the animation tick |
| `PhysicsUtility` | physics_utility.dfy | `momentumSum`, with totals over a list |
| `ThingLine`, `IntText` | thing_line.dfy, int_text.dfy | the nine-field line format of a body |
| `FileIO` | file_io.dfy | `saveData` / `loadData` on a sequence of lines |
| `Counters`, `Int32` | counters.dfy, int32.dfy | `Counter` and `RateCounter` |
| `Statuses` | statuses.dfy | the status bar's counters and how events reach them |
| `SimulatorState`, `Simulator` | simulator_state.dfy, simulator.dfy | the session: start, pause, tick delay, tick, reset, save/load menu |
| `Launchers` | launchers.dfy | `DoubleMolecules`, `HalfMolecules`, `HalfSpeed` |

Modelling choices:

- **Magnitudes.** `getMagnitude` is modelled by its square, and the overlap
  test `|offset| <= size1 + size2` by its squared form.
- **The pair rule in two equivalent forms.**
  - `CollisionEngine.ComputePossibleCollision` follows the source
    literally: unit normal, normal and tangential speeds, the 1-D formula
    and recombination. It takes the distance (the square root) as a
    parameter.
  - `CollisionEngine.Resolve` is the same rule written without the square
    root, as an impulse along the offset.
  - `CollisionEngine.LiteralAgreesWithResolve` proves the two equal.
- **Degenerate inputs.** Coincident centres or a zero total mass make the
  source divide by zero (NaN). These are preconditions of the rule, and of
  `move` and the tick through `Resolvable`.
- **Java `int` arithmetic.** The wrap-around on `count++` is modelled
  explicitly (`Int32.Succ`), and so is the wrap-around of the radius sum
  `t1.size + t2.size`, which is added as `int` before it becomes a
  `double` (`Int32.Wrap`, `CollisionEngine.Reach`).
- **The guard of the pair rule.** Every operation of `Motion` takes the
  guard as a parameter (`CollisionEngine.Guard`). `AsWritten` is the
  source's sign test `n1 < 0 && n2 > 0`. `Corrected` is the approach
  test of "## Findings". The session (`Simulator`) runs the tick with
  `AsWritten`, as the source does; the corrected tick is there to compare
  against.
- **Number text.** `Double.toString` / `Double.parseDouble` are a pair of
  functions given as a parameter (`ThingLine.RealFormat`). `Integer.toString`
  / `Integer.parseInt` are modelled on ASCII digits.
- **Parameters for the outside world.** The field size is a parameter
  (`Field`). So are the application name read from the resource bundle
  and the random indices of `randomize`.

The tick as written in the source visits ordered pairs: body `k` applies
the rule to `(k, j)` while it moves, and body `j` applies it to `(j, k)`
later in the same tick. That does not match a description of the tick as
"move every body, then resolve each unordered pair once, then the walls".
The model follows the code. It moves one body at a time, walks the whole
list, and applies the wall rule once per element, so a body is wall-checked
`|objects|` times per move. The session's tick applies the guard as
written; "## Findings" shows what that guard does to a rear-end pair and
to bodies resting in contact.

## Model

| member | source | states |
|---|---|---|
| Vectors.ScalarMultiplyMagnitude | src/physics/PhysicsVector.java:45-47 | scaling by k multiplies the squared length by k^2 |
| Vectors.Add | src/physics/PhysicsVector.java:56-58 | subtracting the second operand from the sum gives back the first |
| Vectors.Subtract | src/physics/PhysicsVector.java:67-69 | adding the subtrahend back to the difference gives the minuend, per component |
| Vectors.Normal | src/physics/PhysicsVector.java:96-98 | the normal is perpendicular to its input and just as long |
| Vectors.Invert | src/physics/PhysicsVector.java:105-107 | the inverse cancels the vector and is just as long |
| Vectors.Clone | src/physics/PhysicsVector.java:122-124 | the clone equals the original |
| Vectors.ToUnitVector | src/physics/PhysicsVector.java:86-89 | for a positive magnitude, the unit vector has squared length 1, scaled by the magnitude gives back the input, and its projection on the input is the magnitude |
| Vectors.MagnitudeSquaredPositive | src/physics/PhysicsVector.java:24-26 | x^2 + y^2 is never negative, and is positive exactly for non-zero vectors |
| Vectors.AddCommutes | src/physics/PhysicsVector.java:49-58 | addition is commutative |
| Vectors.SubtractIsInvertedReverse | src/physics/PhysicsVector.java:60-69 | a - b is the inverse of b - a |
| Vectors.DotProductSymmetric | src/physics/PhysicsVector.java:77-79 | the dot product is symmetric |
| Vectors.DotProductScales | src/physics/PhysicsVector.java:45-47 | (k v) . w = k (v . w) |
| Vectors.NormalTwiceInverts | src/physics/PhysicsVector.java:96-107 | two quarter turns are the inverse |
| Vectors.InvertInvolution | src/physics/PhysicsVector.java:105-107 | inverting twice is the identity |
| Vectors.OrthonormalDecomposition | src/physics/CollisionEngine.java:28-34 | a unit vector and its normal form a basis: any velocity is the sum of its normal and tangential parts |
| Things.Ball | src/objects/Ball.java:10-18 | a ball has radius 20 and the given position, mass, velocity and fill |
| Things.GasParticle | src/objects/GasParticle.java:9-14 | a gas particle has radius 5, mass 1, a black fill, and the given integer position and velocity |
| Things.WithVelocity | src/physics/CollisionEngine.java:48-51 | writing a velocity back changes only the velocity |
| Things.Displace | src/objects/Thing.java:127-128 | the centre advances by the velocity; velocity, size, mass and fill are kept |
| Things.Clone | src/objects/Thing.java:179-182 | the clone equals the original in every field |
| CollisionEngine.Bounce | src/physics/CollisionEngine.java:41-52 | the update raises one event and changes only the two velocities |
| CollisionEngine.BounceConserves | src/physics/CollisionEngine.java:42-51 | the update conserves total momentum and kinetic energy, reverses the relative velocity along the line of centres, and keeps each tangential component |
| CollisionEngine.Resolve | src/physics/CollisionEngine.java:25-52 | an event is raised exactly when the bodies overlap (touching counts) and the guard `n1 < 0 && n2 > 0` does not hold; otherwise nothing changes; only velocities change |
| CollisionEngine.ResolveConserves | src/physics/CollisionEngine.java:25-52 | the rule, guard included, conserves momentum and kinetic energy |
| CollisionEngine.ResolveSymmetric | src/physics/CollisionEngine.java:25-52 | swapping the arguments gives the same two post-collision bodies, swapped, and the same event count |
| CollisionEngine.BounceSwapsEqualMasses | src/physics/CollisionEngine.java:42-43 | with equal masses, the normal speeds are exchanged |
| CollisionEngine.BounceReversesImpulse | src/physics/CollisionEngine.java:41-51 | the bounced pair has the same offset and the opposite impulse, so a second update pushes back |
| CollisionEngine.BounceInvolution | src/physics/CollisionEngine.java:41-51 | applying the update twice with no motion in between restores both velocities |
| CollisionEngine.ResolveTwiceStops | src/physics/CollisionEngine.java:38-39 | for equal-mass bodies moving head-on into each other, the first pass bounces them and a second pass in the same order sees them separating and does nothing |
| CollisionEngine.SecondPassUndoes | src/physics/CollisionEngine.java:38-39 | when the guard fails to see the bounced pair as separating in the other order, the second pass restores the original velocities and counts a second event |
| CollisionEngine.RearEndUndone | src/physics/CollisionEngine.java:38-39 | two overlapping equal-mass bodies both moving forward along the offset are bounced, and the reverse-order pass restores their velocities |
| CollisionEngine.RearEndExample | src/physics/CollisionEngine.java:38-39 | concrete case on any horizontal line: gas particles (size 5, mass 1) at x = 0 moving (3,0) and at x = 10 moving (1,0) are bounced once, and the second pass undoes the first |
| CollisionEngine.RearEndFirstBounce | src/objects/Thing.java:126-134 | on any horizontal line: after the first particle moves from x = 0 to x = 3, the rule swaps the two velocities |
| CollisionEngine.RearEndSecondBounce | src/objects/Thing.java:126-134 | after the second particle moves to x = 13 it still touches the first, and the rule in the other order swaps the velocities back |
| CollisionEngine.RestingContact | src/physics/CollisionEngine.java:27-52 | two touching bodies at rest: the guard as written applies the formula, which changes nothing and raises an event; the corrected guard raises none |
| CollisionEngine.BounceWithoutImpulse | src/physics/CollisionEngine.java:41-52 | with zero impulse the update leaves both bodies as they were yet counts one event |
| CollisionEngine.AxisSwap | src/physics/CollisionEngine.java:38-46 | equal masses on a horizontal line that are not separating exchange their horizontal velocities and keep their vertical ones |
| CollisionEngine.ApproachingSymmetric | src/physics/CollisionEngine.java:25-27 | overlap and approach do not depend on argument order |
| CollisionEngine.ResolveApproaching | src/physics/CollisionEngine.java:38-39 | corrected guard: an event is raised exactly when the bodies overlap and approach each other; otherwise nothing changes |
| CollisionEngine.ResolveApproachingConserves | src/physics/CollisionEngine.java:41-51 | the corrected rule conserves momentum and kinetic energy |
| CollisionEngine.ApproachingResolvesOnce | src/physics/CollisionEngine.java:38-39 | with the corrected guard, the pass in the reverse order that follows a resolution does nothing |
| CollisionEngine.UnitNormal | src/physics/CollisionEngine.java:28 | the unit normal has length 1 and, scaled by the distance, is the offset |
| CollisionEngine.FinalSpeed | src/physics/CollisionEngine.java:42-43 | the final normal speed is the reflection of the initial one about the centre-of-mass speed |
| CollisionEngine.ComputePossibleCollision | src/physics/CollisionEngine.java:23-54 | literal rule: at most one event, raised exactly when distance <= reach and not (n1 < 0 and n2 > 0); otherwise nothing changes; only velocities change |
| CollisionEngine.LiteralComponents | src/physics/CollisionEngine.java:41-46 | after the update, n_i' = 2V - n_i with V the centre-of-mass speed, the tangential parts are kept, and equal masses exchange n1 and n2 |
| CollisionEngine.EqualMassFinalSpeeds | src/physics/CollisionEngine.java:42-43 | with equal masses, n1f = n2 and n2f = n1 |
| CollisionEngine.LiteralAgreesWithResolve | src/physics/CollisionEngine.java:23-54 | the literal rule is defined exactly when the sqrt-free rule is, and then gives the same result |
| CollisionEngine.WallCollision | src/physics/CollisionEngine.java:61-71 | each velocity axis flips independently under the strict half-field test, one event per flipped axis; the body does not move and keeps its speed |
| CollisionEngine.WallCollisionSettles | src/physics/CollisionEngine.java:61-71 | a second wall check without motion does nothing unless the body straddles both walls of an axis |
| CollisionEngine.ReachWraps | src/physics/CollisionEngine.java:26-27 | radii `Integer.MAX_VALUE` and 1 give reach -2^31, and such bodies never overlap |
| Int32.Wrap | src/physics/CollisionEngine.java:26 | Java's `int` addition: the result is in range, congruent to the exact sum modulo 2^32, and equal to it when that is in range |
| CollisionEngine.PairRule | src/physics/CollisionEngine.java:25-52 | at most one event; none leaves both bodies unchanged; one is the collision formula; as written the event happens exactly on overlap without the sign test firing, corrected exactly on overlap while approaching; only velocities change |
| CollisionEngine.PairRuleCases | src/physics/CollisionEngine.java:38-39 | the guard as written is `Resolve`; the corrected guard leaves bodies that do not approach alone |
| CollisionEngine.GuardsAgree | src/physics/CollisionEngine.java:38-52 | for overlapping bodies that approach, both guards apply the formula with the same outcome |
| CollisionEngine.PairRuleConserves | src/physics/CollisionEngine.java:41-51 | the pair rule under either guard conserves momentum and kinetic energy |
| CollisionEngine.CollideAt | src/physics/CollisionEngine.java:23-54 | the same index twice is an error; otherwise the two bodies are replaced by the outcome of the pair rule under the given guard (the source's is `AsWritten`) and every other body is kept |
| CollisionEngine.CollideAtConserves | src/physics/CollisionEngine.java:23-54 | the pair rule on a list, under either guard, keeps total momentum and energy and changes only velocities |
| PhysicsUtility.MomentumSum | src/physics/PhysicsUtility.java:18-25 | the loop returns the sum of m_i v_i per component, and (0,0) for no bodies |
| PhysicsUtility.TotalAppend | src/physics/PhysicsUtility.java:18-25 | a total over a concatenation is the sum of the totals |
| PhysicsUtility.MomentumTotalAppend | src/physics/PhysicsUtility.java:18-25 | the momentum sum of xs ++ ys is the sum of the parts, and does not depend on their order |
| PhysicsUtility.PairUpdateConserves | src/objects/Thing.java:131-132 | replacing two bodies by a pair with the same momentum and energy keeps the list totals |
| Motion.Displaced | src/objects/Thing.java:127-128 | only the mover's centre advances, by its velocity; every other body is kept |
| Motion.Step | src/objects/Thing.java:130-134 | one element of the walk: only the mover and that element change, only in velocity, with at most one object event and two wall events |
| Motion.StepQuiet | src/objects/Thing.java:130-134 | an element of the walk that raises no event leaves the list unchanged |
| Motion.StepSelf | src/objects/Thing.java:131-133 | the mover's own element skips the pair rule: away from the walls it changes nothing and raises no event |
| Motion.StepPair | src/objects/Thing.java:131-133 | any other element gets the pair rule with the mover first; away from the walls the list holds the rule's outcome and its events |
| Motion.StepConserves | src/objects/Thing.java:130-134 | an element step keeps the kinetic energy, and the momentum when no wall was hit |
| Motion.Walk | src/objects/Thing.java:130-134 | the walk keeps the list length; object events at most one per other body, wall events at most two per element |
| Motion.WalkKeepsShape | src/objects/Thing.java:130-134 | the walk only changes velocities |
| Motion.WalkConserves | src/objects/Thing.java:130-134 | the walk keeps the kinetic energy, and the momentum when no wall was hit |
| Motion.WalkQuiet | src/objects/Thing.java:130-134 | a walk that raises no event leaves the list unchanged |
| Motion.Moved | src/objects/Thing.java:126-136 | `move` displaces the mover once, before any rule; other centres stay; no size, mass or fill changes |
| Motion.MovedConserves | src/objects/Thing.java:126-136 | a move keeps the kinetic energy, and the momentum when no wall was hit |
| Motion.MovedQuiet | src/objects/Thing.java:126-134 | a move that raises no event only advances the mover's centre by its velocity |
| Motion.MoveFirstOfTwo | src/objects/Thing.java:126-134 | in a list of two, `move` of the first body away from the walls is its displacement followed by the pair rule with the second |
| Motion.MoveSecondOfTwo | src/objects/Thing.java:126-134 | in a list of two, `move` of the second body away from the walls is its displacement followed by the pair rule with the first, the mover as first argument |
| Motion.Move | src/objects/Thing.java:126-136 | the loop over the list computes the recursive definition of `move` |
| Motion.WalkAll | src/objects/Thing.java:130-134 | the loop with running event counts equals the recursive walk |
| Motion.TickFrom | src/ui/Simulator.java:96-97 | the rest of a tick from body k leaves the centres of the bodies before k where they are and keeps every size, mass and fill |
| Motion.Tick | src/ui/Simulator.java:96-97 | a tick keeps the number of bodies and every size, mass and fill |
| Motion.TickMovesEachOnce | src/ui/Simulator.java:96-97 | every body moves exactly once, in list order: its final centre is its starting centre plus the velocity it had when its turn came |
| Motion.QuietTick | src/ui/Simulator.java:96-97 | a tick that raises no event advances every body by its own velocity and changes nothing else |
| Motion.TickOfTwoBodies | src/ui/Simulator.java:96-97 | a tick of two bodies away from the walls is the first body's pair rule, then the second's, each after its own displacement, with the events of both |
| Motion.RearEndTick | src/physics/CollisionEngine.java:38-39 | as written, a tick of the rear-end pair (x = 0 moving 3 and x = 10 moving 1, on any horizontal line) raises two events and ends with the starting velocities, each particle displaced once |
| Motion.RearEndTickCorrected | src/physics/CollisionEngine.java:38-39 | with the corrected guard the same tick raises one event and ends with the velocities exchanged |
| Motion.TickConserves | src/ui/Simulator.java:96-97 | a tick keeps the kinetic energy, and the momentum when no wall was hit |
| Motion.Animate | src/ui/Simulator.java:93-102 | the loop calling `move` on each body in turn equals the tick |
| ThingLine.Tokens | src/objects/Thing.java:174 | tokenising yields non-empty, separator-free tokens |
| ThingLine.TokensOfJoin | src/objects/Thing.java:156-174 | joining tokens with ',' and tokenising gives the tokens back |
| ThingLine.LineTokens | src/objects/Thing.java:161-164 | `toString` writes exactly the nine fields, in order |
| ThingLine.MakeFill | src/objects/Thing.java:175 | `Color.color` accepts exactly intensities in [0, 1] |
| ThingLine.Fields | src/objects/Thing.java:161-164 | a line has nine fields |
| ThingLine.RealAt | src/objects/Thing.java:175 | a real field is read exactly when the token exists and parses; a missing token is its own error |
| ThingLine.IntAt | src/objects/Thing.java:175 | an int field is read exactly when the token exists and parses as an in-range int; a missing token is its own error |
| ThingLine.LoadTokens | src/objects/Thing.java:173-177 | fewer than nine tokens fail; on success each field is the parse of its token, in order |
| ThingLine.LoadIgnoresExtraTokens | src/objects/Thing.java:173-177 | tokens after the ninth are ignored |
| ThingLine.LineRoundTrip | src/objects/Thing.java:161-177 | reading a written line restores all nine fields |
| IntText.ValueOfDigits | src/objects/Thing.java:163 | the decimal digits of n denote n |
| IntText.IntToString | src/objects/Thing.java:163 | the text of an int is non-empty, all digits after an optional '-', which appears exactly for negative values |
| IntText.ParseInt | src/objects/Thing.java:175 | a parse succeeds only on a signed run of digits and yields an in-range int |
| IntText.ParseIntToString | src/objects/Thing.java:163-175 | parsing the text of an int gives the int back |
| FileIO.BodyLines | src/file/FileIO.java:39-40 | one line per body, in order, each the body's `toString` |
| FileIO.SaveData | src/file/FileIO.java:31-43 | the file is the header, the tick delay, then one line per body in order |
| FileIO.ParseBodies | src/file/FileIO.java:65-71 | every line is read as one body, in order; the first bad line stops the load and is reported |
| FileIO.LoadData | src/file/FileIO.java:49-79 | a wrong header is rejected; the load succeeds exactly when the header, tick delay and every body line are good and the animation is paused, and then replaces the tick delay and bodies; otherwise nothing changes |
| FileIO.ParseBodyLines | src/file/FileIO.java:39-71 | reading the lines written for savable bodies gives the same bodies back |
| FileIO.SaveLoadRoundTrip | src/file/FileIO.java:27-79 | loading a saved file into a paused session restores the tick delay and the bodies |
| Int32.Succ | src/status/Counter.java:39-40 | Java's `int` increment: stays in range, adds one below the largest int and wraps to the smallest from it, congruent to n + 1 modulo 2^32 |
| Counters.NewCounter | src/status/Counter.java:20-24 | a new counter counts 0 |
| Counters.Inc | src/status/Counter.java:39-42 | the count grows by one modulo 2^32, exactly one while below the largest int |
| Counters.ResetCount | src/status/Counter.java:47-50 | the count becomes 0 |
| Counters.ResetIdempotent | src/status/Counter.java:47-57 | resetting twice is resetting once, and `getCount` then reads 0 |
| Counters.IncTimes | src/status/Counter.java:39-42 | n increments keep the count in int range |
| Counters.IncTimesCounts | src/status/Counter.java:39-42 | n increments add n, modulo 2^32 and exactly while in range |
| Counters.Zeros | src/status/RateCounter.java:29-30 | the initial window is n zeros |
| Counters.NewRateCounter | src/status/RateCounter.java:25-30 | the window is built exactly when sampleTime >= 1, and then holds sampleTime zeros |
| Counters.Sample | src/status/RateCounter.java:35-40 | a sample drops the oldest entry, appends the current count and zeroes the count; the window length is kept |
| Counters.RateInc | src/status/RateCounter.java:59-62 | the current count grows by one; the window is kept |
| Counters.Flush | src/status/RateCounter.java:67-72 | the window is refilled with zeros; the current count is kept |
| Counters.FlushAverage | src/status/RateCounter.java:50-53 | the average right after a flush is 0 |
| Counters.Intervals | src/status/RateCounter.java:35-40 | a run of intervals keeps the window valid and its length |
| Counters.IntervalsSlide | src/status/RateCounter.java:35-40 | after a run of samples the window is the old window followed by the new counts, with as many dropped from the front |
| Counters.LongRunKeepsLastCounts | src/status/RateCounter.java:35-40 | after at least sampleTime samples the window is the last sampleTime interval counts, oldest first |
| Statuses.Bump | src/physics/CollisionEngine.java:77-99 | an event increments exactly the statuses that count its kind |
| Statuses.IncCollisions | src/physics/CollisionEngine.java:77-99 | one event reaches every status in the list |
| Statuses.IncCollisionsTimesCounts | src/physics/CollisionEngine.java:77-99 | after n events, each status counting that kind grew by n (modulo 2^32); others are unchanged |
| Statuses.Report | src/physics/CollisionEngine.java:77-99 | reporting a tick's events keeps the statuses valid and their number |
| Statuses.ReportCounts | src/physics/CollisionEngine.java:77-99 | a tick's events reach the statuses: object counters grow by the object events, wall counters by the wall events, trackers are untouched |
| Statuses.ResetStatus | src/ui/Simulator.java:171-176 | resetting a status keeps its kind and validity |
| Statuses.ResetStatuses | src/ui/Simulator.java:171-176 | reset is applied to every status |
| Statuses.ResetStatusesIdempotent | src/ui/Simulator.java:171-176 | resetting the statuses twice is resetting them once |
| Statuses.ResetClears | src/ui/Simulator.java:171-176 | after reset, counters read 0, rate counters average 0 with their count kept, trackers are untouched |
| SimulatorState.Start | src/ui/Simulator.java:71-80 | the start/pause button switches to pause (the session counts as running) and nothing else changes; an animation with period `tickDelay` is scheduled exactly when the delay is positive, otherwise the scheduler's `IllegalArgumentException` is reported |
| SimulatorState.StartPause | src/ui/Simulator.java:62-80 | start then pause leaves the session paused and otherwise as it was, and a second start schedules the same animation |
| SimulatorState.StartLocksTickDelay | src/ui/Simulator.java:71-91 | after start, `setTickDelay` is refused with `IllegalStateException`, whatever the delay |
| SimulatorState.ZeroDelayStart | src/ui/Simulator.java:71-91 | with tick delay 0, start leaves the button on pause with nothing scheduled and the delay locked; the checked start refuses and the delay can be set |
| SimulatorState.StartChecked | src/ui/Simulator.java:71-80 | corrected start: a delay that is not positive is refused and the session is unchanged; otherwise it is `Start`, so from a paused session the button shows pause exactly when an animation is scheduled |
| SimulatorState.Pause | src/ui/Simulator.java:62-70 | the animation stops; nothing else changes |
| SimulatorState.PauseIfRunning | src/ui/Simulator.java:166-167 | afterwards the animation is paused, and nothing else changed |
| SimulatorState.SetTickDelay | src/ui/Simulator.java:87-91 | fails exactly while running; otherwise sets the delay and nothing else |
| Simulator.CloneAll | src/ui/Simulator.java:177-181 | one clone per body, in order |
| Simulator.CloneAllEqual | src/ui/Simulator.java:367-369 | cloning a list gives an equal list |
| Simulator.Initialize | src/ui/Simulator.java:362-374 | the start list and the current list hold the given bodies; paused, default tick delay 10 |
| Simulator.AnimationTick | src/ui/Simulator.java:93-102 | the session's tick uses the guard as written; it keeps the running flag, tick delay, start list, statuses' number and kinds, and trackers; object counters grow by the object events and wall counters by the wall events (while in `int` range) |
| Simulator.AnimationTickConserves | src/ui/Simulator.java:93-102 | a tick keeps the energy, the number of bodies and their sizes, masses and fills, and the start list |
| Simulator.Reset | src/ui/Simulator.java:163-184 | reset pauses, restores clones of the start list, resets the statuses and keeps the start list and tick delay |
| Simulator.ResetTwice | src/ui/Simulator.java:163-184 | resetting twice gives the same bodies, the same paused button and the same statuses as resetting once |
| Simulator.SaveHandler | src/ui/Simulator.java:262-268 | save pauses, then writes the paused session |
| Simulator.LoadHandler | src/ui/Simulator.java:272-278 | load pauses first, so it is never refused for a running animation |
| Simulator.MenuRoundTrip | src/ui/Simulator.java:262-278 | save then load through the menu restores the session, paused |
| Launchers.Row | src/launcher/DoubleMolecules.java:28-32 | a row holds one cell per column j = -4..5, in order |
| Launchers.Grid | src/launcher/DoubleMolecules.java:26-32 | a grid of r rows holds 10 r cells |
| Launchers.GridIndex | src/launcher/DoubleMolecules.java:26-37 | element k of the grid is cell(first + k / 10, -4 + k % 10) |
| Launchers.RowMajor | src/launcher/DoubleMolecules.java:37 | the row-major index of row r and column c decodes back to r and c |
| Launchers.BuildGrid | src/launcher/DoubleMolecules.java:26-32 | the nested loops build the row-major grid |
| Launchers.MoveToEnd | src/launcher/DoubleMolecules.java:60 | removing one element and appending it is a permutation ending in that element |
| Launchers.Shuffled | src/launcher/DoubleMolecules.java:57-62 | any run of picks permutes the data |
| Launchers.Randomize | src/launcher/DoubleMolecules.java:57-62 | `randomize` is a permutation for any random indices |
| Launchers.GasAt | src/launcher/DoubleMolecules.java:37 | particle (i, j) sits at (15 i, 15 j) |
| Launchers.BuildGas | src/launcher/DoubleMolecules.java:34-37 | particle k sits at grid cell k, row-major, and gets velocity k of the list |
| Launchers.GasApart | src/launcher/DoubleMolecules.java:37 | particles at distinct grid cells do not overlap |
| Launchers.GasGridApart | src/launcher/DoubleMolecules.java:34-37 | no two particles of a built grid overlap |
| Launchers.LauncherStatuses | src/launcher/DoubleMolecules.java:39-48 | four statuses, the first a wall-collision rate counter over 5 intervals |
| Launchers.Velocities | src/launcher/DoubleMolecules.java:34-37 | the velocities of the bodies, in order |
| Launchers.Launch | src/launcher/DoubleMolecules.java:25-51 | the session holds the grid of gas particles, apart, whose velocities are a permutation of the velocity grid, on the preferred 500 by 500 field |
| Launchers.DoubleMolecules | src/launcher/DoubleMolecules.java:25-51 | 200 particles whose velocities permute (i/2, j/2) for i in -4..5 and (i/4, j/4) for the other i in -9..10 |
| Launchers.HalfMolecules | src/launcher/HalfMolecules.java:25-48 | 50 particles whose velocities permute (i/2, j/2) for i in -4..0; no velocity points right |
| Launchers.HalfSpeed | src/launcher/HalfSpeed.java:24-47 | 100 particles whose velocities permute (i/4, j/4) for i, j in -4..5 |
| Launchers.RowsMoveLeft | src/launcher/HalfMolecules.java:27-29 | a permutation of a grid with i <= 0 has no positive x velocity |

## Left out

- The JavaFX user interface: windows, buttons, menus, the speed text field, language switching, circle nodes and `Platform.runLater` redraws, including `Thing.updateNode` and the counters' label updates.
- Timers and concurrency: the animation executor and the rate counters' sampling timer. A tick and a sample are plain operations (`Motion.Tick`, `Counters.Sample`) that nothing schedules: `SimulatorState.Start` reports whether an animation would be scheduled, and `synchronized`/`volatile` are not modelled.
- IEEE-754 doubles: rounding, NaN and infinities. Reals are exact, so the conservation laws hold exactly. Zero distance and zero total mass are preconditions.
- The square root, `fromPolar`, `getDirection` and `PhysicsVector.toString`. Magnitudes are squared, and the literal rule takes the distance as a parameter.
- `Double.toString` / `Double.parseDouble`: a pair of functions passed in (`ThingLine.RealFormat`). The round trip is proved for values that the pair writes as one token and reads back.
- `Integer.parseInt` accepts non-ASCII Unicode digits; the model accepts only '0'..'9'.
- JavaFX stores colour intensities as floats; the model keeps the reals.
- File choosers, streams, the swallowed `FileNotFoundException` and the bad-file window. A file is a sequence of lines, and a rejected header is the `BadHeader` outcome.
- The resource-bundle lookup of the application name; it is a parameter.
- `java.util.Random`: the random indices of `randomize` are a parameter.
- `AverageSpeedTracker`, the width and height trackers and the splash screen; a tracker is a status that counts nothing.
- The fixed test-case launchers and `UniversalLoader`.
- The field size is the runtime size of the field region, a `Field` parameter. The launchers set only the preferred size, 500 by 500.
- A tick reports its events in aggregate, one count per kind, rather than one `inc` per event; `Statuses.ReportCounts` shows the totals agree.
- Motion.StepConserves: momentum is claimed only when no wall was hit. A wall reflection changes a body's momentum, so the list total is not kept then.
- Vectors.Clone: states equality only. Values are immutable, so the independence of the copy holds by construction and cannot be stated.
- Things.Clone: the same as `Vectors.Clone`.
- Simulator.Initialize: the start list holds clones, which are equal values (`Simulator.CloneAllEqual`). The contract states equality.
- ThingLine.Tokens: does not state that tokens are the maximal separator-free runs; `ThingLine.TokensOfJoin` gives the round trip.
- ThingLine.Fields: states the field count only; the contents of each field are stated by `ThingLine.LineTokens`, and reading them back by `ThingLine.LineRoundTrip`.
- Statuses.Report: states validity and length only; the counts are stated per status by `Statuses.ReportCounts`.
- Statuses.ResetStatus: states kind and validity only; the values after reset are stated by `Statuses.ResetClears`.
- Counters.IncTimes: states the range only; the count is stated by `Counters.IncTimesCounts`.
- Counters.Intervals: states validity only; the window contents are stated by `Counters.IntervalsSlide` and `Counters.LongRunKeepsLastCounts`.
- Launchers.Grid: states the size only; the cell at each index is stated by `Launchers.GridIndex`.
- IntText.ParseInt: states what an accepted text looks like; which texts are accepted is stated through `IntText.ParseIntToString` for the texts the model writes.

## Findings

| source | as written | input that shows it | evidently intended | confidence | as-written member | corrected member |
|---|---|---|---|---|---|---|
| src/physics/CollisionEngine.java:38-39 | the pair rule skips only when `n1 < 0 && n2 > 0`, a test of the signs of the two normal speeds, not of their difference | equal-mass gas particles at (0,0) moving (3,0) and at (10,0) moving (1,0): the first body's `move` bounces the pair and swaps the velocities; in the second body's `move` the pair still touches and the guard does not fire, so the rule swaps them back: two events and no net change in one tick | skip the update unless the bodies approach each other along the line of centres, so that a bounced pair is never bounced back | medium, not executed | Motion.RearEndTick | Motion.RearEndTickCorrected |
| src/ui/Simulator.java:71-78 | `startAction` switches the button to pause before `scheduleAtFixedRate`, which throws `IllegalArgumentException` for a tick delay that is not positive | a saved file whose second line is `0` loads into a paused session; pressing start then shows pause with nothing animating, and `setTickDelay` refuses until pause is pressed | check the delay before switching the button, so that a session showing pause always has an animation scheduled | low, not executed | SimulatorState.ZeroDelayStart | SimulatorState.StartChecked |
| src/physics/CollisionEngine.java:38-52 | bodies that touch but do not move towards each other pass the guard, and the formula runs with zero impulse | equal-mass particles at rest at (0,0) and (5,0): every pass of the rule raises an object-collision event and changes nothing | count a collision only when the bodies approach each other | medium, not executed | CollisionEngine.RestingContact | CollisionEngine.ResolveApproaching |
