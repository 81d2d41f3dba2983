# Monte Carlo pi estimator: the sampling-and-estimation engine

This project models the non-rendering logic of a small pygame demo that
estimates pi by the Monte Carlo method (`src/main.py`). Points are drawn
uniformly at random from the square `[0, 901]²`, which reaches one pixel
past the 901-pixel window (coordinates 0 to 900), or taken from the mouse
in debug mode. Each point is classified as inside or outside the circle
inscribed in the window. Two counters keep the tally. The displayed
estimate `4 * inside / (inside + outside)` is recomputed only when the
slow refresh timer has fired.

Modules, in dependency order:

- `Geometry` (`geometry.dfy`): the window side (901, odd), points,
  circles, the squared-distance test `PointInCircle` and its properties,
  and the reference circle (centre (450, 450), radius 450).
- `Sampler` (`sampler.dfy`): the random point built from two draws of
  `randint(0, 901)`. The random source is not modelled. Its draws are
  arguments whose only guarantee is the inclusive range.
- `Estimator` (`estimator.dfy`): the estimate as an exact `real`, and the
  number of recorded points inside the circle.
- `Transitions` (`transitions.dfy`): the loop's state as a value `Sim`,
  one function per kind of event and one for the end of a frame, the
  invariants `Inv` and `Agrees`, and lemmas over single events, frames and runs of
  events.
- `Simulation` (`simulation.dfy`): the class `SimulationState`. Its fields
  are the program's globals (`play`, `debug`, `pointsInCircle`,
  `pointsOutsideCircle`, `pointArray`, `updateEstimateThisFrame`,
  `piEstimate`). It has one method per event kind, `FrameEnd`, and
  `RunFrame` for one pass of the main loop. Each method's new state is the
  matching `Transitions` function of the old state.

The invariant `Inv` says that `outside >= 1`, so the estimate never
divides by zero. It also says that the number of recorded points is
`inside + outside - 1`, and that the estimate lies in [0, 4]. The second
invariant `Agrees` says that `inside` is the number of recorded points
inside the circle; with `Inv`, `outside` is then the number of the others
plus the seed of 1.

A point is inside when `0 <= radius && dx*dx + dy*dy <= radius*radius`.
The program asks instead whether `sqrt(dx**2 + dy**2) > radius`.
`PointInCircleMatchesDistanceTest` proves the two agree for the exact real
distance. The `0 <= radius` conjunct covers a negative radius, which
every distance exceeds.

The program divides by `inside + outside` with no guard
(src/main.py:130). The seed of 1 keeps the denominator positive, so
`Estimate` requires `inside + outside > 0` and `Inv` discharges it.

`debug` is set once before the loop (src/main.py:96); here it is a
constructor argument.

## Model

| member | source | states |
|---|---|---|
| `Geometry.ScreenSideSizeIsOdd` | src/main.py:7-8 | the window side passes the start-up oddness assertion, so `2 * (side / 2) + 1 == side` and the centre is an exact integer |
| `Geometry.SquaredDistance` | src/main.py:70-72 | the squared distance is zero exactly when the two points coincide |
| `Geometry.PointInCircle` | src/main.py:68-75 | a point classified inside means the radius is non-negative; the centre itself is inside exactly when the radius is non-negative |
| `Geometry.PointInCircleMatchesDistanceTest` | src/main.py:68-75 | for the non-negative real distance `d` with `d*d == dx*dx + dy*dy`, the point is outside exactly when `d > radius`, so the integer test equals the program's sqrt test, with the boundary inside |
| `Geometry.ClassificationDependsOnOffsets` | src/main.py:70-71 | two points with the same absolute offsets from the centre get the same classification |
| `Geometry.MirrorKeepsClassification` | src/main.py:70-72 | reflecting a point through the centre on either axis does not change its classification |
| `Geometry.InCircleWithinRadius` | src/main.py:68-75 | a point inside a circle is within the radius of the centre on each axis |
| `Geometry.ReferenceCircle` | src/main.py:80 | the circle is centred at the window's default point (`side // 2` on both axes) and has radius `side // 2`, with `2 * radius + 1 == side` |
| `Geometry.ReferenceCircleInscribed` | src/main.py:79-80 | every point inside the reference circle has both coordinates in `[0, side - 1]`, so any point off the sampling square, such as an off-window mouse position, is outside |
| `Geometry.ReferenceCircleExamples` | src/main.py:68-75 | (450,450) and the boundary point (900,450) are inside; (0,0) and (901,450) are outside |
| `Sampler.ChooseRandomPoint` | src/main.py:62-65 | the random point has both coordinates in the inclusive range `[0, side]`, x from the first draw and y from the second |
| `Sampler.RandomPointCoversSquare` | src/main.py:62-65 | every point of the closed square `[0, side]²` can be chosen, so the sampler's range is exactly that square |
| `Estimator.Estimate` | src/main.py:130 | `4 * inside / (inside + outside)` lies in [0, 4], is 0 exactly when nothing is inside and 4 exactly when nothing is outside |
| `Estimator.EstimateMonotone` | src/main.py:130 | an extra inside point never lowers the estimate and raises it exactly when `outside > 0`; an extra outside point never raises it and lowers it exactly when `inside > 0` |
| `Estimator.InsideCount` | src/main.py:107-119 | the number of recorded points inside is at most the number recorded |
| `Estimator.InsideCountAppend` | src/main.py:107-111 | appending a point adds 1 to the inside count exactly when the point is inside |
| `Transitions.Initial` | src/main.py:81-96 | the start state satisfies both invariants (`outside >= 1`, `len(point_array) == in + out - 1`, the counters agree with the points): playing, nothing recorded, `outside == 1`, no refresh pending, and estimate 0, which equals the estimate of the initial counters |
| `Transitions.PressKey` | src/main.py:101-103 | the space bar negates `play`, any other key keeps it; no other field changes |
| `Transitions.Record` | src/main.py:107-111 | the point is appended to the history; the counter total grows by exactly 1; `inside` grows exactly when the point is inside and `outside` exactly when it is not; nothing else changes |
| `Transitions.SamplePoint` | src/main.py:104-106 | the sample is the mouse position or the point of the two draws; outside debug mode it lies in the sampling square |
| `Transitions.Tick` | src/main.py:104-119 | a sample tick adds one point and one count while playing and none while paused; `play`, `debug`, the refresh flag and the estimate are unchanged |
| `Transitions.RequestRefresh` | src/main.py:120-121 | the refresh flag is set and nothing else changes |
| `Transitions.EndFrame` | src/main.py:128-131 | the flag is cleared; the estimate becomes the estimate of the counters when a refresh was pending and is kept otherwise; no other field changes |
| `Transitions.Handle` | src/main.py:98-121 | one event extends the history by at most one point, never decreases a counter, and keeps `debug` and the estimate |
| `Transitions.HandleAll` | src/main.py:98-121 | a run of events adds at most one point per event |
| `Transitions.Frame` | src/main.py:97-131 | one pass of the loop from a state satisfying `Inv` ends in a state satisfying `Inv` with no refresh pending, having added at most one point per event |
| `Transitions.RecordPreservesInv` | src/main.py:107-111 | appending and counting one point keeps `outside >= 1` and `len(point_array) == in + out - 1`, and keeps the counters in agreement with the recorded points |
| `Transitions.HandlePreservesInv` | src/main.py:98-121 | every event preserves both invariants |
| `Transitions.HandleAllPreservesInv` | src/main.py:97-121 | any run of events preserves both invariants |
| `Transitions.EndFramePreservesInv` | src/main.py:128-131 | the end-of-frame step preserves both invariants, including the estimate bound [0, 4] |
| `Transitions.SpaceToggles` | src/main.py:101-103 | the space bar flips `play` and changes nothing else; two presses restore the state |
| `Transitions.PlayingTickRecordsOne` | src/main.py:104-119 | while playing, a sample tick appends exactly one point: the mouse position in debug mode, otherwise the random point. It adds 1 to `inside` if the point is inside and to `outside` otherwise, and changes nothing else |
| `Transitions.PausedTickChangesNothing` | src/main.py:104-112 | while paused, a sample tick leaves the whole state unchanged |
| `Transitions.EstimateChangesOnlyOnRefresh` | src/main.py:120-131 | no event changes the estimate; the frame end changes it only when a refresh is pending, then sets it to the estimate of the current counters, and always clears the flag |
| `Transitions.RunKeepsEstimate` | src/main.py:98-121 | a run of events never changes the estimate, and leaves a refresh pending exactly when one was pending before or the run held a refresh tick |
| `Transitions.FrameCadence` | src/main.py:97-131 | over a whole frame, the estimate can change only if a refresh was pending or the frame held a refresh tick; in that case it becomes the estimate of the counters after the frame's samples; no refresh is pending after the frame |
| `Transitions.RefreshIsIdempotent` | src/main.py:128-131 | recomputing the estimate with unchanged counters yields the same state |
| `Transitions.HandleAllAppend` | src/main.py:98 | handling two runs of events one after the other is handling their concatenation |
| `Transitions.CountersNeverDecrease` | src/main.py:107-119 | over any run of events, neither counter decreases, the recorded points only grow at the end, and `debug` does not change |
| `Transitions.PausedRunRecordsNothing` | src/main.py:101-119 | while paused, events other than the space bar leave counters, points and estimate unchanged and keep the loop paused |
| `Transitions.PauseThenResume` | src/main.py:101-119 | pause, any events except the space bar, then resume: the loop is playing again with counters, points and estimate unchanged |
| `Transitions.ThreeInsideOneOutside` | src/main.py:97-131 | one frame from the start, made of four random sample ticks at (450,450), (450,450), (900,450) and (0,0) and a refresh tick, records those points, gives counters 3 and 2 (with the seed) and the estimate 2.4 |
| `Simulation.SimulationState.constructor` | src/main.py:81-96 | the fields start as the initial state, which satisfies the invariant |
| `Simulation.SimulationState.KeyDown` | src/main.py:101-103 | the space bar flips `play`; the new state is `PressKey` of the old one and the invariant holds |
| `Simulation.SimulationState.RecordPoint` | src/main.py:107-111 | appends the point to `pointArray` and increments the counter its classification selects, keeping the invariant |
| `Simulation.SimulationState.SampleTick` | src/main.py:104-119 | the two separate debug and random tests record at most one point: one while playing, none while paused. The new state is `Tick` of the old one |
| `Simulation.SimulationState.RefreshTick` | src/main.py:120-121 | sets the refresh flag and changes nothing else |
| `Simulation.SimulationState.HandleEvent` | src/main.py:98-121 | dispatches one event; the new state is `Handle` of the old one |
| `Simulation.SimulationState.FrameEnd` | src/main.py:128-131 | recomputes the estimate from the counters if and only if the flag was set, and clears the flag |
| `Simulation.SimulationState.RunFrame` | src/main.py:97-131 | one pass of the loop: all queued events in order, then the frame end; the invariant holds afterwards |

## Left out

- Window setup, drawing of the square, circle and points, fonts, text and
  the FPS display (`src/main.py:5`, `12-36`, `46-47`, `56-59`, `123-126`,
  `133-138`): these are pygame I/O. Drawing only reads the state.
- The timers (`src/main.py:91-92`) and the frame clock: their ticks are the
  abstract events `SampleTick` and `RefreshTick`. The 1 ms and 1000 ms
  periods, and hence the claim that refresh is slower than sampling, are
  not modelled.
- Quit (`src/main.py:99-100`) ends the process and is not an event of the
  model. Events of other kinds are the `Ignored` event.
- `randint` and `pygame.mouse.get_pos()` (`src/main.py:64`, `105`): a sample
  tick carries their values. The draws must lie in range; the mouse
  position is unconstrained.
- `Estimator.Estimate`: the value is the exact rational quotient. The
  program's float division and `round(..., 5)` (`src/main.py:130`) are
  not modelled, and neither is the integer 0 that `pi_estimate` holds
  before the first refresh (the model uses the real 0). Because of the
  rounding to 5 places, the displayed value is exactly 0 or 4 near the
  ends (for example, inside 1 and outside 10^6 display 0.0). So the clauses
  "0 exactly when nothing is inside" and "4 exactly when nothing is
  outside", and the strict half of `Estimator.EstimateMonotone`, hold for
  the exact quotient and not for the displayed number.
- `Geometry.PointInCircleMatchesDistanceTest`: it compares against the
  exact real square root. Float rounding of `sqrt` is not modelled; it
  cannot change the result for coordinates of the window's size, but it
  could for very large coordinates.
- Point colours, dot radius and the `Square` class: rendering only.
- Convergence of the estimate towards pi is a statistical property and is
  not stated.
- Changing `debug` while the loop runs: the program sets it once before the
  loop, and so does the model, through the constructor.
