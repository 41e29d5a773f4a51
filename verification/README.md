# Monte Carlo π sampler — a Dafny model

This project models the sampling core of an animated Monte Carlo estimator
of π written in JavaScript on p5.js (`script.js`). On every animation
frame the program draws a batch of random points in a 500 × 500 canvas. It
classifies each point as inside or outside the circle of diameter `radius`
centred on the canvas, keeps every point for redrawing, and shows the
running estimate `4 · inside / generated`. The user can pause, restart,
change the speed level (batch size) and change the target number of
points.

The model is functional. `Sampler.State` is the program's global `state`
record as an immutable datatype. Each control action is a pure transition:

- `DrawPoint`: one sample.
- `Tick`: the guarded generation block of `draw`. `Generate` follows its
  `for` loop step by step, and the method `Advance` is the same loop
  written imperatively and proved equal to `Tick`.
- `Reset`, `TogglePause`, `SetTarget` and `SetSpeed`.

`Valid` is the counter invariant: the history's length is the point
count, the inside counter counts the inside records, and every record's
flag agrees with the classification rule. Every transition preserves it.

The files:

- `sampler.dfy` (module `Sampler`): the state, the batch table, the
  classification (with how its squared-distance test relates to the
  program's square-root test) and the transitions.
- `runs.dfy` (module `Runs`): sequences of ticks, completion, and the pause
  and completion latch.
- `statistics.dfy` (module `Statistics`): the figures shown beside the
  canvas, and the estimate in the completion message.

Randomness is abstracted away. Each tick receives the caller's draws as a
sequence of `Sample(x, y)` reals. It uses them in order, at most one batch
of them. Coordinates and statistics are exact reals.

## Behaviour as written

The model follows the code as written, including these behaviours, which
a reader might not expect:

- Completion is `currentPoints >= totalPoints`, checked after each running
  tick, not equality.
- `currentPoints <= totalPoints` is not an invariant. Lowering the target
  below the count mid-run is allowed. The next running tick then draws
  nothing and latches completion with more points than the target
  (`Runs.LoweredTargetCompletesWithoutDrawing`). Only `Valid` is invariant.
  Where the count starts within the target, it stays within it.
- Pause is one toggle, not separate idempotent pause and resume operations.
  It also flips when the run is already complete.
- Changing the target never clears completion. Raising it after completion
  does not resume sampling (`Runs.RaisedTargetStaysComplete`).
- Progress divides by the target with no guard against zero: NaN with no
  points, Infinity with some.
- Neither setter validates its input. Validation comes from the sliders'
  ranges. The speed level is the subset type `SpeedLevel` (1..5), and the
  target is a `nat`.

## Model

| member | source | states |
|---|---|---|
| Sampler.BatchSize | script.js:14-20 | every speed level's batch size is between 1 and 200, and a higher level draws strictly more per tick |
| Sampler.Classify | script.js:42-47 | a record keeps the sample's coordinates and is flagged inside exactly when the sample is within radius/2 of the canvas centre: for the non-negative distance d to the centre, inside holds exactly when d ≤ radius/2 |
| Sampler.InsideByDistance | script.js:42-45 | for every non-negative distance d from the sample to the canvas centre, the squared test says inside exactly when d ≤ radius/2 |
| Sampler.SquareRootTestAgrees | script.js:42-45 | for the non-negative distance whose square is the squared distance, `distance <= radius/2` holds exactly when the squared test says inside |
| Sampler.ValidCountersOrdered | script.js:47-53 | in every valid state the inside counter never exceeds the point count |
| Sampler.DrawPoint | script.js:39-54 | one record is appended and the count grows by one. The inside counter grows by one exactly when the sample is inside. Flags and settings are untouched, and the counter invariant is preserved |
| Sampler.Generate | script.js:83-89 | the loop that stops at the batch size or at the target draws exactly the next min(batch, remaining) samples, in order, and counts them |
| Sampler.Tick | script.js:80-99 | a paused or complete tick changes nothing. A running tick appends exactly min(batch size, remaining) records and is complete exactly when the count reaches the target. It preserves the counter invariant, keeps the count within the target when it was within it, and keeps all settings |
| Sampler.Advance | script.js:80-99 | the imperative loop computes the same state as the functional tick |
| Sampler.Reset | script.js:150-155 | reset yields the start-up state with the current target, speed and radius: no points, not paused, not complete, and valid |
| Sampler.TogglePause | script.js:163-164 | only the pause flag changes, and it always flips. The counter invariant is kept |
| Sampler.SetTarget | script.js:193-194 | only the target changes. Completion, the counters and the counter invariant are kept |
| Sampler.SetSpeed | script.js:199-200 | the speed level becomes the chosen level and nothing else changes, so the counter invariant is kept. The next batch size is that level's table entry |
| Runs.Run | script.js:80-99 | consecutive ticks, one per animation frame, never change the target, the speed level or the radius |
| Runs.RunKeepsInvariants | script.js:80-99 | any number of ticks preserves the counter invariant. The history only grows, the inside counter of a valid state never drops, and the count stays within the target if it started within it |
| Runs.StoppedRunIsIdentity | script.js:80 | from a paused or complete state, any number of ticks leaves the state unchanged |
| Runs.CompletionLatched | script.js:80-96 | once complete, the run stays complete and its history fixed under any number of ticks |
| Runs.TickProgress | script.js:83-96 | within the target, a running tick either completes exactly at the target, when what remains fits in one batch, or draws a full batch and keeps running |
| Runs.RunProgress | script.js:80-96 | from a running state within its target, n ticks at batch size b generate min(remaining, n·b) points. The run is complete exactly when n ≥ 1 and n·b covers what remained |
| Runs.FiftyPointsAtMediumSpeed | script.js:80-96 | with target 50 at level 3, four ticks do not complete, the fifth completes with exactly 50 points, and a sixth changes nothing |
| Runs.ZeroTargetCompletesAtOnce | script.js:85-96 | with target 0, the first running tick completes without drawing |
| Runs.LoweredTargetCompletesWithoutDrawing | script.js:85-96 | after the target is lowered below the count, the next running tick draws nothing and completes, with more points than the target |
| Runs.RaisedTargetStaysComplete | script.js:80 | after completion, changing the target leaves ticks inert |
| Runs.TogglePauseInvolution | script.js:163-164 | toggling pause twice restores the original state |
| Runs.ResumeRestoresAdvancing | script.js:163-164 | pausing then resuming gives exactly the original tick behaviour, and pausing a running sampler makes ticks inert |
| Runs.TickKeepsHistoryInDomain | script.js:40-47 | when the draws lie in the sampling square, every recorded point does too |
| Statistics.PiEstimate | script.js:104-107 | the estimate is 0 with no points; otherwise it times the count equals 4 × inside. It lies in [0, 4] whenever inside ≤ count |
| Statistics.PercentInside | script.js:109-112 | the percentage is 25 × the estimate, and it lies in [0, 100] whenever inside ≤ count |
| Statistics.Progress | script.js:113 | NaN exactly for a zero target with no points, and Infinity for a zero target with points. Otherwise it is finite with value × target = 100 × count: within [0, 100] while within the target, and at least 100 once the target is reached |
| Statistics.ValidStatisticsBounded | script.js:104-112 | in every valid state the estimate lies in [0, 4] and the percentage in [0, 100] |
| Statistics.ThreeOfFourEstimatesThree | script.js:104-112 | 3 inside out of 4 gives exactly the estimate 3 and 75 percent |
| Statistics.CompletionEstimateAsWritten | script.js:128 | for a zero target the completion message's estimate is NaN exactly when no point is inside and Infinity exactly when some are; otherwise it is finite and times the target equals 4 × inside |
| Statistics.CompletionEstimateExceedsFour | script.js:128 | a valid run with two inside points, its target lowered to 1, completes on the next tick with a message estimate of 8 |
| Statistics.ZeroTargetEstimatesDiffer | script.js:128 | with a zero target and no points, the first running tick completes with the count equal to the target, the message as written is NaN and the corrected estimate is 0 |
| Statistics.CompletionEstimatesAgreeExactly | script.js:128 | once the count has reached the target, the message as written equals the corrected estimate exactly when the target is positive and either the count equals it or no point is inside |
| Statistics.CompletionEstimate | script.js:128 | the corrected completion estimate lies in [0, 4] in every valid state. It equals the message as written whenever the run stopped exactly at a positive target |

## Findings

| source | as written | input that shows it | evidently intended | confidence | as-written member | corrected member |
|---|---|---|---|---|---|---|
| script.js:128 | the completion message shows 4 · pointsInside / totalPoints | run with two points inside, lower the target below the number of inside points (to 1), let one frame pass: the message shows 8 | 4 · pointsInside / currentPoints, the estimate shown while running (script.js:104-107) | medium, not executed | Statistics.CompletionEstimateExceedsFour | Statistics.CompletionEstimate |

Once the count has reached the target, the two estimates agree exactly
when the target is positive and either the run stopped at it or no point
is inside (`Statistics.CompletionEstimatesAgreeExactly`). They differ when
the target was lowered below the count mid-run and at least one point is
inside, and for every zero target: the message as written then shows NaN
or Infinity. A fresh run with target 0 completes at once with no points,
the message shows NaN (0 / 0) and the corrected estimate is 0
(`Statistics.ZeroTargetEstimatesDiffer`).
`Statistics.CompletionEstimateAsWritten` is the as-written formula used by
the counterexample.

## Left out

- Rendering: `setup`, the canvas, square, circle and point drawing in
  `draw`, and the drawing in `showCompletionMessage`. These are graphics
  side effects. Only the completion message's estimate is modelled.
- DOM and widget code: `updateStats`' element updates, `toFixed`,
  `toLocaleString`, `updatePauseButton`, the `speedLabels` display, and the
  listener registration in `initializeUI`. These are presentation. The
  statistics are pure functions of the state, so evaluating them after a
  tick is the same as the program's `updateStats` call inside the tick.
- `keyPressed`: event dispatch that only calls `togglePause` and
  `resetSimulation`, which are modelled.
- p5's `loop()`, which `resetSimulation` calls (script.js:159). It only
  (re)starts frame scheduling, and nothing in the program stops it, so it
  does not touch the state. `Runs.Run` takes the frames as a sequence.
- The random source `random(width)` / `random(height)`. Its distribution is
  not modelled. Draws are caller-supplied.
- Sampler.Tick: requires at least one batch size of draws. The program's
  random source never runs out.
- The absolute error `|Math.PI − estimate|`: a display figure, left out.
- IEEE double arithmetic: the statistics are exact rationals instead.
- `parseInt` of the slider strings. The setters take an already-parsed
  `nat` target and a level of the slider's range 1..5.
