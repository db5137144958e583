# Stateful button: phase-timing state machine

A Dafny model of the animation core of a press-to-confirm button
(`src/StatefulButton.js`). A press that begins starts a timed sequence of
phases: `idle → fill → wait → shrink → done`. In each phase a timing
animation takes a position from 0 to 1. The background colour, title colour,
width, title opacity and check-mark opacity are pure functions of the phase
and that position.

Each frame of the `anim` block runs three steps in a fixed order:

1. **Trigger.** When the phase is `idle` and the gesture state is `BEGAN`,
   start the clock and enter `fill`.
2. **Timing.** Run the timing step configured for the current phase. The
   durations are 200, 600, 400 and 600 ms. No step runs in `idle`.
3. **Finish.** When the step reports `finished`, stop the clock. Unless the
   phase is `done`, zero the timing record (`finished`, `position`, `time`,
   `frameTime`) and restart the clock. Then set the phase to
   `min(phase + 1, done)`.

Files:

- `wrappers.dfy`: `Option`.
- `phases.dfy`: the phase enumeration and its numeric codes, the clamped
  successor `Next`, and the per-phase timing configuration.
- `timing.dfy`: an abstraction of the animation library's timing step. It
  has an ease-in curve and `Progress`, the position after a given elapsed time.
- `sequencer.dfy`: the frame as pure functions on a `State` value
  (`Trigger`, `TimingStep`/`RunTiming`, `Advance`, `Step`, `Run`). It also
  holds the invariant `Consistent`, the lemmas about one frame and about runs
  of frames, and the class `Animation`. That class keeps the same state in
  mutable fields, and its `Tick` method is proved to perform `Step`.
- `styles.dfy`: the derived styles, with their ranges, continuity at phase
  boundaries, monotonicity over the animation and the final look.

Points where the code behaves differently from what one might expect, and which the model follows:

- On finishing, the code decides whether to reset and restart from the phase
  that just FINISHED (`neq(currentPhase, phase.done)`), not from the phase it
  enters. So finishing `shrink` does reset the timing record and restart the
  clock, and `done` then runs its own 600 ms timing step. Only finishing
  `done` skips the reset.
- After `done` finishes, the code stops the clock and does not restart it.
  It does not leave the clock running.
- Each phase after `fill` spends its first frame taking a clock reading, because the reset sets `time` to 0. So a full press in 1-ms frames takes 1800 ms of configured time but ends 1803 frames after the press frame (`FullPress`), not 1800.
- The trigger does not zero the timing record itself. The record is zero in
  `idle` because it starts at zero and `idle` is never re-entered
  (`Consistent`).

## Model

| member | source | states |
|---|---|---|
| Phases.Index | src/StatefulButton.js:37-43 | the phase codes lie in 0..4, with 0 exactly for `idle` and 4 exactly for `done` |
| Phases.IndexRoundTrip | src/StatefulButton.js:37-43 | decoding a phase's code gives back the phase, so the codes name the phases one-to-one |
| Phases.Next | src/StatefulButton.js:105 | the phase after `p` has code `min(code + 1, 4)`: one step forward, except that `done` stays `done`, and it is never `idle` |
| Phases.TimingConfig | src/StatefulButton.js:53-75 | every phase except `idle` has a timing configuration with a positive duration; `idle` has none |
| Phases.FullAnimationDuration | src/StatefulButton.js:53-75 | the configured durations of the timed phases from `fill` to `done` add up to 1800 ms |
| Timing.Ease | src/StatefulButton.js:56 | the easing curve maps 0 to 0 and 1 to 1 and is non-negative on non-negative arguments |
| Timing.EaseBounds | src/StatefulButton.js:56 | the easing curve maps [0,1] into [0,1], fixes 0 and reaches 1 only at 1 |
| Timing.EaseMonotone | src/StatefulButton.js:56 | the easing curve never decreases on non-negative arguments |
| Timing.Progress | src/StatefulButton.js:86-95 | the position of a timing step is in [0,1], is 0 at the start, and equals the target 1 exactly when the elapsed time has reached the duration |
| Timing.ProgressMonotone | src/StatefulButton.js:86-95 | within a phase the position never goes back as time advances |
| Sequencer.InitialConsistent | src/StatefulButton.js:46-51 | the initial state (idle, zero timing record, clock stopped at a positive timestamp) satisfies the frame invariant |
| Sequencer.Elapse | src/StatefulButton.js:114 | the clock reading assumed under "Left out": between frames a running clock's reading advances by the frame's elapsed time; a stopped clock's reading stays put; nothing else changes |
| Sequencer.Trigger | src/StatefulButton.js:78-85 | the phase changes iff it is `idle` and the gesture is `BEGAN`; it then becomes `fill` with the clock started, and otherwise nothing changes |
| Sequencer.TimingStep | src/StatefulButton.js:86-95 | a timing step adds the clock distance since the last reading to the elapsed time, records the reading, keeps the position in [0,1] and raises `finished` once the duration is reached; phase and clock are untouched |
| Sequencer.RunTiming | src/StatefulButton.js:86-95 | in `idle` no timing step runs; in any other phase the step uses that phase's configuration |
| Sequencer.Advance | src/StatefulButton.js:96-106 | when finished, the phase code becomes `min(code + 1, 4)`. Before `done` the record is zeroed and the clock runs again. In `done` only the clock stops. When not finished, nothing changes |
| Sequencer.Step | src/StatefulButton.js:77-108 | a frame keeps every timing reading at or before the clock and advances the clock only while it runs |
| Sequencer.StepConsistent | src/StatefulButton.js:77-108 | every frame preserves the invariant: the record is zero and the clock stopped in `idle`, the position equals the phase's progress, and `finished` persists only in `done` with the clock stopped |
| Sequencer.StepLeavesIdleOnlyOnBegan | src/StatefulButton.js:78-85 | an idle button leaves `idle` iff the gesture is `BEGAN`, entering `fill` with the clock running; any other gesture leaves it exactly unchanged |
| Sequencer.GestureIgnoredOutsideIdle | src/StatefulButton.js:78-85 | outside `idle` the frame's result does not depend on the gesture, so a second press neither changes the phase nor resets the progress |
| Sequencer.StepPhaseForward | src/StatefulButton.js:78-106 | in one frame the phase code never decreases and grows by at most one |
| Sequencer.StepAtPhaseBoundary | src/StatefulButton.js:96-104 | when a phase before `done` reaches its duration, the frame ends in the next phase with position, time, frameTime and `finished` zeroed and the clock running |
| Sequencer.StepTerminal | src/StatefulButton.js:96-105 | once `done` has finished, a frame changes nothing: the phase stays `done`, the clock stays stopped and the record is not reset |
| Sequencer.RunConsistent | src/StatefulButton.js:77-108 | the invariant holds after any sequence of frames |
| Sequencer.RunPhaseForward | src/StatefulButton.js:105 | over any sequence of frames the phase never moves backwards |
| Sequencer.RunIdleWithoutPress | src/StatefulButton.js:78-95 | without a `BEGAN` gesture an idle button stays exactly as it is, however many frames pass |
| Sequencer.RunTerminal | src/StatefulButton.js:96-105 | once `done` has finished, no sequence of frames changes the state |
| Sequencer.Run | src/StatefulButton.js:77-108 | any sequence of frames keeps every timing reading at or before the clock |
| Sequencer.RunAppend | src/StatefulButton.js:77-108 | running two sequences of frames one after the other is running their concatenation |
| Sequencer.FreshFirstFrame | src/StatefulButton.js:86-104 | the first frame of a phase after the reset adds no elapsed time, whatever its length; it only records the clock reading |
| Sequencer.RunWithinPhase | src/StatefulButton.js:86-96 | fewer 1-ms frames than the time left in a phase keep the phase, add one ms per frame to the elapsed time and set the position to its progress |
| Sequencer.RunFinishesPhase | src/StatefulButton.js:86-106 | exactly the time left in a phase, in 1-ms frames, finishes it: before `done` the next phase starts with a zero record and running clock; in `done` the clock stops with position 1 |
| Sequencer.PhaseLength | src/StatefulButton.js:53-106 | a phase that has just started finishes after its configured duration in 1-ms frames plus one |
| Sequencer.PhaseNotShorter | src/StatefulButton.js:53-106 | during its first `duration` 1-ms frames a phase neither changes nor finishes |
| Sequencer.FullPress | src/StatefulButton.js:53-108 | a press followed by 1-ms frames ends with `done` finished, position 1 and the clock stopped after 1804 frames: 1800 ms of configured time plus the press frame and one frame for each of `wait`, `shrink` and `done` |
| Sequencer.Animation.constructor | src/StatefulButton.js:46-51 | a new component is idle with a zero timing record and a stopped clock reading the given positive timestamp |
| Sequencer.Animation.Timing | src/StatefulButton.js:86-95 | the in-place timing step changes the fields exactly as `TimingStep` describes |
| Sequencer.Animation.Tick | src/StatefulButton.js:77-108 | one in-place frame changes the fields exactly as `Step` does, keeps the invariant and returns the position, which lies in [0,1] |
| Styles.BackgroundColor | src/StatefulButton.js:118-139 | the background is white exactly in `idle` and `done`; otherwise it is an HSV triple with hue 160, and for a position in [0,1] its components lie in [0,1] |
| Styles.ForegroundColor | src/StatefulButton.js:167-183 | the title colour is white exactly in `wait`, `shrink` and `done`; otherwise it is an HSV triple with hue 160, and for a position in [0,1] its components lie in [0,1] |
| Styles.Width | src/StatefulButton.js:141-152 | for a position in [0,1] the width lies in [50,160]; it differs from 160 only in `shrink` and `done` |
| Styles.Opacity | src/StatefulButton.js:154-165 | for a position in [0,1] the title opacity lies in [0,1]; it differs from 1 only in `shrink` and `done` |
| Styles.CheckOpacity | src/StatefulButton.js:197-201 | for a position in [0,1] the check-mark opacity lies in [0,1]; it is non-zero only in `done` |
| Styles.CheckOpacityIffDone | src/StatefulButton.js:197-201 | for a non-zero position the check-mark opacity equals the position iff the phase is `done` |
| Styles.TitleAndCheckExclusive | src/StatefulButton.js:154-201 | for every phase and position the title and the check mark are never both visible |
| Styles.ContinuousAtBoundary | src/StatefulButton.js:118-183 | each phase ends (position 1, or 0 in `idle`) with the look the next one starts with (position 0): same width, opacities and rendered colours |
| Styles.WidthNonincreasing | src/StatefulButton.js:141-152 | along the (phase, position) order the width never grows |
| Styles.OpacityNonincreasing | src/StatefulButton.js:154-165 | along the (phase, position) order the title opacity never grows |
| Styles.CheckOpacityNondecreasing | src/StatefulButton.js:197-201 | along the (phase, position) order the check-mark opacity never shrinks |
| Styles.StepNoLater | src/StatefulButton.js:77-108 | one frame never moves the (phase, position) pair backwards: the phase advances, or it stays and the position does not decrease |
| Styles.RunNoLater | src/StatefulButton.js:77-108 | over any run of frames the (phase, position) pair only moves forward |
| Styles.RunStylesMonotone | src/StatefulButton.js:141-201 | over any run of frames the width and title opacity never grow and the check-mark opacity never shrinks |
| Styles.StylesInRange | src/StatefulButton.js:118-201 | in every state the sequencer can be in, all derived styles are in range |
| Styles.FinalLook | src/StatefulButton.js:137-201 | after `done` finishes the button is white on white, 50 wide, with the title hidden and the check mark fully visible |

## Left out

- React component lifecycle, JSX rendering, `StyleSheet` and the layout constants (`absoluteCenter`, `styles`): these are presentation only.
- `TapGestureHandler` and the `event(...)` mapping that writes the gesture state. The gesture state is an input to each frame. Of its values only `BEGAN` matters.
- The animation library's `timing` node and `Clock` scheduling cannot be seen from this source. They are modelled as follows. The clock reading is a frame timestamp; the model assumes it is positive from the start (the component is created with a positive reading), so a recorded reading is never mistaken for "no reading yet". The clock reading advances by the frame's elapsed milliseconds while the clock runs. A timing step adds the distance from its last reading to the elapsed time, or nothing on the first step after a reset. It sets the position to the target 1 and raises `finished` once the duration is reached.
- Sequencer.StepTerminal, Sequencer.RunTerminal, Sequencer.StepLeavesIdleOnlyOnBegan, Sequencer.RunIdleWithoutPress: the model assumes a stopped clock's reading does not move. If the library's reading kept moving while stopped, evaluations after `done` finished would still change `time` and `frameTime`; the phase, position, `finished` and the stopped clock would stay as they are. In `idle` the clock is also stopped; there only the clock reading would change.
- Timing.EaseBounds: `Easing.in(Easing.ease)` is a library curve. The model uses the cubic `t³`, which shares its end points and monotonicity but not its exact shape.
- `colorHSV` and `match` from `./utils` are not part of this model. Colours are the HSV triples passed to `colorHSV`, or white for `color(255, 255, 255)`. The one property of the conversion the model relies on is that an HSV triple with saturation 0 and value 1 renders as white (`Styles.Looks`, used by `ContinuousAtBoundary`).
- Floating-point arithmetic: positions, widths and opacities are exact reals. Clock readings, `time`, `frameTime` and frame lengths are whole milliseconds (natural numbers).
- Phase codes outside 0..4 cannot occur in the model, because the phase is an enumeration. The source never stores such a code.
