/**
 * The styles the button derives from the current phase and the position of
 * the phase's timing animation. Colours are kept as the hue / saturation /
 * value triple handed to the colour conversion, or as plain white.
 */
module Styles {
  import opened Phases
  import opened Sequencer
  import opened Timing

  /** A colour: plain white, or an HSV triple (hue in degrees, saturation and value in [0, 1]). */
  datatype Color = White | Hsv(hue: real, saturation: real, value: real)

  const Hue: real := 160.0
  const Green: Color := Hsv(Hue, 0.79, 0.79)

  /** Two colours that render the same: an HSV triple with saturation 0 and value 1 is white. */
  predicate Looks(c: Color, d: Color)
  {
    Whitish(c) == Whitish(d) && (!Whitish(c) ==> c == d)
  }

  predicate Whitish(c: Color)
  {
    c.White? || (c.saturation == 0.0 && c.value == 1.0)
  }

  predicate InUnit(p: real)
  {
    0.0 <= p <= 1.0
  }

  /** Every HSV triple the button produces has the button's hue and components in [0, 1]. */
  predicate WellFormed(c: Color)
  {
    c.Hsv? ==> c.hue == Hue && 0.0 <= c.saturation <= 1.0 && 0.0 <= c.value <= 1.0
  }

  /**
   * The button's background: white while idle, filling from white to green
   * during `fill`, green while waiting, fading back to white while shrinking,
   * white when done.
   */
  function BackgroundColor(ph: Phase, p: real): (c: Color)
    ensures InUnit(p) ==> WellFormed(c)
    ensures c.White? <==> ph == Idle || ph == Done
  {
    match ph
    case Idle => White
    case Fill => Hsv(Hue, p * 0.79, 1.0 - p * 0.21)
    case Wait => Green
    case Shrink => Hsv(Hue, 0.79 * (1.0 - p), 0.79 + p * 0.21)
    case Done => White
  }

  /**
   * The title's colour: green while idle, fading to white during `fill`,
   * white from then on.
   */
  function ForegroundColor(ph: Phase, p: real): (c: Color)
    ensures InUnit(p) ==> WellFormed(c)
    ensures c.White? <==> ph == Wait || ph == Shrink || ph == Done
  {
    match ph
    case Idle => Green
    case Fill => Hsv(Hue, 0.79 * (1.0 - p), 0.79 + p * 0.21)
    case Wait => White
    case Shrink => White
    case Done => White
  }

  /** The button's width: 160 until it shrinks to 50 during `shrink`. */
  function Width(ph: Phase, p: real): (w: real)
    ensures InUnit(p) ==> 50.0 <= w <= 160.0
    ensures w != 160.0 ==> ph == Shrink || ph == Done
  {
    match ph
    case Idle => 160.0
    case Fill => 160.0
    case Wait => 160.0
    case Shrink => if 160.0 * (1.0 - p) < 50.0 then 50.0 else 160.0 * (1.0 - p)
    case Done => 50.0
  }

  /** The title's opacity: 1 until it fades out in the first half of `shrink`. */
  function Opacity(ph: Phase, p: real): (o: real)
    ensures InUnit(p) ==> InUnit(o)
    ensures o != 1.0 ==> ph == Shrink || ph == Done
  {
    match ph
    case Idle => 1.0
    case Fill => 1.0
    case Wait => 1.0
    case Shrink => if 1.0 - 2.0 * p < 0.0 then 0.0 else 1.0 - 2.0 * p
    case Done => 0.0
  }

  /** The check mark's opacity: it fades in with the position during `done` and is hidden before. */
  function CheckOpacity(ph: Phase, p: real): (o: real)
    ensures InUnit(p) ==> InUnit(o)
    ensures o != 0.0 ==> ph == Done
  {
    if ph == Done then p else 0.0
  }

  /** All five derived style values of one frame. */
  datatype Look = Look(background: Color, foreground: Color, width: real, opacity: real, check: real)

  function Style(ph: Phase, p: real): (l: Look)
  {
    Look(BackgroundColor(ph, p), ForegroundColor(ph, p), Width(ph, p), Opacity(ph, p), CheckOpacity(ph, p))
  }

  predicate SameLook(a: Look, b: Look)
  {
    Looks(a.background, b.background) && Looks(a.foreground, b.foreground)
    && a.width == b.width && a.opacity == b.opacity && a.check == b.check
  }

  // ---------------------------------------------------------------------------
  // Properties

  /**
   * The check mark appears only in `done` and then shows the position exactly,
   * so it fades in as the last phase runs.
   */
  lemma CheckOpacityIffDone(ph: Phase, p: real)
    requires p != 0.0
    ensures CheckOpacity(ph, p) == p <==> ph == Done
  {
  }

  /** The title and the check mark are never visible at the same time. */
  lemma TitleAndCheckExclusive(ph: Phase, p: real)
    ensures Opacity(ph, p) == 0.0 || CheckOpacity(ph, p) == 0.0
  {
  }

  /**
   * No visual jump at a phase boundary: the look at the end of a phase is the
   * look at the start of the next one (position 0). A timed phase ends at
   * position 1; `idle` has no timing step and keeps position 0.
   */
  lemma ContinuousAtBoundary(ph: Phase)
    requires ph != Done
    ensures SameLook(Style(ph, if ph == Idle then 0.0 else 1.0), Style(Next(ph), 0.0))
  {
  }

  /** (ph1, p1) comes no later than (ph2, p2) in the course of the animation. */
  predicate NoLater(ph1: Phase, p1: real, ph2: Phase, p2: real)
  {
    Index(ph1) < Index(ph2) || (ph1 == ph2 && p1 <= p2)
  }

  /** One frame never moves the animation backwards in the (phase, position) order. */
  lemma StepNoLater(s: State, g: GestureState, dt: nat)
    requires Consistent(s)
    ensures NoLater(s.phase, s.position, Step(s, g, dt).phase, Step(s, g, dt).position)
  {
    var s' := Step(s, g, dt);
    StepPhaseForward(s, g, dt);
    StepConsistent(s, g, dt);
    if s'.phase == s.phase && s.phase != Idle {
      var m := RunTiming(Trigger(Elapse(s, dt), g));
      ProgressMonotone(s.frameTime, m.frameTime, TimingConfig(s.phase).value.duration);
    }
  }

  /** Any run of frames moves the animation forward in the (phase, position) order. */
  lemma {:induction false} RunNoLater(s: State, frames: seq<Frame>)
    requires Consistent(s)
    ensures NoLater(s.phase, s.position, Run(s, frames).phase, Run(s, frames).position)
    decreases |frames|
  {
    if frames != [] {
      var s' := Step(s, frames[0].gesture, frames[0].dt);
      StepNoLater(s, frames[0].gesture, frames[0].dt);
      StepConsistent(s, frames[0].gesture, frames[0].dt);
      RunNoLater(s', frames[1..]);
    }
  }

  /**
   * Over any run of frames the button only narrows, the title only fades and
   * the check mark only brightens.
   */
  lemma RunStylesMonotone(s: State, frames: seq<Frame>)
    requires Consistent(s)
    ensures Width(Run(s, frames).phase, Run(s, frames).position) <= Width(s.phase, s.position)
    ensures Opacity(Run(s, frames).phase, Run(s, frames).position) <= Opacity(s.phase, s.position)
    ensures CheckOpacity(s.phase, s.position) <= CheckOpacity(Run(s, frames).phase, Run(s, frames).position)
  {
    var r := Run(s, frames);
    RunConsistent(s, frames);
    RunNoLater(s, frames);
    WidthNonincreasing(s.phase, s.position, r.phase, r.position);
    OpacityNonincreasing(s.phase, s.position, r.phase, r.position);
    CheckOpacityNondecreasing(s.phase, s.position, r.phase, r.position);
  }

  /** Along the (phase, position) order the button only narrows. */
  lemma WidthNonincreasing(ph1: Phase, p1: real, ph2: Phase, p2: real)
    requires InUnit(p1) && InUnit(p2) && NoLater(ph1, p1, ph2, p2)
    ensures Width(ph2, p2) <= Width(ph1, p1)
  {
  }

  /** Along the (phase, position) order the title only fades. */
  lemma OpacityNonincreasing(ph1: Phase, p1: real, ph2: Phase, p2: real)
    requires InUnit(p1) && InUnit(p2) && NoLater(ph1, p1, ph2, p2)
    ensures Opacity(ph2, p2) <= Opacity(ph1, p1)
  {
  }

  /** Along the (phase, position) order the check mark only brightens. */
  lemma CheckOpacityNondecreasing(ph1: Phase, p1: real, ph2: Phase, p2: real)
    requires InUnit(p1) && InUnit(p2) && NoLater(ph1, p1, ph2, p2)
    ensures CheckOpacity(ph1, p1) <= CheckOpacity(ph2, p2)
  {
  }

  /**
   * What the sequencer's state shows: the position is always a valid
   * argument, so every style stays in range in every reachable state.
   */
  lemma StylesInRange(s: State)
    requires Consistent(s)
    ensures WellFormed(BackgroundColor(s.phase, s.position))
    ensures WellFormed(ForegroundColor(s.phase, s.position))
    ensures 50.0 <= Width(s.phase, s.position) <= 160.0
    ensures InUnit(Opacity(s.phase, s.position)) && InUnit(CheckOpacity(s.phase, s.position))
  {
  }

  /**
   * Once `done` has finished, the button shows its final look: narrowed to
   * 50, the title hidden, white, and the check mark fully visible.
   */
  lemma FinalLook(s: State)
    requires Consistent(s) && s.finished
    ensures Style(s.phase, s.position) == Look(White, White, 50.0, 0.0, 1.0)
  {
  }
}
