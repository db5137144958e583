/**
 * The per-frame phase sequencer of the stateful button. Each frame runs three
 * blocks in a fixed order: the press trigger, the timing step of the current
 * phase, and the finish / advance / reset block.
 *
 * The pure functions below (Trigger, TimingStep, RunTiming, Advance, Step)
 * specify one frame on a State value; the class Animation holds the same
 * state in mutable fields and its Tick method is proved to perform Step.
 */
module Sequencer {
  import opened Wrappers
  import opened Phases
  import opened Timing

  /** The states a gesture recognizer reports, plus `Unset` before any event. */
  datatype GestureState = Unset | Undetermined | Failed | Began | Cancelled | Active | End

  /**
   * Everything one frame reads and writes: the phase, the timing record
   * (finished, position, time, frameTime) and the clock (whether it runs and
   * its current reading, in ms).
   */
  datatype State = State(
    phase: Phase,
    finished: bool,
    position: real,
    time: nat,
    frameTime: nat,
    running: bool,
    clock: nat)

  /**
   * The state the component starts in: idle, timing record zero, clock
   * stopped at the frame timestamp `start`.
   */
  function Initial(start: nat): State
  {
    State(Idle, false, 0.0, 0, 0, false, start)
  }

  /** The timing record never refers to a clock reading from the future. */
  predicate WellTimed(s: State)
  {
    s.time <= s.clock
  }

  /**
   * The invariant every frame re-establishes.
   * - the clock reads a positive timestamp, so a recorded reading is never 0;
   * - in `idle` the clock is stopped and the timing record is zero;
   * - elsewhere the position is the progress of the phase's elapsed time;
   * - `finished` survives a frame only in `done`, with the clock stopped;
   * - an unfinished phase past `idle` has its clock running.
   */
  predicate Consistent(s: State)
  {
    && WellTimed(s) && s.clock > 0
    && (s.phase == Idle ==>
          !s.running && !s.finished && s.position == 0.0 && s.time == 0 && s.frameTime == 0)
    && (s.phase != Idle ==>
          s.position == Progress(s.frameTime, TimingConfig(s.phase).value.duration))
    && (s.finished ==>
          s.phase == Done && !s.running && s.time == s.clock
          && s.frameTime >= TimingConfig(Done).value.duration)
    && (s.phase != Idle && !s.finished ==>
          s.running && s.frameTime < TimingConfig(s.phase).value.duration
          && (s.time == 0 || s.time == s.clock))
  }

  lemma InitialConsistent(start: nat)
    requires start > 0
    ensures Consistent(Initial(start))
  {
  }

  /** The host advances a running clock by the frame's elapsed milliseconds. */
  function Elapse(s: State, dt: nat): (r: State)
    ensures r.clock == if s.running then s.clock + dt else s.clock
    ensures r.(clock := s.clock) == s
  {
    if s.running then s.(clock := s.clock + dt) else s
  }

  /**
   * The trigger block: a press that begins while idle starts the clock and
   * enters `fill`; in every other case nothing changes.
   */
  function Trigger(s: State, g: GestureState): (r: State)
    ensures r.phase != s.phase <==> s.phase == Idle && g == Began
    ensures r.phase != s.phase ==> r.phase == Fill && r.running && r.(phase := Idle, running := s.running) == s
    ensures r.phase == s.phase ==> r == s
  {
    if s.phase == Idle && g == Began then s.(running := true, phase := Fill) else s
  }

  /**
   * One step of the timing animation configured with `c`. The elapsed time
   * grows by the distance from the last reading to the current one (none on
   * the first step after a reset, when `time` is 0); once it reaches the
   * duration, the position is the target 1 and `finished` is raised.
   */
  function TimingStep(s: State, c: Config): (r: State)
    requires c.duration > 0 && WellTimed(s)
    ensures r.phase == s.phase && r.running == s.running && r.clock == s.clock
    ensures r.time == s.clock && WellTimed(r)
    ensures s.time != 0 ==> r.frameTime == s.frameTime + (s.clock - s.time)
    ensures s.time == 0 ==> r.frameTime == s.frameTime
    ensures r.finished == (s.finished || r.frameTime >= c.duration)
    ensures 0.0 <= r.position <= 1.0
    ensures r.position == 1.0 <==> r.frameTime >= c.duration
  {
    var lastTime := if s.time != 0 then s.time else s.clock;
    var frameTime := s.frameTime + (s.clock - lastTime);
    var s' := s.(frameTime := frameTime, time := s.clock, position := Progress(frameTime, c.duration));
    if frameTime >= c.duration then s'.(finished := true) else s'
  }

  /** The timing block: the timing step of the current phase, none in `idle`. */
  function RunTiming(s: State): (r: State)
    requires WellTimed(s)
    ensures s.phase == Idle ==> r == s
    ensures s.phase != Idle ==> r == TimingStep(s, TimingConfig(s.phase).value)
  {
    match TimingConfig(s.phase)
    case None => s
    case Some(c) => TimingStep(s, c)
  }

  /**
   * The finish block: when the timing animation has finished, stop the
   * clock; unless in `done`, zero the timing record and restart the clock;
   * then move to the next phase, never past `done`.
   */
  function Advance(s: State): (r: State)
    ensures !s.finished ==> r == s
    ensures s.finished ==> Index(r.phase) == Min(Index(s.phase) + 1, Index(Done))
    ensures s.finished && s.phase != Done ==>
              r == State(Next(s.phase), false, 0.0, 0, 0, true, s.clock)
    ensures s.finished && s.phase == Done ==> r == s.(running := false)
  {
    if s.finished then
      var stopped := s.(running := false);
      var reset :=
        if s.phase != Done
        then stopped.(finished := false, position := 0.0, time := 0, frameTime := 0, running := true)
        else stopped;
      reset.(phase := Next(s.phase))
    else s
  }

  /** One frame: the clock advances by `dt`, then trigger, timing and finish run in order. */
  function Step(s: State, g: GestureState, dt: nat): (r: State)
    requires WellTimed(s)
    ensures WellTimed(r)
    ensures r.clock == Elapse(s, dt).clock
  {
    Advance(RunTiming(Trigger(Elapse(s, dt), g)))
  }

  /** What the host feeds to one frame: the gesture state and the elapsed ms. */
  datatype Frame = Frame(gesture: GestureState, dt: nat)

  /** The state after a sequence of frames. */
  function Run(s: State, frames: seq<Frame>): (r: State)
    requires WellTimed(s)
    ensures WellTimed(r)
    decreases |frames|
  {
    if frames == [] then s else Run(Step(s, frames[0].gesture, frames[0].dt), frames[1..])
  }

  // ---------------------------------------------------------------------------
  // Properties of one frame

  /** Every frame keeps the invariant. */
  lemma StepConsistent(s: State, g: GestureState, dt: nat)
    requires Consistent(s)
    ensures Consistent(Step(s, g, dt))
  {
    var e := Elapse(s, dt);
    var t := Trigger(e, g);
    var m := RunTiming(t);
    if t.phase != Idle {
      var d := TimingConfig(t.phase).value.duration;
      assert m.position == Progress(m.frameTime, d);
      if !m.finished {
        assert m.running;
      } else if t.phase != Done {
        assert Advance(m).position == Progress(0, TimingConfig(Next(t.phase)).value.duration);
      }
    }
  }

  /**
   * The phase leaves `idle` only for a press that begins, and it then enters
   * `fill` with the clock running; a press seen in any other phase is ignored.
   */
  lemma StepLeavesIdleOnlyOnBegan(s: State, g: GestureState, dt: nat)
    requires Consistent(s) && s.phase == Idle
    ensures Step(s, g, dt).phase != Idle <==> g == Began
    ensures g == Began ==> Step(s, g, dt).phase == Fill && Step(s, g, dt).running
    ensures g != Began ==> Step(s, g, dt) == s
  {
    var t := Trigger(Elapse(s, dt), g);
    if g == Began {
      assert RunTiming(t).frameTime == 0;
    }
  }

  /** Outside `idle` the gesture has no effect at all: a second press changes nothing. */
  lemma GestureIgnoredOutsideIdle(s: State, g1: GestureState, g2: GestureState, dt: nat)
    requires WellTimed(s) && s.phase != Idle
    ensures Step(s, g1, dt) == Step(s, g2, dt)
  {
  }

  /** Within one frame the phase never goes back and moves at most one step. */
  lemma StepPhaseForward(s: State, g: GestureState, dt: nat)
    requires Consistent(s)
    ensures Index(s.phase) <= Index(Step(s, g, dt).phase) <= Index(s.phase) + 1
  {
    var t := Trigger(Elapse(s, dt), g);
    if s.phase == Idle && g == Began {
      assert RunTiming(t).frameTime == 0;
    }
  }

  /**
   * A frame in which an unfinished phase before `done` reaches its duration
   * ends in the next phase, with the timing record zeroed and the clock
   * running again.
   */
  lemma StepAtPhaseBoundary(s: State, g: GestureState, dt: nat)
    requires Consistent(s) && s.phase != Idle && s.phase != Done
    requires RunTiming(Elapse(s, dt)).finished
    ensures Step(s, g, dt) == State(Next(s.phase), false, 0.0, 0, 0, true, s.clock + dt)
  {
  }

  /**
   * Once `done` has finished, every further frame leaves the state exactly as
   * it is: the phase stays `done`, the clock stays stopped and the timing
   * record keeps its final values.
   */
  lemma StepTerminal(s: State, g: GestureState, dt: nat)
    requires Consistent(s) && s.finished
    ensures Step(s, g, dt) == s
  {
  }

  // ---------------------------------------------------------------------------
  // Properties of runs of frames

  lemma {:induction false} RunConsistent(s: State, frames: seq<Frame>)
    requires Consistent(s)
    ensures Consistent(Run(s, frames))
    decreases |frames|
  {
    if frames != [] {
      StepConsistent(s, frames[0].gesture, frames[0].dt);
      RunConsistent(Step(s, frames[0].gesture, frames[0].dt), frames[1..]);
    }
  }

  /** Over any run the phase only moves forward. */
  lemma {:induction false} RunPhaseForward(s: State, frames: seq<Frame>)
    requires Consistent(s)
    ensures Index(s.phase) <= Index(Run(s, frames).phase)
    decreases |frames|
  {
    if frames != [] {
      var s' := Step(s, frames[0].gesture, frames[0].dt);
      StepPhaseForward(s, frames[0].gesture, frames[0].dt);
      StepConsistent(s, frames[0].gesture, frames[0].dt);
      RunPhaseForward(s', frames[1..]);
    }
  }

  /** Without a press that begins, an idle button stays exactly as it is. */
  lemma {:induction false} RunIdleWithoutPress(s: State, frames: seq<Frame>)
    requires Consistent(s) && s.phase == Idle
    requires forall i :: 0 <= i < |frames| ==> frames[i].gesture != Began
    ensures Run(s, frames) == s
    decreases |frames|
  {
    if frames != [] {
      StepLeavesIdleOnlyOnBegan(s, frames[0].gesture, frames[0].dt);
      RunIdleWithoutPress(s, frames[1..]);
    }
  }

  /** Once `done` has finished, no run of frames changes anything. */
  lemma {:induction false} RunTerminal(s: State, frames: seq<Frame>)
    requires Consistent(s) && s.finished
    ensures Run(s, frames) == s
    decreases |frames|
  {
    if frames != [] {
      StepTerminal(s, frames[0].gesture, frames[0].dt);
      RunTerminal(s, frames[1..]);
    }
  }

  /** Running `a` then `b` is running `a + b`. */
  lemma {:induction false} RunAppend(s: State, a: seq<Frame>, b: seq<Frame>)
    requires WellTimed(s)
    ensures Run(s, a + b) == Run(Run(s, a), b)
    decreases |a|
  {
    if a == [] {
      assert a + b == b;
    } else {
      assert (a + b)[0] == a[0];
      assert (a + b)[1..] == a[1..] + b;
      RunAppend(Step(s, a[0].gesture, a[0].dt), a[1..], b);
    }
  }

  // ---------------------------------------------------------------------------
  // How many frames a phase lasts

  /** Every frame of `frames` is 1 ms long. */
  predicate Millis(frames: seq<Frame>)
  {
    forall i :: 0 <= i < |frames| ==> frames[i].dt == 1
  }

  /** A timed phase that has just begun: zero record, clock running. */
  predicate Fresh(s: State)
  {
    Consistent(s) && s.phase != Idle && !s.finished && s.time == 0 && s.frameTime == 0
  }

  /** A timed phase whose record holds the current clock reading. */
  predicate Ticking(s: State)
  {
    Consistent(s) && s.phase != Idle && !s.finished && s.time == s.clock
  }

  /** The state in which the phase that was `s.phase` has just finished, `n` ms later. */
  function Completed(s: State, n: nat): State
    requires s.phase != Idle
  {
    if s.phase != Done then State(Next(s.phase), false, 0.0, 0, 0, true, s.clock + n)
    else State(Done, true, 1.0, s.clock + n, TimingConfig(Done).value.duration, false, s.clock + n)
  }

  /**
   * The first frame of a phase adds no elapsed time: it only records the
   * clock reading, from which the following frames count.
   */
  lemma FreshFirstFrame(s: State, g: GestureState, dt: nat)
    requires Fresh(s)
    ensures Step(s, g, dt) == s.(clock := s.clock + dt, time := s.clock + dt)
    ensures Ticking(Step(s, g, dt))
  {
  }

  /** Fewer 1-ms frames than the time left in a phase keep it in that phase. */
  lemma {:induction false} RunWithinPhase(s: State, frames: seq<Frame>)
    requires Ticking(s) && Millis(frames)
    requires s.frameTime + |frames| < TimingConfig(s.phase).value.duration
    ensures Run(s, frames) == s.(frameTime := s.frameTime + |frames|, time := s.clock + |frames|,
                                 clock := s.clock + |frames|,
                                 position := Progress(s.frameTime + |frames|, TimingConfig(s.phase).value.duration))
    ensures Ticking(Run(s, frames))
    decreases |frames|
  {
    if frames != [] {
      var s' := Step(s, frames[0].gesture, 1);
      assert frames[0].dt == 1;
      StepConsistent(s, frames[0].gesture, 1);
      assert Millis(frames[1..]) by {
        forall i | 0 <= i < |frames[1..]| ensures frames[1..][i].dt == 1 {
          assert frames[1..][i] == frames[i + 1];
        }
      }
      RunWithinPhase(s', frames[1..]);
    }
  }

  /** Exactly the time left in a phase, in 1-ms frames, finishes it. */
  lemma {:induction false} RunFinishesPhase(s: State, frames: seq<Frame>)
    requires Ticking(s) && Millis(frames)
    requires s.frameTime + |frames| == TimingConfig(s.phase).value.duration
    ensures Run(s, frames) == Completed(s, |frames|)
  {
    var n := |frames| - 1;
    assert frames == frames[..n] + [frames[n]];
    RunAppend(s, frames[..n], [frames[n]]);
    assert Millis(frames[..n]) by {
      forall i | 0 <= i < n ensures frames[..n][i].dt == 1 {
        assert frames[..n][i] == frames[i];
      }
    }
    RunWithinPhase(s, frames[..n]);
    var m := Run(s, frames[..n]);
    assert frames[n].dt == 1;
    assert Run(m, [frames[n]]) == Step(m, frames[n].gesture, 1);
  }

  /**
   * A timed phase lasts its duration in 1-ms frames plus one: the first frame
   * only takes the clock reading.
   */
  lemma {:induction false} PhaseLength(s: State, frames: seq<Frame>)
    requires Fresh(s) && Millis(frames)
    requires |frames| == TimingConfig(s.phase).value.duration + 1
    ensures Run(s, frames) == Completed(s, |frames|)
  {
    FreshFirstFrame(s, frames[0].gesture, 1);
    var s' := Step(s, frames[0].gesture, 1);
    assert Millis(frames[1..]) by {
      forall i | 0 <= i < |frames[1..]| ensures frames[1..][i].dt == 1 {
        assert frames[1..][i] == frames[i + 1];
      }
    }
    RunFinishesPhase(s', frames[1..]);
  }

  /** Before that many frames have passed, the phase has not moved. */
  lemma {:induction false} PhaseNotShorter(s: State, frames: seq<Frame>)
    requires Fresh(s) && Millis(frames)
    requires 0 < |frames| <= TimingConfig(s.phase).value.duration
    ensures Run(s, frames).phase == s.phase && !Run(s, frames).finished
  {
    FreshFirstFrame(s, frames[0].gesture, 1);
    assert Millis(frames[1..]) by {
      forall i | 0 <= i < |frames[1..]| ensures frames[1..][i].dt == 1 {
        assert frames[1..][i] == frames[i + 1];
      }
    }
    RunWithinPhase(Step(s, frames[0].gesture, 1), frames[1..]);
  }

  /**
   * A whole press in 1-ms frames: the press frame, then 200 ms of `fill` and
   * one extra frame for each of `wait`, `shrink` and `done`, ends with `done`
   * finished, the position at 1 and the clock stopped. That is 1800 ms of
   * configured time spread over 1804 frames.
   */
  lemma FullPress(start: nat, frames: seq<Frame>)
    requires start > 0 && Millis(frames)
    requires |frames| == 1 + RemainingDuration(Fill) + 3 && frames[0].gesture == Began
    ensures Run(Initial(start), frames).phase == Done
    ensures Run(Initial(start), frames).finished && Run(Initial(start), frames).position == 1.0
    ensures !Run(Initial(start), frames).running
  {
    FullAnimationDuration();
    var s0 := Initial(start);
    var s1 := Step(s0, Began, frames[0].dt);
    assert s1 == s0.(phase := Fill, running := true, time := start);
    assert Ticking(s1);
    // The rest of `fill`, then each later phase in full.
    var f := frames[1..201];
    var w := frames[201..802];
    var k := frames[802..1203];
    var d := frames[1203..];
    assert frames == [frames[0]] + f + w + k + d;
    assert Run(s0, [frames[0]]) == s1;
    assert Millis(f) && Millis(w) && Millis(k) && Millis(d) by {
      forall i | 0 <= i < |f| ensures f[i].dt == 1 { assert f[i] == frames[i + 1]; }
      forall i | 0 <= i < |w| ensures w[i].dt == 1 { assert w[i] == frames[i + 201]; }
      forall i | 0 <= i < |k| ensures k[i].dt == 1 { assert k[i] == frames[i + 802]; }
      forall i | 0 <= i < |d| ensures d[i].dt == 1 { assert d[i] == frames[i + 1203]; }
    }
    RunFinishesPhase(s1, f);
    var s2 := Run(s1, f);
    PhaseLength(s2, w);
    var s3 := Run(s2, w);
    PhaseLength(s3, k);
    var s4 := Run(s3, k);
    PhaseLength(s4, d);
    RunAppend(s0, [frames[0]], f);
    RunAppend(s0, [frames[0]] + f, w);
    RunAppend(s0, [frames[0]] + f + w, k);
    RunAppend(s0, [frames[0]] + f + w + k, d);
  }

  // ---------------------------------------------------------------------------
  // The mutable component state

  /**
   * The animated values the component owns: the phase value, the four values
   * of the timing record and the clock. Tick is one evaluation of the
   * animation block and returns the position it yields.
   */
  class Animation {
    var phase: Phase
    var finished: bool
    var position: real
    var time: nat
    var frameTime: nat
    var running: bool
    var clock: nat

    /** The fields as a State value. */
    function Snapshot(): State
      reads this
    {
      State(phase, finished, position, time, frameTime, running, clock)
    }

    ghost predicate Valid()
      reads this
    {
      Consistent(Snapshot())
    }

    /** A new component whose clock reads the frame timestamp `start`. */
    constructor (start: nat)
      requires start > 0
      ensures Snapshot() == Initial(start) && Valid()
    {
      phase, finished, position, time, frameTime, running, clock :=
        Idle, false, 0.0, 0, 0, false, start;
    }

    /** The timing step with the given configuration, in place. */
    method Timing(c: Config)
      requires c.duration > 0 && WellTimed(Snapshot())
      modifies this
      ensures Snapshot() == TimingStep(old(Snapshot()), c)
    {
      var lastTime := if time != 0 then time else clock;
      frameTime := frameTime + (clock - lastTime);
      time := clock;
      position := Progress(frameTime, c.duration);
      if frameTime >= c.duration {
        finished := true;
      }
    }

    /**
     * One frame: `dt` ms have elapsed since the previous one and the gesture
     * recognizer reports `gesture`.
     */
    method Tick(gesture: GestureState, dt: nat) returns (value: real)
      requires Valid()
      modifies this
      ensures Snapshot() == Step(old(Snapshot()), gesture, dt)
      ensures Valid()
      ensures value == position && 0.0 <= value <= 1.0
    {
      ghost var s := Snapshot();
      if running {
        clock := clock + dt;
      }
      // Trigger: a press that begins while idle starts the animation.
      if phase == Idle && gesture == Began {
        running := true;
        phase := Fill;
      }
      // Timing: the current phase's timing step; none while idle.
      match TimingConfig(phase) {
        case None =>
        case Some(c) => Timing(c);
      }
      // Finish: stop the clock, reset and restart it unless done, advance.
      if finished {
        running := false;
        if phase != Done {
          finished := false;
          position := 0.0;
          time := 0;
          frameTime := 0;
          running := true;
        }
        phase := Next(phase);
      }
      value := position;
      StepConsistent(s, gesture, dt);
    }
  }
}
