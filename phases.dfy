/**
 * The animation phases of the stateful button and the timing configuration
 * chosen for each of them.
 */
module Phases {
  import opened Wrappers

  /** The five stages of the animation, in the order they are visited. */
  datatype Phase = Idle | Fill | Wait | Shrink | Done

  /** The numeric code the component keeps in its animated phase value. */
  function Index(p: Phase): (n: nat)
    ensures n <= 4
    ensures n == 4 <==> p == Done
    ensures n == 0 <==> p == Idle
  {
    match p
    case Idle => 0
    case Fill => 1
    case Wait => 2
    case Shrink => 3
    case Done => 4
  }

  /** Decodes a phase code; codes outside 0..4 name no phase. */
  function FromIndex(n: int): (r: Option<Phase>)
    ensures r.Some? <==> 0 <= n <= 4
    ensures r.Some? ==> Index(r.value) == n
  {
    if n == 0 then Some(Idle)
    else if n == 1 then Some(Fill)
    else if n == 2 then Some(Wait)
    else if n == 3 then Some(Shrink)
    else if n == 4 then Some(Done)
    else None
  }

  /** Encoding then decoding a phase gives the phase back. */
  lemma IndexRoundTrip(p: Phase)
    ensures FromIndex(Index(p)) == Some(p)
  {
  }

  /** Decoding then encoding a valid code gives the code back. */
  lemma FromIndexRoundTrip(n: int)
    requires 0 <= n <= 4
    ensures FromIndex(n).Some? && Index(FromIndex(n).value) == n
  {
  }

  function Min(a: int, b: int): int
  {
    if a < b then a else b
  }

  /**
   * The phase entered when the current one finishes: the code is
   * incremented and clamped so that it never passes `done`.
   */
  function Next(p: Phase): (q: Phase)
    ensures Index(q) == if p == Done then Index(Done) else Index(p) + 1
    ensures q == p <==> p == Done
    ensures q != Idle
  {
    FromIndex(Min(Index(p) + 1, Index(Done))).value
  }

  /** The parameters of one timing animation: it runs from 0 to 1 over `duration` ms. */
  datatype Config = Config(duration: nat)

  /**
   * The timing configuration used in each phase. `idle` has none: no
   * timing step runs while the button waits for a press.
   */
  function TimingConfig(p: Phase): (c: Option<Config>)
    ensures c.None? <==> p == Idle
    ensures c.Some? ==> c.value.duration > 0
  {
    match p
    case Idle => None
    case Fill => Some(Config(200))
    case Wait => Some(Config(600))
    case Shrink => Some(Config(400))
    case Done => Some(Config(600))
  }

  /** Sum of the durations of the phases from `p` up to and including `done`. */
  function RemainingDuration(p: Phase): (ms: nat)
    decreases 4 - Index(p)
  {
    var own := match TimingConfig(p) case None => 0 case Some(c) => c.duration;
    if p == Done then own else own + RemainingDuration(Next(p))
  }

  /**
   * The configured durations of the four timed phases add up to 1800 ms.
   * (In frames a press takes a little longer: each phase after `fill` spends
   * its first frame taking a clock reading; see Sequencer.FullPress.)
   */
  lemma FullAnimationDuration()
    ensures RemainingDuration(Idle) == 1800
  {
  }
}
