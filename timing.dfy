/**
 * The animation library's timing step, abstracted: the progress of a phase
 * as a function of the milliseconds that have elapsed in it.
 */
module Timing {

  /**
   * The easing curve: a cubic ease-in, monotone on [0, 1] with Ease(0) == 0
   * and Ease(1) == 1.
   */
  function Ease(t: real): (e: real)
    ensures t == 0.0 ==> e == 0.0
    ensures t == 1.0 ==> e == 1.0
    ensures 0.0 <= t ==> 0.0 <= e
  {
    assert 0.0 <= t ==> 0.0 <= t * t * t by {
      if 0.0 <= t {
        assert 0.0 <= t * t;
        assert 0.0 <= (t * t) * t;
      }
    }
    t * t * t
  }

  lemma EaseBounds(t: real)
    requires 0.0 <= t <= 1.0
    ensures 0.0 <= Ease(t) <= 1.0
    ensures Ease(t) == 1.0 <==> t == 1.0
    ensures Ease(0.0) == 0.0
  {
    assert 0.0 <= t * t <= t;
    assert t * t * t <= t * t;
    if t < 1.0 {
      assert t * t * t < 1.0;
    }
  }

  lemma EaseMonotone(t: real, u: real)
    requires 0.0 <= t <= u
    ensures Ease(t) <= Ease(u)
  {
    assert t * t <= t * u <= u * u;
    assert t * t * t <= u * u * t <= u * u * u;
  }

  lemma FractionBelowOne(elapsed: nat, duration: nat)
    requires elapsed < duration
    ensures 0.0 <= elapsed as real / duration as real < 1.0
  {
    var t := elapsed as real / duration as real;
    assert t * duration as real == elapsed as real;
  }

  /**
   * The position a timing animation reports after `elapsed` ms of a
   * `duration`-ms run: the target value 1 once the duration is reached,
   * the eased fraction of the duration before that.
   */
  function Progress(elapsed: nat, duration: nat): (p: real)
    requires duration > 0
    ensures 0.0 <= p <= 1.0
    ensures p == 1.0 <==> elapsed >= duration
    ensures elapsed == 0 ==> p == 0.0
  {
    if elapsed >= duration then 1.0
    else
      var t := elapsed as real / duration as real;
      FractionBelowOne(elapsed, duration);
      EaseBounds(t);
      Ease(t)
  }

  /** Progress never goes back while time moves forward. */
  lemma ProgressMonotone(e1: nat, e2: nat, duration: nat)
    requires duration > 0 && e1 <= e2
    ensures Progress(e1, duration) <= Progress(e2, duration)
  {
    if e2 < duration {
      var d := duration as real;
      assert e1 as real / d <= e2 as real / d by {
        assert e1 as real / d * d == e1 as real;
        assert e2 as real / d * d == e2 as real;
      }
      FractionBelowOne(e1, duration);
      EaseMonotone(e1 as real / d, e2 as real / d);
    }
  }
}
