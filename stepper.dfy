/** The fixed-cadence stepper of TraciController.Update: frame times are
    accumulated, and once the total is strictly above one second a single
    simulation step is requested and the total is reset to zero. The frame
    rate of the host does not change the step rate. */
module Stepper {

  /** Accumulated time, in seconds, that must be exceeded before a step. */
  const Period: real := 1.0

  /** The accumulated time after one frame, and whether a step was issued. */
  datatype Tick = Tick(elapsed: real, fired: bool)

  /** One frame of `deltaTime` seconds. */
  function Advance(elapsed: real, deltaTime: real): (t: Tick)
    ensures t.fired <==> elapsed + deltaTime > Period
    ensures t.fired ==> t.elapsed == 0.0
    ensures t.elapsed <= Period
    ensures 0.0 <= elapsed && 0.0 <= deltaTime ==> 0.0 <= t.elapsed
  {
    var total := elapsed + deltaTime;
    if total > Period then Tick(0.0, true) else Tick(total, false)
  }

  /** Total of the frame times. */
  function Sum(ds: seq<real>): real
    decreases |ds|
  {
    if ds == [] then 0.0 else ds[0] + Sum(ds[1..])
  }

  /** The accumulated time after a run of frames, and the steps it issued. */
  datatype Run = Run(elapsed: real, steps: nat)

  function RunFrames(elapsed: real, ds: seq<real>): Run
    decreases |ds|
  {
    if ds == [] then Run(elapsed, 0)
    else
      var t := Advance(elapsed, ds[0]);
      var rest := RunFrames(t.elapsed, ds[1..]);
      Run(rest.elapsed, rest.steps + if t.fired then 1 else 0)
  }

  /** With non-negative frame times the accumulated time stays in [0, 1]. */
  lemma {:induction false} RunStaysInWindow(elapsed: real, ds: seq<real>)
    requires 0.0 <= elapsed <= Period
    requires forall k :: 0 <= k < |ds| ==> 0.0 <= ds[k]
    ensures 0.0 <= RunFrames(elapsed, ds).elapsed <= Period
    decreases |ds|
  {
    if ds != [] {
      RunStaysInWindow(Advance(elapsed, ds[0]).elapsed, ds[1..]);
    }
  }

  /** At most one step per second of accumulated time: each step uses up
      strictly more than one second. */
  lemma {:induction false} RunAtMostOneStepPerPeriod(elapsed: real, ds: seq<real>)
    requires 0.0 <= elapsed <= Period
    requires forall k :: 0 <= k < |ds| ==> 0.0 <= ds[k]
    ensures var r := RunFrames(elapsed, ds);
            (r.steps as real) * Period + r.elapsed <= elapsed + Sum(ds)
    decreases |ds|
  {
    if ds != [] {
      RunAtMostOneStepPerPeriod(Advance(elapsed, ds[0]).elapsed, ds[1..]);
    }
  }

  /** When no single frame is longer than a second, at least one step per two
      seconds of accumulated time: a step never uses up more than two. */
  lemma {:induction false} RunAtLeastOneStepPerTwoPeriods(elapsed: real, ds: seq<real>)
    requires 0.0 <= elapsed <= Period
    requires forall k :: 0 <= k < |ds| ==> 0.0 <= ds[k] <= Period
    ensures var r := RunFrames(elapsed, ds);
            elapsed + Sum(ds) <= (r.steps as real) * 2.0 * Period + r.elapsed
    decreases |ds|
  {
    if ds != [] {
      RunAtLeastOneStepPerTwoPeriods(Advance(elapsed, ds[0]).elapsed, ds[1..]);
    }
  }

  /** Frames of 0.4 s from zero: no step after two frames, one step after
      the third (1.2 > 1), and the accumulator is back at zero. */
  lemma ThreeFramesExample()
    ensures RunFrames(0.0, [0.4, 0.4]) == Run(0.8, 0)
    ensures RunFrames(0.0, [0.4, 0.4, 0.4]) == Run(0.0, 1)
  {
    assert [0.4, 0.4, 0.4][1..] == [0.4, 0.4];
    assert [0.4, 0.4][1..] == [0.4];
  }

  /** Exactly one second accumulated does not step: the test is strict. */
  lemma ExactlyOnePeriodDoesNotStep()
    ensures Advance(0.5, 0.5) == Tick(1.0, false)
    ensures Advance(1.0, 0.001).fired
  {
  }
}
