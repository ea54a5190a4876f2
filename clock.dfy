/**
 * Simulated clock of the traffic simulation: every simulation step advances
 * the simulated time by a fixed step, and a tick carrying the new time is
 * published on the fan-out `clock_tick` exchange whenever the whole-second
 * part of the time has grown.
 *
 * Times are the simulator's float seconds, modelled as exact reals; the
 * exchange is modelled as the log of the times published on it.
 */
module Clock {

  /** Python's `int(x)` on a float: truncation toward zero. */
  function Trunc(x: real): (r: int)
    ensures x >= 0.0 ==> r as real <= x < r as real + 1.0
    ensures x < 0.0 ==> r as real - 1.0 < x <= r as real
  {
    if x >= 0.0 then x.Floor else -((-x).Floor)
  }

  /** A step from `before` to `after` begins a new whole second. */
  predicate Crosses(before: real, after: real)
  {
    after.Floor > before.Floor
  }

  /** Simulated time after `k` steps of size `step`. */
  function TimeAt(step: real, k: nat): real
  {
    k as real * step
  }

  /** The times published by the first `k` steps: one per step that begins a new second. */
  function PublishedTimes(step: real, k: nat): (ticks: seq<real>)
    ensures |ticks| <= k
  {
    if k == 0 then []
    else
      var tick := if Crosses(TimeAt(step, k - 1), TimeAt(step, k)) then [TimeAt(step, k)] else [];
      PublishedTimes(step, k - 1) + tick
  }

  /** One step advances the time by exactly `step`. */
  lemma TimeAtNext(step: real, k: nat)
    ensures TimeAt(step, k + 1) == TimeAt(step, k) + step
  {
  }

  /** With steps of at most one second, the number of ticks is the number of whole seconds elapsed. */
  lemma {:induction false} SmallStepTickCount(step: real, k: nat)
    requires 0.0 < step <= 1.0
    ensures |PublishedTimes(step, k)| == TimeAt(step, k).Floor
  {
    if k > 0 {
      SmallStepTickCount(step, k - 1);
      TimeAtNext(step, k - 1);
      var before := TimeAt(step, k - 1);
      assert 0.0 <= before;
      assert TimeAt(step, k).Floor <= before.Floor + 1;
    }
  }

  /** With steps of at least one second, every step publishes. */
  lemma {:induction false} LargeStepTickCount(step: real, k: nat)
    requires step >= 1.0
    ensures |PublishedTimes(step, k)| == k
  {
    if k > 0 {
      LargeStepTickCount(step, k - 1);
      TimeAtNext(step, k - 1);
      assert Crosses(TimeAt(step, k - 1), TimeAt(step, k));
    }
  }

  /**
   * Whatever the step, there is at most one tick per whole second elapsed,
   * ticks announce strictly later seconds, every tick is a time the clock
   * reached, and the latest tick announces the current second.
   */
  lemma {:induction false} TickFacts(step: real, k: nat)
    requires step > 0.0
    ensures var ticks := PublishedTimes(step, k);
      && |ticks| <= TimeAt(step, k).Floor
      && (forall i, j :: 0 <= i < j < |ticks| ==> ticks[i].Floor < ticks[j].Floor)
      && (forall i :: 0 <= i < |ticks| ==> 1.0 <= ticks[i] <= TimeAt(step, k))
      && (ticks != [] ==> ticks[|ticks| - 1].Floor == TimeAt(step, k).Floor)
      && (ticks == [] ==> TimeAt(step, k).Floor == 0)
  {
    if k > 0 {
      TickFacts(step, k - 1);
      TimeAtNext(step, k - 1);
      var prev := PublishedTimes(step, k - 1);
      var before, after := TimeAt(step, k - 1), TimeAt(step, k);
      assert 0.0 <= before < after;
      assert before.Floor <= after.Floor;
      if Crosses(before, after) {
        assert PublishedTimes(step, k) == prev + [after];
        assert 1.0 <= after;
      } else {
        assert PublishedTimes(step, k) == prev;
      }
    }
  }

  /** With a step longer than a second, once k × (step - 1) reaches one second the ticks fall behind the seconds elapsed. */
  lemma LargeStepFallsBehind(step: real, k: nat)
    requires step > 1.0
    requires k as real * (step - 1.0) >= 1.0
    ensures |PublishedTimes(step, k)| < TimeAt(step, k).Floor
  {
  }

  /** The ticks count the whole seconds elapsed after every number of steps exactly when the step is at most one second. */
  lemma TickCountIsSecondsIff(step: real)
    requires step > 0.0
    ensures (forall k: nat :: |PublishedTimes(step, k)| == TimeAt(step, k).Floor) <==> step <= 1.0
  {
    if step <= 1.0 {
      forall k: nat
        ensures |PublishedTimes(step, k)| == TimeAt(step, k).Floor
      {
        SmallStepTickCount(step, k);
      }
    } else {
      var q := 1.0 / (step - 1.0);
      var k: nat := q.Floor + 1;
      assert q * (step - 1.0) == 1.0;
      assert k as real > q;
      assert k as real * (step - 1.0) >= q * (step - 1.0);
      LargeStepFallsBehind(step, k);
    }
  }

  /** A single step across several seconds still publishes one tick. */
  lemma MultiSecondStepTicksOnce()
    ensures PublishedTimes(2.5, 1) == [2.5]
    ensures TimeAt(2.5, 1).Floor == 2
  {
  }

  /** Time authority of the simulation. */
  class ClockGenerator {
    const simulationTimeStep: real
    var numSimulationSteps: nat
    var currentSimTime: real
    /** Every payload published on the `clock_tick` exchange, oldest first. */
    var published: seq<real>

    /** The time is steps times step size, and the log holds one tick per second-starting step. */
    ghost predicate Valid()
      reads this
    {
      && simulationTimeStep > 0.0
      && currentSimTime == TimeAt(simulationTimeStep, numSimulationSteps)
      && published == PublishedTimes(simulationTimeStep, numSimulationSteps)
    }

    constructor (simulationTimeStep: real)
      requires simulationTimeStep > 0.0
      ensures this.simulationTimeStep == simulationTimeStep
      ensures numSimulationSteps == 0 && currentSimTime == 0.0 && published == []
      ensures Valid()
    {
      this.simulationTimeStep := simulationTimeStep;
      numSimulationSteps := 0;
      currentSimTime := 0.0;
      published := [];
    }

    /** Advances one simulation step and publishes the new time if a new second began. */
    method ClockTick()
      requires Valid()
      modifies this
      ensures numSimulationSteps == old(numSimulationSteps) + 1
      ensures currentSimTime == old(currentSimTime) + simulationTimeStep
      ensures published == old(published) +
        (if Crosses(old(currentSimTime), currentSimTime) then [currentSimTime] else [])
      ensures Valid()
    {
      TimeAtNext(simulationTimeStep, numSimulationSteps);
      numSimulationSteps := numSimulationSteps + 1;
      var oldSimTimeSeconds := Trunc(currentSimTime);
      currentSimTime := currentSimTime + simulationTimeStep;
      if Trunc(currentSimTime) > oldSimTimeSeconds {
        published := published + [currentSimTime];
      }
    }
  }

  /** Three one-second steps publish 1.0, 2.0 and 3.0. */
  method UnitStepScenario() returns (ticks: seq<real>)
    ensures ticks == [1.0, 2.0, 3.0]
  {
    var clock := new ClockGenerator(1.0);
    clock.ClockTick();
    clock.ClockTick();
    clock.ClockTick();
    ticks := clock.published;
  }

  /** Four 0.3-second steps publish once, at the fourth step, with time 1.2. */
  method FractionalStepScenario() returns (ticks: seq<real>)
    ensures ticks == [1.2]
  {
    var clock := new ClockGenerator(0.3);
    clock.ClockTick();
    clock.ClockTick();
    clock.ClockTick();
    clock.ClockTick();
    ticks := clock.published;
  }
}
