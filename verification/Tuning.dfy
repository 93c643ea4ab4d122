/** Clock and voltage changes in exact arithmetic: the frequency ramp of
    main/asic_frequency_transition.c and the orders in which main/wifi_http.c (settings) and
    main/bitaxe_hw.c (auto clock) issue their commands. */
module Tuning {
  import opened Basics

  const STEP_MHZ: real := 6.25
  const EPSILON: real := 0.0001
  const MIN_MHZ: int := 1
  const MAX_MHZ: int := 1500

  function Ceil(x: real): int {
    -((-x).Floor)
  }

  // ----- the ramp

  /** Where a whole step stands. */
  function StepMhz(step: int): real {
    step as real * STEP_MHZ
  }

  function StepsUp(step: int, target: int): (r: seq<real>)
    decreases target - step
  {
    if step >= target then [] else [StepMhz(step + 1)] + StepsUp(step + 1, target)
  }

  function StepsDown(step: int, target: int): (r: seq<real>)
    decreases step - target
  {
    if step <= target then [] else [StepMhz(step - 1)] + StepsDown(step - 1, target)
  }

  /** The whole steps of a ramp, without its last command. */
  function Steps(actual: real, target: real): seq<real> {
    StepsLeft(target > actual, StepOf(actual, target > actual), StepOf(target, target > actual))
  }

  function StepOf(mhz: real, up: bool): int {
    if up then (mhz / STEP_MHZ).Floor else Ceil(mhz / STEP_MHZ)
  }

  function StepsLeft(up: bool, step: int, target: int): seq<real> {
    if up then StepsUp(step, target) else StepsDown(step, target)
  }

  predicate More(up: bool, step: int, target: int) {
    (up && step < target) || (!up && step > target)
  }

  lemma NextStep(up: bool, step: int, target: int)
    ensures More(up, step, target) ==>
              var next := if up then step + 1 else step - 1;
              StepsLeft(up, step, target) == [StepMhz(next)] + StepsLeft(up, next, target)
    ensures !More(up, step, target) ==> StepsLeft(up, step, target) == []
  {
  }

  /** Where the clock stands after the commands. */
  function Last(actual: real, commands: seq<real>): real {
    if commands == [] then actual else commands[|commands| - 1]
  }

  /** All frequencies a transition commands, in order. */
  function Commands(actual: real, target: real): seq<real> {
    if Abs(actual - target) < EPSILON then []
    else if Abs(target - actual) < STEP_MHZ then [target]
    else
      var steps := Steps(actual, target);
      if Abs(Last(actual, steps) - target) > EPSILON then steps + [target] else steps
  }

  /** From `from`, every command goes the same way, by at most one step. */
  predicate Ramps(from: real, commands: seq<real>, up: bool) {
    forall i {:trigger commands[i]} :: 0 <= i < |commands| ==>
      Gentle(Prior(from, commands, i), commands[i], up)
  }

  function Prior(from: real, commands: seq<real>, i: nat): real
    requires i < |commands|
  {
    if i == 0 then from else commands[i - 1]
  }

  predicate Gentle(before: real, next: real, up: bool) {
    if up then before < next <= before + STEP_MHZ else before - STEP_MHZ <= next < before
  }

  lemma ConsRamps(from: real, first: real, rest: seq<real>, up: bool)
    requires Gentle(from, first, up) && Ramps(first, rest, up)
    ensures Ramps(from, [first] + rest, up) && Last(from, [first] + rest) == Last(first, rest)
  {
    hide Gentle;
    var all := [first] + rest;
    forall i | 0 <= i < |all| ensures Gentle(Prior(from, all, i), all[i], up) {
      if i > 0 {
        assert Gentle(Prior(first, rest, i - 1), rest[i - 1], up);
      }
    }
  }

  /** The next whole step is gentle, and stands where the one after it starts. */
  lemma OneStep(from: real, step: int, up: bool)
    requires if up then StepMhz(step) <= from < StepMhz(step + 1)
             else StepMhz(step - 1) < from <= StepMhz(step)
    ensures var next := if up then step + 1 else step - 1;
            && Gentle(from, StepMhz(next), up)
            && StepMhz(next - 1) < StepMhz(next) < StepMhz(next + 1)
  {
  }

  lemma {:induction false} StepsUpRamp(from: real, step: int, target: int)
    requires StepMhz(step) <= from < StepMhz(step + 1)
    ensures Ramps(from, StepsUp(step, target), true)
    ensures step < target ==> Last(from, StepsUp(step, target)) == StepMhz(target)
    ensures step >= target ==> StepsUp(step, target) == []
    decreases target - step
  {
    if step < target {
      var first := StepMhz(step + 1);
      OneStep(from, step, true);
      hide Ramps, Gentle, StepMhz;
      StepsUpRamp(first, step + 1, target);
      ConsRamps(from, first, StepsUp(step + 1, target), true);
    }
  }

  lemma {:induction false} StepsDownRamp(from: real, step: int, target: int)
    requires StepMhz(step - 1) < from <= StepMhz(step)
    ensures Ramps(from, StepsDown(step, target), false)
    ensures step > target ==> Last(from, StepsDown(step, target)) == StepMhz(target)
    ensures step <= target ==> StepsDown(step, target) == []
    decreases step - target
  {
    if step > target {
      var first := StepMhz(step - 1);
      OneStep(from, step, false);
      hide Ramps, Gentle, StepMhz;
      StepsDownRamp(first, step - 1, target);
      ConsRamps(from, first, StepsDown(step - 1, target), false);
    }
  }

  /** The whole steps of a long way. */
  lemma StepsRamp(actual: real, target: real)
    requires Abs(target - actual) >= STEP_MHZ
    ensures Steps(actual, target) != [] && Ramps(actual, Steps(actual, target), target > actual)
    ensures Last(actual, Steps(actual, target)) == StepMhz(StepOf(target, target > actual))
  {
    if target > actual {
      StepsUpRamp(actual, (actual / STEP_MHZ).Floor, (target / STEP_MHZ).Floor);
    } else {
      StepsDownRamp(actual, Ceil(actual / STEP_MHZ), Ceil(target / STEP_MHZ));
    }
  }

  /** The last whole step stands at most one step before the target. */
  lemma StepIsNear(target: real)
    ensures StepMhz(StepOf(target, true)) <= target < StepMhz(StepOf(target, true) + 1)
    ensures StepMhz(StepOf(target, false) - 1) < target <= StepMhz(StepOf(target, false))
  {
  }

  lemma OneMoreRamps(from: real, commands: seq<real>, next: real, up: bool)
    requires Ramps(from, commands, up) && commands != [] && Gentle(Last(from, commands), next, up)
    ensures Ramps(from, commands + [next], up) && Last(from, commands + [next]) == next
  {
  }

  /** The ramp goes one way, by more than nothing and at most 6.25 MHz a command, and ends within the
      match epsilon; it is empty exactly when it starts there. */
  lemma RampIsGentle(actual: real, target: real)
    ensures Ramps(actual, Commands(actual, target), target > actual)
    ensures Abs(Last(actual, Commands(actual, target)) - target) <= EPSILON
    ensures Commands(actual, target) == [] <==> Abs(actual - target) < EPSILON
  {
    if Abs(target - actual) >= STEP_MHZ {
      StepsRamp(actual, target);
      StepIsNear(target);
      var steps := Steps(actual, target);
      hide Steps, Ramps, StepOf;
      if Abs(Last(actual, steps) - target) > EPSILON {
        OneMoreRamps(actual, steps, target, target > actual);
      }
    }
  }

  /** Whole steps and whole MHz are the same or a quarter apart. */
  lemma QuarterApart(k: int, target: int)
    requires Abs(StepMhz(k) - target as real) <= EPSILON
    ensures StepMhz(k) == target as real
  {
    assert (StepMhz(k) - target as real) * 4.0 == (25 * k - 4 * target) as real;
  }

  /** A ramp to a whole number of MHz that is not already there ends exactly there. */
  lemma RampArrives(actual: real, target: int)
    requires Abs(actual - target as real) >= EPSILON
    ensures Commands(actual, target as real) != []
    ensures Last(actual, Commands(actual, target as real)) == target as real
  {
    var t := target as real;
    if Abs(t - actual) >= STEP_MHZ {
      StepsRamp(actual, t);
      var steps, k := Steps(actual, t), StepOf(t, t > actual);
      hide Steps, Ramps, StepOf;
      if Abs(Last(actual, steps) - t) <= EPSILON {
        QuarterApart(k, target);
      }
    }
  }

  /** All commands lie between the start and the target. */
  lemma {:induction false} RampStaysBetween(from: real, commands: seq<real>, up: bool, i: nat)
    requires Ramps(from, commands, up) && i < |commands|
    ensures if up then from <= commands[i] <= Last(from, commands) else Last(from, commands) <= commands[i] <= from
    decreases |commands|
  {
    var before := commands[..|commands| - 1];
    var n := |commands| - 1;
    assert Gentle(Prior(from, commands, n), commands[n], up);
    if i == |commands| - 1 {
      if i > 0 {
        RampStaysBetween(from, before, up, i - 1);
      }
    } else {
      RampStaysBetween(from, before, up, i);
      assert Last(from, before) == commands[|commands| - 2];
    }
  }

  // ----- commands

  /** A clock and the voltage it runs at. */
  datatype Pair = Pair(mhz: real, mv: int)

  /** What the regulator makes of a voltage command; it can fail with or without effect. */
  datatype Regulator = Obeys | FailsWithEffect | FailsWithoutEffect

  /** Clock, voltage, every pair commanded so far, and whether an error has stopped the path. */
  datatype Tune = Tune(mhz: real, mv: int, pairs: seq<Pair>, ok: bool)

  function AtVoltage(commands: seq<real>, mv: int): (r: seq<Pair>)
    ensures |r| == |commands| && forall i :: 0 <= i < |r| ==> r[i] == Pair(commands[i], mv)
  {
    if commands == [] then [] else AtVoltage(commands[..|commands| - 1], mv) + [Pair(commands[|commands| - 1], mv)]
  }

  lemma NothingAt(pairs: seq<Pair>, mv: int)
    ensures pairs + AtVoltage([], mv) == pairs
  {
  }

  lemma OneMoreAt(pairs: seq<Pair>, commands: seq<real>, mhz: real, mv: int)
    ensures pairs + AtVoltage(commands + [mhz], mv) == pairs + AtVoltage(commands, mv) + [Pair(mhz, mv)]
  {
    assert AtVoltage(commands + [mhz], mv) == AtVoltage(commands, mv) + [Pair(mhz, mv)];
  }

  function WithFrequency(t: Tune, target: int): Tune {
    if !t.ok then t
    else if target < MIN_MHZ || target > MAX_MHZ then t.(ok := false)
    else
      var commands := Commands(t.mhz, target as real);
      t.(mhz := Last(t.mhz, commands), pairs := t.pairs + AtVoltage(commands, t.mv))
  }

  /** `allowed` is the range check on the voltage. */
  function WithVoltage(t: Tune, mv: int, allowed: bool, regulator: Regulator): Tune {
    if !t.ok then t
    else if !allowed || regulator.FailsWithoutEffect? then t.(ok := false)
    else t.(mv := mv, pairs := t.pairs + [Pair(t.mhz, mv)], ok := regulator.Obeys?)
  }

  function WithLimits(t: Tune, needed: bool, applied: bool): Tune {
    if t.ok && needed && !applied then t.(ok := false) else t
  }

  /** The clock rounded to whole MHz, as both paths take it for the old one. */
  function Rounded(mhz: real): int {
    (mhz + 0.5).Floor
  }

  datatype Goal = Goal(
    mhz: int,
    mv: int,
    allowed: bool,
    regulator: Regulator,
    limitsFirst: bool,
    limitsLater: bool,
    limitsApply: bool
  )

  /** The settings path: a slower clock first, then the voltage, then a faster clock. */
  function Settings(t: Tune, goal: Goal): Tune {
    var was := Rounded(t.mhz);
    var t0 := WithLimits(t, goal.limitsFirst, goal.limitsApply);
    var t1 := if goal.mhz < was then WithFrequency(t0, goal.mhz) else t0;
    var t2 := if goal.mv != t.mv then WithVoltage(t1, goal.mv, goal.allowed, goal.regulator) else t1;
    var t3 := WithLimits(t2, goal.limitsLater, goal.limitsApply);
    if goal.mhz > was then WithFrequency(t3, goal.mhz) else t3
  }

  /** The auto-clock path: the voltage first only when both rise. */
  function Preset(t: Tune, goal: Goal): Tune {
    var was := Rounded(t.mhz);
    var raise := goal.mhz > was && goal.mv > t.mv;
    var t1 := if raise then WithVoltage(t, goal.mv, goal.allowed, goal.regulator) else t;
    var t2 := if goal.mhz != was then WithFrequency(t1, goal.mhz) else t1;
    if goal.mv != t.mv && !raise then WithVoltage(t2, goal.mv, goal.allowed, goal.regulator) else t2
  }

  // ----- safety

  /** A faster clock never needs less voltage. */
  ghost predicate Monotone(need: real -> real) {
    forall x: real, y: real :: x <= y ==> need(x) <= need(y)
  }

  ghost predicate Meets(need: real -> real, pairs: seq<Pair>) {
    forall i :: 0 <= i < |pairs| ==> need(pairs[i].mhz) <= pairs[i].mv as real
  }

  ghost predicate Safe(need: real -> real, t: Tune) {
    need(t.mhz) <= t.mv as real && Meets(need, t.pairs)
  }

  /** A ramp at a voltage that is enough at both of its ends. */
  lemma FrequencyIsSafe(need: real -> real, t: Tune, target: int)
    requires Monotone(need) && Safe(need, t)
    requires Abs(t.mhz - target as real) >= EPSILON
    requires need(target as real) <= t.mv as real
    ensures Safe(need, WithFrequency(t, target))
    ensures t.ok && WithFrequency(t, target).ok ==> WithFrequency(t, target).mhz == target as real
    ensures WithFrequency(t, target).mv == t.mv
  {
    var commands := Commands(t.mhz, target as real);
    RampIsGentle(t.mhz, target as real);
    RampArrives(t.mhz, target);
    var up := target as real > t.mhz;
    forall i | 0 <= i < |commands| ensures need(commands[i]) <= t.mv as real {
      RampStaysBetween(t.mhz, commands, up, i);
    }
  }

  /** Whether the old clock, rounded to the new one, is left standing above it while the voltage
      goes down. */
  predicate Sinks(t: Tune, goal: Goal) {
    Rounded(t.mhz) == goal.mhz && t.mhz > goal.mhz as real && goal.mv < t.mv
  }

  lemma RoundedIsFar(mhz: real, target: int)
    requires Rounded(mhz) != target
    ensures Abs(mhz - target as real) >= EPSILON
    ensures target > Rounded(mhz) ==> target as real > mhz
    ensures target < Rounded(mhz) ==> target as real < mhz
  {
  }

  ghost predicate Endpoints(need: real -> real, t: Tune, goal: Goal) {
    Monotone(need) && need(t.mhz) <= t.mv as real && need(goal.mhz as real) <= goal.mv as real
  }

  /** THE SETTINGS ORDER IS SAFE, through every ramp step and every early error. */
  lemma SettingsAreSafe(need: real -> real, t: Tune, goal: Goal)
    requires t.ok && Meets(need, t.pairs) && Endpoints(need, t, goal) && !Sinks(t, goal)
    ensures Safe(need, Settings(t, goal))
  {
    var was := Rounded(t.mhz);
    hide WithFrequency, WithVoltage;
    if goal.mhz != was {
      RoundedIsFar(t.mhz, goal.mhz);
    }
    var t0 := WithLimits(t, goal.limitsFirst, goal.limitsApply);
    if t0.ok {
      if goal.mhz < was {
        FrequencyIsSafe(need, t, goal.mhz);
      }
      var t1 := if goal.mhz < was then WithFrequency(t0, goal.mhz) else t0;
      assert t1.mv == t.mv;
      ThenVoltage(need, t1, t, goal);
      var t2 := if goal.mv != t.mv then WithVoltage(t1, goal.mv, goal.allowed, goal.regulator) else t1;
      var t3 := WithLimits(t2, goal.limitsLater, goal.limitsApply);
      if goal.mhz > was {
        if t3.ok {
          FrequencyIsSafe(need, t3, goal.mhz);
        } else {
          StoppedStays(t3, goal);
        }
      }
    } else {
      StoppedStays(t0, goal);
    }
  }

  lemma StoppedStays(t: Tune, goal: Goal)
    requires !t.ok
    ensures WithFrequency(t, goal.mhz) == t
    ensures WithVoltage(t, goal.mv, goal.allowed, goal.regulator) == t
  {
  }

  /** The voltage command, at a clock that is either still the old one and slower than the new one,
      or the new one already. */
  lemma ThenVoltage(need: real -> real, now: Tune, start: Tune, goal: Goal)
    requires Safe(need, now) && Endpoints(need, start, goal) && !Sinks(start, goal) && now.mv == start.mv
    requires now.ok ==> now.mhz == goal.mhz as real || (now.mhz == start.mhz && goal.mhz >= Rounded(start.mhz))
    ensures var t := if goal.mv != start.mv then WithVoltage(now, goal.mv, goal.allowed, goal.regulator) else now;
            && Safe(need, t) && (t.ok ==> now.ok && t.mhz == now.mhz && t.mv == goal.mv)
  {
    if now.ok && now.mhz == start.mhz {
      if goal.mhz > Rounded(start.mhz) {
        RoundedIsFar(start.mhz, goal.mhz);
      }
      if goal.mv >= start.mv || goal.mhz as real >= start.mhz {
        assert need(now.mhz) <= goal.mv as real;
      }
    }
  }

  /** THE AUTO-CLOCK ORDER IS SAFE in the same way. */
  lemma PresetIsSafe(need: real -> real, t: Tune, goal: Goal)
    requires t.ok && Meets(need, t.pairs) && Endpoints(need, t, goal) && !Sinks(t, goal)
    ensures Safe(need, Preset(t, goal))
  {
    var was := Rounded(t.mhz);
    hide WithFrequency, WithVoltage;
    var raise := goal.mhz > was && goal.mv > t.mv;
    if goal.mhz != was {
      RoundedIsFar(t.mhz, goal.mhz);
    }
    if raise {
      ThenVoltage(need, t, t, goal);
      var t1 := WithVoltage(t, goal.mv, goal.allowed, goal.regulator);
      if t1.ok {
        FrequencyIsSafe(need, t1, goal.mhz);
      } else {
        StoppedStays(t1, goal);
      }
    } else {
      if goal.mhz != was {
        assert need(goal.mhz as real) <= t.mv as real;
        FrequencyIsSafe(need, t, goal.mhz);
      }
      var t2 := if goal.mhz != was then WithFrequency(t, goal.mhz) else t;
      ThenVoltage(need, t2, t, goal);
    }
  }

  /** A requirement that jumps at the new clock. */
  function Jump(t: Tune, goal: Goal): real -> real {
    (x: real) => if x > goal.mhz as real then t.mv as real else goal.mv as real
  }

  /** Whether the regulator acts on the voltage command. */
  predicate Acts(goal: Goal) {
    goal.allowed && !goal.regulator.FailsWithoutEffect?
  }

  /** WHEN THE ORDER IS SAFE: for every requirement met at both ends, exactly unless the old clock
      rounds to the new one from above, so that no frequency command is given, and the voltage is
      lowered under it. Both paths start from no pairs and no error. */
  lemma SafeIff(t: Tune, goal: Goal)
    requires t.ok && t.pairs == []
    ensures (forall need: real -> real | Endpoints(need, t, goal) :: Meets(need, Settings(t, goal).pairs))
       <==> !(Sinks(t, goal) && Acts(goal) && (goal.limitsFirst ==> goal.limitsApply))
    ensures (forall need: real -> real | Endpoints(need, t, goal) :: Meets(need, Preset(t, goal).pairs))
       <==> !(Sinks(t, goal) && Acts(goal))
  {
    if Sinks(t, goal) {
      var need := Jump(t, goal);
      assert Endpoints(need, t, goal);
      assert need(t.mhz) == t.mv as real;
      if Acts(goal) {
        assert Preset(t, goal).pairs[0] == Pair(t.mhz, goal.mv);
        assert !Meets(need, Preset(t, goal).pairs);
        if goal.limitsFirst ==> goal.limitsApply {
          assert Settings(t, goal).pairs[0] == Pair(t.mhz, goal.mv);
          assert !Meets(need, Settings(t, goal).pairs);
        }
      } else {
        assert Settings(t, goal).pairs == [] && Preset(t, goal).pairs == [];
      }
    } else {
      forall need: real -> real | Endpoints(need, t, goal)
        ensures Meets(need, Settings(t, goal).pairs) && Meets(need, Preset(t, goal).pairs)
      {
        SettingsAreSafe(need, t, goal);
        PresetIsSafe(need, t, goal);
      }
    }
  }

  /** 500.4 MHz at 1200 mV, set to 500 MHz at 1100 mV: the clock stays at 500.4 MHz, and a requirement
      of 1150 mV above 500 MHz is no longer met. */
  lemma SinksExample()
    ensures var t := Tune(500.4, 1200, [], true);
            var goal := Goal(500, 1100, true, Obeys, false, false, true);
            && Sinks(t, goal)
            && Settings(t, goal).pairs == [Pair(500.4, 1100)] && Preset(t, goal).pairs == [Pair(500.4, 1100)]
  {
    assert 500.4 + 0.5 == 500.9;
    assert Rounded(500.4) == 500;
  }

  // ----- the goal is reached

  /** Whether the clock and the voltage can be had, for a path that starts at `t`: what has to change is
      within its limits, and the regulator obeys. */
  predicate CanReach(t: Tune, goal: Goal) {
    && (goal.mhz != Rounded(t.mhz) ==> MIN_MHZ <= goal.mhz <= MAX_MHZ)
    && (goal.mv != t.mv ==> goal.allowed && goal.regulator.Obeys?)
  }

  /** The goal's clock and voltage, unless the old clock already rounds to the goal's; then it is left
      alone. */
  predicate Reached(t: Tune, goal: Goal, end: Tune) {
    && end.mv == goal.mv
    && end.mhz == (if goal.mhz == Rounded(t.mhz) then t.mhz else goal.mhz as real)
  }

  /** An error leaves the clock and the voltage each at its old or its new value. */
  predicate Between(t: Tune, goal: Goal, end: Tune) {
    (end.mhz == t.mhz || end.mhz == goal.mhz as real) && (end.mv == t.mv || end.mv == goal.mv)
  }

  lemma FrequencyReaches(t: Tune, mhz: int)
    requires mhz != Rounded(t.mhz)
    ensures var r := WithFrequency(t, mhz);
            && r.mv == t.mv && (r.ok <==> t.ok && MIN_MHZ <= mhz <= MAX_MHZ)
            && r.mhz == if r.ok then mhz as real else t.mhz
  {
    RoundedIsFar(t.mhz, mhz);
    RampArrives(t.mhz, mhz);
    hide Commands;
  }

  lemma VoltageReaches(t: Tune, goal: Goal)
    ensures var r := WithVoltage(t, goal.mv, goal.allowed, goal.regulator);
            && r.mhz == t.mhz && (r.ok <==> t.ok && goal.allowed && goal.regulator.Obeys?)
            && (r.mv == t.mv || r.mv == goal.mv) && (r.ok ==> r.mv == goal.mv)
  {
  }

  /** THE SETTINGS PATH ARRIVES: it reports success exactly when clock and voltage can be had and the
      limits apply where they are needed, and then both are the goal's. */
  lemma SettingsArrive(t: Tune, goal: Goal)
    requires t.ok
    ensures var end := Settings(t, goal);
            && (end.ok <==> CanReach(t, goal) && (goal.limitsFirst || goal.limitsLater ==> goal.limitsApply))
            && (end.ok ==> Reached(t, goal, end)) && Between(t, goal, end)
  {
    var was := Rounded(t.mhz);
    var t0 := WithLimits(t, goal.limitsFirst, goal.limitsApply);
    var t1 := if goal.mhz < was then WithFrequency(t0, goal.mhz) else t0;
    var t2 := if goal.mv != t.mv then WithVoltage(t1, goal.mv, goal.allowed, goal.regulator) else t1;
    var t3 := WithLimits(t2, goal.limitsLater, goal.limitsApply);
    hide WithFrequency, WithVoltage, Rounded;
    if goal.mhz < was {
      FrequencyReaches(t0, goal.mhz);
    }
    VoltageReaches(t1, goal);
    if goal.mhz > was {
      FrequencyReaches(t3, goal.mhz);
    }
  }

  /** THE AUTO-CLOCK PATH ARRIVES, exactly when clock and voltage can be had. */
  lemma PresetArrives(t: Tune, goal: Goal)
    requires t.ok
    ensures var end := Preset(t, goal);
            && (end.ok <==> CanReach(t, goal))
            && (end.ok ==> Reached(t, goal, end)) && Between(t, goal, end)
  {
    var was := Rounded(t.mhz);
    var raise := goal.mhz > was && goal.mv > t.mv;
    var t1 := if raise then WithVoltage(t, goal.mv, goal.allowed, goal.regulator) else t;
    var t2 := if goal.mhz != was then WithFrequency(t1, goal.mhz) else t1;
    hide WithFrequency, WithVoltage, Rounded;
    VoltageReaches(t, goal);
    if goal.mhz != was {
      FrequencyReaches(t1, goal.mhz);
    }
    VoltageReaches(t2, goal);
  }

  /** Nothing is commanded that is not asked for: no clock when the old one rounds to the new one, no
      voltage at the old voltage. */
  lemma NothingElseCommanded(t: Tune, goal: Goal, pairs: seq<Pair>)
    requires t.ok && t.pairs == [] && (pairs == Settings(t, goal).pairs || pairs == Preset(t, goal).pairs)
    ensures goal.mhz == Rounded(t.mhz) ==> pairs == [] || (pairs == [Pair(t.mhz, goal.mv)] && goal.mv != t.mv)
    ensures goal.mv == t.mv ==> pairs == [] || pairs == AtVoltage(Commands(t.mhz, goal.mhz as real), t.mv)
  {
    hide Rounded, Commands, AtVoltage;
    var all := AtVoltage(Commands(t.mhz, goal.mhz as real), t.mv);
    assert [] + all == all;
  }

  // ----- the paths as they run

  class AsicTune {
    var target: real       // frequency_value
    var actual: real       // actual_frequency, as the divider search reports it
    var mv: int
    ghost var tune: Tune   // what has been commanded

    constructor (actual: real, mv: int)
      ensures this.actual == actual && this.mv == mv && tune == Tune(actual, mv, [], true)
    {
      this.target, this.actual, this.mv := actual, actual, mv;
      tune := Tune(actual, mv, [], true);
    }

    /** One command to the chip; `report` is the frequency the divider search settles on. */
    method Send(mhz: real, report: real -> real)
      modifies this`actual, this`tune
      ensures actual == report(mhz)
      ensures tune == old(tune).(mhz := mhz, pairs := old(tune.pairs) + [Pair(mhz, tune.mv)])
    {
      actual := report(mhz);
      tune := tune.(mhz := mhz, pairs := tune.pairs + [Pair(mhz, tune.mv)]);
    }

    /** `do_frequency_transition`. */
    method Transition(report: real -> real)
      requires actual == tune.mhz
      modifies this`actual, this`tune
      ensures var commands := Commands(old(actual), target);
              && tune == old(tune).(mhz := Last(old(actual), commands),
                                       pairs := old(tune.pairs) + AtVoltage(commands, tune.mv))
              && actual == if commands == [] then old(actual) else report(Last(old(actual), commands))
    {
      hide Steps, AtVoltage;
      var current := actual;
      if Abs(current - target) < EPSILON {
        NothingAt(tune.pairs, tune.mv);
        return;
      }
      if Abs(target - current) < STEP_MHZ {
        Send(target, report);
        NothingAt(old(tune.pairs), tune.mv);
        OneMoreAt(old(tune.pairs), [], target, tune.mv);
        assert [] + [target] == [target];
        return;
      }
      hide Abs;
      current := Ramp(report);
      ghost var sent := Steps(old(actual), target);
      if Abs(current - target) > EPSILON {
        Send(target, report);
        OneMoreAt(old(tune.pairs), sent, target, tune.mv);
      }
    }

    /** The whole steps of a ramp. */
    method Ramp(report: real -> real) returns (current: real)
      requires actual == tune.mhz
      modifies this`actual, this`tune
      ensures var steps := Steps(old(actual), target);
              && current == Last(old(actual), steps)
              && tune == old(tune).(mhz := current, pairs := old(tune.pairs) + AtVoltage(steps, tune.mv))
              && actual == if steps == [] then old(actual) else report(current)
    {
      hide StepOf, StepsLeft, AtVoltage;
      current := actual;
      ghost var all := Steps(actual, target);
      var up := target > current;
      var step, last := StepOf(current, up), StepOf(target, up);
      ghost var sent: seq<real> := [];
      NothingAt(tune.pairs, tune.mv);
      while More(up, step, last)
        invariant all == sent + StepsLeft(up, step, last)
        invariant current == Last(old(actual), sent)
        invariant tune == old(tune).(mhz := current, pairs := old(tune.pairs) + AtVoltage(sent, tune.mv))
        invariant actual == if sent == [] then old(actual) else report(current)
        decreases if up then last - step else step - last
      {
        NextStep(up, step, last);
        step := step + (if up then 1 else -1);
        current := StepMhz(step);
        Send(current, report);
        OneMoreAt(old(tune.pairs), sent, current, tune.mv);
        sent := sent + [current];
      }
      NextStep(up, step, last);
      assert sent == all;
    }

    /** `bitaxe_gamma602_set_frequency_mhz`, with the chip initialised. */
    method SetFrequency(mhz: int, report: real -> real) returns (ok: bool)
      requires actual == tune.mhz && tune.ok
      modifies this`target, this`actual, this`tune
      ensures tune == WithFrequency(old(tune), mhz) && ok == tune.ok
      ensures ok && mhz != Rounded(old(actual)) ==> actual == report(mhz as real)
      ensures !ok ==> actual == old(actual)
    {
      if mhz != Rounded(actual) {
        RoundedIsFar(actual, mhz);
        RampArrives(actual, mhz);
      }
      hide Commands, Rounded;
      if mhz < MIN_MHZ || mhz > MAX_MHZ {
        tune := tune.(ok := false);
        return false;
      }
      target := mhz as real;
      Transition(report);
      ok := true;
    }

    /** `bitaxe_gamma602_set_voltage_mv_for_config`, with the regulator on. */
    method SetVoltage(goal: Goal) returns (ok: bool)
      requires tune.ok && mv == tune.mv
      modifies this`mv, this`tune
      ensures tune == WithVoltage(old(tune), goal.mv, goal.allowed, goal.regulator) && ok == tune.ok
      ensures mv == if ok then goal.mv else old(mv)
    {
      if !goal.allowed || goal.regulator.FailsWithoutEffect? {
        tune := tune.(ok := false);
        return false;
      }
      ok := goal.regulator.Obeys?;
      tune := tune.(mv := goal.mv, pairs := tune.pairs + [Pair(tune.mhz, goal.mv)], ok := ok);
      if ok {
        mv := goal.mv;
      }
    }

    /** `apply_hardware_settings`, up to the fan. */
    method ApplySettings(goal: Goal, report: real -> real) returns (ok: bool)
      modifies this
      ensures tune == Settings(Tune(old(actual), old(mv), [], true), goal) && ok == tune.ok
      ensures var start := Tune(old(actual), old(mv), [], true);
              && (ok <==> CanReach(start, goal) && (goal.limitsFirst || goal.limitsLater ==> goal.limitsApply))
              && (ok ==> Reached(start, goal, tune)) && Between(start, goal, tune)
      ensures ok ==> mv == goal.mv
      ensures ok ==> actual == if goal.mhz == Rounded(old(actual)) then old(actual) else report(goal.mhz as real)
    {
      SettingsArrive(Tune(actual, mv, [], true), goal);
      var wasMv, wasMhz := mv, Rounded(actual);
      ghost var start := Tune(actual, mv, [], true);
      tune := start;
      hide WithFrequency, WithVoltage, Rounded;
      if goal.limitsFirst && !goal.limitsApply {
        tune := tune.(ok := false);
        StoppedStays(tune, goal);
        return false;
      }
      if wasMhz != goal.mhz && goal.mhz <= wasMhz {
        ok := SetFrequency(goal.mhz, report);
        StoppedStays(tune.(ok := false), goal);
        FrequencyKeepsVoltage(start, goal.mhz);
        if !ok {
          return;
        }
      }
      if wasMv != goal.mv {
        ghost var before := tune;
        ok := SetVoltage(goal);
        VoltageKeepsClock(before, goal);
        if !ok {
          StoppedStays(tune, goal);
          return;
        }
      }
      if goal.limitsLater && !goal.limitsApply {
        tune := tune.(ok := false);
        StoppedStays(tune, goal);
        return false;
      }
      if wasMhz != goal.mhz && goal.mhz > wasMhz {
        ok := SetFrequency(goal.mhz, report);
        return;
      }
      ok := true;
    }

    /** `auto_clock_apply_preset`, with the lock taken. */
    method ApplyPreset(goal: Goal, report: real -> real) returns (ok: bool)
      modifies this
      ensures tune == Preset(Tune(old(actual), old(mv), [], true), goal) && ok == tune.ok
      ensures var start := Tune(old(actual), old(mv), [], true);
              && (ok <==> CanReach(start, goal)) && (ok ==> Reached(start, goal, tune)) && Between(start, goal, tune)
      ensures ok ==> mv == goal.mv
      ensures ok ==> actual == if goal.mhz == Rounded(old(actual)) then old(actual) else report(goal.mhz as real)
    {
      PresetArrives(Tune(actual, mv, [], true), goal);
      var wasMv, wasMhz := mv, Rounded(actual);
      ghost var start := Tune(actual, mv, [], true);
      tune := start;
      hide WithFrequency, WithVoltage, Rounded;
      var frequencyChanging, voltageChanging := goal.mhz != wasMhz, goal.mv != wasMv;
      var raise := frequencyChanging && voltageChanging && goal.mhz > wasMhz && goal.mv > wasMv;
      ok := true;
      if raise {
        ok := SetVoltage(goal);
        VoltageKeepsClock(start, goal);
        StoppedStays(tune.(ok := false), goal);
      }
      if ok && frequencyChanging {
        ghost var before := tune;
        ok := SetFrequency(goal.mhz, report);
        FrequencyKeepsVoltage(before, goal.mhz);
        StoppedStays(tune.(ok := false), goal);
      }
      if ok && voltageChanging && !raise {
        ok := SetVoltage(goal);
      }
    }
  }

  lemma FrequencyKeepsVoltage(t: Tune, mhz: int)
    ensures WithFrequency(t, mhz).mv == t.mv
  {
  }

  lemma VoltageKeepsClock(t: Tune, goal: Goal)
    ensures WithVoltage(t, goal.mv, goal.allowed, goal.regulator).mhz == t.mhz
  {
  }
}
