/** The furnace environment: a deterministic state machine over a temperature
    and a step counter, with a reward for staying inside a target band. */
module Furnace {

  /** The configuration that FurnaceEnv's constructor fixes. Temperatures and
      rates are whole degrees: every temperature the environment can reach is
      the initial one plus whole multiples of the two rates. */
  datatype Config = Config(
    initialTemperature: int,
    heatRate: int,
    coolRate: int,
    targetRange: (int, int),
    maxSteps: nat)

  /** The values the constructor sets. */
  const Defaults: Config := Config(150, 5, 3, (180, 220), 200)

  /** The two actions the environment acts on; every other value is a no-op. */
  const Heat: int := 0
  const Cool: int := 1

  /** The mutable part of the environment, as a value. */
  datatype State = State(temperature: int, currentStep: nat)

  /** What one call of step hands back (the empty info record is dropped). */
  datatype StepResult = StepResult(observation: int, reward: real, terminated: bool, truncated: bool)

  /** The state that reset (and the constructor) establishes. */
  function Initial(c: Config): State {
    State(c.initialTemperature, 0)
  }

  /** The temperature after one action: heating adds the heat rate, cooling
      subtracts the cool rate, and any other action changes nothing. */
  function NextTemperature(c: Config, t: int, action: int): (t': int)
    ensures action == Heat ==> t' - t == c.heatRate
    ensures action == Cool ==> t - t' == c.coolRate
    ensures action != Heat && action != Cool ==> t' == t
  {
    if action == Heat then t + c.heatRate
    else if action == Cool then t - c.coolRate
    else t
  }

  /** The reward: 1.0 exactly when the temperature lies in the closed target
      band, -1.0 otherwise. */
  function Reward(c: Config, t: int): (r: real)
    ensures r == 1.0 || r == -1.0
    ensures r == 1.0 <==> c.targetRange.0 <= t <= c.targetRange.1
  {
    if c.targetRange.0 <= t <= c.targetRange.1 then 1.0 else -1.0
  }

  /** One step as a function of the state before it. */
  function Transition(c: Config, s: State, action: int): State {
    State(NextTemperature(c, s.temperature, action), s.currentStep + 1)
  }

  /** What step reports about the state it has just produced. */
  function Outcome(c: Config, s: State): StepResult {
    StepResult(s.temperature, Reward(c, s.temperature), s.currentStep >= c.maxSteps, false)
  }

  /** The state after reset followed by the given actions, in order. */
  function Run(c: Config, actions: seq<int>): State {
    if actions == [] then Initial(c)
    else Transition(c, Run(c, actions[..|actions| - 1]), actions[|actions| - 1])
  }

  /** How many times `a` occurs in `actions`. */
  function Count(actions: seq<int>, a: int): nat {
    if actions == [] then 0
    else Count(actions[..|actions| - 1], a) + (if actions[|actions| - 1] == a then 1 else 0)
  }

  /** `n` copies of one action. */
  function Repeat(a: int, n: nat): (s: seq<int>)
    ensures |s| == n && forall i :: 0 <= i < n ==> s[i] == a
  {
    if n == 0 then [] else Repeat(a, n - 1) + [a]
  }

  /** Every step counts, whatever the action: after N steps from reset the
      counter is N. */
  lemma {:induction false} RunStepCount(c: Config, actions: seq<int>)
    ensures Run(c, actions).currentStep == |actions|
  {
    if actions != [] {
      RunStepCount(c, actions[..|actions| - 1]);
    }
  }

  /** The temperature after N steps from reset is the initial temperature plus
      one heat rate per heating action minus one cool rate per cooling action;
      every other action contributes nothing. */
  lemma {:induction false} RunTemperature(c: Config, actions: seq<int>)
    ensures Run(c, actions).temperature
         == c.initialTemperature + c.heatRate * Count(actions, Heat) - c.coolRate * Count(actions, Cool)
  {
    if actions != [] {
      var prefix := actions[..|actions| - 1];
      RunTemperature(c, prefix);
      var h, k := Count(prefix, Heat), Count(prefix, Cool);
      assert c.heatRate * (h + 1) == c.heatRate * h + c.heatRate;
      assert c.coolRate * (k + 1) == c.coolRate * k + c.coolRate;
    }
  }

  /** Extending the action sequence by one action is one more step. */
  lemma RunSnoc(c: Config, actions: seq<int>, a: int)
    ensures Run(c, actions + [a]) == Transition(c, Run(c, actions), a)
  {
    assert (actions + [a])[..|actions|] == actions;
  }

  /** The episode is reported done exactly once the step count reaches
      max_steps: never on the steps before, and on the max_steps-th step. */
  lemma TerminatesFirstAtMaxSteps(c: Config, actions: seq<int>)
    requires |actions| == c.maxSteps
    ensures Outcome(c, Run(c, actions)).terminated
    ensures forall k :: 0 <= k < |actions| ==> !Outcome(c, Run(c, actions[..k])).terminated
  {
    RunStepCount(c, actions);
    forall k | 0 <= k < |actions|
      ensures !Outcome(c, Run(c, actions[..k])).terminated
    {
      RunStepCount(c, actions[..k]);
    }
  }

  /** The truncated flag is never raised, and the observation is the
      temperature itself. */
  lemma OutcomeShape(c: Config, actions: seq<int>)
    ensures !Outcome(c, Run(c, actions)).truncated
    ensures Outcome(c, Run(c, actions)).observation == Run(c, actions).temperature
  {
  }

  /** Heating n times from reset adds n heat rates. */
  lemma RepeatedHeat(c: Config, n: nat)
    ensures Run(c, Repeat(Heat, n)).temperature == c.initialTemperature + n * c.heatRate
    ensures Run(c, Repeat(Heat, n)).currentStep == n
  {
    RunTemperature(c, Repeat(Heat, n));
    RunStepCount(c, Repeat(Heat, n));
    CountRepeat(Heat, n, Heat);
    CountRepeat(Heat, n, Cool);
  }

  /** Cooling n times from reset removes n cool rates. */
  lemma RepeatedCool(c: Config, n: nat)
    ensures Run(c, Repeat(Cool, n)).temperature == c.initialTemperature - n * c.coolRate
    ensures Run(c, Repeat(Cool, n)).currentStep == n
  {
    RunTemperature(c, Repeat(Cool, n));
    RunStepCount(c, Repeat(Cool, n));
    CountRepeat(Cool, n, Heat);
    CountRepeat(Cool, n, Cool);
  }

  /** `a` occurs n times in n copies of itself and not at all in n copies of
      another action. */
  lemma {:induction false} CountRepeat(a: int, n: nat, b: int)
    ensures Count(Repeat(a, n), b) == if a == b then n else 0
  {
    if n > 0 {
      CountRepeat(a, n - 1, b);
      assert Repeat(a, n)[..n - 1] == Repeat(a, n - 1);
    }
  }

  /** With the default configuration, one heating step from reset gives
      155 degrees, no reward, and an episode still running. */
  lemma FirstHeatStep()
    ensures Outcome(Defaults, Run(Defaults, [Heat])) == StepResult(155, -1.0, false, false)
  {
    assert [Heat][..0] == [];
  }

  /** With the default configuration, six heating steps from reset reach the
      lower edge of the band, 180, and that is the first rewarded step. */
  lemma SixHeatsEnterBand()
    ensures Run(Defaults, Repeat(Heat, 6)).temperature == 180
    ensures Outcome(Defaults, Run(Defaults, Repeat(Heat, 6))).reward == 1.0
    ensures forall n :: 0 < n < 6 ==> Outcome(Defaults, Run(Defaults, Repeat(Heat, n))).reward == -1.0
  {
    RepeatedHeat(Defaults, 6);
    forall n | 0 < n < 6
      ensures Outcome(Defaults, Run(Defaults, Repeat(Heat, n))).reward == -1.0
    {
      RepeatedHeat(Defaults, n);
    }
  }

  /** With the default configuration, cooling from reset lowers the
      temperature by 3 on every step and is never rewarded. */
  lemma CoolingNeverRewarded(n: nat)
    requires n > 0
    ensures Run(Defaults, Repeat(Cool, n)).temperature == Run(Defaults, Repeat(Cool, n - 1)).temperature - 3
    ensures Outcome(Defaults, Run(Defaults, Repeat(Cool, n))).reward == -1.0
  {
    RepeatedCool(Defaults, n);
    RepeatedCool(Defaults, n - 1);
  }

  /** The environment object: `temperature` and `currentStep` are the only
      fields that change; the configuration is a constant. */
  class FurnaceEnv {
    const config: Config
    var temperature: int
    var currentStep: nat

    /** The object's mutable state as a value. */
    function Snapshot(): State
      reads this
    {
      State(temperature, currentStep)
    }

    constructor ()
      ensures config == Defaults
      ensures temperature == 150 && currentStep == 0
      ensures Snapshot() == Initial(config)
    {
      config := Defaults;
      temperature := Defaults.initialTemperature;
      currentStep := 0;
    }

    /** Puts the environment back at its initial state, whatever it was, and
        returns the observation of that state. */
    method Reset() returns (observation: int)
      modifies this`temperature, this`currentStep
      ensures temperature == config.initialTemperature && currentStep == 0
      ensures Snapshot() == Initial(config)
      ensures observation == config.initialTemperature
    {
      temperature := config.initialTemperature;
      currentStep := 0;
      observation := temperature;
    }

    /** Applies one action. There is no guard against stepping after the
        episode is done, and an action other than heat or cool still counts
        as a step. */
    method Step(action: int) returns (r: StepResult)
      modifies this`temperature, this`currentStep
      ensures action == Heat ==> temperature == old(temperature) + config.heatRate
      ensures action == Cool ==> temperature == old(temperature) - config.coolRate
      ensures action != Heat && action != Cool ==> temperature == old(temperature)
      ensures currentStep == old(currentStep) + 1
      ensures r.observation == temperature
      ensures r.reward == Reward(config, temperature)
      ensures r.terminated <==> currentStep >= config.maxSteps
      ensures !r.truncated
      ensures Snapshot() == Transition(config, old(Snapshot()), action)
      ensures r == Outcome(config, Snapshot())
    {
      if action == Heat {
        temperature := temperature + config.heatRate;
      } else if action == Cool {
        temperature := temperature - config.coolRate;
      }
      currentStep := currentStep + 1;
      var reward := Reward(config, temperature);
      var done := currentStep >= config.maxSteps;
      r := StepResult(temperature, reward, done, false);
    }
  }
}
