/** The main simulation loop: the rule-based agent drives a fresh furnace
    environment until the environment reports the episode done. */
module Simulation {
  import opened Furnace
  import opened Agent
  import Visualizer

  /** The agent the main loop builds, with the band (180, 220). */
  const Controller: RuleBasedAgent := RuleBasedAgent((180, 220))

  /** The temperature one closed-loop step leads to. */
  function AgentNext(t: int): int {
    NextTemperature(Defaults, t, Controller.Act(t))
  }

  /** The environment's state after n closed-loop steps from reset. */
  function ClosedLoop(n: nat): State {
    if n == 0 then Initial(Defaults)
    else
      var s := ClosedLoop(n - 1);
      Transition(Defaults, s, Controller.Act(s.temperature))
  }

  /** The actions the agent picks on the first n closed-loop steps. */
  function ClosedLoopActions(n: nat): (actions: seq<int>)
    ensures |actions| == n
  {
    if n == 0 then []
    else ClosedLoopActions(n - 1) + [Controller.Act(ClosedLoop(n - 1).temperature)]
  }

  /** The closed loop is the open-loop run of the actions the agent picks. */
  lemma {:induction false} ClosedLoopIsRun(n: nat)
    ensures ClosedLoop(n) == Run(Defaults, ClosedLoopActions(n))
  {
    if n > 0 {
      ClosedLoopIsRun(n - 1);
      RunSnoc(Defaults, ClosedLoopActions(n - 1), Controller.Act(ClosedLoop(n - 1).temperature));
    }
  }

  /** n closed-loop steps end at step n, and each step applies the agent's
      choice at the temperature before it. */
  lemma {:induction false} ClosedLoopStep(n: nat)
    ensures ClosedLoop(n).currentStep == n
    ensures ClosedLoop(n + 1).temperature == AgentNext(ClosedLoop(n).temperature)
  {
    if n > 0 {
      ClosedLoopStep(n - 1);
    }
  }

  /** Warm-up: the agent heats on every one of the first 15 steps, since the
      temperature stays at or below 220 until step 14. */
  lemma {:induction false} ClosedLoopWarmUp(n: nat)
    requires n <= 15
    ensures ClosedLoop(n).temperature == 150 + 5 * n
  {
    if n > 0 {
      ClosedLoopWarmUp(n - 1);
    }
  }

  /** From the sixth step on the temperature never leaves [180, 225]. */
  lemma {:induction false} ClosedLoopStaysNearBand(n: nat)
    requires n >= 6
    ensures 180 <= ClosedLoop(n).temperature <= 225
  {
    if n <= 15 {
      ClosedLoopWarmUp(n);
    } else {
      ClosedLoopStaysNearBand(n - 1);
      ClosedLoopStep(n - 1);
    }
  }

  /** From step 15 on the temperature stays in [218, 225]. */
  lemma {:induction false} ClosedLoopSettled(n: nat)
    requires n >= 15
    ensures 218 <= ClosedLoop(n).temperature <= 225
  {
    if n == 15 {
      ClosedLoopWarmUp(15);
    } else {
      ClosedLoopSettled(n - 1);
      ClosedLoopStep(n - 1);
    }
  }

  /** Eight closed-loop steps (three heats, five cools) bring every settled
      temperature back to itself. */
  lemma PeriodEight(t: int)
    requires 218 <= t <= 225
    ensures AgentNext(AgentNext(AgentNext(AgentNext(AgentNext(AgentNext(AgentNext(AgentNext(t)))))))) == t
  {
  }

  /** Once settled, the temperature repeats with period eight. */
  lemma ClosedLoopPeriodic(n: nat)
    requires n >= 15
    ensures ClosedLoop(n + 8).temperature == ClosedLoop(n).temperature
  {
    ClosedLoopSettled(n);
    ClosedLoopStep(n);
    ClosedLoopStep(n + 1);
    ClosedLoopStep(n + 2);
    ClosedLoopStep(n + 3);
    ClosedLoopStep(n + 4);
    ClosedLoopStep(n + 5);
    ClosedLoopStep(n + 6);
    ClosedLoopStep(n + 7);
    PeriodEight(ClosedLoop(n).temperature);
  }

  /** The agent cools exactly when the furnace is painted blue, and the
      furnace is painted yellow exactly when the step is rewarded. */
  lemma ColoursMatchAgentAndReward(t: int)
    ensures Controller.Act(t) == Cool <==> Visualizer.TemperatureColor(t) == Visualizer.Blue
    ensures Reward(Defaults, t) == 1.0 <==> Visualizer.TemperatureColor(t) == Visualizer.Yellow
  {
  }

  /** The main loop without its window: build the environment and the agent,
      reset, then let the agent act on the last observation and step until
      the environment reports done. Returns the agent's actions and what
      each step reported, in order. */
  method RunEpisode() returns (actions: seq<int>, trace: seq<StepResult>)
    ensures |actions| == |trace| == Defaults.maxSteps
    ensures actions == ClosedLoopActions(|actions|)
    ensures forall i :: 0 <= i < |trace| ==> trace[i] == Outcome(Defaults, ClosedLoop(i + 1))
    ensures forall i :: 0 <= i < |trace| ==> (trace[i].terminated <==> i == |trace| - 1)
    ensures forall i :: 5 <= i < |trace| ==> 180 <= trace[i].observation <= 225
  {
    var env := new FurnaceEnv();
    var agent := Controller;
    var obs := env.Reset();
    var done := false;
    actions, trace := [], [];
    while !done
      invariant env.config == Defaults
      invariant |actions| == |trace| == env.currentStep <= Defaults.maxSteps
      invariant env.Snapshot() == ClosedLoop(env.currentStep)
      invariant obs == env.temperature
      invariant done <==> env.currentStep >= Defaults.maxSteps
      invariant actions == ClosedLoopActions(|actions|)
      invariant forall i :: 0 <= i < |trace| ==> trace[i] == Outcome(Defaults, ClosedLoop(i + 1))
      decreases Defaults.maxSteps - env.currentStep
    {
      ghost var n := env.currentStep;
      var action := agent.Act(obs);
      var r := env.Step(action);
      assert env.Snapshot() == ClosedLoop(n + 1);
      obs, done := r.observation, r.terminated;
      actions, trace := actions + [action], trace + [r];
      assert actions == ClosedLoopActions(n + 1);
    }
    EpisodeFacts(trace);
  }

  /** What the reported steps of a full episode show: done on the last one
      only, and observations near the band from the sixth on. */
  lemma EpisodeFacts(trace: seq<StepResult>)
    requires |trace| == Defaults.maxSteps
    requires forall i :: 0 <= i < |trace| ==> trace[i] == Outcome(Defaults, ClosedLoop(i + 1))
    ensures forall i :: 0 <= i < |trace| ==> (trace[i].terminated <==> i == |trace| - 1)
    ensures forall i :: 5 <= i < |trace| ==> 180 <= trace[i].observation <= 225
  {
    forall i | 0 <= i < |trace|
      ensures trace[i].terminated <==> i == |trace| - 1
      ensures 5 <= i ==> 180 <= trace[i].observation <= 225
    {
      ClosedLoopStep(i + 1);
      if 5 <= i {
        ClosedLoopStaysNearBand(i + 1);
      }
    }
  }
}
