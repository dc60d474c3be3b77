# Furnace environment with a rule-based agent

A Dafny model of a simulated furnace controlled by a thermostat-like agent.
The model covers four pieces:

- **The environment `FurnaceEnv`.** Its state is a temperature and a step
  counter. `reset` puts the temperature back to 150 and the counter to 0.
  `step(action)` heats by 5 on action 0 and cools by 3 on action 1, and
  changes nothing on any other action. It then counts the step. It rewards
  1.0 when the new temperature lies in the closed band [180, 220] and -1.0
  otherwise. It reports the episode done once the counter reaches 200. It
  never reports a truncation.
- **The agent `RuleBasedAgent.act`.** It heats below the band, cools above
  the band, and heats inside the band.
- **The visualizer's classifier `get_temperature_color`.** It maps the
  temperature to one of four colours.
- **The main loop.** It resets, then asks the agent for an action and steps
  the environment, until the environment reports done.

Layout:

- `furnace.dfy` (module `Furnace`) holds the environment.
  - The class `FurnaceEnv` has the two mutable fields and a constant
    configuration.
  - The pure specification works on a `State` value: `Transition`, `Outcome`,
    and `Run`, which replays a sequence of actions from reset.
  - Its lemmas cover step counting, the closed-form temperature, when the
    episode terminates, and the concrete scenarios of heating and cooling.
- `agent.dfy` (module `Agent`) holds the controller.
- `visualizer.dfy` (module `Visualizer`) holds the colour bands.
- `simulation.dfy` (module `Simulation`) holds the closed loop of agent and
  environment, its long-run behaviour, and the driver method `RunEpisode`.

Modelling choices:

- Temperatures are `int`. Every temperature the environment can reach is
  150 + 5h − 3c with h and c whole numbers, so no floating-point behaviour is
  lost.
- The reward is a `real`, 1.0 or -1.0.
- The observation is the temperature itself, not a one-element array.
- An action is an `int`, so the no-op for values other than 0 and 1 is kept.

Where the written design and the code disagree, the model follows the code:

- The design asks that an action outside {0, 1} be rejected. The code treats
  it as a no-op that still counts a step, and so does `Furnace.FurnaceEnv.Step`.
- The design asks that stepping after termination be rejected. The code has
  no guard, and `Step` keeps stepping with no precondition. Every later step
  reports done as well.
- The design asks for a configuration that callers can supply. The code
  fixes the constants in the constructor. The model has the `Config`
  datatype, but the constructor always installs `Defaults`.
- The design speaks of the temperature clamped to [0, 300]. The code only
  declares that range as the observation space and never clamps, so the
  model does not clamp either.

## Model

| member | source | states |
|---|---|---|
| `Furnace.FurnaceEnv.constructor` | agente_reactivo_simple.py:8-19 | the configuration is heat rate 5, cool rate 3, band (180, 220), 200 steps and initial temperature 150; the state starts at temperature 150, step 0 |
| `Furnace.FurnaceEnv.Reset` | agente_reactivo_simple.py:21-25 | whatever the prior state, temperature becomes the initial temperature and the counter 0, and the observation returned is the initial temperature; the configuration cannot change (it is a `const`) and only `temperature` and `currentStep` may be written |
| `Furnace.FurnaceEnv.Step` | agente_reactivo_simple.py:27-37 | action 0 adds the heat rate, action 1 subtracts the cool rate, any other action leaves the temperature alone; the counter grows by exactly 1; observation is the new temperature, reward is `Reward` of the new temperature, done iff counter >= max steps, truncated is false; only the two state fields are written |
| `Furnace.NextTemperature` | agente_reactivo_simple.py:28-31 | the temperature change per action: +heat rate for 0, −cool rate for 1, none otherwise |
| `Furnace.Reward` | agente_reactivo_simple.py:35 | the reward is 1.0 or -1.0, and it is 1.0 iff the band's lower bound <= temperature <= its upper bound, both bounds inclusive |
| `Furnace.RunStepCount` | agente_reactivo_simple.py:33 | after N steps from reset the counter is N, whatever the actions |
| `Furnace.RunTemperature` | agente_reactivo_simple.py:28-33 | after any action sequence from reset the temperature is initial + heat rate × (number of 0s) − cool rate × (number of 1s); all other actions contribute nothing |
| `Furnace.RunSnoc` | agente_reactivo_simple.py:27-37 | replaying one more action is one more transition from the state the shorter replay reached |
| `Furnace.TerminatesFirstAtMaxSteps` | agente_reactivo_simple.py:33-36 | for max_steps actions from reset, done is reported on the last step and on none of the states before it, including the state right after reset |
| `Furnace.OutcomeShape` | agente_reactivo_simple.py:37 | the truncated flag is always false and the observation equals the temperature reached |
| `Furnace.RepeatedHeat` | agente_reactivo_simple.py:28-33 | n heating steps from reset reach initial + n × heat rate at step n |
| `Furnace.RepeatedCool` | agente_reactivo_simple.py:30-33 | n cooling steps from reset reach initial − n × cool rate at step n |
| `Furnace.FirstHeatStep` | agente_reactivo_simple.py:21-37 | reset then one heat step reports observation 155, reward -1.0, not done, not truncated |
| `Furnace.SixHeatsEnterBand` | agente_reactivo_simple.py:28-35 | six heat steps from reset reach 180, the first rewarded temperature; heat steps 1 to 5 are all unrewarded |
| `Furnace.CoolingNeverRewarded` | agente_reactivo_simple.py:30-35 | every cooling step from reset lowers the temperature by exactly 3 and is unrewarded |
| `Agent.RuleBasedAgent.Act` | agente_reactivo_simple.py:117-124 | the action is always 0 or 1, and it is 1 exactly when the temperature is above the upper bound and not below the lower bound |
| `Agent.ActOnWellFormedBand` | agente_reactivo_simple.py:117-124 | for a band with lower <= upper, the agent cools iff temperature > upper, and heats at both edges of the band |
| `Agent.ActAgreesWithReward` | agente_reactivo_simple.py:119-124 | an agent built with the environment's band cools only at unrewarded temperatures, and always heats at rewarded ones |
| `Visualizer.TemperatureColor` | agente_reactivo_simple.py:52-60 | white iff below 150, red iff in [150, 180), yellow iff in [180, 220], blue iff above 220 |
| `Visualizer.BandsPartition` | agente_reactivo_simple.py:52-60 | every temperature gets one of the four colours and the four colours are distinct, so the bands are exhaustive and disjoint |
| `Simulation.ColoursMatchAgentAndReward` | agente_reactivo_simple.py:52-60 | the main loop's agent cools exactly on blue, and a step is rewarded exactly on yellow |
| `Simulation.ClosedLoopIsRun` | agente_reactivo_simple.py:133-141 | the closed loop is the environment replaying the actions the agent picked |
| `Simulation.ClosedLoopStep` | agente_reactivo_simple.py:140-141 | after n closed-loop steps the counter is n, and each step moves the temperature by the agent's choice at the previous temperature |
| `Simulation.ClosedLoopWarmUp` | agente_reactivo_simple.py:130-141 | over the first 15 steps the agent always heats, so the temperature at step n is 150 + 5n |
| `Simulation.ClosedLoopStaysNearBand` | agente_reactivo_simple.py:130-141 | from step 6 on the temperature stays within [180, 225] |
| `Simulation.ClosedLoopSettled` | agente_reactivo_simple.py:130-141 | from step 15 on the temperature stays within [218, 225] |
| `Simulation.PeriodEight` | agente_reactivo_simple.py:117-124 | from any settled temperature, eight agent-driven steps return to that temperature |
| `Simulation.ClosedLoopPeriodic` | agente_reactivo_simple.py:130-141 | from step 15 on the temperature repeats with period 8 |
| `Simulation.EpisodeFacts` | agente_reactivo_simple.py:135-141 | in a 200-step closed-loop trace, done is reported on the last step only and every observation from step 6 on lies in [180, 225] |
| `Simulation.RunEpisode` | agente_reactivo_simple.py:128-141 | the loop runs exactly 200 steps; the actions are the agent's closed-loop choices; each reported step is the outcome of the closed-loop state; done is reported on the last step only; observations from step 6 on lie in [180, 225] |

## Left out

- Rendering, window, font and event handling in `FurnaceVisualizer.__init__`, `draw` and `close` (agente_reactivo_simple.py:45-50, 62-109) are left out. They are graphics I/O.
- The window-close poll at agente_reactivo_simple.py:136-138 is left out. It is event I/O. As the loop is written, the `done = True` it sets is overwritten by the `step` on the same iteration. So the driver, which always runs until the environment reports done, also covers the case where the window is closed.
- Pacing by `time.sleep` and `clock.tick` is left out. It is timing with no logical content.
- The gymnasium base class is left out. So are `super().reset(seed=seed)` and the observation and action space objects. They are library calls with no effect on the dynamics, and `seed`/`options` have no parameter in `Reset`.
- The `float32` array that wraps the observation and the empty info records are left out. The observation is the temperature value. For the whole-number temperatures reachable here the cast is exact as long as the magnitude stays below 2^24. That bound is only at risk after millions of steps past done, which the source permits but the main loop never takes.
- IEEE floating point in general is left out. Temperatures and rates are `int` and the reward is `real`.
- The empty `render` stub and `env.close()` are left out. They do nothing.
- The separate `RuleBasedAgent` object with its constructor is modelled as a datatype holding the band, because the band never changes after construction.
