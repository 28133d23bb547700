# Factory room climate control: a Dafny model

This project models the core of a small facility simulator that learns, per
room, when to switch a light and a two-speed fan. It covers two parts.

- **The room environment (`FactoryRoomEnv`).** A room is in one of 24
  discrete states: activity idle/active, temperature cold/comfortable/hot,
  hour day/night, and price cheap/expensive. Each of six actions sets the
  light and the fan level. A step computes a shaped reward and an energy
  cost. It then moves the room to a new state: the fan cools, passive drift
  follows the room type and the hour, the hour may flip, the price follows
  the new hour, and the activity may flip.
- **The tabular Q-learner (`train_room`).** It keeps a 24 x 6 action-value
  table. The exploration rate decays linearly as `1 - ep/n`. Greedy choice
  takes the first maximal action. Each step applies the temporal-difference
  update with learning rate 0.1 and discount 0.95. The temperature and
  energy-cost traces of the last episode are recorded.

All randomness is made explicit, so every operation is a pure function of
its inputs:

- Each probabilistic test of a step (`random.random() < p`) is a boolean in
  `RoomEnv.Draws`.
- The state sampled by `reset` is a parameter.
- The exploration draw is a real in [0, 1) that is compared with epsilon.
- The action drawn while exploring is a parameter.

Training takes these as sequences of per-episode and per-step draws
(`QLearning.EpisodeDraws`).

Files:

- `outcomes.dfy`: `Option` and `Result`. `Option` holds the outcome of the
  action and colour lookups, where a missing key gives `None`, and the
  environment's state, which is absent until the first `reset`. `Result`
  carries the errors of `step`: not reset, or an action with no table entry.
- `room_state.dfy`: the state tuple, `state_to_index`, and its inverse.
- `room_env.dfy`: the action table, reward, energy cost, temperature and
  clock transition, and `reset` / `step`.
- `qlearning.dfy`: the value table, argmax, epsilon, the TD update, a
  functional reference for training, and the `Train` method, whose loops
  are proved equal to that reference.
- `colors.dfy`: `action_to_color`.

Rewards and costs are exact `real`s: 0.4 is 2/5, 1.5 is 3/2, 0.1 and 0.95
are exact.

Three behaviours of the code are worth noting:

- Training with a non-positive episode or step count does not fail. Python's
  `range` is simply empty, so the model returns the zero table and empty
  traces (`QLearning.Count`).
- An out-of-range action fails because the dictionary lookup has no key.
  The model returns `Err(InvalidAction)`. Calling `step` before any `reset`
  fails when it unpacks the absent state. That check comes first, so the
  model returns `Err(NotReset)` before it looks at the action.
- The drift draw is made only when its guard holds (Python's `and`
  short-circuits), and at most one drift draw happens per step. One boolean
  covers it.

## Model

| member | source | states |
|---|---|---|
| RoomState.Index | factory_rl.py:143-146 | every state packs to a row number below 24 |
| RoomState.UnpackIndex | factory_rl.py:143-146 | decoding the digits of a packed state gives back that state |
| RoomState.IndexUnpack | factory_rl.py:143-146 | every row number 0..23 is the packing of some state |
| RoomState.IndexInjective | factory_rl.py:143-146 | two states share a row number if and only if they are equal |
| RoomState.IndexOnto | factory_rl.py:143-146 | an integer is the packing of some state exactly when it lies in 0..23 |
| RoomEnv.Decode | factory_rl.py:57-66 | the action table has an entry exactly for 0..5, and each entry satisfies action = light + 2 * fan level |
| RoomEnv.DecodeEncode | factory_rl.py:57-66 | each light/fan combination appears in the table, under the action light + 2 * fan level |
| RoomEnv.Power | factory_rl.py:84-91 | the load is one of 0, 1, 1.5, 2.5, 3, 4, and it is 0 exactly when light and fan are off |
| RoomEnv.DeviceLoads | factory_rl.py:84-91 | the light adds 1.0 to the load, the low fan 1.5 and the high fan 3.0, whatever else is on |
| RoomEnv.EnergyCost | factory_rl.py:93 | the cost lies in [0, 8], is 0 exactly when everything is off, and equals the load when cheap |
| RoomEnv.ExpensiveDoublesCost | factory_rl.py:93 | the expensive price costs exactly twice the cheap price for the same setting |
| RoomEnv.Reward | factory_rl.py:68-94 | an idle room with everything off earns +2 when expensive and 0 when cheap; an idle room with anything on earns at most -3; an active room with light on and fan off at the cheap price earns 2.6; every reward lies in [-6.2, 5] |
| RoomEnv.IdleWastePenalty | factory_rl.py:76-94 | in an idle room with the light or the fan on the reward is exactly -3 minus 0.4 times the energy cost |
| RoomEnv.ActiveAllOff | factory_rl.py:68-94 | an occupied room with everything off earns exactly 0, at either price |
| RoomEnv.ActiveLightBonus | factory_rl.py:71-73 | in an occupied room, switching the light on adds +3 to the reward minus 0.4 times the extra energy cost, at any fan level, temperature and price |
| RoomEnv.ActiveFanBonus | factory_rl.py:71-75 | in an occupied room, running the fan adds +3 to the reward when the room is hot and nothing otherwise, minus 0.4 times the extra energy cost |
| RoomEnv.NextTemp | factory_rl.py:96-120 | temperature moves by at most one level; a running fan never warms and leaves at most comfortable; low fan caps at comfortable, high fan lowers by one (floor cold); with the fan off and no drift nothing changes; drift warms a heat-prone room, or a normal room by day, by one (cap hot), and cools a normal room by night by one (floor cold) |
| RoomEnv.Transition | factory_rl.py:96-134 | the new temperature is the fan-and-drift result computed from the hour before its flip; after a step price is expensive exactly when the hour is day; the hour changes exactly when its flip fires; activity changes exactly when its flip fires; temperature moves by at most one and never rises while the fan runs |
| RoomEnv.TransitionIgnoresPrice | factory_rl.py:122-134 | the price held before a step does not affect the state after it |
| RoomEnv.NewEnv | factory_rl.py:40-43 | a new environment keeps the given room type and holds no state yet |
| RoomEnv.Reset | factory_rl.py:45-52 | reset keeps the room type and makes the sampled state current |
| RoomEnv.Step | factory_rl.py:54-136 | step fails exactly when the room was never reset (that error first) or the action is outside 0..5; on success the new state becomes current, the done flag is false, price follows the new hour, hour and activity change exactly when their flips fire, the temperature is the fan-and-drift result from the pre-flip hour, moving by at most one and not rising under a fan, the reward and cost are those of the decoded setting at the old state and price, cost lies in [0, 8] and is 0 exactly for action 0, the idle-off-expensive reward is +2, and any idle step with something on earns at most -3 |
| RoomEnv.StepAfterReset | factory_rl.py:45-66 | after a reset, step succeeds exactly for actions 0..5 |
| RoomEnv.StepBeforeReset | factory_rl.py:40-43 | a new environment that was never reset refuses every step with the not-reset error |
| RoomEnv.StepIsRespond | factory_rl.py:54-136 | Step's success branch is `Respond`: after a reset, a valid action succeeds with the outcome `Respond` computes for one room step, and the environment then holds the reported next state |
| QLearning.Zeros | factory_rl.py:151 | the initial table is 24 x 6 and all zero |
| QLearning.ArgMax | factory_rl.py:164 | the chosen index holds a maximal entry and every earlier entry is strictly smaller, so ties go to the lowest action |
| QLearning.MaxOf | factory_rl.py:171 | the value is an entry of the row and no entry exceeds it |
| QLearning.Epsilon | factory_rl.py:158 | for 0 <= ep < n the rate lies in (0, 1] and equals 1 exactly at episode 0 |
| QLearning.EpsilonDecreasing | factory_rl.py:158 | later episodes have strictly smaller exploration rates |
| QLearning.EpsilonStep | factory_rl.py:158 | the rate falls by exactly 1/n from each episode to the next, so with the value 1 at episode 0 it is the linear schedule 1 - ep/n |
| QLearning.ChooseAction | factory_rl.py:161-164 | a draw below epsilon takes the drawn random action; when the draw is not below epsilon the action is the first maximal entry of the current state's row |
| QLearning.Update | factory_rl.py:168-171 | the table keeps its shape; only cell (s, a) changes; it moves by 0.1 times the gap to r + 0.95 * max of the next row, so it stays between its old value and that target and is unchanged exactly when they are equal |
| QLearning.LearnStep | factory_rl.py:160-171 | a learning step keeps the table 24 x 6, reports a cost in [0, 8], and changes no cell other than (current state, chosen action) |
| QLearning.LearnStepIsStep | factory_rl.py:160-171 | the step's outcome is exactly what the environment's step returns for the chosen action after a reset to the current state, and cell (current state, chosen action) moves by 0.1 times the gap to reward + 0.95 * the best value of the next state's row |
| QLearning.LearnStepCost | factory_rl.py:160-166 | the cost a learning step reports is the energy cost of the chosen action's setting at the price of the state it starts from |
| QLearning.EpisodePrefix | factory_rl.py:160-178 | after i steps of an episode the table is still 24 x 6 and exactly i temperatures and i costs have been logged |
| QLearning.RunEpisode | factory_rl.py:160-178 | a whole episode keeps the table 24 x 6 and logs exactly one temperature and one cost per step |
| QLearning.EpisodeCostBounds | factory_rl.py:173-176 | after any number of steps of an episode, every logged cost lies in [0, 8] (logged temperatures are levels 0..2 by their type) |
| QLearning.EpisodeTemps | factory_rl.py:166-178 | temperature entry k of an episode's trace is the temperature of the state step k moves to |
| QLearning.EpisodeCosts | factory_rl.py:166-178 | cost entry k of an episode's trace is the energy cost of the action step k chooses, at the price of the state it starts from |
| QLearning.EpisodeCostsStep | factory_rl.py:166-176 | each step of an episode appends to the cost trace exactly the energy cost of the action it chooses, at the price of the state it starts from |
| QLearning.Visited | factory_rl.py:160-171 | the first i steps of an episode visit at most i (row, action) cells, all inside the 24 x 6 table |
| QLearning.EpisodeFrame | factory_rl.py:160-171 | after the first i steps of an episode, every cell the steps did not visit still holds its value from the start of the episode |
| QLearning.TableAfter | factory_rl.py:156-171 | the table after any number of episodes is 24 x 6 |
| QLearning.LastEpisode | factory_rl.py:156-178 | each episode of m steps logs m temperatures and m costs |
| QLearning.Episode | factory_rl.py:160-178 | the inner loop leaves the table the reference episode computes; when logging it returns exactly the reference traces, otherwise empty traces |
| QLearning.Train | factory_rl.py:149-180 | the table is 24 x 6; with no episodes it is all zero and both traces are empty; otherwise the result is the table after the last episode and that episode's traces, each of length max(max_steps, 0), with costs in [0, 8] |
| Colors.ActionToColor | factory_rl.py:187-196 | a colour exists exactly for actions 0..5; it lies in 0..3 and equals light + 2 * (fan running), so the two fan speeds share a colour |

## Left out

- Rendering and file output (`create_factory_gif`, `save_graphs`, the colour
  map) and the `__main__` wiring with `ROOM_POSITIONS` / `HOT_ROOM_FLAGS`:
  these are drawing and invocation only.
- The probabilities 0.8, 0.4, 0.1 and 0.3 and the uniform sampling of
  `reset` and of exploratory actions. Every draw is a parameter, so no
  statement about frequencies is made.
- IEEE-754 floating point. Rewards, costs, epsilon and table entries are
  exact reals, while the program's floats are rounded results.
- The default arguments `n_episodes=2000, max_steps=40, hot_room=False` of
  `train_room` and `hot_room=False` of the environment: the model takes every
  argument explicitly.
- numpy array mechanics other than `argmax` taking the first maximal index
  and `max` taking the largest entry. The table is a sequence of 24 rows of
  6 reals.
- Convergence of Q-learning and bounds on learned values.
- The environment object's mutation in place. `Reset` and `Step` return the
  new environment value instead of assigning `self.state`.
