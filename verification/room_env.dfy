/**
 * One room's simulator (`FactoryRoomEnv`): the fixed action table, the shaped
 * reward, the energy cost, and the temperature, hour, price and activity
 * transition. Each probabilistic test of a step is a boolean draw supplied
 * by the caller, so a step is a pure function.
 */
module RoomEnv {
  import opened Outcomes
  import opened RoomState

  /** The six light/fan combinations. */
  type Action = a: int | 0 <= a < 6

  /** Fan level: 0 off, 1 low, 2 high. */
  type FanLevel = f: int | 0 <= f <= 2

  /** What an action switches on. */
  datatype Setting = Setting(light: Bit, fan: FanLevel)

  /** The action table, in action order. */
  const Settings: seq<Setting> :=
    [Setting(0, 0), Setting(1, 0), Setting(0, 1), Setting(1, 1), Setting(0, 2), Setting(1, 2)]

  /** Looks an action number up in the table; numbers outside it have no entry. */
  function Decode(action: int): (r: Option<Setting>)
    ensures r.Some? <==> 0 <= action < 6
    ensures r.Some? ==> action == r.value.light + 2 * r.value.fan
  {
    if 0 <= action < |Settings| then Some(Settings[action]) else None
  }

  /** The action number of a setting. */
  function Encode(st: Setting): Action {
    st.light + 2 * st.fan
  }

  /** The table lists every setting exactly once: decoding inverts encoding. */
  lemma DecodeEncode(st: Setting)
    ensures Decode(Encode(st)) == Some(st)
  {
  }

  /** Electrical load of a setting: 1.0 for the light, 1.5 or 3.0 for the fan. */
  function Power(st: Setting): (p: real)
    ensures p in {0.0, 1.0, 1.5, 2.5, 3.0, 4.0}
    ensures p == 0.0 <==> st.light == 0 && st.fan == 0
  {
    (if st.light == 1 then 1.0 else 0.0)
    + (if st.fan == 1 then 1.5 else if st.fan == 2 then 3.0 else 0.0)
  }

  /** Each device adds its own load: the light 1.0, the low fan 1.5 and the
      high fan 3.0, whatever else is on. */
  lemma DeviceLoads(st: Setting)
    ensures Power(st.(light := 1)) == Power(st.(light := 0)) + 1.0
    ensures Power(st.(fan := 1)) == Power(st.(fan := 0)) + 1.5
    ensures Power(st.(fan := 2)) == Power(st.(fan := 0)) + 3.0
  {
  }

  /** Energy cost of one step: the load, doubled in the expensive period. */
  function EnergyCost(st: Setting, price: Bit): (c: real)
    ensures 0.0 <= c <= 8.0
    ensures c == 0.0 <==> st.light == 0 && st.fan == 0
    ensures price == 0 ==> c == Power(st)
  {
    if price == 0 then Power(st) else 2.0 * Power(st)
  }

  /** The expensive period costs exactly twice the cheap one for the same setting. */
  lemma ExpensiveDoublesCost(st: Setting)
    ensures EnergyCost(st, 1) == 2.0 * EnergyCost(st, 0)
  {
  }

  /** Shaped reward: +3 for light while active, +3 for a running fan in a hot
      occupied room, -3 for anything running while idle, +2 for an idle room
      left fully off in the expensive period, minus 0.4 of the energy cost. */
  function Reward(s: State, st: Setting): (r: real)
    ensures s.activity == 0 && st.light == 0 && st.fan == 0 ==>
              r == (if s.price == 1 then 2.0 else 0.0)
    ensures s.activity == 0 && (st.light == 1 || st.fan > 0) ==> r <= -3.0
    ensures s.activity == 1 && st.light == 1 && st.fan == 0 && s.price == 0 ==> r == 2.6
    ensures -6.2 <= r <= 5.0
  {
    var comfort :=
      if s.activity == 1 then
        (if st.light == 1 then 3.0 else 0.0) + (if s.temp == 2 && st.fan > 0 then 3.0 else 0.0)
      else
        (if st.light == 1 || st.fan > 0 then -3.0 else 0.0);
    var bonus :=
      if s.price == 1 && s.activity == 0 && st.light == 0 && st.fan == 0 then 2.0 else 0.0;
    comfort + bonus - EnergyCost(st, s.price) * 0.4
  }

  /** Leaving anything on in an idle room costs a flat -3 plus 0.4 of its
      energy cost; no bonus applies. */
  lemma IdleWastePenalty(s: State, st: Setting)
    requires s.activity == 0 && (st.light == 1 || st.fan > 0)
    ensures Reward(s, st) == -3.0 - 0.4 * EnergyCost(st, s.price)
  {
  }

  /** An occupied room with everything off earns nothing, at either price. */
  lemma ActiveAllOff(s: State)
    requires s.activity == 1
    ensures Reward(s, Setting(0, 0)) == 0.0
  {
  }

  /** In an occupied room the light earns +3 on top of paying for its energy,
      whatever the fan, temperature and price. */
  lemma ActiveLightBonus(s: State, st: Setting)
    requires s.activity == 1 && st.light == 1
    ensures Reward(s, st) ==
              Reward(s, st.(light := 0)) + 3.0
              - 0.4 * (EnergyCost(st, s.price) - EnergyCost(st.(light := 0), s.price))
  {
  }

  /** In an occupied room a running fan earns +3 when the room is hot and
      nothing when it is not, on top of paying for its energy. */
  lemma ActiveFanBonus(s: State, st: Setting)
    requires s.activity == 1 && st.fan > 0
    ensures Reward(s, st) ==
              Reward(s, st.(fan := 0)) + (if s.temp == 2 then 3.0 else 0.0)
              - 0.4 * (EnergyCost(st, s.price) - EnergyCost(st.(fan := 0), s.price))
  {
  }

  /** Fan cooling, applied before any passive drift. */
  function Cooled(temp: Temp, fan: FanLevel): Temp {
    if fan == 1 then (if temp == 2 then 1 else temp)
    else if fan == 2 then (if temp == 2 then 1 else if temp == 1 then 0 else temp)
    else temp
  }

  /** Next temperature. With the fan running only cooling applies; with it off
      a heat-prone room may warm by one, a normal room may warm by one by day
      and cool by one by night. `driftFires` is the outcome of the one drift
      draw, taken only when the room is not already at the relevant bound. */
  function NextTemp(hotRoom: bool, temp: Temp, hour: Bit, fan: FanLevel, driftFires: bool): (t: Temp)
    ensures -1 <= t - temp <= 1
    ensures fan > 0 ==> t <= temp && t <= 1
    ensures fan == 1 ==> t == Min(temp, 1)
    ensures fan == 2 ==> t == Max(temp - 1, 0)
    ensures fan == 0 && !driftFires ==> t == temp
    ensures fan == 0 && driftFires && (hotRoom || hour == 0) ==> t == Min(temp + 1, 2)
    ensures fan == 0 && driftFires && !hotRoom && hour == 1 ==> t == Max(temp - 1, 0)
  {
    var cooled := Cooled(temp, fan);
    if fan == 0 then
      if hotRoom then
        (if cooled < 2 && driftFires then cooled + 1 else cooled)
      else if hour == 0 && cooled < 2 && driftFires then cooled + 1
      else if hour == 1 && cooled > 0 && driftFires then cooled - 1
      else cooled
    else cooled
  }

  function Min(a: int, b: int): int { if a <= b then a else b }
  function Max(a: int, b: int): int { if a >= b then a else b }

  /** Outcomes of the three probabilistic tests of one step: temperature
      drift (0.8 or 0.4), hour flip (0.1), activity flip (0.3). */
  datatype Draws = Draws(drift: bool, hourFlips: bool, activityFlips: bool)

  /** The state after one step: new temperature, the hour possibly flipped,
      the price forced from the new hour, the activity possibly flipped. */
  function Transition(hotRoom: bool, s: State, st: Setting, d: Draws): (n: State)
    ensures n.price == 1 <==> n.hour == 0
    ensures n.hour != s.hour <==> d.hourFlips
    ensures n.activity != s.activity <==> d.activityFlips
    ensures n.temp == NextTemp(hotRoom, s.temp, s.hour, st.fan, d.drift)
    ensures -1 <= n.temp - s.temp <= 1
    ensures st.fan > 0 ==> n.temp <= s.temp && n.temp <= 1
  {
    var hour := if d.hourFlips then 1 - s.hour else s.hour;
    var price := if hour == 0 then 1 else 0;
    var activity := if d.activityFlips then 1 - s.activity else s.activity;
    State(activity, NextTemp(hotRoom, s.temp, s.hour, st.fan, d.drift), hour, price)
  }

  /** The price held before a step has no influence on the state after it. */
  lemma TransitionIgnoresPrice(hotRoom: bool, s: State, st: Setting, d: Draws, p: Bit)
    ensures Transition(hotRoom, s.(price := p), st, d) == Transition(hotRoom, s, st, d)
  {
  }

  /** What a step reports: the new state, the reward, the never-set episode
      end flag, and the raw energy cost as diagnostic information. */
  datatype StepResult = StepResult(next: State, reward: real, done: bool, energyCost: real)

  /** One step from state `s` under a valid action: the success branch of `Step`. */
  function Respond(hotRoom: bool, s: State, a: Action, d: Draws): StepResult
  {
    var st := Settings[a];
    StepResult(Transition(hotRoom, s, st, d), Reward(s, st), false, EnergyCost(st, s.price))
  }

  /** An environment: its fixed heat-prone flag and its current state, which
      is absent until the first reset. */
  datatype Env = Env(hotRoom: bool, state: Option<State>)

  datatype EnvError = NotReset | InvalidAction

  /** A freshly constructed environment, not yet reset. */
  function NewEnv(hotRoom: bool): (e: Env)
    ensures e.hotRoom == hotRoom && e.state.None?
  {
    Env(hotRoom, None)
  }

  /** Starts an episode from the sampled state `start`, discarding the old one. */
  function Reset(env: Env, start: State): (e: Env)
    ensures e.hotRoom == env.hotRoom
    ensures e.state.Some? && e.state.value == start
  {
    Env(env.hotRoom, Some(start))
  }

  /** `step(action)`: fails without changing anything when the environment was
      never reset or the action has no table entry (the unreset state is
      detected first); otherwise moves to the next state and reports it. */
  function Step(env: Env, action: int, d: Draws): (r: Result<(Env, StepResult), EnvError>)
    ensures r.Err? <==> env.state.None? || !(0 <= action < 6)
    ensures env.state.None? ==> r == Err(NotReset)
    ensures r.Err? && env.state.Some? ==> r.error == InvalidAction
    ensures r.Ok? ==> r.value.0.hotRoom == env.hotRoom
    ensures r.Ok? ==> r.value.0.state == Some(r.value.1.next)
    ensures r.Ok? ==>
              var s := env.state.value;
              var out := r.value.1;
              && !out.done
              && (out.next.price == 1 <==> out.next.hour == 0)
              && (out.next.hour != s.hour <==> d.hourFlips)
              && (out.next.activity != s.activity <==> d.activityFlips)
              && out.next.temp == NextTemp(env.hotRoom, s.temp, s.hour, Settings[action].fan, d.drift)
              && -1 <= out.next.temp - s.temp <= 1
              && (action >= 2 ==> out.next.temp <= s.temp && out.next.temp <= 1)
              && out.reward == Reward(s, Settings[action])
              && out.energyCost == EnergyCost(Settings[action], s.price)
              && 0.0 <= out.energyCost <= 8.0
              && (out.energyCost == 0.0 <==> action == 0)
              && (s.activity == 0 && action == 0 && s.price == 1 ==> out.reward == 2.0)
              && (s.activity == 0 && action != 0 ==> out.reward <= -3.0)
  {
    match env.state
    case None => Err(NotReset)
    case Some(s) =>
      match Decode(action)
      case None => Err(InvalidAction)
      case Some(_) =>
        var out := Respond(env.hotRoom, s, action, d);
        Ok((Env(env.hotRoom, Some(out.next)), out))
  }

  /** After a reset every action in the table steps successfully. */
  lemma StepAfterReset(env: Env, start: State, action: int, d: Draws)
    ensures Step(Reset(env, start), action, d).Ok? <==> 0 <= action < 6
  {
  }

  /** A freshly constructed environment refuses to step whatever the action. */
  lemma StepBeforeReset(hotRoom: bool, action: int, d: Draws)
    ensures Step(NewEnv(hotRoom), action, d) == Err(NotReset)
  {
  }

  /** After a reset a valid action steps exactly as `Respond` describes, and
      the environment then holds the state it reported. */
  lemma StepIsRespond(env: Env, start: State, a: Action, d: Draws)
    ensures var out := Respond(env.hotRoom, start, a, d);
            Step(Reset(env, start), a, d) == Ok((Env(env.hotRoom, Some(out.next)), out))
  {
  }
}
