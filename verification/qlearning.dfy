/**
 * The tabular learner (`train_room`): a 24 x 6 action-value table, the
 * linearly decaying exploration rate, greedy selection by first maximal
 * index, the temporal-difference update, and the traces logged during the
 * last episode. Every random draw is supplied by the caller.
 */
module QLearning {
  import opened Outcomes
  import opened RoomState
  import opened RoomEnv

  /** Learning rate and discount factor. */
  const Alpha: real := 0.1
  const Gamma: real := 0.95

  /** Rows indexed by packed state, columns by action. */
  type QTable = seq<seq<real>>

  ghost predicate WellShaped(q: QTable) {
    |q| == StateCount && forall i :: 0 <= i < |q| ==> |q[i]| == 6
  }

  /** The initial all-zero table. */
  function Zeros(): (q: QTable)
    ensures WellShaped(q)
    ensures forall i, a :: 0 <= i < StateCount && 0 <= a < 6 ==> q[i][a] == 0.0
  {
    seq(StateCount, _ => seq(6, _ => 0.0))
  }

  /** The first index of a maximal entry, as a left-to-right scan finds it. */
  function ArgMax(row: seq<real>): (k: nat)
    requires |row| > 0
    ensures k < |row|
    ensures forall j :: 0 <= j < |row| ==> row[j] <= row[k]
    ensures forall j :: 0 <= j < k ==> row[j] < row[k]
  {
    if |row| == 1 then 0
    else
      var k' := ArgMax(row[..|row| - 1]);
      if row[|row| - 1] > row[k'] then |row| - 1 else k'
  }

  /** The largest entry of a row. */
  function MaxOf(row: seq<real>): (m: real)
    requires |row| > 0
    ensures exists j :: 0 <= j < |row| && row[j] == m
    ensures forall j :: 0 <= j < |row| ==> row[j] <= m
  {
    row[ArgMax(row)]
  }

  /** Exploration rate of episode `ep` out of `n`: `1 - ep/n`. */
  function Epsilon(ep: nat, n: nat): (e: real)
    requires ep < n
    ensures 0.0 < e <= 1.0
    ensures e == 1.0 <==> ep == 0
  {
    1.0 - (ep as real) / (n as real)
  }

  /** Later episodes explore strictly less. */
  lemma EpsilonDecreasing(ep1: nat, ep2: nat, n: nat)
    requires ep1 < ep2 < n
    ensures Epsilon(ep2, n) < Epsilon(ep1, n)
  {
  }

  /** The rate falls by exactly `1/n` from one episode to the next. */
  lemma EpsilonStep(ep: nat, n: nat)
    requires ep + 1 < n
    ensures Epsilon(ep, n) - Epsilon(ep + 1, n) == 1.0 / (n as real)
  {
  }

  /** A uniform draw from [0, 1). */
  type Unit = u: real | 0.0 <= u < 1.0

  /** Draws of one learning step: the exploration draw, the uniformly drawn
      action used when exploring, and the environment's draws. */
  datatype StepDraws = StepDraws(explore: Unit, randomAction: Action, env: Draws)

  /** Draws of one episode: the reset state and the draws of its steps. */
  datatype EpisodeDraws = EpisodeDraws(start: State, steps: seq<StepDraws>)

  /** Explore with probability `eps`, otherwise act greedily on the current row. */
  function ChooseAction(q: QTable, s: State, eps: real, d: StepDraws): (a: Action)
    requires WellShaped(q)
    ensures d.explore < eps ==> a == d.randomAction
    ensures d.explore >= eps ==>
              (forall b :: 0 <= b < 6 ==> q[Index(s)][b] <= q[Index(s)][a]) &&
              (forall b :: 0 <= b < a ==> q[Index(s)][b] < q[Index(s)][a])
  {
    if d.explore < eps then d.randomAction else ArgMax(q[Index(s)])
  }

  /** The temporal-difference update of cell (i, a) after reward `r` and next row `j`. */
  function Update(q: QTable, i: nat, a: Action, r: real, j: nat): (q': QTable)
    requires WellShaped(q) && i < StateCount && j < StateCount
    ensures WellShaped(q')
    ensures forall k, b :: 0 <= k < StateCount && 0 <= b < 6 && (k != i || b != a) ==>
              q'[k][b] == q[k][b]
    ensures q'[i][a] - q[i][a] == Alpha * (r + Gamma * MaxOf(q[j]) - q[i][a])
    ensures var target := r + Gamma * MaxOf(q[j]);
            (q[i][a] <= target ==> q[i][a] <= q'[i][a] <= target) &&
            (target <= q[i][a] ==> target <= q'[i][a] <= q[i][a]) &&
            (q'[i][a] == q[i][a] <==> target == q[i][a])
  {
    var cur := q[i][a];
    q[i := q[i][a := cur + Alpha * (r + Gamma * MaxOf(q[j]) - cur)]]
  }

  /** One learning step: the chosen action's outcome and the updated table. */
  datatype Learned = Learned(q: QTable, out: StepResult)

  /** Choose an action in `s`, step the room, update the chosen cell. */
  function LearnStep(hotRoom: bool, q: QTable, s: State, eps: real, d: StepDraws): (l: Learned)
    requires WellShaped(q)
    ensures WellShaped(l.q)
    ensures 0.0 <= l.out.energyCost <= 8.0
    ensures var a := ChooseAction(q, s, eps, d);
            forall k, b :: 0 <= k < StateCount && 0 <= b < 6 && (k != Index(s) || b != a) ==>
              l.q[k][b] == q[k][b]
  {
    var a := ChooseAction(q, s, eps, d);
    var out := Respond(hotRoom, s, a, d.env);
    Learned(Update(q, Index(s), a, out.reward, Index(out.next)), out)
  }

  /** A learning step is the environment's `step` on the chosen action from
      `s`, followed by the temporal-difference update of cell (s, a) towards
      the reported reward plus the discounted best value of the next row. */
  lemma LearnStepIsStep(hotRoom: bool, q: QTable, s: State, eps: real, d: StepDraws)
    requires WellShaped(q)
    ensures var l := LearnStep(hotRoom, q, s, eps, d);
            var a := ChooseAction(q, s, eps, d);
            Step(Reset(NewEnv(hotRoom), s), a, d.env) == Ok((Env(hotRoom, Some(l.out.next)), l.out))
    ensures var l := LearnStep(hotRoom, q, s, eps, d);
            var a := ChooseAction(q, s, eps, d);
            var i := Index(s);
            l.q[i][a] - q[i][a] == Alpha * (l.out.reward + Gamma * MaxOf(q[Index(l.out.next)]) - q[i][a])
  {
  }

  /** The cost a learning step reports is the energy cost of the chosen
      action's setting at the price of the state it starts from. */
  lemma LearnStepCost(hotRoom: bool, q: QTable, s: State, eps: real, d: StepDraws)
    requires WellShaped(q)
    ensures LearnStep(hotRoom, q, s, eps, d).out.energyCost ==
            EnergyCost(Settings[ChooseAction(q, s, eps, d)], s.price)
    ensures LearnStep(hotRoom, q, s, eps, d).out.energyCost == ChosenCost(q, s, eps, d)
  {
  }

  /** The energy cost of the action chosen in `s`, at the price of `s`. */
  function ChosenCost(q: QTable, s: State, eps: real, d: StepDraws): real
    requires WellShaped(q)
  {
    EnergyCost(Settings[ChooseAction(q, s, eps, d)], s.price)
  }

  /** Where an episode stands after some of its steps: the table, the room
      state, and the next-state temperatures and energy costs so far. */
  datatype Run = Run(q: QTable, s: State, temps: seq<Temp>, costs: seq<real>)

  /** The first `i` steps of an episode started in `s0` with table `q0`. */
  function EpisodePrefix(hotRoom: bool, q0: QTable, s0: State, eps: real, steps: seq<StepDraws>, i: nat): (p: Run)
    requires WellShaped(q0) && i <= |steps|
    ensures WellShaped(p.q)
    ensures |p.temps| == i && |p.costs| == i
    decreases i
  {
    if i == 0 then Run(q0, s0, [], [])
    else
      var p := EpisodePrefix(hotRoom, q0, s0, eps, steps, i - 1);
      var l := LearnStep(hotRoom, p.q, p.s, eps, steps[i - 1]);
      Run(l.q, l.out.next, p.temps + [l.out.next.temp], p.costs + [l.out.energyCost])
  }

  /** A whole episode. */
  function RunEpisode(hotRoom: bool, q0: QTable, s0: State, eps: real, steps: seq<StepDraws>): (r: Run)
    requires WellShaped(q0)
    ensures WellShaped(r.q)
    ensures |r.temps| == |steps| && |r.costs| == |steps|
  {
    EpisodePrefix(hotRoom, q0, s0, eps, steps, |steps|)
  }

  /** Every logged cost lies in [0, 8]. */
  ghost predicate CostsBounded(costs: seq<real>) {
    forall k :: 0 <= k < |costs| ==> 0.0 <= costs[k] <= 8.0
  }

  /** The cost trace of any prefix of an episode is within range. */
  lemma {:induction false} EpisodeCostBounds(hotRoom: bool, q0: QTable, s0: State, eps: real, steps: seq<StepDraws>, i: nat)
    requires WellShaped(q0) && i <= |steps|
    ensures CostsBounded(EpisodePrefix(hotRoom, q0, s0, eps, steps, i).costs)
    decreases i
  {
    hide LearnStep;
    if i > 0 {
      var prev := EpisodePrefix(hotRoom, q0, s0, eps, steps, i - 1);
      EpisodeCostBounds(hotRoom, q0, s0, eps, steps, i - 1);
      var l := LearnStep(hotRoom, prev.q, prev.s, eps, steps[i - 1]);
      assert CostsBounded(prev.costs + [l.out.energyCost]);
    }
  }

  /** Temperature entry `k` is logged by step `k`: the temperature of the
      state that step moves to. */
  lemma {:induction false} EpisodeTemps(hotRoom: bool, q0: QTable, s0: State, eps: real, steps: seq<StepDraws>, i: nat)
    requires WellShaped(q0) && i <= |steps|
    ensures forall k :: 0 <= k < i ==>
              EpisodePrefix(hotRoom, q0, s0, eps, steps, i).temps[k] ==
              EpisodePrefix(hotRoom, q0, s0, eps, steps, k + 1).s.temp
    decreases i
  {
    hide LearnStep;
    if i > 0 {
      EpisodeTemps(hotRoom, q0, s0, eps, steps, i - 1);
      var prev := EpisodePrefix(hotRoom, q0, s0, eps, steps, i - 1);
      var cur := EpisodePrefix(hotRoom, q0, s0, eps, steps, i);
      assert cur.temps == prev.temps + [cur.s.temp];
    }
  }

  /** Cost entry `k` is logged by step `k`: the energy cost of the action it
      takes at the price of the state it starts from. */
  lemma {:induction false} EpisodeCosts(hotRoom: bool, q0: QTable, s0: State, eps: real, steps: seq<StepDraws>, i: nat)
    requires WellShaped(q0) && i <= |steps|
    ensures forall k :: 0 <= k < i ==>
              var before := EpisodePrefix(hotRoom, q0, s0, eps, steps, k);
              EpisodePrefix(hotRoom, q0, s0, eps, steps, i).costs[k] ==
              ChosenCost(before.q, before.s, eps, steps[k])
    decreases i
  {
    hide EpisodePrefix, LearnStep, ChosenCost;
    if i > 0 {
      EpisodeCosts(hotRoom, q0, s0, eps, steps, i - 1);
      EpisodeCostsStep(hotRoom, q0, s0, eps, steps, i);
    }
  }

  /** Step `i` of an episode appends the cost of the action it chooses. */
  lemma EpisodeCostsStep(hotRoom: bool, q0: QTable, s0: State, eps: real, steps: seq<StepDraws>, i: nat)
    requires WellShaped(q0) && 0 < i <= |steps|
    ensures var prev := EpisodePrefix(hotRoom, q0, s0, eps, steps, i - 1);
            EpisodePrefix(hotRoom, q0, s0, eps, steps, i).costs ==
            prev.costs + [ChosenCost(prev.q, prev.s, eps, steps[i - 1])]
  {
    var prev := EpisodePrefix(hotRoom, q0, s0, eps, steps, i - 1);
    LearnStepCost(hotRoom, prev.q, prev.s, eps, steps[i - 1]);
  }

  /** The (row, action) cells the first `i` steps of an episode update. */
  ghost function Visited(hotRoom: bool, q0: QTable, s0: State, eps: real, steps: seq<StepDraws>, i: nat): (v: set<(int, int)>)
    requires WellShaped(q0) && i <= |steps|
    ensures |v| <= i
    ensures forall c :: c in v ==> 0 <= c.0 < StateCount && 0 <= c.1 < 6
    decreases i
  {
    if i == 0 then {}
    else
      var p := EpisodePrefix(hotRoom, q0, s0, eps, steps, i - 1);
      Visited(hotRoom, q0, s0, eps, steps, i - 1) + {(Index(p.s), ChooseAction(p.q, p.s, eps, steps[i - 1]) as int)}
  }

  /** `q` agrees with `q0` on every cell outside `v`. */
  ghost predicate SameOutside(q: QTable, q0: QTable, v: set<(int, int)>)
    requires WellShaped(q) && WellShaped(q0)
  {
    forall k, b :: 0 <= k < StateCount && 0 <= b < 6 && (k, b) !in v ==> q[k][b] == q0[k][b]
  }

  /** The first `i` steps of an episode change only the cells they visit,
      which are at most `i`. */
  lemma {:induction false} EpisodeFrame(hotRoom: bool, q0: QTable, s0: State, eps: real, steps: seq<StepDraws>, i: nat)
    requires WellShaped(q0) && i <= |steps|
    ensures SameOutside(EpisodePrefix(hotRoom, q0, s0, eps, steps, i).q, q0, Visited(hotRoom, q0, s0, eps, steps, i))
    decreases i
  {
    hide LearnStep;
    if i > 0 {
      EpisodeFrame(hotRoom, q0, s0, eps, steps, i - 1);
    }
  }

  /** Enough draws for `n` episodes of `m` steps each. */
  ghost predicate EnoughDraws(draws: seq<EpisodeDraws>, n: nat, m: nat) {
    n <= |draws| && forall e :: 0 <= e < n ==> m <= |draws[e].steps|
  }

  /** The table after the first `k` of `n` episodes of `m` steps. */
  function TableAfter(hotRoom: bool, draws: seq<EpisodeDraws>, n: nat, m: nat, k: nat): (q: QTable)
    requires k <= n && EnoughDraws(draws, n, m)
    ensures WellShaped(q)
    decreases k
  {
    if k == 0 then Zeros()
    else LastEpisode(hotRoom, draws, n, m, k).q
  }

  /** Episode number `k - 1`, run from the table the earlier episodes left. */
  function LastEpisode(hotRoom: bool, draws: seq<EpisodeDraws>, n: nat, m: nat, k: nat): (r: Run)
    requires 0 < k <= n && EnoughDraws(draws, n, m)
    ensures WellShaped(r.q)
    ensures |r.temps| == m && |r.costs| == m
    decreases k, 0
  {
    RunEpisode(hotRoom, TableAfter(hotRoom, draws, n, m, k - 1), draws[k - 1].start,
               Epsilon(k - 1, n), draws[k - 1].steps[..m])
  }

  /** What training returns: the final table and the last episode's traces. */
  datatype Training = Training(q: QTable, temps: seq<Temp>, costs: seq<real>)

  /** `range(x)` runs `x` times when positive and not at all otherwise. */
  function Count(x: int): nat {
    if x > 0 then x else 0
  }

  /** The inner loop of `train_room`: every step of `steps` from `s0`,
      appending to the traces only when `logging` (the last episode). */
  method Episode(hotRoom: bool, q0: QTable, s0: State, eps: real, steps: seq<StepDraws>, logging: bool)
    returns (q: QTable, temps: seq<Temp>, costs: seq<real>)
    requires WellShaped(q0)
    ensures q == RunEpisode(hotRoom, q0, s0, eps, steps).q
    ensures logging ==> temps == RunEpisode(hotRoom, q0, s0, eps, steps).temps
    ensures logging ==> costs == RunEpisode(hotRoom, q0, s0, eps, steps).costs
    ensures !logging ==> temps == [] && costs == []
  {
    hide LearnStep;
    q := q0;
    var s := s0;
    temps, costs := [], [];
    var i := 0;
    while i < |steps|
      invariant 0 <= i <= |steps|
      invariant q == EpisodePrefix(hotRoom, q0, s0, eps, steps, i).q
      invariant s == EpisodePrefix(hotRoom, q0, s0, eps, steps, i).s
      invariant logging ==> temps == EpisodePrefix(hotRoom, q0, s0, eps, steps, i).temps
      invariant logging ==> costs == EpisodePrefix(hotRoom, q0, s0, eps, steps, i).costs
      invariant !logging ==> temps == [] && costs == []
    {
      var l := LearnStep(hotRoom, q, s, eps, steps[i]);
      q, s := l.q, l.out.next;
      if logging {
        temps := temps + [l.out.next.temp];
        costs := costs + [l.out.energyCost];
      }
      i := i + 1;
    }
  }

  /** `train_room` with all draws supplied. With no episodes the zero table
      and empty traces come back; otherwise the final table after every
      episode and the traces of the last one. */
  method Train(nEpisodes: int, maxSteps: int, hotRoom: bool, draws: seq<EpisodeDraws>)
    returns (t: Training)
    requires EnoughDraws(draws, Count(nEpisodes), Count(maxSteps))
    ensures WellShaped(t.q)
    ensures nEpisodes <= 0 ==> t == Training(Zeros(), [], [])
    ensures nEpisodes > 0 ==>
              var last := LastEpisode(hotRoom, draws, nEpisodes, Count(maxSteps), nEpisodes);
              t == Training(last.q, last.temps, last.costs)
    ensures nEpisodes > 0 ==> |t.temps| == Count(maxSteps) && |t.costs| == Count(maxSteps)
    ensures CostsBounded(t.costs)
  {
    hide LearnStep;
    var n := Count(nEpisodes);
    var m := Count(maxSteps);
    var q := Zeros();
    var temps: seq<Temp> := [];
    var costs: seq<real> := [];
    var ep := 0;
    while ep < n
      invariant 0 <= ep <= n
      invariant q == TableAfter(hotRoom, draws, n, m, ep)
      invariant ep < n || ep == 0 ==> temps == [] && costs == []
      invariant 0 < ep == n ==>
                  temps == LastEpisode(hotRoom, draws, n, m, n).temps &&
                  costs == LastEpisode(hotRoom, draws, n, m, n).costs
    {
      q, temps, costs := Episode(hotRoom, q, draws[ep].start, Epsilon(ep, n), draws[ep].steps[..m], ep == n - 1);
      ep := ep + 1;
    }
    assert n == 0 ==> q == Zeros();
    if n > 0 {
      EpisodeCostBounds(hotRoom, TableAfter(hotRoom, draws, n, m, n - 1), draws[n - 1].start,
                         Epsilon(n - 1, n), draws[n - 1].steps[..m], m);
    }
    t := Training(q, temps, costs);
  }
}
