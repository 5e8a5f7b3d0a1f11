/** The N-pursuer/N-evader game of examples/npne/main.c.

    `2 n` agents move with simple (holonomic) motion: pursuers are agents
    `0..n-1`, evaders agents `n..2n-1`. Every step the control function
    scores each stored assignment of pursuers to evaders by `y_s`, the sum
    over its pairs of the `y` coordinate of the pair's interception point,
    keeps the first assignment with the largest score, and turns every
    paired pursuer and evader towards their interception point. The game is
    over once every pair of the chosen assignment is within the capture
    radius.

    The static `opt_assign` the control function writes and the capture
    test reads is the `optAssign` field of the game. */
module Npne {
  import opened Wrappers
  import opened Libm
  import opened Vectors
  import opened Utils
  import opened Perms
  import opened Assign
  import opened DynSys
  import opened Pursuit

  const TIMESTEP: real := 0.01
  const CAPTURE_TOLERANCE: real := 0.08
  const P_VEL_MIN: real := 30.0
  const P_VEL_MAX: real := 40.0
  const E_VEL_MIN: real := 10.0
  const E_VEL_MAX: real := 29.0

  /** `struct agent`. */
  datatype Agent = Agent(pos: Vec2, heading: real, vel: real)

  /** `struct game`, with `opt_assign`. */
  datatype Game = Game(
    agents: seq<Agent>,
    assignments: seq<Assignment>,
    n: nat,
    captureRadius: real,
    optAssign: nat)

  predicate TwoTeams(g: Game) {
    |g.agents| == 2 * g.n
  }

  /** `g->pursuers[i]` */
  function P(g: Game, i: nat): Agent
    requires TwoTeams(g) && i < g.n
  {
    g.agents[i]
  }

  /** `g->evaders[j]` */
  function E(g: Game, j: nat): Agent
    requires TwoTeams(g) && j < g.n
  {
    EvaderAt(g.agents, g.n, j)
  }

  /** Evader `j` of a list of `n` pursuers followed by `n` evaders. */
  function EvaderAt(ags: seq<Agent>, n: nat, j: nat): Agent
    requires |ags| == 2 * n && j < n
  {
    ags[n + j]
  }

  /** "We assume every pair is feasible": every evader is slower than every
      pursuer, so no speed ratio reaches 1. */
  predicate Feasible(g: Game)
    requires TwoTeams(g)
  {
    forall i, j :: 0 <= i < g.n && 0 <= j < g.n ==> Slower(g, i, j)
  }

  /** Evader `j` is slower than pursuer `i`. */
  predicate Slower(g: Game, i: nat, j: nat)
    requires TwoTeams(g) && i < g.n && j < g.n
  {
    0.0 <= E(g, j).vel < P(g, i).vel
  }

  /** What `main` has allocated and filled in before `game_randinit`: `n`
      pursuers and `n` evaders, at least one assignment, each a bijection
      (what the corrected generator stores), and `opt_assign` naming one of
      them. Positions, headings and speeds are arbitrary. */
  predicate Allocated(g: Game) {
    1 <= g.n && TwoTeams(g)
    && 1 <= |g.assignments| && g.optAssign < |g.assignments|
    && forall a :: 0 <= a < |g.assignments| ==> IsBijection(g.assignments[a], g.n)
  }

  /** What the program has set up before the first step: an allocated game
      whose speeds are feasible. */
  predicate Valid(g: Game) {
    Allocated(g) && Feasible(g)
  }

  type NGame = g: Game | Valid(g)
    witness Game([Agent(Vec2(0.0, 0.0), 0.0, 1.0), Agent(Vec2(0.0, 0.0), 0.0, 0.0)],
                 [[Pair(0, 0)]], 1, 0.0, 0)

  /** Two games with the same agents' speeds are equally feasible. */
  lemma SameSpeeds(g: Game, h: Game)
    requires TwoTeams(g) && TwoTeams(h) && g.n == h.n
    requires forall k :: 0 <= k < |g.agents| ==> h.agents[k].vel == g.agents[k].vel
    ensures Feasible(g) <==> Feasible(h)
  {
    forall i, j | 0 <= i < g.n && 0 <= j < g.n
      ensures Slower(h, i, j) == Slower(g, i, j)
    {
      assert h.agents[i].vel == g.agents[i].vel;
      assert h.agents[g.n + j].vel == g.agents[g.n + j].vel;
    }
  }

  // Motion

  /** `agent_f`: one Euler step along the heading. */
  function AgentF(m: Libm, ag: Agent, dt: real): (r: Agent)
    ensures r.heading == ag.heading && r.vel == ag.vel
  {
    var s := dt * ag.vel;
    ag.(pos := Vec2(ag.pos.x + s * m.cos(ag.heading), ag.pos.y + s * m.sin(ag.heading)))
  }

  /** With a Pythagorean `sin`/`cos`, an agent covers exactly `dt * vel`. */
  lemma AgentStepLength(m: Libm, ag: Agent, dt: real)
    requires TrigSound(m)
    ensures NormSq2(Sub2(AgentF(m, ag, dt).pos, ag.pos)) == (dt * ag.vel) * (dt * ag.vel)
  {
    var c, s := m.cos(ag.heading), m.sin(ag.heading);
    assert s * s + c * c == 1.0;
    StepLength(dt * ag.vel, c, s);
  }

  /** `game_f`: every agent, pursuers and evaders alike, takes its step;
      nothing but positions changes. */
  function GameF(m: Libm, g: NGame, dt: real): (r: NGame)
    ensures r.n == g.n && r.assignments == g.assignments
    ensures r.captureRadius == g.captureRadius && r.optAssign == g.optAssign
    ensures |r.agents| == |g.agents|
    ensures forall k :: 0 <= k < |g.agents| ==> r.agents[k] == AgentF(m, g.agents[k], dt)
  {
    var ags := seq(|g.agents|, k requires 0 <= k < |g.agents| => AgentF(m, g.agents[k], dt));
    var r := g.(agents := ags);
    SameSpeeds(g, r);
    r
  }

  // Selection value and aim points

  /** `a(g, i, j)`: evader `j`'s speed over pursuer `i`'s. */
  function Ratio(g: NGame, i: nat, j: nat): (a: real)
    requires i < g.n && j < g.n
    ensures 0.0 <= a < 1.0
  {
    assert Slower(g, i, j);
    var ve, vp := E(g, j).vel, P(g, i).vel;
    SlowerRatio(ve, vp);
    ve / vp
  }

  lemma SlowerRatio(ve: real, vp: real)
    requires 0.0 <= ve < vp
    ensures 0.0 <= ve / vp < 1.0
  {
    assert ve / vp * vp == ve;
  }

  /** The pursuer/evader distance `d_ij`. */
  function D(m: Libm, g: NGame, i: nat, j: nat): real
    requires i < g.n && j < g.n
  {
    Dist2(m, P(g, i).pos, E(g, j).pos)
  }

  /** `y_ij`, the selection value of pair `(i, j)`. */
  function Yij(m: Libm, g: NGame, i: nat, j: nat): real
    requires i < g.n && j < g.n
  {
    SelectionY(Ratio(g, i, j), P(g, i).pos, E(g, j).pos, D(m, g, i, j))
  }

  /** `compute_aimpoints`: the point pursuer `i` and evader `j` run to, the
      aim point formula with offset `a * d_ij`. Its `y` coordinate is the
      selection value of the pair. */
  function AimPoints(m: Libm, g: NGame, i: nat, j: nat): (x: Vec2)
    requires i < g.n && j < g.n
    ensures x.y == Yij(m, g, i, j)
  {
    InterceptPointY(Ratio(g, i, j), P(g, i).pos, E(g, j).pos, D(m, g, i, j));
    InterceptPoint(Ratio(g, i, j), P(g, i).pos, E(g, j).pos, D(m, g, i, j))
  }

  /** The aim point is the interception point: with a sound `sqrt`, pursuer
      `i` and evader `j` running straight at it arrive together, so `y_ij`
      is the `y` coordinate of where the evader is caught. */
  lemma AimPointIsInterception(m: Libm, g: NGame, i: nat, j: nat)
    requires SqrtSound(m)
    requires i < g.n && j < g.n
    ensures OnApolloniusCircle(Ratio(g, i, j), P(g, i).pos, E(g, j).pos, AimPoints(m, g, i, j))
  {
    assert D(m, g, i, j) * D(m, g, i, j) == NormSq2(Sub2(P(g, i).pos, E(g, j).pos));
    AimPointIntercepts(Ratio(g, i, j), P(g, i).pos, E(g, j).pos, D(m, g, i, j));
  }

  /** The speed ranges of `game_randinit` give ratios between `1/4` and
      `29/30`. */
  lemma RandomSpeedsFeasible(ve: real, vp: real)
    requires E_VEL_MIN <= ve <= E_VEL_MAX && P_VEL_MIN <= vp <= P_VEL_MAX
    ensures 0.25 <= ve / vp <= 29.0 / 30.0
  {
    RatioBounds(ve, vp, 0.25, 29.0 / 30.0);
  }

  lemma RatioBounds(x: real, y: real, lo: real, hi: real)
    requires 0.0 < y && lo * y <= x <= hi * y
    ensures lo <= x / y <= hi
  {
    var q := x / y;
    assert q * y == x;
    if q < lo {
      MulPos(lo - q, y);
    }
    if q > hi {
      MulPos(q - hi, y);
    }
  }

  // The score of an assignment and the choice of the best one

  /** `y_s` over the first `k` pairs of an assignment. */
  function SumY(m: Libm, g: NGame, pairs: Assignment, k: nat): real
    requires IsBijection(pairs, g.n) && k <= g.n
  {
    if k == 0 then 0.0
    else
      PairInRange(pairs, g.n, k - 1);
      SumY(m, g, pairs, k - 1) + Yij(m, g, pairs[k - 1].i, pairs[k - 1].j)
  }

  lemma PairInRange(pairs: Assignment, n: nat, p: nat)
    requires IsBijection(pairs, n) && p < n
    ensures pairs[p].i == p && pairs[p].j < n
  {
    assert Evaders(pairs)[p] == pairs[p].j;
  }

  /** `y_s(g, a)` */
  function Ys(m: Libm, g: NGame, a: nat): real
    requires a < |g.assignments|
  {
    SumY(m, g, g.assignments[a], g.n)
  }

  /** The loop of `y_s`, accumulating from pair 0 up. */
  method YsLoop(m: Libm, g: NGame, a: nat) returns (ys: real)
    requires a < |g.assignments|
    ensures ys == Ys(m, g, a)
  {
    var pairs := g.assignments[a];
    ys := 0.0;
    for p := 0 to g.n
      invariant ys == SumY(m, g, pairs, p)
    {
      PairInRange(pairs, g.n, p);
      ys := ys + Yij(m, g, pairs[p].i, pairs[p].j);
    }
  }

  /** Every score a pairing of pursuers to evaders can get is the score of
      one of the stored assignments when the stored ones are all of them. */
  lemma ScoresOfAllAssignments(m: Libm, g: NGame, js: seq<nat>)
    requires |g.assignments| == Fact(g.n) && Distinct(g.assignments)
    requires IsPerm(js, g.n)
    ensures exists a :: 0 <= a < |g.assignments| && g.assignments[a] == FromEvaders(js)
  {
    var es := seq(|g.assignments|, k requires 0 <= k < |g.assignments| => Evaders(g.assignments[k]));
    forall x, y | 0 <= x < y < |es|
      ensures es[x] != es[y]
    {
      ShapedDeterminedByEvaders(g.assignments[x], g.n);
      ShapedDeterminedByEvaders(g.assignments[y], g.n);
    }
    forall k | 0 <= k < |es|
      ensures IsPerm(es[k], g.n)
    {
    }
    AllPermsPresent(es, g.n, js);
    var k :| 0 <= k < |es| && es[k] == js;
    ShapedDeterminedByEvaders(g.assignments[k], g.n);
  }

  /** The index `game_u`'s loop settles on: the first of the largest
      values, because only a strictly larger value replaces the current
      best. */
  function FirstMax(ys: seq<real>): (k: nat)
    requires |ys| >= 1
    ensures k < |ys|
    ensures forall a :: 0 <= a < |ys| ==> ys[a] <= ys[k]
    ensures forall a :: 0 <= a < k ==> ys[a] < ys[k]
  {
    if |ys| == 1 then 0
    else
      var k := FirstMax(ys[..|ys| - 1]);
      assert forall a :: 0 <= a < |ys| - 1 ==> ys[..|ys| - 1][a] == ys[a];
      if ys[|ys| - 1] > ys[k] then |ys| - 1 else k
  }

  /** The three properties pin the index down: no other index is a first
      maximum. */
  lemma FirstMaxUnique(ys: seq<real>, k: nat)
    requires |ys| >= 1 && k < |ys|
    requires forall a :: 0 <= a < |ys| ==> ys[a] <= ys[k]
    requires forall a :: 0 <= a < k ==> ys[a] < ys[k]
    ensures k == FirstMax(ys)
  {
  }

  /** The argmax loop of `game_u`. `None` is the initial `-INFINITY`, which
      every score beats. */
  method ArgMax(ys: seq<real>) returns (aMax: nat)
    requires |ys| >= 1
    ensures aMax == FirstMax(ys)
  {
    var best: Option<real> := None;
    aMax := 0;
    for a := 0 to |ys|
      invariant best.None? <==> a == 0
      invariant aMax < |ys| && (0 < a ==> aMax < a && best.value == ys[aMax])
      invariant forall b :: 0 <= b < a ==> ys[b] <= ys[aMax]
      invariant forall b :: 0 <= b < aMax ==> ys[b] < ys[aMax]
    {
      if best.None? || ys[a] > best.value {
        best := Some(ys[a]);
        aMax := a;
      }
    }
    FirstMaxUnique(ys, aMax);
  }

  /** The scores of all stored assignments, in storage order. */
  function Scores(m: Libm, g: NGame): (ys: seq<real>)
    ensures |ys| == |g.assignments|
    ensures forall a :: 0 <= a < |ys| ==> ys[a] == Ys(m, g, a)
  {
    seq(|g.assignments|, a requires 0 <= a < |g.assignments| => Ys(m, g, a))
  }

  // Headings

  function PursuerHeading(m: Libm, g: NGame, i: nat, j: nat): real
    requires i < g.n && j < g.n
  {
    Towards(m, P(g, i).pos, AimPoints(m, g, i, j))
  }

  function EvaderHeading(m: Libm, g: NGame, i: nat, j: nat): real
    requires i < g.n && j < g.n
  {
    Towards(m, E(g, j).pos, AimPoints(m, g, i, j))
  }

  /** The heading loop of `game_u` after its first `k` iterations: pair `p`
      turns pursuer `p` to `ph[p]` and its evader to `eh[p]`. The headings
      are those of the aim points computed from the positions, which the
      loop does not change, so they can be computed up front. */
  function Steer(ags: seq<Agent>, n: nat, pairs: Assignment, ph: seq<real>, eh: seq<real>, k: nat): (r: seq<Agent>)
    requires |ags| == 2 * n && IsBijection(pairs, n) && |ph| == n && |eh| == n && k <= n
    ensures |r| == |ags|
  {
    if k == 0 then ags
    else
      var prev := Steer(ags, n, pairs, ph, eh, k - 1);
      var p := k - 1;
      PairInRange(pairs, n, p);
      var j := pairs[p].j;
      prev[p := prev[p].(heading := ph[p])][n + j := prev[n + j].(heading := eh[p])]
  }

  /** The loop writes headings only. */
  lemma {:induction false} SteerKeepsPlant(ags: seq<Agent>, n: nat, pairs: Assignment, ph: seq<real>, eh: seq<real>, k: nat)
    requires |ags| == 2 * n && IsBijection(pairs, n) && |ph| == n && |eh| == n && k <= n
    ensures var r := Steer(ags, n, pairs, ph, eh, k);
            forall l :: 0 <= l < |r| ==> r[l].pos == ags[l].pos && r[l].vel == ags[l].vel
  {
    if k > 0 {
      SteerKeepsPlant(ags, n, pairs, ph, eh, k - 1);
    }
  }

  /** After `k` iterations pursuers `0..k-1` have their new headings and the
      others are untouched. */
  lemma {:induction false} SteerPursuers(ags: seq<Agent>, n: nat, pairs: Assignment, ph: seq<real>, eh: seq<real>, k: nat)
    requires |ags| == 2 * n && IsBijection(pairs, n) && |ph| == n && |eh| == n && k <= n
    ensures var r := Steer(ags, n, pairs, ph, eh, k);
            (forall p :: 0 <= p < k ==> r[p].heading == ph[p])
            && forall l :: k <= l < n ==> r[l] == ags[l]
  {
    if k > 0 {
      SteerPursuers(ags, n, pairs, ph, eh, k - 1);
    }
  }

  /** After `k` iterations the evaders of pairs `0..k-1` have their new
      headings: an evader is written once, because no evader appears in two
      pairs, so no later pair overwrites it. */
  lemma {:induction false} SteerEvaders(ags: seq<Agent>, n: nat, pairs: Assignment, ph: seq<real>, eh: seq<real>, k: nat)
    requires |ags| == 2 * n && IsBijection(pairs, n) && |ph| == n && |eh| == n && k <= n
    ensures var r := Steer(ags, n, pairs, ph, eh, k);
            forall p :: 0 <= p < k ==> EvaderAt(r, n, pairs[p].j).heading == eh[p]
  {
    if k > 0 {
      SteerEvaders(ags, n, pairs, ph, eh, k - 1);
      EvadersOnce(pairs, n, k);
      var prev, r := Steer(ags, n, pairs, ph, eh, k - 1), Steer(ags, n, pairs, ph, eh, k);
      var q := k - 1;
      PairInRange(pairs, n, q);
      var jq := pairs[q].j;
      assert r == prev[q := prev[q].(heading := ph[q])][n + jq := prev[n + jq].(heading := eh[q])];
      EvaderWrite(prev, n, q, jq, ph[q], eh[q]);
      forall p | 0 <= p < k
        ensures EvaderAt(r, n, pairs[p].j).heading == eh[p]
      {
        PairInRange(pairs, n, p);
      }
    }
  }

  /** One iteration of the heading loop: the evader it names gets the new
      heading and every other evader is untouched. */
  lemma EvaderWrite(prev: seq<Agent>, n: nat, q: nat, jq: nat, hp: real, he: real)
    requires |prev| == 2 * n && q < n && jq < n
    ensures var r := prev[q := prev[q].(heading := hp)][n + jq := prev[n + jq].(heading := he)];
            EvaderAt(r, n, jq).heading == he
            && forall j :: 0 <= j < n && j != jq ==> EvaderAt(r, n, j) == EvaderAt(prev, n, j)
  {
  }

  /** The evaders of pairs `k..n-1` are untouched after `k` iterations. */
  lemma {:induction false} SteerLeavesOtherEvaders(ags: seq<Agent>, n: nat, pairs: Assignment, ph: seq<real>, eh: seq<real>, k: nat)
    requires |ags| == 2 * n && IsBijection(pairs, n) && |ph| == n && |eh| == n && k <= n
    ensures var r := Steer(ags, n, pairs, ph, eh, k);
            forall j :: 0 <= j < n && j !in Evaders(pairs)[..k] ==> EvaderAt(r, n, j) == EvaderAt(ags, n, j)
  {
    if k > 0 {
      SteerLeavesOtherEvaders(ags, n, pairs, ph, eh, k - 1);
      EvadersOnce(pairs, n, k);
      var prev, r := Steer(ags, n, pairs, ph, eh, k - 1), Steer(ags, n, pairs, ph, eh, k);
      var q := k - 1;
      PairInRange(pairs, n, q);
      var jq := pairs[q].j;
      assert r == prev[q := prev[q].(heading := ph[q])][n + jq := prev[n + jq].(heading := eh[q])];
      forall j | 0 <= j < n && j !in Evaders(pairs)[..k]
        ensures EvaderAt(r, n, j) == EvaderAt(ags, n, j)
      {
        assert j != jq && j !in Evaders(pairs)[..k - 1];
        assert EvaderAt(r, n, j) == EvaderAt(prev, n, j);
      }
    }
  }

  /** Evader `pairs[k-1].j` was not written by the first `k - 1` pairs, and
      no other evader is written by pair `k - 1`. */
  lemma EvadersOnce(pairs: Assignment, n: nat, k: nat)
    requires IsBijection(pairs, n) && 1 <= k <= n
    ensures pairs[k - 1].j !in Evaders(pairs)[..k - 1]
    ensures forall p :: 0 <= p < k - 1 ==> pairs[p].j != pairs[k - 1].j
    ensures Evaders(pairs)[..k] == Evaders(pairs)[..k - 1] + [pairs[k - 1].j]
  {
    var es := Evaders(pairs);
    assert Distinct(es);
    assert es[..k] == es[..k - 1] + [es[k - 1]];
  }

  /** The headings `game_u` gives pursuers and evaders when it steers by
      the assignment `pairs`, indexed by pair. */
  function PursuerHeadings(m: Libm, g: NGame, pairs: Assignment): (ph: seq<real>)
    requires IsBijection(pairs, g.n)
    ensures |ph| == g.n
  {
    seq(g.n, p requires 0 <= p < g.n => PairInRange(pairs, g.n, p); PursuerHeading(m, g, p, pairs[p].j))
  }

  function EvaderHeadings(m: Libm, g: NGame, pairs: Assignment): (eh: seq<real>)
    requires IsBijection(pairs, g.n)
    ensures |eh| == g.n
  {
    seq(g.n, p requires 0 <= p < g.n => PairInRange(pairs, g.n, p); EvaderHeading(m, g, p, pairs[p].j))
  }

  /** `game_u`: score every assignment, record the first best one in
      `opt_assign`, and steer each of its pairs at their aim point. */
  function GameU(m: Libm, g: NGame, dt: real): (r: NGame)
    ensures r.n == g.n && r.assignments == g.assignments && r.captureRadius == g.captureRadius
    ensures r.optAssign == FirstMax(Scores(m, g))
    ensures |r.agents| == |g.agents|
    ensures forall l :: 0 <= l < |g.agents| ==> r.agents[l].pos == g.agents[l].pos && r.agents[l].vel == g.agents[l].vel
  {
    var aMax := FirstMax(Scores(m, g));
    var pairs := g.assignments[aMax];
    var ph, eh := PursuerHeadings(m, g, pairs), EvaderHeadings(m, g, pairs);
    var ags := Steer(g.agents, g.n, pairs, ph, eh, g.n);
    SteerKeepsPlant(g.agents, g.n, pairs, ph, eh, g.n);
    var r := g.(agents := ags, optAssign := aMax);
    SameSpeeds(g, r);
    r
  }

  /** After `game_u` every pursuer faces the aim point of its own pair in
      the assignment `game_u` chose. */
  lemma GameUSteersPursuers(m: Libm, g: NGame, dt: real)
    ensures var r := GameU(m, g, dt);
            var pairs := g.assignments[r.optAssign];
            forall i :: 0 <= i < g.n ==> P(r, i).heading == PursuerHeading(m, g, i, pairs[i].j)
  {
    var r := GameU(m, g, dt);
    var pairs := g.assignments[r.optAssign];
    var ph, eh := PursuerHeadings(m, g, pairs), EvaderHeadings(m, g, pairs);
    assert r.agents == Steer(g.agents, g.n, pairs, ph, eh, g.n);
    SteerPursuers(g.agents, g.n, pairs, ph, eh, g.n);
    forall i | 0 <= i < g.n
      ensures P(r, i).heading == PursuerHeading(m, g, i, pairs[i].j)
    {
      assert P(r, i) == r.agents[i];
    }
  }

  /** After `game_u` the evader of every pair faces that pair's aim point. */
  lemma GameUSteersPairedEvaders(m: Libm, g: NGame, dt: real)
    ensures var r := GameU(m, g, dt);
            var pairs := g.assignments[r.optAssign];
            forall i :: 0 <= i < g.n ==>
              pairs[i].j < g.n && E(r, pairs[i].j).heading == EvaderHeading(m, g, i, pairs[i].j)
  {
    var r := GameU(m, g, dt);
    var pairs := g.assignments[r.optAssign];
    var ph, eh := PursuerHeadings(m, g, pairs), EvaderHeadings(m, g, pairs);
    assert r.agents == Steer(g.agents, g.n, pairs, ph, eh, g.n);
    SteerEvaders(g.agents, g.n, pairs, ph, eh, g.n);
    forall i | 0 <= i < g.n
      ensures pairs[i].j < g.n && E(r, pairs[i].j).heading == EvaderHeading(m, g, i, pairs[i].j)
    {
      PairInRange(pairs, g.n, i);
      assert E(r, pairs[i].j) == EvaderAt(r.agents, g.n, pairs[i].j);
    }
  }

  /** Evader `j` of `r` faces the aim point of a pair of `pairs` that names it. */
  predicate FacesItsPair(m: Libm, g: NGame, r: NGame, pairs: Assignment, j: nat)
    requires r.n == g.n && |pairs| == g.n && j < g.n
  {
    exists i :: 0 <= i < g.n && pairs[i].j == j && E(r, j).heading == EvaderHeading(m, g, i, j)
  }

  /** Because the chosen assignment is a bijection, `game_u` also leaves
      every evader facing the aim point of the one pair that names it. */
  lemma GameUSteersEvaders(m: Libm, g: NGame, dt: real)
    ensures var r := GameU(m, g, dt);
            forall j :: 0 <= j < g.n ==> FacesItsPair(m, g, r, g.assignments[r.optAssign], j)
  {
    var r := GameU(m, g, dt);
    GameUSteersPairedEvaders(m, g, dt);
    PairedMeansEvery(m, g, r, g.assignments[r.optAssign]);
  }

  /** When the evader of every pair of a bijection faces its pair's aim
      point, every evader faces the aim point of the pair naming it. */
  lemma PairedMeansEvery(m: Libm, g: NGame, r: NGame, pairs: Assignment)
    requires r.n == g.n && IsBijection(pairs, g.n)
    requires forall i :: 0 <= i < g.n ==>
               pairs[i].j < g.n && E(r, pairs[i].j).heading == EvaderHeading(m, g, i, pairs[i].j)
    ensures forall j :: 0 <= j < g.n ==> FacesItsPair(m, g, r, pairs, j)
  {
    forall j | 0 <= j < g.n
      ensures FacesItsPair(m, g, r, pairs, j)
    {
      BijectionOnto(pairs, g.n, j);
      var i :| 0 <= i < g.n && pairs[i].j == j;
      assert E(r, pairs[i].j).heading == EvaderHeading(m, g, i, pairs[i].j);
    }
  }

  // Capture

  /** Pair `p` of the assignment `opt_assign` names, and its distance. */
  function PairDist(m: Libm, g: NGame, p: nat): real
    requires p < g.n
  {
    var pair := g.assignments[g.optAssign][p];
    PairInRange(g.assignments[g.optAssign], g.n, p);
    Dist2(m, P(g, pair.i).pos, E(g, pair.j).pos)
  }

  /** The test of one pair in the capture loop: the game goes on while the
      pair is farther apart than the radius and not "equal" to it. */
  predicate KeepsGoing(dist: real, radius: real, tol: real) {
    dist > radius && !FIsEqual(dist, radius, tol)
  }

  /** The capture test as written: no pair keeps the game going. */
  predicate GameOver(m: Libm, g: NGame) {
    forall p :: 0 <= p < g.n ==> !KeepsGoing(PairDist(m, g, p), g.captureRadius, CAPTURE_TOLERANCE)
  }

  /** The tolerance term never decides anything: a pair keeps the game
      going exactly when it is farther apart than the radius. */
  lemma ToleranceIsDead(dist: real, radius: real, tol: real)
    requires 0.0 <= tol
    ensures KeepsGoing(dist, radius, tol) <==> dist > radius
  {
  }

  /** So the game is over exactly when every pair of `opt_assign` is within
      the capture radius. */
  lemma GameOverIffAllWithinRadius(m: Libm, g: NGame)
    ensures GameOver(m, g) <==> forall p :: 0 <= p < g.n ==> PairDist(m, g, p) <= g.captureRadius
  {
    forall p | 0 <= p < g.n {
      ToleranceIsDead(PairDist(m, g, p), g.captureRadius, CAPTURE_TOLERANCE);
    }
  }

  /** The intended test: a pair within the radius or within the tolerance
      of it counts as caught. */
  predicate GameOverWithTolerance(m: Libm, g: NGame) {
    forall p :: 0 <= p < g.n ==>
      PairDist(m, g, p) <= g.captureRadius || FIsEqualIntended(PairDist(m, g, p), g.captureRadius, CAPTURE_TOLERANCE)
  }

  lemma GameOverWithToleranceMeaning(m: Libm, g: NGame)
    ensures GameOverWithTolerance(m, g) <==>
            forall p :: 0 <= p < g.n ==> PairDist(m, g, p) <= g.captureRadius + CAPTURE_TOLERANCE
    ensures GameOver(m, g) ==> GameOverWithTolerance(m, g)
  {
    GameOverIffAllWithinRadius(m, g);
  }

  /** A pair `0.04` outside a radius of 1 keeps the game as written going,
      although it is within the tolerance. */
  lemma ToleranceIgnored()
    ensures KeepsGoing(1.04, 1.0, CAPTURE_TOLERANCE)
    ensures FIsEqualIntended(1.04, 1.0, CAPTURE_TOLERANCE)
  {
  }

  // Initial conditions

  /** One agent of `game_randinit`: `x`, `y` and speed drawn from `r0`,
      `r1`, `r2` in that order; the heading is left as it was. */
  function DrawAgent(ag: Agent, pursuer: bool, w: real, h: real, r0: Rand, r1: Rand, r2: Rand): (r: Agent)
    requires 0.0 < w && 0.0 < h
    ensures r.heading == ag.heading
    ensures 0.0 <= r.pos.x <= w && 0.0 <= r.pos.y <= h
    ensures pursuer ==> P_VEL_MIN <= r.vel <= P_VEL_MAX
    ensures !pursuer ==> E_VEL_MIN <= r.vel <= E_VEL_MAX
  {
    var vel := if pursuer then RandVal(P_VEL_MIN, P_VEL_MAX, r2) else RandVal(E_VEL_MIN, E_VEL_MAX, r2);
    Agent(Vec2(RandVal(0.0, w, r0), RandVal(0.0, h, r1)), ag.heading, vel)
  }

  /** `game_randinit`: every agent gets a position in the `w` by `h` area
      and a speed from its side's range, three draws per agent; headings
      are left as they were. The speed ranges do not overlap, so the game
      stays feasible. */
  function RandInit(g: Game, w: real, h: real, rs: seq<Rand>): (r: NGame)
    requires Allocated(g) && 0.0 < w && 0.0 < h && |rs| == 3 * |g.agents|
    ensures r.n == g.n && r.assignments == g.assignments
    ensures r.captureRadius == g.captureRadius && r.optAssign == g.optAssign
    ensures |r.agents| == |g.agents|
    ensures forall k :: 0 <= k < |g.agents| ==> r.agents[k].heading == g.agents[k].heading
    ensures forall k :: 0 <= k < |g.agents| ==> 0.0 <= r.agents[k].pos.x <= w && 0.0 <= r.agents[k].pos.y <= h
    ensures forall i :: 0 <= i < g.n ==> P_VEL_MIN <= P(r, i).vel <= P_VEL_MAX
    ensures forall j :: 0 <= j < g.n ==> E_VEL_MIN <= E(r, j).vel <= E_VEL_MAX
  {
    var ags := seq(|g.agents|, k requires 0 <= k < |g.agents| =>
      DrawAgent(g.agents[k], k < g.n, w, h, rs[3 * k], rs[3 * k + 1], rs[3 * k + 2]));
    var r := g.(agents := ags);
    assert Feasible(r) by {
      forall i, j | 0 <= i < g.n && 0 <= j < g.n
        ensures Slower(r, i, j)
      {
        assert P(r, i) == ags[i] && E(r, j) == ags[g.n + j];
      }
    }
    r
  }

  // The game as a dynamic system

  function Dynamics(m: Libm): (NGame, real) -> NGame {
    (g: NGame, dt: real) => GameF(m, g, dt)
  }

  function Controller(m: Libm): (NGame, real) -> NGame {
    (g: NGame, dt: real) => GameU(m, g, dt)
  }

  /** Lines 260-262 and the reseed of 289-290: random initial conditions,
      then `dynsys_init` with `game_f`, `game_u` and no costs. */
  function Setup(m: Libm, prev: System<NGame>, g: Game, w: real, h: real, rs: seq<Rand>): (r: System<NGame>)
    requires Allocated(g) && 0.0 < w && 0.0 < h && |rs| == 3 * |g.agents|
    ensures r.c == 0.0 && r.x == RandInit(g, w, h, rs)
    ensures r.f == Some(Dynamics(m)) && r.u == Some(Controller(m)) && r.g.None? && r.q.None?
  {
    Init(prev, RandInit(g, w, h, rs), Some(Dynamics(m)), Some(Controller(m)), None, None).value
  }

  /** Without running or terminal cost the game's cost is zero however
      long it runs and whatever the previous game had accumulated. */
  lemma CostStaysZero(m: Libm, prev: System<NGame>, g: Game, w: real, h: real, rs: seq<Rand>, dts: seq<real>)
    requires Allocated(g) && 0.0 < w && 0.0 < h && |rs| == 3 * |g.agents|
    ensures Run(Setup(m, prev, g, w, h, rs), dts).Some?
    ensures Cost(Run(Setup(m, prev, g, w, h, rs), dts).value) == 0.0
  {
    var s := Setup(m, prev, g, w, h, rs);
    NoRunningCostKeepsTally(s, dts);
  }

  /** The headings of a game, the only variables the controller sets. */
  function Headings(g: NGame): seq<real> {
    seq(|g.agents|, k requires 0 <= k < |g.agents| => g.agents[k].heading)
  }

  /** Everything the dynamics act on: positions and speeds. */
  function Plant(g: NGame): seq<(Vec2, real)> {
    seq(|g.agents|, k requires 0 <= k < |g.agents| => (g.agents[k].pos, g.agents[k].vel))
  }

  /** `game_f` and `game_u` keep to the division of labour of dynsys.h. */
  lemma DivisionOfLabour(m: Libm)
    ensures DynamicsKeepControls(Dynamics(m), Headings)
    ensures ControlKeepsPlant(Controller(m), Plant)
  {
    forall g: NGame, dt: real
      ensures Headings(Dynamics(m)(g, dt)) == Headings(g)
    {
      assert Dynamics(m)(g, dt) == GameF(m, g, dt);
    }
    forall g: NGame, dt: real
      ensures Plant(Controller(m)(g, dt)) == Plant(g)
    {
      assert Controller(m)(g, dt) == GameU(m, g, dt);
    }
  }

  /** The first step after (re)initialisation moves every agent along the
      heading it had BEFORE `game_randinit`, which sets no heading:
      `dynsys_init` does not call `game_u`, and `dynsys_step` runs `game_f`
      before `game_u`. On a fresh game those headings are uninitialised
      memory; on a reseed they are the old game's. */
  lemma FirstStepUsesStaleHeadings(m: Libm, prev: System<NGame>, g: Game, w: real, h: real, rs: seq<Rand>, dt: real)
    requires Allocated(g) && 0.0 < w && 0.0 < h && |rs| == 3 * |g.agents|
    ensures var s := Setup(m, prev, g, w, h, rs);
            var x0 := RandInit(g, w, h, rs);
            Step(s, dt).Some?
            && forall k :: 0 <= k < |g.agents| ==>
                 Step(s, dt).value.x.agents[k].pos
                   == AgentF(m, Agent(x0.agents[k].pos, g.agents[k].heading, x0.agents[k].vel), dt).pos
  {
    var s := Setup(m, prev, g, w, h, rs);
    var x0 := RandInit(g, w, h, rs);
    var x1 := GameF(m, x0, dt);
    assert Step(s, dt).value.x == GameU(m, x1, dt);
    forall k | 0 <= k < |g.agents|
      ensures x0.agents[k] == Agent(x0.agents[k].pos, g.agents[k].heading, x0.agents[k].vel)
    {
    }
  }

  /** The evident intent: steer once before the first step, so that the
      first step already moves every agent towards its aim point. */
  function SetupSteered(m: Libm, prev: System<NGame>, g: Game, w: real, h: real, rs: seq<Rand>): (r: System<NGame>)
    requires Allocated(g) && 0.0 < w && 0.0 < h && |rs| == 3 * |g.agents|
    ensures r.c == 0.0 && r.x == GameU(m, RandInit(g, w, h, rs), 0.0)
    ensures r.f == Some(Dynamics(m)) && r.u == Some(Controller(m)) && r.g.None? && r.q.None?
  {
    Init(prev, GameU(m, RandInit(g, w, h, rs), 0.0), Some(Dynamics(m)), Some(Controller(m)), None, None).value
  }

  /** With the corrected setup the first step moves each pursuer towards
      the aim point of its pair in the best assignment. */
  lemma SteeredFirstStep(m: Libm, prev: System<NGame>, g: Game, w: real, h: real, rs: seq<Rand>, dt: real)
    requires Allocated(g) && 0.0 < w && 0.0 < h && |rs| == 3 * |g.agents|
    ensures var s := SetupSteered(m, prev, g, w, h, rs);
            var x0 := RandInit(g, w, h, rs);
            var pairs := x0.assignments[FirstMax(Scores(m, x0))];
            Step(s, dt).Some?
            && forall i :: 0 <= i < g.n ==>
                 P(Step(s, dt).value.x, i).pos
                   == AgentF(m, Agent(P(x0, i).pos, PursuerHeading(m, x0, i, pairs[i].j), P(x0, i).vel), dt).pos
  {
    var s := SetupSteered(m, prev, g, w, h, rs);
    var x0 := RandInit(g, w, h, rs);
    var x1 := GameF(m, s.x, dt);
    assert Step(s, dt).value.x == GameU(m, x1, dt);
    GameUSteersPursuers(m, x0, 0.0);
  }
}
