/** The generic dynamic system of include/dynsys.h and src/dynsys.c.

    A system holds a private state `x` of the caller's type `S`, a running
    cost tally `c`, and four callbacks: the dynamics `f`, the control input
    `u`, the running cost `g` and the terminal cost `q`. A callback that is a
    NULL pointer is `None`. The C callbacks update the state in place; here
    they return the updated state. A failed `assert(f != NULL)` is the result
    `None`. */
module DynSys {
  import opened Wrappers

  datatype System<!S> = System(
    x: S,
    c: real,
    f: Option<(S, real) -> S>,
    u: Option<(S, real) -> S>,
    g: Option<(S, real) -> real>,
    q: Option<S -> real>)

  /** A running cost callback, with NULL meaning "no running cost". */
  function RunCost<S>(g: Option<(S, real) -> real>, x: S, dt: real): real {
    match g
    case None => 0.0
    case Some(g) => g(x, dt)
  }

  /** A terminal cost callback, with NULL meaning "no terminal cost". */
  function TermCost<S>(q: Option<S -> real>, x: S): real {
    match q
    case None => 0.0
    case Some(q) => q(x)
  }

  /** A control callback, with NULL meaning "leave the state alone". */
  function Control<S>(u: Option<(S, real) -> S>, x: S, dt: real): S {
    match u
    case None => x
    case Some(u) => u(x, dt)
  }

  /** `DYNSYS_SINIT`: a statically initialised system with an empty tally. */
  function SInit<S>(x: S, f: Option<(S, real) -> S>, u: Option<(S, real) -> S>,
                    g: Option<(S, real) -> real>, q: Option<S -> real>): (s: System<S>)
    ensures s.c == 0.0
    ensures s.x == x && s.f == f && s.u == u && s.g == g && s.q == q
  {
    System(x, 0.0, f, u, g, q)
  }

  /** `dynsys_init` overwrites every field of `prev`: the state and the
      callbacks are the arguments and the cost tally restarts at zero. It
      fails exactly when there is no dynamics function. */
  function Init<S>(prev: System<S>, x: S, f: Option<(S, real) -> S>, u: Option<(S, real) -> S>,
                   g: Option<(S, real) -> real>, q: Option<S -> real>): (r: Option<System<S>>)
    ensures r.Some? <==> f.Some?
    ensures r.Some? ==> r.value.c == 0.0 && r.value.x == x
    ensures r.Some? ==> r.value.f == f && r.value.u == u && r.value.g == g && r.value.q == q
  {
    if f.None? then None else Some(prev.(x := x, c := 0.0, f := f, u := u, g := g, q := q))
  }

  /** Re-initialising forgets everything the old system held, including its
      cost, and agrees with the static initialiser. */
  lemma InitIsSInit<S>(prev: System<S>, x: S, f: Option<(S, real) -> S>, u: Option<(S, real) -> S>,
                       g: Option<(S, real) -> real>, q: Option<S -> real>)
    requires f.Some?
    ensures Init(prev, x, f, u, g, q) == Some(SInit(x, f, u, g, q))
  {
  }

  /** `dynsys_step`: the running cost is charged on the state BEFORE the
      step, then the dynamics advance the state, then the control input (if
      any) acts on the advanced state. The callbacks never change. */
  function Step<S>(s: System<S>, dt: real): (r: Option<System<S>>)
    ensures r.Some? <==> s.f.Some?
    ensures r.Some? ==> r.value.f == s.f && r.value.u == s.u && r.value.g == s.g && r.value.q == s.q
    ensures r.Some? ==> r.value.c - s.c == RunCost(s.g, s.x, dt)
    ensures r.Some? && s.g.None? ==> r.value.c == s.c
    ensures r.Some? ==> r.value.x == Control(s.u, s.f.value(s.x, dt), dt)
    ensures r.Some? && s.u.None? ==> r.value.x == s.f.value(s.x, dt)
  {
    if s.f.None? then None
    else
      var c := if s.g.Some? then s.c + s.g.value(s.x, dt) else s.c;
      var x := s.f.value(s.x, dt);
      var x := if s.u.Some? then s.u.value(x, dt) else x;
      Some(s.(x := x, c := c))
  }

  /** `dynsys_cost`: the tally so far plus the terminal cost of the current
      state, a NULL terminal cost counting as zero. */
  function Cost<S>(s: System<S>): (r: real)
    ensures s.q.None? ==> r == s.c
    ensures r - s.c == TermCost(s.q, s.x)
  {
    if s.q.None? then s.c else s.c + s.q.value(s.x)
  }

  /** A game loop: one `dynsys_step` per time step in `dts`. With no steps
      the dynamics are never asked for, so even a system without them runs. */
  function Run<S>(s: System<S>, dts: seq<real>): (r: Option<System<S>>)
    ensures r.Some? <==> (s.f.Some? || |dts| == 0)
    ensures r.Some? ==> r.value.f == s.f && r.value.u == s.u && r.value.g == s.g && r.value.q == s.q
    decreases |dts|
  {
    if |dts| == 0 then Some(s)
    else
      var s1 :- Step(s, dts[0]);
      Run(s1, dts[1..])
  }

  // Reference semantics of a controlled discrete-time system: the sequence
  // of states it passes through, and the running cost summed along it.

  /** One step of the state alone: dynamics, then control. */
  function Advance<S>(f: (S, real) -> S, u: Option<(S, real) -> S>, x: S, dt: real): S {
    Control(u, f(x, dt), dt)
  }

  /** The states `x_0 = x, x_1, ..., x_n` visited over the steps `dts`. */
  function Trajectory<S>(f: (S, real) -> S, u: Option<(S, real) -> S>, x: S, dts: seq<real>): (xs: seq<S>)
    ensures |xs| == |dts| + 1 && xs[0] == x
    decreases |dts|
  {
    if |dts| == 0 then [x] else [x] + Trajectory(f, u, Advance(f, u, x, dts[0]), dts[1..])
  }

  /** Sum over the steps of the running cost at the state the step starts from. */
  function Tally<S>(g: Option<(S, real) -> real>, xs: seq<S>, dts: seq<real>): real
    requires |dts| <= |xs|
    decreases |dts|
  {
    if |dts| == 0 then 0.0 else RunCost(g, xs[0], dts[0]) + Tally(g, xs[1..], dts[1..])
  }

  function Last<T>(xs: seq<T>): T
    requires |xs| > 0
  {
    xs[|xs| - 1]
  }

  /** Stepping a system with dynamics through `dts` ends in the last state
      of the trajectory, with the running cost of every step it took added to
      the tally it started with. */
  lemma {:induction false} RunMatchesTrajectory<S>(s: System<S>, dts: seq<real>)
    requires s.f.Some?
    ensures Run(s, dts).Some?
    ensures Run(s, dts).value.x == Last(Trajectory(s.f.value, s.u, s.x, dts))
    ensures Run(s, dts).value.c == s.c + Tally(s.g, Trajectory(s.f.value, s.u, s.x, dts), dts)
    decreases |dts|
  {
    if |dts| > 0 {
      var s1 := Step(s, dts[0]).value;
      var rest := dts[1..];
      assert s1.x == Advance(s.f.value, s.u, s.x, dts[0]);
      RunMatchesTrajectory(s1, rest);
      var tail := Trajectory(s.f.value, s.u, s1.x, rest);
      var xs := Trajectory(s.f.value, s.u, s.x, dts);
      assert xs == [s.x] + tail;
      assert xs[1..] == tail;
      assert Last(xs) == Last(tail);
    }
  }

  /** The total cost reported after a run from a fresh system (zero tally)
      is the running cost summed along the trajectory plus the terminal cost
      of the final state: "running cost + terminal cost". */
  lemma TotalCostOfRun<S>(s: System<S>, dts: seq<real>)
    requires s.f.Some? && s.c == 0.0
    ensures Run(s, dts).Some?
    ensures var xs := Trajectory(s.f.value, s.u, s.x, dts);
            Cost(Run(s, dts).value) == Tally(s.g, xs, dts) + TermCost(s.q, Last(xs))
  {
    RunMatchesTrajectory(s, dts);
  }

  /** Without a running cost the tally of a run never moves. */
  lemma {:induction false} NoRunningCostKeepsTally<S>(s: System<S>, dts: seq<real>)
    requires s.g.None?
    requires s.f.Some? || |dts| == 0
    ensures Run(s, dts).Some? && Run(s, dts).value.c == s.c
    decreases |dts|
  {
    if |dts| > 0 {
      NoRunningCostKeepsTally(Step(s, dts[0]).value, dts[1..]);
    }
  }

  // The division of labour the header asks of the callbacks: the dynamics
  // update only the non-control variables and the control function only the
  // control variables. `plant` and `ctl` project the state onto the two.

  ghost predicate DynamicsKeepControls<S(!new), K>(f: (S, real) -> S, ctl: S -> K) {
    forall x: S, dt: real :: ctl(f(x, dt)) == ctl(x)
  }

  ghost predicate ControlKeepsPlant<S(!new), P>(u: (S, real) -> S, plant: S -> P) {
    forall x: S, dt: real :: plant(u(x, dt)) == plant(x)
  }

  /** Under that division of labour, a step leaves the plant variables where
      the dynamics put them and the control variables where the control
      function put them; with no control function the control variables
      keep their values. */
  lemma StepFrame<S(!new), P, K>(s: System<S>, dt: real, plant: S -> P, ctl: S -> K)
    requires s.f.Some? && DynamicsKeepControls(s.f.value, ctl)
    requires s.u.Some? ==> ControlKeepsPlant(s.u.value, plant)
    ensures Step(s, dt).Some?
    ensures plant(Step(s, dt).value.x) == plant(s.f.value(s.x, dt))
    ensures s.u.None? ==> ctl(Step(s, dt).value.x) == ctl(s.x)
    ensures s.u.Some? ==> ctl(Step(s, dt).value.x) == ctl(s.u.value(s.f.value(s.x, dt), dt))
  {
    var x1 := s.f.value(s.x, dt);
    assert ctl(x1) == ctl(s.x);
    if s.u.Some? {
      assert plant(s.u.value(x1, dt)) == plant(x1);
    }
  }

  /** A system without control "runs from its initial conditions with no
      control": over any number of steps its control variables stay as
      initialised. */
  lemma {:induction false} UncontrolledKeepsControls<S(!new), K>(s: System<S>, dts: seq<real>, ctl: S -> K)
    requires s.f.Some? && s.u.None? && DynamicsKeepControls(s.f.value, ctl)
    ensures Run(s, dts).Some? && ctl(Run(s, dts).value.x) == ctl(s.x)
    decreases |dts|
  {
    if |dts| > 0 {
      var s1 := Step(s, dts[0]).value;
      assert ctl(s.f.value(s.x, dts[0])) == ctl(s.x);
      UncontrolledKeepsControls(s1, dts[1..], ctl);
    }
  }

  /** The dynamics of the first step of a run see the control variables the
      system was initialised with; the control function first acts after
      them. */
  lemma FirstStepSeesInitialControls<S(!new), K>(s: System<S>, dt: real, ctl: S -> K)
    requires s.f.Some? && DynamicsKeepControls(s.f.value, ctl)
    ensures Step(s, dt).Some?
    ensures Step(s, dt).value.x == Control(s.u, s.f.value(s.x, dt), dt)
    ensures ctl(s.f.value(s.x, dt)) == ctl(s.x)
  {
  }
}
