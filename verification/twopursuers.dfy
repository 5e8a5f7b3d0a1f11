/** The fixed game of examples/2p2e.c: two pursuers against two evaders,
    all with constant speeds, on a flat state vector of twelve slots (an
    `x`, `y` and heading per player, in the order of `enum var_e`).

    Each evader is caught, if the pursuers play the pairing `opt_aimpoints`
    chooses, on the Apollonius circle of its pair; the game compares the two
    possible pairings by the sum of the `y` coordinates of those interception
    points and steers every player towards the aim point of its pair. */
module TwoPursuers {
  import opened Wrappers
  import opened Libm
  import opened Vectors
  import opened Utils
  import opened DynSys
  import opened Pursuit
  import Assign

  const TIMESTEP: real := 0.01
  const WIDTH: nat := 1024
  const HEIGHT: nat := 1024
  const SCALE: real := 4.0
  const CAPTURE_RADIUS: real := 10.0

  // `enum var_e`: the slots of the state vector.
  const P1_X: nat := 0
  const P1_Y: nat := 1
  const P1_H: nat := 2
  const P2_X: nat := 3
  const P2_Y: nat := 4
  const P2_H: nat := 5
  const E1_X: nat := 6
  const E1_Y: nat := 7
  const E1_H: nat := 8
  const E2_X: nat := 9
  const E2_Y: nat := 10
  const E2_H: nat := 11

  /** `game_x`: twelve doubles. */
  type State = x: seq<real> | |x| == 12
    witness [0.0, 0.0, 0.0, 0.0, 0.0, 0.0, 0.0, 0.0, 0.0, 0.0, 0.0, 0.0]

  /** The four players, with their slots and their constant speeds. */
  datatype Player = P1 | P2 | E1 | E2 {
    function X(): (k: nat)
      ensures k < 12 && k % 3 == 0
    {
      match this
      case P1 => P1_X
      case P2 => P2_X
      case E1 => E1_X
      case E2 => E2_X
    }

    function Y(): (k: nat)
      ensures k == X() + 1
    {
      match this
      case P1 => P1_Y
      case P2 => P2_Y
      case E1 => E1_Y
      case E2 => E2_Y
    }

    function H(): (k: nat)
      ensures k == X() + 2
    {
      match this
      case P1 => P1_H
      case P2 => P2_H
      case E1 => E1_H
      case E2 => E2_H
    }

    /** `P1_VEL`, `P2_VEL`, `E1_VEL`, `E2_VEL`. */
    function Vel(): (v: real)
      ensures 0.0 < v
    {
      match this
      case P1 => 45.0
      case P2 => 40.0
      case E1 => 25.0
      case E2 => 20.0
    }
  }

  /** Distinct players own disjoint slots. */
  lemma SlotsDisjoint(a: Player, b: Player)
    requires a != b
    ensures a.X() != b.X() && a.Y() != b.Y() && a.H() != b.H()
    ensures a.X() != b.Y() && a.X() != b.H() && a.Y() != b.H()
  {
  }

  /** Index 0 or 1 of a side, as in `xp[i]`, `ye[j]`, `RATIOS[i][j]`. */
  type Idx = i: nat | i < 2

  function Pursuer(i: Idx): Player {
    if i == 0 then P1 else P2
  }

  function Evader(j: Idx): Player {
    if j == 0 then E1 else E2
  }

  function Pos(x: State, pl: Player): Vec2 {
    Vec2(x[pl.X()], x[pl.Y()])
  }

  function Heading(x: State, pl: Player): real {
    x[pl.H()]
  }

  /** `RATIOS[i][j]`: evader `j`'s speed over pursuer `i`'s. Every evader is
      slower than every pursuer, so every `a_den` is positive. */
  function Ratios(i: Idx, j: Idx): (a: real)
    ensures 0.0 < a < 1.0 && 0.0 < 1.0 - a * a
  {
    var a := Evader(j).Vel() / Pursuer(i).Vel();
    SquareBelowOne(a);
    a
  }

  /** The table, entry by entry. */
  lemma RatiosTable()
    ensures Ratios(0, 0) == 5.0 / 9.0 && Ratios(0, 1) == 4.0 / 9.0
    ensures Ratios(1, 0) == 5.0 / 8.0 && Ratios(1, 1) == 1.0 / 2.0
  {
  }

  /** `dist(x1, y1, x2, y2)`. */
  function Dist(m: Libm, x1: real, y1: real, x2: real, y2: real): real {
    m.sqrt((x2 - x1) * (x2 - x1) + (y2 - y1) * (y2 - y1))
  }

  /** `dist` is symmetric in its two points and is the 2D distance of
      `vec2d_dist`; with a sound `sqrt` it is a non-negative root of the
      squared distance. */
  lemma DistMeaning(m: Libm, x1: real, y1: real, x2: real, y2: real)
    ensures Dist(m, x1, y1, x2, y2) == Dist(m, x2, y2, x1, y1)
    ensures Dist(m, x1, y1, x2, y2) == Dist2(m, Vec2(x1, y1), Vec2(x2, y2))
    ensures SqrtSound(m) ==> 0.0 <= Dist(m, x1, y1, x2, y2)
    ensures SqrtSound(m) ==>
              Dist(m, x1, y1, x2, y2) * Dist(m, x1, y1, x2, y2) == NormSq2(Sub2(Vec2(x1, y1), Vec2(x2, y2)))
  {
    SquareOfNegation(x2 - x1);
    SquareOfNegation(y2 - y1);
    assert x1 - x2 == -(x2 - x1) && y1 - y2 == -(y2 - y1);
    var n := (x2 - x1) * (x2 - x1) + (y2 - y1) * (y2 - y1);
    assert NormSq2(Sub2(Vec2(x1, y1), Vec2(x2, y2))) == n;
    if SqrtSound(m) {
      assert 0.0 <= n;
      assert 0.0 <= m.sqrt(n) && m.sqrt(n) * m.sqrt(n) == n;
    }
  }

  // Dynamics

  /** `player_f`: one player moves `dt * vel` along its heading. */
  function PlayerF(m: Libm, x: State, pl: Player, dt: real): (r: State)
    ensures forall k :: 0 <= k < 12 && k != pl.X() && k != pl.Y() ==> r[k] == x[k]
  {
    var s := dt * pl.Vel();
    var h := x[pl.H()];
    x[pl.X() := x[pl.X()] + s * m.cos(h)][pl.Y() := x[pl.Y()] + s * m.sin(h)]
  }

  /** With a Pythagorean `sin`/`cos`, the step has length `dt * vel`. */
  lemma PlayerStepLength(m: Libm, x: State, pl: Player, dt: real)
    requires TrigSound(m)
    ensures NormSq2(Sub2(Pos(PlayerF(m, x, pl, dt), pl), Pos(x, pl))) == (dt * pl.Vel()) * (dt * pl.Vel())
  {
    var h := x[pl.H()];
    var c, s := m.cos(h), m.sin(h);
    assert s * s + c * c == 1.0;
    var w := dt * pl.Vel();
    var d := Sub2(Pos(PlayerF(m, x, pl, dt), pl), Pos(x, pl));
    assert d.x == w * c && d.y == w * s;
    StepLength(w, c, s);
  }

  /** `game_f`: the four players in turn. */
  function GameF(m: Libm, x: State, dt: real): State {
    PlayerF(m, PlayerF(m, PlayerF(m, PlayerF(m, x, P1, dt), P2, dt), E1, dt), E2, dt)
  }

  /** The order of the four calls does not matter: every player moves as if
      it were alone, from its own position along its own heading, and no
      heading changes. */
  lemma GameFMovesEachAlone(m: Libm, x: State, dt: real)
    ensures forall pl: Player :: Heading(GameF(m, x, dt), pl) == Heading(x, pl)
    ensures forall pl: Player :: Pos(GameF(m, x, dt), pl) == Pos(PlayerF(m, x, pl, dt), pl)
  {
    var x1 := PlayerF(m, x, P1, dt);
    var x2 := PlayerF(m, x1, P2, dt);
    var x3 := PlayerF(m, x2, E1, dt);
    var x4 := PlayerF(m, x3, E2, dt);
    assert x4 == GameF(m, x, dt);
    forall pl: Player
      ensures Heading(x4, pl) == Heading(x, pl)
      ensures Pos(x4, pl) == Pos(PlayerF(m, x, pl, dt), pl)
    {
      assert pl.H() % 3 == 2;
    }
  }

  // Aim points

  /** `d(i, j)`: the distance from pursuer `i` to evader `j`, with the
      pursuer's coordinates first as at `#define d(i, j)`. */
  function D(m: Libm, x: State, i: Idx, j: Idx): real {
    var p, e := Pos(x, Pursuer(i)), Pos(x, Evader(j));
    Dist(m, p.x, p.y, e.x, e.y)
  }

  /** With a sound `sqrt`, `d(i, j)` is the non-negative root of the squared
      distance between the two players. */
  lemma DSquared(m: Libm, x: State, i: Idx, j: Idx)
    requires SqrtSound(m)
    ensures 0.0 <= D(m, x, i, j)
    ensures D(m, x, i, j) * D(m, x, i, j) == NormSq2(Sub2(Pos(x, Pursuer(i)), Pos(x, Evader(j))))
  {
    var p, e := Pos(x, Pursuer(i)), Pos(x, Evader(j));
    DistMeaning(m, p.x, p.y, e.x, e.y);
  }

  /** `y_ij(i, j, ...)`. */
  function Yij(m: Libm, x: State, i: Idx, j: Idx): real {
    SelectionY(Ratios(i, j), Pos(x, Pursuer(i)), Pos(x, Evader(j)), D(m, x, i, j))
  }

  /** The two ways to pair the pursuers with the evaders: Equation 10 of
      the source (P1 with E1, P2 with E2) and Equation 11 (P1 with E2, P2
      with E1). */
  datatype Pairing = Straight | Crossed {
    /** The evader pursuer `i` chases. */
    function Target(i: Idx): Idx {
      if this.Straight? then i else 1 - i
    }

    /** The pursuer that chases evader `j`. */
    function Chaser(j: Idx): (i: Idx)
      ensures Target(i) == j
    {
      if this.Straight? then j else 1 - j
    }
  }

  /** `ys1` and `ys2`: the sum of the selection values of a pairing's two pairs. */
  function Score(m: Libm, x: State, pairing: Pairing): real {
    match pairing
    case Straight => Yij(m, x, 0, 0) + Yij(m, x, 1, 1)
    case Crossed => Yij(m, x, 0, 1) + Yij(m, x, 1, 0)
  }

  /** The pairing of `opt_aimpoints`: a best one, and on a tie Equation 11. */
  function Choice(m: Libm, x: State): (c: Pairing)
    ensures forall q: Pairing :: Score(m, x, q) <= Score(m, x, c)
    ensures Score(m, x, Straight) == Score(m, x, Crossed) ==> c == Crossed
  {
    if Score(m, x, Straight) > Score(m, x, Crossed) then Straight else Crossed
  }

  /** Which offset an aim point subtracts: `a^2 * d` as `opt_aimpoints`
      writes it, or `a * d`, the radius of the Apollonius circle, as the
      selection value `y_ij` does. */
  datatype Aiming = AsWritten | Intended

  function Aim(aiming: Aiming, a: real, p: Vec2, e: Vec2, d: real): Vec2
    requires 0.0 <= a < 1.0
  {
    match aiming
    case AsWritten => SquaredOffsetPoint(a, p, e, d)
    case Intended => InterceptPoint(a, p, e, d)
  }

  /** The aim point of the pair of pursuer `i` and evader `j`. */
  function PairAim(aiming: Aiming, m: Libm, x: State, i: Idx, j: Idx): Vec2 {
    Aim(aiming, Ratios(i, j), Pos(x, Pursuer(i)), Pos(x, Evader(j)), D(m, x, i, j))
  }

  /** The eight out-parameters of `opt_aimpoints`, as four points. */
  datatype Aims = Aims(e1: Vec2, e2: Vec2, p1: Vec2, p2: Vec2) {
    function ForEvader(j: Idx): Vec2 {
      if j == 0 then e1 else e2
    }

    function ForPursuer(i: Idx): Vec2 {
      if i == 0 then p1 else p2
    }
  }

  /** `opt_aimpoints`. Each evader aims at the point of its pair in the
      chosen pairing, and each pursuer at the point of the evader it chases. */
  function OptAimPoints(aiming: Aiming, m: Libm, x: State): (r: Aims)
    ensures forall j: Idx :: r.ForEvader(j) == PairAim(aiming, m, x, Choice(m, x).Chaser(j), j)
    ensures forall i: Idx :: r.ForPursuer(i) == r.ForEvader(Choice(m, x).Target(i))
  {
    if Score(m, x, Straight) > Score(m, x, Crossed) then
      var e1 := Aim(aiming, Ratios(0, 0), Pos(x, P1), Pos(x, E1), D(m, x, 0, 0));
      var e2 := Aim(aiming, Ratios(1, 1), Pos(x, P2), Pos(x, E2), D(m, x, 1, 1));
      Aims(e1, e2, e1, e2)
    else
      var e1 := Aim(aiming, Ratios(1, 0), Pos(x, P2), Pos(x, E1), D(m, x, 1, 0));
      var e2 := Aim(aiming, Ratios(0, 1), Pos(x, P1), Pos(x, E2), D(m, x, 0, 1));
      Aims(e1, e2, e2, e1)
  }

  /** The selection value of a pair is the `y` coordinate of its intended
      aim point: a pairing is scored by where its evaders would be caught. */
  lemma SelectionIsInterceptY(m: Libm, x: State, i: Idx, j: Idx)
    ensures Yij(m, x, i, j) == PairAim(Intended, m, x, i, j).y
  {
    InterceptPointY(Ratios(i, j), Pos(x, Pursuer(i)), Pos(x, Evader(j)), D(m, x, i, j));
  }

  /** With the offset `a * d`, both players of a pair reach their aim point
      at the same moment. */
  lemma IntendedAimIntercepts(m: Libm, x: State, i: Idx, j: Idx)
    requires SqrtSound(m)
    ensures OnApolloniusCircle(Ratios(i, j), Pos(x, Pursuer(i)), Pos(x, Evader(j)), PairAim(Intended, m, x, i, j))
  {
    DSquared(m, x, i, j);
    AimPointIntercepts(Ratios(i, j), Pos(x, Pursuer(i)), Pos(x, Evader(j)), D(m, x, i, j));
  }

  /** With the offset `a^2 * d` of the source, the aim point is an
      interception point only when the two players already stand on the
      same spot. */
  lemma AsWrittenAimMisses(m: Libm, x: State, i: Idx, j: Idx)
    requires SqrtSound(m)
    ensures OnApolloniusCircle(Ratios(i, j), Pos(x, Pursuer(i)), Pos(x, Evader(j)), PairAim(AsWritten, m, x, i, j))
            <==> Pos(x, Pursuer(i)) == Pos(x, Evader(j))
  {
    DSquared(m, x, i, j);
    SquaredOffsetMissesUnlessTogether(Ratios(i, j), Pos(x, Pursuer(i)), Pos(x, Evader(j)), D(m, x, i, j));
  }

  lemma SquaredOffsetMissesUnlessTogether(a: real, p: Vec2, e: Vec2, d: real)
    requires 0.0 < a < 1.0 && 0.0 <= d
    requires d * d == NormSq2(Sub2(p, e))
    ensures OnApolloniusCircle(a, p, e, SquaredOffsetPoint(a, p, e, d)) <==> p == e
  {
    SquaredOffsetMisses(a, p, e, d);
    ApartIffPositive(p, e, d);
  }

  /** A non-negative root of the squared distance is zero exactly when the
      two points coincide. */
  lemma ApartIffPositive(p: Vec2, e: Vec2, d: real)
    requires 0.0 <= d && d * d == NormSq2(Sub2(p, e))
    ensures d == 0.0 <==> p == e
  {
    RootZero(d, NormSq2(Sub2(p, e)));
    NormSq2Zero(Sub2(p, e));
    DiffZero(p, e);
  }

  /** A square root is zero exactly when its square is. */
  lemma RootZero(d: real, n: real)
    requires d * d == n
    ensures d == 0.0 <==> n == 0.0
  {
    SquareZero(d);
  }

  lemma DiffZero(p: Vec2, e: Vec2)
    ensures Sub2(p, e) == Vec2(0.0, 0.0) <==> p == e
  {
  }

  lemma SquareZero(d: real)
    ensures d * d == 0.0 <==> d == 0.0
  {
    ProductZero(d, d);
  }

  /** Only the zero vector has squared norm zero. */
  lemma NormSq2Zero(v: Vec2)
    ensures NormSq2(v) == 0.0 <==> v == Vec2(0.0, 0.0)
  {
    var xx, yy := v.x * v.x, v.y * v.y;
    assert NormSq2(v) == xx + yy;
    SquareNonNegative(v.x);
    SquareNonNegative(v.y);
    SquareZero(v.x);
    SquareZero(v.y);
  }

  lemma SquareNonNegative(t: real)
    ensures 0.0 <= t * t
  {
    if t < 0.0 {
      SquareOfNegation(t);
      MulPos(-t, -t);
    } else if 0.0 < t {
      MulPos(t, t);
    }
  }

  /** With the intended offset every player of the chosen pairing heads
      for a point where its pair meets. */
  lemma IntendedAimsIntercept(m: Libm, x: State)
    requires SqrtSound(m)
    ensures forall j: Idx :: OnApolloniusCircle(Ratios(Choice(m, x).Chaser(j), j), Pos(x, Pursuer(Choice(m, x).Chaser(j))),
                                                Pos(x, Evader(j)), OptAimPoints(Intended, m, x).ForEvader(j))
  {
    forall j: Idx
      ensures OnApolloniusCircle(Ratios(Choice(m, x).Chaser(j), j), Pos(x, Pursuer(Choice(m, x).Chaser(j))),
                                 Pos(x, Evader(j)), OptAimPoints(Intended, m, x).ForEvader(j))
    {
      IntendedAimIntercepts(m, x, Choice(m, x).Chaser(j), j);
    }
  }

  // Control

  /** `game_u`: every player turns towards its aim point. */
  function GameU(aiming: Aiming, m: Libm, x: State, dt: real): (r: State)
    ensures forall k :: 0 <= k < 12 && k % 3 != 2 ==> r[k] == x[k]
  {
    var aims := OptAimPoints(aiming, m, x);
    x[E1_H := Towards(m, Pos(x, E1), aims.e1)]
     [E2_H := Towards(m, Pos(x, E2), aims.e2)]
     [P1_H := Towards(m, Pos(x, P1), aims.p1)]
     [P2_H := Towards(m, Pos(x, P2), aims.p2)]
  }

  /** After `game_u` each pursuer and the evader it chases in the chosen
      pairing head for the same point, the aim point of their pair. */
  lemma GameUSteersPairs(aiming: Aiming, m: Libm, x: State, dt: real)
    ensures var c := Choice(m, x);
            forall i: Idx :: Heading(GameU(aiming, m, x, dt), Pursuer(i))
                               == Towards(m, Pos(x, Pursuer(i)), PairAim(aiming, m, x, i, c.Target(i)))
    ensures var c := Choice(m, x);
            forall j: Idx :: Heading(GameU(aiming, m, x, dt), Evader(j))
                               == Towards(m, Pos(x, Evader(j)), PairAim(aiming, m, x, c.Chaser(j), j))
  {
    var c := Choice(m, x);
    var aims := OptAimPoints(aiming, m, x);
    var r := GameU(aiming, m, x, dt);
    forall i: Idx
      ensures Heading(r, Pursuer(i)) == Towards(m, Pos(x, Pursuer(i)), PairAim(aiming, m, x, i, c.Target(i)))
    {
      assert aims.ForPursuer(i) == aims.ForEvader(c.Target(i));
      assert c.Chaser(c.Target(i)) == i;
    }
    forall j: Idx
      ensures Heading(r, Evader(j)) == Towards(m, Pos(x, Evader(j)), PairAim(aiming, m, x, c.Chaser(j), j))
    {
      assert aims.ForEvader(j) == PairAim(aiming, m, x, c.Chaser(j), j);
    }
  }

  // Capture

  /** The `game_over` test of the main loop: some evader is within the
      capture radius of some pursuer. */
  predicate GameOver(m: Libm, x: State) {
    (Dist(m, x[E1_X], x[E1_Y], x[P1_X], x[P1_Y]) <= CAPTURE_RADIUS) ||
    (Dist(m, x[E1_X], x[E1_Y], x[P2_X], x[P2_Y]) <= CAPTURE_RADIUS) ||
    (Dist(m, x[E2_X], x[E2_Y], x[P1_X], x[P1_Y]) <= CAPTURE_RADIUS) ||
    (Dist(m, x[E2_X], x[E2_Y], x[P2_X], x[P2_Y]) <= CAPTURE_RADIUS)
  }

  /** Pursuer `i` is within the capture radius of evader `j`. */
  predicate Caught(x: State, i: Idx, j: Idx) {
    NormSq2(Sub2(Pos(x, Pursuer(i)), Pos(x, Evader(j)))) <= CAPTURE_RADIUS * CAPTURE_RADIUS
  }

  /** With a sound `sqrt`, the game is over exactly when one of the four
      pursuer/evader pairs, in either pairing, is within the radius. */
  lemma GameOverIffSomeCaught(m: Libm, x: State)
    requires SqrtSound(m)
    ensures GameOver(m, x) <==> exists i: Idx, j: Idx :: Caught(x, i, j)
  {
    PairCaught(m, x, 0, 0);
    PairCaught(m, x, 1, 0);
    PairCaught(m, x, 0, 1);
    PairCaught(m, x, 1, 1);
    if exists i: Idx, j: Idx :: Caught(x, i, j) {
      var i: Idx, j: Idx :| Caught(x, i, j);
      assert i == 0 || i == 1;
    }
  }

  /** One disjunct of `game_over`: evader `j` within the radius of pursuer `i`. */
  lemma PairCaught(m: Libm, x: State, i: Idx, j: Idx)
    requires SqrtSound(m)
    ensures (Dist(m, x[Evader(j).X()], x[Evader(j).Y()], x[Pursuer(i).X()], x[Pursuer(i).Y()]) <= CAPTURE_RADIUS)
            <==> Caught(x, i, j)
  {
    var p, e := Pos(x, Pursuer(i)), Pos(x, Evader(j));
    DistMeaning(m, e.x, e.y, p.x, p.y);
    DSquared(m, x, i, j);
    WithinRadius(D(m, x, i, j), NormSq2(Sub2(p, e)), CAPTURE_RADIUS);
  }

  /** For a non-negative `d` with square `n`, `d <= R` exactly when `n <= R^2`. */
  lemma WithinRadius(d: real, n: real, r: real)
    requires 0.0 <= d && d * d == n && 0.0 <= r
    ensures d <= r <==> n <= r * r
  {
    if d < r {
      MulStrictMono(d, r);
    } else if r < d {
      MulStrictMono(r, d);
    }
  }

  // The game as a dynamic system

  /** The side of the square area in world units: `width / scale`. */
  const AREA: real := (WIDTH as real) / SCALE

  /** `game_x` at start: the eight coordinates drawn with `randval(0.0,
      width / scale)` (or `height / scale`) in slot order, headings zero. */
  function InitialState(rs: seq<Assign.Rand>): (x: State)
    requires |rs| == 8
    ensures forall pl: Player :: Heading(x, pl) == 0.0
    ensures forall pl: Player :: 0.0 <= Pos(x, pl).x <= AREA && 0.0 <= Pos(x, pl).y <= AREA
  {
    var w, h := (WIDTH as real) / SCALE, (HEIGHT as real) / SCALE;
    [RandVal(0.0, w, rs[0]), RandVal(0.0, h, rs[1]), 0.0,
     RandVal(0.0, w, rs[2]), RandVal(0.0, h, rs[3]), 0.0,
     RandVal(0.0, w, rs[4]), RandVal(0.0, h, rs[5]), 0.0,
     RandVal(0.0, w, rs[6]), RandVal(0.0, h, rs[7]), 0.0]
  }

  function Dynamics(m: Libm): (State, real) -> State {
    (x: State, dt: real) => GameF(m, x, dt)
  }

  function Controller(aiming: Aiming, m: Libm): (State, real) -> State {
    (x: State, dt: real) => GameU(aiming, m, x, dt)
  }

  /** `DYNSYS_SINIT(game_x, game_f, game_u, NULL, NULL)`. */
  function Setup(aiming: Aiming, m: Libm, rs: seq<Assign.Rand>): (s: System<State>)
    requires |rs| == 8
    ensures s.c == 0.0 && s.x == InitialState(rs)
    ensures s.f == Some(Dynamics(m)) && s.u == Some(Controller(aiming, m)) && s.g.None? && s.q.None?
  {
    SInit(InitialState(rs), Some(Dynamics(m)), Some(Controller(aiming, m)), None, None)
  }

  /** The four heading slots, which only the controller sets. */
  function Headings(x: State): seq<real> {
    [x[P1_H], x[P2_H], x[E1_H], x[E2_H]]
  }

  /** The eight coordinates, which only the dynamics move. */
  function Positions(x: State): seq<Vec2> {
    [Pos(x, P1), Pos(x, P2), Pos(x, E1), Pos(x, E2)]
  }

  /** `game_f` and `game_u` keep to the division of labour of dynsys.h. */
  lemma DivisionOfLabour(aiming: Aiming, m: Libm)
    ensures DynamicsKeepControls(Dynamics(m), Headings)
    ensures ControlKeepsPlant(Controller(aiming, m), Positions)
  {
    forall x: State, dt: real
      ensures Headings(Dynamics(m)(x, dt)) == Headings(x)
    {
      GameFMovesEachAlone(m, x, dt);
      assert Heading(GameF(m, x, dt), P1) == Heading(x, P1);
      assert Heading(GameF(m, x, dt), P2) == Heading(x, P2);
      assert Heading(GameF(m, x, dt), E1) == Heading(x, E1);
      assert Heading(GameF(m, x, dt), E2) == Heading(x, E2);
    }
    forall x: State, dt: real
      ensures Positions(Controller(aiming, m)(x, dt)) == Positions(x)
    {
      var r := GameU(aiming, m, x, dt);
      assert r[P1_X] == x[P1_X] && r[P1_Y] == x[P1_Y] && r[P2_X] == x[P2_X] && r[P2_Y] == x[P2_Y];
      assert r[E1_X] == x[E1_X] && r[E1_Y] == x[E1_Y] && r[E2_X] == x[E2_X] && r[E2_Y] == x[E2_Y];
    }
  }

  /** `dynsys_step` runs `game_f` before `game_u`, and the initial headings
      are zero, so in the first step every player moves `dt * vel` along
      the positive `x` axis, whatever its aim point. */
  lemma FirstStepHeadsEast(aiming: Aiming, m: Libm, rs: seq<Assign.Rand>, dt: real)
    requires |rs| == 8
    requires m.cos(0.0) == 1.0 && m.sin(0.0) == 0.0
    ensures var s := Setup(aiming, m, rs);
            Step(s, dt).Some?
            && forall pl: Player :: Pos(Step(s, dt).value.x, pl)
                                      == Vec2(Pos(s.x, pl).x + dt * pl.Vel(), Pos(s.x, pl).y)
  {
    var s := Setup(aiming, m, rs);
    var x1 := GameF(m, s.x, dt);
    DivisionOfLabour(aiming, m);
    FirstStepSeesInitialControls(s, dt, Headings);
    assert Step(s, dt).value.x == GameU(aiming, m, x1, dt);
    MovesEastFromRest(m, s.x, dt);
    forall pl: Player
      ensures Pos(Step(s, dt).value.x, pl) == Pos(x1, pl)
    {
      assert Pos(GameU(aiming, m, x1, dt), pl) == Pos(x1, pl);
    }
  }

  /** From headings zero, `game_f` moves every player along the `x` axis. */
  lemma MovesEastFromRest(m: Libm, x: State, dt: real)
    requires m.cos(0.0) == 1.0 && m.sin(0.0) == 0.0
    requires forall pl: Player :: Heading(x, pl) == 0.0
    ensures forall pl: Player :: Pos(GameF(m, x, dt), pl) == Vec2(Pos(x, pl).x + dt * pl.Vel(), Pos(x, pl).y)
  {
    GameFMovesEachAlone(m, x, dt);
    forall pl: Player
      ensures Pos(GameF(m, x, dt), pl) == Vec2(Pos(x, pl).x + dt * pl.Vel(), Pos(x, pl).y)
    {
      assert Heading(x, pl) == 0.0;
      assert Pos(PlayerF(m, x, pl, dt), pl) == Vec2(Pos(x, pl).x + dt * pl.Vel(), Pos(x, pl).y);
    }
  }

  /** One pass of the main loop: the system steps only while no evader is
      caught. */
  function Tick(m: Libm, s: System<State>, dt: real): Option<System<State>> {
    if GameOver(m, s.x) then Some(s) else Step(s, dt)
  }

  /** Repeated passes of the main loop. */
  function Ticks(m: Libm, s: System<State>, dts: seq<real>): (r: Option<System<State>>)
    ensures r.Some? <==> (s.f.Some? || |dts| == 0 || GameOver(m, s.x))
    decreases |dts|
  {
    if |dts| == 0 then Some(s)
    else match Tick(m, s, dts[0])
         case None => None
         case Some(s') => Ticks(m, s', dts[1..])
  }

  /** A caught position is final: however many passes the loop makes
      afterwards, the state and the cost stay as they are. */
  lemma {:induction false} CaughtIsFinal(m: Libm, s: System<State>, dts: seq<real>)
    requires GameOver(m, s.x)
    ensures Ticks(m, s, dts) == Some(s)
    decreases |dts|
  {
    if |dts| > 0 {
      CaughtIsFinal(m, s, dts[1..]);
    }
  }
}
