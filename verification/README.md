# diffgames core, modelled in Dafny

A model of the computational core of `diffgames`, a small C library and set of
demonstrations for pursuit–evasion differential games. The model works over
mathematical reals instead of IEEE doubles. It covers:

- **The dynamic-system engine** (`dynsys_t`, `dynsys_init`, `dynsys_step`,
  `dynsys_cost`, `DYNSYS_SINIT`), module `DynSys` in `dynsys.dfy`. A system
  holds a state of any type, a cost tally and four optional callbacks. A step
  tallies the running cost on the pre-step state, then applies the dynamics,
  then the control. The cost adds the terminal cost when one is given.
- **The vector kernel** of `3dtools`, module `Vectors` in `vectors.dfy`. It
  covers 2D and 3D add, sub, scale, dot, norm, distance, the axis enum and
  rotation about a principal axis. The componentwise macros are also modelled
  over an address-to-vector memory, which shows they are safe when the result
  aliases an argument. `vec3d_rotate` is not.
- **The helper macros** `randval`, `f_is_equal` and `f_is_zero`, module
  `Utils` in `utils.dfy`.
- **The N-pursuer/N-evader game** (`examples/npne/main.c`), spread over three
  modules:
  - `Assign` in `assign.dfy`: `n_combos` and the randomised assignment
    generator. `Perms` in `perms.dfy` supplies a reference list of all
    permutations and the counting facts.
  - `Npne` in `npne.dfy`: Euler motion, the `y_ij`/`y_s` scores, the argmax
    over assignments, the heading writes and the capture test.
- **The two-pursuer/two-evader game** (`examples/2p2e.c`), module
  `TwoPursuers` in `twopursuers.dfy`. It works on the flat twelve-slot state
  vector: velocity ratios, `dist`, motion, the choice between the two
  pairings, the aim points, the heading writes and the game-over test.

The aim-point geometry both games share is in module `Pursuit` in
`pursuit.dfy`. A pursuer and a slower evader heading for the same point arrive
together exactly when the point lies on the Apollonius circle of the pair.
The npne game aims at the lowest point of that circle, offset `a * d` below its centre. The 2p2e game as written offsets by `a² * d` instead, which is off the circle unless the two players coincide (see Findings); its selection value `y_ij` uses `a * d`.

`sqrt`, `sin`, `cos` and `atan2` cannot be computed over the reals. They are
fields of a `Libm` record (`libm.dfy`) passed to every member that needs
them. The two facts some proofs need are predicates that those members
require:

- `SqrtSound`: `sqrt` returns the non-negative root.
- `TrigSound`: `sin² + cos² = 1`.

`rand()` is also not modelled. Its results are parameters: values in
`[0, RAND_MAX]`, or a finite sequence of them for a loop that draws
repeatedly.

## Model

| member | source | states |
|---|---|---|
| DynSys.SInit | include/dynsys.h:72-80 | The initial cost is exactly 0, and the state and all four callbacks are stored as given. |
| DynSys.Init | src/dynsys.c:7-18 | Fails exactly when there is no dynamics function. Otherwise the cost is reset to 0 whatever the previous system held, and the state and callbacks are stored. |
| DynSys.InitIsSInit | src/dynsys.c:7-18 | With a dynamics function, `dynsys_init` on any previous system gives the same system as `DYNSYS_SINIT`. |
| DynSys.Step | src/dynsys.c:20-25 | Fails exactly without a dynamics function. The callbacks are kept. The cost grows by the running cost of the pre-step state, or not at all without `g`. The new state is `u` applied to `f(x, dt)`, or `f(x, dt)` itself without `u`. |
| DynSys.Cost | src/dynsys.c:27-30 | Without `q` the result is the tally. Otherwise it is the tally plus `q` of the current state. |
| DynSys.Run | src/dynsys.c:20-25 | Repeated steps succeed exactly when there is a dynamics function or no step, and keep the callbacks. |
| DynSys.RunMatchesTrajectory | src/dynsys.c:20-25 | After any number of steps, the state is the last of the trajectory `x_{k+1} = u(f(x_k, dt_k), dt_k)`. The tally is the initial cost plus the running cost summed over the pre-step states. |
| DynSys.TotalCostOfRun | include/dynsys.h:112-122 | From a fresh system, the total cost is the running cost summed over the trajectory plus the terminal cost of its last state. |
| DynSys.NoRunningCostKeepsTally | include/dynsys.h:90-94 | Without a running cost, the tally never changes, however many steps run. |
| DynSys.StepFrame | include/dynsys.h:10-28 | If the dynamics leave the control variables alone and the control leaves the plant alone, one step moves the plant exactly as `f` does. The control variables are then set by `u` alone, or kept when there is no `u`. |
| DynSys.UncontrolledKeepsControls | include/dynsys.h:90-91 | Without a control function, the control variables keep their initial values through any run. |
| DynSys.FirstStepSeesInitialControls | include/dynsys.h:99-104 | A step applies `u` to the result of `f`. So `f` in the first step sees the control values the system was initialised with. |
| Vectors.AxisOf | include/3dtools.h:6-10 | Gives the axis whose enumerator value is `k`, for `k` in 0..2. |
| Vectors.AxisRoundTrip | include/3dtools.h:6-10 | Axis to value to axis is the identity. |
| Vectors.GetAxisSelectsField | include/3dtools.h:25 | Indexing a vector by `AXIS_X`, `AXIS_Y`, `AXIS_Z` selects `x`, `y`, `z`, for 3D and 2D vectors. |
| Vectors.GetAxis3 | include/3dtools.h:25 | No contract; `vec3d_get_axis` by field selection, characterised by `Vectors.GetAxisSelectsField`. |
| Vectors.GetAxis2 | include/3dtools.h:86 | No contract; `vec2d_get_axis`, characterised by `Vectors.GetAxisSelectsField`. |
| Vectors.AddSubScaleLaws | src/3dtools.c:16-32 | Addition is commutative. Subtracting what was added gives back the original. Scaling by 1 is the identity. This holds in 3D and 2D. |
| Vectors.DotSymmetric | src/3dtools.c:34-38 | The dot product is symmetric in 3D and 2D. |
| Vectors.Add3 | src/3dtools.c:16-20 | No contract; `vec3d_add_r`, characterised by `Vectors.AddSubScaleLaws` and `Vectors.Add3InPlace`. |
| Vectors.Sub3 | src/3dtools.c:22-26 | No contract; `vec3d_sub_r`, characterised by `Vectors.AddSubScaleLaws` and `Vectors.Sub3InPlace`. |
| Vectors.Scale3 | src/3dtools.c:28-32 | No contract; `vec3d_scale_r`, characterised by `Vectors.AddSubScaleLaws` and `Vectors.Scale3InPlace`. |
| Vectors.Dot3 | src/3dtools.c:34-38 | No contract; `vec3d_dot_r`, characterised by `Vectors.DotSymmetric` and `Vectors.NormSq3`. |
| Vectors.Add2 | src/3dtools.c:99-103 | No contract; `vec2d_add_r`, characterised by `Vectors.AddSubScaleLaws` and `Vectors.Add2InPlace`. |
| Vectors.Sub2 | include/3dtools.h:99-103 | No contract; the `vec2d_sub` macro on values, characterised by `Vectors.AddSubScaleLaws` and `Vectors.Sub2InPlace`. |
| Vectors.Scale2 | src/3dtools.c:105-109 | No contract; `vec2d_scale_r`, characterised by `Vectors.AddSubScaleLaws` and `Vectors.Scale2InPlace`. |
| Vectors.Dot2 | src/3dtools.c:111-115 | No contract; `vec2d_dot_r`, characterised by `Vectors.DotSymmetric` and `Vectors.NormSq2`. |
| Vectors.NormSq3 | src/3dtools.c:64-66 | The radicand of the 3D norm is non-negative and is the dot product of the vector with itself. |
| Vectors.NormSq2 | src/3dtools.c:117-119 | The same for the 2D norm. |
| Vectors.Norm3 | src/3dtools.c:64-72 | No contract; `sqrt` of the radicand `Vectors.NormSq3`. |
| Vectors.Norm2 | src/3dtools.c:117-125 | No contract; `sqrt` of the radicand `Vectors.NormSq2`. |
| Vectors.Dist3 | src/3dtools.c:74-84 | No contract; characterised by `Vectors.Dist3Symmetric`, `Vectors.DistNonNegative` and `Vectors.Dist3ToSelf`. |
| Vectors.Dist2 | src/3dtools.c:127-137 | No contract; characterised by `Vectors.Dist2Symmetric`, `Vectors.DistNonNegative` and `Vectors.Dist2ToSelf`. |
| Vectors.Dist3Symmetric | src/3dtools.c:74-84 | The 3D distance is symmetric, whatever `sqrt` is. |
| Vectors.Dist2Symmetric | src/3dtools.c:127-137 | The 2D distance is symmetric, whatever `sqrt` is. |
| Vectors.DistNonNegative | src/3dtools.c:74-84 | With a sound `sqrt`, 3D and 2D distances are never negative. |
| Vectors.Dist3ToSelf | src/3dtools.c:74-78 | A point is at distance 0 from itself when `sqrt(0) = 0`. |
| Vectors.Dist2ToSelf | src/3dtools.c:127-131 | The same in 2D. |
| Vectors.Towards | examples/npne/main.c:462-465 | No contract; the `atan2` heading from one point to another that both games write, characterised by `Npne.GameUSteersPursuers` and `TwoPursuers.GameUSteersPairs`. |
| Vectors.Rotate3 | src/3dtools.c:40-62 | Rotation leaves the coordinate along the chosen axis unchanged. |
| Vectors.RotateByZero | src/3dtools.c:40-62 | When `cos = 1` and `sin = 0`, rotation about any axis is the identity. |
| Vectors.RotatePreservesNorm | src/3dtools.c:40-62 | When `sin² + cos² = 1`, rotation about any axis keeps the squared norm. |
| Vectors.Componentwise3 | include/3dtools.h:30-53 | A macro writing `res` one component at a time gives, even when `res` aliases an argument, the componentwise result of the ORIGINAL arguments. No other vector changes. |
| Vectors.Componentwise2 | include/3dtools.h:91-111 | The 2D counterpart. |
| Vectors.Add3InPlace | include/3dtools.h:30-35 | `vec3d_add` stores the sum of the original arguments, even in place, and touches nothing else. |
| Vectors.Sub3InPlace | include/3dtools.h:39-44 | The same for `vec3d_sub`. |
| Vectors.Scale3InPlace | include/3dtools.h:48-53 | The same for `vec3d_scale`. |
| Vectors.Add2InPlace | include/3dtools.h:91-95 | The same for `vec2d_add`. |
| Vectors.Sub2InPlace | include/3dtools.h:99-103 | The same for `vec2d_sub`. |
| Vectors.Scale2InPlace | include/3dtools.h:107-111 | The same for `vec2d_scale`. |
| Vectors.Rotate3InPlace | src/3dtools.c:40-62 | With distinct source and result, `vec3d_rotate` stores the rotation of the source and touches nothing else. |
| Vectors.RotateInPlaceNotAliasSafe | src/3dtools.c:43-47 | Rotating a vector in place is wrong: a quarter turn of (0,1,0) about x gives (0,0,0) instead of (0,0,1). |
| Utils.RandVal | include/utils.h:12 | For `min < max` and a draw in `[0, RAND_MAX]`, the value lies in `[min, max]`. It equals `max` exactly when the draw is `RAND_MAX`. |
| Utils.RandValInt | include/utils.h:12 | With integer operands the value is at least `min`. It is at most `max` when `(max - min)² <= RAND_MAX`. |
| Utils.RandValIntHitsMax | include/utils.h:12 | The integer form returns `max` itself for the draw `RAND_MAX`. |
| Utils.RandIndex | include/utils.h:12 | The corrected integer draw is always below `n`. |
| Utils.FIsEqual | include/utils.h:16-17 | For a non-negative tolerance, `f_is_equal` holds exactly when `act >= exp + tol`. |
| Utils.FIsZero | include/utils.h:18 | For a non-negative tolerance, `f_is_zero` holds exactly when `val >= tol`. |
| Utils.FIsEqualNotATolerance | include/utils.h:16-18 | Two equal values are not "equal", two values 100 apart are, and 0 is not "zero". |
| Utils.FIsEqualIntended | include/utils.h:16-17 | The intended test holds exactly when `|act - exp| <= tol`. |
| Utils.FIsEqualIntendedIsTolerance | include/utils.h:16-17 | The intended test is reflexive for `tol >= 0` and symmetric. |
| Perms.PermListComplete | examples/npne/main.c:191 | Every permutation of `0..n-1` is in the reference list, which has `n!` entries. |
| Perms.AllPermsPresent | examples/npne/main.c:232-239 | `n!` pairwise different permutations of `0..n-1` include every permutation. |
| Assign.NCombos | examples/npne/main.c:95-98 | `n_combos` with `size_t` wrap-around and a bound on nesting depth: any result is below 2^64. |
| Assign.NCombosFactorial | examples/npne/main.c:95-98 | For `n >= 2`, `n_combos(n)` needs exactly `n - 2` nested calls and returns `n!` modulo 2^64. |
| Assign.NCombosRunsAway | examples/npne/main.c:95-98 | For `n <= 1` it returns only after about 2^64 nested calls, since `n - 1` wraps around. The command line (examples/npne/main.c:137) rejects only `n == 0`, so `n == 1` reaches it. |
| Assign.NCombosZero | examples/npne/main.c:95-98 | If `n_combos(0)` or `n_combos(1)` did return, the result would be 0. |
| Assign.Combos | examples/npne/main.c:191 | The intended count equals the length of the reference list of all permutations. |
| Assign.BijectionOnto | examples/npne/main.c:216-229 | In an assignment that is a bijection, every evader `j < n` is chased by some pursuer. |
| Assign.ShapedDeterminedByEvaders | examples/npne/main.c:216-229 | An assignment with pair `p` for pursuer `p` is determined by its evader column. |
| Assign.DrawEvader | examples/npne/main.c:225 | As written, the evader draw is at most `n`. Corrected, it is below `n`. |
| Assign.PickEvader | examples/npne/main.c:224-229 | The `retry_e` loop returns an evader not chosen before, within the draw's bounds, and consumes at least one draw. |
| Assign.FillEvaders | examples/npne/main.c:216-230 | The pair loop extends the chosen evaders to `n` without repetition. With the corrected draw, all of them are below `n`. |
| Assign.FindNew | examples/npne/main.c:215-239 | The `retry_ass` loop returns an assignment not stored before, with pair `p` for pursuer `p` and no evader twice. With the corrected draw, it is a bijection. |
| Assign.Generate | examples/npne/main.c:212-240 | The outer loop stores exactly the requested number of assignments, keeps the earlier ones, and keeps them pairwise different and well shaped. With the corrected draw, each is a bijection. |
| Assign.GenerateIntendedComplete | examples/npne/main.c:212-240 | With the corrected draw and `n!` assignments, every bijection of pursuers to evaders is stored exactly once. |
| Assign.GenerateAsWrittenOutOfRange | examples/npne/main.c:225 | For `n = 2` and the draws `RAND_MAX, 0, 0, RAND_MAX/2`, the program stores `(0,2),(1,0)`, which names a non-existent evader, and never stores the swap. |
| Npne.AgentF | examples/npne/main.c:390-393 | A step changes only the position: heading and speed stay. |
| Npne.AgentStepLength | examples/npne/main.c:390-393 | With `sin² + cos² = 1`, an agent moves exactly `dt * vel`. |
| Npne.GameF | examples/npne/main.c:395-400 | Every agent, pursuer or evader, takes its own step. The game's other fields are unchanged. |
| Npne.Ratio | examples/npne/main.c:77 | In a feasible game every speed ratio `a(i, j)` lies in `[0, 1)`, so `1 - a²` is positive. |
| Npne.Yij | examples/npne/main.c:402-406 | No contract; characterised by `Npne.AimPoints` (it is the `y` of the aim point) and `Pursuit.InterceptPointY`. |
| Npne.RandomSpeedsFeasible | examples/npne/main.c:65-68 | Speeds drawn from the two ranges give ratios between 1/4 and 29/30. |
| Npne.AimPoints | examples/npne/main.c:417-426 | The `y` of `compute_aimpoints(i, j)` equals `y_ij(i, j)`. |
| Npne.AimPointIsInterception | examples/npne/main.c:417-426 | With a sound `sqrt`, the aim point is on the Apollonius circle: pursuer and evader reach it at the same moment. |
| Npne.YsLoop | examples/npne/main.c:409-415 | The loop of `y_s` returns the sum of `y_ij` over the pairs of the assignment. |
| Npne.Ys | examples/npne/main.c:409-415 | No contract; the reference sum of `y_ij` over an assignment, which `Npne.YsLoop` computes. |
| Npne.ScoresOfAllAssignments | examples/npne/main.c:439-447 | When the game stores `n!` different bijections, every bijection is among the scored assignments. |
| Npne.FirstMax | examples/npne/main.c:439-447 | The chosen index is in range, its score is at least every score, and it beats every earlier score strictly. |
| Npne.FirstMaxUnique | examples/npne/main.c:439-447 | Only one index has those three properties. |
| Npne.ArgMax | examples/npne/main.c:433-447 | The loop starting from minus infinity with a strict `>` returns that first maximum. |
| Npne.Scores | examples/npne/main.c:439-442 | One score per stored assignment, the `y_s` of each. |
| Npne.Steer | examples/npne/main.c:455-466 | Keeps the length of the agent list; characterised by `Npne.SteerKeepsPlant`, `Npne.SteerPursuers`, `Npne.SteerEvaders` and `Npne.SteerLeavesOtherEvaders`. |
| Npne.SteerKeepsPlant | examples/npne/main.c:455-466 | The heading writes leave every position and speed unchanged. |
| Npne.SteerPursuers | examples/npne/main.c:455-463 | After the writes for the first `k` pairs, pursuers `0..k-1` have their new headings and the other pursuers are unchanged. |
| Npne.SteerEvaders | examples/npne/main.c:464-466 | After the writes for the first `k` pairs, each of those pairs' evaders has the heading computed for its pair. |
| Npne.SteerLeavesOtherEvaders | examples/npne/main.c:455-466 | An evader not named by the first `k` pairs is unchanged. |
| Npne.EvadersOnce | examples/npne/main.c:455-466 | In a bijection, pair `k-1` names an evader no earlier pair names, so no evader heading is written twice. |
| Npne.GameU | examples/npne/main.c:428-467 | `game_u` records the first best assignment in `opt_assign` and leaves positions, speeds and the game's other fields unchanged. |
| Npne.GameUSteersPursuers | examples/npne/main.c:455-463 | After `game_u`, every pursuer heads for the aim point of its own pair in the assignment `game_u` chose. |
| Npne.GameUSteersPairedEvaders | examples/npne/main.c:464-466 | After `game_u`, the evader of every pair of the chosen assignment heads for that pair's aim point. |
| Npne.GameUSteersEvaders | examples/npne/main.c:455-466 | After `game_u`, every evader heads for the aim point of a pair that names it, because the chosen assignment names every evader. |
| Npne.PairedMeansEvery | examples/npne/main.c:455-466 | If the evader of every pair of a bijection has its pair's heading, then every evader has the heading of a pair naming it. |
| Npne.ToleranceIsDead | examples/npne/main.c:362-363 | For a non-negative tolerance, a pair keeps the game going exactly when it is farther apart than the radius: the `f_is_equal` term decides nothing. |
| Npne.PairDist | examples/npne/main.c:359-361 | No contract; the distance of pair `p` of `opt_assign`, used by `Npne.GameOver`. |
| Npne.GameOver | examples/npne/main.c:357-367 | No contract; the capture loop as written, characterised by `Npne.GameOverIffAllWithinRadius`. |
| Npne.GameOverIffAllWithinRadius | examples/npne/main.c:357-367 | The game is over exactly when every pair of `opt_assign` is within the capture radius. |
| Npne.GameOverWithToleranceMeaning | examples/npne/main.c:357-367 | The intended test is "every pair within radius plus tolerance", and the test as written implies it. |
| Npne.ToleranceIgnored | examples/npne/main.c:362-363 | A pair 0.04 outside a radius of 1 keeps the game going, although it is within the tolerance. |
| Npne.DrawAgent | examples/npne/main.c:84-91 | One agent gets a position in the `w` by `h` area and a speed in its side's range. Its heading is kept. |
| Npne.RandInit | examples/npne/main.c:82-93 | `game_randinit` places every agent in the area, gives pursuers and evaders speeds in their ranges, and keeps every heading. |
| Npne.Setup | examples/npne/main.c:260-262 | The system starts with cost 0 from the drawn game, with `game_f` and `game_u` and no cost functions. |
| Npne.CostStaysZero | examples/npne/main.c:260-262 | However long the game runs, and whatever an earlier game had tallied, its cost is 0. |
| Npne.DivisionOfLabour | examples/npne/main.c:390-467 | `game_f` never changes a heading, and `game_u` never changes a position or speed. |
| Npne.FirstStepUsesStaleHeadings | examples/npne/main.c:261-262 | The first step moves every agent along the heading it had before `game_randinit`, which sets none. |
| Npne.SetupSteered | examples/npne/main.c:261-262 | The corrected setup starts from the drawn game already steered by `game_u`, with cost 0. |
| Npne.SteeredFirstStep | examples/npne/main.c:261-262 | With the corrected setup, the first step moves each pursuer towards the aim point of its pair in the best assignment. |
| Pursuit.AimPoint | examples/npne/main.c:422-425 | The aim point is `((ex - a² px) / (1 - a²), (ey - a² py - off) / (1 - a²))`, stated multiplied out: its `x` is that of the circle's centre, and its `y` lies `off / (1 - a²)` below the centre's. |
| Pursuit.InterceptPointY | examples/npne/main.c:402-406 | The selection value `y_ij` is the `y` of the aim point with offset `a * d`. |
| Pursuit.AimPointIntercepts | examples/npne/main.c:417-426 | With offset `a * d`, `d` the pursuer/evader distance, the aim point lies on the Apollonius circle. |
| Pursuit.SquaredOffsetMisses | examples/2p2e.c:279-284 | With offset `a² * d` and `0 < a < 1`, the aim point lies on the circle exactly when `d = 0`. |
| Pursuit.AimPointOffsets | examples/2p2e.c:251-284 | Aim points with different offsets share their `x`. Their `y` values differ by the offset difference over `1 - a²`. |
| TwoPursuers.SlotsDisjoint | examples/2p2e.c:40-53 | The four players' `x`, `y` and heading slots are twelve different slots. |
| TwoPursuers.Ratios | examples/2p2e.c:57-65 | Every `RATIOS` entry lies strictly between 0 and 1, so every `a_den` is positive. |
| TwoPursuers.RatiosTable | examples/2p2e.c:57-65 | The entries are 5/9, 4/9, 5/8 and 1/2. |
| TwoPursuers.Dist | examples/2p2e.c:74-76 | No contract; characterised by `TwoPursuers.DistMeaning`. |
| TwoPursuers.DistMeaning | examples/2p2e.c:74-76 | `dist` is symmetric and is the 2D distance. With a sound `sqrt` it is the non-negative root of the squared distance. |
| TwoPursuers.PlayerF | examples/2p2e.c:237-240 | `player_f` changes only the player's own `x` and `y` slots. |
| TwoPursuers.PlayerStepLength | examples/2p2e.c:237-240 | With `sin² + cos² = 1`, a player moves exactly `dt * vel`. |
| TwoPursuers.GameF | examples/2p2e.c:243-249 | No contract; characterised by `TwoPursuers.GameFMovesEachAlone` and `TwoPursuers.DivisionOfLabour`. |
| TwoPursuers.GameFMovesEachAlone | examples/2p2e.c:243-249 | `game_f` changes no heading and moves each player exactly as if it moved alone, so the order of the four calls is irrelevant. |
| TwoPursuers.DSquared | examples/2p2e.c:275 | With a sound `sqrt`, `d(i, j)` is the non-negative root of the squared distance from pursuer `i` to evader `j`. |
| TwoPursuers.Yij | examples/2p2e.c:251-257 | No contract; characterised by `TwoPursuers.SelectionIsInterceptY`. |
| TwoPursuers.Score | examples/2p2e.c:267-268 | No contract; `ys1` and `ys2`, characterised by `TwoPursuers.Choice`. |
| TwoPursuers.Choice | examples/2p2e.c:267-277 | The chosen pairing has the largest score `ys1`/`ys2`. On a tie it is the crossed pairing of Equation 11. |
| TwoPursuers.Aim | examples/2p2e.c:279-296 | No contract; the aim point of one pair with either offset, characterised by `TwoPursuers.AsWrittenAimMisses` and `TwoPursuers.IntendedAimIntercepts`. |
| TwoPursuers.OptAimPoints | examples/2p2e.c:277-301 | Each evader gets the aim point of its pair in the chosen pairing. Each pursuer gets the aim point of the evader it chases. |
| TwoPursuers.SelectionIsInterceptY | examples/2p2e.c:251-257 | `y_ij` is the `y` of the intended (offset `a * d`) aim point of pair `(i, j)`. |
| TwoPursuers.IntendedAimIntercepts | examples/2p2e.c:279-284 | With a sound `sqrt`, the intended aim point of any pair is on its Apollonius circle. |
| TwoPursuers.AsWrittenAimMisses | examples/2p2e.c:279-284 | With a sound `sqrt`, the aim point as written (offset `a² * d`) is on the pair's circle exactly when the two players stand on the same spot. |
| TwoPursuers.IntendedAimsIntercept | examples/2p2e.c:277-301 | With the intended offset, each evader's aim point in the chosen pairing is an interception point of its pair. |
| TwoPursuers.GameU | examples/2p2e.c:304-329 | `game_u` changes only the four heading slots. |
| TwoPursuers.GameUSteersPairs | examples/2p2e.c:322-328 | Each pursuer heads for the aim point of its pair in the chosen pairing, and each evader for that of its chaser's pair: partners head for the same point. |
| TwoPursuers.GameOver | examples/2p2e.c:210-218 | No contract; characterised by `TwoPursuers.GameOverIffSomeCaught`. |
| TwoPursuers.GameOverIffSomeCaught | examples/2p2e.c:210-218 | With a sound `sqrt`, the game is over exactly when some pursuer/evader pair, of either pairing, is within the capture radius. |
| TwoPursuers.PairCaught | examples/2p2e.c:211-212 | One disjunct of `game_over` holds exactly when that pair's squared distance is at most the squared radius. |
| TwoPursuers.InitialState | examples/2p2e.c:114-128 | Every heading starts at 0 and every position lies in the 256 by 256 area. |
| TwoPursuers.Setup | examples/2p2e.c:129 | The system starts with cost 0, `game_f`, `game_u` and no cost functions. |
| TwoPursuers.Tick | examples/2p2e.c:220-224 | No contract; one pass of the main loop, characterised by `TwoPursuers.Ticks` and `TwoPursuers.CaughtIsFinal`. |
| TwoPursuers.DivisionOfLabour | examples/2p2e.c:243-329 | `game_f` never changes a heading, and `game_u` never changes a position. |
| TwoPursuers.FirstStepHeadsEast | examples/2p2e.c:114-129 | The first step moves every player `dt * vel` along the positive `x` axis, whatever its aim point. |
| TwoPursuers.Ticks | examples/2p2e.c:210-224 | Repeated passes of the main loop fail only when the system, never caught, has no dynamics. |
| TwoPursuers.CaughtIsFinal | examples/2p2e.c:210-224 | Once an evader is caught, further passes of the loop change nothing. |

## Left out

- SDL windows, rendering, event handling and the main loops' input handling are left out: they are I/O. The games' loops appear only as the capture test and the step it guards.
- Command-line parsing, help texts and `malloc`/`free` failure exits are left out as plumbing. So are the other demonstrations (homicidal chauffeur, quadrotor, particle, 3dtest).
- `camera_trans`/`camera_proj` are not part of this model.
- IEEE semantics are left out: NaN, infinities and rounding. Values are reals, and the `-INFINITY` start of the argmax is `None`.
- `sqrt`, `sin`, `cos` and `atan2` are parameters. Only `sqrt` non-negativity and the Pythagorean identity are assumed, and only where a member requires them.
- `rand`/`srand` are left out. Draws are parameters. The retry loops of the assignment generator consume a finite sequence of draws, and `None` means the draws ran out. Nothing is proved about how many draws the loops need.
- `vec2d_sub_r` is declared in include/3dtools.h but defined nowhere, so it is not modelled. `vec*_init` are plain constructors.
- The `assert(s != NULL || (s == NULL && s == 0))` of `dynsys_init` is a tautology and has no counterpart.
- The header and the source of `dynsys_init` disagree on the signature (an extra `n`). The model has one generic state type, on which both shapes behave alike.
- Assign.NCombos: the unbounded recursion of `n_combos(0)` and `n_combos(1)` is modelled with a nesting bound `depth`; stack overflow itself is not modelled.
- Utils.RandValInt: the bound `v <= max` is stated only when `(max - min)² <= RAND_MAX`. For wider ranges `RAND_MAX / w` no longer bounds the overshoot by one.
- Assign.DrawEvader: requires `n <= RAND_MAX`, and its bound as written is stated for `n² <= RAND_MAX`. Larger games are not modelled.
- Vectors.Rotate3InPlace: the result in place is stated only through the counterexample `RotateInPlaceNotAliasSafe`, not in general.
- Npne.GameU: the game members (`GameF`, `GameU`, the capture test and their lemmas) are stated for games whose stored assignments are all bijections, as the corrected generator `Assign.Generate` with the `Intended` draw stores them. With the draw as written an assignment can name evader `n`, and `game_u` then reads past the end of the agent array; that read is not modelled. They also assume at least one stored assignment and feasible speeds (every evader slower than every pursuer), which the source assumes in its comment that every pair is feasible.
- Npne.RandInit: the input game needs only to be allocated (`Allocated`: the agent counts and the stored bijections). Its positions, headings and speeds are arbitrary, as in the fresh `malloc` memory the source passes in; the result is feasible because the drawn speed ranges do not overlap.
- Npne.RandInit: also requires a positive area. The program replaces a zero width or height with half the display size, which is not modelled.
- TwoPursuers.InitialState: C leaves the evaluation order of initializer expressions unspecified. The model draws the eight coordinates in slot order.
- The npne capture test is over the pairs of `opt_assign`, and the 2p2e test is over all four pairs. Each game is modelled as its code does it.

## Findings

| source | as written | input that shows it | evidently intended | confidence | as-written member | corrected member |
|---|---|---|---|---|---|---|
| include/utils.h:16-17 | `f_is_equal` tests `act >= exp + tol` as its second conjunct, so it is a one-sided "at least `tol` above" test, and the capture tolerance of the npne game never changes the outcome | `f_is_equal(1.0, 1.0, 0.08)` is false; a pair 1.04 apart with radius 1 keeps the game going | `act <= exp + tol`: `act` within `tol` of `exp` | high (not executed) | Utils.FIsEqualNotATolerance | Utils.FIsEqualIntendedIsTolerance |
| include/utils.h:12 | `randval(0, game_x.n)` at examples/npne/main.c:225 uses integer division and returns `n` for `rand() == RAND_MAX` | `n = 2`, draws `RAND_MAX, 0, 0, RAND_MAX/2`: the stored assignments are `(0,2),(1,0)` and `(0,0),(1,1)` | an index in `[0, n)` | high (not executed) | Assign.GenerateAsWrittenOutOfRange | Assign.GenerateIntendedComplete |
| examples/npne/main.c:95-98 | the only base case of `n_combos` is `n == 2`, and the command line rejects only `n == 0` | `-n 1`: `n - 1` wraps to `SIZE_MAX` and the recursion runs about 2^64 levels deep | base case `n <= 1` returning 1 | high (not executed) | Assign.NCombosRunsAway | Assign.Combos |
| examples/2p2e.c:279-296 | the aim points subtract `a² * d`, while `y_ij` at lines 254-256 and the npne aim point subtract `a * d`, the circle's radius term | any pair with `d > 0`: the aim point is off the Apollonius circle, so the paired players do not arrive together | offset `a * d` | medium (not executed) | TwoPursuers.AsWrittenAimMisses | TwoPursuers.IntendedAimIntercepts |
| examples/npne/main.c:261-262 | `game_randinit` sets no heading and `dynsys_init` does not call `game_u`, so the first step uses headings left uninitialised by `malloc`, or the previous game's after a reseed | any start: the first step moves every agent along its old heading | steer once before the first step | medium (not executed) | Npne.FirstStepUsesStaleHeadings | Npne.SteeredFirstStep |

The corrected halves are what the rest of the model uses:

- The npne capture test is `GameOverIffAllWithinRadius`, which is independent of the tolerance.
- `Assign.Generate` takes the draw rule as a parameter.
- The 2p2e `GameU` and `Setup` take the offset rule as a parameter.
- `Npne.SetupSteered` is the corrected setup.

The general geometric facts behind the fourth row are `Pursuit.SquaredOffsetMisses` and `Pursuit.AimPointIntercepts`.
