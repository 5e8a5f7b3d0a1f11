/** The assignments of the N-pursuer/N-evader game (examples/npne/main.c):
    how many there are (`n_combos`) and how they are generated.

    An assignment pairs pursuer `i` with evader `j` for every pursuer. The
    program stores `n_combos(n)` of them, filled in by a loop that draws
    evader indices with `rand()` and retries (`goto retry_e`) when the
    evader is already taken in this assignment, and starts the whole
    assignment over (`goto retry_ass`) when it equals an earlier one.

    `rand()` is not modelled: the loop consumes a finite sequence of draws,
    and `None` means the draws ran out before the loop finished. Nothing is
    said about how many draws the loop needs. */
module Assign {
  import opened Wrappers
  import opened Utils
  import opened Perms

  /** `struct pair`: pursuer `i` chases evader `j`. */
  datatype Pair = Pair(i: nat, j: nat)

  type Assignment = seq<Pair>

  /** A value `rand()` can return. */
  type Rand = r: nat | r <= RAND_MAX

  // n_combos

  /** `size_t` arithmetic is modulo 2^64. */
  const SIZE_MOD: nat := 0x1_0000_0000_0000_0000

  /** `n_combos(n)` with `size_t` wrap-around: the base case is `n == 2`
      only, so `n - 1` wraps from 0 to `SIZE_MAX`. `depth` is the number of
      nested calls the stack can hold; `None` is running out of it. */
  function NCombos(n: nat, depth: nat): (r: Option<nat>)
    requires n < SIZE_MOD
    ensures r.Some? ==> r.value < SIZE_MOD
    decreases depth
  {
    if n == 2 then Some(2)
    else if depth == 0 then None
    else
      var rest :- NCombos((n + SIZE_MOD - 1) % SIZE_MOD, depth - 1);
      Some((n * rest) % SIZE_MOD)
  }

  /** From 2 up, `n_combos` is the factorial (modulo 2^64), and needs
      exactly `n - 2` nested calls. */
  lemma {:induction false} NCombosFactorial(n: nat, depth: nat)
    requires 2 <= n < SIZE_MOD
    ensures NCombos(n, depth).Some? <==> depth >= n - 2
    ensures depth >= n - 2 ==> NCombos(n, depth) == Some(Fact(n) % SIZE_MOD)
    decreases depth
  {
    if n > 2 && depth > 0 {
      PredecessorMod(n);
      NCombosFactorial(n - 1, depth - 1);
      if depth >= n - 2 {
        assert NCombos(n - 1, depth - 1) == Some(Fact(n - 1) % SIZE_MOD);
        MulMod(n, Fact(n - 1), SIZE_MOD);
        assert Fact(n) == n * Fact(n - 1);
      }
    }
  }

  /** Away from zero, the `size_t` decrement is the plain one. */
  lemma PredecessorMod(n: nat)
    requires 1 <= n < SIZE_MOD
    ensures (n + SIZE_MOD - 1) % SIZE_MOD == n - 1
  {
  }

  /** For `n <= 1` the recursion walks down through the whole of `size_t`
      before it meets 2: it needs about 2^64 nested calls, so it exhausts
      any real stack. */
  lemma NCombosRunsAway(n: nat, depth: nat)
    requires n <= 1
    ensures NCombos(n, depth).Some? <==> depth >= SIZE_MOD - 2 + n
  {
    var top := SIZE_MOD - 1;
    if n == 1 {
      if depth >= 2 {
        NCombosFactorial(top, depth - 2);
      }
    } else if depth >= 1 {
      NCombosFactorial(top, depth - 1);
    }
  }

  /** Even with an unbounded stack, `n_combos(0)` and `n_combos(1)` would
      return 0, since the product passes through the factor 0. */
  lemma NCombosZero(n: nat, depth: nat)
    requires n <= 1 && NCombos(n, depth).Some?
    ensures NCombos(n, depth).value == 0
  {
    if n == 0 {
      assert (n + SIZE_MOD - 1) % SIZE_MOD == SIZE_MOD - 1;
      assert NCombos(0, depth) == Some((0 * NCombos(SIZE_MOD - 1, depth - 1).value) % SIZE_MOD);
    } else {
      assert (n + SIZE_MOD - 1) % SIZE_MOD == 0;
      NCombosZero(0, depth - 1);
      assert NCombos(1, depth) == Some((1 * NCombos(0, depth - 1).value) % SIZE_MOD);
    }
  }

  /** The evidently intended count: `n!`, with base case `n <= 1`. */
  function Combos(n: nat): (r: nat)
    ensures r == |PermList(n)|
  {
    if n <= 1 then 1 else n * Combos(n - 1)
  }

  // Assignments

  function Evaders(a: Assignment): (js: seq<nat>)
    ensures |js| == |a| && forall p :: 0 <= p < |a| ==> js[p] == a[p].j
  {
    seq(|a|, p requires 0 <= p < |a| => a[p].j)
  }

  function FromEvaders(js: seq<nat>): (a: Assignment)
    ensures |a| == |js| && forall p :: 0 <= p < |js| ==> a[p] == Pair(p, js[p])
  {
    seq(|js|, p requires 0 <= p < |js| => Pair(p, js[p]))
  }

  /** What the loop guarantees of every assignment it stores: one pair per
      pursuer, pair `p` for pursuer `p`, no evader twice. */
  predicate Shaped(a: Assignment, n: nat) {
    |a| == n && (forall p :: 0 <= p < n ==> a[p].i == p) && Distinct(Evaders(a))
  }

  /** A shaped assignment whose evaders are all real evaders is a bijection. */
  predicate IsBijection(a: Assignment, n: nat) {
    |a| == n && (forall p :: 0 <= p < n ==> a[p].i == p) && IsPerm(Evaders(a), n)
  }

  /** In a bijection every evader is chased by some pursuer. */
  lemma BijectionOnto(a: Assignment, n: nat, j: nat)
    requires IsBijection(a, n) && j < n
    ensures exists i :: 0 <= i < n && a[i].j == j
  {
    var es := Evaders(a);
    PermOnto(es, n);
    assert j in Range(n);
    var i :| 0 <= i < |es| && es[i] == j;
  }

  lemma ShapedDeterminedByEvaders(a: Assignment, n: nat)
    requires Shaped(a, n)
    ensures FromEvaders(Evaders(a)) == a
  {
  }

  // The evader draw `e = randval(0, game_x.n)`: integer arguments, so every
  // division is integer division.

  datatype Rule = AsWritten | Intended

  function DrawEvader(rule: Rule, n: nat, r: Rand): (e: nat)
    requires 1 <= n <= RAND_MAX
    ensures rule == Intended ==> e < n
    ensures rule == AsWritten && n * n <= RAND_MAX ==> e <= n
  {
    match rule
    case AsWritten => RandValInt(0, n, r)
    case Intended => RandIndex(n, r)
  }

  /** A value found by the loop and the draws left over. */
  datatype Drawn<T> = Drawn(got: T, rest: seq<Rand>)

  /** `retry_e`: draw until the evader is not among those `chosen` so far. */
  function PickEvader(rule: Rule, n: nat, chosen: seq<nat>, rs: seq<Rand>): (r: Option<Drawn<nat>>)
    requires 1 <= n <= RAND_MAX
    ensures r.Some? ==> r.value.got !in chosen && |r.value.rest| < |rs|
    ensures r.Some? && rule == Intended ==> r.value.got < n
    ensures r.Some? && rule == AsWritten && n * n <= RAND_MAX ==> r.value.got <= n
    decreases |rs|
  {
    if |rs| == 0 then None
    else
      var e := DrawEvader(rule, n, rs[0]);
      if e in chosen then PickEvader(rule, n, chosen, rs[1..]) else Some(Drawn(e, rs[1..]))
  }

  /** The pursuer loop `for (p = |chosen|; p < n; p++)`: extends the evaders
      chosen so far to one per pursuer, each new one different from all
      before it. */
  function FillEvaders(rule: Rule, n: nat, chosen: seq<nat>, rs: seq<Rand>): (r: Option<Drawn<seq<nat>>>)
    requires 1 <= n <= RAND_MAX && |chosen| <= n
    ensures r.Some? ==> |r.value.got| == n && r.value.got[..|chosen|] == chosen
    ensures r.Some? ==> |r.value.rest| <= |rs| && (|chosen| < n ==> |r.value.rest| < |rs|)
    ensures r.Some? && Distinct(chosen) ==> Distinct(r.value.got)
    ensures r.Some? && rule == Intended && (forall p :: 0 <= p < |chosen| ==> chosen[p] < n) ==>
              forall p :: 0 <= p < n ==> r.value.got[p] < n
    decreases n - |chosen|
  {
    if |chosen| == n then Some(Drawn(chosen, rs))
    else
      var e :- PickEvader(rule, n, chosen, rs);
      var r := FillEvaders(rule, n, chosen + [e.got], e.rest);
      assert r.Some? ==> r.value.got[..|chosen|] == (chosen + [e.got])[..|chosen|];
      r
  }

  /** `retry_ass`: build an assignment from scratch until it differs from
      every one `found` before it. */
  function FindNew(rule: Rule, n: nat, found: seq<Assignment>, rs: seq<Rand>): (r: Option<Drawn<Assignment>>)
    requires 1 <= n <= RAND_MAX
    ensures r.Some? ==> r.value.got !in found && Shaped(r.value.got, n) && |r.value.rest| < |rs|
    ensures r.Some? && rule == Intended ==> IsBijection(r.value.got, n)
    decreases |rs|
  {
    var js :- FillEvaders(rule, n, [], rs);
    var a := FromEvaders(js.got);
    assert Evaders(a) == js.got;
    if a in found then FindNew(rule, n, found, js.rest) else Some(Drawn(a, js.rest))
  }

  /** The outer loop `for (a = |found|; a < nAssign; a++)`. */
  function Generate(rule: Rule, n: nat, nAssign: nat, found: seq<Assignment>, rs: seq<Rand>): (r: Option<seq<Assignment>>)
    requires 1 <= n <= RAND_MAX && |found| <= nAssign
    ensures r.Some? ==> |r.value| == nAssign && r.value[..|found|] == found
    ensures r.Some? ==> forall a :: |found| <= a < nAssign ==> Shaped(r.value[a], n)
    ensures r.Some? && rule == Intended ==> forall a :: |found| <= a < nAssign ==> IsBijection(r.value[a], n)
    ensures r.Some? && Distinct(found) ==> Distinct(r.value)
    decreases |rs|
  {
    if |found| == nAssign then Some(found)
    else
      var next :- FindNew(rule, n, found, rs);
      var r := Generate(rule, n, nAssign, found + [next.got], next.rest);
      assert r.Some? ==> r.value[..|found|] == (found + [next.got])[..|found|];
      assert r.Some? ==> r.value[|found|] == (found + [next.got])[|found|] == next.got;
      r
  }

  /** With an evader draw that stays in range, a run of the generator that
      finishes with `n!` assignments has stored every bijection of `n`
      pursuers to `n` evaders, each exactly once. */
  lemma GenerateIntendedComplete(n: nat, rs: seq<Rand>, js: seq<nat>)
    requires 1 <= n <= RAND_MAX
    requires Generate(Intended, n, Combos(n), [], rs).Some?
    requires IsPerm(js, n)
    ensures var all := Generate(Intended, n, Combos(n), [], rs).value;
            FromEvaders(js) in all && Distinct(all)
  {
    var all := Generate(Intended, n, Combos(n), [], rs).value;
    var es := seq(|all|, k requires 0 <= k < |all| => Evaders(all[k]));
    forall x, y | 0 <= x < y < |es|
      ensures es[x] != es[y]
    {
      ShapedDeterminedByEvaders(all[x], n);
      ShapedDeterminedByEvaders(all[y], n);
    }
    AllPermsPresent(es, n, js);
    var k :| 0 <= k < |es| && es[k] == js;
    ShapedDeterminedByEvaders(all[k], n);
  }

  /** Four `rand()` results under which the generator misbehaves for `n == 2`. */
  const BadDraws: seq<Rand> := [RAND_MAX, 0, 0, 1073741823]

  /** The integer draw `randval(0, 2)` gives 2 for `rand() == RAND_MAX`, so
      with these draws the program, asked for the 2 assignments of 2
      pursuers, stores one that names evader 2 (past the end of the evader
      array) and never stores the swap `(0, 1), (1, 0)`. */
  lemma GenerateAsWrittenOutOfRange()
    ensures NCombos(2, 0) == Some(2)
    ensures Generate(AsWritten, 2, 2, [], BadDraws)
         == Some([[Pair(0, 2), Pair(1, 0)], [Pair(0, 0), Pair(1, 1)]])
  {
    var first := [Pair(0, 2), Pair(1, 0)];
    var second := [Pair(0, 0), Pair(1, 1)];
    FirstBadAssignment();
    SecondBadAssignment();
    var none: seq<Assignment> := [];
    assert none + [first] == [first] && [first] + [second] == [first, second];
    assert Generate(AsWritten, 2, 2, [first, second], []) == Some([first, second]);
    assert Generate(AsWritten, 2, 2, [first], BadDraws[2..]) == Some([first, second]);
  }

  lemma FirstBadAssignment()
    ensures FindNew(AsWritten, 2, [], BadDraws) == Some(Drawn([Pair(0, 2), Pair(1, 0)], BadDraws[2..]))
  {
    var rs := BadDraws;
    assert RandValInt(0, 2, RAND_MAX) == 2;
    assert RandValInt(0, 2, 0) == 0;
    assert PickEvader(AsWritten, 2, [], rs) == Some(Drawn(2, rs[1..]));
    assert PickEvader(AsWritten, 2, [2], rs[1..]) == Some(Drawn(0, rs[2..]));
    assert rs[1..][1..] == rs[2..];
    var none: seq<nat> := [];
    assert none + [2] == [2] && [2] + [0] == [2, 0];
    assert FillEvaders(AsWritten, 2, [2, 0], rs[2..]) == Some(Drawn([2, 0], rs[2..]));
    assert FillEvaders(AsWritten, 2, [2], rs[1..]) == Some(Drawn([2, 0], rs[2..]));
    assert FillEvaders(AsWritten, 2, [], rs) == Some(Drawn([2, 0], rs[2..]));
    assert FromEvaders([2, 0]) == [Pair(0, 2), Pair(1, 0)];
  }

  lemma SecondBadAssignment()
    ensures FindNew(AsWritten, 2, [[Pair(0, 2), Pair(1, 0)]], BadDraws[2..])
         == Some(Drawn([Pair(0, 0), Pair(1, 1)], []))
  {
    var rs := BadDraws[2..];
    assert rs == [0, 1073741823] && rs[1..] == [1073741823] && rs[1..][1..] == [];
    assert RandValInt(0, 2, 0) == 0;
    assert RandValInt(0, 2, 1073741823) == 1;
    assert PickEvader(AsWritten, 2, [], rs) == Some(Drawn(0, rs[1..]));
    assert PickEvader(AsWritten, 2, [0], rs[1..]) == Some(Drawn(1, []));
    var none: seq<nat> := [];
    assert none + [0] == [0] && [0] + [1] == [0, 1];
    assert FillEvaders(AsWritten, 2, [0, 1], []) == Some(Drawn([0, 1], []));
    assert FillEvaders(AsWritten, 2, [0], rs[1..]) == Some(Drawn([0, 1], []));
    assert FillEvaders(AsWritten, 2, [], rs) == Some(Drawn([0, 1], []));
    assert FromEvaders([0, 1]) == [Pair(0, 0), Pair(1, 1)];
  }
}
