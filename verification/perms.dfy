/** Permutations of `0..n-1` as sequences, and the counting facts the
    assignment generator of the N-pursuer game depends on: there are at most
    `n!` of them, so `n!` pairwise different permutations are all of them. */
module Perms {

  function Fact(n: nat): (r: nat)
    ensures 1 <= r
  {
    if n == 0 then 1 else n * Fact(n - 1)
  }

  predicate Distinct<T(==)>(s: seq<T>) {
    forall a, b :: 0 <= a < b < |s| ==> s[a] != s[b]
  }

  /** `s` lists each of `0..n-1` once. */
  predicate IsPerm(s: seq<nat>, n: nat) {
    |s| == n && (forall k :: 0 <= k < n ==> s[k] < n) && Distinct(s)
  }

  function Elems<T(==)>(s: seq<T>): set<T> {
    set x | x in s
  }

  function Range(n: nat): (r: set<nat>)
    ensures forall k: int :: k in r <==> 0 <= k < n
  {
    if n == 0 then {} else Range(n - 1) + {n - 1}
  }

  // Set sizes

  lemma {:induction false} ElemsCardLe<T>(s: seq<T>)
    ensures |Elems(s)| <= |s|
  {
    if |s| > 0 {
      var init := s[..|s| - 1];
      ElemsCardLe(init);
      assert Elems(s) == Elems(init) + {s[|s| - 1]};
    }
  }

  lemma {:induction false} DistinctElemsCard<T>(s: seq<T>)
    requires Distinct(s)
    ensures |Elems(s)| == |s|
  {
    if |s| > 0 {
      var init := s[..|s| - 1];
      var last := s[|s| - 1];
      assert Distinct(init);
      DistinctElemsCard(init);
      assert last !in Elems(init);
      assert Elems(s) == Elems(init) + {last};
    }
  }

  lemma {:induction false} RangeCard(n: nat)
    ensures |Range(n)| == n
  {
    if n > 0 {
      var r := Range(n - 1);
      RangeCard(n - 1);
      assert n - 1 !in r;
      assert |r + {n - 1}| == |r| + 1;
    }
  }

  lemma SubsetCard<T>(a: set<T>, b: set<T>)
    requires a <= b
    ensures |a| <= |b|
    ensures |a| == |b| ==> a == b
  {
    assert b == a + (b - a);
    assert a * (b - a) == {};
    if a != b {
      var x :| x in b && x !in a;
      assert x in b - a;
    }
  }

  /** A permutation takes every value below `n`. */
  lemma PermOnto(s: seq<nat>, n: nat)
    requires IsPerm(s, n)
    ensures Elems(s) == Range(n)
  {
    DistinctElemsCard(s);
    RangeCard(n);
    SubsetCard(Elems(s), Range(n));
  }

  // Every permutation of `0..n` arises from one of `0..n-1` by inserting `n`
  // somewhere; `PermList` enumerates them that way.

  function Insert(p: seq<nat>, k: nat, x: nat): (r: seq<nat>)
    requires k <= |p|
    ensures |r| == |p| + 1 && r[k] == x
  {
    p[..k] + [x] + p[k..]
  }

  function Remove(s: seq<nat>, k: nat): (r: seq<nat>)
    requires k < |s|
    ensures |r| == |s| - 1
  {
    s[..k] + s[k + 1..]
  }

  lemma InsertRemove(s: seq<nat>, k: nat)
    requires k < |s|
    ensures Insert(Remove(s, k), k, s[k]) == s
  {
    assert Remove(s, k)[..k] == s[..k];
    assert Remove(s, k)[k..] == s[k + 1..];
  }

  /** `[Insert(p, 0, x), ..., Insert(p, k - 1, x)]` */
  function Inserts(p: seq<nat>, x: nat, k: nat): (r: seq<seq<nat>>)
    requires k <= |p| + 1
    ensures |r| == k
  {
    if k == 0 then [] else Inserts(p, x, k - 1) + [Insert(p, k - 1, x)]
  }

  function Expand(ps: seq<seq<nat>>, x: nat): seq<seq<nat>> {
    if |ps| == 0 then [] else Inserts(ps[0], x, |ps[0]| + 1) + Expand(ps[1..], x)
  }

  lemma {:induction false} ExpandLength(ps: seq<seq<nat>>, x: nat, n: nat)
    requires forall a :: 0 <= a < |ps| ==> |ps[a]| == n
    ensures |Expand(ps, x)| == |ps| * (n + 1)
  {
    if |ps| > 0 {
      ExpandLength(ps[1..], x, n);
    }
  }

  /** All permutations of `0..n-1`, built by inserting `n - 1` at every
      position of every permutation of `0..n-2`. */
  function PermList(n: nat): (r: seq<seq<nat>>)
    ensures |r| == Fact(n)
    ensures forall a :: 0 <= a < |r| ==> |r[a]| == n
  {
    if n == 0 then [[]]
    else
      var prev := PermList(n - 1);
      ExpandLength(prev, n - 1, n - 1);
      ExpandShape(prev, n - 1, n - 1);
      assert |prev| * n == Fact(n);
      Expand(prev, n - 1)
  }

  lemma {:induction false} InsertsShape(p: seq<nat>, x: nat, k: nat)
    requires k <= |p| + 1
    ensures forall a :: 0 <= a < k ==> |Inserts(p, x, k)[a]| == |p| + 1
  {
    if k > 0 {
      InsertsShape(p, x, k - 1);
    }
  }

  lemma {:induction false} ExpandShape(ps: seq<seq<nat>>, x: nat, n: nat)
    requires forall a :: 0 <= a < |ps| ==> |ps[a]| == n
    ensures forall a :: 0 <= a < |Expand(ps, x)| ==> |Expand(ps, x)[a]| == n + 1
  {
    if |ps| > 0 {
      InsertsShape(ps[0], x, |ps[0]| + 1);
      ExpandShape(ps[1..], x, n);
    }
  }

  lemma {:induction false} InInserts(p: seq<nat>, x: nat, k: nat, j: nat)
    requires j < k <= |p| + 1
    ensures Insert(p, j, x) in Inserts(p, x, k)
  {
    if j < k - 1 {
      InInserts(p, x, k - 1, j);
    }
  }

  lemma {:induction false} InExpand(ps: seq<seq<nat>>, x: nat, p: seq<nat>, j: nat)
    requires p in ps && j <= |p|
    ensures Insert(p, j, x) in Expand(ps, x)
  {
    if ps[0] == p {
      InInserts(p, x, |p| + 1, j);
    } else {
      InExpand(ps[1..], x, p, j);
    }
  }

  /** Taking `n - 1` out of a permutation of `0..n-1` leaves one of `0..n-2`. */
  lemma RemoveTop(s: seq<nat>, n: nat, k: nat)
    requires IsPerm(s, n) && k < n && s[k] == n - 1
    ensures IsPerm(Remove(s, k), n - 1)
  {
    var r := Remove(s, k);
    forall a | 0 <= a < n - 1
      ensures r[a] < n - 1
    {
      var b := if a < k then a else a + 1;
      assert r[a] == s[b] && b != k;
    }
    forall a, b | 0 <= a < b < n - 1
      ensures r[a] != r[b]
    {
      var a' := if a < k then a else a + 1;
      var b' := if b < k then b else b + 1;
      assert r[a] == s[a'] && r[b] == s[b'] && a' < b';
    }
  }

  /** `PermList(n)` misses no permutation. */
  lemma {:induction false} PermListComplete(s: seq<nat>, n: nat)
    requires IsPerm(s, n)
    ensures s in PermList(n)
  {
    if n == 0 {
      assert s == [];
    } else {
      PermOnto(s, n);
      assert n - 1 in Range(n);
      var k :| 0 <= k < |s| && s[k] == n - 1;
      RemoveTop(s, n, k);
      PermListComplete(Remove(s, k), n - 1);
      InsertRemove(s, k);
      InExpand(PermList(n - 1), n - 1, Remove(s, k), k);
    }
  }

  /** Pigeonhole: a list of `n!` pairwise different permutations of `0..n-1`
      contains every permutation of `0..n-1`. */
  lemma AllPermsPresent(found: seq<seq<nat>>, n: nat, s: seq<nat>)
    requires Distinct(found) && |found| == Fact(n)
    requires forall a :: 0 <= a < |found| ==> IsPerm(found[a], n)
    requires IsPerm(s, n)
    ensures s in found
  {
    var all := Elems(PermList(n));
    var have := Elems(found) + {s};
    DistinctElemsCard(found);
    ElemsCardLe(PermList(n));
    forall t | t in have
      ensures t in all
    {
      PermListComplete(t, n);
    }
    if s !in found {
      SubsetCard(have, all);
    }
  }
}
