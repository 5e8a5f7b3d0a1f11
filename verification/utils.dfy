/** The helper macros of include/utils.h: a scaled random draw and two
    floating-point comparison tests. `rand()` is not modelled; its value is
    an argument `r` with `0 <= r <= RAND_MAX`. */
module Utils {

  /** RAND_MAX of the GNU C library (the C standard only promises at least 32767). */
  const RAND_MAX: nat := 2147483647

  /** `randval(min, max)` with `double` arguments:
      min + rand() / (RAND_MAX / (max - min)). Both ends are reachable. */
  function RandVal(min: real, max: real, r: nat): (v: real)
    requires min != max
    ensures r <= RAND_MAX && min < max ==> min <= v <= max
    ensures min < max ==> (v == max <==> r == RAND_MAX)
  {
    var w := max - min;
    var q := (RAND_MAX as real) / w;
    assert (r as real) / q == (r as real) * w / (RAND_MAX as real);
    ScaledDrawBounds(r as real, w);
    min + (r as real) / q
  }

  /** `randval(min, max)` with integer arguments, as at the evader draw of the
      assignment generator: every operator is C integer division. The
      operands are non-negative here, where C and Dafny division agree. */
  function RandValInt(min: int, max: int, r: nat): (v: int)
    requires min < max <= min + RAND_MAX
    ensures min <= v
    ensures r <= RAND_MAX && (max - min) * (max - min) <= RAND_MAX ==> v <= max
  {
    var w := max - min;
    var q := RAND_MAX / w;
    assert q >= 1;
    DrawBelowWidth(w, r);
    min + r / q
  }

  /** The integer draw reaches `max` itself: with `rand() == RAND_MAX` the
      result is one past the last index of a `max - min` element array. */
  lemma RandValIntHitsMax(min: int, max: int)
    requires min < max
    requires (max - min) * (max - min) <= RAND_MAX
    ensures RandValInt(min, max, RAND_MAX) == max
  {
    QuotientAtLeastDivisor(max - min);
    RandMaxOverQuotient(max - min);
  }

  /** A draw of an index in `[0, n)` with the scaling shape of `randval`:
      dividing by one more than `RAND_MAX / n` keeps `RAND_MAX` itself in range. */
  function RandIndex(n: nat, r: nat): (v: nat)
    requires 1 <= n <= RAND_MAX
    ensures r <= RAND_MAX ==> v < n
  {
    var q := RAND_MAX / n + 1;
    IndexBelow(n, r);
    NatQuotient(r, q);
    r / q
  }

  /** `f_is_equal(exp, act, tol)` as written: the second conjunct tests
      `act >= exp + tol` where `act <= exp + tol` was meant, so for a
      non-negative tolerance the test is a one-sided "at least `tol` above". */
  predicate FIsEqual(exp: real, act: real, tol: real)
    ensures 0.0 <= tol ==> (FIsEqual(exp, act, tol) <==> act >= exp + tol)
  {
    exp - tol <= act && act >= exp + tol
  }

  /** `f_is_zero(val, tol)`, which inherits the one-sided test: for a
      non-negative tolerance it holds exactly when `val >= tol`. */
  predicate FIsZero(v: real, tol: real)
    ensures 0.0 <= tol ==> (FIsZero(v, tol) <==> v >= tol)
  {
    FIsEqual(0.0, v, tol)
  }

  /** Two equal values are not "equal" to `f_is_equal`, while values far apart are. */
  lemma FIsEqualNotATolerance()
    ensures !FIsEqual(1.0, 1.0, 0.08)
    ensures FIsEqual(0.0, 100.0, 0.08)
    ensures !FIsZero(0.0, 0.01)
  {
  }

  /** The evidently intended test: `act` lies within `tol` of `exp`. */
  predicate FIsEqualIntended(exp: real, act: real, tol: real)
    ensures FIsEqualIntended(exp, act, tol) <==> Abs(act - exp) <= tol
  {
    exp - tol <= act && act <= exp + tol
  }

  /** The intended test is reflexive for any non-negative tolerance and symmetric. */
  lemma FIsEqualIntendedIsTolerance(exp: real, act: real, tol: real)
    ensures 0.0 <= tol ==> FIsEqualIntended(exp, exp, tol)
    ensures FIsEqualIntended(exp, act, tol) <==> FIsEqualIntended(act, exp, tol)
  {
  }

  function Abs(v: real): real {
    if v < 0.0 then -v else v
  }

  /** `r * w / RAND_MAX` lies in `[0, w]` for `0 <= r <= RAND_MAX` and reaches
      `w` exactly at `r == RAND_MAX`. */
  lemma ScaledDrawBounds(r: real, w: real)
    requires 0.0 <= r && w != 0.0
    ensures r <= RAND_MAX as real && 0.0 < w ==> 0.0 <= r * w / (RAND_MAX as real) <= w
    ensures 0.0 < w ==> (r * w / (RAND_MAX as real) == w <==> r == RAND_MAX as real)
  {
    var R := RAND_MAX as real;
    if 0.0 < w {
      assert 0.0 <= r * w;
      if r <= R {
        RealMulMono(r, R, w);
      }
      if r * w == R * w {
        RealMulCancel(r, R, w);
      }
    }
  }

  lemma RealMulMono(a: real, b: real, c: real)
    requires a <= b && 0.0 <= c
    ensures a * c <= b * c
  {
    assert b * c - a * c == (b - a) * c;
  }

  lemma RealMulCancel(a: real, b: real, c: real)
    requires c != 0.0 && a * c == b * c
    ensures a == b
  {
    assert (a - b) * c == 0.0;
  }

  // Integer division facts used by the draws above.

  lemma DivMod(a: nat, q: nat)
    requires 1 <= q
    ensures a == q * (a / q) + a % q && 0 <= a % q < q
  {
  }

  lemma DrawBelowWidth(w: nat, r: nat)
    requires 1 <= w <= RAND_MAX
    ensures r <= RAND_MAX && w * w <= RAND_MAX ==> r / (RAND_MAX / w) <= w
  {
    if r <= RAND_MAX && w * w <= RAND_MAX {
      QuotientAtLeastDivisor(w);
      DivMono(r, RAND_MAX, RAND_MAX / w);
      RandMaxOverQuotient(w);
    }
  }

  lemma NatQuotient(a: int, q: int)
    requires 0 <= a && 1 <= q
    ensures 0 <= a / q
  {
  }

  lemma IndexBelow(n: nat, r: nat)
    requires 1 <= n <= RAND_MAX
    ensures 1 <= RAND_MAX / n + 1
    ensures r <= RAND_MAX ==> r / (RAND_MAX / n + 1) < n
  {
    var q := RAND_MAX / n + 1;
    if r <= RAND_MAX {
      assert RAND_MAX == n * (RAND_MAX / n) + RAND_MAX % n;
      assert RAND_MAX < n * q;
      DivBelow(r, n, q);
    }
  }

  lemma DivMono(a: nat, b: nat, q: nat)
    requires a <= b && 1 <= q
    ensures a / q <= b / q
  {
    DivMod(a, q);
    DivMod(b, q);
    if a / q > b / q {
      MulMono(q, b / q + 1, a / q);
    }
  }

  lemma MulMono(q: nat, a: nat, b: nat)
    requires a <= b
    ensures q * a <= q * b
  {
  }

  /** When `w * w <= RAND_MAX`, the quotient `RAND_MAX / w` is at least `w`. */
  lemma QuotientAtLeastDivisor(w: nat)
    requires 1 <= w && w * w <= RAND_MAX
    ensures RAND_MAX / w >= w
  {
    var q := RAND_MAX / w;
    DivMod(RAND_MAX, w);
    assert w * (w - 1) + (w - 1) == w * w - 1;
    if q < w {
      MulMono(w, q, w - 1);
    }
  }

  /** With `q = RAND_MAX / w >= w`, dividing `RAND_MAX` by `q` gives back `w`. */
  lemma RandMaxOverQuotient(w: nat)
    requires 1 <= w && RAND_MAX / w >= w
    ensures RAND_MAX / (RAND_MAX / w) == w
  {
    var q := RAND_MAX / w;
    var rem := RAND_MAX % w;
    DivMod(RAND_MAX, w);
    assert RAND_MAX == q * w + rem && rem < w <= q;
    DivUnique(RAND_MAX, q, w, rem);
  }

  lemma DivUnique(a: nat, b: nat, k: nat, r: nat)
    requires 1 <= b && a == b * k + r && r < b
    ensures a / b == k
  {
    var k' := a / b;
    DivMod(a, b);
    if k' < k {
      MulMono(b, k' + 1, k);
    } else if k' > k {
      MulMono(b, k + 1, k');
    }
  }

  lemma ModUnique(a: nat, b: nat, k: nat, r: nat)
    requires 1 <= b && a == b * k + r && r < b
    ensures a % b == r
  {
    DivUnique(a, b, k, r);
    DivMod(a, b);
  }

  /** Reducing a factor modulo `m` first does not change a product modulo `m`. */
  lemma MulMod(a: nat, b: nat, m: nat)
    requires 1 <= m
    ensures (a * (b % m)) % m == (a * b) % m
  {
    var q, r := b / m, b % m;
    DivMod(b, m);
    var ar := a * r;
    var k2, r2 := ar / m, ar % m;
    DivMod(ar, m);
    Distribute(a, m, q, r, k2, r2);
    assert b == m * q + r;
    assert a * b == m * (a * q + k2) + r2;
    ModUnique(a * b, m, a * q + k2, r2);
  }

  lemma Distribute(a: nat, m: nat, q: nat, r: nat, k2: nat, r2: nat)
    requires a * r == m * k2 + r2
    ensures a * (m * q + r) == m * (a * q + k2) + r2
  {
    assert a * (m * q + r) == a * (m * q) + a * r;
    assert a * (m * q) == m * (a * q);
    assert m * (a * q + k2) == m * (a * q) + m * k2;
  }

  lemma DivBelow(a: nat, n: nat, q: nat)
    requires 1 <= q && a < n * q
    ensures a / q < n
  {
    DivMod(a, q);
    if a / q >= n {
      MulMono(q, n, a / q);
    }
  }
}
