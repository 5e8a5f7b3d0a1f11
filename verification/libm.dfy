/** The parts of the C math library the games use, as an explicit parameter.

    Real-number models cannot compute `sqrt`, `sin`, `cos` or `atan2`, so every
    member that needs them takes a `Libm` value: four arbitrary functions.
    Properties that depend on what those functions mean state the (few) facts
    they need as predicates below, and require them explicitly. */
module Libm {

  datatype Libm = Libm(
    sqrt: real -> real,
    sin: real -> real,
    cos: real -> real,
    atan2: (real, real) -> real)

  /** `sqrt` returns the non-negative square root of a non-negative argument. */
  ghost predicate SqrtSound(m: Libm) {
    forall v: real {:trigger m.sqrt(v)} :: 0.0 <= v ==> 0.0 <= m.sqrt(v) && m.sqrt(v) * m.sqrt(v) == v
  }

  /** `sin` and `cos` satisfy the Pythagorean identity. */
  ghost predicate TrigSound(m: Libm) {
    forall t: real {:trigger m.sin(t)} :: m.sin(t) * m.sin(t) + m.cos(t) * m.cos(t) == 1.0
  }

  /** A sound `sqrt` is determined on perfect squares: the square root of
      `r * r` is `r` for every non-negative `r`. */
  lemma SqrtOfSquare(m: Libm, r: real)
    requires SqrtSound(m)
    requires 0.0 <= r
    ensures m.sqrt(r * r) == r
  {
    var s := m.sqrt(r * r);
    assert 0.0 <= s && s * s == r * r;
    if s < r {
      MulStrictMono(s, r);
    } else if s > r {
      MulStrictMono(r, s);
    }
  }

  /** A sound `sqrt` is never negative on its domain. */
  lemma SqrtNonNegative(m: Libm, v: real)
    requires SqrtSound(m)
    requires 0.0 <= v
    ensures 0.0 <= m.sqrt(v)
  {
  }

  /** A sound `sqrt` maps zero to zero. */
  lemma SqrtZero(m: Libm)
    requires SqrtSound(m)
    ensures m.sqrt(0.0) == 0.0
  {
    SqrtOfSquare(m, 0.0);
    assert 0.0 * 0.0 == 0.0;
  }

  /** Squaring is strictly increasing on non-negative reals. */
  lemma MulStrictMono(a: real, b: real)
    requires 0.0 <= a < b
    ensures a * a < b * b
  {
    var d := b - a;
    assert b * b == a * a + d * (a + b);
    assert 0.0 < d * (a + b);
  }

  /** A step of length `w` along a unit direction `(c, s)` has squared length `w * w`. */
  lemma StepLength(w: real, c: real, s: real)
    requires s * s + c * c == 1.0
    ensures (w * c) * (w * c) + (w * s) * (w * s) == w * w
  {
    assert (w * c) * (w * c) + (w * s) * (w * s) == w * w * (s * s + c * c);
  }
}
