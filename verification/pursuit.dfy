/** The pursuit geometry both games share.

    A pursuer at `p` with speed `v` and an evader at `e` with speed `a * v`,
    `0 < a < 1`, both running straight at a point `x`, arrive together
    exactly when `|x - e| = a * |x - p|`: `x` lies on the Apollonius circle of
    `p` and `e` for the ratio `a`. The games aim both players at the point of
    that circle straight "below" its centre (smallest `y`). */
module Pursuit {
  import opened Vectors

  /** `x` is reached at the same moment by both players. */
  predicate OnApolloniusCircle(a: real, p: Vec2, e: Vec2, x: Vec2) {
    NormSq2(Sub2(x, e)) == a * a * NormSq2(Sub2(x, p))
  }

  /** The aim point formula of `compute_aimpoints` and `opt_aimpoints`:
      `((ex - a^2 px) / (1 - a^2), (ey - a^2 py - off) / (1 - a^2))`. The
      centre of the circle is the point for `off == 0` and its radius is
      `a * d / (1 - a^2)`, `d` the distance from `p` to `e`, so the intended
      offset is `off == a * d`. */
  function AimPoint(a: real, p: Vec2, e: Vec2, off: real): (r: Vec2)
    requires 0.0 <= a < 1.0
    ensures (1.0 - a * a) * (r.x - e.x) == a * a * (e.x - p.x)
    ensures (1.0 - a * a) * (r.x - p.x) == e.x - p.x
    ensures (1.0 - a * a) * r.y == e.y - a * a * p.y - off
  {
    SquareBelowOne(a);
    var k := 1.0 - a * a;
    Scaled(e.x - a * a * p.x, k);
    Vec2((e.x - a * a * p.x) / k, (e.y - a * a * p.y - off) / k)
  }

  /** The aim point with the offset `a * d`, `d` the pursuer/evader
      distance: the lowest point of the Apollonius circle. */
  function InterceptPoint(a: real, p: Vec2, e: Vec2, d: real): Vec2
    requires 0.0 <= a < 1.0
  {
    AimPoint(a, p, e, a * d)
  }

  /** The aim point with the offset `a^2 * d`, as `opt_aimpoints` computes it. */
  function SquaredOffsetPoint(a: real, p: Vec2, e: Vec2, d: real): Vec2
    requires 0.0 <= a < 1.0
  {
    AimPoint(a, p, e, a * a * d)
  }

  /** `y_ij` of both games: `(ey - a^2 py - a d) / (1 - a^2)`, the value by
      which an assignment's pairs are scored. */
  function SelectionY(a: real, p: Vec2, e: Vec2, d: real): real
    requires 0.0 <= a < 1.0
  {
    SquareBelowOne(a);
    (e.y - a * a * p.y - a * d) / (1.0 - a * a)
  }

  /** The selection value of a pair is the `y` coordinate of its interception
      point: the assignment score adds up where the evaders would be caught. */
  lemma InterceptPointY(a: real, p: Vec2, e: Vec2, d: real)
    requires 0.0 <= a < 1.0
    ensures InterceptPoint(a, p, e, d).y == SelectionY(a, p, e, d)
  {
    SquareBelowOne(a);
  }

  /** How far the aim point is from the circle, measured as
      `|x - e|^2 - a^2 |x - p|^2`: `(1 - a^2)` times it is `off^2 - a^2 d^2`. */
  lemma AimGap(a: real, p: Vec2, e: Vec2, off: real)
    requires 0.0 <= a < 1.0
    ensures var x := AimPoint(a, p, e, off);
            (1.0 - a * a) * (NormSq2(Sub2(x, e)) - a * a * NormSq2(Sub2(x, p)))
              == off * off - a * a * NormSq2(Sub2(p, e))
  {
    SquareBelowOne(a);
    var x := AimPoint(a, p, e, off);
    var b, k := a * a, 1.0 - a * a;
    Scaled(e.x - b * p.x, k);
    Scaled(e.y - b * p.y - off, k);
    GapCoords(k, b, x.x, x.y, e.x, e.y, p.x, p.y, off);
  }

  /** With the offset `a * d` the aim point is on the circle: both players
      reach it at the same time. */
  lemma AimPointIntercepts(a: real, p: Vec2, e: Vec2, d: real)
    requires 0.0 <= a < 1.0
    requires d * d == NormSq2(Sub2(p, e))
    ensures OnApolloniusCircle(a, p, e, InterceptPoint(a, p, e, d))
  {
    SquareBelowOne(a);
    var x := AimPoint(a, p, e, a * d);
    var gap := NormSq2(Sub2(x, e)) - a * a * NormSq2(Sub2(x, p));
    AimGap(a, p, e, a * d);
    ExactOffset(a, d, NormSq2(Sub2(p, e)), 1.0 - a * a, gap);
    CircleGap(a, p, e, x, gap);
  }

  /** With the offset `a^2 * d` (the aim points of `opt_aimpoints`) the point
      is on the circle only when the players already coincide. */
  lemma SquaredOffsetMisses(a: real, p: Vec2, e: Vec2, d: real)
    requires 0.0 < a < 1.0 && 0.0 <= d
    requires d * d == NormSq2(Sub2(p, e))
    ensures OnApolloniusCircle(a, p, e, SquaredOffsetPoint(a, p, e, d)) <==> d == 0.0
  {
    var x := AimPoint(a, p, e, a * a * d);
    var gap := NormSq2(Sub2(x, e)) - a * a * NormSq2(Sub2(x, p));
    AimGap(a, p, e, a * a * d);
    SquaredOffset(a, d, NormSq2(Sub2(p, e)), gap);
    CircleGap(a, p, e, x, gap);
  }

  /** Two aim points for the same players differ only in `y`, by the
      difference of the offsets over `1 - a^2`. */
  lemma AimPointOffsets(a: real, p: Vec2, e: Vec2, off1: real, off2: real)
    requires 0.0 <= a < 1.0
    ensures AimPoint(a, p, e, off1).x == AimPoint(a, p, e, off2).x
    ensures (1.0 - a * a) * (AimPoint(a, p, e, off1).y - AimPoint(a, p, e, off2).y) == off2 - off1
  {
    SquareBelowOne(a);
    var k := 1.0 - a * a;
    var n := e.y - a * a * p.y;
    var y1, y2 := AimPoint(a, p, e, off1).y, AimPoint(a, p, e, off2).y;
    Scaled(n - off1, k);
    Scaled(n - off2, k);
  }

  // Real-arithmetic steps, kept small so each is cheap for the solver.

  lemma Scaled(v: real, k: real)
    requires k != 0.0
    ensures k * (v / k) == v
  {
  }

  /** Each coordinate of the aim point, relative to the evader, is `b` times
      the same coordinate relative to the pursuer, shifted by the offset. */
  lemma Shift(k: real, b: real, t: real, et: real, pt: real, off: real)
    requires k == 1.0 - b && k * t == et - b * pt - off
    ensures t - et == b * (t - pt) - off
    ensures k * (t - pt) == (et - pt) - off
  {
  }

  lemma XPart(k: real, b: real, X1: real, X2: real, u: real)
    requires k == 1.0 - b && X1 == b * X2 && k * X2 == u
    ensures k * (X1 * X1 - b * (X2 * X2)) == -b * (u * u)
  {
    assert X1 * X1 == b * b * (X2 * X2);
    assert X1 * X1 - b * (X2 * X2) == -(b * k) * (X2 * X2);
    assert u * u == k * k * (X2 * X2);
  }

  lemma YPart(k: real, b: real, Y1: real, Y2: real, s: real, off: real)
    requires k == 1.0 - b && Y1 == b * Y2 - off && k * Y2 == s - off
    ensures k * (Y1 * Y1 - b * (Y2 * Y2)) == off * off - b * (s * s)
  {
    assert Y1 * Y1 - b * (Y2 * Y2) == -(b * k) * (Y2 * Y2) - 2.0 * b * off * Y2 + off * off;
    assert k * (Y1 * Y1 - b * (Y2 * Y2)) == -b * ((k * Y2) * (k * Y2)) - 2.0 * b * off * (k * Y2) + k * (off * off);
  }

  lemma Sum(k: real, b: real, X1: real, Y1: real, X2: real, Y2: real, gx: real, gy: real)
    requires k * (X1 * X1 - b * (X2 * X2)) == gx && k * (Y1 * Y1 - b * (Y2 * Y2)) == gy
    ensures k * ((X1 * X1 + Y1 * Y1) - b * (X2 * X2 + Y2 * Y2)) == gx + gy
  {
  }

  /** The algebra of `AimGap` on plain coordinates: `(xx, xy)` is the aim
      point, whose coordinates scaled by `k = 1 - b` are known. */
  lemma GapCoords(k: real, b: real, xx: real, xy: real, ex: real, ey: real, px: real, py: real, off: real)
    requires k == 1.0 - b && k != 0.0
    requires k * xx == ex - b * px - 0.0 && k * xy == ey - b * py - off
    ensures k * (((xx - ex) * (xx - ex) + (xy - ey) * (xy - ey)) - b * ((xx - px) * (xx - px) + (xy - py) * (xy - py)))
         == off * off - b * ((px - ex) * (px - ex) + (py - ey) * (py - ey))
  {
    var u, s := ex - px, ey - py;
    Shift(k, b, xx, ex, px, 0.0);
    Shift(k, b, xy, ey, py, off);
    XPart(k, b, xx - ex, xx - px, u);
    YPart(k, b, xy - ey, xy - py, s, off);
    Sum(k, b, xx - ex, xy - ey, xx - px, xy - py, -b * (u * u), off * off - b * (s * s));
    assert (px - ex) * (px - ex) == u * u && (py - ey) * (py - ey) == s * s;
  }

  lemma ExactOffset(a: real, d: real, n: real, k: real, gap: real)
    requires k != 0.0 && n == d * d
    requires k * gap == (a * d) * (a * d) - a * a * n
    ensures gap == 0.0
  {
    assert (a * d) * (a * d) == a * a * (d * d);
    ProductZero(k, gap);
  }

  lemma SquaredOffset(a: real, d: real, n: real, gap: real)
    requires 0.0 < a < 1.0 && 0.0 <= d && n == d * d
    requires (1.0 - a * a) * gap == (a * a * d) * (a * a * d) - a * a * n
    ensures gap == 0.0 <==> d == 0.0
  {
    SquaredGap(a * a, d);
    assert a * a * n == a * a * (d * d);
    if d != 0.0 {
      MulPos(d, d);
    }
    NonZeroGap(a, d * d, gap);
    ProductZero(d, d);
  }

  /** `gap` is `-a^2 dd`, which is zero exactly when `dd` is. */
  lemma NonZeroGap(a: real, dd: real, gap: real)
    requires 0.0 < a < 1.0 && 0.0 <= dd
    requires (1.0 - a * a) * gap == a * a * dd * (a * a - 1.0)
    ensures gap == 0.0 <==> dd == 0.0
  {
    // Positivity of `a * a` is stated through `a * (a * dd)`: the solver
    // rewrites a bare `0 < a * a` to `a != 0` and loses the product.
    RatioSquare(a);
    CancelFactor(1.0 - a * a, gap, -(a * a * dd));
    if dd != 0.0 {
      MulPos(a, dd);
      MulPos(a, a * dd);
    }
  }

  lemma CancelFactor(k: real, g: real, y: real)
    requires k != 0.0 && k * g == k * y
    ensures g == y
  {
    ProductZero(k, g - y);
  }

  lemma MulPos(x: real, y: real)
    requires 0.0 < x && 0.0 < y
    ensures 0.0 < x * y
  {
  }

  lemma CircleGap(a: real, p: Vec2, e: Vec2, x: Vec2, gap: real)
    requires gap == NormSq2(Sub2(x, e)) - a * a * NormSq2(Sub2(x, p))
    ensures OnApolloniusCircle(a, p, e, x) <==> gap == 0.0
  {
  }

  lemma ProductZero(x: real, y: real)
    ensures x * y == 0.0 <==> x == 0.0 || y == 0.0
  {
    if x != 0.0 && y != 0.0 {
      Scaled(x * y, x);
    }
  }

  lemma SquareBelowOne(a: real)
    requires 0.0 <= a < 1.0
    ensures a * a < 1.0
  {
    assert a * a <= a * 1.0;
  }

  lemma RatioSquare(a: real)
    requires 0.0 < a < 1.0
    ensures 0.0 < a * a < 1.0
  {
    assert a * a < 1.0 * a;
  }

  lemma SquaredGap(b: real, d: real)
    ensures (b * d) * (b * d) - b * (d * d) == b * (d * d) * (b - 1.0)
  {
  }
}
