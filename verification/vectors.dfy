/** The vector kernel of include/3dtools.h and src/3dtools.c: 2D and 3D
    vectors over the reals, the componentwise macros, the returning `_r`
    wrappers, norms, distances and rotation about a principal axis.

    The header declares `vec2d_sub_r` but src/3dtools.c never defines it, so
    this module has no returning 2D subtraction; `Sub2` is the `vec2d_sub`
    macro, which is what `vec2d_dist` uses. */
module Vectors {
  import opened Libm

  datatype Vec2 = Vec2(x: real, y: real)
  datatype Vec3 = Vec3(x: real, y: real, z: real)

  /** `enum axis_e`. */
  datatype Axis = AxisX | AxisY | AxisZ {
    /** The enumerator's integer value. */
    function Ordinal(): (k: nat)
      ensures k < 3
    {
      match this
      case AxisX => 0
      case AxisY => 1
      case AxisZ => 2
    }
  }

  /** The axis whose enumerator has value `k`. */
  function AxisOf(k: nat): (a: Axis)
    requires k < 3
    ensures a.Ordinal() == k
  {
    if k == 0 then AxisX else if k == 1 then AxisY else AxisZ
  }

  /** Distinct enumerators have distinct values, so `AxisOf` inverts `Ordinal`. */
  lemma AxisRoundTrip(a: Axis)
    ensures AxisOf(a.Ordinal()) == a
  {
  }

  /** `vec3d_get_axis(v, k)`: the `k`-th double of the struct. */
  function GetAxis3(v: Vec3, k: nat): real
    requires k < 3
  {
    [v.x, v.y, v.z][k]
  }

  /** `vec2d_get_axis(v, k)`. */
  function GetAxis2(v: Vec2, k: nat): real
    requires k < 2
  {
    [v.x, v.y][k]
  }

  /** `AXIS_X`, `AXIS_Y` and `AXIS_Z` select the x, y and z fields. */
  lemma GetAxisSelectsField(v: Vec3, w: Vec2)
    ensures GetAxis3(v, AxisX.Ordinal()) == v.x
    ensures GetAxis3(v, AxisY.Ordinal()) == v.y
    ensures GetAxis3(v, AxisZ.Ordinal()) == v.z
    ensures GetAxis2(w, AxisX.Ordinal()) == w.x
    ensures GetAxis2(w, AxisY.Ordinal()) == w.y
  {
  }

  // The componentwise operations (the macros and their `_r` wrappers).

  function Add3(a: Vec3, b: Vec3): Vec3 {
    Vec3(a.x + b.x, a.y + b.y, a.z + b.z)
  }

  function Sub3(a: Vec3, b: Vec3): Vec3 {
    Vec3(a.x - b.x, a.y - b.y, a.z - b.z)
  }

  function Scale3(v: Vec3, alpha: real): Vec3 {
    Vec3(alpha * v.x, alpha * v.y, alpha * v.z)
  }

  function Dot3(a: Vec3, b: Vec3): real {
    a.x * b.x + a.y * b.y + a.z * b.z
  }

  function Add2(a: Vec2, b: Vec2): Vec2 {
    Vec2(a.x + b.x, a.y + b.y)
  }

  function Sub2(a: Vec2, b: Vec2): Vec2 {
    Vec2(a.x - b.x, a.y - b.y)
  }

  function Scale2(v: Vec2, alpha: real): Vec2 {
    Vec2(alpha * v.x, alpha * v.y)
  }

  function Dot2(a: Vec2, b: Vec2): real {
    a.x * b.x + a.y * b.y
  }

  /** Addition is commutative, subtraction undoes it, and scaling by one is the identity. */
  lemma AddSubScaleLaws(a: Vec3, b: Vec3, c: Vec2, d: Vec2)
    ensures Add3(a, b) == Add3(b, a) && Add2(c, d) == Add2(d, c)
    ensures Sub3(Add3(a, b), b) == a && Sub2(Add2(c, d), d) == c
    ensures Scale3(a, 1.0) == a && Scale2(c, 1.0) == c
  {
  }

  /** The dot product is symmetric. */
  lemma DotSymmetric(a: Vec3, b: Vec3, c: Vec2, d: Vec2)
    ensures Dot3(a, b) == Dot3(b, a) && Dot2(c, d) == Dot2(d, c)
  {
  }

  /** The radicand of `vec3d_norm`: a sum of squares, never negative, and
      equal to the vector's dot product with itself. */
  function NormSq3(v: Vec3): (r: real)
    ensures 0.0 <= r
    ensures r == Dot3(v, v)
  {
    (v.x * v.x) + (v.y * v.y) + (v.z * v.z)
  }

  /** The radicand of `vec2d_norm`. */
  function NormSq2(v: Vec2): (r: real)
    ensures 0.0 <= r
    ensures r == Dot2(v, v)
  {
    v.x * v.x + v.y * v.y
  }

  function Norm3(m: Libm, v: Vec3): real {
    m.sqrt(NormSq3(v))
  }

  function Norm2(m: Libm, v: Vec2): real {
    m.sqrt(NormSq2(v))
  }

  /** `vec3d_dist`: the norm of the difference. */
  function Dist3(m: Libm, a: Vec3, b: Vec3): real {
    Norm3(m, Sub3(a, b))
  }

  /** `vec2d_dist`: the norm of the difference. */
  function Dist2(m: Libm, a: Vec2, b: Vec2): real {
    Norm2(m, Sub2(a, b))
  }

  /** Distance is symmetric whatever `sqrt` is. */
  lemma Dist3Symmetric(m: Libm, a: Vec3, b: Vec3)
    ensures Dist3(m, a, b) == Dist3(m, b, a)
  {
    SquareOfNegation(a.x - b.x);
    SquareOfNegation(a.y - b.y);
    SquareOfNegation(a.z - b.z);
    assert Sub3(b, a) == Vec3(-(a.x - b.x), -(a.y - b.y), -(a.z - b.z));
    assert NormSq3(Sub3(a, b)) == NormSq3(Sub3(b, a));
  }

  /** The 2D counterpart of `Dist3Symmetric`. */
  lemma Dist2Symmetric(m: Libm, a: Vec2, b: Vec2)
    ensures Dist2(m, a, b) == Dist2(m, b, a)
  {
    SquareOfNegation(a.x - b.x);
    SquareOfNegation(a.y - b.y);
    assert Sub2(b, a) == Vec2(-(a.x - b.x), -(a.y - b.y));
    assert NormSq2(Sub2(a, b)) == NormSq2(Sub2(b, a));
  }

  /** With a sound `sqrt`, a distance is never negative. */
  lemma DistNonNegative(m: Libm, a: Vec3, b: Vec3, c: Vec2, d: Vec2)
    requires SqrtSound(m)
    ensures 0.0 <= Dist3(m, a, b)
    ensures 0.0 <= Dist2(m, c, d)
  {
    SqrtNonNegative(m, NormSq3(Sub3(a, b)));
    SqrtNonNegative(m, NormSq2(Sub2(c, d)));
  }

  /** When `sqrt(0) == 0` (true of a sound `sqrt`, see `SqrtZero`), the
      distance from a point to itself is zero. */
  lemma Dist3ToSelf(m: Libm, a: Vec3)
    requires m.sqrt(0.0) == 0.0
    ensures Dist3(m, a, a) == 0.0
  {
    var z := Sub3(a, a);
    assert z.x == 0.0 && z.y == 0.0 && z.z == 0.0;
    assert NormSq3(z) == z.x * z.x + z.y * z.y + z.z * z.z;
  }

  /** The 2D counterpart of `Dist3ToSelf`. */
  lemma Dist2ToSelf(m: Libm, a: Vec2)
    requires m.sqrt(0.0) == 0.0
    ensures Dist2(m, a, a) == 0.0
  {
    var z := Sub2(a, a);
    assert z.x == 0.0 && z.y == 0.0;
    assert NormSq2(z) == z.x * z.x + z.y * z.y;
  }

  /** The heading `atan2` gives from `from` towards `to`. */
  function Towards(m: Libm, from: Vec2, to: Vec2): real {
    m.atan2(to.y - from.y, to.x - from.x)
  }

  lemma SquareOfNegation(t: real)
    ensures (-t) * (-t) == t * t
  {
  }

  /** `vec3d_rotate`: rotation by `angle` about a principal axis, with the
      standard rotation matrices. The coordinate along the chosen axis is
      left unchanged. */
  function Rotate3(m: Libm, v: Vec3, angle: real, axis: Axis): (r: Vec3)
    ensures GetAxis3(r, axis.Ordinal()) == GetAxis3(v, axis.Ordinal())
  {
    var c := m.cos(angle);
    var s := m.sin(angle);
    match axis
    case AxisX => Vec3(v.x, v.y * c - v.z * s, v.y * s + v.z * c)
    case AxisY => Vec3(v.x * c + v.z * s, v.y, v.x * -s + v.z * c)
    case AxisZ => Vec3(v.x * c - v.y * s, v.x * s + v.y * c, v.z)
  }

  /** A rotation whose cosine is 1 and sine is 0 is the identity. */
  lemma RotateByZero(m: Libm, v: Vec3, angle: real, axis: Axis)
    requires m.cos(angle) == 1.0 && m.sin(angle) == 0.0
    ensures Rotate3(m, v, angle, axis) == v
  {
  }

  /** For an angle with `sin^2 + cos^2 = 1` (every angle, when `TrigSound`
      holds) each axis rotation preserves the squared norm. */
  lemma RotatePreservesNorm(m: Libm, v: Vec3, angle: real, axis: Axis)
    requires m.sin(angle) * m.sin(angle) + m.cos(angle) * m.cos(angle) == 1.0
    ensures NormSq3(Rotate3(m, v, angle, axis)) == NormSq3(v)
  {
    match axis
    case AxisX => RotateXPreservesNorm(m, v, angle);
    case AxisY => RotateYPreservesNorm(m, v, angle);
    case AxisZ => RotateZPreservesNorm(m, v, angle);
  }

  lemma RotateXPreservesNorm(m: Libm, v: Vec3, angle: real)
    requires m.sin(angle) * m.sin(angle) + m.cos(angle) * m.cos(angle) == 1.0
    ensures NormSq3(Rotate3(m, v, angle, AxisX)) == NormSq3(v)
  {
    var c, s := m.cos(angle), m.sin(angle);
    var r := Rotate3(m, v, angle, AxisX);
    assert r.y == v.y * c - v.z * s && r.z == v.y * s + v.z * c;
    PlaneRotationPreservesNorm(v.y, v.z, c, s);
    KeepsNormSq(v, r, v.x, v.y, v.z, r.y, r.z);
  }

  lemma RotateYPreservesNorm(m: Libm, v: Vec3, angle: real)
    requires m.sin(angle) * m.sin(angle) + m.cos(angle) * m.cos(angle) == 1.0
    ensures NormSq3(Rotate3(m, v, angle, AxisY)) == NormSq3(v)
  {
    var c, s := m.cos(angle), m.sin(angle);
    var r := Rotate3(m, v, angle, AxisY);
    assert r.x == v.x * c + v.z * s && r.z == v.x * -s + v.z * c;
    AxisYAsPlane(v.x, v.z, c, s);
    KeepsNormSq(v, r, v.y, v.z, v.x, r.z, r.x);
  }

  lemma RotateZPreservesNorm(m: Libm, v: Vec3, angle: real)
    requires m.sin(angle) * m.sin(angle) + m.cos(angle) * m.cos(angle) == 1.0
    ensures NormSq3(Rotate3(m, v, angle, AxisZ)) == NormSq3(v)
  {
    var c, s := m.cos(angle), m.sin(angle);
    var r := Rotate3(m, v, angle, AxisZ);
    assert r.x == v.x * c - v.y * s && r.y == v.x * s + v.y * c;
    PlaneRotationPreservesNorm(v.x, v.y, c, s);
    KeepsNormSq(v, r, v.z, v.x, v.y, r.x, r.y);
  }

  /** The `AxisY` rows are the plane rotation of `(z, x)`. */
  lemma AxisYAsPlane(x: real, z: real, c: real, s: real)
    requires s * s + c * c == 1.0
    ensures (x * -s + z * c) * (x * -s + z * c) + (x * c + z * s) * (x * c + z * s) == z * z + x * x
  {
    PlaneRotationPreservesNorm(z, x, c, s);
    assert x * -s + z * c == z * c - x * s;
    assert x * c + z * s == z * s + x * c;
  }

  /** Two vectors that share one component `k` and whose other two components
      have the same sum of squares have the same squared norm. */
  lemma KeepsNormSq(v: Vec3, r: Vec3, k: real, p: real, q: real, p': real, q': real)
    requires NormSq3(v) == k * k + p * p + q * q
    requires NormSq3(r) == k * k + p' * p' + q' * q'
    requires p' * p' + q' * q' == p * p + q * q
    ensures NormSq3(r) == NormSq3(v)
  {
  }

  lemma PlaneRotationPreservesNorm(p: real, q: real, c: real, s: real)
    requires s * s + c * c == 1.0
    ensures (p * c - q * s) * (p * c - q * s) + (p * s + q * c) * (p * s + q * c) == p * p + q * q
  {
    calc {
      (p * c - q * s) * (p * c - q * s) + (p * s + q * c) * (p * s + q * c);
      (p * p) * (c * c + s * s) + (q * q) * (s * s + c * c);
      (p * p) * 1.0 + (q * q) * 1.0;
    }
  }

  // The macros write the result one component at a time through a pointer
  // that may alias an argument. A `Mem3`/`Mem2` maps addresses to vectors.

  type Mem3 = map<nat, Vec3>
  type Mem2 = map<nat, Vec2>

  /** Three successive component writes `res->x`, `res->y`, `res->z`, each
      reading only the same-named components of `a` and `b`. Because of that,
      the result is computed from the arguments' ORIGINAL values even when
      `res` is `a` or `b`, and no other address changes. */
  function Componentwise3(mem: Mem3, a: nat, b: nat, res: nat, op: (real, real) -> real): (mem': Mem3)
    requires a in mem && b in mem && res in mem
    ensures mem'.Keys == mem.Keys
    ensures mem'[res] == Vec3(op(mem[a].x, mem[b].x), op(mem[a].y, mem[b].y), op(mem[a].z, mem[b].z))
    ensures forall l :: l in mem && l != res ==> mem'[l] == mem[l]
  {
    var m1 := mem[res := mem[res].(x := op(mem[a].x, mem[b].x))];
    var m2 := m1[res := m1[res].(y := op(m1[a].y, m1[b].y))];
    m2[res := m2[res].(z := op(m2[a].z, m2[b].z))]
  }

  /** The 2D counterpart of `Componentwise3`. */
  function Componentwise2(mem: Mem2, a: nat, b: nat, res: nat, op: (real, real) -> real): (mem': Mem2)
    requires a in mem && b in mem && res in mem
    ensures mem'.Keys == mem.Keys
    ensures mem'[res] == Vec2(op(mem[a].x, mem[b].x), op(mem[a].y, mem[b].y))
    ensures forall l :: l in mem && l != res ==> mem'[l] == mem[l]
  {
    var m1 := mem[res := mem[res].(x := op(mem[a].x, mem[b].x))];
    m1[res := m1[res].(y := op(m1[a].y, m1[b].y))]
  }

  /** `vec3d_add(v1, v2, res)` stores the sum of the original vectors for every aliasing of `res`. */
  function Add3InPlace(mem: Mem3, v1: nat, v2: nat, res: nat): (mem': Mem3)
    requires v1 in mem && v2 in mem && res in mem
    ensures mem'.Keys == mem.Keys
    ensures mem'[res] == Add3(mem[v1], mem[v2])
    ensures forall l :: l in mem && l != res ==> mem'[l] == mem[l]
  {
    Componentwise3(mem, v1, v2, res, (p, q) => p + q)
  }

  /** `vec3d_sub(v1, v2, res)`. */
  function Sub3InPlace(mem: Mem3, v1: nat, v2: nat, res: nat): (mem': Mem3)
    requires v1 in mem && v2 in mem && res in mem
    ensures mem'.Keys == mem.Keys
    ensures mem'[res] == Sub3(mem[v1], mem[v2])
    ensures forall l :: l in mem && l != res ==> mem'[l] == mem[l]
  {
    Componentwise3(mem, v1, v2, res, (p, q) => p - q)
  }

  /** `vec3d_scale(v, alpha, res)`, safe when `res` is `v` (as the cube scaling loop of the 3D demo does). */
  function Scale3InPlace(mem: Mem3, v: nat, alpha: real, res: nat): (mem': Mem3)
    requires v in mem && res in mem
    ensures mem'.Keys == mem.Keys
    ensures mem'[res] == Scale3(mem[v], alpha)
    ensures forall l :: l in mem && l != res ==> mem'[l] == mem[l]
  {
    Componentwise3(mem, v, v, res, (p, q) => alpha * p)
  }

  /** `vec2d_add(v1, v2, res)`, safe when `res` is `v1` (as the projection offset of the 3D demo does). */
  function Add2InPlace(mem: Mem2, v1: nat, v2: nat, res: nat): (mem': Mem2)
    requires v1 in mem && v2 in mem && res in mem
    ensures mem'.Keys == mem.Keys
    ensures mem'[res] == Add2(mem[v1], mem[v2])
    ensures forall l :: l in mem && l != res ==> mem'[l] == mem[l]
  {
    Componentwise2(mem, v1, v2, res, (p, q) => p + q)
  }

  /** `vec2d_sub(v1, v2, res)`. */
  function Sub2InPlace(mem: Mem2, v1: nat, v2: nat, res: nat): (mem': Mem2)
    requires v1 in mem && v2 in mem && res in mem
    ensures mem'.Keys == mem.Keys
    ensures mem'[res] == Sub2(mem[v1], mem[v2])
    ensures forall l :: l in mem && l != res ==> mem'[l] == mem[l]
  {
    Componentwise2(mem, v1, v2, res, (p, q) => p - q)
  }

  /** `vec2d_scale(v, alpha, res)`. */
  function Scale2InPlace(mem: Mem2, v: nat, alpha: real, res: nat): (mem': Mem2)
    requires v in mem && res in mem
    ensures mem'.Keys == mem.Keys
    ensures mem'[res] == Scale2(mem[v], alpha)
    ensures forall l :: l in mem && l != res ==> mem'[l] == mem[l]
  {
    Componentwise2(mem, v, v, res, (p, q) => alpha * p)
  }

  /** One output component of `vec3d_rotate`, as the statement that writes it
      computes it from the current contents of `v`. */
  function RotateComponent(m: Libm, v: Vec3, angle: real, axis: Axis, k: nat): real
    requires k < 3
  {
    GetAxis3(Rotate3(m, v, angle, axis), k)
  }

  /** `vec3d_rotate(v, angle, axis, res)` writes `res->x`, `res->y`, `res->z`
      in turn, and each write reads `v` as it is at that moment. With
      separate `v` and `res` it stores the rotation of `v`. */
  function Rotate3InPlace(m: Libm, mem: Mem3, v: nat, angle: real, axis: Axis, res: nat): (mem': Mem3)
    requires v in mem && res in mem
    ensures mem'.Keys == mem.Keys
    ensures v != res ==> mem'[res] == Rotate3(m, mem[v], angle, axis)
    ensures forall l :: l in mem && l != res ==> mem'[l] == mem[l]
  {
    var m1 := mem[res := mem[res].(x := RotateComponent(m, mem[v], angle, axis, 0))];
    var m2 := m1[res := m1[res].(y := RotateComponent(m, m1[v], angle, axis, 1))];
    var r := Rotate3(m, mem[v], angle, axis);
    assert r == Vec3(GetAxis3(r, 0), GetAxis3(r, 1), GetAxis3(r, 2));
    m2[res := m2[res].(z := RotateComponent(m, m2[v], angle, axis, 2))]
  }

  /** Unlike the macros, `vec3d_rotate` is not safe in place: a quarter turn
      of (0, 1, 0) about x should give (0, 0, 1), but writing `res->y` first
      makes the `res->z` formula read the new y. */
  lemma RotateInPlaceNotAliasSafe(m: Libm, angle: real)
    requires m.cos(angle) == 0.0 && m.sin(angle) == 1.0
    ensures Rotate3(m, Vec3(0.0, 1.0, 0.0), angle, AxisX) == Vec3(0.0, 0.0, 1.0)
    ensures Rotate3InPlace(m, map[0 := Vec3(0.0, 1.0, 0.0)], 0, angle, AxisX, 0)[0] == Vec3(0.0, 0.0, 0.0)
  {
  }
}
