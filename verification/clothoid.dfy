/** The clothoid (Euler spiral) generators: the curvature radius along the
    spiral, the sampling of the spiral by small integration steps, the
    corner built from a spiral and its mirror image, the rounded rectangle
    assembled from four copies of a corner, and the three ways the curve's
    radius R, length L and parameter A are specified.

    Cosine, sine and the square root are parameters; the osculating circle
    at the end of the spiral and the arc between two spirals are not part
    of this model. */
module Clothoid {
  import opened Geometry

  // ---------------------------------------------------------------------------
  // radius_of_curvature

  /** A radius that may be infinite, as `math.inf` is. */
  datatype Radius = Infinite | Finite(r: real)

  /** The radius of the osculating circle at `t`: infinite at the start of
      the spiral and 1 / (a t) after it. */
  function RadiusOfCurvature(a: real, t: real): (r: Radius)
    requires a != 0.0
    ensures r.Infinite? <==> t == 0.0
    ensures r.Finite? ==> r.r * a * t == 1.0
  {
    if t == 0.0 then Infinite else Finite(1.0 / (a * t))
  }

  /** Along the spiral the curvature grows: the radius strictly shrinks as
      `t` increases. */
  lemma RadiusDecreasing(a: real, t1: real, t2: real)
    requires a > 0.0 && 0.0 < t1 < t2
    ensures RadiusOfCurvature(a, t1).r > RadiusOfCurvature(a, t2).r > 0.0
  {
    var r1, r2 := RadiusOfCurvature(a, t1).r, RadiusOfCurvature(a, t2).r;
    var u, v := a * t1, a * t2;
    assert 0.0 < u < v by {
      assert a * (t2 - t1) > 0.0;
    }
    assert r1 * u == 1.0 && r2 * v == 1.0;
    assert r2 > 0.0;
    assert r2 * v - r2 * u == r2 * (v - u) > 0.0;
    assert (r1 - r2) * u > 0.0;
  }

  // ---------------------------------------------------------------------------
  // euler_spiral

  /** The integration step of `euler_spiral`. */
  const Dt: real := 0.01

  /** `int(t / dt)`, the number of steps taken, truncated towards zero; a
      negative count takes no step. */
  function StepCount(t: real): (n: nat)
    ensures t < Dt ==> n == 0
    ensures t >= 0.0 ==> n as real * Dt <= t < (n + 1) as real * Dt
  {
    if t < 0.0 then 0 else Floor(t / Dt)
  }

  /** The heading of step `i`: a t^2 / 2 at t = i dt. */
  function StepAngle(a: real, i: nat): real { 0.5 * a * Dt * Dt * (i * i) as real }

  /** The point reached after `n` steps of length `dt`, step `i` heading at
      `StepAngle(a, i)`. */
  function Spiral(a: real, n: nat, cos: real -> real, sin: real -> real): (p: Vec3)
    ensures p.z == 0.0
  {
    if n == 0 then Origin
    else
      var q := Spiral(a, n - 1, cos, sin);
      Vec3(q.x + cos(StepAngle(a, n - 1)) * Dt, q.y + sin(StepAngle(a, n - 1)) * Dt, 0.0)
  }

  function EulerSpiral(a: real, t: real, cos: real -> real, sin: real -> real): (p: Vec3)
    ensures t < Dt ==> p == Origin
  {
    Spiral(a, StepCount(t), cos, sin)
  }

  /** With a true cosine and sine every step has length `dt`: the sampled
      spiral advances at unit speed, so `n` steps cover an arc of n dt. */
  lemma SpiralUnitSteps(a: real, n: nat, cos: real -> real, sin: real -> real)
    requires Pythagorean(cos, sin) && n > 0
    ensures var d := Sub(Spiral(a, n, cos, sin), Spiral(a, n - 1, cos, sin));
      Dot(d, d) == Dt * Dt
  {
    var c, s := cos(StepAngle(a, n - 1)), sin(StepAngle(a, n - 1));
    assert c * c + s * s == 1.0;
    var d := Sub(Spiral(a, n, cos, sin), Spiral(a, n - 1, cos, sin));
    assert d == Vec3(c * Dt, s * Dt, 0.0);
    calc {
      Dot(d, d);
      (c * Dt) * (c * Dt) + (s * Dt) * (s * Dt);
      (c * c + s * s) * (Dt * Dt);
    }
  }

  // ---------------------------------------------------------------------------
  // create_clothoid_curve_vertices: the samples

  /** When no end is given, the spiral runs to t = L^2 / (A^2 pi). */
  function DefaultTMax(curveLength: real, paramA: real, pi: real): real
    requires paramA != 0.0 && pi > 0.0
  {
    curveLength * curveLength / (paramA * paramA * pi)
  }

  /** The `n + 1` sample times, evenly spaced from 0 to `tMax`. */
  function SampleTimes(tMax: real, n: nat): (ts: seq<real>)
    requires n > 0
    ensures |ts| == n + 1
    ensures ts[0] == 0.0 && ts[n] == tMax
    ensures forall i :: 0 <= i < n ==> ts[i + 1] - ts[i] == tMax / n as real
  {
    var step := tMax / n as real;
    var ts := seq(n + 1, i requires 0 <= i <= n => i as real * step);
    assert ts[n] == n as real * (tMax / n as real) == tMax;
    forall i | 0 <= i < n
      ensures ts[i + 1] - ts[i] == step
    {
      assert ts[i + 1] - ts[i] == (i + 1) as real * step - i as real * step;
    }
    ts
  }

  /** The vertices of the sampled spiral: one per sample time, starting at
      the origin. `tMax` is the given end or, when none is given, the
      default one. */
  function CurveVertices(a: real, curveLength: real, n: nat, tMax: Option<real>, pi: real,
                         cos: real -> real, sin: real -> real): (vs: seq<Vec3>)
    requires n > 0 && a != 0.0 && pi > 0.0
    ensures |vs| == n + 1 && vs[0] == Origin
    ensures forall i :: 0 <= i < |vs| ==> vs[i].z == 0.0
  {
    var end := match tMax case Some(t) => t case None => DefaultTMax(curveLength, a, pi);
    var ts := SampleTimes(end, n);
    seq(n + 1, i requires 0 <= i <= n => EulerSpiral(a, ts[i], cos, sin))
  }

  // ---------------------------------------------------------------------------
  // Corners

  /** A quarter turn about Z followed by negating y: the reflection in the
      line y = -x that turns a spiral leaving along +X into one arriving
      along +Y. */
  function Mirror45(v: Vec3): Vec3 {
    var turned := Vec3(-v.y, v.x, v.z);
    Vec3(turned.x, -turned.y, turned.z)
  }

  /** `Mirror45` is its own inverse and keeps distances. */
  lemma Mirror45Reflection(u: Vec3, v: Vec3)
    ensures Mirror45(Mirror45(v)) == v
    ensures var d := Sub(Mirror45(u), Mirror45(v)); var e := Sub(u, v); Dot(d, d) == Dot(e, e)
  {
  }

  /** The spiral's points in reverse, reflected, and moved so that the
      first of them lies at the origin (`mirror_vertices_45degree`). */
  function MirrorTail(vs: seq<Vec3>): (r: seq<Vec3>)
    requires |vs| > 0
    ensures |r| == |vs| && r[0] == Origin
    ensures forall i :: 0 <= i < |vs| ==> r[i] == Sub(Mirror45(vs[|vs| - 1 - i]), Mirror45(vs[|vs| - 1]))
  {
    var n := |vs|;
    seq(n, i requires 0 <= i < n => Sub(Mirror45(vs[n - 1 - i]), Mirror45(vs[n - 1])))
  }

  /** `create_clothoid_only_corner_vertices` on the samples of the spiral:
      the spiral followed by its mirrored tail, placed at the spiral's last
      point. */
  function OnlyCorner(vs: seq<Vec3>): (r: seq<Vec3>)
    requires |vs| > 0
    ensures |r| == 2 * |vs| && r[..|vs|] == vs
    ensures r[|vs|] == vs[|vs| - 1]
  {
    vs + TranslateAll(MirrorTail(vs), vs[|vs| - 1])
  }

  /** A corner built from a spiral that starts at the origin in the XY
      plane ends on the diagonal x = y, so it turns symmetrically through a
      right angle; and each point of the second half is the reflection of
      the matching point of the first half about the meeting point. */
  lemma OnlyCornerSymmetric(vs: seq<Vec3>, i: nat)
    requires |vs| > 0 && vs[0] == Origin && vs[|vs| - 1].z == 0.0 && i < |vs|
    ensures var r := OnlyCorner(vs);
      && r[2 * |vs| - 1].x == r[2 * |vs| - 1].y
      && Sub(r[|vs| + i], r[|vs|]) == Mirror45(Sub(vs[|vs| - 1 - i], vs[|vs| - 1]))
  {
    var n := |vs|;
    var r := OnlyCorner(vs);
    assert r[2 * n - 1] == TranslateAll(MirrorTail(vs), vs[n - 1])[n - 1];
    assert r[n + i] == TranslateAll(MirrorTail(vs), vs[n - 1])[i];
  }

  // ---------------------------------------------------------------------------
  // create_clothoid_corner_rectangle

  function ScaleAll(vs: seq<Vec3>, k: real): (r: seq<Vec3>)
    ensures |r| == |vs| && forall i :: 0 <= i < |vs| ==> r[i] == Scale(k, vs[i])
  {
    seq(|vs|, i requires 0 <= i < |vs| => Scale(k, vs[i]))
  }

  /** The factor that shrinks a corner of width `cw` to fit half the
      rectangle: 1 when it already fits. */
  function CornerScale(cw: real, w: real, h: real): (s: real)
    requires cw != 0.0 || cw <= Min(w / 2.0, h / 2.0)
    ensures s * cw <= Min(w / 2.0, h / 2.0)
    ensures cw > Min(w / 2.0, h / 2.0) ==> s * cw == Min(w / 2.0, h / 2.0)
    ensures cw <= Min(w / 2.0, h / 2.0) ==> s == 1.0
  {
    var lim := Min(w / 2.0, h / 2.0);
    if cw > lim then lim / cw else 1.0
  }

  /** Point `j` of the rectangle's outline before its final shift: the
      corner at the lower right, then the corner flipped upside down at the
      upper right, turned half round at the upper left and flipped sideways
      at the lower left. `sw` is the straight bottom edge's length and `top`
      the height of the upper corners' base line. */
  function CornerPoint(c: seq<Vec3>, sw: real, top: real, j: nat): Vec3
    requires j < 4 * |c|
  {
    var m := |c|;
    if j < m then Vec3(c[j].x + sw / 2.0, c[j].y, c[j].z)
    else if j < 2 * m then
      var v := c[2 * m - 1 - j];
      Vec3(v.x + sw / 2.0, -v.y + top, v.z)
    else if j < 3 * m then
      var v := c[j - 2 * m];
      Vec3(-v.x - sw / 2.0, -v.y + top, v.z)
    else
      var v := c[4 * m - 1 - j];
      Vec3(-v.x - sw / 2.0, v.y, v.z)
  }

  function Corners(c: seq<Vec3>, sw: real, top: real): (r: seq<Vec3>)
    ensures |r| == 4 * |c| && forall j :: 0 <= j < 4 * |c| ==> r[j] == CornerPoint(c, sw, top, j)
  {
    seq(4 * |c|, j requires 0 <= j < 4 * |c| => CornerPoint(c, sw, top, j))
  }

  /** Whether the rectangle can be built: Python fails on an empty corner
      (indexing its last point) and on a corner of width 0 that is too wide
      (dividing by its width). */
  predicate RectangleDefined(corner: seq<Vec3>, w: real, h: real) {
    |corner| > 0 && (corner[|corner| - 1].x != 0.0 || corner[|corner| - 1].x <= Min(w / 2.0, h / 2.0))
  }

  /** The rectangle of width `w` and height `h` with the given corner at
      each of its four corners, centred on the origin in y, and the factor
      the corner was scaled by. */
  function CornerRectangle(corner: seq<Vec3>, w: real, h: real): (r: Option<(seq<Vec3>, real)>)
    ensures r.Some? <==> RectangleDefined(corner, w, h)
    ensures r.Some? ==> |r.value.0| == 4 * |corner|
    ensures r.Some? ==> r.value.1 * corner[|corner| - 1].x <= Min(w / 2.0, h / 2.0)
  {
    if !RectangleDefined(corner, w, h) then None
    else
      var m := |corner|;
      var s := CornerScale(corner[m - 1].x, w, h);
      var c := if corner[m - 1].x > Min(w / 2.0, h / 2.0) then ScaleAll(corner, s) else corner;
      var sw := w - c[m - 1].x * 2.0;
      var sh := h - c[m - 1].y * 2.0;
      Some((TranslateAll(Corners(c, sw, c[m - 1].y * 2.0 + sh), Vec3(0.0, -h / 2.0, 0.0)), s))
  }

  /** The straight bottom and top edges never have negative length: the
      scaled corner is at most half the rectangle wide. */
  lemma StraightEdgeNonNegative(corner: seq<Vec3>, w: real, h: real)
    requires RectangleDefined(corner, w, h)
    ensures var s := CornerRectangle(corner, w, h).value.1;
      w - s * corner[|corner| - 1].x * 2.0 >= 0.0
  {
  }

  /** A corner in the XY plane makes the rectangle point-symmetric about the
      origin: the second half of the outline is the first half negated. */
  lemma RectanglePointSymmetric(corner: seq<Vec3>, w: real, h: real, i: nat)
    requires RectangleDefined(corner, w, h)
    requires forall k :: 0 <= k < |corner| ==> corner[k].z == 0.0
    requires i < 2 * |corner|
    ensures var vs := CornerRectangle(corner, w, h).value.0;
      vs[i + 2 * |corner|] == Neg(vs[i])
  {
    var m := |corner|;
    var s := CornerScale(corner[m - 1].x, w, h);
    var c := if corner[m - 1].x > Min(w / 2.0, h / 2.0) then ScaleAll(corner, s) else corner;
    assert forall k :: 0 <= k < m ==> c[k].z == 0.0;
    var sw := w - c[m - 1].x * 2.0;
    var sh := h - c[m - 1].y * 2.0;
    var top := c[m - 1].y * 2.0 + sh;
    assert top == h;
    var q := Corners(c, sw, top);
    var vs := CornerRectangle(corner, w, h).value.0;
    assert vs == TranslateAll(q, Vec3(0.0, -h / 2.0, 0.0));
    assert q[i + 2 * m] == CornerPoint(c, sw, top, i + 2 * m);
    assert q[i] == CornerPoint(c, sw, top, i);
  }

  // ---------------------------------------------------------------------------
  // The curve specification

  /** Which two of R, L and A the user gives; the third is derived. */
  datatype Specification = ByLengthAndParam | ByRadiusAndParam | ByRadiusAndLength

  datatype CurveParams = CurveParams(radius: real, length: real, param: real)

  /** The two operators that share the specification: the curve's length
      property has no hard maximum, the corner plate's has 100. */
  datatype Operator = CurveOperator | PlateOperator

  const ParamMin: real := 0.1
  const ParamMax: real := 100.0

  /** The hard range of the length property. */
  function LengthMax(op: Operator): Option<real> {
    if op == PlateOperator then Some(ParamMax) else None
  }

  /** The property ranges: R and A lie in [0.1, 100], L is at least 0.1 and,
      on the corner plate, at most 100. */
  predicate ParamsInRange(op: Operator, p: CurveParams) {
    && ParamMin <= p.radius <= ParamMax
    && ParamMin <= p.param <= ParamMax
    && ParamMin <= p.length
    && (LengthMax(op).Some? ==> p.length <= LengthMax(op).value)
  }

  /** What Blender stores when `v` is assigned to the radius or parameter
      property, and to the length property of `op`. */
  function StoreBounded(v: real): real { Clamp(ParamMin, ParamMax, v) }
  function StoreLength(op: Operator, v: real): real {
    match LengthMax(op)
    case Some(hi) => Clamp(ParamMin, hi, v)
    case None => Max(ParamMin, v)
  }

  /** R L, which a clothoid ties to its parameter: R L = A^2. */
  function Area(p: CurveParams): real { p.radius * p.length }

  /** The quantity `execute` derives from the two given ones, before it is
      assigned to its property. */
  function Derived(spec: Specification, p: CurveParams, sqrt: real -> real): real
    requires p.radius > 0.0 && p.length > 0.0
  {
    match spec
    case ByLengthAndParam => Square(p.param) / p.length
    case ByRadiusAndParam => Square(p.param) / p.radius
    case ByRadiusAndLength => sqrt(Area(p))
  }

  /** The derived quantity lies in the range of the property it is
      assigned to, so Blender stores it unchanged. */
  predicate DerivedInRange(op: Operator, spec: Specification, p: CurveParams, sqrt: real -> real)
    requires ParamsInRange(op, p)
  {
    var d := Derived(spec, p, sqrt);
    match spec
    case ByRadiusAndParam => d >= ParamMin && (LengthMax(op).Some? ==> d <= LengthMax(op).value)
    case _ => ParamMin <= d <= ParamMax
  }

  /** The start of `execute`: derive the unspecified quantity from the two
      given ones and assign it to its property, which clamps it into the
      property's range; the two given quantities stay as they are. */
  function Specify(op: Operator, spec: Specification, p: CurveParams, sqrt: real -> real): (r: CurveParams)
    requires ParamsInRange(op, p)
    ensures ParamsInRange(op, r)
    ensures spec == ByLengthAndParam ==> r.length == p.length && r.param == p.param
    ensures spec == ByRadiusAndParam ==> r.radius == p.radius && r.param == p.param
    ensures spec == ByRadiusAndLength ==> r.radius == p.radius && r.length == p.length
    ensures spec == ByLengthAndParam ==> (r.radius == Derived(spec, p, sqrt) <==> DerivedInRange(op, spec, p, sqrt))
    ensures spec == ByRadiusAndParam ==> (r.length == Derived(spec, p, sqrt) <==> DerivedInRange(op, spec, p, sqrt))
    ensures spec == ByRadiusAndLength ==> (r.param == Derived(spec, p, sqrt) <==> DerivedInRange(op, spec, p, sqrt))
  {
    var d := Derived(spec, p, sqrt);
    match spec
    case ByLengthAndParam => p.(radius := StoreBounded(d))
    case ByRadiusAndParam => p.(length := StoreLength(op, d))
    case ByRadiusAndLength => p.(param := StoreBounded(d))
  }

  /** The parameter the curve operator builds with once R and L are
      known. */
  function BuildParam(r: CurveParams, sqrt: real -> real): real {
    sqrt(Area(r))
  }

  /** The three quantities satisfy R L = A^2, and sqrt(R L), which the curve
      is built with, is A itself. */
  ghost predicate Consistent(r: CurveParams, sqrt: real -> real) {
    Area(r) == Square(r.param) && BuildParam(r, sqrt) == r.param
  }

  /** After the derivation the three quantities are consistent exactly when
      the derived one lay within its property's range. Otherwise Blender
      has clamped it, R L differs from A^2, and the curve operator builds
      with a parameter other than the A it shows. */
  lemma SpecifyConsistent(op: Operator, spec: Specification, p: CurveParams, sqrt: real -> real)
    requires ParamsInRange(op, p) && IsSqrt(sqrt)
    ensures Consistent(Specify(op, spec, p, sqrt), sqrt) <==> DerivedInRange(op, spec, p, sqrt)
  {
    match spec
    case ByLengthAndParam => RadiusDerivedConsistent(op, p, sqrt);
    case ByRadiusAndParam => LengthDerivedConsistent(op, p, sqrt);
    case ByRadiusAndLength => ParamDerivedConsistent(op, p, sqrt);
  }

  lemma RadiusDerivedConsistent(op: Operator, p: CurveParams, sqrt: real -> real)
    requires ParamsInRange(op, p) && IsSqrt(sqrt)
    ensures Consistent(Specify(op, ByLengthAndParam, p, sqrt), sqrt) <==> DerivedInRange(op, ByLengthAndParam, p, sqrt)
  {
    var r := Specify(op, ByLengthAndParam, p, sqrt);
    var a2 := Square(p.param);
    assert r.param == p.param && Area(r) == r.radius * p.length;
    DividedBack(a2, p.length, r.radius);
    ConsistentWhenAreaSquare(r, sqrt);
  }

  lemma LengthDerivedConsistent(op: Operator, p: CurveParams, sqrt: real -> real)
    requires ParamsInRange(op, p) && IsSqrt(sqrt)
    ensures Consistent(Specify(op, ByRadiusAndParam, p, sqrt), sqrt) <==> DerivedInRange(op, ByRadiusAndParam, p, sqrt)
  {
    var r := Specify(op, ByRadiusAndParam, p, sqrt);
    var a2 := Square(p.param);
    assert r.param == p.param && Area(r) == r.length * p.radius;
    DividedBack(a2, p.radius, r.length);
    ConsistentWhenAreaSquare(r, sqrt);
  }

  lemma ParamDerivedConsistent(op: Operator, p: CurveParams, sqrt: real -> real)
    requires ParamsInRange(op, p) && IsSqrt(sqrt)
    ensures Consistent(Specify(op, ByRadiusAndLength, p, sqrt), sqrt) <==> DerivedInRange(op, ByRadiusAndLength, p, sqrt)
  {
    var r := Specify(op, ByRadiusAndLength, p, sqrt);
    assert Area(r) == Area(p);
    AreaNonNegative(p);
    ConsistentWhenBuiltWithParam(r, sqrt);
  }

  lemma AreaNonNegative(p: CurveParams)
    requires p.radius >= 0.0 && p.length >= 0.0
    ensures Area(p) >= 0.0
  {
  }

  /** With a non-negative A, R L = A^2 alone makes the quantities
      consistent. */
  lemma ConsistentWhenAreaSquare(r: CurveParams, sqrt: real -> real)
    requires IsSqrt(sqrt) && r.param >= 0.0
    ensures Consistent(r, sqrt) <==> Area(r) == Square(r.param)
  {
    SqrtOfSquare(sqrt, r.param);
  }

  /** With a non-negative R L, building with A alone makes the quantities
      consistent. */
  lemma ConsistentWhenBuiltWithParam(r: CurveParams, sqrt: real -> real)
    requires IsSqrt(sqrt) && Area(r) >= 0.0
    ensures Consistent(r, sqrt) <==> BuildParam(r, sqrt) == r.param
  {
  }

  /** x L == a exactly when x is a / L, for positive L. */
  lemma DividedBack(a: real, l: real, x: real)
    requires l > 0.0
    ensures x * l == a <==> x == a / l
  {
  }

  /** The curve operator given L = 0.1 and A = 100 stores R = 100 rather than
      A^2 / L = 100000, and builds its curve with sqrt(10) instead of 100. */
  lemma SpecifyClamps(sqrt: real -> real)
    requires IsSqrt(sqrt)
    ensures var r := Specify(CurveOperator, ByLengthAndParam, CurveParams(1.0, 0.1, 100.0), sqrt);
      && r.radius == 100.0 && Square(BuildParam(r, sqrt)) == 10.0 && BuildParam(r, sqrt) != r.param
  {
    var r := Specify(CurveOperator, ByLengthAndParam, CurveParams(1.0, 0.1, 100.0), sqrt);
    assert Derived(ByLengthAndParam, CurveParams(1.0, 0.1, 100.0), sqrt) == 100000.0;
    assert Area(r) == 10.0;
  }
}
