/** The cross-section of an aluminium extrusion (a T-slot frame): the point
    mirror, the segment intersection, the vertex builders of the frame's
    quarter blocks, the face assembly of the whole section and the centre-hole
    grid. */
module AluminumExtrusion {
  import opened Geometry
  import opened FaceTiling

  // ---------------------------------------------------------------------------
  // mirror_point

  /** `mirror_point(p, n)`: `p - 2 (p . n^) n^` with `n^ = n.normalized()`,
      written without the square root as `p - 2 (p . n) / (n . n) n`. A zero
      normal normalizes to the zero vector, which leaves `p` in place. */
  function MirrorPoint(p: Vec3, n: Vec3): (r: Vec3)
    ensures Dot(n, n) == 0.0 ==> r == p
    ensures Dot(n, n) != 0.0 ==> Dot(Add(p, r), n) == 0.0
  {
    if Dot(n, n) == 0.0 then p
    else
      var c := 2.0 * Dot(p, n) / Dot(n, n);
      MirrorFlipsHeight(p, n, c);
      Sub(p, Scale(c, n))
  }

  /** Moving `p` by `-c n` with `c = 2 (p . n) / (n . n)` flips its height
      above the plane: the mirror image lies as far below as `p` above. */
  lemma MirrorFlipsHeight(p: Vec3, n: Vec3, c: real)
    requires Dot(n, n) != 0.0 && c == 2.0 * Dot(p, n) / Dot(n, n)
    ensures Dot(Sub(p, Scale(c, n)), n) == -Dot(p, n)
    ensures Dot(Add(p, Sub(p, Scale(c, n))), n) == 0.0
  {
    QuotientTimesDivisor(2.0 * Dot(p, n), Dot(n, n));
    DotAfterShift(p, n, c);
  }

  lemma QuotientTimesDivisor(a: real, b: real)
    requires b != 0.0
    ensures a / b * b == a
  {
  }

  /** Shifting `p` by `-c n` lowers its dot product with `n` by `c (n . n)`. */
  lemma DotAfterShift(p: Vec3, n: Vec3, c: real)
    ensures Dot(Sub(p, Scale(c, n)), n) == Dot(p, n) - c * Dot(n, n)
    ensures Dot(Add(p, Sub(p, Scale(c, n))), n) == 2.0 * Dot(p, n) - c * Dot(n, n)
  {
    ShiftTerm(p.x, c, n.x);
    ShiftTerm(p.y, c, n.y);
    ShiftTerm(p.z, c, n.z);
    assert c * Dot(n, n) == c * (n.x * n.x) + c * (n.y * n.y) + c * (n.z * n.z);
  }

  lemma ShiftTerm(a: real, c: real, b: real)
    ensures (a - c * b) * b == a * b - c * (b * b)
    ensures (a + (a - c * b)) * b == 2.0 * (a * b) - c * (b * b)
  {
  }

  /** Mirroring twice in the same plane gives the point back. */
  lemma MirrorInvolution(p: Vec3, n: Vec3)
    ensures MirrorPoint(MirrorPoint(p, n), n) == p
  {
    if Dot(n, n) != 0.0 {
      var nn := Dot(n, n);
      var c := 2.0 * Dot(p, n) / nn;
      var r := Sub(p, Scale(c, n));
      MirrorFlipsHeight(p, n, c);
      var c' := 2.0 * Dot(r, n) / nn;
      assert c' == -c by {
        assert Dot(r, n) == -Dot(p, n);
        NegatedQuotient(2.0 * Dot(p, n), nn);
      }
      assert Sub(r, Scale(c', n)) == p;
    }
  }

  lemma NegatedQuotient(a: real, b: real)
    requires b != 0.0
    ensures -a / b == -(a / b)
  {
  }

  /** Points on the mirror plane stay where they are. */
  lemma MirrorFixesPlane(p: Vec3, n: Vec3)
    requires Dot(p, n) == 0.0
    ensures MirrorPoint(p, n) == p
  {
    if Dot(n, n) != 0.0 {
      ZeroQuotient(Dot(n, n));
    }
  }

  lemma ZeroQuotient(b: real)
    requires b != 0.0
    ensures 2.0 * 0.0 / b == 0.0
  {
  }

  /** The planes the section uses, as coordinate maps: x = 0 negates x. */
  lemma MirrorAcrossX(p: Vec3)
    ensures MirrorPoint(p, Vec3(-1.0, 0.0, 0.0)) == Vec3(-p.x, p.y, p.z)
  {
    var n := Vec3(-1.0, 0.0, 0.0);
    assert Dot(n, n) == 1.0 && Dot(p, n) == -p.x;
  }

  /** y = 0, whichever way its normal points, negates y. */
  lemma MirrorAcrossY(p: Vec3)
    ensures MirrorPoint(p, Vec3(0.0, 1.0, 0.0)) == Vec3(p.x, -p.y, p.z)
    ensures MirrorPoint(p, Vec3(0.0, -1.0, 0.0)) == Vec3(p.x, -p.y, p.z)
  {
    var n := Vec3(0.0, 1.0, 0.0);
    assert Dot(n, n) == 1.0 && Dot(p, n) == p.y;
    var n' := Vec3(0.0, -1.0, 0.0);
    assert Dot(n', n') == 1.0 && Dot(p, n') == -p.y;
  }

  /** The diagonal x + y = 0 swaps and negates x and y. */
  lemma MirrorAcrossDiagonal(p: Vec3)
    ensures MirrorPoint(p, Vec3(1.0, 1.0, 0.0)) == Vec3(-p.y, -p.x, p.z)
  {
    var n := Vec3(1.0, 1.0, 0.0);
    assert Dot(n, n) == 2.0 && Dot(p, n) == p.x + p.y;
    assert 2.0 * (p.x + p.y) / 2.0 == p.x + p.y;
  }

  /** `[mirror_point(v, n) for v in vs]`. */
  function MirrorAll(vs: seq<Vec3>, n: Vec3): (r: seq<Vec3>)
    ensures |r| == |vs|
    ensures forall i :: 0 <= i < |vs| ==> r[i] == MirrorPoint(vs[i], n)
  {
    seq(|vs|, i requires 0 <= i < |vs| => MirrorPoint(vs[i], n))
  }

  // ---------------------------------------------------------------------------
  // find_intersection

  /** The parameters the source computes: `t = |(q - p) x s| / |r x s|` and
      `u = |(q - p) x r| / |r x s|`, ratios of lengths under `sqrt`. */
  function SegmentParams(p: Vec3, pe: Vec3, q: Vec3, qe: Vec3, sqrt: real -> real): (real, real)
    requires Length(sqrt, Cross(Sub(pe, p), Sub(qe, q))) != 0.0
  {
    var r := Sub(pe, p);
    var s := Sub(qe, q);
    var rs := Length(sqrt, Cross(r, s));
    (Length(sqrt, Cross(Sub(q, p), s)) / rs, Length(sqrt, Cross(Sub(q, p), r)) / rs)
  }

  /** `find_intersection` as written: `None` for parallel segments, otherwise
      `p + t r` when both parameters lie in [0, 1]. */
  function FindIntersection(p: Vec3, pe: Vec3, q: Vec3, qe: Vec3, sqrt: real -> real): (res: Option<Vec3>)
    ensures Length(sqrt, Cross(Sub(pe, p), Sub(qe, q))) == 0.0 ==> res.None?
    ensures res.Some? ==>
      var (t, u) := SegmentParams(p, pe, q, qe, sqrt);
      t <= 1.0 && u <= 1.0 && res.value == Add(p, Scale(t, Sub(pe, p)))
  {
    var r := Sub(pe, p);
    if Length(sqrt, Cross(r, Sub(qe, q))) == 0.0 then None
    else
      var (t, u) := SegmentParams(p, pe, q, qe, sqrt);
      if 0.0 <= t <= 1.0 && 0.0 <= u <= 1.0 then Some(Add(p, Scale(t, r))) else None
  }

  /** Under a true square root both parameters are quotients of lengths and
      never negative, so the `0 <=` halves of the range test always pass. */
  lemma SegmentParamsNonNegative(p: Vec3, pe: Vec3, q: Vec3, qe: Vec3, sqrt: real -> real)
    requires IsSqrt(sqrt)
    requires Length(sqrt, Cross(Sub(pe, p), Sub(qe, q))) != 0.0
    ensures SegmentParams(p, pe, q, qe, sqrt).0 >= 0.0 && SegmentParams(p, pe, q, qe, sqrt).1 >= 0.0
  {
    var r := Sub(pe, p);
    var s := Sub(qe, q);
    var w := Sub(q, p);
    SquareNonNegative(Cross(r, s));
    SquareNonNegative(Cross(w, s));
    SquareNonNegative(Cross(w, r));
    QuotientOfNonNegatives(Length(sqrt, Cross(w, s)), Length(sqrt, Cross(r, s)));
    QuotientOfNonNegatives(Length(sqrt, Cross(w, r)), Length(sqrt, Cross(r, s)));
  }

  lemma SquareNonNegative(v: Vec3)
    ensures Dot(v, v) >= 0.0
  {
  }

  lemma QuotientOfNonNegatives(a: real, b: real)
    requires a >= 0.0 && b > 0.0
    ensures a / b >= 0.0
  {
  }

  /** In the plane z = 0, where the section lies, the length of a cross
      product is the magnitude of the planar cross product. */
  lemma PlanarCrossLength(sqrt: real -> real, a: Vec3, b: Vec3)
    requires IsSqrt(sqrt) && a.z == 0.0 && b.z == 0.0
    ensures Length(sqrt, Cross(a, b)) == Abs(Cross2(a, b))
  {
    var c := Cross2(a, b);
    assert Cross(a, b) == Vec3(0.0, 0.0, c);
    assert Dot(Vec3(0.0, 0.0, c), Vec3(0.0, 0.0, c)) == Abs(c) * Abs(c);
    LengthOf(sqrt, Cross(a, b), Abs(c));
  }

  /** The quotient of magnitudes is the magnitude of the quotient. */
  lemma AbsQuotient(a: real, b: real)
    requires b != 0.0
    ensures Abs(a) / Abs(b) == Abs(a / b)
  {
    var q := a / b;
    QuotientTimesDivisor(a, b);
    AbsProduct(q, b);
    assert Abs(q) * Abs(b) == Abs(a);
    QuotientTimesDivisor(Abs(a), Abs(b));
    CancelFactor(Abs(a) / Abs(b), Abs(q), Abs(b));
  }

  lemma AbsProduct(x: real, y: real)
    ensures Abs(x * y) == Abs(x) * Abs(y)
  {
    if x < 0.0 && y < 0.0 {
      assert x * y == (-x) * (-y);
    } else if x < 0.0 {
      assert -(x * y) == (-x) * y;
    } else if y < 0.0 {
      assert -(x * y) == x * (-y);
    }
  }

  /** `find_intersection` as written, for segments in the plane z = 0, in
      closed form: with the signed parameters `t` and `u` of the meeting
      point of the two lines, a point is returned exactly when `|t| <= 1`
      and `|u| <= 1`, and that point is `p + |t| r`, which lies on the first
      segment whether or not the lines meet there. */
  function FindIntersectionInPlane(p: Vec3, pe: Vec3, q: Vec3, qe: Vec3): (res: Option<Vec3>)
    ensures Cross2(Sub(pe, p), Sub(qe, q)) == 0.0 ==> res.None?
    ensures res.Some? ==> exists a :: 0.0 <= a <= 1.0 && res.value == Add(p, Scale(a, Sub(pe, p)))
    ensures res.Some? && p.z == 0.0 && pe.z == 0.0 ==> res.value.z == 0.0
  {
    var r, s, w := Sub(pe, p), Sub(qe, q), Sub(q, p);
    var rs := Cross2(r, s);
    if rs == 0.0 then None
    else
      var t, u := Cross2(w, s) / rs, Cross2(w, r) / rs;
      if Abs(t) <= 1.0 && Abs(u) <= 1.0 then Some(Add(p, Scale(Abs(t), r))) else None
  }

  /** Under a true square root, and for segments in the plane z = 0, the
      source's length-based computation is the closed form above. */
  lemma FindIntersectionMagnitudes(p: Vec3, pe: Vec3, q: Vec3, qe: Vec3, sqrt: real -> real)
    requires IsSqrt(sqrt)
    requires p.z == 0.0 && pe.z == 0.0 && q.z == 0.0 && qe.z == 0.0
    ensures FindIntersection(p, pe, q, qe, sqrt) == FindIntersectionInPlane(p, pe, q, qe)
  {
    var r, s, w := Sub(pe, p), Sub(qe, q), Sub(q, p);
    var rs := Cross2(r, s);
    PlanarCrossLength(sqrt, r, s);
    PlanarCrossLength(sqrt, w, s);
    PlanarCrossLength(sqrt, w, r);
    if rs != 0.0 {
      AbsQuotient(Cross2(w, s), rs);
      AbsQuotient(Cross2(w, r), rs);
    }
  }

  /** The discrepancy: when the lines meet behind the start of the first
      segment (`-1 <= t < 0`) at a point of the second segment, the source
      still returns a point, `p - t r`, which lies on the first segment but
      not at the meeting point, while the signed form returns `None`. */
  lemma FindIntersectionIgnoresSign(p: Vec3, pe: Vec3, q: Vec3, qe: Vec3, sqrt: real -> real)
    requires IsSqrt(sqrt)
    requires p.z == 0.0 && pe.z == 0.0 && q.z == 0.0 && qe.z == 0.0
    requires Cross2(Sub(pe, p), Sub(qe, q)) != 0.0
    requires var t := Cross2(Sub(q, p), Sub(qe, q)) / Cross2(Sub(pe, p), Sub(qe, q));
      -1.0 <= t < 0.0
    requires var u := Cross2(Sub(q, p), Sub(pe, p)) / Cross2(Sub(pe, p), Sub(qe, q));
      0.0 <= u <= 1.0
    ensures FindIntersection(p, pe, q, qe, sqrt) ==
      Some(Add(p, Scale(-(Cross2(Sub(q, p), Sub(qe, q)) / Cross2(Sub(pe, p), Sub(qe, q))), Sub(pe, p))))
    ensures FindIntersection2(p, pe, q, qe).None?
  {
    FindIntersectionMagnitudes(p, pe, q, qe, sqrt);
  }

  /** Where the signed parameters do lie in [0, 1] the source and the
      signed form agree. */
  lemma FindIntersectionAgreesInRange(p: Vec3, pe: Vec3, q: Vec3, qe: Vec3, sqrt: real -> real)
    requires IsSqrt(sqrt)
    requires p.z == 0.0 && pe.z == 0.0 && q.z == 0.0 && qe.z == 0.0
    requires FindIntersection2(p, pe, q, qe).Some?
    ensures FindIntersection(p, pe, q, qe, sqrt) == FindIntersection2(p, pe, q, qe)
  {
    FindIntersectionMagnitudes(p, pe, q, qe, sqrt);
  }

  /** A vector whose squared length is `l * l`, `l >= 0`, has length `l`. */
  lemma LengthOf(sqrt: real -> real, v: Vec3, l: real)
    requires IsSqrt(sqrt) && l >= 0.0 && Dot(v, v) == l * l
    ensures Length(sqrt, v) == l
  {
    var x := sqrt(Dot(v, v));
    assert x >= 0.0 && x * x == l * l;
    SquareInjective(x, l);
  }

  lemma SquareInjective(x: real, y: real)
    requires x >= 0.0 && y >= 0.0 && x * x == y * y
    ensures x == y
  {
    if x + y != 0.0 {
      assert (x - y) * (x + y) == 0.0 * (x + y);
      CancelFactor(x - y, 0.0, x + y);
    }
  }

  /** The planar cross product `a.x b.y - a.y b.x`. */
  function Cross2(a: Vec3, b: Vec3): real { a.x * b.y - a.y * b.x }

  /** The intersection as evidently intended, in the XY plane where the
      section lies: signed parameters from the planar cross product, and the
      point returned only when both lie in [0, 1]. */
  function FindIntersection2(p: Vec3, pe: Vec3, q: Vec3, qe: Vec3): (res: Option<Vec3>)
    ensures Cross2(Sub(pe, p), Sub(qe, q)) == 0.0 ==> res.None?
    ensures res.Some? && p.z == 0.0 && pe.z == 0.0 ==> res.value.z == 0.0
  {
    var r := Sub(pe, p);
    var s := Sub(qe, q);
    var rs := Cross2(r, s);
    if rs == 0.0 then None
    else
      var t := Cross2(Sub(q, p), s) / rs;
      var u := Cross2(Sub(q, p), r) / rs;
      if 0.0 <= t <= 1.0 && 0.0 <= u <= 1.0 then Some(Add(p, Scale(t, r))) else None
  }

  /** The corrected intersection is a point of both segments: `p + t r` and
      `q + u s` agree in x and y for some t and u in [0, 1]. */
  lemma FindIntersection2OnBoth(p: Vec3, pe: Vec3, q: Vec3, qe: Vec3)
    requires FindIntersection2(p, pe, q, qe).Some?
    ensures var x := FindIntersection2(p, pe, q, qe).value;
      var r := Sub(pe, p);
      var s := Sub(qe, q);
      var rs := Cross2(r, s);
      var t := Cross2(Sub(q, p), s) / rs;
      var u := Cross2(Sub(q, p), r) / rs;
      && 0.0 <= t <= 1.0 && 0.0 <= u <= 1.0
      && x == Add(p, Scale(t, r))
      && x.x == q.x + u * s.x && x.y == q.y + u * s.y
  {
    var r := Sub(pe, p);
    var s := Sub(qe, q);
    var w := Sub(q, p);
    var rs := Cross2(r, s);
    var t := Cross2(w, s) / rs;
    var u := Cross2(w, r) / rs;
    assert FindIntersection2(p, pe, q, qe) == Some(Add(p, Scale(t, r)));
    CrossIdentity(w, r, s);
    LineMeets(p.x, q.x, w.x, r.x, s.x, rs, Cross2(w, s), Cross2(w, r), t, u);
    LineMeets(p.y, q.y, w.y, r.y, s.y, rs, Cross2(w, s), Cross2(w, r), t, u);
  }

  /** The planar identity behind the intersection formula, per coordinate:
      `w rs == (w x s) r - (w x r) s`. */
  lemma CrossIdentity(w: Vec3, r: Vec3, s: Vec3)
    ensures w.x * Cross2(r, s) == Cross2(w, s) * r.x - Cross2(w, r) * s.x
    ensures w.y * Cross2(r, s) == Cross2(w, s) * r.y - Cross2(w, r) * s.y
  {
  }

  lemma LineMeets(p: real, q: real, w: real, r: real, s: real, rs: real, ws: real, wr: real, t: real, u: real)
    requires rs != 0.0 && w == q - p && w * rs == ws * r - wr * s
    requires t == ws / rs && u == wr / rs
    ensures p + t * r == q + u * s
  {
    assert t * rs == ws;
    assert u * rs == wr;
    assert (p + t * r) * rs == p * rs + ws * r;
    assert (q + u * s) * rs == q * rs + wr * s;
    assert (p + t * r) * rs == (q + u * s) * rs;
    CancelFactor(p + t * r, q + u * s, rs);
  }

  lemma CancelFactor(a: real, b: real, c: real)
    requires c != 0.0 && a * c == b * c
    ensures a == b
  {
    assert (a - b) * c == 0.0;
  }

  // ---------------------------------------------------------------------------
  // AluminumExtrusionSpec and the quarter-block builders

  /** The dimensions of one profile (2020, 3030, ...); the slot counts say
      how many frame cells the section has across and down. */
  datatype ExtrusionSpec = ExtrusionSpec(
    size: real, xSlots: nat, ySlots: nat,
    slotWidth: real, slotWideWidth: real, coreWidth: real,
    wallThickness: real, middleWallThickness: real, xBoneThickness: real)

  /** All points lie in the plane z = 0. */
  predicate Planar(vs: seq<Vec3>) {
    forall i :: 0 <= i < |vs| ==> vs[i].z == 0.0
  }

  /** The horizontal width of a diagonal bone, `x_bone_thickness / sqrt(2) * 2`,
      given the square root of two. */
  function DiagonalWidth(spec: ExtrusionSpec, rt2: real): real
    requires rt2 > 0.0
  {
    spec.xBoneThickness / rt2 * 2.0
  }

  /** The two points where the diagonal bones of the top-left block meet the
      inner slot walls. */
  function TopLeftTips(spec: ExtrusionSpec, rt2: real): (Option<Vec3>, Option<Vec3>)
    requires rt2 > 0.0
  {
    (HorizontalWallTip(spec, DiagonalWidth(spec, rt2)), VerticalWallTip(spec, DiagonalWidth(spec, rt2)))
  }

  /** The bone of horizontal width `d` from `(-core/2, core/2 - d/2)`
      against the wall line y = slot_wide_width / 2. */
  function HorizontalWallTip(spec: ExtrusionSpec, d: real): Option<Vec3>
  {
    var v1 := Vec3(-spec.coreWidth / 2.0, spec.coreWidth / 2.0 - d / 2.0, 0.0);
    FindIntersectionInPlane(v1, Add(v1, Scale(1000.0, Vec3(-1.0, 1.0, 0.0))),
                            Vec3(-1000.0, spec.slotWideWidth / 2.0, 0.0), Vec3(0.0, spec.slotWideWidth / 2.0, 0.0))
  }

  /** The bone of horizontal width `d` from `(-core/2 + d/2, core/2)`
      against the wall line x = -slot_wide_width / 2. */
  function VerticalWallTip(spec: ExtrusionSpec, d: real): Option<Vec3>
  {
    var v2 := Vec3(-spec.coreWidth / 2.0 + d / 2.0, spec.coreWidth / 2.0, 0.0);
    FindIntersectionInPlane(v2, Add(v2, Scale(1000.0, Vec3(-1.0, 1.0, 0.0))),
                            Vec3(-spec.slotWideWidth / 2.0, 1000.0, 0.0), Vec3(-spec.slotWideWidth / 2.0, 0.0, 0.0))
  }

  /** `make_topleft_vertices`: the outline of the top-left quarter of a
      corner cell, or `None` when `find_intersection` as written finds no
      point for one of its bones. */
  function TopLeft(spec: ExtrusionSpec, rt2: real): (r: Option<seq<Vec3>>)
    requires rt2 > 0.0
    ensures r.Some? <==> TopLeftTips(spec, rt2).0.Some? && TopLeftTips(spec, rt2).1.Some?
    ensures r.Some? ==> |r.value| == 14 && Planar(r.value)
    ensures r.Some? ==> r.value[0] == Origin && r.value[3] == TopLeftTips(spec, rt2).0.value
                        && r.value[11] == TopLeftTips(spec, rt2).1.value
  {
    var d := DiagonalWidth(spec, rt2);
    var (a, b) := TopLeftTips(spec, rt2);
    if a.None? || b.None? then None
    else
      var half := spec.size / 2.0;
      Some([Origin,
            Vec3(-spec.coreWidth / 2.0, 0.0, 0.0),
            Vec3(-spec.coreWidth / 2.0, spec.coreWidth / 2.0 - d / 2.0, 0.0),
            a.value,
            Vec3(-half + spec.wallThickness, spec.slotWideWidth / 2.0, 0.0),
            Vec3(-half + spec.wallThickness, spec.slotWidth / 2.0, 0.0),
            Vec3(-half, spec.slotWidth / 2.0, 0.0),
            Vec3(-half, half, 0.0),
            Vec3(-spec.slotWidth / 2.0, half, 0.0),
            Vec3(-spec.slotWidth / 2.0, half - spec.wallThickness, 0.0),
            Vec3(-spec.slotWideWidth / 2.0, half - spec.wallThickness, 0.0),
            b.value,
            Vec3(-spec.coreWidth / 2.0 + d / 2.0, spec.coreWidth / 2.0, 0.0),
            Vec3(0.0, spec.coreWidth / 2.0, 0.0)])
  }

  /** A 20 mm one-cell profile with slot 6, inner slot 12, core 16 and bone
      thickness 1, every size within the operator's ranges: both diagonal
      bones meet the inner slot wall just behind their start (t is about
      -0.0013), so the signed test would find no tip, while the source
      finds one. The section is built, but its first tip lies off the wall
      line y = 6 that it is meant to lie on. */
  lemma TopLeftTipOffWall(rt2: real)
    requires rt2 > 0.0 && rt2 * rt2 == 2.0
    ensures var spec := ExtrusionSpec(20.0, 1, 1, 6.0, 12.0, 16.0, 2.0, 2.0, 1.0);
      && TopLeft(spec, rt2).Some?
      && TopLeft(spec, rt2).value[3].y != spec.slotWideWidth / 2.0
      && Bottom(spec, rt2).Some?
  {
    var spec := ExtrusionSpec(20.0, 1, 1, 6.0, 12.0, 16.0, 2.0, 2.0, 1.0);
    var d := DiagonalWidth(spec, rt2);
    assert 0.0 < d < 2.0 by {
      assert d * rt2 == 2.0;
    }
    SmallSpecFirstTip(spec, d);
    SmallSpecSecondTip(spec, d);
  }

  /** The first tip of that profile: the bone from `(-8, 8 - d/2)` meets
      the line y = 6 at t = (500 d - 2000) / 10^6 < 0, and the source
      returns the point at `|t|` instead, above that line. */
  lemma SmallSpecFirstTip(spec: ExtrusionSpec, d: real)
    requires spec == ExtrusionSpec(20.0, 1, 1, 6.0, 12.0, 16.0, 2.0, 2.0, 1.0)
    requires 0.0 < d < 2.0
    ensures HorizontalWallTip(spec, d).Some? && HorizontalWallTip(spec, d).value.y > 6.0
  {
    var v1 := Vec3(-spec.coreWidth / 2.0, spec.coreWidth / 2.0 - d / 2.0, 0.0);
    var pe, q, qe := Add(v1, Scale(1000.0, Vec3(-1.0, 1.0, 0.0))),
                     Vec3(-1000.0, spec.slotWideWidth / 2.0, 0.0), Vec3(0.0, spec.slotWideWidth / 2.0, 0.0);
    HorizontalWallTipIs(spec, d);
    FirstBoneTip(d, v1, pe, q, qe);
  }

  /** The wall tips as intersections of the two segments they are built
      from. */
  lemma HorizontalWallTipIs(spec: ExtrusionSpec, d: real)
    ensures var v1 := Vec3(-spec.coreWidth / 2.0, spec.coreWidth / 2.0 - d / 2.0, 0.0);
      HorizontalWallTip(spec, d) ==
        FindIntersectionInPlane(v1, Add(v1, Scale(1000.0, Vec3(-1.0, 1.0, 0.0))),
                                Vec3(-1000.0, spec.slotWideWidth / 2.0, 0.0), Vec3(0.0, spec.slotWideWidth / 2.0, 0.0))
  {
  }

  lemma VerticalWallTipIs(spec: ExtrusionSpec, d: real)
    ensures var v2 := Vec3(-spec.coreWidth / 2.0 + d / 2.0, spec.coreWidth / 2.0, 0.0);
      VerticalWallTip(spec, d) ==
        FindIntersectionInPlane(v2, Add(v2, Scale(1000.0, Vec3(-1.0, 1.0, 0.0))),
                                Vec3(-spec.slotWideWidth / 2.0, 1000.0, 0.0), Vec3(-spec.slotWideWidth / 2.0, 0.0, 0.0))
  {
  }

  lemma FirstBoneTip(d: real, p: Vec3, pe: Vec3, q: Vec3, qe: Vec3)
    requires 0.0 < d < 2.0
    requires p == Vec3(-8.0, 8.0 - d / 2.0, 0.0) && pe == Add(p, Scale(1000.0, Vec3(-1.0, 1.0, 0.0)))
    requires q == Vec3(-1000.0, 6.0, 0.0) && qe == Vec3(0.0, 6.0, 0.0)
    ensures FindIntersectionInPlane(p, pe, q, qe).Some? && FindIntersectionInPlane(p, pe, q, qe).value.y > 6.0
  {
    var r, s, w := Vec3(-1000.0, 1000.0, 0.0), Vec3(1000.0, 0.0, 0.0), Vec3(-992.0, -2.0 + d / 2.0, 0.0);
    assert Sub(pe, p) == r && Sub(qe, q) == s && Sub(q, p) == w;
    assert Cross2(r, s) == -1000000.0;
    var t := (2000.0 - 500.0 * d) / -1000000.0;
    var u := (-994000.0 + 500.0 * d) / -1000000.0;
    assert Cross2(w, s) / Cross2(r, s) == t && Cross2(w, r) / Cross2(r, s) == u;
    assert -1.0 < t < 0.0 && 0.0 <= u <= 1.0;
  }

  /** The second tip, mirrored about the diagonal: the bone from
      `(-8 + d/2, 8)` meets the line x = -6 just behind its start too. */
  lemma SmallSpecSecondTip(spec: ExtrusionSpec, d: real)
    requires spec == ExtrusionSpec(20.0, 1, 1, 6.0, 12.0, 16.0, 2.0, 2.0, 1.0)
    requires 0.0 < d < 2.0
    ensures VerticalWallTip(spec, d).Some?
  {
    var v2 := Vec3(-spec.coreWidth / 2.0 + d / 2.0, spec.coreWidth / 2.0, 0.0);
    var pe, q, qe := Add(v2, Scale(1000.0, Vec3(-1.0, 1.0, 0.0))),
                     Vec3(-spec.slotWideWidth / 2.0, 1000.0, 0.0), Vec3(-spec.slotWideWidth / 2.0, 0.0, 0.0);
    VerticalWallTipIs(spec, d);
    SecondBoneTip(d, v2, pe, q, qe);
  }

  lemma SecondBoneTip(d: real, p: Vec3, pe: Vec3, q: Vec3, qe: Vec3)
    requires 0.0 < d < 2.0
    requires p == Vec3(-8.0 + d / 2.0, 8.0, 0.0) && pe == Add(p, Scale(1000.0, Vec3(-1.0, 1.0, 0.0)))
    requires q == Vec3(-6.0, 1000.0, 0.0) && qe == Vec3(-6.0, 0.0, 0.0)
    ensures FindIntersectionInPlane(p, pe, q, qe).Some?
  {
    var r, s, w := Vec3(-1000.0, 1000.0, 0.0), Vec3(0.0, -1000.0, 0.0), Vec3(2.0 - d / 2.0, 992.0, 0.0);
    assert Sub(pe, p) == r && Sub(qe, q) == s && Sub(q, p) == w;
    assert Cross2(r, s) == 1000000.0;
    var t := (-2000.0 + 500.0 * d) / 1000000.0;
    var u := (994000.0 - 500.0 * d) / 1000000.0;
    assert Cross2(w, s) / Cross2(r, s) == t && Cross2(w, r) / Cross2(r, s) == u;
    assert -1.0 < t < 0.0 && 0.0 <= u <= 1.0;
  }

  /** The root of the diagonal bone of a middle block, and where that bone
      meets the inner slot wall. */
  function DiagonalRoot(spec: ExtrusionSpec, rt2: real): Vec3
    requires rt2 > 0.0
  {
    Vec3(spec.coreWidth / 2.0 - DiagonalWidth(spec, rt2) / 2.0, spec.coreWidth / 2.0, 0.0)
  }

  function DiagonalTip(spec: ExtrusionSpec, rt2: real): Option<Vec3>
    requires rt2 > 0.0
  {
    var root := DiagonalRoot(spec, rt2);
    FindIntersectionInPlane(root, Add(root, Scale(1000.0, Vec3(1.0, 1.0, 0.0))),
                            Vec3(spec.slotWideWidth / 2.0, 1000.0, 0.0), Vec3(spec.slotWideWidth / 2.0, 0.0, 0.0))
  }

  /** Without the core, where the lower edge of the bone meets the inner
      horizontal line `y = core_width / 2 - x_bone_thickness`. */
  function InnerTip(spec: ExtrusionSpec, rt2: real, tipRight: Vec3): Option<Vec3>
  {
    var y := spec.coreWidth / 2.0 - spec.xBoneThickness;
    FindIntersectionInPlane(Vec3(0.0, y, 0.0), Vec3(1000.0, y, 0.0),
                            tipRight, Add(tipRight, Scale(1000.0, Vec3(-1.0, -1.0, 0.0))))
  }

  /** `make_topmiddle_left_vertices(middle, core)`. */
  function TopMiddleLeft(spec: ExtrusionSpec, rt2: real, middle: bool, core: bool): (r: Option<seq<Vec3>>)
    requires rt2 > 0.0
    ensures r.Some? <==>
      DiagonalTip(spec, rt2).Some? &&
      (core || InnerTip(spec, rt2, Add(DiagonalTip(spec, rt2).value, Vec3(DiagonalWidth(spec, rt2), 0.0, 0.0))).Some?)
    ensures r.Some? ==> |r.value| == (if core then 13 else 12) && Planar(r.value)
    ensures r.Some? ==> r.value[3] == DiagonalTip(spec, rt2).value
    ensures r.Some? ==> r.value[8].y == spec.size / 2.0 - (if middle then spec.middleWallThickness else spec.wallThickness)
  {
    var d := DiagonalWidth(spec, rt2);
    var root := DiagonalRoot(spec, rt2);
    var tip := DiagonalTip(spec, rt2);
    if tip.None? then None
    else
      var half := spec.size / 2.0;
      var wall := if middle then spec.middleWallThickness else spec.wallThickness;
      var tipRight := Add(tip.value, Vec3(d, 0.0, 0.0));
      var start := if core then Origin else Vec3(0.0, spec.coreWidth / 2.0 - spec.xBoneThickness, 0.0);
      var body := [start,
                   Vec3(0.0, spec.coreWidth / 2.0, 0.0),
                   root,
                   tip.value,
                   Vec3(spec.slotWideWidth / 2.0, half - spec.wallThickness, 0.0),
                   Vec3(spec.slotWidth / 2.0, half - spec.wallThickness, 0.0),
                   Vec3(spec.slotWidth / 2.0, half, 0.0),
                   Vec3(half, half, 0.0),
                   Vec3(half, half - wall, 0.0),
                   Vec3(spec.slotWideWidth / 2.0 + d, half - wall, 0.0),
                   tipRight];
      if core then
        Some(body + [Add(root, Vec3(d / 2.0, -d / 2.0, 0.0)), Vec3(spec.coreWidth / 2.0, 0.0, 0.0)])
      else
        var inner := InnerTip(spec, rt2, tipRight);
        if inner.None? then None else Some(body + [inner.value])
  }

  /** The builders that mirror another block: one point per point, in the
      same order, each the mirror image of its counterpart. */
  function MirrorBlock(block: Option<seq<Vec3>>, n: Vec3): (r: Option<seq<Vec3>>)
    ensures r.Some? <==> block.Some?
    ensures r.Some? ==> |r.value| == |block.value|
    ensures r.Some? ==> forall i :: 0 <= i < |r.value| ==> r.value[i] == MirrorPoint(block.value[i], n)
  {
    if block.None? then None else Some(MirrorAll(block.value, n))
  }

  /** The three mirrors the builders use, applied to whole blocks, as
      coordinate maps. */
  function MirrorX(block: Option<seq<Vec3>>): (r: Option<seq<Vec3>>)
    ensures r == MirrorBlock(block, Vec3(-1.0, 0.0, 0.0))
    ensures r.Some? <==> block.Some?
    ensures r.Some? ==> |r.value| == |block.value|
    ensures r.Some? ==> forall i :: 0 <= i < |block.value| ==> r.value[i] == Vec3(-block.value[i].x, block.value[i].y, block.value[i].z)
  {
    var r := MirrorBlock(block, Vec3(-1.0, 0.0, 0.0));
    if r.Some? then AllAcrossX(block.value); r else r
  }

  function MirrorY(block: Option<seq<Vec3>>): (r: Option<seq<Vec3>>)
    ensures r == MirrorBlock(block, Vec3(0.0, 1.0, 0.0))
    ensures r.Some? <==> block.Some?
    ensures r.Some? ==> |r.value| == |block.value|
    ensures r.Some? ==> forall i :: 0 <= i < |block.value| ==> r.value[i] == Vec3(block.value[i].x, -block.value[i].y, block.value[i].z)
  {
    var r := MirrorBlock(block, Vec3(0.0, 1.0, 0.0));
    if r.Some? then AllAcrossY(block.value); r else r
  }

  function MirrorDiagonal(block: Option<seq<Vec3>>): (r: Option<seq<Vec3>>)
    ensures r == MirrorBlock(block, Vec3(1.0, 1.0, 0.0))
    ensures r.Some? <==> block.Some?
    ensures r.Some? ==> |r.value| == |block.value|
    ensures r.Some? ==> forall i :: 0 <= i < |block.value| ==> r.value[i] == Vec3(-block.value[i].y, -block.value[i].x, block.value[i].z)
  {
    var r := MirrorBlock(block, Vec3(1.0, 1.0, 0.0));
    if r.Some? then AllAcrossDiagonal(block.value); r else r
  }

  lemma AllAcrossX(vs: seq<Vec3>)
    ensures forall i :: 0 <= i < |vs| ==> MirrorAll(vs, Vec3(-1.0, 0.0, 0.0))[i] == Vec3(-vs[i].x, vs[i].y, vs[i].z)
  {
    forall i | 0 <= i < |vs| { MirrorAcrossX(vs[i]); }
  }

  lemma AllAcrossY(vs: seq<Vec3>)
    ensures forall i :: 0 <= i < |vs| ==> MirrorAll(vs, Vec3(0.0, 1.0, 0.0))[i] == Vec3(vs[i].x, -vs[i].y, vs[i].z)
  {
    forall i | 0 <= i < |vs| { MirrorAcrossY(vs[i]); }
  }

  lemma AllAcrossDiagonal(vs: seq<Vec3>)
    ensures forall i :: 0 <= i < |vs| ==> MirrorAll(vs, Vec3(1.0, 1.0, 0.0))[i] == Vec3(-vs[i].y, -vs[i].x, vs[i].z)
  {
    forall i | 0 <= i < |vs| { MirrorAcrossDiagonal(vs[i]); }
  }

  /** `make_topmiddle_right_vertices`: the left block mirrored in x = 0. */
  function TopMiddleRight(spec: ExtrusionSpec, rt2: real, middle: bool, core: bool): Option<seq<Vec3>>
    requires rt2 > 0.0
  {
    MirrorX(TopMiddleLeft(spec, rt2, middle, core))
  }

  /** `make_topright_vertices`: the top-left block mirrored in x = 0. */
  function TopRight(spec: ExtrusionSpec, rt2: real): Option<seq<Vec3>>
    requires rt2 > 0.0
  {
    MirrorX(TopLeft(spec, rt2))
  }

  /** `make_leftmiddle_top_vertices`: the plain middle block mirrored in the
      diagonal x + y = 0. */
  function LeftMiddleTop(spec: ExtrusionSpec, rt2: real): Option<seq<Vec3>>
    requires rt2 > 0.0
  {
    MirrorDiagonal(TopMiddleLeft(spec, rt2, false, true))
  }

  /** `make_leftmiddle_bottom_vertices`: that block mirrored again in y = 0. */
  function LeftMiddleBottom(spec: ExtrusionSpec, rt2: real): Option<seq<Vec3>>
    requires rt2 > 0.0
  {
    MirrorY(LeftMiddleTop(spec, rt2))
  }

  /** Two mirrors make a rotation: the bottom left-middle block is the plain
      middle block turned a quarter turn counter-clockwise. */
  lemma LeftMiddleBottomIsQuarterTurn(spec: ExtrusionSpec, rt2: real)
    requires rt2 > 0.0
    requires TopMiddleLeft(spec, rt2, false, true).Some?
    ensures var l := TopMiddleLeft(spec, rt2, false, true).value;
      var b := LeftMiddleBottom(spec, rt2).value;
      |b| == |l| && forall i :: 0 <= i < |l| ==> b[i] == RotateZ(0.0, 1.0, l[i])
  {
  }

  // ---------------------------------------------------------------------------
  // make_aluminum_extrusion_bottom

  /** The inner `aiueo`: appends a block moved by `offset` and its mirror
      image, each block closed by one face over its own index range. */
  function Aiueo(m: Mesh, block: seq<Vec3>, offset: Vec3, normal: Vec3): (r: Mesh)
    ensures |r.vertices| == |m.vertices| + 2 * |block|
    ensures r.vertices[..|m.vertices|] == m.vertices
    ensures forall i :: 0 <= i < |block| ==>
      r.vertices[|m.vertices| + i] == Add(block[i], offset) &&
      r.vertices[|m.vertices| + |block| + i] == MirrorPoint(r.vertices[|m.vertices| + i], normal)
    ensures r.faces == m.faces + [Range(|m.vertices|, |m.vertices| + |block|),
                                  Range(|m.vertices| + |block|, |m.vertices| + 2 * |block|)]
  {
    var placed := TranslateAll(block, offset);
    var n := |m.vertices|;
    Mesh(m.vertices + placed + MirrorAll(placed, normal),
         m.faces + [Range(n, n + |block|), Range(n + |block|, n + 2 * |block|)])
  }

  /** Each `aiueo` call keeps the faces a tiling of the vertices. */
  lemma AiueoKeepsTiled(m: Mesh, block: seq<Vec3>, offset: Vec3, normal: Vec3)
    requires Tiled(m)
    ensures Tiled(Aiueo(m, block, offset, normal))
  {
    var n, k := |m.vertices|, |block|;
    var r := Aiueo(m, block, offset, normal);
    assert r.faces == (m.faces + [Range(n, n + k)]) + [Range(n + k, n + 2 * k)];
    FlattenAppend(m.faces, Range(n, n + k));
    FlattenAppend(m.faces + [Range(n, n + k)], Range(n + k, n + 2 * k));
    RangeConcat(0, n, n + k);
    RangeConcat(0, n + k, n + 2 * k);
  }

  /** Mirrors whose normal has no z part keep the height of a point. */
  lemma MirrorKeepsHeight(p: Vec3, n: Vec3)
    requires n.z == 0.0
    ensures MirrorPoint(p, n).z == p.z
  {
  }

  /** A planar block placed by a planar offset and mirrored in a vertical
      plane keeps the mesh planar. */
  lemma AiueoKeepsPlanar(m: Mesh, block: seq<Vec3>, offset: Vec3, normal: Vec3)
    requires Planar(m.vertices) && Planar(block) && offset.z == 0.0 && normal.z == 0.0
    ensures Planar(Aiueo(m, block, offset, normal).vertices)
  {
    var r := Aiueo(m, block, offset, normal);
    var n, k := |m.vertices|, |block|;
    forall i | 0 <= i < |r.vertices| ensures r.vertices[i].z == 0.0 {
      if i < n {
        assert r.vertices[i] == r.vertices[..n][i];
      } else if i < n + k {
        assert r.vertices[i] == Add(block[i - n], offset);
      } else {
        MirrorKeepsHeight(r.vertices[i - k], normal);
      }
    }
  }

  /** `MIDDLE`: the middle walls are used from three columns on. */
  predicate Middle(spec: ExtrusionSpec) {
    spec.xSlots >= 3
  }

  /** `CORE`: interior columns of a section at least three wide and two high
      have no core. */
  predicate Core(spec: ExtrusionSpec, i: nat) {
    !(spec.ySlots >= 2 && spec.xSlots >= 3 && 0 < i < spec.xSlots - 1)
  }

  /** The intersections that the builders the section uses can find: the
      top-left block whenever there is a column, the plain middle block when
      there are middle blocks or side blocks, and the coreless middle block
      when some column has no core. */
  predicate Buildable(spec: ExtrusionSpec, rt2: real)
    requires rt2 > 0.0
  {
    && (spec.xSlots >= 1 ==> TopLeft(spec, rt2).Some?)
    && (spec.xSlots >= 2 || spec.ySlots >= 2 ==> TopMiddleLeft(spec, rt2, false, true).Some?)
    && (spec.ySlots >= 2 && spec.xSlots >= 3 ==> TopMiddleLeft(spec, rt2, false, false).Some?)
  }

  /** The blocks one section draws from, built once. A block the section
      does not use is left empty. */
  datatype Blocks = Blocks(
    topLeft: seq<Vec3>, topRight: seq<Vec3>,
    coreLeft: seq<Vec3>, coreRight: seq<Vec3>,
    hollowLeft: seq<Vec3>, hollowRight: seq<Vec3>,
    sideTop: seq<Vec3>, sideBottom: seq<Vec3>)

  function OrEmpty(block: Option<seq<Vec3>>): seq<Vec3> {
    if block.Some? then block.value else []
  }

  function BlocksOf(spec: ExtrusionSpec, rt2: real): Blocks
    requires rt2 > 0.0
  {
    var middle := Middle(spec);
    Blocks(OrEmpty(TopLeft(spec, rt2)), OrEmpty(TopRight(spec, rt2)),
           OrEmpty(TopMiddleLeft(spec, rt2, middle, true)), OrEmpty(TopMiddleRight(spec, rt2, middle, true)),
           OrEmpty(TopMiddleLeft(spec, rt2, middle, false)), OrEmpty(TopMiddleRight(spec, rt2, middle, false)),
           OrEmpty(LeftMiddleTop(spec, rt2)), OrEmpty(LeftMiddleBottom(spec, rt2)))
  }

  predicate PlanarBlocks(b: Blocks) {
    && Planar(b.topLeft) && Planar(b.topRight)
    && Planar(b.coreLeft) && Planar(b.coreRight)
    && Planar(b.hollowLeft) && Planar(b.hollowRight)
    && Planar(b.sideTop) && Planar(b.sideBottom)
  }

  /** Mirroring in a vertical plane keeps a block planar. */
  lemma MirrorsKeepPlanar(block: Option<seq<Vec3>>)
    requires block.Some? ==> Planar(block.value)
    ensures Planar(OrEmpty(MirrorX(block)))
    ensures Planar(OrEmpty(MirrorY(block)))
    ensures Planar(OrEmpty(MirrorDiagonal(block)))
  {
    if block.Some? {
      var x, y, d := MirrorX(block).value, MirrorY(block).value, MirrorDiagonal(block).value;
      forall i | 0 <= i < |block.value| ensures x[i].z == 0.0 && y[i].z == 0.0 && d[i].z == 0.0 {
        assert x[i].z == y[i].z == d[i].z == block.value[i].z;
      }
    }
  }

  /** Every block the section draws from lies in the plane z = 0. */
  lemma BlocksOfPlanar(spec: ExtrusionSpec, rt2: real)
    requires rt2 > 0.0
    ensures PlanarBlocks(BlocksOf(spec, rt2))
  {
    var middle := Middle(spec);
    TopBlocksPlanar(spec, rt2);
    MiddleBlocksPlanar(spec, rt2, middle, true);
    MiddleBlocksPlanar(spec, rt2, middle, false);
    SideBlocksPlanar(spec, rt2);
  }

  lemma TopBlocksPlanar(spec: ExtrusionSpec, rt2: real)
    requires rt2 > 0.0
    ensures Planar(OrEmpty(TopLeft(spec, rt2))) && Planar(OrEmpty(TopRight(spec, rt2)))
  {
    MirrorsKeepPlanar(TopLeft(spec, rt2));
  }

  lemma MiddleBlocksPlanar(spec: ExtrusionSpec, rt2: real, middle: bool, core: bool)
    requires rt2 > 0.0
    ensures Planar(OrEmpty(TopMiddleLeft(spec, rt2, middle, core)))
    ensures Planar(OrEmpty(TopMiddleRight(spec, rt2, middle, core)))
  {
    MirrorsKeepPlanar(TopMiddleLeft(spec, rt2, middle, core));
  }

  lemma SideBlocksPlanar(spec: ExtrusionSpec, rt2: real)
    requires rt2 > 0.0
    ensures Planar(OrEmpty(LeftMiddleTop(spec, rt2))) && Planar(OrEmpty(LeftMiddleBottom(spec, rt2)))
  {
    MirrorsKeepPlanar(TopMiddleLeft(spec, rt2, false, true));
    MirrorsKeepPlanar(LeftMiddleTop(spec, rt2));
  }

  /** The start of the section's top row: the centre of its top-left cell,
      moved one frame size to the right per pass of the column loop; it
      stays in the plane z = 0. */
  function ColumnOffset(spec: ExtrusionSpec, i: nat): (r: Vec3)
    ensures r.z == 0.0
  {
    if i == 0 then Vec3(-spec.size * (spec.xSlots as real - 1.0) / 2.0, spec.size * (spec.ySlots as real - 1.0) / 2.0, 0.0)
    else Add(ColumnOffset(spec, i - 1), Vec3(spec.size, 0.0, 0.0))
  }

  /** The two top blocks of column `i`: the left one is the top-left block
      in the first column and a mirrored middle block elsewhere; the right
      one is a middle block except in the last column. */
  function ColumnBlocks(spec: ExtrusionSpec, b: Blocks, i: nat): (seq<Vec3>, seq<Vec3>) {
    var core := Core(spec, i);
    (if i == 0 then b.topLeft else if core then b.coreRight else b.hollowRight,
     if i < spec.xSlots - 1 then (if core then b.coreLeft else b.hollowLeft) else b.topRight)
  }

  /** One pass of the column loop: both top blocks, each with its mirror
      image in y = 0 as the matching bottom block. */
  function Column(spec: ExtrusionSpec, b: Blocks, m: Mesh, i: nat): Mesh {
    var blocks := ColumnBlocks(spec, b, i);
    var mirror := Vec3(0.0, -1.0, 0.0);
    Aiueo(Aiueo(m, blocks.0, ColumnOffset(spec, i), mirror), blocks.1, ColumnOffset(spec, i), mirror)
  }

  /** The mesh after the first `i` passes of the column loop. */
  function Columns(spec: ExtrusionSpec, b: Blocks, i: nat): Mesh {
    if i == 0 then Mesh([], []) else Column(spec, b, Columns(spec, b, i - 1), i - 1)
  }

  /** The offset of the lower left-middle block of row `i` (from 1), moved
      one frame size down per pass of the row loop; it stays in the plane
      z = 0. */
  function RowOffset(spec: ExtrusionSpec, i: nat): (r: Vec3)
    requires i >= 1
    ensures r.z == 0.0
  {
    if i == 1 then Vec3(-spec.size * (spec.xSlots as real - 1.0) / 2.0, spec.size * (spec.ySlots as real - 1.0) / 2.0 - spec.size, 0.0)
    else Add(RowOffset(spec, i - 1), Vec3(0.0, -spec.size, 0.0))
  }

  /** One pass of the row loop: the upper and the lower left-middle blocks,
      each with its mirror image in x = 0 on the right side. */
  function Row(spec: ExtrusionSpec, b: Blocks, m: Mesh, i: nat): Mesh
    requires i >= 1
  {
    var mirror := Vec3(-1.0, 0.0, 0.0);
    var top := Aiueo(m, b.sideTop, Add(RowOffset(spec, i), Vec3(0.0, spec.size, 0.0)), mirror);
    Aiueo(top, b.sideBottom, RowOffset(spec, i), mirror)
  }

  /** The mesh after all columns and the first `j` rows. */
  function Rows(spec: ExtrusionSpec, b: Blocks, j: nat): Mesh {
    if j == 0 then Columns(spec, b, spec.xSlots) else Row(spec, b, Rows(spec, b, j - 1), j)
  }

  /** The number of passes of the row loop, `range(1, y_slots)`. */
  function LastRow(spec: ExtrusionSpec): nat {
    if spec.ySlots == 0 then 0 else spec.ySlots - 1
  }

  /** `make_aluminum_extrusion_bottom`: the cross-section outline, built from
      the blocks of the spec. When an intersection a block needs is missing,
      the source puts `None` among the block's points and fails on adding
      the offset to it; that is the `None` result here. */
  function Bottom(spec: ExtrusionSpec, rt2: real): (r: Option<Mesh>)
    requires rt2 > 0.0
    ensures r.Some? <==> Buildable(spec, rt2)
  {
    if Buildable(spec, rt2) then Some(Rows(spec, BlocksOf(spec, rt2), LastRow(spec))) else None
  }

  lemma ColumnBlocksPlanar(spec: ExtrusionSpec, b: Blocks, i: nat)
    requires PlanarBlocks(b)
    ensures Planar(ColumnBlocks(spec, b, i).0) && Planar(ColumnBlocks(spec, b, i).1)
  {
  }

  /** One column adds four faces and keeps the mesh a planar tiling. */
  lemma ColumnStep(spec: ExtrusionSpec, b: Blocks, i: nat)
    requires PlanarBlocks(b) && i >= 1
    requires Tiled(Columns(spec, b, i - 1)) && Planar(Columns(spec, b, i - 1).vertices)
    ensures |Columns(spec, b, i).faces| == |Columns(spec, b, i - 1).faces| + 4
    ensures Tiled(Columns(spec, b, i))
    ensures Planar(Columns(spec, b, i).vertices)
  {
    var m := Columns(spec, b, i - 1);
    var blocks := ColumnBlocks(spec, b, i - 1);
    var left, right := blocks.0, blocks.1;
    ColumnBlocksPlanar(spec, b, i - 1);
    var off, mirror := ColumnOffset(spec, i - 1), Vec3(0.0, -1.0, 0.0);
    var half := Aiueo(m, left, off, mirror);
    AiueoKeepsTiled(m, left, off, mirror);
    AiueoKeepsTiled(half, right, off, mirror);
    AiueoKeepsPlanar(m, left, off, mirror);
    AiueoKeepsPlanar(half, right, off, mirror);
  }

  /** The shape of the mesh after `i` columns: four faces a column, tiling
      the vertices, all in the plane z = 0. */
  lemma ColumnsShape(spec: ExtrusionSpec, b: Blocks, i: nat)
    requires PlanarBlocks(b)
    ensures |Columns(spec, b, i).faces| == 4 * i
    ensures Tiled(Columns(spec, b, i))
    ensures Planar(Columns(spec, b, i).vertices)
  {
    EmptyTiled();
    var k := 0;
    while k < i
      invariant k <= i
      invariant |Columns(spec, b, k).faces| == 4 * k
      invariant Tiled(Columns(spec, b, k)) && Planar(Columns(spec, b, k).vertices)
    {
      k := k + 1;
      ColumnStep(spec, b, k);
    }
  }

  /** The shape of the mesh after all columns and `j` rows: four more faces
      a row, still a planar tiling. */
  lemma {:induction false} RowsShape(spec: ExtrusionSpec, b: Blocks, j: nat)
    requires PlanarBlocks(b)
    ensures |Rows(spec, b, j).faces| == 4 * spec.xSlots + 4 * j
    ensures Tiled(Rows(spec, b, j))
    ensures Planar(Rows(spec, b, j).vertices)
  {
    if j == 0 {
      ColumnsShape(spec, b, spec.xSlots);
    } else {
      var prev := Rows(spec, b, j - 1);
      RowsShape(spec, b, j - 1);
      var mirror := Vec3(-1.0, 0.0, 0.0);
      var low := RowOffset(spec, j);
      var high := Add(low, Vec3(0.0, spec.size, 0.0));
      var half := Aiueo(prev, b.sideTop, high, mirror);
      AiueoKeepsTiled(prev, b.sideTop, high, mirror);
      AiueoKeepsTiled(half, b.sideBottom, low, mirror);
      AiueoKeepsPlanar(prev, b.sideTop, high, mirror);
      AiueoKeepsPlanar(half, b.sideBottom, low, mirror);
    }
  }

  /** Any planar blocks assembled this way give 4 x_slots + 4 (y_slots - 1)
      faces that partition the vertex indices, in the plane z = 0. */
  lemma SectionShape(spec: ExtrusionSpec, b: Blocks)
    requires PlanarBlocks(b)
    ensures |Rows(spec, b, LastRow(spec)).faces| == 4 * spec.xSlots + 4 * LastRow(spec)
    ensures Tiled(Rows(spec, b, LastRow(spec)))
    ensures Planar(Rows(spec, b, LastRow(spec)).vertices)
  {
    RowsShape(spec, b, LastRow(spec));
  }

  /** The whole section: 4 x_slots + 4 (y_slots - 1) faces that partition
      the vertex indices, so the mesh is well formed, and all of it lies in
      the plane z = 0. */
  lemma BottomShape(spec: ExtrusionSpec, rt2: real)
    requires rt2 > 0.0
    ensures var r := Bottom(spec, rt2);
      r.Some? ==>
        && (spec.ySlots >= 1 ==> |r.value.faces| == 4 * spec.xSlots + 4 * (spec.ySlots - 1))
        && (spec.ySlots == 0 ==> |r.value.faces| == 4 * spec.xSlots)
        && Tiled(r.value) && WellFormed(r.value)
        && Planar(r.value.vertices)
  {
    if Buildable(spec, rt2) {
      var m := Rows(spec, BlocksOf(spec, rt2), LastRow(spec));
      BlocksOfPlanar(spec, rt2);
      SectionShape(spec, BlocksOf(spec, rt2));
      TiledIsPartition(m);
    }
  }

  /** Only interior columns of a section at least two high lose the core,
      and those are always middle columns: the end columns and every column
      of a one-row or at most two-column section keep it. */
  lemma CoreColumns(spec: ExtrusionSpec, i: nat)
    ensures !Core(spec, i) ==> Middle(spec) && 0 < i < spec.xSlots - 1
    ensures spec.ySlots <= 1 || spec.xSlots <= 2 ==> Core(spec, i)
    ensures Core(spec, 0) && (spec.xSlots >= 1 ==> Core(spec, spec.xSlots - 1))
    ensures spec.ySlots >= 2 && spec.xSlots >= 3 && 0 < i < spec.xSlots - 1 ==> !Core(spec, i)
  {
  }

  // ---------------------------------------------------------------------------
  // make_holes

  /** The centre of the hole of cell `(x, y)`, counted from the top-left
      cell, as `make_holes` places it. */
  function HoleCenter(spec: ExtrusionSpec, x: nat, y: nat): Vec3 {
    Vec3(spec.size * x as real - 0.5 * spec.size * (spec.xSlots as real - 1.0),
         -spec.size * y as real + 0.5 * spec.size * (spec.ySlots as real - 1.0),
         0.0)
  }

  /** All hole centres of the section. */
  function HoleCenters(spec: ExtrusionSpec): set<Vec3> {
    set x: nat, y: nat | x < spec.xSlots && y < spec.ySlots :: HoleCenter(spec, x, y)
  }

  /** The holes are point-symmetric about the origin: the cell mirrored
      through the centre of the section has the negated centre. */
  lemma HoleCenterOpposite(spec: ExtrusionSpec, x: nat, y: nat)
    requires x < spec.xSlots && y < spec.ySlots
    ensures HoleCenter(spec, spec.xSlots - 1 - x, spec.ySlots - 1 - y) == Neg(HoleCenter(spec, x, y))
  {
    var s, X, Y := spec.size, x as real, y as real;
    var xs, ys := spec.xSlots as real, spec.ySlots as real;
    assert ((spec.xSlots - 1 - x) as nat) as real == xs - 1.0 - X;
    assert ((spec.ySlots - 1 - y) as nat) as real == ys - 1.0 - Y;
    assert s * (xs - 1.0 - X) - 0.5 * s * (xs - 1.0) == -(s * X - 0.5 * s * (xs - 1.0));
    assert -s * (ys - 1.0 - Y) + 0.5 * s * (ys - 1.0) == -(-s * Y + 0.5 * s * (ys - 1.0));
  }

  lemma HoleCentersSymmetric(spec: ExtrusionSpec)
    ensures forall c :: c in HoleCenters(spec) ==> Neg(c) in HoleCenters(spec)
  {
    forall c | c in HoleCenters(spec) ensures Neg(c) in HoleCenters(spec) {
      var x: nat, y: nat :| x < spec.xSlots && y < spec.ySlots && c == HoleCenter(spec, x, y);
      HoleCenterOpposite(spec, x, y);
      var x': nat, y': nat := spec.xSlots - 1 - x, spec.ySlots - 1 - y;
      assert HoleCenter(spec, x', y') in HoleCenters(spec);
    }
  }

  /** The blocks of column `i` are placed at the centre of the hole of the
      top cell of that column: the running offset of the column loop and
      the hole grid agree. */
  lemma {:induction false} ColumnOffsetIsHoleCenter(spec: ExtrusionSpec, i: nat)
    ensures ColumnOffset(spec, i) == HoleCenter(spec, i, 0)
  {
    if i > 0 {
      ColumnOffsetIsHoleCenter(spec, i - 1);
      var s, I := spec.size, i as real;
      assert s * (I - 1.0) + s == s * I;
      assert ((i - 1) as nat) as real == I - 1.0;
    } else {
      assert spec.size * (spec.xSlots as real - 1.0) / 2.0 == 0.5 * spec.size * (spec.xSlots as real - 1.0);
      assert spec.size * (spec.ySlots as real - 1.0) / 2.0 == 0.5 * spec.size * (spec.ySlots as real - 1.0);
    }
  }

  /** Likewise for the side blocks of row `i`: the lower one sits at the
      hole of cell `(0, i)`, the upper one at the hole of cell `(0, i - 1)`. */
  lemma {:induction false} RowOffsetIsHoleCenter(spec: ExtrusionSpec, i: nat)
    requires i >= 1
    ensures RowOffset(spec, i) == HoleCenter(spec, 0, i)
    ensures Add(RowOffset(spec, i), Vec3(0.0, spec.size, 0.0)) == HoleCenter(spec, 0, i - 1)
  {
    var s, I := spec.size, i as real;
    assert ((i - 1) as nat) as real == I - 1.0;
    if i > 1 {
      RowOffsetIsHoleCenter(spec, i - 1);
      assert -s * (I - 1.0) - s == -s * I;
    } else {
      assert spec.size * (spec.xSlots as real - 1.0) / 2.0 == 0.5 * spec.size * (spec.xSlots as real - 1.0);
      assert spec.size * (spec.ySlots as real - 1.0) / 2.0 == 0.5 * spec.size * (spec.ySlots as real - 1.0);
    }
    assert -s * I + s == -s * (I - 1.0);
  }
}
