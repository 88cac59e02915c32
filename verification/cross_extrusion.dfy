/** The cross extrusion generator: a plus-shaped outline in the XY plane,
    swept up along z, with the origin placed at the top, middle or bottom. */
module CrossExtrusion {
  import opened Geometry
  import opened RomlyUtils

  /** A point of the outline, which lies in the plane z = 0. */
  function P(x: real, y: real): Vec3 { Vec3(x, y, 0.0) }

  /** The outline's left half, counter-clockwise from the top of the
      vertical bar: a bar of zero thickness adds no end points. */
  function LeftHalf(hLength: real, hThickness: real, vLength: real, vThickness: real): seq<Vec3> {
    (if vThickness > 0.0 then [P(-vThickness / 2.0, vLength / 2.0)] else [])
    + [P(-vThickness / 2.0, hThickness / 2.0)]
    + (if hThickness > 0.0 then [P(-hLength / 2.0, hThickness / 2.0), P(-hLength / 2.0, -hThickness / 2.0)] else [])
    + [P(-vThickness / 2.0, -hThickness / 2.0)]
    + (if vThickness > 0.0 then [P(-vThickness / 2.0, -vLength / 2.0)] else [])
  }

  /** The outline's right half, continuing counter-clockwise from the bottom
      of the vertical bar. */
  function RightHalf(hLength: real, hThickness: real, vLength: real, vThickness: real): seq<Vec3> {
    (if vThickness > 0.0 then [P(vThickness / 2.0, -vLength / 2.0)] else [])
    + [P(vThickness / 2.0, -hThickness / 2.0)]
    + (if hThickness > 0.0 then [P(hLength / 2.0, -hThickness / 2.0), P(hLength / 2.0, hThickness / 2.0)] else [])
    + [P(vThickness / 2.0, hThickness / 2.0)]
    + (if vThickness > 0.0 then [P(vThickness / 2.0, vLength / 2.0)] else [])
  }

  /** The cross outline of `create_cross_extrusion`: four corner points of
      the crossing, plus two end points for each bar of positive
      thickness on either side, all at z = 0. */
  function CrossOutline(hLength: real, hThickness: real, vLength: real, vThickness: real): (r: seq<Vec3>)
    ensures |r| == 4 + (if vThickness > 0.0 then 4 else 0) + (if hThickness > 0.0 then 4 else 0)
    ensures forall k :: 0 <= k < |r| ==> r[k].z == 0.0
  {
    LeftHalf(hLength, hThickness, vLength, vThickness) + RightHalf(hLength, hThickness, vLength, vThickness)
  }

  /** The outline is point-symmetric about the origin: its second half is
      its first half turned by 180 degrees, point for point. */
  lemma CrossOutlineSymmetric(hLength: real, hThickness: real, vLength: real, vThickness: real, i: nat)
    requires i < |CrossOutline(hLength, hThickness, vLength, vThickness)| / 2
    ensures var r := CrossOutline(hLength, hThickness, vLength, vThickness);
      r[|r| / 2 + i] == Neg(r[i])
  {
    var l := LeftHalf(hLength, hThickness, vLength, vThickness);
    var rt := RightHalf(hLength, hThickness, vLength, vThickness);
    HalvesOpposite(hLength, hThickness, vLength, vThickness, i);
    assert CrossOutline(hLength, hThickness, vLength, vThickness) == l + rt;
  }

  /** Point `k` of the right half is point `k` of the left half negated. */
  lemma HalvesOpposite(hLength: real, hThickness: real, vLength: real, vThickness: real, k: nat)
    requires k < |LeftHalf(hLength, hThickness, vLength, vThickness)|
    ensures var l, rt := LeftHalf(hLength, hThickness, vLength, vThickness), RightHalf(hLength, hThickness, vLength, vThickness);
      |l| == |rt| && rt[k] == Neg(l[k])
  {
    var v, h := vThickness > 0.0, hThickness > 0.0;
    var a, b := P(-vThickness / 2.0, vLength / 2.0), P(-vThickness / 2.0, hThickness / 2.0);
    var c, d := P(-hLength / 2.0, hThickness / 2.0), P(-hLength / 2.0, -hThickness / 2.0);
    var e, f := P(-vThickness / 2.0, -hThickness / 2.0), P(-vThickness / 2.0, -vLength / 2.0);
    var l := LeftHalf(hLength, hThickness, vLength, vThickness);
    var rt := RightHalf(hLength, hThickness, vLength, vThickness);
    if v && h {
      assert l == [a, b, c, d, e, f] && rt == [Neg(a), Neg(b), Neg(c), Neg(d), Neg(e), Neg(f)];
    } else if v {
      assert l == [a, b, e, f] && rt == [Neg(a), Neg(b), Neg(e), Neg(f)];
    } else if h {
      assert l == [b, c, d, e] && rt == [Neg(b), Neg(c), Neg(d), Neg(e)];
    } else {
      assert l == [b, e] && rt == [Neg(b), Neg(e)];
    }
  }

  /** An outline as one face over all its points, swept up by `height`
      (with a cap) only when the height is positive. */
  function Sweep(outline: seq<Vec3>, height: real): (m: Mesh)
    ensures WellFormed(m)
    ensures |m.vertices| >= |outline| && m.vertices[..|outline|] == outline
    ensures |m.faces| >= 1 && m.faces[0] == Range(0, |outline|)
    ensures height > 0.0 ==> |m.vertices| == 2 * |outline| && |m.faces| == |outline| + 2
    ensures height <= 0.0 ==> |m.vertices| == |outline| && |m.faces| == 1
  {
    var n := |outline|;
    var flat := Mesh(outline, [Range(0, n)]);
    if height > 0.0 then
      ExtrudeFaceKeepsWellFormed(flat, Range(0, n), height, true);
      ExtrudeFace(flat, Range(0, n), height, true)
    else flat
  }

  /** A positive height gives a solid whose bottom is the outline and whose
      top is the outline raised by the height. */
  lemma SweepHeights(outline: seq<Vec3>, height: real, k: nat)
    requires height > 0.0 && k < |outline|
    ensures var m := Sweep(outline, height);
      m.vertices[k] == outline[k] && m.vertices[|outline| + k] == Raise(outline[k], height)
  {
    var n := |outline|;
    var m := Sweep(outline, height);
    assert m == ExtrudeFace(Mesh(outline, [Range(0, n)]), Range(0, n), height, true);
    assert Range(0, n)[k] == k;
    assert m.vertices[k] == m.vertices[..n][k];
  }

  /** `create_cross_extrusion`: the cross outline swept up by `height`. */
  function CreateCrossExtrusion(hLength: real, hThickness: real, vLength: real, vThickness: real, height: real): Mesh {
    Sweep(CrossOutline(hLength, hThickness, vLength, vThickness), height)
  }

  // ---------------------------------------------------------------------------
  // Origin placement in execute

  datatype VerticalOrigin = Top | Middle | Bottom

  /** The shift applied to every vertex: down by the height to put the
      origin at the top, by half of it for the middle, none for the
      bottom. */
  function OriginShift(origin: VerticalOrigin, height: real): (v: Vec3)
    ensures v.x == 0.0 && v.y == 0.0
  {
    match origin
    case Top => Vec3(0.0, 0.0, -height)
    case Middle => Vec3(0.0, 0.0, -height / 2.0)
    case Bottom => Origin
  }

  /** The height at which the solid's base ends up for each origin. */
  function BaseHeight(origin: VerticalOrigin, height: real): real {
    match origin
    case Top => -height
    case Middle => -height / 2.0
    case Bottom => 0.0
  }

  /** The placed solid. */
  function PlaceCross(m: Mesh, origin: VerticalOrigin, height: real): Mesh {
    Mesh(TranslateAll(m.vertices, OriginShift(origin, height)), m.faces)
  }

  /** After placement the base lies at `BaseHeight` and the top one height
      above it, so the origin sits at the chosen place: top, middle or
      bottom of the solid. */
  lemma PlacedCrossSpans(hLength: real, hThickness: real, vLength: real, vThickness: real,
                         height: real, origin: VerticalOrigin, k: nat)
    requires height > 0.0
    requires k < |CrossOutline(hLength, hThickness, vLength, vThickness)|
    ensures var n := |CrossOutline(hLength, hThickness, vLength, vThickness)|;
      var m := PlaceCross(CreateCrossExtrusion(hLength, hThickness, vLength, vThickness, height), origin, height);
      var base := BaseHeight(origin, height);
      && m.vertices[k].z == base && m.vertices[n + k].z == base + height
      && (origin == Top ==> base + height == 0.0)
      && (origin == Middle ==> base + height == -base)
      && (origin == Bottom ==> base == 0.0)
  {
    SweepHeights(CrossOutline(hLength, hThickness, vLength, vThickness), height, k);
  }
}
