/** The load cell generator: the templates, the cuts made into the bar (the
    thin middle part, the two cutout holes with their bridge and the centre
    hole), the screw holes at either end, and the shift that puts the
    chosen screw hole and height at the origin.

    The box, cylinder and threaded-cylinder helpers, the bevel and the
    boolean cuts are not part of this model; the screw-size table is a
    parameter (a lookup that may fail). */
module LoadCell {
  import opened Geometry
  import JisScrew

  // ---------------------------------------------------------------------------
  // Templates

  /** One row of `LOADCELL_SPECS`. A screw hole is a size name and whether
      it is threaded. */
  datatype Spec = Spec(
    size: Vec3,
    thinWidth: real, thinLength: real,
    holeDiameter: real, centerHoleDiameter: real, holeDistance: real, bridgeHeight: real,
    screwA: real, screwB: real, screwX: real,
    front: (string, bool), back: (string, bool))

  /** The four templates: 5 kg, 1 kg, 500 g and 100 g. */
  const LoadCellSpecs: seq<(string, Spec)> := [
    ("normal", Spec(Vec3(12.7, 80.0, 12.7), 0.0, 0.0, 11.0, 0.0, 7.0, 0.0, 40.0, 15.0, 0.0, ("m4", true), ("m5", true))),
    ("small", Spec(Vec3(12.7, 75.0, 12.7), 0.0, 0.0, 11.0, 0.0, 7.0, 0.0, 44.0, 10.0, 0.0, ("m4", true), ("m4", true))),
    ("tiny", Spec(Vec3(9.0, 45.0, 6.0), 0.0, 0.0, 5.0, 3.0, 7.0, 0.0, 22.0, (37.0 - 22.0) / 2.0, 0.0, ("m3", true), ("m3", true))),
    ("i-shape", Spec(Vec3(12.0, 47.0, 6.0), 7.5, 34.0, 6.0 - 0.35 * 2.0, 0.0, 20.0, 2.0, 40.0, 0.0, 6.0, ("m3", false), ("m3", true)))]

  /** `LOADCELL_SPECS.get(key)`: the first row with that key. */
  function Template(key: string): (r: Option<Spec>)
    ensures r.Some? <==> exists k :: 0 <= k < |LoadCellSpecs| && LoadCellSpecs[k].0 == key
    ensures r.Some? ==> exists k :: 0 <= k < |LoadCellSpecs| && LoadCellSpecs[k] == (key, r.value)
  {
    Find(LoadCellSpecs, key)
  }

  function Find(t: seq<(string, Spec)>, key: string): (r: Option<Spec>)
    ensures r.Some? <==> exists k :: 0 <= k < |t| && t[k].0 == key
    ensures r.Some? ==> exists k :: 0 <= k < |t| && t[k] == (key, r.value)
  {
    if |t| == 0 then None
    else if t[0].0 == key then Some(t[0].1)
    else
      var r := Find(t[1..], key);
      assert forall k :: 0 <= k < |t[1..]| ==> t[1..][k] == t[k + 1];
      assert r.Some? ==> exists k :: 0 <= k < |t| && t[k] == (key, r.value) by {
        if r.Some? {
          var k :| 0 <= k < |t[1..]| && t[1..][k] == (key, r.value);
          assert t[k + 1] == (key, r.value);
        }
      }
      assert (exists k :: 0 <= k < |t| && t[k].0 == key) ==> r.Some? by {
        if exists k :: 0 <= k < |t| && t[k].0 == key {
          var k :| 0 <= k < |t| && t[k].0 == key;
          assert t[1..][k - 1].0 == key;
        }
      }
      r
  }

  /** The screw holes of a template fit in the bar, outside the cutouts:
      the outermost hole centre lies inside the bar's half length and the
      cutout holes end before the innermost screw holes. */
  predicate Fits(s: Spec) {
    && s.screwA / 2.0 + s.screwB < s.size.y / 2.0
    && s.holeDistance / 2.0 + s.holeDiameter / 2.0 < s.screwA / 2.0
  }

  lemma TemplatesFit()
    ensures forall k :: 0 <= k < |LoadCellSpecs| ==> Fits(LoadCellSpecs[k].1)
  {
  }

  /** `update_templates`: a known template overwrites every dimension and
      both screw-hole settings; an unknown one changes nothing. */
  function UpdateTemplates(p: Spec, key: string): (r: Spec)
    ensures Template(key).None? ==> r == p
    ensures Template(key).Some? ==> exists k :: 0 <= k < |LoadCellSpecs| && LoadCellSpecs[k] == (key, r)
  {
    match Template(key)
    case None => p
    case Some(s) => s
  }

  /** Choosing a template then reading the properties gives the template's
      row; choosing it again changes nothing. */
  lemma UpdateTemplatesIdempotent(p: Spec, key: string)
    ensures UpdateTemplates(UpdateTemplates(p, key), key) == UpdateTemplates(p, key)
  {
  }

  // ---------------------------------------------------------------------------
  // Cuts in create_loadcell

  /** The two cutters that thin the middle: boxes between opposite
      corners, one on each side of x = 0. */
  datatype Corners = Corners(c1: Vec3, c2: Vec3)

  function ThinCutters(size: Vec3, thinWidth: real, thinLength: real): (r: seq<Corners>)
    ensures |r| == if thinLength > 0.0 then 2 else 0
  {
    if thinLength > 0.0 then
      [Corners(Vec3(-thinWidth / 2.0, -thinLength / 2.0, -size.z), Vec3(-size.x, thinLength / 2.0, size.z)),
       Corners(Vec3(thinWidth / 2.0, -thinLength / 2.0, -size.z), Vec3(size.x, thinLength / 2.0, size.z))]
    else []
  }

  /** The thinning cutters are mirror images in x, cover the bar's whole
      height and `thinLength` of its length, and leave the strip
      `|x| <= thinWidth / 2` in the middle. */
  lemma ThinCuttersLeaveStrip(size: Vec3, thinWidth: real, thinLength: real)
    requires thinLength > 0.0 && thinWidth >= 0.0 && size.x >= thinWidth / 2.0 && size.z >= 0.0
    ensures var r := ThinCutters(size, thinWidth, thinLength);
      && r[1].c1 == Vec3(-r[0].c1.x, r[0].c1.y, r[0].c1.z) && r[1].c2 == Vec3(-r[0].c2.x, r[0].c2.y, r[0].c2.z)
      && r[0].c2.x <= r[0].c1.x == -thinWidth / 2.0 && thinWidth / 2.0 == r[1].c1.x <= r[1].c2.x
      && r[0].c2.y - r[0].c1.y == thinLength
      && r[0].c1.z <= -size.z / 2.0 && size.z / 2.0 <= r[0].c2.z
  {
  }

  /** The cutout cuts: the hole centres along y, whether the bridge between
      them is cut, and whether the centre hole is. */
  datatype Cutouts = Cutouts(holeYs: seq<real>, bridge: bool, centerHole: bool)

  /** Nothing is cut without a positive hole diameter. The first hole sits
      at `-distance/2`, the second at `+distance/2` only for a positive
      distance; the bridge is cut only when it has a height and the holes
      are further apart than they are wide; the centre hole only when its
      diameter is positive. */
  function CutoutPlan(diameter: real, distance: real, bridgeHeight: real, centerDiameter: real): (r: Cutouts)
    ensures diameter <= 0.0 ==> r == Cutouts([], false, false)
    ensures diameter > 0.0 ==>
      && |r.holeYs| == (if distance > 0.0 then 2 else 1)
      && r.holeYs[0] == -distance / 2.0
      && (forall k :: 0 <= k < |r.holeYs| ==> Abs(r.holeYs[k]) == Abs(distance) / 2.0)
      && (r.bridge <==> bridgeHeight > 0.0 && distance > diameter)
      && (r.centerHole <==> centerDiameter > 0.0)
  {
    if diameter > 0.0 then
      Cutouts([-distance / 2.0] + (if distance > 0.0 then [distance / 2.0] else []),
              bridgeHeight > 0.0 && distance > diameter, centerDiameter > 0.0)
    else Cutouts([], false, false)
  }

  /** When the bridge is cut the two holes do not overlap: the gap between
      them is positive and the holes are symmetric about y = 0. */
  lemma BridgeOnlyBetweenSeparateHoles(diameter: real, distance: real, bridgeHeight: real, centerDiameter: real)
    requires diameter > 0.0
    ensures var r := CutoutPlan(diameter, distance, bridgeHeight, centerDiameter);
      r.bridge ==> |r.holeYs| == 2 && r.holeYs[1] == -r.holeYs[0] && r.holeYs[1] - r.holeYs[0] - diameter > 0.0
  {
  }

  // ---------------------------------------------------------------------------
  // make_screw_holes

  /** A screw-hole cut: where the cutter's origin goes and its diameter. */
  datatype Hole = Hole(x: real, y: real, z: real, diameter: real)

  /** One pass of the loop at `x`: the inner hole and, for a positive `b`,
      the outer one; `side` is -1 in front and 1 at the back. */
  function PassHoles(x: real, a: real, b: real, side: real, z: real, d: real): seq<Hole> {
    [Hole(x, a / 2.0 * side, z, d)] + (if b > 0.0 then [Hole(x, (a / 2.0 + b) * side, z, d)] else [])
  }

  /** `make_screw_holes`: nothing for an unknown screw size; otherwise two
      passes, at `x = -screwX/2` and `x = screwX/2`. A threaded cutter is
      raised by `(h + 2)/2`, a plain one sits at z = 0. */
  function ScrewHoles(spec: Option<JisScrew.ScrewSpec>, threaded: bool, h: real,
                      a: real, b: real, screwX: real, side: real): (r: seq<Hole>)
    ensures spec.None? ==> r == []
    ensures spec.Some? ==> |r| == if b > 0.0 then 4 else 2
    ensures forall k :: 0 <= k < |r| ==>
      && (r[k].x == -screwX / 2.0 || r[k].x == screwX / 2.0)
      && (r[k].y == a / 2.0 * side || r[k].y == (a / 2.0 + b) * side)
      && r[k].z == (if threaded then (h + 2.0) / 2.0 else 0.0)
      && r[k].diameter == spec.value.diameter
  {
    match spec
    case None => []
    case Some(s) =>
      var z := if threaded then (h + 2.0) / 2.0 else 0.0;
      var x := -screwX / 2.0;
      PassHoles(x, a, b, side, z, s.diameter) + PassHoles(x + screwX, a, b, side, z, s.diameter)
  }

  // ---------------------------------------------------------------------------
  // Origin placement in execute

  /** The y shift for an origin choice: the inner screw hole, the middle of
      the pair or the outer hole, negated for the rear ones (whose names
      contain "back"); zero for the centre and for any other name. */
  function YOffset(origin: string, a: real, b: real): real {
    var y :=
      if origin == "front_screw_1" || origin == "back_screw_1" then a / 2.0
      else if origin == "front_screw_center" || origin == "back_screw_center" then a / 2.0 + b / 2.0
      else if origin == "front_screw_2" || origin == "back_screw_2" then a / 2.0 + b
      else 0.0;
    if Contains(origin, "back") then -y else y
  }

  /** The z shift: the top or the bottom of the bar, which is centred on
      z = 0, moves to the origin. */
  function ZOffset(origin: string, h: real): (z: real)
    ensures origin == "top" ==> z + h / 2.0 == 0.0
    ensures origin == "bottom" ==> z - h / 2.0 == 0.0
    ensures origin != "top" && origin != "bottom" ==> z == 0.0
  {
    if origin == "top" then -h / 2.0
    else if origin == "bottom" then h / 2.0
    else 0.0
  }

  lemma BackNamesContainBack(rest: string)
    ensures Contains("back_screw_" + rest, "back")
  {
    var s := "back_screw_" + rest;
    assert s[0..4] == "back";
    assert OccursAt(s, "back", 0);
  }

  /** The origin choices do what their names say: the shift moves the
      chosen front or rear screw hole, or the middle of the pair, to
      y = 0, and the centre choice does not shift at all. The distance
      `b` is at least 0, the property's minimum. */
  lemma OriginOnChosenHole(spec: Option<JisScrew.ScrewSpec>, threaded: bool, h: real,
                           a: real, b: real, screwX: real)
    requires spec.Some? && b >= 0.0
    ensures var f := ScrewHoles(spec, threaded, h, a, b, screwX, -1.0);
      var outer := if b > 0.0 then 1 else 0;
      && f[0].y + YOffset("front_screw_1", a, b) == 0.0
      && f[outer].y + YOffset("front_screw_2", a, b) == 0.0
      && (f[0].y + f[outer].y) / 2.0 + YOffset("front_screw_center", a, b) == 0.0
    ensures var k := ScrewHoles(spec, threaded, h, a, b, screwX, 1.0);
      var outer := if b > 0.0 then 1 else 0;
      && k[0].y + YOffset("back_screw_1", a, b) == 0.0
      && k[outer].y + YOffset("back_screw_2", a, b) == 0.0
      && (k[0].y + k[outer].y) / 2.0 + YOffset("back_screw_center", a, b) == 0.0
    ensures YOffset("center", a, b) == 0.0
  {
    FrontOffsets(a, b);
    BackOffsets(a, b);
    FirstCharAbsent("center", "back");
    HolesAlongY(spec, threaded, h, a, b, screwX, -1.0);
    HolesAlongY(spec, threaded, h, a, b, screwX, 1.0);
  }

  /** The first pass of the loop puts the inner hole first and the outer
      one (the same hole when `b` is not positive) after it. */
  lemma HolesAlongY(spec: Option<JisScrew.ScrewSpec>, threaded: bool, h: real,
                    a: real, b: real, screwX: real, side: real)
    requires spec.Some?
    ensures var r := ScrewHoles(spec, threaded, h, a, b, screwX, side);
      var outer := if b > 0.0 then 1 else 0;
      r[0].y == a / 2.0 * side && r[outer].y == (a / 2.0 + (if b > 0.0 then b else 0.0)) * side
  {
  }

  lemma FrontOffsets(a: real, b: real)
    ensures YOffset("front_screw_1", a, b) == a / 2.0
    ensures YOffset("front_screw_2", a, b) == a / 2.0 + b
    ensures YOffset("front_screw_center", a, b) == a / 2.0 + b / 2.0
  {
    FirstCharAbsent("front_screw_1", "back");
    FirstCharAbsent("front_screw_2", "back");
    FirstCharAbsent("front_screw_center", "back");
  }

  lemma BackOffsets(a: real, b: real)
    ensures YOffset("back_screw_1", a, b) == -(a / 2.0)
    ensures YOffset("back_screw_2", a, b) == -(a / 2.0 + b)
    ensures YOffset("back_screw_center", a, b) == -(a / 2.0 + b / 2.0)
  {
    BackNamesContainBack("1");
    BackNamesContainBack("2");
    BackNamesContainBack("center");
    assert "back_screw_1" == "back_screw_" + "1";
    assert "back_screw_2" == "back_screw_" + "2";
    assert "back_screw_center" == "back_screw_" + "center";
  }

  /** The shift is applied only when one of the offsets is non-zero; as a
      zero shift moves nothing, that is the same as always applying it. */
  function PlaceVertices(vs: seq<Vec3>, y: real, z: real): (r: seq<Vec3>)
    ensures r == TranslateAll(vs, Vec3(0.0, y, z))
  {
    if y != 0.0 || z != 0.0 then TranslateAll(vs, Vec3(0.0, y, z))
    else
      assert TranslateAll(vs, Origin) == vs;
      vs
  }
}
