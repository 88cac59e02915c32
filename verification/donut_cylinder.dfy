/** The donut cylinder generator: the outer and hole radii derived from two
    of diameter, hole diameter and wall thickness, the conditions under
    which the operator refuses, which boolean cuts it makes, the pie-shaped
    cutter that trims the ring to a partial angle, and where the origin
    ends up.

    The cylinders and the boolean cuts are Blender primitives and are not
    part of this model; `cos` and `sin` of the pie angles are parameters. */
module DonutCylinder {
  import opened Geometry
  import opened RomlyUtils

  /** Which two of the three sizes the user gives. */
  datatype DiameterMethod = DiameterAndHole | DiameterAndThickness | HoleAndThickness

  datatype VerticalOrigin = Top | Middle | Bottom

  /** The operator's properties; the angles are in radians. */
  datatype Donut = Donut(
    sizing: DiameterMethod,
    majorDiameter: real,
    holeDiameter: real,
    thickness: real,
    height: real,
    origin: VerticalOrigin,
    amount: real)

  /** The property ranges: diameter at least 0.001, hole diameter at least
      0, thickness at least 0.01, height at least 0.0001. */
  predicate InRange(d: Donut) {
    d.majorDiameter >= 0.001 && d.holeDiameter >= 0.0 && d.thickness >= 0.01 && d.height >= 0.0001
  }

  /** The outer and hole radii for the chosen method: the given sizes are
      used directly and the third follows from the wall thickness. */
  function Radii(d: Donut): (r: (real, real))
    ensures d.sizing != DiameterAndHole ==> r.0 - r.1 == d.thickness
    ensures d.sizing == DiameterAndHole ==> r.0 - r.1 == (d.majorDiameter - d.holeDiameter) / 2.0
  {
    match d.sizing
    case DiameterAndHole => (d.majorDiameter / 2.0, d.holeDiameter / 2.0)
    case DiameterAndThickness => (d.majorDiameter / 2.0, d.majorDiameter / 2.0 - d.thickness)
    case HoleAndThickness => (d.holeDiameter / 2.0 + d.thickness, d.holeDiameter / 2.0)
  }

  /** The panel shows the derived size next to the two given ones: the
      thickness (major - hole)/2, the hole diameter major - 2 thickness, or
      the diameter hole + 2 thickness. The solid built has exactly that
      size. */
  lemma RadiiMatchPanel(d: Donut)
    ensures var r := Radii(d);
      && (d.sizing == DiameterAndHole ==> r.0 - r.1 == (d.majorDiameter - d.holeDiameter) / 2.0)
      && (d.sizing == DiameterAndThickness ==> 2.0 * r.1 == d.majorDiameter - d.thickness * 2.0)
      && (d.sizing == HoleAndThickness ==> 2.0 * r.0 == d.holeDiameter + d.thickness * 2.0)
  {
  }

  /** What `execute` goes on to build once the radii are accepted. */
  datatype Plan = Plan(
    majorRadius: real,
    holeRadius: real,
    cutHole: bool,
    pieCut: bool,
    shift: real)

  /** `execute`: refuse when the hole is not smaller than the outside, then
      when it is negative; otherwise cut the hole only if it has a positive
      radius, cut the pie only for less than a full turn, and shift the
      cylinder, which Blender centres on the cursor, so that the chosen
      origin is at the cursor. */
  function Execute(d: Donut, pi: real): (r: Result<Plan>)
    ensures r.Ok? <==> 0.0 <= Radii(d).1 < Radii(d).0
    ensures Radii(d).1 >= Radii(d).0 ==>
      r == Err("The hole diameter must be smaller than the outer diameter")
    ensures r.Ok? ==>
      && r.value.majorRadius == Radii(d).0 && r.value.holeRadius == Radii(d).1
      && (r.value.cutHole <==> r.value.holeRadius > 0.0)
      && (r.value.pieCut <==> d.amount < 2.0 * pi)
  {
    var (major, hole) := Radii(d);
    if hole >= major then Err("The hole diameter must be smaller than the outer diameter")
    else if hole < 0.0 then Err("The hole diameter must be larger than zero")
    else
      var shift := match d.origin
        case Top => -d.height / 2.0
        case Bottom => d.height / 2.0
        case Middle => 0.0;
      Ok(Plan(major, hole, hole > 0.0, d.amount < 2.0 * pi, shift))
  }

  /** Within the property ranges, only the diameter-and-hole method can be
      refused for a hole that is too large, only the diameter-and-thickness
      method for a wall thicker than the radius, and the hole-and-thickness
      method never. */
  lemma ExecuteRefusals(d: Donut, pi: real)
    requires InRange(d)
    ensures d.sizing == DiameterAndHole ==> (Execute(d, pi).Err? <==> d.holeDiameter >= d.majorDiameter)
    ensures d.sizing == DiameterAndThickness ==> (Execute(d, pi).Err? <==> d.thickness > d.majorDiameter / 2.0)
    ensures d.sizing == HoleAndThickness ==> Execute(d, pi).Ok?
  {
  }

  /** The cylinder spans height `h` centred on the cursor; after the shift
      the cursor is at its top, middle or bottom as chosen. */
  lemma ExecuteShift(d: Donut, pi: real)
    requires Execute(d, pi).Ok?
    ensures var s := Execute(d, pi).value.shift;
      var lo, hi := -d.height / 2.0 + s, d.height / 2.0 + s;
      && hi - lo == d.height
      && (d.origin == Top ==> hi == 0.0)
      && (d.origin == Middle ==> lo == -hi)
      && (d.origin == Bottom ==> lo == 0.0)
  {
  }

  // ---------------------------------------------------------------------------
  // CreatePieCutMesh

  /** The base outline of the pie cutter, before extrusion: the point
      `cutSize` up the y axis, the centre, that point turned by the amount
      angle, then corner points around the part that is cut away: two more
      when the kept pie is under half a turn, one more when it is under
      three quarters, and the last corner. */
  function PieOutline(amount: real, pi: real, cosA: real, sinA: real, cutSize: real): (r: seq<Vec3>)
    ensures |r| == 3 + (if amount < pi then 2 else 0) + (if amount < 3.0 * pi / 2.0 then 1 else 0) + 1
    ensures forall k :: 0 <= k < |r| ==> r[k].z == 0.0
    ensures r[0] == Vec3(0.0, cutSize, 0.0) && r[1] == Origin
    ensures r[2] == RotateZ(cosA, sinA, Vec3(0.0, cutSize, 0.0))
    ensures r[|r| - 1] == Vec3(cutSize, cutSize, 0.0)
  {
    var yPlus := Vec3(0.0, cutSize, 0.0);
    [yPlus, Origin, RotateZ(cosA, sinA, yPlus)]
    + (if amount < pi then [Vec3(-cutSize, -cutSize, 0.0), Vec3(0.0, -cutSize, 0.0)] else [])
    + (if amount < 3.0 * pi / 2.0 then [Vec3(cutSize, -cutSize, 0.0)] else [])
    + [Vec3(cutSize, cutSize, 0.0)]
  }

  /** The cutter: the outline as one face over its indices in reverse order,
      extruded by `cutHeight` with a cap, then every vertex turned about z
      by the rotation angle. */
  function PieCutter(amount: real, pi: real, cosA: real, sinA: real, cosR: real, sinR: real,
                     cutSize: real, cutHeight: real): (m: Mesh)
    ensures var n := |PieOutline(amount, pi, cosA, sinA, cutSize)|;
      && |m.vertices| == 2 * n && |m.faces| == n + 2
      && m.faces[0] == Reverse(Range(0, n))
    ensures WellFormed(m)
  {
    var base := PieOutline(amount, pi, cosA, sinA, cutSize);
    var n := |base|;
    var face := Reverse(Range(0, n));
    var flat := Mesh(base, [face]);
    assert WellFormed(flat);
    ExtrudeFaceKeepsWellFormed(flat, face, cutHeight, true);
    var swept := ExtrudeFace(flat, face, cutHeight, true);
    assert swept.faces[0] == swept.faces[..1][0];
    Mesh(RotateAll(cosR, sinR, swept.vertices), swept.faces)
  }

  /** The cutter is a prism standing on z = 0: its first `n` vertices lie
      at height 0 and the extruded copies at `cutHeight`, whatever the
      rotation. */
  lemma PieCutterHeights(amount: real, pi: real, cosA: real, sinA: real, cosR: real, sinR: real,
                         cutSize: real, cutHeight: real, k: nat)
    requires k < 2 * |PieOutline(amount, pi, cosA, sinA, cutSize)|
    ensures var n := |PieOutline(amount, pi, cosA, sinA, cutSize)|;
      PieCutter(amount, pi, cosA, sinA, cosR, sinR, cutSize, cutHeight).vertices[k].z ==
        if k < n then 0.0 else cutHeight
  {
    var base := PieOutline(amount, pi, cosA, sinA, cutSize);
    var n := |base|;
    var face := Reverse(Range(0, n));
    var swept := ExtrudeFace(Mesh(base, [face]), face, cutHeight, true);
    if k < n {
      assert swept.vertices[k] == swept.vertices[..n][k];
    } else {
      assert face[k - n] == n - 1 - (k - n);
      assert swept.vertices[n + (k - n)] == Raise(base[face[k - n]], cutHeight);
    }
  }
}
