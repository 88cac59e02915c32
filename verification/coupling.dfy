/** The shaft coupling generator: the bores cut through the cylinder, the
    bevelled edges, the set-screw holes and the helical slit.

    The cylinders, the revolve of the slit profile, the thread of threaded
    set-screw holes and the boolean cuts are helpers and Blender operations
    and are not part of this model; the cosine is a parameter. */
module Coupling {
  import opened Geometry
  import JisScrew
  import opened Revolve

  // ---------------------------------------------------------------------------
  // create_coupling

  /** A cylindrical cut along the z axis: its radius and the heights of its
      two ends. */
  datatype Bore = Bore(radius: real, lo: real, hi: real)

  /** `create_cylinder(radius, length_z_plus, length_z_minus)` moved up to
      height `at`: it reaches `minus` below and `plus` above. */
  function Cylinder(radius: real, plus: real, minus: real, at: real): (b: Bore)
    ensures b.hi - b.lo == plus + minus && b.hi - at == plus
  {
    Bore(radius, at - minus, at + plus)
  }

  /** The middle bore's diameter: the larger of the two shaft diameters
      plus the clearance. */
  function MiddleDiameter(d1: real, d2: real, clearance: real): (d: real)
    ensures d >= d1 + clearance && d >= d2 + clearance
    ensures d == d1 + clearance || d == d2 + clearance
  {
    Max(d1, d2) + clearance
  }

  /** The cuts of `create_coupling`, in order: the lower shaft bore, which
      pokes 0.5 out of the base, the upper one, which pokes 0.5 out of the
      top, and the middle bore when the two shaft bores leave a gap. */
  function CouplingBores(length: real, d1: real, d2: real, dMiddle: real, insertion: real): (r: seq<Bore>)
    ensures |r| == if length - insertion * 2.0 > 0.0 then 3 else 2
  {
    var lower := Cylinder(d2 / 2.0, insertion, 0.5, 0.0);
    var upper := Cylinder(d1 / 2.0, 0.5, insertion, length);
    if length - insertion * 2.0 > 0.0 then
      var l := (length - insertion * 2.0) / 2.0;
      [lower, upper, Cylinder(dMiddle / 2.0, l, l, length / 2.0)]
    else [lower, upper]
  }

  /** Height `z` lies inside one of the bores. */
  predicate InSomeBore(r: seq<Bore>, z: real) {
    exists k :: 0 <= k < |r| && r[k].lo <= z <= r[k].hi
  }

  /** The shaft bores take `insertion` from each end with diameters `d2`
      (below) and `d1` (above); the middle bore, when there is one, fills
      exactly the gap between them; so every height of the coupling lies in
      some bore and the hole goes all the way through. */
  lemma BoresGoThrough(length: real, d1: real, d2: real, dMiddle: real, insertion: real)
    requires insertion >= 0.0
    ensures var r := CouplingBores(length, d1, d2, dMiddle, insertion);
      && r[0].radius == d2 / 2.0 && r[0].lo < 0.0 && r[0].hi == insertion
      && r[1].radius == d1 / 2.0 && r[1].lo == length - insertion && r[1].hi > length
      && (|r| == 3 ==> r[2].radius == dMiddle / 2.0 && r[2].lo == insertion && r[2].hi == length - insertion)
      && (forall z :: 0.0 <= z <= length ==> InSomeBore(r, z))
  {
    var r := CouplingBores(length, d1, d2, dMiddle, insertion);
    forall z | 0.0 <= z <= length ensures InSomeBore(r, z) {
      if z <= insertion {
        assert r[0].lo <= z <= r[0].hi;
      } else if z >= length - insertion {
        assert r[1].lo <= z <= r[1].hi;
      } else {
        assert r[2].lo <= z <= r[2].hi;
      }
    }
  }

  // ---------------------------------------------------------------------------
  // is_coupling_bevel_edge

  /** The threshold on the dot product of the two faces at an edge: the
      cosine of 0.1 degrees. */
  function BevelThreshold(cos: real -> real, pi: real): real {
    cos(pi * 0.1 / 180.0)
  }

  /** An edge is bevelled when both its ends are within 0.01 of the top, or
      both of the bottom, and the faces meeting there are not flush (their
      normals' dot product is below the threshold). */
  predicate IsCouplingBevelEdge(za: real, zb: real, z1: real, z2: real, dot: real, threshold: real) {
    ((Near(za, z1) && Near(zb, z1)) || (Near(za, z2) && Near(zb, z2))) && dot < threshold
  }

  /** An edge lying in an end plane is bevelled exactly when it is a real
      corner; an edge that rises more than 0.02, or has an end more than
      0.01 from both end planes, never is. */
  lemma CouplingBevelEdges(za: real, zb: real, z1: real, z2: real, dot: real, threshold: real)
    requires Abs(za) <= 1000000.0 && Abs(zb) <= 1000000.0 && Abs(z1) <= 1000000.0 && Abs(z2) <= 1000000.0
    ensures (za == zb == z1 || za == zb == z2) ==> (IsCouplingBevelEdge(za, zb, z1, z2, dot, threshold) <==> dot < threshold)
    ensures Abs(za - zb) > 0.02 ==> !IsCouplingBevelEdge(za, zb, z1, z2, dot, threshold)
    ensures Abs(za - z1) > 0.01 && Abs(za - z2) > 0.01 ==> !IsCouplingBevelEdge(za, zb, z1, z2, dot, threshold)
  {
    NearWithin(za, z1);
    NearWithin(zb, z1);
    NearWithin(za, z2);
    NearWithin(zb, z2);
  }

  // ---------------------------------------------------------------------------
  // make_setscrew_holes

  /** One boolean cut with the set-screw cutter: its height, its turn about
      z, and its tilt about x in degrees, which makes it point sideways. */
  datatype ScrewCut = ScrewCut(z: real, turn: real, tilt: int)

  /** The cuts at one height: one unturned and, unless the angle is within
      0.01 of zero, one turned by the angle. */
  function CutsAt(z: real, angle: real, tilt: int): seq<ScrewCut> {
    [ScrewCut(z, 0.0, tilt)] + (if !Near(angle, 0.0) then [ScrewCut(z, angle, tilt)] else [])
  }

  /** `make_setscrew_holes`: cuts at `position` from the bottom and from the
      top; a threaded cutter is tilted by -90 degrees and a plain one by
      90. */
  function SetScrewCuts(length: real, position: real, angle: real, threaded: bool): (r: seq<ScrewCut>)
    ensures |r| == if Abs(angle) <= 0.01 then 2 else 4
    ensures forall k :: 0 <= k < |r| ==> r[k].tilt == if threaded then -90 else 90
  {
    var tilt := if threaded then -90 else 90;
    CutsAt(position, angle, tilt) + CutsAt(length - position, angle, tilt)
  }

  /** The second half of the cuts repeats the first half at the mirrored
      heights `length - z` and the same turns. */
  predicate Mirrored(r: seq<ScrewCut>, length: real) {
    |r| % 2 == 0
    && forall k :: 0 <= k < |r| / 2 ==> r[|r| / 2 + k].z == length - r[k].z && r[|r| / 2 + k].turn == r[k].turn
  }

  /** The cuts come in mirror pairs; all lie at `position` or
      `length - position`, turned by 0 or by the angle, and a turned cut
      exists exactly when the angle is more than 0.01 from zero. */
  lemma SetScrewCutsMirrored(length: real, position: real, angle: real, threaded: bool)
    ensures var r := SetScrewCuts(length, position, angle, threaded);
      && Mirrored(r, length)
      && (forall k :: 0 <= k < |r| ==> (r[k].z == position || r[k].z == length - position) && (r[k].turn == 0.0 || r[k].turn == angle))
      && ((exists k :: 0 <= k < |r| && r[k].turn != 0.0) <==> Abs(angle) > 0.01)
  {
    var tilt := if threaded then -90 else 90;
    NearZero(angle);
    if Abs(angle) <= 0.01 {
      MirroredTwo(SetScrewCuts(length, position, angle, threaded), length, position, tilt);
    } else {
      MirroredFour(SetScrewCuts(length, position, angle, threaded), length, position, angle, tilt);
    }
  }

  /** `math.isclose(a, 0, abs_tol=0.01)` means `|a| <= 0.01`. */
  lemma NearZero(a: real)
    ensures Near(a, 0.0) <==> Abs(a) <= 0.01
  {
  }

  lemma MirroredTwo(r: seq<ScrewCut>, length: real, position: real, tilt: int)
    requires r == [ScrewCut(position, 0.0, tilt), ScrewCut(length - position, 0.0, tilt)]
    ensures Mirrored(r, length)
    ensures forall k :: 0 <= k < |r| ==> (r[k].z == position || r[k].z == length - position) && r[k].turn == 0.0
  {
  }

  lemma MirroredFour(r: seq<ScrewCut>, length: real, position: real, angle: real, tilt: int)
    requires r == [ScrewCut(position, 0.0, tilt), ScrewCut(position, angle, tilt),
                   ScrewCut(length - position, 0.0, tilt), ScrewCut(length - position, angle, tilt)]
    ensures Mirrored(r, length)
    ensures forall k :: 0 <= k < |r| ==> (r[k].z == position || r[k].z == length - position) && (r[k].turn == 0.0 || r[k].turn == angle)
    ensures r[1].turn == angle
  {
  }

  /** The cutter is a cylinder from the axis out to twice the coupling's
      diameter, so each hole runs from the bore through the outer wall. */
  lemma SetScrewCutterReachesOut(couplingDiameter: real)
    requires couplingDiameter > 0.0
    ensures Cylinder(0.0, couplingDiameter * 2.0, 0.0, 0.0).lo == 0.0
    ensures Cylinder(0.0, couplingDiameter * 2.0, 0.0, 0.0).hi > couplingDiameter / 2.0
  {
  }

  /** The set-screw properties that the size buttons fill in. */
  datatype SetScrewProps = SetScrewProps(diameter: real, pitch: real, threadDepth: real)

  /** `update_setscrew_sizes`: a known size copies its diameter, pitch and
      thread depth; an unknown one changes nothing. */
  function UpdateSetScrewSizes(p: SetScrewProps, spec: Option<JisScrew.ScrewSpec>): (r: SetScrewProps)
    ensures spec.None? ==> r == p
    ensures spec.Some? ==> r.diameter == spec.value.diameter && r.pitch == spec.value.pitch
                           && r.threadDepth == spec.value.threadDepth
  {
    match spec
    case None => p
    case Some(s) => SetScrewProps(s.diameter, s.pitch, s.threadDepth)
  }

  /** Pressing the same size button twice changes nothing the second time. */
  lemma UpdateSetScrewSizesIdempotent(p: SetScrewProps, spec: Option<JisScrew.ScrewSpec>)
    ensures UpdateSetScrewSizes(UpdateSetScrewSizes(p, spec), spec) == UpdateSetScrewSizes(p, spec)
  {
  }

  // ---------------------------------------------------------------------------
  // make_slit

  /** The height at which the slit's first turn is centred. */
  function SlitStart(length: real, distance: real, count: int): real {
    length / 2.0 - (distance * count as real) / 2.0
  }

  /** The rectangle that is revolved into the slit: from x = -diameter in to
      x = -0.1, `width` tall around the start height. There is no slit
      unless both the width and the turn count are positive. */
  function SlitProfile(diameter: real, length: real, width: real, distance: real, count: int): (r: Option<seq<Vec3>>)
    ensures r.Some? <==> width > 0.0 && count > 0
    ensures r.Some? ==>
      var z := SlitStart(length, distance, count);
      && |r.value| == 4
      && r.value[0].z - r.value[1].z == width
      && (forall k :: 0 <= k < 4 ==>
            && (r.value[k].x == -diameter || r.value[k].x == -0.1) && r.value[k].y == 0.0
            && z - width / 2.0 <= r.value[k].z <= z + width / 2.0)
  {
    if width > 0.0 && count > 0 then
      var z := SlitStart(length, distance, count);
      Some([Vec3(-diameter, 0.0, z + width / 2.0), Vec3(-diameter, 0.0, z - width / 2.0),
            Vec3(-0.1, 0.0, z - width / 2.0), Vec3(-0.1, 0.0, z + width / 2.0)])
    else None
  }

  /** The `count` turns each rise by `distance`, so the slit's centre line
      runs from `SlitStart` to `SlitStart + count * distance`, centred on
      half the length; when the turns and the width fit in the length the
      slit stays between the two ends. */
  lemma SlitCentred(length: real, width: real, distance: real, count: int)
    requires count > 0 && width > 0.0
    ensures var z0 := SlitStart(length, distance, count);
      var z1 := z0 + count as real * distance;
      && (z0 + z1) / 2.0 == length / 2.0
      && (count as real * distance + width <= length ==> 0.0 <= z0 - width / 2.0 && z1 + width / 2.0 <= length)
  {
  }

  /** The loop of `make_slit`: `count` revolves of the last four vertices,
      each one full turn in `segments` rings rising `distance`, closed.
      Four vertices and four faces are added per ring, the profile stays in
      front, and the last vertex climbs `distance` per turn. `spin` is the
      turn by one segment about z. */
  method RevolveTurns(profile: seq<Vec3>, count: nat, segments: nat, distance: real, spin: PlaneMap)
    returns (m: Mesh)
    requires |profile| == 4 && segments > 0
    ensures |m.vertices| == 4 + count * (segments * 4) && |m.faces| == count * (segments * 4)
    ensures m.vertices[..4] == profile && WellFormed(m)
    ensures m.vertices[|m.vertices| - 1].z == profile[3].z + count as real * distance
  {
    var q := segments * 4;
    m := Mesh(profile, []);
    var i := 0;
    while i < count
      invariant 0 <= i <= count
      invariant |m.vertices| == 4 + i * q && |m.faces| == i * q
      invariant m.vertices[..4] == profile
      invariant WellFormed(m)
      invariant m.vertices[|m.vertices| - 1].z == profile[3].z + i as real * distance
    {
      var prev := m;
      m := AddRevolvedSurface(m, 4, segments, true, distance, spin);
      assert m.vertices[..4] == m.vertices[..|prev.vertices|][..4];
      assert (i + 1) * q == i * q + q;
      i := i + 1;
    }
  }

  /** `make_slit`: the profile revolved `count` times, then capped by the
      first ring and the last. There is no slit unless the width and the
      count are positive; otherwise the result has four vertices per ring,
      four faces per ring plus the two caps, names only vertices it has,
      and its last vertex has climbed `count * distance` above the
      profile's top. */
  method MakeSlit(diameter: real, length: real, width: real, distance: real, count: int,
                  segments: nat, spin: PlaneMap) returns (r: Option<Mesh>)
    requires segments > 0
    ensures r.Some? <==> width > 0.0 && count > 0
    ensures r.Some? ==>
      var m := r.value;
      var n := |m.vertices|;
      && n == 4 + count * (segments * 4) && |m.faces| == count * (segments * 4) + 2
      && WellFormed(m)
      && m.faces[|m.faces| - 2] == [0, 1, 2, 3] && m.faces[|m.faces| - 1] == Range(n - 4, n)
      && m.vertices[n - 1].z == SlitStart(length, distance, count) + width / 2.0 + count as real * distance
  {
    var profile := SlitProfile(diameter, length, width, distance, count);
    if profile.None? {
      return None;
    }
    assert profile.value[3].z == SlitStart(length, distance, count) + width / 2.0;
    var m := RevolveTurns(profile.value, count, segments, distance, spin);
    var n := |m.vertices|;
    var caps := Caps(n);
    GrowKeepsWellFormed(m, m.vertices, caps);
    r := Some(Mesh(m.vertices, m.faces + caps));
  }

  /** The two caps: the first ring and the last four vertices. */
  function Caps(n: nat): (r: seq<Face>)
    requires n >= 4
    ensures FacesInBounds(r, n)
    ensures r == [[0, 1, 2, 3], Range(n - 4, n)]
  {
    var r := [[0, 1, 2, 3], Range(n - 4, n)];
    assert FaceInBounds(r[0], n) && FaceInBounds(r[1], n);
    r
  }

  // ---------------------------------------------------------------------------
  // execute

  /** The operator's properties. */
  datatype Props = Props(
    diameter: real, length: real, d1: real, d2: real, holeLength: real, clearance: real,
    setScrew: bool, setScrewPosition: real, setScrewAngle: real, setScrewThread: bool,
    slit: bool, slitWidth: real, slitCount: int, slitInterval: real)

  /** What `execute` builds. */
  datatype Plan = Plan(bores: seq<Bore>, screwCuts: seq<ScrewCut>, slit: Option<seq<Vec3>>)

  /** `execute`: the bores with the middle diameter derived from the shaft
      diameters, the set-screw cuts if enabled, the slit if enabled. */
  function Execute(p: Props): (r: Plan)
    ensures |r.bores| >= 2
    ensures !p.setScrew <==> r.screwCuts == []
    ensures r.slit.Some? <==> p.slit && p.slitWidth > 0.0 && p.slitCount > 0
  {
    var middle := MiddleDiameter(p.d1, p.d2, p.clearance);
    Plan(CouplingBores(p.length, p.d1, p.d2, middle, p.holeLength),
         if p.setScrew then SetScrewCuts(p.length, p.setScrewPosition, p.setScrewAngle, p.setScrewThread) else [],
         if p.slit then SlitProfile(p.diameter, p.length, p.slitWidth, p.slitInterval, p.slitCount) else None)
  }

  /** With a positive clearance the middle bore, when there is one, is wider
      than both shaft bores, so neither shaft is gripped past its
      insertion length. */
  lemma MiddleBoreWider(p: Props)
    requires p.clearance > 0.0
    ensures var b := Execute(p).bores;
      |b| == 3 ==> b[2].radius > b[0].radius && b[2].radius > b[1].radius
  {
  }
}
