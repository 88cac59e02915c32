/** The pin header generator: the boxes for the plastic block and the pin,
    which edges of each get a bevel weight, the pitch presets, the concave
    cut's guard, and the joining of several objects into one mesh.

    The bevel, boolean and array modifiers and the removal of doubled
    vertices are Blender operations and are not part of this model. */
module PinHeader {
  import opened Geometry

  // ---------------------------------------------------------------------------
  // create_box

  /** The corners of the unit cube centred on the origin, numbered so that
      bit 2 of the index selects +x, bit 1 selects +y and bit 0 selects +z. */
  const UnitCorners: seq<Vec3> := [
    Vec3(-0.5, -0.5, -0.5), Vec3(-0.5, -0.5, 0.5), Vec3(-0.5, 0.5, -0.5), Vec3(-0.5, 0.5, 0.5),
    Vec3(0.5, -0.5, -0.5), Vec3(0.5, -0.5, 0.5), Vec3(0.5, 0.5, -0.5), Vec3(0.5, 0.5, 0.5)]

  /** Front, back, left, right, bottom and top. */
  const BoxFaces: seq<Face> := [[1, 5, 4, 0], [3, 7, 6, 2], [1, 3, 2, 0], [5, 7, 6, 4], [0, 4, 6, 2], [1, 5, 7, 3]]

  /** Componentwise product, as `Vector * Vector` is used for scaling. */
  function Mul(a: Vec3, b: Vec3): Vec3 { Vec3(a.x * b.x, a.y * b.y, a.z * b.z) }

  /** `c` lies `half` below or above `center` according to `up`. */
  predicate Side(c: real, center: real, half: real, up: bool) {
    c == if up then center + half else center - half
  }

  /** `create_box`: the cube scaled by `size` and moved by `offset`. Vertex
      `k` is the corner on the +x side iff bit 2 of `k` is set, on the +y
      side iff bit 1 is, and on the top iff bit 0 is. */
  function CreateBox(size: Vec3, offset: Vec3): (m: Mesh)
    ensures |m.vertices| == 8 && m.faces == BoxFaces && WellFormed(m)
    ensures forall k :: 0 <= k < 8 ==>
      && Side(m.vertices[k].x, offset.x, size.x / 2.0, k >= 4)
      && Side(m.vertices[k].y, offset.y, size.y / 2.0, k % 4 >= 2)
      && Side(m.vertices[k].z, offset.z, size.z / 2.0, k % 2 == 1)
  {
    var vs := seq(8, k requires 0 <= k < 8 => Add(Mul(UnitCorners[k], size), offset));
    var m := Mesh(vs, BoxFaces);
    assert WellFormed(m) by { BoxFacesShape(); }
    m
  }

  /** How many of the first `n` faces name vertex `v`. */
  function FacesAt(faces: seq<Face>, v: nat, n: nat): (c: nat)
    requires n <= |faces|
    ensures c <= n
  {
    if n == 0 then 0
    else FacesAt(faces, v, n - 1) + (if v in faces[n - 1] then 1 else 0)
  }

  /** Coordinate `axis` (0, 1, 2 for x, y, z) of a point. */
  function Coord(v: Vec3, axis: nat): real {
    if axis == 0 then v.x else if axis == 1 then v.y else v.z
  }

  /** The four corners of a face lie in one side plane of the cube. */
  predicate OnOneSide(f: Face, axis: nat) {
    |f| == 4 && (forall k :: 0 <= k < 4 ==> f[k] < 8) && axis < 3
    && (forall k :: 0 <= k < 4 ==> Coord(UnitCorners[f[k]], axis) == Coord(UnitCorners[f[0]], axis))
  }

  predicate Planar(f: Face) {
    exists axis: nat | axis < 3 :: OnOneSide(f, axis)
  }

  /** Two corners joined by a cube edge differ in exactly one coordinate. */
  predicate CubeEdge(a: nat, b: nat)
    requires a < 8 && b < 8
  {
    var u, w := UnitCorners[a], UnitCorners[b];
    (if u.x != w.x then 1 else 0) + (if u.y != w.y then 1 else 0) + (if u.z != w.z then 1 else 0) == 1
  }

  /** A quad whose consecutive corners, the last back to the first, are
      joined by cube edges. */
  predicate WalksEdges(f: Face) {
    |f| == 4 && (forall k :: 0 <= k < 4 ==> f[k] < 8)
    && CubeEdge(f[0], f[1]) && CubeEdge(f[1], f[2]) && CubeEdge(f[2], f[3]) && CubeEdge(f[3], f[0])
  }

  /** The six faces are quads, each lying in one side plane of the cube and
      walking round it along cube edges, and every corner belongs to
      exactly three faces. */
  lemma BoxFacesShape()
    ensures |BoxFaces| == 6
    ensures forall i :: 0 <= i < 6 ==> FaceInBounds(BoxFaces[i], 8) && WalksEdges(BoxFaces[i])
    ensures forall i :: 0 <= i < 6 ==> Planar(BoxFaces[i])
    ensures forall v :: 0 <= v < 8 ==> FacesAt(BoxFaces, v, 6) == 3
  {
    BoxFacesPlanar();
    BoxFacesWalkEdges();
    BoxCornerDegreesLow();
    BoxCornerDegreesHigh();
  }

  lemma BoxFacesPlanar()
    ensures forall i :: 0 <= i < 6 ==> Planar(BoxFaces[i])
  {
    BoxFacesPlanarSides();
    assert OnOneSide(BoxFaces[4], 2);
    assert OnOneSide(BoxFaces[5], 2);
  }

  lemma BoxFacesPlanarSides()
    ensures forall i :: 0 <= i < 4 ==> Planar(BoxFaces[i])
  {
    assert OnOneSide(BoxFaces[0], 1);
    assert OnOneSide(BoxFaces[1], 1);
    assert OnOneSide(BoxFaces[2], 0);
    assert OnOneSide(BoxFaces[3], 0);
  }

  lemma BoxFacesWalkEdges()
    ensures forall i :: 0 <= i < 6 ==> FaceInBounds(BoxFaces[i], 8) && WalksEdges(BoxFaces[i])
  {
    assert WalksEdges(BoxFaces[0]) && WalksEdges(BoxFaces[1]) && WalksEdges(BoxFaces[2]);
    assert WalksEdges(BoxFaces[3]) && WalksEdges(BoxFaces[4]) && WalksEdges(BoxFaces[5]);
  }

  lemma BoxCornerDegreesLow()
    ensures forall v :: 0 <= v < 4 ==> FacesAt(BoxFaces, v, 6) == 3
  {
    assert FacesAt(BoxFaces, 0, 6) == 3;
    assert FacesAt(BoxFaces, 1, 6) == 3;
    assert FacesAt(BoxFaces, 2, 6) == 3;
    assert FacesAt(BoxFaces, 3, 6) == 3;
  }

  lemma BoxCornerDegreesHigh()
    ensures forall v :: 4 <= v < 8 ==> FacesAt(BoxFaces, v, 6) == 3
  {
    assert FacesAt(BoxFaces, 4, 6) == 3;
    assert FacesAt(BoxFaces, 5, 6) == 3;
    assert FacesAt(BoxFaces, 6, 6) == 3;
    assert FacesAt(BoxFaces, 7, 6) == 3;
  }

  /** With a non-negative size the box spans `size` along each axis,
      centred on `offset`. */
  lemma BoxSpan(size: Vec3, offset: Vec3, k: nat)
    requires k < 8 && size.z >= 0.0
    ensures var v := CreateBox(size, offset).vertices[k];
      && offset.z - size.z / 2.0 <= v.z <= offset.z + size.z / 2.0
      && CreateBox(size, offset).vertices[0].z == offset.z - size.z / 2.0
      && CreateBox(size, offset).vertices[1].z == offset.z + size.z / 2.0
  {
  }

  // ---------------------------------------------------------------------------
  // Bevel weights

  /** The block's bevel weight goes on every edge whose ends differ in z. */
  predicate BlockBevelEdge(m: Mesh, a: nat, b: nat)
    requires a < |m.vertices| && b < |m.vertices|
  {
    m.vertices[a].z != m.vertices[b].z
  }

  /** The pin's bevel weight goes on every edge whose ends share z. */
  predicate PinBevelEdge(m: Mesh, a: nat, b: nat)
    requires a < |m.vertices| && b < |m.vertices|
  {
    m.vertices[a].z == m.vertices[b].z
  }

  /** For a box of non-zero height, an edge of face `i` gets the block's
      bevel weight exactly when it is one of the vertical edges of the four
      side faces, and the pin's weight exactly when it is not: the block
      is rounded along its four upright edges and the pin around its two
      ends. */
  lemma BevelEdges(size: Vec3, offset: Vec3, i: nat, k: nat)
    requires size.z != 0.0 && i < 6 && k < 4
    ensures var m := CreateBox(size, offset);
      var a, b := BoxFaces[i][k], BoxFaces[i][(k + 1) % 4];
      && (BlockBevelEdge(m, a, b) <==> i < 4 && a % 2 != b % 2)
      && (PinBevelEdge(m, a, b) <==> !BlockBevelEdge(m, a, b))
      && (i >= 4 ==> PinBevelEdge(m, a, b))
  {
    var m := CreateBox(size, offset);
    var a, b := BoxFaces[i][k], BoxFaces[i][(k + 1) % 4];
    assert a < 8 && b < 8 by { BoxFacesWalkEdges(); }
    assert i >= 4 ==> a % 2 == b % 2 by {
      assert k == 0 || k == 1 || k == 2 || k == 3;
    }
    var h := size.z / 2.0;
    assert h != 0.0;
    if a % 2 != b % 2 {
      assert m.vertices[a].z - m.vertices[b].z == 2.0 * h || m.vertices[a].z - m.vertices[b].z == -2.0 * h;
    }
    assert i < 4 ==> (a % 2 != b % 2 <==> k == 1 || k == 3) by {
      assert k == 0 || k == 1 || k == 2 || k == 3;
    }
  }

  // ---------------------------------------------------------------------------
  // Pitch presets

  /** `pin_pitch_to_value`: the pitch in millimetres for an enum identifier;
      any identifier other than "127" and "200" falls back to 2.54. */
  function PinPitchValue(pitch: string): (v: real)
    ensures v == 1.27 <==> pitch == "127"
    ensures v == 2.0 <==> pitch == "200"
    ensures v == 2.54 <==> pitch != "127" && pitch != "200"
  {
    if pitch == "127" then 1.27
    else if pitch == "200" then 2.0
    else 2.54
  }

  /** The sizes `on_pitch_update` fills in for a pitch. */
  datatype Preset = Preset(
    blockSize: Vec3,
    pinThickness: real,
    pinLengthTop: real,
    pinLengthBottom: real,
    concaveSize: Vec3)

  /** `on_pitch_update`: the presets of the three pitches; another value
      leaves the properties as they were. */
  function PresetFor(pitch: string): (p: Option<Preset>)
    ensures p.Some? <==> pitch in {"127", "200", "254"}
    ensures p.Some? ==> p.value.blockSize.x == PinPitchValue(pitch)
  {
    if pitch == "127" then Some(Preset(Vec3(1.27, 2.1, 1.5), 0.4, 3.0, 2.3, Vec3(0.0, 0.0, 0.0)))
    else if pitch == "200" then Some(Preset(Vec3(2.0, 2.0, 2.0), 0.5, 4.0, 2.8, Vec3(3.0, 1.4, 0.3)))
    else if pitch == "254" then Some(Preset(Vec3(2.54, 2.5, 2.5), 0.64, 6.1, 3.0, Vec3(3.0, 1.6, 0.4)))
    else None
  }

  /** The concave cut under the block is made only when all three of its
      dimensions are positive. */
  predicate ConcaveCut(c: Vec3) {
    c.x > 0.0 && c.y > 0.0 && c.z > 0.0
  }

  /** Every preset respects the properties' minimums (0.1 for the block,
      pin thickness and lengths), its pin is thinner than the block, and the
      concave cut is made for the 2.00 and 2.54 pitches but not for 1.27. */
  lemma PresetsValid(pitch: string)
    requires PresetFor(pitch).Some?
    ensures var p := PresetFor(pitch).value;
      && p.blockSize.x >= 0.1 && p.blockSize.y >= 0.1 && p.blockSize.z >= 0.1
      && p.pinThickness >= 0.1 && p.pinLengthTop >= 0.1 && p.pinLengthBottom >= 0.1
      && p.pinThickness < p.blockSize.x && p.pinThickness < p.blockSize.y
      && (ConcaveCut(p.concaveSize) <==> pitch != "127")
  {
  }

  // ---------------------------------------------------------------------------
  // The block and the pin

  /** The plastic block, resting on z = 0. */
  function BlockBox(blockSize: Vec3): Mesh {
    CreateBox(blockSize, Vec3(0.0, 0.0, blockSize.z / 2.0))
  }

  /** The pin: `top + block height + bottom` long, centred on the z axis. */
  function PinLength(blockSize: Vec3, top: real, bottom: real): (l: real)
    ensures l - blockSize.z == top + bottom
  {
    top + blockSize.z + bottom
  }

  function PinBox(blockSize: Vec3, thickness: real, top: real, bottom: real): Mesh {
    var l := PinLength(blockSize, top, bottom);
    CreateBox(Vec3(thickness, thickness, l), Vec3(0.0, 0.0, l / 2.0 - bottom))
  }

  /** The block spans z from 0 to its height; the pin passes through it,
      reaching `bottom` below its base and `top` above its top. */
  lemma PinThroughBlock(blockSize: Vec3, thickness: real, top: real, bottom: real)
    ensures BlockBox(blockSize).vertices[0].z == 0.0
    ensures BlockBox(blockSize).vertices[1].z == blockSize.z
    ensures PinBox(blockSize, thickness, top, bottom).vertices[0].z == -bottom
    ensures PinBox(blockSize, thickness, top, bottom).vertices[1].z == blockSize.z + top
  {
  }

  // ---------------------------------------------------------------------------
  // create_combined_object

  /** An object: its location and its mesh in local coordinates. */
  datatype Part = Part(location: Vec3, mesh: Mesh)

  function VertexTotal(parts: seq<Part>): nat {
    if |parts| == 0 then 0 else VertexTotal(parts[..|parts| - 1]) + |parts[|parts| - 1].mesh.vertices|
  }

  function FaceTotal(parts: seq<Part>): nat {
    if |parts| == 0 then 0 else FaceTotal(parts[..|parts| - 1]) + |parts[|parts| - 1].mesh.faces|
  }

  /** A face with every index moved up by `offset`. */
  function ShiftFace(f: Face, offset: nat): (r: Face)
    ensures |r| == |f|
    ensures forall k :: 0 <= k < |f| ==> r[k] == f[k] + offset
  {
    seq(|f|, k requires 0 <= k < |f| => f[k] + offset)
  }

  function ShiftFaces(fs: seq<Face>, offset: nat): (r: seq<Face>)
    ensures |r| == |fs|
    ensures forall j :: 0 <= j < |fs| ==> r[j] == ShiftFace(fs[j], offset)
  {
    seq(|fs|, j requires 0 <= j < |fs| => ShiftFace(fs[j], offset))
  }

  /** A part's vertices in the frame of an object located at `origin`. */
  function Relocate(vs: seq<Vec3>, location: Vec3, origin: Vec3): (r: seq<Vec3>)
    ensures |r| == |vs|
    ensures forall k :: 0 <= k < |vs| ==> Add(r[k], origin) == Add(vs[k], location)
  {
    seq(|vs|, k requires 0 <= k < |vs| => Sub(Add(location, vs[k]), origin))
  }

  predicate AllWellFormed(parts: seq<Part>) {
    forall i :: 0 <= i < |parts| ==> WellFormed(parts[i].mesh)
  }

  /** The loop of `create_combined_object`: each part's vertices are
      appended in the frame of `origin`, and its faces with their indices
      moved past the vertices of the parts before it. */
  function Combine(parts: seq<Part>, origin: Vec3): (m: Mesh)
    ensures |m.vertices| == VertexTotal(parts) && |m.faces| == FaceTotal(parts)
    ensures AllWellFormed(parts) ==> WellFormed(m)
  {
    if |parts| == 0 then Mesh([], [])
    else
      var init := parts[..|parts| - 1];
      var p := parts[|parts| - 1];
      var m := Combine(init, origin);
      var n := |m.vertices|;
      var r := Mesh(m.vertices + Relocate(p.mesh.vertices, p.location, origin), m.faces + ShiftFaces(p.mesh.faces, n));
      assert AllWellFormed(parts) ==> WellFormed(r) by {
        if AllWellFormed(parts) {
          assert AllWellFormed(init) by {
            forall i | 0 <= i < |init| ensures WellFormed(init[i].mesh) { assert init[i] == parts[i]; }
          }
          assert WellFormed(p.mesh);
          ShiftedInBounds(p.mesh.faces, |p.mesh.vertices|, n);
          GrowKeepsWellFormed(m, r.vertices, ShiftFaces(p.mesh.faces, n));
        }
      }
      r
  }

  lemma ShiftedInBounds(fs: seq<Face>, count: nat, offset: nat)
    requires FacesInBounds(fs, count)
    ensures FacesInBounds(ShiftFaces(fs, offset), offset + count)
  {
    forall j | 0 <= j < |fs| ensures FaceInBounds(ShiftFaces(fs, offset)[j], offset + count) {
      assert FaceInBounds(fs[j], count);
    }
  }

  /** Joining one more part keeps the mesh of the parts before it in front
      and appends the new part's relocated vertices and shifted faces. */
  lemma CombineExtends(parts: seq<Part>, origin: Vec3)
    requires |parts| > 0
    ensures var m, mi := Combine(parts, origin), Combine(parts[..|parts| - 1], origin);
      var p := parts[|parts| - 1];
      && m.vertices == mi.vertices + Relocate(p.mesh.vertices, p.location, origin)
      && m.faces == mi.faces + ShiftFaces(p.mesh.faces, |mi.vertices|)
  {
  }

  /** The last part lands after all the others. */
  lemma CombinePlacesLast(parts: seq<Part>, origin: Vec3)
    requires |parts| > 0
    ensures var m, i := Combine(parts, origin), |parts| - 1;
      var vo, fo := VertexTotal(parts[..i]), FaceTotal(parts[..i]);
      && vo + |parts[i].mesh.vertices| <= |m.vertices|
      && fo + |parts[i].mesh.faces| <= |m.faces|
      && (forall k :: 0 <= k < |parts[i].mesh.vertices| ==>
            Add(m.vertices[vo + k], origin) == Add(parts[i].mesh.vertices[k], parts[i].location))
      && (forall j :: 0 <= j < |parts[i].mesh.faces| ==>
            m.faces[fo + j] == ShiftFace(parts[i].mesh.faces[j], vo))
  {
    var init := parts[..|parts| - 1];
    var m := Combine(parts, origin);
    var mi := Combine(init, origin);
    var p := parts[|parts| - 1];
    CombineExtends(parts, origin);
    assert parts[..|parts| - 1] == init;
    forall k | 0 <= k < |p.mesh.vertices|
      ensures Add(m.vertices[VertexTotal(init) + k], origin) == Add(p.mesh.vertices[k], p.location)
    {
      assert m.vertices[|mi.vertices| + k] == Relocate(p.mesh.vertices, p.location, origin)[k];
    }
    forall j | 0 <= j < |p.mesh.faces|
      ensures m.faces[FaceTotal(init) + j] == ShiftFace(p.mesh.faces[j], VertexTotal(init))
    {
      assert m.faces[|mi.faces| + j] == ShiftFaces(p.mesh.faces, |mi.vertices|)[j];
    }
  }

  /** Part `i`'s vertex `k` lands at index `VertexTotal(parts[..i]) + k`,
      at the same place in space; its face `j` lands at index
      `FaceTotal(parts[..i]) + j` with every index moved by the vertex count
      of the parts before it. */
  lemma {:induction false} CombinePlacesPart(parts: seq<Part>, origin: Vec3, i: nat)
    requires i < |parts|
    ensures var m := Combine(parts, origin);
      var vo, fo := VertexTotal(parts[..i]), FaceTotal(parts[..i]);
      && vo + |parts[i].mesh.vertices| <= |m.vertices|
      && fo + |parts[i].mesh.faces| <= |m.faces|
      && (forall k :: 0 <= k < |parts[i].mesh.vertices| ==>
            Add(m.vertices[vo + k], origin) == Add(parts[i].mesh.vertices[k], parts[i].location))
      && (forall j :: 0 <= j < |parts[i].mesh.faces| ==>
            m.faces[fo + j] == ShiftFace(parts[i].mesh.faces[j], vo))
    decreases |parts|
  {
    if i == |parts| - 1 {
      CombinePlacesLast(parts, origin);
    } else {
      var init := parts[..|parts| - 1];
      var m := Combine(parts, origin);
      var mi := Combine(init, origin);
      CombineExtends(parts, origin);
      CombinePlacesPart(init, origin, i);
      assert init[..i] == parts[..i];
      assert init[i] == parts[i];
      var vo, fo := VertexTotal(parts[..i]), FaceTotal(parts[..i]);
      forall k | 0 <= k < |parts[i].mesh.vertices|
        ensures Add(m.vertices[vo + k], origin) == Add(parts[i].mesh.vertices[k], parts[i].location)
      {
        assert m.vertices[vo + k] == mi.vertices[vo + k];
      }
      forall j | 0 <= j < |parts[i].mesh.faces|
        ensures m.faces[fo + j] == ShiftFace(parts[i].mesh.faces[j], vo)
      {
        assert m.faces[fo + j] == mi.faces[fo + j];
      }
    }
  }

  /** `create_combined_object`: the parts joined in the frame of the first
      one, whose location the result takes. An empty list has no first
      object and is refused. */
  function CreateCombinedObject(parts: seq<Part>): (r: Option<Part>)
    ensures r.Some? <==> |parts| > 0
    ensures r.Some? ==>
      && r.value.location == parts[0].location
      && |r.value.mesh.vertices| == VertexTotal(parts) && |r.value.mesh.faces| == FaceTotal(parts)
      && (AllWellFormed(parts) ==> WellFormed(r.value.mesh))
  {
    if |parts| == 0 then None
    else Some(Part(parts[0].location, Combine(parts, parts[0].location)))
  }

  /** The first part keeps its vertices and faces unchanged at the front of
      the joined mesh. */
  lemma CombineKeepsFirst(parts: seq<Part>, k: nat, j: nat)
    requires |parts| > 0
    requires k < |parts[0].mesh.vertices| && j < |parts[0].mesh.faces|
    ensures var m := CreateCombinedObject(parts).value.mesh;
      k < |m.vertices| && j < |m.faces|
      && m.vertices[k] == parts[0].mesh.vertices[k]
      && m.faces[j] == parts[0].mesh.faces[j]
  {
    var origin := parts[0].location;
    CombinePlacesPart(parts, origin, 0);
    assert parts[..0] == [];
    var m := Combine(parts, origin);
    assert Add(m.vertices[k], origin) == Add(parts[0].mesh.vertices[k], origin);
    var f := parts[0].mesh.faces[j];
    assert ShiftFace(f, 0) == f;
  }
}
