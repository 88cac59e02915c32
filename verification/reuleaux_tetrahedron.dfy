/** The exact layer of the Reuleaux tetrahedron generator: the regular
    tetrahedron with its index tables, the midpoint subdivision of its faces,
    the edge vertex count, the nearest-vertex search used to stitch the edge
    arcs to the faces, and the normalisation of an arc's angular span.

    The square roots of 3 and 6 and the value of 2*pi are parameters; the
    positions on the spheres and arcs are not modelled. */
module ReuleauxTetrahedron {
  import opened Geometry

  // ---------------------------------------------------------------------------
  // calculate_subdivided_edge_vertex_count

  function Pow(b: nat, n: nat): (r: nat)
    ensures r >= 1 || b == 0
  {
    if n == 0 then 1 else b * Pow(b, n - 1)
  }

  /** Python's `//` on integers: the quotient rounded toward minus infinity,
      for either sign of the divisor. */
  function FloorDiv(a: int, b: int): (q: int)
    requires b != 0
    ensures b > 0 ==> q * b <= a < q * b + b
    ensures b < 0 ==> q * b + b < a <= q * b
  {
    if b > 0 || a % b == 0 then
      FloorDivEuclid(a, b);
      a / b
    else
      FloorDivEuclid(a, b);
      a / b - 1
  }

  lemma FloorDivEuclid(a: int, b: int)
    requires b != 0
    ensures b > 0 ==> (a / b) * b <= a < (a / b) * b + b
    ensures b < 0 && a % b == 0 ==> (a / b) * b == a
    ensures b < 0 && a % b != 0 ==> (a / b - 1) * b + b < a <= (a / b - 1) * b
  {
    var q, r := a / b, a % b;
    assert a == b * q + r && 0 <= r;
    if b < 0 {
      assert r < -b;
      assert (q - 1) * b == q * b - b;
    }
  }

  /** The number of vertices on one edge of a triangle after `n` rounds of
      midpoint subdivision; a negative count of rounds raises ValueError. */
  function EdgeVertexCount(n: int): (r: Result<int>)
    ensures n < 0 <==> r.Err?
  {
    if n < 0 then Err("n must be a non-negative integer")
    else Ok(3 + FloorDiv(2 * (1 - Pow(2, n)), 1 - 2))
  }

  /** The geometric-series formula is the closed form 2^(n+1) + 1, which the
      documented examples 0 -> 3 and 2 -> 9 instantiate. */
  lemma EdgeVertexCountClosedForm(n: int)
    ensures n >= 0 ==> EdgeVertexCount(n) == Ok(Pow(2, n + 1) + 1)
    ensures EdgeVertexCount(0) == Ok(3) && EdgeVertexCount(2) == Ok(9)
  {
    if n >= 0 {
      var a := 2 * (1 - Pow(2, n));
      var q := FloorDiv(a, -1);
      assert q * -1 - 1 < a <= q * -1;
      assert q == -a;
    }
    var q0 := FloorDiv(2 * (1 - Pow(2, 0)), -1);
    assert q0 * -1 - 1 < 0 <= q0 * -1;
    var q2 := FloorDiv(2 * (1 - Pow(2, 2)), -1);
    assert q2 * -1 - 1 < -6 <= q2 * -1;
  }

  /** One more subdivision round doubles the segments of an edge:
      count(n + 1) - 1 == 2 * (count(n) - 1). */
  lemma EdgeSegmentsDouble(n: nat)
    ensures EdgeVertexCount(n + 1).Ok? && EdgeVertexCount(n).Ok?
    ensures EdgeVertexCount(n + 1).value - 1 == 2 * (EdgeVertexCount(n).value - 1)
  {
    EdgeVertexCountClosedForm(n);
    EdgeVertexCountClosedForm(n + 1);
  }

  // ---------------------------------------------------------------------------
  // create_regular_tetrahedron

  /** The tetrahedron and its index tables (`TetrahedronIndices`). */
  datatype Tetrahedron = Tetrahedron(
    vertices: seq<Vec3>,
    faces: seq<Face>,
    opposite: seq<nat>,
    sphereCenters: seq<(nat, nat)>,
    arcEnds: seq<(nat, nat)>,
    adjoinFaces: seq<(nat, nat)>)

  /** The four corners before the origin offset: an equilateral base in the
      XY plane and the apex above its centroid. */
  function RawCorners(radius: real, rt3: real, rt6: real): seq<Vec3> {
    [Vec3(0.0, 0.0, 0.0),
     Vec3(radius, 0.0, 0.0),
     Vec3(radius / 2.0, rt3 / 2.0 * radius, 0.0),
     Vec3(radius / 2.0, rt3 / 6.0 * radius, rt6 / 3.0 * radius)]
  }

  predicate KnownOrigin(origin: string) {
    origin == "center" || origin == "bottom" || origin == "apex"
  }

  /** The point moved to the mesh origin for each choice of origin. */
  function OriginOffset(vs: seq<Vec3>, origin: string): Vec3
    requires |vs| == 4
  {
    if origin == "center" then Scale(0.25, Add(Add(Add(vs[0], vs[1]), vs[2]), vs[3]))
    else if origin == "bottom" then Scale(1.0 / 3.0, Add(Add(vs[0], vs[1]), vs[2]))
    else if origin == "apex" then vs[3]
    else Origin
  }

  function CreateRegularTetrahedron(radius: real, origin: string, rt3: real, rt6: real): (r: Result<Tetrahedron>)
    ensures r.Ok? <==> KnownOrigin(origin)
    ensures r.Ok? ==> |r.value.vertices| == 4 && HasIndexTables(r.value)
  {
    if !KnownOrigin(origin) then Err("origin must be one of 'center', 'bottom' or 'apex'")
    else
      var raw := RawCorners(radius, rt3, rt6);
      var offset := OriginOffset(raw, origin);
      Ok(Tetrahedron(
        [Sub(raw[0], offset), Sub(raw[1], offset), Sub(raw[2], offset), Sub(raw[3], offset)],
        [[0, 1, 2], [0, 3, 1], [1, 3, 2], [2, 3, 0]],
        [3, 2, 0, 1],
        [(2, 1), (2, 0), (3, 2), (3, 1), (0, 1), (3, 0)],
        [(3, 0), (1, 3), (1, 0), (0, 2), (2, 3), (2, 1)],
        [(1, 3), (1, 2), (0, 1), (3, 0), (2, 3), (0, 2)]))
  }

  /** The offset puts the chosen point at the origin: the apex, the centroid
      of the base, or the centroid of all four corners. */
  lemma OriginPlacement(radius: real, origin: string, rt3: real, rt6: real)
    requires KnownOrigin(origin)
    ensures var vs := CreateRegularTetrahedron(radius, origin, rt3, rt6).value.vertices;
      && (origin == "apex" ==> vs[3] == Origin)
      && (origin == "bottom" ==> Add(Add(vs[0], vs[1]), vs[2]) == Origin)
      && (origin == "center" ==> Add(Add(Add(vs[0], vs[1]), vs[2]), vs[3]) == Origin)
  {
  }

  /** Whatever the origin, the offset moves every corner by the same vector,
      so the shape is the raw tetrahedron's. */
  lemma OriginKeepsShape(radius: real, origin: string, rt3: real, rt6: real, i: nat, j: nat)
    requires KnownOrigin(origin) && i < 4 && j < 4
    ensures var vs := CreateRegularTetrahedron(radius, origin, rt3, rt6).value.vertices;
      var raw := RawCorners(radius, rt3, rt6);
      Sub(vs[i], vs[j]) == Sub(raw[i], raw[j])
  {
  }

  /** Face `i` leaves out exactly its opposite vertex, the centre of the
      sphere that face is pushed onto. */
  predicate OppositeTableSound(t: Tetrahedron) {
    && |t.faces| == 4 && |t.opposite| == 4
    && forall i, v :: 0 <= i < 4 && 0 <= v < 4 ==> (v in t.faces[i] <==> v != t.opposite[i])
  }

  /** For edge `k`: the two sphere centres and the two arc endpoints are the
      four corners, each once; both faces adjoining the edge contain both
      endpoints, and their opposite vertices are the two sphere centres. */
  predicate EdgeTableSound(t: Tetrahedron, k: nat)
    requires OppositeTableSound(t)
  {
    && k < |t.sphereCenters| && k < |t.arcEnds| && k < |t.adjoinFaces|
    && var c, e, a := t.sphereCenters[k], t.arcEnds[k], t.adjoinFaces[k];
       && {c.0, c.1, e.0, e.1} == {0, 1, 2, 3}
       && c.0 != c.1 && e.0 != e.1
       && a.0 < 4 && a.1 < 4 && a.0 != a.1
       && e.0 in t.faces[a.0] && e.1 in t.faces[a.0]
       && e.0 in t.faces[a.1] && e.1 in t.faces[a.1]
       && {t.opposite[a.0], t.opposite[a.1]} == {c.0, c.1}
  }

  lemma TablesSound(radius: real, origin: string, rt3: real, rt6: real)
    requires KnownOrigin(origin)
    ensures var t := CreateRegularTetrahedron(radius, origin, rt3, rt6).value;
      && OppositeTableSound(t)
      && |t.sphereCenters| == 6
      && forall k :: 0 <= k < 6 ==> EdgeTableSound(t, k)
  {
    var t := CreateRegularTetrahedron(radius, origin, rt3, rt6).value;
    OppositeTableHolds(t);
    forall k | 0 <= k < 6 ensures EdgeTableSound(t, k) {
      EdgeTableHolds(t, k);
    }
  }

  /** The four tables of `create_regular_tetrahedron`, whatever the
      vertices. */
  predicate HasIndexTables(t: Tetrahedron) {
    && t.faces == [[0, 1, 2], [0, 3, 1], [1, 3, 2], [2, 3, 0]]
    && t.opposite == [3, 2, 0, 1]
    && t.sphereCenters == [(2, 1), (2, 0), (3, 2), (3, 1), (0, 1), (3, 0)]
    && t.arcEnds == [(3, 0), (1, 3), (1, 0), (0, 2), (2, 3), (2, 1)]
    && t.adjoinFaces == [(1, 3), (1, 2), (0, 1), (3, 0), (2, 3), (0, 2)]
  }

  lemma OppositeTableHolds(t: Tetrahedron)
    requires HasIndexTables(t)
    ensures OppositeTableSound(t)
  {
    forall i, v | 0 <= i < 4 && 0 <= v < 4
      ensures v in t.faces[i] <==> v != t.opposite[i]
    {
    }
  }

  lemma EdgeTableHolds(t: Tetrahedron, k: nat)
    requires HasIndexTables(t) && k < 6
    ensures OppositeTableSound(t) && EdgeTableSound(t, k)
  {
    OppositeTableHolds(t);
    var c, e, a := t.sphereCenters[k], t.arcEnds[k], t.adjoinFaces[k];
    assert {c.0, c.1, e.0, e.1} == {0, 1, 2, 3};
    assert {t.opposite[a.0], t.opposite[a.1]} == {c.0, c.1};
  }

  // ---------------------------------------------------------------------------
  // subdivide_triangle

  /** Grown vertex list, the indices of the subdivided triangle (three old,
      three new) and its new faces. */
  datatype Split = Split(vertices: seq<Vec3>, indices: seq<nat>, faces: seq<Face>)

  /** `(a + b) / 2`. */
  function Midpoint(a: Vec3, b: Vec3): (m: Vec3)
    ensures Add(m, m) == Add(a, b)
  {
    Scale(0.5, Add(a, b))
  }

  predicate Triangle(f: Face) { |f| == 3 }

  predicate Triangles(fs: seq<Face>) {
    forall i :: 0 <= i < |fs| ==> Triangle(fs[i])
  }

  function SubdivideTriangle(vs: seq<Vec3>, f: Face): (r: Split)
    requires Triangle(f) && FaceInBounds(f, |vs|)
    ensures |r.vertices| == |vs| + 3 && r.vertices[..|vs|] == vs
    ensures r.indices == f + [|vs|, |vs| + 1, |vs| + 2]
    ensures |r.faces| == 4 && Triangles(r.faces) && FacesInBounds(r.faces, |r.vertices|)
    ensures Add(r.vertices[|vs|], r.vertices[|vs|]) == Add(vs[f[0]], vs[f[1]])
    ensures Add(r.vertices[|vs| + 1], r.vertices[|vs| + 1]) == Add(vs[f[1]], vs[f[2]])
    ensures Add(r.vertices[|vs| + 2], r.vertices[|vs| + 2]) == Add(vs[f[2]], vs[f[0]])
  {
    var n := |vs|;
    var vs' := vs + [Midpoint(vs[f[0]], vs[f[1]]), Midpoint(vs[f[1]], vs[f[2]]), Midpoint(vs[f[2]], vs[f[0]])];
    var i0, i1, i2 := n, n + 1, n + 2;
    Split(vs', [f[0], f[1], f[2], i0, i1, i2],
      [[i0, i1, i2], [f[0], i0, i2], [i0, f[1], i1], [i2, i1, f[2]]])
  }

  /** The normal of a triangle (twice its area, oriented). */
  function Normal(vs: seq<Vec3>, f: Face): Vec3
    requires Triangle(f) && FaceInBounds(f, |vs|)
  {
    Cross(Sub(vs[f[1]], vs[f[0]]), Sub(vs[f[2]], vs[f[0]]))
  }

  /** Each of the four pieces keeps the winding of the triangle it came from
      and has a quarter of its area: the subdivision neither flips nor
      overlaps faces. */
  lemma SubdivisionQuarters(vs: seq<Vec3>, f: Face, g: nat)
    requires Triangle(f) && FaceInBounds(f, |vs|) && g < 4
    ensures var r := SubdivideTriangle(vs, f);
      Normal(r.vertices, r.faces[g]) == Scale(0.25, Normal(vs, f))
  {
    var r := SubdivideTriangle(vs, f);
    var a, b, c := vs[f[0]], vs[f[1]], vs[f[2]];
    var n := |vs|;
    assert r.vertices[f[0]] == a && r.vertices[f[1]] == b && r.vertices[f[2]] == c;
    var m01, m12, m20 := r.vertices[n], r.vertices[n + 1], r.vertices[n + 2];
    var u, w := Sub(b, a), Sub(c, a);
    if g == 0 {
      HalfEdges(Sub(m12, m01), Sub(m20, m01), Sub(c, a), Sub(c, b), a, b, c, m01, m12, m20, 0);
      QuarterCross(Sub(c, a), Sub(c, b), Sub(m12, m01), Sub(m20, m01));
      CrossTwist(u, w);
    } else if g == 1 {
      HalfEdges(Sub(m01, a), Sub(m20, a), u, w, a, b, c, m01, m12, m20, 1);
      QuarterCross(u, w, Sub(m01, a), Sub(m20, a));
    } else if g == 2 {
      HalfEdges(Sub(b, m01), Sub(m12, m01), u, w, a, b, c, m01, m12, m20, 2);
      QuarterCross(u, w, Sub(b, m01), Sub(m12, m01));
    } else {
      HalfEdges(Sub(m12, m20), Sub(c, m20), u, w, a, b, c, m01, m12, m20, 3);
      QuarterCross(u, w, Sub(m12, m20), Sub(c, m20));
    }
  }

  /** The two edge vectors of piece `g` are halves of two edge vectors of
      the whole triangle. */
  lemma HalfEdges(p: Vec3, q: Vec3, u: Vec3, w: Vec3, a: Vec3, b: Vec3, c: Vec3,
                  m01: Vec3, m12: Vec3, m20: Vec3, g: nat)
    requires Add(m01, m01) == Add(a, b) && Add(m12, m12) == Add(b, c) && Add(m20, m20) == Add(c, a)
    requires g == 0 ==> p == Sub(m12, m01) && q == Sub(m20, m01) && u == Sub(c, a) && w == Sub(c, b)
    requires g == 1 ==> p == Sub(m01, a) && q == Sub(m20, a) && u == Sub(b, a) && w == Sub(c, a)
    requires g == 2 ==> p == Sub(b, m01) && q == Sub(m12, m01) && u == Sub(b, a) && w == Sub(c, a)
    requires g == 3 ==> p == Sub(m12, m20) && q == Sub(c, m20) && u == Sub(b, a) && w == Sub(c, a)
    requires g < 4
    ensures p == Scale(0.5, u) && q == Scale(0.5, w)
  {
  }

  lemma QuarterCross(u: Vec3, w: Vec3, p: Vec3, q: Vec3)
    requires p == Scale(0.5, u) && q == Scale(0.5, w)
    ensures Cross(p, q) == Scale(0.25, Cross(u, w))
  {
    assert (0.5 * u.y) * (0.5 * w.z) - (0.5 * u.z) * (0.5 * w.y) == 0.25 * (u.y * w.z - u.z * w.y);
    assert (0.5 * u.z) * (0.5 * w.x) - (0.5 * u.x) * (0.5 * w.z) == 0.25 * (u.z * w.x - u.x * w.z);
    assert (0.5 * u.x) * (0.5 * w.y) - (0.5 * u.y) * (0.5 * w.x) == 0.25 * (u.x * w.y - u.y * w.x);
  }

  /** (c - a) x (c - b) == (b - a) x (c - a). */
  lemma CrossTwist(u: Vec3, w: Vec3)
    ensures Cross(w, Sub(w, u)) == Cross(u, w)
  {
  }

  // ---------------------------------------------------------------------------
  // The subdivision loop of create_reuleaux_tetrahedron

  /** One round: every face of the list subdivided in order, the indices of
      each subdivided triangle collected and the new faces concatenated. */
  function SubdivideAll(vs: seq<Vec3>, fs: seq<Face>): (r: Split)
    requires Triangles(fs) && FacesInBounds(fs, |vs|)
    ensures |r.vertices| == |vs| + 3 * |fs| && r.vertices[..|vs|] == vs
    ensures |r.faces| == 4 * |fs| && Triangles(r.faces) && FacesInBounds(r.faces, |r.vertices|)
    ensures |r.indices| == 6 * |fs|
    ensures forall k :: 0 <= k < |r.indices| ==> r.indices[k] < |r.vertices|
  {
    if |fs| == 0 then Split(vs, [], [])
    else
      var init := fs[..|fs| - 1];
      assert Triangles(init) && FacesInBounds(init, |vs|) by {
        forall i | 0 <= i < |init| ensures Triangle(init[i]) && FaceInBounds(init[i], |vs|) {
          assert init[i] == fs[i];
        }
      }
      var prev := SubdivideAll(vs, init);
      var f := fs[|fs| - 1];
      assert Triangle(f) && FaceInBounds(f, |vs|);
      PrefixBounds(f, vs, prev.vertices);
      var s := SubdivideTriangle(prev.vertices, f);
      FacesInBoundsGrow(prev.faces, |prev.vertices|, |s.vertices|);
      FacesInBoundsConcat(prev.faces, s.faces, |s.vertices|);
      TrianglesConcat(prev.faces, s.faces);
      PrefixChain(vs, prev.vertices, s.vertices);
      Split(s.vertices, prev.indices + s.indices, prev.faces + s.faces)
  }

  lemma PrefixBounds(f: Face, vs: seq<Vec3>, ws: seq<Vec3>)
    requires FaceInBounds(f, |vs|) && |vs| <= |ws|
    ensures FaceInBounds(f, |ws|)
  {
  }

  lemma PrefixChain(a: seq<Vec3>, b: seq<Vec3>, c: seq<Vec3>)
    requires |a| <= |b| <= |c| && b[..|a|] == a && c[..|b|] == b
    ensures c[..|a|] == a
  {
    assert c[..|a|] == c[..|b|][..|a|];
  }

  lemma TrianglesConcat(a: seq<Face>, b: seq<Face>)
    requires Triangles(a) && Triangles(b)
    ensures Triangles(a + b)
  {
    forall i | 0 <= i < |a + b| ensures Triangle((a + b)[i]) {
      if i < |a| { assert (a + b)[i] == a[i]; } else { assert (a + b)[i] == b[i - |a|]; }
    }
  }

  /** Faces after `k` rounds from `n` triangles, counted round by round. */
  function FacesAfter(n: nat, k: nat): nat {
    if k == 0 then n else 4 * FacesAfter(n, k - 1)
  }

  /** Vertices after `k` rounds, counted round by round: each triangle of a
      round adds three midpoints. */
  function VerticesAfter(v0: nat, n: nat, k: nat): nat {
    if k == 0 then v0 else VerticesAfter(v0, n, k - 1) + 3 * FacesAfter(n, k - 1)
  }

  /** `k` rounds of subdivision starting from the faces `fs`: the final
      faces, the grown vertex list and every index collected on the way. */
  function Rounds(vs: seq<Vec3>, fs: seq<Face>, k: nat): (r: Split)
    requires Triangles(fs) && FacesInBounds(fs, |vs|)
    ensures |r.vertices| >= |vs| && r.vertices[..|vs|] == vs
    ensures |r.vertices| == VerticesAfter(|vs|, |fs|, k)
    ensures |r.faces| == FacesAfter(|fs|, k)
    ensures Triangles(r.faces) && FacesInBounds(r.faces, |r.vertices|)
    ensures forall i :: 0 <= i < |r.indices| ==> r.indices[i] < |r.vertices|
  {
    if k == 0 then Split(vs, [], fs)
    else
      var prev := Rounds(vs, fs, k - 1);
      var s := SubdivideAll(prev.vertices, prev.faces);
      PrefixChain(vs, prev.vertices, s.vertices);
      Split(s.vertices, prev.indices + s.indices, s.faces)
  }

  /** The round-by-round counts in closed form: `n * 4^k` faces and
      `n * (4^k - 1)` new vertices, so one face of the tetrahedron becomes
      4^k faces. */
  lemma {:induction false} CountsClosedForm(v0: nat, n: nat, k: nat)
    ensures FacesAfter(n, k) == n * Pow(4, k)
    ensures VerticesAfter(v0, n, k) == v0 + n * (Pow(4, k) - 1)
  {
    if k > 0 {
      CountsClosedForm(v0, n, k - 1);
      RoundArithmetic(n, Pow(4, k - 1), Pow(4, k), v0,
        VerticesAfter(v0, n, k - 1), FacesAfter(n, k - 1), VerticesAfter(v0, n, k), FacesAfter(n, k));
    }
  }

  lemma RoundArithmetic(n: nat, p: nat, p': nat, v0: nat, v: nat, f: nat, v': nat, f': nat)
    requires p >= 1 && p' == 4 * p
    requires f == n * p && v == v0 + n * (p - 1)
    requires f' == 4 * f && v' == v + 3 * f
    ensures f' == n * p' && v' == v0 + n * (p' - 1)
  {
  }

  // ---------------------------------------------------------------------------
  // find_nearest_vertex

  /** The distance from vertex `i` to the target under a given square root. */
  function Distance(sqrt: real -> real, vs: seq<Vec3>, i: nat, target: Vec3): real
    requires i < |vs|
  {
    Length(sqrt, Sub(vs[i], target))
  }

  predicate IndicesInBounds(indices: seq<nat>, n: nat) {
    forall k :: 0 <= k < |indices| ==> indices[k] < n
  }

  /** The member of `indices` nearest to `target` (the first on ties), or -1
      when `indices` is empty. */
  method FindNearestVertex(sqrt: real -> real, vs: seq<Vec3>, indices: seq<nat>, target: Vec3)
    returns (r: int)
    requires IndicesInBounds(indices, |vs|)
    ensures r == -1 <==> |indices| == 0
    ensures r != -1 ==> exists k :: 0 <= k < |indices| && indices[k] == r && NearestAt(sqrt, vs, indices, target, k)
  {
    r := -1;
    var best: real := 0.0;
    var at: nat := 0;
    for j := 0 to |indices|
      invariant r == -1 <==> j == 0
      invariant r != -1 ==> at < j && indices[at] == r && best == Distance(sqrt, vs, r, target)
      invariant r != -1 ==> forall m :: 0 <= m < at ==> Distance(sqrt, vs, indices[m], target) > best
      invariant r != -1 ==> forall m :: at <= m < j ==> best <= Distance(sqrt, vs, indices[m], target)
    {
      var d := Distance(sqrt, vs, indices[j], target);
      if r == -1 || d < best {
        r, best, at := indices[j], d, j;
      }
    }
    if r != -1 {
      assert NearestAt(sqrt, vs, indices, target, at);
    }
  }

  /** Position `k` holds a nearest member of `indices`, and every earlier
      position is strictly farther. */
  predicate NearestAt(sqrt: real -> real, vs: seq<Vec3>, indices: seq<nat>, target: Vec3, k: nat)
    requires IndicesInBounds(indices, |vs|) && k < |indices|
  {
    && (forall m :: 0 <= m < k ==> Distance(sqrt, vs, indices[m], target) > Distance(sqrt, vs, indices[k], target))
    && (forall m :: k <= m < |indices| ==> Distance(sqrt, vs, indices[k], target) <= Distance(sqrt, vs, indices[m], target))
  }

  // ---------------------------------------------------------------------------
  // Angular span in sphere_intersection

  predicate IsWhole(a: real) { a == a.Floor as real }

  /** The counter-clockwise sweep from `start` to `end`: `(end - start) % 2pi`,
      with a zero sweep turned into a full turn. */
  function ArcSpan(start: real, end: real, twoPi: real): (r: real)
    requires twoPi > 0.0
    ensures 0.0 < r <= twoPi
    ensures IsWhole((r - (end - start)) / twoPi)
    ensures r == twoPi <==> IsWhole((end - start) / twoPi)
  {
    var d := PyMod(end - start, twoPi);
    SpanWhole(end - start, twoPi);
    if d <= 0.0 then d + twoPi else d
  }

  /** Python's float `%` leaves a remainder that differs from the dividend
      by a whole number of moduli, and is zero exactly for whole quotients. */
  lemma SpanWhole(a: real, m: real)
    requires m > 0.0
    ensures IsWhole((PyMod(a, m) - a) / m) && IsWhole((PyMod(a, m) + m - a) / m)
    ensures PyMod(a, m) == 0.0 <==> IsWhole(a / m)
  {
    var d := PyMod(a, m);
    var n := Floor(a / m);
    assert d == a - n as real * m;
    DivExact(d - a, (-n) as real, m);
    DivExact(d + m - a, (1 - n) as real, m);
    WholeInt(-n);
    WholeInt(1 - n);
    if IsWhole(a / m) {
      assert n as real == a / m;
      DivExact(a, n as real, m);
    } else if d == 0.0 {
      DivExact(a, n as real, m);
      WholeInt(n);
    }
  }

  lemma WholeInt(n: int)
    ensures IsWhole(n as real)
  {
  }

  lemma DivExact(x: real, k: real, m: real)
    requires m != 0.0 && (x == k * m || x / m == k)
    ensures x / m == k && x == k * m
  {
  }
}
