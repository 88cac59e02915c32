/** The oloid generator: two circles of the same radius in perpendicular
    planes, each through the other's centre, whose convex hull is the
    oloid; the seams are marked along the two circles and along one edge
    from the leftmost vertex.

    The convex hull, triangulation, seam marking and UV unwrap are Blender
    operations and are not part of this model; `cos`, `sin` and `sqrt` are
    parameters. */
module Oloid {
  import opened Geometry

  // ---------------------------------------------------------------------------
  // rotate_vertex_90_degrees_x_axis

  /** A quarter turn about the x axis: (x, y, z) to (x, -z, y). */
  function RotateX90(v: Vec3): (r: Vec3)
    ensures r.x == v.x
    ensures r.y * r.y + r.z * r.z == v.y * v.y + v.z * v.z
  {
    Vec3(v.x, -v.z, v.y)
  }

  /** Four quarter turns are the identity, two are the half turn
      (x, -y, -z), and the quarter turn keeps dot products, so it is a
      rotation. */
  lemma RotateX90Order(v: Vec3, w: Vec3)
    ensures RotateX90(RotateX90(v)) == Vec3(v.x, -v.y, -v.z)
    ensures RotateX90(RotateX90(RotateX90(RotateX90(v)))) == v
    ensures Dot(RotateX90(v), RotateX90(w)) == Dot(v, w)
  {
  }

  // ---------------------------------------------------------------------------
  // create_circle_vertices

  /** The angle of point `i` of `n`, starting at `start` degrees. */
  function CircleAngle(pi: real, i: nat, n: nat, start: real): real
    requires n > 0
  {
    2.0 * pi * i as real / n as real + start * pi / 180.0
  }

  /** `create_circle_vertices`: `n` points on the circle of `radius` about
      `center`, counter-clockwise from `start` degrees, all at z = 0. */
  function CircleVertices(cos: real -> real, sin: real -> real, pi: real,
                          center: Vec3, radius: real, n: nat, start: real): (r: seq<Vec3>)
    ensures |r| == n
    ensures forall i :: 0 <= i < n ==> r[i].z == 0.0
    ensures forall i :: 0 <= i < n ==>
      r[i].x - center.x == radius * cos(CircleAngle(pi, i, n, start))
      && r[i].y - center.y == radius * sin(CircleAngle(pi, i, n, start))
  {
    seq(n, i requires 0 <= i < n =>
      Vec3(center.x + radius * cos(CircleAngle(pi, i, n, start)),
           center.y + radius * sin(CircleAngle(pi, i, n, start)), 0.0))
  }

  /** With a true cosine and sine every point lies `radius` from the
      centre's axis: its squared distance in the plane is `radius^2`. */
  lemma CircleVerticesOnCircle(cos: real -> real, sin: real -> real, pi: real,
                               center: Vec3, radius: real, n: nat, start: real, i: nat)
    requires Pythagorean(cos, sin) && i < n
    ensures var v := CircleVertices(cos, sin, pi, center, radius, n, start)[i];
      Dot(Sub(v, Vec3(center.x, center.y, 0.0)), Sub(v, Vec3(center.x, center.y, 0.0))) == Square(radius)
  {
    var a := CircleAngle(pi, i, n, start);
    var c, s := cos(a), sin(a);
    assert c * c + s * s == 1.0;
    assert (radius * c) * (radius * c) + (radius * s) * (radius * s) == radius * radius * (c * c + s * s);
  }

  // ---------------------------------------------------------------------------
  // execute

  /** The second circle: points started at 0 degrees, each turned a
      quarter about x and moved `radius` along x. */
  function SecondCircle(circle: seq<Vec3>, radius: real): (r: seq<Vec3>)
    ensures |r| == |circle|
    ensures forall i :: 0 <= i < |circle| ==> r[i] == Add(RotateX90(circle[i]), Vec3(radius, 0.0, 0.0))
  {
    seq(|circle|, i requires 0 <= i < |circle| => Add(RotateX90(circle[i]), Vec3(radius, 0.0, 0.0)))
  }

  /** The oloid's vertices before the convex hull: the first circle (from
      180 degrees, about the origin in the plane z = 0) followed by the
      second. */
  function OloidVertices(cos: real -> real, sin: real -> real, pi: real, radius: real, n: nat): (r: seq<Vec3>)
    ensures |r| == 2 * n
  {
    CircleVertices(cos, sin, pi, Origin, radius, n, 180.0)
    + SecondCircle(CircleVertices(cos, sin, pi, Origin, radius, n, 0.0), radius)
  }

  /** `distance_to_point`. */
  function Distance(sqrt: real -> real, v: Vec3, o: Vec3): real {
    Length(sqrt, Sub(v, o))
  }

  /** A vertex that the first seam pass accepts: in the plane z = 0 and no
      further than `radius * 1.001` from the origin. */
  predicate FirstSeamVertex(sqrt: real -> real, v: Vec3, radius: real) {
    Abs(v.z) < 0.000000001 && Distance(sqrt, v, Origin) <= radius * 1.001
  }

  /** A vertex that the second seam pass accepts: in the plane y = 0 and no
      further than `radius * 1.001` from `(radius, 0, 0)`. */
  predicate SecondSeamVertex(sqrt: real -> real, v: Vec3, radius: real) {
    Abs(v.y) < 0.000000001 && Distance(sqrt, v, Vec3(radius, 0.0, 0.0)) <= radius * 1.001
  }

  /** The two circles are what the seam passes look for: every vertex of
      the first lies `radius` from the origin in the plane z = 0, every
      vertex of the second `radius` from `(radius, 0, 0)` in the plane
      y = 0, so both pass the test of their own seam. */
  lemma CirclesOnSeams(cos: real -> real, sin: real -> real, sqrt: real -> real, pi: real,
                       radius: real, n: nat, i: nat)
    requires Pythagorean(cos, sin) && IsSqrt(sqrt) && radius >= 0.0 && i < n
    ensures var vs := OloidVertices(cos, sin, pi, radius, n);
      && Distance(sqrt, vs[i], Origin) == radius && FirstSeamVertex(sqrt, vs[i], radius)
      && Distance(sqrt, vs[n + i], Vec3(radius, 0.0, 0.0)) == radius && SecondSeamVertex(sqrt, vs[n + i], radius)
  {
    var vs := OloidVertices(cos, sin, pi, radius, n);
    var c1 := CircleVertices(cos, sin, pi, Origin, radius, n, 180.0);
    var c0 := CircleVertices(cos, sin, pi, Origin, radius, n, 0.0);
    assert vs[i] == c1[i];
    CircleVerticesOnCircle(cos, sin, pi, Origin, radius, n, 180.0, i);
    assert Sub(vs[i], Origin) == Sub(c1[i], Vec3(0.0, 0.0, 0.0));
    SqrtOfSquare(sqrt, radius);
    assert vs[n + i] == Add(RotateX90(c0[i]), Vec3(radius, 0.0, 0.0));
    CircleVerticesOnCircle(cos, sin, pi, Origin, radius, n, 0.0, i);
    var d := Sub(vs[n + i], Vec3(radius, 0.0, 0.0));
    assert d == RotateX90(Sub(c0[i], Vec3(0.0, 0.0, 0.0)));
    assert Dot(d, d) == Square(radius) by {
      RotateX90Order(Sub(c0[i], Vec3(0.0, 0.0, 0.0)), Sub(c0[i], Vec3(0.0, 0.0, 0.0)));
    }
  }

  /** Each circle passes through the other's centre: the second circle's
      centre `(radius, 0, 0)` lies in the first circle's plane at distance
      `radius` from its centre, and the origin lies in the second circle's
      plane at distance `radius` from its centre. This is what makes the
      convex hull an oloid. */
  lemma CentresOnOtherCircle(sqrt: real -> real, radius: real)
    requires IsSqrt(sqrt) && radius >= 0.0
    ensures FirstSeamVertex(sqrt, Vec3(radius, 0.0, 0.0), radius)
    ensures Distance(sqrt, Vec3(radius, 0.0, 0.0), Origin) == radius
    ensures SecondSeamVertex(sqrt, Origin, radius)
    ensures Distance(sqrt, Origin, Vec3(radius, 0.0, 0.0)) == radius
  {
    SqrtOfSquare(sqrt, radius);
    assert Dot(Sub(Vec3(radius, 0.0, 0.0), Origin), Sub(Vec3(radius, 0.0, 0.0), Origin)) == Square(radius);
    assert Dot(Sub(Origin, Vec3(radius, 0.0, 0.0)), Sub(Origin, Vec3(radius, 0.0, 0.0))) == Square(radius);
  }

  // ---------------------------------------------------------------------------
  // farthest_x_vertex

  /** `farthest_x_vertex`: the vertex with the smallest negative x, the
      first of them on a tie, or none when no vertex has a negative x. */
  method FarthestX(vs: seq<Vec3>) returns (r: Option<Vec3>)
    ensures r.None? <==> forall k :: 0 <= k < |vs| ==> vs[k].x >= 0.0
    ensures r.Some? ==> exists k :: 0 <= k < |vs| && vs[k] == r.value && FirstLeftmost(vs, k)
  {
    var best := 0.0;
    r := None;
    ghost var at := 0;
    var i := 0;
    while i < |vs|
      invariant 0 <= i <= |vs|
      invariant r.None? ==> best == 0.0 && forall j :: 0 <= j < i ==> vs[j].x >= 0.0
      invariant r.Some? ==> at < i && vs[at] == r.value && best == r.value.x < 0.0
      invariant r.Some? ==> forall j :: 0 <= j < i ==> vs[j].x >= best
      invariant r.Some? ==> forall j :: 0 <= j < at ==> vs[j].x > best
    {
      if vs[i].x < best {
        best := vs[i].x;
        r := Some(vs[i]);
        at := i;
      }
      i := i + 1;
    }
    if r.Some? {
      assert FirstLeftmost(vs, at);
    }
  }

  /** Vertex `k` has a negative x, no vertex has a smaller one, and every
      vertex before it has a larger one. */
  predicate FirstLeftmost(vs: seq<Vec3>, k: nat)
    requires k < |vs|
  {
    && vs[k].x < 0.0
    && (forall j :: 0 <= j < |vs| ==> vs[j].x >= vs[k].x)
    && (forall j :: 0 <= j < k ==> vs[j].x > vs[k].x)
  }

  /** At most one vertex is the first leftmost one, so the method's result
      is determined by its contract. */
  lemma FirstLeftmostUnique(vs: seq<Vec3>, k: nat, m: nat)
    requires k < |vs| && m < |vs| && FirstLeftmost(vs, k) && FirstLeftmost(vs, m)
    ensures k == m
  {
  }
}
