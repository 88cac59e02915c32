/** The Reuleaux polygon generator: which polygon vertices each arc is
    centred on and runs between, the arc's angular span and sample points,
    the vertex count and the single n-gon face, and the object's name.

    The polygon's own vertices come from a circle helper and are taken as
    given; `atan2`, `cos`, `sin` and `sqrt` are parameters. */
module ReuleauxPolygon {
  import opened Geometry
  import opened FaceTiling

  // ---------------------------------------------------------------------------
  // Arc index selection in execute

  /** Where an arc is centred: on a polygon vertex (odd side counts) or on
      the midpoint of the edge between two vertices (even side counts). */
  datatype Center = AtVertex(v: nat) | AtMidpoint(a: nat, b: nat)

  /** The arc drawn for side `i`: its centre and the indices of its start
      and end points among the polygon's vertices. */
  datatype ArcPlan = ArcPlan(center: Center, start: nat, end: nat)

  /** Arc `i` of an n-gon runs between the two vertices half-way round from
      `i`; it is centred on vertex `i` when n is odd and on the midpoint of
      edge (i, i+1) when n is even. */
  function PlanArc(n: nat, i: nat): (r: ArcPlan)
    requires i < n
    ensures r.start < n && r.end < n
    ensures r.center.AtVertex? <==> n % 2 == 1
  {
    var start := (i + n / 2) % n;
    var end := (i + n / 2 + 1) % n;
    if n % 2 == 1 then ArcPlan(AtVertex(i), start, end)
    else ArcPlan(AtMidpoint(i, (i + 1) % n), start, end)
  }

  /** Reduction modulo `n` of a number below `2 n`. */
  lemma Wrap(a: nat, n: nat)
    requires 0 < n && a < 2 * n
    ensures a % n == if a < n then a else a - n
  {
    if a >= n {
      assert a - n < n;
      assert a == (a - n) + n;
    }
  }

  /** The start and end indices of arc `i`, written without `%`. */
  lemma PlanArcIndices(n: nat, i: nat)
    requires n >= 3 && i < n
    ensures var p := PlanArc(n, i); var k := n / 2;
      && p.start == (if i + k < n then i + k else i + k - n)
      && p.end == (if i + k + 1 < n then i + k + 1 else i + k + 1 - n)
      && (i + 1) % n == (if i + 1 < n then i + 1 else 0)
  {
    var k := n / 2;
    assert k < n && k + 1 < n;
    Wrap(i + k, n);
    Wrap(i + k + 1, n);
    Wrap(i + 1, n);
  }

  /** With an odd number of sides, each arc joins two neighbouring vertices,
      neither of which is the arc's centre. */
  lemma OddArcOpposite(n: nat, i: nat)
    requires n >= 3 && n % 2 == 1 && i < n
    ensures var p := PlanArc(n, i);
      && p.center == AtVertex(i)
      && p.end == (p.start + 1) % n
      && p.start != i && p.end != i
  {
    PlanArcIndices(n, i);
    var p := PlanArc(n, i);
    Wrap(p.start + 1, n);
  }

  /** With an even number of sides (at least four), each arc joins two
      neighbouring vertices, and neither belongs to the edge the arc is
      centred on. */
  lemma EvenArcOpposite(n: nat, i: nat)
    requires n >= 4 && n % 2 == 0 && i < n
    ensures var p := PlanArc(n, i);
      && p.center == AtMidpoint(i, (i + 1) % n)
      && p.end == (p.start + 1) % n
      && p.start != i && p.end != i
      && p.start != (i + 1) % n && p.end != (i + 1) % n
  {
    PlanArcIndices(n, i);
    var p := PlanArc(n, i);
    Wrap(p.start + 1, n);
  }

  /** The point an arc is centred on. */
  function CenterPoint(polygon: seq<Vec3>, c: Center): (p: Vec3)
    requires c.AtVertex? ==> c.v < |polygon|
    requires c.AtMidpoint? ==> c.a < |polygon| && c.b < |polygon|
    ensures c.AtMidpoint? ==> Add(p, p) == Add(polygon[c.a], polygon[c.b])
  {
    match c
    case AtVertex(v) => polygon[v]
    case AtMidpoint(a, b) => Add(polygon[a], Scale(0.5, Sub(polygon[b], polygon[a])))
  }

  // ---------------------------------------------------------------------------
  // create_arc

  /** `math.atan2`, as far as the model needs it: its value lies in
      (-pi, pi]. */
  ghost predicate IsAtan2(atan2: (real, real) -> real, pi: real) {
    forall y: real, x: real :: -pi < atan2(y, x) <= pi
  }

  /** The counter-clockwise angle from the start direction to the end
      direction: the plain difference, or one more full turn when that
      difference is not positive. */
  function ArcSpan(angleStart: real, angleEnd: real, pi: real): (d: real)
    ensures d == angleEnd - angleStart || d == angleEnd - angleStart + 2.0 * pi
    ensures angleEnd - angleStart > -2.0 * pi ==> d > 0.0
  {
    var diff := angleEnd - angleStart;
    if diff <= 0.0 then diff + 2.0 * pi else diff
  }

  /** For two angles in (-pi, pi] the span is at most one full turn. */
  lemma ArcSpanInTurn(angleStart: real, angleEnd: real, pi: real)
    requires pi > 0.0
    requires -pi < angleStart <= pi && -pi < angleEnd <= pi
    ensures 0.0 < ArcSpan(angleStart, angleEnd, pi) <= 2.0 * pi
  {
  }

  /** The sample angles: `segments + 1` of them, evenly spaced, from the
      start angle to the start angle plus the span. */
  function ArcAngles(angleStart: real, span: real, segments: nat): (r: seq<real>)
    requires segments >= 1
    ensures |r| == segments + 1
    ensures r[0] == angleStart && r[segments] == angleStart + span
    ensures forall k :: 0 < k < |r| ==> r[k] - r[k - 1] == span / segments as real
  {
    var step := span / segments as real;
    var r := seq(segments + 1, k => angleStart + step * k as real);
    assert r[segments] == angleStart + span by {
      assert step * segments as real == span;
    }
    r
  }

  /** The trigonometric helpers `create_arc` calls. */
  datatype Trig = Trig(
    atan2: (real, real) -> real,
    cos: real -> real,
    sin: real -> real,
    sqrt: real -> real)

  /** The point at `angle` on the circle of `radius` around `center`, in
      the centre's plane. */
  function ArcPoint(t: Trig, center: Vec3, radius: real, angle: real): (p: Vec3)
    ensures p.z == center.z
  {
    Vec3(center.x + t.cos(angle) * radius, center.y + t.sin(angle) * radius, center.z)
  }

  /** The direction of `p` seen from `center`. */
  function AngleTo(t: Trig, center: Vec3, p: Vec3): real {
    t.atan2(p.y - center.y, p.x - center.x)
  }

  /** The points at the given angles on a circle around `center`. */
  function PointsAt(t: Trig, center: Vec3, radius: real, angles: seq<real>): (r: seq<Vec3>)
    ensures |r| == |angles|
    ensures forall k :: 0 <= k < |r| ==> r[k] == ArcPoint(t, center, radius, angles[k])
  {
    seq(|angles|, k requires 0 <= k < |angles| => ArcPoint(t, center, radius, angles[k]))
  }

  /** `segments + 1` points on the circle around `center` through `start`,
      from `start` counter-clockwise to the direction of `end`, all in the
      plane of the centre. */
  function CreateArc(t: Trig, pi: real, center: Vec3, start: Vec3, end: Vec3, segments: nat): (r: seq<Vec3>)
    requires segments >= 1
    ensures |r| == segments + 1
    ensures forall k :: 0 <= k < |r| ==> r[k].z == center.z
  {
    var a0 := AngleTo(t, center, start);
    var span := ArcSpan(a0, AngleTo(t, center, end), pi);
    PointsAt(t, center, Length(t.sqrt, Sub(start, center)), ArcAngles(a0, span, segments))
  }

  /** `atan2`, `cos`, `sin` and `sqrt` agree on polar coordinates: a vector
      in the plane is its length times the cosine and sine of its angle. */
  ghost predicate Polar(t: Trig) {
    forall v: Vec3 {:trigger t.atan2(v.y, v.x)} :: v.z == 0.0 ==>
      && t.cos(t.atan2(v.y, v.x)) * Length(t.sqrt, v) == v.x
      && t.sin(t.atan2(v.y, v.x)) * Length(t.sqrt, v) == v.y
  }

  /** The angle one full turn on from `a`. */
  function TurnOn(a: real, pi: real): real { a + 2.0 * pi }

  /** `cos` and `sin` repeat after a full turn. */
  ghost predicate FullTurn(t: Trig, pi: real) {
    forall a :: t.cos(TurnOn(a, pi)) == t.cos(a) && t.sin(TurnOn(a, pi)) == t.sin(a)
  }

  /** The point at a vector's own angle and length from the centre is the
      centre plus that vector. */
  lemma PolarPoint(t: Trig, center: Vec3, p: Vec3)
    requires Polar(t) && p.z == center.z
    ensures ArcPoint(t, center, Length(t.sqrt, Sub(p, center)), AngleTo(t, center, p)) == p
  {
    var u := Sub(p, center);
    assert t.cos(t.atan2(u.y, u.x)) * Length(t.sqrt, u) == u.x;
    assert t.sin(t.atan2(u.y, u.x)) * Length(t.sqrt, u) == u.y;
  }

  /** The first and last points of the arc: at the start angle, and at the
      start angle plus the span. */
  lemma CreateArcPoints(t: Trig, pi: real, center: Vec3, start: Vec3, end: Vec3, segments: nat)
    requires segments >= 1
    ensures var r := CreateArc(t, pi, center, start, end, segments);
      var a0 := AngleTo(t, center, start);
      var radius := Length(t.sqrt, Sub(start, center));
      && r[0] == ArcPoint(t, center, radius, a0)
      && r[segments] == ArcPoint(t, center, radius, a0 + ArcSpan(a0, AngleTo(t, center, end), pi))
  {
  }

  /** The arc starts exactly at `start` and, when `end` lies as far from the
      centre as `start`, ends exactly at `end`. */
  lemma CreateArcEnds(t: Trig, pi: real, center: Vec3, start: Vec3, end: Vec3, segments: nat)
    requires segments >= 1 && Polar(t) && FullTurn(t, pi)
    requires start.z == center.z && end.z == center.z
    ensures CreateArc(t, pi, center, start, end, segments)[0] == start
    ensures Length(t.sqrt, Sub(end, center)) == Length(t.sqrt, Sub(start, center)) ==>
      CreateArc(t, pi, center, start, end, segments)[segments] == end
  {
    var radius := Length(t.sqrt, Sub(start, center));
    var a0, a1 := AngleTo(t, center, start), AngleTo(t, center, end);
    CreateArcPoints(t, pi, center, start, end, segments);
    PolarPoint(t, center, start);
    if Length(t.sqrt, Sub(end, center)) == radius {
      PolarPoint(t, center, end);
      TurnPoint(t, pi, center, radius, a1, a0 + ArcSpan(a0, a1, pi));
    }
  }

  /** An angle equal to `a`, or a full turn on from it, gives the same
      point. */
  lemma TurnPoint(t: Trig, pi: real, center: Vec3, radius: real, a: real, e: real)
    requires FullTurn(t, pi) && (e == a || e == TurnOn(a, pi))
    ensures ArcPoint(t, center, radius, e) == ArcPoint(t, center, radius, a)
  {
    if e != a {
      assert e == TurnOn(a, pi);
      assert t.cos(TurnOn(a, pi)) == t.cos(a) && t.sin(TurnOn(a, pi)) == t.sin(a);
      var c, s := t.cos(e), t.sin(e);
      assert c == t.cos(a) && s == t.sin(a);
      assert ArcPoint(t, center, radius, e) == Vec3(center.x + c * radius, center.y + s * radius, center.z);
    }
  }

  // ---------------------------------------------------------------------------
  // The outline and its face

  /** The arc drawn for side `i`. */
  function SideArc(t: Trig, pi: real, polygon: seq<Vec3>, segments: nat, i: nat): (r: seq<Vec3>)
    requires |polygon| >= 1 && segments >= 1 && i < |polygon|
    ensures |r| == segments + 1
  {
    var p := PlanArc(|polygon|, i);
    CreateArc(t, pi, CenterPoint(polygon, p.center), polygon[p.start], polygon[p.end], segments)
  }

  /** The arc of every side, in side order. */
  function SideArcs(t: Trig, pi: real, polygon: seq<Vec3>, segments: nat): (r: seq<seq<Vec3>>)
    requires |polygon| >= 1 && segments >= 1
    ensures |r| == |polygon|
    ensures forall i :: 0 <= i < |r| ==> r[i] == SideArc(t, pi, polygon, segments, i)
  {
    seq(|polygon|, i requires 0 <= i < |polygon| => SideArc(t, pi, polygon, segments, i))
  }

  /** The outline: all arcs one after another, `segments + 1` points
      each. */
  function Outline(t: Trig, pi: real, polygon: seq<Vec3>, segments: nat): (r: seq<Vec3>)
    requires |polygon| >= 1 && segments >= 1
    ensures |r| == |polygon| * (segments + 1)
  {
    var arcs := SideArcs(t, pi, polygon, segments);
    FlattenUniform(arcs, segments + 1);
    Flatten(arcs)
  }

  /** Points `j (segments + 1)` up to `(j + 1)(segments + 1)` of the outline
      are exactly the arc of side `j`. */
  lemma OutlineBlock(t: Trig, pi: real, polygon: seq<Vec3>, segments: nat, j: nat)
    requires |polygon| >= 1 && segments >= 1 && j < |polygon|
    ensures var o, w := Outline(t, pi, polygon, segments), segments + 1;
      && 0 <= j * w <= (j + 1) * w <= |o|
      && o[j * w..(j + 1) * w] == SideArc(t, pi, polygon, segments, j)
  {
    var w := segments + 1;
    MulStep(j, w);
    FlattenBlock(SideArcs(t, pi, polygon, segments), w, j);
  }


  /** The mesh of `execute`: every arc's points in order, and one n-gon face
      over all of them, with the object then turned 90 degrees about z, which
      takes (x, y, z) to (-y, x, z). */
  function ReuleauxMesh(t: Trig, pi: real, polygon: seq<Vec3>, segments: nat): (m: Mesh)
    requires |polygon| >= 3 && segments >= 1
    ensures |m.vertices| == |polygon| * (segments + 1)
    ensures |m.faces| == 1 && m.faces[0] == Range(0, |m.vertices|)
    ensures WellFormed(m)
    ensures var o := Outline(t, pi, polygon, segments);
      forall k :: 0 <= k < |o| ==> m.vertices[k] == Vec3(-o[k].y, o[k].x, o[k].z)
  {
    var vs := Outline(t, pi, polygon, segments);
    Mesh(RotateAll(0.0, 1.0, vs), [Range(0, |vs|)])
  }

  // ---------------------------------------------------------------------------
  // get_polygon_name

  /** The names for 3 to 20 sides; even counts are not of constant width and
      are called "Reuleaux-ish". */
  const PolygonNames: seq<string> := [
    "Reuleaux Triangle",
    "Reuleaux-ish Square",
    "Reuleaux Pentagon",
    "Reuleaux-ish Hexagon",
    "Reuleaux Heptagon",
    "Reuleaux-ish Octagon",
    "Reuleaux Nonagon",
    "Reuleaux-ish Decagon",
    "Reuleaux Hendecagon",
    "Reuleaux-ish Dodecagon",
    "Reuleaux Tridecagon",
    "Reuleaux-ish Tetradecagon",
    "Reuleaux Pentadecagon",
    "Reuleaux-ish Hexadecagon",
    "Reuleaux Heptadecagon",
    "Reuleaux-ish Octadecagon",
    "Reuleaux Enneadecagon",
    "Reuleaux-ish Icosagon"]

  /** The object name for `n` sides: the table entry for 3 to 20, otherwise
      a generic name that is "-ish" for even counts. */
  function PolygonName(n: int): string {
    NameIn(PolygonNames, n)
  }

  /** The name lookup over a given table for 3, 4, ... sides. */
  function NameIn(names: seq<string>, n: int): (r: string)
    ensures 3 <= n < 3 + |names| ==> r == names[n - 3]
    ensures !(3 <= n < 3 + |names|) ==> r == "Reuleaux Polygon" || r == "Reuleaux-ish Polygon"
  {
    if 3 <= n < 3 + |names| then names[n - 3]
    else if n % 2 == 1 then "Reuleaux Polygon"
    else "Reuleaux-ish Polygon"
  }

  /** Every "Reuleaux-ish" name contains "-ish". */
  lemma IshPrefix(s: string)
    requires |s| >= 12 && s[..12] == "Reuleaux-ish"
    ensures Contains(s, "-ish")
  {
    assert s[8..12] == s[..12][8..12];
    assert OccursAt(s, "-ish", 8);
  }

  /** The shape of table entry `k` (for `k + 3` sides): "Reuleaux-ish"
      at even side counts, no '-' at odd ones. */
  predicate NameFits(name: string, k: nat) {
    && (k % 2 == 1 ==> |name| >= 12 && name[..12] == "Reuleaux-ish")
    && (k % 2 == 0 ==> forall c :: 0 <= c < |name| ==> name[c] != '-')
  }

  /** Every entry of the table has the shape its side count calls for. */
  lemma PolygonNamesFit(k: nat)
    requires k < |PolygonNames|
    ensures NameFits(PolygonNames[k], k)
  {
    if k < 6 {
      NamesFitLow(k);
    } else if k < 12 {
      NamesFitMiddle(k);
    } else {
      NamesFitHigh(k);
    }
  }

  lemma NamesFitLow(k: nat)
    requires 0 <= k < 6
    ensures NameFits(PolygonNames[k], k)
  {
    var name := PolygonNames[k];
    if k == 0 {
      assert name == "Reuleaux Triangle";
    } else if k == 1 {
      assert name == "Reuleaux-ish Square";
    } else if k == 2 {
      assert name == "Reuleaux Pentagon";
    } else if k == 3 {
      assert name == "Reuleaux-ish Hexagon";
    } else if k == 4 {
      assert name == "Reuleaux Heptagon";
    } else {
      assert name == "Reuleaux-ish Octagon";
    }
  }

  lemma NamesFitMiddle(k: nat)
    requires 6 <= k < 12
    ensures NameFits(PolygonNames[k], k)
  {
    var name := PolygonNames[k];
    if k == 6 {
      assert name == "Reuleaux Nonagon";
    } else if k == 7 {
      assert name == "Reuleaux-ish Decagon";
    } else if k == 8 {
      assert name == "Reuleaux Hendecagon";
    } else if k == 9 {
      assert name == "Reuleaux-ish Dodecagon";
    } else if k == 10 {
      assert name == "Reuleaux Tridecagon";
    } else {
      assert name == "Reuleaux-ish Tetradecagon";
    }
  }

  lemma NamesFitHigh(k: nat)
    requires 12 <= k < 18
    ensures NameFits(PolygonNames[k], k)
  {
    var name := PolygonNames[k];
    if k == 12 {
      assert name == "Reuleaux Pentadecagon";
    } else if k == 13 {
      assert name == "Reuleaux-ish Hexadecagon";
    } else if k == 14 {
      assert name == "Reuleaux Heptadecagon";
    } else if k == 15 {
      assert name == "Reuleaux-ish Octadecagon";
    } else if k == 16 {
      assert name == "Reuleaux Enneadecagon";
    } else {
      assert name == "Reuleaux-ish Icosagon";
    }
  }

  /** Over any table whose entries fit their side counts, the name says
      "-ish" exactly when the side count is even. */
  lemma NameInIsh(names: seq<string>, n: int)
    requires forall k :: 0 <= k < |names| ==> NameFits(names[k], k)
    ensures Contains(NameIn(names, n), "-ish") <==> n % 2 == 0
  {
    var name := NameIn(names, n);
    if 3 <= n < 3 + |names| {
      assert NameFits(names[n - 3], n - 3);
      if n % 2 == 0 { IshPrefix(name); } else { FirstCharAbsent(name, "-ish"); }
    } else if n % 2 == 1 {
      FirstCharAbsent(name, "-ish");
    } else {
      IshPrefix(name);
    }
  }

  /** The name says "-ish" exactly when the side count is even, for the
      tabled counts and for the fallbacks alike. */
  lemma PolygonNameIsh(n: int)
    ensures Contains(PolygonName(n), "-ish") <==> n % 2 == 0
  {
    forall k | 0 <= k < |PolygonNames|
      ensures NameFits(PolygonNames[k], k)
    {
      PolygonNamesFit(k);
    }
    NameInIsh(PolygonNames, n);
  }
}
