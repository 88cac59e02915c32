/** The exact bookkeeping of the JIS screw and nut generator: the label
    formatting step, the ring-by-ring revolve, the sharp thread profile, the
    bevel-free hexagon nut, the half-thread length rule, the property presets
    and the two operators' cancel checks. */
module JisScrew {
  import opened Geometry
  import RomlyUtils
  import opened Revolve

  // ---------------------------------------------------------------------------
  // remove_decimal_trailing_zeros: the step after `f'{value:.3f}'`

  /** `s.rstrip('0')`. */
  function StripZeros(s: string): (r: string)
    ensures |r| <= |s| && r == s[..|r|]
    ensures |r| == 0 || r[|r| - 1] != '0'
    ensures forall k :: |r| <= k < |s| ==> s[k] == '0'
  {
    if |s| == 0 || s[|s| - 1] != '0' then s
    else StripZeros(s[..|s| - 1])
  }

  /** Strips the zeros after the decimal point, and the point itself when
      nothing is left after it; a string without a point is kept whole. */
  function TrimDecimalZeros(s: string): (r: string)
    ensures '.' !in s ==> r == s
    ensures |r| <= |s| && r == s[..|r|]
  {
    if '.' !in s then s
    else
      var t := StripZeros(s);
      assert '.' in t by {
        var p :| 0 <= p < |s| && s[p] == '.';
        assert p < |t|;
        assert t[p] == '.';
      }
      if t[|t| - 1] == '.' then t[..|t| - 1] else t
  }

  /** A string holding at most one decimal point, as `f'{value:.3f}'` does. */
  predicate AtMostOnePoint(s: string) {
    forall i, j :: 0 <= i < j < |s| ==> !(s[i] == '.' && s[j] == '.')
  }

  /** On a formatted number the step never leaves a dangling point, never
      leaves a zero after the point, keeps every digit before the point, and
      applying it again changes nothing. */
  lemma {:induction false} TrimDecimalZerosProperties(s: string)
    requires AtMostOnePoint(s)
    ensures var r := TrimDecimalZeros(s);
      && (|r| == 0 || r[|r| - 1] != '.')
      && ('.' in r ==> r[|r| - 1] != '0')
      && (forall p :: 0 <= p < |s| && s[p] == '.' ==> |r| >= p)
      && TrimDecimalZeros(r) == r
  {
    var r := TrimDecimalZeros(s);
    if '.' in s {
      var t := StripZeros(s);
      var p :| 0 <= p < |s| && s[p] == '.';
      assert p < |t| && t[p] == '.';
      if t[|t| - 1] == '.' {
        assert p == |t| - 1;
        assert r == t[..p];
        assert '.' !in r by {
          forall i | 0 <= i < |r| ensures r[i] != '.' {
            assert r[i] == s[i];
          }
        }
      } else {
        assert r == t;
        assert StripZeros(r) == r;
      }
      forall q | 0 <= q < |s| && s[q] == '.' ensures |r| >= q {
        assert q == p;
      }
    }
  }

  /** Without the one-point guarantee the step is not idempotent. */
  lemma {:induction false} TrimDecimalZerosTwoPoints()
    ensures TrimDecimalZeros("1..") == "1."
    ensures TrimDecimalZeros(TrimDecimalZeros("1..")) == "1"
  {
    assert StripZeros("1..") == "1..";
    assert "1.."[..2] == "1.";
    assert StripZeros("1.") == "1.";
    assert "1."[..1] == "1";
  }

  // ---------------------------------------------------------------------------
  // create_threaded_cylinder with bevel_segments == 0

  /** `n` sharp teeth, top down; the first has its lower minor point at `z`.
      A tooth is minor / major / minor, the major point half a pitch up. */
  function Teeth(n: nat, z: real, pitch: real, minorR: real, majorR: real): (r: seq<Vec3>)
    ensures |r| == 3 * n
    decreases n
  {
    if n == 0 then []
    else [Vec3(-minorR, 0.0, z + pitch), Vec3(-majorR, 0.0, z + pitch / 2.0), Vec3(-minorR, 0.0, z)]
         + Teeth(n - 1, z - pitch, pitch, minorR, majorR)
  }

  /** Tooth t of the run lies t pitches below the first. */
  lemma {:induction false} TeethAt(n: nat, z: real, pitch: real, minorR: real, majorR: real, t: nat)
    requires t < n
    ensures Teeth(n, z, pitch, minorR, majorR)[3 * t] == Vec3(-minorR, 0.0, z + pitch - Rise(t, pitch))
    ensures Teeth(n, z, pitch, minorR, majorR)[3 * t + 1] == Vec3(-majorR, 0.0, z + pitch / 2.0 - Rise(t, pitch))
    ensures Teeth(n, z, pitch, minorR, majorR)[3 * t + 2] == Vec3(-minorR, 0.0, z - Rise(t, pitch))
    decreases t
  {
    if t > 0 {
      TeethAt(n - 1, z - pitch, pitch, minorR, majorR, t - 1);
    }
  }

  /** The profile the sharp thread revolves: the axis point at the top of one
      lead, `lead` teeth on the minor and major radii, and the origin. */
  function SharpProfile(diameter: real, threadDepth: real, pitch: real, lead: nat): (r: seq<Vec3>)
    ensures |r| == 3 * lead + 2
    ensures r[0] == Vec3(0.0, 0.0, lead as real * pitch)
    ensures r[|r| - 1] == Origin
  {
    var majorR := diameter / 2.0;
    var minorR := (diameter - threadDepth) / 2.0;
    [Vec3(0.0, 0.0, lead as real * pitch)] + Teeth(lead, lead as real * pitch - pitch, pitch, minorR, majorR) + [Origin]
  }

  /** Tooth t (from the top) spans z from (lead - t) pitches down to
      (lead - t - 1) pitches, peaking on the major radius halfway. */
  lemma {:induction false} SharpProfileTooth(diameter: real, threadDepth: real, pitch: real, lead: nat, t: nat)
    requires t < lead
    ensures var r := SharpProfile(diameter, threadDepth, pitch, lead);
      && r[1 + 3 * t] == Vec3(-(diameter - threadDepth) / 2.0, 0.0, (lead - t) as real * pitch)
      && r[2 + 3 * t] == Vec3(-diameter / 2.0, 0.0, (lead - t) as real * pitch - pitch / 2.0)
      && r[3 + 3 * t] == Vec3(-(diameter - threadDepth) / 2.0, 0.0, (lead - t - 1) as real * pitch)
  {
    var majorR := diameter / 2.0;
    var minorR := (diameter - threadDepth) / 2.0;
    var z := lead as real * pitch - pitch;
    TeethAt(lead, z, pitch, minorR, majorR, t);
    ToothHeights(lead, t, pitch);
    SharpProfileHoldsTeeth(diameter, threadDepth, pitch, lead, 3 * t);
    SharpProfileHoldsTeeth(diameter, threadDepth, pitch, lead, 3 * t + 1);
    SharpProfileHoldsTeeth(diameter, threadDepth, pitch, lead, 3 * t + 2);
  }

  /** The profile holds the teeth right after its first point. */
  lemma SharpProfileHoldsTeeth(diameter: real, threadDepth: real, pitch: real, lead: nat, j: nat)
    requires j < 3 * lead
    ensures SharpProfile(diameter, threadDepth, pitch, lead)[1 + j] ==
      Teeth(lead, lead as real * pitch - pitch, pitch, (diameter - threadDepth) / 2.0, diameter / 2.0)[j]
  {
  }

  /** The heights of tooth `t` counted from the top of `lead` pitches. */
  lemma ToothHeights(lead: nat, t: nat, pitch: real)
    requires t < lead
    ensures var z := lead as real * pitch - pitch;
      && z + pitch - Rise(t, pitch) == (lead - t) as real * pitch
      && z + pitch / 2.0 - Rise(t, pitch) == (lead - t) as real * pitch - pitch / 2.0
      && z - Rise(t, pitch) == (lead - t - 1) as real * pitch
  {
    RiseIsProduct(t, pitch);
    RealMulDiff(lead, t, pitch);
    RealMulDiff(lead - t, 1, pitch);
  }

  lemma RealMulDiff(a: nat, b: nat, p: real)
    requires b <= a
    ensures (a - b) as real * p == a as real * p - b as real * p
  {
  }

  /** Consecutive teeth meet: the lower minor point of one tooth is the upper
      minor point of the next. */
  lemma {:induction false} SharpProfileTeethMeet(diameter: real, threadDepth: real, pitch: real, lead: nat, t: nat)
    requires t + 1 < lead
    ensures var r := SharpProfile(diameter, threadDepth, pitch, lead);
      r[3 + 3 * t] == r[1 + 3 * (t + 1)]
  {
    SharpProfileTooth(diameter, threadDepth, pitch, lead, t);
    SharpProfileTooth(diameter, threadDepth, pitch, lead, t + 1);
  }

  /** `for _ in range(turns): add_revolved_surface(...)` with close off:
      every turn appends `segments` rings and moves the end of the profile by
      one more `z_offset`. */
  method RevolveTurns(m: Mesh, k: nat, turns: nat, segments: nat, zOffset: real, spin: PlaneMap)
    returns (r: Mesh)
    requires segments > 0 && 1 <= k <= |m.vertices|
    ensures |r.vertices| == |m.vertices| + turns * (segments * k)
    ensures |r.faces| == |m.faces| + turns * (segments * (k - 1))
    ensures r.vertices[..|m.vertices|] == m.vertices
    ensures WellFormed(m) ==> WellFormed(r)
    ensures r.vertices[|r.vertices| - 1].z == m.vertices[|m.vertices| - 1].z + turns as real * zOffset
  {
    r := m;
    var t := 0;
    while t < turns
      invariant t <= turns
      invariant |r.vertices| == |m.vertices| + Times(t, segments * k)
      invariant |r.faces| == |m.faces| + Times(t, segments * (k - 1))
      invariant r.vertices[..|m.vertices|] == m.vertices
      invariant WellFormed(m) ==> WellFormed(r)
      invariant r.vertices[|r.vertices| - 1].z == m.vertices[|m.vertices| - 1].z + Rise(t, zOffset)
    {
      var next := AddRevolvedSurface(r, k, segments, false, zOffset, spin);
      assert next.vertices[..|m.vertices|] == next.vertices[..|r.vertices|][..|m.vertices|];
      r := next;
      t := t + 1;
    }
    TimesIsProduct(turns, segments * k);
    TimesIsProduct(turns, segments * (k - 1));
    RiseIsProduct(turns, zOffset);
  }

  /** `math.ceil(length / (lead * pitch)) + 2`: enough turns of one lead
      each to cover the length, plus two. */
  function ThreadIterations(length: real, lead: nat, pitch: real): (r: nat)
    requires lead >= 1 && pitch > 0.0 && length >= 0.0
    ensures r >= 2
  {
    var a := length / (lead as real * pitch);
    assert a >= 0.0 by { QuotientNonNegative(length, lead as real * pitch); }
    Ceil(a) + 2
  }

  lemma QuotientNonNegative(a: real, b: real)
    requires a >= 0.0 && b > 0.0
    ensures a / b >= 0.0
  {
  }

  /** The turns beyond the extra two cover the length, and one turn fewer
      would not. */
  lemma ThreadIterationsCover(length: real, lead: nat, pitch: real)
    requires lead >= 1 && pitch > 0.0 && length >= 0.0
    ensures var it := ThreadIterations(length, lead, pitch);
      && (it - 2) as real * (lead as real * pitch) >= length
      && (it - 3) as real * (lead as real * pitch) < length
  {
    var l := lead as real * pitch;
    var a := length / l;
    var c := Ceil(a);
    QuotientScales(length, l, c as real);
  }

  lemma QuotientScales(a: real, b: real, c: real)
    requires b > 0.0 && a / b <= c < a / b + 1.0
    ensures c * b >= a && (c - 1.0) * b < a
  {
    var q := a / b;
    assert q * b == a;
    ScaleKeepsOrder(q, c, b);
    var d := c - 1.0;
    assert d < q;
    ScaleKeepsStrictOrder(d, q, b);
    assert d * b < a;
  }

  lemma ScaleKeepsOrder(x: real, y: real, b: real)
    requires x <= y && b > 0.0
    ensures x * b <= y * b
  {
  }

  lemma ScaleKeepsStrictOrder(x: real, y: real, b: real)
    requires x < y && b > 0.0
    ensures x * b < y * b
  {
  }

  /** The lid fan: triangle i joins the lid centre `c` to the lid edge vertex
      (profile index 0) of ring i - 1 and of ring i, `k` indices apart. */
  function LidFan(c: nat, k: nat, segments: nat): (r: seq<Face>)
    ensures |r| == segments
    ensures forall i :: 0 <= i < segments ==> r[i] == [c, Times(i, k), Times(i + 1, k)]
  {
    seq(segments, i requires 0 <= i < segments => [c, Times(i, k), Times(i + 1, k)])
  }

  /** The bottom fan: triangle i joins the bottom centre `c` to the last
      profile vertex of ring `segments - i` and of the ring before it,
      counted back from the last vertex `last`. */
  function BottomFan(c: nat, last: nat, k: nat, segments: nat): (r: seq<Face>)
    requires Times(segments, k) <= last
    ensures |r| == segments
    ensures forall i :: 0 <= i < segments ==> r[i] == [c, last - Times(i, k), last - Times(i + 1, k)]
  {
    seq(segments, i requires 0 <= i < segments => BottomTriangle(c, last, k, segments, i))
  }

  function BottomTriangle(c: nat, last: nat, k: nat, segments: nat, i: nat): (r: Face)
    requires Times(segments, k) <= last && i < segments
    ensures r == [c, last - Times(i, k), last - Times(i + 1, k)]
  {
    MonotoneTimes(i + 1, segments, k);
    MonotoneTimes(i, i + 1, k);
    [c, last - Times(i, k), last - Times(i + 1, k)]
  }

  /** The lid: its fan, then the first profile closed by the lid centre `n`. */
  function LidCap(n: nat, k: nat, segments: nat): (r: seq<Face>)
    ensures |r| == segments + 1
  {
    LidFan(n, k, segments) + [Range(0, k) + [n]]
  }

  /** The bottom: its fan around the bottom centre `n + 1`, then the last
      profile (the last `k` of the `n` vertices) closed by that centre. */
  function BottomCap(n: nat, k: nat, segments: nat): (r: seq<Face>)
    requires k <= n && Times(segments, k) <= n - 1
    ensures |r| == segments + 1
  {
    BottomFan(n + 1, n - 1, k, segments) + [Range(n - k, n) + [n + 1]]
  }

  /** The two end caps of the threaded cylinder, appended after the turns: the
      lid centre on the axis level with the first vertex, the bottom centre
      on the axis level with the last one, each with its cap. */
  function CloseEnds(m: Mesh, k: nat, segments: nat): (r: Mesh)
    requires 1 <= k && Times(segments + 1, k) <= |m.vertices|
    ensures var n := |m.vertices|;
      && r.vertices == m.vertices + [Vec3(0.0, 0.0, m.vertices[0].z), Vec3(0.0, 0.0, m.vertices[n - 1].z)]
      && r.faces == m.faces + LidCap(n, k, segments) + BottomCap(n, k, segments)
      && |r.faces| == |m.faces| + 2 * segments + 2
      && (WellFormed(m) ==> WellFormed(r))
  {
    var n := |m.vertices|;
    var lid := LidCap(n, k, segments);
    var bottom := BottomCap(n, k, segments);
    var r := Mesh(m.vertices + [Vec3(0.0, 0.0, m.vertices[0].z), Vec3(0.0, 0.0, m.vertices[n - 1].z)],
                  m.faces + lid + bottom);
    CapsInBounds(m, k, segments);
    GrowKeepsWellFormed(m, r.vertices, lid + bottom);
    FacesAppend(m.faces, lid, bottom);
    r
  }

  /** Every cap face names an existing vertex. */
  lemma CapsInBounds(m: Mesh, k: nat, segments: nat)
    requires 1 <= k && Times(segments + 1, k) <= |m.vertices|
    ensures var n := |m.vertices|;
      FacesInBounds(LidCap(n, k, segments) + BottomCap(n, k, segments), n + 2)
  {
    var n := |m.vertices|;
    var lid := LidCap(n, k, segments);
    var bottom := BottomCap(n, k, segments);
    LidInBounds(n, k, segments);
    BottomInBounds(n, k, segments);
    FacesInBoundsConcat(lid, bottom, n + 2);
  }

  lemma LidInBounds(n: nat, k: nat, segments: nat)
    requires 1 <= k && Times(segments + 1, k) <= n
    ensures FacesInBounds(LidCap(n, k, segments), n + 2)
  {
    var fan := LidFan(n, k, segments);
    forall i | 0 <= i < segments ensures FaceInBounds(fan[i], n + 2) {
      LidTriangleInBounds(n, k, segments, i);
    }
    RangeInBounds(0, k, n, n + 2);
    FacesInBoundsConcat(fan, [Range(0, k) + [n]], n + 2);
  }

  lemma LidTriangleInBounds(n: nat, k: nat, segments: nat, i: nat)
    requires 1 <= k && Times(segments + 1, k) <= n && i < segments
    ensures FaceInBounds([n, Times(i, k), Times(i + 1, k)], n + 2)
  {
    MonotoneTimes(i + 1, segments + 1, k);
    MonotoneTimes(i, i + 1, k);
    TriangleInBounds(n, Times(i, k), Times(i + 1, k), n + 2);
  }

  lemma BottomInBounds(n: nat, k: nat, segments: nat)
    requires 1 <= k && Times(segments + 1, k) <= n
    ensures FacesInBounds(BottomCap(n, k, segments), n + 2)
  {
    var fan := BottomFan(n + 1, n - 1, k, segments);
    assert FacesInBounds(fan, n + 2);
    RangeInBounds(n - k, n, n + 1, n + 2);
    FacesInBoundsConcat(fan, [Range(n - k, n) + [n + 1]], n + 2);
  }

  /** A run of indices below `hi` closed by a centre `c`, both below `n`. */
  lemma RangeInBounds(lo: nat, hi: nat, c: nat, n: nat)
    requires lo <= hi <= n && c < n
    ensures FacesInBounds([Range(lo, hi) + [c]], n)
  {
    var f := Range(lo, hi) + [c];
    assert forall j :: 0 <= j < |f| ==> f[j] < n by {
      forall j | 0 <= j < |f| ensures f[j] < n {
        if j < hi - lo { assert f[j] == lo + j; }
      }
    }
  }

  lemma TriangleInBounds(a: nat, b: nat, c: nat, n: nat)
    requires a < n && b < n && c < n
    ensures FaceInBounds([a, b, c], n)
  {
  }

  /** `create_threaded_cylinder` with `bevel_segments == 0`: the sharp profile
      is revolved for `ThreadIterations` turns, each descending one lead
      (`z_offset = -lead * pitch`), and both ends are capped. `spin` is the
      rotation by -360/segments degrees about Z. */
  method CreateThreadedCylinder(diameter: real, length: real, pitch: real, lead: nat, threadDepth: real,
                                segments: nat, spin: PlaneMap)
    returns (r: Mesh)
    requires lead >= 1 && pitch > 0.0 && length >= 0.0 && segments > 0
    ensures var k := 3 * lead + 2;
      var turns := ThreadIterations(length, lead, pitch);
      var n := k + turns * (segments * k);
      && |r.vertices| == n + 2
      && |r.faces| == turns * (segments * (k - 1)) + 2 * segments + 2
      && r.vertices[..k] == SharpProfile(diameter, threadDepth, pitch, lead)
      && r.vertices[n] == Vec3(0.0, 0.0, lead as real * pitch)
      && r.vertices[n + 1] == Vec3(0.0, 0.0, -(turns as real * (lead as real * pitch)))
      && r.vertices[n + 1].z <= -length - 2.0 * (lead as real * pitch)
      && WellFormed(r)
  {
    var profile := SharpProfile(diameter, threadDepth, pitch, lead);
    var k := |profile|;
    var turns := ThreadIterations(length, lead, pitch);
    var body := RevolveTurns(Mesh(profile, []), k, turns, segments, -(lead as real * pitch), spin);
    TurnsLeaveRoomForCaps(k, segments, turns);
    assert body.vertices[0] == profile[0] by {
      assert body.vertices[..k][0] == body.vertices[0];
    }
    r := CloseEnds(body, k, segments);
    assert r.vertices[..k] == profile by {
      assert r.vertices[..k] == body.vertices[..k];
    }
    ThreadReachesBelow(length, lead, pitch);
  }

  /** After at least one turn the mesh is long enough for both caps. */
  lemma TurnsLeaveRoomForCaps(k: nat, segments: nat, turns: nat)
    requires turns >= 1
    ensures Times(segments + 1, k) <= k + turns * (segments * k)
  {
    TimesIsProduct(segments + 1, k);
    assert turns * (segments * k) >= segments * k by {
      MulAtLeastOnce(turns, segments * k);
    }
  }

  lemma MulAtLeastOnce(t: nat, x: nat)
    requires t >= 1
    ensures t * x >= x
  {
  }

  /** The bottom of the thread lies at least two leads below the requested
      length. */
  lemma ThreadReachesBelow(length: real, lead: nat, pitch: real)
    requires lead >= 1 && pitch > 0.0 && length >= 0.0
    ensures -(ThreadIterations(length, lead, pitch) as real * (lead as real * pitch))
            <= -length - 2.0 * (lead as real * pitch)
  {
    var it := ThreadIterations(length, lead, pitch);
    var l := lead as real * pitch;
    ThreadIterationsCover(length, lead, pitch);
    assert it as real * l == (it - 2) as real * l + 2.0 * l;
  }

  // ---------------------------------------------------------------------------
  // create_nut with bevel_segments == 0

  /** `make_arc_vertices(start, center, 'Z', degrees, segments)`: point i is
      `start` turned about `center` by step i of the arc; `turn(i)` is the
      rotation by `degrees / segments * i` about Z. */
  function ArcVertices(start: Vec3, center: Vec3, segments: nat, turn: nat -> PlaneMap): (r: seq<Vec3>)
    ensures |r| == segments + 1
    ensures forall i :: 0 <= i < |r| ==> r[i].z == start.z
  {
    var r := seq(segments + 1, i requires 0 <= i < segments + 1 => Add(AboutZ(turn(i), Sub(start, center)), center));
    assert forall i :: 0 <= i < |r| ==> r[i].z == start.z by {
      forall i | 0 <= i < |r| ensures r[i].z == start.z {
        assert r[i] == Add(AboutZ(turn(i), Sub(start, center)), center);
      }
    }
    r
  }

  /** The bevel-free nut blank: the six corners of a hexagon of corner
      radius `diameter / 2` (the seventh arc point repeats the first and is
      dropped), one face over them, extruded `thickness` downwards with a
      cap. */
  function CreateNut(diameter: real, thickness: real, turn: nat -> PlaneMap): (r: Mesh)
    ensures |r.vertices| == 12 && |r.faces| == 8
    ensures WellFormed(r)
    ensures forall i :: 0 <= i < 6 ==> r.vertices[i].z == 0.0
    ensures forall i :: 0 <= i < 6 ==> r.vertices[6 + i] == Raise(r.vertices[i], -thickness)
    ensures r.faces[0] == [0, 1, 2, 3, 4, 5]
    ensures r.faces[7] == [11, 10, 9, 8, 7, 6]
  {
    var arc := ArcVertices(Vec3(0.0, diameter / 2.0, 0.0), Origin, 6, turn);
    var hexagon := arc[..6];
    assert forall i :: 0 <= i < 6 ==> hexagon[i].z == arc[i].z;
    ExtrudedHexagon(hexagon, thickness);
    RomlyUtils.ExtrudeFace(HexagonTop(hexagon), Range(0, 6), -thickness, true)
  }

  /** The hexagon's one face covers its six corners in order. */
  function HexagonTop(hexagon: seq<Vec3>): (m: Mesh)
    requires |hexagon| == 6
    ensures m.vertices == hexagon && m.faces == [Range(0, 6)]
    ensures WellFormed(m)
  {
    var m := Mesh(hexagon, [Range(0, 6)]);
    assert FaceInBounds(m.faces[0], 6);
    m
  }

  /** A flat hexagon with one face over it, extruded with a cap: twelve
      vertices, eight faces, the top face first and the cap last. */
  lemma ExtrudedHexagon(hexagon: seq<Vec3>, thickness: real)
    requires |hexagon| == 6 && forall i :: 0 <= i < 6 ==> hexagon[i].z == 0.0
    ensures var r := RomlyUtils.ExtrudeFace(HexagonTop(hexagon), Range(0, 6), -thickness, true);
      && |r.vertices| == 12 && |r.faces| == 8
      && WellFormed(r)
      && (forall i :: 0 <= i < 6 ==> r.vertices[i].z == 0.0)
      && (forall i :: 0 <= i < 6 ==> r.vertices[6 + i] == Raise(r.vertices[i], -thickness))
      && r.faces[0] == [0, 1, 2, 3, 4, 5]
      && r.faces[7] == [11, 10, 9, 8, 7, 6]
  {
    ExtrudedHexagonVertices(hexagon, thickness);
    ExtrudedHexagonFaces(hexagon, thickness);
  }

  lemma ExtrudedHexagonVertices(hexagon: seq<Vec3>, thickness: real)
    requires |hexagon| == 6 && forall i :: 0 <= i < 6 ==> hexagon[i].z == 0.0
    ensures var r := RomlyUtils.ExtrudeFace(HexagonTop(hexagon), Range(0, 6), -thickness, true);
      && |r.vertices| == 12
      && (forall i :: 0 <= i < 6 ==> r.vertices[i].z == 0.0)
      && (forall i :: 0 <= i < 6 ==> r.vertices[6 + i] == Raise(r.vertices[i], -thickness))
  {
    var top := Range(0, 6);
    var r := RomlyUtils.ExtrudeFace(HexagonTop(hexagon), top, -thickness, true);
    forall i | 0 <= i < 6 ensures r.vertices[i].z == 0.0 {
      assert r.vertices[i] == r.vertices[..6][i];
    }
    forall i | 0 <= i < 6 ensures r.vertices[6 + i] == Raise(r.vertices[i], -thickness) {
      assert top[i] == i;
    }
  }

  lemma ExtrudedHexagonFaces(hexagon: seq<Vec3>, thickness: real)
    requires |hexagon| == 6
    ensures var r := RomlyUtils.ExtrudeFace(HexagonTop(hexagon), Range(0, 6), -thickness, true);
      && |r.faces| == 8
      && WellFormed(r)
      && r.faces[0] == [0, 1, 2, 3, 4, 5]
      && r.faces[7] == [11, 10, 9, 8, 7, 6]
  {
    RomlyUtils.ExtrudeFaceKeepsWellFormed(HexagonTop(hexagon), Range(0, 6), -thickness, true);
    ExtrudedHexagonTopFace(hexagon, thickness);
    ExtrudedHexagonCap(hexagon, thickness);
  }

  lemma ExtrudedHexagonTopFace(hexagon: seq<Vec3>, thickness: real)
    requires |hexagon| == 6
    ensures var r := RomlyUtils.ExtrudeFace(HexagonTop(hexagon), Range(0, 6), -thickness, true);
      |r.faces| == 8 && r.faces[0] == [0, 1, 2, 3, 4, 5]
  {
    var r := RomlyUtils.ExtrudeFace(HexagonTop(hexagon), Range(0, 6), -thickness, true);
    assert r.faces[..1][0] == r.faces[0];
    assert Range(0, 6) == [0, 1, 2, 3, 4, 5];
  }

  lemma ExtrudedHexagonCap(hexagon: seq<Vec3>, thickness: real)
    requires |hexagon| == 6
    ensures var r := RomlyUtils.ExtrudeFace(HexagonTop(hexagon), Range(0, 6), -thickness, true);
      |r.faces| == 8 && r.faces[7] == [11, 10, 9, 8, 7, 6]
  {
    var r := RomlyUtils.ExtrudeFace(HexagonTop(hexagon), Range(0, 6), -thickness, true);
    CapDescends(r.faces[7]);
  }

  /** A face of six indices counting down from 11 is [11, 10, 9, 8, 7, 6]. */
  lemma CapDescends(c: seq<nat>)
    requires |c| == 6 && forall k :: 0 <= k < 6 ==> c[k] == 11 - k
    ensures c == [11, 10, 9, 8, 7, 6]
  {
    assert c[0] == 11 && c[1] == 10 && c[2] == 9;
    assert c[3] == 8 && c[4] == 7 && c[5] == 6;
  }

  // ---------------------------------------------------------------------------
  // calc_unthreaded_length

  /** The threaded part of a half-threaded screw: twice the diameter plus 6,
      12 or 25 depending on the length band. */
  function ThreadLength(length: real, diameter: real): (r: real)
    ensures r == 2.0 * diameter + 6.0 || r == 2.0 * diameter + 12.0 || r == 2.0 * diameter + 25.0
    ensures length <= 129.0 ==> r == 2.0 * diameter + 6.0
    ensures 129.0 < length <= 219.0 ==> r == 2.0 * diameter + 12.0
    ensures 219.0 < length ==> r == 2.0 * diameter + 25.0
  {
    if length <= 129.0 then diameter * 2.0 + 6.0
    else if length <= 219.0 then diameter * 2.0 + 12.0
    else diameter * 2.0 + 25.0
  }

  /** Longer screws get at least as long a thread. */
  lemma ThreadLengthMonotone(l1: real, l2: real, diameter: real)
    requires l1 <= l2
    ensures ThreadLength(l1, diameter) <= ThreadLength(l2, diameter)
  {
  }

  /** The unthreaded part: the length minus the thread length when the
      thread fits, otherwise the whole length. */
  function CalcUnthreadedLength(length: real, diameter: real): (r: real)
    ensures 0.0 <= length ==> 0.0 <= r
    ensures 0.0 <= diameter ==> r <= length
  {
    var t := ThreadLength(length, diameter);
    if t <= length then length - t else length
  }

  /** The screw is partly threaded exactly when the thread fits into the
      length; otherwise it has no thread at all. */
  lemma UnthreadedLengthCases(length: real, diameter: real)
    requires 0.0 <= diameter
    ensures CalcUnthreadedLength(length, diameter) < length <==> ThreadLength(length, diameter) <= length
    ensures CalcUnthreadedLength(length, diameter) == length <==> length < ThreadLength(length, diameter)
    ensures CalcUnthreadedLength(length, diameter) + ThreadLength(length, diameter) == length
            || CalcUnthreadedLength(length, diameter) == length
  {
  }

  // ---------------------------------------------------------------------------
  // update_properties

  /** The entries of a `SCREW_SPECS` row that the nut operator copies; the
      table itself is not part of this model, so a row is a parameter. */
  datatype ScrewSpec = ScrewSpec(diameter: real, pitch: real, threadDepth: real, boltheadDiameter: real,
                                 nutHeight: real, nutHeightThin: real)

  /** The nut operator's properties that `update_properties` reads or sets. */
  datatype NutProps = NutProps(diameter: real, pitch: real, lead: nat, threadDepth: real,
                               nutDiameter: real, nutHeight: real, typeNumber: string,
                               topChamfering: bool, bottomChamfering: bool)

  /** The nut operator's update: a known size copies its dimensions (lead
      back to 1, the thin height for type 3), and the type number alone picks
      the chamfered sides. */
  function UpdateNutProperties(p: NutProps, spec: Option<ScrewSpec>): (r: NutProps)
    ensures r.typeNumber == p.typeNumber
    ensures r.bottomChamfering
    ensures r.topChamfering <==> p.typeNumber != "1"
    ensures spec.None? ==> r.diameter == p.diameter && r.pitch == p.pitch && r.lead == p.lead
                           && r.threadDepth == p.threadDepth && r.nutDiameter == p.nutDiameter
                           && r.nutHeight == p.nutHeight
    ensures spec.Some? ==> r.diameter == spec.value.diameter && r.pitch == spec.value.pitch && r.lead == 1
                           && r.threadDepth == spec.value.threadDepth
                           && r.nutDiameter == spec.value.boltheadDiameter
                           && (r.nutHeight == spec.value.nutHeightThin <== p.typeNumber == "3")
                           && (r.nutHeight == spec.value.nutHeight <== p.typeNumber != "3")
  {
    var q := match spec
      case None => p
      case Some(sp) =>
        p.(diameter := sp.diameter, pitch := sp.pitch, lead := 1, threadDepth := sp.threadDepth,
           nutDiameter := sp.boltheadDiameter,
           nutHeight := if p.typeNumber == "3" then sp.nutHeightThin else sp.nutHeight);
    if p.typeNumber == "1" then q.(topChamfering := false, bottomChamfering := true)
    else if p.typeNumber == "2" then q.(topChamfering := true, bottomChamfering := true)
    else q.(topChamfering := true, bottomChamfering := true)
  }

  /** Pressing the same size button twice changes nothing the second time. */
  lemma UpdateNutPropertiesIdempotent(p: NutProps, spec: Option<ScrewSpec>)
    ensures UpdateNutProperties(UpdateNutProperties(p, spec), spec) == UpdateNutProperties(p, spec)
  {
  }

  predicate IsDigit(c: char) { '0' <= c <= '9' }

  predicate AllDigits(s: string) { forall i :: 0 <= i < |s| ==> IsDigit(s[i]) }

  /** `int(s)` for a string of decimal digits. */
  function DigitsValue(s: string): nat
    requires AllDigits(s)
    decreases |s|
  {
    if |s| == 0 then 0 else DigitsValue(s[..|s| - 1]) * 10 + (s[|s| - 1] as int - '0' as int)
  }

  /** `str(n)`: the decimal digits of `n`, without leading zeros. */
  function DecimalString(n: nat): (r: string)
    ensures |r| >= 1 && AllDigits(r)
    ensures |r| > 1 ==> r[0] != '0'
    decreases n
  {
    var d := ['0' + (n % 10) as char];
    if n < 10 then d else DecimalString(n / 10) + d
  }

  /** Reading the digits back gives the number. */
  lemma {:induction false} DecimalStringValue(n: nat)
    ensures DigitsValue(DecimalString(n)) == n
    decreases n
  {
    var s := DecimalString(n);
    if n >= 10 {
      DecimalStringValue(n / 10);
      assert s[..|s| - 1] == DecimalString(n / 10);
    }
  }

  /** A length preset `'l' + digits`: `Some(int(digits))` when everything
      after the `l` is a non-empty run of digits (`str.isdigit()` is false on
      the empty string), `None` otherwise. */
  function LengthPreset(s: string): (r: Option<nat>)
    ensures r.Some? <==> |s| >= 2 && s[0] == 'l' && AllDigits(s[1..])
  {
    if |s| >= 2 && s[0] == 'l' && AllDigits(s[1..]) then Some(DigitsValue(s[1..])) else None
  }

  /** The length a screw ends up with after the preset is applied. */
  function UpdateScrewLength(lengths: string, length: real): (r: real)
    ensures LengthPreset(lengths).None? ==> r == length
  {
    match LengthPreset(lengths)
    case Some(n) => n as real
    case None => length
  }

  /** The preset named after a length sets exactly that length. */
  lemma LengthPresetRoundTrip(n: nat, length: real)
    ensures LengthPreset("l" + DecimalString(n)) == Some(n)
    ensures UpdateScrewLength("l" + DecimalString(n), length) == n as real
  {
    var s := "l" + DecimalString(n);
    assert s[1..] == DecimalString(n);
    DecimalStringValue(n);
  }

  // ---------------------------------------------------------------------------
  // The operators' cancel checks

  /** `SCREW_THREAD_TYPE`: fully threaded, half threaded by the standard
      rule, or half threaded with a length set by hand. */
  datatype ThreadType = AllThread | HalfThread | HalfThreadManual

  /** The unthreaded length the screw operator goes on with. */
  function UnthreadedLengthFor(t: ThreadType, length: real, diameter: real, manual: real): real {
    match t
    case AllThread => 0.0
    case HalfThread => CalcUnthreadedLength(length, diameter)
    case HalfThreadManual => manual
  }

  /** The screw operator: cancelled (before any geometry) when the
      unthreaded part would be longer than the screw, otherwise it goes on
      with that unthreaded length. */
  function ScrewExecuteCheck(t: ThreadType, length: real, diameter: real, manual: real): (r: Result<real>)
    ensures r.Ok? ==> r.value == UnthreadedLengthFor(t, length, diameter, manual) && r.value <= length
    ensures r.Err? ==> UnthreadedLengthFor(t, length, diameter, manual) > length
  {
    var u := UnthreadedLengthFor(t, length, diameter, manual);
    if u > length then Err("The length of the unthreaded part cannot be longer than the total length")
    else Ok(u)
  }

  /** Only a hand-set unthreaded length can trigger the cancel: for a length
      and diameter the property limits allow (both at least 0), the other two
      thread types always go on, with an unthreaded part within the length. */
  lemma ScrewCancelsOnlyWhenManual(t: ThreadType, length: real, diameter: real, manual: real)
    requires 0.0 <= length && 0.0 <= diameter
    ensures t != HalfThreadManual ==> ScrewExecuteCheck(t, length, diameter, manual).Ok?
    ensures t != HalfThreadManual ==> 0.0 <= ScrewExecuteCheck(t, length, diameter, manual).value <= length
    ensures t == HalfThreadManual ==> (ScrewExecuteCheck(t, length, diameter, manual).Err? <==> manual > length)
  {
  }

  /** What the nut operator builds once it goes on: the nut blank, the
      thread cut only for a positive hole diameter, and the chamfers the
      properties ask for. */
  datatype NutPlan = NutPlan(cutThread: bool, topChamfer: bool, bottomChamfer: bool)

  /** The nut operator: cancelled when the hole is at least as wide as the
      nut. */
  function NutExecuteCheck(p: NutProps): (r: Result<NutPlan>)
    ensures r.Ok? <==> p.diameter < p.nutDiameter
    ensures r.Ok? ==> r.value.cutThread == (p.diameter > 0.0)
                      && r.value.topChamfer == p.topChamfering && r.value.bottomChamfer == p.bottomChamfering
  {
    if p.diameter >= p.nutDiameter then Err("The nut hole diameter must be smaller than the diameter")
    else Ok(NutPlan(p.diameter > 0.0, p.topChamfering, p.bottomChamfering))
  }
}
