/** `add_revolved_surface` of the JIS screw generator: a profile of `k`
    vertices is swept once around the Z axis in `segments` passes. Each pass
    copies the last `k` vertices, raises them by `z_offset / segments`, turns
    them by -360/segments degrees about Z and appends them as a new ring, then
    stitches the previous ring to the new one with quads.

    The vertex list and the face list grow independently: the faces a pass
    appends depend only on how many vertices there are, never on where they
    lie, so the model builds the two lists by separate recursions. */
module Revolve {
  import opened Geometry

  // ---------------------------------------------------------------------------
  // Linear stand-ins for the ring arithmetic

  /** a * b as repeated addition, which keeps the ring arithmetic linear. */
  function Times(a: nat, b: nat): nat {
    if a == 0 then 0 else Times(a - 1, b) + b
  }

  lemma {:induction false} TimesIsProduct(a: nat, b: nat)
    ensures Times(a, b) == a * b
  {
    if a > 0 {
      TimesIsProduct(a - 1, b);
      MulPred(a, b);
    }
  }

  lemma MulPred(a: nat, b: nat)
    requires a >= 1
    ensures (a - 1) * b + b == a * b
  {
  }

  lemma {:induction false} MonotoneTimes(a: nat, b: nat, c: nat)
    requires a <= b
    ensures Times(a, c) <= Times(b, c)
    decreases b
  {
    if a < b {
      MonotoneTimes(a, b - 1, c);
    }
  }

  /** Vertex i of ring j lies within the rings of `steps` passes. */
  lemma {:induction false} RingStartBound(k: nat, steps: nat, j: nat, i: nat)
    requires j < steps && i < k
    ensures Times(j, k) + i < Times(steps, k)
  {
    MonotoneTimes(j + 1, steps, k);
  }

  /** `n` increments of `d`, accumulated one pass at a time. */
  function Rise(n: nat, d: real): real {
    if n == 0 then 0.0 else Rise(n - 1, d) + d
  }

  lemma {:induction false} RiseIsProduct(n: nat, d: real)
    ensures Rise(n, d) == n as real * d
  {
    if n > 0 {
      RiseIsProduct(n - 1, d);
      RealMulPred(n, d);
    }
  }

  lemma RealMulPred(n: nat, d: real)
    requires n >= 1
    ensures n as real * d == (n - 1) as real * d + d
  {
  }

  /** `n` shares of `a / n` add up to `a`. */
  lemma {:induction false} RiseSplits(a: real, n: nat)
    requires n > 0
    ensures Rise(n, a / n as real) == a
  {
    RiseIsProduct(n, a / n as real);
    DivisionSplits(a, n);
  }

  lemma DivisionSplits(a: real, n: nat)
    requires n > 0
    ensures n as real * (a / n as real) == a
  {
  }

  // ---------------------------------------------------------------------------
  // Vertices

  /** One pass of the source: every vertex of the previous ring copied,
      raised by `dz` and turned by the step rotation `spin`. */
  function NextRing(prev: seq<Vec3>, dz: real, spin: PlaneMap): (r: seq<Vec3>)
    ensures |r| == |prev|
  {
    seq(|prev|, i requires 0 <= i < |prev| => AboutZ(spin, Raise(prev[i], dz)))
  }

  /** A seed vertex after `n` passes. */
  function Turned(v: Vec3, n: nat, dz: real, spin: PlaneMap): Vec3 {
    if n == 0 then v else AboutZ(spin, Raise(Turned(v, n - 1, dz, spin), dz))
  }

  /** Every pass lifts a vertex by `dz`: a turn about Z keeps heights. */
  lemma {:induction false} TurnedHeight(v: Vec3, n: nat, dz: real, spin: PlaneMap)
    ensures Turned(v, n, dz, spin).z == v.z + Rise(n, dz)
  {
    if n > 0 {
      TurnedHeight(v, n - 1, dz, spin);
    }
  }

  /** Ring j (counting from 0): the seed ring after j + 1 passes. */
  function Ring(seed: seq<Vec3>, j: nat, dz: real, spin: PlaneMap): (r: seq<Vec3>)
    ensures |r| == |seed|
  {
    seq(|seed|, i requires 0 <= i < |seed| => Turned(seed[i], j + 1, dz, spin))
  }

  /** The first ring is one pass over the seed ring, and every later ring is
      one pass over the ring before it. */
  lemma RingIsNextRing(seed: seq<Vec3>, j: nat, dz: real, spin: PlaneMap)
    ensures Ring(seed, 0, dz, spin) == NextRing(seed, dz, spin)
    ensures Ring(seed, j + 1, dz, spin) == NextRing(Ring(seed, j, dz, spin), dz, spin)
  {
    forall i | 0 <= i < |seed| ensures Turned(seed[i], 1, dz, spin) == AboutZ(spin, Raise(seed[i], dz)) {
      assert Turned(seed[i], 0, dz, spin) == seed[i];
    }
  }

  /** The vertex list after `steps` passes: the profile followed by rings
      0 .. steps - 1 of its last `k` vertices. */
  function RevolveVertices(vs: seq<Vec3>, k: nat, steps: nat, dz: real, spin: PlaneMap): (r: seq<Vec3>)
    requires 1 <= k <= |vs|
    ensures |r| == |vs| + Times(steps, k)
    decreases steps
  {
    if steps == 0 then vs
    else RevolveVertices(vs, k, steps - 1, dz, spin) + Ring(vs[|vs| - k..], steps - 1, dz, spin)
  }

  /** The seed ring: the last `k` vertices of the profile. */
  function Seed(vs: seq<Vec3>, k: nat): (r: seq<Vec3>)
    requires k <= |vs|
    ensures |r| == k
  {
    vs[|vs| - k..]
  }

  /** The passes only append: the profile stays in front. */
  lemma {:induction false} RevolveVerticesPrefix(vs: seq<Vec3>, k: nat, steps: nat, dz: real, spin: PlaneMap, p: nat)
    requires 1 <= k <= |vs| && p < |vs|
    ensures RevolveVertices(vs, k, steps, dz, spin)[p] == vs[p]
    decreases steps
  {
    if steps > 0 {
      RevolveVerticesPrefix(vs, k, steps - 1, dz, spin, p);
    }
  }

  /** The last `k` vertices after `steps > 0` passes are the newest ring. */
  lemma LastRing(vs: seq<Vec3>, k: nat, steps: nat, dz: real, spin: PlaneMap)
    requires 1 <= k <= |vs| && steps > 0
    ensures Seed(RevolveVertices(vs, k, steps, dz, spin), k) == Ring(Seed(vs, k), steps - 1, dz, spin)
  {
    var prev := RevolveVertices(vs, k, steps - 1, dz, spin);
    var ring := Ring(Seed(vs, k), steps - 1, dz, spin);
    assert (prev + ring)[|prev + ring| - k..] == ring;
  }

  /** The closed form is the source's loop: one more pass appends the
      previous ring (the last `k` vertices) raised and turned once more. */
  lemma RevolveVerticesStep(vs: seq<Vec3>, k: nat, n: nat, dz: real, spin: PlaneMap)
    requires 1 <= k <= |vs|
    ensures var prev := RevolveVertices(vs, k, n, dz, spin);
      RevolveVertices(vs, k, n + 1, dz, spin) == prev + NextRing(Seed(prev, k), dz, spin)
  {
    if n == 0 {
      RingIsNextRing(Seed(vs, k), 0, dz, spin);
    } else {
      LastRing(vs, k, n, dz, spin);
      RingIsNextRing(Seed(vs, k), n - 1, dz, spin);
    }
  }

  /** Every vertex a pass appends is the vertex one ring (`k` places) back,
      raised by `dz` and turned by `spin`. */
  lemma {:induction false} RevolveRingFromPrevious(vs: seq<Vec3>, k: nat, steps: nat, dz: real, spin: PlaneMap, p: nat)
    requires 1 <= k <= |vs|
    requires |vs| <= p < |RevolveVertices(vs, k, steps, dz, spin)|
    ensures var r := RevolveVertices(vs, k, steps, dz, spin);
      r[p] == AboutZ(spin, Raise(r[p - k], dz))
    decreases steps
  {
    var r := RevolveVertices(vs, k, steps, dz, spin);
    var prev := RevolveVertices(vs, k, steps - 1, dz, spin);
    RevolveVerticesStep(vs, k, steps - 1, dz, spin);
    assert r == prev + NextRing(Seed(prev, k), dz, spin);
    if p < |prev| {
      RevolveRingFromPrevious(vs, k, steps - 1, dz, spin, p);
      assert r[p] == prev[p] && r[p - k] == prev[p - k];
    } else {
      var i := p - |prev|;
      assert r[p] == NextRing(Seed(prev, k), dz, spin)[i];
      assert Seed(prev, k)[i] == prev[p - k];
      assert r[p - k] == prev[p - k];
    }
  }

  /** Vertex i of ring j is seed vertex i after j + 1 passes. */
  lemma {:induction false} RevolveVerticesAt(vs: seq<Vec3>, k: nat, steps: nat, dz: real, spin: PlaneMap, j: nat, i: nat)
    requires 1 <= k <= |vs| && j < steps && i < k
    ensures |vs| + Times(j, k) + i < |RevolveVertices(vs, k, steps, dz, spin)|
    ensures RevolveVertices(vs, k, steps, dz, spin)[|vs| + Times(j, k) + i] == Turned(vs[|vs| - k + i], j + 1, dz, spin)
    decreases steps
  {
    RingStartBound(k, steps, j, i);
    var prev := RevolveVertices(vs, k, steps - 1, dz, spin);
    if j < steps - 1 {
      RevolveVerticesAt(vs, k, steps - 1, dz, spin, j, i);
    } else {
      var ring := Ring(Seed(vs, k), steps - 1, dz, spin);
      assert (prev + ring)[|prev| + i] == ring[i];
    }
  }

  /** `steps` passes end `steps` increments of `dz` above the end of the
      profile. */
  lemma {:induction false} RevolveLastHeight(vs: seq<Vec3>, k: nat, steps: nat, dz: real, spin: PlaneMap)
    requires 1 <= k <= |vs|
    ensures var r := RevolveVertices(vs, k, steps, dz, spin);
      r[|r| - 1].z == vs[|vs| - 1].z + Rise(steps, dz)
  {
    if steps > 0 {
      RevolveVerticesAt(vs, k, steps, dz, spin, steps - 1, k - 1);
      TurnedHeight(vs[|vs| - 1], steps, dz, spin);
    }
  }

  // ---------------------------------------------------------------------------
  // Faces

  /** Faces one pass adds: a quad per profile edge, plus the closing quad. */
  function FacesPerStep(k: nat, close: bool): nat
    requires k >= 1
  {
    k - 1 + (if close then 1 else 0)
  }

  /** The quads of one pass, indexed as the source indexes them: from the
      vertex count `n` reached once the new ring is appended. */
  function RingQuads(n: nat, k: nat): (r: seq<Face>)
    requires 1 <= k && 2 * k <= n
    ensures |r| == k - 1
    ensures forall j :: 0 <= j < k - 1 ==> r[j] == [n - 2 * k + j, n - 2 * k + j + 1, n - k + j + 1, n - k + j]
  {
    seq(k - 1, j requires 0 <= j < k - 1 => [n - k * 2 + j, n - k * 2 + 1 + j, n - k + 1 + j, n - k + j])
  }

  /** The faces one pass appends once the previous ring starts at `q - k`
      and the new ring at `q`: quad j joins profile edge (j, j + 1) of the two
      rings and, with `close`, one more quad joins the profile's last vertex
      back to its first. */
  function StepFaces(q: nat, k: nat, close: bool): (r: seq<Face>)
    requires 1 <= k <= q
    ensures |r| == FacesPerStep(k, close)
    ensures forall j :: 0 <= j < k - 1 ==> r[j] == [q - k + j, q - k + j + 1, q + j + 1, q + j]
    ensures close ==> r[|r| - 1] == [q - 1, q - k, q, q + k - 1]
  {
    var n := q + k;
    var quads := RingQuads(n, k);
    var closing: seq<Face> := if close then [[n - k * 2 + k - 1, n - k * 2, n - k, n - k + k - 1]] else [];
    assert forall j :: 0 <= j < k - 1 ==> (quads + closing)[j] == quads[j];
    quads + closing
  }

  /** The face list `steps` passes append to a mesh of `q` vertices. */
  function RevolveFaces(q: nat, k: nat, steps: nat, close: bool): (r: seq<Face>)
    requires 1 <= k <= q
    ensures |r| == Times(steps, FacesPerStep(k, close))
    decreases steps
  {
    if steps == 0 then []
    else RevolveFaces(q, k, steps - 1, close) + StepFaces(q + Times(steps - 1, k), k, close)
  }

  /** Each pass stitches only the previous ring and the new one. */
  lemma {:induction false} StepFacesInBounds(q: nat, k: nat, close: bool)
    requires 1 <= k <= q
    ensures FacesInBounds(StepFaces(q, k, close), q + k)
  {
    var r := StepFaces(q, k, close);
    forall i | 0 <= i < |r| ensures FaceInBounds(r[i], q + k) {
      if i < k - 1 {
        assert r[i] == [q - k + i, q - k + i + 1, q + i + 1, q + i];
      } else {
        assert r[i] == [q - 1, q - k, q, q + k - 1];
      }
    }
  }

  /** Every face the passes append names a vertex that exists once they are
      done. */
  lemma {:induction false} RevolveFacesInBounds(q: nat, k: nat, steps: nat, close: bool)
    requires 1 <= k <= q
    ensures FacesInBounds(RevolveFaces(q, k, steps, close), q + Times(steps, k))
    decreases steps
  {
    if steps > 0 {
      var before := RevolveFaces(q, k, steps - 1, close);
      var step := StepFaces(q + Times(steps - 1, k), k, close);
      var n := q + Times(steps, k);
      RevolveFacesInBounds(q, k, steps - 1, close);
      StepFacesInBounds(q + Times(steps - 1, k), k, close);
      FacesInBoundsGrow(before, q + Times(steps - 1, k), n);
      FacesInBoundsConcat(before, step, n);
    }
  }

  /** The faces of pass t sit at offset t * FacesPerStep and stitch ring t - 1
      (the seed profile for t = 0) to ring t. */
  lemma {:induction false} RevolveFacesAt(q: nat, k: nat, steps: nat, close: bool, t: nat, j: nat)
    requires 1 <= k <= q && t < steps && j < FacesPerStep(k, close)
    ensures Times(t, FacesPerStep(k, close)) + j < |RevolveFaces(q, k, steps, close)|
    ensures RevolveFaces(q, k, steps, close)[Times(t, FacesPerStep(k, close)) + j]
         == StepFaces(q + Times(t, k), k, close)[j]
    decreases steps
  {
    if t < steps - 1 {
      RevolveFacesAt(q, k, steps - 1, close, t, j);
      MonotoneTimes(t + 1, steps - 1, FacesPerStep(k, close));
    }
  }

  // ---------------------------------------------------------------------------
  // Whole passes, as the source interleaves them

  /** One iteration of the source's loop: append the next ring, then the
      faces that stitch it to the previous one. */
  function Pass(m: Mesh, k: nat, close: bool, dz: real, spin: PlaneMap): (r: Mesh)
    requires 1 <= k <= |m.vertices|
    ensures |r.vertices| == |m.vertices| + k
  {
    var vs := m.vertices + NextRing(Seed(m.vertices, k), dz, spin);
    Mesh(vs, m.faces + StepFaces(|m.vertices|, k, close))
  }

  /** `n` iterations of the loop. */
  function Passes(m: Mesh, k: nat, close: bool, dz: real, spin: PlaneMap, n: nat): (r: Mesh)
    requires 1 <= k <= |m.vertices|
    ensures |r.vertices| == |m.vertices| + Times(n, k)
    decreases n
  {
    if n == 0 then m else Pass(Passes(m, k, close, dz, spin, n - 1), k, close, dz, spin)
  }

  /** The interleaved loop builds the vertex list and the face list that the
      two separate recursions describe. */
  lemma {:induction false} PassesSplit(m: Mesh, k: nat, close: bool, dz: real, spin: PlaneMap, n: nat)
    requires 1 <= k <= |m.vertices|
    ensures Passes(m, k, close, dz, spin, n)
         == Mesh(RevolveVertices(m.vertices, k, n, dz, spin),
                 m.faces + RevolveFaces(|m.vertices|, k, n, close))
    decreases n
  {
    if n > 0 {
      var prev := Passes(m, k, close, dz, spin, n - 1);
      assert Passes(m, k, close, dz, spin, n) == Pass(prev, k, close, dz, spin);
      PassesSplit(m, k, close, dz, spin, n - 1);
      PassAfterSplit(m, k, close, dz, spin, n);
    }
  }

  /** One more pass over the split form of `n - 1` passes. */
  lemma PassAfterSplit(m: Mesh, k: nat, close: bool, dz: real, spin: PlaneMap, n: nat)
    requires 1 <= k <= |m.vertices| && n > 0
    ensures Pass(Mesh(RevolveVertices(m.vertices, k, n - 1, dz, spin), m.faces + RevolveFaces(|m.vertices|, k, n - 1, close)),
                 k, close, dz, spin)
         == Mesh(RevolveVertices(m.vertices, k, n, dz, spin),
                 m.faces + RevolveFaces(|m.vertices|, k, n, close))
  {
    var vs := RevolveVertices(m.vertices, k, n - 1, dz, spin);
    var fs := RevolveFaces(|m.vertices|, k, n - 1, close);
    var next := Pass(Mesh(vs, m.faces + fs), k, close, dz, spin);
    RevolveVerticesStep(m.vertices, k, n - 1, dz, spin);
    assert next.vertices == RevolveVertices(m.vertices, k, n, dz, spin);
    PassFacesAfterSplit(m.faces, |m.vertices|, k, close, n);
  }

  /** The faces half of `PassAfterSplit`. */
  lemma PassFacesAfterSplit(faces: seq<Face>, q: nat, k: nat, close: bool, n: nat)
    requires 1 <= k <= q && n > 0
    ensures (faces + RevolveFaces(q, k, n - 1, close)) + StepFaces(q + Times(n - 1, k), k, close)
         == faces + RevolveFaces(q, k, n, close)
  {
    FacesAppend(faces, RevolveFaces(q, k, n - 1, close), StepFaces(q + Times(n - 1, k), k, close));
  }

  lemma FacesAppend(a: seq<Face>, b: seq<Face>, c: seq<Face>)
    ensures (a + b) + c == a + (b + c)
  {
  }

  /** The loop of `add_revolved_surface` with a given rise per pass `dz`:
      it builds the profile followed by `segments` rings, and the faces that
      stitch them. */
  method Sweep(m: Mesh, k: nat, segments: nat, close: bool, dz: real, spin: PlaneMap) returns (r: Mesh)
    requires 1 <= k <= |m.vertices|
    ensures r.vertices == RevolveVertices(m.vertices, k, segments, dz, spin)
    ensures r.faces == m.faces + RevolveFaces(|m.vertices|, k, segments, close)
  {
    r := m;
    var s := 0;
    while s < segments
      invariant s <= segments
      invariant r == Passes(m, k, close, dz, spin, s)
    {
      r := Pass(r, k, close, dz, spin);
      s := s + 1;
    }
    PassesSplit(m, k, close, dz, spin, segments);
  }

  /** What the sweep leaves of the vertices: every appended vertex is the
      vertex one ring back raised and turned, and the profile's end has
      climbed `segments` increments. */
  lemma SweepRings(m: Mesh, k: nat, segments: nat, dz: real, spin: PlaneMap)
    requires 1 <= k <= |m.vertices|
    ensures var vs := RevolveVertices(m.vertices, k, segments, dz, spin);
      && (forall p :: |m.vertices| <= p < |vs| ==> vs[p] == AboutZ(spin, Raise(vs[p - k], dz)))
      && vs[|vs| - 1].z == m.vertices[|m.vertices| - 1].z + Rise(segments, dz)
  {
    var vs := RevolveVertices(m.vertices, k, segments, dz, spin);
    forall p | |m.vertices| <= p < |vs|
      ensures vs[p] == AboutZ(spin, Raise(vs[p - k], dz))
    {
      RevolveRingFromPrevious(m.vertices, k, segments, dz, spin, p);
    }
    RevolveLastHeight(m.vertices, k, segments, dz, spin);
  }

  /** The shape the sweep leaves: `segments * k` more vertices after the
      untouched old ones, `segments` runs of quads, and only faces that name
      vertices that exist. */
  lemma SweepShape(m: Mesh, k: nat, segments: nat, close: bool, dz: real, spin: PlaneMap)
    requires 1 <= k <= |m.vertices|
    ensures var vs := RevolveVertices(m.vertices, k, segments, dz, spin);
      && |vs| == |m.vertices| + segments * k
      && |RevolveFaces(|m.vertices|, k, segments, close)| == segments * (k - 1) + (if close then segments else 0)
      && vs[..|m.vertices|] == m.vertices
      && (WellFormed(m) ==> WellFormed(Mesh(vs, m.faces + RevolveFaces(|m.vertices|, k, segments, close))))
  {
    var vs := RevolveVertices(m.vertices, k, segments, dz, spin);
    TimesIsProduct(segments, k);
    TimesIsProduct(segments, FacesPerStep(k, close));
    forall p | 0 <= p < |m.vertices| ensures vs[p] == m.vertices[p] {
      RevolveVerticesPrefix(m.vertices, k, segments, dz, spin, p);
    }
    RevolveFacesInBounds(|m.vertices|, k, segments, close);
    GrowKeepsWellFormed(m, vs, RevolveFaces(|m.vertices|, k, segments, close));
  }

  /** `add_revolved_surface(vertices, faces, k, segments, close, z_offset)`:
      a full turn in `segments` rings, each rising `z_offset / segments` above
      the one before; `spin` is the rotation by -360/segments degrees about
      Z. The existing vertices and faces stay in front, every new vertex is
      the vertex one ring back raised and turned, and the end of the profile
      climbs by `z_offset` in total. */
  method AddRevolvedSurface(m: Mesh, k: nat, segments: nat, close: bool, zOffset: real, spin: PlaneMap)
    returns (r: Mesh)
    requires segments > 0 && 1 <= k <= |m.vertices|
    ensures |r.vertices| == |m.vertices| + segments * k
    ensures |r.faces| == |m.faces| + segments * (k - 1) + (if close then segments else 0)
    ensures r.vertices[..|m.vertices|] == m.vertices
    ensures r.faces == m.faces + RevolveFaces(|m.vertices|, k, segments, close)
    ensures forall p :: |m.vertices| <= p < |r.vertices| ==>
              r.vertices[p] == AboutZ(spin, Raise(r.vertices[p - k], zOffset / segments as real))
    ensures WellFormed(m) ==> WellFormed(r)
    ensures r.vertices[|r.vertices| - 1].z == m.vertices[|m.vertices| - 1].z + zOffset
  {
    r := Sweep(m, k, segments, close, zOffset / segments as real, spin);
    SweepRings(m, k, segments, zOffset / segments as real, spin);
    SweepShape(m, k, segments, close, zOffset / segments as real, spin);
    RiseSplits(zOffset, segments);
  }
}
