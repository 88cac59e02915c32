/** The shared helpers of the add-on that operate on plain Python lists:
    face extrusion and the list branch of vertex translation. */
module RomlyUtils {
  import opened Geometry

  /** The copy loop of `extrude_face`: every listed index is copied, raised by
      `dz` and appended, in list order. An index may name a copy appended
      earlier in the same loop, since the list grows while it is read. */
  function AppendRaised(vs: seq<Vec3>, idx: seq<nat>, dz: real): (r: seq<Vec3>)
    requires forall k :: 0 <= k < |idx| ==> idx[k] < |vs| + k
    ensures |r| == |vs| + |idx|
    ensures r[..|vs|] == vs
    ensures forall k :: 0 <= k < |idx| ==> r[|vs| + k] == Raise(r[idx[k]], dz)
    decreases |idx|
  {
    if |idx| == 0 then vs
    else
      var vs' := vs + [Raise(vs[idx[0]], dz)];
      var r := AppendRaised(vs', idx[1..], dz);
      assert r[..|vs|] == vs by {
        assert r[..|vs'|] == vs';
        assert r[..|vs|] == r[..|vs'|][..|vs|];
      }
      assert forall k :: 1 <= k < |idx| ==> r[|vs| + k] == Raise(r[idx[k]], dz) by {
        forall k | 1 <= k < |idx|
          ensures r[|vs| + k] == Raise(r[idx[k]], dz)
        {
          assert idx[1..][k - 1] == idx[k];
        }
      }
      assert r[|vs|] == vs'[|vs|];
      r
  }

  /** The side quads of `extrude_face`: quad i joins edge (i, i+1) of the
      listed ring to the same edge of the copied ring, which starts at index
      `base`; the last quad closes the ring by returning to the first index. */
  function SideQuads(idx: seq<nat>, base: nat): (r: seq<Face>)
    ensures |r| == |idx|
    ensures forall i {:trigger r[i]} :: 0 <= i < |idx| - 1 ==>
      r[i] == [idx[i], idx[i + 1], base + i + 1, base + i]
    ensures |idx| > 0 ==> r[|idx| - 1] == [idx[|idx| - 1], idx[0], base, base + |idx| - 1]
  {
    var n := |idx|;
    seq(n, i requires 0 <= i < n =>
      if i == n - 1 then [idx[i], idx[0], base, base + i]
      else [idx[i], idx[i + 1], base + i + 1, base + i])
  }

  /** `extrude_face(vertices, faces, idx, dz, cap)`: sweeps the ring of listed
      vertices by `dz` along z, adding the swept copies, one side quad per
      listed vertex and, with `cap`, the copied ring as a face in reverse
      order (so that it faces the other way). */
  function ExtrudeFace(m: Mesh, idx: seq<nat>, dz: real, cap: bool): (r: Mesh)
    requires forall k :: 0 <= k < |idx| ==> idx[k] < |m.vertices| + k
    ensures |r.vertices| == |m.vertices| + |idx|
    ensures r.vertices[..|m.vertices|] == m.vertices
    ensures forall k :: 0 <= k < |idx| ==>
      r.vertices[|m.vertices| + k] == Raise(r.vertices[idx[k]], dz)
    ensures forall k :: 0 <= k < |idx| && idx[k] < |m.vertices| ==>
      r.vertices[|m.vertices| + k] == Raise(m.vertices[idx[k]], dz)
    ensures |r.faces| == |m.faces| + |idx| + (if cap then 1 else 0)
    ensures r.faces[..|m.faces|] == m.faces
    ensures r.faces[|m.faces|..|m.faces| + |idx|] == SideQuads(idx, |m.vertices|)
    ensures cap ==>
      var c := r.faces[|r.faces| - 1];
      |c| == |idx| && forall k :: 0 <= k < |c| ==> c[k] == |r.vertices| - 1 - k
  {
    RaisedKeepsOld(m.vertices, idx, dz);
    Mesh(AppendRaised(m.vertices, idx, dz), ExtrudedFaces(m.faces, idx, |m.vertices|, cap))
  }

  /** A copy of an index below the original count is a copy of the original
      vertex. */
  lemma RaisedKeepsOld(vs: seq<Vec3>, idx: seq<nat>, dz: real)
    requires forall k :: 0 <= k < |idx| ==> idx[k] < |vs| + k
    ensures var r := AppendRaised(vs, idx, dz);
      forall k :: 0 <= k < |idx| && idx[k] < |vs| ==> r[|vs| + k] == Raise(vs[idx[k]], dz)
  {
    var r := AppendRaised(vs, idx, dz);
    forall k | 0 <= k < |idx| && idx[k] < |vs|
      ensures r[|vs| + k] == Raise(vs[idx[k]], dz)
    {
      assert r[..|vs|][idx[k]] == r[idx[k]];
    }
  }

  /** The faces after extruding the ring `idx` whose copies start at `base`:
      the old faces, the side quads and, with `cap`, the reversed copy. */
  function ExtrudedFaces(faces: seq<Face>, idx: seq<nat>, base: nat, cap: bool): (r: seq<Face>)
    ensures |r| == |faces| + |idx| + (if cap then 1 else 0)
    ensures r[..|faces|] == faces
    ensures r[|faces|..|faces| + |idx|] == SideQuads(idx, base)
    ensures cap ==>
      var c := r[|r| - 1];
      |c| == |idx| && forall k :: 0 <= k < |c| ==> c[k] == base + |idx| - 1 - k
  {
    var capFace := if cap then [Reverse(Range(base, base + |idx|))] else [];
    ThreeParts(faces, SideQuads(idx, base), capFace);
    ReversedRun(base, base + |idx|);
    faces + SideQuads(idx, base) + capFace
  }

  /** The parts of a three-way concatenation can be read back by position. */
  lemma ThreeParts<T>(a: seq<T>, b: seq<T>, c: seq<T>)
    ensures (a + b + c)[..|a|] == a
    ensures (a + b + c)[|a|..|a| + |b|] == b
    ensures |c| == 1 ==> (a + b + c)[|a + b + c| - 1] == c[0]
  {
  }

  /** The run `lo .. hi - 1` reversed counts down from `hi - 1`. */
  lemma ReversedRun(lo: nat, hi: nat)
    requires lo <= hi
    ensures var c := Reverse(Range(lo, hi));
      |c| == hi - lo && forall k :: 0 <= k < |c| ==> c[k] == hi - 1 - k
  {
  }

  /** Extrusion keeps every face index in bounds: the side quads name listed
      vertices and their copies, and the cap names only copies. */
  lemma ExtrudeFaceKeepsWellFormed(m: Mesh, idx: seq<nat>, dz: real, cap: bool)
    requires forall k :: 0 <= k < |idx| ==> idx[k] < |m.vertices| + k
    requires WellFormed(m)
    ensures WellFormed(ExtrudeFace(m, idx, dz, cap))
  {
    var r := ExtrudeFace(m, idx, dz, cap);
    var n := |idx|;
    var base := |m.vertices|;
    var quads := SideQuads(idx, base);
    var capFace := if cap then [Reverse(Range(base, base + n))] else [];
    assert r.faces == m.faces + quads + capFace;
    SideQuadsInBounds(idx, base);
    FacesInBoundsGrow(m.faces, base, base + n);
    FacesInBoundsConcat(m.faces + quads, capFace, base + n);
    FacesInBoundsConcat(m.faces, quads, base + n);
  }

  lemma SideQuadsInBounds(idx: seq<nat>, base: nat)
    requires forall k :: 0 <= k < |idx| ==> idx[k] < base + k
    ensures FacesInBounds(SideQuads(idx, base), base + |idx|)
  {
    var q := SideQuads(idx, base);
    forall i | 0 <= i < |q|
      ensures FaceInBounds(q[i], base + |idx|)
    {
      if i < |idx| - 1 {
        assert q[i] == [idx[i], idx[i + 1], base + i + 1, base + i];
      }
    }
  }

  /** The list branch of `translate_vertices`: every element is replaced, in
      place and in order, by itself plus the vector. */
  method TranslateVertices(vs: seq<Vec3>, offset: Vec3) returns (r: seq<Vec3>)
    ensures |r| == |vs|
    ensures forall k :: 0 <= k < |vs| ==> r[k] == Add(vs[k], offset)
    ensures r == TranslateAll(vs, offset)
  {
    r := vs;
    var i := 0;
    while i < |r|
      invariant |r| == |vs| && 0 <= i <= |r|
      invariant forall k :: 0 <= k < i ==> r[k] == Add(vs[k], offset)
      invariant forall k :: i <= k < |r| ==> r[k] == vs[k]
    {
      r := r[i := Add(r[i], offset)];
      i := i + 1;
    }
  }

  /** The in-place loop agrees with the functional translation, and moving
      back by the opposite vector restores the original points. */
  lemma TranslateVerticesUndo(vs: seq<Vec3>, offset: Vec3)
    ensures TranslateAll(TranslateAll(vs, offset), Neg(offset)) == vs
  {
    var back := TranslateAll(TranslateAll(vs, offset), Neg(offset));
    assert forall k :: 0 <= k < |vs| ==> back[k] == vs[k];
  }
}
