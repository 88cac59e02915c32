/** The lead screw generator's thread cutter: the trapezoid cross-section
    of one thread start, one trapezoid per start stacked a pitch apart, and
    the number of revolutions of that section needed to cover the rod.

    The revolve itself, the rod cylinder and the boolean cut are done by
    helpers and by Blender and are not part of this model; `tan` is a
    parameter. */
module LeadScrew {
  import opened Geometry

  /** The section's dimensions: `t` is the axial run of a flank, `top` the
      axial width of the crest (and of the root), `overshoot` how far the
      cutter reaches past the major radius. */
  datatype Section = Section(major: real, minor: real, pitch: real, t: real, top: real, overshoot: real)

  /** The axial run of a flank of depth (major - minor)/2 at half the thread
      angle. */
  function FlankRun(tan: real -> real, major: real, minor: real, threadAngle: real): real {
    tan(threadAngle / 2.0) * ((major - minor) / 2.0)
  }

  /** `thread_top_length`: what is left of the pitch after both flanks,
      shared equally by crest and root. */
  function ThreadTopLength(pitch: real, t: real): (top: real)
    ensures 2.0 * top + 2.0 * t == pitch
  {
    ((pitch - t * 2.0) / 4.0) * 2.0
  }

  /** The section for the operator's properties. */
  function SectionOf(tan: real -> real, pi: real, major: real, minor: real, pitch: real, threadAngle: real): (s: Section)
    ensures 2.0 * s.top + 2.0 * s.t == s.pitch
  {
    var t := FlankRun(tan, major, minor, threadAngle);
    var top := ThreadTopLength(pitch, t);
    Section(major, minor, pitch, t, top, top * tan(pi - pi / 2.0 - threadAngle / 2.0))
  }

  /** The four corners of one trapezoid, in the XZ plane on the negative x
      side, starting at height `z`. */
  function Trapezoid(s: Section, z: real): (r: seq<Vec3>)
    ensures |r| == 4
  {
    [Vec3(-s.major / 2.0 - s.overshoot, 0.0, z),
     Vec3(-s.minor / 2.0, 0.0, z + s.top / 2.0 + s.t),
     Vec3(-s.minor / 2.0, 0.0, z + s.top / 2.0 + s.t + s.top),
     Vec3(-s.major / 2.0 - s.overshoot, 0.0, z + (s.top / 2.0 + s.t) * 2.0 + s.top)]
  }

  /** The trapezoid spans exactly one pitch along the axis, is symmetric
      (both flanks rise by top/2 + t, the flat between them is `top` long),
      and has its inner edge on the minor radius. */
  lemma TrapezoidShape(s: Section, z: real)
    requires 2.0 * s.top + 2.0 * s.t == s.pitch
    ensures var v := Trapezoid(s, z);
      && v[3].z - v[0].z == s.pitch
      && v[1].z - v[0].z == s.top / 2.0 + s.t
      && v[3].z - v[2].z == s.top / 2.0 + s.t
      && v[2].z - v[1].z == s.top
      && v[1].x == v[2].x == -s.minor / 2.0
      && v[0].x == v[3].x
      && forall k :: 0 <= k < 4 ==> v[k].y == 0.0
  {
  }

  /** The `z_offset` of the loop before pass `i`: advanced by one pitch per
      pass. */
  function StartZ(pitch: real, i: nat): (z: real)
    ensures z == i as real * pitch
  {
    if i == 0 then 0.0 else StartZ(pitch, i - 1) + pitch
  }

  /** The loop over the thread starts: pass `i` appends the trapezoid at
      `StartZ(i)` and one face over exactly its four new vertices. */
  function ThreadSections(s: Section, lead: nat): (m: Mesh)
    ensures |m.vertices| == 4 * lead && |m.faces| == lead
    ensures WellFormed(m)
    ensures forall i :: 0 <= i < lead ==> m.faces[i] == Range(4 * i, 4 * i + 4)
  {
    if lead == 0 then Mesh([], [])
    else
      var m := ThreadSections(s, lead - 1);
      var n := |m.vertices|;
      var r := Mesh(m.vertices + Trapezoid(s, StartZ(s.pitch, lead - 1)), m.faces + [Range(n, n + 4)]);
      FacesInBoundsGrow(m.faces, n, n + 4);
      FacesInBoundsConcat(m.faces, [Range(n, n + 4)], n + 4);
      r
  }

  /** Vertices `4 i` to `4 i + 3` are the trapezoid of start `i`, which sits
      `i` pitches up (`StartZ(pitch, i) == i * pitch`). */
  lemma {:induction false} ThreadSectionAt(s: Section, lead: nat, i: nat)
    requires i < lead
    ensures ThreadSections(s, lead).vertices[4 * i..4 * i + 4] == Trapezoid(s, StartZ(s.pitch, i))
    decreases lead
  {
    var m := ThreadSections(s, lead - 1);
    var vs := ThreadSections(s, lead).vertices;
    assert vs == m.vertices + Trapezoid(s, StartZ(s.pitch, lead - 1));
    if i < lead - 1 {
      ThreadSectionAt(s, lead - 1, i);
      assert vs[4 * i..4 * i + 4] == m.vertices[4 * i..4 * i + 4];
    } else {
      assert vs[4 * i..4 * i + 4] == vs[|m.vertices|..];
    }
  }

  /** The trapezoids of consecutive starts meet: each one ends where the
      next begins, so the starts together cover `lead` pitches without gap
      or overlap. */
  lemma ThreadSectionsMeet(s: Section, lead: nat, i: nat)
    requires 2.0 * s.top + 2.0 * s.t == s.pitch
    requires i + 1 < lead
    ensures ThreadSections(s, lead).vertices[4 * i + 3].z == ThreadSections(s, lead).vertices[4 * (i + 1)].z
  {
    var vs := ThreadSections(s, lead).vertices;
    ThreadSectionAt(s, lead, i);
    ThreadSectionAt(s, lead, i + 1);
    assert vs[4 * i + 3] == vs[4 * i..4 * i + 4][3];
    assert vs[4 * (i + 1)] == vs[4 * (i + 1)..4 * (i + 1) + 4][0];
    TrapezoidShape(s, StartZ(s.pitch, i));
  }

  // ---------------------------------------------------------------------------
  // pitch_iteration

  /** The number of times the section is revolved: enough leads to cover
      the length, plus two. */
  function PitchIteration(length: real, lead: nat, pitch: real): (n: int)
    requires lead >= 1 && pitch > 0.0
  {
    Ceil(length / (lead as real * pitch)) + 2
  }

  /** Each revolution rises by one lead (`lead * pitch`). The cutter is
      lowered by one lead before the cut, so the revolutions reach from one
      lead below the rod's base to at least one lead above its end. */
  lemma PitchIterationCovers(length: real, lead: nat, pitch: real)
    requires lead >= 1 && pitch > 0.0 && length >= 0.0
    ensures var step := lead as real * pitch;
      && PitchIteration(length, lead, pitch) >= 2
      && (PitchIteration(length, lead, pitch) - 1) as real * step >= length + step
  {
    var step := lead as real * pitch;
    assert step > 0.0 by { MulPos(lead as real, pitch); }
    var c := Ceil(length / step);
    assert c as real >= length / step >= 0.0;
    assert c as real * step >= length by {
      assert (c as real - length / step) * step >= 0.0 by {
        if c as real - length / step > 0.0 { MulPos(c as real - length / step, step); }
      }
    }
    assert (c + 1) as real * step == c as real * step + step;
  }
}
