/** Shared vocabulary of the mesh generators: points as real triples, faces as
    index lists, optional results, index ranges and the handful of Python
    numeric operations (floor, ceil, float modulo, math.isclose) that the
    generators rely on, written out over the reals. */
module Geometry {

  /** A mathutils.Vector of three components. Floats are modelled as reals. */
  datatype Vec3 = Vec3(x: real, y: real, z: real)

  /** Python's None-or-value results. */
  datatype Option<T> = None | Some(value: T)

  /** A raised ValueError (or any other exception) versus a value. */
  datatype Result<T> = Ok(value: T) | Err(message: string)

  /** A polygon as the list of its vertex indices. */
  type Face = seq<nat>

  /** The (vertices, faces) pair that every generator hands to Blender. */
  datatype Mesh = Mesh(vertices: seq<Vec3>, faces: seq<Face>)

  const Origin := Vec3(0.0, 0.0, 0.0)

  function Add(a: Vec3, b: Vec3): Vec3 { Vec3(a.x + b.x, a.y + b.y, a.z + b.z) }
  function Sub(a: Vec3, b: Vec3): Vec3 { Vec3(a.x - b.x, a.y - b.y, a.z - b.z) }
  function Neg(a: Vec3): Vec3 { Vec3(-a.x, -a.y, -a.z) }
  function Scale(k: real, a: Vec3): Vec3 { Vec3(k * a.x, k * a.y, k * a.z) }
  function Dot(a: Vec3, b: Vec3): real { a.x * b.x + a.y * b.y + a.z * b.z }
  function Cross(a: Vec3, b: Vec3): Vec3 {
    Vec3(a.y * b.z - a.z * b.y, a.z * b.x - a.x * b.z, a.x * b.y - a.y * b.x)
  }

  /** The point moved along z only (a copy with `v.z += dz`). */
  function Raise(v: Vec3, dz: real): Vec3 { Vec3(v.x, v.y, v.z + dz) }

  /** A rotation about the Z axis given the cosine and sine of its angle
      (`Matrix.Rotation(angle, 4, 'Z')` applied to a point). */
  function RotateZ(c: real, s: real, v: Vec3): Vec3 {
    Vec3(c * v.x - s * v.y, s * v.x + c * v.y, v.z)
  }

  /** Every point turned about the z axis by the rotation with cosine `c`
      and sine `s`, in order. */
  function RotateAll(c: real, s: real, vs: seq<Vec3>): (r: seq<Vec3>)
    ensures |r| == |vs|
    ensures forall k :: 0 <= k < |vs| ==> r[k] == RotateZ(c, s, vs[k])
  {
    seq(|vs|, k requires 0 <= k < |vs| => RotateZ(c, s, vs[k]))
  }

  /** A map of the (x, y) plane, such as the rotation by a fixed angle. */
  type PlaneMap = (real, real) -> (real, real)

  /** The point with its (x, y) part mapped and its height kept: how a
      rotation about the Z axis moves a point. */
  function AboutZ(spin: PlaneMap, v: Vec3): Vec3 {
    Vec3(spin(v.x, v.y).0, spin(v.x, v.y).1, v.z)
  }

  /** A rotation about Z given by its cosine and sine is such a map. */
  lemma RotateZAboutZ(c: real, s: real, v: Vec3)
    ensures AboutZ((x: real, y: real) => (c * x - s * y, s * x + c * y), v) == RotateZ(c, s, v)
  {
  }

  /** `math.sqrt`, supplied by the caller: any function that is a square root
      on the non-negative reals. */
  ghost predicate IsSqrt(sqrt: real -> real) {
    forall a :: 0.0 <= a ==> 0.0 <= sqrt(a) && sqrt(a) * sqrt(a) == a
  }

  /** `math.cos` and `math.sin`, supplied by the caller: any pair that
      satisfies cos^2 + sin^2 = 1 will do. */
  ghost predicate Pythagorean(cos: real -> real, sin: real -> real) {
    forall x :: cos(x) * cos(x) + sin(x) * sin(x) == 1.0
  }

  lemma MulPos(x: real, y: real)
    requires x > 0.0 && y > 0.0
    ensures x * y > 0.0
  {
  }

  /** Two non-negative numbers with the same square are equal. */
  lemma SquaresEqual(s: real, a: real)
    requires s >= 0.0 && a >= 0.0 && s * s == a * a
    ensures s == a
  {
    if s < a {
      MulPos(a - s, a + s);
    } else if s > a {
      MulPos(s - a, a + s);
    }
  }

  function Square(a: real): real { a * a }

  /** A square root returns the non-negative root of a square. */
  lemma SqrtOfSquare(sqrt: real -> real, a: real)
    requires IsSqrt(sqrt) && a >= 0.0
    ensures sqrt(Square(a)) == a
  {
    assert Square(a) >= 0.0;
    SquaresEqual(sqrt(Square(a)), a);
  }

  /** Euclidean length `Vector.length` under a given square root. */
  function Length(sqrt: real -> real, v: Vec3): real { sqrt(Dot(v, v)) }

  /** `list(range(lo, hi))`. */
  function Range(lo: nat, hi: nat): (r: seq<nat>)
    requires lo <= hi
    ensures |r| == hi - lo
    ensures forall k :: 0 <= k < |r| ==> r[k] == lo + k
  {
    seq(hi - lo, k requires 0 <= k < hi - lo => lo + k)
  }

  /** `list(reversed(s))`. */
  function Reverse<T>(s: seq<T>): (r: seq<T>)
    ensures |r| == |s|
    ensures forall k :: 0 <= k < |s| ==> r[k] == s[|s| - 1 - k]
  {
    seq(|s|, k requires 0 <= k < |s| => s[|s| - 1 - k])
  }

  /** Adds the same vector to every point, keeping length and order. */
  function TranslateAll(vs: seq<Vec3>, offset: Vec3): (r: seq<Vec3>)
    ensures |r| == |vs|
    ensures forall k :: 0 <= k < |vs| ==> r[k] == Add(vs[k], offset)
  {
    seq(|vs|, k requires 0 <= k < |vs| => Add(vs[k], offset))
  }

  /** Every index of a face names an existing vertex. */
  predicate FaceInBounds(f: Face, n: nat) {
    forall k :: 0 <= k < |f| ==> f[k] < n
  }

  predicate FacesInBounds(faces: seq<Face>, n: nat) {
    forall i :: 0 <= i < |faces| ==> FaceInBounds(faces[i], n)
  }

  /** A mesh whose faces only name vertices it has. */
  predicate WellFormed(m: Mesh) {
    FacesInBounds(m.faces, |m.vertices|)
  }

  /** Bounds survive a larger vertex count and concatenation of face lists. */
  lemma FacesInBoundsGrow(faces: seq<Face>, n: nat, n': nat)
    requires FacesInBounds(faces, n) && n <= n'
    ensures FacesInBounds(faces, n')
  {
    forall i | 0 <= i < |faces| ensures FaceInBounds(faces[i], n') {
      assert FaceInBounds(faces[i], n);
    }
  }

  lemma FacesInBoundsConcat(a: seq<Face>, b: seq<Face>, n: nat)
    requires FacesInBounds(a, n) && FacesInBounds(b, n)
    ensures FacesInBounds(a + b, n)
  {
    forall i | 0 <= i < |a + b| ensures FaceInBounds((a + b)[i], n) {
      if i < |a| { assert (a + b)[i] == a[i]; } else { assert (a + b)[i] == b[i - |a|]; }
    }
  }

  /** Appending vertices, and faces that only name vertices of the larger
      list, keeps a mesh well formed. */
  lemma GrowKeepsWellFormed(m: Mesh, vs: seq<Vec3>, fs: seq<Face>)
    requires |m.vertices| <= |vs| && FacesInBounds(fs, |vs|)
    ensures WellFormed(m) ==> WellFormed(Mesh(vs, m.faces + fs))
  {
    if WellFormed(m) {
      FacesInBoundsGrow(m.faces, |m.vertices|, |vs|);
      FacesInBoundsConcat(m.faces, fs, |vs|);
    }
  }

  function Abs(a: real): real { if a < 0.0 then -a else a }
  function Max(a: real, b: real): real { if a < b then b else a }
  function Min(a: real, b: real): real { if a < b then a else b }

  /** The value Blender stores when `v` is assigned to a float property
      whose hard range is [lo, hi]: assignments are clamped, not refused. */
  function Clamp(lo: real, hi: real, v: real): real
    requires lo <= hi
  {
    if v < lo then lo else if hi < v then hi else v
  }

  /** `math.floor` and `math.ceil`, returning an integer. */
  function Floor(a: real): int { a.Floor }
  function Ceil(a: real): (r: int)
    ensures a <= r as real < a + 1.0
  {
    -((-a).Floor)
  }

  /** Python's float `%` for a positive modulus: the result has the sign of
      the modulus, so it always lies in [0, m). */
  function PyMod(a: real, m: real): (r: real)
    requires m > 0.0
    ensures 0.0 <= r < m
    ensures r == a - Floor(a / m) as real * m
  {
    var q: real := (a / m).Floor as real;
    RemainderAbove(a, m, a / m, q);
    RemainderBelow(a, m, a / m, q);
    a - q * m
  }

  lemma RemainderBelow(a: real, m: real, d: real, q: real)
    requires m > 0.0
    requires d * m == a
    requires d < q + 1.0
    ensures a - q * m < m
  {
    var e := q + 1.0 - d;
    assert e * m > 0.0;
    assert e * m == q * m + m - d * m;
  }

  lemma RemainderAbove(a: real, m: real, d: real, q: real)
    requires m > 0.0
    requires d * m == a
    requires q <= d
    ensures 0.0 <= a - q * m
  {
    var f := d - q;
    assert f * m >= 0.0;
    assert f * m == d * m - q * m;
  }

  /** `math.isclose(a, b, rel_tol=relTol, abs_tol=absTol)`. */
  predicate IsClose(a: real, b: real, relTol: real, absTol: real) {
    Abs(a - b) <= Max(relTol * Max(Abs(a), Abs(b)), absTol)
  }

  /** The default relative tolerance of `math.isclose`. */
  const DefaultRelTol: real := 0.000000001

  /** `part` occurs in `s` starting at index `i`. */
  predicate OccursAt(s: string, part: string, i: nat) {
    i + |part| <= |s| && s[i..i + |part|] == part
  }

  /** Python's `part in s`. */
  predicate Contains(s: string, part: string) {
    exists i: nat | i <= |s| :: OccursAt(s, part, i)
  }

  /** A string in which the first character of `part` never appears does
      not contain `part`. */
  lemma FirstCharAbsent(s: string, part: string)
    requires |part| > 0 && forall k :: 0 <= k < |s| ==> s[k] != part[0]
    ensures !Contains(s, part)
  {
    forall i: nat | i + |part| <= |s|
      ensures !OccursAt(s, part, i)
    {
      assert s[i..i + |part|][0] == s[i];
    }
  }

  /** `math.isclose(a, b, abs_tol=0.01)`. */
  predicate Near(a: real, b: real) { IsClose(a, b, DefaultRelTol, 0.01) }

  /** For values of at most a million in size the relative tolerance never
      exceeds 0.01, so `Near` means "at most 0.01 apart". */
  lemma NearWithin(a: real, b: real)
    requires Abs(a) <= 1000000.0 && Abs(b) <= 1000000.0
    ensures Near(a, b) <==> Abs(a - b) <= 0.01
  {
  }
}
