/** Face lists that tile a vertex list: read one after another they name
    every vertex index once, in increasing order. The section builders that
    close every appended block with one face over its own index range keep
    this shape, and it makes the faces a partition of the vertices. */
module FaceTiling {
  import opened Geometry

  /** The lists one after another; for faces, the vertex indices in face
      order. */
  function Flatten<T>(fs: seq<seq<T>>): seq<T> {
    if |fs| == 0 then [] else Flatten(fs[..|fs| - 1]) + fs[|fs| - 1]
  }

  lemma FlattenAppend<T>(fs: seq<seq<T>>, f: seq<T>)
    ensures Flatten(fs + [f]) == Flatten(fs) + f
  {
    assert (fs + [f])[..|fs|] == fs;
  }

  /** Lists of a common length `w`: `n` of them flatten to `n w` items. */
  lemma {:induction false} FlattenUniform<T>(xs: seq<seq<T>>, w: nat)
    requires forall k :: 0 <= k < |xs| ==> |xs[k]| == w
    ensures |Flatten(xs)| == |xs| * w
    decreases |xs|
  {
    if |xs| > 0 {
      FlattenUniform(xs[..|xs| - 1], w);
    }
  }

  /** Lists of a common length `w`: list `j` sits at positions `j w` up to
      `(j + 1) w` of the flattened list. */
  lemma {:induction false} FlattenBlock<T>(xs: seq<seq<T>>, w: nat, j: nat)
    requires forall k :: 0 <= k < |xs| ==> |xs[k]| == w
    requires j < |xs|
    ensures (j + 1) * w <= |Flatten(xs)|
    ensures Flatten(xs)[j * w..(j + 1) * w] == xs[j]
    decreases |xs|
  {
    var n := |xs| - 1;
    var init := xs[..n];
    FlattenUniform(init, w);
    assert Flatten(xs) == Flatten(init) + xs[n];
    MulStep(j, w);
    MulStep(n, w);
    if j < n {
      FlattenBlock(init, w, j);
      MulMonotone(j + 1, n, w);
      assert Flatten(xs)[j * w..(j + 1) * w] == Flatten(init)[j * w..(j + 1) * w];
    }
  }

  lemma MulStep(j: nat, w: nat)
    ensures 0 <= j * w <= (j + 1) * w == j * w + w
  {
  }

  lemma MulMonotone(a: nat, b: nat, w: nat)
    requires a <= b
    ensures a * w <= b * w
  {
  }

  lemma RangeConcat(lo: nat, mid: nat, hi: nat)
    requires lo <= mid <= hi
    ensures Range(lo, mid) + Range(mid, hi) == Range(lo, hi)
  {
    assert forall k :: 0 <= k < hi - lo ==> (Range(lo, mid) + Range(mid, hi))[k] == lo + k;
  }

  lemma {:induction false} FlattenConcat<T>(a: seq<seq<T>>, b: seq<seq<T>>)
    ensures Flatten(a + b) == Flatten(a) + Flatten(b)
    decreases |b|
  {
    if |b| == 0 {
      assert a + b == a;
    } else {
      var b', f := b[..|b| - 1], b[|b| - 1];
      assert b == b' + [f];
      assert a + b == (a + b') + [f];
      FlattenConcat(a, b');
      FlattenAppend(a + b', f);
      FlattenAppend(b', f);
    }
  }

  lemma FlattenSplit(fs: seq<Face>, i: nat)
    requires i < |fs|
    ensures Flatten(fs) == Flatten(fs[..i]) + fs[i] + Flatten(fs[i + 1..])
  {
    FlattenCut(fs, i + 1);
    FlattenPrefixStep(fs, i);
  }

  lemma FlattenCut(fs: seq<Face>, i: nat)
    requires i <= |fs|
    ensures Flatten(fs) == Flatten(fs[..i]) + Flatten(fs[i..])
  {
    FlattenConcat(fs[..i], fs[i..]);
    assert fs[..i] + fs[i..] == fs;
  }

  lemma FlattenPrefixStep(fs: seq<Face>, i: nat)
    requires i < |fs|
    ensures Flatten(fs[..i + 1]) == Flatten(fs[..i]) + fs[i]
  {
    var a := fs[..i + 1];
    FlattenLast(a);
    assert a[..i] == fs[..i];
  }

  /** Flatten, peeled at the last face. */
  lemma FlattenLast(fs: seq<Face>)
    requires |fs| > 0
    ensures Flatten(fs) == Flatten(fs[..|fs| - 1]) + fs[|fs| - 1]
  {
  }

  lemma PrefixGrows(fs: seq<Face>, i: nat, j: nat)
    requires i <= j <= |fs|
    ensures |Flatten(fs[..i])| <= |Flatten(fs[..j])|
  {
    assert fs[..j] == fs[..i] + fs[i..j];
    FlattenConcat(fs[..i], fs[i..j]);
  }

  lemma {:induction false} FlattenMember(fs: seq<Face>, x: nat)
    requires x in Flatten(fs)
    ensures exists i :: 0 <= i < |fs| && x in fs[i]
    decreases |fs|
  {
    var init := fs[..|fs| - 1];
    if x !in fs[|fs| - 1] {
      FlattenMember(init, x);
      var i :| 0 <= i < |init| && x in init[i];
      assert fs[i] == init[i];
    }
  }

  /** In a tiling, face `i` is the run of indices that starts where the
      faces before it stop. */
  lemma TiledFace(fs: seq<Face>, n: nat, i: nat)
    requires Flatten(fs) == Range(0, n) && i < |fs|
    ensures |Flatten(fs[..i])| + |fs[i]| <= n
    ensures forall k :: 0 <= k < |fs[i]| ==> fs[i][k] == |Flatten(fs[..i])| + k
  {
    FlattenSplit(fs, i);
    var lo := |Flatten(fs[..i])|;
    forall k | 0 <= k < |fs[i]| ensures fs[i][k] == lo + k {
      assert Flatten(fs)[lo + k] == fs[i][k];
    }
  }

  /** Some face names vertex `v`. */
  predicate NamedBy(fs: seq<Face>, v: nat) {
    exists i :: 0 <= i < |fs| && v in fs[i]
  }

  /** A tiling is a partition of the vertex indices: every face names
      existing vertices in increasing order, every index of a later face
      is above every index of an earlier one, and every vertex is named by
      some face. */
  lemma TiledIsPartition(m: Mesh)
    requires Tiled(m)
    ensures WellFormed(m)
    ensures forall i, a, b :: 0 <= i < |m.faces| && 0 <= a < b < |m.faces[i]| ==> m.faces[i][a] < m.faces[i][b]
    ensures forall i, j, a, b :: 0 <= i < j < |m.faces| && 0 <= a < |m.faces[i]| && 0 <= b < |m.faces[j]| ==>
      m.faces[i][a] < m.faces[j][b]
    ensures forall v :: 0 <= v < |m.vertices| ==> NamedBy(m.faces, v)
  {
    var fs, n := m.faces, |m.vertices|;
    forall i | 0 <= i < |fs|
      ensures FaceInBounds(fs[i], n) && forall a, b :: 0 <= a < b < |fs[i]| ==> fs[i][a] < fs[i][b]
    {
      TiledFace(fs, n, i);
    }
    forall i, j, a, b | 0 <= i < j < |fs| && 0 <= a < |fs[i]| && 0 <= b < |fs[j]|
      ensures fs[i][a] < fs[j][b]
    {
      TiledFace(fs, n, i);
      TiledFace(fs, n, j);
      assert fs[..i + 1] == fs[..i] + [fs[i]];
      FlattenAppend(fs[..i], fs[i]);
      PrefixGrows(fs, i + 1, j);
    }
    forall v | 0 <= v < n ensures NamedBy(fs, v) {
      assert Flatten(fs)[v] == v;
      FlattenMember(fs, v);
    }
  }

  /** The faces tile the vertices: read in order they name every vertex
      index once, from 0 upwards. */
  predicate Tiled(m: Mesh) {
    Flatten(m.faces) == Range(0, |m.vertices|)
  }

  lemma EmptyTiled()
    ensures Tiled(Mesh([], []))
  {
    assert Flatten<nat>([]) == [] == Range(0, 0);
  }
}
