/** The edge-graph bookkeeping behind the sphericon generator: the closed
    ring of edges around a polygon, the splitting of edges where they cross
    the Z axis, and the removal of the vertices below the XZ plane with the
    re-indexing of the edges that survive.

    The circle's vertices and the edge/axis intersection come from helpers
    that are not part of this model; the intersection is a parameter. */
module Sphericon {
  import opened Geometry

  type Edge = (nat, nat)

  /** A vertex/edge graph as handed to Blender with no faces. */
  datatype Graph = Graph(vertices: seq<Vec3>, edges: seq<Edge>)

  predicate EdgesInBounds(es: seq<Edge>, n: nat) {
    forall k :: 0 <= k < |es| ==> es[k].0 < n && es[k].1 < n
  }

  // ---------------------------------------------------------------------------
  // remove_y_minus_vertices

  /** Vertices below y = -0.0001 are deleted; the small tolerance keeps the
      vertices that lie on the plane up to rounding. */
  const CutTolerance: real := 0.0001

  predicate Survives(v: Vec3) { !(v.y < -CutTolerance) }

  /** The old indices of the surviving vertices, in increasing order. */
  function KeptIndices(vs: seq<Vec3>): (r: seq<nat>)
    ensures |r| <= |vs|
    ensures forall k :: 0 <= k < |r| ==> r[k] < |vs| && Survives(vs[r[k]])
    ensures forall k, l :: 0 <= k < l < |r| ==> r[k] < r[l]
  {
    if |vs| == 0 then []
    else
      var n := |vs| - 1;
      var init := KeptIndices(vs[..n]);
      assert forall k :: 0 <= k < |init| ==> vs[init[k]] == vs[..n][init[k]];
      if Survives(vs[n]) then init + [n] else init
  }

  /** The new index of old vertex `i`: how many vertices before it survive
      (the `index_map` of the source). */
  function NewIndex(vs: seq<Vec3>, i: nat): nat
    requires i <= |vs|
  {
    |KeptIndices(vs[..i])|
  }

  /** Every surviving vertex keeps its place: its new index points back at
      it in the list of kept indices. */
  lemma {:induction false} NewIndexLocates(vs: seq<Vec3>, i: nat)
    requires i < |vs| && Survives(vs[i])
    ensures NewIndex(vs, i) < |KeptIndices(vs)|
    ensures KeptIndices(vs)[NewIndex(vs, i)] == i
    decreases |vs|
  {
    var n := |vs| - 1;
    assert vs[..n][..i] == vs[..i] by { if i < n { } }
    if i < n {
      NewIndexLocates(vs[..n], i);
    } else {
      assert vs[..n] == vs[..i];
    }
  }

  /** The kept indices are exactly the surviving vertices. */
  lemma {:induction false} KeptIndicesExact(vs: seq<Vec3>, i: nat)
    requires i < |vs|
    ensures i in KeptIndices(vs) <==> Survives(vs[i])
  {
    if Survives(vs[i]) {
      NewIndexLocates(vs, i);
    }
  }

  /** One surviving vertex earlier in the list gets the lower new index. */
  lemma NewIndexOrder(vs: seq<Vec3>, i: nat, j: nat)
    requires i < j < |vs| && Survives(vs[i]) && Survives(vs[j])
    ensures NewIndex(vs, i) < NewIndex(vs, j)
  {
    NewIndexLocates(vs, i);
    NewIndexLocates(vs, j);
  }

  function KeptVertices(vs: seq<Vec3>): (r: seq<Vec3>)
    ensures |r| == |KeptIndices(vs)| && |r| <= |vs|
    ensures forall k :: 0 <= k < |r| ==> Survives(r[k])
    ensures forall k :: 0 <= k < |r| ==> r[k] == vs[KeptIndices(vs)[k]]
  {
    var idx := KeptIndices(vs);
    seq(|idx|, k requires 0 <= k < |idx| => vs[idx[k]])
  }

  predicate EdgeSurvives(vs: seq<Vec3>, e: Edge)
    requires e.0 < |vs| && e.1 < |vs|
  {
    Survives(vs[e.0]) && Survives(vs[e.1])
  }

  /** The edges both of whose endpoints survive, in their original order. */
  function SurvivingEdges(vs: seq<Vec3>, es: seq<Edge>): (r: seq<Edge>)
    requires EdgesInBounds(es, |vs|)
    ensures |r| <= |es|
    ensures forall k :: 0 <= k < |r| ==> r[k].0 < |vs| && r[k].1 < |vs| && EdgeSurvives(vs, r[k])
    ensures forall e :: e in r <==> e in es && EdgeSurvives(vs, e)
  {
    if |es| == 0 then []
    else
      var init := es[..|es| - 1];
      var e := es[|es| - 1];
      assert es == init + [e];
      var r := SurvivingEdges(vs, init);
      if EdgeSurvives(vs, e) then r + [e] else r
  }

  function Remap(vs: seq<Vec3>, e: Edge): (r: Edge)
    requires e.0 < |vs| && e.1 < |vs| && EdgeSurvives(vs, e)
    ensures r.0 < |KeptVertices(vs)| && r.1 < |KeptVertices(vs)|
    ensures KeptVertices(vs)[r.0] == vs[e.0] && KeptVertices(vs)[r.1] == vs[e.1]
  {
    NewIndexLocates(vs, e.0);
    NewIndexLocates(vs, e.1);
    (NewIndex(vs, e.0), NewIndex(vs, e.1))
  }

  /** Drops the vertices below the cut and every edge touching one, and
      renumbers the surviving edges into the shorter vertex list; each edge
      of the result joins the same two points as the surviving edge it
      renumbers. */
  function RemoveYMinusVertices(vs: seq<Vec3>, es: seq<Edge>): (r: Graph)
    requires EdgesInBounds(es, |vs|)
    ensures |r.vertices| <= |vs| && |r.edges| <= |es|
    ensures r.vertices == KeptVertices(vs)
    ensures EdgesInBounds(r.edges, |r.vertices|)
    ensures forall k :: 0 <= k < |r.vertices| ==> Survives(r.vertices[k])
    ensures |r.edges| == |SurvivingEdges(vs, es)|
    ensures forall k :: 0 <= k < |r.edges| ==>
      r.vertices[r.edges[k].0] == vs[SurvivingEdges(vs, es)[k].0] &&
      r.vertices[r.edges[k].1] == vs[SurvivingEdges(vs, es)[k].1]
  {
    var kept := SurvivingEdges(vs, es);
    var vs' := KeptVertices(vs);
    var es' := seq(|kept|, k requires 0 <= k < |kept| => Remap(vs, kept[k]));
    assert forall k :: 0 <= k < |es'| ==> es'[k] == Remap(vs, kept[k]);
    Graph(vs', es')
  }

  // ---------------------------------------------------------------------------
  // create_rotation_base_object: the polygon's edges

  /** Edge `i` joins vertex `i` to the next, the last one back to 0. */
  function EdgeRing(n: nat): (r: seq<Edge>)
    ensures |r| == n && EdgesInBounds(r, n)
  {
    seq(n, i requires 0 <= i < n => if i < n - 1 then (i, i + 1) else (i, 0))
  }

  /** The ring is closed: every vertex starts exactly its own edge and ends
      the edge before it (cyclically). */
  lemma EdgeRingClosed(n: nat, i: nat)
    requires i < n
    ensures EdgeRing(n)[i].0 == i
    ensures EdgeRing(n)[(i + n - 1) % n].1 == i
    ensures forall k :: 0 <= k < n && EdgeRing(n)[k].1 == i ==> k == (i + n - 1) % n
  {
    if i == 0 {
      assert (n - 1) % n == n - 1;
    } else {
      assert (i + n - 1) % n == i - 1;
    }
  }

  // ---------------------------------------------------------------------------
  // create_rotation_base_object: splitting at the Z axis

  /** Where the segment meets the Z axis and at which fraction of its length:
      the intersection helper, left to the caller. */
  type AxisMeet = (Vec3, Vec3) -> Option<(Vec3, real)>

  /** A crossing counts only strictly inside the edge, away from both ends. */
  predicate Inner(ratio: real) { 0.0001 < ratio < 0.9999 }

  /** Processes edge `i`: when it crosses the axis, the crossing point is
      appended, the edge is removed, and an edge from the crossing to the
      endpoint on the non-negative side is appended at the end. */
  function SplitAt(meet: AxisMeet, g: Graph, i: nat): (r: Graph)
    requires EdgesInBounds(g.edges, |g.vertices|) && i < |g.edges|
    ensures EdgesInBounds(r.edges, |r.vertices|)
    ensures |r.edges| == |g.edges| && r.edges[..i] == g.edges[..i]
    ensures |g.vertices| <= |r.vertices| <= |g.vertices| + 1 && r.vertices[..|g.vertices|] == g.vertices
    ensures |r.vertices| == |g.vertices| + 1 <==>
      meet(g.vertices[g.edges[i].0], g.vertices[g.edges[i].1]).Some? &&
      Inner(meet(g.vertices[g.edges[i].0], g.vertices[g.edges[i].1]).value.1)
  {
    var e := g.edges[i];
    var hit := meet(g.vertices[e.0], g.vertices[e.1]);
    if hit.Some? && Inner(hit.value.1) then
      var n := |g.vertices|;
      var keep := if g.vertices[e.0].y < 0.0 then e.1 else e.0;
      var es := g.edges[..i] + g.edges[i + 1..] + [(n, keep)];
      assert forall k :: 0 <= k < |es| - 1 ==> es[k] in g.edges;
      Graph(g.vertices + [hit.value.0], es)
    else g
  }

  /** What a split leaves behind: edge `i` gone, the later edges moved down
      one place, and the new last edge running from the crossing point to
      `edge[1]` when `edge[0]` lies below the plane and to `edge[0]`
      otherwise. */
  lemma SplitAtReplaces(meet: AxisMeet, g: Graph, i: nat)
    requires EdgesInBounds(g.edges, |g.vertices|) && i < |g.edges|
    requires |SplitAt(meet, g, i).vertices| == |g.vertices| + 1
    ensures var r := SplitAt(meet, g, i);
      var e := g.edges[i];
      && r.vertices[|g.vertices|] == meet(g.vertices[e.0], g.vertices[e.1]).value.0
      && r.edges[|r.edges| - 1] == (|g.vertices|, if g.vertices[e.0].y < 0.0 then e.1 else e.0)
      && r.edges[i..|r.edges| - 1] == g.edges[i + 1..]
  {
  }

  /** The loop over `reversed(range(len(edges)))`: edges `i - 1` down to 0
      are examined, each against the list as the later steps left it. */
  function SplitEdges(meet: AxisMeet, g: Graph, i: nat): (r: Graph)
    requires EdgesInBounds(g.edges, |g.vertices|) && i <= |g.edges|
    ensures EdgesInBounds(r.edges, |r.vertices|)
    ensures |r.edges| == |g.edges|
    ensures |g.vertices| <= |r.vertices| <= |g.vertices| + i
    ensures r.vertices[..|g.vertices|] == g.vertices
    decreases i
  {
    if i == 0 then g
    else
      var h := SplitAt(meet, g, i - 1);
      var r := SplitEdges(meet, h, i - 1);
      assert r.vertices[..|g.vertices|] == r.vertices[..|h.vertices|][..|g.vertices|];
      r
  }

  /** The base graph of the sphericon: the polygon ring split at the axis,
      then cut down to the half with y >= 0 (up to the tolerance). */
  function RotationBase(meet: AxisMeet, circle: seq<Vec3>): (r: Graph)
    ensures |r.vertices| <= 2 * |circle| && |r.edges| <= |circle|
    ensures EdgesInBounds(r.edges, |r.vertices|)
    ensures forall k :: 0 <= k < |r.vertices| ==> Survives(r.vertices[k])
  {
    var g := SplitEdges(meet, Graph(circle, EdgeRing(|circle|)), |circle|);
    RemoveYMinusVertices(g.vertices, g.edges)
  }
}
