/** The length and coil arithmetic of the compression spring generator: the
    free length implied by a number of coils, the coils that fit a given free
    length, the split of a coil count into full and partial turns, and the
    placement of the wire's cross-section.

    The revolve of the cross-section and the grinding booleans are done by
    helpers and by Blender and are not part of this model. */
module CompressionSpring {
  import opened Geometry

  /** The operator's properties. Dead coils are the closed turns at either
      end; with ground ends half a wire is ground off each end. */
  datatype Spring = Spring(
    wire: real,
    outer: real,
    pitch: real,
    coils: real,
    freeLength: real,
    deadTop: real,
    deadBottom: real,
    rightHand: bool,
    groundEnds: bool)

  /** The property ranges: wire, outer diameter and pitch at least 0.01,
      coil counts and the free length at least 0. */
  predicate InRange(s: Spring) {
    && s.wire >= 0.01 && s.outer >= 0.01 && s.pitch >= 0.01
    && s.coils >= 0.0 && s.freeLength >= 0.0 && s.deadTop >= 0.0 && s.deadBottom >= 0.0
  }

  // ---------------------------------------------------------------------------
  // get_free_length

  /** Active coils at the pitch, dead coils at the wire diameter, plus one
      wire for the end; ground ends lose that extra wire. */
  function FreeLength(s: Spring, groundEnds: bool): real {
    var result := s.pitch * s.coils + s.wire * s.deadTop + s.wire * s.deadBottom + s.wire;
    if groundEnds then result - s.wire else result
  }

  // ---------------------------------------------------------------------------
  // calc_coils_from_free_length

  /** Dead coils of diameter `w` that fit in `remain` while leaving one
      wire for the end: as many as requested, or as many as fit. */
  function DeadFit(requested: real, remain: real, w: real): (r: real)
    requires w > 0.0
    ensures r <= requested
  {
    Min(requested, (remain - w) / w)
  }

  /** The length left once those dead coils are wound. */
  function AfterDead(requested: real, remain: real, w: real): real
    requires w > 0.0
  {
    remain - DeadFit(requested, remain, w) * w
  }

  /** Active coils of pitch `p` in what is left after the end wire, never
      negative. */
  function ActiveFit(remain: real, w: real, p: real): (r: real)
    requires p > 0.0
    ensures r >= 0.0
  {
    Max(0.0, (remain - w) / p)
  }

  /** The length the coils may use: the free length, plus the wire ground
      off when the ends are ground. */
  function Budget(s: Spring): real {
    if s.groundEnds then s.freeLength + s.wire else s.freeLength
  }

  /** Top dead coils, bottom dead coils and active coils that fit the free
      length: the bottom dead coils first, then the top ones, each as many as
      requested or as fit, and the remainder as active coils. */
  function CoilsFromFreeLength(s: Spring): (r: (real, real, real))
    requires s.wire > 0.0 && s.pitch > 0.0
    ensures r.0 <= s.deadTop && r.1 <= s.deadBottom && r.2 >= 0.0
  {
    FitCoils(Budget(s), s.wire, s.pitch, s.deadTop, s.deadBottom)
  }

  function FitCoils(budget: real, w: real, p: real, deadTop: real, deadBottom: real): (r: (real, real, real))
    requires w > 0.0 && p > 0.0
    ensures r.0 <= deadTop && r.1 <= deadBottom && r.2 >= 0.0
  {
    (DeadFit(deadTop, AfterDead(deadBottom, budget, w), w),
     DeadFit(deadBottom, budget, w),
     ActiveFit(AfterDead(deadTop, AfterDead(deadBottom, budget, w), w), w, p))
  }

  /** When any active coil fits, the dead coils, the active coils and the
      closing wire use up the length budget exactly. */
  lemma CoilsFitBudget(s: Spring)
    requires s.wire > 0.0 && s.pitch > 0.0
    ensures var r := CoilsFromFreeLength(s);
      r.2 > 0.0 ==> r.1 * s.wire + r.0 * s.wire + r.2 * s.pitch + s.wire == Budget(s)
  {
    var w, p := s.wire, s.pitch;
    var afterBottom := AfterDead(s.deadBottom, Budget(s), w);
    var afterTop := AfterDead(s.deadTop, afterBottom, w);
    ActiveUsesRest(afterTop, w, p);
  }

  lemma ActiveUsesRest(remain: real, w: real, p: real)
    requires p > 0.0
    ensures ActiveFit(remain, w, p) > 0.0 ==> ActiveFit(remain, w, p) * p + w == remain
  {
    var m := (remain - w) / p;
    assert m * p == remain - w;
  }

  /** Feeding the free length of a spring back in recovers its coils exactly,
      with or without ground ends. */
  lemma FreeLengthRoundTrip(s: Spring)
    requires s.wire > 0.0 && s.pitch > 0.0
    requires s.coils >= 0.0 && s.deadTop >= 0.0 && s.deadBottom >= 0.0
    ensures CoilsFromFreeLength(s.(freeLength := FreeLength(s, s.groundEnds))) == (s.deadTop, s.deadBottom, s.coils)
  {
    var t := s.(freeLength := FreeLength(s, s.groundEnds));
    FitCoilsExact(Budget(t), s.wire, s.pitch, s.deadTop, s.deadBottom, s.coils);
  }

  lemma FitCoilsExact(budget: real, w: real, p: real, dt: real, db: real, c: real)
    requires w > 0.0 && p > 0.0 && dt >= 0.0 && db >= 0.0 && c >= 0.0
    requires budget == p * c + w * dt + w * db + w
    ensures FitCoils(budget, w, p, dt, db) == (dt, db, c)
  {
    assert p * c >= 0.0;
    Stage(db, budget, w, p * c + w * dt);
    Stage(dt, AfterDead(db, budget, w), w, p * c);
    ActiveBack(c, AfterDead(dt, AfterDead(db, budget, w), w), w, p);
  }

  /** With room to spare, every requested dead coil fits, and what remains
      is the spare room plus the closing wire. */
  lemma Stage(requested: real, remain: real, w: real, spare: real)
    requires w > 0.0 && spare >= 0.0 && requested >= 0.0
    requires remain == spare + w * requested + w
    ensures DeadFit(requested, remain, w) == requested
    ensures AfterDead(requested, remain, w) == spare + w
  {
    assert (remain - w) / w == spare / w + requested;
  }

  lemma ActiveBack(c: real, remain: real, w: real, p: real)
    requires p > 0.0 && c >= 0.0 && remain == p * c + w
    ensures ActiveFit(remain, w, p) == c
  {
    assert (remain - w) / p == c;
  }

  /** The free length is what the ground ends are cut to: ground ends make
      the spring exactly one wire diameter shorter. */
  lemma GroundEndsShorten(s: Spring)
    ensures FreeLength(s, true) == FreeLength(s, false) - s.wire
    ensures InRange(s) ==> FreeLength(s, true) >= 0.0
  {
    if InRange(s) {
      assert s.pitch * s.coils >= 0.0;
      assert s.wire * s.deadTop >= 0.0 && s.wire * s.deadBottom >= 0.0;
    }
  }

  // ---------------------------------------------------------------------------
  // add_coils

  /** The rotations, in degrees, that `add_coils` revolves the cross-section
      through: none for a non-positive count; otherwise one full turn per
      whole coil and then the fractional remainder. */
  function TurnPlan(coils: real): (r: seq<real>)
    ensures coils <= 0.0 ==> r == []
    ensures coils > 0.0 ==> |r| == Floor(coils) + 1
    ensures forall k :: 0 <= k < |r| - 1 ==> r[k] == 360.0
    ensures coils > 0.0 ==> 0.0 <= r[|r| - 1] < 360.0
  {
    if coils <= 0.0 then []
    else
      var full := Floor(coils);
      Repeat(360.0, full) + [(coils - full as real) * 360.0]
  }

  function Repeat(x: real, n: nat): (r: seq<real>)
    ensures |r| == n && forall k :: 0 <= k < n ==> r[k] == x
  {
    seq(n, _ => x)
  }

  function Sum(xs: seq<real>): real {
    if |xs| == 0 then 0.0 else Sum(xs[..|xs| - 1]) + xs[|xs| - 1]
  }

  lemma {:induction false} SumRepeat(x: real, n: nat)
    ensures Sum(Repeat(x, n)) == n as real * x
  {
    if n > 0 {
      assert Repeat(x, n)[..n - 1] == Repeat(x, n - 1);
      SumRepeat(x, n - 1);
    }
  }

  /** The planned turns add up to the coil count: the spring winds exactly
      `coils` times around. */
  lemma TurnPlanTotal(coils: real)
    requires coils > 0.0
    ensures Sum(TurnPlan(coils)) == coils * 360.0
  {
    var full := Floor(coils);
    var r := TurnPlan(coils);
    assert r[..|r| - 1] == Repeat(360.0, full);
    SumRepeat(360.0, full);
  }

  // ---------------------------------------------------------------------------
  // The cross-section in execute

  /** The x of the wire circle's centre: half the coil's mean diameter, on
      the negative side for a right-hand wind. */
  function WireCenterX(s: Spring): (x: real)
    ensures Abs(x) == Abs((s.outer - s.wire) / 2.0)
    ensures s.outer > s.wire ==> (x < 0.0 <==> s.rightHand)
  {
    var cx := s.outer / 2.0 - s.wire / 2.0;
    if s.rightHand then -cx else cx
  }

  /** The closing face over the last revolved ring of `count` vertices. */
  function CapFace(n: nat, count: nat): (f: Face)
    requires count <= n
    ensures |f| == count && FaceInBounds(f, n)
    ensures forall k :: 0 <= k < count ==> f[k] + count - k == n
  {
    Range(n - count, n)
  }
}
