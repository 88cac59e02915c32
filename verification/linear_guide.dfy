/** The preset tables of the linear guide generators and the bookkeeping
    around them: applying a preset to the operator's properties, naming the
    preset that the current properties match, the screw holes of the block,
    the holes along the rail and the box cut out of the block for the rail.

    The boolean cuts and the hole meshes are made by Blender and helpers and
    are not part of this model; `SCREW_SPECS` is not part of this model
    either, so the screw diameter of a size is a parameter. */
module LinearGuide {
  import opened Geometry

  // ---------------------------------------------------------------------------
  // Tables

  /** A row of `RAIL_SPECS`; the weight (kg per metre) is only displayed. */
  datatype RailSpec = RailSpec(wr: real, hr: real, outerHoleDiameter: real, outerHoleDepth: real,
                               innerHoleDiameter: real, holePitch: real, weight: real)

  /** A row of `BLOCK_SPECS`; `rail` names a row of `RAIL_SPECS` and `screw`
      a row of `SCREW_SPECS`. */
  datatype BlockSpec = BlockSpec(width: real, length: real, middlePartLength: real,
                                 totalHeight: real, height1: real, blockSideWidth: real,
                                 screw: string, screwDepth: real, screwB: real, screwC: real,
                                 rail: string, greaseHoleDiameter: real, greaseHolePosition: real,
                                 weight: real)

  /** A Python dict keeps its insertion order: a table is the sequence of
      its items. */
  type Table<T> = seq<(string, T)>

  const RailSpecs: Table<RailSpec> := [
    ("mgn05", RailSpec(5.0, 3.6, 3.6, 0.8, 2.4, 15.0, 0.15)),
    ("mgn07", RailSpec(7.0, 4.8, 4.2, 2.3, 2.4, 15.0, 0.22)),
    ("mgn09", RailSpec(9.0, 6.5, 6.0, 3.5, 3.5, 20.0, 0.38)),
    ("mgn12", RailSpec(12.0, 8.0, 6.0, 4.5, 3.5, 25.0, 0.65)),
    ("mgn15", RailSpec(15.0, 10.0, 6.0, 4.5, 3.5, 40.0, 1.06)),
    ("mgw05", RailSpec(10.0, 4.0, 5.5, 1.6, 3.0, 20.0, 0.34)),
    ("mgw07", RailSpec(14.0, 5.2, 6.0, 3.2, 3.5, 30.0, 0.51)),
    ("mgw09", RailSpec(18.0, 7.0, 6.0, 4.5, 3.5, 30.0, 0.91)),
    ("mgw12", RailSpec(24.0, 8.5, 8.0, 4.5, 4.5, 40.0, 1.49)),
    ("mgw15", RailSpec(42.0, 9.5, 8.0, 4.5, 4.5, 40.0, 2.86))
  ]

  const BlockSpecs: Table<BlockSpec> := [
    ("mgn05c", BlockSpec(12.0, 16.0, 9.6, 6.0, 1.5, 3.5, "m2", 1.5, 8.0, 0.0, "mgn05", 0.8, 1.0, 0.008)),
    ("mgn05h", BlockSpec(12.0, 19.0, 12.6, 6.0, 1.5, 3.5, "m2", 1.5, 8.0, 0.0, "mgn05", 0.8, 1.0, 0.01)),
    ("mgn07c", BlockSpec(17.0, 22.5, 13.5, 8.0, 1.5, 5.0, "m2", 2.5, 12.0, 8.0, "mgn07", 1.2, 1.5, 0.01)),
    ("mgn07h", BlockSpec(17.0, 30.8, 21.8, 8.0, 1.5, 5.0, "m2", 2.5, 12.0, 13.0, "mgn07", 1.2, 1.5, 0.02)),
    ("mgn09c", BlockSpec(20.0, 28.9, 18.9, 10.0, 2.0, 5.5, "m3", 3.0, 15.0, 10.0, "mgn09", 1.4, 1.8, 0.02)),
    ("mgn09h", BlockSpec(20.0, 39.9, 29.9, 10.0, 2.0, 5.5, "m3", 3.0, 15.0, 16.0, "mgn09", 1.4, 1.8, 0.03)),
    ("mgn12c", BlockSpec(27.0, 34.7, 21.7, 13.0, 3.0, 7.5, "m3", 3.5, 20.0, 15.0, "mgn12", 2.0, 2.5, 0.03)),
    ("mgn12h", BlockSpec(27.0, 45.4, 32.4, 13.0, 3.0, 7.5, "m3", 3.5, 20.0, 20.0, "mgn12", 2.0, 2.5, 0.05)),
    ("mgn15c", BlockSpec(32.0, 42.1, 26.7, 16.0, 4.0, 8.5, "m3", 4.0, 25.0, 20.0, "mgn15", 3.0, 3.0, 0.06)),
    ("mgn15h", BlockSpec(32.0, 58.8, 43.4, 16.0, 4.0, 8.5, "m3", 4.0, 25.0, 25.0, "mgn15", 3.0, 3.0, 0.09)),
    ("mgw05c", BlockSpec(17.0, 20.5, 14.1, 6.5, 1.5, 3.5, "m2_5", 1.5, 13.0, 0.0, "mgw05", 0.8, 1.0, 0.016)),
    ("mgw05cl", BlockSpec(17.0, 20.5, 14.1, 6.5, 1.5, 3.5, "m3", 10.0, 0.0, 6.5, "mgw05", 0.8, 1.0, 0.016)),
    ("mgw07c", BlockSpec(25.0, 31.2, 21.0, 9.0, 1.9, 5.5, "m3", 3.0, 19.0, 10.0, "mgw07", 1.2, 1.85, 0.02)),
    ("mgw07h", BlockSpec(25.0, 41.0, 30.8, 9.0, 1.9, 5.5, "m3", 3.0, 19.0, 19.0, "mgw07", 1.2, 1.85, 0.029)),
    ("mgw09c", BlockSpec(30.0, 39.3, 27.5, 12.0, 2.9, 6.0, "m3", 3.0, 12.0, 12.0, "mgw09", 1.2, 2.4, 0.04)),
    ("mgw09h", BlockSpec(30.0, 50.7, 38.5, 12.0, 2.9, 6.0, "m3", 3.0, 23.0, 24.0, "mgw09", 1.2, 2.4, 0.057)),
    ("mgw12c", BlockSpec(40.0, 46.1, 31.3, 14.0, 3.4, 8.0, "m3", 3.6, 28.0, 15.0, "mgw12", 1.2, 2.8, 0.071)),
    ("mgw12h", BlockSpec(40.0, 60.4, 45.6, 14.0, 3.4, 8.0, "m3", 3.6, 28.0, 28.0, "mgw12", 1.2, 2.8, 0.103)),
    ("mgw15c", BlockSpec(60.0, 54.8, 38.0, 16.0, 3.4, 9.0, "m4", 4.2, 45.0, 20.0, "mgw15", 3.0, 3.2, 0.143)),
    ("mgw15h", BlockSpec(60.0, 73.8, 57.0, 16.0, 3.4, 9.0, "m4", 4.2, 45.0, 35.0, "mgw15", 3.0, 3.2, 0.215))
  ]

  // ---------------------------------------------------------------------------
  // First match in a table

  /** The index of the first item satisfying `p`: what a `for` loop with an
      early `return` finds, and what `dict.get` finds for a key. */
  function FirstIndex<T>(xs: seq<T>, p: T -> bool): (r: Option<nat>)
    ensures r.None? <==> forall k :: 0 <= k < |xs| ==> !p(xs[k])
    ensures r.Some? ==> r.value < |xs| && p(xs[r.value]) && forall k :: 0 <= k < r.value ==> !p(xs[k])
  {
    if |xs| == 0 then None
    else if p(xs[0]) then Some(0)
    else
      var r := FirstIndex(xs[1..], p);
      assert forall k :: 1 <= k < |xs| ==> xs[k] == xs[1..][k - 1];
      if r.Some? then Some(r.value + 1) else None
  }

  /** The first element that satisfies `p` is found. */
  lemma FirstIndexIs<T>(xs: seq<T>, p: T -> bool, j: nat)
    requires j < |xs| && p(xs[j]) && forall k :: 0 <= k < j ==> !p(xs[k])
    ensures FirstIndex(xs, p) == Some(j)
  {
  }

  /** `dict.get(key)`. */
  function Get<T>(t: Table<T>, key: string): (r: Option<T>)
    ensures r.None? <==> forall k :: 0 <= k < |t| ==> t[k].0 != key
    ensures r.Some? ==> exists k :: 0 <= k < |t| && t[k] == (key, r.value)
  {
    match FirstIndex(t, (row: (string, T)) => row.0 == key)
    case None => None
    case Some(k) => Some(t[k].1)
  }

  // ---------------------------------------------------------------------------
  // The rail operator

  /** The rail operator's dimensional properties and the name shown for
      them. */
  datatype RailProps = RailProps(width: real, height: real, outerHoleDiameter: real,
                                 outerHoleDepth: real, innerHoleDiameter: real, holePitch: real,
                                 specName: string)

  /** The hard minimum of all six dimensional rail properties; none has a
      hard maximum. */
  const RailPropertyMin: real := 1.0

  /** The six dimensions of the row are at least `lo`, so they are stored
      unclamped. */
  predicate MeetsMinimum(s: RailSpec, lo: real) {
    && s.wr >= lo && s.hr >= lo && s.outerHoleDiameter >= lo
    && s.outerHoleDepth >= lo && s.innerHoleDiameter >= lo && s.holePitch >= lo
  }

  /** `update_rail_spec` over a table whose properties have the hard minimum
      `lo`: a known size assigns its six dimensions, which Blender raises to
      `lo` where they fall below it, and names itself; an unknown one clears
      the name and changes nothing else. */
  function UpdateRail(t: Table<RailSpec>, lo: real, p: RailProps, key: string): (r: RailProps)
    ensures Get(t, key).None? ==> r == p.(specName := "")
    ensures Get(t, key).Some? ==> r.specName == key
    ensures Get(t, key).Some? ==> var s := Get(t, key).value;
      && r.width == Max(lo, s.wr) && r.height == Max(lo, s.hr)
      && r.outerHoleDiameter == Max(lo, s.outerHoleDiameter) && r.outerHoleDepth == Max(lo, s.outerHoleDepth)
      && r.innerHoleDiameter == Max(lo, s.innerHoleDiameter) && r.holePitch == Max(lo, s.holePitch)
    ensures Get(t, key).Some? && MeetsMinimum(Get(t, key).value, lo) ==> var s := Get(t, key).value;
      r == RailProps(s.wr, s.hr, s.outerHoleDiameter, s.outerHoleDepth, s.innerHoleDiameter, s.holePitch, key)
  {
    match Get(t, key)
    case None => p.(specName := "")
    case Some(s) =>
      RailProps(Max(lo, s.wr), Max(lo, s.hr), Max(lo, s.outerHoleDiameter), Max(lo, s.outerHoleDepth),
                Max(lo, s.innerHoleDiameter), Max(lo, s.holePitch), key)
  }

  /** `update_rail_spec` of the rail operator. Only mgn05 falls below the
      minimum: its outer hole depth 0.8 is stored as 1. */
  function UpdateRailSpec(p: RailProps, key: string): (r: RailProps)
    ensures (forall k :: 0 <= k < |RailSpecs| ==> RailSpecs[k].0 != key) ==> r == p.(specName := "")
    ensures (exists k :: 0 <= k < |RailSpecs| && RailSpecs[k].0 == key) ==> r.specName == key
    ensures key == "mgn05" ==> r == RailProps(5.0, 3.6, 3.6, 1.0, 2.4, 15.0, key)
    ensures Get(RailSpecs, key).Some? && key != "mgn05" ==> var s := Get(RailSpecs, key).value;
      r == RailProps(s.wr, s.hr, s.outerHoleDiameter, s.outerHoleDepth, s.innerHoleDiameter, s.holePitch, key)
  {
    RailSpecsMinimum();
    UpdateRail(RailSpecs, RailPropertyMin, p, key)
  }

  /** Every rail size except mgn05 (the first) meets the properties'
      minimum. */
  /** No dimension in `RAIL_SPECS` is below 0.8. */
  lemma RailSpecsAtLeast()
    ensures forall k :: 0 <= k < |RailSpecs| ==> MeetsMinimum(RailSpecs[k].1, 0.8)
  {
  }

  lemma RailSpecsMinimum()
    ensures forall k :: 0 <= k < |RailSpecs| ==> (MeetsMinimum(RailSpecs[k].1, RailPropertyMin) <==> k != 0)
  {
  }

  /** All six dimensions agree under `math.isclose` with its default
      tolerances; the weight plays no part. */
  predicate RailMatches(s: RailSpec, p: RailProps) {
    && IsClose(s.wr, p.width, DefaultRelTol, 0.0)
    && IsClose(s.hr, p.height, DefaultRelTol, 0.0)
    && IsClose(s.outerHoleDiameter, p.outerHoleDiameter, DefaultRelTol, 0.0)
    && IsClose(s.outerHoleDepth, p.outerHoleDepth, DefaultRelTol, 0.0)
    && IsClose(s.innerHoleDiameter, p.innerHoleDiameter, DefaultRelTol, 0.0)
    && IsClose(s.holePitch, p.holePitch, DefaultRelTol, 0.0)
  }

  /** Every key of the table is a non-empty string, so the empty string is
      free to mean "no size". */
  predicate NamedRows<T>(t: Table<T>) {
    forall k :: 0 <= k < |t| ==> t[k].0 != ""
  }

  /** `cuurent_rail_spec_to_name` over a table: the first size whose
      dimensions all match the properties, or the empty string. */
  function RailName(t: Table<RailSpec>, p: RailProps): (r: string)
    requires NamedRows(t)
    ensures r == "" <==> forall k :: 0 <= k < |t| ==> !RailMatches(t[k].1, p)
    ensures r != "" ==> exists k :: 0 <= k < |t| && t[k].0 == r && RailMatches(t[k].1, p)
  {
    var f := FirstIndex(t, (row: (string, RailSpec)) => RailMatches(row.1, p));
    if f.Some? then t[f.value].0 else ""
  }

  lemma RailSpecsNamed()
    ensures NamedRows(RailSpecs)
  {
  }

  function RailSpecToName(p: RailProps): (r: string)
    ensures r == "" <==> forall k :: 0 <= k < |RailSpecs| ==> !RailMatches(RailSpecs[k].1, p)
  {
    RailSpecsNamed();
    RailName(RailSpecs, p)
  }

  /** Two values at least 0.1 apart and at most 1000 are never close under
      the default relative tolerance and an absolute one below 0.05. */
  lemma NotCloseWhenApart(a: real, b: real, absTol: real)
    requires 0.0 <= a <= 1000.0 && 0.0 <= b <= 1000.0 && 0.0 <= absTol < 0.05
    requires Abs(a - b) >= 0.1
    ensures !IsClose(a, b, DefaultRelTol, absTol)
  {
  }

  /** The widths of a rail table lie in [0, 1000] and are pairwise at least
      0.1 apart. */
  predicate WidthsApart(t: Table<RailSpec>) {
    && (forall k :: 0 <= k < |t| ==> 0.0 <= t[k].1.wr <= 1000.0)
    && (forall m, j :: 0 <= m < j < |t| ==> Abs(t[m].1.wr - t[j].1.wr) >= 0.1)
  }

  /** The rail sizes all have different widths. */
  lemma RailWidthsApart()
    ensures WidthsApart(RailSpecs)
  {
    var w := [5.0, 7.0, 9.0, 12.0, 15.0, 10.0, 14.0, 18.0, 24.0, 42.0];
    assert forall k :: 0 <= k < |RailSpecs| ==> RailSpecs[k].1.wr == w[k];
    forall m, j | 0 <= m < j < |RailSpecs|
      ensures Abs(RailSpecs[m].1.wr - RailSpecs[j].1.wr) >= 0.1
    {
      assert w[m] != w[j];
    }
  }

  /** The keys of a dict are distinct. */
  predicate DistinctKeys<T>(t: Table<T>) {
    forall m, j :: 0 <= m < j < |t| ==> t[m].0 != t[j].0
  }

  lemma RailSpecsDistinct()
    ensures DistinctKeys(RailSpecs)
  {
  }

  /** In a table with pairwise different widths, choosing a size whose
      dimensions meet the minimum and then naming the resulting properties
      gives back that size: the row matches itself, and no earlier row has
      the same width. */
  lemma RailRoundTrip(t: Table<RailSpec>, lo: real, p: RailProps, i: nat)
    requires NamedRows(t) && DistinctKeys(t) && WidthsApart(t) && i < |t| && MeetsMinimum(t[i].1, lo)
    ensures RailName(t, UpdateRail(t, lo, p, t[i].0)) == t[i].0
  {
    var key := t[i].0;
    var j := FirstIndex(t, (row: (string, RailSpec)) => row.0 == key).value;
    assert j == i;
    var q := UpdateRail(t, lo, p, key);
    assert RailMatches(t[i].1, q);
    forall m | 0 <= m < i
      ensures !RailMatches(t[m].1, q)
    {
      NotCloseWhenApart(t[m].1.wr, q.width, 0.0);
    }
    FirstIndexIs(t, (row: (string, RailSpec)) => RailMatches(row.1, q), i);
  }

  /** The stored mgn05 properties match no size: the clamped outer hole
      depth 1 is not close to 0.8, and every other size is wider. */
  lemma Mgn05Unrecognised(p: RailProps)
    ensures UpdateRailSpec(p, "mgn05").outerHoleDepth == 1.0
    ensures RailSpecToName(UpdateRailSpec(p, "mgn05")) == ""
  {
    var q := UpdateRailSpec(p, "mgn05");
    RailWidthsApart();
    forall k | 0 <= k < |RailSpecs|
      ensures !RailMatches(RailSpecs[k].1, q)
    {
      if k == 0 {
        assert !IsClose(0.8, 1.0, DefaultRelTol, 0.0);
      } else {
        NotCloseWhenApart(RailSpecs[k].1.wr, RailSpecs[0].1.wr, 0.0);
      }
    }
  }

  /** Choosing a rail size and then naming the resulting properties gives
      back that size for every size but mgn05, whose clamped properties are
      named ''. */
  lemma RailPresetRoundTrip(p: RailProps, i: nat)
    requires i < |RailSpecs|
    ensures RailSpecToName(UpdateRailSpec(p, RailSpecs[i].0)) == RailSpecs[i].0 <==> i != 0
  {
    if i == 0 {
      Mgn05Unrecognised(p);
    } else {
      RailSpecsNamed();
      RailSpecsDistinct();
      RailWidthsApart();
      RailSpecsMinimum();
      RailRoundTrip(RailSpecs, RailPropertyMin, p, i);
    }
  }

  /** With the properties' minimum at most 0.8, the smallest dimension in
      `RAIL_SPECS`, every rail size names itself after it is chosen. */
  lemma RailPresetRoundTripAtLowerMinimum(lo: real, p: RailProps, i: nat)
    requires lo <= 0.8 && i < |RailSpecs|
    ensures RailSpecToName(UpdateRail(RailSpecs, lo, p, RailSpecs[i].0)) == RailSpecs[i].0
  {
    RailSpecsNamed();
    RailSpecsDistinct();
    RailWidthsApart();
    RailSpecsAtLeast();
    assert MeetsMinimum(RailSpecs[i].1, 0.8);
    RailRoundTrip(RailSpecs, lo, p, i);
  }

  // ---------------------------------------------------------------------------
  // The block operator

  /** The block operator's properties that a size sets or is recognised
      by. */
  datatype BlockProps = BlockProps(width: real, length: real, middlePartLength: real, height: real,
                                   height1: real, sideWidth: real, screwHoleDiameter: real,
                                   screwDepth: real, screwB: real, screwC: real, railHeight: real,
                                   greaseHoleDiameter: real, greaseHolePosition: real)

  /** The diameter `SCREW_SPECS` gives a screw name, if it knows it. */
  type ScrewDiameters = string -> Option<real>

  /** `update_block_spec` over a block and a rail table: a known size copies
      its dimensions, the diameter of its screw when that screw is known and
      the height of its rail when that rail is known; an unknown size changes
      nothing. */
  function UpdateBlock(t: Table<BlockSpec>, rails: Table<RailSpec>, screws: ScrewDiameters,
                       p: BlockProps, key: string): (r: BlockProps)
    ensures Get(t, key).None? ==> r == p
    ensures Get(t, key).Some? ==>
      var s := Get(t, key).value;
      && CopiedFrom(r, s)
      && (screws(s.screw).None? ==> r.screwHoleDiameter == p.screwHoleDiameter)
      && (screws(s.screw).Some? ==> r.screwHoleDiameter == screws(s.screw).value)
      && (Get(rails, s.rail).None? ==> r.railHeight == p.railHeight)
      && (Get(rails, s.rail).Some? ==> r.railHeight == Get(rails, s.rail).value.hr)
  {
    match Get(t, key)
    case None => p
    case Some(s) =>
      BlockProps(s.width, s.length, s.middlePartLength, s.totalHeight, s.height1, s.blockSideWidth,
                 match screws(s.screw) case Some(d) => d case None => p.screwHoleDiameter,
                 s.screwDepth, s.screwB, s.screwC,
                 match Get(rails, s.rail) case Some(rs) => rs.hr case None => p.railHeight,
                 s.greaseHoleDiameter, s.greaseHolePosition)
  }

  /** The nine compared dimensions and the grease hole of the properties
      are those of the row. */
  predicate CopiedFrom(q: BlockProps, b: BlockSpec) {
    && q.width == b.width && q.length == b.length && q.middlePartLength == b.middlePartLength
    && q.height == b.totalHeight && q.height1 == b.height1 && q.sideWidth == b.blockSideWidth
    && q.screwDepth == b.screwDepth && q.screwB == b.screwB && q.screwC == b.screwC
    && q.greaseHoleDiameter == b.greaseHoleDiameter && q.greaseHolePosition == b.greaseHolePosition
  }

  function UpdateBlockSpec(screws: ScrewDiameters, p: BlockProps, key: string): (r: BlockProps)
    ensures (forall k :: 0 <= k < |BlockSpecs| ==> BlockSpecs[k].0 != key) ==> r == p
    ensures Get(BlockSpecs, key).Some? ==>
      var s := Get(BlockSpecs, key).value;
      && CopiedFrom(r, s)
      && (screws(s.screw).None? ==> r.screwHoleDiameter == p.screwHoleDiameter)
      && (screws(s.screw).Some? ==> r.screwHoleDiameter == screws(s.screw).value)
      && (Get(RailSpecs, s.rail).Some? ==> r.railHeight == Get(RailSpecs, s.rail).value.hr)
  {
    UpdateBlock(BlockSpecs, RailSpecs, screws, p, key)
  }

  /** Nine block dimensions agree within 0.01 and the row's rail is known
      and of the property's rail height; the screw diameter and the grease
      hole play no part. */
  predicate BlockMatches(rails: Table<RailSpec>, s: BlockSpec, p: BlockProps) {
    && Near(s.width, p.width)
    && Near(s.length, p.length)
    && Near(s.middlePartLength, p.middlePartLength)
    && Near(s.totalHeight, p.height)
    && Near(s.height1, p.height1)
    && Near(s.blockSideWidth, p.sideWidth)
    && Near(s.screwDepth, p.screwDepth)
    && Near(s.screwB, p.screwB)
    && Near(s.screwC, p.screwC)
    && Get(rails, s.rail).Some? && Near(Get(rails, s.rail).value.hr, p.railHeight)
  }

  /** `current_block_spec_to_name` over the tables: the first size that
      matches the properties, or the empty string. */
  function BlockName(t: Table<BlockSpec>, rails: Table<RailSpec>, p: BlockProps): (r: string)
    requires NamedRows(t)
    ensures r == "" <==> forall k :: 0 <= k < |t| ==> !BlockMatches(rails, t[k].1, p)
    ensures r != "" ==> exists k :: 0 <= k < |t| && t[k].0 == r && BlockMatches(rails, t[k].1, p)
  {
    var f := FirstIndex(t, (row: (string, BlockSpec)) => BlockMatches(rails, row.1, p));
    if f.Some? then t[f.value].0 else ""
  }

  lemma BlockSpecsNamed()
    ensures NamedRows(BlockSpecs)
  {
  }

  function BlockSpecToName(p: BlockProps): (r: string)
    ensures r == "" <==> forall k :: 0 <= k < |BlockSpecs| ==> !BlockMatches(RailSpecs, BlockSpecs[k].1, p)
  {
    BlockSpecsNamed();
    BlockName(BlockSpecs, RailSpecs, p)
  }

  /** The nine compared dimensions of a row lie in [0, 1000]. */
  predicate BlockBounded(s: BlockSpec) {
    && 0.0 <= s.width <= 1000.0 && 0.0 <= s.length <= 1000.0
    && 0.0 <= s.middlePartLength <= 1000.0 && 0.0 <= s.totalHeight <= 1000.0
    && 0.0 <= s.height1 <= 1000.0 && 0.0 <= s.blockSideWidth <= 1000.0
    && 0.0 <= s.screwDepth <= 1000.0 && 0.0 <= s.screwB <= 1000.0 && 0.0 <= s.screwC <= 1000.0
  }

  /** Two rows differ by at least 0.1 in one of the compared dimensions. */
  predicate BlocksDiffer(a: BlockSpec, b: BlockSpec) {
    || Abs(a.width - b.width) >= 0.1
    || Abs(a.length - b.length) >= 0.1
    || Abs(a.middlePartLength - b.middlePartLength) >= 0.1
    || Abs(a.totalHeight - b.totalHeight) >= 0.1
    || Abs(a.height1 - b.height1) >= 0.1
    || Abs(a.blockSideWidth - b.blockSideWidth) >= 0.1
    || Abs(a.screwDepth - b.screwDepth) >= 0.1
    || Abs(a.screwB - b.screwB) >= 0.1
    || Abs(a.screwC - b.screwC) >= 0.1
  }

  /** Every row is bounded, names a known rail, and differs from each
      earlier row. */
  predicate BlocksApart(t: Table<BlockSpec>, rails: Table<RailSpec>) {
    && (forall k :: 0 <= k < |t| ==> BlockBounded(t[k].1) && Get(rails, t[k].1.rail).Some?)
    && (forall m, j :: 0 <= m < j < |t| ==> BlocksDiffer(t[m].1, t[j].1))
  }

  lemma BlockSpecsApart()
    ensures BlocksApart(BlockSpecs, RailSpecs)
  {
    BlockSpecsBounded();
    BlockRailsKnown();
    BlockSpecsDiffer();
  }

  lemma BlockSpecsBounded()
    ensures forall k :: 0 <= k < |BlockSpecs| ==> BlockBounded(BlockSpecs[k].1)
  {
  }

  lemma BlockRailsKnown()
    ensures forall k :: 0 <= k < |BlockSpecs| ==> Get(RailSpecs, BlockSpecs[k].1.rail).Some?
  {
    forall k | 0 <= k < |BlockSpecs|
      ensures Get(RailSpecs, BlockSpecs[k].1.rail).Some?
    {
      var w := if k < 10 then k / 2 else if k < 12 then 5 else (k - 12) / 2 + 6;
      assert RailSpecs[w].0 == BlockSpecs[k].1.rail;
    }
  }

  lemma BlockSpecsDiffer()
    ensures forall m, j :: 0 <= m < j < |BlockSpecs| ==> BlocksDiffer(BlockSpecs[m].1, BlockSpecs[j].1)
  {
  }

  /** Properties copied from a row whose rail is known match that row. */
  lemma SameRowMatches(rails: Table<RailSpec>, b: BlockSpec, q: BlockProps)
    requires CopiedFrom(q, b) && Get(rails, b.rail).Some? && q.railHeight == Get(rails, b.rail).value.hr
    ensures BlockMatches(rails, b, q)
  {
  }

  /** A row that differs from another in a compared dimension never matches
      properties copied from that other row. */
  lemma DifferentRowNoMatch(rails: Table<RailSpec>, a: BlockSpec, b: BlockSpec, q: BlockProps)
    requires BlockBounded(a) && BlockBounded(b) && BlocksDiffer(a, b) && CopiedFrom(q, b)
    ensures !BlockMatches(rails, a, q)
  {
    if Abs(a.width - b.width) >= 0.1 {
      NotCloseWhenApart(a.width, b.width, 0.01);
    } else if Abs(a.length - b.length) >= 0.1 {
      NotCloseWhenApart(a.length, b.length, 0.01);
    } else if Abs(a.middlePartLength - b.middlePartLength) >= 0.1 {
      NotCloseWhenApart(a.middlePartLength, b.middlePartLength, 0.01);
    } else if Abs(a.totalHeight - b.totalHeight) >= 0.1 {
      NotCloseWhenApart(a.totalHeight, b.totalHeight, 0.01);
    } else if Abs(a.height1 - b.height1) >= 0.1 {
      NotCloseWhenApart(a.height1, b.height1, 0.01);
    } else if Abs(a.blockSideWidth - b.blockSideWidth) >= 0.1 {
      NotCloseWhenApart(a.blockSideWidth, b.blockSideWidth, 0.01);
    } else if Abs(a.screwDepth - b.screwDepth) >= 0.1 {
      NotCloseWhenApart(a.screwDepth, b.screwDepth, 0.01);
    } else if Abs(a.screwB - b.screwB) >= 0.1 {
      NotCloseWhenApart(a.screwB, b.screwB, 0.01);
    } else {
      NotCloseWhenApart(a.screwC, b.screwC, 0.01);
    }
  }

  /** In tables whose rows are pairwise distinguishable and name known
      rails, choosing a block size and then naming the resulting properties
      gives back that size, whatever the screw table says. */
  lemma BlockRoundTrip(t: Table<BlockSpec>, rails: Table<RailSpec>, screws: ScrewDiameters,
                       p: BlockProps, i: nat)
    requires NamedRows(t) && BlocksApart(t, rails) && i < |t|
    ensures BlockName(t, rails, UpdateBlock(t, rails, screws, p, t[i].0)) == t[i].0
  {
    var key := t[i].0;
    var j := FirstIndex(t, (row: (string, BlockSpec)) => row.0 == key).value;
    var q := UpdateBlock(t, rails, screws, p, key);
    assert t[j].0 == key;
    SameRowMatches(rails, t[j].1, q);
    forall m | 0 <= m < j
      ensures !BlockMatches(rails, t[m].1, q)
    {
      DifferentRowNoMatch(rails, t[m].1, t[j].1, q);
    }
    FirstIndexIs(t, (row: (string, BlockSpec)) => BlockMatches(rails, row.1, q), j);
  }

  /** Choosing any block size and then naming the resulting properties
      gives back that size. */
  lemma BlockPresetRoundTrip(screws: ScrewDiameters, p: BlockProps, i: nat)
    requires i < |BlockSpecs|
    ensures BlockSpecToName(UpdateBlockSpec(screws, p, BlockSpecs[i].0)) == BlockSpecs[i].0
  {
    BlockSpecsNamed();
    BlockSpecsApart();
    BlockRoundTrip(BlockSpecs, RailSpecs, screws, p, i);
  }

  // ---------------------------------------------------------------------------
  // Screw holes of the block

  /** The centres of the block's screw holes, on the plane y = depth - height
      (the top face lies at y = -height): a 2 x 2 grid when both spacings are
      positive, a pair across the block or along it when only one is, and a
      single hole in the middle otherwise. */
  function ScrewHoleCenters(height: real, depth: real, b: real, c: real): (r: seq<Vec3>)
    ensures |r| == (if b > 0.0 then 2 else 1) * (if c > 0.0 then 2 else 1)
    ensures forall k :: 0 <= k < |r| ==> r[k].y == depth - height
    ensures forall k :: 0 <= k < |r| ==> Abs(r[k].x) == (if b > 0.0 then b / 2.0 else 0.0)
    ensures forall k :: 0 <= k < |r| ==> Abs(r[k].z) == (if c > 0.0 then c / 2.0 else 0.0)
    ensures forall k, l :: 0 <= k < l < |r| ==> r[k] != r[l]
  {
    var y := depth - height;
    if b > 0.0 && c > 0.0 then
      [Vec3(-b / 2.0, y, c / 2.0), Vec3(b / 2.0, y, c / 2.0), Vec3(-b / 2.0, y, -c / 2.0), Vec3(b / 2.0, y, -c / 2.0)]
    else if b > 0.0 then
      [Vec3(-b / 2.0, y, 0.0), Vec3(b / 2.0, y, 0.0)]
    else if c > 0.0 then
      [Vec3(0.0, y, c / 2.0), Vec3(0.0, y, -c / 2.0)]
    else
      [Vec3(0.0, y, 0.0)]
  }

  /** The holes are placed symmetrically: mirroring any centre across the
      block's middle, in x or in z, gives a centre again. */
  lemma ScrewHolesSymmetric(height: real, depth: real, b: real, c: real, k: nat)
    requires k < |ScrewHoleCenters(height, depth, b, c)|
    ensures var r := ScrewHoleCenters(height, depth, b, c);
      && r[k].(x := -r[k].x) in r
      && r[k].(z := -r[k].z) in r
  {
    var r := ScrewHoleCenters(height, depth, b, c);
    if b > 0.0 && c > 0.0 {
      assert r[k].(x := -r[k].x) == r[[1, 0, 3, 2][k]];
      assert r[k].(z := -r[k].z) == r[[2, 3, 0, 1][k]];
    } else if b > 0.0 {
      assert r[k].(x := -r[k].x) == r[1 - k];
      assert r[k].(z := -r[k].z) == r[k];
    } else if c > 0.0 {
      assert r[k].(x := -r[k].x) == r[k];
      assert r[k].(z := -r[k].z) == r[1 - k];
    } else {
      assert r[k].(x := -r[k].x) == r[k];
      assert r[k].(z := -r[k].z) == r[k];
    }
  }

  // ---------------------------------------------------------------------------
  // Holes along the rail

  /** The z of the holes along the rail: from the first offset in steps of
      the pitch for as long as the hole stays within the rail's length. The
      pitch property is at least 1, which is what makes the loop end. */
  method RailHoleZs(offset: real, length: real, pitch: real) returns (zs: seq<real>)
    requires pitch >= 1.0
    ensures forall k :: 0 <= k < |zs| ==> zs[k] == offset + k as real * pitch
    ensures forall k :: 0 <= k < |zs| ==> zs[k] <= length
    ensures offset + |zs| as real * pitch > length
  {
    zs := [];
    var z := offset;
    while z <= length
      invariant z == offset + |zs| as real * pitch
      invariant forall k :: 0 <= k < |zs| ==> zs[k] == offset + k as real * pitch
      invariant forall k :: 0 <= k < |zs| ==> zs[k] <= length
      decreases Floor(length - z) + 1
    {
      zs := zs + [z];
      z := z + pitch;
    }
  }

  /** The holes are evenly spaced by the pitch, lie within [offset, length],
      and there is at least one exactly when the offset is within the
      length. */
  lemma RailHolesSpaced(offset: real, length: real, pitch: real, zs: seq<real>)
    requires pitch >= 1.0
    requires forall k :: 0 <= k < |zs| ==> zs[k] == offset + k as real * pitch
    requires forall k :: 0 <= k < |zs| ==> zs[k] <= length
    requires offset + |zs| as real * pitch > length
    ensures |zs| > 0 <==> offset <= length
    ensures forall k :: 0 <= k < |zs| ==> offset <= zs[k] <= length
    ensures forall k :: 0 <= k < |zs| - 1 ==> zs[k + 1] - zs[k] == pitch
  {
    assert 0 as real * pitch == 0.0;
    if |zs| > 0 {
      assert zs[0] <= length;
    }
    forall k | 0 <= k < |zs|
      ensures offset <= zs[k]
    {
      assert k as real * pitch >= 0.0;
    }
  }

  // ---------------------------------------------------------------------------
  // The rail cut

  /** An axis-aligned box as `create_box` makes it: `size` wide along each
      axis and centred on `center`. */
  datatype Box = Box(size: Vec3, center: Vec3)

  function LowCorner(b: Box): Vec3 { Sub(b.center, Scale(0.5, b.size)) }
  function HighCorner(b: Box): Vec3 { Add(b.center, Scale(0.5, b.size)) }

  /** The box cut out of the block for the rail: as wide as the block less
      its two sides, as high as the rail plus the clearance, reaching down
      from the block's underside at y = 0, and 0.1 longer than the block at
      each end. */
  function RailCut(width: real, sideWidth: real, railHeight: real, clearance: real, length: real): (r: Box)
    ensures LowCorner(r).x == -width / 2.0 + sideWidth && HighCorner(r).x == width / 2.0 - sideWidth
    ensures LowCorner(r).y == -(railHeight + clearance) && HighCorner(r).y == 0.0
    ensures LowCorner(r).z == -length / 2.0 - 0.1 && HighCorner(r).z == length / 2.0 + 0.1
  {
    var h := railHeight + clearance;
    var w := width - sideWidth * 2.0;
    Box(Vec3(w, h, length + 0.1 * 2.0), Vec3(0.0, -h / 2.0, 0.0))
  }
}
