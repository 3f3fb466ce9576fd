/** Counting the footprints of one grid square (the filter chain inside
    `updateGrid` in app/assets/scripts/components/map.js). */
module Footprints {
  import opened Values
  import opened Seqs

  /** The filter settings: `dataType` is 'all' or anything else, `resolution`
      is 'low', 'medium', 'high' or anything else, `date` is 'all' or a period. */
  datatype FilterParams = FilterParams(dataType: string, resolution: string, date: string)

  /** The footprint properties the filters read. An undefined `gsd` and an
      `acquisition_end` that is undefined or not a date are None: JavaScript
      compares them as NaN, and every comparison with NaN is false. A null
      `gsd` compares as 0 and a null `acquisition_end` is the epoch, so they
      are Some(0.0) and Some(0). Times are milliseconds since the epoch. */
  datatype Properties = Properties(tms: Option<string>, gsd: Option<real>, acquisitionEnd: Option<int>)

  /** A candidate footprint returned by the store's spatial index. */
  datatype Footprint<G> = Footprint(properties: Properties, geometry: G)

  /** The turf geometry functions the exact test uses: `centroid`, point-in-polygon
      `inside`, and `overlaps`. */
  datatype GeoOps<!G, !P> = GeoOps(centroid: G -> P, inside: (P, G) -> bool, overlaps: (G, G) -> bool)

  // ---------------------------------------------------------------------------
  // Stage one: the attribute predicate.

  /** Data type: any value other than 'all' rejects a footprint without a tms. */
  function DataTypePass(dataType: string, p: Properties): (keep: bool)
    ensures dataType == "all" ==> keep
    ensures Truthy(p.tms) ==> keep
  {
    !(dataType != "all" && !Truthy(p.tms))
  }

  /** Reference intervals of the resolution bands: low is [5, ∞), medium is
      [1, 5) and high is (-∞, 1); every other value names no band. */
  predicate InBand(resolution: string, g: real)
  {
    if resolution == "low" then 5.0 <= g
    else if resolution == "medium" then 1.0 <= g < 5.0
    else if resolution == "high" then g < 1.0
    else true
  }

  /** Resolution, written as the source's switch: each band rejects on the
      comparisons that put `gsd` outside it; other values fall through. The
      footprints kept are exactly those whose gsd lies in the band's interval,
      and every footprint without a gsd. */
  function ResolutionPass(resolution: string, gsd: Option<real>): (keep: bool)
    ensures keep <==> (gsd.None? || InBand(resolution, gsd.value))
  {
    match gsd
    case None => true
    case Some(g) =>
      if resolution == "low" then !(g < 5.0)
      else if resolution == "medium" then !(g >= 5.0 || g < 1.0)
      else if resolution == "high" then !(g >= 1.0)
      else true
  }

  /** Date: for any value other than 'all', a footprint acquired before the
      cutoff (now less a week, a month or a year) is rejected. */
  function DatePass(date: string, cutoff: int, acquisitionEnd: Option<int>): (keep: bool)
    ensures date == "all" ==> keep
    ensures acquisitionEnd.None? ==> keep
    ensures acquisitionEnd.Some? && cutoff <= acquisitionEnd.value ==> keep
  {
    !(date != "all" && acquisitionEnd.Some? && acquisitionEnd.value < cutoff)
  }

  /** The first filter of the chain. With every setting at 'all' it keeps
      every footprint; otherwise it keeps those each setting's test keeps. */
  function AttributePass(f: FilterParams, cutoff: int, p: Properties): (keep: bool)
    ensures f.dataType == "all" && f.resolution == "all" && f.date == "all" ==> keep
    ensures keep ==> (f.dataType == "all" || Truthy(p.tms))
    ensures keep && f.date != "all" && p.acquisitionEnd.Some? ==> cutoff <= p.acquisitionEnd.value
    ensures keep && p.gsd.Some? ==> InBand(f.resolution, p.gsd.value)
  {
    DataTypePass(f.dataType, p) && ResolutionPass(f.resolution, p.gsd) && DatePass(f.date, cutoff, p.acquisitionEnd)
  }

  // ---------------------------------------------------------------------------
  // Stage two: the exact geometric test.

  /** The square's centre is inside the footprint, or the footprint's centre is
      inside the square, or the two overlap. */
  predicate SpatialPass<G, P>(ops: GeoOps<G, P>, square: G, footprint: G)
  {
    || ops.inside(ops.centroid(square), footprint)
    || ops.inside(ops.centroid(footprint), square)
    || ops.overlaps(footprint, square)
  }

  /** Both stages together. */
  predicate Counted<G, P>(f: FilterParams, cutoff: int, ops: GeoOps<G, P>, square: G, foot: Footprint<G>)
  {
    AttributePass(f, cutoff, foot.properties) && SpatialPass(ops, square, foot.geometry)
  }

  /** The square's `count`: the length of the candidates after the attribute
      filter and then the geometric filter. */
  function SquareCount<G, P>(f: FilterParams, cutoff: int, ops: GeoOps<G, P>, square: G,
                             candidates: seq<Footprint<G>>): (n: nat)
    ensures n <= |candidates|
  {
    var attributes := Keep(candidates, (foot: Footprint<G>) => AttributePass(f, cutoff, foot.properties));
    |Keep(attributes, (foot: Footprint<G>) => SpatialPass(ops, square, foot.geometry))|
  }

  // ---------------------------------------------------------------------------
  // Properties of the filters.

  /** The three bands are pairwise disjoint and together cover every gsd. */
  lemma BandsPartition(g: real)
    ensures InBand("low", g) || InBand("medium", g) || InBand("high", g)
    ensures !(InBand("low", g) && InBand("medium", g))
    ensures !(InBand("low", g) && InBand("high", g))
    ensures !(InBand("medium", g) && InBand("high", g))
  {
  }

  /** Only whether the data type is 'all' matters, not which other value it is. */
  lemma DataTypeValueIrrelevant(d1: string, d2: string, p: Properties)
    requires d1 != "all" && d2 != "all"
    ensures DataTypePass(d1, p) == DataTypePass(d2, p)
    ensures DataTypePass(d1, p) <==> Truthy(p.tms)
  {
  }

  /** Any date other than 'all' rejects exactly the footprints acquired before the cutoff. */
  lemma DateRejectsBeforeCutoff(date: string, cutoff: int, t: int)
    requires date != "all"
    ensures !DatePass(date, cutoff, Some(t)) <==> t < cutoff
  {
  }

  /** The count is the number of candidates that pass both stages. */
  lemma {:induction false} SquareCountIsSurvivors<G, P>(f: FilterParams, cutoff: int, ops: GeoOps<G, P>,
                                                        square: G, candidates: seq<Footprint<G>>)
    ensures SquareCount(f, cutoff, ops, square, candidates)
            == |set i: nat | i < |candidates| && Counted(f, cutoff, ops, square, candidates[i])|
    ensures SquareCount(f, cutoff, ops, square, candidates) <= |candidates|
  {
    var attr := (foot: Footprint<G>) => AttributePass(f, cutoff, foot.properties);
    var spatial := (foot: Footprint<G>) => SpatialPass(ops, square, foot.geometry);
    var both := (foot: Footprint<G>) => Counted(f, cutoff, ops, square, foot);
    KeepFusion(candidates, attr, spatial, both);
    KeepCountsPositions(candidates, both);
    assert Positions(candidates, both)
        == set i: nat | i < |candidates| && Counted(f, cutoff, ops, square, candidates[i]);
  }

  /** A filter setting that lets through no more footprints than another
      never yields a larger count. */
  lemma {:induction false} TighterFilterCountsFewer<G, P>(tight: FilterParams, tightCutoff: int,
                                                          loose: FilterParams, looseCutoff: int,
                                                          ops: GeoOps<G, P>, square: G, candidates: seq<Footprint<G>>)
    requires forall p :: AttributePass(tight, tightCutoff, p) ==> AttributePass(loose, looseCutoff, p)
    ensures SquareCount(tight, tightCutoff, ops, square, candidates)
            <= SquareCount(loose, looseCutoff, ops, square, candidates)
  {
    var spatial := (foot: Footprint<G>) => SpatialPass(ops, square, foot.geometry);
    var tightAttr := (foot: Footprint<G>) => AttributePass(tight, tightCutoff, foot.properties);
    var looseAttr := (foot: Footprint<G>) => AttributePass(loose, looseCutoff, foot.properties);
    var tightBoth := (foot: Footprint<G>) => Counted(tight, tightCutoff, ops, square, foot);
    var looseBoth := (foot: Footprint<G>) => Counted(loose, looseCutoff, ops, square, foot);
    KeepFusion(candidates, tightAttr, spatial, tightBoth);
    KeepFusion(candidates, looseAttr, spatial, looseBoth);
    KeepMonotone(candidates, tightBoth, looseBoth);
  }

  /** Narrowing the resolution from 'all' to any band never increases a square's count. */
  lemma ResolutionNarrowingCountsFewer<G, P>(f: FilterParams, band: string, cutoff: int,
                                             ops: GeoOps<G, P>, square: G, candidates: seq<Footprint<G>>)
    requires f.resolution == "all"
    ensures SquareCount(f.(resolution := band), cutoff, ops, square, candidates)
            <= SquareCount(f, cutoff, ops, square, candidates)
  {
    TighterFilterCountsFewer(f.(resolution := band), cutoff, f, cutoff, ops, square, candidates);
  }

  /** Choosing a data type or a date period instead of 'all' never increases a square's count. */
  lemma DataTypeAndDateNarrowingCountsFewer<G, P>(f: FilterParams, dataType: string, date: string, cutoff: int,
                                                  ops: GeoOps<G, P>, square: G, candidates: seq<Footprint<G>>)
    requires f.dataType == "all" && f.date == "all"
    ensures SquareCount(f.(dataType := dataType, date := date), cutoff, ops, square, candidates)
            <= SquareCount(f, cutoff, ops, square, candidates)
  {
    TighterFilterCountsFewer(f.(dataType := dataType, date := date), cutoff, f, cutoff, ops, square, candidates);
  }

  /** A later cutoff never increases a square's count. */
  lemma LaterCutoffCountsFewer<G, P>(f: FilterParams, earlier: int, later: int,
                                     ops: GeoOps<G, P>, square: G, candidates: seq<Footprint<G>>)
    requires earlier <= later
    ensures SquareCount(f, later, ops, square, candidates) <= SquareCount(f, earlier, ops, square, candidates)
  {
    TighterFilterCountsFewer(f, later, f, earlier, ops, square, candidates);
  }

  /** Candidates that fail the geometric test, placed after the others, do
      not change the count. */
  lemma FarTailDoesNotCount<G, P>(f: FilterParams, cutoff: int, ops: GeoOps<G, P>, square: G,
                                  candidates: seq<Footprint<G>>, far: seq<Footprint<G>>)
    requires forall foot :: foot in far ==> !SpatialPass(ops, square, foot.geometry)
    ensures SquareCount(f, cutoff, ops, square, candidates + far) == SquareCount(f, cutoff, ops, square, candidates)
  {
    var all := candidates + far;
    SquareCountIsSurvivors(f, cutoff, ops, square, all);
    SquareCountIsSurvivors(f, cutoff, ops, square, candidates);
    forall i: nat | i < |all|
      ensures Counted(f, cutoff, ops, square, all[i]) <==> i < |candidates| && Counted(f, cutoff, ops, square, candidates[i])
    {
      if i < |candidates| {
        assert all[i] == candidates[i];
      } else {
        assert all[i] in far;
      }
    }
    assert (set i: nat | i < |all| && Counted(f, cutoff, ops, square, all[i]))
        == (set i: nat | i < |candidates| && Counted(f, cutoff, ops, square, candidates[i]));
  }
  /** One more candidate adds one to the count exactly when it passes both stages. */
  lemma SquareCountSnoc<G, P>(f: FilterParams, cutoff: int, ops: GeoOps<G, P>, square: G,
                              candidates: seq<Footprint<G>>, extra: Footprint<G>)
    ensures SquareCount(f, cutoff, ops, square, candidates + [extra])
            == SquareCount(f, cutoff, ops, square, candidates) + (if Counted(f, cutoff, ops, square, extra) then 1 else 0)
  {
    var attr := (foot: Footprint<G>) => AttributePass(f, cutoff, foot.properties);
    var spatial := (foot: Footprint<G>) => SpatialPass(ops, square, foot.geometry);
    var before := Keep(candidates, attr);
    assert SquareCount(f, cutoff, ops, square, candidates) == |Keep(before, spatial)|;
    KeepSnoc(candidates, extra, attr);
    if attr(extra) {
      assert Keep(candidates + [extra], attr) == before + [extra];
      KeepSnoc(before, extra, spatial);
      assert SquareCount(f, cutoff, ops, square, candidates + [extra]) == |Keep(before + [extra], spatial)|;
    } else {
      assert Keep(candidates + [extra], attr) == before;
    }
  }


  /** Candidates of the spatial index that do not meet the square geometrically
      never change its count, wherever the index puts them and whatever their
      properties. */
  lemma {:induction false} FarFootprintsDoNotCount<G, P>(f: FilterParams, cutoff: int, ops: GeoOps<G, P>, square: G,
                                                         front: seq<Footprint<G>>, far: seq<Footprint<G>>,
                                                         back: seq<Footprint<G>>)
    requires forall foot :: foot in far ==> !SpatialPass(ops, square, foot.geometry)
    ensures SquareCount(f, cutoff, ops, square, front + far + back) == SquareCount(f, cutoff, ops, square, front + back)
    decreases |back|
  {
    if |back| == 0 {
      assert front + far + back == front + far;
      assert front + back == front;
      FarTailDoesNotCount(f, cutoff, ops, square, front, far);
    } else {
      var init, last := back[..|back| - 1], back[|back| - 1];
      FarFootprintsDoNotCount(f, cutoff, ops, square, front, far, init);
      assert front + far + back == (front + far + init) + [last];
      assert front + back == (front + init) + [last];
      SquareCountSnoc(f, cutoff, ops, square, front + far + init, last);
      SquareCountSnoc(f, cutoff, ops, square, front + init, last);
    }
  }


  /** One footprint of gsd 0.5 that meets the square: counted under the 'high'
      band, not under the 'low' band. */
  lemma SingleHighResolutionFootprint<G, P>(ops: GeoOps<G, P>, square: G, foot: Footprint<G>, cutoff: int)
    requires foot.properties.gsd == Some(0.5)
    requires SpatialPass(ops, square, foot.geometry)
    ensures SquareCount(FilterParams("all", "high", "all"), cutoff, ops, square, [foot]) == 1
    ensures SquareCount(FilterParams("all", "low", "all"), cutoff, ops, square, [foot]) == 0
  {
    assert [foot][..0] == [];
  }
}
