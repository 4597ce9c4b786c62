/** Dropping small parts from region and coverage geometries. A geometry is
    abstracted to its kind and the areas of its parts; a multipolygon's area
    is the sum of its parts' areas. */
module Shapes {
  import opened Wrappers
  import opened Seqs

  datatype Geometry =
    | Polygon(area: real)
    | MultiPolygon(parts: seq<real>)

  function Area(g: Geometry): real
  {
    match g
    case Polygon(a) => a
    case MultiPolygon(parts) => Sum(parts)
  }

  /** Below this total area a multipolygon is kept whole. */
  const TinyArea: real := 0.01
  /** Above this total area a multipolygon loses parts up to 0.1. */
  const LargeArea: real := 50.0
  /** Countries whose parts are dropped up to 0.01 whatever their area. */
  const FixedThresholdCountries: set<string> := {"CHL", "IDN", "RUS", "GRL", "CAN", "USA"}
  /** A coverage part is kept only above this area. */
  const CoverageMinArea: real := 10000000.0

  function Above(threshold: real): real -> bool
  {
    a => a > threshold
  }

  /** The part area a country's multipolygon of the given total area must exceed. */
  function PartThreshold(gid0: string, area: real): (t: real)
    ensures gid0 in FixedThresholdCountries ==> t == 0.01
    ensures gid0 !in FixedThresholdCountries ==> t == (if area > LargeArea then 0.1 else 0.001)
  {
    if gid0 in {"CHL", "IDN"} then 0.01
    else if gid0 in {"RUS", "GRL", "CAN", "USA"} then 0.01
    else if area > LargeArea then 0.1
    else 0.001
  }

  /** `exclude_small_shapes`: a polygon, or a multipolygon whose total area is
      tiny, is kept as is; otherwise only the parts larger than the
      country's threshold are kept, in order. */
  function ExcludeSmallShapes(gid0: string, g: Geometry): (r: Geometry)
    ensures g.Polygon? ==> r == g
    ensures g.MultiPolygon? && Area(g) < TinyArea ==> r == g
    ensures g.MultiPolygon? && Area(g) >= TinyArea ==>
              r == MultiPolygon(Filter(g.parts, Above(PartThreshold(gid0, Area(g)))))
  {
    match g
    case Polygon(_) => g
    case MultiPolygon(parts) =>
      if Area(g) < TinyArea then g
      else MultiPolygon(Filter(parts, Above(PartThreshold(gid0, Area(g)))))
  }

  /** A polygon, or a multipolygon of tiny total area, comes back unchanged;
      otherwise the result is a multipolygon holding exactly the parts above
      the country's threshold. */
  lemma ExcludeSmallShapesParts(gid0: string, g: Geometry)
    ensures var r := ExcludeSmallShapes(gid0, g);
            && r.Polygon? == g.Polygon?
            && (g.Polygon? || Area(g) < TinyArea ==> r == g)
            && (g.MultiPolygon? && Area(g) >= TinyArea ==>
                  forall a :: a in r.parts <==> a in g.parts && a > PartThreshold(gid0, Area(g)))
  {
    if g.MultiPolygon? && Area(g) >= TinyArea {
      FilterMembers(g.parts, Above(PartThreshold(gid0, Area(g))));
    }
  }

  /** No part has a negative area. */
  predicate NonNegParts(g: Geometry)
  {
    g.MultiPolygon? ==> forall i :: 0 <= i < |g.parts| ==> g.parts[i] >= 0.0
  }

  /** The result is the same kind of geometry, its parts are a subsequence of
      the input's, and with non-negative parts its area never grows. */
  lemma ExcludeSmallShapesShrinks(gid0: string, g: Geometry)
    ensures var r := ExcludeSmallShapes(gid0, g);
            && r.Polygon? == g.Polygon?
            && (g.MultiPolygon? ==> IsSubsequence(r.parts, g.parts))
            && (NonNegParts(g) ==> Area(r) <= Area(g))
  {
    if g.MultiPolygon? && Area(g) >= TinyArea {
      var p := Above(PartThreshold(gid0, Area(g)));
      FilterIsSubsequence(g.parts, p);
      if NonNegParts(g) {
        FilterSumAtMost(g.parts, p);
      }
    } else if g.MultiPolygon? {
      IsSubsequenceRefl(g.parts);
    }
  }

  /** Applying the filter twice removes nothing more: every kept part exceeds
      the threshold the smaller total area selects. */
  lemma ExcludeSmallShapesIdempotent(gid0: string, g: Geometry)
    requires NonNegParts(g)
    ensures ExcludeSmallShapes(gid0, ExcludeSmallShapes(gid0, g)) == ExcludeSmallShapes(gid0, g)
  {
    if g.MultiPolygon? && Area(g) >= TinyArea {
      var t := PartThreshold(gid0, Area(g));
      var kept := Filter(g.parts, Above(t));
      var r := MultiPolygon(kept);
      ExcludeSmallShapesShrinks(gid0, g);
      if Area(r) >= TinyArea {
        var t' := PartThreshold(gid0, Area(r));
        assert t' <= t || t' == 0.001;
        forall i | 0 <= i < |kept|
          ensures Above(t')(kept[i])
        {
          assert kept[i] > t;
        }
        FilterAll(kept, Above(t'));
      }
    }
  }

  /** `clean_coverage`: a polygon larger than the minimum coverage area is
      kept, a smaller one yields nothing; a multipolygon keeps, in order,
      its parts larger than that area. */
  function CleanCoverage(g: Geometry): (r: Option<Geometry>)
    ensures g.Polygon? ==> (r.Some? <==> g.area > CoverageMinArea)
    ensures r.Some? && g.Polygon? ==> r.value == g
    ensures g.MultiPolygon? ==> r == Some(MultiPolygon(Filter(g.parts, Above(CoverageMinArea))))
  {
    match g
    case Polygon(a) => if a > CoverageMinArea then Some(g) else None
    case MultiPolygon(parts) => Some(MultiPolygon(Filter(parts, Above(CoverageMinArea))))
  }

  /** A polygon survives exactly when it is larger than the minimum
      coverage area; a multipolygon always survives, holding exactly its
      parts larger than that area. */
  lemma CleanCoverageParts(g: Geometry)
    ensures var r := CleanCoverage(g);
            && (g.Polygon? ==> (r == Some(g) <==> g.area > CoverageMinArea) && (r.None? <==> g.area <= CoverageMinArea))
            && (g.MultiPolygon? ==>
                  && r.Some? && r.value.MultiPolygon?
                  && forall a :: a in r.value.parts <==> a in g.parts && a > CoverageMinArea)
  {
    if g.MultiPolygon? {
      FilterMembers(g.parts, Above(CoverageMinArea));
    }
  }

  /** Cleaning a cleaned coverage changes nothing, and every part it keeps is
      larger than the minimum coverage area. */
  lemma CleanCoverageIdempotent(g: Geometry)
    requires CleanCoverage(g).Some?
    ensures CleanCoverage(CleanCoverage(g).value) == CleanCoverage(g)
    ensures Area(CleanCoverage(g).value) > CoverageMinArea || CleanCoverage(g).value.MultiPolygon?
    ensures CleanCoverage(g).value.MultiPolygon? ==>
              forall i :: 0 <= i < |CleanCoverage(g).value.parts| ==> CleanCoverage(g).value.parts[i] > CoverageMinArea
  {
    if g.MultiPolygon? {
      FilterIdempotent(g.parts, Above(CoverageMinArea));
    }
  }

  /** With non-negative parts, cleaning never increases the covered area. */
  lemma CleanCoverageShrinks(g: Geometry)
    requires NonNegParts(g)
    requires CleanCoverage(g).Some?
    ensures Area(CleanCoverage(g).value) <= Area(g)
    ensures g.MultiPolygon? ==> IsSubsequence(CleanCoverage(g).value.parts, g.parts)
  {
    if g.MultiPolygon? {
      FilterSumAtMost(g.parts, Above(CoverageMinArea));
      FilterIsSubsequence(g.parts, Above(CoverageMinArea));
    }
  }
}
