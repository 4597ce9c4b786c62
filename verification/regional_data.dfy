/** Per-region attributes derived from zonal sums, the region's area and the
    coverage areas per mobile generation. */
module RegionalData {
  import opened Wrappers
  import opened Numeric

  datatype Generation = Gsm | G3 | G4

  /** Zonal sums and geodesic area of one region, as the raster and geodesy
      libraries deliver them (a zonal sum is None when no cell falls inside). */
  datatype RegionStats = RegionStats(
    gid: string,
    luminosity: Option<real>,
    population: Option<real>,
    geodesicAreaM2: real)

  /** One row of the regional data table. */
  datatype RegionSummary = RegionSummary(
    gid: string,
    meanLuminosityKm2: real,
    population: Option<real>,
    areaKm2: int,
    populationKm2: real,
    coverageGsmPercent: real,
    coverage3GPercent: real,
    coverage4GPercent: real)

  /** Coverage is nonzero in a region whose rounded area is zero: the
      percentage divides by zero. */
  datatype RegionError = ZeroAreaCoverage(gid: string, generation: Generation)

  /** Square kilometres, rounded to a whole number, of an area in square metres. */
  function AreaKm2(geodesicAreaM2: real): (a: int)
    ensures a >= 0
    ensures -0.5 <= a as real - (if geodesicAreaM2 < 0.0 then -geodesicAreaM2 else geodesicAreaM2) / 1000000.0 <= 0.5
  {
    var m2 := if geodesicAreaM2 < 0.0 then -geodesicAreaM2 else geodesicAreaM2;
    RoundWithin(m2 / 1000000.0, 0, (m2 / 1000000.0).Floor + 1);
    RoundHalfEven(m2 / 1000000.0)
  }

  /** A zonal total per square kilometre; zero for a zero-area region and for
      an absent or zero total. */
  function PerKm2(total: Option<real>, areaKm2: int): (d: real)
    ensures areaKm2 > 0 && total.Some? ==> d * areaKm2 as real == total.value
    ensures areaKm2 <= 0 || total.None? ==> d == 0.0
  {
    if areaKm2 > 0 then
      (if total.Some? && total.value != 0.0 then total.value / areaKm2 as real else 0.0)
    else 0.0
  }

  /** The covered area of a region for one generation; 0 when the generation
      or the region is missing from the coverage table. */
  function CoveredKm2(coverage: map<Generation, map<string, real>>, g: Generation, gid: string): real
  {
    if g in coverage && gid in coverage[g] then coverage[g][gid] else 0.0
  }

  /** The covered share of the area in percent; `None` stands for the
      division by a zero area (there is no zero-area guard here). */
  function CoveragePercent(coveredKm2: real, areaKm2: int): (p: Option<real>)
    ensures p.None? <==> coveredKm2 != 0.0 && areaKm2 == 0
    ensures p.Some? ==> p.value * areaKm2 as real == coveredKm2 * 100.0
  {
    if coveredKm2 != 0.0 then
      (if areaKm2 == 0 then None else Some(coveredKm2 / areaKm2 as real * 100.0))
    else Some(0.0)
  }

  function Percent(coverage: map<Generation, map<string, real>>, g: Generation, s: RegionStats): Option<real>
  {
    CoveragePercent(CoveredKm2(coverage, g, s.gid), AreaKm2(s.geodesicAreaM2))
  }

  /** The regional data row of one region, or the first generation whose
      percentage divides by zero. */
  function SummariseRegion(s: RegionStats, coverage: map<Generation, map<string, real>>): Result<RegionSummary, RegionError>
  {
    var area := AreaKm2(s.geodesicAreaM2);
    var lum := if s.luminosity.None? then Some(0.0) else s.luminosity;
    match (Percent(coverage, Gsm, s), Percent(coverage, G3, s), Percent(coverage, G4, s))
    case (None, _, _) => Failure(ZeroAreaCoverage(s.gid, Gsm))
    case (Some(_), None, _) => Failure(ZeroAreaCoverage(s.gid, G3))
    case (Some(_), Some(_), None) => Failure(ZeroAreaCoverage(s.gid, G4))
    case (Some(gsm), Some(g3), Some(g4)) =>
      Success(RegionSummary(s.gid, PerKm2(lum, area), s.population, area, PerKm2(s.population, area), gsm, g3, g4))
  }

  /** A row is produced exactly when no generation covers a positive-size
      part of a region whose area rounds to zero. */
  lemma SummariseRegionSucceeds(s: RegionStats, coverage: map<Generation, map<string, real>>)
    ensures SummariseRegion(s, coverage).Success?
            <==> AreaKm2(s.geodesicAreaM2) > 0 || forall g :: CoveredKm2(coverage, g, s.gid) == 0.0
  {
    if AreaKm2(s.geodesicAreaM2) == 0 && SummariseRegion(s, coverage).Success? {
      forall g
        ensures CoveredKm2(coverage, g, s.gid) == 0.0
      {
        match g
        case Gsm =>
        case G3 =>
        case G4 =>
      }
    }
  }

  /** The row keeps the rounded area and the population, and spreads the
      population and luminosity totals over the area (zero when the area is
      zero). */
  lemma SummariseRegionDensities(s: RegionStats, coverage: map<Generation, map<string, real>>)
    requires SummariseRegion(s, coverage).Success?
    ensures var r := SummariseRegion(s, coverage).value;
            var area := AreaKm2(s.geodesicAreaM2);
            && r.gid == s.gid
            && r.areaKm2 == area
            && r.population == s.population
            && (area > 0 && s.population.Some? ==> r.populationKm2 * area as real == s.population.value)
            && (area > 0 && s.luminosity.Some? ==> r.meanLuminosityKm2 * area as real == s.luminosity.value)
            && (area == 0 ==> r.populationKm2 == 0.0 && r.meanLuminosityKm2 == 0.0)
  {
  }

  /** Each generation's percentage is its covered area over the region's
      area, times 100; a generation with no coverage entry for the region
      has percentage 0. */
  lemma SummariseRegionCoverage(s: RegionStats, coverage: map<Generation, map<string, real>>, g: Generation)
    requires SummariseRegion(s, coverage).Success?
    ensures var r := SummariseRegion(s, coverage).value;
            var area := AreaKm2(s.geodesicAreaM2);
            var pct := match g case Gsm => r.coverageGsmPercent case G3 => r.coverage3GPercent case G4 => r.coverage4GPercent;
            && pct * area as real == CoveredKm2(coverage, g, s.gid) * 100.0
            && (g !in coverage || s.gid !in coverage[g] ==> pct == 0.0)
  {
    assert Percent(coverage, g, s).Some?;
  }
}
