# India5G preprocessing helpers, modelled in Dafny

This project models the deterministic helpers of the India5G preprocessing
script (`scripts/preprocess.py`). These helpers turn loaded tables into the
per-region inputs of the 5G cost model:

- **Backhaul.** The GSMA backhaul shares of a region and year, and their
  cumulative thresholds.
- **Sites.** The greedy allocation of a telecom circle's towers to its
  regions (`estimate_sites`). Each tower gets a backhaul technology from a
  uniform draw.
- **Regional data.** The per-region densities and coverage percentages of
  `get_regional_data`.
- **Forecasts.** The subscription and smartphone penetration forecasts:
  compounded growth with a cap, over the loaded history and survey rows.
- **Shapes.** Dropping small parts from multipolygons (`exclude_small_shapes`,
  `clean_coverage`).
- **Nodes.** The choice of one core node per region, the merge with the
  existing nodes (`find_regional_nodes`), and the brightest-cell filter of
  `get_missing_nodes`.

Every table the script reads from disk is a parameter: the backhaul CSV,
the circle's tower count and covered-population percentage, the
subscription and survey tables, and the existing-nodes layer. The run's
`random.uniform(0, 1)` draws are the stream `draws: nat -> real`. A
geometry is abstracted to the areas of its parts.

Python's `round` is modelled as round-half-even on exact reals
(`Numeric.RoundHalfEven`), and `int()` of a float as truncation toward zero
(`Numeric.Trunc`). `sorted(..., reverse=True)` is a stable sort, modelled by
`StableSort.SortDesc`. The lemmas `SortDescPermutes`, `SortDescStable` and
`SortDescHead` state its three guarantees:

- it returns a permutation;
- items with equal keys keep their input order;
- the head is the first item with the largest key.

A `KeyError` becomes the `Failure` case of a `Result`.

Modules: `Wrappers`, `Numeric`, `Text`, `Seqs`, `StableSort`, `Backhaul`,
`RegionalData`, `Sites`, `Shapes`, `Nodes` and `Forecast`, one per file.

Design notes:

- **Sites.** The loop of `estimate_sites` is `Sites.Allocate`. It is generic
  over a `Plan`, which holds the per-region allocation rule and the backhaul
  tally. The circle's actual plan is `Sites.CirclePlan`, built from its
  coverage target, its towers per person, its thresholds and the draw
  stream.
- **Regional data, code over specification.** `get_regional_data` guards the
  density against a zero area (lines 552-559), but not the coverage
  percentages (lines 593-595). A region whose area rounds to 0 km² but which
  has non-zero coverage raises `ZeroDivisionError`. The model follows the
  code: `RegionalData.SummariseRegion` fails with `ZeroAreaCoverage`. It does
  not assume a guard.
- **Shapes.** `clean_coverage` returns `None` for a single polygon of at most
  1e7 (it falls off the end of the function). `Shapes.CleanCoverage` keeps
  that.

## Model

| member | source | states |
|---|---|---|
| Backhaul.EstimateBackhaul | scripts/preprocess.py:706-723 | one share per table row of the requested region and year, and every share is converted from some row of that region and year (`FromRows`) |
| Backhaul.EstimateBackhaulIsFilterMap | scripts/preprocess.py:716-721 | the shares are exactly the selected rows in table order, each with its technology name and its value truncated by `int()` |
| Backhaul.TechOfMatchesLower | scripts/preprocess.py:744 | a share names a technology exactly when its lower-cased name equals the technology's key, as the inner loop compares it |
| Backhaul.ClassifyHasEntry | scripts/preprocess.py:742-744 | some classified share denotes a technology exactly when some share's lower-cased name is that technology's key |
| Backhaul.MatchPassTotal | scripts/preprocess.py:743-747 | one pass over the shares adds every matching share's percentage to the running total |
| Backhaul.MatchPassResult | scripts/preprocess.py:743-747 | after a pass, the technology's threshold is the running total after all its shares, over 100; a technology with no share leaves the map unchanged |
| Backhaul.PreferencePassSteps | scripts/preprocess.py:733-742 | the outer loop is one pass per technology in the order fiber, copper, wireless, satellite, each starting from the previous pass's total and map |
| Backhaul.EntryThresholds | scripts/preprocess.py:740-748 | a technology gets a threshold exactly when some share denotes it, and the threshold is the summed percentage of it and every earlier technology in preference order, over 100 |
| Backhaul.BackhaulTypeThresholds | scripts/preprocess.py:726-749 | `estimate_backhaul_type` gives a key exactly to the technologies some share names, case-insensitively, and each value is the cumulative percentage up to that technology, over 100 |
| Backhaul.BackhaulTypeMonotone | scripts/preprocess.py:740-747 | with non-negative percentages, a later-preferred technology's threshold is never below an earlier one's |
| Backhaul.BucketSucceeds | scripts/preprocess.py:668-675 | a draw is classified exactly when every threshold the if/elif chain reads exists: fiber always, copper above fiber, wireless above copper; otherwise the chain raises KeyError |
| Backhaul.BucketIsInterval | scripts/preprocess.py:668-675 | with ordered thresholds, each technology receives exactly the draws in its interval: fiber at or below its threshold, copper and wireless in (previous, own], satellite above wireless |
| Backhaul.BucketIgnoresSatellite | scripts/preprocess.py:668-675 | the satellite threshold never affects the classification |
| Backhaul.CountBuckets | scripts/preprocess.py:659-675 | a successful count holds one technology per draw, so the four counters sum to the number of draws |
| Backhaul.CountBucketsPerTech | scripts/preprocess.py:664-675 | each technology's counter equals the number of draws that fall in its bucket |
| Backhaul.CountBucketsSucceeds | scripts/preprocess.py:664-675 | counting fails exactly when some draw reaches a missing threshold |
| Backhaul.CountBucketsTotal | scripts/preprocess.py:664-675 | with fiber, copper and wireless thresholds present, every draw increments exactly one counter |
| Numeric.RoundHalfEvenNearest | scripts/preprocess.py:652 | Python's `round` lands within one half of its argument, on the even integer at a tie |
| Numeric.RoundWithin | scripts/preprocess.py:690-691 | rounding a value that lies between two integers stays between them |
| Numeric.Trunc | scripts/preprocess.py:626 | `int()` of a float truncates toward zero: the result lies within one of the value, on the zero side |
| StableSort.SortDesc | scripts/preprocess.py:645 | the descending sort keeps the length and orders the items by non-increasing key |
| StableSort.SortDescPermutes | scripts/preprocess.py:645 | the descending sort returns a permutation of its input |
| StableSort.SortDescStable | scripts/preprocess.py:645 | items with equal keys keep their input order after the descending sort |
| StableSort.SortDescHead | scripts/preprocess.py:1447-1449 | the head of the descending sort has the largest key and is the first item with that key |
| Text.LowerIdempotent | scripts/preprocess.py:744 | lower-casing twice is lower-casing once |
| RegionalData.AreaKm2 | scripts/preprocess.py:547 | the area in km² is the absolute geodesic area over 1e6, rounded: non-negative and within one half of the exact value |
| RegionalData.PerKm2 | scripts/preprocess.py:552-559 | a density times a positive area gives back the zonal total, and is 0 for a zero area or an absent total |
| RegionalData.CoveragePercent | scripts/preprocess.py:593-595 | a percentage times the area is 100 times the covered area; with no zero-area guard, division fails exactly when coverage is non-zero and the area is 0 |
| RegionalData.SummariseRegionSucceeds | scripts/preprocess.py:547-595 | a region's row exists exactly when its area is positive or no generation covers any of it |
| RegionalData.SummariseRegionDensities | scripts/preprocess.py:547-559 | the row keeps the rounded area and the population, and its densities times the area give back the zonal totals, or are 0 at zero area |
| RegionalData.SummariseRegionCoverage | scripts/preprocess.py:561-595 | each generation's percentage times the area is 100 times its covered area, and is 0 when the generation or the region is missing from the coverage map |
| Sites.SitesAtCoverageWithin | scripts/preprocess.py:690-691 | with a coverage percentage in [0, 100], a region's 3G or 4G sites lie between 0 and its total sites |
| Sites.AllocateRegion | scripts/preprocess.py:649-657 | a region is allocated unless it lies inside the covered prefix without a population, and the allocation carries the region |
| Sites.AllocationBounds | scripts/preprocess.py:650-691 | with non-negative population and towers per person and percentages in [0, 100], the 3G and 4G sites lie between 0 and the total |
| Sites.CoveredAtMonotone | scripts/preprocess.py:698-701 | with non-negative populations, the covered population never decreases along the visiting order |
| Sites.AllocateAllocations | scripts/preprocess.py:649-701 | each output record is its region's allocation at the population covered by the regions visited before it |
| Sites.AllocateCounts | scripts/preprocess.py:659-675 | each output record's backhaul is the tally of its towers' draws, which start after the draws of all earlier records |
| Sites.AllocationsOfRegions | scripts/preprocess.py:677-687 | the output records list the regions in visiting order |
| Sites.AllocateSucceeds | scripts/preprocess.py:649-701 | the loop succeeds when every region has a population and every allocation and tally succeeds |
| Sites.EstimateSites | scripts/preprocess.py:613-703 | a successful estimate has one record per input region |
| Sites.EstimateCircleOrder | scripts/preprocess.py:645 | records come in visiting order: a permutation of the input by non-increasing population per km², with equally dense regions in input order |
| Sites.EstimateCircleAllocation | scripts/preprocess.py:645-697 | while the population covered before a region is below the target, it gets round(population × towers per person) sites and density × towers per person sites per km²; otherwise 0 and 0; its 3G and 4G sites are round(total × percentage / 100) of whichever total it got |
| Sites.EstimateCircleCutoff | scripts/preprocess.py:647-701 | with non-negative populations, once the covered population reaches the target, every later region gets no sites in total, none per km², and no 3G or 4G sites |
| Sites.EstimateCircleBounds | scripts/preprocess.py:690-691 | with non-negative inputs and coverage percentages in [0, 100], every region's 3G and 4G sites lie between 0 and its total sites |
| Sites.EstimateCircleBackhaul | scripts/preprocess.py:659-675 | a region's backhaul counters sum to its sites, and each counter is the number of its own draws (taken after all earlier regions' draws) in that technology's bucket |
| Sites.EstimateCircleSucceeds | scripts/preprocess.py:623-675 | the estimate succeeds when every region has a population and the fiber, copper and wireless thresholds exist |
| Sites.EstimateSitesSucceeds | scripts/preprocess.py:643-675 | the estimate succeeds when every region has a population and the shares name fiber, copper and wireless |
| Sites.CoverageTargetNonNeg | scripts/preprocess.py:619-633 | with non-negative populations and percentage, the covered-population target is non-negative |
| Sites.TotalPopulationNonNeg | scripts/preprocess.py:619-626 | with non-negative populations, the circle's truncated total population is non-negative |
| Shapes.PartThreshold | scripts/preprocess.py:835-843 | the part threshold is 0.01 for CHL, IDN, RUS, GRL, CAN and USA; otherwise 0.1 above a total area of 50, else 0.001 |
| Shapes.ExcludeSmallShapesParts | scripts/preprocess.py:804-852 | a polygon, or a multipolygon of total area below 0.01, comes back unchanged; otherwise the result is a multipolygon whose parts are exactly the input parts above the country's threshold |
| Shapes.ExcludeSmallShapesShrinks | scripts/preprocess.py:820-852 | the result is the same kind of geometry, its parts are an in-order subsequence, and with non-negative parts its area does not grow |
| Shapes.ExcludeSmallShapesIdempotent | scripts/preprocess.py:825-852 | with non-negative part areas, removing small shapes a second time changes nothing |
| Shapes.CleanCoverageParts | scripts/preprocess.py:855-889 | a polygon survives exactly when it is above 1e7 and otherwise yields None; a multipolygon always survives, holding exactly its parts above 1e7 |
| Shapes.CleanCoverageIdempotent | scripts/preprocess.py:871-889 | cleaning a cleaned geometry changes nothing, and every part it keeps is above 1e7 |
| Shapes.CleanCoverageShrinks | scripts/preprocess.py:877-889 | with non-negative parts, cleaning keeps an in-order subsequence of the parts and never increases the area |
| Nodes.UniqueRegions | scripts/preprocess.py:1415 | the unique regions are exactly the agglomerations' regions, each listed once |
| Nodes.UniqueRegionsOrder | scripts/preprocess.py:1415 | the unique regions are listed in order of first appearance |
| Nodes.RegionAgglomerations | scripts/preprocess.py:1430-1441 | every region that occurs has at least one agglomeration |
| Nodes.RegionalNodeIsFirstMax | scripts/preprocess.py:1429-1449 | a region's node is one of its agglomerations with the largest population, and the first such one in input order |
| Nodes.RegionalNodesRegions | scripts/preprocess.py:1429-1449 | there is one interim node per unique region, and the k-th node belongs to the k-th region |
| Nodes.NewNodesAre | scripts/preprocess.py:1472-1484 | the new nodes are exactly the interim nodes of the regions without an existing node, in order, tagged new |
| Nodes.FindRegionalNodesMerge | scripts/preprocess.py:1451-1484 | with an existing layer, the output is every existing node tagged existing, followed by the new nodes, and the new nodes are the interim nodes of the regions not yet served |
| Nodes.NewNodesDistinct | scripts/preprocess.py:1455-1484 | no new node serves a region that an existing node serves, and no region gets two new nodes |
| Nodes.FindRegionalNodesCovers | scripts/preprocess.py:1429-1484 | every region of the agglomerations is served by some node of the merged layer |
| Nodes.FindRegionalNodesFresh | scripts/preprocess.py:1426-1504 | without an existing layer, the k-th output node is the regional node (the first most populous agglomeration) of the k-th unique region, tagged new, and there are no added nodes |
| Nodes.RegionalLayerMembers | scripts/preprocess.py:1506-1525 | an agglomeration appears in the regional nodes layer exactly when it is in the input, and every node of the layer is tagged new |
| Nodes.RegionGroupsPermutes | scripts/preprocess.py:1426-1525 | the agglomerations written region by region, which `RegionalLayer` tags new, are a permutation of the input (each exactly as often), and each region's agglomerations keep their input order |
| Nodes.RegionGroupsOrder | scripts/preprocess.py:1412-1525 | the region groups follow the order in which the regions first appear in the input |
| Nodes.MaxSum | scripts/preprocess.py:1380 | the maximum sum bounds every shape's sum and is reached by one of them |
| Nodes.BrightestCellsChoice | scripts/preprocess.py:1380-1382 | the kept shapes are an in-order subsequence and are exactly the shapes whose sum is above the maximum minus 1; every shape at the maximum is kept, so a non-empty table keeps at least one |
| Forecast.YearRecords | scripts/preprocess.py:1872-1885 | one record per row of the circle in each year |
| Forecast.LoadYearsLength | scripts/preprocess.py:1870-1885 | loading from a year yields one block per remaining year up to 2018, each with one record per row of the circle |
| Forecast.LoadYearsAt | scripts/preprocess.py:1870-1885 | row j of the circle in year y sits at position j of year y's block |
| Forecast.LoadSubscriptionDataSpec | scripts/preprocess.py:1848-1887 | eleven yearly blocks from 2008 to 2018; each record carries the circle's code and category, the year, and the row's value for that year, halved for UE and UW |
| Forecast.CompoundPow | scripts/preprocess.py:1953-1956 | growing k times multiplies by the k-th power of the growth factor |
| Forecast.CappedSeries | scripts/preprocess.py:1951-1959 | the series has one value per year and none above the cap |
| Forecast.CappedSeriesStep | scripts/preprocess.py:1955-1959 | each value after the first is the previous capped value grown once, then capped |
| Forecast.CappedSeriesClosedForm | scripts/preprocess.py:1951-1959 | with a factor of at least 1 and a non-negative cap, the k-th value is the first value grown k times and capped once |
| Forecast.CappedSeriesNonNeg | scripts/preprocess.py:1951-1959 | from a non-negative start with a non-negative factor and cap, no value is negative |
| Forecast.CappedSeriesMonotone | scripts/preprocess.py:1951-1959 | with a non-negative start and a factor of at least 1, the series never decreases and stays at the cap once it reaches it |
| Forecast.ForecastLinear | scripts/preprocess.py:1927-1970 | the forecast fails exactly on an empty history, and otherwise has one record per year from start to end |
| Forecast.ForecastLinearSpec | scripts/preprocess.py:1949-1968 | record k is for year start + k and carries the circle's code and category; no penetration exceeds 95; the first is the latest record's penetration × (1 + g/100) capped at 95, and each later one is the previous grown and capped; the latest record is the first one with the largest year |
| Forecast.ForecastLinearMonotone | scripts/preprocess.py:1951-1959 | with g ≥ 0 and a non-negative latest penetration, the forecast never decreases and stays at 95 once it reaches it |
| Forecast.LoadSmartphoneDataSpec | scripts/preprocess.py:2015-2055 | a country present in the survey gets exactly its own rows (at least one); any other country gets its cluster's rows; either way in survey order, tagged with the circle's code and category |
| Forecast.SmartphoneSeries | scripts/preprocess.py:2064-2085 | one record per year for each survey record |
| Forecast.ForecastSmartphonesLength | scripts/preprocess.py:2064-2088 | the forecast has one block of one record per year for each survey record |
| Forecast.ForecastSmartphonesAt | scripts/preprocess.py:2064-2088 | the record of survey record i in year start + k sits at position k of block i |
| Forecast.ForecastSmartphonesSpec | scripts/preprocess.py:2058-2088 | record k of block i is for year start + k, carries the survey record's circle code, the circle's category and the lower-cased settlement type; the first value is the surveyed penetration capped at 90, each later one the previous grown by (1 + g/100) and capped; none exceeds 90 |
| Forecast.ForecastSmartphonesMonotone | scripts/preprocess.py:2068-2077 | with g ≥ 0 and a non-negative surveyed value, each survey record's forecast never decreases and stays at 90 once it reaches it |

## Left out

- File, raster and shapefile I/O: every CSV, shapefile and raster read or write. The loaded tables are parameters. Writing the per-region and merged node layers is not modelled; their contents are.
- Geodesic areas (pyproj), shapely geometry operations (overlay, centroid, intersection), `zonal_stats`, the networkx spanning tree and the sklearn regressor. Their behaviour is not visible. Their results enter as data: `RegionStats` holds the zonal sums and the geodesic area, and a geometry holds its part areas.
- `random.uniform(0, 1)`: the draws are the stream `draws: nat -> real`. Regions consume the draws in order, one per tower.
- Float arithmetic: reals are exact. The presentation rounding `round(x, 1)` and `round(x, 2)` of the coverage percentages and the forecasts is not modelled.
- Sites.TowersPerPop: when the covered-population target is 0, numpy's `towers / 0` (inf or nan) is modelled as 0. The value is then never used, because no region is inside the covered prefix.
- Forecast.ForecastLinear: the check `year not in [...]` is always true (the years of the loop are distinct), so it is left out. Years are integers instead of the loader's strings. For the four-digit years of the tables the order is the same.
- Forecast.LoadSubscriptionData: a row's year value is a total function of the year, so the `KeyError` on a missing year column is not modelled.
- Text.Lower: ASCII lower-casing only, as Python's `str.lower()` restricted to ASCII. The technology comparisons it feeds are against ASCII keys (`fiber`, `copper`, `wireless`, `satellite`), so they are unaffected. It also produces the `settlementType` output of `Forecast.ForecastSmartphonesLinear` (the `.lower()` at line 2083): for a settlement type with non-ASCII upper-case letters, Python lower-cases them and the model leaves them unchanged.
- Nodes.FindRegionalNodes: the case without an existing-nodes layer but with an old output file already on disk is not modelled. The model regenerates the layer.
- The cost engine that `tests/test_costs.py` exercises is not part of this model; neither are the test file itself and the `__main__` driver block of the script.
