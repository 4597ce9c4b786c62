/** Greedy allocation of a telecom circle's towers to its regions: regions
    are visited from the most to the least densely populated, and each gets
    towers in proportion to its population until the covered population
    target is reached; every later region gets none. Each tower is then
    given a backhaul technology by one uniform draw. */
module Sites {
  import opened Wrappers
  import opened Numeric
  import opened StableSort
  import opened Backhaul
  import opened RegionalData
  import opened Seqs

  /** The towers allocated to one region. */
  datatype Allocation = Allocation(
    region: RegionSummary,
    sitesTotal: int,
    sitesKm2: real,
    sites3G: int,
    sites4G: int)

  /** The site estimate of one region: its allocation and the backhaul
      technology counts of its towers. */
  datatype SiteEstimate = SiteEstimate(sites: Allocation, backhaul: Mix)

  datatype SitesError =
    | MissingPopulation(gid: string)   // a region without population inside the covered prefix
    | MissingThreshold(tech: Tech)     // a draw reached a technology the share table lacks

  function Density(r: RegionSummary): real
  {
    r.populationKm2
  }

  /** The population a region adds to the covered total; a region without
      one adds nothing. */
  function PopulationOf(r: RegionSummary): real
  {
    r.population.GetOr(0.0)
  }

  function PopulationSum(regions: seq<RegionSummary>): real
  {
    if |regions| == 0 then 0.0 else PopulationOf(regions[0]) + PopulationSum(regions[1..])
  }

  /** The circle's population: each known regional population truncated to
      an integer, then summed. */
  function TotalPopulation(regions: seq<RegionSummary>): int
  {
    if |regions| == 0 then 0
    else (if regions[0].population.Some? then Trunc(regions[0].population.value) else 0)
         + TotalPopulation(regions[1..])
  }

  /** The share `percent` of `total` sites, before rounding. */
  function CoverageShare(total: int, percent: real): real
  {
    total as real * (percent / 100.0)
  }

  /** The sites of a region supplied by one mobile generation. */
  function SitesAtCoverage(total: int, percent: real): int
  {
    RoundHalfEven(CoverageShare(total, percent))
  }

  /** No sites supply no generation. */
  lemma NoSitesAtCoverage(percent: real)
    ensures SitesAtCoverage(0, percent) == 0
  {
    RoundWithin(CoverageShare(0, percent), 0, 0);
  }

  /** A percentage in [0, 100] of a non-negative site count lies between none and all of it. */
  lemma CoverageShareWithin(total: int, percent: real)
    requires total >= 0 && 0.0 <= percent <= 100.0
    ensures 0.0 <= CoverageShare(total, percent) <= total as real
  {
    var a, f := total as real, percent / 100.0;
    FractionWithin(a, f);
    assert CoverageShare(total, percent) == a * f;
    assert 0.0 <= a * f <= a;
  }

  /** A coverage percentage in [0, 100] supplies between none and all of the sites. */
  lemma SitesAtCoverageWithin(total: int, percent: real)
    requires total >= 0 && 0.0 <= percent <= 100.0
    ensures 0 <= SitesAtCoverage(total, percent) <= total
  {
    CoverageShareWithin(total, percent);
    RoundWithin(CoverageShare(total, percent), 0, total);
  }

  /** The `count` draws starting at position `next` of the run's draw stream. */
  function DrawsFrom(draws: nat -> real, next: nat, count: nat): (d: seq<real>)
    ensures |d| == count
    decreases count
  {
    if count == 0 then [] else [draws(next)] + DrawsFrom(draws, next + 1, count - 1)
  }

  /** A covered region's towers: its population times the towers per person, rounded. */
  function RegionTowers(population: real, towersPerPop: real): int
  {
    RoundHalfEven(population * towersPerPop)
  }

  /** A covered region's towers per km2: its density times the towers per person. */
  function RegionTowersKm2(populationKm2: real, towersPerPop: real): real
  {
    populationKm2 * towersPerPop
  }

  /** The towers of one region, given the population covered by the regions
      visited before it: none once the target is reached, otherwise its
      population times the towers per person, rounded; the towers per km2
      are its density times the same factor. */
  function AllocateRegion(r: RegionSummary, covered: real, target: real, towersPerPop: real): (a: Result<Allocation, SitesError>)
    ensures a.Success? <==> !(covered < target && r.population.None?)
    ensures a.Success? ==> a.value.region == r
  {
    if covered < target then
      if r.population.None? then Failure(MissingPopulation(r.gid))
      else
        var total := RegionTowers(r.population.value, towersPerPop);
        Success(Allocation(r, total, RegionTowersKm2(r.populationKm2, towersPerPop),
                           SitesAtCoverage(total, r.coverage3GPercent), SitesAtCoverage(total, r.coverage4GPercent)))
    else
      Success(Allocation(r, 0, 0.0, SitesAtCoverage(0, r.coverage3GPercent), SitesAtCoverage(0, r.coverage4GPercent)))
  }

  /** Inside the covered prefix a region's towers are its population times
      the towers per person, rounded half to even, and its towers per km2
      are its density times the same factor; past the target it has none. */
  lemma AllocateRegionTowers(r: RegionSummary, covered: real, target: real, towersPerPop: real)
    requires AllocateRegion(r, covered, target, towersPerPop).Success?
    ensures var a := AllocateRegion(r, covered, target, towersPerPop).value;
            && (covered < target ==> a.sitesTotal == RegionTowers(r.population.value, towersPerPop)
                                     && a.sitesKm2 == RegionTowersKm2(r.populationKm2, towersPerPop))
            && (covered >= target ==> a.sitesTotal == 0 && a.sitesKm2 == 0.0)
            && a.sites3G == SitesAtCoverage(a.sitesTotal, r.coverage3GPercent)
            && a.sites4G == SitesAtCoverage(a.sitesTotal, r.coverage4GPercent)
  {
  }

  /** A region with a non-negative population gets a non-negative number
      of towers at non-negative towers per person, and with coverage
      percentages in [0, 100] its 3G and 4G sites lie between none and all
      of its towers. */
  lemma AllocationBounds(r: RegionSummary, covered: real, target: real, towersPerPop: real)
    requires AllocateRegion(r, covered, target, towersPerPop).Success?
    requires towersPerPop >= 0.0
    requires r.population.Some? ==> r.population.value >= 0.0
    requires 0.0 <= r.coverage3GPercent <= 100.0 && 0.0 <= r.coverage4GPercent <= 100.0
    ensures var a := AllocateRegion(r, covered, target, towersPerPop).value;
            && 0 <= a.sites3G <= a.sitesTotal
            && 0 <= a.sites4G <= a.sitesTotal
  {
    AllocateRegionTowers(r, covered, target, towersPerPop);
    var a := AllocateRegion(r, covered, target, towersPerPop).value;
    if covered < target {
      var p := r.population.value;
      ProductNonNeg(p, towersPerPop);
      RoundHalfEvenNearest(p * towersPerPop);
    }
    SitesAtCoverageWithin(a.sitesTotal, r.coverage3GPercent);
    SitesAtCoverageWithin(a.sitesTotal, r.coverage4GPercent);
  }

  /** What stays fixed during the loop over one circle's regions: the
      allocation of a region given the population covered before it
      (`CircleRule` for a real circle), and the backhaul tally of `count`
      towers whose draws start at position `next` of the run's draw stream
      (`CircleTally` for a real circle). */
  datatype Plan = Plan(
    allocate: (RegionSummary, real) -> Result<Allocation, SitesError>,
    tally: (nat, nat) -> Result<Mix, Tech>)

  /** The backhaul of an allocation: one draw per tower, starting at position `next`. */
  function AssignBackhaul(a: Allocation, plan: Plan, next: nat): (e: Result<SiteEstimate, SitesError>)
    ensures e.Success? ==> e.value.sites == a
  {
    match plan.tally(next, NonNeg(a.sitesTotal))
    case Failure(t) => Failure(MissingThreshold(t))
    case Success(mix) => Success(SiteEstimate(a, mix))
  }

  /** The population covered by the first `i` regions, on top of `covered`. */
  function CoveredAt(regions: seq<RegionSummary>, covered: real, i: nat): real
    requires i <= |regions|
  {
    covered + PopulationSum(regions[..i])
  }

  /** No region has a negative population. */
  predicate NonNegPopulations(regions: seq<RegionSummary>)
  {
    forall r :: r in regions && r.population.Some? ==> r.population.value >= 0.0
  }

  lemma {:induction false} PopulationSumSnoc(regions: seq<RegionSummary>, r: RegionSummary)
    ensures PopulationSum(regions + [r]) == PopulationSum(regions) + PopulationOf(r)
    decreases |regions|
  {
    if |regions| > 0 {
      assert (regions + [r])[1..] == regions[1..] + [r];
      PopulationSumSnoc(regions[1..], r);
    } else {
      assert regions + [r] == [r];
    }
  }

  /** The covered population grows by each region visited. */
  lemma CoveredAtStep(regions: seq<RegionSummary>, covered: real, i: nat)
    requires i < |regions|
    ensures CoveredAt(regions, covered, i + 1) == CoveredAt(regions, covered, i) + PopulationOf(regions[i])
  {
    assert regions[..i + 1] == regions[..i] + [regions[i]];
    PopulationSumSnoc(regions[..i], regions[i]);
  }

  /** Without negative populations the covered population never decreases. */
  lemma {:induction false} CoveredAtMonotone(regions: seq<RegionSummary>, covered: real, i: nat, j: nat)
    requires NonNegPopulations(regions)
    requires i <= j <= |regions|
    ensures CoveredAt(regions, covered, i) <= CoveredAt(regions, covered, j)
    decreases j - i
  {
    if i < j {
      CoveredAtMonotone(regions, covered, i, j - 1);
      CoveredAtStep(regions, covered, j - 1);
      assert regions[j - 1] in regions;
    }
  }

  /** The number of draws the given records used. */
  function DrawsUsed(out: seq<SiteEstimate>): nat
  {
    if |out| == 0 then 0 else NonNeg(out[0].sites.sitesTotal) + DrawsUsed(out[1..])
  }

  /** The estimate of one region: its allocation, then one draw per tower. */
  function EstimateRegion(r: RegionSummary, covered: real, plan: Plan, next: nat): Result<SiteEstimate, SitesError>
  {
    match plan.allocate(r, covered)
    case Failure(err) => Failure(err)
    case Success(a) => AssignBackhaul(a, plan, next)
  }

  /** A record's allocation is that of its region at the population covered before it. */
  predicate AllocatedAt(r: RegionSummary, covered: real, plan: Plan, e: SiteEstimate)
  {
    plan.allocate(r, covered) == Success(e.sites)
  }

  /** A record's backhaul counts are those of its towers' draws, which start
      at position `next` of the stream. */
  predicate CountedAt(plan: Plan, next: nat, e: SiteEstimate)
  {
    plan.tally(next, NonNeg(e.sites.sitesTotal)) == Success(e.backhaul)
  }

  /** A region's estimate is allocated at the population covered before it
      and counted on the draws from `next` on. */
  lemma EstimateRegionParts(r: RegionSummary, covered: real, plan: Plan, next: nat)
    requires EstimateRegion(r, covered, plan, next).Success?
    ensures AllocatedAt(r, covered, plan, EstimateRegion(r, covered, plan, next).value)
    ensures CountedAt(plan, next, EstimateRegion(r, covered, plan, next).value)
  {
  }

  /** The allocation loop over regions already in visiting order; each
      region's towers take the next draws of the stream. */
  function Allocate(regions: seq<RegionSummary>, covered: real, plan: Plan, next: nat): (r: Result<seq<SiteEstimate>, SitesError>)
    ensures r.Success? ==> |r.value| == |regions|
    decreases |regions|
  {
    if |regions| == 0 then Success([])
    else
      match EstimateRegion(regions[0], covered, plan, next)
      case Failure(e) => Failure(e)
      case Success(est) =>
        match Allocate(regions[1..], covered + PopulationOf(regions[0]), plan, next + NonNeg(est.sites.sitesTotal))
        case Failure(e) => Failure(e)
        case Success(rest) => Success([est] + rest)
  }

  /** A successful loop is the first region's estimate followed by the
      loop over the rest, which starts with that region's population covered
      and its draws used. */
  lemma AllocateCons(regions: seq<RegionSummary>, covered: real, plan: Plan, next: nat)
      returns (est: SiteEstimate, rest: seq<SiteEstimate>)
    requires |regions| > 0
    requires Allocate(regions, covered, plan, next).Success?
    ensures EstimateRegion(regions[0], covered, plan, next) == Success(est)
    ensures Allocate(regions[1..], covered + PopulationOf(regions[0]), plan, next + NonNeg(est.sites.sitesTotal))
            == Success(rest)
    ensures Allocate(regions, covered, plan, next).value == [est] + rest
  {
    est := EstimateRegion(regions[0], covered, plan, next).value;
    rest := Allocate(regions[1..], covered + PopulationOf(regions[0]), plan, next + NonNeg(est.sites.sitesTotal)).value;
  }

  /** `out` holds, region by region, the allocation of each region at the
      population covered by the regions before it. */
  predicate AllocationsOf(regions: seq<RegionSummary>, covered: real, plan: Plan, out: seq<SiteEstimate>)
    decreases |regions|
  {
    && |out| == |regions|
    && (|regions| > 0 ==>
          && AllocatedAt(regions[0], covered, plan, out[0])
          && AllocationsOf(regions[1..], covered + PopulationOf(regions[0]), plan, out[1..]))
  }

  /** `out` holds, record by record, the counts of the draws that follow
      those of the records before it. */
  predicate CountsOf(plan: Plan, next: nat, out: seq<SiteEstimate>)
    decreases |out|
  {
    |out| > 0 ==>
      && CountedAt(plan, next, out[0])
      && CountsOf(plan, next + NonNeg(out[0].sites.sitesTotal), out[1..])
  }

  /** The loop allocates each region at the population covered before it. */
  lemma {:induction false} AllocateAllocations(regions: seq<RegionSummary>, covered: real, plan: Plan, next: nat)
    requires Allocate(regions, covered, plan, next).Success?
    ensures AllocationsOf(regions, covered, plan, Allocate(regions, covered, plan, next).value)
    decreases |regions|
  {
    if |regions| > 0 {
      var est, rest := AllocateCons(regions, covered, plan, next);
      EstimateRegionParts(regions[0], covered, plan, next);
      AllocateAllocations(regions[1..], covered + PopulationOf(regions[0]), plan, next + NonNeg(est.sites.sitesTotal));
      AllocationsOfCons(regions, covered, plan, est, rest);
    }
  }

  lemma AllocationsOfCons(regions: seq<RegionSummary>, covered: real, plan: Plan, est: SiteEstimate,
                          rest: seq<SiteEstimate>)
    requires |regions| > 0 && AllocatedAt(regions[0], covered, plan, est)
    requires AllocationsOf(regions[1..], covered + PopulationOf(regions[0]), plan, rest)
    ensures AllocationsOf(regions, covered, plan, [est] + rest)
  {
    var out := [est] + rest;
    assert out[0] == est && out[1..] == rest;
  }

  /** The loop counts each region's draws after those of the regions before it. */
  lemma {:induction false} AllocateCounts(regions: seq<RegionSummary>, covered: real, plan: Plan, next: nat)
    requires Allocate(regions, covered, plan, next).Success?
    ensures CountsOf(plan, next, Allocate(regions, covered, plan, next).value)
    decreases |regions|
  {
    if |regions| > 0 {
      var est, rest := AllocateCons(regions, covered, plan, next);
      EstimateRegionParts(regions[0], covered, plan, next);
      AllocateCounts(regions[1..], covered + PopulationOf(regions[0]), plan, next + NonNeg(est.sites.sitesTotal));
      CountsOfCons(plan, next, est, rest);
    }
  }

  lemma CountsOfCons(plan: Plan, next: nat, est: SiteEstimate, rest: seq<SiteEstimate>)
    requires CountedAt(plan, next, est)
    requires CountsOf(plan, next + NonNeg(est.sites.sitesTotal), rest)
    ensures CountsOf(plan, next, [est] + rest)
  {
    var out := [est] + rest;
    assert out[0] == est && out[1..] == rest;
  }

  /** The plan allocates each region to that region. */
  ghost predicate KeepsRegions(plan: Plan)
  {
    forall r: RegionSummary, c: real :: plan.allocate(r, c).Success? ==> plan.allocate(r, c).value.region == r
  }

  /** Allocations list their regions in the order visited. */
  lemma {:induction false} AllocationsOfRegions(regions: seq<RegionSummary>, covered: real, plan: Plan,
                                                out: seq<SiteEstimate>)
    requires AllocationsOf(regions, covered, plan, out)
    requires KeepsRegions(plan)
    ensures RegionsOf(out) == regions
    decreases |regions|
  {
    if |regions| > 0 {
      AllocationsOfRegions(regions[1..], covered + PopulationOf(regions[0]), plan, out[1..]);
      assert RegionsOf(out) == [out[0].sites.region] + RegionsOf(out[1..]);
    }
  }

  /** The population covered before region `i` is that covered before
      region `i - 1` of the rest, once the first region's is added. */
  lemma CoveredAtShift(regions: seq<RegionSummary>, covered: real, i: nat)
    requires 0 < i <= |regions|
    ensures CoveredAt(regions, covered, i) == CoveredAt(regions[1..], covered + PopulationOf(regions[0]), i - 1)
  {
    assert regions[..i][1..] == regions[1..][..i - 1];
  }

  /** The draws used before record `i` are the first record's and those used
      before record `i - 1` of the rest. */
  lemma DrawsUsedShift(out: seq<SiteEstimate>, i: nat)
    requires 0 < i <= |out|
    ensures DrawsUsed(out[..i]) == NonNeg(out[0].sites.sitesTotal) + DrawsUsed(out[1..][..i - 1])
  {
    assert out[..i][1..] == out[1..][..i - 1];
  }

  lemma AllocatedAtCongruent(r: RegionSummary, covered: real, plan: Plan, e: SiteEstimate, covered': real)
    requires AllocatedAt(r, covered, plan, e) && covered' == covered
    ensures AllocatedAt(r, covered', plan, e)
  {
  }

  lemma CountedAtCongruent(plan: Plan, next: nat, e: SiteEstimate, next': nat)
    requires CountedAt(plan, next, e) && next' == next
    ensures CountedAt(plan, next', e)
  {
  }

  /** Region `i` is allocated at the population covered by all regions before it. */
  lemma {:induction false} AllocationsOfAt(regions: seq<RegionSummary>, covered: real, plan: Plan,
                                           out: seq<SiteEstimate>, i: nat)
    requires AllocationsOf(regions, covered, plan, out)
    requires i < |regions|
    ensures AllocatedAt(regions[i], CoveredAt(regions, covered, i), plan, out[i])
    decreases i
  {
    if i == 0 {
      assert regions[..0] == [];
      AllocatedAtCongruent(regions[0], covered, plan, out[0], CoveredAt(regions, covered, 0));
    } else {
      var covered' := covered + PopulationOf(regions[0]);
      AllocationsOfAt(regions[1..], covered', plan, out[1..], i - 1);
      CoveredAtShift(regions, covered, i);
      assert out[1..][i - 1] == out[i] && regions[1..][i - 1] == regions[i];
      AllocatedAtCongruent(regions[i], CoveredAt(regions[1..], covered', i - 1), plan, out[i], CoveredAt(regions, covered, i));
    }
  }

  /** Record `i` counts the draws that follow all those of the records before it. */
  lemma {:induction false} CountsOfAt(plan: Plan, next: nat, out: seq<SiteEstimate>, i: nat)
    requires CountsOf(plan, next, out)
    requires i < |out|
    ensures CountedAt(plan, next + DrawsUsed(out[..i]), out[i])
    decreases i
  {
    if i == 0 {
      assert out[..0] == [];
      CountedAtCongruent(plan, next, out[0], next + DrawsUsed(out[..0]));
    } else {
      var next' := next + NonNeg(out[0].sites.sitesTotal);
      CountsOfAt(plan, next', out[1..], i - 1);
      DrawsUsedShift(out, i);
      assert out[1..][i - 1] == out[i];
      CountedAtCongruent(plan, next' + DrawsUsed(out[1..][..i - 1]), out[i], next + DrawsUsed(out[..i]));
    }
  }

  /** The loop succeeds when every region has a population, the plan
      allocates every region that has one, and every tally succeeds. */
  lemma {:induction false} AllocateSucceeds(regions: seq<RegionSummary>, covered: real, plan: Plan, next: nat)
    requires forall i :: 0 <= i < |regions| ==> regions[i].population.Some?
    requires forall r: RegionSummary, c: real :: r.population.Some? ==> plan.allocate(r, c).Success?
    requires forall start, count :: plan.tally(start, count).Success?
    ensures Allocate(regions, covered, plan, next).Success?
    decreases |regions|
  {
    if |regions| > 0 {
      var est := EstimateRegion(regions[0], covered, plan, next);
      assert est.Success?;
      AllocateSucceeds(regions[1..], covered + PopulationOf(regions[0]), plan, next + NonNeg(est.value.sites.sitesTotal));
    }
  }

  /** The population to cover: the circle's population times its covered percentage. */
  function CoverageTarget(data: seq<RegionSummary>, coveragePopPercent: real): real
  {
    TotalPopulation(data) as real * (coveragePopPercent / 100.0)
  }

  /** Towers per covered person; only used when the target is positive. */
  function TowersPerPop(towers: int, target: real): real
  {
    if target != 0.0 then towers as real / target else 0.0
  }

  lemma CoverageTargetNonNeg(data: seq<RegionSummary>, coveragePopPercent: real)
    requires TotalPopulation(data) >= 0 && coveragePopPercent >= 0.0
    ensures CoverageTarget(data, coveragePopPercent) >= 0.0
  {
    ProductNonNeg(TotalPopulation(data) as real, coveragePopPercent / 100.0);
  }

  lemma TowersPerPopNonNeg(towers: int, target: real)
    requires towers >= 0 && target >= 0.0
    ensures TowersPerPop(towers, target) >= 0.0
  {
  }

  /** A circle's tally: its towers' draws counted against its backhaul thresholds. */
  function CircleTally(th: map<Tech, real>, draws: nat -> real): (nat, nat) -> Result<Mix, Tech>
  {
    (next: nat, count: nat) => CountBuckets(DrawsFrom(draws, next, count), th)
  }

  /** A circle's allocation rule: its target and towers per person. */
  function CircleRule(target: real, towersPerPop: real): (RegionSummary, real) -> Result<Allocation, SitesError>
  {
    (r: RegionSummary, covered: real) => AllocateRegion(r, covered, target, towersPerPop)
  }

  function CirclePlan(data: seq<RegionSummary>, coveragePopPercent: real, towers: int,
                      th: map<Tech, real>, draws: nat -> real): Plan
  {
    var target := CoverageTarget(data, coveragePopPercent);
    Plan(CircleRule(target, TowersPerPop(towers, target)), CircleTally(th, draws))
  }

  /** The regions in the order the loop visits them: by density, densest first, ties in input order. */
  function VisitOrder(data: seq<RegionSummary>): seq<RegionSummary>
  {
    SortDesc(data, Density)
  }

  /** The estimate of a telecom circle once its backhaul thresholds are known. */
  function EstimateCircle(data: seq<RegionSummary>, coveragePopPercent: real, towers: int,
                          th: map<Tech, real>, draws: nat -> real): (r: Result<seq<SiteEstimate>, SitesError>)
    ensures r.Success? ==> |r.value| == |data|
  {
    Allocate(VisitOrder(data), 0.0, CirclePlan(data, coveragePopPercent, towers, th, draws), 0)
  }

  /** The `site_estimates` of a telecom circle: the circle's covered-population
      percentage and tower count, its backhaul shares and the run's draw
      stream are inputs. The thresholds are those of the shares. */
  function EstimateSites(data: seq<RegionSummary>, coveragePopPercent: real, towers: int,
                         shares: seq<Share>, draws: nat -> real): (r: Result<seq<SiteEstimate>, SitesError>)
    ensures r.Success? ==> |r.value| == |data|
  {
    EstimateCircle(data, coveragePopPercent, towers, EstimateBackhaulType(shares), draws)
  }

  /** The circle's tally counts its towers' draws against its thresholds. */
  lemma CirclePlanTally(data: seq<RegionSummary>, coveragePopPercent: real, towers: int,
                        th: map<Tech, real>, draws: nat -> real, next: nat, count: nat)
    ensures CirclePlan(data, coveragePopPercent, towers, th, draws).tally(next, count)
            == CountBuckets(DrawsFrom(draws, next, count), th)
  {
  }

  /** The circle's rule allocates at its coverage target and towers per person. */
  lemma CirclePlanAllocate(data: seq<RegionSummary>, coveragePopPercent: real, towers: int,
                           th: map<Tech, real>, draws: nat -> real, r: RegionSummary, covered: real)
    ensures var target := CoverageTarget(data, coveragePopPercent);
            CirclePlan(data, coveragePopPercent, towers, th, draws).allocate(r, covered)
            == AllocateRegion(r, covered, target, TowersPerPop(towers, target))
  {
  }

  /** The regions of the records, in record order. */
  function RegionsOf(out: seq<SiteEstimate>): (rs: seq<RegionSummary>)
    ensures |rs| == |out|
    ensures forall i :: 0 <= i < |out| ==> rs[i] == out[i].sites.region
  {
    seq(|out|, i requires 0 <= i < |out| => out[i].sites.region)
  }

  /** The output lists the regions in visiting order: a permutation of the
      input, densest first, with equally dense regions in input order. */
  lemma EstimateCircleOrder(data: seq<RegionSummary>, coveragePopPercent: real, towers: int,
                           th: map<Tech, real>, draws: nat -> real)
    requires EstimateCircle(data, coveragePopPercent, towers, th, draws).Success?
    ensures var rs := RegionsOf(EstimateCircle(data, coveragePopPercent, towers, th, draws).value);
            && rs == VisitOrder(data)
            && multiset(rs) == multiset(data)
            && NonIncreasing(rs, Density)
            && forall v :: Filter(rs, HasKey(Density, v)) == Filter(data, HasKey(Density, v))
  {
    var out := EstimateCircle(data, coveragePopPercent, towers, th, draws).value;
    var order := VisitOrder(data);
    var plan := CirclePlan(data, coveragePopPercent, towers, th, draws);
    AllocateAllocations(order, 0.0, plan, 0);
    forall r: RegionSummary, c: real | plan.allocate(r, c).Success?
      ensures plan.allocate(r, c).value.region == r
    {
      CirclePlanAllocate(data, coveragePopPercent, towers, th, draws, r, c);
    }
    AllocationsOfRegions(order, 0.0, plan, out);
    SortDescPermutes(data, Density);
    forall v
      ensures Filter(order, HasKey(Density, v)) == Filter(data, HasKey(Density, v))
    {
      SortDescStable(data, Density, v);
    }
  }

  /** The plan's tally counts the draws of the given stream against the given thresholds. */
  ghost predicate TallyCounts(plan: Plan, th: map<Tech, real>, draws: nat -> real)
  {
    forall next: nat, count: nat :: plan.tally(next, count) == CountBuckets(DrawsFrom(draws, next, count), th)
  }

  lemma CirclePlanTallies(data: seq<RegionSummary>, coveragePopPercent: real, towers: int,
                          th: map<Tech, real>, draws: nat -> real)
    ensures TallyCounts(CirclePlan(data, coveragePopPercent, towers, th, draws), th, draws)
  {
    forall next: nat, count: nat {
      CirclePlanTally(data, coveragePopPercent, towers, th, draws, next, count);
    }
  }

  /** Under a tally that counts draws against thresholds, record `i` of a
      counted output has one count per tower, and its count of a technology
      is the number of its draws, which start after all those of the records
      before it, that fall in that technology's bucket. */
  lemma CountsBackhaul(plan: Plan, next: nat, out: seq<SiteEstimate>, th: map<Tech, real>,
                       draws: nat -> real, i: nat, start: nat, t: Tech)
    requires CountsOf(plan, next, out)
    requires TallyCounts(plan, th, draws)
    requires i < |out|
    requires start == next + DrawsUsed(out[..i])
    ensures |out[i].backhaul| == NonNeg(out[i].sites.sitesTotal)
    ensures out[i].backhaul[t] == |Filter(DrawsFrom(draws, start, NonNeg(out[i].sites.sitesTotal)), InBucket(th, t))|
  {
    CountsOfAt(plan, next, out, i);
    assert plan.tally(start, NonNeg(out[i].sites.sitesTotal)) == Success(out[i].backhaul);
    CountBucketsPerTech(DrawsFrom(draws, start, NonNeg(out[i].sites.sitesTotal)), th, t);
  }

  /** A circle's estimate succeeds when every region has a population and
      the fiber, copper and wireless thresholds all exist. */
  lemma EstimateCircleSucceeds(data: seq<RegionSummary>, coveragePopPercent: real, towers: int,
                               th: map<Tech, real>, draws: nat -> real)
    requires forall i :: 0 <= i < |data| ==> data[i].population.Some?
    requires Fiber in th && Copper in th && Wireless in th
    ensures EstimateCircle(data, coveragePopPercent, towers, th, draws).Success?
  {
    var order := VisitOrder(data);
    SortDescPermutes(data, Density);
    forall i | 0 <= i < |order|
      ensures order[i].population.Some?
    {
      assert order[i] in multiset(data);
    }
    var plan := CirclePlan(data, coveragePopPercent, towers, th, draws);
    forall r: RegionSummary, c: real | r.population.Some?
      ensures plan.allocate(r, c).Success?
    {
      CirclePlanAllocate(data, coveragePopPercent, towers, th, draws, r, c);
    }
    forall start: nat, count: nat
      ensures plan.tally(start, count).Success?
    {
      CirclePlanTally(data, coveragePopPercent, towers, th, draws, start, count);
      CountBucketsTotal(DrawsFrom(draws, start, count), th);
    }
    AllocateSucceeds(order, 0.0, plan, 0);
  }

  /** A circle's site estimate succeeds when every region has a population
      and the shares name fiber, copper and wireless. */
  lemma EstimateSitesSucceeds(data: seq<RegionSummary>, coveragePopPercent: real, towers: int,
                              shares: seq<Share>, draws: nat -> real)
    requires forall i :: 0 <= i < |data| ==> data[i].population.Some?
    requires HasShare(shares, Fiber) && HasShare(shares, Copper) && HasShare(shares, Wireless)
    ensures EstimateSites(data, coveragePopPercent, towers, shares, draws).Success?
  {
    BackhaulTypeThresholds(shares);
    EstimateCircleSucceeds(data, coveragePopPercent, towers, EstimateBackhaulType(shares), draws);
  }

  /** Every coverage percentage lies in [0, 100]. */
  predicate CoveragesWithin(regions: seq<RegionSummary>)
  {
    forall r :: r in regions ==> 0.0 <= r.coverage3GPercent <= 100.0 && 0.0 <= r.coverage4GPercent <= 100.0
  }

  lemma {:induction false} TotalPopulationNonNeg(regions: seq<RegionSummary>)
    requires NonNegPopulations(regions)
    ensures TotalPopulation(regions) >= 0
    decreases |regions|
  {
    if |regions| > 0 {
      assert regions[0] in regions;
      assert NonNegPopulations(regions[1..]) by {
        forall r | r in regions[1..] ensures r in regions {
        }
      }
      TotalPopulationNonNeg(regions[1..]);
    }
  }

  /** Region `i` of a circle's estimate is allocated at the population
      covered by the regions visited before it. */
  lemma EstimateCircleAllocatedAt(data: seq<RegionSummary>, coveragePopPercent: real, towers: int,
                                 th: map<Tech, real>, draws: nat -> real, i: nat)
    requires EstimateCircle(data, coveragePopPercent, towers, th, draws).Success?
    requires i < |data|
    ensures AllocatedAt(VisitOrder(data)[i], CoveredAt(VisitOrder(data), 0.0, i),
                        CirclePlan(data, coveragePopPercent, towers, th, draws),
                        EstimateCircle(data, coveragePopPercent, towers, th, draws).value[i])
  {
    var plan := CirclePlan(data, coveragePopPercent, towers, th, draws);
    var out := EstimateCircle(data, coveragePopPercent, towers, th, draws).value;
    AllocateAllocations(VisitOrder(data), 0.0, plan, 0);
    AllocationsOfAt(VisitOrder(data), 0.0, plan, out, i);
  }

  /** Greedy allocation: while the population covered by the regions visited
      before it is below the target, a region gets its population times the
      towers per person, rounded; from then on it gets no towers. */
  lemma EstimateCircleAllocation(data: seq<RegionSummary>, coveragePopPercent: real, towers: int,
                                th: map<Tech, real>, draws: nat -> real, i: nat)
    requires EstimateCircle(data, coveragePopPercent, towers, th, draws).Success?
    requires i < |data|
    ensures var out := EstimateCircle(data, coveragePopPercent, towers, th, draws).value;
            var r := VisitOrder(data)[i];
            var target := CoverageTarget(data, coveragePopPercent);
            var tpp := TowersPerPop(towers, target);
            && out[i].sites.region == r
            && (CoveredAt(VisitOrder(data), 0.0, i) < target ==>
                  && r.population.Some?
                  && out[i].sites.sitesTotal == RegionTowers(r.population.value, tpp)
                  && out[i].sites.sitesKm2 == RegionTowersKm2(r.populationKm2, tpp))
            && (CoveredAt(VisitOrder(data), 0.0, i) >= target ==>
                  && out[i].sites.sitesTotal == 0
                  && out[i].sites.sitesKm2 == 0.0)
            && out[i].sites.sites3G == SitesAtCoverage(out[i].sites.sitesTotal, r.coverage3GPercent)
            && out[i].sites.sites4G == SitesAtCoverage(out[i].sites.sitesTotal, r.coverage4GPercent)
  {
    var target := CoverageTarget(data, coveragePopPercent);
    var r := VisitOrder(data)[i];
    var covered := CoveredAt(VisitOrder(data), 0.0, i);
    EstimateCircleAllocatedAt(data, coveragePopPercent, towers, th, draws, i);
    CirclePlanAllocate(data, coveragePopPercent, towers, th, draws, r, covered);
    AllocateRegionTowers(r, covered, target, TowersPerPop(towers, target));
  }

  /** Once the covered population reaches the target, no later region gets
      towers: neither sites in total, nor per km2, nor 3G or 4G sites. */
  lemma EstimateCircleCutoff(data: seq<RegionSummary>, coveragePopPercent: real, towers: int,
                            th: map<Tech, real>, draws: nat -> real, i: nat, j: nat)
    requires EstimateCircle(data, coveragePopPercent, towers, th, draws).Success?
    requires NonNegPopulations(data)
    requires i <= j < |data|
    requires CoveredAt(VisitOrder(data), 0.0, i) >= CoverageTarget(data, coveragePopPercent)
    ensures var a := EstimateCircle(data, coveragePopPercent, towers, th, draws).value[j].sites;
            a.sitesTotal == 0 && a.sitesKm2 == 0.0 && a.sites3G == 0 && a.sites4G == 0
  {
    var order := VisitOrder(data);
    SortDescPermutes(data, Density);
    assert NonNegPopulations(order) by {
      forall r | r in order ensures r in data {
        assert r in multiset(order);
      }
    }
    CoveredAtMonotone(order, 0.0, i, j);
    EstimateCircleAllocation(data, coveragePopPercent, towers, th, draws, j);
    NoSitesAtCoverage(order[j].coverage3GPercent);
    NoSitesAtCoverage(order[j].coverage4GPercent);
  }

  /** With non-negative populations, tower count and covered percentage, and
      coverage percentages in [0, 100], every region's 3G and 4G sites lie
      between none and all of its towers. */
  lemma EstimateCircleBounds(data: seq<RegionSummary>, coveragePopPercent: real, towers: int,
                            th: map<Tech, real>, draws: nat -> real, i: nat)
    requires EstimateCircle(data, coveragePopPercent, towers, th, draws).Success?
    requires NonNegPopulations(data) && CoveragesWithin(data)
    requires towers >= 0 && coveragePopPercent >= 0.0
    requires i < |data|
    ensures var a := EstimateCircle(data, coveragePopPercent, towers, th, draws).value[i].sites;
            && 0 <= a.sites3G <= a.sitesTotal
            && 0 <= a.sites4G <= a.sitesTotal
  {
    var order := VisitOrder(data);
    var target := CoverageTarget(data, coveragePopPercent);
    var covered := CoveredAt(order, 0.0, i);
    TotalPopulationNonNeg(data);
    CoverageTargetNonNeg(data, coveragePopPercent);
    TowersPerPopNonNeg(towers, target);
    SortDescPermutes(data, Density);
    assert order[i] in multiset(data);
    EstimateCircleAllocatedAt(data, coveragePopPercent, towers, th, draws, i);
    CirclePlanAllocate(data, coveragePopPercent, towers, th, draws, order[i], covered);
    AllocationBounds(order[i], covered, target, TowersPerPop(towers, target));
  }

  /** A region's count of a backhaul technology is the number of its towers'
      draws that fall in that technology's bucket. */
  lemma EstimateCircleBackhaul(data: seq<RegionSummary>, coveragePopPercent: real, towers: int,
                              th: map<Tech, real>, draws: nat -> real, i: nat, t: Tech)
    requires EstimateCircle(data, coveragePopPercent, towers, th, draws).Success?
    requires i < |data|
    ensures var out := EstimateCircle(data, coveragePopPercent, towers, th, draws).value;
            && |out[i].backhaul| == NonNeg(out[i].sites.sitesTotal)
            && out[i].backhaul[t] ==
               |Filter(DrawsFrom(draws, DrawsUsed(out[..i]), NonNeg(out[i].sites.sitesTotal)),
                       InBucket(th, t))|
  {
    var plan := CirclePlan(data, coveragePopPercent, towers, th, draws);
    var out := EstimateCircle(data, coveragePopPercent, towers, th, draws).value;
    AllocateCounts(VisitOrder(data), 0.0, plan, 0);
    CirclePlanTallies(data, coveragePopPercent, towers, th, draws);
    CountsBackhaul(plan, 0, out, th, draws, i, DrawsUsed(out[..i]), t);
  }
}
