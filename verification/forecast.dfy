/** Mobile subscription and smartphone penetration: the historical records
    of a telecom circle, and their forecasts by growth compounded yearly and
    capped at a ceiling. */
module Forecast {
  import opened Wrappers
  import opened Numeric
  import opened Seqs
  import opened StableSort
  import opened Text

  /** The telecom circle's parameters the forecasts read. */
  datatype TelecomCircle = TelecomCircle(
    tcCode: string,
    category: string,
    iso3: string,
    cluster: string,
    subsGrowth: real,     // yearly subscription growth, in percent
    spGrowth: real)       // yearly smartphone growth, in percent

  /** One row of the subscription table: its circle and its value in each
      year column. */
  datatype SubscriptionRow = SubscriptionRow(tcCode: string, penetration: int -> real)

  /** A penetration for one circle and year, historical or forecast. */
  datatype PenetrationRecord = PenetrationRecord(tcCode: string, category: string, penetration: real, year: int)

  const FirstHistoryYear: int := 2008
  const LastHistoryYear: int := 2018
  /** The two circles whose table values count each subscriber twice. */
  const HalvedCircles: set<string> := {"UE", "UW"}
  const SubscriptionCap: real := 95.0
  const SmartphoneCap: real := 90.0

  function ForCircle(tcCode: string): SubscriptionRow -> bool
  {
    (row: SubscriptionRow) => row.tcCode == tcCode
  }

  /** A row's value for the circle in one year: halved for the circles in `HalvedCircles`. */
  function CirclePenetration(c: TelecomCircle, row: SubscriptionRow, year: int): real
  {
    if c.tcCode in HalvedCircles then row.penetration(year) / 2.0 else row.penetration(year)
  }

  function HistoryRecord(c: TelecomCircle, row: SubscriptionRow, year: int): PenetrationRecord
  {
    PenetrationRecord(c.tcCode, c.category, CirclePenetration(c, row, year), year)
  }

  /** The records of one year: one per row of the circle, in table order. */
  function YearRecords(rows: seq<SubscriptionRow>, c: TelecomCircle, year: int): (r: seq<PenetrationRecord>)
    ensures |r| == |Filter(rows, ForCircle(c.tcCode))|
  {
    var m := Filter(rows, ForCircle(c.tcCode));
    seq(|m|, j requires 0 <= j < |m| => HistoryRecord(c, m[j], year))
  }

  /** The records of the years from `from` to the last historical year, year by year. */
  function LoadYears(rows: seq<SubscriptionRow>, c: TelecomCircle, from: int): seq<PenetrationRecord>
    decreases LastHistoryYear + 1 - from
  {
    if from > LastHistoryYear then []
    else YearRecords(rows, c, from) + LoadYears(rows, c, from + 1)
  }

  /** `load_subscription_data` over the loaded table: for each year from 2008
      to 2018, one record per row of the circle. */
  function LoadSubscriptionData(rows: seq<SubscriptionRow>, c: TelecomCircle): seq<PenetrationRecord>
  {
    LoadYears(rows, c, FirstHistoryYear)
  }

  /** The position of item `k` of block `i` in a sequence of blocks of `n` items each. */
  function BlockAt(i: nat, n: nat, k: nat): nat
  {
    i * n + k
  }

  lemma BlockAtNext(i: nat, n: nat, k: nat)
    requires i > 0
    ensures BlockAt(i, n, k) == n + BlockAt(i - 1, n, k)
  {
    assert i * n == n + (i - 1) * n;
  }

  lemma {:induction false} LoadYearsLength(rows: seq<SubscriptionRow>, c: TelecomCircle, from: int)
    requires from <= LastHistoryYear + 1
    ensures |LoadYears(rows, c, from)| == (LastHistoryYear + 1 - from) * |Filter(rows, ForCircle(c.tcCode))|
    decreases LastHistoryYear + 1 - from
  {
    if from <= LastHistoryYear {
      var m := |Filter(rows, ForCircle(c.tcCode))|;
      var years: nat := LastHistoryYear - from;
      LoadYearsLength(rows, c, from + 1);
      assert (years + 1) * m == m + years * m;
    }
  }

  /** The record of row `j` of the circle in year `y` sits in the block of year `y`. */
  lemma {:induction false} LoadYearsAt(rows: seq<SubscriptionRow>, c: TelecomCircle, from: int, y: int, j: nat)
    requires from <= y <= LastHistoryYear
    requires j < |Filter(rows, ForCircle(c.tcCode))|
    ensures var m := Filter(rows, ForCircle(c.tcCode));
            && BlockAt(y - from, |m|, j) < |LoadYears(rows, c, from)|
            && LoadYears(rows, c, from)[BlockAt(y - from, |m|, j)] == HistoryRecord(c, m[j], y)
    decreases y - from
  {
    var m := Filter(rows, ForCircle(c.tcCode));
    var block := YearRecords(rows, c, from);
    var rest := LoadYears(rows, c, from + 1);
    assert LoadYears(rows, c, from) == block + rest;
    if y > from {
      var next := from + 1;
      LoadYearsAt(rows, c, next, y, j);
      BlockAtNext(y - from, |m|, j);
      assert y - from - 1 == y - next;
    }
  }

  /** Loading yields eleven blocks, one per year from 2008 to 2018, each with
      one record per row of the circle in table order: that row's value,
      halved for UE and UW, tagged with the circle and the year. */
  lemma LoadSubscriptionDataSpec(rows: seq<SubscriptionRow>, c: TelecomCircle, y: int, j: nat)
    requires FirstHistoryYear <= y <= LastHistoryYear
    requires j < |Filter(rows, ForCircle(c.tcCode))|
    ensures var m := Filter(rows, ForCircle(c.tcCode));
            var out := LoadSubscriptionData(rows, c);
            && |out| == 11 * |m|
            && BlockAt(y - FirstHistoryYear, |m|, j) < |out|
            && out[BlockAt(y - FirstHistoryYear, |m|, j)]
               == PenetrationRecord(c.tcCode, c.category,
                                    if c.tcCode in HalvedCircles then m[j].penetration(y) / 2.0 else m[j].penetration(y),
                                    y)
  {
    LoadYearsLength(rows, c, FirstHistoryYear);
    LoadYearsAt(rows, c, FirstHistoryYear, y, j);
  }

  /** The yearly growth factor of a growth rate in percent. */
  function GrowthFactor(growthPercent: real): real
  {
    1.0 + growthPercent / 100.0
  }

  lemma GrowthFactorAtLeastOne(growthPercent: real)
    requires growthPercent >= 0.0
    ensures GrowthFactor(growthPercent) >= 1.0
  {
  }

  /** An amount after one year at the given growth factor. */
  function Grow(x: real, factor: real): real
  {
    x * factor
  }

  /** `x` grown for `k` years. */
  function Compound(x: real, factor: real, k: nat): real
  {
    if k == 0 then x else Grow(Compound(x, factor, k - 1), factor)
  }

  /** Growing `k` times multiplies by the `k`-th power of the factor. */
  lemma {:induction false} CompoundPow(x: real, factor: real, k: nat)
    ensures Compound(x, factor, k) == x * Pow(factor, k)
  {
    if k > 0 {
      CompoundPow(x, factor, k - 1);
      var p := Pow(factor, k - 1);
      assert x * p * factor == x * (factor * p);
    }
  }

  /** `n` yearly values: the first is `first`, each later one the previous
      grown by `factor`; each value is capped at `cap` before the next is
      computed from it. */
  function CappedSeries(first: real, factor: real, cap: real, n: nat): (s: seq<real>)
    ensures |s| == n
    ensures forall k :: 0 <= k < n ==> s[k] <= cap
    decreases n
  {
    if n == 0 then [] else [Min(first, cap)] + CappedSeries(Grow(Min(first, cap), factor), factor, cap, n - 1)
  }

  /** Each value after the first is the previous one grown and capped. */
  lemma {:induction false} CappedSeriesStep(first: real, factor: real, cap: real, n: nat, k: nat)
    requires k + 1 < n
    ensures CappedSeries(first, factor, cap, n)[k + 1] == Min(Grow(CappedSeries(first, factor, cap, n)[k], factor), cap)
    decreases k
  {
    var s := CappedSeries(first, factor, cap, n);
    var next := Grow(Min(first, cap), factor);
    var m: nat := n - 1;
    var rest := CappedSeries(next, factor, cap, m);
    assert s == [Min(first, cap)] + rest;
    if k > 0 {
      var j: nat := k - 1;
      CappedSeriesStep(next, factor, cap, m, j);
      assert s[k] == rest[j] && s[k + 1] == rest[j + 1];
    } else {
      assert rest[0] == Min(next, cap);
    }
  }

  /** Growing by a non-negative factor commutes with capping. */
  lemma GrowMin(a: real, b: real, factor: real)
    requires factor >= 0.0
    ensures Grow(Min(a, b), factor) == Min(Grow(a, factor), Grow(b, factor))
  {
    ProductNonNeg(if a <= b then b - a else a - b, factor);
    assert (b - a) * factor == b * factor - a * factor;
  }

  /** A non-negative amount does not shrink under a factor of at least one. */
  lemma GrowAtLeast(x: real, factor: real)
    requires factor >= 1.0 && x >= 0.0
    ensures Grow(x, factor) >= x
  {
    assert x * factor - x == x * (factor - 1.0);
    ProductNonNeg(x, factor - 1.0);
  }

  /** Closed form for a factor of at least one: the `k`-th value is the first
      value grown `k` times, capped once. */
  lemma {:induction false} CappedSeriesClosedForm(first: real, factor: real, cap: real, n: nat, k: nat)
    requires factor >= 1.0 && cap >= 0.0
    requires k < n
    ensures CappedSeries(first, factor, cap, n)[k] == Min(Compound(first, factor, k), cap)
    decreases k
  {
    if k > 0 {
      var j: nat := k - 1;
      var c := Compound(first, factor, j);
      CappedSeriesClosedForm(first, factor, cap, n, j);
      CappedSeriesStep(first, factor, cap, n, j);
      GrowMin(c, cap, factor);
      GrowAtLeast(cap, factor);
    }
  }

  /** From a non-negative start with a non-negative factor no value is negative. */
  lemma {:induction false} CappedSeriesNonNeg(first: real, factor: real, cap: real, n: nat, k: nat)
    requires factor >= 0.0 && cap >= 0.0 && first >= 0.0
    requires k < n
    ensures CappedSeries(first, factor, cap, n)[k] >= 0.0
    decreases k
  {
    var s := CappedSeries(first, factor, cap, n);
    if k > 0 {
      var j: nat := k - 1;
      CappedSeriesNonNeg(first, factor, cap, n, j);
      CappedSeriesStep(first, factor, cap, n, j);
      ProductNonNeg(s[j], factor);
    } else {
      assert s[0] == Min(first, cap);
    }
  }

  /** With a non-negative start and a factor of at least one the series never
      decreases, and once it reaches the cap it stays there. */
  lemma CappedSeriesMonotone(first: real, factor: real, cap: real, n: nat, k: nat)
    requires factor >= 1.0 && cap >= 0.0 && first >= 0.0
    requires k + 1 < n
    ensures CappedSeries(first, factor, cap, n)[k] <= CappedSeries(first, factor, cap, n)[k + 1]
    ensures CappedSeries(first, factor, cap, n)[k] == cap ==> CappedSeries(first, factor, cap, n)[k + 1] == cap
  {
    var s := CappedSeries(first, factor, cap, n);
    CappedSeriesStep(first, factor, cap, n, k);
    CappedSeriesNonNeg(first, factor, cap, n, k);
    GrowAtLeast(s[k], factor);
  }

  function Year(r: PenetrationRecord): real
  {
    r.year as real
  }

  /** The number of years from `start` to `end`, both included. */
  function YearCount(start: int, end: int): nat
  {
    if end >= start then end - start + 1 else 0
  }

  datatype ForecastError = EmptyHistory

  /** The circle's records of a series of yearly values, the first in year `start`. */
  function YearlyRecords(c: TelecomCircle, start: int, values: seq<real>): (r: seq<PenetrationRecord>)
    ensures |r| == |values|
    ensures forall k :: 0 <= k < |values| ==> r[k] == PenetrationRecord(c.tcCode, c.category, values[k], start + k)
  {
    seq(|values|, k requires 0 <= k < |values| => PenetrationRecord(c.tcCode, c.category, values[k], start + k))
  }

  /** `forecast_linear`: from the most recent historical record, one record
      per year from `start` to `end`; the first year's penetration is the
      latest one grown once, every later one the previous grown again, each
      capped at 95. No history raises (the lookup of the latest record). */
  function ForecastLinear(c: TelecomCircle, history: seq<PenetrationRecord>, start: int, end: int)
    : (r: Result<seq<PenetrationRecord>, ForecastError>)
    ensures r.Failure? <==> |history| == 0
    ensures r.Success? ==> |r.value| == YearCount(start, end)
  {
    if |history| == 0 then Failure(EmptyHistory)
    else
      var latest := SortDesc(history, Year)[0];
      var factor := GrowthFactor(c.subsGrowth);
      var n := YearCount(start, end);
      Success(YearlyRecords(c, start, CappedSeries(Grow(latest.penetration, factor), factor, SubscriptionCap, n)))
  }

  /** One record per year, from `start` to `end` in increasing order, none
      above 95; the first is the latest record's penetration grown once and
      capped, every later one the previous grown and capped. The latest
      record is the first one with the largest year. */
  lemma ForecastLinearSpec(c: TelecomCircle, history: seq<PenetrationRecord>, start: int, end: int, k: nat)
    requires |history| > 0
    requires k < YearCount(start, end)
    ensures var out := ForecastLinear(c, history, start, end).value;
            var latest := SortDesc(history, Year)[0];
            var factor := GrowthFactor(c.subsGrowth);
            && out[k].year == start + k
            && out[k].tcCode == c.tcCode && out[k].category == c.category
            && out[k].penetration <= SubscriptionCap
            && (k == 0 ==> out[k].penetration == Min(Grow(latest.penetration, factor), SubscriptionCap))
            && (k > 0 ==> out[k].penetration == Min(Grow(out[k - 1].penetration, factor), SubscriptionCap))
            && (forall r :: r in history ==> r.year <= latest.year)
            && exists i :: 0 <= i < |history| && history[i] == latest
                           && forall j :: 0 <= j < i ==> history[j].year < latest.year
  {
    var latest := SortDesc(history, Year)[0];
    var factor := GrowthFactor(c.subsGrowth);
    var n := YearCount(start, end);
    var values := CappedSeries(Grow(latest.penetration, factor), factor, SubscriptionCap, n);
    assert ForecastLinear(c, history, start, end).value == YearlyRecords(c, start, values);
    if k > 0 {
      var j: nat := k - 1;
      CappedSeriesStep(Grow(latest.penetration, factor), factor, SubscriptionCap, n, j);
      assert values[k] == Min(Grow(values[j], factor), SubscriptionCap);
    }
    SortDescHead(history, Year);
    forall r | r in history
      ensures r.year <= latest.year
    {
      var i :| 0 <= i < |history| && history[i] == r;
    }
  }

  /** With non-negative growth and latest penetration the forecast never
      decreases, and stays at 95 once it gets there. */
  lemma ForecastLinearMonotone(c: TelecomCircle, history: seq<PenetrationRecord>, start: int, end: int, k: nat)
    requires |history| > 0
    requires c.subsGrowth >= 0.0 && SortDesc(history, Year)[0].penetration >= 0.0
    requires k + 1 < YearCount(start, end)
    ensures var out := ForecastLinear(c, history, start, end).value;
            && out[k].penetration <= out[k + 1].penetration
            && (out[k].penetration == SubscriptionCap ==> out[k + 1].penetration == SubscriptionCap)
  {
    var latest := SortDesc(history, Year)[0];
    var factor := GrowthFactor(c.subsGrowth);
    var n := YearCount(start, end);
    var first := Grow(latest.penetration, factor);
    var values := CappedSeries(first, factor, SubscriptionCap, n);
    assert ForecastLinear(c, history, start, end).value == YearlyRecords(c, start, values);
    GrowthFactorAtLeastOne(c.subsGrowth);
    GrowAtLeast(latest.penetration, factor);
    CappedSeriesMonotone(first, factor, SubscriptionCap, n, k);
  }

  /** One row of the smartphone survey. */
  datatype SurveyRow = SurveyRow(iso3: string, cluster: string, settlement: string, smartphone: real)

  /** A survey value attributed to the circle. */
  datatype SurveyRecord = SurveyRecord(
    tcCode: string, category: string, cluster: string, settlementType: string, penetration: real)

  function SurveyRecordOf(c: TelecomCircle, row: SurveyRow): SurveyRecord
  {
    SurveyRecord(c.tcCode, c.category, row.cluster, row.settlement, row.smartphone)
  }

  function ForIso3(iso3: string): SurveyRow -> bool
  {
    (row: SurveyRow) => row.iso3 == iso3
  }

  function ForCluster(cluster: string): SurveyRow -> bool
  {
    (row: SurveyRow) => row.cluster == cluster
  }

  function RecordsOf(c: TelecomCircle, rows: seq<SurveyRow>): (r: seq<SurveyRecord>)
    ensures |r| == |rows|
    ensures forall i :: 0 <= i < |rows| ==> r[i] == SurveyRecordOf(c, rows[i])
  {
    seq(|rows|, i requires 0 <= i < |rows| => SurveyRecordOf(c, rows[i]))
  }

  /** The rows of the survey that the circle uses: those of its country when
      the survey covers it, otherwise those of its cluster. */
  function SurveyRowsFor(rows: seq<SurveyRow>, c: TelecomCircle): seq<SurveyRow>
  {
    if exists i :: 0 <= i < |rows| && rows[i].iso3 == c.iso3 then Filter(rows, ForIso3(c.iso3))
    else Filter(rows, ForCluster(c.cluster))
  }

  /** `load_smartphone_data` over the loaded survey. */
  function LoadSmartphoneData(rows: seq<SurveyRow>, c: TelecomCircle): seq<SurveyRecord>
  {
    RecordsOf(c, SurveyRowsFor(rows, c))
  }

  /** A surveyed country gets exactly its own rows, at least one; any other
      gets its cluster's rows; either way in survey order. */
  lemma LoadSmartphoneDataSpec(rows: seq<SurveyRow>, c: TelecomCircle)
    ensures var out := LoadSmartphoneData(rows, c);
            var surveyed := exists i :: 0 <= i < |rows| && rows[i].iso3 == c.iso3;
            && (surveyed ==> out == RecordsOf(c, Filter(rows, ForIso3(c.iso3))) && |out| > 0)
            && (!surveyed ==> out == RecordsOf(c, Filter(rows, ForCluster(c.cluster))))
            && forall k :: 0 <= k < |out| ==>
                 out[k].tcCode == c.tcCode && out[k].category == c.category
                 && exists i :: 0 <= i < |rows| && out[k] == SurveyRecordOf(c, rows[i])
                                && (if surveyed then rows[i].iso3 == c.iso3 else rows[i].cluster == c.cluster)
  {
    var surveyed := exists i :: 0 <= i < |rows| && rows[i].iso3 == c.iso3;
    var p := if surveyed then ForIso3(c.iso3) else ForCluster(c.cluster);
    var sel := Filter(rows, p);
    FilterMembers(rows, p);
    if surveyed {
      var i :| 0 <= i < |rows| && rows[i].iso3 == c.iso3;
      assert rows[i] in sel;
    }
    var out := RecordsOf(c, sel);
    assert LoadSmartphoneData(rows, c) == out;
    forall k | 0 <= k < |out|
      ensures out[k].tcCode == c.tcCode && out[k].category == c.category
      ensures exists i :: 0 <= i < |rows| && out[k] == SurveyRecordOf(c, rows[i])
                          && (if surveyed then rows[i].iso3 == c.iso3 else rows[i].cluster == c.cluster)
    {
      var row := sel[k];
      assert out[k] == SurveyRecordOf(c, row) && p(row) && row in rows;
      var i :| 0 <= i < |rows| && rows[i] == row;
    }
  }

  /** A smartphone forecast record: the circle code is the survey
      record's, and the settlement type is lower-cased. */
  datatype SmartphoneForecast = SmartphoneForecast(
    tcCode: string, category: string, settlementType: string, year: int, penetration: real)

  function ForecastOf(c: TelecomCircle, item: SurveyRecord, year: int, penetration: real): SmartphoneForecast
  {
    SmartphoneForecast(item.tcCode, c.category, Lower(item.settlementType), year, penetration)
  }

  /** The forecast of one survey record: a record per year from `start` on,
      starting from the surveyed value and growing yearly, capped at 90. */
  function SmartphoneSeries(c: TelecomCircle, item: SurveyRecord, start: int, n: nat): (r: seq<SmartphoneForecast>)
    ensures |r| == n
  {
    var values := CappedSeries(item.penetration, GrowthFactor(c.spGrowth), SmartphoneCap, n);
    seq(n, k requires 0 <= k < n => ForecastOf(c, item, start + k, values[k]))
  }

  /** `forecast_smartphones_linear`: for each survey record in turn, its
      yearly series from `start` to `end`. */
  function ForecastSmartphonesLinear(data: seq<SurveyRecord>, c: TelecomCircle, start: int, end: int)
    : seq<SmartphoneForecast>
    decreases |data|
  {
    if |data| == 0 then []
    else SmartphoneSeries(c, data[0], start, YearCount(start, end)) + ForecastSmartphonesLinear(data[1..], c, start, end)
  }

  lemma {:induction false} ForecastSmartphonesLength(data: seq<SurveyRecord>, c: TelecomCircle, start: int, end: int)
    ensures |ForecastSmartphonesLinear(data, c, start, end)| == |data| * YearCount(start, end)
    decreases |data|
  {
    if |data| > 0 {
      var n := YearCount(start, end);
      var rest: nat := |data| - 1;
      ForecastSmartphonesLength(data[1..], c, start, end);
      assert (rest + 1) * n == n + rest * n;
    }
  }

  /** The record of survey record `i` in year `start + k` sits in the block of record `i`. */
  lemma {:induction false} ForecastSmartphonesAt(data: seq<SurveyRecord>, c: TelecomCircle, start: int, end: int,
                                                 i: nat, k: nat)
    requires i < |data| && k < YearCount(start, end)
    ensures var n := YearCount(start, end);
            && BlockAt(i, n, k) < |ForecastSmartphonesLinear(data, c, start, end)|
            && ForecastSmartphonesLinear(data, c, start, end)[BlockAt(i, n, k)]
               == SmartphoneSeries(c, data[i], start, n)[k]
    decreases i
  {
    var n := YearCount(start, end);
    var block := SmartphoneSeries(c, data[0], start, n);
    var rest := ForecastSmartphonesLinear(data[1..], c, start, end);
    assert ForecastSmartphonesLinear(data, c, start, end) == block + rest;
    if i > 0 {
      var j: nat := i - 1;
      ForecastSmartphonesAt(data[1..], c, start, end, j, k);
      BlockAtNext(i, n, k);
      assert data[1..][j] == data[i];
    }
  }

  /** One block of records per survey record, in survey order, each with a
      record per year from `start` to `end`: the first year's penetration is
      the surveyed value, every later one the previous grown once, each
      capped at 90. */
  lemma ForecastSmartphonesSpec(data: seq<SurveyRecord>, c: TelecomCircle, start: int, end: int, i: nat, k: nat)
    requires i < |data| && k < YearCount(start, end)
    ensures var n := YearCount(start, end);
            var out := ForecastSmartphonesLinear(data, c, start, end);
            var factor := GrowthFactor(c.spGrowth);
            && |out| == |data| * n
            && BlockAt(i, n, k) < |out|
            && out[BlockAt(i, n, k)].year == start + k
            && out[BlockAt(i, n, k)].tcCode == data[i].tcCode
            && out[BlockAt(i, n, k)].category == c.category
            && out[BlockAt(i, n, k)].settlementType == Lower(data[i].settlementType)
            && out[BlockAt(i, n, k)].penetration <= SmartphoneCap
            && (k == 0 ==> out[BlockAt(i, n, k)].penetration == Min(data[i].penetration, SmartphoneCap))
            && (k > 0 ==> out[BlockAt(i, n, k)].penetration
                          == Min(Grow(out[BlockAt(i, n, k - 1)].penetration, factor), SmartphoneCap))
  {
    var n := YearCount(start, end);
    var factor := GrowthFactor(c.spGrowth);
    var values := CappedSeries(data[i].penetration, factor, SmartphoneCap, n);
    ForecastSmartphonesLength(data, c, start, end);
    ForecastSmartphonesAt(data, c, start, end, i, k);
    if k > 0 {
      var j: nat := k - 1;
      ForecastSmartphonesAt(data, c, start, end, i, j);
      CappedSeriesStep(data[i].penetration, factor, SmartphoneCap, n, j);
      assert values[k] == Min(Grow(values[j], factor), SmartphoneCap);
    }
  }

  /** With non-negative growth and surveyed value each record's forecast
      never decreases, and stays at 90 once it gets there. */
  lemma ForecastSmartphonesMonotone(data: seq<SurveyRecord>, c: TelecomCircle, start: int, end: int, i: nat, k: nat)
    requires i < |data| && k + 1 < YearCount(start, end)
    requires c.spGrowth >= 0.0 && data[i].penetration >= 0.0
    ensures var n := YearCount(start, end);
            var out := ForecastSmartphonesLinear(data, c, start, end);
            && BlockAt(i, n, k + 1) < |out|
            && out[BlockAt(i, n, k)].penetration <= out[BlockAt(i, n, k + 1)].penetration
            && (out[BlockAt(i, n, k)].penetration == SmartphoneCap
                ==> out[BlockAt(i, n, k + 1)].penetration == SmartphoneCap)
  {
    var n := YearCount(start, end);
    ForecastSmartphonesAt(data, c, start, end, i, k);
    ForecastSmartphonesAt(data, c, start, end, i, k + 1);
    GrowthFactorAtLeastOne(c.spGrowth);
    CappedSeriesMonotone(data[i].penetration, GrowthFactor(c.spGrowth), SmartphoneCap, n, k);
  }
}
