/** Backhaul technology mix of towers: the GSMA share table filtered to one
    region and year, its conversion into cumulative thresholds, and the
    assignment of each tower to one technology by a uniform draw. */
module Backhaul {
  import opened Wrappers
  import opened Numeric
  import opened Text
  import opened Seqs

  datatype Tech = Fiber | Copper | Wireless | Satellite

  /** The order in which technologies are preferred and thresholds accumulate. */
  const Preference: seq<Tech> := [Fiber, Copper, Wireless, Satellite]

  function Rank(t: Tech): nat
  {
    match t
    case Fiber => 0
    case Copper => 1
    case Wireless => 2
    case Satellite => 3
  }

  /** The lower-case name used as the threshold key. */
  function Name(t: Tech): string
  {
    match t
    case Fiber => "fiber"
    case Copper => "copper"
    case Wireless => "wireless"
    case Satellite => "satellite"
  }

  /** A row of the GSMA backhaul table. */
  datatype GsmaRow = GsmaRow(region: string, year: int, technology: string, value: real)

  /** One technology's share of towers, in whole percent. */
  datatype Share = Share(tech: string, percentage: int)

  function ForRegionYear(region: string, year: int): GsmaRow -> bool
  {
    (row: GsmaRow) => row.region == region && row.year == year
  }

  /** The share a row contributes; the percentage is truncated like `int(...)`. */
  function ToShare(row: GsmaRow): Share
  {
    Share(row.technology, Trunc(row.value))
  }

  /** A share is converted from some row of the region and year. */
  predicate FromRow(share: Share, rows: seq<GsmaRow>, region: string, year: int)
  {
    exists j :: 0 <= j < |rows| && rows[j].region == region && rows[j].year == year
                && share == ToShare(rows[j])
  }

  /** Every share is converted from some row of the region and year. */
  predicate FromRows(shares: seq<Share>, rows: seq<GsmaRow>, region: string, year: int)
  {
    forall i :: 0 <= i < |shares| ==> FromRow(shares[i], rows, region, year)
  }

  /** Shares converted from the rows after the first are converted from the
      rows, and so is the first row's share when it is of the region and year. */
  lemma FromRowsCons(rows: seq<GsmaRow>, region: string, year: int, rest: seq<Share>)
    requires |rows| > 0 && FromRows(rest, rows[1..], region, year)
    ensures FromRows(rest, rows, region, year)
    ensures rows[0].region == region && rows[0].year == year ==>
              FromRows([ToShare(rows[0])] + rest, rows, region, year)
  {
    var tail := rows[1..];
    forall i | 0 <= i < |rest|
      ensures FromRow(rest[i], rows, region, year)
    {
      assert FromRow(rest[i], tail, region, year);
      var j :| 0 <= j < |tail| && tail[j].region == region && tail[j].year == year
               && rest[i] == ToShare(tail[j]);
      assert tail[j] == rows[j + 1];
    }
    if rows[0].region == region && rows[0].year == year {
      var out := [ToShare(rows[0])] + rest;
      forall i | 0 <= i < |out|
        ensures FromRow(out[i], rows, region, year)
      {
        if i == 0 {
          assert out[0] == ToShare(rows[0]);
        } else {
          assert out[i] == rest[i - 1];
        }
      }
    }
  }

  /** The shares of one region and year, in table order. */
  function EstimateBackhaul(rows: seq<GsmaRow>, region: string, year: int): (r: seq<Share>)
    ensures |r| == |Filter(rows, ForRegionYear(region, year))|
    ensures FromRows(r, rows, region, year)
  {
    if |rows| == 0 then []
    else
      var rest := EstimateBackhaul(rows[1..], region, year);
      FromRowsCons(rows, region, year, rest);
      if rows[0].region == region && rows[0].year == year then [ToShare(rows[0])] + rest
      else rest
  }

  /** Converting each selected row: the shares are the selected rows, converted, in order. */
  lemma {:induction false} EstimateBackhaulIsFilterMap(rows: seq<GsmaRow>, region: string, year: int)
    ensures var sel := Filter(rows, ForRegionYear(region, year));
            forall i :: 0 <= i < |sel| ==> EstimateBackhaul(rows, region, year)[i] == ToShare(sel[i])
  {
    if |rows| > 0 {
      var p := ForRegionYear(region, year);
      EstimateBackhaulIsFilterMap(rows[1..], region, year);
      assert rows == [rows[0]] + rows[1..];
      FilterCons(rows[0], rows[1..], p);
    }
  }

  /** The technology a name denotes once lower-cased, if any. */
  function TechOf(name: string): (r: Option<Tech>)
    ensures r.Some? ==> Lower(name) == Name(r.value)
  {
    var n := Lower(name);
    if n == "fiber" then Some(Fiber)
    else if n == "copper" then Some(Copper)
    else if n == "wireless" then Some(Wireless)
    else if n == "satellite" then Some(Satellite)
    else None
  }

  /** A name denotes `t` exactly when it lower-cases to the name of `t`:
      the comparison `tech == item['tech'].lower()` of the inner loop. */
  lemma TechOfMatchesLower(name: string, t: Tech)
    ensures TechOf(name) == Some(t) <==> Lower(name) == Name(t)
  {
  }

  /** A share as the inner loop compares it: the technology its name denotes
      and its percentage. */
  datatype Entry = Entry(tech: Option<Tech>, percentage: int)

  function Classify(shares: seq<Share>): (es: seq<Entry>)
    ensures |es| == |shares|
    ensures forall i :: 0 <= i < |shares| ==>
              es[i] == Entry(TechOf(shares[i].tech), shares[i].percentage)
  {
    seq(|shares|, i requires 0 <= i < |shares| => Entry(TechOf(shares[i].tech), shares[i].percentage))
  }

  /** Whether some share's lower-cased technology is the name of `t`. */
  predicate HasShare(shares: seq<Share>, t: Tech)
  {
    exists i :: 0 <= i < |shares| && Lower(shares[i].tech) == Name(t)
  }

  predicate HasEntry(es: seq<Entry>, t: Tech)
  {
    exists i :: 0 <= i < |es| && es[i].tech == Some(t)
  }

  /** Classifying keeps track of which technologies occur. */
  lemma ClassifyHasEntry(shares: seq<Share>, t: Tech)
    ensures HasEntry(Classify(shares), t) <==> HasShare(shares, t)
  {
    var es := Classify(shares);
    if HasEntry(es, t) {
      var i :| 0 <= i < |es| && es[i].tech == Some(t);
      TechOfMatchesLower(shares[i].tech, t);
    }
    if HasShare(shares, t) {
      var i :| 0 <= i < |shares| && Lower(shares[i].tech) == Name(t);
      TechOfMatchesLower(shares[i].tech, t);
      assert es[i].tech == Some(t);
    }
  }

  /** The total percentage of the entries denoting `t`. */
  function PercentOf(es: seq<Entry>, t: Tech): int
  {
    if |es| == 0 then 0
    else (if es[0].tech == Some(t) then es[0].percentage else 0) + PercentOf(es[1..], t)
  }

  /** Some entry denotes `t` exactly when the first does or one of the rest does. */
  lemma HasEntryCons(es: seq<Entry>, t: Tech)
    requires |es| > 0
    ensures HasEntry(es, t) <==> es[0].tech == Some(t) || HasEntry(es[1..], t)
  {
    if HasEntry(es, t) && es[0].tech != Some(t) {
      var i :| 0 <= i < |es| && es[i].tech == Some(t);
      assert es[i] == es[1..][i - 1];
    }
    if HasEntry(es[1..], t) {
      var i :| 0 <= i < |es| - 1 && es[1..][i].tech == Some(t);
      assert es[1..][i] == es[i + 1];
    }
  }

  lemma {:induction false} PercentOfAbsent(es: seq<Entry>, t: Tech)
    requires !HasEntry(es, t)
    ensures PercentOf(es, t) == 0
  {
    if |es| > 0 {
      HasEntryCons(es, t);
      PercentOfAbsent(es[1..], t);
    }
  }

  /** The total percentage of the first `n` technologies in preference order. */
  function PercentUpTo(es: seq<Entry>, n: nat): int
    requires n <= |Preference|
  {
    if n == 0 then 0 else PercentUpTo(es, n - 1) + PercentOf(es, Preference[n - 1])
  }

  /** The threshold for a running total of percentages: Python's true division by 100. */
  function Threshold(percent: int): real
  {
    percent as real / 100.0
  }

  /** One pass over the shares for technology `t`: every matching share
      overwrites the threshold of `t` with the running total. */
  function MatchPass(t: Tech, es: seq<Entry>, soFar: int, acc: map<Tech, real>): (map<Tech, real>, int)
  {
    if |es| == 0 then (acc, soFar)
    else if es[0].tech == Some(t) then
      var perc := es[0].percentage;
      MatchPass(t, es[1..], soFar + perc, acc[t := Threshold(perc + soFar)])
    else MatchPass(t, es[1..], soFar, acc)
  }

  /** The outer loop over technologies in preference order. */
  function PreferencePass(prefs: seq<Tech>, es: seq<Entry>, soFar: int, acc: map<Tech, real>): map<Tech, real>
  {
    if |prefs| == 0 then acc
    else
      var (acc', soFar') := MatchPass(prefs[0], es, soFar, acc);
      PreferencePass(prefs[1..], es, soFar', acc')
  }

  /** Cumulative thresholds, one per technology present in the shares. */
  function EstimateBackhaulType(shares: seq<Share>): map<Tech, real>
  {
    PreferencePass(Preference, Classify(shares), 0, map[])
  }

  /** A pass adds the percentage of every entry denoting `t` to the running total. */
  lemma {:induction false} MatchPassTotal(t: Tech, es: seq<Entry>, soFar: int, acc: map<Tech, real>)
    ensures MatchPass(t, es, soFar, acc).1 == soFar + PercentOf(es, t)
  {
    if |es| > 0 {
      if es[0].tech == Some(t) {
        var perc := es[0].percentage;
        MatchPassTotal(t, es[1..], soFar + perc, acc[t := Threshold(perc + soFar)]);
      } else {
        MatchPassTotal(t, es[1..], soFar, acc);
      }
    }
  }

  /** A pass sets the threshold of `t` to the running total after all of its
      entries, and leaves the map unchanged when `t` has none. */
  lemma {:induction false} MatchPassResult(t: Tech, es: seq<Entry>, soFar: int, acc: map<Tech, real>)
    ensures MatchPass(t, es, soFar, acc).1 == soFar + PercentOf(es, t)
    ensures MatchPass(t, es, soFar, acc).0
            == if HasEntry(es, t) then acc[t := Threshold(soFar + PercentOf(es, t))] else acc
  {
    MatchPassTotal(t, es, soFar, acc);
    if |es| > 0 {
      var rest := es[1..];
      HasEntryCons(es, t);
      if es[0].tech == Some(t) {
        var perc := es[0].percentage;
        MatchPassResult(t, rest, soFar + perc, acc[t := Threshold(perc + soFar)]);
        if !HasEntry(rest, t) {
          PercentOfAbsent(rest, t);
        }
      } else {
        MatchPassResult(t, rest, soFar, acc);
      }
    }
  }

  /** The outer loop runs one pass per technology, in preference order. */
  lemma PreferencePassSteps(es: seq<Entry>)
    ensures var (a1, s1) := MatchPass(Fiber, es, 0, map[]);
            var (a2, s2) := MatchPass(Copper, es, s1, a1);
            var (a3, s3) := MatchPass(Wireless, es, s2, a2);
            PreferencePass(Preference, es, 0, map[]) == MatchPass(Satellite, es, s3, a3).0
  {
    var p := Preference;
    var (a1, s1) := MatchPass(Fiber, es, 0, map[]);
    var (a2, s2) := MatchPass(Copper, es, s1, a1);
    var (a3, s3) := MatchPass(Wireless, es, s2, a2);
    var (a4, s4) := MatchPass(Satellite, es, s3, a3);
    assert p[1..] == [Copper, Wireless, Satellite];
    assert p[1..][1..] == [Wireless, Satellite];
    assert p[1..][1..][1..] == [Satellite];
    assert p[1..][1..][1..][1..] == [];
    assert PreferencePass(p[1..][1..][1..], es, s3, a3) == PreferencePass([], es, s4, a4);
    assert PreferencePass(p[1..][1..], es, s2, a2) == PreferencePass(p[1..][1..][1..], es, s3, a3);
    assert PreferencePass(p[1..], es, s1, a1) == PreferencePass(p[1..][1..], es, s2, a2);
    assert PreferencePass(p, es, 0, map[]) == PreferencePass(p[1..], es, s1, a1);
  }

  /** On entries: a technology gets a threshold exactly when some entry
      denotes it, and the threshold is the percentage of it and all
      earlier-preferred technologies, over 100. */
  lemma EntryThresholds(es: seq<Entry>)
    ensures var th := PreferencePass(Preference, es, 0, map[]);
            forall t :: (t in th <==> HasEntry(es, t))
                        && (t in th ==> th[t] == Threshold(PercentUpTo(es, Rank(t) + 1)))
  {
    PreferencePassSteps(es);
    MatchPassResult(Fiber, es, 0, map[]);
    var (a1, s1) := MatchPass(Fiber, es, 0, map[]);
    MatchPassResult(Copper, es, s1, a1);
    var (a2, s2) := MatchPass(Copper, es, s1, a1);
    MatchPassResult(Wireless, es, s2, a2);
    var (a3, s3) := MatchPass(Wireless, es, s2, a2);
    MatchPassResult(Satellite, es, s3, a3);
    var a4 := MatchPass(Satellite, es, s3, a3).0;
    assert s1 == PercentUpTo(es, 1);
    assert s2 == PercentUpTo(es, 2);
    assert s3 == PercentUpTo(es, 3);
    forall t
      ensures (t in a4 <==> HasEntry(es, t))
      ensures t in a4 ==> a4[t] == Threshold(PercentUpTo(es, Rank(t) + 1))
    {
      match t
      case Fiber =>
      case Copper =>
      case Wireless =>
      case Satellite =>
    }
  }

  /** A technology gets a threshold exactly when some share names it
      (case-insensitively), and the threshold is the percentage of that
      technology and all earlier-preferred ones, over 100. */
  lemma BackhaulTypeThresholds(shares: seq<Share>)
    ensures var th := EstimateBackhaulType(shares);
            forall t :: (t in th <==> HasShare(shares, t))
                        && (t in th ==> th[t] == Threshold(PercentUpTo(Classify(shares), Rank(t) + 1)))
  {
    EntryThresholds(Classify(shares));
    forall t
      ensures HasEntry(Classify(shares), t) <==> HasShare(shares, t)
    {
      ClassifyHasEntry(shares, t);
    }
  }

  /** With non-negative percentages the thresholds never decrease along the
      preference order. */
  lemma BackhaulTypeMonotone(shares: seq<Share>, t: Tech, u: Tech)
    requires forall i :: 0 <= i < |shares| ==> shares[i].percentage >= 0
    requires Rank(t) <= Rank(u)
    requires t in EstimateBackhaulType(shares) && u in EstimateBackhaulType(shares)
    ensures EstimateBackhaulType(shares)[t] <= EstimateBackhaulType(shares)[u]
  {
    var es := Classify(shares);
    BackhaulTypeThresholds(shares);
    forall v | v in Preference
      ensures PercentOf(es, v) >= 0
    {
      PercentOfNonNegative(es, v);
    }
    PercentUpToMonotone(es, Rank(t) + 1, Rank(u) + 1);
    assert Threshold(PercentUpTo(es, Rank(t) + 1)) <= Threshold(PercentUpTo(es, Rank(u) + 1));
  }

  lemma {:induction false} PercentOfNonNegative(es: seq<Entry>, t: Tech)
    requires forall i :: 0 <= i < |es| ==> es[i].percentage >= 0
    ensures PercentOf(es, t) >= 0
  {
    if |es| > 0 {
      PercentOfNonNegative(es[1..], t);
    }
  }

  lemma {:induction false} PercentUpToMonotone(es: seq<Entry>, m: nat, n: nat)
    requires m <= n <= |Preference|
    requires forall v :: v in Preference ==> PercentOf(es, v) >= 0
    ensures PercentUpTo(es, m) <= PercentUpTo(es, n)
    decreases n
  {
    if m < n {
      PercentUpToMonotone(es, m, n - 1);
      assert Preference[n - 1] in Preference;
    }
  }

  /** The technology a tower with draw `num` gets, as the source's if/elif
      chain decides it. A threshold is read only when the chain reaches it,
      and a missing one raises KeyError, reported here as the missing
      technology. The satellite threshold is never read. */
  function Bucket(num: real, th: map<Tech, real>): Result<Tech, Tech>
  {
    if Fiber !in th then Failure(Fiber)
    else if num <= th[Fiber] then Success(Fiber)
    else if Copper !in th then Failure(Copper)
    else if th[Fiber] < num <= th[Copper] then Success(Copper)
    else if Wireless !in th then Failure(Wireless)
    else if th[Copper] < num <= th[Wireless] then Success(Wireless)
    else if th[Wireless] < num then Success(Satellite)
    else assert false; Failure(Satellite)
  }

  /** A draw is assigned exactly when every threshold the chain reads for it
      exists: fiber always, copper above fiber, wireless above copper. */
  lemma BucketSucceeds(num: real, th: map<Tech, real>)
    ensures Bucket(num, th).Success? <==>
              Fiber in th && (num <= th[Fiber] || (Copper in th && (num <= th[Copper] || Wireless in th)))
  {
  }

  /** With thresholds in preference order, each technology owns the interval
      from the previous threshold (exclusive) to its own (inclusive), and
      satellite owns everything above the wireless threshold. */
  lemma BucketIsInterval(num: real, th: map<Tech, real>, t: Tech)
    requires Fiber in th && Copper in th && Wireless in th
    requires th[Fiber] <= th[Copper] <= th[Wireless]
    ensures Bucket(num, th) == Success(t) <==>
              match t
              case Fiber => num <= th[Fiber]
              case Copper => th[Fiber] < num <= th[Copper]
              case Wireless => th[Copper] < num <= th[Wireless]
              case Satellite => th[Wireless] < num
  {
  }

  /** The satellite threshold plays no part in the assignment. */
  lemma BucketIgnoresSatellite(num: real, th: map<Tech, real>)
    ensures Bucket(num, th) == Bucket(num, th - {Satellite})
  {
  }

  /** Tower counts per backhaul technology: each tower contributes one
      occurrence of its technology. */
  type Mix = multiset<Tech>

  function InBucket(th: map<Tech, real>, t: Tech): real -> bool
  {
    num => Bucket(num, th) == Success(t)
  }

  /** Assigns the towers of one region, one draw each, in draw order; the
      first draw that reaches a missing threshold aborts the count. */
  function CountBuckets(draws: seq<real>, th: map<Tech, real>): (r: Result<Mix, Tech>)
    ensures r.Success? ==> |r.value| == |draws|
  {
    if |draws| == 0 then Success(multiset{})
    else
      match Bucket(draws[0], th)
      case Failure(k) => Failure(k)
      case Success(t) =>
        match CountBuckets(draws[1..], th)
        case Failure(k) => Failure(k)
        case Success(m) => Success(m + multiset{t})
  }

  /** Each technology's count is the number of draws that fall in its bucket. */
  lemma {:induction false} CountBucketsPerTech(draws: seq<real>, th: map<Tech, real>, t: Tech)
    requires CountBuckets(draws, th).Success?
    ensures CountBuckets(draws, th).value[t] == |Filter(draws, InBucket(th, t))|
  {
    if |draws| > 0 {
      var rest := draws[1..];
      assert forall i :: 0 <= i < |rest| ==> rest[i] == draws[i + 1];
      CountBucketsPerTech(rest, th, t);
      assert draws == [draws[0]] + rest;
      FilterCons(draws[0], rest, InBucket(th, t));
    }
  }

  /** Counting succeeds when the first draw is assigned and the rest are counted. */
  lemma CountBucketsStep(draws: seq<real>, th: map<Tech, real>)
    requires |draws| > 0
    ensures CountBuckets(draws, th).Success? <==>
              Bucket(draws[0], th).Success? && CountBuckets(draws[1..], th).Success?
  {
  }

  /** Every draw is assigned when the first one and all of the rest are. */
  lemma AllAssignedStep(draws: seq<real>, th: map<Tech, real>)
    requires |draws| > 0
    ensures (forall i :: 0 <= i < |draws| ==> Bucket(draws[i], th).Success?) <==>
              Bucket(draws[0], th).Success? && forall i :: 0 <= i < |draws| - 1 ==> Bucket(draws[1..][i], th).Success?
  {
    if Bucket(draws[0], th).Success? && forall i :: 0 <= i < |draws| - 1 ==> Bucket(draws[1..][i], th).Success? {
      forall i | 0 <= i < |draws|
        ensures Bucket(draws[i], th).Success?
      {
        if i > 0 {
          assert draws[i] == draws[1..][i - 1];
        }
      }
    }
  }

  /** Counting fails exactly when some draw falls in no bucket it can read. */
  lemma {:induction false} CountBucketsSucceeds(draws: seq<real>, th: map<Tech, real>)
    ensures CountBuckets(draws, th).Success? <==> forall i :: 0 <= i < |draws| ==> Bucket(draws[i], th).Success?
  {
    if |draws| > 0 {
      CountBucketsStep(draws, th);
      CountBucketsSucceeds(draws[1..], th);
      AllAssignedStep(draws, th);
    }
  }

  /** When fiber, copper and wireless all have thresholds, every draw is
      assigned and the counts partition the towers. */
  lemma CountBucketsTotal(draws: seq<real>, th: map<Tech, real>)
    requires Fiber in th && Copper in th && Wireless in th
    ensures CountBuckets(draws, th).Success?
    ensures |CountBuckets(draws, th).value| == |draws|
  {
    CountBucketsSucceeds(draws, th);
  }
}
