/** Core network nodes of a telecom circle: the most populous agglomeration
    of each region, merged with the nodes that already exist; and the
    choice of the brightest settlement cells for regions without a node. */
module Nodes {
  import opened Wrappers
  import opened Seqs
  import opened StableSort

  /** An agglomeration, or an existing node: its region (the level-2 GID),
      its population and its geometry, the latter only carried along. */
  datatype Agglomeration = Agglomeration(gid: string, population: real, site: nat)

  datatype Source = Existing | New

  /** A core node written to the output layer. */
  datatype Node = Node(gid: string, population: real, site: nat, source: Source)

  function Population(a: Agglomeration): real
  {
    a.population
  }

  function Gids(aggs: seq<Agglomeration>): (g: seq<string>)
    ensures |g| == |aggs|
    ensures forall i :: 0 <= i < |aggs| ==> g[i] == aggs[i].gid
  {
    seq(|aggs|, i requires 0 <= i < |aggs| => aggs[i].gid)
  }

  /** The values of `s` not in `seen`, each once, in order of first appearance. */
  function UniqueAfter(s: seq<string>, seen: set<string>): (u: seq<string>)
    ensures forall x :: x in u <==> x in s && x !in seen
    ensures forall i, j :: 0 <= i < j < |u| ==> u[i] != u[j]
    decreases |s|
  {
    if |s| == 0 then []
    else if s[0] in seen then UniqueAfter(s[1..], seen)
    else [s[0]] + UniqueAfter(s[1..], seen + {s[0]})
  }

  /** The regions of the agglomerations, each once, in order of first appearance. */
  function UniqueRegions(aggs: seq<Agglomeration>): (u: seq<string>)
    ensures forall x :: x in u <==> x in Gids(aggs)
    ensures forall i, j :: 0 <= i < j < |u| ==> u[i] != u[j]
  {
    UniqueAfter(Gids(aggs), {})
  }

  /** Position of the first occurrence of `x` in `s`. */
  function FirstIndex(s: seq<string>, x: string): (k: nat)
    requires x in s
    ensures k < |s| && s[k] == x && x !in s[..k]
  {
    if s[0] == x then 0
    else
      assert x in s[1..] by { var i :| 0 <= i < |s| && s[i] == x; assert s[1..][i - 1] == x; }
      var k := 1 + FirstIndex(s[1..], x);
      assert s[..k] == [s[0]] + s[1..][..k - 1];
      k
  }

  lemma FirstIndexTail(s: seq<string>, x: string)
    requires x in s && s[0] != x
    ensures x in s[1..] && FirstIndex(s, x) == 1 + FirstIndex(s[1..], x)
  {
  }

  /** The unique values come in the order of their first appearance. */
  lemma {:induction false} UniqueAfterOrder(s: seq<string>, seen: set<string>, i: nat, j: nat)
    requires i < j < |UniqueAfter(s, seen)|
    ensures FirstIndex(s, UniqueAfter(s, seen)[i]) < FirstIndex(s, UniqueAfter(s, seen)[j])
    decreases |s|
  {
    var u := UniqueAfter(s, seen);
    var x, y := u[i], u[j];
    if s[0] in seen {
      UniqueAfterOrder(s[1..], seen, i, j);
      FirstIndexTail(s, x);
      FirstIndexTail(s, y);
    } else {
      var rest := UniqueAfter(s[1..], seen + {s[0]});
      assert u == [s[0]] + rest;
      assert y == rest[j - 1];
      FirstIndexTail(s, y);
      if i > 0 {
        UniqueAfterOrder(s[1..], seen + {s[0]}, i - 1, j - 1);
        assert x == rest[i - 1];
        FirstIndexTail(s, x);
      }
    }
  }

  /** The regions are listed in the order in which they first appear. */
  lemma UniqueRegionsOrder(aggs: seq<Agglomeration>, i: nat, j: nat)
    requires i < j < |UniqueRegions(aggs)|
    ensures FirstIndex(Gids(aggs), UniqueRegions(aggs)[i]) < FirstIndex(Gids(aggs), UniqueRegions(aggs)[j])
  {
    UniqueAfterOrder(Gids(aggs), {}, i, j);
  }

  function InRegion(gid: string): Agglomeration -> bool
  {
    (a: Agglomeration) => a.gid == gid
  }

  /** The agglomerations of one region, in input order. */
  function RegionAgglomerations(aggs: seq<Agglomeration>, gid: string): (r: seq<Agglomeration>)
    ensures gid in Gids(aggs) ==> |r| > 0
  {
    FilterMembers(aggs, InRegion(gid));
    Filter(aggs, InRegion(gid))
  }

  /** A region's node: its agglomerations sorted by population, most populous first, and the first taken. */
  function RegionalNode(aggs: seq<Agglomeration>, gid: string): Agglomeration
    requires gid in Gids(aggs)
  {
    SortDesc(RegionAgglomerations(aggs, gid), Population)[0]
  }

  /** A region's node is one of its agglomerations with the largest
      population, and the first such one in input order. */
  lemma RegionalNodeIsFirstMax(aggs: seq<Agglomeration>, gid: string)
    requires gid in Gids(aggs)
    ensures var n := RegionalNode(aggs, gid);
            var group := RegionAgglomerations(aggs, gid);
            && n.gid == gid
            && n in aggs
            && (forall a :: a in aggs && a.gid == gid ==> a.population <= n.population)
            && exists i :: 0 <= i < |group| && group[i] == n
                           && forall j :: 0 <= j < i ==> group[j].population < n.population
  {
    var group := RegionAgglomerations(aggs, gid);
    SortDescHead(group, Population);
    FilterMembers(aggs, InRegion(gid));
    forall a | a in aggs && a.gid == gid
      ensures a.population <= RegionalNode(aggs, gid).population
    {
      var k :| 0 <= k < |aggs| && aggs[k] == a;
      assert a in group;
    }
  }

  /** The interim nodes: one per region, in order of first appearance. */
  function RegionalNodes(aggs: seq<Agglomeration>): (r: seq<Agglomeration>)
    ensures |r| == |UniqueRegions(aggs)|
  {
    var u := UniqueRegions(aggs);
    seq(|u|, k requires 0 <= k < |u| => RegionalNode(aggs, u[k]))
  }

  function Tag(a: Agglomeration, source: Source): Node
  {
    Node(a.gid, a.population, a.site, source)
  }

  function TagAll(aggs: seq<Agglomeration>, source: Source): (r: seq<Node>)
    ensures |r| == |aggs|
    ensures forall i :: 0 <= i < |aggs| ==> r[i] == Tag(aggs[i], source)
  {
    seq(|aggs|, i requires 0 <= i < |aggs| => Tag(aggs[i], source))
  }

  /** The interim nodes, in order, of the regions no existing node serves, tagged new. */
  function NewNodes(interim: seq<Agglomeration>, seen: set<string>): (r: seq<Node>)
    decreases |interim|
  {
    if |interim| == 0 then []
    else (if interim[0].gid in seen then [] else [Tag(interim[0], New)]) + NewNodes(interim[1..], seen)
  }

  /** The set of regions the existing nodes serve. */
  function ExistingRegions(existing: seq<Agglomeration>): (seen: set<string>)
    ensures forall g :: g in seen <==> g in Gids(existing)
  {
    set i | 0 <= i < |existing| :: existing[i].gid
  }

  /** The core nodes layer and the nodes it adds to the existing ones. */
  datatype NodesResult = NodesResult(output: seq<Node>, newNodes: seq<Node>)

  /** `find_regional_nodes`, given the agglomerations and, when that layer
      exists, the existing core nodes. With existing nodes the output is
      every existing node followed by the new nodes; otherwise every
      regional node is new. */
  function FindRegionalNodes(aggs: seq<Agglomeration>, existing: Option<seq<Agglomeration>>): (r: NodesResult)
  {
    var interim := RegionalNodes(aggs);
    match existing
    case Some(ex) =>
      var added := NewNodes(interim, ExistingRegions(ex));
      NodesResult(TagAll(ex, Existing) + added, added)
    case None => NodesResult(TagAll(interim, New), [])
  }

  /** The new nodes are exactly the interim nodes of the regions without an
      existing node, in order, tagged new. */
  lemma {:induction false} NewNodesAre(interim: seq<Agglomeration>, seen: set<string>)
    ensures NewNodes(interim, seen) == TagAll(Filter(interim, NotIn(seen)), New)
    decreases |interim|
  {
    if |interim| > 0 {
      var p := NotIn(seen);
      var head := interim[0];
      var tail := interim[1..];
      var rest := Filter(tail, p);
      NewNodesAre(tail, seen);
      assert interim == [head] + tail;
      FilterCons(head, tail, p);
      if p(head) {
        TagAllCons(head, rest, New);
      }
    }
  }

  lemma TagAllCons(a: Agglomeration, s: seq<Agglomeration>, source: Source)
    ensures TagAll([a] + s, source) == [Tag(a, source)] + TagAll(s, source)
  {
  }

  function NotIn(seen: set<string>): Agglomeration -> bool
  {
    (a: Agglomeration) => a.gid !in seen
  }

  /** The merged layer lists the existing nodes, tagged existing, then the
      regional nodes of the regions they do not serve, in order of first
      appearance, tagged new. */
  lemma FindRegionalNodesMerge(aggs: seq<Agglomeration>, ex: seq<Agglomeration>)
    ensures var r := FindRegionalNodes(aggs, Some(ex));
            && r.output == TagAll(ex, Existing) + r.newNodes
            && r.newNodes == TagAll(Filter(RegionalNodes(aggs), NotIn(ExistingRegions(ex))), New)
  {
    NewNodesAre(RegionalNodes(aggs), ExistingRegions(ex));
  }

  /** No new node serves a region an existing node serves, and no region gets
      two new nodes. */
  lemma NewNodesDistinct(aggs: seq<Agglomeration>, ex: seq<Agglomeration>)
    ensures var added := FindRegionalNodes(aggs, Some(ex)).newNodes;
            && (forall n :: n in added ==> n.gid !in ExistingRegions(ex))
            && (forall i, j :: 0 <= i < j < |added| ==> added[i].gid != added[j].gid)
  {
    var interim := RegionalNodes(aggs);
    var seen := ExistingRegions(ex);
    var kept := Filter(interim, NotIn(seen));
    var added := FindRegionalNodes(aggs, Some(ex)).newNodes;
    FindRegionalNodesMerge(aggs, ex);
    assert forall m :: 0 <= m < |kept| ==> NotIn(seen)(kept[m]);
    FilterIsSubsequence(interim, NotIn(seen));
    RegionalNodesRegions(aggs);
    forall i, j | 0 <= i < j < |added|
      ensures added[i].gid != added[j].gid
    {
      SubsequenceDistinct(kept, interim, i, j);
    }
  }

  /** Every region of the agglomerations is served by a node of the merged layer. */
  lemma FindRegionalNodesCovers(aggs: seq<Agglomeration>, ex: seq<Agglomeration>, g: string)
    requires g in Gids(aggs)
    ensures exists n :: n in FindRegionalNodes(aggs, Some(ex)).output && n.gid == g
  {
    var interim := RegionalNodes(aggs);
    var seen := ExistingRegions(ex);
    var kept := Filter(interim, NotIn(seen));
    var out := FindRegionalNodes(aggs, Some(ex)).output;
    FindRegionalNodesMerge(aggs, ex);
    RegionalNodesRegions(aggs);
    var u := UniqueRegions(aggs);
    var k :| 0 <= k < |u| && u[k] == g;
    var added := FindRegionalNodes(aggs, Some(ex)).newNodes;
    if g !in seen {
      FilterMembers(interim, NotIn(seen));
      assert interim[k] in kept;
      var m :| 0 <= m < |kept| && kept[m] == interim[k];
      assert added[m] == Tag(kept[m], New);
    }
    ServedBy(ex, added, g);
  }

  /** A region served by an existing node or by an added one is served by the merged layer. */
  lemma ServedBy(ex: seq<Agglomeration>, added: seq<Node>, g: string)
    requires g in ExistingRegions(ex) || exists m :: 0 <= m < |added| && added[m].gid == g
    ensures exists n :: n in TagAll(ex, Existing) + added && n.gid == g
  {
    var out := TagAll(ex, Existing) + added;
    if g in ExistingRegions(ex) {
      var e :| 0 <= e < |ex| && ex[e].gid == g;
      assert out[e] == Tag(ex[e], Existing);
    } else {
      var m :| 0 <= m < |added| && added[m].gid == g;
      assert out[|ex| + m] == added[m];
    }
  }

  /** Without an existing layer the output is every region's node, in order
      of first appearance, tagged new, and no node counts as added. */
  lemma FindRegionalNodesFresh(aggs: seq<Agglomeration>)
    ensures var r := FindRegionalNodes(aggs, None);
            && r.newNodes == []
            && |r.output| == |UniqueRegions(aggs)|
            && forall k :: 0 <= k < |r.output| ==>
                 && r.output[k] == Tag(RegionalNode(aggs, UniqueRegions(aggs)[k]), New)
                 && r.output[k].source == New && r.output[k].gid == UniqueRegions(aggs)[k]
  {
    RegionalNodesRegions(aggs);
  }

  /** The k-th regional node belongs to the k-th region. */
  lemma RegionalNodesRegions(aggs: seq<Agglomeration>)
    ensures forall k :: 0 <= k < |RegionalNodes(aggs)| ==>
              RegionalNodes(aggs)[k].gid == UniqueRegions(aggs)[k]
  {
    var u := UniqueRegions(aggs);
    forall k | 0 <= k < |u|
      ensures RegionalNodes(aggs)[k].gid == u[k]
    {
      RegionalNodeIsFirstMax(aggs, u[k]);
    }
  }

  /** A subsequence of a sequence with distinct regions has distinct regions. */
  lemma {:induction false} SubsequenceDistinct(r: seq<Agglomeration>, s: seq<Agglomeration>, i: nat, j: nat)
    requires IsSubsequence(r, s)
    requires forall a, b :: 0 <= a < b < |s| ==> s[a].gid != s[b].gid
    requires i < j < |r|
    ensures r[i].gid != r[j].gid
    decreases |s|
  {
    if r[0] == s[0] {
      if i == 0 {
        var k := SubsequenceIndex(r[1..], s[1..], j - 1);
        assert r[j] == s[k + 1];
      } else {
        SubsequenceDistinct(r[1..], s[1..], i - 1, j - 1);
      }
    } else {
      SubsequenceDistinct(r, s[1..], i, j);
    }
  }

  /** Each element of a subsequence sits at some position of the sequence. */
  lemma {:induction false} SubsequenceIndex(r: seq<Agglomeration>, s: seq<Agglomeration>, i: nat) returns (k: nat)
    requires IsSubsequence(r, s)
    requires i < |r|
    ensures k < |s| && s[k] == r[i]
    decreases |s|
  {
    if r[0] == s[0] {
      if i == 0 {
        k := 0;
      } else {
        var k' := SubsequenceIndex(r[1..], s[1..], i - 1);
        k := k' + 1;
      }
    } else {
      var k' := SubsequenceIndex(r, s[1..], i);
      k := k' + 1;
    }
  }

  /** The agglomerations of the given regions, region by region, each
      region's in input order. */
  function Grouped(aggs: seq<Agglomeration>, regions: seq<string>): seq<Agglomeration>
    decreases |regions|
  {
    if |regions| == 0 then [] else RegionAgglomerations(aggs, regions[0]) + Grouped(aggs, regions[1..])
  }

  /** Every agglomeration, region by region in order of first appearance,
      each region's in input order. */
  function RegionGroups(aggs: seq<Agglomeration>): seq<Agglomeration>
  {
    Grouped(aggs, UniqueRegions(aggs))
  }

  /** The regional nodes layer: the grouped agglomerations, tagged new. */
  function RegionalLayer(aggs: seq<Agglomeration>): seq<Node>
  {
    TagAll(RegionGroups(aggs), New)
  }

  lemma {:induction false} GroupedMembers(aggs: seq<Agglomeration>, regions: seq<string>, a: Agglomeration)
    ensures a in Grouped(aggs, regions) <==> a in aggs && a.gid in regions
    decreases |regions|
  {
    if |regions| > 0 {
      GroupedMembers(aggs, regions[1..], a);
      FilterMembers(aggs, InRegion(regions[0]));
      assert regions == [regions[0]] + regions[1..];
    }
  }

  predicate Distinct(regions: seq<string>)
  {
    forall i, j :: 0 <= i < j < |regions| ==> regions[i] != regions[j]
  }

  lemma HeadNotInTail(regions: seq<string>)
    requires Distinct(regions) && |regions| > 0
    ensures regions[0] !in regions[1..] && Distinct(regions[1..])
  {
    forall k | 0 <= k < |regions| - 1
      ensures regions[1..][k] != regions[0]
    {
      assert regions[1..][k] == regions[k + 1];
    }
  }

  function InRegions(regions: seq<string>): Agglomeration -> bool
  {
    (a: Agglomeration) => a.gid in regions
  }

  /** Grouping by distinct regions rearranges, without loss or repetition,
      the agglomerations that lie in those regions. */
  lemma {:induction false} GroupedPermutes(aggs: seq<Agglomeration>, regions: seq<string>)
    requires Distinct(regions)
    ensures multiset(Grouped(aggs, regions)) == multiset(Filter(aggs, InRegions(regions)))
    decreases |regions|
  {
    if |regions| > 0 {
      var rest := regions[1..];
      HeadNotInTail(regions);
      GroupedPermutes(aggs, rest);
      assert regions == [regions[0]] + rest;
      FilterSplit(aggs, InRegion(regions[0]), InRegions(rest), InRegions(regions));
    }
  }

  /** Grouping by distinct regions lists one region's agglomerations in
      input order. */
  lemma {:induction false} GroupedFilter(aggs: seq<Agglomeration>, regions: seq<string>, gid: string)
    requires Distinct(regions)
    ensures Filter(Grouped(aggs, regions), InRegion(gid)) ==
              (if gid in regions then RegionAgglomerations(aggs, gid) else [])
    decreases |regions|
  {
    if |regions| > 0 {
      var head := RegionAgglomerations(aggs, regions[0]);
      var rest := regions[1..];
      HeadNotInTail(regions);
      GroupedFilter(aggs, rest, gid);
      FilterConcat(head, Grouped(aggs, rest), InRegion(gid));
      assert regions == [regions[0]] + rest;
      if gid == regions[0] {
        FilterIdempotent(aggs, InRegion(gid));
      } else {
        FilterNone(head, InRegion(gid));
      }
    }
  }

  /** Grouping by distinct regions lists the groups in the regions' order. */
  lemma {:induction false} GroupedOrder(aggs: seq<Agglomeration>, regions: seq<string>, i: nat, j: nat)
    requires Distinct(regions)
    requires i < j < |Grouped(aggs, regions)|
    ensures var g := Grouped(aggs, regions);
            && g[i].gid in regions && g[j].gid in regions
            && FirstIndex(regions, g[i].gid) <= FirstIndex(regions, g[j].gid)
    decreases |regions|
  {
    var g := Grouped(aggs, regions);
    var head := RegionAgglomerations(aggs, regions[0]);
    var rest := regions[1..];
    var tail := Grouped(aggs, rest);
    assert g == head + tail;
    HeadNotInTail(regions);
    if j < |head| {
      assert g[i] == head[i] && g[j] == head[j];
    } else if i < |head| {
      assert g[i] == head[i] && g[j] == tail[j - |head|];
      GroupedMembers(aggs, rest, g[j]);
    } else {
      assert g[i] == tail[i - |head|] && g[j] == tail[j - |head|];
      GroupedOrder(aggs, rest, i - |head|, j - |head|);
      FirstIndexTail(regions, g[i].gid);
      FirstIndexTail(regions, g[j].gid);
    }
  }

  /** The groups hold every agglomeration exactly as often as the input
      does, and each region's agglomerations keep their input order. */
  lemma RegionGroupsPermutes(aggs: seq<Agglomeration>)
    ensures multiset(RegionGroups(aggs)) == multiset(aggs)
    ensures forall gid :: Filter(RegionGroups(aggs), InRegion(gid)) == Filter(aggs, InRegion(gid))
  {
    var u := UniqueRegions(aggs);
    GroupedPermutes(aggs, u);
    forall i | 0 <= i < |aggs|
      ensures InRegions(u)(aggs[i])
    {
      assert Gids(aggs)[i] == aggs[i].gid;
    }
    FilterAll(aggs, InRegions(u));
    forall gid
      ensures Filter(RegionGroups(aggs), InRegion(gid)) == Filter(aggs, InRegion(gid))
    {
      GroupedFilter(aggs, u, gid);
      if gid !in u {
        forall i | 0 <= i < |aggs|
          ensures !InRegion(gid)(aggs[i])
        {
          assert Gids(aggs)[i] == aggs[i].gid;
        }
        FilterNone(aggs, InRegion(gid));
      }
    }
  }

  /** The groups come in the order in which their regions first appear. */
  lemma RegionGroupsOrder(aggs: seq<Agglomeration>, i: nat, j: nat)
    requires i < j < |RegionGroups(aggs)|
    ensures var g := RegionGroups(aggs);
            && g[i].gid in Gids(aggs) && g[j].gid in Gids(aggs)
            && FirstIndex(Gids(aggs), g[i].gid) <= FirstIndex(Gids(aggs), g[j].gid)
  {
    var g, u := RegionGroups(aggs), UniqueRegions(aggs);
    GroupedOrder(aggs, u, i, j);
    var x, y := g[i].gid, g[j].gid;
    var a, b := FirstIndex(u, x), FirstIndex(u, y);
    if a < b {
      UniqueRegionsOrder(aggs, a, b);
      assert u[a] == x && u[b] == y;
    } else {
      assert x == u[a] == y;
    }
  }

  /** The regional layer holds exactly the agglomerations, each tagged new. */
  lemma RegionalLayerMembers(aggs: seq<Agglomeration>, a: Agglomeration)
    ensures Tag(a, New) in RegionalLayer(aggs) <==> a in aggs
    ensures forall n :: n in RegionalLayer(aggs) ==> n.source == New
  {
    var g := RegionGroups(aggs);
    GroupedMembers(aggs, UniqueRegions(aggs), a);
    if a in aggs {
      var i :| 0 <= i < |aggs| && aggs[i] == a;
      assert Gids(aggs)[i] == a.gid;
      var k :| 0 <= k < |g| && g[k] == a;
      assert RegionalLayer(aggs)[k] == Tag(a, New);
    }
    if Tag(a, New) in RegionalLayer(aggs) {
      var k :| 0 <= k < |g| && RegionalLayer(aggs)[k] == Tag(a, New);
      assert g[k] == a;
    }
  }

  /** Zonal statistics of one settlement shape: its cell count and population sum. */
  datatype Cell = Cell(count: real, sum: real, site: nat)

  function MaxSum(cells: seq<Cell>): (m: real)
    requires |cells| > 0
    ensures forall i :: 0 <= i < |cells| ==> cells[i].sum <= m
    ensures exists i :: 0 <= i < |cells| && cells[i].sum == m
  {
    if |cells| == 1 then cells[0].sum
    else
      var m := MaxSum(cells[1..]);
      assert forall i :: 1 <= i < |cells| ==> cells[i] == cells[1..][i - 1];
      if cells[0].sum >= m then cells[0].sum else m
  }

  function SumAbove(bound: real): Cell -> bool
  {
    (c: Cell) => c.sum > bound
  }

  /** `get_missing_nodes`' choice: the shapes whose population sum is within
      one of the largest; none from an empty table. */
  function BrightestCells(cells: seq<Cell>): seq<Cell>
  {
    if |cells| == 0 then [] else Filter(cells, SumAbove(MaxSum(cells) - 1.0))
  }

  /** The chosen shapes keep their order and are exactly the shapes within
      one of the largest sum; every shape with the largest sum is chosen, so
      a non-empty table yields at least one. */
  lemma BrightestCellsChoice(cells: seq<Cell>)
    ensures var r := BrightestCells(cells);
            && IsSubsequence(r, cells)
            && (|cells| > 0 ==> forall i :: 0 <= i < |r| ==> r[i].sum > MaxSum(cells) - 1.0)
            && (|cells| > 0 ==> forall i :: 0 <= i < |cells| && cells[i].sum == MaxSum(cells) ==> cells[i] in r)
            && (|cells| > 0 ==> forall c :: c in r <==> c in cells && c.sum > MaxSum(cells) - 1.0)
            && (|r| > 0 <==> |cells| > 0)
  {
    if |cells| > 0 {
      var p := SumAbove(MaxSum(cells) - 1.0);
      FilterIsSubsequence(cells, p);
      FilterMembers(cells, p);
      var i :| 0 <= i < |cells| && cells[i].sum == MaxSum(cells);
      assert cells[i] in BrightestCells(cells);
    } else {
      assert IsSubsequence([], cells);
    }
  }
}
