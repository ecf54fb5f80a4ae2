/**
 * The integer and graph parts of the computer player: it lists every attack
 * the rules allow, splits its territories into contiguous regions, prefers
 * attacks that would join regions, and picks the best-scored attack (or,
 * when the runner-up is close, sometimes the runner-up). The floating-point
 * heuristics that score an attack and estimate its odds are parameters.
 */
module AIController {
  import opened Wrappers
  import opened Prefixes
  import opened HexGrid
  import opened GameData
  import opened PlayerAssignment
  import opened OwnedRegions
  import opened GameRules
  import opened GameController

  /** Below this estimated chance of winning the AI does not attack. */
  const MIN_WIN_PROBABILITY: real := 0.40
  /** Below this score the AI does not attack. */
  const MIN_ATTACK_SCORE: real := 0.3
  /** The runner-up is a candidate only when its score exceeds this share of the best. */
  const RUNNER_UP_SHARE: real := 0.9

  /** A group of one player's territories linked through that player's territories. */
  datatype ContiguousRegion = ContiguousRegion(territories: set<nat>, totalDice: int)
  {
    function Size(): nat { |territories| }
    predicate Contains(id: nat) { id in territories }
  }

  /** One candidate attack and what the AI knows about it. */
  datatype AttackEvaluation = AttackEvaluation(
    from: nat,
    to: nat,
    score: real,
    winProbability: real,
    attackerDice: int,
    defenderDice: int,
    fromLargestRegion: bool,
    wouldConnect: bool,
    potentialIncomeGain: int)

  // ---------------------------------------------------------------------
  // Neighbour queries

  /** The entries of `ns` that are on the board and are (`friendly`) or are not owned by `player`, in order. */
  function SideAmong(ts: seq<Territory>, ns: seq<nat>, player: nat, friendly: bool): (r: seq<nat>)
    ensures forall n :: n in r <==> n in ns && n < |ts| && (ts[n].owner == player) == friendly
    ensures |r| <= |ns|
  {
    if |ns| == 0 then []
    else
      var n := ns[|ns| - 1];
      SideAmong(ts, ns[..|ns| - 1], player, friendly)
      + (if n < |ts| && (ts[n].owner == player) == friendly then [n] else [])
  }

  /** One more entry adds one to the count when it is on the board and on the given side. */
  lemma SideAmongStep(ts: seq<Territory>, ns: seq<nat>, k: nat, player: nat, friendly: bool)
    requires k < |ns|
    ensures |SideAmong(ts, ns[..k + 1], player, friendly)|
         == |SideAmong(ts, ns[..k], player, friendly)| + (if ns[k] < |ts| && (ts[ns[k]].owner == player) == friendly then 1 else 0)
  {
    PrefixStep(ns, k);
  }

  /** The entries of `ns` that are on the board, in order. */
  function OnBoard(ts: seq<Territory>, ns: seq<nat>): (r: seq<nat>)
    ensures forall n :: n in r <==> n in ns && n < |ts|
  {
    if |ns| == 0 then []
    else OnBoard(ts, ns[..|ns| - 1]) + (if ns[|ns| - 1] < |ts| then [ns[|ns| - 1]] else [])
  }

  /** Every on-board neighbour is friendly or hostile, never both: the two counts add up to the on-board count. */
  lemma {:induction false} SidesCoverBoard(ts: seq<Territory>, ns: seq<nat>, player: nat)
    ensures |SideAmong(ts, ns, player, false)| + |SideAmong(ts, ns, player, true)| == |OnBoard(ts, ns)|
  {
    if |ns| > 0 {
      SidesCoverBoard(ts, ns[..|ns| - 1], player);
    }
  }

  /** Counts the listed neighbours of `territory` that are on the board and owned by `player` (`friendly`) or not. */
  method CountNeighbors(ts: seq<Territory>, territory: nat, player: nat, friendly: bool) returns (count: int)
    ensures territory >= |ts| ==> count == 0
    ensures territory < |ts| ==> count == |SideAmong(ts, ts[territory].neighbors, player, friendly)|
  {
    if territory >= |ts| {
      return 0;
    }
    var nbrs := ts[territory].neighbors;
    count := 0;
    for k := 0 to |nbrs|
      invariant count == |SideAmong(ts, nbrs[..k], player, friendly)|
    {
      SideAmongStep(ts, nbrs, k, player, friendly);
      var neighbor := nbrs[k];
      if neighbor < |ts| && (ts[neighbor].owner == player) == friendly {
        count := count + 1;
      }
    }
    WholePrefix(nbrs);
  }

  /** The number of listed neighbours of `territory` on the board and not owned by `player`; 0 for no such territory. */
  method CountEnemyNeighbors(ts: seq<Territory>, territory: nat, player: nat) returns (count: int)
    ensures territory >= |ts| ==> count == 0
    ensures territory < |ts| ==> count == |SideAmong(ts, ts[territory].neighbors, player, false)|
  {
    count := CountNeighbors(ts, territory, player, false);
  }

  /** The number of listed neighbours of `territory` owned by `player`; 0 for no such territory. */
  method CountFriendlyNeighbors(ts: seq<Territory>, territory: nat, player: nat) returns (count: int)
    ensures territory >= |ts| ==> count == 0
    ensures territory < |ts| ==> count == |SideAmong(ts, ts[territory].neighbors, player, true)|
  {
    count := CountNeighbors(ts, territory, player, true);
  }

  /** Hostile and friendly neighbour counts add up to the number of neighbours on the board. */
  lemma NeighborCountsAddUp(ts: seq<Territory>, territory: nat, player: nat)
    requires territory < |ts|
    ensures |SideAmong(ts, ts[territory].neighbors, player, false)| + |SideAmong(ts, ts[territory].neighbors, player, true)|
            == |OnBoard(ts, ts[territory].neighbors)|
  {
    SidesCoverBoard(ts, ts[territory].neighbors, player);
  }

  /** The most dice on a listed neighbour of `territory` not owned by `player`, or 0 when there is none. */
  method GetStrongestAdjacentEnemy(ts: seq<Territory>, territory: nat, player: nat) returns (strongest: int)
    ensures territory >= |ts| ==> strongest == 0
    ensures strongest >= 0
    ensures territory < |ts| ==>
      forall n :: n in ts[territory].neighbors && n < |ts| && ts[n].owner != player ==> ts[n].diceCount <= strongest
    ensures territory < |ts| && strongest != 0 ==>
      exists n :: n in ts[territory].neighbors && n < |ts| && ts[n].owner != player && ts[n].diceCount == strongest
  {
    if territory >= |ts| {
      return 0;
    }
    var nbrs := ts[territory].neighbors;
    strongest := 0;
    for k := 0 to |nbrs|
      invariant strongest >= 0
      invariant forall m :: 0 <= m < k && nbrs[m] < |ts| && ts[nbrs[m]].owner != player ==> ts[nbrs[m]].diceCount <= strongest
      invariant strongest != 0 ==>
        exists m :: 0 <= m < k && nbrs[m] < |ts| && ts[nbrs[m]].owner != player && ts[nbrs[m]].diceCount == strongest
    {
      var neighbor := nbrs[k];
      if neighbor < |ts| && ts[neighbor].owner != player {
        strongest := Max(strongest, ts[neighbor].diceCount);
      }
    }
    forall n | n in nbrs && n < |ts| && ts[n].owner != player ensures ts[n].diceCount <= strongest {
      var m :| 0 <= m < |nbrs| && nbrs[m] == n;
    }
    if strongest != 0 {
      var m :| 0 <= m < |nbrs| && nbrs[m] < |ts| && ts[nbrs[m]].owner != player && ts[nbrs[m]].diceCount == strongest;
      assert nbrs[m] in nbrs;
    }
  }

  // ---------------------------------------------------------------------
  // Contiguous regions

  /** The dice on the board's territories whose indices are in `s`. */
  function DiceOn(ts: seq<Territory>, s: set<nat>): nat
  {
    if |ts| == 0 then 0
    else DiceOn(ts[..|ts| - 1], s) + (if |ts| - 1 in s then ts[|ts| - 1].diceCount else 0)
  }

  /** Indices past the end of the board carry no dice. */
  lemma {:induction false} DiceOnIgnoresOffBoard(ts: seq<Territory>, s: set<nat>, c: nat)
    requires c >= |ts|
    ensures DiceOn(ts, s + {c}) == DiceOn(ts, s)
  {
    if |ts| > 0 {
      DiceOnIgnoresOffBoard(ts[..|ts| - 1], s, c);
    }
  }

  /** No territories, no dice. */
  lemma {:induction false} DiceOnNothing(ts: seq<Territory>)
    ensures DiceOn(ts, {}) == 0
  {
    if |ts| > 0 {
      DiceOnNothing(ts[..|ts| - 1]);
    }
  }

  /** Adding a territory adds its dice. */
  lemma {:induction false} DiceOnAdd(ts: seq<Territory>, s: set<nat>, c: nat)
    requires c < |ts| && c !in s
    ensures DiceOn(ts, s + {c}) == DiceOn(ts, s) + ts[c].diceCount
  {
    var init := ts[..|ts| - 1];
    if c < |ts| - 1 {
      DiceOnAdd(init, s, c);
    } else {
      DiceOnIgnoresOffBoard(init, s, c);
    }
  }

  /** The dice on all of a player's territories are the player's dice. */
  lemma {:induction false} DiceOnOwned(ts: seq<Territory>, player: nat)
    ensures DiceOn(ts, OwnedSet(ts, player)) == OwnedDice(ts, player)
  {
    if |ts| > 0 {
      var init := ts[..|ts| - 1];
      DiceOnOwned(init, player);
      var c := |ts| - 1;
      if ts[c].owner == player {
        assert OwnedSet(ts, player) == OwnedSet(init, player) + {c};
        DiceOnIgnoresOffBoard(init, OwnedSet(init, player), c);
      } else {
        assert OwnedSet(ts, player) == OwnedSet(init, player);
      }
    }
  }

  /** The territory sets of `regions`, in order. */
  function Areas(regions: seq<ContiguousRegion>): (r: seq<set<nat>>)
    ensures |r| == |regions| && forall j :: 0 <= j < |regions| ==> r[j] == regions[j].territories
  {
    seq(|regions|, j requires 0 <= j < |regions| => regions[j].territories)
  }

  /**
   * Queues the listed neighbours of `current` that are still unvisited and
   * owned by `player`, in neighbour order, removing each from `unvisited`
   * as it is queued.
   */
  method QueueUnvisited(ts: seq<Territory>, player: nat, current: nat, unvisited: set<nat>, queue: seq<nat>)
    returns (unvisited': set<nat>, queue': seq<nat>, ghost added: seq<nat>)
    requires current < |ts|
    ensures queue' == queue + added && unvisited' == unvisited - Elems(added)
    ensures NoDuplicates(added)
    ensures forall x :: x in added ==> OwnedBy(ts, player, x) && x in unvisited && x in ts[current].neighbors
    ensures forall n :: n in ts[current].neighbors && n in unvisited && OwnedBy(ts, player, n) ==> n !in unvisited'
  {
    var nbrs := ts[current].neighbors;
    unvisited', queue', added := unvisited, queue, [];
    for k := 0 to |nbrs|
      invariant queue' == queue + added && unvisited' == unvisited - Elems(added)
      invariant NoDuplicates(added)
      invariant forall x :: x in added ==> OwnedBy(ts, player, x) && x in unvisited && x in nbrs
      invariant forall m :: 0 <= m < k && nbrs[m] in unvisited && OwnedBy(ts, player, nbrs[m]) ==> nbrs[m] !in unvisited'
    {
      var neighbor := nbrs[k];
      if neighbor in unvisited' {
        if neighbor < |ts| && ts[neighbor].owner == player {
          unvisited' := unvisited' - {neighbor};
          queue' := queue' + [neighbor];
          added := added + [neighbor];
        }
      }
    }
  }

  /**
   * One round of the region search: the head of the queue joins the region
   * with its dice, and its owned unvisited neighbours join the queue.
   */
  method VisitFront(ts: seq<Territory>, player: nat, ghost start: nat, ghost visited: set<nat>,
                    unvisited: set<nat>, ghost visited': set<nat>, queue: seq<nat>, region: ContiguousRegion)
    returns (unvisited': set<nat>, ghost visited'': set<nat>, queue': seq<nat>, region': ContiguousRegion)
    requires Exploring(ts, player, start, visited, visited', queue, region.territories) && |queue| > 0
    requires unvisited == OwnedSet(ts, player) - visited'
    requires region.totalDice == DiceOn(ts, region.territories)
    ensures Exploring(ts, player, start, visited, visited'', queue', region'.territories)
    ensures unvisited' == OwnedSet(ts, player) - visited''
    ensures region'.totalDice == DiceOn(ts, region'.territories)
    ensures || OwnedSet(ts, player) - visited'' < OwnedSet(ts, player) - visited'
            || (OwnedSet(ts, player) - visited'' == OwnedSet(ts, player) - visited' && |queue'| < |queue|)
  {
    var current := queue[0];
    DequeueFacts(ts, player, start, visited, visited', queue, region.territories);
    ghost var added;
    unvisited', queue', added := QueueUnvisited(ts, player, current, unvisited, queue[1..]);
    DiceOnAdd(ts, region.territories, current);
    region' := ContiguousRegion(region.territories + {current}, region.totalDice + ts[current].diceCount);
    visited'' := visited' + Elems(added);
    forall n | n in ts[current].neighbors && OwnedBy(ts, player, n) ensures n in visited' + Elems(added) {
      if n !in visited' {
        assert n in unvisited;
      }
    }
    ExploreStep(ts, player, start, visited, visited', queue[1..], region.territories, current, added);
  }

  /**
   * Explores breadth-first the region of `start`, an unvisited territory of
   * `player`. The region holds `start` and only owned territories reachable
   * from it, none visited before; every owned neighbour of the region is
   * visited afterwards; its dice total is the dice on its territories.
   */
  method ExploreFrom(ts: seq<Territory>, player: nat, start: nat, unvisited: set<nat>, ghost visited: set<nat>)
    returns (unvisited': set<nat>, region: ContiguousRegion, ghost visited': set<nat>)
    requires unvisited == OwnedSet(ts, player) - visited && start in unvisited
    requires forall x :: x in visited ==> OwnedBy(ts, player, x)
    ensures unvisited' == OwnedSet(ts, player) - visited'
    ensures visited' == visited + region.territories && visited !! region.territories
    ensures forall x :: x in region.territories ==> OwnedBy(ts, player, x)
    ensures Rooted(ts, player, region.territories, start)
    ensures ClosedInto(ts, player, region.territories, visited')
    ensures region.totalDice == DiceOn(ts, region.territories)
  {
    var queue: seq<nat> := [start];
    unvisited' := unvisited - {start};
    visited' := visited + {start};
    region := ContiguousRegion({}, 0);
    DiceOnNothing(ts);
    ExploreStarts(ts, player, start, visited);
    while |queue| > 0
      invariant Exploring(ts, player, start, visited, visited', queue, region.territories)
      invariant unvisited' == OwnedSet(ts, player) - visited'
      invariant region.totalDice == DiceOn(ts, region.territories)
      decreases OwnedSet(ts, player) - visited', |queue|
    {
      unvisited', visited', queue, region := VisitFront(ts, player, start, visited, unvisited', visited', queue, region);
    }
    ExploreEnds(ts, player, start, visited, visited', region.territories);
  }

  /** The indices of `player`'s territories, collected by id. */
  method OwnedIds(ts: seq<Territory>, player: nat) returns (ids: set<nat>)
    requires IdsAreIndices(ts)
    ensures ids == OwnedSet(ts, player)
  {
    ids := {};
    for i := 0 to |ts|
      invariant ids == set j: nat | j < i && ts[j].owner == player
    {
      if ts[i].owner == player {
        ids := ids + {ts[i].id};
      }
    }
  }

  /**
   * Splits `player`'s territories into regions by breadth-first search from
   * an arbitrary unvisited territory at a time. The regions are disjoint,
   * cover exactly the player's territories, are each reached from their
   * root, and with symmetric neighbour lists are whole connected
   * components; each region's dice total is the dice on its territories.
   */
  method FindContiguousRegions(ts: seq<Territory>, player: nat) returns (regions: seq<ContiguousRegion>, ghost roots: seq<nat>)
    requires IdsAreIndices(ts)
    ensures RegionsOf(ts, player, Areas(regions), roots)
    ensures forall j :: 0 <= j < |regions| ==> regions[j].totalDice == DiceOn(ts, regions[j].territories)
  {
    var unvisited := OwnedIds(ts, player);
    regions, roots := [], [];
    ghost var visited: set<nat> := {};
    while unvisited != {}
      invariant unvisited == OwnedSet(ts, player) - visited
      invariant RegionsSoFar(ts, player, Areas(regions), roots, visited)
      invariant forall j :: 0 <= j < |regions| ==> regions[j].totalDice == DiceOn(ts, regions[j].territories)
      decreases unvisited
    {
      var start :| start in unvisited;
      regions, roots, unvisited, visited := AddNextRegion(ts, player, start, regions, roots, unvisited, visited);
    }
    forall x: nat | OwnedBy(ts, player, x) ensures x in visited {
      assert x in OwnedSet(ts, player);
    }
    RegionsDone(ts, player, Areas(regions), roots, visited);
  }

  /** The body of the region search: explores the region of `start` and appends it. */
  method AddNextRegion(ts: seq<Territory>, player: nat, start: nat, regions: seq<ContiguousRegion>, ghost roots: seq<nat>,
                       unvisited: set<nat>, ghost visited: set<nat>)
    returns (regions': seq<ContiguousRegion>, ghost roots': seq<nat>, unvisited': set<nat>, ghost visited': set<nat>)
    requires start in unvisited && unvisited == OwnedSet(ts, player) - visited
    requires RegionsSoFar(ts, player, Areas(regions), roots, visited)
    requires forall j :: 0 <= j < |regions| ==> regions[j].totalDice == DiceOn(ts, regions[j].territories)
    ensures unvisited' == OwnedSet(ts, player) - visited' && unvisited' < unvisited
    ensures RegionsSoFar(ts, player, Areas(regions'), roots', visited')
    ensures forall j :: 0 <= j < |regions'| ==> regions'[j].totalDice == DiceOn(ts, regions'[j].territories)
  {
    var region;
    unvisited', region, visited' := ExploreFrom(ts, player, start, unvisited, visited);
    AddRegion(ts, player, Areas(regions), roots, visited, region.territories, start);
    regions' := regions + [region];
    roots' := roots + [start];
    assert Areas(regions') == Areas(regions) + [region.territories];
    assert start in region.territories;
  }

  /** The index of the first region holding `id`, if any. */
  function RegionOf(regions: seq<ContiguousRegion>, id: nat): (r: Option<nat>)
    ensures r.None? <==> forall j :: 0 <= j < |regions| ==> id !in regions[j].territories
    ensures r.Some? ==> r.value < |regions| && id in regions[r.value].territories
    ensures r.Some? ==> forall j :: 0 <= j < r.value ==> id !in regions[j].territories
  {
    if |regions| == 0 then None
    else if id in regions[0].territories then Some(0)
    else
      match RegionOf(regions[1..], id)
      case None => None
      case Some(j) => Some(j + 1)
  }

  /** Searches the regions in order for the first one holding `id`. */
  method FindRegionHolding(regions: seq<ContiguousRegion>, id: nat) returns (r: Option<nat>)
    ensures r == RegionOf(regions, id)
  {
    var j := 0;
    while j < |regions|
      invariant j <= |regions|
      invariant forall m :: 0 <= m < j ==> id !in regions[m].territories
    {
      if regions[j].Contains(id) {
        return Some(j);
      }
      j := j + 1;
    }
    return None;
  }

  /**
   * The regions, by index, that hold a listed territory of `player`, each
   * once, in the order the list first reaches them.
   */
  function Touched(ts: seq<Territory>, player: nat, regions: seq<ContiguousRegion>, ns: seq<nat>): (r: seq<nat>)
    ensures NoDuplicates(r)
    ensures forall k :: 0 <= k < |r| ==> r[k] < |regions| && regions[r[k]].Size() > 0
  {
    if |ns| == 0 then []
    else
      var rest := Touched(ts, player, regions, ns[..|ns| - 1]);
      var n := ns[|ns| - 1];
      if OwnedBy(ts, player, n) && RegionOf(regions, n).Some? && RegionOf(regions, n).value !in rest
      then rest + [RegionOf(regions, n).value]
      else rest
  }

  /** A region is touched exactly when it is the region of a listed territory of `player`. */
  lemma {:induction false} TouchedMembers(ts: seq<Territory>, player: nat, regions: seq<ContiguousRegion>, ns: seq<nat>)
    ensures forall j :: j in Touched(ts, player, regions, ns) <==>
      exists n :: n in ns && OwnedBy(ts, player, n) && RegionOf(regions, n) == Some(j)
  {
    if |ns| > 0 {
      var init := ns[..|ns| - 1];
      TouchedMembers(ts, player, regions, init);
      forall j | j in Touched(ts, player, regions, ns)
        ensures exists n :: n in ns && OwnedBy(ts, player, n) && RegionOf(regions, n) == Some(j)
      {
        if j in Touched(ts, player, regions, init) {
          var n :| n in init && OwnedBy(ts, player, n) && RegionOf(regions, n) == Some(j);
          assert n in ns;
        } else {
          assert ns[|ns| - 1] in ns;
        }
      }
      forall j, n | n in ns && OwnedBy(ts, player, n) && RegionOf(regions, n) == Some(j)
        ensures j in Touched(ts, player, regions, ns)
      {
        if n != ns[|ns| - 1] {
          assert n in init;
        }
      }
    }
  }

  /** A sequence holding two different values has at least two elements. */
  lemma DistinctMembers(s: seq<nat>, a: nat, b: nat)
    requires a in s && b in s && a != b
    ensures |s| > 1
  {
    var i :| 0 <= i < |s| && s[i] == a;
    var k :| 0 <= k < |s| && s[k] == b;
    assert i != k;
  }

  /** The region of a listed territory of `player` is touched. */
  lemma {:induction false} RegionTouched(ts: seq<Territory>, player: nat, regions: seq<ContiguousRegion>, ns: seq<nat>, n: nat)
    requires n in ns && OwnedBy(ts, player, n) && RegionOf(regions, n).Some?
    ensures RegionOf(regions, n).value in Touched(ts, player, regions, ns)
  {
    var init := ns[..|ns| - 1];
    if n != ns[|ns| - 1] {
      assert n in init;
      RegionTouched(ts, player, regions, init, n);
    }
  }

  /** The total size of the regions listed by index. */
  function SizeSum(regions: seq<ContiguousRegion>, idx: seq<nat>): int
    requires forall k :: 0 <= k < |idx| ==> idx[k] < |regions|
  {
    if |idx| == 0 then 0
    else SizeSum(regions, idx[..|idx| - 1]) + regions[idx[|idx| - 1]].Size()
  }

  /** The size of the largest region listed by index, 0 for none. */
  function SizeMax(regions: seq<ContiguousRegion>, idx: seq<nat>): int
    requires forall k :: 0 <= k < |idx| ==> idx[k] < |regions|
  {
    if |idx| == 0 then 0
    else Max(SizeMax(regions, idx[..|idx| - 1]), regions[idx[|idx| - 1]].Size())
  }

  /** For non-empty regions, the total exceeds the largest by at least one per further region. */
  lemma {:induction false} SumBeyondMax(regions: seq<ContiguousRegion>, idx: seq<nat>)
    requires forall k :: 0 <= k < |idx| ==> idx[k] < |regions| && regions[idx[k]].Size() > 0
    ensures SizeSum(regions, idx) >= |idx|
    ensures |idx| > 0 ==> SizeSum(regions, idx) - SizeMax(regions, idx) >= |idx| - 1
  {
    if |idx| > 0 {
      SumBeyondMax(regions, idx[..|idx| - 1]);
    }
  }

  /**
   * What capturing `target` would do for `player`: whether it joins two or
   * more regions, and the resulting gain in the largest region's size.
   */
  function Connection(ts: seq<Territory>, player: nat, regions: seq<ContiguousRegion>, target: nat): (bool, int)
  {
    if target >= |ts| then (false, 0)
    else
      var touched := Touched(ts, player, regions, ts[target].neighbors);
      if |touched| > 1 then (true, 1 + SizeSum(regions, touched) - SizeMax(regions, touched)) else (false, 0)
  }

  /** Two owned listed territories lie in different regions. */
  ghost predicate SplitAmong(ts: seq<Territory>, player: nat, regions: seq<ContiguousRegion>, ns: seq<nat>)
  {
    exists n1, n2 :: n1 in ns && n2 in ns && OwnedBy(ts, player, n1) && OwnedBy(ts, player, n2)
      && RegionOf(regions, n1).Some? && RegionOf(regions, n2).Some? && RegionOf(regions, n1) != RegionOf(regions, n2)
  }

  /** At least two regions are touched exactly when two owned listed territories lie in different regions. */
  lemma TouchedTwice(ts: seq<Territory>, player: nat, regions: seq<ContiguousRegion>, ns: seq<nat>)
    ensures |Touched(ts, player, regions, ns)| > 1 <==> SplitAmong(ts, player, regions, ns)
  {
    if |Touched(ts, player, regions, ns)| > 1 {
      TwoTouchedSplit(ts, player, regions, ns);
    }
    if SplitAmong(ts, player, regions, ns) {
      SplitTouchesTwo(ts, player, regions, ns);
    }
  }

  /** Two touched regions come from two owned listed territories in different regions. */
  lemma TwoTouchedSplit(ts: seq<Territory>, player: nat, regions: seq<ContiguousRegion>, ns: seq<nat>)
    requires |Touched(ts, player, regions, ns)| > 1
    ensures SplitAmong(ts, player, regions, ns)
  {
    var touched := Touched(ts, player, regions, ns);
    TouchedMembers(ts, player, regions, ns);
    assert touched[0] in touched && touched[1] in touched && touched[0] != touched[1];
    var n1 :| n1 in ns && OwnedBy(ts, player, n1) && RegionOf(regions, n1) == Some(touched[0]);
    var n2 :| n2 in ns && OwnedBy(ts, player, n2) && RegionOf(regions, n2) == Some(touched[1]);
  }

  /** Two owned listed territories in different regions touch two regions. */
  lemma SplitTouchesTwo(ts: seq<Territory>, player: nat, regions: seq<ContiguousRegion>, ns: seq<nat>)
    requires SplitAmong(ts, player, regions, ns)
    ensures |Touched(ts, player, regions, ns)| > 1
  {
    var n1, n2 :| n1 in ns && n2 in ns && OwnedBy(ts, player, n1) && OwnedBy(ts, player, n2)
      && RegionOf(regions, n1).Some? && RegionOf(regions, n2).Some? && RegionOf(regions, n1) != RegionOf(regions, n2);
    var j1, j2 := RegionOf(regions, n1).value, RegionOf(regions, n2).value;
    RegionTouched(ts, player, regions, ns, n1);
    RegionTouched(ts, player, regions, ns, n2);
    DistinctMembers(Touched(ts, player, regions, ns), j1, j2);
  }

  /**
   * Capturing `target` joins regions exactly when two of its listed
   * neighbours owned by `player` lie in different regions; the gain is then
   * at least 2, and otherwise 0.
   */
  lemma ConnectionMeaning(ts: seq<Territory>, player: nat, regions: seq<ContiguousRegion>, target: nat)
    ensures Connection(ts, player, regions, target).0 <==> target < |ts| && SplitAmong(ts, player, regions, ts[target].neighbors)
    ensures Connection(ts, player, regions, target).0 ==> Connection(ts, player, regions, target).1 >= 2
    ensures !Connection(ts, player, regions, target).0 ==> Connection(ts, player, regions, target).1 == 0
  {
    if target < |ts| {
      var ns := ts[target].neighbors;
      TouchedTwice(ts, player, regions, ns);
      SumBeyondMax(regions, Touched(ts, player, regions, ns));
    }
  }

  /**
   * Whether capturing `target` would join regions of `player`, with the
   * gain it would bring: the touched regions are those holding an owned
   * listed neighbour, each counted once; the gain is one for the target
   * plus their total size less the largest of them. An off-board target
   * joins nothing.
   */
  method WouldConnectRegions(ts: seq<Territory>, player: nat, regions: seq<ContiguousRegion>, target: nat)
    returns (connects: bool, incomeGain: int)
    ensures (connects, incomeGain) == Connection(ts, player, regions, target)
  {
    if target >= |ts| {
      return false, 0;
    }
    var nbrs := ts[target].neighbors;
    var touched: seq<nat> := [];
    for k := 0 to |nbrs|
      invariant touched == Touched(ts, player, regions, nbrs[..k])
    {
      PrefixStep(nbrs, k);
      var neighborId := nbrs[k];
      if neighborId < |ts| && ts[neighborId].owner == player {
        var holder := FindRegionHolding(regions, neighborId);
        if holder.Some? {
          var alreadyTouched := holder.value in touched;
          if !alreadyTouched {
            touched := touched + [holder.value];
          }
        }
      }
    }
    WholePrefix(nbrs);
    if |touched| > 1 {
      var totalSize := 1;
      var largestTouched := 0;
      for m := 0 to |touched|
        invariant totalSize == 1 + SizeSum(regions, touched[..m])
        invariant largestTouched == SizeMax(regions, touched[..m])
      {
        PrefixStep(touched, m);
        totalSize := totalSize + regions[touched[m]].Size();
        largestTouched := Max(largestTouched, regions[touched[m]].Size());
      }
      WholePrefix(touched);
      return true, totalSize - largestTouched;
    }
    return false, 0;
  }

  /**
   * The first region of largest size, or none when there are no regions.
   * Its size is the largest-region size the reinforcement rule uses.
   */
  method FindLargestRegion(regions: seq<ContiguousRegion>) returns (largest: Option<nat>)
    ensures largest.None? <==> |regions| == 0
    ensures largest.Some? ==> largest.value < |regions|
    ensures largest.Some? ==> forall j :: 0 <= j < |regions| ==> regions[j].Size() <= regions[largest.value].Size()
    ensures largest.Some? ==> forall j :: 0 <= j < largest.value ==> regions[j].Size() < regions[largest.value].Size()
    ensures largest.Some? ==> regions[largest.value].Size() == MaxSize(Areas(regions))
  {
    if |regions| == 0 {
      return None;
    }
    var best := 0;
    for j := 0 to |regions|
      invariant best < |regions| && best <= j
      invariant forall m :: 0 <= m < j ==> regions[m].Size() <= regions[best].Size()
      invariant forall m :: 0 <= m < best ==> regions[m].Size() < regions[best].Size()
    {
      if regions[j].Size() > regions[best].Size() {
        best := j;
      }
    }
    MaxSizeIsMaximum(Areas(regions));
    largest := Some(best);
  }

  // ---------------------------------------------------------------------
  // Candidate attacks

  /** The (attacker, target) pairs of a list of evaluations, in order. */
  function Pairs(evals: seq<AttackEvaluation>): (r: seq<(nat, nat)>)
    ensures |r| == |evals| && forall k :: 0 <= k < |evals| ==> r[k] == (evals[k].from, evals[k].to)
  {
    seq(|evals|, k requires 0 <= k < |evals| => (evals[k].from, evals[k].to))
  }

  /** The attacks of two lists joined are those of the first, then those of the second. */
  lemma PairsAppend(a: seq<AttackEvaluation>, b: seq<AttackEvaluation>)
    ensures Pairs(a + b) == Pairs(a) + Pairs(b)
  {
    assert |Pairs(a + b)| == |Pairs(a) + Pairs(b)|;
  }

  /** Each target paired with the attacker `from`. */
  function Tagged(from: nat, targets: seq<nat>): (r: seq<(nat, nat)>)
    ensures |r| == |targets| && forall m :: 0 <= m < |targets| ==> r[m] == (from, targets[m])
  {
    seq(|targets|, m requires 0 <= m < |targets| => (from, targets[m]))
  }

  /** The attacks `player` may make from territory `k`: its valid targets, if it is the player's. */
  function PairsFrom(ts: seq<Territory>, player: nat, k: nat): seq<(nat, nat)>
    requires k < |ts|
  {
    if ts[k].owner == player then Tagged(k, ValidTargets(ts, player, k)) else []
  }

  /** The attacks `player` may make from the first `i` territories, in board order and then neighbour order. */
  function AttackPairs(ts: seq<Territory>, player: nat, i: nat): seq<(nat, nat)>
    requires i <= |ts|
  {
    if i == 0 then [] else AttackPairs(ts, player, i - 1) + PairsFrom(ts, player, i - 1)
  }

  /** The listed pairs are exactly the attacks the rules allow `player`, from the first `i` territories. */
  lemma {:induction false} AttackPairsAllowed(ts: seq<Territory>, player: nat, i: nat)
    requires i <= |ts|
    ensures forall f: nat, t: nat :: (f, t) in AttackPairs(ts, player, i) <==> f < i && CanAttackOn(ts, player, f, t)
  {
    if i > 0 {
      AttackPairsAllowed(ts, player, i - 1);
      ValidTargetsExactly(ts, player, i - 1);
      forall f: nat, t: nat ensures (f, t) in PairsFrom(ts, player, i - 1) <==> f == i - 1 && CanAttackOn(ts, player, f, t) {
        if (f, t) in PairsFrom(ts, player, i - 1) {
          var m :| 0 <= m < |PairsFrom(ts, player, i - 1)| && PairsFrom(ts, player, i - 1)[m] == (f, t);
          assert t == ValidTargets(ts, player, i - 1)[m];
        }
        if f == i - 1 && CanAttackOn(ts, player, f, t) {
          var vt := ValidTargets(ts, player, f);
          assert t in vt;
          var m :| 0 <= m < |vt| && vt[m] == t;
          assert PairsFrom(ts, player, f)[m] == (f, t);
        }
      }
    }
  }

  /**
   * The AI considers every attack the rules allow `player` and nothing
   * else; with neighbour lists free of repeats, it considers each once.
   */
  lemma CandidatesAreTheAllowedAttacks(ts: seq<Territory>, player: nat)
    ensures forall f: nat, t: nat :: (f, t) in AttackPairs(ts, player, |ts|) <==> CanAttackOn(ts, player, f, t)
    ensures (forall k :: 0 <= k < |ts| ==> NoDuplicates(ts[k].neighbors)) ==> NoDuplicates(AttackPairs(ts, player, |ts|))
  {
    AttackPairsAllowed(ts, player, |ts|);
    if forall k :: 0 <= k < |ts| ==> NoDuplicates(ts[k].neighbors) {
      AttackPairsOnce(ts, player, |ts|);
    }
  }

  /** Pairs from different attackers differ, and each attacker's targets are listed without repeats. */
  lemma {:induction false} AttackPairsOnce(ts: seq<Territory>, player: nat, i: nat)
    requires i <= |ts| && forall k :: 0 <= k < |ts| ==> NoDuplicates(ts[k].neighbors)
    ensures NoDuplicates(AttackPairs(ts, player, i))
    ensures forall k :: 0 <= k < |AttackPairs(ts, player, i)| ==> AttackPairs(ts, player, i)[k].0 < i
  {
    if i > 0 {
      AttackPairsOnce(ts, player, i - 1);
      PairsFromOnce(ts, player, i - 1);
      var a, b := AttackPairs(ts, player, i - 1), PairsFrom(ts, player, i - 1);
      forall x | x in a ensures x !in b {
        assert x.0 < i - 1;
      }
      NoDuplicatesConcat(a, b);
    }
  }

  /** The attacks from one territory all start there, and none is listed twice. */
  lemma PairsFromOnce(ts: seq<Territory>, player: nat, k: nat)
    requires k < |ts| && NoDuplicates(ts[k].neighbors)
    ensures NoDuplicates(PairsFrom(ts, player, k))
    ensures forall m :: 0 <= m < |PairsFrom(ts, player, k)| ==> PairsFrom(ts, player, k)[m].0 == k
  {
    if ts[k].owner == player {
      ValidTargetsExactly(ts, player, k);
      var vt, b := ValidTargets(ts, player, k), PairsFrom(ts, player, k);
      forall p, q | 0 <= p < q < |b| ensures b[p] != b[q] {
        assert b[p].1 == vt[p] && b[q].1 == vt[q];
      }
    }
  }

  /**
   * `e` records the attack from `e.from` on `e.to` as the AI weighs it: both
   * dice counts, the estimated chance of winning, whether the attacker is in
   * the largest region, what capturing the target would join, and the score
   * given to all of that.
   */
  ghost predicate Describes(ts: seq<Territory>, player: nat, regions: seq<ContiguousRegion>, largest: Option<nat>,
                            winChance: (int, int) -> real, rate: AttackEvaluation -> real, e: AttackEvaluation)
  {
    && e.from < |ts| && e.to < |ts|
    && e.attackerDice == ts[e.from].diceCount && e.defenderDice == ts[e.to].diceCount
    && e.winProbability == winChance(e.attackerDice, e.defenderDice)
    && e.fromLargestRegion == (largest.Some? && largest.value < |regions| && e.from in regions[largest.value].territories)
    && (e.wouldConnect, e.potentialIncomeGain) == Connection(ts, player, regions, e.to)
    && e.score == rate(e.(score := 0.0))
  }

  /** The evaluations of the attacks from territory `i`, in neighbour order. */
  method EvaluateFrom(ts: seq<Territory>, player: nat, i: nat, regions: seq<ContiguousRegion>, largest: Option<nat>,
                      winChance: (int, int) -> real, rate: AttackEvaluation -> real)
    returns (block: seq<AttackEvaluation>)
    requires IdsAreIndices(ts) && i < |ts|
    requires largest.Some? ==> largest.value < |regions|
    ensures Pairs(block) == PairsFrom(ts, player, i)
    ensures forall k :: 0 <= k < |block| ==> Describes(ts, player, regions, largest, winChance, rate, block[k])
  {
    var territory := ts[i];
    if territory.owner != player || !territory.CanAttack() {
      return [];
    }
    var nbrs := territory.neighbors;
    block := [];
    for m := 0 to |nbrs|
      invariant Pairs(block) == Tagged(i, TargetsAmong(ts, player, i, nbrs[..m]))
      invariant forall k :: 0 <= k < |block| ==> Describes(ts, player, regions, largest, winChance, rate, block[k])
    {
      PrefixStep(nbrs, m);
      var neighborId := nbrs[m];
      if neighborId < |ts| && ts[neighborId].owner != player {
        var connects, incomeGain := WouldConnectRegions(ts, player, regions, neighborId);
        var eval := AttackEvaluation(territory.id, neighborId, 0.0,
                                     winChance(territory.diceCount, ts[neighborId].diceCount),
                                     territory.diceCount, ts[neighborId].diceCount,
                                     largest.Some? && regions[largest.value].Contains(territory.id),
                                     connects, incomeGain);
        eval := eval.(score := rate(eval));
        PairsAppend(block, [eval]);
        block := block + [eval];
      }
    }
    WholePrefix(nbrs);
  }

  /**
   * Every attack `player` may make, in board order and then neighbour
   * order, each with its dice counts, odds, region facts and score. The
   * regions are the player's contiguous regions and `largest` the first of
   * the largest.
   */
  method EvaluateAttacks(ts: seq<Territory>, player: nat, winChance: (int, int) -> real, rate: AttackEvaluation -> real)
    returns (evals: seq<AttackEvaluation>, ghost regions: seq<ContiguousRegion>, ghost roots: seq<nat>, ghost largest: Option<nat>)
    requires IdsAreIndices(ts)
    ensures Pairs(evals) == AttackPairs(ts, player, |ts|)
    ensures forall k :: 0 <= k < |evals| ==> Describes(ts, player, regions, largest, winChance, rate, evals[k])
    ensures RegionsOf(ts, player, Areas(regions), roots)
    ensures largest.None? <==> |regions| == 0
    ensures largest.Some? ==> largest.value < |regions| && regions[largest.value].Size() == MaxSize(Areas(regions))
    ensures largest.Some? ==> forall j :: 0 <= j < largest.value ==> regions[j].Size() < regions[largest.value].Size()
  {
    var found;
    found, roots := FindContiguousRegions(ts, player);
    var largestRegion := FindLargestRegion(found);
    regions, largest := found, largestRegion;
    evals := EvaluateAll(ts, player, found, largestRegion, winChance, rate);
  }

  /** Two lists of evaluations that describe their attacks describe them joined. */
  lemma DescribedAppend(ts: seq<Territory>, player: nat, regions: seq<ContiguousRegion>, largest: Option<nat>,
                        winChance: (int, int) -> real, rate: AttackEvaluation -> real, a: seq<AttackEvaluation>, b: seq<AttackEvaluation>)
    requires forall k :: 0 <= k < |a| ==> Describes(ts, player, regions, largest, winChance, rate, a[k])
    requires forall k :: 0 <= k < |b| ==> Describes(ts, player, regions, largest, winChance, rate, b[k])
    ensures forall k :: 0 <= k < |a + b| ==> Describes(ts, player, regions, largest, winChance, rate, (a + b)[k])
  {
    forall k | 0 <= k < |a + b| ensures Describes(ts, player, regions, largest, winChance, rate, (a + b)[k]) {
      if k < |a| {
        assert (a + b)[k] == a[k];
      } else {
        assert (a + b)[k] == b[k - |a|];
      }
    }
  }

  /** The evaluations of the attacks from every territory, in board order. */
  method EvaluateAll(ts: seq<Territory>, player: nat, regions: seq<ContiguousRegion>, largest: Option<nat>,
                     winChance: (int, int) -> real, rate: AttackEvaluation -> real)
    returns (evals: seq<AttackEvaluation>)
    requires IdsAreIndices(ts)
    requires largest.Some? ==> largest.value < |regions|
    ensures Pairs(evals) == AttackPairs(ts, player, |ts|)
    ensures forall k :: 0 <= k < |evals| ==> Describes(ts, player, regions, largest, winChance, rate, evals[k])
  {
    evals := [];
    for i := 0 to |ts|
      invariant Pairs(evals) == AttackPairs(ts, player, i)
      invariant forall k :: 0 <= k < |evals| ==> Describes(ts, player, regions, largest, winChance, rate, evals[k])
    {
      var block := EvaluateFrom(ts, player, i, regions, largest, winChance, rate);
      PairsAppend(evals, block);
      DescribedAppend(ts, player, regions, largest, winChance, rate, evals, block);
      evals := evals + block;
    }
  }

  // ---------------------------------------------------------------------
  // Choosing an attack

  /** `b` indexes a highest-scored evaluation. */
  predicate TopScored(evals: seq<AttackEvaluation>, b: nat)
  {
    b < |evals| && forall k :: 0 <= k < |evals| ==> evals[k].score <= evals[b].score
  }

  /** `r` indexes a highest-scored evaluation other than `b`: second place after sorting by score. */
  predicate RunnerUp(evals: seq<AttackEvaluation>, b: nat, r: nat)
  {
    r < |evals| && r != b && forall k :: 0 <= k < |evals| && k != b ==> evals[k].score <= evals[r].score
  }

  /** The best candidate is worth making: likely enough to win and scored high enough. */
  predicate GoodEnough(e: AttackEvaluation)
  {
    e.winProbability >= MIN_WIN_PROBABILITY && e.score >= MIN_ATTACK_SCORE
  }

  /** A highest-scored evaluation other than `skip`, if there is one. */
  method HighestScored(evals: seq<AttackEvaluation>, skip: int) returns (found: bool, idx: nat)
    ensures found <==> |evals| > (if 0 <= skip < |evals| then 1 else 0)
    ensures found ==> idx < |evals| && idx != skip
    ensures found ==> forall k :: 0 <= k < |evals| && k != skip ==> evals[k].score <= evals[idx].score
  {
    found, idx := false, 0;
    for k := 0 to |evals|
      invariant found <==> k > (if 0 <= skip < k then 1 else 0)
      invariant found ==> idx < k && idx != skip
      invariant found ==> forall m :: 0 <= m < k && m != skip ==> evals[m].score <= evals[idx].score
    {
      if k != skip && (!found || evals[k].score > evals[idx].score) {
        found, idx := true, k;
      }
    }
  }

  /**
   * The selection rule over scored candidates: `best` and `runner` are
   * first and second place after sorting by score, ties in any order. No
   * attack is chosen when there are no candidates or the best is not good
   * enough; otherwise the best, or the runner-up when it scores above 90%
   * of the best and the random draw (`luckyDraw`) falls below 0.3.
   */
  predicate Selected(evals: seq<AttackEvaluation>, luckyDraw: bool, best: nat, runner: nat, chosen: Option<nat>)
  {
    && (|evals| > 0 ==> TopScored(evals, best))
    && (|evals| > 1 ==> RunnerUp(evals, best, runner))
    && (chosen.None? <==> |evals| == 0 || !GoodEnough(evals[best]))
    && (chosen.Some? ==>
          && (chosen.value == best || chosen.value == runner)
          && (chosen.value != best <==>
                luckyDraw && |evals| > 1 && evals[runner].score > evals[best].score * RUNNER_UP_SHARE))
  }

  /** Ranks the candidates by score and applies the selection rule. */
  method ChooseAttack(attacks: seq<AttackEvaluation>, luckyDraw: bool) returns (best: nat, runner: nat, chosen: Option<nat>)
    ensures Selected(attacks, luckyDraw, best, runner, chosen)
    ensures chosen.Some? ==> chosen.value < |attacks|
  {
    best, runner, chosen := 0, 0, None;
    if |attacks| == 0 {
      return;
    }
    var someTop, top := HighestScored(attacks, -1);
    assert TopScored(attacks, top);
    var first: nat :| TopScored(attacks, first);
    best := first;
    assert TopScored(attacks, best);
    if |attacks| > 1 {
      var someNext, next := HighestScored(attacks, best);
      assert RunnerUp(attacks, best, next);
      var second: nat :| RunnerUp(attacks, best, second);
      runner := second;
      assert RunnerUp(attacks, best, runner);
    }
    if attacks[best].winProbability < MIN_WIN_PROBABILITY || attacks[best].score < MIN_ATTACK_SCORE {
      return;
    }
    var choiceIdx := best;
    if |attacks| > 1 && attacks[runner].score > attacks[best].score * RUNNER_UP_SHARE {
      if luckyDraw {
        choiceIdx := runner;
      }
    }
    chosen := Some(choiceIdx);
  }

  /** The computer player's view of one controller. */
  class AIController {
    const controller: GameController

    constructor(controller: GameController)
      ensures this.controller == controller
    {
      this.controller := controller;
    }

    /**
     * Takes one action for `player`: weighs every allowed attack and, if
     * the best-scored one is likely enough to win and scored high enough,
     * selects its attacker and attacks. When the runner-up scores above 90%
     * of the best, `luckyDraw` (the random draw below 0.3) picks the
     * runner-up instead. Returns whether an attack was made.
     */
    method TakeAction(player: nat, winChance: (int, int) -> real, rate: AttackEvaluation -> real, luckyDraw: bool)
      returns (attacked: bool, ghost evals: seq<AttackEvaluation>, ghost best: nat, ghost runner: nat, ghost chosen: Option<nat>,
               ghost regions: seq<ContiguousRegion>, ghost roots: seq<nat>, ghost largest: Option<nat>)
      requires controller.Valid()
      modifies controller.state`territories, controller.state`mapNeedsRefresh, controller.state`lastCombat,
               controller.state`combatPending, controller.state`players, controller.state`activePlayerCount,
               controller.state`winner, controller.state`phase, controller.state`selectedTerritory,
               controller.state`validTargets
      ensures controller.Valid()
      ensures Pairs(evals) == AttackPairs(old(controller.state.territories), player, |old(controller.state.territories)|)
      ensures RegionsOf(old(controller.state.territories), player, Areas(regions), roots)
      ensures largest.None? <==> |regions| == 0
      ensures largest.Some? ==> largest.value < |regions| && regions[largest.value].Size() == MaxSize(Areas(regions))
      ensures largest.Some? ==> forall j :: 0 <= j < largest.value ==> regions[j].Size() < regions[largest.value].Size()
      ensures forall k :: 0 <= k < |evals| ==>
        Describes(old(controller.state.territories), player, regions, largest, winChance, rate, evals[k])
      ensures Selected(evals, luckyDraw, best, runner, chosen)
      ensures chosen.None? ==> !attacked && unchanged(controller.state)
      ensures chosen.Some? ==> chosen.value < |evals|
      ensures chosen.Some? && player == controller.state.currentPlayer ==>
        CanAttackOn(old(controller.state.territories), player, evals[chosen.value].from, evals[chosen.value].to)
      ensures chosen.Some? ==>
        var e := evals[chosen.value];
        && (attacked <==>
              && (old(controller.state.phase) == SelectTarget || old(controller.state.phase) == AITurn)
              && e.from != TERRITORY_NONE
              && CanAttackOn(old(controller.state.territories), controller.state.currentPlayer, e.from, e.to))
        && (!attacked ==> controller.OnlySelected(e.from))
        && (attacked ==> controller.AttackSettled(e.from, e.to))
    {
      var state := controller.state;
      var attacks;
      attacks, regions, roots, largest := EvaluateAttacks(state.territories, player, winChance, rate);
      evals := attacks;
      var pickIdx;
      best, runner, pickIdx := ChooseAttack(attacks, luckyDraw);
      chosen := pickIdx;
      if pickIdx.None? {
        return false, evals, best, runner, chosen, regions, roots, largest;
      }
      var pick := attacks[pickIdx.value];
      assert Pairs(attacks)[pickIdx.value] == (pick.from, pick.to);
      CandidatesAreTheAllowedAttacks(state.territories, player);
      state.selectedTerritory := pick.from;
      attacked := controller.Attack(pick.to);
    }
  }
}
