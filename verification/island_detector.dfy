/**
 * Islands: groups of territories that reach each other through neighbour
 * lists, found by depth-first search; and the pruning step that keeps the
 * island with the most hexes, drops the others, renumbers the kept
 * territories 0..N-1 and rewrites every neighbour list and index entry.
 */
module IslandDetector {
  import opened Prefixes
  import opened HexCoord
  import opened GameData
  import opened HexGrid
  import opened TerritoryGenerator

  /** A group of connected territory ids and the number of hexes they cover. */
  datatype Island = Island(territories: seq<nat>, totalHexCount: int)

  /** Hexes of the territories named by `ids`; an id past the end adds nothing. */
  function HexTotal(ts: seq<Territory>, ids: seq<nat>): nat
  {
    if |ids| == 0 then 0
    else HexTotal(ts, ids[..|ids| - 1]) + (if ids[|ids| - 1] < |ts| then |ts[ids[|ids| - 1]].hexes| else 0)
  }

  lemma {:induction false} HexTotalAppend(ts: seq<Territory>, a: seq<nat>, b: seq<nat>)
    ensures HexTotal(ts, a + b) == HexTotal(ts, a) + HexTotal(ts, b)
  {
    if |b| > 0 {
      assert (a + b)[..|a + b| - 1] == a + b[..|b| - 1];
      HexTotalAppend(ts, a, b[..|b| - 1]);
    } else {
      assert a + b == a;
    }
  }

  /** Every id the search can meet: the territories' own ids and every listed neighbour. */
  ghost function Known(ts: seq<Territory>): set<nat>
  {
    (set i | 0 <= i < |ts| :: ts[i].id)
      + (set i, k | 0 <= i < |ts| && 0 <= k < |ts[i].neighbors| :: ts[i].neighbors[k])
  }

  /** A walk along neighbour lists: each step goes from a territory to an id it lists. */
  ghost predicate Walk(ts: seq<Territory>, path: seq<nat>)
  {
    && |path| > 0
    && forall i :: 0 <= i < |path| - 1 ==> path[i] < |ts| && path[i + 1] in ts[path[i]].neighbors
  }

  /** `b` is reached from `a` by following neighbour lists. */
  ghost predicate Connects(ts: seq<Territory>, a: nat, b: nat)
  {
    exists path :: Walk(ts, path) && path[0] == a && path[|path| - 1] == b
  }

  lemma ConnectsSelf(ts: seq<Territory>, a: nat)
    ensures Connects(ts, a, a)
  {
    assert Walk(ts, [a]);
  }

  /** A step to a listed neighbour followed by a walk is a walk. */
  lemma ConnectsPrepend(ts: seq<Territory>, a: nat, b: nat, x: nat)
    requires a < |ts| && b in ts[a].neighbors && Connects(ts, b, x)
    ensures Connects(ts, a, x)
  {
    var path :| Walk(ts, path) && path[0] == b && path[|path| - 1] == x;
    var longer := [a] + path;
    forall i | 0 <= i < |longer| - 1
      ensures longer[i] < |ts| && longer[i + 1] in ts[longer[i]].neighbors
    {
      if i > 0 {
        assert longer[i] == path[i - 1] && longer[i + 1] == path[i];
      }
    }
    assert Walk(ts, longer) && longer[|longer| - 1] == x;
  }

  /** Every neighbour of a territory in `s` (by index) has been visited. */
  ghost predicate ClosedOver(ts: seq<Territory>, visited: set<nat>, s: set<nat>)
  {
    forall x, n :: x in s && x < |ts| && n in ts[x].neighbors ==> n in visited
  }

  /**
   * `island'` is `island` followed by exactly the ids visited since, each
   * once, and its hex count grew by their hexes.
   */
  ghost predicate Extends(ts: seq<Territory>, visited: set<nat>, island: Island, visited': set<nat>, island': Island)
  {
    var n := |island.territories|;
    && visited <= visited'
    && n <= |island'.territories|
    && island'.territories[..n] == island.territories
    && (forall x :: x in island'.territories[n..] <==> x in visited' && x !in visited)
    && (forall x :: x in island'.territories ==> x in visited')
    && NoDuplicates(island'.territories)
    && island'.totalHexCount == island.totalHexCount + HexTotal(ts, island'.territories[n..])
  }

  lemma ExtendsTrans(ts: seq<Territory>, v1: set<nat>, i1: Island, v2: set<nat>, i2: Island, v3: set<nat>, i3: Island)
    requires Extends(ts, v1, i1, v2, i2) && Extends(ts, v2, i2, v3, i3)
    ensures Extends(ts, v1, i1, v3, i3)
  {
    var n1, n2 := |i1.territories|, |i2.territories|;
    var t3 := i3.territories;
    assert t3[..n2][..n1] == t3[..n1];
    assert t3[n1..] == i2.territories[n1..] + t3[n2..];
    HexTotalAppend(ts, i2.territories[n1..], t3[n2..]);
  }

  /** Visiting one more id starts by appending it to the island. */
  lemma VisitExtends(ts: seq<Territory>, visited: set<nat>, island: Island, current: nat, hexes: int)
    requires current !in visited
    requires NoDuplicates(island.territories)
    requires forall x :: x in island.territories ==> x in visited
    requires hexes == if current < |ts| then |ts[current].hexes| else 0
    ensures Extends(ts, visited, island, visited + {current},
                    Island(island.territories + [current], island.totalHexCount + hexes))
  {
    var t := island.territories + [current];
    assert t[..|island.territories|] == island.territories;
    assert t[|island.territories|..] == [current];
    assert HexTotal(ts, [current]) == hexes by {
      assert [current][..0] == [];
    }
  }

  /**
   * Depth-first search from `current`: marks it and, when it names a
   * territory, every unvisited neighbour in turn, appending each id to
   * `island` as it is reached and adding its hexes to the count.
   */
  method DFSTerritory(ts: seq<Territory>, current: nat, visited: set<nat>, island: Island)
    returns (visited': set<nat>, island': Island)
    requires current in Known(ts) && current !in visited
    requires NoDuplicates(island.territories)
    requires forall x :: x in island.territories ==> x in visited
    ensures Extends(ts, visited, island, visited', island')
    ensures |island.territories| < |island'.territories| && island'.territories[|island.territories|] == current
    ensures current in visited' && visited' - visited <= Known(ts)
    ensures forall x :: x in visited' - visited ==> Connects(ts, current, x)
    ensures ClosedOver(ts, visited', visited' - visited)
    decreases Known(ts) - visited
  {
    var hexes := if current < |ts| then |ts[current].hexes| else 0;
    VisitExtends(ts, visited, island, current, hexes);
    visited' := visited + {current};
    island' := Island(island.territories + [current], island.totalHexCount + hexes);
    ConnectsSelf(ts, current);
    if current >= |ts| {
      return;
    }
    ghost var entered := visited';
    var neighbors := ts[current].neighbors;
    var k := 0;
    while k < |neighbors|
      invariant 0 <= k <= |neighbors|
      invariant Extends(ts, visited, island, visited', island')
      invariant |island.territories| < |island'.territories| && island'.territories[|island.territories|] == current
      invariant entered <= visited' && visited' - visited <= Known(ts)
      invariant forall x :: x in visited' - visited ==> Connects(ts, current, x)
      invariant forall m :: 0 <= m < k ==> neighbors[m] in visited'
      invariant ClosedOver(ts, visited', visited' - entered)
    {
      var neighborId := neighbors[k];
      if neighborId !in visited' {
        assert neighborId in Known(ts) by {
          assert ts[current].neighbors[k] == neighborId;
        }
        assert current in Known(ts) - visited && current !in Known(ts) - visited';
        var v, i := DFSTerritory(ts, neighborId, visited', island');
        ExtendsTrans(ts, visited, island, visited', island', v, i);
        assert i.territories[|island.territories|] == island'.territories[|island.territories|];
        forall x | x in v - visited
          ensures Connects(ts, current, x)
        {
          if x !in visited' {
            ConnectsPrepend(ts, current, neighborId, x);
          }
        }
        visited', island' := v, i;
      }
      k := k + 1;
    }
  }

  /**
   * The islands found so far: they cover exactly `visited`, are non-empty,
   * pairwise disjoint and closed, and each carries its hex count.
   */
  ghost predicate IslandsSoFar(ts: seq<Territory>, islands: seq<Island>, visited: set<nat>)
  {
    && (forall x :: x in visited <==> exists j :: 0 <= j < |islands| && x in islands[j].territories)
    && (forall j :: 0 <= j < |islands| ==> IslandWellFormed(ts, islands[j]))
    && (forall j :: 0 <= j < |islands| ==> IslandConnected(ts, islands[j]))
    && (forall j1, j2, x :: 0 <= j1 < j2 < |islands| && x in islands[j1].territories ==> x !in islands[j2].territories)
    && visited <= Known(ts)
    && (SymmetricNeighbors(ts) ==> forall j :: 0 <= j < |islands| ==> IslandClosed(ts, islands[j]))
  }

  /** One island: non-empty, no repeated id, and its hex count is that of its territories. */
  ghost predicate IslandWellFormed(ts: seq<Territory>, island: Island)
  {
    |island.territories| > 0 && NoDuplicates(island.territories)
    && island.totalHexCount == HexTotal(ts, island.territories)
  }

  /** Every member is reached from the island's first territory through neighbour lists. */
  ghost predicate IslandConnected(ts: seq<Territory>, island: Island)
  {
    |island.territories| > 0 && forall x :: x in island.territories ==> Connects(ts, island.territories[0], x)
  }

  /** Every neighbour of a member territory is a member. */
  ghost predicate IslandClosed(ts: seq<Territory>, island: Island)
  {
    forall x, n :: x in island.territories && x < |ts| && n in ts[x].neighbors ==> n in island.territories
  }

  /**
   * Splits the territories into islands: one search from every territory
   * not yet reached, in board order. Every territory's id lies in exactly
   * one island, and with symmetric neighbour lists every island is closed
   * under the neighbour relation.
   */
  method FindIslands(ts: seq<Territory>) returns (islands: seq<Island>)
    ensures AreIslands(ts, islands)
  {
    islands := [];
    var visited: set<nat> := {};
    assert IslandsSoFar(ts, islands, visited);
    var i := 0;
    while i < |ts|
      invariant 0 <= i <= |ts|
      invariant IslandsSoFar(ts, islands, visited)
      invariant forall k :: 0 <= k < i ==> ts[k].id in visited
    {
      islands, visited := SearchFrom(ts, islands, visited, i);
      i := i + 1;
    }
    IslandsDone(ts, islands, visited);
  }

  /**
   * One step of the scan: when territory `i` is not yet visited, one more
   * island, everything reachable from it.
   */
  method SearchFrom(ts: seq<Territory>, islands: seq<Island>, visited: set<nat>, i: nat)
    returns (islands': seq<Island>, visited': set<nat>)
    requires IslandsSoFar(ts, islands, visited)
    requires i < |ts| && forall k :: 0 <= k < i ==> ts[k].id in visited
    ensures IslandsSoFar(ts, islands', visited')
    ensures forall k :: 0 <= k < i + 1 ==> ts[k].id in visited'
  {
    var start := ts[i].id;
    if start in visited {
      return islands, visited;
    }
    assert start in Known(ts);
    var v, island := DFSTerritory(ts, start, visited, Island([], 0));
    assert start in v - visited;
    NewIslandConnected(ts, visited, v, island, start);
    AddIsland(ts, islands, visited, v, island);
    islands', visited' := islands + [island], v;
  }

  lemma IslandsDone(ts: seq<Territory>, islands: seq<Island>, visited: set<nat>)
    requires IslandsSoFar(ts, islands, visited)
    requires forall k :: 0 <= k < |ts| ==> ts[k].id in visited
    ensures AreIslands(ts, islands)
  {
    forall j, x | 0 <= j < |islands| && x in islands[j].territories
      ensures x in Known(ts)
    {
      assert x in visited;
    }
  }

  /** What `FindIslands` promises. */
  ghost predicate AreIslands(ts: seq<Territory>, islands: seq<Island>)
  {
    && (forall i :: 0 <= i < |ts| ==> exists j :: 0 <= j < |islands| && ts[i].id in islands[j].territories)
    && (forall j :: 0 <= j < |islands| ==> IslandWellFormed(ts, islands[j]))
    && (forall j :: 0 <= j < |islands| ==> IslandConnected(ts, islands[j]))
    && (forall j1, j2, x :: 0 <= j1 < j2 < |islands| && x in islands[j1].territories ==> x !in islands[j2].territories)
    && (forall j, x :: 0 <= j < |islands| && x in islands[j].territories ==> x in Known(ts))
    && (SymmetricNeighbors(ts) ==> forall j :: 0 <= j < |islands| ==> IslandClosed(ts, islands[j]))
  }

  /** A walk that starts inside a closed island never leaves it. */
  lemma {:induction false} WalkStaysIn(ts: seq<Territory>, island: Island, path: seq<nat>)
    requires IslandClosed(ts, island) && Walk(ts, path) && path[0] in island.territories
    ensures forall i :: 0 <= i < |path| ==> path[i] in island.territories
  {
    if |path| > 1 {
      var last := |path| - 1;
      var init := path[..last];
      assert Walk(ts, init) by {
        forall i | 0 <= i < |init| - 1
          ensures init[i] < |ts| && init[i + 1] in ts[init[i]].neighbors
        {
          assert init[i] == path[i] && init[i + 1] == path[i + 1];
        }
      }
      WalkStaysIn(ts, island, init);
      forall i | 0 <= i < |path|
        ensures path[i] in island.territories
      {
        if i < last {
          assert init[i] == path[i];
        } else {
          assert init[last - 1] == path[last - 1];
          assert path[last] in ts[path[last - 1]].neighbors;
        }
      }
    }
  }

  /**
   * With symmetric neighbour lists each island is a whole connected
   * component: its members are exactly the ids reached from its first
   * territory through neighbour lists.
   */
  lemma IslandIsComponent(ts: seq<Territory>, islands: seq<Island>, j: nat)
    requires AreIslands(ts, islands) && SymmetricNeighbors(ts) && j < |islands|
    ensures |islands[j].territories| > 0
    ensures forall x :: x in islands[j].territories <==> Connects(ts, islands[j].territories[0], x)
  {
    var island := islands[j];
    assert IslandConnected(ts, island) && IslandClosed(ts, island);
    forall x | Connects(ts, island.territories[0], x)
      ensures x in island.territories
    {
      var path :| Walk(ts, path) && path[0] == island.territories[0] && path[|path| - 1] == x;
      WalkStaysIn(ts, island, path);
    }
  }

  /** A finished search adds a well-formed island, disjoint from and closed like the earlier ones. */
  lemma AddIsland(ts: seq<Territory>, islands: seq<Island>, visited: set<nat>, visited': set<nat>, island: Island)
    requires IslandsSoFar(ts, islands, visited)
    requires Extends(ts, visited, Island([], 0), visited', island)
    requires IslandConnected(ts, island)
    requires ClosedOver(ts, visited', visited' - visited)
    requires visited' <= Known(ts) && visited' != visited
    ensures IslandsSoFar(ts, islands + [island], visited')
  {
    var all := islands + [island];
    NewIslandWellFormed(ts, visited, visited', island);
    AddIslandCovers(ts, islands, visited, visited', island);
    AddIslandDisjoint(ts, islands, visited, visited', island);
    forall j | 0 <= j < |all| ensures IslandWellFormed(ts, all[j]) && IslandConnected(ts, all[j]) {
      if j < |islands| {
        assert all[j] == islands[j];
      }
    }
    if SymmetricNeighbors(ts) {
      IslandsCloseVisited(ts, islands, visited);
      NewIslandClosed(ts, visited, visited', island);
      forall j | 0 <= j < |all| ensures IslandClosed(ts, all[j]) {
        if j < |islands| {
          assert all[j] == islands[j];
        }
      }
    }
  }

  /** A search from `start` that began with an empty island yields an island reached from `start`. */
  lemma NewIslandConnected(ts: seq<Territory>, visited: set<nat>, visited': set<nat>, island: Island, start: nat)
    requires Extends(ts, visited, Island([], 0), visited', island)
    requires 0 < |island.territories| && island.territories[0] == start
    requires forall x :: x in visited' - visited ==> Connects(ts, start, x)
    ensures IslandConnected(ts, island)
  {
    assert island.territories[0..] == island.territories;
  }

  lemma NewIslandWellFormed(ts: seq<Territory>, visited: set<nat>, visited': set<nat>, island: Island)
    requires Extends(ts, visited, Island([], 0), visited', island)
    requires visited' != visited
    ensures IslandWellFormed(ts, island)
    ensures forall x :: x in island.territories <==> x in visited' && x !in visited
  {
    assert island.territories[0..] == island.territories;
    var x :| x in visited' && x !in visited;
    assert x in island.territories[0..];
  }

  lemma AddIslandCovers(ts: seq<Territory>, islands: seq<Island>, visited: set<nat>, visited': set<nat>, island: Island)
    requires forall x :: x in visited <==> exists j :: 0 <= j < |islands| && x in islands[j].territories
    requires visited <= visited'
    requires forall x :: x in island.territories <==> x in visited' && x !in visited
    ensures forall x :: x in visited' <==> exists j :: 0 <= j < |islands + [island]| && x in (islands + [island])[j].territories
  {
    var all := islands + [island];
    forall x | x in visited'
      ensures exists j :: 0 <= j < |all| && x in all[j].territories
    {
      if x in visited {
        var j :| 0 <= j < |islands| && x in islands[j].territories;
        assert all[j] == islands[j];
      } else {
        assert all[|islands|] == island;
      }
    }
    forall x, j | 0 <= j < |all| && x in all[j].territories
      ensures x in visited'
    {
      if j < |islands| {
        assert all[j] == islands[j];
      }
    }
  }

  lemma AddIslandDisjoint(ts: seq<Territory>, islands: seq<Island>, visited: set<nat>, visited': set<nat>, island: Island)
    requires forall x :: x in visited <==> exists j :: 0 <= j < |islands| && x in islands[j].territories
    requires forall j1, j2, x :: 0 <= j1 < j2 < |islands| && x in islands[j1].territories ==> x !in islands[j2].territories
    requires forall x :: x in island.territories <==> x in visited' && x !in visited
    ensures var all := islands + [island];
      forall j1, j2, x :: 0 <= j1 < j2 < |all| && x in all[j1].territories ==> x !in all[j2].territories
  {
    var all := islands + [island];
    forall j1, j2, x | 0 <= j1 < j2 < |all| && x in all[j1].territories
      ensures x !in all[j2].territories
    {
      assert all[j1] == islands[j1];
      if j2 < |islands| {
        assert all[j2] == islands[j2];
      }
    }
  }

  /** With symmetric neighbour lists, what a search adds to a closed visited set is closed. */
  lemma NewIslandClosed(ts: seq<Territory>, visited: set<nat>, visited': set<nat>, island: Island)
    requires SymmetricNeighbors(ts)
    requires ClosedOver(ts, visited, visited) && visited <= visited'
    requires ClosedOver(ts, visited', visited' - visited)
    requires forall x :: x in island.territories <==> x in visited' && x !in visited
    ensures IslandClosed(ts, island)
  {
    forall x, n | x in island.territories && x < |ts| && n in ts[x].neighbors
      ensures n in island.territories
    {
      assert ListsBack(ts, x, n);
    }
  }

  /** Closed islands that cover `visited` leave nothing unvisited next to it. */
  lemma IslandsCloseVisited(ts: seq<Territory>, islands: seq<Island>, visited: set<nat>)
    requires forall x :: x in visited <==> exists j :: 0 <= j < |islands| && x in islands[j].territories
    requires forall j :: 0 <= j < |islands| ==> IslandClosed(ts, islands[j])
    ensures ClosedOver(ts, visited, visited)
  {
    forall x, n | x in visited && x < |ts| && n in ts[x].neighbors
      ensures n in visited
    {
      var j :| 0 <= j < |islands| && x in islands[j].territories;
      assert n in islands[j].territories;
    }
  }

  /** Island `largest` has the most hexes, and no island before it has as many. */
  predicate IsLargest(islands: seq<Island>, largest: nat)
  {
    && largest < |islands|
    && (forall i :: 0 <= i < |islands| ==> islands[i].totalHexCount <= islands[largest].totalHexCount)
    && (forall i :: 0 <= i < largest ==> islands[i].totalHexCount < islands[largest].totalHexCount)
  }

  /** Scans for the island with the most hexes; a later island only wins with strictly more. */
  method FindLargestIsland(islands: seq<Island>) returns (largestIdx: nat)
    requires |islands| > 0
    ensures IsLargest(islands, largestIdx)
  {
    largestIdx := 0;
    var i := 1;
    while i < |islands|
      invariant 1 <= i <= |islands| && largestIdx < i
      invariant forall k :: 0 <= k < i ==> islands[k].totalHexCount <= islands[largestIdx].totalHexCount
      invariant forall k :: 0 <= k < largestIdx ==> islands[k].totalHexCount < islands[largestIdx].totalHexCount
    {
      if islands[i].totalHexCount > islands[largestIdx].totalHexCount {
        largestIdx := i;
      }
      i := i + 1;
    }
  }

  /** The largest island is determined: first on ties. */
  lemma LargestIsUnique(islands: seq<Island>, a: nat, b: nat)
    requires IsLargest(islands, a) && IsLargest(islands, b)
    ensures a == b
  {
    assert islands[a].totalHexCount == islands[b].totalHexCount;
  }

  /** The ids of every island but `keep`, island by island. */
  function OtherIds(islands: seq<Island>, keep: nat): seq<nat>
  {
    if |islands| == 0 then []
    else OtherIds(islands[..|islands| - 1], keep)
         + (if |islands| - 1 == keep then [] else islands[|islands| - 1].territories)
  }

  /** The cells of a list of hexes. */
  function HexSet(hexes: seq<Hex>): set<Hex>
  {
    set h | h in hexes
  }

  /** The hexes of the territories named by `ids`; ids past the end name none. */
  function HexesOf(ts: seq<Territory>, ids: seq<nat>): set<Hex>
  {
    if |ids| == 0 then {}
    else HexesOf(ts, ids[..|ids| - 1])
         + (if ids[|ids| - 1] < |ts| then HexSet(ts[ids[|ids| - 1]].hexes) else {})
  }

  /** Takes each of `hexes` out of the index, one at a time. */
  method EraseHexes(state: GameState, hexes: seq<Hex>)
    modifies state`hexToTerritory
    ensures state.hexToTerritory == old(state.hexToTerritory) - HexSet(hexes)
  {
    var k := 0;
    while k < |hexes|
      invariant 0 <= k <= |hexes|
      invariant state.hexToTerritory == old(state.hexToTerritory) - HexSet(hexes[..k])
    {
      assert HexSet(hexes[..k + 1]) == HexSet(hexes[..k]) + {hexes[k]} by {
        assert hexes[..k + 1] == hexes[..k] + [hexes[k]];
      }
      state.hexToTerritory := state.hexToTerritory - {hexes[k]};
      k := k + 1;
    }
    WholePrefix(hexes);
  }

  lemma {:induction false} HexesOfAppend(ts: seq<Territory>, a: seq<nat>, b: seq<nat>)
    ensures HexesOf(ts, a + b) == HexesOf(ts, a) + HexesOf(ts, b)
  {
    if |b| > 0 {
      assert (a + b)[..|a + b| - 1] == a + b[..|b| - 1];
      HexesOfAppend(ts, a, b[..|b| - 1]);
    } else {
      assert a + b == a;
    }
  }

  /** Takes the hexes of one island's territories out of the index. */
  method EraseIsland(state: GameState, members: seq<nat>)
    modifies state`hexToTerritory
    ensures state.hexToTerritory == old(state.hexToTerritory) - HexesOf(state.territories, members)
  {
    var k := 0;
    while k < |members|
      invariant 0 <= k <= |members|
      invariant state.hexToTerritory == old(state.hexToTerritory) - HexesOf(state.territories, members[..k])
    {
      var tid := members[k];
      var territory := state.GetTerritory(tid);
      if territory.Some? {
        EraseHexes(state, territory.value.hexes);
      }
      PrefixStep(members, k);
      k := k + 1;
    }
    WholePrefix(members);
  }

  /**
   * Lists the territories of every island but `largest` and takes their
   * hexes out of the index; the territory list itself is not touched yet.
   */
  method RemoveOtherIslands(state: GameState, islands: seq<Island>, largest: nat) returns (removed: seq<nat>)
    modifies state`hexToTerritory
    ensures removed == OtherIds(islands, largest)
    ensures state.hexToTerritory == old(state.hexToTerritory) - HexesOf(state.territories, removed)
  {
    removed := [];
    var i := 0;
    while i < |islands|
      invariant 0 <= i <= |islands|
      invariant removed == OtherIds(islands[..i], largest)
      invariant state.hexToTerritory == old(state.hexToTerritory) - HexesOf(state.territories, removed)
    {
      PrefixStep(islands, i);
      if i != largest {
        var members := islands[i].territories;
        EraseIsland(state, members);
        HexesOfAppend(state.territories, removed, members);
        removed := removed + members;
      }
      i := i + 1;
    }
    WholePrefix(islands);
  }

  /** The kept territories in board order, each renumbered by its new position. */
  function Compacted(ts: seq<Territory>, keep: set<nat>): seq<Territory>
  {
    if |ts| == 0 then []
    else
      var rest := Compacted(ts[..|ts| - 1], keep);
      if ts[|ts| - 1].id in keep then rest + [ts[|ts| - 1].(id := |rest|)] else rest
  }

  /** Old id to new id, for every kept territory. */
  function NewIds(ts: seq<Territory>, keep: set<nat>): map<nat, nat>
  {
    if |ts| == 0 then map[]
    else
      var before := ts[..|ts| - 1];
      if ts[|ts| - 1].id in keep then NewIds(before, keep)[ts[|ts| - 1].id := |Compacted(before, keep)|]
      else NewIds(before, keep)
  }

  /** Rebuilds the territory list from the kept territories, numbering them 0, 1, ... in board order. */
  method CompactTerritories(ts: seq<Territory>, keep: set<nat>) returns (kept: seq<Territory>, idRemap: map<nat, nat>)
    ensures kept == Compacted(ts, keep) && idRemap == NewIds(ts, keep)
  {
    kept, idRemap := [], map[];
    var newId := 0;
    var i := 0;
    while i < |ts|
      invariant 0 <= i <= |ts|
      invariant kept == Compacted(ts[..i], keep) && idRemap == NewIds(ts[..i], keep)
      invariant newId == |kept|
    {
      PrefixStep(ts, i);
      if ts[i].id in keep {
        idRemap := idRemap[ts[i].id := newId];
        kept := kept + [ts[i].(id := newId)];
        newId := newId + 1;
      }
      i := i + 1;
    }
    WholePrefix(ts);
  }

  /** The new ids of the listed neighbours that were kept, in list order. */
  function RemapIds(remap: map<nat, nat>, ns: seq<nat>): seq<nat>
  {
    if |ns| == 0 then []
    else RemapIds(remap, ns[..|ns| - 1]) + (if ns[|ns| - 1] in remap then [remap[ns[|ns| - 1]]] else [])
  }

  /** Rewrites one neighbour list through the remap table, dropping ids it does not hold. */
  method RemapList(remap: map<nat, nat>, ns: seq<nat>) returns (newNeighbors: seq<nat>)
    ensures newNeighbors == RemapIds(remap, ns)
  {
    newNeighbors := [];
    var k := 0;
    while k < |ns|
      invariant 0 <= k <= |ns|
      invariant newNeighbors == RemapIds(remap, ns[..k])
    {
      PrefixStep(ns, k);
      if ns[k] in remap {
        newNeighbors := newNeighbors + [remap[ns[k]]];
      }
      k := k + 1;
    }
    WholePrefix(ns);
  }

  /** The kept territories with their neighbour lists rewritten to new ids. */
  function Pruned(ts: seq<Territory>, keep: set<nat>): seq<Territory>
  {
    var kept, remap := Compacted(ts, keep), NewIds(ts, keep);
    seq(|kept|, p requires 0 <= p < |kept| => kept[p].(neighbors := RemapIds(remap, kept[p].neighbors)))
  }

  /** Rewrites every neighbour list of `kept` through the remap table. */
  method RemapNeighborLists(kept: seq<Territory>, remap: map<nat, nat>) returns (result: seq<Territory>)
    ensures |result| == |kept|
    ensures forall p :: 0 <= p < |kept| ==> result[p] == kept[p].(neighbors := RemapIds(remap, kept[p].neighbors))
  {
    result := kept;
    var p := 0;
    while p < |result|
      invariant 0 <= p <= |result| && |result| == |kept|
      invariant forall q :: 0 <= q < p ==> result[q] == kept[q].(neighbors := RemapIds(remap, kept[q].neighbors))
      invariant forall q :: p <= q < |result| ==> result[q] == kept[q]
    {
      var newNeighbors := RemapList(remap, result[p].neighbors);
      result := result[p := result[p].(neighbors := newNeighbors)];
      p := p + 1;
    }
  }

  /** The index with every id that has a new number replaced by it. */
  function Relabel(index: map<Hex, nat>, remap: map<nat, nat>): map<Hex, nat>
  {
    map c | c in index :: if index[c] in remap then remap[index[c]] else index[c]
  }

  /** Rewrites the index entries in place, one cell at a time. */
  method RelabelIndex(state: GameState, remap: map<nat, nat>)
    modifies state`hexToTerritory
    ensures state.hexToTerritory == Relabel(old(state.hexToTerritory), remap)
  {
    ghost var original := state.hexToTerritory;
    var todo := state.hexToTerritory.Keys;
    while todo != {}
      invariant todo <= original.Keys
      invariant state.hexToTerritory.Keys == original.Keys
      invariant forall c :: c in original && c !in todo ==> state.hexToTerritory[c] == Relabel(original, remap)[c]
      invariant forall c :: c in todo ==> state.hexToTerritory[c] == original[c]
      decreases todo
    {
      var c :| c in todo;
      var oldId := state.hexToTerritory[c];
      if oldId in remap {
        state.hexToTerritory := state.hexToTerritory[c := remap[oldId]];
      }
      todo := todo - {c};
    }
  }

  /**
   * Keeps only the island with the most hexes (the first one on ties):
   * with at most one island nothing changes and nothing is returned;
   * otherwise the other islands' ids are returned, their hexes leave the
   * index, and the kept territories are renumbered 0..N-1 in board order,
   * with neighbour lists and index entries rewritten to the new ids.
   */
  method KeepLargestIslandOnly(state: GameState) returns (removed: seq<nat>, ghost islands: seq<Island>, ghost largest: nat)
    modifies state`territories, state`hexToTerritory
    ensures AreIslands(old(state.territories), islands)
    ensures |islands| <= 1 ==> removed == [] && state.territories == old(state.territories)
                                && state.hexToTerritory == old(state.hexToTerritory)
    ensures |islands| > 1 ==> IsLargest(islands, largest)
    ensures |islands| > 1 ==>
      var keep := KeptSet(islands, largest);
      && removed == OtherIds(islands, largest)
      && state.territories == Pruned(old(state.territories), keep)
      && state.hexToTerritory == Relabel(old(state.hexToTerritory) - HexesOf(old(state.territories), removed),
                                         NewIds(old(state.territories), keep))
  {
    var found := FindIslands(state.territories);
    islands, largest := found, 0;
    if |found| <= 1 {
      return [], islands, largest;
    }
    var largestIdx := FindLargestIsland(found);
    largest := largestIdx;
    removed := PruneToIsland(state, found, largestIdx);
  }

  /**
   * Drops every island but `found[largestIdx]`: their hexes leave the
   * index, and the kept territories are renumbered with their neighbour
   * lists and index entries rewritten.
   */
  method PruneToIsland(state: GameState, found: seq<Island>, largestIdx: nat) returns (removed: seq<nat>)
    requires largestIdx < |found|
    modifies state`territories, state`hexToTerritory
    ensures var keep := KeptSet(found, largestIdx);
      && removed == OtherIds(found, largestIdx)
      && state.territories == Pruned(old(state.territories), keep)
      && state.hexToTerritory == Relabel(old(state.hexToTerritory) - HexesOf(old(state.territories), removed),
                                         NewIds(old(state.territories), keep))
  {
    var keepSet := set x | x in found[largestIdx].territories;
    removed := RemoveOtherIslands(state, found, largestIdx);
    var keptTerritories, idRemap := CompactTerritories(state.territories, keepSet);
    keptTerritories := RemapNeighborLists(keptTerritories, idRemap);
    RelabelIndex(state, idRemap);
    state.territories := keptTerritories;
  }

  /** The ids of the kept island. */
  function KeptSet(islands: seq<Island>, largest: nat): set<nat>
    requires largest < |islands|
  {
    set x | x in islands[largest].territories
  }

  /** Board positions of the kept territories, in order. */
  function KeptPositions(ts: seq<Territory>, keep: set<nat>): seq<nat>
  {
    if |ts| == 0 then []
    else KeptPositions(ts[..|ts| - 1], keep) + (if ts[|ts| - 1].id in keep then [|ts| - 1] else [])
  }

  /**
   * Compaction keeps exactly the territories whose id is kept, in board
   * order, and gives the one that came from position `o` the new id `p`,
   * which is also what the remap table maps `o` to.
   */
  lemma {:induction false} CompactedShape(ts: seq<Territory>, keep: set<nat>)
    requires IdsAreIndices(ts)
    ensures var c, o, r := Compacted(ts, keep), KeptPositions(ts, keep), NewIds(ts, keep);
      && |c| == |o|
      && (forall p :: 0 <= p < |o| ==> o[p] < |ts| && o[p] in keep && c[p] == ts[o[p]].(id := p))
      && (forall p :: 0 <= p < |o| ==> o[p] in r && r[o[p]] == p)
      && (forall p, q :: 0 <= p < q < |o| ==> o[p] < o[q])
      && (forall x :: x in r <==> x < |ts| && x in keep)
      && (forall x :: x in r ==> r[x] < |o| && o[r[x]] == x)
  {
    if |ts| > 0 {
      var n := |ts| - 1;
      var init := ts[..n];
      assert IdsAreIndices(init) by {
        forall i | 0 <= i < |init|
          ensures init[i].id == i
        {
          assert init[i] == ts[i];
        }
      }
      CompactedShape(init, keep);
      assert ts[n].id == n;
    }
  }

  lemma {:induction false} RemapIdsHas(remap: map<nat, nat>, ns: seq<nat>, n: nat)
    requires n in ns && n in remap
    ensures remap[n] in RemapIds(remap, ns)
  {
    var last := |ns| - 1;
    if ns[last] != n {
      assert n in ns[..last] by {
        var k :| 0 <= k < |ns| && ns[k] == n;
        assert k < last && ns[..last][k] == n;
      }
      RemapIdsHas(remap, ns[..last], n);
    }
  }

  lemma {:induction false} RemapIdsFrom(remap: map<nat, nat>, ns: seq<nat>, y: nat)
    requires y in RemapIds(remap, ns)
    ensures exists n :: n in ns && n in remap && remap[n] == y
  {
    var last := |ns| - 1;
    if y in RemapIds(remap, ns[..last]) {
      RemapIdsFrom(remap, ns[..last], y);
      var n :| n in ns[..last] && n in remap && remap[n] == y;
      assert n in ns;
    } else {
      assert ns[last] in ns;
    }
  }

  /** When every listed id has a new number, the rewritten list is as long as the old one. */
  lemma {:induction false} RemapIdsKeepsAll(remap: map<nat, nat>, ns: seq<nat>)
    requires forall n :: n in ns ==> n in remap
    ensures |RemapIds(remap, ns)| == |ns|
  {
    if |ns| > 0 {
      var last := |ns| - 1;
      assert forall n :: n in ns[..last] ==> n in ns;
      RemapIdsKeepsAll(remap, ns[..last]);
      assert ns[last] in ns;
    }
  }

  /** After pruning, every territory's id is its position. */
  lemma PrunedIdsAreIndices(ts: seq<Territory>, keep: set<nat>)
    requires IdsAreIndices(ts)
    ensures IdsAreIndices(Pruned(ts, keep))
  {
    CompactedShape(ts, keep);
  }

  /**
   * The pruned list is the kept territories in their original order: the
   * one at new position `p` came from position `KeptPositions(ts, keep)[p]`, has
   * id `p` and keeps its owner, dice and hexes.
   */
  lemma PrunedKeepsOrder(ts: seq<Territory>, keep: set<nat>)
    requires IdsAreIndices(ts)
    ensures var P, o := Pruned(ts, keep), KeptPositions(ts, keep);
      && |P| == |o|
      && (forall i :: 0 <= i < |ts| ==> (i in keep <==> i in o))
      && (forall p, q :: 0 <= p < q < |o| ==> o[p] < o[q])
      && (forall p :: 0 <= p < |P| ==> o[p] < |ts| && P[p] == ts[o[p]].(id := p, neighbors := P[p].neighbors))
  {
    CompactedShape(ts, keep);
    var o, r := KeptPositions(ts, keep), NewIds(ts, keep);
    forall i | 0 <= i < |ts| && i in keep
      ensures i in o
    {
      assert o[r[i]] == i;
    }
  }

  /** Rewritten neighbour lists only name territories that are still there. */
  lemma PrunedNeighborsInRange(ts: seq<Territory>, keep: set<nat>)
    requires IdsAreIndices(ts)
    ensures var P := Pruned(ts, keep);
      forall p, n :: 0 <= p < |P| && n in P[p].neighbors ==> n < |P|
  {
    CompactedShape(ts, keep);
    var P, r := Pruned(ts, keep), NewIds(ts, keep);
    forall p, n | 0 <= p < |P| && n in P[p].neighbors
      ensures n < |P|
    {
      RemapIdsFrom(r, Compacted(ts, keep)[p].neighbors, n);
    }
  }

  /** Symmetric neighbour lists stay symmetric through pruning. */
  lemma PrunedSymmetric(ts: seq<Territory>, keep: set<nat>)
    requires IdsAreIndices(ts) && SymmetricNeighbors(ts)
    ensures SymmetricNeighbors(Pruned(ts, keep))
  {
    CompactedShape(ts, keep);
    var P, c, o, r := Pruned(ts, keep), Compacted(ts, keep), KeptPositions(ts, keep), NewIds(ts, keep);
    forall p, j | 0 <= p < |P| && j in P[p].neighbors
      ensures ListsBack(P, p, j)
    {
      RemapIdsFrom(r, c[p].neighbors, j);
      var n :| n in c[p].neighbors && n in r && r[n] == j;
      assert c[p].neighbors == ts[o[p]].neighbors;
      assert ListsBack(ts, o[p], n);
      assert o[j] == n;
      assert c[j].neighbors == ts[n].neighbors;
      RemapIdsHas(r, ts[n].neighbors, o[p]);
    }
  }

  /** With symmetric lists the kept island is closed, so no kept territory loses a neighbour. */
  lemma KeptIslandLosesNoNeighbor(ts: seq<Territory>, islands: seq<Island>, largest: nat)
    requires IdsAreIndices(ts) && SymmetricNeighbors(ts)
    requires AreIslands(ts, islands) && largest < |islands|
    ensures var keep := KeptSet(islands, largest);
      var P, o := Pruned(ts, keep), KeptPositions(ts, keep);
      |P| == |o| && forall p :: 0 <= p < |P| ==> o[p] < |ts| && |P[p].neighbors| == |ts[o[p]].neighbors|
  {
    var keep := KeptSet(islands, largest);
    CompactedShape(ts, keep);
    var P, o, r := Pruned(ts, keep), KeptPositions(ts, keep), NewIds(ts, keep);
    forall p | 0 <= p < |P|
      ensures o[p] < |ts| && |P[p].neighbors| == |ts[o[p]].neighbors|
    {
      var i := o[p];
      assert i in islands[largest].territories;
      forall n | n in ts[i].neighbors
        ensures n in r
      {
        assert IslandClosed(ts, islands[largest]);
        assert ListsBack(ts, i, n);
      }
      RemapIdsKeepsAll(r, ts[i].neighbors);
    }
  }

  lemma {:induction false} OtherIdsMembers(islands: seq<Island>, keep: nat, x: nat)
    ensures x in OtherIds(islands, keep)
        <==> exists j :: 0 <= j < |islands| && j != keep && x in islands[j].territories
  {
    if |islands| > 0 {
      var n := |islands| - 1;
      var init := islands[..n];
      OtherIdsMembers(init, keep, x);
      if x in OtherIds(init, keep) {
        var j :| 0 <= j < |init| && j != keep && x in init[j].territories;
        assert islands[j] == init[j];
      }
      if exists j :: 0 <= j < |islands| && j != keep && x in islands[j].territories {
        var j :| 0 <= j < |islands| && j != keep && x in islands[j].territories;
        if j < n {
          assert init[j] == islands[j];
        }
      }
    }
  }

  /** Different islands' ids, each island without repeats, give a list without repeats. */
  lemma {:induction false} OtherIdsNoDuplicates(islands: seq<Island>, keep: nat)
    requires forall j :: 0 <= j < |islands| ==> NoDuplicates(islands[j].territories)
    requires forall j1, j2, x :: 0 <= j1 < j2 < |islands| && x in islands[j1].territories ==> x !in islands[j2].territories
    ensures NoDuplicates(OtherIds(islands, keep))
  {
    if |islands| > 0 {
      var n := |islands| - 1;
      var init := islands[..n];
      assert forall j :: 0 <= j < |init| ==> init[j] == islands[j];
      OtherIdsNoDuplicates(init, keep);
      if n != keep {
        forall x | x in OtherIds(init, keep)
          ensures x !in islands[n].territories
        {
          OtherIdsMembers(init, keep, x);
        }
        NoDuplicatesConcat(OtherIds(init, keep), islands[n].territories);
      }
    }
  }

  /**
   * The returned ids are exactly the territories outside the kept island,
   * each listed once.
   */
  lemma RemovedAreTheOthers(ts: seq<Territory>, islands: seq<Island>, largest: nat)
    requires IdsAreIndices(ts) && AreIslands(ts, islands) && largest < |islands|
    ensures forall i :: 0 <= i < |ts| ==> (i in OtherIds(islands, largest) <==> i !in KeptSet(islands, largest))
    ensures NoDuplicates(OtherIds(islands, largest))
  {
    forall i | 0 <= i < |ts|
      ensures i in OtherIds(islands, largest) <==> i !in KeptSet(islands, largest)
    {
      OtherIdsMembers(islands, largest, i);
      assert ts[i].id == i;
      var j :| 0 <= j < |islands| && i in islands[j].territories;
      if exists k :: 0 <= k < |islands| && k != largest && i in islands[k].territories {
        var k :| 0 <= k < |islands| && k != largest && i in islands[k].territories;
        assert i !in islands[largest].territories;
      }
    }
    forall j | 0 <= j < |islands|
      ensures NoDuplicates(islands[j].territories)
    {
      assert IslandWellFormed(ts, islands[j]);
    }
    OtherIdsNoDuplicates(islands, largest);
  }

  lemma {:induction false} HexesOfMembers(ts: seq<Territory>, ids: seq<nat>, h: Hex)
    ensures h in HexesOf(ts, ids) <==> exists i :: i in ids && i < |ts| && h in ts[i].hexes
  {
    if |ids| > 0 {
      var n := |ids| - 1;
      HexesOfMembers(ts, ids[..n], h);
      if exists i :: i in ids[..n] && i < |ts| && h in ts[i].hexes {
        var i :| i in ids[..n] && i < |ts| && h in ts[i].hexes;
        assert i in ids;
      }
      if exists i :: i in ids && i < |ts| && h in ts[i].hexes {
        var i :| i in ids && i < |ts| && h in ts[i].hexes;
        if i != ids[n] {
          var k :| 0 <= k < |ids| && ids[k] == i;
          assert ids[..n][k] == i;
        }
      }
    }
  }

  /** Erasing the other islands' hexes leaves exactly the cells of kept territories. */
  lemma ErasedLeavesKept(ts: seq<Territory>, index: map<Hex, nat>, islands: seq<Island>, largest: nat)
    requires IdsAreIndices(ts) && Partition(ts, index) && AreIslands(ts, islands) && largest < |islands|
    ensures var rest := index - HexesOf(ts, OtherIds(islands, largest));
      forall c :: c in rest <==> c in index && index[c] in KeptSet(islands, largest)
  {
    var removed := OtherIds(islands, largest);
    RemovedAreTheOthers(ts, islands, largest);
    forall c | c in index
      ensures c in HexesOf(ts, removed) <==> index[c] !in KeptSet(islands, largest)
    {
      HexesOfMembers(ts, removed, c);
      if c in HexesOf(ts, removed) {
        var i :| i in removed && i < |ts| && c in ts[i].hexes;
        assert index[c] == i;
      } else {
        assert index[c] < |ts| && c in ts[index[c]].hexes;
      }
    }
  }

  /**
   * Pruning keeps the index a partition: every remaining cell maps to the
   * new id of the kept territory holding it, and every kept territory's
   * cells map to it.
   */
  lemma PrunedPartition(ts: seq<Territory>, index: map<Hex, nat>, islands: seq<Island>, largest: nat)
    requires IdsAreIndices(ts) && Partition(ts, index) && AreIslands(ts, islands) && largest < |islands|
    ensures var keep := KeptSet(islands, largest);
      Partition(Pruned(ts, keep), Relabel(index - HexesOf(ts, OtherIds(islands, largest)), NewIds(ts, keep)))
  {
    var keep := KeptSet(islands, largest);
    ErasedLeavesKept(ts, index, islands, largest);
    RelabelledPartition(ts, index, keep, index - HexesOf(ts, OtherIds(islands, largest)));
  }

  /** Renumbering the kept territories and the cells that map to them keeps a partition. */
  lemma RelabelledPartition(ts: seq<Territory>, index: map<Hex, nat>, keep: set<nat>, rest: map<Hex, nat>)
    requires IdsAreIndices(ts) && Partition(ts, index)
    requires forall c :: c in rest <==> c in index && index[c] in keep
    requires forall c :: c in rest ==> rest[c] == index[c]
    ensures Partition(Pruned(ts, keep), Relabel(rest, NewIds(ts, keep)))
  {
    CompactedShape(ts, keep);
    RelabelledCellsSound(ts, index, keep, rest);
    RelabelledCellsComplete(ts, index, keep, rest);
    var P, o := Pruned(ts, keep), KeptPositions(ts, keep);
    forall p | 0 <= p < |P|
      ensures NoDuplicates(P[p].hexes)
    {
      assert P[p].hexes == ts[o[p]].hexes;
    }
  }

  /** Each remaining cell maps to a kept territory that holds it. */
  lemma RelabelledCellsSound(ts: seq<Territory>, index: map<Hex, nat>, keep: set<nat>, rest: map<Hex, nat>)
    requires IdsAreIndices(ts) && Partition(ts, index)
    requires forall c :: c in rest <==> c in index && index[c] in keep
    requires forall c :: c in rest ==> rest[c] == index[c]
    ensures var P, index' := Pruned(ts, keep), Relabel(rest, NewIds(ts, keep));
      forall c :: c in index' ==> index'[c] < |P| && c in P[index'[c]].hexes
  {
    CompactedShape(ts, keep);
    var P, o, r := Pruned(ts, keep), KeptPositions(ts, keep), NewIds(ts, keep);
    var index' := Relabel(rest, r);
    forall c | c in index'
      ensures index'[c] < |P| && c in P[index'[c]].hexes
    {
      var i := index[c];
      assert i in r;
      assert index'[c] == r[i] && o[r[i]] == i;
      assert P[r[i]].hexes == ts[i].hexes;
    }
  }

  /** Each cell of a kept territory maps to that territory's new id. */
  lemma RelabelledCellsComplete(ts: seq<Territory>, index: map<Hex, nat>, keep: set<nat>, rest: map<Hex, nat>)
    requires IdsAreIndices(ts) && Partition(ts, index)
    requires forall c :: c in rest <==> c in index && index[c] in keep
    requires forall c :: c in rest ==> rest[c] == index[c]
    ensures var P, index' := Pruned(ts, keep), Relabel(rest, NewIds(ts, keep));
      forall p, c :: 0 <= p < |P| && c in P[p].hexes ==> c in index' && index'[c] == p
  {
    CompactedShape(ts, keep);
    var P, o, r := Pruned(ts, keep), KeptPositions(ts, keep), NewIds(ts, keep);
    var index' := Relabel(rest, r);
    forall p, c | 0 <= p < |P| && c in P[p].hexes
      ensures c in index' && index'[c] == p
    {
      assert P[p].hexes == ts[o[p]].hexes;
      assert index[c] == o[p];
      assert c in rest;
    }
  }
}
