/**
 * The turn state machine. A controller owns the game state and moves it
 * through selecting an attacker and a target, resolving an attack, ending
 * a turn with reinforcements, and passing play to the next player still in
 * the game; after every battle it checks for knocked-out players and for a
 * winner.
 */
module GameController {
  import opened Prefixes
  import opened Wrappers
  import opened HexGrid
  import opened GameData
  import opened CombatSystem
  import opened TerritoryGenerator
  import opened PlayerAssignment
  import opened OwnedRegions
  import opened GameRules

  /** Seconds an AI player waits before each action. */
  const AI_THINK_DELAY: real := 0.5

  // ---------------------------------------------------------------------
  // Breadth-first search over one player's territories

  /** The set of entries of `s`. */
  ghost function Elems(s: seq<nat>): set<nat>
  {
    set x | x in s
  }

  /**
   * Queues the owned, not yet visited neighbours of territory `current`,
   * in neighbour order, marking each visited as it is queued.
   */
  method VisitNeighbors(ts: seq<Territory>, player: nat, current: nat, visited: set<nat>, queue: seq<nat>)
    returns (visited': set<nat>, queue': seq<nat>, ghost added: seq<nat>)
    requires current < |ts|
    ensures queue' == queue + added && visited' == visited + Elems(added)
    ensures NoDuplicates(added)
    ensures forall x :: x in added ==> OwnedBy(ts, player, x) && x !in visited && x in ts[current].neighbors
    ensures forall n :: n in ts[current].neighbors && OwnedBy(ts, player, n) ==> n in visited'
  {
    var nbrs := ts[current].neighbors;
    visited', queue', added := visited, queue, [];
    for k := 0 to |nbrs|
      invariant queue' == queue + added && visited' == visited + Elems(added)
      invariant NoDuplicates(added)
      invariant forall x :: x in added ==> OwnedBy(ts, player, x) && x !in visited && x in nbrs
      invariant forall m :: 0 <= m < k && OwnedBy(ts, player, nbrs[m]) ==> nbrs[m] in visited'
    {
      var neighbor := nbrs[k];
      if neighbor < |ts| && ts[neighbor].owner == player && neighbor !in visited' {
        visited' := visited' + {neighbor};
        queue' := queue' + [neighbor];
        added := added + [neighbor];
      }
    }
  }

  /**
   * The search invariant while exploring from `start`: the visited set is
   * what was visited before plus the territories dequeued (`region`) plus
   * those still queued, all owned and none seen twice; everything found so
   * far is reachable from `start`, and every owned neighbour of a dequeued
   * territory has been visited.
   */
  ghost predicate Exploring(ts: seq<Territory>, player: nat, start: nat, visited: set<nat>,
                            visited': set<nat>, queue: seq<nat>, region: set<nat>)
  {
    && visited' == visited + region + Elems(queue)
    && visited !! region && visited !! Elems(queue) && region !! Elems(queue)
    && NoDuplicates(queue)
    && start in region + Elems(queue)
    && (forall x :: x in visited' ==> OwnedBy(ts, player, x))
    && (forall x :: x in region + Elems(queue) ==> Reachable(ts, player, start, x))
    && ClosedInto(ts, player, region, visited')
  }

  /**
   * Explores the region of `start` breadth-first, returning the visited set
   * grown by the region and the number of territories in it. The region
   * holds `start`, only owned territories reachable from it, none visited
   * before, and every owned neighbour of the region is visited afterwards.
   */
  method ExploreRegion(ts: seq<Territory>, player: nat, start: nat, visited: set<nat>)
    returns (visited': set<nat>, regionSize: nat, ghost region: set<nat>)
    requires OwnedBy(ts, player, start) && start !in visited
    requires forall x :: x in visited ==> OwnedBy(ts, player, x)
    ensures visited' == visited + region && visited !! region
    ensures start in region && regionSize == |region|
    ensures forall x :: x in region ==> OwnedBy(ts, player, x)
    ensures Rooted(ts, player, region, start)
    ensures ClosedInto(ts, player, region, visited')
  {
    var queue: seq<nat> := [start];
    visited' := visited + {start};
    regionSize := 0;
    region := {};
    ExploreStarts(ts, player, start, visited);
    while |queue| > 0
      invariant Exploring(ts, player, start, visited, visited', queue, region)
      invariant regionSize == |region|
      decreases OwnedSet(ts, player) - visited', |queue|
    {
      regionSize := regionSize + 1;
      visited', queue, region := VisitHead(ts, player, start, visited, visited', queue, region);
    }
    ExploreEnds(ts, player, start, visited, visited', region);
  }

  /** The search starts with `start` queued and visited. */
  lemma ExploreStarts(ts: seq<Territory>, player: nat, start: nat, visited: set<nat>)
    requires OwnedBy(ts, player, start) && start !in visited
    requires forall x :: x in visited ==> OwnedBy(ts, player, x)
    ensures Exploring(ts, player, start, visited, visited + {start}, [start], {})
  {
    ReachSelf(ts, player, start);
    assert Elems([start]) == {start};
  }

  /** With the queue empty, the dequeued territories form the region of `start`. */
  lemma ExploreEnds(ts: seq<Territory>, player: nat, start: nat, visited: set<nat>, visited': set<nat>, region: set<nat>)
    requires Exploring(ts, player, start, visited, visited', [], region)
    ensures visited' == visited + region && visited !! region && start in region
    ensures forall x :: x in region ==> OwnedBy(ts, player, x)
    ensures Rooted(ts, player, region, start)
    ensures ClosedInto(ts, player, region, visited')
  {
    assert Elems([]) == {};
  }

  /**
   * One round of the search: the head of the queue joins the region and its
   * owned neighbours not yet visited join the queue. Either the visited set
   * grows or the queue shrinks.
   */
  method VisitHead(ts: seq<Territory>, player: nat, ghost start: nat, ghost visited: set<nat>,
                   visited': set<nat>, queue: seq<nat>, ghost region: set<nat>)
    returns (visited'': set<nat>, queue': seq<nat>, ghost region': set<nat>)
    requires Exploring(ts, player, start, visited, visited', queue, region) && |queue| > 0
    ensures Exploring(ts, player, start, visited, visited'', queue', region')
    ensures region' == region + {queue[0]} && queue[0] !in region
    ensures || OwnedSet(ts, player) - visited'' < OwnedSet(ts, player) - visited'
            || (OwnedSet(ts, player) - visited'' == OwnedSet(ts, player) - visited' && |queue'| < |queue|)
  {
    var current := queue[0];
    DequeueFacts(ts, player, start, visited, visited', queue, region);
    ghost var added;
    visited'', queue', added := VisitNeighbors(ts, player, current, visited', queue[1..]);
    region' := region + {current};
    ExploreStep(ts, player, start, visited, visited', queue[1..], region, current, added);
  }

  /** The head of the queue is an owned territory not yet dequeued. */
  lemma DequeueFacts(ts: seq<Territory>, player: nat, start: nat, visited: set<nat>,
                     visited': set<nat>, queue: seq<nat>, region: set<nat>)
    requires Exploring(ts, player, start, visited, visited', queue, region) && |queue| > 0
    ensures queue == [queue[0]] + queue[1..]
    ensures queue[0] < |ts| && queue[0] !in region
  {
    assert queue[0] in Elems(queue);
  }

  /** Dequeuing `current` and queueing its new owned neighbours keeps the search invariant, and shrinks the measure. */
  lemma ExploreStep(ts: seq<Territory>, player: nat, start: nat, visited: set<nat>, visited0: set<nat>,
                    queue0: seq<nat>, region0: set<nat>, current: nat, added: seq<nat>)
    requires Exploring(ts, player, start, visited, visited0, [current] + queue0, region0)
    requires current < |ts|
    requires NoDuplicates(added)
    requires forall x :: x in added ==> OwnedBy(ts, player, x) && x !in visited0 && x in ts[current].neighbors
    requires forall n :: n in ts[current].neighbors && OwnedBy(ts, player, n) ==> n in visited0 + Elems(added)
    ensures Exploring(ts, player, start, visited, visited0 + Elems(added), queue0 + added, region0 + {current})
    ensures added == [] ==> visited0 + Elems(added) == visited0
    ensures added == [] || OwnedSet(ts, player) - (visited0 + Elems(added)) < OwnedSet(ts, player) - visited0
  {
    var queue := [current] + queue0;
    assert current in Elems(queue);
    assert Reachable(ts, player, start, current);
    forall x | x in added ensures Reachable(ts, player, start, x) {
      ReachStep(ts, player, start, current, x);
    }
    assert Elems(queue0 + added) == Elems(queue0) + Elems(added);
    assert NoDuplicates(queue0 + added) by {
      assert NoDuplicates(queue0) by {
        forall i, j | 0 <= i < j < |queue0| ensures queue0[i] != queue0[j] {
          assert queue[i + 1] != queue[j + 1];
        }
      }
      forall i, j | 0 <= i < |queue0| && 0 <= j < |added| ensures queue0[i] != added[j] {
        assert queue0[i] in Elems(queue);
      }
    }
    assert current !in Elems(queue0) by {
      forall i | 0 <= i < |queue0| ensures queue0[i] != current {
        assert queue[i + 1] != queue[0];
      }
    }
    assert visited0 !! Elems(added);
    assert region0 + {current} !! Elems(queue0 + added);
    if added != [] {
      var x := added[0];
      assert x in added;
      assert x in OwnedSet(ts, player) && x !in visited0 && x in Elems(added);
    }
  }

  /**
   * The main search invariant: the regions found so far cover exactly the
   * visited territories, are disjoint, are each reached from their root,
   * and (with symmetric neighbour lists) each has no owned neighbour
   * outside itself; the visited set has no owned neighbour outside itself.
   */
  ghost predicate RegionsSoFar(ts: seq<Territory>, player: nat, regions: seq<set<nat>>, roots: seq<nat>, visited: set<nat>)
  {
    && |roots| == |regions|
    && (forall x :: x in visited <==> exists j :: 0 <= j < |regions| && x in regions[j])
    && (forall x :: x in visited ==> OwnedBy(ts, player, x))
    && (forall j :: 0 <= j < |regions| ==> Rooted(ts, player, regions[j], roots[j]))
    && (forall j1, j2 :: 0 <= j1 < j2 < |regions| ==> regions[j1] !! regions[j2])
    && ClosedInto(ts, player, visited, visited)
    && (SymmetricNeighbors(ts) ==> forall j :: 0 <= j < |regions| ==> ClosedInto(ts, player, regions[j], regions[j]))
  }

  /** Adding a freshly explored region keeps the main search invariant. */
  lemma AddRegion(ts: seq<Territory>, player: nat, regions: seq<set<nat>>, roots: seq<nat>, visited: set<nat>,
                  region: set<nat>, start: nat)
    requires RegionsSoFar(ts, player, regions, roots, visited)
    requires visited !! region && (forall x :: x in region ==> OwnedBy(ts, player, x))
    requires Rooted(ts, player, region, start)
    requires ClosedInto(ts, player, region, visited + region)
    ensures RegionsSoFar(ts, player, regions + [region], roots + [start], visited + region)
  {
    AppendCovers(regions, visited, region);
    AppendRooted(ts, player, regions, roots, region, start);
    AppendDisjoint(regions, visited, region);
    ClosedUnion(ts, player, visited, region);
    if SymmetricNeighbors(ts) {
      NewRegionClosed(ts, player, regions, roots, visited, region);
      AppendClosed(ts, player, regions, region);
    }
  }

  /** The regions with one more cover the visited set with that region added. */
  lemma AppendCovers(regions: seq<set<nat>>, visited: set<nat>, region: set<nat>)
    requires forall x :: x in visited <==> exists j :: 0 <= j < |regions| && x in regions[j]
    ensures forall x :: x in visited + region <==> exists j :: 0 <= j < |regions + [region]| && x in (regions + [region])[j]
  {
    var regions' := regions + [region];
    forall x | x in visited + region ensures exists j :: 0 <= j < |regions'| && x in regions'[j] {
      if x in region {
        assert x in regions'[|regions|];
      } else {
        var j :| 0 <= j < |regions| && x in regions[j];
        assert x in regions'[j];
      }
    }
    forall x | (exists j :: 0 <= j < |regions'| && x in regions'[j]) ensures x in visited + region {
      var j :| 0 <= j < |regions'| && x in regions'[j];
      if j < |regions| {
        assert x in regions[j];
      }
    }
  }

  /** Each region, the new one included, is reached from its root. */
  lemma AppendRooted(ts: seq<Territory>, player: nat, regions: seq<set<nat>>, roots: seq<nat>, region: set<nat>, start: nat)
    requires |roots| == |regions| && forall j :: 0 <= j < |regions| ==> Rooted(ts, player, regions[j], roots[j])
    requires Rooted(ts, player, region, start)
    ensures forall j :: 0 <= j < |regions + [region]| ==> Rooted(ts, player, (regions + [region])[j], (roots + [start])[j])
  {
    var regions', roots' := regions + [region], roots + [start];
    forall j | 0 <= j < |regions'| ensures Rooted(ts, player, regions'[j], roots'[j]) {
      if j < |regions| {
        assert regions'[j] == regions[j] && roots'[j] == roots[j];
      }
    }
  }

  /** A region disjoint from the visited set is disjoint from every earlier region. */
  lemma AppendDisjoint(regions: seq<set<nat>>, visited: set<nat>, region: set<nat>)
    requires forall x :: x in visited <==> exists j :: 0 <= j < |regions| && x in regions[j]
    requires forall j1, j2 :: 0 <= j1 < j2 < |regions| ==> regions[j1] !! regions[j2]
    requires visited !! region
    ensures forall j1, j2 :: 0 <= j1 < j2 < |regions + [region]| ==> (regions + [region])[j1] !! (regions + [region])[j2]
  {
    var regions' := regions + [region];
    forall j1, j2 | 0 <= j1 < j2 < |regions'| ensures regions'[j1] !! regions'[j2] {
      assert regions'[j1] == regions[j1];
      if j2 == |regions| {
        assert forall x :: x in regions[j1] ==> x in visited;
      }
    }
  }

  /** Two sets with no owned neighbour outside their union make a closed union. */
  lemma ClosedUnion(ts: seq<Territory>, player: nat, visited: set<nat>, region: set<nat>)
    requires ClosedInto(ts, player, visited, visited) && ClosedInto(ts, player, region, visited + region)
    ensures ClosedInto(ts, player, visited + region, visited + region)
  {
    forall x, n | x in visited + region && x < |ts| && n in ts[x].neighbors && OwnedBy(ts, player, n)
      ensures n in visited + region
    {
      if x in visited {
        assert n in visited;
      }
    }
  }

  /** Closed regions stay closed when a closed region is appended. */
  lemma AppendClosed(ts: seq<Territory>, player: nat, regions: seq<set<nat>>, region: set<nat>)
    requires forall j :: 0 <= j < |regions| ==> ClosedInto(ts, player, regions[j], regions[j])
    requires ClosedInto(ts, player, region, region)
    ensures forall j :: 0 <= j < |regions + [region]| ==> ClosedInto(ts, player, (regions + [region])[j], (regions + [region])[j])
  {
    var regions' := regions + [region];
    forall j | 0 <= j < |regions'| ensures ClosedInto(ts, player, regions'[j], regions'[j]) {
      if j < |regions| {
        assert regions'[j] == regions[j];
      }
    }
  }

  /**
   * With symmetric neighbour lists a new region has no owned neighbour in
   * an earlier region: that neighbour's region would have pulled it in.
   */
  lemma NewRegionClosed(ts: seq<Territory>, player: nat, regions: seq<set<nat>>, roots: seq<nat>, visited: set<nat>,
                        region: set<nat>)
    requires RegionsSoFar(ts, player, regions, roots, visited) && SymmetricNeighbors(ts)
    requires visited !! region && (forall x :: x in region ==> OwnedBy(ts, player, x))
    requires ClosedInto(ts, player, region, visited + region)
    ensures ClosedInto(ts, player, region, region)
  {
    forall x, n | x in region && x < |ts| && n in ts[x].neighbors && OwnedBy(ts, player, n)
      ensures n in region
    {
      assert ListsBack(ts, x, n);
      assert OwnedBy(ts, player, x);
      assert n in visited ==> x in visited;
    }
  }

  /** A territory from the player's list that is not yet visited may start a search. */
  lemma ReadyToExplore(ts: seq<Territory>, player: nat, regions: seq<set<nat>>, roots: seq<nat>, visited: set<nat>,
                       ids: seq<nat>, s: nat)
    requires RegionsSoFar(ts, player, regions, roots, visited)
    requires forall x: nat :: x in ids <==> x < |ts| && ts[x].owner == player
    requires s < |ids|
    ensures OwnedBy(ts, player, ids[s])
    ensures forall x :: x in visited ==> OwnedBy(ts, player, x)
  {
    assert ids[s] in ids;
  }

  /**
   * One step of the scan over the player's territories: an unvisited
   * territory starts a new region, explored breadth-first, and the largest
   * size so far is updated.
   */
  method ScanTerritory(ts: seq<Territory>, player: nat, ids: seq<nat>, s: nat, visited: set<nat>, largest: nat,
                       ghost regions: seq<set<nat>>, ghost roots: seq<nat>)
    returns (visited': set<nat>, largest': nat, ghost regions': seq<set<nat>>, ghost roots': seq<nat>)
    requires forall x: nat :: x in ids <==> x < |ts| && ts[x].owner == player
    requires s < |ids| && forall m :: 0 <= m < s ==> ids[m] in visited
    requires RegionsSoFar(ts, player, regions, roots, visited) && largest == MaxSize(regions)
    ensures RegionsSoFar(ts, player, regions', roots', visited') && largest' == MaxSize(regions')
    ensures forall m :: 0 <= m < s + 1 ==> ids[m] in visited'
  {
    var start := ids[s];
    if start in visited {
      return visited, largest, regions, roots;
    }
    var regionSize;
    ghost var region;
    ReadyToExplore(ts, player, regions, roots, visited, ids, s);
    visited', regionSize, region := ExploreRegion(ts, player, start, visited);
    ScanStep(ts, player, regions, roots, visited, region, start, ids, s, visited');
    regions', roots' := regions + [region], roots + [start];
    largest' := Max(largest, regionSize);
  }

  /** Recording the region explored from the `s`-th territory of the list keeps the scan's invariants. */
  lemma ScanStep(ts: seq<Territory>, player: nat, regions: seq<set<nat>>, roots: seq<nat>, visited0: set<nat>,
                 region: set<nat>, start: nat, ids: seq<nat>, s: nat, visited: set<nat>)
    requires RegionsSoFar(ts, player, regions, roots, visited0)
    requires s < |ids| && ids[s] == start && forall m :: 0 <= m < s ==> ids[m] in visited0
    requires visited == visited0 + region && visited0 !! region && start in region
    requires forall x :: x in region ==> OwnedBy(ts, player, x)
    requires Rooted(ts, player, region, start) && ClosedInto(ts, player, region, visited)
    ensures RegionsSoFar(ts, player, regions + [region], roots + [start], visited)
    ensures forall m :: 0 <= m < s + 1 ==> ids[m] in visited
    ensures MaxSize(regions + [region]) == Max(MaxSize(regions), |region|)
  {
    AddRegion(ts, player, regions, roots, visited0, region, start);
    MaxSizeAppend(regions, region);
  }

  /** After the scan over the player's list, every territory of the player is visited. */
  lemma AllVisited(ts: seq<Territory>, player: nat, ids: seq<nat>, visited: set<nat>)
    requires forall x: nat :: x in ids <==> x < |ts| && ts[x].owner == player
    requires forall m :: 0 <= m < |ids| ==> ids[m] in visited
    ensures forall x: nat :: OwnedBy(ts, player, x) ==> x in visited
  {
    forall x: nat | OwnedBy(ts, player, x) ensures x in visited {
      assert x in ids;
      var m :| 0 <= m < |ids| && ids[m] == x;
    }
  }

  /** Once every owned territory has been visited, the regions found are a split of the player's territories. */
  lemma RegionsDone(ts: seq<Territory>, player: nat, regions: seq<set<nat>>, roots: seq<nat>, visited: set<nat>)
    requires RegionsSoFar(ts, player, regions, roots, visited)
    requires forall x: nat :: OwnedBy(ts, player, x) ==> x in visited
    ensures RegionsOf(ts, player, regions, roots)
  {
  }

  // ---------------------------------------------------------------------
  // Passing play on

  /**
   * Steps round the table from `current`, one seat at a time, to the first
   * player who is not out; coming back to `current` means a full circle.
   */
  method SeekNextInPlay(players: seq<Player>, count: nat, current: nat) returns (next: nat, fullCircle: bool)
    requires current < count <= |players|
    ensures next < count
    ensures fullCircle <==> NextInPlay(players, count, current, 1).None?
    ensures !fullCircle ==> next == NextInPlay(players, count, current, 1).value
  {
    next := current;
    fullCircle := false;
    ghost var k: nat := 0;
    while true
      invariant k < count && next == Seat(current, k, count)
      invariant NextInPlay(players, count, current, 1) == NextInPlay(players, count, current, k + 1)
      decreases count - k
    {
      NextSeat(current, k, count);
      next := (next + 1) % count;
      k := k + 1;
      SeatReturns(current, k, count);
      if next == current {
        return next, true;
      }
      if !players[next].isEliminated {
        return next, false;
      }
    }
  }

  /**
   * Play has passed on from `current`: to the next player in play, with the
   * turn number up by one when play wraps round to a lower seat, and that
   * player's turn starts (a human chooses an attacker, an AI thinks); or,
   * when every other player is out, the game is over and `current` has won.
   */
  ghost predicate PassedOn(players: seq<Player>, count: nat, current: nat, turn: int, winner: nat,
                           current': nat, turn': int, winner': nat, phase': TurnPhase)
    requires current < count <= |players|
  {
    match NextInPlay(players, count, current, 1)
    case None => phase' == GameOver && winner' == current && current' == current && turn' == turn
    case Some(next) =>
      && current' == next && winner' == winner
      && turn' == turn + (if next <= current then 1 else 0)
      && next < |players| && phase' == (if players[next].isHuman then SelectAttacker else AITurn)
  }

  // ---------------------------------------------------------------------
  // The controller

  class GameController {
    var state: GameState
    var aiThinkTimer: real

    /**
     * The controller's invariant: the player table has its fixed size, the
     * player count is between 1 and the table size, the current player is
     * one of them, and territory ids are positions.
     */
    ghost predicate Valid()
      reads this, state
    {
      && state.PlayersSized()
      && 0 < state.config.playerCount <= MAX_PLAYERS
      && state.currentPlayer < state.config.playerCount
      && IdsAreIndices(state.territories)
    }

    constructor (state: GameState)
      ensures this.state == state && aiThinkTimer == 0.0
    {
      this.state := state;
      aiThinkTimer := 0.0;
    }

    /** Gives the turn to `player`: a human starts by choosing an attacker, an AI starts its think timer. */
    method StartTurn(player: nat)
      requires state.PlayersSized() && player < MAX_PLAYERS
      modifies state`currentPlayer, state`selectedTerritory, state`validTargets, state`phase, this`aiThinkTimer
      ensures state.currentPlayer == player && state.selectedTerritory == TERRITORY_NONE && state.validTargets == []
      ensures state.players[player].isHuman ==> state.phase == SelectAttacker && aiThinkTimer == old(aiThinkTimer)
      ensures !state.players[player].isHuman ==> state.phase == AITurn && aiThinkTimer == AI_THINK_DELAY
    {
      state.currentPlayer := player;
      state.selectedTerritory := TERRITORY_NONE;
      state.validTargets := [];
      if state.players[player].isHuman {
        state.phase := SelectAttacker;
      } else {
        state.phase := AITurn;
        aiThinkTimer := AI_THINK_DELAY;
      }
    }

    /**
     * Passes play to the next player in play after the current one, in
     * cyclic order; the turn number goes up when play wraps around to a
     * lower-numbered player. When every other player is out, the game is
     * over and the current player has won.
     */
    method AdvanceToNextPlayer()
      requires Valid()
      modifies state`currentPlayer, state`turnNumber, state`phase, state`winner,
               state`selectedTerritory, state`validTargets, this`aiThinkTimer
      ensures Valid()
      ensures PassedOn(state.players, state.config.playerCount, old(state.currentPlayer), old(state.turnNumber), old(state.winner),
                       state.currentPlayer, state.turnNumber, state.winner, state.phase)
      ensures old(state.selectedTerritory) == TERRITORY_NONE && old(state.validTargets) == [] ==>
        state.selectedTerritory == TERRITORY_NONE && state.validTargets == []
      ensures var next := NextInPlay(state.players, state.config.playerCount, old(state.currentPlayer), 1);
        && (next.None? ==>
              && state.phase == GameOver && state.winner == old(state.currentPlayer)
              && state.currentPlayer == old(state.currentPlayer) && state.turnNumber == old(state.turnNumber)
              && state.selectedTerritory == old(state.selectedTerritory) && state.validTargets == old(state.validTargets)
              && aiThinkTimer == old(aiThinkTimer))
        && (next.Some? ==>
              && state.currentPlayer == next.value && state.winner == old(state.winner)
              && state.turnNumber == old(state.turnNumber) + (if next.value <= old(state.currentPlayer) then 1 else 0)
              && state.selectedTerritory == TERRITORY_NONE && state.validTargets == []
              && (state.players[next.value].isHuman ==> state.phase == SelectAttacker && aiThinkTimer == old(aiThinkTimer))
              && (!state.players[next.value].isHuman ==> state.phase == AITurn && aiThinkTimer == AI_THINK_DELAY))
    {
      var current := state.currentPlayer;
      var next, fullCircle := SeekNextInPlay(state.players, state.config.playerCount, current);
      if fullCircle {
        state.phase := GameOver;
        state.winner := current;
        return;
      }
      if next <= current {
        state.turnNumber := state.turnNumber + 1;
      }
      StartTurn(next);
    }

    /** Selects one of the current player's territories with two dice or more as the attacker; selecting the selection again cancels it. */
    method SelectTerritory(territory: nat) returns (selected: bool)
      modifies state`selectedTerritory, state`phase, state`validTargets
      ensures old(state.phase) != SelectAttacker && old(state.phase) != SelectTarget ==>
        !selected && unchanged(state)
      ensures (old(state.phase) == SelectAttacker || old(state.phase) == SelectTarget)
              && territory == old(state.selectedTerritory) ==>
        && !selected && state.selectedTerritory == TERRITORY_NONE && state.validTargets == []
        && state.phase == SelectAttacker
      ensures (old(state.phase) == SelectAttacker || old(state.phase) == SelectTarget)
              && territory != old(state.selectedTerritory) ==>
        && (selected <==> OwnedBy(state.territories, state.currentPlayer, territory)
                          && state.territories[territory].CanAttack())
        && (!selected ==> unchanged(state))
      ensures selected ==>
        && state.selectedTerritory == territory && state.phase == SelectTarget
        && state.validTargets == ValidTargets(state.territories, state.currentPlayer, territory)
    {
      if state.phase != SelectAttacker && state.phase != SelectTarget {
        return false;
      }
      if territory == state.selectedTerritory {
        CancelSelection();
        return false;
      }
      var t := state.GetTerritory(territory);
      if t.None? {
        return false;
      }
      if t.value.owner != state.currentPlayer {
        return false;
      }
      if !t.value.CanAttack() {
        return false;
      }
      state.selectedTerritory := territory;
      state.phase := SelectTarget;
      UpdateValidTargets();
      return true;
    }

    /**
     * Attacks `target` from the selected territory when the phase allows an
     * attack and the rules allow this one; otherwise nothing changes. A
     * battle is resolved and applied, knocked-out players are marked out,
     * a winner is declared when one owns the board, and the selection is
     * cleared; a human player who has not won goes back to choosing an
     * attacker.
     */
    method Attack(target: nat) returns (success: bool)
      requires Valid()
      modifies state`territories, state`mapNeedsRefresh, state`lastCombat, state`combatPending, state`players,
               state`activePlayerCount, state`winner, state`phase, state`selectedTerritory, state`validTargets
      ensures Valid()
      ensures success <==>
        && (old(state.phase) == SelectTarget || old(state.phase) == AITurn)
        && old(state.selectedTerritory) != TERRITORY_NONE
        && CanAttackOn(old(state.territories), state.currentPlayer, old(state.selectedTerritory), target)
      ensures !success ==> unchanged(state)
      ensures success ==> AttackSettled(old(state.selectedTerritory), target)
    {
      if state.phase != SelectTarget && state.phase != AITurn {
        return false;
      }
      var from := state.selectedTerritory;
      if from == TERRITORY_NONE {
        return false;
      }
      if !CanAttack(from, target) {
        return false;
      }
      Battle(from, target);
      Settle();
      return true;
    }

    /**
     * What a successful attack from `from` on `target` leaves behind: the
     * battle resolved and applied and marked pending, knocked-out players
     * marked out and the active count lowered by their number, a winner
     * declared when one owns the board, the selection cleared, and the
     * phase the attack rule gives.
     */
    twostate predicate AttackSettled(from: nat, target: nat)
      reads this, state
    {
      && Fought(old(state.territories), from, target, state.lastCombat, state.territories)
      && state.combatPending
      && state.mapNeedsRefresh == (old(state.mapNeedsRefresh) || state.lastCombat.attackerWins)
      && 0 <= state.config.playerCount <= |old(state.players)|
      && state.players == MarkEliminated(old(state.players), state.territories, state.config.playerCount)
      && state.activePlayerCount
         == old(state.activePlayerCount) - KnockedOutCount(old(state.players), state.territories, state.config.playerCount)
      && state.winner == (if Victor(state.territories) != PLAYER_NONE then Victor(state.territories) else old(state.winner))
      && state.selectedTerritory == TERRITORY_NONE && state.validTargets == []
      && state.currentPlayer < |state.players|
      && state.phase == AfterAttackPhase(old(state.phase), state.winner, Victor(state.territories),
                                         state.players[state.currentPlayer].isHuman)
    }

    /** Only the selection changed, to `from`: every other field an attack may touch is as it was. */
    twostate predicate OnlySelected(from: nat)
      reads this, state
    {
      && state.selectedTerritory == from
      && state.territories == old(state.territories) && state.mapNeedsRefresh == old(state.mapNeedsRefresh)
      && state.lastCombat == old(state.lastCombat) && state.combatPending == old(state.combatPending)
      && state.players == old(state.players) && state.activePlayerCount == old(state.activePlayerCount)
      && state.winner == old(state.winner) && state.phase == old(state.phase)
      && state.validTargets == old(state.validTargets)
    }

    /** Resolves and applies a battle from `from` on `target`, and records its result. */
    method Battle(from: nat, target: nat)
      requires Valid() && CanAttackOn(state.territories, state.currentPlayer, from, target)
      modifies state`territories, state`mapNeedsRefresh, state`lastCombat, state`combatPending
      ensures Valid()
      ensures Fought(old(state.territories), from, target, state.lastCombat, state.territories)
      ensures state.combatPending
      ensures state.mapNeedsRefresh == (old(state.mapNeedsRefresh) || state.lastCombat.attackerWins)
    {
      var attacker := state.GetTerritory(from);
      var defender := state.GetTerritory(target);
      var result := ResolveCombat(attacker.value, defender.value);
      AfterCombatKeepsIds(state.territories, result);
      ApplyCombatResult(state, result);
      state.lastCombat := result;
      state.combatPending := true;
    }

    /**
     * After a battle: marks out knocked-out players, checks for a winner,
     * clears the selection, and sends a human player who has not won back
     * to choosing an attacker.
     */
    method Settle()
      requires Valid()
      modifies state`players, state`activePlayerCount, state`winner, state`phase, state`selectedTerritory, state`validTargets
      ensures Valid()
      ensures state.players == MarkEliminated(old(state.players), state.territories, state.config.playerCount)
      ensures state.activePlayerCount
              == old(state.activePlayerCount) - KnockedOutCount(old(state.players), state.territories, state.config.playerCount)
      ensures state.winner == (if Victor(state.territories) != PLAYER_NONE then Victor(state.territories) else old(state.winner))
      ensures state.selectedTerritory == TERRITORY_NONE && state.validTargets == []
      ensures state.phase == AfterAttackPhase(old(state.phase), state.winner, Victor(state.territories),
                                              state.players[state.currentPlayer].isHuman)
    {
      CheckElimination();
      CheckVictory();
      state.selectedTerritory := TERRITORY_NONE;
      state.validTargets := [];
      if !state.IsGameOver() {
        if state.players[state.currentPlayer].isHuman {
          state.phase := SelectAttacker;
        }
      }
    }

    /** Drops the selection and returns to choosing an attacker. */
    method CancelSelection()
      modifies state`selectedTerritory, state`validTargets, state`phase
      ensures state.selectedTerritory == TERRITORY_NONE && state.validTargets == [] && state.phase == SelectAttacker
    {
      state.selectedTerritory := TERRITORY_NONE;
      state.validTargets := [];
      state.phase := SelectAttacker;
    }

    /**
     * Ends the current player's turn, unless the game is over: the player
     * receives as many dice as its largest region has territories, spread
     * over its territories with room, and play passes on.
     */
    method EndTurn() returns (ghost regions: seq<set<nat>>, ghost roots: seq<nat>)
      requires Valid()
      modifies state`territories, state`currentPlayer, state`turnNumber, state`phase, state`winner,
               state`selectedTerritory, state`validTargets, this`aiThinkTimer
      ensures Valid()
      ensures old(state.phase) == GameOver ==> unchanged(state) && aiThinkTimer == old(aiThinkTimer)
      ensures old(state.phase) != GameOver ==>
        && Reinforced(old(state.territories), state.territories, old(state.currentPlayer), regions, roots)
        && state.selectedTerritory == TERRITORY_NONE && state.validTargets == []
        && PassedOn(state.players, state.config.playerCount, old(state.currentPlayer), old(state.turnNumber), old(state.winner),
                    state.currentPlayer, state.turnNumber, state.winner, state.phase)
    {
      if state.phase == GameOver {
        return [], [];
      }
      ghost var before, player := state.territories, state.currentPlayer;
      CancelSelection();
      regions, roots := Reinforce();
      ghost var reinforced := state.territories;
      assert Reinforced(before, reinforced, player, regions, roots);
      AdvanceToNextPlayer();
      assert state.territories == reinforced;
    }

    /** The current player receives as many dice as its largest region has territories. */
    method Reinforce() returns (ghost regions: seq<set<nat>>, ghost roots: seq<nat>)
      requires Valid()
      modifies state`territories
      ensures Valid()
      ensures Reinforced(old(state.territories), state.territories, state.currentPlayer, regions, roots)
    {
      var reinforcements;
      reinforcements, regions, roots := FindLargestContiguousRegion(state.currentPlayer);
      if reinforcements > 0 {
        DistributeReinforcements(state.currentPlayer, reinforcements);
      } else {
        NoDiceAdded(state.territories, state.currentPlayer);
      }
      DiceAddedKeepsIds(old(state.territories), state.territories, state.currentPlayer, reinforcements);
    }

    /** Whether the current player may attack from `from` to `to`. */
    predicate CanAttack(from: nat, to: nat)
      reads this, state
    {
      CanAttackOn(state.territories, state.currentPlayer, from, to)
    }

    /** Collects the neighbours of `from` that the current player may attack, in neighbour order. */
    method GetValidTargets(from: nat) returns (targets: seq<nat>)
      ensures targets == ValidTargets(state.territories, state.currentPlayer, from)
    {
      var attacker := state.GetTerritory(from);
      if attacker.None? || !attacker.value.CanAttack() {
        return [];
      }
      targets := [];
      var ns := attacker.value.neighbors;
      for k := 0 to |ns|
        invariant targets == TargetsAmong(state.territories, state.currentPlayer, from, ns[..k])
      {
        PrefixStep(ns, k);
        if CanAttack(from, ns[k]) {
          targets := targets + [ns[k]];
        }
      }
      WholePrefix(ns);
    }

    /** Refreshes the offered targets for the current selection. */
    method UpdateValidTargets()
      modifies state`validTargets
      ensures state.validTargets == ValidTargets(state.territories, state.currentPlayer, state.selectedTerritory)
    {
      state.validTargets := GetValidTargets(state.selectedTerritory);
    }

    /** The current player's territories that are not yet full, by id. */
    method EligibleTerritories(player: nat) returns (ids: seq<nat>)
      requires IdsAreIndices(state.territories)
      ensures forall x: nat :: x in ids <==> (OwnedBy(state.territories, player, x)
                                              && state.territories[x].diceCount < MAX_DICE_PER_TERRITORY)
    {
      ids := [];
      for i := 0 to |state.territories|
        invariant forall x: nat :: x in ids <==> (x < i && state.territories[x].owner == player
                                                  && state.territories[x].diceCount < MAX_DICE_PER_TERRITORY)
      {
        var t := state.territories[i];
        if t.owner == player && t.diceCount < MAX_DICE_PER_TERRITORY {
          ids := ids + [t.id];
        }
      }
    }

    /**
     * Hands `diceCount` dice to `player` one at a time, each to a randomly
     * picked territory that is not full; a territory is dropped from the
     * picks once it is full. The player gains `diceCount` dice, or all its
     * room below the cap if that is less; no territory is pushed past 8 and
     * no other territory changes.
     */
    method DistributeReinforcements(player: nat, diceCount: int)
      requires IdsAreIndices(state.territories)
      modifies state`territories
      ensures DiceAdded(old(state.territories), state.territories, player, diceCount)
    {
      var eligible := EligibleTerritories(player);
      if |eligible| == 0 {
        SpareCapacityZero(state.territories, player);
        return;
      }
      ghost var initial := state.territories;
      var left := diceCount;
      while left > 0 && |eligible| > 0
        invariant Spreading(initial, state.territories, player, eligible, diceCount - left)
        invariant left <= diceCount && (diceCount > 0 ==> left >= 0) && (diceCount <= 0 ==> left == diceCount)
        decreases left + |eligible|
      {
        var raised;
        ghost var added := diceCount - left;
        eligible, raised := ReinforceOne(initial, player, eligible, added);
        if raised {
          left := left - 1;
        }
      }
      SpreadingDone(initial, state.territories, player, eligible,
                    diceCount + OwnedCount(initial, player), diceCount, left);
    }

    /**
     * One step of the reinforcement loop: a randomly picked territory gets a
     * die when it has room, and leaves the picks when it is, or becomes, full.
     */
    method ReinforceOne(ghost before: seq<Territory>, player: nat, picks: seq<nat>, ghost added: int)
      returns (picks': seq<nat>, raised: bool)
      requires |picks| > 0
      requires Spreading(before, state.territories, player, picks, added)
      modifies state`territories
      ensures raised ==> |picks'| <= |picks| && Spreading(before, state.territories, player, picks', added + 1)
      ensures !raised ==> |picks'| < |picks| && Spreading(before, state.territories, player, picks', added)
    {
      var idx :| 0 <= idx < |picks|;
      var tid := picks[idx];
      assert tid in picks;
      var t := state.GetTerritory(tid);
      if t.Some? && t.value.diceCount < MAX_DICE_PER_TERRITORY {
        RaiseKeeps(before, state.territories, player, picks, added, tid);
        state.territories := state.territories[tid := t.value.(diceCount := t.value.diceCount + 1)];
        if state.territories[tid].diceCount >= MAX_DICE_PER_TERRITORY {
          DropKeeps(before, state.territories, player, picks, added + 1, idx);
          return picks[..idx] + picks[idx + 1..], true;
        }
        return picks, true;
      }
      DropKeeps(before, state.territories, player, picks, added, idx);
      return picks[..idx] + picks[idx + 1..], false;
    }

    /**
     * The size of `player`'s largest region: its territories are split into
     * regions by breadth-first search over owned neighbours, and the largest
     * region's size is returned (0 for a player without territories).
     */
    method FindLargestContiguousRegion(player: nat) returns (largestRegion: nat, ghost regions: seq<set<nat>>, ghost roots: seq<nat>)
      requires IdsAreIndices(state.territories)
      ensures RegionsOf(state.territories, player, regions, roots)
      ensures largestRegion == MaxSize(regions)
    {
      var ts := state.territories;
      var playerTerritories := TerritoriesOf(state, player);
      regions, roots := [], [];
      if |playerTerritories| == 0 {
        RegionsDone(ts, player, regions, roots, {});
        return 0, regions, roots;
      }
      var visited: set<nat> := {};
      largestRegion := 0;
      for s := 0 to |playerTerritories|
        invariant RegionsSoFar(ts, player, regions, roots, visited)
        invariant largestRegion == MaxSize(regions)
        invariant forall m :: 0 <= m < s ==> playerTerritories[m] in visited
      {
        visited, largestRegion, regions, roots := ScanTerritory(ts, player, playerTerritories, s, visited, largestRegion, regions, roots);
      }
      AllVisited(ts, player, playerTerritories, visited);
      RegionsDone(ts, player, regions, roots, visited);
    }

    /**
     * Declares a winner when the victory scan finds one: scanning the
     * territories in order, the first owner seen (nobody included, while
     * nobody has been seen) must own every later territory.
     */
    method CheckVictory()
      modifies state`winner, state`phase
      ensures Victor(state.territories) != PLAYER_NONE ==>
        state.winner == Victor(state.territories) && state.phase == GameOver
      ensures Victor(state.territories) == PLAYER_NONE ==>
        state.winner == old(state.winner) && state.phase == old(state.phase)
    {
      var firstOwner := PLAYER_NONE;
      for i := 0 to |state.territories|
        invariant ScanOwners(state.territories[i..], firstOwner) == Victor(state.territories)
      {
        var t := state.territories[i];
        assert state.territories[i..][1..] == state.territories[i + 1..];
        if firstOwner == PLAYER_NONE {
          firstOwner := t.owner;
        } else if t.owner != firstOwner {
          return;
        }
      }
      if firstOwner != PLAYER_NONE {
        state.winner := firstOwner;
        state.phase := GameOver;
      }
    }

    /**
     * Marks out every player in the game who is still in play but owns no
     * territory, lowering the count of players in play once for each.
     */
    method CheckElimination()
      requires state.PlayersSized() && state.config.playerCount <= MAX_PLAYERS
      modifies state`players, state`activePlayerCount
      ensures state.players == MarkEliminated(old(state.players), state.territories, Nat(state.config.playerCount))
      ensures state.activePlayerCount
              == old(state.activePlayerCount) - KnockedOutCount(old(state.players), state.territories, Nat(state.config.playerCount))
    {
      var count := Nat(state.config.playerCount);
      for p := 0 to count
        invariant |state.players| == MAX_PLAYERS
        invariant state.players == MarkEliminated(old(state.players), state.territories, p)
        invariant state.activePlayerCount
                  == old(state.activePlayerCount) - KnockedOutCount(old(state.players), state.territories, p)
      {
        if state.players[p].isEliminated {
          assert MarkEliminated(old(state.players), state.territories, p + 1) == state.players;
          continue;
        }
        var territories := state.CountTerritoriesOwned(p);
        if territories == 0 {
          state.players := state.players[p := state.players[p].(isEliminated := true)];
          state.activePlayerCount := state.activePlayerCount - 1;
        }
        assert MarkEliminated(old(state.players), state.territories, p + 1) == state.players;
      }
    }
  }

  /**
   * The phase after an attack: a human player goes back to choosing an
   * attacker unless someone has won; otherwise a victory ends the game and
   * an AI player stays in its turn.
   */
  function AfterAttackPhase(phase: TurnPhase, winner: nat, victor: nat, isHuman: bool): (r: TurnPhase)
    ensures victor != PLAYER_NONE && winner == victor ==> r == GameOver
    ensures winner == PLAYER_NONE && isHuman ==> r == SelectAttacker
    ensures winner != PLAYER_NONE && victor == PLAYER_NONE ==> r == phase
  {
    if winner == PLAYER_NONE && isHuman then SelectAttacker
    else if victor != PLAYER_NONE then GameOver
    else phase
  }

  /**
   * `player` has been reinforced: its territories split into `regions`, and
   * it received as many dice as the largest of them has territories.
   */
  ghost predicate Reinforced(before: seq<Territory>, after: seq<Territory>, player: nat,
                             regions: seq<set<nat>>, roots: seq<nat>)
  {
    RegionsOf(before, player, regions, roots) && DiceAdded(before, after, player, MaxSize(regions))
  }

  /** Adding no dice leaves the board as it is. */
  lemma NoDiceAdded(ts: seq<Territory>, player: nat)
    ensures DiceAdded(ts, ts, player, 0)
  {
  }

  /** Adding dice changes only dice counts, so every territory keeps its id and neighbours. */
  lemma DiceAddedKeepsIds(before: seq<Territory>, ts: seq<Territory>, player: nat, amount: int)
    requires DiceAdded(before, ts, player, amount) && IdsAreIndices(before)
    ensures IdsAreIndices(ts)
    ensures forall i :: 0 <= i < |ts| ==> ts[i].neighbors == before[i].neighbors && ts[i].owner == before[i].owner
  {
    forall i | 0 <= i < |ts| ensures ts[i].id == i {
      assert ts[i] == before[i].(diceCount := ts[i].diceCount);
    }
  }

  /** A loop bound taken from a signed count: negative counts run no iterations. */
  function Nat(x: int): nat
  {
    if x < 0 then 0 else x
  }

  /** One step round the table. */
  lemma NextSeat(current: nat, k: nat, count: nat)
    requires k < count && current < count
    ensures (Seat(current, k, count) + 1) % count == Seat(current, k + 1, count)
  {
    ModStep(current + k, count);
    var s := Seat(current, k, count);
    if s + 1 < count {
      DivModOfDecomposition(s + 1, 0, count, s + 1);
    } else {
      DivModOfDecomposition(s + 1, 1, count, 0);
    }
  }

  /** Going round the table comes back to the start exactly after a full circle. */
  lemma SeatReturns(current: nat, k: nat, count: nat)
    requires 1 <= k <= count && current < count
    ensures Seat(current, k, count) == current <==> k == count
  {
    if k < count {
      GameRules.Offset(current, k, count);
    } else {
      DivModOfDecomposition(current + k, 1, count, current);
    }
  }

  /**
   * A battle fought from `from` on `to`: the rolls are proper dice for
   * both sides' dice counts, the result is what those rolls decide, and
   * the board afterwards is the board with that result applied.
   */
  ghost predicate Fought(before: seq<Territory>, from: nat, to: nat, result: CombatResult, after: seq<Territory>)
  {
    && from < |before| && to < |before|
    && ValidRolls(result.attackerRolls, before[from].diceCount)
    && ValidRolls(result.defenderRolls, before[to].diceCount)
    && result == Resolve(before[from], before[to], result.attackerRolls, result.defenderRolls)
    && after == AfterCombat(before, result)
  }
}
