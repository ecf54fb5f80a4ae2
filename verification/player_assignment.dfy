/**
 * The second step of map generation: territories are handed to the players
 * round-robin in a shuffled order, then each player's starting dice are
 * spread over its territories, one die at a time on a randomly picked
 * territory that is not yet full.
 *
 * The shuffled order is a parameter (any rearrangement of the territory
 * indices) and every random pick is a free choice.
 */
module PlayerAssignment {
  import opened Prefixes
  import opened HexGrid
  import opened GameData
  import opened TerritoryGenerator

  /** The indices 0 .. n-1 in order. */
  function Range(n: nat): seq<nat>
  {
    seq(n, i => i)
  }

  /** How many of the positions 0 .. n-1 round-robin gives to player `p`. */
  function RoundRobinShare(n: nat, playerCount: nat, p: nat): nat
    requires playerCount > 0
  {
    if n == 0 then 0
    else RoundRobinShare(n - 1, playerCount, p) + (if (n - 1) % playerCount == p then 1 else 0)
  }

  /** Round-robin gives each player `n / playerCount` positions, and one more to the first `n % playerCount` players. */
  lemma {:induction false} RoundRobinShareClosedForm(n: nat, playerCount: nat, p: nat)
    requires 0 <= p < playerCount
    ensures RoundRobinShare(n, playerCount, p) == n / playerCount + (if p < n % playerCount then 1 else 0)
  {
    if n > 0 {
      RoundRobinShareClosedForm(n - 1, playerCount, p);
      ClosedFormStep(n - 1, playerCount, p);
    }
  }

  /** One more position: the next player in turn gets it, and the count of full rounds moves on after the last player. */
  lemma ClosedFormStep(m: nat, playerCount: nat, p: nat)
    requires 0 <= p < playerCount
    requires RoundRobinShare(m, playerCount, p) == m / playerCount + (if p < m % playerCount then 1 else 0)
    ensures RoundRobinShare(m + 1, playerCount, p) == (m + 1) / playerCount + (if p < (m + 1) % playerCount then 1 else 0)
  {
    ModStep(m, playerCount);
  }

  /** Counting on by one: the remainder cycles through 0 .. d-1 and the quotient grows when it wraps. */
  lemma ModStep(m: nat, d: nat)
    requires d > 0
    ensures (m + 1) % d == if m % d == d - 1 then 0 else m % d + 1
    ensures (m + 1) / d == if m % d == d - 1 then m / d + 1 else m / d
  {
    var q, r := m / d, m % d;
    assert m == q * d + r;
    if r == d - 1 {
      assert m + 1 == (q + 1) * d;
      DivModOfDecomposition(m + 1, q + 1, d, 0);
    } else {
      DivModOfDecomposition(m + 1, q, d, r + 1);
    }
  }

  /** Quotient and remainder are determined by any decomposition `q * d + r` with `0 <= r < d`. */
  lemma DivModOfDecomposition(n: int, q: int, d: int, r: int)
    requires d > 0 && 0 <= r < d && n == q * d + r
    ensures n / d == q && n % d == r
  {
    var q', r' := n / d, n % d;
    assert n == q' * d + r';
    var t := q - q';
    assert t * d == r' - r by {
      assert q * d - q' * d == (q - q') * d;
    }
    if t >= 1 {
      MulAtLeast(t, d);
    } else if t <= -1 {
      MulAtLeast(-t, d);
    }
  }

  lemma MulAtLeast(a: int, d: int)
    requires a >= 1 && d > 0
    ensures a * d >= d
  {
    assert a * d == (a - 1) * d + d;
    assert (a - 1) * d >= 0;
  }

  /** Round-robin is balanced: any two players' shares differ by at most one. */
  lemma RoundRobinBalanced(n: nat, playerCount: nat, p: nat, q: nat)
    requires p < playerCount && q < playerCount
    ensures RoundRobinShare(n, playerCount, p) <= RoundRobinShare(n, playerCount, q) + 1
  {
    RoundRobinShareClosedForm(n, playerCount, p);
    RoundRobinShareClosedForm(n, playerCount, q);
  }

  /** The indices of the territories owned by `p`. */
  ghost function OwnedSet(ts: seq<Territory>, p: nat): set<nat>
  {
    set j: nat | j < |ts| && ts[j].owner == p
  }

  /** The owner count is the size of the owned set. */
  lemma {:induction false} OwnedCountIsCardinality(ts: seq<Territory>, p: nat)
    ensures OwnedCount(ts, p) == |OwnedSet(ts, p)|
  {
    if |ts| > 0 {
      var n := |ts| - 1;
      var init := ts[..n];
      OwnedCountIsCardinality(init, p);
      var last := if ts[n].owner == p then {n} else {};
      assert OwnedSet(ts, p) == OwnedSet(init, p) + last;
      assert n !in OwnedSet(init, p);
    }
  }

  /** The territories among the positions `cells` that `p` owns. */
  ghost function OwnedAmong(ts: seq<Territory>, cells: seq<nat>, p: nat): set<nat>
  {
    set j: nat | j in cells && j < |ts| && ts[j].owner == p
  }

  /** Each player owns exactly its round-robin share of the first `i` positions of `cells`. */
  ghost predicate DealtShares(ts: seq<Territory>, cells: seq<nat>, i: nat, playerCount: nat)
    requires playerCount > 0
  {
    forall p :: |OwnedAmong(ts, cells, p)| == RoundRobinShare(i, playerCount, p)
  }

  /** Hands territory `order[i]` to player `i % playerCount`, for each position `i`. */
  method DealRoundRobin(state: GameState, order: seq<nat>, playerCount: nat)
    requires playerCount > 0
    requires NoDuplicates(order) && forall i :: 0 <= i < |order| ==> order[i] < |state.territories|
    modifies state`territories
    ensures |state.territories| == |old(state.territories)|
    ensures forall j :: 0 <= j < |state.territories| ==>
      state.territories[j] == old(state.territories)[j].(owner := state.territories[j].owner)
    ensures forall j :: 0 <= j < |state.territories| && j !in order ==> state.territories[j] == old(state.territories)[j]
    ensures forall i :: 0 <= i < |order| ==> state.territories[order[i]].owner == i % playerCount
    ensures DealtShares(state.territories, order, |order|, playerCount)
  {
    var i := 0;
    while i < |order|
      invariant 0 <= i <= |order|
      invariant |state.territories| == |old(state.territories)|
      invariant forall j :: 0 <= j < |state.territories| ==>
        state.territories[j] == old(state.territories)[j].(owner := state.territories[j].owner)
      invariant forall j :: 0 <= j < |state.territories| && j !in order[..i] ==> state.territories[j] == old(state.territories)[j]
      invariant forall k :: 0 <= k < i ==> state.territories[order[k]].owner == k % playerCount
      invariant DealtShares(state.territories, order[..i], i, playerCount)
    {
      ghost var before := state.territories;
      var m := order[i];
      var player := i % playerCount;
      state.territories := state.territories[m := state.territories[m].(owner := player)];
      DealStep(before, order, i, playerCount);
      forall j | 0 <= j < |state.territories| && j !in order[..i + 1] ensures state.territories[j] == old(state.territories)[j] {
        assert order[..i + 1] == order[..i] + [m];
      }
      forall k | 0 <= k < i + 1 ensures state.territories[order[k]].owner == k % playerCount {
        if k < i {
          assert order[k] != m;
        }
      }
      i := i + 1;
    }
    WholePrefix(order);
  }

  /** One deal: the owned sets grow by the dealt territory for the receiving player only. */
  lemma DealStep(ts: seq<Territory>, order: seq<nat>, i: nat, playerCount: nat)
    requires playerCount > 0 && i < |order| && NoDuplicates(order) && order[i] < |ts|
    requires DealtShares(ts, order[..i], i, playerCount)
    ensures DealtShares(ts[order[i] := ts[order[i]].(owner := i % playerCount)], order[..i + 1], i + 1, playerCount)
  {
    var m := order[i];
    var ts' := ts[m := ts[m].(owner := i % playerCount)];
    assert order[..i + 1] == order[..i] + [m];
    assert m !in order[..i] by {
      forall k | 0 <= k < i ensures order[..i][k] != m {
        assert order[k] != order[i];
      }
    }
    var cells, n := order[..i + 1], i + 1;
    forall p: nat ensures |OwnedAmong(ts', cells, p)| == RoundRobinShare(n, playerCount, p) {
      DealStepFor(ts, order, i, playerCount, p);
    }
  }

  lemma DealStepFor(ts: seq<Territory>, order: seq<nat>, i: nat, playerCount: nat, p: nat)
    requires playerCount > 0 && i < |order| && order[i] < |ts| && order[i] !in order[..i]
    requires |OwnedAmong(ts, order[..i], p)| == RoundRobinShare(i, playerCount, p)
    ensures |OwnedAmong(ts[order[i] := ts[order[i]].(owner := i % playerCount)], order[..i + 1], p)|
         == RoundRobinShare(i + 1, playerCount, p)
  {
    var m := order[i];
    var ts' := ts[m := ts[m].(owner := i % playerCount)];
    assert order[..i + 1] == order[..i] + [m];
    var extra: set<nat> := if i % playerCount == p then {m} else {};
    assert OwnedAmong(ts', order[..i + 1], p) == OwnedAmong(ts, order[..i], p) + extra;
    assert m !in OwnedAmong(ts, order[..i], p);
  }

  /** A rearrangement of the indices 0 .. n-1 holds exactly those indices. */
  lemma InOrder(order: seq<nat>, n: nat, j: nat)
    requires IsShuffleOf(order, Range(n))
    ensures j in order <==> j < n
  {
    assert j in order <==> j in multiset(order);
    assert j in Range(n) <==> j in multiset(Range(n));
    if j < n {
      assert Range(n)[j] == j;
    }
  }

  /** Over a rearrangement of all indices, the positions owned by `p` are all its territories. */
  lemma OwnedAmongAll(ts: seq<Territory>, order: seq<nat>, p: nat)
    requires IsShuffleOf(order, Range(|ts|))
    ensures OwnedAmong(ts, order, p) == OwnedSet(ts, p)
  {
    forall j: nat ensures j in order <==> j < |ts| {
      InOrder(order, |ts|, j);
    }
  }

  /** Room left on a territory: the dice it can still take before the cap. */
  function Room(t: Territory): nat
  {
    if t.diceCount < MAX_DICE_PER_TERRITORY then MAX_DICE_PER_TERRITORY - t.diceCount else 0
  }

  /** Total room on the territories owned by `player`. */
  function SpareCapacity(ts: seq<Territory>, player: nat): nat
  {
    if |ts| == 0 then 0
    else SpareCapacity(ts[..|ts| - 1], player) + (if ts[|ts| - 1].owner == player then Room(ts[|ts| - 1]) else 0)
  }

  /** Replacing one territory changes the room by what that territory contributes. */
  lemma {:induction false} SpareCapacityUpdate(ts: seq<Territory>, k: nat, t: Territory, player: nat)
    requires k < |ts|
    ensures SpareCapacity(ts[k := t], player) + (if ts[k].owner == player then Room(ts[k]) else 0)
         == SpareCapacity(ts, player) + (if t.owner == player then Room(t) else 0)
  {
    var n := |ts| - 1;
    if k < n {
      assert ts[k := t][..n] == ts[..n][k := t];
      SpareCapacityUpdate(ts[..n], k, t, player);
    } else {
      assert ts[k := t][..n] == ts[..n];
    }
  }

  /** No room is left exactly when every territory of `player` is at the cap. */
  lemma {:induction false} SpareCapacityZero(ts: seq<Territory>, player: nat)
    ensures SpareCapacity(ts, player) == 0 <==>
      forall j :: 0 <= j < |ts| && ts[j].owner == player ==> ts[j].diceCount >= MAX_DICE_PER_TERRITORY
  {
    if |ts| > 0 {
      var init := ts[..|ts| - 1];
      SpareCapacityZero(init, player);
      assert forall j :: 0 <= j < |init| ==> init[j] == ts[j];
    }
  }

  /** With one die on every territory, a player holds one die and seven dice of room per territory. */
  lemma {:induction false} OneDieEach(ts: seq<Territory>, player: nat)
    requires forall j :: 0 <= j < |ts| ==> ts[j].diceCount == 1
    ensures OwnedDice(ts, player) == OwnedCount(ts, player)
    ensures SpareCapacity(ts, player) == 7 * OwnedCount(ts, player)
  {
    if |ts| > 0 {
      var init := ts[..|ts| - 1];
      assert forall j :: 0 <= j < |init| ==> init[j] == ts[j];
      OneDieEach(init, player);
    }
  }

  /** A player's dice, count and room only depend on which territories it owns and their dice. */
  lemma {:induction false} PlayerTotalsFrame(a: seq<Territory>, b: seq<Territory>, player: nat)
    requires |a| == |b|
    requires forall j :: 0 <= j < |a| ==> (a[j].owner == player <==> b[j].owner == player)
    requires forall j :: 0 <= j < |a| && a[j].owner == player ==> a[j].diceCount == b[j].diceCount
    ensures OwnedDice(a, player) == OwnedDice(b, player)
    ensures OwnedCount(a, player) == OwnedCount(b, player)
    ensures SpareCapacity(a, player) == SpareCapacity(b, player)
  {
    if |a| > 0 {
      var n := |a| - 1;
      assert forall j :: 0 <= j < n ==> a[..n][j] == a[j] && b[..n][j] == b[j];
      PlayerTotalsFrame(a[..n], b[..n], player);
    }
  }

  /** A player's territory count only depends on the owners. */
  lemma {:induction false} OwnedCountFrame(a: seq<Territory>, b: seq<Territory>, player: nat)
    requires |a| == |b|
    requires forall j :: 0 <= j < |a| ==> a[j].owner == b[j].owner
    ensures OwnedCount(a, player) == OwnedCount(b, player)
  {
    if |a| > 0 {
      var n := |a| - 1;
      assert forall j :: 0 <= j < n ==> a[..n][j] == a[j] && b[..n][j] == b[j];
      OwnedCountFrame(a[..n], b[..n], player);
    }
  }

  /** Spreading `extra` dice over `k` territories of one die each, capped at 8 per territory, ends at `max(k, min(extra + k, 8k))`. */
  lemma StartingTotal(k: nat, total: int)
    ensures k + Min(Max(total - k, 0), 7 * k) == Max(k, Min(total, 8 * k))
  {
  }

  /**
   * A player whose territories all hold one die ends with its starting dice,
   * but at least one per territory and at most eight.
   */
  lemma StartingDiceFromOneEach(ts: seq<Territory>, player: nat, startingDice: int)
    requires forall j :: 0 <= j < |ts| ==> ts[j].diceCount == 1
    ensures var k := OwnedCount(ts, player);
      OwnedDice(ts, player) + Min(Max(startingDice - k, 0), SpareCapacity(ts, player))
      == Max(k, Min(startingDice, MAX_DICE_PER_TERRITORY * k))
  {
    OneDieEach(ts, player);
    StartingTotal(OwnedCount(ts, player), startingDice);
  }

  /** The ids of the territories owned by `player`, in board order. */
  method TerritoriesOf(state: GameState, player: nat) returns (ids: seq<nat>)
    requires IdsAreIndices(state.territories)
    ensures |ids| == OwnedCount(state.territories, player)
    ensures forall x: nat :: x in ids <==> x < |state.territories| && state.territories[x].owner == player
  {
    ids := [];
    var i := 0;
    while i < |state.territories|
      invariant 0 <= i <= |state.territories|
      invariant |ids| == OwnedCount(state.territories[..i], player)
      invariant forall x: nat :: x in ids <==> x < i && state.territories[x].owner == player
    {
      PrefixStep(state.territories, i);
      if state.territories[i].owner == player {
        ids := ids + [state.territories[i].id];
      }
      i := i + 1;
    }
    WholePrefix(state.territories);
  }

  /**
   * Spreads one player's starting dice: each of its territories already
   * counts one, and the rest go one at a time to a randomly picked
   * territory, which is dropped from the picks once it is full. The player
   * gains `min(max(startingDice - k, 0), room)` dice, where `k` is its
   * territory count and `room` its total room below the cap; no territory
   * is pushed past 8, and nothing else changes.
   */
  method DistributeStartingDice(state: GameState, player: nat)
    requires IdsAreIndices(state.territories)
    modifies state`territories
    ensures SpreadFor(old(state.territories), state.territories, player, state.config.startingDicePerPlayer)
  {
    var playerTerritories := TerritoriesOf(state, player);
    if |playerTerritories| == 0 {
      NothingToSpread(state.territories, player, state.config.startingDicePerPlayer);
      return;
    }
    var diceToDistribute := state.config.startingDicePerPlayer - |playerTerritories|;
    ghost var initial, toDistribute := state.territories, diceToDistribute;
    SpreadingStarts(initial, player, playerTerritories);
    while diceToDistribute > 0 && |playerTerritories| > 0
      invariant Spreading(initial, state.territories, player, playerTerritories, toDistribute - diceToDistribute)
      invariant diceToDistribute <= toDistribute && (toDistribute > 0 ==> diceToDistribute >= 0)
      invariant toDistribute <= 0 ==> diceToDistribute == toDistribute
      decreases diceToDistribute + |playerTerritories|
    {
      var raised;
      ghost var added := toDistribute - diceToDistribute;
      playerTerritories, raised := SpreadOneDie(state, initial, player, playerTerritories, added);
      if raised {
        diceToDistribute := diceToDistribute - 1;
      }
    }
    SpreadingDone(initial, state.territories, player, playerTerritories,
                  state.config.startingDicePerPlayer, toDistribute, diceToDistribute);
  }

  /** When the loop stops, the dice added are the starting dice beyond one per territory, or all the room if that is less. */
  lemma SpreadingDone(before: seq<Territory>, ts: seq<Territory>, player: nat, picks: seq<nat>,
                      startingDice: int, toDistribute: int, left: int)
    requires Spreading(before, ts, player, picks, toDistribute - left)
    requires toDistribute == startingDice - OwnedCount(before, player)
    requires left <= toDistribute && (toDistribute > 0 ==> left >= 0) && (toDistribute <= 0 ==> left == toDistribute)
    requires left <= 0 || |picks| == 0
    ensures SpreadFor(before, ts, player, startingDice)
  {
    if |picks| == 0 {
      SpareCapacityZero(ts, player);
    }
  }

  /** A player without territories gets nothing. */
  lemma NothingToSpread(ts: seq<Territory>, player: nat, startingDice: int)
    requires OwnedCount(ts, player) == 0
    ensures SpreadFor(ts, ts, player, startingDice)
  {
    OwnedCountBounds(ts, player);
    SpareCapacityZero(ts, player);
  }

  /**
   * One player's dice have been spread: only its territories' dice grew,
   * none past the cap, and its total grew by its starting dice beyond one
   * per territory, or by all its room if that is less.
   */
  ghost predicate SpreadFor(before: seq<Territory>, ts: seq<Territory>, player: nat, startingDice: int)
  {
    DiceAdded(before, ts, player, startingDice - OwnedCount(before, player))
  }

  /**
   * `amount` dice have been handed to `player` one at a time: only its
   * territories' dice grew, none past the cap, and its total grew by
   * `amount`, or by all its room if that is less.
   */
  ghost predicate DiceAdded(before: seq<Territory>, ts: seq<Territory>, player: nat, amount: int)
  {
    && |ts| == |before|
    && (forall j :: 0 <= j < |ts| ==> ts[j] == before[j].(diceCount := ts[j].diceCount))
    && (forall j :: 0 <= j < |ts| && ts[j].owner != player ==> ts[j] == before[j])
    && (forall j :: 0 <= j < |ts| ==>
          before[j].diceCount <= ts[j].diceCount <= Max(before[j].diceCount, MAX_DICE_PER_TERRITORY))
    && OwnedDice(ts, player) == OwnedDice(before, player) + Min(Max(amount, 0), SpareCapacity(before, player))
  }

  /**
   * The dice loop's invariant: only dice of `player`'s territories have
   * grown, by `added` in total, none past the cap; room shrank by as much;
   * and every territory of `player` that still has room is among the picks.
   */
  ghost predicate Spreading(before: seq<Territory>, ts: seq<Territory>, player: nat, picks: seq<nat>, added: int)
  {
    && |ts| == |before|
    && (forall j :: 0 <= j < |ts| ==> ts[j] == before[j].(diceCount := ts[j].diceCount))
    && (forall j :: 0 <= j < |ts| && ts[j].owner != player ==> ts[j] == before[j])
    && (forall j :: 0 <= j < |ts| ==>
          before[j].diceCount <= ts[j].diceCount <= Max(before[j].diceCount, MAX_DICE_PER_TERRITORY))
    && (forall x :: x in picks ==> x < |ts| && ts[x].owner == player)
    && (forall j :: 0 <= j < |ts| && ts[j].owner == player && ts[j].diceCount < MAX_DICE_PER_TERRITORY ==> j in picks)
    && OwnedDice(ts, player) == OwnedDice(before, player) + added
    && SpareCapacity(ts, player) + added == SpareCapacity(before, player)
  }

  /** Before any die is spread, the picks are exactly the player's territories. */
  lemma SpreadingStarts(ts: seq<Territory>, player: nat, picks: seq<nat>)
    requires forall x: nat :: x in picks <==> x < |ts| && ts[x].owner == player
    ensures Spreading(ts, ts, player, picks, 0)
  {
  }

  /**
   * One step of the spreading loop: a randomly picked territory gets a die
   * when it has room, and is dropped from the picks otherwise.
   */
  method SpreadOneDie(state: GameState, ghost before: seq<Territory>, player: nat, picks: seq<nat>, ghost added: int)
    returns (picks': seq<nat>, raised: bool)
    requires |picks| > 0
    requires Spreading(before, state.territories, player, picks, added)
    modifies state`territories
    ensures raised ==> picks' == picks && Spreading(before, state.territories, player, picks', added + 1)
    ensures !raised ==> |picks'| < |picks| && Spreading(before, state.territories, player, picks', added)
  {
    var idx :| 0 <= idx < |picks|;
    var tid := picks[idx];
    assert tid in picks;
    if state.territories[tid].diceCount < MAX_DICE_PER_TERRITORY {
      RaiseKeeps(before, state.territories, player, picks, added, tid);
      state.territories := state.territories[tid := state.territories[tid].(diceCount := state.territories[tid].diceCount + 1)];
      return picks, true;
    }
    DropKeeps(before, state.territories, player, picks, added, idx);
    return picks[..idx] + picks[idx + 1..], false;
  }

  /** Adding a die to a picked territory with room keeps the invariant, one more die added. */
  lemma RaiseKeeps(before: seq<Territory>, ts: seq<Territory>, player: nat, picks: seq<nat>, added: int, tid: nat)
    requires Spreading(before, ts, player, picks, added)
    requires tid in picks && tid < |ts| && ts[tid].diceCount < MAX_DICE_PER_TERRITORY
    ensures Spreading(before, ts[tid := ts[tid].(diceCount := ts[tid].diceCount + 1)], player, picks, added + 1)
  {
    var raised := ts[tid].(diceCount := ts[tid].diceCount + 1);
    OwnedDiceUpdate(ts, tid, raised, player);
    SpareCapacityUpdate(ts, tid, raised, player);
  }

  /** Dropping a full territory from the picks keeps the invariant. */
  lemma DropKeeps(before: seq<Territory>, ts: seq<Territory>, player: nat, picks: seq<nat>, added: int, idx: nat)
    requires Spreading(before, ts, player, picks, added)
    requires idx < |picks| && picks[idx] < |ts| && ts[picks[idx]].diceCount >= MAX_DICE_PER_TERRITORY
    ensures Spreading(before, ts, player, picks[..idx] + picks[idx + 1..], added)
  {
    PopFacts(picks, idx);
  }

  /** The territories `before` with the owners of `after`. */
  ghost function Rebadged(before: seq<Territory>, after: seq<Territory>): seq<Territory>
    requires |before| == |after|
  {
    seq(|before|, i requires 0 <= i < |before| => before[i].(owner := after[i].owner))
  }

  /**
   * Hands the territories out and spreads the starting dice. Nothing
   * happens without territories or players. Otherwise the territory at
   * position `i` of the shuffled `order` goes to player `i % playerCount`,
   * so each player owns its round-robin share, and then each player's
   * starting dice are spread over its territories as
   * `DistributeStartingDice` describes, capped at 8 per territory.
   */
  method AssignToPlayers(state: GameState, order: seq<nat>)
    requires IdsAreIndices(state.territories)
    requires IsShuffleOf(order, Range(|state.territories|))
    requires state.config.playerCount <= PLAYER_NONE
    modifies state`territories
    ensures |state.territories| == 0 || state.config.playerCount <= 0 ==> state.territories == old(state.territories)
    ensures |state.territories| == |old(state.territories)|
    ensures forall j :: 0 <= j < |state.territories| ==>
      state.territories[j] == old(state.territories)[j].(owner := state.territories[j].owner,
                                                         diceCount := state.territories[j].diceCount)
    ensures forall j :: 0 <= j < |state.territories| ==>
      old(state.territories)[j].diceCount <= state.territories[j].diceCount
                                          <= Max(old(state.territories)[j].diceCount, MAX_DICE_PER_TERRITORY)
    ensures |state.territories| > 0 && state.config.playerCount > 0 ==>
      && (forall i :: 0 <= i < |order| ==> order[i] < |state.territories|)
      && (forall i :: 0 <= i < |order| ==> state.territories[order[i]].owner == i % state.config.playerCount)
      && (forall j :: 0 <= j < |state.territories| ==> state.territories[j].owner < state.config.playerCount)
      && (forall p :: 0 <= p < state.config.playerCount ==>
            OwnedCount(state.territories, p) == RoundRobinShare(|state.territories|, state.config.playerCount, p))
    ensures |state.territories| > 0 && state.config.playerCount > 0 ==>
      var dealt := Rebadged(old(state.territories), state.territories);
      forall p :: 0 <= p < state.config.playerCount ==>
        OwnedDice(state.territories, p)
        == OwnedDice(dealt, p)
         + Min(Max(state.config.startingDicePerPlayer - OwnedCount(dealt, p), 0), SpareCapacity(dealt, p))
  {
    if |state.territories| == 0 || state.config.playerCount <= 0 {
      return;
    }
    var playerCount: nat := state.config.playerCount;
    forall i | 0 <= i < |order| ensures order[i] < |state.territories| {
      InOrder(order, |state.territories|, order[i]);
    }
    ShufflePreservesNoDuplicates(Range(|state.territories|), order);
    DealRoundRobin(state, order, playerCount);
    ghost var dealt := state.territories;
    DealtOwners(dealt, order, playerCount);

    SpreadAllStartingDice(state, playerCount);
    assert Rebadged(old(state.territories), state.territories) == dealt;
    forall q | 0 <= q < playerCount
      ensures OwnedCount(state.territories, q) == RoundRobinShare(|state.territories|, playerCount, q)
    {
      OwnedCountFrame(dealt, state.territories, q);
    }
  }

  /** Each player below `p` has had its starting dice spread over the dealt board. */
  ghost predicate SpreadBelow(dealt: seq<Territory>, ts: seq<Territory>, p: nat, startingDice: int)
  {
    && |ts| == |dealt|
    && (forall j :: 0 <= j < |dealt| ==> ts[j] == dealt[j].(diceCount := ts[j].diceCount))
    && (forall j :: 0 <= j < |dealt| && dealt[j].owner >= p ==> ts[j] == dealt[j])
    && (forall j :: 0 <= j < |dealt| ==>
          dealt[j].diceCount <= ts[j].diceCount <= Max(dealt[j].diceCount, MAX_DICE_PER_TERRITORY))
    && (forall q :: 0 <= q < p ==>
          OwnedDice(ts, q) == OwnedDice(dealt, q) + Min(Max(startingDice - OwnedCount(dealt, q), 0), SpareCapacity(dealt, q)))
  }

  /** Spreads the starting dice of players 0 .. playerCount-1 in turn. */
  method SpreadAllStartingDice(state: GameState, playerCount: nat)
    requires IdsAreIndices(state.territories)
    requires forall j :: 0 <= j < |state.territories| ==> state.territories[j].owner < playerCount
    modifies state`territories
    ensures SpreadBelow(old(state.territories), state.territories, playerCount, state.config.startingDicePerPlayer)
  {
    var p := 0;
    while p < playerCount
      invariant 0 <= p <= playerCount
      invariant SpreadBelow(old(state.territories), state.territories, p, state.config.startingDicePerPlayer)
    {
      ghost var before := state.territories;
      DistributeStartingDice(state, p);
      SpreadStep(old(state.territories), before, state.territories, p, state.config.startingDicePerPlayer);
      p := p + 1;
    }
  }

  /** Spreading player `p`'s dice extends the invariant to `p + 1`. */
  lemma SpreadStep(dealt: seq<Territory>, before: seq<Territory>, after: seq<Territory>, p: nat, startingDice: int)
    requires SpreadBelow(dealt, before, p, startingDice)
    requires SpreadFor(before, after, p, startingDice)
    ensures SpreadBelow(dealt, after, p + 1, startingDice)
  {
    PlayerTotalsFrame(dealt, before, p);
    forall q | 0 <= q < p
      ensures OwnedDice(after, q) == OwnedDice(before, q)
    {
      PlayerTotalsFrame(before, after, q);
    }
  }

  /** After the deal every territory has an owner below `playerCount`, and each player owns its share. */
  lemma DealtOwners(dealt: seq<Territory>, order: seq<nat>, playerCount: nat)
    requires playerCount > 0 && IsShuffleOf(order, Range(|dealt|))
    requires forall i :: 0 <= i < |order| ==> order[i] < |dealt| && dealt[order[i]].owner == i % playerCount
    requires DealtShares(dealt, order, |order|, playerCount)
    ensures forall j :: 0 <= j < |dealt| ==> dealt[j].owner < playerCount
    ensures forall p :: 0 <= p < playerCount ==> OwnedCount(dealt, p) == RoundRobinShare(|dealt|, playerCount, p)
  {
    assert |order| == |dealt| by {
      assert |multiset(order)| == |multiset(Range(|dealt|))|;
    }
    forall j | 0 <= j < |dealt| ensures dealt[j].owner < playerCount {
      InOrder(order, |dealt|, j);
      var i :| 0 <= i < |order| && order[i] == j;
    }
    forall p | 0 <= p < playerCount ensures OwnedCount(dealt, p) == RoundRobinShare(|dealt|, playerCount, p) {
      OwnedAmongAll(dealt, order, p);
      OwnedCountIsCardinality(dealt, p);
    }
  }
}
