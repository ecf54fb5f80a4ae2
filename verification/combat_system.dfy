/**
 * Dice combat: both sides roll one six-sided die per die on their territory,
 * the higher total wins and ties go to the defender; then the board is
 * updated for a capture or a failed attack.
 */
module CombatSystem {
  import opened GameData

  /** `count` rolls, each a face of a six-sided die. */
  predicate ValidRolls(rolls: seq<int>, count: nat)
  {
    |rolls| == count && forall i :: 0 <= i < |rolls| ==> 1 <= rolls[i] <= 6
  }

  function Sum(s: seq<int>): int
  {
    if |s| == 0 then 0 else Sum(s[..|s| - 1]) + s[|s| - 1]
  }

  /** A total of `n` dice lies between `n` and `6n`. */
  lemma {:induction false} SumOfRollsBounds(rolls: seq<int>, count: nat)
    requires ValidRolls(rolls, count)
    ensures count <= Sum(rolls) <= 6 * count
  {
    if count > 0 {
      SumOfRollsBounds(rolls[..count - 1], count - 1);
    }
  }

  /** Rolls `count` dice (none for a non-positive count); the generator is a free choice per die. */
  method RollDice(count: int) returns (rolls: seq<int>)
    ensures ValidRolls(rolls, if count < 0 then 0 else count)
  {
    var n: nat := if count < 0 then 0 else count;
    rolls := [];
    var i: nat := 0;
    while i < n
      invariant i <= n
      invariant ValidRolls(rolls, i)
    {
      var roll :| 1 <= roll <= 6;
      rolls := rolls + [roll];
      i := i + 1;
    }
  }

  /**
   * The outcome of a battle for given rolls: ids and owners copied from the
   * two territories, totals summed, and a win only on a strictly higher total.
   */
  function Resolve(attacker: Territory, defender: Territory, attackerRolls: seq<int>, defenderRolls: seq<int>): (r: CombatResult)
    requires ValidRolls(attackerRolls, attacker.diceCount) && ValidRolls(defenderRolls, defender.diceCount)
    ensures r.attackerId == attacker.id && r.defenderId == defender.id
    ensures r.attackerPlayer == attacker.owner && r.defenderPlayer == defender.owner
    ensures attacker.diceCount <= r.attackerTotal <= 6 * attacker.diceCount
    ensures defender.diceCount <= r.defenderTotal <= 6 * defender.diceCount
  {
    SumOfRollsBounds(attackerRolls, attacker.diceCount);
    SumOfRollsBounds(defenderRolls, defender.diceCount);
    var attackerTotal := Sum(attackerRolls);
    var defenderTotal := Sum(defenderRolls);
    CombatResult(attacker.id, defender.id, attacker.owner, defender.owner,
                 attackerRolls, defenderRolls, attackerTotal, defenderTotal,
                 attackerTotal > defenderTotal)
  }

  /** Equal totals are a defence: the attacker needs strictly more. */
  lemma TieGoesToDefender(attacker: Territory, defender: Territory, attackerRolls: seq<int>, defenderRolls: seq<int>)
    requires ValidRolls(attackerRolls, attacker.diceCount) && ValidRolls(defenderRolls, defender.diceCount)
    ensures Resolve(attacker, defender, attackerRolls, defenderRolls).attackerWins
        <==> Sum(attackerRolls) > Sum(defenderRolls)
    ensures Sum(attackerRolls) == Sum(defenderRolls) ==> !Resolve(attacker, defender, attackerRolls, defenderRolls).attackerWins
  {
  }

  /** More than six times the defender's dice wins whatever is rolled. */
  lemma OverwhelmingAttackWins(attacker: Territory, defender: Territory, attackerRolls: seq<int>, defenderRolls: seq<int>)
    requires ValidRolls(attackerRolls, attacker.diceCount) && ValidRolls(defenderRolls, defender.diceCount)
    requires attacker.diceCount > 6 * defender.diceCount
    ensures Resolve(attacker, defender, attackerRolls, defenderRolls).attackerWins
  {
  }

  /** An attacker with at most a sixth of the defender's dice loses whatever is rolled. */
  lemma HopelessAttackLoses(attacker: Territory, defender: Territory, attackerRolls: seq<int>, defenderRolls: seq<int>)
    requires ValidRolls(attackerRolls, attacker.diceCount) && ValidRolls(defenderRolls, defender.diceCount)
    requires 6 * attacker.diceCount <= defender.diceCount
    ensures !Resolve(attacker, defender, attackerRolls, defenderRolls).attackerWins
  {
  }

  /** Resolves a battle, rolling both sides' dice first. */
  method ResolveCombat(attacker: Territory, defender: Territory) returns (result: CombatResult)
    ensures ValidRolls(result.attackerRolls, attacker.diceCount)
    ensures ValidRolls(result.defenderRolls, defender.diceCount)
    ensures result == Resolve(attacker, defender, result.attackerRolls, result.defenderRolls)
  {
    var attackerRolls := RollDice(attacker.diceCount);
    var defenderRolls := RollDice(defender.diceCount);
    result := Resolve(attacker, defender, attackerRolls, defenderRolls);
  }

  /** The byte cast of the dice moved into a captured territory. */
  function ToByte(x: int): (b: nat)
    ensures b < 256
    ensures 0 <= x < 256 ==> b == x
  {
    x % 256
  }

  /**
   * The territories after applying `result`: nothing when either id is out
   * of range; on a win the defender passes to the attacking player with all
   * but one of the attacker's dice, and the attacker keeps one die; on a
   * loss the attacker keeps one die. The attacker's dice are read from the
   * board, not from the result.
   */
  function AfterCombat(ts: seq<Territory>, result: CombatResult): (after: seq<Territory>)
    ensures |after| == |ts|
    ensures forall i :: 0 <= i < |ts| && i != result.attackerId && i != result.defenderId ==> after[i] == ts[i]
  {
    var a, d := result.attackerId, result.defenderId;
    if a >= |ts| || d >= |ts| then ts
    else if result.attackerWins then
      var moved := ts[d := ts[d].(owner := result.attackerPlayer, diceCount := ToByte(ts[a].diceCount - 1))];
      moved[a := moved[a].(diceCount := 1)]
    else
      ts[a := ts[a].(diceCount := 1)]
  }

  lemma OutOfRangeChangesNothing(ts: seq<Territory>, result: CombatResult)
    requires result.attackerId >= |ts| || result.defenderId >= |ts|
    ensures AfterCombat(ts, result) == ts
  {
  }

  /** A capture between two distinct territories. */
  lemma CaptureOutcome(ts: seq<Territory>, result: CombatResult)
    requires result.attackerId < |ts| && result.defenderId < |ts|
    requires result.attackerId != result.defenderId && result.attackerWins
    ensures var after, a, d := AfterCombat(ts, result), result.attackerId, result.defenderId;
      && |after| == |ts|
      && after[d].owner == result.attackerPlayer
      && after[d].diceCount == ToByte(ts[a].diceCount - 1)
      && after[a] == ts[a].(diceCount := 1)
      && after[d].hexes == ts[d].hexes && after[d].neighbors == ts[d].neighbors
      && (forall i :: 0 <= i < |ts| && i != a && i != d ==> after[i] == ts[i])
  {
  }

  /** On a capture from a territory with 1..256 dice, the dice on the two territories are conserved. */
  lemma CaptureConservesAttackerDice(ts: seq<Territory>, result: CombatResult)
    requires result.attackerId < |ts| && result.defenderId < |ts|
    requires result.attackerId != result.defenderId && result.attackerWins
    requires 1 <= ts[result.attackerId].diceCount <= 256
    ensures AfterCombat(ts, result)[result.attackerId].diceCount
          + AfterCombat(ts, result)[result.defenderId].diceCount
         == ts[result.attackerId].diceCount
  {
  }

  /** A failed attack costs the attacker all but one die and touches nothing else. */
  lemma DefenceOutcome(ts: seq<Territory>, result: CombatResult)
    requires result.attackerId < |ts| && result.defenderId < |ts| && !result.attackerWins
    ensures var after := AfterCombat(ts, result);
      && |after| == |ts|
      && after[result.attackerId] == ts[result.attackerId].(diceCount := 1)
      && (forall i :: 0 <= i < |ts| && i != result.attackerId ==> after[i] == ts[i])
  {
  }

  /** A capture from another player moves exactly one territory between the two players. */
  lemma CaptureTransfersOneTerritory(ts: seq<Territory>, result: CombatResult)
    requires result.attackerId < |ts| && result.defenderId < |ts|
    requires result.attackerId != result.defenderId && result.attackerWins
    requires ts[result.attackerId].owner == result.attackerPlayer
    requires ts[result.defenderId].owner != result.attackerPlayer
    ensures OwnedCount(AfterCombat(ts, result), result.attackerPlayer) == OwnedCount(ts, result.attackerPlayer) + 1
    ensures OwnedCount(AfterCombat(ts, result), ts[result.defenderId].owner) + 1 == OwnedCount(ts, ts[result.defenderId].owner)
  {
    CaptureCounts(ts, result, result.attackerPlayer);
    CaptureCounts(ts, result, ts[result.defenderId].owner);
  }

  /** How a won battle changes one player's territory count: the defender's territory changes hands. */
  lemma CaptureCounts(ts: seq<Territory>, result: CombatResult, player: nat)
    requires result.attackerId < |ts| && result.defenderId < |ts|
    requires result.attackerId != result.defenderId && result.attackerWins
    ensures OwnedCount(AfterCombat(ts, result), player) + (if ts[result.defenderId].owner == player then 1 else 0)
         == OwnedCount(ts, player) + (if result.attackerPlayer == player then 1 else 0)
  {
    var a, d := result.attackerId, result.defenderId;
    var moved := ts[d := ts[d].(owner := result.attackerPlayer, diceCount := ToByte(ts[a].diceCount - 1))];
    OwnedCountUpdate(ts, d, moved[d], player);
    OwnedCountUpdate(moved, a, moved[a].(diceCount := 1), player);
  }

  /** A battle changes only owners and dice, so every territory keeps its id. */
  lemma AfterCombatKeepsIds(ts: seq<Territory>, result: CombatResult)
    requires IdsAreIndices(ts)
    ensures |AfterCombat(ts, result)| == |ts| && IdsAreIndices(AfterCombat(ts, result))
    ensures forall i :: 0 <= i < |ts| ==> AfterCombat(ts, result)[i].neighbors == ts[i].neighbors
  {
  }

  /** Applies a resolved battle to the board. */
  method ApplyCombatResult(state: GameState, result: CombatResult)
    modifies state`territories, state`mapNeedsRefresh
    ensures state.territories == AfterCombat(old(state.territories), result)
    ensures state.mapNeedsRefresh == (old(state.mapNeedsRefresh)
              || (result.attackerWins && result.attackerId < |old(state.territories)|
                                      && result.defenderId < |old(state.territories)|))
  {
    var attacker := state.GetTerritory(result.attackerId);
    var defender := state.GetTerritory(result.defenderId);
    if attacker.None? || defender.None? {
      return;
    }
    var a, d := result.attackerId, result.defenderId;
    if result.attackerWins {
      var movingDice := attacker.value.diceCount - 1;
      var captured := state.territories[d].(owner := result.attackerPlayer, diceCount := ToByte(movingDice));
      state.territories := state.territories[d := captured];
      state.territories := state.territories[a := state.territories[a].(diceCount := 1)];
      state.mapNeedsRefresh := true;
    } else {
      state.territories := state.territories[a := state.territories[a].(diceCount := 1)];
    }
  }
}
