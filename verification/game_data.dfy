/**
 * The shared game state: players, territories (groups of hexes with an owner
 * and a dice count), the hex-to-territory index, the turn and selection
 * state, and the read-only queries every system uses.
 *
 * Ids are modelled as `nat`. In the game a player id is a byte (with 255 as
 * "nobody"), a territory id is a 16-bit number (with 65535 as "none") and a
 * dice count is a byte; the places where that width matters say so.
 */
module GameData {
  import opened Prefixes
  import opened HexCoord
  import opened Wrappers

  const PLAYER_NONE: nat := 255
  const TERRITORY_NONE: nat := 65535
  const MAX_PLAYERS: nat := 8
  const MAX_DICE_PER_TERRITORY: nat := 8

  datatype Player = Player(id: nat, isHuman: bool, isEliminated: bool)

  /** The default player: nobody, not human, not eliminated. */
  const NullPlayer: Player := Player(PLAYER_NONE, false, false)

  /** A territory: a contiguous group of hexes with one owner and 1..8 dice. */
  datatype Territory = Territory(
    id: nat,
    owner: nat,
    diceCount: nat,
    hexes: seq<Hex>,
    neighbors: seq<nat>,
    centerHex: Hex)
  {
    predicate IsOwnedBy(player: nat) { owner == player }

    /** A territory can launch an attack when it holds at least two dice. */
    predicate CanAttack() { diceCount >= 2 }
  }

  /** A freshly created territory record: no id, no owner, one die. */
  const DefaultTerritory: Territory := Territory(TERRITORY_NONE, PLAYER_NONE, 1, [], [], Origin)

  /** The outcome of one battle, with every die rolled. */
  datatype CombatResult = CombatResult(
    attackerId: nat,
    defenderId: nat,
    attackerPlayer: nat,
    defenderPlayer: nat,
    attackerRolls: seq<int>,
    defenderRolls: seq<int>,
    attackerTotal: int,
    defenderTotal: int,
    attackerWins: bool)

  const NoCombat: CombatResult := CombatResult(TERRITORY_NONE, TERRITORY_NONE, PLAYER_NONE, PLAYER_NONE, [], [], 0, 0, false)

  /** One attack order as queued, recorded and replayed. */
  datatype CombatAction = CombatAction(
    attackerId: nat,
    defenderId: nat,
    attackerPlayer: nat,
    attackerDice: nat,
    defenderDice: nat)

  const NoAction: CombatAction := CombatAction(TERRITORY_NONE, TERRITORY_NONE, PLAYER_NONE, 0, 0)

  datatype TurnPhase = SelectAttacker | SelectTarget | Resolving | AITurn | Reinforcement | GameOver

  /**
   * Game configuration. `gridWidth`/`gridHeight` are the fields the replay
   * format writes; the float hex size is not part of the model.
   */
  datatype GameConfig = GameConfig(
    gridWidth: int,
    gridHeight: int,
    gridRadius: int,
    playerCount: int,
    humanPlayerIndex: int,
    targetTerritoryCount: int,
    minTerritorySize: int,
    maxTerritorySize: int,
    startingDicePerPlayer: int,
    seed: nat,
    fillHoles: bool,
    minHoleSize: int,
    keepLargestIslandOnly: bool)

  const DefaultConfig: GameConfig := GameConfig(0, 0, 8, 8, 0, 48, 3, 12, 20, 0, false, 4, false)

  /** The reverse lookup on a hex-to-territory index. */
  function TerritoryAt(index: map<Hex, nat>, c: Hex): nat
  {
    if c in index then index[c] else TERRITORY_NONE
  }

  /** Number of territories in `ts` owned by `player`. */
  function OwnedCount(ts: seq<Territory>, player: nat): nat
  {
    if |ts| == 0 then 0
    else OwnedCount(ts[..|ts| - 1], player) + (if ts[|ts| - 1].owner == player then 1 else 0)
  }

  /** Total dice on the territories in `ts` owned by `player`. */
  function OwnedDice(ts: seq<Territory>, player: nat): nat
  {
    if |ts| == 0 then 0
    else OwnedDice(ts[..|ts| - 1], player) + (if ts[|ts| - 1].owner == player then ts[|ts| - 1].diceCount else 0)
  }

  /** The owner count is at most the number of territories, and zero exactly when nothing is owned. */
  lemma {:induction false} OwnedCountBounds(ts: seq<Territory>, player: nat)
    ensures OwnedCount(ts, player) <= |ts|
    ensures OwnedCount(ts, player) == 0 <==> forall i :: 0 <= i < |ts| ==> ts[i].owner != player
  {
    if |ts| > 0 {
      var init := ts[..|ts| - 1];
      OwnedCountBounds(init, player);
      assert forall i :: 0 <= i < |init| ==> init[i] == ts[i];
    }
  }

  /** Replacing one territory changes the count by what that territory contributes. */
  lemma {:induction false} OwnedCountUpdate(ts: seq<Territory>, k: nat, t: Territory, player: nat)
    requires k < |ts|
    ensures OwnedCount(ts[k := t], player) + (if ts[k].owner == player then 1 else 0)
         == OwnedCount(ts, player) + (if t.owner == player then 1 else 0)
  {
    var n := |ts| - 1;
    if k < n {
      assert ts[k := t][..n] == ts[..n][k := t];
      OwnedCountUpdate(ts[..n], k, t, player);
    } else {
      assert ts[k := t][..n] == ts[..n];
    }
  }

  /** Replacing one territory changes the dice total by what that territory contributes. */
  lemma {:induction false} OwnedDiceUpdate(ts: seq<Territory>, k: nat, t: Territory, player: nat)
    requires k < |ts|
    ensures OwnedDice(ts[k := t], player) + (if ts[k].owner == player then ts[k].diceCount else 0)
         == OwnedDice(ts, player) + (if t.owner == player then t.diceCount else 0)
  {
    var n := |ts| - 1;
    if k < n {
      assert ts[k := t][..n] == ts[..n][k := t];
      OwnedDiceUpdate(ts[..n], k, t, player);
    } else {
      assert ts[k := t][..n] == ts[..n];
    }
  }

  /** When every territory has at least one die, a player's dice are at least its territory count. */
  lemma {:induction false} DiceAtLeastCount(ts: seq<Territory>, player: nat)
    requires forall i :: 0 <= i < |ts| ==> ts[i].diceCount >= 1
    ensures OwnedDice(ts, player) >= OwnedCount(ts, player)
  {
    if |ts| > 0 {
      var init := ts[..|ts| - 1];
      assert forall i :: 0 <= i < |init| ==> init[i] == ts[i];
      DiceAtLeastCount(init, player);
    }
  }

  /** Every territory's id is its position, as the generator leaves them. */
  ghost predicate IdsAreIndices(ts: seq<Territory>)
  {
    forall i :: 0 <= i < |ts| ==> ts[i].id == i
  }

  /** The complete game state. Systems update its fields in place. */
  class GameState {
    var config: GameConfig
    /** Always `MAX_PLAYERS` entries, indexed by player id. */
    var players: seq<Player>
    var activePlayerCount: int
    var currentPlayer: nat
    var turnNumber: int
    var phase: TurnPhase
    var territories: seq<Territory>
    var hexToTerritory: map<Hex, nat>
    var selectedTerritory: nat
    var validTargets: seq<nat>
    var lastCombat: CombatResult
    var combatPending: bool
    var mapNeedsRefresh: bool
    var winner: nat

    /** The fixed-size player table. */
    ghost predicate PlayersSized()
      reads this
    {
      |players| == MAX_PLAYERS
    }

    /** A default-constructed state. */
    constructor (config: GameConfig)
      ensures PlayersSized() && this.config == config
      ensures territories == [] && hexToTerritory == map[]
      ensures currentPlayer == 0 && turnNumber == 1 && phase == SelectAttacker
      ensures selectedTerritory == TERRITORY_NONE && validTargets == [] && winner == PLAYER_NONE
      ensures forall i :: 0 <= i < |players| ==> players[i] == NullPlayer
    {
      this.config := config;
      players := seq(MAX_PLAYERS, _ => NullPlayer);
      activePlayerCount := 0;
      currentPlayer := 0;
      turnNumber := 1;
      phase := SelectAttacker;
      territories := [];
      hexToTerritory := map[];
      selectedTerritory := TERRITORY_NONE;
      validTargets := [];
      lastCombat := NoCombat;
      combatPending := false;
      mapNeedsRefresh := false;
      winner := PLAYER_NONE;
    }

    predicate IsGameOver()
      reads this
      ensures IsGameOver() <==> winner != PLAYER_NONE
    {
      winner != PLAYER_NONE
    }

    /** The player at `id`, or the default player (id `PLAYER_NONE`) for an id past the table. */
    function GetPlayer(id: nat): (p: Player)
      reads this
      requires PlayersSized()
      ensures id < MAX_PLAYERS ==> p == players[id]
      ensures id >= MAX_PLAYERS ==> p.id == PLAYER_NONE && !p.isHuman && !p.isEliminated
    {
      if id < MAX_PLAYERS then players[id] else NullPlayer
    }

    /** It is a human's turn when the current player is in the table, human and still in play. */
    predicate IsHumanTurn()
      reads this
      requires PlayersSized()
      ensures IsHumanTurn() ==> currentPlayer < MAX_PLAYERS
      ensures IsHumanTurn() <==> GetPlayer(currentPlayer).isHuman && !GetPlayer(currentPlayer).isEliminated
    {
      currentPlayer < MAX_PLAYERS && players[currentPlayer].isHuman && !players[currentPlayer].isEliminated
    }

    /** Bounds-checked lookup: present exactly for an id below the territory count. */
    function GetTerritory(id: nat): (t: Option<Territory>)
      reads this
      ensures t.Some? <==> id < |territories|
      ensures t.Some? ==> t.value == territories[id]
    {
      if id < |territories| then Some(territories[id]) else None
    }

    /** The territory holding `c`, or `TERRITORY_NONE` for an unassigned hex. */
    function GetTerritoryAt(c: Hex): (id: nat)
      reads this
      ensures c in hexToTerritory ==> id == hexToTerritory[c]
      ensures c !in hexToTerritory ==> id == TERRITORY_NONE
    {
      TerritoryAt(hexToTerritory, c)
    }

    /** Counts the territories owned by `player` in one pass. */
    method CountTerritoriesOwned(player: nat) returns (count: nat)
      ensures count == OwnedCount(territories, player)
      ensures count <= |territories|
      ensures count == 0 <==> forall i :: 0 <= i < |territories| ==> territories[i].owner != player
    {
      count := 0;
      var i := 0;
      while i < |territories|
        invariant 0 <= i <= |territories|
        invariant count == OwnedCount(territories[..i], player)
      {
        PrefixStep(territories, i);
        if territories[i].owner == player {
          count := count + 1;
        }
        i := i + 1;
      }
      WholePrefix(territories);
      OwnedCountBounds(territories, player);
    }

    /** Sums the dice on the territories owned by `player` in one pass. */
    method CountDiceOwned(player: nat) returns (count: nat)
      ensures count == OwnedDice(territories, player)
      ensures (forall i :: 0 <= i < |territories| ==> territories[i].diceCount >= 1)
                ==> count >= OwnedCount(territories, player)
    {
      count := 0;
      var i := 0;
      while i < |territories|
        invariant 0 <= i <= |territories|
        invariant count == OwnedDice(territories[..i], player)
      {
        PrefixStep(territories, i);
        if territories[i].owner == player {
          count := count + territories[i].diceCount;
        }
        i := i + 1;
      }
      WholePrefix(territories);
      if forall i :: 0 <= i < |territories| ==> territories[i].diceCount >= 1 {
        DiceAtLeastCount(territories, player);
      }
    }
  }
}
