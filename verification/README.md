# hexempire simulation core in Dafny

hexempire is a turn-based dice-conquest game played on a hexagonal board. This
project models the game's simulation core and proves properties of that model:

- **Board**: axial hex coordinates, with their cube distance and six
  neighbour directions. The hexagon-shaped grid of a given radius.
- **Territory generation**: spaced seed selection and the priority-queue flood
  fill that partitions the grid into territories. Neighbour lists and
  territory centres. The round-robin deal of territories to players, with
  starting dice spread up to 8 per territory.
- **Island pruning**: the depth-first search that groups territories into
  islands, and the step that keeps only the largest island and renumbers the
  survivors.
- **Combat**: rolling dice, resolving a battle (ties go to the defender),
  applying the outcome with its `uint8` dice store. The timed FIFO queue of
  pending combat actions.
- **Turn flow** (the game controller): territory selection, attacks,
  elimination and victory checks, and the end of a turn. An end of turn adds
  reinforcements equal to the largest connected region and passes play to
  the next player still in the game.
- **AI**: neighbour counts, connected regions with their dice, whether a
  capture joins two of the AI's regions, candidate attack generation, and the
  choice between the best candidate and the runner-up.
- **Replay files**: the `[CONFIG]` key=value section and the
  `[ACTIONS]` comma-separated lines, with `std::stoi`/`std::stoul` parsing.
  The proofs show that a recorded game reads back as written.

## How the model is organised

Modules follow the source files:

| module | file |
|---|---|
| `HexCoord` | `hex_coord.dfy` |
| `HexGrid` | `hex_grid.dfy` |
| `GameData` | `game_data.dfy` |
| `CombatSystem` | `combat_system.dfy` |
| `CombatQueue` | `combat_queue.dfy` |
| `TerritoryGenerator` | `territory_generator.dfy` |
| `PlayerAssignment` | `player_assignment.dfy` |
| `IslandDetector` | `island_detector.dfy` |
| `GameRules` | `game_rules.dfy` |
| `OwnedRegions` | `owned_regions.dfy` |
| `GameController` | `game_controller.dfy` |
| `AIController` | `ai_controller.dfy` |
| `ReplayText` | `replay_text.dfy` |
| `ReplaySystem` | `replay_system.dfy` |

`GameRules` and `OwnedRegions` hold the specification functions that the
controller and the AI are proved against. Examples are `CanAttackOn`,
`ValidTargets`, `NextInPlay`, `MarkEliminated`, `Victor`, `Reachable` and
`RegionsOf`. `PlayerAssignment` is the second half of
`TerritoryGenerator.cpp`. `ReplayText` holds the number formatting and
parsing used by the replay format. `Wrappers` (the `Option` type) and
`Prefixes` (two sequence-prefix facts) are helpers.

Most of the code changes state step by step, and the model keeps that form:

- `GameState`, `HexGrid`, `CombatQueue`, `GameController`, `AIController`
  and `ReplaySystem` are classes whose fields the methods update.
- The loops of the source are `while` loops with invariants.
- Each method's `ensures` ties its result or its new state to a
  specification function.

Randomness is a parameter:

- a shuffled candidate or territory order;
- dice rolls constrained to 1..6;
- the AI's 30% "lucky draw".

File I/O is a parameter too: a flag saying whether the file opened, and the
file's lines as a sequence.

## Model

| member | source | states |
|---|---|---|
| HexCoord.Hex.Plus | src/hex/HexCoord.h:60-63 | `operator+`: the component-wise sum. `PlusMinusInverse` proves that `-` undoes it. |
| HexCoord.Hex.Minus | src/hex/HexCoord.h:65-68 | `operator-`: the component-wise difference. `PlusMinusInverse` proves that `+` undoes it. |
| HexCoord.Hex.Less | src/hex/HexCoord.h:85-89 | `operator<`: q decides, and r breaks a tie in q. `LessIsStrictTotalOrder` proves it a strict total order. |
| HexCoord.Hex.Neighbor | src/hex/HexCoord.h:103-106 | For a direction below 6, the neighbour is the cell plus that direction's unit step. Larger directions wrap modulo 6 (`NeighborPeriodic`). |
| HexCoord.AddAssign | src/hex/HexCoord.h:70-75 | `+=` yields the sum, and subtracting the same offset restores the original cell. |
| HexCoord.SubAssign | src/hex/HexCoord.h:77-82 | `-=` yields the difference, and adding the offset back restores the original cell. |
| HexCoord.PlusMinusInverse | src/hex/HexCoord.h:60-68 | `+` and `-` undo each other. |
| HexCoord.Distance | src/hex/HexCoord.h:33-39 | The hex distance written in axial fields. The lemmas below prove it is the cube distance, a metric, zero only between equal cells and invariant under translation. |
| HexCoord.DistanceInCubeTerms | src/hex/HexCoord.h:33-39 | The distance is half the sum of the absolute cube-coordinate differences. |
| HexCoord.DistanceIsMaxComponent | src/hex/HexCoord.h:33-39 | The distance equals the largest absolute cube-coordinate difference. |
| HexCoord.CubeSumIsTwiceMax | src/hex/HexCoord.h:33-39 | For cube components summing to zero, the sum of absolute values is twice the largest one, so the halving in Distance is exact. |
| HexCoord.DistanceZeroIffEqual | src/hex/HexCoord.h:33-39 | The distance is 0 exactly when the two cells are equal. |
| HexCoord.DistanceSymmetric | src/hex/HexCoord.h:41-44 | The distance from a to b equals the distance from b to a. |
| HexCoord.DistanceTranslate | src/hex/HexCoord.h:33-39 | Shifting both cells by the same offset keeps their distance. |
| HexCoord.CubeComponentsSumToZero | src/hex/HexCoord.h:28-30 | The derived cube coordinates x, y and z always sum to 0. |
| HexCoord.DirectionGap | src/hex/HexCoord.h:94-101 | Every one of the six unit steps has components in -1..1 and cube length 2. |
| HexCoord.DirectionsDistinct | src/hex/HexCoord.h:94-101 | The six direction vectors are pairwise distinct. |
| HexCoord.NeighborAtDistanceOne | src/hex/HexCoord.h:103-106 | Every neighbour, in any direction, is at distance 1. |
| HexCoord.NeighborPeriodic | src/hex/HexCoord.h:103-106 | Directions d and d+6 give the same neighbour (`direction % 6`). |
| HexCoord.OppositeIndex | src/hex/HexCoord.h:103-106 | The direction index d+3, taken modulo 6, is the opposite index of d. |
| HexCoord.OppositeIsShift | src/hex/HexCoord.h:94-101 | The opposite of direction k is k+3 or k-3. |
| HexCoord.OppositeCancels | src/hex/HexCoord.h:94-101 | A direction plus its opposite is the zero vector. |
| HexCoord.OppositeDirectionsCancel | src/hex/HexCoord.h:103-106 | Stepping in direction d and then in direction d+3 returns to the start. |
| HexCoord.NeighborSymmetric | src/hex/HexCoord.h:103-106 | The neighbour in direction d has the original cell as its neighbour in the opposite direction. |
| HexCoord.AdjacentIffNeighbor | src/hex/HexCoord.h:103-106 | Two cells are at distance 1 exactly when one is a neighbour of the other, and the direction is then unique. |
| HexCoord.LessIsStrictTotalOrder | src/hex/HexCoord.h:85-89 | `operator<` is irreflexive, asymmetric and transitive. It is total: incomparable means equal. |
| HexGrid.InHexagonIffNearOrigin | src/hex/HexGrid.cpp:22-32 | The cells the generation loops produce are exactly those within `radius` of the origin. |
| HexGrid.ColumnMembership | src/hex/HexGrid.cpp:24-25 | Within column q, a cell is in the hexagon exactly when r lies between the loop's lower and upper bounds. |
| HexGrid.GridSize | src/hex/HexGrid.cpp:15-33 | A grid of radius R has 3R(R+1)+1 cells. |
| HexGrid.CellsBeforeLeft | src/hex/HexGrid.cpp:22-32 | Closed form for the cells in the columns left of the centre. |
| HexGrid.CellsBeforeRight | src/hex/HexGrid.cpp:22-32 | Closed form for the cells in the columns up to a column right of the centre. |
| HexGrid.ClosedSetCoversHexagon | src/hex/HexGrid.cpp:40-55 | A set that holds one grid cell and is closed under in-grid neighbours holds every cell, so the grid is connected. |
| HexGrid.StepTowardInside | src/hex/HexGrid.cpp:40-55 | Between two distinct grid cells there is always an in-grid neighbour one step closer to the target. |
| HexGrid.StepWitness | src/hex/HexGrid.cpp:40-55 | A direction heading toward an in-grid target leads to a grid cell one step closer to it. |
| HexGrid.StepStaysInside | src/hex/HexGrid.cpp:40-55 | A step toward an in-grid target stays inside the grid. |
| HexGrid.StepCloser | src/hex/HexGrid.cpp:40-55 | A unit step toward a target lowers the distance by exactly one. |
| HexGrid.SortedHasNoDuplicates | src/hex/HexGrid.cpp:22-32 | A strictly sorted cell list has no repeated cell. |
| HexGrid.NeighborsFrom | src/hex/HexGrid.cpp:40-55 | The neighbour scan from direction `from` lists exactly the valid cells among the remaining directions, and at most 6-from of them. |
| HexGrid.ValidNeighborsAreAdjacent | src/hex/HexGrid.cpp:40-55 | The neighbour list holds at most 6 cells: exactly the valid cells at distance 1. |
| HexGrid.ValidNeighborsSymmetric | src/hex/HexGrid.cpp:40-55 | For two valid cells, b is listed as a's neighbour exactly when a is listed as b's. |
| HexGrid.HexGrid.constructor | src/hex/HexGrid.cpp:9-13 | The new grid is consistent, and a radius R of at least 0 gives 3R(R+1)+1 cells. |
| HexGrid.HexGrid.GenerateHexagonalGrid | src/hex/HexGrid.cpp:15-33 | The coordinate list and the valid set hold exactly the hexagon's cells, with no duplicates. The count is 3R(R+1)+1, or 0 for a negative radius. |
| HexGrid.HexGrid.AppendColumn | src/hex/HexGrid.cpp:26-31 | One pass of the inner loop adds exactly column q of the hexagon, keeping the list sorted. |
| HexGrid.HexGrid.IsValid | src/hex/HexGrid.cpp:35-38 | A cell is valid exactly when it is in the grid, that is, within `radius` of the origin. |
| HexGrid.HexGrid.GetNeighbors | src/hex/HexGrid.cpp:40-55 | Returns the valid neighbours in direction order: at most 6, exactly the valid cells at distance 1. |
| GameData.Territory.CanAttack | src/game/GameData.h:67 | A territory can attack when it holds at least two dice. `GameRules.CanAttackOn` uses it. |
| GameData.OwnedCountBounds | src/game/GameData.h:175-181 | A player owns at most all territories, and owns none exactly when no territory has them as owner. |
| GameData.OwnedCountUpdate | src/game/GameData.h:175-181 | Replacing one territory changes a player's territory count by that territory's ownership change only. |
| GameData.OwnedDiceUpdate | src/game/GameData.h:183-189 | Replacing one territory changes a player's dice total by that territory's contribution change only. |
| GameData.DiceAtLeastCount | src/game/GameData.h:183-189 | With at least one die on every territory, a player's dice total is at least their territory count. |
| GameData.GameState.constructor | src/game/GameData.h:112-142 | A fresh state has the field defaults: player 0, turn 1, SelectAttacker, nothing selected, no winner, null players. |
| GameData.GameState.IsGameOver | src/game/GameData.h:145 | The game is over exactly when a winner is set. |
| GameData.GameState.GetPlayer | src/game/GameData.h:169-173 | An id below MAX_PLAYERS gives that player. Any other id gives the null player with id PLAYER_NONE. |
| GameData.GameState.IsHumanTurn | src/game/GameData.h:147-151 | It is a human's turn exactly when the current player exists, is human and is not eliminated. |
| GameData.GameState.GetTerritory | src/game/GameData.h:153-161 | There is a territory exactly when the id is in range, and it is the one at that index. |
| GameData.GameState.GetTerritoryAt | src/game/GameData.h:163-167 | A mapped cell gives its territory id. An unmapped cell gives TERRITORY_NONE. |
| GameData.GameState.CountTerritoriesOwned | src/game/GameData.h:175-181 | Counts the player's territories: at most all of them, and 0 exactly when the player owns none. |
| GameData.GameState.CountDiceOwned | src/game/GameData.h:183-189 | Sums the dice on the player's territories. With every territory holding a die, the sum is at least their count. |
| CombatSystem.RollDice | src/game/CombatSystem.cpp:28-37 | Rolls max(count, 0) dice, each between 1 and 6. |
| CombatSystem.SumOfRollsBounds | src/game/CombatSystem.cpp:55-64 | n valid dice sum to between n and 6n. |
| CombatSystem.Resolve | src/game/CombatSystem.cpp:39-70 | The result carries both territory ids and owners. Each total lies between the dice count and six times it. |
| CombatSystem.TieGoesToDefender | src/game/CombatSystem.cpp:66-67 | The attacker wins exactly when its total is strictly greater, so a tie goes to the defender. |
| CombatSystem.OverwhelmingAttackWins | src/game/CombatSystem.cpp:55-67 | An attacker with more than six times the defender's dice always wins. |
| CombatSystem.HopelessAttackLoses | src/game/CombatSystem.cpp:55-67 | An attacker with at most a sixth of the defender's dice always loses. |
| CombatSystem.ResolveCombat | src/game/CombatSystem.cpp:39-70 | Rolls one die per die on each side and resolves the battle by the rules above. |
| CombatSystem.ToByte | src/game/CombatSystem.cpp:79-91 | A store into a `uint8` keeps values in 0..255 unchanged and always yields a byte. |
| CombatSystem.AfterCombat | src/game/CombatSystem.cpp:72-97 | The board after a battle keeps its length, and only the attacker and the defender can change. |
| CombatSystem.OutOfRangeChangesNothing | src/game/CombatSystem.cpp:74-77 | A result naming a missing territory leaves the board unchanged. |
| CombatSystem.CaptureOutcome | src/game/CombatSystem.cpp:79-91 | On a win the defender changes owner and receives the attacker's dice minus one (as a byte). The attacker keeps one die, and nothing else changes. |
| CombatSystem.CaptureConservesAttackerDice | src/game/CombatSystem.cpp:79-91 | On a win without byte overflow, the two territories end up holding exactly the attacker's former dice. |
| CombatSystem.DefenceOutcome | src/game/CombatSystem.cpp:92-96 | On a loss only the attacker changes: it is reduced to one die. |
| CombatSystem.CaptureTransfersOneTerritory | src/game/CombatSystem.cpp:79-91 | A capture gives the attacker one more territory and the defender one fewer. |
| CombatSystem.CaptureCounts | src/game/CombatSystem.cpp:79-91 | For every player, a capture moves exactly one territory from the defender's owner to the attacker. |
| CombatSystem.AfterCombatKeepsIds | src/game/CombatSystem.cpp:72-97 | Applying a result keeps the territory count, the ids and every neighbour list. |
| CombatSystem.ApplyCombatResult | src/game/CombatSystem.cpp:72-97 | The board becomes the combat outcome. The map is flagged for refresh exactly on a capture between existing territories. |
| CombatQueue.CombatQueue.constructor | src/game/CombatQueue.h:40-43 | A new queue is empty, with zero delay and timer, and nothing ready. |
| CombatQueue.CombatQueue.QueueAction | src/game/CombatQueue.cpp:7-16 | Appends the action. Queueing into an empty queue restarts the timer, ready at once with no delay; otherwise timer and readiness stay. |
| CombatQueue.CombatQueue.HasPendingActions | src/game/CombatQueue.cpp:18-20 | True exactly when actions are queued. |
| CombatQueue.CombatQueue.IsProcessing | src/game/CombatQueue.cpp:22-24 | Processing means the same as having pending actions. |
| CombatQueue.CombatQueue.GetQueueSize | src/game/CombatQueue.cpp:74-76 | The size is 0 exactly when nothing is pending. |
| CombatQueue.CombatQueue.Update | src/game/CombatQueue.cpp:26-36 | With actions pending, the timer counts down by the frame time and the head becomes ready once it reaches 0. An empty queue is never ready. |
| CombatQueue.CombatQueue.PopNextAction | src/game/CombatQueue.cpp:38-56 | Returns the head exactly when it is ready, in first-in-first-out order, and re-arms the timer for the next action. Otherwise nothing changes. |
| CombatQueue.CombatQueue.SetProcessingDelay | src/game/CombatQueue.cpp:58-60 | Stores the delay used for later actions. |
| CombatQueue.CombatQueue.GetProcessingDelay | src/game/CombatQueue.cpp:62-64 | Reads back the stored delay. |
| CombatQueue.CombatQueue.Clear | src/game/CombatQueue.cpp:66-72 | Empties the queue, resets timer and readiness, and keeps the delay. |
| CombatQueue.FirstInFirstOut | src/game/CombatQueue.cpp:38-56 | With no delay, two queued actions come out in the order they went in, and then nothing. |
| CombatQueue.DelayHoldsOrder | src/game/CombatQueue.cpp:26-36 | With a positive delay, an action is withheld before the delay has elapsed and released after it. |
| TerritoryGenerator.MinSeedDistance | src/hex/TerritoryGenerator.cpp:63-64 | The spacing is at least 1. Above 1 it is the integer part of 0.8·sqrt(cells / target), computed exactly rather than in `float`. |
| TerritoryGenerator.ScaledRootFrom | src/hex/TerritoryGenerator.cpp:63-64 | The integer square-root search finds the largest d with 25·d²·target ≤ 16·cells: the exact form of the source's `float` expression. |
| TerritoryGenerator.GreedySpacedProperties | src/hex/TerritoryGenerator.cpp:68-87 | The greedy pass picks at most `target` distinct candidates, pairwise at least the spacing apart, and at least one when there is one. |
| TerritoryGenerator.GreedySpacedStops | src/hex/TerritoryGenerator.cpp:68-87 | Once `target` seeds are picked, later candidates change nothing (the loop's early exit). |
| TerritoryGenerator.StridedProperties | src/hex/TerritoryGenerator.cpp:90-99 | The fallback stride picks distinct candidates, at least one when any exist. |
| TerritoryGenerator.ShufflePreservesNoDuplicates | src/hex/TerritoryGenerator.cpp:59-60 | Shuffling a duplicate-free candidate list keeps it duplicate-free. |
| TerritoryGenerator.IsTooClose | src/hex/TerritoryGenerator.cpp:73-81 | A candidate is too close exactly when some chosen seed is within the spacing. |
| TerritoryGenerator.SpacedSeeds | src/hex/TerritoryGenerator.cpp:68-87 | The loop computes the greedy spaced selection. |
| TerritoryGenerator.StridedSeeds | src/hex/TerritoryGenerator.cpp:90-99 | The fallback loop takes every step-th candidate, up to the target. |
| TerritoryGenerator.SelectSeedPoints | src/hex/TerritoryGenerator.cpp:48-102 | No seeds for an empty grid or a non-positive target. Otherwise between 1 and `target` distinct grid cells. They are spaced by the minimum distance, or strided when too few spaced seeds were found. |
| TerritoryGenerator.ItemLessIsStrictOrder | src/hex/TerritoryGenerator.cpp:134-157 | The priority-queue order is a strict order. |
| TerritoryGenerator.TopExists | src/hex/TerritoryGenerator.cpp:134-157 | A non-empty queue always has a top item to pop. |
| TerritoryGenerator.PartitionExtend | src/hex/TerritoryGenerator.cpp:143-145 | Claiming an unassigned cell for a territory keeps territories and cell index a partition. |
| TerritoryGenerator.PartitionDisjoint | src/hex/TerritoryGenerator.cpp:143-145 | In a partition no cell belongs to two territories. |
| TerritoryGenerator.PushNeighbors | src/hex/TerritoryGenerator.cpp:147-156 | Every valid unclaimed neighbour is queued for the same territory, at distance one to three further. Queued items are never dropped. |
| TerritoryGenerator.ClaimNext | src/hex/TerritoryGenerator.cpp:136-156 | One pop either skips an already-claimed cell or claims it. Either way the fill invariant is kept and the work left shrinks. |
| TerritoryGenerator.NewTerritories | src/hex/TerritoryGenerator.cpp:111-118 | Creates one empty territory per seed, with ids 0, 1, and so on. |
| TerritoryGenerator.SeedEntries | src/hex/TerritoryGenerator.cpp:125-128 | Queues each seed at distance 0 for its own territory. |
| TerritoryGenerator.FloodFillTerritories | src/hex/TerritoryGenerator.cpp:104-158 | The result is a partition of the claimed grid cells with one territory per seed. Distinct seeds claim their own cell, and with at least one seed every grid cell is claimed. |
| TerritoryGenerator.FilledGridIsCovered | src/hex/TerritoryGenerator.cpp:134-157 | When the queue runs dry, every grid cell has been claimed. |
| TerritoryGenerator.NeighborIdsMembers | src/hex/TerritoryGenerator.cpp:160-185 | A territory's neighbour ids are exactly the other territories owning a valid cell adjacent to one of its cells. |
| TerritoryGenerator.NeighborIdsSymmetric | src/hex/TerritoryGenerator.cpp:160-185 | If j is computed as a neighbour of i, then i is computed as a neighbour of j. |
| TerritoryGenerator.CollectNeighborIds | src/hex/TerritoryGenerator.cpp:168-181 | The loops over cells and directions collect exactly the neighbour ids. |
| TerritoryGenerator.ListOf | src/hex/TerritoryGenerator.cpp:183 | The set of ids becomes a duplicate-free list with the same members. |
| TerritoryGenerator.CalculateTerritoryNeighbors | src/hex/TerritoryGenerator.cpp:160-185 | Every territory's neighbour list becomes its computed neighbour ids, without duplicates. Nothing else changes. |
| TerritoryGenerator.ComputedNeighborsAreSymmetric | src/hex/TerritoryGenerator.cpp:160-185 | Computed neighbour lists are symmetric. |
| TerritoryGenerator.FindTerritoryCenter | src/hex/TerritoryGenerator.cpp:187-219 | The centre of a non-empty territory is one of its own cells: the only one for a single cell. An empty territory gives the origin. |
| TerritoryGenerator.AssignCenters | src/hex/TerritoryGenerator.cpp:42-45 | Every non-empty territory gets a centre among its cells, and nothing else changes. |
| TerritoryGenerator.FloodFromSeeds | src/hex/TerritoryGenerator.cpp:25-46 | Seeding and filling produce between 1 and `target` non-empty territories partitioning the whole grid, or none for an empty grid or a non-positive target. |
| TerritoryGenerator.Generate | src/hex/TerritoryGenerator.cpp:25-46 | Adds the above, with each territory fresh and its neighbours computed. Neighbour lists are symmetric when ids stay below TERRITORY_NONE. |
| PlayerAssignment.RoundRobinShareClosedForm | src/hex/TerritoryGenerator.cpp:234-238 | Dealing n territories round robin gives player p n/k territories, plus one when p < n mod k. |
| PlayerAssignment.RoundRobinBalanced | src/hex/TerritoryGenerator.cpp:234-238 | Round-robin shares differ by at most one. |
| PlayerAssignment.OwnedCountIsCardinality | src/hex/TerritoryGenerator.cpp:244-248 | The territory count of a player is the size of their owned set. |
| PlayerAssignment.DealRoundRobin | src/hex/TerritoryGenerator.cpp:234-238 | The i-th territory in the shuffled order goes to player i mod k. Only owners change. |
| PlayerAssignment.DealStepFor | src/hex/TerritoryGenerator.cpp:234-238 | After dealing i+1 territories, each player holds its round-robin share of them. |
| PlayerAssignment.DealtOwners | src/hex/TerritoryGenerator.cpp:234-238 | After the deal every owner is below the player count, and each player owns its round-robin share. |
| PlayerAssignment.SpareCapacityZero | src/hex/TerritoryGenerator.cpp:257-274 | A player has no spare room exactly when all their territories hold 8 dice. |
| PlayerAssignment.SpareCapacityUpdate | src/hex/TerritoryGenerator.cpp:257-274 | Replacing one territory changes a player's spare room by that territory's room change only. |
| PlayerAssignment.OneDieEach | src/hex/TerritoryGenerator.cpp:252-254 | With one die per territory, the dice equal the territory count and the spare room is 7 per territory. |
| PlayerAssignment.StartingTotal | src/hex/TerritoryGenerator.cpp:252-274 | Starting from one die each, spreading `s` dice over k territories ends with max(k, min(s, 8k)) dice. |
| PlayerAssignment.StartingDiceFromOneEach | src/hex/TerritoryGenerator.cpp:241-274 | The dice-spreading formula applied to a freshly dealt board gives the same total, max(k, min(s, 8k)). |
| PlayerAssignment.TerritoriesOf | src/hex/TerritoryGenerator.cpp:244-248 | Lists exactly the player's territories, as many as they own. |
| PlayerAssignment.SpreadOneDie | src/hex/TerritoryGenerator.cpp:257-274 | One loop pass either raises a non-full pick by a die or drops a full pick. Either way the spreading invariant holds. |
| PlayerAssignment.DistributeStartingDice | src/hex/TerritoryGenerator.cpp:241-275 | The player's territories get max(s − owned, 0) extra dice, capped by spare room. Each territory stays at most 8, and other players are untouched. |
| PlayerAssignment.SpreadAllStartingDice | src/hex/TerritoryGenerator.cpp:241-275 | Every player in turn gets their starting dice spread. |
| PlayerAssignment.AssignToPlayers | src/hex/TerritoryGenerator.cpp:221-276 | Nothing happens without territories or players. Otherwise territories are dealt round robin in the shuffled order, every owner is a real player, and each owns its share. Each player's dice rise by min(max(s − owned, 0), spare room), never past 8 per territory. Only owners and dice change. |
| IslandDetector.DFSTerritory | src/hex/IslandDetector.cpp:34-57 | The search visits the start first and appends each newly visited territory to the island once, with its hex count. Every newly visited id is reached from the start through neighbour lists, and no neighbour of one is left unvisited. |
| IslandDetector.FindIslands | src/hex/IslandDetector.cpp:11-32 | The islands are well formed, disjoint and cover every territory. Every member of an island is reached from its first territory through neighbour lists, and with symmetric neighbour lists each island is closed under neighbours. |
| IslandDetector.IslandIsComponent | src/hex/IslandDetector.h:22 | With symmetric neighbour lists every island found is a whole connected group: its members are exactly the ids reached from its first territory. |
| IslandDetector.FindLargestIsland | src/hex/IslandDetector.cpp:71-78 | Picks the island with the most hexes, the first one on ties. |
| IslandDetector.LargestIsUnique | src/hex/IslandDetector.cpp:71-78 | That tie rule names exactly one island. |
| IslandDetector.RemoveOtherIslands | src/hex/IslandDetector.cpp:87-105 | Returns the ids of all territories outside the largest island, and erases their hexes from the cell index. |
| IslandDetector.OtherIdsMembers | src/hex/IslandDetector.cpp:87-105 | An id is removed exactly when it belongs to an island other than the largest. |
| IslandDetector.OtherIdsNoDuplicates | src/hex/IslandDetector.cpp:87-105 | No id is reported as removed twice. |
| IslandDetector.RemovedAreTheOthers | src/hex/IslandDetector.cpp:81-105 | A territory is removed exactly when it is not in the kept island. |
| IslandDetector.EraseIsland | src/hex/IslandDetector.cpp:92-104 | Erases exactly the hexes of the given territories from the cell index. |
| IslandDetector.CompactTerritories | src/hex/IslandDetector.cpp:108-121 | Keeps the kept territories in order, renumbering them 0, 1, and so on, and records old id → new id. |
| IslandDetector.CompactedShape | src/hex/IslandDetector.cpp:108-121 | The renumbering is order-preserving and invertible on the kept ids. |
| IslandDetector.RemapList | src/hex/IslandDetector.cpp:126-135 | Rewrites a neighbour list through the id map, dropping removed neighbours. |
| IslandDetector.RemapNeighborLists | src/hex/IslandDetector.cpp:124-136 | Every kept territory's neighbour list is rewritten that way, and nothing else changes. |
| IslandDetector.RelabelIndex | src/hex/IslandDetector.cpp:139-146 | Every cell of a kept territory now points at its new id. |
| IslandDetector.KeepLargestIslandOnly | src/hex/IslandDetector.cpp:59-150 | With at most one island nothing changes. Otherwise the removed ids are those outside the largest island. The territories are pruned and renumbered, and the cell index is erased and relabelled to match. |
| IslandDetector.PrunedIdsAreIndices | src/hex/IslandDetector.cpp:108-121 | After pruning, every territory's id equals its index. |
| IslandDetector.PrunedKeepsOrder | src/hex/IslandDetector.cpp:108-121 | Pruning keeps exactly the kept territories, in their original order, otherwise unchanged. |
| IslandDetector.PrunedNeighborsInRange | src/hex/IslandDetector.cpp:124-136 | After pruning, every neighbour id names an existing territory. |
| IslandDetector.PrunedSymmetric | src/hex/IslandDetector.cpp:124-136 | Pruning keeps neighbour lists symmetric. |
| IslandDetector.KeptIslandLosesNoNeighbor | src/hex/IslandDetector.cpp:124-136 | Territories of the kept island keep all their neighbours, since an island is closed under neighbours. |
| IslandDetector.ErasedLeavesKept | src/hex/IslandDetector.cpp:87-105 | After the erasure, the cell index holds exactly the cells of kept territories. |
| IslandDetector.PrunedPartition | src/hex/IslandDetector.cpp:87-148 | Territories and cell index still form a partition after pruning and relabelling. |
| IslandDetector.RelabelledCellsSound | src/hex/IslandDetector.cpp:139-146 | Every relabelled cell points at a surviving territory that holds it. |
| IslandDetector.RelabelledCellsComplete | src/hex/IslandDetector.cpp:139-146 | Every cell of a surviving territory is indexed under that territory's new id. |
| GameRules.CanAttackOn | src/game/GameController.cpp:184-202 | The attack rule: both ids exist, the attacker is the current player's and can attack, the defender is someone else's, and it is listed as the attacker's neighbour. |
| GameRules.AttackJoinsTwoTerritories | src/game/GameController.cpp:184-202 | An allowed attack is between two distinct territories with different owners. |
| GameRules.TargetsAmongMembers | src/game/GameController.cpp:204-217 | Filtering a neighbour list keeps exactly the attackable ones, in order, without adding duplicates. |
| GameRules.ValidTargetsExactly | src/game/GameController.cpp:204-217 | The valid targets are exactly the territories the selection may attack. There are none when the source cannot attack, and no duplicates. |
| GameRules.Offset | src/game/GameController.cpp:70-91 | Seat offset d of k players is never the current seat, and wraps past the end exactly when current + d ≥ k. |
| GameRules.NextInPlayFrom | src/game/GameController.cpp:72-83 | The search finds nobody exactly when every remaining seat is eliminated. Otherwise it finds the first seat still in play. |
| GameRules.NextInPlayIsNext | src/game/GameController.cpp:70-91 | The next player is another, non-eliminated seat: the first in turn order. There is none exactly when all others are out. |
| GameRules.EliminationLowersInPlay | src/game/GameController.cpp:354-365 | Elimination lowers the in-play count by exactly the number knocked out. |
| GameRules.EliminationIsStable | src/game/GameController.cpp:354-365 | Players still owning land are untouched, and a second check eliminates nobody. |
| GameRules.NoneKnockedOut | src/game/GameController.cpp:354-365 | If nobody is knocked out, the knocked-out count is 0. |
| GameRules.ScanFromOwner | src/game/GameController.cpp:336-352 | Once an owner is found, the scan keeps it exactly when every later territory shares it. |
| GameRules.VictorIsWinner | src/game/GameController.cpp:336-352 | The victor check names w exactly when w wins by the scan's rule. |
| GameRules.SoleOwnerWins | src/game/GameController.cpp:336-352 | A player owning every territory is the victor. |
| GameRules.VictorOwnsEveryOwned | src/game/GameController.cpp:336-352 | A victor owns at least one territory and every owned one. |
| GameRules.SharedBoardHasNoVictor | src/game/GameController.cpp:336-352 | Two different owners on the board means no victor. |
| GameRules.UnownedOnlyCountsAfterFirstOwner | src/game/GameController.cpp:336-352 | Unowned territories are skipped only before the first owner; one found later spoils a victory. |
| OwnedRegions.MaxSizeIsMaximum | src/game/GameController.cpp:287-334 | The largest region size bounds every region and is attained by one when there are regions. |
| OwnedRegions.ReachStep | src/game/GameController.cpp:307-328 | Reaching a territory extends to its owned neighbours. |
| OwnedRegions.PathStaysIn | src/game/GameController.cpp:307-328 | An owned path starting in a closed region stays in it. |
| OwnedRegions.RegionIsComponent | src/game/GameController.cpp:307-328 | A rooted, closed region is exactly the set of owned territories reachable from its root. |
| OwnedRegions.RegionWithinOwned | src/game/GameController.cpp:287-334 | No region is bigger than the player's territory count. |
| OwnedRegions.LargestRegionBounds | src/game/GameController.cpp:287-334 | The largest region is at most the territory count, and 0 exactly when the player owns nothing. |
| GameController.VisitNeighbors | src/game/GameController.cpp:320-327 | Queues each unvisited owned neighbour once and marks it visited. |
| GameController.ExploreRegion | src/game/GameController.cpp:307-328 | The breadth-first search returns the region rooted at the start, closed under owned neighbours, with its size. |
| GameController.ScanTerritory | src/game/GameController.cpp:303-331 | One outer pass explores a new region from an unvisited owned territory, or skips it. |
| GameController.SeekNextInPlay | src/game/GameController.cpp:72-83 | Finds the next seat in play, or reports that play came full circle with nobody else left. |
| GameController.GameController.constructor | src/game/GameController.cpp:13-16 | Wraps the given state with a zero AI timer. |
| GameController.GameController.StartTurn | src/game/GameController.cpp:57-68 | Sets the current player and clears the selection. A human starts in SelectAttacker; an AI starts in AITurn with the think delay. |
| GameController.GameController.AdvanceToNextPlayer | src/game/GameController.cpp:70-91 | Play passes to the next player still in the game, counting a new turn on wrap-around. With nobody else left, the game ends with the current player as winner. |
| GameController.GameController.SelectTerritory | src/game/GameController.cpp:93-118 | Outside the selection phases nothing happens. Reselecting deselects. Another territory is selected exactly when the current player owns it and it can attack, and then the valid targets are listed. |
| GameController.GameController.Attack | src/game/GameController.cpp:120-160 | Succeeds exactly when an attacker is selected in an attack phase and the target is attackable. Then the battle is fought and applied, eliminations and victory are checked, the selection is cleared and the phase moves on, as `AttackSettled` states. On failure nothing changes. |
| GameController.GameController.Battle | src/game/GameController.cpp:132-142 | The battle is resolved with valid rolls and its outcome applied. The combat is marked pending. |
| GameController.GameController.Settle | src/game/GameController.cpp:145-157 | Eliminations and victory are recorded, the selection is cleared, and the phase follows the outcome. |
| GameController.GameController.CancelSelection | src/game/GameController.cpp:162-166 | Clears the selection and returns to SelectAttacker. |
| GameController.GameController.EndTurn | src/game/GameController.cpp:168-182 | When the game is over nothing changes. Otherwise the player is reinforced by their largest region and play passes on. |
| GameController.GameController.Reinforce | src/game/GameController.cpp:174-178 | Adds dice equal to the largest connected region to the current player's territories. |
| GameController.GameController.CanAttack | src/game/GameController.cpp:184-202 | The controller's check is `CanAttackOn` on its board and current player. |
| GameController.GameController.GetValidTargets | src/game/GameController.cpp:204-217 | Returns exactly the territories the selection may attack. |
| GameController.GameController.UpdateValidTargets | src/game/GameController.cpp:219-221 | Stores the valid targets of the current selection. |
| GameController.GameController.EligibleTerritories | src/game/GameController.cpp:257-262 | Lists exactly the player's territories with fewer than 8 dice. |
| GameController.GameController.ReinforceOne | src/game/GameController.cpp:268-284 | One pass adds a die to a random eligible territory or drops a full one, keeping the spreading invariant. |
| GameController.GameController.DistributeReinforcements | src/game/GameController.cpp:255-285 | Only the player's dice change, never past 8. The player's total rises by min(max(amount, 0), spare room). |
| GameController.GameController.FindLargestContiguousRegion | src/game/GameController.cpp:287-334 | Returns the size of the player's largest connected region, over regions that, with symmetric neighbour lists, are exactly the connected components of their territories. |
| GameController.GameController.CheckVictory | src/game/GameController.cpp:336-352 | A victor becomes the winner and the game ends. Otherwise nothing changes. |
| GameController.GameController.CheckElimination | src/game/GameController.cpp:354-365 | Players left without territory are eliminated, and the active count drops by their number. |
| GameController.AfterAttackPhase | src/game/GameController.cpp:153-157 | A victory ends the game. A human keeps playing in SelectAttacker. An earlier winner leaves the phase as it was. |
| GameController.NoDiceAdded | src/game/GameController.cpp:255-285 | Adding zero dice is the no-change outcome. |
| GameController.DiceAddedKeepsIds | src/game/GameController.cpp:255-285 | Reinforcing keeps ids, owners and neighbour lists. |
| GameController.NextSeat | src/game/GameController.cpp:73-74 | Stepping the seat index by one and wrapping gives the next offset. |
| GameController.SeatReturns | src/game/GameController.cpp:73-82 | The seat search comes back to the current player only after a full circle. |
| AIController.SideAmong | src/game/AIController.cpp:442-476 | Selects exactly the on-board neighbours that are friendly (or hostile). |
| AIController.SidesCoverBoard | src/game/AIController.cpp:442-476 | Friendly and hostile neighbours together are all on-board neighbours. |
| AIController.CountEnemyNeighbors | src/game/AIController.cpp:442-458 | Counts the neighbours owned by others, or 0 for a missing territory. |
| AIController.CountFriendlyNeighbors | src/game/AIController.cpp:460-476 | Counts the neighbours the player owns, or 0 for a missing territory. |
| AIController.NeighborCountsAddUp | src/game/AIController.cpp:442-476 | Enemy plus friendly neighbours equal all on-board neighbours. |
| AIController.GetStrongestAdjacentEnemy | src/game/AIController.cpp:478-494 | Returns the largest dice count among enemy neighbours: attained by one of them, or 0 when there are none. |
| AIController.DiceOnOwned | src/game/AIController.cpp:219-274 | The dice over all the player's territories equal their dice total. |
| AIController.DiceOnAdd | src/game/AIController.cpp:253-254 | Adding a territory to a region adds its dice. |
| AIController.OwnedIds | src/game/AIController.cpp:226-233 | The collected ids are exactly the player's territories. |
| AIController.ExploreFrom | src/game/AIController.cpp:241-268 | The breadth-first search returns the rooted, closed region of the start, together with its dice. |
| AIController.FindContiguousRegions | src/game/AIController.cpp:219-274 | The regions split the player's territories, each reached from its root through the player's territories and carrying its dice total. With symmetric neighbour lists they are exactly the connected components. |
| AIController.FindLargestRegion | src/game/AIController.cpp:276-289 | Returns nothing for no regions. Otherwise the largest, the first on ties, whose size is the maximum. |
| AIController.RegionOf | src/game/AIController.cpp:309-329 | Names the first region holding a territory, or none when no region does. |
| AIController.FindRegionHolding | src/game/AIController.cpp:309-329 | The lookup loop finds that region. |
| AIController.Touched | src/game/AIController.cpp:301-331 | The regions an attack target touches are distinct, existing and non-empty. |
| AIController.TouchedMembers | src/game/AIController.cpp:301-331 | A region is touched exactly when one of the target's owned neighbours lies in it. |
| AIController.TouchedTwice | src/game/AIController.cpp:301-334 | The target touches two regions exactly when two of its owned neighbours lie in different regions. |
| AIController.SumBeyondMax | src/game/AIController.cpp:341-350 | The touched regions' sizes minus the largest is at least the number of others touched. |
| AIController.ConnectionMeaning | src/game/AIController.cpp:291-357 | A capture connects exactly when the target touches two regions, and then the gain is at least 2. Otherwise the gain is 0. |
| AIController.WouldConnectRegions | src/game/AIController.cpp:291-357 | Computes whether the capture connects regions, and the income gain. |
| AIController.AttackPairsAllowed | src/game/AIController.cpp:83-120 | Candidates from the first i territories are exactly the allowed attacks from them. |
| AIController.CandidatesAreTheAllowedAttacks | src/game/AIController.cpp:73-123 | The candidates are exactly the allowed attacks, each listed once. |
| AIController.EvaluateFrom | src/game/AIController.cpp:92-119 | Evaluates every attack from one territory, in neighbour order, with its dice, odds, region flags and score. |
| AIController.EvaluateAttacks | src/game/AIController.cpp:73-123 | One evaluation per allowed attack, each correctly filled in, using the player's true regions and the first of the largest ones. |
| AIController.HighestScored | src/game/AIController.cpp:40-46 | Finds a top-scoring candidate, optionally skipping one index. |
| AIController.ChooseAttack | src/game/AIController.cpp:46-63 | No attack unless the best clears both thresholds. Otherwise the best, or the runner-up on a lucky draw when it scores above 90% of the best. |
| AIController.AIController.constructor | src/game/AIController.cpp:13-26 | Binds the AI to its game controller. |
| AIController.AIController.TakeAction | src/game/AIController.cpp:28-71 | The AI evaluates exactly the allowed attacks on the board it started from. Each evaluation carries the dice counts, `winChance` and `rate` of its attack and the region facts of the player's true regions. It picks by the selection rule. With no choice nothing changes. Otherwise it selects the source and attacks. The attack succeeds exactly when it is allowed in the current phase. Then the state is what `Attack` leaves: battle applied, eliminations and winner settled, selection cleared, phase moved on. On failure only the selection changed. |
| ReplayText.DigitChar | src/game/ReplaySystem.cpp:60-72 | Every digit value is written as a decimal digit. |
| ReplayText.NatToStringValue | src/game/ReplaySystem.cpp:60-72 | A natural written by `operator<<` is a non-empty digit string whose value is that number. |
| ReplayText.DigitRunLongest | src/game/ReplaySystem.cpp:146-158 | The digit run that `stoi` reads is the longest leading run of digits. |
| ReplayText.SkipSpaceSuffix | src/game/ReplaySystem.cpp:146-158 | Leading whitespace is skipped, as `stoi` does. |
| ReplayText.ParseInt | src/game/ReplaySystem.cpp:146-158 | A successful `stoi` yields a 32-bit value. Failure means no digits or out of range. |
| ReplayText.ParseUnsigned | src/game/ReplaySystem.cpp:155 | A successful `stoul` yields at most ULONG_MAX. |
| ReplayText.NatRoundTrip | src/game/ReplaySystem.cpp:146-158 | Parsing a written number gives it back, within each parser's range. |
| ReplayText.IntRoundTrip | src/game/ReplaySystem.cpp:146-158 | Every 32-bit int written by `operator<<` is read back by `stoi`. |
| ReplayText.NegativeRoundTrip | src/game/ReplaySystem.cpp:146-158 | Negative 32-bit ints also read back. |
| ReplayText.ParseIgnoresTrailing | src/game/ReplaySystem.cpp:146-158 | `stoi` ignores anything after the digits. |
| ReplayText.IndexOf | src/game/ReplaySystem.cpp:140-141 | Finds the first occurrence of a character, or reports that there is none. |
| ReplayText.SplitJoin | src/game/ReplaySystem.cpp:172-176 | Splitting comma-joined fields that contain no comma gives the fields back. |
| ReplayText.NumberTextPlain | src/game/ReplaySystem.cpp:60-82 | Written numbers contain neither ',' nor '='. |
| ReplaySystem.PairLines | src/game/ReplaySystem.cpp:60-72 | Writes each key and value as `key=value` on its own line. |
| ReplaySystem.Wrap | src/game/ReplaySystem.cpp:190-195 | A narrowing cast keeps values in range and wraps others modulo the width. |
| ReplaySystem.ConfigLineEffect | src/game/ReplaySystem.cpp:124-158 | Only a key=value line inside the section can throw. `[ACTIONS]` ends the section. Lines before `[CONFIG]` leave the config alone. |
| ReplaySystem.IntKeysListed | src/game/ReplaySystem.cpp:146-158 | Eleven keys are parsed as ints. `hexSize` and `seed` are not. |
| ReplaySystem.ConfigPairsRestore | src/game/ReplaySystem.cpp:57-73 | Reading back the written pairs restores every field except the grid radius. |
| ReplaySystem.ConfigRoundTrip | src/game/ReplaySystem.cpp:120-162 | The written config section reads back to the config, stopping after `[ACTIONS]`. |
| ReplaySystem.OutsideSectionIgnored | src/game/ReplaySystem.cpp:128-137 | Lines before `[CONFIG]` are ignored. |
| ReplaySystem.UnknownKeyIgnored | src/game/ReplaySystem.cpp:140-158 | A line without '=' or with an unknown key is ignored. |
| ReplaySystem.ScanPairLines | src/game/ReplaySystem.cpp:139-158 | Scanning key=value lines applies the pairs in order, or throws on an unparsable value. |
| ReplaySystem.ActionFields | src/game/ReplaySystem.cpp:78-82 | An action is written as five non-empty digit fields. |
| ReplaySystem.ActionFieldsReadBack | src/game/ReplaySystem.cpp:176-183 | The five written fields parse back to the action's numbers. |
| ReplaySystem.ToActionInRange | src/game/ReplaySystem.cpp:190-195 | The narrowing casts give back an action whose fields are in range. |
| ReplaySystem.ActionLineRoundTrip | src/game/ReplaySystem.cpp:164-201 | A recorded action line reads back as that action. |
| ReplaySystem.RecordedActionsReadBack | src/game/ReplaySystem.cpp:164-201 | The recorded action lines read back as the same actions, in order, without error. |
| ReplaySystem.ScanActionsAppend | src/game/ReplaySystem.cpp:164-201 | Reading lines a then b is reading a, then b, unless a aborts. |
| ReplaySystem.BadFieldAborts | src/game/ReplaySystem.cpp:176-183 | A first line with a field `stoi` rejects makes the whole action section fail, with no actions read. A bad line further down keeps the actions before it (`ScanActionsAppend`). |
| ReplaySystem.WrongCountSkipped | src/game/ReplaySystem.cpp:185-188 | A line without exactly five fields is skipped. |
| ReplaySystem.CommentSkipped | src/game/ReplaySystem.cpp:169 | Empty and '#' lines are skipped. |
| ReplaySystem.RecordingReadsBack | src/game/ReplaySystem.cpp:31-92 | A whole recording reads back: the config as written, except the grid radius, and the actions as recorded. |
| ReplaySystem.ReplaySystem.constructor | src/game/ReplaySystem.h:36-41 | A new replay system is idle, with the default config and no actions. |
| ReplaySystem.ReplaySystem.StartRecording | src/game/ReplaySystem.cpp:31-55 | Succeeds exactly when the file opens. It then writes the header, config and `[ACTIONS]` marker and starts recording; otherwise nothing is written. |
| ReplaySystem.ReplaySystem.WriteConfig | src/game/ReplaySystem.cpp:57-73 | Appends exactly the config lines. |
| ReplaySystem.ReplaySystem.RecordAction | src/game/ReplaySystem.cpp:75-84 | Appends the action's line exactly when recording, and nothing otherwise. |
| ReplaySystem.ReplaySystem.StopRecording | src/game/ReplaySystem.cpp:86-92 | Recording stops, and a file opened for recording is closed. |
| ReplaySystem.ReplaySystem.ParseConfig | src/game/ReplaySystem.cpp:120-162 | The config becomes the scan's result. It reports a throw exactly when the scan throws, and otherwise where the actions start. |
| ReplaySystem.ReplaySystem.ParseValues | src/game/ReplaySystem.cpp:172-183 | Succeeds exactly when every field parses, returning their values. |
| ReplaySystem.ReplaySystem.ParseActions | src/game/ReplaySystem.cpp:164-201 | Appends the actions read, and fails exactly when a field cannot be parsed. |
| ReplaySystem.ReplaySystem.LoadReplay | src/game/ReplaySystem.cpp:94-118 | A missing file changes nothing. Otherwise the config is parsed, an exception aborts, and the replay loads exactly when the action section parses; playback restarts at action 0. |
| ReplaySystem.ReplaySystem.HasNextAction | src/game/ReplaySystem.cpp:203-205 | An action is left to replay when a replay is loaded and the cursor is before the end. `GetNextAction` advances exactly when this holds. |
| ReplaySystem.ReplaySystem.GetNextAction | src/game/ReplaySystem.cpp:207-212 | Returns the next action and advances, or an empty action when none is left. |

## Left out

- Floating-point heuristics: `CalculateWinProbability`, `ScoreAttack`,
  `CalculateExposureRisk` and `EvaluateTerritoryValue` are not modelled.
  They enter as the `winChance` and `rate` parameters. The evaluation is
  proved to feed them the right inputs.
- `TerritoryGenerator.MinSeedDistance`: the seed spacing is computed in
  exact arithmetic, as the largest d with 25·d²·target ≤ 16·cells. The
  source computes it in `float` (`src/hex/TerritoryGenerator.cpp:63-64`), and
  the two can differ by one where `float` rounding crosses an integer.
- The float centroid in `FindTerritoryCenter` is not modelled. The model
  keeps only that the chosen centre is one of the territory's own cells.
- Random number generation (`std::mt19937`, `std::shuffle`, `RollDie`)
  is replaced:
  - shuffles become permutation parameters;
  - dice become any values in 1..6;
  - random picks become nondeterministic choices;
  - the AI's 30% draw becomes the `luckyDraw` parameter.
- File I/O enters as parameters:
  - a flag for whether the file opened;
  - the file's lines as a sequence;
  - the written lines as a field.
  `CreateDirectoryIfNeeded`, console logging and Tracy instrumentation are
  left out.
- Rendering, UI, input handling and the camera are not part of this model.
  This covers the `Update` frame timers of the controller and AI, and the
  `InitializeGame` wiring of grid, generator and players.
- `FillHoles` is declared in `src/hex/TerritoryGenerator.h:39-44` with no
  definition, so the hole-filling step is not modelled.
- Integers are unbounded except where the source narrows on purpose:
  - dice stored in `uint8`;
  - the 16-bit and 8-bit fields of a replayed action;
  - the 32-bit ranges of `stoi` and of the seed read with `stoul`.
  Other overflow (`int` sums, `size_t`) is not modelled.
- The `hexSize` key of a replay is written from a caller-supplied text and
  never read back. `stof` is not modelled, so a loaded replay keeps the
  default hex size.
- The grid radius is not part of the replay format: `WriteConfig` writes
  `gridWidth` and `gridHeight` (`src/game/ReplaySystem.cpp:60-61`) and
  `ParseConfig` reads only those (`src/game/ReplaySystem.cpp:146-147`), so
  a loaded replay keeps the default `gridRadius`.
- `stoi` is modelled for the inputs the format produces: optional leading
  whitespace, an optional sign, a digit run, and ignored trailing text. An
  uncaught exception from `stoi` ends the load as `Crashed`, or as `Threw`
  in the config scan, instead of unwinding.
- The "Failed to parse replay config" path is not modelled separately,
  because `ParseConfig` never returns false.
- Header drift: `GameConfig` in `src/game/GameData.h` lacks the
  `gridWidth`/`gridHeight` fields that the controller and replay code
  use. `AttackEvaluation`, `CombatAction` and `ContiguousRegion` are
  defined here from how the core uses them.
- `AIController.AIController.TakeAction`: the full sort is replaced by
  picking the top candidate and a runner-up. The choice is the same up to
  the order among equal scores, which the source leaves to `std::sort`.
- `IslandDetector.KeepLargestIslandOnly`: the header's promise that a
  second call changes nothing is not proved. The model proves that the
  kept island is connected on the original board (`IslandIsComponent`),
  that it loses no neighbour and that the result stays a partition. It does
  not carry connectivity through the renumbering, so it does not prove that
  the pruned board is a single island.
- `PlayerAssignment.AssignToPlayers` requires at most 255 players. The
  source counts players in a `uint8` (`src/hex/TerritoryGenerator.cpp:241`),
  so with more than 255 players its dice loop never ends; that case is
  excluded rather than modelled.
- `NoAction`, the action returned when nothing is left to replay, has
  field values chosen here: `CombatAction` is not defined in the headers
  this model covers.
- `HexCoord.Hex.Neighbor` takes a non-negative direction. A negative
  direction, for which the source's `direction % 6` is negative and indexes
  outside the table, is not modelled.
- The AI's attack history (retribution and honour scores) only feeds the
  float scores above and is left out with them.
- Player colours and names are presentation and are not modelled.
