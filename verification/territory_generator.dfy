/**
 * Map generation: pick spread-out seed cells, grow one territory from each
 * seed with a multi-source priority-queue flood fill that partitions the
 * grid, compute which territories touch, then hand the territories out to
 * the players round-robin and spread each player's starting dice.
 *
 * The generator's random source is not modelled: the shuffled cell order
 * and the shuffled territory order are parameters (any rearrangement), and
 * the flood-fill jitter, the centre choice and the dice picks are free
 * choices, so every property below holds for every random outcome.
 */
module TerritoryGenerator {
  import opened Prefixes
  import opened HexCoord
  import opened HexGrid
  import opened GameData

  // ---------------------------------------------------------------------
  // Seed selection
  // ---------------------------------------------------------------------

  /** `seq` `b` is a rearrangement of `a`. */
  ghost predicate IsShuffleOf<T>(b: seq<T>, a: seq<T>)
  {
    multiset(b) == multiset(a)
  }

  /** A sequence without repeats has every element at most once in its multiset, and conversely. */
  lemma {:induction false} NoDuplicatesMultiset<T>(s: seq<T>)
    ensures NoDuplicates(s) <==> forall x :: multiset(s)[x] <= 1
  {
    if |s| > 0 {
      var init, last := s[..|s| - 1], s[|s| - 1];
      assert s == init + [last];
      NoDuplicatesMultiset(init);
      if NoDuplicates(s) {
        forall i | 0 <= i < |init| ensures init[i] != last {
          assert s[i] != s[|s| - 1];
        }
        assert NoDuplicates(init) by {
          forall i, j | 0 <= i < j < |init| ensures init[i] != init[j] {
            assert s[i] != s[j];
          }
        }
      }
      if forall x :: multiset(s)[x] <= 1 {
        forall x ensures multiset(init)[x] <= 1 {
          assert multiset(s)[x] == multiset(init)[x] + multiset([last])[x];
        }
        forall i, j | 0 <= i < j < |s| ensures s[i] != s[j] {
          if j == |s| - 1 {
            assert s[i] in init;
            assert multiset(s)[last] == multiset(init)[last] + 1;
          } else {
            assert init[i] != init[j];
          }
        }
      }
    }
  }

  lemma ShufflePreservesNoDuplicates<T>(a: seq<T>, b: seq<T>)
    requires NoDuplicates(a) && IsShuffleOf(b, a)
    ensures NoDuplicates(b)
  {
    NoDuplicatesMultiset(a);
    NoDuplicatesMultiset(b);
  }

  /** Every two seeds are at least `minDistance` apart. */
  predicate WellSpaced(seeds: seq<Hex>, minDistance: int)
  {
    forall i, j :: 0 <= i < j < |seeds| ==> Distance(seeds[i], seeds[j]) >= minDistance
  }

  /** `c` is at least `minDistance` from every seed. */
  predicate FarFromAll(c: Hex, seeds: seq<Hex>, minDistance: int)
  {
    forall j :: 0 <= j < |seeds| ==> Distance(c, seeds[j]) >= minDistance
  }

  /**
   * The largest `r` with `0.8 * sqrt(n / t) >= r`, counting up from `m`:
   * `r / 0.8 <= sqrt(n / t)` squared and cleared of fractions.
   */
  function ScaledRootFrom(n: nat, t: nat, m: nat): (r: nat)
    requires t > 0 && 25 * m * m * t <= 16 * n
    ensures 25 * r * r * t <= 16 * n < 25 * (r + 1) * (r + 1) * t
    decreases n - m
  {
    if 25 * (m + 1) * (m + 1) * t <= 16 * n then
      SquareBound(m + 1, t, n);
      ScaledRootFrom(n, t, m + 1)
    else m
  }

  lemma SquareBound(k: nat, t: nat, n: nat)
    requires t > 0 && 25 * k * k * t <= 16 * n
    ensures k <= n
  {
    if k > 0 {
      assert k * k * t >= k * k by {
        assert k * k * t == k * k * (t - 1) + k * k;
      }
      assert k * k >= k by {
        assert k * k == k * (k - 1) + k;
      }
    }
  }

  /**
   * The minimum seed spacing for `n` cells and `t` territories:
   * `max(1, trunc(0.8 * sqrt(n / t)))`, computed exactly.
   */
  function MinSeedDistance(n: nat, t: nat): (d: nat)
    requires t > 0
    ensures d >= 1
    ensures d > 1 ==> 25 * d * d * t <= 16 * n < 25 * (d + 1) * (d + 1) * t
  {
    var r := ScaledRootFrom(n, t, 0);
    if r >= 1 then r else 1
  }

  /**
   * The distance pass over the first `k` shuffled cells: a cell is kept when
   * it is far enough from every seed kept so far, and the pass stops once
   * `target` seeds are kept.
   */
  function GreedySpaced(candidates: seq<Hex>, target: int, minDistance: int, k: nat): seq<Hex>
    requires k <= |candidates|
  {
    if k == 0 then []
    else
      var seeds := GreedySpaced(candidates, target, minDistance, k - 1);
      if |seeds| >= target then seeds
      else if FarFromAll(candidates[k - 1], seeds, minDistance) then seeds + [candidates[k - 1]]
      else seeds
  }

  /**
   * The distance pass keeps at most `target` seeds, pairwise at least
   * `minDistance` apart, drawn in order from distinct candidates; it keeps
   * the first candidate whenever there is one and `target` is positive.
   */
  lemma {:induction false} GreedySpacedProperties(candidates: seq<Hex>, target: int, minDistance: int, k: nat)
    requires k <= |candidates| && minDistance >= 1 && NoDuplicates(candidates)
    ensures var seeds := GreedySpaced(candidates, target, minDistance, k);
      && |seeds| <= (if target < 0 then 0 else target)
      && WellSpaced(seeds, minDistance)
      && NoDuplicates(seeds)
      && (forall c :: c in seeds ==> c in candidates[..k])
      && (k > 0 && target > 0 ==> |seeds| > 0)
  {
    if k > 0 {
      GreedySpacedProperties(candidates, target, minDistance, k - 1);
      var seeds := GreedySpaced(candidates, target, minDistance, k - 1);
      var c := candidates[k - 1];
      forall x | x in seeds ensures x in candidates[..k] {
        assert x in candidates[..k - 1];
        assert candidates[..k - 1] <= candidates[..k];
      }
      forall i | 0 <= i < k - 1 ensures candidates[i] != c {
        assert candidates[i] != candidates[k - 1];
      }
      if |seeds| < target && FarFromAll(c, seeds, minDistance) {
        var next := seeds + [c];
        forall i, j | 0 <= i < j < |next| ensures Distance(next[i], next[j]) >= minDistance {
          if j == |seeds| {
            DistanceSymmetric(next[i], c);
          }
        }
        assert c !in seeds;
      }
    }
  }

  /**
   * The relaxed fallback: every `step`-th shuffled cell from the first, as
   * long as cells remain and fewer than `target` were taken.
   */
  predicate IsStrided(seeds: seq<Hex>, candidates: seq<Hex>, target: int, step: nat)
  {
    && |seeds| <= target
    && (forall j :: 0 <= j < |seeds| ==> j * step < |candidates| && seeds[j] == candidates[j * step])
    && (|seeds| == target || |seeds| * step >= |candidates|)
  }

  lemma StridedIndicesIncrease(i: nat, j: nat, step: nat)
    requires i < j && step >= 1
    ensures i * step < j * step
  {
    assert j * step == i * step + (j - i) * step;
  }

  /** A strided pick from distinct candidates is duplicate-free, and non-empty for a positive target. */
  lemma StridedProperties(seeds: seq<Hex>, candidates: seq<Hex>, target: int, step: nat)
    requires step >= 1 && IsStrided(seeds, candidates, target, step) && NoDuplicates(candidates)
    ensures NoDuplicates(seeds)
    ensures forall c :: c in seeds ==> c in candidates
    ensures target > 0 && |candidates| > 0 ==> |seeds| > 0
  {
    forall i, j | 0 <= i < j < |seeds| ensures seeds[i] != seeds[j] {
      StridedIndicesIncrease(i, j, step);
    }
  }

  /** Whether the distance pass kept too few seeds (`seeds.size() < targetCount / 2`). */
  predicate TooFewSeeds(seeds: seq<Hex>, target: int)
  {
    target >= 0 && |seeds| < target / 2
  }

  /** `true` when `c` is closer than `minDistance` to some seed (the inner scan). */
  method IsTooClose(c: Hex, seeds: seq<Hex>, minDistance: int) returns (tooClose: bool)
    ensures tooClose <==> !FarFromAll(c, seeds, minDistance)
  {
    tooClose := false;
    var j := 0;
    while j < |seeds|
      invariant 0 <= j <= |seeds|
      invariant forall i :: 0 <= i < j ==> Distance(c, seeds[i]) >= minDistance
    {
      if Distance(c, seeds[j]) < minDistance {
        return true;
      }
      j := j + 1;
    }
  }

  /** The distance pass, scanning the shuffled cells in order. */
  method SpacedSeeds(candidates: seq<Hex>, targetCount: int, minDistance: int) returns (seeds: seq<Hex>)
    ensures seeds == GreedySpaced(candidates, targetCount, minDistance, |candidates|)
  {
    seeds := [];
    var k := 0;
    while k < |candidates|
      invariant 0 <= k <= |candidates|
      invariant seeds == GreedySpaced(candidates, targetCount, minDistance, k)
    {
      if |seeds| >= targetCount {
        break;
      }
      var tooClose := IsTooClose(candidates[k], seeds, minDistance);
      if !tooClose {
        seeds := seeds + [candidates[k]];
      }
      k := k + 1;
    }
    GreedySpacedStops(candidates, targetCount, minDistance, k);
  }

  /** The strided fallback over the shuffled cells. */
  method StridedSeeds(candidates: seq<Hex>, targetCount: int) returns (seeds: seq<Hex>)
    requires targetCount > 0
    ensures IsStrided(seeds, candidates, targetCount, Max(1, |candidates| / targetCount))
  {
    seeds := [];
    var step := Max(1, |candidates| / targetCount);
    var i := 0;
    while i < |candidates| && |seeds| < targetCount
      invariant i == |seeds| * step
      invariant |seeds| <= targetCount
      invariant forall j :: 0 <= j < |seeds| ==> j * step < |candidates| && seeds[j] == candidates[j * step]
    {
      seeds := seeds + [candidates[i]];
      i := i + step;
    }
  }

  /**
   * Seed selection over a shuffled copy of the grid's cells: the distance
   * pass, replaced by the strided fallback when it kept fewer than half the
   * target. The result is empty for an empty grid or a non-positive target;
   * otherwise it is non-empty, holds at most `targetCount` distinct grid
   * cells, and if the distance pass was kept its seeds are well spaced.
   */
  method SelectSeedPoints(grid: HexGrid, targetCount: int, candidates: seq<Hex>) returns (seeds: seq<Hex>)
    requires grid.Valid() && IsShuffleOf(candidates, grid.coords)
    ensures |grid.coords| == 0 || targetCount <= 0 ==> seeds == []
    ensures |grid.coords| > 0 && targetCount > 0 ==> 0 < |seeds| <= targetCount
    ensures NoDuplicates(seeds)
    ensures forall c :: c in seeds ==> c in grid.validCoords
    ensures |grid.coords| > 0 && targetCount > 0 ==>
      var minDistance := MinSeedDistance(|grid.coords|, targetCount);
      var spaced := GreedySpaced(candidates, targetCount, minDistance, |candidates|);
      if TooFewSeeds(spaced, targetCount) then IsStrided(seeds, candidates, targetCount, Max(1, |candidates| / targetCount))
      else seeds == spaced && WellSpaced(seeds, minDistance)
  {
    if |grid.coords| == 0 || targetCount <= 0 {
      return [];
    }
    SortedHasNoDuplicates(grid.coords);
    ShufflePreservesNoDuplicates(grid.coords, candidates);
    assert |candidates| == |grid.coords| by {
      assert |multiset(candidates)| == |multiset(grid.coords)|;
    }
    var minDistance := MinSeedDistance(|grid.coords|, targetCount);
    seeds := SpacedSeeds(candidates, targetCount, minDistance);
    GreedySpacedProperties(candidates, targetCount, minDistance, |candidates|);
    WholePrefix(candidates);
    if |seeds| < targetCount / 2 {
      seeds := StridedSeeds(candidates, targetCount);
      StridedProperties(seeds, candidates, targetCount, Max(1, |candidates| / targetCount));
    }
    forall c | c in seeds ensures c in grid.validCoords {
      assert c in multiset(candidates);
    }
  }

  /** Once the distance pass holds `target` seeds, later candidates change nothing. */
  lemma {:induction false} GreedySpacedStops(candidates: seq<Hex>, target: int, minDistance: int, k: nat)
    requires k <= |candidates|
    requires k < |candidates| ==> |GreedySpaced(candidates, target, minDistance, k)| >= target
    ensures GreedySpaced(candidates, target, minDistance, |candidates|) == GreedySpaced(candidates, target, minDistance, k)
    decreases |candidates| - k
  {
    if k < |candidates| {
      GreedySpacedStops(candidates, target, minDistance, k + 1);
    }
  }

  // ---------------------------------------------------------------------
  // Flood fill
  // ---------------------------------------------------------------------

  /** A priority-queue entry: (distance, cell, territory id). */
  datatype QueueItem = QueueItem(dist: int, coord: Hex, territory: nat)

  /** The tuple order the min-priority queue uses: distance, then cell, then territory id. */
  predicate ItemLess(a: QueueItem, b: QueueItem)
  {
    if a.dist != b.dist then a.dist < b.dist
    else if a.coord != b.coord then a.coord.Less(b.coord)
    else a.territory < b.territory
  }

  lemma ItemLessIsStrictOrder(a: QueueItem, b: QueueItem, c: QueueItem)
    ensures !ItemLess(a, a)
    ensures ItemLess(a, b) && ItemLess(b, c) ==> ItemLess(a, c)
  {
    LessIsStrictTotalOrder(a.coord, b.coord, c.coord);
    LessIsStrictTotalOrder(a.coord, c.coord, b.coord);
    LessIsStrictTotalOrder(b.coord, a.coord, c.coord);
  }

  /** `pq[k]` is a smallest entry: the one the queue hands out next. */
  predicate IsTop(pq: seq<QueueItem>, k: int)
  {
    0 <= k < |pq| && forall j :: 0 <= j < |pq| ==> !ItemLess(pq[j], pq[k])
  }

  /** A non-empty queue has a smallest entry. */
  lemma {:induction false} TopExists(pq: seq<QueueItem>)
    requires |pq| > 0
    ensures exists k :: IsTop(pq, k)
  {
    ItemLessIsStrictOrder(pq[0], pq[0], pq[0]);
    if |pq| == 1 {
      assert IsTop(pq, 0);
    } else {
      var rest := pq[1..];
      TopExists(rest);
      var k :| IsTop(rest, k);
      if ItemLess(pq[0], rest[k]) {
        forall j | 0 <= j < |pq| ensures !ItemLess(pq[j], pq[0]) {
          ItemLessIsStrictOrder(pq[j], pq[0], rest[k]);
          if j > 0 {
            assert pq[j] == rest[j - 1];
          }
        }
        assert IsTop(pq, 0);
      } else {
        forall j | 0 <= j < |pq| ensures !ItemLess(pq[j], pq[k + 1]) {
          if j > 0 {
            assert pq[j] == rest[j - 1];
          }
        }
        assert IsTop(pq, k + 1);
      }
    }
  }

  /** Some queue entry is for cell `c`. */
  ghost predicate Queued(pq: seq<QueueItem>, c: Hex)
  {
    exists x :: x in pq && x.coord == c
  }

  /**
   * The territories' hex lists and the reverse index agree: each indexed
   * cell lies in the hex list of the territory it maps to, each listed cell
   * is indexed to its own territory, and no list repeats a cell.
   */
  ghost predicate Partition(ts: seq<Territory>, index: map<Hex, nat>)
  {
    && (forall c :: c in index ==> index[c] < |ts| && c in ts[index[c]].hexes)
    && (forall i, c :: 0 <= i < |ts| && c in ts[i].hexes ==> c in index && index[c] == i)
    && (forall i :: 0 <= i < |ts| ==> NoDuplicates(ts[i].hexes))
  }

  /** In a partition no cell lies in two territories. */
  lemma PartitionDisjoint(ts: seq<Territory>, index: map<Hex, nat>, i: nat, j: nat, c: Hex)
    requires Partition(ts, index) && i < |ts| && j < |ts|
    requires c in ts[i].hexes && c in ts[j].hexes
    ensures i == j
  {
    assert c in index && index[c] == i;
  }

  /** Claiming an unclaimed cell for territory `t` keeps the partition. */
  lemma PartitionExtend(ts: seq<Territory>, index: map<Hex, nat>, t: nat, c: Hex)
    requires Partition(ts, index) && t < |ts| && c !in index
    ensures Partition(ts[t := ts[t].(hexes := ts[t].hexes + [c])], index[c := t])
  {
    var hexes := ts[t].hexes + [c];
    var ts', index' := ts[t := ts[t].(hexes := hexes)], index[c := t];
    assert c !in ts[t].hexes;
    forall a, b | 0 <= a < b < |hexes| ensures hexes[a] != hexes[b] {
      if b == |hexes| - 1 {
        assert hexes[a] in ts[t].hexes;
      }
    }
    forall i | 0 <= i < |ts'| ensures NoDuplicates(ts'[i].hexes) {
      if i == t {
        assert ts'[i].hexes == hexes;
      } else {
        assert ts'[i] == ts[i];
      }
    }
    forall x | x in index' ensures index'[x] < |ts'| && x in ts'[index'[x]].hexes {
      if x != c {
        assert x in ts[index[x]].hexes;
      }
    }
    forall i, x | 0 <= i < |ts'| && x in ts'[i].hexes ensures x in index' && index'[x] == i {
      if i == t {
        if x != c {
          assert x in ts[t].hexes;
        }
      } else {
        assert x in ts[i].hexes;
      }
    }
  }

  /**
   * A queue entry names a grid cell and an existing territory at a
   * non-negative distance; at distance 0 it is a seed's own entry.
   */
  ghost predicate EntryOk(x: QueueItem, seeds: seq<Hex>, valid: set<Hex>)
  {
    && x.coord in valid && x.territory < |seeds| && x.dist >= 0
    && (x.dist == 0 ==> x.coord == seeds[x.territory])
  }

  /** Every grid neighbour of a claimed cell is claimed or waiting in the queue. */
  ghost predicate FrontierQueued(index: map<Hex, nat>, pq: seq<QueueItem>, valid: set<Hex>)
  {
    forall c, d :: c in index && 0 <= d < 6 && c.Neighbor(d) in valid ==>
      c.Neighbor(d) in index || Queued(pq, c.Neighbor(d))
  }

  /** Each seed is claimed by its own territory, or unclaimed and still queued at distance 0. */
  ghost predicate SeedsPending(seeds: seq<Hex>, index: map<Hex, nat>, pq: seq<QueueItem>)
  {
    forall i :: 0 <= i < |seeds| ==>
      (seeds[i] in index && index[seeds[i]] == i) || (seeds[i] !in index && QueueItem(0, seeds[i], i) in pq)
  }

  /** The flood fill's loop invariant, over the territories, the index, the claimed set and the queue. */
  ghost predicate FillState(valid: set<Hex>, seeds: seq<Hex>, ts: seq<Territory>, index: map<Hex, nat>,
                            assignedCells: set<Hex>, pq: seq<QueueItem>)
  {
    && |ts| == |seeds|
    && (forall k :: 0 <= k < |seeds| ==> ts[k] == DefaultTerritory.(id := k, hexes := ts[k].hexes))
    && Partition(ts, index)
    && (forall c :: c in assignedCells <==> c in index)
    && assignedCells <= valid
    && (forall x :: x in pq ==> EntryOk(x, seeds, valid))
    && FrontierQueued(index, pq, valid)
    && (forall k :: 0 <= k < |seeds| ==> seeds[k] in assignedCells || Queued(pq, seeds[k]))
    && (NoDuplicates(seeds) ==> SeedsPending(seeds, index, pq))
  }

  /** Pushes one entry per unclaimed cell of `cells`, one step further plus a jitter of 0..2. */
  method PushUnclaimed(cells: seq<Hex>, item: QueueItem, assignedCells: set<Hex>, pq: seq<QueueItem>) returns (result: seq<QueueItem>)
    ensures forall x :: x in pq ==> x in result
    ensures forall x :: x in result ==> (x in pq ||
      (x.coord in cells && x.coord !in assignedCells && x.territory == item.territory && item.dist + 1 <= x.dist <= item.dist + 3))
    ensures forall c :: c in cells ==> c in assignedCells || Queued(result, c)
  {
    result := pq;
    var j := 0;
    while j < |cells|
      invariant 0 <= j <= |cells|
      invariant forall x :: x in pq ==> x in result
      invariant forall x :: x in result ==> (x in pq ||
        (x.coord in cells && x.coord !in assignedCells && x.territory == item.territory && item.dist + 1 <= x.dist <= item.dist + 3))
      invariant forall i :: 0 <= i < j ==> cells[i] in assignedCells || Queued(result, cells[i])
    {
      if cells[j] !in assignedCells {
        var jitter :| 0 <= jitter <= 2;
        var entry := QueueItem(item.dist + 1 + jitter, cells[j], item.territory);
        result := result + [entry];
        assert entry in result;
      }
      j := j + 1;
    }
  }

  /**
   * Pushes every unclaimed grid neighbour of the popped cell, one step
   * further plus a jitter of 0..2, for the same territory.
   */
  method PushNeighbors(grid: HexGrid, item: QueueItem, assignedCells: set<Hex>, pq: seq<QueueItem>) returns (result: seq<QueueItem>)
    ensures forall x :: x in pq ==> x in result
    ensures forall x :: x in result ==> (x in pq ||
      (x.coord in grid.validCoords && x.coord !in assignedCells && x.territory == item.territory && item.dist + 1 <= x.dist <= item.dist + 3))
    ensures forall d :: 0 <= d < 6 && item.coord.Neighbor(d) in grid.validCoords ==>
      item.coord.Neighbor(d) in assignedCells || Queued(result, item.coord.Neighbor(d))
  {
    var neighbors := grid.GetNeighbors(item.coord);
    result := PushUnclaimed(neighbors, item, assignedCells, pq);
    forall d | 0 <= d < 6 && item.coord.Neighbor(d) in grid.validCoords
      ensures item.coord.Neighbor(d) in neighbors
    {
    }
  }

  /** Popping entry `k` keeps every other entry and adds none. */
  lemma PopFacts<T>(pq: seq<T>, k: nat)
    requires k < |pq|
    ensures forall x :: x in pq[..k] + pq[k + 1..] ==> x in pq
    ensures forall x :: x in pq && x != pq[k] ==> x in pq[..k] + pq[k + 1..]
  {
    var rest := pq[..k] + pq[k + 1..];
    forall x | x in rest ensures x in pq {
      var j :| 0 <= j < |rest| && rest[j] == x;
      if j < k { assert pq[j] == x; } else { assert pq[j + 1] == x; }
    }
    forall x | x in pq && x != pq[k] ensures x in rest {
      var j :| 0 <= j < |pq| && pq[j] == x;
      if j < k { assert rest[j] == x; } else { assert rest[j - 1] == x; }
    }
  }

  /** Dropping an entry whose cell is already claimed keeps the invariant. */
  lemma SkipKeeps(valid: set<Hex>, seeds: seq<Hex>, ts: seq<Territory>, index: map<Hex, nat>,
                  assignedCells: set<Hex>, pq: seq<QueueItem>, k: nat, popped: seq<QueueItem>)
    requires FillState(valid, seeds, ts, index, assignedCells, pq)
    requires k < |pq| && pq[k].coord in assignedCells
    requires forall x :: x in popped ==> x in pq
    requires forall x :: x in pq && x != pq[k] ==> x in popped
    ensures FillState(valid, seeds, ts, index, assignedCells, popped)
  {
    forall c | Queued(pq, c) && c !in index ensures Queued(popped, c) {
      var x :| x in pq && x.coord == c;
      assert x in popped;
    }
  }

  /**
   * Claiming the cell of a smallest entry for its territory and pushing the
   * cell's unclaimed neighbours keeps the invariant.
   */
  lemma ClaimKeeps(valid: set<Hex>, seeds: seq<Hex>, ts: seq<Territory>, index: map<Hex, nat>,
                   assignedCells: set<Hex>, pq: seq<QueueItem>, k: nat, pushed: seq<QueueItem>)
    requires FillState(valid, seeds, ts, index, assignedCells, pq)
    requires IsTop(pq, k) && pq[k].coord !in assignedCells
    requires forall x :: x in pq && x != pq[k] ==> x in pushed
    requires forall x :: x in pushed ==> (x in pq ||
      (x.coord in valid && x.territory == pq[k].territory && pq[k].dist + 1 <= x.dist))
    requires forall d :: 0 <= d < 6 && pq[k].coord.Neighbor(d) in valid ==>
      pq[k].coord.Neighbor(d) in assignedCells + {pq[k].coord} || Queued(pushed, pq[k].coord.Neighbor(d))
    ensures var c, t := pq[k].coord, pq[k].territory;
      t < |ts| &&
      FillState(valid, seeds, ts[t := ts[t].(hexes := ts[t].hexes + [c])], index[c := t], assignedCells + {c}, pushed)
  {
    var item := pq[k];
    assert item in pq;
    var c, t := item.coord, item.territory;
    var ts', index', assigned' := ts[t := ts[t].(hexes := ts[t].hexes + [c])], index[c := t], assignedCells + {c};
    PartitionExtend(ts, index, t, c);
    forall j | 0 <= j < |seeds| ensures ts'[j] == DefaultTerritory.(id := j, hexes := ts'[j].hexes) {
    }
    forall x | x in pushed ensures EntryOk(x, seeds, valid) {
    }
    forall n | Queued(pq, n) && n != c ensures Queued(pushed, n) {
      var x :| x in pq && x.coord == n;
      assert x in pushed;
    }
    forall c0, d | c0 in index' && 0 <= d < 6 && c0.Neighbor(d) in valid
      ensures c0.Neighbor(d) in index' || Queued(pushed, c0.Neighbor(d))
    {
      if c0 != c {
        assert c0 in index;
      }
    }
    if NoDuplicates(seeds) {
      SeedsAfterClaim(seeds, index, pq, k, pushed);
    }
  }

  /**
   * Claiming the cell of a smallest entry keeps every seed claimed by its
   * own territory or pending: a distance-0 entry is a seed's own, and once
   * a positive-distance entry is smallest no seed is pending any more.
   */
  lemma SeedsAfterClaim(seeds: seq<Hex>, index: map<Hex, nat>, pq: seq<QueueItem>, k: nat, pushed: seq<QueueItem>)
    requires NoDuplicates(seeds) && SeedsPending(seeds, index, pq)
    requires IsTop(pq, k) && pq[k].coord !in index
    requires forall x :: x in pq ==> x.dist >= 0 && (x.dist == 0 ==> x.territory < |seeds| && x.coord == seeds[x.territory])
    requires forall x :: x in pq && x != pq[k] ==> x in pushed
    ensures SeedsPending(seeds, index[pq[k].coord := pq[k].territory], pushed)
  {
    var item := pq[k];
    assert item in pq;
    var index' := index[item.coord := item.territory];
    forall i | 0 <= i < |seeds|
      ensures (seeds[i] in index' && index'[seeds[i]] == i) || (seeds[i] !in index' && QueueItem(0, seeds[i], i) in pushed)
    {
      if seeds[i] !in index {
        var j :| 0 <= j < |pq| && pq[j] == QueueItem(0, seeds[i], i);
        assert !ItemLess(pq[j], item);
        if item.dist == 0 && item.territory != i {
          assert seeds[item.territory] != seeds[i];
        }
      }
    }
  }

  /** One round of the fill loop: pop a smallest entry and claim its cell unless it is claimed already. */
  method ClaimNext(grid: HexGrid, seeds: seq<Hex>, state: GameState, pq: seq<QueueItem>, assignedCells: set<Hex>)
      returns (pq': seq<QueueItem>, assigned': set<Hex>)
    requires |pq| > 0
    requires FillState(grid.validCoords, seeds, state.territories, state.hexToTerritory, assignedCells, pq)
    modifies state`territories, state`hexToTerritory
    ensures FillState(grid.validCoords, seeds, state.territories, state.hexToTerritory, assigned', pq')
    ensures |grid.validCoords - assigned'| < |grid.validCoords - assignedCells|
         || (assigned' == assignedCells && |pq'| < |pq|)
  {
    TopExists(pq);
    var k :| IsTop(pq, k);
    var item := pq[k];
    pq' := pq[..k] + pq[k + 1..];
    PopFacts(pq, k);
    if item.coord in assignedCells {
      assigned' := assignedCells;
      SkipKeeps(grid.validCoords, seeds, state.territories, state.hexToTerritory, assignedCells, pq, k, pq');
    } else {
      assigned' := assignedCells + {item.coord};
      ghost var ts, index := state.territories, state.hexToTerritory;
      assert item in pq;
      var t := state.territories[item.territory];
      state.territories := state.territories[item.territory := t.(hexes := t.hexes + [item.coord])];
      state.hexToTerritory := state.hexToTerritory[item.coord := item.territory];
      pq' := PushNeighbors(grid, item, assigned', pq');
      ClaimKeeps(grid.validCoords, seeds, ts, index, assignedCells, pq, k, pq');
      ClaimShrinksRest(grid.validCoords, assignedCells, item.coord);
    }
  }

  /** Claiming one more cell of the grid leaves fewer cells unclaimed. */
  lemma ClaimShrinksRest(valid: set<Hex>, assignedCells: set<Hex>, c: Hex)
    requires c in valid && c !in assignedCells
    ensures |valid - (assignedCells + {c})| < |valid - assignedCells|
  {
    assert valid - assignedCells == (valid - (assignedCells + {c})) + {c};
  }

  /** One fresh territory per seed: id = index, no owner, one die, no hexes. */
  method NewTerritories(n: nat) returns (ts: seq<Territory>)
    ensures |ts| == n
    ensures forall k :: 0 <= k < n ==> ts[k] == DefaultTerritory.(id := k)
  {
    ts := [];
    var i := 0;
    while i < n
      invariant 0 <= i <= n && |ts| == i
      invariant forall k :: 0 <= k < i ==> ts[k] == DefaultTerritory.(id := k)
    {
      ts := ts + [DefaultTerritory.(id := i, owner := PLAYER_NONE, diceCount := 1)];
      i := i + 1;
    }
  }

  /** The initial queue: each seed at distance 0 for its own territory. */
  method SeedEntries(seeds: seq<Hex>) returns (pq: seq<QueueItem>)
    ensures |pq| == |seeds|
    ensures forall k :: 0 <= k < |seeds| ==> pq[k] == QueueItem(0, seeds[k], k)
  {
    pq := [];
    var i := 0;
    while i < |seeds|
      invariant 0 <= i <= |seeds| && |pq| == i
      invariant forall k :: 0 <= k < i ==> pq[k] == QueueItem(0, seeds[k], k)
    {
      pq := pq + [QueueItem(0, seeds[i], i)];
      i := i + 1;
    }
  }

  /**
   * The multi-source flood fill: one territory per seed (id = seed index,
   * no owner, one die), then cells are claimed in queue order, each by the
   * territory of the first entry that reaches it. The result partitions
   * the claimed cells; each seed lands in its own territory when the seeds
   * are distinct (distance-0 entries leave the queue before any pushed
   * entry), and with at least one seed every grid cell is claimed.
   * The caller has emptied both containers.
   */
  method FloodFillTerritories(grid: HexGrid, seeds: seq<Hex>, state: GameState)
    requires grid.Valid()
    requires forall i :: 0 <= i < |seeds| ==> seeds[i] in grid.validCoords
    requires state.territories == [] && state.hexToTerritory == map[]
    modifies state`territories, state`hexToTerritory
    ensures |state.territories| == |seeds|
    ensures forall i :: 0 <= i < |seeds| ==>
      state.territories[i] == DefaultTerritory.(id := i, hexes := state.territories[i].hexes)
    ensures Partition(state.territories, state.hexToTerritory)
    ensures forall c :: c in state.hexToTerritory ==> c in grid.validCoords
    ensures NoDuplicates(seeds) ==>
      forall i :: 0 <= i < |seeds| ==> seeds[i] in state.hexToTerritory && state.hexToTerritory[seeds[i]] == i
    ensures |seeds| > 0 ==> forall c :: c in grid.validCoords ==> c in state.hexToTerritory
  {
    state.territories := NewTerritories(|seeds|);
    var pq := SeedEntries(seeds);

    var assignedCells: set<Hex> := {};
    InitialFillState(grid.validCoords, seeds, state.territories, pq);
    while |pq| > 0
      invariant FillState(grid.validCoords, seeds, state.territories, state.hexToTerritory, assignedCells, pq)
      decreases |grid.validCoords - assignedCells|, |pq|
    {
      pq, assignedCells := ClaimNext(grid, seeds, state, pq, assignedCells);
    }

    FillFinished(grid, seeds, state.territories, state.hexToTerritory, assignedCells);
  }

  /** Once the queue is empty, every seed holds its own cell and, with a seed at all, the whole grid is claimed. */
  lemma FillFinished(grid: HexGrid, seeds: seq<Hex>, ts: seq<Territory>, index: map<Hex, nat>, assignedCells: set<Hex>)
    requires grid.Valid()
    requires FillState(grid.validCoords, seeds, ts, index, assignedCells, [])
    ensures NoDuplicates(seeds) ==> forall i :: 0 <= i < |seeds| ==> seeds[i] in index && index[seeds[i]] == i
    ensures |seeds| > 0 ==> forall c :: c in grid.validCoords ==> c in index
  {
    if NoDuplicates(seeds) {
      forall i | 0 <= i < |seeds|
        ensures seeds[i] in index && index[seeds[i]] == i
      {
        assert QueueItem(0, seeds[i], i) !in [];
      }
    }
    if |seeds| > 0 {
      FilledGridIsCovered(grid, seeds, ts, index, assignedCells);
    }
  }

  /** Before the first round: empty territories, nothing claimed, one distance-0 entry per seed. */
  lemma InitialFillState(valid: set<Hex>, seeds: seq<Hex>, ts: seq<Territory>, pq: seq<QueueItem>)
    requires forall i :: 0 <= i < |seeds| ==> seeds[i] in valid
    requires |ts| == |seeds| && forall k :: 0 <= k < |seeds| ==> ts[k] == DefaultTerritory.(id := k)
    requires |pq| == |seeds| && forall k :: 0 <= k < |seeds| ==> pq[k] == QueueItem(0, seeds[k], k)
    ensures FillState(valid, seeds, ts, map[], {}, pq)
  {
    forall k | 0 <= k < |seeds| ensures Queued(pq, seeds[k]) && QueueItem(0, seeds[k], k) in pq {
      assert pq[k].coord == seeds[k];
    }
  }

  /** With an empty queue the claimed cells are closed under grid adjacency, so a seed spreads to the whole hexagon. */
  lemma FilledGridIsCovered(grid: HexGrid, seeds: seq<Hex>, ts: seq<Territory>, index: map<Hex, nat>, assignedCells: set<Hex>)
    requires grid.Valid() && |seeds| > 0
    requires FillState(grid.validCoords, seeds, ts, index, assignedCells, [])
    ensures forall c :: c in grid.validCoords ==> c in index
  {
    forall c, d | c in assignedCells && 0 <= d < 6 && InHexagon(c.Neighbor(d), grid.radius)
      ensures c.Neighbor(d) in assignedCells
    {
      assert c.Neighbor(d) in grid.coords;
    }
    forall c | c in grid.validCoords ensures c in index {
      ClosedSetCoversHexagon(assignedCells, grid.radius, seeds[0], c);
    }
  }

  /** The territory ids, other than `self` and `TERRITORY_NONE`, that `index` gives to the cells of `cells`. */
  function IdsAmong(index: map<Hex, nat>, cells: seq<Hex>, self: nat): set<nat>
  {
    set n | n in cells && TerritoryAt(index, n) != self && TerritoryAt(index, n) != TERRITORY_NONE :: TerritoryAt(index, n)
  }

  /** The ids of the territories touching the cells `hexes` through a grid edge, other than `self`. */
  function NeighborIds(valid: set<Hex>, index: map<Hex, nat>, hexes: seq<Hex>, self: nat): set<nat>
  {
    if |hexes| == 0 then {}
    else NeighborIds(valid, index, hexes[..|hexes| - 1], self) + IdsAmong(index, ValidNeighbors(valid, hexes[|hexes| - 1]), self)
  }

  /** Some cell of `hexes` has a grid neighbour indexed to `j`. */
  ghost predicate TouchesId(valid: set<Hex>, index: map<Hex, nat>, hexes: seq<Hex>, j: nat)
  {
    exists h, n :: h in hexes && n in ValidNeighbors(valid, h) && TerritoryAt(index, n) == j
  }

  lemma IdsAmongMembers(index: map<Hex, nat>, cells: seq<Hex>, self: nat, j: nat)
    ensures j in IdsAmong(index, cells, self) <==>
      j != self && j != TERRITORY_NONE && exists n :: n in cells && TerritoryAt(index, n) == j
  {
    if j != self && j != TERRITORY_NONE && exists n :: n in cells && TerritoryAt(index, n) == j {
      var n :| n in cells && TerritoryAt(index, n) == j;
      assert TerritoryAt(index, n) in IdsAmong(index, cells, self);
    }
  }

  /**
   * `j` is a neighbour id exactly when it is a real id other than `self`
   * and some cell of `hexes` has a grid neighbour indexed to `j`.
   */
  lemma {:induction false} NeighborIdsMembers(valid: set<Hex>, index: map<Hex, nat>, hexes: seq<Hex>, self: nat, j: nat)
    ensures j in NeighborIds(valid, index, hexes, self) <==>
      j != self && j != TERRITORY_NONE && TouchesId(valid, index, hexes, j)
  {
    if |hexes| > 0 {
      var init, last := hexes[..|hexes| - 1], hexes[|hexes| - 1];
      NeighborIdsMembers(valid, index, init, self, j);
      IdsAmongMembers(index, ValidNeighbors(valid, last), self, j);
      if j in NeighborIds(valid, index, init, self) {
        var h, n :| h in init && n in ValidNeighbors(valid, h) && TerritoryAt(index, n) == j;
        var k :| 0 <= k < |init| && init[k] == h;
        assert hexes[k] == h;
      } else if j in IdsAmong(index, ValidNeighbors(valid, last), self) {
        assert last in hexes;
      }
      if j != self && j != TERRITORY_NONE && TouchesId(valid, index, hexes, j) {
        var h, n :| h in hexes && n in ValidNeighbors(valid, h) && TerritoryAt(index, n) == j;
        var k :| 0 <= k < |hexes| && hexes[k] == h;
        if k < |hexes| - 1 {
          assert init[k] == h;
        }
      }
    }
  }

  /**
   * On a partition of grid cells, with ids below `TERRITORY_NONE`, the
   * neighbour relation between territories is symmetric.
   */
  lemma NeighborIdsSymmetric(valid: set<Hex>, ts: seq<Territory>, index: map<Hex, nat>, i: nat, j: nat)
    requires Partition(ts, index) && |ts| <= TERRITORY_NONE
    requires forall c :: c in index ==> c in valid
    requires i < |ts| && j in NeighborIds(valid, index, ts[i].hexes, i)
    ensures j < |ts| && j != i && i in NeighborIds(valid, index, ts[j].hexes, j)
  {
    NeighborIdsMembers(valid, index, ts[i].hexes, i, j);
    var h, n :| h in ts[i].hexes && n in ValidNeighbors(valid, h) && TerritoryAt(index, n) == j;
    assert n in index && index[n] == j;
    assert n in ts[j].hexes;
    assert h in index && index[h] == i;
    ValidNeighborsSymmetric(valid, h, n);
    assert h in ValidNeighbors(valid, n) && TerritoryAt(index, h) == i;
    NeighborIdsMembers(valid, index, ts[j].hexes, j, i);
  }

  /** A territory whose neighbour list holds each neighbour id once and nothing else. */
  ghost predicate NeighborsComputed(valid: set<Hex>, index: map<Hex, nat>, t: Territory)
  {
    NoDuplicates(t.neighbors) && forall j :: j in t.neighbors <==> j in NeighborIds(valid, index, t.hexes, t.id)
  }

  /** Adds the territory ids of `cells` other than `self` and `TERRITORY_NONE` to `ids`. */
  method AddIdsAmong(state: GameState, cells: seq<Hex>, self: nat, ids: set<nat>) returns (result: set<nat>)
    ensures result == ids + IdsAmong(state.hexToTerritory, cells, self)
  {
    result := ids;
    var j := 0;
    while j < |cells|
      invariant 0 <= j <= |cells|
      invariant result == ids + IdsAmong(state.hexToTerritory, cells[..j], self)
    {
      var neighborTerritory := state.GetTerritoryAt(cells[j]);
      if neighborTerritory != TERRITORY_NONE && neighborTerritory != self {
        result := result + {neighborTerritory};
      }
      assert IdsAmong(state.hexToTerritory, cells[..j + 1], self)
          == IdsAmong(state.hexToTerritory, cells[..j], self)
           + (if neighborTerritory != TERRITORY_NONE && neighborTerritory != self then {neighborTerritory} else {})
      by {
        assert cells[..j + 1] == cells[..j] + [cells[j]];
      }
      j := j + 1;
    }
    WholePrefix(cells);
  }

  /** Collects the ids of the territories touching `hexes`, other than `self`. */
  method CollectNeighborIds(grid: HexGrid, state: GameState, hexes: seq<Hex>, self: nat) returns (ids: set<nat>)
    ensures ids == NeighborIds(grid.validCoords, state.hexToTerritory, hexes, self)
  {
    ids := {};
    var i := 0;
    while i < |hexes|
      invariant 0 <= i <= |hexes|
      invariant ids == NeighborIds(grid.validCoords, state.hexToTerritory, hexes[..i], self)
    {
      var neighbors := grid.GetNeighbors(hexes[i]);
      ids := AddIdsAmong(state, neighbors, self, ids);
      PrefixStep(hexes, i);
      i := i + 1;
    }
    WholePrefix(hexes);
  }

  /** Lists the elements of a set once each, in an unspecified order. */
  method ListOf(s: set<nat>) returns (l: seq<nat>)
    ensures NoDuplicates(l)
    ensures forall x :: x in l <==> x in s
  {
    l := [];
    var rest := s;
    while rest != {}
      invariant rest <= s
      invariant NoDuplicates(l)
      invariant forall x :: x in l <==> x in s && x !in rest
      decreases |rest|
    {
      var x :| x in rest;
      l := l + [x];
      rest := rest - {x};
    }
  }

  /** Gives every territory the list of territories it touches through a grid edge. */
  method CalculateTerritoryNeighbors(grid: HexGrid, state: GameState)
    modifies state`territories
    ensures |state.territories| == |old(state.territories)|
    ensures forall k :: 0 <= k < |state.territories| ==>
      state.territories[k] == old(state.territories)[k].(neighbors := state.territories[k].neighbors)
    ensures forall k :: 0 <= k < |state.territories| ==>
      NeighborsComputed(grid.validCoords, state.hexToTerritory, state.territories[k])
  {
    var i := 0;
    while i < |state.territories|
      invariant 0 <= i <= |state.territories| == |old(state.territories)|
      invariant forall k :: 0 <= k < |state.territories| ==>
        state.territories[k] == old(state.territories)[k].(neighbors := state.territories[k].neighbors)
      invariant forall k :: 0 <= k < i ==>
        NeighborsComputed(grid.validCoords, state.hexToTerritory, state.territories[k])
    {
      var territory := state.territories[i];
      var neighborSet := CollectNeighborIds(grid, state, territory.hexes, territory.id);
      var neighbors := ListOf(neighborSet);
      state.territories := state.territories[i := territory.(neighbors := neighbors)];
      i := i + 1;
    }
  }

  /**
   * The hex the dice are drawn on: the origin for an empty territory, the
   * only hex of a one-hex territory, and otherwise the hex nearest the
   * centroid. The centroid comparison is floating point and is a free
   * choice here, so the result is some hex of the territory.
   */
  method FindTerritoryCenter(t: Territory) returns (center: Hex)
    ensures |t.hexes| == 0 ==> center == Origin
    ensures |t.hexes| == 1 ==> center == t.hexes[0]
    ensures |t.hexes| > 0 ==> center in t.hexes
  {
    if |t.hexes| == 0 {
      return Origin;
    }
    if |t.hexes| == 1 {
      return t.hexes[0];
    }
    center := t.hexes[0];
    var i := 0;
    while i < |t.hexes|
      invariant 0 <= i <= |t.hexes|
      invariant center in t.hexes
    {
      var closer: bool :| true;
      if closer {
        center := t.hexes[i];
      }
      i := i + 1;
    }
  }

  /** Sets every territory's centre hex. */
  method AssignCenters(state: GameState)
    modifies state`territories
    ensures |state.territories| == |old(state.territories)|
    ensures forall k :: 0 <= k < |state.territories| ==>
      state.territories[k] == old(state.territories)[k].(centerHex := state.territories[k].centerHex)
    ensures forall k :: 0 <= k < |state.territories| && |state.territories[k].hexes| > 0 ==>
      state.territories[k].centerHex in state.territories[k].hexes
  {
    var i := 0;
    while i < |state.territories|
      invariant 0 <= i <= |state.territories| == |old(state.territories)|
      invariant forall k :: 0 <= k < |state.territories| ==>
        state.territories[k] == old(state.territories)[k].(centerHex := state.territories[k].centerHex)
      invariant forall k :: 0 <= k < i && |state.territories[k].hexes| > 0 ==>
        state.territories[k].centerHex in state.territories[k].hexes
    {
      var territory := state.territories[i];
      var center := FindTerritoryCenter(territory);
      state.territories := state.territories[i := territory.(centerHex := center)];
      i := i + 1;
    }
  }

  /** A generated territory: id = index, no owner, one die, at least one hex, centre among its hexes. */
  predicate FreshTerritory(t: Territory, i: nat)
  {
    t.id == i && t.owner == PLAYER_NONE && t.diceCount == 1 && |t.hexes| > 0 && t.centerHex in t.hexes
  }

  /** Every listed neighbour is another territory, which lists this one back. */
  predicate SymmetricNeighbors(ts: seq<Territory>)
  {
    forall i, j :: 0 <= i < |ts| && j in ts[i].neighbors ==> ListsBack(ts, i, j)
  }

  /** Territory `j` is another territory, and lists `i` among its neighbours. */
  predicate ListsBack(ts: seq<Territory>, i: nat, j: nat)
  {
    j < |ts| && j != i && i in ts[j].neighbors
  }

  /** Neighbour lists computed over a partition of grid cells are symmetric. */
  lemma ComputedNeighborsAreSymmetric(valid: set<Hex>, ts: seq<Territory>, index: map<Hex, nat>)
    requires Partition(ts, index) && |ts| <= TERRITORY_NONE
    requires forall c :: c in index ==> c in valid
    requires forall i :: 0 <= i < |ts| ==> ts[i].id == i && NeighborsComputed(valid, index, ts[i])
    ensures SymmetricNeighbors(ts)
  {
    forall i, j | 0 <= i < |ts| && j in ts[i].neighbors
      ensures j < |ts| && j != i && i in ts[j].neighbors
    {
      ListedNeighborListsBack(valid, ts, index, i, j);
      assert ts[j].id == j && NeighborsComputed(valid, index, ts[j]);
    }
  }

  /** A neighbour listed by a computed territory finds that territory among its own neighbour ids. */
  lemma ListedNeighborListsBack(valid: set<Hex>, ts: seq<Territory>, index: map<Hex, nat>, i: nat, j: nat)
    requires Partition(ts, index) && |ts| <= TERRITORY_NONE
    requires forall c :: c in index ==> c in valid
    requires i < |ts| && ts[i].id == i && NeighborsComputed(valid, index, ts[i]) && j in ts[i].neighbors
    ensures j < |ts| && j != i && i in NeighborIds(valid, index, ts[j].hexes, j)
  {
    NeighborIdsSymmetric(valid, ts, index, i, j);
  }

  /** The partition only depends on the hex lists. */
  lemma PartitionSameHexes(ts: seq<Territory>, ts': seq<Territory>, index: map<Hex, nat>)
    requires Partition(ts, index) && |ts'| == |ts|
    requires forall k :: 0 <= k < |ts| ==> ts'[k].hexes == ts[k].hexes
    ensures Partition(ts', index)
  {
  }

  /** The first half of `Generate`: empty both containers, pick the seeds and flood from them. */
  method FloodFromSeeds(grid: HexGrid, state: GameState, candidates: seq<Hex>)
    requires grid.Valid() && IsShuffleOf(candidates, grid.coords)
    modifies state`territories, state`hexToTerritory
    ensures |state.territories| == 0 <==> |grid.coords| == 0 || state.config.targetTerritoryCount <= 0
    ensures state.config.targetTerritoryCount > 0 ==> |state.territories| <= state.config.targetTerritoryCount
    ensures Partition(state.territories, state.hexToTerritory)
    ensures forall c :: c in state.hexToTerritory ==> c in grid.validCoords
    ensures |state.territories| > 0 ==> forall c :: c in grid.validCoords ==> c in state.hexToTerritory
    ensures forall i :: 0 <= i < |state.territories| ==>
      state.territories[i] == DefaultTerritory.(id := i, hexes := state.territories[i].hexes)
      && |state.territories[i].hexes| > 0
  {
    state.territories := [];
    state.hexToTerritory := map[];
    var seeds := SelectSeedPoints(grid, state.config.targetTerritoryCount, candidates);
    FloodFillTerritories(grid, seeds, state);
    forall i | 0 <= i < |seeds| ensures seeds[i] in state.territories[i].hexes {
      assert seeds[i] in state.hexToTerritory;
    }
  }

  /**
   * Builds the map from scratch: empties the territories and the index,
   * picks the seeds (`candidates` is the shuffled cell order), floods,
   * then computes every territory's neighbours and centre. The territories
   * partition the grid (all of it once there is a territory); there is one
   * per seed, so none when the grid is empty or the target is not positive,
   * and at most the target otherwise; and the computed neighbour relation
   * is symmetric whenever the ids fit below `TERRITORY_NONE`.
   */
  method Generate(grid: HexGrid, state: GameState, candidates: seq<Hex>)
    requires grid.Valid() && IsShuffleOf(candidates, grid.coords)
    modifies state`territories, state`hexToTerritory
    ensures |state.territories| == 0 <==> |grid.coords| == 0 || state.config.targetTerritoryCount <= 0
    ensures state.config.targetTerritoryCount > 0 ==> |state.territories| <= state.config.targetTerritoryCount
    ensures Partition(state.territories, state.hexToTerritory)
    ensures forall c :: c in state.hexToTerritory ==> c in grid.validCoords
    ensures |state.territories| > 0 ==> forall c :: c in grid.validCoords ==> c in state.hexToTerritory
    ensures forall i :: 0 <= i < |state.territories| ==> FreshTerritory(state.territories[i], i)
    ensures forall i :: 0 <= i < |state.territories| ==>
      NeighborsComputed(grid.validCoords, state.hexToTerritory, state.territories[i])
    ensures |state.territories| <= TERRITORY_NONE ==> SymmetricNeighbors(state.territories)
  {
    FloodFromSeeds(grid, state, candidates);
    ghost var flooded := state.territories;
    CalculateTerritoryNeighbors(grid, state);
    AssignCenters(state);
    PartitionSameHexes(flooded, state.territories, state.hexToTerritory);
    if |state.territories| <= TERRITORY_NONE {
      ComputedNeighborsAreSymmetric(grid.validCoords, state.territories, state.hexToTerritory);
    }
  }
}
