/**
 * Regions of one player's territories: groups of owned territories linked
 * by neighbour entries between owned territories. The reinforcement rule
 * and the AI's planning both split a player's territories into regions by
 * breadth-first search; this module states what such a split is.
 */
module OwnedRegions {
  import opened HexGrid
  import opened GameData
  import opened TerritoryGenerator
  import opened PlayerAssignment

  /** `x` is a territory on the board owned by `player`. */
  predicate OwnedBy(ts: seq<Territory>, player: nat, x: nat)
  {
    x < |ts| && ts[x].owner == player
  }

  /** A walk from territory to listed neighbour through territories of `player` only. */
  ghost predicate OwnedPath(ts: seq<Territory>, player: nat, path: seq<nat>)
  {
    && |path| > 0
    && (forall i :: 0 <= i < |path| ==> OwnedBy(ts, player, path[i]))
    && (forall i :: 0 <= i < |path| - 1 ==> path[i + 1] in ts[path[i]].neighbors)
  }

  /** `b` can be reached from `a` without leaving `player`'s territories. */
  ghost predicate Reachable(ts: seq<Territory>, player: nat, a: nat, b: nat)
  {
    exists path :: OwnedPath(ts, player, path) && path[0] == a && path[|path| - 1] == b
  }

  /** Every owned neighbour of a member of `r` is in `s`. */
  ghost predicate ClosedInto(ts: seq<Territory>, player: nat, r: set<nat>, s: set<nat>)
  {
    forall x, n :: x in r && x < |ts| && n in ts[x].neighbors && OwnedBy(ts, player, n) ==> n in s
  }

  /** `root` belongs to `r` and reaches every member of it. */
  ghost predicate Rooted(ts: seq<Territory>, player: nat, r: set<nat>, root: nat)
  {
    root in r && forall x :: x in r ==> Reachable(ts, player, root, x)
  }

  /**
   * `regions` split the territories of `player` into non-empty, pairwise
   * disjoint groups, each reached from its root in `roots`; when neighbour
   * lists are symmetric, no owned neighbour of a group lies outside it, so
   * each group is a whole connected component.
   */
  ghost predicate RegionsOf(ts: seq<Territory>, player: nat, regions: seq<set<nat>>, roots: seq<nat>)
  {
    && |roots| == |regions|
    && (forall x: nat :: OwnedBy(ts, player, x) <==> exists j :: 0 <= j < |regions| && x in regions[j])
    && (forall j :: 0 <= j < |regions| ==> Rooted(ts, player, regions[j], roots[j]))
    && (forall j1, j2 :: 0 <= j1 < j2 < |regions| ==> regions[j1] !! regions[j2])
    && (SymmetricNeighbors(ts) ==> forall j :: 0 <= j < |regions| ==> ClosedInto(ts, player, regions[j], regions[j]))
  }

  /** The size of the largest group, 0 for none. */
  function MaxSize(regions: seq<set<nat>>): nat
  {
    if |regions| == 0 then 0 else Max(MaxSize(regions[..|regions| - 1]), |regions[|regions| - 1]|)
  }

  /** Appending a group makes the maximum the larger of the old maximum and its size. */
  lemma MaxSizeAppend(regions: seq<set<nat>>, r: set<nat>)
    ensures MaxSize(regions + [r]) == Max(MaxSize(regions), |r|)
  {
    assert (regions + [r])[..|regions|] == regions;
  }

  /** The maximum is the size of one of the groups and no group is larger. */
  lemma {:induction false} MaxSizeIsMaximum(regions: seq<set<nat>>)
    ensures forall j :: 0 <= j < |regions| ==> |regions[j]| <= MaxSize(regions)
    ensures |regions| > 0 ==> exists j :: 0 <= j < |regions| && |regions[j]| == MaxSize(regions)
  {
    if |regions| > 0 {
      var last := |regions| - 1;
      var init := regions[..last];
      MaxSizeIsMaximum(init);
      assert MaxSize(regions) == Max(MaxSize(init), |regions[last]|);
      forall j | 0 <= j < |regions|
        ensures |regions[j]| <= MaxSize(regions)
      {
        if j < last {
          assert init[j] == regions[j];
        }
      }
      if |regions[last]| < MaxSize(init) {
        var j :| 0 <= j < |init| && |init[j]| == MaxSize(init);
        assert init[j] == regions[j];
      }
    }
  }

  /** One step of a walk. */
  lemma ReachStep(ts: seq<Territory>, player: nat, a: nat, c: nat, n: nat)
    requires Reachable(ts, player, a, c) && c < |ts| && n in ts[c].neighbors && OwnedBy(ts, player, n)
    ensures Reachable(ts, player, a, n)
  {
    var path :| OwnedPath(ts, player, path) && path[0] == a && path[|path| - 1] == c;
    var longer := path + [n];
    assert OwnedPath(ts, player, longer);
  }

  /** An owned territory reaches itself. */
  lemma ReachSelf(ts: seq<Territory>, player: nat, a: nat)
    requires OwnedBy(ts, player, a)
    ensures Reachable(ts, player, a, a)
  {
    assert OwnedPath(ts, player, [a]);
  }

  /** A walk that starts inside a closed group never leaves it. */
  lemma {:induction false} PathStaysIn(ts: seq<Territory>, player: nat, r: set<nat>, path: seq<nat>)
    requires ClosedInto(ts, player, r, r) && OwnedPath(ts, player, path) && path[0] in r
    ensures forall i :: 0 <= i < |path| ==> path[i] in r
  {
    if |path| > 1 {
      var init := path[..|path| - 1];
      assert OwnedPath(ts, player, init);
      PathStaysIn(ts, player, r, init);
      var k := |path| - 2;
      assert path[k] in r && path[k + 1] in ts[path[k]].neighbors;
    }
  }

  /**
   * A group that reaches all of itself from `root` and has no owned
   * neighbour outside it holds exactly what `root` reaches: it is a
   * connected component of the player's territories.
   */
  lemma RegionIsComponent(ts: seq<Territory>, player: nat, r: set<nat>, root: nat, y: nat)
    requires Rooted(ts, player, r, root) && ClosedInto(ts, player, r, r)
    ensures y in r <==> Reachable(ts, player, root, y)
  {
    if Reachable(ts, player, root, y) {
      var path :| OwnedPath(ts, player, path) && path[0] == root && path[|path| - 1] == y;
      PathStaysIn(ts, player, r, path);
    }
  }

  /** A subset is no larger than its superset. */
  lemma {:induction false} SubsetSize(a: set<nat>, b: set<nat>)
    requires a <= b
    ensures |a| <= |b|
    decreases a
  {
    if a != {} {
      var x :| x in a;
      SubsetSize(a - {x}, b - {x});
    }
  }

  /** No group is larger than the player's territory count. */
  lemma RegionWithinOwned(ts: seq<Territory>, player: nat, regions: seq<set<nat>>, roots: seq<nat>, j: nat)
    requires RegionsOf(ts, player, regions, roots) && j < |regions|
    ensures |regions[j]| <= OwnedCount(ts, player)
  {
    assert forall x :: x in regions[j] ==> OwnedBy(ts, player, x);
    SubsetSize(regions[j], OwnedSet(ts, player));
    OwnedCountIsCardinality(ts, player);
  }

  /**
   * The largest group is empty exactly when the player owns nothing, and is
   * never larger than the player's territory count.
   */
  lemma LargestRegionBounds(ts: seq<Territory>, player: nat, regions: seq<set<nat>>, roots: seq<nat>)
    requires RegionsOf(ts, player, regions, roots)
    ensures MaxSize(regions) <= OwnedCount(ts, player)
    ensures MaxSize(regions) == 0 <==> OwnedCount(ts, player) == 0
  {
    MaxSizeIsMaximum(regions);
    OwnedCountBounds(ts, player);
    if |regions| > 0 {
      var j :| 0 <= j < |regions| && |regions[j]| == MaxSize(regions);
      RegionWithinOwned(ts, player, regions, roots, j);
      assert Rooted(ts, player, regions[j], roots[j]);
      assert OwnedBy(ts, player, roots[j]);
      assert MaxSize(regions) >= 1;
    }
    if OwnedCount(ts, player) > 0 {
      var x :| 0 <= x < |ts| && ts[x].owner == player;
      assert OwnedBy(ts, player, x);
      var j :| 0 <= j < |regions| && x in regions[j];
      assert |regions[j]| >= 1;
    }
  }
}
