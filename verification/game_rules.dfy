/**
 * The rules the turn controller applies, as functions of the board and the
 * player table: which attacks are allowed, who plays next, who is knocked
 * out, and when the game is won.
 */
module GameRules {
  import opened Wrappers
  import opened HexGrid
  import opened GameData

  // ---------------------------------------------------------------------
  // Attacks

  /**
   * `current` may attack from `from` to `to`: both territories exist,
   * `from` is its own and holds at least two dice, `to` is someone else's,
   * and `to` is listed among the neighbours of `from`.
   */
  predicate CanAttackOn(ts: seq<Territory>, current: nat, from: nat, to: nat)
  {
    && from < |ts| && to < |ts|
    && ts[from].owner == current
    && ts[from].CanAttack()
    && ts[to].owner != current
    && to in ts[from].neighbors
  }

  /** The entries of `ns` that `current` may attack from `from`, in their order in `ns`. */
  function TargetsAmong(ts: seq<Territory>, current: nat, from: nat, ns: seq<nat>): seq<nat>
  {
    if |ns| == 0 then []
    else TargetsAmong(ts, current, from, ns[..|ns| - 1])
         + (if CanAttackOn(ts, current, from, ns[|ns| - 1]) then [ns[|ns| - 1]] else [])
  }

  /** The targets offered from `from`: none unless it exists and holds two dice. */
  function ValidTargets(ts: seq<Territory>, current: nat, from: nat): seq<nat>
  {
    if from < |ts| && ts[from].CanAttack() then TargetsAmong(ts, current, from, ts[from].neighbors) else []
  }

  /** A territory never attacks itself: attacker and defender have different owners. */
  lemma AttackJoinsTwoTerritories(ts: seq<Territory>, current: nat, from: nat, to: nat)
    requires CanAttackOn(ts, current, from, to)
    ensures from != to && ts[from].owner != ts[to].owner
  {
  }

  /** The filter keeps exactly the attackable entries, and keeps a list without repeats without repeats. */
  lemma {:induction false} TargetsAmongMembers(ts: seq<Territory>, current: nat, from: nat, ns: seq<nat>)
    ensures forall t :: t in TargetsAmong(ts, current, from, ns) <==> t in ns && CanAttackOn(ts, current, from, t)
    ensures NoDuplicates(ns) ==> NoDuplicates(TargetsAmong(ts, current, from, ns))
    ensures |TargetsAmong(ts, current, from, ns)| <= |ns|
  {
    if |ns| > 0 {
      var init := ns[..|ns| - 1];
      TargetsAmongMembers(ts, current, from, init);
      assert ns == init + [ns[|ns| - 1]];
      if NoDuplicates(ns) {
        assert NoDuplicates(init);
        assert ns[|ns| - 1] !in init;
      }
    }
  }

  /**
   * The offered targets are exactly the territories the rules allow
   * attacking from `from`: an attack is allowed iff its target is offered.
   */
  lemma ValidTargetsExactly(ts: seq<Territory>, current: nat, from: nat)
    ensures forall t :: t in ValidTargets(ts, current, from) <==> CanAttackOn(ts, current, from, t)
    ensures !(from < |ts| && ts[from].CanAttack()) ==> ValidTargets(ts, current, from) == []
    ensures from < |ts| && NoDuplicates(ts[from].neighbors) ==> NoDuplicates(ValidTargets(ts, current, from))
  {
    if from < |ts| && ts[from].CanAttack() {
      TargetsAmongMembers(ts, current, from, ts[from].neighbors);
    }
  }

  // ---------------------------------------------------------------------
  // Passing play on

  /** The player `d` places after `current` in the cyclic order of players `0 .. count-1`. */
  function Seat(current: nat, d: nat, count: nat): nat
    requires count > 0
  {
    (current + d) % count
  }

  /** The player `d` places after `current` is out of play. */
  predicate OutAt(players: seq<Player>, count: nat, current: nat, d: nat)
    requires 0 < count <= |players|
  {
    players[Seat(current, d, count)].isEliminated
  }

  /**
   * The first player in play at offsets `k .. count-1` after `current`, in
   * the cyclic order of players `0 .. count-1`; `None` when all of them are
   * out.
   */
  function NextInPlay(players: seq<Player>, count: nat, current: nat, k: nat): Option<nat>
    requires current < count <= |players| && 1 <= k <= count
    decreases count - k
  {
    if k == count then None
    else if !OutAt(players, count, current, k) then Some(Seat(current, k, count))
    else NextInPlay(players, count, current, k + 1)
  }

  /** Offsets strictly between 0 and `count` land on another player; going past the last player wraps to a lower number. */
  lemma Offset(current: nat, d: nat, count: nat)
    requires current < count && 1 <= d < count
    ensures Seat(current, d, count) != current
    ensures Seat(current, d, count) <= current <==> current + d >= count
  {
    if current + d < count {
      assert (current + d) % count == current + d;
    } else {
      assert current + d - count < current;
      assert (current + d) % count == current + d - count;
    }
  }

  /** `d` is the offset of the nearest player in play at offsets from `k` on. */
  ghost predicate FirstInPlayAt(players: seq<Player>, count: nat, current: nat, k: nat, d: nat)
    requires 0 < count <= |players|
  {
    && k <= d < count
    && !OutAt(players, count, current, d)
    && forall e :: k <= e < d ==> OutAt(players, count, current, e)
  }

  /** What the search from offset `k` finds: the nearest player in play, with all skipped players out. */
  lemma {:induction false} NextInPlayFrom(players: seq<Player>, count: nat, current: nat, k: nat)
    requires current < count <= |players| && 1 <= k <= count
    ensures NextInPlay(players, count, current, k).None?
            <==> forall d :: k <= d < count ==> OutAt(players, count, current, d)
    ensures NextInPlay(players, count, current, k).Some? ==>
      exists d :: FirstInPlayAt(players, count, current, k, d)
                && NextInPlay(players, count, current, k).value == Seat(current, d, count)
    decreases count - k
  {
    if k < count && OutAt(players, count, current, k) {
      NextInPlayFrom(players, count, current, k + 1);
      var r := NextInPlay(players, count, current, k + 1);
      if r.Some? {
        var d :| FirstInPlayAt(players, count, current, k + 1, d) && r.value == Seat(current, d, count);
        assert FirstInPlayAt(players, count, current, k, d);
      } else {
        assert forall d :: k <= d < count ==> OutAt(players, count, current, d);
      }
    } else if k < count {
      assert FirstInPlayAt(players, count, current, k, k);
    }
  }

  /**
   * The next player is the first one in play after `current` in cyclic
   * order: another player, in play, with every player skipped on the way
   * out of play. Its number is at most `current` exactly when the search
   * went past the last player. There is none exactly when every other
   * player is out.
   */
  lemma NextInPlayIsNext(players: seq<Player>, count: nat, current: nat)
    requires current < count <= |players|
    ensures var next := NextInPlay(players, count, current, 1);
      && (next.None? <==> forall d :: 1 <= d < count ==> OutAt(players, count, current, d))
      && (next.Some? ==>
            && next.value < count && next.value != current && !players[next.value].isEliminated
            && exists d :: FirstInPlayAt(players, count, current, 1, d) && next.value == Seat(current, d, count)
                        && (next.value <= current <==> current + d >= count))
  {
    NextInPlayFrom(players, count, current, 1);
    var next := NextInPlay(players, count, current, 1);
    if next.Some? {
      var d :| FirstInPlayAt(players, count, current, 1, d) && next.value == Seat(current, d, count);
      Offset(current, d, count);
    }
  }

  // ---------------------------------------------------------------------
  // Elimination

  /** Player `p` is knocked out now: still marked in play, but owning nothing. */
  predicate KnockedOut(players: seq<Player>, ts: seq<Territory>, p: nat)
    requires p < |players|
  {
    !players[p].isEliminated && OwnedCount(ts, p) == 0
  }

  /** The player table after marking out every player below `upto` who is knocked out. */
  function MarkEliminated(players: seq<Player>, ts: seq<Territory>, upto: nat): seq<Player>
  {
    seq(|players|, p requires 0 <= p < |players| =>
      if p < upto && KnockedOut(players, ts, p) then players[p].(isEliminated := true) else players[p])
  }

  /** How many players below `upto` are knocked out. */
  function KnockedOutCount(players: seq<Player>, ts: seq<Territory>, upto: nat): nat
    requires upto <= |players|
  {
    if upto == 0 then 0
    else KnockedOutCount(players, ts, upto - 1) + (if KnockedOut(players, ts, upto - 1) then 1 else 0)
  }

  /** How many players below `upto` are still in play. */
  function InPlayCount(players: seq<Player>, upto: nat): nat
    requires upto <= |players|
  {
    if upto == 0 then 0
    else InPlayCount(players, upto - 1) + (if players[upto - 1].isEliminated then 0 else 1)
  }

  /**
   * Marking players out lowers the number in play by exactly the number
   * knocked out, so a counter of players in play stays in step.
   */
  lemma {:induction false} EliminationLowersInPlay(players: seq<Player>, ts: seq<Territory>, upto: nat, m: nat)
    requires m <= upto <= |players|
    ensures InPlayCount(MarkEliminated(players, ts, upto), m) + KnockedOutCount(players, ts, m) == InPlayCount(players, m)
  {
    if m > 0 {
      EliminationLowersInPlay(players, ts, upto, m - 1);
    }
  }

  /** Only players owning nothing are marked out, and a second check marks no one. */
  lemma {:induction false} EliminationIsStable(players: seq<Player>, ts: seq<Territory>, upto: nat)
    requires upto <= |players|
    ensures var after := MarkEliminated(players, ts, upto);
      && |after| == |players|
      && (forall p :: 0 <= p < |players| && OwnedCount(ts, p) > 0 ==> after[p] == players[p])
      && MarkEliminated(after, ts, upto) == after
      && KnockedOutCount(after, ts, upto) == 0
  {
    var after := MarkEliminated(players, ts, upto);
    NoneKnockedOut(after, ts, upto, upto);
  }

  /** After marking, no player below `upto` is knocked out. */
  lemma {:induction false} NoneKnockedOut(after: seq<Player>, ts: seq<Territory>, upto: nat, m: nat)
    requires m <= upto <= |after|
    requires forall p :: 0 <= p < upto ==> !KnockedOut(after, ts, p)
    ensures KnockedOutCount(after, ts, m) == 0
  {
    if m > 0 {
      NoneKnockedOut(after, ts, upto, m - 1);
    }
  }

  // ---------------------------------------------------------------------
  // Victory

  /**
   * The owner reported by a scan of `ts` that has seen `first` so far.
   * While nothing has been seen (`first` is nobody), a territory's owner is
   * taken as it is, nobody included; once a real owner has been seen, a
   * territory with any other owner ends the scan with nobody.
   */
  function ScanOwners(ts: seq<Territory>, first: nat): nat
    decreases |ts|
  {
    if |ts| == 0 then first
    else if first == PLAYER_NONE then ScanOwners(ts[1..], ts[0].owner)
    else if ts[0].owner != first then PLAYER_NONE
    else ScanOwners(ts[1..], first)
  }

  /** The winner the victory check finds, or nobody. */
  function Victor(ts: seq<Territory>): nat
  {
    ScanOwners(ts, PLAYER_NONE)
  }

  /**
   * `w` has won: it is a real player, the territories before its first one
   * belong to nobody, and it owns every territory from there on.
   */
  ghost predicate WonBy(ts: seq<Territory>, w: nat)
  {
    w != PLAYER_NONE && exists k: nat :: WinsFrom(ts, w, k)
  }

  /** Territories before `k` belong to nobody and `w` owns every territory from `k` on. */
  ghost predicate WinsFrom(ts: seq<Territory>, w: nat, k: nat)
  {
    && k < |ts|
    && (forall i :: 0 <= i < k ==> ts[i].owner == PLAYER_NONE)
    && (forall i :: k <= i < |ts| ==> ts[i].owner == w)
  }

  /** Once a real owner has been seen, the scan keeps it exactly when every remaining territory has it. */
  lemma {:induction false} ScanFromOwner(ts: seq<Territory>, first: nat)
    requires first != PLAYER_NONE
    ensures ScanOwners(ts, first) == first <==> forall i :: 0 <= i < |ts| ==> ts[i].owner == first
    ensures ScanOwners(ts, first) == first || ScanOwners(ts, first) == PLAYER_NONE
    decreases |ts|
  {
    if |ts| > 0 && ts[0].owner == first {
      ScanFromOwner(ts[1..], first);
      assert forall i :: 1 <= i < |ts| ==> ts[i] == ts[1..][i - 1];
    }
  }

  /** The scan finds `w` exactly when `w` has won. */
  lemma {:induction false} VictorIsWinner(ts: seq<Territory>, w: nat)
    ensures WonBy(ts, w) <==> w != PLAYER_NONE && Victor(ts) == w
    decreases |ts|
  {
    if |ts| == 0 {
      return;
    }
    var rest := ts[1..];
    assert forall i :: 1 <= i < |ts| ==> ts[i] == rest[i - 1];
    if ts[0].owner == PLAYER_NONE {
      VictorIsWinner(rest, w);
      if WonBy(rest, w) {
        var k: nat :| WinsFrom(rest, w, k);
        assert WinsFrom(ts, w, k + 1);
      }
      if WonBy(ts, w) {
        var k: nat :| WinsFrom(ts, w, k);
        assert k >= 1;
        assert WinsFrom(rest, w, k - 1);
      }
    } else {
      ScanFromOwner(rest, ts[0].owner);
      if w != PLAYER_NONE && Victor(ts) == w {
        assert WinsFrom(ts, w, 0);
      }
      if WonBy(ts, w) {
        var k: nat :| WinsFrom(ts, w, k);
        assert k == 0;
        assert forall i :: 0 <= i < |rest| ==> rest[i].owner == ts[0].owner;
      }
    }
  }

  /** A player owning every territory of a non-empty board has won. */
  lemma SoleOwnerWins(ts: seq<Territory>, w: nat)
    requires |ts| > 0 && w != PLAYER_NONE
    requires forall i :: 0 <= i < |ts| ==> ts[i].owner == w
    ensures Victor(ts) == w
  {
    assert WinsFrom(ts, w, 0);
    VictorIsWinner(ts, w);
  }

  /** The winner found owns every territory that has an owner, and at least one. */
  lemma VictorOwnsEveryOwned(ts: seq<Territory>)
    requires Victor(ts) != PLAYER_NONE
    ensures forall i :: 0 <= i < |ts| && ts[i].owner != PLAYER_NONE ==> ts[i].owner == Victor(ts)
    ensures exists i :: 0 <= i < |ts| && ts[i].owner == Victor(ts)
  {
    VictorIsWinner(ts, Victor(ts));
    var k: nat :| WinsFrom(ts, Victor(ts), k);
    assert ts[k].owner == Victor(ts);
  }

  /** Two real players both holding territories means no one has won. */
  lemma SharedBoardHasNoVictor(ts: seq<Territory>, i: nat, j: nat)
    requires i < |ts| && j < |ts|
    requires ts[i].owner != PLAYER_NONE && ts[j].owner != PLAYER_NONE && ts[i].owner != ts[j].owner
    ensures Victor(ts) == PLAYER_NONE
  {
    if Victor(ts) != PLAYER_NONE {
      VictorOwnsEveryOwned(ts);
    }
  }

  /**
   * Territories owned by nobody only block a victory when they come after
   * the first owned one: nobody followed by `w` is a win for `w`, while `w`
   * followed by nobody is no win.
   */
  lemma UnownedOnlyCountsAfterFirstOwner(a: Territory, b: Territory)
    requires a.owner == PLAYER_NONE && b.owner != PLAYER_NONE
    ensures Victor([a, b]) == b.owner
    ensures Victor([b, a]) == PLAYER_NONE
  {
    assert [a, b][1..] == [b] && [b, a][1..] == [a] && [a][1..] == [] && [b][1..] == [];
    assert ScanOwners([b], a.owner) == ScanOwners([], b.owner);
    assert ScanOwners([a], b.owner) == PLAYER_NONE;
  }
}
