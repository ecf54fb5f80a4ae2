/**
 * The bounded hexagonal grid: every coordinate within `radius` steps of the
 * origin, kept both as an ordered list and as a membership set, and the
 * neighbour query that filters the six directions through that set.
 */
module HexGrid {
  import opened HexCoord

  /** The hexagon bound: each cube component lies within the radius. */
  predicate InHexagon(c: Hex, radius: int)
  {
    Abs(c.q) <= radius && Abs(c.r) <= radius && Abs(c.q + c.r) <= radius
  }

  /** The hexagon bound is exactly "at most `radius` steps from the origin". */
  lemma InHexagonIffNearOrigin(c: Hex, radius: int)
    ensures InHexagon(c, radius) <==> Distance(c, Origin) <= radius
  {
    var m := Max3(Abs(c.q), Abs(c.r), Abs(c.q + c.r));
    CubeSumIsTwiceMax(c.q, c.r, -c.q - c.r);
    assert Distance(c, Origin) == (Abs(c.q) + Abs(c.r) + Abs(c.q + c.r)) / 2;
    assert Distance(c, Origin) == m;
  }

  function Max(a: int, b: int): int { if a >= b then a else b }
  function Min(a: int, b: int): int { if a <= b then a else b }

  /** First and last row of column `q` inside the hexagon. */
  function RowStart(q: int, radius: int): int { Max(-radius, -q - radius) }
  function RowEnd(q: int, radius: int): int { Min(radius, -q + radius) }

  /** Within column `q`, the hexagon bound is the row range. */
  lemma ColumnMembership(c: Hex, radius: int)
    requires Abs(c.q) <= radius
    ensures InHexagon(c, radius) <==> RowStart(c.q, radius) <= c.r <= RowEnd(c.q, radius)
  {
  }

  /** Number of cells in the columns -radius .. q-1. */
  function CellsBefore(q: int, radius: int): int
    decreases q + radius
  {
    if q <= -radius then 0
    else CellsBefore(q - 1, radius) + (RowEnd(q - 1, radius) - RowStart(q - 1, radius) + 1)
  }

  /** Closed form of `CellsBefore` on the left half (columns up to 0). */
  lemma {:induction false} CellsBeforeLeft(q: int, radius: int)
    requires radius >= 0 && -radius <= q <= 0
    ensures 2 * CellsBefore(q, radius) == 2 * (q + radius) * (radius + 1) + (q + radius) * (q + radius - 1)
    decreases q + radius
  {
    if q > -radius {
      CellsBeforeLeft(q - 1, radius);
      var k := q + radius;
      assert RowEnd(q - 1, radius) - RowStart(q - 1, radius) + 1 == radius + k;
      LeftStepArithmetic(k, radius);
    }
  }

  lemma LeftStepArithmetic(k: int, radius: int)
    ensures 2 * (k - 1) * (radius + 1) + (k - 1) * (k - 2) + 2 * (radius + k) == 2 * k * (radius + 1) + k * (k - 1)
  {
  }

  /** Closed form of `CellsBefore` on the right half (columns from 0). */
  lemma {:induction false} CellsBeforeRight(q: int, radius: int)
    requires radius >= 0 && 0 <= q <= radius + 1
    ensures 2 * CellsBefore(q, radius) == 3 * radius * radius + radius + 2 * q * (2 * radius + 1) - q * (q - 1)
    decreases q
  {
    if q == 0 {
      CellsBeforeLeft(0, radius);
    } else {
      CellsBeforeRight(q - 1, radius);
      var p := q - 1;
      assert RowEnd(p, radius) - RowStart(p, radius) + 1 == 2 * radius + 1 - p;
      RightStepArithmetic(p, radius);
    }
  }

  lemma RightStepArithmetic(p: int, radius: int)
    ensures 2 * p * (2 * radius + 1) - p * (p - 1) + 2 * (2 * radius + 1 - p) == 2 * (p + 1) * (2 * radius + 1) - (p + 1) * p
  {
  }

  /** A hexagon of radius R holds 3R(R+1)+1 cells. */
  lemma GridSize(radius: int)
    requires radius >= 0
    ensures CellsBefore(radius + 1, radius) == 3 * radius * (radius + 1) + 1
  {
    CellsBeforeRight(radius + 1, radius);
  }

  /**
   * The hexagon is connected: a set holding one cell of the hexagon and,
   * with each of its cells, every neighbour inside the hexagon, holds the
   * whole hexagon.
   */
  lemma {:induction false} ClosedSetCoversHexagon(s: set<Hex>, radius: int, a: Hex, b: Hex)
    requires InHexagon(a, radius) && InHexagon(b, radius) && a in s
    requires forall c, d :: c in s && 0 <= d < 6 && InHexagon(c.Neighbor(d), radius) ==> c.Neighbor(d) in s
    ensures b in s
    decreases Distance(b, a)
  {
    if b != a {
      StepTowardInside(b, a, radius);
      var d :| 0 <= d < 6 && InHexagon(b.Neighbor(d), radius) && Distance(b.Neighbor(d), a) + 1 == Distance(b, a);
      var n := b.Neighbor(d);
      ClosedSetCoversHexagon(s, radius, a, n);
      NeighborSymmetric(b, d);
      OppositeCancels(d);
    }
  }

  predicate StrictlySorted(s: seq<Hex>)
  {
    forall i, j :: 0 <= i < j < |s| ==> s[i].Less(s[j])
  }

  predicate NoDuplicates<T(==)>(s: seq<T>)
  {
    forall i, j :: 0 <= i < j < |s| ==> s[i] != s[j]
  }

  /** Two lists without repeats and with no entry in common join into a list without repeats. */
  lemma NoDuplicatesConcat<T>(a: seq<T>, b: seq<T>)
    requires NoDuplicates(a) && NoDuplicates(b)
    requires forall x :: x in a ==> x !in b
    ensures NoDuplicates(a + b)
  {
    forall i, j | 0 <= i < j < |a + b|
      ensures (a + b)[i] != (a + b)[j]
    {
      if i < |a| <= j {
        assert (a + b)[i] in a && (a + b)[j] == b[j - |a|];
      }
    }
  }

  lemma SortedHasNoDuplicates(s: seq<Hex>)
    requires StrictlySorted(s)
    ensures NoDuplicates(s)
  {
    forall i, j | 0 <= i < j < |s| ensures s[i] != s[j] {
      LessIsStrictTotalOrder(s[i], s[j], s[j]);
    }
  }

  /** The neighbours of `c` in directions `from`..5 that lie in `valid`, in direction order. */
  function NeighborsFrom(valid: set<Hex>, c: Hex, from: nat): (ns: seq<Hex>)
    requires from <= 6
    ensures |ns| <= 6 - from
    ensures forall n :: n in ns <==> n in valid && exists d :: from <= d < 6 && c.Neighbor(d) == n
    decreases 6 - from
  {
    if from == 6 then []
    else
      var rest := NeighborsFrom(valid, c, from + 1);
      if c.Neighbor(from) in valid then [c.Neighbor(from)] + rest else rest
  }

  /** The neighbours of `c` that lie in `valid`, in direction order. */
  function ValidNeighbors(valid: set<Hex>, c: Hex): seq<Hex>
  {
    NeighborsFrom(valid, c, 0)
  }

  /** The filtered neighbour list holds exactly the valid coordinates one step away. */
  lemma ValidNeighborsAreAdjacent(valid: set<Hex>, c: Hex, n: Hex)
    ensures |ValidNeighbors(valid, c)| <= 6
    ensures n in ValidNeighbors(valid, c) <==> n in valid && Distance(c, n) == 1
  {
    AdjacentIffNeighbor(c, n);
  }

  /** Adjacency through `ValidNeighbors` is symmetric on valid coordinates. */
  lemma ValidNeighborsSymmetric(valid: set<Hex>, a: Hex, b: Hex)
    requires a in valid && b in valid
    ensures b in ValidNeighbors(valid, a) <==> a in ValidNeighbors(valid, b)
  {
    ValidNeighborsAreAdjacent(valid, a, b);
    ValidNeighborsAreAdjacent(valid, b, a);
    DistanceSymmetric(a, b);
  }

  /**
   * The hexagon is connected: from any cell one can step to a neighbouring
   * cell of the hexagon that is one step closer to any other given cell.
   */
  lemma StepTowardInside(a: Hex, b: Hex, radius: int)
    requires InHexagon(a, radius) && InHexagon(b, radius) && a != b
    ensures exists d :: 0 <= d < 6 && InHexagon(a.Neighbor(d), radius)
                     && Distance(a.Neighbor(d), b) + 1 == Distance(a, b)
  {
    var dq, dr := b.q - a.q, b.r - a.r;
    if dq > 0 && dr < 0 {
      StepWitness(a, b, radius, 1);
      assert 0 <= 1 < 6;
    } else if dq > 0 {
      StepWitness(a, b, radius, 0);
      assert 0 <= 0 < 6;
    } else if dq < 0 && dr > 0 {
      StepWitness(a, b, radius, 4);
      assert 0 <= 4 < 6;
    } else if dq < 0 {
      StepWitness(a, b, radius, 3);
      assert 0 <= 3 < 6;
    } else if dr > 0 {
      StepWitness(a, b, radius, 5);
      assert 0 <= 5 < 6;
    } else {
      StepWitness(a, b, radius, 2);
      assert 0 <= 2 < 6;
    }
  }

  /** The step `s` moves every cube component that it changes toward `b`. */
  predicate HeadsToward(a: Hex, b: Hex, s: Hex)
  {
    && -1 <= s.q <= 1 && -1 <= s.r <= 1 && -1 <= s.q + s.r <= 1
    && (s.q > 0 ==> a.q < b.q) && (s.q < 0 ==> a.q > b.q)
    && (s.r > 0 ==> a.r < b.r) && (s.r < 0 ==> a.r > b.r)
    && (s.q + s.r < 0 ==> a.q + a.r > b.q + b.r) && (s.q + s.r > 0 ==> a.q + a.r < b.q + b.r)
  }

  /** One cube component moved by `s` toward `y` stays within any bound both ends respect. */
  lemma ComponentInside(x: int, y: int, s: int, radius: int)
    requires -1 <= s <= 1 && (s > 0 ==> x < y) && (s < 0 ==> x > y)
    requires Abs(x) <= radius && Abs(y) <= radius
    ensures Abs(x + s) <= radius
  {
  }

  /** One cube component moved by `s` toward `y` closes the gap by `|s|`. */
  lemma ComponentCloser(x: int, y: int, s: int)
    requires -1 <= s <= 1 && (s > 0 ==> x < y) && (s < 0 ==> x > y)
    ensures Abs(x + s - y) + Abs(s) == Abs(x - y)
  {
  }

  lemma StepStaysInside(a: Hex, b: Hex, s: Hex, radius: int)
    requires InHexagon(a, radius) && InHexagon(b, radius) && HeadsToward(a, b, s)
    ensures InHexagon(a.Plus(s), radius)
  {
    ComponentInside(a.q, b.q, s.q, radius);
    ComponentInside(a.r, b.r, s.r, radius);
    ComponentInside(a.q + a.r, b.q + b.r, s.q + s.r, radius);
  }

  lemma StepCloser(a: Hex, b: Hex, s: Hex)
    requires HeadsToward(a, b, s) && Abs(s.q) + Abs(s.r) + Abs(-s.q - s.r) == 2
    ensures Distance(a.Plus(s), b) + 1 == Distance(a, b)
  {
    var n := a.Plus(s);
    ComponentCloser(a.q, b.q, s.q);
    ComponentCloser(a.r, b.r, s.r);
    ComponentCloser(-a.q - a.r, -b.q - b.r, -s.q - s.r);
    assert n.q - b.q == a.q + s.q - b.q && n.r - b.r == a.r + s.r - b.r;
    assert (-n.q - n.r) - (-b.q - b.r) == (-a.q - a.r) + (-s.q - s.r) - (-b.q - b.r);
    var gapA := Abs(a.q - b.q) + Abs((-a.q - a.r) - (-b.q - b.r)) + Abs(a.r - b.r);
    var gapN := Abs(n.q - b.q) + Abs((-n.q - n.r) - (-b.q - b.r)) + Abs(n.r - b.r);
    assert gapN + 2 == gapA;
    assert Distance(n, b) == gapN / 2 && Distance(a, b) == gapA / 2;
  }

  lemma StepWitness(a: Hex, b: Hex, radius: int, d: nat)
    requires d < 6 && InHexagon(a, radius) && InHexagon(b, radius) && HeadsToward(a, b, Direction(d))
    ensures InHexagon(a.Neighbor(d), radius) && Distance(a.Neighbor(d), b) + 1 == Distance(a, b)
  {
    DirectionGap(d);
    StepStaysInside(a, b, Direction(d), radius);
    StepCloser(a, b, Direction(d));
  }

  class HexGrid {
    var radius: int
    /** All coordinates, in generation order (`_coords`). */
    var coords: seq<Hex>
    /** The same coordinates as a set, for membership tests (`_validCoords`). */
    var validCoords: set<Hex>

    /** The grid holds exactly the hexagon, in increasing (q, r) order. */
    ghost predicate Valid()
      reads this
    {
      && (forall c :: c in coords <==> InHexagon(c, radius))
      && (forall c :: c in validCoords <==> c in coords)
      && StrictlySorted(coords)
    }

    constructor (radius: int)
      ensures Valid() && this.radius == radius
      ensures radius >= 0 ==> |coords| == 3 * radius * (radius + 1) + 1
    {
      this.radius := radius;
      coords := [];
      validCoords := {};
      new;
      GenerateHexagonalGrid();
    }

    /**
     * Clears both containers and enumerates the hexagon column by column,
     * each column from its first to its last row.
     */
    method GenerateHexagonalGrid()
      modifies this`coords, this`validCoords
      ensures Valid()
      ensures |coords| == if radius >= 0 then 3 * radius * (radius + 1) + 1 else 0
      ensures NoDuplicates(coords)
    {
      coords := [];
      validCoords := {};
      var q := -radius;
      while q <= radius
        invariant q == -radius || -radius <= q <= radius + 1
        invariant forall c :: c in coords <==> InHexagon(c, radius) && c.q < q
        invariant forall c :: c in validCoords <==> c in coords
        invariant StrictlySorted(coords)
        invariant |coords| == CellsBefore(q, radius)
        decreases radius - q
      {
        AppendColumn(q);
        q := q + 1;
      }
      if radius >= 0 {
        GridSize(radius);
      }
      SortedHasNoDuplicates(coords);
    }

    /** Appends column `q` of the hexagon, from its first to its last row. */
    method AppendColumn(q: int)
      requires -radius <= q <= radius
      requires forall c :: c in coords <==> InHexagon(c, radius) && c.q < q
      requires forall c :: c in validCoords <==> c in coords
      requires StrictlySorted(coords)
      requires |coords| == CellsBefore(q, radius)
      modifies this`coords, this`validCoords
      ensures forall c :: c in coords <==> InHexagon(c, radius) && c.q <= q
      ensures forall c :: c in validCoords <==> c in coords
      ensures StrictlySorted(coords)
      ensures |coords| == CellsBefore(q + 1, radius)
    {
      var r1 := RowStart(q, radius);
      var r2 := RowEnd(q, radius);
      var r := r1;
      while r <= r2
        invariant r1 <= r <= r2 + 1
        invariant forall c :: c in coords <==> InHexagon(c, radius) && (c.q < q || (c.q == q && c.r < r))
        invariant forall c :: c in validCoords <==> c in coords
        invariant StrictlySorted(coords)
        invariant |coords| == CellsBefore(q, radius) + (r - r1)
        decreases r2 - r
      {
        var coord := Hex(q, r);
        ColumnMembership(coord, radius);
        coords := coords + [coord];
        validCoords := validCoords + {coord};
        r := r + 1;
      }
      forall c: Hex | c.q == q ensures InHexagon(c, radius) ==> c.r <= r2 {
        ColumnMembership(c, radius);
      }
    }

    /** Membership in the grid (`IsValid`). */
    predicate IsValid(c: Hex)
      reads this
      ensures Valid() ==> (IsValid(c) <==> c in coords)
      ensures Valid() ==> (IsValid(c) <==> Distance(c, Origin) <= radius)
    {
      InHexagonIffNearOrigin(c, radius);
      c in validCoords
    }

    /** The valid neighbours of `c`, probing the six directions in order. */
    method GetNeighbors(c: Hex) returns (neighbors: seq<Hex>)
      ensures neighbors == ValidNeighbors(validCoords, c)
      ensures |neighbors| <= 6
      ensures forall n :: n in neighbors <==> n in validCoords && Distance(c, n) == 1
    {
      neighbors := [];
      var i := 0;
      while i < 6
        invariant 0 <= i <= 6
        invariant neighbors + NeighborsFrom(validCoords, c, i) == ValidNeighbors(validCoords, c)
      {
        var neighbor := c.Neighbor(i);
        if neighbor in validCoords {
          neighbors := neighbors + [neighbor];
        }
        i := i + 1;
      }
      forall n ensures n in neighbors <==> n in validCoords && Distance(c, n) == 1 {
        ValidNeighborsAreAdjacent(validCoords, c, n);
      }
    }
  }
}
