/**
 * Axial hex coordinates (q, r) for a pointy-top hexagonal grid, their cube
 * form (x = q, y = -q - r, z = r), the hex distance and the six neighbour
 * directions. Everything here is a pure value computation.
 */
module HexCoord {

  /** An axial coordinate. `q` is the diagonal column, `r` the row. */
  datatype Hex = Hex(q: int, r: int) {

    function CubeX(): int { q }

    /** The dependent cube component (see `CubeComponentsSumToZero`). */
    function CubeY(): int
    {
      -q - r
    }

    function CubeZ(): int { r }

    /** Component-wise sum (`operator+`). */
    function Plus(other: Hex): Hex
    {
      Hex(q + other.q, r + other.r)
    }

    /** Component-wise difference (`operator-`). */
    function Minus(other: Hex): Hex
    {
      Hex(q - other.q, r - other.r)
    }

    /** Lexicographic order on (q, r) (`operator<`), used by ordered containers. */
    predicate Less(other: Hex)
    {
      if q != other.q then q < other.q else r < other.r
    }

    /**
     * The neighbour in direction `direction`, taken modulo 6. The source
     * indexes the direction table with `direction % 6`, which is only in
     * bounds for a non-negative direction, hence `nat`.
     */
    function Neighbor(direction: nat): (n: Hex)
      ensures direction < 6 ==> n == Plus(Direction(direction))
    {
      Plus(Direction(direction % 6))
    }
  }

  const Origin: Hex := Hex(0, 0)

  /** The six unit steps, starting East and going counter-clockwise. */
  function Direction(i: nat): Hex
    requires i < 6
  {
    if i == 0 then Hex(1, 0)
    else if i == 1 then Hex(1, -1)
    else if i == 2 then Hex(0, -1)
    else if i == 3 then Hex(-1, 0)
    else if i == 4 then Hex(-1, 1)
    else Hex(0, 1)
  }

  function Abs(x: int): nat { if x < 0 then -x else x }

  function Max3(a: int, b: int, c: int): int
  {
    if a >= b && a >= c then a else if b >= c then b else c
  }

  /**
   * Hex distance: the Manhattan distance of the cube coordinates, halved.
   * The cube differences are written out on the fields (x = q, y = -q - r,
   * z = r); `DistanceInCubeTerms` restates it with the cube accessors.
   */
  function Distance(a: Hex, b: Hex): nat
  {
    (Abs(a.q - b.q) + Abs((-a.q - a.r) - (-b.q - b.r)) + Abs(a.r - b.r)) / 2
  }

  /** `a += b`: the two fields are rewritten one after the other. */
  method AddAssign(a: Hex, b: Hex) returns (result: Hex)
    ensures result == a.Plus(b)
    ensures result.Minus(b) == a
  {
    result := a;
    result := result.(q := result.q + b.q);
    result := result.(r := result.r + b.r);
  }

  /** `a -= b`: the two fields are rewritten one after the other. */
  method SubAssign(a: Hex, b: Hex) returns (result: Hex)
    ensures result == a.Minus(b)
    ensures result.Plus(b) == a
  {
    result := a;
    result := result.(q := result.q - b.q);
    result := result.(r := result.r - b.r);
  }

  lemma DistanceInCubeTerms(a: Hex, b: Hex)
    ensures Distance(a, b) == (Abs(a.CubeX() - b.CubeX()) + Abs(a.CubeY() - b.CubeY()) + Abs(a.CubeZ() - b.CubeZ())) / 2
  {
    assert a.CubeX() - b.CubeX() == a.q - b.q;
    assert a.CubeY() - b.CubeY() == (-a.q - a.r) - (-b.q - b.r);
    assert a.CubeZ() - b.CubeZ() == a.r - b.r;
  }

  /** The distance is zero exactly between equal coordinates. */
  lemma DistanceZeroIffEqual(a: Hex, b: Hex)
    ensures Distance(a, b) == 0 <==> a == b
  {
  }

  /** The distance is the largest of the three cube-component differences. */
  lemma DistanceIsMaxComponent(a: Hex, b: Hex)
    ensures Distance(a, b) == Max3(Abs(a.q - b.q), Abs(a.r - b.r), Abs((-a.q - a.r) - (-b.q - b.r)))
  {
    CubeSumIsTwiceMax(a.q - b.q, a.r - b.r, (-a.q - a.r) - (-b.q - b.r));
  }

  /** Three integers summing to zero: their absolute values add up to twice the largest. */
  lemma CubeSumIsTwiceMax(x: int, y: int, z: int)
    requires x + y + z == 0
    ensures Abs(x) + Abs(y) + Abs(z) == 2 * Max3(Abs(x), Abs(y), Abs(z))
  {
  }

  /** The six unit steps each change exactly two cube components, by one. */
  lemma DirectionGap(d: nat)
    requires d < 6
    ensures Abs(Direction(d).q) + Abs(Direction(d).r) + Abs(-Direction(d).q - Direction(d).r) == 2
    ensures -1 <= Direction(d).q <= 1 && -1 <= Direction(d).r <= 1 && -1 <= Direction(d).q + Direction(d).r <= 1
  {
  }

  /** Every neighbour is one step away. */
  lemma NeighborAtDistanceOne(h: Hex, d: nat)
    ensures Distance(h, h.Neighbor(d)) == 1
  {
  }

  lemma DistanceSymmetric(a: Hex, b: Hex)
    ensures Distance(a, b) == Distance(b, a)
  {
  }

  /** Translating both coordinates by the same offset keeps their distance. */
  lemma DistanceTranslate(a: Hex, b: Hex, c: Hex)
    ensures Distance(a.Plus(c), b.Plus(c)) == Distance(a, b)
  {
  }

  /** The direction table repeats with period 6. */
  lemma NeighborPeriodic(h: Hex, d: nat)
    ensures h.Neighbor(d + 6) == h.Neighbor(d)
  {
    assert d + 6 == 6 * (d / 6 + 1) + d % 6;
  }

  /** The index of the direction opposite to direction `d < 6`. */
  function Opposite(d: nat): nat
    requires d < 6
  {
    if d == 0 then 3 else if d == 1 then 4 else if d == 2 then 5
    else if d == 3 then 0 else if d == 4 then 1 else 2
  }

  /** The opposite of direction `d` is three steps further round the table. */
  lemma OppositeIndex(d: nat)
    ensures 0 <= d % 6 < 6
    ensures (d + 3) % 6 == if d % 6 < 3 then d % 6 + 3 else d % 6 - 3
  {
    var k, m := d / 6, d % 6;
    if m < 3 {
      ModOfDecomposition(d + 3, k, m + 3);
    } else {
      ModOfDecomposition(d + 3, k + 1, m - 3);
    }
  }

  /** The remainder modulo 6 of `6 * k + m` is `m` when `m` is a digit in 0..5. */
  lemma ModOfDecomposition(x: int, k: int, m: int)
    requires x == 6 * k + m && 0 <= m < 6
    ensures x % 6 == m
  {
  }

  /** The opposite direction is three places further round the table of six. */
  lemma OppositeIsShift(k: nat)
    requires k < 6
    ensures Opposite(k) == if k < 3 then k + 3 else k - 3
  {
  }

  /** A direction and its opposite cancel out. */
  lemma OppositeCancels(d: nat)
    requires d < 6
    ensures Opposite(d) < 6 && Direction(d).Plus(Direction(Opposite(d))) == Origin
  {
  }

  /** Opposite directions cancel, so stepping `d` then `d + 3` comes back. */
  lemma OppositeDirectionsCancel(h: Hex, d: nat)
    ensures h.Neighbor(d).Neighbor(d + 3) == h
  {
    var k := d % 6;
    OppositeIndex(d);
    OppositeIsShift(k);
    OppositeCancels(k);
    var o := Opposite(k);
    assert h.Neighbor(d) == h.Plus(Direction(k));
    assert h.Neighbor(d).Neighbor(d + 3) == h.Plus(Direction(k)).Plus(Direction(o));
  }

  lemma DirectionsDistinct()
    ensures forall i, j :: 0 <= i < j < 6 ==> Direction(i) != Direction(j)
  {
  }

  /**
   * Two coordinates are at distance one exactly when one is a neighbour of
   * the other, and then the direction index is unique.
   */
  lemma AdjacentIffNeighbor(a: Hex, b: Hex)
    ensures Distance(a, b) == 1 <==> exists d :: 0 <= d < 6 && a.Neighbor(d) == b
    ensures forall d, e :: 0 <= d < 6 && 0 <= e < 6 && a.Neighbor(d) == b && a.Neighbor(e) == b ==> d == e
  {
    if Distance(a, b) == 1 {
      var dq, dr := b.q - a.q, b.r - a.r;
      var d :=
        if dq == 1 && dr == 0 then 0
        else if dq == 1 && dr == -1 then 1
        else if dq == 0 && dr == -1 then 2
        else if dq == -1 && dr == 0 then 3
        else if dq == -1 && dr == 1 then 4
        else 5;
      assert a.Neighbor(d) == b;
    }
  }

  /** Adjacency is symmetric: if `b` is a neighbour of `a`, `a` is one of `b`. */
  lemma NeighborSymmetric(a: Hex, d: nat)
    requires d < 6
    ensures a.Neighbor(d).Neighbor(Opposite(d)) == a
  {
    OppositeCancels(d);
  }

  /** The three cube components always sum to zero. */
  lemma CubeComponentsSumToZero(h: Hex)
    ensures h.CubeX() + h.CubeY() + h.CubeZ() == 0
  {
  }

  lemma PlusMinusInverse(a: Hex, b: Hex)
    ensures a.Plus(b).Minus(b) == a
    ensures a.Minus(b).Plus(b) == a
  {
  }

  /** `Less` is a strict total order whose incomparability is equality. */
  lemma LessIsStrictTotalOrder(a: Hex, b: Hex, c: Hex)
    ensures !a.Less(a)
    ensures a.Less(b) ==> !b.Less(a)
    ensures a.Less(b) && b.Less(c) ==> a.Less(c)
    ensures !a.Less(b) && !b.Less(a) <==> a == b
  {
  }
}
