/** Axial hex coordinates: the (X, Z) pair of HexCoordinates, with Y = -X - Z derived. */
module Coordinates {
  import opened HexMetrics

  datatype HexCoordinates = HexCoordinates(X: int, Z: int)
  {
    function Y(): int
    {
      -X - Z
    }
  }

  /**
   * Offset (column x, row z) to axial form: every two rows shift the column
   * origin one step to the west, so X = x - z/2 with C# division.
   */
  function FromOffsetCoordinates(x: int, z: int): (c: HexCoordinates)
    ensures c.Z == z
    ensures c.X + CsDiv(z, 2) == x
  {
    HexCoordinates(x - CsDiv(z, 2), z)
  }

  /** The axial step (dX, dZ) that crosses edge `d`. */
  function DeltaX(d: HexDirection): int
  {
    if d == E || d == SE then 1 else if d == W || d == NW then -1 else 0
  }

  function DeltaZ(d: HexDirection): int
  {
    if d == NE || d == NW then 1 else if d == SE || d == SW then -1 else 0
  }

  /** The coordinates of the cell across edge `d`. */
  function Step(c: HexCoordinates, d: HexDirection): HexCoordinates
  {
    HexCoordinates(c.X + DeltaX(d), c.Z + DeltaZ(d))
  }

  /** The cell across an edge is one step away, and only the cells across an edge are. */
  lemma StepDistance(c: HexCoordinates, n: HexCoordinates)
    ensures HexDistance(c, n) == 1 <==> exists d: HexDirection :: Step(c, d) == n
  {
    if HexDistance(c, n) == 1 {
      var dx := n.X - c.X;
      var dz := n.Z - c.Z;
      var d: HexDirection :=
        if dx == 1 && dz == 0 then E
        else if dx == 1 && dz == -1 then SE
        else if dx == 0 && dz == -1 then SW
        else if dx == -1 && dz == 0 then W
        else if dx == -1 && dz == 1 then NW
        else NE;
      assert Step(c, d) == n;
    }
  }

  /** Number of edges crossed on a shortest path between two cells. */
  function HexDistance(a: HexCoordinates, b: HexCoordinates): (r: nat)
    ensures r == 0 <==> a == b
  {
    (Abs(a.X - b.X) + Abs(a.Y() - b.Y()) + Abs(a.Z - b.Z)) / 2
  }

  /** Stepping across an edge and back across the opposite edge returns to the start. */
  lemma StepOpposite(c: HexCoordinates, d: HexDirection)
    ensures Step(Step(c, d), Opposite(d)) == c
  {
  }

  /** The six neighbouring coordinates are pairwise distinct. */
  lemma StepInjective(c: HexCoordinates, d1: HexDirection, d2: HexDirection)
    requires Step(c, d1) == Step(c, d2)
    ensures d1 == d2
  {
  }
}
