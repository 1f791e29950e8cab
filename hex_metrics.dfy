/** Directions around a hexagon, the optional reference used for null, and C# integer division. */
module HexMetrics {

  /** A reference that may be null: a neighbour slot, a chunk back-reference, a looked-up cell. */
  datatype Option<T> = None | Some(value: T)

  /** The six edge directions, clockwise from north-east: NE, E, SE, SW, W, NW. */
  type HexDirection = d: int | 0 <= d < 6

  const NE: HexDirection := 0
  const E: HexDirection := 1
  const SE: HexDirection := 2
  const SW: HexDirection := 3
  const W: HexDirection := 4
  const NW: HexDirection := 5

  /** The direction across the hexagon; applying it twice gives the direction back. */
  function Opposite(d: HexDirection): (r: HexDirection)
    ensures r != d
    ensures (r + 3) % 6 == d
  {
    (d + 3) % 6
  }

  /** C#'s `/` on int, which truncates toward zero (Dafny's `/` is Euclidean). */
  function CsDiv(a: int, b: int): int
    requires b > 0
  {
    if a >= 0 then a / b else -((-a) / b)
  }

  function Abs(x: int): nat
  {
    if x >= 0 then x else -x
  }
}
