/**
 * The arithmetic of HexGrid: where a cell sits in the row-major cell array,
 * which earlier cells CreateCell wires it to, and which chunk slot it takes.
 */
module GridLayout {
  import opened HexMetrics
  import opened Coordinates

  // ---------------------------------------------------------------------------
  // Multiplication facts the index arithmetic rests on

  /** A column below the row width and a row below the height give an index below width times height. */
  lemma RowMajorBound(x: int, z: int, w: nat, h: nat)
    requires 0 <= x < w && 0 <= z < h
    ensures 0 <= x + z * w < w * h
  {
    assert (z + 1) * w <= h * w by {
      MulLeft(z + 1, h, w);
    }
  }

  lemma MulLeft(a: int, b: int, n: nat)
    requires a <= b
    ensures a * n <= b * n
  {
  }

  /** Row-major positions with columns below the width are equal only when row and column are. */
  lemma RowMajorInjective(x1: int, z1: int, x2: int, z2: int, w: nat)
    requires 0 <= x1 < w && 0 <= x2 < w
    requires x1 + z1 * w == x2 + z2 * w
    ensures x1 == x2 && z1 == z2
  {
    if z1 < z2 {
      MulLeft(z1 + 1, z2, w);
      assert false;
    } else if z2 < z1 {
      MulLeft(z2 + 1, z1, w);
      assert false;
    }
  }

  /**
   * The index at which row z of a grid w cells wide starts, z * w, counted row
   * by row (RowStartProduct); the lemmas below see a row's start, not a product.
   */
  function RowStart(z: nat, w: nat): nat
  {
    if z == 0 then 0 else RowStart(z - 1, w) + w
  }

  lemma {:induction false} RowStartProduct(z: nat, w: nat)
    ensures RowStart(z, w) == z * w
  {
    if z > 0 {
      RowStartProduct(z - 1, w);
      assert (z - 1) * w + w == z * w;
    }
  }

  lemma RowStartBound(x: int, z: nat, w: nat, h: nat)
    requires 0 <= x < w && z < h
    ensures 0 <= x + RowStart(z, w) < w * h
  {
    RowStartProduct(z, w);
    RowMajorBound(x, z, w, h);
  }

  lemma RowStartInjective(x1: int, z1: nat, x2: int, z2: nat, w: nat)
    requires 0 <= x1 < w && 0 <= x2 < w
    requires x1 + RowStart(z1, w) == x2 + RowStart(z2, w)
    ensures x1 == x2 && z1 == z2
  {
    RowStartProduct(z1, w);
    RowStartProduct(z2, w);
    RowMajorInjective(x1, z1, x2, z2, w);
  }

  // ---------------------------------------------------------------------------
  // GetCell(HexCoordinates)

  /**
   * GetCell(HexCoordinates): no cell when the row Z lies outside [0, countZ), or
   * when the column X + Z/2 lies outside [0, countX); else the row-major index.
   * Z is known to be non-negative at the division, so C# and Dafny division agree.
   */
  function GetCellIndex(countX: nat, countZ: nat, co: HexCoordinates): (r: Option<nat>)
    ensures r.Some? <==> 0 <= co.Z < countZ && 0 <= co.X + co.Z / 2 < countX
    ensures r.Some? ==> r.value < countX * countZ
  {
    var z := co.Z;
    if z < 0 || z >= countZ then
      None
    else
      var x := co.X + CsDiv(z, 2);
      if x < 0 || x >= countX then
        None
      else
        RowStartBound(x, z, countX, countZ);
        Some(x + RowStart(z, countX))
  }

  /** The cell created at offset (x, z) is found at index x + RowStart(z, countX): creation and lookup agree. */
  lemma OffsetIndex(countX: nat, countZ: nat, x: int, z: nat)
    requires 0 <= x < countX && z < countZ
    ensures GetCellIndex(countX, countZ, FromOffsetCoordinates(x, z)) == Some(x + RowStart(z, countX))
  {
  }

  /** Two coordinates that find the same cell are the same coordinates. */
  lemma {:induction false} IndexInjective(countX: nat, countZ: nat, a: HexCoordinates, b: HexCoordinates)
    requires GetCellIndex(countX, countZ, a).Some?
    requires GetCellIndex(countX, countZ, a) == GetCellIndex(countX, countZ, b)
    ensures a == b
  {
    RowStartInjective(a.X + a.Z / 2, a.Z, b.X + b.Z / 2, b.Z, countX);
  }

  /** Every index of the array is found by the coordinates of its offset position: lookup and creation agree the other way round. */
  lemma {:induction false} IndexOffset(countX: nat, countZ: nat, i: nat)
    requires i < countX * countZ
    ensures countX > 0
    ensures GetCellIndex(countX, countZ, FromOffsetCoordinates(i % countX, i / countX)) == Some(i)
  {
    var z := i / countX;
    var x := i % countX;
    RowStartProduct(z, countX);
    assert i == x + RowStart(z, countX);
    DivBelow(i, countX, countZ);
    OffsetIndex(countX, countZ, x, z);
  }

  // ---------------------------------------------------------------------------
  // The neighbour wiring of CreateCell

  /** The W link of the cell at offset (x, z) leads to the cell before it in its row, when there is one. */
  lemma {:induction false} WestNeighbor(countX: nat, countZ: nat, x: int, z: nat)
    requires 0 <= x < countX && z < countZ
    ensures GetCellIndex(countX, countZ, Step(FromOffsetCoordinates(x, z), W)) ==
      (if x > 0 then Some(x + RowStart(z, countX) - 1) else None)
  {
  }

  /**
   * The SE link of the cell at offset (x, z): none on row 0; on an even row the cell
   * straight below (i - countX); on an odd row the one below and to the right
   * (i - countX + 1), missing in the last column.
   */
  lemma {:induction false} SouthEastNeighbor(countX: nat, countZ: nat, x: int, z: nat)
    requires 0 <= x < countX && z < countZ
    ensures GetCellIndex(countX, countZ, Step(FromOffsetCoordinates(x, z), SE)) ==
      (if z == 0 then None
       else if z % 2 == 0 then Some(x + RowStart(z, countX) - countX)
       else if x < countX - 1 then Some(x + RowStart(z, countX) - countX + 1)
       else None)
  {
    if z > 0 {
      var co := Step(FromOffsetCoordinates(x, z), SE);
      var column := if z % 2 == 0 then x else x + 1;
      assert co == HexCoordinates(column - CsDiv(z - 1, 2), z - 1) by {
        HalfBelow(z);
      }
    }
  }

  /**
   * The SW link of the cell at offset (x, z): none on row 0; on an even row the cell
   * below and to the left (i - countX - 1), missing in the first column; on an odd
   * row the cell straight below (i - countX).
   */
  lemma {:induction false} SouthWestNeighbor(countX: nat, countZ: nat, x: int, z: nat)
    requires 0 <= x < countX && z < countZ
    ensures GetCellIndex(countX, countZ, Step(FromOffsetCoordinates(x, z), SW)) ==
      (if z == 0 then None
       else if z % 2 == 0 then (if x > 0 then Some(x + RowStart(z, countX) - countX - 1) else None)
       else Some(x + RowStart(z, countX) - countX))
  {
    if z > 0 {
      var co := Step(FromOffsetCoordinates(x, z), SW);
      var column := if z % 2 == 0 then x - 1 else x;
      assert co == HexCoordinates(column - CsDiv(z - 1, 2), z - 1) by {
        HalfBelow(z);
      }
    }
  }

  /** Halving in C# of a positive row and of the row below it: equal on an odd row, one apart on an even row. */
  lemma HalfBelow(z: int)
    requires z > 0
    ensures CsDiv(z, 2) == CsDiv(z - 1, 2) + (if z % 2 == 0 then 1 else 0)
  {
  }

  /** The E, NE and NW neighbours of a cell come later in the array, or are missing. */
  lemma {:induction false} ForwardNeighbors(countX: nat, countZ: nat, x: int, z: nat, d: HexDirection)
    requires 0 <= x < countX && z < countZ && (d == E || d == NE || d == NW)
    ensures var t := GetCellIndex(countX, countZ, Step(FromOffsetCoordinates(x, z), d));
      t.Some? ==> t.value > x + RowStart(z, countX)
  {
    assert RowStart(z + 1, countX) == RowStart(z, countX) + countX;
  }

  // ---------------------------------------------------------------------------
  // AddCellToChunk

  /** The tile of `size` cells that position `a` falls in, a / size, counted tile by tile (TileQuotient). */
  function TileOf(a: nat, size: nat): nat
    requires size > 0
  {
    if a < size then 0 else TileOf(a - size, size) + 1
  }

  lemma {:induction false} TileQuotient(a: nat, size: nat)
    requires size > 0
    ensures TileOf(a, size) == a / size
  {
    if a >= size {
      TileQuotient(a - size, size);
      var q := (a - size) / size;
      var r := (a - size) % size;
      assert a == (q + 1) * size + r by {
        assert a - size == q * size + r;
        assert (q + 1) * size == q * size + size;
      }
      DivUnique(a, size, q + 1, r);
    }
  }

  /** Division by a positive number has one quotient. */
  lemma DivUnique(a: int, size: nat, q: int, r: int)
    requires size > 0 && 0 <= r < size && a == q * size + r
    ensures a / size == q
  {
    var q' := a / size;
    assert a == q' * size + a % size;
    assert (q + 1) * size == q * size + size;
    assert (q' + 1) * size == q' * size + size;
    if q' > q {
      MulLeft(q + 1, q', size);
      assert false;
    } else if q' < q {
      MulLeft(q' + 1, q, size);
      assert false;
    }
  }

  /** The chunk of the cell at offset (x, z): the chunkSizeX by chunkSizeZ tile it falls in, row-major. */
  function ChunkIndex(chunkCountX: nat, chunkSizeX: nat, chunkSizeZ: nat, x: nat, z: nat): nat
    requires chunkSizeX > 0 && chunkSizeZ > 0
  {
    TileOf(x, chunkSizeX) + RowStart(TileOf(z, chunkSizeZ), chunkCountX)
  }

  /** AddCellToChunk's arithmetic: chunkX + chunkZ * chunkCountX with chunkX = x / chunkSizeX and chunkZ = z / chunkSizeZ. */
  lemma ChunkIndexQuotients(chunkCountX: nat, chunkSizeX: nat, chunkSizeZ: nat, x: nat, z: nat)
    requires chunkSizeX > 0 && chunkSizeZ > 0
    ensures ChunkIndex(chunkCountX, chunkSizeX, chunkSizeZ, x, z) == x / chunkSizeX + (z / chunkSizeZ) * chunkCountX
  {
    TileQuotient(x, chunkSizeX);
    TileQuotient(z, chunkSizeZ);
    RowStartProduct(z / chunkSizeZ, chunkCountX);
  }

  /** The slot of that cell inside its chunk: its position in the tile, row-major. */
  function LocalIndex(chunkSizeX: nat, chunkSizeZ: nat, x: nat, z: nat): int
    requires chunkSizeX > 0 && chunkSizeZ > 0
  {
    var chunkX := x / chunkSizeX;
    var chunkZ := z / chunkSizeZ;
    (x - chunkX * chunkSizeX) + (z - chunkZ * chunkSizeZ) * chunkSizeX
  }

  /**
   * AddCellToChunk: a cell of a grid of chunkCountX by chunkCountZ chunks picks a
   * chunk within the chunk array and a slot within that chunk.
   */
  lemma {:induction false} ChunkTiling(chunkCountX: nat, chunkCountZ: nat, chunkSizeX: nat, chunkSizeZ: nat, x: nat, z: nat)
    requires chunkSizeX > 0 && chunkSizeZ > 0
    requires x < chunkCountX * chunkSizeX && z < chunkCountZ * chunkSizeZ
    ensures ChunkIndex(chunkCountX, chunkSizeX, chunkSizeZ, x, z) < chunkCountX * chunkCountZ
    ensures 0 <= LocalIndex(chunkSizeX, chunkSizeZ, x, z) < chunkSizeX * chunkSizeZ
  {
    ChunkIndexQuotients(chunkCountX, chunkSizeX, chunkSizeZ, x, z);
    var chunkX := x / chunkSizeX;
    var chunkZ := z / chunkSizeZ;
    DivBelow(x, chunkSizeX, chunkCountX);
    DivBelow(z, chunkSizeZ, chunkCountZ);
    assert chunkX + chunkZ * chunkCountX < chunkCountX * chunkCountZ by {
      RowMajorBound(chunkX, chunkZ, chunkCountX, chunkCountZ);
    }
    assert x - chunkX * chunkSizeX == x % chunkSizeX;
    assert z - chunkZ * chunkSizeZ == z % chunkSizeZ;
    RowMajorBound(x % chunkSizeX, z % chunkSizeZ, chunkSizeX, chunkSizeZ);
  }

  /** Two cells never share a chunk slot. */
  lemma {:induction false} ChunkSlotsDistinct(chunkCountX: nat, chunkSizeX: nat, chunkSizeZ: nat,
                                              x1: nat, z1: nat, x2: nat, z2: nat)
    requires chunkSizeX > 0 && chunkSizeZ > 0 && x1 < chunkCountX * chunkSizeX && x2 < chunkCountX * chunkSizeX
    requires ChunkIndex(chunkCountX, chunkSizeX, chunkSizeZ, x1, z1) == ChunkIndex(chunkCountX, chunkSizeX, chunkSizeZ, x2, z2)
    requires LocalIndex(chunkSizeX, chunkSizeZ, x1, z1) == LocalIndex(chunkSizeX, chunkSizeZ, x2, z2)
    ensures x1 == x2 && z1 == z2
  {
    ChunkIndexQuotients(chunkCountX, chunkSizeX, chunkSizeZ, x1, z1);
    ChunkIndexQuotients(chunkCountX, chunkSizeX, chunkSizeZ, x2, z2);
    QuotientsDistinct(chunkCountX, chunkSizeX, chunkSizeZ, x1, z1, x2, z2);
  }

  lemma QuotientsDistinct(chunkCountX: nat, chunkSizeX: nat, chunkSizeZ: nat, x1: nat, z1: nat, x2: nat, z2: nat)
    requires chunkSizeX > 0 && chunkSizeZ > 0 && x1 < chunkCountX * chunkSizeX && x2 < chunkCountX * chunkSizeX
    requires x1 / chunkSizeX + (z1 / chunkSizeZ) * chunkCountX == x2 / chunkSizeX + (z2 / chunkSizeZ) * chunkCountX
    requires LocalIndex(chunkSizeX, chunkSizeZ, x1, z1) == LocalIndex(chunkSizeX, chunkSizeZ, x2, z2)
    ensures x1 == x2 && z1 == z2
  {
    var qx1, rx1 := Split(x1, chunkSizeX);
    var qx2, rx2 := Split(x2, chunkSizeX);
    var qz1, rz1 := Split(z1, chunkSizeZ);
    var qz2, rz2 := Split(z2, chunkSizeZ);
    DivBelow(x1, chunkSizeX, chunkCountX);
    DivBelow(x2, chunkSizeX, chunkCountX);
    RowMajorInjective(qx1, qz1, qx2, qz2, chunkCountX);
    assert rx1 + rz1 * chunkSizeX == rx2 + rz2 * chunkSizeX;
    RowMajorInjective(rx1, rz1, rx2, rz2, chunkSizeX);
  }

  /** Quotient and remainder of `a` by `size`, named. */
  lemma Split(a: nat, size: nat) returns (q: nat, r: nat)
    requires size > 0
    ensures q == a / size && r == a % size && r < size && a == q * size + r && a - q * size == r
  {
    q, r := a / size, a % size;
  }

  lemma DivBelow(a: nat, size: nat, count: nat)
    requires size > 0 && a < count * size
    ensures a / size < count
  {
    if a / size >= count {
      MulLeft(count, a / size, size);
      assert false;
    }
  }
}
