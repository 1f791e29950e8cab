/**
 * HexGrid: builds the cells of a chunkCountX by chunkCountZ grid of chunks,
 * row by row, wires each new cell to the cells already created, gives it its
 * chunk, and finds cells by their coordinates.
 */
module Grid {
  import opened HexMetrics
  import opened Coordinates
  import opened CellState
  import opened CellEdits
  import opened HexCells
  import opened GridLayout

  // ---------------------------------------------------------------------------
  // The links of a grid under construction

  /** The link toward `d` of the cell at `co` once the first `n` cells exist: the adjacent cell, if it is already created. */
  function CreatedNeighbor(countX: nat, countZ: nat, co: HexCoordinates, d: HexDirection, n: nat): (r: Option<nat>)
    ensures r.Some? ==> r.value < n && GetCellIndex(countX, countZ, Step(co, d)) == r
    ensures n == countX * countZ ==> r == GetCellIndex(countX, countZ, Step(co, d))
  {
    var t := GetCellIndex(countX, countZ, Step(co, d));
    if t.Some? && t.value < n then t else None
  }

  /**
   * The link of cell `j` toward `e` while cell `i` is being wired and the edges in
   * `done` have been linked: old cells keep their links among themselves and gain
   * the link back to `i` across a done edge; cell `i` has the links across done edges.
   */
  function Expected(countX: nat, countZ: nat, co: HexCoordinates, j: nat, e: HexDirection, i: nat, done: set<HexDirection>): Option<nat>
  {
    var t := GetCellIndex(countX, countZ, Step(co, e));
    if j < i then
      if t.Some? && t.value < i then t
      else if t == Some(i) && Opposite(e) in done then t
      else None
    else if e in done && t.Some? && t.value < i then t
    else None
  }

  /** Each of the first `n` cells sits at the index GetCell finds for its coordinates. */
  ghost predicate Indexed(countX: nat, countZ: nat, cs: seq<Cell>, n: nat)
  {
    n <= |cs| && forall j {:trigger GetCellIndex(countX, countZ, cs[j].coordinates)} | 0 <= j < n ::
      GetCellIndex(countX, countZ, cs[j].coordinates) == Some(j)
  }

  /** The first `n` cells are linked to exactly the adjacent cells among them. */
  ghost predicate Wired(countX: nat, countZ: nat, cs: seq<Cell>, n: nat)
    requires Shaped(cs)
  {
    n <= |cs| &&
    forall j, e: HexDirection {:trigger CreatedNeighbor(countX, countZ, cs[j].coordinates, e, n)} | 0 <= j < n ::
      cs[j].neighbors[e] == CreatedNeighbor(countX, countZ, cs[j].coordinates, e, n)
  }

  /** Cell `i` is the last one, and the links are those Expected while the edges in `done` are being wired. */
  ghost predicate Wiring(countX: nat, countZ: nat, cs: seq<Cell>, i: nat, done: set<HexDirection>)
    requires Shaped(cs)
  {
    |cs| == i + 1 &&
    forall j, e: HexDirection {:trigger Expected(countX, countZ, cs[j].coordinates, j, e, i, done)} | 0 <= j <= i ::
      cs[j].neighbors[e] == Expected(countX, countZ, cs[j].coordinates, j, e, i, done)
  }

  /** The same cells in the same places with the same links. */
  ghost predicate SameGeometry(x: seq<Cell>, y: seq<Cell>)
  {
    |x| == |y| && forall a | 0 <= a < |x| :: x[a].neighbors == y[a].neighbors && x[a].coordinates == y[a].coordinates
  }

  lemma GeometryFrame(countX: nat, countZ: nat, x: seq<Cell>, y: seq<Cell>, i: nat, done: set<HexDirection>)
    requires Shaped(x) && Shaped(y) && SameGeometry(x, y)
    ensures Indexed(countX, countZ, x, i + 1) <==> Indexed(countX, countZ, y, i + 1)
    ensures Wiring(countX, countZ, x, i, done) <==> Wiring(countX, countZ, y, i, done)
  {
  }

  lemma LinksGeometry(x: seq<Cell>, y: seq<Cell>)
    requires SameLinks(x, y)
    ensures SameGeometry(x, y)
  {
  }

  /**
   * CreateCell part way: the last cell is the one at offset (x, z), linked across
   * the edges in `done`; every cell sits at its index; the links are as Expected.
   */
  ghost predicate WiringAt(countX: nat, countZ: nat, cs: seq<Cell>, x: nat, z: nat, done: set<HexDirection>)
  {
    Shaped(cs) && x < countX && z < countZ && |cs| == x + RowStart(z, countX) + 1 &&
    cs[|cs| - 1].coordinates == FromOffsetCoordinates(x, z) &&
    Indexed(countX, countZ, cs, |cs|) && Wiring(countX, countZ, cs, |cs| - 1, done) && done <= {W, SE, SW}
  }

  /** A new cell at offset (x, z), appended to a wired grid, starts with no links; no old cell links to it yet. */
  lemma {:induction false} WireStart(countX: nat, countZ: nat, cs: seq<Cell>, x: nat, z: nat)
    requires Consistent(cs) && x < countX && z < countZ && |cs| == x + RowStart(z, countX)
    requires Indexed(countX, countZ, cs, |cs|) && Wired(countX, countZ, cs, |cs|)
    ensures WiringAt(countX, countZ, cs + [FreshCell(FromOffsetCoordinates(x, z))], x, z, {})
  {
    var i := |cs|;
    var r := cs + [FreshCell(FromOffsetCoordinates(x, z))];
    AppendedKeeps(cs, FromOffsetCoordinates(x, z));
    OffsetIndex(countX, countZ, x, z);
    forall j, e: HexDirection | 0 <= j <= i
      ensures r[j].neighbors[e] == Expected(countX, countZ, r[j].coordinates, j, e, i, {})
    {
      if j < i {
        assert r[j] == cs[j];
        assert cs[j].neighbors[e] == CreatedNeighbor(countX, countZ, cs[j].coordinates, e, i);
      }
    }
    assert Indexed(countX, countZ, r, |r|);
    assert Wiring(countX, countZ, r, i, {});
  }

  /** Giving the new cell its colour changes no link. */
  lemma {:induction false} WireRecolored(countX: nat, countZ: nat, cs: seq<Cell>, x: nat, z: nat, color: Color)
    requires WiringAt(countX, countZ, cs, x, z, {})
    ensures WiringAt(countX, countZ, cs[|cs| - 1 := cs[|cs| - 1].(color := color)], x, z, {})
  {
    var i := |cs| - 1;
    var r := cs[i := cs[i].(color := color)];
    DecoratedKeeps(cs, i, cs[i].(color := color));
    LinksGeometry(r, cs);
    GeometryFrame(countX, countZ, r, cs, i, {});
  }

  /**
   * Linking the new cell across `d` (W, SE or SW) to the cell GetCell finds
   * there fills two empty slots, keeps every invariant, and marks `d` as done.
   */
  lemma {:induction false} WireStep(countX: nat, countZ: nat, cs: seq<Cell>, x: nat, z: nat,
                                    done: set<HexDirection>, d: HexDirection, b: nat)
    requires WiringAt(countX, countZ, cs, x, z, done)
    requires (d == W || d == SE || d == SW) && d !in done
    requires GetCellIndex(countX, countZ, Step(FromOffsetCoordinates(x, z), d)) == Some(b)
    ensures b < |cs| - 1
    ensures WiringAt(countX, countZ, Linking(cs, |cs| - 1, d, b), x, z, done + {d})
  {
    var i := |cs| - 1;
    WireSlots(countX, countZ, cs, i, x, z, done, d, b);
    WireLinked(countX, countZ, cs, i, done, d, b);
    var r := Linking(cs, i, d, b);
    LinkingSpec(cs, i, d, b);
    assert r[i].coordinates == cs[i].coordinates;
  }

  /** The two slots linked across `d` are still empty, and the cell GetCell finds across `d` is an earlier one. */
  lemma {:induction false} WireSlots(countX: nat, countZ: nat, cs: seq<Cell>, i: nat, x: nat, z: nat,
                                     done: set<HexDirection>, d: HexDirection, b: nat)
    requires Shaped(cs) && |cs| == i + 1 && Wiring(countX, countZ, cs, i, done) && Indexed(countX, countZ, cs, i + 1)
    requires x < countX && z < countZ && i == x + RowStart(z, countX) && cs[i].coordinates == FromOffsetCoordinates(x, z)
    requires (d == W || d == SE || d == SW) && d !in done
    requires GetCellIndex(countX, countZ, Step(FromOffsetCoordinates(x, z), d)) == Some(b)
    ensures b < i && cs[b].coordinates == Step(cs[i].coordinates, d)
    ensures cs[i].neighbors[d].None? && cs[b].neighbors[Opposite(d)].None?
  {
    WestNeighbor(countX, countZ, x, z);
    SouthEastNeighbor(countX, countZ, x, z);
    SouthWestNeighbor(countX, countZ, x, z);
    var co := cs[i].coordinates;
    IndexInjective(countX, countZ, Step(co, d), cs[b].coordinates);
    OppositeOpposite(d);
    StepOpposite(co, d);
    assert cs[i].neighbors[d] == Expected(countX, countZ, co, i, d, i, done);
    assert cs[b].neighbors[Opposite(d)] == Expected(countX, countZ, cs[b].coordinates, b, Opposite(d), i, done);
  }

  /** After the link the first i + 1 cells keep their indices and carry the links Expected with `d` done. */
  lemma {:induction false} WireLinked(countX: nat, countZ: nat, cs: seq<Cell>, i: nat,
                                      done: set<HexDirection>, d: HexDirection, b: nat)
    requires Shaped(cs) && |cs| == i + 1 && Wiring(countX, countZ, cs, i, done) && Indexed(countX, countZ, cs, i + 1)
    requires b < i && GetCellIndex(countX, countZ, Step(cs[i].coordinates, d)) == Some(b)
    ensures Indexed(countX, countZ, Linking(cs, i, d, b), i + 1)
    ensures Wiring(countX, countZ, Linking(cs, i, d, b), i, done + {d})
  {
    var co := cs[i].coordinates;
    LinkingSpec(cs, i, d, b);
    var r := Linking(cs, i, d, b);
    forall j, e: HexDirection | 0 <= j <= i
      ensures r[j].neighbors[e] == Expected(countX, countZ, r[j].coordinates, j, e, i, done + {d})
    {
      assert r[j].coordinates == cs[j].coordinates;
      if j == i && e == d {
      } else if j == b && e == Opposite(d) {
        IndexInjective(countX, countZ, Step(co, d), cs[b].coordinates);
        OppositeOpposite(d);
        StepOpposite(co, d);
      } else {
        assert r[j].neighbors[e] == cs[j].neighbors[e];
        assert cs[j].neighbors[e] == Expected(countX, countZ, cs[j].coordinates, j, e, i, done);
        ExpectedUnlinked(countX, countZ, cs[j].coordinates, co, j, e, i, b, d, done);
      }
    }
  }

  /** Linking `i` across `d` to `b` changes the expected link of no other slot. */
  lemma ExpectedUnlinked(countX: nat, countZ: nat, coJ: HexCoordinates, coI: HexCoordinates,
                         j: nat, e: HexDirection, i: nat, b: nat, d: HexDirection, done: set<HexDirection>)
    requires GetCellIndex(countX, countZ, coJ) == Some(j) && GetCellIndex(countX, countZ, coI) == Some(i)
    requires GetCellIndex(countX, countZ, Step(coI, d)) == Some(b) && j <= i
    requires !(j == i && e == d) && !(j == b && e == Opposite(d))
    ensures Expected(countX, countZ, coJ, j, e, i, done + {d}) == Expected(countX, countZ, coJ, j, e, i, done)
  {
    var t := GetCellIndex(countX, countZ, Step(coJ, e));
    if j < i && t == Some(i) && Opposite(e) == d {
      IndexInjective(countX, countZ, Step(coJ, e), coI);
      StepOpposite(coJ, e);
      OppositeOpposite(e);
      IndexInjective(countX, countZ, Step(coI, d), coJ);
      assert false;
    }
  }

  /**
   * Once the edges that CreateCell did not link lead outside the grid, the new
   * cell's links are complete: all cells are wired.
   */
  lemma {:induction false} WireDone(countX: nat, countZ: nat, cs: seq<Cell>, x: nat, z: nat, done: set<HexDirection>)
    requires WiringAt(countX, countZ, cs, x, z, done)
    requires forall d: HexDirection | (d == W || d == SE || d == SW) && d !in done ::
      GetCellIndex(countX, countZ, Step(FromOffsetCoordinates(x, z), d)).None?
    ensures Wired(countX, countZ, cs, |cs|)
  {
    var i := |cs| - 1;
    forall j, e: HexDirection | 0 <= j <= i
      ensures cs[j].neighbors[e] == CreatedNeighbor(countX, countZ, cs[j].coordinates, e, i + 1)
    {
      assert cs[j].neighbors[e] == Expected(countX, countZ, cs[j].coordinates, j, e, i, done);
      ExpectedDone(countX, countZ, cs[j].coordinates, j, e, i, x, z, done);
    }
  }

  /** Once every edge CreateCell links is done, the expected link of each slot is the created neighbour. */
  lemma ExpectedDone(countX: nat, countZ: nat, coJ: HexCoordinates, j: nat, e: HexDirection, i: nat, x: nat, z: nat, done: set<HexDirection>)
    requires x < countX && z < countZ && i == x + RowStart(z, countX) && j <= i
    requires GetCellIndex(countX, countZ, coJ) == Some(j)
    requires j == i ==> coJ == FromOffsetCoordinates(x, z)
    requires done <= {W, SE, SW}
    requires forall d: HexDirection | (d == W || d == SE || d == SW) && d !in done ::
      GetCellIndex(countX, countZ, Step(FromOffsetCoordinates(x, z), d)).None?
    ensures Expected(countX, countZ, coJ, j, e, i, done) == CreatedNeighbor(countX, countZ, coJ, e, i + 1)
  {
    var co := FromOffsetCoordinates(x, z);
    OffsetIndex(countX, countZ, x, z);
    WestNeighbor(countX, countZ, x, z);
    SouthEastNeighbor(countX, countZ, x, z);
    SouthWestNeighbor(countX, countZ, x, z);
    var t := GetCellIndex(countX, countZ, Step(coJ, e));
    if j < i && t == Some(i) {
      IndexInjective(countX, countZ, Step(coJ, e), co);
      StepOpposite(coJ, e);
      assert GetCellIndex(countX, countZ, Step(co, Opposite(e))) == Some(j);
      if Opposite(e) == E || Opposite(e) == NE || Opposite(e) == NW {
        ForwardNeighbors(countX, countZ, x, z, Opposite(e));
        assert false;
      }
      assert Opposite(e) in done;
    }
    if j == i && (e == E || e == NE || e == NW) {
      ForwardNeighbors(countX, countZ, x, z, e);
    }
  }

  /** A cell as CreateCell leaves it: elevation 0, no water, no decoration, the default colour, no river or road. */
  predicate Pristine(x: Cell, color: Color)
    requires |x.roads| == 6
  {
    x.elevation == 0 && x.waterLevel == 0 && x.urbanLevel == 0 && x.farmLevel == 0 && x.plantLevel == 0 &&
    !x.walled && x.color == color && Bare(x)
  }

  lemma PristineWithin(x: Cell, y: Cell, color: Color)
    requires |y.roads| == 6 && CellEdgesWithin(x, y) && Pristine(y, color)
    ensures Pristine(x, color)
  {
    assert Stripped(x).color == x.color && Stripped(y).color == y.color;
    CellEdgesWithinKeeps(x, y);
  }

  /** The chunk AddCellToChunk gives the cell at `co`, whose offset column X + Z/2 and row Z are non-negative. */
  predicate Tiled(x: Cell, chunkCountX: nat, chunkSizeX: nat, chunkSizeZ: nat)
    requires chunkSizeX > 0 && chunkSizeZ > 0
  {
    var co := x.coordinates;
    0 <= co.Z && 0 <= co.X + co.Z / 2 &&
    x.chunk == Some(ChunkIndex(chunkCountX, chunkSizeX, chunkSizeZ, co.X + co.Z / 2, co.Z))
  }

  /** The new cell before its elevation and chunk are set: the default colour and nothing else. */
  predicate Unplaced(x: Cell, color: Color)
    requires |x.roads| == 6
  {
    x.waterLevel == 0 && x.urbanLevel == 0 && x.farmLevel == 0 && x.plantLevel == 0 &&
    !x.walled && x.color == color && Bare(x) && x.chunk.None?
  }

  /**
   * CreateCell part way: the cells before the last are finished; the last one,
   * at `co`, has the default colour and nothing else yet.
   */
  ghost predicate Finishing(chunkCountX: nat, chunkSizeX: nat, chunkSizeZ: nat, color: Color, cs: seq<Cell>, co: HexCoordinates)
    requires chunkSizeX > 0 && chunkSizeZ > 0 && Shaped(cs) && |cs| > 0
  {
    cs[|cs| - 1].coordinates == co && Unplaced(cs[|cs| - 1], color) &&
    forall j | 0 <= j < |cs| - 1 :: Pristine(cs[j], color) && Tiled(cs[j], chunkCountX, chunkSizeX, chunkSizeZ)
  }

  /** Appending the cell at `co` to finished cells and giving it the default colour. */
  lemma {:induction false} FinishingStart(chunkCountX: nat, chunkSizeX: nat, chunkSizeZ: nat, color: Color,
                                          cs: seq<Cell>, co: HexCoordinates)
    requires chunkSizeX > 0 && chunkSizeZ > 0 && Shaped(cs)
    requires forall j | 0 <= j < |cs| :: Pristine(cs[j], color) && Tiled(cs[j], chunkCountX, chunkSizeX, chunkSizeZ)
    ensures var a := cs + [FreshCell(co)]; var r := a[|cs| := a[|cs|].(color := color)];
      Shaped(r) && Finishing(chunkCountX, chunkSizeX, chunkSizeZ, color, r, co)
  {
    var i := |cs|;
    var a := cs + [FreshCell(co)];
    var r := a[i := a[i].(color := color)];
    forall j | 0 <= j < |r| ensures CellShaped(|r|, r[j]) {
      if j < i {
        assert CellShaped(|cs|, cs[j]);
      }
    }
    forall j | 0 <= j < i
      ensures Pristine(r[j], color) && Tiled(r[j], chunkCountX, chunkSizeX, chunkSizeZ)
    {
      assert r[j] == cs[j];
    }
    assert Unplaced(r[i], color);
  }

  /** Linking the new cell changes nothing that Finishing is about. */
  lemma {:induction false} FinishingLinked(chunkCountX: nat, chunkSizeX: nat, chunkSizeZ: nat, color: Color,
                                           cs: seq<Cell>, co: HexCoordinates, d: HexDirection, b: nat)
    requires chunkSizeX > 0 && chunkSizeZ > 0 && Shaped(cs) && |cs| > 0 && b < |cs|
    requires Finishing(chunkCountX, chunkSizeX, chunkSizeZ, color, cs, co)
    ensures Finishing(chunkCountX, chunkSizeX, chunkSizeZ, color, Linking(cs, |cs| - 1, d, b), co)
  {
    var i := |cs| - 1;
    LinkingSpec(cs, i, d, b);
    var r := Linking(cs, i, d, b);
    forall j | 0 <= j < i
      ensures Pristine(r[j], color) && Tiled(r[j], chunkCountX, chunkSizeX, chunkSizeZ)
    {
      assert Pristine(cs[j], color) && Tiled(cs[j], chunkCountX, chunkSizeX, chunkSizeZ);
      RelinkedFinished(r[j], cs[j], color, chunkCountX, chunkSizeX, chunkSizeZ);
    }
    assert r[i] == cs[i].(neighbors := r[i].neighbors);
  }

  /** A finished cell stays finished when only its links change. */
  lemma RelinkedFinished(x: Cell, y: Cell, color: Color, chunkCountX: nat, chunkSizeX: nat, chunkSizeZ: nat)
    requires chunkSizeX > 0 && chunkSizeZ > 0 && |y.roads| == 6 && x == y.(neighbors := x.neighbors)
    requires Pristine(y, color) && Tiled(y, chunkCountX, chunkSizeX, chunkSizeZ)
    ensures Pristine(x, color) && Tiled(x, chunkCountX, chunkSizeX, chunkSizeZ)
  {
  }

  /** Setting the elevation to 0 and the chunk of offset (x, z) finishes the last cell. */
  lemma {:induction false} FinishingEnd(chunkCountX: nat, chunkSizeX: nat, chunkSizeZ: nat, color: Color,
                                        cs: seq<Cell>, x: nat, z: nat)
    requires chunkSizeX > 0 && chunkSizeZ > 0 && Consistent(cs) && |cs| > 0
    requires Finishing(chunkCountX, chunkSizeX, chunkSizeZ, color, cs, FromOffsetCoordinates(x, z))
    ensures var i := |cs| - 1; var e := ElevationChanged(cs, i, 0);
      var f := e[i := e[i].(chunk := Some(ChunkIndex(chunkCountX, chunkSizeX, chunkSizeZ, x, z)))];
      SameGeometry(f, cs) && Shaped(f) &&
      forall j | 0 <= j < |f| :: Pristine(f[j], color) && Tiled(f[j], chunkCountX, chunkSizeX, chunkSizeZ)
  {
    var i := |cs| - 1;
    ElevationChangedSpec(cs, i, 0);
    var e := ElevationChanged(cs, i, 0);
    var k := ChunkIndex(chunkCountX, chunkSizeX, chunkSizeZ, x, z);
    ChunkAssignedKeeps(e, i, k);
    FinishedWithin(chunkCountX, chunkSizeX, chunkSizeZ, color, cs, e, WithElevation(cs, i, 0), x, z);
  }

  /** A state with the rivers and roads of `raised` at most, where `raised` puts the last cell at elevation 0. */
  lemma {:induction false} FinishedWithin(chunkCountX: nat, chunkSizeX: nat, chunkSizeZ: nat, color: Color,
                                          cs: seq<Cell>, e: seq<Cell>, raised: seq<Cell>, x: nat, z: nat)
    requires chunkSizeX > 0 && chunkSizeZ > 0 && Shaped(cs) && |cs| > 0
    requires Finishing(chunkCountX, chunkSizeX, chunkSizeZ, color, cs, FromOffsetCoordinates(x, z))
    requires |raised| == |cs| && EdgesWithin(e, raised)
    requires forall a | 0 <= a < |cs| - 1 :: raised[a] == cs[a]
    requires raised[|cs| - 1] == cs[|cs| - 1].(elevation := 0)
    ensures var i := |cs| - 1; var f := e[i := e[i].(chunk := Some(ChunkIndex(chunkCountX, chunkSizeX, chunkSizeZ, x, z)))];
      SameGeometry(f, cs) &&
      forall j | 0 <= j < |f| :: |f[j].roads| == 6 && Pristine(f[j], color) && Tiled(f[j], chunkCountX, chunkSizeX, chunkSizeZ)
  {
    var i := |cs| - 1;
    var f := e[i := e[i].(chunk := Some(ChunkIndex(chunkCountX, chunkSizeX, chunkSizeZ, x, z)))];
    forall j | 0 <= j <= i
      ensures f[j].neighbors == cs[j].neighbors && f[j].coordinates == cs[j].coordinates
      ensures |f[j].roads| == 6 && Pristine(f[j], color) && Tiled(f[j], chunkCountX, chunkSizeX, chunkSizeZ)
    {
      assert CellEdgesWithin(e[j], raised[j]);
      CellEdgesWithinKeeps(e[j], raised[j]);
      assert CellShaped(|cs|, cs[j]);
      if j < i {
        assert f[j] == e[j];
        assert Pristine(cs[j], color) && Tiled(cs[j], chunkCountX, chunkSizeX, chunkSizeZ);
        PristineWithin(e[j], raised[j], color);
      } else {
        assert Unplaced(cs[i], color);
        PristineWithin(e[i], raised[i], color);
        assert CsDiv(z, 2) == z / 2;
      }
    }
  }

  /** Cells in the same places with the same links are indexed and wired alike. */
  lemma GeometryWired(countX: nat, countZ: nat, x: seq<Cell>, y: seq<Cell>)
    requires Shaped(x) && Shaped(y) && SameGeometry(x, y)
    requires Indexed(countX, countZ, y, |y|) && Wired(countX, countZ, y, |y|)
    ensures Indexed(countX, countZ, x, |x|) && Wired(countX, countZ, x, |x|)
  {
  }

  /** The W link CreateCell makes from the new last cell, unless the cell starts its row. */
  function LinkedWest(cs: seq<Cell>, x: nat): (r: seq<Cell>)
    requires Shaped(cs) && x < |cs|
    ensures Shaped(r) && |r| == |cs|
  {
    if x > 0 then Linking(cs, |cs| - 1, W, |cs| - 2) else cs
  }

  /** Two links from the last cell across the row below: `d1` to `b1`, then `d2` to `b2` when `second` holds. */
  function LinkedPair(w: seq<Cell>, d1: HexDirection, b1: nat, second: bool, d2: HexDirection, b2: int): (r: seq<Cell>)
    requires Shaped(w) && |w| > 0 && b1 < |w| && (second ==> 0 <= b2 < |w|)
    ensures Shaped(r) && |r| == |w|
  {
    var s := Linking(w, |w| - 1, d1, b1);
    if second then Linking(s, |w| - 1, d2, b2) else s
  }

  /**
   * The links CreateCell makes from the new last cell, at offset (x, z), to the
   * cells already created: W unless the cell starts its row; above row 0, SE then
   * SW on an even row and SW then SE on an odd row, skipping the one off the row.
   */
  function LinkedBack(countX: nat, cs: seq<Cell>, x: nat, z: nat): (r: seq<Cell>)
    requires Shaped(cs) && x < countX && |cs| == x + RowStart(z, countX) + 1
    ensures Shaped(r) && |r| == |cs|
  {
    LinkedBelow(countX, LinkedWest(cs, x), x, z)
  }

  /**
   * The links from cell n - 1, at offset (x, z) with z > 0, across the row below:
   * SE to the cell countX back, then SW to the one before it unless x is 0, on an
   * even row; SW to the cell countX back, then SE to the one after it unless x
   * ends the row, on an odd row.
   */
  function BelowLinks(countX: nat, n: nat, x: nat, z: nat): (r: (HexDirection, nat, bool, HexDirection, int))
    requires x < countX && z > 0 && n == x + RowStart(z, countX) + 1
    ensures r.1 < n - 1 && (r.2 ==> 0 <= r.4 < n - 1)
  {
    assert RowStart(z, countX) == RowStart(z - 1, countX) + countX;
    var i := n - 1;
    if z % 2 == 0 then (SE, i - countX, x > 0, SW, i - countX - 1)
    else (SW, i - countX, x < countX - 1, SE, i - countX + 1)
  }

  /** The links across the row below, by the parity of the row; none on row 0. */
  function LinkedBelow(countX: nat, w: seq<Cell>, x: nat, z: nat): (r: seq<Cell>)
    requires Shaped(w) && x < countX && |w| == x + RowStart(z, countX) + 1
    ensures Shaped(r) && |r| == |w|
  {
    if z == 0 then w
    else
      var p := BelowLinks(countX, |w|, x, z);
      LinkedPair(w, p.0, p.1, p.2, p.3, p.4)
  }

  /** The links across the row below change nothing that Finishing is about. */
  lemma {:induction false} LinkedPairFinishing(chunkCountX: nat, chunkSizeX: nat, chunkSizeZ: nat, color: Color,
                                               w: seq<Cell>, co: HexCoordinates,
                                               d1: HexDirection, b1: nat, second: bool, d2: HexDirection, b2: int)
    requires chunkSizeX > 0 && chunkSizeZ > 0 && Shaped(w) && |w| > 0 && b1 < |w| && (second ==> 0 <= b2 < |w|)
    requires Finishing(chunkCountX, chunkSizeX, chunkSizeZ, color, w, co)
    ensures Finishing(chunkCountX, chunkSizeX, chunkSizeZ, color, LinkedPair(w, d1, b1, second, d2, b2), co)
  {
    FinishingLinked(chunkCountX, chunkSizeX, chunkSizeZ, color, w, co, d1, b1);
    if second {
      FinishingLinked(chunkCountX, chunkSizeX, chunkSizeZ, color, Linking(w, |w| - 1, d1, b1), co, d2, b2);
    }
  }

  /** CreateCell's links change nothing that Finishing is about. */
  lemma {:induction false} LinkedBackFinishing(countX: nat, chunkCountX: nat, chunkSizeX: nat, chunkSizeZ: nat, color: Color,
                                               cs: seq<Cell>, x: nat, z: nat)
    requires chunkSizeX > 0 && chunkSizeZ > 0 && Shaped(cs) && x < countX && |cs| == x + RowStart(z, countX) + 1
    requires Finishing(chunkCountX, chunkSizeX, chunkSizeZ, color, cs, FromOffsetCoordinates(x, z))
    ensures Finishing(chunkCountX, chunkSizeX, chunkSizeZ, color, LinkedBack(countX, cs, x, z), FromOffsetCoordinates(x, z))
  {
    var co := FromOffsetCoordinates(x, z);
    if x > 0 {
      FinishingLinked(chunkCountX, chunkSizeX, chunkSizeZ, color, cs, co, W, |cs| - 2);
    }
    LinkedBelowFinishing(countX, chunkCountX, chunkSizeX, chunkSizeZ, color, LinkedWest(cs, x), co, x, z);
  }

  /** The links across the row below change nothing that Finishing is about. */
  lemma {:induction false} LinkedBelowFinishing(countX: nat, chunkCountX: nat, chunkSizeX: nat, chunkSizeZ: nat, color: Color,
                                                w: seq<Cell>, co: HexCoordinates, x: nat, z: nat)
    requires chunkSizeX > 0 && chunkSizeZ > 0 && Shaped(w) && x < countX && |w| == x + RowStart(z, countX) + 1
    requires Finishing(chunkCountX, chunkSizeX, chunkSizeZ, color, w, co)
    ensures Finishing(chunkCountX, chunkSizeX, chunkSizeZ, color, LinkedBelow(countX, w, x, z), co)
  {
    if z > 0 {
      var p := BelowLinks(countX, |w|, x, z);
      LinkedPairFinishing(chunkCountX, chunkSizeX, chunkSizeZ, color, w, co, p.0, p.1, p.2, p.3, p.4);
    }
  }

  /** Cells each at its index and linked to exactly the adjacent ones among them. */
  ghost predicate Complete(countX: nat, countZ: nat, cs: seq<Cell>)
  {
    Shaped(cs) && Indexed(countX, countZ, cs, |cs|) && Wired(countX, countZ, cs, |cs|)
  }

  /**
   * Cells linked as CreateCell links them, with no river and no road yet, keep
   * every invariant of the map: the links are mirrored and follow the coordinates.
   */
  lemma {:induction false} WiredConsistent(countX: nat, countZ: nat, cs: seq<Cell>)
    requires Complete(countX, countZ, cs)
    requires forall a | 0 <= a < |cs| :: Bare(cs[a])
    ensures Consistent(cs)
  {
    forall a, d: HexDirection | 0 <= a < |cs| && cs[a].neighbors[d].Some?
      ensures cs[cs[a].neighbors[d].value].neighbors[Opposite(d)] == Some(a)
      ensures cs[cs[a].neighbors[d].value].coordinates == Step(cs[a].coordinates, d)
    {
      var b := cs[a].neighbors[d].value;
      var co := cs[a].coordinates;
      assert cs[a].neighbors[d] == CreatedNeighbor(countX, countZ, co, d, |cs|);
      assert GetCellIndex(countX, countZ, cs[b].coordinates) == Some(b);
      IndexInjective(countX, countZ, Step(co, d), cs[b].coordinates);
      StepOpposite(co, d);
      assert GetCellIndex(countX, countZ, co) == Some(a);
      assert cs[b].neighbors[Opposite(d)] == CreatedNeighbor(countX, countZ, cs[b].coordinates, Opposite(d), |cs|);
    }
    forall a | 0 <= a < |cs| ensures !cs[a].HasRiver() && forall d: HexDirection :: !cs[a].roads[d] {
      assert Bare(cs[a]);
    }
  }

  /** While CreateCell runs no cell has a river or a road. */
  lemma FinishingBare(chunkCountX: nat, chunkSizeX: nat, chunkSizeZ: nat, color: Color, cs: seq<Cell>, co: HexCoordinates)
    requires chunkSizeX > 0 && chunkSizeZ > 0 && Shaped(cs) && |cs| > 0
    requires Finishing(chunkCountX, chunkSizeX, chunkSizeZ, color, cs, co)
    ensures forall a | 0 <= a < |cs| :: Bare(cs[a])
  {
    forall a | 0 <= a < |cs| ensures Bare(cs[a]) {
      assert CellShaped(|cs|, cs[a]);
      if a < |cs| - 1 {
        assert Pristine(cs[a], color);
      } else {
        assert Unplaced(cs[a], color);
      }
    }
  }

  /**
   * CreateCell's links complete the wiring: after them every cell, the new one
   * included, is linked to exactly the adjacent cells created so far.
   */
  lemma {:induction false} LinkedBackWired(countX: nat, countZ: nat, cs: seq<Cell>, x: nat, z: nat)
    requires WiringAt(countX, countZ, cs, x, z, {})
    ensures Complete(countX, countZ, LinkedBack(countX, cs, x, z))
  {
    var i := |cs| - 1;
    SouthEastNeighbor(countX, countZ, x, z);
    SouthWestNeighbor(countX, countZ, x, z);
    var done := LinkedWestWired(countX, countZ, cs, x, z);
    var w := LinkedWest(cs, x);
    if z == 0 {
      WireDone(countX, countZ, w, x, z, done);
    } else {
      var p := BelowLinks(countX, |w|, x, z);
      assert RowStart(z, countX) == RowStart(z - 1, countX) + countX;
      if z % 2 == 0 {
        assert p == (SE, i - countX, x > 0, SW, i - countX - 1);
      } else {
        assert p == (SW, i - countX, x < countX - 1, SE, i - countX + 1);
      }
      LinkedSouth(countX, countZ, w, x, z, done, p.0, p.3, p.2, p.1, p.4);
    }
  }

  /** The W link: afterwards W is done exactly when the cell has a west neighbour, and otherwise leads outside the grid. */
  lemma {:induction false} LinkedWestWired(countX: nat, countZ: nat, cs: seq<Cell>, x: nat, z: nat)
    returns (done: set<HexDirection>)
    requires WiringAt(countX, countZ, cs, x, z, {})
    ensures WiringAt(countX, countZ, LinkedWest(cs, x), x, z, done)
    ensures done == {} || done == {W}
    ensures W !in done ==> GetCellIndex(countX, countZ, Step(FromOffsetCoordinates(x, z), W)).None?
  {
    var i := |cs| - 1;
    WestNeighbor(countX, countZ, x, z);
    done := {};
    if x > 0 {
      WireStep(countX, countZ, cs, x, z, {}, W, i - 1);
      done := {} + {W};
      assert done == {W};
    }
  }

  /** The links across the row below: `d1` to `b1`, then `d2` to `b2` when `second` holds. */
  lemma {:induction false} LinkedSouth(countX: nat, countZ: nat, w: seq<Cell>, x: nat, z: nat, done: set<HexDirection>,
                                       d1: HexDirection, d2: HexDirection, second: bool, b1: nat, b2: int)
    requires WiringAt(countX, countZ, w, x, z, done) && (done == {} || done == {W})
    requires (d1 == SE && d2 == SW) || (d1 == SW && d2 == SE)
    requires W !in done ==> GetCellIndex(countX, countZ, Step(FromOffsetCoordinates(x, z), W)).None?
    requires GetCellIndex(countX, countZ, Step(FromOffsetCoordinates(x, z), d1)) == Some(b1)
    requires second ==> GetCellIndex(countX, countZ, Step(FromOffsetCoordinates(x, z), d2)) == Some(b2)
    requires !second ==> GetCellIndex(countX, countZ, Step(FromOffsetCoordinates(x, z), d2)).None?
    ensures b1 < |w| - 1 && (second ==> 0 <= b2 < |w| - 1)
    ensures Complete(countX, countZ, LinkedPair(w, d1, b1, second, d2, b2))
  {
    var i := |w| - 1;
    if second {
      WireStep(countX, countZ, w, x, z, done, d1, b1);
      WireLast(countX, countZ, Linking(w, i, d1, b1), x, z, done + {d1}, d2, b2);
    } else {
      WireLast(countX, countZ, w, x, z, done, d1, b1);
    }
  }

  /** The last link CreateCell makes, across `d` to `b`, completes the wiring. */
  lemma {:induction false} WireLast(countX: nat, countZ: nat, cs: seq<Cell>, x: nat, z: nat,
                                    done: set<HexDirection>, d: HexDirection, b: nat)
    requires WiringAt(countX, countZ, cs, x, z, done)
    requires (d == W || d == SE || d == SW) && d !in done
    requires GetCellIndex(countX, countZ, Step(FromOffsetCoordinates(x, z), d)) == Some(b)
    requires forall e: HexDirection | (e == W || e == SE || e == SW) && e !in done && e != d ::
      GetCellIndex(countX, countZ, Step(FromOffsetCoordinates(x, z), e)).None?
    ensures b < |cs| - 1
    ensures Complete(countX, countZ, Linking(cs, |cs| - 1, d, b))
  {
    WireStep(countX, countZ, cs, x, z, done, d, b);
    WireDone(countX, countZ, Linking(cs, |cs| - 1, d, b), x, z, done + {d});
  }

  /** Cells CreateCell has finished: each at its index, linked to the adjacent ones, pristine and in its chunk. */
  ghost predicate Built(countX: nat, countZ: nat, chunkCountX: nat, chunkSizeX: nat, chunkSizeZ: nat, color: Color, cs: seq<Cell>)
    requires chunkSizeX > 0 && chunkSizeZ > 0
  {
    Consistent(cs) && Indexed(countX, countZ, cs, |cs|) && Wired(countX, countZ, cs, |cs|) &&
    forall j | 0 <= j < |cs| :: Pristine(cs[j], color) && Tiled(cs[j], chunkCountX, chunkSizeX, chunkSizeZ)
  }

  /** The cells once CreateCell has instantiated the cell at `co` and given it its colour. */
  function Appended(cs: seq<Cell>, co: HexCoordinates, color: Color): (r: seq<Cell>)
  {
    var a := cs + [FreshCell(co)];
    a[|cs| := a[|cs|].(color := color)]
  }

  /**
   * The cells after CreateCell(x, z) on `cs`, step by step: the cell at offset
   * (x, z) appended, given the default colour, linked back, set to elevation 0 and
   * added to the chunk its offset falls in.
   */
  function Created(countX: nat, countZ: nat, chunkCountX: nat, chunkSizeX: nat, chunkSizeZ: nat, color: Color,
                   cs: seq<Cell>, x: nat, z: nat): (r: seq<Cell>)
    requires chunkSizeX > 0 && chunkSizeZ > 0 && x < countX && z < countZ && |cs| == x + RowStart(z, countX)
    requires Built(countX, countZ, chunkCountX, chunkSizeX, chunkSizeZ, color, cs)
  {
    LinkedBackBuilt(countX, countZ, chunkCountX, chunkSizeX, chunkSizeZ, color, cs, x, z);
    var i := |cs|;
    var e := ElevationChanged(LinkedBack(countX, Appended(cs, FromOffsetCoordinates(x, z), color), x, z), i, 0);
    e[i := e[i].(chunk := Some(ChunkIndex(chunkCountX, chunkSizeX, chunkSizeZ, x, z)))]
  }

  /** Appended and linked back, the new cell leaves every cell wired, and the map consistent. */
  lemma {:induction false} LinkedBackBuilt(countX: nat, countZ: nat, chunkCountX: nat, chunkSizeX: nat, chunkSizeZ: nat,
                                           color: Color, cs: seq<Cell>, x: nat, z: nat)
    requires chunkSizeX > 0 && chunkSizeZ > 0 && x < countX && z < countZ && |cs| == x + RowStart(z, countX)
    requires Built(countX, countZ, chunkCountX, chunkSizeX, chunkSizeZ, color, cs)
    ensures var colored := Appended(cs, FromOffsetCoordinates(x, z), color);
      WiringAt(countX, countZ, colored, x, z, {}) &&
      var wired := LinkedBack(countX, colored, x, z);
      Complete(countX, countZ, wired) && Consistent(wired) &&
      Finishing(chunkCountX, chunkSizeX, chunkSizeZ, color, wired, FromOffsetCoordinates(x, z))
  {
    var i := |cs|;
    var co := FromOffsetCoordinates(x, z);
    var a := cs + [FreshCell(co)];
    WireStart(countX, countZ, cs, x, z);
    WireRecolored(countX, countZ, a, x, z, color);
    FinishingStart(chunkCountX, chunkSizeX, chunkSizeZ, color, cs, co);
    var colored := Appended(cs, co, color);
    LinkedBackWired(countX, countZ, colored, x, z);
    LinkedBackFinishing(countX, chunkCountX, chunkSizeX, chunkSizeZ, color, colored, x, z);
    var wired := LinkedBack(countX, colored, x, z);
    FinishingBare(chunkCountX, chunkSizeX, chunkSizeZ, color, wired, co);
    WiredConsistent(countX, countZ, wired);
  }

  /**
   * CreateCell keeps the grid built: one more cell, the new one at offset (x, z),
   * and every cell still at its index, linked to the adjacent created cells,
   * flat, dry, bare, of the default colour and in its chunk.
   */
  lemma {:induction false} CreatedBuilt(countX: nat, countZ: nat, chunkCountX: nat, chunkSizeX: nat, chunkSizeZ: nat,
                                        color: Color, cs: seq<Cell>, x: nat, z: nat)
    requires chunkSizeX > 0 && chunkSizeZ > 0 && x < countX && z < countZ && |cs| == x + RowStart(z, countX)
    requires Built(countX, countZ, chunkCountX, chunkSizeX, chunkSizeZ, color, cs)
    ensures var r := Created(countX, countZ, chunkCountX, chunkSizeX, chunkSizeZ, color, cs, x, z);
      |r| == |cs| + 1 && r[|cs|].coordinates == FromOffsetCoordinates(x, z) &&
      Built(countX, countZ, chunkCountX, chunkSizeX, chunkSizeZ, color, r)
  {
    var i := |cs|;
    LinkedBackBuilt(countX, countZ, chunkCountX, chunkSizeX, chunkSizeZ, color, cs, x, z);
    var wired := LinkedBack(countX, Appended(cs, FromOffsetCoordinates(x, z), color), x, z);
    FinishingEnd(chunkCountX, chunkSizeX, chunkSizeZ, color, wired, x, z);
    var e := ElevationChanged(wired, i, 0);
    var k := ChunkIndex(chunkCountX, chunkSizeX, chunkSizeZ, x, z);
    ElevationChangedSpec(wired, i, 0);
    ChunkAssignedKeeps(e, i, k);
    GeometryWired(countX, countZ, e[i := e[i].(chunk := Some(k))], wired);
  }

  /** Coordinates GetCell finds no index for belong to no cell. */
  lemma NotIndexed(countX: nat, countZ: nat, cs: seq<Cell>, co: HexCoordinates)
    requires Indexed(countX, countZ, cs, |cs|) && GetCellIndex(countX, countZ, co).None?
    ensures forall j | 0 <= j < |cs| :: cs[j].coordinates != co
  {
    forall j | 0 <= j < |cs| ensures cs[j].coordinates != co {
      assert GetCellIndex(countX, countZ, cs[j].coordinates) == Some(j);
    }
  }

  /** Once every cell of the grid is created, each is linked to every adjacent cell inside the grid. */
  lemma WiredComplete(countX: nat, countZ: nat, cs: seq<Cell>)
    requires Shaped(cs) && |cs| == countX * countZ && Wired(countX, countZ, cs, |cs|)
    ensures forall j, e: HexDirection | 0 <= j < |cs| :: cs[j].neighbors[e] == GetCellIndex(countX, countZ, Step(cs[j].coordinates, e))
  {
    forall j, e: HexDirection | 0 <= j < |cs|
      ensures cs[j].neighbors[e] == GetCellIndex(countX, countZ, Step(cs[j].coordinates, e))
    {
      assert cs[j].neighbors[e] == CreatedNeighbor(countX, countZ, cs[j].coordinates, e, |cs|);
    }
  }

  /** A built grid: every cell at its index, linked to the adjacent cells inside the grid, in its chunk. */
  ghost predicate Laid(countX: nat, countZ: nat, chunkCountX: nat, chunkSizeX: nat, chunkSizeZ: nat, cs: seq<Cell>)
    requires chunkSizeX > 0 && chunkSizeZ > 0 && Shaped(cs)
  {
    Indexed(countX, countZ, cs, |cs|) &&
    (forall j, e: HexDirection | 0 <= j < |cs| :: cs[j].neighbors[e] == GetCellIndex(countX, countZ, Step(cs[j].coordinates, e))) &&
    forall j | 0 <= j < |cs| :: Tiled(cs[j], chunkCountX, chunkSizeX, chunkSizeZ)
  }

  /** Edits that keep links, coordinates and chunks keep a built grid built. */
  lemma LaidKeeps(countX: nat, countZ: nat, chunkCountX: nat, chunkSizeX: nat, chunkSizeZ: nat, x: seq<Cell>, y: seq<Cell>)
    requires chunkSizeX > 0 && chunkSizeZ > 0 && Shaped(x) && Shaped(y) && SameLinks(x, y)
    requires Laid(countX, countZ, chunkCountX, chunkSizeX, chunkSizeZ, y)
    ensures Laid(countX, countZ, chunkCountX, chunkSizeX, chunkSizeZ, x)
  {
    forall j | 0 <= j < |x|
      ensures GetCellIndex(countX, countZ, x[j].coordinates) == Some(j)
      ensures Tiled(x[j], chunkCountX, chunkSizeX, chunkSizeZ)
      ensures forall e: HexDirection :: x[j].neighbors[e] == GetCellIndex(countX, countZ, Step(x[j].coordinates, e))
    {
      assert x[j].neighbors == y[j].neighbors && x[j].coordinates == y[j].coordinates && x[j].chunk == y[j].chunk;
      assert Tiled(y[j], chunkCountX, chunkSizeX, chunkSizeZ);
      assert GetCellIndex(countX, countZ, y[j].coordinates) == Some(j);
      assert forall e: HexDirection :: y[j].neighbors[e] == GetCellIndex(countX, countZ, Step(y[j].coordinates, e));
    }
  }

  /** In a built grid every cell has a chunk, so no Refresh of any cell can fail. */
  lemma LaidChunked(countX: nat, countZ: nat, chunkCountX: nat, chunkSizeX: nat, chunkSizeZ: nat, cs: seq<Cell>, c: nat)
    requires chunkSizeX > 0 && chunkSizeZ > 0 && Shaped(cs) && Laid(countX, countZ, chunkCountX, chunkSizeX, chunkSizeZ, cs)
    requires c < |cs|
    ensures cs[c].chunk.Some? && RefreshSafe(cs, c)
    ensures forall d: HexDirection :: cs[c].neighbors[d].Some? ==> cs[cs[c].neighbors[d].value].chunk.Some?
  {
    assert Tiled(cs[c], chunkCountX, chunkSizeX, chunkSizeZ);
    forall d: HexDirection | cs[c].neighbors[d].Some? ensures cs[cs[c].neighbors[d].value].chunk.Some? {
      assert Tiled(cs[cs[c].neighbors[d].value], chunkCountX, chunkSizeX, chunkSizeZ);
    }
  }

  // ---------------------------------------------------------------------------
  // The grid

  class HexGrid {
    const chunkCountX: nat
    const chunkCountZ: nat
    const chunkSizeX: nat
    const chunkSizeZ: nat
    const cellCountX: nat
    const cellCountZ: nat
    const defaultColor: Color
    const graph: CellGraph

    /** The cell counts follow from the chunk counts and the chunk size. */
    predicate Sizes()
    {
      chunkSizeX > 0 && chunkSizeZ > 0 &&
      cellCountX == chunkCountX * chunkSizeX && cellCountZ == chunkCountZ * chunkSizeZ
    }

    ghost predicate Valid()
      reads this, graph
    {
      Sizes() && graph.Valid() && |graph.cells| == cellCountX * cellCountZ &&
      Laid(cellCountX, cellCountZ, chunkCountX, chunkSizeX, chunkSizeZ, graph.cells)
    }

    /** The first `n` cells are created, wired, chunked and pristine, and no chunk is dirty. */
    ghost predicate Building(n: nat)
      reads this, graph
    {
      Sizes() && graph.Valid() && |graph.cells| == n && graph.dirty == {} &&
      Built(cellCountX, cellCountZ, chunkCountX, chunkSizeX, chunkSizeZ, defaultColor, graph.cells)
    }

    /**
     * Awake: the cell counts, then CreateCells. Every cell sits at its row-major
     * index, is linked to exactly the adjacent cells inside the grid, belongs to its
     * chunk, and is flat, dry, bare and of the default colour; no chunk is dirty.
     */
    constructor (chunkCountX: nat, chunkCountZ: nat, chunkSizeX: nat, chunkSizeZ: nat, defaultColor: Color)
      requires chunkSizeX > 0 && chunkSizeZ > 0
      ensures Valid() && fresh(graph) && graph.dirty == {}
      ensures this.chunkCountX == chunkCountX && this.chunkCountZ == chunkCountZ
      ensures this.chunkSizeX == chunkSizeX && this.chunkSizeZ == chunkSizeZ && this.defaultColor == defaultColor
      ensures forall j | 0 <= j < |graph.cells| :: Pristine(graph.cells[j], defaultColor)
    {
      this.chunkCountX := chunkCountX;
      this.chunkCountZ := chunkCountZ;
      this.chunkSizeX := chunkSizeX;
      this.chunkSizeZ := chunkSizeZ;
      this.defaultColor := defaultColor;
      cellCountX := chunkCountX * chunkSizeX;
      cellCountZ := chunkCountZ * chunkSizeZ;
      graph := new CellGraph();
      new;
      CreateCells();
    }

    /** CreateCells: CreateCell for every offset (x, z), rows from z = 0 up, each row from x = 0 east. */
    method CreateCells()
      requires Building(0)
      modifies graph
      ensures Valid() && graph.dirty == {}
      ensures forall j | 0 <= j < |graph.cells| :: Pristine(graph.cells[j], defaultColor)
    {
      var z := 0;
      var i := 0;
      while z < cellCountZ
        invariant 0 <= z <= cellCountZ && i == RowStart(z, cellCountX)
        invariant Building(i)
      {
        var x := 0;
        while x < cellCountX
          invariant 0 <= x <= cellCountX && i == x + RowStart(z, cellCountX)
          invariant Building(i)
        {
          CreateCell(x, z, i);
          i := i + 1;
          x := x + 1;
        }
        assert i == RowStart(z + 1, cellCountX);
        z := z + 1;
      }
      RowStartProduct(cellCountZ, cellCountX);
      WiredComplete(cellCountX, cellCountZ, graph.cells);
    }

    /**
     * CreateCell: instantiate the cell at offset (x, z), give it the default colour,
     * link it W, and SE/SW by the parity of the row, to cells already created,
     * set its elevation to 0 and add it to its chunk.
     */
    method CreateCell(x: nat, z: nat, i: nat)
      requires Building(i) && x < cellCountX && z < cellCountZ && i == x + RowStart(z, cellCountX)
      modifies graph
      ensures graph.cells == Created(cellCountX, cellCountZ, chunkCountX, chunkSizeX, chunkSizeZ, defaultColor, old(graph.cells), x, z)
      ensures Building(i + 1)
    {
      ghost var cs := graph.cells;
      CreatedBuilt(cellCountX, cellCountZ, chunkCountX, chunkSizeX, chunkSizeZ, defaultColor, cs, x, z);
      LinkedBackBuilt(cellCountX, cellCountZ, chunkCountX, chunkSizeX, chunkSizeZ, defaultColor, cs, x, z);
      var c := graph.AddCell(FromOffsetCoordinates(x, z));
      graph.SetColor(c, defaultColor);
      assert graph.cells == Appended(cs, FromOffsetCoordinates(x, z), defaultColor);
      LinkToCreated(x, z);
      graph.SetElevation(c, 0);
      var chunk, local := AddCellToChunk(x, z, c);
    }

    /**
     * The neighbour part of CreateCell: link the new last cell W, and SE/SW by the
     * parity of its row, to the cells already created.
     */
    method LinkToCreated(x: nat, z: nat)
      requires Shaped(graph.cells) && x < cellCountX && |graph.cells| == x + RowStart(z, cellCountX) + 1
      modifies graph
      ensures graph.cells == LinkedBack(cellCountX, old(graph.cells), x, z) && graph.dirty == old(graph.dirty)
    {
      LinkWest(x);
      LinkBelow(x, z);
    }

    /** The links of CreateCell across the row below, SE and SW by the parity of the row. */
    method LinkBelow(x: nat, z: nat)
      requires Shaped(graph.cells) && x < cellCountX && |graph.cells| == x + RowStart(z, cellCountX) + 1
      modifies graph
      ensures graph.cells == LinkedBelow(cellCountX, old(graph.cells), x, z) && graph.dirty == old(graph.dirty)
    {
      if z > 0 {
        var p := BelowLinks(cellCountX, |graph.cells|, x, z);
        LinkPair(p.0, p.1, p.2, p.3, p.4);
      }
    }

    /** The W link of CreateCell, made unless the new last cell starts its row. */
    method LinkWest(x: nat)
      requires Shaped(graph.cells) && x < |graph.cells|
      modifies graph
      ensures graph.cells == LinkedWest(old(graph.cells), x) && graph.dirty == old(graph.dirty)
    {
      if x > 0 {
        graph.SetNeighbor(|graph.cells| - 1, W, |graph.cells| - 2);
      }
    }

    /** The links of CreateCell across the row below: `d1` to `b1`, then `d2` to `b2` when `second` holds. */
    method LinkPair(d1: HexDirection, b1: nat, second: bool, d2: HexDirection, b2: int)
      requires Shaped(graph.cells) && |graph.cells| > 0 && b1 < |graph.cells| && (second ==> 0 <= b2 < |graph.cells|)
      modifies graph
      ensures graph.cells == LinkedPair(old(graph.cells), d1, b1, second, d2, b2) && graph.dirty == old(graph.dirty)
    {
      var i := |graph.cells| - 1;
      graph.SetNeighbor(i, d1, b1);
      if second {
        graph.SetNeighbor(i, d2, b2);
      }
    }

    /**
     * AddCellToChunk: the chunk of the tile that (x, z) falls in, and the slot of
     * the cell inside that chunk; the cell now belongs to that chunk.
     */
    method AddCellToChunk(x: nat, z: nat, c: nat) returns (chunk: nat, local: nat)
      requires Sizes() && x < cellCountX && z < cellCountZ && c < |graph.cells|
      modifies graph
      ensures chunk == ChunkIndex(chunkCountX, chunkSizeX, chunkSizeZ, x, z) && chunk < chunkCountX * chunkCountZ
      ensures local == LocalIndex(chunkSizeX, chunkSizeZ, x, z) && local < chunkSizeX * chunkSizeZ
      ensures graph.cells == old(graph.cells)[c := old(graph.cells)[c].(chunk := Some(chunk))]
      ensures graph.dirty == old(graph.dirty)
      ensures old(graph.Valid()) ==> graph.Valid()
    {
      var chunkX := x / chunkSizeX;
      var chunkZ := z / chunkSizeZ;
      chunk := chunkX + chunkCountX * chunkZ;
      var localX := x - chunkX * chunkSizeX;
      var localZ := z - chunkZ * chunkSizeZ;
      ChunkTiling(chunkCountX, chunkCountZ, chunkSizeX, chunkSizeZ, x, z);
      ChunkIndexQuotients(chunkCountX, chunkSizeX, chunkSizeZ, x, z);
      assert chunkCountX * chunkZ == chunkZ * chunkCountX;
      assert chunk == ChunkIndex(chunkCountX, chunkSizeX, chunkSizeZ, x, z);
      local := localX + localZ * chunkSizeX;
      assert local == LocalIndex(chunkSizeX, chunkSizeZ, x, z);
      graph.AssignChunk(c, chunk);
    }

    /** GetCell(HexCoordinates): the cell at those coordinates, or none when they lie outside the grid. */
    method GetCell(co: HexCoordinates) returns (cell: Option<nat>)
      requires Valid()
      ensures cell == GetCellIndex(cellCountX, cellCountZ, co)
      ensures cell.Some? ==> cell.value < |graph.cells| && graph.cells[cell.value].coordinates == co
      ensures cell.None? ==> forall j | 0 <= j < |graph.cells| :: graph.cells[j].coordinates != co
    {
      var z := co.Z;
      if z < 0 || z >= cellCountZ {
        NotIndexed(cellCountX, cellCountZ, graph.cells, co);
        return None;
      }
      var x := co.X + z / 2;
      if x < 0 || x >= cellCountX {
        NotIndexed(cellCountX, cellCountZ, graph.cells, co);
        return None;
      }
      cell := Some(x + z * cellCountX);
      RowStartProduct(z, cellCountX);
      assert cell == GetCellIndex(cellCountX, cellCountZ, co);
      assert GetCellIndex(cellCountX, cellCountZ, graph.cells[cell.value].coordinates) == cell;
      IndexInjective(cellCountX, cellCountZ, co, graph.cells[cell.value].coordinates);
    }
  }
}
