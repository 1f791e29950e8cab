/**
 * HexMapEditor: the brush that edits the cells of a grid. The editor's fields
 * are its settings; EditCell applies them to one cell in a fixed order, a drag
 * from the previous cell into the current one lays a river or a road between the
 * two, and EditCells applies EditCell to every cell of a hexagonal brush.
 */
module Editor {
  import opened HexMetrics
  import opened Coordinates
  import opened CellState
  import opened CellEdits
  import opened HexCells
  import opened GridLayout
  import opened Grid

  /** The three-way mode of the river, road and wall toggles. */
  datatype OptionalToggle = Ignore | Yes | No

  /** The fields of the editor that EditCell reads. */
  datatype Settings = Settings(
    applyColor: bool, activeColor: Color,
    applyElevation: bool, activeElevation: int,
    applyWaterLevel: bool, activeWaterLevel: int,
    applyUrbanLevel: bool, activeUrbanLevel: int,
    applyFarmLevel: bool, activeFarmLevel: int,
    applyPlantLevel: bool, activePlantLevel: int,
    riverMode: OptionalToggle, roadMode: OptionalToggle, walledMode: OptionalToggle,
    isDrag: bool, dragDirection: nat)

  /** A drag always has a direction. */
  predicate DragReady(s: Settings)
  {
    s.isDrag ==> s.dragDirection < 6
  }

  /** A map the editor can work on: every invariant holds and every cell has a chunk. */
  ghost predicate Editable(cs: seq<Cell>)
  {
    Consistent(cs) && Chunked(cs)
  }

  /** In an editable map no setter of `c` can fail on a missing chunk. */
  lemma ChunksReady(cs: seq<Cell>, c: nat)
    requires Editable(cs) && c < |cs|
    ensures cs[c].chunk.Some? && RefreshSafe(cs, c)
    ensures forall d: HexDirection :: cs[c].neighbors[d].Some? ==> cs[cs[c].neighbors[d].value].chunk.Some?
  {
    assert CellShaped(|cs|, cs[c]);
  }

  lemma SameLinksEditable(r: seq<Cell>, cs: seq<Cell>)
    requires Consistent(r) && SameLinks(r, cs) && Chunked(cs)
    ensures Editable(r)
  {
    forall a | 0 <= a < |r| ensures r[a].chunk.Some? {
      assert cs[a].chunk.Some?;
    }
  }

  /** The cell across edge `d` of `c` sees `c` across the opposite edge. */
  lemma BackLink(cs: seq<Cell>, c: nat, d: HexDirection)
    requires Shaped(cs) && Linked(cs) && c < |cs| && cs[c].neighbors[d].Some?
    ensures cs[c].neighbors[d].value < |cs| && cs[cs[c].neighbors[d].value].neighbors[Opposite(d)] == Some(c)
    ensures cs[c].neighbors[d].value != c
  {
    assert CellShaped(|cs|, cs[c]);
    NeighborsDistinct(cs, c, d, d);
    LinksOf(cs, c);
  }

  // ---------------------------------------------------------------------------
  // The single edits, each keeping the map editable

  /** A new value for a decoration field of `c` (colour, walls, urban, farm or plant level). */
  function Decorated(cs: seq<Cell>, c: nat, x: Cell): (r: seq<Cell>)
    requires Editable(cs) && c < |cs| && SameUndecorated(x, cs[c])
    ensures Editable(r) && SameLinks(r, cs)
  {
    DecoratedKeeps(cs, c, x);
    SameLinksEditable(cs[c := x], cs);
    cs[c := x]
  }

  /** The Elevation setter on an editable map. */
  function Elevated(cs: seq<Cell>, c: nat, v: int): (r: seq<Cell>)
    requires Editable(cs) && c < |cs|
    ensures Editable(r) && SameLinks(r, cs)
  {
    var raised := WithElevation(cs, c, v);
    ElevationChangedSpec(cs, c, v);
    EdgesWithinFrame(ElevationChanged(cs, c, v), raised);
    SameLinksTrans(ElevationChanged(cs, c, v), raised, cs);
    SameLinksEditable(ElevationChanged(cs, c, v), cs);
    ElevationChanged(cs, c, v)
  }

  /** The WaterLevel setter on an editable map. */
  function Watered(cs: seq<Cell>, c: nat, v: int): (r: seq<Cell>)
    requires Editable(cs) && c < |cs|
    ensures Editable(r) && SameLinks(r, cs)
  {
    var wet := WithWaterLevel(cs, c, v);
    WaterLevelChangedSpec(cs, c, v);
    EdgesWithinFrame(WaterLevelChanged(cs, c, v), wet);
    SameLinksTrans(WaterLevelChanged(cs, c, v), wet, cs);
    SameLinksEditable(WaterLevelChanged(cs, c, v), cs);
    WaterLevelChanged(cs, c, v)
  }

  /** RemoveRiver on an editable map. */
  function Unrivered(cs: seq<Cell>, c: nat): (r: seq<Cell>)
    requires Editable(cs) && c < |cs|
    ensures Editable(r) && SameLinks(r, cs)
  {
    RiverRemovedSpec(cs, c);
    EdgesWithinFrame(RiverRemoved(cs, c), cs);
    SameLinksEditable(RiverRemoved(cs, c), cs);
    RiverRemoved(cs, c)
  }

  /** RemoveRoads on an editable map. */
  function Unroaded(cs: seq<Cell>, c: nat): (r: seq<Cell>)
    requires Editable(cs) && c < |cs|
    ensures Editable(r) && SameLinks(r, cs)
  {
    RoadsRemovedKeeps(cs, c);
    SameLinksEditable(RoadsRemoved(cs, c, 6), cs);
    RoadsRemoved(cs, c, 6)
  }

  /** SetOutgoinRiver on an editable map. */
  function Rivered(cs: seq<Cell>, c: nat, d: HexDirection): (r: seq<Cell>)
    requires Editable(cs) && c < |cs|
    ensures Editable(r) && SameLinks(r, cs)
  {
    ChunksReady(cs, c);
    RiverSetSpec(cs, c, d);
    SameLinksEditable(RiverSet(cs, c, d), cs);
    RiverSet(cs, c, d)
  }

  /** AddRoad on an editable map. */
  function Roaded(cs: seq<Cell>, c: nat, d: HexDirection): (r: seq<Cell>)
    requires Editable(cs) && c < |cs| && cs[c].neighbors[d].Some?
    ensures Editable(r) && SameLinks(r, cs)
  {
    ChunksReady(cs, c);
    RoadAddedSpec(cs, c, d);
    if CanAddRoad(cs, c, d) then
      WithRoadShape(cs, c, d, true);
      SameLinksEditable(RoadAdded(cs, c, d), cs);
      RoadAdded(cs, c, d)
    else
      cs
  }

  // ---------------------------------------------------------------------------
  // The steps of EditCell, in the order the source takes them

  function ColorStep(cs: seq<Cell>, s: Settings, c: nat): (r: seq<Cell>)
    requires Editable(cs) && c < |cs|
    ensures Editable(r) && SameLinks(r, cs)
  {
    if s.applyColor then Decorated(cs, c, cs[c].(color := s.activeColor)) else cs
  }

  function ElevationStep(cs: seq<Cell>, s: Settings, c: nat): (r: seq<Cell>)
    requires Editable(cs) && c < |cs|
    ensures Editable(r) && SameLinks(r, cs)
  {
    if s.applyElevation then Elevated(cs, c, s.activeElevation) else cs
  }

  function WaterStep(cs: seq<Cell>, s: Settings, c: nat): (r: seq<Cell>)
    requires Editable(cs) && c < |cs|
    ensures Editable(r) && SameLinks(r, cs)
  {
    if s.applyWaterLevel then Watered(cs, c, s.activeWaterLevel) else cs
  }

  function UrbanStep(cs: seq<Cell>, s: Settings, c: nat): (r: seq<Cell>)
    requires Editable(cs) && c < |cs|
    ensures Editable(r) && SameLinks(r, cs)
  {
    if s.applyUrbanLevel then Decorated(cs, c, cs[c].(urbanLevel := s.activeUrbanLevel)) else cs
  }

  function FarmStep(cs: seq<Cell>, s: Settings, c: nat): (r: seq<Cell>)
    requires Editable(cs) && c < |cs|
    ensures Editable(r) && SameLinks(r, cs)
  {
    if s.applyFarmLevel then Decorated(cs, c, cs[c].(farmLevel := s.activeFarmLevel)) else cs
  }

  function PlantStep(cs: seq<Cell>, s: Settings, c: nat): (r: seq<Cell>)
    requires Editable(cs) && c < |cs|
    ensures Editable(r) && SameLinks(r, cs)
  {
    if s.applyPlantLevel then Decorated(cs, c, cs[c].(plantLevel := s.activePlantLevel)) else cs
  }

  function RiverClearStep(cs: seq<Cell>, s: Settings, c: nat): (r: seq<Cell>)
    requires Editable(cs) && c < |cs|
    ensures Editable(r) && SameLinks(r, cs)
  {
    if s.riverMode == No then Unrivered(cs, c) else cs
  }

  function RoadClearStep(cs: seq<Cell>, s: Settings, c: nat): (r: seq<Cell>)
    requires Editable(cs) && c < |cs|
    ensures Editable(r) && SameLinks(r, cs)
  {
    if s.roadMode == No then Unroaded(cs, c) else cs
  }

  function WalledStep(cs: seq<Cell>, s: Settings, c: nat): (r: seq<Cell>)
    requires Editable(cs) && c < |cs|
    ensures Editable(r) && SameLinks(r, cs)
  {
    if s.walledMode != Ignore then Decorated(cs, c, cs[c].(walled := s.walledMode == Yes)) else cs
  }

  /** The cell a drag came from: the neighbour of `c` opposite the drag direction. */
  function DragSource(cs: seq<Cell>, s: Settings, c: nat): Option<nat>
    requires Shaped(cs) && c < |cs| && DragReady(s)
  {
    assert CellShaped(|cs|, cs[c]);
    if s.isDrag then cs[c].neighbors[Opposite(s.dragDirection)] else None
  }

  function DragRiverStep(cs: seq<Cell>, s: Settings, c: nat): (r: seq<Cell>)
    requires Editable(cs) && c < |cs| && DragReady(s)
    ensures Editable(r) && SameLinks(r, cs)
  {
    var other := DragSource(cs, s, c);
    if other.Some? && s.riverMode == Yes then
      BackLink(cs, c, Opposite(s.dragDirection));
      Rivered(cs, other.value, s.dragDirection)
    else
      cs
  }

  function DragRoadStep(cs: seq<Cell>, s: Settings, c: nat): (r: seq<Cell>)
    requires Editable(cs) && c < |cs| && DragReady(s)
    ensures Editable(r) && SameLinks(r, cs)
  {
    var other := DragSource(cs, s, c);
    if other.Some? && s.roadMode == Yes then
      BackLink(cs, c, Opposite(s.dragDirection));
      OppositeOpposite(s.dragDirection);
      Roaded(cs, other.value, s.dragDirection)
    else
      cs
  }

  /** The attribute edits: colour, elevation, water level, urban, farm and plant level. */
  function Painted(cs: seq<Cell>, s: Settings, c: nat): (r: seq<Cell>)
    requires Editable(cs) && c < |cs|
    ensures Editable(r) && SameLinks(r, cs)
  {
    var s1 := ColorStep(cs, s, c);
    var s2 := ElevationStep(s1, s, c);
    var s3 := WaterStep(s2, s, c);
    var s4 := UrbanStep(s3, s, c);
    var s5 := FarmStep(s4, s, c);
    SameLinksTrans(s2, s1, cs);
    SameLinksTrans(s3, s2, cs);
    SameLinksTrans(s4, s3, cs);
    SameLinksTrans(s5, s4, cs);
    SameLinksTrans(PlantStep(s5, s, c), s5, cs);
    PlantStep(s5, s, c)
  }

  /** The river, road and wall modes, applied to the cell itself. */
  function Cleared(cs: seq<Cell>, s: Settings, c: nat): (r: seq<Cell>)
    requires Editable(cs) && c < |cs|
    ensures Editable(r) && SameLinks(r, cs)
  {
    var s1 := RiverClearStep(cs, s, c);
    var s2 := RoadClearStep(s1, s, c);
    SameLinksTrans(s2, s1, cs);
    SameLinksTrans(WalledStep(s2, s, c), s2, cs);
    WalledStep(s2, s, c)
  }

  /** The map when EditCell reaches the drag: every edit of the cell itself is done. */
  function Prepared(cs: seq<Cell>, s: Settings, c: nat): (r: seq<Cell>)
    requires Editable(cs) && c < |cs|
    ensures Editable(r) && SameLinks(r, cs)
  {
    SameLinksTrans(Cleared(Painted(cs, s, c), s, c), Painted(cs, s, c), cs);
    Cleared(Painted(cs, s, c), s, c)
  }

  /** The drag: a river, then a road, from the previous cell into `c`. */
  function Dragged(cs: seq<Cell>, s: Settings, c: nat): (r: seq<Cell>)
    requires Editable(cs) && c < |cs| && DragReady(s)
    ensures Editable(r) && SameLinks(r, cs)
  {
    SameLinksTrans(DragRoadStep(DragRiverStep(cs, s, c), s, c), DragRiverStep(cs, s, c), cs);
    DragRoadStep(DragRiverStep(cs, s, c), s, c)
  }

  /** EditCell: nothing without a cell, else every step in order. */
  function Edited(cs: seq<Cell>, s: Settings, cell: Option<nat>): (r: seq<Cell>)
    requires Editable(cs) && DragReady(s) && (cell.Some? ==> cell.value < |cs|)
    ensures Editable(r) && SameLinks(r, cs)
  {
    if cell.None? then
      cs
    else
      SameLinksTrans(Dragged(Prepared(cs, s, cell.value), s, cell.value), Prepared(cs, s, cell.value), cs);
      Dragged(Prepared(cs, s, cell.value), s, cell.value)
  }

  /** EditCell on each coordinate in turn, each looked up in a grid of `countX` by `countZ` cells. */
  function EditedAll(countX: nat, countZ: nat, cs: seq<Cell>, s: Settings, cos: seq<HexCoordinates>): (r: seq<Cell>)
    requires Editable(cs) && DragReady(s) && |cs| == countX * countZ
    ensures Editable(r) && SameLinks(r, cs)
    decreases |cos|, 1
  {
    if |cos| == 0 then cs else EditedLast(countX, countZ, cs, s, cos)
  }

  /** EditCell on the last coordinate of a non-empty `cos`, after the coordinates before it. */
  function EditedLast(countX: nat, countZ: nat, cs: seq<Cell>, s: Settings, cos: seq<HexCoordinates>): (r: seq<Cell>)
    requires Editable(cs) && DragReady(s) && |cs| == countX * countZ && |cos| > 0
    ensures Editable(r) && SameLinks(r, cs)
    decreases |cos|, 0
  {
    var p := EditedAll(countX, countZ, cs, s, cos[..|cos| - 1]);
    var r := Edited(p, s, GetCellIndex(countX, countZ, cos[|cos| - 1]));
    SameLinksTrans(r, p, cs);
    r
  }

  lemma EditedAllSnoc(countX: nat, countZ: nat, cs: seq<Cell>, s: Settings, cos: seq<HexCoordinates>, co: HexCoordinates)
    requires Editable(cs) && DragReady(s) && |cs| == countX * countZ
    ensures var p := EditedAll(countX, countZ, cs, s, cos);
      |p| == countX * countZ &&
      EditedAll(countX, countZ, cs, s, cos + [co]) == Edited(p, s, GetCellIndex(countX, countZ, co))
  {
    assert (cos + [co])[..|cos|] == cos;
    assert EditedAll(countX, countZ, cs, s, cos + [co]) == EditedLast(countX, countZ, cs, s, cos + [co]);
  }

  /** Editing the coordinates of `a + b` is editing those of `a`, then those of `b`. */
  lemma {:induction false} EditedAllAppend(countX: nat, countZ: nat, cs: seq<Cell>, s: Settings,
                                           a: seq<HexCoordinates>, b: seq<HexCoordinates>)
    requires Editable(cs) && DragReady(s) && |cs| == countX * countZ
    ensures var p := EditedAll(countX, countZ, cs, s, a);
      |p| == countX * countZ &&
      EditedAll(countX, countZ, cs, s, a + b) == EditedAll(countX, countZ, p, s, b)
    decreases |b|
  {
    var p := EditedAll(countX, countZ, cs, s, a);
    if |b| == 0 {
      assert a + b == a;
    } else {
      var front := b[..|b| - 1];
      EditedAllAppend(countX, countZ, cs, s, a, front);
      assert (a + b)[..|a + b| - 1] == a + front;
      assert (a + b)[|a + b| - 1] == b[|b| - 1];
      assert EditedAll(countX, countZ, cs, s, a + b) == EditedLast(countX, countZ, cs, s, a + b);
      assert EditedAll(countX, countZ, p, s, b) == EditedLast(countX, countZ, p, s, b);
    }
  }

  // ---------------------------------------------------------------------------
  // The brush of EditCells

  /** The coordinates (lo, z) .. (hi, z), west to east; none when lo > hi. */
  function Span(z: int, lo: int, hi: int): (r: seq<HexCoordinates>)
    decreases hi - lo + 1
  {
    if hi < lo then [] else Span(z, lo, hi - 1) + [HexCoordinates(hi, z)]
  }

  /** The rows of the first loop of EditCells below `r`: row k is z = cz - size + k, x from cx - k to cx + size. */
  function LowerRows(cx: int, cz: int, size: int, r: nat): seq<HexCoordinates>
  {
    if r == 0 then [] else LowerRows(cx, cz, size, r - 1) + Span(cz - size + r - 1, cx - (r - 1), cx + size)
  }

  /** The rows of the second loop of EditCells below `r`: row k is z = cz + size - k, x from cx - size to cx + k. */
  function UpperRows(cx: int, cz: int, size: int, r: nat): seq<HexCoordinates>
  {
    if r == 0 then [] else UpperRows(cx, cz, size, r - 1) + Span(cz + size - (r - 1), cx - size, cx + (r - 1))
  }

  /** The coordinates EditCells visits, in order: size + 1 rows from the south up to the centre, then size rows from the north down. */
  function Brush(cx: int, cz: int, size: int): seq<HexCoordinates>
  {
    if size < 0 then [] else LowerRows(cx, cz, size, size + 1) + UpperRows(cx, cz, size, size)
  }

  /** The number of rows of the first loop of EditCells: none for a negative brush. */
  function LowerCount(size: int): nat
  {
    if size < 0 then 0 else size + 1
  }

  /** The number of rows of the second loop of EditCells. */
  function UpperCount(size: int): nat
  {
    if size < 0 then 0 else size
  }

  lemma LowerRowsStep(cx: int, cz: int, size: int, r: nat, z: int, visited: seq<HexCoordinates>)
    requires z == cz - size + r && visited == LowerRows(cx, cz, size, r)
    ensures visited + Span(z, cx - r, cx + size) == LowerRows(cx, cz, size, r + 1)
  {
  }

  lemma UpperRowsStep(cx: int, cz: int, size: int, r: nat, z: int, visited: seq<HexCoordinates>)
    requires z == cz + size - r && visited == UpperRows(cx, cz, size, r)
    ensures visited + Span(z, cx - size, cx + r) == UpperRows(cx, cz, size, r + 1)
  {
  }

  lemma BrushHalves(cx: int, cz: int, size: int)
    ensures Brush(cx, cz, size) == LowerRows(cx, cz, size, LowerCount(size)) + UpperRows(cx, cz, size, UpperCount(size))
  {
  }

  /** Span holds exactly the cells from column lo to column hi of row z. */
  lemma {:induction false} SpanMembers(z: int, lo: int, hi: int, co: HexCoordinates)
    ensures co in Span(z, lo, hi) <==> co.Z == z && lo <= co.X <= hi
    decreases hi - lo + 1
  {
    if hi >= lo {
      SpanMembers(z, lo, hi - 1, co);
    }
  }

  /** No coordinate occurs twice. */
  ghost predicate Distinct(s: seq<HexCoordinates>)
  {
    forall i, j | 0 <= i < j < |s| :: s[i] != s[j]
  }

  lemma DistinctAppend(a: seq<HexCoordinates>, b: seq<HexCoordinates>)
    requires Distinct(a) && Distinct(b)
    requires forall co | co in a :: co !in b
    ensures Distinct(a + b)
  {
    forall i, j | 0 <= i < j < |a + b| ensures (a + b)[i] != (a + b)[j] {
      if j < |a| {
        assert (a + b)[i] == a[i] && (a + b)[j] == a[j];
      } else if i >= |a| {
        assert (a + b)[i] == b[i - |a|] && (a + b)[j] == b[j - |a|];
      } else {
        assert (a + b)[i] == a[i] && a[i] in a;
        assert (a + b)[j] == b[j - |a|] && b[j - |a|] in b;
      }
    }
  }

  /** A row visits each of its hi - lo + 1 cells once. */
  lemma {:induction false} SpanDistinct(z: int, lo: int, hi: int)
    ensures Distinct(Span(z, lo, hi))
    ensures |Span(z, lo, hi)| == if hi < lo then 0 else hi - lo + 1
    decreases hi - lo + 1
  {
    if hi >= lo {
      SpanDistinct(z, lo, hi - 1);
      SpanMembers(z, lo, hi - 1, HexCoordinates(hi, z));
      DistinctAppend(Span(z, lo, hi - 1), [HexCoordinates(hi, z)]);
    }
  }

  /** The first r rows of the first loop: rows cz - size .. cz - size + r - 1, row z from cx - (z - (cz - size)) to cx + size. */
  lemma {:induction false} LowerRowsMembers(cx: int, cz: int, size: int, r: nat, co: HexCoordinates)
    ensures co in LowerRows(cx, cz, size, r) <==>
      cz - size <= co.Z < cz - size + r && cx - (co.Z - (cz - size)) <= co.X <= cx + size
  {
    if r > 0 {
      LowerRowsMembers(cx, cz, size, r - 1, co);
      SpanMembers(cz - size + r - 1, cx - (r - 1), cx + size, co);
    }
  }

  /** The first r rows of the second loop: rows cz + size down to cz + size - r + 1, row z from cx - size to cx + (cz + size - z). */
  lemma {:induction false} UpperRowsMembers(cx: int, cz: int, size: int, r: nat, co: HexCoordinates)
    ensures co in UpperRows(cx, cz, size, r) <==>
      cz + size - r < co.Z <= cz + size && cx - size <= co.X <= cx + (cz + size - co.Z)
  {
    if r > 0 {
      UpperRowsMembers(cx, cz, size, r - 1, co);
      SpanMembers(cz + size - (r - 1), cx - size, cx + (r - 1), co);
    }
  }

  /** The first loop visits each coordinate once; its r rows hold r * (2 * size + 1 + r) / 2 coordinates. */
  lemma {:induction false} LowerRowsDistinct(cx: int, cz: int, size: int, r: nat)
    requires size >= 0
    ensures Distinct(LowerRows(cx, cz, size, r))
    ensures 2 * |LowerRows(cx, cz, size, r)| == r * (2 * size + 1 + r)
  {
    if r > 0 {
      var a := LowerRows(cx, cz, size, r - 1);
      var b := Span(cz - size + r - 1, cx - (r - 1), cx + size);
      LowerRowsDistinct(cx, cz, size, r - 1);
      SpanDistinct(cz - size + r - 1, cx - (r - 1), cx + size);
      forall co | co in a ensures co !in b {
        LowerRowsMembers(cx, cz, size, r - 1, co);
        SpanMembers(cz - size + r - 1, cx - (r - 1), cx + size, co);
      }
      DistinctAppend(a, b);
      assert 2 * |b| == 2 * (size + r);
      assert r * (2 * size + 1 + r) == (r - 1) * (2 * size + 1 + (r - 1)) + 2 * (size + r);
    }
  }

  /** The second loop visits each coordinate once; its r rows hold r * (2 * size + 1 + r) / 2 coordinates. */
  lemma {:induction false} UpperRowsDistinct(cx: int, cz: int, size: int, r: nat)
    requires size >= 0
    ensures Distinct(UpperRows(cx, cz, size, r))
    ensures 2 * |UpperRows(cx, cz, size, r)| == r * (2 * size + 1 + r)
  {
    if r > 0 {
      var a := UpperRows(cx, cz, size, r - 1);
      var b := Span(cz + size - (r - 1), cx - size, cx + (r - 1));
      UpperRowsDistinct(cx, cz, size, r - 1);
      SpanDistinct(cz + size - (r - 1), cx - size, cx + (r - 1));
      forall co | co in a ensures co !in b {
        UpperRowsMembers(cx, cz, size, r - 1, co);
        SpanMembers(cz + size - (r - 1), cx - size, cx + (r - 1), co);
      }
      DistinctAppend(a, b);
      assert 2 * |b| == 2 * (size + r);
      assert r * (2 * size + 1 + r) == (r - 1) * (2 * size + 1 + (r - 1)) + 2 * (size + r);
    }
  }

  /** The coordinates of the brush, row by row: rows cz - size .. cz widen to the west, rows above cz narrow to the east. */
  lemma BrushMembers(cx: int, cz: int, size: int, co: HexCoordinates)
    ensures co in Brush(cx, cz, size) <==>
      size >= 0 &&
      ((cz - size <= co.Z <= cz && cx - (co.Z - (cz - size)) <= co.X <= cx + size) ||
       (cz < co.Z <= cz + size && cx - size <= co.X <= cx + (cz + size - co.Z)))
  {
    if size >= 0 {
      LowerRowsMembers(cx, cz, size, size + 1, co);
      UpperRowsMembers(cx, cz, size, size, co);
    }
  }

  /** The row condition of the brush, in offsets from the centre, is the hexagonal distance bound. */
  lemma DiscOffsets(dx: int, dz: int, size: int)
    requires size >= 0
    ensures (Abs(dx) + Abs(-dx - dz) + Abs(dz)) / 2 <= size <==>
      ((-size <= dz <= 0 && -(dz + size) <= dx <= size) || (0 < dz <= size && -size <= dx <= size - dz))
  {
  }

  /**
   * EditCells visits exactly the cells at most brushSize steps from the centre, each
   * once: 3 * size * (size + 1) + 1 coordinates for a brush of size `size`, none for
   * a negative size.
   */
  lemma BrushIsDisc(cx: int, cz: int, size: int)
    ensures forall co :: co in Brush(cx, cz, size) <==> HexDistance(co, HexCoordinates(cx, cz)) <= size
    ensures Distinct(Brush(cx, cz, size))
    ensures |Brush(cx, cz, size)| == if size < 0 then 0 else 3 * size * (size + 1) + 1
  {
    var center := HexCoordinates(cx, cz);
    forall co ensures co in Brush(cx, cz, size) <==> HexDistance(co, center) <= size {
      BrushMembers(cx, cz, size, co);
      if size >= 0 {
        DiscOffsets(co.X - cx, co.Z - cz, size);
        assert co.Y() - center.Y() == -(co.X - cx) - (co.Z - cz);
      }
    }
    if size >= 0 {
      var lower := LowerRows(cx, cz, size, size + 1);
      var upper := UpperRows(cx, cz, size, size);
      LowerRowsDistinct(cx, cz, size, size + 1);
      UpperRowsDistinct(cx, cz, size, size);
      forall co | co in lower ensures co !in upper {
        LowerRowsMembers(cx, cz, size, size + 1, co);
        UpperRowsMembers(cx, cz, size, size, co);
      }
      DistinctAppend(lower, upper);
      assert 2 * |Brush(cx, cz, size)| == (size + 1) * (2 * size + 2 + size) + size * (2 * size + 1 + size);
    }
  }

  /** A brush of size 0 is the centre alone. */
  lemma BrushOfSizeZero(cx: int, cz: int)
    ensures Brush(cx, cz, 0) == [HexCoordinates(cx, cz)]
  {
    BrushIsDisc(cx, cz, 0);
    var b := Brush(cx, cz, 0);
    assert HexCoordinates(cx, cz) in b by {
      assert HexDistance(HexCoordinates(cx, cz), HexCoordinates(cx, cz)) == 0;
    }
  }

  /** The rows the brush touches are exactly cz - size .. cz + size. */
  lemma BrushRows(cx: int, cz: int, size: int, z: int)
    ensures (exists co :: co in Brush(cx, cz, size) && co.Z == z) <==> size >= 0 && cz - size <= z <= cz + size
  {
    if size >= 0 && cz - size <= z <= cz + size {
      BrushMembers(cx, cz, size, HexCoordinates(cx, z));
    }
    forall co | co in Brush(cx, cz, size) ensures size >= 0 && cz - size <= co.Z <= cz + size {
      BrushMembers(cx, cz, size, co);
    }
  }

  // ---------------------------------------------------------------------------
  // The drag

  /**
   * Once ValidateDrag found the current cell across edge `d` of the previous one,
   * EditCell on the current cell finds the previous cell opposite `d`: the river
   * goes from the previous cell into the current one, and so does the road.
   */
  lemma DragFromPrevious(cs: seq<Cell>, s: Settings, previous: nat, current: nat)
    requires Editable(cs) && previous < |cs| && s.isDrag && s.dragDirection < 6
    requires cs[previous].neighbors[s.dragDirection] == Some(current)
    ensures current < |cs| && DragSource(cs, s, current) == Some(previous)
    ensures s.riverMode == Yes ==> DragRiverStep(cs, s, current) == RiverSet(cs, previous, s.dragDirection)
    ensures s.riverMode != Yes ==> DragRiverStep(cs, s, current) == cs
    ensures s.roadMode == Yes ==> DragRoadStep(cs, s, current) == RoadAdded(cs, previous, s.dragDirection)
  {
    assert CellShaped(|cs|, cs[previous]);
    assert LinkMirrored(cs, previous, s.dragDirection);
  }

  /** The wall mode: Ignore keeps the flag, Yes and No set it, and nothing but that flag changes. */
  lemma WalledStepSpec(cs: seq<Cell>, s: Settings, c: nat)
    requires Editable(cs) && c < |cs|
    ensures var r := WalledStep(cs, s, c);
      |r| == |cs| && r[c].walled == (if s.walledMode == Ignore then cs[c].walled else s.walledMode == Yes) &&
      r[c].(walled := cs[c].walled) == cs[c] && forall a | 0 <= a < |cs| && a != c :: r[a] == cs[a]
  {
  }

  // ---------------------------------------------------------------------------
  // The editor

  class HexMapEditor {
    const colors: seq<Color>
    const hexGrid: HexGrid
    var activeColor: Color
    var activeElevation: int
    var activeWaterLevel: int
    var activeFarmLevel: int
    var activePlantLevel: int
    var activeUrbanLevel: int
    var applyColor: bool
    var applyElevation: bool
    var applyWaterLevel: bool
    var applyUrbanLevel: bool
    var applyFarmLevel: bool
    var applyPlantLevel: bool
    var brushSize: int
    var riverMode: OptionalToggle
    var roadMode: OptionalToggle
    var walledMode: OptionalToggle
    var isDrag: bool
    /** A HexDirection, or 6 once ValidateDrag has tried every direction. */
    var dragDirection: nat
    var previousCell: Option<nat>

    /** The settings EditCell applies. */
    function CurrentSettings(): Settings
      reads this
    {
      Settings(applyColor, activeColor, applyElevation, activeElevation, applyWaterLevel, activeWaterLevel,
               applyUrbanLevel, activeUrbanLevel, applyFarmLevel, activeFarmLevel, applyPlantLevel, activePlantLevel,
               riverMode, roadMode, walledMode, isDrag, dragDirection)
    }

    ghost predicate Valid()
      reads this, hexGrid, hexGrid.graph
    {
      hexGrid.Valid() && DragReady(CurrentSettings())
    }

    /**
     * The field initialisers, then Awake's SelectColor(0): elevation and water level
     * are applied, colour 0 is active, everything else is off.
     */
    constructor (colors: seq<Color>, hexGrid: HexGrid)
      requires hexGrid.Valid() && |colors| > 0
      ensures Valid() && this.colors == colors && this.hexGrid == hexGrid
      ensures applyColor && activeColor == colors[0] && applyElevation && applyWaterLevel
      ensures !applyUrbanLevel && !applyFarmLevel && !applyPlantLevel
      ensures activeElevation == 0 && activeWaterLevel == 0 && activeUrbanLevel == 0
      ensures activeFarmLevel == 0 && activePlantLevel == 0 && brushSize == 0
      ensures riverMode == Ignore && roadMode == Ignore && walledMode == Ignore
      ensures !isDrag && previousCell.None?
    {
      this.colors := colors;
      this.hexGrid := hexGrid;
      activeColor := ClearColor;
      activeElevation := 0;
      activeWaterLevel := 0;
      activeFarmLevel := 0;
      activePlantLevel := 0;
      activeUrbanLevel := 0;
      applyColor := false;
      applyElevation := true;
      applyWaterLevel := true;
      applyUrbanLevel := false;
      applyFarmLevel := false;
      applyPlantLevel := false;
      brushSize := 0;
      riverMode := Ignore;
      roadMode := Ignore;
      walledMode := Ignore;
      isDrag := false;
      dragDirection := NE;
      previousCell := None;
      new;
      SelectColor(0);
    }

    /** SelectColor: colour is applied exactly when the index is not negative, and then it is that colour. */
    method SelectColor(index: int)
      requires Valid() && index < |colors|
      modifies this
      ensures Valid()
      ensures applyColor == (index >= 0)
      ensures activeColor == if index >= 0 then colors[index] else old(activeColor)
      ensures CurrentSettings() == old(CurrentSettings()).(applyColor := applyColor, activeColor := activeColor)
      ensures brushSize == old(brushSize) && previousCell == old(previousCell)
    {
      applyColor := index >= 0;
      if applyColor {
        activeColor := colors[index];
      }
    }

    /** The loop of ValidateDrag: the first direction from NE to NW whose neighbour is `current`, else one past NW. */
    static method DirectionTo(ns: seq<Option<nat>>, current: Option<nat>) returns (d: nat)
      requires |ns| == 6
      ensures d <= 6 && (d < 6 <==> exists e: HexDirection :: ns[e] == current)
      ensures d < 6 ==> ns[d] == current
      ensures forall e: HexDirection :: e < d ==> ns[e] != current
    {
      d := NE;
      while d < 6 && ns[d] != current
        invariant d <= 6
        invariant forall e: HexDirection :: e < d ==> ns[e] != current
      {
        d := d + 1;
      }
    }

    /**
     * ValidateDrag: try the directions NE to NW; a drag is the first direction in
     * which the previous cell's neighbour is `current`, and there is none when no
     * direction matches (the direction is then left one past NW).
     */
    method ValidateDrag(current: Option<nat>)
      requires Valid() && previousCell.Some? && previousCell.value < |hexGrid.graph.cells|
      modifies this
      ensures brushSize == old(brushSize) && previousCell == old(previousCell)
      ensures Valid()
      ensures var ns := hexGrid.graph.cells[previousCell.value].neighbors;
        (isDrag <==> exists d: HexDirection :: ns[d] == current) &&
        (isDrag ==> dragDirection < 6 && ns[dragDirection] == current &&
                    forall e: HexDirection :: e < dragDirection ==> ns[e] != current) &&
        (!isDrag ==> dragDirection == 6)
      ensures CurrentSettings() == old(CurrentSettings()).(isDrag := isDrag, dragDirection := dragDirection)
    {
      var ns := hexGrid.graph.cells[previousCell.value].neighbors;
      assert CellShaped(|hexGrid.graph.cells|, hexGrid.graph.cells[previousCell.value]);
      var d := DirectionTo(ns, current);
      dragDirection := d;
      isDrag := d < 6;
    }

    /**
     * EditCells: EditCell on the cell at every coordinate of the brush around the
     * centre, in the order of the two loops; coordinates outside the grid find no cell.
     */
    method EditCells(center: nat)
      requires Valid() && center < |hexGrid.graph.cells|
      modifies hexGrid.graph
      ensures Valid()
      ensures var co := old(hexGrid.graph.cells)[center].coordinates;
        hexGrid.graph.cells == EditedAll(hexGrid.cellCountX, hexGrid.cellCountZ, old(hexGrid.graph.cells),
                                         CurrentSettings(), Brush(co.X, co.Z, brushSize))
      ensures old(hexGrid.graph.dirty) <= hexGrid.graph.dirty
    {
      ghost var cs := hexGrid.graph.cells;
      GridEditable(hexGrid);
      var centerX := hexGrid.graph.cells[center].coordinates.X;
      var centerZ := hexGrid.graph.cells[center].coordinates.Z;
      EditLowerRows(cs, centerX, centerZ);
      ghost var lower := LowerRows(centerX, centerZ, brushSize, LowerCount(brushSize));
      ghost var upper := UpperRows(centerX, centerZ, brushSize, UpperCount(brushSize));
      EditedAllAppend(hexGrid.cellCountX, hexGrid.cellCountZ, cs, CurrentSettings(), lower, upper);
      EditUpperRows(hexGrid.graph.cells, centerX, centerZ);
      BrushHalves(centerX, centerZ, brushSize);
    }

    /** The first loop of EditCells: rows from centerZ - brushSize up to centerZ. */
    method EditLowerRows(ghost cs: seq<Cell>, centerX: int, centerZ: int)
      requires Valid() && Editable(cs) && |cs| == hexGrid.cellCountX * hexGrid.cellCountZ
      requires hexGrid.graph.cells == cs
      modifies hexGrid.graph
      ensures Valid()
      ensures hexGrid.graph.cells == EditedAll(hexGrid.cellCountX, hexGrid.cellCountZ, cs, CurrentSettings(),
                                               LowerRows(centerX, centerZ, brushSize, LowerCount(brushSize)))
      ensures old(hexGrid.graph.dirty) <= hexGrid.graph.dirty
    {
      ghost var w, h, st := hexGrid.cellCountX, hexGrid.cellCountZ, CurrentSettings();
      assert EditedAll(w, h, cs, st, LowerRows(centerX, centerZ, brushSize, 0)) == cs;
      var r := 0;
      var z := centerZ - brushSize;
      while z <= centerZ
        invariant Valid() && CurrentSettings() == st
        invariant z == centerZ - brushSize + r && (brushSize < 0 ==> r == 0) && (brushSize >= 0 ==> r <= brushSize + 1)
        invariant hexGrid.graph.cells == EditedAll(w, h, cs, st, LowerRows(centerX, centerZ, brushSize, r))
        invariant old(hexGrid.graph.dirty) <= hexGrid.graph.dirty
      {
        EditLowerRow(cs, r, z, centerX, centerZ);
        z := z + 1;
        r := r + 1;
      }
      assert r == LowerCount(brushSize);
    }

    /** One pass of the first loop of EditCells: row z, from x = centerX - r to centerX + brushSize. */
    method EditLowerRow(ghost cs: seq<Cell>, r: nat, z: int, centerX: int, centerZ: int)
      requires Valid() && Editable(cs) && |cs| == hexGrid.cellCountX * hexGrid.cellCountZ
      requires z == centerZ - brushSize + r && r <= brushSize + 1
      requires hexGrid.graph.cells == EditedAll(hexGrid.cellCountX, hexGrid.cellCountZ, cs, CurrentSettings(),
                                                LowerRows(centerX, centerZ, brushSize, r))
      modifies hexGrid.graph
      ensures Valid()
      ensures hexGrid.graph.cells == EditedAll(hexGrid.cellCountX, hexGrid.cellCountZ, cs, CurrentSettings(),
                                               LowerRows(centerX, centerZ, brushSize, r + 1))
      ensures old(hexGrid.graph.dirty) <= hexGrid.graph.dirty
    {
      ghost var visited := LowerRows(centerX, centerZ, brushSize, r);
      EditRow(cs, visited, z, centerX - r, centerX + brushSize);
      LowerRowsStep(centerX, centerZ, brushSize, r, z, visited);
    }

    /** The second loop of EditCells: rows from centerZ + brushSize down to centerZ + 1. */
    method EditUpperRows(ghost cs: seq<Cell>, centerX: int, centerZ: int)
      requires Valid() && Editable(cs) && |cs| == hexGrid.cellCountX * hexGrid.cellCountZ
      requires hexGrid.graph.cells == cs
      modifies hexGrid.graph
      ensures Valid()
      ensures hexGrid.graph.cells == EditedAll(hexGrid.cellCountX, hexGrid.cellCountZ, cs, CurrentSettings(),
                                               UpperRows(centerX, centerZ, brushSize, UpperCount(brushSize)))
      ensures old(hexGrid.graph.dirty) <= hexGrid.graph.dirty
    {
      ghost var w, h, st := hexGrid.cellCountX, hexGrid.cellCountZ, CurrentSettings();
      assert EditedAll(w, h, cs, st, UpperRows(centerX, centerZ, brushSize, 0)) == cs;
      var r := 0;
      var z := centerZ + brushSize;
      while z > centerZ
        invariant Valid() && CurrentSettings() == st
        invariant z == centerZ + brushSize - r && (brushSize >= 0 ==> r <= brushSize) && (brushSize < 0 ==> r == 0)
        invariant hexGrid.graph.cells == EditedAll(w, h, cs, st, UpperRows(centerX, centerZ, brushSize, r))
        invariant old(hexGrid.graph.dirty) <= hexGrid.graph.dirty
      {
        EditUpperRow(cs, r, z, centerX, centerZ);
        z := z - 1;
        r := r + 1;
      }
      assert r == UpperCount(brushSize);
    }

    /** One pass of the second loop of EditCells: row z, from x = centerX - brushSize to centerX + r. */
    method EditUpperRow(ghost cs: seq<Cell>, r: nat, z: int, centerX: int, centerZ: int)
      requires Valid() && Editable(cs) && |cs| == hexGrid.cellCountX * hexGrid.cellCountZ
      requires z == centerZ + brushSize - r && r < brushSize
      requires hexGrid.graph.cells == EditedAll(hexGrid.cellCountX, hexGrid.cellCountZ, cs, CurrentSettings(),
                                                UpperRows(centerX, centerZ, brushSize, r))
      modifies hexGrid.graph
      ensures Valid()
      ensures hexGrid.graph.cells == EditedAll(hexGrid.cellCountX, hexGrid.cellCountZ, cs, CurrentSettings(),
                                               UpperRows(centerX, centerZ, brushSize, r + 1))
      ensures old(hexGrid.graph.dirty) <= hexGrid.graph.dirty
    {
      ghost var visited := UpperRows(centerX, centerZ, brushSize, r);
      EditRow(cs, visited, z, centerX - brushSize, centerX + r);
      UpperRowsStep(centerX, centerZ, brushSize, r, z, visited);
    }

    /** An inner loop of EditCells: EditCell on the cells at (lo, z) .. (hi, z), west to east. */
    method EditRow(ghost cs: seq<Cell>, ghost done: seq<HexCoordinates>, z: int, lo: int, hi: int)
      requires Valid() && Editable(cs) && |cs| == hexGrid.cellCountX * hexGrid.cellCountZ && lo <= hi + 1
      requires hexGrid.graph.cells == EditedAll(hexGrid.cellCountX, hexGrid.cellCountZ, cs, CurrentSettings(), done)
      modifies hexGrid.graph
      ensures Valid()
      ensures hexGrid.graph.cells ==
        EditedAll(hexGrid.cellCountX, hexGrid.cellCountZ, cs, CurrentSettings(), done + Span(z, lo, hi))
      ensures old(hexGrid.graph.dirty) <= hexGrid.graph.dirty
    {
      var x := lo;
      assert done + Span(z, lo, x - 1) == done;
      while x <= hi
        invariant Valid() && lo <= x <= hi + 1
        invariant hexGrid.graph.cells ==
          EditedAll(hexGrid.cellCountX, hexGrid.cellCountZ, cs, CurrentSettings(), done + Span(z, lo, x - 1))
        invariant old(hexGrid.graph.dirty) <= hexGrid.graph.dirty
      {
        EditAt(cs, done + Span(z, lo, x - 1), HexCoordinates(x, z));
        assert Span(z, lo, x) == Span(z, lo, x - 1) + [HexCoordinates(x, z)];
        assert done + Span(z, lo, x) == done + Span(z, lo, x - 1) + [HexCoordinates(x, z)];
        x := x + 1;
      }
    }

    /** One pass of an inner loop of EditCells: EditCell on the cell at `co`, if there is one. */
    method EditAt(ghost cs: seq<Cell>, ghost done: seq<HexCoordinates>, co: HexCoordinates)
      requires Valid() && Editable(cs) && |cs| == hexGrid.cellCountX * hexGrid.cellCountZ
      requires hexGrid.graph.cells == EditedAll(hexGrid.cellCountX, hexGrid.cellCountZ, cs, CurrentSettings(), done)
      modifies hexGrid.graph
      ensures Valid()
      ensures hexGrid.graph.cells == EditedAll(hexGrid.cellCountX, hexGrid.cellCountZ, cs, CurrentSettings(), done + [co])
      ensures old(hexGrid.graph.dirty) <= hexGrid.graph.dirty
    {
      var cell := hexGrid.GetCell(co);
      EditFound(cs, done, co, cell);
    }

    /** The second half of EditAt: `cell` is what the grid holds at `co`. */
    method EditFound(ghost cs: seq<Cell>, ghost done: seq<HexCoordinates>, ghost co: HexCoordinates, cell: Option<nat>)
      requires Valid() && Editable(cs) && |cs| == hexGrid.cellCountX * hexGrid.cellCountZ
      requires hexGrid.graph.cells == EditedAll(hexGrid.cellCountX, hexGrid.cellCountZ, cs, CurrentSettings(), done)
      requires cell == GetCellIndex(hexGrid.cellCountX, hexGrid.cellCountZ, co)
      requires cell.Some? ==> cell.value < |hexGrid.graph.cells|
      modifies hexGrid.graph
      ensures Valid()
      ensures hexGrid.graph.cells == EditedAll(hexGrid.cellCountX, hexGrid.cellCountZ, cs, CurrentSettings(), done + [co])
      ensures old(hexGrid.graph.dirty) <= hexGrid.graph.dirty
    {
      EditedAllSnoc(hexGrid.cellCountX, hexGrid.cellCountZ, cs, CurrentSettings(), done, co);
      EditCell(cell);
    }

    /** EditCell: nothing without a cell; else every setting in the source's order, then the drag. */
    method EditCell(cell: Option<nat>)
      requires Valid() && (cell.Some? ==> cell.value < |hexGrid.graph.cells|)
      modifies hexGrid.graph
      ensures Valid()
      ensures hexGrid.graph.cells == Edited(old(hexGrid.graph.cells), CurrentSettings(), cell)
      ensures old(hexGrid.graph.dirty) <= hexGrid.graph.dirty
      ensures cell.None? ==> hexGrid.graph.cells == old(hexGrid.graph.cells) && hexGrid.graph.dirty == old(hexGrid.graph.dirty)
    {
      GridEditable(hexGrid);
      if cell.None? {
        return;
      }
      var c := cell.value;
      ghost var cs := hexGrid.graph.cells;
      Paint(c);
      ApplyModes(c);
      ApplyDrag(c);
      LaidKeeps(hexGrid.cellCountX, hexGrid.cellCountZ, hexGrid.chunkCountX, hexGrid.chunkSizeX, hexGrid.chunkSizeZ,
                hexGrid.graph.cells, cs);
    }

    /** The attribute edits of EditCell, each under its apply flag. */
    method Paint(c: nat)
      requires Editable(hexGrid.graph.cells) && c < |hexGrid.graph.cells|
      modifies hexGrid.graph
      ensures hexGrid.graph.cells == Painted(old(hexGrid.graph.cells), CurrentSettings(), c)
      ensures old(hexGrid.graph.dirty) <= hexGrid.graph.dirty
    {
      ApplyColor(c);
      ApplyElevation(c);
      ApplyWaterLevel(c);
      ApplyUrbanLevel(c);
      ApplyFarmLevel(c);
      ApplyPlantLevel(c);
    }

    /** The river, road and wall modes of EditCell, on the cell itself. */
    method ApplyModes(c: nat)
      requires Editable(hexGrid.graph.cells) && c < |hexGrid.graph.cells|
      modifies hexGrid.graph
      ensures hexGrid.graph.cells == Cleared(old(hexGrid.graph.cells), CurrentSettings(), c)
      ensures old(hexGrid.graph.dirty) <= hexGrid.graph.dirty
    {
      ApplyRiverMode(c);
      ApplyRoadMode(c);
      ApplyWalledMode(c);
    }

    /** The drag of EditCell: a river, then a road, from the neighbour opposite the drag direction. */
    method ApplyDrag(c: nat)
      requires Editable(hexGrid.graph.cells) && c < |hexGrid.graph.cells| && DragReady(CurrentSettings())
      modifies hexGrid.graph
      ensures hexGrid.graph.cells == Dragged(old(hexGrid.graph.cells), CurrentSettings(), c)
      ensures old(hexGrid.graph.dirty) <= hexGrid.graph.dirty
    {
      ApplyDragRiver(c);
      ApplyDragRoad(c);
    }

    method ApplyColor(c: nat)
      requires Editable(hexGrid.graph.cells) && c < |hexGrid.graph.cells|
      modifies hexGrid.graph
      ensures hexGrid.graph.cells == ColorStep(old(hexGrid.graph.cells), CurrentSettings(), c)
      ensures old(hexGrid.graph.dirty) <= hexGrid.graph.dirty
    {
      if applyColor {
        ChunksReady(hexGrid.graph.cells, c);
        hexGrid.graph.SetColor(c, activeColor);
      }
    }

    method ApplyElevation(c: nat)
      requires Editable(hexGrid.graph.cells) && c < |hexGrid.graph.cells|
      modifies hexGrid.graph
      ensures hexGrid.graph.cells == ElevationStep(old(hexGrid.graph.cells), CurrentSettings(), c)
      ensures old(hexGrid.graph.dirty) <= hexGrid.graph.dirty
    {
      if applyElevation {
        ChunksReady(hexGrid.graph.cells, c);
        hexGrid.graph.SetElevation(c, activeElevation);
      }
    }

    method ApplyWaterLevel(c: nat)
      requires Editable(hexGrid.graph.cells) && c < |hexGrid.graph.cells|
      modifies hexGrid.graph
      ensures hexGrid.graph.cells == WaterStep(old(hexGrid.graph.cells), CurrentSettings(), c)
      ensures old(hexGrid.graph.dirty) <= hexGrid.graph.dirty
    {
      if applyWaterLevel {
        ChunksReady(hexGrid.graph.cells, c);
        hexGrid.graph.SetWaterLevel(c, activeWaterLevel);
      }
    }

    method ApplyUrbanLevel(c: nat)
      requires Editable(hexGrid.graph.cells) && c < |hexGrid.graph.cells|
      modifies hexGrid.graph
      ensures hexGrid.graph.cells == UrbanStep(old(hexGrid.graph.cells), CurrentSettings(), c)
      ensures old(hexGrid.graph.dirty) <= hexGrid.graph.dirty
    {
      if applyUrbanLevel {
        ChunksReady(hexGrid.graph.cells, c);
        hexGrid.graph.SetUrbanLevel(c, activeUrbanLevel);
      }
    }

    method ApplyFarmLevel(c: nat)
      requires Editable(hexGrid.graph.cells) && c < |hexGrid.graph.cells|
      modifies hexGrid.graph
      ensures hexGrid.graph.cells == FarmStep(old(hexGrid.graph.cells), CurrentSettings(), c)
      ensures old(hexGrid.graph.dirty) <= hexGrid.graph.dirty
    {
      if applyFarmLevel {
        ChunksReady(hexGrid.graph.cells, c);
        hexGrid.graph.SetFarmLevel(c, activeFarmLevel);
      }
    }

    method ApplyPlantLevel(c: nat)
      requires Editable(hexGrid.graph.cells) && c < |hexGrid.graph.cells|
      modifies hexGrid.graph
      ensures hexGrid.graph.cells == PlantStep(old(hexGrid.graph.cells), CurrentSettings(), c)
      ensures old(hexGrid.graph.dirty) <= hexGrid.graph.dirty
    {
      if applyPlantLevel {
        ChunksReady(hexGrid.graph.cells, c);
        hexGrid.graph.SetPlantLevel(c, activePlantLevel);
      }
    }

    method ApplyRiverMode(c: nat)
      requires Editable(hexGrid.graph.cells) && c < |hexGrid.graph.cells|
      modifies hexGrid.graph
      ensures hexGrid.graph.cells == RiverClearStep(old(hexGrid.graph.cells), CurrentSettings(), c)
      ensures old(hexGrid.graph.dirty) <= hexGrid.graph.dirty
    {
      if riverMode == No {
        hexGrid.graph.RemoveRiver(c);
      }
    }

    method ApplyRoadMode(c: nat)
      requires Editable(hexGrid.graph.cells) && c < |hexGrid.graph.cells|
      modifies hexGrid.graph
      ensures hexGrid.graph.cells == RoadClearStep(old(hexGrid.graph.cells), CurrentSettings(), c)
      ensures old(hexGrid.graph.dirty) <= hexGrid.graph.dirty
    {
      if roadMode == No {
        hexGrid.graph.RemoveRoads(c);
      }
    }

    method ApplyWalledMode(c: nat)
      requires Editable(hexGrid.graph.cells) && c < |hexGrid.graph.cells|
      modifies hexGrid.graph
      ensures hexGrid.graph.cells == WalledStep(old(hexGrid.graph.cells), CurrentSettings(), c)
      ensures old(hexGrid.graph.dirty) <= hexGrid.graph.dirty
    {
      if walledMode != Ignore {
        ChunksReady(hexGrid.graph.cells, c);
        hexGrid.graph.SetWalled(c, walledMode == Yes);
      }
    }

    method ApplyDragRiver(c: nat)
      requires Editable(hexGrid.graph.cells) && c < |hexGrid.graph.cells| && DragReady(CurrentSettings())
      modifies hexGrid.graph
      ensures hexGrid.graph.cells == DragRiverStep(old(hexGrid.graph.cells), CurrentSettings(), c)
      ensures old(hexGrid.graph.dirty) <= hexGrid.graph.dirty
    {
      if isDrag {
        assert CellShaped(|hexGrid.graph.cells|, hexGrid.graph.cells[c]);
        var otherCell := hexGrid.graph.cells[c].neighbors[Opposite(dragDirection)];
        if otherCell.Some? && riverMode == Yes {
          BackLink(hexGrid.graph.cells, c, Opposite(dragDirection));
          ChunksReady(hexGrid.graph.cells, otherCell.value);
          hexGrid.graph.SetOutgoingRiver(otherCell.value, dragDirection);
        }
      }
    }

    method ApplyDragRoad(c: nat)
      requires Editable(hexGrid.graph.cells) && c < |hexGrid.graph.cells| && DragReady(CurrentSettings())
      modifies hexGrid.graph
      ensures hexGrid.graph.cells == DragRoadStep(old(hexGrid.graph.cells), CurrentSettings(), c)
      ensures old(hexGrid.graph.dirty) <= hexGrid.graph.dirty
    {
      if isDrag {
        assert CellShaped(|hexGrid.graph.cells|, hexGrid.graph.cells[c]);
        var otherCell := hexGrid.graph.cells[c].neighbors[Opposite(dragDirection)];
        if otherCell.Some? && roadMode == Yes {
          BackLink(hexGrid.graph.cells, c, Opposite(dragDirection));
          OppositeOpposite(dragDirection);
          ChunksReady(hexGrid.graph.cells, otherCell.value);
          hexGrid.graph.AddRoad(otherCell.value, dragDirection);
        }
      }
    }
  }

  /** A built grid is editable. */
  lemma GridEditable(g: HexGrid)
    requires g.Valid()
    ensures Editable(g.graph.cells) && |g.graph.cells| == g.cellCountX * g.cellCountZ
  {
    forall a | 0 <= a < |g.graph.cells| ensures g.graph.cells[a].chunk.Some? {
      LaidChunked(g.cellCountX, g.cellCountZ, g.chunkCountX, g.chunkSizeX, g.chunkSizeZ, g.graph.cells, a);
    }
  }
}
