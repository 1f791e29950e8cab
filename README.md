# Hex map editing core, modelled in Dafny

This project models the editing core of a hexagonal terrain map (a Unity
project in C#):

- **`HexCell`**: the state of one tile (elevation, water level, urban, farm
  and plant level, walls, colour, six neighbour links, six road bits, an
  incoming and an outgoing river) and its guarded setters. A setter given the
  current value does nothing. Otherwise it applies the value, repairs the map
  and marks chunks dirty. Rivers that no longer run downhill or into water are
  retracted (`ValidateRivers`), roads steeper than one elevation step are
  dropped, rivers and roads never share an edge, and both ends of every edge
  stay mirrored.
- **`HexGrid`**: row-major creation of the cells, neighbour wiring by row
  parity, assignment of each cell to a chunk by tiling, and the bounds-checked
  `GetCell(HexCoordinates)` lookup.
- **`HexMapEditor`**: the brush (`EditCells`), drag detection (`ValidateDrag`),
  the fixed order of edits in `EditCell`, and `SelectColor`.

The cells of a map are records (`CellState.Cell`) in a sequence indexed like
the grid's cell array. A neighbour link is the index of the other cell, and a
chunk is an id. `HexCells.CellGraph` is the mutable owner of that sequence and
of the set of dirty chunk ids. Its methods are the setters of `HexCell` and
take the index of the cell they act on. Each method is proved against a
function on the sequence (`ElevationChanged`, `RiverSet`, `RoadAdded`, …).
Lemmas beside each function prove the invariant `Consistent` and the source's
promises about it:

- links are symmetric and follow the hex geometry;
- roads and rivers are mirrored on both ends of an edge;
- roads and rivers exclude each other;
- no road climbs more than one step;
- every river runs downhill or into water;
- no edge carries a river both ways;
- a cell without a chunk has no river or road.

`HexGridChunk.Refresh` is modelled as adding the chunk's id to the dirty set.

Modules: `HexMetrics` (directions, `Opposite`, C# division), `Coordinates`
(axial coordinates), `CellState` (the cell record and the invariants),
`CellEdits` (the setters as functions on the map, with their lemmas),
`HexCells` (dirty chunks and the `CellGraph` class), `GridLayout` (index and
chunk arithmetic), `Grid` (the `HexGrid` class), `Editor` (the `HexMapEditor`
class and the brush).

Two facts about the code that its shape does not make obvious:

- The two loops of `EditCells` visit every cell at most `brushSize` steps from
  the centre, each once, `3·s·(s+1)+1` of them (`Editor.BrushIsDisc`).
- `Refresh` marks the cell's own chunk and the chunk of every neighbour whose
  chunk differs from it (`HexCells.RefreshedChunksSpec`). A cell at a chunk
  corner can therefore mark up to four chunks.

## Model

| member | source | states |
|---|---|---|
| `HexMetrics.Opposite` | Assets/HexCell.cs:38 | the opposite direction differs from `d`, and taking the opposite again gives `d` back |
| `Coordinates.FromOffsetCoordinates` | Assets/HexGrid.cs:85 | offset (x, z) becomes axial coordinates whose Z is z and whose X plus C#'s `Z/2` gives back x |
| `CellState.NewCell` | Assets/HexCell.cs:10-31 | a freshly instantiated cell has six empty neighbour slots, no road, no river and no chunk |
| `CellState.GetElevationDifference` | Assets/HexCell.cs:201-205 | the difference is a nat; it is 0 iff both elevations are equal, and at most 1 iff the neighbour is within one step |
| `CellState.Cell.RiverBeginOrEndDirection` | Assets/HexCell.cs:207 | a river crosses the returned edge; when a river only begins or only ends here, it is the only edge a river crosses |
| `CellState.RiverBeginOrEndSpec` | Assets/HexCell.cs:105-109 | `HasRiver` iff some edge carries a river; `HasRiverBeginOrEnd` iff exactly one edge does |
| `CellEdits.WithRoadFacts` | Assets/HexCell.cs:293-299 | SetRoad sets `roads[d]` on the cell and `roads[opposite(d)]` on the neighbour, which links back; nothing else changes |
| `CellEdits.RoadAddedSpec` | Assets/HexCell.cs:193-199 | AddRoad keeps all invariants; the edge has a road afterwards iff it had one, or no river crosses it and the step is at most 1; both ends agree; nothing changes when the condition fails |
| `CellEdits.ValidatedFacts` | Assets/HexCell.cs:324-334 | ValidateRivers keeps the outgoing river iff its destination is valid, and the incoming river iff this cell is a valid destination for its source; roads and other rivers are untouched |
| `CellEdits.ValidatedSpec` | Assets/HexCell.cs:322-334 | when every river away from the cell runs downhill or into water, after ValidateRivers every river of the map does; roads are untouched |
| `CellEdits.SteepRoadsRemovedSpec` | Assets/HexCell.cs:64-70 | the elevation setter's loop keeps exactly the roads of the cell whose elevation difference is at most 1, and changes nothing else |
| `CellEdits.RoadsRemovedSpec` | Assets/HexCell.cs:182-191 | RemoveRoads' loop over the first n directions removes exactly those roads of the cell and changes nothing away from it |
| `CellEdits.RoadsRemovedKeeps` | Assets/HexCell.cs:182-191 | RemoveRoads keeps all invariants and leaves no road on either end of any edge of the cell |
| `CellEdits.ElevationChangedSpec` | Assets/HexCell.cs:41-74 | the elevation setter keeps all invariants; it keeps exactly the rivers of the cell still legal at the new elevation and the roads at most one step steep; it removes nothing away from the cell |
| `CellEdits.WaterLevelChangedSpec` | Assets/HexCell.cs:209-223 | the water setter keeps all invariants and all roads; only an outgoing river that became illegal is retracted |
| `CellEdits.OutgoingRemovedKeeps` | Assets/HexCell.cs:111-123 | RemoveOutgoingRiver keeps all invariants; it clears this cell's outgoing flag and the target's incoming flag; nothing else changes |
| `CellEdits.IncomingRemovedKeeps` | Assets/HexCell.cs:125-137 | RemoveIncomingRiver keeps all invariants; it clears this cell's incoming flag and the source's outgoing flag; nothing else changes |
| `CellEdits.RiverRemovedSpec` | Assets/HexCell.cs:139-143 | RemoveRiver clears both river flags of the cell; other cells lose only the far ends of those rivers; no rule that held about roads or rivers is broken |
| `CellEdits.RiverSetSpec` | Assets/HexCell.cs:145-172 | SetOutgoinRiver changes nothing when the river already flows toward d, or when the neighbour is missing or higher and not at the water level; otherwise the cell flows toward d, the neighbour receives from opposite(d), the road on that edge is gone on both sides, and all invariants hold |
| `CellEdits.RiverSetIdempotent` | Assets/HexCell.cs:147-150 | a second SetOutgoinRiver toward the same edge changes nothing |
| `CellEdits.UnderwaterAfterWaterLevel` | Assets/HexCell.cs:225 | after setting the water level to v, the cell is underwater iff v exceeds its elevation |
| `CellEdits.UnderwaterAfterElevation` | Assets/HexCell.cs:225 | after setting the elevation to v, the cell is underwater iff its water level exceeds v |
| `HexCells.NeighborChunksSpec` | Assets/HexCell.cs:306-313 | the neighbour loop of Refresh marks exactly the neighbours' chunks that differ from the cell's own |
| `HexCells.RefreshedChunksSpec` | Assets/HexCell.cs:301-315 | Refresh marks nothing without a chunk; otherwise it marks exactly the cell's own chunk and every neighbour's chunk |
| `HexCells.RemovalChunksRefreshed` | Assets/HexCell.cs:111-137 | the chunks a river removal marks are among those a Refresh of the cell would mark |
| `HexCells.RemovableInCore` | Assets/HexCell.cs:117-122 | in a consistent map, a river or road has a neighbour and chunks at both ends, so no removal dereferences null |
| `HexCells.Linking` | Assets/HexCell.cs:35-39 | SetNeighbor points slot d of the cell at the other cell and slot opposite(d) of the other cell back |
| `HexCells.LinkingSpec` | Assets/HexCell.cs:35-39 | SetNeighbor changes those two slots and nothing else |
| `HexCells.LinkingKeeps` | Assets/HexCell.cs:35-39 | linking two empty slots of adjacent cells keeps all invariants |
| `HexCells.CellGraph.SetNeighbor` | Assets/HexCell.cs:35-39 | the new link table is the symmetric `Linking` of the old one; no chunk is marked; linking two free slots of adjacent cells keeps the invariant |
| `HexCells.CellGraph.RefreshSelfOnly` | Assets/HexCell.cs:317-320 | only the cell's own chunk is added to the dirty set |
| `HexCells.CellGraph.Refresh` | Assets/HexCell.cs:301-315 | the dirty set grows by exactly the chunks of `RefreshedChunks`; the loop's invariant tracks the directions done |
| `HexCells.CellGraph.SetRoad` | Assets/HexCell.cs:293-299 | the road bit is mirrored on both ends, and the chunks of both ends are marked |
| `HexCells.CellGraph.RemoveOutgoingRiver` | Assets/HexCell.cs:111-123 | the map becomes `OutgoingRemoved`: without an outgoing river nothing changes, otherwise both ends are cleared; the chunks of both ends are marked; the invariant is kept |
| `HexCells.CellGraph.RemoveIncomingRiver` | Assets/HexCell.cs:125-137 | the map becomes `IncomingRemoved`: without an incoming river nothing changes, otherwise both ends are cleared; the chunks of both ends are marked; the invariant is kept |
| `HexCells.CellGraph.RemoveRiver` | Assets/HexCell.cs:139-143 | the incoming river is removed, then the outgoing one; the chunks of both removals are marked |
| `HexCells.CellGraph.ValidateRivers` | Assets/HexCell.cs:324-334 | the map becomes `Validated` of the old one; the marked chunks are among those Refresh would mark |
| `HexCells.CellGraph.SetElevation` | Assets/HexCell.cs:41-74 | an equal value changes nothing and marks nothing; otherwise the map becomes `ElevationChanged`, invariants are kept and exactly the chunks of Refresh are marked |
| `HexCells.CellGraph.SetWaterLevel` | Assets/HexCell.cs:209-223 | an equal value changes nothing and marks nothing; otherwise the map becomes `WaterLevelChanged` and exactly the chunks of Refresh are marked |
| `HexCells.CellGraph.SetColor` | Assets/HexCell.cs:76-89 | an equal colour marks nothing; otherwise only the colour changes and the chunks of Refresh are marked |
| `HexCells.CellGraph.SetWalled` | Assets/HexCell.cs:277-291 | an equal flag marks nothing; otherwise only the flag changes and the chunks of Refresh are marked |
| `HexCells.CellGraph.SetUrbanLevel` | Assets/HexCell.cs:229-243 | an equal level marks nothing; otherwise only the level changes and only the cell's own chunk is marked |
| `HexCells.CellGraph.SetFarmLevel` | Assets/HexCell.cs:245-259 | an equal level marks nothing; otherwise only the level changes and only the cell's own chunk is marked |
| `HexCells.CellGraph.SetPlantLevel` | Assets/HexCell.cs:261-275 | an equal level marks nothing; otherwise only the level changes and only the cell's own chunk is marked |
| `HexCells.CellGraph.AddRoad` | Assets/HexCell.cs:193-199 | the map becomes `RoadAdded`; both ends' chunks are marked only when the road is added |
| `HexCells.CellGraph.RemoveRoads` | Assets/HexCell.cs:182-191 | the map becomes `RoadsRemoved`, the loop's result; the chunks of every removed road are marked |
| `HexCells.CellGraph.SetOutgoingRiver` | Assets/HexCell.cs:145-172 | the map becomes `RiverSet`; nothing is marked on a no-op; otherwise at least both chunks of the edge are marked, and only chunks that a Refresh of either end would mark |
| `GridLayout.RowStartProduct` | Assets/HexGrid.cs:58-64 | the counter `i` of CreateCells' loops is `z * cellCountX` at the start of row z |
| `GridLayout.RowMajorBound` | Assets/HexGrid.cs:155 | for x in [0, w) and z in [0, h), the index `x + z*w` lies in [0, w*h) |
| `GridLayout.GetCellIndex` | Assets/HexGrid.cs:143-156 | a cell is found iff Z is in [0, cellCountZ) and `X + Z/2` is in [0, cellCountX); a found index is below `cellCountX*cellCountZ` |
| `GridLayout.OffsetIndex` | Assets/HexGrid.cs:54-65 | GetCell finds the cell created at offset (x, z) at index `x + z*cellCountX` |
| `GridLayout.IndexOffset` | Assets/HexGrid.cs:54-65 | every index of the cell array is found from the coordinates of its offset position |
| `GridLayout.IndexInjective` | Assets/HexGrid.cs:143-156 | two coordinates that find the same cell are equal |
| `GridLayout.WestNeighbor` | Assets/HexGrid.cs:88-91 | the W neighbour of the cell at index i is i-1 when x > 0, and none otherwise |
| `GridLayout.SouthEastNeighbor` | Assets/HexGrid.cs:92-110 | SE is none on row 0; on an even row it is `i-cellCountX`; on an odd row it is `i-cellCountX+1`, and none in the last column |
| `GridLayout.SouthWestNeighbor` | Assets/HexGrid.cs:92-110 | SW is none on row 0; on an even row it is `i-cellCountX-1`, and none in the first column; on an odd row it is `i-cellCountX` |
| `GridLayout.ForwardNeighbors` | Assets/HexGrid.cs:88-110 | the E, NE and NW neighbours come later in the array, which is why CreateCell only links W, SE and SW |
| `GridLayout.ChunkIndexQuotients` | Assets/HexGrid.cs:125-127 | the chunk index is `x/chunkSizeX + (z/chunkSizeZ)*chunkCountX` |
| `GridLayout.ChunkTiling` | Assets/HexGrid.cs:123-133 | the chunk index lies in [0, chunkCountX*chunkCountZ) and the local index in [0, chunkSizeX*chunkSizeZ) |
| `GridLayout.ChunkSlotsDistinct` | Assets/HexGrid.cs:123-133 | two cells never get the same chunk and the same local index |
| `Grid.CreatedNeighbor` | Assets/HexGrid.cs:88-110 | a link made while the first n cells exist leads to the adjacent created cell; once all cells exist, it is GetCell of the adjacent coordinates |
| `Grid.WiredConsistent` | Assets/HexGrid.cs:88-110 | cells linked as CreateCell links them satisfy every invariant: the links are mirrored and follow the geometry |
| `Grid.LinkedBackBuilt` | Assets/HexGrid.cs:88-110 | after the W/SE/SW links of a new cell, every cell is linked to exactly the adjacent created cells |
| `Grid.CreatedBuilt` | Assets/HexGrid.cs:76-121 | CreateCell adds the cell at offset (x, z); every cell stays at its index, wired, flat, dry, bare, of the default colour and in its chunk |
| `Grid.WiredComplete` | Assets/HexGrid.cs:54-65 | once all cells exist, each is linked to every adjacent cell inside the grid |
| `Grid.NotIndexed` | Assets/HexGrid.cs:143-156 | coordinates GetCell rejects belong to no cell |
| `Grid.LaidChunked` | Assets/HexGrid.cs:123-133 | in a built grid every cell and every neighbour has a chunk, so no refresh fails |
| `Grid.HexGrid.constructor` | Assets/HexGrid.cs:28-38 | the grid has `chunkCount*chunkSize` cells per axis, all built and pristine; no chunk is dirty |
| `Grid.HexGrid.CreateCells` | Assets/HexGrid.cs:54-65 | the nested loops create every cell at its row-major index, wired to the adjacent cells and in its chunk; every cell is pristine and no chunk is dirty |
| `Grid.HexGrid.CreateCell` | Assets/HexGrid.cs:76-121 | the cells become `Created` of the old cells, and the grid stays built |
| `Grid.HexGrid.LinkWest` | Assets/HexGrid.cs:88-91 | the new cell is linked W to the one before it unless it starts its row |
| `Grid.HexGrid.LinkBelow` | Assets/HexGrid.cs:92-110 | the new cell is linked SE and SW to the row below, by the parity of its row |
| `Grid.HexGrid.AddCellToChunk` | Assets/HexGrid.cs:123-133 | returns the chunk index and local index, both in bounds; the cell joins that chunk |
| `Grid.HexGrid.GetCell` | Assets/HexGrid.cs:143-156 | returns `GetCellIndex`; a found cell has those coordinates; when none is found, no cell has them |
| `Editor.HexMapEditor.constructor` | Assets/HexMapEditor.cs:13-40 | the field initialisers and Awake's SelectColor(0): colour 0, elevation and water applied, everything else off |
| `Editor.HexMapEditor.SelectColor` | Assets/HexMapEditor.cs:172-179 | colour is applied iff the index is not negative, and is then `colors[index]`; a negative index keeps the old active colour |
| `Editor.HexMapEditor.DirectionTo` | Assets/HexMapEditor.cs:81-88 | the first direction whose neighbour is the current cell, or 6 iff there is none |
| `Editor.HexMapEditor.ValidateDrag` | Assets/HexMapEditor.cs:79-90 | `isDrag` iff the current cell is one of the previous cell's six neighbours; `dragDirection` is then the first such direction |
| `Editor.HexMapEditor.EditCells` | Assets/HexMapEditor.cs:92-112 | the map becomes EditCell applied in turn to each coordinate of `Brush(centre, brushSize)` |
| `Editor.HexMapEditor.EditLowerRows` | Assets/HexMapEditor.cs:97-103 | the first loop applies EditCell to the rows `centerZ-brushSize .. centerZ` |
| `Editor.HexMapEditor.EditUpperRows` | Assets/HexMapEditor.cs:105-111 | the second loop applies EditCell to the rows `centerZ+brushSize` down to `centerZ+1` |
| `Editor.HexMapEditor.EditCell` | Assets/HexMapEditor.cs:114-170 | the map becomes `Edited`; a missing cell changes nothing and marks nothing |
| `Editor.HexMapEditor.ApplyWalledMode` | Assets/HexMapEditor.cs:150-153 | the map becomes `WalledStep` |
| `Editor.HexMapEditor.ApplyDragRiver` | Assets/HexMapEditor.cs:154-162 | on a drag in river mode Yes, SetOutgoinRiver(dragDirection) runs on the neighbour opposite the drag direction |
| `Editor.HexMapEditor.ApplyDragRoad` | Assets/HexMapEditor.cs:163-168 | on a drag in road mode Yes, AddRoad(dragDirection) runs on the neighbour opposite the drag direction |
| `Editor.ChunksReady` | Assets/HexCell.cs:301-320 | in a map that meets the editor's invariant, the edited cell has a chunk and so does every neighbour, so neither Refresh nor RefreshSelfOnly fails |
| `Editor.Edited` | Assets/HexMapEditor.cs:114-170 | EditCell's edits, in the source's order, keep the map consistent and every cell chunked |
| `Editor.WalledStepSpec` | Assets/HexMapEditor.cs:150-153 | with mode Ignore `walled` is unchanged; otherwise it becomes `walledMode == Yes`; nothing else changes |
| `Editor.DragFromPrevious` | Assets/HexMapEditor.cs:154-168 | after ValidateDrag, the drag source of the current cell is the previous cell; the river and the road go from it toward `dragDirection` |
| `Editor.EditedAllAppend` | Assets/HexMapEditor.cs:92-112 | editing the coordinates of `a + b` is editing those of `a`, then those of `b`, so the two loops of EditCells compose |
| `Editor.SpanMembers` | Assets/HexMapEditor.cs:99-102 | an inner loop visits exactly the coordinates of its row with X from lo to hi |
| `Editor.LowerRowsMembers` | Assets/HexMapEditor.cs:97-103 | after r passes, the first loop has visited rows `centerZ-brushSize+k` for k < r, row k from `centerX-k` to `centerX+brushSize` |
| `Editor.UpperRowsMembers` | Assets/HexMapEditor.cs:105-111 | after r passes, the second loop has visited rows `centerZ+brushSize-k` for k < r, row k from `centerX-brushSize` to `centerX+k` |
| `Editor.LowerRowsDistinct` | Assets/HexMapEditor.cs:97-103 | the first loop visits no coordinate twice, and r rows hold `r(2s+1+r)/2` coordinates |
| `Editor.UpperRowsDistinct` | Assets/HexMapEditor.cs:105-111 | the second loop visits no coordinate twice, and r rows hold `r(2s+1+r)/2` coordinates |
| `Editor.BrushMembers` | Assets/HexMapEditor.cs:92-112 | the coordinates EditCells visits, described row by row |
| `Editor.BrushIsDisc` | Assets/HexMapEditor.cs:92-112 | EditCells visits exactly the coordinates within `brushSize` hex steps of the centre, each once, `3s(s+1)+1` in all; none for a negative size |
| `Editor.BrushOfSizeZero` | Assets/HexMapEditor.cs:97-111 | with brushSize 0 only the centre is visited, once |
| `Editor.BrushRows` | Assets/HexMapEditor.cs:97-111 | the rows visited are exactly `centerZ-brushSize .. centerZ+brushSize` |

## Left out

- Vertical placement in the Elevation setter is not modelled. That covers the noise sample, the `elevationStep` scaling and the label's z. They are floating point and come from `HexMetrics`, which is not part of this model.
- `StreamBedY`, `RiverSurfaceY`, `WaterSurfaceY`, `Position` and `GetEdgeType` are left out. They are float geometry, or depend on `HexMetrics` constants that are not part of this model.
- `HexGrid.GetCell(Vector3)` is left out. It rounds a world position through `HexCoordinates.FromPosition`, which is floating point and not part of this model.
- Cell world positions, label instantiation, `Awake`/`OnEnable` noise and hash setup, `ShowUI` and `CreateChunks` are left out. They are engine instantiation and UI. A chunk is its index in the chunk array, so the array itself is not kept.
- `HexGridChunk` is not part of this model. `Refresh` adds the chunk's id to `CellGraph.dirty`. `AddCell` records the chunk in the cell, and the local slot is only returned.
- The chunk sizes come from `HexMetrics`, which is not part of this model. They are constructor parameters, required to be positive.
- `HexMapEditor.Update`, `HandleInput` and the float-to-int UI setters are left out. They handle mouse input, raycasting and UI wiring. The editor's fields are set directly.
- `HexMapCamera` and `HexFeatureCollection` are left out. They are float camera motion and engine prefab picking.
- A colour is an opaque code compared only for equality.
- Cells are records in a sequence addressed by index, not objects. Neighbour links, the drag's previous cell and GetCell's result are indices, and `null` is `None`.
- Integers are unbounded. In C#, `GetElevationDifference` overflows only when elevations differ by 2^31 or more. That needs the `int.MinValue` sentinel of a cell that has never had its elevation set. In a built grid, CreateCell sets every elevation to 0 before any road or river can exist.
- Each crash in the source becomes a `requires` clause:
  - a null chunk in `RefreshSelfOnly` (Assets/HexCell.cs:319);
  - a null neighbour chunk in `Refresh` (Assets/HexCell.cs:309-311). This is `HexCells.RefreshSafe`, required by `CellGraph.Refresh` and, when the value changes, by `SetElevation`, `SetWaterLevel`, `SetColor` and `SetWalled`;
  - a null neighbour in `SetRoad` or `GetElevationDifference`;
  - `index < |colors|` in `SelectColor`, for the out-of-range `colors[index]` (Assets/HexMapEditor.cs:177);
  - `|colors| > 0` in the editor's constructor, for Awake's `SelectColor(0)` (Assets/HexMapEditor.cs:39);
  - `previousCell.Some?` in `ValidateDrag`, for `previuosCell.GetNeighbor` (Assets/HexMapEditor.cs:83).

  Three lemmas show that no call from a built grid or from the editor fails the map-side clauses. `Grid.LaidChunked` proves that every cell of a built grid has a chunk and satisfies `RefreshSafe`. `Editor.ChunksReady` proves the same for every cell of a map that meets the editor's invariant `Editable`. `HexCells.RemovableInCore` proves that every river and road of a consistent map has a neighbour and chunks at both ends.
- `ValidateDrag`'s loop over the enum leaves `dragDirection` one past NW, i.e. 6, when no neighbour matches. The field is therefore a `nat`, and it is a direction whenever `isDrag` holds.
- HexCells.CellGraph.ValidateRivers: bounds the dirty set, from the old set to the old set plus the chunks of a Refresh, instead of naming it exactly. Each removal's chunks are named by RemoveOutgoingRiver and RemoveIncomingRiver.
- HexCells.CellGraph.SetOutgoingRiver: bounds the dirty set from below by both chunks of the edge, and from above by what a Refresh of either end marks. The exact set depends on which old rivers existed.
- Editor.HexMapEditor.EditCell: states the new map exactly, but only that the dirty set grows.
- Editor.HexMapEditor.EditCells: states the new map exactly, but only that the dirty set grows.
- Editor.HexMapEditor.EditLowerRows: states the new map exactly, but only that the dirty set grows. It is built from EditCell, which makes the same promise.
- Editor.HexMapEditor.EditUpperRows: states the new map exactly, but only that the dirty set grows. It is built from EditCell, which makes the same promise.
