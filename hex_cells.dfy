/**
 * HexCell as the editor drives it: one object per map that holds every cell
 * record and the set of chunks marked for a redraw. Each setter of HexCell is a
 * method taking the index of the cell it is called on; each method is proved to
 * compute the value-level edit of CellEdits, whose properties are proved there.
 */
module HexCells {
  import opened HexMetrics
  import opened Coordinates
  import opened CellState
  import opened CellEdits

  // ---------------------------------------------------------------------------
  // Chunks marked dirty

  /** Refresh dereferences the chunk of every neighbour of a cell that has a chunk. */
  ghost predicate RefreshSafe(cs: seq<Cell>, c: nat)
    requires Shaped(cs) && c < |cs|
  {
    cs[c].chunk.Some? ==>
      forall d: HexDirection :: cs[c].neighbors[d].Some? ==> cs[cs[c].neighbors[d].value].chunk.Some?
  }

  /** The chunks the neighbour loop of Refresh marks over the directions below `n`: those other than the cell's own. */
  ghost function NeighborChunks(cs: seq<Cell>, c: nat, n: nat): set<nat>
    requires Shaped(cs) && c < |cs| && n <= 6
  {
    if n == 0 then
      {}
    else
      var m := cs[c].neighbors[n - 1];
      if m.Some? && cs[m.value].chunk.Some? && cs[m.value].chunk != cs[c].chunk then
        NeighborChunks(cs, c, n - 1) + {cs[m.value].chunk.value}
      else
        NeighborChunks(cs, c, n - 1)
  }

  lemma {:induction false} NeighborChunksSpec(cs: seq<Cell>, c: nat, n: nat, k: nat)
    requires Shaped(cs) && c < |cs| && n <= 6
    ensures k in NeighborChunks(cs, c, n) <==>
      cs[c].chunk != Some(k) &&
      exists d: HexDirection | d < n :: cs[c].neighbors[d].Some? && cs[cs[c].neighbors[d].value].chunk == Some(k)
  {
    if n > 0 {
      NeighborChunksSpec(cs, c, n - 1, k);
      var m := cs[c].neighbors[n - 1];
      if m.Some? && cs[m.value].chunk == Some(k) {
        assert cs[c].neighbors[n - 1].Some? && cs[cs[c].neighbors[n - 1].value].chunk == Some(k);
      }
    }
  }

  /** The chunks Refresh marks: none without a chunk, else the own chunk and the differing chunks of the neighbours. */
  ghost function RefreshedChunks(cs: seq<Cell>, c: nat): set<nat>
    requires Shaped(cs) && c < |cs|
  {
    if cs[c].chunk.None? then {} else {cs[c].chunk.value} + NeighborChunks(cs, c, 6)
  }

  /** Refresh marks the own chunk and the chunk of every neighbour: the test against the own chunk drops nothing. */
  lemma RefreshedChunksSpec(cs: seq<Cell>, c: nat, k: nat)
    requires Shaped(cs) && c < |cs|
    ensures k in RefreshedChunks(cs, c) <==>
      cs[c].chunk.Some? &&
      (cs[c].chunk == Some(k) ||
       exists d: HexDirection :: cs[c].neighbors[d].Some? && cs[cs[c].neighbors[d].value].chunk == Some(k))
  {
    NeighborChunksSpec(cs, c, 6, k);
  }

  /** The chunk of a neighbour is among those Refresh marks. */
  lemma NeighborRefreshed(cs: seq<Cell>, c: nat, d: HexDirection)
    requires Shaped(cs) && c < |cs| && cs[c].chunk.Some? && cs[c].neighbors[d].Some?
    requires cs[cs[c].neighbors[d].value].chunk.Some?
    ensures cs[c].chunk.value in RefreshedChunks(cs, c)
    ensures cs[cs[c].neighbors[d].value].chunk.value in RefreshedChunks(cs, c)
  {
    RefreshedChunksSpec(cs, c, cs[cs[c].neighbors[d].value].chunk.value);
  }

  /** What Refresh marks depends on the links and chunks only. */
  lemma RefreshedChunksLinks(x: seq<Cell>, y: seq<Cell>, c: nat)
    requires Shaped(x) && Shaped(y) && SameLinks(x, y) && c < |y|
    ensures RefreshedChunks(x, c) == RefreshedChunks(y, c)
    ensures RefreshSafe(x, c) <==> RefreshSafe(y, c)
  {
    forall k ensures k in RefreshedChunks(x, c) <==> k in RefreshedChunks(y, c) {
      RefreshedChunksSpec(x, c, k);
      RefreshedChunksSpec(y, c, k);
    }
  }

  /** RemoveOutgoingRiver dereferences the chunks at both ends of the river. */
  ghost predicate OutgoingRemovable(cs: seq<Cell>, c: nat)
    requires Shaped(cs) && c < |cs|
  {
    cs[c].hasOutgoingRiver ==>
      cs[c].chunk.Some? && cs[c].neighbors[cs[c].outgoingRiver].Some? &&
      cs[cs[c].neighbors[cs[c].outgoingRiver].value].chunk.Some?
  }

  /** RemoveIncomingRiver dereferences the chunks at both ends of the river. */
  ghost predicate IncomingRemovable(cs: seq<Cell>, c: nat)
    requires Shaped(cs) && c < |cs|
  {
    cs[c].hasIncomingRiver ==>
      cs[c].chunk.Some? && cs[c].neighbors[cs[c].incomingRiver].Some? &&
      cs[cs[c].neighbors[cs[c].incomingRiver].value].chunk.Some?
  }

  /** The chunk of cell `a`, as a set: empty when it has none. */
  ghost function ChunkOf(cs: seq<Cell>, a: nat): set<nat>
    requires a < |cs|
  {
    if cs[a].chunk.Some? then {cs[a].chunk.value} else {}
  }

  /** The chunks RemoveOutgoingRiver marks: those of both ends of the river, if there is one. */
  ghost function OutgoingRemovalChunks(cs: seq<Cell>, c: nat): set<nat>
    requires Shaped(cs) && c < |cs|
  {
    var n := cs[c].neighbors[cs[c].outgoingRiver];
    if cs[c].hasOutgoingRiver then ChunkOf(cs, c) + (if n.Some? then ChunkOf(cs, n.value) else {}) else {}
  }

  /** The chunks RemoveIncomingRiver marks: those of both ends of the river, if there is one. */
  ghost function IncomingRemovalChunks(cs: seq<Cell>, c: nat): set<nat>
    requires Shaped(cs) && c < |cs|
  {
    var n := cs[c].neighbors[cs[c].incomingRiver];
    if cs[c].hasIncomingRiver then ChunkOf(cs, c) + (if n.Some? then ChunkOf(cs, n.value) else {}) else {}
  }

  /** The chunks SetRoad marks: those of both ends of the edge. */
  ghost function RoadChunks(cs: seq<Cell>, c: nat, d: HexDirection): set<nat>
    requires Shaped(cs) && c < |cs| && cs[c].neighbors[d].Some?
    requires cs[c].chunk.Some? && cs[cs[c].neighbors[d].value].chunk.Some?
  {
    {cs[c].chunk.value, cs[cs[c].neighbors[d].value].chunk.value}
  }

  /** A river removal marks no chunk that a Refresh of the same cell would not. */
  lemma RemovalChunksRefreshed(cs: seq<Cell>, c: nat)
    requires Shaped(cs) && c < |cs|
    ensures OutgoingRemovable(cs, c) ==> OutgoingRemovalChunks(cs, c) <= RefreshedChunks(cs, c)
    ensures IncomingRemovable(cs, c) ==> IncomingRemovalChunks(cs, c) <= RefreshedChunks(cs, c)
  {
    if OutgoingRemovable(cs, c) && cs[c].hasOutgoingRiver {
      NeighborRefreshed(cs, c, cs[c].outgoingRiver);
    }
    if IncomingRemovable(cs, c) && cs[c].hasIncomingRiver {
      NeighborRefreshed(cs, c, cs[c].incomingRiver);
    }
  }

  /**
   * In a map that keeps the invariants no river or road removal dereferences a null
   * chunk or neighbour: a cell with a river or road has a chunk, and so has the
   * cell at the other end.
   */
  lemma RemovableInCore(cs: seq<Cell>, c: nat)
    requires Core(cs) && c < |cs|
    ensures OutgoingRemovable(cs, c) && IncomingRemovable(cs, c)
    ensures forall d: HexDirection :: cs[c].roads[d] ==>
      cs[c].neighbors[d].Some? && cs[c].chunk.Some? && cs[cs[c].neighbors[d].value].chunk.Some?
  {
    assert OutgoingMirrored(cs, c) && IncomingMirrored(cs, c);
    if cs[c].HasRiver() {
      assert !Bare(cs[c]);
    }
    if cs[c].hasOutgoingRiver {
      assert !Bare(cs[cs[c].neighbors[cs[c].outgoingRiver].value]);
    }
    if cs[c].hasIncomingRiver {
      assert !Bare(cs[cs[c].neighbors[cs[c].incomingRiver].value]);
    }
    forall d: HexDirection | cs[c].roads[d]
      ensures cs[c].neighbors[d].Some? && cs[c].chunk.Some? && cs[cs[c].neighbors[d].value].chunk.Some?
    {
      assert !Bare(cs[c]) && RoadMirrored(cs, c, d);
      assert !Bare(cs[cs[c].neighbors[d].value]);
    }
  }

  /** A road of a cell with a chunk: SetRoad on it marks chunks a Refresh of the cell marks too. */
  lemma RoadChunksRefreshed(cs: seq<Cell>, c: nat, d: HexDirection)
    requires Shaped(cs) && c < |cs| && cs[c].neighbors[d].Some?
    requires cs[c].chunk.Some? && cs[cs[c].neighbors[d].value].chunk.Some?
    ensures RoadChunks(cs, c, d) <= RefreshedChunks(cs, c)
  {
    NeighborRefreshed(cs, c, d);
  }

  // ---------------------------------------------------------------------------
  // Growing the map while the grid is built

  /**
   * `r` arises from `cs` by appending bare cells, filling empty neighbour slots
   * and giving cells chunks: every existing link, river, road, height and chunk stays.
   */
  ghost predicate Extends(r: seq<Cell>, cs: seq<Cell>)
    requires Shaped(cs) && Shaped(r)
  {
    |cs| <= |r| &&
    (forall a | 0 <= a < |cs| ::
      r[a] == cs[a].(neighbors := r[a].neighbors, chunk := r[a].chunk) && (r[a].chunk.None? ==> cs[a].chunk.None?)) &&
    (forall a, e: HexDirection | 0 <= a < |cs| && cs[a].neighbors[e].Some? :: r[a].neighbors[e] == cs[a].neighbors[e]) &&
    (forall a | |cs| <= a < |r| :: Bare(r[a]))
  }

  lemma ExtendsRoadAt(r: seq<Cell>, cs: seq<Cell>, a: nat, e: HexDirection)
    requires Consistent(cs) && Shaped(r) && Extends(r, cs) && a < |r| && r[a].roads[e]
    ensures RoadMirrored(r, a, e)
    ensures !r[a].HasRiverThroughEdge(e) && RoadLevel(r, a, e)
  {
    if a >= |cs| {
      assert false;
    }
    assert RoadMirrored(cs, a, e);
    assert r[a] == cs[a].(neighbors := r[a].neighbors, chunk := r[a].chunk);
    assert RoadLevel(cs, a, e);
    var x := cs[a].neighbors[e].value;
    assert r[x] == cs[x].(neighbors := r[x].neighbors, chunk := r[x].chunk);
  }

  lemma ExtendsRiverAt(r: seq<Cell>, cs: seq<Cell>, a: nat)
    requires Consistent(cs) && Shaped(r) && Extends(r, cs) && a < |r|
    ensures OutgoingMirrored(r, a) && IncomingMirrored(r, a) && RiverLegal(r, a)
    ensures !(r[a].hasIncomingRiver && r[a].hasOutgoingRiver && r[a].incomingRiver == r[a].outgoingRiver)
    ensures r[a].chunk.None? ==> Bare(r[a])
  {
    if a < |cs| {
      assert r[a] == cs[a].(neighbors := r[a].neighbors, chunk := r[a].chunk);
      assert OutgoingMirrored(cs, a) && IncomingMirrored(cs, a) && RiverLegal(cs, a);
      assert forall e: HexDirection :: r[a].roads[e] == cs[a].roads[e];
      if r[a].hasOutgoingRiver {
        var x := cs[a].neighbors[cs[a].outgoingRiver].value;
        assert r[x] == cs[x].(neighbors := r[x].neighbors, chunk := r[x].chunk);
      }
      if r[a].hasIncomingRiver {
        var x := cs[a].neighbors[cs[a].incomingRiver].value;
        assert r[x] == cs[x].(neighbors := r[x].neighbors, chunk := r[x].chunk);
      }
    } else {
      assert Bare(r[a]);
    }
  }

  /** Appending bare cells and filling empty slots keeps every invariant, provided the links stay symmetric and geometric. */
  lemma ExtendsKeeps(r: seq<Cell>, cs: seq<Cell>)
    requires Consistent(cs) && Shaped(r) && Linked(r) && Extends(r, cs)
    ensures Consistent(r)
  {
    forall a, e: HexDirection | 0 <= a < |r| ensures RoadMirrored(r, a, e) && RoadLevel(r, a, e) {
      if r[a].roads[e] {
        ExtendsRoadAt(r, cs, a, e);
      }
    }
    forall a, e: HexDirection | 0 <= a < |r| && r[a].roads[e] ensures !r[a].HasRiverThroughEdge(e) {
      ExtendsRoadAt(r, cs, a, e);
    }
    forall a | 0 <= a < |r|
      ensures OutgoingMirrored(r, a) && IncomingMirrored(r, a) && RiverLegal(r, a)
      ensures !(r[a].hasIncomingRiver && r[a].hasOutgoingRiver && r[a].incomingRiver == r[a].outgoingRiver)
      ensures r[a].chunk.None? ==> Bare(r[a])
    {
      ExtendsRiverAt(r, cs, a);
    }
  }

  /** SetNeighbor: slot `d` of `c` points to `b`, and the opposite slot of `b` points back to `c`. */
  function Linking(cs: seq<Cell>, c: nat, d: HexDirection, b: nat): (r: seq<Cell>)
    requires Shaped(cs) && c < |cs| && b < |cs|
    ensures Shaped(r) && |r| == |cs|
    ensures r[c].neighbors[d] == Some(b) && r[b].neighbors[Opposite(d)] == Some(c)
  {
    var s1 := cs[c := cs[c].(neighbors := cs[c].neighbors[d := Some(b)])];
    s1[b := s1[b].(neighbors := s1[b].neighbors[Opposite(d) := Some(c)])]
  }

  /** SetNeighbor changes the two slots it assigns and nothing else. */
  lemma LinkingSpec(cs: seq<Cell>, c: nat, d: HexDirection, b: nat)
    requires Shaped(cs) && c < |cs| && b < |cs|
    ensures var r := Linking(cs, c, d, b);
      (forall a | 0 <= a < |cs| :: r[a] == cs[a].(neighbors := r[a].neighbors)) &&
      forall a, e: HexDirection | 0 <= a < |cs| && !(a == c && e == d) && !(a == b && e == Opposite(d)) ::
        r[a].neighbors[e] == cs[a].neighbors[e]
  {
  }

  /**
   * SetNeighbor on two empty slots of cells one step apart keeps every invariant:
   * the new link is symmetric and leads to the adjacent coordinates.
   */
  lemma LinkingKeeps(cs: seq<Cell>, c: nat, d: HexDirection, b: nat)
    requires Consistent(cs) && c < |cs| && b < |cs|
    requires cs[c].neighbors[d].None? && cs[b].neighbors[Opposite(d)].None?
    requires cs[b].coordinates == Step(cs[c].coordinates, d)
    ensures Consistent(Linking(cs, c, d, b))
  {
    var r := Linking(cs, c, d, b);
    LinkingSpec(cs, c, d, b);
    OppositeOpposite(d);
    StepOpposite(cs[c].coordinates, d);
    forall a, e: HexDirection | 0 <= a < |r| ensures LinkMirrored(r, a, e) {
      if r[a].neighbors[e].Some? && !(a == c && e == d) && !(a == b && e == Opposite(d)) {
        var x := cs[a].neighbors[e].value;
        OppositeOpposite(e);
        LinksOf(cs, a);
        assert cs[x].neighbors[Opposite(e)] == Some(a);
      }
    }
    assert Linked(r);
    ExtendsKeeps(r, cs);
  }

  /** The cell the prefab instantiates, placed at `coordinates`. */
  function FreshCell(coordinates: HexCoordinates): (x: Cell)
    ensures CellShaped(0, x) && Bare(x) && x.chunk.None? && x.elevation == UnsetElevation
  {
    NewCell().(coordinates := coordinates)
  }

  /** Appending a fresh cell keeps every invariant. */
  lemma AppendedKeeps(cs: seq<Cell>, coordinates: HexCoordinates)
    requires Consistent(cs)
    ensures Consistent(cs + [FreshCell(coordinates)])
  {
    var r := cs + [FreshCell(coordinates)];
    forall a | 0 <= a < |r| ensures CellShaped(|r|, r[a]) {
      if a < |cs| {
        assert CellShaped(|cs|, cs[a]);
      }
    }
    forall a, e: HexDirection | 0 <= a < |r| ensures LinkMirrored(r, a, e) {
      if r[a].neighbors[e].Some? {
        assert a < |cs|;
        assert CellShaped(|cs|, cs[a]) && LinkMirrored(cs, a, e);
      }
    }
    ExtendsKeeps(r, cs);
  }

  /** Giving a cell a chunk keeps every invariant. */
  lemma ChunkAssignedKeeps(cs: seq<Cell>, c: nat, k: nat)
    requires Consistent(cs) && c < |cs|
    ensures Consistent(cs[c := cs[c].(chunk := Some(k))])
  {
    var r := cs[c := cs[c].(chunk := Some(k))];
    forall a | 0 <= a < |r| ensures CellShaped(|r|, r[a]) {
      assert CellShaped(|cs|, cs[a]);
    }
    forall a, e: HexDirection | 0 <= a < |r| ensures LinkMirrored(r, a, e) {
      assert LinkMirrored(cs, a, e);
    }
    ExtendsKeeps(r, cs);
  }

  /**
   * The two tests of ValidateRivers as the method runs them; neither removal
   * dereferences a null chunk or neighbour, and each marks only chunks that a
   * Refresh of the cell marks.
   */
  lemma ValidationSteps(cs: seq<Cell>, c: nat)
    requires Core(cs) && c < |cs|
    ensures SameLinks(Validated(cs, c), cs)
    ensures OutgoingRemovable(cs, c) && OutgoingRemovalChunks(cs, c) <= RefreshedChunks(cs, c)
    ensures OutgoingValidated(cs, c) ==
      if cs[c].hasOutgoingRiver && !IsValidRiverDestination(cs, c, cs[c].neighbors[cs[c].outgoingRiver])
      then OutgoingRemoved(cs, c) else cs
    ensures var s1 := OutgoingValidated(cs, c);
      IncomingRemovable(s1, c) && IncomingRemovalChunks(s1, c) <= RefreshedChunks(cs, c) &&
      (s1[c].hasIncomingRiver ==> s1[c].neighbors[s1[c].incomingRiver].Some?) &&
      IncomingValidated(s1, c) ==
        if s1[c].hasIncomingRiver && !IsValidRiverDestination(s1, s1[c].neighbors[s1[c].incomingRiver].value, Some(c))
        then IncomingRemoved(s1, c) else s1
  {
    RemovableInCore(cs, c);
    RemovalChunksRefreshed(cs, c);
    var s1 := OutgoingValidated(cs, c);
    EdgesWithinFrame(s1, cs);
    FrameLinks(s1, cs);
    RemovableInCore(s1, c);
    RemovalChunksRefreshed(s1, c);
    RefreshedChunksLinks(s1, cs, c);
    EdgesWithinFrame(Validated(cs, c), cs);
    FrameLinks(Validated(cs, c), cs);
  }

  /** A step of the road loop of the Elevation setter, seen from the map before the setter ran. */
  lemma SteepLoopStep(validated: seq<Cell>, cs: seq<Cell>, c: nat, i: nat)
    requires Core(validated) && Shaped(cs) && SameLinks(validated, cs) && c < |cs| && i <= 6
    ensures var p := SteepRoadsRemoved(validated, c, i);
      Core(p) && SameLinks(p, cs) && RefreshedChunks(p, c) == RefreshedChunks(cs, c) &&
      (RefreshSafe(p, c) <==> RefreshSafe(cs, c)) &&
      (i < 6 && p[c].roads[i] ==>
        p[c].neighbors[i].Some? && p[c].chunk.Some? && p[p[c].neighbors[i].value].chunk.Some? &&
        RoadChunks(p, c, i) <= RefreshedChunks(cs, c)) &&
      (i < 6 ==>
         SteepRoadsRemoved(validated, c, i + 1) ==
         if p[c].roads[i] && Steep(p, c, i) then WithRoad(p, c, i, false) else p)
  {
    var p := SteepRoadsRemoved(validated, c, i);
    if i < 6 {
      assert SteepRoadsRemoved(validated, c, i + 1) ==
        if p[c].roads[i] && Steep(p, c, i) then WithRoad(p, c, i, false) else p;
    }
    EdgesWithinFrame(p, validated);
    FrameLinks(p, validated);
    SameLinksTrans(p, validated, cs);
    RefreshedChunksLinks(p, cs, c);
    RemovableInCore(p, c);
    if i < 6 && p[c].roads[i] {
      RoadChunksRefreshed(p, c, i);
    }
  }

  /** The chunks the loop of RemoveRoads marks over the directions below `n`: both ends of each road of `c`. */
  ghost function RoadLoopChunks(cs: seq<Cell>, c: nat, n: nat): set<nat>
    requires Shaped(cs) && c < |cs| && n <= 6
  {
    if n == 0 then {} else RoadLoopChunks(cs, c, n - 1) + RoadStepChunks(cs, c, n - 1)
  }

  /** The chunks one pass of RemoveRoads marks: those of both ends of a road toward `d`, if there is one. */
  ghost function RoadStepChunks(cs: seq<Cell>, c: nat, d: HexDirection): set<nat>
    requires Shaped(cs) && c < |cs|
  {
    var m := cs[c].neighbors[d];
    if cs[c].roads[d] then ChunkOf(cs, c) + (if m.Some? then ChunkOf(cs, m.value) else {}) else {}
  }

  /**
   * RemoveRoads marks the own chunk when the cell has a road, the chunk of each cell
   * across one of its roads, and nothing else.
   */
  lemma {:induction false} RoadLoopChunksSpec(cs: seq<Cell>, c: nat, n: nat, k: nat)
    requires Shaped(cs) && c < |cs| && n <= 6
    ensures k in RoadLoopChunks(cs, c, n) <==>
      ((exists e: HexDirection | e < n :: cs[c].roads[e]) && cs[c].chunk == Some(k)) ||
      (exists e: HexDirection | e < n ::
        cs[c].roads[e] && cs[c].neighbors[e].Some? && cs[cs[c].neighbors[e].value].chunk == Some(k))
  {
    if n > 0 {
      RoadLoopChunksSpec(cs, c, n - 1, k);
      var e: HexDirection := n - 1;
      if cs[c].roads[e] && cs[c].neighbors[e].Some? && cs[cs[c].neighbors[e].value].chunk == Some(k) {
        assert cs[c].roads[e] && cs[c].neighbors[e].Some? && cs[cs[c].neighbors[e].value].chunk == Some(k);
      }
      if cs[c].roads[e] {
        assert exists e: HexDirection | e < n :: cs[c].roads[e];
      }
    }
  }

  /** A step of the loop of RemoveRoads, seen from the map before the loop. */
  lemma RoadLoopStep(cs: seq<Cell>, c: nat, i: nat)
    requires Core(cs) && c < |cs| && i < 6
    ensures var p := RoadsRemoved(cs, c, i);
      Core(p) && SameLinks(p, cs) && p[c].roads[i] == cs[c].roads[i] &&
      (p[c].roads[i] ==>
        p[c].neighbors[i].Some? && p[c].chunk.Some? && p[p[c].neighbors[i].value].chunk.Some? &&
        RoadChunks(p, c, i) == ChunkOf(cs, c) + ChunkOf(cs, cs[c].neighbors[i].value))
  {
    var p := RoadsRemoved(cs, c, i);
    RoadsRemovedSpec(cs, c, i);
    EdgesWithinFrame(p, cs);
    FrameLinks(p, cs);
    RemovableInCore(p, c);
  }

  /** Cells that differ at most in colour, walls, urban, farm and plant level. */
  predicate SameUndecorated(x: Cell, y: Cell)
  {
    x.coordinates == y.coordinates && x.elevation == y.elevation && x.waterLevel == y.waterLevel &&
    x.chunk == y.chunk && SameRivers(x, y) && x.neighbors == y.neighbors && x.roads == y.roads
  }

  /** A new value for a decoration field of `c` (colour, walls, urban, farm or plant level) keeps every invariant. */
  lemma DecoratedKeeps(cs: seq<Cell>, c: nat, x: Cell)
    requires Shaped(cs) && c < |cs| && SameUndecorated(x, cs[c])
    ensures Shaped(cs[c := x]) && SameLinks(cs[c := x], cs)
    ensures RefreshedChunks(cs[c := x], c) == RefreshedChunks(cs, c)
    ensures Consistent(cs) ==> Consistent(cs[c := x])
  {
    var r := cs[c := x];
    forall a | 0 <= a < |cs|
      ensures r[a].neighbors == cs[a].neighbors && r[a].coordinates == cs[a].coordinates && r[a].chunk == cs[a].chunk
      ensures r[a].roads == cs[a].roads && SameRivers(r[a], cs[a])
      ensures r[a].elevation == cs[a].elevation && r[a].waterLevel == cs[a].waterLevel
    {
    }
    LinksKeep(r, cs);
    RefreshedChunksLinks(r, cs, c);
    if Consistent(cs) {
      DecorationKeeps(r, cs);
    }
  }

  /**
   * The map once the old rivers of `c` are gone: the neighbour's incoming river can
   * be removed once the outgoing river of `c` is set, and every chunk the rest of
   * SetOutgoinRiver marks is one a Refresh of either end would mark.
   */
  lemma RiverLaySteps(s2: seq<Cell>, c: nat, d: HexDirection)
    requires Core(s2) && c < |s2| && s2[c].neighbors[d].Some?
    requires s2[c].chunk.Some? && s2[s2[c].neighbors[d].value].chunk.Some?
    ensures var b := s2[c].neighbors[d].value; var s3 := OutgoingStarted(s2, c, d);
      b != c && IncomingRemovable(s3, b) && IncomingRemovalChunks(s3, b) <= RefreshedChunks(s2, b) &&
      RoadChunks(s2, c, d) <= RefreshedChunks(s2, c)
  {
    var b := s2[c].neighbors[d].value;
    NeighborsDistinct(s2, c, d, d);
    var s3 := OutgoingStarted(s2, c, d);
    RemovableInCore(s2, b);
    RemovalChunksRefreshed(s2, b);
    RemovalFrame(s3, s2, b);
    RoadChunksRefreshed(s2, c, d);
  }

  /**
   * The first half of SetOutgoinRiver: the chunks each removal marks lie within a
   * Refresh of `c`, and the map it leaves has the same links and refresh sets.
   */
  lemma RiverClearSteps(cs: seq<Cell>, c: nat, d: HexDirection)
    requires Consistent(cs) && c < |cs| && RiverSettable(cs, c, d)
    ensures OutgoingRemovable(cs, c) && OutgoingRemovalChunks(cs, c) <= RefreshedChunks(cs, c)
    ensures var s1 := OutgoingRemoved(cs, c);
      IncomingRemovable(s1, c) && IncomingRemovalChunks(s1, c) <= RefreshedChunks(cs, c)
    ensures var s2 := OldRiversCleared(cs, c, d); var b := cs[c].neighbors[d].value;
      Consistent(s2) && RefreshedChunks(s2, c) == RefreshedChunks(cs, c) &&
      RefreshedChunks(s2, b) == RefreshedChunks(cs, b) && s2[c].neighbors[d] == cs[c].neighbors[d] &&
      (cs[c].chunk.Some? && cs[b].chunk.Some? ==> s2[c].chunk.Some? && s2[b].chunk.Some? && RoadChunks(s2, c, d) == RoadChunks(cs, c, d))
  {
    var b := cs[c].neighbors[d].value;
    RemovableInCore(cs, c);
    RemovalChunksRefreshed(cs, c);
    OutgoingRemovedKeeps(cs, c);
    var s1 := OutgoingRemoved(cs, c);
    RemovableInCore(s1, c);
    RemovalChunksRefreshed(s1, c);
    RefreshedChunksLinks(s1, cs, c);
    OldRiversClearedSpec(cs, c, d);
    var s2 := OldRiversCleared(cs, c, d);
    RefreshedChunksLinks(s2, cs, c);
    RefreshedChunksLinks(s2, cs, b);
    if cs[c].chunk.Some? && cs[b].chunk.Some? {
      RoadChunksLinks(s2, cs, c, d);
    }
  }

  /** Marking chunks drawn from `reach` keeps the dirty set between its start and its start plus `reach`. */
  lemma MarkedWithin(start: set<nat>, before: set<nat>, marked: set<nat>, reach: set<nat>)
    requires start <= before <= start + reach && marked <= reach
    ensures start <= before + marked <= start + reach
    ensures start + marked <= before + marked
  {
  }

  /** Two maps with the same links have the same chunks at both ends of an edge. */
  lemma RoadChunksLinks(x: seq<Cell>, y: seq<Cell>, c: nat, d: HexDirection)
    requires Shaped(x) && Shaped(y) && SameLinks(x, y) && c < |y| && y[c].neighbors[d].Some?
    requires y[c].chunk.Some? && y[y[c].neighbors[d].value].chunk.Some?
    ensures x[c].neighbors[d] == y[c].neighbors[d] && x[c].chunk.Some? && x[x[c].neighbors[d].value].chunk.Some?
    ensures RoadChunks(x, c, d) == RoadChunks(y, c, d)
  {
  }

  /** Removal of a river of `b` needs and marks the same chunks in two maps with the same links and the same `b`. */
  lemma RemovalFrame(x: seq<Cell>, y: seq<Cell>, b: nat)
    requires Shaped(x) && Shaped(y) && SameLinks(x, y) && b < |y| && x[b] == y[b]
    ensures IncomingRemovable(x, b) == IncomingRemovable(y, b)
    ensures IncomingRemovalChunks(x, b) == IncomingRemovalChunks(y, b)
  {
  }

  // ---------------------------------------------------------------------------
  // The cells of one map

  /**
   * Every HexCell of one map: `cells[i]` is the cell at index `i` of the grid's
   * cell array, and `dirty` holds the ids of the chunks whose Refresh has been
   * called.
   */
  class CellGraph {
    var cells: seq<Cell>
    var dirty: set<nat>

    ghost predicate Valid()
      reads this
    {
      Consistent(cells)
    }

    /** A map without cells. */
    constructor ()
      ensures cells == [] && dirty == {} && Valid()
    {
      cells := [];
      dirty := {};
    }

    /** Instantiate a cell from the prefab and give it its coordinates; `i` is its index. */
    method AddCell(coordinates: HexCoordinates) returns (i: nat)
      modifies this
      ensures i == |old(cells)| && cells == old(cells) + [FreshCell(coordinates)] && dirty == old(dirty)
      ensures old(Valid()) ==> Valid()
    {
      i := |cells|;
      if Valid() {
        AppendedKeeps(cells, coordinates);
      }
      cells := cells + [FreshCell(coordinates)];
    }

    /** SetNeighbor (Assets/HexCell.cs): link `c` to `b` across `d`, and `b` back across the opposite edge. */
    method SetNeighbor(c: nat, d: HexDirection, b: nat)
      requires Shaped(cells) && c < |cells| && b < |cells|
      modifies this
      ensures cells == Linking(old(cells), c, d, b) && dirty == old(dirty)
      ensures (old(Valid()) && old(cells)[c].neighbors[d].None? && old(cells)[b].neighbors[Opposite(d)].None? &&
               old(cells)[b].coordinates == Step(old(cells)[c].coordinates, d)) ==> Valid()
    {
      ghost var cs := cells;
      cells := cells[c := cells[c].(neighbors := cells[c].neighbors[d := Some(b)])];
      cells := cells[b := cells[b].(neighbors := cells[b].neighbors[Opposite(d) := Some(c)])];
      if Consistent(cs) && cs[c].neighbors[d].None? && cs[b].neighbors[Opposite(d)].None? &&
         cs[b].coordinates == Step(cs[c].coordinates, d) {
        LinkingKeeps(cs, c, d, b);
      }
    }

    /** The chunk's side of HexGridChunk.AddCell: the cell now belongs to chunk `k`. */
    method AssignChunk(c: nat, k: nat)
      requires c < |cells|
      modifies this
      ensures cells == old(cells)[c := old(cells)[c].(chunk := Some(k))] && dirty == old(dirty)
      ensures old(Valid()) ==> Valid()
    {
      ghost var cs := cells;
      cells := cells[c := cells[c].(chunk := Some(k))];
      if Consistent(cs) {
        ChunkAssignedKeeps(cs, c, k);
      }
    }

    /** RefreshSelfOnly: the cell's own chunk is marked; a cell without a chunk fails here. */
    method RefreshSelfOnly(c: nat)
      requires c < |cells| && cells[c].chunk.Some?
      modifies this
      ensures cells == old(cells) && dirty == old(dirty) + {cells[c].chunk.value}
    {
      dirty := dirty + {cells[c].chunk.value};
    }

    /**
     * Refresh: nothing without a chunk; else the own chunk is marked, and so is the
     * chunk of each neighbour whose chunk differs from it.
     */
    method Refresh(c: nat)
      requires Shaped(cells) && c < |cells| && RefreshSafe(cells, c)
      modifies this
      ensures cells == old(cells) && dirty == old(dirty) + RefreshedChunks(cells, c)
    {
      var chunk := cells[c].chunk;
      if chunk.Some? {
        dirty := dirty + {chunk.value};
        for i := 0 to 6
          invariant cells == old(cells)
          invariant dirty == old(dirty) + {chunk.value} + NeighborChunks(cells, c, i)
        {
          var neighbor := cells[c].neighbors[i];
          if neighbor.Some? && cells[neighbor.value].chunk != chunk {
            dirty := dirty + {cells[neighbor.value].chunk.value};
          }
        }
      }
    }

    /** SetRoad: the road bit on both ends of edge `d`, and both chunks marked. */
    method SetRoad(c: nat, d: HexDirection, state: bool)
      requires Shaped(cells) && c < |cells| && cells[c].neighbors[d].Some?
      requires cells[c].chunk.Some? && cells[cells[c].neighbors[d].value].chunk.Some?
      modifies this
      ensures SameLinks(cells, old(cells))
      ensures cells == WithRoad(old(cells), c, d, state)
      ensures dirty == old(dirty) + RoadChunks(old(cells), c, d)
    {
      var b := cells[c].neighbors[d].value;
      cells := cells[c := cells[c].(roads := cells[c].roads[d := state])];
      cells := cells[b := cells[b].(roads := cells[b].roads[Opposite(d) := state])];
      RefreshSelfOnly(b);
      RefreshSelfOnly(c);
    }

    /** RemoveOutgoingRiver: nothing without an outgoing river, else both ends cleared and their chunks marked. */
    method RemoveOutgoingRiver(c: nat)
      requires Shaped(cells) && c < |cells| && OutgoingRemovable(cells, c)
      modifies this
      ensures SameLinks(cells, old(cells))
      ensures cells == OutgoingRemoved(old(cells), c)
      ensures dirty == old(dirty) + OutgoingRemovalChunks(old(cells), c)
      ensures old(Valid()) ==> Valid()
    {
      if !cells[c].hasOutgoingRiver {
        return;
      }
      if Valid() {
        OutgoingRemovedKeeps(cells, c);
      }
      cells := cells[c := cells[c].(hasOutgoingRiver := false)];
      RefreshSelfOnly(c);
      var neighbor := cells[c].neighbors[cells[c].outgoingRiver].value;
      cells := cells[neighbor := cells[neighbor].(hasIncomingRiver := false)];
      RefreshSelfOnly(neighbor);
    }

    /** RemoveIncomingRiver: nothing without an incoming river, else both ends cleared and their chunks marked. */
    method RemoveIncomingRiver(c: nat)
      requires Shaped(cells) && c < |cells| && IncomingRemovable(cells, c)
      modifies this
      ensures SameLinks(cells, old(cells))
      ensures cells == IncomingRemoved(old(cells), c)
      ensures dirty == old(dirty) + IncomingRemovalChunks(old(cells), c)
      ensures old(Valid()) ==> Valid()
    {
      if !cells[c].hasIncomingRiver {
        return;
      }
      if Valid() {
        IncomingRemovedKeeps(cells, c);
      }
      cells := cells[c := cells[c].(hasIncomingRiver := false)];
      RefreshSelfOnly(c);
      var neighbor := cells[c].neighbors[cells[c].incomingRiver].value;
      cells := cells[neighbor := cells[neighbor].(hasOutgoingRiver := false)];
      RefreshSelfOnly(neighbor);
    }

    /** RemoveRiver: the incoming river, then the outgoing one. */
    method RemoveRiver(c: nat)
      requires Valid() && c < |cells|
      modifies this
      ensures SameLinks(cells, old(cells))
      ensures Valid() && cells == RiverRemoved(old(cells), c)
      ensures dirty == old(dirty) + IncomingRemovalChunks(old(cells), c) + OutgoingRemovalChunks(old(cells), c)
    {
      RemovableInCore(cells, c);
      ghost var cs := cells;
      RemoveIncomingRiver(c);
      IncomingRemovedKeeps(cs, c);
      RemovableInCore(cells, c);
      assert OutgoingRemovalChunks(cells, c) == OutgoingRemovalChunks(cs, c) by {
        if cs[c].hasOutgoingRiver && cs[c].hasIncomingRiver {
          assert cs[c].incomingRiver != cs[c].outgoingRiver;
          NeighborsDistinct(cs, c, cs[c].incomingRiver, cs[c].outgoingRiver);
        }
      }
      RemoveOutgoingRiver(c);
    }

    /** ValidateRivers: an outgoing river that may not flow goes, then an incoming river whose source may not flow here. */
    method ValidateRivers(c: nat)
      requires Core(cells) && c < |cells|
      modifies this
      ensures SameLinks(cells, old(cells))
      ensures cells == Validated(old(cells), c)
      ensures old(dirty) <= dirty <= old(dirty) + RefreshedChunks(old(cells), c)
    {
      ValidationSteps(cells, c);
      if cells[c].hasOutgoingRiver && !IsValidRiverDestination(cells, c, cells[c].neighbors[cells[c].outgoingRiver]) {
        RemoveOutgoingRiver(c);
      }
      if cells[c].hasIncomingRiver && !IsValidRiverDestination(cells, cells[c].neighbors[cells[c].incomingRiver].value, Some(c)) {
        RemoveIncomingRiver(c);
      }
    }

    /**
     * The Elevation setter: nothing when the value is unchanged; else assign it,
     * ValidateRivers, drop each road that now climbs more than one step, and Refresh.
     */
    method SetElevation(c: nat, v: int)
      requires Valid() && c < |cells|
      requires cells[c].elevation != v ==> RefreshSafe(cells, c)
      modifies this
      ensures SameLinks(cells, old(cells))
      ensures Valid() && cells == ElevationChanged(old(cells), c, v)
      ensures dirty == old(dirty) + (if old(cells)[c].elevation == v then {} else RefreshedChunks(old(cells), c))
    {
      if cells[c].elevation == v {
        return;
      }
      ghost var cs := cells;
      cells := cells[c := cells[c].(elevation := v)];
      assert cells == WithElevation(cs, c, v);
      SameEdgesCore(cells, cs);
      RefreshedChunksLinks(cells, cs, c);
      ValidateRivers(c);
      ghost var validated := cells;
      EdgesWithinFrame(validated, WithElevation(cs, c, v));
      FrameLinks(validated, WithElevation(cs, c, v));
      SameLinksTrans(validated, WithElevation(cs, c, v), cs);
      for i := 0 to 6
        invariant cells == SteepRoadsRemoved(validated, c, i)
        invariant old(dirty) <= dirty <= old(dirty) + RefreshedChunks(cs, c)
      {
        SteepLoopStep(validated, cs, c, i);
        if cells[c].roads[i] && GetElevationDifference(cells, c, i) > 1 {
          SetRoad(c, i, false);
        }
      }
      SteepLoopStep(validated, cs, c, 6);
      Refresh(c);
      ElevationChangedSpec(cs, c, v);
    }

    /** The WaterLevel setter: nothing when the value is unchanged; else assign it, ValidateRivers, and Refresh. */
    method SetWaterLevel(c: nat, v: int)
      requires Valid() && c < |cells|
      requires cells[c].waterLevel != v ==> RefreshSafe(cells, c)
      modifies this
      ensures SameLinks(cells, old(cells))
      ensures Valid() && cells == WaterLevelChanged(old(cells), c, v)
      ensures dirty == old(dirty) + (if old(cells)[c].waterLevel == v then {} else RefreshedChunks(old(cells), c))
    {
      if cells[c].waterLevel == v {
        return;
      }
      ghost var cs := cells;
      cells := cells[c := cells[c].(waterLevel := v)];
      assert cells == WithWaterLevel(cs, c, v);
      SameEdgesCore(cells, cs);
      RefreshedChunksLinks(cells, cs, c);
      ValidateRivers(c);
      EdgesWithinFrame(cells, WithWaterLevel(cs, c, v));
      FrameLinks(cells, WithWaterLevel(cs, c, v));
      SameLinksTrans(cells, WithWaterLevel(cs, c, v), cs);
      RefreshedChunksLinks(cells, cs, c);
      Refresh(c);
      WaterLevelChangedSpec(cs, c, v);
    }

    /** The Color setter: nothing when the colour is unchanged; else assign it and Refresh. */
    method SetColor(c: nat, v: Color)
      requires Shaped(cells) && c < |cells|
      requires cells[c].color != v ==> RefreshSafe(cells, c)
      modifies this
      ensures SameLinks(cells, old(cells))
      ensures cells == old(cells)[c := old(cells)[c].(color := v)]
      ensures dirty == old(dirty) + (if old(cells)[c].color == v then {} else RefreshedChunks(old(cells), c))
      ensures old(Valid()) ==> Valid()
    {
      if cells[c].color == v {
        assert cells == cells[c := cells[c].(color := v)];
        return;
      }
      ghost var cs := cells;
      DecoratedKeeps(cs, c, cs[c].(color := v));
      RefreshedChunksLinks(cs[c := cs[c].(color := v)], cs, c);
      cells := cells[c := cells[c].(color := v)];
      Refresh(c);
    }

    /** The Walled setter: nothing when the flag is unchanged; else assign it and Refresh. */
    method SetWalled(c: nat, v: bool)
      requires Shaped(cells) && c < |cells|
      requires cells[c].walled != v ==> RefreshSafe(cells, c)
      modifies this
      ensures SameLinks(cells, old(cells))
      ensures cells == old(cells)[c := old(cells)[c].(walled := v)]
      ensures dirty == old(dirty) + (if old(cells)[c].walled == v then {} else RefreshedChunks(old(cells), c))
      ensures old(Valid()) ==> Valid()
    {
      if cells[c].walled == v {
        assert cells == cells[c := cells[c].(walled := v)];
        return;
      }
      ghost var cs := cells;
      DecoratedKeeps(cs, c, cs[c].(walled := v));
      RefreshedChunksLinks(cs[c := cs[c].(walled := v)], cs, c);
      cells := cells[c := cells[c].(walled := v)];
      Refresh(c);
    }

    /** The UrbanLevel setter: nothing when the level is unchanged; else assign it and RefreshSelfOnly. */
    method SetUrbanLevel(c: nat, v: int)
      requires Shaped(cells) && c < |cells|
      requires cells[c].urbanLevel != v ==> cells[c].chunk.Some?
      modifies this
      ensures SameLinks(cells, old(cells))
      ensures cells == old(cells)[c := old(cells)[c].(urbanLevel := v)]
      ensures dirty == old(dirty) + (if old(cells)[c].urbanLevel == v then {} else ChunkOf(old(cells), c))
      ensures old(Valid()) ==> Valid()
    {
      if cells[c].urbanLevel != v {
        DecoratedKeeps(cells, c, cells[c].(urbanLevel := v));
        cells := cells[c := cells[c].(urbanLevel := v)];
        RefreshSelfOnly(c);
      } else {
        assert cells == cells[c := cells[c].(urbanLevel := v)];
      }
    }

    /** The FarmLevel setter: nothing when the level is unchanged; else assign it and RefreshSelfOnly. */
    method SetFarmLevel(c: nat, v: int)
      requires Shaped(cells) && c < |cells|
      requires cells[c].farmLevel != v ==> cells[c].chunk.Some?
      modifies this
      ensures SameLinks(cells, old(cells))
      ensures cells == old(cells)[c := old(cells)[c].(farmLevel := v)]
      ensures dirty == old(dirty) + (if old(cells)[c].farmLevel == v then {} else ChunkOf(old(cells), c))
      ensures old(Valid()) ==> Valid()
    {
      if cells[c].farmLevel != v {
        DecoratedKeeps(cells, c, cells[c].(farmLevel := v));
        cells := cells[c := cells[c].(farmLevel := v)];
        RefreshSelfOnly(c);
      } else {
        assert cells == cells[c := cells[c].(farmLevel := v)];
      }
    }

    /** The PlantLevel setter: nothing when the level is unchanged; else assign it and RefreshSelfOnly. */
    method SetPlantLevel(c: nat, v: int)
      requires Shaped(cells) && c < |cells|
      requires cells[c].plantLevel != v ==> cells[c].chunk.Some?
      modifies this
      ensures SameLinks(cells, old(cells))
      ensures cells == old(cells)[c := old(cells)[c].(plantLevel := v)]
      ensures dirty == old(dirty) + (if old(cells)[c].plantLevel == v then {} else ChunkOf(old(cells), c))
      ensures old(Valid()) ==> Valid()
    {
      if cells[c].plantLevel != v {
        DecoratedKeeps(cells, c, cells[c].(plantLevel := v));
        cells := cells[c := cells[c].(plantLevel := v)];
        RefreshSelfOnly(c);
      } else {
        assert cells == cells[c := cells[c].(plantLevel := v)];
      }
    }

    /** AddRoad: SetRoad across `d` only where there is no road, no river crosses and the slope is at most one step. */
    method AddRoad(c: nat, d: HexDirection)
      requires Valid() && c < |cells| && cells[c].neighbors[d].Some?
      requires CanAddRoad(cells, c, d) ==> cells[c].chunk.Some? && cells[cells[c].neighbors[d].value].chunk.Some?
      modifies this
      ensures SameLinks(cells, old(cells))
      ensures Valid() && cells == RoadAdded(old(cells), c, d)
      ensures dirty == old(dirty) + (if CanAddRoad(old(cells), c, d) then RoadChunks(old(cells), c, d) else {})
    {
      RoadAddedSpec(cells, c, d);
      if !cells[c].roads[d] && !cells[c].HasRiverThroughEdge(d) && GetElevationDifference(cells, c, d) <= 1 {
        SetRoad(c, d, true);
      }
    }

    /** RemoveRoads: SetRoad(i, false) for every direction `i` that has a road. */
    method RemoveRoads(c: nat)
      requires Valid() && c < |cells|
      modifies this
      ensures SameLinks(cells, old(cells))
      ensures Valid() && cells == RoadsRemoved(old(cells), c, 6)
      ensures dirty == old(dirty) + RoadLoopChunks(old(cells), c, 6)
    {
      ghost var cs := cells;
      for i := 0 to 6
        invariant cells == RoadsRemoved(cs, c, i)
        invariant dirty == old(dirty) + RoadLoopChunks(cs, c, i)
      {
        RemoveRoadStep(cs, old(dirty), c, i);
      }
      RoadsRemovedKeeps(cs, c);
    }

    /** One pass of the loop of RemoveRoads: SetRoad(i, false) if `c` has a road toward `i`. */
    method RemoveRoadStep(ghost cs: seq<Cell>, ghost before: set<nat>, c: nat, i: nat)
      requires Core(cs) && c < |cs| && i < 6 && cells == RoadsRemoved(cs, c, i)
      requires dirty == before + RoadLoopChunks(cs, c, i)
      modifies this
      ensures cells == RoadsRemoved(cs, c, i + 1)
      ensures dirty == before + RoadLoopChunks(cs, c, i + 1)
    {
      RoadLoopStep(cs, c, i);
      if cells[c].roads[i] {
        SetRoad(c, i, false);
      }
    }

    /**
     * The second half of SetOutgoinRiver, once the old rivers of `c` are gone: the
     * outgoing river of `c` toward `d`, the neighbour's incoming river replaced by
     * one from `c`, and the road across `d` removed.
     */
    method LayRiver(c: nat, d: HexDirection)
      requires Valid() && c < |cells| && !cells[c].hasOutgoingRiver && cells[c].neighbors[d].Some?
      requires cells[c].chunk.Some? && cells[cells[c].neighbors[d].value].chunk.Some?
      modifies this
      ensures SameLinks(cells, old(cells))
      ensures cells == RiverLaid(old(cells), c, d)
      ensures var b := old(cells)[c].neighbors[d].value;
        old(dirty) + RoadChunks(old(cells), c, d) <= dirty <=
        old(dirty) + RefreshedChunks(old(cells), c) + RefreshedChunks(old(cells), b)
    {
      var b := cells[c].neighbors[d].value;
      ghost var s2 := cells;
      ghost var reach := RefreshedChunks(s2, c) + RefreshedChunks(s2, b);
      RiverLaySteps(s2, c, d);
      cells := cells[c := cells[c].(hasOutgoingRiver := true, outgoingRiver := d)];
      assert cells == OutgoingStarted(s2, c, d);
      ghost var marked := IncomingRemovalChunks(cells, b);
      ghost var before := dirty;
      RemoveIncomingRiver(b);
      MarkedWithin(old(dirty), before, marked, reach);
      ghost var s4 := cells;
      cells := cells[b := cells[b].(hasIncomingRiver := true, incomingRiver := Opposite(d))];
      assert cells == IncomingStarted(s4, b, Opposite(d));
      RoadChunksLinks(cells, s2, c, d);
      marked := RoadChunks(cells, c, d);
      before := dirty;
      SetRoad(c, d, false);
      MarkedWithin(old(dirty), before, marked, reach);
    }

    /**
     * SetOutgoinRiver: nothing when the river already flows toward `d` or may not
     * flow into that neighbour; else remove the outgoing river, and the incoming one
     * if it enters across `d`, set the new river on both ends after removing the
     * neighbour's incoming river, and remove the road across `d`.
     */
    method SetOutgoingRiver(c: nat, d: HexDirection)
      requires Valid() && c < |cells|
      requires RiverSettable(cells, c, d) ==> cells[c].chunk.Some? && cells[cells[c].neighbors[d].value].chunk.Some?
      modifies this
      ensures SameLinks(cells, old(cells))
      ensures Valid() && cells == RiverSet(old(cells), c, d)
      ensures !RiverSettable(old(cells), c, d) ==> dirty == old(dirty)
      ensures RiverSettable(old(cells), c, d) ==>
        old(dirty) + RoadChunks(old(cells), c, d) <= dirty <=
        old(dirty) + RefreshedChunks(old(cells), c) + RefreshedChunks(old(cells), old(cells)[c].neighbors[d].value)
    {
      if cells[c].hasOutgoingRiver && cells[c].outgoingRiver == d {
        return;
      }
      var neighbor := cells[c].neighbors[d];
      if !IsValidRiverDestination(cells, c, neighbor) {
        return;
      }
      var b := neighbor.value;
      ghost var cs := cells;
      ghost var reach := RefreshedChunks(cs, c) + RefreshedChunks(cs, b);
      RiverClearSteps(cs, c, d);
      ghost var marked := OutgoingRemovalChunks(cells, c);
      ghost var before := dirty;
      RemoveOutgoingRiver(c);
      MarkedWithin(old(dirty), before, marked, reach);
      if cells[c].hasIncomingRiver && cells[c].incomingRiver == d {
        marked := IncomingRemovalChunks(cells, c);
        before := dirty;
        RemoveIncomingRiver(c);
        MarkedWithin(old(dirty), before, marked, reach);
      }
      assert cells == OldRiversCleared(cs, c, d);
      before := dirty;
      LayRiver(c, d);
      MarkedWithin(old(dirty), before, dirty - before, reach);
      RiverSetSpec(cs, c, d);
    }
  }
}
