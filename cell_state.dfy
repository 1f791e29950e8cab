/**
 * The state of HexCell as values: one record per cell, the cells of a map as a
 * sequence indexed like the grid's cell array, and the invariants that the
 * setters of HexCell keep over that sequence.
 */
module CellState {
  import opened HexMetrics
  import opened Coordinates

  /** An RGBA colour. The core only compares colours, so an opaque code stands for one. */
  datatype Color = Color(code: nat)

  /** The colour a freshly instantiated cell has: C#'s default, transparent black. */
  const ClearColor: Color := Color(0)

  /** `int.MinValue`: the elevation of a cell that has never been assigned one. */
  const UnsetElevation: int := -0x8000_0000

  /**
   * One hex cell. `neighbors[d]` is the index of the cell across edge `d` (None at
   * the border of the map), `roads[d]` tells whether a road crosses edge `d`, and
   * `chunk` is the id of the chunk that renders the cell (None until assigned).
   */
  datatype Cell = Cell(
    coordinates: HexCoordinates,
    elevation: int,
    waterLevel: int,
    urbanLevel: int,
    farmLevel: int,
    plantLevel: int,
    walled: bool,
    color: Color,
    chunk: Option<nat>,
    hasIncomingRiver: bool,
    hasOutgoingRiver: bool,
    incomingRiver: HexDirection,
    outgoingRiver: HexDirection,
    neighbors: seq<Option<nat>>,
    roads: seq<bool>)
  {
    predicate IsUnderwater()
    {
      waterLevel > elevation
    }

    predicate HasRiver()
    {
      hasIncomingRiver || hasOutgoingRiver
    }

    predicate HasRiverBeginOrEnd()
    {
      hasIncomingRiver != hasOutgoingRiver
    }

    predicate HasRiverThroughEdge(d: HexDirection)
    {
      (hasIncomingRiver && incomingRiver == d) || (hasOutgoingRiver && outgoingRiver == d)
    }

    predicate HasRoads()
    {
      exists d: HexDirection | d < |roads| :: roads[d]
    }

    /** The edge of the river that begins or ends here: the incoming one when there is one. */
    function RiverBeginOrEndDirection(): (r: HexDirection)
      ensures HasRiver() ==> HasRiverThroughEdge(r)
      ensures HasRiverBeginOrEnd() ==> forall e: HexDirection :: HasRiverThroughEdge(e) <==> e == r
    {
      if hasIncomingRiver then incomingRiver else outgoingRiver
    }
  }

  /** A cell as the prefab instantiates it: no links, no rivers, no roads, no chunk. */
  function NewCell(): (c: Cell)
    ensures |c.neighbors| == 6 && |c.roads| == 6
    ensures forall d: HexDirection :: c.neighbors[d].None? && !c.roads[d]
    ensures !c.HasRiver() && c.chunk.None?
  {
    Cell(HexCoordinates(0, 0), UnsetElevation, 0, 0, 0, 0, false, ClearColor, None,
         false, false, NE, NE, [None, None, None, None, None, None],
         [false, false, false, false, false, false])
  }

  /** The rule of IsValidRiverDestination, once the neighbour is known to exist. */
  predicate FlowsInto(source: Cell, target: Cell)
  {
    source.elevation >= target.elevation || source.waterLevel == target.elevation
  }

  // ---------------------------------------------------------------------------
  // Shape of the cell sequence

  predicate CellShaped(n: nat, c: Cell)
  {
    |c.neighbors| == 6 && |c.roads| == 6 &&
    forall d: HexDirection :: c.neighbors[d].Some? ==> c.neighbors[d].value < n
  }

  /** Every cell has six neighbour slots and six road bits, and every link is an index of the map. */
  ghost predicate Shaped(cs: seq<Cell>)
  {
    forall a | 0 <= a < |cs| :: CellShaped(|cs|, cs[a])
  }

  /** IsValidRiverDestination: there is a neighbour, and water can flow into it. */
  predicate IsValidRiverDestination(cs: seq<Cell>, a: nat, n: Option<nat>)
    requires a < |cs|
  {
    n.Some? && n.value < |cs| && FlowsInto(cs[a], cs[n.value])
  }

  /** GetElevationDifference: the absolute elevation step across edge `d`. */
  function GetElevationDifference(cs: seq<Cell>, a: nat, d: HexDirection): (r: nat)
    requires Shaped(cs) && a < |cs| && cs[a].neighbors[d].Some?
    ensures r == 0 <==> cs[a].elevation == cs[cs[a].neighbors[d].value].elevation
    ensures r <= 1 <==> cs[a].elevation - 1 <= cs[cs[a].neighbors[d].value].elevation <= cs[a].elevation + 1
  {
    Abs(cs[a].elevation - cs[cs[a].neighbors[d].value].elevation)
  }

  // ---------------------------------------------------------------------------
  // The invariants

  /** Links are mirrored (SetNeighbor) and follow the hex geometry of the coordinates. */
  ghost predicate Linked(cs: seq<Cell>)
    requires Shaped(cs)
  {
    forall a, d: HexDirection | 0 <= a < |cs| :: LinkMirrored(cs, a, d)
  }

  ghost predicate LinkMirrored(cs: seq<Cell>, a: nat, d: HexDirection)
    requires Shaped(cs) && a < |cs|
  {
    cs[a].neighbors[d].Some? ==>
      var b := cs[a].neighbors[d].value;
      cs[b].neighbors[Opposite(d)] == Some(a) && cs[b].coordinates == Step(cs[a].coordinates, d)
  }

  /** A road bit is set on both ends of its edge. */
  ghost predicate RoadsMirrored(cs: seq<Cell>)
    requires Shaped(cs)
  {
    forall a, d: HexDirection | 0 <= a < |cs| :: RoadMirrored(cs, a, d)
  }

  ghost predicate RoadMirrored(cs: seq<Cell>, a: nat, d: HexDirection)
    requires Shaped(cs) && a < |cs|
  {
    cs[a].roads[d] ==> cs[a].neighbors[d].Some? && cs[cs[a].neighbors[d].value].roads[Opposite(d)]
  }

  ghost predicate OutgoingMirrored(cs: seq<Cell>, a: nat)
    requires Shaped(cs) && a < |cs|
  {
    cs[a].hasOutgoingRiver ==>
      var n := cs[a].neighbors[cs[a].outgoingRiver];
      n.Some? && cs[n.value].hasIncomingRiver && cs[n.value].incomingRiver == Opposite(cs[a].outgoingRiver)
  }

  ghost predicate IncomingMirrored(cs: seq<Cell>, a: nat)
    requires Shaped(cs) && a < |cs|
  {
    cs[a].hasIncomingRiver ==>
      var n := cs[a].neighbors[cs[a].incomingRiver];
      n.Some? && cs[n.value].hasOutgoingRiver && cs[n.value].outgoingRiver == Opposite(cs[a].incomingRiver)
  }

  /** An outgoing river is the incoming river of the cell it flows into, and the other way round. */
  ghost predicate RiversMirrored(cs: seq<Cell>)
    requires Shaped(cs)
  {
    forall a | 0 <= a < |cs| :: OutgoingMirrored(cs, a) && IncomingMirrored(cs, a)
  }

  /** No edge carries both a road and a river. */
  ghost predicate RoadsAvoidRivers(cs: seq<Cell>)
    requires Shaped(cs)
  {
    forall a, d: HexDirection | 0 <= a < |cs| && cs[a].roads[d] :: !cs[a].HasRiverThroughEdge(d)
  }

  /** No edge carries a river in both directions. */
  ghost predicate NoTwoWayRivers(cs: seq<Cell>)
  {
    forall a | 0 <= a < |cs| ::
      !(cs[a].hasIncomingRiver && cs[a].hasOutgoingRiver && cs[a].incomingRiver == cs[a].outgoingRiver)
  }

  predicate Bare(c: Cell)
    requires |c.roads| == 6
  {
    !c.HasRiver() && forall d: HexDirection :: !c.roads[d]
  }

  /** A cell that no chunk renders yet carries neither rivers nor roads. */
  ghost predicate BareUnlessChunked(cs: seq<Cell>)
    requires Shaped(cs)
  {
    forall a | 0 <= a < |cs| && cs[a].chunk.None? :: Bare(cs[a])
  }

  /** The invariants that do not depend on elevations or water levels. */
  ghost predicate Core(cs: seq<Cell>)
  {
    Shaped(cs) && Linked(cs) && RoadsMirrored(cs) && RiversMirrored(cs) &&
    RoadsAvoidRivers(cs) && NoTwoWayRivers(cs) && BareUnlessChunked(cs)
  }

  predicate RoadLevel(cs: seq<Cell>, a: nat, d: HexDirection)
    requires Shaped(cs) && a < |cs|
  {
    cs[a].roads[d] && cs[a].neighbors[d].Some? ==> GetElevationDifference(cs, a, d) <= 1
  }

  /** No road climbs more than one elevation step. */
  ghost predicate RoadsLevel(cs: seq<Cell>)
    requires Shaped(cs)
  {
    forall a, d: HexDirection | 0 <= a < |cs| :: RoadLevel(cs, a, d)
  }

  /** As RoadsLevel, for the roads that do not touch cell `c`. */
  ghost predicate RoadsLevelAwayFrom(cs: seq<Cell>, c: nat)
    requires Shaped(cs)
  {
    forall a, d: HexDirection | 0 <= a < |cs| && a != c && cs[a].neighbors[d] != Some(c) :: RoadLevel(cs, a, d)
  }

  predicate RiverLegal(cs: seq<Cell>, a: nat)
    requires Shaped(cs) && a < |cs|
  {
    cs[a].hasOutgoingRiver ==> IsValidRiverDestination(cs, a, cs[a].neighbors[cs[a].outgoingRiver])
  }

  /** Every river runs downhill or into water. */
  ghost predicate RiversLegal(cs: seq<Cell>)
    requires Shaped(cs)
  {
    forall a | 0 <= a < |cs| :: RiverLegal(cs, a)
  }

  /** As RiversLegal, for the rivers that neither leave nor enter cell `c`. */
  ghost predicate RiversLegalAwayFrom(cs: seq<Cell>, c: nat)
    requires Shaped(cs)
  {
    forall a | 0 <= a < |cs| && a != c && (cs[a].hasOutgoingRiver ==> cs[a].neighbors[cs[a].outgoingRiver] != Some(c)) ::
      RiverLegal(cs, a)
  }

  /** All invariants of a map of cells. */
  ghost predicate Consistent(cs: seq<Cell>)
  {
    Core(cs) && RoadsLevel(cs) && RiversLegal(cs)
  }

  /** Every cell has been given to a chunk (true once the grid is built). */
  ghost predicate Chunked(cs: seq<Cell>)
  {
    forall a | 0 <= a < |cs| :: cs[a].chunk.Some?
  }

  // ---------------------------------------------------------------------------
  // Relations between two states of the map

  /** A cell without its river and road state. */
  function Stripped(c: Cell): Cell
  {
    c.(hasIncomingRiver := false, hasOutgoingRiver := false, incomingRiver := NE, outgoingRiver := NE, roads := [])
  }

  /** `x` has the attributes of `y` and a subset of its rivers and roads. */
  predicate CellEdgesWithin(x: Cell, y: Cell)
  {
    Stripped(x) == Stripped(y) && |x.roads| == |y.roads| &&
    (x.hasIncomingRiver ==> y.hasIncomingRiver && x.incomingRiver == y.incomingRiver) &&
    (x.hasOutgoingRiver ==> y.hasOutgoingRiver && x.outgoingRiver == y.outgoingRiver) &&
    forall d | 0 <= d < |x.roads| :: x.roads[d] ==> y.roads[d]
  }

  /** State `small` arises from `big` by removing rivers and roads only. */
  ghost predicate EdgesWithin(small: seq<Cell>, big: seq<Cell>)
  {
    |small| == |big| && forall a | 0 <= a < |small| :: CellEdgesWithin(small[a], big[a])
  }

  /** The attributes that CellEdgesWithin keeps. */
  lemma CellEdgesWithinKeeps(x: Cell, y: Cell)
    requires CellEdgesWithin(x, y)
    ensures x.neighbors == y.neighbors && x.coordinates == y.coordinates
    ensures x.elevation == y.elevation && x.waterLevel == y.waterLevel && x.chunk == y.chunk
  {
    assert Stripped(x).neighbors == x.neighbors && Stripped(y).neighbors == y.neighbors;
  }

  /** Shape, links and heights of the cells agree in both states. */
  ghost predicate SameFrame(small: seq<Cell>, big: seq<Cell>)
  {
    |small| == |big| &&
    forall a | 0 <= a < |small| ::
      small[a].neighbors == big[a].neighbors && small[a].coordinates == big[a].coordinates &&
      small[a].elevation == big[a].elevation && small[a].waterLevel == big[a].waterLevel &&
      small[a].chunk == big[a].chunk && |small[a].roads| == |big[a].roads|
  }

  lemma EdgesWithinFrame(small: seq<Cell>, big: seq<Cell>)
    requires EdgesWithin(small, big)
    ensures SameFrame(small, big)
  {
    forall a | 0 <= a < |small|
      ensures small[a].neighbors == big[a].neighbors && small[a].coordinates == big[a].coordinates
      ensures small[a].elevation == big[a].elevation && small[a].waterLevel == big[a].waterLevel
      ensures small[a].chunk == big[a].chunk
    {
      CellEdgesWithinKeeps(small[a], big[a]);
    }
  }

  /** Removing rivers and roads keeps every invariant except the mirroring of both ends. */
  lemma ShrinkKeeps(small: seq<Cell>, big: seq<Cell>, c: nat)
    requires EdgesWithin(small, big) && Shaped(big)
    ensures Shaped(small)
    ensures Linked(big) ==> Linked(small)
    ensures RoadsAvoidRivers(big) ==> RoadsAvoidRivers(small)
    ensures NoTwoWayRivers(big) ==> NoTwoWayRivers(small)
    ensures BareUnlessChunked(big) ==> BareUnlessChunked(small)
    ensures RoadsLevel(big) ==> RoadsLevel(small)
    ensures RiversLegal(big) ==> RiversLegal(small)
    ensures RoadsLevelAwayFrom(big, c) ==> RoadsLevelAwayFrom(small, c)
    ensures RiversLegalAwayFrom(big, c) ==> RiversLegalAwayFrom(small, c)
  {
    EdgesWithinFrame(small, big);
    ShrinkShape(small, big);
    ShrinkRoads(small, big, c);
    ShrinkRivers(small, big, c);
  }

  lemma FrameShaped(small: seq<Cell>, big: seq<Cell>)
    requires SameFrame(small, big) && Shaped(big)
    ensures Shaped(small)
  {
    forall a | 0 <= a < |small| ensures CellShaped(|small|, small[a]) {
      assert CellShaped(|big|, big[a]);
    }
  }

  lemma ShrinkShape(small: seq<Cell>, big: seq<Cell>)
    requires EdgesWithin(small, big) && SameFrame(small, big) && Shaped(big)
    ensures Shaped(small)
    ensures Linked(big) ==> Linked(small)
    ensures BareUnlessChunked(big) ==> BareUnlessChunked(small)
  {
    FrameShaped(small, big);
    if Linked(big) {
      forall a, d: HexDirection | 0 <= a < |small| ensures LinkMirrored(small, a, d) {
        assert LinkMirrored(big, a, d);
      }
    }
    if BareUnlessChunked(big) {
      forall a | 0 <= a < |small| && small[a].chunk.None? ensures Bare(small[a]) {
        assert Bare(big[a]);
      }
    }
  }

  lemma ShrinkRoads(small: seq<Cell>, big: seq<Cell>, c: nat)
    requires EdgesWithin(small, big) && SameFrame(small, big) && Shaped(big) && Shaped(small)
    ensures RoadsAvoidRivers(big) ==> RoadsAvoidRivers(small)
    ensures RoadsLevel(big) ==> RoadsLevel(small)
    ensures RoadsLevelAwayFrom(big, c) ==> RoadsLevelAwayFrom(small, c)
  {
    if RoadsAvoidRivers(big) {
      forall a, d: HexDirection | 0 <= a < |small| && small[a].roads[d]
        ensures !small[a].HasRiverThroughEdge(d)
      {
        assert big[a].roads[d];
      }
    }
    if RoadsLevel(big) {
      forall a, d: HexDirection | 0 <= a < |small| ensures RoadLevel(small, a, d) {
        assert RoadLevel(big, a, d);
      }
    }
    if RoadsLevelAwayFrom(big, c) {
      forall a, d: HexDirection | 0 <= a < |small| && a != c && small[a].neighbors[d] != Some(c)
        ensures RoadLevel(small, a, d)
      {
        assert RoadLevel(big, a, d);
      }
    }
  }

  lemma ShrinkRivers(small: seq<Cell>, big: seq<Cell>, c: nat)
    requires EdgesWithin(small, big) && SameFrame(small, big) && Shaped(big) && Shaped(small)
    ensures NoTwoWayRivers(big) ==> NoTwoWayRivers(small)
    ensures RiversLegal(big) ==> RiversLegal(small)
    ensures RiversLegalAwayFrom(big, c) ==> RiversLegalAwayFrom(small, c)
  {
    if RiversLegal(big) {
      forall a | 0 <= a < |small| ensures RiverLegal(small, a) {
        assert RiverLegal(big, a);
      }
    }
    if RiversLegalAwayFrom(big, c) {
      forall a | 0 <= a < |small| && a != c &&
          (small[a].hasOutgoingRiver ==> small[a].neighbors[small[a].outgoingRiver] != Some(c))
        ensures RiverLegal(small, a)
      {
        if small[a].hasOutgoingRiver {
          assert CellEdgesWithin(small[a], big[a]);
          assert RiverLegal(big, a);
        }
      }
    }
  }

  // ---------------------------------------------------------------------------
  // Facts about links

  /** No cell is its own neighbour, and distinct edges lead to distinct cells. */
  lemma NeighborsDistinct(cs: seq<Cell>, a: nat, d1: HexDirection, d2: HexDirection)
    requires Shaped(cs) && Linked(cs) && a < |cs|
    requires cs[a].neighbors[d1].Some?
    ensures cs[a].neighbors[d1].value != a
    ensures cs[a].neighbors[d2] == cs[a].neighbors[d1] ==> d1 == d2
  {
    var b := cs[a].neighbors[d1].value;
    assert LinkMirrored(cs, a, d1) && LinkMirrored(cs, a, d2);
    assert cs[b].coordinates == Step(cs[a].coordinates, d1);
    if cs[a].neighbors[d2] == cs[a].neighbors[d1] {
      assert cs[b].coordinates == Step(cs[a].coordinates, d2);
      StepInjective(cs[a].coordinates, d1, d2);
    }
  }

  /** The links of one cell, each seen from both ends. */
  lemma LinksOf(cs: seq<Cell>, a: nat)
    requires Shaped(cs) && Linked(cs) && a < |cs|
    ensures forall d: HexDirection | cs[a].neighbors[d].Some? ::
      cs[cs[a].neighbors[d].value].neighbors[Opposite(d)] == Some(a) &&
      cs[cs[a].neighbors[d].value].coordinates == Step(cs[a].coordinates, d)
  {
    forall d: HexDirection | cs[a].neighbors[d].Some?
      ensures cs[cs[a].neighbors[d].value].neighbors[Opposite(d)] == Some(a)
      ensures cs[cs[a].neighbors[d].value].coordinates == Step(cs[a].coordinates, d)
    {
      assert LinkMirrored(cs, a, d);
    }
  }

  /** A river through an edge is seen from both of its cells. */
  lemma RiverThroughEdgeMirrored(cs: seq<Cell>, a: nat, d: HexDirection)
    requires Core(cs) && a < |cs| && cs[a].HasRiverThroughEdge(d)
    ensures cs[a].neighbors[d].Some?
    ensures cs[cs[a].neighbors[d].value].HasRiverThroughEdge(Opposite(d))
  {
    assert OutgoingMirrored(cs, a) && IncomingMirrored(cs, a);
  }

  /** Mirrored form of RiverThroughEdgeMirrored, seen from the neighbour. */
  lemma RiverThroughEdgeFromNeighbor(cs: seq<Cell>, a: nat, d: HexDirection)
    requires Core(cs) && a < |cs| && cs[a].neighbors[d].Some?
    requires cs[cs[a].neighbors[d].value].HasRiverThroughEdge(Opposite(d))
    ensures cs[a].HasRiverThroughEdge(d)
  {
    var b := cs[a].neighbors[d].value;
    assert LinkMirrored(cs, a, d);
    RiverThroughEdgeMirrored(cs, b, Opposite(d));
  }

  // ---------------------------------------------------------------------------
  // The primitive state changes of HexCell

  /** The map after RemoveOutgoingRiver on a cell that has an outgoing river. */
  function ClearedOutgoing(cs: seq<Cell>, c: nat): seq<Cell>
    requires Shaped(cs) && c < |cs| && cs[c].hasOutgoingRiver && cs[c].neighbors[cs[c].outgoingRiver].Some?
  {
    var t := cs[c].neighbors[cs[c].outgoingRiver].value;
    var s1 := cs[c := cs[c].(hasOutgoingRiver := false)];
    s1[t := s1[t].(hasIncomingRiver := false)]
  }

  /** The map after RemoveIncomingRiver on a cell that has an incoming river. */
  function ClearedIncoming(cs: seq<Cell>, c: nat): seq<Cell>
    requires Shaped(cs) && c < |cs| && cs[c].hasIncomingRiver && cs[c].neighbors[cs[c].incomingRiver].Some?
  {
    var t := cs[c].neighbors[cs[c].incomingRiver].value;
    var s1 := cs[c := cs[c].(hasIncomingRiver := false)];
    s1[t := s1[t].(hasOutgoingRiver := false)]
  }

  /** The map after SetRoad(d, state): the road bit on both ends of edge `d`. */
  function WithRoad(cs: seq<Cell>, c: nat, d: HexDirection, state: bool): (r: seq<Cell>)
    requires Shaped(cs) && c < |cs| && cs[c].neighbors[d].Some?
    ensures |r| == |cs| && forall a | 0 <= a < |r| :: |r[a].roads| == |cs[a].roads|
  {
    var b := cs[c].neighbors[d].value;
    var s1 := cs[c := cs[c].(roads := cs[c].roads[d := state])];
    s1[b := s1[b].(roads := s1[b].roads[Opposite(d) := state])]
  }

  /** AddRoad's condition: no road yet, no river across the edge, a slope of at most one step. */
  predicate CanAddRoad(cs: seq<Cell>, c: nat, d: HexDirection)
    requires Shaped(cs) && c < |cs| && cs[c].neighbors[d].Some?
  {
    !cs[c].roads[d] && !cs[c].HasRiverThroughEdge(d) && GetElevationDifference(cs, c, d) <= 1
  }

  /** Removing rivers and roads from a consistent map, keeping both ends mirrored, keeps Core. */
  lemma ShrinkCore(small: seq<Cell>, big: seq<Cell>)
    requires EdgesWithin(small, big) && Core(big)
    requires Shaped(small) ==> RoadsMirrored(small) && RiversMirrored(small)
    ensures Core(small)
    ensures RoadsLevel(big) ==> RoadsLevel(small)
    ensures RiversLegal(big) ==> RiversLegal(small)
  {
    ShrinkKeeps(small, big, 0);
  }

  lemma ClearedOutgoingWithin(cs: seq<Cell>, c: nat)
    requires Shaped(cs) && Linked(cs) && RiversMirrored(cs) && c < |cs| && cs[c].hasOutgoingRiver
    ensures cs[c].neighbors[cs[c].outgoingRiver].Some?
    ensures var r := ClearedOutgoing(cs, c); var t := cs[c].neighbors[cs[c].outgoingRiver].value;
      EdgesWithin(r, cs) && SameFrame(r, cs) && Shaped(r) && t != c &&
      r[c] == cs[c].(hasOutgoingRiver := false) && r[t] == cs[t].(hasIncomingRiver := false) &&
      forall a | 0 <= a < |cs| && a != c && a != t :: r[a] == cs[a]
  {
    assert OutgoingMirrored(cs, c);
    var t := cs[c].neighbors[cs[c].outgoingRiver].value;
    var r := ClearedOutgoing(cs, c);
    NeighborsDistinct(cs, c, cs[c].outgoingRiver, cs[c].outgoingRiver);
    assert EdgesWithin(r, cs) by {
      forall a | 0 <= a < |r| ensures CellEdgesWithin(r[a], cs[a]) {
        if a != c && a != t {
          assert r[a] == cs[a];
        }
      }
    }
    EdgesWithinFrame(r, cs);
    FrameShaped(r, cs);
  }

  /** Changing rivers only keeps the roads mirrored. */
  lemma RoadsUnchangedKeep(r: seq<Cell>, cs: seq<Cell>)
    requires SameFrame(r, cs) && Shaped(cs) && Shaped(r) && RoadsMirrored(cs)
    requires forall a | 0 <= a < |cs| :: r[a].roads == cs[a].roads
    ensures RoadsMirrored(r)
  {
    forall a, d: HexDirection | 0 <= a < |r| ensures RoadMirrored(r, a, d) {
      assert RoadMirrored(cs, a, d);
    }
  }

  lemma ClearedOutgoingMirroredAt(cs: seq<Cell>, c: nat, a: nat)
    requires Shaped(cs) && Linked(cs) && RiversMirrored(cs) && c < |cs| && cs[c].hasOutgoingRiver
    requires cs[c].neighbors[cs[c].outgoingRiver].Some? && a < |cs|
    requires Shaped(ClearedOutgoing(cs, c)) && SameFrame(ClearedOutgoing(cs, c), cs)
    ensures OutgoingMirrored(ClearedOutgoing(cs, c), a) && IncomingMirrored(ClearedOutgoing(cs, c), a)
  {
    ClearedOutgoingWithin(cs, c);
    var t := cs[c].neighbors[cs[c].outgoingRiver].value;
    var r := ClearedOutgoing(cs, c);
    assert OutgoingMirrored(cs, a) && IncomingMirrored(cs, a) && OutgoingMirrored(cs, c);
    if r[a].hasOutgoingRiver {
      var n := cs[a].neighbors[cs[a].outgoingRiver].value;
      assert LinkMirrored(cs, a, cs[a].outgoingRiver) && LinkMirrored(cs, c, cs[c].outgoingRiver);
      if n == t {
        assert false;
      }
    }
    if r[a].hasIncomingRiver {
      var n := cs[a].neighbors[cs[a].incomingRiver].value;
      assert LinkMirrored(cs, a, cs[a].incomingRiver) && LinkMirrored(cs, c, cs[c].outgoingRiver);
      if n == c {
        assert false;
      }
    }
  }

  lemma ClearedOutgoingMirrored(cs: seq<Cell>, c: nat)
    requires Shaped(cs) && Linked(cs) && RoadsMirrored(cs) && RiversMirrored(cs) && c < |cs| && cs[c].hasOutgoingRiver
    requires cs[c].neighbors[cs[c].outgoingRiver].Some?
    ensures Shaped(ClearedOutgoing(cs, c))
    ensures RoadsMirrored(ClearedOutgoing(cs, c)) && RiversMirrored(ClearedOutgoing(cs, c))
  {
    ClearedOutgoingWithin(cs, c);
    var r := ClearedOutgoing(cs, c);
    RoadsUnchangedKeep(r, cs);
    forall a | 0 <= a < |r| ensures OutgoingMirrored(r, a) && IncomingMirrored(r, a) {
      ClearedOutgoingMirroredAt(cs, c, a);
    }
  }

  /** RemoveOutgoingRiver clears both ends of the river and keeps every invariant. */
  lemma ClearedOutgoingKeeps(cs: seq<Cell>, c: nat)
    requires Core(cs) && c < |cs| && cs[c].hasOutgoingRiver
    ensures cs[c].neighbors[cs[c].outgoingRiver].Some?
    ensures var r := ClearedOutgoing(cs, c); var t := cs[c].neighbors[cs[c].outgoingRiver].value;
      EdgesWithin(r, cs) && Core(r) && !r[c].hasOutgoingRiver && !r[t].hasIncomingRiver
    ensures RoadsLevel(cs) ==> RoadsLevel(ClearedOutgoing(cs, c))
    ensures RiversLegal(cs) ==> RiversLegal(ClearedOutgoing(cs, c))
  {
    ClearedOutgoingWithin(cs, c);
    ClearedOutgoingMirrored(cs, c);
    ShrinkCore(ClearedOutgoing(cs, c), cs);
  }

  lemma ClearedIncomingWithin(cs: seq<Cell>, c: nat)
    requires Shaped(cs) && Linked(cs) && RiversMirrored(cs) && c < |cs| && cs[c].hasIncomingRiver
    ensures cs[c].neighbors[cs[c].incomingRiver].Some?
    ensures var r := ClearedIncoming(cs, c); var t := cs[c].neighbors[cs[c].incomingRiver].value;
      EdgesWithin(r, cs) && SameFrame(r, cs) && Shaped(r) && t != c &&
      r[c] == cs[c].(hasIncomingRiver := false) && r[t] == cs[t].(hasOutgoingRiver := false) &&
      forall a | 0 <= a < |cs| && a != c && a != t :: r[a] == cs[a]
  {
    assert IncomingMirrored(cs, c);
    var t := cs[c].neighbors[cs[c].incomingRiver].value;
    var r := ClearedIncoming(cs, c);
    NeighborsDistinct(cs, c, cs[c].incomingRiver, cs[c].incomingRiver);
    assert EdgesWithin(r, cs) by {
      forall a | 0 <= a < |r| ensures CellEdgesWithin(r[a], cs[a]) {
        if a != c && a != t {
          assert r[a] == cs[a];
        }
      }
    }
    EdgesWithinFrame(r, cs);
    FrameShaped(r, cs);
  }

  lemma ClearedIncomingMirroredAt(cs: seq<Cell>, c: nat, a: nat)
    requires Shaped(cs) && Linked(cs) && RiversMirrored(cs) && c < |cs| && cs[c].hasIncomingRiver
    requires cs[c].neighbors[cs[c].incomingRiver].Some? && a < |cs|
    requires Shaped(ClearedIncoming(cs, c)) && SameFrame(ClearedIncoming(cs, c), cs)
    ensures OutgoingMirrored(ClearedIncoming(cs, c), a) && IncomingMirrored(ClearedIncoming(cs, c), a)
  {
    ClearedIncomingWithin(cs, c);
    var t := cs[c].neighbors[cs[c].incomingRiver].value;
    var r := ClearedIncoming(cs, c);
    assert OutgoingMirrored(cs, a) && IncomingMirrored(cs, a) && IncomingMirrored(cs, c);
    if r[a].hasIncomingRiver {
      var n := cs[a].neighbors[cs[a].incomingRiver].value;
      assert LinkMirrored(cs, a, cs[a].incomingRiver) && LinkMirrored(cs, c, cs[c].incomingRiver);
      if n == t {
        assert false;
      }
    }
    if r[a].hasOutgoingRiver {
      var n := cs[a].neighbors[cs[a].outgoingRiver].value;
      assert LinkMirrored(cs, a, cs[a].outgoingRiver) && LinkMirrored(cs, c, cs[c].incomingRiver);
      if n == c {
        assert false;
      }
    }
  }

  lemma ClearedIncomingMirrored(cs: seq<Cell>, c: nat)
    requires Shaped(cs) && Linked(cs) && RoadsMirrored(cs) && RiversMirrored(cs) && c < |cs| && cs[c].hasIncomingRiver
    requires cs[c].neighbors[cs[c].incomingRiver].Some?
    ensures Shaped(ClearedIncoming(cs, c))
    ensures RoadsMirrored(ClearedIncoming(cs, c)) && RiversMirrored(ClearedIncoming(cs, c))
  {
    ClearedIncomingWithin(cs, c);
    var r := ClearedIncoming(cs, c);
    RoadsUnchangedKeep(r, cs);
    forall a | 0 <= a < |r| ensures OutgoingMirrored(r, a) && IncomingMirrored(r, a) {
      ClearedIncomingMirroredAt(cs, c, a);
    }
  }

  /** RemoveIncomingRiver clears both ends of the river and keeps every invariant. */
  lemma ClearedIncomingKeeps(cs: seq<Cell>, c: nat)
    requires Core(cs) && c < |cs| && cs[c].hasIncomingRiver
    ensures cs[c].neighbors[cs[c].incomingRiver].Some?
    ensures var r := ClearedIncoming(cs, c); var t := cs[c].neighbors[cs[c].incomingRiver].value;
      EdgesWithin(r, cs) && Core(r) && !r[c].hasIncomingRiver && !r[t].hasOutgoingRiver
    ensures RoadsLevel(cs) ==> RoadsLevel(ClearedIncoming(cs, c))
    ensures RiversLegal(cs) ==> RiversLegal(ClearedIncoming(cs, c))
  {
    ClearedIncomingWithin(cs, c);
    ClearedIncomingMirrored(cs, c);
    ShrinkCore(ClearedIncoming(cs, c), cs);
  }

  // ---------------------------------------------------------------------------
  // River edges of one cell

  /** The number of edges among the first `n` that carry a river of `x` (HasRiverThroughEdge). */
  function RiverEdgeCount(x: Cell, n: nat): (k: nat)
    requires n <= 6
    ensures k <= n
  {
    if n == 0 then 0 else RiverEdgeCount(x, n - 1) + (if x.HasRiverThroughEdge(n - 1) then 1 else 0)
  }

  /** Without a river flowing in and out across the same edge, each river flag accounts for one edge. */
  lemma {:induction false} RiverEdgeCountSpec(x: Cell, n: nat)
    requires n <= 6
    requires !(x.hasIncomingRiver && x.hasOutgoingRiver && x.incomingRiver == x.outgoingRiver)
    ensures RiverEdgeCount(x, n) ==
      (if x.hasIncomingRiver && x.incomingRiver < n then 1 else 0) +
      (if x.hasOutgoingRiver && x.outgoingRiver < n then 1 else 0)
  {
    if n > 0 {
      RiverEdgeCountSpec(x, n - 1);
    }
  }

  /**
   * In a map without two-way rivers, a cell has a river exactly when some edge carries
   * one, and a river begins or ends there exactly when a single edge carries one.
   */
  lemma RiverBeginOrEndSpec(cs: seq<Cell>, a: nat)
    requires NoTwoWayRivers(cs) && a < |cs|
    ensures cs[a].HasRiver() <==> RiverEdgeCount(cs[a], 6) > 0
    ensures cs[a].HasRiverBeginOrEnd() <==> RiverEdgeCount(cs[a], 6) == 1
  {
    RiverEdgeCountSpec(cs[a], 6);
  }
}
