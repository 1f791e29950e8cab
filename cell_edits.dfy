/**
 * The compound edits of HexCell as functions from one map state to the next, each
 * with the lemmas that say which invariants it keeps and what it leaves behind.
 */
module CellEdits {
  import opened HexMetrics
  import opened Coordinates
  import opened CellState

  // ---------------------------------------------------------------------------
  // Framing: what an edit leaves alone

  /** Links, coordinates, chunks and road count agree cell by cell. */
  ghost predicate SameLinks(r: seq<Cell>, cs: seq<Cell>)
  {
    |r| == |cs| &&
    forall a | 0 <= a < |cs| ::
      r[a].neighbors == cs[a].neighbors && r[a].coordinates == cs[a].coordinates &&
      r[a].chunk == cs[a].chunk && |r[a].roads| == |cs[a].roads|
  }

  predicate SameRivers(x: Cell, y: Cell)
  {
    x.hasIncomingRiver == y.hasIncomingRiver && x.hasOutgoingRiver == y.hasOutgoingRiver &&
    x.incomingRiver == y.incomingRiver && x.outgoingRiver == y.outgoingRiver
  }

  /** Only heights and decoration may differ: links, rivers and roads are the same. */
  ghost predicate SameEdges(r: seq<Cell>, cs: seq<Cell>)
  {
    SameLinks(r, cs) && forall a | 0 <= a < |cs| :: SameRivers(r[a], cs[a]) && r[a].roads == cs[a].roads
  }

  lemma FrameLinks(r: seq<Cell>, cs: seq<Cell>)
    requires SameFrame(r, cs)
    ensures SameLinks(r, cs)
  {
  }

  lemma LinksKeep(r: seq<Cell>, cs: seq<Cell>)
    requires SameLinks(r, cs) && Shaped(cs)
    ensures Shaped(r)
    ensures Linked(cs) ==> Linked(r)
  {
    forall a | 0 <= a < |r| ensures CellShaped(|r|, r[a]) {
      assert CellShaped(|cs|, cs[a]);
    }
    if Linked(cs) {
      forall a, d: HexDirection | 0 <= a < |r| ensures LinkMirrored(r, a, d) {
        assert LinkMirrored(cs, a, d);
      }
    }
  }

  lemma RiversKeep(r: seq<Cell>, cs: seq<Cell>)
    requires SameLinks(r, cs) && Shaped(cs) && Shaped(r)
    requires forall a | 0 <= a < |cs| :: SameRivers(r[a], cs[a])
    ensures RiversMirrored(cs) ==> RiversMirrored(r)
    ensures NoTwoWayRivers(cs) ==> NoTwoWayRivers(r)
  {
    if RiversMirrored(cs) {
      forall a | 0 <= a < |r| ensures OutgoingMirrored(r, a) && IncomingMirrored(r, a) {
        assert OutgoingMirrored(cs, a) && IncomingMirrored(cs, a);
        assert SameRivers(r[a], cs[a]);
        if r[a].hasOutgoingRiver {
          assert SameRivers(r[cs[a].neighbors[cs[a].outgoingRiver].value], cs[cs[a].neighbors[cs[a].outgoingRiver].value]);
        }
        if r[a].hasIncomingRiver {
          assert SameRivers(r[cs[a].neighbors[cs[a].incomingRiver].value], cs[cs[a].neighbors[cs[a].incomingRiver].value]);
        }
      }
    }
    if NoTwoWayRivers(cs) {
      forall a | 0 <= a < |r|
        ensures !(r[a].hasIncomingRiver && r[a].hasOutgoingRiver && r[a].incomingRiver == r[a].outgoingRiver)
      {
        assert SameRivers(r[a], cs[a]);
      }
    }
  }

  /** An edit that changes heights or decoration only keeps the invariants that ignore heights. */
  lemma SameEdgesCore(r: seq<Cell>, cs: seq<Cell>)
    requires SameEdges(r, cs) && Core(cs)
    ensures Core(r)
  {
    LinksKeep(r, cs);
    RiversKeep(r, cs);
    forall a, d: HexDirection | 0 <= a < |r| ensures RoadMirrored(r, a, d) {
      assert RoadMirrored(cs, a, d);
      if r[a].roads[d] {
        assert r[cs[a].neighbors[d].value].roads == cs[cs[a].neighbors[d].value].roads;
      }
    }
    forall a, d: HexDirection | 0 <= a < |r| && r[a].roads[d] ensures !r[a].HasRiverThroughEdge(d) {
      assert cs[a].roads[d];
      assert SameRivers(r[a], cs[a]);
    }
    forall a | 0 <= a < |r| && r[a].chunk.None? ensures Bare(r[a]) {
      assert Bare(cs[a]);
      assert SameRivers(r[a], cs[a]);
    }
  }

  /**
   * An edit that changes the heights of cell `c` only keeps every road and river
   * legal that does not touch `c`, and all of them when the elevation is unchanged.
   */
  lemma HeightsChangedAt(r: seq<Cell>, cs: seq<Cell>, c: nat)
    requires SameEdges(r, cs) && Shaped(cs) && Shaped(r) && c < |cs|
    requires forall a | 0 <= a < |cs| && a != c :: r[a].elevation == cs[a].elevation && r[a].waterLevel == cs[a].waterLevel
    ensures RoadsLevel(cs) ==> RoadsLevelAwayFrom(r, c)
    ensures RiversLegal(cs) ==> RiversLegalAwayFrom(r, c)
    ensures r[c].elevation == cs[c].elevation && RoadsLevel(cs) ==> RoadsLevel(r)
    ensures r[c].elevation == cs[c].elevation && r[c].waterLevel == cs[c].waterLevel && RiversLegal(cs) ==> RiversLegal(r)
  {
    if RoadsLevel(cs) {
      forall a, d: HexDirection | 0 <= a < |r| && (r[c].elevation == cs[c].elevation || (a != c && r[a].neighbors[d] != Some(c)))
        ensures RoadLevel(r, a, d)
      {
        assert RoadLevel(cs, a, d);
      }
    }
    if RiversLegal(cs) {
      forall a | 0 <= a < |r| && ((r[c].elevation == cs[c].elevation && r[c].waterLevel == cs[c].waterLevel) ||
          (a != c && (r[a].hasOutgoingRiver ==> r[a].neighbors[r[a].outgoingRiver] != Some(c))))
        ensures RiverLegal(r, a)
      {
        assert RiverLegal(cs, a);
        assert SameRivers(r[a], cs[a]);
      }
    }
  }

  /** Changing colour, walls or a density level keeps every invariant. */
  lemma DecorationKeeps(r: seq<Cell>, cs: seq<Cell>)
    requires SameEdges(r, cs) && Consistent(cs)
    requires forall a | 0 <= a < |cs| :: r[a].elevation == cs[a].elevation && r[a].waterLevel == cs[a].waterLevel
    ensures Consistent(r)
  {
    SameEdgesCore(r, cs);
    if |cs| > 0 {
      HeightsChangedAt(r, cs, 0);
    }
  }

  // ---------------------------------------------------------------------------
  // Roads

  lemma EdgesWithinTrans(x: seq<Cell>, y: seq<Cell>, z: seq<Cell>)
    requires EdgesWithin(x, y) && EdgesWithin(y, z)
    ensures EdgesWithin(x, z)
  {
    forall a | 0 <= a < |x| ensures CellEdgesWithin(x[a], z[a]) {
      assert CellEdgesWithin(x[a], y[a]) && CellEdgesWithin(y[a], z[a]);
    }
  }

  /** SetRoad changes the road bit on the two ends of one edge and nothing else. */
  lemma WithRoadFacts(cs: seq<Cell>, c: nat, d: HexDirection, state: bool)
    requires Shaped(cs) && Linked(cs) && c < |cs| && cs[c].neighbors[d].Some?
    ensures var r := WithRoad(cs, c, d, state); var b := cs[c].neighbors[d].value;
      b != c && |r| == |cs| && cs[b].neighbors[Opposite(d)] == Some(c) &&
      r[c] == cs[c].(roads := cs[c].roads[d := state]) &&
      r[b] == cs[b].(roads := cs[b].roads[Opposite(d) := state]) &&
      (forall a | 0 <= a < |cs| && a != c && a != b :: r[a] == cs[a]) &&
      SameFrame(r, cs) && SameLinks(r, cs) && Shaped(r) &&
      (forall a | 0 <= a < |cs| :: SameRivers(r[a], cs[a]))
  {
    NeighborsDistinct(cs, c, d, d);
    assert LinkMirrored(cs, c, d);
    var r := WithRoad(cs, c, d, state);
    LinksKeep(r, cs);
  }

  lemma RoadRemovedMirroredAt(cs: seq<Cell>, c: nat, d: HexDirection, a: nat, e: HexDirection)
    requires Shaped(cs) && Linked(cs) && RoadsMirrored(cs) && c < |cs| && cs[c].neighbors[d].Some?
    requires a < |cs| && WithRoad(cs, c, d, false)[a].roads[e]
    ensures cs[a].roads[e] && cs[a].neighbors[e].Some?
    ensures WithRoad(cs, c, d, false)[cs[a].neighbors[e].value].roads[Opposite(e)]
  {
    WithRoadFacts(cs, c, d, false);
    var r := WithRoad(cs, c, d, false);
    var b := cs[c].neighbors[d].value;
    assert cs[a].roads[e];
    assert RoadMirrored(cs, a, e) && LinkMirrored(cs, a, e);
    var n := cs[a].neighbors[e].value;
    assert cs[n].roads[Opposite(e)];
    assert cs[n].neighbors[Opposite(e)] == Some(a);
    if n == c && Opposite(e) == d {
      assert false;
    } else if n == b && Opposite(e) == Opposite(d) {
      assert false;
    }
  }

  /** Removing a road keeps both ends mirrored: the edge's two bits go together. */
  lemma RoadRemovedMirrored(cs: seq<Cell>, c: nat, d: HexDirection)
    requires Shaped(cs) && Linked(cs) && RoadsMirrored(cs) && c < |cs| && cs[c].neighbors[d].Some?
    requires Shaped(WithRoad(cs, c, d, false)) && SameLinks(WithRoad(cs, c, d, false), cs)
    ensures RoadsMirrored(WithRoad(cs, c, d, false))
  {
    var r := WithRoad(cs, c, d, false);
    forall a, e: HexDirection | 0 <= a < |r| ensures RoadMirrored(r, a, e) {
      if r[a].roads[e] {
        RoadRemovedMirroredAt(cs, c, d, a, e);
      }
    }
  }

  /** SetRoad(d, false): the edge loses its road, and every invariant survives. */
  lemma RoadRemovedKeeps(cs: seq<Cell>, c: nat, d: HexDirection)
    requires Core(cs) && c < |cs| && cs[c].neighbors[d].Some?
    ensures var r := WithRoad(cs, c, d, false);
      Core(r) && EdgesWithin(r, cs) && SameFrame(r, cs) &&
      (RoadsLevel(cs) ==> RoadsLevel(r)) && (RiversLegal(cs) ==> RiversLegal(r)) &&
      (forall e :: RoadsLevelAwayFrom(cs, e) ==> RoadsLevelAwayFrom(r, e)) &&
      (forall e :: RiversLegalAwayFrom(cs, e) ==> RiversLegalAwayFrom(r, e))
  {
    WithRoadFacts(cs, c, d, false);
    var r := WithRoad(cs, c, d, false);
    var b := cs[c].neighbors[d].value;
    assert EdgesWithin(r, cs) by {
      forall a | 0 <= a < |r| ensures CellEdgesWithin(r[a], cs[a]) {
        if a != c && a != b {
          assert r[a] == cs[a];
        }
      }
    }
    RoadRemovedMirrored(cs, c, d);
    RiversKeep(r, cs);
    ShrinkCore(r, cs);
    forall e ensures RoadsLevelAwayFrom(cs, e) ==> RoadsLevelAwayFrom(r, e)
      ensures RiversLegalAwayFrom(cs, e) ==> RiversLegalAwayFrom(r, e)
    {
      ShrinkKeeps(r, cs, e);
    }
  }

  lemma OppositeOpposite(d: HexDirection)
    ensures Opposite(Opposite(d)) == d
  {
  }

  lemma RoadAddedMirroredAt(cs: seq<Cell>, c: nat, d: HexDirection, a: nat, e: HexDirection)
    requires Shaped(cs) && Linked(cs) && RoadsMirrored(cs) && c < |cs| && cs[c].neighbors[d].Some?
    requires a < |cs| && WithRoad(cs, c, d, true)[a].roads[e]
    ensures RoadMirrored(WithRoad(cs, c, d, true), a, e)
  {
    var b := cs[c].neighbors[d].value;
    RoadAddedBit(cs, c, d, a, e);
    WithRoadFacts(cs, c, d, true);
    if a == c && e == d {
      RoadAddedBit(cs, c, d, b, Opposite(d));
    } else if a == b && e == Opposite(d) {
      OppositeOpposite(d);
      RoadAddedBit(cs, c, d, c, d);
    } else {
      assert RoadMirrored(cs, a, e);
      var n := cs[a].neighbors[e].value;
      assert cs[n].roads[Opposite(e)];
      RoadAddedBit(cs, c, d, n, Opposite(e));
    }
  }

  /** After SetRoad(d, true) a road bit is set exactly where it was, or on either end of edge `d`. */
  lemma RoadAddedBit(cs: seq<Cell>, c: nat, d: HexDirection, x: nat, f: HexDirection)
    requires Shaped(cs) && Linked(cs) && c < |cs| && cs[c].neighbors[d].Some? && x < |cs|
    ensures var r := WithRoad(cs, c, d, true); var b := cs[c].neighbors[d].value;
      r[x].neighbors == cs[x].neighbors && b != c && cs[b].neighbors[Opposite(d)] == Some(c) &&
      (r[x].roads[f] <==> cs[x].roads[f] || (x == c && f == d) || (x == b && f == Opposite(d)))
  {
    WithRoadFacts(cs, c, d, true);
  }

  lemma RoadAddedAvoidsAt(cs: seq<Cell>, c: nat, d: HexDirection, a: nat, e: HexDirection)
    requires Core(cs) && c < |cs| && cs[c].neighbors[d].Some? && CanAddRoad(cs, c, d)
    requires a < |cs| && WithRoad(cs, c, d, true)[a].roads[e]
    ensures !WithRoad(cs, c, d, true)[a].HasRiverThroughEdge(e)
  {
    WithRoadFacts(cs, c, d, true);
    var b := cs[c].neighbors[d].value;
    if a == c && e == d {
    } else if a == b && e == Opposite(d) {
      if cs[b].HasRiverThroughEdge(Opposite(d)) {
        RiverThroughEdgeFromNeighbor(cs, c, d);
      }
    } else {
      assert cs[a].roads[e];
    }
  }

  lemma RoadAddedLevelAt(cs: seq<Cell>, c: nat, d: HexDirection, a: nat, e: HexDirection)
    requires Shaped(cs) && Linked(cs) && RoadsLevel(cs) && c < |cs| && cs[c].neighbors[d].Some? && CanAddRoad(cs, c, d)
    requires a < |cs|
    ensures RoadLevel(WithRoad(cs, c, d, true), a, e)
  {
    WithRoadFacts(cs, c, d, true);
    var b := cs[c].neighbors[d].value;
    if a == c && e == d {
    } else if a == b && e == Opposite(d) {
    } else {
      assert RoadLevel(cs, a, e);
    }
  }

  /** AddRoad's guard is exactly what keeps every invariant when the road is laid. */
  lemma RoadAddedKeeps(cs: seq<Cell>, c: nat, d: HexDirection)
    requires Consistent(cs) && c < |cs| && cs[c].neighbors[d].Some? && CanAddRoad(cs, c, d)
    requires cs[c].chunk.Some? && cs[cs[c].neighbors[d].value].chunk.Some?
    ensures Consistent(WithRoad(cs, c, d, true))
  {
    WithRoadFacts(cs, c, d, true);
    var r := WithRoad(cs, c, d, true);
    var b := cs[c].neighbors[d].value;
    LinksKeep(r, cs);
    RiversKeep(r, cs);
    forall a, e: HexDirection | 0 <= a < |r| ensures RoadMirrored(r, a, e) {
      if r[a].roads[e] {
        RoadAddedMirroredAt(cs, c, d, a, e);
      }
    }
    forall a, e: HexDirection | 0 <= a < |r| && r[a].roads[e] ensures !r[a].HasRiverThroughEdge(e) {
      RoadAddedAvoidsAt(cs, c, d, a, e);
    }
    forall a, e: HexDirection | 0 <= a < |r| ensures RoadLevel(r, a, e) {
      RoadAddedLevelAt(cs, c, d, a, e);
    }
    forall a | 0 <= a < |r| && r[a].chunk.None? ensures Bare(r[a]) {
      assert Bare(cs[a]);
    }
    forall a | 0 <= a < |r| ensures RiverLegal(r, a) {
      assert RiverLegal(cs, a);
    }
  }

  /** AddRoad: a road on edge `d` only where there is none, no river crosses and the slope is at most one step. */
  function RoadAdded(cs: seq<Cell>, c: nat, d: HexDirection): (r: seq<Cell>)
    requires Shaped(cs) && c < |cs| && cs[c].neighbors[d].Some?
  {
    if CanAddRoad(cs, c, d) then WithRoad(cs, c, d, true) else cs
  }

  /**
   * AddRoad keeps every invariant. Afterwards edge `d` of `c` has a road exactly when
   * it had one or no river crosses it and it climbs at most one step, and both ends agree.
   */
  lemma RoadAddedSpec(cs: seq<Cell>, c: nat, d: HexDirection)
    requires Consistent(cs) && c < |cs| && cs[c].neighbors[d].Some?
    requires CanAddRoad(cs, c, d) ==> cs[c].chunk.Some? && cs[cs[c].neighbors[d].value].chunk.Some?
    ensures var r := RoadAdded(cs, c, d); var b := cs[c].neighbors[d].value;
      Consistent(r) && |r| == |cs| &&
      (r[c].roads[d] <==> cs[c].roads[d] || (!cs[c].HasRiverThroughEdge(d) && GetElevationDifference(cs, c, d) <= 1)) &&
      r[b].roads[Opposite(d)] == r[c].roads[d] &&
      (!CanAddRoad(cs, c, d) ==> r == cs) &&
      (forall a | 0 <= a < |cs| && a != c && a != b :: r[a] == cs[a])
  {
    var b := cs[c].neighbors[d].value;
    if CanAddRoad(cs, c, d) {
      RoadAddedKeeps(cs, c, d);
      WithRoadFacts(cs, c, d, true);
    } else {
      assert RoadMirrored(cs, c, d) && RoadMirrored(cs, b, Opposite(d)) && LinkMirrored(cs, c, d);
      OppositeOpposite(d);
      if cs[c].roads[d] {
        assert cs[b].roads[Opposite(d)];
      } else if cs[b].roads[Opposite(d)] {
        assert false;
      }
    }
  }

  // ---------------------------------------------------------------------------
  // ValidateRivers

  /** The river entering `c` comes from a neighbour that may flow into `c`. */
  predicate IncomingLegal(cs: seq<Cell>, c: nat)
    requires Shaped(cs) && c < |cs|
  {
    var n := cs[c].neighbors[cs[c].incomingRiver];
    n.Some? && IsValidRiverDestination(cs, n.value, Some(c))
  }

  /** The first test of ValidateRivers: an outgoing river that may not flow is removed. */
  function OutgoingValidated(cs: seq<Cell>, c: nat): (r: seq<Cell>)
    requires Core(cs) && c < |cs|
    ensures Core(r) && EdgesWithin(r, cs)
  {
    if cs[c].hasOutgoingRiver && !RiverLegal(cs, c) then
      ClearedOutgoingKeeps(cs, c); ClearedOutgoing(cs, c)
    else
      cs
  }

  /** The second test of ValidateRivers: an incoming river whose source may not flow here is removed. */
  function IncomingValidated(cs: seq<Cell>, c: nat): (r: seq<Cell>)
    requires Core(cs) && c < |cs|
    ensures Core(r) && EdgesWithin(r, cs)
  {
    if cs[c].hasIncomingRiver && !IncomingLegal(cs, c) then
      ClearedIncomingKeeps(cs, c); ClearedIncoming(cs, c)
    else
      cs
  }

  /** ValidateRivers: both tests, outgoing first. */
  function Validated(cs: seq<Cell>, c: nat): (r: seq<Cell>)
    requires Core(cs) && c < |cs|
    ensures Core(r) && EdgesWithin(r, cs)
  {
    var s1 := OutgoingValidated(cs, c);
    EdgesWithinTrans(IncomingValidated(s1, c), s1, cs);
    IncomingValidated(s1, c)
  }

  /** Every river of `cs` that neither leaves nor enters `c` is still in `r`. */
  ghost predicate RiversKeptAwayFrom(r: seq<Cell>, cs: seq<Cell>, c: nat)
    requires Shaped(cs) && |r| == |cs|
  {
    forall a | 0 <= a < |cs| && a != c ::
      (cs[a].hasOutgoingRiver && cs[a].neighbors[cs[a].outgoingRiver] != Some(c) ==> r[a].hasOutgoingRiver) &&
      (cs[a].hasIncomingRiver && cs[a].neighbors[cs[a].incomingRiver] != Some(c) ==> r[a].hasIncomingRiver)
  }

  /**
   * After rivers were removed from `cs`, every river is legal if the rivers away
   * from `c` were legal before and the rivers of `c` that remain pass the two tests.
   */
  lemma LegalAfterValidation(r: seq<Cell>, cs: seq<Cell>, c: nat, a: nat)
    requires Core(r) && Shaped(cs) && Linked(cs) && EdgesWithin(r, cs) && c < |cs| && a < |cs|
    requires RiversLegalAwayFrom(cs, c)
    requires r[c].hasOutgoingRiver ==> RiverLegal(cs, c)
    requires r[c].hasIncomingRiver ==> IncomingLegal(cs, c)
    ensures RiverLegal(r, a)
  {
    EdgesWithinFrame(r, cs);
    if r[a].hasOutgoingRiver {
      assert CellEdgesWithin(r[a], cs[a]);
      var n := cs[a].neighbors[cs[a].outgoingRiver];
      if a == c {
      } else if n == Some(c) {
        assert OutgoingMirrored(r, a) && LinkMirrored(cs, a, cs[a].outgoingRiver);
        assert cs[c].neighbors[Opposite(cs[a].outgoingRiver)] == Some(a);
        assert IncomingLegal(cs, c);
      } else {
        assert RiverLegal(cs, a);
      }
    }
  }

  lemma ClearedOutgoingKeepsAway(cs: seq<Cell>, c: nat)
    requires Shaped(cs) && Linked(cs) && RiversMirrored(cs) && c < |cs| && cs[c].hasOutgoingRiver
    ensures cs[c].neighbors[cs[c].outgoingRiver].Some?
    ensures var r := ClearedOutgoing(cs, c);
      SameFrame(r, cs) && RiversKeptAwayFrom(r, cs, c) &&
      (forall a | 0 <= a < |cs| :: r[a].roads == cs[a].roads) &&
      r[c] == cs[c].(hasOutgoingRiver := false)
  {
    ClearedOutgoingWithin(cs, c);
    var r := ClearedOutgoing(cs, c);
    var t := cs[c].neighbors[cs[c].outgoingRiver].value;
    assert OutgoingMirrored(cs, c) && LinkMirrored(cs, c, cs[c].outgoingRiver);
    assert cs[t].neighbors[Opposite(cs[c].outgoingRiver)] == Some(c);
    forall a | 0 <= a < |cs| && a != c && a != t ensures r[a] == cs[a] {
    }
  }

  lemma ClearedIncomingKeepsAway(cs: seq<Cell>, c: nat)
    requires Shaped(cs) && Linked(cs) && RiversMirrored(cs) && c < |cs| && cs[c].hasIncomingRiver
    ensures cs[c].neighbors[cs[c].incomingRiver].Some?
    ensures var r := ClearedIncoming(cs, c);
      SameFrame(r, cs) && RiversKeptAwayFrom(r, cs, c) &&
      (forall a | 0 <= a < |cs| :: r[a].roads == cs[a].roads) &&
      r[c] == cs[c].(hasIncomingRiver := false)
  {
    ClearedIncomingWithin(cs, c);
    var r := ClearedIncoming(cs, c);
    var t := cs[c].neighbors[cs[c].incomingRiver].value;
    assert IncomingMirrored(cs, c) && LinkMirrored(cs, c, cs[c].incomingRiver);
    assert cs[t].neighbors[Opposite(cs[c].incomingRiver)] == Some(c);
    forall a | 0 <= a < |cs| && a != c && a != t ensures r[a] == cs[a] {
    }
  }

  lemma OutgoingValidatedFacts(cs: seq<Cell>, c: nat)
    requires Core(cs) && c < |cs|
    ensures var r := OutgoingValidated(cs, c);
      SameFrame(r, cs) && RiversKeptAwayFrom(r, cs, c) &&
      (forall a | 0 <= a < |cs| :: r[a].roads == cs[a].roads) &&
      r[c] == cs[c].(hasOutgoingRiver := cs[c].hasOutgoingRiver && RiverLegal(cs, c))
  {
    if cs[c].hasOutgoingRiver && !RiverLegal(cs, c) {
      ClearedOutgoingKeepsAway(cs, c);
    }
  }

  lemma IncomingValidatedFacts(cs: seq<Cell>, c: nat)
    requires Core(cs) && c < |cs|
    ensures var r := IncomingValidated(cs, c);
      SameFrame(r, cs) && RiversKeptAwayFrom(r, cs, c) &&
      (forall a | 0 <= a < |cs| :: r[a].roads == cs[a].roads) &&
      r[c] == cs[c].(hasIncomingRiver := cs[c].hasIncomingRiver && IncomingLegal(cs, c))
  {
    if cs[c].hasIncomingRiver && !IncomingLegal(cs, c) {
      ClearedIncomingKeepsAway(cs, c);
    }
  }

  /**
   * ValidateRivers removes exactly the rivers of `c` that fail the destination rule,
   * touches nothing else, and leaves every river of the map legal.
   */
  lemma ValidatedSpec(cs: seq<Cell>, c: nat)
    requires Core(cs) && c < |cs| && RiversLegalAwayFrom(cs, c)
    ensures var r := Validated(cs, c);
      RiversLegal(r) && RiversKeptAwayFrom(r, cs, c) && SameFrame(r, cs) &&
      (forall a | 0 <= a < |cs| :: r[a].roads == cs[a].roads) &&
      (r[c].hasOutgoingRiver <==> cs[c].hasOutgoingRiver && RiverLegal(cs, c)) &&
      (r[c].hasIncomingRiver <==> cs[c].hasIncomingRiver && IncomingLegal(cs, c)) &&
      (RoadsLevel(cs) ==> RoadsLevel(r)) && (RoadsLevelAwayFrom(cs, c) ==> RoadsLevelAwayFrom(r, c))
  {
    var r := Validated(cs, c);
    ValidatedFacts(cs, c);
    forall a | 0 <= a < |r| ensures RiverLegal(r, a) {
      LegalAfterValidation(r, cs, c, a);
    }
    ShrinkRoads(r, cs, c);
  }

  /** ValidateRivers changes only the rivers of `c`: each stays exactly when it is legal. */
  lemma ValidatedFacts(cs: seq<Cell>, c: nat)
    requires Core(cs) && c < |cs|
    ensures var r := Validated(cs, c);
      RiversKeptAwayFrom(r, cs, c) && SameFrame(r, cs) &&
      (forall a | 0 <= a < |cs| :: r[a].roads == cs[a].roads) &&
      (r[c].hasOutgoingRiver <==> cs[c].hasOutgoingRiver && RiverLegal(cs, c)) &&
      (r[c].hasIncomingRiver <==> cs[c].hasIncomingRiver && IncomingLegal(cs, c))
  {
    var s1 := OutgoingValidated(cs, c);
    OutgoingValidatedFacts(cs, c);
    IncomingValidatedFacts(s1, c);
    assert IncomingLegal(s1, c) == IncomingLegal(cs, c);
  }

  // ---------------------------------------------------------------------------
  // The road loops of the Elevation setter and of RemoveRoads

  /** Every road of `cs` on an edge that does not touch `c` is still in `r`. */
  ghost predicate RoadsKeptAwayFrom(r: seq<Cell>, cs: seq<Cell>, c: nat)
    requires Shaped(cs) && Shaped(r) && |r| == |cs|
  {
    forall a, d: HexDirection | 0 <= a < |cs| && a != c && cs[a].roads[d] && cs[a].neighbors[d] != Some(c) ::
      r[a].roads[d]
  }

  /** Removing a road at `c` keeps every road away from `c`. */
  lemma RoadRemovedKeepsAway(cs: seq<Cell>, c: nat, d: HexDirection)
    requires Shaped(cs) && Linked(cs) && c < |cs| && cs[c].neighbors[d].Some?
    ensures Shaped(WithRoad(cs, c, d, false))
    ensures RoadsKeptAwayFrom(WithRoad(cs, c, d, false), cs, c)
  {
    WithRoadFacts(cs, c, d, false);
  }

  lemma RoadsKeptAwayFromTrans(x: seq<Cell>, y: seq<Cell>, z: seq<Cell>, c: nat)
    requires Shaped(x) && Shaped(y) && Shaped(z) && |x| == |y| == |z| && SameLinks(y, z)
    requires RoadsKeptAwayFrom(x, y, c) && RoadsKeptAwayFrom(y, z, c)
    ensures RoadsKeptAwayFrom(x, z, c)
  {
  }

  /** The road across edge `d` of `c` would climb more than one elevation step. */
  predicate Steep(cs: seq<Cell>, c: nat, d: HexDirection)
    requires Shaped(cs) && c < |cs|
  {
    cs[c].neighbors[d].Some? && GetElevationDifference(cs, c, d) > 1
  }

  /** The road loop of the Elevation setter, over the directions below `n`: a road that climbs more than one step is removed. */
  function SteepRoadsRemoved(cs: seq<Cell>, c: nat, n: nat): (r: seq<Cell>)
    requires Core(cs) && c < |cs| && n <= 6
    ensures Core(r) && EdgesWithin(r, cs)
    decreases n
  {
    if n == 0 then
      cs
    else
      var p := SteepRoadsRemoved(cs, c, n - 1);
      if p[c].roads[n - 1] && Steep(p, c, n - 1) then
        RoadRemovedKeeps(p, c, n - 1);
        EdgesWithinTrans(WithRoad(p, c, n - 1, false), p, cs);
        WithRoad(p, c, n - 1, false)
      else
        p
  }

  /** The loop of RemoveRoads, over the directions below `n`: every road is removed. */
  function RoadsRemoved(cs: seq<Cell>, c: nat, n: nat): (r: seq<Cell>)
    requires Core(cs) && c < |cs| && n <= 6
    ensures Core(r) && EdgesWithin(r, cs)
    decreases n
  {
    if n == 0 then
      cs
    else
      var p := RoadsRemoved(cs, c, n - 1);
      if p[c].roads[n - 1] then
        assert RoadMirrored(p, c, n - 1);
        RoadRemovedKeeps(p, c, n - 1);
        EdgesWithinTrans(WithRoad(p, c, n - 1, false), p, cs);
        WithRoad(p, c, n - 1, false)
      else
        p
  }

  /** One step of either loop, seen from `c`: one road bit of `c` goes, nothing away from `c` does. */
  lemma RoadStep(p: seq<Cell>, c: nat, d: HexDirection)
    requires Shaped(p) && Linked(p) && c < |p| && p[c].neighbors[d].Some?
    ensures var r := WithRoad(p, c, d, false);
      Shaped(r) && SameFrame(r, p) && SameLinks(r, p) && RoadsKeptAwayFrom(r, p, c) &&
      (forall a | 0 <= a < |p| :: SameRivers(r[a], p[a])) &&
      r[c].roads == p[c].roads[d := false]
  {
    WithRoadFacts(p, c, d, false);
    RoadRemovedKeepsAway(p, c, d);
  }

  /** What both loops keep, between the map before the loop and after it. */
  ghost predicate RoadLoopFrame(r: seq<Cell>, cs: seq<Cell>, c: nat)
    requires Shaped(cs) && Shaped(r) && |r| == |cs|
  {
    SameFrame(r, cs) && SameLinks(r, cs) && RoadsKeptAwayFrom(r, cs, c) &&
    forall a | 0 <= a < |cs| :: SameRivers(r[a], cs[a])
  }

  /** One step of RemoveRoads keeps the frame of the loop: the road of `c` towards `d` goes if it is there. */
  lemma RoadLoopFrameStep(p: seq<Cell>, cs: seq<Cell>, c: nat, d: HexDirection)
    requires Core(p) && Shaped(cs) && |p| == |cs| && c < |p| && RoadLoopFrame(p, cs, c)
    ensures p[c].roads[d] ==> p[c].neighbors[d].Some? && RoadLoopFrame(WithRoad(p, c, d, false), cs, c)
  {
    if p[c].roads[d] {
      assert RoadMirrored(p, c, d);
      RoadStep(p, c, d);
      RoadLoopFrameTrans(WithRoad(p, c, d, false), p, cs, c);
    }
  }

  lemma RoadLoopFrameSame(cs: seq<Cell>, c: nat)
    requires Shaped(cs)
    ensures RoadLoopFrame(cs, cs, c)
  {
  }

  lemma RoadLoopFrameTrans(r: seq<Cell>, p: seq<Cell>, cs: seq<Cell>, c: nat)
    requires Shaped(cs) && Shaped(p) && Shaped(r) && |r| == |p| == |cs|
    requires RoadLoopFrame(r, p, c) && RoadLoopFrame(p, cs, c)
    ensures RoadLoopFrame(r, cs, c)
  {
    RoadsKeptAwayFromTrans(r, p, cs, c);
    forall a | 0 <= a < |cs| ensures SameRivers(r[a], cs[a]) {
      assert SameRivers(r[a], p[a]) && SameRivers(p[a], cs[a]);
    }
  }

  lemma {:induction false} SteepRoadsRemovedFrame(cs: seq<Cell>, c: nat, n: nat)
    requires Core(cs) && c < |cs| && n <= 6
    ensures RoadLoopFrame(SteepRoadsRemoved(cs, c, n), cs, c)
    decreases n
  {
    var r := SteepRoadsRemoved(cs, c, n);
    if n == 0 {
      RoadLoopFrameSame(cs, c);
    } else {
      var p := SteepRoadsRemoved(cs, c, n - 1);
      SteepRoadsRemovedFrame(cs, c, n - 1);
      if p[c].roads[n - 1] && Steep(p, c, n - 1) {
        assert r == WithRoad(p, c, n - 1, false);
        RoadLoopFrameStep(p, cs, c, n - 1);
      } else {
        assert r == p;
      }
    }
  }

  /** Steepness depends on links and elevations only, so removing edges does not change it. */
  lemma SteepSame(p: seq<Cell>, cs: seq<Cell>, c: nat, d: HexDirection)
    requires Shaped(p) && Shaped(cs) && EdgesWithin(p, cs) && c < |cs|
    ensures Steep(p, c, d) == Steep(cs, c, d)
  {
    assert CellEdgesWithin(p[c], cs[c]);
    CellEdgesWithinKeeps(p[c], cs[c]);
    if cs[c].neighbors[d].Some? {
      var b := cs[c].neighbors[d].value;
      assert CellEdgesWithin(p[b], cs[b]);
      CellEdgesWithinKeeps(p[b], cs[b]);
    }
  }

  /** One step of the Elevation setter's loop, seen from `c`: the road towards `d` goes exactly when it climbs too steeply. */
  lemma SteepRoadStepAtCell(p: seq<Cell>, c: nat, d: HexDirection)
    requires Core(p) && c < |p|
    ensures var r := if p[c].roads[d] && Steep(p, c, d) then WithRoad(p, c, d, false) else p;
      forall e: HexDirection :: r[c].roads[e] == (p[c].roads[e] && !(e == d && Steep(p, c, d)))
  {
    if p[c].roads[d] && Steep(p, c, d) {
      RoadStep(p, c, d);
    }
  }

  lemma {:induction false} SteepRoadsRemovedAtCell(cs: seq<Cell>, c: nat, n: nat)
    requires Core(cs) && c < |cs| && n <= 6
    ensures var r := SteepRoadsRemoved(cs, c, n);
      forall d: HexDirection :: r[c].roads[d] <==> cs[c].roads[d] && !(d < n && Steep(cs, c, d))
    decreases n
  {
    if n > 0 {
      var r := SteepRoadsRemoved(cs, c, n);
      var p := SteepRoadsRemoved(cs, c, n - 1);
      SteepRoadsRemovedAtCell(cs, c, n - 1);
      SteepSame(p, cs, c, n - 1);
      SteepRoadStepAtCell(p, c, n - 1);
      forall d: HexDirection
        ensures r[c].roads[d] <==> cs[c].roads[d] && !(d < n && Steep(cs, c, d))
      {
        assert p[c].roads[d] <==> cs[c].roads[d] && !(d < n - 1 && Steep(cs, c, d));
      }
    }
  }

  /**
   * The Elevation setter's loop removes the roads of `c` below `n` that climb more
   * than one step, keeps the others, and changes no river and no road away from `c`.
   */
  lemma SteepRoadsRemovedSpec(cs: seq<Cell>, c: nat, n: nat)
    requires Core(cs) && c < |cs| && n <= 6
    ensures var r := SteepRoadsRemoved(cs, c, n);
      RoadLoopFrame(r, cs, c) &&
      forall d: HexDirection :: r[c].roads[d] <==> cs[c].roads[d] && !(d < n && Steep(cs, c, d))
  {
    SteepRoadsRemovedFrame(cs, c, n);
    SteepRoadsRemovedAtCell(cs, c, n);
  }

  lemma {:induction false} RoadsRemovedFrame(cs: seq<Cell>, c: nat, n: nat)
    requires Core(cs) && c < |cs| && n <= 6
    ensures RoadLoopFrame(RoadsRemoved(cs, c, n), cs, c)
    decreases n
  {
    var r := RoadsRemoved(cs, c, n);
    if n == 0 {
      RoadLoopFrameSame(cs, c);
    } else {
      RoadsRemovedFrame(cs, c, n - 1);
      RoadLoopFrameStep(RoadsRemoved(cs, c, n - 1), cs, c, n - 1);
    }
  }

  lemma {:induction false} RoadsRemovedAtCell(cs: seq<Cell>, c: nat, n: nat)
    requires Core(cs) && c < |cs| && n <= 6
    ensures var r := RoadsRemoved(cs, c, n);
      forall d: HexDirection :: r[c].roads[d] <==> cs[c].roads[d] && d >= n
    decreases n
  {
    if n > 0 {
      var p := RoadsRemoved(cs, c, n - 1);
      RoadsRemovedAtCell(cs, c, n - 1);
      if p[c].roads[n - 1] {
        assert RoadMirrored(p, c, n - 1);
        RoadStep(p, c, n - 1);
      }
    }
  }

  /** RemoveRoads' loop removes the roads of `c` below `n` and changes no river and no road away from `c`. */
  lemma RoadsRemovedSpec(cs: seq<Cell>, c: nat, n: nat)
    requires Core(cs) && c < |cs| && n <= 6
    ensures var r := RoadsRemoved(cs, c, n);
      RoadLoopFrame(r, cs, c) &&
      forall d: HexDirection :: r[c].roads[d] <==> cs[c].roads[d] && d >= n
  {
    RoadsRemovedFrame(cs, c, n);
    RoadsRemovedAtCell(cs, c, n);
  }

  /** RemoveRoads keeps every invariant and leaves `c` without roads, on both ends of each of its edges. */
  lemma RoadsRemovedKeeps(cs: seq<Cell>, c: nat)
    requires Consistent(cs) && c < |cs|
    ensures var r := RoadsRemoved(cs, c, 6);
      Consistent(r) && RoadLoopFrame(r, cs, c) &&
      forall d: HexDirection :: !r[c].roads[d] &&
        (r[c].neighbors[d].Some? ==> !r[r[c].neighbors[d].value].roads[Opposite(d)])
  {
    var r := RoadsRemoved(cs, c, 6);
    RoadsRemovedSpec(cs, c, 6);
    ShrinkCore(r, cs);
    forall d: HexDirection | r[c].neighbors[d].Some?
      ensures !r[r[c].neighbors[d].value].roads[Opposite(d)]
    {
      OppositeOpposite(d);
      assert LinkMirrored(r, c, d) && RoadMirrored(r, r[c].neighbors[d].value, Opposite(d));
      if r[r[c].neighbors[d].value].roads[Opposite(d)] {
        assert false;
      }
    }
  }

  /**
   * After roads were removed from `cs`, every road is level if the roads away from
   * `c` were level before and the roads of `c` that remain climb at most one step.
   */
  lemma LevelAfterPruning(r: seq<Cell>, cs: seq<Cell>, c: nat, a: nat, e: HexDirection)
    requires Core(r) && Shaped(cs) && Linked(cs) && RoadsMirrored(cs) && EdgesWithin(r, cs) && c < |cs| && a < |cs|
    requires RoadsLevelAwayFrom(cs, c)
    requires forall d: HexDirection :: r[c].roads[d] ==> !Steep(cs, c, d)
    ensures RoadLevel(r, a, e)
  {
    EdgesWithinFrame(r, cs);
    if r[a].roads[e] {
      assert CellEdgesWithin(r[a], cs[a]);
      assert cs[a].roads[e];
      if a == c {
      } else if cs[a].neighbors[e] == Some(c) {
        assert RoadMirrored(r, a, e) && LinkMirrored(cs, a, e);
        assert r[c].roads[Opposite(e)];
        assert cs[c].neighbors[Opposite(e)] == Some(a);
        assert !Steep(cs, c, Opposite(e));
      } else {
        assert RoadLevel(cs, a, e);
      }
    }
  }

  // ---------------------------------------------------------------------------
  // The Elevation and WaterLevel setters

  /** The elevation field of `c` assigned, nothing repaired yet. */
  function WithElevation(cs: seq<Cell>, c: nat, v: int): (r: seq<Cell>)
    requires Shaped(cs) && c < |cs|
    ensures SameEdges(r, cs) && |r| == |cs| && r[c].elevation == v && Shaped(r)
    ensures forall a | 0 <= a < |cs| && a != c :: r[a] == cs[a]
  {
    var r := cs[c := cs[c].(elevation := v)];
    LinksKeep(r, cs);
    r
  }

  /** The water level field of `c` assigned, nothing repaired yet. */
  function WithWaterLevel(cs: seq<Cell>, c: nat, v: int): (r: seq<Cell>)
    requires Shaped(cs) && c < |cs|
    ensures SameEdges(r, cs) && |r| == |cs| && r[c].waterLevel == v && Shaped(r)
    ensures forall a | 0 <= a < |cs| && a != c :: r[a] == cs[a]
  {
    var r := cs[c := cs[c].(waterLevel := v)];
    LinksKeep(r, cs);
    r
  }

  /** The Elevation setter: nothing when the value is unchanged, else assign, ValidateRivers, drop steep roads. */
  function ElevationChanged(cs: seq<Cell>, c: nat, v: int): (r: seq<Cell>)
    requires Core(cs) && c < |cs|
    ensures Core(r) && |r| == |cs|
  {
    if cs[c].elevation == v then
      cs
    else
      SameEdgesCore(WithElevation(cs, c, v), cs);
      SteepRoadsRemoved(Validated(WithElevation(cs, c, v), c), c, 6)
  }

  /** The WaterLevel setter: nothing when the value is unchanged, else assign and ValidateRivers. */
  function WaterLevelChanged(cs: seq<Cell>, c: nat, v: int): (r: seq<Cell>)
    requires Core(cs) && c < |cs|
    ensures Core(r) && |r| == |cs|
  {
    if cs[c].waterLevel == v then
      cs
    else
      SameEdgesCore(WithWaterLevel(cs, c, v), cs);
      Validated(WithWaterLevel(cs, c, v), c)
  }

  /** In a consistent map the rivers and roads of every cell pass the tests of the setters. */
  lemma ConsistentPasses(cs: seq<Cell>, c: nat)
    requires Consistent(cs) && c < |cs|
    ensures cs[c].hasOutgoingRiver ==> RiverLegal(cs, c)
    ensures cs[c].hasIncomingRiver ==> IncomingLegal(cs, c)
    ensures forall d: HexDirection :: cs[c].roads[d] ==> !Steep(cs, c, d)
  {
    if cs[c].hasIncomingRiver {
      assert IncomingMirrored(cs, c);
      var n := cs[c].neighbors[cs[c].incomingRiver].value;
      assert RiverLegal(cs, n) && LinkMirrored(cs, c, cs[c].incomingRiver);
      assert cs[n].neighbors[Opposite(cs[c].incomingRiver)] == Some(c);
      OppositeOpposite(cs[c].incomingRiver);
    }
    forall d: HexDirection | cs[c].roads[d] ensures !Steep(cs, c, d) {
      assert RoadLevel(cs, c, d);
    }
  }

  /**
   * The Elevation setter keeps every invariant. Of the rivers and roads of `c` it
   * keeps exactly those that are still legal at the new elevation, and it removes
   * nothing that does not touch `c`.
   */
  lemma ElevationChangedSpec(cs: seq<Cell>, c: nat, v: int)
    requires Consistent(cs) && c < |cs|
    ensures var r := ElevationChanged(cs, c, v); var raised := WithElevation(cs, c, v);
      Consistent(r) && EdgesWithin(r, raised) &&
      RiversKeptAwayFrom(r, cs, c) && RoadsKeptAwayFrom(r, cs, c) &&
      (r[c].hasOutgoingRiver <==> cs[c].hasOutgoingRiver && RiverLegal(raised, c)) &&
      (r[c].hasIncomingRiver <==> cs[c].hasIncomingRiver && IncomingLegal(raised, c)) &&
      forall d: HexDirection :: r[c].roads[d] <==> cs[c].roads[d] && !Steep(raised, c, d)
  {
    if cs[c].elevation == v {
      UnchangedPasses(cs, c);
      assert WithElevation(cs, c, v) == cs;
    } else {
      ElevationChangedSteps(cs, c, v);
    }
  }

  /** A consistent map, seen as the result of an edit that removed nothing. */
  lemma UnchangedPasses(cs: seq<Cell>, c: nat)
    requires Consistent(cs) && c < |cs|
    ensures EdgesWithin(cs, cs) && RiversKeptAwayFrom(cs, cs, c) && RoadsKeptAwayFrom(cs, cs, c)
    ensures cs[c].hasOutgoingRiver <==> cs[c].hasOutgoingRiver && RiverLegal(cs, c)
    ensures cs[c].hasIncomingRiver <==> cs[c].hasIncomingRiver && IncomingLegal(cs, c)
    ensures forall d: HexDirection :: cs[c].roads[d] <==> cs[c].roads[d] && !Steep(cs, c, d)
  {
    ConsistentPasses(cs, c);
    EdgesWithinRefl(cs);
    RoadsKeptRefl(cs, c);
    RiversKeptRefl(cs, c);
  }

  lemma EdgesWithinRefl(cs: seq<Cell>)
    ensures EdgesWithin(cs, cs)
  {
  }

  lemma RoadsKeptRefl(cs: seq<Cell>, c: nat)
    requires Shaped(cs)
    ensures RoadsKeptAwayFrom(cs, cs, c)
  {
  }

  lemma RiversKeptRefl(cs: seq<Cell>, c: nat)
    requires Shaped(cs)
    ensures RiversKeptAwayFrom(cs, cs, c)
  {
  }

  lemma ElevationChangedSteps(cs: seq<Cell>, c: nat, v: int)
    requires Consistent(cs) && c < |cs| && cs[c].elevation != v
    ensures var r := ElevationChanged(cs, c, v); var raised := WithElevation(cs, c, v);
      Consistent(r) && EdgesWithin(r, raised) &&
      RiversKeptAwayFrom(r, cs, c) && RoadsKeptAwayFrom(r, cs, c) &&
      (r[c].hasOutgoingRiver <==> cs[c].hasOutgoingRiver && RiverLegal(raised, c)) &&
      (r[c].hasIncomingRiver <==> cs[c].hasIncomingRiver && IncomingLegal(raised, c)) &&
      forall d: HexDirection :: r[c].roads[d] <==> cs[c].roads[d] && !Steep(raised, c, d)
  {
    var raised := WithElevation(cs, c, v);
    SameEdgesCore(raised, cs);
    HeightsChangedAt(raised, cs, c);
    var validated := Validated(raised, c);
    ValidatedSpec(raised, c);
    var r := SteepRoadsRemoved(validated, c, 6);
    SteepRoadsRemovedSpec(validated, c, 6);
    assert r == ElevationChanged(cs, c, v);
    EdgesWithinTrans(r, validated, raised);
    forall d: HexDirection ensures Steep(validated, c, d) == Steep(raised, c, d) {
      SteepSame(validated, raised, c, d);
    }
    forall a, e: HexDirection | 0 <= a < |r| ensures RoadLevel(r, a, e) {
      LevelAfterPruning(r, validated, c, a, e);
    }
    ShrinkKeeps(r, validated, c);
  }

  /**
   * The WaterLevel setter keeps every invariant. It can only retract the outgoing
   * river of `c` (when that river no longer runs downhill or into water); the
   * incoming river, every road and every river away from `c` stay.
   */
  lemma WaterLevelChangedSpec(cs: seq<Cell>, c: nat, v: int)
    requires Consistent(cs) && c < |cs|
    ensures var r := WaterLevelChanged(cs, c, v); var wet := WithWaterLevel(cs, c, v);
      Consistent(r) && EdgesWithin(r, wet) && RiversKeptAwayFrom(r, cs, c) &&
      (forall a | 0 <= a < |cs| :: r[a].roads == cs[a].roads) &&
      (r[c].hasOutgoingRiver <==> cs[c].hasOutgoingRiver && RiverLegal(wet, c)) &&
      r[c].hasIncomingRiver == cs[c].hasIncomingRiver
  {
    var wet := WithWaterLevel(cs, c, v);
    ConsistentPasses(cs, c);
    if cs[c].waterLevel == v {
      UnchangedPasses(cs, c);
      assert wet == cs;
    } else {
      SameEdgesCore(wet, cs);
      HeightsChangedAt(wet, cs, c);
      ValidatedSpec(wet, c);
      assert IncomingLegal(wet, c) == IncomingLegal(cs, c);
    }
  }

  // ---------------------------------------------------------------------------
  // RemoveOutgoingRiver, RemoveIncomingRiver, RemoveRiver

  /** RemoveOutgoingRiver on any map: nothing without an outgoing river, else both ends cleared. */
  function OutgoingRemoved(cs: seq<Cell>, c: nat): (r: seq<Cell>)
    requires Shaped(cs) && c < |cs|
    requires cs[c].hasOutgoingRiver ==> cs[c].neighbors[cs[c].outgoingRiver].Some?
    ensures Shaped(r) && SameFrame(r, cs) && SameLinks(r, cs) && !r[c].hasOutgoingRiver
    ensures forall a | 0 <= a < |cs| :: r[a].roads == cs[a].roads
  {
    if cs[c].hasOutgoingRiver then
      var r := ClearedOutgoing(cs, c);
      LinksKeep(r, cs);
      r
    else
      cs
  }

  /** RemoveIncomingRiver on any map: nothing without an incoming river, else both ends cleared. */
  function IncomingRemoved(cs: seq<Cell>, c: nat): (r: seq<Cell>)
    requires Shaped(cs) && c < |cs|
    requires cs[c].hasIncomingRiver ==> cs[c].neighbors[cs[c].incomingRiver].Some?
    ensures Shaped(r) && SameFrame(r, cs) && SameLinks(r, cs) && !r[c].hasIncomingRiver
    ensures forall a | 0 <= a < |cs| :: r[a].roads == cs[a].roads
  {
    if cs[c].hasIncomingRiver then
      var r := ClearedIncoming(cs, c);
      LinksKeep(r, cs);
      r
    else
      cs
  }

  /** What removing one river of `c` leaves: the rest of `c`, every road, every river away from `c`. */
  ghost predicate RiverRemovalFrame(r: seq<Cell>, cs: seq<Cell>, c: nat)
    requires Core(cs) && Core(r) && c < |cs| && |r| == |cs|
  {
    EdgesWithin(r, cs) && RiversKeptAwayFrom(r, cs, c) &&
    (RoadsLevel(cs) ==> RoadsLevel(r)) && (RiversLegal(cs) ==> RiversLegal(r)) &&
    (forall e :: RoadsLevelAwayFrom(cs, e) ==> RoadsLevelAwayFrom(r, e)) &&
    (forall e :: RiversLegalAwayFrom(cs, e) ==> RiversLegalAwayFrom(r, e))
  }

  /**
   * RemoveOutgoingRiver keeps every invariant: it clears the outgoing flag of `c` and
   * the incoming flag of the cell downstream, and nothing else.
   */
  lemma OutgoingRemovedKeeps(cs: seq<Cell>, c: nat)
    requires Core(cs) && c < |cs|
    ensures cs[c].hasOutgoingRiver ==> cs[c].neighbors[cs[c].outgoingRiver].Some?
    ensures var r := OutgoingRemoved(cs, c);
      Core(r) && RiverRemovalFrame(r, cs, c) && r[c] == cs[c].(hasOutgoingRiver := false) &&
      (cs[c].hasOutgoingRiver ==> !r[cs[c].neighbors[cs[c].outgoingRiver].value].hasIncomingRiver)
  {
    assert OutgoingMirrored(cs, c);
    var r := OutgoingRemoved(cs, c);
    if cs[c].hasOutgoingRiver {
      ClearedOutgoingKeeps(cs, c);
      ClearedOutgoingKeepsAway(cs, c);
      forall e ensures RoadsLevelAwayFrom(cs, e) ==> RoadsLevelAwayFrom(r, e)
        ensures RiversLegalAwayFrom(cs, e) ==> RiversLegalAwayFrom(r, e)
      {
        ShrinkKeeps(r, cs, e);
      }
    } else {
      UnchangedFrame(cs, c);
    }
  }

  /**
   * RemoveIncomingRiver keeps every invariant: it clears the incoming flag of `c` and
   * the outgoing flag of the cell upstream, and nothing else.
   */
  lemma IncomingRemovedKeeps(cs: seq<Cell>, c: nat)
    requires Core(cs) && c < |cs|
    ensures cs[c].hasIncomingRiver ==> cs[c].neighbors[cs[c].incomingRiver].Some?
    ensures var r := IncomingRemoved(cs, c);
      Core(r) && RiverRemovalFrame(r, cs, c) && r[c] == cs[c].(hasIncomingRiver := false) &&
      (cs[c].hasIncomingRiver ==> !r[cs[c].neighbors[cs[c].incomingRiver].value].hasOutgoingRiver)
  {
    assert IncomingMirrored(cs, c);
    var r := IncomingRemoved(cs, c);
    if cs[c].hasIncomingRiver {
      ClearedIncomingKeeps(cs, c);
      ClearedIncomingKeepsAway(cs, c);
      forall e ensures RoadsLevelAwayFrom(cs, e) ==> RoadsLevelAwayFrom(r, e)
        ensures RiversLegalAwayFrom(cs, e) ==> RiversLegalAwayFrom(r, e)
      {
        ShrinkKeeps(r, cs, e);
      }
    } else {
      UnchangedFrame(cs, c);
    }
  }

  lemma UnchangedFrame(cs: seq<Cell>, c: nat)
    requires Core(cs) && c < |cs|
    ensures RiverRemovalFrame(cs, cs, c)
  {
    EdgesWithinRefl(cs);
    RiversKeptRefl(cs, c);
  }

  lemma RiversKeptAwayFromTrans(x: seq<Cell>, y: seq<Cell>, z: seq<Cell>, c: nat)
    requires Shaped(y) && Shaped(z) && |x| == |y| == |z| && SameLinks(y, z) && EdgesWithin(y, z)
    requires RiversKeptAwayFrom(x, y, c) && RiversKeptAwayFrom(y, z, c)
    ensures RiversKeptAwayFrom(x, z, c)
  {
    forall a | 0 <= a < |z| && a != c
      ensures z[a].hasOutgoingRiver && z[a].neighbors[z[a].outgoingRiver] != Some(c) ==> x[a].hasOutgoingRiver
      ensures z[a].hasIncomingRiver && z[a].neighbors[z[a].incomingRiver] != Some(c) ==> x[a].hasIncomingRiver
    {
      assert CellEdgesWithin(y[a], z[a]);
    }
  }

  lemma RiverRemovalFrameTrans(x: seq<Cell>, y: seq<Cell>, z: seq<Cell>, c: nat)
    requires Core(x) && Core(y) && Core(z) && c < |z| && |x| == |y| == |z|
    requires RiverRemovalFrame(x, y, c) && RiverRemovalFrame(y, z, c)
    ensures RiverRemovalFrame(x, z, c)
  {
    EdgesWithinTrans(x, y, z);
    EdgesWithinFrame(y, z);
    RiversKeptAwayFromTrans(x, y, z, c);
  }

  /** RemoveRiver: the incoming river first, then the outgoing one. */
  function RiverRemoved(cs: seq<Cell>, c: nat): (r: seq<Cell>)
    requires Core(cs) && c < |cs|
    ensures Core(r)
  {
    IncomingRemovedKeeps(cs, c);
    OutgoingRemovedKeeps(IncomingRemoved(cs, c), c);
    OutgoingRemoved(IncomingRemoved(cs, c), c)
  }

  /** RemoveRiver leaves `c` without rivers, keeps every invariant and removes nothing away from `c`. */
  lemma RiverRemovedSpec(cs: seq<Cell>, c: nat)
    requires Core(cs) && c < |cs|
    ensures var r := RiverRemoved(cs, c);
      RiverRemovalFrame(r, cs, c) && !r[c].HasRiver() &&
      r[c] == cs[c].(hasIncomingRiver := false, hasOutgoingRiver := false)
  {
    IncomingRemovedKeeps(cs, c);
    var s1 := IncomingRemoved(cs, c);
    OutgoingRemovedKeeps(s1, c);
    RiverRemovalFrameTrans(RiverRemoved(cs, c), s1, cs, c);
  }

  // ---------------------------------------------------------------------------
  // SetOutgoinRiver

  lemma SameLinksTrans(x: seq<Cell>, y: seq<Cell>, z: seq<Cell>)
    requires SameLinks(x, y) && SameLinks(y, z)
    ensures SameLinks(x, z)
  {
  }

  /** SetOutgoinRiver goes ahead: no outgoing river toward `d` yet, and water may flow into the neighbour there. */
  predicate RiverSettable(cs: seq<Cell>, c: nat, d: HexDirection)
    requires Shaped(cs) && c < |cs|
  {
    !(cs[c].hasOutgoingRiver && cs[c].outgoingRiver == d) && IsValidRiverDestination(cs, c, cs[c].neighbors[d])
  }

  /** The outgoing river of `c` set toward `d`, with nothing else updated yet. */
  function OutgoingStarted(cs: seq<Cell>, c: nat, d: HexDirection): (r: seq<Cell>)
    requires Shaped(cs) && c < |cs|
    ensures Shaped(r) && SameLinks(r, cs) && |r| == |cs|
    ensures r[c] == cs[c].(hasOutgoingRiver := true, outgoingRiver := d)
    ensures forall a | 0 <= a < |cs| && a != c :: r[a] == cs[a]
  {
    var r := cs[c := cs[c].(hasOutgoingRiver := true, outgoingRiver := d)];
    LinksKeep(r, cs);
    r
  }

  /** The incoming river of `b` set from `e`, with nothing else updated yet. */
  function IncomingStarted(cs: seq<Cell>, b: nat, e: HexDirection): (r: seq<Cell>)
    requires Shaped(cs) && b < |cs|
    ensures Shaped(r) && SameLinks(r, cs) && |r| == |cs|
    ensures r[b] == cs[b].(hasIncomingRiver := true, incomingRiver := e)
    ensures forall a | 0 <= a < |cs| && a != b :: r[a] == cs[a]
  {
    var r := cs[b := cs[b].(hasIncomingRiver := true, incomingRiver := e)];
    LinksKeep(r, cs);
    r
  }

  lemma WithRoadShape(cs: seq<Cell>, c: nat, d: HexDirection, state: bool)
    requires Shaped(cs) && c < |cs| && cs[c].neighbors[d].Some?
    ensures Shaped(WithRoad(cs, c, d, state)) && SameLinks(WithRoad(cs, c, d, state), cs)
  {
    LinksKeep(WithRoad(cs, c, d, state), cs);
  }

  /**
   * The last steps of SetOutgoinRiver, once `c` has no outgoing river: the new
   * outgoing river, the neighbour's old incoming river removed and replaced by the
   * new one, then the road across the edge removed.
   */
  function RiverLaid(s2: seq<Cell>, c: nat, d: HexDirection): (r: seq<Cell>)
    requires Core(s2) && c < |s2| && !s2[c].hasOutgoingRiver && s2[c].neighbors[d].Some?
    ensures Shaped(r) && SameLinks(r, s2)
  {
    var b := s2[c].neighbors[d].value;
    NeighborsDistinct(s2, c, d, d);
    assert IncomingMirrored(s2, b);
    var s3 := OutgoingStarted(s2, c, d);
    var s4 := IncomingRemoved(s3, b);
    var s5 := IncomingStarted(s4, b, Opposite(d));
    WithRoadShape(s5, c, d, false);
    SameLinksTrans(s5, s4, s3);
    SameLinksTrans(s5, s3, s2);
    SameLinksTrans(WithRoad(s5, c, d, false), s5, s2);
    WithRoad(s5, c, d, false)
  }

  /** The first steps of SetOutgoinRiver: RemoveOutgoingRiver, then RemoveIncomingRiver if that river enters across `d`. */
  function OldRiversCleared(cs: seq<Cell>, c: nat, d: HexDirection): (s2: seq<Cell>)
    requires Core(cs) && c < |cs|
    ensures Core(s2) && SameLinks(s2, cs) && !s2[c].hasOutgoingRiver
  {
    OutgoingRemovedKeeps(cs, c);
    var s1 := OutgoingRemoved(cs, c);
    IncomingRemovedKeeps(s1, c);
    if s1[c].hasIncomingRiver && s1[c].incomingRiver == d then
      SameLinksTrans(IncomingRemoved(s1, c), s1, cs);
      IncomingRemoved(s1, c)
    else
      s1
  }

  /**
   * SetOutgoinRiver(d): nothing when the river already flows that way or may not
   * flow there; else the old outgoing river goes, an incoming river from the same
   * edge goes, and the new river is laid.
   */
  function RiverSet(cs: seq<Cell>, c: nat, d: HexDirection): (r: seq<Cell>)
    requires Core(cs) && c < |cs|
    ensures Shaped(r) && SameLinks(r, cs)
  {
    if !RiverSettable(cs, c, d) then
      cs
    else
      var s2 := OldRiversCleared(cs, c, d);
      SameLinksTrans(RiverLaid(s2, c, d), s2, cs);
      RiverLaid(s2, c, d)
  }

  /** A river laid along edge `d` of `c`: the outgoing flag of `c` and the incoming flag of its neighbour. */
  function AddedRiver(u: seq<Cell>, c: nat, d: HexDirection): (r: seq<Cell>)
    requires Shaped(u) && c < |u| && u[c].neighbors[d].Some?
    ensures Shaped(r) && SameLinks(r, u)
  {
    var u1 := OutgoingStarted(u, c, d);
    var r := IncomingStarted(u1, u[c].neighbors[d].value, Opposite(d));
    SameLinksTrans(r, u1, u);
    r
  }

  /** The edge of `c` toward `d` cleared of rivers and roads, before the new river is added. */
  function EdgeCleared(s2: seq<Cell>, c: nat, d: HexDirection): (u: seq<Cell>)
    requires Core(s2) && c < |s2| && s2[c].neighbors[d].Some?
    ensures Core(u) && EdgesWithin(u, s2) && SameLinks(u, s2)
  {
    var b := s2[c].neighbors[d].value;
    IncomingRemovedKeeps(s2, b);
    var s4 := IncomingRemoved(s2, b);
    RoadRemovedKeeps(s4, c, d);
    var u := WithRoad(s4, c, d, false);
    EdgesWithinTrans(u, s4, s2);
    EdgesWithinFrame(u, s2);
    u
  }

  /** Removing the neighbour's incoming river commutes with starting the outgoing river of `c`. */
  lemma IncomingRemovedAfterStart(s2: seq<Cell>, c: nat, d: HexDirection, b: nat)
    requires Core(s2) && c < |s2| && !s2[c].hasOutgoingRiver && b < |s2| && b != c
    ensures s2[b].hasIncomingRiver ==> s2[b].neighbors[s2[b].incomingRiver].Some?
    ensures IncomingRemoved(OutgoingStarted(s2, c, d), b) == OutgoingStarted(IncomingRemoved(s2, b), c, d)
  {
    assert IncomingMirrored(s2, b);
    if s2[b].hasIncomingRiver {
      IncomingClearedAfterStart(s2, c, d, b);
    }
  }

  lemma IncomingClearedAfterStart(s2: seq<Cell>, c: nat, d: HexDirection, b: nat)
    requires Shaped(s2) && c < |s2| && !s2[c].hasOutgoingRiver && b < |s2| && b != c
    requires s2[b].hasIncomingRiver && IncomingMirrored(s2, b)
    ensures ClearedIncoming(OutgoingStarted(s2, c, d), b) == OutgoingStarted(ClearedIncoming(s2, b), c, d)
  {
    var x := ClearedIncoming(OutgoingStarted(s2, c, d), b);
    var y := OutgoingStarted(ClearedIncoming(s2, b), c, d);
    var e := s2[b].neighbors[s2[b].incomingRiver].value;
    assert e != c;
    assert |x| == |y|;
    forall a | 0 <= a < |x| ensures x[a] == y[a] {
    }
  }

  /** Removing the road across the edge commutes with setting the river flags of its two ends. */
  lemma RoadRemovedAfterStart(t: seq<Cell>, c: nat, d: HexDirection, b: nat)
    requires Shaped(t) && c < |t| && t[c].neighbors[d] == Some(b) && b != c
    ensures WithRoad(IncomingStarted(OutgoingStarted(t, c, d), b, Opposite(d)), c, d, false)
         == IncomingStarted(OutgoingStarted(WithRoad(t, c, d, false), c, d), b, Opposite(d))
  {
    WithRoadShape(t, c, d, false);
    var x := WithRoad(IncomingStarted(OutgoingStarted(t, c, d), b, Opposite(d)), c, d, false);
    var y := IncomingStarted(OutgoingStarted(WithRoad(t, c, d, false), c, d), b, Opposite(d));
    assert |x| == |y|;
    forall a | 0 <= a < |x| ensures x[a] == y[a] {
    }
  }

  /** Laying the river in the source's order gives the map of clearing the edge first and adding the river after. */
  lemma RiverLaidAsAdded(s2: seq<Cell>, c: nat, d: HexDirection)
    requires Core(s2) && c < |s2| && !s2[c].hasOutgoingRiver && s2[c].neighbors[d].Some?
    ensures EdgeCleared(s2, c, d)[c].neighbors[d] == s2[c].neighbors[d]
    ensures RiverLaid(s2, c, d) == AddedRiver(EdgeCleared(s2, c, d), c, d)
  {
    var b := s2[c].neighbors[d].value;
    NeighborsDistinct(s2, c, d, d);
    IncomingRemovedAfterStart(s2, c, d, b);
    var t4 := IncomingRemoved(s2, b);
    RoadRemovedAfterStart(t4, c, d, b);
    WithRoadShape(t4, c, d, false);
    var u := WithRoad(t4, c, d, false);
    assert u == EdgeCleared(s2, c, d);
  }

  /** What AddedRiver needs of the map: the edge is free of rivers and roads, and water may flow across it. */
  ghost predicate EdgeFree(u: seq<Cell>, c: nat, d: HexDirection)
    requires Shaped(u) && c < |u|
  {
    u[c].neighbors[d].Some? &&
    !u[c].hasOutgoingRiver && !u[u[c].neighbors[d].value].hasIncomingRiver &&
    !(u[c].hasIncomingRiver && u[c].incomingRiver == d) && !u[c].roads[d] &&
    IsValidRiverDestination(u, c, u[c].neighbors[d]) &&
    u[c].chunk.Some? && u[u[c].neighbors[d].value].chunk.Some?
  }

  lemma AddedRiverMirroredAt(u: seq<Cell>, c: nat, d: HexDirection, a: nat)
    requires Core(u) && c < |u| && EdgeFree(u, c, d) && a < |u|
    ensures OutgoingMirrored(AddedRiver(u, c, d), a) && IncomingMirrored(AddedRiver(u, c, d), a)
  {
    var r := AddedRiver(u, c, d);
    var b := u[c].neighbors[d].value;
    NeighborsDistinct(u, c, d, d);
    OppositeOpposite(d);
    LinksOf(u, a);
    LinksOf(u, c);
    LinksOf(u, b);
    assert OutgoingMirrored(u, a) && IncomingMirrored(u, a);
    assert r[c] == u[c].(hasOutgoingRiver := true, outgoingRiver := d);
    assert r[b] == u[b].(hasIncomingRiver := true, incomingRiver := Opposite(d));
    if a == c {
      if u[c].hasIncomingRiver {
        NeighborsDistinct(u, c, u[c].incomingRiver, d);
      }
    } else if a == b {
      if u[b].hasOutgoingRiver {
        var n := u[b].neighbors[u[b].outgoingRiver].value;
        if n == c {
          NeighborsDistinct(u, b, u[b].outgoingRiver, Opposite(d));
        }
      }
    } else {
      assert r[a] == u[a];
    }
  }

  lemma AddedRiverAvoidsAt(u: seq<Cell>, c: nat, d: HexDirection, a: nat, e: HexDirection)
    requires Core(u) && c < |u| && EdgeFree(u, c, d) && a < |u| && AddedRiver(u, c, d)[a].roads[e]
    ensures !AddedRiver(u, c, d)[a].HasRiverThroughEdge(e)
  {
    var r := AddedRiver(u, c, d);
    var b := u[c].neighbors[d].value;
    NeighborsDistinct(u, c, d, d);
    assert u[a].roads[e];
    if a == b && e == Opposite(d) {
      assert RoadMirrored(u, b, Opposite(d)) && LinkMirrored(u, c, d);
      OppositeOpposite(d);
      assert false;
    }
  }

  lemma AddedRiverLegalAt(u: seq<Cell>, c: nat, d: HexDirection, a: nat)
    requires Consistent(u) && c < |u| && EdgeFree(u, c, d) && a < |u|
    ensures RiverLegal(AddedRiver(u, c, d), a)
  {
    var b := u[c].neighbors[d].value;
    NeighborsDistinct(u, c, d, d);
    assert RiverLegal(u, a);
  }

  /** Laying a river along a free edge keeps every invariant. */
  lemma AddedRiverKeeps(u: seq<Cell>, c: nat, d: HexDirection)
    requires Consistent(u) && c < |u| && EdgeFree(u, c, d)
    ensures Consistent(AddedRiver(u, c, d))
  {
    var r := AddedRiver(u, c, d);
    var b := u[c].neighbors[d].value;
    NeighborsDistinct(u, c, d, d);
    LinksKeep(r, u);
    assert SameFrame(r, u);
    RoadsUnchangedKeep(r, u);
    forall a | 0 <= a < |r| ensures OutgoingMirrored(r, a) && IncomingMirrored(r, a) {
      AddedRiverMirroredAt(u, c, d, a);
    }
    forall a, e: HexDirection | 0 <= a < |r| && r[a].roads[e] ensures !r[a].HasRiverThroughEdge(e) {
      AddedRiverAvoidsAt(u, c, d, a, e);
    }
    forall a | 0 <= a < |r| ensures !(r[a].hasIncomingRiver && r[a].hasOutgoingRiver && r[a].incomingRiver == r[a].outgoingRiver) {
      if a == b {
        AddedRiverMirroredAt(u, c, d, b);
      } else if a != c {
        assert r[a] == u[a];
      }
    }
    forall a | 0 <= a < |r| && r[a].chunk.None? ensures Bare(r[a]) {
      assert Bare(u[a]);
    }
    forall a, e: HexDirection | 0 <= a < |r| ensures RoadLevel(r, a, e) {
      assert RoadLevel(u, a, e);
    }
    forall a | 0 <= a < |r| ensures RiverLegal(r, a) {
      AddedRiverLegalAt(u, c, d, a);
    }
  }

  /** RemoveOutgoingRiver seen from another cell: only the cell downstream changes, losing its incoming flag. */
  lemma OutgoingRemovedAt(cs: seq<Cell>, c: nat, a: nat)
    requires Shaped(cs) && c < |cs| && a < |cs| && a != c
    requires cs[c].hasOutgoingRiver ==> cs[c].neighbors[cs[c].outgoingRiver].Some?
    ensures OutgoingRemoved(cs, c)[a] ==
      if cs[c].hasOutgoingRiver && cs[c].neighbors[cs[c].outgoingRiver] == Some(a)
      then cs[a].(hasIncomingRiver := false) else cs[a]
  {
  }

  /** RemoveIncomingRiver seen from another cell: only the cell upstream changes, losing its outgoing flag. */
  lemma IncomingRemovedAt(cs: seq<Cell>, c: nat, a: nat)
    requires Shaped(cs) && c < |cs| && a < |cs| && a != c
    requires cs[c].hasIncomingRiver ==> cs[c].neighbors[cs[c].incomingRiver].Some?
    ensures IncomingRemoved(cs, c)[a] ==
      if cs[c].hasIncomingRiver && cs[c].neighbors[cs[c].incomingRiver] == Some(a)
      then cs[a].(hasOutgoingRiver := false) else cs[a]
  {
  }

  /**
   * The first steps of SetOutgoinRiver keep every invariant. They take the outgoing
   * river of `c` and an incoming river across `d`, which is the neighbour's outgoing one.
   */
  lemma OldRiversClearedSpec(cs: seq<Cell>, c: nat, d: HexDirection)
    requires Consistent(cs) && c < |cs| && RiverSettable(cs, c, d)
    ensures var s2 := OldRiversCleared(cs, c, d); var b := cs[c].neighbors[d].value;
      Consistent(s2) && b != c &&
      s2[c] == cs[c].(hasOutgoingRiver := false, hasIncomingRiver := cs[c].hasIncomingRiver && cs[c].incomingRiver != d) &&
      s2[b] == cs[b].(hasOutgoingRiver := cs[b].hasOutgoingRiver && cs[b].outgoingRiver != Opposite(d)) &&
      forall a | 0 <= a < |cs| && a != c && a != b ::
        s2[a] == if cs[c].hasOutgoingRiver && cs[c].neighbors[cs[c].outgoingRiver] == Some(a)
                 then cs[a].(hasIncomingRiver := false) else cs[a]
  {
    var b := cs[c].neighbors[d].value;
    NeighborsDistinct(cs, c, d, d);
    LinksOf(cs, c);
    assert cs[b].neighbors[Opposite(d)] == Some(c);
    OutgoingRemovedKeeps(cs, c);
    var s1 := OutgoingRemoved(cs, c);
    assert OutgoingMirrored(cs, b) && IncomingMirrored(cs, c);
    if cs[c].hasOutgoingRiver {
      NeighborsDistinct(cs, c, cs[c].outgoingRiver, d);
    }
    OutgoingRemovedAt(cs, c, b);
    IncomingRemovedKeeps(s1, c);
    var s2 := OldRiversCleared(cs, c, d);
    forall a | 0 <= a < |cs| && a != c
      ensures s1[a] == if cs[c].hasOutgoingRiver && cs[c].neighbors[cs[c].outgoingRiver] == Some(a)
                       then cs[a].(hasIncomingRiver := false) else cs[a]
    {
      OutgoingRemovedAt(cs, c, a);
    }
    if s1[c].hasIncomingRiver && s1[c].incomingRiver == d {
      forall a | 0 <= a < |cs| && a != c && a != b ensures s2[a] == s1[a] {
        IncomingRemovedAt(s1, c, a);
      }
      IncomingRemovedAt(s1, c, b);
    } else {
      if cs[b].hasOutgoingRiver && cs[b].outgoingRiver == Opposite(d) {
        OppositeOpposite(d);
        assert false;
      }
    }
  }

  /** Clearing the edge takes the neighbour's incoming river, with its source's outgoing flag, and the road across. */
  lemma EdgeClearedSpec(s2: seq<Cell>, c: nat, d: HexDirection)
    requires Consistent(s2) && c < |s2| && s2[c].neighbors[d].Some? && !s2[c].hasOutgoingRiver
    ensures var u := EdgeCleared(s2, c, d); var b := s2[c].neighbors[d].value;
      Consistent(u) && b != c &&
      u[c] == s2[c].(roads := s2[c].roads[d := false]) &&
      u[b] == s2[b].(hasIncomingRiver := false, roads := s2[b].roads[Opposite(d) := false]) &&
      forall a | 0 <= a < |s2| && a != c && a != b ::
        u[a] == if s2[b].hasIncomingRiver && s2[b].neighbors[s2[b].incomingRiver] == Some(a)
                then s2[a].(hasOutgoingRiver := false) else s2[a]
  {
    var b := s2[c].neighbors[d].value;
    NeighborsDistinct(s2, c, d, d);
    IncomingRemovedKeeps(s2, b);
    var s4 := IncomingRemoved(s2, b);
    assert IncomingMirrored(s2, b);
    IncomingRemovedAt(s2, b, c);
    forall a | 0 <= a < |s2| && a != b
      ensures s4[a] == if s2[b].hasIncomingRiver && s2[b].neighbors[s2[b].incomingRiver] == Some(a)
                       then s2[a].(hasOutgoingRiver := false) else s2[a]
    {
      IncomingRemovedAt(s2, b, a);
    }
    WithRoadFacts(s4, c, d, false);
    var u := EdgeCleared(s2, c, d);
    ShrinkCore(u, s2);
  }

  /**
   * SetOutgoinRiver away from the edge it works on: a cell loses the river it
   * received from `c` and the river it sent into `b`, and nothing else.
   */
  ghost predicate RiverSetElsewhere(r: seq<Cell>, cs: seq<Cell>, c: nat, b: nat)
    requires Shaped(cs) && |r| == |cs|
  {
    forall a | 0 <= a < |cs| && a != c && a != b ::
      r[a] == cs[a].(hasIncomingRiver := cs[a].hasIncomingRiver && cs[a].neighbors[cs[a].incomingRiver] != Some(c),
                     hasOutgoingRiver := cs[a].hasOutgoingRiver && cs[a].neighbors[cs[a].outgoingRiver] != Some(b))
  }

  /** The river is added on an edge that the first steps cleared. */
  lemma RiverSetEdgeFree(cs: seq<Cell>, c: nat, d: HexDirection)
    requires Consistent(cs) && c < |cs| && RiverSettable(cs, c, d)
    requires cs[c].chunk.Some? && cs[cs[c].neighbors[d].value].chunk.Some?
    ensures var s2 := OldRiversCleared(cs, c, d);
      s2[c].neighbors[d].Some? && Consistent(EdgeCleared(s2, c, d)) && EdgeFree(EdgeCleared(s2, c, d), c, d)
  {
    OldRiversClearedSpec(cs, c, d);
    var s2 := OldRiversCleared(cs, c, d);
    EdgeClearedSpec(s2, c, d);
  }

  /** A river runs from `x` into `y` exactly when `y` receives a river from `x`. */
  lemma RiverLinkIff(cs: seq<Cell>, x: nat, y: nat)
    requires Core(cs) && x < |cs| && y < |cs|
    ensures (cs[x].hasOutgoingRiver && cs[x].neighbors[cs[x].outgoingRiver] == Some(y)) <==>
            (cs[y].hasIncomingRiver && cs[y].neighbors[cs[y].incomingRiver] == Some(x))
  {
    assert OutgoingMirrored(cs, x) && IncomingMirrored(cs, y);
    LinksOf(cs, x);
    LinksOf(cs, y);
  }

  /** One cell away from the edge, through every step of SetOutgoinRiver. */
  lemma RiverSetElsewhereAt(cs: seq<Cell>, c: nat, d: HexDirection, a: nat)
    requires Consistent(cs) && c < |cs| && RiverSettable(cs, c, d)
    requires a < |cs| && a != c && a != cs[c].neighbors[d].value
    ensures RiverSet(cs, c, d)[a] ==
      cs[a].(hasIncomingRiver := cs[a].hasIncomingRiver && cs[a].neighbors[cs[a].incomingRiver] != Some(c),
             hasOutgoingRiver := cs[a].hasOutgoingRiver && cs[a].neighbors[cs[a].outgoingRiver] != Some(cs[c].neighbors[d].value))
  {
    var b := cs[c].neighbors[d].value;
    OldRiversClearedSpec(cs, c, d);
    var s2 := OldRiversCleared(cs, c, d);
    EdgeClearedSpec(s2, c, d);
    var u := EdgeCleared(s2, c, d);
    RiverLaidAsAdded(s2, c, d);
    assert RiverSet(cs, c, d) == AddedRiver(u, c, d);
    assert AddedRiver(u, c, d)[a] == u[a];
    RiverLinkIff(cs, c, a);
    RiverLinkIff(cs, a, b);
  }

  /**
   * SetOutgoinRiver keeps every invariant. It changes nothing when a river already
   * flows toward `d` or may not flow into that neighbour. Otherwise the river flows
   * from `c` across `d` into the neighbour, which receives it from the opposite side;
   * the road on that edge is gone, the old outgoing river of `c` and the rivers that
   * crossed the edge are removed, and every other river and road stays.
   */
  lemma RiverSetSpec(cs: seq<Cell>, c: nat, d: HexDirection)
    requires Consistent(cs) && c < |cs|
    requires RiverSettable(cs, c, d) ==> cs[c].chunk.Some? && cs[cs[c].neighbors[d].value].chunk.Some?
    ensures Consistent(RiverSet(cs, c, d))
    ensures !RiverSettable(cs, c, d) ==> RiverSet(cs, c, d) == cs
    ensures RiverSettable(cs, c, d) ==>
      var r := RiverSet(cs, c, d); var b := cs[c].neighbors[d].value;
      r[c] == cs[c].(hasOutgoingRiver := true, outgoingRiver := d,
                     hasIncomingRiver := cs[c].hasIncomingRiver && cs[c].incomingRiver != d,
                     roads := cs[c].roads[d := false]) &&
      r[b] == cs[b].(hasIncomingRiver := true, incomingRiver := Opposite(d),
                     hasOutgoingRiver := cs[b].hasOutgoingRiver && cs[b].outgoingRiver != Opposite(d),
                     roads := cs[b].roads[Opposite(d) := false]) &&
      RiverSetElsewhere(r, cs, c, b)
  {
    if RiverSettable(cs, c, d) {
      var b := cs[c].neighbors[d].value;
      OldRiversClearedSpec(cs, c, d);
      var s2 := OldRiversCleared(cs, c, d);
      EdgeClearedSpec(s2, c, d);
      RiverSetEdgeFree(cs, c, d);
      var u := EdgeCleared(s2, c, d);
      AddedRiverKeeps(u, c, d);
      RiverLaidAsAdded(s2, c, d);
      forall a | 0 <= a < |cs| && a != c && a != b
        ensures RiverSet(cs, c, d)[a] ==
          cs[a].(hasIncomingRiver := cs[a].hasIncomingRiver && cs[a].neighbors[cs[a].incomingRiver] != Some(c),
                 hasOutgoingRiver := cs[a].hasOutgoingRiver && cs[a].neighbors[cs[a].outgoingRiver] != Some(b))
      {
        RiverSetElsewhereAt(cs, c, d, a);
      }
    }
  }

  /** SetOutgoinRiver toward the same edge a second time changes nothing. */
  lemma RiverSetIdempotent(cs: seq<Cell>, c: nat, d: HexDirection)
    requires Consistent(cs) && c < |cs|
    requires RiverSettable(cs, c, d) ==> cs[c].chunk.Some? && cs[cs[c].neighbors[d].value].chunk.Some?
    ensures var r := RiverSet(cs, c, d);
      Consistent(r) && |r| == |cs| && !RiverSettable(r, c, d) && RiverSet(r, c, d) == r
  {
    RiverSetSpec(cs, c, d);
  }

  // ---------------------------------------------------------------------------
  // IsUnderwater after the height setters

  /** After the WaterLevel setter, `c` is underwater exactly when the new level is above its elevation. */
  lemma UnderwaterAfterWaterLevel(cs: seq<Cell>, c: nat, v: int)
    requires Core(cs) && c < |cs|
    ensures WaterLevelChanged(cs, c, v)[c].IsUnderwater() <==> v > cs[c].elevation
  {
    if cs[c].waterLevel != v {
      var wet := WithWaterLevel(cs, c, v);
      SameEdgesCore(wet, cs);
      CellEdgesWithinKeeps(Validated(wet, c)[c], wet[c]);
    }
  }

  /** After the Elevation setter, `c` is underwater exactly when its water level is above the new elevation. */
  lemma UnderwaterAfterElevation(cs: seq<Cell>, c: nat, v: int)
    requires Core(cs) && c < |cs|
    ensures ElevationChanged(cs, c, v)[c].IsUnderwater() <==> cs[c].waterLevel > v
  {
    if cs[c].elevation != v {
      var raised := WithElevation(cs, c, v);
      SameEdgesCore(raised, cs);
      var validated := Validated(raised, c);
      CellEdgesWithinKeeps(validated[c], raised[c]);
      var r := SteepRoadsRemoved(validated, c, 6);
      CellEdgesWithinKeeps(r[c], validated[c]);
    }
  }
}
