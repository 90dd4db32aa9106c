/** The TraciController component: the road registry it edits, the TraCI
    client it talks to, the four work-zone operations, the mesoscopic-view
    toggle and the fixed-cadence stepper of its per-frame Update. */
module TraciControl {
  import opened WorkZone
  import opened Stepper

  /** A road of the network: its id never changes, its lane list is replaced
      element by element by the work-zone operations. */
  class Road {
    const id: string
    var lanes: seq<Lane>

    constructor (id: string, lanes: seq<Lane>)
      ensures this.id == id && this.lanes == lanes
    {
      this.id := id;
      this.lanes := lanes;
    }
  }

  /** The scene component that owns the road registry. */
  class Edge {
    var roadList: seq<Road>

    constructor (roads: seq<Road>)
      ensures roadList == roads
    {
      roadList := roads;
    }
  }

  /** The TraCI client, seen only through the requests it has been asked to
      send, in order. */
  class TraciClient {
    ghost var sent: seq<Command>

    constructor ()
      ensures sent == []
    {
      sent := [];
    }

    method SetMaxSpeed(roadId: string, speed: real)
      modifies this
      ensures sent == old(sent) + [MaxSpeed(roadId, speed)]
    {
      sent := sent + [MaxSpeed(roadId, speed)];
    }

    method SimStep()
      modifies this
      ensures sent == old(sent) + [Step]
    {
      sent := sent + [Step];
    }
  }

  /** What Enumerable.Single finds among the roads with a given id; when
      there are several, two of their indices. */
  datatype RoadLookup = NoMatch | Unique(index: nat) | Multiple(first: nat, second: nat)

  /** The road with id `roadId`, which Single accepts only when exactly one
      road has it. */
  function Single(roads: seq<Road>, roadId: string): (r: RoadLookup)
    ensures r.NoMatch? <==> forall j :: 0 <= j < |roads| ==> roads[j].id != roadId
    ensures r.Unique? ==>
              && r.index < |roads| && roads[r.index].id == roadId
              && forall j :: 0 <= j < |roads| && j != r.index ==> roads[j].id != roadId
    ensures r.Multiple? ==>
              r.first < r.second < |roads| && roads[r.first].id == roadId && roads[r.second].id == roadId
  {
    if roads == [] then NoMatch
    else
      var rest := Single(roads[1..], roadId);
      match rest
      case NoMatch => if roads[0].id == roadId then Unique(0) else NoMatch
      case Unique(k) => if roads[0].id == roadId then Multiple(0, k + 1) else Unique(k + 1)
      case Multiple(i, j) => Multiple(i + 1, j + 1)
  }

  class TraciController {
    /** The TraCI client; null until a connection is made. */
    var client: TraciClient?
    /** The road registry, looked up in the scene on first use. */
    var edge: Edge?
    /** Whether lane occupancy is shown (the mesoscopic view). */
    var occupancyVisual: bool
    /** Whether vehicle positions are shown. */
    var carVisual: bool
    /** Seconds accumulated since the last simulation step. */
    var elapsedTime: real

    /** The state after construction and Start. */
    constructor ()
      ensures client == null && edge == null
      ensures !occupancyVisual && carVisual && elapsedTime == 0.0
    {
      client := null;
      edge := null;
      occupancyVisual := false;
      carVisual := true;
      elapsedTime := 0.0;
    }

    /** The registry an operation works on: the cached one, or else the one
        the scene offers (`scene` stands for FindObjectOfType<Edge>()). */
    function Registry(scene: Edge?): (r: Edge?)
      reads this
      ensures edge != null ==> r == edge
      ensures r == null <==> edge == null && scene == null
    {
      if edge != null then edge else scene
    }

    /** The roads of that registry. */
    ghost function Network(scene: Edge?): seq<Road>
      reads this, Registry(scene)
    {
      if Registry(scene) == null then [] else Registry(scene).roadList
    }

    /** Marks lane `laneId` of road `roadId` as a work zone. */
    method SetWorkZoneOneLane(roadId: string, laneId: string, scene: Edge?) returns (outcome: Outcome)
      modifies this`edge, client, Network(scene)
      ensures edge == old(Registry(scene))
      ensures edge == null ==> outcome == Failed(NoEdge)
      ensures edge != null && !Single(edge.roadList, roadId).Unique? ==> outcome == Failed(RoadNotSingle)
      ensures edge != null && Single(edge.roadList, roadId).Unique? ==>
                var road := edge.roadList[Single(edge.roadList, roadId).index];
                var r := OneLaneEdit(SetZone, roadId, laneId, old(road.lanes), client != null);
                && road.lanes == r.lanes && outcome == r.outcome
                && (client != null ==> client.sent == old(client.sent) + r.pushes)
      ensures outcome == Warned || (outcome.Failed? && outcome != Failed(NoClient)) ==>
                && (forall rd :: rd in old(Network(scene)) ==> rd.lanes == old(rd.lanes))
                && (client != null ==> client.sent == old(client.sent))
      ensures forall rd :: rd in old(Network(scene)) && rd.id != roadId ==> rd.lanes == old(rd.lanes)
    {
      if edge == null {
        edge := scene;
      }
      if edge == null {
        return Failed(NoEdge);
      }
      var found := Single(edge.roadList, roadId);
      if !found.Unique? {
        return Failed(RoadNotSingle);
      }
      var road := edge.roadList[found.index];
      outcome := SetOnLane(road, laneId, client);
    }

    /** Removes the work zone from lane `laneId` of road `roadId`. */
    method RemoveWorkZoneOnLane(roadId: string, laneId: string, scene: Edge?) returns (outcome: Outcome)
      modifies this`edge, client, Network(scene)
      ensures edge == old(Registry(scene))
      ensures edge == null ==> outcome == Failed(NoEdge)
      ensures edge != null && !Single(edge.roadList, roadId).Unique? ==> outcome == Failed(RoadNotSingle)
      ensures edge != null && Single(edge.roadList, roadId).Unique? ==>
                var road := edge.roadList[Single(edge.roadList, roadId).index];
                var r := OneLaneEdit(RemoveZone, roadId, laneId, old(road.lanes), client != null);
                && road.lanes == r.lanes && outcome == r.outcome
                && (client != null ==> client.sent == old(client.sent) + r.pushes)
      ensures outcome == Warned || (outcome.Failed? && outcome != Failed(NoClient)) ==>
                && (forall rd :: rd in old(Network(scene)) ==> rd.lanes == old(rd.lanes))
                && (client != null ==> client.sent == old(client.sent))
      ensures forall rd :: rd in old(Network(scene)) && rd.id != roadId ==> rd.lanes == old(rd.lanes)
    {
      if edge == null {
        edge := scene;
      }
      if edge == null {
        return Failed(NoEdge);
      }
      var found := Single(edge.roadList, roadId);
      if !found.Unique? {
        return Failed(RoadNotSingle);
      }
      var road := edge.roadList[found.index];
      outcome := RemoveOnLane(road, laneId, client);
    }

    /** Removes the work zone from every lane of road `roadId`, in lane order. */
    method RemoveWorkZoneEntireRoad(roadId: string, scene: Edge?) returns (outcome: Outcome)
      modifies this`edge, client, Network(scene)
      ensures edge == old(Registry(scene))
      ensures edge == null ==> outcome == Failed(NoEdge)
      ensures edge != null && !Single(edge.roadList, roadId).Unique? ==> outcome == Failed(RoadNotSingle)
      ensures edge != null && Single(edge.roadList, roadId).Unique? ==>
                var road := edge.roadList[Single(edge.roadList, roadId).index];
                var r := WholeRoadEdit(RemoveZone, roadId, old(road.lanes), client != null);
                && road.lanes == r.lanes && outcome == r.outcome
                && (client != null ==> client.sent == old(client.sent) + r.pushes)
      ensures outcome == Failed(NoEdge) || outcome == Failed(RoadNotSingle) ==>
                && (forall rd :: rd in old(Network(scene)) ==> rd.lanes == old(rd.lanes))
                && (client != null ==> client.sent == old(client.sent))
      ensures forall rd :: rd in old(Network(scene)) && rd.id != roadId ==> rd.lanes == old(rd.lanes)
    {
      if edge == null {
        edge := scene;
      }
      if edge == null {
        return Failed(NoEdge);
      }
      var found := Single(edge.roadList, roadId);
      if !found.Unique? {
        return Failed(RoadNotSingle);
      }
      var road := edge.roadList[found.index];
      if client == null {
        outcome := EditUntilFirstPush(RemoveZone, road);
      } else {
        RemoveOnEveryLane(road, client);
        outcome := Done;
      }
    }

    /** Marks every lane of road `roadId` as a work zone, in lane order. */
    method SetWorkZoneEntireRoad(roadId: string, scene: Edge?) returns (outcome: Outcome)
      modifies this`edge, client, Network(scene)
      ensures edge == old(Registry(scene))
      ensures edge == null ==> outcome == Failed(NoEdge)
      ensures edge != null && !Single(edge.roadList, roadId).Unique? ==> outcome == Failed(RoadNotSingle)
      ensures edge != null && Single(edge.roadList, roadId).Unique? ==>
                var road := edge.roadList[Single(edge.roadList, roadId).index];
                var r := WholeRoadEdit(SetZone, roadId, old(road.lanes), client != null);
                && road.lanes == r.lanes && outcome == r.outcome
                && (client != null ==> client.sent == old(client.sent) + r.pushes)
      ensures outcome == Failed(NoEdge) || outcome == Failed(RoadNotSingle) ==>
                && (forall rd :: rd in old(Network(scene)) ==> rd.lanes == old(rd.lanes))
                && (client != null ==> client.sent == old(client.sent))
      ensures forall rd :: rd in old(Network(scene)) && rd.id != roadId ==> rd.lanes == old(rd.lanes)
    {
      if edge == null {
        edge := scene;
      }
      if edge == null {
        return Failed(NoEdge);
      }
      var found := Single(edge.roadList, roadId);
      if !found.Unique? {
        return Failed(RoadNotSingle);
      }
      var road := edge.roadList[found.index];
      if client == null {
        outcome := EditUntilFirstPush(SetZone, road);
      } else {
        SetOnEveryLane(road, client);
        outcome := Done;
      }
    }

    /** Flips between the vehicle view and the occupancy (mesoscopic) view. */
    method ToggleMesoscopic()
      modifies this`occupancyVisual
      ensures occupancyVisual == !old(occupancyVisual)
    {
      occupancyVisual := !occupancyVisual;
    }

    /** The stepper part of the per-frame update. With a client, the frame
        time is accumulated and one simulation step is requested once the
        total is above one second; without one, nothing happens. With the
        occupancy view on, the occupancy poll first walks the registry, which
        only the work-zone operations look up: while none has run, the frame
        fails there and the stepper is not reached. */
    method Update(deltaTime: real) returns (outcome: Outcome)
      modifies this`elapsedTime, client
      ensures client == null ==> elapsedTime == old(elapsedTime) && outcome == Done
      ensures client != null && occupancyVisual && edge == null ==>
                elapsedTime == old(elapsedTime) && client.sent == old(client.sent) && outcome == Failed(NoEdge)
      ensures client != null && !(occupancyVisual && edge == null) ==>
                var t := Advance(old(elapsedTime), deltaTime);
                && elapsedTime == t.elapsed && outcome == Done
                && client.sent == old(client.sent) + (if t.fired then [Step] else [])
      ensures 0.0 <= old(elapsedTime) && 0.0 <= deltaTime ==> 0.0 <= elapsedTime
      ensures old(elapsedTime) <= Period ==> elapsedTime <= Period
    {
      if client != null {
        if occupancyVisual && edge == null {
          return Failed(NoEdge);
        }
        elapsedTime := elapsedTime + deltaTime;
        if elapsedTime > 1.0 {
          client.SimStep();
          elapsedTime := 0.0;
        }
      }
      outcome := Done;
    }
  }

  /** The lane part of SetWorkZoneOneLane, on the road it found: the lane
      is looked up by id; unless it is already a work zone its record is
      replaced, and only then is the client asked for the reduced speed. */
  method SetOnLane(road: Road, laneId: string, c: TraciClient?) returns (outcome: Outcome)
    modifies road, c
    ensures var r := OneLaneEdit(SetZone, road.id, laneId, old(road.lanes), c != null);
            && road.lanes == r.lanes && outcome == r.outcome
            && (c != null ==> c.sent == old(c.sent) + r.pushes)
    ensures outcome == Warned || outcome == Failed(LaneNotFound) ==> road.lanes == old(road.lanes)
    ensures c != null && outcome != Done ==> c.sent == old(c.sent)
  {
    var laneIndex := FindLaneIndex(road.lanes, laneId);
    if laneIndex < 0 {
      return Failed(LaneNotFound);
    }
    var lane := road.lanes[laneIndex];
    if !lane.constructionZone {
      var newSpeed := ToWorkZoneSpeed(lane.speed);
      road.lanes := road.lanes[laneIndex := lane.(speed := newSpeed, constructionZone := true)];
      if c == null {
        return Failed(NoClient);
      }
      c.SetMaxSpeed(road.id, newSpeed);
      outcome := Done;
    } else {
      outcome := Warned;
    }
  }

  /** The lane part of RemoveWorkZoneOnLane, on the road it found: the
      lane is looked up by id; if it is a work zone its record is replaced,
      and only then is the client asked for the default speed. */
  method RemoveOnLane(road: Road, laneId: string, c: TraciClient?) returns (outcome: Outcome)
    modifies road, c
    ensures var r := OneLaneEdit(RemoveZone, road.id, laneId, old(road.lanes), c != null);
            && road.lanes == r.lanes && outcome == r.outcome
            && (c != null ==> c.sent == old(c.sent) + r.pushes)
    ensures outcome == Warned || outcome == Failed(LaneNotFound) ==> road.lanes == old(road.lanes)
    ensures c != null && outcome != Done ==> c.sent == old(c.sent)
  {
    var laneIndex := FindLaneIndex(road.lanes, laneId);
    if laneIndex < 0 {
      return Failed(LaneNotFound);
    }
    var lane := road.lanes[laneIndex];
    if lane.constructionZone {
      road.lanes := road.lanes[laneIndex := lane.(speed := lane.defaultSpeed, constructionZone := false)];
      if c == null {
        return Failed(NoClient);
      }
      c.SetMaxSpeed(road.id, lane.defaultSpeed);
      outcome := Done;
    } else {
      outcome := Warned;
    }
  }

  /** The lane loop of RemoveWorkZoneEntireRoad with a client: every lane
      in the work zone gets its default speed back and a request is sent for
      it, in lane order. */
  method RemoveOnEveryLane(road: Road, c: TraciClient)
    modifies road, c
    ensures road.lanes == EditAll(RemoveZone, old(road.lanes))
    ensures c.sent == old(c.sent) + RoadPushes(RemoveZone, road.id, old(road.lanes))
  {
    ghost var lanes0 := road.lanes;
    var i := 0;
    while i < |road.lanes|
      invariant 0 <= i <= |lanes0| == |road.lanes|
      invariant road.lanes == EditAll(RemoveZone, lanes0[..i]) + lanes0[i..]
      invariant c.sent == old(c.sent) + RoadPushes(RemoveZone, road.id, lanes0[..i])
    {
      EditAllSnoc(RemoveZone, lanes0, i);
      RoadPushesSnoc(RemoveZone, road.id, lanes0, i);
      var lane := road.lanes[i];
      if lane.constructionZone {
        road.lanes := road.lanes[i := lane.(speed := lane.defaultSpeed, constructionZone := false)];
        c.SetMaxSpeed(road.id, lane.defaultSpeed);
      }
      i := i + 1;
    }
    assert lanes0[..i] == lanes0 && lanes0[i..] == [];
  }

  /** The lane loop of SetWorkZoneEntireRoad with a client: every lane not
      yet in a work zone gets the reduced speed and the flag, and a request
      is sent for it, in lane order. */
  method SetOnEveryLane(road: Road, c: TraciClient)
    modifies road, c
    ensures road.lanes == EditAll(SetZone, old(road.lanes))
    ensures c.sent == old(c.sent) + RoadPushes(SetZone, road.id, old(road.lanes))
  {
    ghost var lanes0 := road.lanes;
    var i := 0;
    while i < |road.lanes|
      invariant 0 <= i <= |lanes0| == |road.lanes|
      invariant road.lanes == EditAll(SetZone, lanes0[..i]) + lanes0[i..]
      invariant c.sent == old(c.sent) + RoadPushes(SetZone, road.id, lanes0[..i])
    {
      EditAllSnoc(SetZone, lanes0, i);
      RoadPushesSnoc(SetZone, road.id, lanes0, i);
      var lane := road.lanes[i];
      if !lane.constructionZone {
        var newSpeed := ToWorkZoneSpeed(road.lanes[i].speed);
        road.lanes := road.lanes[i := lane.(speed := newSpeed, constructionZone := true)];
        c.SetMaxSpeed(road.id, newSpeed);
      }
      i := i + 1;
    }
    assert lanes0[..i] == lanes0 && lanes0[i..] == [];
  }

  /** Either lane loop without a client: lanes the edit has nothing to do on
      are passed over; the first lane it changes has its record replaced, and
      the request that follows fails on the missing client, which ends the
      operation with the remaining lanes untouched. */
  method EditUntilFirstPush(e: Edit, road: Road) returns (outcome: Outcome)
    modifies road
    ensures var r := WholeRoadEdit(e, road.id, old(road.lanes), false);
            road.lanes == r.lanes && outcome == r.outcome
  {
    ghost var lanes0 := road.lanes;
    var i := 0;
    while i < |road.lanes|
      invariant 0 <= i <= |road.lanes|
      invariant road.lanes == lanes0
      invariant forall k :: 0 <= k < i ==> !Pending(e, lanes0[k])
    {
      var lane := road.lanes[i];
      if Pending(e, lane) {
        FirstPendingIs(e, lanes0, i);
        road.lanes := road.lanes[i := EditLane(e, lane)];
        return Failed(NoClient);
      }
      i := i + 1;
    }
    outcome := Done;
  }
}
