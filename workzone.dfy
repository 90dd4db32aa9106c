/** The construction-zone ("work zone") policy that TraciController applies to
    the lanes of one SUMO road: the reduced-speed rule, the copy-on-write lane
    edit, and the max-speed requests each edit sends to the simulator.
    Everything here is a pure value-level description; the controller's
    methods, which update a road's lane list in place, are proved against it. */
module WorkZone {

  /** One lane of a road as imported from the SUMO network file. Speeds are in
      metres per second; the other attributes are carried through unchanged. */
  datatype Lane = Lane(
    id: string,
    index: string,
    speed: real,
    length: string,
    width: string,
    allow: string,
    disallow: string,
    shape: string,
    built: bool,
    defaultSpeed: real,
    constructionZone: bool)

  /** A request the controller sends to SUMO over TraCI. */
  datatype Command = MaxSpeed(roadId: string, speed: real) | Step

  /** The two lane edits of the controller: set or remove a work zone. */
  datatype Edit = SetZone | RemoveZone {
    /** The construction-zone flag a lane carries once the edit is applied. */
    function Flag(): bool {
      SetZone?
    }
  }

  /** Why an operation stopped: the exception the source would raise. */
  datatype Failure =
    | NoEdge         // no Edge component in the scene: null dereference
    | RoadNotSingle  // Single found no road, or more than one, with the id
    | LaneNotFound   // FindIndex gave -1 and the lane list was indexed with it
    | NoClient       // no TraCI client: null dereference after the lane edit

  /** Done: every edit was made and pushed; Warned: the lane was already in
      the requested state and only a warning was logged. */
  datatype Outcome = Done | Warned | Failed(failure: Failure)

  /** The reduced speed of a work zone: three quarters of the normal speed, or
      20 m/s, whichever is higher. */
  function ToWorkZoneSpeed(normalSpeed: real): (r: real)
    ensures r >= 20.0 && r >= normalSpeed * 3.0 / 4.0
    ensures r == 20.0 || r == normalSpeed * 3.0 / 4.0
  {
    if normalSpeed * 3.0 / 4.0 > 20.0 then normalSpeed * 3.0 / 4.0 else 20.0
  }

  /** The rule lowers the speed exactly when it is above 20 m/s and raises it
      when it is below: a work zone on a slow lane makes it faster. */
  lemma WorkZoneSpeedVersusNormal(s: real)
    ensures ToWorkZoneSpeed(s) < s <==> s > 20.0
    ensures ToWorkZoneSpeed(s) == s <==> s == 20.0
    ensures ToWorkZoneSpeed(s) > s <==> s < 20.0
  {
  }

  lemma WorkZoneSpeedExamples()
    ensures ToWorkZoneSpeed(100.0) == 75.0
    ensures ToWorkZoneSpeed(20.0) == 20.0
    ensures ToWorkZoneSpeed(10.0) == 20.0
  {
  }

  /** True when the edit has something to do on this lane. */
  predicate Pending(e: Edit, lane: Lane) {
    lane.constructionZone != e.Flag()
  }

  /** The speed an edit gives a lane it changes: the reduced speed computed
      from the lane's CURRENT speed, or the lane's default speed. */
  function EditedSpeed(e: Edit, lane: Lane): (s: real)
    ensures e.SetZone? ==> 20.0 <= s && (20.0 <= lane.speed ==> s <= lane.speed)
    ensures e.RemoveZone? ==> s == lane.defaultSpeed
  {
    match e
    case SetZone => ToWorkZoneSpeed(lane.speed)
    case RemoveZone => lane.defaultSpeed
  }

  /** Every attribute except the speed and the flag is the same in a and b. */
  predicate SameAttributes(a: Lane, b: Lane) {
    && a.id == b.id
    && a.index == b.index
    && a.length == b.length
    && a.width == b.width
    && a.allow == b.allow
    && a.disallow == b.disallow
    && a.shape == b.shape
    && a.built == b.built
    && a.defaultSpeed == b.defaultSpeed
  }

  /** The lane record that replaces `lane` (a new record, the old one is not
      edited); a lane already in the requested state is kept as it is. */
  function EditLane(e: Edit, lane: Lane): (r: Lane)
    ensures r.constructionZone == e.Flag()
    ensures SameAttributes(lane, r)
    ensures !Pending(e, lane) ==> r == lane
    ensures Pending(e, lane) && e.SetZone? ==> r.speed == ToWorkZoneSpeed(lane.speed)
    ensures Pending(e, lane) && e.RemoveZone? ==> r.speed == lane.defaultSpeed
  {
    if Pending(e, lane) then lane.(speed := EditedSpeed(e, lane), constructionZone := e.Flag())
    else lane
  }

  /** The max-speed requests a one-lane edit sends for road `roadId`. */
  function LanePushes(e: Edit, roadId: string, lane: Lane): (p: seq<Command>)
    ensures p == [] <==> !Pending(e, lane)
    ensures p != [] ==> p == [MaxSpeed(roadId, EditLane(e, lane).speed)]
  {
    if Pending(e, lane) then [MaxSpeed(roadId, EditedSpeed(e, lane))] else []
  }

  /** A lane edit applied twice is the lane edit applied once, and the second
      application sends nothing. */
  lemma EditLaneIdempotent(e: Edit, roadId: string, lane: Lane)
    ensures EditLane(e, EditLane(e, lane)) == EditLane(e, lane)
    ensures LanePushes(e, roadId, EditLane(e, lane)) == []
  {
  }

  /** Setting then removing a work zone restores the DEFAULT speed, not the
      speed the lane had: the round trip is the identity exactly when the two
      were equal. */
  lemma SetThenRemoveLane(roadId: string, lane: Lane)
    requires !lane.constructionZone
    ensures EditLane(RemoveZone, EditLane(SetZone, lane)) == lane.(speed := lane.defaultSpeed)
    ensures EditLane(RemoveZone, EditLane(SetZone, lane)) == lane <==> lane.speed == lane.defaultSpeed
    ensures LanePushes(RemoveZone, roadId, EditLane(SetZone, lane)) == [MaxSpeed(roadId, lane.defaultSpeed)]
  {
  }

  /** A flagged lane does not always run below its default speed: a lane whose
      speed and default speed are both 20 m/s keeps 20 m/s when flagged. */
  lemma FlaggedLaneMayKeepDefaultSpeed()
    ensures var lane := Lane("e_0", "0", 20.0, "100", "3.2", "", "", "", true, 20.0, false);
            EditLane(SetZone, lane).constructionZone && EditLane(SetZone, lane).speed == lane.defaultSpeed
  {
  }

  /** Removing a work zone from an unflagged lane changes nothing, so setting
      a work zone afterwards does not give the lane back. */
  lemma RemoveThenSetLane(lane: Lane)
    requires !lane.constructionZone
    ensures EditLane(RemoveZone, lane) == lane
    ensures EditLane(SetZone, EditLane(RemoveZone, lane)) != lane
  {
  }

  // ---------------------------------------------------------------------------
  // Lookup of a lane by id (List.FindIndex)

  /** The index of the first lane with id `laneId`, or -1 (List.FindIndex
      with an id test). */
  function FindLaneIndex(lanes: seq<Lane>, laneId: string): (k: int)
    ensures -1 <= k < |lanes|
    ensures k == -1 <==> forall j :: 0 <= j < |lanes| ==> lanes[j].id != laneId
    ensures 0 <= k ==> lanes[k].id == laneId && forall j :: 0 <= j < k ==> lanes[j].id != laneId
  {
    if lanes == [] then -1
    else if lanes[0].id == laneId then 0
    else
      var k := FindLaneIndex(lanes[1..], laneId);
      if k == -1 then -1 else k + 1
  }

  /** The index of the first lane the edit has something to do on, or -1. */
  function FirstPending(e: Edit, lanes: seq<Lane>): (k: int)
    ensures -1 <= k < |lanes|
    ensures k == -1 <==> forall j :: 0 <= j < |lanes| ==> !Pending(e, lanes[j])
    ensures 0 <= k ==> Pending(e, lanes[k]) && forall j :: 0 <= j < k ==> !Pending(e, lanes[j])
  {
    if lanes == [] then -1
    else if Pending(e, lanes[0]) then 0
    else
      var k := FirstPending(e, lanes[1..]);
      if k == -1 then -1 else k + 1
  }

  /** The lane ids of a road are pairwise distinct. */
  ghost predicate DistinctIds(lanes: seq<Lane>) {
    forall i, j :: 0 <= i < j < |lanes| ==> lanes[i].id != lanes[j].id
  }

  // ---------------------------------------------------------------------------
  // Whole-road edits

  /** Every lane of the road edited, lane by lane in index order. */
  function EditAll(e: Edit, lanes: seq<Lane>): (r: seq<Lane>)
    ensures |r| == |lanes|
    decreases |lanes|
  {
    if lanes == [] then []
    else EditAll(e, lanes[..|lanes| - 1]) + [EditLane(e, lanes[|lanes| - 1])]
  }

  /** Lane k of the edited road is lane k edited: lane count and order are
      kept, every lane carries the edit's flag and its own attributes, and a
      lane the edit has nothing to do on is left as it was. */
  lemma {:induction false} EditAllEditsEachLane(e: Edit, lanes: seq<Lane>)
    ensures forall k :: 0 <= k < |lanes| ==> EditAll(e, lanes)[k] == EditLane(e, lanes[k])
    ensures forall k :: 0 <= k < |lanes| ==>
              EditAll(e, lanes)[k].constructionZone == e.Flag() && SameAttributes(lanes[k], EditAll(e, lanes)[k])
    ensures forall k :: 0 <= k < |lanes| && !Pending(e, lanes[k]) ==> EditAll(e, lanes)[k] == lanes[k]
  {
    forall k | 0 <= k < |lanes| ensures EditAll(e, lanes)[k] == EditLane(e, lanes[k]) {
      EditAllAt(e, lanes, k);
    }
  }

  /** Lane k of the edited road is lane k edited. */
  lemma {:induction false} EditAllAt(e: Edit, lanes: seq<Lane>, k: nat)
    requires k < |lanes|
    ensures EditAll(e, lanes)[k] == EditLane(e, lanes[k])
    decreases |lanes|
  {
    var n := |lanes| - 1;
    if k < n {
      EditAllAt(e, lanes[..n], k);
    }
  }

  /** The requests a whole-road edit sends: one per lane it changes, in lane
      order. */
  function RoadPushes(e: Edit, roadId: string, lanes: seq<Lane>): (p: seq<Command>)
    ensures |p| <= |lanes|
    decreases |lanes|
  {
    if lanes == [] then []
    else RoadPushes(e, roadId, lanes[..|lanes| - 1]) + LanePushes(e, roadId, lanes[|lanes| - 1])
  }

  /** The requests for one more lane come after those for the lanes before it. */
  lemma RoadPushesSnoc(e: Edit, roadId: string, lanes: seq<Lane>, i: nat)
    requires i < |lanes|
    ensures RoadPushes(e, roadId, lanes[..i + 1]) == RoadPushes(e, roadId, lanes[..i]) + LanePushes(e, roadId, lanes[i])
  {
    assert lanes[..i + 1][..i] == lanes[..i];
  }

  /** The lanes after the first i lanes are edited, and one more lane. */
  lemma EditAllSnoc(e: Edit, lanes: seq<Lane>, i: nat)
    requires i < |lanes|
    ensures (EditAll(e, lanes[..i]) + lanes[i..])[i] == lanes[i]
    ensures (EditAll(e, lanes[..i]) + lanes[i..])[i := EditLane(e, lanes[i])] == EditAll(e, lanes[..i + 1]) + lanes[i + 1..]
  {
    assert lanes[..i + 1][..i] == lanes[..i];
    assert lanes[i..] == [lanes[i]] + lanes[i + 1..];
  }

  /** A lane the edit has something to do on, with none such before it, is
      the first pending lane. */
  lemma {:induction false} FirstPendingIs(e: Edit, lanes: seq<Lane>, i: nat)
    requires i < |lanes| && Pending(e, lanes[i])
    requires forall k :: 0 <= k < i ==> !Pending(e, lanes[k])
    ensures FirstPending(e, lanes) == i
    decreases i
  {
    if 0 < i {
      FirstPendingIs(e, lanes[1..], i - 1);
    }
  }

  /** The indices of the lanes an edit has something to do on. */
  function PendingIndices(e: Edit, lanes: seq<Lane>): set<int> {
    set k | 0 <= k < |lanes| && Pending(e, lanes[k])
  }

  /** A whole-road edit sends exactly one request per lane it changes. */
  lemma {:induction false} RoadPushesCount(e: Edit, roadId: string, lanes: seq<Lane>)
    ensures |RoadPushes(e, roadId, lanes)| == |PendingIndices(e, lanes)|
    decreases |lanes|
  {
    if lanes != [] {
      var n := |lanes| - 1;
      RoadPushesCount(e, roadId, lanes[..n]);
      PendingIndicesGrow(e, lanes);
    }
  }

  lemma PendingIndicesGrow(e: Edit, lanes: seq<Lane>)
    requires lanes != []
    ensures var n := |lanes| - 1;
            PendingIndices(e, lanes)
            == PendingIndices(e, lanes[..n]) + (if Pending(e, lanes[n]) then {n} else {})
    ensures |lanes| - 1 !in PendingIndices(e, lanes[..|lanes| - 1])
  {
    var n := |lanes| - 1;
    forall k | 0 <= k < n ensures lanes[..n][k] == lanes[k] { }
  }

  /** Every request of a whole-road edit targets that road and carries the
      speed the edit gives some lane it changes. */
  lemma {:induction false} RoadPushesTarget(e: Edit, roadId: string, lanes: seq<Lane>)
    ensures forall c :: c in RoadPushes(e, roadId, lanes) ==>
              c.MaxSpeed? && c.roadId == roadId &&
              exists k :: 0 <= k < |lanes| && Pending(e, lanes[k]) && c.speed == EditedSpeed(e, lanes[k])
    decreases |lanes|
  {
    if lanes != [] {
      var n := |lanes| - 1;
      RoadPushesTarget(e, roadId, lanes[..n]);
      forall c | c in RoadPushes(e, roadId, lanes)
        ensures c.MaxSpeed? && c.roadId == roadId
        ensures exists k :: 0 <= k < |lanes| && Pending(e, lanes[k]) && c.speed == EditedSpeed(e, lanes[k])
      {
        if c in RoadPushes(e, roadId, lanes[..n]) {
          var k :| 0 <= k < n && Pending(e, lanes[..n][k]) && c.speed == EditedSpeed(e, lanes[..n][k]);
          assert lanes[..n][k] == lanes[k];
        } else {
          assert c in LanePushes(e, roadId, lanes[n]);
        }
      }
    }
  }

  /** Requests follow lane order: those for a front part of the road come
      before those for the rest. */
  lemma {:induction false} RoadPushesAppend(e: Edit, roadId: string, a: seq<Lane>, b: seq<Lane>)
    ensures RoadPushes(e, roadId, a + b) == RoadPushes(e, roadId, a) + RoadPushes(e, roadId, b)
    decreases |b|
  {
    if b == [] {
      assert a + b == a;
    } else {
      var n := |b| - 1;
      assert (a + b)[..|a + b| - 1] == a + b[..n];
      assert (a + b)[|a + b| - 1] == b[n];
      assert RoadPushes(e, roadId, a + b)
             == RoadPushes(e, roadId, a + b[..n]) + LanePushes(e, roadId, b[n]);
      assert RoadPushes(e, roadId, b) == RoadPushes(e, roadId, b[..n]) + LanePushes(e, roadId, b[n]);
      RoadPushesAppend(e, roadId, a, b[..n]);
    }
  }

  /** A whole-road edit applied twice is the edit applied once, and the second
      application sends nothing. */
  lemma {:induction false} EditAllIdempotent(e: Edit, roadId: string, lanes: seq<Lane>)
    ensures EditAll(e, EditAll(e, lanes)) == EditAll(e, lanes)
    ensures RoadPushes(e, roadId, EditAll(e, lanes)) == []
  {
    var edited := EditAll(e, lanes);
    EditAllEditsEachLane(e, lanes);
    EditAllEditsEachLane(e, edited);
    NothingPendingSendsNothing(e, roadId, edited);
  }

  /** A whole-road edit sends nothing exactly when no lane needs it. */
  lemma {:induction false} NothingPendingSendsNothing(e: Edit, roadId: string, lanes: seq<Lane>)
    ensures RoadPushes(e, roadId, lanes) == [] <==> forall k :: 0 <= k < |lanes| ==> !Pending(e, lanes[k])
    decreases |lanes|
  {
    if lanes != [] {
      var n := |lanes| - 1;
      NothingPendingSendsNothing(e, roadId, lanes[..n]);
      assert forall k :: 0 <= k < n ==> lanes[..n][k] == lanes[k];
    }
  }

  /** Setting then removing a work zone on a road with no work zone gives
      every lane its default speed back, and restores the road exactly when
      every lane ran at its default speed. */
  lemma SetThenRemoveRoad(lanes: seq<Lane>)
    requires forall k :: 0 <= k < |lanes| ==> !lanes[k].constructionZone
    ensures EditAll(RemoveZone, EditAll(SetZone, lanes)) == AtDefaultSpeed(lanes)
    ensures EditAll(RemoveZone, EditAll(SetZone, lanes)) == lanes
            <==> forall k :: 0 <= k < |lanes| ==> lanes[k].speed == lanes[k].defaultSpeed
  {
    var marked := EditAll(SetZone, lanes);
    var restored := EditAll(RemoveZone, marked);
    forall k | 0 <= k < |lanes| ensures restored[k] == AtDefaultSpeed(lanes)[k] {
      EditAllAt(SetZone, lanes, k);
      EditAllAt(RemoveZone, marked, k);
    }
    AtDefaultSpeedIsIdentity(lanes);
  }

  /** Every lane with its speed put back to its default. */
  function AtDefaultSpeed(lanes: seq<Lane>): (r: seq<Lane>)
    ensures |r| == |lanes|
    ensures forall k :: 0 <= k < |lanes| ==> r[k] == lanes[k].(speed := lanes[k].defaultSpeed)
  {
    seq(|lanes|, k requires 0 <= k < |lanes| => lanes[k].(speed := lanes[k].defaultSpeed))
  }

  /** Putting every speed back to its default changes nothing exactly when
      every lane already runs at its default speed. */
  lemma AtDefaultSpeedIsIdentity(lanes: seq<Lane>)
    ensures AtDefaultSpeed(lanes) == lanes <==> forall k :: 0 <= k < |lanes| ==> lanes[k].speed == lanes[k].defaultSpeed
  {
    var d := AtDefaultSpeed(lanes);
    if d == lanes {
      forall k | 0 <= k < |lanes| ensures lanes[k].speed == lanes[k].defaultSpeed {
        assert d[k].speed == lanes[k].defaultSpeed;
      }
    }
  }

  /** After a whole-road Set on a road with no work zone, the whole-road
      Remove sends one default-speed request per lane, in lane order. */
  lemma {:induction false} RemovePushesAfterSet(roadId: string, lanes: seq<Lane>)
    requires forall k :: 0 <= k < |lanes| ==> !lanes[k].constructionZone
    ensures RoadPushes(RemoveZone, roadId, EditAll(SetZone, lanes))
            == seq(|lanes|, k requires 0 <= k < |lanes| => MaxSpeed(roadId, lanes[k].defaultSpeed))
    decreases |lanes|
  {
    if lanes != [] {
      var n := |lanes| - 1;
      RemovePushesAfterSet(roadId, lanes[..n]);
      var marked := EditAll(SetZone, lanes);
      assert marked[..n] == EditAll(SetZone, lanes[..n]);
      assert LanePushes(RemoveZone, roadId, marked[n]) == [MaxSpeed(roadId, lanes[n].defaultSpeed)];
    }
  }

  // ---------------------------------------------------------------------------
  // What each controller operation does to one road, as a value

  /** The lanes of the road afterwards, the requests sent, and the outcome. */
  datatype RoadResult = RoadResult(lanes: seq<Lane>, pushes: seq<Command>, outcome: Outcome)

  /** One-lane edit of lane `laneId` on road `roadId`; `connected` tells
      whether a TraCI client exists. The lane is looked up first, the record
      replaced next, and only then is the client used. */
  function OneLaneEdit(e: Edit, roadId: string, laneId: string, lanes: seq<Lane>, connected: bool): (r: RoadResult)
    ensures |r.lanes| == |lanes|
    ensures forall j :: 0 <= j < |lanes| && lanes[j].id != laneId ==> r.lanes[j] == lanes[j]
    ensures r.outcome == Failed(LaneNotFound) <==> forall j :: 0 <= j < |lanes| ==> lanes[j].id != laneId
    ensures r.outcome == Failed(LaneNotFound) || r.outcome == Warned ==> r.lanes == lanes
    ensures r.outcome.Failed? || r.outcome == Warned ==> r.pushes == []
    ensures r.outcome == Done ==> |r.pushes| == 1 && r.pushes[0].MaxSpeed? && r.pushes[0].roadId == roadId
    ensures var k := FindLaneIndex(lanes, laneId);
            && (forall j :: 0 <= j < |lanes| && j != k ==> r.lanes[j] == lanes[j])
            && (0 <= k ==> (r.outcome == Warned <==> !Pending(e, lanes[k])))
            && (0 <= k && Pending(e, lanes[k]) ==>
                  && r.lanes == lanes[k := EditLane(e, lanes[k])]
                  && (connected ==> r.outcome == Done)
                  && (!connected ==> r.outcome == Failed(NoClient)))
            && (r.outcome == Done ==> r.pushes == [MaxSpeed(roadId, r.lanes[k].speed)])
  {
    var k := FindLaneIndex(lanes, laneId);
    if k < 0 then RoadResult(lanes, [], Failed(LaneNotFound))
    else if !Pending(e, lanes[k]) then RoadResult(lanes, [], Warned)
    else if !connected then RoadResult(lanes[k := EditLane(e, lanes[k])], [], Failed(NoClient))
    else RoadResult(lanes[k := EditLane(e, lanes[k])], LanePushes(e, roadId, lanes[k]), Done)
  }

  /** Whole-road edit of road `roadId`. Without a client the loop stops at the
      first lane it changes, after replacing that lane's record. */
  function WholeRoadEdit(e: Edit, roadId: string, lanes: seq<Lane>, connected: bool): (r: RoadResult)
    ensures |r.lanes| == |lanes|
    ensures r.outcome == Done || r.outcome == Failed(NoClient)
    ensures !connected ==> r.pushes == []
  {
    if connected then RoadResult(EditAll(e, lanes), RoadPushes(e, roadId, lanes), Done)
    else
      var k := FirstPending(e, lanes);
      if k < 0 then RoadResult(lanes, [], Done)
      else RoadResult(lanes[k := EditLane(e, lanes[k])], [], Failed(NoClient))
  }

  /** A whole-road edit that completes leaves every lane with the edit's
      flag; one that fails for want of a client has changed exactly the first
      lane it had something to do on. */
  lemma WholeRoadEditOutcome(e: Edit, roadId: string, lanes: seq<Lane>, connected: bool)
    ensures var r := WholeRoadEdit(e, roadId, lanes, connected);
            r.outcome == Done ==> forall k :: 0 <= k < |lanes| ==> r.lanes[k].constructionZone == e.Flag()
    ensures var r := WholeRoadEdit(e, roadId, lanes, connected);
            r.outcome == Failed(NoClient) ==>
              exists k ::
                && 0 <= k < |lanes| && Pending(e, lanes[k]) && r.lanes == lanes[k := EditLane(e, lanes[k])]
                && forall j :: 0 <= j < k ==> !Pending(e, lanes[j])
  {
    if connected {
      EditAllEditsEachLane(e, lanes);
    }
  }

  /** A one-lane edit applied twice leaves the same lanes as applied once and
      the second application sends nothing: it only warns. */
  lemma OneLaneEditIdempotent(e: Edit, roadId: string, laneId: string, lanes: seq<Lane>)
    ensures var once := OneLaneEdit(e, roadId, laneId, lanes, true);
            var twice := OneLaneEdit(e, roadId, laneId, once.lanes, true);
            twice.lanes == once.lanes && twice.pushes == [] &&
            (once.outcome != Failed(LaneNotFound) ==> twice.outcome == Warned)
  {
    var once := OneLaneEdit(e, roadId, laneId, lanes, true);
    var k := FindLaneIndex(lanes, laneId);
    if 0 <= k {
      assert forall j :: 0 <= j < |lanes| ==> once.lanes[j].id == lanes[j].id;
      assert FindLaneIndex(once.lanes, laneId) == k;
    }
  }

  /** Set followed by Remove on one unflagged lane: the lane ends at its
      default speed with no flag, nothing else changes, and the two requests
      are the reduced speed and then the default speed. */
  lemma SetThenRemoveOneLane(roadId: string, laneId: string, lanes: seq<Lane>)
    requires 0 <= FindLaneIndex(lanes, laneId)
    requires !lanes[FindLaneIndex(lanes, laneId)].constructionZone
    ensures var k := FindLaneIndex(lanes, laneId);
            var set1 := OneLaneEdit(SetZone, roadId, laneId, lanes, true);
            var rem := OneLaneEdit(RemoveZone, roadId, laneId, set1.lanes, true);
            rem.lanes == lanes[k := lanes[k].(speed := lanes[k].defaultSpeed)] &&
            set1.pushes + rem.pushes
              == [MaxSpeed(roadId, ToWorkZoneSpeed(lanes[k].speed)), MaxSpeed(roadId, lanes[k].defaultSpeed)]
  {
    var k := FindLaneIndex(lanes, laneId);
    var set1 := OneLaneEdit(SetZone, roadId, laneId, lanes, true);
    assert forall j :: 0 <= j < |lanes| ==> set1.lanes[j].id == lanes[j].id;
    assert FindLaneIndex(set1.lanes, laneId) == k;
  }

  /** The lanes and requests after one-lane edits of the first n lanes in
      turn, each lane addressed by its own id, starting from `lanes`. */
  function EachLane(e: Edit, roadId: string, lanes: seq<Lane>, n: nat): (r: (seq<Lane>, seq<Command>))
    requires n <= |lanes|
    ensures |r.0| == |lanes|
  {
    if n == 0 then (lanes, [])
    else
      var prior := EachLane(e, roadId, lanes, n - 1);
      var step := OneLaneEdit(e, roadId, lanes[n - 1].id, prior.0, true);
      (step.lanes, prior.1 + step.pushes)
  }

  /** On a road whose lane ids are distinct, the whole-road edit is the same
      as the one-lane edit applied to each lane in index order: same lanes and
      same requests in the same order. */
  lemma {:induction false} WholeRoadIsEachLane(e: Edit, roadId: string, lanes: seq<Lane>)
    requires DistinctIds(lanes)
    ensures EachLane(e, roadId, lanes, |lanes|) == (EditAll(e, lanes), RoadPushes(e, roadId, lanes))
  {
    EachLanePrefix(e, roadId, lanes, |lanes|);
    assert lanes[..|lanes|] == lanes;
    assert EditAll(e, lanes) + lanes[|lanes|..] == EditAll(e, lanes);
  }

  lemma {:induction false} EachLanePrefix(e: Edit, roadId: string, lanes: seq<Lane>, n: nat)
    requires n <= |lanes|
    requires DistinctIds(lanes)
    ensures EachLane(e, roadId, lanes, n) == (EditAll(e, lanes[..n]) + lanes[n..], RoadPushes(e, roadId, lanes[..n]))
  {
    if n > 0 {
      EachLanePrefix(e, roadId, lanes, n - 1);
      var s := EditAll(e, lanes[..n - 1]) + lanes[n - 1..];
      var step := OneLaneEdit(e, roadId, lanes[n - 1].id, s, true);
      assert EachLane(e, roadId, lanes, n - 1).0 == s;
      assert EachLane(e, roadId, lanes, n) == (step.lanes, RoadPushes(e, roadId, lanes[..n - 1]) + step.pushes);
      EditNextLane(e, roadId, lanes, n);
      RoadPushesSnoc(e, roadId, lanes, n - 1);
    } else {
      assert lanes[..0] == [] && lanes[0..] == lanes;
      assert EditAll(e, []) + lanes == lanes;
      assert RoadPushes(e, roadId, []) == [];
    }
  }

  /** Once the first n - 1 lanes are edited, the one-lane edit addressed by
      lane n - 1's id edits exactly lane n - 1. */
  lemma EditNextLane(e: Edit, roadId: string, lanes: seq<Lane>, n: nat)
    requires 0 < n <= |lanes|
    requires DistinctIds(lanes)
    ensures var step := OneLaneEdit(e, roadId, lanes[n - 1].id, EditAll(e, lanes[..n - 1]) + lanes[n - 1..], true);
            step.lanes == EditAll(e, lanes[..n]) + lanes[n..] &&
            step.pushes == LanePushes(e, roadId, lanes[n - 1])
  {
    var s := EditAll(e, lanes[..n - 1]) + lanes[n - 1..];
    EditAllSnoc(e, lanes, n - 1);
    assert s[n - 1] == lanes[n - 1];
    forall j | 0 <= j < n - 1 ensures s[j].id != lanes[n - 1].id {
      EditAllAt(e, lanes[..n - 1], j);
    }
    assert FindLaneIndex(s, lanes[n - 1].id) == n - 1;
    if !Pending(e, lanes[n - 1]) {
      assert s[n - 1 := EditLane(e, lanes[n - 1])] == s;
    }
  }
}
