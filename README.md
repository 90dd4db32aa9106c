# AR Sumobox traffic controller — Dafny model

This project models the core of the Unity/SUMO traffic bridge of the AR
Sumobox repository.

**TraciController** (`TraciController.cs`):
- Work zones ("construction zones"). A lane in a work zone gets a reduced
  maximum speed: three quarters of its speed, but never below 20 m/s.
  Removing the work zone gives the lane back its default speed. Each change
  replaces the lane's record in the road's lane list, then asks SUMO, over
  TraCI, to apply the new speed.
- Whether the occupancy (mesoscopic) view is shown.
- The fixed-cadence stepper of the per-frame `Update`. Frame times are
  accumulated, and one SUMO step is requested once the total is above one
  second.

**ProjectionData** (`ProjectionData.cs`):
- The tokenizer that turns a SUMO shape string such as `"x1,y1 x2,y2"` into
  numbers.
- The width/height arithmetic and the mesh indices of the terrain plane
  built under the network.

Files:
- `workzone.dfy` (module `WorkZone`) — the policy as values:
  - the lane record, the speed rule and the lane edit;
  - the requests each edit sends;
  - what a one-lane or whole-road operation does to one road (`OneLaneEdit`,
    `WholeRoadEdit`), with the lemmas about them.
- `stepper.dfy` (module `Stepper`) — one frame of the stepper (`Advance`),
  runs of frames, and bounds on the step rate.
- `traci_controller.dfy` (module `TraciControl`) — the controller as a class:
  - the road registry (`Edge` with its `Road` objects, whose lane lists are
    replaced element by element);
  - the TraCI client, seen through the log of requests it was asked to send;
  - the four work-zone operations, the view toggle and the stepper part of
    `Update`.

  Each method is proved against the value-level functions of `WorkZone`
  and `Stepper`.
- `projection_data.dfy` (module `Projection`) — `String.Split` on `','` and
  `' '`, its inverse, the parse of each piece, and the class
  `ProjectionData`:
  - its three bound fields;
  - the tokenizer loop;
  - `BuildTerrain`.

Behaviour of the code that the model keeps:

- **Partial edits.** Every operation first looks up the registry, then the
  road with `Enumerable.Single`, then (one-lane operations) the lane with
  `List.FindIndex`. Each of these can fail with an exception; the model gives
  each failure its own `Failure` value. Without a TraCI client the lane
  record is replaced before the client is dereferenced. A one-lane operation
  therefore leaves its edit in place and fails. A whole-road operation stops
  at the first lane it changes, with that lane edited and the rest
  untouched.
- **Marking and clearing are not inverses, and the flag does not decide the
  speed.**
  - A whole-road operation has no exception handler. The first failed
    request therefore ends its loop, and the lanes after it stay as they
    were.
  - "Work zone ⇔ speed ≠ default speed" does not hold:
    - A lane whose speed and default speed are both 20 m/s keeps 20 m/s when
      marked (`FlaggedLaneMayKeepDefaultSpeed`).
    - An unmarked lane keeps whatever speed it was imported with.
  - Clearing an unmarked lane does nothing, so "mark after clear" is not the
    identity (`RemoveThenSetLane`).
  - "Clear after mark" restores the default speed, not the lane's own speed.
    It is the identity exactly when the two were equal (`SetThenRemoveLane`,
    `SetThenRemoveRoad`).
- **The rule can raise a lane's speed.** `ToWorkZoneSpeed` lowers a speed
  exactly when it is above 20 m/s and raises it when it is below 20 m/s
  (`WorkZoneSpeedVersusNormal`).
- **The stepper can stall.** The registry field is set only by the work-zone
  operations, but `Update` walks it whenever the occupancy view is on. Until
  a work-zone operation has run, each such frame fails before it reaches the
  stepper. The model's `Update` returns `Failed(NoEdge)` and leaves the
  accumulated time unchanged.
- **No margin around the terrain plane.** The comment on `BuildTerrain`
  promises a plane 100 m larger than the network. The code builds exactly
  the extent of the projected bounds, and so does the model.

## Model

| member | source | states |
|---|---|---|
| WorkZone.ToWorkZoneSpeed | src/AR_Sumobox/Assets/Scripts/TraciController.cs:126-130 | the work-zone speed is at least 20 and at least 3/4 of the normal speed, and equals one of the two (the maximum) |
| WorkZone.WorkZoneSpeedVersusNormal | src/AR_Sumobox/Assets/Scripts/TraciController.cs:126-130 | the rule lowers the speed iff it is above 20, keeps it iff it is 20, raises it iff it is below 20 |
| WorkZone.WorkZoneSpeedExamples | src/AR_Sumobox/Assets/Scripts/TraciController.cs:126-130 | 100 → 75, 20 → 20, 10 → 20 |
| WorkZone.EditLane | src/AR_Sumobox/Assets/Scripts/TraciController.cs:146-160 | the replacement lane record carries the edit's flag and every other attribute of the old record; when marking, its speed is the work-zone speed of the lane's current speed; when clearing, its default speed; a lane already in the requested state is returned unchanged |
| WorkZone.EditedSpeed | src/AR_Sumobox/Assets/Scripts/TraciController.cs:261-269 | a marked speed is never below 20 and never above a current speed of at least 20; a cleared speed is the default speed |
| WorkZone.LanePushes | src/AR_Sumobox/Assets/Scripts/TraciController.cs:261-280 | a lane edit sends nothing iff the lane is already in the requested state, and otherwise exactly one request for the road carrying the replacement record's speed |
| WorkZone.EditLaneIdempotent | src/AR_Sumobox/Assets/Scripts/TraciController.cs:261-284 | editing a lane twice is editing it once, and the second edit sends no request |
| WorkZone.SetThenRemoveLane | src/AR_Sumobox/Assets/Scripts/TraciController.cs:145-162 | clear after mark gives the lane its default speed and sends the default speed; it restores the lane iff its speed was the default |
| WorkZone.FlaggedLaneMayKeepDefaultSpeed | src/AR_Sumobox/Assets/Scripts/TraciController.cs:261-279 | a marked lane can still run at its default speed (20 m/s) |
| WorkZone.RemoveThenSetLane | src/AR_Sumobox/Assets/Scripts/TraciController.cs:143-167 | clearing an unmarked lane changes nothing, and marking it afterwards does not give it back |
| WorkZone.FindLaneIndex | src/AR_Sumobox/Assets/Scripts/TraciController.cs:258 | -1 iff no lane has the id; otherwise the first lane with that id |
| WorkZone.FirstPending | src/AR_Sumobox/Assets/Scripts/TraciController.cs:219-223 | -1 iff no lane needs the edit; otherwise the first lane that does |
| WorkZone.FirstPendingIs | src/AR_Sumobox/Assets/Scripts/TraciController.cs:219-223 | a lane that needs the edit, with none before it needing it, is the first pending lane |
| WorkZone.EditAll | src/AR_Sumobox/Assets/Scripts/TraciController.cs:219-244 | the whole-road edit keeps the lane count |
| WorkZone.EditAllEditsEachLane | src/AR_Sumobox/Assets/Scripts/TraciController.cs:219-244 | lane k after a whole-road edit is lane k edited: it carries the flag and its own attributes, and is untouched when it needed nothing |
| WorkZone.EditAllAt | src/AR_Sumobox/Assets/Scripts/TraciController.cs:182-204 | lane k of the edited road is the edit of lane k |
| WorkZone.EditAllSnoc | src/AR_Sumobox/Assets/Scripts/TraciController.cs:182-204 | replacing lane i of a road whose first i lanes are edited gives a road whose first i+1 lanes are edited |
| WorkZone.RoadPushes | src/AR_Sumobox/Assets/Scripts/TraciController.cs:182-244 | a whole-road edit sends at most one request per lane |
| WorkZone.RoadPushesSnoc | src/AR_Sumobox/Assets/Scripts/TraciController.cs:219-243 | the requests for lanes 0..i are those for lanes 0..i-1 followed by lane i's |
| WorkZone.RoadPushesCount | src/AR_Sumobox/Assets/Scripts/TraciController.cs:182-203 | a whole-road edit sends exactly one request per lane it changes |
| WorkZone.PendingIndicesGrow | src/AR_Sumobox/Assets/Scripts/TraciController.cs:182-203 | the lanes needing the edit in a longer road are those of the shorter road plus possibly the new last index |
| WorkZone.RoadPushesTarget | src/AR_Sumobox/Assets/Scripts/TraciController.cs:225-242 | every request of a whole-road edit is a max-speed request for that road, carrying the speed the edit gives some lane it changes |
| WorkZone.RoadPushesAppend | src/AR_Sumobox/Assets/Scripts/TraciController.cs:219-244 | requests follow lane order: those for a front part of the road precede those for the rest |
| WorkZone.EditAllIdempotent | src/AR_Sumobox/Assets/Scripts/TraciController.cs:212-245 | a whole-road edit applied twice equals it applied once, and the second sends nothing |
| WorkZone.NothingPendingSendsNothing | src/AR_Sumobox/Assets/Scripts/TraciController.cs:182-244 | a whole-road edit sends no request iff no lane needs the edit |
| WorkZone.SetThenRemoveRoad | src/AR_Sumobox/Assets/Scripts/TraciController.cs:175-245 | whole-road clear after whole-road mark puts every lane at its default speed, and restores the road iff every lane ran at its default speed |
| WorkZone.AtDefaultSpeedIsIdentity | src/AR_Sumobox/Assets/Scripts/TraciController.cs:190 | resetting speeds changes nothing iff every lane already runs at its default speed |
| WorkZone.RemovePushesAfterSet | src/AR_Sumobox/Assets/Scripts/TraciController.cs:184-202 | after a whole-road mark, the whole-road clear sends one default-speed request per lane, in lane order |
| WorkZone.OneLaneEdit | src/AR_Sumobox/Assets/Scripts/TraciController.cs:252-286 | only the first lane with the id can change; the lane-not-found failure happens iff no lane has the id; a found lane is warned about iff it is already in the requested state, and otherwise replaced by its edit, with Done when connected and the missing-client failure when not; a warning or a failure sends nothing; success sends exactly one request for the road, carrying the lane's new speed |
| WorkZone.WholeRoadEdit | src/AR_Sumobox/Assets/Scripts/TraciController.cs:212-245 | the lane count is kept; the outcome is Done or the missing-client failure; without a client nothing is sent |
| WorkZone.WholeRoadEditOutcome | src/AR_Sumobox/Assets/Scripts/TraciController.cs:175-245 | a completed whole-road edit leaves every lane with the edit's flag; a failed one has changed exactly the first lane needing the edit |
| WorkZone.OneLaneEditIdempotent | src/AR_Sumobox/Assets/Scripts/TraciController.cs:252-286 | a repeated one-lane edit leaves the road as it was after the first, sends nothing and only warns |
| WorkZone.SetThenRemoveOneLane | src/AR_Sumobox/Assets/Scripts/TraciController.cs:137-169 | one-lane mark then clear leaves the lane at its default speed and sends the reduced speed, then the default speed |
| WorkZone.EachLane | src/AR_Sumobox/Assets/Scripts/TraciController.cs:252-286 | one-lane edits of the first n lanes in turn keep the lane count |
| WorkZone.WholeRoadIsEachLane | src/AR_Sumobox/Assets/Scripts/TraciController.cs:212-286 | on a road with distinct lane ids, the whole-road edit equals one-lane edits of every lane in order: same lanes, same requests |
| WorkZone.EachLanePrefix | src/AR_Sumobox/Assets/Scripts/TraciController.cs:212-286 | after one-lane edits of the first n lanes, those n lanes are edited, the rest untouched, and the requests are the whole-road requests of those n |
| WorkZone.EditNextLane | src/AR_Sumobox/Assets/Scripts/TraciController.cs:252-286 | once the first n-1 lanes are edited, the one-lane edit of lane n-1 by its id edits exactly that lane |
| Stepper.Advance | src/AR_Sumobox/Assets/Scripts/TraciController.cs:396-401 | a step fires iff the accumulated time exceeds one second, and then the accumulator is zero; the accumulator never exceeds one second and stays non-negative |
| Stepper.RunStaysInWindow | src/AR_Sumobox/Assets/Scripts/TraciController.cs:396-401 | over any run of non-negative frames the accumulator stays in [0, 1] |
| Stepper.RunAtMostOneStepPerPeriod | src/AR_Sumobox/Assets/Scripts/TraciController.cs:396-401 | steps never outpace time: steps + remainder ≤ start + total frame time |
| Stepper.RunAtLeastOneStepPerTwoPeriods | src/AR_Sumobox/Assets/Scripts/TraciController.cs:396-401 | with frames of at most one second, at least one step per two seconds of accumulated time |
| Stepper.ThreeFramesExample | src/AR_Sumobox/Assets/Scripts/TraciController.cs:396-401 | three 0.4 s frames: no step after two, one step after the third, accumulator back at 0 |
| Stepper.ExactlyOnePeriodDoesNotStep | src/AR_Sumobox/Assets/Scripts/TraciController.cs:397 | exactly one second accumulated does not step; the test is strict |
| TraciControl.Single | src/AR_Sumobox/Assets/Scripts/TraciController.cs:257 | no match iff no road has the id; a unique match is the only road with the id; otherwise two distinct roads with the id |
| TraciControl.TraciController.constructor | src/AR_Sumobox/Assets/Scripts/TraciController.cs:65-70 | no client, no registry, vehicles shown, occupancy hidden, accumulator zero |
| TraciControl.TraciController.Registry | src/AR_Sumobox/Assets/Scripts/TraciController.cs:139-140 | a cached registry is always used; the scene's is looked up only when none is cached; there is none only when neither exists |
| TraciControl.TraciController.SetWorkZoneOneLane | src/AR_Sumobox/Assets/Scripts/TraciController.cs:252-286 | caches the registry; fails on no registry or a non-unique road; otherwise the road's lanes, outcome and sent requests are those of OneLaneEdit; no other road changes, and on a warning or an early failure no lane changes and nothing is sent |
| TraciControl.TraciController.RemoveWorkZoneOnLane | src/AR_Sumobox/Assets/Scripts/TraciController.cs:137-169 | as SetWorkZoneOneLane, for the clear edit |
| TraciControl.TraciController.SetWorkZoneEntireRoad | src/AR_Sumobox/Assets/Scripts/TraciController.cs:212-245 | caches the registry; fails on no registry or a non-unique road; otherwise lanes, outcome and requests are those of WholeRoadEdit; no other road changes; on an early failure no lane changes and nothing is sent |
| TraciControl.TraciController.RemoveWorkZoneEntireRoad | src/AR_Sumobox/Assets/Scripts/TraciController.cs:175-206 | as SetWorkZoneEntireRoad, for the clear edit |
| TraciControl.SetOnLane | src/AR_Sumobox/Assets/Scripts/TraciController.cs:258-285 | the lane part of the one-lane mark: lanes, outcome and requests are those of OneLaneEdit; a warning or a missing lane changes no lane, and only success sends |
| TraciControl.RemoveOnLane | src/AR_Sumobox/Assets/Scripts/TraciController.cs:142-168 | the same for the one-lane clear |
| TraciControl.SetOnEveryLane | src/AR_Sumobox/Assets/Scripts/TraciController.cs:219-244 | with a client, the loop leaves the road edited as EditAll and has sent exactly RoadPushes, in lane order |
| TraciControl.RemoveOnEveryLane | src/AR_Sumobox/Assets/Scripts/TraciController.cs:182-205 | the same for the clear loop |
| TraciControl.EditUntilFirstPush | src/AR_Sumobox/Assets/Scripts/TraciController.cs:182-243 | without a client, the loop replaces only the first lane needing the edit and fails, or completes when no lane needs it (WholeRoadEdit without a client) |
| TraciControl.TraciClient.SetMaxSpeed | src/AR_Sumobox/Assets/Scripts/TraciController.cs:243 | one max-speed request for the road is appended to the log |
| TraciControl.TraciClient.SimStep | src/AR_Sumobox/Assets/Scripts/TraciController.cs:398 | one step request is appended to the log |
| TraciControl.TraciController.ToggleMesoscopic | src/AR_Sumobox/Assets/Scripts/TraciController.cs:292-295 | the occupancy view flag is negated |
| TraciControl.TraciController.Update | src/AR_Sumobox/Assets/Scripts/TraciController.cs:364-402 | without a client nothing changes; with the occupancy view on and no registry the frame fails and nothing changes; otherwise the accumulator and step request are those of Advance; the accumulator stays in [0, 1] |
| Projection.Delimiters | src/AR_Sumobox/Assets/Scripts/ProjectionData.cs:32-35 | the separators of the string, in order; all are ',' or ' ' |
| Projection.Split | src/AR_Sumobox/Assets/Scripts/ProjectionData.cs:32-35 | one more piece than separators, and no piece holds a separator |
| Projection.JoinSplit | src/AR_Sumobox/Assets/Scripts/ProjectionData.cs:32-35 | rejoining the pieces with their separators gives the input back |
| Projection.SplitJoin | src/AR_Sumobox/Assets/Scripts/ProjectionData.cs:32-35 | splitting separator-free pieces joined with separators gives the pieces back |
| Projection.DelimitersJoin | src/AR_Sumobox/Assets/Scripts/ProjectionData.cs:32-35 | joining with separators puts exactly those separators in the string |
| Projection.JoinFront | src/AR_Sumobox/Assets/Scripts/ProjectionData.cs:32-35 | joining after a first piece and separator puts them in front |
| Projection.JoinGrowFirst | src/AR_Sumobox/Assets/Scripts/ProjectionData.cs:32-35 | a character in front of the first piece ends up in front of the joined string |
| Projection.SplitAfterPlainPrefix | src/AR_Sumobox/Assets/Scripts/ProjectionData.cs:32-35 | a separator-free front part starts the first piece |
| Projection.SplitAfterPiece | src/AR_Sumobox/Assets/Scripts/ProjectionData.cs:32-35 | a separator-free piece followed by a separator is the first piece |
| Projection.DelimitersOfPlain | src/AR_Sumobox/Assets/Scripts/ProjectionData.cs:32-35 | a separator-free front part adds no separators |
| Projection.SplitExample | src/AR_Sumobox/Assets/Scripts/ProjectionData.cs:27-40 | "a,b c,d" splits into a, b, c, d in order |
| Projection.SplitDoubleSeparatorExample | src/AR_Sumobox/Assets/Scripts/ProjectionData.cs:32-35 | two separators in a row leave an empty piece |
| Projection.FirstPieceEmpty | src/AR_Sumobox/Assets/Scripts/ProjectionData.cs:35 | the first piece is empty iff the string is empty or starts with a separator |
| Projection.LaterPieceEmpty | src/AR_Sumobox/Assets/Scripts/ProjectionData.cs:35 | a later piece is empty iff some separator ends the string or is followed by a separator |
| Projection.SeparatorWithoutNumberCases | src/AR_Sumobox/Assets/Scripts/ProjectionData.cs:35 | a separator with no number after it is a trailing separator or one of two in a row |
| Projection.EmptyPieceIff | src/AR_Sumobox/Assets/Scripts/ProjectionData.cs:35 | some piece is empty iff the string is empty, starts or ends with a separator, or has two separators in a row |
| Projection.ParsePieces | src/AR_Sumobox/Assets/Scripts/ProjectionData.cs:37-41 | conversion succeeds iff every piece parses, and then element k is the parse of piece k |
| Projection.EmptyPieceNeverParses | src/AR_Sumobox/Assets/Scripts/ProjectionData.cs:39 | when the empty string does not parse, an empty piece makes the conversion fail |
| Projection.EmptyPieceFails | src/AR_Sumobox/Assets/Scripts/ProjectionData.cs:35-39 | an empty shape string, or one that starts or ends with a separator, never converts |
| Projection.DoubleSeparatorFails | src/AR_Sumobox/Assets/Scripts/ProjectionData.cs:35-39 | a shape string with two separators in a row never converts |
| Projection.ProjectionData.ShapeStringToFloatList | src/AR_Sumobox/Assets/Scripts/ProjectionData.cs:29-42 | the loop's result is ParsePieces of the split shape, with one number per separator plus one |
| Projection.ProjectionData.SetProjectionData | src/AR_Sumobox/Assets/Scripts/ProjectionData.cs:19-25 | the three fields hold the three attribute values |
| Projection.ProjectionData.constructor | src/AR_Sumobox/Assets/Scripts/ProjectionData.cs:13-16 | the three bound strings start empty |
| Projection.TerrainSpansBounds | src/AR_Sumobox/Assets/Scripts/ProjectionData.cs:47-63 | the plane built on the bounds, placed at (bp[0], bp[1]), has as its vertices exactly the four corners of the rectangle [bp[0], bp[2]] × [bp[1], bp[3]]: no margin |
| Projection.TerrainPlane | src/AR_Sumobox/Assets/Scripts/ProjectionData.cs:57-68 | four vertices on the ground, four texture coordinates, six triangle indices all within the vertices |
| Projection.TerrainPlaneShape | src/AR_Sumobox/Assets/Scripts/ProjectionData.cs:58-68 | the vertices are exactly the four corners of [0,w]×[0,h]; both triangles have twice-signed-area −w·h (same winding, half the rectangle each); the texture coordinate of vertex k is the ground position of vertex k−1 |
| Projection.ProjectionData.BuildTerrain | src/AR_Sumobox/Assets/Scripts/ProjectionData.cs:45-74 | rejects unparsable bounds, rejects fewer than four numbers, and otherwise builds the plane of width bp[2]−bp[0] and height bp[3]−bp[1] |
| Projection.BoundsExample | src/AR_Sumobox/Assets/Scripts/ProjectionData.cs:47-49 | bounds 0,10,250,110 convert in order and give a 250 × 100 plane |

## Left out

- Connecting to SUMO (`ConnectToSumo`). The process launch, the socket, the
  subscriptions and the traffic-light program lookup are I/O. The client is
  either present or absent, and it is seen only through the log of
  requests it was asked to send.
- Vehicle mirroring (`OnVehicleUpdate`, `Subscribe`, the car-position loop
  of `Update`). These are Unity scene updates from simulator queries.
- The occupancy poll of `Update`. Its queries are left out; only its
  dereference of the registry is kept, because it decides whether the
  stepper runs.
- Traffic-light switching (`SetStopSignJunction`,
  `SetTrafficLightJunction`, `GetProgram`). This is foreign calls into the
  TraCI library.
- `FindObjectOfType<Edge>()` is a scene search. It is the parameter `scene`
  of each operation.
- The XML queries of `SetProjectionData`: it receives the three attribute
  values. A missing attribute (a null value) is not modelled.
- Unity mesh, material and game-object creation in `BuildTerrain`. The mesh
  is the `Mesh` value the code fills in, and `RecalculateNormals` is not
  modelled.
- `float.Parse` under the invariant culture (shape and bounds strings) is
  the parameter `parse` of the projection operations. `None` stands for a
  `FormatException`. A parse of `null` is not modelled.
- The `double.Parse` calls of the work-zone operations
  (`TraciController.cs` lines 163, 203, 225 and 263) are not modelled. They
  use the current culture, and their `FormatException` on a malformed speed
  string is not modelled either. In the clear operations that exception
  comes after the lane record has been replaced.
- Floating point. Speeds, bounds and frame times are exact reals. The model
  does not capture:
  - `float` and `double` rounding;
  - the 32-bit `float` accumulator of `Update`.
- The lane's `Speed` and `DefaultSpeed` are strings in the source. Marking
  writes `newSpeed.ToString()` back, and every use parses them. The model
  keeps them as numbers, assuming that string round trip is exact.
- Exceptions thrown by the TraCI client while sending are not modelled.
  `SetMaxSpeed` and `SimStep` always succeed; only a missing client fails.
- TraciControl.EditUntilFirstPush: without a client, the source runs its
  one lane loop until the null dereference. The model runs a separate loop
  for that case. It changes the same lane and stops at the same point, but
  it is a second loop in the model where the source has one.
- Projection.ProjectionData.constructor: the three bound fields start as
  empty strings, as Unity gives serialized public strings. A plain C#
  instance would hold `null` there, and `null` is not modelled.
