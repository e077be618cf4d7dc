# Artery: verified models of its stateful core

Artery couples a traffic simulation (SUMO, through TraCI) with vehicles that exchange ITS-G5
messages. This project models the parts of it that keep state over a whole simulation and
proves what they keep, over every reachable state and every run:

1. **Vehicle bookkeeping** (`Fleet`, `FleetRuns`, `NodeManagers`). The node manager's vehicle
   table, its chain of region-of-interest and insertion-delay policies, the callbacks by which a
   policy hands a vehicle back with itself left out, and removals deferred while the table is
   traversed. The specification is one place per vehicle that is alive.
2. **Collective perception** (`CpIds`, `CpIdRuns`, `CpCycles`, `CpSensorIds`, `CpSelection`,
   `CpRules`, `CpOrder`, `CpMessages`, `CpServices`). Two ID allocators with hold-off, random probes and a
   linear scan, the reset on a pseudonym change, inclusion histories, the object inclusion rules, what they
   mean for receivers over runs of messages, and the order of objects in a message (section 6.1.2 of ETSI
   TS 103 324).
3. **Generation control** (`CamPolicies`, `CamRuns`, `CaServices`, `McRuns`, `McServices`). When CAMs
   and MCMs are generated, with adaptive interval, low-dynamics counter, congestion gate and
   temporary rate reduction (section 6.1.3 of ETSI EN 302 637-2).
4. **Wrapped time, awareness and trajectories** (`Timers`, `AwarenessMaps`, `Trajectories`).
   16-bit millisecond timestamps, the maps of received messages, the trajectory codec.
5. **Mirrors and indexes** (`LocalEnvironment`, `Subscriptions`, `GlobalEnvironment`). Tracked objects
   against a log of detections, subscribed variables against the union of all requests, a spatial
   index against a linear scan.

`Moments` holds simulation time and a few shared helpers.

## How it is built

Objects whose methods update fields are classes with those fields; every method is proved against
a specification on values, and the properties are proved about the specification. The classes that
matter over time carry their history in ghost fields: `CpService.ledgers`/`ops` is a run in
the sense of `CpIdRuns.Run`, `CpService.sensorTables`/`sensorClocks`/`sensorOps` one of
`CpSensorIds.SensorRun`, `CpService.contexts`/`perceived` one of `CpSelection.Messages`, and
`CpService.spans` says which operations belong to which message (`CpMessages.Log`);
`CaService.cams`/`ticks` one of `CamRuns.Run`, `McService.states`/`ticks` one of `McRuns.McRun`, each with
the ticks that sent a message in `log`; `AwarenessMap.log` is the log of receptions,
`LocalEnvironmentModel.log` that of detections and clean-ups, and `ExtensibleNodeManager.fleet` the one
place of each vehicle. Each method extends that history by exactly the step it takes, so a lemma about all
runs is about all executions of the class.

Choices made in the model:

- Time is an integer: microseconds in most modules, picoseconds in `Timers` and `AwarenessMaps`, where
  truncation to microseconds matters.
- Random draws, the congestion control interval, kinematics, station ID, positions and SUMO's lists of
  departed and arrived vehicles are parameters. Nothing is assumed of a draw beyond its range.
- A region is a predicate on positions, a search polygon a predicate on boxes, an R-tree a list of
  entries in any order, the Euclidean distance an arbitrary function.
- Floating-point values are reals. A ramp between equal thresholds jumps to one, as dividing by zero
  gives infinity in the original.
- A policy of the chain is one of two classes; `Policy` dispatches between them.
- The cached metrics of a perceived object are kept in a sequence beside the objects.
- `std::sort` is an insertion sort; only its contract is used.
- A throw is a result value (`InvalidArea`, `OutOfRange`, `Ambiguous`, `Future`).
- Run-time assertions about modelled state are proved, or the exact condition of their failure is. The
  exception is the one at the start of `preselectObjects`: the model goes on and says what is found
  with a tainted index too.
- CAM awareness entries also record when they were received, as MCM ones do in the original.
- `requires` clauses of methods say what callers provide: SUMO departs a vehicle under a fresh ID, the
  simulation kernel does not pass a scheduled event, tracking IDs are not 0xFFFFFFFF and time does not
  go backwards.

## Where the code falls short of the expected property

- **Stale reverse entries.** When an object's ID has expired and it is drawn another one, the reverse
  table keeps the old entry; giving that old ID to a second object then erases the first object's fresh
  mapping. So an ID can change within the retention period
  (`CpIdRuns.StaleEntryBreaksStability`). `CpIdRuns.CostIff` says exactly when, and
  `CpCycles.ObjectKeepsId` shows that it cannot happen to an object that is in every message while
  messages are less than the retention period apart.
- **No retention period.** With a retention period of zero two objects of one message can share an ID, and
  a history is stored under the ID of another object. `CpIdRuns.HistoriesOwnedIff`: histories belong to
  the right object in all runs exactly if the period is positive.
- **Type A objects without history.** They are only included when some type A object is newly detected
  or was included long enough ago. So after a pseudonym change, which drops all histories, type A objects
  that have been in sight for a while are left out of every message until one is newly detected
  (`CpSelection.WaitsUntilDetected`), however many messages that takes. Since ages are clamped to 2047 ms
  this can go on for ever exactly if messages are at most that far apart (`CpSelection.WaitsForEver`).
- **Index assertion.** The assertion at the end of `addObject` fails exactly if an object has been removed
  since the last refresh (`GlobalEnvironment.GlobalEnvironmentModel.AddObject`).
- **Wire trajectories.** Null points are dropped and headings outside half a turn are normalised, so
  re-encoding is the identity exactly without them (`Trajectories.RoundTripIff`).
- **Swapped interval bounds.** With the minimum interval configured above the maximum the clamp returns
  the maximum, so the least distance between messages is the smaller of the two
  (`CamRuns.GapBounds`, `McRuns.McGapBounds`).

## Model

| member | source | states |
|---|---|---|
| Fleet.StepSettles | src/traci/BasicNodeManager.cc:119-165 | After a step of any chain of policies the vehicles alive are the old ones plus departed minus arrived; each is managed exactly if it waits for no insertion and every region policy covers it; waiting vehicles keep their moment |
| Fleet.InsideMeans | src/traci/RegionsOfInterest.cc:43-52 | Being inside every region policy means: for each policy with regions, some region contains the position |
| Fleet.RegionsFilter | src/traci/RegionOfInterestVehiclePolicy.cc:43-113 | With region policies only, the incremental hand-overs give the direct filter: the table is the set of vehicles alive whose position some region of every policy with regions contains |
| Fleet.OneHolder | src/traci/ExtensibleNodeManager.cc:80-109 | Conservation: a vehicle alive is held by exactly one of the table, a policy's outside set or an insertion queue, any other by none |
| Fleet.Route | src/traci/ExtensibleNodeManager.cc:80-89 | A vehicle offered to the chain is managed only if every remaining policy lets it pass; otherwise the first that objects has it: a region policy that does not cover it parks it, a delay policy queues it for now plus exactly the delay drawn |
| Fleet.Eject | src/traci/ExtensibleNodeManager.cc:116-125 | An updated vehicle stays managed only if every region policy covers it, otherwise the first that does not takes it over |
| Fleet.RemoveRepresents | src/traci/ExtensibleNodeManager.cc:96-109 | Removing an arrived vehicle takes it from its one holder and changes no other place, with nothing deferred |
| Fleet.RemoveDeferred | src/traci/ExtensibleNodeManager.cc:96-109 | A removal asked for by a policy, for a vehicle no policy holds, is deferred and changes nothing else |
| Fleet.MoveRepresents | src/traci/RegionOfInterestVehiclePolicy.cc:98-113 | A policy that hands a vehicle to the rest of the chain and then forgets it moves it from one place to another |
| Fleet.EjectDeferred | src/traci/ExtensibleNodeManager.cc:65-72 | Taking over a managed vehicle keeps the one-place representation once deferred removals are carried out |
| Fleet.RecheckSettles | src/traci/RegionOfInterestVehiclePolicy.cc:98-113 | The re-check of all region policies, one after the other, loses no vehicle and settles all of them, however they are handed around |
| Fleet.ReleaseSettles | src/traci/InsertionDelayVehiclePolicy.cc:27-44 | A vehicle whose delay is over is settled wherever the rest of the chain puts it |
| Fleet.EarliestMeans | src/traci/InsertionDelayVehiclePolicy.cc:46-55 | The queue has a head exactly if it is not empty: an insertion time of the queue that is the least |
| FleetRuns.NextSettles | src/traci/BasicNodeManager.cc:119-126 | Steps, insertions and the passing of time all keep the fleet settled |
| FleetRuns.RunFilters | src/traci/RegionOfInterestVehiclePolicy.cc:43-113 | In every state of every run a vehicle alive is managed exactly if it waits for no insertion and, for every policy with regions, some region contains its position |
| FleetRuns.RunInsertsOnTime | src/traci/InsertionDelayVehiclePolicy.cc:27-70 | In every run a waiting vehicle that stays alive keeps its moment and is inserted exactly then |
| NodeManagers.RegionOfInterestVehiclePolicy.AddVehicle | src/traci/RegionOfInterestVehiclePolicy.cc:43-62 | Lets a vehicle pass exactly if there is no region or some region contains its position, otherwise parks it |
| NodeManagers.RegionOfInterestVehiclePolicy.UpdateVehicle | src/traci/RegionOfInterestVehiclePolicy.cc:64-85 | A managed vehicle that no region contains any more is parked and its removal from the table deferred |
| NodeManagers.RegionOfInterestVehiclePolicy.RemoveVehicle | src/traci/RegionOfInterestVehiclePolicy.cc:87-96 | Takes a vehicle out of the outside set and says whether it was there |
| NodeManagers.RegionOfInterestVehiclePolicy.Cover | src/traci/RegionsOfInterest.cc:43-52 | Regions are tried until one contains the position: covered exactly if some region does |
| NodeManagers.RegionOfInterestVehiclePolicy.HandOver | src/traci/RegionOfInterestVehiclePolicy.cc:105-108 | The vehicle goes where the rest of the chain puts it, every other stays, and the representation is kept |
| NodeManagers.RegionOfInterestVehiclePolicy.CheckRegionOfInterest | src/traci/RegionOfInterestVehiclePolicy.cc:98-113 | Hands over exactly the parked vehicles that some region contains now, though the set shrinks during the traversal; parked remain those that none contains |
| NodeManagers.InsertionDelayVehiclePolicy.ScheduleVehicleInsertion | src/traci/InsertionDelayVehiclePolicy.cc:46-55 | The event is scheduled exactly if the queue is not empty, at an insertion time of the queue that is the least; the run-time assertion holds |
| NodeManagers.InsertionDelayVehiclePolicy.AddVehicle | src/traci/InsertionDelayVehiclePolicy.cc:62-70 | Queues a new vehicle for now plus the delay drawn, leaves one already queued alone, and keeps the event at the head |
| NodeManagers.InsertionDelayVehiclePolicy.RemoveVehicle | src/traci/InsertionDelayVehiclePolicy.cc:82-93 | Takes a vehicle out of the queue and keeps the event at the head |
| NodeManagers.InsertionDelayVehiclePolicy.HandleMessage | src/traci/InsertionDelayVehiclePolicy.cc:27-44 | When the event fires a vehicle due at this very moment goes where the rest of the chain puts it; the run-time assertion holds |
| NodeManagers.ExtensibleNodeManager.AddVehicleFor | src/traci/ExtensibleNodeManager.cc:80-89 | Puts the vehicle at the place its route through the chain ends, and changes no other holder |
| NodeManagers.ExtensibleNodeManager.RemoveVehicleFor | src/traci/ExtensibleNodeManager.cc:96-109 | The first policy holding the vehicle lets go; if there is none it leaves the table, deferred if a policy asked |
| NodeManagers.ExtensibleNodeManager.UpdateVehicle | src/traci/ExtensibleNodeManager.cc:116-125 | The first region policy that does not cover the vehicle takes it over; the table does not change |
| NodeManagers.ExtensibleNodeManager.BasicAddVehicle | src/traci/BasicNodeManager.cc:167-184 | Enters the vehicle; a node module gets an index no other node has |
| NodeManagers.ExtensibleNodeManager.BasicRemoveVehicle | src/traci/BasicNodeManager.cc:186-191 | The vehicle and its node module are gone, all others stay |
| NodeManagers.ExtensibleNodeManager.TraverseVehicles | src/traci/BasicNodeManager.cc:160-164 | Updates every managed vehicle; no policy callback changes the table while it is traversed |
| NodeManagers.ExtensibleNodeManager.RemoveDeferredVehicles | src/traci/ExtensibleNodeManager.cc:68-71 | Carrying out the deferred removals restores the one-place representation |
| NodeManagers.ExtensibleNodeManager.ProcessVehicles | src/traci/BasicNodeManager.cc:135-165 | Departures, arrivals, teleports if configured, then updates, refine the specification's step |
| NodeManagers.ExtensibleNodeManager.EmitUpdate | src/traci/RegionOfInterestVehiclePolicy.cc:36-41 | The update signal makes every region policy re-check, in chain order |
| NodeManagers.ExtensibleNodeManager.TraciInit | src/traci/ExtensibleNodeManager.cc:55-63 | Vehicles already running are placed by the chain, and all is settled |
| NodeManagers.ExtensibleNodeManager.TraciStep | src/traci/BasicNodeManager.cc:119-126 | After each step the vehicles alive are the old ones plus departed, minus arrived and, if configured, teleported; the table holds exactly those in no insertion queue whose position some region of every policy with regions contains; a queued vehicle keeps its moment, a new one gets now plus the delay drawn; and everything that holds between events holds again |
| NodeManagers.ExtensibleNodeManager.TableFilters | src/traci/RegionOfInterestVehiclePolicy.cc:43-113 | Between events the table is that filter of the vehicles alive, over the queues and regions of the policies |
| NodeManagers.ExtensibleNodeManager.Refine | src/traci/BasicNodeManager.cc:119-165 | The callbacks of one step, update signal included, refine the step of the specification |
| NodeManagers.ExtensibleNodeManager.Advance | src/traci/InsertionDelayVehiclePolicy.cc:46-55 | While time passes no insertion becomes overdue |
| CpIds.ForwardInjective | src/artery/application/CpService.cc:737-751 | No two objects have the same ID, so the branch warning of an inconsistent mapping is dead |
| CpIds.RequestConsistent | src/artery/application/CpService.cc:732-802 | Every request keeps forward table and reverse table consistent and every history with its owner |
| CpIds.FailsIff | src/artery/application/CpService.cc:753-788 | A request fails exactly if the object has no entry in the forward table and all 65536 IDs are in hold-off, whatever the probes drew; one whose own mapping has expired never fails |
| CpIds.ReusedIff | src/artery/application/CpService.cc:734-788 | An object that has an ID is certain to get it again exactly if the ID was used less than the retention period ago or no other ID is free |
| CpIdRuns.RunSound | src/artery/application/CpService.cc:715-802 | In every reachable state the forward table agrees with the reverse table; with positive retention every history belongs to the object its ID is bound to |
| CpIdRuns.HistoriesOwnedIff | src/artery/application/CpService.cc:632-643 | Histories belong to the object their ID is bound to in all runs exactly if the retention period is positive |
| CpIdRuns.HoldOff | src/artery/application/CpService.cc:715-802 | In every run an ID is not given to another object before the retention period is over, and after a pseudonym change to nobody |
| CpIdRuns.DistinctInCycle | src/artery/application/CpService.cc:753-764 | With positive retention the IDs handed out at one time are pairwise distinct |
| CpIdRuns.FreshState | src/artery/application/CpService.cc:737-747 | As long as an object is asked for often enough it has the ID it was first given and has left no stale entry |
| CpIdRuns.StableId | src/artery/application/CpService.cc:737-751 | An object asked for within the retention period each time is answered the same ID |
| CpIdRuns.UnknownAfterReset | src/artery/application/CpService.cc:715-730 | At the start and after a pseudonym change no object has left a trace in the tables |
| CpIdRuns.CostIff | src/artery/application/CpService.cc:790-797 | A request for one object costs another its ID exactly if the first has no live mapping and a stale entry of the other sits at an available ID |
| CpIdRuns.StaleEntryBreaksStability | src/artery/application/CpService.cc:790-797 | A run in which an object asked for again within the retention period is given a different ID |
| CpCycles.ObjectKeepsId | src/artery/application/CpService.cc:392-438 | An object asked for in every message, with messages less than the retention period apart, keeps one ID from its first allocation to its last sight |
| CpSensorIds.SensorsMutual | src/artery/application/CpService.cc:804-863 | In every run the two sensor tables are full mutual inverses |
| CpSensorIds.SensorHoldOff | src/artery/application/CpService.cc:817-863 | In every run two sensors are given one ID only with the retention period in between, and after a reset nobody is given it before |
| CpSensorIds.SensorKeepsId | src/artery/application/CpService.cc:804-863 | In every run a sensor is answered the ID it was first given as long as every request, for whatever sensor, comes within the retention period after its last one and there is no reset |
| CpSensorIds.SensorFailsIff | src/artery/application/CpService.cc:804-863 | In every run a request for a sensor fails exactly if the sensor has no ID and all 256 are in hold-off; a sensor that has one is answered that one |
| CpSelection.ChosenExactly | src/artery/application/CpService.cc:542-626 | The selection is duplicate-free and holds exactly the objects the rules include, each rule written out: quality gate, type A all or none, new objects, newly detected ones, distance, speed, heading, time since the last inclusion |
| CpSelection.TypeBIncludedInTime | src/artery/application/CpService.cc:592-623 | After a message a type B object in sight above the quality gate was included less than the maximum interval ago |
| CpSelection.AllTypeBIncludedInTime | src/artery/application/CpService.cc:592-643 | The same for all type B objects of the message at once |
| CpSelection.TypeAIncludedInTime | src/artery/application/CpService.cc:515-540 | A type A object that has been included before was included less than half the maximum interval ago |
| CpSelection.TypeAWaits | src/artery/application/CpService.cc:515-590 | Over any run of messages, a type A object above the gate and in sight throughout is in none of them exactly if none has a type A object that is new or was included long enough ago |
| CpSelection.WaitsUntilDetected | src/artery/application/CpService.cc:515-590 | Once no type A object has a history, those above the gate are left out exactly until a type A object is newly detected |
| CpSelection.WaitsForEver | src/artery/application/CpService.cc:428-430 | For any number of messages there is a run in which a type A object above the gate waits throughout, exactly if messages are at most 2047 ms apart, the greatest age |
| CpSelection.IncludedAgain | src/artery/application/CpService.cc:501-648 | Over a run of messages at most d apart an object in sight is included again within the maximum interval plus d, a type A object with history within half of it plus d |
| CpSelection.AfterSent | src/artery/application/CpService.cc:632-643 | A message stamps the histories of what it carries and leaves the others alone |
| CpSelection.StillFrom | src/artery/application/CpService.cc:632-643 | As long as an object is not sent again its history stays that of the last message it was in |
| CpRules.CarriedAgainIff | src/artery/application/CpService.cc:592-623 | Over a run of messages a type B object is carried again exactly if it is above the gate and appeared since the last message, or has moved, changed its speed or turned by enough since the message that last carried it, or that is the maximum interval ago |
| CpRules.BoundedStaleness | src/artery/application/CpService.cc:592-643 | Over a run of messages, after each of them a type B object in sight above the gate that was carried once is carried by this message, or within the thresholds of position, speed and heading of what the last message that carried it says, which is younger than the maximum interval; and an object that appeared since the message before is carried |
| CpRules.ComparedWith | src/artery/application/CpService.cc:632-643 | A message compares an object with exactly what the last message that carried it said of it |
| CpRules.CallsIff | src/artery/application/CpService.cc:515-540 | Over a run of messages a type A object calls for all of them exactly if it appeared since the last message or the message that last carried it is half the maximum interval ago |
| CpOrder.RampRange | src/artery/application/CpService.cc:658-677 | A share is between zero and one, zero exactly up to the lower threshold, one exactly from the upper one on and linear in between |
| CpOrder.UtilityMonotone | src/artery/application/CpService.cc:650-680 | More change since the last inclusion never lowers the utility; the changes weigh at most four on top of the quality |
| CpOrder.UtilityCounts | src/artery/application/CpService.cc:650-680 | Distance in metres, speed, heading and seconds since the last inclusion each add one point from their own upper threshold on and none up to the lower one, on top of a fifteenth of the quality |
| CpOrder.MostChangedFirst | src/artery/application/CpService.cc:682-698 | In a sorted message objects without history come first, by falling quality; no other object is preceded by one of lower quality that has moved, sped up and turned no more and has not waited longer |
| CpOrder.BeforeIsStrictWeakOrder | src/artery/application/CpService.cc:687-697 | The comparison is a strict weak order, as sorting demands |
| CpOrder.SortedMeans | src/artery/application/CpService.cc:682-698 | Sorted means objects without history first, each part by falling utility |
| CpOrder.ScoredMeans | src/artery/application/CpService.cc:633-638 | Entering the utilities one by one scores exactly the selected objects, each from its own metrics |
| CpOrder.Sort | src/artery/application/CpService.cc:682-698 | The result is a permutation of the selection, sorted by the comparison |
| CpServices.CpService.AllocateCpmObjectId | src/artery/application/CpService.cc:732-802 | One request of a run: the tables change as the rules allow, the ID is the first draw that is free or the lowest free one, and histories are at most dropped |
| CpServices.CpService.RequestObjectId | src/artery/application/CpService.cc:734-801 | A live mapping is reused; otherwise the first of the draws that is free is bound, or the lowest free ID, or there is none |
| CpServices.CpService.FindObjectId | src/artery/application/CpService.cc:753-788 | Finds the first of 1024 draws that is free, otherwise the lowest free ID, and none exactly if no ID is free |
| CpServices.CpService.AllocateCpmSensorId | src/artery/application/CpService.cc:804-863 | One request of the sensor run: a mapped sensor keeps its ID, another gets the first draw that is free, the lowest free ID or none; the tables stay mutual inverses |
| CpServices.CpService.FindSensorId | src/artery/application/CpService.cc:830-851 | The same search over the sensor IDs |
| CpServices.CpService.HandlePseudonymChange | src/artery/application/CpService.cc:715-730 | Bindings, histories and snapshots are forgotten, when IDs were last used is not |
| CpServices.CpService.CapturePerceivedObjectSnapshot | src/artery/application/CpService.cc:373-486 | One request for each tracked object in order; those answered are captured and selected, with pairwise distinct IDs under positive retention |
| CpServices.AnsweredOne | src/artery/application/CpService.cc:432-470 | Each perceived object is a tracked one with the ID it was answered, and its position, age, quality, speed, heading and kind as they were reported |
| CpServices.AllAnswered | src/artery/application/CpService.cc:432-438 | Each tracked object that was given an ID is perceived |
| CpServices.CpService.CaptureSensorSnapshot | src/artery/application/CpService.cc:307-342 | One request of the sensor run for each sensor in order; with positive retention different sensors have different IDs |
| CpServices.CpService.CallForTypeA | src/artery/application/CpService.cc:515-540 | The early exits find out whether any type A object calls for all of them |
| CpServices.CpService.Evaluate | src/artery/application/CpService.cc:546-623 | The chain of early exits decides exactly the declarative rules, and leaves the metrics the utility is computed from |
| CpServices.CpService.CheckPerceivedObjectTrigger | src/artery/application/CpService.cc:501-648 | The selection is a sorted permutation of the included objects, their metrics are right and exactly they are stamped as included now |
| CpServices.CpService.SendCpm | src/artery/application/CpService.cc:231-275 | One message: if there was a station ID and it has changed a pseudonym change of both ID runs, then one request per sensor and one per tracked object, then the selection from the histories left by the last message, or from none after a pseudonym change |
| CpServices.MessageIsCycle | src/artery/application/CpService.cc:249-268 | The operations of one message are a cycle at one time in which every tracked object is asked for |
| CpServices.MessageSpan | src/artery/application/CpService.cc:249-268 | Each perceived object was given its ID by a request of its message, and the histories before and after the selection are those the tables know of |
| CpMessages.OneId | src/artery/application/CpService.cc:392-438 | A tracked object asked for in every message has one ID in all messages it is perceived in, without a pseudonym change and with messages less than the retention period apart |
| CpMessages.KeepsHistory | src/artery/application/CpService.cc:790-794 | As long as the object is kept fresh, a history stored under its ID is not lost |
| CpMessages.IncludedInTime | src/artery/application/CpService.cc:231-275 | ID stability and selection together: a tracked object once carried by a message and in sight since is carried again, under the same ID, within the maximum interval (type A: half of it) plus the distance of messages |
| CpServices.CpService.CheckTriggeringConditions | src/artery/application/CpService.cc:218-229 | A message is sent exactly if the minimum interval has elapsed, or under congestion control if the maximum interval has or both the minimum and the one asked for have; messages are at least the minimum interval and less than the longest time plus one tick apart |
| CamPolicies.CamGenerationPolicy.Update | src/artery/application/CamGenerationPolicy.h:63-95 | Each hold keeps its deadline until an update that is later than it and sees an idle channel, is entered only under its conditions with a deadline in the drawn range, and never ends and restarts in one update |
| CamPolicies.CamGenerationPolicy.PeriodicInterval | src/artery/application/CamGenerationPolicy.h:98-104 | Without an active reason the effective period is the configured one, with one it is a second |
| CamPolicies.HeldExactly | src/artery/application/CamGenerationPolicy.h:67-71 | Over any run a hold stays as it is exactly until an update that is later than its deadline and sees an idle channel |
| CamPolicies.EnteredOnce | src/artery/application/CamGenerationPolicy.h:76-94 | Every active hold was entered by one update, which drew its deadline, and has been active since |
| CamRuns.Clamp | src/artery/application/CaService.cc:293-294 | The congestion interval is kept within the bounds and unchanged if it already is |
| CamRuns.TickGood | src/artery/application/CaService.cc:188-222 | One tick keeps the bounds of interval, counter and time since the last message |
| CamRuns.RunGood | src/artery/application/CaService.cc:188-222 | In every reachable state T_GenCam is within its bounds and the last message is not too long ago |
| CamRuns.GapBounds | src/artery/application/CaService.cc:188-222 | Consecutive CAMs are at least the minimum interval and less than the longest time plus one tick apart, through any switching between dynamics and periodic rules |
| CamRuns.NeverSilent | src/artery/application/CaService.cc:194-221 | CAMs do not cease: a tick that finds the longest time passed generates one |
| CamRuns.CounterCounts | src/artery/application/CaService.cc:211-220 | The counter counts exactly the time-triggered CAMs since the last one caused by dynamics |
| CamRuns.BacksOff | src/artery/application/CaService.cc:211-220 | After a CAM caused by dynamics T_GenCam is the time that had elapsed until three time-triggered CAMs have followed, then the maximum |
| CamRuns.PeriodicRule | src/artery/application/CaService.cc:188-203 | Over every run, with a period a CAM is generated exactly once it and the gate have elapsed, and nothing else changes |
| CamRuns.DynamicsRule | src/artery/application/CaService.cc:204-222 | Over every run, without a period none is generated before the gate, and from then on exactly at a fixed rate, if the dynamics ask for it whatever the interval, or once the interval has elapsed; dynamics make the interval the elapsed time, capped, and the counter zero |
| CamRuns.ReactionTime | src/artery/application/CaService.cc:204-222 | Over every run, dynamics are reacted to at the first tick that sees them or less than the gate plus one tick after the last CAM |
| CaServices.CaService.Trigger | src/artery/application/CaService.cc:143-148 | One tick of a run: the policy is updated, then a CAM is generated exactly if the rules say so, and the log says whether one was |
| CaServices.CaService.CheckTriggeringConditions | src/artery/application/CaService.cc:188-222 | A CAM is generated exactly if the gate is open and the period has elapsed or, without one, the rate is fixed, the heading, position or speed has changed enough or the interval has elapsed; the state is the one after that cause |
| McRuns.McTickGood | src/artery/application/McService.cc:1234-1302 | One tick keeps the configured policy recoverable and the bounds of interval and time since the last message |
| McRuns.McRunGood | src/artery/application/McService.cc:1311-1404 | In every run, without a reduction the effective trigger is the configured one; with one the configured one is SameAsCam and the effective one PeriodicFixed1Hz |
| McRuns.McGapBounds | src/artery/application/McService.cc:1234-1302 | Consecutive MCMs of either kind are at least the minimum interval and less than the longest time plus one tick apart |
| McRuns.McNeverSilent | src/artery/application/McService.cc:1250-1302 | MCMs do not cease: a tick that finds the longest time passed generates one |
| McRuns.McCounterCounts | src/artery/application/McService.cc:1438-1449 | The counter counts exactly the MCMs of either kind caused by elapsed time alone since the last one caused by dynamics |
| McRuns.McBacksOff | src/artery/application/McService.cc:1438-1449 | After an MCM caused by dynamics the interval is the time that had elapsed until three MCMs of either kind have been caused by elapsed time alone, then the maximum, however the rate is reduced meanwhile |
| McRuns.OnlyMessagesCount | src/artery/application/McService.cc:1283-1299 | The backoff state and the time of the last MCM change only when an MCM is admitted |
| McRuns.PeriodicIntent | src/artery/application/McService.cc:1259-1281 | Over every run, with nothing pending and a periodic trigger in effect an MCM is generated exactly once 2 s, 1 s, 500 ms, 330 ms, 200 ms or the minimum interval and the gate have elapsed |
| McRuns.PeriodicRate | src/artery/application/McService.cc:1259-1281 | Over every run, while one periodic trigger is in effect and nothing is pending consecutive MCMs are at least its period and the gate apart, and less than the larger of the two plus one tick |
| McRuns.DynamicIntent | src/artery/application/McService.cc:1250-1302 | Over every run, with nothing pending and a CAM-like trigger in effect: no MCM before the gate; the first at once, then for dynamics once none, 500 ms or 1 s has elapsed, else once the interval has, with the backoff that follows |
| McRuns.SentBefore | src/artery/application/McService.cc:1278-1280 | Over every run, kinematics are compared with exactly if some MCM has been sent before |
| McRuns.CoordinationRule | src/artery/application/McService.cc:1406-1452 | Over every run, with something pending an MCM that is due by the coordination trigger is generated and the intent rate is not adapted |
| McRuns.NotDueIsIntent | src/artery/application/McService.cc:1234-1248 | Something pending that is not due changes nothing: the tick is the one without it |
| McRuns.CoordinationRate | src/artery/application/McService.cc:1406-1452 | Over every run, while something is pending under a fixed trigger consecutive MCMs are less than the larger of its interval and its gate plus one tick apart |
| McRuns.AdaptationRule | src/artery/application/McService.cc:1311-1404 | Over every run, under the adaptive rules a CAM-like rate is reduced to one per second exactly above the threshold and recovers exactly below it after the delay; otherwise the trigger is the configured one |
| McRuns.ReductionStep | src/artery/application/McService.cc:1311-1404 | The rate is reduced only above the threshold, recovers only below it after the delay drawn, and keeps start and delay meanwhile |
| McServices.McService.CheckTriggeringConditions | src/artery/application/McService.cc:1234-1248 | One tick of a run: coordination first, then adaptation and intent, with the clamped gate and the recovery delay in its range; the log says whether an MCM was generated |
| McServices.McService.ShouldGenerateCoordinationMcm | src/artery/application/McService.cc:1406-1452 | Admits exactly for a cause of the coordination rules and changes the backoff state only then |
| McServices.McService.ShouldGenerateIntentMcm | src/artery/application/McService.cc:1257-1301 | Admits exactly for a cause of the intent rules and changes the backoff state only then |
| McServices.McService.UpdateAdaptiveIntentFrequency | src/artery/application/McService.cc:1311-1404 | The two adaptation rules refine one threshold rule |
| Timers.ReconstructsNearest | src/artery/application/Timer.cc:38-53 | The result is the nearest value congruent to the timestamp, at every time; the run-time assertions on unsigned differences hold; the signed millisecond count undoes the wrap-around in the first epoch |
| Timers.ReconstructInverts | src/artery/application/Timer.cc:38-53 | Inverts truncation exactly within half an epoch of now |
| Timers.OffsetIff | src/artery/application/mcm/McmTiming.h:15-24 | A timestamp passes exactly if some time at most 32767 ms ago has it, and that time is the one the timer reconstructs |
| Timers.RejectedIff | src/artery/application/mcm/McmTiming.h:15-24 | A timestamp is rejected as malformed exactly if it is no 16-bit number, as ambiguous exactly half an epoch away, and as future exactly if some time at most 32767 ms ahead has it |
| Timers.Timer.TimesRoundTrip | src/artery/application/Timer.cc:24-36 | Converting to absolute microseconds and back cuts off the fraction of a microsecond; absolute times before the start become the start |
| Timers.Timer.ReceiversAgree | src/artery/application/McService.cc:534-548 | All receivers within 32767 ms take a message to be generated at the same simulated time, whenever they receive it |
| AwarenessMaps.AwarenessMap.UpdateAwareness | src/artery/application/LocalDynamicMapMCM.cc:15-42 | The message is entered exactly if its generation time plus lifetime is not past and at most two lifetimes ahead; the map stays the last accepted messages of the log, apart from expired ones |
| AwarenessMaps.AwarenessMap.DropExpired | src/artery/application/LocalDynamicMapMCM.cc:44-62 | The map is exactly the last accepted message of each station that has not expired; none outlives its reception by more than two lifetimes |
| AwarenessMaps.LastAcceptedIff | src/artery/application/LocalDynamicMap.cc:15-31 | The last accepted message of a station is the last in the log that had not expired when it came nor expires later than two lifetimes after |
| AwarenessMaps.AwarenessMap.TimelyAccepted | src/artery/application/LocalDynamicMap.cc:15-31 | A message that arrives within 32767 ms expires one lifetime after the absolute millisecond it was generated in, and is accepted exactly if it arrives by then |
| AwarenessMaps.AwarenessMap.GetMessage | src/artery/application/LocalDynamicMap.cc:59-67 | What is known of a station is its last accepted message |
| AwarenessMaps.AwarenessMap.CountsKnown | src/artery/application/LocalDynamicMap.cc:51-57 | After clean-up the count is the number of stations whose last accepted message satisfies the predicate |
| AwarenessMaps.ObservesLog | src/artery/application/CamMcmAwareness.h:17-28 | The answer is the one the whole log of receptions gives: some last accepted message has not expired and names a negotiation whose participants, the first and the second if there is one, are not ego |
| AwarenessMaps.ObservesCleaned | src/artery/application/CamMcmAwareness.h:17-28 | The answer is the same on the uncleaned and on the cleaned map |
| LocalEnvironment.DetectedMirrors | src/artery/envmod/LocalEnvironmentModel.cc:161-181 | A detection keeps tracking times those of the latest detections, first before last |
| LocalEnvironment.UpdatedExactly | src/artery/envmod/LocalEnvironmentModel.cc:81-94 | After an update an object is tracked exactly if it exists and some sensor's latest detection is valid, by exactly those sensors and under its old ID |
| LocalEnvironment.TrackedSince | src/artery/envmod/LocalEnvironmentModel.cc:68-181 | From the log of detections and clean-ups alone: a pair is tracked exactly if a detection began a tracking that no later clean-up ended; that detection is unique and is when the pair was first seen, and the latest detection is when it was last seen |
| LocalEnvironment.LocalEnvironmentModel.ComplementObjects | src/artery/envmod/LocalEnvironmentModel.cc:68-79 | Exactly the detected objects gain a detection by this sensor now; a pair tracked before keeps the time it was first seen, a new one is first seen now; tracked objects keep their ID, an object that was not tracked gets one never issued before, even if it had been tracked earlier |
| LocalEnvironment.NeverReused | src/artery/envmod/LocalEnvironmentModel.cc:68-94 | Over any run of detections and updates no tracking ID is used again once its object is dropped |
| LocalEnvironment.LocalEnvironmentModel.Update | src/artery/envmod/LocalEnvironmentModel.cc:81-94 | The traversal that erases as it goes leaves exactly the pairs whose object exists and whose latest detection is valid, with the times they were first and last seen |
| LocalEnvironment.LocalEnvironmentModel.Refresh | src/artery/envmod/LocalEnvironmentModel.cc:146-159 | Exactly the sensors whose detection is still valid remain, unchanged |
| Subscriptions.UnionElements | src/traci/BasicSubscriptionManager.cc:137-139 | The merge of two sorted ranges holds the elements of both |
| Subscriptions.UnionStrict | src/traci/BasicSubscriptionManager.cc:137-139 | and is strictly sorted |
| Subscriptions.EqualSizeSameUnion | src/traci/BasicSubscriptionManager.cc:140-142 | A union is never smaller, and of equal size exactly if it is the same, which justifies skipping the re-subscription |
| Subscriptions.BasicSubscriptionManager.SubscribeVehicle | src/traci/BasicSubscriptionManager.cc:113-119 | The vehicle is subscribed on the server with exactly the requested variables, if any |
| Subscriptions.BasicSubscriptionManager.UnsubscribeVehicle | src/traci/BasicSubscriptionManager.cc:121-128 | The vehicle is forgotten; the server is told only if it still exists there |
| Subscriptions.BasicSubscriptionManager.SubscribeVehicleVariables | src/traci/BasicSubscriptionManager.cc:135-147 | The variables are the sorted union of all requests and known to the server for every subscribed vehicle; a request that adds nothing is not sent; the run-time assertion holds |
| Subscriptions.BasicSubscriptionManager.SubscribeSimulationVariables | src/traci/BasicSubscriptionManager.cc:149-159 | The same for the simulation's own variables |
| Subscriptions.BasicSubscriptionManager.Step | src/traci/BasicSubscriptionManager.cc:161-181 | Maps the subscribed set S to (S minus arrived) plus departed; the server is told of exactly the departed ones; the caches of exactly those vehicles hold this step's results |
| GlobalEnvironment.GlobalEnvironmentModel.CountsAgree | src/artery/envmod/GlobalEnvironmentModel.cc:108-126 | There are as many entries as objects exactly if the index is not tainted |
| GlobalEnvironment.GlobalEnvironmentModel.AddObject | src/artery/envmod/GlobalEnvironmentModel.cc:108-126 | Adds the object and one entry unless the ID is taken; the run-time assertion holds exactly if the index is not tainted |
| GlobalEnvironment.GlobalEnvironmentModel.RemoveObject | src/artery/envmod/GlobalEnvironmentModel.cc:186-191 | Removes the object, keeps the entry, and the index is tainted exactly while it holds surplus entries |
| GlobalEnvironment.GlobalEnvironmentModel.RemoveObjects | src/artery/envmod/GlobalEnvironmentModel.cc:193-197 | Objects and index are empty, and the index is not tainted |
| GlobalEnvironment.GlobalEnvironmentModel.Refresh | src/artery/envmod/GlobalEnvironmentModel.cc:64-70 | Every object is updated and has exactly one entry, with its current box; there is no other entry |
| GlobalEnvironment.GlobalEnvironmentModel.BuildObjectIndex | src/artery/envmod/GlobalEnvironmentModel.cc:169-184 | Bulk loading establishes the index invariant from the objects alone |
| GlobalEnvironment.GlobalEnvironmentModel.PreselectObjects | src/artery/envmod/GlobalEnvironmentModel.cc:340-359 | Finds every visible object other than ego whose box the area intersects, once; nothing else on an index that is not tainted; an invalid area is rejected |
| Trajectories.NormalizeTrajectoryHeading | src/artery/application/McService.cc:585-594 | The two loops end with the normal form of the heading |
| Trajectories.NormalCongruent | src/artery/application/McService.cc:584-594 | The normal form is within half a turn, congruent to the heading modulo a full turn, and the heading itself exactly if that already is |
| Trajectories.ExtractTrajectory | src/artery/application/McService.cc:449-469 | Decodes point by point and skips null points |
| Trajectories.AppendTrajectoryPoints | src/artery/application/McService.cc:600-610 | Encodes point by point |
| Trajectories.EncodeDecoded | src/artery/application/McService.cc:600-610 | Re-encoding a decoded point only normalises its heading |
| Trajectories.RoundTripIff | src/artery/application/McService.cc:449-469 | Re-encoding a decoded wire trajectory is the identity exactly if it has no null point and all headings are within half a turn |
| Trajectories.DecodedClose | src/artery/application/McService.cc:600-610 | Decoding an encoded trajectory keeps its length and is within half a metre, half a tenth of a degree up to full turns, and five milliseconds |
| Trajectories.EncodedUnits | src/artery/application/McService.cc:600-610 | On the wire a point has whole metres, tenths of a degree within half a turn up to full turns, and hundredths of a second, each rounded to the nearest |
| Trajectories.DecodedUnits | src/artery/application/McService.cc:449-469 | A decoded point is exactly what the wire says, in metres, radians and time |
| Trajectories.DecodedParts | src/artery/application/McService.cc:449-469 | Decoding works part by part: a null point leaves the others as they are, wherever it stands |

## Left out

- The maneuver negotiation and execution state machine, planner and retransmission (`src/artery/application/mcm/`), apart from the timestamp check: whether a coordination command is pending is a parameter.
- ASN.1 building and validation, BTP and GeoNetworking, lower-layer congestion control and the transmit throttle: only clamps and gates.
- Simulations whose time base lies before absolute time zero, and absolute times beyond the range of signed 64-bit microseconds.
- Assertions that pointers to other modules are set and that SUMO and the simulation agree on the time.
- Persons in the node and subscription managers: mostly a copy of the vehicle path, except that `unsubscribePerson` inserts where the vehicle path erases (`src/traci/BasicSubscriptionManager.cc:91`), so the vehicle result does not hold for them.
- The end of a TraCI session (`traciClose`), node module creation beyond indices, sinks, and the signals other modules listen to.
- That a vehicle is eventually managed when two or more delay policies are in one chain: they hand it back and forth; it still has exactly one holder.
- The cap of 255 objects in one message: inclusion is selection here, as the histories are stamped before the cap.
- The last-age table of object IDs, which is written and never read, and which sensors contributed to a perceived object.
- The computation of ages, clamped positions and object types for a snapshot: they are parameters of a tracked object.
- Sensor information and perception region containers, and their triggers.
- Floating-point rounding, and the difference of headings and speeds in CAM and MCM dynamics checks: three flags say which threshold was exceeded.
- Names of trigger conditions and their parsing, logging, recorded statistics.
- Geometry of regions, obstacles and sensors, the obstacle index, and figures drawn on the canvas.
- Filters over tracked objects by sensor name or category, and wrap-around of the tracking counter.
- The order in which hash maps and R-trees are traversed: a traversal picks an arbitrary element next.
- GTU lifecycle controller, sampling, multi-channel dispatch, co-simulation client, launchers and the Python tools.
- PreselectObjects: with a tainted index it does not name the surplus objects that may be found, because the original stops there with an assertion.
