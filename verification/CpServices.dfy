/** The collective perception service: its ID tables, histories and selection, updated in
  * place. Every execution is a run in the sense of CpIdRuns. */
module CpServices {
  import opened Moments
  import opened CpIds
  import opened CpIdRuns
  import opened CpCycles
  import opened CpSensorIds
  import opened CpSelection
  import opened CpOrder
  import opened CpMessages
  import CamRuns

  const PROBES: nat := 1024

  /** A tracked object as the environment model reports it; the service adds the ID. */
  datatype Tracked = Tracked(
    lem: LemId, position: Point, ageMs: int, quality: int, speed: real, heading: real, kind: ObjectType)

  class CpService {
    const config: Config
    const priorities: Priorities
    const genCpmMin: Time
    const dccRestriction: bool
    const objectInclusionConfig: int
    const unusedObjectIdRetentionPeriod: Time
    const unusedSensorIdRetentionPeriod: Time

    var lem2Cps: map<LemId, nat>
    const cps2Lem: array<LemId>
    const objectIdLastUsed: array<Time>
    var histories: map<nat, History>

    var sensor2Cps: map<int, nat>
    const cps2Sensor: array<int>
    const sensorIdLastUsed: array<Time>

    var objects: seq<Perceived>
    var metrics: seq<Metrics>
    var selected: seq<nat>
    var stationId: Option<nat>
    var lastCpm: Time

    /** For whom each history was recorded, and the run so far. */
    ghost var historyOf: map<nat, LemId>
    ghost var ledgers: seq<Ledger>
    ghost var ops: seq<Op>

    /** The messages so far whose objects were selected by the rules, with what each perceived and
      * its operations. */
    ghost var contexts: seq<Context>
    ghost var perceived: seq<seq<Perceived>>
    ghost var spans: seq<Span>

    /** The run of the sensor tables so far. */
    ghost var sensorTables: seq<Sensors>
    ghost var sensorClocks: seq<Time>
    ghost var sensorOps: seq<SensorOp>

    /** The time of the last middleware tick. */
    ghost var lastTick: Time

    ghost function ObjectTable(): Table
      reads this`lem2Cps, this`historyOf, cps2Lem, objectIdLastUsed
    {
      Table(lem2Cps, cps2Lem[..], objectIdLastUsed[..], historyOf)
    }

    ghost function SensorTable(): Sensors
      reads this`sensor2Cps, cps2Sensor, sensorIdLastUsed
    {
      Sensors(sensor2Cps, cps2Sensor[..], sensorIdLastUsed[..])
    }

    ghost function Retention(): Time {
      WholeMilliseconds(unusedObjectIdRetentionPeriod)
    }

    ghost function Repr(): set<object> {
      {this, cps2Lem, objectIdLastUsed, cps2Sensor, sensorIdLastUsed}
    }

    ghost predicate Separate() {
      && cps2Lem.Length == objectIdLastUsed.Length == OBJECT_ID_SPACE
      && cps2Sensor.Length == sensorIdLastUsed.Length == SENSOR_ID_SPACE
      && (cps2Lem as object) !in {objectIdLastUsed, cps2Sensor, sensorIdLastUsed}
      && objectIdLastUsed != cps2Sensor && objectIdLastUsed != sensorIdLastUsed
      && cps2Sensor != sensorIdLastUsed
    }

    /** The tables are where the run of requests so far has brought them. */
    ghost predicate Traced()
      reads this`lem2Cps, this`historyOf, this`histories, this`ledgers, this`ops, cps2Lem, objectIdLastUsed
    {
      && Run(Retention(), ledgers, ops)
      && ledgers[|ops|].table == ObjectTable()
      && histories.Keys == historyOf.Keys
      && Sized(ObjectTable())
    }

    ghost predicate SensorsTraced()
      reads this`sensor2Cps, this`sensorTables, this`sensorClocks, this`sensorOps, cps2Sensor, sensorIdLastUsed
    {
      && SensorRun(WholeMilliseconds(unusedSensorIdRetentionPeriod), sensorTables, sensorClocks, sensorOps)
      && sensorTables[|sensorOps|] == SensorTable()
    }

    ghost function SensorClock(): Time
      requires |sensorClocks| == |sensorOps| + 1
      reads this`sensorClocks, this`sensorOps
    {
      sensorClocks[|sensorOps|]
    }

    ghost function Clock(): Time
      requires ledgers != []
      reads this`ledgers
    {
      ledgers[|ledgers| - 1].clock
    }

    ghost predicate Valid()
      reads this`lem2Cps, this`historyOf, this`histories, this`ledgers, this`ops, this`sensor2Cps,
            this`sensorTables, this`sensorClocks, this`sensorOps, this`objects, this`metrics,
            cps2Lem, objectIdLastUsed, cps2Sensor, sensorIdLastUsed
    {
      && Separate() && |ledgers| == |ops| + 1 && Traced() && |metrics| == |objects|
      && |sensorClocks| == |sensorOps| + 1 && SensorsTraced() && Mutual(SensorTable())
    }

    /** The messages are a run in the sense of CpSelection whose operations are part of the run of
      * the tables, and since the last one histories may only have been dropped. */
    ghost predicate Told()
      reads this`contexts, this`perceived, this`spans, this`ledgers, this`ops, this`histories, this`lastCpm
    {
      && Messages(config, contexts, perceived) && |perceived| == |contexts|
      && Log(ledgers, ops, spans, contexts, perceived)
      && (objectInclusionConfig == 0 ==> contexts == [])
      && (contexts != [] ==>
            var last := |contexts| - 1;
            lastCpm == contexts[last].now && Thinned(After(contexts[last], perceived[last]), histories))
    }

    /** A service that has not sent anything yet. */
    constructor (config: Config, priorities: Priorities, genCpmMin: Time, dccRestriction: bool,
                 objectInclusionConfig: int, objectRetention: Time, sensorRetention: Time, now: Time)
      requires now >= 0
      ensures Valid() && Clock() == now && ops == [] && stationId == None && lastCpm == now
      ensures objects == [] && selected == [] && histories == map[]
      ensures Told() && contexts == [] && perceived == [] && spans == [] && Paced() && lastTick == now
      ensures SensorClock() == now && sensorOps == []
      ensures fresh(Repr())
    {
      this.config, this.priorities, this.objectInclusionConfig := config, priorities, objectInclusionConfig;
      this.genCpmMin, this.dccRestriction, lastTick := genCpmMin, dccRestriction, now;
      unusedObjectIdRetentionPeriod, unusedSensorIdRetentionPeriod := objectRetention, sensorRetention;
      lem2Cps, histories, sensor2Cps := map[], map[], map[];
      cps2Lem := new LemId[OBJECT_ID_SPACE](_ => INVALID_LEM_ID);
      objectIdLastUsed := new Time[OBJECT_ID_SPACE](_ => NEVER_USED);
      cps2Sensor := new int[SENSOR_ID_SPACE](_ => INVALID_SENSOR_ID);
      sensorIdLastUsed := new Time[SENSOR_ID_SPACE](_ => NEVER_USED);
      objects, metrics, selected, stationId, lastCpm := [], [], [], None, now;
      historyOf, ops, contexts, perceived, spans := map[], [], [], [], [];
      ledgers := [Ledger(Initial(), now, map[])];
      sensorTables, sensorClocks, sensorOps := [NoSensors()], [now], [];
      new;
      assert ObjectTable() == Initial();
      assert SensorTable() == NoSensors();
    }

    /** The run goes on by one operation. */
    lemma Continue(op: Op, ledger: Ledger)
      requires Run(Retention(), ledgers, ops)
      requires Next(Retention(), ledgers[|ops|], op, ledger)
      ensures Run(Retention(), ledgers + [ledger], ops + [op])
    {
    }

    /** An ID for an object: its own if that is live, otherwise an available one, searched by
      * random probes first and then one after the other. */
    method AllocateCpmObjectId(now: Time, lem: LemId, draws: nat -> nat) returns (answer: Option<nat>)
      requires Valid() && Clock() <= now && lem != INVALID_LEM_ID
      requires forall k :: draws(k) < OBJECT_ID_SPACE
      modifies this`lem2Cps, this`histories, this`historyOf, this`ledgers, this`ops, cps2Lem, objectIdLastUsed
      ensures Valid() && Clock() == now
      ensures Allocated(old(ObjectTable()), Retention(), now, lem, answer, ObjectTable())
      ensures !old(Live(ObjectTable(), Retention(), now, lem)) ==>
                Searched(old(objectIdLastUsed[..]), Retention(), now, draws, answer)
      ensures ops == old(ops) + [Request(now, lem, answer)]
      ensures old(ledgers) <= ledgers && Thinned(old(histories), histories)
      ensures answer.Some? ==>
                lem in ledgers[|ops|].cycle && ledgers[|ops|].cycle[lem] == answer.value
      ensures var cycle := if now == old(Clock()) then old(ledgers[|ops|].cycle) else map[];
              ledgers[|ops|].cycle == if answer.Some? then cycle[lem := answer.value] else cycle
    {
      hide Searched, Free, Mutual, Allocated, Next, Live;
      ghost var before := ledgers[|ops|];
      answer := RequestObjectId(now, lem, draws);
      ghost var cycle := if now == before.clock then before.cycle else map[];
      ghost var after := Ledger(ObjectTable(), now, if answer.Some? then cycle[lem := answer.value] else cycle);
      Requested(Retention(), before, now, lem, answer, after);
      Continue(Request(now, lem, answer), after);
      ledgers := ledgers + [after];
      ops := ops + [Request(now, lem, answer)];
    }

    method RequestObjectId(now: Time, lem: LemId, draws: nat -> nat) returns (answer: Option<nat>)
      requires Separate() && Sized(ObjectTable()) && histories.Keys == historyOf.Keys
      requires forall k :: draws(k) < OBJECT_ID_SPACE
      modifies this`lem2Cps, this`histories, this`historyOf, cps2Lem, objectIdLastUsed
      ensures Allocated(old(ObjectTable()), Retention(), now, lem, answer, ObjectTable())
      ensures !old(Live(ObjectTable(), Retention(), now, lem)) ==>
                Searched(old(objectIdLastUsed[..]), Retention(), now, draws, answer)
      ensures histories.Keys == historyOf.Keys && Thinned(old(histories), histories)
    {
      var retention := WholeMilliseconds(unusedObjectIdRetentionPeriod);
      ghost var table := ObjectTable();
      if lem in lem2Cps {
        var cps := lem2Cps[lem];
        if cps2Lem[cps] == lem {
          var lastUsed := objectIdLastUsed[cps];
          if lastUsed == NEVER_USED || (now >= lastUsed && now - lastUsed < retention) {
            objectIdLastUsed[cps] := now;
            return Some(cps);
          }
        }
      }
      assert !Live(table, retention, now, lem);
      answer := FindObjectId(now, retention, draws);
      if answer.Some? {
        var chosen := answer.value;
        if cps2Lem[chosen] != INVALID_LEM_ID {
          lem2Cps := lem2Cps - {cps2Lem[chosen]};
          histories := histories - {chosen};
          historyOf := historyOf - {chosen};
        }
        lem2Cps := lem2Cps[lem := chosen];
        cps2Lem[chosen] := lem;
        objectIdLastUsed[chosen] := now;
      }
    }

    /** An available ID, or none if all are in hold-off. */
    method FindObjectId(now: Time, retention: Time, draws: nat -> nat) returns (found: Option<nat>)
      requires Separate() && forall k :: draws(k) < OBJECT_ID_SPACE
      ensures Searched(objectIdLastUsed[..], retention, now, draws, found)
    {
      for attempt := 0 to PROBES
        invariant forall k: nat :: k < attempt ==> !Free(objectIdLastUsed[..], retention, now, draws(k))
      {
        var candidate := draws(attempt);
        var lastUsed := objectIdLastUsed[candidate];
        if lastUsed == NEVER_USED || (now >= lastUsed && now - lastUsed >= retention) {
          return Some(candidate);
        }
      }
      for id := 0 to OBJECT_ID_SPACE
        invariant forall cps :: 0 <= cps < id ==> !Free(objectIdLastUsed[..], retention, now, cps)
      {
        var lastUsed := objectIdLastUsed[id];
        if lastUsed == NEVER_USED || (now >= lastUsed && now - lastUsed >= retention) {
          return Some(id);
        }
      }
      return None;
    }

    /** An ID for a sensor: its own if it has one, otherwise an available one, searched like those
      * of objects. */
    method AllocateCpmSensorId(now: Time, sensor: int, draws: nat -> nat) returns (answer: Option<nat>)
      requires Separate() && Mutual(SensorTable()) && sensor != INVALID_SENSOR_ID
      requires |sensorClocks| == |sensorOps| + 1 && SensorsTraced() && SensorClock() <= now
      requires forall k :: draws(k) < SENSOR_ID_SPACE
      modifies this`sensor2Cps, this`sensorTables, this`sensorClocks, this`sensorOps, cps2Sensor, sensorIdLastUsed
      ensures Mutual(SensorTable()) && |sensorClocks| == |sensorOps| + 1 && SensorsTraced() && SensorClock() == now
      ensures sensorOps == old(sensorOps) + [SensorRequest(now, sensor, answer)]
      ensures SensorAllocated(old(SensorTable()), WholeMilliseconds(unusedSensorIdRetentionPeriod), now,
                              sensor, answer, SensorTable())
      ensures sensor !in old(sensor2Cps) ==>
                Searched(old(sensorIdLastUsed[..]), WholeMilliseconds(unusedSensorIdRetentionPeriod), now, draws, answer)
    {
      hide SensorAllocated, Searched;
      answer := RequestSensorId(now, sensor, draws);
      ContinueSensors(SensorRequest(now, sensor, answer), now, SensorTable());
      sensorTables, sensorClocks := sensorTables + [SensorTable()], sensorClocks + [now];
      sensorOps := sensorOps + [SensorRequest(now, sensor, answer)];
    }

    /** The run of the sensor tables goes on by one operation. */
    lemma ContinueSensors(op: SensorOp, now: Time, table: Sensors)
      requires SensorRun(WholeMilliseconds(unusedSensorIdRetentionPeriod), sensorTables, sensorClocks, sensorOps)
      requires SensorNext(WholeMilliseconds(unusedSensorIdRetentionPeriod), sensorTables[|sensorOps|],
                          sensorClocks[|sensorOps|], op, table, now)
      ensures SensorRun(WholeMilliseconds(unusedSensorIdRetentionPeriod), sensorTables + [table],
                        sensorClocks + [now], sensorOps + [op])
    {
    }

    method RequestSensorId(now: Time, sensor: int, draws: nat -> nat) returns (answer: Option<nat>)
      requires Separate() && Mutual(SensorTable()) && sensor != INVALID_SENSOR_ID
      requires forall k :: draws(k) < SENSOR_ID_SPACE
      modifies this`sensor2Cps, cps2Sensor, sensorIdLastUsed
      ensures Mutual(SensorTable())
      ensures SensorAllocated(old(SensorTable()), WholeMilliseconds(unusedSensorIdRetentionPeriod), now,
                              sensor, answer, SensorTable())
      ensures sensor !in old(sensor2Cps) ==>
                Searched(old(sensorIdLastUsed[..]), WholeMilliseconds(unusedSensorIdRetentionPeriod), now, draws, answer)
    {
      if sensor in sensor2Cps {
        var cps := sensor2Cps[sensor];
        sensorIdLastUsed[cps] := now;
        return Some(cps);
      }
      var retention := WholeMilliseconds(unusedSensorIdRetentionPeriod);
      answer := FindSensorId(now, retention, draws);
      if answer.Some? {
        var chosen := answer.value;
        if cps2Sensor[chosen] != INVALID_SENSOR_ID {
          sensor2Cps := sensor2Cps - {cps2Sensor[chosen]};
        }
        sensor2Cps := sensor2Cps[sensor := chosen];
        cps2Sensor[chosen] := sensor;
        sensorIdLastUsed[chosen] := now;
      }
    }

    method FindSensorId(now: Time, retention: Time, draws: nat -> nat) returns (found: Option<nat>)
      requires Separate() && forall k :: draws(k) < SENSOR_ID_SPACE
      ensures Searched(sensorIdLastUsed[..], retention, now, draws, found)
    {
      for attempt := 0 to PROBES
        invariant forall k: nat :: k < attempt ==> !Free(sensorIdLastUsed[..], retention, now, draws(k))
      {
        var chosen := draws(attempt);
        var lastUsed := sensorIdLastUsed[chosen];
        if lastUsed == NEVER_USED || (now >= lastUsed && now - lastUsed >= retention) {
          return Some(chosen);
        }
      }
      for id := 0 to SENSOR_ID_SPACE
        invariant forall cps :: 0 <= cps < id ==> !Free(sensorIdLastUsed[..], retention, now, cps)
      {
        var lastUsed := sensorIdLastUsed[id];
        if lastUsed == NEVER_USED || (now >= lastUsed && now - lastUsed >= retention) {
          return Some(id);
        }
      }
      return None;
    }

    /** All state keyed by the old IDs is dropped; when IDs were last used is kept. */
    method HandlePseudonymChange(now: Time)
      requires Valid() && Clock() <= now && SensorClock() <= now
      modifies this`lem2Cps, this`histories, this`historyOf, this`objects, this`metrics, this`selected,
               this`sensor2Cps, this`ledgers, this`ops, this`sensorTables, this`sensorClocks, this`sensorOps,
               cps2Lem, cps2Sensor
      ensures Valid() && Clock() == now && SensorClock() == now
      ensures sensorOps == old(sensorOps) + [SensorReset(now)]
      ensures ObjectTable() == Reset(old(ObjectTable()))
      ensures SensorTable() == ResetSensors(old(SensorTable()))
      ensures histories == map[] && objects == [] && selected == []
      ensures ops == old(ops) + [PseudonymChange(now)] && old(ledgers) <= ledgers
    {
      ClearIds();
      ghost var after := Ledger(ObjectTable(), now, map[]);
      Continue(PseudonymChange(now), after);
      ledgers := ledgers + [after];
      ops := ops + [PseudonymChange(now)];
      ContinueSensors(SensorReset(now), now, SensorTable());
      sensorTables, sensorClocks := sensorTables + [SensorTable()], sensorClocks + [now];
      sensorOps := sensorOps + [SensorReset(now)];
    }

    method ClearIds()
      requires Separate() && Sized(ObjectTable())
      modifies this`lem2Cps, this`histories, this`historyOf, this`objects, this`metrics, this`selected,
               this`sensor2Cps, cps2Lem, cps2Sensor
      ensures ObjectTable() == Reset(old(ObjectTable()))
      ensures SensorTable() == ResetSensors(old(SensorTable()))
      ensures histories == map[] && objects == [] && metrics == [] && selected == []
    {
      lem2Cps := map[];
      forall k | 0 <= k < OBJECT_ID_SPACE {
        cps2Lem[k] := INVALID_LEM_ID;
      }
      histories, historyOf := map[], map[];
      objects, metrics, selected := [], [], [];
      sensor2Cps := map[];
      forall k | 0 <= k < SENSOR_ID_SPACE {
        cps2Sensor[k] := INVALID_SENSOR_ID;
      }
    }

    /** Every captured object was handed its ID at the current time. */
    ghost predicate Captured(now: Time)
      requires ledgers != []
      reads this`ledgers, this`objects
    {
      && Clock() == now
      && forall i :: 0 <= i < |objects| ==>
           var cycle := ledgers[|ledgers| - 1].cycle;
           objects[i].lem in cycle && cycle[objects[i].lem] == objects[i].cps
    }

    /** Captures the tracked objects that are given an ID, all of them selected for now. */
    method CapturePerceivedObjectSnapshot(now: Time, tracked: seq<Tracked>, draws: (LemId, nat) -> nat)
        returns (ghost answers: seq<Option<nat>>)
      requires Valid() && Clock() <= now
      requires forall i :: 0 <= i < |tracked| ==> tracked[i].lem != INVALID_LEM_ID
      requires forall i, j :: 0 <= i < j < |tracked| ==> tracked[i].lem != tracked[j].lem
      requires forall l, k :: draws(l, k) < OBJECT_ID_SPACE
      modifies this`lem2Cps, this`histories, this`historyOf, this`ledgers, this`ops, cps2Lem, objectIdLastUsed,
               this`objects, this`metrics, this`selected
      ensures Valid() && old(ledgers) <= ledgers && Thinned(old(histories), histories)
      ensures |answers| == |tracked| && ops == old(ops) + Requests(now, tracked, answers)
      ensures objects == Answered(tracked, answers)
      ensures selected == Indices(|objects|)
      ensures Clock() == if tracked == [] then old(Clock()) else now
      ensures objects != [] ==> Captured(now)
      ensures Retention() > 0 ==>
                forall i, j :: 0 <= i < j < |objects| ==> objects[i].cps != objects[j].cps
    {
      hide Traced, SensorsTraced, Mutual, Separate, Requests, Answered;
      objects, metrics, selected, answers := [], [], [], [];
      RequestsNone(now);
      for n := 0 to |tracked|
        invariant Valid() && old(ledgers) <= ledgers && Thinned(old(histories), histories)
        invariant if n == 0 then Clock() == old(Clock()) && objects == [] else Captured(now)
        invariant selected == Indices(|objects|)
        invariant |answers| == n && ops == old(ops) + Requests(now, tracked[..n], answers)
        invariant objects == Answered(tracked[..n], answers)
      {
        NotYetCaptured(tracked, n, answers, objects);
        var answer := CaptureObject(now, tracked[n], draws);
        RequestsOne(now, tracked, n, answers, answer);
        answers := answers + [answer];
      }
      assert tracked[..|tracked|] == tracked;
      AnsweredDistinct(tracked, answers, objects);
      if Retention() > 0 {
        CapturedDistinct(now);
      }
    }

    lemma CapturedDistinct(now: Time)
      requires Valid() && Retention() > 0 && (objects != [] ==> Captured(now))
      requires forall i, j :: 0 <= i < j < |objects| ==> objects[i].lem != objects[j].lem
      ensures forall i, j :: 0 <= i < j < |objects| ==> objects[i].cps != objects[j].cps
    {
      RunSound(Retention(), ledgers, ops, |ops|);
    }

    /** Captures an object if it is given an ID. */
    method CaptureObject(now: Time, t: Tracked, draws: (LemId, nat) -> nat) returns (answer: Option<nat>)
      requires Valid() && Clock() <= now && t.lem != INVALID_LEM_ID
      requires objects != [] ==> Captured(now)
      requires forall i :: 0 <= i < |objects| ==> objects[i].lem != t.lem
      requires selected == Indices(|objects|)
      requires forall l, k :: draws(l, k) < OBJECT_ID_SPACE
      modifies this`lem2Cps, this`histories, this`historyOf, this`ledgers, this`ops, cps2Lem, objectIdLastUsed,
               this`objects, this`metrics, this`selected
      ensures Valid() && old(ledgers) <= ledgers && Captured(now) && Thinned(old(histories), histories)
      ensures ops == old(ops) + [Request(now, t.lem, answer)]
      ensures objects == old(objects) + Entries(t, answer)
      ensures selected == Indices(|objects|)
    {
      hide Traced, SensorsTraced, Mutual, Separate, Allocated, ObjectTable, Live, Searched, Free;
      answer := AllocateCpmObjectId(now, t.lem, k => draws(t.lem, k));
      if answer.Some? {
        objects := objects + [WithId(t, answer.value)];
        metrics := metrics + [Metrics(false, 0.0, 0.0, 0.0, 0.0, 0.0)];
        selected := selected + [|objects| - 1];
      }
    }

    ghost function Here(now: Time): Context
      reads this`histories, this`lastCpm
    {
      Context(config, histories, now, lastCpm)
    }

    /** Whether some type A object calls for all type A objects. */
    method CallForTypeA(now: Time) returns (all: bool)
      requires selected == Indices(|objects|)
      ensures all <==> exists i :: 0 <= i < |objects| && CallsTypeA(Here(now), objects[i])
    {
      all := false;
      for n := 0 to |selected|
        invariant forall i :: 0 <= i < n ==> !CallsTypeA(Here(now), objects[i])
      {
        var po := objects[selected[n]];
        if po.kind != TypeA {
          continue;
        }
        if po.ageMs * MILLISECOND < now - lastCpm {
          return true;
        }
        if po.cps !in histories {
          continue;
        }
        if now - histories[po.cps].inclusion >= config.genCpmMax / 2 {
          return true;
        }
      }
    }

    /** Compares one object with its last inclusion and applies the rules to it. */
    method Evaluate(now: Time, i: nat, includeAllTypeA: bool) returns (wanted: bool)
      requires i < |objects| == |metrics|
      requires includeAllTypeA <==> exists j :: 0 <= j < |objects| && CallsTypeA(Here(now), objects[j])
      modifies this`metrics
      ensures wanted <==> Included(Here(now), objects, objects[i])
      ensures |metrics| == |objects|
      ensures forall k :: 0 <= k < |metrics| && k != i ==> metrics[k] == old(metrics)[k]
      ensures wanted ==> Measured(metrics[i], Here(now), priorities, objects[i])
    {
      var po := objects[i];
      metrics := metrics[i := Metrics(false, 0.0, 0.0, 0.0, 0.0, 0.0)];
      if po.quality as real <= config.qualityThreshold {
        return false;
      }
      if po.kind == Unknown {
        return false;
      }
      if po.cps in histories {
        var history := histories[po.cps];
        metrics := metrics[i := Metrics(
          true,
          config.distance(po.position, history.position) / 100.0,
          Abs(po.speed - history.speed),
          Abs(po.heading - history.heading),
          (now - history.inclusion) as real / SECOND as real,
          0.0)];
      }
      if po.kind == TypeA {
        return includeAllTypeA;
      }
      if metrics[i].haveHistory {
        if po.ageMs * MILLISECOND < now - lastCpm {
          return true;
        }
        if metrics[i].distanceM > config.minPositionChange {
          return true;
        }
        if metrics[i].speed > config.minSpeedChange {
          return true;
        }
        if metrics[i].heading >= config.minHeadingChange {
          return true;
        }
        if now - histories[po.cps].inclusion >= config.genCpmMax {
          return true;
        }
        return false;
      }
      return true;
    }

    /** Computes the utility of a selected object and records its inclusion. */
    method RecordInclusion(now: Time, i: nat)
      requires Valid() && i < |objects| && Captured(now)
      modifies this`metrics, this`histories, this`historyOf, this`ledgers, this`ops
      ensures ledgers != [] && Valid() && Captured(now) && Clock() == now && old(ledgers) <= ledgers
      ensures ops == old(ops) + [Store(objects[i].lem)]
      ensures metrics == Scored(old(metrics), objects, priorities, [i])
      ensures histories == old(histories)
                [objects[i].cps := History(now, objects[i].position, objects[i].speed, objects[i].heading)]
    {
      var po := objects[i];
      metrics := metrics[i := metrics[i].(utility := Utility(po.quality, metrics[i], priorities))];
      histories := histories[po.cps := History(now, po.position, po.speed, po.heading)];
      historyOf := historyOf[po.cps := po.lem];
      ghost var before := ledgers[|ops|];
      ghost var after := before.(table := ObjectTable());
      Continue(Store(po.lem), after);
      ledgers := ledgers + [after];
      ops := ops + [Store(po.lem)];
    }

    /** Selects the objects of this message by the rules, records them and sorts them. */
    method CheckPerceivedObjectTrigger(now: Time) returns (send: bool)
      requires Valid() && selected == Indices(|objects|)
      requires objects != [] ==> Captured(now)
      modifies this`metrics, this`selected, this`histories, this`historyOf, this`ledgers, this`ops
      ensures Valid() && old(ledgers) <= ledgers && Stores(old(ops), ops) && Clock() == old(Clock())
      ensures objectInclusionConfig == 0 ==>
                && (send <==> objects != [])
                && selected == old(selected) && histories == old(histories)
      ensures objectInclusionConfig != 0 ==>
                var chosen := Chosen(old(Here(now)), objects, |objects|);
                && (send <==> chosen != [])
                && multiset(selected) == multiset(chosen)
                && (forall k :: 0 <= k < |selected| ==> selected[k] < |metrics|)
                && Sorted(metrics, selected)
                && (forall i :: i in chosen ==>
                      i < |objects| && metrics[i] == MetricsOf(old(Here(now)), priorities, objects[i]))
                && histories == Recorded(old(histories), objects, chosen, now)
    {
      hide Chosen, Recorded, Included, MetricsOf, Utility, Traced, SensorsTraced, Mutual, Separate;
      if objectInclusionConfig == 0 {
        return |objects| != 0;
      }
      if |objects| == 0 {
        ChosenNone(Here(now), objects, histories);
        return false;
      }
      SelectObjects(now);
      if |selected| == 0 {
        ChosenNone(Here(now), objects, histories);
        return false;
      }
      RecordInclusions(now, Here(now));
      selected := Sort(metrics, selected);
      return true;
    }

    method SelectObjects(now: Time)
      requires |metrics| == |objects| && selected == Indices(|objects|)
      modifies this`metrics, this`selected
      ensures |metrics| == |objects|
      ensures selected == Chosen(Here(now), objects, |objects|)
      ensures forall i :: i in selected ==>
                i < |objects| && Measured(metrics[i], Here(now), priorities, objects[i])
    {
      hide Included, Measured, Chosen, CallsTypeA;
      ghost var c := Here(now);
      var includeAllTypeA := CallForTypeA(now);
      ChosenStep(c, objects, 0);
      var chosen: seq<nat> := [];
      for n := 0 to |selected|
        invariant |metrics| == |objects| && selected == Indices(|objects|)
        invariant chosen == Chosen(c, objects, n)
        invariant forall i :: i in chosen ==> i < n && Measured(metrics[i], c, priorities, objects[i])
      {
        var idx := selected[n];
        ChosenStep(c, objects, n + 1);
        var wanted := Evaluate(now, idx, includeAllTypeA);
        if wanted {
          chosen := chosen + [idx];
        }
      }
      selected := chosen;
    }

    method RecordInclusions(now: Time, ghost c: Context)
      requires Valid() && ledgers != [] && Captured(now) && Clock() == now && c == Here(now) && |metrics| == |objects|
      requires selected == Chosen(c, objects, |objects|)
      requires forall i :: i in selected ==> i < |objects| && Measured(metrics[i], c, priorities, objects[i])
      modifies this`metrics, this`histories, this`historyOf, this`ledgers, this`ops
      ensures Valid() && ledgers != [] && Clock() == now && old(ledgers) <= ledgers && Stores(old(ops), ops)
      ensures |metrics| == |objects|
      ensures forall i :: i in selected ==> metrics[i] == MetricsOf(c, priorities, objects[i])
      ensures histories == Recorded(old(histories), objects, selected, now)
    {
      hide Valid, MetricsOf, Measured, Included, Captured, Chosen, Recorded, Scored, Stores;
      StoresMore(ops, ops, []);
      RecordedNone(histories, objects, now);
      ScoredMeasured(metrics, objects, priorities, c, selected);
      ScoredNone(metrics, objects, priorities);
      for n := 0 to |selected|
        invariant ledgers != [] && Valid() && Captured(now) && Clock() == now
        invariant old(ledgers) <= ledgers && Stores(old(ops), ops)
        invariant histories == Recorded(old(histories), objects, selected[..n], now)
        invariant metrics == Scored(old(metrics), objects, priorities, selected[..n])
      {
        assert selected[..n + 1] == selected[..n] + [selected[n]];
        RecordedOne(old(histories), objects, selected[..n], selected[n], now);
        ScoredOne(old(metrics), objects, priorities, selected[..n], selected[n]);
        StoresMore(old(ops), ops, [Store(objects[selected[n]].lem)]);
        RecordInclusion(now, selected[n]);
      }
      assert selected[..|selected|] == selected;
    }

    /** IDs for the sensors in order, `None` where none was available. With a positive retention
      * period different sensors have different IDs. */
    method CaptureSensorSnapshot(now: Time, sensors: seq<int>, draws: (int, nat) -> nat)
        returns (ids: seq<Option<nat>>)
      requires Valid() && SensorClock() <= now && now >= 0
      requires forall i :: 0 <= i < |sensors| ==> sensors[i] != INVALID_SENSOR_ID
      requires forall s, k :: draws(s, k) < SENSOR_ID_SPACE
      modifies this`sensor2Cps, this`sensorTables, this`sensorClocks, this`sensorOps, cps2Sensor, sensorIdLastUsed
      ensures Valid() && SensorClock() == if sensors == [] then old(SensorClock()) else now
      ensures |ids| == |sensors| && sensorOps == old(sensorOps) + SensorRequests(now, sensors, ids)
      ensures unusedSensorIdRetentionPeriod >= MILLISECOND ==>
                && (forall i :: 0 <= i < |ids| && ids[i].Some? ==>
                      && sensors[i] in sensor2Cps && sensor2Cps[sensors[i]] == ids[i].value
                      && SensorTable().lastUsed[ids[i].value] == now)
                && (forall i, j :: 0 <= i < j < |ids| && sensors[i] != sensors[j] && ids[i].Some? ==>
                      ids[i] != ids[j])
    {
      hide Mutual, SensorAllocated, FreshIn, Traced, SensorsTraced, Searched;
      ghost var retention := WholeMilliseconds(unusedSensorIdRetentionPeriod);
      ghost var tables := [SensorTable()];
      ids := [];
      for n := 0 to |sensors|
        invariant Valid() && SensorClock() == if n == 0 then old(SensorClock()) else now
        invariant |ids| == n && |tables| == n + 1
        invariant sensorOps == old(sensorOps) + SensorRequests(now, sensors[..n], ids)
        invariant tables[n] == SensorTable()
        invariant forall i :: 0 <= i < n ==> SensorStep(tables[i], retention, now, sensors[i], ids[i], tables[i + 1])
      {
        var id := AllocateCpmSensorId(now, sensors[n], k => draws(sensors[n], k));
        ids, tables := ids + [id], tables + [SensorTable()];
        assert SensorStep(tables[n], retention, now, sensors[n], id, tables[n + 1]);
        assert SensorRequests(now, sensors[..n + 1], ids)
            == SensorRequests(now, sensors[..n], ids[..n]) + [SensorRequest(now, sensors[n], id)];
      }
      assert sensors[..|sensors|] == sensors;
      if retention > 0 {
        forall i | 0 <= i < |ids| && ids[i].Some?
          ensures FreshIn(SensorTable(), now, sensors[i], ids[i].value)
        {
          StaysFresh(tables, retention, now, sensors, ids, i, |sensors|);
        }
        FreshMeans(SensorTable(), now, sensors, ids);
      }
    }

    /** The pseudonym may have changed since the last message. */
    method ReactToStation(now: Time, station: nat)
      requires Valid() && Clock() <= now && SensorClock() <= now
      modifies this`lem2Cps, this`histories, this`historyOf, this`objects, this`metrics, this`selected,
               this`sensor2Cps, this`ledgers, this`ops, this`sensorTables, this`sensorClocks, this`sensorOps,
               this`stationId, cps2Lem, cps2Sensor
      ensures Valid() && Clock() <= now && SensorClock() <= now && stationId == Some(station)
      ensures old(ledgers) <= ledgers
      ensures if old(stationId).Some? && old(stationId).value != station
              then && ObjectTable() == Reset(old(ObjectTable())) && SensorTable() == ResetSensors(old(SensorTable()))
                   && histories == map[]
                   && ops == old(ops) + [PseudonymChange(now)] && sensorOps == old(sensorOps) + [SensorReset(now)]
              else && ObjectTable() == old(ObjectTable()) && SensorTable() == old(SensorTable())
                   && histories == old(histories) && ops == old(ops) && sensorOps == old(sensorOps)
    {
      hide Mutual, SensorsTraced, Run;
      if stationId.None? {
        stationId := Some(station);
      } else if stationId.value != station {
        HandlePseudonymChange(now);
        stationId := Some(station);
      }
    }

    /** What the selection of this message has to do with the histories it started from. */
    ghost predicate SelectedBy(c: Context, withObjects: bool)
      reads this`objects, this`histories, this`selected, this`metrics
    {
      var chosen := Chosen(c, objects, |objects|);
      && histories == After(c, objects)
      && (withObjects <==> chosen != [])
      && multiset(selected) == multiset(chosen)
      && (forall k :: 0 <= k < |selected| ==> selected[k] < |metrics|)
      && Sorted(metrics, selected)
      && (config.genCpmMax > 0 ==> RecentlyIncluded(config, objects, histories, c.now))
    }

    /** The last part of a message: what has been captured is selected, and the message is due. */
    method Conclude(now: Time) returns (withObjects: bool)
      requires Valid() && selected == Indices(|objects|)
      requires objects != [] ==> Captured(now)
      modifies this`metrics, this`selected, this`histories, this`historyOf, this`ledgers, this`ops, this`lastCpm
      ensures Valid() && Clock() == old(Clock()) && lastCpm == now
      ensures old(ledgers) <= ledgers && Stores(old(ops), ops)
      ensures objectInclusionConfig == 0 ==> (withObjects <==> objects != []) && selected == old(selected)
      ensures objectInclusionConfig != 0 ==> SelectedBy(old(Here(now)), withObjects)
    {
      hide Valid, SelectedBy, After, Captured, Stores, Chosen, MetricsOf, Recorded, Sorted;
      ghost var c := Here(now);
      withObjects := CheckPerceivedObjectTrigger(now);
      lastCpm := now;
      if objectInclusionConfig != 0 {
        SelectedByRules(c, withObjects);
      }
    }

    /** The runs go on by one message: of the operations, those after `before` are its own. */
    ghost method Tell(c: Context, states: seq<Ledger>, ops0: seq<Op>, before: seq<Op>, tracked: seq<Tracked>,
                      answers: seq<Option<nat>>, withObjects: bool)
      requires Valid() && Messages(config, contexts, perceived) && Log(states, ops0, spans, contexts, perceived)
      requires states <= ledgers && ops0 <= before && |tracked| == |answers|
      requires Stores(before + Requests(c.now, tracked, answers), ops) && objects == Answered(tracked, answers)
      requires objectInclusionConfig == 0 ==> contexts == []
      requires contexts != [] ==> Follows(contexts[|contexts| - 1], perceived[|contexts| - 1], c)
      requires c.config == config && c.now == lastCpm
      requires |before| + |tracked| < |ledgers|
      requires ledgers[|before| + |tracked|].table.historyOf.Keys == c.histories.Keys
      requires objectInclusionConfig != 0 ==> SelectedBy(c, withObjects)
      modifies this`contexts, this`perceived, this`spans
      ensures Told()
      ensures objectInclusionConfig == 0 ==> contexts == old(contexts)
      ensures objectInclusionConfig != 0 ==>
                && contexts == old(contexts) + [c] && perceived == old(perceived) + [objects]
                && spans == old(spans) + [Span(|before|, |before| + |tracked|, |ops|)]
    {
      hide After, Follows, Log, Mutual, SensorsTraced, Separate, Requests, Answered, Stores, Run, RecentlyIncluded,
           Sorted, Chosen;
      StoresPrefix(before, Requests(c.now, tracked, answers), ops);
      LogGoesOn(states, ops0, ledgers, ops, spans, contexts, perceived);
      if objectInclusionConfig != 0 {
        MessageSpan(ledgers, before, tracked, answers, ops, c, objects);
        NextMessage(config, contexts, perceived, c, objects);
        NextSpan(ledgers, ops, spans, contexts, perceived, Span(|before|, |before| + |tracked|, |ops|), c, objects);
        contexts, perceived := contexts + [c], perceived + [objects];
        spans := spans + [Span(|before|, |before| + |tracked|, |ops|)];
      }
    }

    /** What has been captured is selected, and the runs go on. */
    method Finish(now: Time, ghost states: seq<Ledger>, ghost ops0: seq<Op>, ghost before: seq<Op>,
                  ghost tracked: seq<Tracked>, ghost answers: seq<Option<nat>>) returns (withObjects: bool)
      requires Valid() && selected == Indices(|objects|)
      requires objects != [] ==> Captured(now)
      requires Messages(config, contexts, perceived) && Log(states, ops0, spans, contexts, perceived)
      requires states <= ledgers && ops0 <= before && |tracked| == |answers|
      requires ops == before + Requests(now, tracked, answers) && objects == Answered(tracked, answers)
      requires objectInclusionConfig == 0 ==> contexts == []
      requires contexts != [] ==> Follows(contexts[|contexts| - 1], perceived[|contexts| - 1], Here(now))
      modifies this`metrics, this`selected, this`histories, this`historyOf, this`ledgers, this`ops, this`lastCpm,
               this`contexts, this`perceived, this`spans
      ensures Valid() && Told() && Clock() == old(Clock()) && lastCpm == now
      ensures old(ledgers) <= ledgers && Stores(old(ops), ops)
      ensures objectInclusionConfig == 0 ==> (withObjects <==> objects != []) && selected == old(selected)
      ensures objectInclusionConfig != 0 ==>
                && SelectedBy(old(Here(now)), withObjects)
                && contexts == old(contexts) + [old(Here(now))] && perceived == old(perceived) + [objects]
                && spans == old(spans) + [Span(|before|, |before| + |tracked|, |ops|)]
    {
      hide Valid, Messages, Log, Follows, Captured, Requests, Answered, SelectedBy, Stores, After, Indices;
      ghost var c := Here(now);
      RequestsLength(now, tracked, answers);
      HistoriesTraced();
      withObjects := Conclude(now);
      Tell(c, states, ops0, before, tracked, answers, withObjects);
    }

    lemma SelectedByRules(c: Context, withObjects: bool)
      requires c.config == config
      requires var chosen := Chosen(c, objects, |objects|);
               && histories == Recorded(c.histories, objects, chosen, c.now)
               && (withObjects <==> chosen != [])
               && multiset(selected) == multiset(chosen)
               && (forall k :: 0 <= k < |selected| ==> selected[k] < |metrics|)
               && Sorted(metrics, selected)
      ensures SelectedBy(c, withObjects) && histories == After(c, objects)
    {
      hide Chosen, Recorded, Sorted, RecentlyIncluded;
      if config.genCpmMax > 0 {
        AllTypeBIncludedInTime(c, objects);
      }
    }

    /** The first part of a message: react to a new pseudonym, hand out IDs. */
    method Prepare(now: Time, station: nat, sensors: seq<int>, tracked: seq<Tracked>,
                   sensorDraws: (int, nat) -> nat, objectDraws: (LemId, nat) -> nat)
        returns (ids: seq<Option<nat>>, ghost answers: seq<Option<nat>>)
      requires Valid() && Clock() <= now && SensorClock() <= now && now >= 0
      requires forall i :: 0 <= i < |sensors| ==> sensors[i] != INVALID_SENSOR_ID
      requires forall i :: 0 <= i < |tracked| ==> tracked[i].lem != INVALID_LEM_ID
      requires forall i, j :: 0 <= i < j < |tracked| ==> tracked[i].lem != tracked[j].lem
      requires forall s, k :: sensorDraws(s, k) < SENSOR_ID_SPACE
      requires forall l, k :: objectDraws(l, k) < OBJECT_ID_SPACE
      modifies this`lem2Cps, this`histories, this`historyOf, this`ledgers, this`ops, cps2Lem, objectIdLastUsed,
               this`objects, this`metrics, this`selected, this`stationId, this`sensor2Cps,
               this`sensorTables, this`sensorClocks, this`sensorOps, cps2Sensor, sensorIdLastUsed
      ensures Valid() && Clock() <= now && SensorClock() <= now && stationId == Some(station)
      ensures |ids| == |sensors| && |answers| == |tracked|
      ensures var changed := old(stationId).Some? && old(stationId).value != station;
              && ops == old(ops) + (if changed then [PseudonymChange(now)] else []) + Requests(now, tracked, answers)
              && sensorOps == old(sensorOps) + (if changed then [SensorReset(now)] else [])
                              + SensorRequests(now, sensors, ids)
              && Thinned(if changed then map[] else old(histories), histories)
      ensures old(ledgers) <= ledgers
      ensures objects == Answered(tracked, answers) && selected == Indices(|objects|)
      ensures objects != [] ==> Captured(now)
      ensures Retention() > 0 ==>
                forall i, j :: 0 <= i < j < |objects| ==> objects[i].cps != objects[j].cps
    {
      hide Traced, SensorsTraced, Mutual, Captured, Requests, Answered, ObjectTable, SensorTable, SensorStep, FreshIn,
           SensorRequests, Indices, SensorAllocated;
      ReactToStation(now, station);
      ids := CaptureSensorSnapshot(now, sensors, sensorDraws);
      answers := CapturePerceivedObjectSnapshot(now, tracked, objectDraws);
    }

    lemma HistoriesTraced()
      requires Valid()
      ensures |ledgers| == |ops| + 1 && ledgers[|ops|].table.historyOf.Keys == histories.Keys
    {
    }

    /** One message. Its operations are one cycle; its selection goes on from where the last message
      * left the histories, or from none after a pseudonym change. */
    method SendCpm(now: Time, station: nat, sensors: seq<int>, tracked: seq<Tracked>,
                   sensorDraws: (int, nat) -> nat, objectDraws: (LemId, nat) -> nat)
        returns (withObjects: bool, ids: seq<Option<nat>>, ghost answers: seq<Option<nat>>)
      requires Valid() && Told() && Clock() <= now && SensorClock() <= now && lastCpm <= now && now >= 0
      requires forall i :: 0 <= i < |sensors| ==> sensors[i] != INVALID_SENSOR_ID
      requires forall i :: 0 <= i < |tracked| ==> tracked[i].lem != INVALID_LEM_ID
      requires forall i, j :: 0 <= i < j < |tracked| ==> tracked[i].lem != tracked[j].lem
      requires forall s, k :: sensorDraws(s, k) < SENSOR_ID_SPACE
      requires forall l, k :: objectDraws(l, k) < OBJECT_ID_SPACE
      modifies Repr()
      ensures Valid() && Told() && Clock() <= now && SensorClock() <= now
      ensures lastCpm == now && stationId == Some(station)
      ensures old(ledgers) <= ledgers && |answers| == |tracked| && |ids| == |sensors|
      ensures var changed := old(stationId).Some? && old(stationId).value != station;
              && Stores(old(ops) + (if changed then [PseudonymChange(now)] else [])
                        + Requests(now, tracked, answers), ops)
              && sensorOps == old(sensorOps) + (if changed then [SensorReset(now)] else [])
                              + SensorRequests(now, sensors, ids)
      ensures objects == Answered(tracked, answers)
      ensures Retention() > 0 ==>
                forall i, j :: 0 <= i < j < |objects| ==> objects[i].cps != objects[j].cps
      ensures objectInclusionConfig == 0 ==> (withObjects <==> objects != []) && selected == Indices(|objects|)
      ensures objectInclusionConfig != 0 ==>
                && old(contexts) <= contexts && |contexts| == |old(contexts)| + 1
                && perceived == old(perceived) + [objects]
                && var changed := old(stationId).Some? && old(stationId).value != station;
                   var start := |old(ops)| + if changed then 1 else 0;
                   var c := contexts[|old(contexts)|];
                   && spans == old(spans) + [Span(start, start + |tracked|, |ops|)]
                   && c == Context(config, c.histories, now, old(lastCpm))
                   && Thinned(if changed then map[] else old(histories), c.histories)
                   && SelectedBy(c, withObjects)
    {
      hide Valid, Messages, Log, Captured, Requests, Answered, SelectedBy, Stores, SensorRequests, After, Indices,
           Thinned, Follows;
      if contexts != [] {
        GoesOn(contexts[|contexts| - 1], perceived[|contexts| - 1], histories);
      }
      ghost var states, ops0 := ledgers, ops;
      ghost var changed := stationId.Some? && stationId.value != station;
      ghost var before := ops + (if changed then [PseudonymChange(now)] else []);
      ids, answers := Prepare(now, station, sensors, tracked, sensorDraws, objectDraws);
      withObjects := Finish(now, states, ops0, before, tracked, answers);
    }

    /** The longest time a tick lets pass without a message. */
    function Longest(): Time {
      CamRuns.Max(genCpmMin, config.genCpmMax)
    }

    /** The last tick came soon enough after the last message. */
    ghost predicate Paced()
      reads this`lastTick, this`lastCpm
    {
      lastTick == lastCpm || lastCpm < lastTick < lastCpm + Longest()
    }

    /** The minimum interval, or what congestion control asks for, clamped. */
    function Gate(dcc: Time): Time {
      if dccRestriction then CamRuns.Clamp(CamRuns.Limits(genCpmMin, config.genCpmMax, false), dcc) else genCpmMin
    }

    /** One middleware tick, at most `d` after the last one: a message is due once the gate is open.
      * Messages are at least the minimum interval and less than the longest time plus `d` apart. */
    method CheckTriggeringConditions(now: Time, ghost d: Time, dcc: Time, station: nat, sensors: seq<int>,
                                     tracked: seq<Tracked>, sensorDraws: (int, nat) -> nat,
                                     objectDraws: (LemId, nat) -> nat)
        returns (sent: bool, ghost ids: seq<Option<nat>>, ghost answers: seq<Option<nat>>)
      requires Valid() && Told() && Paced() && Clock() <= now && SensorClock() <= now && now >= 0
      requires lastTick < now <= lastTick + d
      requires forall i :: 0 <= i < |sensors| ==> sensors[i] != INVALID_SENSOR_ID
      requires forall i :: 0 <= i < |tracked| ==> tracked[i].lem != INVALID_LEM_ID
      requires forall i, j :: 0 <= i < j < |tracked| ==> tracked[i].lem != tracked[j].lem
      requires forall s, k :: sensorDraws(s, k) < SENSOR_ID_SPACE
      requires forall l, k :: objectDraws(l, k) < OBJECT_ID_SPACE
      modifies Repr()
      ensures Valid() && Told() && Paced() && Clock() <= now && SensorClock() <= now && lastTick == now
      ensures !dccRestriction ==> (sent <==> now - old(lastCpm) >= genCpmMin)
      ensures dccRestriction ==>
                (sent <==> now - old(lastCpm) >= config.genCpmMax
                           || (now - old(lastCpm) >= genCpmMin && now - old(lastCpm) >= dcc))
      ensures sent ==>
                && CamRuns.Min(genCpmMin, config.genCpmMax) <= now - old(lastCpm)
                && (Longest() > 0 ==> now - old(lastCpm) < Longest() + d)
                && lastCpm == now
                && |answers| == |tracked| && objects == Answered(tracked, answers) && |ids| == |sensors|
                && var changed := old(stationId).Some? && old(stationId).value != station;
                   && Stores(old(ops) + (if changed then [PseudonymChange(now)] else [])
                             + Requests(now, tracked, answers), ops)
                   && sensorOps == old(sensorOps) + (if changed then [SensorReset(now)] else [])
                                   + SensorRequests(now, sensors, ids)
      ensures !sent ==>
                && lastCpm == old(lastCpm) && ops == old(ops) && sensorOps == old(sensorOps)
                && histories == old(histories) && stationId == old(stationId)
                && ObjectTable() == old(ObjectTable()) && SensorTable() == old(SensorTable())
    {
      hide Valid, Told, ObjectTable, SensorTable, Answered, Requests, Stores, SelectedBy, Captured;
      sent, ids, answers := now - lastCpm >= Gate(dcc), [], [];
      if sent {
        var withObjects;
        withObjects, ids, answers := SendCpm(now, station, sensors, tracked, sensorDraws, objectDraws);
      }
      lastTick := now;
    }
  }

  /** Only inclusion histories have been stored since. */
  ghost predicate Stores(before: seq<Op>, after: seq<Op>) {
    before <= after && forall k :: |before| <= k < |after| ==> after[k].Store?
  }

  lemma StoresMore(before: seq<Op>, ops: seq<Op>, more: seq<Op>)
    requires ops == before || Stores(before, ops)
    requires forall k :: 0 <= k < |more| ==> more[k].Store?
    ensures Stores(before, ops + more)
    ensures ops + [] == ops
  {
  }

  lemma StoresPrefix(before: seq<Op>, requests: seq<Op>, ops: seq<Op>)
    requires Stores(before + requests, ops)
    ensures before <= ops && |before| + |requests| <= |ops|
  {
    assert before <= before + requests;
  }

  lemma RequestsLength(now: Time, tracked: seq<Tracked>, answers: seq<Option<nat>>)
    requires |tracked| == |answers|
    ensures |Requests(now, tracked, answers)| == |tracked|
  {
  }

  lemma GoesOn(last: Context, objects: seq<Perceived>, histories: map<nat, History>)
    requires Thinned(After(last, objects), histories)
    ensures forall next: Context :: Thinned(histories, next.histories) || Thinned(map[], next.histories) ==>
              next.lastCpm == last.now <= next.now ==> Follows(last, objects, next)
  {
    hide After;
  }

  lemma Requested(retention: Time, before: Ledger, now: Time, lem: LemId, answer: Option<nat>, after: Ledger)
    requires Sized(before.table) && before.clock <= now == after.clock && lem != INVALID_LEM_ID
    requires Allocated(before.table, retention, now, lem, answer, after.table)
    requires var cycle := if now == before.clock then before.cycle else map[];
             after.cycle == if answer.Some? then cycle[lem := answer.value] else cycle
    ensures Next(retention, before, Request(now, lem, answer), after) && Sized(after.table)
  {
  }

  /** The operations of one message are its span. */
  lemma {:induction false} MessageSpan(states: seq<Ledger>, before: seq<Op>, tracked: seq<Tracked>,
                                       answers: seq<Option<nat>>, ops: seq<Op>, c: Context, objects: seq<Perceived>)
    requires |tracked| == |answers| && |states| == |ops| + 1
    requires Stores(before + Requests(c.now, tracked, answers), ops) && objects == Answered(tracked, answers)
    requires |before| + |tracked| <= |ops|
    requires states[|before| + |tracked|].table.historyOf.Keys == c.histories.Keys
    requires states[|ops|].table.historyOf.Keys == After(c, objects).Keys
    ensures Spans(states, ops, Span(|before|, |before| + |tracked|, |ops|), c, objects)
  {
    hide After, Cycle;
    MessageIsCycle(before, c.now, tracked, answers, ops);
    forall i | 0 <= i < |objects| ensures Given(ops, |before|, |ops|, objects[i].lem, objects[i].cps) {
      AnsweredOne(tracked, answers, objects, i);
      var k :| 0 <= k < |tracked| && AnswerOf(tracked[k], answers[k], objects[i]);
      var requests := Requests(c.now, tracked, answers);
      assert ops[|before| + k] == (before + requests)[|before| + k] == requests[k];
    }
  }

  /** Each perceived object is a tracked one with the ID it was answered, and all else as it was
    * reported. */
  lemma {:induction false} AnsweredOne(tracked: seq<Tracked>, answers: seq<Option<nat>>, objects: seq<Perceived>, i: nat)
    requires |tracked| == |answers| && objects == Answered(tracked, answers) && i < |objects|
    ensures exists k :: 0 <= k < |tracked| && AnswerOf(tracked[k], answers[k], objects[i])
  {
    var rest, front := tracked[..|tracked| - 1], answers[..|answers| - 1];
    var before := Answered(rest, front);
    if i < |before| {
      AnsweredOne(rest, front, before, i);
      var k :| 0 <= k < |rest| && AnswerOf(rest[k], front[k], objects[i]);
      assert AnswerOf(tracked[k], answers[k], objects[i]);
    } else {
      assert AnswerOf(tracked[|tracked| - 1], answers[|tracked| - 1], objects[i]);
    }
  }

  predicate AnswerOf(t: Tracked, answer: Option<nat>, o: Perceived) {
    && answer == Some(o.cps) && o.lem == t.lem
    && o.position == t.position && o.ageMs == t.ageMs && o.quality == t.quality
    && o.speed == t.speed && o.heading == t.heading && o.kind == t.kind
  }

  /** Conversely, each tracked object that was given an ID is perceived. */
  lemma {:induction false} AllAnswered(tracked: seq<Tracked>, answers: seq<Option<nat>>, objects: seq<Perceived>, k: nat)
    requires |tracked| == |answers| && objects == Answered(tracked, answers) && k < |tracked|
    ensures answers[k].Some? ==> exists i :: 0 <= i < |objects| && AnswerOf(tracked[k], answers[k], objects[i])
  {
    var rest, front := tracked[..|tracked| - 1], answers[..|answers| - 1];
    var before := Answered(rest, front);
    if answers[k].Some? {
      if k < |rest| {
        AllAnswered(rest, front, before, k);
        var i :| 0 <= i < |before| && AnswerOf(rest[k], front[k], before[i]);
        assert AnswerOf(tracked[k], answers[k], objects[i]);
      } else {
        assert AnswerOf(tracked[k], answers[k], objects[|before|]);
      }
    }
  }

  /** The operations of one message are a cycle in which every tracked object is asked for. */
  lemma MessageIsCycle(before: seq<Op>, now: Time, tracked: seq<Tracked>, answers: seq<Option<nat>>, ops: seq<Op>)
    requires |tracked| == |answers| && Stores(before + Requests(now, tracked, answers), ops)
    ensures Cycle(ops, |before|, |ops|, now)
    ensures forall i :: 0 <= i < |tracked| ==> Asked(ops, tracked[i].lem, |before|, |ops|)
  {
    var requests := Requests(now, tracked, answers);
    forall k | |before| <= k < |before| + |requests| ensures ops[k] == requests[k - |before|] {
      assert (before + requests)[k] == requests[k - |before|];
    }
    forall i | 0 <= i < |tracked| ensures Asked(ops, tracked[i].lem, |before|, |ops|) {
      assert ops[|before| + i] == requests[i];
    }
  }

  ghost predicate SensorStep(t: Sensors, retention: Time, now: Time, sensor: int, answer: Option<nat>, t': Sensors) {
    Mutual(t) && Mutual(t') && SensorAllocated(t, retention, now, sensor, answer, t')
  }

  /** A sensor that was given an ID at this time still has it after further ones. */
  lemma {:induction false} StaysFresh(tables: seq<Sensors>, retention: Time, now: Time, sensors: seq<int>,
                                      ids: seq<Option<nat>>, i: nat, n: nat)
    requires |tables| == |sensors| + 1 == |ids| + 1 && i < n <= |sensors| && retention > 0 && now >= 0
    requires forall k :: 0 <= k < |sensors| ==> sensors[k] != INVALID_SENSOR_ID
    requires forall k :: 0 <= k < |sensors| ==>
               SensorStep(tables[k], retention, now, sensors[k], ids[k], tables[k + 1])
    requires ids[i].Some?
    ensures FreshIn(tables[n], now, sensors[i], ids[i].value)
  {
    hide SensorAllocated;
    assert SensorStep(tables[n - 1], retention, now, sensors[n - 1], ids[n - 1], tables[n]);
    if i == n - 1 {
      SensorFresh(tables[i], retention, now, sensors[i], ids[i], tables[n]);
    } else {
      StaysFresh(tables, retention, now, sensors, ids, i, n - 1);
      SensorKept(tables[n - 1], retention, now, sensors[n - 1], ids[n - 1], tables[n], sensors[i]);
    }
  }

  lemma FreshInjective(t: Sensors, now: Time, s: int, u: int, id: nat)
    requires Mutual(t) && FreshIn(t, now, s, id) && FreshIn(t, now, u, id)
    ensures s == u
  {
  }

  ghost function SensorRequests(now: Time, sensors: seq<int>, ids: seq<Option<nat>>): seq<SensorOp>
    requires |sensors| == |ids|
  {
    seq(|sensors|, n requires 0 <= n < |sensors| => SensorRequest(now, sensors[n], ids[n]))
  }

  lemma FreshMeans(t: Sensors, now: Time, sensors: seq<int>, ids: seq<Option<nat>>)
    requires Mutual(t) && |sensors| == |ids|
    requires forall i :: 0 <= i < |ids| && ids[i].Some? ==> FreshIn(t, now, sensors[i], ids[i].value)
    ensures forall i :: 0 <= i < |ids| && ids[i].Some? ==>
              && sensors[i] in t.sensor2Cps && t.sensor2Cps[sensors[i]] == ids[i].value < |t.lastUsed|
              && t.lastUsed[ids[i].value] == now
    ensures forall i, j :: 0 <= i < j < |ids| && sensors[i] != sensors[j] && ids[i].Some? ==> ids[i] != ids[j]
  {
    forall i, j | 0 <= i < j < |ids| && sensors[i] != sensors[j] && ids[i].Some? ensures ids[i] != ids[j] {
      if ids[i] == ids[j] {
        FreshInjective(t, now, sensors[i], sensors[j], ids[i].value);
      }
    }
  }

  ghost predicate FreshIn(t: Sensors, now: Time, sensor: int, id: nat) {
    && SensorsSized(t)
    && sensor in t.sensor2Cps && t.sensor2Cps[sensor] == id && t.lastUsed[id] == now
  }

  lemma SensorFresh(t: Sensors, retention: Time, now: Time, sensor: int, answer: Option<nat>, t': Sensors)
    requires Mutual(t) && SensorAllocated(t, retention, now, sensor, answer, t') && Mutual(t')
    ensures answer.Some? ==> FreshIn(t', now, sensor, answer.value)
  {
  }

  /** The requests of one message, in the order of the tracked objects. */
  ghost function Requests(now: Time, tracked: seq<Tracked>, answers: seq<Option<nat>>): seq<Op>
    requires |tracked| == |answers|
  {
    seq(|tracked|, n requires 0 <= n < |tracked| => Request(now, tracked[n].lem, answers[n]))
  }

  /** The perceived objects: the tracked ones that were given an ID, in the same order. */
  ghost function Answered(tracked: seq<Tracked>, answers: seq<Option<nat>>): seq<Perceived>
    requires |tracked| == |answers|
  {
    if tracked == [] then []
    else Answered(tracked[..|tracked| - 1], answers[..|answers| - 1])
         + Entries(tracked[|tracked| - 1], answers[|answers| - 1])
  }

  function Entries(t: Tracked, answer: Option<nat>): seq<Perceived> {
    match answer
    case Some(cps) => [WithId(t, cps)]
    case None => []
  }

  lemma RequestsNone(now: Time)
    ensures Requests(now, [], []) == [] && Answered([], []) == []
  {
  }

  lemma RequestsOne(now: Time, tracked: seq<Tracked>, n: nat, answers: seq<Option<nat>>, answer: Option<nat>)
    requires n < |tracked| && |answers| == n
    ensures Requests(now, tracked[..n + 1], answers + [answer])
         == Requests(now, tracked[..n], answers) + [Request(now, tracked[n].lem, answer)]
    ensures Answered(tracked[..n + 1], answers + [answer])
         == Answered(tracked[..n], answers) + Entries(tracked[n], answer)
  {
    assert tracked[..n + 1][..n] == tracked[..n] && (answers + [answer])[..n] == answers;
  }

  ghost predicate Among(lem: LemId, tracked: seq<Tracked>) {
    exists m :: 0 <= m < |tracked| && tracked[m].lem == lem
  }

  lemma {:induction false} AnsweredDistinct(tracked: seq<Tracked>, answers: seq<Option<nat>>,
                                            objects: seq<Perceived>)
    requires |tracked| == |answers| && objects == Answered(tracked, answers)
    requires forall i, j :: 0 <= i < j < |tracked| ==> tracked[i].lem != tracked[j].lem
    ensures forall i :: 0 <= i < |objects| ==> Among(objects[i].lem, tracked)
    ensures forall i, j :: 0 <= i < j < |objects| ==> objects[i].lem != objects[j].lem
  {
    if tracked != [] {
      var rest, front := tracked[..|tracked| - 1], answers[..|answers| - 1];
      var before := Answered(rest, front);
      AnsweredDistinct(rest, front, before);
      forall i | 0 <= i < |objects|
        ensures Among(objects[i].lem, tracked)
        ensures |before| <= i ==> objects[i].lem == tracked[|tracked| - 1].lem
      {
        if i < |before| {
          assert Among(before[i].lem, rest);
          var m :| 0 <= m < |rest| && rest[m].lem == before[i].lem;
          assert tracked[m].lem == objects[i].lem;
        } else {
          assert tracked[|tracked| - 1].lem == objects[i].lem;
        }
      }
      forall i, j | 0 <= i < j < |objects| ensures objects[i].lem != objects[j].lem {
        assert objects[i] == before[i] && Among(before[i].lem, rest);
      }
    }
  }

  lemma NotYetCaptured(tracked: seq<Tracked>, n: nat, answers: seq<Option<nat>>, objects: seq<Perceived>)
    requires n < |tracked| && |answers| == n && objects == Answered(tracked[..n], answers)
    requires forall i, j :: 0 <= i < j < |tracked| ==> tracked[i].lem != tracked[j].lem
    ensures forall i :: 0 <= i < |objects| ==> objects[i].lem != tracked[n].lem
  {
    AnsweredDistinct(tracked[..n], answers, objects);
    forall i | 0 <= i < |objects| ensures objects[i].lem != tracked[n].lem {
      assert Among(objects[i].lem, tracked[..n]);
    }
  }

  function WithId(t: Tracked, cps: nat): Perceived {
    Perceived(t.lem, cps, t.position, t.ageMs, t.quality, t.speed, t.heading, t.kind)
  }

  function Indices(n: nat): seq<nat> {
    seq(n, i => i)
  }
}
