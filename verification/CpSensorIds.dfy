/** Sensor identifiers of collective perception messages, and runs of their allocation. A
  * sensor keeps its ID; an ID idle for the retention period may go to another sensor. */
module CpSensorIds {
  import opened Moments
  import opened CpIds

  const SENSOR_ID_SPACE: nat := 256
  const INVALID_SENSOR_ID: int := -1

  datatype Sensors = Sensors(sensor2Cps: map<int, nat>, cps2Sensor: seq<int>, lastUsed: seq<Time>)

  function NoSensors(): Sensors {
    Sensors(map[], seq(SENSOR_ID_SPACE, _ => INVALID_SENSOR_ID), seq(SENSOR_ID_SPACE, _ => NEVER_USED))
  }

  predicate SensorsSized(t: Sensors) {
    && |t.cps2Sensor| == |t.lastUsed| == SENSOR_ID_SPACE
    && (forall s :: s in t.sensor2Cps ==> t.sensor2Cps[s] < SENSOR_ID_SPACE)
  }

  function BindSensor(t: Sensors, now: Time, sensor: int, cps: nat): Sensors
    requires SensorsSized(t) && cps < SENSOR_ID_SPACE
  {
    var bound := t.cps2Sensor[cps];
    Sensors(
      (if bound != INVALID_SENSOR_ID then t.sensor2Cps - {bound} else t.sensor2Cps)[sensor := cps],
      t.cps2Sensor[cps := sensor],
      t.lastUsed[cps := now])
  }

  ghost predicate SensorAllocated(t: Sensors, retention: Time, now: Time, sensor: int,
                                  answer: Option<nat>, t': Sensors)
    requires SensorsSized(t)
  {
    if sensor in t.sensor2Cps then
      && answer == Some(t.sensor2Cps[sensor])
      && t' == t.(lastUsed := t.lastUsed[t.sensor2Cps[sensor] := now])
    else match answer
      case Some(cps) =>
        cps < SENSOR_ID_SPACE && Free(t.lastUsed, retention, now, cps)
        && t' == BindSensor(t, now, sensor, cps)
      case None =>
        t' == t && forall cps :: 0 <= cps < SENSOR_ID_SPACE ==> !Free(t.lastUsed, retention, now, cps)
  }

  function ResetSensors(t: Sensors): Sensors {
    t.(sensor2Cps := map[], cps2Sensor := seq(SENSOR_ID_SPACE, _ => INVALID_SENSOR_ID))
  }

  /** The two sensor tables are full mutual inverses. */
  ghost predicate Mutual(t: Sensors) {
    && SensorsSized(t)
    && (forall s :: s in t.sensor2Cps ==> s != INVALID_SENSOR_ID && t.cps2Sensor[t.sensor2Cps[s]] == s)
    && (forall c :: 0 <= c < SENSOR_ID_SPACE && t.cps2Sensor[c] != INVALID_SENSOR_ID ==>
          t.cps2Sensor[c] in t.sensor2Cps && t.sensor2Cps[t.cps2Sensor[c]] == c)
  }

  datatype SensorOp =
    | SensorRequest(now: Time, sensor: int, answer: Option<nat>)
    | SensorReset(now: Time)

  ghost predicate SensorNext(retention: Time, t: Sensors, clock: Time, op: SensorOp, t': Sensors, clock': Time) {
    && SensorsSized(t) && clock <= op.now == clock'
    && match op
       case SensorRequest(now, sensor, answer) =>
         sensor != INVALID_SENSOR_ID && SensorAllocated(t, retention, now, sensor, answer, t')
       case SensorReset(_) => t' == ResetSensors(t)
  }

  ghost predicate SensorRun(retention: Time, tables: seq<Sensors>, clocks: seq<Time>, ops: seq<SensorOp>) {
    && |tables| == |clocks| == |ops| + 1
    && tables[0] == NoSensors() && clocks[0] >= 0
    && forall i :: 0 <= i < |ops| ==>
         SensorNext(retention, tables[i], clocks[i], ops[i], tables[i + 1], clocks[i + 1])
  }

  /** In every run the tables are mutual inverses. */
  lemma {:induction false} SensorsMutual(retention: Time, tables: seq<Sensors>, clocks: seq<Time>,
                                         ops: seq<SensorOp>, i: nat)
    requires SensorRun(retention, tables, clocks, ops) && i < |tables|
    ensures Mutual(tables[i]) && clocks[i] >= 0
  {
    if i > 0 {
      SensorsMutual(retention, tables, clocks, ops, i - 1);
      assert SensorNext(retention, tables[i - 1], clocks[i - 1], ops[i - 1], tables[i], clocks[i]);
    }
  }

  lemma {:induction false} SensorTimes(retention: Time, tables: seq<Sensors>, clocks: seq<Time>,
                                       ops: seq<SensorOp>, i: nat, c: nat)
    requires SensorRun(retention, tables, clocks, ops) && i < |tables| && c < SENSOR_ID_SPACE
    ensures SensorsSized(tables[i]) && 0 <= clocks[i]
    ensures tables[i].lastUsed[c] == NEVER_USED || 0 <= tables[i].lastUsed[c] <= clocks[i]
  {
    SensorsMutual(retention, tables, clocks, ops, i);
    if i > 0 {
      SensorTimes(retention, tables, clocks, ops, i - 1, c);
      assert SensorNext(retention, tables[i - 1], clocks[i - 1], ops[i - 1], tables[i], clocks[i]);
    }
  }

  /** In every run a request for a sensor fails exactly if the sensor has no ID and every ID is in
    * hold-off. A sensor that has an ID is answered that one. */
  lemma SensorFailsIff(retention: Time, tables: seq<Sensors>, clocks: seq<Time>, ops: seq<SensorOp>, i: nat)
    requires SensorRun(retention, tables, clocks, ops) && i < |ops| && ops[i].SensorRequest?
    ensures SensorsSized(tables[i])
    ensures ops[i].answer.None? <==>
            && ops[i].sensor !in tables[i].sensor2Cps
            && forall c :: 0 <= c < 256 ==>
                 0 <= tables[i].lastUsed[c] && ops[i].now < tables[i].lastUsed[c] + retention
    ensures ops[i].sensor in tables[i].sensor2Cps ==> ops[i].answer == Some(tables[i].sensor2Cps[ops[i].sensor])
  {
    var t := tables[i];
    assert SensorNext(retention, t, clocks[i], ops[i], tables[i + 1], clocks[i + 1]);
    forall c: nat | c < SENSOR_ID_SPACE
      ensures Free(t.lastUsed, retention, ops[i].now, c) <==>
              !(0 <= t.lastUsed[c] && ops[i].now < t.lastUsed[c] + retention)
    {
      SensorTimes(retention, tables, clocks, ops, i, c);
    }
  }

  /** Since `t`, sensor ID `c` has been with `owner` or nobody, unless its hold-off is over. */
  ghost predicate SensorGuarded(retention: Time, t: Sensors, clock: Time, c: nat, owner: int, since: Time) {
    && Mutual(t) && c < SENSOR_ID_SPACE
    && 0 <= since <= t.lastUsed[c]
    && (t.cps2Sensor[c] == INVALID_SENSOR_ID || t.cps2Sensor[c] == owner || since + retention <= clock)
  }

  lemma {:induction false} SensorGuardedUntil(retention: Time, tables: seq<Sensors>, clocks: seq<Time>,
                                              ops: seq<SensorOp>, i: nat, j: nat, c: nat, owner: int, since: Time)
    requires SensorRun(retention, tables, clocks, ops) && i <= j < |tables|
    requires SensorGuarded(retention, tables[i], clocks[i], c, owner, since) && since <= clocks[i]
    ensures SensorGuarded(retention, tables[j], clocks[j], c, owner, since) && since <= clocks[j]
  {
    if i < j {
      SensorGuardedUntil(retention, tables, clocks, ops, i, j - 1, c, owner, since);
      SensorsMutual(retention, tables, clocks, ops, j);
      assert SensorNext(retention, tables[j - 1], clocks[j - 1], ops[j - 1], tables[j], clocks[j]);
    }
  }

  /** A reset between the two requests. */
  ghost predicate ResetBetween(ops: seq<SensorOp>, i: nat, j: nat) {
    exists r :: i < r < j && r < |ops| && ops[r].SensorReset?
  }

  /** Two sensors are given the same ID only with the retention period in between, and after a
    * reset not even the same sensor is given it before; in particular, with a positive one, IDs
    * handed out at the same time are distinct. */
  lemma SensorHoldOff(retention: Time, tables: seq<Sensors>, clocks: seq<Time>, ops: seq<SensorOp>,
                      i: nat, j: nat, c: nat)
    requires SensorRun(retention, tables, clocks, ops) && i < j < |ops|
    requires ops[i].SensorRequest? && ops[i].answer == Some(c)
    requires ops[j].SensorRequest? && ops[j].answer == Some(c)
    requires ops[i].sensor != ops[j].sensor || ResetBetween(ops, i, j)
    ensures ops[i].now + retention <= ops[j].now
  {
    assert SensorNext(retention, tables[i], clocks[i], ops[i], tables[i + 1], clocks[i + 1]);
    SensorsMutual(retention, tables, clocks, ops, i);
    SensorsMutual(retention, tables, clocks, ops, i + 1);
    var owner, since := ops[i].sensor, ops[i].now;
    if ops[i].sensor == ops[j].sensor {
      var r :| i < r < j && ops[r].SensorReset?;
      SensorGuardedUntil(retention, tables, clocks, ops, i + 1, r, c, owner, since);
      assert SensorNext(retention, tables[r], clocks[r], ops[r], tables[r + 1], clocks[r + 1]);
      SensorsMutual(retention, tables, clocks, ops, r + 1);
      owner := INVALID_SENSOR_ID;
      SensorGuardedUntil(retention, tables, clocks, ops, r + 1, j, c, owner, since);
    } else {
      SensorGuardedUntil(retention, tables, clocks, ops, i + 1, j, c, owner, since);
    }
    assert SensorNext(retention, tables[j], clocks[j], ops[j], tables[j + 1], clocks[j + 1]);
  }

  /** One request does not cost a sensor an ID that is in hold-off. */
  lemma SensorKept(t: Sensors, retention: Time, now: Time, sensor: int, answer: Option<nat>,
                   t': Sensors, kept: int)
    requires Mutual(t) && sensor != INVALID_SENSOR_ID && SensorAllocated(t, retention, now, sensor, answer, t')
    requires kept in t.sensor2Cps && 0 <= t.lastUsed[t.sensor2Cps[kept]] <= now
    requires now < t.lastUsed[t.sensor2Cps[kept]] + retention
    ensures kept in t'.sensor2Cps && t'.sensor2Cps[kept] == t.sensor2Cps[kept]
    ensures t'.lastUsed[t.sensor2Cps[kept]] ==
            if sensor == kept then now else t.lastUsed[t.sensor2Cps[kept]]
    ensures sensor == kept ==> answer == Some(t.sensor2Cps[kept])
  {
  }

  /** When a sensor was last asked for between `from` and `until`. */
  ghost function LastAsked(ops: seq<SensorOp>, sensor: int, from: nat, until: nat): Option<Time>
    requires from <= until <= |ops|
    decreases until
  {
    if from == until then None
    else if ops[until - 1].SensorRequest? && ops[until - 1].sensor == sensor then Some(ops[until - 1].now)
    else LastAsked(ops, sensor, from, until - 1)
  }

  /** Between `from` and `until` there is no reset and every request, for whatever sensor, comes
    * within the retention period after the last one for this sensor. */
  ghost predicate InUse(retention: Time, ops: seq<SensorOp>, sensor: int, from: nat, until: nat)
    requires from <= until <= |ops|
  {
    forall k :: from <= k < until ==>
      && ops[k].SensorRequest?
      && (LastAsked(ops, sensor, from, k).Some? ==>
            ops[k].now < LastAsked(ops, sensor, from, k).value + retention)
  }

  /** The sensor has ID `c`, last asked for at `last`. */
  ghost predicate Holding(t: Sensors, clock: Time, sensor: int, c: nat, last: Option<Time>) {
    && SensorsSized(t)
    && sensor in t.sensor2Cps && t.sensor2Cps[sensor] == c
    && 0 <= t.lastUsed[c] <= clock && last == Some(t.lastUsed[c])
  }

  lemma FirstHolding(retention: Time, t: Sensors, clock: Time, op: SensorOp, t': Sensors, clock': Time, c: nat)
    requires Mutual(t) && clock >= 0 && SensorNext(retention, t, clock, op, t', clock')
    requires op.SensorRequest? && op.answer == Some(c)
    ensures Holding(t', clock', op.sensor, c, Some(op.now))
  {
  }

  lemma NextHolding(retention: Time, t: Sensors, clock: Time, op: SensorOp, t': Sensors, clock': Time,
                    sensor: int, c: nat, last: Option<Time>)
    requires Mutual(t) && SensorNext(retention, t, clock, op, t', clock')
    requires Holding(t, clock, sensor, c, last)
    requires op.SensorRequest? && op.now < last.value + retention
    ensures Holding(t', clock', sensor, c, if op.sensor == sensor then Some(op.now) else last)
    ensures op.sensor == sensor ==> op.answer == Some(c)
  {
    SensorKept(t, retention, op.now, op.sensor, op.answer, t', sensor);
  }

  /** In every run a sensor keeps the ID it was given as long as it is in use, whatever IDs other
    * sensors need: every request for it is answered that ID. */
  lemma {:induction false} SensorKeepsId(retention: Time, tables: seq<Sensors>, clocks: seq<Time>,
                                         ops: seq<SensorOp>, i: nat, j: nat, c: nat)
    requires SensorRun(retention, tables, clocks, ops) && i < j <= |ops|
    requires ops[i].SensorRequest? && ops[i].answer == Some(c)
    requires InUse(retention, ops, ops[i].sensor, i, j)
    ensures Holding(tables[j], clocks[j], ops[i].sensor, c, LastAsked(ops, ops[i].sensor, i, j))
    ensures ops[j - 1].sensor == ops[i].sensor ==> ops[j - 1].answer == Some(c)
  {
    hide Holding, Mutual, SensorNext, InUse, LastAsked;
    var m: nat := j - 1;
    InUseAt(retention, ops, ops[i].sensor, i, m, j);
    SensorsMutual(retention, tables, clocks, ops, m);
    assert SensorNext(retention, tables[m], clocks[m], ops[m], tables[j], clocks[j]);
    if i < m {
      SensorKeepsId(retention, tables, clocks, ops, i, m, c);
      var last := LastAsked(ops, ops[i].sensor, i, m);
      HoldingAsked(tables[m], clocks[m], ops[i].sensor, c, last);
      NextHolding(retention, tables[m], clocks[m], ops[m], tables[j], clocks[j], ops[i].sensor, c, last);
    } else {
      FirstHolding(retention, tables[m], clocks[m], ops[m], tables[j], clocks[j], c);
    }
  }

  lemma InUseAt(retention: Time, ops: seq<SensorOp>, sensor: int, from: nat, k: nat, until: nat)
    requires from <= k < until <= |ops| && InUse(retention, ops, sensor, from, until)
    ensures InUse(retention, ops, sensor, from, k) && ops[k].SensorRequest?
    ensures LastAsked(ops, sensor, from, k).Some? ==>
              ops[k].now < LastAsked(ops, sensor, from, k).value + retention
    ensures LastAsked(ops, sensor, from, k + 1) ==
            if ops[k].sensor == sensor then Some(ops[k].now) else LastAsked(ops, sensor, from, k)
  {
  }

  lemma HoldingAsked(t: Sensors, clock: Time, sensor: int, c: nat, last: Option<Time>)
    requires Holding(t, clock, sensor, c, last)
    ensures last.Some?
  {
  }
}
