/** The local environment model: which objects some sensor has seen recently enough. */
module LocalEnvironment {
  import opened Moments

  datatype ObjectId = Object(index: nat)
  datatype SensorId = Sensor(index: nat)

  datatype TrackingTime = TrackingTime(first: Time, last: Time)

  datatype Tracking = Tracking(id: nat, sensors: map<SensorId, TrackingTime>)

  /** A sensor sees the object again, or for the first time. */
  function Tap(t: Tracking, sensor: SensorId, now: Time): Tracking {
    if sensor in t.sensors
    then t.(sensors := t.sensors[sensor := t.sensors[sensor].(last := now)])
    else t.(sensors := t.sensors[sensor := TrackingTime(now, now)])
  }

  function Detected(objects: map<ObjectId, Tracking>, o: ObjectId, sensor: SensorId, id: nat, now: Time)
      : map<ObjectId, Tracking>
  {
    objects[o := if o in objects then Tap(objects[o], sensor, now)
                 else Tracking(id, map[sensor := TrackingTime(now, now)])]
  }

  type Validity = SensorId -> Time

  type Detections = map<(ObjectId, SensorId), Time>

  /** The pair's latest detection is still valid. */
  predicate Seen(latest: Detections, validity: Validity, o: ObjectId, s: SensorId, now: Time) {
    (o, s) in latest && latest[(o, s)] + validity(s) >= now
  }

  predicate TrackedBy(objects: map<ObjectId, Tracking>, o: ObjectId, s: SensorId) {
    o in objects && s in objects[o].sensors
  }

  /** A tracking time is that of the latest detection, and only detections that are no longer
    * valid are missing, unless the object has ceased to exist. */
  ghost predicate Mirrors(objects: map<ObjectId, Tracking>, latest: Detections, validity: Validity,
                          dead: set<ObjectId>, clock: Time)
  {
    && (forall o, s :: TrackedBy(objects, o, s) ==>
          (o, s) in latest && objects[o].sensors[s].first <= objects[o].sensors[s].last == latest[(o, s)] <= clock)
    && (forall o, s :: !TrackedBy(objects, o, s) && o !in dead ==> !Seen(latest, validity, o, s, clock))
    && (forall o :: o in objects ==> objects[o].sensors != map[])
  }

  /** Tracking ID `k` was issued as the `k`-th one, so none is ever issued again. */
  ghost predicate Numbered(objects: map<ObjectId, Tracking>, issued: seq<ObjectId>) {
    forall o :: o in objects ==> 1 <= objects[o].id <= |issued| && issued[objects[o].id - 1] == o
  }

  /** From one state to a later one: of the IDs issued until then, only those still in use are in use
    * later, by the same objects. All other IDs are newer. */
  ghost predicate IdsKept(objects: map<ObjectId, Tracking>, issued: nat, objects': map<ObjectId, Tracking>) {
    forall o :: o in objects' && objects'[o].id <= issued ==> o in objects && objects[o].id == objects'[o].id
  }

  /** States with the number of IDs issued so far, each reached from the one before by an operation
    * of the model. */
  ghost predicate IdRun(states: seq<map<ObjectId, Tracking>>, issued: seq<nat>) {
    && |states| == |issued|
    && forall i :: 0 < i < |states| ==>
         issued[i - 1] <= issued[i] && IdsKept(states[i - 1], issued[i - 1], states[i])
  }

  /** No tracking ID is ever used again: in every run, an ID that had been issued by state `j` and
    * that `o` has in a later state was its ID in state `j`, too. So an object that is dropped and
    * detected again has an ID no object had before. */
  lemma {:induction false} NeverReused(states: seq<map<ObjectId, Tracking>>, issued: seq<nat>, j: nat, k: nat, o: ObjectId)
    requires IdRun(states, issued) && j <= k < |states|
    requires o in states[k] && states[k][o].id <= issued[j]
    ensures o in states[j] && states[j][o].id == states[k][o].id
  {
    if j < k {
      IssuedGrows(states, issued, j, k - 1);
      assert IdsKept(states[k - 1], issued[k - 1], states[k]);
      NeverReused(states, issued, j, k - 1, o);
    }
  }

  lemma {:induction false} IssuedGrows(states: seq<map<ObjectId, Tracking>>, issued: seq<nat>, i: nat, j: nat)
    requires IdRun(states, issued) && i <= j < |states|
    ensures issued[i] <= issued[j]
  {
    if i < j {
      IssuedGrows(states, issued, i, j - 1);
    }
  }

  lemma LaterMirrors(objects: map<ObjectId, Tracking>, latest: Detections, validity: Validity,
                     dead: set<ObjectId>, clock: Time, now: Time)
    requires Mirrors(objects, latest, validity, dead, clock) && clock <= now
    ensures Mirrors(objects, latest, validity, dead, now)
  {
  }

  lemma LaterLogged(objects: map<ObjectId, Tracking>, log: seq<Entry>, validity: Validity, clock: Time, now: Time)
    requires Logged(objects, log, validity, clock) && clock <= now
    ensures Logged(objects, log, validity, now)
  {
  }

  /** What the detections of the objects `found` have made of the trackings. */
  ghost predicate Complemented(was: map<ObjectId, Tracking>, objects: map<ObjectId, Tracking>,
                               found: seq<ObjectId>, sensor: SensorId, now: Time)
  {
    && (forall o :: o in objects <==> o in was || o in found)
    && (forall o :: o in was ==> objects[o].id == was[o].id)
    && (forall o, s :: TrackedBy(objects, o, s) <==> TrackedBy(was, o, s) || (o in found && s == sensor))
    && (forall o, s :: TrackedBy(was, o, s) ==>
          && objects[o].sensors[s].first == was[o].sensors[s].first
          && objects[o].sensors[s].last == if o in found && s == sensor then now else was[o].sensors[s].last)
    && (forall o :: o in found && !TrackedBy(was, o, sensor) ==>
          objects[o].sensors[sensor] == TrackingTime(now, now))
  }

  ghost predicate Stamped(was: Detections, latest: Detections, found: seq<ObjectId>, sensor: SensorId, now: Time) {
    && (forall o, s :: (o, s) in latest <==> (o, s) in was || (o in found && s == sensor))
    && (forall o, s :: (o, s) in latest ==>
          latest[(o, s)] == if o in found && s == sensor then now else was[(o, s)])
  }

  lemma StampedMeans(was: Detections, latest: Detections, found: seq<ObjectId>, sensor: SensorId, now: Time)
    ensures latest == was && found == [] ==> Stamped(was, latest, found, sensor, now)
    ensures Stamped(was, latest, found, sensor, now) ==>
      && (forall o, s :: (o, s) in latest <==> (o, s) in was || (o in found && s == sensor))
      && (forall o, s :: (o, s) in latest ==>
            latest[(o, s)] == if o in found && s == sensor then now else was[(o, s)])
  {
  }

  lemma StampedMore(was: Detections, latest: Detections, found: seq<ObjectId>, o: ObjectId, sensor: SensorId, now: Time)
    requires Stamped(was, latest, found, sensor, now)
    ensures Stamped(was, latest[(o, sensor) := now], found + [o], sensor, now)
  {
  }

  lemma ComplementedMeans(was: map<ObjectId, Tracking>, objects: map<ObjectId, Tracking>,
                          found: seq<ObjectId>, sensor: SensorId, now: Time)
    ensures objects == was && found == [] ==> Complemented(was, objects, found, sensor, now)
    ensures Complemented(was, objects, found, sensor, now) ==>
      && (forall o :: o in objects <==> o in was || o in found)
      && (forall o :: o in was ==> objects[o].id == was[o].id)
      && (forall o, s :: o in objects && s in objects[o].sensors <==>
            (o in was && s in was[o].sensors) || (o in found && s == sensor))
      && (forall o, s :: o in objects && s in objects[o].sensors ==>
            objects[o].sensors[s] ==
            if o in was && s in was[o].sensors
            then was[o].sensors[s].(last := if o in found && s == sensor then now else was[o].sensors[s].last)
            else TrackingTime(now, now))
  {
    if Complemented(was, objects, found, sensor, now) {
      forall o, s ensures o in objects && s in objects[o].sensors <==>
        (o in was && s in was[o].sensors) || (o in found && s == sensor)
      {
        assert TrackedBy(objects, o, s) <==> TrackedBy(was, o, s) || (o in found && s == sensor);
      }
      forall o, s | o in objects && s in objects[o].sensors
        ensures objects[o].sensors[s].first == if o in was && s in was[o].sensors then was[o].sensors[s].first else now
      {
        assert TrackedBy(was, o, s) || !TrackedBy(was, o, s);
      }
    }
  }

  lemma DetectedComplements(was: map<ObjectId, Tracking>, objects: map<ObjectId, Tracking>,
                            found: seq<ObjectId>, o: ObjectId, sensor: SensorId, id: nat, now: Time)
    requires Complemented(was, objects, found, sensor, now)
    ensures Complemented(was, Detected(objects, o, sensor, id, now), found + [o], sensor, now)
    ensures forall p :: p in Detected(objects, o, sensor, id, now) && p !in objects ==>
              Detected(objects, o, sensor, id, now)[p].id == id
    ensures forall p :: p in objects ==>
              p in Detected(objects, o, sensor, id, now) && Detected(objects, o, sensor, id, now)[p].id == objects[p].id
  {
    var objects' := Detected(objects, o, sensor, id, now);
    forall p, s ensures TrackedBy(objects', p, s) <==> TrackedBy(objects, p, s) || (p == o && s == sensor) {
    }
    forall p | p in found + [o] && !TrackedBy(was, p, sensor)
      ensures objects'[p].sensors[sensor] == TrackingTime(now, now)
    {
      assert TrackedBy(objects, p, sensor) <==> p in found;
    }
  }

  lemma DetectedMirrors(objects: map<ObjectId, Tracking>, latest: Detections, validity: Validity,
                        dead: set<ObjectId>, o: ObjectId, sensor: SensorId, id: nat, now: Time)
    requires Mirrors(objects, latest, validity, dead, now)
    ensures Mirrors(Detected(objects, o, sensor, id, now), latest[(o, sensor) := now], validity, dead, now)
  {
    var objects', latest' := Detected(objects, o, sensor, id, now), latest[(o, sensor) := now];
    forall p, s | TrackedBy(objects', p, s)
      ensures (p, s) in latest'
      ensures objects'[p].sensors[s].first <= objects'[p].sensors[s].last == latest'[(p, s)] <= now
    {
      if (p, s) != (o, sensor) {
        assert TrackedBy(objects, p, s);
      } else if TrackedBy(objects, p, s) {
        assert objects[p].sensors[s].first <= now;
      }
    }
    forall p, s | !TrackedBy(objects', p, s) && p !in dead
      ensures !Seen(latest', validity, p, s, now)
    {
      assert !TrackedBy(objects, p, s);
    }
  }

  /** The tracking without the sensors whose detection is no longer valid. */
  ghost function Refreshed(t: Tracking, validity: Validity, now: Time): Tracking {
    t.(sensors := map s | s in t.sensors && t.sensors[s].last + validity(s) >= now :: t.sensors[s])
  }

  /** What an update leaves. */
  ghost function Updated(objects: map<ObjectId, Tracking>, validity: Validity, alive: set<ObjectId>, now: Time)
      : map<ObjectId, Tracking>
  {
    map o | o in objects && o in alive && Refreshed(objects[o], validity, now).sensors != map[] ::
      Refreshed(objects[o], validity, now)
  }

  /** After an update an object is tracked exactly if it exists and some sensor's latest detection of
    * it is valid; its tracking lists exactly those sensors, under its old ID. */
  lemma UpdatedExactly(objects: map<ObjectId, Tracking>, latest: Detections, validity: Validity,
                       dead: set<ObjectId>, alive: set<ObjectId>, clock: Time, now: Time)
    requires Mirrors(objects, latest, validity, dead, clock) && clock <= now && alive !! dead
    ensures var after := Updated(objects, validity, alive, now);
            && (forall o, s :: o in after && s in after[o].sensors <==>
                  o in alive && (o, s) in latest && latest[(o, s)] + validity(s) >= now)
            && (forall o :: o in after <==>
                  o in alive && exists s :: (o, s) in latest && latest[(o, s)] + validity(s) >= now)
            && (forall o :: o in after ==> o in objects && after[o].id == objects[o].id)
            && (forall o, s :: o in after && s in after[o].sensors ==>
                  s in objects[o].sensors && after[o].sensors[s] == objects[o].sensors[s])
            && Mirrors(after, latest, validity, dead + (set o | o in objects && o !in alive), now)
  {
    var after := Updated(objects, validity, alive, now);
    forall o, s ensures TrackedBy(after, o, s) <==> o in alive && Seen(latest, validity, o, s, now) {
      StillTracked(objects, latest, validity, dead, alive, clock, now, o, s);
    }
    forall o ensures o in after <==> o in alive && exists s :: Seen(latest, validity, o, s, now) {
      if o in after {
        var s :| s in after[o].sensors;
        assert TrackedBy(after, o, s);
      }
      if s :| o in alive && Seen(latest, validity, o, s, now) {
        assert TrackedBy(after, o, s);
      }
    }
    forall o, s | TrackedBy(after, o, s)
      ensures (o, s) in latest && after[o].sensors[s].first <= after[o].sensors[s].last == latest[(o, s)] <= now
    {
      assert TrackedBy(objects, o, s);
    }
    var dead' := dead + (set o | o in objects && o !in alive);
    forall o, s | !TrackedBy(after, o, s) && o !in dead' ensures !Seen(latest, validity, o, s, now) {
      if o !in alive {
        assert !TrackedBy(objects, o, s);
        assert !Seen(latest, validity, o, s, clock);
      }
    }
  }

  lemma StillTracked(objects: map<ObjectId, Tracking>, latest: Detections, validity: Validity,
                     dead: set<ObjectId>, alive: set<ObjectId>, clock: Time, now: Time, o: ObjectId, s: SensorId)
    requires Mirrors(objects, latest, validity, dead, clock) && clock <= now && alive !! dead
    ensures TrackedBy(Updated(objects, validity, alive, now), o, s)
            <==> o in alive && Seen(latest, validity, o, s, now)
  {
    if o in alive {
      if TrackedBy(objects, o, s) {
        var sensors := Refreshed(objects[o], validity, now).sensors;
        assert s in sensors <==> Seen(latest, validity, o, s, now);
      } else {
        assert !Seen(latest, validity, o, s, clock);
      }
    }
  }

  /** What happens to the model: a sensor detects an object, or all trackings are cleaned up when
    * only the objects `alive` still exist. */
  datatype Entry = Detection(found: ObjectId, sensor: SensorId, at: Time) | CleanUp(at: Time, alive: set<ObjectId>)

  ghost predicate Detects(log: seq<Entry>, i: nat, o: ObjectId, s: SensorId) {
    i < |log| && log[i].Detection? && log[i].found == o && log[i].sensor == s
  }

  /** A clean-up at which the object does not exist any more, or which comes later than the validity
    * period after each detection of the pair before it. */
  ghost predicate Drops(log: seq<Entry>, validity: Validity, k: nat, o: ObjectId, s: SensorId) {
    && k < |log| && log[k].CleanUp?
    && (o in log[k].alive ==> forall i: nat :: i < k && Detects(log, i, o, s) ==> log[i].at + validity(s) < log[k].at)
  }

  ghost predicate Dropped(log: seq<Entry>, validity: Validity, a: nat, b: nat, o: ObjectId, s: SensorId) {
    exists k: nat :: a < k < b && Drops(log, validity, k, o, s)
  }

  /** The pair's tracking that began with detection `b` has not ended yet: the pair had not been
    * detected before, or had been dropped since, and no clean-up after `b` drops it. */
  ghost predicate Began(log: seq<Entry>, validity: Validity, o: ObjectId, s: SensorId, b: nat) {
    && Detects(log, b, o, s)
    && (forall a: nat :: a < b && Detects(log, a, o, s) ==> Dropped(log, validity, a, b, o, s))
    && !Dropped(log, validity, b, |log|, o, s)
  }

  /** The tracking time of a pair is that of a tracking which began with one detection and whose
    * latest one is another. */
  ghost predicate Since(log: seq<Entry>, validity: Validity, o: ObjectId, s: SensorId, t: TrackingTime, b: nat, j: nat) {
    && b <= j && Began(log, validity, o, s, b) && log[b].at == t.first
    && Detects(log, j, o, s) && log[j].at == t.last
    && forall i: nat :: Detects(log, i, o, s) ==> log[i].at <= t.last
  }

  ghost predicate Lapsed(log: seq<Entry>, validity: Validity, o: ObjectId, s: SensorId) {
    forall a: nat :: Detects(log, a, o, s) ==> Dropped(log, validity, a, |log|, o, s)
  }

  /** The trackings are what the log says. */
  ghost predicate Logged(objects: map<ObjectId, Tracking>, log: seq<Entry>, validity: Validity, clock: Time) {
    && (forall i :: 0 <= i < |log| ==> log[i].at <= clock)
    && (forall o, s :: TrackedBy(objects, o, s) ==>
          exists b, j :: Since(log, validity, o, s, objects[o].sensors[s], b, j))
    && (forall o, s :: !TrackedBy(objects, o, s) ==> Lapsed(log, validity, o, s))
  }

  /** From the log of detections and clean-ups alone: a pair is tracked exactly if a detection began
    * a tracking that has not ended; that detection is unique, it is when the pair was first seen, and
    * the pair was last seen at its latest detection. */
  lemma TrackedSince(objects: map<ObjectId, Tracking>, log: seq<Entry>, validity: Validity, clock: Time,
                     o: ObjectId, s: SensorId)
    requires Logged(objects, log, validity, clock)
    ensures o in objects && s in objects[o].sensors <==> exists b: nat :: Began(log, validity, o, s, b)
    ensures forall b: nat :: Began(log, validity, o, s, b) ==> objects[o].sensors[s].first == log[b].at
    ensures forall b: nat, c: nat :: Began(log, validity, o, s, b) && Began(log, validity, o, s, c) ==> b == c
    ensures forall b: nat :: Began(log, validity, o, s, b) ==>
              && (exists j: nat :: Detects(log, j, o, s) && log[j].at == objects[o].sensors[s].last)
              && forall j: nat :: Detects(log, j, o, s) ==> log[j].at <= objects[o].sensors[s].last
  {
    forall b: nat, c: nat | Began(log, validity, o, s, b) && Began(log, validity, o, s, c) ensures b == c {
      BeganOnce(log, validity, o, s, b, c);
      BeganOnce(log, validity, o, s, c, b);
    }
    if TrackedBy(objects, o, s) {
      var b, j :| Since(log, validity, o, s, objects[o].sensors[s], b, j);
    } else {
      assert Lapsed(log, validity, o, s);
    }
  }

  lemma BeganOnce(log: seq<Entry>, validity: Validity, o: ObjectId, s: SensorId, b: nat, c: nat)
    requires Began(log, validity, o, s, b) && Began(log, validity, o, s, c)
    ensures c <= b
  {
    DroppedSince(log, validity, b, c, |log|, o, s);
  }

  lemma DroppedSince(log: seq<Entry>, validity: Validity, a: nat, b: nat, c: nat, o: ObjectId, s: SensorId)
    ensures b <= c && Dropped(log, validity, a, b, o, s) ==> Dropped(log, validity, a, c, o, s)
  {
  }

  lemma Extended(log: seq<Entry>, e: Entry, validity: Validity, o: ObjectId, s: SensorId)
    ensures forall i: nat :: i < |log| ==> (Detects(log + [e], i, o, s) <==> Detects(log, i, o, s))
    ensures forall k: nat :: k < |log| ==> (Drops(log + [e], validity, k, o, s) <==> Drops(log, validity, k, o, s))
    ensures forall a: nat, b: nat :: b <= |log| ==>
              (Dropped(log + [e], validity, a, b, o, s) <==> Dropped(log, validity, a, b, o, s))
  {
    forall k: nat | k < |log|
      ensures Drops(log + [e], validity, k, o, s) <==> Drops(log, validity, k, o, s)
    {
      assert forall i: nat :: i < k ==> (Detects(log + [e], i, o, s) <==> Detects(log, i, o, s));
    }
  }

  /** An entry that does not drop a pair does not end its tracking. */
  lemma Lasts(log: seq<Entry>, e: Entry, validity: Validity, o: ObjectId, s: SensorId, t: TrackingTime, b: nat, j: nat)
    requires Since(log, validity, o, s, t, b, j)
    requires !Drops(log + [e], validity, |log|, o, s)
    ensures Began(log + [e], validity, o, s, b) && (log + [e])[b].at == t.first && Detects(log + [e], j, o, s)
  {
    Extended(log, e, validity, o, s);
  }

  lemma StillLapsed(log: seq<Entry>, e: Entry, validity: Validity, o: ObjectId, s: SensorId)
    requires Lapsed(log, validity, o, s)
    requires !Detects(log + [e], |log|, o, s)
    ensures Lapsed(log + [e], validity, o, s)
  {
    Extended(log, e, validity, o, s);
    forall a: nat | Detects(log + [e], a, o, s) ensures Dropped(log + [e], validity, a, |log + [e]|, o, s) {
      var k: nat :| a < k < |log| && Drops(log, validity, k, o, s);
      assert Drops(log + [e], validity, k, o, s);
    }
  }

  lemma DetectedLogged(objects: map<ObjectId, Tracking>, log: seq<Entry>, validity: Validity,
                       o: ObjectId, sensor: SensorId, id: nat, now: Time)
    requires Logged(objects, log, validity, now)
    ensures Logged(Detected(objects, o, sensor, id, now), log + [Detection(o, sensor, now)], validity, now)
  {
    var e := Detection(o, sensor, now);
    var objects', log' := Detected(objects, o, sensor, id, now), log + [e];
    forall p, s | TrackedBy(objects', p, s)
      ensures exists b, j :: Since(log', validity, p, s, objects'[p].sensors[s], b, j)
    {
      Extended(log, e, validity, p, s);
      if TrackedBy(objects, p, s) {
        var b, j :| Since(log, validity, p, s, objects[p].sensors[s], b, j);
        Lasts(log, e, validity, p, s, objects[p].sensors[s], b, j);
        assert Since(log', validity, p, s, objects'[p].sensors[s], b, if (p, s) == (o, sensor) then |log| else j);
      } else {
        assert Since(log', validity, p, s, objects'[p].sensors[s], |log|, |log|);
      }
    }
    forall p, s | !TrackedBy(objects', p, s) ensures Lapsed(log', validity, p, s) {
      assert !TrackedBy(objects, p, s);
      StillLapsed(log, e, validity, p, s);
    }
  }

  lemma UpdatedLogged(objects: map<ObjectId, Tracking>, log: seq<Entry>, validity: Validity, alive: set<ObjectId>,
                      clock: Time, now: Time)
    requires Logged(objects, log, validity, clock) && clock <= now
    ensures Logged(Updated(objects, validity, alive, now), log + [CleanUp(now, alive)], validity, now)
  {
    hide Lapsed, Since, Updated;
    var e := CleanUp(now, alive);
    var objects', log' := Updated(objects, validity, alive, now), log + [e];
    forall o, s | TrackedBy(objects', o, s)
      ensures exists b, j :: Since(log', validity, o, s, objects'[o].sensors[s], b, j)
    {
      KeptSince(objects, log, validity, alive, clock, now, o, s);
    }
    forall o, s | !TrackedBy(objects', o, s) ensures Lapsed(log', validity, o, s) {
      DroppedLapses(objects, log, validity, alive, clock, now, o, s);
    }
  }

  lemma KeptSince(objects: map<ObjectId, Tracking>, log: seq<Entry>, validity: Validity, alive: set<ObjectId>,
                  clock: Time, now: Time, o: ObjectId, s: SensorId)
    requires Logged(objects, log, validity, clock) && clock <= now
    requires TrackedBy(Updated(objects, validity, alive, now), o, s)
    ensures var t := Updated(objects, validity, alive, now)[o].sensors[s];
            exists b, j :: Since(log + [CleanUp(now, alive)], validity, o, s, t, b, j)
  {
    assert TrackedBy(objects, o, s);
    var e, t := CleanUp(now, alive), objects[o].sensors[s];
    Extended(log, e, validity, o, s);
    var b, j :| Since(log, validity, o, s, t, b, j);
    assert Detects(log + [e], j, o, s);
    Lasts(log, e, validity, o, s, t, b, j);
    assert Since(log + [e], validity, o, s, t, b, j);
  }

  lemma DroppedLapses(objects: map<ObjectId, Tracking>, log: seq<Entry>, validity: Validity, alive: set<ObjectId>,
                      clock: Time, now: Time, o: ObjectId, s: SensorId)
    requires Logged(objects, log, validity, clock) && clock <= now
    requires !TrackedBy(Updated(objects, validity, alive, now), o, s)
    ensures Lapsed(log + [CleanUp(now, alive)], validity, o, s)
  {
    var log' := log + [CleanUp(now, alive)];
    Extended(log, CleanUp(now, alive), validity, o, s);
    if TrackedBy(objects, o, s) {
      StaysIff(objects, validity, alive, now, o, s);
      assert Drops(log', validity, |log|, o, s);
      assert forall a: nat :: a < |log| ==> Dropped(log', validity, a, |log'|, o, s);
    } else {
      StillLapsed(log, CleanUp(now, alive), validity, o, s);
    }
  }

  lemma StaysIff(objects: map<ObjectId, Tracking>, validity: Validity, alive: set<ObjectId>, now: Time,
                 o: ObjectId, s: SensorId)
    requires TrackedBy(objects, o, s)
    ensures TrackedBy(Updated(objects, validity, alive, now), o, s)
            <==> o in alive && objects[o].sensors[s].last + validity(s) >= now
  {
    if o in alive && objects[o].sensors[s].last + validity(s) >= now {
      assert s in Refreshed(objects[o], validity, now).sensors;
    }
  }

  class LocalEnvironmentModel {
    const validity: Validity
    var objects: map<ObjectId, Tracking>
    var trackingCounter: nat

    /** All detections and clean-ups, every pair's latest detection, the objects that have ceased to
      * exist, the IDs issued so far in order, and the time of the last operation. */
    ghost var log: seq<Entry>
    ghost var latest: Detections
    ghost var dead: set<ObjectId>
    ghost var issued: seq<ObjectId>
    ghost var clock: Time

    ghost predicate Valid()
      reads this
    {
      && Mirrors(objects, latest, validity, dead, clock)
      && Logged(objects, log, validity, clock)
      && Numbered(objects, issued) && |issued| == trackingCounter
    }

    constructor (validity: Validity, now: Time)
      ensures Valid() && objects == map[] && trackingCounter == 0 && this.validity == validity
      ensures log == [] && latest == map[] && dead == {} && issued == [] && clock == now
    {
      this.validity := validity;
      objects, trackingCounter := map[], 0;
      log, latest, dead, issued, clock := [], map[], {}, [], now;
    }

    /** Enters the objects a sensor detects now. A pair that is tracked already keeps the time it was
      * first seen, any other is first seen now. */
    method ComplementObjects(now: Time, detected: seq<ObjectId>, sensor: SensorId)
      requires Valid() && clock <= now
      modifies this
      ensures Valid() && clock == now && dead == old(dead) && old(issued) <= issued
      ensures log == old(log) + seq(|detected|, n requires 0 <= n < |detected| => Detection(detected[n], sensor, now))
      ensures forall o, s :: o in objects && s in objects[o].sensors <==>
                (o in old(objects) && s in old(objects)[o].sensors) || (o in detected && s == sensor)
      ensures forall o, s :: o in objects && s in objects[o].sensors ==>
                objects[o].sensors[s] ==
                if o in old(objects) && s in old(objects)[o].sensors
                then old(objects)[o].sensors[s].(last :=
                       if o in detected && s == sensor then now else old(objects)[o].sensors[s].last)
                else TrackingTime(now, now)
      ensures forall o, s :: (o, s) in latest <==> (o, s) in old(latest) || (o in detected && s == sensor)
      ensures forall o, s :: (o, s) in latest ==>
                latest[(o, s)] == if o in detected && s == sensor then now else old(latest)[(o, s)]
      ensures forall o :: o in objects <==> o in old(objects) || o in detected
      ensures forall o :: o in old(objects) ==> objects[o].id == old(objects)[o].id
      ensures forall o :: o in objects && o !in old(objects) ==> objects[o].id > |old(issued)|
      ensures IdsKept(old(objects), |old(issued)|, objects)
    {
      hide Mirrors, Numbered, Logged, Complemented, Detected, Stamped, TrackedBy;
      LaterMirrors(objects, latest, validity, dead, clock, now);
      LaterLogged(objects, log, validity, clock, now);
      clock := now;
      ComplementedMeans(objects, objects, [], sensor, now);
      StampedMeans(latest, latest, [], sensor, now);
      for n := 0 to |detected|
        invariant Valid() && clock == now && dead == old(dead) && old(issued) <= issued
        invariant log == old(log) + seq(n, i requires 0 <= i < n => Detection(detected[i], sensor, now))
        invariant Stamped(old(latest), latest, detected[..n], sensor, now)
        invariant Complemented(old(objects), objects, detected[..n], sensor, now)
        invariant forall o :: o in objects && o !in old(objects) ==> objects[o].id > |old(issued)|
      {
        DetectedComplements(old(objects), objects, detected[..n], detected[n], sensor, |issued| + 1, now);
        StampedMore(old(latest), latest, detected[..n], detected[n], sensor, now);
        Detect(now, detected[n], sensor);
        assert detected[..n + 1] == detected[..n] + [detected[n]];
      }
      assert detected[..|detected|] == detected;
      ComplementedMeans(old(objects), objects, detected, sensor, now);
      StampedMeans(old(latest), latest, detected, sensor, now);
    }

    /** A detected object that is not tracked yet gets the next tracking ID. */
    method Detect(now: Time, found: ObjectId, sensor: SensorId)
      requires Valid() && clock == now
      modifies this
      ensures Valid() && clock == now && dead == old(dead)
      ensures issued == if found in old(objects) then old(issued) else old(issued) + [found]
      ensures latest == old(latest)[(found, sensor) := now]
      ensures log == old(log) + [Detection(found, sensor, now)]
      ensures objects == Detected(old(objects), found, sensor, |old(issued)| + 1, now)
    {
      hide Mirrors, Logged;
      DetectedMirrors(objects, latest, validity, dead, found, sensor, trackingCounter + 1, now);
      DetectedLogged(objects, log, validity, found, sensor, trackingCounter + 1, now);
      if found in objects {
        objects := objects[found := Tap(objects[found], sensor, now)];
      } else {
        trackingCounter := trackingCounter + 1;
        objects := objects[found := Tracking(trackingCounter, map[sensor := TrackingTime(now, now)])];
        issued := issued + [found];
      }
      latest := latest[(found, sensor) := now];
      log := log + [Detection(found, sensor, now)];
    }

    /** Drops what is no longer valid, and objects that do not exist any more. */
    method Update(now: Time, alive: set<ObjectId>)
      requires Valid() && clock <= now && alive !! dead
      modifies this
      ensures Valid() && clock == now && latest == old(latest) && issued == old(issued)
      ensures log == old(log) + [CleanUp(now, alive)]
      ensures objects == Updated(old(objects), validity, alive, now)
      ensures IdsKept(old(objects), |old(issued)|, objects)
      ensures forall o :: o in objects <==>
                o in alive && exists s :: (o, s) in latest && latest[(o, s)] + validity(s) >= now
      ensures forall o, s :: o in objects && s in objects[o].sensors <==>
                o in alive && (o, s) in latest && latest[(o, s)] + validity(s) >= now
      ensures forall o, s :: o in objects && s in objects[o].sensors ==>
                && o in old(objects) && s in old(objects)[o].sensors
                && objects[o].sensors[s] == old(objects)[o].sensors[s]
    {
      hide Mirrors, Logged, Updated;
      UpdatedExactly(objects, latest, validity, dead, alive, clock, now);
      UpdatedLogged(objects, log, validity, alive, clock, now);
      log := log + [CleanUp(now, alive)];
      dead := dead + (set o | o in objects && o !in alive);
      clock := now;
      DropObjects(now, alive);
    }

    method DropObjects(now: Time, alive: set<ObjectId>)
      modifies this`objects
      ensures objects == Updated(old(objects), validity, alive, now)
    {
      hide Refreshed;
      ghost var target := Updated(objects, validity, alive, now);
      var todo := objects.Keys;
      while todo != {}
        invariant todo <= objects.Keys <= old(objects).Keys
        invariant forall o :: o in old(objects) && o in todo ==> o in objects && objects[o] == old(objects)[o]
        invariant forall o :: o in old(objects) && o !in todo ==>
          (o in objects <==> o in target) && (o in target ==> objects[o] == target[o])
        decreases |todo|
      {
        var o :| o in todo;
        var tracking := Refresh(objects[o], now);
        objects := objects[o := tracking];
        if o !in alive || tracking.sensors == map[] {
          objects := objects - {o};
        }
        todo := todo - {o};
      }
      assert objects == target;
    }

    method Refresh(t: Tracking, now: Time) returns (r: Tracking)
      ensures r == Refreshed(t, validity, now) && r.id == t.id
      ensures forall s :: s in r.sensors <==> s in t.sensors && t.sensors[s].last + validity(s) >= now
      ensures forall s :: s in r.sensors ==> r.sensors[s] == t.sensors[s]
    {
      r := t;
      var todo := t.sensors.Keys;
      while todo != {}
        invariant todo <= r.sensors.Keys <= t.sensors.Keys && r.id == t.id
        invariant forall s :: s in r.sensors ==> r.sensors[s] == t.sensors[s]
        invariant forall s :: s in t.sensors && s !in todo ==>
          (s in r.sensors <==> t.sensors[s].last + validity(s) >= now)
        decreases |todo|
      {
        var s :| s in todo;
        if r.sensors[s].last + validity(s) < now {
          r := r.(sensors := r.sensors - {s});
        }
        todo := todo - {s};
      }
    }
  }
}
