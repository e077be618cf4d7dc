/** Which perceived objects go into a collective perception message (section 6.1.2 of ETSI
  * TS 103 324), and in which order. */
module CpSelection {
  import opened Moments
  import opened CpIds

  datatype ObjectType = Unknown | TypeA | TypeB

  datatype Point = Point(x: int, y: int)

  /** A perceived object as captured for this message. Position in centimetres, age in
    * milliseconds, speed in metres per second, heading in degrees. */
  datatype Perceived = Perceived(
    lem: LemId,
    cps: nat,
    position: Point,
    ageMs: int,
    quality: int,
    speed: real,
    heading: real,
    kind: ObjectType)

  datatype History = History(inclusion: Time, position: Point, speed: real, heading: real)

  /** Parameters of the service. The Euclidean distance between two points is left abstract. */
  datatype Config = Config(
    genCpmMax: Time,
    qualityThreshold: real,
    minPositionChange: real,
    minSpeedChange: real,
    minHeadingChange: real,
    distance: (Point, Point) -> real)

  /** What the rules compare an object with. */
  datatype Context = Context(
    config: Config,
    histories: map<nat, History>,
    now: Time,
    lastCpm: Time)

  function Abs(x: real): real { if x < 0.0 then -x else x }

  /** Detected after the last message was generated. */
  predicate NewlyDetected(c: Context, po: Perceived) {
    po.ageMs * MILLISECOND < c.now - c.lastCpm
  }

  /** A type A object that makes every type A object go into the message. */
  predicate CallsTypeA(c: Context, po: Perceived) {
    && po.kind == TypeA
    && (|| NewlyDetected(c, po)
        || (po.cps in c.histories && c.now - c.histories[po.cps].inclusion >= c.config.genCpmMax / 2))
  }

  /** Rules 2a to 2e for a type B object that has been included before. */
  predicate TypeBTriggered(c: Context, po: Perceived)
    requires po.cps in c.histories
  {
    var history := c.histories[po.cps];
    || NewlyDetected(c, po)
    || c.config.distance(po.position, history.position) / 100.0 > c.config.minPositionChange
    || Abs(po.speed - history.speed) > c.config.minSpeedChange
    || Abs(po.heading - history.heading) >= c.config.minHeadingChange
    || c.now - history.inclusion >= c.config.genCpmMax
  }

  /** The declarative rule set: a quality gate, type A objects all or none, type B objects by
    * their own rules, objects of unknown type never. */
  predicate Included(c: Context, objects: seq<Perceived>, po: Perceived) {
    && po.quality as real > c.config.qualityThreshold
    && match po.kind
       case Unknown => false
       case TypeA => exists i :: 0 <= i < |objects| && CallsTypeA(c, objects[i])
       case TypeB => po.cps !in c.histories || TypeBTriggered(c, po)
  }

  /** The first `n` indices whose objects the rules include, in order. */
  function Chosen(c: Context, objects: seq<Perceived>, n: nat): (s: seq<nat>)
    requires n <= |objects|
    ensures forall k :: 0 <= k < |s| ==> s[k] < n && Included(c, objects, objects[s[k]])
    ensures forall i :: 0 <= i < n && Included(c, objects, objects[i]) ==> i in s
    ensures forall j, k :: 0 <= j < k < |s| ==> s[j] < s[k]
  {
    if n == 0 then []
    else if Included(c, objects, objects[n - 1]) then Chosen(c, objects, n - 1) + [n - 1]
    else Chosen(c, objects, n - 1)
  }

  lemma ChosenStep(c: Context, objects: seq<Perceived>, n: nat)
    requires n <= |objects|
    ensures Chosen(c, objects, n) ==
            if n == 0 then []
            else if Included(c, objects, objects[n - 1]) then Chosen(c, objects, n - 1) + [n - 1]
            else Chosen(c, objects, n - 1)
  {
  }

  lemma ChosenIncluded(c: Context, objects: seq<Perceived>, i: nat)
    ensures i in Chosen(c, objects, |objects|) <==> i < |objects| && Included(c, objects, objects[i])
  {
  }

  lemma CallsMeans(c: Context, objects: seq<Perceived>)
    ensures (exists j :: 0 <= j < |objects| && CallsTypeA(c, objects[j])) <==>
            exists j :: 0 <= j < |objects| && objects[j].kind == TypeA
                        && (|| objects[j].ageMs * 1000 < c.now - c.lastCpm
                            || (objects[j].cps in c.histories
                                && c.now - c.histories[objects[j].cps].inclusion >= c.config.genCpmMax / 2))
  {
    if j :| 0 <= j < |objects| && CallsTypeA(c, objects[j]) {
      assert objects[j].kind == TypeA;
    }
    forall j | 0 <= j < |objects| && objects[j].kind == TypeA
               && (|| objects[j].ageMs * 1000 < c.now - c.lastCpm
                   || (objects[j].cps in c.histories
                       && c.now - c.histories[objects[j].cps].inclusion >= c.config.genCpmMax / 2))
      ensures CallsTypeA(c, objects[j])
    {
    }
  }

  lemma IncludedMeans(c: Context, objects: seq<Perceived>, po: Perceived)
    ensures Included(c, objects, po) <==>
            && po.quality as real > c.config.qualityThreshold
            && (|| (po.kind == TypeA && exists j :: 0 <= j < |objects| && CallsTypeA(c, objects[j]))
                || (po.kind == TypeB
                    && (|| po.cps !in c.histories
                        || po.ageMs * 1000 < c.now - c.lastCpm
                        || c.config.distance(po.position, c.histories[po.cps].position) > 100.0 * c.config.minPositionChange
                        || po.speed - c.histories[po.cps].speed > c.config.minSpeedChange
                        || c.histories[po.cps].speed - po.speed > c.config.minSpeedChange
                        || po.heading - c.histories[po.cps].heading >= c.config.minHeadingChange
                        || c.histories[po.cps].heading - po.heading >= c.config.minHeadingChange
                        || c.now - c.histories[po.cps].inclusion >= c.config.genCpmMax)))
  {
    hide CallsTypeA;
  }

  /** The rules, spelled out. The selection is duplicate-free; an object is in it exactly if it is above
    * the quality gate and, for type A, some type A object is younger than the last message or was
    * included at least half the maximum interval ago, for type B, it has no history, is younger than
    * the last message, moved, sped up or slowed down, or turned by enough since its last inclusion, or
    * that was the maximum interval ago. */
  lemma ChosenExactly(c: Context, objects: seq<Perceived>, i: nat)
    ensures multiset(Chosen(c, objects, |objects|))[i] <= 1
    ensures i in Chosen(c, objects, |objects|) <==>
            && i < |objects|
            && var po := objects[i];
               && po.quality as real > c.config.qualityThreshold
               && (|| (po.kind == TypeA
                       && exists j :: 0 <= j < |objects| && objects[j].kind == TypeA
                                      && (|| objects[j].ageMs * 1000 < c.now - c.lastCpm
                                          || (objects[j].cps in c.histories
                                              && c.now - c.histories[objects[j].cps].inclusion >= c.config.genCpmMax / 2)))
                   || (po.kind == TypeB
                       && (|| po.cps !in c.histories
                           || po.ageMs * 1000 < c.now - c.lastCpm
                           || c.config.distance(po.position, c.histories[po.cps].position)
                              > 100.0 * c.config.minPositionChange
                           || po.speed - c.histories[po.cps].speed > c.config.minSpeedChange
                           || c.histories[po.cps].speed - po.speed > c.config.minSpeedChange
                           || po.heading - c.histories[po.cps].heading >= c.config.minHeadingChange
                           || c.histories[po.cps].heading - po.heading >= c.config.minHeadingChange
                           || c.now - c.histories[po.cps].inclusion >= c.config.genCpmMax)))
  {
    DuplicateFree(Chosen(c, objects, |objects|), i);
    hide Included, CallsTypeA, Chosen;
    ChosenIncluded(c, objects, i);
    CallsMeans(c, objects);
    if i < |objects| {
      IncludedMeans(c, objects, objects[i]);
    }
  }

  lemma {:induction false} DuplicateFree(s: seq<nat>, i: nat)
    requires forall j, k :: 0 <= j < k < |s| ==> s[j] < s[k]
    ensures multiset(s)[i] <= 1
  {
    if s != [] {
      assert s == s[..|s| - 1] + [s[|s| - 1]];
      DuplicateFree(s[..|s| - 1], i);
      if s[|s| - 1] == i {
        assert i !in s[..|s| - 1];
      }
    }
  }

  /** Every selected object is recorded as included now. */
  function Recorded(histories: map<nat, History>, objects: seq<Perceived>, s: seq<nat>, now: Time)
      : (h: map<nat, History>)
    requires forall k :: 0 <= k < |s| ==> s[k] < |objects|
    ensures forall k :: 0 <= k < |s| ==> objects[s[k]].cps in h && h[objects[s[k]].cps].inclusion == now
    ensures forall c :: c in h ==> (c in histories && h[c] == histories[c])
                                   || (h[c].inclusion == now && exists k :: 0 <= k < |s| && objects[s[k]].cps == c)
    ensures forall c :: c in histories ==> c in h
  {
    if s == [] then histories
    else
      var po := objects[s[|s| - 1]];
      Recorded(histories, objects, s[..|s| - 1], now)
        [po.cps := History(now, po.position, po.speed, po.heading)]
  }

  lemma ChosenNone(c: Context, objects: seq<Perceived>, histories: map<nat, History>)
    requires |objects| == 0 || Chosen(c, objects, |objects|) == []
    ensures Chosen(c, objects, |objects|) == []
    ensures Recorded(histories, objects, [], c.now) == histories
  {
  }

  lemma RecordedNone(histories: map<nat, History>, objects: seq<Perceived>, now: Time)
    ensures Recorded(histories, objects, [], now) == histories
  {
  }

  lemma RecordedOne(histories: map<nat, History>, objects: seq<Perceived>, s: seq<nat>, i: nat, now: Time)
    requires i < |objects| && forall k :: 0 <= k < |s| ==> s[k] < |objects|
    ensures Recorded(histories, objects, s + [i], now)
         == Recorded(histories, objects, s, now)
              [objects[i].cps := History(now, objects[i].position, objects[i].speed, objects[i].heading)]
  {
    assert (s + [i])[..|s|] == s;
  }

  /** After a message, a type B object above the quality gate that is in sight was included
    * less than the maximum interval ago. So if messages are at most `d` apart, it is included
    * again within the maximum interval plus `d`. */
  lemma TypeBIncludedInTime(c: Context, objects: seq<Perceived>, i: nat)
    requires i < |objects| && objects[i].kind == TypeB && c.config.genCpmMax > 0
    requires objects[i].quality as real > c.config.qualityThreshold
    ensures var after := Recorded(c.histories, objects, Chosen(c, objects, |objects|), c.now);
            && objects[i].cps in after
            && c.now - after[objects[i].cps].inclusion < c.config.genCpmMax
  {
  }

  /** Every type B object in sight above the gate was included less than the maximum interval
    * ago. */
  ghost predicate RecentlyIncluded(config: Config, objects: seq<Perceived>, histories: map<nat, History>, now: Time) {
    forall i :: 0 <= i < |objects| && objects[i].kind == TypeB
                && objects[i].quality as real > config.qualityThreshold ==>
      && objects[i].cps in histories
      && now - histories[objects[i].cps].inclusion < config.genCpmMax
  }

  lemma AllTypeBIncludedInTime(c: Context, objects: seq<Perceived>)
    requires c.config.genCpmMax > 0
    ensures RecentlyIncluded(c.config, objects, After(c, objects), c.now)
  {
    forall i | 0 <= i < |objects| && objects[i].kind == TypeB
               && objects[i].quality as real > c.config.qualityThreshold
      ensures var after := Recorded(c.histories, objects, Chosen(c, objects, |objects|), c.now);
              && objects[i].cps in after
              && c.now - after[objects[i].cps].inclusion < c.config.genCpmMax
    {
      TypeBIncludedInTime(c, objects, i);
    }
  }

  /** The same for a type A object that has been included before, with half the interval. */
  lemma TypeAIncludedInTime(c: Context, objects: seq<Perceived>, i: nat)
    requires i < |objects| && objects[i].kind == TypeA && c.config.genCpmMax >= 2
    requires objects[i].quality as real > c.config.qualityThreshold
    requires objects[i].cps in c.histories
    ensures var after := Recorded(c.histories, objects, Chosen(c, objects, |objects|), c.now);
            && objects[i].cps in after
            && c.now - after[objects[i].cps].inclusion < c.config.genCpmMax / 2
  {
    var s := Chosen(c, objects, |objects|);
    if Included(c, objects, objects[i]) {
      var k :| 0 <= k < |s| && s[k] == i;
      assert objects[s[k]] == objects[i];
    } else {
      assert !CallsTypeA(c, objects[i]);
    }
  }

  // ------------------------------------------------------------------ runs of messages

  /** Messages generated one after the other, with what each perceived and the histories it
    * found. Between two messages a history may be dropped, when its ID changes hands, but
    * not altered. */
  ghost predicate Messages(config: Config, contexts: seq<Context>, objects: seq<seq<Perceived>>) {
    && |contexts| == |objects|
    && (forall k :: 0 <= k < |contexts| ==> contexts[k].config == config)
    && (forall k :: 0 < k < |contexts| ==> Follows(contexts[k - 1], objects[k - 1], contexts[k]))
  }

  ghost predicate Follows(c: Context, objects: seq<Perceived>, next: Context) {
    next.lastCpm == c.now <= next.now && Thinned(After(c, objects), next.histories)
  }

  /** Some histories may be gone, none has changed. */
  ghost predicate Thinned(histories: map<nat, History>, histories': map<nat, History>) {
    forall cps :: cps in histories' ==> cps in histories && histories'[cps] == histories[cps]
  }

  ghost function After(c: Context, objects: seq<Perceived>): map<nat, History> {
    Recorded(c.histories, objects, Chosen(c, objects, |objects|), c.now)
  }

  lemma NextMessage(config: Config, contexts: seq<Context>, objects: seq<seq<Perceived>>,
                    c: Context, seen: seq<Perceived>)
    requires Messages(config, contexts, objects) && c.config == config
    requires contexts != [] ==> Follows(contexts[|contexts| - 1], objects[|contexts| - 1], c)
    ensures Messages(config, contexts + [c], objects + [seen])
  {
    hide Follows;
    var contexts', objects' := contexts + [c], objects + [seen];
    forall k | 0 < k < |contexts'| ensures Follows(contexts'[k - 1], objects'[k - 1], contexts'[k]) {
      assert contexts'[k - 1] == contexts[k - 1] && objects'[k - 1] == objects[k - 1];
    }
  }

  /** An object in sight in message `k` under ID `cps`, above the quality gate. */
  ghost predicate InSight(config: Config, objects: seq<Perceived>, cps: nat, kind: ObjectType) {
    exists i :: 0 <= i < |objects| && objects[i].cps == cps && objects[i].kind == kind
                && objects[i].quality as real > config.qualityThreshold
  }

  ghost predicate Sent(c: Context, objects: seq<Perceived>, cps: nat) {
    exists i :: i in Chosen(c, objects, |objects|) && i < |objects| && objects[i].cps == cps
  }

  /** Re-inclusion: for messages at most `d` apart, take an object that is in message `a`, in
    * sight from then on under the same ID, and again in message `b` but in none in between.
    * Then `b` comes less than the maximum interval plus `d` after `a`; for a type A object
    * that keeps its history it is half the maximum interval plus `d`. */
  lemma IncludedAgain(config: Config, contexts: seq<Context>, objects: seq<seq<Perceived>>,
                      d: Time, a: nat, b: nat, cps: nat, kind: ObjectType)
    requires Messages(config, contexts, objects) && config.genCpmMax >= 2
    requires kind != Unknown && a < b < |contexts|
    requires forall k :: a < k <= b ==> contexts[k].now - contexts[k - 1].now <= d
    requires forall k :: a < k <= b ==> InSight(config, objects[k], cps, kind)
    requires kind == TypeA ==> forall k :: a < k < b ==> cps in contexts[k].histories
    requires Sent(contexts[a], objects[a], cps)
    requires forall k :: a < k < b ==> !Sent(contexts[k], objects[k], cps)
    ensures contexts[b].now - contexts[a].now <
            (if kind == TypeA then config.genCpmMax / 2 else config.genCpmMax) + d
  {
    hide Chosen, Recorded, Included, Sent;
    forall k | a < k < b ensures cps in contexts[k].histories {
      UnsentHasHistory(contexts[k], objects[k], cps, kind);
    }
    StillFrom(config, contexts, objects, a, b - 1, cps);
    if b - 1 > a {
      var k := b - 1;
      var i :| 0 <= i < |objects[k]| && objects[k][i].cps == cps && objects[k][i].kind == kind
               && objects[k][i].quality as real > config.qualityThreshold;
      if kind == TypeA {
        TypeAIncludedInTime(contexts[k], objects[k], i);
      } else {
        TypeBIncludedInTime(contexts[k], objects[k], i);
      }
    }
  }

  lemma UnsentHasHistory(c: Context, objects: seq<Perceived>, cps: nat, kind: ObjectType)
    requires InSight(c.config, objects, cps, kind) && !Sent(c, objects, cps)
    ensures kind == TypeB ==> cps in c.histories
  {
  }

  /** A message stamps the histories of what it carries and leaves the others alone. */
  lemma AfterSent(c: Context, objects: seq<Perceived>, cps: nat)
    ensures Sent(c, objects, cps) ==> cps in After(c, objects) && After(c, objects)[cps].inclusion == c.now
    ensures !Sent(c, objects, cps) && cps in c.histories ==>
              cps in After(c, objects) && After(c, objects)[cps] == c.histories[cps]
  {
  }

  /** As long as it is not sent again, an object's history stays that of message `a`. */
  lemma {:induction false} StillFrom(config: Config, contexts: seq<Context>, objects: seq<seq<Perceived>>,
                                     a: nat, k: nat, cps: nat)
    requires Messages(config, contexts, objects) && a <= k < |contexts|
    requires Sent(contexts[a], objects[a], cps)
    requires forall m :: a < m <= k ==> !Sent(contexts[m], objects[m], cps) && cps in contexts[m].histories
    ensures cps in After(contexts[k], objects[k])
    ensures After(contexts[k], objects[k])[cps].inclusion == contexts[a].now
  {
    hide Sent, After;
    AfterSent(contexts[k], objects[k], cps);
    if k > a {
      StillFrom(config, contexts, objects, a, k - 1, cps);
      assert Follows(contexts[k - 1], objects[k - 1], contexts[k]);
    }
  }

  // ------------------------------------------------------------------ type A objects that wait

  /** Some type A object of the message is new or was included long enough ago. */
  ghost predicate Called(c: Context, objects: seq<Perceived>) {
    exists i :: 0 <= i < |objects| && objects[i].kind == TypeA
                && (|| objects[i].ageMs * 1000 < c.now - c.lastCpm
                    || (objects[i].cps in c.histories
                        && c.now - c.histories[objects[i].cps].inclusion >= c.config.genCpmMax / 2))
  }

  /** In each message from `a` to `b` the object at `at[k]` is of type A and above the gate. */
  ghost predicate Eligible(config: Config, objects: seq<seq<Perceived>>, a: nat, b: nat, at: seq<nat>)
    requires a <= b < |objects| == |at|
  {
    forall k :: a <= k <= b ==>
      && at[k] < |objects[k]| && objects[k][at[k]].kind == TypeA
      && objects[k][at[k]].quality as real > config.qualityThreshold
  }

  ghost predicate InNone(contexts: seq<Context>, objects: seq<seq<Perceived>>, a: nat, b: nat, at: seq<nat>)
    requires a <= b < |objects| == |at| == |contexts|
  {
    forall k :: a <= k <= b ==> at[k] !in Chosen(contexts[k], objects[k], |objects[k]|)
  }

  /** Unlike a type B object, a type A object without history has no guarantee: over any run of
    * messages, one above the gate and in sight throughout is in none of them exactly if none of
    * them has a type A object that calls. */
  lemma TypeAWaits(config: Config, contexts: seq<Context>, objects: seq<seq<Perceived>>, a: nat, b: nat, at: seq<nat>)
    requires Messages(config, contexts, objects) && a <= b < |objects| == |at|
    requires Eligible(config, objects, a, b, at)
    ensures InNone(contexts, objects, a, b, at) <==>
            forall k :: a <= k <= b ==> !Called(contexts[k], objects[k])
  {
    hide Chosen, CallsTypeA;
    forall k | a <= k <= b
      ensures at[k] in Chosen(contexts[k], objects[k], |objects[k]|) <==> Called(contexts[k], objects[k])
    {
      ChosenExactly(contexts[k], objects[k], at[k]);
    }
  }

  /** No history is stored under the ID of a type A object of these messages. */
  ghost predicate NoHistory(c: Context, objects: seq<seq<Perceived>>, a: nat, b: nat)
    requires a <= b < |objects|
  {
    forall k, i :: a <= k <= b && 0 <= i < |objects[k]| && objects[k][i].kind == TypeA ==>
      objects[k][i].cps !in c.histories
  }

  /** Over these messages an ID stands for objects of one kind. */
  ghost predicate KindsKept(objects: seq<seq<Perceived>>, a: nat, b: nat)
    requires a <= b < |objects|
  {
    forall j, k, m, i :: a <= j <= b && a <= k <= b && 0 <= m < |objects[j]| && 0 <= i < |objects[k]|
                         && objects[j][m].cps == objects[k][i].cps ==>
      objects[j][m].kind == objects[k][i].kind
  }

  ghost predicate NoneNew(contexts: seq<Context>, objects: seq<seq<Perceived>>, a: nat, b: nat)
    requires a <= b < |objects| == |contexts|
  {
    forall k, i :: a <= k <= b && 0 <= i < |objects[k]| && objects[k][i].kind == TypeA ==>
      objects[k][i].ageMs * 1000 >= contexts[k].now - contexts[k].lastCpm
  }

  /** While no type A object is new none gets a history. */
  lemma {:induction false} StillNoHistory(config: Config, contexts: seq<Context>, objects: seq<seq<Perceived>>,
                                          a: nat, b: nat, n: nat)
    requires Messages(config, contexts, objects) && a <= n <= b < |objects|
    requires NoHistory(contexts[a], objects, a, b) && KindsKept(objects, a, b)
    requires NoneNew(contexts, objects, a, b)
    ensures NoHistory(contexts[n], objects, a, b) && !Called(contexts[n], objects[n])
  {
    if n > a {
      var m: nat := n - 1;
      StillNoHistory(config, contexts, objects, a, b, m);
      assert Follows(contexts[m], objects[m], contexts[n]);
      forall k, i | a <= k <= b && 0 <= i < |objects[k]| && objects[k][i].kind == TypeA
        ensures objects[k][i].cps !in contexts[n].histories
      {
        OnlyOtherKinds(contexts[m], objects[m], objects[k][i].cps);
      }
    }
  }

  lemma OnlyOtherKinds(c: Context, objects: seq<Perceived>, cps: nat)
    requires !Called(c, objects) && cps !in c.histories
    requires forall i :: 0 <= i < |objects| && objects[i].cps == cps ==> objects[i].kind == TypeA
    ensures cps !in After(c, objects)
  {
    var s := Chosen(c, objects, |objects|);
    forall k | 0 <= k < |s| ensures objects[s[k]].cps != cps {
      assert Included(c, objects, objects[s[k]]);
    }
  }

  /** The way in: once no type A object has a history, as after a pseudonym change, those above the
    * gate are left out exactly until some type A object is newly detected. */
  lemma WaitsUntilDetected(config: Config, contexts: seq<Context>, objects: seq<seq<Perceived>>,
                           a: nat, b: nat, at: seq<nat>)
    requires Messages(config, contexts, objects) && a <= b < |objects| == |at|
    requires Eligible(config, objects, a, b, at)
    requires NoHistory(contexts[a], objects, a, b) && KindsKept(objects, a, b)
    ensures InNone(contexts, objects, a, b, at) <==> NoneNew(contexts, objects, a, b)
  {
    hide InNone, Chosen;
    TypeAWaits(config, contexts, objects, a, b, at);
    if NoneNew(contexts, objects, a, b) {
      forall k | a <= k <= b ensures !Called(contexts[k], objects[k]) {
        StillNoHistory(config, contexts, objects, a, b, k);
      }
    } else {
      var k, i :| a <= k <= b && 0 <= i < |objects[k]| && objects[k][i].kind == TypeA
                  && objects[k][i].ageMs * 1000 < contexts[k].now - contexts[k].lastCpm;
      assert Called(contexts[k], objects[k]);
    }
  }

  /** Ages are clamped to this many milliseconds. */
  const MAX_AGE_MS: int := 2047

  /** Messages `d` apart, starting without histories, that all perceive the object with ID `cps` as
    * a type A object above the gate and none of which carries it. */
  ghost predicate Waiting(config: Config, contexts: seq<Context>, objects: seq<seq<Perceived>>, d: Time,
                          lem: LemId, cps: nat)
  {
    && Messages(config, contexts, objects) && contexts != [] && contexts[0].histories == map[]
    && (forall k :: 0 <= k < |contexts| ==> contexts[k].now - contexts[k].lastCpm == d)
    && (forall k :: 0 <= k < |objects| ==>
          && InSight(config, objects[k], cps, TypeA) && !Sent(contexts[k], objects[k], cps)
          && forall i :: 0 <= i < |objects[k]| ==>
               0 <= objects[k][i].ageMs <= MAX_AGE_MS && (objects[k][i].cps == cps ==> objects[k][i].lem == lem))
  }

  /** An object can wait for any number of messages exactly if these are at most the greatest age
    * apart; with a larger distance every object counts as newly detected in each of them. */
  lemma WaitsForEver(config: Config, n: nat, d: Time, lem: LemId, cps: nat)
    requires n > 0 && d >= 0
    ensures (exists contexts, objects :: |contexts| == n && Waiting(config, contexts, objects, d, lem, cps))
            <==> d <= MAX_AGE_MS * MILLISECOND
  {
    if d <= MAX_AGE_MS * MILLISECOND {
      WaitingRun(config, n, d, lem, cps);
    } else {
      forall contexts: seq<Context>, objects: seq<seq<Perceived>> | |contexts| == n && Messages(config, contexts, objects)
        ensures !Waiting(config, contexts, objects, d, lem, cps)
      {
        if InSight(config, objects[0], cps, TypeA) && contexts[0].now - contexts[0].lastCpm == d
           && forall i :: 0 <= i < |objects[0]| ==> objects[0][i].ageMs <= MAX_AGE_MS
        {
          AllNewAfterPause(contexts[0], objects[0], cps);
        }
      }
    }
  }

  lemma AllNewAfterPause(c: Context, objects: seq<Perceived>, cps: nat)
    requires InSight(c.config, objects, cps, TypeA) && c.now - c.lastCpm > MAX_AGE_MS * MILLISECOND
    requires forall i :: 0 <= i < |objects| ==> objects[i].ageMs <= MAX_AGE_MS
    ensures Sent(c, objects, cps)
  {
    var i :| 0 <= i < |objects| && objects[i].cps == cps && objects[i].kind == TypeA
             && objects[i].quality as real > c.config.qualityThreshold;
    assert CallsTypeA(c, objects[i]);
    ChosenExactly(c, objects, i);
  }

  lemma WaitingRun(config: Config, n: nat, d: Time, lem: LemId, cps: nat)
    requires n > 0 && 0 <= d <= MAX_AGE_MS * MILLISECOND
    ensures exists contexts, objects :: |contexts| == n && Waiting(config, contexts, objects, d, lem, cps)
  {
    var po := Perceived(lem, cps, Point(0, 0), MAX_AGE_MS, config.qualityThreshold.Floor + 1, 0.0, 0.0, TypeA);
    var contexts: seq<Context> := seq(n, (k: nat) => Context(config, map[], (k + 1) * d, k * d));
    var objects: seq<seq<Perceived>> := seq(n, _ => [po]);
    forall k | 0 <= k < n
      ensures contexts[k].now - contexts[k].lastCpm == d
      ensures Chosen(contexts[k], [po], 1) == [] && After(contexts[k], [po]) == map[]
    {
      assert (k + 1) * d - k * d == d;
      assert [po][0] == po;
      ChosenStep(contexts[k], [po], 1);
      ChosenStep(contexts[k], [po], 0);
    }
    forall k | 0 < k < n ensures Follows(contexts[k - 1], objects[k - 1], contexts[k]) {
      assert (k - 1 + 1) * d == k * d;
    }
    forall k | 0 <= k < n ensures InSight(config, objects[k], cps, TypeA) && !Sent(contexts[k], objects[k], cps) {
      assert objects[k][0] == po;
    }
    assert Waiting(config, contexts, objects, d, lem, cps);
  }
}
