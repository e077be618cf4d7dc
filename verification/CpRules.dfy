/** The inclusion rules over runs of messages: what a receiver of the messages can rely on. Only what
  * messages carried and what was perceived is compared, not the histories in between. */
module CpRules {
  import opened Moments
  import opened CpIds
  import opened CpSelection

  ghost predicate DistinctIds(objects: seq<Perceived>) {
    forall i, j :: 0 <= i < j < |objects| ==> objects[i].cps != objects[j].cps
  }

  /** The message carries the object with index `i`. */
  ghost predicate Carried(c: Context, objects: seq<Perceived>, i: nat) {
    i in Chosen(c, objects, |objects|)
  }

  lemma {:induction false} RecordedMeans(histories: map<nat, History>, objects: seq<Perceived>,
                                         s: seq<nat>, now: Time, k: nat)
    requires forall n :: 0 <= n < |s| ==> s[n] < |objects|
    requires DistinctIds(objects) && k < |s|
    ensures var po := objects[s[k]];
            && po.cps in Recorded(histories, objects, s, now)
            && Recorded(histories, objects, s, now)[po.cps] == History(now, po.position, po.speed, po.heading)
  {
    var front := s[..|s| - 1];
    if k < |s| - 1 {
      RecordedMeans(histories, objects, front, now, k);
      assert objects[front[k]] == objects[s[k]];
    }
  }

  lemma {:induction false} AfterCarried(c: Context, objects: seq<Perceived>, i: nat)
    requires DistinctIds(objects) && i < |objects| && Carried(c, objects, i)
    ensures Sent(c, objects, objects[i].cps) && objects[i].cps in After(c, objects)
    ensures After(c, objects)[objects[i].cps]
         == History(c.now, objects[i].position, objects[i].speed, objects[i].heading)
  {
    var s := Chosen(c, objects, |objects|);
    var k :| 0 <= k < |s| && s[k] == i;
    RecordedMeans(c.histories, objects, s, c.now, k);
  }

  lemma {:induction false} SentIsCarried(c: Context, objects: seq<Perceived>, i: nat)
    requires DistinctIds(objects) && i < |objects|
    ensures Sent(c, objects, objects[i].cps) <==> Carried(c, objects, i)
  {
    hide Chosen;
  }

  /** Message `a` carries the object with index `i` under an ID that no message between `a` and `k`
    * carries; the history of that ID has not been dropped. */
  ghost predicate LastCarried(contexts: seq<Context>, objects: seq<seq<Perceived>>, a: nat, i: nat, k: nat)
    requires a < k < |contexts| == |objects|
  {
    && DistinctIds(objects[a]) && i < |objects[a]| && Carried(contexts[a], objects[a], i)
    && (forall m :: a < m < k ==> !Sent(contexts[m], objects[m], objects[a][i].cps))
    && (forall m :: a < m <= k ==> objects[a][i].cps in contexts[m].histories)
  }

  /** Then message `k` compares with exactly what message `a` carried. */
  lemma {:induction false} ComparedWith(config: Config, contexts: seq<Context>, objects: seq<seq<Perceived>>,
                                        a: nat, i: nat, k: nat)
    requires Messages(config, contexts, objects) && a < k < |contexts|
    requires LastCarried(contexts, objects, a, i, k)
    ensures contexts[k].lastCpm == contexts[k - 1].now && contexts[k].config == config
    ensures var po := objects[a][i];
            && po.cps in contexts[k].histories
            && contexts[k].histories[po.cps] == History(contexts[a].now, po.position, po.speed, po.heading)
  {
    hide Sent, After, Carried;
    var cps := objects[a][i].cps;
    assert Follows(contexts[k - 1], objects[k - 1], contexts[k]);
    if a < k - 1 {
      ComparedWith(config, contexts, objects, a, i, k - 1);
      AfterSent(contexts[k - 1], objects[k - 1], cps);
    } else {
      AfterCarried(contexts[a], objects[a], i);
    }
  }

  /** A type B object that was last carried by message `a` is in message `k` exactly if it is above the
    * gate and appeared since the last message, or has moved, changed its speed or turned by enough
    * since message `a`, or that was the maximum interval ago. */
  lemma {:induction false} CarriedAgainIff(config: Config, contexts: seq<Context>, objects: seq<seq<Perceived>>,
                                           a: nat, i: nat, k: nat, j: nat)
    requires Messages(config, contexts, objects) && a < k < |contexts|
    requires LastCarried(contexts, objects, a, i, k)
    requires j < |objects[k]| && objects[k][j].cps == objects[a][i].cps && objects[k][j].kind == TypeB
    ensures Carried(contexts[k], objects[k], j) <==>
            var former, present := objects[a][i], objects[k][j];
            && present.quality as real > config.qualityThreshold
            && (|| present.ageMs * 1000 < contexts[k].now - contexts[k - 1].now
                || config.distance(present.position, former.position) > 100.0 * config.minPositionChange
                || present.speed - former.speed > config.minSpeedChange
                || former.speed - present.speed > config.minSpeedChange
                || present.heading - former.heading >= config.minHeadingChange
                || former.heading - present.heading >= config.minHeadingChange
                || contexts[k].now - contexts[a].now >= config.genCpmMax)
  {
    hide Chosen;
    ComparedWith(config, contexts, objects, a, i, k);
    ChosenExactly(contexts[k], objects[k], j);
  }

  // ------------------------------------------------------------------ bounded staleness

  /** From message `a` to message `b` the object at `at[k]` has one ID, is of type B and above the gate. */
  ghost predicate Tracked(config: Config, objects: seq<seq<Perceived>>, a: nat, b: nat, at: seq<nat>, cps: nat)
    requires a <= b < |objects| == |at|
  {
    forall k :: a <= k <= b ==>
      && DistinctIds(objects[k]) && at[k] < |objects[k]|
      && objects[k][at[k]].cps == cps && objects[k][at[k]].kind == TypeB
      && objects[k][at[k]].quality as real > config.qualityThreshold
  }

  /** What receivers know of the object after message `k` is from message `m` and close enough. */
  ghost predicate CloseTo(config: Config, contexts: seq<Context>, objects: seq<seq<Perceived>>, at: seq<nat>, m: nat, k: nat)
    requires m <= k < |objects| == |at| == |contexts|
    requires at[m] < |objects[m]| && at[k] < |objects[k]|
  {
    var former, present := objects[m][at[m]], objects[k][at[k]];
    && config.distance(present.position, former.position) <= 100.0 * config.minPositionChange
    && -config.minSpeedChange <= present.speed - former.speed <= config.minSpeedChange
    && -config.minHeadingChange < present.heading - former.heading < config.minHeadingChange
    && contexts[k].now - contexts[m].now < config.genCpmMax
  }

  /** The last message up to `k` that carried the object. */
  ghost predicate LatestCarrier(contexts: seq<Context>, objects: seq<seq<Perceived>>, at: seq<nat>, m: nat, k: nat, cps: nat)
    requires m <= k < |objects| == |at| == |contexts|
  {
    && Carried(contexts[m], objects[m], at[m])
    && forall n :: m < n <= k ==> !Sent(contexts[n], objects[n], cps)
  }

  lemma {:induction false} NotCarriedIsClose(config: Config, contexts: seq<Context>, objects: seq<seq<Perceived>>,
                                             a: nat, b: nat, at: seq<nat>, cps: nat, m: nat)
    requires Messages(config, contexts, objects) && a <= m < b < |contexts| == |at|
    requires Tracked(config, objects, a, b, at, cps) && LatestCarrier(contexts, objects, at, m, b, cps)
    requires !Carried(contexts[b], objects[b], at[b])
    ensures at[m] < |objects[m]| && at[b] < |objects[b]| && CloseTo(config, contexts, objects, at, m, b)
    ensures objects[b][at[b]].ageMs * 1000 >= contexts[b].now - contexts[b - 1].now
    ensures cps in contexts[b].histories
  {
    hide Chosen, Carried, Sent, Messages;
    HistoriesSince(config, contexts, objects, a, b, at, cps, m);
    CarriedAgainIff(config, contexts, objects, m, at[m], b, at[b]);
  }

  /** Bounded staleness: once carried, an object of type B in sight above the gate is never far from
    * what the last message that carried it says. Either the present message carries it, or its
    * position, speed and heading are within the thresholds of that message, which is younger than the
    * maximum interval; and the object did not appear since the message before. */
  lemma {:induction false} BoundedStaleness(config: Config, contexts: seq<Context>, objects: seq<seq<Perceived>>,
                                            a: nat, b: nat, at: seq<nat>, cps: nat) returns (m: nat)
    requires Messages(config, contexts, objects) && a <= b < |contexts| == |at|
    requires Tracked(config, objects, a, b, at, cps) && Carried(contexts[a], objects[a], at[a])
    ensures a <= m <= b && LatestCarrier(contexts, objects, at, m, b, cps)
    ensures m < b ==>
              && CloseTo(config, contexts, objects, at, m, b)
              && objects[b][at[b]].ageMs * 1000 >= contexts[b].now - contexts[b - 1].now
              && cps in contexts[b].histories
  {
    hide Chosen, Carried, Sent, CloseTo, Follows, DistinctIds;
    SentIsCarried(contexts[b], objects[b], at[b]);
    if Carried(contexts[b], objects[b], at[b]) {
      m := b;
    } else {
      m := BoundedStaleness(config, contexts, objects, a, b - 1, at, cps);
      NotCarriedIsClose(config, contexts, objects, a, b, at, cps, m);
    }
  }

  /** An object that is tracked and not carried has a history. */
  lemma {:induction false} HistoriesSince(config: Config, contexts: seq<Context>, objects: seq<seq<Perceived>>,
                                          a: nat, b: nat, at: seq<nat>, cps: nat, m: nat)
    requires Messages(config, contexts, objects) && a <= m < b < |contexts| == |at|
    requires Tracked(config, objects, a, b, at, cps) && LatestCarrier(contexts, objects, at, m, b, cps)
    ensures LastCarried(contexts, objects, m, at[m], b)
  {
    hide Chosen, Carried, Sent;
    forall k | m < k <= b ensures cps in contexts[k].histories {
      assert InSight(config, objects[k], cps, TypeB);
      UnsentHasHistory(contexts[k], objects[k], cps, TypeB);
    }
  }

  // ------------------------------------------------------------------ type A

  /** Whether a type A object, last carried by message `a`, calls for all type A objects of message `k`:
    * exactly if it appeared since the last message or message `a` was half the maximum interval ago. */
  lemma {:induction false} CallsIff(config: Config, contexts: seq<Context>, objects: seq<seq<Perceived>>,
                                    a: nat, i: nat, k: nat, j: nat)
    requires Messages(config, contexts, objects) && a < k < |contexts|
    requires LastCarried(contexts, objects, a, i, k)
    requires j < |objects[k]| && objects[k][j].cps == objects[a][i].cps && objects[k][j].kind == TypeA
    ensures CallsTypeA(contexts[k], objects[k][j]) <==>
            || objects[k][j].ageMs * 1000 < contexts[k].now - contexts[k - 1].now
            || contexts[k].now - contexts[a].now >= config.genCpmMax / 2
  {
    hide Chosen;
    ComparedWith(config, contexts, objects, a, i, k);
  }
}
