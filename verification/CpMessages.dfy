/** What happens to one tracked object over consecutive messages, from its ID to its inclusion. Each
  * message is a span of the run of the ID tables and a message of the run of selections. */
module CpMessages {
  import opened Moments
  import opened CpIds
  import opened CpIdRuns
  import opened CpCycles
  import opened CpSelection

  /** The operations of a message: IDs are requested from `start`, histories stored from `mark` on. */
  datatype Span = Span(start: nat, mark: nat, end: nat)

  /** The tracked object `l` was given ID `cps` in these operations. */
  ghost predicate Given(ops: seq<Op>, a: nat, b: nat, l: LemId, cps: nat)
    requires a <= b <= |ops|
  {
    exists k :: a <= k < b && ops[k].Request? && ops[k].lem == l && ops[k].answer == Some(cps)
  }

  /** The span's requests gave the perceived objects their IDs, and the tables have histories for
    * the same IDs as the selection, before and after it. */
  ghost predicate Spans(states: seq<Ledger>, ops: seq<Op>, s: Span, c: Context, seen: seq<Perceived>) {
    && |states| == |ops| + 1
    && s.start <= s.mark <= s.end <= |ops|
    && Cycle(ops, s.start, s.end, c.now)
    && states[s.mark].table.historyOf.Keys == c.histories.Keys
    && states[s.end].table.historyOf.Keys == After(c, seen).Keys
    && (forall i :: 0 <= i < |seen| ==> Given(ops, s.start, s.end, seen[i].lem, seen[i].cps))
  }

  ghost predicate Log(states: seq<Ledger>, ops: seq<Op>, spans: seq<Span>, contexts: seq<Context>,
                      seen: seq<seq<Perceived>>)
  {
    && |spans| == |contexts| == |seen|
    && forall k :: 0 <= k < |spans| ==> Spans(states, ops, spans[k], contexts[k], seen[k])
  }

  /** A log of a run is one of the longer run. */
  lemma {:induction false} LogGoesOn(states: seq<Ledger>, ops: seq<Op>, states': seq<Ledger>, ops': seq<Op>,
                  spans: seq<Span>, contexts: seq<Context>, seen: seq<seq<Perceived>>)
    requires Log(states, ops, spans, contexts, seen)
    requires states <= states' && ops <= ops' && |states'| == |ops'| + 1
    ensures Log(states', ops', spans, contexts, seen)
  {
    hide After;
    forall k | 0 <= k < |spans| ensures Spans(states', ops', spans[k], contexts[k], seen[k]) {
      var s := spans[k];
      assert Spans(states, ops, s, contexts[k], seen[k]);
      forall i | 0 <= i < |seen[k]| ensures Given(ops', s.start, s.end, seen[k][i].lem, seen[k][i].cps) {
        var j :| s.start <= j < s.end && ops[j].Request? && ops[j].lem == seen[k][i].lem
                 && ops[j].answer == Some(seen[k][i].cps);
        assert ops'[j] == ops[j];
      }
    }
  }

  lemma {:induction false} NextSpan(states: seq<Ledger>, ops: seq<Op>, spans: seq<Span>, contexts: seq<Context>,
                                    seen: seq<seq<Perceived>>, s: Span, c: Context, objects: seq<Perceived>)
    requires Log(states, ops, spans, contexts, seen) && Spans(states, ops, s, c, objects)
    ensures Log(states, ops, spans + [s], contexts + [c], seen + [objects])
  {
    hide Spans;
    forall k | 0 <= k < |spans| + 1
      ensures Spans(states, ops, (spans + [s])[k], (contexts + [c])[k], (seen + [objects])[k])
    {
      if k < |spans| {
        assert Spans(states, ops, spans[k], contexts[k], seen[k]);
      }
    }
  }

  // ------------------------------------------------------------------ one object

  /** Messages `a` to `b` follow each other without a pseudonym change, less than the retention
    * period apart, and each asks for an ID of `l`, which has had none before. */
  ghost predicate Follow(retention: Time, states: seq<Ledger>, ops: seq<Op>, spans: seq<Span>, contexts: seq<Context>,
                         a: nat, b: nat, l: LemId)
    requires |states| == |ops| + 1 && |spans| == |contexts| && a <= b < |spans|
    requires forall k :: 0 <= k < |spans| ==> spans[k].start <= spans[k].mark <= spans[k].end <= |ops|
  {
    && retention > 0 && l != INVALID_LEM_ID
    && Sized(states[spans[a].start].table) && CpIdRuns.Unknown(states[spans[a].start].table, l)
    && (forall k :: a <= k <= b ==> Asked(ops, l, spans[k].start, spans[k].end))
    && (forall k :: a < k <= b ==>
          spans[k - 1].end == spans[k].start && contexts[k].now < contexts[k - 1].now + retention)
  }

  /** So the object is kept fresh from the first message to the last. */
  lemma {:induction false} KeptFreshThroughout(retention: Time, states: seq<Ledger>, ops: seq<Op>, spans: seq<Span>,
                                               contexts: seq<Context>, seen: seq<seq<Perceived>>, a: nat, b: nat, l: LemId)
    requires Run(retention, states, ops) && Log(states, ops, spans, contexts, seen) && a <= b < |spans|
    requires Follow(retention, states, ops, spans, contexts, a, b, l)
    ensures spans[a].start <= spans[b].start <= spans[b].end <= |ops|
    ensures KeptFresh(retention, ops, l, spans[a].start, spans[b].end)
    ensures LastSeen(ops, l, spans[a].start, spans[b].end).Some? ==>
              LastSeen(ops, l, spans[a].start, spans[b].end) == Some(contexts[b].now)
  {
    hide Run, CpIdRuns.Unknown, Sized, KeptFresh, Asked, After, Given;
    var from := spans[a].start;
    assert Spans(states, ops, spans[b], contexts[b], seen[b]);
    if a < b {
      KeptFreshThroughout(retention, states, ops, spans, contexts, seen, a, b - 1, l);
    } else {
      NothingYet(retention, ops, l, from);
    }
    FreshWithin(retention, states, ops, l, from, spans[b].start, spans[b].end, spans[b].end, contexts[b].now);
  }

  lemma {:induction false} NothingYet(retention: Time, ops: seq<Op>, l: LemId, from: nat)
    requires from <= |ops|
    ensures KeptFresh(retention, ops, l, from, from) && LastSeen(ops, l, from, from) == None
  {
  }

  lemma {:induction false} StartsGrow(spans: seq<Span>, a: nat, b: nat)
    requires a <= b < |spans|
    requires forall k :: a <= k <= b ==> spans[k].start <= spans[k].end
    requires forall k :: a < k <= b ==> spans[k - 1].end == spans[k].start
    ensures forall k :: a <= k <= b ==> spans[a].start <= spans[k].start <= spans[k].end <= spans[b].end
  {
    if a < b {
      StartsGrow(spans, a, b - 1);
    }
  }

  /** Only losing its ID costs an object its history. */
  lemma {:induction false} NextKeepsHistory(retention: Time, s: Ledger, op: Op, s': Ledger, l: LemId, c: nat, t: Time)
    requires Next(retention, s, op, s') && Sound(retention, s) && retention > 0
    requires Has(s, l, c, t) && t >= 0 && !op.PseudonymChange?
    requires op.Request? ==> op.now < t + retention
    requires c in s.table.historyOf
    ensures c in s'.table.historyOf
  {
  }

  lemma {:induction false} KeepsHistory(retention: Time, states: seq<Ledger>, ops: seq<Op>, l: LemId,
                                        from: nat, i: nat, j: nat, c: nat)
    requires Run(retention, states, ops) && from <= i <= j <= |ops| && l != INVALID_LEM_ID && retention > 0
    requires Sized(states[from].table) && CpIdRuns.Unknown(states[from].table, l)
    requires KeptFresh(retention, ops, l, from, j) && FirstId(ops, l, from, i) == Some(c)
    requires c in states[i].table.historyOf
    ensures c in states[j].table.historyOf
  {
    if i < j {
      hide CpIdRuns.Unknown, Has, Sound, FirstId, LastSeen;
      var m: nat := j - 1;
      KeepsHistory(retention, states, ops, l, from, i, m, c);
      FirstIdKept(ops, l, from, i, m);
      FreshState(retention, states, ops, l, from, m);
      RunSound(retention, states, ops, m);
      assert Next(retention, states[m], ops[m], states[j]);
      NextKeepsHistory(retention, states[m], ops[m], states[j], l, c, LastSeen(ops, l, from, m).value);
    }
  }

  /** What is known of the object with entry `i` of message `m`: its ID is its first one, and the
    * history stored under it goes on to the next message. */
  lemma {:induction false} SeenUnderFirstId(retention: Time, states: seq<Ledger>, ops: seq<Op>, spans: seq<Span>,
                         contexts: seq<Context>, seen: seq<seq<Perceived>>, a: nat, b: nat, l: LemId, m: nat, i: nat)
    requires Run(retention, states, ops) && Log(states, ops, spans, contexts, seen)
    requires a <= m <= b < |spans|
    requires Follow(retention, states, ops, spans, contexts, a, b, l)
    requires i < |seen[m]| && seen[m][i].lem == l
    ensures spans[a].start <= spans[m].end <= spans[b].end <= |ops|
    ensures FirstId(ops, l, spans[a].start, spans[m].end) == Some(seen[m][i].cps)
    ensures FirstId(ops, l, spans[a].start, spans[b].end) == Some(seen[m][i].cps)
  {
    hide CpIdRuns.Unknown, After, Asked, Run, FirstId, KeptFresh, Sized;
    KeptFreshThroughout(retention, states, ops, spans, contexts, seen, a, b, l);
    KeptFreshThroughout(retention, states, ops, spans, contexts, seen, a, m, l);
    StartsGrow(spans, a, b);
    var s := spans[m];
    assert Spans(states, ops, s, contexts[m], seen[m]);
    var k :| s.start <= k < s.end && ops[k].Request? && ops[k].lem == l && ops[k].answer == Some(seen[m][i].cps);
    GivenIsFirst(retention, states, ops, l, spans[a].start, k, s.end);
    GivenIsFirst(retention, states, ops, l, spans[a].start, k, spans[b].end);
  }

  /** An object has one ID in all messages it is perceived in. */
  lemma {:induction false} OneId(retention: Time, states: seq<Ledger>, ops: seq<Op>, spans: seq<Span>,
              contexts: seq<Context>, seen: seq<seq<Perceived>>, a: nat, b: nat, l: LemId,
              m: nat, i: nat, n: nat, j: nat)
    requires Run(retention, states, ops) && Log(states, ops, spans, contexts, seen)
    requires a <= m <= b < |spans| && a <= n <= b
    requires Follow(retention, states, ops, spans, contexts, a, b, l)
    requires i < |seen[m]| && seen[m][i].lem == l && j < |seen[n]| && seen[n][j].lem == l
    ensures seen[m][i].cps == seen[n][j].cps
  {
    hide *;
    SeenUnderFirstId(retention, states, ops, spans, contexts, seen, a, b, l, m, i);
    SeenUnderFirstId(retention, states, ops, spans, contexts, seen, a, b, l, n, j);
  }

  /** Within a message an ID stands for one object. */
  lemma {:induction false} OneObject(retention: Time, states: seq<Ledger>, ops: seq<Op>, s: Span, c: Context,
                                     seen: seq<Perceived>, i: nat, j: nat)
    requires Run(retention, states, ops) && Spans(states, ops, s, c, seen) && retention > 0
    requires i < |seen| && j < |seen| && seen[i].cps == seen[j].cps
    ensures seen[i].lem == seen[j].lem
  {
    hide Run, After;
    var k :| s.start <= k < s.end && ops[k].Request? && ops[k].lem == seen[i].lem && ops[k].answer == Some(seen[i].cps);
    var n :| s.start <= n < s.end && ops[n].Request? && ops[n].lem == seen[j].lem && ops[n].answer == Some(seen[j].cps);
    if seen[i].lem != seen[j].lem {
      DistinctInCycle(retention, states, ops, if k < n then k else n, if k < n then n else k);
    }
  }

  /** The tracked object `l` is perceived in a message with this kind, above the quality gate. */
  ghost predicate Perceives(config: Config, seen: seq<Perceived>, l: LemId, kind: ObjectType) {
    exists i :: 0 <= i < |seen| && seen[i].lem == l && seen[i].kind == kind
                && seen[i].quality as real > config.qualityThreshold
  }

  ghost predicate Carries(c: Context, seen: seq<Perceived>, l: LemId) {
    exists i :: i in Chosen(c, seen, |seen|) && i < |seen| && seen[i].lem == l
  }

  /** A message that has a history for the object's ID, or carries the object, leaves one to the next
    * message. */
  lemma {:induction false} HistoryGoesOn(retention: Time, states: seq<Ledger>, ops: seq<Op>, spans: seq<Span>,
                      contexts: seq<Context>, seen: seq<seq<Perceived>>, a: nat, b: nat, l: LemId, m: nat, i: nat)
    requires Run(retention, states, ops) && Log(states, ops, spans, contexts, seen)
    requires a <= m < b < |spans|
    requires Follow(retention, states, ops, spans, contexts, a, b, l)
    requires i < |seen[m]| && seen[m][i].lem == l && seen[m][i].cps in After(contexts[m], seen[m])
    ensures seen[m][i].cps in contexts[m + 1].histories
  {
    hide CpIdRuns.Unknown, After, Asked, Run, FirstId, KeptFresh, Sized;
    SeenUnderFirstId(retention, states, ops, spans, contexts, seen, a, b, l, m, i);
    KeptFreshThroughout(retention, states, ops, spans, contexts, seen, a, b, l);
    StartsGrow(spans, a, b);
    assert Spans(states, ops, spans[m], contexts[m], seen[m]);
    assert Spans(states, ops, spans[m + 1], contexts[m + 1], seen[m + 1]);
    FreshAt(retention, ops, l, spans[a].start, spans[m + 1].mark, spans[b].end);
    KeepsHistory(retention, states, ops, l, spans[a].start, spans[m].end, spans[m + 1].mark, seen[m][i].cps);
  }

  lemma {:induction false} CarriedHasHistory(c: Context, seen: seq<Perceived>, l: LemId, i: nat)
    requires i < |seen| && seen[i].lem == l
    requires forall j :: 0 <= j < |seen| && seen[j].lem == l ==> seen[j].cps == seen[i].cps
    requires Carries(c, seen, l)
    ensures Sent(c, seen, seen[i].cps) && seen[i].cps in After(c, seen)
  {
    hide Chosen;
    var j :| j in Chosen(c, seen, |seen|) && j < |seen| && seen[j].lem == l;
    AfterSent(c, seen, seen[i].cps);
  }

  lemma {:induction false} NotCarriedNotSent(c: Context, seen: seq<Perceived>, l: LemId, cps: nat)
    requires !Carries(c, seen, l)
    requires forall j :: 0 <= j < |seen| && seen[j].cps == cps ==> seen[j].lem == l
    ensures !Sent(c, seen, cps)
  {
    hide Chosen;
  }

  /** The message perceives `l` under ID `c`. */
  ghost predicate Under(seen: seq<Perceived>, l: LemId, c: nat) {
    exists i :: 0 <= i < |seen| && seen[i].lem == l && seen[i].cps == c
  }

  /** From the message that carries the object on, every message has a history for its ID. */
  lemma {:induction false} HistoryFrom(retention: Time, states: seq<Ledger>, ops: seq<Op>, spans: seq<Span>,
                                       contexts: seq<Context>, seen: seq<seq<Perceived>>, first: nat, b: nat, l: LemId,
                                       a: nat, m: nat, c: nat)
    requires Run(retention, states, ops) && Log(states, ops, spans, contexts, seen)
    requires first <= a < m <= b < |spans| && Follow(retention, states, ops, spans, contexts, first, b, l)
    requires forall k :: a <= k < m ==> Under(seen[k], l, c)
    requires c in After(contexts[a], seen[a])
    ensures c in contexts[m].histories
  {
    hide After, Follow, Run, Spans, Under;
    var k: nat := m - 1;
    if a < k {
      HistoryFrom(retention, states, ops, spans, contexts, seen, first, b, l, a, k, c);
      AfterKeeps(contexts[k], seen[k], c);
    }
    UnderMeans(seen[k], l, c);
    var i :| 0 <= i < |seen[k]| && seen[k][i].lem == l && seen[k][i].cps == c;
    HistoryGoesOn(retention, states, ops, spans, contexts, seen, first, b, l, k, i);
  }

  lemma {:induction false} UnderMeans(seen: seq<Perceived>, l: LemId, c: nat)
    ensures Under(seen, l, c) <==> exists i :: 0 <= i < |seen| && seen[i].lem == l && seen[i].cps == c
  {
  }

  lemma {:induction false} AfterKeeps(c: Context, seen: seq<Perceived>, cps: nat)
    requires cps in c.histories
    ensures cps in After(c, seen)
  {
  }

  /** In these messages `l` has no other ID than `c`. */
  ghost predicate OnlyId(seen: seq<seq<Perceived>>, first: nat, b: nat, l: LemId, c: nat)
    requires first <= b < |seen|
  {
    forall m, i :: first <= m <= b && 0 <= i < |seen[m]| && seen[m][i].lem == l ==> seen[m][i].cps == c
  }

  /** Main result. A tracked object is asked for in messages `first` to `b`, which follow each other
    * without a pseudonym change and less than the retention period apart. Then it has one ID in all
    * of them. If message `a` carries it, it stays in sight above the quality gate, and `b` is the
    * next message that carries it, then `b` comes less than the maximum interval (for type A half
    * of it) plus the distance `d` of messages after `a`. */
  lemma {:induction false} IncludedInTime(config: Config, retention: Time, states: seq<Ledger>, ops: seq<Op>,
                                          spans: seq<Span>, contexts: seq<Context>, seen: seq<seq<Perceived>>,
                                          first: nat, a: nat, b: nat, l: LemId, kind: ObjectType, d: Time)
    requires Run(retention, states, ops) && Log(states, ops, spans, contexts, seen)
    requires Messages(config, contexts, seen) && config.genCpmMax >= 2 && kind != ObjectType.Unknown
    requires first <= a < b < |spans| && Follow(retention, states, ops, spans, contexts, first, b, l)
    requires forall k :: a < k <= b ==> contexts[k].now - contexts[k - 1].now <= d
    requires forall k :: a < k <= b ==> Perceives(config, seen[k], l, kind)
    requires Carries(contexts[a], seen[a], l)
    requires forall k :: a < k < b ==> !Carries(contexts[k], seen[k], l)
    ensures exists c :: OnlyId(seen, first, b, l, c)
    ensures contexts[b].now - contexts[a].now <
            (if kind == TypeA then config.genCpmMax / 2 else config.genCpmMax) + d
  {
    hide Run, Follow, Messages, After, Chosen, Sent, Spans;
    var e :| e in Chosen(contexts[a], seen[a], |seen[a]|) && e < |seen[a]| && seen[a][e].lem == l;
    var c := seen[a][e].cps;
    forall m, i | first <= m <= b && 0 <= i < |seen[m]| && seen[m][i].lem == l ensures seen[m][i].cps == c {
      OneId(retention, states, ops, spans, contexts, seen, first, b, l, m, i, a, e);
    }
    assert OnlyId(seen, first, b, l, c);
    CarriedHasHistory(contexts[a], seen[a], l, e);
    forall k | a < k <= b ensures InSight(config, seen[k], c, kind) && Under(seen[k], l, c) {
      assert Perceives(config, seen[k], l, kind);
    }
    forall k | a < k <= b
      ensures k < b ==> !Sent(contexts[k], seen[k], c) && c in contexts[k].histories
    {
      if k < b {
        OnlyOne(retention, states, ops, spans, contexts, seen, first, b, l, k, c);
        NotCarriedNotSent(contexts[k], seen[k], l, c);
        HistoryFrom(retention, states, ops, spans, contexts, seen, first, b, l, a, k, c);
      }
    }
    IncludedAgain(config, contexts, seen, d, a, b, c, kind);
  }

  /** No other object of a message has the ID of `l`. */
  lemma {:induction false} OnlyOne(retention: Time, states: seq<Ledger>, ops: seq<Op>, spans: seq<Span>,
                                   contexts: seq<Context>, seen: seq<seq<Perceived>>, first: nat, b: nat, l: LemId,
                                   k: nat, c: nat)
    requires Run(retention, states, ops) && Log(states, ops, spans, contexts, seen)
    requires first <= k <= b < |spans| && Follow(retention, states, ops, spans, contexts, first, b, l)
    requires Under(seen[k], l, c)
    ensures forall j :: 0 <= j < |seen[k]| && seen[k][j].cps == c ==> seen[k][j].lem == l
  {
    hide Run, After;
    var i :| 0 <= i < |seen[k]| && seen[k][i].lem == l && seen[k][i].cps == c;
    forall j | 0 <= j < |seen[k]| && seen[k][j].cps == c ensures seen[k][j].lem == l {
      OneObject(retention, states, ops, spans[k], contexts[k], seen[k], i, j);
    }
  }

  lemma {:induction false} AfterOne(c: Context, po: Perceived)
    requires po.kind == TypeB && po.quality as real > c.config.qualityThreshold
    ensures After(c, [po]).Keys == c.histories.Keys + {po.cps}
    ensures po.cps !in c.histories ==>
              Carries(c, [po], po.lem)
              && After(c, [po])[po.cps] == History(c.now, po.position, po.speed, po.heading)
  {
    hide Chosen, Recorded;
    ChosenOfOne(c, po);
    if po.cps in c.histories && Chosen(c, [po], 1) == [] {
      RecordedNone(c.histories, [po], c.now);
    } else {
      RecordedOfOne(c.histories, po, c.now);
      assert 0 in Chosen(c, [po], 1);
    }
  }

  lemma {:induction false} ChosenOfOne(c: Context, po: Perceived)
    requires po.kind == TypeB && po.quality as real > c.config.qualityThreshold
    ensures Chosen(c, [po], 1) == [0] || (po.cps in c.histories && Chosen(c, [po], 1) == [])
  {
    hide Included, Chosen;
    ChosenStep(c, [po], 1);
    ChosenStep(c, [po], 0);
    IncludedFirst(c, po);
  }

  lemma {:induction false} RecordedOfOne(histories: map<nat, History>, po: Perceived, now: Time)
    ensures Recorded(histories, [po], [0], now)
         == histories[po.cps := History(now, po.position, po.speed, po.heading)]
  {
    hide Recorded;
    RecordedNone(histories, [po], now);
    RecordedOne(histories, [po], [], 0, now);
    assert [] + [0] == [0];
  }

  lemma {:induction false} IncludedFirst(c: Context, po: Perceived)
    requires po.kind == TypeB && po.quality as real > c.config.qualityThreshold
    ensures po.cps !in c.histories ==> Included(c, [po], po)
  {
  }

  lemma {:induction false} TwoRequests(retention: Time, d: Time, states: seq<Ledger>, ops: seq<Op>)
    requires 0 < d < retention
    requires ops == [Request(0, 1, Some(5)), Store(1), Request(d, 1, Some(5))]
    requires var t1 := Bind(Initial(), 0, 1, 5);
             var t2 := Record(t1, 1, 5);
             states == [Ledger(Initial(), 0, map[]), Ledger(t1, 0, map[1 := 5]), Ledger(t2, 0, map[1 := 5]),
                        Ledger(t2.(lastUsed := t2.lastUsed[5 := d]), d, map[1 := 5])]
    ensures Run(retention, states, ops)
  {
    assert !Live(states[0].table, retention, 0, 1) && Free(states[0].table.lastUsed, retention, 0, 5);
    assert Live(states[2].table, retention, d, 1);
    assert Next(retention, states[0], ops[0], states[1]);
    assert Next(retention, states[1], ops[1], states[2]);
    assert Next(retention, states[2], ops[2], states[3]);
  }

  /** The premises of `IncludedInTime` can be met, for every configuration: two messages `d` apart that
    * both perceive object 1, which the first one carries. */
  lemma {:induction false} PremisesMet(config: Config, retention: Time, d: Time)
    requires 0 < d < retention && config.genCpmMax >= 2
    ensures exists states: seq<Ledger>, ops: seq<Op>, spans: seq<Span>, contexts: seq<Context>, seen: seq<seq<Perceived>> ::
              && Run(retention, states, ops) && Log(states, ops, spans, contexts, seen)
              && Messages(config, contexts, seen) && |spans| == 2
              && Follow(retention, states, ops, spans, contexts, 0, 1, 1)
              && contexts[1].now - contexts[0].now == d
              && Perceives(config, seen[1], 1, TypeB) && Carries(contexts[0], seen[0], 1)
  {
    hide Chosen, Recorded, Run, Next, Live, Free, After, Carries;
    var po := Perceived(1, 5, Point(0, 0), 0, config.qualityThreshold.Floor + 1, 0.0, 0.0, TypeB);
    var h := History(0, Point(0, 0), 0.0, 0.0);
    var c0 := Context(config, map[], 0, 0);
    var c1 := Context(config, map[5 := h], d, 0);
    var seen: seq<seq<Perceived>> := [[po], [po]];
    var t0 := Initial();
    var t1 := Bind(t0, 0, 1, 5);
    var t2 := Record(t1, 1, 5);
    var t3 := t2.(lastUsed := t2.lastUsed[5 := d]);
    var ops := [Request(0, 1, Some(5)), Store(1), Request(d, 1, Some(5))];
    var states := [Ledger(t0, 0, map[]), Ledger(t1, 0, map[1 := 5]), Ledger(t2, 0, map[1 := 5]),
                   Ledger(t3, d, map[1 := 5])];
    var spans := [Span(0, 1, 2), Span(2, 3, 3)];
    var contexts: seq<Context> := [c0, c1];
    AfterOne(c0, po);
    AfterOne(c1, po);
    TwoRequests(retention, d, states, ops);
    assert ops[0].lem == 1 && ops[2].lem == 1;
    assert Given(ops, 0, 2, 1, 5) && Given(ops, 2, 3, 1, 5);
    assert Spans(states, ops, spans[0], c0, [po]);
    assert Spans(states, ops, spans[1], c1, [po]);
    assert Follows(c0, [po], c1);
    assert Messages(config, contexts, seen);
    assert Log(states, ops, spans, contexts, seen);
    assert CpIdRuns.Unknown(states[0].table, 1);
    assert Follow(retention, states, ops, spans, contexts, 0, 1, 1);
    assert [po][0] == po;
  }
}
