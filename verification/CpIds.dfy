/** Collective perception identifiers as values: what one request for an object ID or a
  * sensor ID may answer, and what follows for every run of requests. The rules are those of
  * ETSI TS 103 324: random IDs, hold-off before reuse, reset on pseudonym change.
  */
module CpIds {
  import opened Moments

  /** Identifier of a tracked object in the local environment model. */
  type LemId = nat

  const OBJECT_ID_SPACE: nat := 65536
  const INVALID_LEM_ID: LemId := 0xFFFF_FFFF

  const NEVER_USED: Time := -SECOND

  /** A retention period counts in whole milliseconds, and never negatively. */
  function WholeMilliseconds(period: Time): (r: Time)
    ensures 0 <= r && r % 1000 == 0 && (period >= 0 ==> r <= period < r + 1000)
    ensures r > 0 <==> period >= 1000
  {
    if period >= MILLISECOND then period / MILLISECOND * MILLISECOND else 0
  }

  /** The object ID tables. `historyOf` names, for each ID with an inclusion history, the
    * object that history was recorded for. */
  datatype Table = Table(
    lem2Cps: map<LemId, nat>,
    cps2Lem: seq<LemId>,
    lastUsed: seq<Time>,
    historyOf: map<nat, LemId>)

  predicate Sized(t: Table) {
    && |t.cps2Lem| == |t.lastUsed| == OBJECT_ID_SPACE
    && (forall l :: l in t.lem2Cps ==> t.lem2Cps[l] < OBJECT_ID_SPACE)
  }

  /** Nothing is bound yet. */
  function Initial(): Table {
    Table(map[], seq(OBJECT_ID_SPACE, _ => INVALID_LEM_ID), seq(OBJECT_ID_SPACE, _ => NEVER_USED), map[])
  }

  /** An ID that has never been used, or not for the retention period. */
  predicate Free(lastUsed: seq<Time>, retention: Time, now: Time, id: nat) {
    && id < |lastUsed|
    && (lastUsed[id] == NEVER_USED || (now >= lastUsed[id] && now - lastUsed[id] >= retention))
  }

  /** An ID is searched for: the first of 1024 random draws that is free, otherwise the lowest one
    * that is free. */
  ghost predicate Searched(lastUsed: seq<Time>, retention: Time, now: Time, draws: nat -> nat, found: Option<nat>) {
    match found
    case Some(id) =>
      && Free(lastUsed, retention, now, id)
      && (|| (exists k: nat :: k < 1024 && id == draws(k)
                 && forall j: nat :: j < k ==> !Free(lastUsed, retention, now, draws(j)))
          || (&& (forall k: nat :: k < 1024 ==> !Free(lastUsed, retention, now, draws(k)))
              && (forall c: nat :: c < id ==> !Free(lastUsed, retention, now, c))))
    case None => forall c: nat :: c < |lastUsed| ==> !Free(lastUsed, retention, now, c)
  }

  /** The object has a consistent mapping that is not idle for too long. */
  predicate Live(t: Table, retention: Time, now: Time, lem: LemId)
    requires Sized(t)
  {
    && lem in t.lem2Cps
    && var cps := t.lem2Cps[lem];
       && t.cps2Lem[cps] == lem
       && (|| t.lastUsed[cps] == NEVER_USED
           || (now >= t.lastUsed[cps] && now - t.lastUsed[cps] < retention))
  }

  /** `cps` becomes the ID of `lem`; what the reverse table says about `cps` is forgotten. */
  function Bind(t: Table, now: Time, lem: LemId, cps: nat): Table
    requires Sized(t) && cps < OBJECT_ID_SPACE
  {
    var bound := t.cps2Lem[cps] != INVALID_LEM_ID;
    Table(
      (if bound then t.lem2Cps - {t.cps2Lem[cps]} else t.lem2Cps)[lem := cps],
      t.cps2Lem[cps := lem],
      t.lastUsed[cps := now],
      if bound then t.historyOf - {cps} else t.historyOf)
  }

  /** What a request may do, whatever the random probes drew. */
  ghost predicate Allocated(t: Table, retention: Time, now: Time, lem: LemId, answer: Option<nat>, t': Table)
    requires Sized(t)
  {
    if Live(t, retention, now, lem) then
      && answer == Some(t.lem2Cps[lem])
      && t' == t.(lastUsed := t.lastUsed[t.lem2Cps[lem] := now])
    else match answer
      case Some(cps) =>
        cps < OBJECT_ID_SPACE && Free(t.lastUsed, retention, now, cps) && t' == Bind(t, now, lem, cps)
      case None =>
        t' == t && forall cps :: 0 <= cps < OBJECT_ID_SPACE ==> !Free(t.lastUsed, retention, now, cps)
  }

  /** A pseudonym change forgets the bindings and histories, not when IDs were last used. */
  function Reset(t: Table): Table {
    t.(lem2Cps := map[], cps2Lem := seq(OBJECT_ID_SPACE, _ => INVALID_LEM_ID), historyOf := map[])
  }

  /** An inclusion history is stored under the ID of an object just issued. */
  function Record(t: Table, lem: LemId, cps: nat): Table {
    t.(historyOf := t.historyOf[cps := lem])
  }

  // ------------------------------------------------------------------ invariant

  /** The forward table always agrees with the reverse table. The converse does not hold:
    * a reverse entry may be stale. */
  ghost predicate Consistent(t: Table, clock: Time) {
    && Sized(t)
    && (forall l :: l in t.lem2Cps ==> l != INVALID_LEM_ID && t.cps2Lem[t.lem2Cps[l]] == l)
    && (forall c :: 0 <= c < OBJECT_ID_SPACE ==> t.lastUsed[c] == NEVER_USED || 0 <= t.lastUsed[c] <= clock)
    && (forall c :: 0 <= c < OBJECT_ID_SPACE && t.cps2Lem[c] != INVALID_LEM_ID ==> t.lastUsed[c] != NEVER_USED)
  }

  /** Every inclusion history was recorded for the object its ID is bound to. */
  ghost predicate HistoriesOwned(t: Table)
    requires Sized(t)
  {
    forall c :: c in t.historyOf ==>
      c < OBJECT_ID_SPACE && t.historyOf[c] != INVALID_LEM_ID && t.cps2Lem[c] == t.historyOf[c]
  }

  /** No two objects have the same ID, so the warning branch about an inconsistent mapping is
    * never taken. */
  lemma ForwardInjective(t: Table, clock: Time, l: LemId, m: LemId)
    requires Consistent(t, clock) && l in t.lem2Cps && m in t.lem2Cps
    ensures t.cps2Lem[t.lem2Cps[l]] == l
    ensures t.lem2Cps[l] == t.lem2Cps[m] ==> l == m
  {
  }

  lemma RequestConsistent(t: Table, retention: Time, clock: Time, now: Time, lem: LemId,
                          answer: Option<nat>, t': Table)
    requires Consistent(t, clock) && 0 <= clock <= now && lem != INVALID_LEM_ID
    requires Allocated(t, retention, now, lem, answer, t')
    ensures Consistent(t', now)
    ensures HistoriesOwned(t) ==> HistoriesOwned(t')
    ensures answer.Some? ==> answer.value < OBJECT_ID_SPACE && t'.lastUsed[answer.value] == now
                             && lem in t'.lem2Cps && t'.lem2Cps[lem] == answer.value
  {
  }

  /** A request fails exactly if the object has no entry in the forward table and every ID is in
    * hold-off; one whose own mapping has expired never fails. */
  lemma FailsIff(t: Table, retention: Time, clock: Time, now: Time, lem: LemId,
                 answer: Option<nat>, t': Table)
    requires Consistent(t, clock) && 0 <= clock <= now && lem != INVALID_LEM_ID
    requires Allocated(t, retention, now, lem, answer, t')
    ensures answer.None? <==>
            && lem !in t.lem2Cps
            && forall c :: 0 <= c < 65536 ==> 0 <= t.lastUsed[c] && now < t.lastUsed[c] + retention
  {
    if lem in t.lem2Cps && !Live(t, retention, now, lem) {
      assert Free(t.lastUsed, retention, now, t.lem2Cps[lem]);
    }
    if answer.None? {
      forall c | 0 <= c < OBJECT_ID_SPACE
        ensures 0 <= t.lastUsed[c] && now < t.lastUsed[c] + retention
      {
        assert !Free(t.lastUsed, retention, now, c);
      }
    }
  }

  /** An object that has an ID is certain to get it again, whatever the probes draw, exactly if the ID
    * was used less than the retention period ago or no other ID is free. */
  lemma ReusedIff(t: Table, retention: Time, clock: Time, now: Time, lem: LemId)
    requires Consistent(t, clock) && 0 <= clock <= now && lem in t.lem2Cps
    ensures (forall answer, t' :: Allocated(t, retention, now, lem, answer, t') ==> answer == Some(t.lem2Cps[lem]))
            <==> (|| now < t.lastUsed[t.lem2Cps[lem]] + retention
                  || forall c :: 0 <= c < 65536 && c != t.lem2Cps[lem] ==>
                       0 <= t.lastUsed[c] && now < t.lastUsed[c] + retention)
  {
    var own := t.lem2Cps[lem];
    assert t.cps2Lem[own] == lem;
    if c: nat :| c < OBJECT_ID_SPACE && c != own && Free(t.lastUsed, retention, now, c) && !Live(t, retention, now, lem) {
      assert Allocated(t, retention, now, lem, Some(c), Bind(t, now, lem, c));
    } else if !Live(t, retention, now, lem) {
      assert Free(t.lastUsed, retention, now, own);
      forall c | 0 <= c < OBJECT_ID_SPACE && c != own ensures 0 <= t.lastUsed[c] && now < t.lastUsed[c] + retention {
        assert !Free(t.lastUsed, retention, now, c);
      }
    }
  }
}
