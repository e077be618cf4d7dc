/** Runs of the object ID allocator: any sequence of requests, pseudonym changes and stored
  * histories, with time that does not run backwards and arbitrary random draws. */
module CpIdRuns {
  import opened Moments
  import opened CpIds

  /** `cycle` lists the IDs handed out at the current time. */
  datatype Ledger = Ledger(table: Table, clock: Time, cycle: map<LemId, nat>)

  datatype Op =
    | Request(now: Time, lem: LemId, answer: Option<nat>)
    | PseudonymChange(now: Time)
    | Store(lem: LemId)

  ghost predicate Next(retention: Time, s: Ledger, op: Op, s': Ledger) {
    && Sized(s.table)
    && match op
       case Request(now, lem, answer) =>
         && s.clock <= now == s'.clock
         && lem != INVALID_LEM_ID
         && Allocated(s.table, retention, now, lem, answer, s'.table)
         && var cycle := if now == s.clock then s.cycle else map[];
            s'.cycle == if answer.Some? then cycle[lem := answer.value] else cycle
       case PseudonymChange(now) =>
         s.clock <= now && s' == Ledger(Reset(s.table), now, map[])
       case Store(lem) =>
         && lem in s.cycle
         && s' == s.(table := Record(s.table, lem, s.cycle[lem]))
  }

  ghost predicate Run(retention: Time, states: seq<Ledger>, ops: seq<Op>) {
    && |states| == |ops| + 1
    && states[0].table == Initial() && states[0].clock >= 0 && states[0].cycle == map[]
    && forall i :: 0 <= i < |ops| ==> Next(retention, states[i], ops[i], states[i + 1])
  }

  /** The IDs of this cycle are bound to the objects they were handed to. */
  ghost predicate CycleBound(s: Ledger)
    requires Sized(s.table)
  {
    forall l :: l in s.cycle ==>
      && l != INVALID_LEM_ID
      && s.cycle[l] < OBJECT_ID_SPACE
      && s.table.cps2Lem[s.cycle[l]] == l
      && s.table.lastUsed[s.cycle[l]] == s.clock
  }

  ghost predicate Sound(retention: Time, s: Ledger) {
    && 0 <= s.clock && Consistent(s.table, s.clock)
    && (retention > 0 ==> HistoriesOwned(s.table) && CycleBound(s))
  }

  lemma NextSound(retention: Time, s: Ledger, op: Op, s': Ledger)
    requires Next(retention, s, op, s') && Sound(retention, s)
    ensures Sound(retention, s') && s.clock <= s'.clock
  {
    match op
    case Request(now, lem, answer) =>
      RequestConsistent(s.table, retention, s.clock, now, lem, answer, s'.table);
    case PseudonymChange(now) =>
    case Store(lem) =>
  }

  /** In every reachable state the forward table agrees with the reverse table; with a positive
    * retention period every history belongs to the object its ID is bound to. */
  lemma {:induction false} RunSound(retention: Time, states: seq<Ledger>, ops: seq<Op>, i: nat)
    requires Run(retention, states, ops) && i < |states|
    ensures Sound(retention, states[i])
  {
    if i > 0 {
      RunSound(retention, states, ops, i - 1);
      NextSound(retention, states[i - 1], ops[i - 1], states[i]);
    }
  }

  /** With no retention period two objects captured at the same time may get the same ID; the
    * history of the first is then stored under the ID of the second. So a positive retention
    * period is exactly what histories need. */
  lemma HistoriesOwnedIff(retention: Time)
    ensures (forall states: seq<Ledger>, ops: seq<Op>, i: nat :: Run(retention, states, ops) && i < |states| ==>
               Sized(states[i].table) && HistoriesOwned(states[i].table))
            <==> retention > 0
  {
    if retention > 0 {
      forall states: seq<Ledger>, ops: seq<Op>, i: nat | Run(retention, states, ops) && i < |states|
        ensures Sized(states[i].table) && HistoriesOwned(states[i].table)
      {
        RunSound(retention, states, ops, i);
      }
    } else {
      var ops := [Request(0, 1, Some(10)), Request(0, 2, Some(10)), Store(1)];
      var t0 := Initial();
      var t1 := Bind(t0, 0, 1, 10);
      var t2 := Bind(t1, 0, 2, 10);
      var states := [Ledger(t0, 0, map[]), Ledger(t1, 0, map[1 := 10]), Ledger(t2, 0, map[1 := 10, 2 := 10]),
                     Ledger(Record(t2, 1, 10), 0, map[1 := 10, 2 := 10])];
      assert Next(retention, states[0], ops[0], states[1]);
      assert Next(retention, states[1], ops[1], states[2]);
      assert Next(retention, states[2], ops[2], states[3]);
      assert Run(retention, states, ops);
      assert !HistoriesOwned(states[3].table);
    }
  }

  // ------------------------------------------------------------------ hold-off

  /** Since `t`, ID `c` has been with `owner` or nobody, unless the hold-off is over. */
  ghost predicate Guarded(retention: Time, s: Ledger, c: nat, owner: Option<LemId>, t: Time) {
    && Sized(s.table) && c < OBJECT_ID_SPACE
    && s.table.lastUsed[c] != NEVER_USED && t <= s.table.lastUsed[c]
    && (|| s.table.cps2Lem[c] == INVALID_LEM_ID
        || owner == Some(s.table.cps2Lem[c])
        || t + retention <= s.clock)
  }

  lemma NextGuarded(retention: Time, s: Ledger, op: Op, s': Ledger, c: nat, owner: Option<LemId>, t: Time)
    requires Next(retention, s, op, s') && Sound(retention, s) && 0 <= t
    requires Guarded(retention, s, c, owner, t)
    ensures Guarded(retention, s', c, owner, t)
    ensures op.Request? && op.answer == Some(c) && owner != Some(op.lem) ==> t + retention <= op.now
  {
  }

  /** A pseudonym change between the two requests. */
  ghost predicate ChangedBetween(ops: seq<Op>, i: nat, j: nat) {
    exists r :: i < r < j && r < |ops| && ops[r].PseudonymChange?
  }

  lemma {:induction false} GuardedUntil(retention: Time, states: seq<Ledger>, ops: seq<Op>,
                                        i: nat, j: nat, c: nat, owner: Option<LemId>, t: Time)
    requires Run(retention, states, ops) && i <= j < |states| && 0 <= t
    requires Guarded(retention, states[i], c, owner, t)
    ensures Guarded(retention, states[j], c, owner, t)
  {
    if i < j {
      GuardedUntil(retention, states, ops, i, j - 1, c, owner, t);
      RunSound(retention, states, ops, j - 1);
      NextGuarded(retention, states[j - 1], ops[j - 1], states[j], c, owner, t);
    }
  }

  /** Reuse hold-off: in every run an ID given to one object is not given to another one
    * before the retention period is over; after a pseudonym change not even to the same. */
  lemma HoldOff(retention: Time, states: seq<Ledger>, ops: seq<Op>, i: nat, j: nat, c: nat)
    requires Run(retention, states, ops) && i < j < |ops|
    requires ops[i].Request? && ops[i].answer == Some(c)
    requires ops[j].Request? && ops[j].answer == Some(c)
    requires ops[i].lem != ops[j].lem || ChangedBetween(ops, i, j)
    ensures ops[i].now + retention <= ops[j].now
  {
    RunSound(retention, states, ops, i);
    RunSound(retention, states, ops, j);
    RequestConsistent(states[i].table, retention, states[i].clock, ops[i].now, ops[i].lem,
                      ops[i].answer, states[i + 1].table);
    var t := ops[i].now;
    var owner := Some(ops[i].lem);
    assert Next(retention, states[i], ops[i], states[i + 1]);
    RunSound(retention, states, ops, i + 1);
    assert Guarded(retention, states[i + 1], c, owner, t);
    if ops[i].lem == ops[j].lem {
      var r :| i < r < j && ops[r].PseudonymChange?;
      GuardedUntil(retention, states, ops, i + 1, r, c, owner, t);
      assert Next(retention, states[r], ops[r], states[r + 1]);
      owner := None;
      assert Guarded(retention, states[r + 1], c, owner, t);
      GuardedUntil(retention, states, ops, r + 1, j, c, owner, t);
    } else {
      GuardedUntil(retention, states, ops, i + 1, j, c, owner, t);
    }
    NextGuarded(retention, states[j], ops[j], states[j + 1], c, owner, t);
  }

  /** With a positive retention period, IDs handed out at the same time are distinct. */
  lemma DistinctInCycle(retention: Time, states: seq<Ledger>, ops: seq<Op>, i: nat, j: nat)
    requires Run(retention, states, ops) && i < j < |ops| && retention > 0
    requires ops[i].Request? && ops[j].Request? && ops[i].now == ops[j].now
    requires ops[i].lem != ops[j].lem && ops[i].answer.Some?
    ensures ops[i].answer != ops[j].answer
  {
    if ops[i].answer == ops[j].answer {
      HoldOff(retention, states, ops, i, j, ops[i].answer.value);
    }
  }

  // ------------------------------------------------------------------ stability

  /** No reverse entry for `l` but that of its current ID. */
  ghost predicate NoStale(t: Table, l: LemId)
    requires Sized(t)
  {
    forall c :: 0 <= c < OBJECT_ID_SPACE && t.cps2Lem[c] == l ==> l in t.lem2Cps && t.lem2Cps[l] == c
  }

  /** `l` has had no ID since the tables were last cleared. */
  ghost predicate Unknown(t: Table, l: LemId)
    requires Sized(t)
  {
    l !in t.lem2Cps && NoStale(t, l)
  }

  /** `l` has ID `c`, last confirmed at `t`, and left no other trace. */
  ghost predicate Has(s: Ledger, l: LemId, c: nat, t: Time) {
    && Sized(s.table) && NoStale(s.table, l)
    && l in s.table.lem2Cps && s.table.lem2Cps[l] == c
    && s.table.lastUsed[c] == t
  }

  lemma NextHas(retention: Time, s: Ledger, op: Op, s': Ledger, l: LemId, c: nat, t: Time)
    requires Next(retention, s, op, s') && Sound(retention, s)
    requires Has(s, l, c, t) && t >= 0 && !op.PseudonymChange?
    requires op.Request? ==> op.now < t + retention
    ensures if op.Request? && op.lem == l then op.answer == Some(c) && Has(s', l, c, op.now)
            else Has(s', l, c, t)
  {
  }

  lemma NextUnknown(retention: Time, s: Ledger, op: Op, s': Ledger, l: LemId)
    requires Next(retention, s, op, s') && Sound(retention, s) && l != INVALID_LEM_ID
    requires Unknown(s.table, l)
    ensures if op.Request? && op.lem == l && op.answer.Some?
            then Has(s', l, op.answer.value, op.now)
            else Unknown(s'.table, l)
  {
  }

  /** When `l` was last given an ID between `from` and `until`. */
  ghost function LastSeen(ops: seq<Op>, l: LemId, from: nat, until: nat): Option<Time>
    requires from <= until <= |ops|
    decreases until
  {
    if from == until then None
    else if ops[until - 1].Request? && ops[until - 1].lem == l && ops[until - 1].answer.Some?
    then Some(ops[until - 1].now)
    else LastSeen(ops, l, from, until - 1)
  }

  /** `l` is asked for so often that its mapping never becomes idle: every request between
    * `from` and `until`, for whatever object, comes within the retention period after the last
    * one for `l`. That holds for an object that is in every collective perception message
    * from its first to its last sight, when messages are less than the retention period
    * apart. */
  ghost predicate KeptFresh(retention: Time, ops: seq<Op>, l: LemId, from: nat, until: nat)
    requires from <= until <= |ops|
  {
    forall k :: from <= k < until ==>
      && !ops[k].PseudonymChange?
      && (ops[k].Request? && LastSeen(ops, l, from, k).Some? ==>
            ops[k].now < LastSeen(ops, l, from, k).value + retention)
  }

  /** The first ID `l` was given between `from` and `until`. */
  ghost function FirstId(ops: seq<Op>, l: LemId, from: nat, until: nat): Option<nat>
    requires from <= until <= |ops|
    decreases until
  {
    if from == until then None
    else if FirstId(ops, l, from, until - 1).Some? then FirstId(ops, l, from, until - 1)
    else if ops[until - 1].Request? && ops[until - 1].lem == l then ops[until - 1].answer
    else None
  }

  /** What it means for one operation, and for all before it. */
  lemma FreshAt(retention: Time, ops: seq<Op>, l: LemId, from: nat, k: nat, until: nat)
    requires from <= k <= until <= |ops| && KeptFresh(retention, ops, l, from, until)
    ensures KeptFresh(retention, ops, l, from, k)
    ensures k < until ==>
              && !ops[k].PseudonymChange?
              && (ops[k].Request? && LastSeen(ops, l, from, k).Some? ==>
                    ops[k].now < LastSeen(ops, l, from, k).value + retention)
  {
  }

  lemma {:induction false} FreshState(retention: Time, states: seq<Ledger>, ops: seq<Op>,
                                      l: LemId, from: nat, until: nat)
    requires Run(retention, states, ops) && from <= until <= |ops| && l != INVALID_LEM_ID
    requires Sized(states[from].table) && Unknown(states[from].table, l)
    requires KeptFresh(retention, ops, l, from, until)
    ensures FirstId(ops, l, from, until).Some? <==> LastSeen(ops, l, from, until).Some?
    ensures Sized(states[until].table)
    ensures match FirstId(ops, l, from, until)
            case Some(c) => Has(states[until], l, c, LastSeen(ops, l, from, until).value)
                            && LastSeen(ops, l, from, until).value >= 0
            case None => Unknown(states[until].table, l)
  {
    hide Has, NoStale, Next, Sound, Run, KeptFresh, FirstId, LastSeen;
    SightStep(ops, l, from, until);
    if from < until {
      var k: nat := until - 1;
      FreshAt(retention, ops, l, from, k, until);
      FreshState(retention, states, ops, l, from, k);
      RunStep(retention, states, ops, k);
      RunSound(retention, states, ops, k);
      RunSound(retention, states, ops, until);
      SoundMeans(retention, states[k]);
      SoundMeans(retention, states[until]);
      RequestTimes(retention, states[k], ops[k], states[until]);
      var s, op, s' := states[k], ops[k], states[until];
      match FirstId(ops, l, from, k)
      case Some(c) => NextHas(retention, s, op, s', l, c, LastSeen(ops, l, from, k).value);
      case None => NextUnknown(retention, s, op, s', l);
    }
  }

  lemma SoundMeans(retention: Time, s: Ledger)
    requires Sound(retention, s)
    ensures 0 <= s.clock && Sized(s.table)
  {
  }

  lemma RequestTimes(retention: Time, s: Ledger, op: Op, s': Ledger)
    requires Next(retention, s, op, s')
    ensures op.Request? ==> s.clock <= op.now == s'.clock && op.lem != INVALID_LEM_ID
  {
  }

  /** One step back in the two functions above. */
  lemma SightStep(ops: seq<Op>, l: LemId, from: nat, until: nat)
    requires from <= until <= |ops|
    ensures from == until ==> FirstId(ops, l, from, until) == None && LastSeen(ops, l, from, until) == None
    ensures from < until ==>
              var op := ops[until - 1];
              var given := if op.Request? && op.lem == l then op.answer else None;
              && FirstId(ops, l, from, until) ==
                 (if FirstId(ops, l, from, until - 1).Some? then FirstId(ops, l, from, until - 1) else given)
              && LastSeen(ops, l, from, until) ==
                 (if given.Some? then Some(op.now) else LastSeen(ops, l, from, until - 1))
  {
  }

  lemma RunStep(retention: Time, states: seq<Ledger>, ops: seq<Op>, k: nat)
    requires Run(retention, states, ops) && k < |ops|
    ensures |states| == |ops| + 1 && Next(retention, states[k], ops[k], states[k + 1])
  {
  }

  /** A fresh object that has been seen is given its first ID again. */
  lemma SeenAgain(retention: Time, states: seq<Ledger>, ops: seq<Op>, l: LemId, from: nat, k: nat)
    requires Run(retention, states, ops) && from <= k < |ops| && l != INVALID_LEM_ID
    requires Sized(states[from].table) && Unknown(states[from].table, l)
    requires KeptFresh(retention, ops, l, from, k + 1) && LastSeen(ops, l, from, k).Some?
    requires ops[k].Request? && ops[k].lem == l
    ensures ops[k].answer == FirstId(ops, l, from, k) && ops[k].answer.Some?
  {
    hide Has, NoStale, Next, Sound, Run, KeptFresh, FirstId, LastSeen, Unknown;
    FreshAt(retention, ops, l, from, k, k + 1);
    FreshState(retention, states, ops, l, from, k);
    RunStep(retention, states, ops, k);
    RunSound(retention, states, ops, k);
    NextHas(retention, states[k], ops[k], states[k + 1], l, FirstId(ops, l, from, k).value,
            LastSeen(ops, l, from, k).value);
  }

  /** Whatever ID a fresh object is given is its first one. */
  lemma GivenIsFirst(retention: Time, states: seq<Ledger>, ops: seq<Op>, l: LemId, from: nat, k: nat, until: nat)
    requires Run(retention, states, ops) && from <= k < until <= |ops| && l != INVALID_LEM_ID
    requires Sized(states[from].table) && Unknown(states[from].table, l)
    requires KeptFresh(retention, ops, l, from, until)
    requires ops[k].Request? && ops[k].lem == l && ops[k].answer.Some?
    ensures FirstId(ops, l, from, until) == ops[k].answer
  {
    hide Has, Run, KeptFresh, LastSeen, Unknown;
    FreshAt(retention, ops, l, from, k, until);
    FreshAt(retention, ops, l, from, k + 1, until);
    FreshState(retention, states, ops, l, from, k);
    if FirstId(ops, l, from, k).Some? {
      SeenAgain(retention, states, ops, l, from, k);
    }
    FirstIdKept(ops, l, from, k + 1, until);
  }

  /** Stability: an object that is kept fresh has one ID from its first allocation on, whatever
    * other objects come and go. */
  lemma StableId(retention: Time, states: seq<Ledger>, ops: seq<Op>, l: LemId, from: nat, i: nat, j: nat)
    requires Run(retention, states, ops) && from <= i < j < |ops|
    requires Sized(states[from].table) && Unknown(states[from].table, l)
    requires KeptFresh(retention, ops, l, from, j + 1)
    requires ops[i].Request? && ops[i].lem == l && ops[i].answer.Some?
    requires ops[j].Request? && ops[j].lem == l
    ensures ops[j].answer == ops[i].answer
  {
    hide Run, KeptFresh, LastSeen, FirstId, Unknown, Has;
    RunStep(retention, states, ops, i);
    RequestTimes(retention, states[i], ops[i], states[i + 1]);
    FreshAt(retention, ops, l, from, j, j + 1);
    GivenIsFirst(retention, states, ops, l, from, i, j);
    FreshState(retention, states, ops, l, from, j);
    SeenAgain(retention, states, ops, l, from, j);
  }

  lemma {:induction false} FirstIdKept(ops: seq<Op>, l: LemId, from: nat, i: nat, j: nat)
    requires from <= i <= j <= |ops| && FirstId(ops, l, from, i).Some?
    ensures FirstId(ops, l, from, j) == FirstId(ops, l, from, i)
  {
    if i < j {
      FirstIdKept(ops, l, from, i, j - 1);
    }
  }

  /** At the start and after a pseudonym change no object has left a trace. */
  lemma UnknownAfterReset(t: Table, l: LemId)
    requires Sized(t) && l != INVALID_LEM_ID
    ensures Unknown(Initial(), l) && Sized(Reset(t)) && Unknown(Reset(t), l)
  {
  }

  // ------------------------------------------------------------------ stale entries

  /** A request for `m` can cost `l` its ID although that is in hold-off. */
  ghost predicate CanCost(retention: Time, t: Table, now: Time, l: LemId, m: LemId)
    requires Sized(t)
  {
    exists answer, t' :: Allocated(t, retention, now, m, answer, t') && Sized(t') && l !in t'.lem2Cps
  }

  /** Exactly when that happens: `m` has no live mapping, and a stale reverse entry for `l`
    * sits at an ID that is available. */
  lemma CostIff(retention: Time, t: Table, clock: Time, now: Time, l: LemId, m: LemId)
    requires Consistent(t, clock) && 0 <= clock <= now && l != m && m != INVALID_LEM_ID
    requires l in t.lem2Cps && !Free(t.lastUsed, retention, now, t.lem2Cps[l])
    ensures CanCost(retention, t, now, l, m) <==>
            && !Live(t, retention, now, m)
            && exists c :: 0 <= c < OBJECT_ID_SPACE && c != t.lem2Cps[l]
                           && t.cps2Lem[c] == l && Free(t.lastUsed, retention, now, c)
  {
    if !Live(t, retention, now, m)
       && exists c :: 0 <= c < OBJECT_ID_SPACE && c != t.lem2Cps[l]
                      && t.cps2Lem[c] == l && Free(t.lastUsed, retention, now, c)
    {
      var c :| 0 <= c < OBJECT_ID_SPACE && c != t.lem2Cps[l] && t.cps2Lem[c] == l && Free(t.lastUsed, retention, now, c);
      assert Allocated(t, retention, now, m, Some(c), Bind(t, now, m, c));
    }
  }

  /** Without freshness stability fails. Object 1 comes back after its ID expired and is drawn
    * another one; the stale entry left behind is then taken by object 2, which costs object 1
    * the ID it has just got: asked for again at once, it gets a third one. */
  lemma StaleEntryBreaksStability(retention: Time)
    requires retention > 0
    ensures exists states: seq<Ledger>, ops: seq<Op> ::
              && Run(retention, states, ops) && |ops| == 4
              && ops[1].Request? && ops[3].Request?
              && ops[1].lem == ops[3].lem == 1 && ops[3].now - ops[1].now < retention
              && ops[1].answer == Some(11) && ops[3].answer == Some(12)
  {
    var ops := [Request(0, 1, Some(10)), Request(retention, 1, Some(11)),
                Request(retention, 2, Some(10)), Request(retention, 1, Some(12))];
    var t0 := Initial();
    var t1 := Bind(t0, 0, 1, 10);
    var t2 := Bind(t1, retention, 1, 11);
    var t3 := Bind(t2, retention, 2, 10);
    var t4 := Bind(t3, retention, 1, 12);
    var states := [Ledger(t0, 0, map[]), Ledger(t1, 0, map[1 := 10]), Ledger(t2, retention, map[1 := 11]),
                   Ledger(t3, retention, map[1 := 11, 2 := 10]),
                   Ledger(t4, retention, map[1 := 12, 2 := 10])];
    assert !Live(t0, retention, 0, 1) && Free(t0.lastUsed, retention, 0, 10);
    assert !Live(t1, retention, retention, 1) && Free(t1.lastUsed, retention, retention, 11);
    assert !Live(t2, retention, retention, 2) && Free(t2.lastUsed, retention, retention, 10);
    assert !Live(t3, retention, retention, 1) && Free(t3.lastUsed, retention, retention, 12);
    assert Next(retention, states[0], ops[0], states[1]);
    assert Next(retention, states[1], ops[1], states[2]);
    assert Next(retention, states[2], ops[2], states[3]);
    assert Next(retention, states[3], ops[3], states[4]);
    assert Run(retention, states, ops);
  }
}
