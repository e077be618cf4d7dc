/** Object IDs over consecutive messages: each message is one cycle of requests, made at the same
  * time. Objects are tracked until they are gone for good, so from its first to its last sight an
  * object is asked for in every cycle. */
module CpCycles {
  import opened Moments
  import opened CpIds
  import opened CpIdRuns

  /** Cycle `c` consists of the operations from `starts[c]` up to `starts[c + 1]`, at time
    * `times[c]` and without a pseudonym change; cycles are less than the retention period apart. */
  ghost predicate Cycles(retention: Time, ops: seq<Op>, starts: seq<nat>, times: seq<Time>) {
    && |starts| == |times| + 1
    && (forall c :: 0 <= c < |starts| ==> starts[0] <= starts[c] <= |ops|)
    && (forall c :: 0 <= c < |times| ==> Cycle(ops, starts[c], starts[c + 1], times[c]))
    && (forall c :: 0 < c < |times| ==> times[c - 1] <= times[c] < times[c - 1] + retention)
  }

  ghost predicate Cycle(ops: seq<Op>, a: nat, b: nat, time: Time)
    requires b <= |ops|
  {
    && a <= b
    && forall k :: a <= k < b ==> !ops[k].PseudonymChange? && (ops[k].Request? ==> ops[k].now == time)
  }

  ghost predicate Asked(ops: seq<Op>, l: LemId, a: nat, b: nat)
    requires a <= b <= |ops|
  {
    exists k :: a <= k < b && ops[k].Request? && ops[k].lem == l
  }

  /** Within a cycle: if the object's last sight before it is recent enough, the object stays fresh,
    * and once it has been asked for its last sight is in this cycle. */
  lemma {:induction false} FreshWithin(retention: Time, states: seq<Ledger>, ops: seq<Op>, l: LemId,
                                       from: nat, a: nat, k: nat, b: nat, time: Time)
    requires Run(retention, states, ops) && from <= a <= k <= b <= |ops|
    requires retention > 0 && l != INVALID_LEM_ID
    requires Sized(states[from].table) && Unknown(states[from].table, l)
    requires Cycle(ops, a, b, time) && KeptFresh(retention, ops, l, from, a)
    requires LastSeen(ops, l, from, a).Some? ==> time < LastSeen(ops, l, from, a).value + retention
    ensures KeptFresh(retention, ops, l, from, k)
    ensures LastSeen(ops, l, from, k) in {LastSeen(ops, l, from, a), Some(time)}
    ensures Asked(ops, l, a, k) && LastSeen(ops, l, from, k).Some? ==> LastSeen(ops, l, from, k) == Some(time)
  {
    if k > a {
      hide Unknown, Run;
      var m: nat := k - 1;
      FreshWithin(retention, states, ops, l, from, a, m, b, time);
      assert KeptFresh(retention, ops, l, from, k);
      if ops[m].Request? && ops[m].lem == l {
        if LastSeen(ops, l, from, m).Some? {
          SeenAgain(retention, states, ops, l, from, m);
        }
      } else {
        assert Asked(ops, l, a, k) <==> Asked(ops, l, a, m);
      }
    }
  }

  lemma {:induction false} FreshFrom(retention: Time, states: seq<Ledger>, ops: seq<Op>, starts: seq<nat>,
                                     times: seq<Time>, l: LemId, c: nat)
    requires Run(retention, states, ops) && Cycles(retention, ops, starts, times) && retention > 0
    requires l != INVALID_LEM_ID && c <= |times|
    requires Sized(states[starts[0]].table) && Unknown(states[starts[0]].table, l)
    requires forall i :: 0 <= i < c ==> Asked(ops, l, starts[i], starts[i + 1])
    ensures KeptFresh(retention, ops, l, starts[0], starts[c])
    ensures var last := LastSeen(ops, l, starts[0], starts[c]);
            last.Some? ==> c > 0 && last.value == times[c - 1]
  {
    if c > 0 {
      hide Unknown, Run, KeptFresh, LastSeen;
      FreshFrom(retention, states, ops, starts, times, l, c - 1);
      assert Asked(ops, l, starts[c - 1], starts[c]) && Cycle(ops, starts[c - 1], starts[c], times[c - 1]);
      FreshWithin(retention, states, ops, l, starts[0], starts[c - 1], starts[c], starts[c], times[c - 1]);
    }
  }

  /** Stability: an object asked for in every cycle has one ID from its first allocation to its
    * last sight, whatever the draws and whatever other objects come and go. */
  lemma ObjectKeepsId(retention: Time, states: seq<Ledger>, ops: seq<Op>, starts: seq<nat>, times: seq<Time>,
                      l: LemId, i: nat, j: nat)
    requires Run(retention, states, ops) && Cycles(retention, ops, starts, times) && retention > 0
    requires l != INVALID_LEM_ID && |times| > 0
    requires Sized(states[starts[0]].table) && Unknown(states[starts[0]].table, l)
    requires forall c :: 0 <= c < |times| ==> Asked(ops, l, starts[c], starts[c + 1])
    requires starts[0] <= i < j < starts[|times|]
    requires ops[i].Request? && ops[i].lem == l && ops[i].answer.Some?
    requires ops[j].Request? && ops[j].lem == l
    ensures ops[j].answer == ops[i].answer
  {
    hide Unknown, Run;
    FreshFrom(retention, states, ops, starts, times, l, |times|);
    assert KeptFresh(retention, ops, l, starts[0], j + 1);
    StableId(retention, states, ops, l, starts[0], i, j);
  }
}
