/** When cooperative awareness messages are generated (section 6.1.3 of ETSI EN 302 637-2),
  * over whole runs of middleware ticks. */
module CamRuns {
  import opened Moments

  const LOW_DYNAMICS_LIMIT: nat := 3

  datatype Limits = Limits(min: Time, max: Time, fixedRate: bool)

  /** The generation state; `last` is when the last message was generated. */
  datatype Cam = Cam(interval: Time, lowDynamics: nat, last: Time)

  /** One tick: the effective period (zero for the dynamics rules), the gate set by the
    * minimum interval or congestion control, and whether heading, position or speed changed
    * by more than its threshold. */
  datatype Tick = Tick(now: Time, period: Time, gate: Time, dynamics: bool)

  function Min(a: Time, b: Time): (m: Time)
    ensures m <= a && m <= b && (m == a || m == b)
  {
    if a < b then a else b
  }

  function Max(a: Time, b: Time): (m: Time)
    ensures m >= a && m >= b && (m == a || m == b)
  {
    if a < b then b else a
  }

  /** Clamps what congestion control asks for. */
  function Clamp(l: Limits, interval: Time): (gate: Time)
    ensures Min(l.min, l.max) <= gate <= l.max
    ensures l.min <= interval <= l.max ==> gate == interval
    ensures interval <= l.min <= l.max ==> gate == l.min
    ensures interval >= l.max || l.min >= l.max ==> gate == l.max
  {
    Min(l.max, Max(l.min, interval))
  }

  datatype Cause = Nothing | Periodic | Rate | Dynamics | Elapsed

  /** Why a tick generates a message, if it does. */
  function CauseOf(l: Limits, c: Cam, t: Tick): Cause {
    var elapsed := t.now - c.last;
    if t.period > 0 then if elapsed >= t.period && elapsed >= t.gate then Periodic else Nothing
    else if elapsed < t.gate then Nothing
    else if l.fixedRate then Rate
    else if t.dynamics then Dynamics
    else if elapsed >= c.interval then Elapsed
    else Nothing
  }

  /** The state after a tick: a message resets the time; one caused by the vehicle's dynamics
    * adopts the elapsed time as interval; after three caused by elapsed time alone the interval
    * is the maximum again. */
  function After(l: Limits, c: Cam, t: Tick): Cam {
    match CauseOf(l, c, t)
    case Nothing => c
    case Periodic => c.(last := t.now)
    case Rate => c.(last := t.now)
    case Dynamics => Cam(Min(t.now - c.last, l.max), 0, t.now)
    case Elapsed =>
      Cam(if c.lowDynamics + 1 >= LOW_DYNAMICS_LIMIT then l.max else c.interval, c.lowDynamics + 1, t.now)
  }

  /** A run of ticks from the start of the service, at most `d` apart. Periods are at most one
    * second; gates come from the minimum interval or from `Clamp`. */
  ghost predicate Run(l: Limits, d: Time, cams: seq<Cam>, ticks: seq<Tick>) {
    && |cams| == |ticks| + 1
    && cams[0].interval == l.max && cams[0].lowDynamics == 0
    && (forall i: nat :: i < |ticks| ==> StepAt(l, d, cams, ticks, i))
  }

  ghost predicate StepAt(l: Limits, d: Time, cams: seq<Cam>, ticks: seq<Tick>, i: nat)
    requires |cams| == |ticks| + 1 && i < |ticks|
  {
    && cams[i + 1] == After(l, cams[i], ticks[i])
    && Between(l, d, Before(cams, ticks, i), ticks[i])
  }

  /** The time of the tick before tick `i`, or of the start. */
  ghost function Before(cams: seq<Cam>, ticks: seq<Tick>, i: nat): Time
    requires |cams| == |ticks| + 1 && i <= |ticks|
  {
    if i == 0 then cams[0].last else ticks[i - 1].now
  }

  ghost predicate Between(l: Limits, d: Time, before: Time, t: Tick) {
    && before <= t.now <= before + d
    && 0 <= t.period <= SECOND
    && (t.gate == l.min || Min(l.min, l.max) <= t.gate <= l.max)
  }

  /** The longest time a tick lets pass without a message. */
  function Longest(l: Limits): Time {
    Max(Max(l.min, l.max), SECOND)
  }

  ghost predicate Good(l: Limits, c: Cam, now: Time) {
    && Min(l.min, l.max) <= c.interval <= l.max
    && c.last <= now && (now == c.last || now < c.last + Longest(l))
    && (c.lowDynamics >= LOW_DYNAMICS_LIMIT ==> c.interval == l.max)
  }

  lemma TickGood(l: Limits, d: Time, c: Cam, before: Time, t: Tick)
    requires Good(l, c, before) && Between(l, d, before, t)
    ensures Good(l, After(l, c, t), t.now)
    ensures CauseOf(l, c, t) != Nothing ==> Min(l.min, l.max) <= t.now - c.last
    ensures t.now - c.last < Longest(l) + d || t.now == before
  {
  }

  /** In every reachable state the interval is within its bounds, and no longer than the longest
    * time has passed since the last message. */
  lemma {:induction false} RunGood(l: Limits, d: Time, cams: seq<Cam>, ticks: seq<Tick>, i: nat)
    requires Run(l, d, cams, ticks) && i <= |ticks|
    ensures Good(l, cams[i], Before(cams, ticks, i))
  {
    if i > 0 {
      hide Good, After, Between;
      RunGood(l, d, cams, ticks, i - 1);
      assert StepAt(l, d, cams, ticks, i - 1);
      TickGood(l, d, cams[i - 1], Before(cams, ticks, i - 1), ticks[i - 1]);
    }
  }

  ghost predicate Sends(l: Limits, cams: seq<Cam>, ticks: seq<Tick>, i: nat)
    requires |cams| == |ticks| + 1 && i < |ticks|
  {
    CauseOf(l, cams[i], ticks[i]) != Nothing
  }

  /** While no message is generated the time of the last one stays. */
  lemma {:induction false} Quiet(l: Limits, d: Time, cams: seq<Cam>, ticks: seq<Tick>, i: nat, j: nat)
    requires Run(l, d, cams, ticks) && i <= j <= |ticks|
    requires forall k :: i <= k < j ==> !Sends(l, cams, ticks, k)
    ensures cams[j] == cams[i]
  {
    if i < j {
      Quiet(l, d, cams, ticks, i, j - 1);
      assert StepAt(l, d, cams, ticks, j - 1);
      assert !Sends(l, cams, ticks, j - 1);
    }
  }

  /** Consecutive messages, through any switching between dynamics and periodic rules, are at
    * least the minimum interval and less than the longest time plus one tick apart. (With
    * minimum and maximum interval the wrong way round the smaller of the two is the least
    * distance.) */
  lemma GapBounds(l: Limits, d: Time, cams: seq<Cam>, ticks: seq<Tick>, i: nat, j: nat)
    requires Run(l, d, cams, ticks) && i < j < |ticks| && d > 0 && l.min > 0 && l.max > 0
    requires Sends(l, cams, ticks, i) && Sends(l, cams, ticks, j)
    requires forall k :: i < k < j ==> !Sends(l, cams, ticks, k)
    ensures Min(l.min, l.max) <= ticks[j].now - ticks[i].now < Longest(l) + d
  {
    Quiet(l, d, cams, ticks, i + 1, j);
    RunGood(l, d, cams, ticks, j);
    assert StepAt(l, d, cams, ticks, i) && StepAt(l, d, cams, ticks, j);
    TickGood(l, d, cams[j], Before(cams, ticks, j), ticks[j]);
  }

  /** Messages do not cease: at every tick the last one is less than the longest time plus one
    * tick ago, counting from the start of the service. */
  lemma NeverSilent(l: Limits, d: Time, cams: seq<Cam>, ticks: seq<Tick>, i: nat)
    requires Run(l, d, cams, ticks) && i < |ticks| && d > 0
    ensures ticks[i].now - cams[i].last < Longest(l) + d
    ensures ticks[i].now - cams[i].last >= Longest(l) ==> Sends(l, cams, ticks, i)
  {
    RunGood(l, d, cams, ticks, i);
    assert StepAt(l, d, cams, ticks, i);
  }

  /** Messages caused by elapsed time alone between ticks `i` and `j`. */
  ghost function ElapsedCount(l: Limits, cams: seq<Cam>, ticks: seq<Tick>, i: nat, j: nat): nat
    requires |cams| == |ticks| + 1 && i <= j <= |ticks|
    decreases j
  {
    if i == j then 0
    else ElapsedCount(l, cams, ticks, i, j - 1)
         + if CauseOf(l, cams[j - 1], ticks[j - 1]) == Elapsed then 1 else 0
  }

  lemma ElapsedCountStep(l: Limits, cams: seq<Cam>, ticks: seq<Tick>, i: nat, j: nat)
    requires |cams| == |ticks| + 1 && i <= j <= |ticks|
    ensures i == j ==> ElapsedCount(l, cams, ticks, i, j) == 0
    ensures i < j ==>
              ElapsedCount(l, cams, ticks, i, j) == ElapsedCount(l, cams, ticks, i, j - 1)
              + if CauseOf(l, cams[j - 1], ticks[j - 1]) == Elapsed then 1 else 0
  {
  }

  /** The counter counts exactly those since the last one caused by dynamics. */
  lemma {:induction false} CounterCounts(l: Limits, d: Time, cams: seq<Cam>, ticks: seq<Tick>, i: nat, j: nat)
    requires |cams| == |ticks| + 1 && Run(l, d, cams, ticks) && i <= j <= |ticks|
    requires forall k :: i <= k < j ==> CauseOf(l, cams[k], ticks[k]) != Dynamics
    ensures cams[j].lowDynamics == cams[i].lowDynamics + ElapsedCount(l, cams, ticks, i, j)
  {
    hide Run, CauseOf, After, ElapsedCount;
    ElapsedCountStep(l, cams, ticks, i, j);
    if i < j {
      CounterCounts(l, d, cams, ticks, i, j - 1);
      StepOf(l, d, cams, ticks, j - 1);
      CounterStep(l, cams[j - 1], ticks[j - 1]);
    }
  }

  lemma CounterStep(l: Limits, c: Cam, t: Tick)
    requires CauseOf(l, c, t) != Dynamics
    ensures After(l, c, t).lowDynamics == c.lowDynamics + if CauseOf(l, c, t) == Elapsed then 1 else 0
  {
  }

  /** After a message caused by dynamics the interval is the time that had elapsed, until three
    * messages have been caused by elapsed time alone; then it is the maximum. */
  lemma BacksOff(l: Limits, d: Time, cams: seq<Cam>, ticks: seq<Tick>, i: nat, j: nat)
    requires Run(l, d, cams, ticks) && i < j <= |ticks|
    requires CauseOf(l, cams[i], ticks[i]) == Dynamics
    requires forall k :: i < k < j ==> CauseOf(l, cams[k], ticks[k]) != Dynamics
    ensures cams[j].interval ==
            if ElapsedCount(l, cams, ticks, i + 1, j) >= LOW_DYNAMICS_LIMIT then l.max
            else Min(ticks[i].now - cams[i].last, l.max)
  {
    StepOf(l, d, cams, ticks, i);
    hide Run, CauseOf, After;
    CounterCounts(l, d, cams, ticks, i + 1, j);
    RunGood(l, d, cams, ticks, j);
    IntervalKept(l, d, cams, ticks, i + 1, j, cams[i + 1].interval);
  }

  ghost predicate Keeps(c: Cam, interval: Time) {
    c.lowDynamics < LOW_DYNAMICS_LIMIT ==> c.interval == interval
  }

  lemma {:induction false} IntervalKept(l: Limits, d: Time, cams: seq<Cam>, ticks: seq<Tick>,
                                        i: nat, j: nat, interval: Time)
    requires Run(l, d, cams, ticks) && i <= j <= |ticks| && Keeps(cams[i], interval)
    requires forall k :: i <= k < j ==> CauseOf(l, cams[k], ticks[k]) != Dynamics
    ensures Keeps(cams[j], interval)
  {
    if i < j {
      IntervalKept(l, d, cams, ticks, i, j - 1, interval);
      StepOf(l, d, cams, ticks, j - 1);
    }
  }

  lemma StepOf(l: Limits, d: Time, cams: seq<Cam>, ticks: seq<Tick>, i: nat)
    requires Run(l, d, cams, ticks) && i < |ticks|
    ensures |cams| == |ticks| + 1 && cams[i + 1] == After(l, cams[i], ticks[i])
    ensures CauseOf(l, cams[i], ticks[i]) == Dynamics ==>
              cams[i + 1] == Cam(Min(ticks[i].now - cams[i].last, l.max), 0, ticks[i].now)
  {
    assert StepAt(l, d, cams, ticks, i);
  }

  // ------------------------------------------------------------------ the rules, spelled out

  /** `sent` says which ticks generated a message. */
  ghost predicate Sent(l: Limits, cams: seq<Cam>, ticks: seq<Tick>, sent: seq<bool>) {
    && |cams| == |ticks| + 1 && |sent| == |ticks|
    && forall i: nat :: i < |ticks| ==> (sent[i] <==> Sends(l, cams, ticks, i))
  }

  /** With a period, a message is generated exactly once it and the gate have elapsed, and nothing but
    * the time of the last message changes. */
  lemma PeriodicRule(l: Limits, d: Time, cams: seq<Cam>, ticks: seq<Tick>, sent: seq<bool>, i: nat)
    requires Run(l, d, cams, ticks) && Sent(l, cams, ticks, sent) && i < |ticks|
    requires ticks[i].period > 0
    ensures sent[i] <==>
            ticks[i].now - cams[i].last >= ticks[i].period && ticks[i].now - cams[i].last >= ticks[i].gate
    ensures cams[i + 1] == if sent[i] then cams[i].(last := ticks[i].now) else cams[i]
  {
    assert StepAt(l, d, cams, ticks, i) && (sent[i] <==> Sends(l, cams, ticks, i));
  }

  /** Without a period, no message is generated before the gate; from then on one is, at a fixed rate, or
    * if the vehicle's dynamics ask for it whatever the interval, or once the interval has elapsed. */
  lemma DynamicsRule(l: Limits, d: Time, cams: seq<Cam>, ticks: seq<Tick>, sent: seq<bool>, i: nat)
    requires Run(l, d, cams, ticks) && Sent(l, cams, ticks, sent) && i < |ticks|
    requires ticks[i].period == 0
    ensures ticks[i].now - cams[i].last < ticks[i].gate ==> !sent[i]
    ensures ticks[i].now - cams[i].last >= ticks[i].gate ==>
              (sent[i] <==> l.fixedRate || ticks[i].dynamics || ticks[i].now - cams[i].last >= cams[i].interval)
    ensures !sent[i] ==> cams[i + 1] == cams[i]
    ensures sent[i] ==> cams[i + 1].last == ticks[i].now
    ensures sent[i] && l.fixedRate ==>
              cams[i + 1].interval == cams[i].interval && cams[i + 1].lowDynamics == cams[i].lowDynamics
    ensures sent[i] && !l.fixedRate && ticks[i].dynamics ==>
              && cams[i + 1].lowDynamics == 0
              && cams[i + 1].interval == if ticks[i].now - cams[i].last < l.max then ticks[i].now - cams[i].last else l.max
    ensures sent[i] && !l.fixedRate && !ticks[i].dynamics ==>
              && cams[i + 1].lowDynamics == cams[i].lowDynamics + 1
              && cams[i + 1].interval == if cams[i].lowDynamics + 1 >= 3 then l.max else cams[i].interval
  {
    assert StepAt(l, d, cams, ticks, i) && (sent[i] <==> Sends(l, cams, ticks, i));
  }

  /** Reaction time: as long as the dynamics ask for a message and none is generated, the last one is less
    * than the gate ago; so at ticks `d` apart the message comes less than the gate plus `d` after the
    * last one or at the first tick that sees the dynamics. */
  lemma ReactionTime(l: Limits, d: Time, cams: seq<Cam>, ticks: seq<Tick>, sent: seq<bool>, i: nat, j: nat, gate: Time)
    requires Run(l, d, cams, ticks) && Sent(l, cams, ticks, sent) && i <= j < |ticks|
    requires forall k :: i <= k <= j ==> ticks[k].period == 0 && ticks[k].dynamics && ticks[k].gate <= gate
    requires forall k :: i <= k < j ==> !sent[k]
    ensures cams[j].last == cams[i].last
    ensures j > i ==> ticks[j].now - cams[i].last < gate + d
    ensures !sent[j] ==> ticks[j].now - cams[i].last < gate
  {
    forall k | i <= k < j ensures !Sends(l, cams, ticks, k) {
      assert !sent[k];
    }
    Quiet(l, d, cams, ticks, i, j);
    DynamicsRule(l, d, cams, ticks, sent, j);
    if i < j {
      Quiet(l, d, cams, ticks, i, j - 1);
      DynamicsRule(l, d, cams, ticks, sent, j - 1);
      assert StepAt(l, d, cams, ticks, j);
    }
  }
}
