/** When maneuver coordination messages are generated, and the temporary reduction of the
  * intent rate, over whole runs of middleware ticks. */
module McRuns {
  import opened Moments
  import opened CamPolicies
  import opened CamRuns

  datatype IntentTrigger =
    | LikeCam | LikeCamReduced2Hz | LikeCamReduced1Hz
    | Fixed | FixedHalfHz | FixedOneHz | FixedTwoHz | FixedThreeHz | FixedFiveHz

  datatype CoordinationTrigger = CoordinateLikeCam | CoordinateFixed | CoordinateFixedNoDcc

  datatype McConfig = McConfig(
    limits: Limits,
    fixedRateInterval: Time,
    maxIntervalNeg: Time,
    intent: IntentTrigger,
    coordination: CoordinationTrigger,
    newRules: bool,
    newRulesIntent: bool,
    newRulesMco: bool,
    dccOnly: bool,
    cbrMin: real,
    cbrMax: real,
    cbrMco: real)

  /** Whether the intent rate is currently reduced, since when and for how long at least. */
  datatype Reduction = NotReduced | Reduced(at: Time, delay: Time)

  /** The generation state. `kinematics` says that a message has been sent before. */
  datatype Mc = Mc(
    interval: Time,
    lowDynamics: nat,
    last: Time,
    kinematics: bool,
    effective: IntentTrigger,
    reduction: Reduction)

  /** One tick: `gate` is the facilities interval, `pending` that a coordination command waits,
    * `dynamics` that some kinematics changed by more than its threshold, `cbr` the channel
    * busy ratio, `wait` the recovery delay drawn if the rate gets reduced. */
  datatype McTick = McTick(now: Time, gate: Time, pending: bool, dynamics: bool, cbr: real, wait: Time)

  function FixedInterval(c: McConfig): Time {
    if c.fixedRateInterval > 0 then c.fixedRateInterval else c.limits.min
  }

  function IntentInterval(c: McConfig, trigger: IntentTrigger): Time {
    match trigger
    case FixedHalfHz => 2 * SECOND
    case LikeCamReduced1Hz => SECOND
    case FixedOneHz => SECOND
    case LikeCamReduced2Hz => SECOND / 2
    case FixedTwoHz => SECOND / 2
    case FixedThreeHz => 330 * MILLISECOND
    case FixedFiveHz => 200 * MILLISECOND
    case LikeCam => c.limits.min
    case Fixed => c.limits.min
  }

  predicate IsPeriodic(trigger: IntentTrigger) {
    trigger.Fixed? || trigger.FixedHalfHz? || trigger.FixedOneHz? || trigger.FixedTwoHz?
    || trigger.FixedThreeHz? || trigger.FixedFiveHz?
  }

  /** The dynamics rules once a message has been sent; `least` is the reduced interval below
    * which even dynamics do not cause a message. */
  function DynamicsCause(s: Mc, t: McTick, least: Time): Cause {
    if !s.kinematics then Rate
    else if t.dynamics then if t.now - s.last < least then Nothing else Dynamics
    else if t.now - s.last >= s.interval then Elapsed
    else Nothing
  }

  function CoordinationCause(c: McConfig, s: Mc, t: McTick): Cause {
    var elapsed := t.now - s.last;
    var gate := if c.coordination == CoordinateFixedNoDcc then c.limits.min else t.gate;
    if !t.pending || elapsed < gate then Nothing
    else if c.coordination != CoordinateLikeCam then
      if elapsed >= (if c.maxIntervalNeg > 0 then c.maxIntervalNeg else c.limits.min) then Periodic else Nothing
    else if c.limits.fixedRate then
      if elapsed >= FixedInterval(c) then Rate else Nothing
    else DynamicsCause(s, t, elapsed)
  }

  function IntentCause(c: McConfig, s: Mc, t: McTick): Cause {
    var elapsed := t.now - s.last;
    if elapsed < t.gate then Nothing
    else if IsPeriodic(s.effective) then
      if elapsed >= IntentInterval(c, s.effective) then Periodic else Nothing
    else if s.effective == LikeCam && c.limits.fixedRate then
      if elapsed >= FixedInterval(c) then Rate else Nothing
    else DynamicsCause(s, t, if s.effective == LikeCam then elapsed else IntentInterval(c, s.effective))
  }

  /** A generated message. */
  function Generated(c: McConfig, s: Mc, t: McTick, cause: Cause): Mc {
    match cause
    case Nothing => s
    case Dynamics =>
      s.(interval := Min(t.now - s.last, c.limits.max), lowDynamics := 0, last := t.now, kinematics := true)
    case Elapsed =>
      s.(interval := if s.lowDynamics + 1 >= LOW_DYNAMICS_LIMIT then c.limits.max else s.interval,
         lowDynamics := s.lowDynamics + 1, last := t.now, kinematics := true)
    case Periodic => s.(last := t.now, kinematics := true)
    case Rate => s.(last := t.now, kinematics := true)
  }

  /** The channel busy ratio above which the intent rate is reduced, if any rule is on. */
  function Threshold(c: McConfig): Option<real> {
    if c.newRulesMco then Some(c.cbrMco)
    else if c.newRules && c.newRulesIntent then Some(if c.dccOnly then c.cbrMax else c.cbrMin)
    else None
  }

  /** The reduced rate ends when the channel is below the threshold and the delay is over; the
    * general rule wants it strictly over. */
  predicate Recovers(c: McConfig, s: Mc, t: McTick)
    requires s.reduction.Reduced? && Threshold(c).Some?
  {
    && t.cbr < Threshold(c).value
    && var elapsed := t.now - s.reduction.at;
       if c.newRulesMco then elapsed >= s.reduction.delay else elapsed > s.reduction.delay
  }

  /** The intent rules adapt first. */
  function Adapted(c: McConfig, s: Mc, t: McTick): Mc {
    if Threshold(c).None? then s
    else if s.reduction.NotReduced? then
      if s.effective == LikeCam && t.cbr > Threshold(c).value
      then s.(effective := FixedOneHz, reduction := Reduced(t.now, t.wait))
      else s
    else if s.effective == FixedOneHz && Recovers(c, s, t)
    then s.(effective := if c.newRulesMco then LikeCam else c.intent, reduction := NotReduced)
    else s
  }

  /** One tick: coordination first; only if that generates nothing the intent rules adapt and may
    * generate a message. */
  function McCause(c: McConfig, s: Mc, t: McTick): Cause {
    var coordination := CoordinationCause(c, s, t);
    if coordination != Nothing then coordination else IntentCause(c, Adapted(c, s, t), t)
  }

  function McAfter(c: McConfig, s: Mc, t: McTick): Mc {
    var coordination := CoordinationCause(c, s, t);
    if coordination != Nothing then Generated(c, s, t, coordination)
    else Generated(c, Adapted(c, s, t), t, IntentCause(c, Adapted(c, s, t), t))
  }

  // ------------------------------------------------------------------ runs

  ghost predicate McRun(c: McConfig, d: Time, states: seq<Mc>, ticks: seq<McTick>) {
    && |states| == |ticks| + 1
    && states[0].interval == c.limits.max && states[0].lowDynamics == 0 && !states[0].kinematics
    && states[0].effective == c.intent && states[0].reduction == NotReduced
    && (forall i: nat :: i < |ticks| ==> McStepAt(c, d, states, ticks, i))
  }

  ghost predicate McStepAt(c: McConfig, d: Time, states: seq<Mc>, ticks: seq<McTick>, i: nat)
    requires |states| == |ticks| + 1 && i < |ticks|
  {
    && states[i + 1] == McAfter(c, states[i], ticks[i])
    && McBetween(c, d, McBefore(states, ticks, i), ticks[i])
  }

  ghost function McBefore(states: seq<Mc>, ticks: seq<McTick>, i: nat): Time
    requires |states| == |ticks| + 1 && i <= |ticks|
  {
    if i == 0 then states[0].last else ticks[i - 1].now
  }

  ghost predicate McBetween(c: McConfig, d: Time, before: Time, t: McTick) {
    && before <= t.now <= before + d
    && (t.gate == c.limits.min || Min(c.limits.min, c.limits.max) <= t.gate <= c.limits.max)
  }

  /** The longest time a tick lets pass without a message. */
  function McLongest(c: McConfig): Time {
    Max(Max(Max(c.limits.min, c.limits.max), 2 * SECOND), FixedInterval(c))
  }

  /** A temporary reduction never loses the configured policy. */
  ghost predicate PolicyKept(c: McConfig, s: Mc) {
    if s.reduction.NotReduced? then s.effective == c.intent
    else c.intent == LikeCam && s.effective == FixedOneHz
  }

  ghost predicate McGood(c: McConfig, s: Mc, now: Time) {
    && PolicyKept(c, s)
    && Min(c.limits.min, c.limits.max) <= s.interval <= c.limits.max
    && s.last <= now && (now == s.last || now < s.last + McLongest(c))
    && (s.lowDynamics >= LOW_DYNAMICS_LIMIT ==> s.interval == c.limits.max)
  }

  lemma AdaptedKeeps(c: McConfig, s: Mc, t: McTick)
    requires PolicyKept(c, s)
    ensures PolicyKept(c, Adapted(c, s, t))
    ensures Adapted(c, s, t) == s.(effective := Adapted(c, s, t).effective, reduction := Adapted(c, s, t).reduction)
  {
  }

  lemma CoordinationBounds(c: McConfig, s: Mc, t: McTick, now: Time)
    requires McGood(c, s, now) && now <= t.now && t.gate >= Min(c.limits.min, c.limits.max)
    ensures CoordinationCause(c, s, t) != Nothing ==> Min(c.limits.min, c.limits.max) <= t.now - s.last
  {
  }

  lemma IntentBounds(c: McConfig, s: Mc, t: McTick, now: Time)
    requires McGood(c, s, now) && now <= t.now
    requires t.gate == c.limits.min || Min(c.limits.min, c.limits.max) <= t.gate <= c.limits.max
    ensures IntentCause(c, s, t) != Nothing ==> Min(c.limits.min, c.limits.max) <= t.now - s.last
    ensures t.now - s.last >= McLongest(c) ==> IntentCause(c, s, t) != Nothing
  {
  }

  lemma GeneratedGood(c: McConfig, s: Mc, t: McTick, cause: Cause, now: Time)
    requires McGood(c, s, now) && now <= t.now && cause != Nothing
    requires Min(c.limits.min, c.limits.max) <= t.now - s.last
    ensures McGood(c, Generated(c, s, t, cause), t.now)
  {
  }

  lemma McTickGood(c: McConfig, d: Time, s: Mc, before: Time, t: McTick)
    requires McGood(c, s, before) && McBetween(c, d, before, t)
    ensures McGood(c, McAfter(c, s, t), t.now)
    ensures McCause(c, s, t) != Nothing ==> Min(c.limits.min, c.limits.max) <= t.now - s.last
  {
    hide CoordinationCause, IntentCause, Generated;
    CoordinationBounds(c, s, t, before);
    if CoordinationCause(c, s, t) != Nothing {
      GeneratedGood(c, s, t, CoordinationCause(c, s, t), before);
    } else {
      AdaptedKeeps(c, s, t);
      var adapted := Adapted(c, s, t);
      IntentBounds(c, adapted, t, before);
      if IntentCause(c, adapted, t) != Nothing {
        GeneratedGood(c, adapted, t, IntentCause(c, adapted, t), before);
      } else {
        GeneratedNothing(c, adapted, t);
      }
    }
  }

  lemma GeneratedNothing(c: McConfig, s: Mc, t: McTick)
    ensures Generated(c, s, t, Nothing) == s
  {
  }

  /** In every reachable state the configured intent policy is recoverable, the interval is within
    * its bounds, and no longer than the longest time has passed since the last message. */
  lemma {:induction false} McRunGood(c: McConfig, d: Time, states: seq<Mc>, ticks: seq<McTick>, i: nat)
    requires McRun(c, d, states, ticks) && i <= |ticks|
    ensures McGood(c, states[i], McBefore(states, ticks, i))
  {
    if i > 0 {
      hide McGood, McAfter, McBetween;
      McRunGood(c, d, states, ticks, i - 1);
      assert McStepAt(c, d, states, ticks, i - 1);
      McTickGood(c, d, states[i - 1], McBefore(states, ticks, i - 1), ticks[i - 1]);
    } else {
      assert McGood(c, states[0], states[0].last);
    }
  }

  ghost predicate McSends(c: McConfig, states: seq<Mc>, ticks: seq<McTick>, i: nat)
    requires |states| == |ticks| + 1 && i < |ticks|
  {
    McCause(c, states[i], ticks[i]) != Nothing
  }

  /** The backoff state and the time of the last message change only when a message is generated. */
  lemma OnlyMessagesCount(c: McConfig, s: Mc, t: McTick)
    ensures McCause(c, s, t) == Nothing ==>
              McAfter(c, s, t) == s.(effective := McAfter(c, s, t).effective,
                                     reduction := McAfter(c, s, t).reduction)
    ensures McCause(c, s, t) != Nothing ==> McAfter(c, s, t).last == t.now && McAfter(c, s, t).kinematics
    ensures McCause(c, s, t) == Periodic || McCause(c, s, t) == Rate ==>
              McAfter(c, s, t).interval == s.interval && McAfter(c, s, t).lowDynamics == s.lowDynamics
  {
  }

  lemma {:induction false} McQuiet(c: McConfig, d: Time, states: seq<Mc>, ticks: seq<McTick>, i: nat, j: nat)
    requires McRun(c, d, states, ticks) && i <= j <= |ticks|
    requires forall k :: i <= k < j ==> !McSends(c, states, ticks, k)
    ensures states[j].last == states[i].last
    ensures states[j].interval == states[i].interval && states[j].lowDynamics == states[i].lowDynamics
  {
    if i < j {
      hide McAfter, McCause;
      McQuiet(c, d, states, ticks, i, j - 1);
      assert McStepAt(c, d, states, ticks, j - 1);
      OnlyMessagesCount(c, states[j - 1], ticks[j - 1]);
      assert !McSends(c, states, ticks, j - 1);
    }
  }

  /** Consecutive messages of either kind are at least the minimum interval and less than the
    * longest time plus one tick apart, whatever was pending and however the rate was reduced. */
  lemma McGapBounds(c: McConfig, d: Time, states: seq<Mc>, ticks: seq<McTick>, i: nat, j: nat)
    requires McRun(c, d, states, ticks) && i < j < |ticks| && d > 0 && c.limits.min > 0 && c.limits.max > 0
    requires McSends(c, states, ticks, i) && McSends(c, states, ticks, j)
    requires forall k :: i < k < j ==> !McSends(c, states, ticks, k)
    ensures Min(c.limits.min, c.limits.max) <= ticks[j].now - ticks[i].now < McLongest(c) + d
  {
    hide McAfter, McCause;
    OnlyMessagesCount(c, states[i], ticks[i]);
    McQuiet(c, d, states, ticks, i + 1, j);
    McRunGood(c, d, states, ticks, j);
    assert McStepAt(c, d, states, ticks, i) && McStepAt(c, d, states, ticks, j);
    McTickGood(c, d, states[j], McBefore(states, ticks, j), ticks[j]);
  }

  /** Messages do not cease: a tick that finds the longest time passed generates one. */
  lemma McNeverSilent(c: McConfig, d: Time, states: seq<Mc>, ticks: seq<McTick>, i: nat)
    requires McRun(c, d, states, ticks) && i < |ticks| && d > 0
    ensures ticks[i].now - states[i].last < McLongest(c) + d
    ensures ticks[i].now - states[i].last >= McLongest(c) ==> McSends(c, states, ticks, i)
  {
    hide CoordinationCause, IntentCause, Adapted;
    McRunGood(c, d, states, ticks, i);
    assert McStepAt(c, d, states, ticks, i);
    AdaptedKeeps(c, states[i], ticks[i]);
    IntentBounds(c, Adapted(c, states[i], ticks[i]), ticks[i], McBefore(states, ticks, i));
  }

  /** The rate is reduced only above the threshold and recovers only below it, after the delay
    * drawn at the reduction; meanwhile reduction time and delay stay as they are. */
  lemma ReductionStep(c: McConfig, s: Mc, t: McTick)
    requires PolicyKept(c, s)
    ensures var s' := McAfter(c, s, t);
            && (s.reduction.NotReduced? && s'.reduction.Reduced? ==>
                  Threshold(c).Some? && t.cbr > Threshold(c).value
                  && s'.reduction == Reduced(t.now, t.wait) && c.intent == LikeCam)
            && (s.reduction.Reduced? && s'.reduction.NotReduced? ==>
                  Threshold(c).Some? && t.cbr < Threshold(c).value
                  && t.now >= s.reduction.at + s.reduction.delay && s'.effective == c.intent)
            && (s.reduction.Reduced? && s'.reduction.Reduced? ==> s'.reduction == s.reduction)
  {
  }

  // ------------------------------------------------------------------ backoff

  /** Messages caused by elapsed time alone between ticks `i` and `j`, of either kind. */
  ghost function McElapsedCount(c: McConfig, states: seq<Mc>, ticks: seq<McTick>, i: nat, j: nat): nat
    requires |states| == |ticks| + 1 && i <= j <= |ticks|
    decreases j
  {
    if i == j then 0
    else McElapsedCount(c, states, ticks, i, j - 1)
         + if McCause(c, states[j - 1], ticks[j - 1]) == Elapsed then 1 else 0
  }

  lemma McElapsedCountStep(c: McConfig, states: seq<Mc>, ticks: seq<McTick>, i: nat, j: nat)
    requires |states| == |ticks| + 1 && i <= j <= |ticks|
    ensures i == j ==> McElapsedCount(c, states, ticks, i, j) == 0
    ensures i < j ==>
              McElapsedCount(c, states, ticks, i, j) == McElapsedCount(c, states, ticks, i, j - 1)
              + if McCause(c, states[j - 1], ticks[j - 1]) == Elapsed then 1 else 0
  {
  }

  lemma McStepOf(c: McConfig, d: Time, states: seq<Mc>, ticks: seq<McTick>, i: nat)
    requires McRun(c, d, states, ticks) && i < |ticks|
    ensures |states| == |ticks| + 1 && states[i + 1] == McAfter(c, states[i], ticks[i])
  {
    assert McStepAt(c, d, states, ticks, i);
  }

  /** What one tick does to interval and counter. */
  lemma BackoffStep(c: McConfig, s: Mc, t: McTick)
    ensures McAfter(c, s, t).lowDynamics ==
            match McCause(c, s, t)
            case Dynamics => 0
            case Elapsed => s.lowDynamics + 1
            case _ => s.lowDynamics
    ensures McAfter(c, s, t).interval ==
            match McCause(c, s, t)
            case Dynamics => Min(t.now - s.last, c.limits.max)
            case Elapsed => if s.lowDynamics + 1 >= LOW_DYNAMICS_LIMIT then c.limits.max else s.interval
            case _ => s.interval
  {
  }

  /** The counter counts exactly the messages caused by elapsed time alone since the last one caused
    * by dynamics. */
  lemma {:induction false} McCounterCounts(c: McConfig, d: Time, states: seq<Mc>, ticks: seq<McTick>, i: nat, j: nat)
    requires |states| == |ticks| + 1 && McRun(c, d, states, ticks) && i <= j <= |ticks|
    requires forall k :: i <= k < j ==> McCause(c, states[k], ticks[k]) != Dynamics
    ensures states[j].lowDynamics == states[i].lowDynamics + McElapsedCount(c, states, ticks, i, j)
  {
    hide McRun, McCause, McAfter, McElapsedCount;
    McElapsedCountStep(c, states, ticks, i, j);
    if i < j {
      McCounterCounts(c, d, states, ticks, i, j - 1);
      McStepOf(c, d, states, ticks, j - 1);
      BackoffStep(c, states[j - 1], ticks[j - 1]);
    }
  }

  ghost predicate McKeeps(s: Mc, interval: Time) {
    s.lowDynamics < LOW_DYNAMICS_LIMIT ==> s.interval == interval
  }

  lemma {:induction false} McIntervalKept(c: McConfig, d: Time, states: seq<Mc>, ticks: seq<McTick>,
                                          i: nat, j: nat, interval: Time)
    requires McRun(c, d, states, ticks) && i <= j <= |ticks| && McKeeps(states[i], interval)
    requires forall k :: i <= k < j ==> McCause(c, states[k], ticks[k]) != Dynamics
    ensures McKeeps(states[j], interval)
  {
    if i < j {
      hide McRun, McCause, McAfter;
      McIntervalKept(c, d, states, ticks, i, j - 1, interval);
      McStepOf(c, d, states, ticks, j - 1);
      BackoffStep(c, states[j - 1], ticks[j - 1]);
    }
  }

  /** After a message caused by dynamics the interval is the time that had elapsed, whatever is sent
    * periodically and however the rate is reduced, until three messages of either kind have been
    * caused by elapsed time alone; then it is the maximum. */
  lemma McBacksOff(c: McConfig, d: Time, states: seq<Mc>, ticks: seq<McTick>, i: nat, j: nat)
    requires |states| == |ticks| + 1 && McRun(c, d, states, ticks) && i < j <= |ticks|
    requires McCause(c, states[i], ticks[i]) == Dynamics
    requires forall k :: i < k < j ==> McCause(c, states[k], ticks[k]) != Dynamics
    ensures states[j].interval ==
            if McElapsedCount(c, states, ticks, i + 1, j) >= LOW_DYNAMICS_LIMIT then c.limits.max
            else Min(ticks[i].now - states[i].last, c.limits.max)
  {
    hide McRun, McCause, McAfter, McElapsedCount, McBefore, PolicyKept;
    McStepOf(c, d, states, ticks, i);
    BackoffStep(c, states[i], ticks[i]);
    McCounterCounts(c, d, states, ticks, i + 1, j);
    McRunGood(c, d, states, ticks, j);
    McIntervalKept(c, d, states, ticks, i + 1, j, states[i + 1].interval);
  }

  // ------------------------------------------------------------------ the rules, spelled out

  /** `sent` says which ticks generated a message. */
  ghost predicate McSent(c: McConfig, states: seq<Mc>, ticks: seq<McTick>, sent: seq<bool>) {
    && |states| == |ticks| + 1 && |sent| == |ticks|
    && forall i: nat :: i < |ticks| ==> (sent[i] <==> McSends(c, states, ticks, i))
  }

  lemma McStepSent(c: McConfig, d: Time, states: seq<Mc>, ticks: seq<McTick>, sent: seq<bool>, i: nat)
    requires McRun(c, d, states, ticks) && McSent(c, states, ticks, sent) && i < |ticks|
    ensures states[i + 1] == McAfter(c, states[i], ticks[i])
    ensures sent[i] <==> McCause(c, states[i], ticks[i]) != Nothing
    ensures McBetween(c, d, McBefore(states, ticks, i), ticks[i])
  {
    assert McStepAt(c, d, states, ticks, i) && (sent[i] <==> McSends(c, states, ticks, i));
  }

  /** The interval a periodic trigger waits, in microseconds; zero for the other triggers. */
  ghost predicate PeriodIs(c: McConfig, trigger: IntentTrigger, period: Time) {
    || (trigger == FixedHalfHz && period == 2_000_000)
    || (trigger == FixedOneHz && period == 1_000_000)
    || (trigger == FixedTwoHz && period == 500_000)
    || (trigger == FixedThreeHz && period == 330_000)
    || (trigger == FixedFiveHz && period == 200_000)
    || (trigger == Fixed && period == c.limits.min)
  }

  /** Nothing pending, periodic trigger in effect: a message is generated exactly once the period and the
    * gate have elapsed, and backoff is left alone. */
  lemma PeriodicIntent(c: McConfig, d: Time, states: seq<Mc>, ticks: seq<McTick>, sent: seq<bool>, i: nat, period: Time)
    requires McRun(c, d, states, ticks) && McSent(c, states, ticks, sent) && i < |ticks|
    requires !ticks[i].pending && PeriodIs(c, states[i + 1].effective, period)
    ensures sent[i] <==> ticks[i].now - states[i].last >= period && ticks[i].now - states[i].last >= ticks[i].gate
    ensures states[i + 1].last == if sent[i] then ticks[i].now else states[i].last
    ensures states[i + 1].interval == states[i].interval && states[i + 1].lowDynamics == states[i].lowDynamics
  {
    McStepSent(c, d, states, ticks, sent, i);
  }

  /** The rate this gives: while one periodic trigger is in effect and nothing is pending, consecutive
    * messages are at least its period and the gate apart, and less than the larger of the two plus one
    * tick. */
  lemma PeriodicRate(c: McConfig, d: Time, states: seq<Mc>, ticks: seq<McTick>, sent: seq<bool>, i: nat, j: nat,
                     period: Time, gate: Time)
    requires McRun(c, d, states, ticks) && McSent(c, states, ticks, sent) && i < j < |ticks|
    requires sent[i] && sent[j] && forall k :: i < k < j ==> !sent[k]
    requires forall k :: i < k <= j ==>
               !ticks[k].pending && PeriodIs(c, states[k + 1].effective, period) && ticks[k].gate <= gate
    requires period > 0 && d > 0
    ensures ticks[j].now - ticks[i].now >= period && ticks[j].now - ticks[i].now >= ticks[j].gate
    ensures ticks[j].now - ticks[i].now < Max(period, gate) + d
  {
    hide McRun, McAfter, McCause, PeriodIs;
    SentSetsLast(c, d, states, ticks, sent, i);
    LastStays(c, d, states, ticks, sent, i + 1, j);
    PeriodicIntent(c, d, states, ticks, sent, j, period);
    McStepSent(c, d, states, ticks, sent, j);
    if i < j - 1 {
      LastStays(c, d, states, ticks, sent, i + 1, j - 1);
      PeriodicIntent(c, d, states, ticks, sent, j - 1, period);
    }
  }

  lemma SentSetsLast(c: McConfig, d: Time, states: seq<Mc>, ticks: seq<McTick>, sent: seq<bool>, i: nat)
    requires McRun(c, d, states, ticks) && McSent(c, states, ticks, sent) && i < |ticks|
    ensures states[i + 1].last == if sent[i] then ticks[i].now else states[i].last
  {
    hide McRun, McAfter, McCause;
    McStepSent(c, d, states, ticks, sent, i);
    OnlyMessagesCount(c, states[i], ticks[i]);
  }

  lemma {:induction false} LastStays(c: McConfig, d: Time, states: seq<Mc>, ticks: seq<McTick>, sent: seq<bool>,
                                     i: nat, j: nat)
    requires McRun(c, d, states, ticks) && McSent(c, states, ticks, sent) && i <= j <= |ticks|
    requires forall k :: i <= k < j ==> !sent[k]
    ensures states[j].last == states[i].last
  {
    if i < j {
      hide McRun;
      LastStays(c, d, states, ticks, sent, i, j - 1);
      SentSetsLast(c, d, states, ticks, sent, j - 1);
    }
  }

  /** Kinematics are compared with exactly if some message has been sent before. */
  lemma {:induction false} SentBefore(c: McConfig, d: Time, states: seq<Mc>, ticks: seq<McTick>, sent: seq<bool>, i: nat)
    requires McRun(c, d, states, ticks) && McSent(c, states, ticks, sent) && i <= |ticks|
    ensures states[i].kinematics <==> exists k :: 0 <= k < i && sent[k]
  {
    if i > 0 {
      SentBefore(c, d, states, ticks, sent, i - 1);
      McStepSent(c, d, states, ticks, sent, i - 1);
      hide McRun, McSent, McCause, McAfter;
      OnlyMessagesCount(c, states[i - 1], ticks[i - 1]);
    }
  }

  /** Nothing pending, CAM-like trigger in effect: from the gate on the first message is generated at once,
    * a later one if the dynamics ask for it and the reduced interval (none, half a second or a second) has
    * elapsed, or without dynamics once the interval has; a fixed rate only looks at its own interval. */
  lemma DynamicIntent(c: McConfig, d: Time, states: seq<Mc>, ticks: seq<McTick>, sent: seq<bool>, i: nat, least: Time)
    requires McRun(c, d, states, ticks) && McSent(c, states, ticks, sent) && i < |ticks|
    requires !ticks[i].pending
    requires var trigger := states[i + 1].effective;
             || (trigger == LikeCam && least == 0)
             || (trigger == LikeCamReduced2Hz && least == 500_000)
             || (trigger == LikeCamReduced1Hz && least == 1_000_000)
    ensures var elapsed := ticks[i].now - states[i].last;
            sent[i] <==>
            && elapsed >= ticks[i].gate
            && if least == 0 && c.limits.fixedRate
               then elapsed >= if c.fixedRateInterval > 0 then c.fixedRateInterval else c.limits.min
               else if !states[i].kinematics then true
               else if ticks[i].dynamics then least == 0 || elapsed >= least
               else elapsed >= states[i].interval
    ensures sent[i] && !(least == 0 && c.limits.fixedRate) && states[i].kinematics ==>
              BackedOff(c, states[i], ticks[i], states[i + 1])
    ensures !sent[i] || !states[i].kinematics || (least == 0 && c.limits.fixedRate) ==>
              states[i + 1].interval == states[i].interval && states[i + 1].lowDynamics == states[i].lowDynamics
  {
    McStepSent(c, d, states, ticks, sent, i);
  }

  /** A message caused by dynamics makes the elapsed time the interval and starts counting anew; one
    * caused by elapsed time counts, and the third one makes the interval the maximum. */
  ghost predicate BackedOff(c: McConfig, s: Mc, t: McTick, s': Mc) {
    if t.dynamics then
      s'.lowDynamics == 0 && s'.interval == if t.now - s.last < c.limits.max then t.now - s.last else c.limits.max
    else
      s'.lowDynamics == s.lowDynamics + 1 && s'.interval == if s.lowDynamics + 1 >= 3 then c.limits.max else s.interval
  }

  /** Something pending: with a fixed coordination trigger a message is due once its interval and the gate
    * have elapsed, where `CoordinateFixedNoDcc` only waits for the minimum interval instead of the gate;
    * with a CAM-like one as for intents. If it is due it is generated, and the intent rate is not adapted. */
  lemma CoordinationRule(c: McConfig, d: Time, states: seq<Mc>, ticks: seq<McTick>, sent: seq<bool>, i: nat)
    requires McRun(c, d, states, ticks) && McSent(c, states, ticks, sent) && i < |ticks|
    requires ticks[i].pending
    ensures var elapsed := ticks[i].now - states[i].last;
            && elapsed >= (if c.coordination == CoordinateFixedNoDcc then c.limits.min else ticks[i].gate)
            && (if c.coordination == CoordinateLikeCam
                then if c.limits.fixedRate
                     then elapsed >= if c.fixedRateInterval > 0 then c.fixedRateInterval else c.limits.min
                     else !states[i].kinematics || ticks[i].dynamics || elapsed >= states[i].interval
                else elapsed >= if c.maxIntervalNeg > 0 then c.maxIntervalNeg else c.limits.min) ==>
              && sent[i] && states[i + 1].last == ticks[i].now
              && states[i + 1].effective == states[i].effective && states[i + 1].reduction == states[i].reduction
              && (c.coordination == CoordinateLikeCam && !c.limits.fixedRate && states[i].kinematics ==>
                    BackedOff(c, states[i], ticks[i], states[i + 1]))
  {
    McStepSent(c, d, states, ticks, sent, i);
  }

  /** Something pending that is not due: the tick is the same as without it. */
  lemma NotDueIsIntent(c: McConfig, s: Mc, t: McTick)
    requires t.pending
    requires var elapsed := t.now - s.last;
             || elapsed < (if c.coordination == CoordinateFixedNoDcc then c.limits.min else t.gate)
             || (if c.coordination == CoordinateLikeCam
                 then if c.limits.fixedRate
                      then elapsed < if c.fixedRateInterval > 0 then c.fixedRateInterval else c.limits.min
                      else s.kinematics && !t.dynamics && elapsed < s.interval
                 else elapsed < if c.maxIntervalNeg > 0 then c.maxIntervalNeg else c.limits.min)
    ensures McAfter(c, s, t) == McAfter(c, s, t.(pending := false))
    ensures McCause(c, s, t) == McCause(c, s, t.(pending := false))
  {
    NotDue(c, s, t);
    hide CoordinationCause, IntentCause, Adapted, Generated;
    IntentsIgnorePending(c, s, t);
    IntentsIgnorePending(c, Adapted(c, s, t), t);
  }

  lemma IntentsIgnorePending(c: McConfig, s: Mc, t: McTick)
    ensures CoordinationCause(c, s, t.(pending := false)) == Nothing
    ensures Adapted(c, s, t.(pending := false)) == Adapted(c, s, t)
    ensures IntentCause(c, s, t.(pending := false)) == IntentCause(c, s, t)
    ensures Generated(c, s, t.(pending := false), IntentCause(c, s, t)) == Generated(c, s, t, IntentCause(c, s, t))
  {
  }

  lemma NotDue(c: McConfig, s: Mc, t: McTick)
    requires t.pending
    requires var elapsed := t.now - s.last;
             || elapsed < (if c.coordination == CoordinateFixedNoDcc then c.limits.min else t.gate)
             || (if c.coordination == CoordinateLikeCam
                 then if c.limits.fixedRate
                      then elapsed < if c.fixedRateInterval > 0 then c.fixedRateInterval else c.limits.min
                      else s.kinematics && !t.dynamics && elapsed < s.interval
                 else elapsed < if c.maxIntervalNeg > 0 then c.maxIntervalNeg else c.limits.min)
    ensures CoordinationCause(c, s, t) == Nothing
  {
  }

  /** Coordination messages flow: while something is pending under a fixed trigger, consecutive messages are
    * less than the larger of its interval and its gate plus one tick apart. */
  lemma CoordinationRate(c: McConfig, d: Time, states: seq<Mc>, ticks: seq<McTick>, sent: seq<bool>, i: nat, j: nat,
                         interval: Time, gate: Time)
    requires McRun(c, d, states, ticks) && McSent(c, states, ticks, sent) && i < j < |ticks|
    requires sent[i] && sent[j] && forall k :: i < k < j ==> !sent[k]
    requires c.coordination != CoordinateLikeCam && d > 0
    requires interval == (if c.maxIntervalNeg > 0 then c.maxIntervalNeg else c.limits.min) && interval > 0
    requires forall k :: i < k <= j ==>
               ticks[k].pending && (if c.coordination == CoordinateFixedNoDcc then c.limits.min else ticks[k].gate) <= gate
    ensures ticks[j].now - ticks[i].now < Max(interval, gate) + d
  {
    hide McRun, McAfter, McCause;
    SentSetsLast(c, d, states, ticks, sent, i);
    McStepSent(c, d, states, ticks, sent, j);
    if i < j - 1 {
      LastStays(c, d, states, ticks, sent, i + 1, j - 1);
      CoordinationRule(c, d, states, ticks, sent, j - 1);
    }
  }

  /** When the intent rate changes, by the flags and thresholds of the configuration: if no coordination
    * message is generated, a CAM-like rate is reduced to one per second exactly above the threshold, and
    * recovers exactly below it after the delay (strictly after it under the general rule). */
  lemma AdaptationRule(c: McConfig, d: Time, states: seq<Mc>, ticks: seq<McTick>, sent: seq<bool>, i: nat, threshold: real)
    requires McRun(c, d, states, ticks) && McSent(c, states, ticks, sent) && i < |ticks|
    requires !ticks[i].pending
    requires if c.newRulesMco then threshold == c.cbrMco
             else if c.newRules && c.newRulesIntent then threshold == (if c.dccOnly then c.cbrMax else c.cbrMin)
             else true
    ensures var on, s, t, s' := c.newRulesMco || (c.newRules && c.newRulesIntent), states[i], ticks[i], states[i + 1];
            && (!on ==> s'.reduction == NotReduced && s'.effective == c.intent)
            && (on && s.reduction.NotReduced? ==>
                  if c.intent == LikeCam && t.cbr > threshold
                  then s'.reduction == Reduced(t.now, t.wait) && s'.effective == FixedOneHz
                  else s'.reduction == NotReduced && s'.effective == c.intent)
            && (on && s.reduction.Reduced? ==>
                  var elapsed := t.now - s.reduction.at;
                  if t.cbr < threshold
                     && (if c.newRulesMco then elapsed >= s.reduction.delay else elapsed > s.reduction.delay)
                  then s'.reduction == NotReduced && s'.effective == c.intent
                  else s'.reduction == s.reduction && s'.effective == FixedOneHz)
  {
    McRunGood(c, d, states, ticks, i);
    McStepSent(c, d, states, ticks, sent, i);
    if !(c.newRulesMco || (c.newRules && c.newRulesIntent)) {
      NeverReduced(c, d, states, ticks, i);
    }
  }

  lemma {:induction false} NeverReduced(c: McConfig, d: Time, states: seq<Mc>, ticks: seq<McTick>, i: nat)
    requires McRun(c, d, states, ticks) && i <= |ticks|
    requires !c.newRulesMco && !(c.newRules && c.newRulesIntent)
    ensures states[i].reduction == NotReduced
  {
    if i > 0 {
      NeverReduced(c, d, states, ticks, i - 1);
      assert McStepAt(c, d, states, ticks, i - 1);
    }
  }
}
