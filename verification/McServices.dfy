/** The maneuver coordination service's generation policy: every execution is a run in the sense
  * of McRuns. */
module McServices {
  import opened Moments
  import opened CamPolicies
  import opened CamRuns
  import opened McRuns

  class McService {
    const config: McConfig
    const dccRestriction: bool
    var effectiveIntentTrigger: IntentTrigger
    var reduction: Reduction
    var genMcm: Time
    var lowDynamicsCounter: nat
    var lastMcm: Time
    var hasLastKinematics: bool

    /** The longest time between two ticks, the run so far, and which ticks generated a message. */
    ghost const d: Time
    ghost var states: seq<Mc>
    ghost var ticks: seq<McTick>
    ghost var log: seq<bool>

    ghost function State(): Mc
      reads this
    {
      Mc(genMcm, lowDynamicsCounter, lastMcm, hasLastKinematics, effectiveIntentTrigger, reduction)
    }

    ghost predicate Valid()
      reads this
    {
      McRun(config, d, states, ticks) && McSent(config, states, ticks, log) && states[|ticks|] == State()
    }

    ghost function LastTick(): Time
      requires |states| == |ticks| + 1
      reads this
    {
      McBefore(states, ticks, |ticks|)
    }

    constructor (config: McConfig, dccRestriction: bool, now: Time, ghost d: Time)
      ensures Valid() && LastTick() == now && ticks == [] && this.config == config && this.d == d
      ensures this.dccRestriction == dccRestriction
    {
      this.config, this.dccRestriction := config, dccRestriction;
      effectiveIntentTrigger, reduction := config.intent, NotReduced;
      genMcm, lowDynamicsCounter, lastMcm, hasLastKinematics := config.limits.max, 0, now, false;
      this.d := d;
      states, ticks, log := [Mc(config.limits.max, 0, now, false, config.intent, NotReduced)], [], [];
    }

    /** One tick: `dcc` is the interval congestion control asks for, `pending` says whether the
      * application has a coordination command, `draw` is the random number generator. */
    method CheckTriggeringConditions(now: Time, dcc: Time, pending: bool, dynamics: bool, cbr: real,
                                     draw: Draws) returns (sent: bool)
      requires Valid() && LastTick() <= now <= LastTick() + d && Uniform(draw)
      modifies this
      ensures Valid() && LastTick() == now
      ensures |ticks| == |old(ticks)| + 1 && old(ticks) <= ticks && old(states) <= states
      ensures var t := ticks[|old(ticks)|];
              && t == McTick(now, if dccRestriction then Clamp(config.limits, dcc) else config.limits.min,
                             pending, dynamics, cbr, t.wait)
              && (if config.newRulesMco
                  then if config.dccOnly then 100_000 <= t.wait <= 1_000_000 else 1_000_000 <= t.wait <= 2_000_000
                  else if config.dccOnly then 500_000 <= t.wait <= 1_500_000 else 1_000_000 <= t.wait <= 2_000_000)
      ensures log == old(log) + [sent]
    {
      var gate := Gate(dcc);
      ghost var t := McTick(now, gate, pending, dynamics, cbr, Wait(draw));
      sent := Check(now, gate, pending, dynamics, cbr, draw);
      McExtend(config, d, states, ticks, t);
      McExtendSent(config, states, ticks, log, State(), t, sent);
      states := states + [State()];
      ticks, log := ticks + [t], log + [sent];
    }

    function Gate(dcc: Time): Time {
      if dccRestriction then Clamp(config.limits, dcc) else config.limits.min
    }

    method Check(now: Time, gate: Time, pending: bool, dynamics: bool, cbr: real, draw: Draws)
        returns (sent: bool)
      modifies this`effectiveIntentTrigger, this`reduction, this`genMcm, this`lowDynamicsCounter,
               this`lastMcm, this`hasLastKinematics
      ensures var t := McTick(now, gate, pending, dynamics, cbr, Wait(draw));
              && State() == McAfter(config, old(State()), t)
              && (sent <==> McCause(config, old(State()), t) != Nothing)
    {
      var coordinate := ShouldGenerateCoordinationMcm(now, gate, pending, dynamics);
      if coordinate {
        SendMcm(now);
        return true;
      }
      UpdateAdaptiveIntentFrequency(now, cbr, draw);
      var intent := ShouldGenerateIntentMcm(now, gate, dynamics);
      if intent {
        SendMcm(now);
        return true;
      }
      return false;
    }

    /** The part of sending that matters for generation. */
    method SendMcm(now: Time)
      modifies this`lastMcm, this`hasLastKinematics
      ensures lastMcm == now && hasLastKinematics
    {
      hasLastKinematics := true;
      lastMcm := now;
    }

    /** The recovery delay of a reduction that starts now. */
    function Wait(draw: Draws): Time {
      if config.newRulesMco then
        if config.dccOnly then draw(100 * MILLISECOND, SECOND) else draw(SECOND, 2 * SECOND)
      else
        if config.dccOnly then draw(500 * MILLISECOND, 1500 * MILLISECOND) else draw(SECOND, 2 * SECOND)
    }

    /** What changes when the message admitted for some cause is sent. */
    ghost predicate Admitted(before: Mc, now: Time, gate: Time, pending: bool, dynamics: bool, cbr: real,
                             wait: Time, cause: Cause)
      reads this
    {
      var t := McTick(now, gate, pending, dynamics, cbr, wait);
      if cause == Nothing then State() == before
      else State().(last := now, kinematics := true) == Generated(config, before, t, cause)
    }

    method ShouldGenerateCoordinationMcm(now: Time, gate: Time, pending: bool, dynamics: bool)
        returns (admit: bool)
      modifies this`genMcm, this`lowDynamicsCounter
      ensures forall cbr, wait ::
                var t := McTick(now, gate, pending, dynamics, cbr, wait);
                && (admit <==> CoordinationCause(config, old(State()), t) != Nothing)
                && Admitted(old(State()), now, gate, pending, dynamics, cbr, wait,
                            CoordinationCause(config, old(State()), t))
    {
      if !pending {
        return false;
      }
      var elapsed := now - lastMcm;
      var dccGate := if config.coordination == CoordinateFixedNoDcc then config.limits.min else gate;
      if elapsed < dccGate {
        return false;
      }
      if config.coordination == CoordinateFixed || config.coordination == CoordinateFixedNoDcc {
        return elapsed >= if config.maxIntervalNeg > 0 then config.maxIntervalNeg else config.limits.min;
      }
      if config.limits.fixedRate {
        return elapsed >= FixedInterval(config);
      }
      if !hasLastKinematics {
        return true;
      }
      if dynamics {
        genMcm := if elapsed < config.limits.max then elapsed else config.limits.max;
        lowDynamicsCounter := 0;
        return true;
      }
      if elapsed >= genMcm {
        lowDynamicsCounter := lowDynamicsCounter + 1;
        if lowDynamicsCounter >= LOW_DYNAMICS_LIMIT {
          genMcm := config.limits.max;
        }
        return true;
      }
      return false;
    }

    method ShouldGenerateIntentMcm(now: Time, gate: Time, dynamics: bool) returns (admit: bool)
      modifies this`genMcm, this`lowDynamicsCounter
      ensures forall pending, cbr, wait ::
                var t := McTick(now, gate, pending, dynamics, cbr, wait);
                && (admit <==> IntentCause(config, old(State()), t) != Nothing)
                && Admitted(old(State()), now, gate, pending, dynamics, cbr, wait,
                            IntentCause(config, old(State()), t))
    {
      var elapsed := now - lastMcm;
      var trigger := effectiveIntentTrigger;
      if elapsed < gate {
        return false;
      }
      if IsPeriodic(trigger) {
        return elapsed >= IntentInterval(config, trigger);
      }
      if trigger == LikeCam && config.limits.fixedRate {
        return elapsed >= FixedInterval(config);
      }
      if !hasLastKinematics {
        return true;
      }
      var reducedInterval := IntentInterval(config, trigger);
      if dynamics {
        if (trigger == LikeCamReduced1Hz || trigger == LikeCamReduced2Hz) && elapsed < reducedInterval {
          return false;
        }
        genMcm := if elapsed < config.limits.max then elapsed else config.limits.max;
        lowDynamicsCounter := 0;
        return true;
      }
      if elapsed >= genMcm {
        lowDynamicsCounter := lowDynamicsCounter + 1;
        if lowDynamicsCounter >= LOW_DYNAMICS_LIMIT {
          genMcm := config.limits.max;
        }
        return true;
      }
      return false;
    }

    method UpdateAdaptiveIntentFrequency(now: Time, cbr: real, draw: Draws)
      modifies this`effectiveIntentTrigger, this`reduction
      ensures forall gate, pending, dynamics ::
                State() == Adapted(config, old(State()), McTick(now, gate, pending, dynamics, cbr, Wait(draw)))
    {
      if config.newRulesMco {
        var threshold := config.cbrMco;
        if reduction.NotReduced? && effectiveIntentTrigger == LikeCam && cbr > threshold {
          effectiveIntentTrigger := FixedOneHz;
          reduction := Reduced(now, if config.dccOnly then draw(100 * MILLISECOND, SECOND)
                                    else draw(SECOND, 2 * SECOND));
          return;
        }
        if reduction.Reduced? && effectiveIntentTrigger == FixedOneHz && cbr < threshold
           && now - reduction.at >= reduction.delay {
          effectiveIntentTrigger := LikeCam;
          reduction := NotReduced;
        }
        return;
      }
      if !(config.newRules && config.newRulesIntent) {
        return;
      }
      var threshold := if config.dccOnly then config.cbrMax else config.cbrMin;
      if reduction.NotReduced? && effectiveIntentTrigger == LikeCam && cbr > threshold {
        effectiveIntentTrigger := FixedOneHz;
        reduction := Reduced(now, if config.dccOnly then draw(500 * MILLISECOND, 1500 * MILLISECOND)
                                  else draw(SECOND, 2 * SECOND));
        return;
      }
      if reduction.Reduced? && effectiveIntentTrigger == FixedOneHz && cbr < threshold
         && now - reduction.at > reduction.delay {
        effectiveIntentTrigger := config.intent;
        reduction := NotReduced;
      }
    }
  }

  lemma McExtendSent(c: McConfig, states: seq<Mc>, ticks: seq<McTick>, sent: seq<bool>, state: Mc, t: McTick, now: bool)
    requires McSent(c, states, ticks, sent) && (now <==> McCause(c, states[|ticks|], t) != Nothing)
    ensures McSent(c, states + [state], ticks + [t], sent + [now])
  {
    hide McCause;
    var states', ticks' := states + [state], ticks + [t];
    forall i: nat | i < |ticks'| ensures (sent + [now])[i] <==> McSends(c, states', ticks', i) {
      if i < |ticks| {
        assert (sent[i] <==> McSends(c, states, ticks, i)) && states'[i] == states[i] && ticks'[i] == ticks[i];
      }
    }
  }

  lemma McExtend(c: McConfig, d: Time, states: seq<Mc>, ticks: seq<McTick>, t: McTick)
    requires McRun(c, d, states, ticks) && McBetween(c, d, McBefore(states, ticks, |ticks|), t)
    ensures McRun(c, d, states + [McAfter(c, states[|ticks|], t)], ticks + [t])
  {
    hide McAfter;
    var states', ticks' := states + [McAfter(c, states[|ticks|], t)], ticks + [t];
    forall i: nat | i < |ticks'| ensures McStepAt(c, d, states', ticks', i) {
      if i < |ticks| {
        assert McStepAt(c, d, states, ticks, i);
        assert states'[i] == states[i] && states'[i + 1] == states[i + 1] && ticks'[i] == ticks[i];
        assert McBefore(states', ticks', i) == McBefore(states, ticks, i);
      }
    }
  }
}
