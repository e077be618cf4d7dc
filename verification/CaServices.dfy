/** The cooperative awareness service: every execution is a run in the sense of CamRuns. */
module CaServices {
  import opened Moments
  import opened CamPolicies
  import opened CamRuns

  class CaService {
    const genCamMin: Time
    const genCamMax: Time
    const dccRestriction: bool
    const fixedRate: bool
    const policy: CamGenerationPolicy
    var genCam: Time
    var lowDynamicsCounter: nat
    var lastCam: Time

    /** The longest time between two ticks, the run so far, and which ticks generated a message. */
    ghost const d: Time
    ghost var cams: seq<Cam>
    ghost var ticks: seq<Tick>
    ghost var log: seq<bool>

    ghost function Bounds(): Limits {
      Limits(genCamMin, genCamMax, fixedRate)
    }

    ghost predicate Valid()
      reads this
    {
      && Run(Bounds(), d, cams, ticks) && Sent(Bounds(), cams, ticks, log)
      && cams[|ticks|] == Cam(genCam, lowDynamicsCounter, lastCam)
    }

    ghost function LastTick(): Time
      reads this
      requires |cams| == |ticks| + 1
    {
      Before(cams, ticks, |ticks|)
    }

    constructor (genCamMin: Time, genCamMax: Time, dccRestriction: bool, fixedRate: bool,
                 policy: CamGenerationPolicy, now: Time, ghost d: Time)
      ensures Valid() && LastTick() == now && ticks == [] && this.policy == policy
      ensures Bounds() == Limits(genCamMin, genCamMax, fixedRate) && this.d == d
      ensures this.dccRestriction == dccRestriction
    {
      this.genCamMin, this.genCamMax := genCamMin, genCamMax;
      this.dccRestriction, this.fixedRate, this.policy := dccRestriction, fixedRate, policy;
      genCam, lowDynamicsCounter, lastCam := genCamMax, 0, now;
      this.d := d;
      cams, ticks, log := [Cam(genCamMax, 0, now)], [], [];
    }

    /** One middleware tick: updates the policy, then generates a message or not. `dcc` is the
      * interval congestion control asks for; the three flags say which kinematics changed by
      * more than their threshold since the last message. */
    method Trigger(now: Time, cbr: real, negotiating: bool, seesNegotiation: bool, draw: Draws,
                   dcc: Time, heading: bool, position: bool, speed: bool) returns (sent: bool)
      requires Valid() && LastTick() <= now <= LastTick() + d && Uniform(draw)
      modifies this, policy
      ensures Valid() && LastTick() == now
      ensures |ticks| == |old(ticks)| + 1 && old(ticks) <= ticks && old(cams) <= cams
      ensures var t := ticks[|ticks| - 1];
              t == Tick(now, policy.PeriodicInterval(),
                        if dccRestriction then Clamp(Bounds(), dcc) else genCamMin,
                        heading || position || speed)
      ensures log == old(log) + [sent]
      ensures policy.config == Flags(false, false, false, false) ==>
                policy.own == old(policy.own) && policy.observed == old(policy.observed)
                && policy.background == old(policy.background)
      ensures policy.config != Flags(false, false, false, false) ==>
                && (policy.own <==> policy.config.own && negotiating)
                && HoldStep(old(policy.observed), policy.observed, now, cbr,
                            policy.config.observed && seesNegotiation && cbr >= 0.5,
                            if cbr < 0.65 then 500_000 else 1_000_000,
                            if cbr < 0.65 then 1_500_000 else 2_000_000)
                && HoldStep(old(policy.background), policy.background, now, cbr,
                            && !policy.observed.active && !policy.own && policy.baseline == SameAsCAM && cbr > 0.5
                            && (policy.config.mco || (policy.config.observed && policy.config.intent)),
                            if policy.config.mco then 100_000 else 1_000_000,
                            if policy.config.mco then 1_000_000 else if cbr > 0.65 then 5_000_000 else 2_000_000)
    {
      if policy.Enabled() {
        policy.Update(now, cbr, negotiating, seesNegotiation, draw);
      }
      sent := CheckTriggeringConditions(now, dcc, heading, position, speed);
      ghost var t := Tick(now, policy.PeriodicInterval(),
                          if dccRestriction then Clamp(Bounds(), dcc) else genCamMin,
                          heading || position || speed);
      Extend(Bounds(), d, cams, ticks, t);
      ExtendSent(Bounds(), cams, ticks, log, Cam(genCam, lowDynamicsCounter, lastCam), t, sent);
      cams := cams + [Cam(genCam, lowDynamicsCounter, lastCam)];
      ticks, log := ticks + [t], log + [sent];
    }

    /** Generates a message exactly if the gate is open and the period, the fixed rate, the dynamics or
      * the interval ask for one. */
    method CheckTriggeringConditions(now: Time, dcc: Time, heading: bool, position: bool, speed: bool)
        returns (sent: bool)
      modifies this`genCam, this`lowDynamicsCounter, this`lastCam
      ensures var elapsed := now - old(lastCam);
              sent <==>
              && elapsed >= (if dccRestriction then Clamp(Bounds(), dcc) else genCamMin)
              && if policy.PeriodicInterval() > 0 then elapsed >= policy.PeriodicInterval()
                 else fixedRate || heading || position || speed || elapsed >= old(genCam)
      ensures lastCam == if sent then now else old(lastCam)
      ensures var t := Tick(now, policy.PeriodicInterval(),
                            if dccRestriction then Clamp(Bounds(), dcc) else genCamMin,
                            heading || position || speed);
              var before := old(Cam(genCam, lowDynamicsCounter, lastCam));
              && (sent <==> CauseOf(Bounds(), before, t) != Nothing)
              && Cam(genCam, lowDynamicsCounter, lastCam) == After(Bounds(), before, t)
    {
      var gate := if dccRestriction then GenCamDcc(dcc) else genCamMin;
      var elapsed := now - lastCam;
      if policy.PeriodicInterval() > 0 {
        var period := policy.PeriodicInterval();
        if elapsed >= (if period < gate then gate else period) {
          lastCam := now;
          return true;
        }
        return false;
      }
      if elapsed >= gate {
        if fixedRate {
          lastCam := now;
          return true;
        } else if heading || position || speed {
          lastCam := now;
          genCam := if elapsed < genCamMax then elapsed else genCamMax;
          lowDynamicsCounter := 0;
          return true;
        } else if elapsed >= genCam {
          lastCam := now;
          lowDynamicsCounter := lowDynamicsCounter + 1;
          if lowDynamicsCounter >= LOW_DYNAMICS_LIMIT {
            genCam := genCamMax;
          }
          return true;
        }
      }
      return false;
    }

    function GenCamDcc(dcc: Time): (gate: Time)
      ensures gate == Clamp(Limits(genCamMin, genCamMax, fixedRate), dcc)
    {
      var raised := if dcc < genCamMin then genCamMin else dcc;
      if raised < genCamMax then raised else genCamMax
    }
  }

  lemma ExtendSent(l: Limits, cams: seq<Cam>, ticks: seq<Tick>, sent: seq<bool>, cam: Cam, t: Tick, now: bool)
    requires Sent(l, cams, ticks, sent) && (now <==> CauseOf(l, cams[|ticks|], t) != Nothing)
    ensures Sent(l, cams + [cam], ticks + [t], sent + [now])
  {
    var cams', ticks' := cams + [cam], ticks + [t];
    forall i: nat | i < |ticks'| ensures (sent + [now])[i] <==> Sends(l, cams', ticks', i) {
      if i < |ticks| {
        assert (sent[i] <==> Sends(l, cams, ticks, i)) && cams'[i] == cams[i] && ticks'[i] == ticks[i];
      }
    }
  }

  lemma Extend(l: Limits, d: Time, cams: seq<Cam>, ticks: seq<Tick>, t: Tick)
    requires Run(l, d, cams, ticks) && Between(l, d, Before(cams, ticks, |ticks|), t)
    ensures Run(l, d, cams + [After(l, cams[|ticks|], t)], ticks + [t])
  {
    var cams', ticks' := cams + [After(l, cams[|ticks|], t)], ticks + [t];
    forall i: nat | i < |ticks'| ensures StepAt(l, d, cams', ticks', i) {
      if i < |ticks| {
        assert StepAt(l, d, cams, ticks, i);
        assert cams'[i] == cams[i] && cams'[i + 1] == cams[i + 1] && ticks'[i] == ticks[i];
        assert Before(cams', ticks', i) == Before(cams, ticks, i);
      }
    }
  }
}
