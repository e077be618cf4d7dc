/** Temporary reduction of the CAM rate, and runs of its two holds. */
module CamPolicies {
  import opened Moments

  datatype Baseline = SameAsCAM | Fixed1Hz | Fixed2Hz

  datatype Flags = Flags(observed: bool, own: bool, intent: bool, mco: bool)

  /** A minimum recovery hold. */
  datatype Hold = Hold(active: bool, until: Time)

  /** Uniform draws between two bounds. */
  type Draws = (Time, Time) -> Time

  ghost predicate Uniform(draw: Draws) {
    forall low, high :: low <= high ==> low <= draw(low, high) <= high
  }

  /** What an update may do to a hold: an active one keeps its deadline until an update that is
    * later than it and sees an idle channel; an inactive one is entered with a new deadline if
    * its conditions are met. It cannot end and start again in one update. */
  ghost predicate HoldStep(h: Hold, h': Hold, now: Time, cbr: real, enter: bool, low: Time, high: Time) {
    if h.active then
      if now > h.until && cbr < 0.5 then !h'.active else h' == h
    else if enter then
      h'.active && now + low <= h'.until <= now + high
    else
      !h'.active
  }

  class CamGenerationPolicy {
    const config: Flags
    const baseline: Baseline
    var own: bool
    var observed: Hold
    var background: Hold

    constructor (config: Flags, baseline: Baseline)
      ensures this.config == config && this.baseline == baseline
      ensures !own && !observed.active && !background.active
    {
      this.config, this.baseline := config, baseline;
      own, observed, background := false, Hold(false, 0), Hold(false, 0);
    }

    predicate Enabled()
      ensures Enabled() <==> config != Flags(false, false, false, false)
    {
      config.observed || config.own || config.intent || config.mco
    }

    function Reasons(): (r: nat)
      reads this
      ensures r % 2 == 1 <==> own
      ensures r / 2 % 2 == 1 <==> observed.active
      ensures r / 4 == 0 <==> !background.active
      ensures r / 4 == 2 <==> background.active && config.mco
    {
      (if own then 1 else 0) + (if observed.active then 2 else 0)
      + (if background.active then if config.mco then 8 else 4 else 0)
    }

    method Update(now: Time, cbr: real, negotiating: bool, seesNegotiation: bool, draw: Draws)
      requires Uniform(draw)
      modifies this
      ensures own <==> config.own && negotiating
      ensures HoldStep(old(observed), observed, now, cbr,
                       config.observed && seesNegotiation && cbr >= 0.5,
                       if cbr < 0.65 then 500_000 else 1_000_000,
                       if cbr < 0.65 then 1_500_000 else 2_000_000)
      ensures HoldStep(old(background), background, now, cbr,
                       && !observed.active && !own && baseline == SameAsCAM && cbr > 0.5
                       && (config.mco || (config.observed && config.intent)),
                       if config.mco then 100_000 else 1_000_000,
                       if config.mco then 1_000_000 else if cbr > 0.65 then 5_000_000 else 2_000_000)
    {
      own := config.own && negotiating;
      if observed.active && now > observed.until && cbr < 0.5 {
        observed := observed.(active := false);
      }
      if background.active && now > background.until && cbr < 0.5 {
        background := background.(active := false);
      }
      if config.observed && !observed.active && seesNegotiation && cbr >= 0.5 {
        var wait := if cbr < 0.65 then draw(500 * MILLISECOND, 1500 * MILLISECOND)
                    else draw(SECOND, 2 * SECOND);
        observed := Hold(true, now + wait);
      }
      if !background.active && !observed.active && !own && baseline == SameAsCAM {
        if config.mco && cbr > 0.5 {
          background := Hold(true, now + draw(100 * MILLISECOND, SECOND));
        } else if !config.mco && config.observed && config.intent && cbr > 0.5 {
          var wait := if cbr > 0.65 then draw(SECOND, 5 * SECOND) else draw(SECOND, 2 * SECOND);
          background := Hold(true, now + wait);
        }
      }
    }

    /** The effective period: that of the configured baseline unless some reason asks for one
      * second; zero leaves it to the dynamics rules. So nothing but the reasons, which are
      * temporary, separates the effective from the configured policy. */
    function PeriodicInterval(): (interval: Time)
      reads this
      ensures Reasons() != 0 <==> own || observed.active || background.active
      ensures Reasons() == 0 ==>
                interval == match baseline
                            case SameAsCAM => 0
                            case Fixed1Hz => 1_000_000
                            case Fixed2Hz => 500_000
      ensures Reasons() != 0 ==> interval == 1_000_000
      ensures 0 <= interval <= SECOND
    {
      var interval := match baseline
        case Fixed1Hz => SECOND
        case Fixed2Hz => 500 * MILLISECOND
        case SameAsCAM => 0;
      if Reasons() != 0 && interval < SECOND then SECOND else interval
    }
  }

  // ------------------------------------------------------------------ runs of a hold

  datatype Input = Input(now: Time, cbr: real, enter: bool, low: Time, high: Time)

  /** Update `k` takes hold `k` to hold `k + 1`. */
  ghost predicate HoldRun(holds: seq<Hold>, inputs: seq<Input>) {
    && |holds| == |inputs| + 1
    && forall k :: 0 <= k < |inputs| ==> StepWith(holds[k], inputs[k], holds[k + 1])
  }

  ghost predicate StepWith(h: Hold, i: Input, h': Hold) {
    HoldStep(h, h', i.now, i.cbr, i.enter, i.low, i.high)
  }

  /** An update that lets a hold with this deadline end. */
  predicate Releases(i: Input, until: Time) {
    i.now > until && i.cbr < 0.5
  }

  /** Over any run, a hold that is active before update `i` is still active before update `j`,
    * with its deadline unchanged and never re-entered, exactly if no update in between
    * releases it. */
  lemma {:induction false} HeldExactly(holds: seq<Hold>, inputs: seq<Input>, i: nat, j: nat)
    requires HoldRun(holds, inputs) && i <= j < |holds| && holds[i].active
    ensures (forall k :: i <= k <= j ==> holds[k] == holds[i])
            <==> (forall k :: i <= k < j ==> !Releases(inputs[k], holds[i].until))
  {
    if i < j {
      HeldExactly(holds, inputs, i, j - 1);
      assert StepWith(holds[j - 1], inputs[j - 1], holds[j]);
      if forall k :: i <= k <= j ==> holds[k] == holds[i] {
        assert holds[j - 1] == holds[i] && holds[j] == holds[i];
        assert forall k :: i <= k <= j - 1 ==> holds[k] == holds[i];
      } else if forall k :: i <= k < j ==> !Releases(inputs[k], holds[i].until) {
        assert !Releases(inputs[j - 1], holds[i].until);
      }
    }
  }

  /** Every active hold was entered by one update of the run, which drew its deadline, and has
    * been active since; so its minimum time is kept. */
  lemma {:induction false} EnteredOnce(holds: seq<Hold>, inputs: seq<Input>, j: nat) returns (entry: nat)
    requires HoldRun(holds, inputs) && j < |holds| && holds[j].active && !holds[0].active
    ensures entry < j && inputs[entry].enter && !holds[entry].active
    ensures inputs[entry].now + inputs[entry].low <= holds[j].until <= inputs[entry].now + inputs[entry].high
    ensures forall k :: entry < k <= j ==> holds[k] == holds[j]
  {
    assert StepWith(holds[j - 1], inputs[j - 1], holds[j]);
    if holds[j - 1].active {
      entry := EnteredOnce(holds, inputs, j - 1);
    } else {
      entry := j - 1;
    }
  }
}
