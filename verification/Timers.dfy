/** The facilities timer: simulation time, absolute (TAI) time and the 16-bit millisecond
  * timestamps on the wire. Simulation time is counted in picoseconds here, so that truncation to
  * microseconds is visible. */
module Timers {

  type SimTime = int

  const MICRO: int := 1_000_000
  const EPOCH: nat := 0x1_0000
  const U64: nat := 0x1_0000_0000_0000_0000

  /** Absolute times up to here fit into signed 64-bit microseconds, also one epoch later. */
  const HORIZON: nat := U64 / 2000 - EPOCH

  /** An unsigned 64-bit number as the signed one with the same bits. */
  function Signed(x: nat): int {
    if x < U64 / 2 then x else x - U64
  }

  /** The value in the current epoch. */
  function InEpoch(now: nat, ms16: nat): nat
    requires ms16 < EPOCH
  {
    now - now % EPOCH + ms16
  }

  /** The reconstruction on unsigned 64-bit numbers: the current epoch's value, moved by one epoch
    * if it is too far away. In the first epoch the subtraction wraps around. */
  function Reconstructed(now: nat, ms16: nat): nat
    requires ms16 < EPOCH
  {
    var rec := InEpoch(now, ms16);
    if now > rec + 0x7fff then (rec + EPOCH) % U64
    else if now + 0x7fff < rec then (rec - EPOCH) % U64
    else rec
  }

  /** What is made of it: a signed count of milliseconds. */
  function Reconstruct(now: nat, ms16: nat): int
    requires ms16 < EPOCH
  {
    Signed(Reconstructed(now, ms16))
  }

  /** Distance of two times. */
  function Distance(a: int, b: int): nat { if a < b then b - a else a - b }

  /** The result is the nearest value congruent to the timestamp, and the two run-time assertions
    * about unsigned differences hold. This includes the first epoch: the signed count undoes the
    * wrap-around. */
  lemma ReconstructsNearest(now: nat, ms16: nat)
    requires ms16 < EPOCH && now < HORIZON
    ensures Reconstruct(now, ms16) % EPOCH == ms16
    ensures Distance(Reconstruct(now, ms16), now) <= 0x8000
    ensures now > InEpoch(now, ms16) + 0x7fff ==> (Reconstructed(now, ms16) - now) % U64 <= 0x8000
    ensures now + 0x7fff < InEpoch(now, ms16) ==> (now - Reconstructed(now, ms16)) % U64 <= 0x8000
  {
    Congruent(now, ms16);
  }

  lemma Congruent(now: nat, ms16: nat)
    requires ms16 < EPOCH
    ensures InEpoch(now, ms16) % EPOCH == ms16
    ensures (InEpoch(now, ms16) + EPOCH) % EPOCH == ms16
    ensures (InEpoch(now, ms16) - EPOCH) % EPOCH == ms16
  {
  }

  /** Truncating a time to 16 bits and reconstructing it gives it back exactly if it is less than
    * half an epoch away from now; exactly half an epoch away it depends on where in its epoch
    * now is. */
  lemma ReconstructInverts(now: nat, t: int)
    requires now < HORIZON
    ensures Reconstruct(now, t % EPOCH) == t <==>
            || Distance(t, now) <= 0x7fff
            || (t == now + 0x8000 && now % EPOCH >= 0x8000)
            || (t == now - 0x8000 && now % EPOCH < 0x8000)
  {
    ReconstructsNearest(now, t % EPOCH);
    if Distance(t, now) <= 0x8000 {
      Offsets(now, t);
    }
  }

  /** Within half an epoch the epochs of two times differ by at most one. */
  lemma Offsets(now: nat, t: int)
    requires Distance(t, now) <= 0x8000
    ensures t - t % EPOCH in {now - now % EPOCH - EPOCH, now - now % EPOCH, now - now % EPOCH + EPOCH}
    ensures t >= now ==> t - t % EPOCH >= now - now % EPOCH
    ensures t <= now ==> t - t % EPOCH <= now - now % EPOCH
  {
  }

  datatype Checked = Offset(delta: int) | OutOfRange | Ambiguous | Future

  /** The distance of a received timestamp from now; malformed, ambiguous and future ones are
    * rejected. */
  function TimestampOffset(raw: int, now: nat): Checked {
    if raw < 0 || raw > 65535 then OutOfRange
    else
      var delta0 := raw - now % EPOCH;
      var delta1 := if delta0 > 32768 then delta0 - EPOCH else delta0;
      var delta := if delta1 < -32768 then delta1 + EPOCH else delta1;
      if delta == 32768 || delta == -32768 then Ambiguous
      else if delta > 0 then Future
      else Offset(delta)
  }

  /** A timestamp passes exactly if some time at most 32767 ms ago has it, and that time is the one
    * the timer reconstructs. In the first epoch it may lie before absolute time zero. */
  lemma OffsetIff(raw: int, now: nat)
    requires now < HORIZON
    ensures TimestampOffset(raw, now).Offset? <==>
            exists t: int :: now - 0x7fff <= t <= now && t % EPOCH == raw
    ensures TimestampOffset(raw, now).Offset? ==>
            0 <= raw < EPOCH && Reconstruct(now, raw) == now + TimestampOffset(raw, now).delta
            && -0x7fff <= TimestampOffset(raw, now).delta <= 0
  {
    if t: int :| now - 0x7fff <= t <= now && t % EPOCH == raw {
      ReconstructInverts(now, t);
      Offsets(now, t);
    }
    if TimestampOffset(raw, now).Offset? {
      var t := now + TimestampOffset(raw, now).delta;
      OffsetCongruent(raw, now);
      assert now - 0x7fff <= t <= now && t % EPOCH == raw;
      ReconstructInverts(now, t);
    }
  }

  /** Why a timestamp is rejected: it is no 16-bit number, it is exactly half an epoch away, or some
    * time at most 32767 ms ahead has it. */
  lemma RejectedIff(raw: int, now: nat)
    requires now < HORIZON
    ensures TimestampOffset(raw, now) == OutOfRange <==> !(0 <= raw < 65536)
    ensures TimestampOffset(raw, now) == Ambiguous <==> (now + 32768) % 65536 == raw
    ensures TimestampOffset(raw, now) == Future <==>
            exists t: int :: now < t <= now + 32767 && t % 65536 == raw
  {
    if t: int :| now < t <= now + 32767 && t % 65536 == raw {
      Offsets(now, t);
    }
    Offsets(now, now + 32768);
    if TimestampOffset(raw, now) == Future {
      Congruent(now, raw);
      var inEpoch := InEpoch(now, raw);
      assert now < inEpoch <= now + 32767 || now < inEpoch + EPOCH <= now + 32767;
    }
  }

  lemma OffsetCongruent(raw: int, now: nat)
    requires TimestampOffset(raw, now).Offset?
    ensures (now + TimestampOffset(raw, now).delta) % EPOCH == raw
    ensures -0x7fff <= TimestampOffset(raw, now).delta <= 0
  {
    Congruent(now, raw);
  }

  /** The absolute time of simulation time zero, in microseconds. */
  class Timer {
    var timebase: nat

    constructor (timebase: nat)
      ensures this.timebase == timebase
    {
      this.timebase := timebase;
    }

    method SetTimebase(datetime: nat)
      modifies this
      ensures timebase == datetime
    {
      timebase := datetime;
    }

    /** Simulation time to absolute microseconds; fractions of a microsecond are cut off. */
    function GetTimeFor(sim: SimTime): nat
      requires sim >= 0
      reads this
    {
      timebase + sim / MICRO
    }

    /** Absolute microseconds to simulation time; times before the start become zero. */
    function GetSimTimeFor(tai: int): SimTime
      reads this
    {
      if tai < timebase then 0 else (tai - timebase) * MICRO
    }

    function ReconstructMilliseconds(ms16: nat, sim: SimTime): int
      requires sim >= 0 && ms16 < EPOCH
      reads this
    {
      Reconstruct(CountMilliseconds(GetTimeFor(sim)), ms16) * 1000
    }

    /** The simulation time a received message was generated at, or why it is rejected. It may lie
      * before the start of the simulation. */
    function ReconstructMcmTime(raw: int, sim: SimTime): (r: (Checked, SimTime))
      requires sim >= 0
      reads this
    {
      var checked := TimestampOffset(raw, CountMilliseconds(GetTimeFor(sim)));
      if checked.Offset? then
        var delta := ReconstructMilliseconds(raw, sim) - GetTimeFor(sim);
        (checked, sim / MICRO * MICRO + delta * MICRO)
      else (checked, 0)
    }

    /** Converting to absolute time and back only cuts off the fraction of a microsecond. */
    lemma TimesRoundTrip(sim: SimTime, tai: int)
      requires sim >= 0
      ensures GetSimTimeFor(GetTimeFor(sim)) == sim - sim % 1_000_000
      ensures tai >= timebase ==> GetTimeFor(GetSimTimeFor(tai)) == tai
      ensures tai < timebase ==> GetTimeFor(GetSimTimeFor(tai)) == timebase
    {
    }

    /** All receivers agree: a message generated at `generated` and received within 32767 ms is
      * taken to be generated at the same simulation time, whenever it is received. That time is
      * the start of the absolute millisecond `generated` is in; so if the simulation starts on a
      * full millisecond it is `generated` itself, cut off to milliseconds. */
    lemma ReceiversAgree(generated: SimTime, received: SimTime)
      requires 0 <= generated <= received
      requires CountMilliseconds(GetTimeFor(received)) < HORIZON
      requires CountMilliseconds(GetTimeFor(received)) - CountMilliseconds(GetTimeFor(generated)) <= 0x7fff
      ensures var wire := CountMilliseconds(GetTimeFor(generated)) % EPOCH;
              var (checked, time) := ReconstructMcmTime(wire, received);
              && checked.Offset?
              && time == (CountMilliseconds(GetTimeFor(generated)) * 1000 - timebase) * 1_000_000
              && (timebase % 1000 == 0 ==> time == generated / 1_000_000_000 * 1_000_000_000)
    {
      var g, now := CountMilliseconds(GetTimeFor(generated)), CountMilliseconds(GetTimeFor(received));
      var us := received / MICRO;
      assert generated / MICRO <= us;
      OffsetIff(g % EPOCH, now);
      ReconstructInverts(now, g);
      var delta := g * 1000 - (timebase + us);
      assert us * MICRO + delta * MICRO == (us + delta) * MICRO;
      if timebase % 1000 == 0 {
        FullMilliseconds(timebase, generated);
      }
    }
  }

  /** Whole milliseconds of an absolute time in microseconds. */
  function CountMilliseconds(tai: nat): nat {
    tai / 1000
  }

  lemma FullMilliseconds(timebase: nat, sim: SimTime)
    requires timebase % 1000 == 0 && sim >= 0
    ensures CountMilliseconds(timebase + sim / MICRO) * 1000 - timebase == sim / (1000 * MICRO) * 1000
  {
    var b, us := timebase / 1000, sim / MICRO;
    assert timebase == b * 1000;
    assert (b * 1000 + us) / 1000 == b + us / 1000;
    assert sim / MICRO / 1000 == sim / (1000 * MICRO);
  }
}
