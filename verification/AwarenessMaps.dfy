/** What a station knows about others from their latest messages, and whether that contains a
  * maneuver negotiation. The maps for CAMs and MCMs differ in the lifetime of an entry. */
module AwarenessMaps {
  import opened Moments
  import opened Timers

  const MILLI: SimTime := 1000 * MICRO
  const CAM_LIFETIME: SimTime := 1100 * MILLI
  const MCM_LIFETIME: SimTime := 2000 * MILLI

  type StationId = nat

  datatype Entry<+Message> = Entry(message: Message, receivedAt: SimTime, expiry: SimTime)

  /** A message received, accepted or not. */
  datatype Reception<+Message> = Reception(station: StationId, entry: Entry<Message>)

  /** Expired messages and those from too far in the future are not accepted. */
  predicate Accepted<Message>(r: Reception<Message>, lifetime: SimTime) {
    r.entry.receivedAt <= r.entry.expiry <= r.entry.receivedAt + 2 * lifetime
  }

  /** The last accepted message of a station in a whole log of receptions. */
  function LastAccepted<Message>(log: seq<Reception<Message>>, lifetime: SimTime, station: StationId)
      : (last: Option<Entry<Message>>)
    ensures last.Some? ==>
              last.value.receivedAt <= last.value.expiry <= last.value.receivedAt + 2 * lifetime
  {
    if log == [] then None
    else
      var r := log[|log| - 1];
      if r.station == station && Accepted(r, lifetime) then Some(r.entry)
      else LastAccepted(log[..|log| - 1], lifetime, station)
  }

  /** From the log alone: of a station's messages that had not expired when they came, nor expire later
    * than two lifetimes after, it is the last one. */
  lemma {:induction false} LastAcceptedIff<Message>(log: seq<Reception<Message>>, lifetime: SimTime,
                                                    station: StationId, e: Entry<Message>)
    ensures LastAccepted(log, lifetime, station) == Some(e) <==>
            exists i :: LastOf(log, lifetime, station, i) && log[i].entry == e
  {
    if log != [] {
      var last := |log| - 1;
      var front := log[..last];
      LastAcceptedIff(front, lifetime, station, e);
      if log[last].station == station && Accepted(log[last], lifetime) {
        assert LastOf(log, lifetime, station, last);
      } else {
        assert forall i :: LastOf(log, lifetime, station, i) <==> LastOf(front, lifetime, station, i);
        assert forall i :: LastOf(front, lifetime, station, i) ==> log[i] == front[i];
      }
    }
  }

  predicate LastOf<Message>(log: seq<Reception<Message>>, lifetime: SimTime, station: StationId, i: int) {
    && 0 <= i < |log| && log[i].station == station
    && log[i].entry.receivedAt <= log[i].entry.expiry <= log[i].entry.receivedAt + 2 * lifetime
    && forall j :: i < j < |log| && log[j].station == station ==>
         !(log[j].entry.receivedAt <= log[j].entry.expiry <= log[j].entry.receivedAt + 2 * lifetime)
  }

  /** The map agrees with the log, except that it may lack expired entries. */
  ghost predicate Agrees<Message>(entries: map<StationId, Entry<Message>>, log: seq<Reception<Message>>,
                                  lifetime: SimTime, now: SimTime)
  {
    forall s: StationId ::
      var last := LastAccepted(log, lifetime, s);
      if s in entries then last == Some(entries[s])
      else last.None? || last.value.expiry < now
  }

  class AwarenessMap<Message> {
    const timer: Timer
    const lifetime: SimTime
    var entries: map<StationId, Entry<Message>>

    /** Everything received so far, and the latest time an operation took place. */
    ghost var log: seq<Reception<Message>>
    ghost var clock: SimTime

    ghost predicate Valid()
      reads this
    {
      Agrees(entries, log, lifetime, clock)
    }

    /** A CAM is known for 1.1 s. */
    constructor ForCams(timer: Timer)
      ensures Valid() && this.timer == timer && lifetime == 1_100_000_000_000
      ensures entries == map[] && log == [] && clock == 0
    {
      this.timer, lifetime := timer, CAM_LIFETIME;
      entries, log, clock := map[], [], 0;
    }

    /** An MCM is known for 2 s. */
    constructor ForMcms(timer: Timer)
      ensures Valid() && this.timer == timer && lifetime == 2_000_000_000_000
      ensures entries == map[] && log == [] && clock == 0
    {
      this.timer, lifetime := timer, MCM_LIFETIME;
      entries, log, clock := map[], [], 0;
    }

    /** Generation time of a message plus lifetime. */
    function Expiry(now: SimTime, ms16: nat): SimTime
      requires now >= 0 && ms16 < EPOCH
      reads timer
    {
      timer.GetSimTimeFor(timer.ReconstructMilliseconds(ms16, now)) + lifetime
    }

    method UpdateAwareness(now: SimTime, station: StationId, ms16: nat, message: Message)
      requires Valid() && 0 <= clock <= now && ms16 < EPOCH
      modifies this
      ensures Valid() && clock == now
      ensures var expiry := timer.GetSimTimeFor(timer.ReconstructMilliseconds(ms16, now)) + lifetime;
              && log == old(log) + [Reception(station, Entry(message, now, expiry))]
              && entries == if now <= expiry <= now + 2 * lifetime
                            then old(entries)[station := Entry(message, now, expiry)] else old(entries)
    {
      var expiry := Expiry(now, ms16);
      ghost var r := Reception(station, Entry(message, now, expiry));
      LogGrows(entries, log, lifetime, clock, now, r);
      log, clock := log + [r], now;
      if expiry < now || expiry > now + 2 * lifetime {
        return;
      }
      entries := entries[station := Entry(message, now, expiry)];
    }

    /** Afterwards the map is exactly the last accepted messages that have not expired. */
    method DropExpired(now: SimTime)
      requires Valid() && clock <= now
      modifies this
      ensures Valid() && clock == now && log == old(log)
      ensures forall s: StationId ::
                var last := LastAccepted(log, lifetime, s);
                && (s in entries <==> last.Some? && last.value.expiry >= now)
                && (s in entries ==> entries[s] == last.value
                                     && now <= entries[s].receivedAt + 2 * lifetime)
    {
      var todo := entries.Keys;
      while todo != {}
        invariant todo <= entries.Keys <= old(entries).Keys
        invariant forall s :: s in entries ==> entries[s] == old(entries)[s]
        invariant forall s :: s in old(entries) && s !in entries ==> old(entries)[s].expiry < now
        invariant forall s :: s in entries && s !in todo ==> entries[s].expiry >= now
        invariant log == old(log) && clock == old(clock)
        decreases |todo|
      {
        assert Pick(todo) in todo;
        var s :| s in todo;
        if entries[s].expiry < now {
          entries := entries - {s};
        }
        todo := todo - {s};
      }
      clock := now;
    }

    /** A message generated at `generated` that arrives within 32767 ms expires one lifetime after
      * the start of the absolute millisecond it was generated in, or after the start of the
      * simulation if that is later; so it is accepted exactly if it arrives by then. If the
      * simulation starts on a full millisecond that is the millisecond of `generated` itself. */
    lemma TimelyAccepted(generated: SimTime, received: SimTime, station: StationId, message: Message)
      requires 0 <= generated <= received && lifetime > 0
      requires CountMilliseconds(timer.GetTimeFor(received)) < HORIZON
      requires CountMilliseconds(timer.GetTimeFor(received))
               - CountMilliseconds(timer.GetTimeFor(generated)) <= 0x7fff
      ensures var g := CountMilliseconds(timer.GetTimeFor(generated));
              var expiry := Expiry(received, g % EPOCH);
              && expiry == timer.GetSimTimeFor(g * 1000) + lifetime
              && (timer.timebase % 1000 == 0 ==>
                    expiry == generated / 1_000_000_000 * 1_000_000_000 + lifetime)
              && (Accepted(Reception(station, Entry(message, received, expiry)), lifetime) <==> received <= expiry)
    {
      var g := CountMilliseconds(timer.GetTimeFor(generated));
      ReconstructInverts(CountMilliseconds(timer.GetTimeFor(received)), g);
      assert g * 1000 <= timer.GetTimeFor(generated);
      assert timer.GetSimTimeFor(g * 1000) <= generated;
      if timer.timebase % 1000 == 0 {
        FullMilliseconds(timer.timebase, generated);
      }
    }

    method GetMessage(station: StationId) returns (message: Option<Message>)
      requires Valid()
      ensures station in entries ==>
                LastAccepted(log, lifetime, station).Some?
                && message == Some(LastAccepted(log, lifetime, station).value.message)
      ensures message == None <==> station !in entries
    {
      message := if station in entries then Some(entries[station].message) else None;
    }

    /** The number of known messages satisfying `p`. */
    function Count(p: Message -> bool): nat
      reads this
    {
      |set s | s in entries && p(entries[s].message)|
    }

    /** The station's last accepted message has not expired and satisfies `p`. */
    ghost predicate Knows(p: Message -> bool, station: StationId)
      reads this
    {
      var last := LastAccepted(log, lifetime, station);
      last.Some? && last.value.expiry >= clock && p(last.value.message)
    }

    /** After expired messages have been dropped it is the number of stations whose last accepted
      * message satisfies `p`. */
    lemma CountsKnown(p: Message -> bool, stations: set<StationId>)
      requires Valid() && forall s :: s in entries ==> entries[s].expiry >= clock
      requires forall s: StationId :: s in stations <==> Knows(p, s)
      ensures Count(p) == |stations|
    {
      assert (set s | s in entries && p(entries[s].message)) == stations;
    }
  }

  lemma LogGrows<Message>(entries: map<StationId, Entry<Message>>, log: seq<Reception<Message>>,
                          lifetime: SimTime, before: SimTime, now: SimTime, r: Reception<Message>)
    requires Agrees(entries, log, lifetime, before) && before <= now
    ensures Agrees(if Accepted(r, lifetime) then entries[r.station := r.entry] else entries,
                   log + [r], lifetime, now)
  {
  }

  // ------------------------------------------------------------------ negotiations

  datatype Negotiation = Negotiation(vehicle1: StationId, vehicle2: Option<StationId>)

  datatype Mcm = Mcm(negotiation: Option<Negotiation>)

  /** A negotiation among others: its first participant is not ego, and neither is the second if
    * there is one. */
  predicate AmongOthers(m: Mcm, ego: StationId) {
    m.negotiation.Some? && m.negotiation.value.vehicle1 != ego && m.negotiation.value.vehicle2 != Some(ego)
  }

  /** Some entry that has not expired names a negotiation among others. */
  predicate ObservesNegotiation(entries: map<StationId, Entry<Mcm>>, ego: StationId, now: SimTime) {
    exists s :: s in entries && !(entries[s].expiry < now) && AmongOthers(entries[s].message, ego)
  }

  /** The station's last accepted message has not expired and names a negotiation in which neither
    * the first nor the second participant, if there is one, is ego. */
  ghost predicate Negotiates(log: seq<Reception<Mcm>>, lifetime: SimTime, now: SimTime, ego: StationId,
                             s: StationId)
  {
    var last := LastAccepted(log, lifetime, s);
    && last.Some? && last.value.expiry >= now && last.value.message.negotiation.Some?
    && var n := last.value.message.negotiation.value;
       n.vehicle1 != ego && (n.vehicle2.Some? ==> n.vehicle2.value != ego)
  }

  /** The answer is the one the whole log of receptions gives; whether expired entries have been
    * cleaned up by then makes no difference. */
  lemma ObservesLog(entries: map<StationId, Entry<Mcm>>, log: seq<Reception<Mcm>>, lifetime: SimTime,
                    clock: SimTime, now: SimTime, ego: StationId)
    requires Agrees(entries, log, lifetime, clock) && clock <= now
    ensures ObservesNegotiation(entries, ego, now) <==>
            exists s :: Negotiates(log, lifetime, now, ego, s)
  {
    if ObservesNegotiation(entries, ego, now) {
      var s :| s in entries && !(entries[s].expiry < now) && AmongOthers(entries[s].message, ego);
      assert LastAccepted(log, lifetime, s) == Some(entries[s]);
      assert Negotiates(log, lifetime, now, ego, s);
    }
    if exists s :: Negotiates(log, lifetime, now, ego, s) {
      var s :| Negotiates(log, lifetime, now, ego, s);
      assert s in entries;
    }
  }

  /** Clean-up does not change the answer: some message known now names a negotiation without ego. */
  lemma ObservesCleaned(entries: map<StationId, Entry<Mcm>>, cleaned: map<StationId, Entry<Mcm>>,
                        log: seq<Reception<Mcm>>, lifetime: SimTime, clock: SimTime, now: SimTime, ego: StationId)
    requires Agrees(entries, log, lifetime, clock) && clock <= now
    requires Agrees(cleaned, log, lifetime, now)
    ensures ObservesNegotiation(entries, ego, now) <==> ObservesNegotiation(cleaned, ego, now)
    ensures (forall s :: s in cleaned ==> cleaned[s].expiry >= now) ==>
              (ObservesNegotiation(entries, ego, now) <==>
               exists s, n :: s in cleaned && cleaned[s].message == Mcm(Some(n))
                              && n.vehicle1 != ego && n.vehicle2 != Some(ego))
  {
    ObservesLog(entries, log, lifetime, clock, now, ego);
    ObservesLog(cleaned, log, lifetime, now, now, ego);
  }
}
