/** Whole runs of the bookkeeping: steps of the traffic simulation, expired insertion delays
  * and the passing of time, in any order. */
module FleetRuns {
  import opened Moments
  import opened Fleet

  datatype State = State(site: Site, fleet: Fleet)

  datatype Event =
    | Traci(position: VehicleId -> Position, delay: Delays, departed: seq<VehicleId>, gone: set<VehicleId>)
    | Insertion(id: VehicleId, delay: Delays)
    | TimePasses(to: Time)

  /** What each event does; an insertion happens when it is due, and time does not pass a
    * scheduled insertion. */
  ghost predicate Next(s: State, event: Event, s': State) {
    match event
    case Traci(position, delay, departed, gone) =>
      && (forall v :: v in departed ==> v !in s.fleet)
      && s'.site == s.site.(position := position)
      && s'.fleet == Step(s'.site, delay, s.fleet, departed, gone)
    case Insertion(id, delay) =>
      && s'.site == s.site
      && id in s.fleet && s.fleet[id].Queued? && s.fleet[id].due == s.site.now
      && s'.fleet == s.fleet[id := Route(s.site, delay, Some(s.fleet[id].policy), id, 0)]
    case TimePasses(to) =>
      && s.site.now <= to
      && (forall v :: v in s.fleet && s.fleet[v].Queued? ==> to <= s.fleet[v].due)
      && s'.site == s.site.(now := to)
      && s'.fleet == s.fleet
  }

  ghost predicate Run(states: seq<State>, events: seq<Event>) {
    && |states| == |events| + 1
    && forall i :: 0 <= i < |events| ==> Next(states[i], events[i], states[i + 1])
  }

  lemma NextSettles(s: State, event: Event, s': State)
    requires Next(s, event, s') && Settled(s.site, s.fleet)
    ensures Settled(s'.site, s'.fleet)
  {
    match event
    case Traci(_, delay, departed, gone) => StepSettles(s'.site, delay, s.fleet, departed, gone);
    case Insertion(id, delay) => ReleaseSettles(s.site, delay, s.fleet, s.fleet[id].policy, id);
    case TimePasses(to) => TimeSettles(s.site, to, s.fleet);
  }

  /** In every state of every run the table is the direct filter: a vehicle alive is managed
    * exactly if it waits for no insertion and is inside every region policy. */
  lemma {:induction false} RunFilters(states: seq<State>, events: seq<Event>, i: nat)
    requires Run(states, events) && i < |states|
    requires Settled(states[0].site, states[0].fleet)
    ensures Settled(states[i].site, states[i].fleet)
    ensures forall v :: v in states[i].fleet ==>
              var site := states[i].site;
              (states[i].fleet[v].Managed?
               <==> && !states[i].fleet[v].Queued?
                    && forall k :: 0 <= k < |site.rules| && site.rules[k].RegionRule? && |site.rules[k].regions| > 0 ==>
                         exists j :: 0 <= j < |site.rules[k].regions| && site.rules[k].regions[j](site.position(v)))
  {
    if i > 0 {
      RunFilters(states, events, i - 1);
      NextSettles(states[i - 1], events[i - 1], states[i]);
    }
    forall v | v in states[i].fleet
      ensures states[i].fleet[v].Managed? <==> !states[i].fleet[v].Queued? && InsideAll(states[i].site, v)
      ensures var site := states[i].site;
              InsideAll(site, v) <==>
              forall k :: 0 <= k < |site.rules| && site.rules[k].RegionRule? && |site.rules[k].regions| > 0 ==>
                exists j :: 0 <= j < |site.rules[k].regions| && site.rules[k].regions[j](site.position(v))
    {
      InsideMeans(states[i].site, v);
      if states[i].fleet[v].Outside? {
        assert !Inside(states[i].site, states[i].fleet[v].policy, v);
      }
    }
  }

  /** The insertion of `v` happened between states `i` and `j`, at time `due`. */
  ghost predicate InsertedAt(states: seq<State>, events: seq<Event>, i: nat, j: nat, v: VehicleId, due: Time)
    requires |states| == |events| + 1 && j <= |events|
  {
    exists m :: i <= m < j && events[m].Insertion? && events[m].id == v && states[m].site.now == due
  }

  /** In every run a vehicle that waits and stays alive waits for the same moment until then,
    * and is inserted exactly at that moment. */
  lemma {:induction false} RunInsertsOnTime(states: seq<State>, events: seq<Event>, i: nat, j: nat, v: VehicleId)
    requires Run(states, events) && i <= j < |states|
    requires Settled(states[0].site, states[0].fleet)
    requires forall m :: i <= m <= j ==> v in states[m].fleet
    requires states[i].fleet[v].Queued?
    ensures var place := states[i].fleet[v];
            || (states[j].fleet[v] == place && states[j].site.now <= place.due)
            || InsertedAt(states, events, i, j, v, place.due)
  {
    RunFilters(states, events, j);
    if i < j {
      RunInsertsOnTime(states, events, i, j - 1, v);
      RunFilters(states, events, j - 1);
      var s, event, s' := states[j - 1], events[j - 1], states[j];
      assert Next(s, event, s');
      if s.fleet[v] == states[i].fleet[v] {
        match event
        case Traci(_, delay, departed, gone) => StepSettles(s'.site, delay, s.fleet, departed, gone);
        case Insertion(_, _) =>
        case TimePasses(_) =>
      }
    }
  }
}
