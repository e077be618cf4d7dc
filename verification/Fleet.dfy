/** Vehicle bookkeeping under a chain of vehicle policies, as values.
  *
  * `Holdings` is the state the classes in NodeManagers.dfy keep: the manager's vehicle
  * table, its deferred removals, and per policy either the vehicles outside its regions or
  * an insertion queue. `map<VehicleId, Place>` is the specification: one place per
  * vehicle that is alive. `Represents` ties the two together.
  */
module Fleet {
  import opened Moments

  type VehicleId = string

  datatype Position = Position(x: real, y: real)

  /** A polygon, reduced to the question "is this point within it?". */
  type Region = Position -> bool

  /** What a policy was configured to be. */
  datatype Rule = RegionRule(regions: seq<Region>) | DelayRule

  /** What policy decisions depend on besides the bookkeeping: the policy chain, the cached
    * positions and the current time. */
  datatype Site = Site(rules: seq<Rule>, position: VehicleId -> Position, now: Time)

  /** The insertion delays drawn during one event, by policy and vehicle. */
  type Delays = (nat, VehicleId) -> nat

  /** Where a vehicle that is alive is kept. */
  datatype Place = Managed | Outside(policy: nat) | Queued(policy: nat, due: Time)

  /** What one policy keeps. */
  datatype Held = Outer(outside: set<VehicleId>) | Queue(queue: map<VehicleId, Time>)

  datatype Holdings = Holdings(
    vehicles: set<VehicleId>,
    pending: seq<VehicleId>,
    policies: seq<Held>)

  type Fleet = map<VehicleId, Place>

  // ------------------------------------------------------------------ decisions

  /** Policy `k` raises no objection to the position of `id`: it is no region policy, or has
    * no region, or one of its regions covers the vehicle. */
  predicate Inside(site: Site, k: nat, id: VehicleId)
    requires k < |site.rules|
  {
    match site.rules[k]
    case RegionRule(regions) =>
      |regions| == 0 || exists i :: 0 <= i < |regions| && regions[i](site.position(id))
    case DelayRule => true
  }

  predicate InsideAll(site: Site, id: VehicleId) {
    forall k: nat :: k < |site.rules| ==> Inside(site, k, id)
  }

  /** Spelled out: some region of every policy that has regions covers the vehicle. */
  lemma InsideMeans(site: Site, id: VehicleId)
    ensures InsideAll(site, id) <==>
            forall k :: 0 <= k < |site.rules| && site.rules[k].RegionRule? && |site.rules[k].regions| > 0 ==>
              exists i :: 0 <= i < |site.rules[k].regions| && site.rules[k].regions[i](site.position(id))
  {
    if forall k :: 0 <= k < |site.rules| && site.rules[k].RegionRule? && |site.rules[k].regions| > 0 ==>
         exists i :: 0 <= i < |site.rules[k].regions| && site.rules[k].regions[i](site.position(id))
    {
      assert forall k: nat :: k < |site.rules| ==> Inside(site, k, id);
    } else {
      var k :| 0 <= k < |site.rules| && site.rules[k].RegionRule? && |site.rules[k].regions| > 0
               && !exists i :: 0 <= i < |site.rules[k].regions| && site.rules[k].regions[i](site.position(id));
      assert !Inside(site, k, id);
    }
  }

  /** Where policy `k` by itself would put a vehicle. */
  function PlaceAt(site: Site, wait: nat, k: nat, id: VehicleId): Place
    requires k < |site.rules|
  {
    if site.rules[k].DelayRule? then Queued(k, site.now + wait)
    else if Inside(site, k, id) then Managed
    else Outside(k)
  }

  /** The place a vehicle ends up in when the chain is asked to add it, starting at policy
    * `k` and leaving out policy `omit`. */
  function Route(site: Site, delay: Delays, omit: Option<nat>, id: VehicleId, k: nat): (p: Place)
    requires k <= |site.rules|
    ensures p.Managed? ==> forall j :: k <= j < |site.rules| && omit != Some(j) ==>
                             site.rules[j].RegionRule? && Inside(site, j, id)
    ensures p.Outside? ==> k <= p.policy < |site.rules| && omit != Some(p.policy)
                           && site.rules[p.policy].RegionRule? && !Inside(site, p.policy, id)
    ensures p.Queued? ==> k <= p.policy < |site.rules| && omit != Some(p.policy)
                          && site.rules[p.policy].DelayRule? && p.due == site.now + delay(p.policy, id)
    ensures !p.Managed? ==> forall j :: k <= j < p.policy && omit != Some(j) ==>
                              site.rules[j].RegionRule? && Inside(site, j, id)
    decreases |site.rules| - k
  {
    if k == |site.rules| then Managed
    else if omit == Some(k) then Route(site, delay, omit, id, k + 1)
    else
      var place := PlaceAt(site, delay(k, id), k, id);
      if place.Managed? then Route(site, delay, omit, id, k + 1) else place
  }

  /** The place of a managed vehicle after an update: the first region policy from `k` on
    * that does not cover it takes it over. */
  function Eject(site: Site, id: VehicleId, k: nat): (p: Place)
    requires k <= |site.rules|
    ensures p.Managed? ==> forall j :: k <= j < |site.rules| ==> Inside(site, j, id)
    ensures p.Outside? ==> k <= p.policy < |site.rules|
                           && site.rules[p.policy].RegionRule? && !Inside(site, p.policy, id)
                           && forall j :: k <= j < p.policy ==> Inside(site, j, id)
    ensures !p.Queued?
    decreases |site.rules| - k
  {
    if k == |site.rules| then Managed
    else if Inside(site, k, id) then Eject(site, id, k + 1)
    else Outside(k)
  }

  // ------------------------------------------------------------------ holdings

  function Ids(h: Held): set<VehicleId> {
    match h
    case Outer(outside) => outside
    case Queue(queue) => queue.Keys
  }

  predicate Fits(policies: seq<Held>, place: Place) {
    match place
    case Managed => true
    case Outside(k) => k < |policies| && policies[k].Outer?
    case Queued(k, _) => k < |policies| && policies[k].Queue?
  }

  ghost function PutHeld(policies: seq<Held>, place: Place, id: VehicleId): seq<Held>
    requires Fits(policies, place)
  {
    match place
    case Managed => policies
    case Outside(k) => policies[k := Outer(policies[k].outside + {id})]
    case Queued(k, due) => policies[k := Queue(policies[k].queue[id := due])]
  }

  /** Adds `id` to the holder that `place` names. */
  ghost function Put(h: Holdings, place: Place, id: VehicleId): Holdings
    requires Fits(h.policies, place)
  {
    Holdings(if place.Managed? then h.vehicles + {id} else h.vehicles,
             h.pending, PutHeld(h.policies, place, id))
  }

  lemma PutManaged(policies: seq<Held>, place: Place, id: VehicleId)
    requires place.Managed?
    ensures Fits(policies, place) && PutHeld(policies, place, id) == policies
  {
  }

  function Drop(h: Held, id: VehicleId): Held {
    match h
    case Outer(outside) => Outer(outside - {id})
    case Queue(queue) => Queue(queue - {id})
  }

  /** What the chain does when asked to remove `id`, starting at policy `k` and leaving out
    * policy `omit`: the first policy holding the vehicle lets go of it; if there is none
    * the vehicle leaves the table, deferred when a policy asked for it. */
  ghost function RemoveFrom(h: Holdings, omit: Option<nat>, id: VehicleId, k: nat): Holdings
    requires k <= |h.policies|
    decreases |h.policies| - k
  {
    if k == |h.policies| then
      if omit.None? then h.(vehicles := h.vehicles - {id}) else h.(pending := h.pending + [id])
    else if omit != Some(k) && id in Ids(h.policies[k]) then
      h.(policies := h.policies[k := Drop(h.policies[k], id)])
    else
      RemoveFrom(h, omit, id, k + 1)
  }

  predicate SameShape(rules: seq<Rule>, policies: seq<Held>) {
    && |rules| == |policies|
    && forall k :: 0 <= k < |rules| ==> (rules[k].RegionRule? <==> policies[k].Outer?)
  }

  // ------------------------------------------------------------------ representation

  /** A place names an existing policy of the right kind. */
  predicate Proper(rules: seq<Rule>, place: Place) {
    match place
    case Managed => true
    case Outside(k) => k < |rules| && rules[k].RegionRule? && |rules[k].regions| > 0
    case Queued(k, _) => k < |rules| && rules[k].DelayRule?
  }

  predicate WellPlaced(rules: seq<Rule>, fleet: Fleet) {
    forall v :: v in fleet ==> Proper(rules, fleet[v])
  }

  ghost predicate HeldAt(h: Held, k: nat, fleet: Fleet) {
    match h
    case Outer(outside) => forall v :: v in outside <==> v in fleet && fleet[v] == Outside(k)
    case Queue(queue) =>
      && (forall v :: v in queue <==> v in fleet && fleet[v].Queued? && fleet[v].policy == k)
      && (forall v :: v in queue ==> fleet[v] == Queued(k, queue[v]))
  }

  /** The holders are exactly the inverse images of the one place each vehicle has. */
  ghost predicate Represents(h: Holdings, rules: seq<Rule>, fleet: Fleet) {
    && SameShape(rules, h.policies)
    && WellPlaced(rules, fleet)
    && (forall v :: v in h.vehicles <==> v in fleet && fleet[v].Managed?)
    && (forall k :: 0 <= k < |h.policies| ==> HeldAt(h.policies[k], k, fleet))
  }

  /** The holders of `v`, one entry per holder: -1 for the manager's table, otherwise the
    * position of the policy in the chain. */
  ghost function Holders(h: Holdings, v: VehicleId): set<int> {
    (if v in h.vehicles then {-1} else {})
    + set k: int | 0 <= k < |h.policies| && v in Ids(h.policies[k])
  }

  /** Conservation: a vehicle that is alive has exactly one holder, any other has none. */
  lemma OneHolder(h: Holdings, rules: seq<Rule>, fleet: Fleet, v: VehicleId)
    requires Represents(h, rules, fleet)
    ensures |Holders(h, v)| == (if v in fleet then 1 else 0)
  {
    forall k | 0 <= k < |h.policies|
      ensures v in Ids(h.policies[k]) <==>
              v in fleet && !fleet[v].Managed? && fleet[v].policy == k
    {
      assert HeldAt(h.policies[k], k, fleet);
    }
    if v in fleet {
      var holder: int := if fleet[v].Managed? then -1 else fleet[v].policy;
      assert Holders(h, v) == {holder};
    } else {
      assert Holders(h, v) == {};
    }
  }

  lemma EmptyRepresents(h: Holdings, rules: seq<Rule>)
    requires SameShape(rules, h.policies) && h.vehicles == {}
    requires forall k :: 0 <= k < |h.policies| ==> Ids(h.policies[k]) == {}
    ensures Represents(h, rules, map[])
  {
  }

  /** A newly placed vehicle. */
  lemma PutRepresents(h: Holdings, rules: seq<Rule>, fleet: Fleet, place: Place, id: VehicleId)
    requires Represents(h, rules, fleet) && id !in fleet
    requires Proper(rules, place)
    ensures Represents(Put(h, place, id), rules, fleet[id := place])
  {
    var h', fleet' := Put(h, place, id), fleet[id := place];
    forall k | 0 <= k < |h.policies| ensures HeldAt(h'.policies[k], k, fleet') {
      assert HeldAt(h.policies[k], k, fleet);
    }
  }

  /** A vehicle that leaves its one holder. */
  lemma RemoveRepresents(h: Holdings, rules: seq<Rule>, fleet: Fleet, id: VehicleId, k: nat)
    requires Represents(h, rules, fleet) && k <= |h.policies|
    requires id in fleet && !fleet[id].Managed? ==> k <= fleet[id].policy
    ensures Represents(RemoveFrom(h, None, id, k), rules, fleet - {id})
    ensures RemoveFrom(h, None, id, k).pending == h.pending
    decreases |h.policies| - k
  {
    var fleet' := fleet - {id};
    if k < |h.policies| {
      assert HeldAt(h.policies[k], k, fleet);
      if id in Ids(h.policies[k]) {
        var h' := RemoveFrom(h, None, id, k);
        forall j | 0 <= j < |h.policies| ensures HeldAt(h'.policies[j], j, fleet') {
          assert HeldAt(h.policies[j], j, fleet);
        }
      } else {
        RemoveRepresents(h, rules, fleet, id, k + 1);
      }
    } else {
      forall j | 0 <= j < |h.policies| ensures HeldAt(h.policies[j], j, fleet') {
        assert HeldAt(h.policies[j], j, fleet);
      }
    }
  }

  /** Asking the chain to give up a vehicle no policy holds defers its removal. */
  lemma RemoveDeferred(h: Holdings, omit: nat, id: VehicleId, k: nat)
    requires k <= |h.policies|
    requires forall j :: k <= j < |h.policies| ==> id !in Ids(h.policies[j])
    ensures RemoveFrom(h, Some(omit), id, k) == h.(pending := h.pending + [id])
    decreases |h.policies| - k
  {
    if k < |h.policies| {
      RemoveDeferred(h, omit, id, k + 1);
    }
  }

  /** Policy `from` gives up `id` after the rest of the chain has put it at `place`. */
  ghost function Moved(h: Holdings, from: nat, place: Place, id: VehicleId): Holdings
    requires from < |h.policies| && Fits(h.policies, place)
  {
    var moved := Put(h, place, id);
    moved.(policies := moved.policies[from := Drop(moved.policies[from], id)])
  }

  /** A vehicle that policy `from` hands over to the rest of the chain. */
  lemma MoveRepresents(h: Holdings, rules: seq<Rule>, fleet: Fleet, from: nat, place: Place, id: VehicleId)
    requires Represents(h, rules, fleet)
    requires from < |h.policies| && id in Ids(h.policies[from])
    requires Proper(rules, place)
    requires !place.Managed? ==> place.policy != from
    ensures Represents(Moved(h, from, place, id), rules, fleet[id := place])
  {
    assert HeldAt(h.policies[from], from, fleet);
    RemoveRepresents(h, rules, fleet, id, from);
    var dropped := RemoveFrom(h, None, id, from);
    PutRepresents(dropped, rules, fleet - {id}, place, id);
    assert (fleet - {id})[id := place] == fleet[id := place];
    var moved := Put(h, place, id);
    assert Put(dropped, place, id).policies
        == moved.policies[from := Drop(moved.policies[from], id)];
  }

  /** A vehicle of the table that a policy takes over. */
  lemma EjectRepresents(h: Holdings, rules: seq<Rule>, fleet: Fleet, place: Place, id: VehicleId)
    requires Represents(h, rules, fleet) && id in fleet && fleet[id].Managed?
    requires Proper(rules, place)
    ensures Represents(Put(h.(vehicles := h.vehicles - {id}), place, id), rules, fleet[id := place])
  {
    RemoveRepresents(h, rules, fleet, id, |h.policies|);
    PutRepresents(h.(vehicles := h.vehicles - {id}), rules, fleet - {id}, place, id);
    assert (fleet - {id})[id := place] == fleet[id := place];
  }

  /** A vehicle of the table is held by no policy. */
  lemma UnheldManaged(h: Holdings, rules: seq<Rule>, fleet: Fleet, id: VehicleId)
    requires Represents(h, rules, fleet) && id in h.vehicles
    ensures id in fleet && fleet[id].Managed?
    ensures forall k :: 0 <= k < |h.policies| ==> id !in Ids(h.policies[k])
  {
  }

  lemma ProperRoute(site: Site, delay: Delays, id: VehicleId)
    ensures Proper(site.rules, Route(site, delay, None, id, 0))
  {
  }

  /** The table while it is traversed, without the vehicles whose removal is deferred. */
  ghost function Remaining(h: Holdings): Holdings {
    Holdings(h.vehicles - Elements(h.pending), [], h.policies)
  }

  ghost function Ejected(h: Holdings, place: Place, id: VehicleId): Holdings
    requires Fits(h.policies, place)
  {
    Holdings(h.vehicles, h.pending + (if place.Managed? then [] else [id]),
             PutHeld(h.policies, place, id))
  }

  lemma EjectDeferred(h: Holdings, rules: seq<Rule>, fleet: Fleet, site: Site, id: VehicleId)
    requires Represents(Remaining(h), rules, fleet) && site.rules == rules
    requires id in h.vehicles && id !in Elements(h.pending)
    ensures forall k :: 0 <= k < |h.policies| ==> id !in Ids(h.policies[k])
    ensures id in fleet && fleet[id].Managed?
    ensures var place := Eject(site, id, 0);
            Fits(h.policies, place)
            && Represents(Remaining(Ejected(h, place, id)), rules, fleet[id := place])
            && Elements(Ejected(h, place, id).pending)
               == Elements(h.pending) + if place.Managed? then {} else {id}
  {
    var place := Eject(site, id, 0);
    var rest := Remaining(h);
    UnheldManaged(rest, rules, fleet, id);
    AppendElement(h.pending, id);
    ProperEject(site, id);
    if place.Managed? {
      assert fleet[id := place] == fleet;
    } else {
      EjectRepresents(rest, rules, fleet, place, id);
      assert Remaining(Ejected(h, place, id))
          == Put(rest.(vehicles := rest.vehicles - {id}), place, id);
    }
  }

  lemma ProperEject(site: Site, id: VehicleId)
    ensures Proper(site.rules, Eject(site, id, 0))
  {
  }

  // ------------------------------------------------------------------ one step

  /** Nothing more to do for the given positions: managed vehicles are inside every region
    * policy, a vehicle kept outside by a policy is outside of it, no insertion is overdue. */
  predicate Settled(site: Site, fleet: Fleet) {
    && WellPlaced(site.rules, fleet)
    && (forall v :: v in fleet && fleet[v].Managed? ==> InsideAll(site, v))
    && (forall v :: v in fleet && fleet[v].Outside? ==> !Inside(site, fleet[v].policy, v))
    && Punctual(site.now, fleet)
  }

  lemma SettledMeans(site: Site, fleet: Fleet)
    requires Settled(site, fleet)
    ensures WellPlaced(site.rules, fleet) && Punctual(site.now, fleet)
  {
  }

  predicate Punctual(now: Time, fleet: Fleet) {
    forall v :: v in fleet && fleet[v].Queued? ==> now <= fleet[v].due
  }

  /** When an insertion queue is due next. */
  ghost function Earliest(queue: map<VehicleId, Time>): Option<Time> {
    if queue == map[] then None
    else
      var id :| id in queue;
      assert queue[id] in queue.Values;
      Some(Least(queue.Values))
  }

  lemma EarliestBounds(queue: map<VehicleId, Time>, to: Time)
    requires Earliest(queue).Some? ==> to <= Earliest(queue).value
    ensures forall id :: id in queue ==> to <= queue[id]
  {
    forall id | id in queue ensures to <= queue[id] {
      assert queue[id] in queue.Values;
    }
  }

  /** The head of the queue is the least insertion time in it; there is one unless it is empty. */
  lemma EarliestMeans(queue: map<VehicleId, Time>)
    ensures Earliest(queue).None? <==> queue == map[]
    ensures Earliest(queue).Some? ==> Earliest(queue).value in queue.Values
    ensures forall id :: id in queue ==> Earliest(queue).Some? && Earliest(queue).value <= queue[id]
  {
    if queue != map[] {
      var id :| id in queue;
      assert queue[id] in queue.Values;
      forall other | other in queue ensures Earliest(queue).value <= queue[other] {
        assert queue[other] in queue.Values;
      }
    }
  }

  lemma AppendElement(ids: seq<VehicleId>, id: VehicleId)
    ensures Elements(ids + [id]) == Elements(ids) + {id}
    ensures Elements(ids + []) == Elements(ids)
  {
  }

  function Depart(site: Site, delay: Delays, fleet: Fleet, departed: seq<VehicleId>): Fleet {
    map v | v in fleet.Keys + Elements(departed) ::
      if v in fleet then fleet[v] else Route(site, delay, None, v, 0)
  }

  lemma DepartNobody(site: Site, delay: Delays, fleet: Fleet)
    ensures Depart(site, delay, fleet, []) == fleet
  {
  }

  lemma DepartOne(site: Site, delay: Delays, fleet: Fleet, ids: seq<VehicleId>, id: VehicleId)
    requires id !in fleet
    ensures Depart(site, delay, fleet, ids + [id])
         == Depart(site, delay, fleet, ids)[id := Route(site, delay, None, id, 0)]
    ensures id in Depart(site, delay, fleet, ids) ==> id in ids
  {
  }

  /** The update of all managed vehicles but those in `todo`. */
  function UpdateExcept(site: Site, fleet: Fleet, todo: set<VehicleId>): Fleet {
    map v | v in fleet ::
      if fleet[v].Managed? && v !in todo then Eject(site, v, 0) else fleet[v]
  }

  function Update(site: Site, fleet: Fleet): Fleet {
    UpdateExcept(site, fleet, {})
  }

  lemma UpdateOne(site: Site, fleet: Fleet, todo: set<VehicleId>, id: VehicleId)
    requires id in todo && id in fleet && fleet[id].Managed?
    ensures UpdateExcept(site, fleet, todo - {id})
         == UpdateExcept(site, fleet, todo)[id := Eject(site, id, 0)]
  {
  }

  lemma UpdateNone(site: Site, fleet: Fleet, todo: set<VehicleId>)
    requires forall v :: v in fleet && fleet[v].Managed? ==> v in todo
    ensures UpdateExcept(site, fleet, todo) == fleet
  {
  }

  /** Region policy `i` hands over those of its vehicles that entered its regions. */
  function Recheck(site: Site, delay: Delays, fleet: Fleet, i: nat): Fleet
    requires i < |site.rules|
  {
    map v | v in fleet ::
      if fleet[v] == Outside(i) && Inside(site, i, v) then Route(site, delay, Some(i), v, 0) else fleet[v]
  }

  function RecheckFrom(site: Site, delay: Delays, fleet: Fleet, i: nat): Fleet
    requires i <= |site.rules|
    decreases |site.rules| - i
  {
    if i == |site.rules| then fleet
    else RecheckFrom(site, delay, if site.rules[i].RegionRule? then Recheck(site, delay, fleet, i) else fleet, i + 1)
  }

  /** The vehicles a step removes: arrived ones and, if configured, teleporting ones. */
  function Gone(arrived: seq<VehicleId>, teleported: seq<VehicleId>, onCrash: bool): set<VehicleId> {
    Elements(arrived) + if onCrash then Elements(teleported) else {}
  }

  function Step(site: Site, delay: Delays, fleet: Fleet, departed: seq<VehicleId>, gone: set<VehicleId>): Fleet {
    RecheckFrom(site, delay, Update(site, Depart(site, delay, fleet, departed) - gone), 0)
  }

  lemma TimeSettles(site: Site, to: Time, fleet: Fleet)
    requires Settled(site, fleet) && Punctual(to, fleet)
    ensures Settled(site.(now := to), fleet)
  {
    var later := site.(now := to);
    assert forall k: nat, v :: k < |site.rules| ==> (Inside(later, k, v) <==> Inside(site, k, v));
  }

  lemma DepartSettles(site: Site, delay: Delays, ids: seq<VehicleId>)
    ensures Settled(site, Depart(site, delay, map[], ids))
  {
  }

  /** A vehicle whose insertion delay is over is settled wherever the chain puts it. */
  lemma ReleaseSettles(site: Site, delay: Delays, fleet: Fleet, from: nat, id: VehicleId)
    requires Settled(site, fleet)
    requires from < |site.rules| && site.rules[from].DelayRule?
    ensures Settled(site, fleet[id := Route(site, delay, Some(from), id, 0)])
  {
  }

  /** Vehicles the policies before `i` have already looked at are where they belong. */
  predicate SettledBefore(site: Site, fleet: Fleet, i: nat) {
    && WellPlaced(site.rules, fleet)
    && (forall v :: v in fleet && fleet[v].Managed? ==> InsideAll(site, v))
    && (forall v :: v in fleet && fleet[v].Outside? && fleet[v].policy < i ==>
          !Inside(site, fleet[v].policy, v))
    && Punctual(site.now, fleet)
  }

  /** Whether a vehicle waiting before the step still waits for the same moment, and one that
    * starts to wait does so for exactly the delay drawn. */
  predicate QueueKept(site: Site, delay: Delays, before: Fleet, after: Fleet) {
    forall v :: v in after ==>
      if v in before && before[v].Queued? then after[v] == before[v]
      else after[v].Queued? ==> after[v].due == site.now + delay(after[v].policy, v)
  }

  /** In the holders: each queue holds its vehicles for the moments they had, new ones for the delay
    * drawn. */
  lemma QueuesKept(h: Holdings, h': Holdings, site: Site, delay: Delays, before: Fleet, after: Fleet)
    requires Represents(h, site.rules, before) && Represents(h', site.rules, after)
    requires QueueKept(site, delay, before, after)
    ensures forall k: nat, v :: k < |h'.policies| && h'.policies[k].Queue? && v in h'.policies[k].queue ==>
              && k < |h.policies| && h.policies[k].Queue?
              && h'.policies[k].queue[v] ==
                 if v in h.policies[k].queue then h.policies[k].queue[v] else site.now + delay(k, v)
  {
    forall k: nat, v | k < |h'.policies| && h'.policies[k].Queue? && v in h'.policies[k].queue
      ensures k < |h.policies| && h.policies[k].Queue?
      ensures h'.policies[k].queue[v] ==
              if v in h.policies[k].queue then h.policies[k].queue[v] else site.now + delay(k, v)
    {
      assert HeldAt(h.policies[k], k, before) && HeldAt(h'.policies[k], k, after);
    }
  }

  lemma RecheckOnce(site: Site, delay: Delays, before: Fleet, fleet: Fleet, i: nat)
    requires i < |site.rules| && site.rules[i].RegionRule?
    requires SettledBefore(site, fleet, i) && QueueKept(site, delay, before, fleet)
    ensures SettledBefore(site, Recheck(site, delay, fleet, i), i + 1)
    ensures QueueKept(site, delay, before, Recheck(site, delay, fleet, i))
  {
    var next := Recheck(site, delay, fleet, i);
    forall v | v in next && next[v].Managed? ensures InsideAll(site, v) {
      if !fleet[v].Managed? {
        assert forall k: nat :: k < |site.rules| ==> Inside(site, k, v);
      }
    }
  }

  lemma SkipDelay(site: Site, fleet: Fleet, i: nat)
    requires i < |site.rules| && site.rules[i].DelayRule? && SettledBefore(site, fleet, i)
    ensures SettledBefore(site, fleet, i + 1)
  {
  }

  lemma {:induction false} RecheckSettles(site: Site, delay: Delays, before: Fleet, fleet: Fleet, i: nat)
    requires i <= |site.rules| && SettledBefore(site, fleet, i) && QueueKept(site, delay, before, fleet)
    ensures Settled(site, RecheckFrom(site, delay, fleet, i))
    ensures RecheckFrom(site, delay, fleet, i).Keys == fleet.Keys
    ensures QueueKept(site, delay, before, RecheckFrom(site, delay, fleet, i))
    decreases |site.rules| - i
  {
    if i < |site.rules| {
      hide SettledBefore, QueueKept;
      var next := if site.rules[i].RegionRule? then Recheck(site, delay, fleet, i) else fleet;
      if site.rules[i].RegionRule? {
        RecheckOnce(site, delay, before, fleet, i);
      } else {
        SkipDelay(site, fleet, i);
      }
      RecheckSettles(site, delay, before, next, i + 1);
    }
  }

  lemma UpdateSettlesBefore(site: Site, delay: Delays, fleet: Fleet, departed: seq<VehicleId>, gone: set<VehicleId>)
    requires WellPlaced(site.rules, fleet) && Punctual(site.now, fleet)
    ensures var mid := Update(site, Depart(site, delay, fleet, departed) - gone);
            && mid.Keys == fleet.Keys + Elements(departed) - gone
            && SettledBefore(site, mid, 0)
            && QueueKept(site, delay, fleet, mid)
  {
    var joined := Depart(site, delay, fleet, departed) - gone;
    assert joined.Keys == fleet.Keys + Elements(departed) - gone;
    assert WellPlaced(site.rules, joined) && Punctual(site.now, joined);
  }

  /** Main result: after a step every vehicle alive is settled, whatever the chain of
    * policies, the positions and the delays drawn. In particular the vehicles in the
    * manager's table are the direct filter of those alive. */
  lemma StepSettles(site: Site, delay: Delays, fleet: Fleet, departed: seq<VehicleId>, gone: set<VehicleId>)
    requires WellPlaced(site.rules, fleet) && Punctual(site.now, fleet)
    ensures var fleet' := Step(site, delay, fleet, departed, gone);
            && fleet'.Keys == fleet.Keys + Elements(departed) - gone
            && Settled(site, fleet')
            && QueueKept(site, delay, fleet, fleet')
            && (forall v :: v in fleet' ==> (fleet'[v].Managed? <==> !fleet'[v].Queued? && InsideAll(site, v)))
  {
    UpdateSettlesBefore(site, delay, fleet, departed, gone);
    var mid := Update(site, Depart(site, delay, fleet, departed) - gone);
    RecheckSettles(site, delay, fleet, mid, 0);
    var fleet' := Step(site, delay, fleet, departed, gone);
    forall v | v in fleet'
      ensures fleet'[v].Managed? <==> !fleet'[v].Queued? && InsideAll(site, v)
    {
      if fleet'[v].Outside? {
        assert !Inside(site, fleet'[v].policy, v);
      }
    }
  }

  /** With region policies only, the manager's table is the direct filter. */
  lemma RegionsFilter(site: Site, delay: Delays, fleet: Fleet, departed: seq<VehicleId>, gone: set<VehicleId>)
    requires WellPlaced(site.rules, fleet) && Punctual(site.now, fleet)
    requires forall k :: 0 <= k < |site.rules| ==> site.rules[k].RegionRule?
    ensures var fleet' := Step(site, delay, fleet, departed, gone);
            forall v :: v in fleet' && fleet'[v].Managed? <==>
              && (v in fleet || v in departed) && v !in gone
              && forall k :: 0 <= k < |site.rules| && |site.rules[k].regions| > 0 ==>
                   exists i :: 0 <= i < |site.rules[k].regions| && site.rules[k].regions[i](site.position(v))
  {
    hide InsideAll, Settled, QueueKept, Step;
    var fleet' := Step(site, delay, fleet, departed, gone);
    StepSettles(site, delay, fleet, departed, gone);
    forall v
      ensures v in fleet' && fleet'[v].Managed? <==>
              && (v in fleet || v in departed) && v !in gone
              && forall k :: 0 <= k < |site.rules| && |site.rules[k].regions| > 0 ==>
                   exists i :: 0 <= i < |site.rules[k].regions| && site.rules[k].regions[i](site.position(v))
    {
      InsideMeans(site, v);
      StepQueuesNobody(site, delay, fleet, departed, gone, v);
    }
  }

  lemma StepQueuesNobody(site: Site, delay: Delays, fleet: Fleet, departed: seq<VehicleId>, gone: set<VehicleId>,
                         v: VehicleId)
    requires WellPlaced(site.rules, fleet) && Punctual(site.now, fleet)
    requires forall k :: 0 <= k < |site.rules| ==> site.rules[k].RegionRule?
    ensures v in Step(site, delay, fleet, departed, gone) ==> !Step(site, delay, fleet, departed, gone)[v].Queued?
  {
    hide Step;
    StepSettles(site, delay, fleet, departed, gone);
  }
}
