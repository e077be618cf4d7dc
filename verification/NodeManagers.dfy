/** The node manager with its chain of vehicle policies, updated in place. */
module NodeManagers {
  import opened Moments
  import opened Fleet

  datatype Decision = Continue | Discard

  /** Lets only vehicles within its regions pass; the others are parked outside. */
  class RegionOfInterestVehiclePolicy {
    const regions: seq<Region>
    var outside: set<VehicleId>

    constructor (regions: seq<Region>)
      ensures this.regions == regions && outside == {}
    {
      this.regions := regions;
      outside := {};
    }

    /** Some region contains the position. */
    method Cover(position: Position) returns (covered: bool)
      ensures covered <==> exists i :: 0 <= i < |regions| && regions[i](position)
    {
      for k := 0 to |regions|
        invariant forall i :: 0 <= i < k ==> !regions[i](position)
      {
        if regions[k](position) {
          return true;
        }
      }
      return false;
    }

    method AddVehicle(id: VehicleId, position: Position) returns (d: Decision)
      modifies this
      ensures d.Continue? <==> |regions| == 0 || exists i :: 0 <= i < |regions| && regions[i](position)
      ensures outside == if d.Continue? then old(outside) else old(outside) + {id}
    {
      if |regions| == 0 {
        return Continue;
      }
      var covered := Cover(position);
      if covered {
        return Continue;
      }
      outside := outside + {id};
      return Discard;
    }

    method RemoveVehicle(id: VehicleId) returns (d: Decision)
      modifies this
      ensures d.Continue? <==> id !in old(outside)
      ensures outside == old(outside) - {id}
    {
      if id !in outside {
        return Continue;
      }
      outside := outside - {id};
      return Discard;
    }

    /** Called for a vehicle of the manager's table; `self` is this policy's place in the
      * chain. A vehicle that left the regions is taken over: its removal from the table is
      * requested through the lifecycle interface, which leaves this policy out. */
    method UpdateVehicle(manager: ExtensibleNodeManager, self: nat, id: VehicleId)
        returns (d: Decision)
      requires manager.Ready() && manager.Unheld(None, id)
      requires self < |manager.policies| && manager.policies[self] == RegionPolicy(this)
      modifies manager`vehicles, manager`nodes, manager`removals, manager.repr
      ensures manager.Ready()
      ensures d.Continue? <==>
              |regions| == 0 || exists i :: 0 <= i < |regions| && regions[i](manager.position(id))
      ensures manager.Snapshot() ==
              if d.Continue? then old(manager.Snapshot())
              else Put(old(manager.Snapshot()).(pending := old(manager.removals) + [id]),
                       Outside(self), id)
    {
      if |regions| == 0 {
        return Continue;
      }
      var covered := Cover(manager.position(id));
      if covered {
        return Continue;
      }
      ghost var before := manager.Snapshot();
      RemoveDeferred(before, self, id, 0);
      manager.RemoveVehicleFor(Some(self), id);
      ghost var after := manager.Snapshot();
      outside := outside + {id};
      manager.OneChanged(self, after.policies);
      return Discard;
    }

    /** Hands a vehicle to the rest of the chain and forgets it. */
    method Release(manager: ExtensibleNodeManager, self: nat, id: VehicleId, delay: Delays)
      requires manager.Ready()
      requires self < |manager.policies| && manager.policies[self] == RegionPolicy(this)
      requires id in outside && id !in manager.vehicles && manager.Unheld(Some(self), id)
      modifies manager`vehicles, manager`nodes, manager`nodeIndex, manager.repr
      ensures manager.Ready()
      ensures var place := Route(manager.Here(), delay, Some(self), id, 0);
              && Fits(old(manager.States()), place)
              && manager.Snapshot() == Moved(old(manager.Snapshot()), self, place, id)
      ensures outside == old(outside) - {id}
    {
      manager.AddVehicleFor(Some(self), id, delay);
      ghost var moved := manager.States();
      outside := outside - {id};
      manager.OneChanged(self, moved);
    }

    /** The same, with the specification's map kept up to date. */
    method HandOver(manager: ExtensibleNodeManager, self: nat, id: VehicleId, delay: Delays)
      requires manager.Ready() && manager.Represented()
      requires self < |manager.policies| && manager.policies[self] == RegionPolicy(this)
      requires id in outside
      modifies manager`vehicles, manager`nodes, manager`nodeIndex, manager`fleet, manager.repr
      ensures manager.Ready() && manager.Represented()
      ensures manager.fleet ==
              old(manager.fleet)[id := Route(manager.Here(), delay, Some(self), id, 0)]
      ensures outside == old(outside) - {id}
    {
      hide Represents, Moved, Settled;
      ghost var place := Route(manager.Here(), delay, Some(self), id, 0);
      manager.HeldOnce(self, id);
      MoveRepresents(manager.Snapshot(), manager.rules, manager.fleet, self, place, id);
      Release(manager, self, id, delay);
      manager.fleet := manager.fleet[id := place];
    }

    /** Vehicles that entered the regions are handed to the rest of the chain. */
    method CheckRegionOfInterest(manager: ExtensibleNodeManager, self: nat, delay: Delays)
      requires manager.Ready() && manager.Represented()
      requires self < |manager.policies| && manager.policies[self] == RegionPolicy(this)
      modifies manager`vehicles, manager`nodes, manager`nodeIndex, manager`fleet, manager.repr
      ensures manager.Ready() && manager.Represented()
      ensures manager.fleet == Recheck(manager.Here(), delay, old(manager.fleet), self)
      ensures forall v :: v in outside <==>
                v in old(outside) && !exists i :: 0 <= i < |regions| && regions[i](manager.position(v))
    {
      hide Represents, Route;
      ghost var site, before := manager.Here(), manager.fleet;
      manager.ParkedExactly(self);
      ghost var target := Recheck(site, delay, before, self);
      var todo := outside;
      while todo != {}
        invariant manager.Ready() && manager.Represented()
        invariant todo <= outside
        invariant forall v :: v in outside <==>
          v in old(outside) && (v in todo || !exists i :: 0 <= i < |regions| && regions[i](manager.position(v)))
        invariant manager.fleet.Keys == before.Keys
        invariant forall v :: v in before ==>
          manager.fleet[v] == if v in todo then before[v] else target[v]
        decreases |todo|
      {
        var id :| id in todo;
        CheckVehicle(manager, self, id, delay);
        todo := todo - {id};
      }
      assert manager.fleet == target;
    }

    method CheckVehicle(manager: ExtensibleNodeManager, self: nat, id: VehicleId, delay: Delays)
      requires manager.Wired() && manager.Ready() && manager.Represented()
      requires self < |manager.policies| && manager.policies[self] == RegionPolicy(this)
      requires id in outside
      modifies manager`vehicles, manager`nodes, manager`nodeIndex, manager`fleet, manager.repr
      ensures manager.Ready() && manager.Represented()
      ensures id in old(manager.fleet) && old(manager.fleet)[id] == Outside(self)
      ensures var covered := exists i :: 0 <= i < |regions| && regions[i](manager.position(id));
              && (covered <==> Inside(manager.Here(), self, id))
              && manager.fleet ==
                 (if covered then old(manager.fleet)[id := Route(manager.Here(), delay, Some(self), id, 0)]
                  else old(manager.fleet))
              && outside == if covered then old(outside) - {id} else old(outside)
    {
      manager.HeldOnce(self, id);
      var covered := Cover(manager.position(id));
      if covered {
        HandOver(manager, self, id, delay);
      }
    }
  }

  /** Holds every vehicle back for a while. The queue orders vehicles by insertion time; one
    * event is scheduled for its head. */
  class InsertionDelayVehiclePolicy {
    var queue: map<VehicleId, Time>
    var insertEvent: Option<Time>

    constructor ()
      ensures queue == map[] && insertEvent == None
    {
      queue := map[];
      insertEvent := None;
    }

    /** The event is scheduled for the head of the queue, which is never overdue. */
    ghost predicate Timely(now: Time)
      reads this
    {
      && insertEvent == Earliest(queue)
      && forall id :: id in queue ==> now <= queue[id]
    }

    /** A vehicle with the least insertion time; ties may fall either way. */
    method Head() returns (id: VehicleId)
      requires queue != map[]
      ensures id in queue && forall other :: other in queue ==> queue[id] <= queue[other]
      ensures Earliest(queue) == Some(queue[id])
    {
      EarliestMeans(queue);
      id :| id in queue && forall other :: other in queue ==> queue[id] <= queue[other];
      assert queue[id] in queue.Values;
    }

    /** Both run-time assertions of the policy are the `assert`s in this method and in
      * `HandleMessage`. */
    method ScheduleVehicleInsertion(now: Time)
      requires forall id :: id in queue ==> now <= queue[id]
      modifies this`insertEvent
      ensures Timely(now)
      ensures insertEvent.None? <==> queue == map[]
      ensures insertEvent.Some? ==> insertEvent.value in queue.Values
      ensures forall other :: other in queue ==> insertEvent.Some? && insertEvent.value <= queue[other]
    {
      insertEvent := None;
      if queue != map[] {
        var next := Head();
        var when := queue[next];
        assert when >= now;
        insertEvent := Some(when);
      }
    }

    method AddVehicle(id: VehicleId, now: Time, delay: nat) returns (d: Decision)
      requires Timely(now)
      modifies this
      ensures Timely(now) && d == Discard
      ensures queue == if id in old(queue) then old(queue) else old(queue)[id := now + delay]
      ensures insertEvent.None? <==> queue == map[]
      ensures insertEvent.Some? ==> insertEvent.value in queue.Values
      ensures forall other :: other in queue ==> insertEvent.Some? && insertEvent.value <= queue[other]
    {
      var when := now + delay;
      if id !in queue {
        queue := queue[id := when];
      }
      ScheduleVehicleInsertion(now);
      return Discard;
    }

    method UpdateVehicle(id: VehicleId) returns (d: Decision)
      ensures d.Continue? <==> id !in queue
    {
      return if id !in queue then Continue else Discard;
    }

    method RemoveVehicle(id: VehicleId, now: Time) returns (d: Decision)
      requires Timely(now)
      modifies this
      ensures Timely(now)
      ensures d.Continue? <==> id !in old(queue)
      ensures queue == old(queue) - {id}
      ensures insertEvent.None? <==> queue == map[]
      ensures insertEvent.Some? ==> insertEvent.value in queue.Values
      ensures forall other :: other in queue ==> insertEvent.Some? && insertEvent.value <= queue[other]
    {
      if id !in queue {
        EarliestMeans(queue);
        return Continue;
      }
      queue := queue - {id};
      ScheduleVehicleInsertion(now);
      return Discard;
    }

    /** The event has fired: the vehicle whose time has come is handed to the rest of the
      * chain. */
    method HandleMessage(manager: ExtensibleNodeManager, self: nat, delay: Delays)
        returns (id: VehicleId)
      requires manager.Valid()
      requires self < |manager.policies| && manager.policies[self] == DelayPolicy(this)
      requires insertEvent == Some(manager.now)
      modifies manager`vehicles, manager`nodes, manager`nodeIndex, manager`fleet, manager.repr
      ensures manager.Valid()
      ensures id in old(manager.fleet)
      ensures old(manager.fleet)[id] == Queued(self, manager.now)
      ensures manager.fleet ==
              old(manager.fleet)[id := Route(manager.Here(), delay, Some(self), id, 0)]
    {
      id := Head();
      var when := queue[id];
      assert when == manager.now;
      manager.HeldOnce(self, id);
      ReleaseSettles(manager.Here(), delay, manager.fleet, self, id);
      HandOver(manager, self, id, delay);
    }

    /** Hands a vehicle to the rest of the chain, takes it out of the queue and schedules the
      * next insertion. */
    method Release(manager: ExtensibleNodeManager, self: nat, id: VehicleId, delay: Delays)
      requires manager.Ready()
      requires self < |manager.policies| && manager.policies[self] == DelayPolicy(this)
      requires id in queue && id !in manager.vehicles && manager.Unheld(Some(self), id)
      modifies manager`vehicles, manager`nodes, manager`nodeIndex, manager.repr
      ensures manager.Ready()
      ensures var place := Route(manager.Here(), delay, Some(self), id, 0);
              && Fits(old(manager.States()), place)
              && manager.Snapshot() == Moved(old(manager.Snapshot()), self, place, id)
    {
      manager.AddVehicleFor(Some(self), id, delay);
      ghost var moved := manager.States();
      queue := queue - {id};
      ScheduleVehicleInsertion(manager.now);
      manager.OneChanged(self, moved);
    }

    /** The same, with the specification's map kept up to date. */
    method HandOver(manager: ExtensibleNodeManager, self: nat, id: VehicleId, delay: Delays)
      requires manager.Ready() && manager.Represented()
      requires self < |manager.policies| && manager.policies[self] == DelayPolicy(this)
      requires id in queue
      modifies manager`vehicles, manager`nodes, manager`nodeIndex, manager`fleet, manager.repr
      ensures manager.Ready() && manager.Represented()
      ensures manager.fleet ==
              old(manager.fleet)[id := Route(manager.Here(), delay, Some(self), id, 0)]
    {
      hide Represents, Moved, Settled;
      ghost var place := Route(manager.Here(), delay, Some(self), id, 0);
      manager.HeldOnce(self, id);
      MoveRepresents(manager.Snapshot(), manager.rules, manager.fleet, self, place, id);
      Release(manager, self, id, delay);
      manager.fleet := manager.fleet[id := place];
    }
  }

  datatype Policy =
    | RegionPolicy(roi: RegionOfInterestVehiclePolicy)
    | DelayPolicy(delay: InsertionDelayVehiclePolicy)
  {
    function Module(): object {
      match this
      case RegionPolicy(r) => r
      case DelayPolicy(d) => d
    }

    ghost function Configured(): Rule {
      match this
      case RegionPolicy(r) => RegionRule(r.regions)
      case DelayPolicy(_) => DelayRule
    }

    ghost function State(): Held
      reads Module()
    {
      match this
      case RegionPolicy(r) => Outer(r.outside)
      case DelayPolicy(d) => Queue(d.queue)
    }

    ghost predicate Timely(now: Time)
      reads Module()
    {
      DelayPolicy? ==> delay.Timely(now)
    }

    method AddVehicle(id: VehicleId, position: Position, now: Time, wait: nat) returns (d: Decision)
      requires Timely(now) && id !in Ids(State())
      modifies Module()
      ensures Timely(now)
      ensures RegionPolicy? ==>
                && (d.Continue? <==>
                    |roi.regions| == 0 || exists i :: 0 <= i < |roi.regions| && roi.regions[i](position))
                && State() == if d.Continue? then old(State())
                              else Outer(old(State()).outside + {id})
      ensures DelayPolicy? ==>
                d.Discard? && State() == Queue(old(State()).queue[id := now + wait])
    {
      match this
      case RegionPolicy(r) => d := r.AddVehicle(id, position);
      case DelayPolicy(q) => d := q.AddVehicle(id, now, wait);
    }

    method RemoveVehicle(id: VehicleId, now: Time) returns (d: Decision)
      requires Timely(now)
      modifies Module()
      ensures Timely(now)
      ensures d.Continue? <==> id !in Ids(old(State()))
      ensures State() == Drop(old(State()), id)
    {
      match this
      case RegionPolicy(r) => d := r.RemoveVehicle(id);
      case DelayPolicy(q) => d := q.RemoveVehicle(id, now);
    }
  }

  /** The manager: its vehicle table, the node modules it created for equipped vehicles, and
    * the removals policies asked for while the table was being traversed. */
  class ExtensibleNodeManager {
    const policies: seq<Policy>
    const destroyVehiclesOnCrash: bool
    ghost const rules: seq<Rule>
    ghost const repr: set<object>
    var vehicles: set<VehicleId>
    var removals: seq<VehicleId>
    var nodes: map<VehicleId, nat>
    var nodeIndex: nat
    var position: VehicleId -> Position
    var now: Time
    ghost var fleet: Fleet

    // ---------------------------------------------------------------- abstraction

    /** The policies are separate objects, `rules` says how they are configured. */
    ghost predicate Wired() {
      && |rules| == |policies|
      && (forall k :: 0 <= k < |policies| ==>
            policies[k].Module() in repr && rules[k] == policies[k].Configured())
      && (this as object) !in repr
      && (forall i, j :: 0 <= i < j < |policies| ==> policies[i].Module() != policies[j].Module())
    }

    ghost function Here(): Site
      reads this`position, this`now
    {
      Site(rules, position, now)
    }

    ghost function StatesTo(n: nat): (s: seq<Held>)
      requires Wired() && n <= |policies|
      reads repr
      ensures |s| == n && forall k :: 0 <= k < n ==> s[k] == policies[k].State()
    {
      if n == 0 then [] else StatesTo(n - 1) + [policies[n - 1].State()]
    }

    ghost function States(): seq<Held>
      requires Wired()
      reads repr
    {
      StatesTo(|policies|)
    }

    ghost function Snapshot(): Holdings
      requires Wired()
      reads this`vehicles, this`removals, repr
    {
      Holdings(vehicles, removals, States())
    }

    ghost predicate Timers()
      requires Wired()
      reads this`now, repr
    {
      forall k :: 0 <= k < |policies| ==> policies[k].Timely(now)
    }

    /** Every node module belongs to a vehicle of the table and has an index of its own. */
    ghost predicate NodesMatch()
      reads this`nodes, this`vehicles, this`nodeIndex
    {
      && nodes.Keys <= vehicles
      && (forall v :: v in nodes ==> nodes[v] < nodeIndex)
      && (forall v, w :: v in nodes && w in nodes && nodes[v] == nodes[w] ==> v == w)
    }

    ghost predicate Ready()
      reads this`now, this`nodes, this`vehicles, this`nodeIndex, repr
    {
      Wired() && Timers() && NodesMatch()
    }

    ghost predicate Represented()
      requires Wired()
      reads this, repr
    {
      Represents(Snapshot(), rules, fleet)
    }

    /** What holds between events. */
    ghost predicate Valid()
      reads this, repr
    {
      Ready() && removals == [] && Represented() && Settled(Here(), fleet)
    }

    /** No policy but possibly `omit` holds the vehicle. */
    ghost predicate Unheld(omit: Option<nat>, id: VehicleId)
      requires Wired()
      reads this, repr
    {
      forall k :: 0 <= k < |policies| && omit != Some(k) ==> id !in Ids(States()[k])
    }

    lemma NotHeld(id: VehicleId)
      requires Wired() && Represented() && id !in fleet
      ensures id !in vehicles && Unheld(None, id)
    {
    }

    /** What a region policy keeps are the vehicles the specification places there. */
    lemma ParkedExactly(k: nat)
      requires Wired() && Represented()
      requires k < |policies| && policies[k].RegionPolicy?
      ensures forall v :: v in policies[k].roi.outside <==> v in fleet && fleet[v] == Outside(k)
    {
    }

    /** A vehicle held by one policy is neither in the table nor held by another policy. */
    lemma HeldOnce(k: nat, id: VehicleId)
      requires Ready() && Represented()
      requires k < |policies| && id in Ids(States()[k])
      ensures id !in vehicles && Unheld(Some(k), id)
      ensures id in fleet && Proper(rules, fleet[id])
      ensures fleet[id] == match States()[k]
                           case Outer(_) => Outside(k)
                           case Queue(queue) => Queued(k, queue[id])
    {
      forall j | 0 <= j < |policies|
        ensures id in Ids(States()[j]) ==> id in fleet && !fleet[id].Managed? && fleet[id].policy == j
      {
        assert HeldAt(Snapshot().policies[j], j, fleet);
      }
    }

    /** Only policy `k` differs from an earlier list of states. */
    lemma OneChanged(k: nat, before: seq<Held>)
      requires Wired() && k < |policies| && |before| == |policies|
      requires forall j :: 0 <= j < |policies| && j != k ==> policies[j].State() == before[j]
      ensures States() == before[k := policies[k].State()]
    {
    }

    // ---------------------------------------------------------------- table

    /** Enters a vehicle; whether it is equipped, and so gets a node module, is decided by the
      * module mapper. */
    method BasicAddVehicle(id: VehicleId)
      requires Ready() && id !in vehicles
      modifies this`vehicles, this`nodes, this`nodeIndex
      ensures Ready()
      ensures vehicles == old(vehicles) + {id}
      ensures nodes == old(nodes) || nodes == old(nodes)[id := old(nodeIndex)]
    {
      var equipped: bool := *;
      if equipped {
        nodes := nodes[id := nodeIndex];
        nodeIndex := nodeIndex + 1;
      }
      vehicles := vehicles + {id};
    }

    method BasicRemoveVehicle(id: VehicleId)
      requires Ready()
      modifies this`vehicles, this`nodes
      ensures Ready()
      ensures vehicles == old(vehicles) - {id} && nodes == old(nodes) - {id}
    {
      nodes := nodes - {id};
      vehicles := vehicles - {id};
    }

    // ---------------------------------------------------------------- chain of policies

    method OfferTo(k: nat, id: VehicleId, wait: nat) returns (d: Decision)
      requires k < |policies| && Wired() && Timers() && id !in Ids(States()[k])
      modifies policies[k].Module()
      ensures Timers()
      ensures var place := PlaceAt(Here(), wait, k, id);
              && (d.Continue? <==> place.Managed?)
              && Fits(old(States()), place)
              && States() == PutHeld(old(States()), place, id)
    {
      ghost var before := States();
      d := policies[k].AddVehicle(id, position(id), now, wait);
      OneChanged(k, before);
    }

    method ReclaimFrom(k: nat, id: VehicleId) returns (d: Decision)
      requires k < |policies| && Wired() && Timers()
      modifies policies[k].Module()
      ensures Timers()
      ensures d.Continue? <==> id !in Ids(old(States())[k])
      ensures States() == if d.Continue? then old(States())
                          else old(States())[k := Drop(old(States())[k], id)]
    {
      ghost var before := States();
      d := policies[k].RemoveVehicle(id, now);
      OneChanged(k, before);
      assert d.Continue? ==> Drop(before[k], id) == before[k];
    }

    /** The policies' part of adding a vehicle. */
    method Offer(omit: Option<nat>, id: VehicleId, delay: Delays) returns (d: Decision)
      requires Wired() && Timers() && Unheld(omit, id)
      modifies repr
      ensures Timers()
      ensures var place := Route(Here(), delay, omit, id, 0);
              && (d.Continue? <==> place.Managed?)
              && Fits(old(States()), place)
              && States() == PutHeld(old(States()), place, id)
    {
      hide Inside, PlaceAt, Fits, PutHeld, Timers;
      ghost var before, site := States(), Here();
      var k := 0;
      while k < |policies|
        invariant k <= |policies|
        invariant Timers() && States() == before && Here() == site
        invariant Route(site, delay, omit, id, 0) == Route(site, delay, omit, id, k)
      {
        if omit != Some(k) {
          assert id !in Ids(before[k]);
          d := OfferTo(k, id, delay(k, id));
          if d.Discard? {
            return;
          }
          PutManaged(before, PlaceAt(site, delay(k, id), k, id), id);
        }
        k := k + 1;
      }
      PutManaged(before, Managed, id);
      return Continue;
    }

    /** The policies' part of removing a vehicle. */
    method Reclaim(omit: Option<nat>, id: VehicleId) returns (d: Decision)
      requires Wired() && Timers()
      modifies repr
      ensures Timers()
      ensures d.Continue? ==> States() == old(States())
      ensures forall h: Holdings :: h.policies == old(States()) ==>
                RemoveFrom(h, omit, id, 0) ==
                if d.Discard? then h.(policies := States())
                else RemoveFrom(h, omit, id, |h.policies|)
    {
      ghost var before := States();
      var k := 0;
      while k < |policies|
        invariant k <= |policies|
        invariant Timers() && States() == before
        invariant forall h: Holdings :: h.policies == before ==>
                    RemoveFrom(h, omit, id, 0) == RemoveFrom(h, omit, id, k)
      {
        if omit != Some(k) {
          d := ReclaimFrom(k, id);
          if d.Discard? {
            return;
          }
        }
        k := k + 1;
      }
      return Continue;
    }

    /** Asks the chain, without policy `omit`, to add a vehicle. */
    method AddVehicleFor(omit: Option<nat>, id: VehicleId, delay: Delays)
      requires Ready() && id !in vehicles && Unheld(omit, id)
      modifies this`vehicles, this`nodes, this`nodeIndex, repr
      ensures Ready()
      ensures var place := Route(Here(), delay, omit, id, 0);
              && Fits(old(States()), place)
              && Snapshot() == Put(old(Snapshot()), place, id)
    {
      var d := Offer(omit, id, delay);
      if d.Discard? {
        return;
      }
      BasicAddVehicle(id);
    }

    /** Asks the chain, without policy `omit`, to remove a vehicle; deferred if a policy asks. */
    method RemoveVehicleFor(omit: Option<nat>, id: VehicleId)
      requires Ready()
      modifies this`vehicles, this`nodes, this`removals, repr
      ensures Ready()
      ensures Snapshot() == RemoveFrom(old(Snapshot()), omit, id, 0)
    {
      var d := Reclaim(omit, id);
      if d.Discard? {
        return;
      }
      if omit.None? {
        BasicRemoveVehicle(id);
      } else {
        removals := removals + [id];
      }
    }

    /** Updates a vehicle of the table: the first region policy it left takes it over. The table
      * itself does not change, so it can be traversed. */
    method UpdateVehicle(id: VehicleId)
      requires Ready() && Unheld(None, id)
      modifies this`vehicles, this`nodes, this`removals, repr
      ensures Ready()
      ensures vehicles == old(vehicles)
      ensures var place := Eject(Here(), id, 0);
              Fits(old(States()), place) && Snapshot() == Ejected(old(Snapshot()), place, id)
    {
      ghost var before, site := Snapshot(), Here();
      var k := 0;
      while k < |policies|
        invariant k <= |policies|
        invariant Ready() && Snapshot() == before && Here() == site
        invariant Eject(site, id, 0) == Eject(site, id, k)
      {
        assert id !in Ids(before.policies[k]);
        var d := Continue;
        match policies[k] {
          case RegionPolicy(r) => d := r.UpdateVehicle(this, k, id);
          case DelayPolicy(q) => d := q.UpdateVehicle(id);
        }
        if d.Discard? {
          return;
        }
        k := k + 1;
      }
    }

    // ---------------------------------------------------------------- events

    /** A manager whose policies hold nothing yet. */
    constructor (policies: seq<Policy>, destroyVehiclesOnCrash: bool, start: Time)
      requires forall i, j :: 0 <= i < j < |policies| ==> policies[i].Module() != policies[j].Module()
      requires forall k :: 0 <= k < |policies| ==> Ids(policies[k].State()) == {}
      requires forall k :: 0 <= k < |policies| ==> policies[k].Timely(start)
      ensures this.policies == policies && this.destroyVehiclesOnCrash == destroyVehiclesOnCrash
      ensures now == start && fleet == map[]
      ensures Wired() && Valid()
    {
      this.policies := policies;
      this.destroyVehiclesOnCrash := destroyVehiclesOnCrash;
      rules := seq(|policies|, k requires 0 <= k < |policies| => policies[k].Configured());
      repr := set k | 0 <= k < |policies| :: policies[k].Module();
      vehicles, removals, nodes, nodeIndex := {}, [], map[], 0;
      position := _ => Position(0.0, 0.0);
      now := start;
      fleet := map[];
      new;
      EmptyRepresents(Snapshot(), rules);
    }

    method AddVehicle(id: VehicleId, delay: Delays)
      requires Wired() && Ready() && Represented() && id !in fleet
      modifies this`vehicles, this`nodes, this`nodeIndex, this`fleet, repr
      ensures Ready() && Represented()
      ensures fleet == old(fleet)[id := Route(Here(), delay, None, id, 0)]
    {
      hide Represents, Route;
      ghost var place := Route(Here(), delay, None, id, 0);
      NotHeld(id);
      ProperRoute(Here(), delay, id);
      PutRepresents(Snapshot(), rules, fleet, place, id);
      AddVehicleFor(None, id, delay);
      fleet := fleet[id := place];
    }

    method RemoveVehicle(id: VehicleId)
      requires Wired() && Ready() && Represented()
      modifies this`vehicles, this`nodes, this`removals, this`fleet, repr
      ensures Ready() && Represented() && removals == old(removals)
      ensures fleet == old(fleet) - {id}
    {
      RemoveRepresents(Snapshot(), rules, fleet, id, 0);
      RemoveVehicleFor(None, id);
      fleet := fleet - {id};
    }

    method AddVehicles(ids: seq<VehicleId>, delay: Delays)
      requires Wired() && Ready() && Represented()
      requires forall i :: 0 <= i < |ids| ==> ids[i] !in fleet
      requires forall i, j :: 0 <= i < j < |ids| ==> ids[i] != ids[j]
      modifies this`vehicles, this`nodes, this`nodeIndex, this`fleet, repr
      ensures Ready() && Represented()
      ensures fleet == Depart(Here(), delay, old(fleet), ids)
    {
      hide Represents, Ready, Route, Depart;
      ghost var site, before := Here(), fleet;
      DepartNobody(site, delay, before);
      for i := 0 to |ids|
        invariant Ready() && Represented() && Here() == site
        invariant fleet == Depart(site, delay, before, ids[..i])
      {
        assert ids[..i + 1] == ids[..i] + [ids[i]];
        DepartOne(site, delay, before, ids[..i], ids[i]);
        AddVehicle(ids[i], delay);
      }
      assert ids[..|ids|] == ids;
    }

    method RemoveVehicles(ids: seq<VehicleId>)
      requires Wired() && Ready() && Represented()
      modifies this`vehicles, this`nodes, this`removals, this`fleet, repr
      ensures Ready() && Represented() && removals == old(removals)
      ensures fleet == old(fleet) - Elements(ids)
    {
      for i := 0 to |ids|
        invariant Ready() && Represented() && removals == old(removals)
        invariant fleet == old(fleet) - Elements(ids[..i])
      {
        assert ids[..i + 1] == ids[..i] + [ids[i]];
        RemoveVehicle(ids[i]);
      }
      assert ids[..|ids|] == ids;
    }

    /** While the table is traversed it still lists the vehicles whose removal is deferred. */
    ghost predicate RepresentedDeferred()
      requires Wired()
      reads this, repr
    {
      Represents(Remaining(Snapshot()), rules, fleet)
    }

    method UpdateManaged(id: VehicleId)
      requires Wired() && Ready() && RepresentedDeferred()
      requires id in vehicles && id !in Elements(removals)
      modifies this`vehicles, this`nodes, this`removals, this`fleet, repr
      ensures Ready() && RepresentedDeferred() && vehicles == old(vehicles)
      ensures id in old(fleet) && old(fleet)[id].Managed?
      ensures var place := Eject(Here(), id, 0);
              && fleet == old(fleet)[id := place]
              && Elements(removals) ==
                 Elements(old(removals)) + if place.Managed? then {} else {id}
    {
      hide Represents, Ready, Eject, Remaining, Elements, Ejected;
      EjectDeferred(Snapshot(), rules, fleet, Here(), id);
      ghost var place := Eject(Here(), id, 0);
      UpdateVehicle(id);
      fleet := fleet[id := place];
    }

    /** Traverses the table, which no policy changes meanwhile. */
    method TraverseVehicles()
      requires Wired() && Ready() && RepresentedDeferred() && removals == []
      modifies this`vehicles, this`nodes, this`removals, this`fleet, repr
      ensures Ready() && RepresentedDeferred() && vehicles == old(vehicles)
      ensures fleet == Update(Here(), old(fleet))
    {
      hide Represents, Eject, Ready, UpdateExcept;
      ghost var site, before := Here(), fleet;
      RemainingManaged();
      UpdateNone(site, before, vehicles);
      var todo := vehicles;
      while todo != {}
        invariant Ready() && RepresentedDeferred() && Here() == site
        invariant vehicles == old(vehicles) && todo <= vehicles
        invariant todo !! Elements(removals)
        invariant fleet == UpdateExcept(site, before, todo)
        decreases |todo|
      {
        var id :| id in todo;
        UpdateManaged(id);
        UpdateOne(site, before, todo, id);
        todo := todo - {id};
      }
    }

    lemma RemainingManaged()
      requires Wired() && RepresentedDeferred() && removals == []
      ensures forall v :: v in vehicles <==> v in fleet && fleet[v].Managed?
    {
    }

    method UpdateVehicles()
      requires Wired() && Ready() && Represented() && removals == []
      modifies this`vehicles, this`nodes, this`removals, this`fleet, repr
      ensures Ready() && Represented() && removals == []
      ensures fleet == Update(Here(), old(fleet))
    {
      assert Remaining(Snapshot()) == Snapshot();
      TraverseVehicles();
      RemoveDeferredVehicles();
    }

    /** The deferred removals, once the table is no longer traversed. */
    method RemoveDeferredVehicles()
      requires Wired() && Ready() && RepresentedDeferred()
      modifies this`vehicles, this`nodes, this`removals
      ensures Ready() && Represented() && removals == []
    {
      for i := 0 to |removals|
        invariant Ready() && removals == old(removals) && States() == old(States())
        invariant vehicles == old(vehicles) - Elements(removals[..i])
      {
        assert removals[..i + 1] == removals[..i] + [removals[i]];
        BasicRemoveVehicle(removals[i]);
      }
      assert removals[..|removals|] == removals;
      removals := [];
    }

    /** TraCI is connected: vehicles already running are entered. */
    method TraciInit(running: seq<VehicleId>, positions: VehicleId -> Position, delay: Delays)
      requires Wired() && Valid() && fleet == map[]
      requires forall i, j :: 0 <= i < j < |running| ==> running[i] != running[j]
      modifies this, repr
      ensures Valid() && position == positions && now == old(now)
      ensures fleet == Depart(Here(), delay, map[], running)
    {
      position := positions;
      DepartSettles(Here(), delay, running);
      AddVehicles(running, delay);
    }

    method ProcessVehicles(delay: Delays, departed: seq<VehicleId>, arrived: seq<VehicleId>,
                           teleported: seq<VehicleId>)
      requires Wired() && Ready() && Represented() && removals == []
      requires forall i :: 0 <= i < |departed| ==> departed[i] !in fleet
      requires forall i, j :: 0 <= i < j < |departed| ==> departed[i] != departed[j]
      modifies this`vehicles, this`nodes, this`nodeIndex, this`removals, this`fleet, repr
      ensures Ready() && Represented() && removals == []
      ensures fleet == Update(Here(), Depart(Here(), delay, old(fleet), departed)
                                      - Gone(arrived, teleported, destroyVehiclesOnCrash))
    {
      hide Represents, Ready, Depart, UpdateExcept;
      AddVehicles(departed, delay);
      ghost var joined := fleet;
      RemoveVehicles(arrived);
      if destroyVehiclesOnCrash {
        RemoveVehicles(teleported);
      }
      assert fleet == joined - Gone(arrived, teleported, destroyVehiclesOnCrash);
      UpdateVehicles();
    }

    /** The update signal: every region policy looks at the vehicles it keeps. */
    method EmitUpdate(delay: Delays)
      requires Wired() && Ready() && Represented()
      modifies this`vehicles, this`nodes, this`nodeIndex, this`fleet, repr
      ensures Ready() && Represented()
      ensures fleet == RecheckFrom(Here(), delay, old(fleet), 0)
    {
      hide Represents, Ready, Recheck;
      ghost var site := Here();
      for i := 0 to |policies|
        invariant Ready() && Represented() && Here() == site
        invariant RecheckFrom(site, delay, old(fleet), 0) == RecheckFrom(site, delay, fleet, i)
      {
        match policies[i] {
          case RegionPolicy(r) => r.CheckRegionOfInterest(this, i, delay);
          case DelayPolicy(_) =>
        }
      }
    }

    /** Spelled out: the table holds the vehicles alive that are in no insertion queue and, for every
      * region policy with regions, within one of its regions. */
    lemma TableFilters()
      requires Wired() && Valid()
      ensures forall v :: v in vehicles <==>
                && v in fleet
                && (forall k :: 0 <= k < |policies| && policies[k].DelayPolicy? ==> v !in policies[k].delay.queue)
                && (forall k :: 0 <= k < |policies| && policies[k].RegionPolicy? && |policies[k].roi.regions| > 0 ==>
                      exists i :: 0 <= i < |policies[k].roi.regions| && policies[k].roi.regions[i](position(v)))
    {
      forall v | v in fleet
        ensures v in vehicles <==>
                && (forall k :: 0 <= k < |policies| && policies[k].DelayPolicy? ==> v !in policies[k].delay.queue)
                && (forall k :: 0 <= k < |policies| && policies[k].RegionPolicy? && |policies[k].roi.regions| > 0 ==>
                      exists i :: 0 <= i < |policies[k].roi.regions| && policies[k].roi.regions[i](position(v)))
      {
        TableFiltersOne(v);
      }
    }

    lemma TableFiltersOne(v: VehicleId)
      requires Wired() && Valid() && v in fleet
      ensures v in vehicles <==>
              && (forall k :: 0 <= k < |policies| && policies[k].DelayPolicy? ==> v !in policies[k].delay.queue)
              && (forall k :: 0 <= k < |policies| && policies[k].RegionPolicy? && |policies[k].roi.regions| > 0 ==>
                    exists i :: 0 <= i < |policies[k].roi.regions| && policies[k].roi.regions[i](position(v)))
    {
      hide NodesMatch, Timers;
      InsideMeans(Here(), v);
      RulesMean(v);
      if fleet[v].Queued? {
        var k := fleet[v].policy;
        assert HeldAt(Snapshot().policies[k], k, fleet);
        assert v in policies[k].delay.queue;
      } else {
        forall k | 0 <= k < |policies| && policies[k].DelayPolicy? ensures v !in policies[k].delay.queue {
          assert HeldAt(Snapshot().policies[k], k, fleet);
        }
        if fleet[v].Outside? {
          assert !Inside(Here(), fleet[v].policy, v);
        }
      }
    }

    lemma RulesMean(v: VehicleId)
      requires Wired()
      ensures (forall k :: 0 <= k < |rules| && rules[k].RegionRule? && |rules[k].regions| > 0 ==>
                 exists i :: 0 <= i < |rules[k].regions| && rules[k].regions[i](position(v)))
              <==> (forall k :: 0 <= k < |policies| && policies[k].RegionPolicy? && |policies[k].roi.regions| > 0 ==>
                      exists i :: 0 <= i < |policies[k].roi.regions| && policies[k].roi.regions[i](position(v)))
    {
      if forall k :: 0 <= k < |rules| && rules[k].RegionRule? && |rules[k].regions| > 0 ==>
           exists i :: 0 <= i < |rules[k].regions| && rules[k].regions[i](position(v))
      {
        forall k | 0 <= k < |policies| && policies[k].RegionPolicy? && |policies[k].roi.regions| > 0
          ensures exists i :: 0 <= i < |policies[k].roi.regions| && policies[k].roi.regions[i](position(v))
        {
          assert rules[k] == policies[k].Configured();
          var i :| 0 <= i < |rules[k].regions| && rules[k].regions[i](position(v));
          assert policies[k].roi.regions[i](position(v));
        }
      } else {
        var k :| 0 <= k < |rules| && rules[k].RegionRule? && |rules[k].regions| > 0
                 && !exists i :: 0 <= i < |rules[k].regions| && rules[k].regions[i](position(v));
        assert rules[k] == policies[k].Configured();
      }
    }

    /** One step of the traffic simulation. Afterwards the table holds exactly the vehicles
      * alive that wait for no insertion and are inside every region policy. */
    method TraciStep(positions: VehicleId -> Position, delay: Delays, departed: seq<VehicleId>,
                     arrived: seq<VehicleId>, teleported: seq<VehicleId>)
      requires Wired() && Valid()
      requires forall i :: 0 <= i < |departed| ==> departed[i] !in fleet
      requires forall i, j :: 0 <= i < j < |departed| ==> departed[i] != departed[j]
      modifies this, repr
      ensures Valid() && position == positions && now == old(now)
      ensures fleet == Step(Here(), delay, old(fleet), departed,
                            Gone(arrived, teleported, destroyVehiclesOnCrash))
      ensures forall v :: v in fleet <==>
                (v in old(fleet) || v in departed) && v !in arrived && !(destroyVehiclesOnCrash && v in teleported)
      ensures forall v :: v in vehicles <==>
                && v in fleet
                && (forall k :: 0 <= k < |policies| && policies[k].DelayPolicy? ==> v !in policies[k].delay.queue)
                && (forall k :: 0 <= k < |policies| && policies[k].RegionPolicy? && |policies[k].roi.regions| > 0 ==>
                      exists i :: 0 <= i < |policies[k].roi.regions| && policies[k].roi.regions[i](positions(v)))
      ensures forall k, v :: 0 <= k < |policies| && policies[k].DelayPolicy? && v in policies[k].delay.queue ==>
                policies[k].delay.queue[v] ==
                if v in old(policies[k].delay.queue) then old(policies[k].delay.queue[v]) else now + delay(k, v)
    {
      hide Represents, Settled, QueueKept, Step, NodesMatch, Timers, StatesTo, Depart, Update, RecheckFrom;
      SettledMeans(Here(), fleet);
      position := positions;
      ghost var site, before, states := Here(), fleet, Snapshot();
      Refine(delay, departed, arrived, teleported);
      TableFilters();
      QueuesKept(states, Snapshot(), site, delay, before, fleet);
    }

    /** The step itself, against the specification. */
    method Refine(delay: Delays, departed: seq<VehicleId>, arrived: seq<VehicleId>, teleported: seq<VehicleId>)
      requires Wired() && Ready() && Represented() && removals == []
      requires WellPlaced(rules, fleet) && Punctual(now, fleet)
      requires forall i :: 0 <= i < |departed| ==> departed[i] !in fleet
      requires forall i, j :: 0 <= i < j < |departed| ==> departed[i] != departed[j]
      modifies this`vehicles, this`nodes, this`nodeIndex, this`removals, this`fleet, repr
      ensures Valid() && QueueKept(Here(), delay, old(fleet), fleet)
      ensures fleet == Step(Here(), delay, old(fleet), departed,
                            Gone(arrived, teleported, destroyVehiclesOnCrash))
      ensures fleet.Keys == old(fleet).Keys + Elements(departed)
                            - Gone(arrived, teleported, destroyVehiclesOnCrash)
    {
      hide Represents, NodesMatch, Timers;
      StepSettles(Here(), delay, fleet, departed, Gone(arrived, teleported, destroyVehiclesOnCrash));
      ProcessVehicles(delay, departed, arrived, teleported);
      EmitUpdate(delay);
    }

    /** Time passes. The kernel delivers events in order, so it does not pass one that is
      * scheduled. */
    method Advance(to: Time)
      requires Wired() && Valid() && now <= to
      requires forall k :: 0 <= k < |policies| && policies[k].DelayPolicy? ==>
                 policies[k].delay.insertEvent == None || to <= policies[k].delay.insertEvent.value
      modifies this`now
      ensures Valid() && now == to
      ensures forall v :: v in fleet && fleet[v].Queued? ==> to <= fleet[v].due
    {
      forall k | 0 <= k < |policies| ensures policies[k].Timely(to) {
        if policies[k].DelayPolicy? {
          EarliestBounds(policies[k].delay.queue, to);
        }
      }
      forall v | v in fleet && fleet[v].Queued? ensures to <= fleet[v].due {
        var k := fleet[v].policy;
        assert HeldAt(Snapshot().policies[k], k, fleet);
        assert policies[k].Timely(to);
      }
      TimeSettles(Here(), to, fleet);
      now := to;
    }
  }
}
