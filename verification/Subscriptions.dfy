/** The subscription manager: which variables of which vehicles the traffic simulation reports. */
module Subscriptions {
  import opened Moments

  type VehicleId = string

  /** A strictly sorted list, the form of both a set of variables and their union. */
  ghost predicate Strict(s: seq<int>) {
    forall i, j :: 0 <= i < j < |s| ==> s[i] < s[j]
  }

  /** The library's union of two sorted ranges. */
  function SetUnion(a: seq<int>, b: seq<int>): seq<int> {
    if a == [] then b
    else if b == [] then a
    else if a[0] < b[0] then [a[0]] + SetUnion(a[1..], b)
    else if b[0] < a[0] then [b[0]] + SetUnion(a, b[1..])
    else [a[0]] + SetUnion(a[1..], b[1..])
  }

  lemma {:induction false} UnionElements(a: seq<int>, b: seq<int>, x: int)
    ensures x in SetUnion(a, b) <==> x in a || x in b
  {
    if a != [] && b != [] {
      if a[0] < b[0] {
        UnionElements(a[1..], b, x);
      } else if b[0] < a[0] {
        UnionElements(a, b[1..], x);
      } else {
        UnionElements(a[1..], b[1..], x);
      }
    }
  }

  lemma {:induction false} UnionStrict(a: seq<int>, b: seq<int>)
    requires Strict(a) && Strict(b)
    ensures Strict(SetUnion(a, b))
  {
    if a != [] && b != [] {
      var low := if a[0] < b[0] then a[0] else b[0];
      var rest := if a[0] < b[0] then SetUnion(a[1..], b)
                  else if b[0] < a[0] then SetUnion(a, b[1..])
                  else SetUnion(a[1..], b[1..]);
      if a[0] < b[0] {
        UnionStrict(a[1..], b);
      } else if b[0] < a[0] {
        UnionStrict(a, b[1..]);
      } else {
        UnionStrict(a[1..], b[1..]);
      }
      forall i | 0 <= i < |rest| ensures low < rest[i] {
        if a[0] < b[0] {
          UnionElements(a[1..], b, rest[i]);
        } else if b[0] < a[0] {
          UnionElements(a, b[1..], rest[i]);
        } else {
          UnionElements(a[1..], b[1..], rest[i]);
        }
      }
      assert SetUnion(a, b) == [low] + rest;
    }
  }

  /** A strictly sorted list is determined by its elements. */
  lemma {:induction false} StrictUnique(a: seq<int>, b: seq<int>)
    requires Strict(a) && Strict(b) && forall x :: x in a <==> x in b
    ensures a == b
  {
    assert a != [] ==> a[0] in a;
    assert b != [] ==> b[0] in b;
    if a != [] && b != [] {
      assert a[0] in b && b[0] in a;
      forall x ensures x in a[1..] <==> x in b[1..] {
        assert x in a <==> x == a[0] || x in a[1..];
        assert x in b <==> x == b[0] || x in b[1..];
      }
      StrictUnique(a[1..], b[1..]);
      assert a == [a[0]] + a[1..] && b == [b[0]] + b[1..];
    }
  }

  lemma StrictSize(s: seq<int>)
    requires Strict(s)
    ensures |Elements(s)| == |s|
  {
    if s != [] {
      var front := s[..|s| - 1];
      StrictSize(front);
      assert Elements(s) == Elements(front) + {s[|s| - 1]};
    }
  }

  /** A union is never smaller than its first part, and if it is as large it is the same. That is
    * what justifies subscribing again only when the size has changed. */
  lemma EqualSizeSameUnion(a: seq<int>, b: seq<int>)
    requires Strict(a) && Strict(b)
    ensures |a| <= |SetUnion(a, b)|
    ensures |SetUnion(a, b)| == |a| <==> SetUnion(a, b) == a
  {
    var u := SetUnion(a, b);
    UnionStrict(a, b);
    forall x ensures x in u <==> x in a || x in b {
      UnionElements(a, b, x);
    }
    StrictSize(a);
    StrictSize(u);
    assert Elements(a) <= Elements(u);
    SubsetSize(Elements(a), Elements(u));
    if |u| == |a| {
      assert forall x :: x in u <==> x in Elements(u);
      assert forall x :: x in a <==> x in Elements(a);
      StrictUnique(u, a);
    }
  }

  /** The server was told nothing new about the vehicle. */
  predicate Same(id: VehicleId, before: map<VehicleId, seq<int>>, after: map<VehicleId, seq<int>>) {
    if id in before then id in after && after[id] == before[id] else id !in after
  }

  class BasicSubscriptionManager<Results> {
    var subscribedVehicles: set<VehicleId>
    var vehicleVars: seq<int>
    var simVars: seq<int>
    var vehicleCaches: map<VehicleId, Results>

    /** What has been requested, and what the server was last told for each vehicle and for the
      * simulation itself. */
    ghost var requested: set<int>
    ghost var requestedSim: set<int>
    ghost var server: map<VehicleId, seq<int>>
    ghost var serverSim: seq<int>

    /** The variables are the sorted union of all requests, and the server knows them for every
      * subscribed vehicle. */
    ghost predicate Valid()
      reads this
    {
      && Strict(vehicleVars) && Elements(vehicleVars) == requested
      && Strict(simVars) && Elements(simVars) == requestedSim && serverSim == simVars
      && (vehicleVars != [] ==>
            forall id :: id in subscribedVehicles ==> id in server && server[id] == vehicleVars)
    }

    constructor ()
      ensures Valid() && subscribedVehicles == {} && requested == {} && requestedSim == {}
    {
      subscribedVehicles, vehicleVars, simVars, vehicleCaches := {}, [], [], map[];
      requested, requestedSim, server, serverSim := {}, {}, map[], [];
    }

    method UpdateVehicleSubscription(id: VehicleId, vars: seq<int>)
      modifies this`server
      ensures server == old(server)[id := vars]
    {
      server := server[id := vars];
    }

    method SubscribeVehicle(id: VehicleId)
      requires Valid()
      modifies this`server, this`subscribedVehicles
      ensures Valid() && subscribedVehicles == old(subscribedVehicles) + {id}
      ensures server == if vehicleVars != [] then old(server)[id := vehicleVars] else old(server)
    {
      if vehicleVars != [] {
        UpdateVehicleSubscription(id, vehicleVars);
      }
      subscribedVehicles := subscribedVehicles + {id};
    }

    method UnsubscribeVehicle(id: VehicleId, vehicleExists: bool)
      requires Valid()
      modifies this`server, this`subscribedVehicles
      ensures Valid() && subscribedVehicles == old(subscribedVehicles) - {id}
      ensures server == if vehicleExists && vehicleVars != [] then old(server)[id := []] else old(server)
    {
      if vehicleExists && vehicleVars != [] {
        UpdateVehicleSubscription(id, []);
      }
      subscribedVehicles := subscribedVehicles - {id};
    }

    /** Adds variables for all vehicles; subscribes them again only if the union has grown. */
    method SubscribeVehicleVariables(vars: seq<int>)
      requires Valid() && Strict(vars)
      modifies this`vehicleVars, this`server, this`requested
      ensures Valid() && requested == old(requested) + Elements(vars)
      ensures Strict(vehicleVars) && forall x :: x in vehicleVars <==> x in old(vehicleVars) || x in vars
      ensures if vehicleVars == old(vehicleVars) then server == old(server)
              else forall id :: id in subscribedVehicles ==> id in server && server[id] == vehicleVars
      ensures Elements(vars) <= old(requested) ==> server == old(server)
    {
      var before := vehicleVars;
      vehicleVars := SetUnion(before, vars);
      UnionStrict(before, vars);
      EqualSizeSameUnion(before, vars);
      forall x ensures x in vehicleVars <==> x in before || x in vars {
        UnionElements(before, vars, x);
      }
      requested := requested + Elements(vars);
      if Elements(vars) <= old(requested) {
        forall x ensures x in vehicleVars <==> x in before {
          assert x in vars ==> x in Elements(vars);
          assert x in before <==> x in old(requested);
        }
        StrictUnique(vehicleVars, before);
      }
      assert |vehicleVars| >= |before|;
      if |vehicleVars| != |before| {
        ResubscribeAll();
      }
    }

    method ResubscribeAll()
      modifies this`server
      ensures forall id :: id in subscribedVehicles ==> id in server && server[id] == vehicleVars
    {
      var todo := subscribedVehicles;
      while todo != {}
        invariant todo <= subscribedVehicles
        invariant forall id :: id in subscribedVehicles && id !in todo ==> id in server && server[id] == vehicleVars
        decreases |todo|
      {
        var id :| id in todo;
        UpdateVehicleSubscription(id, vehicleVars);
        todo := todo - {id};
      }
    }

    method SubscribeSimulationVariables(vars: seq<int>)
      requires Valid() && Strict(vars)
      modifies this`simVars, this`serverSim, this`requestedSim
      ensures Valid() && requestedSim == old(requestedSim) + Elements(vars)
      ensures Strict(simVars) && forall x :: x in simVars <==> x in old(simVars) || x in vars
      ensures serverSim == if simVars == old(simVars) then old(serverSim) else simVars
    {
      var before := simVars;
      simVars := SetUnion(before, vars);
      UnionStrict(before, vars);
      EqualSizeSameUnion(before, vars);
      forall x ensures x in simVars <==> x in before || x in vars {
        UnionElements(before, vars, x);
      }
      requestedSim := requestedSim + Elements(vars);
      assert |simVars| >= |before|;
      if |simVars| != |before| {
        serverSim := simVars;
      }
    }

    /** One simulation step: arrived vehicles are dropped, departed ones subscribed, and the cache
      * of every subscribed vehicle is filled with the results of this step. */
    method Step(arrived: seq<VehicleId>, departed: seq<VehicleId>, results: VehicleId -> Results)
      requires Valid()
      modifies this`server, this`subscribedVehicles, this`vehicleCaches
      ensures Valid()
      ensures subscribedVehicles ==
              old(subscribedVehicles) - (set id | id in arrived) + (set id | id in departed)
      ensures vehicleVars != [] ==> forall id :: id in departed ==> id in server && server[id] == vehicleVars
      ensures forall id :: id !in departed || vehicleVars == [] ==> Same(id, old(server), server)
      ensures forall id :: id in subscribedVehicles ==> id in vehicleCaches && vehicleCaches[id] == results(id)
      ensures forall id :: id in old(vehicleCaches) && id !in subscribedVehicles ==>
                id in vehicleCaches && vehicleCaches[id] == old(vehicleCaches)[id]
    {
      for n := 0 to |arrived|
        invariant Valid() && vehicleCaches == old(vehicleCaches)
        invariant subscribedVehicles == old(subscribedVehicles) - set id | id in arrived[..n]
        invariant server == old(server)
      {
        UnsubscribeVehicle(arrived[n], false);
      }
      assert arrived[..|arrived|] == arrived;
      ghost var remaining := subscribedVehicles;
      for n := 0 to |departed|
        invariant Valid() && vehicleCaches == old(vehicleCaches)
        invariant subscribedVehicles == remaining + set id | id in departed[..n]
        invariant vehicleVars != [] ==> forall id :: id in departed[..n] ==> id in server && server[id] == vehicleVars
        invariant forall id :: id !in departed[..n] || vehicleVars == [] ==> Same(id, old(server), server)
      {
        SubscribeVehicle(departed[n]);
      }
      assert departed[..|departed|] == departed;
      ResetCaches(results);
    }

    method ResetCaches(results: VehicleId -> Results)
      modifies this`vehicleCaches
      ensures forall id :: id in subscribedVehicles ==> id in vehicleCaches && vehicleCaches[id] == results(id)
      ensures forall id :: id in old(vehicleCaches) && id !in subscribedVehicles ==>
                id in vehicleCaches && vehicleCaches[id] == old(vehicleCaches)[id]
    {
      var todo := subscribedVehicles;
      while todo != {}
        invariant todo <= subscribedVehicles
        invariant forall id :: id in subscribedVehicles && id !in todo ==>
          id in vehicleCaches && vehicleCaches[id] == results(id)
        invariant forall id :: id in old(vehicleCaches) && id !in subscribedVehicles ==>
          id in vehicleCaches && vehicleCaches[id] == old(vehicleCaches)[id]
        decreases |todo|
      {
        var id :| id in todo;
        vehicleCaches := vehicleCaches[id := results(id)];
        todo := todo - {id};
      }
    }
  }
}
