/** `reconcile` of `src/raw_net/mod.rs`: the DNS answer and the listeners agree. */
module Reconcile {
  import opened Ordering
  import opened State
  import opened RawNet
  import opened RawNetTheorems
  import opened Forward

  /** What DNS answers: the assigned address, or the hash for an unknown name. */
  function Resolve(table: map<string, Ip>, hash: string -> nat, name: string): Ip
  {
    if name in table then table[name] else VirtualIpFor(hash, name)
  }

  function EndpointRoutes(ip: Ip, ports: seq<(string, nat)>): seq<Route>
  {
    if ports == [] then [] else PortRoute(ip, ports[0]) + EndpointRoutes(ip, ports[1..])
  }

  /** A key that is no port number gets no route. */
  function PortRoute(ip: Ip, port: (string, nat)): seq<Route>
  {
    match ParsePort(port.0)
    case None => []
    case Some(p) => [Route(ip, p, port.1)]
  }

  function RoutesOf(endpoints: seq<Endpoint>, table: map<string, Ip>, hash: string -> nat): seq<Route>
  {
    if endpoints == [] then [] else
      EndpointRoutes(Resolve(table, hash, endpoints[0].rawDomain), endpoints[0].ports)
      + RoutesOf(endpoints[1..], table, hash)
  }

  lemma RoutesStep(endpoints: seq<Endpoint>, table: map<string, Ip>, hash: string -> nat, i: nat)
    requires i < |endpoints|
    ensures RoutesOf(endpoints[i..], table, hash)
      == EndpointRoutes(Resolve(table, hash, endpoints[i].rawDomain), endpoints[i].ports) + RoutesOf(endpoints[i + 1..], table, hash)
  {
    assert endpoints[i..][0] == endpoints[i] && endpoints[i..][1..] == endpoints[i + 1..];
  }

  method RoutesFor(endpoints: seq<Endpoint>, table: map<string, Ip>, hash: string -> nat) returns (routes: seq<Route>)
    ensures routes == RoutesOf(endpoints, table, hash)
  {
    routes := [];
    for i := 0 to |endpoints|
      invariant RoutesOf(endpoints, table, hash) == routes + RoutesOf(endpoints[i..], table, hash)
    {
      var e := endpoints[i];
      var more := PortRoutes(Resolve(table, hash, e.rawDomain), e.ports);
      RoutesStep(endpoints, table, hash, i);
      Regroup(routes, more, RoutesOf(endpoints[i + 1..], table, hash));
      routes := routes + more;
    }
    assert endpoints[|endpoints|..] == [];
  }

  lemma PortRoutesStep(ip: Ip, ports: seq<(string, nat)>, j: nat)
    requires j < |ports|
    ensures EndpointRoutes(ip, ports[j..]) == PortRoute(ip, ports[j]) + EndpointRoutes(ip, ports[j + 1..])
  {
    assert ports[j..][0] == ports[j] && ports[j..][1..] == ports[j + 1..];
  }

  method PortRoutes(ip: Ip, ports: seq<(string, nat)>) returns (routes: seq<Route>)
    ensures routes == EndpointRoutes(ip, ports)
  {
    routes := [];
    for j := 0 to |ports|
      invariant EndpointRoutes(ip, ports) == routes + EndpointRoutes(ip, ports[j..])
    {
      PortRoutesStep(ip, ports, j);
      Regroup(routes, PortRoute(ip, ports[j]), EndpointRoutes(ip, ports[j + 1..]));
      routes := routes + PortRoute(ip, ports[j]);
    }
    assert ports[|ports|..] == [];
  }

  // ----- which routes there are -----

  /** `r` forwards one declared port of `e`. */
  ghost predicate Forwards(r: Route, e: Endpoint, i: nat, table: map<string, Ip>, hash: string -> nat)
  {
    && i < |e.ports| && ParsePort(e.ports[i].0) == Some(r.containerPort) && r.hostPort == e.ports[i].1
    && r.virtualIp == Resolve(table, hash, e.rawDomain)
  }

  lemma {:induction false} EndpointRoutesExactly(ip: Ip, ports: seq<(string, nat)>, r: Route)
    ensures r in EndpointRoutes(ip, ports) <==>
      r.virtualIp == ip
      && exists i :: 0 <= i < |ports| && ParsePort(ports[i].0) == Some(r.containerPort) && r.hostPort == ports[i].1
  {
    if ports != [] {
      EndpointRoutesExactly(ip, ports[1..], r);
      if i :| 0 <= i < |ports| && ParsePort(ports[i].0) == Some(r.containerPort) && r.hostPort == ports[i].1 {
        assert i > 0 ==> ports[1..][i - 1] == ports[i];
      }
    }
  }

  lemma {:induction false} RoutesOfExactly(endpoints: seq<Endpoint>, table: map<string, Ip>, hash: string -> nat, r: Route)
    ensures r in RoutesOf(endpoints, table, hash) <==> exists e, i :: e in endpoints && Forwards(r, e, i, table, hash)
  {
    if endpoints != [] {
      var e0 := endpoints[0];
      EndpointRoutesExactly(Resolve(table, hash, e0.rawDomain), e0.ports, r);
      RoutesOfExactly(endpoints[1..], table, hash, r);
      assert endpoints == [e0] + endpoints[1..];
      if i :| 0 <= i < |e0.ports| && ParsePort(e0.ports[i].0) == Some(r.containerPort) && r.hostPort == e0.ports[i].1 {
        if r.virtualIp == Resolve(table, hash, e0.rawDomain) {
          assert Forwards(r, e0, i, table, hash);
        }
      }
    }
  }

  lemma {:induction false} PortsOfExactly(ports: seq<(string, nat)>, p: nat)
    ensures p in PortsOf(ports) <==> exists i :: 0 <= i < |ports| && ParsePort(ports[i].0) == Some(p)
  {
    if ports != [] {
      PortsOfExactly(ports[1..], p);
      if i :| 0 <= i < |ports| && ParsePort(ports[i].0) == Some(p) {
        assert i > 0 ==> ports[1..][i - 1] == ports[i];
      }
    }
  }

  lemma {:induction false} DesiredExactly(routes: seq<Route>, a: Addr)
    ensures a in Desired(routes) <==> exists r :: r in routes && r.Key() == a
    ensures a in Desired(routes) ==> exists r :: r in routes && r.Key() == a && r.hostPort == Desired(routes)[a]
  {
    if routes != [] {
      var n := |routes| - 1;
      DesiredExactly(routes[..n], a);
      assert routes == routes[..n] + [routes[n]];
    }
  }

  /** Each desired address belongs to some active name and one of its ports. */
  lemma DesiredAddresses(endpoints: seq<Endpoint>, table: map<string, Ip>, hash: string -> nat, a: Addr)
    ensures a in Desired(RoutesOf(endpoints, table, hash)) <==>
      exists e :: e in endpoints && a.0 == Resolve(table, hash, e.rawDomain) && a.1 in PortsOf(e.ports)
  {
    var routes := RoutesOf(endpoints, table, hash);
    DesiredExactly(routes, a);
    if a in Desired(routes) {
      var r :| r in routes && r.Key() == a;
      RoutesOfExactly(endpoints, table, hash, r);
      var e, i :| e in endpoints && Forwards(r, e, i, table, hash);
      PortsOfExactly(e.ports, a.1);
      assert e in endpoints && a.0 == Resolve(table, hash, e.rawDomain) && a.1 in PortsOf(e.ports);
    }
    if e :| e in endpoints && a.0 == Resolve(table, hash, e.rawDomain) && a.1 in PortsOf(e.ports) {
      PortsOfExactly(e.ports, a.1);
      var i :| 0 <= i < |e.ports| && ParsePort(e.ports[i].0) == Some(a.1);
      var r := Route(a.0, a.1, e.ports[i].1);
      assert Forwards(r, e, i, table, hash);
      RoutesOfExactly(endpoints, table, hash, r);
    }
  }

  lemma DesiredAvoidsTaken(endpoints: seq<Endpoint>, table: map<string, Ip>, taken: set<Addr>, hash: string -> nat)
    requires ConflictFree(endpoints, table, taken)
    ensures Desired(RoutesOf(endpoints, table, hash)).Keys !! taken
  {
    forall a | a in Desired(RoutesOf(endpoints, table, hash)) ensures a !in taken {
      DesiredAddresses(endpoints, table, hash, a);
      var e :| e in endpoints && a.0 == Resolve(table, hash, e.rawDomain) && a.1 in PortsOf(e.ports);
      assert FreeAt(table[e.rawDomain], PortsOf(e.ports), taken);
      assert a == (a.0, a.1);
    }
  }

  lemma OneEndpoint(endpoints: seq<Endpoint>, e: Endpoint, f: Endpoint)
    requires DistinctDomains(endpoints) && e in endpoints && f in endpoints && e.rawDomain == f.rawDomain
    ensures e == f
  {
    DistinctIsKeyed(endpoints);
    var k :| 0 <= k < |endpoints| && endpoints[k] == e;
    var l :| 0 <= l < |endpoints| && endpoints[l] == f;
    assert Domain(endpoints[k]) == Domain(endpoints[l]);
  }

  /** No two port keys of one endpoint mean the same port. */
  ghost predicate DistinctPorts(e: Endpoint)
  {
    forall i, j | 0 <= i < |e.ports| && 0 <= j < |e.ports| && ParsePort(e.ports[i].0).Some? ::
      ParsePort(e.ports[i].0) == ParsePort(e.ports[j].0) ==> i == j
  }

  /** Without conflicts every declared port leads to its own host port. */
  lemma DesiredLeadsHome(endpoints: seq<Endpoint>, table: map<string, Ip>, taken: set<Addr>, hash: string -> nat, e: Endpoint, i: nat, p: nat)
    requires DistinctDomains(endpoints) && ConflictFree(endpoints, table, taken)
    requires e in endpoints && DistinctPorts(e) && i < |e.ports| && ParsePort(e.ports[i].0) == Some(p)
    ensures var desired := Desired(RoutesOf(endpoints, table, hash)); var a := (Resolve(table, hash, e.rawDomain), p);
      a in desired && desired[a] == e.ports[i].1
  {
    var routes, a := RoutesOf(endpoints, table, hash), (Resolve(table, hash, e.rawDomain), p);
    PortsOfExactly(e.ports, p);
    DesiredAddresses(endpoints, table, hash, a);
    DesiredExactly(routes, a);
    assert a in Claims(table[e.rawDomain], PortsOf(e.ports));
    var r :| r in routes && r.Key() == a && r.hostPort == Desired(routes)[a];
    RoutesOfExactly(endpoints, table, hash, r);
    var f, j :| f in endpoints && Forwards(r, f, j, table, hash);
    PortsOfExactly(f.ports, p);
    assert a in Claims(table[f.rawDomain], PortsOf(f.ports));
    assert f.rawDomain == e.rawDomain;
    OneEndpoint(endpoints, e, f);
  }

  // ----- the rounds -----

  const MAX_ROUNDS: nat := 8

  datatype Outcome = Settled | OutOfRounds | ListenFailed

  /** Every active name's ports are listened on where DNS sends its clients,
      and lead to the host port behind them. */
  ghost predicate Serves(endpoints: seq<Endpoint>, table: map<string, Ip>, hash: string -> nat, listeners: map<Addr, nat>)
  {
    forall e, i | e in endpoints && DistinctPorts(e) && 0 <= i < |e.ports| && ParsePort(e.ports[i].0).Some? ::
      var a := (Resolve(table, hash, e.rawDomain), ParsePort(e.ports[i].0).value);
      a in listeners && listeners[a] == e.ports[i].1
  }

  class RawZone {
    const forwarder: Forwarder
    var table: map<string, Ip>
    var taken: set<Addr>
    var desired: seq<Route>

    ghost predicate Valid()
      reads this, forwarder
    {
      forwarder.Valid()
    }

    constructor ()
      ensures Valid() && fresh(forwarder)
      ensures table == map[] && taken == {} && desired == []
    {
      forwarder := new Forwarder();
      table, taken, desired := map[], {}, [];
    }

    /** One round: assign, then listen. `taken` learns what was busy. */
    method Round(endpoints: seq<Endpoint>, hash: string -> nat, attempts: Addr -> Attempt)
      returns (busy: set<Addr>, errors: set<Addr>)
      requires Valid() && DistinctDomains(endpoints)
      modifies this, forwarder
      ensures Valid()
      ensures table == Assigned(endpoints, old(table), old(taken), hash)
      ensures desired == RoutesOf(endpoints, table, hash)
      ensures taken == if errors == {} then old(taken) + busy else old(taken)
      ensures forwarder.listeners.Keys == Desired(desired).Keys - busy - errors
      ensures forall a | a in forwarder.listeners :: forwarder.listeners[a] == Desired(desired)[a]
      ensures |old(taken)| + TotalPorts(endpoints) <= SPAN ==>
        busy !! old(taken) && ConflictFree(endpoints, table, old(taken))
    {
      ghost var before := table;
      table := Assign(endpoints, table, taken, hash);
      var routes := RoutesFor(endpoints, table, hash);
      desired := routes;
      if |taken| + TotalPorts(endpoints) <= SPAN {
        AssignIsConflictFree(endpoints, before, taken, hash);
        DesiredAvoidsTaken(endpoints, table, taken, hash);
      }
      busy, errors := forwarder.Apply(routes, attempts);
      if errors == {} {
        taken := taken + busy;
      }
    }

    /** Rounds until nothing was busy, at most `MAX_ROUNDS`. With room in the
        pool, settling means every name is served where DNS sends its clients,
        and each round that does not settle learns a new taken address. */
    method Reconcile(endpoints: seq<Endpoint>, hash: string -> nat, attempts: seq<Addr -> Attempt>) returns (outcome: Outcome)
      requires Valid() && DistinctDomains(endpoints) && |attempts| == MAX_ROUNDS
      modifies this, forwarder
      ensures Valid()
      ensures old(taken) <= taken
      ensures outcome.Settled? ==> desired == RoutesOf(endpoints, table, hash) && forwarder.listeners == Desired(desired)
      ensures outcome.Settled? && |taken| + TotalPorts(endpoints) <= SPAN ==>
        ConflictFree(endpoints, table, taken) && Serves(endpoints, table, hash, forwarder.listeners)
      ensures outcome.OutOfRounds? && |taken| + TotalPorts(endpoints) <= SPAN ==> |taken| >= |old(taken)| + MAX_ROUNDS
    {
      for round := 0 to MAX_ROUNDS
        invariant Valid() && old(taken) <= taken
        invariant |taken| + TotalPorts(endpoints) <= SPAN ==> |taken| >= |old(taken)| + round
      {
        ghost var before := taken;
        var busy, errors := Round(endpoints, hash, attempts[round]);
        if errors != {} {
          return ListenFailed;
        }
        SubsetSize(before, taken);
        if busy == {} {
          assert forwarder.listeners == Desired(desired);
          if |taken| + TotalPorts(endpoints) <= SPAN {
            ServedWhenSettled(endpoints, table, taken, hash);
          }
          return Settled;
        }
        assert before !! busy ==> before < taken;
      }
      outcome := OutOfRounds;
    }
  }

  lemma ServedWhenSettled(endpoints: seq<Endpoint>, table: map<string, Ip>, taken: set<Addr>, hash: string -> nat)
    requires DistinctDomains(endpoints) && ConflictFree(endpoints, table, taken)
    ensures Serves(endpoints, table, hash, Desired(RoutesOf(endpoints, table, hash)))
  {
    forall e, i | e in endpoints && DistinctPorts(e) && 0 <= i < |e.ports| && ParsePort(e.ports[i].0).Some?
      ensures var a := (Resolve(table, hash, e.rawDomain), ParsePort(e.ports[i].0).value);
        var desired := Desired(RoutesOf(endpoints, table, hash));
        a in desired && desired[a] == e.ports[i].1
    {
      DesiredLeadsHome(endpoints, table, taken, hash, e, i, ParsePort(e.ports[i].0).value);
    }
  }
}
