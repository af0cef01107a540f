/** No two names share an address and port, and names stay where they are. */
module RawNetTheorems {
  import opened Ordering
  import opened State
  import opened RawNet

  // ----- a probe finds a free slot while there is one -----

  function Range(lo: nat, n: nat): (s: set<nat>)
    ensures forall x :: x in s <==> lo <= x < lo + n
    ensures |s| == n
  {
    if n == 0 then {} else Range(lo, n - 1) + {lo + n - 1}
  }

  function Hosts(addrs: set<Addr>): set<Ip>
  {
    set a | a in addrs :: a.0
  }

  lemma {:induction false} HostsCount(addrs: set<Addr>)
    ensures |Hosts(addrs)| <= |addrs|
  {
    if addrs != {} {
      var a :| a in addrs;
      HostsCount(addrs - {a});
      assert Hosts(addrs) == Hosts(addrs - {a}) + {a.0};
    }
  }

  /** Fewer claims than slots leave a slot with no claim on it at all. */
  lemma UnclaimedSlot(claimed: set<Addr>) returns (ip: Ip)
    requires |claimed| < SPAN
    ensures InPool(ip) && ip !in Hosts(claimed)
  {
    var pool := Range(POOL_BASE + 1, SPAN);
    HostsCount(claimed);
    if pool <= Hosts(claimed) {
      SubsetSize(pool, Hosts(claimed));
    }
    ip :| ip in pool && ip !in Hosts(claimed);
  }

  /** Going round from any slot, the probe comes to every slot. */
  lemma EverySlotIsProbed(start: nat, ip: Ip) returns (step: nat)
    requires start < SPAN && InPool(ip)
    ensures step < SPAN && SlotIp(start, step) == ip
  {
    var slot := SlotOf(ip);
    step := if slot >= start then slot - start else slot + SPAN - start;
  }

  /** While claims number fewer than slots, the chosen address is free. */
  lemma PickIsFree(preferred: Option<Ip>, naive: Ip, ports: seq<nat>, claimed: set<Addr>)
    requires InPool(naive) && (ports == [] || |claimed| < SPAN)
    ensures FreeAt(PickIp(preferred, naive, ports, claimed), ports, claimed)
  {
    if ports != [] && Probe(SlotOf(naive), 0, ports, claimed).None? {
      var ip := UnclaimedSlot(claimed);
      var step := EverySlotIsProbed(SlotOf(naive), ip);
      forall p | p in ports ensures (ip, p) !in claimed {
        assert (ip, p) in claimed ==> (ip, p).0 in Hosts(claimed);
      }
      assert FreeAt(SlotIp(SlotOf(naive), step), ports, claimed);
    }
  }

  /** Exactly when the chosen address is free: the preferred one is, or some
      slot of the pool is. Otherwise the name lands on a conflict. */
  lemma PickIsFreeExactly(preferred: Option<Ip>, naive: Ip, ports: seq<nat>, claimed: set<Addr>)
    requires InPool(naive)
    ensures FreeAt(PickIp(preferred, naive, ports, claimed), ports, claimed) <==>
      (preferred.Some? && FreeAt(preferred.value, ports, claimed)) || exists ip :: InPool(ip) && FreeAt(ip, ports, claimed)
  {
    if Probe(SlotOf(naive), 0, ports, claimed).None? {
      forall ip | InPool(ip) ensures !FreeAt(ip, ports, claimed) {
        var step := EverySlotIsProbed(SlotOf(naive), ip);
      }
    }
  }

  // ----- one pass of the allocator -----

  function TotalPorts(endpoints: seq<Endpoint>): nat
  {
    if endpoints == [] then 0 else |endpoints[0].ports| + TotalPorts(endpoints[1..])
  }

  lemma {:induction false} ClaimsCount(ip: Ip, ports: seq<nat>)
    ensures |Claims(ip, ports)| <= |ports|
  {
    if ports != [] {
      ClaimsCount(ip, ports[1..]);
      assert Claims(ip, ports) == Claims(ip, ports[1..]) + {(ip, ports[0])};
    }
  }

  /** The addresses avoid `claimed` and each other. */
  ghost predicate Separate(order: seq<Endpoint>, ips: seq<Ip>, claimed: set<Addr>)
    requires |ips| == |order|
  {
    && (forall i :: 0 <= i < |order| ==> FreeAt(ips[i], PortsOf(order[i].ports), claimed))
    && (forall i, j :: 0 <= i < j < |order| ==>
      Claims(ips[i], PortsOf(order[i].ports)) !! Claims(ips[j], PortsOf(order[j].ports)))
  }

  lemma SeparateCons(e: Endpoint, ip: Ip, order: seq<Endpoint>, ips: seq<Ip>, claimed: set<Addr>)
    requires |ips| == |order|
    requires FreeAt(ip, PortsOf(e.ports), claimed)
    requires Separate(order, ips, claimed + Claims(ip, PortsOf(e.ports)))
    ensures Separate([e] + order, [ip] + ips, claimed)
  {
    var all, allIps, mine := [e] + order, [ip] + ips, Claims(ip, PortsOf(e.ports));
    forall i | 0 <= i < |all| ensures FreeAt(allIps[i], PortsOf(all[i].ports), claimed) {
      if i > 0 {
        assert FreeAt(ips[i - 1], PortsOf(order[i - 1].ports), claimed + mine);
      }
    }
    forall i, j | 0 <= i < j < |all|
      ensures Claims(allIps[i], PortsOf(all[i].ports)) !! Claims(allIps[j], PortsOf(all[j].ports))
    {
      assert FreeAt(ips[j - 1], PortsOf(order[j - 1].ports), claimed + mine);
      if i > 0 {
        assert Claims(ips[i - 1], PortsOf(order[i - 1].ports)) !! Claims(ips[j - 1], PortsOf(order[j - 1].ports));
      }
    }
  }

  lemma {:induction false} IpsAreSeparate(order: seq<Endpoint>, previous: map<string, Ip>, claimed: set<Addr>, hash: string -> nat)
    requires |claimed| + TotalPorts(order) <= SPAN
    ensures Separate(order, Ips(order, previous, claimed, hash), claimed)
  {
    if order != [] {
      var e := order[0];
      var ports, naive := PortsOf(e.ports), VirtualIpFor(hash, e.rawDomain);
      var ip := PickIp(Lookup(previous, e.rawDomain), naive, ports, claimed);
      PickIsFree(Lookup(previous, e.rawDomain), naive, ports, claimed);
      ClaimsCount(ip, ports);
      assert |claimed + Claims(ip, ports)| <= |claimed| + |Claims(ip, ports)|;
      IpsAreSeparate(order[1..], previous, claimed + Claims(ip, ports), hash);
      SeparateCons(e, ip, order[1..], Ips(order[1..], previous, claimed + Claims(ip, ports), hash), claimed);
      assert order == [e] + order[1..];
    }
  }

  lemma {:induction false} IpsInPool(order: seq<Endpoint>, previous: map<string, Ip>, claimed: set<Addr>, hash: string -> nat, i: nat)
    requires i < |order|
    requires order[i].rawDomain in previous ==> InPool(previous[order[i].rawDomain])
    ensures InPool(Ips(order, previous, claimed, hash)[i])
  {
    var e := order[0];
    var ports := PortsOf(e.ports);
    var ip := PickIp(Lookup(previous, e.rawDomain), VirtualIpFor(hash, e.rawDomain), ports, claimed);
    if i > 0 {
      IpsInPool(order[1..], previous, claimed + Claims(ip, ports), hash, i - 1);
    }
  }

  /** Addresses already separate are all kept. */
  lemma {:induction false} SeparateIsKept(order: seq<Endpoint>, ips: seq<Ip>, previous: map<string, Ip>, claimed: set<Addr>, hash: string -> nat)
    requires |ips| == |order| && Separate(order, ips, claimed)
    requires forall i :: 0 <= i < |order| ==> Lookup(previous, order[i].rawDomain) == Some(ips[i])
    ensures Ips(order, previous, claimed, hash) == ips
  {
    if order != [] {
      var mine := Claims(ips[0], PortsOf(order[0].ports));
      var rest, restIps := order[1..], ips[1..];
      assert FreeAt(ips[0], PortsOf(order[0].ports), claimed);
      forall i | 0 <= i < |rest| ensures FreeAt(restIps[i], PortsOf(rest[i].ports), claimed + mine) {
        assert FreeAt(ips[i + 1], PortsOf(order[i + 1].ports), claimed);
        assert mine !! Claims(ips[i + 1], PortsOf(order[i + 1].ports));
        forall p | p in PortsOf(rest[i].ports) ensures (restIps[i], p) !in claimed + mine {
          assert (restIps[i], p) in Claims(restIps[i], PortsOf(rest[i].ports));
        }
      }
      SeparateIsKept(rest, restIps, previous, claimed + mine, hash);
      assert ips == [ips[0]] + restIps;
    }
  }

  /** What comes later in the order moves nothing that comes earlier. */
  lemma {:induction false} IpsPrefix(a: seq<Endpoint>, b: seq<Endpoint>, previous: map<string, Ip>, claimed: set<Addr>, hash: string -> nat)
    ensures Ips(a, previous, claimed, hash) <= Ips(a + b, previous, claimed, hash)
  {
    if a == [] {
      assert a + b == b;
    } else {
      var ports := PortsOf(a[0].ports);
      var ip := PickIp(Lookup(previous, a[0].rawDomain), VirtualIpFor(hash, a[0].rawDomain), ports, claimed);
      assert (a + b)[1..] == a[1..] + b;
      IpsPrefix(a[1..], b, previous, claimed + Claims(ip, ports), hash);
    }
  }

  // ----- the table -----

  lemma {:induction false} TableKeys(order: seq<Endpoint>, ips: seq<Ip>)
    requires |ips| == |order|
    ensures forall name :: name in TableOf(order, ips) <==> exists i :: 0 <= i < |order| && order[i].rawDomain == name
  {
    if order != [] {
      var n := |order| - 1;
      TableKeys(order[..n], ips[..n]);
      forall name ensures name in TableOf(order, ips) <==> exists i :: 0 <= i < |order| && order[i].rawDomain == name {
        if name in TableOf(order[..n], ips[..n]) {
          var i :| 0 <= i < n && order[..n][i].rawDomain == name;
          assert order[i].rawDomain == name;
        }
        if i :| 0 <= i < |order| && order[i].rawDomain == name && i < n {
          assert order[..n][i].rawDomain == name;
        }
      }
    }
  }

  lemma {:induction false} TableAt(order: seq<Endpoint>, ips: seq<Ip>, i: nat)
    requires |ips| == |order| && DistinctDomains(order) && i < |order|
    ensures Lookup(TableOf(order, ips), order[i].rawDomain) == Some(ips[i])
  {
    var n := |order| - 1;
    if i < n {
      TableAt(order[..n], ips[..n], i);
      assert order[i].rawDomain != order[n].rawDomain;
    }
  }

  lemma DistinctIsKeyed(endpoints: seq<Endpoint>)
    ensures DistinctDomains(endpoints) <==> KeyedBy(endpoints, Domain) && NoDup(endpoints)
  {
    if KeyedBy(endpoints, Domain) && NoDup(endpoints) {
      forall i, j | 0 <= i < j < |endpoints|
        ensures endpoints[i].rawDomain == Domain(endpoints[i]) != Domain(endpoints[j])
      {
      }
    }
  }

  lemma KeyedPermutes(a: seq<Endpoint>, b: seq<Endpoint>)
    requires multiset(a) == multiset(b) && KeyedBy(a, Domain)
    ensures KeyedBy(b, Domain)
  {
    forall i, j | 0 <= i < |b| && 0 <= j < |b| && Domain(b[i]) == Domain(b[j]) ensures b[i] == b[j] {
      assert b[i] in multiset(a) && b[j] in multiset(a);
      var k :| 0 <= k < |a| && a[k] == b[i];
      var l :| 0 <= l < |a| && a[l] == b[j];
      assert Domain(a[k]) == Domain(a[l]);
    }
  }

  lemma DistinctPermutes(a: seq<Endpoint>, b: seq<Endpoint>)
    requires multiset(a) == multiset(b) && DistinctDomains(a)
    ensures DistinctDomains(b)
  {
    DistinctIsKeyed(a);
    DistinctIsKeyed(b);
    KeyedPermutes(a, b);
    SameElems(a, b);
  }

  lemma {:induction false} TotalPortsConcat(a: seq<Endpoint>, b: seq<Endpoint>)
    ensures TotalPorts(a + b) == TotalPorts(a) + TotalPorts(b)
  {
    if a == [] {
      assert a + b == b;
    } else {
      assert (a + b)[1..] == a[1..] + b;
      TotalPortsConcat(a[1..], b);
    }
  }

  lemma WithoutOne(b: seq<Endpoint>, j: nat) returns (rest: seq<Endpoint>)
    requires j < |b|
    ensures multiset(rest) == multiset(b) - multiset{b[j]} && |rest| < |b|
    ensures TotalPorts(b) == |b[j].ports| + TotalPorts(rest)
  {
    rest := b[..j] + b[j + 1..];
    assert b == b[..j] + ([b[j]] + b[j + 1..]);
    TotalPortsConcat(b[..j], [b[j]] + b[j + 1..]);
    TotalPortsConcat(b[..j], b[j + 1..]);
  }

  lemma {:induction false} TotalPortsPermutes(a: seq<Endpoint>, b: seq<Endpoint>)
    requires multiset(a) == multiset(b)
    ensures TotalPorts(a) == TotalPorts(b)
  {
    if a == [] {
      assert |multiset(b)| == 0;
    } else {
      assert a[0] in multiset(b);
      var j :| 0 <= j < |b| && b[j] == a[0];
      var rest := WithoutOne(b, j);
      TailOf(a, Domain);
      TotalPortsPermutes(a[1..], rest);
    }
  }

  lemma {:induction false} PartitionPermutes(endpoints: seq<Endpoint>, previous: map<string, Ip>)
    ensures multiset(Incumbents(endpoints, previous)) + multiset(Newcomers(endpoints, previous)) == multiset(endpoints)
    ensures forall e | e in Incumbents(endpoints, previous) :: e.rawDomain in previous
    ensures forall e | e in Newcomers(endpoints, previous) :: e.rawDomain !in previous
  {
    if endpoints != [] {
      PartitionPermutes(endpoints[1..], previous);
      assert endpoints == [endpoints[0]] + endpoints[1..];
    }
  }

  lemma OrderPermutes(endpoints: seq<Endpoint>, previous: map<string, Ip>)
    ensures multiset(AssignOrder(endpoints, previous)) == multiset(endpoints)
    ensures TotalPorts(AssignOrder(endpoints, previous)) == TotalPorts(endpoints)
    ensures DistinctDomains(endpoints) ==> DistinctDomains(AssignOrder(endpoints, previous))
    ensures Elems(AssignOrder(endpoints, previous)) == Elems(endpoints)
  {
    PartitionPermutes(endpoints, previous);
    var order := AssignOrder(endpoints, previous);
    assert multiset(order) == multiset(SortOn(Incumbents(endpoints, previous), Domain))
      + multiset(SortOn(Newcomers(endpoints, previous), Domain));
    TotalPortsPermutes(order, endpoints);
    SameElems(order, endpoints);
    if DistinctDomains(endpoints) {
      DistinctPermutes(endpoints, order);
    }
  }

  // ----- what `assign` promises -----

  /** Every name has an address whose ports nobody outside holds and no other
      name shares. */
  ghost predicate ConflictFree(endpoints: seq<Endpoint>, table: map<string, Ip>, taken: set<Addr>)
  {
    && (forall e | e in endpoints :: e.rawDomain in table && FreeAt(table[e.rawDomain], PortsOf(e.ports), taken))
    && (forall e, f | e in endpoints && f in endpoints && e.rawDomain != f.rawDomain ::
      Claims(table[e.rawDomain], PortsOf(e.ports)) !! Claims(table[f.rawDomain], PortsOf(f.ports)))
  }

  /** Where `e` stands in the order, and what it got. */
  lemma PlaceOf(endpoints: seq<Endpoint>, previous: map<string, Ip>, taken: set<Addr>, hash: string -> nat, e: Endpoint)
    returns (i: nat)
    requires DistinctDomains(endpoints) && e in endpoints
    ensures i < |AssignOrder(endpoints, previous)| && AssignOrder(endpoints, previous)[i] == e
    ensures Lookup(Assigned(endpoints, previous, taken, hash), e.rawDomain)
      == Some(Ips(AssignOrder(endpoints, previous), previous, taken, hash)[i])
  {
    OrderPermutes(endpoints, previous);
    var order := AssignOrder(endpoints, previous);
    assert e in Elems(order);
    i :| 0 <= i < |order| && order[i] == e;
    TableAt(order, Ips(order, previous, taken, hash), i);
  }

  /** While outside claims and declared ports fit the pool, `assign` separates
      every name from every other and from what is taken. */
  lemma AssignIsConflictFree(endpoints: seq<Endpoint>, previous: map<string, Ip>, taken: set<Addr>, hash: string -> nat)
    requires DistinctDomains(endpoints) && |taken| + TotalPorts(endpoints) <= SPAN
    ensures ConflictFree(endpoints, Assigned(endpoints, previous, taken, hash), taken)
  {
    OrderPermutes(endpoints, previous);
    var order := AssignOrder(endpoints, previous);
    var ips, table := Ips(order, previous, taken, hash), Assigned(endpoints, previous, taken, hash);
    IpsAreSeparate(order, previous, taken, hash);
    forall e | e in endpoints ensures e.rawDomain in table && FreeAt(table[e.rawDomain], PortsOf(e.ports), taken) {
      var i := PlaceOf(endpoints, previous, taken, hash, e);
    }
    forall e, f | e in endpoints && f in endpoints && e.rawDomain != f.rawDomain
      ensures Claims(table[e.rawDomain], PortsOf(e.ports)) !! Claims(table[f.rawDomain], PortsOf(f.ports))
    {
      var i := PlaceOf(endpoints, previous, taken, hash, e);
      var j := PlaceOf(endpoints, previous, taken, hash, f);
      if i < j {
        assert Claims(ips[i], PortsOf(order[i].ports)) !! Claims(ips[j], PortsOf(order[j].ports));
      } else {
        assert Claims(ips[j], PortsOf(order[j].ports)) !! Claims(ips[i], PortsOf(order[i].ports));
      }
    }
  }

  /** Every name given an address is active, every active name has one, and
      none leaves the pool it was in. */
  lemma AssignCoversAndStaysInPool(endpoints: seq<Endpoint>, previous: map<string, Ip>, taken: set<Addr>, hash: string -> nat)
    requires DistinctDomains(endpoints)
    ensures forall name :: name in Assigned(endpoints, previous, taken, hash) <==> exists e :: e in endpoints && e.rawDomain == name
    ensures forall name | name in Assigned(endpoints, previous, taken, hash) ::
      (name in previous ==> InPool(previous[name])) ==> InPool(Assigned(endpoints, previous, taken, hash)[name])
  {
    OrderPermutes(endpoints, previous);
    var order := AssignOrder(endpoints, previous);
    var table := Assigned(endpoints, previous, taken, hash);
    TableKeys(order, Ips(order, previous, taken, hash));
    forall name | name in table ensures exists e :: e in endpoints && e.rawDomain == name {
      var i :| 0 <= i < |order| && order[i].rawDomain == name;
      assert order[i] in Elems(order);
      assert order[i] in endpoints;
    }
    forall e | e in endpoints ensures e.rawDomain in table {
      var i := PlaceOf(endpoints, previous, taken, hash, e);
    }
    forall name | name in table && (name in previous ==> InPool(previous[name])) ensures InPool(table[name]) {
      var e :| e in endpoints && e.rawDomain == name;
      var i := PlaceOf(endpoints, previous, taken, hash, e);
      IpsInPool(order, previous, taken, hash, i);
    }
  }

  // ----- stability -----

  /** A conflict-free table is kept as it is, for whatever names are still active. */
  lemma ConflictFreeIsKept(endpoints: seq<Endpoint>, table: map<string, Ip>, taken: set<Addr>, hash: string -> nat)
    requires DistinctDomains(endpoints) && ConflictFree(endpoints, table, taken)
    ensures forall e | e in endpoints ::
      Lookup(Assigned(endpoints, table, taken, hash), e.rawDomain) == Some(table[e.rawDomain])
  {
    OrderPermutes(endpoints, table);
    var order := AssignOrder(endpoints, table);
    forall e | e in order ensures e in endpoints {
      assert e in Elems(order);
    }
    var ips := TableIps(order, table, taken);
    SeparateIsKept(order, ips, table, taken, hash);
    forall e | e in endpoints
      ensures Lookup(Assigned(endpoints, table, taken, hash), e.rawDomain) == Some(table[e.rawDomain])
    {
      var i := PlaceOf(endpoints, table, taken, hash, e);
      assert Lookup(table, order[i].rawDomain) == Some(ips[i]);
    }
  }

  /** The addresses a conflict-free table gives, in order. */
  lemma TableIps(order: seq<Endpoint>, table: map<string, Ip>, taken: set<Addr>) returns (ips: seq<Ip>)
    requires DistinctDomains(order) && ConflictFree(order, table, taken)
    ensures |ips| == |order| && Separate(order, ips, taken)
    ensures forall i :: 0 <= i < |order| ==> Lookup(table, order[i].rawDomain) == Some(ips[i])
  {
    assert forall i | 0 <= i < |order| :: order[i] in order && order[i].rawDomain in table;
    ips := seq(|order|, i requires 0 <= i < |order| && order[i].rawDomain in table => table[order[i].rawDomain]);
    forall i, j | 0 <= i < j < |order|
      ensures Claims(ips[i], PortsOf(order[i].ports)) !! Claims(ips[j], PortsOf(order[j].ports))
    {
      assert order[i] in order && order[j] in order;
      assert order[i].rawDomain != order[j].rawDomain;
    }
  }

  /** Running `assign` again on its own result changes nothing. */
  lemma AssignIsStable(endpoints: seq<Endpoint>, previous: map<string, Ip>, taken: set<Addr>, hash: string -> nat)
    requires DistinctDomains(endpoints) && |taken| + TotalPorts(endpoints) <= SPAN
    ensures var table := Assigned(endpoints, previous, taken, hash);
      Assigned(endpoints, table, taken, hash) == table
  {
    var table := Assigned(endpoints, previous, taken, hash);
    AssignIsConflictFree(endpoints, previous, taken, hash);
    ConflictFreeIsKept(endpoints, table, taken, hash);
    AssignCoversAndStaysInPool(endpoints, previous, taken, hash);
    AssignCoversAndStaysInPool(endpoints, table, taken, hash);
    SameTable(endpoints, table, Assigned(endpoints, table, taken, hash));
  }

  lemma SameTable(endpoints: seq<Endpoint>, table: map<string, Ip>, again: map<string, Ip>)
    requires forall name :: name in table <==> exists e :: e in endpoints && e.rawDomain == name
    requires forall name :: name in again <==> exists e :: e in endpoints && e.rawDomain == name
    requires forall e | e in endpoints :: Lookup(again, e.rawDomain) == Lookup(table, e.rawDomain)
    ensures table == again
  {
    forall name | name in table ensures name in again && again[name] == table[name] {
      var e :| e in endpoints && e.rawDomain == name;
      assert Lookup(again, e.rawDomain) == Lookup(table, e.rawDomain);
    }
    assert again.Keys == table.Keys;
  }

  /** Names going away move none of those that stay. */
  lemma SurvivorsStay(endpoints: seq<Endpoint>, left: seq<Endpoint>, previous: map<string, Ip>, taken: set<Addr>, hash: string -> nat)
    requires DistinctDomains(endpoints) && |taken| + TotalPorts(endpoints) <= SPAN
    requires DistinctDomains(left) && forall e | e in left :: e in endpoints
    ensures var table := Assigned(endpoints, previous, taken, hash);
      forall e | e in left :: Lookup(Assigned(left, table, taken, hash), e.rawDomain) == Lookup(table, e.rawDomain)
  {
    AssignIsConflictFree(endpoints, previous, taken, hash);
    ConflictFreeIsKept(left, Assigned(endpoints, previous, taken, hash), taken, hash);
  }

  lemma {:induction false} IncumbentsConcat(a: seq<Endpoint>, b: seq<Endpoint>, previous: map<string, Ip>)
    ensures Incumbents(a + b, previous) == Incumbents(a, previous) + Incumbents(b, previous)
  {
    if a == [] {
      assert a + b == b;
    } else {
      assert (a + b)[1..] == a[1..] + b;
      IncumbentsConcat(a[1..], b, previous);
    }
  }

  lemma {:induction false} NoIncumbents(endpoints: seq<Endpoint>, previous: map<string, Ip>)
    requires forall e | e in endpoints :: e.rawDomain !in previous
    ensures Incumbents(endpoints, previous) == []
  {
    if endpoints != [] {
      NoIncumbents(endpoints[1..], previous);
    }
  }

  /** What an incumbent gets depends on the incumbents alone. */
  lemma IncumbentPlace(endpoints: seq<Endpoint>, previous: map<string, Ip>, taken: set<Addr>, hash: string -> nat, i: nat)
    requires DistinctDomains(endpoints)
    requires i < |SortOn(Incumbents(endpoints, previous), Domain)|
    ensures var incumbents := SortOn(Incumbents(endpoints, previous), Domain);
      Lookup(Assigned(endpoints, previous, taken, hash), incumbents[i].rawDomain)
        == Some(Ips(incumbents, previous, taken, hash)[i])
  {
    var a, b := SortOn(Incumbents(endpoints, previous), Domain), SortOn(Newcomers(endpoints, previous), Domain);
    OrderPermutes(endpoints, previous);
    IpsPrefix(a, b, previous, taken, hash);
    TableAt(a + b, Ips(a + b, previous, taken, hash), i);
    assert (a + b)[i] == a[i];
  }

  /** New names never move a name that already has an address. */
  lemma NewcomersMoveNoIncumbent(endpoints: seq<Endpoint>, extra: seq<Endpoint>, previous: map<string, Ip>, taken: set<Addr>, hash: string -> nat, e: Endpoint)
    requires DistinctDomains(endpoints + extra) && DistinctDomains(endpoints)
    requires forall x | x in extra :: x.rawDomain !in previous
    requires e in endpoints && e.rawDomain in previous
    ensures Lookup(Assigned(endpoints + extra, previous, taken, hash), e.rawDomain)
      == Lookup(Assigned(endpoints, previous, taken, hash), e.rawDomain)
  {
    IncumbentsConcat(endpoints, extra, previous);
    NoIncumbents(extra, previous);
    assert Incumbents(endpoints + extra, previous) == Incumbents(endpoints, previous);
    PartitionPermutes(endpoints, previous);
    assert e in multiset(endpoints);
    assert e !in Newcomers(endpoints, previous);
    assert e in multiset(Incumbents(endpoints, previous));
    assert e in multiset(SortOn(Incumbents(endpoints, previous), Domain));
    var i :| 0 <= i < |SortOn(Incumbents(endpoints, previous), Domain)| && SortOn(Incumbents(endpoints, previous), Domain)[i] == e;
    IncumbentPlace(endpoints, previous, taken, hash, i);
    IncumbentPlace(endpoints + extra, previous, taken, hash, i);
  }

  lemma {:induction false} PartitionByCount(endpoints: seq<Endpoint>, previous: map<string, Ip>, e: Endpoint)
    ensures multiset(Incumbents(endpoints, previous))[e] == (if e.rawDomain in previous then multiset(endpoints)[e] else 0)
    ensures multiset(Newcomers(endpoints, previous))[e] == (if e.rawDomain in previous then 0 else multiset(endpoints)[e])
  {
    if endpoints != [] {
      PartitionByCount(endpoints[1..], previous, e);
      assert endpoints == [endpoints[0]] + endpoints[1..];
    }
  }

  /** The listing order of the endpoints makes no difference. */
  lemma AssignIgnoresListing(a: seq<Endpoint>, b: seq<Endpoint>, previous: map<string, Ip>, taken: set<Addr>, hash: string -> nat)
    requires DistinctDomains(a) && multiset(a) == multiset(b)
    ensures Assigned(a, previous, taken, hash) == Assigned(b, previous, taken, hash)
  {
    forall e ensures multiset(Incumbents(a, previous))[e] == multiset(Incumbents(b, previous))[e]
      && multiset(Newcomers(a, previous))[e] == multiset(Newcomers(b, previous))[e]
    {
      PartitionByCount(a, previous, e);
      PartitionByCount(b, previous, e);
    }
    assert multiset(Incumbents(a, previous)) == multiset(Incumbents(b, previous));
    assert multiset(Newcomers(a, previous)) == multiset(Newcomers(b, previous));
    DistinctIsKeyed(a);
    KeyedPart(a, Incumbents(a, previous), previous);
    KeyedPart(a, Newcomers(a, previous), previous);
    KeyedPermutes(Incumbents(a, previous), SortOn(Incumbents(a, previous), Domain));
    KeyedPermutes(Newcomers(a, previous), SortOn(Newcomers(a, previous), Domain));
    SortedUnique(SortOn(Incumbents(a, previous), Domain), SortOn(Incumbents(b, previous), Domain), Domain);
    SortedUnique(SortOn(Newcomers(a, previous), Domain), SortOn(Newcomers(b, previous), Domain), Domain);
  }

  lemma KeyedPart(endpoints: seq<Endpoint>, part: seq<Endpoint>, previous: map<string, Ip>)
    requires KeyedBy(endpoints, Domain)
    requires part == Incumbents(endpoints, previous) || part == Newcomers(endpoints, previous)
    ensures KeyedBy(part, Domain)
  {
    PartitionPermutes(endpoints, previous);
    forall i, j | 0 <= i < |part| && 0 <= j < |part| && Domain(part[i]) == Domain(part[j]) ensures part[i] == part[j] {
      assert part[i] in multiset(endpoints) && part[j] in multiset(endpoints);
      var k :| 0 <= k < |endpoints| && endpoints[k] == part[i];
      var l :| 0 <= l < |endpoints| && endpoints[l] == part[j];
      assert Domain(endpoints[k]) == Domain(endpoints[l]);
    }
  }
}
