/** `src/raw_net/mod.rs`: which virtual address each raw-zone name gets. */
module RawNet {
  import opened Ordering
  import opened State

  type Ip = nat

  type Addr = (Ip, nat)

  const POOL_BASE: nat := 127 * 0x100_0000 + 223 * 0x1_0000

  /** The probed slots: `POOL_SIZE - 2`. */
  const SPAN: nat := 0x1_0000 - 2

  predicate InPool(ip: Ip)
  {
    POOL_BASE < ip <= POOL_BASE + SPAN
  }

  /** `hash` stands for the first four bytes of the name's SHA-256. */
  function VirtualIpFor(hash: string -> nat, name: string): (ip: Ip)
    ensures InPool(ip)
  {
    POOL_BASE + 1 + hash(name) % SPAN
  }

  function SlotOf(ip: Ip): nat
    requires InPool(ip)
  {
    ip - POOL_BASE - 1
  }

  /** The slot `step` places past `start`, going round. */
  function SlotIp(start: nat, step: nat): (ip: Ip)
    ensures InPool(ip)
  {
    POOL_BASE + 1 + (start + step) % SPAN
  }

  // ----- ports -----

  predicate IsDigit(c: char) { '0' <= c <= '9' }

  function DigitsValue(s: string): nat
    requires forall c | c in s :: IsDigit(c)
  {
    if s == [] then 0 else
      assert IsDigit(s[|s| - 1]);
      DigitsValue(s[..|s| - 1]) * 10 + (s[|s| - 1] as int - '0' as int)
  }

  /** `str::parse::<u16>`: an optional `+`, then digits worth at most 65535. */
  function ParsePort(key: string): Option<nat>
  {
    var digits := if key != [] && key[0] == '+' then key[1..] else key;
    if digits == [] || exists c :: c in digits && !IsDigit(c) then None
    else if DigitsValue(digits) > 0xFFFF then None
    else Some(DigitsValue(digits))
  }

  /** `ports` lists the declared port and the host port behind it, by key. */
  datatype Endpoint = Endpoint(rawDomain: string, ports: seq<(string, nat)>)

  function PortsOf(ports: seq<(string, nat)>): (r: seq<nat>)
    ensures |r| <= |ports|
  {
    if ports == [] then []
    else match ParsePort(ports[0].0)
      case None => PortsOf(ports[1..])
      case Some(p) => [p] + PortsOf(ports[1..])
  }

  function Domain(e: Endpoint): string { e.rawDomain }

  ghost predicate DistinctDomains(endpoints: seq<Endpoint>)
  {
    forall i, j :: 0 <= i < j < |endpoints| ==> endpoints[i].rawDomain != endpoints[j].rawDomain
  }

  // ----- choosing an address -----

  predicate FreeAt(ip: Ip, ports: seq<nat>, claimed: set<Addr>)
  {
    forall p | p in ports :: (ip, p) !in claimed
  }

  /** The first free slot at or after `step` slots past `start`. */
  function Probe(start: nat, step: nat, ports: seq<nat>, claimed: set<Addr>): (r: Option<Ip>)
    requires step <= SPAN
    ensures r.Some? ==> InPool(r.value) && FreeAt(r.value, ports, claimed)
    ensures r.None? ==> forall k | step <= k < SPAN :: !FreeAt(SlotIp(start, k), ports, claimed)
    decreases SPAN - step
  {
    if step == SPAN then None
    else if FreeAt(SlotIp(start, step), ports, claimed) then Some(SlotIp(start, step))
    else Probe(start, step + 1, ports, claimed)
  }

  /** Keeps `preferred` unless a port collides, else probes from the hash; a
      full pool falls back to the hash, conflict or not. */
  function PickIp(preferred: Option<Ip>, naive: Ip, ports: seq<nat>, claimed: set<Addr>): (ip: Ip)
    requires InPool(naive)
    ensures preferred.Some? && FreeAt(preferred.value, ports, claimed) ==> ip == preferred.value
    ensures preferred == Some(ip) || InPool(ip)
  {
    if preferred.Some? && FreeAt(preferred.value, ports, claimed) then
      preferred.value
    else match Probe(SlotOf(naive), 0, ports, claimed)
      case Some(ip) => ip
      case None => naive
  }

  function Claims(ip: Ip, ports: seq<nat>): set<Addr>
  {
    set p | p in ports :: (ip, p)
  }

  function Lookup(table: map<string, Ip>, name: string): Option<Ip>
  {
    if name in table then Some(table[name]) else None
  }

  /** The addresses the endpoints get one after the other, each claiming its ports. */
  function Ips(order: seq<Endpoint>, previous: map<string, Ip>, claimed: set<Addr>, hash: string -> nat): (ips: seq<Ip>)
    ensures |ips| == |order|
  {
    if order == [] then [] else
      var e := order[0];
      var ports := PortsOf(e.ports);
      var ip := PickIp(Lookup(previous, e.rawDomain), VirtualIpFor(hash, e.rawDomain), ports, claimed);
      [ip] + Ips(order[1..], previous, claimed + Claims(ip, ports), hash)
  }

  /** The table after inserting each endpoint's address in turn. */
  function TableOf(order: seq<Endpoint>, ips: seq<Ip>): map<string, Ip>
    requires |ips| == |order|
  {
    if order == [] then map[] else
      var n := |order| - 1;
      TableOf(order[..n], ips[..n])[order[n].rawDomain := ips[n]]
  }

  function Incumbents(endpoints: seq<Endpoint>, previous: map<string, Ip>): seq<Endpoint>
  {
    if endpoints == [] then [] else
      var rest := Incumbents(endpoints[1..], previous);
      if endpoints[0].rawDomain in previous then [endpoints[0]] + rest else rest
  }

  function Newcomers(endpoints: seq<Endpoint>, previous: map<string, Ip>): seq<Endpoint>
  {
    if endpoints == [] then [] else
      var rest := Newcomers(endpoints[1..], previous);
      if endpoints[0].rawDomain in previous then rest else [endpoints[0]] + rest
  }

  /** Incumbents first, then newcomers, each by name. */
  function AssignOrder(endpoints: seq<Endpoint>, previous: map<string, Ip>): seq<Endpoint>
  {
    SortOn(Incumbents(endpoints, previous), Domain) + SortOn(Newcomers(endpoints, previous), Domain)
  }

  function Assigned(endpoints: seq<Endpoint>, previous: map<string, Ip>, taken: set<Addr>, hash: string -> nat): map<string, Ip>
  {
    var order := AssignOrder(endpoints, previous);
    TableOf(order, Ips(order, previous, taken, hash))
  }

  // ----- the loops -----

  lemma PartitionStep(endpoints: seq<Endpoint>, previous: map<string, Ip>, i: nat)
    requires i < |endpoints|
    ensures var (e, rest) := (endpoints[i], endpoints[i + 1..]);
      if e.rawDomain in previous then
        Incumbents(endpoints[i..], previous) == [e] + Incumbents(rest, previous)
        && Newcomers(endpoints[i..], previous) == Newcomers(rest, previous)
      else
        Incumbents(endpoints[i..], previous) == Incumbents(rest, previous)
        && Newcomers(endpoints[i..], previous) == [e] + Newcomers(rest, previous)
  {
    assert endpoints[i..][0] == endpoints[i] && endpoints[i..][1..] == endpoints[i + 1..];
  }

  method Partition(endpoints: seq<Endpoint>, previous: map<string, Ip>)
    returns (incumbents: seq<Endpoint>, newcomers: seq<Endpoint>)
    ensures incumbents == Incumbents(endpoints, previous)
    ensures newcomers == Newcomers(endpoints, previous)
  {
    incumbents, newcomers := [], [];
    for i := 0 to |endpoints|
      invariant Incumbents(endpoints, previous) == incumbents + Incumbents(endpoints[i..], previous)
      invariant Newcomers(endpoints, previous) == newcomers + Newcomers(endpoints[i..], previous)
    {
      var e := endpoints[i];
      PartitionStep(endpoints, previous, i);
      if e.rawDomain in previous {
        Regroup(incumbents, [e], Incumbents(endpoints[i + 1..], previous));
        incumbents := incumbents + [e];
      } else {
        Regroup(newcomers, [e], Newcomers(endpoints[i + 1..], previous));
        newcomers := newcomers + [e];
      }
    }
    assert endpoints[|endpoints|..] == [];
  }

  lemma TableOfStep(order: seq<Endpoint>, ips: seq<Ip>, i: nat)
    requires i < |order| == |ips|
    ensures TableOf(order[..i + 1], ips[..i + 1]) == TableOf(order[..i], ips[..i])[order[i].rawDomain := ips[i]]
  {
    assert order[..i + 1][..i] == order[..i] && ips[..i + 1][..i] == ips[..i];
  }

  lemma IpsStep(order: seq<Endpoint>, previous: map<string, Ip>, claimed: set<Addr>, hash: string -> nat, i: nat, all: seq<Ip>)
    requires i < |order| == |all| && all[i..] == Ips(order[i..], previous, claimed, hash)
    ensures var (e, ports) := (order[i], PortsOf(order[i].ports));
      && all[i] == PickIp(Lookup(previous, e.rawDomain), VirtualIpFor(hash, e.rawDomain), ports, claimed)
      && all[i + 1..] == Ips(order[i + 1..], previous, claimed + Claims(all[i], ports), hash)
  {
    assert order[i..][0] == order[i] && order[i..][1..] == order[i + 1..];
    assert all[i] == all[i..][0] && all[i + 1..] == all[i..][1..];
  }

  /** The main loop over incumbents, then newcomers. */
  method PlaceAll(order: seq<Endpoint>, previous: map<string, Ip>, taken: set<Addr>, hash: string -> nat)
    returns (next: map<string, Ip>)
    ensures next == TableOf(order, Ips(order, previous, taken, hash))
  {
    ghost var all := Ips(order, previous, taken, hash);
    var claimed := taken;
    next := map[];
    for i := 0 to |order|
      invariant all[i..] == Ips(order[i..], previous, claimed, hash)
      invariant next == TableOf(order[..i], all[..i])
    {
      var endpoint := order[i];
      var ports := PortsOf(endpoint.ports);
      var naive := VirtualIpFor(hash, endpoint.rawDomain);
      var ip := PickIp(Lookup(previous, endpoint.rawDomain), naive, ports, claimed);
      IpsStep(order, previous, claimed, hash, i, all);
      TableOfStep(order, all, i);
      claimed := claimed + Claims(ip, ports);
      next := next[endpoint.rawDomain := ip];
    }
    assert order[..|order|] == order && all[..|order|] == all;
  }

  method Assign(endpoints: seq<Endpoint>, previous: map<string, Ip>, taken: set<Addr>, hash: string -> nat)
    returns (next: map<string, Ip>)
    ensures next == Assigned(endpoints, previous, taken, hash)
  {
    var incumbents, newcomers := Partition(endpoints, previous);
    next := PlaceAll(SortOn(incumbents, Domain) + SortOn(newcomers, Domain), previous, taken, hash);
  }
}
