/** `src/raw_net/forward.rs`: the listeners fghjd holds and the loopback
    aliases under them. */
module Forward {
  import opened Ordering
  import opened State
  import opened RawNet
  import opened RawNetTheorems

  datatype Route = Route(virtualIp: Ip, containerPort: nat, hostPort: nat)
  {
    function Key(): Addr { (virtualIp, containerPort) }
  }

  /** The complete desired state: a later route for the same address wins. */
  function Desired(routes: seq<Route>): map<Addr, nat>
  {
    if routes == [] then map[] else
      var n := |routes| - 1;
      Desired(routes[..n])[routes[n].Key() := routes[n].hostPort]
  }

  datatype Fault = InUse | OtherFault

  /** How the operating system answers one attempt to listen. */
  datatype Attempt = Attempt(alias: Option<Fault>, bind: Option<Fault>)

  /** An attempt that did not lead to a listener, and how it is reported. */
  predicate Refused(attempt: Attempt, inUse: bool)
  {
    var fault := if inUse then InUse else OtherFault;
    attempt.alias == Some(fault) || attempt.bind == Some(fault)
  }

  /** What was tried since: `addrs`, each once. */
  ghost predicate TriedOnce(before: seq<Addr>, after: seq<Addr>, addrs: set<Addr>)
  {
    before <= after && NoDup(after[|before|..]) && Elems(after[|before|..]) == addrs
  }

  lemma OneMore(addrs: seq<Addr>, wanted: set<Addr>, todo: set<Addr>, kept: set<Addr>, addr: Addr)
    requires NoDup(addrs) && Elems(addrs) == wanted - todo - kept && addr in todo && todo <= wanted
    ensures var more := if addr in kept then addrs else addrs + [addr];
      NoDup(more) && Elems(more) == wanted - (todo - {addr}) - kept
  {
    if addr in kept {
      assert wanted - (todo - {addr}) - kept == wanted - todo - kept;
    } else {
      assert forall a | a in addrs :: a in Elems(addrs);
      NoDupConcat(addrs, [addr]);
      assert Elems(addrs + [addr]) == Elems(addrs) + {addr};
      assert wanted - (todo - {addr}) - kept == wanted - todo - kept + {addr};
    }
  }

  /** Everything wanted but `todo` listens, or is taken or failed; `kept` listened before. */
  ghost predicate Served(listening: set<Addr>, wanted: set<Addr>, todo: set<Addr>, kept: set<Addr>, taken: set<Addr>, errors: set<Addr>)
  {
    && listening == kept + (wanted - todo - taken - errors)
    && taken !! errors && taken + errors <= wanted - todo - kept
  }

  lemma ServedStep(listening: set<Addr>, wanted: set<Addr>, todo: set<Addr>, kept: set<Addr>, taken: set<Addr>, errors: set<Addr>,
                   addr: Addr, fault: Option<Fault>)
    requires Served(listening, wanted, todo, kept, taken, errors) && todo <= wanted && addr in todo
    requires addr in listening ==> fault.None?
    ensures addr in listening <==> addr in kept
    ensures Served(if fault.None? then listening + {addr} else listening, wanted, todo - {addr}, kept,
                   if fault == Some(InUse) then taken + {addr} else taken,
                   if fault == Some(OtherFault) then errors + {addr} else errors)
  {
    assert fault.Some? ==> fault.value.InUse? || fault.value.OtherFault?;
    var taken' := if fault == Some(InUse) then taken + {addr} else taken;
    var errors' := if fault == Some(OtherFault) then errors + {addr} else errors;
    forall a ensures a in (if fault.None? then listening + {addr} else listening)
      <==> a in kept + (wanted - (todo - {addr}) - taken' - errors')
    {
      assert a in listening <==> a in kept + (wanted - todo - taken - errors);
    }
  }

  class Forwarder {
    /** Address to the host port it forwards to. */
    var listeners: map<Addr, nat>
    var aliases: set<Ip>
    /** Every address it ever tried to listen on. */
    ghost var tried: seq<Addr>

    /** Exactly the listening addresses are aliased. */
    ghost predicate Valid()
      reads this
    {
      aliases == Hosts(listeners.Keys)
    }

    constructor ()
      ensures Valid() && listeners == map[] && tried == []
    {
      listeners, aliases, tried := map[], {}, [];
    }

    /** Adds the alias if it is missing, then binds. */
    method Listen(addr: Addr, attempt: Attempt) returns (fault: Option<Fault>)
      modifies this`aliases, this`tried
      ensures tried == old(tried) + [addr]
      ensures fault == if addr.0 !in old(aliases) && attempt.alias.Some? then attempt.alias else attempt.bind
      ensures aliases == if addr.0 !in old(aliases) && attempt.alias.Some? then old(aliases) else old(aliases) + {addr.0}
    {
      tried := tried + [addr];
      if addr.0 !in aliases {
        if attempt.alias.Some? {
          return attempt.alias;
        }
        aliases := aliases + {addr.0};
      }
      fault := attempt.bind;
    }

    /** Swaps the target of a listener that is up, or listens. */
    method Serve(addr: Addr, hostPort: nat, attempt: Attempt) returns (fault: Option<Fault>)
      requires Hosts(listeners.Keys) <= aliases
      modifies this
      ensures Hosts(listeners.Keys) <= aliases
      ensures listeners == if fault.None? then old(listeners)[addr := hostPort] else old(listeners)
      ensures tried == old(tried) + if addr in old(listeners) then [] else [addr]
      ensures addr in old(listeners) ==> fault.None?
      ensures addr !in old(listeners) ==> fault == attempt.bind || (attempt.alias.Some? && fault == attempt.alias)
    {
      fault := None;
      if addr !in listeners {
        fault := Listen(addr, attempt);
      }
      if fault.None? {
        assert Hosts(listeners.Keys + {addr}) == Hosts(listeners.Keys) + {addr.0};
        assert addr in listeners.Keys ==> addr.0 in Hosts(listeners.Keys);
        listeners := listeners[addr := hostPort];
      }
    }

    /** Serves every desired address, in some order. */
    method ServeAll(desired: map<Addr, nat>, attempts: Addr -> Attempt) returns (taken: set<Addr>, errors: set<Addr>)
      requires Hosts(listeners.Keys) <= aliases && listeners.Keys <= desired.Keys
      modifies this
      ensures Hosts(listeners.Keys) <= aliases
      ensures listeners.Keys == desired.Keys - taken - errors
      ensures taken !! errors && taken + errors <= desired.Keys - old(listeners).Keys
      ensures forall a | a in listeners :: listeners[a] == desired[a]
      ensures forall a | a in taken + errors :: Refused(attempts(a), a in taken)
      ensures forall a | a in listeners && a !in old(listeners) :: attempts(a).bind.None?
      ensures TriedOnce(old(tried), tried, desired.Keys - old(listeners).Keys)
    {
      taken, errors := {}, {};
      var todo := desired.Keys;
      ghost var kept := listeners.Keys;
      ghost var news: seq<Addr> := [];
      while todo != {}
        invariant todo <= desired.Keys && Hosts(listeners.Keys) <= aliases
        invariant Served(listeners.Keys, desired.Keys, todo, kept, taken, errors)
        invariant forall a | a in listeners && a !in todo :: listeners[a] == desired[a]
        invariant forall a | a in taken + errors :: Refused(attempts(a), a in taken)
        invariant forall a | a in listeners && a !in kept :: attempts(a).bind.None?
        invariant tried == old(tried) + news && NoDup(news) && Elems(news) == desired.Keys - todo - kept
        decreases todo
      {
        var addr :| addr in todo;
        ghost var before := listeners.Keys;
        var fault := Serve(addr, desired[addr], attempts(addr));
        ServedStep(before, desired.Keys, todo, kept, taken, errors, addr, fault);
        OneMore(news, desired.Keys, todo, kept, addr);
        if addr !in before {
          news := news + [addr];
        }
        match fault {
          case None =>
          case Some(InUse) => taken := taken + {addr};
          case Some(OtherFault) => errors := errors + {addr};
        }
        todo := todo - {addr};
      }
    }

    /** Brings the listeners to `routes`. `taken` is what another program holds;
        the call fails when `errors` is not empty, and the aliases match the
        listeners either way. */
    method Apply(routes: seq<Route>, attempts: Addr -> Attempt) returns (taken: set<Addr>, errors: set<Addr>)
      requires Valid()
      modifies this
      ensures Valid()
      ensures listeners.Keys == Desired(routes).Keys - taken - errors
      ensures taken !! errors && taken + errors <= Desired(routes).Keys - old(listeners).Keys
      ensures forall a | a in listeners :: listeners[a] == Desired(routes)[a]
      ensures forall a | a in taken + errors :: Refused(attempts(a), a in taken)
      ensures forall a | a in listeners && a !in old(listeners) :: attempts(a).bind.None?
      ensures TriedOnce(old(tried), tried, Desired(routes).Keys - old(listeners).Keys)
    {
      var desired := Desired(routes);
      listeners := map a | a in listeners && a in desired :: listeners[a];
      assert desired.Keys - listeners.Keys == desired.Keys - old(listeners).Keys;
      taken, errors := ServeAll(desired, attempts);
      var inUse := set a | a in listeners :: a.0;
      assert inUse == Hosts(listeners.Keys);
      aliases := aliases - (aliases - inUse);
    }

    method Clear()
      modifies this
      ensures Valid() && listeners == map[] && aliases == {} && tried == old(tried)
    {
      listeners, aliases := map[], {};
    }
  }
}
