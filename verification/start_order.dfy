/** `src/orchestrator/order.rs`: the start order and the dependency closures. */
module StartOrdering {
  import opened Ordering
  import opened Graph

  predicate Ready(id: string, placed: set<string>, arcs: Arcs)
  {
    forall a | a in arcs :: a.0 == id ==> a.1 in placed
  }

  /** One pass over `remaining`: what it places, in order, and what it leaves. */
  function Pass(remaining: seq<string>, placed: set<string>, arcs: Arcs): (r: (seq<string>, seq<string>))
    ensures |r.0| + |r.1| == |remaining|
  {
    if remaining == [] then
      ([], [])
    else if Ready(remaining[0], placed, arcs) then
      var (now, later) := Pass(remaining[1..], placed + {remaining[0]}, arcs);
      ([remaining[0]] + now, later)
    else
      var (now, later) := Pass(remaining[1..], placed, arcs);
      (now, [remaining[0]] + later)
  }

  /** Passes until one places nothing: what was placed, and the stuck rest. */
  function Passes(remaining: seq<string>, placed: set<string>, arcs: Arcs): (seq<string>, seq<string>)
    decreases |remaining|
  {
    var (now, later) := Pass(remaining, placed, arcs);
    if now == [] then
      ([], later)
    else
      var (rest, stuck) := Passes(later, placed + Elems(now), arcs);
      (now + rest, stuck)
  }

  function Placed(ids: seq<string>, edges: seq<Edge>): seq<string>
  {
    Passes(Sort(ids), {}, ArcsWithin(Elems(ids), edges)).0
  }

  /** The fallback tail. */
  function Stuck(ids: seq<string>, edges: seq<Edge>): seq<string>
  {
    Passes(Sort(ids), {}, ArcsWithin(Elems(ids), edges)).1
  }

  function StartOrder(ids: seq<string>, edges: seq<Edge>): seq<string>
  {
    Placed(ids, edges) + Stuck(ids, edges)
  }

  // ----- what the passes keep -----

  /** Every requirement of `order[i]` is in `placed` or earlier in `order`. */
  ghost predicate RequirementsFirst(order: seq<string>, placed: set<string>, arcs: Arcs)
  {
    forall i :: 0 <= i < |order| ==> Ready(order[i], placed + Elems(order[..i]), arcs)
  }

  ghost predicate NoneReady(rest: seq<string>, placed: set<string>, arcs: Arcs)
  {
    forall x | x in rest :: !Ready(x, placed, arcs)
  }

  lemma RequirementsFirstCons(x: string, order: seq<string>, placed: set<string>, arcs: Arcs)
    requires Ready(x, placed, arcs)
    requires RequirementsFirst(order, placed + {x}, arcs)
    ensures RequirementsFirst([x] + order, placed, arcs)
  {
    var all := [x] + order;
    forall i | 0 <= i < |all| ensures Ready(all[i], placed + Elems(all[..i]), arcs) {
      if i > 0 {
        assert all[..i] == [x] + order[..i - 1];
        assert placed + Elems(all[..i]) == placed + {x} + Elems(order[..i - 1]);
        assert all[i] == order[i - 1];
      }
    }
  }

  lemma RequirementsFirstConcat(a: seq<string>, b: seq<string>, placed: set<string>, arcs: Arcs)
    requires RequirementsFirst(a, placed, arcs)
    requires RequirementsFirst(b, placed + Elems(a), arcs)
    ensures RequirementsFirst(a + b, placed, arcs)
  {
    var all := a + b;
    forall i | 0 <= i < |all| ensures Ready(all[i], placed + Elems(all[..i]), arcs) {
      if i < |a| {
        assert all[..i] == a[..i];
      } else {
        assert all[..i] == a + b[..i - |a|];
        assert placed + Elems(all[..i]) == placed + Elems(a) + Elems(b[..i - |a|]);
      }
    }
  }

  lemma {:induction false} PassSplits(remaining: seq<string>, placed: set<string>, arcs: Arcs)
    ensures var (now, later) := Pass(remaining, placed, arcs);
      && multiset(now) + multiset(later) == multiset(remaining)
      && RequirementsFirst(now, placed, arcs)
      && (now == [] ==> later == remaining && NoneReady(remaining, placed, arcs))
  {
    if remaining != [] {
      var x, tail := remaining[0], remaining[1..];
      assert remaining == [x] + tail;
      if Ready(x, placed, arcs) {
        PassSplits(tail, placed + {x}, arcs);
        RequirementsFirstCons(x, Pass(tail, placed + {x}, arcs).0, placed, arcs);
      } else {
        PassSplits(tail, placed, arcs);
      }
    }
  }

  lemma SortedCons(x: string, s: seq<string>)
    requires SortedBy(s, Self)
    requires forall y | y in s :: Le(x, y)
    ensures SortedBy([x] + s, Self)
  {
  }

  /** A pass keeps the order of what it leaves behind. */
  lemma {:induction false} PassKeepsSorted(remaining: seq<string>, placed: set<string>, arcs: Arcs)
    requires SortedBy(remaining, Self)
    ensures SortedBy(Pass(remaining, placed, arcs).1, Self)
  {
    if remaining != [] {
      var x, tail := remaining[0], remaining[1..];
      TailOf(remaining, Self);
      if Ready(x, placed, arcs) {
        PassKeepsSorted(tail, placed + {x}, arcs);
      } else {
        PassKeepsSorted(tail, placed, arcs);
        PassSplits(tail, placed, arcs);
        var later := Pass(tail, placed, arcs).1;
        forall y | y in later ensures Le(x, y) {
          assert y in multiset(tail);
          HeadIsLeast(remaining, y);
        }
        SortedCons(x, later);
      }
    }
  }

  lemma HeadIsLeast(s: seq<string>, y: string)
    requires SortedBy(s, Self) && s != [] && y in s[1..]
    ensures Le(s[0], y)
  {
    var i :| 1 <= i < |s| && s[i] == y;
    assert Le(Self(s[0]), Self(s[i]));
  }

  lemma {:induction false} PassesSplit(remaining: seq<string>, placed: set<string>, arcs: Arcs)
    ensures var (order, stuck) := Passes(remaining, placed, arcs);
      && multiset(order) + multiset(stuck) == multiset(remaining)
      && RequirementsFirst(order, placed, arcs)
      && NoneReady(stuck, placed + Elems(order), arcs)
      && (SortedBy(remaining, Self) ==> SortedBy(stuck, Self))
    decreases |remaining|
  {
    PassSplits(remaining, placed, arcs);
    var (now, later) := Pass(remaining, placed, arcs);
    if SortedBy(remaining, Self) {
      PassKeepsSorted(remaining, placed, arcs);
    }
    if now == [] {
      assert placed + Elems(now) == placed;
    } else {
      PassesSplit(later, placed + Elems(now), arcs);
      var (rest, stuck) := Passes(later, placed + Elems(now), arcs);
      RequirementsFirstConcat(now, rest, placed, arcs);
      ElemsConcat(now, rest, placed);
    }
  }

  lemma ElemsConcat(a: seq<string>, b: seq<string>, placed: set<string>)
    ensures placed + Elems(a + b) == placed + Elems(a) + Elems(b)
  {
  }

  // ----- what the start order promises -----

  /** The start order is a rearrangement of its input, cyclic or not. */
  lemma StartOrderPermutes(ids: seq<string>, edges: seq<Edge>)
    ensures multiset(StartOrder(ids, edges)) == multiset(ids)
    ensures Elems(StartOrder(ids, edges)) == Elems(ids)
    ensures NoDup(ids) ==> NoDup(StartOrder(ids, edges))
    ensures |StartOrder(ids, edges)| == |ids|
  {
    PassesSplit(Sort(ids), {}, ArcsWithin(Elems(ids), edges));
    SameElems(ids, StartOrder(ids, edges));
  }

  /** Everything before the tail has its in-set requirements placed earlier. */
  lemma PlacedAfterRequirements(ids: seq<string>, edges: seq<Edge>)
    ensures Ranked(ArcsWithin(Elems(ids), edges), Placed(ids, edges))
  {
    var arcs := ArcsWithin(Elems(ids), edges);
    PassesSplit(Sort(ids), {}, arcs);
    var order := Placed(ids, edges);
    forall i, b | 0 <= i < |order| && (order[i], b) in arcs ensures b in order[..i] {
      assert Ready(order[i], {} + Elems(order[..i]), arcs);
      assert (order[i], b).0 == order[i] && (order[i], b).1 in {} + Elems(order[..i]);
    }
  }

  /** The tail, in sorted order, is exactly the nodes that lead to a cycle of
      in-set requirements. */
  lemma StuckLeadsToCycle(ids: seq<string>, edges: seq<Edge>)
    ensures SortedBy(Stuck(ids, edges), Self)
    ensures forall x :: x in Stuck(ids, edges) <==>
      x in ids && ReachesCycle(ArcsWithin(Elems(ids), edges), x)
    ensures forall x :: x in Placed(ids, edges) <==>
      x in ids && !ReachesCycle(ArcsWithin(Elems(ids), edges), x)
  {
    var arcs := ArcsWithin(Elems(ids), edges);
    PassesSplit(Sort(ids), {}, arcs);
    PlacedAfterRequirements(ids, edges);
    var order, stuck := Placed(ids, edges), Stuck(ids, edges);
    StartOrderPermutes(ids, edges);
    forall x ensures x in ids <==> x in order || x in stuck {
      assert x in Elems(ids) <==> x in Elems(order + stuck);
    }
    var s := Elems(stuck);
    forall x {:trigger HasNext(arcs, s, x)} | x in s ensures HasNext(arcs, s, x) {
      assert !Ready(x, {} + Elems(order), arcs);
      var a :| a in arcs && a.0 == x && a.1 !in order;
      assert a == (x, a.1) && a.1 in ids;
    }
    forall x | x in stuck ensures ReachesCycle(arcs, x) {
      assert x in s;
      NoDeadEndsCycle(arcs, s, x);
    }
    forall x | x in order ensures !ReachesCycle(arcs, x) {
      RankedNoCycle(arcs, order, x);
    }
  }

  /** Without a cycle, every in-set requirement comes before its dependent. */
  lemma StartOrderRanked(ids: seq<string>, edges: seq<Edge>)
    requires Acyclic(ArcsWithin(Elems(ids), edges))
    ensures Ranked(ArcsWithin(Elems(ids), edges), StartOrder(ids, edges))
  {
    StuckLeadsToCycle(ids, edges);
    PlacedAfterRequirements(ids, edges);
    if Stuck(ids, edges) != [] {
      NonEmpty(Stuck(ids, edges));
    }
    assert StartOrder(ids, edges) == Placed(ids, edges);
  }

  /** The order depends on which nodes are started, not on how they are listed. */
  lemma StartOrderIgnoresListing(ids: seq<string>, others: seq<string>, edges: seq<Edge>)
    requires multiset(ids) == multiset(others)
    ensures StartOrder(ids, edges) == StartOrder(others, edges)
  {
    SameElems(ids, others);
    SortedUnique(Sort(ids), Sort(others), Self);
  }

  // ----- the loop -----

  ghost predicate TableOf(deps: map<string, set<string>>, arcs: Arcs)
  {
    forall id, b | id in deps :: b in deps[id] <==> (id, b) in arcs
  }

  /** Each id's in-set requirements, as a table. */
  method RequirementTable(nodeIds: seq<string>, edges: seq<Edge>) returns (deps: map<string, set<string>>)
    ensures deps.Keys == Elems(nodeIds)
    ensures TableOf(deps, ArcsWithin(Elems(nodeIds), edges))
  {
    deps := map id | id in Elems(nodeIds) :: {};
    for i := 0 to |edges|
      invariant deps.Keys == Elems(nodeIds)
      invariant TableOf(deps, ArcsWithin(Elems(nodeIds), edges[..i]))
    {
      var e := edges[i];
      ghost var before, after := ArcsWithin(Elems(nodeIds), edges[..i]), ArcsWithin(Elems(nodeIds), edges[..i + 1]);
      assert edges[..i + 1] == edges[..i] + [e];
      if e.NeededToStart() && e.from in nodeIds && e.to in nodeIds {
        assert after == before + {(e.from, e.to)};
        deps := deps[e.from := deps[e.from] + {e.to}];
      } else {
        assert after == before;
      }
    }
    assert edges[..|edges|] == edges;
  }

  /** The inner loop: one pass over what remains. */
  lemma PassStep(remaining: seq<string>, placed: set<string>, arcs: Arcs, i: nat)
    requires i < |remaining|
    ensures var (id, rest) := (remaining[i], remaining[i + 1..]);
      if Ready(id, placed, arcs) then
        var after := Pass(rest, placed + {id}, arcs);
        Pass(remaining[i..], placed, arcs) == ([id] + after.0, after.1)
      else
        var after := Pass(rest, placed, arcs);
        Pass(remaining[i..], placed, arcs) == (after.0, [id] + after.1)
  {
    assert remaining[i..][0] == remaining[i] && remaining[i..][1..] == remaining[i + 1..];
  }

  /** A pass that has placed `now` and left `later`, with `rest` still to come. */
  ghost predicate PassedTo(whole: (seq<string>, seq<string>), now: seq<string>, later: seq<string>, rest: (seq<string>, seq<string>))
  {
    whole.0 == now + rest.0 && whole.1 == later + rest.1
  }

  method OnePass(remaining: seq<string>, placed: set<string>, deps: map<string, set<string>>, ghost arcs: Arcs)
    returns (now: seq<string>, nowPlaced: set<string>, later: seq<string>)
    requires Elems(remaining) <= deps.Keys
    requires TableOf(deps, arcs)
    ensures now == Pass(remaining, placed, arcs).0
    ensures later == Pass(remaining, placed, arcs).1
    ensures nowPlaced == placed + Elems(now)
  {
    now, nowPlaced, later := [], placed, [];
    for i := 0 to |remaining|
      invariant nowPlaced == placed + Elems(now)
      invariant PassedTo(Pass(remaining, placed, arcs), now, later, Pass(remaining[i..], nowPlaced, arcs))
    {
      var id := remaining[i];
      assert id in Elems(remaining);
      PassStep(remaining, nowPlaced, arcs, i);
      ReadyTable(id, nowPlaced, arcs, deps[id]);
      if deps[id] <= nowPlaced {
        Regroup(now, [id], Pass(remaining[i + 1..], nowPlaced + {id}, arcs).0);
        assert Elems(now + [id]) == Elems(now) + {id};
        now, nowPlaced := now + [id], nowPlaced + {id};
      } else {
        Regroup(later, [id], Pass(remaining[i + 1..], nowPlaced, arcs).1);
        later := later + [id];
      }
    }
    assert remaining[|remaining|..] == [];
  }

  /** The order `Passes` yields, tail included. */
  function PassOrder(remaining: seq<string>, placed: set<string>, arcs: Arcs): seq<string>
  {
    Passes(remaining, placed, arcs).0 + Passes(remaining, placed, arcs).1
  }

  lemma OrderStep(remaining: seq<string>, placed: set<string>, arcs: Arcs)
    ensures var (now, later) := Pass(remaining, placed, arcs);
      PassOrder(remaining, placed, arcs) == now + if now == [] then later else PassOrder(later, placed + Elems(now), arcs)
  {
  }

  lemma PassLeaves(remaining: seq<string>, placed: set<string>, arcs: Arcs)
    ensures Elems(Pass(remaining, placed, arcs).1) <= Elems(remaining)
  {
    PassSplits(remaining, placed, arcs);
    var later := Pass(remaining, placed, arcs).1;
    forall x | x in later ensures x in remaining {
      assert x in multiset(remaining);
    }
  }

  /** The outer loop: passes until one places nothing. */
  method AllPasses(sorted: seq<string>, deps: map<string, set<string>>, ghost arcs: Arcs)
    returns (ordered: seq<string>)
    requires Elems(sorted) <= deps.Keys && TableOf(deps, arcs)
    ensures ordered == PassOrder(sorted, {}, arcs)
  {
    var placed: set<string> := {};
    var remaining := sorted;
    ordered := [];
    while remaining != []
      invariant Elems(remaining) <= deps.Keys
      invariant PassOrder(sorted, {}, arcs) == ordered + PassOrder(remaining, placed, arcs)
      decreases |remaining|
    {
      PassLeaves(remaining, placed, arcs);
      OrderStep(remaining, placed, arcs);
      var now, nowPlaced, later := OnePass(remaining, placed, deps, arcs);
      Regroup(ordered, now, if now == [] then later else PassOrder(later, nowPlaced, arcs));
      ordered, placed, remaining := ordered + now, nowPlaced, later;
      if now == [] {
        ordered := ordered + remaining;
        return;
      }
    }
  }

  method TopologicalStartOrder(nodeIds: seq<string>, edges: seq<Edge>) returns (ordered: seq<string>)
    ensures ordered == StartOrder(nodeIds, edges)
  {
    var deps := RequirementTable(nodeIds, edges);
    SameElems(nodeIds, Sort(nodeIds));
    ordered := AllPasses(Sort(nodeIds), deps, ArcsWithin(Elems(nodeIds), edges));
  }

  lemma ReadyTable(id: string, placed: set<string>, arcs: Arcs, deps: set<string>)
    requires forall b :: b in deps <==> (id, b) in arcs
    ensures Ready(id, placed, arcs) <==> deps <= placed
  {
    if deps <= placed {
      forall a | a in arcs && a.0 == id ensures a.1 in placed {
        assert a == (id, a.1);
      }
    }
    if Ready(id, placed, arcs) {
      forall b | b in deps ensures b in placed {
        assert (id, b) in arcs && (id, b).0 == id;
      }
    }
  }
}
