/** `src/orchestrator/order.rs`: what a node needs, and what needs it. */
module Closure {
  import opened Ordering
  import opened Graph
  import opened StartOrdering

  function Ends(arcs: Arcs): set<string>
  {
    set a | a in arcs :: a.1
  }

  /** Every other node one or more arcs beyond `id`. */
  ghost function OthersReached(arcs: Arcs, id: string): set<string>
  {
    set n | n in Ends(arcs) && n != id && Reaches(arcs, id, n)
  }

  lemma OthersReachedExactly(arcs: Arcs, id: string)
    ensures forall n :: n in OthersReached(arcs, id) <==> n != id && Reaches(arcs, id, n)
  {
    forall n | Reaches(arcs, id, n) ensures n in Ends(arcs) {
      var p :| WalkFromTo(arcs, p, id, n);
      assert (p[|p| - 2], p[|p| - 2 + 1]) in arcs;
      assert (p[|p| - 2], n).1 in Ends(arcs);
    }
  }

  function Direction(edges: seq<Edge>, forward: bool): Arcs
  {
    if forward then RequiredArcs(edges) else Reversed(RequiredArcs(edges))
  }

  function Here(e: Edge, forward: bool): string { if forward then e.from else e.to }

  function Next(e: Edge, forward: bool): string { if forward then e.to else e.from }

  lemma DirectionArcs(edges: seq<Edge>, forward: bool)
    ensures forall e | e in edges && e.NeededToStart() :: (Here(e, forward), Next(e, forward)) in Direction(edges, forward)
    ensures forall a | a in Direction(edges, forward) ::
      exists e :: e in edges && e.NeededToStart() && a == (Here(e, forward), Next(e, forward))
  {
    if !forward {
      forall e | e in edges && e.NeededToStart() ensures (e.to, e.from) in Reversed(RequiredArcs(edges)) {
        assert (e.from, e.to) in RequiredArcs(edges);
        assert ((e.from, e.to).1, (e.from, e.to).0) == (e.to, e.from);
      }
    }
  }

  /** Successors of `x` are all in `known`. */
  ghost predicate Explored(arcs: Arcs, x: string, known: set<string>)
  {
    forall y :: (x, y) in arcs ==> y in known
  }

  /** The invariant of the worklist: what was found is reachable, and only the
      queue is still unexplored. */
  ghost predicate Frontier(arcs: Arcs, id: string, found: set<string>, queue: seq<string>)
  {
    && found <= OthersReached(arcs, id)
    && Elems(queue) <= found + {id}
    && forall x | x in found + {id} && x !in queue :: Explored(arcs, x, found + {id})
  }

  lemma FrontierDone(arcs: Arcs, id: string, found: set<string>)
    requires Frontier(arcs, id, found, [])
    ensures found == OthersReached(arcs, id)
  {
    var s := found + {id};
    assert Closed(arcs, s) by {
      forall a | a in arcs && a.0 in s ensures a.1 in s {
        assert Explored(arcs, a.0, s);
        assert a == (a.0, a.1);
      }
    }
    forall n | n in OthersReached(arcs, id) ensures n in found {
      ReachesStays(arcs, s, id, n);
    }
  }

  /** The edges out of `current` push what they newly find. */
  method Expand(id: string, current: string, edges: seq<Edge>, forward: bool, found: set<string>, queue: seq<string>)
    returns (wider: set<string>, longer: seq<string>)
    requires found <= OthersReached(Direction(edges, forward), id)
    requires current in found + {id}
    requires Elems(queue) <= found + {id}
    ensures found <= wider <= OthersReached(Direction(edges, forward), id)
    ensures queue <= longer && Elems(longer) == Elems(queue) + (wider - found)
    ensures wider == found ==> longer == queue
    ensures Explored(Direction(edges, forward), current, wider + {id})
  {
    ghost var arcs := Direction(edges, forward);
    DirectionArcs(edges, forward);
    OthersReachedExactly(arcs, id);
    wider, longer := found, queue;
    for i := 0 to |edges|
      invariant found <= wider <= OthersReached(arcs, id)
      invariant queue <= longer && Elems(longer) == Elems(queue) + (wider - found)
      invariant wider == found ==> longer == queue
      invariant forall e | e in edges[..i] && e.NeededToStart() && Here(e, forward) == current ::
        Next(e, forward) in wider + {id}
    {
      var e := edges[i];
      assert edges[..i + 1] == edges[..i] + [e];
      if e.NeededToStart() {
        var next := Next(e, forward);
        if Here(e, forward) == current && next != id && next !in wider {
          ReachesArc(arcs, current, next);
          if current != id {
            ReachesTransitive(arcs, id, current, next);
          }
          wider := wider + {next};
          longer := longer + [next];
        }
      }
    }
    forall y | (current, y) in arcs ensures y in wider + {id} {
      var e :| e in edges && e.NeededToStart() && (current, y) == (Here(e, forward), Next(e, forward));
      assert e in edges[..|edges|];
    }
  }

  lemma FrontierStep(arcs: Arcs, id: string, found: set<string>, queue: seq<string>, wider: set<string>, longer: seq<string>)
    requires queue != [] && Frontier(arcs, id, found, queue)
    requires found <= wider <= OthersReached(arcs, id)
    requires Elems(longer) == Elems(queue[..|queue| - 1]) + (wider - found)
    requires Explored(arcs, queue[|queue| - 1], wider + {id})
    ensures Frontier(arcs, id, wider, longer)
  {
    var current := queue[|queue| - 1];
    assert queue == queue[..|queue| - 1] + [current];
    forall x | x in wider + {id} && x !in longer ensures Explored(arcs, x, wider + {id}) {
      assert x !in Elems(longer);
      if x != current {
        assert x !in Elems(queue);
        assert Explored(arcs, x, found + {id});
      }
    }
    forall x | x in longer ensures x in wider + {id} {
      assert x in Elems(longer);
      assert x in queue || x in wider;
      assert x in queue ==> x in Elems(queue);
    }
  }

  /** What is left to find and to explore shrinks with every step. */
  lemma SearchShrinks(reached: set<string>, found: set<string>, wider: set<string>)
    requires found <= wider <= reached
    ensures |reached - wider| <= |reached - found|
    ensures wider != found ==> |reached - wider| < |reached - found|
  {
    SubsetSize(reached - wider, reached - found);
    if wider != found {
      var x :| x in wider && x !in found;
      assert x in reached - found && x !in reached - wider;
    }
  }

  /** The worklist. */
  method Search(id: string, edges: seq<Edge>, forward: bool) returns (found: set<string>)
    ensures found == OthersReached(Direction(edges, forward), id)
  {
    ghost var arcs := Direction(edges, forward);
    found := {};
    var queue := [id];
    while queue != []
      invariant Frontier(arcs, id, found, queue)
      decreases |OthersReached(arcs, id) - found|, |queue|
    {
      var current := queue[|queue| - 1];
      var rest := queue[..|queue| - 1];
      assert current in Elems(queue) && Elems(rest) <= Elems(queue);
      var wider, longer := Expand(id, current, edges, forward, found, rest);
      FrontierStep(arcs, id, found, queue, wider, longer);
      SearchShrinks(OthersReached(arcs, id), found, wider);
      found, queue := wider, longer;
    }
    FrontierDone(arcs, id, found);
  }

  /** `closure`: what the worklist finds, in start order. */
  method ClosureOf(id: string, edges: seq<Edge>, forward: bool) returns (ids: seq<string>)
    ensures Elems(ids) == OthersReached(Direction(edges, forward), id)
    ensures NoDup(ids)
    ensures ids == StartOrder(ids, edges)
  {
    var found := Search(id, edges, forward);
    var listed := SortedElements(found);
    StartOrderPermutes(listed, edges);
    StartOrderIgnoresListing(listed, StartOrder(listed, edges), edges);
    ids := TopologicalStartOrder(listed, edges);
  }

  method RequirementsOf(id: string, edges: seq<Edge>) returns (ids: seq<string>)
    ensures Elems(ids) == OthersReached(RequiredArcs(edges), id)
    ensures NoDup(ids) && ids == StartOrder(ids, edges)
  {
    ids := ClosureOf(id, edges, true);
  }

  method DependentsOf(id: string, edges: seq<Edge>) returns (ids: seq<string>)
    ensures Elems(ids) == OthersReached(Reversed(RequiredArcs(edges)), id)
    ensures NoDup(ids) && ids == StartOrder(ids, edges)
  {
    ids := ClosureOf(id, edges, false);
  }

  /** `b` is among `a`'s requirements exactly when `a` is among `b`'s dependents. */
  lemma ClosuresAreDual(edges: seq<Edge>, a: string, b: string)
    ensures b in OthersReached(RequiredArcs(edges), a) <==> a in OthersReached(Reversed(RequiredArcs(edges)), b)
  {
    OthersReachedExactly(RequiredArcs(edges), a);
    OthersReachedExactly(Reversed(RequiredArcs(edges)), b);
    ReachesReversed(RequiredArcs(edges), a, b);
  }

  /** Without a cycle a node's requirements and dependents share nothing. */
  lemma RequirementsAndDependentsDisjoint(edges: seq<Edge>, id: string)
    requires Acyclic(RequiredArcs(edges))
    ensures OthersReached(RequiredArcs(edges), id) !! OthersReached(Reversed(RequiredArcs(edges)), id)
  {
    var arcs := RequiredArcs(edges);
    OthersReachedExactly(arcs, id);
    OthersReachedExactly(Reversed(arcs), id);
    forall n | n in OthersReached(arcs, id) ensures n !in OthersReached(Reversed(arcs), id) {
      ReachesReversed(arcs, n, id);
      if Reaches(arcs, n, id) {
        ReachesTransitive(arcs, id, n, id);
      }
    }
  }
}
