/** `src/resolver/cycles.rs`: the depth-first search for loops of required edges. */
module Cycles {
  import opened Ordering
  import opened Graph
  import opened StartOrdering

  type Adjacency = map<string, seq<string>>

  ghost function ArcsOf(adjacency: Adjacency): Arcs
  {
    set x, y | x in adjacency && y in adjacency[x] :: (x, y)
  }

  ghost function NodesOf(adjacency: Adjacency): set<string>
  {
    adjacency.Keys + set x, y | x in adjacency && y in adjacency[x] :: y
  }

  /** A simple closed walk: each node needs the next, the last needs the first. */
  ghost predicate IsCycle(arcs: Arcs, c: seq<string>)
  {
    IsWalk(arcs, c) && NoDup(c) && (c[|c| - 1], c[0]) in arcs
  }

  lemma CycleReachesItself(arcs: Arcs, c: seq<string>)
    requires IsCycle(arcs, c)
    ensures Reaches(arcs, c[0], c[0])
  {
    assert WalkFromTo(arcs, c + [c[0]], c[0], c[0]);
  }

  lemma RankedAppend(arcs: Arcs, order: seq<string>, id: string)
    requires Ranked(arcs, order)
    requires forall b :: (id, b) in arcs ==> b in Elems(order)
    ensures Ranked(arcs, order + [id])
  {
    var all := order + [id];
    forall i, b | 0 <= i < |all| && (all[i], b) in arcs ensures b in all[..i] {
      if i < |order| {
        assert all[..i] == order[..i];
      } else {
        assert all[..i] == order;
      }
    }
  }

  /** The stack is a simple walk, and `onStack` its members. */
  ghost predicate OnPath(arcs: Arcs, stack: seq<string>, onStack: set<string>)
  {
    NoDup(stack) && onStack == Elems(stack) && (stack != [] ==> IsWalk(arcs, stack))
  }

  lemma PathPops(arcs: Arcs, stack: seq<string>, onStack: set<string>)
    requires OnPath(arcs, stack, onStack) && stack != []
    ensures OnPath(arcs, stack[..|stack| - 1], onStack - {stack[|stack| - 1]})
  {
    var rest := stack[..|stack| - 1];
    assert stack == rest + [stack[|stack| - 1]];
    assert Elems(stack) == Elems(rest) + {stack[|stack| - 1]};
    forall i | 0 <= i < |rest| - 1 ensures (rest[i], rest[i + 1]) in arcs {
      assert (stack[i], stack[i + 1]) in arcs;
    }
  }

  lemma PathGrows(arcs: Arcs, stack: seq<string>, onStack: set<string>, id: string)
    requires OnPath(arcs, stack, onStack) && id !in onStack
    requires stack != [] ==> (stack[|stack| - 1], id) in arcs
    ensures OnPath(arcs, stack + [id], onStack + {id})
  {
    var path := stack + [id];
    assert Elems(path) == Elems(stack) + {id};
    assert id !in Elems(stack);
    forall i | 0 <= i < |path| - 1 ensures (path[i], path[i + 1]) in arcs {
      assert i < |stack| - 1 ==> (stack[i], stack[i + 1]) in arcs;
    }
  }

  class Search {
    const adjacency: Adjacency
    var done: set<string>
    var stack: seq<string>
    var onStack: set<string>
    var cycles: seq<seq<string>>
    /** The members of `done`, in the order they were finished. */
    ghost var finished: seq<string>

    ghost predicate Valid()
      reads this
    {
      && OnPath(ArcsOf(adjacency), stack, onStack)
      && done !! onStack && done + onStack <= NodesOf(adjacency)
      && Elems(finished) == done
      && (cycles == [] ==> Ranked(ArcsOf(adjacency), finished))
      && (forall c | c in cycles :: IsCycle(ArcsOf(adjacency), c))
    }

    constructor (adjacency: Adjacency)
      ensures Valid() && this.adjacency == adjacency
      ensures done == {} && stack == [] && cycles == []
    {
      this.adjacency := adjacency;
      done, stack, onStack, cycles, finished := {}, [], {}, [], [];
    }

    /** Everything below `id`, then `id` itself. */
    method Walk(id: string)
      requires Valid()
      requires id in NodesOf(adjacency) && id !in done && id !in onStack
      requires stack != [] ==> (stack[|stack| - 1], id) in ArcsOf(adjacency)
      modifies this
      ensures Valid()
      ensures stack == old(stack) && onStack == old(onStack)
      ensures old(done) + {id} <= done
      ensures old(cycles) <= cycles
      decreases NodesOf(adjacency) - done - onStack
    {
      PathGrows(ArcsOf(adjacency), stack, onStack, id);
      var path := stack + [id];
      stack := path;
      onStack := onStack + {id};
      var targets := if id in adjacency then adjacency[id] else [];
      for i := 0 to |targets|
        invariant Valid() && stack == path
        invariant old(done) <= done && old(cycles) <= cycles
        invariant cycles == [] ==> forall j | 0 <= j < i :: targets[j] in done
      {
        var next := targets[i];
        assert (id, next) in ArcsOf(adjacency);
        if next in onStack {
          Report(next);
        } else if next !in done {
          Walk(next);
        }
      }
      Leave(id);
      assert stack == old(stack);
    }

    /** The part of the stack from `next` on is a cycle. */
    method Report(next: string)
      requires Valid() && next in onStack
      requires stack != [] && (stack[|stack| - 1], next) in ArcsOf(adjacency)
      modifies this`cycles
      ensures Valid() && old(cycles) < cycles
    {
      var at := 0;
      while stack[at] != next
        invariant 0 <= at < |stack|
        invariant next in stack[at..]
        decreases |stack| - at
      {
        assert stack[at..] == [stack[at]] + stack[at + 1..];
        at := at + 1;
      }
      var c := stack[at..];
      assert IsWalk(ArcsOf(adjacency), c) by {
        forall i | 0 <= i < |c| - 1 ensures (c[i], c[i + 1]) in ArcsOf(adjacency) {
          assert (stack[at + i], stack[at + i + 1]) in ArcsOf(adjacency);
        }
      }
      cycles := cycles + [c];
    }

    /** Pops the finished top of the stack. */
    method Leave(id: string)
      requires Valid() && stack != [] && stack[|stack| - 1] == id
      requires cycles == [] ==> forall b :: (id, b) in ArcsOf(adjacency) ==> b in done
      modifies this
      ensures Valid()
      ensures stack == old(stack)[..|old(stack)| - 1] && onStack == old(onStack) - {id}
      ensures done == old(done) + {id} && cycles == old(cycles)
    {
      if cycles == [] {
        RankedAppend(ArcsOf(adjacency), finished, id);
      }
      PathPops(ArcsOf(adjacency), stack, onStack);
      assert id in onStack by {
        assert stack[|stack| - 1] in Elems(stack);
      }
      assert Elems(finished + [id]) == Elems(finished) + {id};
      stack := stack[..|stack| - 1];
      onStack := onStack - {id};
      done := done + {id};
      finished := finished + [id];
    }
  }

  /** `Vec::dedup`: drops repeats that stand next to each other. */
  function Dedup(s: seq<string>): (r: seq<string>)
    ensures Elems(r) == Elems(s)
  {
    if |s| < 2 then
      s
    else if s[0] == s[1] then
      assert s == [s[0]] + s[1..];
      Dedup(s[1..])
    else
      var t := Dedup(s[1..]);
      assert Elems([s[0]] + t) == {s[0]} + Elems(t);
      assert Elems(s) == {s[0]} + Elems(s[1..]);
      [s[0]] + t
  }

  /** Each node's required targets, sorted and without repeats. */
  method BuildAdjacency(edges: seq<Edge>) returns (adjacency: Adjacency)
    ensures ArcsOf(adjacency) == RequiredArcs(edges)
  {
    var pushed: Adjacency := map[];
    for i := 0 to |edges|
      invariant ArcsOf(pushed) == RequiredArcs(edges[..i])
    {
      var e := edges[i];
      RequiredStep(edges, i);
      if e.NeededToStart() {
        PushedArc(pushed, e.from, e.to);
        pushed := Pushed(pushed, e.from, e.to);
      }
    }
    assert edges[..|edges|] == edges;
    adjacency := map id | id in pushed :: Dedup(Sort(pushed[id]));
    SortedArcs(pushed, adjacency);
  }

  function Pushed(adjacency: Adjacency, from: string, to: string): Adjacency
  {
    adjacency[from := (if from in adjacency then adjacency[from] else []) + [to]]
  }

  lemma PushedArc(adjacency: Adjacency, from: string, to: string)
    ensures ArcsOf(Pushed(adjacency, from, to)) == ArcsOf(adjacency) + {(from, to)}
  {
  }

  lemma RequiredStep(edges: seq<Edge>, i: nat)
    requires i < |edges|
    ensures RequiredArcs(edges[..i + 1])
      == RequiredArcs(edges[..i]) + if edges[i].NeededToStart() then {(edges[i].from, edges[i].to)} else {}
  {
    assert edges[..i + 1] == edges[..i] + [edges[i]];
  }

  lemma SortedArcs(pushed: Adjacency, adjacency: Adjacency)
    requires adjacency == map id | id in pushed :: Dedup(Sort(pushed[id]))
    ensures ArcsOf(adjacency) == ArcsOf(pushed)
  {
    forall x, y ensures (x, y) in ArcsOf(adjacency) <==> (x, y) in ArcsOf(pushed) {
      if x in pushed {
        SameElems(pushed[x], Sort(pushed[x]));
        assert y in Elems(Dedup(Sort(pushed[x]))) <==> y in Elems(pushed[x]);
      }
    }
  }

  /** The node sets `cycles` runs through, each as a sorted list. */
  function KeysOf(cycles: seq<seq<string>>): set<seq<string>>
  {
    set c | c in cycles :: Sort(c)
  }

  ghost predicate DistinctKeys(cycles: seq<seq<string>>)
  {
    forall i, j | 0 <= i < j < |cycles| :: Sort(cycles[i]) != Sort(cycles[j])
  }

  lemma KeysOfAppend(cycles: seq<seq<string>>, c: seq<string>)
    ensures KeysOf(cycles + [c]) == KeysOf(cycles) + {Sort(c)}
    ensures DistinctKeys(cycles) && Sort(c) !in KeysOf(cycles) ==> DistinctKeys(cycles + [c])
  {
    var all := cycles + [c];
    forall k ensures k in KeysOf(all) <==> k in KeysOf(cycles) + {Sort(c)} {
      if k in KeysOf(cycles) {
        var x :| x in cycles && Sort(x) == k;
        assert x in all;
      }
      if k == Sort(c) {
        assert all[|cycles|] == c && c in all;
      }
    }
  }

  /** Keeps the first of each set of cycles through the same nodes. */
  method FirstOfEach(cycles: seq<seq<string>>) returns (reported: seq<seq<string>>)
    ensures forall c | c in reported :: c in cycles
    ensures KeysOf(reported) == KeysOf(cycles)
    ensures DistinctKeys(reported)
  {
    var seen: set<seq<string>> := {};
    reported := [];
    for i := 0 to |cycles|
      invariant forall c | c in reported :: c in cycles
      invariant seen == KeysOf(reported) == KeysOf(cycles[..i])
      invariant DistinctKeys(reported)
    {
      assert cycles[..i + 1] == cycles[..i] + [cycles[i]];
      KeysOfAppend(cycles[..i], cycles[i]);
      var key := Sort(cycles[i]);
      if key !in seen {
        KeysOfAppend(reported, cycles[i]);
        seen := seen + {key};
        reported := reported + [cycles[i]];
      }
    }
    assert cycles[..|cycles|] == cycles;
  }

  /** Every root searched. */
  method SearchAll(adjacency: Adjacency) returns (cycles: seq<seq<string>>)
    ensures forall c | c in cycles :: IsCycle(ArcsOf(adjacency), c)
    ensures cycles == [] ==> Acyclic(ArcsOf(adjacency))
  {
    var roots := SortedKeys(adjacency);
    var search := new Search(adjacency);
    for i := 0 to |roots|
      invariant search.Valid() && search.stack == [] && search.adjacency == adjacency
      invariant forall j | 0 <= j < i :: roots[j] in search.done
    {
      if roots[i] !in search.done {
        assert roots[i] in Elems(roots);
        search.Walk(roots[i]);
      }
    }
    cycles := search.cycles;
    if cycles == [] {
      ghost var arcs, order := ArcsOf(adjacency), search.finished;
      forall n ensures !Reaches(arcs, n, n) {
        if Reaches(arcs, n, n) {
          ghost var b := ReachesFirst(arcs, n, n);
          assert n in Elems(roots);
          assert n in Elems(order);
          RankedOffCycle(arcs, order, n);
        }
      }
    }
  }

  method SortedKeys(adjacency: Adjacency) returns (roots: seq<string>)
    ensures Elems(roots) == adjacency.Keys && SortedBy(roots, Self)
  {
    roots := SortedElements(adjacency.Keys);
  }

  /** The loops of required edges: none exactly when there is no cycle, each a
      real simple cycle, and no set of nodes twice. */
  method CheckCycles(edges: seq<Edge>) returns (reported: seq<seq<string>>)
    ensures reported == [] <==> Acyclic(RequiredArcs(edges))
    ensures forall c | c in reported :: IsCycle(RequiredArcs(edges), c)
    ensures DistinctKeys(reported)
  {
    var adjacency := BuildAdjacency(edges);
    var cycles := SearchAll(adjacency);
    reported := FirstOfEach(cycles);
    if cycles != [] {
      assert Sort(cycles[0]) in KeysOf(cycles);
    }
    if reported != [] {
      assert reported[0] in reported;
      CycleReachesItself(RequiredArcs(edges), reported[0]);
    }
  }

  /** A graph the cycle check passes starts in order, whatever part of it is
      started: each in-set requirement comes before its dependent. */
  lemma PassingGraphStartsInOrder(edges: seq<Edge>, ids: seq<string>)
    requires Acyclic(RequiredArcs(edges))
    ensures Ranked(ArcsWithin(Elems(ids), edges), StartOrder(ids, edges))
    ensures multiset(StartOrder(ids, edges)) == multiset(ids)
  {
    AcyclicWithin(ArcsWithin(Elems(ids), edges), RequiredArcs(edges));
    StartOrderRanked(ids, edges);
    StartOrderPermutes(ids, edges);
  }
}
