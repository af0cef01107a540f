/** The dependency graph: edges, walks along the ones a start needs, cycles. */
module Graph {
  import opened Ordering

  datatype Edge = Edge(from: string, to: string, kind: string, required: bool)
  {
    /** The one kind of edge that orders a start and propagates failure. */
    predicate NeededToStart()
    {
      kind == "depends-on" && required
    }
  }

  type Arcs = set<(string, string)>

  /** `from` cannot start without `to`. */
  function RequiredArcs(edges: seq<Edge>): Arcs
  {
    set e | e in edges && e.NeededToStart() :: (e.from, e.to)
  }

  /** The required arcs with both ends in `ids`. */
  function ArcsWithin(ids: set<string>, edges: seq<Edge>): Arcs
  {
    set e | e in edges && e.NeededToStart() && e.from in ids && e.to in ids :: (e.from, e.to)
  }

  function Reversed(arcs: Arcs): Arcs
  {
    set a | a in arcs :: (a.1, a.0)
  }

  ghost predicate IsWalk(arcs: Arcs, p: seq<string>)
  {
    p != [] && forall i :: 0 <= i < |p| - 1 ==> (p[i], p[i + 1]) in arcs
  }

  ghost predicate WalkFromTo(arcs: Arcs, p: seq<string>, a: string, b: string)
  {
    |p| >= 2 && IsWalk(arcs, p) && p[0] == a && p[|p| - 1] == b
  }

  /** `b` lies one or more arcs beyond `a`. */
  ghost predicate Reaches(arcs: Arcs, a: string, b: string)
  {
    exists p :: WalkFromTo(arcs, p, a, b)
  }

  ghost predicate Acyclic(arcs: Arcs)
  {
    forall n :: !Reaches(arcs, n, n)
  }

  /** `n` is on a cycle or leads to one. */
  ghost predicate ReachesCycle(arcs: Arcs, n: string)
  {
    exists c :: (n == c || Reaches(arcs, n, c)) && Reaches(arcs, c, c)
  }

  /** No arc leaves `s`. */
  ghost predicate Closed(arcs: Arcs, s: set<string>)
  {
    forall a | a in arcs :: a.0 in s ==> a.1 in s
  }

  lemma ReachesArc(arcs: Arcs, a: string, b: string)
    requires (a, b) in arcs
    ensures Reaches(arcs, a, b)
  {
    assert WalkFromTo(arcs, [a, b], a, b);
  }

  lemma ReachesTransitive(arcs: Arcs, a: string, b: string, c: string)
    requires Reaches(arcs, a, b) && Reaches(arcs, b, c)
    ensures Reaches(arcs, a, c)
  {
    var p :| WalkFromTo(arcs, p, a, b);
    var q :| WalkFromTo(arcs, q, b, c);
    assert WalkFromTo(arcs, p + q[1..], a, c);
  }

  /** The first step of a walk. */
  lemma ReachesFirst(arcs: Arcs, a: string, c: string) returns (b: string)
    requires Reaches(arcs, a, c)
    ensures (a, b) in arcs && (b == c || Reaches(arcs, b, c))
  {
    var p :| WalkFromTo(arcs, p, a, c);
    b := p[1];
    assert (p[0], p[0 + 1]) in arcs;
    if |p| > 2 {
      var q := p[1..];
      forall i | 0 <= i < |q| - 1 ensures (q[i], q[i + 1]) in arcs {
        assert (p[i + 1], p[i + 1 + 1]) in arcs;
      }
      assert WalkFromTo(arcs, q, b, c);
    }
  }

  lemma ReachesWithin(arcs: Arcs, more: Arcs, a: string, b: string)
    requires arcs <= more && Reaches(arcs, a, b)
    ensures Reaches(more, a, b)
  {
    var p :| WalkFromTo(arcs, p, a, b);
    assert WalkFromTo(more, p, a, b);
  }

  lemma AcyclicWithin(arcs: Arcs, more: Arcs)
    requires arcs <= more && Acyclic(more)
    ensures Acyclic(arcs)
  {
    forall n ensures !Reaches(arcs, n, n) {
      if Reaches(arcs, n, n) {
        ReachesWithin(arcs, more, n, n);
        assert false;
      }
    }
  }

  lemma {:induction false} WalkStays(arcs: Arcs, s: set<string>, p: seq<string>, k: nat)
    requires Closed(arcs, s) && IsWalk(arcs, p) && p[0] in s && k < |p|
    ensures p[k] in s
  {
    if k > 0 {
      WalkStays(arcs, s, p, k - 1);
      assert (p[k - 1], p[k - 1 + 1]) in arcs;
    }
  }

  lemma ReachesStays(arcs: Arcs, s: set<string>, a: string, b: string)
    requires Closed(arcs, s) && a in s && Reaches(arcs, a, b)
    ensures b in s
  {
    var p :| WalkFromTo(arcs, p, a, b);
    WalkStays(arcs, s, p, |p| - 1);
  }

  lemma ReachesReversed(arcs: Arcs, a: string, b: string)
    ensures Reaches(arcs, a, b) <==> Reaches(Reversed(arcs), b, a)
  {
    if Reaches(arcs, a, b) {
      ReachesBackwards(arcs, a, b);
    }
    if Reaches(Reversed(arcs), b, a) {
      ReachesBackwards(Reversed(arcs), b, a);
      assert Reversed(Reversed(arcs)) == arcs by { ReversedTwice(arcs); }
    }
  }

  lemma ReversedTwice(arcs: Arcs)
    ensures Reversed(Reversed(arcs)) == arcs
  {
    forall x ensures x in Reversed(Reversed(arcs)) <==> x in arcs {
      if x in arcs {
        assert (x.1, x.0) in Reversed(arcs);
        assert ((x.1, x.0).1, (x.1, x.0).0) == x;
      }
    }
  }

  lemma ReachesBackwards(arcs: Arcs, a: string, b: string)
    requires Reaches(arcs, a, b)
    ensures Reaches(Reversed(arcs), b, a)
  {
    var p :| WalkFromTo(arcs, p, a, b);
    var q := seq(|p|, i requires 0 <= i < |p| => p[|p| - 1 - i]);
    forall i | 0 <= i < |q| - 1 ensures (q[i], q[i + 1]) in Reversed(arcs) {
      var j := |p| - 2 - i;
      assert (p[j], p[j + 1]) in arcs;
    }
    assert WalkFromTo(Reversed(arcs), q, b, a);
  }

  ghost predicate HasNext(arcs: Arcs, s: set<string>, x: string)
  {
    exists y :: y in s && (x, y) in arcs
  }

  ghost predicate NoDeadEnds(arcs: Arcs, s: set<string>)
  {
    forall x {:trigger HasNext(arcs, s, x)} :: x in s ==> HasNext(arcs, s, x)
  }

  /** A walk of `k` arcs from `n` inside a set where everything has a successor. */
  lemma {:induction false} LongWalk(arcs: Arcs, s: set<string>, n: string, k: nat) returns (p: seq<string>)
    requires n in s
    requires NoDeadEnds(arcs, s)
    ensures |p| == k + 1 && IsWalk(arcs, p) && p[0] == n
    ensures forall x | x in p :: x in s
    decreases k
  {
    if k == 0 {
      p := [n];
    } else {
      assert HasNext(arcs, s, n);
      var y :| y in s && (n, y) in arcs;
      var q := LongWalk(arcs, s, y, k - 1);
      p := [n] + q;
    }
  }

  lemma WalkPart(arcs: Arcs, p: seq<string>, i: nat, j: nat)
    requires IsWalk(arcs, p) && i < j < |p|
    ensures Reaches(arcs, p[i], p[j])
  {
    var q := p[i..j + 1];
    forall k | 0 <= k < |q| - 1 ensures (q[k], q[k + 1]) in arcs {
      assert (p[i + k], p[i + k + 1]) in arcs;
    }
    assert WalkFromTo(arcs, q, p[i], p[j]);
  }

  /** Where nothing is a dead end, everything leads to a cycle. */
  lemma NoDeadEndsCycle(arcs: Arcs, s: set<string>, n: string)
    requires n in s
    requires NoDeadEnds(arcs, s)
    ensures ReachesCycle(arcs, n)
  {
    var p := LongWalk(arcs, s, n, |s|);
    Pigeonhole(p, s);
    var i, j :| 0 <= i < j < |p| && p[i] == p[j];
    WalkPart(arcs, p, i, j);
    assert Reaches(arcs, p[i], p[i]);
    if i > 0 {
      WalkPart(arcs, p, 0, i);
    }
  }

  /** Every arc out of `order[i]` ends before `i`. */
  ghost predicate Ranked(arcs: Arcs, order: seq<string>)
  {
    forall i, b :: 0 <= i < |order| && (order[i], b) in arcs ==> b in order[..i]
  }

  lemma RankedClosed(arcs: Arcs, order: seq<string>)
    requires Ranked(arcs, order)
    ensures Closed(arcs, Elems(order))
  {
    forall a | a in arcs && a.0 in Elems(order) ensures a.1 in Elems(order) {
      var i :| 0 <= i < |order| && order[i] == a.0;
      assert a == (order[i], a.1);
      assert a.1 in order[..i];
    }
  }

  /** Nothing that can be ranked lies on a cycle. */
  lemma {:induction false} RankedOffCycle(arcs: Arcs, order: seq<string>, n: string)
    requires Ranked(arcs, order) && n in order
    ensures !Reaches(arcs, n, n)
  {
    var k := |order| - 1;
    var rest := order[..k];
    assert forall i | 0 <= i < k :: order[..i] == rest[..i];
    if n in rest {
      RankedOffCycle(arcs, rest, n);
    } else if Reaches(arcs, n, n) {
      var b := ReachesFirst(arcs, n, n);
      assert order[k] == n;
      assert b in rest;
      RankedClosed(arcs, rest);
      if b != n {
        ReachesStays(arcs, Elems(rest), b, n);
      }
      assert false;
    }
  }

  lemma RankedNoCycle(arcs: Arcs, order: seq<string>, n: string)
    requires Ranked(arcs, order) && n in order
    ensures !ReachesCycle(arcs, n)
  {
    if ReachesCycle(arcs, n) {
      var c :| (n == c || Reaches(arcs, n, c)) && Reaches(arcs, c, c);
      RankedClosed(arcs, order);
      if n != c {
        ReachesStays(arcs, Elems(order), n, c);
      }
      RankedOffCycle(arcs, order, c);
    }
  }
}
