/** `StartOutcomes` of `src/orchestrator/order.rs`: what failed, and what a
    failure blocked. */
module Outcomes {
  import opened Ordering
  import opened Graph
  import opened State

  ghost predicate IsLeast(x: string, s: set<string>)
  {
    x in s && forall y | y in s :: Le(x, y)
  }

  lemma {:induction false} LeastExists(s: set<string>) returns (x: string)
    requires s != {}
    ensures IsLeast(x, s)
  {
    x :| x in s;
    var rest := s - {x};
    if rest == {} {
      assert s == {x};
      LeTotal(x, x);
    } else {
      var y := LeastExists(rest);
      LeTotal(x, y);
      LeTotal(x, x);
      if Le(x, y) {
        forall z | z in rest ensures Le(x, z) {
          LeTransitive(x, y, z);
        }
      } else {
        x := y;
      }
    }
  }

  ghost function Least(s: set<string>): (x: string)
    requires s != {}
    ensures IsLeast(x, s)
  {
    assert exists x :: IsLeast(x, s) by {
      var x := LeastExists(s);
    }
    var x :| IsLeast(x, s);
    x
  }

  lemma LeastUnique(x: string, s: set<string>)
    requires IsLeast(x, s)
    ensures x == Least(s)
  {
    LeAntisymmetric(x, Least(s));
  }

  /** The root failures standing behind `id`'s in-set requirements. */
  ghost function Causes(arcs: Arcs, failed: map<string, string>, blocked: map<string, string>, id: string): set<string>
  {
    (set a | a in arcs && a.0 == id && a.1 in failed :: a.1)
    + (set a | a in arcs && a.0 == id && a.1 !in failed && a.1 in blocked :: blocked[a.1])
  }

  ghost function BlockedBy(arcs: Arcs, failed: map<string, string>, blocked: map<string, string>, id: string): Option<string>
  {
    var causes := Causes(arcs, failed, blocked, id);
    if causes == {} then None else Some(Least(causes))
  }

  lemma RequirementCauses(arcs: Arcs, failed: map<string, string>, blocked: map<string, string>, id: string, d: string)
    requires (id, d) in arcs && (d in failed || d in blocked)
    ensures (if d in failed then d else blocked[d]) in Causes(arcs, failed, blocked, id)
  {
    var a := (id, d);
    assert a in arcs && a.0 == id && a.1 == d;
  }

  /** Unblocked means every in-set requirement is neither failed nor blocked. */
  lemma UnblockedRequirements(arcs: Arcs, failed: map<string, string>, blocked: map<string, string>, id: string)
    ensures BlockedBy(arcs, failed, blocked, id) == None
      <==> forall d :: (id, d) in arcs ==> d !in failed && d !in blocked
  {
    var causes := Causes(arcs, failed, blocked, id);
    forall d | (id, d) in arcs && (d in failed || d in blocked) ensures causes != {} {
      RequirementCauses(arcs, failed, blocked, id, d);
    }
    if forall d :: (id, d) in arcs ==> d !in failed && d !in blocked {
      forall a | a in arcs && a.0 == id ensures a.1 !in failed && a.1 !in blocked {
        assert a == (id, a.1);
      }
      assert causes == {};
    }
  }

  /** A cause is a failed requirement, or the cause a blocked requirement has. */
  lemma CauseOf(arcs: Arcs, failed: map<string, string>, blocked: map<string, string>, id: string) returns (d: string)
    requires BlockedBy(arcs, failed, blocked, id).Some?
    ensures (id, d) in arcs
    ensures var cause := BlockedBy(arcs, failed, blocked, id).value;
      (d == cause && d in failed) || (d in blocked && blocked[d] == cause)
  {
    var cause := BlockedBy(arcs, failed, blocked, id).value;
    var causes := Causes(arcs, failed, blocked, id);
    assert cause in causes;
    if cause in (set a | a in arcs && a.0 == id && a.1 in failed :: a.1) {
      var a :| a in arcs && a.0 == id && a.1 in failed && a.1 == cause;
      d := a.1;
      assert a == (id, d);
    } else {
      var a :| a in arcs && a.0 == id && a.1 !in failed && a.1 in blocked && blocked[a.1] == cause;
      d := a.1;
      assert a == (id, d);
    }
  }

  /** One line of the error report: a failure and what it blocked. */
  datatype Line = Line(id: string, error: string, victims: seq<string>)

  ghost function Victims(blocked: map<string, string>, root: string): set<string>
  {
    set v | v in blocked && blocked[v] == root
  }

  ghost predicate Reports(l: Line, failed: map<string, string>, blocked: map<string, string>)
  {
    && l.id in failed && l.error == failed[l.id]
    && NoDup(l.victims) && SortedBy(l.victims, Self) && Elems(l.victims) == Victims(blocked, l.id)
  }

  ghost predicate Lists(requirements: map<string, seq<string>>, arcs: Arcs)
  {
    forall id, d :: (id, d) in arcs <==> id in requirements && d in requirements[id]
  }

  method InSetRequirements(ids: seq<string>, edges: seq<Edge>) returns (requirements: map<string, seq<string>>)
    ensures Lists(requirements, ArcsWithin(Elems(ids), edges))
  {
    requirements := map[];
    for i := 0 to |edges|
      invariant Lists(requirements, ArcsWithin(Elems(ids), edges[..i]))
    {
      var e := edges[i];
      ghost var before, after := ArcsWithin(Elems(ids), edges[..i]), ArcsWithin(Elems(ids), edges[..i + 1]);
      assert edges[..i + 1] == edges[..i] + [e];
      if e.NeededToStart() && e.from in ids && e.to in ids {
        assert after == before + {(e.from, e.to)};
        requirements := requirements[e.from :=
          (if e.from in requirements then requirements[e.from] else []) + [e.to]];
      } else {
        assert after == before;
      }
    }
    assert edges[..|edges|] == edges;
  }

  function LineIds(lines: seq<Line>): seq<string>
  {
    seq(|lines|, i requires 0 <= i < |lines| => lines[i].id)
  }

  class StartOutcomes {
    const requirements: map<string, seq<string>>
    ghost const arcs: Arcs
    var failed: map<string, string>
    /** Blocked node to the root failure, not its nearest victim. */
    var blocked: map<string, string>

    ghost predicate Valid()
    {
      Lists(requirements, arcs)
    }

    constructor (ids: seq<string>, edges: seq<Edge>)
      ensures Valid() && arcs == ArcsWithin(Elems(ids), edges)
      ensures failed == map[] && blocked == map[]
    {
      var listed := InSetRequirements(ids, edges);
      requirements := listed;
      arcs := ArcsWithin(Elems(ids), edges);
      failed, blocked := map[], map[];
    }

    /** The first in order of the root causes recorded so far. */
    method BlockedByNow(id: string) returns (cause: Option<string>)
      requires Valid()
      ensures cause == BlockedBy(arcs, failed, blocked, id)
    {
      var deps := if id in requirements then requirements[id] else [];
      var causes: seq<string> := [];
      for i := 0 to |deps|
        invariant Elems(causes) == AllCauses(failed, blocked, deps[..i])
      {
        var dep := deps[i];
        AllCausesStep(failed, blocked, deps, i);
        if dep in failed {
          assert Elems(causes + [dep]) == Elems(causes) + {dep};
          causes := causes + [dep];
        } else if dep in blocked {
          assert Elems(causes + [blocked[dep]]) == Elems(causes) + {blocked[dep]};
          causes := causes + [blocked[dep]];
        }
      }
      assert deps[..|deps|] == deps;
      assert Elems(causes) == Causes(arcs, failed, blocked, id) by {
        CausesListed(arcs, failed, blocked, id, deps);
      }
      var sorted := Sort(causes);
      SameElems(causes, sorted);
      if sorted == [] {
        cause := None;
        assert |causes| == 0 && Elems(causes) == {};
      } else {
        cause := Some(sorted[0]);
        FirstIsLeast(sorted);
        LeastUnique(sorted[0], Causes(arcs, failed, blocked, id));
      }
    }

    method Fail(id: string, error: string)
      modifies this`failed
      ensures failed == old(failed)[id := error]
    {
      failed := failed[id := error];
    }

    method Block(id: string, cause: string)
      modifies this`blocked
      ensures blocked == old(blocked)[id := cause]
    {
      blocked := blocked[id := cause];
    }

    /** One line per failure in id order, each with what it blocked in id
        order; `None` when nothing failed. */
    method Error() returns (report: Option<seq<Line>>)
      ensures report == None <==> failed == map[]
      ensures report.Some? ==>
        && |report.value| == |failed|
        && Elems(LineIds(report.value)) == failed.Keys && SortedBy(LineIds(report.value), Self)
        && forall l | l in report.value :: Reports(l, failed, blocked)
    {
      if failed == map[] {
        return None;
      }
      var ids := SortedElements(failed.Keys);
      NoDupSize(ids);
      var lines: seq<Line> := [];
      for i := 0 to |ids|
        invariant |lines| == i
        invariant forall j | 0 <= j < i :: lines[j].id == ids[j]
        invariant forall l | l in lines :: Reports(l, failed, blocked)
      {
        assert ids[i] in Elems(ids);
        var victims := SortedElements(set v | v in blocked && blocked[v] == ids[i]);
        lines := lines + [Line(ids[i], failed[ids[i]], victims)];
      }
      report := Some(lines);
      assert LineIds(lines) == ids;
    }
  }

  /** The root causes among `deps`. */
  ghost function AllCauses(failed: map<string, string>, blocked: map<string, string>, deps: seq<string>): set<string>
  {
    (set d | d in deps && d in failed) + (set d | d in deps && d !in failed && d in blocked :: blocked[d])
  }

  lemma AllCausesStep(failed: map<string, string>, blocked: map<string, string>, deps: seq<string>, i: nat)
    requires i < |deps|
    ensures AllCauses(failed, blocked, deps[..i + 1]) == AllCauses(failed, blocked, deps[..i])
      + (if deps[i] in failed then {deps[i]} else if deps[i] in blocked then {blocked[deps[i]]} else {})
  {
    assert deps[..i + 1] == deps[..i] + [deps[i]];
  }

  lemma CausesListed(arcs: Arcs, failed: map<string, string>, blocked: map<string, string>, id: string, deps: seq<string>)
    requires forall d :: (id, d) in arcs <==> d in deps
    ensures Causes(arcs, failed, blocked, id) == AllCauses(failed, blocked, deps)
  {
    var listed := AllCauses(failed, blocked, deps);
    forall c | c in Causes(arcs, failed, blocked, id) ensures c in listed {
      var a :| a in arcs && a.0 == id && ((a.1 in failed && c == a.1) || (a.1 !in failed && a.1 in blocked && c == blocked[a.1]));
      assert a == (id, a.1);
    }
    forall c | c in listed ensures c in Causes(arcs, failed, blocked, id) {
      var d :| d in deps && ((d in failed && c == d) || (d !in failed && d in blocked && c == blocked[d]));
      var a := (id, d);
      assert a in arcs && a.0 == id && a.1 == d;
    }
  }

  lemma FirstIsLeast(sorted: seq<string>)
    requires sorted != [] && SortedBy(sorted, Self)
    ensures IsLeast(sorted[0], Elems(sorted))
  {
    forall y | y in Elems(sorted) ensures Le(sorted[0], y) {
      var i :| 0 <= i < |sorted| && sorted[i] == y;
      LeTotal(y, y);
      if i > 0 {
        assert Le(Self(sorted[0]), Self(sorted[i]));
      }
    }
  }
}
