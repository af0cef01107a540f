/** What every start run guarantees, whatever Docker answers. */
module StartRunTheorems {
  import opened Ordering
  import opened Graph
  import opened State
  import opened Outcomes
  import opened StartRun

  // ----- one visit -----

  /** `s` is `r` after `id` was started or restarted. */
  ghost predicate Brought(r: Run, s: Run, id: string)
  {
    && s.failed == r.failed && s.blocked == r.blocked && s.started == r.started + [id]
    && id in s.containers && s.containers == r.containers[id := s.containers[id]] && s.containers[id].nodeId == id
    && r.bounced <= s.bounced <= r.bounced + {id}
    && r.recreated <= s.recreated <= r.recreated + {id}
    && s.recreated - r.recreated <= s.bounced
  }

  /** `s` is `r` after a visit to `id`: nothing, one outcome for it, or it came up. */
  ghost predicate Stepped(r: Run, s: Run, id: string)
  {
    || s == r
    || (id in s.blocked && s == r.(blocked := r.blocked[id := s.blocked[id]]))
    || (id in s.failed && s == r.(failed := r.failed[id := s.failed[id]]))
    || Brought(r, s, id)
  }

  /** The `k`-th visit of a run. */
  lemma StepAt(input: Input, runs: seq<Run>, k: nat)
    requires IsRun(input, runs) && k < |input.order|
    ensures runs[k + 1] == Visit(input, runs[k], k)
    ensures Stepped(runs[k], runs[k + 1], input.order[k])
  {
    assert StepTaken(input, runs, k);
    assert input.VisitsNode(k);
    VisitShape(Decide(input, runs[k], k), input.nodes[input.order[k]], input.answers[k], runs[k]);
  }

  lemma VisitShape(d: Decision, node: Node, ans: Answers, r: Run)
    requires ans.IsAbout(node.id)
    ensures Stepped(r, Carry(d, node, ans, r), node.id)
  {
    var s := Carry(d, node, ans, r);
    if (d.RestartInPlace? && ans.restart.Ok?) || (d.Recreate? && ans.start.Ok?) {
      assert Brought(r, s, node.id);
    }
  }

  /** What a run has kept once it has visited `visited`. */
  ghost predicate Kept(initial: map<string, ContainerInfo>, visited: set<string>, r: Run)
  {
    && Elems(r.started) <= visited && r.failed.Keys <= visited && r.blocked.Keys <= visited
    && r.recreated <= r.bounced <= Elems(r.started)
    && Elems(r.started) !! r.failed.Keys && Elems(r.started) !! r.blocked.Keys && r.failed.Keys !! r.blocked.Keys
    && (forall n | n !in r.started :: Existing(r.containers, n) == Existing(initial, n))
    && (forall n | n in r.started :: n in r.containers && r.containers[n].nodeId == n)
  }

  lemma KeptBrought(initial: map<string, ContainerInfo>, visited: set<string>, r: Run, s: Run, id: string)
    requires Kept(initial, visited, r) && id !in visited && Brought(r, s, id)
    ensures Kept(initial, visited + {id}, s)
  {
    assert Elems(s.started) == Elems(r.started) + {id};
    forall n ensures n in s.started <==> n == id || n in r.started {
      assert n in s.started <==> n in Elems(s.started);
    }
  }

  lemma KeptStepped(initial: map<string, ContainerInfo>, visited: set<string>, r: Run, s: Run, id: string)
    requires Kept(initial, visited, r) && id !in visited && Stepped(r, s, id)
    ensures Kept(initial, visited + {id}, s)
  {
    if Brought(r, s, id) {
      KeptBrought(initial, visited, r, s, id);
    }
  }

  /** After any number of visits: each visited node was started, failed,
      blocked or left, never two of these; bounced nodes were started; and what
      was not started keeps the record it had. */
  lemma {:induction false} RunKeeps(input: Input, runs: seq<Run>, k: nat)
    requires IsRun(input, runs) && k <= |input.order|
    ensures Kept(input.initial.containers, Elems(input.order[..k]), runs[k])
  {
    if k > 0 {
      RunKeeps(input, runs, k - 1);
      PrefixStep(input.order, k - 1);
      StepAt(input, runs, k - 1);
      KeptStepped(input.initial.containers, Elems(input.order[..k - 1]), runs[k - 1], runs[k], input.order[k - 1]);
    }
  }

  /** `s` has everything `r` recorded, unchanged. */
  ghost predicate Extends(r: Run, s: Run)
  {
    && r.failed.Keys <= s.failed.Keys && r.blocked.Keys <= s.blocked.Keys
    && (forall n | n in r.blocked :: s.blocked[n] == r.blocked[n])
    && r.recreated <= s.recreated && r.bounced <= s.bounced
    && r.started <= s.started
  }

  /** `r` and `s` say the same about `n`. */
  ghost predicate Agree(r: Run, s: Run, n: string)
  {
    && (n in r.failed <==> n in s.failed)
    && (n in r.blocked <==> n in s.blocked)
    && (n in r.recreated <==> n in s.recreated)
    && (n in r.bounced <==> n in s.bounced)
    && (n in r.started <==> n in s.started)
  }

  /** They differ at most about `id`. */
  ghost predicate AgreeElsewhere(r: Run, s: Run, id: string)
  {
    forall n :: n != id ==> Agree(r, s, n)
  }

  lemma StepIsFinal(initial: map<string, ContainerInfo>, visited: set<string>, r: Run, s: Run, id: string)
    requires Kept(initial, visited, r) && id !in visited && Stepped(r, s, id)
    ensures Extends(r, s)
    ensures AgreeElsewhere(r, s, id)
  {
    if Brought(r, s, id) {
      forall n | n != id ensures n in s.started <==> n in r.started {
      }
    }
  }

  lemma ExtendsTransitive(r: Run, s: Run, t: Run)
    requires Extends(r, s) && Extends(s, t)
    ensures Extends(r, t)
  {
  }

  /** A visit adds to what is recorded, and only about its own node. */
  lemma StepAdds(input: Input, runs: seq<Run>, k: nat)
    requires IsRun(input, runs) && k < |input.order|
    ensures input.order[k] !in Elems(input.order[..k])
    ensures Extends(runs[k], runs[k + 1])
    ensures AgreeElsewhere(runs[k], runs[k + 1], input.order[k])
  {
    StepAt(input, runs, k);
    RunKeeps(input, runs, k);
    PrefixStep(input.order, k);
    StepIsFinal(input.initial.containers, Elems(input.order[..k]), runs[k], runs[k + 1], input.order[k]);
  }

  /** Outcomes are final: later visits record nothing more about a visited node. */
  lemma {:induction false} OutcomesAreFinal(input: Input, runs: seq<Run>, j: nat, k: nat)
    requires IsRun(input, runs) && j <= k <= |input.order|
    ensures Extends(runs[j], runs[k])
    ensures forall n | n in Elems(input.order[..j]) :: Agree(runs[j], runs[k], n)
    decreases k
  {
    if j < k {
      OutcomesAreFinal(input, runs, j, k - 1);
      StepAdds(input, runs, k - 1);
      ExtendsTransitive(runs[j], runs[k - 1], runs[k]);
      forall n | n in Elems(input.order[..j]) ensures Agree(runs[j], runs[k], n) {
        assert n in Elems(input.order[..k - 1]);
        assert Agree(runs[j], runs[k - 1], n) && Agree(runs[k - 1], runs[k], n);
      }
    }
  }

  /** What a visit records about its node is what the run ends with. */
  lemma FinalAfterVisit(input: Input, runs: seq<Run>, k: nat)
    requires IsRun(input, runs) && k < |input.order|
    ensures Agree(runs[k + 1], Last(runs), input.order[k])
  {
    PrefixStep(input.order, k);
    OutcomesAreFinal(input, runs, k + 1, |input.order|);
  }

  lemma Place(input: Input, n: string) returns (k: nat)
    requires input.Valid() && n in input.targets
    ensures k < |input.order| && input.order[k] == n
  {
    assert n in Elems(input.order);
    k :| 0 <= k < |input.order| && input.order[k] == n;
  }

  // ----- failures -----

  /** No node is started or restarted once a direct in-set requirement has
      failed or been blocked, on any graph and for any list of targets. */
  lemma ActsOnlyOnClearRequirements(input: Input, runs: seq<Run>, k: nat, d: string)
    requires Follows(input, runs) && k < |input.order|
    requires Decide(input, runs[k], k).RestartInPlace? || Decide(input, runs[k], k).Recreate?
    requires (input.order[k], d) in input.Within()
    ensures d !in runs[k].failed && d !in runs[k].blocked
  {
    assert input.VisitsNode(k);
    UnblockedRequirements(input.Within(), runs[k].failed, runs[k].blocked, input.order[k]);
  }

  /** An outcome of a start or restart comes from one. */
  lemma ActedOn(input: Input, runs: seq<Run>, k: nat)
    requires IsRun(input, runs) && k < |input.order|
    requires input.order[k] in Last(runs).started || input.order[k] in Last(runs).failed
    ensures Decide(input, runs[k], k).RestartInPlace? || Decide(input, runs[k], k).Recreate?
  {
    assert input.VisitsNode(k);
    StepAt(input, runs, k);
    RunKeeps(input, runs, k);
    PrefixStep(input.order, k);
    FinalAfterVisit(input, runs, k);
    assert input.order[k] !in Elems(runs[k].started);
  }

  /** Without a cycle this holds of the whole run: what was started or tried
      has, in the end, no failed or blocked requirement. */
  lemma NothingStartsBehindAFailure(input: Input, runs: seq<Run>, n: string, d: string)
    requires IsRun(input, runs) && Acyclic(input.Within()) && (n, d) in input.Within()
    requires n in Last(runs).started || n in Last(runs).failed
    ensures d !in Last(runs).failed && d !in Last(runs).blocked
  {
    var k := Place(input, n);
    RequirementVisited(input, k, d);
    OutcomesAreFinal(input, runs, k, |input.order|);
    assert Agree(runs[k], Last(runs), d);
    ActedOn(input, runs, k);
    ActsOnlyOnClearRequirements(input, runs, k, d);
  }

  /** Without a cycle, a requirement is visited before its dependent. */
  lemma RequirementVisited(input: Input, k: nat, d: string)
    requires input.Valid() && Acyclic(input.Within())
    requires k < |input.order| && (input.order[k], d) in input.Within()
    ensures d in Elems(input.order[..k])
  {
  }

  /** `p` leads from blocked `n` through nodes blocked by the same cause to
      that cause, which failed. */
  ghost predicate BlockedVia(arcs: Arcs, r: Run, n: string, p: seq<string>)
    requires n in r.blocked
  {
    && WalkFromTo(arcs, p, n, r.blocked[n])
    && r.blocked[n] in r.failed
    && forall i | 0 <= i < |p| - 1 :: p[i] in r.blocked && r.blocked[p[i]] == r.blocked[n]
  }

  lemma BlockedViaExtends(arcs: Arcs, r: Run, s: Run, n: string, p: seq<string>)
    requires n in r.blocked && BlockedVia(arcs, r, n, p) && Extends(r, s)
    ensures BlockedVia(arcs, s, n, p)
  {
  }

  lemma BlockedViaRequirement(arcs: Arcs, r: Run, n: string, d: string, q: seq<string>)
    requires (n, d) in arcs && n in r.blocked && d in r.blocked && r.blocked[d] == r.blocked[n]
    requires BlockedVia(arcs, r, d, q)
    ensures BlockedVia(arcs, r, n, [n] + q)
  {
    var p := [n] + q;
    forall i | 0 <= i < |p| - 1
      ensures (p[i], p[i + 1]) in arcs && p[i] in r.blocked && r.blocked[p[i]] == r.blocked[n]
    {
      if i > 0 {
        assert p[i] == q[i - 1] && p[i + 1] == q[i];
        assert (q[i - 1], q[i - 1 + 1]) in arcs;
      }
    }
  }

  /** `n` is blocked by `root` over its requirement `d`. */
  ghost predicate BlockedOver(arcs: Arcs, r: Run, n: string, root: string, d: string)
  {
    (n, d) in arcs && ((d == root && d in r.failed) || (d in r.blocked && r.blocked[d] == root))
  }

  /** What `s` blocks beyond `r`, it blocks over a requirement. */
  ghost predicate BlocksSoundly(arcs: Arcs, r: Run, s: Run)
  {
    && Extends(r, s)
    && forall n | n in s.blocked && n !in r.blocked :: exists d :: BlockedOver(arcs, r, n, s.blocked[n], d)
  }

  lemma BlocksSoundlyAt(input: Input, runs: seq<Run>, k: nat)
    requires IsRun(input, runs) && k < |input.order|
    ensures BlocksSoundly(input.Within(), runs[k], runs[k + 1])
  {
    assert input.VisitsNode(k);
    StepAt(input, runs, k);
    StepAdds(input, runs, k);
    var r, s := runs[k], runs[k + 1];
    forall n | n in s.blocked && n !in r.blocked ensures exists d :: BlockedOver(input.Within(), r, n, s.blocked[n], d) {
      assert n == input.order[k];
      var d := CauseOf(input.Within(), r.failed, r.blocked, n);
      assert BlockedOver(input.Within(), r, n, s.blocked[n], d);
    }
  }

  lemma NewlyBlockedVia(arcs: Arcs, r: Run, s: Run, n: string, d: string, q: seq<string>) returns (p: seq<string>)
    requires Extends(r, s) && n in s.blocked && BlockedOver(arcs, r, n, s.blocked[n], d)
    requires d in r.blocked ==> BlockedVia(arcs, r, d, q)
    ensures BlockedVia(arcs, s, n, p)
  {
    if d == s.blocked[n] && d in r.failed {
      p := [n, d];
    } else {
      BlockedViaExtends(arcs, r, s, d, q);
      BlockedViaRequirement(arcs, s, n, d, q);
      p := [n] + q;
    }
  }

  lemma {:induction false} BlockedViaChain(arcs: Arcs, runs: seq<Run>, k: nat, n: string) returns (p: seq<string>)
    requires k < |runs| && runs[0].blocked == map[]
    requires forall j | 0 < j < |runs| :: BlocksSoundly(arcs, runs[j - 1], runs[j])
    requires n in runs[k].blocked
    ensures BlockedVia(arcs, runs[k], n, p)
    decreases k
  {
    var r, s := runs[k - 1], runs[k];
    assert BlocksSoundly(arcs, r, s);
    if n in r.blocked {
      p := BlockedViaChain(arcs, runs, k - 1, n);
      BlockedViaExtends(arcs, r, s, n, p);
    } else {
      var d :| BlockedOver(arcs, r, n, s.blocked[n], d);
      var q: seq<string> := [];
      if d in r.blocked {
        q := BlockedViaChain(arcs, runs, k - 1, d);
      }
      p := NewlyBlockedVia(arcs, r, s, n, d, q);
    }
  }

  /** Every blocked node's recorded cause really failed, and blocked nodes lead
      to it along required edges. */
  lemma BlockedHasRealCause(input: Input, runs: seq<Run>, k: nat, n: string) returns (p: seq<string>)
    requires IsRun(input, runs) && k <= |input.order|
    requires n in runs[k].blocked
    ensures BlockedVia(input.Within(), runs[k], n, p)
  {
    forall j | 0 < j < |runs| ensures BlocksSoundly(input.Within(), runs[j - 1], runs[j]) {
      BlocksSoundlyAt(input, runs, j - 1);
    }
    p := BlockedViaChain(input.Within(), runs, k, n);
  }

  /** Every target was down and none was skipped as done or seeded. */
  ghost predicate FreshStart(input: Input, runs: seq<Run>)
    requires IsRun(input, runs)
  {
    forall k: nat :: k < |input.order| ==> !input.answers[k].alive && !Decide(input, runs[k], k).LeaveAlone?
  }

  /** From nothing, on an acyclic graph: every target is started, failed or
      blocked, and the blocked ones are exactly the transitive dependents of
      the failed ones. */
  lemma BlockedAreTheDependents(input: Input, runs: seq<Run>)
    requires IsRun(input, runs) && Acyclic(input.Within()) && FreshStart(input, runs)
    ensures forall n :: n in Last(runs).blocked <==>
      n in input.targets && exists f :: f in Last(runs).failed && Reaches(input.Within(), n, f)
    ensures Elems(input.targets) == Elems(Last(runs).started) + Last(runs).failed.Keys + Last(runs).blocked.Keys
  {
    var r := Last(runs);
    RunKeeps(input, runs, |input.order|);
    assert input.order[..|input.order|] == input.order;
    forall n | n in r.blocked
      ensures n in input.targets && exists f :: f in r.failed && Reaches(input.Within(), n, f)
    {
      assert n in Elems(input.targets);
      var p := BlockedHasRealCause(input, runs, |input.order|, n);
      assert r.blocked[n] in r.failed && Reaches(input.Within(), n, r.blocked[n]);
    }
    forall n, f | n in input.targets && f in r.failed && Reaches(input.Within(), n, f) ensures n in r.blocked {
      var k := Place(input, n);
      DependentIsBlocked(input, runs, k, f);
    }
    forall n | n in input.targets ensures n in r.started || n in r.failed || n in r.blocked {
      var k := Place(input, n);
      FreshVisit(input, runs, k);
    }
  }

  /** From nothing, every visit records an outcome. */
  lemma FreshVisit(input: Input, runs: seq<Run>, k: nat)
    requires IsRun(input, runs) && FreshStart(input, runs) && k < |input.order|
    ensures var n, r := input.order[k], runs[k];
      && (n in Last(runs).started || n in Last(runs).failed || n in Last(runs).blocked)
      && (BlockedBy(input.Within(), r.failed, r.blocked, n).Some? ==> n in Last(runs).blocked)
  {
    assert input.VisitsNode(k);
    assert !input.answers[k].alive && !Decide(input, runs[k], k).LeaveAlone?;
    StepAt(input, runs, k);
    FinalAfterVisit(input, runs, k);
  }

  lemma {:induction false} DependentIsBlocked(input: Input, runs: seq<Run>, k: nat, f: string)
    requires IsRun(input, runs) && Acyclic(input.Within()) && FreshStart(input, runs)
    requires k < |input.order| && f in Last(runs).failed && Reaches(input.Within(), input.order[k], f)
    ensures input.order[k] in Last(runs).blocked
    decreases k
  {
    var n, r := input.order[k], runs[k];
    var d := ReachesFirst(input.Within(), n, f);
    RequirementVisited(input, k, d);
    if d != f {
      var j :| 0 <= j < k && input.order[..k][j] == d;
      DependentIsBlocked(input, runs, j, f);
    }
    OutcomesAreFinal(input, runs, k, |input.order|);
    assert Agree(r, Last(runs), d);
    UnblockedRequirements(input.Within(), r.failed, r.blocked, n);
    FreshVisit(input, runs, k);
  }

  /** Every blocked node is on the error report, under one failure. */
  lemma EveryVictimIsReported(input: Input, runs: seq<Run>, v: string)
    requires IsRun(input, runs) && v in Last(runs).blocked
    ensures exists f :: f in Last(runs).failed && v in Victims(Last(runs).blocked, f)
    ensures forall f, g :: v in Victims(Last(runs).blocked, f) && v in Victims(Last(runs).blocked, g) ==> f == g
  {
    var p := BlockedHasRealCause(input, runs, |input.order|, v);
    assert v in Victims(Last(runs).blocked, Last(runs).blocked[v]);
  }

  // ----- disturbance -----

  /** Until it is visited a node keeps the record it came with. */
  lemma RecordUntilVisited(input: Input, runs: seq<Run>, k: nat)
    requires IsRun(input, runs) && k < |input.order|
    ensures input.order[k] !in runs[k].started
    ensures Existing(runs[k].containers, input.order[k]) == Existing(input.initial.containers, input.order[k])
  {
    RunKeeps(input, runs, k);
    PrefixStep(input.order, k);
    assert input.order[k] !in Elems(runs[k].started);
  }

  /** No other action is in flight on `n` that would make a restart pass it over. */
  ghost predicate Free(input: Input, n: string)
  {
    input.restart.None? || input.restart == Some(n)
      || n !in input.initial.containers || input.initial.containers[n].pendingAction.None?
  }

  /** A service with a bounced requirement is acted on, unless a failure is in the way. */
  lemma DisturbedIsVisited(input: Input, runs: seq<Run>, k: nat, d: string)
    requires IsRun(input, runs) && k < |input.order| && input.order[k] in input.nodes
    requires input.nodes[input.order[k]].kind != "task" && input.nodes[input.order[k]].seeds == []
    requires Free(input, input.order[k])
    requires (input.order[k], d) in RequiredArcs(input.edges) && d in runs[k].bounced
    requires BlockedBy(input.Within(), runs[k].failed, runs[k].blocked, input.order[k]).None?
    ensures input.order[k] in runs[k + 1].bounced || input.order[k] in runs[k + 1].failed
  {
    assert input.VisitsNode(k);
    RecordUntilVisited(input, runs, k);
    StepAt(input, runs, k);
  }

  /** Without a cycle, a bounced requirement reaches every service that needs
      it: the service bounces too, fails, or waits behind another failure. */
  lemma DisturbancePropagates(input: Input, runs: seq<Run>, n: string, d: string)
    requires IsRun(input, runs) && Acyclic(input.Within()) && n in input.targets && n in input.nodes
    requires input.nodes[n].kind != "task" && input.nodes[n].seeds == [] && Free(input, n)
    requires (n, d) in RequiredArcs(input.edges) && d in Last(runs).bounced
    ensures n in Last(runs).bounced || n in Last(runs).failed
      || exists f :: (n, f) in input.Within() && (f in Last(runs).failed || f in Last(runs).blocked)
  {
    var k := Place(input, n);
    BouncedBefore(input, runs, k, d);
    FinalAfterVisit(input, runs, k);
    if BlockedBy(input.Within(), runs[k].failed, runs[k].blocked, n).None? {
      DisturbedIsVisited(input, runs, k, d);
    } else {
      var f := CauseOf(input.Within(), runs[k].failed, runs[k].blocked, n);
      OutcomesAreFinal(input, runs, k, |input.order|);
      assert (n, f) in input.Within() && (f in Last(runs).failed || f in Last(runs).blocked);
    }
  }

  lemma BouncedBefore(input: Input, runs: seq<Run>, k: nat, d: string)
    requires IsRun(input, runs) && Acyclic(input.Within()) && k < |input.order|
    requires (input.order[k], d) in RequiredArcs(input.edges) && d in Last(runs).bounced
    ensures (input.order[k], d) in input.Within() && d in runs[k].bounced
  {
    RunKeeps(input, runs, |input.order|);
    assert input.order[..|input.order|] == input.order;
    assert d in Elems(input.targets) && input.order[k] in Elems(input.order);
    var e :| e in input.edges && e.NeededToStart() && (input.order[k], d) == (e.from, e.to);
    assert (e.from, e.to) in input.Within();
    RequirementVisited(input, k, d);
    OutcomesAreFinal(input, runs, k, |input.order|);
    assert Agree(runs[k], Last(runs), d);
  }

  /** What `s` bounces beyond `r` it recreated, or restarted over a bounced requirement. */
  ghost predicate BouncesSoundly(arcs: Arcs, r: Run, s: Run)
  {
    && Extends(r, s)
    && forall n | n in s.bounced && n !in r.bounced && n !in s.recreated :: exists d :: (n, d) in arcs && d in r.bounced
  }

  lemma BouncesSoundlyAt(input: Input, runs: seq<Run>, k: nat)
    requires IsRun(input, runs) && k < |input.order|
    ensures BouncesSoundly(RequiredArcs(input.edges), runs[k], runs[k + 1])
  {
    assert input.VisitsNode(k);
    StepAt(input, runs, k);
    StepAdds(input, runs, k);
    var r, s := runs[k], runs[k + 1];
    forall n | n in s.bounced && n !in r.bounced && n !in s.recreated
      ensures exists d :: (n, d) in RequiredArcs(input.edges) && d in r.bounced
    {
      assert n == input.order[k] && Decide(input, r, k).RestartInPlace?;
      assert (n, Decide(input, r, k).dep) in RequiredArcs(input.edges);
    }
  }

  /** `p` leads from `n` through bounced nodes to one this run recreated. */
  ghost predicate BouncedVia(arcs: Arcs, r: Run, n: string, p: seq<string>)
  {
    && p != [] && WalkFromTo(arcs, p, n, p[|p| - 1])
    && p[|p| - 1] in r.recreated
    && forall i | 0 <= i < |p| :: p[i] in r.bounced
  }

  lemma BouncedViaRequirement(arcs: Arcs, r: Run, s: Run, n: string, d: string, q: seq<string>)
    requires Extends(r, s) && (n, d) in arcs && n in s.bounced && BouncedVia(arcs, r, d, q)
    ensures BouncedVia(arcs, s, n, [n] + q)
  {
    var p := [n] + q;
    forall i | 0 <= i < |p| - 1 ensures (p[i], p[i + 1]) in arcs {
      if i > 0 {
        assert (q[i - 1], q[i - 1 + 1]) in arcs;
      }
    }
  }

  lemma {:induction false} BouncedViaChain(arcs: Arcs, runs: seq<Run>, k: nat, n: string) returns (p: seq<string>)
    requires k < |runs| && runs[0].bounced == {}
    requires forall j | 0 < j < |runs| :: BouncesSoundly(arcs, runs[j - 1], runs[j])
    requires forall j | 0 <= j < |runs| :: runs[j].recreated <= runs[j].bounced
    requires n in runs[k].bounced && n !in runs[k].recreated
    ensures BouncedVia(arcs, runs[k], n, p)
    decreases k
  {
    var r, s := runs[k - 1], runs[k];
    assert BouncesSoundly(arcs, r, s);
    if n in r.bounced {
      p := BouncedViaChain(arcs, runs, k - 1, n);
    } else {
      var d :| (n, d) in arcs && d in r.bounced;
      if d in r.recreated {
        p := [n, d];
      } else {
        var q := BouncedViaChain(arcs, runs, k - 1, d);
        BouncedViaRequirement(arcs, r, s, n, d, q);
        p := [n] + q;
      }
    }
  }

  /** Each node only restarted in place has a chain of required edges, through
      bounced nodes, down to one recreated in this run. */
  lemma RestartsTraceToARecreation(input: Input, runs: seq<Run>, n: string) returns (p: seq<string>)
    requires IsRun(input, runs) && n in Last(runs).bounced && n !in Last(runs).recreated
    ensures BouncedVia(RequiredArcs(input.edges), Last(runs), n, p)
  {
    forall j | 0 < j < |runs| ensures BouncesSoundly(RequiredArcs(input.edges), runs[j - 1], runs[j]) {
      BouncesSoundlyAt(input, runs, j - 1);
    }
    forall j | 0 <= j < |runs| ensures runs[j].recreated <= runs[j].bounced {
      RunKeeps(input, runs, j);
    }
    p := BouncedViaChain(RequiredArcs(input.edges), runs, |input.order|, n);
  }

  /** Alive, on record, and current as far as this run asks. */
  ghost predicate Current(input: Input, k: nat)
    requires k < |input.order| == |input.answers|
  {
    var n, ans := input.order[k], input.answers[k];
    && ans.alive && n in input.initial.containers
    && (input.restart.Some? || ans.freshHash.None?
        || ans.freshHash.value == input.initial.containers[n].desired.configHash)
  }

  /** A current node whose requirements stayed up is left exactly as it was. */
  lemma CurrentNodesAreLeftAlone(input: Input, runs: seq<Run>, k: nat)
    requires IsRun(input, runs) && k < |input.order|
    requires input.restart != Some(input.order[k]) && Current(input, k)
    requires forall d :: (input.order[k], d) in RequiredArcs(input.edges) ==> d !in Last(runs).bounced
    ensures var n, r := input.order[k], Last(runs);
      && Existing(r.containers, n) == Existing(input.initial.containers, n)
      && n !in r.started && n !in r.failed && n !in r.blocked
  {
    var n := input.order[k];
    OutcomesAreFinal(input, runs, k, |input.order|);
    LeftAloneWhenCurrent(input, runs, k);
    FinalAfterVisit(input, runs, k);
    RunKeeps(input, runs, k);
    PrefixStep(input.order, k);
    RunKeeps(input, runs, |input.order|);
    assert n !in Elems(runs[k].started) && n !in runs[k].started;
  }

  lemma LeftAloneWhenCurrent(input: Input, runs: seq<Run>, k: nat)
    requires IsRun(input, runs) && k < |input.order|
    requires input.restart != Some(input.order[k]) && Current(input, k)
    requires forall d :: (input.order[k], d) in RequiredArcs(input.edges) ==> d !in runs[k].bounced
    ensures runs[k + 1] == runs[k]
  {
    assert input.VisitsNode(k);
    RecordUntilVisited(input, runs, k);
    StepAt(input, runs, k);
    assert Decide(input, runs[k], k).LeaveAlone?;
  }
}
