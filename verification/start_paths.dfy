/** The paths around the start run in `src/orchestrator/orchestrate.rs`: what a
    Start button brings up, what a flow switch stops, and what each reports. */
module StartPaths {
  import opened Ordering
  import opened Graph
  import opened StartOrdering
  import opened Closure
  import opened State
  import opened Outcomes
  import opened StartRun
  import opened StartRunTheorems

  // ----- the Start button -----

  /** Running, nobody is acting on it, and not a task. */
  predicate RestartsAlong(c: ContainerInfo)
  {
    c.pendingAction.None? && !c.desired.terminating && c.observed.status == "running"
  }

  ghost function RunningDependents(nodeId: string, edges: seq<Edge>, prior: EnvState): set<string>
  {
    set d | d in OthersReached(Reversed(RequiredArcs(edges)), nodeId) && KeptRunning(d, prior)
  }

  predicate KeptRunning(id: string, prior: EnvState)
  {
    id in prior.containers && RestartsAlong(prior.containers[id])
  }

  method OnlyRunning(ids: seq<string>, prior: EnvState) returns (running: seq<string>)
    requires NoDup(ids)
    ensures NoDup(running)
    ensures Elems(running) == set d | d in ids && KeptRunning(d, prior)
  {
    running := [];
    for i := 0 to |ids|
      invariant Elems(running) == set d | d in ids[..i] && KeptRunning(d, prior)
      invariant NoDup(running)
    {
      var d := ids[i];
      PrefixStep(ids, i);
      assert ids[..i + 1] == ids[..i] + [d];
      if KeptRunning(d, prior) {
        assert d !in Elems(ids[..i]) && d !in Elems(running);
        assert Elems(running + [d]) == Elems(running) + {d};
        running := running + [d];
      }
    }
    assert ids[..|ids|] == ids;
  }

  /** A Start of `nodeId` covers its requirements, itself, and the running
      dependents; on an acyclic graph, each once. */
  method RestartTargets(nodeId: string, edges: seq<Edge>, prior: EnvState) returns (ids: seq<string>)
    ensures Elems(ids) == OthersReached(RequiredArcs(edges), nodeId) + {nodeId} + RunningDependents(nodeId, edges, prior)
    ensures Acyclic(RequiredArcs(edges)) ==> NoDup(ids)
  {
    var requirements := RequirementsOf(nodeId, edges);
    var dependents := DependentsOf(nodeId, edges);
    var running := OnlyRunning(dependents, prior);
    ids := requirements + [nodeId] + running;
    assert Elems(ids) == Elems(requirements) + {nodeId} + Elems(running);
    assert Elems(running) == RunningDependents(nodeId, edges, prior) by {
      assert forall d :: d in dependents <==> d in Elems(dependents);
    }
    if Acyclic(RequiredArcs(edges)) {
      RequirementsAndDependentsDisjoint(edges, nodeId);
      assert forall x | x in requirements :: x in Elems(requirements);
      assert forall x | x in running :: x in Elems(running);
      NoDupConcat(requirements, [nodeId]);
      NoDupConcat(requirements + [nodeId], running);
    }
  }

  /** The node a Start names is recreated, never just restarted in place. */
  lemma ForcedIsRecreated(input: Input, runs: seq<Run>, n: string)
    requires IsRun(input, runs) && input.restart == Some(n) && n in input.targets && n in input.nodes
    requires n in Last(runs).started && input.nodes[n].kind != "task"
    ensures n in Last(runs).recreated
  {
    var k := Place(input, n);
    assert input.VisitsNode(k);
    StepAt(input, runs, k);
    RecordUntilVisited(input, runs, k);
    FinalAfterVisit(input, runs, k);
  }

  /** The records of what was started besides `nodeId`. */
  function OtherRecords(started: seq<string>, containers: map<string, ContainerInfo>, nodeId: string): seq<ContainerInfo>
    requires Elems(started) <= containers.Keys
  {
    if started == [] then
      []
    else
      assert started[0] in Elems(started);
      assert Elems(started[1..]) <= Elems(started);
      (if started[0] != nodeId then [containers[started[0]]] else []) + OtherRecords(started[1..], containers, nodeId)
  }

  lemma {:induction false} OthersAre(started: seq<string>, containers: map<string, ContainerInfo>, nodeId: string)
    requires Elems(started) <= containers.Keys
    requires forall n | n in started :: containers[n].nodeId == n
    ensures forall c ::
      (c in OtherRecords(started, containers, nodeId) <==> c.nodeId in started && c.nodeId != nodeId && c == containers[c.nodeId])
  {
    if started != [] {
      assert started[0] in Elems(started) && Elems(started[1..]) <= Elems(started);
      OthersAre(started[1..], containers, nodeId);
    }
  }

  /** A start of the targets in start order, with answers for each visit. */
  ghost predicate InStartOrder(input: Input)
  {
    input.order == StartOrder(input.targets, input.edges) && input.Answered()
  }

  /** However often a target comes up, what is started has its own record, and only
      targets have new ones. */
  lemma OnlyTargetsChange(input: Input, runs: seq<Run>)
    requires InStartOrder(input) && Follows(input, runs)
    ensures Elems(Last(runs).started) <= Elems(input.targets)
    ensures forall n | n in Last(runs).started :: n in Last(runs).containers && Last(runs).containers[n].nodeId == n
    ensures forall n | n !in input.targets :: Existing(Last(runs).containers, n) == Existing(input.initial.containers, n)
  {
    FollowsRecords(input, runs, |input.order|);
    StartOrderPermutes(input.targets, input.edges);
    SameMembers(input.order, input.targets);
    assert Last(runs) == runs[|input.order|];
  }

  lemma SameMembers(a: seq<string>, b: seq<string>)
    requires Elems(a) == Elems(b)
    ensures forall n :: n in a <==> n in b
  {
    forall n ensures n in a <==> n in b {
      assert n in Elems(a) <==> n in Elems(b);
    }
  }

  ghost predicate RecordsOwn(input: Input, r: Run)
  {
    && (forall n | n in r.started :: n in input.order && n in r.containers && r.containers[n].nodeId == n)
    && (forall n | n !in input.order :: Existing(r.containers, n) == Existing(input.initial.containers, n))
  }

  lemma {:induction false} FollowsRecords(input: Input, runs: seq<Run>, k: nat)
    requires Follows(input, runs) && k <= |input.order|
    ensures RecordsOwn(input, runs[k])
  {
    if k > 0 {
      FollowsRecords(input, runs, k - 1);
      assert StepTaken(input, runs, k - 1) && input.VisitsNode(k - 1);
      VisitShape(Decide(input, runs[k - 1], k - 1), input.nodes[input.order[k - 1]], input.answers[k - 1], runs[k - 1]);
      RecordsStep(input, runs[k - 1], runs[k], input.order[k - 1]);
    }
  }

  lemma RecordsStep(input: Input, r: Run, s: Run, id: string)
    requires RecordsOwn(input, r) && Stepped(r, s, id) && id in input.order
    ensures RecordsOwn(input, s)
  {
  }

  /** `Ok` with its fresh record exactly when the node was started; every
      started node has a record to hand back. */
  method RestartNode(input: Input, nodeId: string)
    returns (node: Result<ContainerInfo, Option<seq<Line>>>, others: seq<ContainerInfo>, ghost runs: seq<Run>)
    requires InStartOrder(input) && input.restart == Some(nodeId)
    ensures Follows(input, runs) && (NoDup(input.targets) ==> IsRun(input, runs))
    ensures Elems(Last(runs).started) <= Last(runs).containers.Keys
    ensures node.Ok? <==> nodeId in Last(runs).started
    ensures node.Ok? ==> nodeId in Last(runs).containers && node.value == Last(runs).containers[nodeId]
    ensures node.Err? && node.error.None? ==> Last(runs).failed == map[]
    ensures node.Ok? ==> nodeId in input.targets && node.value.nodeId == nodeId
    ensures forall c | c in others :: c.nodeId in input.targets && c.nodeId != nodeId
    ensures others == OtherRecords(Last(runs).started, Last(runs).containers, nodeId)
  {
    var containers, outcomes, started;
    containers, outcomes, started, runs := BringUp(input);
    OnlyTargetsChange(input, runs);
    assert forall n | n in started :: n in Elems(started) && n in Elems(input.targets);
    others := OtherRecords(started, containers, nodeId);
    OthersAre(started, containers, nodeId);
    if nodeId in started {
      node := Ok(containers[nodeId]);
    } else {
      var report := outcomes.Error();
      node := Err(report);
    }
  }

  // ----- a flow or a first start -----

  /** What is recorded, however it went. */
  function Environment(r: Result<EnvState, (seq<Line>, EnvState)>): EnvState
  {
    match r
    case Ok(env) => env
    case Err((_, env)) => env
  }

  /** Fails exactly when a node failed; what did come up is in the state either way. */
  method EnsureRunning(input: Input) returns (r: Result<EnvState, (seq<Line>, EnvState)>, ghost runs: seq<Run>)
    requires InStartOrder(input)
    ensures Follows(input, runs) && (NoDup(input.targets) ==> IsRun(input, runs))
    ensures r.Ok? <==> Last(runs).failed == map[]
    ensures Environment(r) == input.initial.(containers := Last(runs).containers)
    ensures r.Err? ==> r.error.0 != [] && forall l | l in r.error.0 :: Reports(l, Last(runs).failed, Last(runs).blocked)
    ensures var after := Environment(r);
      forall n | n !in input.targets :: Existing(after.containers, n) == Existing(input.initial.containers, n)
  {
    var containers, outcomes, started;
    containers, outcomes, started, runs := BringUp(input);
    OnlyTargetsChange(input, runs);
    assert forall n | n in started :: n in Elems(started) && n in Elems(input.targets);
    var state := input.initial.(containers := containers);
    var report := outcomes.Error();
    match report {
      case None => r := Ok(state);
      case Some(lines) => r := Err((lines, state));
    }
  }

  /** From nothing, on an acyclic graph, success means every target came up. */
  lemma SuccessStartsEverything(input: Input, runs: seq<Run>)
    requires IsRun(input, runs) && Acyclic(input.Within()) && FreshStart(input, runs)
    requires Last(runs).failed == map[]
    ensures Elems(Last(runs).started) == Elems(input.targets)
  {
    BlockedAreTheDependents(input, runs);
  }

  // ----- leaving what is outside the flow -----

  ghost function RunningOutside(keep: seq<string>, containers: map<string, ContainerInfo>): set<string>
  {
    set n | n in containers && containers[n].observed.status == "running" && n !in keep
  }

  function Reverse(s: seq<string>): seq<string>
  {
    seq(|s|, i requires 0 <= i < |s| => s[|s| - 1 - i])
  }

  ghost predicate IsStopOrder(order: seq<string>, outside: seq<string>, edges: seq<Edge>)
  {
    order == Reverse(StartOrder(outside, edges))
  }

  /** The nodes of the records that run outside the flow. */
  ghost function NodesOutside(keep: seq<string>, containers: map<string, ContainerInfo>): set<string>
  {
    set n | n in containers && containers[n].observed.status == "running" && containers[n].nodeId !in keep :: containers[n].nodeId
  }

  /** What a switch stops: everything running outside the flow, in reverse start
      order; each once when every record is filed under its own node. */
  method StopOrder(edges: seq<Edge>, keep: seq<string>, state: EnvState) returns (order: seq<string>)
    ensures Elems(order) == NodesOutside(keep, state.containers)
    ensures exists outside :: IsStopOrder(order, outside, edges) && (state.Keyed() ==> NoDup(outside))
    ensures state.Keyed() ==> NoDup(order) && Elems(order) == RunningOutside(keep, state.containers)
  {
    var ids := SortedElements(state.containers.Keys);
    var outside: seq<string> := [];
    for i := 0 to |ids|
      invariant Elems(outside) == OutsideAmong(keep, state.containers, ids[..i])
      invariant state.Keyed() ==> NoDup(outside) && forall n | n in outside :: n in ids[..i]
    {
      PrefixStep(ids, i);
      assert ids[i] in Elems(ids);
      var c := state.containers[ids[i]];
      OutsideStep(keep, state.containers, ids, i);
      if c.observed.status == "running" && c.nodeId !in keep {
        assert state.Keyed() ==> c.nodeId !in outside;
        assert state.Keyed() ==> NoDup(outside + [c.nodeId]);
        assert Elems(outside + [c.nodeId]) == Elems(outside) + {c.nodeId};
        outside := outside + [c.nodeId];
      }
    }
    assert ids[..|ids|] == ids;
    assert forall n :: n in ids <==> n in Elems(ids);
    var forward := TopologicalStartOrder(outside, edges);
    StartOrderPermutes(outside, edges);
    order := Reverse(forward);
    ReverseKeeps(forward);
    assert IsStopOrder(order, outside, edges);
  }

  ghost function OutsideAmong(keep: seq<string>, containers: map<string, ContainerInfo>, ids: seq<string>): set<string>
  {
    set n | n in ids && n in containers && containers[n].observed.status == "running" && containers[n].nodeId !in keep :: containers[n].nodeId
  }

  lemma OutsideStep(keep: seq<string>, containers: map<string, ContainerInfo>, ids: seq<string>, i: nat)
    requires i < |ids| && ids[i] in containers
    ensures var c := containers[ids[i]];
      OutsideAmong(keep, containers, ids[..i + 1]) == OutsideAmong(keep, containers, ids[..i])
        + (if c.observed.status == "running" && c.nodeId !in keep then {c.nodeId} else {})
  {
    assert ids[..i + 1] == ids[..i] + [ids[i]];
  }

  lemma ReverseKeeps(s: seq<string>)
    ensures Elems(Reverse(s)) == Elems(s)
    ensures NoDup(s) ==> NoDup(Reverse(s))
  {
    forall x | x in s ensures x in Reverse(s) {
      var i :| 0 <= i < |s| && s[i] == x;
      assert Reverse(s)[|s| - 1 - i] == x;
    }
  }

  /** Without a cycle a switch stops dependents before what they need. */
  lemma DependentsStopFirst(outside: seq<string>, edges: seq<Edge>, i: nat, j: nat)
    requires NoDup(outside) && Acyclic(ArcsWithin(Elems(outside), edges))
    requires var order := Reverse(StartOrder(outside, edges));
      i < |order| && j < |order| && (order[i], order[j]) in ArcsWithin(Elems(outside), edges)
    ensures i < j
  {
    var forward := StartOrder(outside, edges);
    StartOrderRanked(outside, edges);
    StartOrderPermutes(outside, edges);
    var k := |forward| - 1 - i;
    assert forward[|forward| - 1 - j] in forward[..k];
    var m :| 0 <= m < k && forward[..k][m] == forward[|forward| - 1 - j];
    assert forward[m] == forward[|forward| - 1 - j];
  }

  /** Best effort: what stops is recorded as Docker left it, what doesn't keeps
      its record, and nothing else is touched. */
  method StopOutside(outside: seq<string>, containers: map<string, ContainerInfo>, results: seq<Result<ContainerInfo, string>>)
    returns (after: map<string, ContainerInfo>)
    requires NoDup(outside) && |results| == |outside|
    requires forall i | 0 <= i < |outside| :: outside[i] in containers
    ensures after.Keys == containers.Keys
    ensures forall n | n in containers && n !in outside :: after[n] == containers[n]
    ensures forall i | 0 <= i < |outside| ::
      after[outside[i]] == (if results[i].Ok? then results[i].value else containers[outside[i]])
  {
    after := containers;
    for k := 0 to |outside|
      invariant after.Keys == containers.Keys
      invariant forall n | n in containers && n !in outside[..k] :: after[n] == containers[n]
      invariant forall i | 0 <= i < k ::
        after[outside[i]] == (if results[i].Ok? then results[i].value else containers[outside[i]])
    {
      assert outside[k] in Elems(outside);
      PrefixStep(outside, k);
      assert outside[..k + 1] == outside[..k] + [outside[k]];
      if results[k].Ok? {
        after := after[outside[k] := results[k].value];
      }
    }
    assert outside[..|outside|] == outside;
  }

  // ----- switching to a flow -----

  /** The records once what runs outside the flow was stopped, as far as that worked. */
  function Stopped(containers: map<string, ContainerInfo>, keep: seq<string>, stops: string -> Result<ContainerInfo, string>): map<string, ContainerInfo>
  {
    map n | n in containers ::
      if containers[n].observed.status == "running" && n !in keep && stops(n).Ok? then stops(n).value else containers[n]
  }

  /** A switch to a flow, stops and starts: outside it every running container was
      asked to stop and is recorded as that left it; the targets start from their
      records as they were; nothing else changes. */
  method SwitchFlow(input: Input, stops: string -> Result<ContainerInfo, string>)
    returns (r: Result<EnvState, (seq<Line>, EnvState)>, ghost then': Input, ghost runs: seq<Run>)
    requires InStartOrder(input) && input.initial.Keyed()
    ensures then' == input.(initial := input.initial.(containers := Stopped(input.initial.containers, input.targets, stops)))
    ensures Follows(then', runs) && (NoDup(input.targets) ==> IsRun(then', runs))
    ensures r.Ok? <==> Last(runs).failed == map[]
    ensures var after := Environment(r);
      && after.containers == Last(runs).containers
      && (forall n | n !in input.targets ::
            Existing(after.containers, n) == Existing(Stopped(input.initial.containers, input.targets, stops), n))
      && (forall n | n in input.targets ::
            Existing(Stopped(input.initial.containers, input.targets, stops), n) == Existing(input.initial.containers, n))
    ensures (forall n :: StopsFor(stops, n)) ==>
      var after := Environment(r); RunningOutside(input.targets, after.containers) == {}
  {
    var order := StopOrder(input.edges, input.targets, input.initial);
    var results := seq(|order|, i requires 0 <= i < |order| => stops(order[i]));
    assert forall i | 0 <= i < |order| :: order[i] in Elems(order);
    var containers := StopOutside(order, input.initial.containers, results);
    StoppedInOrder(input.initial.containers, input.targets, stops, order, containers);
    StartsFrom(input, containers);
    StoppedOutside(input.initial.containers, input.targets, stops);
    then' := input.(initial := input.initial.(containers := containers));
    r, runs := EnsureRunning(input.(initial := input.initial.(containers := containers)));
    if forall n :: StopsFor(stops, n) {
      NothingRunsOutside(input.initial.containers, input.targets, stops, Last(runs).containers);
    }
  }

  /** The stop of `n` works, and leaves it down. */
  predicate StopsFor(stops: string -> Result<ContainerInfo, string>, n: string)
  {
    stops(n).Ok? && stops(n).value.observed.status != "running"
  }

  lemma StartsFrom(input: Input, containers: map<string, ContainerInfo>)
    requires InStartOrder(input)
    ensures InStartOrder(input.(initial := input.initial.(containers := containers)))
  {
    var run := input.(initial := input.initial.(containers := containers));
    forall k: nat | k < |run.order| ensures run.VisitsNode(k) {
      assert input.VisitsNode(k);
    }
  }

  lemma StoppedOutside(containers: map<string, ContainerInfo>, keep: seq<string>, stops: string -> Result<ContainerInfo, string>)
    ensures forall n | n in keep :: Existing(Stopped(containers, keep, stops), n) == Existing(containers, n)
  {
  }

  lemma NothingRunsOutside(containers: map<string, ContainerInfo>, keep: seq<string>, stops: string -> Result<ContainerInfo, string>,
                           after: map<string, ContainerInfo>)
    requires forall n :: StopsFor(stops, n)
    requires forall n | n !in keep :: Existing(after, n) == Existing(Stopped(containers, keep, stops), n)
    ensures RunningOutside(keep, after) == {}
  {
    forall n ensures n !in RunningOutside(keep, after) {
      assert StopsFor(stops, n);
      if n !in keep {
        assert Existing(after, n) == Existing(Stopped(containers, keep, stops), n);
      }
    }
  }

  lemma StoppedInOrder(containers: map<string, ContainerInfo>, keep: seq<string>, stops: string -> Result<ContainerInfo, string>,
                       order: seq<string>, after: map<string, ContainerInfo>)
    requires after.Keys == containers.Keys && Elems(order) == RunningOutside(keep, containers)
    requires forall n | n in containers && n !in order :: after[n] == containers[n]
    requires forall i | 0 <= i < |order| :: order[i] in containers
    requires forall i | 0 <= i < |order| ::
      after[order[i]] == if stops(order[i]).Ok? then stops(order[i]).value else containers[order[i]]
    ensures after == Stopped(containers, keep, stops)
  {
    forall n | n in containers ensures after[n] == Stopped(containers, keep, stops)[n] {
      assert n in order <==> n in Elems(order);
      if n in order {
        var i :| 0 <= i < |order| && order[i] == n;
      }
    }
  }
}
