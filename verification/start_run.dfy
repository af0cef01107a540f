/** `bring_up` of `src/orchestrator/orchestrate.rs`: one start run over the
    targets in order, against whatever Docker answers. */
module StartRun {
  import opened Ordering
  import opened Graph
  import opened StartOrdering
  import opened State
  import opened Outcomes

  datatype Node = Node(id: string, kind: string, runPolicy: Option<string>, migrates: Option<string>, seeds: seq<string>)

  /** What Docker and the resolver answer while one node is visited. */
  datatype Answers = Answers(
    alreadySeeded: bool,
    alive: bool,
    freshHash: Option<string>,
    restart: Result<ContainerInfo, string>,
    start: Result<ContainerInfo, string>,
    seedRecorded: bool)
  {
    predicate IsAbout(id: string)
    {
      && (restart.Ok? ==> restart.value.nodeId == id)
      && (start.Ok? ==> start.value.nodeId == id)
    }
  }

  /** A start run: `order` is the order of the visits, `restart` the node a
      Start button asked for. */
  datatype Input = Input(
    nodes: map<string, Node>,
    edges: seq<Edge>,
    targets: seq<string>,
    order: seq<string>,
    restart: Option<string>,
    initial: EnvState,
    answers: seq<Answers>)
  {
    ghost function Within(): Arcs
    {
      ArcsWithin(Elems(targets), edges)
    }

    /** The `k`-th visit is to a known node, and Docker answers about it. */
    ghost predicate VisitsNode(k: nat)
    {
      && k < |answers| == |order|
      && order[k] in nodes && nodes[order[k]].id == order[k]
      && answers[k].IsAbout(order[k])
    }

    /** Every visit has its set of answers. */
    ghost predicate Answered()
    {
      |answers| == |order| && forall k: nat {:trigger VisitsNode(k)} :: k < |order| ==> VisitsNode(k)
    }

    /** Each target is visited once, with one set of answers; without a cycle
        requirements come first. */
    ghost predicate Valid()
    {
      && NoDup(order) && Elems(order) == Elems(targets)
      && (Acyclic(Within()) ==> Ranked(Within(), order))
      && Answered()
    }
  }

  datatype Run = Run(
    containers: map<string, ContainerInfo>,
    failed: map<string, string>,
    blocked: map<string, string>,
    recreated: set<string>,
    bounced: set<string>,
    started: seq<string>)

  // ----- the decisions -----

  function Existing(containers: map<string, ContainerInfo>, id: string): Option<ContainerInfo>
  {
    if id in containers then Some(containers[id]) else None
  }

  /** Only a `run: once` task with a clean exit is done. */
  predicate TaskAlreadyDone(node: Node, prior: Option<ContainerInfo>)
  {
    && node.kind == "task"
    && node.runPolicy == Some("once")
    && prior.Some? && prior.value.observed.exitCode == Some(0)
  }

  /** Alive, on record, and not known to have drifted. */
  predicate TopUpMaySkip(alive: bool, existing: Option<ContainerInfo>, freshHash: Option<string>)
  {
    alive && existing.Some? && (freshHash.None? || freshHash.value == existing.value.desired.configHash)
  }

  /** The first requirement, in edge order, that this run took down and brought back. */
  function BouncedRequirement(edges: seq<Edge>, id: string, bounced: set<string>): (dep: Option<string>)
    ensures dep.Some? ==> dep.value in bounced && (id, dep.value) in RequiredArcs(edges)
    ensures dep.None? ==> forall d | d in bounced :: (id, d) !in RequiredArcs(edges)
  {
    if edges == [] then
      None
    else if edges[0].NeededToStart() && edges[0].from == id && edges[0].to in bounced then
      Some(edges[0].to)
    else
      assert edges == [edges[0]] + edges[1..];
      BouncedRequirement(edges[1..], id, bounced)
  }

  /** Why an unforced node is not even looked at. */
  predicate SkippedAsDone(restarting: bool, node: Node, existing: Option<ContainerInfo>, recreated: set<string>, alreadySeeded: bool)
  {
    var storeRecreated := node.migrates.Some? && node.migrates.value in recreated;
    || (if restarting then
          existing.Some? && (existing.value.pendingAction.Some?
            || (node.kind == "task" && existing.value.observed.exitCode == Some(0) && !storeRecreated))
        else
          TaskAlreadyDone(node, existing))
    || (node.seeds != [] && alreadySeeded)
  }

  datatype Decision =
    | LeaveAlone
    /** Behind a failure but alive: left as is, and not recorded. */
    | LeaveBehind
    | BlockOn(root: string)
    | RestartInPlace(dep: string)
    | Recreate

  ghost function DecideFor(within: Arcs, edges: seq<Edge>, restart: Option<string>, node: Node, ans: Answers, r: Run): Decision
  {
    var existing := Existing(r.containers, node.id);
    var forced := restart == Some(node.id);
    var freshHash := if ans.alive && existing.Some? && restart.None? then ans.freshHash else None;
    var restartFor := BouncedRequirement(edges, node.id, r.bounced);
    var cause := BlockedBy(within, r.failed, r.blocked, node.id);
    if !forced && SkippedAsDone(restart.Some?, node, existing, r.recreated, ans.alreadySeeded) then
      LeaveAlone
    else if !forced && restartFor.None? && TopUpMaySkip(ans.alive, existing, freshHash) then
      LeaveAlone
    else if cause.Some? then
      if ans.alive then LeaveBehind else BlockOn(cause.value)
    else if ans.alive && !forced && restartFor.Some? && existing.Some? then
      RestartInPlace(restartFor.value)
    else
      Recreate
  }

  function Carry(d: Decision, node: Node, ans: Answers, r: Run): Run
  {
    match d
    case LeaveAlone => r
    case LeaveBehind => r
    case BlockOn(root) => r.(blocked := r.blocked[node.id := root])
    case RestartInPlace(_) =>
      (match ans.restart
       case Err(e) => r.(failed := r.failed[node.id := e])
       case Ok(info) => r.(
         containers := r.containers[info.nodeId := info],
         bounced := r.bounced + {node.id},
         started := r.started + [node.id]))
    case Recreate =>
      (match ans.start
       case Err(e) => r.(failed := r.failed[node.id := e])
       case Ok(info) => r.(
         containers := r.containers[info.nodeId := Recorded(node, info, ans)],
         recreated := if node.kind != "task" then r.recreated + {node.id} else r.recreated,
         bounced := if node.kind != "task" then r.bounced + {node.id} else r.bounced,
         started := r.started + [node.id]))
  }

  /** What the run does about the `k`-th node of the start order. */
  ghost function Decide(input: Input, r: Run, k: nat): Decision
    requires input.Answered() && k < |input.order|
  {
    assert input.VisitsNode(k);
    DecideFor(input.Within(), input.edges, input.restart, input.nodes[input.order[k]], input.answers[k], r)
  }

  ghost function Visit(input: Input, r: Run, k: nat): Run
    requires input.Answered() && k < |input.order|
  {
    assert input.VisitsNode(k);
    Carry(Decide(input, r, k), input.nodes[input.order[k]], input.answers[k], r)
  }

  /** A seed's record also says whether its data is in place. */
  function Recorded(node: Node, info: ContainerInfo, ans: Answers): ContainerInfo
  {
    if node.seeds == [] then info else info.(observed := info.observed.(seeded := Some(ans.seedRecorded)))
  }

  ghost predicate StepTaken(input: Input, runs: seq<Run>, k: nat)
    requires input.Answered() && |runs| == |input.order| + 1 && k < |input.order|
  {
    runs[k + 1] == Visit(input, runs[k], k)
  }

  /** `runs` is a whole start run, from before the first visit to after the last. */
  ghost predicate IsRun(input: Input, runs: seq<Run>)
  {
    input.Valid() && Follows(input, runs)
  }

  /** The same for any order of visits, in which a target may come twice. */
  ghost predicate Follows(input: Input, runs: seq<Run>)
  {
    && input.Answered()
    && |runs| == |input.order| + 1
    && runs[0] == Run(input.initial.containers, map[], map[], {}, {}, [])
    && forall k: nat {:trigger StepTaken(input, runs, k)} :: k < |input.order| ==> StepTaken(input, runs, k)
  }

  /** Where the run ends. */
  function Last(runs: seq<Run>): Run
    requires runs != []
  {
    runs[|runs| - 1]
  }

  /** In the start order of distinct targets, visits are as `Valid` asks. */
  lemma StartOrderIsValid(input: Input)
    requires input.order == StartOrder(input.targets, input.edges) && NoDup(input.targets)
    requires input.Answered()
    ensures input.Valid()
  {
    StartOrderPermutes(input.targets, input.edges);
    if Acyclic(input.Within()) {
      StartOrderRanked(input.targets, input.edges);
    }
  }

  // ----- the loop -----

  /** One visit of the loop: `outcomes` is updated in place. */
  method VisitNode(node: Node, edges: seq<Edge>, restart: Option<string>, ans: Answers, outcomes: StartOutcomes, before: Run)
    returns (containers: map<string, ContainerInfo>, recreated: set<string>, bounced: set<string>, started: seq<string>)
    requires outcomes.Valid()
    requires before.failed == outcomes.failed && before.blocked == outcomes.blocked
    modifies outcomes
    ensures Run(containers, outcomes.failed, outcomes.blocked, recreated, bounced, started)
      == Carry(DecideFor(outcomes.arcs, edges, restart, node, ans, before), node, ans, before)
  {
    containers, recreated, bounced, started := before.containers, before.recreated, before.bounced, before.started;
    var nodeId := node.id;
    var forced := restart == Some(nodeId);
    var existing := Existing(containers, nodeId);
    if !forced {
      if SkippedAsDone(restart.Some?, node, existing, recreated, ans.alreadySeeded) {
        return;
      }
    }
    var alive := ans.alive;
    var freshHash := if alive && existing.Some? && restart.None? then ans.freshHash else None;
    var restartFor := BouncedRequirement(edges, nodeId, bounced);
    if !forced && restartFor.None? && TopUpMaySkip(alive, existing, freshHash) {
      return;
    }
    var cause := outcomes.BlockedByNow(nodeId);
    if cause.Some? {
      if !alive {
        outcomes.Block(nodeId, cause.value);
      }
      return;
    }
    if alive && !forced && restartFor.Some? && existing.Some? {
      match ans.restart {
        case Ok(info) =>
          bounced := bounced + {nodeId};
          containers := containers[info.nodeId := info];
          started := started + [nodeId];
        case Err(e) =>
          outcomes.Fail(nodeId, e);
      }
      return;
    }
    match ans.start {
      case Err(e) =>
        outcomes.Fail(nodeId, e);
      case Ok(info) =>
        if node.kind != "task" {
          recreated := recreated + {nodeId};
          bounced := bounced + {nodeId};
        }
        var record := info;
        if node.seeds != [] {
          record := info.(observed := info.observed.(seeded := Some(ans.seedRecorded)));
        }
        containers := containers[record.nodeId := record];
        started := started + [nodeId];
    }
  }

  /** The one start path: every target in start order. */
  method BringUp(input: Input)
    returns (containers: map<string, ContainerInfo>, outcomes: StartOutcomes, started: seq<string>, ghost runs: seq<Run>)
    requires input.order == StartOrder(input.targets, input.edges) && input.Answered()
    ensures fresh(outcomes) && outcomes.Valid() && outcomes.arcs == input.Within()
    ensures Follows(input, runs)
    ensures NoDup(input.targets) ==> IsRun(input, runs)
    ensures containers == Last(runs).containers && started == Last(runs).started
    ensures outcomes.failed == Last(runs).failed && outcomes.blocked == Last(runs).blocked
  {
    if NoDup(input.targets) {
      StartOrderIsValid(input);
    }
    var ordered := TopologicalStartOrder(input.targets, input.edges);
    outcomes := new StartOutcomes(input.targets, input.edges);
    containers, started := input.initial.containers, [];
    var recreated: set<string>, bounced: set<string> := {}, {};
    runs := [Run(containers, map[], map[], {}, {}, [])];
    for k := 0 to |ordered|
      invariant fresh(outcomes) && outcomes.Valid() && outcomes.arcs == input.Within()
      invariant |runs| == k + 1 && runs[0] == Run(input.initial.containers, map[], map[], {}, {}, [])
      invariant runs[k] == Run(containers, outcomes.failed, outcomes.blocked, recreated, bounced, started)
      invariant forall j :: 0 <= j < k ==> runs[j + 1] == Visit(input, runs[j], j)
    {
      assert input.VisitsNode(k);
      var before := Run(containers, outcomes.failed, outcomes.blocked, recreated, bounced, started);
      containers, recreated, bounced, started := VisitNode(input.nodes[ordered[k]], input.edges, input.restart,
        input.answers[k], outcomes, before);
      runs := runs + [Run(containers, outcomes.failed, outcomes.blocked, recreated, bounced, started)];
    }
  }
}
