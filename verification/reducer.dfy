/** `src/reducer`: what each action makes of a workspace's state. */
module Reducer {
  import opened State

  datatype Rejected = AlreadyInFlight | NoEnvironment | NodeNotFound

  datatype CreateError = CreateError(message: string, partial: Option<EnvState>)

  datatype Action =
    // Requests, which can be refused.
    | EnvPlanned(plan: EnvSpec)
    | NodeStartRequested(nodeId: string)
    | NodeStopRequested(nodeId: string)
    | NodeDeleteRequested(nodeId: string)
    | NodeDebugWaitRequested(nodeId: string, wait: bool)
    | OwnerSet(owner: string)
    // Reports, which never are.
    | ContainerObserved(nodeId: string, status: string, publishedPort: Option<nat>, ports: map<string, Option<nat>>,
                        exitCode: Option<int>, unseen: bool, basedOn: ContainerObserved)
    | ContainerActionSettled(nodeId: string, of: Option<PendingAction>, result: Result<Option<ContainerInfo>, string>)
    | EnvCreateSettled(created: Result<EnvState, CreateError>)
    | EnvCreateWorking(nodeId: string, action: Option<PendingAction>)
    | EnvCreateProgress(network: string, sidecarContainerName: string, sidecarIp: Option<string>, info: ContainerInfo)
    | SidecarRestored(ip: string)
    | VolumeObserved(volumeName: string, present: bool)
    | ConfigDriftObserved(nodeId: string, drift: string, seeded: Option<bool>)
  {
    predicate IsReport()
    {
      !EnvPlanned? && !NodeStartRequested? && !NodeStopRequested? && !NodeDeleteRequested?
      && !NodeDebugWaitRequested? && !OwnerSet?
    }
  }

  type Outcome = Result<WorkspaceState, Rejected>

  function WithEnv(s: WorkspaceState, env: EnvState): WorkspaceState
  {
    s.(env := Some(env))
  }

  function WithContainer(s: WorkspaceState, id: string, c: ContainerInfo): WorkspaceState
    requires s.env.Some?
  {
    WithEnv(s, s.env.value.(containers := s.env.value.containers[id := c]))
  }

  function WithoutContainer(s: WorkspaceState, id: string): WorkspaceState
    requires s.env.Some?
  {
    WithEnv(s, s.env.value.(containers := s.env.value.containers - {id}))
  }

  function Lookup(s: WorkspaceState, id: string): Option<ContainerInfo>
  {
    if s.env.Some? && id in s.env.value.containers then Some(s.env.value.containers[id]) else None
  }

  predicate InCreate(s: WorkspaceState)
  {
    s.env.Some? && s.env.value.pendingCreate.Some?
  }

  function StartingPlaceholder(id: string): ContainerInfo
  {
    ContainerInfo(id, ContainerDesired(true, "", "", false, false, ""), UNOBSERVED, Some(Starting))
  }

  // ----- requests (src/reducer/env.rs) -----

  function StartNode(s: WorkspaceState, id: string): Outcome
  {
    if s.env.None? then
      Ok(WithEnv(s, DEFAULT_ENV.(pendingCreate := Some(NodeSpec(id)))))
    else if InCreate(s) then
      Err(AlreadyInFlight)
    else
      match Lookup(s, id)
      case None => Ok(WithContainer(s, id, StartingPlaceholder(id)))
      case Some(c) =>
        if c.pendingAction.Some? then Err(AlreadyInFlight)
        else Ok(WithContainer(s, id, c.(desired := c.desired.(running := true), pendingAction := Some(Starting))))
  }

  function SetDebugWait(s: WorkspaceState, id: string, wait: bool): Outcome
  {
    if s.env.None? then Err(NoEnvironment)
    else
      match Lookup(s, id)
      case None => Err(NodeNotFound)
      case Some(c) =>
        if c.pendingAction.Some? then Err(AlreadyInFlight)
        else
          Ok(WithContainer(s, id, c.(desired := c.desired.(debugWait := wait, running := true), pendingAction := Some(Starting))))
  }

  function SetPending(s: WorkspaceState, id: string, pending: PendingAction, desiredRunning: bool): Outcome
  {
    if s.env.None? then Err(NoEnvironment)
    else if InCreate(s) then Err(AlreadyInFlight)
    else
      match Lookup(s, id)
      case None => Err(NodeNotFound)
      case Some(c) =>
        if c.pendingAction == Some(Starting) && c.IsPlaceholder() then Ok(WithoutContainer(s, id))
        else if c.pendingAction.Some? && c.pendingAction != Some(Starting) then Err(AlreadyInFlight)
        else Ok(WithContainer(s, id, c.(desired := c.desired.(running := desiredRunning), pendingAction := Some(pending))))
  }

  // ----- reports (src/reducer/observation.rs) -----

  function Observe(c: ContainerInfo, a: Action): ContainerInfo
    requires a.ContainerObserved?
  {
    if c.pendingAction.Some? || !c.observed.SameReading(a.basedOn) then c
    else if a.unseen then c.(observed := c.observed.(unseen := true))
    else
      var seen := c.observed.(unseen := false, status := a.status, publishedPort := a.publishedPort,
                              ports := a.ports, exitCode := a.exitCode);
      c.(observed := seen.SettleInterruption(c.observed.unseen))
  }

  function Settle(s: WorkspaceState, id: string, of: Option<PendingAction>, result: Result<Option<ContainerInfo>, string>): WorkspaceState
    requires s.env.Some?
  {
    var current := match Lookup(s, id) case None => None case Some(c) => c.pendingAction;
    if of.Some? && of != current then s
    else
      match result
      case Ok(Some(info)) => WithContainer(s, id, info.(pendingAction := None))
      case Ok(None) => WithoutContainer(s, id)
      case Err(_) =>
        match Lookup(s, id)
        case None => s
        case Some(c) => WithContainer(s, id, c.(pendingAction := None))
  }

  /** No mark, no placeholder and no create survives. */
  function ClearCreateMarks(env: EnvState): EnvState
  {
    env.(pendingCreate := None,
         containers := map id | id in env.containers && !env.containers[id].IsPlaceholder() :: env.containers[id].(pendingAction := None))
  }

  function Work(s: WorkspaceState, id: string, action: Option<PendingAction>): WorkspaceState
    requires s.env.Some?
  {
    match Lookup(s, id)
    case None => if action.Some? then WithContainer(s, id, StartingPlaceholder(id)) else s
    case Some(c) =>
      if action.None? && c.IsPlaceholder() then WithoutContainer(s, id)
      else WithContainer(s, id, c.(pendingAction := action))
  }

  function Report(s: WorkspaceState, a: Action): WorkspaceState
    requires a.IsReport()
  {
    if s.env.None? then s
    else
      var env := s.env.value;
      match a
      case EnvCreateSettled(Ok(run)) => WithEnv(s, ClearCreateMarks(run))
      case EnvCreateSettled(Err(e)) => WithEnv(s, ClearCreateMarks(if e.partial.Some? then e.partial.value else env))
      case EnvCreateWorking(id, action) => Work(s, id, action)
      case EnvCreateProgress(network, sidecar, ip, info) =>
        WithEnv(s, env.(network := network, sidecarContainerName := sidecar, sidecarIp := ip,
                        containers := env.containers[info.nodeId := info.(pendingAction := None)]))
      case SidecarRestored(ip) => WithEnv(s, env.(sidecarIp := Some(ip)))
      case VolumeObserved(name, present) => WithEnv(s, env.(volumes := env.volumes[name := present]))
      case ContainerActionSettled(id, of, result) => Settle(s, id, of, result)
      case ContainerObserved(id, _, _, _, _, _, _) =>
        if id in env.containers then WithContainer(s, id, Observe(env.containers[id], a)) else s
      case ConfigDriftObserved(id, drift, seeded) =>
        if id in env.containers then
          var c := env.containers[id];
          WithContainer(s, id, c.(observed := c.observed.(sync := drift, seeded := seeded)))
        else s
  }

  function Reduce(s: WorkspaceState, a: Action): Outcome
  {
    match a
    case EnvPlanned(plan) =>
      if InCreate(s) then Err(AlreadyInFlight)
      else Ok(WithEnv(s, (if s.env.Some? then s.env.value else DEFAULT_ENV).(pendingCreate := Some(plan))))
    case NodeStartRequested(id) => StartNode(s, id)
    case NodeStopRequested(id) => SetPending(s, id, Stopping, false)
    case NodeDeleteRequested(id) =>
      SetPending(s, id, Removing, match Lookup(s, id) case None => false case Some(c) => c.desired.running)
    case NodeDebugWaitRequested(id, wait) => SetDebugWait(s, id, wait)
    case OwnerSet(owner) => Ok(s.(owner := Some(owner)))
    case _ => Ok(Report(s, a))
  }

  /** A refused action changes nothing. */
  function Next(s: WorkspaceState, a: Action): WorkspaceState
  {
    match Reduce(s, a)
    case Ok(t) => t
    case Err(_) => s
  }

  const DEFAULT := WorkspaceState(None, None)

  function Play(s: WorkspaceState, actions: seq<Action>): WorkspaceState
  {
    if actions == [] then s else Next(Play(s, actions[..|actions| - 1]), actions[|actions| - 1])
  }

  lemma PlayStep(s: WorkspaceState, actions: seq<Action>, k: nat)
    requires k < |actions|
    ensures Play(s, actions[..k + 1]) == Next(Play(s, actions[..k]), actions[k])
  {
    assert actions[..k + 1][..k] == actions[..k];
  }

  // ----- creates -----

  /** The action begins a create. */
  predicate Plans(s: WorkspaceState, a: Action)
  {
    && (a.EnvPlanned? || (a.NodeStartRequested? && s.env.None?))
    && Reduce(s, a).Ok?
  }

  lemma CreateStep(s: WorkspaceState, a: Action)
    ensures InCreate(Next(s, a)) <==> Plans(s, a) || (InCreate(s) && !a.EnvCreateSettled?)
    ensures Plans(s, a) ==> !InCreate(s)
  {
  }

  /** The `k`-th of `actions` plans a create. */
  predicate PlannedAt(actions: seq<Action>, k: nat)
  {
    k < |actions| && Plans(Play(DEFAULT, actions[..k]), actions[k])
  }

  predicate SettledAt(actions: seq<Action>, k: nat)
  {
    k < |actions| && actions[k].EnvCreateSettled?
  }

  /** A create planned at `k` that nothing settled yet. */
  ghost predicate OpenSince(actions: seq<Action>, k: nat, n: nat)
  {
    k < n && PlannedAt(actions, k) && forall i: nat {:trigger SettledAt(actions, i)} :: k < i < n ==> !SettledAt(actions, i)
  }

  /** A create is in flight exactly from an accepted plan to the next settle. */
  lemma {:induction false} InFlightExactlyWhileOpen(actions: seq<Action>, n: nat)
    requires n <= |actions|
    ensures InCreate(Play(DEFAULT, actions[..n])) <==> exists k: nat :: OpenSince(actions, k, n)
  {
    if n > 0 {
      var m := n - 1;
      InFlightExactlyWhileOpen(actions, m);
      PlayStep(DEFAULT, actions, m);
      CreateStep(Play(DEFAULT, actions[..m]), actions[m]);
      if PlannedAt(actions, m) {
        assert OpenSince(actions, m, n);
      } else if k: nat :| OpenSince(actions, k, m) {
        assert !SettledAt(actions, m) ==> OpenSince(actions, k, n);
      }
      if k: nat :| OpenSince(actions, k, n) {
        assert k == m || OpenSince(actions, k, m);
        assert k < m ==> !SettledAt(actions, m);
      }
    }
  }

  /** Between two accepted plans a create was settled. */
  lemma PlansAndSettlesAlternate(actions: seq<Action>, j: nat, k: nat) returns (i: nat)
    requires j < k && PlannedAt(actions, j) && PlannedAt(actions, k)
    ensures j < i < k && SettledAt(actions, i)
  {
    InFlightExactlyWhileOpen(actions, k);
    CreateStep(Play(DEFAULT, actions[..k]), actions[k]);
    assert !OpenSince(actions, j, k);
    i :| j < i < k && SettledAt(actions, i);
  }

  /** All the while starts, stops, deletes and further plans are refused. */
  lemma RefusedThroughoutACreate(actions: seq<Action>, j: nat, k: nat)
    requires OpenSince(actions, j, k) && k < |actions|
    requires var a := actions[k];
      a.NodeStartRequested? || a.NodeStopRequested? || a.NodeDeleteRequested? || a.EnvPlanned?
    ensures Reduce(Play(DEFAULT, actions[..k]), actions[k]) == Err(AlreadyInFlight)
  {
    InFlightExactlyWhileOpen(actions, k);
  }

  /** A debug wait is refused for its node's sake alone, never for a create's. */
  lemma DebugWaitRefusedExactly(s: WorkspaceState, id: string, wait: bool)
    ensures Reduce(s, NodeDebugWaitRequested(id, wait)).Err?
       <==> Lookup(s, id).None? || Lookup(s, id).value.pendingAction.Some?
  {
  }

  /** The environment a settle brings along, instead of the one on record. */
  function Carried(a: Action): Option<EnvState>
    requires a.EnvCreateSettled?
  {
    match a.created
    case Ok(env) => Some(env)
    case Err(e) => e.partial
  }

  /** A debug wait accepted before the settle of a create, with nothing else about
      the node in between: its mark always goes, so nothing will apply it. The flag
      stays on record exactly if the settle carries no state, and the node has a
      container, or carries one that says the same of the node. */
  lemma DebugWaitAfterSettleExactly(s: WorkspaceState, id: string, wait: bool, between: seq<Action>, a: Action)
    requires Reduce(s, NodeDebugWaitRequested(id, wait)).Ok? && a.EnvCreateSettled?
    requires forall b | b in between :: !b.EnvCreateSettled? && NodeOf(b) != Some(id)
    ensures
      var d := Lookup(Next(Play(Next(s, NodeDebugWaitRequested(id, wait)), between), a), id);
      && (d.Some? ==> d.value.pendingAction.None?)
      && (d.Some? && d.value.desired.debugWait == wait <==>
            match Carried(a)
            case None => !Lookup(s, id).value.IsPlaceholder()
            case Some(env) => id in env.containers && !env.containers[id].IsPlaceholder() && env.containers[id].desired.debugWait == wait)
  {
    OthersUntouchedThroughout(Next(s, NodeDebugWaitRequested(id, wait)), between, id);
  }

  /** A record and its create, with a debug wait asked for before the settle `a`. */
  function AfterDebugWait(info: ContainerInfo, plan: EnvSpec, a: Action): WorkspaceState
  {
    var s := Play(DEFAULT, [EnvPlanned(plan), EnvCreateProgress("net", "sidecar", None, info)]);
    Next(Next(s, NodeDebugWaitRequested(info.nodeId, true)), a)
  }

  lemma OneNodeInCreate(info: ContainerInfo, plan: EnvSpec)
    ensures var s := Play(DEFAULT, [EnvPlanned(plan), EnvCreateProgress("net", "sidecar", None, info)]);
      s.env == Some(EnvState("net", map[info.nodeId := info.(pendingAction := None)], map[], "sidecar", None, Some(plan)))
  {
    var before := [EnvPlanned(plan), EnvCreateProgress("net", "sidecar", None, info)];
    assert before[..0] == [] && before[..2] == before;
    PlayStep(DEFAULT, before, 0);
    PlayStep(DEFAULT, before, 1);
  }

  /** Two of those: a settle with the copy the create made before the request
      forgets it; one that only failed keeps a wait on record that was never applied. */
  lemma DebugWaitDuringACreateIsLost(info: ContainerInfo, plan: EnvSpec, copy: EnvState, message: string)
    requires info.desired.containerName != "" && !info.desired.debugWait
    requires copy.containers == map[info.nodeId := info]
    ensures Lookup(AfterDebugWait(info, plan, EnvCreateSettled(Ok(copy))), info.nodeId) == Some(info.(pendingAction := None))
    ensures
      var d := Lookup(AfterDebugWait(info, plan, EnvCreateSettled(Err(CreateError(message, None)))), info.nodeId);
      d == Some(info.(pendingAction := None, desired := info.desired.(debugWait := true, running := true)))
  {
    OneNodeInCreate(info, plan);
  }

  /** The settle of a create leaves no create, no mark and no placeholder. */
  lemma CreateSettlesClean(s: WorkspaceState, a: Action)
    requires a.EnvCreateSettled? && Next(s, a).env.Some?
    ensures !InCreate(Next(s, a))
    ensures forall id | id in Next(s, a).env.value.containers ::
      var c := Next(s, a).env.value.containers[id]; c.pendingAction.None? && !c.IsPlaceholder()
  {
  }

  /** A create that failed with nothing started: a node that nothing was said about
      from the plan to the settle is recorded as it was before, unmarked, and an
      entry without a container is gone. */
  lemma FailedCreateLeavesOthersAlone(s: WorkspaceState, plan: EnvSpec, between: seq<Action>, message: string, id: string)
    requires !InCreate(s)
    requires forall b | b in between :: !b.EnvCreateSettled? && NodeOf(b) != Some(id)
    ensures
      var t := Next(Play(Next(s, EnvPlanned(plan)), between), EnvCreateSettled(Err(CreateError(message, None))));
      match Lookup(s, id)
      case None => Lookup(t, id).None?
      case Some(c) => Lookup(t, id) == if c.IsPlaceholder() then None else Some(c.(pendingAction := None))
  {
    OthersUntouchedThroughout(Next(s, EnvPlanned(plan)), between, id);
  }

  // ----- requests -----

  /** The node's own record lets the request through. */
  predicate FreeFor(a: Action, c: Option<ContainerInfo>)
  {
    if c.None? then a.NodeStartRequested?
    else c.value.pendingAction.None? || (c.value.pendingAction == Some(Starting) && !a.NodeStartRequested?)
  }

  /** Over every action sequence, a start, stop or delete is accepted exactly if no
      create is open and its node is free; before the first create only a start is. */
  lemma RequestsAcceptedExactly(actions: seq<Action>, n: nat, a: Action)
    requires n <= |actions| && (a.NodeStartRequested? || a.NodeStopRequested? || a.NodeDeleteRequested?)
    ensures
      (Reduce(Play(DEFAULT, actions[..n]), a).Ok? <==>
        if !(exists k: nat :: k < n && PlannedAt(actions, k)) then a.NodeStartRequested?
        else !(exists k: nat :: OpenSince(actions, k, n)) && FreeFor(a, Lookup(Play(DEFAULT, actions[..n]), a.nodeId)))
  {
    EnvironmentsStay(actions, n);
    InFlightExactlyWhileOpen(actions, n);
  }

  /** What the request wants of its node: to run or not, or nothing new. */
  function Wish(a: Action, id: string): Option<bool>
  {
    match a
    case NodeStartRequested(node) => if node == id then Some(true) else None
    case NodeDebugWaitRequested(node, _) => if node == id then Some(true) else None
    case NodeStopRequested(node) => if node == id then Some(false) else None
    case _ => None
  }

  /** What the last accepted request that wanted something of `id` wanted. */
  function LastWish(s: WorkspaceState, actions: seq<Action>, id: string): Option<bool>
  {
    if actions == [] then None
    else
      var (before, a) := (actions[..|actions| - 1], actions[|actions| - 1]);
      if Wish(a, id).Some? && Reduce(Play(s, before), a).Ok? then Wish(a, id) else LastWish(s, before, id)
  }

  function LastWait(s: WorkspaceState, actions: seq<Action>, id: string): Option<bool>
  {
    if actions == [] then None
    else
      var (before, a) := (actions[..|actions| - 1], actions[|actions| - 1]);
      if a.NodeDebugWaitRequested? && a.nodeId == id && Reduce(Play(s, before), a).Ok? then Some(a.wait)
      else LastWait(s, before, id)
  }

  /** The action puts another record in the place of `id`'s, or none: a settle with
      a result, a create's report of the node, a create's settle but one that only
      failed, and a start called off before there was a container. */
  predicate Replaces(s: WorkspaceState, a: Action, id: string)
    requires Lookup(s, id).Some?
  {
    var c := Lookup(s, id).value;
    match a
    case ContainerActionSettled(node, of, result) => node == id && result.Ok? && (of.None? || of == c.pendingAction)
    case EnvCreateProgress(_, _, _, info) => info.nodeId == id
    case EnvCreateSettled(created) => Carried(a).Some? || c.IsPlaceholder()
    case EnvCreateWorking(node, action) => node == id && action.None? && c.IsPlaceholder()
    case NodeStopRequested(node) => node == id && CallsOff(s, c)
    case NodeDeleteRequested(node) => node == id && CallsOff(s, c)
    case _ => false
  }

  predicate CallsOff(s: WorkspaceState, c: ContainerInfo)
  {
    !InCreate(s) && c.IsPlaceholder() && c.pendingAction == Some(Starting)
  }

  /** One record stays `id`'s throughout. */
  predicate Lasts(s: WorkspaceState, actions: seq<Action>, id: string)
  {
    if actions == [] then Lookup(s, id).Some?
    else
      var before := actions[..|actions| - 1];
      Lasts(s, before, id) && Lookup(Play(s, before), id).Some? && !Replaces(Play(s, before), actions[|actions| - 1], id)
  }

  function Else<T>(o: Option<T>, otherwise: T): T
  {
    if o.Some? then o.value else otherwise
  }

  /** For as long as one record lasts, whatever else happens, it wants what the last
      accepted request wanted, and the rest of what it wants never changes. */
  lemma {:induction false} RecordsHoldTheLastWish(s: WorkspaceState, actions: seq<Action>, id: string)
    requires Lasts(s, actions, id)
    ensures Lookup(s, id).Some? && Lookup(Play(s, actions), id).Some?
    ensures
      var (c, d) := (Lookup(s, id).value, Lookup(Play(s, actions), id).value);
      && d.nodeId == c.nodeId
      && d.desired == c.desired.(running := Else(LastWish(s, actions, id), c.desired.running),
                                 debugWait := Else(LastWait(s, actions, id), c.desired.debugWait))
    decreases |actions|
  {
    if actions != [] {
      RecordsHoldTheLastWish(s, actions[..|actions| - 1], id);
      WishStep(Play(s, actions[..|actions| - 1]), actions[|actions| - 1], id);
    }
  }

  lemma WishStep(s: WorkspaceState, a: Action, id: string)
    requires Lookup(s, id).Some? && !Replaces(s, a, id)
    ensures Lookup(Next(s, a), id).Some?
    ensures
      var (c, d) := (Lookup(s, id).value, Lookup(Next(s, a), id).value);
      && d.nodeId == c.nodeId
      && d.desired == c.desired.(
           running := if Wish(a, id).Some? && Reduce(s, a).Ok? then Wish(a, id).value else c.desired.running,
           debugWait := if a.NodeDebugWaitRequested? && a.nodeId == id && Reduce(s, a).Ok? then a.wait else c.desired.debugWait)
  {
  }

  // ----- the environment -----

  lemma EnvStep(s: WorkspaceState, a: Action)
    ensures Next(s, a).env.Some? <==> s.env.Some? || Plans(s, a)
  {
  }

  /** There is an environment exactly once a create was ever planned: no report
      brings one into existence and nothing takes it away. */
  lemma {:induction false} EnvironmentsStay(actions: seq<Action>, n: nat)
    requires n <= |actions|
    ensures Play(DEFAULT, actions[..n]).env.Some? <==> exists k: nat :: k < n && PlannedAt(actions, k)
  {
    if n > 0 {
      EnvironmentsStay(actions, n - 1);
      PlayStep(DEFAULT, actions, n - 1);
      EnvStep(Play(DEFAULT, actions[..n - 1]), actions[n - 1]);
      if PlannedAt(actions, n - 1) {
      } else if k: nat :| k < n && PlannedAt(actions, k) {
        assert k < n - 1;
      }
    }
  }

  // ----- marks -----

  ghost predicate Marked(s: WorkspaceState, id: string, mark: PendingAction)
  {
    Lookup(s, id).Some? && !Lookup(s, id).value.IsPlaceholder() && Lookup(s, id).value.pendingAction == Some(mark)
  }

  /** The settle of this mark or an untagged one, or a report of a create. */
  predicate Ends(a: Action, id: string, mark: PendingAction)
  {
    match a
    case ContainerActionSettled(node, of, _) => node == id && (of == None || of == Some(mark))
    case EnvCreateSettled(_) => true
    case EnvCreateWorking(node, action) => node == id && action != Some(mark)
    case EnvCreateProgress(_, _, _, info) => info.nodeId == id
    case _ => false
  }

  /** A Stop or Delete under way on a real container ends in exactly these ways. */
  lemma MarkKeptExactly(s: WorkspaceState, a: Action, id: string, mark: PendingAction)
    requires Marked(s, id, mark) && (mark == Stopping || mark == Removing)
    ensures Marked(Next(s, a), id, mark) <==> !Ends(a, id, mark)
  {
  }

  lemma {:induction false} MarkedUntilItEnds(s: WorkspaceState, actions: seq<Action>, id: string, mark: PendingAction)
    requires Marked(s, id, mark) && (mark == Stopping || mark == Removing)
    requires forall a | a in actions :: !Ends(a, id, mark)
    ensures Marked(Play(s, actions), id, mark)
    decreases |actions|
  {
    if actions != [] {
      var before, a := actions[..|actions| - 1], actions[|actions| - 1];
      MarkedUntilItEnds(s, before, id, mark);
      assert a in actions;
      MarkKeptExactly(Play(s, before), a, id, mark);
    }
  }

  /** A Stop takes over from a start, and the start's late report is dropped
      however much later it comes. */
  lemma StopSupersedesStart(s: WorkspaceState, id: string, between: seq<Action>, late: Result<Option<ContainerInfo>, string>)
    requires !InCreate(s) && Marked(s, id, Starting)
    requires forall a | a in between :: !Ends(a, id, Stopping)
    ensures Marked(Next(s, NodeStopRequested(id)), id, Stopping)
    ensures var t := Play(Next(s, NodeStopRequested(id)), between);
      Marked(t, id, Stopping) && Next(t, ContainerActionSettled(id, Some(Starting), late)) == t
  {
    MarkedUntilItEnds(Next(s, NodeStopRequested(id)), between, id, Stopping);
  }

  // ----- placeholders -----

  /** Every placeholder still has its start under way. */
  ghost predicate PlaceholdersMarked(s: WorkspaceState)
  {
    s.env.Some? ==> forall id | id in s.env.value.containers && s.env.value.containers[id].IsPlaceholder() ::
      s.env.value.containers[id].pendingAction.Some?
  }

  /** A settled action that failed on a placeholder, or one that reports a
      container without a name. */
  predicate LeavesPlaceholder(s: WorkspaceState, a: Action)
  {
    s.env.Some?
    && match a
       case ContainerActionSettled(id, of, result) =>
         && (of.None? || (Lookup(s, id).Some? && Lookup(s, id).value.pendingAction == of))
         && (match result
             case Ok(None) => false
             case Ok(Some(info)) => info.IsPlaceholder()
             case Err(_) => Lookup(s, id).Some? && Lookup(s, id).value.IsPlaceholder())
       case EnvCreateProgress(_, _, _, info) => info.IsPlaceholder()
       case _ => false
  }

  /** Exactly these leave an entry behind that nothing works on. */
  lemma PlaceholdersMarkedExactly(s: WorkspaceState, a: Action)
    requires PlaceholdersMarked(s)
    ensures PlaceholdersMarked(Next(s, a)) <==> !LeavesPlaceholder(s, a)
  {
    var t := Next(s, a);
    if LeavesPlaceholder(s, a) {
      var id := if a.EnvCreateProgress? then a.info.nodeId else a.nodeId;
      assert t.env.value.containers[id].IsPlaceholder();
    }
  }

  /** A node whose first start failed: it stays on record with no container,
      no work and "should be running", until a create settles or it is settled
      or started again. */
  lemma FailedStartLeavesAPlaceholder(s: WorkspaceState, id: string, why: string)
    requires s.env.Some? && !InCreate(s) && Lookup(s, id).None?
    ensures
      var started := Next(s, NodeStartRequested(id));
      var failed := Next(started, ContainerActionSettled(id, Some(Starting), Err(why)));
      && Lookup(started, id) == Some(StartingPlaceholder(id))
      && Lookup(failed, id) == Some(StartingPlaceholder(id).(pendingAction := None))
      && Lookup(failed, id).value.Condition() == Crashed
  {
  }

  // ----- observations -----

  /** Of several observations taken against one reading, at most the first that
      changes anything is recorded; a node under way is never overwritten. */
  lemma StaleObservationsAreDropped(s: WorkspaceState, a: Action, b: Action)
    requires a.ContainerObserved? && b.ContainerObserved? && a.nodeId == b.nodeId && a.basedOn == b.basedOn
    requires Lookup(s, a.nodeId).Some?
    requires var t := Next(s, a); !Lookup(t, a.nodeId).value.observed.SameReading(Lookup(s, a.nodeId).value.observed)
    ensures Next(Next(s, a), b) == Next(s, a)
  {
    var t := Next(s, a);
    var c := t.env.value.containers[a.nodeId];
    assert t.env.value.containers[a.nodeId := c] == t.env.value.containers;
  }

  /** The observation is of `id`, with nothing under way, and taken against the
      reading that still stands. */
  predicate Counts(s: WorkspaceState, a: Action, id: string)
  {
    && a.ContainerObserved? && a.nodeId == id
    && Lookup(s, id).Some? && Lookup(s, id).value.pendingAction.None? && Lookup(s, id).value.observed.SameReading(a.basedOn)
  }

  /** The observations of `id` that count. */
  function Seen(s: WorkspaceState, actions: seq<Action>, id: string): (seen: seq<Action>)
    ensures forall a | a in seen :: a.ContainerObserved?
  {
    if actions == [] then []
    else
      var (before, a) := (actions[..|actions| - 1], actions[|actions| - 1]);
      Seen(s, before, id) + if Counts(Play(s, before), a, id) then [a] else []
  }

  /** The last that Docker answered. */
  function LastAnswer(seen: seq<Action>): (r: Option<Action>)
    requires forall a | a in seen :: a.ContainerObserved?
    ensures r.Some? ==> r.value.ContainerObserved?
  {
    if seen == [] then None
    else if !seen[|seen| - 1].unseen then Some(seen[|seen| - 1])
    else LastAnswer(seen[..|seen| - 1])
  }

  predicate UpAt(seen: seq<Action>, k: nat)
  {
    k < |seen| && seen[k].ContainerObserved? && !seen[k].unseen && UNOBSERVED.(status := seen[k].status).IsUp()
  }

  /** Found down by the first answer after a silence. */
  predicate InterruptedAt(silent: bool, seen: seq<Action>, k: nat)
    requires forall a | a in seen :: a.ContainerObserved?
  {
    k < |seen| && (if k == 0 then silent else seen[k - 1].unseen) && !seen[k].unseen && !UpAt(seen, k)
  }

  ghost predicate NotUpBetween(seen: seq<Action>, lo: int, n: nat)
  {
    forall i: nat {:trigger UpAt(seen, i)} :: lo < i < n ==> !UpAt(seen, i)
  }

  ghost predicate InterruptedSince(silent: bool, seen: seq<Action>, k: nat, n: nat)
    requires forall a | a in seen :: a.ContainerObserved?
  {
    k < n && InterruptedAt(silent, seen, k) && NotUpBetween(seen, k, n)
  }

  /** `d` is what `c` becomes when the observations `seen` count one by one. */
  ghost predicate Reads(c: ContainerObserved, seen: seq<Action>, d: ContainerObserved)
    requires forall a | a in seen :: a.ContainerObserved?
  {
    && (match LastAnswer(seen)
        case None => d.status == c.status && d.publishedPort == c.publishedPort && d.ports == c.ports && d.exitCode == c.exitCode
        case Some(a) => d.status == a.status && d.publishedPort == a.publishedPort && d.ports == a.ports && d.exitCode == a.exitCode)
    && (d.unseen <==> if seen == [] then c.unseen else seen[|seen| - 1].unseen)
    && (d.interrupted <==>
          (exists k: nat :: InterruptedSince(c.unseen, seen, k, |seen|)) || (c.interrupted && NotUpBetween(seen, -1, |seen|)))
  }

  lemma ReadsNone(c: ContainerObserved, d: ContainerObserved)
    requires d.SameReading(c)
    ensures Reads(c, [], d)
  {
  }

  lemma InterruptedNow(silent: bool, seen: seq<Action>, a: Action)
    requires (forall b | b in seen :: b.ContainerObserved?) && a.ContainerObserved?
    ensures var more := seen + [a];
      (exists k: nat :: InterruptedSince(silent, more, k, |more|)) <==>
        InterruptedAt(silent, more, |seen|) || ((exists k: nat :: InterruptedSince(silent, seen, k, |seen|)) && !UpAt(more, |seen|))
    ensures NotUpBetween(seen + [a], -1, |seen| + 1) <==> NotUpBetween(seen, -1, |seen|) && !UpAt(seen + [a], |seen|)
  {
    var more, m := seen + [a], |seen|;
    assert forall i: nat | i < m :: more[i] == seen[i] && (UpAt(more, i) <==> UpAt(seen, i));
    assert forall i: nat | i < m :: InterruptedAt(silent, more, i) <==> InterruptedAt(silent, seen, i);
    if InterruptedAt(silent, more, m) {
      assert InterruptedSince(silent, more, m, |more|);
    } else if k: nat :| InterruptedSince(silent, seen, k, m) {
      assert !UpAt(more, m) ==> InterruptedSince(silent, more, k, |more|);
    }
    if k: nat :| InterruptedSince(silent, more, k, |more|) {
      assert k == m || InterruptedSince(silent, seen, k, m);
      assert k < m ==> !UpAt(more, m);
    }
  }

  lemma ReadsOneMore(c: ContainerObserved, seen: seq<Action>, info: ContainerInfo, a: Action)
    requires (forall b | b in seen :: b.ContainerObserved?) && a.ContainerObserved?
    requires info.pendingAction.None? && info.observed.SameReading(a.basedOn) && Reads(c, seen, info.observed)
    ensures Reads(c, seen + [a], Observe(info, a).observed)
  {
    InterruptedNow(c.unseen, seen, a);
    assert (seen + [a])[..|seen|] == seen;
    assert UpAt(seen + [a], |seen|) <==> !a.unseen && UNOBSERVED.(status := a.status).IsUp();
  }

  /** For as long as one record lasts, whatever else happens, its reading is that of
      the last observation that counts and that Docker answered, it is out of sight
      exactly since the last that Docker did not, and it is an interruption exactly
      from an answer that finds it down after a silence to the next that finds it up. */
  lemma {:induction false} RecordsHoldTheLastReading(s: WorkspaceState, actions: seq<Action>, id: string)
    requires Lasts(s, actions, id)
    ensures Lookup(s, id).Some? && Lookup(Play(s, actions), id).Some?
    ensures Reads(Lookup(s, id).value.observed, Seen(s, actions, id), Lookup(Play(s, actions), id).value.observed)
    decreases |actions|
  {
    if actions == [] {
      ReadsNone(Lookup(s, id).value.observed, Lookup(s, id).value.observed);
    } else {
      var before, a := actions[..|actions| - 1], actions[|actions| - 1];
      RecordsHoldTheLastReading(s, before, id);
      ReadingStep(Lookup(s, id).value.observed, Seen(s, before, id), Play(s, before), a, id);
    }
  }

  lemma ReadingStep(c: ContainerObserved, seen: seq<Action>, s: WorkspaceState, a: Action, id: string)
    requires forall b | b in seen :: b.ContainerObserved?
    requires Lookup(s, id).Some? && !Replaces(s, a, id) && Reads(c, seen, Lookup(s, id).value.observed)
    ensures Lookup(Next(s, a), id).Some?
    ensures Reads(c, seen + if Counts(s, a, id) then [a] else [], Lookup(Next(s, a), id).value.observed)
  {
    if Counts(s, a, id) {
      ReadsOneMore(c, seen, Lookup(s, id).value, a);
      assert Lookup(Next(s, a), id) == Some(Observe(Lookup(s, id).value, a));
    } else {
      ReadingStands(s, a, id);
      SameReads(c, seen, Lookup(s, id).value.observed, Lookup(Next(s, a), id).value.observed);
      assert seen + [] == seen;
    }
  }

  lemma ReadingStands(s: WorkspaceState, a: Action, id: string)
    requires Lookup(s, id).Some? && !Replaces(s, a, id) && !Counts(s, a, id)
    ensures Lookup(Next(s, a), id).Some? && Lookup(Next(s, a), id).value.observed.SameReading(Lookup(s, id).value.observed)
  {
  }

  lemma SameReads(c: ContainerObserved, seen: seq<Action>, d: ContainerObserved, e: ContainerObserved)
    requires forall a | a in seen :: a.ContainerObserved?
    requires Reads(c, seen, d) && e.SameReading(d)
    ensures Reads(c, seen, e)
  {
  }

  // ----- what an action leaves alone -----

  /** The node an action is about. */
  function NodeOf(a: Action): Option<string>
  {
    match a
    case NodeStartRequested(id) => Some(id)
    case NodeStopRequested(id) => Some(id)
    case NodeDeleteRequested(id) => Some(id)
    case NodeDebugWaitRequested(id, _) => Some(id)
    case ContainerObserved(id, _, _, _, _, _, _) => Some(id)
    case ContainerActionSettled(id, _, _) => Some(id)
    case EnvCreateWorking(id, _) => Some(id)
    case EnvCreateProgress(_, _, _, info) => Some(info.nodeId)
    case ConfigDriftObserved(id, _, _) => Some(id)
    case _ => None
  }

  /** Nothing but the settle of a create touches a node it does not name. */
  lemma OthersUntouched(s: WorkspaceState, a: Action, id: string)
    requires !a.EnvCreateSettled? && NodeOf(a) != Some(id)
    ensures Lookup(Next(s, a), id) == Lookup(s, id)
  {
  }

  lemma {:induction false} OthersUntouchedThroughout(s: WorkspaceState, actions: seq<Action>, id: string)
    requires forall a | a in actions :: !a.EnvCreateSettled? && NodeOf(a) != Some(id)
    ensures Lookup(Play(s, actions), id) == Lookup(s, id)
    ensures s.env.Some? ==> Play(s, actions).env.Some?
    decreases |actions|
  {
    if actions != [] {
      var before, a := actions[..|actions| - 1], actions[|actions| - 1];
      OthersUntouchedThroughout(s, before, id);
      assert a in actions;
      OthersUntouched(Play(s, before), a, id);
    }
  }

  // ----- what is reported about the environment -----

  function LastVolume(actions: seq<Action>, name: string): Option<bool>
  {
    if actions == [] then None
    else
      var a := actions[|actions| - 1];
      if a.VolumeObserved? && a.volumeName == name then Some(a.present) else LastVolume(actions[..|actions| - 1], name)
  }

  function LastNetwork(actions: seq<Action>): Option<(string, string)>
  {
    if actions == [] then None
    else
      var a := actions[|actions| - 1];
      if a.EnvCreateProgress? then Some((a.network, a.sidecarContainerName)) else LastNetwork(actions[..|actions| - 1])
  }

  function LastSidecarIp(actions: seq<Action>): Option<Option<string>>
  {
    if actions == [] then None
    else
      var a := actions[|actions| - 1];
      if a.EnvCreateProgress? then Some(a.sidecarIp)
      else if a.SidecarRestored? then Some(Some(a.ip))
      else LastSidecarIp(actions[..|actions| - 1])
  }

  /** Between two create settles the environment holds what was last reported of
      each volume, the network and the sidecar, whatever else happens. */
  lemma {:induction false} EnvironmentHoldsTheLastReports(s: WorkspaceState, actions: seq<Action>, name: string)
    requires s.env.Some? && forall a | a in actions :: !a.EnvCreateSettled?
    ensures Play(s, actions).env.Some?
    ensures
      var (e, f) := (s.env.value, Play(s, actions).env.value);
      && (f.network, f.sidecarContainerName) == Else(LastNetwork(actions), (e.network, e.sidecarContainerName))
      && f.sidecarIp == Else(LastSidecarIp(actions), e.sidecarIp)
      && (match LastVolume(actions, name)
          case None => (name in f.volumes <==> name in e.volumes) && (name in e.volumes ==> f.volumes[name] == e.volumes[name])
          case Some(present) => name in f.volumes && f.volumes[name] == present)
    decreases |actions|
  {
    if actions != [] {
      assert actions[|actions| - 1] in actions;
      EnvironmentHoldsTheLastReports(s, actions[..|actions| - 1], name);
      EnvironmentStep(Play(s, actions[..|actions| - 1]), actions[|actions| - 1]);
    }
  }

  lemma EnvironmentStep(s: WorkspaceState, a: Action)
    requires s.env.Some? && !a.EnvCreateSettled?
    ensures Next(s, a).env.Some?
    ensures
      var (e, f) := (s.env.value, Next(s, a).env.value);
      && f.network == (if a.EnvCreateProgress? then a.network else e.network)
      && f.sidecarContainerName == (if a.EnvCreateProgress? then a.sidecarContainerName else e.sidecarContainerName)
      && f.sidecarIp == (if a.EnvCreateProgress? then a.sidecarIp else if a.SidecarRestored? then Some(a.ip) else e.sidecarIp)
      && f.volumes == (if a.VolumeObserved? then e.volumes[a.volumeName := a.present] else e.volumes)
  {
  }
}
