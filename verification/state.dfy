/** `src/state`: what fghj knows about containers and the environment. */
module State {

  datatype Option<+T> = None | Some(value: T)

  datatype Result<+T, +E> = Ok(value: T) | Err(error: E)

  datatype PendingAction = Starting | Restarting | Stopping | Removing

  /** `wiring` stands for the domains, routes, ports and source of the container. */
  datatype ContainerDesired = ContainerDesired(
    running: bool,
    containerName: string,
    configHash: string,
    terminating: bool,
    debugWait: bool,
    wiring: string)

  datatype ContainerObserved = ContainerObserved(
    status: string,
    publishedPort: Option<nat>,
    ports: map<string, Option<nat>>,
    sync: string,
    exitCode: Option<int>,
    interrupted: bool,
    unseen: bool,
    seeded: Option<bool>)
  {
    predicate IsUp()
    {
      status == "running" || status == "restarting" || status == "paused"
    }

    /** The same reading of the container, ignoring what the drift check writes. */
    predicate SameReading(other: ContainerObserved)
    {
      && status == other.status
      && publishedPort == other.publishedPort
      && ports == other.ports
      && exitCode == other.exitCode
      && interrupted == other.interrupted
      && unseen == other.unseen
    }

    /** Down now, when nobody could see it go down, is an interruption. */
    function SettleInterruption(wentUnwatched: bool): ContainerObserved
    {
      if IsUp() then this.(interrupted := false)
      else if wentUnwatched then this.(interrupted := true)
      else this
    }
  }

  const UNOBSERVED := ContainerObserved("", None, map[], "unknown", None, false, false, None)

  datatype NodeCondition =
    | Running | Stopped | Crashed | Interrupted | Unknown | RestartingNow | Paused
    | Completed | Failed | Finishing | Missing

  datatype ContainerInfo = ContainerInfo(
    nodeId: string,
    desired: ContainerDesired,
    observed: ContainerObserved,
    pendingAction: Option<PendingAction>)
  {
    function Condition(): NodeCondition
    {
      var status := observed.status;
      if observed.unseen then Unknown
      else if status == "removed" then Missing
      else if desired.terminating then
        if status == "running" then Running
        else match observed.exitCode
          case None => Finishing
          case Some(code) => if code == 0 then Completed else Failed
      else if status == "running" then Running
      else if status == "restarting" then RestartingNow
      else if status == "paused" then Paused
      else if desired.running && observed.interrupted then Interrupted
      else if desired.running then Crashed
      else Stopped
    }

    /** Recorded, but no container was ever created for it. */
    predicate IsPlaceholder()
    {
      desired.containerName == ""
    }
  }

  /** What a create is for: a whole flow, or one node and its requirements. */
  datatype EnvSpec = FlowSpec(flow: string) | NodeSpec(nodeId: string)

  datatype EnvState = EnvState(
    network: string,
    containers: map<string, ContainerInfo>,
    volumes: map<string, bool>,
    sidecarContainerName: string,
    sidecarIp: Option<string>,
    pendingCreate: Option<EnvSpec>)
  {
    /** Every record is filed under its own node. */
    ghost predicate Keyed()
    {
      forall id | id in containers :: containers[id].nodeId == id
    }
  }

  const DEFAULT_ENV := EnvState("", map[], map[], "", None, None)

  datatype WorkspaceState = WorkspaceState(owner: Option<string>, env: Option<EnvState>)
}
