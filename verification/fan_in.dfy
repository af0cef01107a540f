/** `run_fanned_in_effect` of `src/effects/mod.rs`, as the interleaved steps of
    actors, registry, forwarder tasks and driver. */
module FanIn {
  import opened Ordering
  import opened State

  /** A `watch` channel: what it holds and how often it was sent to. */
  datatype Watch<V> = Watch(value: V, version: nat)

  /** A forwarder task: the actor it subscribed to, the version its receiver has
      seen, and whether it still has to notify. */
  datatype Forwarder = Forwarder(actor: nat, seen: nat, woken: bool)

  datatype Phase =
    | Top
    /** The registry is read; stale forwarders are still to be dropped. */
    | Retaining
    /** Missing forwarders are being started. */
    | Subscribing
    /** The states of `left` are still to be read. */
    | Reading(left: set<string>)
    | Waiting

  /** The driver's locals. `workspacesAt` and `readAt` name the versions what it
      holds was read at; `failed` is what this pass, or before its end the last one,
      tried to converge in vain. */
  datatype Driver<V, S> = Driver(
    phase: Phase,
    seen: nat,
    workspaces: map<string, nat>,
    workspacesAt: nat,
    states: map<string, V>,
    readAt: map<string, nat>,
    last: Option<S>,
    failed: Option<S>)

  /** `registry` maps wired workspaces to their actors; `permit` is the one
      permit a `Notify` stores. */
  datatype World<V, S> = World(
    actors: map<nat, Watch<V>>,
    registry: Watch<map<string, nat>>,
    permit: bool,
    forwarders: map<string, Forwarder>,
    driver: Driver<V, S>)

  datatype Step<V> =
    | Spawn(actor: nat, value: V)
    | Update(actor: nat, value: V)
    | Rewire(wired: map<string, nat>)
    | Wake(id: string)
    | Notify(id: string)
    | ReadRegistry
    | DropForwarders
    | StartForwarder(id: string)
    | StartReading
    | ReadState(id: string)
    | Converge(ok: bool)
    | WaitPermit
    | WaitRegistry

  predicate Enabled<V, S>(w: World<V, S>, step: Step<V>)
  {
    var d := w.driver;
    match step
    case Spawn(a, _) => a !in w.actors
    case Update(a, _) => a in w.actors
    case Rewire(wired) => wired.Values <= w.actors.Keys
    case Wake(id) =>
      id in w.forwarders && !w.forwarders[id].woken && w.forwarders[id].actor in w.actors
      && w.forwarders[id].seen < w.actors[w.forwarders[id].actor].version
    case Notify(id) => id in w.forwarders && w.forwarders[id].woken
    case ReadRegistry => d.phase.Top?
    case DropForwarders => d.phase.Retaining?
    case StartForwarder(id) => d.phase.Subscribing? && id in d.workspaces && id !in w.forwarders
    case StartReading => d.phase.Subscribing? && d.workspaces.Keys <= w.forwarders.Keys
    case ReadState(id) =>
      d.phase.Reading? && id in d.phase.left && id in d.workspaces && d.workspaces[id] in w.actors
    case Converge(_) => d.phase.Reading? && d.phase.left == {}
    case WaitPermit => d.phase.Waiting? && w.permit
    case WaitRegistry => d.phase.Waiting? && d.seen < w.registry.version
  }

  ghost function Take<V, S>(w: World<V, S>, step: Step<V>, extract: map<string, V> -> S): World<V, S>
    requires Enabled(w, step)
  {
    var d := w.driver;
    match step
    case Spawn(a, v) => w.(actors := w.actors[a := Watch(v, 0)])
    case Update(a, v) => w.(actors := w.actors[a := Watch(v, w.actors[a].version + 1)])
    case Rewire(wired) => w.(registry := Watch(wired, w.registry.version + 1))
    case Wake(id) =>
      var f := w.forwarders[id];
      w.(forwarders := w.forwarders[id := f.(seen := w.actors[f.actor].version, woken := true)])
    case Notify(id) => w.(permit := true, forwarders := w.forwarders[id := w.forwarders[id].(woken := false)])
    // `borrow` does not mark the registry's version seen.
    case ReadRegistry =>
      w.(driver := d.(phase := Retaining, workspaces := w.registry.value, workspacesAt := w.registry.version))
    case DropForwarders =>
      w.(forwarders := map id | id in w.forwarders && id in d.workspaces :: w.forwarders[id],
         driver := d.(phase := Subscribing))
    // A handle's own receiver is never advanced, so a clone of it has seen nothing.
    case StartForwarder(id) => w.(forwarders := w.forwarders[id := Forwarder(d.workspaces[id], 0, false)])
    case StartReading => w.(driver := d.(phase := Reading(d.workspaces.Keys), states := map[], readAt := map[]))
    case ReadState(id) =>
      var actor := w.actors[d.workspaces[id]];
      w.(driver := d.(phase := Reading(d.phase.left - {id}),
        states := d.states[id := actor.value], readAt := d.readAt[id := actor.version]))
    case Converge(ok) =>
      var snapshot := extract(d.states);
      w.(driver :=
        if d.last == Some(snapshot) then d.(phase := Waiting, failed := None)
        else if ok then d.(phase := Waiting, last := Some(snapshot), failed := None)
        else d.(phase := Waiting, failed := Some(snapshot)))
    case WaitPermit => w.(permit := false, driver := d.(phase := Top))
    case WaitRegistry => w.(driver := d.(phase := Top, seen := w.registry.version))
  }

  /** The driver about to make its first pass. */
  ghost predicate Initial<V, S>(w: World<V, S>)
  {
    && w.registry.value.Values <= w.actors.Keys
    && w.forwarders == map[] && !w.permit
    && w.driver.phase.Top? && w.driver.seen <= w.registry.version && w.driver.workspaces == map[]
    && w.driver.last.None? && w.driver.failed.None?
  }

  ghost predicate IsHistory<V, S>(worlds: seq<World<V, S>>, steps: seq<Step<V>>, extract: map<string, V> -> S)
  {
    IsTrace(worlds, steps, extract) && Initial(worlds[0])
  }

  /** What happens step by step, from any world on. */
  ghost predicate IsTrace<V, S>(worlds: seq<World<V, S>>, steps: seq<Step<V>>, extract: map<string, V> -> S)
  {
    && |worlds| == |steps| + 1
    && forall i :: 0 <= i < |steps| ==> Enabled(worlds[i], steps[i]) && worlds[i + 1] == Take(worlds[i], steps[i], extract)
  }

  lemma TraceStep<V, S>(worlds: seq<World<V, S>>, steps: seq<Step<V>>, extract: map<string, V> -> S, i: nat, j: nat)
    requires IsTrace(worlds, steps, extract) && i < |steps| && j == i + 1
    ensures Enabled(worlds[i], steps[i]) && worlds[j] == Take(worlds[i], steps[i], extract)
  {
  }

  /** Neither the driver nor any forwarder can move. */
  ghost predicate Quiescent<V, S>(w: World<V, S>)
  {
    && w.driver.phase.Waiting? && !w.permit && w.driver.seen == w.registry.version
    && forall id | id in w.forwarders :: Blocked(w, w.forwarders[id])
  }

  ghost predicate Blocked<V, S>(w: World<V, S>, f: Forwarder)
  {
    !f.woken && (f.actor in w.actors ==> w.actors[f.actor].version <= f.seen)
  }

  // ----- the invariant -----

  ghost predicate Consistent<V, S>(w: World<V, S>)
  {
    var d := w.driver;
    && w.registry.value.Values <= w.actors.Keys
    && d.seen <= w.registry.version
    && (!d.phase.Top? ==>
      && d.seen <= d.workspacesAt <= w.registry.version
      && d.workspaces.Values <= w.actors.Keys
      && (d.workspacesAt == w.registry.version ==> d.workspaces == w.registry.value))
    && (forall id | id in w.forwarders :: ForwarderOk(w, id))
  }

  ghost predicate ForwarderOk<V, S>(w: World<V, S>, id: string)
    requires id in w.forwarders
  {
    var f := w.forwarders[id];
    f.actor in w.actors && f.seen <= w.actors[f.actor].version
  }

  /** The driver has read `id`'s state in this pass. */
  predicate HasRead<V, S>(d: Driver<V, S>, id: string)
  {
    id in d.workspaces && (d.phase.Waiting? || (d.phase.Reading? && id !in d.phase.left))
  }

  /** What was read is as new as its version says, and a forwarder that knows of
      something newer still has a wakeup to deliver. */
  ghost predicate Fresh<V, S>(w: World<V, S>, id: string)
    requires id in w.driver.workspaces
  {
    var d, a := w.driver, w.driver.workspaces[id];
    && a in w.actors && id in d.states && id in d.readAt
    && d.readAt[id] <= w.actors[a].version
    && (d.readAt[id] == w.actors[a].version ==> d.states[id] == w.actors[a].value)
    && id in w.forwarders
    && forall f | f in w.forwarders && w.forwarders[f].actor == a ::
         w.permit || w.forwarders[f].woken || w.forwarders[f].seen <= d.readAt[id]
  }

  /** The last pass ended with `snapshot` converged, or with a failed attempt at it. */
  predicate Holds<V, S(==)>(d: Driver<V, S>, snapshot: S)
  {
    if d.failed.Some? then d.failed == Some(snapshot) else d.last == Some(snapshot)
  }

  ghost predicate Inv<V, S>(w: World<V, S>, extract: map<string, V> -> S)
  {
    var d := w.driver;
    && Consistent(w)
    && ((d.phase.Reading? || d.phase.Waiting?) ==> w.forwarders.Keys == d.workspaces.Keys)
    && (forall id | HasRead(d, id) :: Fresh(w, id))
    && (d.phase.Reading? ==> d.phase.left <= d.workspaces.Keys && d.states.Keys == d.workspaces.Keys - d.phase.left)
    && (d.phase.Subscribing? ==> w.forwarders.Keys <= d.workspaces.Keys)
    && (d.phase.Waiting? ==>
      && d.states.Keys == d.workspaces.Keys
      && Holds(d, extract(d.states)))
  }

  lemma InvInitial<V, S>(w: World<V, S>, extract: map<string, V> -> S)
    requires Initial(w)
    ensures Inv(w, extract)
  {
  }

  lemma InvOutside<V, S>(w: World<V, S>, step: Step<V>, extract: map<string, V> -> S)
    requires Inv(w, extract) && Enabled(w, step)
    requires step.Spawn? || step.Update? || step.Rewire?
    ensures Inv(Take(w, step, extract), extract)
  {
    var t := Take(w, step, extract);
    forall id | id in t.forwarders ensures ForwarderOk(t, id) {
      assert id in w.forwarders ==> ForwarderOk(w, id);
    }
    forall id | HasRead(t.driver, id) ensures Fresh(t, id) {
      assert HasRead(w.driver, id) ==> Fresh(w, id);
      assert id in w.forwarders ==> ForwarderOk(w, id);
    }
  }

  lemma InvForwarders<V, S>(w: World<V, S>, step: Step<V>, extract: map<string, V> -> S)
    requires Inv(w, extract) && Enabled(w, step)
    requires step.Wake? || step.Notify?
    ensures Inv(Take(w, step, extract), extract)
  {
    var t := Take(w, step, extract);
    forall id | id in t.forwarders ensures ForwarderOk(t, id) {
      assert id in w.forwarders ==> ForwarderOk(w, id);
    }
    forall id | HasRead(t.driver, id) ensures Fresh(t, id) {
      assert HasRead(w.driver, id) ==> Fresh(w, id);
      assert id in w.forwarders ==> ForwarderOk(w, id);
    }
  }

  lemma InvPassBegins<V, S>(w: World<V, S>, step: Step<V>, extract: map<string, V> -> S)
    requires Inv(w, extract) && Enabled(w, step)
    requires step.ReadRegistry? || step.DropForwarders? || step.StartForwarder? || step.StartReading?
    ensures Inv(Take(w, step, extract), extract)
  {
    var t := Take(w, step, extract);
    forall id | id in t.forwarders ensures ForwarderOk(t, id) {
      assert id in w.forwarders ==> ForwarderOk(w, id);
    }
  }

  lemma InvReads<V, S>(w: World<V, S>, step: Step<V>, extract: map<string, V> -> S)
    requires Inv(w, extract) && Enabled(w, step)
    requires step.ReadState?
    ensures Inv(Take(w, step, extract), extract)
  {
    var t := Take(w, step, extract);
    forall id | id in t.forwarders ensures ForwarderOk(t, id) {
      assert id in w.forwarders ==> ForwarderOk(w, id);
    }
    forall id | HasRead(t.driver, id) ensures Fresh(t, id) {
      assert HasRead(w.driver, id) ==> Fresh(w, id);
      assert id in w.forwarders ==> ForwarderOk(w, id);
    }
  }

  lemma InvConverges<V, S>(w: World<V, S>, step: Step<V>, extract: map<string, V> -> S)
    requires Inv(w, extract) && Enabled(w, step)
    requires step.Converge?
    ensures Inv(Take(w, step, extract), extract)
  {
    var t := Take(w, step, extract);
    StillConsistent(w, t);
    forall id | HasRead(t.driver, id) ensures Fresh(t, id) {
      assert HasRead(w.driver, id);
      StillFresh(w, t, id);
    }
  }

  /** Only what was converged, and the phase, differs. */
  ghost predicate SameReads<V, S>(w: World<V, S>, t: World<V, S>)
  {
    && t.actors == w.actors && t.registry == w.registry && t.permit == w.permit && t.forwarders == w.forwarders
    && t.driver.seen == w.driver.seen && t.driver.workspaces == w.driver.workspaces
    && t.driver.workspacesAt == w.driver.workspacesAt
    && t.driver.states == w.driver.states && t.driver.readAt == w.driver.readAt
  }

  lemma StillConsistent<V, S>(w: World<V, S>, t: World<V, S>)
    requires Consistent(w) && SameReads(w, t) && !w.driver.phase.Top?
    ensures Consistent(t)
  {
    forall id | id in t.forwarders ensures ForwarderOk(t, id) {
      assert ForwarderOk(w, id);
    }
  }

  lemma StillFresh<V, S>(w: World<V, S>, t: World<V, S>, id: string)
    requires id in w.driver.workspaces && Fresh(w, id) && SameReads(w, t)
    ensures Fresh(t, id)
  {
  }

  lemma InvWaits<V, S>(w: World<V, S>, step: Step<V>, extract: map<string, V> -> S)
    requires Inv(w, extract) && Enabled(w, step)
    requires step.WaitPermit? || step.WaitRegistry?
    ensures Inv(Take(w, step, extract), extract)
  {
    var t := Take(w, step, extract);
    forall id | id in t.forwarders ensures ForwarderOk(t, id) {
      assert id in w.forwarders ==> ForwarderOk(w, id);
    }
  }

  lemma InvStep<V, S>(w: World<V, S>, step: Step<V>, extract: map<string, V> -> S)
    requires Inv(w, extract) && Enabled(w, step)
    ensures Inv(Take(w, step, extract), extract)
  {
    match step
    case Spawn(_, _) => InvOutside(w, step, extract);
    case Update(_, _) => InvOutside(w, step, extract);
    case Rewire(_) => InvOutside(w, step, extract);
    case Wake(_) => InvForwarders(w, step, extract);
    case Notify(_) => InvForwarders(w, step, extract);
    case ReadRegistry => InvPassBegins(w, step, extract);
    case DropForwarders => InvPassBegins(w, step, extract);
    case StartForwarder(_) => InvPassBegins(w, step, extract);
    case StartReading => InvPassBegins(w, step, extract);
    case ReadState(_) => InvReads(w, step, extract);
    case Converge(_) => InvConverges(w, step, extract);
    case WaitPermit => InvWaits(w, step, extract);
    case WaitRegistry => InvWaits(w, step, extract);
  }

  lemma {:induction false} InvAlways<V, S>(worlds: seq<World<V, S>>, steps: seq<Step<V>>, extract: map<string, V> -> S, i: nat)
    requires IsHistory(worlds, steps, extract) && i < |worlds|
    ensures Inv(worlds[i], extract)
    decreases i
  {
    if i == 0 {
      InvInitial(worlds[0], extract);
    } else {
      InvAlways(worlds, steps, extract, i - 1);
      InvStep(worlds[i - 1], steps[i - 1], extract);
      assert worlds[i - 1 + 1] == Take(worlds[i - 1], steps[i - 1], extract);
    }
  }

  // ----- no update is lost -----

  ghost function CurrentStates<V, S>(w: World<V, S>): map<string, V>
    requires w.registry.value.Values <= w.actors.Keys
  {
    map id | id in w.registry.value && w.registry.value[id] in w.actors :: w.actors[w.registry.value[id]].value
  }

  /** Some forwarder watches `actor`. */
  ghost predicate Watched<V, S>(w: World<V, S>, actor: nat)
  {
    exists f :: f in w.forwarders && w.forwarders[f].actor == actor
  }

  /** Every wired workspace's actor is watched. */
  ghost predicate AllWatched<V, S>(w: World<V, S>)
  {
    forall id | id in w.registry.value :: Watched(w, w.registry.value[id])
  }

  /** What the driver converged last is what the current states ask for, or
      converging just that is what its last pass failed at. */
  ghost predicate Converged<V, S>(w: World<V, S>, extract: map<string, V> -> S)
    requires w.registry.value.Values <= w.actors.Keys
  {
    Holds(w.driver, extract(CurrentStates(w)))
  }

  lemma QuiescentIsConverged<V, S>(w: World<V, S>, extract: map<string, V> -> S)
    requires Inv(w, extract) && Quiescent(w) && AllWatched(w)
    ensures Converged(w, extract)
  {
    forall id | id in w.driver.workspaces ensures ReadIsCurrent(w, id) {
      RestIsCurrent(w, extract, id);
    }
    StatesAreCurrent(w);
  }

  ghost predicate ReadIsCurrent<V, S>(w: World<V, S>, id: string)
  {
    && id in w.driver.workspaces && w.driver.workspaces[id] in w.actors && id in w.driver.states
    && w.driver.states[id] == w.actors[w.driver.workspaces[id]].value
  }

  lemma RestIsCurrent<V, S>(w: World<V, S>, extract: map<string, V> -> S, id: string)
    requires Inv(w, extract) && Quiescent(w) && AllWatched(w) && id in w.driver.workspaces
    ensures ReadIsCurrent(w, id)
  {
    assert HasRead(w.driver, id) && Fresh(w, id);
    assert Watched(w, w.registry.value[id]);
    var f :| f in w.forwarders && w.forwarders[f].actor == w.registry.value[id];
    assert Blocked(w, w.forwarders[f]);
  }

  lemma StatesAreCurrent<V, S>(w: World<V, S>)
    requires w.registry.value.Values <= w.actors.Keys
    requires w.driver.workspaces == w.registry.value && w.driver.states.Keys == w.driver.workspaces.Keys
    requires forall id | id in w.driver.workspaces :: ReadIsCurrent(w, id)
    ensures w.driver.states == CurrentStates(w)
  {
    var d := w.driver;
    forall id ensures id in d.states <==> id in CurrentStates(w) {
      assert id in d.workspaces ==> ReadIsCurrent(w, id);
    }
    forall id | id in d.states ensures d.states[id] == CurrentStates(w)[id] {
      assert ReadIsCurrent(w, id);
    }
  }

  /** Between two passes of the driver, no workspace that stays wired changes
      its actor. */
  ghost predicate StableActors<V, S>(worlds: seq<World<V, S>>, steps: seq<Step<V>>)
    requires |worlds| == |steps| + 1
  {
    forall i | 0 <= i < |steps| && steps[i] == ReadRegistry :: ReadsSameActors(worlds[i])
  }

  ghost predicate ReadsSameActors<V, S>(w: World<V, S>)
  {
    forall id | id in w.driver.workspaces && id in w.registry.value :: w.driver.workspaces[id] == w.registry.value[id]
  }

  /** Forwarders watch the actors the driver knows. */
  ghost predicate WatchesWorkspaces<V, S>(w: World<V, S>)
  {
    && (w.driver.phase.Top? ==> w.forwarders.Keys <= w.driver.workspaces.Keys)
    && forall id | id in w.forwarders && id in w.driver.workspaces :: w.forwarders[id].actor == w.driver.workspaces[id]
  }

  lemma {:induction false} AlwaysWatchesWorkspaces<V, S>(worlds: seq<World<V, S>>, steps: seq<Step<V>>, extract: map<string, V> -> S, i: nat)
    requires IsHistory(worlds, steps, extract) && StableActors(worlds, steps) && i < |worlds|
    ensures WatchesWorkspaces(worlds[i])
    decreases i
  {
    if i > 0 {
      var m := i - 1;
      AlwaysWatchesWorkspaces(worlds, steps, extract, m);
      InvAlways(worlds, steps, extract, m);
      TraceStep(worlds, steps, extract, m, i);
      StableStep(worlds, steps, m);
      WatchesStep(worlds[m], steps[m], extract);
    }
  }

  lemma StableStep<V, S>(worlds: seq<World<V, S>>, steps: seq<Step<V>>, i: nat)
    requires |worlds| == |steps| + 1 && StableActors(worlds, steps) && i < |steps|
    ensures steps[i] == ReadRegistry ==> ReadsSameActors(worlds[i])
  {
  }

  lemma WatchesStep<V, S>(w: World<V, S>, step: Step<V>, extract: map<string, V> -> S)
    requires Inv(w, extract) && WatchesWorkspaces(w) && Enabled(w, step)
    requires step == ReadRegistry ==> ReadsSameActors(w)
    ensures WatchesWorkspaces(Take(w, step, extract))
  {
  }

  /** Whether the last attempt of `steps` was allowed to succeed. */
  function LastAttempt<V>(steps: seq<Step<V>>): Option<bool>
  {
    if steps == [] then None
    else if steps[|steps| - 1].Converge? then Some(steps[|steps| - 1].ok)
    else LastAttempt(steps[..|steps| - 1])
  }

  /** A failure on record is the last pass's own, never an older one. */
  lemma {:induction false} FailuresAreFresh<V, S>(worlds: seq<World<V, S>>, steps: seq<Step<V>>, extract: map<string, V> -> S, i: nat)
    requires IsHistory(worlds, steps, extract) && i < |worlds|
    ensures worlds[i].driver.failed.Some? ==> LastAttempt(steps[..i]) == Some(false)
    decreases i
  {
    if i > 0 {
      FailuresAreFresh(worlds, steps, extract, i - 1);
      assert worlds[i - 1 + 1] == Take(worlds[i - 1], steps[i - 1], extract);
      assert steps[..i][..i - 1] == steps[..i - 1];
    }
  }

  /** In every interleaving, once nothing can move any more the resource was
      converged to the current states, or converging to them is what just failed. */
  lemma NoWakeupIsLost<V, S>(worlds: seq<World<V, S>>, steps: seq<Step<V>>, extract: map<string, V> -> S, i: nat)
    requires IsHistory(worlds, steps, extract) && StableActors(worlds, steps) && i < |worlds|
    requires Quiescent(worlds[i])
    ensures worlds[i].registry.value.Values <= worlds[i].actors.Keys && Converged(worlds[i], extract)
    ensures LastAttempt(steps[..i]) != Some(false) ==> worlds[i].driver.last == Some(extract(CurrentStates(worlds[i])))
  {
    InvAlways(worlds, steps, extract, i);
    AlwaysWatchesWorkspaces(worlds, steps, extract, i);
    var w := worlds[i];
    forall id | id in w.registry.value ensures Watched(w, w.registry.value[id]) {
      assert id in w.forwarders && w.forwarders[id].actor == w.registry.value[id];
    }
    QuiescentIsConverged(w, extract);
    FailuresAreFresh(worlds, steps, extract, i);
  }

  // ----- exactly when an update is noticed -----

  /** While all are blocked, an update of a wired workspace's actor wakes somebody
      exactly if a forwarder watches that actor. */
  lemma UpdateNoticedExactly<V, S>(w: World<V, S>, extract: map<string, V> -> S, id: string, v: V)
    requires Inv(w, extract) && Quiescent(w) && id in w.registry.value
    ensures Enabled(w, Update(w.registry.value[id], v))
    ensures !Quiescent(Take(w, Update(w.registry.value[id], v), extract)) <==> Watched(w, w.registry.value[id])
  {
    var t := Take(w, Update(w.registry.value[id], v), extract);
    if Watched(w, w.registry.value[id]) {
      var f :| f in w.forwarders && w.forwarders[f].actor == w.registry.value[id];
      assert ForwarderOk(w, f) && !Blocked(t, t.forwarders[f]);
    } else {
      forall f | f in t.forwarders ensures Blocked(t, t.forwarders[f]) {
        assert Blocked(w, w.forwarders[f]);
        assert w.forwarders[f].actor != w.registry.value[id];
      }
    }
  }

  ghost predicate NoticesAll<V, S>(w: World<V, S>, extract: map<string, V> -> S, v: V)
    requires w.registry.value.Values <= w.actors.Keys
  {
    forall id | id in w.registry.value :: !Quiescent(Take(w, Update(w.registry.value[id], v), extract))
  }

  /** So at rest every update of every wired workspace is noticed exactly if every
      one's actor is watched; the current states are then converged as well. */
  lemma UpdatesNoticedExactly<V, S>(w: World<V, S>, extract: map<string, V> -> S, v: V)
    requires Inv(w, extract) && Quiescent(w)
    ensures NoticesAll(w, extract, v) <==> AllWatched(w)
    ensures AllWatched(w) ==> Converged(w, extract)
  {
    forall id | id in w.registry.value
      ensures !Quiescent(Take(w, Update(w.registry.value[id], v), extract)) <==> Watched(w, w.registry.value[id])
    {
      UpdateNoticedExactly(w, extract, id, v);
    }
    if AllWatched(w) {
      QuiescentIsConverged(w, extract);
    }
  }

  /** The workspaces of this pass whose forwarder watches another actor. */
  function Detached<V, S>(w: World<V, S>): set<string>
  {
    set id | id in w.forwarders && id in w.driver.workspaces && w.forwarders[id].actor != w.driver.workspaces[id]
  }

  /** Which these are is settled when the driver reads the registry: exactly those
      that had a forwarder for another actor then. No other step changes them. */
  lemma DetachedAtTheRegistryRead<V, S>(w: World<V, S>, step: Step<V>, extract: map<string, V> -> S)
    requires Inv(w, extract) && Enabled(w, step)
    ensures var t := Take(w, step, extract);
      if step == ReadRegistry then
        forall id :: id in Detached(t) <==>
          id in w.registry.value && id in w.forwarders && w.forwarders[id].actor != w.registry.value[id]
      else Detached(t) == Detached(w)
  {
  }

  /** At rest, what is not watched is detached. */
  lemma UnwatchedIsDetached<V, S>(w: World<V, S>, extract: map<string, V> -> S, id: string)
    requires Inv(w, extract) && Quiescent(w) && id in w.registry.value
    ensures !Watched(w, w.registry.value[id]) ==> id in Detached(w)
    ensures Detached(w) == {} ==> AllWatched(w)
  {
    forall x | x in w.registry.value && x !in Detached(w) ensures Watched(w, w.registry.value[x]) {
      assert x in w.forwarders && w.forwarders[x].actor == w.registry.value[x];
    }
  }

  // ----- left alone, it comes to rest -----

  /** A step of a forwarder or the driver. */
  predicate Internal<V>(step: Step<V>)
  {
    !step.Spawn? && !step.Update? && !step.Rewire?
  }

  predicate Behind<V, S>(w: World<V, S>)
  {
    !w.driver.phase.Top? && w.driver.workspacesAt < w.registry.version
  }

  /** Passes still to come because of the registry. */
  function Stale<V, S>(w: World<V, S>): nat
  {
    (if Behind(w) then 1 else 0) + (if w.driver.seen < w.registry.version then 1 else 0)
  }

  function Woken<V, S>(w: World<V, S>): set<string>
  {
    set id | id in w.forwarders && w.forwarders[id].woken
  }

  function Unseen<V, S>(w: World<V, S>): set<string>
  {
    set id | id in w.forwarders && w.forwarders[id].actor in w.actors
      && w.forwarders[id].seen < w.actors[w.forwarders[id].actor].version
  }

  /** The workspaces this or the next pass starts a forwarder for. */
  function Missing<V, S>(w: World<V, S>): set<string>
  {
    (if w.driver.phase.Top? then w.registry.value.Keys else w.driver.workspaces.Keys) - w.forwarders.Keys
  }

  /** Wakeups on their way to the driver, each weighed by how far it has to go. */
  function Pending<V, S>(w: World<V, S>): nat
  {
    (if w.permit then 1 else 0) + 2 * |Woken(w)| + 3 * |Unseen(w)| + 4 * |Missing(w)|
  }

  /** What is left of the pass. */
  function Left<V, S>(w: World<V, S>): nat
  {
    match w.driver.phase
    case Top => 4 + |w.registry.value.Keys|
    case Retaining => 3 + |w.driver.workspaces.Keys|
    case Subscribing => 2 + |w.driver.workspaces.Keys|
    case Reading(left) => 1 + |left|
    case Waiting => 0
  }

  ghost predicate Closer<V, S>(t: World<V, S>, w: World<V, S>)
  {
    || Stale(t) < Stale(w)
    || (Stale(t) == Stale(w) && Pending(t) < Pending(w))
    || (Stale(t) == Stale(w) && Pending(t) == Pending(w) && Left(t) < Left(w))
  }

  lemma Grown(a: set<string>, x: string, b: set<string>)
    requires x !in a && b == a + {x}
    ensures |b| == |a| + 1
  {
  }

  lemma WakeMoves<V, S>(w: World<V, S>, id: string, extract: map<string, V> -> S)
    requires Enabled(w, Wake(id))
    ensures Closer(Take(w, Wake(id), extract), w)
  {
    var t := Take(w, Wake(id), extract);
    assert t.driver == w.driver && t.registry == w.registry && t.permit == w.permit;
    assert Missing(t) == Missing(w);
    assert id !in Unseen(t) && Unseen(w) == Unseen(t) + {id};
    Grown(Unseen(t), id, Unseen(w));
    assert id !in Woken(w) && Woken(t) == Woken(w) + {id};
    Grown(Woken(w), id, Woken(t));
  }

  lemma NotifyMoves<V, S>(w: World<V, S>, id: string, extract: map<string, V> -> S)
    requires Enabled(w, Notify(id))
    ensures Closer(Take(w, Notify(id), extract), w)
  {
    var t := Take(w, Notify(id), extract);
    assert t.driver == w.driver && t.registry == w.registry;
    assert Missing(t) == Missing(w);
    assert Unseen(t) == Unseen(w);
    assert id !in Woken(t) && Woken(w) == Woken(t) + {id};
    Grown(Woken(t), id, Woken(w));
  }

  lemma DropsSome<V, S>(w: World<V, S>, t: World<V, S>)
    requires forall id | id in t.forwarders :: id in w.forwarders && t.forwarders[id] == w.forwarders[id]
    requires t.actors == w.actors
    ensures |Woken(t)| <= |Woken(w)| && |Unseen(t)| <= |Unseen(w)|
  {
    SubsetSize(Woken(t), Woken(w));
    SubsetSize(Unseen(t), Unseen(w));
  }

  lemma DropsOthers(keys: set<string>, a: set<string>)
    ensures keys - a * keys == keys - a
  {
  }

  lemma DropMissesNone<V, S>(w: World<V, S>, t: World<V, S>)
    requires w.driver.phase.Retaining? && t.driver == w.driver.(phase := Subscribing)
    requires t.forwarders.Keys == w.forwarders.Keys * w.driver.workspaces.Keys
    ensures Missing(t) == Missing(w)
  {
    DropsOthers(w.driver.workspaces.Keys, w.forwarders.Keys);
  }

  lemma DropMoves<V, S>(w: World<V, S>, extract: map<string, V> -> S)
    requires Enabled(w, DropForwarders)
    ensures Closer(Take(w, DropForwarders, extract), w)
  {
    var t := Take(w, DropForwarders, extract);
    DropsSome(w, t);
    DropMissesNone(w, t);
  }

  lemma AddsOne<V, S>(w: World<V, S>, t: World<V, S>, id: string, f: Forwarder)
    requires id !in w.forwarders && !f.woken
    requires t.forwarders == w.forwarders[id := f] && t.actors == w.actors
    ensures |Woken(t)| <= |Woken(w)| && |Unseen(t)| <= |Unseen(w)| + 1
  {
    SubsetSize(Woken(t), Woken(w));
    SubsetSize(Unseen(t), Unseen(w) + {id});
  }

  lemma OneLess(keys: set<string>, a: set<string>, b: set<string>, id: string)
    requires id in keys && id !in a && b == a + {id}
    ensures |keys - a| == |keys - b| + 1
  {
    assert keys - a == (keys - b) + {id};
  }

  lemma MissesOneLess<V, S>(w: World<V, S>, t: World<V, S>, id: string, f: Forwarder)
    requires w.driver.phase.Subscribing? && t.driver == w.driver
    requires id in w.driver.workspaces && id !in w.forwarders && t.forwarders == w.forwarders[id := f]
    ensures |Missing(w)| == |Missing(t)| + 1
  {
    OneLess(w.driver.workspaces.Keys, w.forwarders.Keys, t.forwarders.Keys, id);
  }

  lemma StartMoves<V, S>(w: World<V, S>, id: string, extract: map<string, V> -> S)
    requires Enabled(w, StartForwarder(id))
    ensures Closer(Take(w, StartForwarder(id), extract), w)
  {
    var t := Take(w, StartForwarder(id), extract);
    var f := Forwarder(w.driver.workspaces[id], 0, false);
    AddsOne(w, t, id, f);
    MissesOneLess(w, t, id, f);
  }

  lemma SameForwarders<V, S>(t: World<V, S>, w: World<V, S>)
    requires t.forwarders == w.forwarders && t.actors == w.actors
    ensures Woken(t) == Woken(w) && Unseen(t) == Unseen(w)
  {
  }

  lemma ReadsMove<V, S>(w: World<V, S>, id: string, extract: map<string, V> -> S)
    requires Enabled(w, ReadState(id))
    ensures Closer(Take(w, ReadState(id), extract), w)
  {
    var t := Take(w, ReadState(id), extract);
    SameForwarders(t, w);
    assert Missing(t) == Missing(w);
    Grown(w.driver.phase.left - {id}, id, w.driver.phase.left);
  }

  lemma SamePending<V, S>(t: World<V, S>, w: World<V, S>)
    requires t.forwarders == w.forwarders && t.actors == w.actors && t.permit == w.permit && Missing(t) == Missing(w)
    ensures Pending(t) == Pending(w)
  {
    SameForwarders(t, w);
  }

  lemma PassMoves<V, S>(w: World<V, S>, step: Step<V>, extract: map<string, V> -> S)
    requires Consistent(w) && Enabled(w, step)
    requires step.ReadRegistry? || step.StartReading? || step.Converge?
    ensures Closer(Take(w, step, extract), w)
  {
    var t := Take(w, step, extract);
    PassAdvances(w, step, extract);
    SamePending(t, w);
  }

  lemma PassAdvances<V, S>(w: World<V, S>, step: Step<V>, extract: map<string, V> -> S)
    requires Consistent(w) && Enabled(w, step)
    requires step.ReadRegistry? || step.StartReading? || step.Converge?
    ensures var t := Take(w, step, extract);
      Missing(t) == Missing(w) && Stale(t) == Stale(w) && Left(t) < Left(w)
  {
  }

  lemma WaitMoves<V, S>(w: World<V, S>, step: Step<V>, extract: map<string, V> -> S)
    requires Consistent(w) && w.forwarders.Keys == w.driver.workspaces.Keys && Enabled(w, step)
    requires step.WaitPermit? || step.WaitRegistry?
    ensures Closer(Take(w, step, extract), w)
  {
    var t := Take(w, step, extract);
    SameForwarders(t, w);
    if step.WaitPermit? && !Behind(w) {
      assert Missing(t) == {} && Missing(w) == {};
    }
  }

  /** Every step of a forwarder or the driver brings the whole closer to rest. */
  lemma InternalStepsDescend<V, S>(w: World<V, S>, step: Step<V>, extract: map<string, V> -> S)
    requires Inv(w, extract) && Enabled(w, step) && Internal(step)
    ensures Closer(Take(w, step, extract), w)
  {
    match step
    case Wake(id) => WakeMoves(w, id, extract);
    case Notify(id) => NotifyMoves(w, id, extract);
    case DropForwarders => DropMoves(w, extract);
    case StartForwarder(id) => StartMoves(w, id, extract);
    case WaitPermit => WaitMoves(w, step, extract);
    case WaitRegistry => WaitMoves(w, step, extract);
    case ReadRegistry => PassMoves(w, step, extract);
    case StartReading => PassMoves(w, step, extract);
    case ReadState(id) => ReadsMove(w, id, extract);
    case Converge(_) => PassMoves(w, step, extract);
  }

  /** Until then one of them can take a step. */
  lemma SomethingMoves<V, S>(w: World<V, S>, extract: map<string, V> -> S) returns (step: Step<V>)
    requires Inv(w, extract) && !Quiescent(w)
    ensures Internal(step) && Enabled(w, step)
  {
    var d := w.driver;
    match d.phase
    case Top => step := ReadRegistry;
    case Retaining => step := DropForwarders;
    case Subscribing =>
      if id :| id in d.workspaces && id !in w.forwarders {
        step := StartForwarder(id);
      } else {
        step := StartReading;
      }
    case Reading(left) =>
      if id :| id in left {
        step := ReadState(id);
      } else {
        step := Converge(true);
      }
    case Waiting =>
      if w.permit {
        step := WaitPermit;
      } else if d.seen < w.registry.version {
        step := WaitRegistry;
      } else {
        var id :| id in w.forwarders && !Blocked(w, w.forwarders[id]);
        step := if w.forwarders[id].woken then Notify(id) else Wake(id);
      }
  }

  lemma Extend<V, S>(worlds: seq<World<V, S>>, steps: seq<Step<V>>, extract: map<string, V> -> S, w: World<V, S>, step: Step<V>)
    returns (longer: seq<World<V, S>>, more: seq<Step<V>>, next: World<V, S>)
    requires IsHistory(worlds, steps, extract) && worlds[|steps|] == w && Enabled(w, step)
    ensures IsHistory(longer, more, extract) && longer[|more|] == next
    ensures longer == worlds + [next] && more == steps + [step] && next == Take(w, step, extract)
  {
    next := Take(w, step, extract);
    longer, more := worlds + [next], steps + [step];
    forall i | 0 <= i < |more|
      ensures Enabled(longer[i], more[i]) && longer[i + 1] == Take(longer[i], more[i], extract)
    {
      if i < |steps| {
        assert worlds[i + 1] == Take(worlds[i], steps[i], extract);
      }
    }
  }

  /** `next` keeps the forwarders and the driver going. */
  ghost predicate Schedules<V(!new), S(!new)>(next: World<V, S> -> Step<V>, extract: map<string, V> -> S)
  {
    forall w: World<V, S> {:trigger next(w)} :: Inv(w, extract) && !Quiescent(w) ==> Internal(next(w)) && Enabled(w, next(w))
  }

  lemma OutsideStands<V, S>(w: World<V, S>, step: Step<V>, extract: map<string, V> -> S)
    requires Enabled(w, step) && Internal(step)
    ensures var t := Take(w, step, extract);
      t.actors == w.actors && t.registry == w.registry && (ReadsSameActors(w) ==> ReadsSameActors(t))
  {
  }

  /** Each forwarder watches the actor of its workspace, and the next read of the
      registry finds the actors known. */
  ghost predicate Settled<V, S>(w: World<V, S>)
  {
    WatchesWorkspaces(w) && ReadsSameActors(w)
  }

  lemma SettledStep<V, S>(w: World<V, S>, step: Step<V>, extract: map<string, V> -> S)
    requires Inv(w, extract) && Settled(w) && Enabled(w, step) && Internal(step)
    ensures Settled(Take(w, step, extract))
  {
    WatchesStep(w, step, extract);
    OutsideStands(w, step, extract);
  }

  lemma SettledIsWatched<V, S>(w: World<V, S>, extract: map<string, V> -> S)
    requires Inv(w, extract) && Quiescent(w) && Settled(w)
    ensures AllWatched(w)
  {
    forall id | id in w.registry.value ensures Watched(w, w.registry.value[id]) {
      assert id in w.forwarders && w.forwarders[id].actor == w.registry.value[id];
    }
  }

  lemma Prepend<V, S>(w: World<V, S>, step: Step<V>, worlds: seq<World<V, S>>, steps: seq<Step<V>>, extract: map<string, V> -> S)
    requires Enabled(w, step) && IsTrace(worlds, steps, extract) && worlds[0] == Take(w, step, extract)
    ensures IsTrace([w] + worlds, [step] + steps, extract)
  {
    var ws, ss := [w] + worlds, [step] + steps;
    forall i | 0 <= i < |ss| ensures Enabled(ws[i], ss[i]) && ws[i + 1] == Take(ws[i], ss[i], extract) {
      if i > 0 {
        var j := i - 1;
        assert ws[i] == worlds[j] && ss[i] == steps[j] && ws[i + 1] == worlds[j + 1];
      }
    }
  }

  /** The steps are those that `next` picks. */
  ghost predicate Scheduled<V, S>(worlds: seq<World<V, S>>, steps: seq<Step<V>>, next: World<V, S> -> Step<V>)
  {
    |worlds| == |steps| + 1 && forall i | 0 <= i < |steps| :: Internal(steps[i]) && steps[i] == next(worlds[i])
  }

  /** Whatever happened before: once the actors and the registry are left alone, the
      driver and its forwarders, scheduled in any way and with attempts that succeed
      or fail in any way, come to rest. If all actors are watched then, and so
      whenever forwarders and driver know the wired actors to begin with, the current
      states are converged or are what was just attempted in vain. */
  lemma {:induction false} LeftAloneItConverges<V(!new), S(!new)>(w: World<V, S>, extract: map<string, V> -> S, next: World<V, S> -> Step<V>)
    returns (worlds: seq<World<V, S>>, steps: seq<Step<V>>)
    requires Inv(w, extract) && Schedules(next, extract)
    ensures IsTrace(worlds, steps, extract) && worlds[0] == w && Scheduled(worlds, steps, next)
    ensures var rest := worlds[|steps|];
      && rest.actors == w.actors && rest.registry == w.registry
      && Inv(rest, extract) && Quiescent(rest)
      && (AllWatched(rest) ==> Converged(rest, extract))
      && (Settled(w) ==> Settled(rest) && AllWatched(rest))
    decreases Stale(w), Pending(w), Left(w)
  {
    if Quiescent(w) {
      worlds, steps := [w], [];
      if AllWatched(w) {
        QuiescentIsConverged(w, extract);
      }
      if Settled(w) {
        SettledIsWatched(w, extract);
        QuiescentIsConverged(w, extract);
      }
    } else {
      var t := OneStep(w, extract, next);
      var ws, ss := LeftAloneItConverges(t, extract, next);
      worlds, steps := Onward(w, extract, next, ws, ss);
    }
  }

  lemma OneStep<V(!new), S(!new)>(w: World<V, S>, extract: map<string, V> -> S, next: World<V, S> -> Step<V>) returns (t: World<V, S>)
    requires Inv(w, extract) && Schedules(next, extract) && !Quiescent(w)
    ensures Enabled(w, next(w)) && Internal(next(w)) && t == Take(w, next(w), extract)
    ensures Inv(t, extract) && Closer(t, w) && t.actors == w.actors && t.registry == w.registry
    ensures Settled(w) ==> Settled(t)
  {
    t := Take(w, next(w), extract);
    InvStep(w, next(w), extract);
    InternalStepsDescend(w, next(w), extract);
    OutsideStands(w, next(w), extract);
    if Settled(w) {
      SettledStep(w, next(w), extract);
    }
  }

  lemma Onward<V, S>(w: World<V, S>, extract: map<string, V> -> S, next: World<V, S> -> Step<V>,
                     ws: seq<World<V, S>>, ss: seq<Step<V>>)
    returns (worlds: seq<World<V, S>>, steps: seq<Step<V>>)
    requires Enabled(w, next(w)) && Internal(next(w))
    requires IsTrace(ws, ss, extract) && Scheduled(ws, ss, next) && ws[0] == Take(w, next(w), extract)
    ensures IsTrace(worlds, steps, extract) && Scheduled(worlds, steps, next)
    ensures worlds[0] == w && worlds[|steps|] == ws[|ss|]
  {
    worlds, steps := [w] + ws, [next(w)] + ss;
    Prepend(w, next(w), ws, ss, extract);
    forall i | 0 <= i < |steps| ensures Internal(steps[i]) && steps[i] == next(worlds[i]) {
      assert i > 0 ==> steps[i] == ss[i - 1] && worlds[i] == ws[i - 1];
    }
  }

  /** So it does after every history in which no id was rewired between two passes. */
  lemma StableHistoriesAreSettled<V, S>(worlds: seq<World<V, S>>, steps: seq<Step<V>>, extract: map<string, V> -> S)
    requires IsHistory(worlds, steps, extract) && StableActors(worlds, steps) && ReadsSameActors(worlds[|steps|])
    ensures Inv(worlds[|steps|], extract) && Settled(worlds[|steps|])
  {
    InvAlways(worlds, steps, extract, |steps|);
    AlwaysWatchesWorkspaces(worlds, steps, extract, |steps|);
  }

  // ----- and without stable actors one is -----

  type Numbers = map<string, int>

  function Identity(states: Numbers): Numbers { states }

  /** The driver starts its first pass over one workspace "a" with actor 0. */
  lemma Started() returns (worlds: seq<World<int, Numbers>>, steps: seq<Step<int>>, w: World<int, Numbers>)
    ensures IsHistory(worlds, steps, Identity) && worlds[|steps|] == w
    ensures w == World(map[0 := Watch(0, 0)], Watch(map["a" := 0], 0), false, map["a" := Forwarder(0, 0, false)],
      Driver(Subscribing, 0, map["a" := 0], 0, map[], map[], None, None))
  {
    w := World(map[0 := Watch(0, 0)], Watch(map["a" := 0], 0), false, map[],
      Driver(Top, 0, map[], 0, map[], map[], None, None));
    worlds, steps := [w], [];
    worlds, steps, w := Extend(worlds, steps, Identity, w, ReadRegistry);
    worlds, steps, w := Extend(worlds, steps, Identity, w, DropForwarders);
    worlds, steps, w := Extend(worlds, steps, Identity, w, StartForwarder("a"));
  }

  lemma FirstPass() returns (worlds: seq<World<int, Numbers>>, steps: seq<Step<int>>, w: World<int, Numbers>)
    ensures IsHistory(worlds, steps, Identity) && worlds[|steps|] == w
    ensures w == World(map[0 := Watch(0, 0)], Watch(map["a" := 0], 0), false, map["a" := Forwarder(0, 0, false)],
      Driver(Waiting, 0, map["a" := 0], 0, map["a" := 0], map["a" := 0], Some(map["a" := 0]), None))
  {
    worlds, steps, w := Started();
    worlds, steps, w := Extend(worlds, steps, Identity, w, StartReading);
    worlds, steps, w := Extend(worlds, steps, Identity, w, ReadState("a"));
    worlds, steps, w := Extend(worlds, steps, Identity, w, Converge(true));
  }

  /** "a" leaves the registry and comes back with actor 1 before the driver's
      second pass. */
  lemma Rewired() returns (worlds: seq<World<int, Numbers>>, steps: seq<Step<int>>, w: World<int, Numbers>)
    ensures IsHistory(worlds, steps, Identity) && worlds[|steps|] == w
    ensures w == World(map[0 := Watch(0, 0), 1 := Watch(0, 0)], Watch(map["a" := 1], 2), false, map["a" := Forwarder(0, 0, false)],
      Driver(Top, 2, map["a" := 0], 0, map["a" := 0], map["a" := 0], Some(map["a" := 0]), None))
  {
    worlds, steps, w := FirstPass();
    worlds, steps, w := Extend(worlds, steps, Identity, w, Spawn(1, 0));
    worlds, steps, w := Extend(worlds, steps, Identity, w, Rewire(map[]));
    worlds, steps, w := Extend(worlds, steps, Identity, w, Rewire(map["a" := 1]));
    worlds, steps, w := Extend(worlds, steps, Identity, w, WaitRegistry);
  }

  lemma SecondPass() returns (worlds: seq<World<int, Numbers>>, steps: seq<Step<int>>, w: World<int, Numbers>)
    ensures IsHistory(worlds, steps, Identity) && worlds[|steps|] == w
    ensures w == World(map[0 := Watch(0, 0), 1 := Watch(0, 0)], Watch(map["a" := 1], 2), false, map["a" := Forwarder(0, 0, false)],
      Driver(Waiting, 2, map["a" := 1], 2, map["a" := 0], map["a" := 0], Some(map["a" := 0]), None))
  {
    worlds, steps, w := Rewired();
    worlds, steps, w := Extend(worlds, steps, Identity, w, ReadRegistry);
    worlds, steps, w := Extend(worlds, steps, Identity, w, DropForwarders);
    worlds, steps, w := Extend(worlds, steps, Identity, w, StartReading);
    worlds, steps, w := Extend(worlds, steps, Identity, w, ReadState("a"));
    worlds, steps, w := Extend(worlds, steps, Identity, w, Converge(true));
  }

  /** A workspace wired again between two passes keeps its old forwarder: an
      update of its new actor is never converged, though nothing can move. */
  lemma RewiringLosesAnUpdate() returns (worlds: seq<World<int, Numbers>>, steps: seq<Step<int>>, w: World<int, Numbers>)
    ensures IsHistory(worlds, steps, Identity) && worlds[|steps|] == w
    ensures Quiescent(w)
    ensures w.registry.value.Values <= w.actors.Keys && !Converged(w, Identity)
  {
    worlds, steps, w := SecondPass();
    worlds, steps, w := Extend(worlds, steps, Identity, w, Update(1, 7));
    assert w.registry.value == map["a" := 1];
    assert CurrentStates(w)["a"] == 7;
    assert w.driver.last.value["a"] == 0;
  }

  // ----- one workspace, one effect: `run_effect` -----

  /** `heldAt` is the version the snapshot in hand was taken at. */
  datatype Single<V, S> = Single(
    channel: Watch<V>, seen: nat, blocked: bool, heldAt: nat, last: Option<S>, failed: Option<S>)

  datatype SingleStep<V> = Send(value: V) | Borrow(ok: bool) | Changed

  predicate SingleEnabled<V, S>(w: Single<V, S>, step: SingleStep<V>)
  {
    match step
    case Send(_) => true
    case Borrow(_) => !w.blocked
    case Changed => w.blocked && w.seen < w.channel.version
  }

  ghost function SingleTake<V, S>(w: Single<V, S>, step: SingleStep<V>, extract: V -> S): Single<V, S>
    requires SingleEnabled(w, step)
  {
    match step
    case Send(v) => w.(channel := Watch(v, w.channel.version + 1))
    case Borrow(ok) =>
      var snapshot := extract(w.channel.value);
      var held := w.(blocked := true, heldAt := w.channel.version);
      if w.last == Some(snapshot) then held.(failed := None)
      else if ok then held.(last := Some(snapshot), failed := None)
      else held.(failed := Some(snapshot))
    case Changed => w.(blocked := false, seen := w.channel.version)
  }

  /** What is in hand is no older than what was seen, and if nothing was sent
      since, it is what the state asks for. */
  ghost predicate SingleInv<V, S>(w: Single<V, S>, extract: V -> S)
  {
    && w.seen <= w.channel.version
    && (w.blocked ==>
      && w.seen <= w.heldAt <= w.channel.version
      && (w.heldAt == w.channel.version ==> SingleHolds(w, extract(w.channel.value))))
  }

  predicate SingleHolds<V, S(==)>(w: Single<V, S>, snapshot: S)
  {
    if w.failed.Some? then w.failed == Some(snapshot) else w.last == Some(snapshot)
  }

  ghost predicate IsSingleHistory<V, S>(worlds: seq<Single<V, S>>, steps: seq<SingleStep<V>>, extract: V -> S)
  {
    && |worlds| == |steps| + 1 && !worlds[0].blocked && worlds[0].seen <= worlds[0].channel.version
    && worlds[0].last.None? && worlds[0].failed.None?
    && forall i :: 0 <= i < |steps| ==>
      SingleEnabled(worlds[i], steps[i]) && worlds[i + 1] == SingleTake(worlds[i], steps[i], extract)
  }

  function SingleLastAttempt<V>(steps: seq<SingleStep<V>>): Option<bool>
  {
    if steps == [] then None
    else if steps[|steps| - 1].Borrow? then Some(steps[|steps| - 1].ok)
    else SingleLastAttempt(steps[..|steps| - 1])
  }

  /** Whenever the driver waits with nothing new to see, it converged to the
      current state, or the last attempt was at that state and failed. */
  lemma {:induction false} SingleMissesNothing<V, S>(worlds: seq<Single<V, S>>, steps: seq<SingleStep<V>>, extract: V -> S, i: nat)
    requires IsSingleHistory(worlds, steps, extract) && i < |worlds|
    ensures SingleInv(worlds[i], extract)
    ensures worlds[i].failed.Some? ==> SingleLastAttempt(steps[..i]) == Some(false)
    ensures var w := worlds[i];
      w.blocked && w.seen == w.channel.version ==> SingleHolds(w, extract(w.channel.value))
    decreases i
  {
    if i > 0 {
      SingleMissesNothing(worlds, steps, extract, i - 1);
      assert worlds[i - 1 + 1] == SingleTake(worlds[i - 1], steps[i - 1], extract);
      assert steps[..i][..i - 1] == steps[..i - 1];
    }
  }
}
