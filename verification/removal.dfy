/** `src/daemon/registry.rs` and `src/daemon/removal.rs`: wiring and removing
    workspaces as steps over memory and two durable files, with a crash allowed
    between any two of them. */
module Removal {
  import opened State

  type Id = string
  type Path = seq<string>
  type Entries = map<Id, Path>

  /** `workspace_id` and `sanitize_label`. */
  datatype Naming = Naming(id: Path -> Id, sanitize: string -> string)
  {
    ghost predicate Injective()
    {
      forall p, q :: id(p) == id(q) ==> p == q
    }

    /** The domain segment, and with it the Docker names, of a workspace. */
    function Label(p: Path): string
    {
      sanitize(if p == [] then "workspace" else p[|p| - 1])
    }
  }

  predicate NestingConflict(candidate: Path, existing: Path)
  {
    candidate != existing && (existing <= candidate || candidate <= existing)
  }

  function Without(m: Entries, keys: set<Id>): Entries
  {
    map k | k in m && k !in keys :: m[k]
  }

  function Only(m: Entries, keys: set<Id>): Entries
  {
    map k | k in m && k in keys :: m[k]
  }

  // ----- the machine -----

  /** Where a `resolve` or a `remove` under way has got to. */
  datatype Stage = Idle | Inserted(id: Id) | Marked(id: Id) | Unwired(id: Id) | Unindexed(id: Id)

  /** `jobs` are the running teardowns and how many of their `PARTS` are gone. */
  datatype Mode = Down | Loading | Up(wired: Entries, jobs: map<Id, nat>, stage: Stage)

  /** Containers, network and volumes, removed in this order. */
  const PARTS: nat := 3

  /** `index` and `removing` are the two files. `docker` is what exists under
      which label. */
  datatype Sys = Sys(index: Entries, removing: Entries, docker: set<(string, nat)>, mode: Mode)

  datatype Event =
    | Crash
    | DropStale(saved: bool)
    | Wire(loadable: set<Id>)
    | Insert(path: Path)
    | SaveInsert(saved: bool)
    | Mark(id: Id)
    | Unwire
    | SaveRemoval(saved: bool)
    | Spawn
    | Retry(id: Id)
    | Use(id: Id, part: nat)
    | Tear(id: Id)
    | TearFails(id: Id)
    | Finish(id: Id)

  /** What `resolve` checks before it wires `path`. */
  predicate Admissible(n: Naming, wired: Entries, removing: Entries, path: Path)
  {
    && (forall k | k in wired :: !NestingConflict(path, wired[k]) && (path != wired[k] ==> n.Label(path) != n.Label(wired[k])))
    && (forall k | k in removing :: n.Label(removing[k]) != n.Label(path))
  }

  predicate Enabled(n: Naming, s: Sys, e: Event)
  {
    match s.mode
    case Down => e == Crash || e.DropStale?
    case Loading => e == Crash || e.Wire?
    case Up(wired, jobs, stage) =>
      match e
      case Crash => true
      case DropStale(_) => false
      case Wire(_) => false
      case Insert(path) => stage == Idle && n.id(path) !in wired && Admissible(n, wired, s.removing, path)
      case SaveInsert(_) => stage.Inserted? && stage.id in wired
      case Mark(id) => stage == Idle && id in wired
      case Unwire => stage.Marked?
      case SaveRemoval(_) => stage.Unwired?
      case Spawn => stage.Unindexed?
      case Retry(id) => stage == Idle && id !in wired && id in s.removing
      case Use(id, part) => id in wired && stage != Inserted(id) && part < PARTS
      case Tear(id) => id in jobs && id in s.removing && jobs[id] < PARTS
      case TearFails(id) => id in jobs
      case Finish(id) => id in jobs && jobs[id] == PARTS
  }

  function Joined(jobs: map<Id, nat>, id: Id): map<Id, nat>
  {
    if id in jobs then jobs else jobs[id := 0]
  }

  function Take(n: Naming, s: Sys, e: Event): Sys
    requires Enabled(n, s, e)
  {
    match e
    case Crash => s.(mode := Down)
    case DropStale(saved) => s.(mode := Loading, index := if saved then Without(s.index, s.removing.Keys) else s.index)
    case Wire(loadable) =>
      s.(mode := Up(Only(Without(s.index, s.removing.Keys), loadable), map k | k in s.removing :: 0, Idle))
    case Insert(path) => s.(mode := s.mode.(wired := s.mode.wired[n.id(path) := path], stage := Inserted(n.id(path))))
    case SaveInsert(saved) =>
      var id := s.mode.stage.id;
      s.(index := if saved then s.index[id := s.mode.wired[id]] else s.index, mode := s.mode.(stage := Idle))
    case Mark(id) => s.(removing := s.removing[id := s.mode.wired[id]], mode := s.mode.(stage := Marked(id)))
    case Unwire => s.(mode := s.mode.(wired := Without(s.mode.wired, {s.mode.stage.id}), stage := Unwired(s.mode.stage.id)))
    case SaveRemoval(saved) =>
      var id := s.mode.stage.id;
      s.(index := if saved then Without(s.index, {id}) else s.index, mode := s.mode.(stage := Unindexed(id)))
    case Spawn => s.(mode := s.mode.(jobs := Joined(s.mode.jobs, s.mode.stage.id), stage := Idle))
    case Retry(id) => s.(mode := s.mode.(jobs := Joined(s.mode.jobs, id)))
    case Use(id, part) => s.(docker := s.docker + {(n.Label(s.mode.wired[id]), part)})
    case Tear(id) =>
      s.(docker := s.docker - {(n.Label(s.removing[id]), s.mode.jobs[id])},
         mode := s.mode.(jobs := s.mode.jobs[id := s.mode.jobs[id] + 1]))
    case TearFails(id) => s.(mode := s.mode.(jobs := s.mode.jobs - {id}))
    case Finish(id) => s.(removing := s.removing - {id}, mode := s.mode.(jobs := s.mode.jobs - {id}))
  }

  /** Where `events` lead from `s`, if they can happen. */
  function Play(n: Naming, s: Sys, events: seq<Event>): Option<Sys>
  {
    if events == [] then Some(s)
    else
      var e := events[|events| - 1];
      match Play(n, s, events[..|events| - 1])
      case None => None
      case Some(t) => if Enabled(n, t, e) then Some(Take(n, t, e)) else None
  }

  lemma Then(n: Naming, s: Sys, events: seq<Event>, e: Event)
    requires Play(n, s, events).Some? && Enabled(n, Play(n, s, events).value, e)
    ensures Play(n, s, events + [e]) == Some(Take(n, Play(n, s, events).value, e))
  {
    assert (events + [e])[..|events|] == events;
  }

  lemma {:induction false} Onward(n: Naming, s: Sys, first: seq<Event>, t: Sys, second: seq<Event>)
    requires Play(n, s, first) == Some(t)
    ensures Play(n, s, first + second) == Play(n, t, second)
    decreases |second|
  {
    if second == [] {
      assert first + second == first;
    } else {
      Onward(n, s, first, t, second[..|second| - 1]);
      assert (first + second)[..|first + second| - 1] == first + second[..|second| - 1];
    }
  }

  lemma TwoSteps(n: Naming, s: Sys, a: Event, b: Event)
    requires Enabled(n, s, a) && Enabled(n, Take(n, s, a), b)
    ensures Play(n, s, [a, b]) == Some(Take(n, Take(n, s, a), b))
  {
    Then(n, s, [], a);
    assert [] + [a] == [a];
    Then(n, s, [a], b);
    assert [a] + [b] == [a, b];
  }

  // ----- the registry -----

  class WorkspaceRegistry {
    const naming: Naming
    var index: Entries
    var removing: Entries
    var byId: Entries
    var jobs: map<Id, nat>
    ghost const docker: set<(string, nat)>
    ghost const start: Sys
    ghost var events: seq<Event>

    ghost function Now(): Sys
      reads this
    {
      Sys(index, removing, docker, Up(byId, jobs, Idle))
    }

    /** Everything this registry did since the start is a run of the machine. */
    ghost predicate Valid()
      reads this
    {
      Play(naming, start, events) == Some(Now())
    }

    /** `load_from`: drops what is being removed, wires what can be loaded, and
        takes every unfinished removal up again. */
    constructor LoadFrom(naming: Naming, ghost down: Sys, loadable: set<Id>, saved: bool, index: Entries, removing: Entries)
      requires down == Sys(index, removing, down.docker, Down)
      ensures Valid() && this.naming == naming && start == down
      ensures events == [DropStale(saved), Wire(loadable)]
      ensures jobs.Keys == this.removing.Keys
    {
      this.naming, docker, start := naming, down.docker, down;
      this.index := if saved then Without(index, removing.Keys) else index;
      this.removing := removing;
      byId := Only(Without(index, removing.Keys), loadable);
      jobs := map k | k in removing :: 0;
      events := [DropStale(saved), Wire(loadable)];
      new;
      Then(naming, down, [], DropStale(saved));
      Then(naming, down, [DropStale(saved)], Wire(loadable));
      assert [] + [DropStale(saved)] == [DropStale(saved)];
      assert [DropStale(saved)] + [Wire(loadable)] == events;
      assert Without(this.index, removing.Keys) == Without(index, removing.Keys);
    }

    /** `resolve`, past `resolve_workspace`. `None` is a refusal or an error; a new
        workspace whose index entry could not be saved stays wired all the same. */
    method Resolve(path: Path, created: bool, saved: bool) returns (id: Option<Id>)
      requires Valid()
      modifies this
      ensures Valid()
      ensures !Admissible(naming, old(byId), old(removing), path) ==> id == None && Now() == old(Now())
      ensures Admissible(naming, old(byId), old(removing), path) && naming.id(path) in old(byId) ==>
        id == Some(naming.id(path)) && Now() == old(Now())
      ensures Admissible(naming, old(byId), old(removing), path) && naming.id(path) !in old(byId) && !created ==>
        id == None && Now() == old(Now())
      ensures Admissible(naming, old(byId), old(removing), path) && naming.id(path) !in old(byId) && created ==>
        && events == old(events) + [Insert(path)] + [SaveInsert(saved)]
        && byId == old(byId)[naming.id(path) := path]
        && id == if saved then Some(naming.id(path)) else None
    {
      if !Admissible(naming, byId, removing, path) {
        return None;
      }
      var key := naming.id(path);
      if key in byId {
        return Some(key);
      }
      if !created {
        return None;
      }
      Then(naming, start, events, Insert(path));
      Then(naming, start, events + [Insert(path)], SaveInsert(saved));
      events := events + [Insert(path)] + [SaveInsert(saved)];
      byId := byId[key := path];
      if saved {
        index := index[key := path];
        return Some(key);
      }
      return None;
    }

    /** `remove`: the mark first, then memory, the index, and the teardown.
        Whether a teardown runs or ran for `id`. */
    method Remove(id: Id, marked: bool, saved: bool) returns (started: bool)
      requires Valid()
      modifies this
      ensures Valid()
      ensures id in old(byId) ==> started == marked
      ensures id in old(byId) && !marked ==> Now() == old(Now())
      ensures id in old(byId) && marked ==>
        events == old(events) + [Mark(id)] + [Unwire] + [SaveRemoval(saved)] + [Spawn]
      ensures id !in old(byId) ==> started == (id in old(removing))
      ensures id !in old(byId) ==> events == if started then old(events) + [Retry(id)] else old(events)
    {
      if id !in byId {
        if id !in removing {
          return false;
        }
        Then(naming, start, events, Retry(id));
        events := events + [Retry(id)];
        jobs := Joined(jobs, id);
        return true;
      }
      if !marked {
        return false;
      }
      RemovalSteps(naming, start, events, Now(), id, saved);
      events := events + [Mark(id)] + [Unwire] + [SaveRemoval(saved)] + [Spawn];
      removing := removing[id := byId[id]];
      byId := Without(byId, {id});
      if saved {
        index := Without(index, {id});
      }
      jobs := Joined(jobs, id);
      return true;
    }
  }

  lemma RemovalSteps(n: Naming, start: Sys, events: seq<Event>, s: Sys, id: Id, saved: bool)
    requires Play(n, start, events) == Some(s) && s.mode.Up? && s.mode.stage == Idle && id in s.mode.wired
    ensures Play(n, start, events + [Mark(id)] + [Unwire] + [SaveRemoval(saved)] + [Spawn])
      == Some(Sys(if saved then Without(s.index, {id}) else s.index, s.removing[id := s.mode.wired[id]], s.docker,
                  Up(Without(s.mode.wired, {id}), Joined(s.mode.jobs, id), Idle)))
  {
    Then(n, start, events, Mark(id));
    Then(n, start, events + [Mark(id)], Unwire);
    Then(n, start, events + [Mark(id)] + [Unwire], SaveRemoval(saved));
    Then(n, start, events + [Mark(id)] + [Unwire] + [SaveRemoval(saved)], Spawn);
  }

  // ----- what every run keeps, whatever fails -----

  ghost predicate Filed(n: Naming, m: Entries)
  {
    forall k | k in m :: k == n.id(m[k])
  }

  /** Every entry is filed under its own id. */
  ghost predicate WellFiled(n: Naming, s: Sys)
  {
    Filed(n, s.index) && Filed(n, s.removing) && (s.mode.Up? ==> Filed(n, s.mode.wired))
  }

  /** What is being removed is wired only in the instant between the mark and
      the removal from memory, and only marked workspaces are torn down. */
  ghost predicate MarksHold(s: Sys)
  {
    s.mode.Up? ==>
      var Up(wired, jobs, stage) := s.mode;
      && (forall k | k in s.removing && k in wired :: stage == Marked(k))
      && (forall k | k in jobs :: k in s.removing && k !in wired)
      && (stage.Marked? ==> stage.id in s.removing && stage.id in wired)
      && (stage.Unwired? || stage.Unindexed? ==> stage.id in s.removing && stage.id !in wired && stage.id !in jobs)
      && (stage.Inserted? ==> stage.id in wired)
  }

  ghost predicate Initial(n: Naming, s: Sys)
  {
    s.mode.Down? && WellFiled(n, s)
  }

  lemma SoundStep(n: Naming, s: Sys, e: Event)
    requires n.Injective() && Enabled(n, s, e) && WellFiled(n, s) && MarksHold(s)
    ensures WellFiled(n, Take(n, s, e)) && MarksHold(Take(n, s, e))
  {
    FiledStep(n, s, e);
    MarksStep(n, s, e);
  }

  lemma FiledStep(n: Naming, s: Sys, e: Event)
    requires Enabled(n, s, e) && WellFiled(n, s)
    ensures WellFiled(n, Take(n, s, e))
  {
  }

  lemma MarksStep(n: Naming, s: Sys, e: Event)
    requires n.Injective() && Enabled(n, s, e) && Filed(n, s.removing) && MarksHold(s)
    ensures MarksHold(Take(n, s, e))
  {
  }

  lemma {:induction false} RunsAreSound(n: Naming, s: Sys, events: seq<Event>)
    requires n.Injective() && Initial(n, s) && Play(n, s, events).Some?
    ensures WellFiled(n, Play(n, s, events).value) && MarksHold(Play(n, s, events).value)
    decreases |events|
  {
    if events != [] {
      var before := events[..|events| - 1];
      RunsAreSound(n, s, before);
      SoundStep(n, Play(n, s, before).value, events[|events| - 1]);
    }
  }

  /** No load, whatever was saved before the crash, wires a marked workspace;
      each takes all unfinished teardowns up again. */
  lemma LoadsResumeRemovals(n: Naming, s: Sys, events: seq<Event>, loadable: set<Id>, t: Sys)
    requires n.Injective() && Initial(n, s) && Play(n, s, events + [Wire(loadable)]) == Some(t)
    ensures t.mode.Up? && t.mode.wired.Keys !! t.removing.Keys && t.mode.jobs.Keys == t.removing.Keys
    ensures t.mode.wired.Keys == (t.index.Keys - t.removing.Keys) * loadable
  {
    assert (events + [Wire(loadable)])[..|events|] == events;
  }

  lemma OnlyFinishUnmarks(n: Naming, s: Sys, e: Event, id: Id)
    requires Enabled(n, s, e) && id in s.removing && e != Finish(id)
    ensures id in Take(n, s, e).removing
  {
  }

  /** A mark goes only when its teardown finished. */
  lemma {:induction false} MarksOutliveCrashes(n: Naming, s: Sys, events: seq<Event>, id: Id)
    requires Play(n, s, events).Some? && id in s.removing && Finish(id) !in events
    ensures id in Play(n, s, events).value.removing
    decreases |events|
  {
    if events != [] {
      var before, e := events[..|events| - 1], events[|events| - 1];
      MarksOutliveCrashes(n, s, before, id);
      assert e in events;
      OnlyFinishUnmarks(n, Play(n, s, before).value, e, id);
    }
  }

  // ----- a removed workspace stays away -----

  /** Not wired, and no load would wire it. */
  ghost predicate Gone(s: Sys, id: Id)
  {
    (s.mode.Up? ==> id !in s.mode.wired) && (id in s.removing || id !in s.index)
  }

  /** The teardown ends while the index still lists the workspace. */
  predicate LeavesEntry(s: Sys, e: Event)
  {
    e.Finish? && e.id in s.index
  }

  /** The two ways back: wiring it again, and a teardown that ends while the
      index, which could not be saved, still lists it. */
  lemma GoneUntil(n: Naming, s: Sys, e: Event, id: Id)
    requires Enabled(n, s, e) && MarksHold(s) && Gone(s, id)
    ensures Gone(Take(n, s, e), id) <==> !(e.Insert? && n.id(e.path) == id) && !(LeavesEntry(s, e) && e.id == id)
  {
  }

  predicate Saved(e: Event)
  {
    match e
    case DropStale(saved) => saved
    case SaveInsert(saved) => saved
    case SaveRemoval(saved) => saved
    case _ => true
  }

  /** While the daemon runs, an entry leaves the index before its teardown
      starts, and a wired one is in it once its `resolve` has returned. */
  ghost predicate Recorded(s: Sys)
  {
    && (s.mode.Loading? ==> s.index.Keys !! s.removing.Keys)
    && (s.mode.Up? ==>
          && (forall k | k in s.index && k in s.removing :: s.mode.stage == Marked(k) || s.mode.stage == Unwired(k))
          && (forall k | k in s.mode.wired && k !in s.index :: s.mode.stage == Inserted(k)))
  }

  lemma RecordedStep(n: Naming, s: Sys, e: Event)
    requires Enabled(n, s, e) && MarksHold(s) && Recorded(s) && Saved(e)
    ensures Recorded(Take(n, s, e)) && !LeavesEntry(s, e)
  {
  }

  ghost predicate AllSaved(events: seq<Event>)
  {
    forall e | e in events :: Saved(e)
  }

  lemma {:induction false} RunsAreRecorded(n: Naming, s: Sys, events: seq<Event>)
    requires n.Injective() && Initial(n, s) && Play(n, s, events).Some? && AllSaved(events)
    ensures Recorded(Play(n, s, events).value)
    decreases |events|
  {
    if events != [] {
      var before := events[..|events| - 1];
      RunsAreRecorded(n, s, before);
      RunsAreSound(n, s, before);
      assert events[|events| - 1] in events;
      RecordedStep(n, Play(n, s, before).value, events[|events| - 1]);
    }
  }

  /** Gone, or marked only just now. */
  ghost predicate Away(s: Sys, id: Id)
  {
    Gone(s, id) || (id in s.removing && s.mode.Up? && s.mode.stage == Marked(id))
  }

  lemma AwayStep(n: Naming, s: Sys, e: Event, id: Id)
    requires Enabled(n, s, e) && MarksHold(s) && Away(s, id)
    requires !(e.Insert? && n.id(e.path) == id) && !(LeavesEntry(s, e) && e.id == id)
    ensures Away(Take(n, s, e), id)
  {
  }

  /** No teardown of `id` among `events` ends while the index still lists it. */
  ghost predicate FinishesClean(n: Naming, s: Sys, events: seq<Event>, id: Id)
  {
    events != [] ==>
      var (before, e) := (events[..|events| - 1], events[|events| - 1]);
      && FinishesClean(n, s, before, id)
      && (Play(n, s, before).Some? ==> !(LeavesEntry(Play(n, s, before).value, e) && e.id == id))
  }

  /** A marked workspace stays away through any crashes, loads and teardowns, and
      after them, whatever else is saved or not, until it is wired again or its
      teardown ends while the index, which could not be saved, still lists it. */
  lemma {:induction false} RemovedStaysAway(n: Naming, s: Sys, first: seq<Event>, events: seq<Event>, id: Id)
    requires n.Injective() && Initial(n, s) && Play(n, s, first).Some? && id in Play(n, s, first).value.removing
    requires Play(n, s, first + events).Some?
    requires forall e | e in events && e.Insert? :: n.id(e.path) != id
    requires FinishesClean(n, s, first + events, id)
    ensures Away(Play(n, s, first + events).value, id)
    decreases |events|
  {
    if events == [] {
      assert first + events == first;
      RunsAreSound(n, s, first);
    } else {
      var before, e := events[..|events| - 1], events[|events| - 1];
      assert (first + events)[..|first + events| - 1] == first + before && (first + events)[|first + events| - 1] == e;
      assert e in events;
      RemovedStaysAway(n, s, first, before, id);
      RunsAreSound(n, s, first + before);
      AwayStep(n, Play(n, s, first + before).value, e, id);
    }
  }

  /** While every index save works, teardowns end like that. */
  lemma {:induction false} SavedRunsFinishClean(n: Naming, s: Sys, events: seq<Event>, id: Id)
    requires n.Injective() && Initial(n, s) && Play(n, s, events).Some? && AllSaved(events)
    ensures FinishesClean(n, s, events, id)
    decreases |events|
  {
    if events != [] {
      var before, e := events[..|events| - 1], events[|events| - 1];
      SavedRunsFinishClean(n, s, before, id);
      RunsAreSound(n, s, before);
      RunsAreRecorded(n, s, before);
      assert e in events;
      RecordedStep(n, Play(n, s, before).value, e);
    }
  }

  lemma LoadOf(n: Naming, s: Sys, loadable: set<Id>)
    requires s.mode.Down? && s.removing == map[]
    ensures Play(n, s, [DropStale(true), Wire(loadable)]) == Some(s.(mode := Up(Only(s.index, loadable), map[], Idle)))
  {
    assert Without(s.index, s.removing.Keys) == s.index;
    TwoSteps(n, s, DropStale(true), Wire(loadable));
    assert (map k | k in s.removing :: 0) == map[];
  }

  lemma UnsavedRemoval(n: Naming, s: Sys, id: Id, p: Path)
    requires s == Sys(map[id := p], map[], {}, Up(map[id := p], map[], Idle))
    ensures Play(n, s, [Mark(id), Unwire] + [SaveRemoval(false), Spawn])
         == Some(Sys(map[id := p], map[id := p], {}, Up(map[], map[id := 0], Idle)))
  {
    TwoSteps(n, s, Mark(id), Unwire);
    var t := Sys(map[id := p], map[id := p], {}, Up(map[], map[], Unwired(id)));
    assert Without(map[id := p], {id}) == map[];
    assert Play(n, s, [Mark(id), Unwire]) == Some(t);
    TwoSteps(n, t, SaveRemoval(false), Spawn);
    Onward(n, s, [Mark(id), Unwire], t, [SaveRemoval(false), Spawn]);
  }

  lemma WholeTeardown(n: Naming, s: Sys, id: Id, p: Path)
    requires s == Sys(map[id := p], map[id := p], {}, Up(map[], map[id := 0], Idle))
    ensures Play(n, s, [Tear(id), Tear(id)] + [Tear(id), Finish(id)])
         == Some(Sys(map[id := p], map[], {}, Up(map[], map[], Idle)))
  {
    TwoSteps(n, s, Tear(id), Tear(id));
    var once := Sys(map[id := p], map[id := p], {}, Up(map[], map[id := 1], Idle));
    assert Take(n, s, Tear(id)) == once;
    var t := s.(mode := Up(map[], map[id := 2], Idle));
    assert map[id := 0][id := 1][id := 2] == map[id := 2];
    assert Take(n, once, Tear(id)) == t;
    assert Play(n, s, [Tear(id), Tear(id)]) == Some(t);
    LastHalf(n, t, id, p);
    Onward(n, s, [Tear(id), Tear(id)], t, [Tear(id), Finish(id)]);
  }

  lemma LastHalf(n: Naming, s: Sys, id: Id, p: Path)
    requires s == Sys(map[id := p], map[id := p], {}, Up(map[], map[id := 2], Idle))
    ensures Play(n, s, [Tear(id), Finish(id)]) == Some(Sys(map[id := p], map[], {}, Up(map[], map[], Idle)))
  {
    TwoSteps(n, s, Tear(id), Finish(id));
    assert Take(n, s, Tear(id)) == s.(mode := Up(map[], map[id := 3], Idle));
  }

  function UnsavedRun(id: Id): seq<Event>
  {
    [DropStale(true), Wire({id})] + ([Mark(id), Unwire] + [SaveRemoval(false), Spawn]) + ([Tear(id), Tear(id)] + [Tear(id), Finish(id)])
  }

  /** A load can bring a removed workspace back when the index could not be
      saved: the mark that kept it out goes with its teardown. */
  lemma UnsavedRemovalComesBack(n: Naming, p: Path)
    ensures var (id, s) := (n.id(p), Sys(map[n.id(p) := p], map[], {}, Down));
      && Play(n, s, UnsavedRun(id)) == Some(Sys(map[id := p], map[], {}, Up(map[], map[], Idle)))
      && Play(n, s, UnsavedRun(id) + [Crash] + [DropStale(true), Wire({id})])
         == Some(Sys(map[id := p], map[], {}, Up(map[id := p], map[], Idle)))
  {
    var (id, s) := (n.id(p), Sys(map[n.id(p) := p], map[], {}, Down));
    var loaded := s.(mode := Up(map[id := p], map[], Idle));
    var left := Sys(map[id := p], map[], {}, Up(map[], map[], Idle));
    LoadOf(n, s, {id});
    assert Only(s.index, {id}) == map[id := p];
    UnsavedRemoval(n, loaded, id, p);
    Onward(n, s, [DropStale(true), Wire({id})], loaded, [Mark(id), Unwire] + [SaveRemoval(false), Spawn]);
    WholeTeardown(n, Sys(map[id := p], map[id := p], {}, Up(map[], map[id := 0], Idle)), id, p);
    Onward(n, s, [DropStale(true), Wire({id})] + ([Mark(id), Unwire] + [SaveRemoval(false), Spawn]),
      Sys(map[id := p], map[id := p], {}, Up(map[], map[id := 0], Idle)), [Tear(id), Tear(id)] + [Tear(id), Finish(id)]);
    Then(n, s, UnsavedRun(id), Crash);
    LoadOf(n, left.(mode := Down), {id});
    Onward(n, s, UnsavedRun(id) + [Crash], left.(mode := Down), [DropStale(true), Wire({id})]);
  }

  // ----- wired workspaces stay apart -----

  ghost predicate Known(s: Sys, p: Path)
  {
    p in s.index.Values || p in s.removing.Values || (s.mode.Up? && p in s.mode.wired.Values)
  }

  /** Wired, or would be by a load. */
  ghost predicate Wirable(s: Sys, p: Path)
  {
    p in Without(s.index, s.removing.Keys).Values || (s.mode.Up? && p in s.mode.wired.Values)
  }

  ghost predicate LabelsApart(n: Naming, s: Sys)
  {
    forall p, q | Known(s, p) && Known(s, q) && n.Label(p) == n.Label(q) :: p == q
  }

  ghost predicate NestFree(s: Sys)
  {
    forall p, q | Wirable(s, p) && Wirable(s, q) :: !NestingConflict(p, q)
  }

  /** Whatever the files list, the running daemon knows of. */
  ghost predicate Covered(s: Sys)
  {
    s.mode.Up? ==> s.index.Keys <= s.mode.wired.Keys + s.removing.Keys
  }

  ghost predicate Apart(n: Naming, s: Sys)
  {
    LabelsApart(n, s) && NestFree(s) && Covered(s)
  }

  /** A load that neither misses a folder nor fails on one. */
  ghost predicate Complete(s: Sys, e: Event)
  {
    e.Wire? ==> s.index.Keys - s.removing.Keys <= e.loadable
  }

  lemma NothingNew(n: Naming, s: Sys, t: Sys)
    requires LabelsApart(n, s) && NestFree(s)
    requires forall p | Known(t, p) :: Known(s, p)
    requires forall p | Wirable(t, p) :: Wirable(s, p)
    ensures LabelsApart(n, t) && NestFree(t)
  {
  }

  lemma OnlyInsertAdds(n: Naming, s: Sys, e: Event)
    requires n.Injective() && Enabled(n, s, e) && WellFiled(n, s) && MarksHold(s) && !e.Insert? && !LeavesEntry(s, e)
    ensures forall p | Known(Take(n, s, e), p) :: Known(s, p)
    ensures forall p | Wirable(Take(n, s, e), p) :: Wirable(s, p)
  {
    var t := Take(n, s, e);
    forall p | p in Without(t.index, t.removing.Keys).Values ensures Wirable(s, p) {
      var k :| k in t.index && k !in t.removing && t.index[k] == p;
      assert k in Without(s.index, s.removing.Keys) || (s.mode.Up? && k in s.mode.wired && s.mode.wired[k] == p);
    }
  }

  lemma CoveredMeans(n: Naming, s: Sys, p: Path)
    requires n.Injective() && WellFiled(n, s) && Covered(s) && s.mode.Up?
    ensures Known(s, p) ==> p in s.mode.wired.Values || p in s.removing.Values
    ensures Wirable(s, p) ==> p in s.mode.wired.Values
  {
    if k :| k in s.index && s.index[k] == p {
      assert k in s.mode.wired || k in s.removing;
    }
  }

  lemma AdmissibleApart(n: Naming, s: Sys, path: Path, p: Path)
    requires n.Injective() && Enabled(n, s, Insert(path)) && WellFiled(n, s) && Covered(s)
    ensures Known(s, p) && n.Label(p) == n.Label(path) ==> p == path
    ensures Wirable(s, p) ==> !NestingConflict(p, path) && !NestingConflict(path, p)
  {
    CoveredMeans(n, s, p);
  }

  lemma InsertAdds(n: Naming, s: Sys, path: Path)
    requires n.Injective() && Enabled(n, s, Insert(path)) && WellFiled(n, s) && Apart(n, s)
    ensures LabelsApart(n, Take(n, s, Insert(path))) && NestFree(Take(n, s, Insert(path)))
  {
    var t := Take(n, s, Insert(path));
    assert forall p | Known(t, p) :: Known(s, p) || p == path;
    assert forall p | Wirable(t, p) :: Wirable(s, p) || p == path;
    forall p ensures Known(s, p) && n.Label(p) == n.Label(path) ==> p == path {
      AdmissibleApart(n, s, path, p);
    }
    forall p ensures Wirable(s, p) ==> !NestingConflict(p, path) && !NestingConflict(path, p) {
      AdmissibleApart(n, s, path, p);
    }
  }

  lemma CoveredStep(n: Naming, s: Sys, e: Event)
    requires Enabled(n, s, e) && MarksHold(s) && Covered(s) && Complete(s, e) && !LeavesEntry(s, e)
    ensures Covered(Take(n, s, e))
  {
  }

  lemma ApartStep(n: Naming, s: Sys, e: Event)
    requires n.Injective() && Enabled(n, s, e) && WellFiled(n, s) && MarksHold(s) && Apart(n, s)
    requires Complete(s, e) && !LeavesEntry(s, e)
    ensures Apart(n, Take(n, s, e))
  {
    CoveredStep(n, s, e);
    if e.Insert? {
      InsertAdds(n, s, e.path);
    } else {
      OnlyInsertAdds(n, s, e);
      NothingNew(n, s, Take(n, s, e));
    }
  }

  /** Every load of the run found all it should wire. */
  ghost predicate LoadsComplete(n: Naming, s: Sys, events: seq<Event>)
  {
    events != [] ==>
      var before := events[..|events| - 1];
      LoadsComplete(n, s, before) && (Play(n, s, before).Some? ==> Complete(Play(n, s, before).value, events[|events| - 1]))
  }

  /** With saves that work and loads that miss nothing, wired workspaces never
      nest and never share a label, not with one still being removed either. */
  lemma {:induction false} WiredStayApart(n: Naming, s: Sys, events: seq<Event>)
    requires n.Injective() && Initial(n, s) && Apart(n, s)
    requires Play(n, s, events).Some? && AllSaved(events) && LoadsComplete(n, s, events)
    ensures Apart(n, Play(n, s, events).value)
    decreases |events|
  {
    if events != [] {
      var before, e := events[..|events| - 1], events[|events| - 1];
      var t := Play(n, s, before).value;
      WiredStayApart(n, s, before);
      RunsAreSound(n, s, before);
      RunsAreRecorded(n, s, before);
      assert e in events;
      RecordedStep(n, t, e);
      ApartStep(n, t, e);
    }
  }

  /** What `Apart` means for two wired workspaces, and for one being removed. */
  lemma ApartMeans(n: Naming, s: Sys, j: Id, k: Id)
    requires n.Injective() && WellFiled(n, s) && Apart(n, s) && s.mode.Up? && j in s.mode.wired
    ensures k in s.mode.wired && j != k ==>
      !NestingConflict(s.mode.wired[j], s.mode.wired[k]) && n.Label(s.mode.wired[j]) != n.Label(s.mode.wired[k])
    ensures k in s.removing && j != k ==> n.Label(s.mode.wired[j]) != n.Label(s.removing[k])
  {
    assert Known(s, s.mode.wired[j]) && Wirable(s, s.mode.wired[j]);
    if k in s.mode.wired {
      assert Known(s, s.mode.wired[k]) && Wirable(s, s.mode.wired[k]);
    }
    if k in s.removing {
      assert Known(s, s.removing[k]);
    }
  }

  /** Listed in the index, yet unknown to the running daemon. */
  ghost predicate Hidden(s: Sys, k: Id)
  {
    s.mode.Up? && k in s.index && k !in s.removing && k !in s.mode.wired
  }

  /** An entry gets hidden in exactly two ways: a load misses it, or its teardown
      ends while the index still lists it. */
  lemma HiddenExactly(n: Naming, s: Sys, e: Event, k: Id)
    requires Enabled(n, s, e) && MarksHold(s) && !Hidden(s, k)
    ensures Hidden(Take(n, s, e), k)
       <==> (e.Wire? && k in s.index && k !in s.removing && k !in e.loadable) || (LeavesEntry(s, e) && e.id == k)
  {
  }

  /** So a load hides nothing exactly when it is complete. */
  lemma CompleteLoadsHideNothing(n: Naming, s: Sys, loadable: set<Id>)
    requires Enabled(n, s, Wire(loadable)) && MarksHold(s)
    ensures Complete(s, Wire(loadable)) <==> forall k :: !Hidden(Take(n, s, Wire(loadable)), k)
  {
    forall k ensures Hidden(Take(n, s, Wire(loadable)), k) <==> k in s.index.Keys - s.removing.Keys && k !in loadable {
      HiddenExactly(n, s, Wire(loadable), k);
    }
    if !Complete(s, Wire(loadable)) {
      var k :| k in s.index.Keys - s.removing.Keys && k !in loadable;
      assert Hidden(Take(n, s, Wire(loadable)), k);
    }
  }

  /** An accepted `resolve` keeps workspaces from nesting exactly when nothing
      hidden conflicts with it. */
  lemma NestFreeUnlessHidden(n: Naming, s: Sys, path: Path)
    requires n.Injective() && WellFiled(n, s) && NestFree(s) && Enabled(n, s, Insert(path))
    ensures NestFree(Take(n, s, Insert(path))) <==> forall k | Hidden(s, k) :: !NestingConflict(path, s.index[k])
  {
    var t := Take(n, s, Insert(path));
    assert t.mode.wired[n.id(path)] == path;
    assert Wirable(t, path);
    forall k | Hidden(s, k) ensures Wirable(t, s.index[k]) {
      assert Without(t.index, t.removing.Keys)[k] == s.index[k];
    }
    forall p | Wirable(t, p) && p != path
      ensures Wirable(s, p) && (p in s.mode.wired.Values || exists k :: Hidden(s, k) && s.index[k] == p)
    {
      WirableUnlessHidden(n, s, path, p);
    }
  }

  lemma WirableUnlessHidden(n: Naming, s: Sys, path: Path, p: Path)
    requires n.Injective() && WellFiled(n, s) && Enabled(n, s, Insert(path)) && Wirable(Take(n, s, Insert(path)), p) && p != path
    ensures Wirable(s, p) && (p in s.mode.wired.Values || exists k :: Hidden(s, k) && s.index[k] == p)
  {
    if p !in s.mode.wired.Values {
      var k :| k in Without(s.index, s.removing.Keys) && s.index[k] == p;
      assert Hidden(s, k);
    }
  }

  /** And their labels apart exactly when nothing hidden has its label. */
  lemma LabelsApartUnlessHidden(n: Naming, s: Sys, path: Path)
    requires n.Injective() && WellFiled(n, s) && LabelsApart(n, s) && Enabled(n, s, Insert(path))
    ensures LabelsApart(n, Take(n, s, Insert(path)))
       <==> forall k | Hidden(s, k) :: path == s.index[k] || n.Label(path) != n.Label(s.index[k])
  {
    var t := Take(n, s, Insert(path));
    assert t.mode.wired[n.id(path)] == path;
    assert Known(t, path);
    forall k | Hidden(s, k) ensures Known(t, s.index[k]) {
      assert t.index[k] == s.index[k];
    }
    forall p | Known(t, p) && p != path && n.Label(p) == n.Label(path) ensures exists k :: Hidden(s, k) && s.index[k] == p {
      KnownUnlessHidden(n, s, path, p);
    }
    forall p | Known(t, p) && p != path ensures Known(s, p) {
      KnownUnlessHidden(n, s, path, p);
    }
  }

  lemma KnownUnlessHidden(n: Naming, s: Sys, path: Path, p: Path)
    requires n.Injective() && WellFiled(n, s) && Enabled(n, s, Insert(path)) && Known(Take(n, s, Insert(path)), p) && p != path
    ensures Known(s, p)
    ensures n.Label(p) == n.Label(path) ==> exists k :: Hidden(s, k) && s.index[k] == p
  {
    if n.Label(p) == n.Label(path) {
      assert p in s.index.Values;
      var k :| k in s.index && s.index[k] == p;
      assert Hidden(s, k);
    }
  }

  function SkippingRun(q: Path): seq<Event>
  {
    [DropStale(true), Wire({})] + [Insert(q), SaveInsert(true)]
  }

  lemma InsertOf(n: Naming, s: Sys, q: Path)
    requires s.removing == map[] && s.mode == Up(map[], map[], Idle)
    ensures Play(n, s, [Insert(q), SaveInsert(true)])
         == Some(Sys(s.index[n.id(q) := q], map[], s.docker, Up(map[n.id(q) := q], map[], Idle)))
  {
    TwoSteps(n, s, Insert(q), SaveInsert(true));
  }

  lemma LoneEntry(n: Naming, p: Path)
    ensures var s := Sys(map[n.id(p) := p], map[], {}, Down); Initial(n, s) && Apart(n, s)
  {
    var s := Sys(map[n.id(p) := p], map[], {}, Down);
    assert forall q | Known(s, q) || Wirable(s, q) :: q == p;
  }

  /** A load that misses a folder hides it from `resolve`, which then accepts one
      inside it; the next load wires both. */
  lemma SkippedFolderLetsOneNest(n: Naming, p: Path, q: Path)
    requires n.Injective() && p < q && n.Label(p) != n.Label(q)
    ensures var s := Sys(map[n.id(p) := p], map[], {}, Down);
      && Initial(n, s) && Apart(n, s)
      && Play(n, s, SkippingRun(q) + [Crash] + [DropStale(true), Wire({n.id(p), n.id(q)})])
         == Some(Sys(map[n.id(p) := p, n.id(q) := q], map[], {}, Up(map[n.id(p) := p, n.id(q) := q], map[], Idle)))
      && NestingConflict(p, q)
  {
    var (i, j) := (n.id(p), n.id(q));
    var s := Sys(map[i := p], map[], {}, Down);
    LoneEntry(n, p);
    var empty := s.(mode := Up(map[], map[], Idle));
    LoadOf(n, s, {});
    InsertOf(n, empty, q);
    var both := Sys(map[i := p, j := q], map[], {}, Up(map[j := q], map[], Idle));
    Onward(n, s, [DropStale(true), Wire({})], empty, [Insert(q), SaveInsert(true)]);
    Then(n, s, SkippingRun(q), Crash);
    LoadOf(n, both.(mode := Down), {i, j});
    assert Only(both.index, {i, j}) == both.index;
    Onward(n, s, SkippingRun(q) + [Crash], both.(mode := Down), [DropStale(true), Wire({i, j})]);
  }

  // ----- nothing is left behind, and nothing else is taken -----

  /** Everything in Docker belongs to an entry of one of the two files, and a
      teardown's finished parts stay gone. */
  ghost predicate Owned(n: Naming, s: Sys)
  {
    (forall d | d in s.docker :: d.1 < PARTS && HasOwner(n, s, d.0)) && PartsStayGone(n, s)
  }

  ghost predicate PartsStayGone(n: Naming, s: Sys)
  {
    s.mode.Up? ==>
      forall k | k in s.mode.jobs && k in s.removing ::
        s.mode.jobs[k] <= PARTS && forall i | 0 <= i < s.mode.jobs[k] :: (n.Label(s.removing[k]), i) !in s.docker
  }

  ghost predicate HasOwner(n: Naming, s: Sys, tag: string)
  {
    (exists k :: k in s.index && n.Label(s.index[k]) == tag)
    || exists k :: k in s.removing && n.Label(s.removing[k]) == tag
  }

  /** A teardown takes only what is its own. */
  lemma TeardownsSpareTheWired(n: Naming, s: Sys, id: Id, k: Id, part: nat)
    requires n.Injective() && WellFiled(n, s) && MarksHold(s) && Apart(n, s)
    requires Enabled(n, s, Tear(id)) && k in s.mode.wired
    ensures (n.Label(s.mode.wired[k]), part) in s.docker <==> (n.Label(s.mode.wired[k]), part) in Take(n, s, Tear(id)).docker
  {
    ApartMeans(n, s, k, id);
  }

  /** When the mark goes, nothing of the workspace is left. */
  lemma FinishLeavesNothing(n: Naming, s: Sys, id: Id, part: nat)
    requires MarksHold(s) && Owned(n, s) && Enabled(n, s, Finish(id))
    ensures (n.Label(s.removing[id]), part) !in s.docker
  {
    assert id in s.removing;
  }

  lemma UseKeepsPartsGone(n: Naming, s: Sys, id: Id, part: nat)
    requires n.Injective() && WellFiled(n, s) && MarksHold(s) && Apart(n, s) && PartsStayGone(n, s)
    requires Enabled(n, s, Use(id, part))
    ensures PartsStayGone(n, Take(n, s, Use(id, part)))
  {
    forall k | k in s.mode.jobs && k in s.removing ensures n.Label(s.removing[k]) != n.Label(s.mode.wired[id]) {
      ApartMeans(n, s, id, k);
    }
  }

  lemma PartsStayGoneStep(n: Naming, s: Sys, e: Event)
    requires n.Injective() && Enabled(n, s, e) && WellFiled(n, s) && MarksHold(s) && PartsStayGone(n, s) && !e.Use?
    ensures PartsStayGone(n, Take(n, s, e))
  {
    var t := Take(n, s, e);
    if t.mode.Up? {
      forall k | k in t.mode.jobs && k in t.removing
        ensures t.mode.jobs[k] <= PARTS && forall i | 0 <= i < t.mode.jobs[k] :: (n.Label(t.removing[k]), i) !in t.docker
      {
        JobStep(n, s, e, k);
      }
    }
  }

  lemma JobStep(n: Naming, s: Sys, e: Event, k: Id)
    requires n.Injective() && Enabled(n, s, e) && WellFiled(n, s) && MarksHold(s) && PartsStayGone(n, s) && !e.Use?
    requires var t := Take(n, s, e); t.mode.Up? && k in t.mode.jobs && k in t.removing
    ensures var t := Take(n, s, e);
      t.mode.jobs[k] <= PARTS && forall i | 0 <= i < t.mode.jobs[k] :: (n.Label(t.removing[k]), i) !in t.docker
  {
    if s.mode.Up? && k in s.mode.jobs {
      assert k in s.removing && Take(n, s, e).removing[k] == s.removing[k];
    }
  }

  lemma OwnersStay(n: Naming, s: Sys, e: Event, tag: string)
    requires n.Injective() && Enabled(n, s, e) && WellFiled(n, s) && MarksHold(s) && HasOwner(n, s, tag)
    requires e.Finish? ==> n.Label(s.removing[e.id]) != tag
    ensures HasOwner(n, Take(n, s, e), tag)
  {
    if k :| k in s.removing && n.Label(s.removing[k]) == tag {
      MarkKept(n, s, e, k);
    } else {
      var k :| k in s.index && n.Label(s.index[k]) == tag;
      EntryKept(n, s, e, k);
    }
  }

  lemma MarkKept(n: Naming, s: Sys, e: Event, k: Id)
    requires n.Injective() && Enabled(n, s, e) && WellFiled(n, s) && k in s.removing && !(e.Finish? && e.id == k)
    ensures var t := Take(n, s, e); k in t.removing && t.removing[k] == s.removing[k]
  {
  }

  lemma EntryKept(n: Naming, s: Sys, e: Event, k: Id)
    requires n.Injective() && Enabled(n, s, e) && WellFiled(n, s) && MarksHold(s) && k in s.index
    ensures var t := Take(n, s, e);
      (k in t.index && t.index[k] == s.index[k]) || (k in t.removing && t.removing[k] == s.index[k])
  {
  }

  lemma OwnedStep(n: Naming, s: Sys, e: Event)
    requires n.Injective() && Enabled(n, s, e) && WellFiled(n, s) && MarksHold(s) && Apart(n, s) && Recorded(s) && Owned(n, s)
    ensures Owned(n, Take(n, s, e))
  {
    if e.Use? {
      UseKeepsPartsGone(n, s, e.id, e.part);
    } else {
      PartsStayGoneStep(n, s, e);
    }
    forall d | d in Take(n, s, e).docker ensures d.1 < PARTS && HasOwner(n, Take(n, s, e), d.0) {
      ResourceOwned(n, s, e, d);
    }
  }

  lemma ResourceOwned(n: Naming, s: Sys, e: Event, d: (string, nat))
    requires n.Injective() && Enabled(n, s, e) && WellFiled(n, s) && MarksHold(s) && Recorded(s) && Owned(n, s)
    requires d in Take(n, s, e).docker
    ensures d.1 < PARTS && HasOwner(n, Take(n, s, e), d.0)
  {
    if d in s.docker {
      if e.Finish? {
        FinishLeavesNothing(n, s, e.id, d.1);
      }
      OwnersStay(n, s, e, d.0);
    } else {
      assert e.id in s.index && s.index[e.id] == s.mode.wired[e.id];
    }
  }

  /** Nothing is leaked: at every moment, a crash between any two steps included,
      whatever is in Docker belongs to a workspace one of the files lists. */
  lemma {:induction false} NothingIsLeaked(n: Naming, s: Sys, events: seq<Event>)
    requires n.Injective() && Initial(n, s) && Apart(n, s) && Owned(n, s)
    requires Play(n, s, events).Some? && AllSaved(events) && LoadsComplete(n, s, events)
    ensures Owned(n, Play(n, s, events).value)
    decreases |events|
  {
    if events != [] {
      var before, e := events[..|events| - 1], events[|events| - 1];
      NothingIsLeaked(n, s, before);
      RunsAreSound(n, s, before);
      RunsAreRecorded(n, s, before);
      WiredStayApart(n, s, before);
      OwnedStep(n, Play(n, s, before).value, e);
    }
  }
}
