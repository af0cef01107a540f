/** `src/activity.rs`: the records of background work, a forest that jobs grow
    and prune. A handle is the id of its job; one that outlives its job finds
    nothing under that id. */
module Activities {
  import opened Ordering
  import opened State

  datatype Kind = Pull | Remove | Switch | Start | Stop | Delete

  datatype Status = Queued | Running | Done | Error | Cancelled
  {
    predicate IsOpen() { Queued? || Running? }
  }

  datatype Activity = Activity(
    id: nat,
    workspace: Option<string>,
    parent: Option<nat>,
    kind: Kind,
    key: string,
    status: Status,
    log: string,
    startedMs: nat,
    finishedMs: Option<nat>)
  {
    predicate IsTop(workspace: Option<string>, kind: Kind, key: string)
    {
      parent.None? && this.workspace == workspace && this.kind == kind && this.key == key
    }
  }

  type Items = seq<Activity>

  /** An id no job has. */
  const DETACHED: nat := 0

  // ----- the shape of a log -----

  predicate Has(items: Items, id: nat)
  {
    exists i :: 0 <= i < |items| && items[i].id == id
  }

  ghost predicate IdsIncrease(items: Items, nextId: nat)
  {
    && (forall i :: 0 <= i < |items| ==> DETACHED < items[i].id <= nextId)
    && (forall i, j :: 0 <= i < j < |items| ==> items[i].id < items[j].id)
  }

  ghost predicate ParentPresent(items: Items, i: nat)
  {
    i < |items| && items[i].parent.Some? ==> items[i].parent.value < items[i].id && Has(items, items[i].parent.value)
  }

  ghost predicate ParentsPresent(items: Items)
  {
    forall i: nat {:trigger ParentPresent(items, i)} :: ParentPresent(items, i)
  }

  ghost predicate TopsDistinct(items: Items)
  {
    forall i, j :: 0 <= i < j < |items| && items[i].parent.None? ==> !items[j].IsTop(items[i].workspace, items[i].kind, items[i].key)
  }

  /** Only a child waits for its turn. */
  ghost predicate TopsNeverQueued(items: Items)
  {
    forall i | 0 <= i < |items| && items[i].parent.None? :: !items[i].status.Queued?
  }

  ghost predicate Forest(items: Items, nextId: nat)
  {
    IdsIncrease(items, nextId) && ParentsPresent(items) && TopsDistinct(items) && TopsNeverQueued(items)
  }

  function ParentOf(items: Items, id: nat): Option<nat>
  {
    if items == [] then None
    else if items[|items| - 1].id == id then items[|items| - 1].parent
    else ParentOf(items[..|items| - 1], id)
  }

  /** `id` is `root` or below it. */
  predicate Under(items: Items, id: nat, root: nat)
    decreases id
  {
    id == root
    || (ParentOf(items, id).Some? && ParentOf(items, id).value < id && Under(items, ParentOf(items, id).value, root))
  }

  lemma {:induction false} ParentAt(items: Items, nextId: nat, i: nat)
    requires IdsIncrease(items, nextId) && i < |items|
    ensures ParentOf(items, items[i].id) == items[i].parent
    decreases |items|
  {
    if i < |items| - 1 {
      assert items[i].id < items[|items| - 1].id;
      ParentAt(items[..|items| - 1], nextId, i);
    }
  }

  lemma {:induction false} ParentIsListed(items: Items, id: nat)
    requires ParentOf(items, id).Some?
    ensures exists i :: 0 <= i < |items| && items[i].id == id && items[i].parent == ParentOf(items, id)
  {
    if items[|items| - 1].id != id {
      ParentIsListed(items[..|items| - 1], id);
    }
  }

  lemma {:induction false} UnderTransitive(items: Items, a: nat, b: nat, c: nat)
    requires Under(items, a, b) && Under(items, b, c)
    ensures Under(items, a, c)
    decreases a
  {
    if a != b {
      UnderTransitive(items, ParentOf(items, a).value, b, c);
    }
  }

  lemma {:induction false} UnderIsLater(items: Items, a: nat, b: nat)
    requires Under(items, a, b)
    ensures b <= a
    decreases a
  {
    if a != b {
      UnderIsLater(items, ParentOf(items, a).value, b);
    }
  }

  predicate SameJob(a: Activity, b: Activity)
  {
    a.id == b.id && a.workspace == b.workspace && a.parent == b.parent && a.kind == b.kind && a.key == b.key
  }

  /** Same jobs, same places in the forest. */
  ghost predicate SameShape(a: Items, b: Items)
  {
    |a| == |b| && forall i :: 0 <= i < |a| ==> SameJob(a[i], b[i])
  }

  lemma {:induction false} ShapeDecidesParents(a: Items, b: Items, id: nat)
    requires SameShape(a, b)
    ensures ParentOf(a, id) == ParentOf(b, id)
    decreases |a|
  {
    if a != [] {
      ShapeDecidesParents(a[..|a| - 1], b[..|b| - 1], id);
    }
  }

  lemma {:induction false} ShapeDecidesUnder(a: Items, b: Items, id: nat, root: nat)
    requires SameShape(a, b)
    ensures Under(a, id, root) == Under(b, id, root)
    decreases id
  {
    ShapeDecidesParents(a, b, id);
    if id != root && ParentOf(a, id).Some? && ParentOf(a, id).value < id {
      ShapeDecidesUnder(a, b, ParentOf(a, id).value, root);
    }
  }

  lemma ShapeKeepsForest(a: Items, b: Items, nextId: nat)
    requires Forest(a, nextId) && SameShape(a, b) && TopsNeverQueued(b)
    ensures Forest(b, nextId)
  {
    forall i: nat ensures ParentPresent(b, i) {
      assert ParentPresent(a, i);
      if i < |b| && b[i].parent.Some? {
        assert SameJob(a[i], b[i]);
        SameHas(a, b, b[i].parent.value);
      }
    }
    assert forall i | 0 <= i < |a| :: SameJob(a[i], b[i]);
  }

  // ----- what the methods do to the records -----

  function Fresh(id: nat, workspace: Option<string>, parent: Option<nat>, kind: Kind, key: string, now: nat): Activity
  {
    Activity(id, workspace, parent, kind, key, Status.Running, "", now, None)
  }

  function FindTop(items: Items, workspace: Option<string>, kind: Kind, key: string): (r: Option<Activity>)
    ensures r.Some? ==> r.value in items && r.value.IsTop(workspace, kind, key)
    ensures r.None? ==> forall a | a in items :: !a.IsTop(workspace, kind, key)
  {
    if items == [] then None
    else if items[0].IsTop(workspace, kind, key) then Some(items[0])
    else FindTop(items[1..], workspace, kind, key)
  }

  /** The records outside `root`'s tree, among the first `n`. */
  function Pruned(items: Items, root: nat, n: nat): Items
    requires n <= |items|
  {
    if n == 0 then []
    else Pruned(items, root, n - 1) + if Under(items, items[n - 1].id, root) then [] else [items[n - 1]]
  }

  function Retain(items: Items, doomed: seq<nat>): Items
  {
    if items == [] then []
    else Retain(items[..|items| - 1], doomed) + if items[|items| - 1].id in doomed then [] else [items[|items| - 1]]
  }

  lemma {:induction false} RetainPrunes(items: Items, root: nat, doomed: seq<nat>, n: nat)
    requires n <= |items|
    requires forall x :: x in doomed <==> Under(items, x, root)
    ensures Retain(items[..n], doomed) == Pruned(items, root, n)
  {
    if n > 0 {
      assert items[..n][..n - 1] == items[..n - 1];
      RetainPrunes(items, root, doomed, n - 1);
    }
  }

  lemma {:induction false} PrunedKeeps(items: Items, root: nat, n: nat)
    requires n <= |items|
    ensures forall a :: a in Pruned(items, root, n) <==> a in items[..n] && !Under(items, a.id, root)
  {
    if n > 0 {
      PrunedKeeps(items, root, n - 1);
      assert items[..n] == items[..n - 1] + [items[n - 1]];
    }
  }

  lemma {:induction false} PrunedIncrease(items: Items, nextId: nat, root: nat, n: nat)
    requires IdsIncrease(items, nextId) && n <= |items|
    ensures IdsIncrease(Pruned(items, root, n), nextId)
  {
    if n > 0 {
      PrunedIncrease(items, nextId, root, n - 1);
      KeptAreEarlier(items, nextId, root, n - 1);
    }
  }

  lemma KeptAreEarlier(items: Items, nextId: nat, root: nat, n: nat)
    requires IdsIncrease(items, nextId) && n < |items|
    ensures forall a | a in Pruned(items, root, n) :: a.id < items[n].id
  {
    PrunedKeeps(items, root, n);
  }

  lemma PrunedMembers(items: Items, nextId: nat, root: nat)
    requires IdsIncrease(items, nextId)
    ensures forall a :: a in Pruned(items, root, |items|) <==> a in items && !Under(items, a.id, root)
    ensures IdsIncrease(Pruned(items, root, |items|), nextId)
  {
    PrunedKeeps(items, root, |items|);
    PrunedIncrease(items, nextId, root, |items|);
    assert items[..|items|] == items;
  }

  /** Where a kept record stood. */
  lemma PrunedFrom(items: Items, nextId: nat, root: nat, i: nat) returns (j: nat)
    requires IdsIncrease(items, nextId) && i < |Pruned(items, root, |items|)|
    ensures j < |items| && items[j] == Pruned(items, root, |items|)[i] && !Under(items, items[j].id, root)
  {
    var p := Pruned(items, root, |items|);
    PrunedMembers(items, nextId, root);
    assert p[i] in p;
    j :| 0 <= j < |items| && items[j] == p[i];
  }

  lemma PruningKeepsParents(items: Items, nextId: nat, root: nat, i: nat)
    requires Forest(items, nextId) && i < |Pruned(items, root, |items|)|
    requires Pruned(items, root, |items|)[i].parent.Some?
    ensures var p := Pruned(items, root, |items|);
      p[i].parent.value < p[i].id && Has(p, p[i].parent.value)
  {
    var p := Pruned(items, root, |items|);
    var j := PrunedFrom(items, nextId, root, i);
    assert ParentPresent(items, j);
    var k :| 0 <= k < |items| && items[k].id == items[j].parent.value;
    ParentAt(items, nextId, j);
    PrunedMembers(items, nextId, root);
    assert items[k] in p;
  }

  lemma PruningKeepsTops(items: Items, nextId: nat, root: nat, i: nat, j: nat)
    requires Forest(items, nextId) && i < j < |Pruned(items, root, |items|)|
    requires Pruned(items, root, |items|)[i].parent.None?
    ensures var p := Pruned(items, root, |items|); !p[j].IsTop(p[i].workspace, p[i].kind, p[i].key)
  {
    PrunedMembers(items, nextId, root);
    var k := PrunedFrom(items, nextId, root, i);
    var l := PrunedFrom(items, nextId, root, j);
    assert items[k].id < items[l].id;
  }

  lemma PruningKeepsForest(items: Items, nextId: nat, root: nat)
    requires Forest(items, nextId)
    ensures Forest(Pruned(items, root, |items|), nextId)
  {
    var p := Pruned(items, root, |items|);
    PrunedMembers(items, nextId, root);
    forall i: nat ensures ParentPresent(p, i) {
      if i < |p| && p[i].parent.Some? {
        PruningKeepsParents(items, nextId, root, i);
      }
    }
    forall i, j | 0 <= i < j < |p| && p[i].parent.None? ensures !p[j].IsTop(p[i].workspace, p[i].kind, p[i].key) {
      PruningKeepsTops(items, nextId, root, i, j);
    }
    forall i | 0 <= i < |p| && p[i].parent.None? ensures !p[i].status.Queued? {
      var k := PrunedFrom(items, nextId, root, i);
    }
  }

  lemma GrowingKeepsForest(items: Items, nextId: nat, a: Activity)
    requires Forest(items, nextId) && a.id == nextId + 1 && a.status == Status.Running
    requires a.parent.Some? ==> Has(items, a.parent.value)
    requires a.parent.None? ==> forall b | b in items :: !b.IsTop(a.workspace, a.kind, a.key)
    ensures Forest(items + [a], nextId + 1)
  {
    var grown := items + [a];
    forall i: nat ensures ParentPresent(grown, i) {
      if i < |grown| && grown[i].parent.Some? {
        assert ParentPresent(items, i);
        var j :| 0 <= j < |items| && items[j].id == grown[i].parent.value;
        assert grown[j].id == grown[i].parent.value;
      }
    }
    forall i, j | 0 <= i < j < |grown| && grown[i].parent.None?
      ensures !grown[j].IsTop(grown[i].workspace, grown[i].kind, grown[i].key)
    {
      assert items[i] in items;
    }
  }

  function Closed(a: Activity, root: nat, status: Status, note: Option<string>, now: nat): Activity
  {
    if !a.status.IsOpen() then a
    else if a.id == root then
      a.(status := status, log := a.log + (if note.Some? then note.value else ""), finishedMs := Some(now))
    else a.(status := Cancelled, finishedMs := Some(now))
  }

  /** `finish`: `root` is settled, and whatever is still open below is called off. */
  function Finished(items: Items, root: nat, status: Status, note: Option<string>, now: nat): Items
  {
    seq(|items|, i requires 0 <= i < |items| =>
      if Under(items, items[i].id, root) then Closed(items[i], root, status, note, now) else items[i])
  }

  /** `append`: on the job's own log and on every ancestor's. */
  function Appended(items: Items, id: nat, text: string): Items
  {
    seq(|items|, i requires 0 <= i < |items| =>
      if Has(items, id) && Under(items, id, items[i].id) then items[i].(log := items[i].log + text) else items[i])
  }

  function Begun(items: Items, id: nat, now: nat): Items
  {
    seq(|items|, i requires 0 <= i < |items| =>
      if items[i].id == id && items[i].status.Queued? then items[i].(status := Status.Running, startedMs := now) else items[i])
  }

  /** Superseding a running job leaves what replacing a finished one leaves. */
  lemma {:induction false} PruningForgetsTheFinish(items: Items, root: nat, status: Status, note: Option<string>, now: nat, n: nat)
    requires n <= |items|
    ensures Pruned(Finished(items, root, status, note, now), root, n) == Pruned(items, root, n)
  {
    if n > 0 {
      var finished := Finished(items, root, status, note, now);
      assert SameShape(items, finished);
      PruningForgetsTheFinish(items, root, status, note, now, n - 1);
      ShapeDecidesUnder(items, finished, items[n - 1].id, root);
    }
  }

  // ----- over time -----

  /** From one log to a later one: no record changes its place, loses text or
      reopens, and none that is gone comes back. */
  ghost predicate Evolves(a: Items, na: nat, b: Items, nb: nat)
  {
    && na <= nb
    && (forall j | 0 <= j < |b| && b[j].id <= na :: Has(a, b[j].id))
    && (forall i, j | 0 <= i < |a| && 0 <= j < |b| && a[i].id == b[j].id :: Later(a[i], b[j]))
  }

  ghost predicate Later(a: Activity, b: Activity)
  {
    && SameJob(a, b)
    && a.log <= b.log
    && (!a.status.IsOpen() ==> b.status == a.status && b.finishedMs == a.finishedMs)
    && (a.status.Running? ==> !b.status.Queued?)
  }

  lemma EvolvesTransitive(a: Items, na: nat, b: Items, nb: nat, c: Items, nc: nat)
    requires Evolves(a, na, b, nb) && Evolves(b, nb, c, nc) && IdsIncrease(a, na)
    ensures Evolves(a, na, c, nc)
  {
    forall k | 0 <= k < |c| && c[k].id <= na ensures Has(a, c[k].id) {
      var j :| 0 <= j < |b| && b[j].id == c[k].id;
    }
    forall i, k | 0 <= i < |a| && 0 <= k < |c| && a[i].id == c[k].id ensures Later(a[i], c[k]) {
      assert Has(b, c[k].id);
      var j :| 0 <= j < |b| && b[j].id == c[k].id;
      assert Later(a[i], b[j]) && Later(b[j], c[k]);
    }
  }

  lemma ShapeEvolves(a: Items, b: Items, nextId: nat)
    requires IdsIncrease(a, nextId) && SameShape(a, b)
    requires forall i :: 0 <= i < |a| ==> Later(a[i], b[i])
    ensures Evolves(a, nextId, b, nextId)
  {
    forall j | 0 <= j < |b| ensures Has(a, b[j].id) {
      assert a[j].id == b[j].id;
    }
    forall i, j | 0 <= i < |a| && 0 <= j < |b| && a[i].id == b[j].id ensures Later(a[i], b[j]) {
      assert a[j].id == b[j].id;
      assert i == j;
    }
  }

  lemma PruningEvolves(items: Items, nextId: nat, root: nat)
    requires IdsIncrease(items, nextId)
    ensures Evolves(items, nextId, Pruned(items, root, |items|), nextId)
  {
    var p := Pruned(items, root, |items|);
    PrunedMembers(items, nextId, root);
    forall j | 0 <= j < |p| ensures p[j] in items {
      assert p[j] in p;
    }
    forall i, j | 0 <= i < |items| && 0 <= j < |p| && items[i].id == p[j].id ensures Later(items[i], p[j]) {
      var k :| 0 <= k < |items| && items[k] == p[j];
      assert i == k;
    }
  }

  lemma GrowingEvolves(items: Items, nextId: nat, a: Activity)
    requires IdsIncrease(items, nextId) && a.id == nextId + 1
    ensures Evolves(items, nextId, items + [a], nextId + 1)
  {
    forall i, j | 0 <= i < |items| && 0 <= j < |items| + 1 && items[i].id == (items + [a])[j].id
      ensures Later(items[i], (items + [a])[j])
    {
      assert j < |items|;
      assert i == j;
    }
  }

  // ----- transcripts -----

  ghost predicate Subseq<T>(a: seq<T>, b: seq<T>)
  {
    a == [] || (b != [] && ((a[|a| - 1] == b[|b| - 1] && Subseq(a[..|a| - 1], b[..|b| - 1])) || Subseq(a, b[..|b| - 1])))
  }

  lemma SubseqGrows<T>(a: seq<T>, b: seq<T>, x: T)
    requires Subseq(a, b)
    ensures Subseq(a, b + [x]) && Subseq(a + [x], b + [x])
  {
    assert (b + [x])[..|b|] == b && (a + [x])[..|a|] == a;
  }

  lemma {:induction false} SubseqSelf<T>(a: seq<T>)
    ensures Subseq(a, a)
  {
    if a != [] {
      SubseqSelf(a[..|a| - 1]);
    }
  }

  lemma {:induction false} SubseqTransitive<T>(a: seq<T>, b: seq<T>, c: seq<T>)
    requires Subseq(a, b) && Subseq(b, c)
    ensures Subseq(a, c)
    decreases |b| + |c|
  {
    if a != [] {
      if Subseq(b, c[..|c| - 1]) {
        SubseqTransitive(a, b, c[..|c| - 1]);
      } else if Subseq(a, b[..|b| - 1]) {
        SubseqTransitive(a, b[..|b| - 1], c[..|c| - 1]);
      } else {
        SubseqTransitive(a[..|a| - 1], b[..|b| - 1], c[..|c| - 1]);
      }
    }
  }

  function Join(texts: seq<string>): string
  {
    if texts == [] then "" else Join(texts[..|texts| - 1]) + texts[|texts| - 1]
  }

  lemma {:induction false} SubseqPadded(a: string, b: string, x: string)
    requires Subseq(a, b)
    ensures Subseq(a, b + x)
    decreases |x|
  {
    if x == [] {
      assert b + x == b;
    } else {
      SubseqPadded(a, b, x[..|x| - 1]);
      assert (b + x)[..|b + x| - 1] == b + x[..|x| - 1];
    }
  }

  lemma {:induction false} SubseqAppended(a: string, b: string, x: string)
    requires Subseq(a, b)
    ensures Subseq(a + x, b + x)
    decreases |x|
  {
    if x == [] {
      assert b + x == b && a + x == a;
    } else {
      SubseqAppended(a, b, x[..|x| - 1]);
      assert (b + x)[..|b + x| - 1] == b + x[..|x| - 1];
      assert (a + x)[..|a + x| - 1] == a + x[..|x| - 1];
    }
  }

  lemma {:induction false} SubseqJoined(a: seq<string>, b: seq<string>)
    requires Subseq(a, b)
    ensures Subseq(Join(a), Join(b))
    decreases |b|
  {
    if a != [] {
      if Subseq(a, b[..|b| - 1]) {
        SubseqJoined(a, b[..|b| - 1]);
        SubseqPadded(Join(a), Join(b[..|b| - 1]), b[|b| - 1]);
      } else {
        SubseqJoined(a[..|a| - 1], b[..|b| - 1]);
        SubseqAppended(Join(a[..|a| - 1]), Join(b[..|b| - 1]), b[|b| - 1]);
      }
    }
  }

  /** The log has all the texts in their order, and while the job is open nothing
      else. */
  ghost predicate Transcribes(a: Activity, texts: seq<string>)
  {
    Subseq(Join(texts), a.log) && (a.status.IsOpen() ==> a.log == Join(texts))
  }

  /** `said` is what was appended to each job: it is in the job's log, and a child's
      is part of its parent's. */
  ghost predicate Transcripts(items: Items, said: map<nat, seq<string>>)
  {
    && (forall i | 0 <= i < |items| :: items[i].id in said && Transcribes(items[i], said[items[i].id]))
    && (forall i, j | 0 <= i < |items| && 0 <= j < |items| && items[i].parent == Some(items[j].id) ::
          Subseq(said[items[i].id], said[items[j].id]))
  }

  /** A job's transcript is part of every ancestor's. */
  lemma {:induction false} AncestorsHear(items: Items, nextId: nat, said: map<nat, seq<string>>, i: nat, j: nat)
    requires Forest(items, nextId) && Transcripts(items, said)
    requires i < |items| && j < |items| && Under(items, items[i].id, items[j].id)
    ensures Subseq(said[items[i].id], said[items[j].id])
    decreases items[i].id
  {
    if items[i].id == items[j].id {
      SubseqSelf(said[items[i].id]);
    } else {
      ParentAt(items, nextId, i);
      assert ParentPresent(items, i);
      var k :| 0 <= k < |items| && items[k].id == items[i].parent.value;
      AncestorsHear(items, nextId, said, k, j);
      SubseqTransitive(said[items[i].id], said[items[k].id], said[items[j].id]);
    }
  }

  /** What was appended to a job is a subsequence of its own log and of every
      ancestor's, settled or not. */
  lemma AncestorsLogsHear(items: Items, nextId: nat, said: map<nat, seq<string>>, i: nat, j: nat)
    requires Forest(items, nextId) && Transcripts(items, said)
    requires i < |items| && j < |items| && Under(items, items[i].id, items[j].id)
    ensures Subseq(Join(said[items[i].id]), items[j].log)
  {
    AncestorsHear(items, nextId, said, i, j);
    SubseqJoined(said[items[i].id], said[items[j].id]);
    assert Transcribes(items[j], said[items[j].id]);
    SubseqTransitive(Join(said[items[i].id]), Join(said[items[j].id]), items[j].log);
  }

  /** So the whole log of an open job is a subsequence of every ancestor's. */
  lemma OpenLogsNest(items: Items, nextId: nat, said: map<nat, seq<string>>, i: nat, j: nat)
    requires Forest(items, nextId) && Transcripts(items, said)
    requires i < |items| && j < |items| && Under(items, items[i].id, items[j].id)
    requires items[i].status.IsOpen()
    ensures Subseq(items[i].log, items[j].log)
  {
    AncestorsLogsHear(items, nextId, said, i, j);
    assert Transcribes(items[i], said[items[i].id]);
  }

  // ----- the log -----

  function Children(items: Items, id: nat): seq<nat>
  {
    if items == [] then []
    else Children(items[..|items| - 1], id) + if items[|items| - 1].parent == Some(id) then [items[|items| - 1].id] else []
  }

  lemma {:induction false} ChildrenAre(items: Items, nextId: nat, id: nat)
    requires IdsIncrease(items, nextId)
    ensures forall x :: x in Children(items, id) <==> ParentOf(items, x) == Some(id)
    ensures NoDup(Children(items, id))
  {
    if items != [] {
      var before, last := items[..|items| - 1], items[|items| - 1];
      ChildrenAre(before, nextId, id);
      forall x | x in Children(before, id) ensures x != last.id {
        ParentIsListed(before, x);
      }
      NoDupConcat(Children(before, id), [last.id]);
    }
  }

  lemma {:induction false} ElemsSize(s: seq<nat>)
    ensures |Elems(s)| <= |s|
  {
    if s != [] {
      ElemsSize(s[..|s| - 1]);
      PrefixStep(s, |s| - 1);
      assert s[..|s|] == s;
    } else {
      assert Elems(s) == {};
    }
  }

  /** A list of `root` and listed jobs, none twice, is no longer than the log. */
  lemma TreeIsShort(items: Items, root: nat, tree: seq<nat>)
    requires NoDup(tree) && forall x | x in tree :: x == root || Has(items, x)
    ensures |tree| <= |items| + 1
  {
    var ids: seq<nat> := [root] + seq(|items|, i requires 0 <= i < |items| => items[i].id);
    forall x | x in tree ensures x in Elems(ids) {
      if x != root {
        var i :| 0 <= i < |items| && items[i].id == x;
        assert ids[i + 1] == x;
      } else {
        assert ids[0] == x;
      }
    }
    ElemsSize(ids);
    if |tree| > |Elems(ids)| {
      Pigeonhole(tree, Elems(ids));
    }
  }

  /** `x` is on the list exactly if it is `root` or its parent is on `done`. */
  ghost predicate Listed(items: Items, root: nat, tree: seq<nat>, done: seq<nat>, x: nat)
  {
    x in tree <==> x == root || (ParentOf(items, x).Some? && ParentOf(items, x).value in done)
  }

  /** `tree` after its first `i` entries were looked up. */
  ghost predicate Growing(items: Items, root: nat, tree: seq<nat>, i: nat)
  {
    && i <= |tree| && tree != [] && tree[0] == root && NoDup(tree)
    && (forall x | x in tree :: root <= x)
    && (forall x: nat {:trigger Listed(items, root, tree, tree[..i], x)} :: Listed(items, root, tree, tree[..i], x))
  }

  lemma ParentsAreEarlier(items: Items, nextId: nat, x: nat)
    requires Forest(items, nextId) && ParentOf(items, x).Some?
    ensures ParentOf(items, x).value < x && Has(items, x)
  {
    ParentIsListed(items, x);
    var i :| 0 <= i < |items| && items[i].id == x && items[i].parent == ParentOf(items, x);
    assert ParentPresent(items, i);
  }

  lemma TreeStarts(items: Items, root: nat)
    ensures Growing(items, root, [root], 0)
  {
  }

  lemma NewChildren(items: Items, nextId: nat, root: nat, tree: seq<nat>, i: nat)
    requires Forest(items, nextId) && Growing(items, root, tree, i) && i < |tree|
    ensures forall x | x in Children(items, tree[i]) :: x !in tree && root <= x
    ensures NoDup(tree + Children(items, tree[i]))
    ensures |tree| <= |items| + 1
  {
    ChildrenAre(items, nextId, tree[i]);
    assert tree[i] in tree && tree[i] !in tree[..i];
    forall x | x in Children(items, tree[i]) ensures x !in tree && root <= x {
      ParentsAreEarlier(items, nextId, x);
      assert Listed(items, root, tree, tree[..i], x);
    }
    NoDupConcat(tree, Children(items, tree[i]));
    forall x | x in tree && x != root ensures Has(items, x) {
      assert Listed(items, root, tree, tree[..i], x);
      ParentsAreEarlier(items, nextId, x);
    }
    TreeIsShort(items, root, tree);
  }

  lemma TreeGrows(items: Items, nextId: nat, root: nat, tree: seq<nat>, i: nat)
    requires Forest(items, nextId) && Growing(items, root, tree, i) && i < |tree|
    ensures Growing(items, root, tree + Children(items, tree[i]), i + 1)
    ensures |tree| <= |items| + 1
  {
    NewChildren(items, nextId, root, tree, i);
    ChildrenAre(items, nextId, tree[i]);
    var grown := tree + Children(items, tree[i]);
    var done := grown[..i + 1];
    forall x: nat ensures Listed(items, root, grown, done, x) {
      ListedAfter(items, nextId, root, tree, i, x);
    }
  }

  lemma ListedAfter(items: Items, nextId: nat, root: nat, tree: seq<nat>, i: nat, x: nat)
    requires Forest(items, nextId) && Growing(items, root, tree, i) && i < |tree|
    ensures var grown := tree + Children(items, tree[i]); Listed(items, root, grown, grown[..i + 1], x)
  {
    ChildrenAre(items, nextId, tree[i]);
    assert Listed(items, root, tree, tree[..i], x);
    assert (tree + Children(items, tree[i]))[..i + 1] == tree[..i] + [tree[i]];
  }

  /** A list closed under children and started by `root` is `root`'s tree. */
  lemma {:induction false} ClosedListIsTree(items: Items, nextId: nat, root: nat, tree: seq<nat>, x: nat)
    requires Forest(items, nextId)
    requires forall y: nat {:trigger Listed(items, root, tree, tree, y)} :: Listed(items, root, tree, tree, y)
    ensures x in tree <==> Under(items, x, root)
    decreases x
  {
    assert Listed(items, root, tree, tree, x);
    if x != root && ParentOf(items, x).Some? {
      ParentsAreEarlier(items, nextId, x);
      ClosedListIsTree(items, nextId, root, tree, ParentOf(items, x).value);
    }
  }

  datatype Starting = Started(id: nat) | Joined(running: Activity)

  class ActivityLog {
    var items: Items
    var nextId: nat
    ghost var said: map<nat, seq<string>>

    ghost predicate Valid()
      reads this
    {
      Forest(items, nextId) && Transcripts(items, said)
    }

    constructor ()
      ensures Valid() && items == [] && nextId == 0
    {
      items, nextId, said := [], 0, map[];
    }

    /** Where `id` is, or past the end: `find_mut`. */
    method Position(id: nat) returns (p: nat)
      ensures p <= |items|
      ensures p < |items| ==> items[p].id == id
      ensures p == |items| ==> !Has(items, id)
    {
      p := 0;
      while p < |items| && items[p].id != id
        invariant p <= |items| && forall i | 0 <= i < p :: items[i].id != id
      {
        p := p + 1;
      }
    }

    /** `tree`: `root` and everything under it, each once. */
    method Tree(root: nat) returns (tree: seq<nat>)
      requires Valid()
      ensures NoDup(tree)
      ensures forall x :: x in tree <==> Under(items, x, root)
    {
      tree := [root];
      var i := 0;
      TreeStarts(items, root);
      while i < |tree|
        invariant i <= |tree| && Growing(items, root, tree, i)
        decreases |items| + 1 - i
      {
        TreeGrows(items, nextId, root, tree, i);
        tree := tree + Children(items, tree[i]);
        i := i + 1;
      }
      assert tree[..i] == tree;
      forall x ensures x in tree <==> Under(items, x, root) {
        ClosedListIsTree(items, nextId, root, tree, x);
      }
    }

    /** `remove_tree`. */
    method RemoveTree(root: nat)
      requires Valid()
      modifies this
      ensures Valid() && nextId == old(nextId)
      ensures items == Pruned(old(items), root, |old(items)|) && said == old(said)
      ensures Evolves(old(items), nextId, items, nextId)
    {
      var doomed := Tree(root);
      RetainPrunes(items, root, doomed, |items|);
      assert items[..|items|] == items;
      PruningKeepsForest(items, nextId, root);
      PruningEvolves(items, nextId, root);
      ghost var was := items;
      items := Retain(items, doomed);
      KeptTranscripts(was, nextId, root, said);
    }

    /** `push`: an id is never used twice, not even a removed job's. */
    method Push(workspace: Option<string>, parent: Option<nat>, kind: Kind, key: string, now: nat) returns (id: nat)
      requires Valid()
      requires parent.Some? ==> Has(items, parent.value)
      requires parent.None? ==> forall a | a in items :: !a.IsTop(workspace, kind, key)
      modifies this
      ensures Valid()
      ensures id == nextId == old(nextId) + 1
      ensures items == old(items) + [Fresh(id, workspace, parent, kind, key, now)] && said == old(said)[id := []]
      ensures Evolves(old(items), old(nextId), items, nextId)
    {
      var a := Fresh(nextId + 1, workspace, parent, kind, key, now);
      GrowingIsSound(items, nextId, said, a);
      id := a.id;
      items, nextId, said := items + [a], id, said[id := []];
    }

    /** `ActivityLog::start`: joins a running job of that name, replaces any other. */
    method Start(workspace: Option<string>, kind: Kind, key: string, now: nat) returns (r: Starting)
      requires Valid()
      modifies this
      ensures Valid()
      ensures Evolves(old(items), old(nextId), items, nextId)
      ensures var previous := FindTop(old(items), workspace, kind, key);
        if previous.Some? && previous.value.status.IsOpen() then
          r == Joined(previous.value) && items == old(items) && nextId == old(nextId) && said == old(said)
        else
          && r == Started(old(nextId) + 1) && nextId == old(nextId) + 1 && said == old(said)[nextId := []]
          && items == (if previous.None? then old(items) else Pruned(old(items), previous.value.id, |old(items)|))
                      + [Fresh(nextId, workspace, None, kind, key, now)]
    {
      var previous := FindTop(items, workspace, kind, key);
      if previous.Some? && previous.value.status.Running? {
        SameEvolves(items, nextId);
        r := Joined(previous.value);
      } else {
        r := Replace(previous, workspace, kind, key, now);
      }
    }

    /** A new top-level job in the place of `previous`. */
    method Replace(previous: Option<Activity>, workspace: Option<string>, kind: Kind, key: string, now: nat) returns (r: Starting)
      requires Valid() && previous == FindTop(items, workspace, kind, key)
      modifies this
      ensures Valid()
      ensures Evolves(old(items), old(nextId), items, nextId)
      ensures r == Started(nextId) && nextId == old(nextId) + 1 && said == old(said)[nextId := []]
      ensures items == (if previous.None? then old(items) else Pruned(old(items), previous.value.id, |old(items)|))
                       + [Fresh(nextId, workspace, None, kind, key, now)]
    {
      if previous.Some? {
        ReplacedNameIsFree(items, nextId, previous.value, workspace, kind, key);
        RemoveTree(previous.value.id);
      } else {
        SameEvolves(items, nextId);
      }
      ghost var pruned := items;
      var id := Push(workspace, None, kind, key, now);
      EvolvesTransitive(old(items), old(nextId), pruned, old(nextId), items, nextId);
      r := Started(id);
    }

    /** `start_superseding`: the same log as if the running job had been over. */
    method StartSuperseding(workspace: Option<string>, kind: Kind, key: string, now: nat) returns (id: nat)
      requires Valid()
      modifies this
      ensures Valid()
      ensures Evolves(old(items), old(nextId), items, nextId)
      ensures id == nextId == old(nextId) + 1 && said == old(said)[nextId := []]
      ensures var previous := FindTop(old(items), workspace, kind, key);
        items == (if previous.None? then old(items) else Pruned(old(items), previous.value.id, |old(items)|))
                 + [Fresh(id, workspace, None, kind, key, now)]
    {
      var r := Start(workspace, kind, key, now);
      if r.Started? {
        return r.id;
      }
      var running := r.running.id;
      Finish(running, Cancelled, Some("\nsuperseded\n"), now);
      ghost var cancelled := items;
      TopAfterFinish(old(items), old(nextId), old(said), workspace, kind, key, Cancelled, Some("\nsuperseded\n"), now);
      r := Start(workspace, kind, key, now);
      EvolvesTransitive(old(items), old(nextId), cancelled, old(nextId), items, nextId);
      PruningForgetsTheFinish(old(items), running, Cancelled, Some("\nsuperseded\n"), now, |old(items)|);
      match r
      case Started(job) => return job;
    }

    /** `append`, up to the top. */
    method Append(id: nat, text: string)
      requires Valid()
      modifies this
      ensures Valid() && nextId == old(nextId)
      ensures items == Appended(old(items), id, text)
      ensures said == HeardBy(old(items), old(said), id, text)
      ensures Evolves(old(items), nextId, items, nextId)
    {
      AppendedIsSound(items, nextId, said, id, text);
      ghost var heard := HeardBy(items, said, id, text);
      WriteUp(id, text);
      said := heard;
    }

    /** The loop of `append`. */
    method WriteUp(id: nat, text: string)
      requires Forest(items, nextId)
      modifies this`items
      ensures items == Appended(old(items), id, text)
    {
      ghost var was := items;
      var next := Some(id);
      NothingHeardYet(was, id, text);
      while next.Some?
        invariant SameShape(was, items)
        invariant next.Some? ==> Under(was, id, next.value) && (Has(was, id) ==> Has(was, next.value))
        invariant next == Some(id) || Has(was, id)
        invariant forall i | 0 <= i < |was| :: items[i] == Heard(was, i, id, text, next)
        decreases if next.Some? then next.value + 1 else 0
      {
        var p := Position(next.value);
        if p == |items| {
          SameHas(was, items, next.value);
          break;
        }
        assert was[p].id == next.value && ParentPresent(was, p);
        HeardStep(was, nextId, p, id, text);
        items := items[p := items[p].(log := items[p].log + text)];
        next := items[p].parent;
      }
      assert items == Appended(was, id, text);
    }

    /** `child_of_kind`: a child of a job that was replaced goes nowhere. */
    method ChildOfKind(id: nat, kind: Option<Kind>, key: string, now: nat) returns (child: nat)
      requires Valid()
      modifies this
      ensures Valid()
      ensures !Has(old(items), id) ==> child == DETACHED && items == old(items) && nextId == old(nextId)
      ensures said == if Has(old(items), id) then old(said)[child := []] else old(said)
      ensures Has(old(items), id) ==> child == nextId == old(nextId) + 1 && items == old(items) + [ChildOf(old(items), id, kind, key, child, now)]
      ensures Evolves(old(items), old(nextId), items, nextId)
    {
      var p := Position(id);
      if p == |items| {
        SameEvolves(items, nextId);
        return DETACHED;
      }
      OwnRecord(items, nextId, p);
      child := Push(items[p].workspace, Some(id), if kind.Some? then kind.value else items[p].kind, key, now);
    }

    method QueuedChildOfKind(id: nat, kind: Option<Kind>, key: string, now: nat) returns (child: nat)
      requires Valid()
      modifies this
      ensures Valid()
      ensures !Has(old(items), id) ==> child == DETACHED && items == old(items) && nextId == old(nextId)
      ensures said == if Has(old(items), id) then old(said)[child := []] else old(said)
      ensures Has(old(items), id) ==>
        && child == nextId == old(nextId) + 1
        && items == old(items) + [ChildOf(old(items), id, kind, key, child, now).(status := Queued)]
      ensures Evolves(old(items), old(nextId), items, nextId)
    {
      ghost var was, wasNext := items, nextId;
      child := ChildOfKind(id, kind, key, now);
      var p := Position(child);
      if p < |items| {
        ghost var grown := items;
        if Has(was, id) {
          assert items[|was|].id == child;
          assert p == |was|;
        }
        items := items[p := items[p].(status := Queued)];
        QueuedIsSound(grown, nextId, said, p);
        GrowingEvolves(was, wasNext, items[p]);
      }
    }

    /** `begin`. */
    method Begin(id: nat, now: nat)
      requires Valid()
      modifies this
      ensures Valid() && nextId == old(nextId)
      ensures items == Begun(old(items), id, now) && said == old(said)
      ensures Evolves(old(items), nextId, items, nextId)
    {
      ghost var was := items;
      var p := Position(id);
      if p < |items| && items[p].status.Queued? {
        items := items[p := items[p].(status := Status.Running, startedMs := now)];
      }
      assert items == Begun(was, id, now);
      BegunIsSound(was, nextId, said, id, now);
    }

    /** `finish`: nothing in the tree is left open. */
    method Finish(id: nat, status: Status, note: Option<string>, now: nat)
      requires Valid() && !status.IsOpen()
      modifies this
      ensures Valid() && nextId == old(nextId)
      ensures items == Finished(old(items), id, status, note, now) && said == old(said)
      ensures forall i | 0 <= i < |items| && Under(items, items[i].id, id) :: !items[i].status.IsOpen()
      ensures Evolves(old(items), nextId, items, nextId)
    {
      ghost var was := items;
      var tree := Tree(id);
      CloseAll(tree, id, status, note, now);
      assert items == Finished(was, id, status, note, now);
      FinishedIsSound(was, nextId, said, id, status, note, now);
      NothingLeftOpen(was, id, status, note, now);
    }

    /** The loop of `finish` over the tree. */
    method CloseAll(tree: seq<nat>, root: nat, status: Status, note: Option<string>, now: nat)
      requires IdsIncrease(items, nextId) && NoDup(tree)
      modifies this`items
      ensures |items| == |old(items)|
      ensures forall i | 0 <= i < |items| :: items[i] == ClosedIn(old(items)[i], tree, root, status, note, now)
    {
      ghost var was := items;
      for k := 0 to |tree|
        invariant |items| == |was|
        invariant forall i | 0 <= i < |was| :: items[i] == ClosedIn(was[i], tree[..k], root, status, note, now)
      {
        var p := Position(tree[k]);
        assert tree[..k + 1] == tree[..k] + [tree[k]];
        if p < |items| {
          assert items[p] == ClosedIn(was[p], tree[..k], root, status, note, now);
          items := items[p := Closed(items[p], root, status, note, now)];
        }
      }
      assert tree[..|tree|] == tree;
    }
  }

  // ----- what the methods rely on -----

  lemma SameEvolves(items: Items, nextId: nat)
    requires IdsIncrease(items, nextId)
    ensures Evolves(items, nextId, items, nextId)
  {
    ShapeEvolves(items, items, nextId);
  }

  lemma SameHas(a: Items, b: Items, id: nat)
    requires SameShape(a, b)
    ensures Has(a, id) == Has(b, id)
  {
    if i :| 0 <= i < |a| && a[i].id == id {
      assert b[i].id == id;
    }
    if i :| 0 <= i < |b| && b[i].id == id {
      assert a[i].id == id;
    }
  }

  /** The record of `id`, extended by a child. */
  function ChildOf(items: Items, id: nat, kind: Option<Kind>, key: string, child: nat, now: nat): Activity
    requires Has(items, id)
  {
    var parent := Record(items, id);
    Fresh(child, parent.workspace, Some(id), if kind.Some? then kind.value else parent.kind, key, now)
  }

  function Record(items: Items, id: nat): (a: Activity)
    requires Has(items, id)
    ensures a in items && a.id == id
  {
    if items[0].id == id then items[0]
    else
      assert Has(items[1..], id) by {
        var i :| 0 <= i < |items| && items[i].id == id;
        assert items[1..][i - 1].id == id;
      }
      Record(items[1..], id)
  }

  lemma OwnRecord(items: Items, nextId: nat, p: nat)
    requires IdsIncrease(items, nextId) && p < |items|
    ensures Has(items, items[p].id) && Record(items, items[p].id) == items[p]
  {
    var a := Record(items, items[p].id);
    var i :| 0 <= i < |items| && items[i] == a;
    assert i == p;
  }

  lemma ReplacedNameIsFree(items: Items, nextId: nat, previous: Activity, workspace: Option<string>, kind: Kind, key: string)
    requires Forest(items, nextId) && previous in items && previous.IsTop(workspace, kind, key)
    ensures forall a | a in Pruned(items, previous.id, |items|) :: !a.IsTop(workspace, kind, key)
  {
    forall a | a in Pruned(items, previous.id, |items|) ensures !a.IsTop(workspace, kind, key) {
      KeptIsNamedOtherwise(items, nextId, previous, workspace, kind, key, a);
    }
  }

  lemma KeptIsNamedOtherwise(items: Items, nextId: nat, previous: Activity, workspace: Option<string>, kind: Kind, key: string, a: Activity)
    requires Forest(items, nextId) && previous in items && previous.IsTop(workspace, kind, key)
    requires a in Pruned(items, previous.id, |items|)
    ensures !a.IsTop(workspace, kind, key)
  {
    PrunedMembers(items, nextId, previous.id);
    var i :| 0 <= i < |items| && items[i] == a;
    var j :| 0 <= j < |items| && items[j] == previous;
    assert Under(items, previous.id, previous.id);
    OneTopByName(items, nextId, i, j, workspace, kind, key);
  }

  lemma OneTopByName(items: Items, nextId: nat, i: nat, j: nat, workspace: Option<string>, kind: Kind, key: string)
    requires Forest(items, nextId) && i < |items| && j < |items| && items[j].IsTop(workspace, kind, key)
    ensures items[i].IsTop(workspace, kind, key) ==> items[i] == items[j]
  {
    TopIsUnique(items, nextId, j, workspace, kind, key);
    if items[i].IsTop(workspace, kind, key) {
      TopIsUnique(items, nextId, i, workspace, kind, key);
    }
  }

  /** A name has one top-level record, so this is it. */
  lemma TopIsUnique(items: Items, nextId: nat, i: nat, workspace: Option<string>, kind: Kind, key: string)
    requires Forest(items, nextId) && i < |items| && items[i].IsTop(workspace, kind, key)
    ensures FindTop(items, workspace, kind, key) == Some(items[i])
  {
    assert items[i] in items;
    var a := FindTop(items, workspace, kind, key).value;
    var j :| 0 <= j < |items| && items[j] == a;
    assert i == j;
  }

  lemma TopAfterFinish(items: Items, nextId: nat, said: map<nat, seq<string>>, workspace: Option<string>, kind: Kind, key: string,
                       status: Status, note: Option<string>, now: nat)
    requires Forest(items, nextId) && Transcripts(items, said)
    requires FindTop(items, workspace, kind, key).Some? && !status.IsOpen()
    ensures var id := FindTop(items, workspace, kind, key).value.id;
      var top := FindTop(Finished(items, id, status, note, now), workspace, kind, key);
      top.Some? && top.value.id == id && !top.value.status.IsOpen()
  {
    var a := FindTop(items, workspace, kind, key).value;
    var i :| 0 <= i < |items| && items[i] == a;
    FinishedIsSound(items, nextId, said, a.id, status, note, now);
    TopIsUnique(Finished(items, a.id, status, note, now), nextId, i, workspace, kind, key);
  }

  lemma GrowingIsSound(items: Items, nextId: nat, said: map<nat, seq<string>>, a: Activity)
    requires Forest(items, nextId) && Transcripts(items, said)
    requires a.id == nextId + 1 && a.status == Status.Running && a.log == ""
    requires a.parent.Some? ==> Has(items, a.parent.value)
    requires a.parent.None? ==> forall b | b in items :: !b.IsTop(a.workspace, a.kind, a.key)
    ensures Forest(items + [a], nextId + 1) && Transcripts(items + [a], said[a.id := []])
    ensures Evolves(items, nextId, items + [a], nextId + 1)
  {
    GrowingKeepsForest(items, nextId, a);
    GrowingEvolves(items, nextId, a);
    NewTranscript(items, nextId, a, said);
  }

  lemma QueuedIsSound(was: Items, nextId: nat, said: map<nat, seq<string>>, p: nat)
    requires Forest(was, nextId) && Transcripts(was, said)
    requires p < |was| && was[p].parent.Some? && was[p].status.Running?
    ensures var items := was[p := was[p].(status := Queued)];
      Forest(items, nextId) && Transcripts(items, said)
  {
    var items := was[p := was[p].(status := Queued)];
    ShapeKeepsForest(was, items, nextId);
    RelabelledTranscripts(was, items, said);
  }

  lemma BegunIsSound(was: Items, nextId: nat, said: map<nat, seq<string>>, id: nat, now: nat)
    requires Forest(was, nextId) && Transcripts(was, said)
    ensures var items := Begun(was, id, now);
      Forest(items, nextId) && Transcripts(items, said) && Evolves(was, nextId, items, nextId)
  {
    var items := Begun(was, id, now);
    assert SameShape(was, items) && forall i | 0 <= i < |was| :: Later(was[i], items[i]);
    ShapeKeepsForest(was, items, nextId);
    RelabelledTranscripts(was, items, said);
    ShapeEvolves(was, items, nextId);
  }

  function ClosedIn(a: Activity, done: seq<nat>, root: nat, status: Status, note: Option<string>, now: nat): Activity
  {
    if a.id in done then Closed(a, root, status, note, now) else a
  }

  lemma ClosedRecord(a: Activity, root: nat, status: Status, note: Option<string>, now: nat)
    requires !status.IsOpen()
    ensures var b := Closed(a, root, status, note, now); Later(a, b) && !b.status.IsOpen()
  {
  }

  lemma FinishedRecords(was: Items, id: nat, status: Status, note: Option<string>, now: nat)
    requires !status.IsOpen()
    ensures var items := Finished(was, id, status, note, now);
      && SameShape(was, items)
      && (forall i | 0 <= i < |was| :: Later(was[i], items[i]))
      && (forall i | 0 <= i < |was| && Under(was, was[i].id, id) :: !items[i].status.IsOpen())
  {
    var items := Finished(was, id, status, note, now);
    forall i | 0 <= i < |was|
      ensures Later(was[i], items[i]) && (Under(was, was[i].id, id) ==> !items[i].status.IsOpen())
    {
      ClosedRecord(was[i], id, status, note, now);
    }
  }

  lemma NothingLeftOpen(was: Items, id: nat, status: Status, note: Option<string>, now: nat)
    requires !status.IsOpen()
    ensures var items := Finished(was, id, status, note, now);
      forall i | 0 <= i < |items| && Under(items, items[i].id, id) :: !items[i].status.IsOpen()
  {
    var items := Finished(was, id, status, note, now);
    FinishedRecords(was, id, status, note, now);
    forall i | 0 <= i < |items| && Under(items, items[i].id, id) ensures !items[i].status.IsOpen() {
      ShapeDecidesUnder(was, items, items[i].id, id);
      assert items[i].id == was[i].id;
    }
  }

  lemma FinishedIsSound(was: Items, nextId: nat, said: map<nat, seq<string>>, id: nat, status: Status, note: Option<string>, now: nat)
    requires Forest(was, nextId) && Transcripts(was, said) && !status.IsOpen()
    ensures var items := Finished(was, id, status, note, now);
      Forest(items, nextId) && Transcripts(items, said) && Evolves(was, nextId, items, nextId)
  {
    var items := Finished(was, id, status, note, now);
    FinishedRecords(was, id, status, note, now);
    ShapeKeepsForest(was, items, nextId);
    RelabelledTranscripts(was, items, said);
    ShapeEvolves(was, items, nextId);
  }

  /** Of two ancestors of one job, the later is below the earlier. */
  lemma {:induction false} AncestorsAreInLine(items: Items, id: nat, a: nat, b: nat)
    requires Under(items, id, a) && Under(items, id, b) && a <= b
    ensures Under(items, b, a)
    decreases id
  {
    if id != b {
      UnderIsLater(items, ParentOf(items, id).value, b);
      AncestorsAreInLine(items, ParentOf(items, id).value, a, b);
    }
  }

  /** The record at `i` when `append` has passed everything above `next`. */
  function Heard(was: Items, i: nat, id: nat, text: string, next: Option<nat>): Activity
    requires i < |was|
  {
    if Has(was, id) && Under(was, id, was[i].id) && (next.None? || next.value < was[i].id) then was[i].(log := was[i].log + text)
    else was[i]
  }

  lemma NothingHeardYet(was: Items, id: nat, text: string)
    ensures forall i | 0 <= i < |was| :: Heard(was, i, id, text, Some(id)) == was[i]
  {
    forall i | 0 <= i < |was| && Under(was, id, was[i].id) ensures was[i].id <= id {
      UnderIsLater(was, id, was[i].id);
    }
  }

  lemma HeardStep(was: Items, nextId: nat, p: nat, id: nat, text: string)
    requires Forest(was, nextId) && p < |was| && Under(was, id, was[p].id)
    ensures forall i | 0 <= i < |was| && i != p :: Heard(was, i, id, text, Some(was[p].id)) == Heard(was, i, id, text, was[p].parent)
    ensures Has(was, id) && was[p].parent.Some? ==> Under(was, id, was[p].parent.value)
  {
    ParentAt(was, nextId, p);
    assert ParentPresent(was, p);
    forall i | 0 <= i < |was| && i != p
      ensures Heard(was, i, id, text, Some(was[p].id)) == Heard(was, i, id, text, was[p].parent)
    {
      if Under(was, id, was[i].id) && was[i].id <= was[p].id {
        AncestorsAreInLine(was, id, was[i].id, was[p].id);
        UnderIsLater(was, was[p].parent.value, was[i].id);
      }
    }
    if was[p].parent.Some? {
      UnderTransitive(was, id, was[p].id, was[p].parent.value);
    }
  }

  ghost function HeardBy(was: Items, said: map<nat, seq<string>>, id: nat, text: string): map<nat, seq<string>>
  {
    map x | x in said :: if Has(was, id) && Under(was, id, x) then said[x] + [text] else said[x]
  }

  lemma ParentHears(was: Items, nextId: nat, said: map<nat, seq<string>>, id: nat, text: string, i: nat, j: nat)
    requires Forest(was, nextId) && Transcripts(was, said)
    requires i < |was| && j < |was| && was[i].parent == Some(was[j].id)
    ensures var heard := HeardBy(was, said, id, text); Subseq(heard[was[i].id], heard[was[j].id])
  {
    ParentAt(was, nextId, i);
    assert ParentPresent(was, i);
    SubseqGrows(said[was[i].id], said[was[j].id], text);
    if Under(was, id, was[i].id) {
      UnderTransitive(was, id, was[i].id, was[j].id);
    }
  }

  lemma HearsMore(a: Activity, texts: seq<string>, text: string)
    requires Transcribes(a, texts)
    ensures Transcribes(a.(log := a.log + text), texts + [text])
  {
    assert (texts + [text])[..|texts|] == texts;
    SubseqAppended(Join(texts), a.log, text);
  }

  lemma AppendedTranscripts(was: Items, nextId: nat, said: map<nat, seq<string>>, id: nat, text: string)
    requires Forest(was, nextId) && Transcripts(was, said)
    ensures Transcripts(Appended(was, id, text), HeardBy(was, said, id, text))
  {
    var items := Appended(was, id, text);
    var heard := HeardBy(was, said, id, text);
    forall i | 0 <= i < |items| ensures items[i].id in heard && Transcribes(items[i], heard[items[i].id]) {
      assert Transcribes(was[i], said[was[i].id]);
      HearsMore(was[i], said[was[i].id], text);
    }
    forall i, j | 0 <= i < |items| && 0 <= j < |items| && items[i].parent == Some(items[j].id)
      ensures Subseq(heard[items[i].id], heard[items[j].id])
    {
      ParentHears(was, nextId, said, id, text, i, j);
    }
  }

  lemma AppendedIsSound(was: Items, nextId: nat, said: map<nat, seq<string>>, id: nat, text: string)
    requires Forest(was, nextId) && Transcripts(was, said)
    ensures var items := Appended(was, id, text);
      Forest(items, nextId) && Transcripts(items, HeardBy(was, said, id, text)) && Evolves(was, nextId, items, nextId)
  {
    var items := Appended(was, id, text);
    assert SameShape(was, items) && forall i | 0 <= i < |was| :: Later(was[i], items[i]);
    AppendedTranscripts(was, nextId, said, id, text);
    ShapeKeepsForest(was, items, nextId);
    ShapeEvolves(was, items, nextId);
  }

  lemma KeptTranscripts(was: Items, nextId: nat, root: nat, said: map<nat, seq<string>>)
    requires IdsIncrease(was, nextId) && Transcripts(was, said)
    ensures Transcripts(Pruned(was, root, |was|), said)
  {
    var p := Pruned(was, root, |was|);
    forall i | 0 <= i < |p| ensures p[i].id in said && Transcribes(p[i], said[p[i].id]) {
      var k := PrunedFrom(was, nextId, root, i);
    }
    forall i, j | 0 <= i < |p| && 0 <= j < |p| && p[i].parent == Some(p[j].id)
      ensures Subseq(said[p[i].id], said[p[j].id])
    {
      var k := PrunedFrom(was, nextId, root, i);
      var l := PrunedFrom(was, nextId, root, j);
      assert was[k].parent == Some(was[l].id);
    }
  }

  lemma NewTranscript(items: Items, nextId: nat, a: Activity, said: map<nat, seq<string>>)
    requires Forest(items, nextId) && Transcripts(items, said) && a.id == nextId + 1 && a.log == ""
    requires a.parent.Some? ==> Has(items, a.parent.value)
    ensures Transcripts(items + [a], said[a.id := []])
  {
    var grown := items + [a];
    var heard := said[a.id := []];
    forall i, j | 0 <= i < |grown| && 0 <= j < |grown| && grown[i].parent == Some(grown[j].id)
      ensures Subseq(heard[grown[i].id], heard[grown[j].id])
    {
      if i < |items| {
        assert ParentPresent(items, i);
        assert j < |items|;
        assert items[i].parent == Some(items[j].id);
      }
    }
  }

  /** Changing anything but the places and what open records log; a settled one's
      log may gain a note. */
  lemma RelabelledTranscripts(a: Items, b: Items, said: map<nat, seq<string>>)
    requires SameShape(a, b) && Transcripts(a, said)
    requires forall i | 0 <= i < |b| :: a[i].log <= b[i].log
    requires forall i | 0 <= i < |b| && b[i].status.IsOpen() :: a[i].status.IsOpen() && b[i].log == a[i].log
    ensures Transcripts(b, said)
  {
    forall i | 0 <= i < |b| ensures b[i].id in said && Transcribes(b[i], said[b[i].id]) {
      assert a[i].id == b[i].id && Transcribes(a[i], said[a[i].id]);
      SubseqPadded(Join(said[a[i].id]), a[i].log, b[i].log[|a[i].log|..]);
      assert a[i].log + b[i].log[|a[i].log|..] == b[i].log;
    }
    forall i, j | 0 <= i < |b| && 0 <= j < |b| && b[i].parent == Some(b[j].id) ensures Subseq(said[b[i].id], said[b[j].id]) {
      assert a[i].parent == Some(a[j].id);
    }
  }
}
