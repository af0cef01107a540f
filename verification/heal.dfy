/** `src/daemon/heal.rs`: which node is brought back next, and when. */
module Heal {
  import opened Ordering
  import opened State

  /** Instants and durations are counted in nanoseconds. */
  const SECOND: nat := 1_000_000_000
  const FIRST_DELAY: nat := 5 * SECOND
  const MAX_DELAY: nat := 300 * SECOND
  const STABLE: nat := 60 * SECOND
  const MAX_ATTEMPTS: nat := 8

  datatype Tries = Tries(count: nat, last: nat, givenUp: bool)

  /** Workspace and node. */
  type Key = (string, string)

  function Power2(n: nat): nat
  {
    if n == 0 then 1 else 2 * Power2(n - 1)
  }

  function Min(a: nat, b: nat): nat { if a <= b then a else b }

  /** How long a node rests after its `count`-th restart. */
  function Delay(count: nat): nat
    requires count >= 1
  {
    Min(FIRST_DELAY * Power2(Min(count - 1, 16)), MAX_DELAY)
  }

  /** `Instant::duration_since`, which is zero when the clock has not moved on. */
  function Since(now: nat, then': nat): nat
  {
    if now >= then' then now - then' else 0
  }

  predicate Due(t: Tries, now: nat)
    requires t.count >= 1
  {
    Since(now, t.last) >= Delay(t.count)
  }

  datatype Verdict =
    | Restart(nodeId: string, condition: NodeCondition, attempt: nat)
    | GiveUp(nodeId: string)

  datatype Call = Call(workspace: string, env: EnvState, now: nat)
  {
    function KeyOf(node: string): Key { (workspace, node) }
  }

  /** A recorded node was restarted at least once, and given up on only after
      the last attempt. */
  ghost predicate Sound(tries: map<Key, Tries>)
  {
    forall k | k in tries :: 1 <= tries[k].count <= MAX_ATTEMPTS && (tries[k].givenUp ==> tries[k].count == MAX_ATTEMPTS)
  }

  // ----- one call -----

  predicate InFlight(env: EnvState)
  {
    env.pendingCreate.Some? || exists id :: id in env.containers && env.containers[id].pendingAction.Some?
  }

  /** A record is dropped once its node was stopped or has stayed up. */
  predicate Keeps(k: Key, t: Tries, call: Call)
  {
    k.0 != call.workspace
    || (k.1 in call.env.containers
        && var c := call.env.containers[k.1];
           c.desired.running && !(c.Condition() == Running && Since(call.now, t.last) >= STABLE))
  }

  function Retained(tries: map<Key, Tries>, call: Call): map<Key, Tries>
  {
    map k | k in tries && Keeps(k, tries[k], call) :: tries[k]
  }

  predicate Down(c: ContainerInfo)
  {
    c.Condition() == Crashed || c.Condition() == Interrupted
  }

  predicate MayTry(kept: map<Key, Tries>, call: Call, node: string)
    requires call.KeyOf(node) in kept ==> kept[call.KeyOf(node)].count >= 1
  {
    var k := call.KeyOf(node);
    k in kept ==> !kept[k].givenUp && Due(kept[k], call.now)
  }

  ghost predicate Candidate(kept: map<Key, Tries>, call: Call, node: string)
    requires Sound(kept)
  {
    node in call.env.containers && Down(call.env.containers[node]) && MayTry(kept, call, node)
  }

  /** `a` was tried longer ago than `b`, or as long ago and comes first by id. */
  predicate Before(kept: map<Key, Tries>, call: Call, a: string, b: string)
  {
    var (ka, kb) := (call.KeyOf(a), call.KeyOf(b));
    if ka !in kept then kb in kept || Le(a, b)
    else kb in kept && (kept[ka].last < kept[kb].last || (kept[ka].last == kept[kb].last && Le(a, b)))
  }

  ghost predicate Chosen(kept: map<Key, Tries>, call: Call, node: string)
    requires Sound(kept)
  {
    Candidate(kept, call, node) && forall m | Candidate(kept, call, m) :: Before(kept, call, node, m)
  }

  function Restarted(kept: map<Key, Tries>, call: Call, node: string): Tries
  {
    var k := call.KeyOf(node);
    Tries((if k in kept then kept[k].count else 0) + 1, call.now, false)
  }

  /** What one call leaves and returns. */
  ghost predicate Picks(tries: map<Key, Tries>, call: Call, after: map<Key, Tries>, verdict: Option<Verdict>)
    requires Sound(tries)
  {
    if InFlight(call.env) then
      after == tries && verdict.None?
    else
      var kept := Retained(tries, call);
      match verdict
      case None => after == kept && forall m :: !Candidate(kept, call, m)
      case Some(GiveUp(n)) =>
        Chosen(kept, call, n) && call.KeyOf(n) in kept && kept[call.KeyOf(n)].count >= MAX_ATTEMPTS
        && after == kept[call.KeyOf(n) := kept[call.KeyOf(n)].(givenUp := true)]
      case Some(Restart(n, condition, attempt)) =>
        Chosen(kept, call, n) && Restarted(kept, call, n).count <= MAX_ATTEMPTS
        && condition == call.env.containers[n].Condition() && attempt == Restarted(kept, call, n).count
        && after == kept[call.KeyOf(n) := Restarted(kept, call, n)]
  }

  class Healer {
    var tries: map<Key, Tries>

    ghost predicate Valid()
      reads this
    {
      Sound(tries)
    }

    constructor ()
      ensures Valid() && tries == map[]
    {
      tries := map[];
    }

    /** The node tried longest ago, among those down and rested. */
    method Choose(call: Call) returns (node: Option<string>)
      requires Valid()
      ensures node.None? ==> forall m :: !Candidate(tries, call, m)
      ensures node.Some? ==> Chosen(tries, call, node.value)
    {
      var ids := SortedElements(call.env.containers.Keys);
      node := None;
      for i := 0 to |ids|
        invariant forall m | m in ids[..i] && Candidate(tries, call, m) :: node.Some? && Before(tries, call, node.value, m)
        invariant node.Some? ==> node.value in ids[..i] && Candidate(tries, call, node.value)
      {
        var m := ids[i];
        assert ids[..i + 1] == ids[..i] + [m];
        assert m in Elems(ids);
        LeTotal(m, m);
        if Down(call.env.containers[m]) && MayTry(tries, call, m) {
          if node.None? {
            node := Some(m);
          } else {
            EarlierFirst(ids, i, node.value);
            if !Before(tries, call, node.value, m) {
              forall x | x in ids[..i] && Candidate(tries, call, x) ensures Before(tries, call, m, x) {
                assert Before(tries, call, node.value, x);
              }
              node := Some(m);
            }
          }
        }
      }
      assert ids[..|ids|] == ids;
      assert forall m | Candidate(tries, call, m) :: m in Elems(ids);
    }

    /** `pick`. */
    method Pick(call: Call) returns (verdict: Option<Verdict>)
      requires Valid()
      modifies this
      ensures Valid()
      ensures Picks(old(tries), call, tries, verdict)
    {
      if InFlight(call.env) {
        return None;
      }
      tries := Retained(tries, call);
      var node := Choose(call);
      if node.None? {
        return None;
      }
      var k := call.KeyOf(node.value);
      if k in tries && tries[k].count >= MAX_ATTEMPTS {
        tries := tries[k := tries[k].(givenUp := true)];
        return Some(GiveUp(node.value));
      }
      var restarted := Restarted(tries, call, node.value);
      tries := tries[k := restarted];
      verdict := Some(Restart(node.value, call.env.containers[node.value].Condition(), restarted.count));
    }
  }

  lemma EarlierFirst(ids: seq<string>, i: nat, x: string)
    requires SortedBy(ids, Self) && i < |ids| && x in ids[..i]
    ensures Le(x, ids[i])
  {
    var j :| 0 <= j < i && ids[j] == x;
    assert Le(Self(ids[j]), Self(ids[i]));
  }

  // ----- whole histories of calls -----

  ghost predicate PicksAt(calls: seq<Call>, tries: seq<map<Key, Tries>>, verdicts: seq<Option<Verdict>>, i: nat)
    requires |tries| == |calls| + 1 && |verdicts| == |calls| && i < |calls|
  {
    Sound(tries[i]) && Picks(tries[i], calls[i], tries[i + 1], verdicts[i])
  }

  /** A healer's whole life under a clock that never goes back. */
  ghost predicate IsLife(calls: seq<Call>, tries: seq<map<Key, Tries>>, verdicts: seq<Option<Verdict>>)
  {
    && |tries| == |calls| + 1 && |verdicts| == |calls|
    && tries[0] == map[]
    && (forall i: nat {:trigger PicksAt(calls, tries, verdicts, i)} :: i < |calls| ==> PicksAt(calls, tries, verdicts, i))
    && (forall i, j :: 0 <= i < j < |calls| ==> calls[i].now <= calls[j].now)
  }

  /** Call `i` is for `k`'s workspace and answers about `k`'s node. */
  ghost predicate About(calls: seq<Call>, verdicts: seq<Option<Verdict>>, i: nat, k: Key)
  {
    && i < |calls| == |verdicts| && calls[i].workspace == k.0
    && verdicts[i].Some? && verdicts[i].value.nodeId == k.1
  }

  /** Call `i` leaves `k`'s record in place: it is one streak so far. */
  ghost predicate Survives(calls: seq<Call>, tries: seq<map<Key, Tries>>, i: nat, k: Key)
  {
    i < |calls| && i < |tries| && k in tries[i] && (InFlight(calls[i].env) || Keeps(k, tries[i][k], calls[i]))
  }

  /** No call after `i` up to `j` drops `k`'s record. */
  ghost predicate OneStreak(calls: seq<Call>, tries: seq<map<Key, Tries>>, i: nat, j: nat, k: Key)
  {
    forall t: nat {:trigger Survives(calls, tries, t, k)} :: i < t <= j ==> Survives(calls, tries, t, k)
  }

  /** A surviving record that the call is not about is untouched. */
  lemma UntouchedUnlessPicked(calls: seq<Call>, tries: seq<map<Key, Tries>>, verdicts: seq<Option<Verdict>>, i: nat, k: Key)
    requires IsLife(calls, tries, verdicts) && i < |calls|
    requires !About(calls, verdicts, i, k)
    ensures Survives(calls, tries, i, k) ==> k in tries[i + 1] && tries[i + 1][k] == tries[i][k]
    ensures k in tries[i + 1] ==> k in tries[i] && tries[i + 1][k] == tries[i][k]
  {
    assert PicksAt(calls, tries, verdicts, i);
  }

  /** What a verdict does to the record it is about. */
  lemma PickedRecord(calls: seq<Call>, tries: seq<map<Key, Tries>>, verdicts: seq<Option<Verdict>>, i: nat, k: Key)
    requires IsLife(calls, tries, verdicts) && i < |calls| && About(calls, verdicts, i, k)
    ensures k in tries[i + 1]
    ensures var v, before, after := verdicts[i].value, tries[i], tries[i + 1][k];
      && (Survives(calls, tries, i, k) ==> !before[k].givenUp && before[k].count >= 1 && Due(before[k], calls[i].now))
      && (v.Restart? ==>
        && 1 <= v.attempt <= MAX_ATTEMPTS && after == Tries(v.attempt, calls[i].now, false)
        && v.attempt == if Survives(calls, tries, i, k) then before[k].count + 1 else 1)
      && (v.GiveUp? ==>
        Survives(calls, tries, i, k) && before[k].count == MAX_ATTEMPTS && after == before[k].(givenUp := true))
  {
    assert PicksAt(calls, tries, verdicts, i);
    assert k == calls[i].KeyOf(k.1);
  }

  /** Along a streak the count only grows, and while it stands at `count` the
      record is the one that restart left. */
  ghost predicate Follows(tries: seq<map<Key, Tries>>, t: nat, k: Key, count: nat, at: nat)
  {
    && t < |tries| && k in tries[t] && tries[t][k].count >= count
    && tries[t][k].last >= at
    && (tries[t][k].count == count ==> tries[t][k].last == at)
  }

  lemma {:induction false} RecordFollows(calls: seq<Call>, tries: seq<map<Key, Tries>>, verdicts: seq<Option<Verdict>>,
                                         i: nat, t: nat, k: Key)
    requires IsLife(calls, tries, verdicts) && About(calls, verdicts, i, k) && verdicts[i].value.Restart?
    requires i < t <= |calls| && OneStreak(calls, tries, i, t - 1, k)
    ensures Follows(tries, t, k, verdicts[i].value.attempt, calls[i].now)
    decreases t
  {
    PickedRecord(calls, tries, verdicts, i, k);
    if t > i + 1 {
      assert forall u: nat {:trigger Survives(calls, tries, u, k)} :: i < u <= t - 2 ==> Survives(calls, tries, u, k);
      RecordFollows(calls, tries, verdicts, i, t - 1, k);
      assert Survives(calls, tries, t - 1, k);
      if About(calls, verdicts, t - 1, k) {
        PickedRecord(calls, tries, verdicts, t - 1, k);
      } else {
        UntouchedUnlessPicked(calls, tries, verdicts, t - 1, k);
      }
    }
  }

  /** Within one streak attempts count up, at most `MAX_ATTEMPTS` of them, and
      the next one waits out the delay the last one earned. */
  lemma RestartsBackOff(calls: seq<Call>, tries: seq<map<Key, Tries>>, verdicts: seq<Option<Verdict>>, i: nat, j: nat, k: Key)
    requires IsLife(calls, tries, verdicts)
    requires i < j && About(calls, verdicts, i, k) && About(calls, verdicts, j, k)
    requires verdicts[i].value.Restart? && verdicts[j].value.Restart?
    requires OneStreak(calls, tries, i, j, k)
    ensures 1 <= verdicts[i].value.attempt < verdicts[j].value.attempt <= MAX_ATTEMPTS
    ensures verdicts[j].value.attempt == verdicts[i].value.attempt + 1 ==>
      calls[j].now - calls[i].now >= Delay(verdicts[i].value.attempt)
  {
    assert OneStreak(calls, tries, i, j - 1, k) by {
      assert forall u: nat {:trigger Survives(calls, tries, u, k)} :: i < u <= j - 1 ==> Survives(calls, tries, u, k);
    }
    RecordFollows(calls, tries, verdicts, i, j, k);
    assert Survives(calls, tries, j, k);
    PickedRecord(calls, tries, verdicts, i, k);
    PickedRecord(calls, tries, verdicts, j, k);
  }

  /** The delays: 5, 10, 20, 40, 80, 160 and then 300 seconds. */
  lemma DelaysDoubleUpToACap(count: nat)
    requires 1 <= count
    ensures Delay(count) == if count <= 6 then 5 * Power2(count - 1) * SECOND else MAX_DELAY
  {
    if count >= 7 {
      PowerGrows(6, Min(count - 1, 16));
    } else {
      PowerGrows(count - 1, 5);
      assert Power2(5) == 32 by { PowersSmall(); }
    }
  }

  lemma PowersSmall()
    ensures Power2(5) == 32 && Power2(6) == 64
  {
    assert Power2(3) == 8;
    assert Power2(4) == 16;
    assert Power2(5) == 32;
  }

  lemma {:induction false} PowerGrows(a: nat, b: nat)
    requires a <= b
    ensures 1 <= Power2(a) <= Power2(b)
    ensures a == 6 ==> Power2(a) == 64
    decreases b
  {
    PowersSmall();
    if a < b {
      PowerGrows(a, b - 1);
    } else if a > 0 {
      PowerGrows(a - 1, a - 1);
    }
  }

  /** A streak that is given up on stays given up. */
  lemma {:induction false} StaysGivenUp(calls: seq<Call>, tries: seq<map<Key, Tries>>, verdicts: seq<Option<Verdict>>,
                                        i: nat, t: nat, k: Key)
    requires IsLife(calls, tries, verdicts) && About(calls, verdicts, i, k) && verdicts[i].value.GiveUp?
    requires i < t <= |calls| && OneStreak(calls, tries, i, t - 1, k)
    ensures k in tries[t] && tries[t][k].givenUp && tries[t][k].count == MAX_ATTEMPTS
    decreases t
  {
    PickedRecord(calls, tries, verdicts, i, k);
    if t > i + 1 {
      assert forall u: nat {:trigger Survives(calls, tries, u, k)} :: i < u <= t - 2 ==> Survives(calls, tries, u, k);
      StaysGivenUp(calls, tries, verdicts, i, t - 1, k);
      assert Survives(calls, tries, t - 1, k);
      if About(calls, verdicts, t - 1, k) {
        PickedRecord(calls, tries, verdicts, t - 1, k);
      }
      UntouchedUnlessPicked(calls, tries, verdicts, t - 1, k);
    }
  }

  /** A node is given up on once, after its last attempt, and then left alone
      until its record is dropped. */
  lemma SilentOnceGivenUp(calls: seq<Call>, tries: seq<map<Key, Tries>>, verdicts: seq<Option<Verdict>>, i: nat, j: nat, k: Key)
    requires IsLife(calls, tries, verdicts) && About(calls, verdicts, i, k) && verdicts[i].value.GiveUp?
    requires i < j < |calls| && OneStreak(calls, tries, i, j, k)
    ensures i < |tries| && k in tries[i] && tries[i][k].count == MAX_ATTEMPTS
    ensures !About(calls, verdicts, j, k)
  {
    assert OneStreak(calls, tries, i, j - 1, k) by {
      assert forall u: nat {:trigger Survives(calls, tries, u, k)} :: i < u <= j - 1 ==> Survives(calls, tries, u, k);
    }
    PickedRecord(calls, tries, verdicts, i, k);
    StaysGivenUp(calls, tries, verdicts, i, j, k);
    assert Survives(calls, tries, j, k);
    if About(calls, verdicts, j, k) {
      PickedRecord(calls, tries, verdicts, j, k);
    }
  }

  /** Call `t` restarts `k`'s node. */
  ghost predicate RestartedAt(calls: seq<Call>, verdicts: seq<Option<Verdict>>, t: nat, k: Key)
  {
    About(calls, verdicts, t, k) && verdicts[t].value.Restart?
  }

  ghost predicate NotRestarted(calls: seq<Call>, verdicts: seq<Option<Verdict>>, i: nat, j: nat, k: Key)
  {
    forall t: nat {:trigger RestartedAt(calls, verdicts, t, k)} :: i < t < j ==> !RestartedAt(calls, verdicts, t, k)
  }

  /** Until the next restart the count stands. */
  lemma {:induction false} CountStands(calls: seq<Call>, tries: seq<map<Key, Tries>>, verdicts: seq<Option<Verdict>>,
                                       i: nat, t: nat, k: Key)
    requires IsLife(calls, tries, verdicts) && RestartedAt(calls, verdicts, i, k)
    requires i < t <= |calls| && OneStreak(calls, tries, i, t - 1, k) && NotRestarted(calls, verdicts, i, t, k)
    ensures k in tries[t] && tries[t][k].count == verdicts[i].value.attempt && tries[t][k].last == calls[i].now
    decreases t
  {
    PickedRecord(calls, tries, verdicts, i, k);
    if t > i + 1 {
      assert forall u: nat {:trigger Survives(calls, tries, u, k)} :: i < u <= t - 2 ==> Survives(calls, tries, u, k);
      CountStands(calls, tries, verdicts, i, t - 1, k);
      assert Survives(calls, tries, t - 1, k) && !RestartedAt(calls, verdicts, t - 1, k);
      if About(calls, verdicts, t - 1, k) {
        PickedRecord(calls, tries, verdicts, t - 1, k);
      } else {
        UntouchedUnlessPicked(calls, tries, verdicts, t - 1, k);
      }
    }
  }

  /** The restarts of a streak are numbered one by one, and each waits out the
      delay that the one before it earned. */
  lemma NextRestartWaits(calls: seq<Call>, tries: seq<map<Key, Tries>>, verdicts: seq<Option<Verdict>>, i: nat, j: nat, k: Key)
    requires IsLife(calls, tries, verdicts)
    requires i < j && RestartedAt(calls, verdicts, i, k) && RestartedAt(calls, verdicts, j, k)
    requires OneStreak(calls, tries, i, j, k) && NotRestarted(calls, verdicts, i, j, k)
    ensures verdicts[j].value.attempt == verdicts[i].value.attempt + 1 <= MAX_ATTEMPTS
    ensures verdicts[i].value.attempt >= 1 && calls[j].now - calls[i].now >= Delay(verdicts[i].value.attempt)
  {
    assert OneStreak(calls, tries, i, j - 1, k) by {
      assert forall u: nat {:trigger Survives(calls, tries, u, k)} :: i < u <= j - 1 ==> Survives(calls, tries, u, k);
    }
    CountStands(calls, tries, verdicts, i, j, k);
    assert Survives(calls, tries, j, k);
    PickedRecord(calls, tries, verdicts, i, k);
    PickedRecord(calls, tries, verdicts, j, k);
  }

  /** The call that last restarted a recorded node. */
  lemma {:induction false} LastRestart(calls: seq<Call>, tries: seq<map<Key, Tries>>, verdicts: seq<Option<Verdict>>, t: nat, k: Key)
    returns (s: nat)
    requires IsLife(calls, tries, verdicts) && t <= |calls| && k in tries[t]
    ensures s < t && About(calls, verdicts, s, k) && verdicts[s].value.Restart?
    ensures tries[t][k].last == calls[s].now
    decreases t
  {
    if t == 0 {
      assert false;
    } else if About(calls, verdicts, t - 1, k) {
      PickedRecord(calls, tries, verdicts, t - 1, k);
      if verdicts[t - 1].value.Restart? {
        s := t - 1;
      } else {
        s := LastRestart(calls, tries, verdicts, t - 1, k);
      }
    } else {
      UntouchedUnlessPicked(calls, tries, verdicts, t - 1, k);
      s := LastRestart(calls, tries, verdicts, t - 1, k);
    }
  }

  /** The call picks among nodes of its workspace; `n` is one it could pick. */
  ghost predicate Selectable(tries: map<Key, Tries>, call: Call, n: string)
  {
    && Sound(tries) && Sound(Retained(tries, call))
    && !InFlight(call.env) && Candidate(Retained(tries, call), call, n)
  }

  ghost predicate CouldPick(calls: seq<Call>, tries: seq<map<Key, Tries>>, j: nat, n: string)
  {
    j < |calls| && j < |tries| && Selectable(tries[j], calls[j], n)
  }

  lemma PickedBefore(calls: seq<Call>, tries: seq<map<Key, Tries>>, verdicts: seq<Option<Verdict>>, j: nat, m: string, n: string)
    requires IsLife(calls, tries, verdicts) && j < |calls|
    requires About(calls, verdicts, j, calls[j].KeyOf(m)) && CouldPick(calls, tries, j, n)
    ensures Before(Retained(tries[j], calls[j]), calls[j], m, n)
  {
    assert PicksAt(calls, tries, verdicts, j);
  }

  /** When the clock moves between calls: of two nodes that are both down and
      rested, none is picked twice in a streak without the other's turn between. */
  lemma EveryoneGetsATurn(calls: seq<Call>, tries: seq<map<Key, Tries>>, verdicts: seq<Option<Verdict>>,
                          i: nat, j: nat, m: Key, n: Key) returns (t: nat)
    requires IsLife(calls, tries, verdicts)
    requires forall a, b :: 0 <= a < b < |calls| ==> calls[a].now < calls[b].now
    requires i < j && About(calls, verdicts, i, m) && About(calls, verdicts, j, m)
    requires OneStreak(calls, tries, i, j, m)
    requires n != m && n.0 == m.0 && CouldPick(calls, tries, j, n.1)
    ensures i < t < j && About(calls, verdicts, t, n) && verdicts[t].value.Restart?
  {
    if verdicts[i].value.GiveUp? {
      SilentOnceGivenUp(calls, tries, verdicts, i, j, m);
      assert false;
    } else {
      assert OneStreak(calls, tries, i, j - 1, m) by {
        assert forall u: nat {:trigger Survives(calls, tries, u, m)} :: i < u <= j - 1 ==> Survives(calls, tries, u, m);
      }
      RecordFollows(calls, tries, verdicts, i, j, m);
      assert Survives(calls, tries, j, m);
      assert m == calls[j].KeyOf(m.1) && n == calls[j].KeyOf(n.1);
      PickedBefore(calls, tries, verdicts, j, m.1, n.1);
      t := LastRestart(calls, tries, verdicts, j, n);
    }
  }

  /** A restart stays the oldest its node's record can name. */
  lemma {:induction false} RecordsAreLater(calls: seq<Call>, tries: seq<map<Key, Tries>>, verdicts: seq<Option<Verdict>>,
                                           i: nat, t: nat, k: Key)
    requires IsLife(calls, tries, verdicts) && RestartedAt(calls, verdicts, i, k) && i < t <= |calls| && k in tries[t]
    ensures tries[t][k].last >= calls[i].now
    decreases t
  {
    if About(calls, verdicts, t - 1, k) {
      PickedRecord(calls, tries, verdicts, t - 1, k);
      if t > i + 1 && verdicts[t - 1].value.GiveUp? {
        RecordsAreLater(calls, tries, verdicts, i, t - 1, k);
      }
    } else {
      UntouchedUnlessPicked(calls, tries, verdicts, t - 1, k);
      RecordsAreLater(calls, tries, verdicts, i, t - 1, k);
    }
  }

  /** A node with a record is never chosen over one whose record is gone. */
  lemma RecordlessGoFirst(calls: seq<Call>, tries: seq<map<Key, Tries>>, verdicts: seq<Option<Verdict>>, j: nat, m: Key, n: Key)
    requires IsLife(calls, tries, verdicts) && j < |calls| && calls[j].workspace == m.0 == n.0
    requires CouldPick(calls, tries, j, n.1)
    requires m in Retained(tries[j], calls[j]) && n !in Retained(tries[j], calls[j])
    ensures !About(calls, verdicts, j, m)
  {
    assert m == calls[j].KeyOf(m.1) && n == calls[j].KeyOf(n.1);
    if About(calls, verdicts, j, m) {
      PickedBefore(calls, tries, verdicts, j, m.1, n.1);
    }
  }

  /** `m` was restarted, `n` not since, and both could be picked now, of which one
      is: `n` is passed over exactly if `m`'s record is gone. */
  lemma PassedOverExactly(calls: seq<Call>, tries: seq<map<Key, Tries>>, verdicts: seq<Option<Verdict>>, i: nat, j: nat, m: Key, n: Key)
    requires IsLife(calls, tries, verdicts)
    requires forall a, b :: 0 <= a < b < |calls| ==> calls[a].now < calls[b].now
    requires i < j < |calls| && RestartedAt(calls, verdicts, i, m) && NotRestarted(calls, verdicts, i, j, n)
    requires m != n && calls[j].workspace == m.0 == n.0
    requires CouldPick(calls, tries, j, m.1) && CouldPick(calls, tries, j, n.1) && n in Retained(tries[j], calls[j])
    requires About(calls, verdicts, j, m) || About(calls, verdicts, j, n)
    ensures About(calls, verdicts, j, m) <==> m !in Retained(tries[j], calls[j])
  {
    assert m == calls[j].KeyOf(m.1) && n == calls[j].KeyOf(n.1);
    if m !in Retained(tries[j], calls[j]) {
      RecordlessGoFirst(calls, tries, verdicts, j, n, m);
    } else {
      RecordsAreLater(calls, tries, verdicts, i, j, m);
      var s := LastRestart(calls, tries, verdicts, j, n);
      assert RestartedAt(calls, verdicts, s, n);
      assert s < i;
      if About(calls, verdicts, j, m) {
        PickedBefore(calls, tries, verdicts, j, m.1, n.1);
      }
    }
  }

  // ----- across streaks a node can be passed over -----

  lemma Extend(calls: seq<Call>, tries: seq<map<Key, Tries>>, verdicts: seq<Option<Verdict>>,
               call: Call, after: map<Key, Tries>, verdict: Option<Verdict>)
    returns (calls': seq<Call>, tries': seq<map<Key, Tries>>, verdicts': seq<Option<Verdict>>)
    requires IsLife(calls, tries, verdicts)
    requires Sound(tries[|calls|]) && Picks(tries[|calls|], call, after, verdict)
    requires forall i :: 0 <= i < |calls| ==> calls[i].now <= call.now
    ensures calls' == calls + [call] && tries' == tries + [after] && verdicts' == verdicts + [verdict]
    ensures IsLife(calls', tries', verdicts')
  {
    calls', tries', verdicts' := calls + [call], tries + [after], verdicts + [verdict];
    forall i: nat {:trigger PicksAt(calls', tries', verdicts', i)} | i < |calls'| ensures PicksAt(calls', tries', verdicts', i) {
      if i < |calls| {
        assert PicksAt(calls, tries, verdicts, i);
      }
    }
  }

  function Service(id: string, status: string): ContainerInfo
  {
    ContainerInfo(id, ContainerDesired(true, id, "", false, false, ""), UNOBSERVED.(status := status), None)
  }

  function CallAt(seconds: nat, a: string, b: string, c: string): Call
  {
    Call("ws", DEFAULT_ENV.(containers := map["a" := Service("a", a), "b" := Service("b", b), "c" := Service("c", c)]),
      seconds * SECOND)
  }

  const A: Key := ("ws", "a")
  const B: Key := ("ws", "b")
  const C: Key := ("ws", "c")

  const CALL0 := CallAt(0, "running", "exited", "running")
  const CALL1 := CallAt(10, "exited", "exited", "running")
  const CALL2 := CallAt(70, "running", "exited", "exited")
  const CALL3 := CallAt(71, "exited", "exited", "running")

  const T1: map<Key, Tries> := map[B := Tries(1, 0, false)]
  const T2: map<Key, Tries> := map[B := Tries(1, 0, false), A := Tries(1, 10 * SECOND, false)]
  const T3: map<Key, Tries> := map[B := Tries(1, 0, false), C := Tries(1, 70 * SECOND, false)]
  const T4: map<Key, Tries> := map[B := Tries(1, 0, false), C := Tries(1, 70 * SECOND, false), A := Tries(1, 71 * SECOND, false)]

  lemma Quiet(call: Call)
    requires call == CALL0 || call == CALL1 || call == CALL2 || call == CALL3
    ensures !InFlight(call.env)
  {
  }

  lemma OnlyB()
    ensures Picks(map[], CALL0, T1, Some(Restart("b", Crashed, 1)))
  {
    var kept := Retained(map[], CALL0);
    assert kept == map[];
    LeTotal("b", "b");
    assert Chosen(kept, CALL0, "b");
  }

  lemma FirstA()
    ensures Picks(T1, CALL1, T2, Some(Restart("a", Crashed, 1)))
    ensures Selectable(T1, CALL1, "b")
  {
    Quiet(CALL1);
    assert Retained(T1, CALL1) == T1;
    LeTotal("a", "a");
    DelaysDoubleUpToACap(1);
    assert Chosen(T1, CALL1, "a");
  }

  /** "a" has been up for a minute: its record goes, and "b" keeps its own. */
  lemma DropsA()
    ensures Retained(T2, CALL2) == T1
  {
    assert Since(CALL2.now, T2[A].last) == STABLE;
  }

  lemma ChoosesC()
    ensures Sound(T1) && Chosen(T1, CALL2, "c") && Candidate(T1, CALL2, "b")
  {
    LeTotal("c", "c");
    DelaysDoubleUpToACap(1);
  }

  lemma ThenC()
    ensures Picks(T2, CALL2, T3, Some(Restart("c", Crashed, 1)))
    ensures Selectable(T2, CALL2, "b")
  {
    Quiet(CALL2);
    DropsA();
    ChoosesC();
    assert T3 == T1[C := Restarted(T1, CALL2, "c")];
  }

  lemma KeepsAll()
    ensures Retained(T3, CALL3) == T3
  {
  }

  lemma ChoosesA()
    ensures Sound(T3) && Chosen(T3, CALL3, "a") && Candidate(T3, CALL3, "b")
  {
    LeTotal("a", "a");
    DelaysDoubleUpToACap(1);
  }

  lemma AgainA()
    ensures Picks(T3, CALL3, T4, Some(Restart("a", Crashed, 1)))
    ensures Selectable(T3, CALL3, "b")
  {
    Quiet(CALL3);
    KeepsAll();
    ChoosesA();
    assert T4 == T3[A := Restarted(T3, CALL3, "a")];
  }

  lemma FirstCalls() returns (calls: seq<Call>, tries: seq<map<Key, Tries>>, verdicts: seq<Option<Verdict>>)
    ensures IsLife(calls, tries, verdicts)
    ensures calls == [CALL0, CALL1] && tries == [map[], T1, T2]
    ensures verdicts == [Some(Restart("b", Crashed, 1)), Some(Restart("a", Crashed, 1))]
  {
    OnlyB();
    FirstA();
    calls, tries, verdicts := [], [map[]], [];
    calls, tries, verdicts := Extend(calls, tries, verdicts, CALL0, T1, Some(Restart("b", Crashed, 1)));
    calls, tries, verdicts := Extend(calls, tries, verdicts, CALL1, T2, Some(Restart("a", Crashed, 1)));
  }

  lemma ThirdCall() returns (calls: seq<Call>, tries: seq<map<Key, Tries>>, verdicts: seq<Option<Verdict>>)
    ensures IsLife(calls, tries, verdicts)
    ensures calls == [CALL0, CALL1, CALL2] && tries == [map[], T1, T2, T3]
    ensures verdicts == [Some(Restart("b", Crashed, 1)), Some(Restart("a", Crashed, 1)), Some(Restart("c", Crashed, 1))]
  {
    ThenC();
    calls, tries, verdicts := FirstCalls();
    calls, tries, verdicts := Extend(calls, tries, verdicts, CALL2, T3, Some(Restart("c", Crashed, 1)));
  }

  lemma AllCalls() returns (calls: seq<Call>, tries: seq<map<Key, Tries>>, verdicts: seq<Option<Verdict>>)
    ensures IsLife(calls, tries, verdicts)
    ensures calls == [CALL0, CALL1, CALL2, CALL3] && tries == [map[], T1, T2, T3, T4]
    ensures verdicts == [Some(Restart("b", Crashed, 1)), Some(Restart("a", Crashed, 1)), Some(Restart("c", Crashed, 1)), Some(Restart("a", Crashed, 1))]
  {
    AgainA();
    calls, tries, verdicts := ThirdCall();
    calls, tries, verdicts := Extend(calls, tries, verdicts, CALL3, T4, Some(Restart("a", Crashed, 1)));
  }

  /** "b" is down and rested from the second call on, yet "a", which comes up for
      a minute in between and loses its record, is picked twice before it. */
  lemma PassedOverAcrossStreaks() returns (calls: seq<Call>, tries: seq<map<Key, Tries>>, verdicts: seq<Option<Verdict>>)
    ensures IsLife(calls, tries, verdicts) && |calls| == 4
    ensures calls[0].now < calls[1].now < calls[2].now < calls[3].now
    ensures About(calls, verdicts, 1, A) && About(calls, verdicts, 3, A)
    ensures CouldPick(calls, tries, 1, "b") && CouldPick(calls, tries, 2, "b") && CouldPick(calls, tries, 3, "b")
    ensures !About(calls, verdicts, 1, B) && !About(calls, verdicts, 2, B) && !About(calls, verdicts, 3, B)
  {
    calls, tries, verdicts := AllCalls();
    FirstA();
    ThenC();
    AgainA();
  }
}
