/** `tar_build_context` of `src/docker/image.rs`: the build context as sent. */
module ContextWalk {
  import opened State
  import opened Dockerignore
  import opened Ordering

  /** A finite directory tree with links followed; `Broken` is a link to nothing. */
  datatype Node = File | Broken | Dir(entries: seq<Entry>)

  datatype Entry = Entry(name: string, node: Node)

  function Join(dir: string, name: string): string
  {
    if dir == "" then name else dir + "/" + name
  }

  /** Every path under `dir`, in listing order. */
  function AllPaths(dir: string, entries: seq<Entry>): seq<string>
    decreases entries
  {
    if entries == [] then [] else EntryPaths(dir, entries[0]) + AllPaths(dir, entries[1..])
  }

  function EntryPaths(dir: string, e: Entry): seq<string>
    decreases e
  {
    var rel := Join(dir, e.name);
    match e.node
    case Broken => []
    case File => [rel]
    case Dir(sub) => [rel] + AllPaths(rel, sub)
  }

  /** What decides about a path: the patterns and the two files always sent. */
  datatype Filter = Filter(patterns: seq<Pattern>, always: seq<string>)
  {
    ghost predicate Sends(rel: string)
    {
      rel in always || !Excluded(patterns, rel)
    }
  }

  ghost function SentOnly(f: Filter, paths: seq<string>): seq<string>
  {
    if paths == [] then []
    else (if f.Sends(paths[0]) then [paths[0]] else []) + SentOnly(f, paths[1..])
  }

  /** What the walk appends under `dir`. */
  ghost function Walked(f: Filter, dir: string, entries: seq<Entry>): seq<string>
    decreases entries
  {
    if entries == [] then [] else EntryWalked(f, dir, entries[0]) + Walked(f, dir, entries[1..])
  }

  ghost function EntryWalked(f: Filter, dir: string, e: Entry): seq<string>
    decreases e
  {
    var rel := Join(dir, e.name);
    match e.node
    case Broken => []
    case File => if f.Sends(rel) then [rel] else []
    case Dir(sub) =>
      if f.Sends(rel) then [rel] + Walked(f, rel, sub)
      else if HasExclusions(f.patterns) then Walked(f, rel, sub)
      else []
  }

  /** The paths beneath a directory left out: where the walk never comes without
      a `!` pattern. */
  ghost function BeneathUnsent(f: Filter, dir: string, entries: seq<Entry>): seq<string>
    decreases entries
  {
    if entries == [] then [] else EntryBeneathUnsent(f, dir, entries[0]) + BeneathUnsent(f, dir, entries[1..])
  }

  ghost function EntryBeneathUnsent(f: Filter, dir: string, e: Entry): seq<string>
    decreases e
  {
    var rel := Join(dir, e.name);
    if !e.node.Dir? then []
    else if f.Sends(rel) then BeneathUnsent(f, rel, e.node.entries)
    else AllPaths(rel, e.node.entries)
  }

  // ----- the walk -----

  function Size(entries: seq<Entry>): nat
    decreases entries
  {
    if entries == [] then 0 else EntrySize(entries[0]) + Size(entries[1..])
  }

  function EntrySize(e: Entry): nat
    decreases e
  {
    if e.node.Dir? then 1 + Size(e.node.entries) else 1
  }

  function StackSize(stack: seq<(string, seq<Entry>)>): nat
  {
    if stack == [] then 0 else 1 + Size(stack[|stack| - 1].1) + StackSize(stack[..|stack| - 1])
  }

  ghost function StackWalked(f: Filter, stack: seq<(string, seq<Entry>)>): multiset<string>
  {
    if stack == [] then multiset{} else
      var top := stack[|stack| - 1];
      multiset(Walked(f, top.0, top.1)) + StackWalked(f, stack[..|stack| - 1])
  }

  /** One entry: appended if it is sent, pushed if it is still to be walked. */
  method WalkEntry(f: Filter, dir: string, e: Entry, below: seq<(string, seq<Entry>)>)
    returns (appended: seq<string>, stack: seq<(string, seq<Entry>)>)
    ensures multiset(appended) + StackWalked(f, stack) == multiset(EntryWalked(f, dir, e)) + StackWalked(f, below)
    ensures StackSize(stack) <= StackSize(below) + EntrySize(e)
  {
    appended, stack := [], below;
    var rel := Join(dir, e.name);
    if e.node.Broken? {
      return;
    }
    var excluded := Excludes(f.patterns, rel);
    var walk := e.node.Dir?;
    if rel !in f.always && excluded {
      walk := walk && HasExclusions(f.patterns);
    } else {
      appended := [rel];
    }
    if walk {
      stack := below + [(rel, e.node.entries)];
      assert stack[..|stack| - 1] == below;
    }
  }

  lemma Rebalance(appended: multiset<string>, stack: multiset<string>, own: multiset<string>, rest: multiset<string>,
                  more: multiset<string>, next: multiset<string>)
    requires more + next == own + stack
    ensures appended + more + next + rest == appended + stack + (own + rest)
  {
    assert appended + more + next == appended + (more + next);
    assert appended + (own + stack) + rest == appended + stack + (own + rest);
  }

  lemma WalkedStep(f: Filter, dir: string, entries: seq<Entry>, i: nat)
    requires i < |entries|
    ensures multiset(Walked(f, dir, entries[i..]))
      == multiset(EntryWalked(f, dir, entries[i])) + multiset(Walked(f, dir, entries[i + 1..]))
    ensures Size(entries[i..]) == EntrySize(entries[i]) + Size(entries[i + 1..])
  {
    assert entries[i..] == [entries[i]] + entries[i + 1..];
  }

  /** One directory, entry by entry. */
  method WalkDirectory(f: Filter, dir: string, entries: seq<Entry>, below: seq<(string, seq<Entry>)>)
    returns (appended: seq<string>, stack: seq<(string, seq<Entry>)>)
    ensures multiset(appended) + StackWalked(f, stack) == multiset(Walked(f, dir, entries)) + StackWalked(f, below)
    ensures StackSize(stack) <= Size(entries) + StackSize(below)
  {
    appended, stack := [], below;
    ghost var rest := multiset(Walked(f, dir, entries));
    ghost var goal := rest + StackWalked(f, below);
    ghost var size := Size(entries);
    assert entries[0..] == entries;
    for i := 0 to |entries|
      invariant rest == multiset(Walked(f, dir, entries[i..])) && size == Size(entries[i..])
      invariant multiset(appended) + StackWalked(f, stack) + rest == goal
      invariant StackSize(stack) + size <= Size(entries) + StackSize(below)
    {
      var more, next := WalkEntry(f, dir, entries[i], stack);
      WalkedStep(f, dir, entries, i);
      Rebalance(multiset(appended), StackWalked(f, stack), multiset(EntryWalked(f, dir, entries[i])),
        multiset(Walked(f, dir, entries[i + 1..])), multiset(more), StackWalked(f, next));
      rest, size := multiset(Walked(f, dir, entries[i + 1..])), Size(entries[i + 1..]);
      appended, stack := appended + more, next;
    }
    assert entries[|entries|..] == [] && Walked(f, dir, []) == [];
    assert rest == multiset{};
    assert multiset(appended) + StackWalked(f, stack) == multiset(appended) + StackWalked(f, stack) + rest;
  }

  /** `append_filtered`: everything `Walked` names, each as often, in some order. */
  method AppendFiltered(f: Filter, root: seq<Entry>) returns (appended: seq<string>)
    ensures multiset(appended) == multiset(Walked(f, "", root))
  {
    appended := [];
    var stack: seq<(string, seq<Entry>)> := [("", root)];
    assert stack[..0] == [];
    while stack != []
      invariant multiset(appended) + StackWalked(f, stack) == multiset(Walked(f, "", root))
      decreases StackSize(stack)
    {
      var (dir, entries) := stack[|stack| - 1];
      var more, next := WalkDirectory(f, dir, entries, stack[..|stack| - 1]);
      appended, stack := appended + more, next;
    }
  }

  // ----- what is sent -----

  /** Names in a file system: not empty, no `/`, each once in its directory. */
  ghost predicate Named(entries: seq<Entry>)
    decreases entries
  {
    entries == [] ||
    (&& entries[0].name != "" && '/' !in entries[0].name
     && (forall i :: 0 < i < |entries| ==> entries[i].name != entries[0].name)
     && (entries[0].node.Dir? ==> Named(entries[0].node.entries))
     && Named(entries[1..]))
  }

  lemma {:induction false} SentOnlyConcat(f: Filter, a: seq<string>, b: seq<string>)
    ensures SentOnly(f, a + b) == SentOnly(f, a) + SentOnly(f, b)
  {
    if a == [] {
      assert a + b == b;
    } else {
      assert (a + b)[1..] == a[1..] + b;
      SentOnlyConcat(f, a[1..], b);
    }
  }

  lemma {:induction false} SentOnlyExactly(f: Filter, paths: seq<string>, x: string)
    ensures x in SentOnly(f, paths) <==> x in paths && f.Sends(x)
  {
    if paths != [] {
      SentOnlyExactly(f, paths[1..], x);
      assert paths == [paths[0]] + paths[1..];
    }
  }

  /** With a `!` pattern the walk comes to everything. */
  lemma {:induction false} FullWalk(f: Filter, dir: string, entries: seq<Entry>)
    requires HasExclusions(f.patterns)
    ensures Walked(f, dir, entries) == SentOnly(f, AllPaths(dir, entries))
    decreases entries
  {
    if entries != [] {
      FullWalkEntry(f, dir, entries[0]);
      FullWalk(f, dir, entries[1..]);
      SentOnlyConcat(f, EntryPaths(dir, entries[0]), AllPaths(dir, entries[1..]));
    }
  }

  lemma {:induction false} FullWalkEntry(f: Filter, dir: string, e: Entry)
    requires HasExclusions(f.patterns)
    ensures EntryWalked(f, dir, e) == SentOnly(f, EntryPaths(dir, e))
    decreases e
  {
    var rel := Join(dir, e.name);
    if e.node.Dir? {
      FullWalk(f, rel, e.node.entries);
      SentOnlyConcat(f, [rel], AllPaths(rel, e.node.entries));
    }
  }

  /** The walk sends everything meant to be sent except what it never comes to. */
  lemma {:induction false} PrunedWalk(f: Filter, dir: string, entries: seq<Entry>)
    requires !HasExclusions(f.patterns)
    ensures multiset(SentOnly(f, AllPaths(dir, entries)))
      == multiset(Walked(f, dir, entries)) + multiset(SentOnly(f, BeneathUnsent(f, dir, entries)))
    decreases entries
  {
    if entries != [] {
      PrunedWalkEntry(f, dir, entries[0]);
      PrunedWalk(f, dir, entries[1..]);
      SentOnlyConcat(f, EntryPaths(dir, entries[0]), AllPaths(dir, entries[1..]));
      SentOnlyConcat(f, EntryBeneathUnsent(f, dir, entries[0]), BeneathUnsent(f, dir, entries[1..]));
    }
  }

  lemma {:induction false} PrunedWalkEntry(f: Filter, dir: string, e: Entry)
    requires !HasExclusions(f.patterns)
    ensures multiset(SentOnly(f, EntryPaths(dir, e)))
      == multiset(EntryWalked(f, dir, e)) + multiset(SentOnly(f, EntryBeneathUnsent(f, dir, e)))
    decreases e
  {
    var rel := Join(dir, e.name);
    if e.node.Dir? {
      SentOnlyConcat(f, [rel], AllPaths(rel, e.node.entries));
      if f.Sends(rel) {
        PrunedWalk(f, rel, e.node.entries);
      }
    }
  }

  ghost predicate Beneath(x: string, dir: string)
  {
    exists rest :: x == dir + "/" + rest
  }

  lemma {:induction false} PathsBeneath(dir: string, entries: seq<Entry>, x: string)
    requires dir != "" && Named(entries) && x in AllPaths(dir, entries)
    ensures Beneath(x, dir)
    decreases entries
  {
    if x in AllPaths(dir, entries[1..]) {
      PathsBeneath(dir, entries[1..], x);
    } else {
      var tail := EntryPathTail(dir, entries[0], x);
      assert x == dir + "/" + (entries[0].name + tail);
    }
  }

  /** A path an entry lists is the entry's own, or goes on after a `/`. */
  lemma {:induction false} EntryPathTail(dir: string, e: Entry, x: string) returns (tail: string)
    requires e.name != "" && (e.node.Dir? ==> Named(e.node.entries)) && x in EntryPaths(dir, e)
    ensures x == Join(dir, e.name) + tail && (tail == "" || tail[0] == '/')
    decreases e
  {
    var rel := Join(dir, e.name);
    if x == rel {
      tail := "";
    } else {
      PathsBeneath(rel, e.node.entries, x);
      var rest :| x == rel + "/" + rest;
      tail := "/" + rest;
    }
  }

  /** Without a `!` pattern, what lies beneath an unsent directory is excluded. */
  lemma {:induction false} BeneathUnsentExcluded(f: Filter, dir: string, entries: seq<Entry>, x: string)
    requires !HasExclusions(f.patterns) && Named(entries) && x in BeneathUnsent(f, dir, entries)
    ensures Excluded(f.patterns, x)
    decreases entries
  {
    var rel, node := Join(dir, entries[0].name), entries[0].node;
    if x in BeneathUnsent(f, dir, entries[1..]) {
      BeneathUnsentExcluded(f, dir, entries[1..], x);
    } else if f.Sends(rel) {
      BeneathUnsentExcluded(f, rel, node.entries, x);
    } else {
      PathsBeneath(rel, node.entries, x);
      var rest :| x == rel + "/" + rest;
      ExcludedBelow(f.patterns, rel, rest);
    }
  }

  /** A directory on the way to `x`, past its first `from` characters, is not sent. */
  ghost predicate UnsentAbove(f: Filter, from: nat, x: string)
  {
    exists i :: from <= i < |x| && x[i] == '/' && !f.Sends(x[..i])
  }

  /** The walk never comes to exactly the paths with such a directory above them. */
  lemma {:induction false} BeneathUnsentExactly(f: Filter, dir: string, entries: seq<Entry>, x: string)
    requires Named(entries)
    ensures x in BeneathUnsent(f, dir, entries) <==> x in AllPaths(dir, entries) && UnsentAbove(f, |Prefix(dir)|, x)
    decreases entries
  {
    if entries != [] {
      EntryBeneathUnsentExactly(f, dir, entries[0], x);
      BeneathUnsentExactly(f, dir, entries[1..], x);
    }
  }

  lemma {:induction false} EntryBeneathUnsentExactly(f: Filter, dir: string, e: Entry, x: string)
    requires e.name != "" && '/' !in e.name && (e.node.Dir? ==> Named(e.node.entries))
    ensures x in EntryBeneathUnsent(f, dir, e) <==> x in EntryPaths(dir, e) && UnsentAbove(f, |Prefix(dir)|, x)
    decreases e
  {
    var rel := Join(dir, e.name);
    assert rel == Prefix(dir) + e.name;
    assert forall i | |Prefix(dir)| <= i < |rel| :: rel[i] == e.name[i - |Prefix(dir)|];
    if e.node.Dir? {
      var sub := e.node.entries;
      BeneathUnsentExactly(f, rel, sub, x);
      if x in AllPaths(rel, sub) {
        PathsBeneath(rel, sub, x);
        var rest :| x == rel + "/" + rest;
        assert x[|rel|] == '/' && x[..|rel|] == rel && |Prefix(rel)| == |rel| + 1;
        assert forall i | |Prefix(dir)| <= i < |rel| :: x[i] == rel[i] && x[i] != '/';
        assert UnsentAbove(f, |Prefix(dir)|, x) <==> !f.Sends(rel) || UnsentAbove(f, |Prefix(rel)|, x);
      }
    }
  }

  /** The walk sends exactly the paths that are not excluded or always sent, if
      and only if a `!` pattern makes it look everywhere or every directory above
      the always-sent files is sent. */
  lemma WalkSendsExactly(f: Filter, root: seq<Entry>)
    requires Named(root)
    ensures multiset(Walked(f, "", root)) == multiset(SentOnly(f, AllPaths("", root))) <==>
      (HasExclusions(f.patterns) || forall x | x in f.always && x in AllPaths("", root) :: !UnsentAbove(f, 0, x))
  {
    forall x ensures x in BeneathUnsent(f, "", root) <==> x in AllPaths("", root) && UnsentAbove(f, 0, x) {
      BeneathUnsentExactly(f, "", root, x);
    }
    if HasExclusions(f.patterns) {
      FullWalk(f, "", root);
    } else {
      PrunedWalk(f, "", root);
      var beneath := BeneathUnsent(f, "", root);
      var lost := SentOnly(f, beneath);
      forall x ensures x in lost <==> x in f.always && x in beneath {
        SentOnlyExactly(f, beneath, x);
        if x in beneath {
          BeneathUnsentExcluded(f, "", root, x);
        }
      }
      LostNothing(multiset(Walked(f, "", root)), lost);
    }
  }

  lemma LostNothing(walked: multiset<string>, lost: seq<string>)
    ensures walked == walked + multiset(lost) <==> forall x :: x !in lost
  {
    if walked == walked + multiset(lost) {
      assert |walked| == |walked| + |multiset(lost)|;
    }
    if forall x :: x !in lost {
      assert lost == [] by {
        if lost != [] {
          NonEmpty(lost);
        }
      }
    }
  }

  // ----- each path once -----

  function Prefix(dir: string): string
  {
    if dir == "" then "" else dir + "/"
  }

  /** `x` is `base` followed by `name`, and then nothing or a `/`. */
  ghost predicate Through(x: string, base: string, name: string)
  {
    exists tail :: x == base + (name + tail) && (tail == "" || tail[0] == '/')
  }

  lemma OneNameThrough(x: string, base: string, a: string, b: string)
    requires '/' !in a && '/' !in b && Through(x, base, a) && Through(x, base, b)
    ensures a == b
  {
    var s :| x == base + (a + s) && (s == "" || s[0] == '/');
    var t :| x == base + (b + t) && (t == "" || t[0] == '/');
    var y := x[|base|..];
    assert y == a + s && y == b + t;
    assert |a| < |y| ==> y[|a|] == '/';
    assert |b| < |y| ==> y[|b|] == '/';
    assert forall i :: 0 <= i < |a| ==> y[i] == a[i];
    assert forall i :: 0 <= i < |b| ==> y[i] == b[i];
    assert |a| == |b|;
  }

  lemma EntryGoesThrough(dir: string, e: Entry, x: string)
    requires e.name != "" && (e.node.Dir? ==> Named(e.node.entries)) && x in EntryPaths(dir, e)
    ensures Through(x, Prefix(dir), e.name)
  {
    var tail := EntryPathTail(dir, e, x);
    assert x == Prefix(dir) + (e.name + tail);
  }

  lemma {:induction false} PathGoesThrough(dir: string, entries: seq<Entry>, x: string) returns (i: nat)
    requires Named(entries) && x in AllPaths(dir, entries)
    ensures i < |entries| && Through(x, Prefix(dir), entries[i].name) && '/' !in entries[i].name
    decreases entries
  {
    if x in AllPaths(dir, entries[1..]) {
      i := PathGoesThrough(dir, entries[1..], x);
      i := i + 1;
    } else {
      i := 0;
      EntryGoesThrough(dir, entries[0], x);
    }
  }

  /** The tree lists each of its paths once, so each is sent at most once. */
  lemma {:induction false} PathsAreDistinct(dir: string, entries: seq<Entry>)
    requires Named(entries)
    ensures NoDup(AllPaths(dir, entries))
    decreases entries
  {
    if entries != [] {
      var own, rest := EntryPaths(dir, entries[0]), AllPaths(dir, entries[1..]);
      EntryPathsAreDistinct(dir, entries[0]);
      PathsAreDistinct(dir, entries[1..]);
      forall x | x in own && x in rest ensures false {
        EntryGoesThrough(dir, entries[0], x);
        var i := PathGoesThrough(dir, entries[1..], x);
        OneNameThrough(x, Prefix(dir), entries[0].name, entries[1..][i].name);
      }
      NoDupConcat(own, rest);
    }
  }

  lemma {:induction false} EntryPathsAreDistinct(dir: string, e: Entry)
    requires e.name != "" && (e.node.Dir? ==> Named(e.node.entries))
    ensures NoDup(EntryPaths(dir, e))
    decreases e
  {
    if e.node.Dir? {
      var rel := Join(dir, e.name);
      PathsAreDistinct(rel, e.node.entries);
      forall x | x in AllPaths(rel, e.node.entries) ensures x != rel {
        PathsBeneath(rel, e.node.entries, x);
        var rest :| x == rel + "/" + rest;
        assert |x| > |rel|;
      }
      NoDupConcat([rel], AllPaths(rel, e.node.entries));
    }
  }

  // ----- the whole context -----

  function TrimDotSlash(s: string): string
  {
    if |s| >= 2 && s[..2] == "./" then TrimDotSlash(s[2..]) else s
  }

  /** The patterns in force: the file's, and `.git` last when it is to be skipped. */
  function PatternsFor(text: Option<string>, skipGitDir: bool): seq<Pattern>
  {
    var content := if text.Some? then text.value else "";
    if skipGitDir then Parse(content + "\n.git\n") else if text.Some? then Parse(content) else []
  }

  function FilterFor(text: Option<string>, skipGitDir: bool, dockerfile: string): Filter
  {
    Filter(PatternsFor(text, skipGitDir), [TrimDotSlash(dockerfile), ".dockerignore"])
  }

  /** The paths put in the tar: all of them when there is no pattern. */
  method TarBuildContext(text: Option<string>, skipGitDir: bool, dockerfile: string, root: seq<Entry>)
    returns (appended: seq<string>)
    ensures var f := FilterFor(text, skipGitDir, dockerfile);
      multiset(appended) == if f.patterns == [] then multiset(AllPaths("", root)) else multiset(Walked(f, "", root))
  {
    var f := FilterFor(text, skipGitDir, dockerfile);
    if f.patterns == [] {
      appended := AllPaths("", root);
    } else {
      appended := AppendFiltered(f, root);
    }
  }

  lemma {:induction false} WalkedIsSent(f: Filter, dir: string, entries: seq<Entry>, x: string)
    requires x in Walked(f, dir, entries)
    ensures f.Sends(x)
    decreases entries
  {
    if x in Walked(f, dir, entries[1..]) {
      WalkedIsSent(f, dir, entries[1..], x);
    } else {
      EntryWalkedIsSent(f, dir, entries[0], x);
    }
  }

  lemma {:induction false} EntryWalkedIsSent(f: Filter, dir: string, e: Entry, x: string)
    requires x in EntryWalked(f, dir, e)
    ensures f.Sends(x)
    decreases e
  {
    var rel := Join(dir, e.name);
    if e.node.Dir? && x in Walked(f, rel, e.node.entries) {
      WalkedIsSent(f, rel, e.node.entries, x);
    }
  }

  /** With `.git` skipped, nothing at or under it is sent, whatever the ignore
      file says, unless the Dockerfile itself is there. */
  lemma GitIsNeverSent(text: Option<string>, dockerfile: string, root: seq<Entry>, x: string)
    requires x == GIT || Beneath(x, GIT)
    requires x != TrimDotSlash(dockerfile)
    ensures var f := FilterFor(text, true, dockerfile);
      f.patterns != [] && x !in Walked(f, "", root)
  {
    var f := FilterFor(text, true, dockerfile);
    var content := if text.Some? then text.value else "";
    GitComesLast(content);
    if x == GIT {
      GitIsExcluded(content, "");
    } else {
      var rest :| x == GIT + "/" + rest;
      GitIsExcluded(content, rest);
    }
    assert x != ".dockerignore" by {
      assert x == GIT || x[4] == '/';
    }
    assert !f.Sends(x);
    if x in Walked(f, "", root) {
      WalkedIsSent(f, "", root, x);
    }
  }

  /** A Dockerfile under an excluded directory should always be sent; without a
      `!` pattern the walk never comes to it. */
  lemma DockerfileUnderExcludedIsLost(p: Pattern, d: string)
    requires !p.exclusion && Hits(p, d) && d != "" && '/' !in d && d != ".dockerignore"
    ensures
      var f := Filter([p], [d + "/Dockerfile", ".dockerignore"]);
      var root := [Entry(d, Dir([Entry("Dockerfile", File)]))];
      && Named(root) && d + "/Dockerfile" in AllPaths("", root) && f.Sends(d + "/Dockerfile")
      && Walked(f, "", root) == []
  {
    var f := Filter([p], [d + "/Dockerfile", ".dockerignore"]);
    var entry := Entry(d, Dir([Entry("Dockerfile", File)]));
    assert [Entry("Dockerfile", File)][1..] == [] && [entry][1..] == [];
    assert Named([]) && Named([Entry("Dockerfile", File)]);
    assert Named([entry]);
    assert |d + "/Dockerfile"| > |d|;
    assert Excluded([p], d);
    assert !f.Sends(d) && !HasExclusions(f.patterns);
    assert Join(d, "Dockerfile") == d + "/Dockerfile";
    assert EntryPaths(d, Entry("Dockerfile", File)) == [d + "/Dockerfile"];
    assert AllPaths(d, [Entry("Dockerfile", File)]) == [d + "/Dockerfile"];
    assert EntryPaths("", entry) == [d, d + "/Dockerfile"];
    assert EntryWalked(f, "", entry) == [];
  }
}
