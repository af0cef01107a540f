/** `matches_one` of `src/dockerignore.rs`: one path segment against one pattern
    segment, with a single backtrack point. */
module Glob {
  import opened State

  /** What a pattern means, from position `i` on, of a name from position `j`
      on: `*` is any run of characters, `?` any one. */
  ghost predicate MatchesFrom(p: string, i: nat, n: string, j: nat)
    requires i <= |p| && j <= |n|
    decreases |p| - i, 0
  {
    if i == |p| then j == |n|
    else if p[i] == '*' then MatchesAnywhereFrom(p, i + 1, n, j)
    else j < |n| && (p[i] == '?' || p[i] == n[j]) && MatchesFrom(p, i + 1, n, j + 1)
  }

  /** The pattern from `i` on fits the name from `j` or some later position on. */
  ghost predicate MatchesAnywhereFrom(p: string, i: nat, n: string, j: nat)
    requires i <= |p| && j <= |n|
    decreases |p| - i, 1
  {
    exists k :: j <= k <= |n| && MatchesFrom(p, i, n, k)
  }

  ghost predicate Matches(p: string, n: string)
  {
    MatchesFrom(p, 0, n, 0)
  }

  predicate AllStars(p: string)
  {
    forall i :: 0 <= i < |p| ==> p[i] == '*'
  }

  /** Where the loop stands: `star` is the last `*` seen and where its run ends. */
  datatype Scan = Scan(pi: nat, ni: nat, star: Option<(nat, nat)>)
  {
    predicate Within(p: string, n: string)
    {
      pi <= |p| && ni <= |n| && (star.Some? ==> star.value.0 < pi && star.value.1 <= ni)
    }

    /** How much of the name the star has yet to swallow. */
    function Left(n: string): int
    {
      if star.Some? then |n| - star.value.1 else |n| + 1
    }
  }

  /** The loop from `s` on. */
  predicate Run(p: string, n: string, s: Scan)
    requires s.Within(p, n)
    decreases s.Left(n), |p| - s.pi, |n| - s.ni
  {
    if s.ni < |n| then
      if s.pi < |p| && (p[s.pi] == '?' || p[s.pi] == n[s.ni]) then
        Run(p, n, Scan(s.pi + 1, s.ni + 1, s.star))
      else if s.pi < |p| && p[s.pi] == '*' then
        Run(p, n, Scan(s.pi + 1, s.ni, Some((s.pi, s.ni))))
      else if s.star.Some? then
        var (sp, sn) := s.star.value;
        Run(p, n, Scan(sp + 1, sn + 1, Some((sp, sn + 1))))
      else
        false
    else
      AllStars(p[s.pi..])
  }

  predicate MatchesOne(p: string, n: string)
  {
    Run(p, n, Scan(0, 0, None))
  }

  method MatchesOneLoop(p: string, n: string) returns (matched: bool)
    ensures matched == MatchesOne(p, n)
  {
    var pi, ni := 0, 0;
    var star: Option<(nat, nat)> := None;
    while ni < |n|
      invariant Scan(pi, ni, star).Within(p, n)
      invariant MatchesOne(p, n) == Run(p, n, Scan(pi, ni, star))
      decreases Scan(pi, ni, star).Left(n), |p| - pi, |n| - ni
    {
      if pi < |p| && (p[pi] == '?' || p[pi] == n[ni]) {
        pi, ni := pi + 1, ni + 1;
      } else if pi < |p| && p[pi] == '*' {
        star := Some((pi, ni));
        pi := pi + 1;
      } else if star.Some? {
        var (sp, sn) := star.value;
        pi, ni := sp + 1, sn + 1;
        star := Some((sp, sn + 1));
      } else {
        return false;
      }
    }
    matched := AllStars(p[pi..]);
  }

  // ----- the loop decides the meaning -----

  /** A later end of the last star's run still leads to a match. */
  ghost predicate LaterEnd(p: string, n: string, sp: nat, sn: nat)
    requires sp < |p|
  {
    sn < |n| && MatchesAnywhereFrom(p, sp + 1, n, sn + 1)
  }

  /** What remains to be decided at `s`. */
  ghost predicate Open(p: string, n: string, s: Scan)
    requires s.Within(p, n)
  {
    || MatchesFrom(p, s.pi, n, s.ni)
    || (s.star.Some? && LaterEnd(p, n, s.star.value.0, s.star.value.1))
  }

  ghost predicate StarFree(p: string, i: nat, len: nat)
    requires i + len <= |p|
  {
    forall j :: i <= j < i + len ==> p[j] != '*'
  }

  /** Since the last star, pattern and name went forward one for one. */
  ghost predicate InStep(p: string, s: Scan)
    requires s.pi <= |p| && (s.star.Some? ==> s.star.value.0 < s.pi)
  {
    s.star.Some? ==>
      var (sp, sn) := s.star.value;
      s.pi - (sp + 1) == s.ni - sn && StarFree(p, sp + 1, s.pi - (sp + 1))
  }

  predicate NoStar(n: string)
  {
    forall i :: 0 <= i < |n| ==> n[i] != '*'
  }

  lemma {:induction false} AllStarsMatchEnd(p: string, i: nat, n: string)
    requires i <= |p|
    ensures MatchesFrom(p, i, n, |n|) <==> AllStars(p[i..])
    decreases |p| - i
  {
    if i < |p| {
      AllStarsMatchEnd(p, i + 1, n);
      assert p[i..] == [p[i]] + p[i + 1..];
    }
  }

  /** `len` pattern characters without a star take up exactly `len` characters. */
  lemma {:induction false} StarFreeSteps(p: string, i: nat, n: string, j: nat, len: nat)
    requires i + len <= |p| && j <= |n| && StarFree(p, i, len) && MatchesFrom(p, i, n, j)
    ensures j + len <= |n| && MatchesFrom(p, i + len, n, j + len)
    decreases len
  {
    if len > 0 {
      StarFreeSteps(p, i + 1, n, j + 1, len - 1);
    }
  }

  /** Forgetting all but the last star loses no match. */
  lemma EarlierStarIsRedundant(p: string, n: string, s: Scan)
    requires s.Within(p, n) && InStep(p, s) && s.star.Some? && s.pi < |p| && p[s.pi] == '*'
    requires LaterEnd(p, n, s.star.value.0, s.star.value.1)
    ensures MatchesFrom(p, s.pi, n, s.ni)
  {
    var (sp, sn) := s.star.value;
    var k := LaterPosition(p, sp + 1, n, sn + 1);
    var len := s.pi - (sp + 1);
    StarFreeSteps(p, sp + 1, n, k, len);
    var m := LaterPosition(p, s.pi + 1, n, k + len);
  }

  /** At the end of the name no later end is left. */
  lemma NoLaterEnd(p: string, n: string, s: Scan)
    requires s.Within(p, n) && InStep(p, s) && s.star.Some? && s.ni == |n|
    ensures !LaterEnd(p, n, s.star.value.0, s.star.value.1)
  {
    var (sp, sn) := s.star.value;
    if LaterEnd(p, n, sp, sn) {
      var k := LaterPosition(p, sp + 1, n, sn + 1);
      StarFreeSteps(p, sp + 1, n, k, s.pi - (sp + 1));
    }
  }

  lemma LaterPosition(p: string, i: nat, n: string, j: nat) returns (k: nat)
    requires i <= |p| && j <= |n| && MatchesAnywhereFrom(p, i, n, j)
    ensures j <= k <= |n| && MatchesFrom(p, i, n, k)
  {
    k :| j <= k <= |n| && MatchesFrom(p, i, n, k);
  }

  lemma HereOrLater(p: string, i: nat, n: string, j: nat)
    requires i <= |p| && j <= |n|
    ensures MatchesAnywhereFrom(p, i, n, j)
      <==> MatchesFrom(p, i, n, j) || (j < |n| && MatchesAnywhereFrom(p, i, n, j + 1))
  {
    if MatchesAnywhereFrom(p, i, n, j) {
      var k := LaterPosition(p, i, n, j);
    }
    if j < |n| && MatchesAnywhereFrom(p, i, n, j + 1) {
      var k := LaterPosition(p, i, n, j + 1);
    }
  }

  lemma {:induction false} RunDecides(p: string, n: string, s: Scan)
    requires s.Within(p, n) && InStep(p, s) && NoStar(n)
    ensures Run(p, n, s) <==> Open(p, n, s)
    decreases s.Left(n), |p| - s.pi, |n| - s.ni
  {
    if s.ni < |n| {
      if s.pi < |p| && (p[s.pi] == '?' || p[s.pi] == n[s.ni]) {
        RunDecides(p, n, Scan(s.pi + 1, s.ni + 1, s.star));
      } else if s.pi < |p| && p[s.pi] == '*' {
        if s.star.Some? && LaterEnd(p, n, s.star.value.0, s.star.value.1) {
          EarlierStarIsRedundant(p, n, s);
        }
        HereOrLater(p, s.pi + 1, n, s.ni);
        RunDecides(p, n, Scan(s.pi + 1, s.ni, Some((s.pi, s.ni))));
      } else if s.star.Some? {
        var (sp, sn) := s.star.value;
        HereOrLater(p, sp + 1, n, sn + 1);
        RunDecides(p, n, Scan(sp + 1, sn + 1, Some((sp, sn + 1))));
      }
    } else {
      AllStarsMatchEnd(p, s.pi, n);
      if s.star.Some? {
        NoLaterEnd(p, n, s);
      }
    }
  }

  /** On a name without `*`, the loop answers exactly what the pattern means. */
  lemma MatchesOneIsGlob(p: string, n: string)
    requires NoStar(n)
    ensures MatchesOne(p, n) <==> Matches(p, n)
  {
    RunDecides(p, n, Scan(0, 0, None));
  }

  // ----- and only then -----

  /** While each pattern character is `?` or the name's own, the loop walks
      straight through and records no star. */
  lemma {:induction false} RunStraight(p: string, n: string, i: nat)
    requires i <= |n| <= |p|
    requires forall j :: 0 <= j < |n| ==> p[j] == '?' || p[j] == n[j]
    ensures Run(p, n, Scan(i, i, None)) == AllStars(p[|n|..])
    decreases |n| - i
  {
    if i < |n| {
      RunStraight(p, n, i + 1);
    }
  }

  /** The name up to its first `*`, that star, and one `?` for it and for each
      character after it. */
  ghost predicate Fools(p: string, n: string, at: nat)
  {
    && at < |n| && n[at] == '*' && |p| == |n| + 1
    && (forall i :: 0 <= i < at ==> p[i] == n[i] && n[i] != '*')
    && p[at] == '*'
    && (forall i :: at < i < |p| ==> p[i] == '?')
  }

  lemma {:induction false} FoolsMatches(p: string, n: string, at: nat, i: nat)
    requires Fools(p, n, at) && i <= |p|
    ensures MatchesFrom(p, i, n, if i <= at then i else i - 1)
    decreases |p| - i
  {
    if i < |p| {
      FoolsMatches(p, n, at, i + 1);
      if i == at {
        assert MatchesFrom(p, i + 1, n, i);
      }
    }
  }

  /** A literal `*` in the name is taken for the pattern's star: such a pattern
      matches but is refused. */
  lemma StarInNameFools(n: string) returns (p: string)
    requires !NoStar(n)
    ensures Matches(p, n) && !MatchesOne(p, n)
  {
    var at := FirstStar(n);
    p := n[..at] + "*" + seq(|n| - at, _ => '?');
    FoolsMatches(p, n, at, 0);
    RunStraight(p, n, 0);
    assert p[|n|..][0] == '?';
  }

  lemma {:induction false} FirstStar(n: string) returns (at: nat)
    requires !NoStar(n)
    ensures at < |n| && n[at] == '*' && forall i :: 0 <= i < at ==> n[i] != '*'
  {
    if n[0] == '*' {
      at := 0;
    } else {
      var i :| 0 <= i < |n| && n[i] == '*';
      assert n[1..][i - 1] == '*';
      at := FirstStar(n[1..]);
      at := at + 1;
      assert forall i :: 0 < i < at ==> n[i] == n[1..][i - 1];
    }
  }

  /** The names on which the loop gets every pattern right are those without `*`. */
  lemma GlobExactlyWithoutStar(n: string)
    ensures (forall p :: MatchesOne(p, n) <==> Matches(p, n)) <==> NoStar(n)
  {
    if NoStar(n) {
      forall p ensures MatchesOne(p, n) <==> Matches(p, n) {
        MatchesOneIsGlob(p, n);
      }
    } else {
      var p := StarInNameFools(n);
    }
  }
}
