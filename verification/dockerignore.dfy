/** `src/dockerignore.rs`: which paths of a build context are left out. */
module Dockerignore {
  import opened State
  import opened Glob

  datatype Pattern = Pattern(exclusion: bool, segments: seq<string>)

  /** `str::split` on one character: always at least one piece. */
  function Split(s: string, sep: char): (r: seq<string>)
    ensures r != []
  {
    if s == [] then [[]] else Prepend(s[0], Split(s[1..], sep), sep)
  }

  /** The pieces with one more character in front. */
  function Prepend(c: char, pieces: seq<string>, sep: char): (r: seq<string>)
    requires pieces != []
    ensures r != []
  {
    if c == sep then [[]] + pieces else [[c] + pieces[0]] + pieces[1..]
  }

  predicate MatchesSegments(pattern: seq<string>, path: seq<string>)
    decreases |pattern|
  {
    if pattern == [] then path == []
    else if pattern[0] == "**" then
      exists skip :: 0 <= skip <= |path| && MatchesSegments(pattern[1..], path[skip..])
    else
      path != [] && MatchesOne(pattern[0], path[0]) && MatchesSegments(pattern[1..], path[1..])
  }

  /** The whole of `path`, anchored at the root. */
  predicate MatchesPath(p: Pattern, path: string)
  {
    MatchesSegments(p.segments, Split(path, '/'))
  }

  ghost predicate MatchesAncestor(p: Pattern, path: string)
  {
    exists i :: 0 <= i < |path| && path[i] == '/' && MatchesPath(p, path[..i])
  }

  /** The pattern speaks about the path or a directory it lies in. */
  ghost predicate Hits(p: Pattern, path: string)
  {
    MatchesPath(p, path) || MatchesAncestor(p, path)
  }

  /** The last pattern that speaks about the path decides. */
  ghost predicate Excluded(patterns: seq<Pattern>, path: string)
  {
    patterns != [] &&
    var last := patterns[|patterns| - 1];
    if Hits(last, path) then !last.exclusion else Excluded(patterns[..|patterns| - 1], path)
  }

  predicate HasExclusions(patterns: seq<Pattern>)
  {
    exists p :: p in patterns && p.exclusion
  }

  // ----- the loops -----

  method AnyAncestor(p: Pattern, path: string) returns (matched: bool)
    ensures matched <==> MatchesAncestor(p, path)
  {
    var cut := 0;
    while true
      invariant cut <= |path|
      invariant forall i :: 0 <= i < cut && path[i] == '/' ==> !MatchesPath(p, path[..i])
      decreases |path| - cut
    {
      var next := FindFrom(path, cut, '/');
      if next.None? {
        return false;
      }
      cut := next.value;
      if MatchesPath(p, path[..cut]) {
        return true;
      }
      cut := cut + 1;
    }
  }

  method FindFrom(s: string, from: nat, c: char) returns (at: Option<nat>)
    requires from <= |s|
    ensures at.Some? ==> from <= at.value < |s| && s[at.value] == c && forall i :: from <= i < at.value ==> s[i] != c
    ensures at.None? ==> forall i :: from <= i < |s| ==> s[i] != c
  {
    for i := from to |s|
      invariant forall j :: from <= j < i ==> s[j] != c
    {
      if s[i] == c {
        return Some(i);
      }
    }
    at := None;
  }

  /** Patterns that could not flip the verdict are passed over; the verdict is
      the last matching pattern's all the same. */
  method Excludes(patterns: seq<Pattern>, path: string) returns (excluded: bool)
    ensures excluded <==> Excluded(patterns, path)
  {
    excluded := false;
    for i := 0 to |patterns|
      invariant excluded <==> Excluded(patterns[..i], path)
    {
      var pattern := patterns[i];
      assert patterns[..i + 1][..i] == patterns[..i];
      if pattern.exclusion == excluded {
        var hit := MatchesPath(pattern, path);
        if !hit {
          hit := AnyAncestor(pattern, path);
        }
        if hit {
          excluded := !pattern.exclusion;
        }
      }
    }
    assert patterns[..|patterns|] == patterns;
  }

  // ----- what the patterns mean -----

  /** A pattern with each `**` written out as some run of any-segments. */
  ghost predicate WrittenOut(pattern: seq<string>, shape: seq<Option<string>>)
    decreases |pattern|
  {
    if pattern == [] then shape == []
    else if pattern[0] == "**" then
      exists k :: 0 <= k <= |shape| && (forall i :: 0 <= i < k ==> shape[i] == None) && WrittenOut(pattern[1..], shape[k..])
    else
      shape != [] && shape[0] == Some(pattern[0]) && WrittenOut(pattern[1..], shape[1..])
  }

  /** Segment by segment, the names fit the shape. */
  ghost predicate Fits(shape: seq<Option<string>>, path: seq<string>)
  {
    |shape| == |path| && forall i :: 0 <= i < |shape| ==> shape[i].None? || Matches(shape[i].value, path[i])
  }

  /** `**` stands for any number of whole segments, everything else for one
      segment by its glob. */
  lemma SegmentsMean(pattern: seq<string>, path: seq<string>)
    requires forall i :: 0 <= i < |path| ==> NoStar(path[i])
    ensures MatchesSegments(pattern, path) <==> exists shape :: WrittenOut(pattern, shape) && Fits(shape, path)
  {
    if MatchesSegments(pattern, path) {
      var shape := ShapeOf(pattern, path);
    }
    if shape :| WrittenOut(pattern, shape) && Fits(shape, path) {
      ShapeMatches(pattern, shape, path);
    }
  }

  lemma {:induction false} ShapeOf(pattern: seq<string>, path: seq<string>) returns (shape: seq<Option<string>>)
    requires forall i :: 0 <= i < |path| ==> NoStar(path[i])
    requires MatchesSegments(pattern, path)
    ensures WrittenOut(pattern, shape) && Fits(shape, path)
    decreases |pattern|
  {
    if pattern == [] {
      shape := [];
    } else if pattern[0] == "**" {
      var skip :| 0 <= skip <= |path| && MatchesSegments(pattern[1..], path[skip..]);
      var rest := ShapeOf(pattern[1..], path[skip..]);
      shape := seq(skip, _ => None) + rest;
      assert shape[skip..] == rest;
      forall i | 0 <= i < |shape| ensures shape[i].None? || Matches(shape[i].value, path[i]) {
        assert i >= skip ==> shape[i] == rest[i - skip] && path[i] == path[skip..][i - skip];
      }
    } else {
      var rest := ShapeOf(pattern[1..], path[1..]);
      shape := [Some(pattern[0])] + rest;
      MatchesOneIsGlob(pattern[0], path[0]);
      forall i | 0 <= i < |shape| ensures shape[i].None? || Matches(shape[i].value, path[i]) {
        assert i >= 1 ==> shape[i] == rest[i - 1] && path[i] == path[1..][i - 1];
      }
    }
  }

  lemma {:induction false} ShapeMatches(pattern: seq<string>, shape: seq<Option<string>>, path: seq<string>)
    requires forall i :: 0 <= i < |path| ==> NoStar(path[i])
    requires WrittenOut(pattern, shape) && Fits(shape, path)
    ensures MatchesSegments(pattern, path)
    decreases |pattern|
  {
    if pattern != [] && pattern[0] == "**" {
      var k :| 0 <= k <= |shape| && (forall i :: 0 <= i < k ==> shape[i] == None) && WrittenOut(pattern[1..], shape[k..]);
      ShapeMatches(pattern[1..], shape[k..], path[k..]);
    } else if pattern != [] {
      MatchesOneIsGlob(pattern[0], path[0]);
      ShapeMatches(pattern[1..], shape[1..], path[1..]);
    }
  }

  /** Pattern `i` excludes, and no later one speaks about the path. */
  ghost predicate HasLastWord(patterns: seq<Pattern>, path: string, i: nat)
  {
    && i < |patterns| && !patterns[i].exclusion && Hits(patterns[i], path)
    && forall j :: i < j < |patterns| ==> !Hits(patterns[j], path)
  }

  /** The verdict, without the recursion: some pattern that excludes is the
      last one to speak about the path. */
  lemma {:induction false} LastMatchWins(patterns: seq<Pattern>, path: string)
    ensures Excluded(patterns, path) <==> exists i :: HasLastWord(patterns, path, i)
  {
    if patterns != [] {
      var n := |patterns| - 1;
      LastMatchWins(patterns[..n], path);
      if Hits(patterns[n], path) {
        assert !patterns[n].exclusion ==> HasLastWord(patterns, path, n);
      } else {
        if i :| HasLastWord(patterns[..n], path, i) {
          assert HasLastWord(patterns, path, i);
        }
        if i :| HasLastWord(patterns, path, i) {
          assert HasLastWord(patterns[..n], path, i);
        }
      }
    }
  }

  lemma HitsBelow(p: Pattern, dir: string, rest: string)
    requires Hits(p, dir)
    ensures Hits(p, dir + "/" + rest)
  {
    var path := dir + "/" + rest;
    if MatchesPath(p, dir) {
      assert path[|dir|] == '/' && path[..|dir|] == dir;
    } else {
      var i :| 0 <= i < |dir| && dir[i] == '/' && MatchesPath(p, dir[..i]);
      assert path[i] == '/' && path[..i] == dir[..i];
    }
  }

  lemma {:induction false} ExcludedByAny(patterns: seq<Pattern>, path: string)
    requires !HasExclusions(patterns)
    ensures Excluded(patterns, path) <==> exists p :: p in patterns && Hits(p, path)
  {
    if patterns != [] {
      var n := |patterns| - 1;
      assert patterns == patterns[..n] + [patterns[n]];
      assert !HasExclusions(patterns[..n]);
      ExcludedByAny(patterns[..n], path);
    }
  }

  /** Without a `!` pattern, what lies in an excluded directory is excluded. */
  lemma ExcludedBelow(patterns: seq<Pattern>, dir: string, rest: string)
    requires !HasExclusions(patterns) && Excluded(patterns, dir)
    ensures Excluded(patterns, dir + "/" + rest)
  {
    ExcludedByAny(patterns, dir);
    ExcludedByAny(patterns, dir + "/" + rest);
    var p :| p in patterns && Hits(p, dir);
    HitsBelow(p, dir, rest);
  }

  // ----- the file -----

  /** Unicode `White_Space`. */
  predicate IsSpace(c: char)
  {
    ('\U{0009}' <= c <= '\U{000D}') || c == ' ' || c == '\U{0085}' || c == '\U{00A0}' || c == '\U{1680}'
    || ('\U{2000}' <= c <= '\U{200A}') || c == '\U{2028}' || c == '\U{2029}' || c == '\U{202F}' || c == '\U{205F}' || c == '\U{3000}'
  }

  function TrimStart(s: string): string
  {
    if s != [] && IsSpace(s[0]) then TrimStart(s[1..]) else s
  }

  function TrimEnd(s: string): string
  {
    if s != [] && IsSpace(s[|s| - 1]) then TrimEnd(s[..|s| - 1]) else s
  }

  function Trim(s: string): string { TrimEnd(TrimStart(s)) }

  function TrimSlashes(s: string): string
  {
    if s != [] && s[0] == '/' then TrimSlashes(s[1..]) else s
  }

  function Meaningful(pieces: seq<string>): seq<string>
  {
    if pieces == [] then []
    else if pieces[0] == "" || pieces[0] == "." then Meaningful(pieces[1..])
    else [pieces[0]] + Meaningful(pieces[1..])
  }

  /** One line of the file: blank lines, comments and empty patterns say nothing. */
  function ParseLine(raw: string): Option<Pattern>
  {
    var line := Trim(raw);
    if line == "" || line[0] == '#' then None
    else
      var exclusion := line[0] == '!';
      var body := if exclusion then Trim(line[1..]) else line;
      var segments := Meaningful(Split(TrimSlashes(body), '/'));
      if segments == [] then None else Some(Pattern(exclusion, segments))
  }

  function ParseLines(lines: seq<string>): seq<Pattern>
  {
    if lines == [] then []
    else match ParseLine(lines[0])
      case None => ParseLines(lines[1..])
      case Some(p) => [p] + ParseLines(lines[1..])
  }

  /** A last empty line and a `\r` before the line break, which `str::lines`
      drops, make no difference here: the one says nothing and the other is trimmed. */
  function Parse(text: string): seq<Pattern>
  {
    ParseLines(Split(text, '\n'))
  }

  method ParseFile(text: string) returns (patterns: seq<Pattern>)
    ensures patterns == Parse(text)
  {
    var lines := Split(text, '\n');
    patterns := [];
    for i := 0 to |lines|
      invariant Parse(text) == patterns + ParseLines(lines[i..])
    {
      assert lines[i..] == [lines[i]] + lines[i + 1..];
      match ParseLine(lines[i]) {
        case None =>
        case Some(p) => patterns := patterns + [p];
      }
    }
    assert lines[|lines|..] == [];
  }

  lemma PrependConcat(c: char, a: seq<string>, b: seq<string>, sep: char)
    requires a != []
    ensures Prepend(c, a + b, sep) == Prepend(c, a, sep) + b
  {
  }

  lemma {:induction false} SplitConcat(a: string, b: string, sep: char)
    ensures Split(a + [sep] + b, sep) == Split(a, sep) + Split(b, sep)
  {
    var all := a + [sep] + b;
    if a == [] {
      assert all[1..] == b;
    } else {
      assert all[1..] == a[1..] + [sep] + b;
      SplitConcat(a[1..], b, sep);
      PrependConcat(a[0], Split(a[1..], sep), Split(b, sep), sep);
      assert Split(all, sep) == Prepend(a[0], Split(all[1..], sep), sep);
    }
  }

  lemma {:induction false} ParseConcat(a: seq<string>, b: seq<string>)
    ensures ParseLines(a + b) == ParseLines(a) + ParseLines(b)
  {
    if a == [] {
      assert a + b == b;
    } else {
      assert (a + b)[1..] == a[1..] + b;
      ParseConcat(a[1..], b);
    }
  }

  const GIT := ".git"

  const GIT_PATTERN := Pattern(false, [GIT])

  lemma {:induction false} SplitSingle(s: string, sep: char)
    requires sep !in s
    ensures Split(s, sep) == [s]
  {
    if s != [] {
      SplitSingle(s[1..], sep);
      assert s == [s[0]] + s[1..];
    }
  }

  lemma GitLine()
    ensures ParseLine(GIT) == Some(GIT_PATTERN) && ParseLine("") == None
  {
    assert Trim(GIT) == GIT;
    assert TrimSlashes(GIT) == GIT;
    SplitSingle(GIT, '/');
    assert Meaningful([GIT]) == [GIT] + Meaningful([GIT][1..]);
  }

  /** The line appended for `skip_git_dir` is the file's last pattern, whatever
      the file says before it. */
  lemma GitComesLast(text: string)
    ensures Parse(text + "\n.git\n") == Parse(text) + [GIT_PATTERN]
  {
    var tail := GIT + ['\n'] + "";
    assert text + "\n.git\n" == text + ['\n'] + tail;
    SplitConcat(text, tail, '\n');
    SplitConcat(GIT, "", '\n');
    SplitSingle(GIT, '\n');
    SplitSingle("", '\n');
    assert Split(tail, '\n') == [GIT, ""];
    ParseConcat(Split(text, '\n'), [GIT, ""]);
    GitLine();
    assert [GIT, ""][1..] == [""] && [""][1..] == [];
  }

  lemma GitMatches(p: Pattern)
    requires p == GIT_PATTERN
    ensures MatchesPath(p, GIT)
  {
    SplitSingle(GIT, '/');
    RunStraight(GIT, GIT, 0);
    assert MatchesSegments([GIT][1..], [GIT][1..]);
  }

  /** No `!` pattern brings `.git`, or anything in it, back. */
  lemma GitIsExcluded(text: string, rest: string)
    ensures Excluded(Parse(text + "\n.git\n"), GIT)
    ensures Excluded(Parse(text + "\n.git\n"), GIT + "/" + rest)
  {
    GitComesLast(text);
    GitMatches(GIT_PATTERN);
    HitsBelow(GIT_PATTERN, GIT, rest);
  }

  // ----- writing patterns down -----

  /** A segment as `Parse` leaves it. */
  predicate IsSegment(s: string)
  {
    s != "" && s != "." && '/' !in s && '\n' !in s
  }

  ghost predicate Writable(p: Pattern)
  {
    p.segments != [] && forall s | s in p.segments :: IsSegment(s)
  }

  function Slashed(segments: seq<string>): string
  {
    if segments == [] then "" else segments[0] + "/" + Slashed(segments[1..])
  }

  /** A line that says the pattern, slashes around it. */
  function Written(p: Pattern): string
  {
    (if p.exclusion then "!/" else "/") + Slashed(p.segments)
  }

  function WrittenFile(patterns: seq<Pattern>): string
  {
    if patterns == [] then "" else Written(patterns[0]) + "\n" + WrittenFile(patterns[1..])
  }

  lemma {:induction false} SlashedSplits(segments: seq<string>)
    requires forall s | s in segments :: IsSegment(s)
    ensures Split(Slashed(segments), '/') == segments + [""]
  {
    if segments != [] {
      var head, tail := segments[0], segments[1..];
      assert head in segments && forall s | s in tail :: s in segments;
      SlashedSplits(tail);
      SplitConcat(head, Slashed(tail), '/');
      SplitSingle(head, '/');
      assert Slashed(segments) == head + ['/'] + Slashed(tail);
      assert segments + [""] == [head] + (tail + [""]);
    }
  }

  lemma {:induction false} SegmentsAreMeaningful(segments: seq<string>)
    requires forall s | s in segments :: IsSegment(s)
    ensures Meaningful(segments + [""]) == segments
  {
    if segments == [] {
      assert [""][1..] == [];
    } else {
      assert segments[0] in segments && forall s | s in segments[1..] :: s in segments;
      SegmentsAreMeaningful(segments[1..]);
      assert (segments + [""])[1..] == segments[1..] + [""];
    }
  }

  lemma {:induction false} SlashedEnds(segments: seq<string>)
    requires forall s | s in segments :: IsSegment(s)
    ensures '\n' !in Slashed(segments)
    ensures segments != [] ==> Slashed(segments) != "" && Slashed(segments)[0] != '/' && Slashed(segments)[|Slashed(segments)| - 1] == '/'
  {
    if segments != [] {
      assert segments[0] in segments && forall s | s in segments[1..] :: s in segments;
      SlashedEnds(segments[1..]);
    }
  }

  lemma TrimNothing(s: string)
    requires s != "" && !IsSpace(s[0]) && !IsSpace(s[|s| - 1])
    ensures Trim(s) == s
  {
  }

  /** Every pattern can be written down. */
  lemma WrittenLineParses(p: Pattern)
    requires Writable(p)
    ensures ParseLine(Written(p)) == Some(p) && '\n' !in Written(p)
  {
    var body := "/" + Slashed(p.segments);
    SlashedSplits(p.segments);
    SegmentsAreMeaningful(p.segments);
    SlashedEnds(p.segments);
    TrimNothing(body);
    assert body[1..] == Slashed(p.segments);
    assert TrimSlashes(body) == TrimSlashes(Slashed(p.segments)) == Slashed(p.segments);
    if p.exclusion {
      assert Written(p) == "!" + body && Written(p)[1..] == body;
      TrimNothing(Written(p));
    }
  }

  lemma FirstLine(line: string, rest: string)
    requires '\n' !in line
    ensures Parse(line + "\n" + rest) == (match ParseLine(line) case None => [] case Some(p) => [p]) + Parse(rest)
  {
    assert line + "\n" + rest == line + ['\n'] + rest;
    SplitConcat(line, rest, '\n');
    SplitSingle(line, '\n');
    var all := [line] + Split(rest, '\n');
    assert all[0] == line && all[1..] == Split(rest, '\n');
  }

  /** Reading a written file gives the patterns written, in their order. */
  lemma {:induction false} WrittenFileParses(patterns: seq<Pattern>)
    requires forall p | p in patterns :: Writable(p)
    ensures Parse(WrittenFile(patterns)) == patterns
  {
    if patterns == [] {
      assert Split("", '\n') == [""] && [""][1..] == [];
      GitLine();
    } else {
      assert patterns[0] in patterns && forall p | p in patterns[1..] :: p in patterns;
      WrittenLineParses(patterns[0]);
      FirstLine(Written(patterns[0]), WrittenFile(patterns[1..]));
      WrittenFileParses(patterns[1..]);
    }
  }

  lemma {:induction false} SplitPieces(s: string, sep: char, c: char)
    requires c == sep || c !in s
    ensures forall piece | piece in Split(s, sep) :: c !in piece
  {
    if s != [] {
      SplitPieces(s[1..], sep, c);
      var rest := Split(s[1..], sep);
      if s[0] != sep {
        assert rest == [rest[0]] + rest[1..];
        assert s[0] != c && rest[0] in rest;
      }
    }
  }

  lemma {:induction false} MeaningfulPieces(pieces: seq<string>)
    ensures forall s | s in Meaningful(pieces) :: s in pieces && s != "" && s != "."
  {
    if pieces != [] {
      MeaningfulPieces(pieces[1..]);
    }
  }

  lemma {:induction false} TrimKeeps(s: string, c: char)
    requires c !in s
    ensures c !in TrimStart(s) && c !in TrimEnd(s) && c !in TrimSlashes(s)
  {
    if s != [] {
      TrimKeeps(s[1..], c);
      TrimKeeps(s[..|s| - 1], c);
    }
  }

  /** Every pattern read from a line can be written down again. */
  lemma ParsedIsWritable(raw: string)
    requires '\n' !in raw && ParseLine(raw).Some?
    ensures Writable(ParseLine(raw).value)
  {
    TrimKeeps(raw, '\n');
    TrimKeeps(TrimStart(raw), '\n');
    var line := Trim(raw);
    TrimKeeps(line[1..], '\n');
    TrimKeeps(TrimStart(line[1..]), '\n');
    var body := if line[0] == '!' then Trim(line[1..]) else line;
    TrimKeeps(body, '\n');
    SplitPieces(TrimSlashes(body), '/', '/');
    SplitPieces(TrimSlashes(body), '/', '\n');
    MeaningfulPieces(Split(TrimSlashes(body), '/'));
  }

  lemma {:induction false} ParsedAreWritable(lines: seq<string>)
    requires forall l | l in lines :: '\n' !in l
    ensures forall p | p in ParseLines(lines) :: Writable(p)
  {
    if lines != [] {
      assert lines[0] in lines && forall l | l in lines[1..] :: l in lines;
      if ParseLine(lines[0]).Some? {
        ParsedIsWritable(lines[0]);
      }
      ParsedAreWritable(lines[1..]);
    }
  }

  /** So every file says the same as its patterns written down, and with that
      excludes the same: blank lines, comments, spaces around a line, and `/` and
      `.` between names make no difference. */
  lemma FilesRewrite(text: string)
    ensures Parse(WrittenFile(Parse(text))) == Parse(text)
  {
    SplitPieces(text, '\n', '\n');
    ParsedAreWritable(Split(text, '\n'));
    WrittenFileParses(Parse(text));
  }

  lemma ParseAfter(before: string, rest: string)
    ensures Parse(before + "\n" + rest) == ParseLines(Split(before, '\n')) + Parse(rest)
  {
    SplitConcat(before, rest, '\n');
    ParseConcat(Split(before, '\n'), Split(rest, '\n'));
    assert before + "\n" + rest == before + ['\n'] + rest;
  }

  /** A comment anywhere changes nothing. */
  lemma CommentsSayNothing(before: string, comment: string, after: string)
    requires '\n' !in comment
    ensures Parse(before + "\n" + ("#" + comment + "\n" + after)) == Parse(before + "\n" + after)
  {
    CommentSaysNothing(comment);
    FirstLine("#" + comment, after);
    ParseAfter(before, "#" + comment + "\n" + after);
    ParseAfter(before, after);
  }

  lemma CommentSaysNothing(comment: string)
    ensures ParseLine("#" + comment) == None
  {
    var line := "#" + comment;
    assert TrimStart(line) == line;
    TrimEndKeepsFirst(line);
  }

  lemma {:induction false} TrimEndKeepsFirst(s: string)
    requires s != "" && !IsSpace(s[0])
    ensures TrimEnd(s) != "" && TrimEnd(s)[0] == s[0]
  {
    if IsSpace(s[|s| - 1]) {
      TrimEndKeepsFirst(s[..|s| - 1]);
    }
  }
}
