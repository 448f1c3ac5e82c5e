/**
 * The older hunk parser (git/hunk.go): the loop inside its `ParseHunks`. A line opens a hunk
 * when it matches `hunkHeaderRegex`; a `diff --git` line sets the current path and stops
 * recording; other lines are recorded while recording is on. No file header is copied into the
 * hunks.
 *
 * `Step` is one turn of the loop and `Emit` its "append the pending hunk" block; `Parse` runs
 * them over the lines and is what `ParseHunks` computes. `HunksFrom` describes the same result
 * hunk by hunk. The loop tags a pending hunk with the path in force when it is emitted, which is
 * the path of the NEXT file once a `diff --git` line has come in between (`LastHunkTakesNextPath`);
 * `FixedParse` emits the pending hunk at the `diff --git` line instead, and `FixedParseTags`
 * proves that it tags every hunk with its own file.
 */
module LegacyHunks {
  import opened Strings
  import opened Diff
  import Hunks

  // ---------------------------------------------------------------------------------------------
  // hunkHeaderRegex: ^@@\s+[-+0-9,]+\s+[-+0-9,]+\s+@@

  /** RE2's `\s`: tab, newline, form feed, carriage return and space. */
  predicate IsRegexSpace(c: char) {
    c == ' ' || c == '\t' || c == '\n' || c == '\r' || c as int == 0x0C
  }

  /** The class `[-+0-9,]`. */
  predicate IsRangeChar(c: char) {
    '0' <= c <= '9' || c == '-' || c == '+' || c == ','
  }

  /** The two character classes of the regular expression. */
  datatype CharClass = RegexSpace | RangeChars

  predicate InClass(c: char, k: CharClass) {
    match k
    case RegexSpace => IsRegexSpace(c)
    case RangeChars => IsRangeChar(c)
  }

  /** Every character of `s` is in class `k`. */
  predicate Every(s: string, k: CharClass) {
    s == [] || (InClass(s[0], k) && Every(s[1..], k))
  }

  /** The length of the longest prefix of `s` whose characters all satisfy `p`. */
  function RunLength(s: string, k: CharClass): (n: nat)
    ensures n <= |s|
  {
    if s != [] && InClass(s[0], k) then 1 + RunLength(s[1..], k) else 0
  }

  /** What follows the longest prefix of `s` whose characters all satisfy `p`. */
  function Skip(s: string, k: CharClass): (t: string)
    ensures |t| <= |s|
  {
    s[RunLength(s, k)..]
  }

  /** `s` starts with `@@`. */
  predicate IsFence(s: string) {
    |s| >= 2 && s[0] == '@' && s[1] == '@'
  }

  /**
   * The match of `^@@\s+[-+0-9,]+\s+[-+0-9,]+\s+@@` from its stage `stage` on, against what is
   * left of the line: stage 0 is the anchor `^`, stage 1 the opening `@@`, stages 2 to 6 the
   * five `+` runs and stage 7 the closing `@@`. The two character classes are disjoint and
   * neither holds `@`, so each run takes exactly its maximal prefix and the match needs no
   * backtracking.
   */
  predicate MatchFrom(s: string, stage: nat)
    decreases 7 - stage
  {
    if stage == 0 then MatchFrom(s, 1)
    else if stage == 1 then IsFence(s) && MatchFrom(s[2..], 2)
    else if stage >= 7 then IsFence(s)
    else
      var k := if stage % 2 == 0 then RegexSpace else RangeChars;
      RunLength(s, k) > 0 && MatchFrom(Skip(s, k), stage + 1)
  }

  /**
   * `hunkHeaderRegex.MatchString`; `HeaderRegex` proves it equal to the regular expression's
   * language.
   */
  predicate MatchesHunkHeader(line: string)
    ensures MatchesHunkHeader(line) ==> IsFence(line)
  {
    MatchFrom(line, 0)
  }

  /**
   * `line` is "@@", white space, a range, white space, a range, white space and "@@", followed
   * by anything: one way of reading `line` as a match of the regular expression.
   */
  predicate IsHeaderShape(line: string, w1: string, x: string, w2: string, y: string, w3: string, rest: string) {
    line == "@@" + (w1 + (x + (w2 + (y + (w3 + ("@@" + rest)))))) &&
    w1 != [] && Every(w1, RegexSpace) && x != [] && Every(x, RangeChars) &&
    w2 != [] && Every(w2, RegexSpace) && y != [] && Every(y, RangeChars) &&
    w3 != [] && Every(w3, RegexSpace)
  }

  lemma {:induction false} RunChars(s: string, k: CharClass)
    ensures Every(s[..RunLength(s, k)], k)
    ensures RunLength(s, k) < |s| ==> !InClass(s[RunLength(s, k)], k)
  {
    if s != [] && InClass(s[0], k) {
      RunChars(s[1..], k);
      var n := RunLength(s, k);
      assert s[..n][1..] == s[1..][..n - 1];
    }
  }

  lemma {:induction false} RunOf(u: string, v: string, k: CharClass)
    requires Every(u, k)
    requires v == [] || !InClass(v[0], k)
    ensures RunLength(u + v, k) == |u|
  {
    if u != [] {
      assert (u + v)[0] == u[0];
      assert (u + v)[1..] == u[1..] + v;
      RunOf(u[1..], v, k);
    } else {
      assert u + v == v;
    }
  }

  /** Skipping the maximal `p`-run of `u + v` leaves `v`. */
  lemma SkipOf(u: string, v: string, k: CharClass)
    requires Every(u, k)
    requires v == [] || !InClass(v[0], k)
    ensures Skip(u + v, k) == v
  {
    RunOf(u, v, k);
    assert (u + v)[|u|..] == v;
  }

  /** A maximal `k`-run ends where a run of the other class begins. */
  lemma SkipToClass(u: string, next: string, v: string, k: CharClass, k2: CharClass)
    requires Every(u, k) && next != [] && Every(next, k2) && k != k2
    ensures Skip(u + (next + v), k) == next + v
  {
    assert (next + v)[0] == next[0];
    SkipOf(u, next + v, k);
  }

  /** Every reading of `line` as a regular-expression match is found by the matcher. */
  lemma ShapeMatches(line: string, w1: string, x: string, w2: string, y: string, w3: string, rest: string)
    requires IsHeaderShape(line, w1, x, w2, y, w3, rest)
    ensures MatchesHunkHeader(line)
  {
    var r5 := "@@" + rest;
    var r4 := w3 + r5;
    var r3 := y + r4;
    var r2 := w2 + r3;
    var r1 := x + r2;
    FenceCons(rest);
    assert MatchFrom(r5, 7);
    SkipOf(w3, r5, RegexSpace);
    assert MatchFrom(r4, 6);
    SkipToClass(y, w3, r5, RangeChars, RegexSpace);
    assert MatchFrom(r3, 5);
    SkipToClass(w2, y, r4, RegexSpace, RangeChars);
    assert MatchFrom(r2, 4);
    SkipToClass(x, w2, r3, RangeChars, RegexSpace);
    assert MatchFrom(r1, 3);
    SkipToClass(w1, x, r2, RegexSpace, RangeChars);
    assert MatchFrom(w1 + r1, 2);
    FenceCons(w1 + r1);
    assert MatchFrom(line, 1);
  }

  /** `Skip` leaves what follows a maximal `p`-run `u` of `s`. */
  lemma Cut(s: string, k: CharClass) returns (u: string)
    ensures s == u + Skip(s, k) && Every(u, k) && |u| == RunLength(s, k)
    ensures Skip(s, k) == [] || !InClass(Skip(s, k)[0], k)
  {
    RunChars(s, k);
    u := s[..RunLength(s, k)];
  }

  lemma FenceCons(s: string)
    ensures IsFence("@@" + s) && ("@@" + s)[2..] == s
  {
  }

  lemma FencePrefix(s: string)
    requires IsFence(s)
    ensures s == "@@" + s[2..]
  {
  }

  /** A line the matcher accepts is a match of the regular expression. */
  lemma MatchedShape(line: string) returns (w1: string, x: string, w2: string, y: string, w3: string, rest: string)
    requires MatchesHunkHeader(line)
    ensures IsHeaderShape(line, w1, x, w2, y, w3, rest)
  {
    var r0 := line[2..];
    assert MatchFrom(line, 1);
    assert IsFence(line) && MatchFrom(r0, 2);
    w1 := Cut(r0, RegexSpace);
    var r1 := Skip(r0, RegexSpace);
    assert MatchFrom(r1, 3);
    x := Cut(r1, RangeChars);
    var r2 := Skip(r1, RangeChars);
    assert MatchFrom(r2, 4);
    w2 := Cut(r2, RegexSpace);
    var r3 := Skip(r2, RegexSpace);
    assert MatchFrom(r3, 5);
    y := Cut(r3, RangeChars);
    var r4 := Skip(r3, RangeChars);
    assert MatchFrom(r4, 6);
    w3 := Cut(r4, RegexSpace);
    var r5 := Skip(r4, RegexSpace);
    assert MatchFrom(r5, 7);
    rest := r5[2..];
    FencePrefix(r5);
    FencePrefix(line);
  }

  /** The matcher accepts exactly the lines that have a reading as a match. */
  lemma HeaderRegex(line: string)
    ensures MatchesHunkHeader(line) <==>
      exists w1, x, w2, y, w3, rest :: IsHeaderShape(line, w1, x, w2, y, w3, rest)
  {
    if MatchesHunkHeader(line) {
      var w1, x, w2, y, w3, rest := MatchedShape(line);
    }
    if exists w1, x, w2, y, w3, rest :: IsHeaderShape(line, w1, x, w2, y, w3, rest) {
      var w1, x, w2, y, w3, rest :| IsHeaderShape(line, w1, x, w2, y, w3, rest);
      ShapeMatches(line, w1, x, w2, y, w3, rest);
    }
  }

  // ---------------------------------------------------------------------------------------------
  // The loop of ParseHunks as a function

  /** The test of the loop's first `if`; unlike the current parser's, it needs no space. */
  predicate IsDiffLine(line: string) {
    HasPrefix(line, "diff --git")
  }

  /** The local variables of the loop. */
  datatype LegacyScan = LegacyScan(hunks: seq<Hunk>, currentFile: string, currentHunk: seq<string>, recording: bool)

  const Idle: LegacyScan := LegacyScan([], "", [], false)

  /**
   * The block that appends the pending hunk, used at a header line and after the loop: its path
   * is the current file, its header the first recorded line, its body all recorded lines.
   * Nothing is reset; at a header line the caller replaces `currentHunk` next.
   */
  function Emit(s: LegacyScan): LegacyScan
  {
    if |s.currentHunk| > 0 then
      s.(hunks := s.hunks + [Hunk(s.currentFile, s.currentHunk[0], Join(s.currentHunk, "\n"))])
    else s
  }

  /** One turn of the loop. */
  function Step(s: LegacyScan, line: string): LegacyScan
  {
    if IsDiffLine(line) then s.(currentFile := Hunks.ParseFilePath(line), recording := false)
    else if MatchesHunkHeader(line) then Emit(s).(currentHunk := [line], recording := true)
    else if s.recording then s.(currentHunk := s.currentHunk + [line])
    else s
  }

  function Steps(s: LegacyScan, lines: seq<string>): LegacyScan
    decreases |lines|
  {
    if lines == [] then s else Steps(Step(s, lines[0]), lines[1..])
  }

  /** The hunks ParseHunks returns for the given lines. */
  function Parse(lines: seq<string>): seq<Hunk>
  {
    Emit(Steps(Idle, lines)).hunks
  }

  // ---------------------------------------------------------------------------------------------
  // The loop of ParseHunks as a method

  /**
   * The loop of ParseHunks over the output of `git diff --cached --unified=3`, given as text;
   * `Parse` and the lemmas below say what the result is.
   */
  method ParseHunks(diff: string) returns (hunks: seq<Hunk>)
    ensures hunks == Parse(ScanLines(diff))
  {
    var lines := ScanLines(diff);
    hunks := [];
    var currentFile := "";
    var currentHunk: seq<string> := [];
    var recording := false;
    var i := 0;
    while i < |lines|
      invariant 0 <= i <= |lines|
      invariant Steps(LegacyScan(hunks, currentFile, currentHunk, recording), lines[i..]) == Steps(Idle, lines)
    {
      var line := lines[i];
      ghost var before := LegacyScan(hunks, currentFile, currentHunk, recording);
      assert lines[i..][0] == line && lines[i..][1..] == lines[i + 1..];
      if HasPrefix(line, "diff --git") {
        currentFile := Hunks.ParseFilePath(line);
        recording := false;
      } else if MatchesHunkHeader(line) {
        if |currentHunk| > 0 {
          hunks := hunks + [Hunk(currentFile, currentHunk[0], Join(currentHunk, "\n"))];
        }
        currentHunk := [line];
        recording := true;
      } else if recording {
        currentHunk := currentHunk + [line];
      }
      assert LegacyScan(hunks, currentFile, currentHunk, recording) == Step(before, line);
      i := i + 1;
    }
    if |currentHunk| > 0 {
      hunks := hunks + [Hunk(currentFile, currentHunk[0], Join(currentHunk, "\n"))];
    }
  }

  // ---------------------------------------------------------------------------------------------
  // The same result, hunk by hunk

  /** The index of the first header line, or `|lines|` if there is none. */
  function NextHeader(lines: seq<string>): (r: nat)
    ensures r <= |lines|
  {
    if lines == [] then 0 else if MatchesHunkHeader(lines[0]) then 0 else 1 + NextHeader(lines[1..])
  }

  /** No line of `lines` is a header line. */
  predicate NoHeaderLine(lines: seq<string>)
    decreases |lines|
  {
    lines == [] || (!MatchesHunkHeader(lines[0]) && NoHeaderLine(lines[1..]))
  }

  /** No line before `NextHeader(lines)` is a header line. */
  lemma {:induction false} NextHeaderSkips(lines: seq<string>)
    ensures NoHeaderLine(lines[..NextHeader(lines)])
  {
    var r := NextHeader(lines);
    if lines == [] || MatchesHunkHeader(lines[0]) {
      assert lines[..r] == [];
    } else {
      var more := lines[1..];
      assert r == 1 + NextHeader(more);
      NextHeaderSkips(more);
      var region := lines[..r];
      assert region[0] == lines[0] && region[1..] == more[..r - 1];
    }
  }

  /** The line at `NextHeader(lines)`, if there is one, is a header line. */
  lemma {:induction false} NextHeaderStops(lines: seq<string>)
    ensures NextHeader(lines) < |lines| ==> MatchesHunkHeader(lines[NextHeader(lines)])
  {
    var r := NextHeader(lines);
    if lines != [] && !MatchesHunkHeader(lines[0]) {
      var more := lines[1..];
      assert r == 1 + NextHeader(more);
      NextHeaderStops(more);
      if r < |lines| {
        assert lines[r] == more[r - 1];
      }
    }
  }

  /** The index of the first `diff --git` line, or `|lines|` if there is none. */
  function NextDiff(lines: seq<string>): (q: nat)
    ensures q <= |lines|
  {
    if lines == [] then 0 else if IsDiffLine(lines[0]) then 0 else 1 + NextDiff(lines[1..])
  }

  /** The path of the last `diff --git` line among `lines`, or `file` if there is none. */
  function LastFile(lines: seq<string>, file: string): string
  {
    if lines == [] then file
    else LastFile(lines[1..], if IsDiffLine(lines[0]) then Hunks.ParseFilePath(lines[0]) else file)
  }

  /**
   * The hunks of `lines` when no hunk has started yet and `file` is the current path: lines
   * before the first header line only move the current path.
   */
  function HunksFrom(lines: seq<string>, file: string): seq<Hunk>
    decreases |lines|
  {
    if lines == [] then []
    else if IsDiffLine(lines[0]) then HunksFrom(lines[1..], Hunks.ParseFilePath(lines[0]))
    else if MatchesHunkHeader(lines[0]) then FromHeader(lines[0], lines[1..], file)
    else HunksFrom(lines[1..], file)
  }

  /** The path in force when the stretch after a header line ends. */
  function StretchFile(rest: seq<string>, file: string): string
  {
    LastFile(rest[..NextHeader(rest)], file)
  }

  /**
   * The hunk of the header line `h`, followed by `rest`, with `file` the current path. It runs
   * up to the next header line (or the end); its body is `h` and the lines before the first
   * `diff --git` line of that stretch, and its path is the one in force at the stretch's END,
   * the last `diff --git` line in it if there is one.
   */
  function HunkOf(h: string, rest: seq<string>, file: string): Hunk
  {
    var region := rest[..NextHeader(rest)];
    Hunk(StretchFile(rest, file), h, Join([h] + region[..NextDiff(region)], "\n"))
  }

  /** The hunks from the header line `h` on, followed by `rest`, with `file` the current path. */
  function FromHeader(h: string, rest: seq<string>, file: string): seq<Hunk>
    decreases |rest|
  {
    var r := NextHeader(rest);
    [HunkOf(h, rest, file)] + (if r < |rest| then FromHeader(rest[r], rest[r + 1..], StretchFile(rest, file)) else [])
  }

  lemma {:induction false} StepsAppend(s: LegacyScan, a: seq<string>, b: seq<string>)
    ensures Steps(s, a + b) == Steps(Steps(s, a), b)
    decreases |a|
  {
    if a == [] {
      assert a + b == b;
    } else {
      assert (a + b)[0] == a[0] && (a + b)[1..] == a[1..] + b;
      StepsAppend(Step(s, a[0]), a[1..], b);
    }
  }

  lemma HeaderIsNoDiffLine(line: string)
    requires MatchesHunkHeader(line)
    ensures !IsDiffLine(line)
  {
    assert line[0] == '@';
    assert "diff --git"[0] == 'd';
  }

  /**
   * Between header lines, the loop only moves the current path and, until the first
   * `diff --git` line, records.
   */
  lemma {:induction false} RecordRegion(s: LegacyScan, region: seq<string>)
    requires NoHeaderLine(region)
    decreases |region|
    ensures Steps(s, region) ==
      s.(currentFile := LastFile(region, s.currentFile),
         currentHunk := s.currentHunk + (if s.recording then region[..NextDiff(region)] else []),
         recording := s.recording && NextDiff(region) == |region|)
  {
    if region == [] {
      assert s.currentHunk + [] == s.currentHunk;
    } else {
      var x, more := region[0], region[1..];
      var n := NextDiff(more);
      assert !MatchesHunkHeader(x);
      if IsDiffLine(x) {
        var s1 := s.(currentFile := Hunks.ParseFilePath(x), recording := false);
        RecordRegion(s1, more);
        assert s.currentHunk + [] == s.currentHunk;
      } else if s.recording {
        var s1 := s.(currentHunk := s.currentHunk + [x]);
        RecordRegion(s1, more);
        assert region[..n + 1] == [x] + more[..n];
        assert s.currentHunk + [x] + more[..n] == s.currentHunk + ([x] + more[..n]);
      } else {
        RecordRegion(s, more);
      }
    }
  }

  /**
   * The state the loop reaches from the one right after a header line, having read the lines up
   * to the next header line.
   */
  function Settled(s: LegacyScan, rest: seq<string>): LegacyScan
  {
    var region := rest[..NextHeader(rest)];
    s.(currentFile := LastFile(region, s.currentFile),
       currentHunk := s.currentHunk + region[..NextDiff(region)],
       recording := NextDiff(region) == |region|)
  }

  lemma SettledScan(s: LegacyScan, rest: seq<string>)
    requires s.recording
    ensures Steps(s, rest) == Steps(Settled(s, rest), rest[NextHeader(rest)..])
  {
    var r := NextHeader(rest);
    assert rest == rest[..r] + rest[r..];
    StepsAppend(s, rest[..r], rest[r..]);
    NextHeaderSkips(rest);
    RecordRegion(s, rest[..r]);
  }

  /** At a header line the pending hunk is emitted and a new one started. */
  lemma HeaderStep(s: LegacyScan, lines: seq<string>, r: nat)
    requires r < |lines| && MatchesHunkHeader(lines[r])
    ensures Steps(s, lines[r..]) == Steps(Emit(s).(currentHunk := [lines[r]], recording := true), lines[r + 1..])
  {
    var tail := lines[r..];
    assert tail[0] == lines[r] && tail[1..] == lines[r + 1..];
    HeaderIsNoDiffLine(lines[r]);
  }

  /** Reading the stretch after a header line up to its end emits the header's hunk. */
  lemma SettledEmit(s: LegacyScan, rest: seq<string>)
    requires |s.currentHunk| == 1 && s.recording
    ensures Emit(Settled(s, rest)).hunks == s.hunks + [HunkOf(s.currentHunk[0], rest, s.currentFile)]
    ensures Emit(Settled(s, rest)).currentFile == StretchFile(rest, s.currentFile)
  {
    var h := s.currentHunk[0];
    var region := rest[..NextHeader(rest)];
    assert s.currentHunk == [h];
    assert (s.currentHunk + region[..NextDiff(region)])[0] == h;
  }

  /** The state right after the next header line, from the state right after a header line. */
  function NextStart(s: LegacyScan, rest: seq<string>): LegacyScan
    requires NextHeader(rest) < |rest|
  {
    Emit(Settled(s, rest)).(currentHunk := [rest[NextHeader(rest)]], recording := true)
  }

  /** Reading the stretch after a header line and the next header line. */
  lemma NextHunkScan(s: LegacyScan, rest: seq<string>)
    requires s.recording
    requires NextHeader(rest) < |rest|
    ensures Steps(s, rest) == Steps(NextStart(s, rest), rest[NextHeader(rest) + 1..])
  {
    var r := NextHeader(rest);
    var t := Settled(s, rest);
    var n := NextStart(s, rest);
    assert Steps(s, rest) == Steps(t, rest[r..]) by {
      SettledScan(s, rest);
    }
    assert Steps(t, rest[r..]) == Steps(n, rest[r + 1..]) by {
      NextHeaderStops(rest);
      HeaderStep(t, rest, r);
      assert n == Emit(t).(currentHunk := [rest[r]], recording := true);
    }
  }

  /** The state after the next header line holds the header's hunk. */
  lemma NextStartHunk(s: LegacyScan, rest: seq<string>)
    requires |s.currentHunk| == 1 && s.recording
    requires NextHeader(rest) < |rest|
    ensures NextStart(s, rest).hunks == s.hunks + [HunkOf(s.currentHunk[0], rest, s.currentFile)]
    ensures NextStart(s, rest).currentFile == StretchFile(rest, s.currentFile)
  {
    SettledEmit(s, rest);
  }

  lemma FromHeaderNext(h: string, rest: seq<string>, file: string)
    requires NextHeader(rest) < |rest|
    ensures var r := NextHeader(rest);
      FromHeader(h, rest, file) == [HunkOf(h, rest, file)] + FromHeader(rest[r], rest[r + 1..], StretchFile(rest, file))
  {
  }

  lemma FromHeaderLast(h: string, rest: seq<string>, file: string)
    requires NextHeader(rest) == |rest|
    ensures FromHeader(h, rest, file) == [HunkOf(h, rest, file)]
  {
    assert [HunkOf(h, rest, file)] + [] == [HunkOf(h, rest, file)];
  }

  /** With no header line left, the loop emits the pending hunk and nothing else. */
  lemma LastHunkScan(s: LegacyScan, rest: seq<string>)
    requires |s.currentHunk| == 1 && s.recording
    requires NextHeader(rest) == |rest|
    ensures Emit(Steps(s, rest)).hunks == s.hunks + FromHeader(s.currentHunk[0], rest, s.currentFile)
  {
    var hunk := HunkOf(s.currentHunk[0], rest, s.currentFile);
    assert Steps(s, rest) == Settled(s, rest) by {
      SettledScan(s, rest);
      assert rest[NextHeader(rest)..] == [];
    }
    SettledEmit(s, rest);
    assert FromHeader(s.currentHunk[0], rest, s.currentFile) == [hunk] + [];
  }

  /** From the state right after a header line, the loop emits exactly `FromHeader`. */
  lemma {:induction false} HeaderScan(s: LegacyScan, rest: seq<string>)
    requires |s.currentHunk| == 1 && s.recording
    ensures Emit(Steps(s, rest)).hunks == s.hunks + FromHeader(s.currentHunk[0], rest, s.currentFile)
    decreases |rest|, 1
  {
    if NextHeader(rest) == |rest| {
      LastHunkScan(s, rest);
    } else {
      MoreHunksScan(s, rest);
    }
  }

  /** `HeaderScan` when another header line follows. */
  lemma {:induction false} MoreHunksScan(s: LegacyScan, rest: seq<string>)
    requires |s.currentHunk| == 1 && s.recording
    requires NextHeader(rest) < |rest|
    ensures Emit(Steps(s, rest)).hunks == s.hunks + FromHeader(s.currentHunk[0], rest, s.currentFile)
    decreases |rest|, 0
  {
    var r := NextHeader(rest);
    var h, file := s.currentHunk[0], s.currentFile;
    var hunk := HunkOf(h, rest, file);
    var n := NextStart(s, rest);
    var next := FromHeader(rest[r], rest[r + 1..], StretchFile(rest, file));
    var emitted := Emit(Steps(s, rest)).hunks;
    assert emitted == n.hunks + next by {
      NextHunkScan(s, rest);
      NextStartHunk(s, rest);
      assert n.currentHunk == [rest[r]];
      HeaderScan(n, rest[r + 1..]);
    }
    assert n.hunks == s.hunks + [hunk] by {
      NextStartHunk(s, rest);
    }
    assert FromHeader(h, rest, file) == [hunk] + next by {
      FromHeaderNext(h, rest, file);
    }
    SplicedHunk(emitted, n.hunks, s.hunks, hunk, next, FromHeader(h, rest, file));
  }

  lemma SplicedHunk(emitted: seq<Hunk>, before: seq<Hunk>, done: seq<Hunk>, hunk: Hunk, next: seq<Hunk>, all: seq<Hunk>)
    requires emitted == before + next && before == done + [hunk] && all == [hunk] + next
    ensures emitted == done + all
  {
  }

  lemma SeqAssoc<T>(a: seq<T>, b: seq<T>, c: seq<T>)
    ensures a + b + c == a + (b + c)
  {
  }

  /** From a state with no hunk started, the loop emits exactly `HunksFrom`. */
  lemma {:induction false} IdleScan(s: LegacyScan, lines: seq<string>)
    requires s.currentHunk == [] && !s.recording
    ensures Emit(Steps(s, lines)).hunks == s.hunks + HunksFrom(lines, s.currentFile)
    decreases |lines|
  {
    if lines == [] {
      assert s.hunks + [] == s.hunks;
    } else {
      var line, rest := lines[0], lines[1..];
      if IsDiffLine(line) {
        IdleScan(s.(currentFile := Hunks.ParseFilePath(line)), rest);
      } else if MatchesHunkHeader(line) {
        HeaderScan(s.(currentHunk := [line], recording := true), rest);
      } else {
        IdleScan(s, rest);
      }
    }
  }

  /** The loop and the hunk-by-hunk description agree on every input. */
  lemma ParseIsHunksFrom(lines: seq<string>)
    ensures Parse(lines) == HunksFrom(lines, "")
  {
    IdleScan(Idle, lines);
  }

  // ---------------------------------------------------------------------------------------------
  // Which hunks there are

  /** The header lines among `lines`, in order. */
  function HeaderLines(lines: seq<string>): seq<string>
  {
    if lines == [] then []
    else (if MatchesHunkHeader(lines[0]) then [lines[0]] else []) + HeaderLines(lines[1..])
  }

  /** The `Header` of every hunk, in order. */
  function HeadersOf(hunks: seq<Hunk>): (headers: seq<string>)
    ensures |headers| == |hunks|
  {
    if hunks == [] then [] else [hunks[0].header] + HeadersOf(hunks[1..])
  }

  lemma HeadersOfCons(h: Hunk, hunks: seq<Hunk>)
    ensures HeadersOf([h] + hunks) == [h.header] + HeadersOf(hunks)
  {
    assert ([h] + hunks)[1..] == hunks;
  }

  lemma {:induction false} HeaderLinesFromNext(rest: seq<string>)
    ensures HeaderLines(rest) == HeaderLines(rest[NextHeader(rest)..])
  {
    if rest != [] && !MatchesHunkHeader(rest[0]) {
      HeaderLinesFromNext(rest[1..]);
      assert rest[NextHeader(rest)..] == rest[1..][NextHeader(rest[1..])..];
      assert HeaderLines(rest) == [] + HeaderLines(rest[1..]);
    }
  }

  lemma {:induction false} FromHeaderHeaders(h: string, rest: seq<string>, file: string)
    ensures HeadersOf(FromHeader(h, rest, file)) == [h] + HeaderLines(rest)
    decreases |rest|
  {
    var r := NextHeader(rest);
    HeaderLinesFromNext(rest);
    if r == |rest| {
      FromHeaderLast(h, rest, file);
      assert rest[r..] == [];
      HeadersOfCons(HunkOf(h, rest, file), []);
    } else {
      var tail := rest[r..];
      NextHeaderStops(rest);
      assert tail[0] == rest[r] && tail[1..] == rest[r + 1..];
      assert HeaderLines(tail) == [rest[r]] + HeaderLines(rest[r + 1..]);
      FromHeaderNext(h, rest, file);
      var f := StretchFile(rest, file);
      FromHeaderHeaders(rest[r], rest[r + 1..], f);
      HeadersOfCons(HunkOf(h, rest, file), FromHeader(rest[r], rest[r + 1..], f));
    }
  }

  lemma {:induction false} HunksFromHeaders(lines: seq<string>, file: string)
    ensures HeadersOf(HunksFrom(lines, file)) == HeaderLines(lines)
    decreases |lines|
  {
    if lines != [] {
      var line, rest := lines[0], lines[1..];
      if IsDiffLine(line) {
        HunksFromHeaders(rest, Hunks.ParseFilePath(line));
        assert !MatchesHunkHeader(line) by {
          if MatchesHunkHeader(line) {
            HeaderIsNoDiffLine(line);
          }
        }
      } else if MatchesHunkHeader(line) {
        FromHeaderHeaders(line, rest, file);
      } else {
        HunksFromHeaders(rest, file);
      }
    }
  }

  /**
   * The hunks come in input order, one per line that matches the header expression, each with
   * that line as its `Header`; so input without such a line, the empty input included, gives
   * no hunks.
   */
  lemma ParseHeaders(lines: seq<string>)
    ensures HeadersOf(Parse(lines)) == HeaderLines(lines)
    ensures |Parse(lines)| == |HeaderLines(lines)|
  {
    ParseIsHunksFrom(lines);
    HunksFromHeaders(lines, "");
  }

  // ---------------------------------------------------------------------------------------------
  // Which path each hunk gets, and the corrected loop

  /**
   * The loop with the pending hunk emitted at a `diff --git` line as well, before the current
   * path changes; everything else as in `Step`.
   */
  function FixedStep(s: LegacyScan, line: string): LegacyScan
  {
    if IsDiffLine(line) then
      Emit(s).(currentFile := Hunks.ParseFilePath(line), currentHunk := [], recording := false)
    else Step(s, line)
  }

  function FixedSteps(s: LegacyScan, lines: seq<string>): LegacyScan
    decreases |lines|
  {
    if lines == [] then s else FixedSteps(FixedStep(s, lines[0]), lines[1..])
  }

  /** The hunks of the corrected loop. */
  function FixedParse(lines: seq<string>): seq<Hunk>
  {
    Emit(FixedSteps(Idle, lines)).hunks
  }

  /**
   * For every header line, in order: the path of the last `diff --git` line before it (`file`
   * if there is none) and the line itself.
   */
  function OwnTags(lines: seq<string>, file: string): seq<(string, string)>
  {
    if lines == [] then []
    else if IsDiffLine(lines[0]) then OwnTags(lines[1..], Hunks.ParseFilePath(lines[0]))
    else if MatchesHunkHeader(lines[0]) then [(file, lines[0])] + OwnTags(lines[1..], file)
    else OwnTags(lines[1..], file)
  }

  /** The (path, header) pair of the pending hunk, if there is one. */
  function PendingTag(s: LegacyScan): seq<(string, string)>
  {
    if |s.currentHunk| > 0 then [(s.currentFile, s.currentHunk[0])] else []
  }

  lemma EmitTags(s: LegacyScan)
    ensures Hunks.TagsOf(Emit(s).hunks) == Hunks.TagsOf(s.hunks) + PendingTag(s)
  {
    if |s.currentHunk| > 0 {
      var h := Hunk(s.currentFile, s.currentHunk[0], Join(s.currentHunk, "\n"));
      Hunks.TagsOfAppend(s.hunks, [h]);
      Hunks.TagsOfCons(h, []);
    } else {
      assert Hunks.TagsOf(s.hunks) + [] == Hunks.TagsOf(s.hunks);
    }
  }

  /** The tags `FixedParse` promises for the rest of the input, from the loop state `s` on. */
  function Expected(s: LegacyScan, lines: seq<string>): seq<(string, string)>
  {
    Hunks.TagsOf(s.hunks) + PendingTag(s) + OwnTags(lines, s.currentFile)
  }

  lemma FixedDiffLineTags(s: LegacyScan, line: string, rest: seq<string>)
    requires IsDiffLine(line)
    ensures Expected(FixedStep(s, line), rest) == Expected(s, [line] + rest)
  {
    var s1 := FixedStep(s, line);
    assert s1 == Emit(s).(currentFile := Hunks.ParseFilePath(line), currentHunk := [], recording := false);
    EmitTags(s);
    assert ([line] + rest)[0] == line && ([line] + rest)[1..] == rest;
    assert OwnTags([line] + rest, s.currentFile) == OwnTags(rest, s1.currentFile);
  }

  lemma FixedHeaderTags(s: LegacyScan, line: string, rest: seq<string>)
    requires !IsDiffLine(line) && MatchesHunkHeader(line)
    ensures Expected(FixedStep(s, line), rest) == Expected(s, [line] + rest)
  {
    var s1 := FixedStep(s, line);
    var t := Hunks.TagsOf(s.hunks);
    var file := s.currentFile;
    assert s1 == Emit(s).(currentHunk := [line], recording := true);
    EmitTags(s);
    assert PendingTag(s1) == [(file, line)];
    assert ([line] + rest)[0] == line && ([line] + rest)[1..] == rest;
    assert OwnTags([line] + rest, file) == [(file, line)] + OwnTags(rest, file);
    SeqAssoc(t + PendingTag(s), [(file, line)], OwnTags(rest, file));
  }

  lemma FixedOtherTags(s: LegacyScan, line: string, rest: seq<string>)
    requires s.recording ==> s.currentHunk != []
    requires !IsDiffLine(line) && !MatchesHunkHeader(line)
    ensures Expected(FixedStep(s, line), rest) == Expected(s, [line] + rest)
  {
    var s1 := FixedStep(s, line);
    assert s1 == if s.recording then s.(currentHunk := s.currentHunk + [line]) else s;
    assert PendingTag(s1) == PendingTag(s);
    assert ([line] + rest)[0] == line && ([line] + rest)[1..] == rest;
    assert OwnTags([line] + rest, s.currentFile) == OwnTags(rest, s.currentFile);
  }

  lemma {:induction false} FixedScanTags(s: LegacyScan, lines: seq<string>)
    requires s.recording ==> s.currentHunk != []
    ensures Hunks.TagsOf(Emit(FixedSteps(s, lines)).hunks) == Expected(s, lines)
    decreases |lines|
  {
    if lines == [] {
      EmitTags(s);
      assert Expected(s, lines) == Hunks.TagsOf(s.hunks) + PendingTag(s) + [];
    } else {
      var line, rest := lines[0], lines[1..];
      assert lines == [line] + rest;
      var s1 := FixedStep(s, line);
      assert FixedSteps(s, lines) == FixedSteps(s1, rest);
      if IsDiffLine(line) {
        FixedDiffLineTags(s, line, rest);
      } else if MatchesHunkHeader(line) {
        FixedHeaderTags(s, line, rest);
      } else {
        FixedOtherTags(s, line, rest);
      }
      assert s1.recording ==> s1.currentHunk != [];
      FixedScanTags(s1, rest);
    }
  }

  /**
   * The corrected loop tags every hunk with its own file: hunk `k` has the `k`-th header line
   * as its `Header` and the path of the last `diff --git` line before that header as its path.
   */
  lemma FixedParseTags(lines: seq<string>)
    ensures Hunks.TagsOf(FixedParse(lines)) == OwnTags(lines, "")
  {
    FixedScanTags(Idle, lines);
    assert Expected(Idle, lines) == Hunks.TagsOf([]) + [] + OwnTags(lines, "");
  }

  // ---------------------------------------------------------------------------------------------
  // A two-file diff

  /** The `diff --git` line git writes for a file at `path`. */
  function DiffLine(path: string): string
  {
    "diff --git a/" + path + " b/" + path
  }

  lemma DiffLineFacts(path: string)
    requires NoSpace(path)
    ensures IsDiffLine(DiffLine(path)) && !MatchesHunkHeader(DiffLine(path))
    ensures Hunks.ParseFilePath(DiffLine(path)) == path
  {
    var d := DiffLine(path);
    Hunks.DiffLinePath(path);
    assert d == "diff --git" + (" a/" + path + " b/" + path);
    assert d[..10] == "diff --git";
    assert d[0] == 'd';
  }

  lemma StepsOfFour(s: LegacyScan, a: string, b: string, c: string, d: string)
    ensures Steps(s, [a, b, c, d]) == Step(Step(Step(Step(s, a), b), c), d)
  {
    var s1 := Step(s, a);
    var s2 := Step(s1, b);
    var s3 := Step(s2, c);
    assert [a, b, c, d][1..] == [b, c, d] && [b, c, d][1..] == [c, d] && [c, d][1..] == [d] && [d][1..] == [];
    assert Steps(s3, [d]) == Step(s3, d);
    assert Steps(s2, [c, d]) == Steps(s3, [d]);
    assert Steps(s1, [b, c, d]) == Steps(s2, [c, d]);
  }

  /**
   * The loop as written tags the first file's hunk with the SECOND file's path: the hunk is
   * still pending when the second `diff --git` line changes the current path.
   */
  lemma TwoFilesOnePath(x: string, y: string, h: string)
    requires NoSpace(x) && NoSpace(y) && MatchesHunkHeader(h)
    ensures var lines := [DiffLine(x), h, DiffLine(y), h];
      Parse(lines) == [Hunk(y, h, h), Hunk(y, h, h)]
  {
    var dx, dy := DiffLine(x), DiffLine(y);
    var lines := [dx, h, dy, h];
    DiffLineFacts(x);
    DiffLineFacts(y);
    HeaderIsNoDiffLine(h);
    var s1 := Idle.(currentFile := x);
    var s2 := s1.(currentHunk := [h], recording := true);
    var s3 := s2.(currentFile := y, recording := false);
    var s4 := Emit(s3).(currentHunk := [h], recording := true);
    assert Step(Idle, dx) == s1;
    assert Step(s1, h) == s2;
    assert Step(s2, dy) == s3;
    assert Step(s3, h) == s4;
    StepsOfFour(Idle, dx, h, dy, h);
    assert Join([h], "\n") == h;
    assert Emit(s3).hunks == [Hunk(y, h, h)];
    assert Emit(s4).hunks == [Hunk(y, h, h), Hunk(y, h, h)];
  }

  /** The corrected loop tags the same two hunks with their own paths. */
  lemma TwoFilesOwnPaths(x: string, y: string, h: string)
    requires NoSpace(x) && NoSpace(y) && MatchesHunkHeader(h)
    ensures var lines := [DiffLine(x), h, DiffLine(y), h];
      Hunks.TagsOf(FixedParse(lines)) == [(x, h), (y, h)]
  {
    var dx, dy := DiffLine(x), DiffLine(y);
    var lines := [dx, h, dy, h];
    DiffLineFacts(x);
    DiffLineFacts(y);
    HeaderIsNoDiffLine(h);
    FixedParseTags(lines);
    assert lines[1..] == [h, dy, h] && [h, dy, h][1..] == [dy, h] && [dy, h][1..] == [h] && [h][1..] == [];
    assert OwnTags([], y) == [];
    assert OwnTags([h], y) == [(y, h)];
    assert OwnTags([dy, h], x) == [(y, h)];
    assert OwnTags([h, dy, h], x) == [(x, h)] + [(y, h)];
    assert OwnTags(lines, "") == [(x, h), (y, h)];
  }

  /**
   * `@@ -1 +1 @@`, the header of a one-line change, is a header line, so `TwoFilesOnePath`
   * applies to `x.go` and `y.go` with one such hunk each.
   */
  lemma OneLineHeader()
    ensures MatchesHunkHeader("@@ -1 +1 @@")
  {
    var sp, x, y := " ", "-1", "+1";
    assert Every(sp, RegexSpace) by {
      assert sp[1..] == [];
    }
    assert Every(x, RangeChars) by {
      assert x[1..] == "1" && "1"[1..] == [];
    }
    assert Every(y, RangeChars) by {
      assert y[1..] == "1" && "1"[1..] == [];
    }
    assert "@@ -1 +1 @@" == "@@" + (sp + (x + (sp + (y + (sp + ("@@" + ""))))));
    ShapeMatches("@@ -1 +1 @@", sp, x, sp, y, sp, "");
  }
}
