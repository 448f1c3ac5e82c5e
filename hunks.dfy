/**
 * The current hunk parser (internal/git/hunk.go): a line-driven state machine over the output
 * of `git diff --cached --unified=3` that cuts it into hunks, copying each file's header block
 * (the `diff --git` line and the metadata lines after it) in front of every hunk of that file.
 *
 * `AfterLine` is one turn of the scanner loop and `AfterFlush` the `flush` closure; `Parse`
 * runs them over the lines and is what `ParseHunksFromDiff` computes. `HunksFrom` describes the
 * same result a second way, hunk by hunk, and `ParseIsHunksFrom` proves the two agree.
 */
module Hunks {
  import opened Strings
  import opened Diff

  // ---------------------------------------------------------------------------------------------
  // Line kinds

  datatype LineKind = FileStart | FileMeta | HunkStart | Content

  /**
   * What the `switch` of parseHunksFromDiff makes of a line, testing the prefixes in its order:
   * `diff --git ` starts a file; `index `, `--- `, `+++ `, `new file`, `deleted file`,
   * `old mode` and `new mode` go to the file's header block, even inside a hunk; `@@ ` starts a
   * hunk; anything else is hunk content.
   */
  function KindOf(line: string): LineKind
  {
    if HasPrefix(line, "diff --git ") then FileStart
    else if HasPrefix(line, "index ") || HasPrefix(line, "--- ") || HasPrefix(line, "+++ ") ||
            HasPrefix(line, "new file") || HasPrefix(line, "deleted file") ||
            HasPrefix(line, "old mode") || HasPrefix(line, "new mode") then FileMeta
    else if HasPrefix(line, "@@ ") then HunkStart
    else Content
  }

  /** Lines at which `flush` is called before anything else happens. */
  predicate IsBoundary(line: string) {
    KindOf(line) == FileStart || KindOf(line) == HunkStart
  }

  /**
   * `parseFilePath`: the fourth white-space separated field of a `diff --git` line with one
   * leading `b/` removed, or "" when the line has fewer than four fields.
   */
  function ParseFilePath(line: string): (path: string)
    ensures NoSpace(path)
  {
    var parts := Fields(line);
    FieldsAreWords(line);
    if |parts| < 4 then "" else TrimPrefix(parts[3], "b/")
  }

  lemma JoinFour(a: string, b: string, c: string, d: string)
    ensures Join([a, b, c, d], " ") == a + " " + b + " " + c + " " + d
  {
    JoinCons(a, [b, c, d], " ");
    assert [a, b, c, d][1..] == [b, c, d];
    JoinCons(b, [c, d], " ");
    assert [b, c, d][1..] == [c, d];
    JoinCons(c, [d], " ");
    assert [c, d][1..] == [d];
  }

  /** The path git writes into a `diff --git a/P b/P` line is the path parsed back from it. */
  lemma DiffLinePath(path: string)
    requires NoSpace(path)
    ensures ParseFilePath("diff --git a/" + path + " b/" + path) == path
  {
    var a, b := "a/" + path, "b/" + path;
    assert NoSpace(a) && NoSpace(b);
    JoinFour("diff", "--git", a, b);
    assert "diff --git a/" + path + " b/" + path == "diff" + " " + "--git" + " " + a + " " + b;
    FieldsOfJoin(["diff", "--git", a, b]);
    assert b[..2] == "b/" && b[2..] == path;
  }

  // ---------------------------------------------------------------------------------------------
  // The scanner loop as a function

  /** The local variables of parseHunksFromDiff. */
  datatype Scan = Scan(hunks: seq<Hunk>, currentFile: string, fileHeader: seq<string>,
                       hunkLines: seq<string>, hunkHeader: string)

  const Start: Scan := Scan([], "", [], [], "")

  /** The `flush` closure: emit the pending hunk, if there is one, and forget it. */
  function AfterFlush(s: Scan): Scan
  {
    if s.hunkHeader == "" || |s.hunkLines| == 0 then s
    else
      var body := Join(s.fileHeader + s.hunkLines, "\n");
      s.(hunks := s.hunks + [Hunk(s.currentFile, s.hunkHeader, body)], hunkLines := [], hunkHeader := "")
  }

  /** One turn of the scanner loop. */
  function AfterLine(s: Scan, line: string): Scan
  {
    match KindOf(line)
    case FileStart =>
      AfterFlush(s).(currentFile := ParseFilePath(line), fileHeader := [line], hunkHeader := "")
    case FileMeta => s.(fileHeader := s.fileHeader + [line])
    case HunkStart => AfterFlush(s).(hunkHeader := line, hunkLines := [line])
    case Content => if s.hunkHeader != "" then s.(hunkLines := s.hunkLines + [line]) else s
  }

  function AfterLines(s: Scan, lines: seq<string>): Scan
    decreases |lines|
  {
    if lines == [] then s else AfterLines(AfterLine(s, lines[0]), lines[1..])
  }

  /** The hunks parseHunksFromDiff returns for the given lines. */
  function Parse(lines: seq<string>): seq<Hunk>
  {
    AfterFlush(AfterLines(Start, lines)).hunks
  }

  // ---------------------------------------------------------------------------------------------
  // The scanner loop as a method

  /** The state parseHunksFromDiff keeps across lines; `Flush` is its `flush` closure. */
  class Scanner {
    var hunks: seq<Hunk>
    var currentFile: string
    var fileHeader: seq<string>
    var hunkLines: seq<string>
    var hunkHeader: string

    function State(): Scan
      reads this
    {
      Scan(hunks, currentFile, fileHeader, hunkLines, hunkHeader)
    }

    constructor ()
      ensures State() == Start
    {
      hunks, currentFile, fileHeader, hunkLines, hunkHeader := [], "", [], [], "";
    }

    method Flush()
      modifies this
      ensures State() == AfterFlush(old(State()))
    {
      if hunkHeader == "" || |hunkLines| == 0 {
        return;
      }
      var body := Join(fileHeader + hunkLines, "\n");
      hunks := hunks + [Hunk(currentFile, hunkHeader, body)];
      hunkLines := [];
      hunkHeader := "";
    }

    /** One turn of the scanning loop: the `switch` on the line's prefix. */
    method Step(line: string)
      modifies this
      ensures State() == AfterLine(old(State()), line)
    {
      if HasPrefix(line, "diff --git ") {
        Flush();
        currentFile := ParseFilePath(line);
        fileHeader := [line];
        hunkHeader := "";
      } else if HasPrefix(line, "index ") || HasPrefix(line, "--- ") || HasPrefix(line, "+++ ") ||
                HasPrefix(line, "new file") || HasPrefix(line, "deleted file") ||
                HasPrefix(line, "old mode") || HasPrefix(line, "new mode") {
        fileHeader := fileHeader + [line];
      } else if HasPrefix(line, "@@ ") {
        Flush();
        hunkHeader := line;
        hunkLines := [line];
      } else if hunkHeader != "" {
        hunkLines := hunkLines + [line];
      }
    }
  }

  /**
   * parseHunksFromDiff: scans the diff text line by line; `Parse` and the lemmas below say what
   * the result is.
   */
  method ParseHunksFromDiff(diff: string) returns (hunks: seq<Hunk>)
    ensures hunks == Parse(ScanLines(diff))
    ensures diff == "" ==> hunks == []
  {
    var lines := ScanLines(diff);
    var sc := new Scanner();
    var i := 0;
    while i < |lines|
      invariant 0 <= i <= |lines|
      invariant AfterLines(sc.State(), lines[i..]) == AfterLines(Start, lines)
    {
      assert lines[i..][0] == lines[i] && lines[i..][1..] == lines[i + 1..];
      sc.Step(lines[i]);
      i := i + 1;
    }
    sc.Flush();
    hunks := sc.hunks;
  }

  // ---------------------------------------------------------------------------------------------
  // The same result, hunk by hunk

  /** The index of the first line that starts a file or a hunk, or `|lines|` if there is none. */
  function NextBoundary(lines: seq<string>): (q: nat)
    ensures q <= |lines|
    ensures forall k :: 0 <= k < q ==> !IsBoundary(lines[k])
    ensures q < |lines| ==> IsBoundary(lines[q])
  {
    if lines == [] then 0 else if IsBoundary(lines[0]) then 0 else 1 + NextBoundary(lines[1..])
  }

  /** The metadata lines among `lines`, in order. */
  function MetaLines(lines: seq<string>): seq<string>
  {
    if lines == [] then []
    else (if KindOf(lines[0]) == FileMeta then [lines[0]] else []) + MetaLines(lines[1..])
  }

  /** The other lines among `lines`, in order. */
  function ContentLines(lines: seq<string>): seq<string>
  {
    if lines == [] then []
    else (if KindOf(lines[0]) == FileMeta then [] else [lines[0]]) + ContentLines(lines[1..])
  }

  /** `MetaLines` and `ContentLines` pick lines of `lines` by kind. */
  lemma {:induction false} PickedLines(lines: seq<string>)
    ensures forall x :: x in MetaLines(lines) ==> x in lines && KindOf(x) == FileMeta
    ensures forall x :: x in ContentLines(lines) ==> x in lines && KindOf(x) != FileMeta
  {
    if lines != [] {
      PickedLines(lines[1..]);
    }
  }

  /**
   * The hunks of `lines`, given the path and the header block of the file in force. A `@@ `
   * line opens a hunk whose region runs up to the next line that starts a file or a hunk. The
   * hunk's body lines are the file's header block, the metadata lines of the region, the `@@ `
   * line and the region's other lines. Content lines outside every region are dropped.
   */
  function HunksFrom(lines: seq<string>, file: string, fileHeader: seq<string>): seq<Hunk>
    decreases |lines|
  {
    if lines == [] then []
    else
      var line, rest := lines[0], lines[1..];
      match KindOf(line)
      case FileStart => HunksFrom(rest, ParseFilePath(line), [line])
      case FileMeta => HunksFrom(rest, file, fileHeader + [line])
      case HunkStart =>
        var q := NextBoundary(rest);
        var header := fileHeader + MetaLines(rest[..q]);
        var body := Join(header + [line] + ContentLines(rest[..q]), "\n");
        [Hunk(file, line, body)] + HunksFrom(rest[q..], file, header)
      case Content => HunksFrom(rest, file, fileHeader)
  }

  lemma {:induction false} AfterLinesAppend(s: Scan, a: seq<string>, b: seq<string>)
    ensures AfterLines(s, a + b) == AfterLines(AfterLines(s, a), b)
    decreases |a|
  {
    if a == [] {
      assert a + b == b;
    } else {
      assert (a + b)[0] == a[0] && (a + b)[1..] == a[1..] + b;
      AfterLinesAppend(AfterLine(s, a[0]), a[1..], b);
    }
  }

  /** Inside a hunk's region, lines only add to the header block or to the hunk. */
  lemma {:induction false} RegionLines(s: Scan, region: seq<string>)
    requires s.hunkHeader != ""
    requires forall k :: 0 <= k < |region| ==> !IsBoundary(region[k])
    ensures AfterLines(s, region) ==
      s.(fileHeader := s.fileHeader + MetaLines(region), hunkLines := s.hunkLines + ContentLines(region))
    decreases |region|
  {
    if region == [] {
      assert s.fileHeader + [] == s.fileHeader && s.hunkLines + [] == s.hunkLines;
    } else {
      var x, more := region[0], region[1..];
      assert !IsBoundary(x);
      if KindOf(x) == FileMeta {
        var s1 := s.(fileHeader := s.fileHeader + [x]);
        assert AfterLines(s, region) == AfterLines(s1, more);
        RegionLines(s1, more);
        assert MetaLines(region) == [x] + MetaLines(more);
        assert s.fileHeader + [x] + MetaLines(more) == s.fileHeader + ([x] + MetaLines(more));
      } else {
        var s1 := s.(hunkLines := s.hunkLines + [x]);
        assert AfterLines(s, region) == AfterLines(s1, more);
        RegionLines(s1, more);
        assert ContentLines(region) == [x] + ContentLines(more);
        assert s.hunkLines + [x] + ContentLines(more) == s.hunkLines + ([x] + ContentLines(more));
      }
    }
  }

  lemma FlushTwice(s: Scan)
    ensures AfterFlush(AfterFlush(s)) == AfterFlush(s)
  {
  }

  /** Before a boundary line or the end of input, flushing early changes nothing. */
  lemma FlushFirst(s: Scan, rest: seq<string>)
    requires rest == [] || IsBoundary(rest[0])
    ensures AfterFlush(AfterLines(s, rest)) == AfterFlush(AfterLines(AfterFlush(s), rest))
  {
    FlushTwice(s);
    if rest != [] {
      assert AfterLine(s, rest[0]) == AfterLine(AfterFlush(s), rest[0]);
    }
  }

  /**
   * From a state with no pending hunk, a `@@ ` line and its region leave, once flushed, a state
   * with no pending hunk that has emitted the region's hunk and extended the header block.
   */
  lemma HunkStartScan(s: Scan, line: string, rest: seq<string>)
    requires s.hunkHeader == "" && s.hunkLines == []
    requires KindOf(line) == HunkStart
    ensures var q := NextBoundary(rest);
      var header := s.fileHeader + MetaLines(rest[..q]);
      var body := Join(header + [line] + ContentLines(rest[..q]), "\n");
      AfterFlush(AfterLines(AfterLine(s, line), rest)) ==
      AfterFlush(AfterLines(s.(hunks := s.hunks + [Hunk(s.currentFile, line, body)], fileHeader := header), rest[q..]))
  {
    var a := AfterLine(s, line);
    assert a == s.(hunkHeader := line, hunkLines := [line]);
    var q := NextBoundary(rest);
    var region, tail := rest[..q], rest[q..];
    assert rest == region + tail;
    AfterLinesAppend(a, region, tail);
    RegionLines(a, region);
    var a' := AfterLines(a, region);
    FlushFirst(a', tail);
    var header := s.fileHeader + MetaLines(region);
    assert a'.fileHeader + a'.hunkLines == header + [line] + ContentLines(region);
  }

  /** From a state with no pending hunk, the scanner emits exactly `HunksFrom`. */
  lemma {:induction false} IdleScan(s: Scan, lines: seq<string>)
    requires s.hunkHeader == "" && s.hunkLines == []
    ensures AfterFlush(AfterLines(s, lines)).hunks == s.hunks + HunksFrom(lines, s.currentFile, s.fileHeader)
    decreases |lines|
  {
    if lines == [] {
      assert s.hunks + [] == s.hunks;
    } else {
      var line, rest := lines[0], lines[1..];
      var file := s.currentFile;
      var s1 := AfterLine(s, line);
      assert AfterLines(s, lines) == AfterLines(s1, rest);
      match KindOf(line)
      case FileStart =>
        assert s1 == s.(currentFile := ParseFilePath(line), fileHeader := [line]);
        assert HunksFrom(lines, file, s.fileHeader) == HunksFrom(rest, ParseFilePath(line), [line]);
        IdleScan(s1, rest);
      case FileMeta =>
        assert s1 == s.(fileHeader := s.fileHeader + [line]);
        assert HunksFrom(lines, file, s.fileHeader) == HunksFrom(rest, file, s.fileHeader + [line]);
        IdleScan(s1, rest);
      case HunkStart =>
        var q := NextBoundary(rest);
        var header := s.fileHeader + MetaLines(rest[..q]);
        var body := Join(header + [line] + ContentLines(rest[..q]), "\n");
        var f := s.(hunks := s.hunks + [Hunk(file, line, body)], fileHeader := header);
        assert AfterFlush(AfterLines(s1, rest)) == AfterFlush(AfterLines(f, rest[q..])) by {
          HunkStartScan(s, line, rest);
        }
        assert AfterFlush(AfterLines(f, rest[q..])).hunks == f.hunks + HunksFrom(rest[q..], file, header) by {
          IdleScan(f, rest[q..]);
        }
        assert HunksFrom(lines, file, s.fileHeader) == [Hunk(file, line, body)] + HunksFrom(rest[q..], file, header);
      case Content =>
        assert s1 == s;
        assert HunksFrom(lines, file, s.fileHeader) == HunksFrom(rest, file, s.fileHeader);
        IdleScan(s, rest);
    }
  }

  /** The scanner loop and the hunk-by-hunk description agree on every input. */
  lemma ParseIsHunksFrom(lines: seq<string>)
    ensures Parse(lines) == HunksFrom(lines, "", [])
  {
    IdleScan(Start, lines);
  }

  // ---------------------------------------------------------------------------------------------
  // Which hunks there are: their order, headers and paths

  /** The (path, header) pair of every hunk, in order. */
  function TagsOf(hunks: seq<Hunk>): (tags: seq<(string, string)>)
    ensures |tags| == |hunks|
  {
    if hunks == [] then [] else [(hunks[0].filePath, hunks[0].header)] + TagsOf(hunks[1..])
  }

  lemma TagsOfCons(h: Hunk, hunks: seq<Hunk>)
    ensures TagsOf([h] + hunks) == [(h.filePath, h.header)] + TagsOf(hunks)
  {
    assert ([h] + hunks)[1..] == hunks;
  }

  lemma {:induction false} TagsOfAppend(a: seq<Hunk>, b: seq<Hunk>)
    ensures TagsOf(a + b) == TagsOf(a) + TagsOf(b)
  {
    if a != [] {
      assert a + b == [a[0]] + (a[1..] + b);
      assert a == [a[0]] + a[1..];
      TagsOfAppend(a[1..], b);
      TagsOfCons(a[0], a[1..] + b);
      TagsOfCons(a[0], a[1..]);
    } else {
      assert a + b == b;
    }
  }

  /**
   * For every `@@ ` line of the input, in order: the path parsed from the last `diff --git `
   * line before it ("" if there is none) and the line itself.
   */
  function Tags(lines: seq<string>, file: string): seq<(string, string)>
  {
    if lines == [] then []
    else
      match KindOf(lines[0])
      case FileStart => Tags(lines[1..], ParseFilePath(lines[0]))
      case HunkStart => [(file, lines[0])] + Tags(lines[1..], file)
      case _ => Tags(lines[1..], file)
  }

  /** The number of input lines that start with `@@ `. */
  function CountHunkStarts(lines: seq<string>): nat
  {
    if lines == [] then 0 else (if KindOf(lines[0]) == HunkStart then 1 else 0) + CountHunkStarts(lines[1..])
  }

  lemma {:induction false} TagsCount(lines: seq<string>, file: string)
    ensures |Tags(lines, file)| == CountHunkStarts(lines)
  {
    if lines != [] {
      if KindOf(lines[0]) == FileStart {
        TagsCount(lines[1..], ParseFilePath(lines[0]));
      } else {
        TagsCount(lines[1..], file);
      }
    }
  }

  lemma {:induction false} TagsSkipRegion(region: seq<string>, tail: seq<string>, file: string)
    requires forall k :: 0 <= k < |region| ==> !IsBoundary(region[k])
    ensures Tags(region + tail, file) == Tags(tail, file)
  {
    if region == [] {
      assert region + tail == tail;
    } else {
      assert (region + tail)[0] == region[0] && (region + tail)[1..] == region[1..] + tail;
      assert !IsBoundary(region[0]);
      TagsSkipRegion(region[1..], tail, file);
    }
  }

  lemma {:induction false} HunkTags(lines: seq<string>, file: string, fileHeader: seq<string>)
    ensures TagsOf(HunksFrom(lines, file, fileHeader)) == Tags(lines, file)
    decreases |lines|
  {
    if lines != [] {
      var line, rest := lines[0], lines[1..];
      match KindOf(line)
      case FileStart =>
        HunkTags(rest, ParseFilePath(line), [line]);
      case FileMeta =>
        HunkTags(rest, file, fileHeader + [line]);
      case HunkStart =>
        var q := NextBoundary(rest);
        var header := fileHeader + MetaLines(rest[..q]);
        var body := Join(header + [line] + ContentLines(rest[..q]), "\n");
        var tail := HunksFrom(rest[q..], file, header);
        assert HunksFrom(lines, file, fileHeader) == [Hunk(file, line, body)] + tail;
        TagsOfCons(Hunk(file, line, body), tail);
        HunkTags(rest[q..], file, header);
        assert Tags(rest, file) == Tags(rest[q..], file) by {
          assert rest == rest[..q] + rest[q..];
          TagsSkipRegion(rest[..q], rest[q..], file);
        }
      case Content =>
        HunkTags(rest, file, fileHeader);
    }
  }

  /**
   * The hunks come in input order, one per `@@ ` line: hunk `k` has the `k`-th `@@ ` line as
   * its header and the path of the most recent `diff --git ` line as its file.
   */
  lemma ParseTags(lines: seq<string>)
    ensures TagsOf(Parse(lines)) == Tags(lines, "")
    ensures |Parse(lines)| == CountHunkStarts(lines)
  {
    ParseIsHunksFrom(lines);
    HunkTags(lines, "", []);
    TagsCount(lines, "");
  }

  // ---------------------------------------------------------------------------------------------
  // What a hunk's body holds

  /** A header block: a `diff --git ` or metadata line first, then metadata lines only. */
  predicate IsHeaderBlock(header: seq<string>) {
    (|header| > 0 ==> KindOf(header[0]) == FileStart || KindOf(header[0]) == FileMeta) &&
    forall m :: 0 < m < |header| ==> KindOf(header[m]) == FileMeta
  }

  /** The index of the first `@@ ` line among `parts`, or `|parts|` if there is none. */
  function FirstHunkStart(parts: seq<string>): (k: nat)
    ensures k <= |parts|
  {
    if parts == [] then 0 else if KindOf(parts[0]) == HunkStart then 0 else 1 + FirstHunkStart(parts[1..])
  }

  /**
   * Lines that are a header block, then the `@@ ` line `header`, then content lines only.
   */
  predicate WellFormedLines(parts: seq<string>, header: string) {
    var k := FirstHunkStart(parts);
    k < |parts| && parts[k] == header && IsHeaderBlock(parts[..k]) &&
    forall m :: k < m < |parts| ==> KindOf(parts[m]) == Content
  }

  /** The lines of the body read as a header block, the hunk's own header line and its content. */
  predicate WellFormedBody(h: Hunk) {
    WellFormedLines(Split(h.body, '\n'), h.header)
  }

  lemma NoNewlinesSub(lines: seq<string>, i: nat, j: nat)
    requires NoNewlines(lines) && i <= j <= |lines|
    ensures NoNewlines(lines[i..j])
  {
    forall k | 0 <= k < j - i ensures '\n' !in lines[i..j][k] {
      assert lines[i..j][k] == lines[i + k];
    }
  }

  lemma NoNewlinesAppend(a: seq<string>, b: seq<string>)
    requires NoNewlines(a) && NoNewlines(b)
    ensures NoNewlines(a + b)
  {
    forall i | 0 <= i < |a + b| ensures '\n' !in (a + b)[i] {
      if i >= |a| {
        assert (a + b)[i] == b[i - |a|];
      }
    }
  }

  lemma HeaderGrows(fileHeader: seq<string>, meta: seq<string>)
    requires IsHeaderBlock(fileHeader)
    requires forall x :: x in meta ==> KindOf(x) == FileMeta
    ensures IsHeaderBlock(fileHeader + meta)
  {
    var header := fileHeader + meta;
    forall m | 0 <= m < |header| && (m > 0 || fileHeader == [])
      ensures KindOf(header[m]) == FileMeta
    {
      if m >= |fileHeader| {
        assert header[m] == meta[m - |fileHeader|];
      }
    }
  }

  /** Within a region, the metadata lines and the content lines keep to their kinds. */
  lemma RegionParts(region: seq<string>)
    requires NoNewlines(region)
    requires forall k :: 0 <= k < |region| ==> !IsBoundary(region[k])
    ensures NoNewlines(MetaLines(region)) && NoNewlines(ContentLines(region))
    ensures forall x :: x in MetaLines(region) ==> KindOf(x) == FileMeta
    ensures forall x :: x in ContentLines(region) ==> KindOf(x) == Content
  {
    PickedLines(region);
    var meta, content := MetaLines(region), ContentLines(region);
    forall i | 0 <= i < |meta| ensures '\n' !in meta[i] {
      assert meta[i] in region;
    }
    forall i | 0 <= i < |content| ensures '\n' !in content[i] {
      assert content[i] in region;
    }
  }

  /** A header block, a `@@ ` line and content lines, joined with newlines, make a well-formed body. */
  lemma {:induction false} FirstHunkStartAfter(header: seq<string>, line: string, content: seq<string>)
    requires IsHeaderBlock(header) && KindOf(line) == HunkStart
    ensures FirstHunkStart(header + [line] + content) == |header|
    decreases |header|
  {
    if header == [] {
      assert header + [line] + content == [line] + content;
    } else {
      assert (header + [line] + content)[1..] == header[1..] + [line] + content;
      assert IsHeaderBlock(header[1..]) by {
        assert forall m :: 0 <= m < |header[1..]| ==> header[1..][m] == header[m + 1];
      }
      FirstHunkStartAfter(header[1..], line, content);
    }
  }

  lemma BodyShape(file: string, header: seq<string>, line: string, content: seq<string>)
    requires NoNewlines(header) && NoNewlines(content) && '\n' !in line
    requires IsHeaderBlock(header) && KindOf(line) == HunkStart
    requires forall x :: x in content ==> KindOf(x) == Content
    ensures var h := Hunk(file, line, Join(header + [line] + content, "\n"));
      h.body != "" && WellFormedBody(h)
  {
    var parts := header + [line] + content;
    NoNewlinesAppend(header, [line]);
    NoNewlinesAppend(header + [line], content);
    SplitJoin(parts, '\n');
    FirstHunkStartAfter(header, line, content);
    var k := |header|;
    assert WellFormedLines(parts, line) by {
      assert parts[k] == line && parts[..k] == header;
      forall m | k < m < |parts| ensures KindOf(parts[m]) == Content {
        assert parts[m] in content by {
          assert parts[m] == content[m - k - 1];
        }
      }
    }
  }

  /** The body of the hunk opened by `line` over `region`, below `fileHeader`, is well formed. */
  lemma HunkBody(file: string, fileHeader: seq<string>, line: string, region: seq<string>)
    requires NoNewlines(fileHeader) && NoNewlines(region) && '\n' !in line
    requires IsHeaderBlock(fileHeader) && KindOf(line) == HunkStart
    requires forall k :: 0 <= k < |region| ==> !IsBoundary(region[k])
    ensures var header := fileHeader + MetaLines(region);
      var h := Hunk(file, line, Join(header + [line] + ContentLines(region), "\n"));
      NoNewlines(header) && IsHeaderBlock(header) && h.body != "" && WellFormedBody(h)
  {
    RegionParts(region);
    var header := fileHeader + MetaLines(region);
    NoNewlinesAppend(fileHeader, MetaLines(region));
    HeaderGrows(fileHeader, MetaLines(region));
    BodyShape(file, header, line, ContentLines(region));
  }

  predicate AllWellFormed(hunks: seq<Hunk>) {
    forall k :: 0 <= k < |hunks| ==> hunks[k].body != "" && WellFormedBody(hunks[k])
  }

  lemma ConsWellFormed(h: Hunk, more: seq<Hunk>)
    requires h.body != "" && WellFormedBody(h) && AllWellFormed(more)
    ensures AllWellFormed([h] + more)
  {
    assert forall k :: 1 <= k < |[h] + more| ==> ([h] + more)[k] == more[k - 1];
  }

  lemma {:induction false} HunkBodies(lines: seq<string>, file: string, fileHeader: seq<string>)
    requires NoNewlines(lines) && NoNewlines(fileHeader)
    requires IsHeaderBlock(fileHeader)
    ensures AllWellFormed(HunksFrom(lines, file, fileHeader))
    decreases |lines|
  {
    if lines != [] {
      var line, rest := lines[0], lines[1..];
      NoNewlinesSub(lines, 1, |lines|);
      match KindOf(line)
      case FileStart =>
        HunkBodies(rest, ParseFilePath(line), [line]);
      case FileMeta =>
        NoNewlinesAppend(fileHeader, [line]);
        HeaderGrows(fileHeader, [line]);
        HunkBodies(rest, file, fileHeader + [line]);
      case HunkStart =>
        var q := NextBoundary(rest);
        var region := rest[..q];
        var header := fileHeader + MetaLines(region);
        NoNewlinesSub(rest, 0, q);
        NoNewlinesSub(rest, q, |rest|);
        HunkBody(file, fileHeader, line, region);
        HunkBodies(rest[q..], file, header);
        ConsWellFormed(Hunk(file, line, Join(header + [line] + ContentLines(region), "\n")),
                       HunksFrom(rest[q..], file, header));
      case Content =>
        HunkBodies(rest, file, fileHeader);
    }
  }

  /**
   * Every parsed hunk has a non-empty body made of the file's header block, its own `@@ ` line
   * and content lines only; metadata never follows the header line.
   */
  lemma ParseBodies(diff: string)
    ensures AllWellFormed(Parse(ScanLines(diff)))
  {
    var lines := ScanLines(diff);
    ScanLinesHaveNoNewlines(diff);
    ParseIsHunksFrom(lines);
    HunkBodies(lines, "", []);
  }
}
