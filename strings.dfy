/**
 * The pieces of Go's `strings`, `unicode` and `fmt` packages that the split engine relies on,
 * over `string` = `seq<char>` (one `char` per Unicode code point).
 */
module Strings {

  /** Go's `unicode.IsSpace`: the Latin-1 spaces and the other White_Space code points. */
  predicate IsSpace(c: char) {
    var n := c as int;
    n == 0x20 || 0x09 <= n <= 0x0D || n == 0x85 || n == 0xA0 || n == 0x1680 ||
    0x2000 <= n <= 0x200A || n == 0x2028 || n == 0x2029 || n == 0x202F || n == 0x205F || n == 0x3000
  }

  predicate NoSpace(s: string) {
    forall i :: 0 <= i < |s| ==> !IsSpace(s[i])
  }

  /** `strings.HasPrefix`. */
  predicate HasPrefix(s: string, prefix: string) {
    |prefix| <= |s| && s[..|prefix|] == prefix
  }

  /** `strings.TrimPrefix`: drops one occurrence of `prefix` at the start, if it is there. */
  function TrimPrefix(s: string, prefix: string): (t: string)
    ensures HasPrefix(s, prefix) ==> prefix + t == s
    ensures !HasPrefix(s, prefix) ==> t == s
  {
    if HasPrefix(s, prefix) then s[|prefix|..] else s
  }

  // ---------------------------------------------------------------------------------------------
  // strings.Fields

  /** The suffix of `s` that remains after its leading white space. */
  function DropSpaces(s: string): (t: string)
    ensures |t| <= |s|
    ensures t == [] || !IsSpace(t[0])
  {
    if s != [] && IsSpace(s[0]) then DropSpaces(s[1..]) else s
  }

  /** `DropSpaces` drops a prefix, and all of it is white space. */
  lemma {:induction false} DroppedSpaces(s: string)
    ensures DropSpaces(s) == s[|s| - |DropSpaces(s)|..]
    ensures forall i :: 0 <= i < |s| - |DropSpaces(s)| ==> IsSpace(s[i])
  {
    if s != [] && IsSpace(s[0]) {
      var n := |s| - |DropSpaces(s)|;
      assert DropSpaces(s) == s[n..] by {
        DroppedSpaces(s[1..]);
        assert s[1..][n - 1..] == s[n..];
      }
      forall i | 1 <= i < n ensures IsSpace(s[i]) {
        DroppedSpaces(s[1..]);
        assert s[i] == s[1..][i - 1];
      }
    }
  }

  /** The longest prefix of `s` that holds no white space. */
  function Word(s: string): (w: string)
    ensures |w| <= |s| && w == s[..|w|]
    ensures |w| < |s| ==> IsSpace(s[|w|])
  {
    if s != [] && !IsSpace(s[0]) then [s[0]] + Word(s[1..]) else []
  }

  lemma {:induction false} WordHasNoSpace(s: string)
    ensures NoSpace(Word(s))
  {
    if s != [] && !IsSpace(s[0]) {
      WordHasNoSpace(s[1..]);
      var w := Word(s);
      assert forall i :: 1 <= i < |w| ==> w[i] == Word(s[1..])[i - 1];
    }
  }

  /** `strings.Fields`: the maximal runs of non-space characters, in order. */
  function Fields(s: string): seq<string>
    decreases |s|
  {
    var t := DropSpaces(s);
    if t == [] then []
    else
      var w := Word(t);
      [w] + Fields(t[|w|..])
  }

  /** Every field is a non-empty run of non-space characters. */
  lemma {:induction false} FieldsAreWords(s: string)
    ensures forall i :: 0 <= i < |Fields(s)| ==> Fields(s)[i] != [] && NoSpace(Fields(s)[i])
    decreases |s|
  {
    var t := DropSpaces(s);
    if t != [] {
      var w := Word(t);
      var rest := Fields(t[|w|..]);
      assert Fields(s) == [w] + rest;
      WordHasNoSpace(t);
      FieldsAreWords(t[|w|..]);
      forall i | 0 <= i < |Fields(s)| ensures Fields(s)[i] != [] && NoSpace(Fields(s)[i]) {
        if i > 0 {
          assert Fields(s)[i] == rest[i - 1];
        }
      }
    }
  }

  lemma {:induction false} WordOfWord(w: string, rest: string)
    requires NoSpace(w)
    requires rest == [] || IsSpace(rest[0])
    ensures Word(w + rest) == w
  {
    if w != [] {
      assert (w + rest)[1..] == w[1..] + rest;
      WordOfWord(w[1..], rest);
    } else {
      assert w + rest == rest;
    }
  }

  lemma {:induction false} FieldsAfterSpace(c: char, s: string)
    requires IsSpace(c)
    ensures Fields([c] + s) == Fields(s)
  {
    assert ([c] + s)[1..] == s;
    assert DropSpaces([c] + s) == DropSpaces(s);
  }

  lemma {:induction false} FieldsCons(w: string, rest: string)
    requires w != [] && NoSpace(w)
    requires rest == [] || IsSpace(rest[0])
    ensures Fields(w + rest) == [w] + Fields(rest)
  {
    var s := w + rest;
    assert s[0] == w[0];
    assert DropSpaces(s) == s;
    WordOfWord(w, rest);
    assert s[|w|..] == rest;
  }

  lemma {:induction false} FieldsSpaced(w: string, rest: string)
    requires w != [] && NoSpace(w)
    ensures Fields(w + " " + rest) == [w] + Fields(rest)
  {
    var spaced: string := [' '] + rest;
    assert w + " " + rest == w + spaced;
    assert spaced[0] == ' ';
    FieldsCons(w, spaced);
    FieldsAfterSpace(' ', rest);
  }

  /** `strings.Fields` undoes a single-space join of non-empty, space-free words. */
  lemma {:induction false} FieldsOfJoin(words: seq<string>)
    requires forall i :: 0 <= i < |words| ==> words[i] != [] && NoSpace(words[i])
    ensures Fields(Join(words, " ")) == words
  {
    if |words| == 1 {
      FieldsCons(words[0], []);
      assert words[0] + [] == words[0];
    } else if |words| > 1 {
      var w, tail := words[0], words[1..];
      var j := Join(tail, " ");
      var jw := Join(words, " ");
      assert jw == w + " " + j by {
        assert words == [w] + tail;
        JoinCons(w, tail, " ");
      }
      assert Fields(j) == tail by {
        FieldsOfJoin(tail);
      }
      FieldsSpaced(w, j);
      assert words == [w] + tail;
    }
  }

  // ---------------------------------------------------------------------------------------------
  // strings.TrimSpace

  /** The prefix of `s` that remains after dropping its trailing white space. */
  function DropTrailingSpaces(s: string): (t: string)
    ensures |t| <= |s|
    ensures t == [] || !IsSpace(t[|t| - 1])
  {
    if s != [] && IsSpace(s[|s| - 1]) then DropTrailingSpaces(s[..|s| - 1]) else s
  }

  /** `DropTrailingSpaces` drops a suffix, and all of it is white space. */
  lemma {:induction false} DroppedTrailingSpaces(s: string)
    ensures DropTrailingSpaces(s) == s[..|DropTrailingSpaces(s)|]
    ensures forall i :: |DropTrailingSpaces(s)| <= i < |s| ==> IsSpace(s[i])
  {
    if s != [] && IsSpace(s[|s| - 1]) {
      DroppedTrailingSpaces(s[..|s| - 1]);
    }
  }

  /**
   * `strings.TrimSpace`: the middle part of `s` between its leading and its trailing white
   * space. The result neither starts nor ends with white space, and everything cut off is white
   * space.
   */
  function TrimSpace(s: string): (t: string)
    ensures t == [] || (!IsSpace(t[0]) && !IsSpace(t[|t| - 1]))
    ensures |t| <= |s|
  {
    var u := DropSpaces(s);
    DroppedTrailingSpaces(u);
    DropTrailingSpaces(u)
  }

  /** `TrimSpace` keeps one contiguous middle part of its input. */
  lemma TrimSpaceInfix(s: string)
    ensures var i, t := |s| - |DropSpaces(s)|, TrimSpace(s);
      i + |t| <= |s| && s[i..i + |t|] == t
  {
    var u := DropSpaces(s);
    var t := DropTrailingSpaces(u);
    var i := |s| - |u|;
    DroppedSpaces(s);
    DroppedTrailingSpaces(u);
    assert s[i..i + |t|] == s[i..][..|t|];
  }

  /** What `TrimSpace` cuts off on either side of that middle part is white space. */
  lemma TrimSpaceCut(s: string)
    ensures var i, t := |s| - |DropSpaces(s)|, TrimSpace(s);
      (forall k :: 0 <= k < i ==> IsSpace(s[k])) &&
      (forall k :: i + |t| <= k < |s| ==> IsSpace(s[k]))
  {
    var u := DropSpaces(s);
    var t := DropTrailingSpaces(u);
    var i := |s| - |u|;
    DroppedSpaces(s);
    forall k | i + |t| <= k < |s| ensures IsSpace(s[k]) {
      DroppedTrailingSpaces(u);
      assert s[k] == u[k - i];
    }
  }

  // ---------------------------------------------------------------------------------------------
  // strings.Join and strings.Split

  /** `strings.Join`: the parts with `sep` between neighbours. */
  function Join(parts: seq<string>, sep: string): string
  {
    if |parts| == 0 then ""
    else if |parts| == 1 then parts[0]
    else parts[0] + sep + Join(parts[1..], sep)
  }

  /** `strings.Split(s, sep)` for a one-character separator; `Split("", sep)` is `[""]`. */
  function Split(s: string, sep: char): (parts: seq<string>)
    ensures |parts| >= 1
    decreases |s|
  {
    if s == [] then [""]
    else
      var rest := Split(s[1..], sep);
      if s[0] == sep then [""] + rest else [[s[0]] + rest[0]] + rest[1..]
  }

  lemma {:induction false} JoinCons(p: string, parts: seq<string>, sep: string)
    requires |parts| >= 1
    ensures Join([p] + parts, sep) == p + sep + Join(parts, sep)
  {
    assert ([p] + parts)[1..] == parts;
  }

  /** Text stuck to the front of the first part comes out in front of the join. */
  lemma JoinHead(a: string, parts: seq<string>, sep: string)
    requires |parts| >= 1
    ensures Join([a + parts[0]] + parts[1..], sep) == a + Join(parts, sep)
  {
    var ps := [a + parts[0]] + parts[1..];
    assert ps[1..] == parts[1..];
  }

  /** Joining the pieces of a split with the separator gives back the original text. */
  lemma {:induction false} JoinSplit(s: string, sep: char)
    ensures Join(Split(s, sep), [sep]) == s
  {
    if s != [] {
      var rest := Split(s[1..], sep);
      JoinSplit(s[1..], sep);
      if s[0] == sep {
        JoinCons("", rest, [sep]);
      } else {
        JoinHead([s[0]], rest, [sep]);
      }
      assert s == [s[0]] + s[1..];
    }
  }

  lemma {:induction false} SplitAfter(a: string, rest: string, sep: char)
    requires sep !in a
    ensures Split(a + rest, sep) == [a + Split(rest, sep)[0]] + Split(rest, sep)[1..]
  {
    var r := Split(rest, sep);
    if a == [] {
      assert a + rest == rest;
      assert a + r[0] == r[0];
      assert r == [r[0]] + r[1..];
    } else {
      var s := a + rest;
      assert s[0] == a[0] && a[0] != sep;
      assert s[1..] == a[1..] + rest;
      SplitAfter(a[1..], rest, sep);
      var r' := Split(s[1..], sep);
      assert r' == [a[1..] + r[0]] + r[1..];
      assert Split(s, sep) == [[s[0]] + r'[0]] + r'[1..];
      assert [s[0]] + r'[0] == a + r[0];
      assert r'[1..] == r[1..];
    }
  }

  /** Splitting a join of separator-free parts gives back the parts. */
  lemma {:induction false} SplitJoin(parts: seq<string>, sep: char)
    requires |parts| >= 1
    requires forall i :: 0 <= i < |parts| ==> sep !in parts[i]
    ensures Split(Join(parts, [sep]), sep) == parts
  {
    var a := parts[0];
    if |parts| == 1 {
      SplitAfter(a, [], sep);
      assert a + [] == a;
    } else {
      var j := Join(parts[1..], [sep]);
      assert Join(parts, [sep]) == a + ([sep] + j);
      SplitAfter(a, [sep] + j, sep);
      var sj := [sep] + j;
      assert sj[0] == sep && sj[1..] == j;
      assert Split(sj, sep) == [""] + Split(j, sep);
      SplitJoin(parts[1..], sep);
      assert Split(sj, sep)[0] == "" && Split(sj, sep)[1..] == parts[1..];
      assert a + "" == a;
      assert parts == [a] + parts[1..];
    }
  }

  /** No piece of a split holds the separator. */
  lemma {:induction false} SplitSeparatorFree(s: string, sep: char)
    ensures forall i :: 0 <= i < |Split(s, sep)| ==> sep !in Split(s, sep)[i]
    decreases |s|
  {
    if s != [] {
      SplitSeparatorFree(s[1..], sep);
      var rest := Split(s[1..], sep);
      forall i | 0 <= i < |Split(s, sep)| ensures sep !in Split(s, sep)[i] {
        if i > 0 {
          assert Split(s, sep)[i] == rest[i - (if s[0] == sep then 1 else 0)];
        }
      }
    }
  }

  lemma {:induction false} JoinSnoc(parts: seq<string>, p: string, sep: string)
    requires |parts| >= 1
    ensures Join(parts + [p], sep) == Join(parts, sep) + sep + p
    decreases |parts|
  {
    if |parts| == 1 {
      JoinCons(parts[0], [p], sep);
      assert parts + [p] == [parts[0]] + [p];
    } else {
      var q := parts[0];
      JoinCons(q, parts[1..] + [p], sep);
      assert parts + [p] == [q] + (parts[1..] + [p]);
      JoinSnoc(parts[1..], p, sep);
      JoinCons(q, parts[1..], sep);
      assert parts == [q] + parts[1..];
    }
  }

  // ---------------------------------------------------------------------------------------------
  // bufio.Scanner with its default ScanLines split

  /** Lines `bufio.Scanner` yields hold no line feed. */
  predicate NoNewlines(lines: seq<string>) {
    forall i :: 0 <= i < |lines| ==> '\n' !in lines[i]
  }

  /** One trailing carriage return is dropped from every line. */
  function DropCR(line: string): (t: string)
    ensures |t| <= |line| && t == line[..|t|]
  {
    if line != [] && line[|line| - 1] == '\r' then line[..|line| - 1] else line
  }

  /**
   * The lines a `bufio.Scanner` reads from `text`: the pieces between line feeds, without a
   * trailing carriage return, where a final empty piece (after a closing line feed) is no
   * line. Empty text has no lines.
   */
  function ScanLines(text: string): seq<string>
  {
    if text == [] then []
    else
      var parts := Split(text, '\n');
      var full := if parts[|parts| - 1] == "" then parts[..|parts| - 1] else parts;
      seq(|full|, i requires 0 <= i < |full| => DropCR(full[i]))
  }

  lemma ScanLinesHaveNoNewlines(text: string)
    ensures NoNewlines(ScanLines(text))
  {
    if text != [] {
      SplitSeparatorFree(text, '\n');
      var parts := Split(text, '\n');
      var full := if parts[|parts| - 1] == "" then parts[..|parts| - 1] else parts;
      forall i | 0 <= i < |full| ensures '\n' !in DropCR(full[i]) {
        assert full[i] == parts[i];
      }
    }
  }

  predicate EndsWithCR(line: string) {
    line != [] && line[|line| - 1] == '\r'
  }

  /** Lines written one per line feed split into the lines and a final empty piece. */
  lemma SplitTerminated(lines: seq<string>)
    requires |lines| >= 1 && NoNewlines(lines)
    ensures Split(Join(lines, "\n") + "\n", '\n') == lines + [""]
  {
    var parts := lines + [""];
    var j := Join(lines, "\n");
    JoinSnoc(lines, "", "\n");
    assert j + "\n" + "" == j + "\n";
    forall i | 0 <= i < |parts| ensures '\n' !in parts[i] {
      if i < |lines| {
        assert parts[i] == lines[i];
      }
    }
    SplitJoin(parts, '\n');
  }

  /**
   * Reading back a non-empty list of lines written one per line feed gives the lines, when no
   * line holds a line feed or ends with a carriage return.
   */
  lemma ScanJoinedLines(lines: seq<string>)
    requires |lines| >= 1 && NoNewlines(lines)
    requires forall i :: 0 <= i < |lines| ==> !EndsWithCR(lines[i])
    ensures ScanLines(Join(lines, "\n") + "\n") == lines
  {
    var parts := lines + [""];
    SplitTerminated(lines);
    assert parts[..|parts| - 1] == lines;
    forall i | 0 <= i < |lines| ensures DropCR(lines[i]) == lines[i] {
      assert !EndsWithCR(lines[i]);
    }
  }

  // ---------------------------------------------------------------------------------------------
  // Decimal numbers: fmt's %d

  predicate IsDigit(c: char) {
    '0' <= c <= '9'
  }

  predicate AllDigits(s: string) {
    forall i :: 0 <= i < |s| ==> IsDigit(s[i])
  }

  /** The longest prefix of `s` made of decimal digits. */
  function DigitPrefix(s: string): (d: string)
    ensures |d| <= |s| && d == s[..|d|]
    ensures AllDigits(d)
    ensures |d| < |s| ==> !IsDigit(s[|d|])
  {
    if s != [] && IsDigit(s[0]) then [s[0]] + DigitPrefix(s[1..]) else []
  }

  /** The number a string of decimal digits denotes (leading zeros allowed). */
  function DigitsValue(d: string): nat
    requires AllDigits(d)
  {
    if d == [] then 0 else DigitsValue(d[..|d| - 1]) * 10 + (d[|d| - 1] as int - '0' as int)
  }

  function DigitChar(n: nat): (c: char)
    requires n < 10
    ensures IsDigit(c) && c as int - '0' as int == n
  {
    ('0' as int + n) as char
  }

  /** `fmt.Sprintf("%d", n)` for a non-negative `n`: decimal digits, no leading zeros. */
  function Itoa(n: nat): (s: string)
    ensures s != [] && AllDigits(s)
  {
    if n < 10 then [DigitChar(n)] else Itoa(n / 10) + [DigitChar(n % 10)]
  }

  /** Reading back the digits that `Itoa` writes gives the number. */
  lemma {:induction false} ValueOfItoa(n: nat)
    ensures DigitsValue(Itoa(n)) == n
  {
    var s := Itoa(n);
    if n < 10 {
      assert s[..0] == [];
    } else {
      assert s[..|s| - 1] == Itoa(n / 10);
      ValueOfItoa(n / 10);
    }
  }

  lemma ItoaInjective(a: nat, b: nat)
    requires Itoa(a) == Itoa(b)
    ensures a == b
  {
    ValueOfItoa(a);
    ValueOfItoa(b);
  }

  /** The maximal digit prefix of `d + rest` is `d` when `rest` does not go on with a digit. */
  lemma {:induction false} DigitPrefixOf(d: string, rest: string)
    requires AllDigits(d)
    requires rest == [] || !IsDigit(rest[0])
    ensures DigitPrefix(d + rest) == d
  {
    if d == [] {
      assert d + rest == rest;
    } else {
      assert (d + rest)[1..] == d[1..] + rest;
      DigitPrefixOf(d[1..], rest);
      assert d == [d[0]] + d[1..];
    }
  }
}
