/**
  The code editor's text transforms (`useCodeShortcuts`): Tab expansion of
  Java shortcuts, duplicate line, line and block comment toggles and the
  auto-closing of quotes and brackets. Every transform maps the code and the
  textarea's selection to new code and a new selection; positions are
  character offsets, and a selection satisfies `start <= end <= |code|`.
*/
module CodeShortcuts {
  import opened Strings

  /** `{ newCode, newStart, newEnd }`. */
  datatype Edit = Edit(code: string, start: int, end: int)

  /** `{ newCode, newCursorPosition }`. */
  datatype Caret = Caret(code: string, cursor: int)

  // ---------------------------------------------------------------- lines

  /** `code.substring(0, p).split('\n').length - 1`: the number of the line
      holding position p. */
  function LineIndex(code: string, p: nat): (k: nat)
    requires p <= |code|
    ensures k == Count(code[..p], '\n')
  {
    SplitLength(code[..p], '\n');
    |Split(code[..p], '\n')| - 1
  }

  /** `code.indexOf('\n', p)`, or `code.length` when there is none. */
  function LineEnd(code: string, p: nat): (e: nat)
    requires p <= |code|
    ensures p <= e <= |code|
    ensures e == |code| || code[e] == '\n'
    ensures forall i :: p <= i < e ==> code[i] != '\n'
  {
    var k := IndexOf(code, "\n", p);
    assert forall i :: 0 <= i < |code| ==> (OccursAt(code, "\n", i) <==> code[i] == '\n') by {
      forall i | 0 <= i < |code| ensures OccursAt(code, "\n", i) <==> code[i] == '\n' {
        assert code[i..i + 1] == [code[i]];
      }
    }
    if k == -1 then |code| else k
  }

  /** One past the last newline before position p: where its line starts. */
  function LineStart(code: string, p: nat): (s: nat)
    requires p <= |code|
    ensures s <= p
    ensures s == 0 || code[s - 1] == '\n'
    ensures forall i :: s <= i < p ==> code[i] != '\n'
  {
    LastIndexUpTo(code, '\n', p - 1) + 1
  }

  /** `code.lastIndexOf('\n', p - 1) + 1`, as the block comment toggle
      computes a line start. `lastIndexOf` clamps the index -1 to 0, so at
      p == 0 a newline at index 0 is found. */
  function LineStartAsWritten(code: string, p: nat): int
    requires p <= |code|
  {
    LastIndexOf(code, '\n', p - 1) + 1
  }

  /** The two line starts differ only at the first position of a code that
      opens with a newline. */
  lemma LineStartAsWrittenAgrees(code: string, p: nat)
    requires p <= |code|
    ensures LineStartAsWritten(code, p) == LineStart(code, p)
        <==> p > 0 || code == [] || code[0] != '\n'
    ensures p == 0 && code != [] && code[0] == '\n' ==> LineStartAsWritten(code, p) == 1
  {
  }

  /** a and b lie on line boundaries: a starts a line and b ends one. */
  predicate OnLineBoundaries(code: string, a: nat, b: nat) {
    a <= b <= |code| && (a == 0 || code[a - 1] == '\n') && (b == |code| || code[b] == '\n')
  }

  /** The lines that end before the newline preceding a. */
  function LinesBefore(code: string, a: nat): seq<string>
    requires a <= |code|
  {
    if a == 0 then [] else Split(code[..a - 1], '\n')
  }

  /** The lines that start after the newline at b. */
  function LinesAfter(code: string, b: nat): seq<string>
    requires b <= |code|
  {
    if b == |code| then [] else Split(code[b + 1..], '\n')
  }

  /** Replacing the text between two line boundaries replaces the lines in between. */
  lemma {:induction false} SplitFrame(code: string, a: nat, b: nat, y: string)
    requires OnLineBoundaries(code, a, b)
    ensures Split(code[..a] + y + code[b..], '\n')
         == LinesBefore(code, a) + Split(y, '\n') + LinesAfter(code, b)
  {
    SplitAfter(code, b, y);
    var t := y + code[b..];
    assert code[..a] + y + code[b..] == code[..a] + t;
    if a > 0 {
      SplitBefore(code, a, t);
    } else {
      assert code[..a] + t == t;
    }
  }

  /** The head half of SplitFrame: the code up to a line start, followed by text. */
  lemma {:induction false} SplitBefore(code: string, a: nat, t: string)
    requires 0 < a <= |code| && code[a - 1] == '\n'
    ensures Split(code[..a] + t, '\n') == LinesBefore(code, a) + Split(t, '\n')
  {
    assert code[..a] + t == code[..a - 1] + ['\n'] + t;
    SplitAtSep(code[..a - 1], '\n', t);
  }

  /** The tail half of SplitFrame: text followed by the rest of the code from
      a line end. */
  lemma {:induction false} SplitAfter(code: string, b: nat, y: string)
    requires b <= |code| && (b == |code| || code[b] == '\n')
    ensures Split(y + code[b..], '\n') == Split(y, '\n') + LinesAfter(code, b)
  {
    if b < |code| {
      var z := code[b + 1..];
      assert y + code[b..] == y + ['\n'] + z;
      SplitAtSep(y, '\n', z);
    } else {
      assert y + code[b..] == y;
    }
  }

  /** The number of lines before a line start is the number of newlines before it. */
  lemma {:induction false} LinesBeforeLength(code: string, a: nat)
    requires a <= |code| && (a == 0 || code[a - 1] == '\n')
    ensures |LinesBefore(code, a)| == Count(code[..a], '\n')
  {
    if a > 0 {
      SplitLength(code[..a - 1], '\n');
      assert code[..a] == code[..a - 1] + ['\n'];
      CountAppend(code[..a - 1], ['\n'], '\n');
    }
  }

  /** The lines of a code are those before a, those of the text from a to b,
      and those after b. */
  lemma {:induction false} LineSplit(code: string, a: nat, b: nat)
    requires OnLineBoundaries(code, a, b)
    ensures Split(code, '\n') == LinesBefore(code, a) + Split(code[a..b], '\n') + LinesAfter(code, b)
  {
    SplitFrame(code, a, b, code[a..b]);
    assert code[..a] + code[a..b] + code[b..] == code;
  }

  /** A position after a line start, with no newline in between, is on the
      line that follows the lines before that start. */
  lemma {:induction false} LineIndexFrom(code: string, a: nat, p: nat)
    requires a <= p <= |code| && (a == 0 || code[a - 1] == '\n')
    requires forall i :: a <= i < p ==> code[i] != '\n'
    ensures LineIndex(code, p) == |LinesBefore(code, a)|
  {
    LinesBeforeLength(code, a);
    assert code[..p] == code[..a] + code[a..p];
    CountAppend(code[..a], code[a..p], '\n');
    CountAbsent(code[a..p], '\n');
  }

  /** Reads the three parts of a sequence off two decompositions of it. */
  lemma ThreeParts<T>(s: seq<T>, x: seq<T>, m: seq<T>, z: seq<T>, k: int)
    requires s == x + m + z && |z| == |s| - k - 1 && |m| >= 1
    ensures |x| <= k < |s|
    ensures s[..|x|] == x && s[|x|..k + 1] == m && s[k + 1..] == z
  {
  }

  /** The line holding p is the text between its start and its end, with
      the lines before and after it around it. */
  lemma {:induction false} LineAt(code: string, p: nat)
    requires p <= |code|
    ensures var a, b := LineStart(code, p), LineEnd(code, p);
      && OnLineBoundaries(code, a, b)
      && Split(code, '\n') == LinesBefore(code, a) + [code[a..b]] + LinesAfter(code, b)
      && LineIndex(code, p) == |LinesBefore(code, a)|
  {
    var a, b := LineStart(code, p), LineEnd(code, p);
    LineIndexFrom(code, a, p);
    LineSplit(code, a, b);
    SplitNoSep(code[a..b], '\n');
  }

  /** The lines from the one holding p to the one holding q are the text from
      the start of the first to the end of the last. */
  lemma {:induction false} LinesBetween(code: string, p: nat, q: nat)
    requires p <= q <= |code|
    ensures var lines, a, b := Split(code, '\n'), LineStart(code, p), LineEnd(code, q);
      var kp, kq := LineIndex(code, p), LineIndex(code, q);
      && OnLineBoundaries(code, a, b)
      && kp <= kq < |lines|
      && lines[..kp] == LinesBefore(code, a)
      && lines[kp..kq + 1] == Split(code[a..b], '\n')
      && lines[kq + 1..] == LinesAfter(code, b)
  {
    var a, b := LineStart(code, p), LineEnd(code, q);
    LineIndexFrom(code, a, p);
    LineSplit(code, a, b);
    LineAt(code, q);
    ThreeParts(Split(code, '\n'), LinesBefore(code, a), Split(code[a..b], '\n'), LinesAfter(code, b), LineIndex(code, q));
  }

  /** The selection's first line comes no later than its last, which is a line of the code. */
  lemma {:induction false} LineIndexBounds(code: string, p: nat, q: nat)
    requires p <= q <= |code|
    ensures LineIndex(code, p) <= LineIndex(code, q) < |Split(code, '\n')|
  {
    LinesBetween(code, p, q);
  }

  // ---------------------------------------------------------------- duplicate line

  /** `duplicateLine` as written: without a selection, a copy of the caret's
      line goes after that line; with one, a copy of the selected lines goes
      right after the selection's end, wherever on its line that is. */
  function DuplicateLine(code: string, start: nat, end: nat): (r: Edit)
    requires start <= end <= |code|
  {
    var lines := Split(code, '\n');
    var startLine := LineIndex(code, start);
    var endLine := LineIndex(code, end);
    LinesBetween(code, start, end);
    if start == end then
      var currentLine := lines[startLine];
      var lineEndPos := LineEnd(code, start);
      Edit(code[..lineEndPos] + "\n" + currentLine + code[lineEndPos..],
           start + |currentLine| + 1, start + |currentLine| + 1)
    else
      var selectedLines := Join(lines[startLine..endLine + 1], '\n');
      Edit(code[..end] + "\n" + selectedLines + code[end..],
           start + |selectedLines| + 1, end + |selectedLines| + 1)
  }

  /** Duplicate line with the copy of the selected lines placed after the end
      of the selection's last line, as the shifted selection assumes. */
  function DuplicateLines(code: string, start: nat, end: nat): (r: Edit)
    requires start <= end <= |code|
  {
    var lines := Split(code, '\n');
    var startLine := LineIndex(code, start);
    var endLine := LineIndex(code, end);
    LinesBetween(code, start, end);
    var selectedLines := Join(lines[startLine..endLine + 1], '\n');
    var lineEndPos := LineEnd(code, end);
    Edit(code[..lineEndPos] + "\n" + selectedLines + code[lineEndPos..],
         start + |selectedLines| + 1, end + |selectedLines| + 1)
  }

  /** The selected lines, joined, are the text from the start of the first
      to the end of the last. */
  lemma {:induction false} SelectedLinesText(code: string, start: nat, end: nat)
    requires start <= end <= |code|
    ensures var lines, sl, el := Split(code, '\n'), LineIndex(code, start), LineIndex(code, end);
      && sl <= el < |lines|
      && Join(lines[sl..el + 1], '\n') == code[LineStart(code, start)..LineEnd(code, end)]
  {
    var a, b := LineStart(code, start), LineEnd(code, end);
    LinesBetween(code, start, end);
    JoinSplit(code[a..b], '\n');
  }

  /** The duplicated text is the selected lines' text written twice. */
  lemma {:induction false} DuplicateLinesText(code: string, start: nat, end: nat)
    requires start <= end <= |code|
    ensures var a, b, r := LineStart(code, start), LineEnd(code, end), DuplicateLines(code, start, end);
      var m := code[a..b];
      && r.code == code[..a] + (m + ['\n'] + m) + code[b..]
      && r.start == start + |m| + 1 && r.end == end + |m| + 1
  {
    var a, b := LineStart(code, start), LineEnd(code, end);
    SelectedLinesText(code, start, end);
    assert code[..b] == code[..a] + code[a..b];
  }

  /** Writing the selected lines' text twice in their place doubles those lines. */
  lemma {:induction false} DoubledLines(code: string, start: nat, end: nat)
    requires start <= end <= |code|
    ensures var lines, a, b := Split(code, '\n'), LineStart(code, start), LineEnd(code, end);
      var sl, el, m := LineIndex(code, start), LineIndex(code, end), code[a..b];
      && sl <= el < |lines|
      && Split(code[..a] + (m + ['\n'] + m) + code[b..], '\n')
         == lines[..el + 1] + lines[sl..el + 1] + lines[el + 1..]
  {
    var a, b := LineStart(code, start), LineEnd(code, end);
    var m := code[a..b];
    var pre, sel, post := LinesBefore(code, a), Split(m, '\n'), LinesAfter(code, b);
    LinesBetween(code, start, end);
    assert Split(code[..a] + (m + ['\n'] + m) + code[b..], '\n') == pre + (sel + sel) + post by {
      SplitFrame(code, a, b, m + ['\n'] + m);
      SplitAtSep(m, '\n', m);
    }
    DoubledMiddle(Split(code, '\n'), pre, sel, post, LineIndex(code, start), LineIndex(code, end));
  }

  /** Duplicating inserts a copy of the selected lines right after them, and
      the new selection covers the same text inside the copy. */
  lemma {:induction false} DuplicateLinesCopies(code: string, start: nat, end: nat)
    requires start <= end <= |code|
    ensures var lines, r := Split(code, '\n'), DuplicateLines(code, start, end);
      var sl, el := LineIndex(code, start), LineIndex(code, end);
      && sl <= el < |lines|
      && Split(r.code, '\n') == lines[..el + 1] + lines[sl..el + 1] + lines[el + 1..]
      && 0 <= r.start <= r.end <= |r.code|
      && r.code[r.start..r.end] == code[start..end]
  {
    DuplicateLinesText(code, start, end);
    DoubledLines(code, start, end);
    DuplicateKeepsSelection(code, LineStart(code, start), LineEnd(code, end), start, end);
  }

  /** A sequence cut in three, with its middle written twice. */
  lemma DoubledMiddle<T>(s: seq<T>, x: seq<T>, m: seq<T>, z: seq<T>, i: nat, j: nat)
    requires i <= j < |s| && s[..i] == x && s[i..j + 1] == m && s[j + 1..] == z
    ensures x + (m + m) + z == s[..j + 1] + s[i..j + 1] + s[j + 1..]
  {
    assert s[..j + 1] == s[..i] + s[i..j + 1];
  }

  /** Text written twice at its own place: the second copy holds the same
      offsets, shifted by the text's length and a newline. */
  lemma {:induction false} DuplicateKeepsSelection(code: string, a: nat, b: nat, start: nat, end: nat)
    requires a <= start <= end <= b <= |code|
    ensures var m := code[a..b]; var c := code[..a] + (m + ['\n'] + m) + code[b..];
      && end + |m| + 1 <= |c|
      && c[start + |m| + 1..end + |m| + 1] == code[start..end]
  {
    var m := code[a..b];
    var c := code[..a] + (m + ['\n'] + m) + code[b..];
    var off := a + |m| + 1;
    assert |c| == |code| + |m| + 1;
    forall i | 0 <= i < |m| ensures c[off + i] == m[i] {
      assert c[off + i] == (m + ['\n'] + m)[|m| + 1 + i];
    }
    forall j | start <= j < end ensures c[j + |m| + 1] == code[j] {
      assert c[j + |m| + 1] == c[off + (j - a)];
    }
  }

  /** The as-written duplicate agrees with the corrected one whenever the
      selection is empty or ends at the end of its line. */
  lemma {:induction false} DuplicateLineAgrees(code: string, start: nat, end: nat)
    requires start <= end <= |code|
    requires start == end || end == LineEnd(code, end)
    ensures DuplicateLine(code, start, end) == DuplicateLines(code, start, end)
  {
    if start == end {
      var sl := LineIndex(code, start);
      LinesBetween(code, start, end);
      var lines := Split(code, '\n');
      assert lines[sl..sl + 1] == [lines[sl]];
    }
  }

  /** Selecting "a" in "ab" and duplicating splits the line instead of copying it. */
  lemma DuplicateSelectionSplitsLine()
    ensures DuplicateLine("ab", 0, 1) == Edit("a\nabb", 3, 4)
    ensures DuplicateLines("ab", 0, 1) == Edit("ab\nab", 3, 4)
    ensures "a\nabb"[3..4] != "ab"[0..1]
  {
    SplitNoSep("ab", '\n');
    SplitNoSep("a", '\n');
    SplitLength("", '\n');
    assert "ab"[..1] == "a";
    assert "ab"[..0] == "";
    assert Join(["ab"], '\n') == "ab";
  }

  // ---------------------------------------------------------------- line comments

  /** `line.trim().startsWith('//')`. */
  predicate IsLineComment(line: string) {
    StartsWith(JsTrim(line), "//")
  }

  /** `line.replace(/^\/\/\s?/, '')`: a `//` at the very start of the line goes,
      with one whitespace character after it. */
  function UncommentLine(line: string): string {
    if StartsWith(line, "//") then
      if |line| > 2 && IsJsSpace(line[2]) then line[3..] else line[2..]
    else line
  }

  /** `Math.min(line.indexOf(line.trim()), 2)`. */
  function IndentShift(line: string): int {
    var k := IndexOf(line, JsTrim(line), 0);
    if k < 2 then k else 2
  }

  /** What the toggle does to one line of the range. */
  function ToggleLine(line: string): string {
    if IsLineComment(line) then UncommentLine(line) else "// " + line
  }

  /** How far the toggle moves a selection end on that line. */
  function LineShift(line: string): int {
    if IsLineComment(line) then -IndentShift(line) else 3
  }

  /** The lines after the toggle: those from sl to el toggled, the rest kept. */
  function ToggledLines(lines: seq<string>, sl: nat, el: nat): (r: seq<string>)
    ensures |r| == |lines|
  {
    seq(|lines|, i requires 0 <= i < |lines| => if sl <= i <= el then ToggleLine(lines[i]) else lines[i])
  }

  /** The total shift of the selection's end after the first n lines. */
  function EndShift(lines: seq<string>, sl: nat, el: nat, n: nat): int
    requires n <= |lines|
  {
    if n == 0 then 0
    else EndShift(lines, sl, el, n - 1) + (if sl <= n - 1 <= el then LineShift(lines[n - 1]) else 0)
  }

  /** `toggleLineComment` as a value: the toggled lines joined again, the
      selection start moved by the first selected line's shift and the end by
      the shifts of all selected lines. */
  function LineCommentToggled(code: string, start: nat, end: nat): Edit
    requires start <= end <= |code|
  {
    var lines := Split(code, '\n');
    var sl, el := LineIndex(code, start), LineIndex(code, end);
    LineIndexBounds(code, start, end);
    Edit(Join(ToggledLines(lines, sl, el), '\n'),
         start + LineShift(lines[sl]), end + EndShift(lines, sl, el, |lines|))
  }

  /** The first i pieces of a join, each but the last followed by its separator. */
  function JoinedPrefix(ts: seq<string>, i: nat): string
    requires i <= |ts|
  {
    if i == 0 then "" else Join(ts[..i], '\n') + (if i < |ts| then "\n" else "")
  }

  lemma {:induction false} JoinedPrefixStep(ts: seq<string>, i: nat)
    requires i < |ts|
    ensures JoinedPrefix(ts, i + 1) == JoinedPrefix(ts, i) + (ts[i] + if i < |ts| - 1 then "\n" else "")
  {
    if i == 0 {
      assert ts[..1] == [ts[0]];
    } else {
      JoinSnoc(ts[..i], '\n', ts[i]);
      assert ts[..i] + [ts[i]] == ts[..i + 1];
    }
  }

  /** One line of the loop: the piece it appends and the shift it adds. */
  lemma ToggleStep(lines: seq<string>, sl: nat, el: nat, i: nat)
    requires i < |lines|
    ensures ToggledLines(lines, sl, el)[i] == if sl <= i <= el then ToggleLine(lines[i]) else lines[i]
    ensures EndShift(lines, sl, el, i + 1)
         == EndShift(lines, sl, el, i) + if sl <= i <= el then LineShift(lines[i]) else 0
  {
  }

  /** `toggleLineComment`: the line loop appends each line, toggled when it
      lies in the selected range, and moves the selection's ends. */
  method ToggleLineComment(code: string, start: nat, end: nat) returns (r: Edit)
    requires start <= end <= |code|
    ensures r == LineCommentToggled(code, start, end)
  {
    var lines := Split(code, '\n');
    var startLine := LineIndex(code, start);
    var endLine := LineIndex(code, end);
    LineIndexBounds(code, start, end);
    ghost var ts := ToggledLines(lines, startLine, endLine);
    var newCode := "";
    var newStart: int := start;
    var newEnd: int := end;
    for i := 0 to |lines|
      invariant newCode == JoinedPrefix(ts, i)
      invariant newStart == start + (if startLine < i then LineShift(lines[startLine]) else 0)
      invariant newEnd == end + EndShift(lines, startLine, endLine, i)
    {
      JoinedPrefixStep(ts, i);
      ToggleStep(lines, startLine, endLine, i);
      var sep := if i < |lines| - 1 then "\n" else "";
      if i >= startLine && i <= endLine {
        if IsLineComment(lines[i]) {
          newCode := newCode + (UncommentLine(lines[i]) + sep);
          if i == startLine {
            newStart := newStart - IndentShift(lines[i]);
          }
          if i <= endLine {
            newEnd := newEnd - IndentShift(lines[i]);
          }
        } else {
          newCode := newCode + ("// " + lines[i] + sep);
          if i == startLine {
            newStart := newStart + 3;
          }
          if i <= endLine {
            newEnd := newEnd + 3;
          }
        }
      } else {
        newCode := newCode + (lines[i] + sep);
      }
    }
    assert ts[..|ts|] == ts;
    r := Edit(newCode, newStart, newEnd);
  }

  /** Where `line.trim()` first occurs in the line: after its leading whitespace. */
  lemma {:induction false} IndexOfTrim(line: string)
    requires JsTrim(line) != []
    ensures IndexOf(line, JsTrim(line), 0) == |line| - |StripLeading(line, JsSpace)|
  {
    var t, a := JsTrim(line), |line| - |StripLeading(line, JsSpace)|;
    TrimIsSlice(line, JsSpace);
    assert OccursAt(line, t, a);
    IndexOfIs(line, t, a);
  }

  /** On a commented line the start moves back by the line's indentation,
      at most 2 and however many characters the marker removal takes out. */
  lemma {:induction false} IndentShiftIsIndent(line: string)
    requires IsLineComment(line)
    ensures var indent := |line| - |StripLeading(line, JsSpace)|;
      IndentShift(line) == if indent < 2 then indent else 2
  {
    IndexOfTrim(line);
  }

  /** A line that opens with `//` counts as a comment. */
  lemma {:induction false} MarkerIsComment(line: string)
    requires StartsWith(line, "//")
    ensures IsLineComment(line)
  {
    assert !JsSpace('/');
    assert StripLeading(line, JsSpace) == line;
    StripTrailingSpec(line, JsSpace);
    var r := StripTrailing(line, JsSpace);
    assert line[1] == line[..2][1] && !JsSpace(line[1]);
    assert r[..2] == line[..2];
  }

  /** Toggling twice gives back a line that was not a comment. */
  lemma {:induction false} ToggleLineTwice(line: string)
    requires !IsLineComment(line)
    ensures ToggleLine(ToggleLine(line)) == line
  {
    var c := "// " + line;
    assert c[..2] == "//";
    MarkerIsComment(c);
    assert c[3..] == line;
  }

  /** Toggling twice gives back a line commented as the toggle comments:
      `// ` followed by text that is not itself a comment. */
  lemma {:induction false} UncommentThenComment(line: string)
    requires |line| >= 3 && line[..3] == "// " && !IsLineComment(line[3..])
    ensures ToggleLine(line) == line[3..]
    ensures ToggleLine(ToggleLine(line)) == line
  {
    assert line[..2] == "//";
    MarkerIsComment(line);
    assert line[2] == ' ';
    assert "// " + line[3..] == line;
  }

  /** Toggling the same range twice restores the lines when none of them was a comment. */
  lemma {:induction false} ToggledLinesTwice(lines: seq<string>, sl: nat, el: nat)
    requires forall i :: sl <= i <= el && i < |lines| ==> !IsLineComment(lines[i])
    ensures ToggledLines(ToggledLines(lines, sl, el), sl, el) == lines
  {
    var once := ToggledLines(lines, sl, el);
    var twice := ToggledLines(once, sl, el);
    forall i | 0 <= i < |lines| ensures twice[i] == lines[i] {
      if sl <= i <= el {
        ToggleLineTwice(lines[i]);
      }
    }
  }

  /** The relation between a selected line and what the toggle leaves of it:
      a line that is not a comment gains `// `; a comment loses a leading
      `//` and one whitespace character after it, and a comment that does not
      start at the first column stays as it is. */
  predicate CommentToggled(line: string, out: string) {
    if !IsLineComment(line) then out == "// " + line
    else if !StartsWith(line, "//") then out == line
    else if |line| >= 3 && IsJsSpace(line[2]) then line == line[..3] + out
    else line == "//" + out
  }

  lemma {:induction false} ToggleLineToggles(line: string)
    ensures CommentToggled(line, ToggleLine(line))
  {
    if IsLineComment(line) && StartsWith(line, "//") {
      if |line| > 2 && IsJsSpace(line[2]) {
        assert line == line[..3] + line[3..];
      } else {
        assert line == line[..2] + line[2..];
      }
    }
  }

  /** Toggling keeps lines free of newlines. */
  lemma {:induction false} ToggledLinesFree(lines: seq<string>, sl: nat, el: nat)
    requires Free(lines, '\n')
    ensures Free(ToggledLines(lines, sl, el), '\n')
  {
    var ts := ToggledLines(lines, sl, el);
    forall i, k | 0 <= i < |ts| && 0 <= k < |ts[i]| ensures ts[i][k] != '\n' {
      if sl <= i <= el {
        var line := lines[i];
        if !IsLineComment(line) {
          if k >= 3 { assert ts[i][k] == line[k - 3]; }
        } else if StartsWith(line, "//") {
          if |line| > 2 && IsJsSpace(line[2]) {
            assert ts[i][k] == line[k + 3];
          } else {
            assert ts[i][k] == line[k + 2];
          }
        }
      }
    }
  }

  /** The toggle keeps the number of lines and every line outside the
      selected range, and toggles each line inside it. */
  lemma {:induction false} ToggleLineCommentLines(code: string, start: nat, end: nat)
    requires start <= end <= |code|
    ensures var lines, out := Split(code, '\n'), Split(LineCommentToggled(code, start, end).code, '\n');
      var sl, el := LineIndex(code, start), LineIndex(code, end);
      && |out| == |lines|
      && (forall i :: 0 <= i < |lines| && !(sl <= i <= el) ==> out[i] == lines[i])
      && (forall i :: sl <= i <= el ==> i < |lines| && CommentToggled(lines[i], out[i]))
  {
    var lines := Split(code, '\n');
    var sl, el := LineIndex(code, start), LineIndex(code, end);
    LineIndexBounds(code, start, end);
    var ts := ToggledLines(lines, sl, el);
    assert Split(LineCommentToggled(code, start, end).code, '\n') == ts by {
      SplitFree(code, '\n');
      ToggledLinesFree(lines, sl, el);
      SplitJoin(ts, '\n');
    }
    forall i | sl <= i <= el ensures CommentToggled(lines[i], ts[i]) {
      ToggleLineToggles(lines[i]);
    }
  }

  // ---------------------------------------------------------------- block comments

  // `t.trim()` starts with a block opener and ends with a block closer.
  predicate IsBlockComment(t: string) {
    StartsWith(JsTrim(t), "/*") && EndsWith(JsTrim(t), "*/")
  }

  // `t.replace(/^\/\*\s?/, '')`: the opener and one whitespace character after it.
  function DropBlockOpen(t: string): string {
    if StartsWith(t, "/*") then
      if |t| > 2 && IsJsSpace(t[2]) then t[3..] else t[2..]
    else t
  }

  // `t.replace(/\s?\*\/$/, '')`: the leftmost match ending the string takes
  // the whitespace character before the closer when there is one.
  function DropBlockClose(t: string): string {
    if EndsWith(t, "*/") then
      if |t| > 2 && IsJsSpace(t[|t| - 3]) then t[..|t| - 3] else t[..|t| - 2]
    else t
  }

  /** What the toggle does to the caret's line. */
  function ToggleBlockLine(t: string): string {
    if IsBlockComment(t) then DropBlockClose(DropBlockOpen(t)) else "/* " + t + " */"
  }

  /** `selectedText.slice(2, -2)`. */
  function SliceInner(t: string): string {
    if |t| >= 4 then t[2..|t| - 2] else ""
  }

  // The selection branch of `toggleBlockComment`: a selection that starts
  // with the opener and ends with the closer loses two characters at each
  // end, any other is wrapped in an opener and a closer with a space inside each.
  function ToggleSelectionComment(code: string, start: nat, end: nat): Edit
    requires start <= end <= |code|
  {
    var selectedText := code[start..end];
    if StartsWith(selectedText, "/*") && EndsWith(selectedText, "*/") then
      Edit(code[..start] + SliceInner(selectedText) + code[end..], start - 2, end - 4)
    else
      Edit(code[..start] + "/* " + selectedText + " */" + code[end..], start + 3, end + 7)
  }

  /** `toggleBlockComment` as written. Without a selection it toggles the
      caret's line, found from `lastIndexOf('\n', start - 1)`. */
  function ToggleBlockComment(code: string, start: nat, end: nat): Edit
    requires start <= end <= |code|
  {
    if start == end then
      var lineStartPos := LineStartAsWritten(code, start);
      var lineEndPos := LineEnd(code, start);
      var lineText := Substring(code, lineStartPos, lineEndPos);
      if IsBlockComment(lineText) then
        Edit(Substring(code, 0, lineStartPos) + DropBlockClose(DropBlockOpen(lineText)) + code[lineEndPos..],
             start - 2, end - 4)
      else
        Edit(Substring(code, 0, lineStartPos) + "/* " + lineText + " */" + code[lineEndPos..],
             start + 3, end + 7)
    else
      ToggleSelectionComment(code, start, end)
  }

  /** The block comment toggle with the caret's line found from its true start. */
  function ToggleBlockCommentAtLine(code: string, start: nat, end: nat): Edit
    requires start <= end <= |code|
  {
    if start == end then
      var a, b := LineStart(code, start), LineEnd(code, start);
      var lineText := code[a..b];
      if IsBlockComment(lineText) then
        Edit(code[..a] + DropBlockClose(DropBlockOpen(lineText)) + code[b..], start - 2, end - 4)
      else
        Edit(code[..a] + "/* " + lineText + " */" + code[b..], start + 3, end + 7)
    else
      ToggleSelectionComment(code, start, end)
  }

  /** A line start is fixed by the newline before it and the absence of one up to p. */
  lemma LineStartOf(code: string, p: nat, s: nat)
    requires s <= p <= |code| && (s == 0 || code[s - 1] == '\n')
    requires forall i :: s <= i < p ==> code[i] != '\n'
    ensures LineStart(code, p) == s
  {
  }

  /** A line end is fixed by the newline (or the end) at it and the absence of one from p. */
  lemma LineEndOf(code: string, p: nat, e: nat)
    requires p <= e <= |code| && (e == |code| || code[e] == '\n')
    requires forall i :: p <= i < e ==> code[i] != '\n'
    ensures LineEnd(code, p) == e
  {
  }

  /** After the line holding p is replaced by a text without newlines, every
      position on the new line has the new line's bounds. */
  lemma {:induction false} ReplacedLineBounds(code: string, p: nat, y: string, q: nat)
    requires p <= |code|
    requires forall i :: 0 <= i < |y| ==> y[i] != '\n'
    requires LineStart(code, p) <= q <= LineStart(code, p) + |y|
    ensures var a, b := LineStart(code, p), LineEnd(code, p);
      var c := code[..a] + y + code[b..];
      q <= |c| && LineStart(c, q) == a && LineEnd(c, q) == a + |y|
  {
    var a, b := LineStart(code, p), LineEnd(code, p);
    var c := code[..a] + y + code[b..];
    assert forall i :: a <= i < a + |y| ==> c[i] == y[i - a];
    assert a > 0 ==> c[a - 1] == code[a - 1];
    assert b < |code| ==> c[a + |y|] == code[b];
    LineStartOf(c, q, a);
    LineEndOf(c, q, a + |y|);
  }

  /** Wrapping a line makes a block comment that unwrapping takes back to the line. */
  lemma {:induction false} UnwrapWrap(t: string)
    ensures IsBlockComment("/* " + t + " */")
    ensures DropBlockClose(DropBlockOpen("/* " + t + " */")) == t
  {
    var w := "/* " + t + " */";
    TrimUnchanged(w, JsSpace);
    assert w[..2] == "/*" && w[|w| - 2..] == "*/";
    var o := w[3..];
    assert DropBlockOpen(w) == o && o == t + " */";
    assert o[|o| - 2..] == "*/" && o[|o| - 3] == ' ';
    assert o[..|o| - 3] == t;
  }

  /** Toggling leaves a line without newlines when it had none. */
  lemma {:induction false} ToggleBlockLineFree(t: string)
    requires forall i :: 0 <= i < |t| ==> t[i] != '\n'
    ensures var u := ToggleBlockLine(t); forall i :: 0 <= i < |u| ==> u[i] != '\n'
  {
    if IsBlockComment(t) {
      var o := DropBlockOpen(t);
      var k := |t| - |o|;
      assert o == t[k..];
      var c := DropBlockClose(o);
      assert c == o[..|c|];
      forall i | 0 <= i < |c| ensures c[i] != '\n' {
        assert c[i] == o[i] == t[k + i];
      }
    } else {
      WrapFree(t);
    }
  }

  lemma {:induction false} WrapFree(t: string)
    requires forall i :: 0 <= i < |t| ==> t[i] != '\n'
    ensures var w := "/* " + t + " */"; forall i :: 0 <= i < |w| ==> w[i] != '\n'
  {
    var w := "/* " + t + " */";
    forall i | 0 <= i < |w| ensures w[i] != '\n' {
      if 3 <= i < |w| - 3 {
        assert w[i] == t[i - 3];
      }
    }
  }

  /** Without a selection, the toggle rewrites the caret's line and nothing else. */
  lemma {:induction false} CaretBlockToggle(code: string, p: nat)
    requires p <= |code|
    ensures var a, b := LineStart(code, p), LineEnd(code, p);
      ToggleBlockCommentAtLine(code, p, p).code == code[..a] + ToggleBlockLine(code[a..b]) + code[b..]
  {
  }

  /** Without a selection, the toggle replaces the caret's line by its
      toggled form and leaves every other line as it was. */
  lemma {:induction false} ToggleBlockCommentLines(code: string, p: nat)
    requires p <= |code|
    ensures var lines, k := Split(code, '\n'), LineIndex(code, p);
      k < |lines|
      && Split(ToggleBlockCommentAtLine(code, p, p).code, '\n')
         == lines[..k] + [ToggleBlockLine(lines[k])] + lines[k + 1..]
  {
    var a, b := LineStart(code, p), LineEnd(code, p);
    var line := code[a..b];
    var y := ToggleBlockLine(line);
    CaretBlockToggle(code, p);
    assert Split(code[..a] + y + code[b..], '\n') == LinesBefore(code, a) + [y] + LinesAfter(code, b) by {
      ToggleBlockLineFree(line);
      SplitFrame(code, a, b, y);
      SplitNoSep(y, '\n');
    }
    LineAt(code, p);
    var lines := Split(code, '\n');
    var before := LinesBefore(code, a);
    assert lines[..|before|] == before && lines[|before|] == line && lines[|before| + 1..] == LinesAfter(code, b);
  }

  /** Toggling at p after the line holding p was wrapped works on the wrapped line. */
  lemma {:induction false} ToggleWrappedLine(code: string, p: nat)
    requires p <= |code|
    ensures var a, b := LineStart(code, p), LineEnd(code, p);
      var y := "/* " + code[a..b] + " */";
      var c := code[..a] + y + code[b..];
      p <= |c| && a + |y| <= |c|
      && ToggleBlockCommentAtLine(c, p, p).code == c[..a] + ToggleBlockLine(y) + c[a + |y|..]
  {
    var a, b := LineStart(code, p), LineEnd(code, p);
    var line := code[a..b];
    var y := "/* " + line + " */";
    var c := code[..a] + y + code[b..];
    assert LineStart(c, p) == a && LineEnd(c, p) == a + |y| by {
      WrapFree(line);
      ReplacedLineBounds(code, p, y, p);
    }
    var e := a + |y|;
    assert c[a..e] == y by {
      Pieces(code[..a], y, code[b..]);
    }
    assert ToggleBlockCommentAtLine(c, p, p).code == c[..a] + ToggleBlockLine(c[a..e]) + c[e..] by {
      CaretBlockToggle(c, p);
    }
  }

  /** Toggling an uncommented line twice at the same caret gives back the code. */
  lemma {:induction false} ToggleBlockCommentTwice(code: string, p: nat)
    requires p <= |code|
    requires !IsBlockComment(code[LineStart(code, p)..LineEnd(code, p)])
    ensures p <= |ToggleBlockCommentAtLine(code, p, p).code|
    ensures ToggleBlockCommentAtLine(ToggleBlockCommentAtLine(code, p, p).code, p, p).code == code
  {
    var a, b := LineStart(code, p), LineEnd(code, p);
    var line := code[a..b];
    var y := "/* " + line + " */";
    var c := code[..a] + y + code[b..];
    assert ToggleBlockCommentAtLine(code, p, p).code == c by {
      CaretBlockToggle(code, p);
    }
    ToggleWrappedLine(code, p);
    assert ToggleBlockLine(y) == line by {
      UnwrapWrap(line);
    }
    Pieces(code[..a], y, code[b..]);
    Reassemble(code, a, b);
  }

  /** The three parts of a concatenation are its slices. */
  lemma Pieces<T>(x: seq<T>, y: seq<T>, z: seq<T>)
    ensures var s := x + y + z;
      s[..|x|] == x && s[|x|..|x| + |y|] == y && s[|x| + |y|..] == z
  {
  }

  lemma Reassemble<T>(s: seq<T>, a: nat, b: nat)
    requires a <= b <= |s|
    ensures s[..a] + s[a..b] + s[b..] == s
  {
  }

  /** Wrapping a selection keeps the text around it, puts the selected text
      at the new start, and ends the new selection four characters past it,
      which is one character past the closer. */
  lemma {:induction false} SelectionWrapped(code: string, start: nat, end: nat)
    requires start < end <= |code|
    requires !(StartsWith(code[start..end], "/*") && EndsWith(code[start..end], "*/"))
    ensures var r, n := ToggleBlockComment(code, start, end), end - start;
      && r.start == start + 3 && r.end == r.start + n + 4
      && |r.code| == |code| + 6
      && r.code[..start] == code[..start]
      && r.code[r.start..r.start + n] == code[start..end]
      && r.code[start + n + 6..] == code[end..]
  {
    var sel := code[start..end];
    assert ToggleBlockComment(code, start, end).code == code[..start] + ("/* " + sel + " */") + code[end..];
    Pieces(code[..start], "/* " + sel + " */", code[end..]);
  }

  /** Unwrapping a selection keeps the text around it and leaves what lay
      two characters inside each end; a selection shorter than four
      characters, an opener overlapping a closer, disappears. */
  lemma {:induction false} SelectionUnwrapped(code: string, start: nat, end: nat)
    requires start < end <= |code|
    requires StartsWith(code[start..end], "/*") && EndsWith(code[start..end], "*/")
    ensures var r, n := ToggleBlockComment(code, start, end), end - start;
      var inner := if n >= 4 then code[start + 2..end - 2] else [];
      && r.start == start - 2 && r.end == end - 4
      && r.code == code[..start] + inner + code[end..]
  {
    var sel := code[start..end];
    if |sel| >= 4 {
      var u, v := sel[2..|sel| - 2], code[start + 2..end - 2];
      assert |u| == |v|;
      forall i | 0 <= i < |u| ensures u[i] == v[i] {
        assert u[i] == sel[2 + i];
      }
    }
  }

  /** Wrapping a selection and then unwrapping the whole comment gives back
      the selection with a space on each side: the wrap adds three characters
      at each end and the unwrap takes two. */
  lemma {:induction false} SelectionWrapUnwrap(code: string, start: nat, end: nat)
    requires start < end <= |code|
    requires !(StartsWith(code[start..end], "/*") && EndsWith(code[start..end], "*/"))
    ensures var c := ToggleBlockComment(code, start, end).code;
      end + 6 <= |c|
      && ToggleBlockComment(c, start, end + 6).code == code[..start] + (" " + code[start..end] + " ") + code[end..]
  {
    var sel := code[start..end];
    var w := "/* " + sel + " */";
    var c := code[..start] + w + code[end..];
    assert ToggleBlockComment(code, start, end).code == c;
    Pieces(code[..start], w, code[end..]);
    assert c[start..end + 6] == w;
    assert w[..2] == "/*" && w[|w| - 2..] == "*/";
    assert w[2..|w| - 2] == " " + sel + " ";
  }

  /** The two agree except with the caret at the start of a code that opens with a newline. */
  lemma {:induction false} ToggleBlockCommentAgrees(code: string, start: nat, end: nat)
    requires start <= end <= |code|
    requires start > 0 || start < end || code == [] || code[0] != '\n'
    ensures ToggleBlockComment(code, start, end) == ToggleBlockCommentAtLine(code, start, end)
  {
    if start == end {
      LineStartAsWrittenAgrees(code, start);
      assert Substring(code, 0, LineStart(code, start)) == code[..LineStart(code, start)];
    }
  }

  /** With the caret on the empty first line of "\nab", the toggle as written
      wraps the newline itself and turns two lines into four. */
  lemma {:induction false} BlockCommentOnEmptyFirstLine()
    ensures ToggleBlockComment("\nab", 0, 0).code == "\n/* \n */\nab"
    ensures ToggleBlockCommentAtLine("\nab", 0, 0).code == "/*  */\nab"
    ensures |Split("\nab", '\n')| == 2 && |Split("\n/* \n */\nab", '\n')| == 4
  {
    WrappedNewline();
    WrappedEmptyLine();
    WrappedNewlineLines();
  }

  lemma {:induction false} WrappedNewline()
    ensures ToggleBlockComment("\nab", 0, 0).code == "\n/* \n */\nab"
  {
    var code := "\nab";
    assert LineEnd(code, 0) == 0 by { assert code[0] == '\n'; }
    assert LineStartAsWritten(code, 0) == 1 by { assert LastIndexUpTo(code, '\n', 0) == 0; }
    var nl := Substring(code, 1, 0);
    assert nl == "\n" && Substring(code, 0, 1) == "\n";
    assert !IsBlockComment(nl) by { JsTrimEmptyIff(nl); }
    assert code[0..] == code;
    var asWritten := nl + "/* " + nl + " */" + code;
    assert ToggleBlockComment(code, 0, 0).code == asWritten;
    assert |asWritten| == 11;
    forall i | 0 <= i < 11 ensures asWritten[i] == "\n/* \n */\nab"[i] { }
  }

  lemma {:induction false} WrappedEmptyLine()
    ensures ToggleBlockCommentAtLine("\nab", 0, 0).code == "/*  */\nab"
  {
    var code := "\nab";
    assert LineEnd(code, 0) == 0 by { assert code[0] == '\n'; }
    assert !IsBlockComment([]) by { JsTrimEmptyIff([]); }
    assert code[0..0] == [] && code[..0] == [] && code[0..] == code;
    var atLine := [] + "/* " + [] + " */" + code;
    assert ToggleBlockCommentAtLine(code, 0, 0).code == atLine;
    assert |atLine| == 9;
    forall i | 0 <= i < 9 ensures atLine[i] == "/*  */\nab"[i] { }
  }

  lemma {:induction false} WrappedNewlineLines()
    ensures |Split("\nab", '\n')| == 2 && |Split("\n/* \n */\nab", '\n')| == 4
  {
    var t3 := "ab";
    SplitNoSep(t3, '\n');
    NewlineThen(t3, 1);
    var t2 := " */" + (['\n'] + t3);
    SplitPiecePlusSep(" */", '\n', t3);
    var t1 := "/* " + (['\n'] + t2);
    SplitPiecePlusSep("/* ", '\n', t2);
    NewlineThen(t1, 3);
    assert "\n/* \n */\nab" == ['\n'] + t1;
  }

  /** A code that opens with a newline has one more line than the rest. */
  lemma {:induction false} NewlineThen(rest: string, n: nat)
    requires |Split(rest, '\n')| == n
    ensures |Split(['\n'] + rest, '\n')| == n + 1
  {
    assert (['\n'] + rest)[1..] == rest;
  }

  // ---------------------------------------------------------------- auto-closing

  /** `code[i] === q && (i === 0 || code[i - 1] !== '\\')`. */
  predicate UnescapedAt(code: string, i: nat, q: char)
    requires i < |code|
  {
    code[i] == q && (i == 0 || code[i - 1] != '\\')
  }

  /** The number of unescaped q at positions lo up to hi. */
  function UnescapedCount(code: string, q: char, lo: nat, hi: nat): nat
    requires lo <= hi <= |code|
    decreases hi - lo
  {
    if lo == hi then 0
    else (if UnescapedAt(code, lo, q) then 1 else 0) + UnescapedCount(code, q, lo + 1, hi)
  }

  /** An odd number of unescaped q before the cursor: the cursor is inside a q-quoted string. */
  predicate InsideQuotes(code: string, cursor: nat, q: char)
    requires cursor <= |code|
  {
    UnescapedCount(code, q, 0, cursor) % 2 == 1
  }

  /** Inside a double- or a single-quoted string. */
  predicate InsideString(code: string, cursor: nat)
    requires cursor <= |code|
  {
    InsideQuotes(code, cursor, '"') || InsideQuotes(code, cursor, '\'')
  }

  /** `!nextChar || /[\s\n;,.)}\]]/.test(nextChar)`. */
  predicate NextAllowsClose(code: string, cursor: nat)
    requires cursor <= |code|
  {
    cursor == |code| || IsJsSpace(code[cursor]) || code[cursor] in ";,.)}]"
  }

  /** Whether typing `opener` also inserts `closer`. */
  predicate ClosesPair(code: string, cursor: nat, closer: char, hasSelection: bool, inside: bool)
    requires cursor <= |code|
  {
    !hasSelection && !inside && !(cursor < |code| && code[cursor] == closer) && NextAllowsClose(code, cursor)
  }

  /** What an auto-close handler returns: the opener alone, or the opener and
      the closer, inserted at the cursor, and the cursor just past the opener. */
  function AutoClosed(code: string, cursor: nat, opener: char, closer: char, closes: bool): (r: Caret)
    requires cursor <= |code|
  {
    if closes then Caret(code[..cursor] + [opener, closer] + code[cursor..], cursor + 1)
    else Caret(code[..cursor] + [opener] + code[cursor..], cursor + 1)
  }

  /** The quotes of kind q among code[i..cursor), counted from the cursor backwards. */
  method CountUnescaped(code: string, cursor: nat, q: char) returns (count: nat)
    requires cursor <= |code|
    ensures count == UnescapedCount(code, q, 0, cursor)
  {
    var i: int := cursor - 1;
    count := 0;
    while i >= 0
      invariant -1 <= i < cursor
      invariant count == UnescapedCount(code, q, i + 1, cursor)
      decreases i
    {
      if code[i] == q && (i == 0 || code[i - 1] != '\\') {
        count := count + 1;
      }
      i := i - 1;
    }
  }

  /** `handleAutoCloseQuote`: typing a quote closes it unless there is a
      selection, the cursor is inside a string of that quote, the next
      character is the same quote, or the next character is not a space, an
      end or one of `;,.)}]`. */
  method HandleAutoCloseQuote(code: string, cursor: nat, quote: char, hasSelection: bool) returns (r: Caret)
    requires cursor <= |code|
    ensures r == AutoClosed(code, cursor, quote, quote,
                            ClosesPair(code, cursor, quote, hasSelection, InsideQuotes(code, cursor, quote)))
  {
    if hasSelection {
      return Caret(code[..cursor] + [quote] + code[cursor..], cursor + 1);
    }
    var isNextCharClosingQuote := cursor < |code| && code[cursor] == quote;
    var isNextCharValidForAutoClose := NextAllowsClose(code, cursor);
    var quoteCount := CountUnescaped(code, cursor, quote);
    var isInsideString := quoteCount % 2 == 1;
    if isInsideString || isNextCharClosingQuote || !isNextCharValidForAutoClose {
      r := Caret(code[..cursor] + [quote] + code[cursor..], cursor + 1);
    } else {
      r := Caret(code[..cursor] + [quote, quote] + code[cursor..], cursor + 1);
    }
  }

  /** The shared body of `handleAutoCloseParen`, `handleAutoCloseCurly` and
      `handleAutoCloseBracket`: one backward scan counts unescaped double and
      single quotes, and the pair closes unless there is a selection, the
      cursor is inside either kind of string, the next character is the
      closer, or the next character does not allow closing. */
  method HandleAutoClosePair(code: string, cursor: nat, opener: char, closer: char, hasSelection: bool)
    returns (r: Caret)
    requires cursor <= |code|
    ensures r == AutoClosed(code, cursor, opener, closer,
                            ClosesPair(code, cursor, closer, hasSelection, InsideString(code, cursor)))
  {
    if hasSelection {
      return Caret(code[..cursor] + [opener] + code[cursor..], cursor + 1);
    }
    var isNextCharClosing := cursor < |code| && code[cursor] == closer;
    var isNextCharValidForAutoClose := NextAllowsClose(code, cursor);
    var i: int := cursor - 1;
    var doubleQuoteCount, singleQuoteCount := 0, 0;
    while i >= 0
      invariant -1 <= i < cursor
      invariant doubleQuoteCount == UnescapedCount(code, '"', i + 1, cursor)
      invariant singleQuoteCount == UnescapedCount(code, '\'', i + 1, cursor)
      decreases i
    {
      if code[i] == '"' && (i == 0 || code[i - 1] != '\\') {
        doubleQuoteCount := doubleQuoteCount + 1;
      } else if code[i] == '\'' && (i == 0 || code[i - 1] != '\\') {
        singleQuoteCount := singleQuoteCount + 1;
      }
      i := i - 1;
    }
    var isInsideString := doubleQuoteCount % 2 == 1 || singleQuoteCount % 2 == 1;
    if isInsideString || isNextCharClosing || !isNextCharValidForAutoClose {
      r := Caret(code[..cursor] + [opener] + code[cursor..], cursor + 1);
    } else {
      r := Caret(code[..cursor] + [opener, closer] + code[cursor..], cursor + 1);
    }
  }

  method HandleAutoCloseParen(code: string, cursor: nat, hasSelection: bool) returns (r: Caret)
    requires cursor <= |code|
    ensures r == AutoClosed(code, cursor, '(', ')', ClosesPair(code, cursor, ')', hasSelection, InsideString(code, cursor)))
  {
    r := HandleAutoClosePair(code, cursor, '(', ')', hasSelection);
  }

  method HandleAutoCloseCurly(code: string, cursor: nat, hasSelection: bool) returns (r: Caret)
    requires cursor <= |code|
    ensures r == AutoClosed(code, cursor, '{', '}', ClosesPair(code, cursor, '}', hasSelection, InsideString(code, cursor)))
  {
    r := HandleAutoClosePair(code, cursor, '{', '}', hasSelection);
  }

  method HandleAutoCloseBracket(code: string, cursor: nat, hasSelection: bool) returns (r: Caret)
    requires cursor <= |code|
    ensures r == AutoClosed(code, cursor, '[', ']', ClosesPair(code, cursor, ']', hasSelection, InsideString(code, cursor)))
  {
    r := HandleAutoClosePair(code, cursor, '[', ']', hasSelection);
  }

  /** Every handler puts the cursor just past the opener, keeps the text on
      both sides, adds the closer right after the cursor exactly when the
      pair closes, and removing what it inserted gives back the code. */
  lemma {:induction false} AutoClosedShape(code: string, cursor: nat, opener: char, closer: char, closes: bool)
    requires cursor <= |code|
    ensures var r, n := AutoClosed(code, cursor, opener, closer, closes), if closes then 2 else 1;
      && r.cursor == cursor + 1
      && |r.code| == |code| + n
      && r.code[..cursor] == code[..cursor] && r.code[cursor] == opener
      && (closes <==> r.code[cursor + 1..] == [closer] + code[cursor..])
      && r.code[cursor + n..] == code[cursor..]
      && r.code[..cursor] + r.code[cursor + n..] == code
  {
    var r, n := AutoClosed(code, cursor, opener, closer, closes), if closes then 2 else 1;
    var ins := if closes then [opener, closer] else [opener];
    Pieces(code[..cursor], ins, code[cursor..]);
    if !closes {
      assert |r.code[cursor + 1..]| == |code| - cursor;
    }
  }

  lemma {:induction false} UnescapedCountSnoc(code: string, q: char, lo: nat, hi: nat)
    requires lo <= hi < |code|
    ensures UnescapedCount(code, q, lo, hi + 1)
         == UnescapedCount(code, q, lo, hi) + (if UnescapedAt(code, hi, q) then 1 else 0)
    decreases hi - lo
  {
    if lo < hi {
      UnescapedCountSnoc(code, q, lo + 1, hi);
    }
  }

  /** The count looks no further than hi. */
  lemma {:induction false} UnescapedCountPrefix(code: string, other: string, q: char, lo: nat, hi: nat)
    requires lo <= hi <= |code| && hi <= |other| && code[..hi] == other[..hi]
    ensures UnescapedCount(code, q, lo, hi) == UnescapedCount(other, q, lo, hi)
    decreases hi - lo
  {
    if lo < hi {
      assert code[lo] == code[..hi][lo] && other[lo] == other[..hi][lo];
      assert lo > 0 ==> code[lo - 1] == code[..hi][lo - 1] && other[lo - 1] == other[..hi][lo - 1];
      UnescapedCountPrefix(code, other, q, lo + 1, hi);
    }
  }

  /** A quote typed at the cursor moves the new cursor into a string when it
      was outside one and out of it when it was inside, unless the quote is
      escaped by a backslash before it. */
  lemma {:induction false} TypedQuoteToggles(code: string, cursor: nat, q: char, typed: string)
    requires cursor < |typed| && cursor <= |code|
    requires typed[..cursor + 1] == code[..cursor] + [q]
    ensures InsideQuotes(typed, cursor + 1, q)
        <==> (InsideQuotes(code, cursor, q) != (cursor == 0 || code[cursor - 1] != '\\'))
  {
    assert typed[..cursor] == code[..cursor] by {
      assert typed[..cursor] == typed[..cursor + 1][..cursor];
    }
    UnescapedCountPrefix(typed, code, q, 0, cursor);
    UnescapedCountSnoc(typed, q, 0, cursor);
    assert typed[cursor] == typed[..cursor + 1][cursor] == q;
    assert cursor > 0 ==> typed[cursor - 1] == code[cursor - 1] by {
      if cursor > 0 {
        assert typed[cursor - 1] == typed[..cursor][cursor - 1];
        assert code[cursor - 1] == code[..cursor][cursor - 1];
      }
    }
  }

  /** So after `handleAutoCloseQuote` the cursor is inside a string exactly
      when it was outside one before, for a quote that is not escaped. */
  lemma {:induction false} AutoCloseQuoteToggles(code: string, cursor: nat, quote: char, hasSelection: bool)
    requires cursor <= |code|
    requires cursor == 0 || code[cursor - 1] != '\\'
    ensures var r := AutoClosed(code, cursor, quote, quote,
                                ClosesPair(code, cursor, quote, hasSelection, InsideQuotes(code, cursor, quote)));
      r.cursor <= |r.code| && (InsideQuotes(r.code, r.cursor, quote) <==> !InsideQuotes(code, cursor, quote))
  {
    var closes := ClosesPair(code, cursor, quote, hasSelection, InsideQuotes(code, cursor, quote));
    AutoClosedShape(code, cursor, quote, quote, closes);
    var r := AutoClosed(code, cursor, quote, quote, closes);
    assert r.code[..cursor + 1] == code[..cursor] + [quote] by {
      assert r.code[..cursor + 1] == r.code[..cursor] + [r.code[cursor]];
    }
    TypedQuoteToggles(code, cursor, quote, r.code);
  }

  // ---------------------------------------------------------------- shortcut expansion

  /** The Java snippets a word before the cursor expands to. */
  const ShortcutMappings: map<string, string> := map[
    "sout" := "System.out.println()",
    "main" := "public static void main(String[] args) {}",
    "fori" := "for (int i = 0; i < ; i++) {}",
    "if" := "if () {}",
    "else" := "else {}",
    "while" := "while () {}",
    "class" := "public class  {}"
  ]

  /** Where the last piece of `s.split(/[\s\n]+/)` starts: just past the last
      whitespace character, or 0. */
  function WordStart(s: string): (w: nat)
    ensures w <= |s| && (w == 0 || IsJsSpace(s[w - 1]))
    ensures forall i :: w <= i < |s| ==> !IsJsSpace(s[i])
    decreases |s|
  {
    if s == [] then 0
    else if IsJsSpace(s[|s| - 1]) then |s|
    else WordStart(s[..|s| - 1])
  }

  /** An empty pair of parentheses or braces at k. */
  predicate PairAt(rep: string, k: int) {
    OccursAt(rep, "()", k) || OccursAt(rep, "{}", k)
  }

  /** Where the cursor goes inside a replacement: past the opener of whichever
      of `()` and `{}` comes first, or to the end. */
  function CaretOffset(rep: string): nat {
    var parenIndex := IndexOf(rep, "()", 0);
    var braceIndex := IndexOf(rep, "{}", 0);
    if parenIndex != -1 && (braceIndex == -1 || parenIndex < braceIndex) then parenIndex + 1
    else if braceIndex != -1 then braceIndex + 1
    else |rep|
  }

  /** `expandShortcut`: a mapped word just before the cursor is replaced by
      its snippet, anything else gets four spaces. */
  function ExpandShortcut(code: string, cursor: nat): Caret
    requires cursor <= |code|
  {
    var beforeCursor := code[..cursor];
    var w := WordStart(beforeCursor);
    var lastWord := beforeCursor[w..];
    if lastWord in ShortcutMappings then
      var replacement := ShortcutMappings[lastWord];
      Caret(code[..w] + replacement + code[cursor..], w + CaretOffset(replacement))
    else
      Caret(code[..cursor] + "    " + code[cursor..], cursor + 4)
  }

  /** The cursor offset lands just past the opener of the first empty pair, or
      at the end when there is none. */
  lemma {:induction false} CaretOffsetFirstPair(rep: string)
    ensures var off := CaretOffset(rep);
      && 0 <= off <= |rep|
      && ((exists k :: PairAt(rep, k)) ==> off >= 1 && PairAt(rep, off - 1) && forall j :: 0 <= j < off - 1 ==> !PairAt(rep, j))
      && ((forall k :: !PairAt(rep, k)) ==> off == |rep|)
  {
    var p, b := IndexOf(rep, "()", 0), IndexOf(rep, "{}", 0);
    if p != -1 && (b == -1 || p < b) {
      assert PairAt(rep, p);
    } else if b != -1 {
      assert PairAt(rep, b);
      assert rep[b..b + 2][0] == rep[b];
      assert p != -1 ==> rep[p..p + 2][0] == rep[p];
    }
  }

  /** Without a mapped word before the cursor, four spaces go in at the cursor. */
  lemma {:induction false} ExpandWithoutShortcut(code: string, cursor: nat)
    requires cursor <= |code|
    requires code[WordStart(code[..cursor])..cursor] !in ShortcutMappings
    ensures var r := ExpandShortcut(code, cursor);
      && r.cursor == cursor + 4 && |r.code| == |code| + 4
      && r.code[..cursor] == code[..cursor] && r.code[cursor..cursor + 4] == "    "
      && r.code[cursor + 4..] == code[cursor..]
  {
    var before := code[..cursor];
    assert before[WordStart(before)..] == code[WordStart(before)..cursor];
    Pieces(code[..cursor], "    ", code[cursor..]);
  }

  /** With a mapped word before the cursor, the word, which follows a space
      or the start, is replaced by its snippet, the text before it and after
      the cursor stays, and the cursor lands inside the snippet. */
  lemma {:induction false} ExpandWithShortcut(code: string, cursor: nat)
    requires cursor <= |code|
    requires code[WordStart(code[..cursor])..cursor] in ShortcutMappings
    ensures var w := WordStart(code[..cursor]);
      var rep := ShortcutMappings[code[w..cursor]];
      var r := ExpandShortcut(code, cursor);
      && (w == 0 || IsJsSpace(code[w - 1]))
      && (forall i :: w <= i < cursor ==> !IsJsSpace(code[i]))
      && r.cursor == w + CaretOffset(rep) && w <= r.cursor <= w + |rep|
      && |r.code| == |code| - (cursor - w) + |rep|
      && r.code[..w] == code[..w] && r.code[w..w + |rep|] == rep && r.code[w + |rep|..] == code[cursor..]
  {
    var before := code[..cursor];
    var w := WordStart(before);
    assert before[w..] == code[w..cursor];
    assert w > 0 ==> code[w - 1] == before[w - 1];
    assert forall i :: w <= i < cursor ==> code[i] == before[i];
    var rep := ShortcutMappings[code[w..cursor]];
    CaretOffsetFirstPair(rep);
    Pieces(code[..w], rep, code[cursor..]);
  }

  /** Tab after `if` replaces it by its snippet "if () {}" and puts the
      cursor inside the condition's parentheses. */
  lemma {:induction false} ExpandIf()
    ensures ExpandShortcut("x if", 4) == Caret("x " + ShortcutMappings["if"], 6)
  {
    var code, rep := "x if", ShortcutMappings["if"];
    assert ExpandShortcut(code, 4) == Caret(code[..2] + rep + code[4..], 2 + CaretOffset(rep)) by {
      assert code[..4] == code;
      WordStartOfIf();
      assert code[2..] == "if";
    }
    IfCaretOffset();
    assert code[..2] == "x " && code[4..] == [];
    assert code[..2] + rep + [] == code[..2] + rep;
  }

  lemma {:induction false} WordStartOfIf()
    ensures WordStart("x if") == 2
  {
    var code := "x if";
    assert code[..3] == "x i" && code[..3][..2] == "x ";
  }

  lemma {:induction false} IfCaretOffset()
    ensures CaretOffset("if () {}") == 4
  {
    var rep := "if () {}";
    assert rep[3..5] == "()" && rep[6..8] == "{}";
    IndexOfIs(rep, "()", 3);
    IndexOfIs(rep, "{}", 6);
  }
}
