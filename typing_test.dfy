/**
  The word-level typing-test engine of `frontend/src/hooks/useTypingTest.js`.

  The snippet is split into alternating word and whitespace tokens. Each key
  press is consumed by `handleKeyDown`, which updates the per-token states, the
  cursor, the counters, the start/end timestamps and the per-second speed log.

  - Timestamps are integer milliseconds. The value 0 plays the part of JS
    `null`. The hook only ever tests them for truthiness, and 0 is falsy
    just as null is.
  - React defers every `setState`, so within one key press every read of
    state sees the value from before the key. Only the two refs
    (`isCompleted`, `lastLoggedTime`) change immediately. `KeyDown` below
    reads all state from the old snapshot for that reason.
  - `KeyDown` is the specification of one key press. The class `TypingTest`
    holds the hook's state as fields, and its `HandleKeyDown` method is proved
    to implement `KeyDown`.
*/
module TypingTest {
  import opened Strings
  import opened Numeric

  // ================================================================ tokens

  /* The splitting lemmas are stated for any character class `sp`; the
     tokenizer instantiates it with JavaScript's `\s`. Keeping the class
     abstract keeps the fifteen-way test of `IsJsSpace` out of the proofs. */

  predicate AllIn(w: string, sp: char -> bool) {
    forall i :: 0 <= i < |w| ==> sp(w[i])
  }

  predicate NoneIn(w: string, sp: char -> bool) {
    forall i :: 0 <= i < |w| ==> !sp(w[i])
  }

  /** Length of the longest prefix of `s` with no character of the class. */
  function OutsideRun(s: string, sp: char -> bool): (n: nat)
    ensures n <= |s|
    ensures n < |s| ==> sp(s[n])
  {
    if s == [] || sp(s[0]) then 0 else 1 + OutsideRun(s[1..], sp)
  }

  /** Length of the longest prefix of `s` made of characters of the class. */
  function InsideRun(s: string, sp: char -> bool): (n: nat)
    ensures n <= |s|
    ensures n < |s| ==> !sp(s[n])
  {
    if s == [] || !sp(s[0]) then 0 else 1 + InsideRun(s[1..], sp)
  }

  lemma {:induction false} OutsideRunClear(s: string, sp: char -> bool)
    ensures NoneIn(s[..OutsideRun(s, sp)], sp)
    decreases |s|
  {
    if s != [] && !sp(s[0]) {
      OutsideRunClear(s[1..], sp);
      var n := OutsideRun(s, sp);
      forall i | 0 <= i < n ensures !sp(s[..n][i]) {
        if i > 0 {
          assert s[..n][i] == s[1..][..n - 1][i - 1];
        }
      }
    }
  }

  lemma {:induction false} InsideRunFull(s: string, sp: char -> bool)
    ensures AllIn(s[..InsideRun(s, sp)], sp)
    decreases |s|
  {
    if s != [] && sp(s[0]) {
      InsideRunFull(s[1..], sp);
      var n := InsideRun(s, sp);
      forall i | 0 <= i < n ensures sp(s[..n][i]) {
        if i > 0 {
          assert s[..n][i] == s[1..][..n - 1][i - 1];
        }
      }
    }
  }

  /** `s.split(/(C+)/)` for the character class C: the runs between maximal
      runs of C, with every such run kept as an element of its own between
      them. A string that starts or ends with a run of C yields an empty first
      or last element. */
  function SplitRuns(s: string, sp: char -> bool): seq<string>
    decreases |s|
  {
    var n := OutsideRun(s, sp);
    if n == |s| then [s]
    else
      var m := InsideRun(s[n..], sp);
      [s[..n], s[n..n + m]] + SplitRuns(s[n + m..], sp)
  }

  /** `codeSnippet.split(/(\s+)/)`. */
  function Tokenize(s: string): seq<string> {
    SplitRuns(s, JsSpace)
  }

  function Concat(words: seq<string>): string {
    if words == [] then "" else words[0] + Concat(words[1..])
  }

  /** A non-empty run of the class; `/^\s+$/.test(w)` for `\s`. */
  predicate IsRun(w: string, sp: char -> bool) {
    |w| > 0 && AllIn(w, sp)
  }

  predicate IsSpaceToken(w: string) {
    IsRun(w, JsSpace)
  }

  /** The shape of a capturing split: an odd number of elements, words (free
      of the class) at even positions, runs of the class at odd positions, and
      only the first and last word may be empty. */
  predicate WellSplitBy(words: seq<string>, sp: char -> bool) {
    && |words| % 2 == 1
    && (forall i :: 0 <= i < |words| && i % 2 == 0 ==> NoneIn(words[i], sp))
    && (forall i :: 0 <= i < |words| && i % 2 == 1 ==> IsRun(words[i], sp))
    && (forall i :: 0 < i < |words| - 1 && i % 2 == 0 ==> words[i] != "")
  }

  predicate WellSplit(words: seq<string>) {
    WellSplitBy(words, JsSpace)
  }

  /** SplitRuns of a string holding a character of the class, one level unfolded. */
  lemma SplitRunsUnfold(s: string, sp: char -> bool, n: nat, m: nat)
    requires n == OutsideRun(s, sp) < |s| && m == InsideRun(s[n..], sp)
    ensures SplitRuns(s, sp) == [s[..n], s[n..n + m]] + SplitRuns(s[n + m..], sp)
  {
  }

  /** The first element is the leading word, and it is the only element
      exactly when the string holds no character of the class. */
  lemma SplitRunsHead(s: string, sp: char -> bool)
    ensures |SplitRuns(s, sp)| >= 1 && SplitRuns(s, sp)[0] == s[..OutsideRun(s, sp)]
    ensures |SplitRuns(s, sp)| == 1 <==> OutsideRun(s, sp) == |s|
  {
    var n := OutsideRun(s, sp);
    if n < |s| {
      SplitRunsUnfold(s, sp, n, InsideRun(s[n..], sp));
    }
  }

  lemma ConcatTwo(a: string, b: string, ws: seq<string>)
    ensures Concat([a, b] + ws) == a + (b + Concat(ws))
  {
    assert ([a, b] + ws)[1..] == [b] + ws;
    assert ([b] + ws)[1..] == ws;
  }

  lemma SliceThree(s: string, i: nat, j: nat)
    requires i <= j <= |s|
    ensures s == s[..i] + (s[i..j] + s[j..])
  {
    assert s[i..] == s[i..j] + s[j..];
    assert s == s[..i] + s[i..];
  }

  /** Joining the elements of the split gives the string back exactly. */
  lemma {:induction false} SplitRunsConcat(s: string, sp: char -> bool)
    ensures Concat(SplitRuns(s, sp)) == s
    decreases |s|
  {
    var n := OutsideRun(s, sp);
    if n < |s| {
      var m := InsideRun(s[n..], sp);
      var rest := s[n + m..];
      SplitRunsConcat(rest, sp);
      SplitRunsUnfold(s, sp, n, m);
      ConcatTwo(s[..n], s[n..n + m], SplitRuns(rest, sp));
      SliceThree(s, n, n + m);
    }
  }

  /** Joining the tokens gives the snippet back exactly. */
  lemma TokenizeConcat(s: string)
    ensures Concat(Tokenize(s)) == s
  {
    SplitRunsConcat(s, JsSpace);
  }

  /** A word and a run in front of a well-formed split give a well-formed
      split, provided the old first word is not an inner empty one. */
  lemma WellSplitCons(a: string, b: string, t: seq<string>, sp: char -> bool)
    requires NoneIn(a, sp) && IsRun(b, sp) && WellSplitBy(t, sp)
    requires |t| > 1 ==> t[0] != ""
    ensures WellSplitBy([a, b] + t, sp)
  {
    var w := [a, b] + t;
    forall i | 0 <= i < |w| && i % 2 == 0 ensures NoneIn(w[i], sp) {
      if i >= 2 { assert w[i] == t[i - 2]; }
    }
    forall i | 0 <= i < |w| && i % 2 == 1 ensures IsRun(w[i], sp) {
      if i >= 2 { assert w[i] == t[i - 2]; }
    }
    forall i | 0 < i < |w| - 1 && i % 2 == 0 ensures w[i] != "" {
      assert w[i] == t[i - 2];
    }
  }

  /** The leading word of one step of SplitRuns has no character of the
      class, and the run after it is a run of the class. */
  lemma SplitRunsStepPieces(s: string, sp: char -> bool, n: nat, m: nat)
    requires n == OutsideRun(s, sp) < |s| && m == InsideRun(s[n..], sp)
    ensures NoneIn(s[..n], sp) && IsRun(s[n..n + m], sp)
  {
    OutsideRunClear(s, sp);
    InsideRunFull(s[n..], sp);
    assert s[n..][..m] == s[n..n + m];
  }

  /** After one step of SplitRuns, the split of the rest starts with an empty
      word only when the rest is empty. */
  lemma SplitRunsStepRest(s: string, sp: char -> bool, n: nat, m: nat)
    requires n == OutsideRun(s, sp) < |s| && m == InsideRun(s[n..], sp)
    ensures var t := SplitRuns(s[n + m..], sp); |t| > 1 ==> t[0] != ""
  {
    var rest := s[n + m..];
    SplitRunsHead(rest, sp);
    if |SplitRuns(rest, sp)| > 1 {
      assert rest[0] == s[n..][m];
    }
  }

  /** SplitRuns has the shape of a capturing split. */
  lemma {:induction false} SplitRunsWellSplit(s: string, sp: char -> bool)
    ensures WellSplitBy(SplitRuns(s, sp), sp)
    decreases |s|
  {
    var n := OutsideRun(s, sp);
    if n == |s| {
      assert SplitRuns(s, sp) == [s];
      OutsideRunClear(s, sp);
      assert s[..n] == s;
      assert WellSplitBy([s], sp);
    } else {
      var m := InsideRun(s[n..], sp);
      SplitRunsStepPieces(s, sp, n, m);
      SplitRunsStepRest(s, sp, n, m);
      SplitRunsUnfold(s, sp, n, m);
      SplitRunsWellSplit(s[n + m..], sp);
      WellSplitCons(s[..n], s[n..n + m], SplitRuns(s[n + m..], sp), sp);
    }
  }

  /** There is always at least one token (the empty snippet gives `[""]`). */
  lemma TokenizeNonEmpty(s: string)
    ensures |Tokenize(s)| >= 1
  {
    SplitRunsHead(s, JsSpace);
  }

  lemma {:induction false} OutsideRunOf(a: string, b: string, sp: char -> bool)
    requires NoneIn(a, sp) && (b == [] || sp(b[0]))
    ensures OutsideRun(a + b, sp) == |a|
    decreases |a|
  {
    if a == [] {
      assert a + b == b;
    } else {
      assert (a + b)[0] == a[0];
      assert (a + b)[1..] == a[1..] + b;
      OutsideRunOf(a[1..], b, sp);
    }
  }

  lemma {:induction false} InsideRunOf(a: string, b: string, sp: char -> bool)
    requires AllIn(a, sp) && (b == [] || !sp(b[0]))
    ensures InsideRun(a + b, sp) == |a|
    decreases |a|
  {
    if a == [] {
      assert a + b == b;
    } else {
      assert (a + b)[0] == a[0];
      assert (a + b)[1..] == a[1..] + b;
      InsideRunOf(a[1..], b, sp);
    }
  }

  lemma WellSplitTail(ws: seq<string>, sp: char -> bool)
    requires WellSplitBy(ws, sp) && |ws| > 1
    ensures WellSplitBy(ws[2..], sp)
    ensures |ws[2..]| > 1 ==> ws[2..][0] != ""
  {
    var t := ws[2..];
    forall i | 0 <= i < |t| && i % 2 == 0 ensures NoneIn(t[i], sp) {
      assert t[i] == ws[i + 2];
    }
    forall i | 0 <= i < |t| && i % 2 == 1 ensures IsRun(t[i], sp) {
      assert t[i] == ws[i + 2];
    }
    forall i | 0 < i < |t| - 1 && i % 2 == 0 ensures t[i] != "" {
      assert t[i] == ws[i + 2];
    }
  }

  /** The first character of a join is that of the first non-empty leading element. */
  lemma ConcatHead(ws: seq<string>)
    requires ws != [] && ws[0] != ""
    ensures Concat(ws) != "" && Concat(ws)[0] == ws[0][0]
  {
  }

  /** SplitRuns is the only well-formed split that joins back to `s`. */
  lemma {:induction false} SplitRunsUnique(ws: seq<string>, s: string, sp: char -> bool)
    requires WellSplitBy(ws, sp) && Concat(ws) == s
    ensures ws == SplitRuns(s, sp)
    decreases |ws|
  {
    if |ws| == 1 {
      assert ws == [ws[0]];
      assert Concat(ws) == ws[0] + Concat([]);
      assert s == ws[0];
      OutsideRunOf(s, [], sp);
      assert s + [] == s;
    } else {
      var a, b, rest := ws[0], ws[1], ws[2..];
      assert ws == [a, b] + rest;
      var r := Concat(rest);
      ConcatTwo(a, b, rest);
      assert NoneIn(a, sp) && IsRun(b, sp);
      WellSplitTail(ws, sp);
      assert (b + r)[0] == b[0];
      OutsideRunOf(a, b + r, sp);
      var n := |a|;
      assert s[n..] == b + r;
      if r != [] {
        assert rest[0] != "";
        ConcatHead(rest);
        assert (r == [] || !sp(r[0]));
      }
      InsideRunOf(b, r, sp);
      var m := |b|;
      assert s[n..n + m] == b && s[..n] == a && s[n + m..] == r;
      SplitRunsUnique(rest, r, sp);
      SplitRunsUnfold(s, sp, n, m);
    }
  }

  /** Tokenize is exactly the capturing split of the snippet on whitespace:
      the only token list of that shape whose join is the snippet. */
  lemma TokenizeUnique(ws: seq<string>, s: string)
    requires WellSplit(ws) && Concat(ws) == s
    ensures ws == Tokenize(s)
  {
    SplitRunsUnique(ws, s, JsSpace);
  }

  /** Tokenize has the shape of a capturing split on whitespace. */
  lemma TokenizeWellSplit(s: string)
    ensures WellSplit(Tokenize(s))
  {
    SplitRunsWellSplit(s, JsSpace);
  }

  /** In a well-formed split exactly the odd positions hold whitespace tokens. */
  lemma SpaceTokenIffOdd(words: seq<string>, i: nat)
    requires WellSplit(words) && i < |words|
    ensures IsSpaceToken(words[i]) <==> i % 2 == 1
  {
    if i % 2 == 0 && |words[i]| > 0 {
      assert !IsJsSpace(words[i][0]);
    }
  }

  /** The index the `while` loop at the commit stops at: the first index at or
      after `i` whose token is not a whitespace run, or the token count. */
  function NextNonSpace(words: seq<string>, i: nat): (j: nat)
    requires i <= |words|
    ensures i <= j <= |words|
    ensures j < |words| ==> !IsSpaceToken(words[j])
    ensures forall k :: i <= k < j ==> IsSpaceToken(words[k])
    decreases |words| - i
  {
    if i < |words| && IsSpaceToken(words[i]) then NextNonSpace(words, i + 1) else i
  }

  /** Committing at token `i` of a well-formed split moves to the next word:
      from a whitespace token to the word right after it, from a word over the
      following whitespace run; only the last token has no successor. */
  lemma CommitTarget(words: seq<string>, i: nat)
    requires WellSplit(words) && i < |words|
    ensures NextNonSpace(words, i + 1) ==
      if i % 2 == 1 then i + 1 else if i + 1 == |words| then |words| else i + 2
    ensures NextNonSpace(words, i + 1) == |words| <==> i == |words| - 1
  {
    if i + 1 < |words| {
      SpaceTokenIffOdd(words, i + 1);
      if i % 2 == 0 {
        SpaceTokenIffOdd(words, i + 2);
      }
    }
  }

  // ================================================================ classification

  datatype Status = Untyped | Partial | Correct | Incorrect | Extra

  datatype WordState = WordState(status: Status, userText: string, hasError: bool)

  const Untouched: WordState := WordState(Untyped, "", false)

  function InitialStates(n: nat): (r: seq<WordState>)
    ensures |r| == n && forall i :: 0 <= i < n ==> r[i] == Untouched
  {
    seq(n, _ => Untouched)
  }

  /** Status after a character is inserted (useTypingTest.js:147-155): equal is
      correct, longer is extra, a prefix of the word is partial, anything else
      incorrect. */
  function InsertStatus(typed: string, word: string): (st: Status)
    ensures st != Untyped
    ensures st == Correct <==> typed == word
    ensures st == Extra <==> |typed| > |word|
    ensures st == Partial <==> typed != word && StartsWith(word, typed)
    ensures st == Incorrect <==> |typed| <= |word| && !StartsWith(word, typed)
  {
    if typed == word then Correct
    else if |typed| > |word| then Extra
    else if StartsWith(word, typed) then Partial
    else Incorrect
  }

  /** Status after a Backspace (useTypingTest.js:78-80). Unlike insertion there
      is no partial status: a shorter text that is not the word is incorrect
      even when it is a correct prefix. */
  function BackspaceStatus(typed: string, word: string): (st: Status)
    ensures st != Partial
    ensures st == Untyped <==> typed == ""
    ensures st == Correct <==> typed != "" && typed == word
    ensures st == Extra <==> typed != "" && |typed| > |word|
    ensures st == Incorrect <==> typed != "" && typed != word && |typed| <= |word|
  {
    if |typed| == 0 then Untyped
    else if typed == word then Correct
    else if |typed| > |word| then Extra
    else Incorrect
  }

  /** The two classifications agree except on the empty text and on a correct
      strict prefix, which insertion calls partial and Backspace incorrect. */
  lemma {:induction false} BackspaceVersusInsert(typed: string, word: string)
    ensures BackspaceStatus(typed, word) ==
      if typed == "" then Untyped
      else if InsertStatus(typed, word) == Partial then Incorrect
      else InsertStatus(typed, word)
  {
  }

  /** The classification examples: for "hello", "hel" is partial, "hello"
      correct, "helLo" incorrect and "helloo" extra after an insertion. */
  lemma ClassificationExamples()
    ensures InsertStatus("hel", "hello") == Partial
    ensures InsertStatus("hello", "hello") == Correct
    ensures InsertStatus("helLo", "hello") == Incorrect
    ensures InsertStatus("helloo", "hello") == Extra
    ensures BackspaceStatus("", "hello") == Untyped
    ensures BackspaceStatus("hel", "hello") == Incorrect
  {
    assert "hello"[..3] == "hel";
    assert "hello"[..5] != "helLo" by { assert "hello"[3] != "helLo"[3]; }
  }

  /** What the token states of a session may hold: each status is consistent
      with the text stored beside it. */
  predicate Consistent(word: string, st: WordState) {
    && (st.status == Untyped ==> st.userText == "")
    && (st.status == Correct ==> st.userText == word)
    && (st.status == Extra ==> |st.userText| > |word|)
    && (st.status == Partial ==> st.userText != word && StartsWith(word, st.userText))
    && (st.status == Incorrect ==> st.userText != word)
  }

  predicate Classified(words: seq<string>, states: seq<WordState>)
    requires |states| <= |words|
  {
    forall i :: 0 <= i < |states| ==> Consistent(words[i], states[i])
  }

  /** Replacing one token state by a consistent one keeps the states classified. */
  lemma ClassifiedUpdate(words: seq<string>, states: seq<WordState>, i: nat, st: WordState)
    requires |states| <= |words| && i < |states| && Classified(words, states)
    requires Consistent(words[i], st)
    ensures Classified(words, states[i := st])
  {
  }

  // ================================================================ metrics

  /** `Math.floor(elapsedSec)` for an elapsed time in milliseconds. */
  function FloorSeconds(ms: int): int {
    ms / 1000
  }

  /** `Math.round((chars / 5 / elapsedSec) * 60)`, or 0 when no time has
      passed: characters per minute over a five-character word, which is
      `chars * 12000 / ms` rounded. */
  function Rate(chars: nat, ms: int): (r: int)
    ensures ms <= 0 ==> r == 0
    ensures ms > 0 ==> r >= 0 && IsRounded(r, chars * 12000, ms)
  {
    if ms > 0 then (RoundDivNonNegative(chars * 12000, ms); RoundDiv(chars * 12000, ms)) else 0
  }

  /** More characters in the same time never give a lower rate. */
  lemma RateMonotone(a: nat, b: nat, ms: int)
    requires a <= b
    ensures Rate(a, ms) <= Rate(b, ms)
  {
    if ms > 0 {
      RoundDivMonotone(a * 12000, b * 12000, ms);
    }
  }

  /** Sum of the typed text lengths over every token state. */
  function TotalChars(states: seq<WordState>): nat
    decreases |states|
  {
    if states == [] then 0 else TotalChars(states[..|states| - 1]) + |states[|states| - 1].userText|
  }

  /** Sum of the word lengths of the tokens before the cursor whose status is correct. */
  function CorrectChars(words: seq<string>, states: seq<WordState>, cursor: nat): nat
    requires |states| <= |words|
    decreases |states|
  {
    if states == [] then 0
    else
      var k := |states| - 1;
      CorrectChars(words, states[..k], cursor)
        + (if k < cursor && states[k].status == Correct then |words[k]| else 0)
  }

  /** In a consistently classified session the correct characters are part of
      the typed ones, so the accurate rate never exceeds the raw rate. */
  lemma {:induction false} CorrectCharsAtMostTotal(words: seq<string>, states: seq<WordState>, cursor: nat)
    requires |states| <= |words| && Classified(words, states)
    ensures CorrectChars(words, states, cursor) <= TotalChars(states)
    decreases |states|
  {
    if states != [] {
      var k := |states| - 1;
      assert Classified(words, states[..k]) by {
        forall i | 0 <= i < k ensures states[..k][i] == states[i] { }
      }
      CorrectCharsAtMostTotal(words, states[..k], cursor);
    }
  }

  datatype SpeedEntry = SpeedEntry(time: int, rawWpm: int, accurateWpm: int, startTime: nat)

  // ================================================================ session state

  /** The state the hook keeps, refs included. */
  datatype Snapshot = Snapshot(
    userInput: string,
    startTime: nat,
    endTime: nat,
    totalTyped: nat,
    mistakes: nat,
    speedLog: seq<SpeedEntry>,
    currentWordIndex: nat,
    currentWordInput: string,
    wordStates: seq<WordState>,
    isCompleted: bool,
    lastLoggedTime: int)

  /** The state right after the hook is mounted and its effect has run: token
      states exist only for a non-empty snippet. */
  function Initial(snippet: string): Snapshot {
    Snapshot("", 0, 0, 0, 0, [], 0, "",
      if snippet != "" then InitialStates(|Tokenize(snippet)|) else [], false, 0)
  }

  /** What holds of every state the hook can reach, for the token list
      `words`; `full` says whether the token states have been created. */
  predicate StateInv(words: seq<string>, full: bool, s: Snapshot) {
    && (full ==> |s.wordStates| == |words|)
    && |s.wordStates| <= |words|
    && s.currentWordIndex < |words|
    && s.mistakes <= s.totalTyped
    && (s.endTime != 0 ==> s.isCompleted)
    && Classified(words, s.wordStates)
  }

  predicate Inv(snippet: string, s: Snapshot) {
    StateInv(Tokenize(snippet), snippet != "", s)
  }

  /** The keys `handleKeyDown` reacts to. */
  predicate Handled(key: string) {
    |key| == 1 || key == "Backspace" || key == "Enter" || key == "Tab" || key == " "
  }

  /** The guard of `handleKeyDown`: a finished session, an empty snippet and
      keys it does not handle leave everything as it is. */
  predicate Inert(snippet: string, s: Snapshot, key: string) {
    s.endTime != 0 || s.isCompleted || snippet == "" || !Handled(key)
  }

  /** Milliseconds since the start, or 0 before the first key. */
  function ElapsedMs(s: Snapshot, now: nat): int {
    if s.startTime != 0 then now - s.startTime else 0
  }

  /** `logSpeedData`: append a sample computed from the state before the key
      (`pre`) to the state being built (`t`), and move `lastLoggedTime`. */
  function LogSpeed(words: seq<string>, t: Snapshot, pre: Snapshot, now: nat): (r: Snapshot)
    requires |pre.wordStates| <= |words|
    ensures |r.speedLog| == |t.speedLog| + 1 && r.speedLog[..|t.speedLog|] == t.speedLog
    ensures r == t.(speedLog := r.speedLog, lastLoggedTime := FloorSeconds(ElapsedMs(pre, now)))
  {
    var elapsed := ElapsedMs(pre, now);
    var entry := SpeedEntry(
      FloorSeconds(elapsed),
      Rate(TotalChars(pre.wordStates), elapsed),
      Rate(CorrectChars(words, pre.wordStates, pre.currentWordIndex), elapsed),
      if pre.startTime != 0 then pre.startTime else now);
    t.(speedLog := t.speedLog + [entry], lastLoggedTime := FloorSeconds(elapsed))
  }

  /** `completeTypingTest`: behind the `isCompleted` guard, mark the session
      complete, set the end time and log a final sample. */
  function Complete(words: seq<string>, t: Snapshot, pre: Snapshot, now: nat): Snapshot
    requires |pre.wordStates| <= |words|
  {
    if t.isCompleted then t
    else LogSpeed(words, t.(isCompleted := true, endTime := now), pre, now)
  }

  /** Backspace: drop the last typed character, or step back one token when the
      current text is empty. */
  function Backspace(words: seq<string>, s: Snapshot): Snapshot
    requires |s.wordStates| == |words| && s.currentWordIndex < |words|
  {
    var i := s.currentWordIndex;
    if |s.currentWordInput| > 0 then
      var t := s.currentWordInput[..|s.currentWordInput| - 1];
      s.(currentWordInput := t,
         wordStates := s.wordStates[i := s.wordStates[i].(userText := t, status := BackspaceStatus(t, words[i]))])
    else if i > 0 then
      s.(currentWordIndex := i - 1, currentWordInput := s.wordStates[i - 1].userText)
    else s
  }

  /** The first half of Space: mark the current token correct when the typed
      text equals it and incorrect otherwise, and count the key. */
  function Committed(words: seq<string>, s: Snapshot, started: nat): Snapshot
    requires |s.wordStates| == |words| && s.currentWordIndex < |words|
  {
    var i := s.currentWordIndex;
    var hasError := s.currentWordInput != words[i];
    s.(startTime := started,
       wordStates := s.wordStates[i := WordState(if hasError then Incorrect else Correct, s.currentWordInput, hasError)],
       mistakes := s.mistakes + (if hasError then 1 else 0),
       totalTyped := s.totalTyped + 1)
  }

  /** Space: commit the current token and move to the next word, or complete. */
  function Commit(words: seq<string>, s: Snapshot, started: nat, now: nat): Snapshot
    requires |s.wordStates| == |words| && s.currentWordIndex < |words|
  {
    var t := Committed(words, s, started);
    var next := NextNonSpace(words, s.currentWordIndex + 1);
    if next < |words| then t.(currentWordIndex := next, currentWordInput := "")
    else Complete(words, t, s, now)
  }

  /** The text a key inserts: Enter a newline, Tab four spaces, any other key itself. */
  function InsertedText(key: string): string {
    if key == "Enter" then "\n" else if key == "Tab" then "    " else key
  }

  /** The amount a key adds to `totalTyped`. */
  function KeyCount(key: string): nat {
    if key == "Tab" then 4 else 1
  }

  /** The `userInput` rebuilt from the token states before the key, with the new
      text at the cursor (useTypingTest.js:172-176). */
  function RebuiltInput(states: seq<WordState>, cursor: nat, typed: string): string {
    Concat(seq(|states|, idx requires 0 <= idx < |states| =>
      if idx < cursor then states[idx].userText else if idx == cursor then typed else ""))
  }

  /** The first half of any other handled key: append its text to the current
      token, reclassify the token and count the key. */
  function Typed(words: seq<string>, s: Snapshot, started: nat, key: string): Snapshot
    requires |s.wordStates| == |words| && s.currentWordIndex < |words|
  {
    var i := s.currentWordIndex;
    var typed := s.currentWordInput + InsertedText(key);
    s.(startTime := started,
       currentWordInput := typed,
       totalTyped := s.totalTyped + KeyCount(key),
       wordStates := s.wordStates[i := s.wordStates[i].(userText := typed, status := InsertStatus(typed, words[i]))])
  }

  /** Any other handled key: append its text and reclassify the current token,
      log a sample once a further second has passed, and rebuild `userInput`. */
  function Insert(words: seq<string>, s: Snapshot, started: nat, key: string, now: nat): Snapshot
    requires |s.wordStates| == |words| && s.currentWordIndex < |words|
  {
    var t := Typed(words, s, started, key);
    var logged := if ElapsedMs(s, now) >= 1000 * (s.lastLoggedTime + 1) then LogSpeed(words, t, s, now) else t;
    logged.(userInput := RebuiltInput(s.wordStates, s.currentWordIndex, s.currentWordInput + InsertedText(key)))
  }

  /** `handleKeyDown` for one key press at time `now`. */
  function KeyDown(snippet: string, s: Snapshot, key: string, now: nat): Snapshot
    requires Inv(snippet, s)
  {
    if Inert(snippet, s, key) then s
    else
      var words := Tokenize(snippet);
      if key == "Backspace" then Backspace(words, s)
      else
        var started := if s.startTime == 0 && |s.userInput| == 0 then now else s.startTime;
        if key == " " then Commit(words, s, started, now)
        else Insert(words, s, started, key, now)
  }

  /** `reset`: every counter, the log, the cursor and the token states back to
      their initial values, and both refs cleared. Unlike the mount effect it
      also creates a token state for the empty snippet. */
  function ResetState(snippet: string): Snapshot {
    Snapshot("", 0, 0, 0, 0, [], 0, "", InitialStates(|Tokenize(snippet)|), false, 0)
  }

  /** `calculateAccuracy`: 100 before any key, otherwise the rounded share of
      keystrokes that were not mistakes, never below 0. */
  function Accuracy(s: Snapshot): (r: int)
    ensures 0 <= r <= 100
    ensures s.totalTyped == 0 || s.mistakes == 0 ==> r == 100
    ensures s.totalTyped > 0 && s.mistakes <= s.totalTyped ==>
      IsRounded(r, 100 * (s.totalTyped - s.mistakes), s.totalTyped)
  {
    if s.totalTyped == 0 then 100
    else
      var t := s.totalTyped;
      var p := 100 * (t - s.mistakes);
      var r := RoundDiv(p, t);
      assert r <= 100 by {
        RoundDivMonotone(p, 100 * t, t);
        RoundDivExact(100, t);
      }
      assert s.mistakes == 0 ==> r == 100 by {
        if s.mistakes == 0 { RoundDivExact(100, t); }
      }
      assert s.mistakes <= t ==> r >= 0 by {
        if s.mistakes <= t { RoundDivNonNegative(p, t); }
      }
      if r < 0 then 0 else r
  }

  /** `calculateCPM`: snippet characters per minute of the whole session, 0
      unless both timestamps are set and the duration is positive. */
  function CPM(snippet: string, s: Snapshot): (r: int)
    ensures s.startTime == 0 || s.endTime == 0 || snippet == "" || s.endTime <= s.startTime ==> r == 0
    ensures s.startTime != 0 && s.endTime > s.startTime ==>
      r >= 0 && IsRounded(r, |snippet| * 60000, s.endTime - s.startTime)
  {
    if s.startTime == 0 || s.endTime == 0 || snippet == "" then 0
    else
      var d := s.endTime - s.startTime;
      if d > 0 then (RoundDivNonNegative(|snippet| * 60000, d); RoundDiv(|snippet| * 60000, d)) else 0
  }

  // ================================================================ properties of a key press

  /** Backspace keeps the invariant and leaves the counters and the log alone. */
  lemma BackspaceKeepsInv(words: seq<string>, s: Snapshot)
    requires StateInv(words, true, s)
    ensures var r := Backspace(words, s);
      StateInv(words, true, r) && r.totalTyped == s.totalTyped && r.mistakes == s.mistakes
      && r.speedLog == s.speedLog
  {
    var i := s.currentWordIndex;
    if |s.currentWordInput| > 0 {
      var t := s.currentWordInput[..|s.currentWordInput| - 1];
      ClassifiedUpdate(words, s.wordStates, i, s.wordStates[i].(userText := t, status := BackspaceStatus(t, words[i])));
    }
  }

  /** Completing keeps the invariant and only appends to the log. */
  lemma CompleteKeepsInv(words: seq<string>, t: Snapshot, pre: Snapshot, now: nat)
    requires StateInv(words, true, t) && |pre.wordStates| <= |words|
    ensures var r := Complete(words, t, pre, now);
      && StateInv(words, true, r) && r.totalTyped == t.totalTyped && r.mistakes == t.mistakes
      && |t.speedLog| <= |r.speedLog| && r.speedLog[..|t.speedLog|] == t.speedLog
  {
  }

  /** Space keeps the invariant, adds one keystroke and at most one mistake,
      and only appends to the log. */
  lemma CommitKeepsInv(words: seq<string>, s: Snapshot, started: nat, now: nat)
    requires StateInv(words, true, s)
    ensures var r := Commit(words, s, started, now);
      && StateInv(words, true, r) && r.totalTyped == s.totalTyped + 1 && s.mistakes <= r.mistakes
      && |s.speedLog| <= |r.speedLog| && r.speedLog[..|s.speedLog|] == s.speedLog
  {
    var i := s.currentWordIndex;
    var hasError := s.currentWordInput != words[i];
    ClassifiedUpdate(words, s.wordStates, i, WordState(if hasError then Incorrect else Correct, s.currentWordInput, hasError));
    if NextNonSpace(words, i + 1) == |words| {
      CompleteKeepsInv(words, Committed(words, s, started), s, now);
    }
  }

  /** Any other key keeps the invariant, adds its count of keystrokes and no
      mistake, and only appends to the log. */
  lemma InsertKeepsInv(words: seq<string>, s: Snapshot, started: nat, key: string, now: nat)
    requires StateInv(words, true, s)
    ensures var r := Insert(words, s, started, key, now);
      && StateInv(words, true, r) && r.totalTyped == s.totalTyped + KeyCount(key) && r.mistakes == s.mistakes
      && |s.speedLog| <= |r.speedLog| && r.speedLog[..|s.speedLog|] == s.speedLog
  {
    var i := s.currentWordIndex;
    var typed := s.currentWordInput + InsertedText(key);
    ClassifiedUpdate(words, s.wordStates, i, s.wordStates[i].(userText := typed, status := InsertStatus(typed, words[i])));
  }

  /** Every reachable state stays reachable: the token states keep their
      number and consistency, the cursor stays on a token, mistakes never
      outnumber keystrokes and an end time implies completion. The counters
      never decrease, and the log only grows at its end. */
  lemma KeyDownPreservesInv(snippet: string, s: Snapshot, key: string, now: nat)
    requires Inv(snippet, s)
    ensures var r := KeyDown(snippet, s, key, now);
      && Inv(snippet, r)
      && s.totalTyped <= r.totalTyped
      && s.mistakes <= r.mistakes
      && |s.speedLog| <= |r.speedLog| && r.speedLog[..|s.speedLog|] == s.speedLog
  {
    if !Inert(snippet, s, key) {
      var words := Tokenize(snippet);
      if key == "Backspace" {
        BackspaceKeepsInv(words, s);
      } else {
        var started := if s.startTime == 0 && |s.userInput| == 0 then now else s.startTime;
        if key == " " {
          CommitKeepsInv(words, s, started, now);
        } else {
          InsertKeepsInv(words, s, started, key, now);
        }
      }
    }
  }

  /** A completed session (or one whose end time is set) ignores every key:
      completion is final and happens at most once. */
  lemma CompletedIsFinal(snippet: string, s: Snapshot, key: string, now: nat)
    requires Inv(snippet, s) && (s.isCompleted || s.endTime != 0)
    ensures KeyDown(snippet, s, key, now) == s
  {
  }

  /** An empty snippet ignores every key (so it never completes). */
  lemma EmptySnippetIgnoresKeys(s: Snapshot, key: string, now: nat)
    requires Inv("", s)
    ensures KeyDown("", s, key, now) == s
  {
  }

  /** Backspace never touches the counters. With text in the current token it
      removes exactly the last character and reclassifies the token; with an
      empty token it moves to the previous token (which may be whitespace) and
      restores its text; on the first token with no text it does nothing. */
  lemma BackspaceEffect(snippet: string, s: Snapshot, now: nat)
    requires Inv(snippet, s) && !Inert(snippet, s, "Backspace")
    ensures var r := KeyDown(snippet, s, "Backspace", now);
      var words := Tokenize(snippet);
      var i := s.currentWordIndex;
      && r.totalTyped == s.totalTyped && r.mistakes == s.mistakes
      && r.startTime == s.startTime && r.endTime == s.endTime && r.speedLog == s.speedLog
      && (|s.currentWordInput| > 0 ==>
            && r.currentWordIndex == i
            && r.currentWordInput + [s.currentWordInput[|s.currentWordInput| - 1]] == s.currentWordInput
            && r.wordStates[i].userText == r.currentWordInput
            && r.wordStates[i].status == BackspaceStatus(r.currentWordInput, words[i]))
      && (|s.currentWordInput| == 0 && i > 0 ==>
            && r.currentWordIndex == i - 1
            && r.currentWordInput == s.wordStates[i - 1].userText
            && r.wordStates == s.wordStates)
      && (|s.currentWordInput| == 0 && i == 0 ==> r == s)
  {
    if |s.currentWordInput| > 0 {
      var t := s.currentWordInput[..|s.currentWordInput| - 1];
      assert t + [s.currentWordInput[|s.currentWordInput| - 1]] == s.currentWordInput;
    }
  }

  /** Space marks the token correct exactly when the typed text equals it,
      counts one mistake otherwise, always counts one keystroke, and moves to the
      next non-whitespace token; when there is none it completes the session,
      setting the end time and logging a final sample. */
  lemma CommitEffect(snippet: string, s: Snapshot, now: nat)
    requires Inv(snippet, s) && !Inert(snippet, s, " ")
    ensures var r := KeyDown(snippet, s, " ", now);
      var words := Tokenize(snippet);
      var i := s.currentWordIndex;
      var next := NextNonSpace(words, i + 1);
      && r.wordStates[i].userText == s.currentWordInput
      && (r.wordStates[i].status == Correct <==> s.currentWordInput == words[i])
      && (r.wordStates[i].status == Incorrect <==> s.currentWordInput != words[i])
      && r.mistakes == s.mistakes + (if s.currentWordInput == words[i] then 0 else 1)
      && r.totalTyped == s.totalTyped + 1
      && (next < |words| ==>
            && r.currentWordIndex == next && r.currentWordInput == "" && !r.isCompleted
            && r.endTime == 0 && r.speedLog == s.speedLog)
      && (next == |words| ==> r.isCompleted && r.endTime == now && |r.speedLog| == |s.speedLog| + 1)
      && (next == |words| <==> i == |words| - 1)
  {
    TokenizeWellSplit(snippet);
    CommitTarget(Tokenize(snippet), s.currentWordIndex);
  }

  /** Any other handled key starts the clock if it is unset and nothing has
      been typed. It appends its text (a newline for Enter, four spaces for Tab),
      adds 4 for Tab and 1 otherwise to the keystroke count, and reclassifies
      the current token. Once a further second has passed since the last
      sample it logs one more, and `userInput` becomes the typed texts joined. */
  lemma InsertEffect(snippet: string, s: Snapshot, key: string, now: nat)
    requires Inv(snippet, s) && !Inert(snippet, s, key) && key != "Backspace" && key != " "
    ensures var r := KeyDown(snippet, s, key, now);
      var words := Tokenize(snippet);
      var i := s.currentWordIndex;
      && r.startTime == (if s.startTime == 0 && |s.userInput| == 0 then now else s.startTime)
      && r.currentWordIndex == i
      && r.currentWordInput == s.currentWordInput + InsertedText(key)
      && r.totalTyped == s.totalTyped + (if key == "Tab" then 4 else 1)
      && r.mistakes == s.mistakes
      && r.wordStates[i].userText == r.currentWordInput
      && r.wordStates[i].status == InsertStatus(r.currentWordInput, words[i])
      && r.endTime == 0 && !r.isCompleted
      && r.userInput == RebuiltInput(s.wordStates, i, r.currentWordInput)
      && (if ElapsedMs(s, now) >= 1000 * (s.lastLoggedTime + 1) then
            && |r.speedLog| == |s.speedLog| + 1 && r.speedLog[..|s.speedLog|] == s.speedLog
            && r.lastLoggedTime == FloorSeconds(ElapsedMs(s, now))
          else r.speedLog == s.speedLog && r.lastLoggedTime == s.lastLoggedTime)
  {
  }

  /** `reset` gives back a state of the initial shape, whatever came before. */
  lemma ResetIsInitial(snippet: string)
    ensures Inv(snippet, ResetState(snippet))
    ensures snippet != "" ==> ResetState(snippet) == Initial(snippet)
  {
    TokenizeNonEmpty(snippet);
  }

  /** After a reset the metrics read as before the first key. */
  lemma ResetMetrics(snippet: string)
    ensures Accuracy(ResetState(snippet)) == 100 && CPM(snippet, ResetState(snippet)) == 0
  {
  }

  /** The initial state is reachable-shaped. */
  lemma InitialInv(snippet: string)
    ensures Inv(snippet, Initial(snippet))
  {
    TokenizeNonEmpty(snippet);
  }

  /** A 10-character snippet completed in exactly one minute runs at 10
      characters per minute. */
  lemma OneMinuteRate(snippet: string, s: Snapshot)
    requires |snippet| == 10 && s.startTime != 0 && s.endTime == s.startTime + 60000
    ensures CPM(snippet, s) == 10
  {
    RoundDivExact(10, 60000);
  }

  // ================================================================ the hook

  class TypingTestHook {
    const codeSnippet: string
    const words: seq<string>
    var userInput: string
    var startTime: nat
    var endTime: nat
    var totalTyped: nat
    var mistakes: nat
    var speedLog: seq<SpeedEntry>
    var currentWordIndex: nat
    var currentWordInput: string
    var wordStates: seq<WordState>
    var isCompleted: bool
    var lastLoggedTime: int

    function Snap(): Snapshot
      reads this
    {
      Snapshot(userInput, startTime, endTime, totalTyped, mistakes, speedLog,
        currentWordIndex, currentWordInput, wordStates, isCompleted, lastLoggedTime)
    }

    ghost predicate Valid()
      reads this
    {
      words == Tokenize(codeSnippet) && StateInv(words, codeSnippet != "", Snap())
    }

    /** Mounting the hook with a snippet. */
    constructor (initialCodeSnippet: string)
      ensures Valid() && codeSnippet == initialCodeSnippet
      ensures Snap() == Initial(initialCodeSnippet)
    {
      codeSnippet := initialCodeSnippet;
      words := Tokenize(initialCodeSnippet);
      userInput, startTime, endTime, totalTyped, mistakes, speedLog := "", 0, 0, 0, 0, [];
      currentWordIndex, currentWordInput := 0, "";
      wordStates := if initialCodeSnippet != "" then InitialStates(|Tokenize(initialCodeSnippet)|) else [];
      isCompleted, lastLoggedTime := false, 0;
      new;
      InitialInv(initialCodeSnippet);
    }

    /** `logSpeedData(elapsedSec, now)`, reading the token states, cursor and
        start time from before the key (`pre`). */
    method LogSpeedData(pre: Snapshot, now: nat)
      requires |pre.wordStates| <= |words|
      modifies this
      ensures Snap() == LogSpeed(words, old(Snap()), pre, now)
    {
      var elapsed := ElapsedMs(pre, now);
      var correctChars := CorrectChars(words, pre.wordStates, pre.currentWordIndex);
      var totalChars := TotalChars(pre.wordStates);
      var rawWpm := Rate(totalChars, elapsed);
      var accurateWpm := Rate(correctChars, elapsed);
      speedLog := speedLog + [SpeedEntry(FloorSeconds(elapsed), rawWpm, accurateWpm,
                                         if pre.startTime != 0 then pre.startTime else now)];
      lastLoggedTime := FloorSeconds(elapsed);
    }

    /** `completeTypingTest`: ends the session once, behind the `isCompleted` flag. */
    method CompleteTypingTest(pre: Snapshot, now: nat)
      requires |pre.wordStates| <= |words|
      modifies this
      ensures Snap() == Complete(words, old(Snap()), pre, now)
    {
      if !isCompleted {
        isCompleted := true;
        endTime := now;
        LogSpeedData(pre, now);
      }
    }

    /** `handleKeyDown` for the key `key` pressed at time `now`. */
    method HandleKeyDown(key: string, now: nat)
      requires Valid()
      modifies this
      ensures Valid()
      ensures Snap() == KeyDown(codeSnippet, old(Snap()), key, now)
      ensures old(totalTyped) <= totalTyped && old(mistakes) <= mistakes
    {
      KeyDownPreservesInv(codeSnippet, Snap(), key, now);
      if endTime != 0 || isCompleted || codeSnippet == "" || !Handled(key) {
        return;
      }
      if key == "Backspace" {
        BackspaceKey();
      } else {
        var started := if startTime == 0 && |userInput| == 0 then now else startTime;
        if key == " " {
          SpaceKey(started, now);
        } else {
          InsertKey(started, key, now);
        }
      }
    }

    /** The Backspace branch of `handleKeyDown`. */
    method BackspaceKey()
      requires |wordStates| == |words| && currentWordIndex < |words|
      modifies this
      ensures Snap() == Backspace(words, old(Snap()))
    {
      var i := currentWordIndex;
      if |currentWordInput| > 0 {
        var newWordInput := currentWordInput[..|currentWordInput| - 1];
        currentWordInput := newWordInput;
        wordStates := wordStates[i := wordStates[i].(userText := newWordInput,
                                                     status := BackspaceStatus(newWordInput, words[i]))];
      } else if i > 0 {
        currentWordIndex := i - 1;
        currentWordInput := wordStates[i - 1].userText;
      }
    }

    /** The space branch of `handleKeyDown`: commit the token, then skip the
        whitespace tokens after it or complete the test. */
    method SpaceKey(started: nat, now: nat)
      requires |wordStates| == |words| && currentWordIndex < |words|
      modifies this
      ensures Snap() == Commit(words, old(Snap()), started, now)
    {
      var pre := Snap();
      CommitToken(started);
      var nextIndex := NextWordIndex(pre.currentWordIndex);
      if nextIndex < |words| {
        currentWordIndex := nextIndex;
        currentWordInput := "";
      } else {
        CompleteTypingTest(pre, now);
      }
    }

    /** Marks the current token and counts the key. */
    method CommitToken(started: nat)
      requires |wordStates| == |words| && currentWordIndex < |words|
      modifies this
      ensures Snap() == Committed(words, old(Snap()), started)
    {
      var i := currentWordIndex;
      startTime := started;
      var hasError := currentWordInput != words[i];
      wordStates := wordStates[i := WordState(if hasError then Incorrect else Correct,
                                              currentWordInput, hasError)];
      if hasError {
        mistakes := mistakes + 1;
      }
      totalTyped := totalTyped + 1;
    }

    /** The loop after a commit: skip the whitespace tokens after token `i`. */
    method NextWordIndex(i: nat) returns (nextIndex: nat)
      requires i < |words|
      ensures nextIndex == NextNonSpace(words, i + 1)
    {
      nextIndex := i + 1;
      while nextIndex < |words| && IsSpaceToken(words[nextIndex])
        invariant i + 1 <= nextIndex <= |words|
        invariant NextNonSpace(words, nextIndex) == NextNonSpace(words, i + 1)
        decreases |words| - nextIndex
      {
        nextIndex := nextIndex + 1;
      }
    }

    /** The branch of `handleKeyDown` for every other handled key. */
    method InsertKey(started: nat, key: string, now: nat)
      requires |wordStates| == |words| && currentWordIndex < |words|
      modifies this
      ensures Snap() == Insert(words, old(Snap()), started, key, now)
    {
      var pre := Snap();
      TypeToken(started, key);
      if ElapsedMs(pre, now) >= 1000 * (lastLoggedTime + 1) {
        LogSpeedData(pre, now);
      }
      userInput := RebuiltInput(pre.wordStates, pre.currentWordIndex, pre.currentWordInput + InsertedText(key));
    }

    /** Appends the key's text to the current token and reclassifies it. */
    method TypeToken(started: nat, key: string)
      requires |wordStates| == |words| && currentWordIndex < |words|
      modifies this
      ensures Snap() == Typed(words, old(Snap()), started, key)
    {
      var i := currentWordIndex;
      startTime := started;
      var newWordInput := currentWordInput + InsertedText(key);
      currentWordInput := newWordInput;
      totalTyped := totalTyped + KeyCount(key);
      wordStates := wordStates[i := wordStates[i].(userText := newWordInput,
                                                   status := InsertStatus(newWordInput, words[i]))];
    }

    /** `reset`: restart the test. */
    method Reset()
      requires Valid()
      modifies this
      ensures Valid() && Snap() == ResetState(codeSnippet)
    {
      ResetIsInitial(codeSnippet);
      Store(ResetState(codeSnippet));
    }

    /** Sets every piece of the hook's state at once. */
    method Store(r: Snapshot)
      modifies this
      ensures Snap() == r
    {
      userInput, startTime, endTime, totalTyped, mistakes, speedLog :=
        r.userInput, r.startTime, r.endTime, r.totalTyped, r.mistakes, r.speedLog;
      currentWordIndex, currentWordInput, wordStates := r.currentWordIndex, r.currentWordInput, r.wordStates;
      isCompleted, lastLoggedTime := r.isCompleted, r.lastLoggedTime;
    }

    /** `calculateCPM`. */
    function CalculateCPM(): int
      reads this
    {
      CPM(codeSnippet, Snap())
    }

    /** `calculateAccuracy`. */
    function CalculateAccuracy(): int
      reads this
    {
      Accuracy(Snap())
    }
  }
}
