# Coderacer core, modelled in Dafny

Coderacer is a typing and coding game. This project models its core rules.

Browser side:

- the typing-test hook: splitting a snippet into words, classifying each key press, counting mistakes, logging speed samples, and the CPM and accuracy figures;
- the typing view's colouring;
- the code editor's shortcuts: expanding a shortcut on Tab, duplicating lines, toggling line and block comments, and auto-closing quotes and brackets;
- the editor's Tab key and its line and character counters;
- the game mode's grading of a submitted program;
- the theme provider that writes a theme's colours as CSS custom properties.

Server side:

- the K-factor rating algorithm;
- the grading of code against a problem's test cases;
- the account service: sign-up, profile update, deletion, password change, e-mail verification, login and the rating update after a game.

One Dafny module models each core source file:

| module | file |
|---|---|
| `TypingTest` | `typing_test.dfy` |
| `TypingArea` | `typing_area.dfy` |
| `CodeShortcuts` | `code_shortcuts.dfy` |
| `CodeInputArea` | `code_input_area.dfy` |
| `GameMode` | `game_mode.dfy` |
| `ThemeContext` | `theme_context.dfy` |
| `Rating` | `rating.dfy` |
| `Testing` | `testing.dfy` |
| `Accounts` | `accounts.dfy` |

Three shared modules support them:

- `Strings` defines the JavaScript and Java string operations the code relies on:
  - `trim` on both platforms;
  - `indexOf`, `lastIndexOf`, `includes` and `substring`;
  - `split` on a character, and `join`;
  - `toLowerCase`.
- `Numeric` defines `Math.round` of a rational number and Java's 32-bit `int` wrap-around.
- `Wrappers` defines `Option` and `Result`.

The code's form decides the Dafny form:

- Stateful objects are classes whose fields the methods update:
  - the typing-test hook;
  - the game session;
  - the theme provider;
  - the account service.
- Loops are methods with invariants. Each is proved equal to a specification function:
  - the comment-toggle line loop;
  - the backward quote scans;
  - the next-word loop;
  - the theme property loop;
  - the output comparison;
  - the test-case loop.
- Pure computations are functions, and the promised properties are lemmas about them.

These encodings are used throughout:

- Timestamps are integer milliseconds, with 0 standing for JavaScript `null`. Every test the hook makes on a timestamp is a truthiness test, and 0 and `null` are both falsy.
- Scores and rates are exact rationals.
- `Math.round(p / q)` is `floor(p / q + 1/2)`.

## Model

| member | source | states |
|---|---|---|
| TypingTest.SplitRuns | frontend/src/hooks/useTypingTest.js:19 | The capturing split of a string at runs of a character class. Its meaning is stated by `SplitRunsConcat`, `SplitRunsWellSplit` and `SplitRunsUnique`. |
| TypingTest.Tokenize | frontend/src/hooks/useTypingTest.js:19 | `codeSnippet.split(/(\s+)/)`: the split at runs of JavaScript whitespace. Its properties are `TokenizeConcat`, `TokenizeNonEmpty` and `TokenizeUnique`. |
| TypingTest.SplitRunsConcat | frontend/src/hooks/useTypingTest.js:19 | Joining the pieces of a capturing split gives the string back. |
| TypingTest.SplitRunsWellSplit | frontend/src/hooks/useTypingTest.js:19 | A capturing split alternates words free of the class with non-empty runs of it, and only its ends may be empty. |
| TypingTest.SplitRunsUnique | frontend/src/hooks/useTypingTest.js:19 | Any well-formed split that joins back to the string is the capturing split; together with the two lemmas above this pins down `split(/(\s+)/)`. |
| TypingTest.TokenizeUnique | frontend/src/hooks/useTypingTest.js:19 | The snippet's tokens are the only well-formed whitespace split that joins back to the snippet. |
| TypingTest.TokenizeConcat | frontend/src/hooks/useTypingTest.js:19 | The tokens join back to the snippet. |
| TypingTest.TokenizeNonEmpty | frontend/src/hooks/useTypingTest.js:19 | There is always at least one token, so token states exist for every non-empty snippet. |
| TypingTest.SpaceTokenIffOdd | frontend/src/hooks/useTypingTest.js:19 | In a well-formed split, a token is whitespace exactly at the odd positions. |
| TypingTest.NextNonSpace | frontend/src/hooks/useTypingTest.js:117-120 | The loop's stopping index is the first token at or after the start that is not whitespace, or the end. |
| TypingTest.CommitTarget | frontend/src/hooks/useTypingTest.js:117-128 | From a whitespace token the loop stops at the next token, and from a word it skips the whitespace run after it, two places on. It runs off the end exactly when the token was the last one. |
| TypingTest.Initial | frontend/src/hooks/useTypingTest.js:3-30 | The freshly mounted state: nothing typed, no timestamps, counters 0, token states only for a non-empty snippet. `InitialInv` proves it reachable. |
| TypingTest.InitialStates | frontend/src/hooks/useTypingTest.js:21-30 | One untyped, empty, error-free state per token. |
| TypingTest.InsertStatus | frontend/src/hooks/useTypingTest.js:147-155 | Typing classifies a word in four ways. Correct iff equal, extra iff longer, partial iff a different prefix, incorrect iff no longer and not a prefix. |
| TypingTest.BackspaceStatus | frontend/src/hooks/useTypingTest.js:78-80 | After Backspace a word is untyped iff empty, correct iff equal, extra iff longer, and incorrect otherwise. It is never partial. |
| TypingTest.BackspaceVersusInsert | frontend/src/hooks/useTypingTest.js:78-80 | The two classifications agree except on empty text and on a correct strict prefix, which Backspace calls incorrect. |
| TypingTest.ClassificationExamples | frontend/src/hooks/useTypingTest.js:147-155 | Worked cases for "hello": "hel" is partial when typed and incorrect after Backspace; "helLo" is incorrect; "helloo" is extra. |
| TypingTest.Rate | frontend/src/hooks/useTypingTest.js:198-199 | The words-per-minute rate is 0 without elapsed time and otherwise the rounded `chars * 12000 / ms`. |
| TypingTest.RateMonotone | frontend/src/hooks/useTypingTest.js:198-199 | More characters in the same time never give a lower rate. |
| TypingTest.CorrectCharsAtMostTotal | frontend/src/hooks/useTypingTest.js:190-197 | In a consistently classified session, the correct characters never exceed the typed ones, so the accurate rate is at most the raw rate. |
| TypingTest.LogSpeed | frontend/src/hooks/useTypingTest.js:189-211 | A sample is appended to the log and the last-logged second is set; nothing else changes. |
| TypingTest.Accuracy | frontend/src/hooks/useTypingTest.js:219-222 | Accuracy lies in [0, 100]. It is 100 with no keys or no mistakes, and otherwise the rounded share of keys that were not mistakes. |
| TypingTest.CPM | frontend/src/hooks/useTypingTest.js:213-217 | CPM is 0 unless both timestamps are set, the snippet is non-empty and time has passed. Otherwise it is the rounded snippet length per minute. |
| TypingTest.KeyDown | frontend/src/hooks/useTypingTest.js:51-178 | `handleKeyDown` as a state transition: ignored when inert, else dispatched to Backspace, Space or another key. `KeyDownPreservesInv` and `CompletedIsFinal` state its properties. |
| TypingTest.KeyDownPreservesInv | frontend/src/hooks/useTypingTest.js:51-178 | Every key keeps the reachable-state invariant: one consistent state per token, the cursor on a token, mistakes at most keystrokes, and an end time only when completed. Counters never decrease and the log only grows at its end. |
| TypingTest.BackspaceKeepsInv | frontend/src/hooks/useTypingTest.js:66-92 | Backspace keeps the invariant and leaves the counters and the log alone. |
| TypingTest.CommitKeepsInv | frontend/src/hooks/useTypingTest.js:95-132 | Space keeps the invariant, adds one keystroke and at most one mistake, and only appends to the log. |
| TypingTest.InsertKeepsInv | frontend/src/hooks/useTypingTest.js:135-176 | Any other key keeps the invariant, adds its keystroke count and no mistake, and only appends to the log. |
| TypingTest.Complete | frontend/src/hooks/useTypingTest.js:180-187 | `completeTypingTest`: behind the `isCompleted` guard, completes at `now` and logs a final sample. `CompleteKeepsInv` states its effect. |
| TypingTest.CompleteKeepsInv | frontend/src/hooks/useTypingTest.js:180-187 | Completion keeps the invariant and only appends to the log. |
| TypingTest.CompletedIsFinal | frontend/src/hooks/useTypingTest.js:52 | A completed or ended session ignores every key, so completion happens at most once. |
| TypingTest.EmptySnippetIgnoresKeys | frontend/src/hooks/useTypingTest.js:52 | An empty snippet ignores every key. |
| TypingTest.Backspace | frontend/src/hooks/useTypingTest.js:66-92 | The Backspace branch as a state transition. `BackspaceEffect` and `BackspaceKeepsInv` state its effect. |
| TypingTest.BackspaceEffect | frontend/src/hooks/useTypingTest.js:66-92 | Backspace removes exactly the last typed character and reclassifies the word. On an empty word it steps back one token and restores that token's text. On the first token it does nothing. The counters are untouched. |
| TypingTest.Committed | frontend/src/hooks/useTypingTest.js:97-114 | The first half of Space: the word is marked and the key counted. `CommitEffect` states it within Space. |
| TypingTest.Commit | frontend/src/hooks/useTypingTest.js:95-132 | The Space branch as a state transition. `CommitEffect` and `CommitKeepsInv` state its effect. |
| TypingTest.CommitEffect | frontend/src/hooks/useTypingTest.js:95-132 | Space marks the word correct iff the text equals it, counts a mistake otherwise and always counts a keystroke. It then moves to the next word, or completes the session at `now` with a final sample exactly when the word was the last token. |
| TypingTest.Typed | frontend/src/hooks/useTypingTest.js:135-164 | The first half of another key: its text is appended and the word reclassified. `InsertEffect` states it within the key. |
| TypingTest.Insert | frontend/src/hooks/useTypingTest.js:135-176 | Any other handled key as a state transition, speed sample and rebuilt `userInput` included. `InsertEffect` and `InsertKeepsInv` state its effect. |
| TypingTest.InsertEffect | frontend/src/hooks/useTypingTest.js:57-176 | Another key starts the clock when it is unset and nothing was typed. It appends its text (newline for Enter, four spaces for Tab) and adds 4 for Tab or 1 otherwise. The word is reclassified and the session stays unfinished. Once a further second has passed since the last sample, exactly one sample is appended and the logged second moves; otherwise the log and the logged second are kept. `userInput` becomes the texts typed before the key joined with the new current text. |
| TypingTest.ResetState | frontend/src/hooks/useTypingTest.js:233-250 | The state `reset` installs. `ResetIsInitial` and `ResetMetrics` state what it is. |
| TypingTest.ResetIsInitial | frontend/src/hooks/useTypingTest.js:233-250 | Reset gives a reachable state, equal to the freshly mounted one for a non-empty snippet. |
| TypingTest.ResetMetrics | frontend/src/hooks/useTypingTest.js:233-250 | After a reset the accuracy is 100 and the CPM is 0. |
| TypingTest.InitialInv | frontend/src/hooks/useTypingTest.js:3-30 | The mounted state satisfies the invariant. |
| TypingTest.OneMinuteRate | frontend/src/hooks/useTypingTest.js:213-217 | A 10-character snippet finished in exactly 60000 ms runs at 10 CPM. |
| TypingTest.TypingTestHook.constructor | frontend/src/hooks/useTypingTest.js:3-30 | The hook starts in the initial state for its snippet. |
| TypingTest.TypingTestHook.HandleKeyDown | frontend/src/hooks/useTypingTest.js:51-178 | The hook's new state is the specification function `KeyDown` of the old state, and the counters never decrease. |
| TypingTest.TypingTestHook.BackspaceKey | frontend/src/hooks/useTypingTest.js:66-92 | The Backspace branch updates the fields as `Backspace` does. |
| TypingTest.TypingTestHook.SpaceKey | frontend/src/hooks/useTypingTest.js:95-132 | The space branch updates the fields as `Commit` does. |
| TypingTest.TypingTestHook.CommitToken | frontend/src/hooks/useTypingTest.js:97-114 | Marking the word and counting the mistake update the fields as `Committed` does. |
| TypingTest.TypingTestHook.NextWordIndex | frontend/src/hooks/useTypingTest.js:117-120 | The while loop returns `NextNonSpace`. |
| TypingTest.TypingTestHook.InsertKey | frontend/src/hooks/useTypingTest.js:135-176 | The character branch updates the fields as `Insert` does. |
| TypingTest.TypingTestHook.TypeToken | frontend/src/hooks/useTypingTest.js:135-164 | Appending and reclassifying update the fields as `Typed` does. |
| TypingTest.TypingTestHook.LogSpeedData | frontend/src/hooks/useTypingTest.js:189-211 | `logSpeedData` updates the fields as `LogSpeed` does. |
| TypingTest.TypingTestHook.CompleteTypingTest | frontend/src/hooks/useTypingTest.js:180-187 | `completeTypingTest` updates the fields as `Complete` does. |
| TypingTest.TypingTestHook.CalculateCPM | frontend/src/hooks/useTypingTest.js:213-217 | The hook's `calculateCPM` on its current fields, the function `CPM`, whose contract gives the formula. |
| TypingTest.TypingTestHook.CalculateAccuracy | frontend/src/hooks/useTypingTest.js:219-222 | The hook's `calculateAccuracy` on its current fields, the function `Accuracy`, whose contract gives the range and the formula. |
| TypingTest.TypingTestHook.Reset | frontend/src/hooks/useTypingTest.js:233-250 | `reset` puts every field back as `ResetState` says. |
| TypingArea.CharColour | frontend/src/components/TypingArea.jsx:25-28 | The colour class of one snippet character. `RenderColours` states each colour as an iff. |
| TypingArea.Render | frontend/src/components/TypingArea.jsx:24-34 | A span per snippet character. |
| TypingArea.RenderShowsSnippet | frontend/src/components/TypingArea.jsx:24-34 | The spans spell the snippet. |
| TypingArea.RenderColours | frontend/src/components/TypingArea.jsx:25-28 | A span is grey iff not yet typed, green iff typed correctly, and red iff typed wrongly. |
| TypingArea.AllGreenIff | frontend/src/components/TypingArea.jsx:24-34 | Every span is green iff the input starts with the whole snippet. |
| TypingArea.CaretIffGrey | frontend/src/components/TypingArea.jsx:35 | The caret shows iff some character is still grey. |
| CodeShortcuts.LineIndex | frontend/src/utils/CodeShortcuts.js:51-52 | The line number of a position is the number of newlines before it. |
| CodeShortcuts.LineEnd | frontend/src/utils/CodeShortcuts.js:60 | The end of a position's line is the next newline at or after it, or the end of the code. |
| CodeShortcuts.LineStart | frontend/src/utils/CodeShortcuts.js:59 | The start of a position's line is just past the last newline before it. |
| CodeShortcuts.LineStartAsWrittenAgrees | frontend/src/utils/CodeShortcuts.js:113 | `lastIndexOf('\n', p - 1) + 1` is the line start except at position 0 of a code opening with a newline, where it gives 1. |
| CodeShortcuts.DuplicateLine | frontend/src/utils/CodeShortcuts.js:49-73 | `duplicateLine` as written. `DuplicateLineAgrees` and `DuplicateSelectionSplitsLine` state where it agrees with the corrected version and where it does not. |
| CodeShortcuts.DuplicateLines | frontend/src/utils/CodeShortcuts.js:49-73 | The corrected duplicate, with the copy after the selection's last line. `DuplicateLinesCopies` states its effect. |
| CodeShortcuts.SelectedLinesText | frontend/src/utils/CodeShortcuts.js:65 | The selected lines, joined, are the text from the first line's start to the last line's end. |
| CodeShortcuts.DuplicateLinesCopies | frontend/src/utils/CodeShortcuts.js:49-73 | Duplication inserts a copy of exactly the selected lines right after them, keeps every other line, and the new selection covers the same text in the copy. |
| CodeShortcuts.DuplicateLineAgrees | frontend/src/utils/CodeShortcuts.js:57-70 | The as-written duplicate equals the corrected one when there is no selection or the selection ends at a line end. |
| CodeShortcuts.DuplicateSelectionSplitsLine | frontend/src/utils/CodeShortcuts.js:64-70 | With "a" selected in "ab", the as-written duplicate gives "a\nabb" and a selection that no longer covers "a"; the corrected one gives "ab\nab". |
| CodeShortcuts.LineCommentToggled | frontend/src/utils/CodeShortcuts.js:76-101 | The specification of the line-comment toggle: the lines of the selection toggled and the selection shifted. `ToggleLineCommentLines` states its effect and `ToggleLineComment` is proved equal to it. |
| CodeShortcuts.ToggleLineComment | frontend/src/utils/CodeShortcuts.js:76-101 | The line loop's result is the specification `LineCommentToggled`. |
| CodeShortcuts.ToggleLineCommentLines | frontend/src/utils/CodeShortcuts.js:76-101 | The result has as many lines as the code, keeps every line outside the selected range, and toggles each line inside it. |
| CodeShortcuts.ToggleLineToggles | frontend/src/utils/CodeShortcuts.js:86-91 | A non-comment line gains `// `. A comment loses a leading `//` and one whitespace after it. An indented comment stays as it is. |
| CodeShortcuts.MarkerIsComment | frontend/src/utils/CodeShortcuts.js:86 | A line opening with `//` counts as a comment. |
| CodeShortcuts.IndentShiftIsIndent | frontend/src/utils/CodeShortcuts.js:88-89 | On a comment line the selection moves back by the indentation capped at 2, not by what the marker removal took out. |
| CodeShortcuts.ToggleLineTwice | frontend/src/utils/CodeShortcuts.js:86-91 | Toggling a non-comment line twice gives it back. |
| CodeShortcuts.UncommentThenComment | frontend/src/utils/CodeShortcuts.js:86-91 | A line commented as the toggle comments is uncommented to its text, and toggling it twice gives it back. |
| CodeShortcuts.ToggledLinesTwice | frontend/src/utils/CodeShortcuts.js:84-98 | Toggling the same range twice restores its lines when none was a comment. |
| CodeShortcuts.ToggleBlockComment | frontend/src/utils/CodeShortcuts.js:104-141 | `toggleBlockComment` as written. `ToggleBlockCommentAgrees` and `BlockCommentOnEmptyFirstLine` state where it agrees with the corrected version and where it does not. |
| CodeShortcuts.ToggleBlockCommentAtLine | frontend/src/utils/CodeShortcuts.js:104-141 | The corrected block-comment toggle. `CaretBlockToggle`, `ToggleBlockCommentLines` and `ToggleBlockCommentTwice` state its effect. |
| CodeShortcuts.CaretBlockToggle | frontend/src/utils/CodeShortcuts.js:109-126 | Without a selection, the corrected toggle rewrites the caret's line and nothing else. |
| CodeShortcuts.ToggleBlockCommentLines | frontend/src/utils/CodeShortcuts.js:109-126 | Without a selection, the corrected toggle replaces the caret's line by its toggled form and keeps every other line. |
| CodeShortcuts.UnwrapWrap | frontend/src/utils/CodeShortcuts.js:117-125 | A wrapped line is a block comment, and unwrapping it gives the line back. |
| CodeShortcuts.ToggleWrappedLine | frontend/src/utils/CodeShortcuts.js:109-126 | Toggling again at the same caret works on the wrapped line. |
| CodeShortcuts.ToggleBlockCommentTwice | frontend/src/utils/CodeShortcuts.js:104-141 | Toggling an uncommented line twice at the same caret gives back the code. |
| CodeShortcuts.ToggleBlockCommentAgrees | frontend/src/utils/CodeShortcuts.js:104-141 | The as-written toggle equals the corrected one except with the caret at position 0 of a code opening with a newline. |
| CodeShortcuts.BlockCommentOnEmptyFirstLine | frontend/src/utils/CodeShortcuts.js:113-115 | At position 0 of "\nab", the as-written toggle gives "\n/* \n */\nab", turning two lines into four; the corrected one gives "/*  */\nab". |
| CodeShortcuts.ToggleSelectionComment | frontend/src/utils/CodeShortcuts.js:128-137 | The block-comment toggle of a selection. `SelectionWrapped`, `SelectionUnwrapped` and `SelectionWrapUnwrap` state its effect. |
| CodeShortcuts.SelectionWrapped | frontend/src/utils/CodeShortcuts.js:133-137 | Wrapping a selection keeps the text around it, moves the selected text 3 on, and ends the new selection 4 past that text. |
| CodeShortcuts.SelectionUnwrapped | frontend/src/utils/CodeShortcuts.js:129-132 | Unwrapping a selection takes two characters off each end, or everything for a selection shorter than four. The selection moves by -2 and -4. |
| CodeShortcuts.SelectionWrapUnwrap | frontend/src/utils/CodeShortcuts.js:128-137 | Wrapping a selection, then unwrapping the whole comment, gives the selection with a space on each side. |
| CodeShortcuts.CountUnescaped | frontend/src/utils/CodeShortcuts.js:158-167 | The backward scan counts exactly the unescaped quotes before the cursor. |
| CodeShortcuts.HandleAutoCloseQuote | frontend/src/utils/CodeShortcuts.js:144-182 | The quote closes unless there is a selection, the cursor is inside a string of that quote, the next character is that quote, or the next character is not blank and not one of `;,.)}]`. |
| CodeShortcuts.HandleAutoClosePair | frontend/src/utils/CodeShortcuts.js:194-225 | The shared scan counts double and single quotes, and the pair closes under the same conditions with the closer as the blocking character. |
| CodeShortcuts.HandleAutoCloseParen | frontend/src/utils/CodeShortcuts.js:185-226 | `(` follows the pair rule with `)`. |
| CodeShortcuts.HandleAutoCloseCurly | frontend/src/utils/CodeShortcuts.js:229-270 | `{` follows the pair rule with `}`. |
| CodeShortcuts.HandleAutoCloseBracket | frontend/src/utils/CodeShortcuts.js:273-314 | `[` follows the pair rule with `]`. |
| CodeShortcuts.AutoClosedShape | frontend/src/utils/CodeShortcuts.js:169-181 | The cursor lands just past the opener and the text on both sides is kept. The closer follows the cursor iff the pair closes, and removing the insertion gives back the code. |
| CodeShortcuts.TypedQuoteToggles | frontend/src/utils/CodeShortcuts.js:158-167 | An unescaped quote typed at the cursor moves the cursor into a string from outside and out of it from inside. |
| CodeShortcuts.AutoCloseQuoteToggles | frontend/src/utils/CodeShortcuts.js:144-182 | After the quote handler, the cursor is inside a string iff it was outside one before. |
| CodeShortcuts.WordStart | frontend/src/utils/CodeShortcuts.js:18-20 | The last word starts just past the last whitespace before the cursor, and contains no whitespace. |
| CodeShortcuts.CaretOffsetFirstPair | frontend/src/utils/CodeShortcuts.js:29-37 | The cursor goes just past the opener of the first empty `()` or `{}`, or to the end when there is none. |
| CodeShortcuts.ExpandShortcut | frontend/src/utils/CodeShortcuts.js:17-46 | `expandShortcut`. `ExpandWithoutShortcut` and `ExpandWithShortcut` state its effect with and without a mapped word. |
| CodeShortcuts.ExpandWithoutShortcut | frontend/src/utils/CodeShortcuts.js:42-45 | Without a mapped word, four spaces are inserted at the cursor and the cursor moves 4. |
| CodeShortcuts.ExpandWithShortcut | frontend/src/utils/CodeShortcuts.js:17-39 | A mapped word is replaced by its snippet. The word follows whitespace or the start, the text around it is kept, and the cursor lands inside the snippet. |
| CodeShortcuts.ExpandIf | frontend/src/utils/CodeShortcuts.js:8 | Tab after "x if" gives "x if () {}" with the cursor inside the parentheses. |
| CodeInputArea.HandleKeyDown | frontend/src/components/CodeInputArea.jsx:14-31 | Only Tab is handled, and it yields the Tab edit. |
| CodeInputArea.TabEdit | frontend/src/components/CodeInputArea.jsx:23-28 | The Tab edit. `TabEditShape` and `TabEditLines` state its effect. |
| CodeInputArea.TabEditShape | frontend/src/components/CodeInputArea.jsx:23-28 | Tab replaces the selection by four spaces, keeps the text around it, puts the caret after them, and changes the length by 4 minus the selection's length. |
| CodeInputArea.TabEditLines | frontend/src/components/CodeInputArea.jsx:23 | Tab removes the selection's line breaks and adds none. |
| CodeInputArea.LineCount | frontend/src/components/CodeInputArea.jsx:71 | The line counter, `split('\n').length`. `LineCountIsNewlines` states its value. |
| CodeInputArea.LineCountIsNewlines | frontend/src/components/CodeInputArea.jsx:71 | The line counter is one more than the number of newlines. |
| GameMode.FoundKeywords | frontend/src/hooks/UseGameModeLogic.js:88-90 | Found keywords are expected keywords that the lower-cased code contains, lower-cased themselves. |
| GameMode.FoundKeywordsComplete | frontend/src/hooks/UseGameModeLogic.js:88-90 | Every expected keyword the code contains is found. |
| GameMode.AllKeywordsFoundIff | frontend/src/hooks/UseGameModeLogic.js:88-92 | The keyword score is 1 iff the code contains every expected keyword. |
| GameMode.StructureScore | frontend/src/hooks/UseGameModeLogic.js:95-124 | The four weighted structure checks. `StructureScoreRange` states its range and its extremes. |
| GameMode.StructureScoreRange | frontend/src/hooks/UseGameModeLogic.js:95-124 | The structure score lies in [0, 1]. It is 1 iff all four checks pass and 0 iff none does. |
| GameMode.GradeOf | frontend/src/hooks/UseGameModeLogic.js:76-143 | Blank code, and only blank code after trimming, gets the blank grade. |
| GameMode.Message | frontend/src/hooks/UseGameModeLogic.js:77-143 | The message of each grade, with the texts and the rounded percentage as the source writes them. `Evaluate` states the blank refusal. |
| GameMode.Evaluate | frontend/src/hooks/UseGameModeLogic.js:76-144 | Blank code gets the refusal message, and a submission succeeds iff its grade is the top one. |
| GameMode.TotalScoreRange | frontend/src/hooks/UseGameModeLogic.js:126-141 | The total score lies in [0, 1] and the shown percentage in [0, 100]. |
| GameMode.GradePercentRange | frontend/src/hooks/UseGameModeLogic.js:128-143 | Every percentage a grade reports lies in [0, 100]. |
| GameMode.SuccessNeedsHalfTheKeywords | frontend/src/hooks/UseGameModeLogic.js:126-128 | A success needs at least half of the expected keywords. |
| GameMode.SuccessNeedsStructure | frontend/src/hooks/UseGameModeLogic.js:126-128 | A success needs a structure score of at least 0.25. |
| GameMode.FullKeywordScore | frontend/src/hooks/UseGameModeLogic.js:126-128 | All keywords plus a structure score of 0.3 reach the 0.7 threshold. |
| GameMode.AllKeywordsAndOneCheckSucceed | frontend/src/hooks/UseGameModeLogic.js:76-132 | Non-blank code with every keyword and a declaration or a return succeeds. |
| GameMode.TotalScoreMonotone | frontend/src/hooks/UseGameModeLogic.js:126 | More keywords found never lower the total score. |
| GameMode.CodingPromptsHaveKeywords | frontend/src/hooks/UseGameModeLogic.js:4-47 | Every prompt has expected keywords, so the keyword score is never NaN in the game. |
| GameMode.GameSession.constructor | frontend/src/hooks/UseGameModeLogic.js:50-54 | A session starts on the first prompt with empty code and no submission. |
| GameMode.GameSession.HandleCodeChange | frontend/src/hooks/UseGameModeLogic.js:69-73 | New code is taken iff nothing was submitted; nothing else changes. |
| GameMode.GameSession.HandleSubmit | frontend/src/hooks/UseGameModeLogic.js:147-153 | Blank code or a second submission changes nothing. Otherwise the evaluation is stored and the session is marked submitted. |
| GameMode.GameSession.GenerateNewPrompt | frontend/src/hooks/UseGameModeLogic.js:156-164 | The chosen prompt is installed, the code cleared and the submission dropped. |
| ThemeContext.Dasherize | frontend/src/styles/ThemeContext.js:14 | `replace(/([A-Z])/g, '-$1')`: a dash before each upper-case letter. `CamelKebab` states that it can be undone. |
| ThemeContext.CssVarName | frontend/src/styles/ThemeContext.js:14 | The custom property name of a theme key. `CssVarNameShape` and `CssVarNameInjective` state its shape and injectivity. |
| ThemeContext.CssVarNameShape | frontend/src/styles/ThemeContext.js:14 | Every property name is `--` followed by a name with no upper-case letter, one character longer than the key per upper-case letter. |
| ThemeContext.CamelKebab | frontend/src/styles/ThemeContext.js:14 | On keys without dashes the transform is undone by turning each dash and letter back into a capital, so it loses nothing. |
| ThemeContext.CssVarNameInjective | frontend/src/styles/ThemeContext.js:14 | Two dash-free keys with the same property name are the same key. |
| ThemeContext.KebabThreeWords | frontend/src/styles/ThemeContext.js:14 | A key of three lower-case words joined in camel case becomes the three words joined by dashes. |
| ThemeContext.Properties | frontend/src/styles/ThemeContext.js:13-15 | One property per theme entry, in order, each named by the transform with the entry's value. |
| ThemeContext.Written | frontend/src/styles/ThemeContext.js:13-15 | The `setProperty` calls in order, as a fold over the style. `WrittenKeys`, `WrittenValue` and `WrittenKeeps` state its effect. |
| ThemeContext.WrittenKeys | frontend/src/styles/ThemeContext.js:13-15 | Writing properties adds exactly their names to the style. |
| ThemeContext.WrittenValue | frontend/src/styles/ThemeContext.js:13-15 | With distinct names, each property holds its own value afterwards. |
| ThemeContext.WrittenKeeps | frontend/src/styles/ThemeContext.js:13-15 | Every other style property keeps its value. |
| ThemeContext.AppliedSets | frontend/src/styles/ThemeContext.js:10-17 | For a well-keyed theme, every entry's property holds its value and every other property is untouched. |
| ThemeContext.NamesCount | frontend/src/styles/ThemeContext.js:13-15 | A well-keyed theme writes as many distinct properties as it has entries. |
| ThemeContext.ThemeProvider.constructor | frontend/src/styles/ThemeContext.js:8 | The provider starts on the light theme. |
| ThemeContext.ThemeProvider.ApplyTheme | frontend/src/styles/ThemeContext.js:10-17 | A known theme is written into the style as `Applied` says and becomes current. An unknown name changes nothing. |
| Rating.KFactor | src/main/java/com/coderacer/algo/KFactorRatingAlgorithm.java:11-25 | K is 20, 10 or 5. |
| Rating.CalculateDelta | src/main/java/com/coderacer/algo/KFactorRatingAlgorithm.java:21-33 | The delta is never above K. It is K exactly when the rounded share reaches K, and below that it is the rounded `perfScore * k / 500`. |
| Rating.KFactorNonIncreasing | src/main/java/com/coderacer/algo/KFactorRatingAlgorithm.java:23-25 | A higher rating never gets a larger K. |
| Rating.DeltaMonotone | src/main/java/com/coderacer/algo/KFactorRatingAlgorithm.java:29-32 | A better performance never earns a smaller delta. |
| Rating.DeltaOfZero | src/main/java/com/coderacer/algo/KFactorRatingAlgorithm.java:29-32 | A score of 0 earns 0. |
| Rating.DeltaFullIff | src/main/java/com/coderacer/algo/KFactorRatingAlgorithm.java:29-32 | The full K is earned iff `2 * perfScore * k + 500 >= 1000 * k`. |
| Rating.DeltaSaturates | src/main/java/com/coderacer/algo/KFactorRatingAlgorithm.java:28-32 | Every score of 500 or more, 1000 included, earns exactly K. |
| Rating.DeltaSign | src/main/java/com/coderacer/algo/KFactorRatingAlgorithm.java:29-32 | A non-negative score never lowers the rating, and a negative one never raises it. |
| Rating.LowRatingThreshold | src/main/java/com/coderacer/algo/KFactorRatingAlgorithm.java:29-32 | Below a rating of 200, 488 earns the full 20 and 487 earns 19. |
| Numeric.RoundDiv | src/main/java/com/coderacer/algo/KFactorRatingAlgorithm.java:29 | `Math.round(p / q)`: the closest integer, with halves going up. |
| Numeric.WrapInt32 | src/main/java/com/coderacer/service/AccountService.java:198 | Java `int` addition wraps into [-2^31, 2^31) and leaves in-range values alone. |
| Testing.OutputsMatch | src/main/java/com/coderacer/service/TestingService.java:70-84 | The specification of `compareOutputs`. `CompareOutputs` is proved equal to it and `MatchIgnoresPadding` states that padding never matters. |
| Testing.CompareOutputs | src/main/java/com/coderacer/service/TestingService.java:70-84 | The loop answers true iff the lists have equal length and agree line by line after `trim()`. |
| Testing.MatchIgnoresPadding | src/main/java/com/coderacer/service/TestingService.java:76-78 | Surrounding blanks and control characters never make a line fail. |
| Testing.TrimPadding | src/main/java/com/coderacer/service/TestingService.java:76-77 | Trimming a padded line gives the trim of the line. |
| Testing.Passes | src/main/java/com/coderacer/service/TestingService.java:47-68 | The specification of `runSingleTest`. `RunSingleTest` is proved equal to it, and `PassCount` counts it. |
| Testing.RunSingleTest | src/main/java/com/coderacer/service/TestingService.java:47-68 | A test passes iff the run returned `SUCCESS` and matching output. A thrown exception or any other status fails it. |
| Testing.PassCount | src/main/java/com/coderacer/service/TestingService.java:33-37 | The pass count never exceeds the number of tests. |
| Testing.PassCountAllIff | src/main/java/com/coderacer/service/TestingService.java:43 | All tests are counted iff every test passes. |
| Testing.PassCountNoneIff | src/main/java/com/coderacer/service/TestingService.java:33-37 | None is counted iff no test passes. |
| Testing.TestCode | src/main/java/com/coderacer/service/TestingService.java:25-45 | The call succeeds iff the problem is stored; an unknown problem is the not-found error. The result counts the tests and the passes, and all-passed holds iff the counts are equal. |
| Accounts.RatedAccount | src/main/java/com/coderacer/service/AccountService.java:195-198 | Only the rating changes, and it stays a Java `int`. Without overflow it grows by exactly the algorithm's delta. |
| Accounts.RatedAccountBounded | src/main/java/com/coderacer/service/AccountService.java:195-198 | For a rating clear of the `int` limit and a non-negative score, a game raises the rating by at most K. |
| Accounts.RatedAccountKeeps | src/main/java/com/coderacer/service/AccountService.java:195-198 | Id, username, e-mail, password, verification and role are left alone. |
| Accounts.StoreKeepsWellFormed | src/main/java/com/coderacer/service/AccountService.java:77 | Saving an account whose username and e-mail no other account has keeps ids, usernames and e-mails unique. |
| Accounts.LoginOutcome | src/main/java/com/coderacer/service/AccountService.java:160-170 | An unverified account is refused first, then a wrong password. Otherwise the token is signed for the username and role. |
| Accounts.AccountService.constructor | src/main/java/com/coderacer/service/AccountService.java:29-36 | The service starts with no accounts and no tokens. |
| Accounts.AccountService.CreateAccount | src/main/java/com/coderacer/service/AccountService.java:60-86 | A taken username is refused, then a taken e-mail, changing nothing. Otherwise an unverified user with rating 0 is stored, with a token expiring 24 hours later. |
| Accounts.AccountService.UpdateAccount | src/main/java/com/coderacer/service/AccountService.java:89-113 | The update succeeds iff the id exists and no changed e-mail is taken. An unknown id is refused, then a taken e-mail, changing nothing. Otherwise each given field is set, the rating floored at 0, and the store stays unique. |
| Accounts.AccountService.DeleteAccount | src/main/java/com/coderacer/service/AccountService.java:116-121 | An unknown id is an error; otherwise exactly that account is removed. |
| Accounts.AccountService.ChangePassword | src/main/java/com/coderacer/service/AccountService.java:124-136 | The change succeeds iff the id exists and the current password checks out. An unknown id or a wrong current password is refused and changes nothing. Otherwise only the password changes. |
| Accounts.AccountService.VerifyAccount | src/main/java/com/coderacer/service/AccountService.java:139-151 | A missing or expired token is a bad request that changes nothing. Otherwise the owner is marked verified and the token deleted. |
| Accounts.AccountService.AttemptLogin | src/main/java/com/coderacer/service/AccountService.java:154-171 | An unknown username fails with not-found; otherwise the answer is `LoginOutcome` of that user's account. |
| Accounts.AccountService.UpdateRating | src/main/java/com/coderacer/service/AccountService.java:182-200 | An unknown account, then an unknown level, is an error and changes nothing. Otherwise only that account's rating moves, as `RatedAccount` says. |

## Left out

- Floating point: scores, rates and percentages are exact rationals. An IEEE rounding error right at a threshold (0.7, 0.4, a `.5` before `Math.round`) is not modelled.
- `Math.random` in `generateNewPrompt` is the parameter `randomIndex`. The level-session DTO's `cpm * accuracy * multiplier` product is the input `performanceScore` of `UpdateRating`, so the difficulty multiplier and its rounding are not modelled.
- Clocks are inputs, and so are the random UUIDs of accounts and tokens: `Date.now()` in milliseconds and `LocalDateTime.now()` as `now`.
- DOM and React side effects are not modelled:
  - focusing, `setTimeout` and selection ranges;
  - console logging;
  - setting the caret on the textarea (the Tab edit returns the caret position instead);
  - the CSS blink animation;
  - re-rendering.

  A React state setter is modelled as taking effect after the handler, so every read in a handler sees the value from before the key.
- `userInput` is set only by the character branch of `handleKeyDown`, to the typed texts joined (`RebuiltInput`), and cleared by `reset`; Backspace and Space leave it as it was. Besides the start-time test, the hook returns it and the level page hands it to the typing view, which colours every snippet character by it. The hook and the view are modelled separately: `TypingArea.Render` takes the input as a parameter, and the page that wires the one to the other is not modelled.
- `toLowerCase` and the upper-case test of the theme regex are ASCII only, with no Unicode case mapping.
- Characters are Unicode scalar values. Characters outside the Basic Multilingual Plane, which are two UTF-16 units in JavaScript, are not modelled: for them `Handled`'s one-character test accepts a key that `e.key.length === 1` rejects, and `.length`, `split('')` and the CPM length count one where JavaScript counts two.
- The themes themselves (`colors.js`) are a parameter of `ApplyTheme`.
- ThemeContext.ThemeProvider.ApplyTheme: for an unknown theme name the source throws on `Object.keys(undefined)`; the model reports `false` and changes nothing.
- `SHORTCUT_MAPPINGS` is looked up as a map on its own keys. Inherited object members such as `toString` are not modelled.
- Editor selections are offsets, and the textarea's selection as a yes/no flag. A selection end past the text, which the browser clamps, is not modelled.
- The unused `lines`/`startLine` in `toggleBlockComment`, and `codeLines` in `evaluateCode`, compute nothing that is used. They are left out.
- `newEnd += 7` when wrapping in a block comment ends the selection one past the closer. The model states it as written (`SelectionWrapped`). A corrected shift is not proposed, because neither the wrap's nor the unwrap's shifts keep the selection on the original text and the intended selection cannot be inferred.
- GameMode.GradeOf: with no expected keywords the source divides 0 by 0 and prints `NaN`. The model keeps that case as `KeepTrying(None)` without modelling NaN arithmetic, and all six prompts have keywords.
- Testing.RunSingleTest: the code-execution client is a function parameter returning a result or an exception. `TestCase.inputs` is declared `List<String>` but read as `List<Integer>` at line 50. The model hands the inputs over as they are and does not model the unchecked conversion.
- Accounts: BCrypt password checking and JWT signing are function parameters, and the verification e-mail is not sent. `Account.java` is not part of this model: its role field, `setPassword` hashing and `verifyPassword` are taken as the stored password plus a checker.
- Accounts.AccountService.VerifyAccount: a token whose account was deleted (which the foreign key prevents in the database) verifies nothing but is still consumed.
- Accounts.AccountService.UpdateAccount: requires a given rating to be a Java `int`, which is the DTO's type.
- The read-only lookups `getAccount`, `getAccountByUsername` and `getAllAccounts` are not modelled: they change nothing and only map an entity to its DTO.
- Null lists and null DTO fields other than the optional update fields are not modelled.
- Concurrency and transactions are not modelled: every service method runs to completion on its own.
- The source comment on `calculateDelta` says a score of 1000 gives about K. In fact the cap is reached from 488 on (`DeltaSaturates`, `LowRatingThreshold`); the model follows the code.
- A rating near `Integer.MAX_VALUE` wraps around on the update (`WrapInt32`), as the Java addition does.

## Findings

| source | as written | input that shows it | evidently intended | confidence | as-written member | corrected member |
|---|---|---|---|---|---|---|
| frontend/src/utils/CodeShortcuts.js:64-69 | a selection's copy of its lines is inserted at the selection's end, mid-line | code "ab", selection [0, 1) gives "a\nabb" with selection [3, 4) covering "b" | insert the copy after the end of the last selected line, so the new selection covers the copied text | not executed | CodeShortcuts.DuplicateSelectionSplitsLine | CodeShortcuts.DuplicateLinesCopies |
| frontend/src/utils/CodeShortcuts.js:113-115 | `lastIndexOf('\n', start - 1)` at start 0 searches from index 0, so a leading newline is taken as the line's start | code "\nab", caret 0 gives "\n/* \n */\nab", wrapping the newline and turning two lines into four | the caret's line is the empty first line, giving "/*  */\nab" | not executed | CodeShortcuts.BlockCommentOnEmptyFirstLine | CodeShortcuts.ToggleBlockCommentLines |
