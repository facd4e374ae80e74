# Anchor Academy core, modelled in Dafny

Anchor Academy is a Next.js course site that teaches Rust and Anchor through lessons and
code challenges. This project models the four pieces of deterministic logic in its
components and proves what they promise:

- **The code-challenge editor** (`CodeEditor.tsx`), in `code_editor.dfy`:
  - the validator's four fixed substring checks;
  - the grading in `runCode`, which compares the number of passed checks with the number of tests;
  - the console messages;
  - the editor state (`code`, `output`, `isRunning`, `showHints`, `hintIndex`) as a class with one method per handler.
- **The lesson-story Markdown renderer** (`LessonView.tsx`, `MarkdownRenderer`):
  - `renderMarkdown`, in `markdown_renderer.dfy`: a `for` loop over lines, with a code-fence toggle and a line classifier.
  - `processInlineMarkdown`, in `inline_markdown.dfy`: a `while` loop scanning for `**bold**` and `` `code` ``.
  - Each method is proved equal to a functional specification. The specifications carry the properties: the exact round trip of the inline scanner, the token invariants, the literal fallbacks, code-fence grouping and one element per line.
- **Progress bookkeeping** (`Dashboard.tsx`), in `dashboard.dfy`:
  - the progress record and the completion update;
  - the level formula, the lesson total and per-chapter progress;
  - the `useEffect` pass that rewrites every lesson's `locked`/`completed` flags in place, as methods over `Lesson` objects;
  - the dashboard / chapter / lesson screen selection.
- **XP arithmetic** (`ProgressBar.tsx`), in `progress_bar.dfy`: JavaScript's truncating `%`, the clamped display values and the rounded percentage.

`text.dfy` holds the JavaScript string operations the components use: `trim`, `startsWith`, `indexOf`, `includes`, `split` and `join`. `wrappers.dfy` holds `Option`.

`runCode` grades without looking at the test objects:
- It runs four hard-wired checks and calls the run a success when the *number* of passed checks equals the *number* of tests.
- So an empty test list succeeds only when every check fails, and a list shorter than four that passes every check is reported as failed with an empty failure list (`CodeEditor.ShortTestListFailsWithNothingListed`).

## Model

| member | source | states |
|---|---|---|
| CodeEditor.ValidateCode | src/components/AnchorAcademy/CodeEditor.tsx:62-72 | the four `if`s build exactly the list of the numbers of the passing checks, in check order (`Passed`) |
| CodeEditor.Passed | src/components/AnchorAcademy/CodeEditor.tsx:62-72 | the check numbers that pass: at most four, each below 4 |
| CodeEditor.PassedShape | src/components/AnchorAcademy/CodeEditor.tsx:66-69 | the list is strictly increasing, drawn from {0,1,2,3}, at most four long; 0 is in it iff the code contains "let treasure_name", 1 iff "let mut treasure_count", 2 iff "treasure_count +=" or "treasure_count = treasure_count +", 3 iff it does not contain "TODO:" |
| CodeEditor.PassedAllFour | src/components/AnchorAcademy/CodeEditor.tsx:62-71 | all four numbers come back iff all four checks pass |
| CodeEditor.Positions | src/components/AnchorAcademy/CodeEditor.tsx:63-69 | the positions listed are below the bound |
| CodeEditor.PositionsShape | src/components/AnchorAcademy/CodeEditor.tsx:63-69 | the listed positions are exactly those where the check holds, strictly increasing |
| CodeEditor.AllPositions | src/components/AnchorAcademy/CodeEditor.tsx:63-69 | every position is listed iff every check holds |
| CodeEditor.NoPositions | src/components/AnchorAcademy/CodeEditor.tsx:50 | where nothing holds, nothing is listed |
| CodeEditor.PositionsStep | src/components/AnchorAcademy/CodeEditor.tsx:66-69 | one conditional `push` extends the list of passing positions by one check |
| CodeEditor.FailedTests | src/components/AnchorAcademy/CodeEditor.tsx:50 | the `filter` of the tests whose position is not among the passed numbers; never longer than the test list |
| CodeEditor.FailedTestsInOrder | src/components/AnchorAcademy/CodeEditor.tsx:50 | the `filter` result is exactly the tests at the positions missing from the passed list, in their original order |
| CodeEditor.FailuresWhenCountShort | src/components/AnchorAcademy/CodeEditor.tsx:50 | fewer passed entries than tests always leave a test in the failure list |
| CodeEditor.Grade | src/components/AnchorAcademy/CodeEditor.tsx:43-51 | a run without an exception never ends as a compile failure; success iff the count equals `tests.length` |
| CodeEditor.FourTestsPassIffAllChecks | src/components/AnchorAcademy/CodeEditor.tsx:45 | with four tests, success iff all four checks pass |
| CodeEditor.LongTestListNeverPasses | src/components/AnchorAcademy/CodeEditor.tsx:45-51 | a list of more than four tests always fails, with a non-empty failure list |
| CodeEditor.ShortCountNamesAFailure | src/components/AnchorAcademy/CodeEditor.tsx:45-51 | a passed count below `tests.length` fails and names at least one test |
| CodeEditor.ShortTestListFailsWithNothingListed | src/components/AnchorAcademy/CodeEditor.tsx:45-51 | code passing all four checks, graded against fewer than four tests, fails with an empty failure list |
| CodeEditor.Bullets | src/components/AnchorAcademy/CodeEditor.tsx:51 | one line `• <test>` per failed test, in order |
| CodeEditor.Message | src/components/AnchorAcademy/CodeEditor.tsx:46-55 | the text appended to the console for each outcome (success text, failure header with bullets and closing line, compile-error text); its properties are stated by `MessageTellsOutcome` |
| CodeEditor.MessageTellsOutcome | src/components/AnchorAcademy/CodeEditor.tsx:46-55 | the message starts with "✅" iff the run succeeded, with the failure header iff tests failed, with the compile-error text iff an exception occurred |
| CodeEditor.NextHintIndex | src/components/AnchorAcademy/CodeEditor.tsx:74-81 | from a non-negative index the next index stays in [0, max(0, hints.length-1)]; a non-zero result is the old index plus one and names an existing hint |
| CodeEditor.HintsCycle | src/components/AnchorAcademy/CodeEditor.tsx:74-81 | pressing "Next Hint" walks through the hints in order and wraps to the first after the last |
| CodeEditor.Editor.constructor | src/components/AnchorAcademy/CodeEditor.tsx:17-21 | initial state: the initial code, empty output, not running, hints hidden, hint index 0 |
| CodeEditor.Editor.BeginRun | src/components/AnchorAcademy/CodeEditor.tsx:34-36 | returns the code as it is when the button is pressed (the `code` the handler closes over); running, and the console shows only the banner |
| CodeEditor.Editor.FinishRun | src/components/AnchorAcademy/CodeEditor.tsx:38-59 | grades the submitted code returned by `BeginRun`, not the editor's code at the time it runs; appends exactly the outcome's message, clears `isRunning` on every path, and schedules completion iff all passed |
| CodeEditor.Editor.RunCode | src/components/AnchorAcademy/CodeEditor.tsx:34-60 | the console holds the banner followed by exactly one outcome message; completion iff no exception and the passed count equals `tests.length`; not running afterwards; code and hints untouched |
| CodeEditor.Editor.ShowNextHint | src/components/AnchorAcademy/CodeEditor.tsx:74-81 | the index advances while a later hint exists, else hints close and the index returns to 0; the index stays in [0, max(0, hints.length-1)] |
| CodeEditor.Editor.ToggleHints | src/components/AnchorAcademy/CodeEditor.tsx:111 | flips the hints panel, nothing else |
| CodeEditor.Editor.ResetCode | src/components/AnchorAcademy/CodeEditor.tsx:83-87 | code becomes the initial code and the output is cleared |
| CodeEditor.Editor.ShowSolution | src/components/AnchorAcademy/CodeEditor.tsx:89-92 | code becomes the solution; output unchanged |
| CodeEditor.Editor.Edit | src/components/AnchorAcademy/CodeEditor.tsx:156 | the new code is the editor value, or empty when undefined |
| InlineMarkdown.ProcessInlineMarkdown | src/components/AnchorAcademy/LessonView.tsx:137-201 | the `while` loop returns `InlineOf(text)`; re-wrapping its parts reproduces the text exactly, and every token is well formed |
| InlineMarkdown.ScanStep | src/components/AnchorAcademy/LessonView.tsx:142-194 | one iteration advances `i` and keeps `parts + Scan(rest)` unchanged |
| InlineMarkdown.BoldStep | src/components/AnchorAcademy/LessonView.tsx:143-164 | the `**` branch: emits a bold part up to the next `**`, or keeps `**` as literal text |
| InlineMarkdown.CodeStep | src/components/AnchorAcademy/LessonView.tsx:165-189 | the backtick branch: emits a code part up to the next backtick, or keeps the backtick as literal text |
| InlineMarkdown.CollectBold | src/components/AnchorAcademy/LessonView.tsx:151-156 | the inner loop stops at the first closing `**` if there is one; the collected text is exactly what lies between |
| InlineMarkdown.CollectCode | src/components/AnchorAcademy/LessonView.tsx:172-177 | the inner loop stops at the first backtick if there is one; the collected text is exactly what lies between |
| InlineMarkdown.MoveAt | src/components/AnchorAcademy/LessonView.tsx:143-193 | what the scanner does at one position; a consumed span re-wraps to exactly the text it covers |
| InlineMarkdown.Present | src/components/AnchorAcademy/LessonView.tsx:196-200 | exactly one plain part is returned bare, any other result as the list |
| InlineMarkdown.Flush | src/components/AnchorAcademy/LessonView.tsx:145-198 | pending text becomes a part only when it is non-empty |
| InlineMarkdown.Scan | src/components/AnchorAcademy/LessonView.tsx:139-198 | the scanner as a function of the position and the pending plain text; its properties are stated by `ScanUnparses` and `ScanWellFormed` |
| InlineMarkdown.InlineOf | src/components/AnchorAcademy/LessonView.tsx:137-201 | `processInlineMarkdown` as a function; its properties are stated by `InlineRoundTrip` and `InlineWellFormed` |
| InlineMarkdown.ScanUnparses | src/components/AnchorAcademy/LessonView.tsx:137-201 | scanning from any position and re-wrapping gives back the pending text and the rest of the input |
| InlineMarkdown.ScanWellFormed | src/components/AnchorAcademy/LessonView.tsx:145-198 | plain parts are never empty, bold text never contains `**`, code text never contains a backtick |
| InlineMarkdown.InlineRoundTrip | src/components/AnchorAcademy/LessonView.tsx:137-201 | concatenating plain parts and re-wrapping bold in `**` and code in backticks reproduces the input |
| InlineMarkdown.InlineWellFormed | src/components/AnchorAcademy/LessonView.tsx:145-198 | the token invariants hold for every input |
| InlineMarkdown.EmptyLineIsEmptyList | src/components/AnchorAcademy/LessonView.tsx:196-200 | the empty text gives an empty list |
| InlineMarkdown.ScanLiteral | src/components/AnchorAcademy/LessonView.tsx:190-193 | text with no opener is taken over as one plain part |
| InlineMarkdown.UnclosedBoldIsLiteral | src/components/AnchorAcademy/LessonView.tsx:161-163 | an opening `**` with no closing `**` stays literal text |
| InlineMarkdown.UnclosedBacktickIsLiteral | src/components/AnchorAcademy/LessonView.tsx:186-188 | a backtick with no closing backtick stays literal text |
| InlineMarkdown.DoubledBacktickIsLiteral | src/components/AnchorAcademy/LessonView.tsx:165-193 | a backtick followed by another backtick is literal text |
| InlineMarkdown.FailedOpenerSplitsPlainText | src/components/AnchorAcademy/LessonView.tsx:145-163 | a failed `**` opener still flushes the text before it, so two plain parts result |
| InlineMarkdown.BoldSpanText | src/components/AnchorAcademy/LessonView.tsx:153-160 | a closed bold span covers exactly `**` + text + `**` |
| InlineMarkdown.CodeSpanText | src/components/AnchorAcademy/LessonView.tsx:174-185 | a closed code span covers exactly backtick + text + backtick |
| MarkdownRenderer.RenderMarkdown | src/components/AnchorAcademy/LessonView.tsx:20-135 | the `for` loop returns `Rendered(text)`: the fold of `Step` over the lines of the text |
| MarkdownRenderer.RenderLines | src/components/AnchorAcademy/LessonView.tsx:23-131 | the `for` loop over the lines returns the blocks of `Run` over those lines |
| MarkdownRenderer.Step | src/components/AnchorAcademy/LessonView.tsx:28-131 | one turn of the loop on the state (elements, `inCodeBlock`, `codeBlockContent`); its properties are stated by `PendingOnlyInCode`, `OutputOnlyGrows`, `OneBlockPerLine` and `CollectsInsideFence` |
| MarkdownRenderer.Run | src/components/AnchorAcademy/LessonView.tsx:23-131 | the loop state after a list of lines, as a fold of `Step`; unfolded one line at a time by `RunSnoc` |
| MarkdownRenderer.Rendered | src/components/AnchorAcademy/LessonView.tsx:20-135 | the elements `renderMarkdown` returns for a text; `RenderMarkdown` is proved to return them |
| MarkdownRenderer.RenderStep | src/components/AnchorAcademy/LessonView.tsx:28-131 | one loop turn moves the state exactly as `Step` does |
| MarkdownRenderer.BuildBlock | src/components/AnchorAcademy/LessonView.tsx:59-131 | the element pushed for a line shape, with inline processing applied |
| MarkdownRenderer.Renderer | src/components/AnchorAcademy/LessonView.tsx:31-131 | the loop's fence test is `IsFence` and its classification is `ClassifyLine` |
| MarkdownRenderer.RunSnoc | src/components/AnchorAcademy/LessonView.tsx:27-28 | one more line is one more turn of the loop |
| MarkdownRenderer.PendingOnlyInCode | src/components/AnchorAcademy/LessonView.tsx:41-53 | lines are collected only while a code block is open |
| MarkdownRenderer.OutputOnlyGrows | src/components/AnchorAcademy/LessonView.tsx:23-130 | elements are only appended, never removed or changed |
| MarkdownRenderer.OneBlockPerLine | src/components/AnchorAcademy/LessonView.tsx:27-131 | after any earlier lines that leave no code block open, fence-free lines each append exactly one element, their classification, in order, and leave no block open |
| MarkdownRenderer.CollectsInsideFence | src/components/AnchorAcademy/LessonView.tsx:31-53 | after an opening fence the following non-fence lines are collected verbatim and emit nothing |
| MarkdownRenderer.FencedLinesFormOneBlock | src/components/AnchorAcademy/LessonView.tsx:31-53 | lines between a matched pair of fences become one code block, joined by "\n"; neither fence is emitted |
| MarkdownRenderer.UnterminatedFenceIsDropped | src/components/AnchorAcademy/LessonView.tsx:27-134 | an unclosed code block contributes nothing to the result |
| MarkdownRenderer.LineShape | src/components/AnchorAcademy/LessonView.tsx:59-131 | the `if` chain for a line outside a code block; its properties are stated by `ShapeFollowsMarker`, `LevelFollowsMarker`, `EmojiShape`, `ParagraphShape` and `BlankLineIsBreak` |
| MarkdownRenderer.HeaderText | src/components/AnchorAcademy/LessonView.tsx:60-80 | `replace(/^#+\s+/, '').trim()` for one marker; its properties are stated by `HeaderTextAfterMarker` and `IndentedHeaderKeepsMarker` |
| MarkdownRenderer.ListText | src/components/AnchorAcademy/LessonView.tsx:91 | the list text is a suffix of the line |
| MarkdownRenderer.EmojiParts | src/components/AnchorAcademy/LessonView.tsx:103-107 | `line.split('**')` with at least three pieces: the trimmed first piece, the second piece, the rest joined with `**`; its properties are stated by `EmojiPartsAtMarkers` |
| MarkdownRenderer.EmojiPartsAtMarkers | src/components/AnchorAcademy/LessonView.tsx:103-107 | the split finds parts exactly when a second `**` follows the first; they are then the trimmed text before the first `**`, the text between the two, and everything after the second, later `**` included |
| MarkdownRenderer.ShapeOfEmojiParts | src/components/AnchorAcademy/LessonView.tsx:102-131 | a line is an emoji item iff no marker starts it, the emoji test accepts it and the split finds parts, which the item then holds; otherwise it is a paragraph of the whole line iff it is not blank |
| MarkdownRenderer.EmojiShape | src/components/AnchorAcademy/LessonView.tsx:102-119 | a line is an emoji item iff no marker starts the trimmed line, the emoji test accepts it and `split('**')` gives at least three pieces; the item is the trimmed first piece, the second piece and the remaining pieces joined with `**` |
| MarkdownRenderer.ParagraphShape | src/components/AnchorAcademy/LessonView.tsx:102-131 | a line is a paragraph iff no marker starts it, it is not blank, and it is not an emoji item (the test rejects it or the split has fewer than three pieces); the paragraph holds the whole untrimmed line |
| MarkdownRenderer.ShapeFollowsMarker | src/components/AnchorAcademy/LessonView.tsx:59-119 | a line is a heading iff its trimmed form starts with "# ", "## " or "### ", a list item iff it starts with "- ", and an emoji item only when the emoji test accepts it |
| MarkdownRenderer.LevelFollowsMarker | src/components/AnchorAcademy/LessonView.tsx:59-87 | the heading level is 3, 2 or 1 exactly by the marker, so "### " takes precedence over "## " and "# " |
| MarkdownRenderer.MarkersExclusive | src/components/AnchorAcademy/LessonView.tsx:59-90 | no two of the markers can start the same text |
| MarkdownRenderer.BlankLineIsBreak | src/components/AnchorAcademy/LessonView.tsx:122-131 | a line yields a line break iff it is whitespace only |
| MarkdownRenderer.IndentedHeaderKeepsMarker | src/components/AnchorAcademy/LessonView.tsx:69-70 | an indented "## " line is a level-2 heading whose text still starts with "## " |
| MarkdownRenderer.HeaderAtColumnZero | src/components/AnchorAcademy/LessonView.tsx:69-70 | a "## " line at column 0 is a level-2 heading of the trimmed text after the marker |
| MarkdownRenderer.HeaderTextAfterMarker | src/components/AnchorAcademy/LessonView.tsx:70 | the `replace` then `trim` leaves the trimmed text after a column-0 marker |
| MarkdownRenderer.ListTextAfterMarker | src/components/AnchorAcademy/LessonView.tsx:91 | when the trimmed line starts with "- ", the list text is what follows that marker in the untrimmed line: the first "- " is where the trimmed line starts |
| Text.Split | src/components/AnchorAcademy/LessonView.tsx:22 | at least one piece, and no piece contains the separator |
| Text.JoinSplit | src/components/AnchorAcademy/LessonView.tsx:22-37 | joining the pieces of a split with the separator gives back the text |
| Text.SplitJoin | src/components/AnchorAcademy/LessonView.tsx:22-37 | splitting a join of separator-free pieces gives back the pieces |
| Text.SplitOn | src/components/AnchorAcademy/LessonView.tsx:103 | `split` at a non-empty separator string gives at least one piece |
| Text.SplitOnTwice | src/components/AnchorAcademy/LessonView.tsx:103-106 | with the separator first at `p` and next at `q`, the first two pieces are the text before `p` and the text between, and the remaining pieces are the split of the text after the second separator |
| Text.SplitOnAtTwo | src/components/AnchorAcademy/LessonView.tsx:103-107 | as `SplitOnTwice`, with the remaining pieces joining back to everything after the second separator |
| Text.JoinSplitOn | src/components/AnchorAcademy/LessonView.tsx:103-107 | joining the pieces of a split at a string separator with that separator gives back the text |
| Text.Trim | src/components/AnchorAcademy/LessonView.tsx:31 | no longer than the input, with no whitespace at either end |
| Text.TrimEmptyIffBlank | src/components/AnchorAcademy/LessonView.tsx:122 | a line trims to empty iff it is whitespace only |
| Text.IndexOfFrom | src/components/AnchorAcademy/LessonView.tsx:91 | a position it returns is an occurrence at or after the start position |
| Text.IndexOfFromFirst | src/components/AnchorAcademy/LessonView.tsx:91 | no occurrence lies between the start position and the position returned, and none at all after the start when nothing is returned |
| Text.FindChar | src/components/AnchorAcademy/LessonView.tsx:174 | the first occurrence of a character at or after the start position, or none |
| Text.Contains | src/components/AnchorAcademy/CodeEditor.tsx:66-69 | `includes` holds iff the pattern occurs somewhere |
| Dashboard.UserLevel | src/components/AnchorAcademy/Dashboard.tsx:28 | the level is the one whose 100-XP band holds the XP: `(level-1)*100 <= xp < level*100` |
| Dashboard.LevelAndLevelXpDecomposeXp | src/components/AnchorAcademy/Dashboard.tsx:28 | for `xp >= 0`, `(level-1)*100 + displayCurrentLevelXp == xp` |
| Dashboard.TotalLessons | src/components/AnchorAcademy/Dashboard.tsx:29 | the `reduce` over the chapters; its property is stated by `TotalCountsEveryLesson` |
| Dashboard.TotalCountsEveryLesson | src/components/AnchorAcademy/Dashboard.tsx:29 | the `reduce` total equals the number of lessons across all chapters |
| Dashboard.InitialProgress | src/components/AnchorAcademy/Dashboard.tsx:18-25 | nothing completed and no badges at the start |
| Dashboard.CompleteLesson | src/components/AnchorAcademy/Dashboard.tsx:42-47 | the `setUserProgress` update; its properties are stated by `CompletionAppendsOneEntry` and `TwoCompletionsRaiseOneLevel` |
| Dashboard.CompletionAppendsOneEntry | src/components/AnchorAcademy/Dashboard.tsx:41-47 | exactly one entry is appended, with no duplicate check; XP +50, streak +1; the other fields are unchanged |
| Dashboard.TwoCompletionsRaiseOneLevel | src/components/AnchorAcademy/Dashboard.tsx:28-45 | two completions raise the level by exactly one |
| Dashboard.LessonIds | src/components/AnchorAcademy/Dashboard.tsx:52-53 | the chapter's lesson ids, in order |
| Dashboard.CompletedCount | src/components/AnchorAcademy/Dashboard.tsx:52-54 | counts lessons, not entries, so it is at most the lesson count |
| Dashboard.CompletedCountFull | src/components/AnchorAcademy/Dashboard.tsx:52-54 | all lessons are counted iff every lesson id is recorded |
| Dashboard.CompletedCountSeesMembersOnly | src/components/AnchorAcademy/Dashboard.tsx:52-54 | duplicates and order of the recorded entries do not matter |
| Dashboard.CompletedCountGrows | src/components/AnchorAcademy/Dashboard.tsx:52-54 | recording more never lowers the count |
| Dashboard.ChapterProgress | src/components/AnchorAcademy/Dashboard.tsx:51-56 | for a non-empty chapter progress lies in [0,100], and is 100 iff every lesson is recorded |
| Dashboard.CompletionNeverLowersProgress | src/components/AnchorAcademy/Dashboard.tsx:41-56 | completing a lesson never lowers any chapter's progress |
| Dashboard.ShareGrows | src/components/AnchorAcademy/Dashboard.tsx:55 | the percentage is monotone in the count |
| Dashboard.LockedAfterPass | src/components/AnchorAcademy/Dashboard.tsx:61-65 | the `locked` value the pass writes: false for the first lesson, otherwise whether the previous lesson's id is not recorded; `SyncChapter` and `SyncLessonFlags` are stated with it |
| Dashboard.SyncChapter | src/components/AnchorAcademy/Dashboard.tsx:60-68 | every lesson of the chapter ends with: lesson 0 unlocked; lesson i>0 locked iff the previous id is not recorded; completed iff its own id is recorded |
| Dashboard.SyncLessonFlags | src/components/AnchorAcademy/Dashboard.tsx:58-70 | the pass leaves every chapter synced; the flags depend on the recorded ids alone (not on their old values), so a second pass changes nothing; only lesson flags are written |
| Dashboard.SyncedUnlockFollowsCompletion | src/components/AnchorAcademy/Dashboard.tsx:61-67 | after the pass, lesson 0 is open and a later lesson is open iff the lesson before it shows as completed |
| Dashboard.GrowingDoneNeverLocks | src/components/AnchorAcademy/Dashboard.tsx:64-65 | recording more lessons never locks a lesson the pass had opened |
| Dashboard.CourseObjects | src/components/AnchorAcademy/Dashboard.tsx:59-60 | every chapter's lessons are among the objects the pass may write |
| Dashboard.Dashboard.constructor | src/components/AnchorAcademy/Dashboard.tsx:15-25 | starts on the dashboard with nothing selected and the initial progress record |
| Dashboard.Dashboard.CurrentScreen | src/components/AnchorAcademy/Dashboard.tsx:72-125 | lesson screen iff view is "lesson" and a lesson is selected; otherwise chapter screen iff view is "chapter" and a chapter is selected; otherwise the dashboard |
| Dashboard.Dashboard.ChapterClick | src/components/AnchorAcademy/Dashboard.tsx:31-34 | selects the chapter and shows its screen |
| Dashboard.Dashboard.LessonStart | src/components/AnchorAcademy/Dashboard.tsx:36-39 | selects the lesson and shows its screen |
| Dashboard.Dashboard.BackToChapter | src/components/AnchorAcademy/Dashboard.tsx:76 | returns to the chapter view and keeps both selections |
| Dashboard.Dashboard.BackToDashboard | src/components/AnchorAcademy/Dashboard.tsx:90 | shows the dashboard |
| Dashboard.Dashboard.SyncLessons | src/components/AnchorAcademy/Dashboard.tsx:58-70 | the effect syncs every lesson with the recorded completions |
| Dashboard.Dashboard.LessonComplete | src/components/AnchorAcademy/Dashboard.tsx:41-70 | applies the completion update, switches to the chapter view, then re-syncs every lesson's flags |
| ProgressBar.JsRem | src/components/AnchorAcademy/ProgressBar.tsx:18 | the truncating remainder lies strictly between -100 and 100 and has the sign of the dividend |
| ProgressBar.JsRemIsOdd | src/components/AnchorAcademy/ProgressBar.tsx:18 | negating the dividend negates the remainder |
| ProgressBar.JsRemOfNatural | src/components/AnchorAcademy/ProgressBar.tsx:18 | on non-negative XP it is the ordinary remainder |
| ProgressBar.CurrentLevelXp | src/components/AnchorAcademy/ProgressBar.tsx:18 | lies strictly between -100 and 100 |
| ProgressBar.ProgressToNextLevel | src/components/AnchorAcademy/ProgressBar.tsx:21 | never negative |
| ProgressBar.DisplayCurrentLevelXp | src/components/AnchorAcademy/ProgressBar.tsx:24 | lies in [0,99], and is 0 for every negative XP |
| ProgressBar.DisplayProgressPercentage | src/components/AnchorAcademy/ProgressBar.tsx:25 | clamped to [0,100] |
| ProgressBar.PercentageMatchesLevelXp | src/components/AnchorAcademy/ProgressBar.tsx:15-25 | the percentage equals the displayed level XP, so the upper clamp never bites |
| ProgressBar.Round | src/components/AnchorAcademy/ProgressBar.tsx:63 | the nearest integer, halves rounded up |
| ProgressBar.RoundedPercentage | src/components/AnchorAcademy/ProgressBar.tsx:63 | the displayed `Math.round` of the percentage lies in [0,100] |
| ProgressBar.RoundedPercentageIsRemainder | src/components/AnchorAcademy/ProgressBar.tsx:15-63 | for `xp >= 0` the rounded percentage is `xp mod 100` |
| ProgressBar.NegativeXpShowsEmpty | src/components/AnchorAcademy/ProgressBar.tsx:18-54 | negative XP shows zero level XP, an empty bar and a zero total |
| ProgressBar.DisplayTotalXp | src/components/AnchorAcademy/ProgressBar.tsx:54 | the badge total is `max(0, xp)` |

## Left out

- Timers and asynchrony: the 1500 ms simulated compile delay and the 1000 ms `onComplete` timer. `runCode` is one synchronous step (`RunCode`), or its two halves `BeginRun` and `FinishRun`. Whether `onComplete` is scheduled is the method's result.
- The exception path of `runCode`: nothing visible inside the `try` can throw, so an exception is the `fault` parameter of `RunCode`/`FinishRun`.
- Test objects are an opaque type parameter. Their string conversion in the failure list (`${test}`) is the `describe` parameter.
- `toast` notifications, Monaco editor mounting and configuration, JSX output and CSS classes are not modelled. So is `getDifficultyColor`, and so are the card components.
- React state batching: each handler's `setState` calls are applied in order as plain assignments. The `useEffect` lock pass runs as `SyncLessons`, which `LessonComplete` calls once the progress record has changed. The pass that runs after the first render is not modelled as a separate step.
- `new Date().toISOString()` is the `now` parameter of the `Dashboard` constructor.
- The emoji-list regular expression of `LessonView.tsx` is the `emojiItem` parameter, applied to the trimmed line. Its UTF-16 code-unit behaviour on multi-unit emoji is not modelled.
- JavaScript whitespace for `trim` is an explicit character set (`Text.IsWhitespace`). Strings are sequences of code points, not UTF-16 code units.
- Floating point: XP is an integer, and chapter progress and the bar percentage are exact reals. Double rounding of `(c / 100) * 100` is not modelled.
- Dashboard.ChapterProgress: requires a non-empty chapter, because the source divides by zero for an empty one and produces `NaN`.
- Dashboard.SyncLessonFlags: requires that no lesson object appears twice in the course data. With shared objects the source's later writes win, and the per-lesson postcondition is not stated for that case.
- The course content in `src/components/data/lessons.ts` and the interfaces in `src/components/types/lessons.ts`: the model keeps only the fields the logic reads or writes, so a lesson has its id and two flags and a chapter has its id and lessons.
- `src/app/layout.tsx` is not part of this model.
