# A verified model of the coding playground and its teacher tools

The playground is a web page where students write small Python programs. A
tracer runs them in the browser and records every executed line with the local
variables at that point. The page then replays the run and draws a flowchart
of the lines. Students can also step through a run by hand in a mini editor.
Teachers use two further tools:

- a dashboard that lists the stored reflections and code submissions, filters
  them by date, class and student, and deletes them;
- a script that downloads every stored submission as a `.py` file.

This project models the logic of those parts in Dafny and proves what they
promise.

- `wrappers.dfy`: the `Option` type, standing for JavaScript's
  `null`/`undefined` and for missing Python dictionary keys.
- `text.dfy`: the string operations the programs rely on. These are
  `startsWith`/`includes`, `trim`/`strip`, `replace` of one character,
  `join`, ASCII `toLowerCase`, decimal numerals, and the default order of
  `Array.prototype.sort` with the sorted list of distinct values that
  `Array.from(new Set(xs)).sort()` gives.
- `admin.dfy` (module `Admin`): the teacher dashboard.
  - Turning stored documents into submission records.
  - The date, class and student option lists.
  - The three-way filter.
  - The checkbox and button handlers that change it.
  - Deleting a submission.
  - The dashboard's mutable state is the class `Admin.Dashboard`.
- `editor.dfy` (module `Editor`): three pure helpers of the editor page.
  - `escapeForPython`, which prepares a student's code for embedding in the
    Python driver program. It is modelled with a model of how Python reads
    the resulting literal.
  - `classifyLine`, which chooses a line's flowchart shape.
  - `friendlyExplain`, which turns an error message into a hint.
- `step_mode.dfy` (module `StepMode`): stepping and playback.
  - The mini editor's step mode (class `StepMode.MiniStepper`) with its
    start, next, reset and exit buttons.
  - The rule that disables the next button, and the step badge.
  - The two variable panels.
  - The automatic playback timer (class `StepMode.Playback`).
- `download.dfy` (module `Download`): the download script.
  - The field defaults and the skip rule.
  - `safe_name` and the file name.
  - The header the file starts with.
  - The loop with its saved and error counters.
  - Each file is written through the class `Download.OutFile`, one `write`
    at a time.

Outside effects become parameters of the model:

- Firestore queries, the confirmation dialog and the outcome of a remote
  delete;
- the run result the tracer returns;
- the clock, timestamp formatting, Python's `str.isalnum`, and whether a path
  can be opened for writing.

## Model

| member | source | states |
|---|---|---|
| Admin.UserContentsCount | src/admin.js:38-40 | one content for each message whose role is `user` |
| Admin.UserContentsMembers | src/admin.js:38-40 | a content is kept iff some message with role `user` carries it |
| Admin.UserContentsAllUser | src/admin.js:38-40 | when every message has role `user`, each content is kept at its own position |
| Admin.UserContentsConcat | src/admin.js:39 | selecting user messages distributes over concatenation, so their order is kept |
| Admin.ReflectionText | src/admin.js:38-52 | a non-array chat, or one without user messages, gives the placeholder; otherwise the user contents joined by a blank line |
| Admin.UserContents | src/admin.js:38-40 | the contents of the messages whose role is `user`, in order; the lemmas below state this |
| Admin.ReflectionTextAppend | src/admin.js:51 | one more user message appends a blank line and that message to the reflection |
| Admin.ToSubmission | src/admin.js:42-54 | id, date and time carried over; a missing or empty class is `미지정` and a missing or empty name is `이름 없음`; the code path is kept only when non-empty; no drawing |
| Admin.LoadSubmissions | src/admin.js:32-55 | one record per document, in arrival order, each the mapping of its document |
| Admin.LoadedIdsUnique | src/admin.js:32-44 | the records have unique ids iff the documents do |
| Admin.UniqueDates | src/admin.js:73-74 | strictly ascending, and holding exactly the dates that occur |
| Admin.UniqueClasses | src/admin.js:76-77 | strictly ascending, and holding exactly the class names that occur |
| Admin.FilteredSubmissions | src/admin.js:90-97 | an order-preserving subsequence holding exactly the passing submissions, each as often as in the list; an empty date or class set and an absent or empty user admit all |
| Admin.Passes | src/admin.js:90-97 | the test applied to each submission: the date is in the date set or that set is empty, likewise the class, and the name equals the user filter unless that filter is absent or empty |
| Admin.FilteredKeepsId | src/admin.js:90-97 | an id found in the shown list is in the full list |
| Admin.NoFiltersShowAll | src/admin.js:90-97 | with no filters the whole list is shown |
| Admin.UsersForDatesAndClasses | src/admin.js:79-88 | strictly ascending; a name is listed iff some submission passing the date and class filters has it |
| Admin.UsersCoverFiltered | src/admin.js:79-97 | every student in the shown list has a button, whatever the user filter |
| Admin.ToggledFilter | src/admin.js:117-123 | checking adds the value to the set, unchecking removes it, and no other value changes |
| Admin.NextUserFilter | src/admin.js:177-184 | the filter is cleared iff the clicked name was active; otherwise it becomes that name |
| Admin.ClickTwice | src/admin.js:179-183 | two clicks restore the filter iff it was off or on that name |
| Admin.FindIndexById | src/admin.js:259 | `findIndex`: the first position with the id, or -1 when there is none |
| Admin.RemoveFirstById | src/admin.js:259-262 | `splice(index, 1)`: an unknown id changes nothing; otherwise exactly the first match is removed, the rest kept in order |
| Admin.RemoveFirstByIdSplice | src/admin.js:259-262 | with a match at index k the result is the list before k followed by the list after k |
| Admin.RemoveFirstByIdRemovesId | src/admin.js:259-262 | with unique ids no submission with the deleted id remains |
| Admin.RemoveFirstByIdKeepsUniqueIds | src/admin.js:259-262 | deleting keeps the ids unique |
| Admin.DeletedSubmissionStillShown | src/admin.js:259-276 | the splice makes the handler's filtered copy one record shorter, while the view after the filters are reset is the untouched list, which still holds the id |
| Admin.DeletedSubmissionGone | src/admin.js:259-276 | after a delete from the dashboard's own list the id is no longer shown |
| Admin.Dashboard.constructor | src/admin.js:14-18 | no submissions, no filters, nothing selected |
| Admin.Dashboard.RenderSubmissionList | src/admin.js:190-204 | the selection is cleared exactly when the filtered list is empty; nothing else changes |
| Admin.SelectionAfterRender | src/admin.js:190-204 | a render keeps the selection unless the filtered list is empty, and then nothing is selected |
| Admin.Dashboard.Load | src/admin.js:28-70 | a failed query changes nothing; otherwise the records replace the list, every filter and the selection are reset, and the list has unique ids iff the documents do |
| Admin.Dashboard.ChangeDateCheckbox | src/admin.js:117-126 | the date set is toggled, the other filters and the list stay, and the list is re-rendered |
| Admin.Dashboard.ChangeClassCheckbox | src/admin.js:148-157 | the class set is toggled, the other filters and the list stay, and the list is re-rendered |
| Admin.Dashboard.ClickUser | src/admin.js:177-186 | the user filter moves as `NextUserFilter` says, the other state stays, and the list is re-rendered |
| Admin.Dashboard.SelectSubmission | src/admin.js:226-232 | the clicked row becomes the selection, then the list is re-rendered |
| Admin.Dashboard.ResetAfterDelete | src/admin.js:264-280 | the selection is cleared if it was the deleted id, then every filter is reset and the list re-rendered |
| Admin.Dashboard.DeleteSubmissionAsWritten | src/admin.js:238-286 | deleted iff the id is shown, confirmed and removed remotely; only the handler's own copy shrinks, so the dashboard list is unchanged and the deleted id is shown again; the selection is cleared if it was the deleted id and the list re-rendered |
| Admin.Dashboard.DeleteSubmission | src/admin.js:238-286 | deleted under the same condition; the dashboard list loses that submission, ids stay unique and the id is no longer shown; the selection is cleared if it was the deleted id and the list re-rendered |
| Text.SortedDistinct | src/admin.js:74 | `Array.from(new Set(xs)).sort()`: strictly ascending, with the same elements as the input |
| Text.StrictlySortedUnique | src/admin.js:74 | two strictly sorted lists with the same elements are equal, so the option lists are determined by their contents |
| Editor.EscapeForPython | src/main.js:63-64 | the four global replacements in a row equal a single left-to-right escape of each `'''` and each backslash, backtick and dollar |
| Editor.CharPassesIsEscapeChars | src/main.js:64 | the backslash, backtick and dollar passes over the whole text equal escaping each character in turn |
| Editor.StartsTripleIsPrefix | src/main.js:64 | the three-character test used for `'''` holds exactly when the text begins with `'''` |
| Editor.EscapeGuardsSpecials | src/main.js:64 | in the output every backtick and every dollar comes right after a backslash |
| Editor.EscapeNeverShorter | src/main.js:64 | the output is never shorter than the code |
| Editor.EscapeIdentityOnPlainText | src/main.js:64 | code without backslash, backtick, dollar or `'''` is left as it is |
| Editor.UnescapeEscape | src/main.js:64 | reading each backslash pair back as its second character recovers the code |
| Editor.EscapedDollarKeepsBackslash | src/main.js:213-216 | Python reads the escaped `$` as `\$` |
| Editor.EscapeSafeIffNoCloser | src/main.js:213-216 | the escaped code is safe between `"""` quotes iff the code holds no `"""` and does not end in `"` |
| Editor.EscapedCodeCanCloseLiteral | src/main.js:213-216 | `name = "Kim"` escaped is not safe between `"""` quotes |
| Editor.EscapeForTripleDoubleQuotes | src/main.js:213-216 | the corrected escape never shortens the code |
| Editor.PythonReadsIntendedEscape | src/main.js:213-216 | Python reads the corrected escape back as exactly the code, and it is safe between `"""` quotes |
| Editor.ClassifyLine | src/main.js:66-72 | a diamond iff the trimmed line starts with `if`, `elif`, `else`, `for` or `while`; a parallelogram iff not, and it starts with `input` or contains `input(`; a rectangle otherwise |
| Editor.ClassifyIgnoresSurroundingSpace | src/main.js:67 | the shape depends only on the trimmed line |
| Text.Strip | src/main.js:67 | `trim`: the middle slice left after removing every leading and every trailing white-space character |
| Text.StripIdempotent | src/main.js:67 | trimming twice is trimming once |
| Editor.JsTrim | src/main.js:67 | `trim`: `Text.Strip` with JavaScript's white-space characters, so the result is the middle slice with no white space at either end |
| Editor.MessagesDistinct | src/main.js:75-82 | the seven messages are pairwise different |
| Editor.FriendlyExplain | src/main.js:74-83 | the success message iff the error text is absent or empty; the default hint iff no keyword occurs in the lower-cased text |
| Editor.FriendlyExplainFirstMatch | src/main.js:76-82 | hint k is given iff keyword k occurs and no earlier keyword does |
| Editor.FriendlyExplainIgnoresCase | src/main.js:76 | the hint does not depend on the case of ASCII letters |
| Text.ToLower | src/main.js:76 | `toLowerCase` keeps the length and lowers each ASCII capital |
| Editor.ZeroDivisionGetsDefaultHint | src/main.js:81 | Python's message `ZeroDivisionError: division by zero` gets the default hint, not the division hint |
| Editor.FriendlyExplainIntended | src/main.js:74-83 | with the keyword `zerodivision`: the success message iff no error text; otherwise hint k iff keyword k is the first that occurs |
| Editor.ZeroDivisionGetsIntendedHint | src/main.js:81 | with the intended keyword the division-by-zero message gets the division hint |
| StepMode.NextIndex | src/main.js:1105-1108 | the cursor stays iff it is on the last step or beyond; otherwise it moves one on, never past the end |
| StepMode.NextIndexTimesStopsAtLast | src/main.js:1105-1108 | k clicks from step i reach step min(i + k, last) |
| StepMode.Badge | src/main.js:776 | the badge starts with `📍 스텝 ` |
| StepMode.BadgeRoundTrip | src/main.js:776 | the badge reads back as the one-based step number and the trace length |
| StepMode.BadgeInjective | src/main.js:776 | two badges are equal iff their steps and their lengths are |
| StepMode.MiniStepper.StepBadge | src/main.js:772-776 | the badge is shown iff step mode is on, and then it names step index+1 of the trace length, with 1 <= index+1 <= length |
| Text.Decimal | src/main.js:776 | the numeral has no leading zeros, only digits, and denotes the number |
| StepMode.RenderVars | src/main.js:175-183 | the placeholder iff the trace is empty; the entry at the index, or the last entry when the index is off the trace |
| StepMode.EntryView | src/main.js:180-183 | an entry shows its rows or "no variables" but never the placeholder |
| StepMode.RenderMiniVars | src/main.js:739-747 | the placeholder iff the index is negative or the trace empty; the entry at the index; "no variables" past the end |
| StepMode.PanelsAgreeOnSteps | src/main.js:739-747 | on a step of the trace the main and the mini panel show the same thing |
| StepMode.PanelsDifferPastTheEnd | src/main.js:175 | past the end the main panel falls back to the last step while the mini panel shows no variables |
| StepMode.MiniStepper.constructor | src/main.js:16-19 | no step mode, an empty trace, the cursor at -1 |
| StepMode.MiniStepper.Start | src/main.js:1068-1089 | step mode is entered iff the run is ok with a non-empty trace, with the cursor at 0 and the output defaulting to empty; an error run shows the hint and the detail; any other run shows "nothing to run"; a failed run shows "analysis failed" |
| StepMode.MiniStepper.Next | src/main.js:1105-1108 | the cursor moves as `NextIndex` says; nothing else changes |
| StepMode.MiniStepper.Reset | src/main.js:1115-1117 | the cursor goes to the first step; nothing else changes |
| StepMode.MiniStepper.Exit | src/main.js:1124-1128 | step mode off, an empty trace, the cursor at -1 |
| StepMode.MiniStepper.NextButtonDisabled | src/main.js:923 | the button is disabled iff a click would not move the cursor |
| StepMode.MiniStepper.StepLine | src/main.js:777-778 | the line label is shown iff the cursor is on a step, and then it is that step's line |
| StepMode.StepModePanelIsCurrentStep | src/main.js:788-797 | in step mode the panel shows the current entry, and the button is enabled iff a later step exists |
| StepMode.PlayTick | src/main.js:198-207 | a tick shows the current index and moves on; the timer keeps running iff the new index is still on the trace |
| StepMode.PlayTicksPrefix | src/main.js:195-207 | after k ticks indices 0 .. k-1 have been shown in order |
| StepMode.PlaybackShowsEveryStep | src/main.js:195-207 | a playback shows every step once, in order, and then stops; an empty trace gets one tick |
| StepMode.PlaybackPanelShowsStep | src/main.js:202 | while playing, the variable panel shows the step being played |
| StepMode.Playback.constructor | src/main.js:38-40 | no timer and an empty latest trace |
| StepMode.Playback.Stop | src/main.js:186-191 | the timer is off; nothing else changes |
| StepMode.Playback.Start | src/main.js:193-198 | playback over the current latest trace: index 0, the timer running, nothing shown yet, the trace unchanged |
| StepMode.Playback.RunCompleted | src/main.js:1215-1224 | the latest trace becomes the run's trace; a successful run restarts playback, a failed one leaves the timer state as it was, so a running timer goes on over the new trace |
| StepMode.Playback.Tick | src/main.js:198-207 | the state advances as `PlayTick` says over the current latest trace, which is read afresh, and the panel shows its entry at the old index |
| Download.DetailsOf | download_submissions.py:71-74 | each missing field defaults to `Unknown`, the level to `unknown`; present fields are kept |
| Download.SafeName | download_submissions.py:89-90 | only alphanumerics, `-` and `_`, no space, never longer than the name |
| Download.SafeNameIsStrippedKept | download_submissions.py:89-90 | the kept characters, stripped, with each space turned into `_` |
| Download.SafeNameIdempotent | download_submissions.py:89-90 | sanitising twice is sanitising once |
| Download.SafeNameNoEdgeUnderscore | download_submissions.py:89-90 | a name without `_` never gives a result starting or ending with `_` |
| Download.SafeNameJoinsWords | download_submissions.py:90 | two words with a space become the words joined by `_` |
| Download.Filename | download_submissions.py:91 | the file name ends in `.py` |
| Download.JoinPath | download_submissions.py:94 | `os.path.join`: the path ends with the name; a name starting with `/` is the whole path; any other name follows the directory |
| Download.AbsoluteClassLeavesOutputDir | download_submissions.py:91-94 | a class starting with `/` makes the joined path the bare file name, outside the output directory |
| Download.SafeFilename | download_submissions.py:88-91 | the corrected file name also ends in `.py` |
| Download.SafeFilenameStaysInDir | download_submissions.py:88-94 | with every detail sanitised the path is the directory, `/` and a name without `/` |
| Download.AsWrittenSavesOutsideOutputDir | download_submissions.py:88-97 | as written, a document whose class starts with `/` is saved at the bare file name, outside the output directory |
| Download.SavedFileStaysInOutputDir | download_submissions.py:88-97 | with every detail sanitised, every saved file lies directly inside the output directory |
| Download.SavePath | download_submissions.py:88-94 | the path a document is saved at, for either naming; it ends in `.py` |
| Download.HeaderLines | download_submissions.py:99-105 | seven writes, the first the coding declaration, each starting with `# ` and ending in a line break |
| Download.HeaderHasSevenLines | download_submissions.py:99-105 | when no detail holds a line break, the header holds exactly seven line breaks, so it is seven comment lines |
| Download.FileContent | download_submissions.py:99-108 | the file starts with the coding declaration and ends with the code |
| Download.CodeAfterHeader | download_submissions.py:106-108 | the file is the header, a blank line, then the code |
| Download.OutFile.constructor | download_submissions.py:97 | a file opened for writing starts empty |
| Download.OutFile.Write | download_submissions.py:99 | a write appends its text |
| Download.WriteLines | download_submissions.py:99-108 | writing the lines in turn appends their concatenation and nothing else |
| Download.WriteSubmission | download_submissions.py:97-108 | the writes append exactly the file content |
| Download.SaveFile | download_submissions.py:97-108 | a new file ends up holding exactly the file content |
| Download.ProcessDoc | download_submissions.py:61-115 | skipped iff the code is missing or empty; a saved file starts with the coding declaration and ends with the code |
| Download.HandleDoc | download_submissions.py:61-115 | for either naming, one iteration of the loop does what `ProcessDoc` describes |
| Download.TallyAdvance | download_submissions.py:111-115 | a save adds one to the saved counter and a file, an error adds one to the error counter |
| Download.TallyAccounts | download_submissions.py:57-115 | every document counts once: saved, an error, or skipped |
| Download.TallyFilesAtMostSaved | download_submissions.py:94-111 | there are never more files than saves |
| Download.TallySkipsDocsWithoutCode | download_submissions.py:66-68 | the skipped documents are exactly those without code |
| Download.DownloadSubmissions | download_submissions.py:57-115 | for either naming, the loop's counters and the files written equal those of the tally over the documents |

## Left out

- Running Python, the tracer and `runPython`'s driver program are not modelled. The run result is an input of `StepMode.MiniStepper.Start`. `escapeForPython` is taken up to the string the driver embeds, and Python's reading of that literal is modelled only for the escapes `\\`, `\'` and `\"`. Any other escape makes `Editor.PythonLiteralValue` return `None`.
- HTML rendering, `innerHTML`, the DOM, the flowchart drawing, the code preview, the trace list, dragging and minimising the mini editor are not modelled. Each panel is reduced to the value it displays.
- Timers are not modelled as timers. `setInterval` becomes a `Tick` method called by the environment. The 900 ms period is not modelled.
- Firebase authentication, Firestore, Storage, `confirm` and `alert` are not modelled. Query and delete results are parameters. The Storage object deleted alongside a submission and the detail panels (`renderDetailPanels`) are not modelled.
- Dates are not modelled as times. `toISOString`, `toTimeString`, `datetime.fromtimestamp`, `strftime` and `datetime.now` become already-formatted strings or `Env` parameters.
- `Text.ToLower`: does not model full Unicode `toLowerCase`, only ASCII capitals. The keywords are ASCII, but a non-ASCII capital in the error text is left as it is.
- Python's `str.isalnum` is a parameter of `Download.SafeName`, because its Unicode tables are not modelled. White space for `strip` and `trim` is enumerated from the Unicode space characters.
- `Text.LexLess`: does not model UTF-16 code-unit order, because strings are sequences of code points. The two orders differ only for characters outside the Basic Multilingual Plane.
- Values that are not strings are not modelled. That covers a `studentName` that is a number, or a stored `None`, for which Python prints `None` or `safe_name` raises. `Option` stands for absent keys only.
- Messages printed by the download script, `os.makedirs`, and errors other than a path that cannot be opened for writing are not modelled. A failed open counts as an error and writes no file.
- Partial writes before an exception are not modelled.
- `Download.HeaderLines`: a detail holding a line break is written as it is, so the text after the break starts a line that is not a comment. `Download.HeaderHasSevenLines` covers only details without line breaks.
- `Admin.Dashboard.DeleteSubmissionAsWritten` and `Admin.Dashboard.DeleteSubmission` treat the two awaited deletes (src/admin.js:249-258) as one atomic step. A load or a click that runs while they are pending is not modelled.
- `Download.DownloadSubmissions`: the returned file map is a model-only view of the output directory. The script itself returns nothing.
- `StepMode.Playback`: the `shown` list is a model-only record of the indices the ticks rendered. The run button's `stopPlayback`, the awaited run and its completion are `Stop`, then `RunCompleted`; the environment may call these and `Tick` in any order, which covers two runs whose awaits overlap.
- The other places that turn step mode off are not modelled: closing the mini editor and switching pages.
- `miniStepError` is never read by the modelled code and is left out.
- The corrected behaviour from the findings is what the rest of the model uses:
  - `StepMode.MiniStepper.Start` chooses the error hint with `Editor.FriendlyExplainIntended`;
  - `Download.ProcessDoc`, `Download.HandleDoc` and `Download.DownloadSubmissions` take the file naming as a parameter: `AsWritten` is the script's file name, `Sanitised` the corrected one;
  - `Admin.Dashboard.DeleteSubmission` shrinks the dashboard's own list.

  The as-written members stay beside them.

## Findings

| source | as written | input that shows it | evidently intended | confidence | as-written member | corrected member |
|---|---|---|---|---|---|---|
| src/admin.js:191-262 | the delete handler splices `submissions` inside `renderSubmissionList`, where that name is the local filtered copy, so the dashboard's own list keeps the deleted record | one submission with id `a`, no filters: delete `a`, confirm; after the filters are reset `a` is listed again | remove the record from the dashboard's list | high (not executed) | Admin.Dashboard.DeleteSubmissionAsWritten, Admin.DeletedSubmissionStillShown | Admin.Dashboard.DeleteSubmission, Admin.DeletedSubmissionGone |
| src/main.js:64 | backticks and dollars get a backslash, but the escaped text is substituted into a template literal unchanged, and Python keeps a backslash before `` ` `` and `$` | student code `print("$")`: the driver's `code` string holds `print("\$")` | escape only what Python's `"""` literal needs | high (not executed) | Editor.EscapedDollarKeepsBackslash | Editor.EscapeForTripleDoubleQuotes, Editor.PythonReadsIntendedEscape |
| src/main.js:64 | `'''` is escaped, but the literal is delimited by `"""`, and `"` is left alone, so code that holds `"""` or ends in `"` ends the literal early | student code `name = "Kim"` ends in `"`, which closes the `"""` literal early | escape `"` (and backslash) for a `"""` literal | high (not executed) | Editor.EscapedCodeCanCloseLiteral, Editor.EscapeSafeIffNoCloser | Editor.EscapeForTripleDoubleQuotes, Editor.PythonReadsIntendedEscape |
| src/main.js:81 | the keyword `zero division` never occurs in Python's message | `ZeroDivisionError: division by zero` gets the default hint | the keyword `zerodivision` | high (not executed) | Editor.ZeroDivisionGetsDefaultHint | Editor.FriendlyExplainIntended, Editor.ZeroDivisionGetsIntendedHint |
| download_submissions.py:88-94 | only the student's name is sanitised, though the file name is meant to use safe characters only; class, number and level go in unchanged | class `/tmp/x` makes `os.path.join` return `/tmp/x_…py`, outside the output directory | sanitise every detail that goes into the file name | medium (not executed) | Download.AbsoluteClassLeavesOutputDir, Download.AsWrittenSavesOutsideOutputDir | Download.SafeFilename, Download.SafeFilenameStaysInDir, Download.SavedFileStaysInOutputDir |
