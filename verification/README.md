# Ralph loop controller, modelled in Dafny

This project models the core of the `ralph` command-line tool: the `run`
command, which drives a coding agent through repeated bounded invocations
until the task list in `ralph/prd.json` is done, and the pure computations
behind the `status` command.

- `ralph run` first checks four prerequisites in order: the `ralph/`
  directory, `ralph/prd.json`, `ralph/prompt.md`, then the agent executable
  on the path. The first one missing exits with 1.
- If no user story is pending (its `passes` is falsy), `ralph run` exits
  with 0 at once.
- Otherwise it runs iterations `1..parseInt(--max)`. Each iteration:
  - re-reads the story list;
  - exits with 0 if nothing is pending;
  - picks the pending story of least `priority`, the earliest among ties;
  - spawns the agent once with the prompt text;
  - exits with 0 if the agent's concatenated standard output contains
    `<complete>ALL_STORIES_PASSED</complete>`.
- When the budget runs out, `ralph run` exits with 2.
- `ralph status` shows:
  - the completed/pending split, a percentage and a 40-cell progress bar;
  - the first five pending stories;
  - the configuration defaults;
  - the last three `## Iteration` headings of `ralph/progress.txt`.

The environment is abstracted:
- File existence and the executable probe are booleans.
- The parsed `prd.json` is a `Document` value.
- The agent is an oracle. For iteration `i` it gives the story list as the
  run left it, the standard output and standard error chunks, and the
  exit code.

Modules:

- `JsValues`: `Option`, JSON values and ECMAScript truthiness, and `||` on
  optional integers.
- `JsStrings`: `startsWith`, `indexOf`/`includes`, `split` on one
  character, and `replace` of the first occurrence.
- `JsNumbers`: `parseInt(text, 10)` (`None` is `NaN`), `String(n)`, and
  `Math.round` of a ratio, computed exactly.
- `Prd`: stories, the document, and the pending and completed filters.
- `Selector`: the stable sort by priority and the story selection.
- `Signal`: the stdout buffer and the completion marker.
- `Controller`: the prerequisite gate, the loop (`Loop`, `Run`), and a
  `while`-loop method (`Execute`) written as run.js writes it.
- `StatusView`: the computations of `status.js`, returned as a `Report`
  value.

`Selector.SelectNext` computes the selection in one pass over the list, so
that it stays cheap to reason about inside the loop. `Selector.FirstBySort`
is the literal reading of run.js line 88: sort the pending stories, take the
first. `Selector.SelectNextIsSortHead` proves the two equal for every list.

## Model

| member | source | states |
|---|---|---|
| JsStrings.IndexOfFindsFirst | packages/cli/src/run.js:121 | `indexOf` returns the first index where the pattern occurs, and -1 exactly when it occurs nowhere |
| JsStrings.IncludesIff | packages/cli/src/run.js:121 | `includes` holds if and only if the pattern occurs at some index |
| JsStrings.IncludesInContext | packages/cli/src/run.js:108-121 | a text that contains the pattern still contains it with any text added before and after |
| JsStrings.Split | packages/cli/src/status.js:95 | `split('\n')` yields at least one piece, no piece contains the separator, and joining the pieces with it gives back the text |
| JsStrings.SplitJoin | packages/cli/src/status.js:95 | splitting is the inverse of joining separator-free pieces |
| JsStrings.SplitOfSeparatorFree | packages/cli/src/status.js:95 | a text without the separator splits into itself alone |
| JsStrings.JoinAppend | packages/cli/src/status.js:95 | appending a piece appends the separator and that piece to the joined text |
| JsStrings.ReplaceFirstSpec | packages/cli/src/status.js:101 | `replace` with a string pattern changes only the first occurrence, and leaves a text without one unchanged |
| JsStrings.ReplacePrefix | packages/cli/src/status.js:101 | on a line that starts with the pattern, `replace` drops exactly that prefix |
| JsNumbers.ParseInt | packages/cli/src/run.js:73 | `parseInt` is `NaN` exactly when no digit follows the leading white space and optional sign |
| JsNumbers.ParseIntOfIntToString | packages/cli/src/run.js:73 | `parseInt` reads back any integer written in decimal, with white space before it and any non-digit text after it |
| JsNumbers.ParseIntOfDigitString | packages/cli/src/run.js:73 | a plain run of decimal digits parses to its value |
| JsNumbers.DigitsValueOfNatToDigits | packages/cli/src/run.js:73 | the decimal digits of a natural number denote that number |
| JsNumbers.RoundRatio | packages/cli/src/status.js:43-45 | `Math.round(n / d)` is the integer nearest to the ratio, halves rounded up |
| Prd.PendingMembers | packages/cli/src/run.js:78 | `filter(s => !s.passes)` keeps exactly the stories with falsy `passes` |
| Prd.CompletedMembers | packages/cli/src/status.js:33 | `filter(s => s.passes)` keeps exactly the stories with truthy `passes` |
| Prd.PendingEmptyIff | packages/cli/src/run.js:63 | `pending.length === 0` if and only if no story is pending |
| Prd.FilterAppend | packages/cli/src/status.js:33-34 | both filters distribute over concatenation and keep list order |
| Prd.Partition | packages/cli/src/status.js:32-34 | completed and pending together hold every story exactly once, so their lengths add up to the total |
| Selector.InsertPermutation | packages/cli/src/run.js:88 | one insertion step adds exactly the inserted story |
| Selector.InsertSorted | packages/cli/src/run.js:88 | inserting into a list sorted by priority keeps it sorted |
| Selector.SortIsSorted | packages/cli/src/run.js:88 | the sort returns ascending priorities |
| Selector.SortIsPermutation | packages/cli/src/run.js:88 | the sort neither loses nor adds a story |
| Selector.SortedPermutation | packages/cli/src/run.js:88 | the sort returns its input reordered by ascending priority |
| Selector.InsertWithPriority | packages/cli/src/run.js:88 | an insertion puts a story ahead of every already-sorted story of the same priority; since it came before them in the input, this is the stable order |
| Selector.SortIsStable | packages/cli/src/run.js:88 | the sort is stable: the stories of each priority keep their list order |
| Selector.FirstBySort | packages/cli/src/run.js:78-88 | sorting the pending stories and taking the first yields nothing exactly when nothing is pending, else a pending story of the list |
| Selector.SelectNextSpec | packages/cli/src/run.js:78-88 | the selection is absent exactly when nothing is pending, and otherwise is a pending story of the list |
| Selector.FirstBySortCons | packages/cli/src/run.js:88 | the sort-then-first result over `[x] + rest` follows from the one over `rest`: `x` wins unless it passes or a strictly smaller priority comes after it |
| Selector.SelectNextIsSortHead | packages/cli/src/run.js:88 | the one-pass selection equals the head of the stable sort of the pending stories |
| Selector.SelectNextIsFirstMinimal | packages/cli/src/run.js:88 | the selected story is pending, has the least priority among pending stories, and comes before every other pending story of that priority |
| Selector.NextStoryUnique | packages/cli/src/run.js:88 | at most one position is the first pending story of least priority |
| Selector.SelectNextChoosesNextStory | packages/cli/src/run.js:88 | conversely, the first pending story of least priority is the one selected |
| Selector.LowerPriorityWins | packages/cli/src/run.js:88 | `[A:2, B:1]` selects B |
| Selector.TieGoesToEarlier | packages/cli/src/run.js:88 | `[A:1, B:1]` selects A |
| Signal.ConcatAppend | packages/cli/src/run.js:107-108 | the buffer of two batches of chunks is the first buffer followed by the second |
| Signal.MarkerInOneChunk | packages/cli/src/run.js:105-121 | a chunk carrying the whole marker is enough, whatever else was printed |
| Signal.SplitPatternFound | packages/cli/src/run.js:105-121 | a pattern split across two chunks is still found in the buffer |
| Signal.MarkerAcrossChunks | packages/cli/src/run.js:105-121 | the marker is found wherever a chunk boundary falls inside it |
| Signal.MarkerIsCaseSensitive | packages/cli/src/run.js:121 | the upper-case tag is not the marker |
| Controller.FirstMissing | packages/cli/src/run.js:19-50 | prerequisites are checked in the order directory, `prd.json`, `prompt.md`, agent executable, and the first missing one is reported |
| Controller.Budget | packages/cli/src/run.js:73-75 | the loop makes `parseInt(max)` passes when that is positive, and none when it is `NaN`, zero or negative |
| Controller.LoopEnds | packages/cli/src/run.js:75-139 | from iteration `i` the loop never reports a missing prerequisite, spawns at most `budget - i + 1` agents, exhausts the budget only after using all of it, and reports nothing pending only within the budget, when the list re-read last has no pending story |
| Controller.LoopStopsOnMarker | packages/cli/src/run.js:120-127 | the loop ends on the completion signal exactly when the last agent it spawned printed the marker |
| Controller.LoopFollows | packages/cli/src/run.js:76-100 | every spawn of the loop has consecutive iteration numbers, the unchanged prompt and the story selected from the list re-read in that iteration, and no earlier spawn printed the marker |
| Controller.Run | packages/cli/src/run.js:19-66 | exit 1 if and only if a prerequisite is missing, with no spawn; with nothing pending at startup, exit 0 with no spawn |
| Controller.RunEnds | packages/cli/src/run.js:73-139 | at most `Budget(max)` spawns; exit 2 only after exactly `Budget(max)` spawns; "nothing pending" is reported before the budget is used up, and the list read last has no pending story |
| Controller.RunStopsOnMarker | packages/cli/src/run.js:120-127 | the run ends on the completion signal if and only if the last agent spawned printed the marker |
| Controller.RunFollowsLoop | packages/cli/src/run.js:76-100 | spawn `k + 1` happens in iteration `k + 1`, passes the prompt text verbatim whatever story is selected, works on the story selected from the list read in that iteration, and only the last spawn may print the marker |
| Controller.AlreadyDoneSpawnsNothing | packages/cli/src/run.js:53-66 | with every story passing at startup the run exits 0 without spawning |
| Controller.NoBudgetNoIterations | packages/cli/src/run.js:73-75 | with pending stories and `--max` zero, negative or not a number, there are no iterations and the exit code is 2 |
| Controller.NeverFinishingAgentExhaustsBudget | packages/cli/src/run.js:131-139 | an agent that never prints the marker and always leaves a story pending is spawned exactly `Budget(max)` times and the run exits 2 |
| Controller.BudgetOfThree | packages/cli/src/run.js:73 | `--max 3` allows three iterations |
| Controller.DefaultBudget | packages/cli/bin/ralph.js:23 | the default `--max` of `'50'` allows fifty iterations |
| Controller.ThreeIterationsThenStop | packages/cli/src/run.js:73-139 | `--max 3` with an agent that never finishes gives three spawns and exit 2 |
| Controller.MarkerEndsRun | packages/cli/src/run.js:120-127 | a marker in the first iteration ends the run with exit 0 after one spawn, whatever stories remain pending; with no budget there is no iteration and the exit code is 2 |
| Controller.FlippedStoryNotReselected | packages/cli/src/run.js:76-88 | a story the agent of iteration `k + 1` marked as passing is not the story of iteration `k + 2` |
| Controller.LoopSeesOnlyObservations | packages/cli/src/run.js:105-121 | the loop depends on the agent only through the lists it leaves and its concatenated standard output |
| Controller.RunSeesOnlyObservations | packages/cli/src/run.js:105-121 | the run depends on the agent only through the lists it leaves and its concatenated standard output |
| Controller.ExitCodeAndStderrIgnored | packages/cli/src/run.js:112-118 | a non-zero exit code and any standard error in an iteration leave the run unchanged |
| Controller.ChunkingIgnored | packages/cli/src/run.js:107-108 | delivering an iteration's output as one chunk leaves the run unchanged |
| Controller.Execute | packages/cli/src/run.js:19-139 | the imperative run returns the exit code and the number of spawns of `Run` |
| Controller.ExecuteLoop | packages/cli/src/run.js:73-139 | the `for` loop with a spawn counter returns the exit code and the number of spawns of `Loop` from iteration 1 |
| StatusView.RoundRatioRange | packages/cli/src/status.js:43-45 | a rounded ratio of a count out of a total stays within the scale |
| StatusView.RoundRatioExact | packages/cli/src/status.js:43-45 | an exact multiple rounds to itself |
| StatusView.RoundRatioMonotone | packages/cli/src/status.js:43-45 | rounding is monotone in the numerator |
| StatusView.Percent | packages/cli/src/status.js:41-43 | the percentage is in 0..100, is the nearest integer to `100·done/total`, is 0 with no story or none done, and 100 when all are done |
| StatusView.PercentMonotone | packages/cli/src/status.js:43 | more stories done never shows a smaller percentage |
| StatusView.ProgressBar | packages/cli/src/status.js:44-46 | `filled + empty = 40`; `filled` is the nearest integer to `40·done/total`; the bar is empty with no story (the `NaN \|\| 0` case) and full when all are done |
| StatusView.BarMatchesPercent | packages/cli/src/status.js:43-46 | a 0% report shows an empty bar and a complete project shows a full bar |
| StatusView.AttemptsNote | packages/cli/src/status.js:83-84 | the attempts note is shown exactly when `attempts` is present and positive, a missing value counting as 0 |
| StatusView.PendingListing | packages/cli/src/status.js:78-89 | no section without pending stories; otherwise the first five pending stories in list order, and "N more" exactly when more than five, with N the excess |
| StatusView.PendingListingAccounts | packages/cli/src/status.js:81-89 | the listed stories plus N account for every pending story |
| StatusView.IterationLines | packages/cli/src/status.js:95 | the kept lines are lines of the log that start with `## Iteration` |
| StatusView.IterationLinesAppend | packages/cli/src/status.js:95 | the filter keeps file order: a line appended to the log is kept last, if at all |
| StatusView.IterationLinesComplete | packages/cli/src/status.js:95 | the filter keeps every line of the log that starts with `## Iteration` |
| StatusView.LastN | packages/cli/src/status.js:99 | `slice(-n)`, for positive `n`, keeps the last `min(n, length)` elements |
| StatusView.StripIterationLine | packages/cli/src/status.js:101 | an iteration heading loses exactly its leading `## ` |
| StatusView.StripHeadingsRestores | packages/cli/src/status.js:101 | putting `## ` back in front of a shown heading gives back its line |
| StatusView.RecentIterations | packages/cli/src/status.js:93-103 | no entries without a log; otherwise `min(3, number of iteration headings)` entries, which `StatusView.RecentAreLastHeadings` identifies as the last headings in file order |
| StatusView.LastHeadingsShown | packages/cli/src/status.js:99-101 | of any list of iteration headings, the shown entries with `## ` put back are its last `min(3, n)` headings, in order |
| StatusView.RecentAreLastHeadings | packages/cli/src/status.js:93-101 | the entries, with `## ` put back, are exactly the last `min(3, n)` of the log's `n` iteration headings, in file order |
| StatusView.RecentAreIterationHeadings | packages/cli/src/status.js:95-101 | every entry, with `## ` put back, is a line of the log that starts with `## Iteration` |
| StatusView.NewIterationShownLast | packages/cli/src/status.js:93-101 | appending an iteration heading to the log makes it the last entry shown |
| StatusView.ShowConfig | packages/cli/src/status.js:66-67 | `maxIterations` shows 50 and `stuckThreshold` shows 3 when absent or 0, and otherwise their own values |
| StatusView.Status | packages/cli/src/status.js:17-90 | the report is cut short exactly when `ralph/` or `prd.json` is missing; done plus pending equals the total; the percentage, bar, pending listing and recent entries are those of the components above for these counts, the pending list and the log; the pending section is absent exactly when nothing is pending; the configuration is shown, with its defaults, exactly when present; project and branch fall back to `Unknown` and `N/A` |
| StatusView.AllDoneReport | packages/cli/src/status.js:41-90 | a finished project shows 100%, a full bar and no pending section |

## Left out

- Spawning the agent, streaming its output and the `which claude` probe:
  the agent is an oracle and the probe is a boolean (run.js lines 38-50,
  100-118).
- The 2000 ms pause between iterations is timing only and is a no-op here.
  Interrupting with Ctrl+C is concurrency, and the code does not handle it.
- File I/O and `JSON.parse`: the document and each re-read list are given
  as values. A malformed `prd.json` makes the source throw an uncaught
  exception, and so does a re-read document without `userStories` (line 78
  has no `|| []` fallback). The model has no such path: an agent run
  always yields a story list, and no parse error is reported.
- `prompt.md` is read again in every iteration (line 97). The model passes
  one prompt text to every spawn, so it assumes the file does not change
  during a run.
- The stuck marker and `stuckThreshold`: run.js never searches the output
  for a stuck marker, so the model has no stuck handling. `stuckThreshold` appears
  only as a displayed default.
- Decoding of standard output: run.js (line 108) decodes each chunk
  separately with `data.toString()`. The model takes chunks as decoded
  strings, so a multi-byte UTF-8 character split between chunks is not
  modelled. The marker is ASCII, so its detection is unaffected.
- `JsStrings.ReplaceFirst`: the replacement text is inserted literally.
  The `$` substitution patterns of `String.prototype.replace` are not
  modelled, so a `$` in the replacement is excluded. status.js only
  replaces with the empty string.
- `process.exit`, the banners, colours and the `'█'.repeat` rendering are
  not modelled: outcomes and reports are returned as values.
- The statistics block of `status` (lines 52-60) and the quality-gate
  display (lines 68-74) are display only and are not modelled.
- `init.js`, `install.js` and the commander wiring are not part of this
  model. The only fact used from `bin/ralph.js` is the `'50'` default of
  `--max`.
- Story `priority` is an integer. A missing or non-numeric priority makes
  the source's comparator return `NaN`; that case is not modelled.
  `attempts` is an optional integer.
- `Controller.Budget`: `parseInt` is modelled with unbounded integers.
  Precision loss above 2^53 in JavaScript numbers is not modelled.
- `StatusView.Percent`: computed with exact rational rounding, halves up.
  JavaScript computes `(done / total) * 100` in binary floating point,
  which can round to the other integer when the exact ratio is a half
  (for example 57 of 200).
- `StatusView.ProgressBar`: exact rational rounding as for
  `StatusView.Percent`, with the same floating-point caveat.
