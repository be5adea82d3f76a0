# Progress README generator, modelled in Dafny

The script `readme-generator.js` turns an ordered list of task records into a
markdown progress report. Each record has a `name`, a `status` and an optional
`dateFinished`. The report holds these parts, in this order:

- a fixed title and legend;
- an overview progress bar;
- a table with one row per task;
- three category blocks: Core Content, Foundational Elements and Additional
  Materials. Each block has a bar and three marker counts;
- a "Recent Updates" section. It lists up to three completed dated tasks,
  newest first (fewer when fewer exist; tasks finished on the same date keep
  their input order), then every task whose status carries the in-progress
  marker.

The model has seven modules:

- `Strings`: the `includes` substring test and its positional meaning,
  decimal rendering of numbers, and the lexicographic order used for dates.
- `Sequences`: an order-preserving filter with its membership, multiplicity
  and subsequence properties.
- `Tasks`: the task record, the three status markers, the else-if
  classification, `getTaskPercentage` and `countTasksByStatus`.
- `Percentages`: the exact round-half-up form of `Math.round`, the percentage
  formula, and `calculateCategoryPercentage` as a counting loop.
- `Categories`: the three substring-rule category filters.
- `RecentUpdates`:
  - the dated-completed selection;
  - the stable newest-first sort, both as a function and as an in-place
    insertion sort on an array. `Array.prototype.sort` is stable, so with a
    consistent comparator any stable sort gives the script's order;
  - the cut to three;
  - the in-progress selection.
- `ReadmeGenerator`:
  - the report as a function of the task list, `Readme`;
  - `generateProgressReadme` as the imperative assembly the script performs:
    counting loop, category filters, `+=` loops, in-place sort and slice.
    It is proved to produce exactly `Readme(tasks)`.

Two behaviours of the code are kept as written:

- `countTasksByStatus` uses a plain `includes`. A status holding both
  the completed and the in-progress marker is counted in both lines of a
  category block. The percentage formula counts it only as completed.
- The in-progress list of Recent Updates also uses a plain `includes`.
  A dated task with both markers can appear in both halves of that section.

Empty task list. The script has no guard for an empty list: at
`readme-generator.js:24` it computes `0 / 0`, `Math.round` returns `NaN`,
and the template prints `NaN` in the overview bar's URL. The
model follows the code: `OverallText` is `"NaN"` for no tasks. An empty
category still gives 0, as `calculateCategoryPercentage` tests for it.

## Model

| member | source | states |
|---|---|---|
| Strings.IncludesIffOccurs | readme-generator.js:16 | `includes` holds exactly when the searched text occurs at some position of the status or name |
| Strings.DecimalRoundTrip | readme-generator.js:60 | the decimal text interpolated into a template reads back as the number it renders |
| Strings.LexLessTrichotomy | readme-generator.js:100 | any two date strings compare as earlier, equal or later, so the sort key is a total order |
| Strings.LexLessTransitive | readme-generator.js:100 | the date order is transitive, as the sort comparator needs |
| Sequences.Filter | readme-generator.js:27 | `Array.prototype.filter`, used by every `.filter` call (lines 27, 36, 44, 99, 107 and 155): the result is never longer than the input |
| Sequences.FilterSpec | readme-generator.js:155 | a filter keeps exactly the elements that pass, each as often as it occurs in the input, as a subsequence of the input |
| Tasks.Classify | readme-generator.js:16-20 | the else-if chain (also at lines 138-142): completed exactly when the status contains ✅; in progress exactly when it lacks ✅ and contains 🟡; not started exactly when it contains neither |
| Tasks.TaskPercentage | readme-generator.js:120-124 | `getTaskPercentage` is the legend weight of the else-if classification (completed wins over in progress), so it is always 0, 50 or 100 |
| Tasks.ClassifiedCountsBounded | readme-generator.js:15-21 | the else-if chain never counts a task as both completed and in progress, so the two counts add up to at most the number of tasks |
| Tasks.CountTasksByStatus | readme-generator.js:154-156 | the count is at most the list length; it is positive when some task carries the marker; it equals the length exactly when every task carries the marker |
| Tasks.CountAllIffAll | readme-generator.js:155 | a filter keeps every element exactly when all elements pass it |
| Tasks.CompletedMarkerCount | readme-generator.js:154-156 | the completed-marker count of a block equals the completed count of the else-if chain |
| Tasks.InProgressMarkerCount | readme-generator.js:154-156 | the in-progress-marker count of a block is the chain's in-progress count plus the tasks carrying both markers |
| Tasks.BothMarkersCountedTwice | readme-generator.js:154-156 | a task whose status holds both markers is counted once as completed and once as in progress by `countTasksByStatus`, but only as completed by the chain |
| Percentages.RoundHalfUp | readme-generator.js:145 | the result is within half of `a / n`, with halves rounded up, as `Math.round` does for these non-negative operands |
| Percentages.WithinHalfUnique | readme-generator.js:145 | at most one integer lies within half of `a / n` |
| Percentages.RoundHalfUpUnique | readme-generator.js:145 | only one integer lies within half of `a / n`, so that rounding is unique |
| Percentages.RoundHalfUpBounded | readme-generator.js:145 | rounding a mean of values at most `m` gives at most `m` |
| Percentages.Percentage | readme-generator.js:131-146 | the formula's result lies in [0, 100] and is 0 for an empty list |
| Percentages.TotalWeightIsCounts | readme-generator.js:137-145 | the sum of the rows' `getTaskPercentage` values is `100 * C + 50 * P` for the else-if counts C and P |
| Percentages.PercentageIsRoundedMean | readme-generator.js:131-146 | a non-empty category's percentage is the rounded mean of its rows' percentages |
| Percentages.AllCompletedIsFull | readme-generator.js:131-146 | a non-empty list of completed tasks is at 100 |
| Percentages.NoneStartedIsZero | readme-generator.js:131-146 | a list with no started task is at 0 |
| Percentages.CalculateCategoryPercentage | readme-generator.js:131-146 | the counting loop returns 0 for an empty list and otherwise the rounded formula over the else-if counts, always in [0, 100] |
| Categories.FoundationalTasks | readme-generator.js:27-32 | the foundational tasks are a subsequence of the input, in input order, holding exactly the tasks whose name contains one of the four keywords, each as often as it occurs in the input |
| Categories.ContentTasks | readme-generator.js:36-40 | the content tasks are a subsequence of the input holding exactly the tasks whose name starts with a digit and contains neither "Tutorials" nor "Testing", each as often as it occurs in the input |
| Categories.AdditionalTasks | readme-generator.js:44-47 | the additional tasks are a subsequence of the input holding exactly the tasks whose name contains "Tutorials" or "Testing", each as often as it occurs in the input |
| Categories.ContentAndAdditionalDisjoint | readme-generator.js:36-47 | no task is in both the content and the additional category |
| Categories.NumberedTaskSplit | readme-generator.js:36-47 | a task whose name starts with a digit is in exactly one of content and additional |
| Categories.SetupIsFoundationalContent | readme-generator.js:27-47 | a task named "1. Project Setup" is foundational and content, not additional |
| Categories.TutorialsIsAdditionalOnly | readme-generator.js:27-47 | a task named "2. Tutorials" is additional only |
| RecentUpdates.DatedCompletedTasks | readme-generator.js:99 | the candidates are a subsequence of the input, holding each completed task with a non-empty date as often as it occurs and nothing else |
| RecentUpdates.Insert | readme-generator.js:100 | one insertion step makes the list one task longer |
| RecentUpdates.InsertPermutes | readme-generator.js:100 | one insertion step adds exactly the new task and keeps every other task |
| RecentUpdates.InsertKeepsNewestFirst | readme-generator.js:100 | inserting into a newest-first list keeps it newest first |
| RecentUpdates.SortNewestFirst | readme-generator.js:100 | the sort keeps the number of tasks |
| RecentUpdates.SortNewestFirstSpec | readme-generator.js:100 | the sort is a permutation of its input, and no task in its result is strictly newer than one before it |
| RecentUpdates.SortKeepsNewestFirstInput | readme-generator.js:100 | a list already in order is left unchanged |
| RecentUpdates.InsertStable | readme-generator.js:100 | an insertion step keeps the order of tasks finished on the same date |
| RecentUpdates.SortStable | readme-generator.js:100 | the sort is stable: the tasks finished on any one date keep their input order |
| RecentUpdates.InsertAt | readme-generator.js:100 | the new task goes in behind the last task that is not older, ahead of the strictly older ones |
| RecentUpdates.ShiftOlder | readme-generator.js:100 | the inner loop moves the strictly older tasks of the sorted prefix up by one place and stops behind the first task that is not older |
| RecentUpdates.InsertInPlace | readme-generator.js:100 | moving `a[i]` into the sorted prefix of the array gives the insertion step and leaves the rest of the array alone |
| RecentUpdates.SortNewestFirstInPlace | readme-generator.js:100 | the in-place sort leaves the array holding the stable newest-first sort of its old contents |
| RecentUpdates.TopOfNewestFirst | readme-generator.js:102 | the first `k` tasks of a newest-first list are newest first, and no task cut off is newer than one kept |
| RecentUpdates.RecentCompleted | readme-generator.js:99-102 | at most three completions are listed, and fewer only when fewer exist; each is a completed dated task of the input; they are newest first; no unlisted candidate is newer than a listed one |
| RecentUpdates.StartedTasks | readme-generator.js:107 | the started list is a subsequence of the input holding each task with the in-progress marker exactly as often as it occurs |
| RecentUpdates.BothMarkersInBothHalves | readme-generator.js:99-107 | a dated task with both markers is a completion candidate and is also listed as started |
| ReadmeGenerator.TableRow | readme-generator.js:71 | a task row opens with a pipe and a space, closes with a space, a pipe and a newline, and shows the progress bar of the task's own percentage |
| ReadmeGenerator.CompletedLine | readme-generator.js:104 | a completion line opens with "- ✅ Completed ", ends with `)` and a newline, and contains the task's name and its date |
| ReadmeGenerator.StartedLine | readme-generator.js:109 | a started line opens with "- 🟡 Started work on ", ends with a newline, and contains the task's name |
| ReadmeGenerator.LinesInclude | readme-generator.js:69-72 | every task of a `forEach` loop contributes its line to the text |
| ReadmeGenerator.RowStartStep | readme-generator.js:52-72 | the first row starts right after the header, and each row starts where the previous one ends |
| ReadmeGenerator.TableRowPlacement | readme-generator.js:69-72 | row `i` of the report is the row of the `i`-th input task |
| ReadmeGenerator.CategoriesPlacement | readme-generator.js:74-96 | the three category blocks follow the last table row |
| ReadmeGenerator.TableRowFields | readme-generator.js:71 | a row holds the task's name, its status verbatim, and its date or the empty string, at fixed positions |
| ReadmeGenerator.StartedTaskListed | readme-generator.js:107-110 | every task whose status holds the in-progress marker gets a "Started work on" line in the report |
| ReadmeGenerator.RecentTaskListed | readme-generator.js:102-105 | every listed recent completion gets a "Completed" line in the report |
| ReadmeGenerator.AppendLines | readme-generator.js:69-72 | a `forEach` loop of `+=` appends exactly the tasks' lines, in order |
| ReadmeGenerator.OverallPercentage | readme-generator.js:11-24 | the overview figure is "NaN" for no tasks; otherwise it is the same rounded formula over the whole list as `calculateCategoryPercentage` |
| ReadmeGenerator.RecentCompletedTasks | readme-generator.js:99-102 | filtering, sorting in place and slicing gives the recent completions |
| ReadmeGenerator.ReportHeader | readme-generator.js:52-66 | the template up to the table is the fixed text with the overview figure in the bar |
| ReadmeGenerator.CategoryBlocks | readme-generator.js:27-49 | the three filters and their percentages give the category blocks, in the order Core Content, Foundational Elements, Additional Materials |
| ReadmeGenerator.AppendRecentUpdates | readme-generator.js:99-110 | the completion lines and then the started lines are appended, in that order |
| ReadmeGenerator.GenerateProgressReadme | readme-generator.js:9-113 | the assembled markdown is exactly the report `Readme(tasks)` |

## Left out

- `readTasksFromFile`, `writeReadmeToFile` and `main` (`readme-generator.js:163-191`) are left out. They are file I/O, `JSON.parse` and console output.
- Date parsing with `new Date(...)` is left out. The sort key is the date string, compared lexicographically by code point. This agrees with date order for dates written in one ISO 8601 format. An unparseable date, which makes the comparator return NaN, is not modelled.
- Floating-point `Math.round` is replaced by exact integer round-half-up. All operands are non-negative integers, so the two agree.
- Strings are sequences of Unicode code points. JavaScript strings are UTF-16, which changes no `includes` result for these markers. The report's text is the same code-point sequence.
- A `dateFinished` that is not a string, or a missing `name` or `status`, is not modelled. A task always has both strings, and an optional date string.
- Recent Updates rendering prints `task.dateFinished` directly. Only tasks with a non-empty date reach that line, so the model prints the date string there.
