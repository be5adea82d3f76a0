/** `generateProgressReadme`: the markdown progress report, first as a
    function of the task list, then as the imperative assembly the script
    performs, proved to produce the same text. */
module ReadmeGenerator {
  import opened Strings
  import opened Tasks
  import opened Percentages
  import opened Categories
  import opened RecentUpdates

  /** The fixed title and legend, up to the overview bar. */
  const Title: string :=
    "# Computational Chemistry Project Progress\n\n## Legend\n"
    + "- \U{2705} Completed = 100%\n- \U{1F7E1} In Progress = 50%\n- \U{1F532} Not Started = 0%\n\n"
    + "## Project Status Overview\n"

  /** The fixed text between the overview bar and the first task row. */
  const TableHeading: string :=
    "\n\n## Tasks Status\n\n| Main Section/Task | Status | Progress | Date Finished |\n"
    + "|-------------------|--------|----------|--------------|\n"

  /** A markdown image of the progress-bar service at the given percentage. */
  function ProgressBar(percent: string): string {
    "![progress](https://progress-bar.xyz/" + percent + "/)"
  }

  /** The overview figure as printed: for an empty list the division is 0 / 0,
      `Math.round` returns NaN and the template prints "NaN". */
  function OverallText(tasks: seq<Task>): string {
    if |tasks| == 0 then "NaN" else DecimalString(Percentage(tasks))
  }

  function Header(tasks: seq<Task>): string {
    Title + ProgressBar(OverallText(tasks)) + TableHeading
  }

  /** One row of the task table. */
  function TableRow(t: Task): (row: string)
    ensures IsPrefix("| ", row) && |row| >= 3 && row[|row| - 3..] == " |\n"
    ensures Includes(row, ProgressBar(DecimalString(TaskPercentage(t.status))))
  {
    var bar := ProgressBar(DecimalString(TaskPercentage(t.status)));
    var row := "| " + t.name + " | " + t.status + " | " + bar + " | " + DateText(t) + " |\n";
    TemplateFrame(row, "| ", t.name, " | ", t.status, " | ", bar, " | ", DateText(t), " |\n");
    OccursAtIncludes(row, bar, |"| "| + |t.name| + |" | "| + |t.status| + |" | "|);
    row
  }

  /** The text of `ts.forEach(task => { markdown += line(task) })`. */
  function Lines(ts: seq<Task>, line: Task -> string): string
    decreases |ts|
  {
    if |ts| == 0 then "" else line(ts[0]) + Lines(ts[1..], line)
  }

  /** One category block: its bar and its three marker counts. */
  function CategoryBlock(title: string, noun: string, percent: nat, members: seq<Task>): string {
    "### " + title + "\n" + ProgressBar(DecimalString(percent))
    + "\n- " + DecimalString(CountTasksByStatus(members, CompletedMarker)) + " " + noun + " completed"
    + "\n- " + DecimalString(CountTasksByStatus(members, InProgressMarker)) + " " + noun + " in progress"
    + "\n- " + DecimalString(CountTasksByStatus(members, NotStartedMarker)) + " " + noun + " not started\n"
  }

  /** The three category blocks in their fixed order, and the Recent Updates heading. */
  function CategorySections(
    contentPercentage: nat, foundationalPercentage: nat, additionalPercentage: nat,
    content: seq<Task>, foundational: seq<Task>, additional: seq<Task>): string
  {
    "\n## Progress by Category\n\n"
    + CategoryBlock("Core Content", "section(s)", contentPercentage, content) + "\n"
    + CategoryBlock("Foundational Elements", "element(s)", foundationalPercentage, foundational) + "\n"
    + CategoryBlock("Additional Materials", "item(s)", additionalPercentage, additional)
    + "\n## Recent Updates\n"
  }

  function CategoryText(tasks: seq<Task>): string {
    var content := ContentTasks(tasks);
    var foundational := FoundationalTasks(tasks);
    var additional := AdditionalTasks(tasks);
    CategorySections(Percentage(content), Percentage(foundational), Percentage(additional),
                     content, foundational, additional)
  }

  /** A Recent Updates line for a completed task: one line, opening with the
      completed marker, naming the task and showing its date. */
  function CompletedLine(t: Task): (line: string)
    ensures IsPrefix("- \U{2705} Completed ", line) && |line| >= 2 && line[|line| - 2..] == ")\n"
    ensures Includes(line, t.name) && Includes(line, DateText(t))
  {
    var line := "- \U{2705} Completed " + t.name + " (" + DateText(t) + ")\n";
    LineFields(line, "- \U{2705} Completed ", t.name, " (", DateText(t), ")\n");
    OccursAtIncludes(line, t.name, |"- \U{2705} Completed "|);
    OccursAtIncludes(line, DateText(t), |"- \U{2705} Completed "| + |t.name| + |" ("|);
    line
  }

  /** A Recent Updates line for a started task: one line, opening with the
      in-progress marker and naming the task. */
  function StartedLine(t: Task): (line: string)
    ensures IsPrefix("- \U{1F7E1} Started work on ", line) && line[|line| - 1] == '\n'
    ensures Includes(line, t.name)
  {
    IncludesMiddle("- \U{1F7E1} Started work on ", t.name, "\n");
    "- \U{1F7E1} Started work on " + t.name + "\n"
  }

  /** The lines under the Recent Updates heading. */
  function Updates(tasks: seq<Task>): string {
    Lines(RecentCompleted(tasks), CompletedLine) + Lines(StartedTasks(tasks), StartedLine)
  }

  /** Everything after the task table. */
  function Footer(tasks: seq<Task>): string {
    CategoryText(tasks) + Updates(tasks)
  }

  /** The whole report for a task list. */
  function Readme(tasks: seq<Task>): string {
    Header(tasks) + Lines(tasks, TableRow) + Footer(tasks)
  }

  lemma {:induction false} LinesAppend(a: seq<Task>, b: seq<Task>, line: Task -> string)
    ensures Lines(a + b, line) == Lines(a, line) + Lines(b, line)
    decreases |a|
  {
    if |a| == 0 {
      assert a + b == b;
    } else {
      LinesAppend(a[1..], b, line);
      assert (a + b)[1..] == a[1..] + b;
    }
  }

  lemma LinesSnoc(ts: seq<Task>, i: nat, line: Task -> string)
    requires i < |ts|
    ensures Lines(ts[..i + 1], line) == Lines(ts[..i], line) + line(ts[i])
  {
    assert ts[..i + 1] == ts[..i] + [ts[i]];
    LinesAppend(ts[..i], [ts[i]], line);
  }

  /** Every listed task contributes its line to the text. */
  lemma {:induction false} LinesInclude(ts: seq<Task>, line: Task -> string, t: Task)
    requires t in ts
    ensures Includes(Lines(ts, line), line(t))
    decreases |ts|
  {
    if ts[0] == t {
      IncludesMiddle([], line(t), Lines(ts[1..], line));
    } else {
      assert t in ts[1..];
      LinesInclude(ts[1..], line, t);
      IncludesWiden(line(ts[0]), Lines(ts[1..], line), [], line(t));
      assert line(ts[0]) + Lines(ts[1..], line) + [] == Lines(ts, line);
    }
  }

  /** Where the row of the `i`-th task starts in the report. */
  function RowStart(tasks: seq<Task>, i: nat): nat
    requires i <= |tasks|
  {
    |Header(tasks)| + |Lines(tasks[..i], TableRow)|
  }

  /** The lines of a list split around its `i`-th element. */
  lemma LinesSplit(ts: seq<Task>, i: nat, line: Task -> string)
    requires i < |ts|
    ensures Lines(ts, line) == Lines(ts[..i], line) + line(ts[i]) + Lines(ts[i + 1..], line)
  {
    assert ts == ts[..i + 1] + ts[i + 1..];
    LinesAppend(ts[..i + 1], ts[i + 1..], line);
    LinesSnoc(ts, i, line);
  }

  /** The rows follow the header, each starting where the previous one ends. */
  lemma RowStartStep(tasks: seq<Task>, i: nat)
    requires i < |tasks|
    ensures RowStart(tasks, 0) == |Header(tasks)|
    ensures RowStart(tasks, i + 1) == RowStart(tasks, i) + |TableRow(tasks[i])|
  {
    assert tasks[..0] == [];
    LinesSnoc(tasks, i, TableRow);
  }

  /** The table: row `i` of the report is the row of the `i`-th task. */
  lemma TableRowPlacement(tasks: seq<Task>, i: nat)
    requires i < |tasks|
    ensures OccursAt(Readme(tasks), TableRow(tasks[i]), RowStart(tasks, i))
  {
    var h, f := Header(tasks), Footer(tasks);
    var before, row, after := Lines(tasks[..i], TableRow), TableRow(tasks[i]), Lines(tasks[i + 1..], TableRow);
    LinesSplit(tasks, i, TableRow);
    OccursInConcat(Readme(tasks), h, before, row, after, f, RowStart(tasks, i));
  }

  /** The category blocks start right after the last row. */
  lemma CategoriesPlacement(tasks: seq<Task>)
    ensures OccursAt(Readme(tasks), CategoryText(tasks), RowStart(tasks, |tasks|))
  {
    assert tasks[..|tasks|] == tasks;
    var front := Header(tasks) + Lines(tasks, TableRow);
    OccursBetween(Readme(tasks), front, CategoryText(tasks), Updates(tasks), RowStart(tasks, |tasks|));
  }

  /** A row shows the task's name, its status verbatim, its own progress bar
      and its date or the empty string. */
  lemma TableRowFields(t: Task)
    ensures OccursAt(TableRow(t), t.name, 2)
    ensures OccursAt(TableRow(t), t.status, |t.name| + 5)
    ensures OccursAt(TableRow(t), DateText(t), |TableRow(t)| - |DateText(t)| - 3)
  {
    var bar := ProgressBar(DecimalString(TaskPercentage(t.status)));
    TemplateFields(TableRow(t), "| ", t.name, " | ", t.status, " | ", bar, " | ", DateText(t), " |\n");
  }

  /** Every task with the in-progress marker gets a "Started work on" line. */
  lemma StartedTaskListed(tasks: seq<Task>, t: Task)
    requires t in tasks && Includes(t.status, InProgressMarker)
    ensures Includes(Readme(tasks), StartedLine(t))
  {
    var recent, started := Lines(RecentCompleted(tasks), CompletedLine), Lines(StartedTasks(tasks), StartedLine);
    LinesInclude(StartedTasks(tasks), StartedLine, t);
    IncludesInSuffix(Updates(tasks), recent, started, StartedLine(t));
    IncludesInSuffix(Footer(tasks), CategoryText(tasks), Updates(tasks), StartedLine(t));
    IncludesInSuffix(Readme(tasks), Header(tasks) + Lines(tasks, TableRow), Footer(tasks), StartedLine(t));
  }

  /** Every task among the three newest dated completions gets a "Completed" line. */
  lemma RecentTaskListed(tasks: seq<Task>, t: Task)
    requires t in RecentCompleted(tasks)
    ensures Includes(Readme(tasks), CompletedLine(t))
  {
    var recent, started := Lines(RecentCompleted(tasks), CompletedLine), Lines(StartedTasks(tasks), StartedLine);
    LinesInclude(RecentCompleted(tasks), CompletedLine, t);
    IncludesInPrefix(Updates(tasks), recent, started, CompletedLine(t));
    IncludesInSuffix(Footer(tasks), CategoryText(tasks), Updates(tasks), CompletedLine(t));
    IncludesInSuffix(Readme(tasks), Header(tasks) + Lines(tasks, TableRow), Footer(tasks), CompletedLine(t));
  }

  /** `ts.forEach(task => { markdown += line(task) })`. */
  method AppendLines(prefix: string, ts: seq<Task>, line: Task -> string) returns (markdown: string)
    ensures markdown == prefix + Lines(ts, line)
  {
    markdown := prefix;
    assert ts[..0] == [];
    for i := 0 to |ts|
      invariant markdown == prefix + Lines(ts[..i], line)
    {
      LinesSnoc(ts, i, line);
      AppendAssociative(prefix, Lines(ts[..i], line), line(ts[i]));
      markdown := markdown + line(ts[i]);
    }
    assert ts[..|ts|] == ts;
  }

  /** The report is assembled by appending its parts in order. */
  lemma ReadmeAssembled(tasks: seq<Task>, h: string, c: string)
    requires h == Header(tasks) && c == CategoryText(tasks)
    ensures h + Lines(tasks, TableRow) + c + Updates(tasks) == Readme(tasks)
  {
    AppendAssociative(h + Lines(tasks, TableRow), c, Updates(tasks));
  }

  /** The overview figure: one counting pass with the completed marker
      tested first, then the rounded weighted mean, or "NaN" for no tasks. */
  method OverallPercentage(tasks: seq<Task>) returns (overallPercentage: string)
    ensures overallPercentage == OverallText(tasks)
    ensures |tasks| > 0 ==> DecimalValue(overallPercentage) == Percentage(tasks)
  {
    var completedCount, inProgressCount := 0, 0;
    var totalTasks := |tasks|;
    for i := 0 to |tasks|
      invariant completedCount + CompletedCount(tasks[i..]) == CompletedCount(tasks)
      invariant inProgressCount + InProgressCount(tasks[i..]) == InProgressCount(tasks)
    {
      assert tasks[i..][1..] == tasks[i + 1..];
      if Includes(tasks[i].status, CompletedMarker) {
        completedCount := completedCount + 1;
      } else if Includes(tasks[i].status, InProgressMarker) {
        inProgressCount := inProgressCount + 1;
      }
    }
    if totalTasks == 0 {
      overallPercentage := "NaN";
    } else {
      var p := RoundHalfUp(completedCount * 100 + inProgressCount * 50, totalTasks);
      overallPercentage := DecimalString(p);
      DecimalRoundTrip(p);
    }
  }

  /** The dated completions copied, sorted newest first in place and cut to three. */
  method RecentCompletedTasks(tasks: seq<Task>) returns (recentCompletedTasks: seq<Task>)
    ensures recentCompletedTasks == RecentCompleted(tasks)
  {
    var completedTasks := DatedCompletedTasks(tasks);
    var sorted := new Task[|completedTasks|](k requires 0 <= k < |completedTasks| => completedTasks[k]);
    assert sorted[..] == completedTasks;
    SortNewestFirstInPlace(sorted);
    recentCompletedTasks := sorted[..Min(3, sorted.Length)];
  }

  /** The three category filters, each with its `calculateCategoryPercentage`,
      rendered as the category blocks. */
  method CategoryBlocks(tasks: seq<Task>) returns (categoryText: string)
    ensures categoryText == CategoryText(tasks)
  {
    var foundationalTasks := FoundationalTasks(tasks);
    var foundationalPercentage := CalculateCategoryPercentage(foundationalTasks);
    var contentTasks := ContentTasks(tasks);
    var contentPercentage := CalculateCategoryPercentage(contentTasks);
    var additionalTasks := AdditionalTasks(tasks);
    var additionalPercentage := CalculateCategoryPercentage(additionalTasks);
    categoryText := CategorySections(contentPercentage, foundationalPercentage, additionalPercentage,
                                     contentTasks, foundationalTasks, additionalTasks);
  }

  /** The template up to the table rows, with the overview figure filled in. */
  method ReportHeader(tasks: seq<Task>) returns (header: string)
    ensures header == Header(tasks)
  {
    var overallPercentage := OverallPercentage(tasks);
    header := Title + ProgressBar(overallPercentage) + TableHeading;
  }

  /** The lines under the Recent Updates heading, appended to `markdown`: the
      three newest dated completions, then every task with the in-progress marker. */
  method AppendRecentUpdates(markdown: string, tasks: seq<Task>) returns (result: string)
    ensures result == markdown + Updates(tasks)
  {
    var recentCompletedTasks := RecentCompletedTasks(tasks);
    result := AppendLines(markdown, recentCompletedTasks, CompletedLine);
    var inProgressTasks := StartedTasks(tasks);
    result := AppendLines(result, inProgressTasks, StartedLine);
    AppendAssociative(markdown, Lines(recentCompletedTasks, CompletedLine), Lines(inProgressTasks, StartedLine));
  }

  /** `generateProgressReadme`, in the order the script computes and appends. */
  method GenerateProgressReadme(tasks: seq<Task>) returns (markdown: string)
    ensures markdown == Readme(tasks)
  {
    var header := ReportHeader(tasks);
    var categoryText := CategoryBlocks(tasks);
    markdown := AppendLines(header, tasks, TableRow);
    markdown := markdown + categoryText;
    markdown := AppendRecentUpdates(markdown, tasks);
    ReadmeAssembled(tasks, header, categoryText);
  }
}
