/** The three overlapping categories of the report, chosen by substring rules
    on a task's name. */
module Categories {
  import opened Strings
  import opened Sequences
  import opened Tasks

  /** The name mentions one of the four foundational keywords. */
  predicate IsFoundational(t: Task) {
    || Includes(t.name, "Project Setup")
    || Includes(t.name, "Landing Page")
    || Includes(t.name, "Documentation")
    || Includes(t.name, "Deployment")
  }

  /** `!isNaN(parseInt(name.charAt(0)))`: `charAt(0)` of the empty name is "",
      and `parseInt` of a single character is a number only for an ASCII digit. */
  predicate StartsWithDigit(name: string) {
    |name| > 0 && '0' <= name[0] <= '9'
  }

  /** The name mentions one of the two keywords that move a task to the
      additional materials. */
  predicate IsAdditional(t: Task) {
    Includes(t.name, "Tutorials") || Includes(t.name, "Testing")
  }

  /** A numbered section that mentions neither exclusion keyword. */
  predicate IsContent(t: Task) {
    StartsWithDigit(t.name) && !Includes(t.name, "Tutorials") && !Includes(t.name, "Testing")
  }

  function FoundationalTasks(tasks: seq<Task>): (r: seq<Task>)
    ensures IsSubsequence(r, tasks)
    ensures forall t :: t in r <==> t in tasks && IsFoundational(t)
    ensures forall t :: multiset(r)[t] == if IsFoundational(t) then multiset(tasks)[t] else 0
  {
    FilterSpec(tasks, IsFoundational);
    Filter(tasks, IsFoundational)
  }

  function ContentTasks(tasks: seq<Task>): (r: seq<Task>)
    ensures IsSubsequence(r, tasks)
    ensures forall t :: t in r <==> t in tasks && IsContent(t)
    ensures forall t :: multiset(r)[t] == if IsContent(t) then multiset(tasks)[t] else 0
  {
    FilterSpec(tasks, IsContent);
    Filter(tasks, IsContent)
  }

  function AdditionalTasks(tasks: seq<Task>): (r: seq<Task>)
    ensures IsSubsequence(r, tasks)
    ensures forall t :: t in r <==> t in tasks && IsAdditional(t)
    ensures forall t :: multiset(r)[t] == if IsAdditional(t) then multiset(tasks)[t] else 0
  {
    FilterSpec(tasks, IsAdditional);
    Filter(tasks, IsAdditional)
  }

  /** No task is both core content and additional material. */
  lemma ContentAndAdditionalDisjoint(tasks: seq<Task>)
    ensures forall t :: t in ContentTasks(tasks) ==> t !in AdditionalTasks(tasks)
  {
  }

  /** A task whose name starts with a digit is in exactly one of the content
      and additional categories. */
  lemma NumberedTaskSplit(tasks: seq<Task>, t: Task)
    requires t in tasks && StartsWithDigit(t.name)
    ensures t in ContentTasks(tasks) <==> t !in AdditionalTasks(tasks)
  {
  }

  /** All four foundational keywords start with 'P', 'L' or 'D'. */
  lemma NotFoundationalByInitials(t: Task)
    requires 'P' !in t.name && 'L' !in t.name && 'D' !in t.name
    ensures !IsFoundational(t)
  {
    NotIncludedWithoutFirstChar(t.name, "Project Setup");
    NotIncludedWithoutFirstChar(t.name, "Landing Page");
    NotIncludedWithoutFirstChar(t.name, "Documentation");
    NotIncludedWithoutFirstChar(t.name, "Deployment");
  }

  /** Both exclusion keywords start with 'T'. */
  lemma NotAdditionalByInitial(t: Task)
    requires 'T' !in t.name
    ensures !IsAdditional(t)
  {
    NotIncludedWithoutFirstChar(t.name, "Tutorials");
    NotIncludedWithoutFirstChar(t.name, "Testing");
  }

  /** The literal name split as the inclusion lemmas expect it. Stated apart
      only to keep the worked example below within the resource limit. */
  lemma SetupSpelling(name: string)
    requires name == "1. Project Setup"
    ensures name == "1. " + "Project Setup" + [] && 'T' !in name
  {
  }

  /** As `SetupSpelling`, for the second worked example. */
  lemma TutorialsSpelling(name: string)
    requires name == "2. Tutorials"
    ensures name == "2. " + "Tutorials" + [] && 'P' !in name && 'L' !in name && 'D' !in name
  {
  }

  /** Worked example: "1. Project Setup" is both foundational and core content. */
  lemma SetupIsFoundationalContent(t: Task)
    requires t.name == "1. Project Setup"
    ensures IsFoundational(t) && IsContent(t) && !IsAdditional(t)
  {
    SetupSpelling(t.name);
    IncludesMiddle("1. ", "Project Setup", []);
    NotAdditionalByInitial(t);
  }

  /** Worked example: "2. Tutorials" is additional material only. */
  lemma TutorialsIsAdditionalOnly(t: Task)
    requires t.name == "2. Tutorials"
    ensures IsAdditional(t) && !IsContent(t) && !IsFoundational(t)
  {
    TutorialsSpelling(t.name);
    IncludesMiddle("2. ", "Tutorials", []);
    NotFoundationalByInitials(t);
  }
}
