/** Task records, the reading of their status markers, and the per-task and
    per-marker counts the report is built from. */
module Tasks {
  import opened Strings
  import opened Sequences

  datatype Option<T> = None | Some(value: T)

  /** One record of the input list. A missing `dateFinished` is `None`. */
  datatype Task = Task(name: string, status: string, dateFinished: Option<string>)

  const CompletedMarker: string := "\U{2705}"
  const InProgressMarker: string := "\U{1F7E1}"
  const NotStartedMarker: string := "\U{1F532}"

  /** The three-way reading of a status string. */
  datatype Status = Completed | InProgress | NotStarted

  /** The else-if chain of the counting loops: the completed marker is tested
      first, so it wins when both markers are present. */
  function Classify(status: string): (c: Status)
    ensures c == Completed <==> Includes(status, CompletedMarker)
    ensures c == InProgress <==> !Includes(status, CompletedMarker) && Includes(status, InProgressMarker)
    ensures c == NotStarted <==> !Includes(status, CompletedMarker) && !Includes(status, InProgressMarker)
  {
    if Includes(status, CompletedMarker) then Completed
    else if Includes(status, InProgressMarker) then InProgress
    else NotStarted
  }

  /** The legend of the report: completed 100%, in progress 50%, not started 0%. */
  function Weight(c: Status): nat {
    match c
    case Completed => 100
    case InProgress => 50
    case NotStarted => 0
  }

  /** `getTaskPercentage`: the progress shown on a task's own row. */
  function TaskPercentage(status: string): (p: nat)
    ensures p == Weight(Classify(status))
    ensures p == 0 || p == 50 || p == 100
  {
    if Includes(status, CompletedMarker) then 100
    else if Includes(status, InProgressMarker) then 50
    else 0
  }

  /** Tasks that the else-if chain counts as completed. */
  function CompletedCount(ts: seq<Task>): nat
    decreases |ts|
  {
    if |ts| == 0 then 0
    else (if Classify(ts[0].status) == Completed then 1 else 0) + CompletedCount(ts[1..])
  }

  /** Tasks that the else-if chain counts as in progress. */
  function InProgressCount(ts: seq<Task>): nat
    decreases |ts|
  {
    if |ts| == 0 then 0
    else (if Classify(ts[0].status) == InProgress then 1 else 0) + InProgressCount(ts[1..])
  }

  /** No task is counted by both branches of the chain. */
  lemma {:induction false} ClassifiedCountsBounded(ts: seq<Task>)
    ensures CompletedCount(ts) + InProgressCount(ts) <= |ts|
    decreases |ts|
  {
    if |ts| > 0 {
      ClassifiedCountsBounded(ts[1..]);
    }
  }

  /** The selection `task => task.status.includes(e)`. */
  function HasMarker(e: string): Task -> bool {
    (t: Task) => Includes(t.status, e)
  }

  predicate HasBothMarkers(t: Task) {
    Includes(t.status, CompletedMarker) && Includes(t.status, InProgressMarker)
  }

  /** `countTasksByStatus`: the number of tasks whose status contains `e`,
      each counted as often as it occurs. */
  function CountTasksByStatus(ts: seq<Task>, e: string): (n: nat)
    ensures n <= |ts|
    ensures forall t :: t in ts && Includes(t.status, e) ==> n > 0
    ensures n == |ts| <==> forall t :: t in ts ==> Includes(t.status, e)
  {
    var r := Filter(ts, HasMarker(e));
    FilterSpec(ts, HasMarker(e));
    CountAllIffAll(ts, HasMarker(e));
    |r|
  }

  /** A filter keeps every element exactly when all of them satisfy the selection. */
  lemma {:induction false} CountAllIffAll(ts: seq<Task>, p: Task -> bool)
    ensures |Filter(ts, p)| == |ts| <==> forall t :: t in ts ==> p(t)
    decreases |ts|
  {
    if |ts| > 0 {
      var tail := ts[1..];
      CountAllIffAll(tail, p);
      assert forall t :: t in ts <==> t == ts[0] || t in tail;
      if p(ts[0]) {
        assert |Filter(ts, p)| == 1 + |Filter(tail, p)|;
      } else {
        assert Filter(ts, p) == Filter(tail, p);
      }
    }
  }

  /** The completed-marker count of a category block agrees with the else-if chain. */
  lemma {:induction false} CompletedMarkerCount(ts: seq<Task>)
    ensures CountTasksByStatus(ts, CompletedMarker) == CompletedCount(ts)
    decreases |ts|
  {
    if |ts| > 0 {
      CompletedMarkerCount(ts[1..]);
    }
  }

  /** The in-progress-marker count uses a plain `includes`: it also counts the
      tasks that carry both markers, which the else-if chain counts as completed. */
  lemma {:induction false} InProgressMarkerCount(ts: seq<Task>)
    ensures CountTasksByStatus(ts, InProgressMarker)
         == InProgressCount(ts) + |Filter(ts, HasBothMarkers)|
    decreases |ts|
  {
    if |ts| > 0 {
      InProgressMarkerCount(ts[1..]);
    }
  }

  /** A concrete task that is counted twice in a category block. */
  lemma BothMarkersCountedTwice()
    ensures var t := Task("1. Intro", CompletedMarker + InProgressMarker, None);
      && CountTasksByStatus([t], CompletedMarker) == 1
      && CountTasksByStatus([t], InProgressMarker) == 1
      && CompletedCount([t]) == 1 && InProgressCount([t]) == 0
  {
    var t := Task("1. Intro", CompletedMarker + InProgressMarker, None);
    IncludesMiddle([], CompletedMarker, InProgressMarker);
    IncludesMiddle(CompletedMarker, InProgressMarker, []);
    assert CompletedMarker + InProgressMarker + [] == t.status;
    CompletedMarkerCount([t]);
    InProgressMarkerCount([t]);
  }
}
