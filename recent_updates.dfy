/** The "Recent Updates" section: the three most recently completed dated
    tasks, newest first, then every task whose status carries the in-progress
    marker, in input order. */
module RecentUpdates {
  import opened Strings
  import opened Sequences
  import opened Tasks

  /** `task.dateFinished || ''`. */
  function DateText(t: Task): string {
    match t.dateFinished
    case Some(d) => d
    case None => ""
  }

  /** `task.dateFinished` is truthy: present and not the empty string. */
  predicate HasDate(t: Task) {
    DateText(t) != ""
  }

  /** The selection `task.status.includes("✅") && task.dateFinished`. */
  predicate IsDatedCompleted(t: Task) {
    Includes(t.status, CompletedMarker) && HasDate(t)
  }

  function DatedCompletedTasks(tasks: seq<Task>): (r: seq<Task>)
    ensures IsSubsequence(r, tasks)
    ensures forall t :: t in r <==> t in tasks && IsDatedCompleted(t)
    ensures forall t :: multiset(r)[t] == if IsDatedCompleted(t) then multiset(tasks)[t] else 0
  {
    FilterSpec(tasks, IsDatedCompleted);
    Filter(tasks, IsDatedCompleted)
  }

  /** The comparator `new Date(b.dateFinished) - new Date(a.dateFinished)` is
      negative: `a` was finished strictly later than `b` and sorts before it.
      Dates are compared as ISO-8601 strings. */
  predicate Newer(a: Task, b: Task) {
    LexLess(DateText(b), DateText(a))
  }

  /** No task is strictly newer than one listed before it. */
  ghost predicate NewestFirst(s: seq<Task>) {
    forall i, j :: 0 <= i < j < |s| ==> !Newer(s[j], s[i])
  }

  /** One step of a stable insertion sort: `x` goes just after the last task
      that is not strictly older than it. */
  function Insert(s: seq<Task>, x: Task): (r: seq<Task>)
    ensures |r| == |s| + 1
    decreases |s|
  {
    if |s| == 0 || !Newer(x, s[|s| - 1]) then s + [x]
    else Insert(s[..|s| - 1], x) + [s[|s| - 1]]
  }

  /** One insertion step adds exactly `x`. */
  lemma {:induction false} InsertPermutes(s: seq<Task>, x: Task)
    ensures multiset(Insert(s, x)) == multiset(s) + multiset{x}
    decreases |s|
  {
    if |s| > 0 && Newer(x, s[|s| - 1]) {
      InsertPermutes(s[..|s| - 1], x);
      assert s == s[..|s| - 1] + [s[|s| - 1]];
    }
  }

  lemma {:induction false} InsertKeepsNewestFirst(s: seq<Task>, x: Task)
    requires NewestFirst(s)
    ensures NewestFirst(Insert(s, x))
    decreases |s|
  {
    if |s| > 0 {
      var n := |s| - 1;
      var last := s[n];
      var r := Insert(s, x);
      if !Newer(x, last) {
        forall i, j | 0 <= i < j < |r|
          ensures !Newer(r[j], r[i])
        {
          if j == n + 1 && i < n {
            NotLexLessTransitive(DateText(x), DateText(last), DateText(s[i]));
          }
        }
      } else {
        var init := s[..n];
        InsertKeepsNewestFirst(init, x);
        var front := Insert(init, x);
        assert r == front + [last];
        InsertPermutes(init, x);
        LexLessAsymmetric(DateText(last), DateText(x));
        forall i, j | 0 <= i < j < |r|
          ensures !Newer(r[j], r[i])
        {
          if j == n + 1 {
            assert r[i] == front[i];
            assert front[i] in multiset(init) + multiset{x};
            if front[i] != x {
              var k :| 0 <= k < n && init[k] == front[i];
              assert s[k] == front[i];
            }
          }
        }
      }
    }
  }

  /** The stable sort by `Newer` that `completedTasks.sort(...)` performs. */
  function SortNewestFirst(s: seq<Task>): (r: seq<Task>)
    ensures |r| == |s|
    decreases |s|
  {
    if |s| == 0 then [] else Insert(SortNewestFirst(s[..|s| - 1]), s[|s| - 1])
  }

  /** The sort is a permutation whose result is newest first. */
  lemma {:induction false} SortNewestFirstSpec(s: seq<Task>)
    ensures multiset(SortNewestFirst(s)) == multiset(s)
    ensures NewestFirst(SortNewestFirst(s))
    decreases |s|
  {
    if |s| > 0 {
      var init, x := s[..|s| - 1], s[|s| - 1];
      SortNewestFirstSpec(init);
      InsertKeepsNewestFirst(SortNewestFirst(init), x);
      InsertPermutes(SortNewestFirst(init), x);
      assert s == init + [x];
    }
  }

  /** A list already newest first is left as it is. */
  lemma {:induction false} SortKeepsNewestFirstInput(s: seq<Task>)
    requires NewestFirst(s)
    ensures SortNewestFirst(s) == s
    decreases |s|
  {
    if |s| > 0 {
      var n := |s| - 1;
      var init := s[..n];
      assert NewestFirst(init) by {
        forall i, j | 0 <= i < j < n
          ensures !Newer(init[j], init[i])
        {
          assert init[i] == s[i] && init[j] == s[j];
        }
      }
      SortKeepsNewestFirstInput(init);
      InsertStops(s, s[n], n);
      assert init + [s[n]] == s;
    }
  }

  /** The selection of the tasks finished on date `d`. */
  function FinishedOn(d: string): Task -> bool {
    (t: Task) => DateText(t) == d
  }

  lemma {:induction false} InsertStable(s: seq<Task>, x: Task, d: string)
    ensures Filter(Insert(s, x), FinishedOn(d))
         == Filter(s, FinishedOn(d)) + Filter([x], FinishedOn(d))
    decreases |s|
  {
    var p := FinishedOn(d);
    if |s| == 0 || !Newer(x, s[|s| - 1]) {
      FilterAppend(s, [x], p);
    } else {
      var n := |s| - 1;
      var init, last := s[..n], s[n];
      assert s == init + [last];
      assert Insert(s, x) == Insert(init, x) + [last];
      InsertStable(init, x, d);
      FilterAppend(Insert(init, x), [last], p);
      FilterAppend(init, [last], p);
      LexLessIrreflexive(DateText(x));
      if DateText(x) == d {
        assert Filter([last], p) == [];
      } else {
        assert Filter([x], p) == [];
      }
    }
  }

  /** The sort is stable: the tasks finished on any one date keep their input order. */
  lemma {:induction false} SortStable(s: seq<Task>, d: string)
    ensures Filter(SortNewestFirst(s), FinishedOn(d)) == Filter(s, FinishedOn(d))
    decreases |s|
  {
    if |s| > 0 {
      var n := |s| - 1;
      SortStable(s[..n], d);
      InsertStable(SortNewestFirst(s[..n]), s[n], d);
      assert s == s[..n] + [s[n]];
      FilterAppend(s[..n], [s[n]], FinishedOn(d));
    }
  }

  /** `x` stops behind the first task that is not strictly older. */
  lemma InsertStops(sorted: seq<Task>, x: Task, j: nat)
    requires j <= |sorted| && (j == 0 || !Newer(x, sorted[j - 1]))
    ensures Insert(sorted[..j], x) == sorted[..j] + [x]
  {
    if j > 0 {
      assert sorted[..j][j - 1] == sorted[j - 1];
    }
  }

  /** `x` goes in at `j` when the task before `j` is not older and every task
      from `j` on is strictly older. */
  lemma {:induction false} InsertAt(sorted: seq<Task>, x: Task, j: nat)
    requires j <= |sorted| && (j == 0 || !Newer(x, sorted[j - 1]))
    requires forall k :: j <= k < |sorted| ==> Newer(x, sorted[k])
    ensures Insert(sorted, x) == sorted[..j] + [x] + sorted[j..]
    decreases |sorted| - j
  {
    if j == |sorted| {
      InsertStops(sorted, x, j);
      assert sorted[j..] == [];
    } else {
      var n := |sorted| - 1;
      var init := sorted[..n];
      assert init[..j] == sorted[..j];
      InsertAt(init, x, j);
      assert init[j..] + [sorted[n]] == sorted[j..];
    }
  }

  /** The array after the inner loop: `x` at position `j`, the older tasks
      shifted up behind it. Stated apart from `InsertInPlace` only to keep
      that method within the resource limit. */
  lemma PlacedIsShifted(sorted: seq<Task>, x: Task, j: nat, placed: seq<Task>)
    requires j <= |sorted| && |placed| == |sorted| + 1 && placed[j] == x
    requires forall k :: 0 <= k < j ==> placed[k] == sorted[k]
    requires forall k :: j < k < |placed| ==> placed[k] == sorted[k - 1]
    ensures placed == sorted[..j] + [x] + sorted[j..]
  {
  }

  /** The inner loop of the in-place sort: the tasks of `a[..i]` strictly
      older than `x` move up by one, leaving a gap at `j`. */
  method ShiftOlder(a: array<Task>, i: nat, x: Task) returns (j: nat)
    requires i < a.Length
    modifies a
    ensures j <= i && (j == 0 || !Newer(x, old(a[j - 1])))
    ensures forall k :: 0 <= k < j ==> a[k] == old(a[k])
    ensures forall k :: j < k <= i ==> a[k] == old(a[k - 1])
    ensures forall k :: i < k < a.Length ==> a[k] == old(a[k])
    ensures forall k :: j <= k < i ==> Newer(x, old(a[k]))
  {
    j := i;
    while j > 0 && Newer(x, a[j - 1])
      invariant 0 <= j <= i
      invariant forall k :: 0 <= k < j ==> a[k] == old(a[k])
      invariant forall k :: j < k <= i ==> a[k] == old(a[k - 1])
      invariant forall k :: i < k < a.Length ==> a[k] == old(a[k])
      invariant forall k :: j <= k < i ==> Newer(x, old(a[k]))
      decreases j
    {
      a[j] := a[j - 1];
      j := j - 1;
    }
  }

  /** `a[i]` is moved into the sorted prefix `a[..i]`, behind the last task
      that is not strictly older. */
  method InsertInPlace(a: array<Task>, i: nat)
    requires i < a.Length
    modifies a
    ensures a[..i + 1] == Insert(old(a[..i]), old(a[i]))
    ensures a[i + 1..] == old(a[i + 1..])
  {
    var x := a[i];
    ghost var sorted, rest := a[..i], a[i + 1..];
    var j := ShiftOlder(a, i, x);
    a[j] := x;
    InsertAt(sorted, x, j);
    PlacedIsShifted(sorted, x, j, a[..i + 1]);
    ghost var after := a[i + 1..];
    assert after == rest by {
      assert forall k :: 0 <= k < |after| ==> after[k] == rest[k];
    }
  }

  /** `completedTasks.sort(...)`: the same stable sort, in place. */
  method SortNewestFirstInPlace(a: array<Task>)
    modifies a
    ensures a[..] == SortNewestFirst(old(a[..]))
  {
    ghost var input := a[..];
    for i := 0 to a.Length
      invariant a[..i] == SortNewestFirst(input[..i])
      invariant a[i..] == input[i..]
    {
      ghost var prefix := input[..i + 1];
      assert prefix[..i] == input[..i] && prefix[i] == input[i];
      assert a[i] == input[i] by {
        assert a[i..][0] == input[i..][0];
      }
      ghost var rest := a[i + 1..];
      assert rest == input[i + 1..] by {
        assert a[i..][1..] == input[i..][1..];
      }
      InsertInPlace(a, i);
      assert SortNewestFirst(prefix) == Insert(SortNewestFirst(prefix[..i]), prefix[i]);
    }
    assert a[..] == a[..a.Length];
    assert input == input[..a.Length];
  }

  function Min(a: int, b: int): int {
    if a < b then a else b
  }

  /** The first `k` tasks of a newest-first list are newest first, and no task
      left out is strictly newer than any task kept. */
  lemma TopOfNewestFirst(s: seq<Task>, k: nat)
    requires NewestFirst(s) && k <= |s|
    ensures NewestFirst(s[..k])
    ensures multiset(s[..k]) <= multiset(s)
    ensures forall t, u :: t in s && t !in s[..k] && u in s[..k] ==> !Newer(t, u)
  {
    assert s == s[..k] + s[k..];
    forall t, u | t in s && t !in s[..k] && u in s[..k]
      ensures !Newer(t, u)
    {
      assert t in s[k..];
      var i :| 0 <= i < |s| - k && s[k..][i] == t;
      var m :| 0 <= m < k && s[..k][m] == u;
      assert s[k + i] == t && s[m] == u;
    }
  }

  /** `completedTasks.slice(0, 3)` after the sort: the Recent Updates
      completions. */
  function RecentCompleted(tasks: seq<Task>): (r: seq<Task>)
    ensures |r| == Min(3, |DatedCompletedTasks(tasks)|)
    ensures multiset(r) <= multiset(DatedCompletedTasks(tasks))
    ensures forall t :: t in r ==> t in tasks && IsDatedCompleted(t)
    ensures NewestFirst(r)
    ensures forall t, u :: t in tasks && IsDatedCompleted(t) && t !in r && u in r ==> !Newer(t, u)
  {
    var dated := DatedCompletedTasks(tasks);
    var sorted := SortNewestFirst(dated);
    SortNewestFirstSpec(dated);
    var k := Min(3, |sorted|);
    TopOfNewestFirst(sorted, k);
    assert forall t :: t in dated <==> t in sorted by {
      assert forall t :: t in dated <==> t in multiset(sorted);
    }
    sorted[..k]
  }

  /** `tasks.filter(task => task.status.includes("🟡"))`: every task with the
      in-progress marker, in input order, each as often as it occurs. */
  function StartedTasks(tasks: seq<Task>): (r: seq<Task>)
    ensures IsSubsequence(r, tasks)
    ensures forall t :: t in r <==> t in tasks && Includes(t.status, InProgressMarker)
    ensures forall t :: multiset(r)[t] == if Includes(t.status, InProgressMarker) then multiset(tasks)[t] else 0
  {
    FilterSpec(tasks, HasMarker(InProgressMarker));
    Filter(tasks, HasMarker(InProgressMarker))
  }

  /** A dated task carrying both markers is a candidate for the completions
      and is also listed as started. */
  lemma BothMarkersInBothHalves(tasks: seq<Task>, t: Task)
    requires t in tasks && HasBothMarkers(t) && HasDate(t)
    ensures t in DatedCompletedTasks(tasks) && t in StartedTasks(tasks)
  {
  }
}
