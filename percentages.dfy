/** The percentage formula `round((100 * C + 50 * P) / N)` of the overview and
    of each category block, in exact integer arithmetic. */
module Percentages {
  import opened Strings
  import opened Tasks

  /** `Math.round(a / n)` for non-negative `a` and positive `n`: the nearest
      integer, halves rounded up. */
  function RoundHalfUp(a: nat, n: nat): (r: nat)
    requires n > 0
    ensures n * (2 * r - 1) <= 2 * a < n * (2 * r + 1)
  {
    var r := (2 * a + n) / (2 * n);
    assert 2 * n * r <= 2 * a + n < 2 * n * r + 2 * n;
    r
  }

  lemma MulMonotone(n: nat, x: int, y: int)
    requires x <= y
    ensures n * x <= n * y
  {
    assert n * y - n * x == n * (y - x);
  }

  /** At most one integer is within half of `a / n`. */
  lemma WithinHalfUnique(a: nat, n: nat, r: int, q: int)
    requires n > 0
    requires n * (2 * r - 1) <= 2 * a < n * (2 * r + 1)
    requires n * (2 * q - 1) <= 2 * a < n * (2 * q + 1)
    ensures r == q
  {
    if r < q {
      MulMonotone(n, 2 * r + 1, 2 * q - 1);
    } else if q < r {
      MulMonotone(n, 2 * q + 1, 2 * r - 1);
    }
  }

  /** So the rounding is unique. */
  lemma RoundHalfUpUnique(a: nat, n: nat, r: int)
    requires n > 0
    requires n * (2 * r - 1) <= 2 * a < n * (2 * r + 1)
    ensures r == RoundHalfUp(a, n)
  {
    WithinHalfUnique(a, n, r, RoundHalfUp(a, n));
  }

  /** Rounding a mean never leaves the range of the values averaged. */
  lemma RoundHalfUpBounded(a: nat, n: nat, m: nat)
    requires n > 0 && a <= m * n
    ensures RoundHalfUp(a, n) <= m
  {
    var r := RoundHalfUp(a, n);
    assert n * (2 * m + 1) == 2 * (m * n) + n;
    if r > m {
      MulMonotone(n, 2 * m + 1, 2 * r - 1);
    }
  }

  /** `calculateCategoryPercentage`, and the overview figure for a non-empty list. */
  function Percentage(ts: seq<Task>): (p: nat)
    ensures p <= 100
    ensures |ts| == 0 ==> p == 0
  {
    if |ts| == 0 then 0
    else
      ClassifiedCountsBounded(ts);
      RoundHalfUpBounded(100 * CompletedCount(ts) + 50 * InProgressCount(ts), |ts|, 100);
      RoundHalfUp(100 * CompletedCount(ts) + 50 * InProgressCount(ts), |ts|)
  }

  /** The sum of the per-task percentages shown on the rows. */
  function TotalWeight(ts: seq<Task>): nat
    decreases |ts|
  {
    if |ts| == 0 then 0 else TaskPercentage(ts[0].status) + TotalWeight(ts[1..])
  }

  lemma {:induction false} TotalWeightIsCounts(ts: seq<Task>)
    ensures TotalWeight(ts) == 100 * CompletedCount(ts) + 50 * InProgressCount(ts)
    decreases |ts|
  {
    if |ts| > 0 {
      TotalWeightIsCounts(ts[1..]);
    }
  }

  /** A category's percentage is the rounded mean of its rows' percentages. */
  lemma PercentageIsRoundedMean(ts: seq<Task>)
    requires |ts| > 0
    ensures Percentage(ts) == RoundHalfUp(TotalWeight(ts), |ts|)
  {
    TotalWeightIsCounts(ts);
  }

  lemma {:induction false} AllCompletedCount(ts: seq<Task>)
    requires forall t :: t in ts ==> Classify(t.status) == Completed
    ensures CompletedCount(ts) == |ts| && InProgressCount(ts) == 0
    decreases |ts|
  {
    if |ts| > 0 {
      assert ts[0] in ts;
      assert forall t :: t in ts[1..] ==> t in ts;
      AllCompletedCount(ts[1..]);
    }
  }

  /** A non-empty list of completed tasks is at 100%. */
  lemma AllCompletedIsFull(ts: seq<Task>)
    requires |ts| > 0
    requires forall t :: t in ts ==> Classify(t.status) == Completed
    ensures Percentage(ts) == 100
  {
    AllCompletedCount(ts);
    RoundHalfUpUnique(100 * |ts|, |ts|, 100);
  }

  lemma {:induction false} NoneStartedCount(ts: seq<Task>)
    requires forall t :: t in ts ==> Classify(t.status) == NotStarted
    ensures CompletedCount(ts) == 0 && InProgressCount(ts) == 0
    decreases |ts|
  {
    if |ts| > 0 {
      assert ts[0] in ts;
      assert forall t :: t in ts[1..] ==> t in ts;
      NoneStartedCount(ts[1..]);
    }
  }

  /** A list of tasks none of which is started is at 0%. */
  lemma NoneStartedIsZero(ts: seq<Task>)
    requires forall t :: t in ts ==> Classify(t.status) == NotStarted
    ensures Percentage(ts) == 0
  {
    NoneStartedCount(ts);
    if |ts| > 0 {
      RoundHalfUpUnique(0, |ts|, 0);
    }
  }

  /** `calculateCategoryPercentage` with its counting loop. */
  method CalculateCategoryPercentage(tasks: seq<Task>) returns (p: nat)
    ensures p == Percentage(tasks)
    ensures p <= 100
  {
    if |tasks| == 0 {
      return 0;
    }
    var completedCount, inProgressCount := 0, 0;
    for i := 0 to |tasks|
      invariant completedCount + CompletedCount(tasks[i..]) == CompletedCount(tasks)
      invariant inProgressCount + InProgressCount(tasks[i..]) == InProgressCount(tasks)
    {
      assert tasks[i..][1..] == tasks[i + 1..];
      if Includes(tasks[i].status, CompletedMarker) {
        completedCount := completedCount + 1;
      } else if Includes(tasks[i].status, InProgressMarker) {
        inProgressCount := inProgressCount + 1;
      }
    }
    p := RoundHalfUp(completedCount * 100 + inProgressCount * 50, |tasks|);
  }
}
