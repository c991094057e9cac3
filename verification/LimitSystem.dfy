/**
 Whole runs of the distributed Limit operator: many tasks claim from one counter,
 attempts crash at any point, and a retry starts over after its refund.  Attempts of
 one task do not overlap, and every attempt of a task offers the same rows.
 */
module LimitSystem {
  import opened LimitCounter

  /**
   A task and the progress of its latest attempt.  `skipped`, `taken` and `dropped`
   count what the replies told that attempt to do with the rows it has offered.
   */
  datatype Task = Task(rows: nat, running: bool, unclaimed: nat, skipped: nat, taken: nat, dropped: nat)

  datatype State = State(counter: Counter, tasks: seq<Task>)

  datatype Step =
    | Start(id: TaskId)             // first batch of a new attempt, initial or retry
    | Offer(id: TaskId, n: nat)     // claim for the next n rows of the attempt
    | Crash(id: TaskId)
    | Cancel(id: TaskId)            // the limit is reached; the rest of the attempt is abandoned

  predicate Enabled(s: State, step: Step) {
    && step.id < |s.tasks|
    && match step
       case Start(_) => true
       case Offer(id, n) => s.tasks[id].running && n <= s.tasks[id].unclaimed
       case Crash(id) => s.tasks[id].running
       case Cancel(_) => s.counter.remainingTake == 0
  }

  function Apply(s: State, step: Step): State
    requires Enabled(s, step)
  {
    var t := s.tasks[step.id];
    match step
    case Start(id) =>
      State(Refund(s.counter, id), s.tasks[id := Task(t.rows, true, t.rows, 0, 0, 0)])
    case Offer(id, n) =>
      var r := ReplyTo(s.counter, n);
      State(Grant(s.counter, id, n),
            s.tasks[id := t.(unclaimed := t.unclaimed - n, skipped := t.skipped + r.skip,
                             taken := t.taken + r.take, dropped := t.dropped + (n - r.skip - r.take))])
    case Crash(id) => s.(tasks := s.tasks[id := t.(running := false)])
    case Cancel(id) => s.(tasks := s.tasks[id := t.(unclaimed := 0, dropped := t.dropped + t.unclaimed)])
  }

  function Init(limit: nat, offset: nat, rows: seq<nat>): State {
    State(Counter(offset, limit, map[]),
          seq(|rows|, i requires 0 <= i < |rows| => Task(rows[i], false, rows[i], 0, 0, 0)))
  }

  /** `run` can be executed from `s`. */
  predicate Legal(s: State, run: seq<Step>)
    decreases |run|
  {
    run == [] || (Enabled(s, run[0]) && Legal(Apply(s, run[0]), run[1..]))
  }

  function After(s: State, run: seq<Step>): State
    requires Legal(s, run)
    decreases |run|
  {
    if run == [] then s else After(Apply(s, run[0]), run[1..])
  }

  /** `run` is executable from the initial state and ends in `s`. */
  predicate Reaches(limit: nat, offset: nat, rows: seq<nat>, run: seq<Step>, s: State) {
    Legal(Init(limit, offset, rows), run) && After(Init(limit, offset, rows), run) == s
  }

  /** Every row of every latest attempt has been offered (or abandoned). */
  ghost predicate Quiescent(s: State) {
    forall i :: 0 <= i < |s.tasks| ==> s.tasks[i].unclaimed == 0
  }

  // ---------------------------------------------------------------- column sums

  datatype Column = Rows | Unclaimed | Skipped | Taken | Dropped

  function Cell(t: Task, col: Column): nat {
    match col
    case Rows => t.rows
    case Unclaimed => t.unclaimed
    case Skipped => t.skipped
    case Taken => t.taken
    case Dropped => t.dropped
  }

  function Sum(ts: seq<Task>, col: Column): nat {
    if ts == [] then 0 else Sum(ts[..|ts| - 1], col) + Cell(ts[|ts| - 1], col)
  }

  lemma {:induction false} SumUpdate(ts: seq<Task>, i: nat, t: Task, col: Column)
    requires i < |ts|
    ensures Sum(ts[i := t], col) == Sum(ts, col) - Cell(ts[i], col) + Cell(t, col)
    decreases |ts|
  {
    var k := |ts| - 1;
    if i == k {
      assert ts[i := t][..k] == ts[..k];
    } else {
      SumUpdate(ts[..k], i, t, col);
      assert ts[i := t][..k] == ts[..k][i := t];
    }
  }

  lemma SumsUpdate(ts: seq<Task>, i: nat, t: Task)
    requires i < |ts|
    ensures forall col :: Sum(ts[i := t], col) == Sum(ts, col) - Cell(ts[i], col) + Cell(t, col)
  {
    forall col ensures Sum(ts[i := t], col) == Sum(ts, col) - Cell(ts[i], col) + Cell(t, col) {
      SumUpdate(ts, i, t, col);
    }
  }

  lemma {:induction false} RowsSplit(ts: seq<Task>)
    requires forall i :: 0 <= i < |ts| ==> Accounted(ts[i])
    ensures Sum(ts, Rows) == Sum(ts, Unclaimed) + Sum(ts, Skipped) + Sum(ts, Taken) + Sum(ts, Dropped)
  {
    if ts == [] {
    } else {
      RowsSplit(ts[..|ts| - 1]);
    }
  }

  lemma {:induction false} SumZero(ts: seq<Task>, col: Column)
    requires forall i :: 0 <= i < |ts| ==> Cell(ts[i], col) == 0
    ensures Sum(ts, col) == 0
  {
    if ts == [] {
    } else {
      SumZero(ts[..|ts| - 1], col);
    }
  }

  // ---------------------------------------------------------------- invariants

  predicate Accounted(t: Task) {
    t.rows == t.unclaimed + t.skipped + t.taken + t.dropped
  }

  /** The counter records exactly what the latest attempt of each task was told. */
  ghost predicate Recorded(s: State) {
    && (forall i :: 0 <= i < |s.tasks| ==> Held(s.counter, i) == Claimed(s.tasks[i].skipped, s.tasks[i].taken))
    && (forall id :: id in s.counter.claims ==> id < |s.tasks|)
  }

  /** Every skip and every take is either still in the counter or held by a task. */
  ghost predicate Conserved(limit: nat, offset: nat, s: State) {
    && s.counter.remainingSkip + Sum(s.tasks, Skipped) == offset
    && s.counter.remainingTake + Sum(s.tasks, Taken) == limit
  }

  /** Refunded skips never outnumber the rows that could still absorb them. */
  ghost predicate SkipCovered(s: State) {
    Sum(s.tasks, Taken) > 0 ==> s.counter.remainingSkip <= Sum(s.tasks, Unclaimed) + Sum(s.tasks, Dropped)
  }

  /** Once a row has been dropped, the rows still to come can use up the whole remaining budget. */
  ghost predicate BudgetCovered(s: State) {
    Sum(s.tasks, Dropped) > 0 ==> s.counter.remainingSkip + s.counter.remainingTake <= Sum(s.tasks, Unclaimed)
  }

  ghost predicate Inv(limit: nat, offset: nat, rows: seq<nat>, s: State) {
    && |s.tasks| == |rows|
    && (forall i :: 0 <= i < |rows| ==> s.tasks[i].rows == rows[i] && Accounted(s.tasks[i]))
    && Recorded(s) && Conserved(limit, offset, s) && SkipCovered(s)
  }

  lemma InitInv(limit: nat, offset: nat, rows: seq<nat>)
    ensures Inv(limit, offset, rows, Init(limit, offset, rows)) && BudgetCovered(Init(limit, offset, rows))
  {
    var s := Init(limit, offset, rows);
    SumZero(s.tasks, Skipped);
    SumZero(s.tasks, Taken);
    SumZero(s.tasks, Dropped);
  }

  lemma StepAccounts(limit: nat, offset: nat, rows: seq<nat>, s: State, step: Step, s': State)
    requires Inv(limit, offset, rows, s) && Enabled(s, step) && s' == Apply(s, step)
    ensures |s'.tasks| == |rows| && forall i :: 0 <= i < |rows| ==>
            s'.tasks[i].rows == rows[i] && Accounted(s'.tasks[i])
    ensures Recorded(s')
  {
    assert Held(s.counter, step.id) == Claimed(s.tasks[step.id].skipped, s.tasks[step.id].taken);
  }

  lemma StepSums(limit: nat, offset: nat, rows: seq<nat>, s: State, step: Step, s': State)
    requires Inv(limit, offset, rows, s) && Enabled(s, step) && s' == Apply(s, step)
    ensures Conserved(limit, offset, s') && SkipCovered(s')
  {
    SumsUpdate(s.tasks, step.id, s'.tasks[step.id]);
    assert s'.tasks == s.tasks[step.id := s'.tasks[step.id]];
    assert Held(s.counter, step.id) == Claimed(s.tasks[step.id].skipped, s.tasks[step.id].taken);
  }

  lemma StepInv(limit: nat, offset: nat, rows: seq<nat>, s: State, step: Step)
    requires Inv(limit, offset, rows, s) && Enabled(s, step)
    ensures Inv(limit, offset, rows, Apply(s, step))
  {
    var s' := Apply(s, step);
    StepAccounts(limit, offset, rows, s, step, s');
    StepSums(limit, offset, rows, s, step, s');
  }

  /** The one branch that loses count: rows answered (0, 0, done) while refunded skips are outstanding. */
  predicate DropsUnderDebt(s: State, step: Step)
    requires Enabled(s, step)
  {
    && s.counter.remainingTake == 0 && s.counter.remainingSkip > 0
    && match step
       case Offer(_, n) => n > 0
       case Cancel(id) => s.tasks[id].unclaimed > 0
       case _ => false
  }

  predicate Clean(s: State, run: seq<Step>)
    requires Legal(s, run)
    decreases |run|
  {
    run == [] || (!DropsUnderDebt(s, run[0]) && Clean(Apply(s, run[0]), run[1..]))
  }

  lemma StepBudget(limit: nat, offset: nat, rows: seq<nat>, s: State, step: Step)
    requires Inv(limit, offset, rows, s) && BudgetCovered(s) && Enabled(s, step) && !DropsUnderDebt(s, step)
    ensures BudgetCovered(Apply(s, step))
  {
    var s' := Apply(s, step);
    SumsUpdate(s.tasks, step.id, s'.tasks[step.id]);
    assert s'.tasks == s.tasks[step.id := s'.tasks[step.id]];
    assert Held(s.counter, step.id) == Claimed(s.tasks[step.id].skipped, s.tasks[step.id].taken);
  }

  lemma {:induction false} RunInv(limit: nat, offset: nat, rows: seq<nat>, s: State, run: seq<Step>)
    requires Inv(limit, offset, rows, s) && Legal(s, run)
    ensures Inv(limit, offset, rows, After(s, run))
    ensures BudgetCovered(s) && Clean(s, run) ==> BudgetCovered(After(s, run))
    decreases |run|
  {
    if run == [] {
    } else {
      StepInv(limit, offset, rows, s, run[0]);
      if BudgetCovered(s) && Clean(s, run) {
        StepBudget(limit, offset, rows, s, run[0]);
      }
      RunInv(limit, offset, rows, Apply(s, run[0]), run[1..]);
    }
  }

  // ---------------------------------------------------------------- theorems

  function Total(rows: seq<nat>): nat {
    if rows == [] then 0 else Total(rows[..|rows| - 1]) + rows[|rows| - 1]
  }

  /** LIMIT ... OFFSET over all rows of all tasks. */
  function Expected(limit: nat, offset: nat, rows: seq<nat>): nat {
    Min(limit, if Total(rows) <= offset then 0 else Total(rows) - offset)
  }

  lemma {:induction false} RowsTotal(ts: seq<Task>, rows: seq<nat>)
    requires |ts| == |rows| && forall i :: 0 <= i < |rows| ==> ts[i].rows == rows[i]
    ensures Sum(ts, Rows) == Total(rows)
  {
    if ts == [] {
    } else {
      RowsTotal(ts[..|ts| - 1], rows[..|rows| - 1]);
    }
  }

  lemma ReachableInv(limit: nat, offset: nat, rows: seq<nat>, run: seq<Step>, s: State)
    requires Reaches(limit, offset, rows, run, s)
    ensures Inv(limit, offset, rows, s)
    ensures Clean(Init(limit, offset, rows), run) ==> BudgetCovered(s)
  {
    InitInv(limit, offset, rows);
    RunInv(limit, offset, rows, Init(limit, offset, rows), run);
  }

  /** In every reachable state nothing is minted or lost, and at the limit the takes held sum to it. */
  lemma Conservation(limit: nat, offset: nat, rows: seq<nat>, run: seq<Step>, s: State)
    requires Reaches(limit, offset, rows, run, s)
    ensures Conserved(limit, offset, s) && Recorded(s)
    ensures s.counter.remainingTake == 0 ==> Sum(s.tasks, Taken) == limit
  {
    ReachableInv(limit, offset, rows, run, s);
  }

  /** Whatever the offset and the restarts, no reachable state holds more takes than LIMIT/OFFSET of the input. */
  lemma NeverOvertakes(limit: nat, offset: nat, rows: seq<nat>, run: seq<Step>, s: State)
    requires Reaches(limit, offset, rows, run, s)
    ensures Sum(s.tasks, Taken) <= Expected(limit, offset, rows)
  {
    ReachableInv(limit, offset, rows, run, s);
    RowsSplit(s.tasks);
    RowsTotal(s.tasks, rows);
  }

  lemma QuiescentCount(limit: nat, offset: nat, rows: seq<nat>, s: State)
    requires Inv(limit, offset, rows, s) && Quiescent(s) && BudgetCovered(s)
    ensures Sum(s.tasks, Taken) == Expected(limit, offset, rows)
  {
    RowsSplit(s.tasks);
    RowsTotal(s.tasks, rows);
    SumZero(s.tasks, Unclaimed);
  }

  /**
   Any interleaving of claims, crashes, restarts and cancellations that avoids
   `DropsUnderDebt` takes exactly LIMIT/OFFSET.
   */
  lemma CleanRunTakesExactly(limit: nat, offset: nat, rows: seq<nat>, run: seq<Step>, s: State)
    requires Reaches(limit, offset, rows, run, s) && Quiescent(s)
    requires Clean(Init(limit, offset, rows), run)
    ensures Sum(s.tasks, Taken) == Expected(limit, offset, rows)
  {
    ReachableInv(limit, offset, rows, run, s);
    QuiescentCount(limit, offset, rows, s);
  }

  lemma {:induction false} NoOffsetIsClean(limit: nat, offset: nat, rows: seq<nat>, s: State, run: seq<Step>)
    requires offset == 0 && Inv(limit, offset, rows, s) && Legal(s, run)
    ensures Clean(s, run)
    decreases |run|
  {
    if run == [] {
    } else {
      StepInv(limit, offset, rows, s, run[0]);
      NoOffsetIsClean(limit, offset, rows, Apply(s, run[0]), run[1..]);
    }
  }

  /** Without an offset, every run that has offered all its rows holds exactly min(limit, total) takes. */
  lemma NoOffsetTakesExactly(limit: nat, offset: nat, rows: seq<nat>, run: seq<Step>, s: State)
    requires offset == 0 && Reaches(limit, offset, rows, run, s) && Quiescent(s)
    ensures Sum(s.tasks, Taken) == Min(limit, Total(rows))
  {
    assert Clean(Init(limit, offset, rows), run) by {
      InitInv(limit, offset, rows);
      NoOffsetIsClean(limit, offset, rows, Init(limit, offset, rows), run);
    }
    CleanRunTakesExactly(limit, offset, rows, run, s);
  }
}
