/**
 When retries can make a limit with an offset lose rows.  A task that only skipped can restart after
 the limit is reached: its skips come back, its rows are turned away, and the next task that gives
 back takes pays for those skips.  Whether some run ends short is decided by the input alone.
 */
module LimitRetries {
  import opened LimitCounter
  import opened LimitSystem

  /** Task `z` can be the one that restarts without takes, task `k` the one that pays. */
  predicate Endangers(limit: nat, offset: nat, rows: seq<nat>, z: nat, k: nat) {
    && z < |rows| && k < |rows| && z != k && rows[z] > 0 && rows[k] > 0
    && rows[k] < offset + limit <= Total(rows)
    && Total(rows) - rows[z] >= limit
  }

  ghost predicate CanUndercount(limit: nat, offset: nat, rows: seq<nat>) {
    limit > 0 && offset > 0 && exists z, k :: Endangers(limit, offset, rows, z, k)
  }

  // ---------------------------------------------------------------- inputs that never end short

  /** As long as something is left to take, the rows to come can use up the whole budget. */
  ghost predicate Covered(s: State) {
    s.counter.remainingTake > 0 ==>
      s.counter.remainingSkip + s.counter.remainingTake <= Sum(s.tasks, Unclaimed)
  }

  /** With skips outstanding at the limit, only tasks that can use up the whole budget hold takes. */
  ghost predicate DebtIsSafe(limit: nat, offset: nat, s: State) {
    s.counter.remainingTake == 0 && s.counter.remainingSkip > 0 ==>
      forall i :: 0 <= i < |s.tasks| && s.tasks[i].taken > 0 ==> s.tasks[i].rows >= offset + limit
  }

  lemma {:induction false} CellBelowSum(ts: seq<Task>, i: nat, col: Column)
    requires i < |ts|
    ensures Cell(ts[i], col) <= Sum(ts, col)
    decreases |ts|
  {
    if i == |ts| - 1 {
    } else {
      CellBelowSum(ts[..|ts| - 1], i, col);
    }
  }

  lemma StepCovered(limit: nat, offset: nat, rows: seq<nat>, s: State, step: Step, s': State)
    requires Inv(limit, offset, rows, s) && Covered(s) && DebtIsSafe(limit, offset, s)
    requires Enabled(s, step) && s' == Apply(s, step)
    ensures Covered(s')
  {
    StepInv(limit, offset, rows, s, step);
    SumsUpdate(s.tasks, step.id, s'.tasks[step.id]);
    assert s'.tasks == s.tasks[step.id := s'.tasks[step.id]];
    assert Held(s.counter, step.id) == Claimed(s.tasks[step.id].skipped, s.tasks[step.id].taken);
    CellBelowSum(s'.tasks, step.id, Unclaimed);
  }

  /** The takes of the other tasks fit into their rows. */
  lemma TakenElsewhere(ts: seq<Task>, z: nat)
    requires z < |ts| && ts[z].taken == 0 && forall i :: 0 <= i < |ts| ==> Accounted(ts[i])
    ensures Sum(ts, Taken) + ts[z].rows <= Sum(ts, Rows)
  {
    var gone := Task(0, false, 0, 0, 0, 0);
    SumsUpdate(ts, z, gone);
    RowsSplit(ts[z := gone]);
  }

  lemma DebtorsAreHarmless(limit: nat, offset: nat, rows: seq<nat>, s: State, z: nat)
    requires Inv(limit, offset, rows, s) && s.counter.remainingTake == 0 && offset + limit <= Total(rows)
    requires forall k :: !Endangers(limit, offset, rows, z, k)
    requires z < |rows| && s.tasks[z].taken == 0 && s.tasks[z].skipped > 0
    ensures forall i :: 0 <= i < |s.tasks| && s.tasks[i].taken > 0 ==> s.tasks[i].rows >= offset + limit
  {
    RowsTotal(s.tasks, rows);
    TakenElsewhere(s.tasks, z);
    forall i | 0 <= i < |s.tasks| && s.tasks[i].taken > 0 ensures s.tasks[i].rows >= offset + limit {
      assert Accounted(s.tasks[i]) && Accounted(s.tasks[z]);
      assert !Endangers(limit, offset, rows, z, i);
    }
  }

  lemma StepDebt(limit: nat, offset: nat, rows: seq<nat>, s: State, step: Step, s': State)
    requires Inv(limit, offset, rows, s) && DebtIsSafe(limit, offset, s) && offset + limit <= Total(rows)
    requires forall z, k :: !Endangers(limit, offset, rows, z, k)
    requires Enabled(s, step) && s' == Apply(s, step)
    ensures DebtIsSafe(limit, offset, s')
  {
    assert Held(s.counter, step.id) == Claimed(s.tasks[step.id].skipped, s.tasks[step.id].taken);
    if step.Start? && s'.counter.remainingTake == 0 && s.tasks[step.id].skipped > 0 {
      DebtorsAreHarmless(limit, offset, rows, s, step.id);
    }
  }

  lemma {:induction false} RunCovered(limit: nat, offset: nat, rows: seq<nat>, s: State, run: seq<Step>)
    requires Inv(limit, offset, rows, s) && Legal(s, run) && offset + limit <= Total(rows)
    requires Covered(s) && DebtIsSafe(limit, offset, s)
    requires forall z, k :: !Endangers(limit, offset, rows, z, k)
    ensures Covered(After(s, run))
    decreases |run|
  {
    if run == [] {
    } else {
      var next := Apply(s, run[0]);
      StepInv(limit, offset, rows, s, run[0]);
      StepCovered(limit, offset, rows, s, run[0], next);
      StepDebt(limit, offset, rows, s, run[0], next);
      RunCovered(limit, offset, rows, next, run[1..]);
    }
  }

  lemma InitCovered(limit: nat, offset: nat, rows: seq<nat>)
    requires offset + limit <= Total(rows)
    ensures Covered(Init(limit, offset, rows)) && DebtIsSafe(limit, offset, Init(limit, offset, rows))
  {
    var tasks := Init(limit, offset, rows).tasks;
    AllUnclaimed(tasks);
    RowsTotal(tasks, rows);
  }

  lemma CoveredCount(limit: nat, offset: nat, rows: seq<nat>, run: seq<Step>, s: State)
    requires Reaches(limit, offset, rows, run, s) && Quiescent(s) && Covered(s) && offset + limit <= Total(rows)
    ensures Sum(s.tasks, Taken) == Expected(limit, offset, rows)
  {
    ReachableInv(limit, offset, rows, run, s);
    SumZero(s.tasks, Unclaimed);
  }

  /** With enough rows and no endangering pair, every run that has offered all its rows holds the whole limit. */
  lemma LongInputTakesExactly(limit: nat, offset: nat, rows: seq<nat>, run: seq<Step>, s: State)
    requires Reaches(limit, offset, rows, run, s) && Quiescent(s) && offset + limit <= Total(rows)
    requires forall z, k :: !Endangers(limit, offset, rows, z, k)
    ensures Sum(s.tasks, Taken) == Expected(limit, offset, rows)
  {
    assert Covered(s) by {
      InitCovered(limit, offset, rows);
      InitInv(limit, offset, rows);
      RunCovered(limit, offset, rows, Init(limit, offset, rows), run);
    }
    CoveredCount(limit, offset, rows, run, s);
  }

  lemma {:induction false} AllUnclaimed(ts: seq<Task>)
    requires forall i :: 0 <= i < |ts| ==> ts[i].unclaimed == ts[i].rows
    ensures Sum(ts, Unclaimed) == Sum(ts, Rows)
  {
    if ts == [] {
    } else {
      AllUnclaimed(ts[..|ts| - 1]);
    }
  }

  /** Too few rows to use up the budget: the limit is never reached. */
  lemma {:induction false} ShortInputIsClean(limit: nat, offset: nat, rows: seq<nat>, s: State, run: seq<Step>)
    requires limit > 0 && Total(rows) < offset + limit && Inv(limit, offset, rows, s) && Legal(s, run)
    ensures Clean(s, run)
    decreases |run|
  {
    if run == [] {
    } else {
      RowsSplit(s.tasks);
      RowsTotal(s.tasks, rows);
      StepInv(limit, offset, rows, s, run[0]);
      ShortInputIsClean(limit, offset, rows, Apply(s, run[0]), run[1..]);
    }
  }

  lemma ShortInputTakesExactly(limit: nat, offset: nat, rows: seq<nat>, run: seq<Step>, s: State)
    requires Reaches(limit, offset, rows, run, s) && Quiescent(s) && limit > 0 && Total(rows) < offset + limit
    ensures Sum(s.tasks, Taken) == Expected(limit, offset, rows)
  {
    assert Clean(Init(limit, offset, rows), run) by {
      InitInv(limit, offset, rows);
      ShortInputIsClean(limit, offset, rows, Init(limit, offset, rows), run);
    }
    CleanRunTakesExactly(limit, offset, rows, run, s);
  }

  lemma SafeInputTakesExactly(limit: nat, offset: nat, rows: seq<nat>, run: seq<Step>, s: State)
    requires Reaches(limit, offset, rows, run, s) && Quiescent(s) && !CanUndercount(limit, offset, rows)
    ensures Sum(s.tasks, Taken) == Expected(limit, offset, rows)
  {
    if limit == 0 {
      NeverOvertakes(limit, offset, rows, run, s);
    } else if offset == 0 {
      NoOffsetTakesExactly(limit, offset, rows, run, s);
    } else if Total(rows) < offset + limit {
      ShortInputTakesExactly(limit, offset, rows, run, s);
    } else {
      LongInputTakesExactly(limit, offset, rows, run, s);
    }
  }

  // ---------------------------------------------------------------- building runs

  predicate Continues(s: State, run: seq<Step>, end: State) {
    Legal(s, run) && After(s, run) == end
  }

  lemma {:induction false} Then(s: State, run: seq<Step>, mid: State, rest: seq<Step>, end: State)
    requires Continues(s, run, mid) && Continues(mid, rest, end)
    ensures Continues(s, run + rest, end)
    decreases |run|
  {
    if run == [] {
      assert run + rest == rest;
    } else {
      Then(Apply(s, run[0]), run[1..], mid, rest, end);
      assert (run + rest)[1..] == run[1..] + rest;
    }
  }

  lemma ThenStep(s: State, run: seq<Step>, mid: State, step: Step, end: State)
    requires Continues(s, run, mid) && Enabled(mid, step) && end == Apply(mid, step)
    ensures Continues(s, run + [step], end)
  {
    assert [step][1..] == [];
    assert Continues(mid, [step], end);
    Then(s, run, mid, [step], end);
  }

  /** Every task is started once. */
  lemma {:induction false} StartAll(limit: nat, offset: nat, rows: seq<nat>, m: nat)
    returns (run: seq<Step>, end: State)
    requires m <= |rows|
    ensures Continues(Init(limit, offset, rows), run, end) && end.counter == Counter(offset, limit, map[])
    ensures |end.tasks| == |rows|
    ensures forall i :: 0 <= i < |rows| ==> end.tasks[i] == Task(rows[i], i < m, rows[i], 0, 0, 0)
  {
    if m == 0 {
      run, end := [], Init(limit, offset, rows);
    } else {
      var mid;
      run, mid := StartAll(limit, offset, rows, m - 1);
      end := Apply(mid, Start(m - 1));
      ThenStep(Init(limit, offset, rows), run, mid, Start(m - 1), end);
      assert end.counter.claims == map[];
      run := run + [Start(m - 1)];
    }
  }

  function Budget(c: Counter): nat {
    c.remainingSkip + c.remainingTake
  }

  /** An offer below the budget is claimed whole, one at or above it exhausts the counter. */
  lemma OfferSpends(c: Counter, id: TaskId, n: nat)
    requires c.remainingTake > 0
    ensures var r := ReplyTo(c, n);
            && r.skip == Min(c.remainingSkip, n) && r.skip + r.take == Min(Budget(c), n)
            && Grant(c, id, n).remainingSkip == c.remainingSkip - r.skip
            && Grant(c, id, n).remainingTake == c.remainingTake - r.take
  {
  }

  lemma OfferEffect(s: State, id: nat, n: nat, s': State)
    requires Enabled(s, Offer(id, n)) && s.counter.remainingTake > 0 && s' == Apply(s, Offer(id, n))
    ensures s'.tasks == s.tasks[id := s'.tasks[id]]
    ensures s'.counter.remainingSkip == s.counter.remainingSkip - Min(s.counter.remainingSkip, n)
    ensures Budget(s'.counter) == Budget(s.counter) - Min(Budget(s.counter), n)
    ensures s'.tasks[id].unclaimed == s.tasks[id].unclaimed - n
  {
    OfferSpends(s.counter, id, n);
  }

  /** Rows among the first `m` tasks that belong neither to `z` nor to `k`. */
  function Others(rows: seq<nat>, z: nat, k: nat, m: nat): nat
    requires m <= |rows|
  {
    if m == 0 then 0 else Others(rows, z, k, m - 1) + if m - 1 == z || m - 1 == k then 0 else rows[m - 1]
  }

  lemma {:induction false} OthersUpTo(rows: seq<nat>, z: nat, k: nat, m: nat)
    requires m <= |rows| && z < |rows| && k < |rows| && z != k
    ensures Total(rows[..m]) == Others(rows, z, k, m) + (if z < m then rows[z] else 0) + if k < m then rows[k] else 0
  {
    if m == 0 {
    } else {
      OthersUpTo(rows, z, k, m - 1);
      assert rows[..m][..m - 1] == rows[..m - 1];
    }
  }

  lemma OthersTotal(rows: seq<nat>, z: nat, k: nat)
    requires z < |rows| && k < |rows| && z != k
    ensures Total(rows) == Others(rows, z, k, |rows|) + rows[z] + rows[k]
  {
    OthersUpTo(rows, z, k, |rows|);
    assert rows[..|rows|] == rows;
  }

  /** Tasks before `m` other than `z` and `k` are running and have offered nothing. */
  ghost predicate Ready(rows: seq<nat>, s: State, z: nat, k: nat, m: nat) {
    && m <= |rows| == |s.tasks|
    && forall i :: 0 <= i < m && i != z && i != k ==> s.tasks[i].running && s.tasks[i].unclaimed == rows[i]
  }

  /** The other tasks offer `x` rows between them, less than the budget. */
  lemma {:induction false} OfferOthers(rows: seq<nat>, s: State, z: nat, k: nat, m: nat, x: nat)
    returns (run: seq<Step>, end: State)
    requires Ready(rows, s, z, k, m) && z < |rows| && k < |rows|
    requires x <= Others(rows, z, k, m) && x < Budget(s.counter) && s.counter.remainingTake > 0
    ensures Continues(s, run, end) && |end.tasks| == |s.tasks|
    ensures end.tasks[z] == s.tasks[z] && end.tasks[k] == s.tasks[k]
    ensures end.counter.remainingSkip == s.counter.remainingSkip - Min(s.counter.remainingSkip, x)
    ensures Budget(end.counter) == Budget(s.counter) - x
    decreases m
  {
    if m == 0 {
      run, end := [], s;
    } else if m - 1 == z || m - 1 == k {
      run, end := OfferOthers(rows, s, z, k, m - 1, x);
    } else {
      var y := Min(x, rows[m - 1]);
      var step := Offer(m - 1, y);
      var mid := Apply(s, step);
      OfferEffect(s, m - 1, y, mid);
      var rest;
      rest, end := OfferOthers(rows, mid, z, k, m - 1, x - y);
      run := [] + [step];
      ThenStep(s, [], s, step, mid);
      Then(s, run, mid, rest, end);
      run := run + rest;
    }
  }

  /** At the limit, every task before `m` abandons the rest of its rows. */
  lemma {:induction false} CancelAll(s: State, m: nat) returns (run: seq<Step>, end: State)
    requires m <= |s.tasks| && s.counter.remainingTake == 0
    ensures Continues(s, run, end) && end.counter == s.counter && |end.tasks| == |s.tasks|
    ensures forall i :: 0 <= i < m ==> end.tasks[i].unclaimed == 0
    ensures forall i :: 0 <= i < |s.tasks| ==>
              end.tasks[i].rows == s.tasks[i].rows && end.tasks[i].skipped == s.tasks[i].skipped
              && end.tasks[i].taken == s.tasks[i].taken
  {
    if m == 0 {
      run, end := [], s;
    } else {
      var mid;
      run, mid := CancelAll(s, m - 1);
      end := Apply(mid, Cancel(m - 1));
      ThenStep(s, run, mid, Cancel(m - 1), end);
      run := run + [Cancel(m - 1)];
    }
  }

  // ---------------------------------------------------------------- a run that ends short

  /** Rows of `z` that are skipped before anyone else claims. */
  function SkippedFirst(offset: nat, rows: seq<nat>, z: nat): nat
    requires z < |rows|
  {
    Min(rows[z], offset)
  }

  /** Rows of `k` that are claimed when it claims last, so that its claim reaches the limit. */
  function ClaimedLast(limit: nat, offset: nat, rows: seq<nat>, z: nat, k: nat): nat
    requires z < |rows| && k < |rows|
  {
    Min(rows[k], offset - SkippedFirst(offset, rows, z) + limit)
  }

  /** Of those, the rows that are taken. */
  function TakenLast(limit: nat, offset: nat, rows: seq<nat>, z: nat, k: nat): nat
    requires z < |rows| && k < |rows|
  {
    Min(limit, ClaimedLast(limit, offset, rows, z, k))
  }

  /** How many rows the run below ends short. */
  function Loss(limit: nat, offset: nat, rows: seq<nat>, z: nat, k: nat): nat
    requires z < |rows| && k < |rows| && rows[k] < offset + limit
  {
    Min(TakenLast(limit, offset, rows, z, k),
        SkippedFirst(offset, rows, z) + ClaimedLast(limit, offset, rows, z, k) - rows[k])
  }

  /** Task `z` has only skipped, task `k` has claimed its rows, and the limit is reached. */
  ghost predicate Saturated(limit: nat, offset: nat, rows: seq<nat>, z: nat, k: nat, s: State) {
    && z < |rows| && k < |rows| == |s.tasks| && s.counter.remainingSkip == s.counter.remainingTake == 0
    && s.tasks[z].skipped == SkippedFirst(offset, rows, z) && s.tasks[z].taken == 0
    && s.tasks[k].skipped + s.tasks[k].taken == ClaimedLast(limit, offset, rows, z, k)
    && s.tasks[k].taken == TakenLast(limit, offset, rows, z, k)
  }

  /** Everyone is started and `z` has offered its first rows, all of them skipped. */
  lemma SkipFirst(limit: nat, offset: nat, rows: seq<nat>, z: nat, first: nat) returns (run: seq<Step>, end: State)
    requires limit > 0 && z < |rows| && first == SkippedFirst(offset, rows, z)
    ensures Reaches(limit, offset, rows, run, end) && |end.tasks| == |rows|
    ensures end.counter.remainingSkip == offset - first && end.counter.remainingTake == limit
    ensures end.tasks[z].skipped == first && end.tasks[z].taken == 0
    ensures forall i :: 0 <= i < |rows| && i != z ==> end.tasks[i] == Task(rows[i], true, rows[i], 0, 0, 0)
  {
    var start := Init(limit, offset, rows);
    var s;
    run, s := StartAll(limit, offset, rows, |rows|);
    OfferSpends(s.counter, z, first);
    end := Apply(s, Offer(z, first));
    ThenStep(start, run, s, Offer(z, first), end);
    run := run + [Offer(z, first)];
  }

  /** Others offer rows until the claim of `k` reaches the limit. */
  lemma FillUp(limit: nat, offset: nat, rows: seq<nat>, z: nat, k: nat, s: State) returns (run: seq<Step>, end: State)
    requires limit > 0 && Endangers(limit, offset, rows, z, k) && Ready(rows, s, z, k, |rows|)
    requires s.counter.remainingSkip == offset - SkippedFirst(offset, rows, z) && s.counter.remainingTake == limit
    requires s.tasks[k] == Task(rows[k], true, rows[k], 0, 0, 0)
    requires s.tasks[z].skipped == SkippedFirst(offset, rows, z) && s.tasks[z].taken == 0
    ensures Continues(s, run, end) && Saturated(limit, offset, rows, z, k, end)
  {
    OthersTotal(rows, z, k);
    var mid;
    run, mid := OfferOthers(rows, s, z, k, |rows|, Budget(s.counter) - ClaimedLast(limit, offset, rows, z, k));
    OfferSpends(mid.counter, k, rows[k]);
    end := Apply(mid, Offer(k, rows[k]));
    ThenStep(s, run, mid, Offer(k, rows[k]), end);
    run := run + [Offer(k, rows[k])];
  }

  lemma Saturate(limit: nat, offset: nat, rows: seq<nat>, z: nat, k: nat) returns (run: seq<Step>, end: State)
    requires limit > 0 && Endangers(limit, offset, rows, z, k)
    ensures Reaches(limit, offset, rows, run, end) && Saturated(limit, offset, rows, z, k, end)
  {
    var s;
    run, s := SkipFirst(limit, offset, rows, z, SkippedFirst(offset, rows, z));
    var rest;
    rest, end := FillUp(limit, offset, rows, z, k, s);
    Then(Init(limit, offset, rows), run, s, rest, end);
    run := run + rest;
  }

  /** Task `z` restarts and everyone is turned away: its skips are outstanding and nobody has rows left. */
  lemma TurnAway(limit: nat, offset: nat, rows: seq<nat>, z: nat, k: nat, s: State) returns (run: seq<Step>, end: State)
    requires Inv(limit, offset, rows, s) && Saturated(limit, offset, rows, z, k, s) && z != k
    ensures Continues(s, run, end) && Inv(limit, offset, rows, end) && Quiescent(end)
    ensures end.counter.remainingSkip == SkippedFirst(offset, rows, z) && end.counter.remainingTake == 0
    ensures end.tasks[k].skipped == s.tasks[k].skipped && end.tasks[k].taken == s.tasks[k].taken
  {
    var mid := Apply(s, Start(z));
    assert Held(s.counter, z) == Claimed(s.tasks[z].skipped, s.tasks[z].taken);
    ThenStep(s, [], s, Start(z), mid);
    StepInv(limit, offset, rows, s, Start(z));
    var rest;
    rest, end := CancelAll(mid, |rows|);
    run := [] + [Start(z)];
    Then(s, run, mid, rest, end);
    RunInv(limit, offset, rows, mid, rest);
    run := run + rest;
  }

  /** Then task `k` restarts and is charged the skips of `z`. */
  lemma Charge(limit: nat, offset: nat, rows: seq<nat>, s: State, k: nat) returns (run: seq<Step>, end: State)
    requires Inv(limit, offset, rows, s) && Quiescent(s) && k < |rows|
    requires s.counter.remainingTake == 0 && s.tasks[k].taken > 0
    requires s.counter.remainingSkip + s.tasks[k].skipped + s.tasks[k].taken >= rows[k]
    ensures Continues(s, run, end) && Quiescent(end)
    ensures end.counter.remainingTake
         == Min(s.tasks[k].taken, s.counter.remainingSkip + s.tasks[k].skipped + s.tasks[k].taken - rows[k])
  {
    var mid := Apply(s, Start(k));
    assert Held(s.counter, k) == Claimed(s.tasks[k].skipped, s.tasks[k].taken);
    ThenStep(s, [], s, Start(k), mid);
    run := [] + [Start(k)];
    end := Apply(mid, Offer(k, rows[k]));
    OfferEffect(mid, k, rows[k], end);
    ThenStep(s, run, mid, Offer(k, rows[k]), end);
    run := run + [Offer(k, rows[k])];
  }

  lemma Lose(limit: nat, offset: nat, rows: seq<nat>, z: nat, k: nat, s: State) returns (run: seq<Step>, end: State)
    requires limit > 0 && offset > 0 && Endangers(limit, offset, rows, z, k)
    requires Inv(limit, offset, rows, s) && Saturated(limit, offset, rows, z, k, s)
    ensures Continues(s, run, end) && Quiescent(end)
    ensures end.counter.remainingTake == Loss(limit, offset, rows, z, k)
  {
    var mid;
    run, mid := TurnAway(limit, offset, rows, z, k, s);
    var rest;
    rest, end := Charge(limit, offset, rows, mid, k);
    Then(s, run, mid, rest, end);
    run := run + rest;
  }

  /** An endangering pair of tasks has a run that ends short by `Loss` rows. */
  lemma EndangeredRun(limit: nat, offset: nat, rows: seq<nat>, z: nat, k: nat) returns (run: seq<Step>, end: State)
    requires limit > 0 && offset > 0 && Endangers(limit, offset, rows, z, k)
    ensures Reaches(limit, offset, rows, run, end) && Quiescent(end)
    ensures Sum(end.tasks, Taken) == limit - Loss(limit, offset, rows, z, k) < limit == Expected(limit, offset, rows)
  {
    var s;
    run, s := Saturate(limit, offset, rows, z, k);
    ReachableInv(limit, offset, rows, run, s);
    var rest;
    rest, end := Lose(limit, offset, rows, z, k, s);
    Then(Init(limit, offset, rows), run, s, rest, end);
    run := run + rest;
    ReachableInv(limit, offset, rows, run, end);
  }

  ghost predicate EndsShort(limit: nat, offset: nat, rows: seq<nat>, run: seq<Step>, s: State) {
    Reaches(limit, offset, rows, run, s) && Quiescent(s) && Sum(s.tasks, Taken) != Expected(limit, offset, rows)
  }

  /** Some run that has offered all its rows misses LIMIT/OFFSET if and only if the input allows it. */
  lemma UndercountIff(limit: nat, offset: nat, rows: seq<nat>)
    ensures (exists run, s :: EndsShort(limit, offset, rows, run, s)) <==> CanUndercount(limit, offset, rows)
  {
    if CanUndercount(limit, offset, rows) {
      var z, k :| Endangers(limit, offset, rows, z, k);
      var run, s := EndangeredRun(limit, offset, rows, z, k);
      assert EndsShort(limit, offset, rows, run, s);
    } else {
      forall run, s | Reaches(limit, offset, rows, run, s) && Quiescent(s)
        ensures !EndsShort(limit, offset, rows, run, s)
      {
        SafeInputTakesExactly(limit, offset, rows, run, s);
      }
    }
  }

  /** OFFSET k LIMIT k over two tasks of k rows: a run that takes nothing instead of k. */
  lemma EverythingCanBeLost(k: nat) returns (run: seq<Step>, end: State)
    requires k > 0
    ensures Reaches(k, k, [k, k], run, end) && Quiescent(end)
    ensures Sum(end.tasks, Taken) == 0 && Expected(k, k, [k, k]) == k
  {
    var rows := [k, k];
    assert Total(rows[..1]) == Total(rows[..1][..0]) + k == k;
    run, end := EndangeredRun(k, k, rows, 0, 1);
  }
}
