/**
 When the router's report can be trusted, and that it can always still come.  The report is safe in
 every continuation exactly when the last completion was timely; and from every reachable state the
 deployment can go on until the router reports completion.
 */
module VllmCompletion {
  import opened Options
  import opened LocalExecutor
  import opened VllmSystem
  import PrefixRouter

  // ---------------------------------------------------------------- continuing a run

  /** `run` can happen from `s`, timely throughout, and ends in `end`. */
  predicate Continues(s: System, run: seq<Act>, model: Model, end: System) {
    VllmSystem.Legal(s, run, model) && VllmSystem.After(s, run, model) == end
  }

  lemma {:induction false} Then(s: System, run: seq<Act>, model: Model, mid: System, rest: seq<Act>, end: System)
    requires Continues(s, run, model, mid) && Continues(mid, rest, model, end)
    ensures Continues(s, run + rest, model, end)
    decreases |run|
  {
    if run == [] {
      assert run + rest == rest;
    } else {
      Then(Do(s, run[0], model), run[1..], model, mid, rest, end);
      assert (run + rest)[1..] == run[1..] + rest;
    }
  }

  lemma Prepend(s: System, act: Act, model: Model, mid: System, rest: seq<Act>, end: System) returns (run: seq<Act>)
    requires Possible(s, act) && Timely(s, act) && mid == Do(s, act, model) && Continues(mid, rest, model, end)
    ensures Continues(s, run, model, end)
  {
    run := [act] + rest;
    assert run[1..] == rest;
  }

  lemma {:induction false} RunConserves(s: System, run: seq<Act>, model: Model, end: System, t: Task)
    requires Sane(s, model) && Continues(s, run, model, end)
    ensures Sane(end, model) && Everything(end, t) == Everything(s, t) + Sent(run, t)
    decreases |run|
  {
    if run == [] {
    } else {
      var next := Do(s, run[0], model);
      StepSane(s, run[0], model);
      StepConserves(s, run[0], model, t);
      RunConserves(next, run[1..], model, end, t);
    }
  }

  lemma {:induction false} SentConcat(run: seq<Act>, rest: seq<Act>, t: Task)
    ensures Sent(run + rest, t) == Sent(run, t) + Sent(rest, t)
  {
    if run == [] {
      assert run + rest == rest;
    } else {
      SentConcat(run[1..], rest, t);
      assert (run + rest)[1..] == run[1..] + rest;
    }
  }

  // ---------------------------------------------------------------- draining

  /** Every accepted task has been popped. */
  predicate Empty(l: Local) {
    l.posting == multiset{} && l.scheduled == multiset{} && l.appended == 0 && l.completed == []
  }

  function Load(l: Local): nat {
    4 * |l.posting| + 3 * |l.scheduled| + l.appended + |l.completed|
  }

  /** A local executor that still holds something can take a step towards being empty. */
  lemma NextStep(l: Local, model: Model) returns (step: LocalExecutor.Step)
    requires !Empty(l)
    ensures LocalExecutor.Enabled(l, step) && !step.SubmitStep? && !step.FinishStep?
    ensures Load(LocalExecutor.Apply(l, step, model)) < Load(l)
    ensures LocalExecutor.Apply(l, step, model).finished == l.finished
  {
    if l.appended > 0 {
      step := DecrementStep;
    } else if l.completed != [] {
      step := PopStep;
    } else if l.posting != multiset{} {
      var t :| t in l.posting;
      step := PostStep(t);
    } else {
      var t :| t in l.scheduled;
      step := AppendStep(t);
    }
  }

  /** `end` differs from `s` in local executor `i` only. */
  predicate OnlyLocal(s: System, i: nat, end: System) {
    i < |s.locals| == |end.locals| && end == s.(locals := s.locals[i := end.locals[i]])
  }

  /** Coroutines and polls at executor `i` until nothing is left there. */
  lemma {:induction false} Drain(s: System, i: nat, model: Model) returns (run: seq<Act>, end: System)
    requires Sane(s, model) && i < |s.locals|
    ensures Continues(s, run, model, end) && Sane(end, model) && OnlyLocal(s, i, end)
    ensures Empty(end.locals[i]) && end.locals[i].finished == s.locals[i].finished
    decreases Load(s.locals[i])
  {
    if Empty(s.locals[i]) {
      run, end := [], s;
    } else {
      var step := NextStep(s.locals[i], model);
      var act := LocalStep(i, step);
      var mid := Do(s, act, model);
      StepSane(s, act, model);
      var rest;
      rest, end := Drain(mid, i, model);
      run := Prepend(s, act, model, mid, rest, end);
    }
  }

  /** Local executor `i` has been told that no task will follow, or is about to be. */
  predicate Told(s: System, i: nat)
    requires i < |s.locals|
  {
    s.locals[i].finished || i in s.router.notices
  }

  /** Executor `i` is drained and told. */
  lemma SettleOne(s: System, i: nat, model: Model) returns (run: seq<Act>, end: System)
    requires Sane(s, model) && i < |s.locals| && Told(s, i)
    ensures Continues(s, run, model, end) && Sane(end, model)
    ensures |end.locals| == |s.locals| && end.remotes == s.remotes && AllTasksFinished(end.locals[i])
    ensures end.router == s.router.(notices := end.router.notices)
    ensures forall k :: 0 <= k < |s.locals| && k != i ==> end.locals[k] == s.locals[k] && (Told(end, k) <==> Told(s, k))
  {
    var mid;
    run, mid := Drain(s, i, model);
    assert LocalExecutor.Inv(mid.locals[i], model) && mid.locals[i].running == 0;
    if mid.locals[i].finished {
      end := mid;
    } else {
      end := Do(mid, Notice(i), model);
      StepSane(mid, Notice(i), model);
      var rest := Prepend(mid, Notice(i), model, end, [], end);
      Then(s, run, model, mid, rest, end);
      run := run + rest;
    }
  }

  lemma {:induction false} Settle(s: System, m: nat, model: Model) returns (run: seq<Act>, end: System)
    requires Sane(s, model) && m <= |s.locals| && forall i :: 0 <= i < |s.locals| ==> Told(s, i)
    ensures Continues(s, run, model, end) && Sane(end, model)
    ensures |end.locals| == |s.locals| && end.remotes == s.remotes
    ensures end.router == s.router.(notices := end.router.notices)
    ensures forall i :: 0 <= i < m ==> AllTasksFinished(end.locals[i])
    ensures forall i :: m <= i < |s.locals| ==> Told(end, i)
    decreases m
  {
    if m == 0 {
      run, end := [], s;
    } else {
      var mid;
      run, mid := Settle(s, m - 1, model);
      var rest;
      rest, end := SettleOne(mid, m - 1, model);
      Then(s, run, model, mid, rest, end);
      run := run + rest;
    }
  }

  ghost predicate AllFinished(s: System) {
    forall i :: 0 <= i < |s.locals| ==> AllTasksFinished(s.locals[i])
  }

  /** `finished` is what the local executors answer. */
  ghost predicate Answering(s: System, finished: nat -> bool) {
    forall i: nat :: i < |s.locals| ==> (finished(i) <==> AllTasksFinished(s.locals[i]))
  }

  /** The call under way, seen as a call on the list with the executor being asked in front. */
  lemma {:induction false} AnswersAreAPoll(s: System, model: Model, finished: nat -> bool, list: seq<nat>)
    returns (run: seq<Act>, end: System)
    requires Sane(s, model) && Answering(s, finished)
    requires s.router.checking.Some? && list == [s.router.checking.value] + s.router.pollList
    ensures Continues(s, run, model, end) && (forall act :: act in run ==> act.PollAnswer?)
    ensures end == s.(router := s.router.(checking := None, pollList := PrefixRouter.PollNext(list, finished).list))
    decreases |list|
  {
    var i, rest := s.router.checking.value, s.router.pollList;
    assert list[0] == i && list[1..] == rest;
    var mid := Do(s, PollAnswer, model);
    StepSane(s, PollAnswer, model);
    var more;
    if finished(i) && rest != [] {
      assert rest == [rest[0]] + rest[1..];
      more, end := AnswersAreAPoll(mid, model, finished, rest);
    } else {
      more, end := [], mid;
    }
    run := [PollAnswer] + more;
    assert run[1..] == more;
  }

  /** Asking and answering until the router is free again is one call of the router's polling rule. */
  lemma PollIsPollNext(s: System, model: Model, finished: nat -> bool) returns (run: seq<Act>, end: System)
    requires Sane(s, model) && Answering(s, finished) && Idle(s.router)
    ensures Continues(s, run, model, end) && forall act :: act in run ==> act.PollAsk? || act.PollAnswer?
    ensures end == s.(router := s.router.(pollList := PrefixRouter.PollNext(s.router.pollList, finished).list))
  {
    var list := s.router.pollList;
    if list == [] {
      run, end := [], s;
    } else {
      var mid := Do(s, PollAsk, model);
      StepSane(s, PollAsk, model);
      assert list == [list[0]] + list[1..];
      var more;
      more, end := AnswersAreAPoll(mid, model, finished, list);
      run := [PollAsk] + more;
      assert run[1..] == more;
    }
  }

  /** With every local executor finished, the call under way empties the poll list. */
  lemma {:induction false} AnswerOut(s: System, model: Model) returns (run: seq<Act>, end: System)
    requires Sane(s, model) && AllFinished(s) && s.router.checking.Some?
    ensures Continues(s, run, model, end) && ReportsFinished(end)
    ensures end.locals == s.locals && end.remotes == s.remotes
    decreases |s.router.pollList|
  {
    var mid := Do(s, PollAnswer, model);
    StepSane(s, PollAnswer, model);
    var rest;
    if s.router.pollList == [] {
      rest, end := [], mid;
    } else {
      rest, end := AnswerOut(mid, model);
    }
    run := Prepend(s, PollAnswer, model, mid, rest, end);
  }

  lemma PollOut(s: System, model: Model) returns (run: seq<Act>, end: System)
    requires Sane(s, model) && AllFinished(s) && Idle(s.router)
    ensures Continues(s, run, model, end) && ReportsFinished(end)
    ensures end.locals == s.locals && end.remotes == s.remotes
  {
    if s.router.pollList == [] {
      run, end := [], s;
    } else {
      var mid := Do(s, PollAsk, model);
      StepSane(s, PollAsk, model);
      var rest;
      rest, end := AnswerOut(mid, model);
      run := Prepend(s, PollAsk, model, mid, rest, end);
    }
  }

  /** Once every local executor has been told, the router can come to report completion. */
  lemma ToldCanFinish(s: System, model: Model) returns (run: seq<Act>, end: System)
    requires Sane(s, model) && Idle(s.router) && forall i :: 0 <= i < |s.locals| ==> Told(s, i)
    ensures Continues(s, run, model, end) && ReportsFinished(end)
    ensures |end.locals| == |s.locals| && end.remotes == s.remotes
  {
    var mid;
    run, mid := Settle(s, |s.locals|, model);
    var rest;
    rest, end := PollOut(mid, model);
    Then(s, run, model, mid, rest, end);
    run := run + rest;
  }

  // ---------------------------------------------------------------- an untimely completion

  lemma {:induction false} TransitAtLeast(rs: seq<Remote>, j: nat, t: Task)
    requires j < |rs|
    ensures Batch(rs[j], t) <= InTransit(rs, t)
    decreases |rs|
  {
    if j == |rs| - 1 {
    } else {
      TransitAtLeast(rs[..|rs| - 1], j, t);
    }
  }

  /** An executor the router has not heard of, and which has no batch accepted for routing. */
  predicate Late(s: System, j: nat) {
    j < |s.remotes| && !Committed(s.remotes[j]) && !s.remotes[j].phase.Routed?
  }

  lemma SubmitNow(s: System, j: nat, t: Task, model: Model) returns (run: seq<Act>, end: System)
    requires ReportsFinished(s) && j < |s.remotes| && (s.remotes[j].phase.Ready? || s.remotes[j].phase.Unborn?)
    ensures Continues(s, run, model, end) && ReportsFinished(end) && InTransit(end.remotes, t) > 0
  {
    var mid := if s.remotes[j].phase.Unborn? then Do(s, Construct(j), model) else s;
    end := Do(mid, BeginSubmit(j, [t]), model);
    run := Prepend(mid, BeginSubmit(j, [t]), model, end, [], end);
    if s.remotes[j].phase.Unborn? {
      run := Prepend(s, Construct(j), model, mid, run, end);
    }
    TransitAtLeast(end.remotes, j, t);
  }

  /** An empty batch that waits for the router gets through, and another follows. */
  lemma SubmitAgain(s: System, j: nat, t: Task, model: Model) returns (run: seq<Act>, end: System)
    requires ReportsFinished(s) && j < |s.remotes| && s.remotes[j] == Remote(Routing([]), false) && |s.locals| > 0
    ensures Continues(s, run, model, end) && ReportsFinished(end) && InTransit(end.remotes, t) > 0
  {
    var s1 := Do(s, ReportStart(j), model);
    var s2 := Do(s1, Route(j, 0), model);
    var s3 := Do(s2, Deliver(j), model);
    run, end := SubmitNow(s3, j, t, model);
    run := Prepend(s2, Deliver(j), model, s3, run, end);
    run := Prepend(s1, Route(j, 0), model, s2, run, end);
    run := Prepend(s, ReportStart(j), model, s1, run, end);
  }

  /** A late executor can have a task under way although the router reports completion. */
  lemma LateSubmission(s: System, j: nat, model: Model) returns (run: seq<Act>, end: System, t: Task)
    requires ReportsFinished(s) && Late(s, j) && |s.locals| > 0
    ensures Continues(s, run, model, end) && ReportsFinished(end) && InTransit(end.remotes, t) > 0
  {
    t := Task("", 0);
    if !s.remotes[j].phase.Routing? {
      run, end := SubmitNow(s, j, t, model);
    } else if s.remotes[j].phase.batch == [] {
      run, end := SubmitAgain(s, j, t, model);
    } else {
      run, end, t := [], s, s.remotes[j].phase.batch[0];
      TransitAtLeast(s.remotes, j, t);
    }
  }

  lemma {:induction false} PoppedIsOwned(ls: seq<Local>, t: Task)
    ensures AllPopped(ls, t) <= AllOwned(ls, t)
  {
    if ls == [] {
    } else {
      PoppedIsOwned(ls[..|ls| - 1], t);
      PoppedIsCounted(ls[|ls| - 1].popped, ls[|ls| - 1].completed, t);
    }
  }

  lemma {:induction false} PoppedIsCounted(a: seq<Done>, b: seq<Done>, t: Task)
    ensures TasksOf(a)[t] <= TasksOf(a + b)[t]
    decreases |b|
  {
    if b == [] {
      assert a + b == a;
    } else {
      PoppedIsCounted(a, b[..|b| - 1], t);
      assert (a + b)[..|a + b| - 1] == a + b[..|b| - 1];
    }
  }

  /** After an untimely completion everyone is told while some executor is late. */
  lemma UntimelyEffect(s: System, j: nat, model: Model, s': System) returns (late: nat)
    requires VllmSystem.Inv(s, model) && Possible(s, ReportCompletion(j)) && !Timely(s, ReportCompletion(j))
    requires s' == Do(s, ReportCompletion(j), model)
    ensures Sane(s', model) && Idle(s'.router) && Late(s', late)
    ensures forall i :: 0 <= i < |s'.locals| ==> Told(s', i)
  {
    late :| 0 <= late < |s.remotes| && !Committed(s.remotes[late]);
    StepSane(s, ReportCompletion(j), model);
  }

  /** An untimely completion lets the router report completion with a task outstanding. */
  lemma UntimelyIsUnsafe(s: System, j: nat, model: Model, s': System) returns (run: seq<Act>, end: System, t: Task)
    requires VllmSystem.Inv(s, model) && |s.locals| > 0
    requires Possible(s, ReportCompletion(j)) && !Timely(s, ReportCompletion(j))
             && s' == Do(s, ReportCompletion(j), model)
    ensures Continues(s', run, model, end) && ReportsFinished(end)
    ensures Everything(end, t) > AllPopped(end.locals, t)
  {
    var late := UntimelyEffect(s, j, model, s');
    var mid;
    run, mid := ToldCanFinish(s', model);
    var rest;
    rest, end, t := LateSubmission(mid, late, model);
    Then(s', run, model, mid, rest, end);
    run := run + rest;
    PoppedIsOwned(end.locals, t);
  }

  lemma ReachableInv(n: nat, m: nat, run: seq<Act>, model: Model, start: System, s: System, t: Task)
    requires start == VllmSystem.Init(n, m) && Continues(start, run, model, s)
    ensures VllmSystem.Inv(s, model) && |s.locals| == n && |s.remotes| == m && Everything(s, t) == Sent(run, t)
  {
    InitInv(n, m, model);
    InitHoldsNothing(n, m, start, t);
    VllmSystem.RunInv(start, run, model, s, t);
  }

  /** Everything submitted by `run`, which ends in `s`, has been popped as often as it was submitted. */
  ghost predicate Delivered(run: seq<Act>, s: System) {
    forall t :: Sent(run, t) == AllPopped(s.locals, t)
  }

  /** However the run goes on after `s'`, timely from there, a report of completion is true. */
  ghost predicate Trustworthy(run: seq<Act>, s': System, model: Model) {
    forall rest, end :: Continues(s', rest, model, end) && ReportsFinished(end) ==> Delivered(run + rest, end)
  }

  lemma {:induction false} TimelyIsTrustworthy(n: nat, m: nat, run: seq<Act>, model: Model, start: System, s: System,
                                               rest: seq<Act>, end: System)
    requires n > 0 && start == VllmSystem.Init(n, m) && Continues(start, run, model, s)
    requires Continues(s, rest, model, end) && ReportsFinished(end)
    ensures Delivered(run + rest, end)
  {
    Then(start, run, model, s, rest, end);
    forall t ensures Sent(run + rest, t) == AllPopped(end.locals, t) {
      CompletionSafety(n, m, run + rest, model, start, end, t);
    }
  }

  lemma UntimelyIsNotTrustworthy(n: nat, m: nat, run: seq<Act>, model: Model, start: System, s: System, j: nat,
                                 s': System)
    requires n > 0 && start == VllmSystem.Init(n, m) && Continues(start, run, model, s)
    requires Possible(s, ReportCompletion(j)) && !Timely(s, ReportCompletion(j))
             && s' == Do(s, ReportCompletion(j), model)
    ensures !Trustworthy(run + [ReportCompletion(j)], s', model)
  {
    var act, t0 := ReportCompletion(j), Task("", 0);
    ReachableInv(n, m, run, model, start, s, t0);
    var rest, end, t := UntimelyIsUnsafe(s, j, model, s');
    ReachableInv(n, m, run, model, start, s, t);
    StepSane(s, act, model);
    StepConserves(s, act, model, t);
    RunConserves(s', rest, model, end, t);
    SentOne(act, t);
    SentConcat(run, [act], t);
    SentConcat(run + [act], rest, t);
    assert !Delivered(run + [act] + rest, end);
  }

  lemma SentOne(act: Act, t: Task)
    ensures Sent([act], t) == Begun(act, t)
  {
    assert [act][1..] == [];
  }

  /**
   For any number of executors and any timely run so far: a completion is timely if and only if every
   report of completion that can follow it is true.
   */
  lemma TimelyIff(n: nat, m: nat, run: seq<Act>, model: Model, start: System, s: System, j: nat, s': System)
    requires n > 0 && start == VllmSystem.Init(n, m) && Continues(start, run, model, s)
    requires Possible(s, ReportCompletion(j)) && s' == Do(s, ReportCompletion(j), model)
    ensures Timely(s, ReportCompletion(j)) <==> Trustworthy(run + [ReportCompletion(j)], s', model)
  {
    var act := ReportCompletion(j);
    if Timely(s, act) {
      ThenOne(start, run, model, s, act, s');
      forall rest, end | Continues(s', rest, model, end) && ReportsFinished(end)
        ensures Delivered(run + [act] + rest, end) {
        TimelyIsTrustworthy(n, m, run + [act], model, start, s', rest, end);
      }
    } else {
      UntimelyIsNotTrustworthy(n, m, run, model, start, s, j, s');
    }
  }

  lemma ThenOne(s: System, run: seq<Act>, model: Model, mid: System, act: Act, end: System)
    requires Continues(s, run, model, mid) && Possible(mid, act) && Timely(mid, act) && end == Do(mid, act, model)
    ensures Continues(s, run + [act], model, end)
  {
    var one := [act];
    assert one[1..] == [] && VllmSystem.Legal(end, [], model) && VllmSystem.After(end, [], model) == end;
    Then(s, run, model, mid, one, end);
  }

  /** With two remote executors an untimely completion can happen. */
  lemma UntimelyHappens(n: nat, m: nat, model: Model, start: System) returns (run: seq<Act>, s: System)
    requires m >= 2 && start == VllmSystem.Init(n, m)
    ensures Continues(start, run, model, s) && Possible(s, ReportCompletion(0)) && !Timely(s, ReportCompletion(0))
  {
    var s1 := Do(start, Construct(0), model);
    var s2 := Do(s1, ReportStart(0), model);
    s := Do(s2, CallFinished(0), model);
    run := Prepend(s2, CallFinished(0), model, s, [], s);
    run := Prepend(s1, ReportStart(0), model, s2, run, s);
    run := Prepend(start, Construct(0), model, s1, run, s);
    assert s.remotes[1] == Remote(Unborn, false);
  }

  // ---------------------------------------------------------------- completion can always still come

  /** The router answers the poll under way. */
  lemma {:induction false} FreeRouter(s: System, model: Model) returns (run: seq<Act>, end: System)
    requires Sane(s, model)
    ensures Continues(s, run, model, end) && Idle(end.router)
    ensures end.remotes == s.remotes && |end.locals| == |s.locals|
    decreases |s.router.pollList|, s.router.checking.Some?
  {
    if Idle(s.router) {
      run, end := [], s;
    } else {
      var mid := Do(s, PollAnswer, model);
      StepSane(s, PollAnswer, model);
      var rest;
      if Idle(mid.router) {
        rest, end := [], mid;
      } else {
        rest, end := FreeRouter(mid, model);
      }
      run := Prepend(s, PollAnswer, model, mid, rest, end);
    }
  }

  /** `end` differs from `s` in remote executor `j`, in local executors and in the count. */
  predicate OnlyRemote(s: System, j: nat, end: System) {
    && j < |s.remotes| == |end.remotes| && Idle(end.router) && |end.locals| == |s.locals|
    && end.remotes == s.remotes[j := end.remotes[j]]
  }

  /** Remote executor `j` is built and has reported its start. */
  lemma Introduce(s: System, j: nat, model: Model) returns (run: seq<Act>, end: System)
    requires j < |s.remotes| && Idle(s.router)
    ensures Continues(s, run, model, end) && OnlyRemote(s, j, end)
    ensures end.remotes[j].startReported && !end.remotes[j].phase.Unborn?
    ensures end.remotes[j].phase == if s.remotes[j].phase.Unborn? then Ready else s.remotes[j].phase
  {
    var mid := if s.remotes[j].phase.Unborn? then Do(s, Construct(j), model) else s;
    end := if mid.remotes[j].startReported then mid else Do(mid, ReportStart(j), model);
    run := [];
    if !mid.remotes[j].startReported {
      run := Prepend(mid, ReportStart(j), model, end, run, end);
    }
    if s.remotes[j].phase.Unborn? {
      run := Prepend(s, Construct(j), model, mid, run, end);
    }
  }

  /** The batch it is submitting, if any, is accepted. */
  lemma GetThrough(s: System, j: nat, model: Model) returns (run: seq<Act>, end: System)
    requires j < |s.remotes| && Idle(s.router) && |s.locals| > 0
    requires s.remotes[j].startReported && !s.remotes[j].phase.Unborn?
    requires s.remotes[j].phase.Routed? ==> s.remotes[j].phase.to < |s.locals|
    ensures Continues(s, run, model, end) && OnlyRemote(s, j, end) && end.remotes[j].startReported
    ensures end.remotes[j].phase.Ready? || end.remotes[j].phase.Finished?
  {
    var mid := if s.remotes[j].phase.Routing? then Do(s, Route(j, 0), model) else s;
    end := if mid.remotes[j].phase.Routed? then Do(mid, Deliver(j), model) else mid;
    run := [];
    if mid.remotes[j].phase.Routed? {
      run := Prepend(mid, Deliver(j), model, end, run, end);
    }
    if s.remotes[j].phase.Routing? {
      run := Prepend(s, Route(j, 0), model, mid, run, end);
    }
  }

  /** Remote executor `j` is done submitting. */
  predicate Through(s: System, j: nat) {
    j < |s.remotes| && s.remotes[j].startReported && s.remotes[j].phase.Finished?
  }

  lemma FinishOne(s: System, j: nat, model: Model) returns (run: seq<Act>, end: System)
    requires VllmSystem.Inv(s, model) && j < |s.remotes| && Idle(s.router) && |s.locals| > 0
    ensures Continues(s, run, model, end) && OnlyRemote(s, j, end) && Through(end, j)
  {
    var s1, s2, rest;
    run, s1 := Introduce(s, j, model);
    rest, s2 := GetThrough(s1, j, model);
    Then(s, run, model, s1, rest, s2);
    run := run + rest;
    if s2.remotes[j].phase.Ready? {
      end := Do(s2, CallFinished(j), model);
      ThenOne(s, run, model, s2, CallFinished(j), end);
      run := run + [CallFinished(j)];
    } else {
      end := s2;
    }
  }

  /** A timely run keeps the invariant. */
  lemma {:induction false} RunKeepsInv(s: System, run: seq<Act>, model: Model, end: System)
    requires VllmSystem.Inv(s, model) && Continues(s, run, model, end)
    ensures VllmSystem.Inv(end, model)
    decreases |run|
  {
    if run == [] {
    } else {
      StepInv(s, run[0], model);
      RunKeepsInv(Do(s, run[0], model), run[1..], model, end);
    }
  }

  lemma {:induction false} FinishAll(s: System, k: nat, model: Model) returns (run: seq<Act>, end: System)
    requires VllmSystem.Inv(s, model) && k <= |s.remotes| && Idle(s.router) && |s.locals| > 0
    ensures Continues(s, run, model, end) && VllmSystem.Inv(end, model) && Idle(end.router)
    ensures |end.remotes| == |s.remotes| && |end.locals| == |s.locals|
    ensures forall j :: 0 <= j < k ==> Through(end, j)
    decreases k
  {
    if k == 0 {
      run, end := [], s;
    } else {
      var mid;
      run, mid := FinishAll(s, k - 1, model);
      var rest;
      rest, end := FinishOne(mid, k - 1, model);
      RunKeepsInv(mid, rest, model, end);
      Then(s, run, model, mid, rest, end);
      run := run + rest;
      forall j | 0 <= j < k - 1 ensures Through(end, j) {
        assert Through(mid, j);
      }
    }
  }

  ghost predicate AllThrough(s: System) {
    forall j :: 0 <= j < |s.remotes| ==> Through(s, j)
  }

  /** All executors are done submitting and the first `k` have been counted out. */
  lemma {:induction false} CountOut(s: System, k: nat, model: Model) returns (run: seq<Act>, end: System)
    requires VllmSystem.Inv(s, model) && k <= |s.remotes| && Idle(s.router) && AllThrough(s)
    ensures Continues(s, run, model, end) && VllmSystem.Inv(end, model) && Idle(end.router) && AllThrough(end)
    ensures |end.remotes| == |s.remotes| && |end.locals| == |s.locals|
    ensures forall j :: 0 <= j < k ==> end.remotes[j].phase == Finished(true)
    decreases k
  {
    if k == 0 {
      run, end := [], s;
    } else {
      var mid;
      run, mid := CountOut(s, k - 1, model);
      assert Through(mid, k - 1);
      if mid.remotes[k - 1].phase == Finished(true) {
        end := mid;
      } else {
        var act := ReportCompletion(k - 1);
        forall j | 0 <= j < |mid.remotes| ensures Committed(mid.remotes[j]) {
          assert Through(mid, j);
        }
        end := Do(mid, act, model);
        StepInv(mid, act, model);
        ThenOne(s, run, model, mid, act, end);
        run := run + [act];
        forall j | 0 <= j < |end.remotes| ensures Through(end, j) {
          assert Through(mid, j);
        }
      }
    }
  }

  lemma CountedOutIsTold(s: System, model: Model)
    requires VllmSystem.Inv(s, model) && |s.remotes| > 0
    requires forall j :: 0 <= j < |s.remotes| ==> s.remotes[j].phase == Finished(true)
    ensures forall i :: 0 <= i < |s.locals| ==> Told(s, i)
  {
    NoneOpen(s.remotes);
    assert s.router.unfinished == 0 && s.remotes[0].phase == Finished(true);
  }

  /**
   With at least one executor on either side, every state a timely run can reach can be continued,
   timely, until the router reports completion, and then everything submitted has been popped.
   */
  lemma CompletionIsReachable(n: nat, m: nat, run: seq<Act>, model: Model, start: System, s: System)
    returns (rest: seq<Act>, end: System)
    requires n > 0 && m > 0 && start == VllmSystem.Init(n, m) && Continues(start, run, model, s)
    ensures Continues(s, rest, model, end) && ReportsFinished(end) && Delivered(run + rest, end)
  {
    ReachableInv(n, m, run, model, start, s, Task("", 0));
    var s1, s2, s3, more;
    rest, s1 := FreeRouter(s, model);
    RunKeepsInv(s, rest, model, s1);
    more, s2 := FinishAll(s1, m, model);
    Then(s, rest, model, s1, more, s2);
    rest := rest + more;
    more, s3 := CountOut(s2, m, model);
    Then(s, rest, model, s2, more, s3);
    rest := rest + more;
    CountedOutIsTold(s3, model);
    more, end := ToldCanFinish(s3, model);
    Then(s, rest, model, s3, more, end);
    rest := rest + more;
    TimelyIsTrustworthy(n, m, run, model, start, s, rest, end);
  }
}
