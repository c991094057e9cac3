/**
 The distributed vLLM deployment: remote executors, one router and the local executors it
 routes to, exchanging asynchronous calls.  The router is a single-threaded actor: while
 `get_next_llm_to_poll` waits for a local executor's answer it serves nobody else.
 */
module VllmSystem {
  import opened Options
  import opened LocalExecutor

  datatype Phase =
    | Unborn                                   // not constructed yet
    | Ready
    | Routing(batch: seq<Task>)                // waiting for the router's choice
    | Routed(batch: seq<Task>, to: nat)        // waiting for the local executor to accept
    | Finished(reported: bool)                 // finished_submitting called; has the router handled it?

  /** A remote executor; `startReported` once the router has handled its report_start. */
  datatype Remote = Remote(phase: Phase, startReported: bool)

  /**
   `pollList` and `unfinished` are the router's fields; `checking` is the executor it has popped
   and is asking; `notices` are the finished_submitting calls still on their way.
   */
  datatype Router = Router(unfinished: int, pollList: seq<nat>, checking: Option<nat>, notices: set<nat>)

  datatype System = System(locals: seq<Local>, router: Router, remotes: seq<Remote>)

  datatype Act =
    | Construct(j: nat) | ReportStart(j: nat)
    | BeginSubmit(j: nat, batch: seq<Task>) | Route(j: nat, to: nat) | Deliver(j: nat)
    | CallFinished(j: nat) | ReportCompletion(j: nat) | Notice(i: nat)
    | LocalStep(i: nat, step: LocalExecutor.Step)   // a coroutine or a poll at executor i
    | PollAsk | PollAnswer

  predicate Idle(r: Router) {
    r.checking.None?
  }

  predicate Possible(s: System, act: Act) {
    match act
    case Construct(j) => j < |s.remotes| && s.remotes[j].phase == Unborn
    case ReportStart(j) =>
      j < |s.remotes| && s.remotes[j].phase != Unborn && !s.remotes[j].startReported && Idle(s.router)
    case BeginSubmit(j, _) => j < |s.remotes| && s.remotes[j].phase == Ready
    case Route(j, to) =>
      && j < |s.remotes| && s.remotes[j].phase.Routing? && s.remotes[j].startReported
      && to < |s.locals| && Idle(s.router)
    case Deliver(j) => j < |s.remotes| && s.remotes[j].phase.Routed? && s.remotes[j].phase.to < |s.locals|
    case CallFinished(j) => j < |s.remotes| && s.remotes[j].phase == Ready
    case ReportCompletion(j) =>
      j < |s.remotes| && s.remotes[j].phase == Finished(false) && s.remotes[j].startReported && Idle(s.router)
    case Notice(i) => i < |s.locals| && i in s.router.notices
    case LocalStep(i, step) =>
      i < |s.locals| && LocalExecutor.Enabled(s.locals[i], step) && !step.SubmitStep? && !step.FinishStep?
    case PollAsk => Idle(s.router) && s.router.pollList != []
    case PollAnswer => s.router.checking.Some? && s.router.checking.value < |s.locals|
  }

  function SetPhase(s: System, j: nat, phase: Phase): System
    requires j < |s.remotes|
  {
    s.(remotes := s.remotes[j := s.remotes[j].(phase := phase)])
  }

  function SetLocal(s: System, i: nat, l: Local): System
    requires i < |s.locals|
  {
    s.(locals := s.locals[i := l])
  }

  /** Everyone's number, 0 up to n. */
  function Everyone(n: nat): (all: set<nat>)
    ensures forall i: nat :: i in all <==> i < n
  {
    if n == 0 then {} else Everyone(n - 1) + {n - 1}
  }

  /** Takes the next executor off the poll list, or gives up when it is empty. */
  function Next(r: Router): Router {
    if r.pollList == [] then r.(checking := None)
    else r.(checking := Some(r.pollList[0]), pollList := r.pollList[1..])
  }

  function Do(s: System, act: Act, model: Model): System
    requires Possible(s, act)
  {
    match act
    case Construct(j) => SetPhase(s, j, Ready)
    case ReportStart(j) =>
      s.(remotes := s.remotes[j := s.remotes[j].(startReported := true)],
         router := s.router.(unfinished := s.router.unfinished + 1))
    case BeginSubmit(j, batch) => SetPhase(s, j, Routing(batch))
    case Route(j, to) => SetPhase(s, j, Routed(s.remotes[j].phase.batch, to))
    case Deliver(j) =>
      var p := s.remotes[j].phase;
      SetPhase(SetLocal(s, p.to, Submit(s.locals[p.to], p.batch)), j, Ready)
    case CallFinished(j) => SetPhase(s, j, Finished(false))
    case ReportCompletion(j) =>
      var left := s.router.unfinished - 1;
      SetPhase(s, j, Finished(true)).(router := s.router.(unfinished := left,
        notices := if left == 0 then Everyone(|s.locals|) else s.router.notices))
    case Notice(i) =>
      SetLocal(s, i, FinishSubmitting(s.locals[i])).(router := s.router.(notices := s.router.notices - {i}))
    case LocalStep(i, step) => SetLocal(s, i, LocalExecutor.Apply(s.locals[i], step, model))
    case PollAsk => s.(router := Next(s.router))
    case PollAnswer =>
      var i := s.router.checking.value;
      if AllTasksFinished(s.locals[i]) then s.(router := Next(s.router))
      else s.(router := s.router.(checking := None, pollList := s.router.pollList + [i]))
  }

  /** Nothing more will come from this executor unless the router hears of it first. */
  predicate Committed(r: Remote) {
    r.startReported || r.phase.Finished?
  }

  /**
   The deployment's obligation: when the count of unfinished executors returns to zero, every
   executor has reported its start or has already finished submitting.
   */
  predicate Timely(s: System, act: Act) {
    act.ReportCompletion? && s.router.unfinished == 1 ==>
      forall j :: 0 <= j < |s.remotes| ==> Committed(s.remotes[j])
  }

  function Init(n: nat, m: nat): System {
    System(seq(n, i => IDLE), Router(0, seq(n, i => i), None, {}), seq(m, j => Remote(Unborn, false)))
  }

  // ---------------------------------------------------------------- counting and conservation

  predicate Open(r: Remote) {
    r.startReported && r.phase != Finished(true)
  }

  function CountOpen(rs: seq<Remote>): nat {
    if rs == [] then 0 else CountOpen(rs[..|rs| - 1]) + if Open(rs[|rs| - 1]) then 1 else 0
  }

  lemma {:induction false} CountUpdate(rs: seq<Remote>, j: nat, r: Remote)
    requires j < |rs|
    ensures CountOpen(rs[j := r]) == CountOpen(rs) - (if Open(rs[j]) then 1 else 0) + if Open(r) then 1 else 0
    decreases |rs|
  {
    var k := |rs| - 1;
    if j == k {
      assert rs[j := r][..k] == rs[..k];
    } else {
      CountUpdate(rs[..k], j, r);
      assert rs[j := r][..k] == rs[..k][j := r];
    }
  }

  lemma {:induction false} NoneOpen(rs: seq<Remote>)
    ensures CountOpen(rs) == 0 <==> forall j :: 0 <= j < |rs| ==> !Open(rs[j])
  {
    if rs == [] {
    } else {
      NoneOpen(rs[..|rs| - 1]);
      assert forall j :: 0 <= j < |rs| - 1 ==> rs[..|rs| - 1][j] == rs[j];
    }
  }

  /** How many times `t` is in the submit call of `r`, if one is under way. */
  function Batch(r: Remote, t: Task): nat {
    if r.phase.Routing? || r.phase.Routed? then multiset(r.phase.batch)[t] else 0
  }

  /** Occurrences of `t` in submit calls that have not reached a local executor. */
  function InTransit(rs: seq<Remote>, t: Task): nat {
    if rs == [] then 0 else InTransit(rs[..|rs| - 1], t) + Batch(rs[|rs| - 1], t)
  }

  lemma {:induction false} TransitUpdate(rs: seq<Remote>, j: nat, r: Remote, t: Task)
    requires j < |rs|
    ensures InTransit(rs[j := r], t) == InTransit(rs, t) - Batch(rs[j], t) + Batch(r, t)
    decreases |rs|
  {
    var k := |rs| - 1;
    if j == k {
      assert rs[j := r][..k] == rs[..k];
    } else {
      TransitUpdate(rs[..k], j, r, t);
      assert rs[j := r][..k] == rs[..k][j := r];
    }
  }

  /** Occurrences of `t` accepted by the local executors, wherever they are now. */
  function AllOwned(ls: seq<Local>, t: Task): nat {
    if ls == [] then 0 else AllOwned(ls[..|ls| - 1], t) + Owned(ls[|ls| - 1])[t]
  }

  lemma {:induction false} OwnedUpdate(ls: seq<Local>, i: nat, l: Local, t: Task)
    requires i < |ls|
    ensures AllOwned(ls[i := l], t) == AllOwned(ls, t) - Owned(ls[i])[t] + Owned(l)[t]
    decreases |ls|
  {
    var k := |ls| - 1;
    if i == k {
      assert ls[i := l][..k] == ls[..k];
    } else {
      OwnedUpdate(ls[..k], i, l, t);
      assert ls[i := l][..k] == ls[..k][i := l];
    }
  }

  /** Occurrences of `t` in what polls have returned. */
  function AllPopped(ls: seq<Local>, t: Task): nat {
    if ls == [] then 0 else AllPopped(ls[..|ls| - 1], t) + TasksOf(ls[|ls| - 1].popped)[t]
  }

  // ---------------------------------------------------------------- invariants

  /** No executor will submit again, and none has a batch on its way. */
  ghost predicate Closed(s: System) {
    forall j :: 0 <= j < |s.remotes| ==> s.remotes[j].phase.Finished?
  }

  /** Executor `i` has left the poll list for good. */
  predicate Retired(r: Router, i: nat) {
    i !in r.pollList && r.checking != Some(i)
  }

  /** Once the last unfinished executor has reported, every local executor knows or is about to. */
  ghost predicate Announced(s: System) {
    forall i, j :: 0 <= i < |s.locals| && 0 <= j < |s.remotes| ==>
      s.router.unfinished == 0 && s.remotes[j].phase == Finished(true) ==> s.locals[i].finished || i in s.router.notices
  }

  /** Local executors are consistent and the router's lists name existing ones. */
  ghost predicate Sane(s: System, model: Model) {
    && (forall i :: 0 <= i < |s.locals| ==> LocalExecutor.Inv(s.locals[i], model))
    && (forall i :: i in s.router.pollList ==> i < |s.locals|)
    && (s.router.checking.Some? ==> s.router.checking.value < |s.locals|)
  }

  ghost predicate Inv(s: System, model: Model) {
    && Sane(s, model)
    && s.router.unfinished == CountOpen(s.remotes)
    && (forall j :: 0 <= j < |s.remotes| && s.remotes[j].phase == Finished(true) ==> s.remotes[j].startReported)
    && (forall j :: 0 <= j < |s.remotes| && s.remotes[j].phase.Routed? ==>
          s.remotes[j].startReported && s.remotes[j].phase.to < |s.locals|)
    && (forall i :: 0 <= i < |s.locals| && (s.locals[i].finished || i in s.router.notices) ==> Closed(s))
    && (forall i :: 0 <= i < |s.locals| && Retired(s.router, i) ==> AllTasksFinished(s.locals[i]))
    && Announced(s)
  }

  lemma InitInv(n: nat, m: nat, model: Model)
    ensures Inv(Init(n, m), model)
  {
    var s := Init(n, m);
    forall i | 0 <= i < n ensures i in s.router.pollList {
      assert s.router.pollList[i] == i;
    }
    NoneOpen(s.remotes);
  }

  /** The count goes down; at zero everyone is told, and then nobody will submit again. */
  lemma ReportCompletionInv(s: System, j: nat, model: Model)
    requires Inv(s, model) && Possible(s, ReportCompletion(j)) && Timely(s, ReportCompletion(j))
    ensures Inv(Do(s, ReportCompletion(j), model), model)
  {
    var s' := Do(s, ReportCompletion(j), model);
    CountUpdate(s.remotes, j, s'.remotes[j]);
    if s'.router.unfinished == 0 {
      NoneOpen(s'.remotes);
      assert Closed(s');
    }
  }

  lemma RemoteStepInv(s: System, act: Act, model: Model)
    requires Inv(s, model) && Possible(s, act) && ByRemote(act) && !act.ReportCompletion?
    ensures Inv(Do(s, act, model), model)
  {
    var s' := Do(s, act, model);
    CountUpdate(s.remotes, act.j, s'.remotes[act.j]);
    assert s'.remotes == s.remotes[act.j := s'.remotes[act.j]];
    assert Closed(s) ==> Closed(s') by {
      assert Closed(s) ==> s.remotes[act.j].phase.Finished?;
    }
  }

  lemma DeliverInv(s: System, j: nat, model: Model)
    requires Inv(s, model) && Possible(s, Deliver(j))
    ensures Inv(Do(s, Deliver(j), model), model)
  {
    var s' := Do(s, Deliver(j), model);
    CountUpdate(s.remotes, j, s'.remotes[j]);
    assert !Closed(s) by {
      assert !s.remotes[j].phase.Finished?;
    }
    var i := s.remotes[j].phase.to;
    StepKeeps(s.locals[i], SubmitStep(s.remotes[j].phase.batch), model);
    assert !Retired(s.router, i);
  }

  lemma StepMeansUnfinished(l: Local, step: LocalExecutor.Step, model: Model)
    requires LocalExecutor.Inv(l, model) && LocalExecutor.Enabled(l, step) && !step.SubmitStep? && !step.FinishStep?
    ensures !AllTasksFinished(l) && LocalExecutor.Apply(l, step, model).finished == l.finished
  {
    if l.running == 0 {
      assert |l.posting| == 0 && |l.scheduled| == 0;
    }
  }

  lemma LocalChangeInv(s: System, i: nat, l: Local, model: Model)
    requires Inv(s, model) && i < |s.locals| && !AllTasksFinished(s.locals[i])
    requires LocalExecutor.Inv(l, model) && l.finished == s.locals[i].finished
    ensures Inv(SetLocal(s, i, l), model)
  {
  }

  lemma LocalStepInv(s: System, i: nat, step: LocalExecutor.Step, model: Model)
    requires Inv(s, model) && Possible(s, LocalStep(i, step))
    ensures Inv(Do(s, LocalStep(i, step), model), model)
  {
    StepKeeps(s.locals[i], step, model);
    StepMeansUnfinished(s.locals[i], step, model);
    LocalChangeInv(s, i, LocalExecutor.Apply(s.locals[i], step, model), model);
  }

  lemma NoticeInv(s: System, i: nat, model: Model)
    requires Inv(s, model) && Possible(s, Notice(i))
    ensures Inv(Do(s, Notice(i), model), model)
  {
  }

  /** Taking the next executor off the list leaves every other one where it was. */
  lemma NextKeeps(r: Router)
    ensures forall i: nat :: Retired(Next(r), i) && r.checking != Some(i) ==> Retired(r, i)
    ensures forall i :: i in Next(r).pollList ==> i in r.pollList
    ensures Next(r).checking.Some? ==> Next(r).checking.value in r.pollList
  {
    assert r.pollList != [] ==> r.pollList == [r.pollList[0]] + r.pollList[1..];
  }

  lemma PollAskInv(s: System, model: Model)
    requires Inv(s, model) && Possible(s, PollAsk)
    ensures Inv(Do(s, PollAsk, model), model)
  {
    NextKeeps(s.router);
  }

  lemma PollAnswerInv(s: System, model: Model)
    requires Inv(s, model) && Possible(s, PollAnswer)
    ensures Inv(Do(s, PollAnswer, model), model)
  {
    var i := s.router.checking.value;
    if AllTasksFinished(s.locals[i]) {
      NextKeeps(s.router);
    } else {
      assert forall k :: k in s.router.pollList + [i] <==> k in s.router.pollList || k == i;
    }
  }

  lemma StepInv(s: System, act: Act, model: Model)
    requires Inv(s, model) && Possible(s, act) && Timely(s, act)
    ensures Inv(Do(s, act, model), model)
  {
    match act
    case Deliver(j) => DeliverInv(s, j, model);
    case ReportCompletion(j) => ReportCompletionInv(s, j, model);
    case LocalStep(i, step) => LocalStepInv(s, i, step, model);
    case Notice(i) => NoticeInv(s, i, model);
    case PollAsk => PollAskInv(s, model);
    case PollAnswer => PollAnswerInv(s, model);
    case _ => RemoteStepInv(s, act, model);
  }

  // ---------------------------------------------------------------- conservation over a run

  /** Occurrences of `t` any executor has ever begun to submit, wherever they are now. */
  function Everything(s: System, t: Task): nat {
    InTransit(s.remotes, t) + AllOwned(s.locals, t)
  }

  function Begun(act: Act, t: Task): nat {
    if act.BeginSubmit? then multiset(act.batch)[t] else 0
  }

  lemma DeliverConserves(s: System, j: nat, model: Model, t: Task)
    requires Sane(s, model) && Possible(s, Deliver(j))
    ensures Everything(Do(s, Deliver(j), model), t) == Everything(s, t)
  {
    var s', p := Do(s, Deliver(j), model), s.remotes[j].phase;
    StepKeeps(s.locals[p.to], SubmitStep(p.batch), model);
    TransitUpdate(s.remotes, j, s'.remotes[j], t);
    OwnedUpdate(s.locals, p.to, s'.locals[p.to], t);
  }

  lemma LocalConserves(s: System, act: Act, model: Model, t: Task)
    requires Sane(s, model) && Possible(s, act) && (act.Notice? || act.LocalStep?)
    ensures Everything(Do(s, act, model), t) == Everything(s, t)
  {
    var s' := Do(s, act, model);
    if act.LocalStep? {
      StepKeeps(s.locals[act.i], act.step, model);
    }
    OwnedUpdate(s.locals, act.i, s'.locals[act.i], t);
  }

  predicate ByRemote(act: Act) {
    || act.Construct? || act.ReportStart? || act.BeginSubmit? || act.Route? || act.CallFinished?
      || act.ReportCompletion?
  }

  lemma RemoteConserves(s: System, act: Act, model: Model, t: Task)
    requires Possible(s, act) && ByRemote(act)
    ensures Everything(Do(s, act, model), t) == Everything(s, t) + Begun(act, t)
  {
    TransitUpdate(s.remotes, act.j, Do(s, act, model).remotes[act.j], t);
  }

  lemma StepConserves(s: System, act: Act, model: Model, t: Task)
    requires Sane(s, model) && Possible(s, act)
    ensures Everything(Do(s, act, model), t) == Everything(s, t) + Begun(act, t)
  {
    if act.Deliver? {
      DeliverConserves(s, act.j, model, t);
    } else if act.Notice? || act.LocalStep? {
      LocalConserves(s, act, model, t);
    } else if ByRemote(act) {
      RemoteConserves(s, act, model, t);
    }
  }

  /** A routed batch waits, with its destination, until it is delivered. */
  lemma RoutedWaits(s: System, j: nat, act: Act, model: Model)
    requires j < |s.remotes| && s.remotes[j].phase.Routed? && Possible(s, act) && act != Deliver(j)
    ensures j < |Do(s, act, model).remotes| && Do(s, act, model).remotes[j].phase == s.remotes[j].phase
  {
  }

  /** Routing a batch to `to` and delivering it hands exactly that batch to executor `to` and to nobody else. */
  lemma RoutedArrives(s: System, j: nat, to: nat, model: Model, batch: seq<Task>, routed: System, end: System)
    requires Sane(s, model) && Possible(s, Route(j, to)) && s.remotes[j].phase == Routing(batch)
    requires routed == Do(s, Route(j, to), model)
    ensures Possible(routed, Deliver(j)) && routed.remotes[j].phase == Routed(batch, to)
    ensures end == Do(routed, Deliver(j), model) ==>
              && |end.locals| == |s.locals| && Owned(end.locals[to]) == Owned(s.locals[to]) + multiset(batch)
              && forall i :: 0 <= i < |s.locals| && i != to ==> end.locals[i] == s.locals[i]
  {
    StepKeeps(s.locals[to], SubmitStep(batch), model);
  }

  /** Whether timely or not, every step keeps local executors consistent. */
  lemma StepSane(s: System, act: Act, model: Model)
    requires Sane(s, model) && Possible(s, act)
    ensures Sane(Do(s, act, model), model) && |Do(s, act, model).locals| == |s.locals|
  {
    if act.Deliver? {
      StepKeeps(s.locals[s.remotes[act.j].phase.to], SubmitStep(s.remotes[act.j].phase.batch), model);
    } else if act.LocalStep? {
      StepKeeps(s.locals[act.i], act.step, model);
    } else if act.PollAsk? || act.PollAnswer? {
      NextKeeps(s.router);
    }
  }

  /** `run` can happen from `s`, with the deployment keeping its obligation. */
  predicate Legal(s: System, run: seq<Act>, model: Model)
    decreases |run|
  {
    run == [] || (Possible(s, run[0]) && Timely(s, run[0]) && Legal(Do(s, run[0], model), run[1..], model))
  }

  function After(s: System, run: seq<Act>, model: Model): System
    requires Legal(s, run, model)
    decreases |run|
  {
    if run == [] then s else After(Do(s, run[0], model), run[1..], model)
  }

  /** How many times `t` was submitted during `run`, through all executors. */
  function Sent(run: seq<Act>, t: Task): nat {
    if run == [] then 0 else Begun(run[0], t) + Sent(run[1..], t)
  }

  lemma {:induction false} RunInv(s: System, run: seq<Act>, model: Model, end: System, t: Task)
    requires Inv(s, model) && Legal(s, run, model) && end == After(s, run, model)
    ensures Inv(end, model) && |end.locals| == |s.locals| && |end.remotes| == |s.remotes|
    ensures Everything(end, t) == Everything(s, t) + Sent(run, t)
    decreases |run|
  {
    if run == [] {
    } else {
      var next := Do(s, run[0], model);
      StepInv(s, run[0], model);
      StepConserves(s, run[0], model, t);
      RunInv(next, run[1..], model, end, t);
    }
  }

  lemma {:induction false} NothingInTransit(rs: seq<Remote>, t: Task)
    requires forall j :: 0 <= j < |rs| ==> rs[j].phase.Unborn? || rs[j].phase.Finished?
    ensures InTransit(rs, t) == 0
  {
    if rs == [] {
    } else {
      NothingInTransit(rs[..|rs| - 1], t);
    }
  }

  lemma {:induction false} OwnedIsPopped(ls: seq<Local>, t: Task)
    requires forall i :: 0 <= i < |ls| ==> Owned(ls[i]) == TasksOf(ls[i].popped)
    ensures AllOwned(ls, t) == AllPopped(ls, t)
  {
    if ls == [] {
    } else {
      OwnedIsPopped(ls[..|ls| - 1], t);
    }
  }

  lemma {:induction false} NothingPopped(ls: seq<Local>, t: Task)
    requires forall i :: 0 <= i < |ls| ==> ls[i] == IDLE
    ensures AllPopped(ls, t) == 0
  {
    if ls == [] {
    } else {
      NothingPopped(ls[..|ls| - 1], t);
    }
  }

  lemma InitHoldsNothing(n: nat, m: nat, start: System, t: Task)
    requires start == Init(n, m)
    ensures Everything(start, t) == 0
  {
    NothingInTransit(start.remotes, t);
    assert IDLE.popped + IDLE.completed == [];
    OwnedIsPopped(start.locals, t);
    NothingPopped(start.locals, t);
  }

  lemma RetiredArePopped(s: System, model: Model, t: Task)
    requires Inv(s, model) && ReportsFinished(s) && |s.locals| > 0
    ensures Closed(s) && Everything(s, t) == AllPopped(s.locals, t)
    ensures forall i :: 0 <= i < |s.locals| ==> Genuine(s.locals[i].popped, model)
  {
    forall i | 0 <= i < |s.locals|
      ensures Owned(s.locals[i]) == TasksOf(s.locals[i].popped) && Genuine(s.locals[i].popped, model)
    {
      assert Retired(s.router, i);
      FinishedMeansPopped(s.locals[i], model);
    }
    assert Retired(s.router, 0) && s.locals[0].finished;
    NothingInTransit(s.remotes, t);
    OwnedIsPopped(s.locals, t);
  }

  /** What the router answers to all_tasks_finished, once it is free to answer. */
  predicate ReportsFinished(s: System) {
    Idle(s.router) && s.router.pollList == []
  }

  /**
   Completion safety: in every interleaving of any number of remote executors, the router and
   at least one local executor, when the router reports that all tasks are finished, every task
   has been returned by polls exactly as often as it was submitted through all executors, no
   submission is under way or can follow, and every returned text was generated from its own
   row's prompt.
   */
  lemma CompletionSafety(n: nat, m: nat, run: seq<Act>, model: Model, start: System, s: System, t: Task)
    requires n > 0 && start == Init(n, m) && Legal(start, run, model) && s == After(start, run, model)
    requires ReportsFinished(s)
    ensures Sent(run, t) == AllPopped(s.locals, t)
    ensures Closed(s)
    ensures forall i :: 0 <= i < |s.locals| ==> Genuine(s.locals[i].popped, model)
  {
    InitInv(n, m, model);
    InitHoldsNothing(n, m, start, t);
    RunInv(start, run, model, s, t);
    RetiredArePopped(s, model, t);
  }
}
