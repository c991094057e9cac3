/**
 One local vLLM executor.  Coroutines run concurrently with `poll` and with the
 completion test, so every effect on the shared fields is a transition of its own;
 in particular appending a result and decrementing the running count are separate.
 */
module LocalExecutor {
  import opened Options

  type Row = nat

  datatype Task = Task(prompt: string, row: Row)

  /** A finished task and the text generated for it. */
  datatype Done = Done(task: Task, output: string)

  /** The language model: some total function on prompts. */
  type Model = string -> string

  /**
   `running` and `completed` and `finished` are the executor's fields.  The rest tells where each
   submitted task is: counted but not yet handed to the event loop (`posting`), in a coroutine that
   has not appended its result (`scheduled`), appended but not yet subtracted from `running`
   (`appended` of them), or returned by some poll (`popped`, in order).
   */
  datatype Local = Local(running: int, completed: seq<Done>, finished: bool,
                         posting: multiset<Task>, scheduled: multiset<Task>, appended: nat, popped: seq<Done>)

  const IDLE := Local(0, [], false, multiset{}, multiset{}, 0, [])

  // ---------------------------------------------------------------- transitions

  function Submit(l: Local, batch: seq<Task>): Local {
    l.(running := l.running + |batch|, posting := l.posting + multiset(batch))
  }

  function Post(l: Local, t: Task): Local
    requires t in l.posting
  {
    l.(posting := l.posting - multiset{t}, scheduled := l.scheduled + multiset{t})
  }

  function Append(l: Local, t: Task, model: Model): Local
    requires t in l.scheduled
  {
    l.(scheduled := l.scheduled - multiset{t}, appended := l.appended + 1,
       completed := l.completed + [Done(t, model(t.prompt))])
  }

  function Decrement(l: Local): Local
    requires l.appended > 0
  {
    l.(appended := l.appended - 1, running := l.running - 1)
  }

  function PopLeft(l: Local): Local
    requires l.completed != []
  {
    l.(completed := l.completed[1..], popped := l.popped + [l.completed[0]])
  }

  function PopAll(l: Local): Local {
    l.(completed := [], popped := l.popped + l.completed)
  }

  function FinishSubmitting(l: Local): Local {
    l.(finished := true)
  }

  predicate AllTasksFinished(l: Local) {
    l.finished && l.running == 0 && l.completed == []
  }

  // ---------------------------------------------------------------- conservation

  function TasksOf(ds: seq<Done>): multiset<Task> {
    if ds == [] then multiset{} else TasksOf(ds[..|ds| - 1]) + multiset{ds[|ds| - 1].task}
  }

  /** Every task this executor has accepted, wherever it is now. */
  function Owned(l: Local): multiset<Task> {
    l.posting + l.scheduled + TasksOf(l.popped + l.completed)
  }

  ghost predicate Genuine(ds: seq<Done>, model: Model) {
    forall i :: 0 <= i < |ds| ==> ds[i].output == model(ds[i].task.prompt)
  }

  ghost predicate Inv(l: Local, model: Model) {
    && l.running == |l.posting| + |l.scheduled| + l.appended
    && Genuine(l.popped + l.completed, model)
  }

  lemma AppendKeeps(l: Local, t: Task, model: Model)
    requires Inv(l, model) && t in l.scheduled
    ensures Inv(Append(l, t, model), model) && Owned(Append(l, t, model)) == Owned(l)
  {
    var l' := Append(l, t, model);
    var all := l.popped + l.completed;
    assert l'.popped + l'.completed == all + [Done(t, model(t.prompt))];
    assert (all + [Done(t, model(t.prompt))])[..|all|] == all;
  }

  lemma PopKeeps(l: Local, model: Model)
    requires Inv(l, model) && l.completed != []
    ensures Inv(PopLeft(l), model) && Owned(PopLeft(l)) == Owned(l)
  {
    assert PopLeft(l).popped + PopLeft(l).completed == l.popped + l.completed;
  }

  /** The completion test is never fooled: when it passes, what was accepted is exactly what polls returned. */
  lemma FinishedMeansPopped(l: Local, model: Model)
    requires Inv(l, model) && AllTasksFinished(l)
    ensures Owned(l) == TasksOf(l.popped) && Genuine(l.popped, model)
  {
    assert |l.posting| == 0 && |l.scheduled| == 0;
    assert l.popped + l.completed == l.popped;
  }

  // ---------------------------------------------------------------- whole runs

  datatype Step =
    | SubmitStep(batch: seq<Task>) | PostStep(t: Task) | AppendStep(t: Task)
    | DecrementStep | PopStep | FinishStep

  predicate Enabled(l: Local, step: Step) {
    match step
    case SubmitStep(_) => true
    case PostStep(t) => t in l.posting
    case AppendStep(t) => t in l.scheduled
    case DecrementStep => l.appended > 0
    case PopStep => l.completed != []
    case FinishStep => true
  }

  function Apply(l: Local, step: Step, model: Model): Local
    requires Enabled(l, step)
  {
    match step
    case SubmitStep(batch) => Submit(l, batch)
    case PostStep(t) => Post(l, t)
    case AppendStep(t) => Append(l, t, model)
    case DecrementStep => Decrement(l)
    case PopStep => PopLeft(l)
    case FinishStep => FinishSubmitting(l)
  }

  function Accepted(step: Step): multiset<Task> {
    if step.SubmitStep? then multiset(step.batch) else multiset{}
  }

  lemma StepKeeps(l: Local, step: Step, model: Model)
    requires Inv(l, model) && Enabled(l, step)
    ensures Inv(Apply(l, step, model), model)
    ensures Owned(Apply(l, step, model)) == Owned(l) + Accepted(step)
  {
    match step
    case AppendStep(t) => AppendKeeps(l, t, model);
    case PopStep => PopKeeps(l, model);
    case _ =>
  }

  predicate Legal(l: Local, run: seq<Step>, model: Model)
    decreases |run|
  {
    run == [] || (Enabled(l, run[0]) && Legal(Apply(l, run[0], model), run[1..], model))
  }

  function After(l: Local, run: seq<Step>, model: Model): Local
    requires Legal(l, run, model)
    decreases |run|
  {
    if run == [] then l else After(Apply(l, run[0], model), run[1..], model)
  }

  function Submitted(run: seq<Step>): multiset<Task> {
    if run == [] then multiset{} else Accepted(run[0]) + Submitted(run[1..])
  }

  lemma {:induction false} RunKeeps(l: Local, run: seq<Step>, model: Model)
    requires Inv(l, model) && Legal(l, run, model)
    ensures Inv(After(l, run, model), model)
    ensures Owned(After(l, run, model)) == Owned(l) + Submitted(run)
    decreases |run|
  {
    if run == [] {
    } else {
      StepKeeps(l, run[0], model);
      RunKeeps(Apply(l, run[0], model), run[1..], model);
    }
  }

  /**
   Under every interleaving of submissions, coroutine steps and polls, submitted tasks equal
   in-flight plus completed plus popped; every output belongs to its own row's prompt; and the
   completion test passing means everything submitted has been popped.
   */
  lemma LocalConservation(run: seq<Step>, model: Model, start: Local, l: Local)
    requires start == IDLE && Legal(start, run, model) && l == After(start, run, model)
    ensures Submitted(run) == l.posting + l.scheduled + TasksOf(l.popped + l.completed)
    ensures Genuine(l.popped + l.completed, model)
    ensures AllTasksFinished(l) ==> Submitted(run) == TasksOf(l.popped)
  {
    RunKeeps(start, run, model);
    if AllTasksFinished(l) {
      FinishedMeansPopped(l, model);
    }
  }

  // ---------------------------------------------------------------- the executor object

  /** An entry of the completed queue. */
  datatype Entry = Entry(output: string, row: Row)

  ghost predicate Entries(es: seq<Entry>, ds: seq<Done>) {
    |es| == |ds| && forall i :: 0 <= i < |es| ==> es[i] == Entry(ds[i].output, ds[i].task.row)
  }

  /** `l` after the first `k` entries of its queue have been popped. */
  ghost function Drained(l: Local, k: nat): Local
    requires k <= |l.completed|
  {
    l.(completed := l.completed[k..], popped := l.popped + l.completed[..k])
  }

  lemma DrainOneMore(l: Local, k: nat, model: Model)
    requires Inv(l, model) && k < |l.completed|
    ensures PopLeft(Drained(l, k)) == Drained(l, k + 1) && Inv(Drained(l, k + 1), model)
  {
    assert Drained(l, k).completed[1..] == l.completed[k + 1..];
    assert l.completed[..k] + [l.completed[k]] == l.completed[..k + 1];
    assert l.popped + l.completed[..k] + [l.completed[k]] == l.popped + l.completed[..k + 1];
    assert l.popped + l.completed[..k + 1] + l.completed[k + 1..] == l.popped + l.completed;
  }

  lemma DrainEnds(l: Local, model: Model)
    requires Inv(l, model)
    ensures Drained(l, 0) == l && Drained(l, |l.completed|) == PopAll(l)
    ensures forall i :: 0 <= i < |l.completed| ==> l.completed[i].output == model(l.completed[i].task.prompt)
  {
    assert l.completed[0..] == l.completed && l.popped + l.completed[..0] == l.popped;
    assert l.completed[..|l.completed|] == l.completed;
    forall i | 0 <= i < |l.completed| ensures l.completed[i].output == model(l.completed[i].task.prompt) {
      assert (l.popped + l.completed)[|l.popped| + i] == l.completed[i];
    }
  }

  class LocalVLLMExecutor {
    const model: Model
    var runningTaskCount: int
    var completedTasks: seq<Entry>
    var finishedSubmitting: bool
    /** The abstract state: the fields above plus the whereabouts of every task. */
    ghost var state: Local

    ghost predicate Valid()
      reads this
    {
      && Inv(state, model)
      && runningTaskCount == state.running && finishedSubmitting == state.finished
      && Entries(completedTasks, state.completed)
    }

    constructor (model: Model)
      ensures Valid() && state == IDLE && this.model == model
    {
      this.model := model;
      runningTaskCount, completedTasks, finishedSubmitting := 0, [], false;
      state := IDLE;
    }

    /** Counts the whole batch before any of its coroutines exists. */
    method SubmitAsync(batch: seq<Task>)
      requires Valid()
      modifies this
      ensures Valid() && state == Submit(old(state), batch)
    {
      runningTaskCount := runningTaskCount + |batch|;
      state := Submit(state, batch);
    }

    method StartCoroutine(t: Task)
      requires Valid() && t in state.posting
      modifies this
      ensures Valid() && state == Post(old(state), t)
    {
      state := Post(state, t);
    }

    method GenerateAppend(t: Task)
      requires Valid() && t in state.scheduled
      modifies this
      ensures Valid() && state == Append(old(state), t, model)
    {
      AppendKeeps(state, t, model);
      completedTasks := completedTasks + [Entry(model(t.prompt), t.row)];
      state := Append(state, t, model);
    }

    method GenerateDecrement()
      requires Valid() && state.appended > 0
      modifies this
      ensures Valid() && state == Decrement(old(state))
    {
      runningTaskCount := runningTaskCount - 1;
      state := Decrement(state);
    }

    /** Drains the queue; every returned row comes with the text generated from its own prompt. */
    method Poll() returns (r: Option<(seq<string>, seq<Row>)>)
      requires Valid()
      modifies this
      ensures Valid() && state == PopAll(old(state))
      ensures r.None? <==> old(state).completed == []
      ensures r.Some? ==>
                && |r.value.0| == |r.value.1| == |old(state).completed|
                && forall i :: 0 <= i < |r.value.0| ==>
                     && r.value.0[i] == model(old(state).completed[i].task.prompt)
                     && r.value.1[i] == old(state).completed[i].task.row
    {
      ghost var was := state;
      DrainEnds(was, model);
      var outputs: seq<string>, rows: seq<Row> := [], [];
      while completedTasks != []
        invariant Inv(state, model) && runningTaskCount == was.running && finishedSubmitting == was.finished
        invariant |outputs| == |rows| <= |was.completed|
        invariant state == Drained(was, |outputs|) && Entries(completedTasks, was.completed[|outputs|..])
        invariant forall i :: 0 <= i < |outputs| ==>
                    outputs[i] == was.completed[i].output && rows[i] == was.completed[i].task.row
        decreases |completedTasks|
      {
        DrainOneMore(was, |outputs|, model);
        var e := completedTasks[0];
        assert e == Entry(was.completed[|outputs|].output, was.completed[|outputs|].task.row);
        completedTasks := completedTasks[1..];
        state := PopLeft(state);
        outputs, rows := outputs + [e.output], rows + [e.row];
      }
      if outputs == [] {
        return None;
      }
      return Some((outputs, rows));
    }

    method FinishedSubmitting()
      requires Valid()
      modifies this
      ensures Valid() && state == FinishSubmitting(old(state))
    {
      finishedSubmitting := true;
      state := FinishSubmitting(state);
    }

    method AllTasksFinishedNow() returns (b: bool)
      requires Valid()
      ensures b <==> AllTasksFinished(state)
      ensures b ==> Owned(state) == TasksOf(state.popped)
    {
      b := finishedSubmitting && runningTaskCount == 0 && |completedTasks| == 0;
      if b {
        FinishedMeansPopped(state, model);
      }
    }
  }
}
