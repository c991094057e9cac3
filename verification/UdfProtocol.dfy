/**
 A UDF evaluated out of process.  The parent and the worker process run concurrently and share a
 connection, a bounded pipe carrying the worker's output, and shared-memory segments.  Reading a
 line goes through the parent's private buffer, which `wait` does not see.
 */
module UdfProtocol {
  import opened Options
  import opened UdfLines

  type Bytes = seq<bv8>

  /** What evaluating one batch does: it prints, and returns a result or raises. */
  datatype Outcome = Returns(stdout: seq<char>, result: Bytes) | Raises(stdout: seq<char>)

  /** `capacity` is the pipe's; `slack` is what the operating system adds when it rounds a segment up. */
  datatype Config = Config(capacity: nat, inputs: seq<Bytes>, udf: (nat, Bytes) -> Outcome, slack: Bytes, divider: Line)

  /** A segment's name and the number of meaningful bytes, as sent over the connection. */
  datatype Ref = Ref(name: nat, size: nat)

  datatype Response = Success(out: Ref) | UdfError

  datatype Child =
    | Receiving
    | Received(input: Ref)
    | Evaluating(todo: seq<char>, result: Bytes)   // `todo` is output not yet written
    | Raising(todo: seq<char>)
    | Marking(todo: seq<char>, out: Ref)
    | Exiting                                      // has answered with an error; its output is still open
    | Dead

  datatype Error = UdfException | ConnectionClosed

  /** Where eval_input stands; `got` is the response it holds, None after end of file. */
  datatype Parent =
    | Idle
    | Waiting
    | Draining(got: Option<Response>)
    | Tracing(got: Option<Response>)
    | TraceReading(got: Option<Response>)
    | Collecting(out: Ref)
    | Raised(error: Error)

  datatype Process = ParentProcess | WorkerProcess

  datatype ShmEvent = Created(name: nat, who: Process) | Unlinked(name: nat, who: Process)

  datatype Answer = Answer(stdout: seq<string>, data: Bytes)

  /** `seen` are the raw lines trace_output has consumed in this call, `lines` what it made of them. */
  datatype State = State(parent: Parent, child: Child, toChild: Option<Ref>, toParent: Option<Response>,
                         pipe: seq<char>, buffer: seq<char>, pending: seq<Line>, seen: seq<Line>, lines: seq<string>,
                         results: seq<Answer>, segments: map<nat, Bytes>, log: seq<ShmEvent>)

  const START := State(Idle, Receiving, None, None, [], [], [], [], [], [], map[], [])

  datatype Step =
    | Call | Select | Fill(n: nat) | DrainLine
    | TracePending(exited: bool) | TraceMiss | TraceLine(exited: bool) | Collect
    | Receive | Release | Write(n: nat) | StoreResult | Respond | Exit

  // ---------------------------------------------------------------- reading lines

  /** readline can return: a whole line is buffered, or the pipe is closed and empty. */
  predicate LineReady(s: State) {
    '\n' in s.buffer || (s.pipe == [] && s.child.Dead?)
  }

  function LineLength(s: State): (n: nat)
    ensures n <= |s.buffer|
  {
    if s.buffer == [] then 0 else LineEnd(s.buffer)
  }

  predicate Reading(s: State) {
    s.parent.Draining? || s.parent.TraceReading?
  }

  function TodoOf(c: Child): seq<char> {
    if c.Evaluating? || c.Raising? || c.Marking? then c.todo else []
  }

  predicate Readable(s: State, r: Ref) {
    r.name in s.segments && r.size <= |s.segments[r.name]|
  }

  predicate Enabled(cfg: Config, s: State, step: Step) {
    match step
    case Call => s.parent.Idle? && |s.results| < |cfg.inputs|
    case Select => s.parent.Waiting? && (s.toParent.Some? || s.pipe != [] || s.child.Dead?)
    case Fill(n) => Reading(s) && '\n' !in s.buffer && 0 < n <= |s.pipe|
    case DrainLine => s.parent.Draining? && LineReady(s)
    case TracePending(exited) => s.parent.Tracing? && s.pending != [] && (exited ==> s.child.Dead?)
    case TraceMiss => s.parent.Tracing? && s.pending == []
    case TraceLine(exited) => s.parent.TraceReading? && LineReady(s) && (exited ==> s.child.Dead?)
    case Collect => s.parent.Collecting? && Readable(s, s.parent.out)
    case Receive => s.child.Receiving? && s.toChild.Some?
    case Release => s.child.Received? && Readable(s, s.child.input)
    case Write(n) => 0 < n <= |TodoOf(s.child)| && |s.pipe| + n <= cfg.capacity
    case StoreResult => s.child.Evaluating? && s.child.todo == []
    case Respond => (s.child.Marking? || s.child.Raising?) && s.child.todo == []
    case Exit => s.child.Exiting?
  }

  /** trace_output leaves its loop. */
  function Stop(got: Option<Response>): Parent {
    match got
    case None => Raised(ConnectionClosed)
    case Some(UdfError) => Raised(UdfException)
    case Some(Success(out)) => Collecting(out)
  }

  /** trace_output looks at one line. */
  function Examine(cfg: Config, s: State, line: Line, exited: bool): State
    requires s.parent.Tracing? || s.parent.TraceReading?
  {
    if line == ['\n'] then s.(parent := Tracing(s.parent.got), seen := s.seen + [line])
    else if line == [] || line == cfg.divider || exited then s.(parent := Stop(s.parent.got))
    else s.(parent := Tracing(s.parent.got), seen := s.seen + [line], lines := s.lines + [RStrip(line)])
  }

  function Evaluated(o: Outcome): Child {
    match o
    case Returns(stdout, result) => Evaluating(stdout, result)
    case Raises(stdout) => Raising(stdout)
  }

  function Apply(cfg: Config, s: State, step: Step): State
    requires Enabled(cfg, s, step)
  {
    var name := |s.log|;
    match step
    case Call =>
      var data := cfg.inputs[|s.results|];
      s.(parent := Waiting, toChild := Some(Ref(name, |data|)), seen := [], lines := [],
         segments := s.segments[name := data + cfg.slack], log := s.log + [Created(name, ParentProcess)])
    case Select =>
      var readable := s.pipe != [] || s.child.Dead?;
      if s.toParent.None? then s.(parent := Draining(None))
      else s.(toParent := None, parent := if readable then Draining(s.toParent) else Tracing(s.toParent))
    case Fill(n) => s.(buffer := s.buffer + s.pipe[..n], pipe := s.pipe[n..])
    case DrainLine =>
      var n := LineLength(s);
      if n == 0 then s.(parent := Tracing(None))
      else s.(buffer := s.buffer[n..], pending := s.pending + [s.buffer[..n]],
              parent := if s.parent.got.Some? then Tracing(s.parent.got) else Waiting)
    case TracePending(exited) => Examine(cfg, s.(pending := s.pending[1..]), s.pending[0], exited)
    case TraceMiss => s.(parent := TraceReading(s.parent.got))
    case TraceLine(exited) =>
      var n := LineLength(s);
      Examine(cfg, s.(buffer := s.buffer[n..]), s.buffer[..n], exited)
    case Collect =>
      var r := s.parent.out;
      s.(parent := Idle, results := s.results + [Answer(s.lines, s.segments[r.name][..r.size])],
         segments := s.segments - {r.name}, log := s.log + [Unlinked(r.name, ParentProcess)])
    case Receive => s.(child := Received(s.toChild.value), toChild := None)
    case Release =>
      var r := s.child.input;
      s.(child := Evaluated(cfg.udf(|s.results|, s.segments[r.name][..r.size])),
         segments := s.segments - {r.name}, log := s.log + [Unlinked(r.name, WorkerProcess)])
    case Write(n) =>
      var todo := TodoOf(s.child);
      s.(pipe := s.pipe + todo[..n], child := s.child.(todo := todo[n..]))
    case StoreResult =>
      var data := s.child.result;
      s.(child := Marking(Mark(cfg.divider), Ref(name, |data|)),
         segments := s.segments[name := data + cfg.slack], log := s.log + [Created(name, WorkerProcess)])
    case Respond =>
      if s.child.Marking? then s.(child := Receiving, toParent := Some(Success(s.child.out)))
      else s.(child := Exiting, toParent := Some(UdfError))
    case Exit => s.(child := Dead)
  }

  // ---------------------------------------------------------------- what the worker will write

  function OutcomeOf(cfg: Config, k: nat): Outcome
    requires k < |cfg.inputs|
  {
    cfg.udf(k, cfg.inputs[k])
  }

  /** Everything the worker writes for batch `k`. */
  function Total(cfg: Config, k: nat): seq<char>
    requires k < |cfg.inputs|
  {
    var o := OutcomeOf(cfg, k);
    if o.Returns? then o.stdout + Mark(cfg.divider) else o.stdout
  }

  predicate InCall(cfg: Config, s: State) {
    !s.parent.Idle? && |s.results| < |cfg.inputs|
  }

  /** What the worker has yet to write for the current batch. */
  function Todo(cfg: Config, s: State): seq<char> {
    match s.child
    case Receiving => if s.toChild.Some? && InCall(cfg, s) then Total(cfg, |s.results|) else []
    case Received(_) => if InCall(cfg, s) then Total(cfg, |s.results|) else []
    case Evaluating(todo, _) => todo + Mark(cfg.divider)
    case Raising(todo) => todo
    case Marking(todo, _) => todo
    case Exiting => []
    case Dead => []
  }

  /** Output of the current batch that the parent has not split into lines yet. */
  function Rest(cfg: Config, s: State): seq<char> {
    s.buffer + s.pipe + Todo(cfg, s)
  }

  // ---------------------------------------------------------------- control

  predicate Busy(c: Child) {
    c.Received? || c.Evaluating? || c.Raising? || c.Marking?
  }

  predicate Ended(c: Child) {
    c.Exiting? || c.Dead?
  }

  /** The worker owes the parent a response, or the response is on its way. */
  predicate Owed(s: State) {
    || (s.child.Receiving? && s.toChild.Some? && s.toParent.None?)
    || (Busy(s.child) && s.toChild.None? && s.toParent.None?)
    || (s.child.Receiving? && s.toChild.None? && s.toParent.Some? && s.toParent.value.Success?)
    || (Ended(s.child) && s.toChild.None? && s.toParent == Some(UdfError))
  }

  predicate Settled(s: State, r: Response) {
    s.toChild.None? && s.toParent.None? && if r.Success? then s.child.Receiving? else Ended(s.child)
  }

  /** Which response the parent holds. */
  function Held(p: Parent): Option<Response> {
    match p
    case Draining(got) => got
    case Tracing(got) => got
    case TraceReading(got) => got
    case Collecting(out) => Some(Success(out))
    case _ => None
  }

  predicate Control(cfg: Config, s: State) {
    && |s.results| <= |cfg.inputs|
    && (s.parent.Idle? ==> s.child.Receiving? && s.toChild.None? && s.toParent.None?)
    && (!s.parent.Idle? ==> |s.results| < |cfg.inputs|)
    && (s.parent.Waiting? || s.parent == Draining(None) ==> Owed(s))
    && (s.parent == Tracing(None) || s.parent == TraceReading(None) ==> s.child.Dead? && s.toChild.None?)
    && (s.parent.Raised? ==> Ended(s.child) && s.toChild.None?)
    && (Held(s.parent).Some? ==> Settled(s, Held(s.parent).value))
  }

  lemma ExamineControl(cfg: Config, s: State, line: Line, exited: bool)
    requires Control(cfg, s) && (s.parent.Tracing? || s.parent.TraceReading?)
    ensures Control(cfg, Examine(cfg, s, line, exited))
  {
  }

  lemma WorkerControl(cfg: Config, s: State, step: Step)
    requires Control(cfg, s) && Enabled(cfg, s, step)
    requires step.Receive? || step.Release? || step.Write? || step.StoreResult? || step.Respond? || step.Exit?
    ensures Control(cfg, Apply(cfg, s, step))
  {
  }

  lemma ParentControl(cfg: Config, s: State, step: Step)
    requires Control(cfg, s) && Enabled(cfg, s, step)
    requires step.Call? || step.Select? || step.Fill? || step.DrainLine? || step.TraceMiss? || step.Collect?
    ensures Control(cfg, Apply(cfg, s, step))
  {
  }

  lemma StepControl(cfg: Config, s: State, step: Step)
    requires Control(cfg, s) && Enabled(cfg, s, step)
    ensures Control(cfg, Apply(cfg, s, step))
  {
    if step.TracePending? {
      ExamineControl(cfg, s.(pending := s.pending[1..]), s.pending[0], step.exited);
    } else if step.TraceLine? {
      ExamineControl(cfg, s.(buffer := s.buffer[LineLength(s)..]), s.buffer[..LineLength(s)], step.exited);
    } else if step.Receive? || step.Release? || step.Write? || step.StoreResult? || step.Respond? || step.Exit? {
      WorkerControl(cfg, s, step);
    } else {
      ParentControl(cfg, s, step);
    }
  }

  // ---------------------------------------------------------------- shared memory

  datatype Stage = Empty | InputLive(ref: Ref) | Computing | OutputLive(ref: Ref) | Failed

  function StageOf(s: State): Stage {
    match s.child
    case Received(input) => InputLive(input)
    case Evaluating(_, _) => Computing
    case Raising(_) => Computing
    case Marking(_, out) => OutputLive(out)
    case Exiting => Failed
    case Dead => Failed
    case Receiving =>
      if s.toChild.Some? then InputLive(s.toChild.value)
      else if s.toParent.Some? && s.toParent.value.Success? then OutputLive(s.toParent.value.out)
      else if Held(s.parent).Some? && Held(s.parent).value.Success? then OutputLive(Held(s.parent).value.out)
      else Empty
  }

  /** The life of both segments of every batch before `k`. */
  function FullLog(k: nat): (log: seq<ShmEvent>)
    ensures |log| == 4 * k
  {
    if k == 0 then []
    else FullLog(k - 1) + BatchLog(k - 1)
  }

  function BatchLog(k: nat): seq<ShmEvent> {
    [Created(4 * k, ParentProcess), Unlinked(4 * k, WorkerProcess),
     Created(4 * k + 2, WorkerProcess), Unlinked(4 * k + 2, ParentProcess)]
  }

  /** Exactly the segment of the moment is live, it holds the right bytes, and the log is regular. */
  predicate Shm(cfg: Config, s: State) {
    var k := |s.results|;
    match StageOf(s)
    case Empty => s.segments == map[] && s.log == FullLog(k)
    case InputLive(ref) =>
      && k < |cfg.inputs| && ref == Ref(4 * k, |cfg.inputs[k]|)
      && s.segments == map[4 * k := cfg.inputs[k] + cfg.slack] && s.log == FullLog(k) + BatchLog(k)[..1]
    case Computing =>
      && k < |cfg.inputs| && s.segments == map[] && s.log == FullLog(k) + BatchLog(k)[..2]
      && if s.child.Evaluating? then OutcomeOf(cfg, k).Returns? && s.child.result == OutcomeOf(cfg, k).result
         else OutcomeOf(cfg, k).Raises?
    case OutputLive(ref) =>
      && k < |cfg.inputs| && OutcomeOf(cfg, k).Returns?
      && var data := OutcomeOf(cfg, k).result;
         && ref == Ref(4 * k + 2, |data|)
         && s.segments == map[4 * k + 2 := data + cfg.slack] && s.log == FullLog(k) + BatchLog(k)[..3]
    case Failed =>
      k < |cfg.inputs| && OutcomeOf(cfg, k).Raises? && s.segments == map[] && s.log == FullLog(k) + BatchLog(k)[..2]
  }

  /** Every finished batch returned its own result. */
  ghost predicate Answered(cfg: Config, s: State) {
    forall i :: 0 <= i < |s.results| ==>
      i < |cfg.inputs| && OutcomeOf(cfg, i).Returns? && s.results[i].data == OutcomeOf(cfg, i).result
  }

  predicate TouchesShm(step: Step) {
    step.Call? || step.Collect? || step.Release? || step.StoreResult?
  }

  predicate ByParent(step: Step) {
    step.Select? || step.Fill? || step.DrainLine? || step.TracePending? || step.TraceMiss? || step.TraceLine?
  }

  lemma ExamineKeepsStage(cfg: Config, s: State, line: Line, exited: bool)
    requires s.parent.Tracing? || s.parent.TraceReading?
    ensures var s' := Examine(cfg, s, line, exited);
            && s'.segments == s.segments && s'.log == s.log && s'.results == s.results
            && s'.child == s.child && StageOf(s') == StageOf(s)
  {
  }

  lemma QuietParentEffect(cfg: Config, s: State, step: Step, s': State)
    requires Control(cfg, s) && Enabled(cfg, s, step) && ByParent(step) && s' == Apply(cfg, s, step)
    ensures s'.segments == s.segments && s'.log == s.log && s'.results == s.results
    ensures StageOf(s') == StageOf(s) && s'.child == s.child
  {
    if step.TracePending? {
      ExamineKeepsStage(cfg, s.(pending := s.pending[1..]), s.pending[0], step.exited);
    } else if step.TraceLine? {
      ExamineKeepsStage(cfg, s.(buffer := s.buffer[LineLength(s)..]), s.buffer[..LineLength(s)], step.exited);
    } else {
      ReadingKeepsStage(cfg, s, step, s');
    }
  }

  lemma ReadingKeepsStage(cfg: Config, s: State, step: Step, s': State)
    requires Control(cfg, s) && Enabled(cfg, s, step) && s' == Apply(cfg, s, step)
    requires step.Select? || step.Fill? || step.DrainLine? || step.TraceMiss?
    ensures s'.segments == s.segments && s'.log == s.log && s'.results == s.results
    ensures StageOf(s') == StageOf(s) && s'.child == s.child
  {
  }

  lemma QuietWorkerEffect(cfg: Config, s: State, step: Step, s': State)
    requires Control(cfg, s) && Enabled(cfg, s, step) && !TouchesShm(step) && !ByParent(step)
             && s' == Apply(cfg, s, step)
    ensures s'.segments == s.segments && s'.log == s.log && s'.results == s.results
    ensures if step.Respond? && s.child.Raising? then StageOf(s') == Failed else StageOf(s') == StageOf(s)
    ensures StageOf(s') == Computing ==>
              s'.child.Evaluating? == s.child.Evaluating? && (s.child.Evaluating? ==> s'.child.result == s.child.result)
  {
  }

  lemma QuietStepShm(cfg: Config, s: State, step: Step, s': State)
    requires Control(cfg, s) && Shm(cfg, s) && Enabled(cfg, s, step) && !TouchesShm(step) && s' == Apply(cfg, s, step)
    ensures Shm(cfg, s')
  {
    if ByParent(step) {
      QuietParentEffect(cfg, s, step, s');
    } else {
      QuietWorkerEffect(cfg, s, step, s');
    }
    ShmFrame(cfg, s, s');
  }

  lemma ShmFrame(cfg: Config, s: State, s': State)
    requires Shm(cfg, s) && s'.segments == s.segments && s'.log == s.log && s'.results == s.results
    requires StageOf(s') == StageOf(s) || (s.child.Raising? && StageOf(s') == Failed)
    requires StageOf(s') == Computing ==>
               && s'.child.Evaluating? == s.child.Evaluating?
               && (s.child.Evaluating? ==> s'.child.result == s.child.result)
    ensures Shm(cfg, s')
  {
  }

  lemma CallShm(cfg: Config, s: State)
    requires Control(cfg, s) && Shm(cfg, s) && Enabled(cfg, s, Call)
    ensures Shm(cfg, Apply(cfg, s, Call))
  {
    assert BatchLog(|s.results|)[..1] == [Created(4 * |s.results|, ParentProcess)];
  }

  lemma ReleaseShm(cfg: Config, s: State)
    requires Control(cfg, s) && Shm(cfg, s) && Enabled(cfg, s, Release)
    ensures Shm(cfg, Apply(cfg, s, Release))
    ensures Apply(cfg, s, Release).child == Evaluated(OutcomeOf(cfg, |s.results|))
  {
    var k := |s.results|;
    assert s.segments[4 * k][..|cfg.inputs[k]|] == cfg.inputs[k];
    assert s.segments - {4 * k} == map[];
    assert BatchLog(k)[..1] + [Unlinked(4 * k, WorkerProcess)] == BatchLog(k)[..2];
  }

  lemma StoreShm(cfg: Config, s: State)
    requires Control(cfg, s) && Shm(cfg, s) && Enabled(cfg, s, StoreResult)
    ensures Shm(cfg, Apply(cfg, s, StoreResult))
  {
    var k := |s.results|;
    assert BatchLog(k)[..2] + [Created(4 * k + 2, WorkerProcess)] == BatchLog(k)[..3];
  }

  lemma CollectShm(cfg: Config, s: State)
    requires Control(cfg, s) && Shm(cfg, s) && Answered(cfg, s) && Enabled(cfg, s, Collect)
    ensures Shm(cfg, Apply(cfg, s, Collect)) && Answered(cfg, Apply(cfg, s, Collect))
  {
    var k := |s.results|;
    var data := OutcomeOf(cfg, k).result;
    assert s.segments[4 * k + 2][..|data|] == data;
    assert s.segments - {4 * k + 2} == map[];
    assert BatchLog(k)[..3] + [Unlinked(4 * k + 2, ParentProcess)] == BatchLog(k);
  }

  // ---------------------------------------------------------------- framing

  /** Lines of earlier batches that trace_output has not consumed when batch `k` starts. */
  function Left(cfg: Config, k: nat): seq<Line>
    requires k <= |cfg.inputs|
  {
    if k == 0 then [] else Frame(Left(cfg, k - 1) + Lines(Total(cfg, k - 1)), cfg.divider).left
  }

  /** The lines eval_input returns for batch `k`, read off the worker's output alone. */
  function Printed(cfg: Config, k: nat): seq<string>
    requires k < |cfg.inputs|
  {
    Frame(Left(cfg, k) + Lines(Total(cfg, k)), cfg.divider).lines
  }

  /** The worker is not going to raise in the current batch. */
  predicate Healthy(cfg: Config, s: State) {
    s.parent.Idle? || (|s.results| < |cfg.inputs| && OutcomeOf(cfg, |s.results|).Returns?)
  }

  /** No line of the current call is lost, repeated or out of order. */
  predicate Whole(cfg: Config, s: State)
    requires |s.results| < |cfg.inputs|
  {
    && Left(cfg, |s.results|) + Lines(Total(cfg, |s.results|)) == s.seen + s.pending + Lines(Rest(cfg, s))
    && cfg.divider !in s.seen
  }

  predicate Stream(cfg: Config, s: State)
    requires Control(cfg, s)
  {
    && EndsLine(Rest(cfg, s))
    && match s.parent
       case Idle => s.pending + Lines(Rest(cfg, s)) == Left(cfg, |s.results|)
       case Waiting => Whole(cfg, s) && s.seen == []
       case Draining(_) => Whole(cfg, s) && s.seen == [] && Rest(cfg, s) != []
       case Tracing(_) => Whole(cfg, s)
       case TraceReading(_) => Whole(cfg, s) && s.pending == []
       case Collecting(_) =>
         Frame(Left(cfg, |s.results|) + Lines(Total(cfg, |s.results|)), cfg.divider)
         == Framed(s.lines, s.pending + Lines(Rest(cfg, s)))
       case Raised(_) => true
  }

  ghost predicate NonEmpty(ls: seq<Line>) {
    forall i :: 0 <= i < |ls| ==> ls[i] != []
  }

  ghost predicate Inv(cfg: Config, s: State) {
    && Control(cfg, s) && Shm(cfg, s) && Answered(cfg, s)
    && NonEmpty(s.pending) && s.lines == Reported(s.seen)
    && AllPrinted(cfg, s.results)
    && (Healthy(cfg, s) ==> Stream(cfg, s))
  }

  /** Steps that only move output along, or leave it alone. */
  predicate Moves(step: Step) {
    step.Select? || step.Fill? || step.TraceMiss? || step.Receive? || step.Release? || step.Write?
      || step.StoreResult? || step.Respond? || step.Exit?
  }

  lemma MoveKeepsTodo(cfg: Config, s: State, step: Step)
    requires Control(cfg, s) && Shm(cfg, s) && Enabled(cfg, s, step) && Moves(step) && !step.Write?
    ensures Todo(cfg, Apply(cfg, s, step)) == Todo(cfg, s)
  {
    match step
    case Release => ReleaseShm(cfg, s);
    case StoreResult => assert s.child.todo + Mark(cfg.divider) == Mark(cfg.divider);
    case _ =>
  }

  lemma ShiftLeft(a: seq<char>, b: seq<char>, c: seq<char>, n: nat)
    requires n <= |b|
    ensures (a + b[..n]) + b[n..] + c == a + b + c
  {
  }

  lemma ShiftRight(a: seq<char>, b: seq<char>, c: seq<char>, d: seq<char>, n: nat)
    requires n <= |c|
    ensures a + (b + c[..n]) + (c[n..] + d) == a + b + (c + d)
  {
  }

  lemma WriteTodo(cfg: Config, s: State, n: nat, s': State)
    requires Control(cfg, s) && Enabled(cfg, s, Write(n)) && s' == Apply(cfg, s, Write(n))
    ensures Rest(cfg, s') == Rest(cfg, s)
  {
    var todo, m := TodoOf(s.child), if s.child.Evaluating? then Mark(cfg.divider) else [];
    WriteEffect(cfg, s, n, s', m);
    ShiftRight(s.buffer, s.pipe, todo, m, n);
  }

  lemma WriteEffect(cfg: Config, s: State, n: nat, s': State, m: seq<char>)
    requires Enabled(cfg, s, Write(n)) && s' == Apply(cfg, s, Write(n))
    requires m == if s.child.Evaluating? then Mark(cfg.divider) else []
    ensures Todo(cfg, s) == TodoOf(s.child) + m && Todo(cfg, s') == TodoOf(s.child)[n..] + m
    ensures s'.buffer == s.buffer && s'.pipe == s.pipe + TodoOf(s.child)[..n]
  {
  }

  lemma MoveKeepsRest(cfg: Config, s: State, step: Step)
    requires Control(cfg, s) && Shm(cfg, s) && Enabled(cfg, s, step) && Moves(step)
    ensures Rest(cfg, Apply(cfg, s, step)) == Rest(cfg, s)
  {
    match step
    case Write(n) => WriteTodo(cfg, s, n, Apply(cfg, s, step));
    case Fill(n) =>
      MoveKeepsTodo(cfg, s, step);
      ShiftLeft(s.buffer, s.pipe, Todo(cfg, s), n);
    case _ => MoveKeepsTodo(cfg, s, step);
  }

  /** The parent moves on without consuming output. */
  predicate Passes(s: State, s': State) {
    || s'.parent == s.parent
    || (s.parent.Waiting? && s'.parent.Draining? && s.pipe != [])
    || (s.parent.Waiting? && s'.parent.Tracing?)
    || (s.parent.Tracing? && s'.parent.TraceReading? && s.pending == [])
  }

  lemma StreamFrame(cfg: Config, s: State, s': State)
    requires Control(cfg, s) && Control(cfg, s') && Stream(cfg, s) && Passes(s, s')
    requires Rest(cfg, s') == Rest(cfg, s)
    requires s'.pending == s.pending && s'.seen == s.seen && s'.lines == s.lines && s'.results == s.results
    ensures Stream(cfg, s')
  {
    assert s.pipe != [] ==> Rest(cfg, s) != [];
  }

  lemma MoveStream(cfg: Config, s: State, step: Step)
    requires Control(cfg, s) && Shm(cfg, s) && Stream(cfg, s) && Healthy(cfg, s)
    requires Enabled(cfg, s, step) && Moves(step)
    ensures Control(cfg, Apply(cfg, s, step)) && Stream(cfg, Apply(cfg, s, step))
  {
    StepControl(cfg, s, step);
    MoveKeepsRest(cfg, s, step);
    StreamFrame(cfg, s, Apply(cfg, s, step));
  }

  lemma Assoc<T>(a: seq<T>, b: seq<T>, c: seq<T>)
    ensures (a + b) + c == a + (b + c)
    ensures [] + a + b == a + b
  {
  }

  lemma CallEffect(cfg: Config, s: State, s': State)
    requires Control(cfg, s) && Enabled(cfg, s, Call) && s' == Apply(cfg, s, Call)
    ensures s'.parent.Waiting? && s'.results == s.results && s'.pending == s.pending && s'.seen == [] && s'.lines == []
    ensures Rest(cfg, s) == s.buffer + s.pipe
    ensures Rest(cfg, s') == Rest(cfg, s) + Total(cfg, |s.results|)
  {
    assert Todo(cfg, s) == [] && s.buffer + s.pipe + [] == s.buffer + s.pipe;
  }

  lemma CallStream(cfg: Config, s: State, s': State)
    requires Control(cfg, s) && Control(cfg, s') && s.parent.Idle? && s'.parent.Waiting? && Stream(cfg, s)
    requires |s.results| < |cfg.inputs| && IsDivider(cfg.divider) && OutcomeOf(cfg, |s.results|).Returns?
    requires s'.results == s.results && s'.pending == s.pending && s'.seen == []
    requires Rest(cfg, s') == Rest(cfg, s) + Total(cfg, |s.results|)
    ensures Stream(cfg, s')
  {
    var before, total := Rest(cfg, s), Total(cfg, |s.results|);
    LinesConcat(before, total);
    Assoc(s.pending, Lines(before), Lines(total));
    Assoc(s.pending, Lines(before + total), []);
    TotalEndsLine(OutcomeOf(cfg, |s.results|).stdout, cfg.divider);
    assert (before + total)[|before + total| - 1] == total[|total| - 1];
  }

  lemma TotalEndsLine(out: seq<char>, d: Line)
    requires IsDivider(d)
    ensures (out + Mark(d))[|out + Mark(d)| - 1] == '\n'
  {
  }

  /** With a whole line buffered, taking it off the front is taking the first of the remaining lines. */
  lemma TakeLine(cfg: Config, s: State, s': State)
    requires '\n' in s.buffer && s'.buffer == s.buffer[LineEnd(s.buffer)..] && s'.pipe == s.pipe
             && Todo(cfg, s') == Todo(cfg, s)
    ensures Lines(Rest(cfg, s)) == [s.buffer[..LineEnd(s.buffer)]] + Lines(Rest(cfg, s'))
    ensures EndsLine(Rest(cfg, s)) ==> EndsLine(Rest(cfg, s'))
  {
    var todo := Todo(cfg, s);
    Assoc(s.buffer, s.pipe, todo);
    Assoc(s'.buffer, s.pipe, todo);
    FirstLine(s.buffer, s.pipe + todo);
  }

  lemma DrainEffect(cfg: Config, s: State, s': State)
    requires Enabled(cfg, s, DrainLine) && !Ended(s.child) && s' == Apply(cfg, s, DrainLine)
    ensures '\n' in s.buffer && s'.buffer == s.buffer[LineEnd(s.buffer)..] && s'.pipe == s.pipe
    ensures s'.pending == s.pending + [s.buffer[..LineEnd(s.buffer)]] && s'.seen == s.seen && s'.results == s.results
    ensures (s'.parent.Tracing? || s'.parent.Waiting?) && Todo(cfg, s') == Todo(cfg, s)
  {
  }

  lemma Reassociate(seen: seq<Line>, pending: seq<Line>, line: Line, rest: seq<Line>)
    ensures seen + pending + ([line] + rest) == seen + (pending + [line]) + rest
  {
  }

  lemma DrainStream(cfg: Config, s: State, s': State)
    requires Control(cfg, s) && Stream(cfg, s) && Enabled(cfg, s, DrainLine) && !Ended(s.child)
    requires s' == Apply(cfg, s, DrainLine) && Control(cfg, s')
    ensures Stream(cfg, s')
  {
    DrainEffect(cfg, s, s');
    TakeLine(cfg, s, s');
    Reassociate(s.seen, s.pending, s.buffer[..LineEnd(s.buffer)], Lines(Rest(cfg, s')));
  }

  /** trace_output has taken `line` off the front of the remaining lines and passes it over or reports it. */
  lemma PassLine(cfg: Config, s: State, line: Line, rest: seq<Line>, s': State)
    requires Control(cfg, s') && s'.parent.Tracing? && EndsLine(Rest(cfg, s'))
    requires line != cfg.divider && cfg.divider !in s.seen && s'.seen == s.seen + [line]
    requires s'.results == s.results && rest == s'.pending + Lines(Rest(cfg, s'))
    requires Left(cfg, |s.results|) + Lines(Total(cfg, |s.results|)) == s.seen + ([line] + rest)
    ensures Stream(cfg, s')
  {
    Assoc(s.seen, [line], rest);
    Assoc(s'.seen, s'.pending, Lines(Rest(cfg, s')));
  }

  /** trace_output has taken the divider off the front of the remaining lines. */
  lemma StopAtDivider(cfg: Config, s: State, rest: seq<Line>, s': State)
    requires Control(cfg, s') && s'.parent.Collecting? && EndsLine(Rest(cfg, s'))
    requires cfg.divider !in s.seen && s'.lines == Reported(s.seen)
    requires s'.results == s.results && rest == s'.pending + Lines(Rest(cfg, s'))
    requires Left(cfg, |s.results|) + Lines(Total(cfg, |s.results|)) == s.seen + ([cfg.divider] + rest)
    ensures Stream(cfg, s')
  {
    Assoc(s.seen, [cfg.divider], rest);
    FrameAt(s.seen, rest, cfg.divider);
  }

  /** What examining `line` does, when the worker lives and has answered. */
  predicate Examined(cfg: Config, s: State, line: Line, s': State) {
    && s'.results == s.results
    && if line == cfg.divider then s'.parent.Collecting? && s'.lines == s.lines
       else s'.parent.Tracing? && s'.seen == s.seen + [line]
            && s'.lines == if line == ['\n'] then s.lines else s.lines + [RStrip(line)]
  }

  lemma PendingEffect(cfg: Config, s: State, s': State)
    requires Control(cfg, s) && IsDivider(cfg.divider) && !Ended(s.child) && NonEmpty(s.pending)
    requires s.parent.Tracing? && s.pending != [] && s' == Apply(cfg, s, TracePending(false))
    ensures Examined(cfg, s, s.pending[0], s') && s'.pending == s.pending[1..] && Rest(cfg, s') == Rest(cfg, s)
  {
    assert Todo(cfg, s') == Todo(cfg, s);
  }

  lemma ReadEffect(cfg: Config, s: State, s': State)
    requires Control(cfg, s) && IsDivider(cfg.divider) && !Ended(s.child)
    requires Enabled(cfg, s, TraceLine(false)) && s' == Apply(cfg, s, TraceLine(false))
    ensures '\n' in s.buffer && Examined(cfg, s, s.buffer[..LineEnd(s.buffer)], s')
    ensures s'.pending == s.pending && s'.pipe == s.pipe && s'.buffer == s.buffer[LineEnd(s.buffer)..]
    ensures Todo(cfg, s') == Todo(cfg, s)
  {
  }

  lemma CollectEffect(cfg: Config, s: State, s': State)
    requires Control(cfg, s) && Enabled(cfg, s, Collect) && s' == Apply(cfg, s, Collect)
    ensures s'.parent.Idle? && |s'.results| == |s.results| + 1 && s'.pending == s.pending
    ensures s'.results[..|s.results|] == s.results && s'.results[|s.results|].stdout == s.lines
    ensures Rest(cfg, s') == Rest(cfg, s)
  {
    assert Todo(cfg, s') == Todo(cfg, s);
  }

  lemma ExamineStream(cfg: Config, s: State, line: Line, rest: seq<Line>, s': State)
    requires Control(cfg, s') && EndsLine(Rest(cfg, s')) && |s.results| < |cfg.inputs| && Examined(cfg, s, line, s')
    requires cfg.divider !in s.seen && s.lines == Reported(s.seen) && rest == s'.pending + Lines(Rest(cfg, s'))
    requires Left(cfg, |s.results|) + Lines(Total(cfg, |s.results|)) == s.seen + ([line] + rest)
    ensures Stream(cfg, s')
  {
    if line == cfg.divider {
      StopAtDivider(cfg, s, rest, s');
    } else {
      PassLine(cfg, s, line, rest, s');
    }
  }

  lemma FrontOfPending(seen: seq<Line>, pending: seq<Line>, rest: seq<Line>)
    requires pending != []
    ensures seen + pending + rest == seen + ([pending[0]] + (pending[1..] + rest))
  {
  }

  lemma PendingStream(cfg: Config, s: State, s': State)
    requires Control(cfg, s) && Control(cfg, s') && s.parent.Tracing? && Stream(cfg, s) && s.lines == Reported(s.seen)
    requires s.pending != [] && Examined(cfg, s, s.pending[0], s') && s'.pending == s.pending[1..]
    requires Rest(cfg, s') == Rest(cfg, s)
    ensures Stream(cfg, s')
  {
    FrontOfPending(s.seen, s.pending, Lines(Rest(cfg, s)));
    ExamineStream(cfg, s, s.pending[0], s.pending[1..] + Lines(Rest(cfg, s)), s');
  }

  lemma ReadStream(cfg: Config, s: State, s': State)
    requires Control(cfg, s) && Control(cfg, s') && s.parent.TraceReading? && Stream(cfg, s)
             && s.lines == Reported(s.seen)
    requires '\n' in s.buffer && Examined(cfg, s, s.buffer[..LineEnd(s.buffer)], s') && s'.pending == s.pending
    requires s'.pipe == s.pipe && s'.buffer == s.buffer[LineEnd(s.buffer)..] && Todo(cfg, s') == Todo(cfg, s)
    ensures Stream(cfg, s')
  {
    TakeLine(cfg, s, s');
    assert s.seen + s.pending == s.seen;
    ExamineStream(cfg, s, s.buffer[..LineEnd(s.buffer)], Lines(Rest(cfg, s')), s');
  }

  lemma CollectStream(cfg: Config, s: State, s': State)
    requires Control(cfg, s) && Control(cfg, s') && s.parent.Collecting? && Stream(cfg, s)
    requires s'.parent.Idle? && |s'.results| == |s.results| + 1
    requires s'.pending == s.pending && Rest(cfg, s') == Rest(cfg, s)
    ensures Stream(cfg, s') && s.lines == Printed(cfg, |s.results|)
  {
  }

  // ---------------------------------------------------------------- every step keeps the invariant

  lemma HealthyIsAlive(cfg: Config, s: State)
    requires Control(cfg, s) && Shm(cfg, s)
    ensures Healthy(cfg, s) ==> !Ended(s.child)
    ensures s.parent.Collecting? ==> Healthy(cfg, s)
  {
  }

  lemma StepShm(cfg: Config, s: State, step: Step, s': State)
    requires Control(cfg, s) && Shm(cfg, s) && Answered(cfg, s) && Enabled(cfg, s, step) && s' == Apply(cfg, s, step)
    ensures Shm(cfg, s') && Answered(cfg, s')
  {
    if step.Collect? {
      CollectShm(cfg, s);
    } else {
      OnlyCollectAnswers(cfg, s, step);
      ShmWithoutAnswer(cfg, s, step, s');
    }
  }

  lemma ShmWithoutAnswer(cfg: Config, s: State, step: Step, s': State)
    requires Control(cfg, s) && Shm(cfg, s) && Enabled(cfg, s, step) && s' == Apply(cfg, s, step) && !step.Collect?
    ensures Shm(cfg, s')
  {
    if step.Call? {
      CallShm(cfg, s);
    } else if step.Release? {
      ReleaseShm(cfg, s);
    } else if step.StoreResult? {
      StoreShm(cfg, s);
    } else {
      QuietStepShm(cfg, s, step, s');
    }
  }

  lemma ExamineLines(cfg: Config, s: State, line: Line, exited: bool)
    requires (s.parent.Tracing? || s.parent.TraceReading?) && s.lines == Reported(s.seen)
    ensures Examine(cfg, s, line, exited).lines == Reported(Examine(cfg, s, line, exited).seen)
    ensures Examine(cfg, s, line, exited).pending == s.pending
  {
    ReportedSnoc(s.seen, line);
  }

  lemma StepLines(cfg: Config, s: State, step: Step, s': State)
    requires NonEmpty(s.pending) && s.lines == Reported(s.seen) && Enabled(cfg, s, step) && s' == Apply(cfg, s, step)
    ensures NonEmpty(s'.pending) && s'.lines == Reported(s'.seen)
  {
    if step.TracePending? {
      ExamineLines(cfg, s.(pending := s.pending[1..]), s.pending[0], step.exited);
    } else if step.TraceLine? {
      ExamineLines(cfg, s.(buffer := s.buffer[LineLength(s)..]), s.buffer[..LineLength(s)], step.exited);
    } else {
      OtherLines(cfg, s, step, s');
    }
  }

  lemma OtherLines(cfg: Config, s: State, step: Step, s': State)
    requires NonEmpty(s.pending) && Enabled(cfg, s, step) && s' == Apply(cfg, s, step)
    requires !step.TracePending? && !step.TraceLine?
    ensures NonEmpty(s'.pending)
    ensures if step.Call? then s'.seen == [] && s'.lines == [] else s'.seen == s.seen && s'.lines == s.lines
  {
  }

  lemma ConsumeStream(cfg: Config, s: State, step: Step, s': State)
    requires Control(cfg, s) && Stream(cfg, s) && !Ended(s.child) && NonEmpty(s.pending) && s.lines == Reported(s.seen)
    requires IsDivider(cfg.divider) && Enabled(cfg, s, step) && s' == Apply(cfg, s, step) && Control(cfg, s')
    requires step.DrainLine? || step.TracePending? || step.TraceLine?
    ensures Stream(cfg, s')
  {
    match step
    case DrainLine => DrainStream(cfg, s, s');
    case TracePending(exited) =>
      PendingEffect(cfg, s, s');
      PendingStream(cfg, s, s');
    case TraceLine(exited) =>
      ReadEffect(cfg, s, s');
      ReadStream(cfg, s, s');
  }

  lemma OnlyCollectAnswers(cfg: Config, s: State, step: Step)
    requires Enabled(cfg, s, step) && !step.Collect?
    ensures Apply(cfg, s, step).results == s.results
    ensures !step.Call? ==> Apply(cfg, s, step).parent.Idle? == s.parent.Idle?
  {
  }

  lemma MoveCase(cfg: Config, s: State, step: Step, s': State)
    requires Control(cfg, s) && Shm(cfg, s) && (Healthy(cfg, s) ==> Stream(cfg, s))
    requires Enabled(cfg, s, step) && Moves(step) && s' == Apply(cfg, s, step) && Control(cfg, s')
    ensures Healthy(cfg, s') ==> Stream(cfg, s')
  {
    OnlyCollectAnswers(cfg, s, step);
    if Healthy(cfg, s) {
      MoveStream(cfg, s, step);
    }
  }

  lemma ConsumeCase(cfg: Config, s: State, step: Step, s': State)
    requires Control(cfg, s) && Shm(cfg, s) && (Healthy(cfg, s) ==> Stream(cfg, s))
    requires NonEmpty(s.pending) && s.lines == Reported(s.seen) && IsDivider(cfg.divider)
    requires Enabled(cfg, s, step) && s' == Apply(cfg, s, step) && Control(cfg, s')
    requires step.DrainLine? || step.TracePending? || step.TraceLine?
    ensures Healthy(cfg, s') ==> Stream(cfg, s')
  {
    OnlyCollectAnswers(cfg, s, step);
    if Healthy(cfg, s) {
      HealthyIsAlive(cfg, s);
      ConsumeStream(cfg, s, step, s');
    }
  }

  lemma CallCase(cfg: Config, s: State, s': State)
    requires Control(cfg, s) && Stream(cfg, s) && IsDivider(cfg.divider)
    requires Enabled(cfg, s, Call) && s' == Apply(cfg, s, Call) && Control(cfg, s')
    ensures Healthy(cfg, s') ==> Stream(cfg, s')
  {
    CallEffect(cfg, s, s');
    if Healthy(cfg, s') {
      CallStream(cfg, s, s');
    }
  }

  lemma CollectCase(cfg: Config, s: State, s': State)
    requires Control(cfg, s) && Shm(cfg, s) && (Healthy(cfg, s) ==> Stream(cfg, s))
    requires Enabled(cfg, s, Collect) && s' == Apply(cfg, s, Collect) && Control(cfg, s')
    ensures Stream(cfg, s') && s'.results[..|s.results|] == s.results && |s'.results| == |s.results| + 1
    ensures s'.results[|s.results|].stdout == Printed(cfg, |s.results|)
  {
    HealthyIsAlive(cfg, s);
    CollectEffect(cfg, s, s');
    CollectStream(cfg, s, s');
  }

  lemma StepStream(cfg: Config, s: State, step: Step, s': State)
    requires Inv(cfg, s) && IsDivider(cfg.divider) && Enabled(cfg, s, step) && s' == Apply(cfg, s, step)
             && Control(cfg, s')
    ensures Healthy(cfg, s') ==> Stream(cfg, s')
  {
    if Moves(step) {
      MoveCase(cfg, s, step, s');
    } else if step.Call? {
      CallCase(cfg, s, s');
    } else if step.Collect? {
      CollectCase(cfg, s, s');
    } else {
      ConsumeCase(cfg, s, step, s');
    }
  }

  ghost predicate AllPrinted(cfg: Config, results: seq<Answer>) {
    |results| <= |cfg.inputs| && forall i :: 0 <= i < |results| ==> results[i].stdout == Printed(cfg, i)
  }

  lemma {:induction false} OneMorePrinted(cfg: Config, results: seq<Answer>, one: Answer)
    requires AllPrinted(cfg, results) && |results| < |cfg.inputs|
    requires one.stdout == Printed(cfg, |results|)
    ensures AllPrinted(cfg, results + [one])
  {
    var want: seq<seq<string>> := seq(|results| + 1, i requires 0 <= i < |results| + 1 => Printed(cfg, i));
    SnocMatches(results, one, want);
    forall i | 0 <= i < |results + [one]| ensures (results + [one])[i].stdout == Printed(cfg, i) {
      assert want[i] == Printed(cfg, i);
    }
  }

  lemma SnocMatches(results: seq<Answer>, one: Answer, want: seq<seq<string>>)
    requires |want| == |results| + 1 && one.stdout == want[|results|]
    requires forall i :: 0 <= i < |results| ==> results[i].stdout == want[i]
    ensures forall i :: 0 <= i < |want| ==> (results + [one])[i].stdout == want[i]
  {
  }

  lemma StepPrinted(cfg: Config, s: State, step: Step, s': State)
    requires Inv(cfg, s) && Enabled(cfg, s, step) && s' == Apply(cfg, s, step) && Control(cfg, s')
    ensures AllPrinted(cfg, s'.results)
  {
    if step.Collect? {
      CollectCase(cfg, s, s');
      var k := |s.results|;
      assert s'.results == s.results + [s'.results[k]];
      OneMorePrinted(cfg, s.results, s'.results[k]);
    } else {
      OnlyCollectAnswers(cfg, s, step);
    }
  }

  lemma StepInv(cfg: Config, s: State, step: Step, s': State)
    requires Inv(cfg, s) && IsDivider(cfg.divider) && Enabled(cfg, s, step) && s' == Apply(cfg, s, step)
    ensures Inv(cfg, s')
  {
    StepControl(cfg, s, step);
    StepShm(cfg, s, step, s');
    StepLines(cfg, s, step, s');
    StepStream(cfg, s, step, s');
    StepPrinted(cfg, s, step, s');
  }

  lemma StartInv(cfg: Config, s: State)
    requires s == START
    ensures Inv(cfg, s)
  {
    assert Rest(cfg, s) == [];
  }

  // ---------------------------------------------------------------- deadlock freedom

  /** All batches answered, or the call has raised. */
  predicate Final(cfg: Config, s: State) {
    (s.parent.Idle? && |s.results| == |cfg.inputs|) || s.parent.Raised?
  }

  predicate WorkerTurn(s: State) {
    Busy(s.child) || s.child.Exiting? || (s.child.Receiving? && s.toChild.Some?)
  }

  lemma WorkerCanStep(cfg: Config, s: State) returns (step: Step)
    requires Control(cfg, s) && Shm(cfg, s) && WorkerTurn(s) && s.pipe == [] && cfg.capacity > 0
    ensures Enabled(cfg, s, step)
  {
    if s.child.Receiving? {
      step := Receive;
    } else if s.child.Exiting? {
      step := Exit;
    } else if s.child.Received? {
      step := Release;
    } else if s.child.todo != [] {
      step := Write(1);
    } else if s.child.Evaluating? {
      step := StoreResult;
    } else {
      step := Respond;
    }
  }

  lemma LastIsDivider(left: seq<Line>, out: seq<char>, d: Line)
    requires IsDivider(d)
    ensures d in left + Lines(out + Mark(d))
  {
    StreamLines(out, d);
    var all := left + Lines(out + Mark(d));
    assert all[|all| - 1] == d;
  }

  lemma DividerAwaits(cfg: Config, s: State)
    requires Control(cfg, s) && Stream(cfg, s) && IsDivider(cfg.divider) && Healthy(cfg, s) && s.parent.TraceReading?
    ensures Rest(cfg, s) != []
  {
    var k := |s.results|;
    LastIsDivider(Left(cfg, k), OutcomeOf(cfg, k).stdout, cfg.divider);
    assert s.seen + s.pending + [] == s.seen;
  }

  /** A reader never waits for a worker that has nothing more to write. */
  lemma ReaderIsServed(cfg: Config, s: State)
    requires Inv(cfg, s) && IsDivider(cfg.divider) && Reading(s)
    ensures '\n' in s.buffer || s.pipe != [] || s.child.Dead? || WorkerTurn(s)
  {
    if s.pipe == [] && !s.child.Dead? && !WorkerTurn(s) {
      assert s.child.Receiving? && s.toChild.None?;
      assert StageOf(s).OutputLive? && Healthy(cfg, s);
      assert Rest(cfg, s) == s.buffer;
      if s.parent.TraceReading? {
        DividerAwaits(cfg, s);
      }
      assert s.buffer != [] && s.buffer[|s.buffer| - 1] in s.buffer;
    }
  }

  lemma WaiterCanStep(cfg: Config, s: State) returns (step: Step)
    requires Control(cfg, s) && Shm(cfg, s) && cfg.capacity > 0 && s.parent.Waiting?
    ensures Enabled(cfg, s, step)
  {
    if s.toParent.Some? || s.pipe != [] || s.child.Dead? {
      step := Select;
    } else {
      step := WorkerCanStep(cfg, s);
    }
  }

  lemma ReaderCanStep(cfg: Config, s: State) returns (step: Step)
    requires Control(cfg, s) && Shm(cfg, s) && cfg.capacity > 0 && Reading(s)
    requires '\n' in s.buffer || s.pipe != [] || s.child.Dead? || WorkerTurn(s)
    ensures Enabled(cfg, s, step)
  {
    if LineReady(s) {
      step := if s.parent.Draining? then DrainLine else TraceLine(false);
    } else if s.pipe != [] {
      step := Fill(1);
    } else {
      step := WorkerCanStep(cfg, s);
    }
  }

  lemma OtherCanStep(cfg: Config, s: State) returns (step: Step)
    requires Control(cfg, s) && Shm(cfg, s) && !Final(cfg, s) && !s.parent.Waiting? && !Reading(s)
    ensures Enabled(cfg, s, step)
  {
    if s.parent.Idle? {
      step := Call;
    } else if s.parent.Tracing? {
      step := if s.pending != [] then TracePending(false) else TraceMiss;
    } else {
      step := Collect;
    }
  }

  /** Some step is always possible until the session is over. */
  lemma CanStep(cfg: Config, s: State) returns (step: Step)
    requires Inv(cfg, s) && IsDivider(cfg.divider) && cfg.capacity > 0 && !Final(cfg, s)
    ensures Enabled(cfg, s, step)
  {
    if Reading(s) {
      ReaderIsServed(cfg, s);
      step := ReaderCanStep(cfg, s);
    } else if s.parent.Waiting? {
      step := WaiterCanStep(cfg, s);
    } else {
      step := OtherCanStep(cfg, s);
    }
  }

  // ---------------------------------------------------------------- termination

  function Chars(ls: seq<Line>): nat {
    if ls == [] then 0 else |ls[0]| + Chars(ls[1..])
  }

  lemma {:induction false} CharsSnoc(ls: seq<Line>, l: Line)
    ensures Chars(ls + [l]) == Chars(ls) + |l|
  {
    if ls != [] {
      assert (ls + [l])[1..] == ls[1..] + [l];
      CharsSnoc(ls[1..], l);
    } else {
      assert ([] + [l])[1..] == [];
    }
  }

  /** How far the output still has to travel. */
  function Distance(cfg: Config, s: State): nat {
    4 * |Todo(cfg, s)| + 3 * |s.pipe| + 2 * |s.buffer| + Chars(s.pending)
  }

  function WorkerRank(s: State): nat {
    (match s.child
     case Receiving => if s.toChild.Some? then 5 else 0
     case Received(_) => 4
     case Evaluating(_, _) => 3
     case Raising(_) => 3
     case Marking(_, _) => 2
     case Exiting => 1
     case Dead => 0) + if s.toParent.Some? then 1 else 0
  }

  function ParentRank(p: Parent): nat {
    match p
    case Waiting => 5
    case Draining(_) => 4
    case Tracing(_) => 3
    case TraceReading(_) => 2
    case Collecting(_) => 1
    case Idle => 0
    case Raised(_) => 0
  }

  /** A bound on the steps of all calls from batch `k` on. */
  function Costs(cfg: Config, k: nat): nat
    decreases |cfg.inputs| - k
  {
    if k >= |cfg.inputs| then 0 else 8 * |Total(cfg, k)| + 60 + Costs(cfg, k + 1)
  }

  function Rank(cfg: Config, s: State): nat {
    8 * WorkerRank(s) + 2 * Distance(cfg, s) + ParentRank(s.parent)
    + Costs(cfg, if s.parent.Idle? then |s.results| else |s.results| + 1)
  }

  /** Worker steps that write nothing lower the worker's rank. */
  lemma WorkerMoves(cfg: Config, s: State, step: Step, s': State)
    requires Control(cfg, s) && Enabled(cfg, s, step) && s' == Apply(cfg, s, step)
    requires step.Receive? || step.Release? || step.StoreResult? || step.Respond? || step.Exit?
    ensures WorkerRank(s') < WorkerRank(s) && s'.parent == s.parent && s'.results == s.results
    ensures s'.pipe == s.pipe && s'.buffer == s.buffer && s'.pending == s.pending
  {
  }

  lemma WorkerDecreases(cfg: Config, s: State, step: Step, s': State)
    requires Control(cfg, s) && Shm(cfg, s) && Enabled(cfg, s, step) && s' == Apply(cfg, s, step)
    requires step.Receive? || step.Release? || step.StoreResult? || step.Respond? || step.Exit?
    ensures Rank(cfg, s') < Rank(cfg, s)
  {
    MoveKeepsTodo(cfg, s, step);
    WorkerMoves(cfg, s, step, s');
  }

  lemma WriteDecreases(cfg: Config, s: State, n: nat, s': State)
    requires Control(cfg, s) && Enabled(cfg, s, Write(n)) && s' == Apply(cfg, s, Write(n))
    ensures Rank(cfg, s') < Rank(cfg, s)
  {
    assert |Todo(cfg, s')| == |Todo(cfg, s)| - n;
  }

  lemma ParentDecreases(cfg: Config, s: State, step: Step, s': State)
    requires Control(cfg, s) && Shm(cfg, s) && Enabled(cfg, s, step) && s' == Apply(cfg, s, step)
    requires step.Select? || step.Fill? || step.TraceMiss?
    ensures Rank(cfg, s') < Rank(cfg, s)
  {
    MoveKeepsTodo(cfg, s, step);
  }

  lemma MoveDecreases(cfg: Config, s: State, step: Step, s': State)
    requires Control(cfg, s) && Shm(cfg, s) && Enabled(cfg, s, step) && s' == Apply(cfg, s, step) && Moves(step)
    ensures Rank(cfg, s') < Rank(cfg, s)
  {
    if step.Write? {
      WriteDecreases(cfg, s, step.n, s');
    } else if step.Select? || step.Fill? || step.TraceMiss? {
      ParentDecreases(cfg, s, step, s');
    } else {
      WorkerDecreases(cfg, s, step, s');
    }
  }

  lemma CallDecreases(cfg: Config, s: State, s': State)
    requires Control(cfg, s) && Enabled(cfg, s, Call) && s' == Apply(cfg, s, Call)
    ensures Rank(cfg, s') < Rank(cfg, s)
  {
    assert Todo(cfg, s') == Total(cfg, |s.results|) && Todo(cfg, s) == [];
  }

  /** What looking at a line leaves alone. */
  lemma ExamineFrame(cfg: Config, s: State, line: Line, exited: bool)
    requires s.parent.Tracing? || s.parent.TraceReading?
    ensures var s' := Examine(cfg, s, line, exited);
            && s'.results == s.results && s'.pipe == s.pipe && s'.child == s.child && !s'.parent.Idle?
            && s'.toChild == s.toChild && s'.toParent == s.toParent && s'.buffer == s.buffer && s'.pending == s.pending
            && ParentRank(s'.parent) <= 3 && (line == [] ==> ParentRank(s'.parent) <= 1)
  {
  }

  /** What consuming output leaves alone. */
  lemma ConsumeFrame(cfg: Config, s: State, step: Step, s': State)
    requires Control(cfg, s) && Enabled(cfg, s, step) && s' == Apply(cfg, s, step)
    requires step.DrainLine? || step.TracePending? || step.TraceLine?
    ensures s'.results == s.results && !s.parent.Idle? && !s'.parent.Idle? && s'.pipe == s.pipe
    ensures s'.child == s.child && s'.toChild == s.toChild && s'.toParent == s.toParent
  {
    if step.TracePending? {
      ExamineFrame(cfg, s.(pending := s.pending[1..]), s.pending[0], step.exited);
    } else if step.TraceLine? {
      ExamineFrame(cfg, s.(buffer := s.buffer[LineLength(s)..]), s.buffer[..LineLength(s)], step.exited);
    }
  }

  lemma SameWorker(cfg: Config, s: State, s': State)
    requires s'.results == s.results && s'.parent.Idle? == s.parent.Idle?
    requires s'.child == s.child && s'.toChild == s.toChild && s'.toParent == s.toParent
    ensures Todo(cfg, s') == Todo(cfg, s) && WorkerRank(s') == WorkerRank(s)
  {
  }

  lemma DrainDecreases(cfg: Config, s: State, s': State)
    requires Control(cfg, s) && Enabled(cfg, s, DrainLine) && s' == Apply(cfg, s, DrainLine)
    ensures Rank(cfg, s') < Rank(cfg, s)
  {
    ConsumeFrame(cfg, s, DrainLine, s');
    SameWorker(cfg, s, s');
    CharsSnoc(s.pending, s.buffer[..LineLength(s)]);
  }

  lemma TraceDecreases(cfg: Config, s: State, step: Step, s': State)
    requires Control(cfg, s) && NonEmpty(s.pending) && Enabled(cfg, s, step) && s' == Apply(cfg, s, step)
    requires step.TracePending? || step.TraceLine?
    ensures Rank(cfg, s') < Rank(cfg, s)
  {
    ConsumeFrame(cfg, s, step, s');
    SameWorker(cfg, s, s');
    if step.TracePending? {
      ExamineFrame(cfg, s.(pending := s.pending[1..]), s.pending[0], step.exited);
      assert Chars(s'.pending) == Chars(s.pending) - |s.pending[0]|;
    } else {
      ExamineFrame(cfg, s.(buffer := s.buffer[LineLength(s)..]), s.buffer[..LineLength(s)], step.exited);
    }
  }

  lemma CollectDecreases(cfg: Config, s: State, s': State)
    requires Control(cfg, s) && Enabled(cfg, s, Collect) && s' == Apply(cfg, s, Collect)
    ensures Rank(cfg, s') < Rank(cfg, s)
  {
    assert Todo(cfg, s') == Todo(cfg, s);
  }

  lemma StepDecreases(cfg: Config, s: State, step: Step, s': State)
    requires Inv(cfg, s) && Enabled(cfg, s, step) && s' == Apply(cfg, s, step)
    ensures Rank(cfg, s') < Rank(cfg, s)
  {
    if Moves(step) {
      MoveDecreases(cfg, s, step, s');
    } else if step.Call? {
      CallDecreases(cfg, s, s');
    } else if step.Collect? {
      CollectDecreases(cfg, s, s');
    } else if step.DrainLine? {
      DrainDecreases(cfg, s, s');
    } else {
      TraceDecreases(cfg, s, step, s');
    }
  }

  // ---------------------------------------------------------------- whole sessions

  predicate Legal(cfg: Config, s: State, run: seq<Step>)
    decreases |run|
  {
    run == [] || (Enabled(cfg, s, run[0]) && Legal(cfg, Apply(cfg, s, run[0]), run[1..]))
  }

  function After(cfg: Config, s: State, run: seq<Step>): State
    requires Legal(cfg, s, run)
    decreases |run|
  {
    if run == [] then s else After(cfg, Apply(cfg, s, run[0]), run[1..])
  }

  lemma {:induction false} RunInv(cfg: Config, s: State, run: seq<Step>, end: State)
    requires Inv(cfg, s) && IsDivider(cfg.divider) && Legal(cfg, s, run) && end == After(cfg, s, run)
    ensures Inv(cfg, end) && |run| + Rank(cfg, end) <= Rank(cfg, s)
    decreases |run|
  {
    if run == [] {
    } else {
      var next := Apply(cfg, s, run[0]);
      StepInv(cfg, s, run[0], next);
      StepDecreases(cfg, s, run[0], next);
      RunInv(cfg, next, run[1..], end);
    }
  }

  predicate Reaches(cfg: Config, run: seq<Step>, s: State) {
    Legal(cfg, START, run) && After(cfg, START, run) == s
  }

  lemma ReachableInv(cfg: Config, run: seq<Step>, s: State)
    requires IsDivider(cfg.divider) && Reaches(cfg, run, s)
    ensures Inv(cfg, s) && |run| <= Costs(cfg, 0)
  {
    StartInv(cfg, START);
    RunInv(cfg, START, run, s);
    assert Rank(cfg, START) == Costs(cfg, 0);
  }

  /**
   Whatever the UDF prints and however small the pipe, no interleaving of parent and worker
   gets stuck or runs for ever: a session takes a bounded number of steps, and until it is over
   some step is possible.
   */
  lemma SessionTerminates(cfg: Config, run: seq<Step>, s: State)
    requires IsDivider(cfg.divider) && cfg.capacity > 0 && Reaches(cfg, run, s)
    ensures |run| <= Costs(cfg, 0)
    ensures Final(cfg, s) || exists step :: Enabled(cfg, s, step)
  {
    ReachableInv(cfg, run, s);
    if !Final(cfg, s) {
      var step := CanStep(cfg, s);
    }
  }

  /** Every answer is the batch's own result and the lines that `Frame` reads off the worker's output alone. */
  lemma AnswersAreExact(cfg: Config, run: seq<Step>, s: State, i: nat)
    requires IsDivider(cfg.divider) && Reaches(cfg, run, s) && i < |s.results|
    ensures i < |cfg.inputs| && OutcomeOf(cfg, i).Returns?
    ensures s.results[i] == Answer(Printed(cfg, i), OutcomeOf(cfg, i).result)
  {
    ReachableInv(cfg, run, s);
  }

  lemma SettledSegments(cfg: Config, s: State)
    requires Control(cfg, s) && Shm(cfg, s)
    ensures s.parent.Idle? ==> StageOf(s).Empty? && s.segments == map[] && s.log == FullLog(|s.results|)
    ensures s.parent.Raised? ==> StageOf(s).Failed? && s.segments == map[]
    ensures s.parent.Raised? ==> s.log == FullLog(|s.results|) + BatchLog(|s.results|)[..2]
    ensures s.parent.Raised? ==> |s.results| < |cfg.inputs| && OutcomeOf(cfg, |s.results|).Raises?
  {
  }

  /**
   Between calls, and after a call that raised, no segment is live; each was created once and unlinked once, by the
   other process.
   */
  lemma SegmentsAreReleased(cfg: Config, run: seq<Step>, s: State)
    requires IsDivider(cfg.divider) && Reaches(cfg, run, s)
    ensures s.parent.Idle? ==> s.segments == map[] && s.log == FullLog(|s.results|)
    ensures s.parent.Raised? ==>
              s.segments == map[] && s.log == FullLog(|s.results|) + BatchLog(|s.results|)[..2]
              && |s.results| < |cfg.inputs| && OutcomeOf(cfg, |s.results|).Raises?
  {
    ReachableInv(cfg, run, s);
    SettledSegments(cfg, s);
  }

  // ---------------------------------------------------------------- a UDF that raises

  /** The parent holds the error response and will raise it. */
  predicate WillRaise(s: State) {
    && Ended(s.child) && s.toChild.None?
    && match s.parent
       case Draining(got) => got == Some(UdfError) && s.buffer + s.pipe != []
       case Tracing(got) => got == Some(UdfError)
       case TraceReading(got) => got == Some(UdfError)
       case Raised(error) => error == UdfException
       case _ => false
  }

  /** The parent is at the end of the output and will report a closed connection. */
  predicate WillMiss(s: State) {
    && s.child.Dead? && s.toChild.None? && s.pipe == [] && s.buffer == []
    && match s.parent
       case Draining(_) => true
       case Tracing(got) => got.None?
       case TraceReading(got) => got.None?
       case Raised(error) => error == ConnectionClosed
       case _ => false
  }

  lemma ExamineWillRaise(cfg: Config, s: State, line: Line, exited: bool)
    requires WillRaise(s) && (s.parent.Tracing? || s.parent.TraceReading?)
    ensures WillRaise(Examine(cfg, s, line, exited))
  {
  }

  lemma ReadWillRaise(cfg: Config, s: State, step: Step)
    requires WillRaise(s) && Enabled(cfg, s, step) && !step.TracePending? && !step.TraceLine?
    ensures WillRaise(Apply(cfg, s, step))
  {
  }

  lemma StepWillRaise(cfg: Config, s: State, step: Step)
    requires WillRaise(s) && Enabled(cfg, s, step)
    ensures WillRaise(Apply(cfg, s, step))
  {
    if step.TracePending? {
      ExamineWillRaise(cfg, s.(pending := s.pending[1..]), s.pending[0], step.exited);
    } else if step.TraceLine? {
      ExamineWillRaise(cfg, s.(buffer := s.buffer[LineLength(s)..]), s.buffer[..LineLength(s)], step.exited);
    } else {
      ReadWillRaise(cfg, s, step);
    }
  }

  lemma StepWillMiss(cfg: Config, s: State, step: Step)
    requires WillMiss(s) && Enabled(cfg, s, step)
    ensures WillMiss(Apply(cfg, s, step))
  {
  }

  /** Once the exit is noticed, the next line that is not a bare newline ends the call. */
  lemma ExitEndsTheCall(cfg: Config, s: State, step: Step)
    requires WillRaise(s) && Enabled(cfg, s, step)
    requires (step.TracePending? && s.pending[0] != ['\n']) || (step.TraceLine? && s.buffer[..LineLength(s)] != ['\n'])
    requires step.exited
    ensures Apply(cfg, s, step).parent == Raised(UdfException)
  {
  }

  lemma {:induction false} FateIsSealed(cfg: Config, s: State, run: seq<Step>, end: State)
    requires Legal(cfg, s, run) && end == After(cfg, s, run) && (WillRaise(s) || WillMiss(s))
    ensures if WillRaise(s) then WillRaise(end) else WillMiss(end)
    decreases |run|
  {
    if run == [] {
    } else {
      if WillRaise(s) {
        StepWillRaise(cfg, s, run[0]);
      } else {
        StepWillMiss(cfg, s, run[0]);
      }
      FateIsSealed(cfg, Apply(cfg, s, run[0]), run[1..], end);
    }
  }

  /**
   When the parent receives the response of a UDF that raised, the call ends with that exception, unless
   the worker has exited and all its output has been read: then end of file is seen first, and the call
   ends with a closed connection instead.
   */
  lemma WhichErrorIsRaised(cfg: Config, past: seq<Step>, s: State, run: seq<Step>, end: State)
    requires IsDivider(cfg.divider) && Reaches(cfg, past, s) && s.parent.Waiting? && s.toParent == Some(UdfError)
    requires Legal(cfg, Apply(cfg, s, Select), run) && end == After(cfg, Apply(cfg, s, Select), run)
             && end.parent.Raised?
    ensures end.parent.error == ConnectionClosed <==> s.child.Dead? && s.pipe == [] && s.buffer == []
  {
    ReachableInv(cfg, past, s);
    var next := Apply(cfg, s, Select);
    assert if s.child.Dead? && s.pipe == [] && s.buffer == [] then WillMiss(next) else WillRaise(next);
    FateIsSealed(cfg, next, run, end);
  }

  lemma {:induction false} LegalSnoc(cfg: Config, s: State, run: seq<Step>, mid: State, step: Step)
    requires Legal(cfg, s, run) && After(cfg, s, run) == mid && Enabled(cfg, mid, step)
    ensures Legal(cfg, s, run + [step]) && After(cfg, s, run + [step]) == Apply(cfg, mid, step)
    decreases |run|
  {
    if run == [] {
      assert run + [step] == [step] && [step][1..] == [];
      assert Legal(cfg, Apply(cfg, mid, step), []);
    } else {
      LegalSnoc(cfg, Apply(cfg, s, run[0]), run[1..], mid, step);
      assert (run + [step])[1..] == run[1..] + [step];
    }
  }

  lemma ReachMore(cfg: Config, run: seq<Step>, s: State, step: Step) returns (run': seq<Step>, s': State)
    requires Reaches(cfg, run, s) && Enabled(cfg, s, step)
    ensures Reaches(cfg, run', s') && s' == Apply(cfg, s, step)
  {
    run', s' := run + [step], Apply(cfg, s, step);
    LegalSnoc(cfg, START, run, s, step);
  }

  /** The first batch raises silently; the worker has answered and its output is still open. */
  lemma AnsweredWithError(cfg: Config, start: State) returns (run: seq<Step>, s: State)
    requires start == START && |cfg.inputs| > 0 && OutcomeOf(cfg, 0) == Raises([])
    ensures Reaches(cfg, run, s) && s.parent.Waiting? && s.child.Exiting? && s.toParent == Some(UdfError)
    ensures s.pipe == [] && s.buffer == [] && s.pending == []
  {
    StartInv(cfg, start);
    var s1, s2, s3;
    run, s1 := ReachMore(cfg, [], start, Call);
    run, s2 := ReachMore(cfg, run, s1, Receive);
    assert s2.segments[0][..|cfg.inputs[0]|] == cfg.inputs[0];
    run, s3 := ReachMore(cfg, run, s2, Release);
    run, s := ReachMore(cfg, run, s3, Respond);
  }

  /** Both ends of such a call can happen. */
  lemma EitherErrorCanBeRaised(cfg: Config, start: State) returns (run: seq<Step>, s: State, run': seq<Step>, s': State)
    requires start == START && |cfg.inputs| > 0 && OutcomeOf(cfg, 0) == Raises([])
    ensures Reaches(cfg, run, s) && s.parent == Raised(UdfException)
    ensures Reaches(cfg, run', s') && s'.parent == Raised(ConnectionClosed)
  {
    run, s := AnsweredWithError(cfg, start);
    run', s' := ReachMore(cfg, run, s, Exit);
    run', s' := ReachMore(cfg, run', s', Select);
    run', s' := ReachMore(cfg, run', s', DrainLine);
    run', s' := ReachMore(cfg, run', s', TraceMiss);
    run', s' := ReachMore(cfg, run', s', TraceLine(false));
    run, s := ReachMore(cfg, run, s, Select);
    run, s := ReachMore(cfg, run, s, TraceMiss);
    run, s := ReachMore(cfg, run, s, Exit);
    run, s := ReachMore(cfg, run, s, TraceLine(false));
  }

  /** Batch `k` does not raise and does not print the divider. */
  predicate PlainBatch(cfg: Config, k: nat)
    requires k < |cfg.inputs|
  {
    OutcomeOf(cfg, k).Returns? && !ContainsDivider(OutcomeOf(cfg, k).stdout, cfg.divider)
  }

  ghost predicate Undivided(cfg: Config, k: nat) {
    k <= |cfg.inputs| && forall i: nat :: i < k ==> PlainBatch(cfg, i)
  }

  /** A plain batch that starts with nothing left over is framed exactly. */
  lemma OwnLines(cfg: Config, k: nat)
    requires IsDivider(cfg.divider) && k < |cfg.inputs| && Left(cfg, k) == [] && PlainBatch(cfg, k)
    ensures Frame(Left(cfg, k) + Lines(Total(cfg, k)), cfg.divider)
            == Framed(Reported(Lines(OutcomeOf(cfg, k).stdout)), [])
  {
    FrameOwn(Left(cfg, k), OutcomeOf(cfg, k).stdout, cfg.divider);
  }

  lemma LeavesNothing(cfg: Config, k: nat)
    requires IsDivider(cfg.divider) && k < |cfg.inputs| && Left(cfg, k) == [] && PlainBatch(cfg, k)
    ensures Left(cfg, k + 1) == []
  {
    OwnLines(cfg, k);
  }

  lemma LastIsPlain(cfg: Config, j: nat, k: nat)
    requires Undivided(cfg, k) && k == j + 1
    ensures k <= |cfg.inputs| && Undivided(cfg, j) && PlainBatch(cfg, j)
  {
  }

  predicate Clear(cfg: Config, k: nat) {
    k <= |cfg.inputs| && Left(cfg, k) == []
  }

  lemma StaysClear(cfg: Config, j: nat, k: nat)
    requires IsDivider(cfg.divider) && k == j + 1 && k <= |cfg.inputs| && PlainBatch(cfg, j) && Clear(cfg, j)
    ensures Clear(cfg, k)
  {
    LeavesNothing(cfg, j);
  }

  lemma {:induction false} NothingLeft(cfg: Config, k: nat)
    requires IsDivider(cfg.divider) && Undivided(cfg, k)
    ensures Clear(cfg, k)
    decreases k
  {
    if k == 0 {
    } else {
      var j := k - 1;
      LastIsPlain(cfg, j, k);
      NothingLeft(cfg, j);
      StaysClear(cfg, j, k);
    }
  }

  lemma IdleIsEmpty(cfg: Config, s: State)
    requires Control(cfg, s) && Stream(cfg, s) && s.parent.Idle? && Left(cfg, |s.results|) == []
    ensures s.pending == [] && s.buffer == [] && s.pipe == []
  {
    assert Lines(Rest(cfg, s)) == [];
    assert |Rest(cfg, s)| >= |s.buffer| + |s.pipe|;
  }

  lemma PrintedIsOwn(cfg: Config, s: State, i: nat)
    requires IsDivider(cfg.divider) && AllPrinted(cfg, s.results) && i < |s.results|
    requires Undivided(cfg, i) && PlainBatch(cfg, i)
    ensures s.results[i].stdout == Reported(Lines(OutcomeOf(cfg, i).stdout))
  {
    NothingLeft(cfg, i);
    OwnLines(cfg, i);
  }

  lemma NothingBetweenCalls(cfg: Config, s: State)
    requires IsDivider(cfg.divider) && Control(cfg, s) && Stream(cfg, s) && s.parent.Idle?
             && Undivided(cfg, |s.results|)
    ensures s.pending == [] && s.buffer == [] && s.pipe == []
  {
    NothingLeft(cfg, |s.results|);
    IdleIsEmpty(cfg, s);
  }

  /**
   If no batch prints the divider, each call returns exactly the lines its own batch printed,
   bare newlines dropped, however they were split between draining and tracing, and between
   calls no output is left anywhere.
   */
  lemma LinesBelongToTheirBatch(cfg: Config, run: seq<Step>, s: State, i: nat)
    requires IsDivider(cfg.divider) && Reaches(cfg, run, s) && Undivided(cfg, |s.results|)
    ensures i < |s.results| ==> s.results[i].stdout == Reported(Lines(OutcomeOf(cfg, i).stdout))
    ensures s.parent.Idle? ==> s.pending == [] && s.buffer == [] && s.pipe == []
  {
    ReachableInv(cfg, run, s);
    if i < |s.results| {
      assert PlainBatch(cfg, i);
      PrintedIsOwn(cfg, s, i);
    }
    if s.parent.Idle? {
      NothingBetweenCalls(cfg, s);
    }
  }

  /**
   A batch that prints texts, one per line, gets exactly those texts back, without the empty ones,
   provided no earlier batch raised or printed the divider.
   */
  lemma PrintedTextsAreReturned(cfg: Config, run: seq<Step>, s: State, i: nat, ts: seq<string>)
    requires IsDivider(cfg.divider) && Reaches(cfg, run, s) && i < |s.results| && i < |cfg.inputs|
    requires Undivided(cfg, i) && OutcomeOf(cfg, i).stdout == Print(ts) && Tidy(ts, cfg.divider)
    ensures s.results[i].stdout == Visible(ts)
    ensures (forall k :: 0 <= k < |ts| ==> ts[k] != []) ==> s.results[i].stdout == ts
  {
    AnswersAreExact(cfg, run, s, i);
    ReachableInv(cfg, run, s);
    PrintContainsNoDivider(ts, cfg.divider);
    PrintedIsOwn(cfg, s, i);
    PrintIsReported(ts, cfg.divider);
    if forall k :: 0 <= k < |ts| ==> ts[k] != [] {
      AllVisible(ts);
    }
  }
}
