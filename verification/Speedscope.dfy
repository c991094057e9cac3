/**
 Conversion of JSON tracing records into a SpeedScope evented profile.  `Convert` is the
 meaning of the conversion, `ConvertRecords` the loop over the records; the theorems say
 which record lists are accepted and that the profile shows the same tree of spans.
 */
module Speedscope {
  import opened Options
  import opened Sequences
  import opened SpanForest

  datatype Json = Str(s: string) | Obj(fields: map<string, Json>) | Arr(items: seq<Json>) | Scalar

  type Record = map<string, Json>

  datatype Error =
    | UnhashableMessage | BadAncestors | BadTimestamp | TimeWentBack | NotNested | NoEvents | Unclosed

  datatype OutEvent = OutEvent(kind: Kind, at: int, frame: nat)

  datatype Profile = Profile(frames: seq<string>, endValue: int, events: seq<OutEvent>)

  /** Microseconds of a timestamp with a UTC offset; None if it does not parse or has no offset. */
  type Clock = string -> Option<int>

  // ---------------------------------------------------------------- reading records

  function Get(r: map<string, Json>, key: string): Json {
    if key in r then r[key] else Scalar
  }

  datatype Decoded = Ignored | Event(event: SpanEvent) | Malformed(error: Error)

  /** The names in a list of ancestor objects; None if an entry is not an object with a name. */
  function AncestorNames(items: seq<Json>): Option<seq<string>> {
    if items == [] then Some([])
    else if items[0].Obj? && Get(items[0].fields, "name").Str? then
      match AncestorNames(items[1..])
      case None => None
      case Some(names) => Some([Get(items[0].fields, "name").s] + names)
    else None
  }

  function Decode(r: Record, clock: Clock): Decoded {
    var fields, span := Get(r, "fields"), Get(r, "span");
    if !fields.Obj? || !span.Obj? then Ignored
    else
      var message, name := Get(fields.fields, "message"), Get(span.fields, "name");
      if message.Arr? || message.Obj? then Malformed(UnhashableMessage)
      else if message !in {Str("new"), Str("close")} || !name.Str? then Ignored
      else
        var raw := if "spans" in r then r["spans"] else Arr([]);
        if !raw.Arr? then Malformed(BadAncestors)
        else
          match AncestorNames(raw.items)
          case None => Malformed(BadAncestors)
          case Some(names) =>
            var stamp := Get(r, "timestamp");
            if !stamp.Str? || clock(stamp.s).None? then Malformed(BadTimestamp)
            else Event(SpanEvent(if message.s == "new" then Open else Close, name.s, names, clock(stamp.s).value))
  }

  /** The span events of a record list in order, if every record is ignorable or well formed. */
  function Read(records: seq<Record>, clock: Clock): Option<seq<SpanEvent>> {
    if records == [] then Some([])
    else
      match (Decode(records[0], clock), Read(records[1..], clock))
      case (Malformed(_), _) => None
      case (_, None) => None
      case (Ignored, Some(evs)) => Some(evs)
      case (Event(e), Some(evs)) => Some([e] + evs)
  }

  // ---------------------------------------------------------------- the conversion

  datatype Progress = Progress(stack: seq<string>, frames: seq<string>, events: seq<OutEvent>,
                               start: int, previous: Option<int>)

  const BLANK := Progress([], [], [], 0, None)

  function Advance(p: Progress, e: SpanEvent): Result<Progress, Error> {
    if p.previous.Some? && e.at < p.previous.value then Err(TimeWentBack)
    else
      match Nest(p.stack, e)
      case None => Err(NotNested)
      case Some(stack) =>
        var start := if p.previous.None? then e.at else p.start;
        Ok(Progress(stack,
                    if e.name in p.frames then p.frames else p.frames + [e.name],
                    p.events + [OutEvent(e.kind, e.at - start, IndexOf(p.frames, e.name))],
                    start, Some(e.at)))
  }

  function AdvanceAll(p: Progress, evs: seq<SpanEvent>): Result<Progress, Error>
    decreases |evs|
  {
    if evs == [] then Ok(p)
    else
      match Advance(p, evs[0])
      case Err(error) => Err(error)
      case Ok(p') => AdvanceAll(p', evs[1..])
  }

  function ScanOne(p: Progress, record: Record, clock: Clock): Result<Progress, Error> {
    match Decode(record, clock)
    case Malformed(error) => Err(error)
    case Ignored => Ok(p)
    case Event(e) => Advance(p, e)
  }

  function Scan(p: Progress, records: seq<Record>, clock: Clock): Result<Progress, Error>
    decreases |records|
  {
    if records == [] then Ok(p)
    else
      var next := ScanOne(p, records[0], clock);
      if next.Err? then next else Scan(next.value, records[1..], clock)
  }

  function Finish(p: Progress): Result<Profile, Error> {
    if p.events == [] then Err(NoEvents)
    else if p.stack != [] then Err(Unclosed)
    else Ok(Profile(p.frames, p.events[|p.events| - 1].at, p.events))
  }

  function Convert(records: seq<Record>, clock: Clock): Result<Profile, Error> {
    match Scan(BLANK, records, clock)
    case Err(error) => Err(error)
    case Ok(p) => Finish(p)
  }

  /** Checks one event against the open spans and updates them. */
  method PushOrPop(stack: seq<string>, e: SpanEvent) returns (r: Option<seq<string>>)
    ensures r == Nest(stack, e)
  {
    var ancestors := e.ancestors;
    if e.kind == Open {
      if ancestors != stack && ancestors == stack + [e.name] {
        ancestors := ancestors[..|ancestors| - 1];
      }
      if ancestors != stack {
        return None;
      }
      return Some(stack + [e.name]);
    }
    var outer := if stack == [] then [] else stack[..|stack| - 1];
    if ancestors != outer && ancestors == outer + [e.name] {
      ancestors := ancestors[..|ancestors| - 1];
    }
    if stack == [] || stack[|stack| - 1] != e.name || ancestors != outer {
      return None;
    }
    return Some(outer);
  }

  ghost predicate Indexes(table: map<string, nat>, frames: seq<string>) {
    && (forall name :: name in table <==> name in frames)
    && (forall name :: name in table ==> table[name] == IndexOf(frames, name))
  }

  /** The loop body for one span event; `table` is the dictionary kept beside the frame names. */
  method Absorb(p: Progress, table: map<string, nat>, e: SpanEvent)
    returns (r: Result<Progress, Error>, table': map<string, nat>)
    requires Indexes(table, p.frames)
    ensures r == Advance(p, e)
    ensures r.Ok? ==> Indexes(table', r.value.frames)
  {
    table' := table;
    if p.previous.Some? && e.at < p.previous.value {
      return Err(TimeWentBack), table';
    }
    var start := if p.previous.None? then e.at else p.start;
    var stack := PushOrPop(p.stack, e);
    if stack.None? {
      return Err(NotNested), table';
    }
    IndexOfIsFirst(p.frames, e.name);
    var frames := p.frames;
    if e.name !in table' {
      AppendKeepsIndexes(frames, e.name);
      table' := table'[e.name := |frames|];
      frames := frames + [e.name];
    }
    var out := OutEvent(e.kind, e.at - start, table'[e.name]);
    r := Ok(Progress(stack.value, frames, p.events + [out], start, Some(e.at)));
  }

  lemma ScanUnfolds(p: Progress, records: seq<Record>, i: nat, clock: Clock)
    requires i < |records|
    ensures var next := ScanOne(p, records[i], clock);
            Scan(p, records[i..], clock) == if next.Err? then next else Scan(next.value, records[i + 1..], clock)
  {
    assert records[i..][0] == records[i] && records[i..][1..] == records[i + 1..];
  }

  method ConvertRecords(records: seq<Record>, clock: Clock) returns (r: Result<Profile, Error>)
    ensures r == Convert(records, clock)
  {
    var p := BLANK;
    var frameIndexes: map<string, nat> := map[];
    ghost var whole := Scan(p, records, clock);
    assert records[0..] == records;
    for i := 0 to |records|
      invariant whole == Scan(p, records[i..], clock)
      invariant Indexes(frameIndexes, p.frames)
    {
      ScanUnfolds(p, records, i, clock);
      match Decode(records[i], clock) {
        case Ignored => continue;
        case Malformed(error) => return Err(error);
        case Event(e) =>
          var next;
          next, frameIndexes := Absorb(p, frameIndexes, e);
          if next.Err? {
            return Err(next.error);
          }
          p := next.value;
      }
    }
    if p.events == [] {
      return Err(NoEvents);
    }
    if p.stack != [] {
      return Err(Unclosed);
    }
    return Ok(Profile(p.frames, p.events[|p.events| - 1].at, p.events));
  }

  lemma {:induction false} AppendKeepsIndexes(frames: seq<string>, name: string)
    requires name !in frames
    ensures IndexOf(frames + [name], name) == |frames|
    ensures forall other :: other in frames ==> IndexOf(frames + [name], other) == IndexOf(frames, other)
  {
    if frames == [] {
    } else {
      assert (frames + [name])[1..] == frames[1..] + [name];
      AppendKeepsIndexes(frames[1..], name);
    }
  }

  // ---------------------------------------------------------------- records and events

  lemma {:induction false} ScanIsReadThenAdvance(p: Progress, records: seq<Record>, clock: Clock)
    ensures match Read(records, clock)
            case None => Scan(p, records, clock).Err?
            case Some(evs) => Scan(p, records, clock) == AdvanceAll(p, evs)
    decreases |records|
  {
    if records == [] {
    } else {
      var next := ScanOne(p, records[0], clock);
      if next.Ok? {
        ScanIsReadThenAdvance(next.value, records[1..], clock);
      }
      if Read(records, clock).Some? && Decode(records[0], clock).Event? {
        assert Read(records, clock).value[1..] == Read(records[1..], clock).value;
      }
    }
  }

  predicate OrderedAfter(t: Option<int>, evs: seq<SpanEvent>)
    decreases |evs|
  {
    evs == [] || ((t.Some? ==> t.value <= evs[0].at) && OrderedAfter(Some(evs[0].at), evs[1..]))
  }

  lemma {:induction false} AdvanceAllIffNested(p: Progress, evs: seq<SpanEvent>)
    ensures AdvanceAll(p, evs).Ok? <==> OrderedAfter(p.previous, evs) && NestAll(p.stack, evs).Some?
    ensures AdvanceAll(p, evs).Ok? ==> NestAll(p.stack, evs) == Some(AdvanceAll(p, evs).value.stack)
    decreases |evs|
  {
    if evs != [] && Advance(p, evs[0]).Ok? {
      AdvanceAllIffNested(Advance(p, evs[0]).value, evs[1..]);
    }
  }

  // ---------------------------------------------------------------- what the profile shows

  /** The distinct span names in order of first appearance. */
  function Names(evs: seq<SpanEvent>): seq<string> {
    if evs == [] then []
    else
      var names, name := Names(evs[..|evs| - 1]), evs[|evs| - 1].name;
      if name in names then names else names + [name]
  }

  /** The names of fewer events come first. */
  lemma {:induction false} NamesGrow(evs: seq<SpanEvent>, k: nat)
    requires k <= |evs|
    ensures Names(evs[..k]) <= Names(evs)
    decreases |evs|
  {
    if k == |evs| {
      assert evs[..k] == evs;
    } else {
      var n := |evs| - 1;
      NamesGrow(evs[..n], k);
      assert evs[..n][..k] == evs[..k];
    }
  }

  /** Each name is listed once. */
  lemma {:induction false} NamesAreDistinct(evs: seq<SpanEvent>)
    ensures forall i, j :: 0 <= i < j < |Names(evs)| ==> Names(evs)[i] != Names(evs)[j]
  {
    if evs == [] {
    } else {
      NamesAreDistinct(evs[..|evs| - 1]);
    }
  }

  /** The names listed are those of the events. */
  lemma {:induction false} NamesIff(evs: seq<SpanEvent>, name: string)
    ensures name in Names(evs) <==> exists i :: 0 <= i < |evs| && evs[i].name == name
  {
    if evs == [] {
    } else {
      var n := |evs| - 1;
      NamesIff(evs[..n], name);
      if i :| 0 <= i < n && evs[i].name == name {
        assert evs[..n][i].name == name;
      }
    }
  }

  predicate Shows(frames: seq<string>, out: OutEvent, e: SpanEvent, start: int) {
    out.kind == e.kind && out.at == e.at - start && out.frame < |frames| && frames[out.frame] == e.name
  }

  /** `p` is the outcome of the events `done`. */
  ghost predicate Reflects(p: Progress, done: seq<SpanEvent>) {
    && |p.events| == |done|
    && p.frames == Names(done)
    && (forall i :: 0 <= i < |done| ==> Shows(p.frames, p.events[i], done[i], p.start))
    && (p.previous.None? <==> done == [])
    && (done != [] ==> p.start == done[0].at && p.previous == Some(done[|done| - 1].at))
  }

  lemma AdvanceReflects(p: Progress, done: seq<SpanEvent>, e: SpanEvent)
    requires Reflects(p, done) && Advance(p, e).Ok?
    ensures Reflects(Advance(p, e).value, done + [e])
  {
    var p' := Advance(p, e).value;
    IndexOfIsFirst(p.frames, e.name);
    assert (done + [e])[..|done|] == done;
    forall i | 0 <= i < |done + [e]| ensures Shows(p'.frames, p'.events[i], (done + [e])[i], p'.start) {
      if i < |done| {
        assert Shows(p.frames, p.events[i], done[i], p.start);
      }
    }
  }

  lemma Regroup<T>(done: seq<T>, evs: seq<T>)
    requires evs != []
    ensures (done + [evs[0]]) + evs[1..] == done + evs
  {
  }

  lemma {:induction false} AdvanceAllReflects(p: Progress, done: seq<SpanEvent>, evs: seq<SpanEvent>, q: Progress)
    requires Reflects(p, done) && AdvanceAll(p, evs) == Ok(q)
    ensures Reflects(q, done + evs)
    decreases |evs|
  {
    if evs == [] {
      assert done + evs == done;
    } else {
      var next := Advance(p, evs[0]).value;
      AdvanceReflects(p, done, evs[0]);
      Regroup(done, evs);
      AdvanceAllReflects(next, done + [evs[0]], evs[1..], q);
    }
  }

  ghost predicate WellFormed(profile: Profile) {
    forall i :: 0 <= i < |profile.events| ==> profile.events[i].frame < |profile.frames|
  }

  /** The tree a viewer of the profile rebuilds, times relative to the first event. */
  function Rebuild(profile: Profile): Forest
    requires WellFormed(profile)
  {
    Parse(seq(|profile.events|, i requires 0 <= i < |profile.events| =>
      Mark(profile.events[i].kind, profile.frames[profile.events[i].frame], profile.events[i].at))).forest
  }

  lemma {:induction false} MarksAt(evs: seq<SpanEvent>, d: int)
    ensures |MarksOf(evs, d)| == |evs|
    ensures forall i :: 0 <= i < |evs| ==> MarksOf(evs, d)[i] == Mark(evs[i].kind, evs[i].name, evs[i].at + d)
  {
    if evs == [] {
    } else {
      MarksAt(evs[1..], d);
    }
  }

  lemma RebuildParsesMarks(p: Progress, evs: seq<SpanEvent>, profile: Profile)
    requires Reflects(p, evs) && profile.frames == p.frames && profile.events == p.events
    ensures WellFormed(profile) && Rebuild(profile) == Parse(MarksOf(evs, -p.start)).forest
  {
    forall i | 0 <= i < |profile.events| ensures profile.events[i].frame < |profile.frames| {
      assert Shows(p.frames, p.events[i], evs[i], p.start);
    }
    MarksAt(evs, -p.start);
    var ms := seq(|profile.events|, i requires 0 <= i < |profile.events| =>
      Mark(profile.events[i].kind, profile.frames[profile.events[i].frame], profile.events[i].at));
    forall i | 0 <= i < |evs| ensures ms[i] == MarksOf(evs, -p.start)[i] {
      assert Shows(p.frames, p.events[i], evs[i], p.start);
    }
    assert ms == MarksOf(evs, -p.start);
  }

  // ---------------------------------------------------------------- theorems

  /** The span events of `records` are the walk of `f` with times that never go back. */
  ghost predicate Traces(records: seq<Record>, clock: Clock, f: Forest) {
    f.Node? && Read(records, clock) == Some(Walk(f, [], [])) && OrderedAfter(None, Walk(f, [], []))
  }

  lemma ConvertIsFinish(records: seq<Record>, clock: Clock, evs: seq<SpanEvent>, p: Progress)
    requires Read(records, clock) == Some(evs) && AdvanceAll(BLANK, evs) == Ok(p)
    ensures Convert(records, clock) == Finish(p) && Reflects(p, evs)
  {
    ScanIsReadThenAdvance(BLANK, records, clock);
    AdvanceAllReflects(BLANK, [], evs, p);
    assert [] + evs == evs;
  }

  lemma ParsedMarksShowForest(f: Forest, path: seq<string>, evs: seq<SpanEvent>, start: int)
    requires evs == Walk(f, path, [])
    ensures Parse(MarksOf(evs, -start)).forest == Shift(Plain(f), -start)
  {
    ParseUndoesWalk(f, path, [], -start);
  }

  lemma FinishedShowsForest(p: Progress, f: Forest, path: seq<string>, evs: seq<SpanEvent>, profile: Profile)
    requires f.Node? && evs == Walk(f, path, []) && evs[0].at == f.from
    requires Reflects(p, evs) && profile.frames == p.frames && profile.events == p.events
    ensures WellFormed(profile) && Rebuild(profile) == Shift(Plain(f), -f.from)
  {
    RebuildParsesMarks(p, evs, profile);
    ParsedMarksShowForest(f, path, evs, p.start);
  }

  /** Whatever ordinary records are interleaved, a traced forest is accepted and the profile shows that forest. */
  lemma TracedForestIsShown(records: seq<Record>, clock: Clock, f: Forest) returns (profile: Profile)
    requires Traces(records, clock, f)
    ensures Convert(records, clock) == Ok(profile) && WellFormed(profile)
    ensures Rebuild(profile) == Shift(Plain(f), -f.from)
    ensures profile.frames == Names(Walk(f, [], []))
    ensures profile.events != [] && profile.endValue == profile.events[|profile.events| - 1].at
  {
    var evs := Walk(f, [], []);
    var r := AdvanceAll(BLANK, evs);
    assert r.Ok? && r.value.stack == [] by {
      WalkNests(f, [], []);
      AdvanceAllIffNested(BLANK, evs);
    }
    ConvertIsFinish(records, clock, evs, r.value);
    profile := Finish(r.value).value;
    FinishedShowsForest(r.value, f, [], evs, profile);
  }

  /** Conversely, every accepted record list traces a forest, and only one. */
  lemma AcceptedTracesOneForest(records: seq<Record>, clock: Clock)
    ensures Convert(records, clock).Ok? <==> exists f :: Traces(records, clock, f)
    ensures forall f, g :: Traces(records, clock, f) && Traces(records, clock, g) ==> f == g
  {
    if Convert(records, clock).Ok? {
      ScanIsReadThenAdvance(BLANK, records, clock);
      var evs := Read(records, clock).value;
      AdvanceAllIffNested(BLANK, evs);
      NestedIffForest(evs);
      var f :| evs == Walk(f, [], []);
      ConvertIsFinish(records, clock, evs, AdvanceAll(BLANK, evs).value);
      assert Traces(records, clock, f);
    }
    if f :| Traces(records, clock, f) {
      var _ := TracedForestIsShown(records, clock, f);
    }
    forall f, g | Traces(records, clock, f) && Traces(records, clock, g) ensures f == g {
      WalkIsInjective(f, g, [], [], []);
    }
  }

  // ---------------------------------------------------------------- what each record is, by its fields

  predicate HasObject(r: Record, key: string) {
    key in r && r[key].Obj?
  }

  predicate Named(fields: map<string, Json>, name: string) {
    "name" in fields && fields["name"] == Str(name)
  }

  /**
   An ordinary record: it has no object of fields or no span object, or its message is missing or some plain value
   other than "new" and "close", or its message is a plain value and its span has no string for a name.
   */
  predicate Ordinary(r: Record) {
    || !HasObject(r, "fields") || !HasObject(r, "span")
    || var fields, span := r["fields"].fields, r["span"].fields;
       || "message" !in fields || fields["message"].Scalar?
       || (fields["message"].Str?
           && (fields["message"].s !in {"new", "close"} || !("name" in span && span["name"].Str?)))
  }

  lemma OrdinaryIff(r: Record, clock: Clock)
    ensures Decode(r, clock) == Ignored <==> Ordinary(r)
  {
    if HasObject(r, "fields") && HasObject(r, "span") {
      var message := Get(r["fields"].fields, "message");
      assert message.Str? ==> (message in {Str("new"), Str("close")} <==> message.s in {"new", "close"});
    }
  }

  /** A list or an object as message cannot be looked up at all. */
  lemma UnhashableIff(r: Record, clock: Clock)
    ensures Decode(r, clock) == Malformed(UnhashableMessage) <==>
            && HasObject(r, "fields") && HasObject(r, "span") && "message" in r["fields"].fields
            && (r["fields"].fields["message"].Arr? || r["fields"].fields["message"].Obj?)
  {
  }

  /** The record of a span's beginning or end. */
  predicate Lifecycle(r: Record, kind: Kind, name: string) {
    && HasObject(r, "fields") && HasObject(r, "span") && Named(r["span"].fields, name)
    && "message" in r["fields"].fields
    && r["fields"].fields["message"] == Str(if kind == Open then "new" else "close")
  }

  /** The ancestors of a record are `names`; a record that does not mention any has none. */
  ghost predicate HasAncestors(r: Record, names: seq<string>) {
    if "spans" !in r then names == []
    else r["spans"].Arr? && |r["spans"].items| == |names| && AllNamed(r["spans"].items, names)
  }

  ghost predicate AllNamed(items: seq<Json>, names: seq<string>)
    requires |items| == |names|
  {
    forall i :: 0 <= i < |items| ==> items[i].Obj? && Named(items[i].fields, names[i])
  }

  /** The timestamp of a record is at `t`. */
  predicate StampedAt(r: Record, clock: Clock, t: int) {
    "timestamp" in r && r["timestamp"].Str? && clock(r["timestamp"].s) == Some(t)
  }

  lemma {:induction false} AncestorNamesIff(items: seq<Json>, names: seq<string>)
    requires |items| == |names|
    ensures AncestorNames(items) == Some(names) <==> AllNamed(items, names)
  {
    if items == [] {
    } else {
      AncestorNamesIff(items[1..], names[1..]);
      assert names == [names[0]] + names[1..];
      if AllNamed(items, names) {
        assert Named(items[0].fields, names[0]);
        assert AllNamed(items[1..], names[1..]);
      }
    }
  }

  lemma {:induction false} AncestorNamesLength(items: seq<Json>)
    ensures AncestorNames(items).Some? ==> |AncestorNames(items).value| == |items|
  {
    if items == [] {
    } else {
      AncestorNamesLength(items[1..]);
    }
  }

  lemma AncestorsIff(r: Record, names: seq<string>)
    ensures HasAncestors(r, names) <==>
            var raw := if "spans" in r then r["spans"] else Arr([]);
            raw.Arr? && AncestorNames(raw.items) == Some(names)
  {
    if "spans" in r && r["spans"].Arr? {
      AncestorNamesLength(r["spans"].items);
      if |r["spans"].items| == |names| {
        AncestorNamesIff(r["spans"].items, names);
      }
    }
  }

  /** The record of a span event, by its fields: bad ancestors count before a bad timestamp. */
  lemma LifecycleDecodes(r: Record, clock: Clock, kind: Kind, name: string)
    requires Lifecycle(r, kind, name)
    ensures Decode(r, clock) == Malformed(BadAncestors) <==> forall names :: !HasAncestors(r, names)
    ensures forall names :: HasAncestors(r, names) ==>
              (Decode(r, clock) == Malformed(BadTimestamp) <==> forall t :: !StampedAt(r, clock, t))
    ensures forall names, t :: HasAncestors(r, names) && StampedAt(r, clock, t) ==>
              Decode(r, clock) == Event(SpanEvent(kind, name, names, t))
  {
    var raw := if "spans" in r then r["spans"] else Arr([]);
    forall names ensures HasAncestors(r, names) <==> raw.Arr? && AncestorNames(raw.items) == Some(names) {
      AncestorsIff(r, names);
    }
    var message := Get(r["fields"].fields, "message");
    assert message in {Str("new"), Str("close")} && (message.s == "new" <==> kind == Open);
    if raw.Arr? && AncestorNames(raw.items).Some? {
      assert HasAncestors(r, AncestorNames(raw.items).value);
    }
    var stamp := Get(r, "timestamp");
    if stamp.Str? && clock(stamp.s).Some? {
      assert StampedAt(r, clock, clock(stamp.s).value);
    }
  }

  // ---------------------------------------------------------------- ordinary and faulty records

  lemma {:induction false} ScanConcat(p: Progress, a: seq<Record>, b: seq<Record>, clock: Clock)
    ensures Scan(p, a + b, clock) ==
            if Scan(p, a, clock).Err? then Scan(p, a, clock) else Scan(Scan(p, a, clock).value, b, clock)
    decreases |a|
  {
    if a == [] {
      assert a + b == b;
    } else {
      assert (a + b)[0] == a[0] && (a + b)[1..] == a[1..] + b;
      var next := ScanOne(p, a[0], clock);
      if next.Ok? {
        ScanConcat(next.value, a[1..], b, clock);
      }
    }
  }

  lemma ScanThrough(a: seq<Record>, r: Record, b: seq<Record>, clock: Clock, p: Progress)
    requires Scan(BLANK, a, clock) == Ok(p)
    ensures Scan(BLANK, a + [r] + b, clock) ==
            var next := ScanOne(p, r, clock); if next.Err? then next else Scan(next.value, b, clock)
  {
    assert a + [r] + b == a + ([r] + b);
    ScanConcat(BLANK, a, [r] + b, clock);
    assert ([r] + b)[0] == r && ([r] + b)[1..] == b;
  }

  /** An ordinary record anywhere makes no difference. */
  lemma OrdinaryMakesNoDifference(a: seq<Record>, r: Record, b: seq<Record>, clock: Clock)
    requires Ordinary(r)
    ensures Convert(a + [r] + b, clock) == Convert(a + b, clock)
  {
    OrdinaryIff(r, clock);
    ScanConcat(BLANK, a, b, clock);
    if Scan(BLANK, a, clock).Ok? {
      ScanThrough(a, r, b, clock, Scan(BLANK, a, clock).value);
    } else {
      assert a + [r] + b == a + ([r] + b);
      ScanConcat(BLANK, a, [r] + b, clock);
    }
  }

  /** `done` are the events of `a`, nested and in order, with `stack` still open. */
  ghost predicate Sound(a: seq<Record>, clock: Clock, done: seq<SpanEvent>, stack: seq<string>) {
    Read(a, clock) == Some(done) && OrderedAfter(None, done) && NestAll([], done) == Some(stack)
  }

  lemma SoundProgress(a: seq<Record>, clock: Clock, done: seq<SpanEvent>, stack: seq<string>) returns (p: Progress)
    requires Sound(a, clock, done, stack)
    ensures Scan(BLANK, a, clock) == Ok(p) && p.stack == stack && Reflects(p, done)
  {
    ScanIsReadThenAdvance(BLANK, a, clock);
    AdvanceAllIffNested(BLANK, done);
    p := AdvanceAll(BLANK, done).value;
    AdvanceAllReflects(BLANK, [], done, p);
    assert [] + done == done;
  }

  /** The first fault decides the error, whatever follows: a malformed record, a time going back, or a misfit. */
  lemma FirstFaultDecides(a: seq<Record>, r: Record, b: seq<Record>, clock: Clock, done: seq<SpanEvent>,
                          stack: seq<string>)
    requires Sound(a, clock, done, stack)
    ensures Decode(r, clock).Malformed? ==> Convert(a + [r] + b, clock) == Err(Decode(r, clock).error)
    ensures Decode(r, clock).Event? ==>
              var e := Decode(r, clock).event;
              && (done != [] && e.at < done[|done| - 1].at ==> Convert(a + [r] + b, clock) == Err(TimeWentBack))
              && ((done == [] || e.at >= done[|done| - 1].at) && NestAll([], done + [e]).None? ==>
                    Convert(a + [r] + b, clock) == Err(NotNested))
  {
    var p := SoundProgress(a, clock, done, stack);
    ScanThrough(a, r, b, clock, p);
    if Decode(r, clock).Event? {
      NestSnoc([], done, stack, Decode(r, clock).event);
    }
  }

  lemma {:induction false} NestSnoc(from: seq<string>, done: seq<SpanEvent>, stack: seq<string>, e: SpanEvent)
    requires NestAll(from, done) == Some(stack)
    ensures NestAll(from, done + [e]) == Nest(stack, e)
    decreases |done|
  {
    if done == [] {
      NestCons(from, e, []);
      assert done + [e] == [e] + [];
    } else {
      assert (done + [e])[0] == done[0] && (done + [e])[1..] == done[1..] + [e];
      NestSnoc(Nest(from, done[0]).value, done[1..], stack, e);
    }
  }

  /** Without a fault, the conversion fails only for want of events or for spans left open. */
  lemma SoundTracesEnd(a: seq<Record>, clock: Clock, done: seq<SpanEvent>, stack: seq<string>)
    requires Sound(a, clock, done, stack)
    ensures Convert(a, clock) == Err(NoEvents) <==> done == []
    ensures Convert(a, clock) == Err(Unclosed) <==> done != [] && stack != []
    ensures Convert(a, clock).Ok? <==> done != [] && stack == []
  {
    var p := SoundProgress(a, clock, done, stack);
  }

  // ---------------------------------------------------------------- writing records

  function AncestorObjects(names: seq<string>): seq<Json> {
    if names == [] then [] else [Obj(map["name" := Str(names[0])])] + AncestorObjects(names[1..])
  }

  function WriteRecord(e: SpanEvent, stamp: string): Record {
    map["timestamp" := Str(stamp),
        "fields" := Obj(map["message" := Str(if e.kind == Open then "new" else "close")]),
        "span" := Obj(map["name" := Str(e.name)]),
        "spans" := Arr(AncestorObjects(e.ancestors))]
  }

  lemma {:induction false} ReadNames(names: seq<string>)
    ensures AncestorNames(AncestorObjects(names)) == Some(names)
  {
    if names == [] {
    } else {
      ReadNames(names[1..]);
      assert AncestorObjects(names)[1..] == AncestorObjects(names[1..]);
      assert [names[0]] + names[1..] == names;
    }
  }

  /** `r` is the record of `e`: it has the fields written for it and possibly others. */
  predicate Records(r: Record, e: SpanEvent, stamp: string) {
    forall key :: key in WriteRecord(e, stamp) ==> key in r && r[key] == WriteRecord(e, stamp)[key]
  }

  /** A record written for an event reads back as that event. */
  lemma WrittenRecordReadsBack(r: Record, e: SpanEvent, stamp: string, clock: Clock)
    requires Records(r, e, stamp) && clock(stamp) == Some(e.at)
    ensures Decode(r, clock) == Event(e)
  {
    ReadNames(e.ancestors);
    var w := WriteRecord(e, stamp);
    assert "timestamp" in w && "fields" in w && "span" in w && "spans" in w;
  }

  /** `records` are the records of `evs` in order, with ordinary records in between. */
  ghost predicate Writes(records: seq<Record>, evs: seq<SpanEvent>, clock: Clock)
    decreases |records|
  {
    if records == [] then evs == []
    else
      || (Ordinary(records[0]) && Writes(records[1..], evs, clock))
      || (evs != [] && Stamped(records[0], evs[0], clock) && Writes(records[1..], evs[1..], clock))
  }

  ghost predicate Stamped(r: Record, e: SpanEvent, clock: Clock) {
    exists stamp :: clock(stamp) == Some(e.at) && Records(r, e, stamp)
  }

  lemma {:induction false} WrittenReadsBack(records: seq<Record>, evs: seq<SpanEvent>, clock: Clock)
    requires Writes(records, evs, clock)
    ensures Read(records, clock) == Some(evs)
    decreases |records|
  {
    if records == [] {
    } else if Ordinary(records[0]) && Writes(records[1..], evs, clock) {
      OrdinaryIff(records[0], clock);
      WrittenReadsBack(records[1..], evs, clock);
    } else {
      var stamp :| clock(stamp) == Some(evs[0].at) && Records(records[0], evs[0], stamp);
      WrittenRecordReadsBack(records[0], evs[0], stamp, clock);
      WrittenReadsBack(records[1..], evs[1..], clock);
      assert [evs[0]] + evs[1..] == evs;
    }
  }

  /**
   The round trip: writing any non-empty forest with times that never go back, each ancestor list in
   either style and ordinary records anywhere in between, is accepted, and the profile rebuilds the forest.
   */
  lemma WrittenForestIsShown(f: Forest, records: seq<Record>, clock: Clock) returns (profile: Profile)
    requires f.Node? && OrderedAfter(None, Walk(f, [], [])) && Writes(records, Walk(f, [], []), clock)
    ensures Convert(records, clock) == Ok(profile) && WellFormed(profile)
    ensures Rebuild(profile) == Shift(Plain(f), -f.from)
  {
    WrittenReadsBack(records, Walk(f, [], []), clock);
    profile := TracedForestIsShown(records, clock, f);
  }

  /** Every forest whose times can be stamped has such records. */
  lemma {:induction false} EventsCanBeWritten(evs: seq<SpanEvent>, stamps: int -> string, clock: Clock)
    returns (records: seq<Record>)
    requires forall e :: e in evs ==> clock(stamps(e.at)) == Some(e.at)
    ensures Writes(records, evs, clock) && |records| == |evs|
  {
    if evs == [] {
      records := [];
    } else {
      var rest := EventsCanBeWritten(evs[1..], stamps, clock);
      var r := WriteRecord(evs[0], stamps(evs[0].at));
      records := [r] + rest;
      assert Records(r, evs[0], stamps(evs[0].at)) && records[1..] == rest;
      assert evs[0] in evs;
    }
  }
}
