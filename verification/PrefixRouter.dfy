/**
 The router's three jobs: spread batches over executors while keeping a prompt prefix where it
 was last seen, remember the recent prefixes of each executor, and hand out executors to poll.
 */
module PrefixRouter {
  import opened Options
  import opened Sequences

  type Prefix = Option<string>

  /** One routed batch. */
  datatype Routing = Routing(prefix: Prefix, batch: nat, actor: nat)

  datatype RouteError = NoActors | NoActorFound

  // ---------------------------------------------------------------- loads

  function LoadOf(h: seq<Routing>, i: nat): nat {
    if h == [] then 0
    else LoadOf(h[..|h| - 1], i) + if h[|h| - 1].actor == i then h[|h| - 1].batch else 0
  }

  function Loads(h: seq<Routing>, n: nat): seq<nat> {
    seq(n, i requires i >= 0 => LoadOf(h, i))
  }

  function Total(h: seq<Routing>): nat {
    if h == [] then 0 else Total(h[..|h| - 1]) + h[|h| - 1].batch
  }

  function SumOf(loads: seq<nat>): nat {
    if loads == [] then 0 else SumOf(loads[..|loads| - 1]) + loads[|loads| - 1]
  }

  function MinOf(loads: seq<nat>): (m: nat)
    requires loads != []
    ensures m in loads && forall i :: 0 <= i < |loads| ==> m <= loads[i]
  {
    if |loads| == 1 then loads[0]
    else
      var m, x := MinOf(loads[..|loads| - 1]), loads[|loads| - 1];
      assert loads == loads[..|loads| - 1] + [x];
      if x < m then x else m
  }

  // ---------------------------------------------------------------- recency

  /** The prefixes routed to `i`, newest first. */
  function NewestFirst(h: seq<Routing>, i: nat): seq<Prefix> {
    if h == [] then []
    else
      var older := NewestFirst(h[..|h| - 1], i);
      if h[|h| - 1].actor == i then [h[|h| - 1].prefix] + older else older
  }

  function Window(s: seq<Prefix>, size: nat): seq<Prefix> {
    if |s| <= size then s else s[..size]
  }

  function Recent(h: seq<Routing>, n: nat, size: nat): seq<seq<Prefix>> {
    seq(n, i requires i >= 0 => Window(NewestFirst(h, i), size))
  }

  /** Position of the newest occurrence of `p`; the length of `s` if there is none. */
  function Recency(s: seq<Prefix>, p: Prefix): (k: nat)
    ensures k <= |s| && (k < |s| <==> p in s) && (k < |s| ==> s[k] == p)
    ensures forall j :: 0 <= j < k ==> s[j] != p
  {
    IndexOfIsFirst(s, p);
    IndexOf(s, p)
  }

  // ---------------------------------------------------------------- the choice

  /** Is `i` close enough to the least loaded executor to take more? */
  predicate Under(loads: seq<nat>, threshold: int, i: nat)
    requires i < |loads|
  {
    loads[i] < MinOf(loads) + threshold
  }

  /** `a` holds `p`, more recently than any other candidate, the lowest number winning ties. */
  ghost predicate Freshest(loads: seq<nat>, recent: seq<seq<Prefix>>, threshold: int, p: Prefix, a: nat)
    requires a < |loads| == |recent|
  {
    && Under(loads, threshold, a) && p in recent[a]
    && forall i :: 0 <= i < |loads| && Under(loads, threshold, i) && p in recent[i] ==>
         Recency(recent[a], p) < Recency(recent[i], p) || (Recency(recent[a], p) == Recency(recent[i], p) && a <= i)
  }

  ghost predicate LastUnder(loads: seq<nat>, recent: seq<seq<Prefix>>, threshold: int, p: Prefix, a: nat)
    requires a < |loads| == |recent|
  {
    && Under(loads, threshold, a)
    && forall i :: 0 <= i < |loads| && Under(loads, threshold, i) ==> i <= a && p !in recent[i]
  }

  /** The executor a batch must go to. */
  ghost predicate Choice(loads: seq<nat>, recent: seq<seq<Prefix>>, threshold: int, p: Prefix, a: nat) {
    && a < |loads| == |recent|
    && if p.None? then loads[a] == MinOf(loads) && forall i :: 0 <= i < a ==> loads[i] > loads[a]
       else Freshest(loads, recent, threshold, p, a) || LastUnder(loads, recent, threshold, p, a)
  }

  /** The choice is determined. */
  lemma ChoiceIsUnique(loads: seq<nat>, recent: seq<seq<Prefix>>, threshold: int, p: Prefix, a: nat, b: nat)
    requires Choice(loads, recent, threshold, p, a) && Choice(loads, recent, threshold, p, b)
    ensures a == b
  {
  }

  /** First index of the least load. */
  method FirstLeast(loads: seq<nat>, minLoad: nat) returns (a: nat)
    requires loads != [] && minLoad == MinOf(loads)
    ensures a < |loads| && loads[a] == minLoad && forall i :: 0 <= i < a ==> loads[i] > minLoad
  {
    a := 0;
    while loads[a] != minLoad
      invariant a < |loads| && forall i :: 0 <= i < a ==> loads[i] > minLoad
      decreases |loads| - a
    {
      assert exists i :: a < i < |loads| && loads[i] == minLoad;
      a := a + 1;
    }
  }

  /** What the scan of the first `n` executors has found: the last candidate, until one holds the prefix. */
  ghost predicate BestOf(loads: seq<nat>, recent: seq<seq<Prefix>>, threshold: int, p: Prefix, n: nat,
                         best: Option<nat>, recency: Option<nat>)
    requires loads != [] && n <= |loads| == |recent|
  {
    match best
    case None => recency.None? && forall i :: 0 <= i < n ==> !Under(loads, threshold, i)
    case Some(a) =>
      && a < n && Under(loads, threshold, a)
      && match recency
         case None => forall i :: 0 <= i < n && Under(loads, threshold, i) ==> i <= a && p !in recent[i]
         case Some(k) =>
           && p in recent[a] && k == Recency(recent[a], p)
           && forall i :: 0 <= i < n && Under(loads, threshold, i) && p in recent[i] ==>
                k < Recency(recent[i], p) || (k == Recency(recent[i], p) && a <= i)
  }

  /** Scans the candidates for the one that saw the prefix most recently. */
  method FindActor(loads: seq<nat>, recent: seq<seq<Prefix>>, threshold: int, prefix: Prefix, minLoad: nat)
    returns (best: Option<nat>)
    requires prefix.Some? && loads != [] && |loads| == |recent| && minLoad == MinOf(loads)
    ensures best.Some? ==> Choice(loads, recent, threshold, prefix, best.value)
    ensures best.None? <==> threshold < 1
  {
    best := None;
    var bestRecency: Option<nat> := None;
    for i := 0 to |loads|
      invariant BestOf(loads, recent, threshold, prefix, i, best, bestRecency)
    {
      if loads[i] < minLoad + threshold {
        var k := Recency(recent[i], prefix);
        var recency: Option<nat> := if k < |recent[i]| then Some(k) else None;
        if bestRecency.None? || (recency.Some? && recency.value < bestRecency.value) {
          best, bestRecency := Some(i), recency;
        }
      }
    }
    LeastIsUnder(loads, threshold);
  }

  lemma LeastIsUnder(loads: seq<nat>, threshold: int)
    requires loads != []
    ensures threshold >= 1 <==> exists i :: 0 <= i < |loads| && Under(loads, threshold, i)
  {
    var i :| 0 <= i < |loads| && loads[i] == MinOf(loads);
    assert threshold >= 1 ==> Under(loads, threshold, i);
  }

  /** Executor `i` may take more: its load is less than the threshold above every load. */
  ghost predicate MayTake(loads: seq<nat>, threshold: int, i: nat) {
    i < |loads| && forall k :: 0 <= k < |loads| ==> loads[i] < loads[k] + threshold
  }

  lemma UnderIff(loads: seq<nat>, threshold: int, i: nat)
    requires i < |loads|
    ensures Under(loads, threshold, i) <==> MayTake(loads, threshold, i)
  {
    if MayTake(loads, threshold, i) {
      var k :| 0 <= k < |loads| && loads[k] == MinOf(loads);
      assert loads[i] < loads[k] + threshold;
    }
  }

  /**
   What a choice means.  Without a prefix: the first executor of least load.  With one: if some executor that may
   take more holds the prefix, the one that used it last, the first of equals; else the last that may take more.
   */
  lemma ChoiceMeans(loads: seq<nat>, recent: seq<seq<Prefix>>, threshold: int, p: Prefix, a: nat)
    requires Choice(loads, recent, threshold, p, a)
    ensures p.None? ==>
              forall i :: 0 <= i < |loads| ==> loads[a] <= loads[i] && (i < a ==> loads[a] < loads[i])
    ensures p.Some? ==> MayTake(loads, threshold, a)
    ensures p.Some? && p !in recent[a] ==>
              forall i: nat :: MayTake(loads, threshold, i) ==> i <= a && p !in recent[i]
    ensures p.Some? ==>
              forall i: nat, k :: MayTake(loads, threshold, i) && 0 <= k < |recent[i]| && recent[i][k] == p ==>
              exists h :: 0 <= h < |recent[a]| && recent[a][h] == p && (h < k || (h == k && a <= i))
  {
    forall i: nat | i < |loads| ensures Under(loads, threshold, i) <==> MayTake(loads, threshold, i) {
      UnderIff(loads, threshold, i);
    }
    if p.Some? {
      forall i: nat, k | MayTake(loads, threshold, i) && 0 <= k < |recent[i]| && recent[i][k] == p
        ensures exists h :: 0 <= h < |recent[a]| && recent[a][h] == p && (h < k || (h == k && a <= i))
      {
        assert p in recent[i] && Recency(recent[i], p) <= k;
        var h := Recency(recent[a], p);
        assert Freshest(loads, recent, threshold, p, a);
        assert recent[a][h] == p;
      }
    }
  }

  // ---------------------------------------------------------------- routing histories

  /** Every routing of `h` was the choice of its moment. */
  ghost predicate Routed(h: seq<Routing>, n: nat, threshold: int, size: nat)
    decreases |h|
  {
    h == [] ||
    var past, r := h[..|h| - 1], h[|h| - 1];
    Routed(past, n, threshold, size) && Choice(Loads(past, n), Recent(past, n, size), threshold, r.prefix, r.actor)
  }

  lemma ChoiceIsNearMin(loads: seq<nat>, recent: seq<seq<Prefix>>, threshold: int, p: Prefix, a: nat)
    requires Choice(loads, recent, threshold, p, a) && threshold >= 1
    ensures forall i :: 0 <= i < |loads| ==> loads[a] < loads[i] + threshold
  {
  }

  /** Over every routing history the loads stay within threshold plus one batch of each other. */
  lemma {:induction false} LoadSpread(h: seq<Routing>, n: nat, threshold: int, size: nat, maxBatch: nat, i: nat, j: nat)
    requires Routed(h, n, threshold, size) && threshold >= 1 && i < n && j < n
    requires forall k :: 0 <= k < |h| ==> h[k].batch <= maxBatch
    ensures LoadOf(h, i) < LoadOf(h, j) + threshold + maxBatch
    decreases |h|
  {
    if h == [] {
    } else {
      var past, r := h[..|h| - 1], h[|h| - 1];
      LoadSpread(past, n, threshold, size, maxBatch, i, j);
      ChoiceIsNearMin(Loads(past, n), Recent(past, n, size), threshold, r.prefix, r.actor);
      assert Loads(past, n)[i] == LoadOf(past, i) && Loads(past, n)[j] == LoadOf(past, j);
      assert r.batch <= maxBatch;
    }
  }

  lemma {:induction false} SumGrows(loads: seq<nat>, grown: seq<nat>, a: nat, b: nat)
    requires a < |loads| && grown == loads[a := loads[a] + b]
    ensures SumOf(grown) == SumOf(loads) + b
    decreases |loads|
  {
    var k := |loads| - 1;
    if a == k {
      assert grown[..k] == loads[..k];
    } else {
      SumGrows(loads[..k], grown[..k], a, b);
    }
  }

  lemma {:induction false} SumZero(loads: seq<nat>)
    requires forall i :: 0 <= i < |loads| ==> loads[i] == 0
    ensures SumOf(loads) == 0
  {
    if loads == [] {
    } else {
      SumZero(loads[..|loads| - 1]);
    }
  }

  /** Together the executors carry exactly what was routed. */
  lemma {:induction false} LoadsSumToTotal(h: seq<Routing>, n: nat, threshold: int, size: nat)
    requires Routed(h, n, threshold, size)
    ensures SumOf(Loads(h, n)) == Total(h)
    decreases |h|
  {
    if h == [] {
      SumZero(Loads(h, n));
    } else {
      var past, r := h[..|h| - 1], h[|h| - 1];
      LoadsSumToTotal(past, n, threshold, size);
      SumGrows(Loads(past, n), Loads(h, n), r.actor, r.batch);
    }
  }

  lemma PushWindow(s: seq<Prefix>, p: Prefix, size: nat)
    ensures var pushed := [p] + Window(s, size);
            Window([p] + s, size) == if |pushed| > size then pushed[..|pushed| - 1] else pushed
  {
  }

  lemma LoadsExtend(h: seq<Routing>, r: Routing, n: nat)
    requires r.actor < n
    ensures Loads(h + [r], n) == Loads(h, n)[r.actor := Loads(h, n)[r.actor] + r.batch]
  {
    assert (h + [r])[..|h + [r]| - 1] == h;
  }

  lemma RecentExtend(h: seq<Routing>, r: Routing, n: nat, size: nat)
    requires r.actor < n
    ensures var pushed := [r.prefix] + Recent(h, n, size)[r.actor];
            Recent(h + [r], n, size)
            == Recent(h, n, size)[r.actor := if |pushed| > size then pushed[..|pushed| - 1] else pushed]
  {
    assert (h + [r])[..|h + [r]| - 1] == h;
    PushWindow(NewestFirst(h, r.actor), r.prefix, size);
  }

  /** Routings to `i` among those after the first `k`. */
  function RoutingsFrom(h: seq<Routing>, k: nat, i: nat): nat
    requires k <= |h|
  {
    if |h| == k then 0
    else RoutingsFrom(h[..|h| - 1], k, i) + if h[|h| - 1].actor == i then 1 else 0
  }

  lemma {:induction false} NewestFirstAt(h: seq<Routing>, i: nat, k: nat)
    requires k < |h| && h[k].actor == i
    ensures RoutingsFrom(h, k + 1, i) < |NewestFirst(h, i)|
    ensures NewestFirst(h, i)[RoutingsFrom(h, k + 1, i)] == h[k].prefix
  {
    if k == |h| - 1 {
    } else {
      NewestFirstAt(h[..|h| - 1], i, k);
    }
  }

  lemma {:induction false} NewestFirstLength(h: seq<Routing>, i: nat)
    ensures |NewestFirst(h, i)| == RoutingsFrom(h, 0, i)
  {
    if h == [] {
    } else {
      NewestFirstLength(h[..|h| - 1], i);
    }
  }

  /**
   The recency list of an executor holds the prefixes of its latest routings, as many as fit: the prefix of routing
   `k` is found after those of the later routings to the same executor.
   */
  lemma RecentHoldsLatest(h: seq<Routing>, n: nat, size: nat, i: nat, k: nat)
    requires i < n && k < |h| && h[k].actor == i
    ensures |Recent(h, n, size)[i]| == if RoutingsFrom(h, 0, i) <= size then RoutingsFrom(h, 0, i) else size
    ensures RoutingsFrom(h, k + 1, i) < size ==>
              RoutingsFrom(h, k + 1, i) < |Recent(h, n, size)[i]|
              && Recent(h, n, size)[i][RoutingsFrom(h, k + 1, i)] == h[k].prefix
  {
    NewestFirstAt(h, i, k);
    NewestFirstLength(h, i);
  }

  /** What one more routing does to loads and recency lists. */
  lemma RouteExtends(h: seq<Routing>, r: Routing, n: nat, threshold: int, size: nat)
    requires Routed(h, n, threshold, size) && Choice(Loads(h, n), Recent(h, n, size), threshold, r.prefix, r.actor)
    ensures Routed(h + [r], n, threshold, size)
    ensures Loads(h + [r], n) == Loads(h, n)[r.actor := Loads(h, n)[r.actor] + r.batch]
    ensures var pushed := [r.prefix] + Recent(h, n, size)[r.actor];
            Recent(h + [r], n, size)
            == Recent(h, n, size)[r.actor := if |pushed| > size then pushed[..|pushed| - 1] else pushed]
  {
    LoadsExtend(h, r, n);
    RecentExtend(h, r, n, size);
    assert (h + [r])[..|h + [r]| - 1] == h;
  }

  // ---------------------------------------------------------------- polling

  datatype Polled = Polled(list: seq<nat>, picked: Option<nat>)

  /** One call: `finished` is what each executor answers during it. */
  function PollNext(list: seq<nat>, finished: nat -> bool): Polled {
    if list == [] then Polled([], None)
    else if finished(list[0]) then PollNext(list[1..], finished)
    else Polled(list[1..] + [list[0]], Some(list[0]))
  }

  ghost predicate Distinct(list: seq<nat>) {
    forall i, j :: 0 <= i < j < |list| ==> list[i] != list[j]
  }

  /** The list keeps its executors apart, loses only finished ones, and the pick is unfinished. */
  lemma {:induction false} PollKeeps(list: seq<nat>, finished: nat -> bool)
    ensures var r := PollNext(list, finished);
            && (Distinct(list) ==> Distinct(r.list))
            && (forall x :: x in r.list ==> x in list)
            && (forall x :: x in list && !finished(x) ==> x in r.list)
            && (r.picked.Some? ==> r.picked.value in list && !finished(r.picked.value))
            && (r.picked.None? ==> r.list == [])
  {
    if list == [] {
    } else {
      assert list == [list[0]] + list[1..];
      if finished(list[0]) {
        PollKeeps(list[1..], finished);
      }
    }
  }

  /** Who is picked by successive calls. */
  function Picks(list: seq<nat>, answers: seq<nat -> bool>): (picks: seq<Option<nat>>)
    ensures |picks| == |answers|
    decreases |answers|
  {
    if answers == [] then []
    else
      var r := PollNext(list, answers[0]);
      [r.picked] + Picks(r.list, answers[1..])
  }

  /** A call either picks the executor at `p` or moves it forward. */
  lemma {:induction false} PollMovesForward(list: seq<nat>, finished: nat -> bool, p: nat)
    requires p < |list| && !finished(list[p])
    ensures var r := PollNext(list, finished);
            r.picked == Some(list[p]) || exists q: nat :: q < p && q < |r.list| && r.list[q] == list[p]
  {
    if finished(list[0]) {
      PollMovesForward(list[1..], finished, p - 1);
      var r := PollNext(list, finished);
      if r.picked != Some(list[p]) {
        var q: nat :| q < p - 1 && q < |r.list| && r.list[q] == list[p];
      }
    } else if p > 0 {
      assert PollNext(list, finished).list[p - 1] == list[p];
    }
  }

  /** An executor at position `p` that stays unfinished is picked within `p + 1` calls. */
  lemma {:induction false} PollingIsFair(list: seq<nat>, answers: seq<nat -> bool>, p: nat)
    requires p < |list| && p < |answers|
    requires forall k :: 0 <= k <= p ==> !answers[k](list[p])
    ensures Some(list[p]) in Picks(list, answers)[..p + 1]
    decreases p
  {
    var r := PollNext(list, answers[0]);
    PollMovesForward(list, answers[0], p);
    if r.picked == Some(list[p]) {
      assert Picks(list, answers)[..p + 1][0] == Some(list[p]);
    } else {
      var q: nat :| q < p && q < |r.list| && r.list[q] == list[p];
      assert forall k :: 0 <= k <= q ==> answers[1..][k] == answers[k + 1];
      PollingIsFair(r.list, answers[1..], q);
      var k :| 0 <= k < q + 1 && Picks(r.list, answers[1..])[..q + 1][k] == Some(list[p]);
      assert Picks(list, answers)[..p + 1][k + 1] == Some(list[p]);
    }
  }

  // ---------------------------------------------------------------- the router object

  class Router {
    const actors: nat
    const threshold: int
    const maxRecent: nat
    var loads: seq<nat>
    var recentPrefixes: seq<seq<Prefix>>
    var nextLlmToPoll: seq<nat>
    ghost var history: seq<Routing>

    ghost predicate Valid()
      reads this
    {
      && Routed(history, actors, threshold, maxRecent)
      && loads == Loads(history, actors)
      && recentPrefixes == Recent(history, actors, maxRecent)
      && Distinct(nextLlmToPoll)
    }

    constructor (actors: nat, threshold: int, maxRecent: nat)
      ensures Valid() && history == [] && nextLlmToPoll == seq(actors, i => i)
      ensures this.actors == actors && this.threshold == threshold && this.maxRecent == maxRecent
    {
      this.actors, this.threshold, this.maxRecent := actors, threshold, maxRecent;
      loads := seq(actors, i => 0);
      recentPrefixes := seq(actors, i => []);
      nextLlmToPoll := seq(actors, i => i);
      history := [];
    }

    /** Puts the prefix in front of the executor's recent ones and adds to its load. */
    method Record(a: nat, prefix: Prefix, batchSize: nat)
      requires Valid() && Choice(loads, recentPrefixes, threshold, prefix, a)
      modifies this
      ensures Valid() && nextLlmToPoll == old(nextLlmToPoll)
      ensures history == old(history) + [Routing(prefix, batchSize, a)]
    {
      ghost var r := Routing(prefix, batchSize, a);
      ghost var extended := history + [r];
      RouteExtends(history, r, actors, threshold, maxRecent);
      var pushed := [prefix] + recentPrefixes[a];
      if |pushed| > maxRecent {
        pushed := pushed[..|pushed| - 1];
      }
      recentPrefixes := recentPrefixes[a := pushed];
      assert recentPrefixes == Recent(extended, actors, maxRecent);
      loads := loads[a := loads[a] + batchSize];
      assert loads == Loads(extended, actors);
      history := extended;
    }

    method Route(prefix: Prefix, batchSize: nat) returns (r: Result<nat, RouteError>)
      requires Valid()
      modifies this
      ensures Valid() && nextLlmToPoll == old(nextLlmToPoll)
      ensures r.Ok? <==> actors > 0 && (prefix.None? || threshold >= 1)
      ensures r.Ok? ==> Choice(old(loads), old(recentPrefixes), threshold, prefix, r.value)
      ensures r.Ok? ==> history == old(history) + [Routing(prefix, batchSize, r.value)]
      ensures r.Err? ==> history == old(history) && r.error == if actors == 0 then NoActors else NoActorFound
    {
      if actors == 0 {
        return Err(NoActors);
      }
      var minLoad := MinOf(loads);
      var best: Option<nat>;
      if prefix.None? {
        var a := FirstLeast(loads, minLoad);
        best := Some(a);
      } else {
        best := FindActor(loads, recentPrefixes, threshold, prefix, minLoad);
      }
      if best.None? {
        return Err(NoActorFound);
      }
      var a := best.value;
      Record(a, prefix, batchSize);
      return Ok(a);
    }

    method GetNextLlmToPoll(finished: nat -> bool) returns (r: Option<nat>)
      requires Valid()
      modifies this`nextLlmToPoll
      ensures Valid() && Polled(nextLlmToPoll, r) == PollNext(old(nextLlmToPoll), finished)
    {
      PollKeeps(nextLlmToPoll, finished);
      while nextLlmToPoll != []
        invariant Distinct(nextLlmToPoll)
        invariant PollNext(nextLlmToPoll, finished) == PollNext(old(nextLlmToPoll), finished)
        decreases |nextLlmToPoll|
      {
        var next := nextLlmToPoll[0];
        nextLlmToPoll := nextLlmToPoll[1..];
        if !finished(next) {
          nextLlmToPoll := nextLlmToPoll + [next];
          return Some(next);
        }
      }
      return None;
    }
  }
}
