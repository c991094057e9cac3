/**
 The shared counter of the distributed Limit operator: a `(skip, take, done)`
 state machine that workers claim rows from.  `Counter` is its value, the two
 functions `Refund` and `Grant` are its transitions, and the class
 `LimitCounterImpl` updates the fields in place and is proved to follow them.
 */
module LimitCounter {

  /** Key of a task; every attempt of the task claims under the same key. */
  type TaskId = nat

  /** What one task has been granted so far. */
  datatype Claimed = Claimed(skip: nat, take: nat)

  datatype Reply = Reply(skip: nat, take: nat, done: bool)

  datatype Counter = Counter(remainingSkip: nat, remainingTake: nat, claims: map<TaskId, Claimed>)

  const SATURATED := Reply(0, 0, true)

  function Min(a: int, b: int): int {
    if a <= b then a else b
  }

  function Held(c: Counter, id: TaskId): Claimed {
    if id in c.claims then c.claims[id] else Claimed(0, 0)
  }

  /** A new attempt of `id` gives back whatever an earlier attempt was granted. */
  function Refund(c: Counter, id: TaskId): Counter {
    Counter(c.remainingSkip + Held(c, id).skip, c.remainingTake + Held(c, id).take, c.claims - {id})
  }

  function ReplyTo(c: Counter, n: nat): Reply {
    if c.remainingTake == 0 then SATURATED
    else
      var skip := Min(c.remainingSkip, n);
      var take := Min(c.remainingTake, n - skip);
      Reply(skip, take, c.remainingTake == take)
  }

  function Grant(c: Counter, id: TaskId, n: nat): Counter {
    var r := ReplyTo(c, n);
    if r.skip == 0 && r.take == 0 then c
    else
      var h := Held(c, id);
      Counter(c.remainingSkip - r.skip, c.remainingTake - r.take,
              c.claims[id := Claimed(h.skip + r.skip, h.take + r.take)])
  }

  ghost predicate IsContributor(c: Counter, id: TaskId) {
    id in c.claims && c.claims[id].take > 0
  }

  class LimitCounterImpl {
    var remainingSkip: nat
    var remainingTake: nat
    var inputClaims: map<TaskId, Claimed>

    ghost function State(): Counter
      reads this
    {
      Counter(remainingSkip, remainingTake, inputClaims)
    }

    constructor (limit: nat, offset: nat)
      ensures State() == Counter(offset, limit, map[])
    {
      remainingSkip, remainingTake, inputClaims := offset, limit, map[];
    }

    method StartTask(id: TaskId)
      modifies this
      ensures State() == Refund(old(State()), id)
    {
      if id in inputClaims {
        var prior := inputClaims[id];
        inputClaims := inputClaims - {id};
        remainingSkip := remainingSkip + prior.skip;
        remainingTake := remainingTake + prior.take;
      } else {
        assert inputClaims - {id} == inputClaims;
      }
    }

    method Claim(id: TaskId, numRows: nat) returns (reply: Reply)
      modifies this
      ensures reply == ReplyTo(old(State()), numRows)
      ensures State() == Grant(old(State()), id, numRows)
    {
      if remainingTake == 0 {
        return SATURATED;
      }
      var skip := Min(remainingSkip, numRows);
      remainingSkip := remainingSkip - skip;
      var rest := numRows - skip;
      var take := Min(remainingTake, rest);
      remainingTake := remainingTake - take;
      if skip > 0 || take > 0 {
        var prev := if id in inputClaims then inputClaims[id] else Claimed(0, 0);
        inputClaims := inputClaims[id := Claimed(prev.skip + skip, prev.take + take)];
      }
      return Reply(skip, take, remainingTake == 0);
    }

    method IsDone() returns (done: bool)
      ensures done <==> State().remainingTake == 0
    {
      done := remainingTake == 0;
    }

    /** The tasks whose claims include taken rows, each listed once. */
    method Contributors() returns (ids: seq<TaskId>)
      ensures forall id :: id in ids <==> IsContributor(State(), id)
      ensures forall i, j :: 0 <= i < j < |ids| ==> ids[i] != ids[j]
    {
      ids := [];
      var pending := inputClaims.Keys;
      while pending != {}
        invariant pending <= inputClaims.Keys
        invariant forall id :: id in ids <==> IsContributor(State(), id) && id !in pending
        invariant forall i, j :: 0 <= i < j < |ids| ==> ids[i] != ids[j]
        decreases pending
      {
        var id :| id in pending;
        pending := pending - {id};
        if inputClaims[id].take > 0 {
          ids := ids + [id];
        }
      }
    }
  }

  // ---------------------------------------------------------------- stream slice

  /** One claim: the rows a worker offers in one call. */
  datatype Batch<T> = Batch(id: TaskId, rows: seq<T>)

  /** The rows of all offers, in claim order. */
  function Stream<T>(offers: seq<Batch<T>>): seq<T> {
    if offers == [] then [] else offers[0].rows + Stream(offers[1..])
  }

  /** What the workers pass downstream: each keeps `rows[skip .. skip + take]` of its offer. */
  function Emitted<T>(c: Counter, offers: seq<Batch<T>>): seq<T>
    decreases |offers|
  {
    if offers == [] then []
    else
      var o := offers[0];
      var r := ReplyTo(c, |o.rows|);
      o.rows[r.skip .. r.skip + r.take] + Emitted(Grant(c, o.id, |o.rows|), offers[1..])
  }

  /** `s[lo .. hi]` with both bounds cut at the end of `s`, as a slice expression does. */
  function Slice<T>(s: seq<T>, lo: nat, hi: nat): seq<T>
    requires lo <= hi
  {
    s[Min(lo, |s|) .. Min(hi, |s|)]
  }

  lemma SliceOfConcat<T>(a: seq<T>, b: seq<T>, lo: nat, hi: nat)
    requires lo <= hi
    ensures Slice(a + b, lo, hi)
            == Slice(a, lo, hi) + Slice(b, if lo <= |a| then 0 else lo - |a|, if hi <= |a| then 0 else hi - |a|)
  {
  }

  lemma OneOffer<T>(c: Counter, id: TaskId, rows: seq<T>, rest: seq<T>)
    ensures var r, c' := ReplyTo(c, |rows|), Grant(c, id, |rows|);
            rows[r.skip .. r.skip + r.take] + Slice(rest, c'.remainingSkip, c'.remainingSkip + c'.remainingTake)
            == Slice(rows + rest, c.remainingSkip, c.remainingSkip + c.remainingTake)
  {
    SliceOfConcat(rows, rest, c.remainingSkip, c.remainingSkip + c.remainingTake);
  }

  /**
   With no restart, whatever the batching and whichever tasks claim, the emitted
   rows are exactly positions `skip .. skip + take` of the rows in claim order.
   */
  lemma {:induction false} EmittedIsSlice<T>(c: Counter, offers: seq<Batch<T>>)
    ensures Emitted(c, offers) == Slice(Stream(offers), c.remainingSkip, c.remainingSkip + c.remainingTake)
    decreases |offers|
  {
    if offers == [] {
    } else {
      var o := offers[0];
      EmittedIsSlice(Grant(c, o.id, |o.rows|), offers[1..]);
      OneOffer(c, o.id, o.rows, Stream(offers[1..]));
    }
  }

  // ---------------------------------------------------------------- when a worker is told to stop

  /** A reply says `done` exactly when nothing is left to take after it. */
  lemma DoneMeansExhausted(c: Counter, id: TaskId, n: nat)
    ensures ReplyTo(c, n).done <==> Grant(c, id, n).remainingTake == 0
  {
  }

  /** The counter after all offers. */
  function AfterOffers<T>(c: Counter, offers: seq<Batch<T>>): Counter
    decreases |offers|
  {
    if offers == [] then c else AfterOffers(Grant(c, offers[0].id, |offers[0].rows|), offers[1..])
  }

  /** The reply to each offer. */
  function Replies<T>(c: Counter, offers: seq<Batch<T>>): (rs: seq<Reply>)
    ensures |rs| == |offers|
    decreases |offers|
  {
    if offers == [] then []
    else
      var n := |offers[0].rows|;
      [ReplyTo(c, n)] + Replies(Grant(c, offers[0].id, n), offers[1..])
  }

  /** Nothing is emitted from now on, whatever is offered. */
  ghost predicate Mute<T(!new)>(c: Counter) {
    forall rest: seq<Batch<T>> :: Emitted(c, rest) == []
  }

  lemma MuteMeansExhausted<T(!new)>(c: Counter, x: T)
    ensures Mute<T>(c) <==> c.remainingTake == 0
  {
    if c.remainingTake == 0 {
      forall rest: seq<Batch<T>> ensures Emitted(c, rest) == [] {
        EmittedIsSlice(c, rest);
      }
    } else {
      var rows: seq<T> := seq(c.remainingSkip + 1, _ => x);
      var rest := [Batch(0, rows)];
      assert rest[1..] == [];
      assert Stream(rest) == rows + Stream(rest[1..]) == rows;
      EmittedIsSlice(c, rest);
      assert |Emitted(c, rest)| == 1;
    }
  }

  /**
   In any sequence of offers a reply says `done` if and only if nothing will be emitted after it for any
   continuation; in particular the first such reply is the first after which that holds.
   */
  lemma {:induction false} DoneMeansMute<T(!new)>(c: Counter, offers: seq<Batch<T>>, k: nat, x: T)
    requires k < |offers|
    ensures Replies(c, offers)[k].done <==> Mute<T>(AfterOffers(c, offers[..k + 1]))
    decreases k
  {
    var o := offers[0];
    var next := Grant(c, o.id, |o.rows|);
    assert offers[..k + 1][1..] == offers[1..][..k];
    if k == 0 {
      assert AfterOffers(c, offers[..k + 1]) == AfterOffers(next, offers[1..][..k]) == next;
      DoneMeansExhausted(c, o.id, |o.rows|);
      MuteMeansExhausted(next, x);
    } else {
      DoneMeansMute(next, offers[1..], k - 1, x);
    }
  }

  // ---------------------------------------------------------------- a dead actor

  /** A worker's handle on the counter: the actor answers, or it has been torn down. */
  datatype Handle = Live(counter: Counter) | Dead

  datatype Call = StartCall(id: TaskId) | ClaimCall(id: TaskId, n: nat)

  function HandleAfter(h: Handle, call: Call): Handle {
    match h
    case Dead => Dead
    case Live(c) =>
      match call
      case StartCall(id) => Live(Refund(c, id))
      case ClaimCall(id, n) => Live(Grant(c, id, n))
  }

  /** What the caller sees: nothing for a start, the reply for a claim. */
  function Answer(h: Handle, call: Call): seq<Reply> {
    match call
    case StartCall(_) => []
    case ClaimCall(_, n) => [if h.Dead? then SATURATED else ReplyTo(h.counter, n)]
  }

  function Answers(h: Handle, calls: seq<Call>): seq<Reply>
    decreases |calls|
  {
    if calls == [] then [] else Answer(h, calls[0]) + Answers(HandleAfter(h, calls[0]), calls[1..])
  }

  function AfterCalls(c: Counter, calls: seq<Call>): Counter
    decreases |calls|
  {
    if calls == [] then c else AfterCalls(HandleAfter(Live(c), calls[0]).counter, calls[1..])
  }

  ghost predicate RestartsNoContributor(c: Counter, calls: seq<Call>) {
    forall k :: 0 <= k < |calls| && calls[k].StartCall? ==> !IsContributor(c, calls[k].id)
  }

  /**
   Once the limit is reached, and as long as no contributor restarts, tearing the
   actor down changes no answer any worker gets, and the contributors stay the same.
   */
  lemma {:induction false} TeardownIsInvisible(c: Counter, calls: seq<Call>)
    requires c.remainingTake == 0 && RestartsNoContributor(c, calls)
    ensures Answers(Live(c), calls) == Answers(Dead, calls)
    ensures forall id :: IsContributor(AfterCalls(c, calls), id) <==> IsContributor(c, id)
    ensures AfterCalls(c, calls).remainingTake == 0
    decreases |calls|
  {
    if calls == [] {
    } else {
      var c' := HandleAfter(Live(c), calls[0]).counter;
      assert !IsContributor(c, calls[0].id) || calls[0].ClaimCall?;
      assert forall id :: IsContributor(c', id) <==> IsContributor(c, id);
      assert forall k :: 0 <= k < |calls[1..]| ==> calls[1..][k] == calls[k + 1];
      TeardownIsInvisible(c', calls[1..]);
    }
  }

  /** And only then: after a contributor restarts, the very next non-empty claim tells a live actor from a dead one. */
  lemma RestartOfContributorIsVisible(c: Counter, id: TaskId, claimant: TaskId, n: nat)
    requires c.remainingTake == 0 && n > 0
    ensures Answers(Live(c), [StartCall(id), ClaimCall(claimant, n)])
            == Answers(Dead, [StartCall(id), ClaimCall(claimant, n)])
            <==> !IsContributor(c, id)
  {
    var calls := [StartCall(id), ClaimCall(claimant, n)];
    assert calls[1..] == [ClaimCall(claimant, n)];
    assert calls[1..][1..] == [];
    assert Answers(Live(Refund(c, id)), calls[1..]) == [ReplyTo(Refund(c, id), n)];
    assert Answers(Dead, calls[1..]) == [SATURATED];
    assert Answers(Live(c), calls)[0] == ReplyTo(Refund(c, id), n);
    assert Answers(Dead, calls)[0] == SATURATED;
  }
}
