/**
 Batched decoding of video frames by timestamp.  Targets are sorted and clustered, each cluster
 is one seek and one forward scan, and every target must get the frame of the whole shard
 nearest to it, as if the shard had been searched from end to end.
 */
module ShardDecode {
  import opened Options
  import opened VideoStream

  datatype Target = Target(row: nat, at: real)

  /** A shard: its frames and the length of a tick in seconds. */
  datatype Shard = Shard(frames: seq<Frame>, timeBase: real)

  const DECODE_FRAME_BUDGET: nat := 20000
  const RESEEK_GAP: real := 10.0

  ghost predicate Valid(v: Shard) {
    v.timeBase > 0.0 && Increasing(v.frames)
  }

  predicate Timed(v: Shard, i: nat)
    requires i < |v.frames|
  {
    v.frames[i].pts.Some?
  }

  function TimeOf(v: Shard, i: nat): real
    requires i < |v.frames| && Timed(v, i)
  {
    v.frames[i].pts.value as real * v.timeBase
  }

  function Abs(x: real): real {
    if x < 0.0 then -x else x
  }

  function Distance(v: Shard, i: nat, at: real): real
    requires i < |v.frames| && Timed(v, i)
  {
    Abs(TimeOf(v, i) - at)
  }

  // ---------------------------------------------------------------- the specification

  /** Among frames `lo .. hi`, `k` is the first at the smallest distance from `at`. */
  ghost predicate NearestIn(v: Shard, lo: nat, hi: nat, at: real, k: nat)
    requires hi <= |v.frames|
  {
    && lo <= k < hi && Timed(v, k)
    && (forall i :: lo <= i < hi && Timed(v, i) ==> Distance(v, k, at) <= Distance(v, i, at))
    && (forall i :: lo <= i < k && Timed(v, i) ==> Distance(v, k, at) < Distance(v, i, at))
  }

  /** `k` is the first frame of the whole shard at the smallest distance from `at`. */
  ghost predicate Nearest(v: Shard, at: real, k: nat) {
    NearestIn(v, 0, |v.frames|, at, k)
  }

  ghost predicate NoneTimed(v: Shard, lo: nat, hi: nat)
    requires hi <= |v.frames|
  {
    forall i :: lo <= i < hi ==> !Timed(v, i)
  }

  lemma NearestIsUnique(v: Shard, lo: nat, hi: nat, at: real, k: nat, m: nat)
    requires hi <= |v.frames| && NearestIn(v, lo, hi, at, k) && NearestIn(v, lo, hi, at, m)
    ensures k == m
  {
  }

  // ---------------------------------------------------------------- clustered scanning

  /** Seconds requested from the seek: whole microseconds, never negative. */
  function SeekTime(earliest: real): real {
    var micros := Truncate(earliest * 1000000.0);
    (if micros < 0 then 0 else micros) as real / 1000000.0
  }

  lemma SeekTimeBound(earliest: real)
    ensures SeekTime(earliest) <= if earliest < 0.0 then 0.0 else earliest
  {
    var micros := Truncate(earliest * 1000000.0);
    if micros > 0 {
      assert micros as real <= earliest * 1000000.0;
    }
  }

  function ScanStart(v: Shard, earliest: real): nat
    requires v.timeBase > 0.0
  {
    Seek(v.frames, SeekTime(earliest) / v.timeBase)
  }

  /** Just past the first timed frame from `i` on at or after `stop`; the end of the shard if there is none. */
  function ScanEnd(v: Shard, i: nat, stop: real): (k: nat)
    requires i <= |v.frames|
    ensures i <= k <= |v.frames|
    ensures k == |v.frames| || (i < k && Timed(v, k - 1) && TimeOf(v, k - 1) >= stop)
    decreases |v.frames| - i
  {
    if i == |v.frames| then i
    else if Timed(v, i) && TimeOf(v, i) >= stop then i + 1
    else ScanEnd(v, i + 1, stop)
  }

  /** Timed frames in `lo .. hi`: what decoding that stretch charges to the budget. */
  function CountTimed(v: Shard, lo: nat, hi: nat): nat
    requires lo <= hi <= |v.frames|
    decreases hi - lo
  {
    if lo == hi then 0 else (if Timed(v, lo) then 1 else 0) + CountTimed(v, lo + 1, hi)
  }

  lemma TickOrder(v: Shard, p: int, q: int)
    requires v.timeBase > 0.0 && p < q
    ensures p as real * v.timeBase < q as real * v.timeBase
  {
  }

  lemma LaterIsLarger(v: Shard, i: nat, j: nat)
    requires Valid(v) && i < j < |v.frames| && Timed(v, i) && Timed(v, j)
    ensures TimeOf(v, i) < TimeOf(v, j)
  {
    TickOrder(v, v.frames[i].pts.value, v.frames[j].pts.value);
  }

  /** Decoding can start at frame `lo`: it is the first, or has a timestamp. */
  predicate Landing(v: Shard, lo: nat) {
    lo == 0 || (lo < |v.frames| && Timed(v, lo))
  }

  /** No timed frame before the landing is as close to `at` as the landing itself. */
  ghost predicate Reached(v: Shard, lo: nat, at: real)
    requires Landing(v, lo)
  {
    forall i :: 0 <= i < lo && Timed(v, i) ==> Distance(v, lo, at) < Distance(v, i, at)
  }

  /** The target or all frames are at time zero or later. */
  ghost predicate Reachable(v: Shard, at: real) {
    at >= 0.0 || forall i :: 0 <= i < |v.frames| && Timed(v, i) ==> TimeOf(v, i) >= 0.0
  }

  lemma SeekTicks(v: Shard, p: int, seconds: real)
    requires v.timeBase > 0.0 && p as real <= seconds / v.timeBase
    ensures p as real * v.timeBase <= seconds
  {
    var ticks := seconds / v.timeBase;
    Scale(p as real, ticks, v.timeBase);
    assert ticks * v.timeBase == seconds;
  }

  lemma LandingTime(v: Shard, earliest: real, lo: nat)
    requires v.timeBase > 0.0 && lo == ScanStart(v, earliest) && lo > 0
    ensures lo < |v.frames| && Timed(v, lo) && TimeOf(v, lo) <= if earliest < 0.0 then 0.0 else earliest
  {
    SeekTimeBound(earliest);
    SeekTicks(v, v.frames[lo].pts.value, SeekTime(earliest));
  }

  lemma CloserThanEarlier(before: real, landing: real, earliest: real, at: real)
    requires before < landing <= (if earliest < 0.0 then 0.0 else earliest) && earliest <= at
    requires at >= 0.0 || before >= 0.0
    ensures Abs(landing - at) < Abs(before - at)
  {
  }

  /** A seek for a cluster reaches every target of it that is not before time zero. */
  lemma ReachableIsReached(v: Shard, earliest: real, at: real)
    requires Valid(v) && Reachable(v, at) && earliest <= at
    ensures Landing(v, ScanStart(v, earliest)) && Reached(v, ScanStart(v, earliest), at)
  {
    var lo := ScanStart(v, earliest);
    if lo > 0 {
      LandingTime(v, earliest, lo);
      forall i | 0 <= i < lo && Timed(v, i) ensures Distance(v, lo, at) < Distance(v, i, at) {
        LaterIsLarger(v, i, lo);
        CloserThanEarlier(TimeOf(v, i), TimeOf(v, lo), earliest, at);
      }
    }
  }

  lemma EndIsLate(v: Shard, lo: nat, at: real, stop: real, hi: nat)
    requires Valid(v) && lo <= |v.frames| && at <= stop && hi == ScanEnd(v, lo, stop) && hi < |v.frames|
    ensures lo < hi && Timed(v, hi - 1)
    ensures forall i :: hi <= i < |v.frames| && Timed(v, i) ==> Distance(v, hi - 1, at) < Distance(v, i, at)
  {
    forall i | hi <= i < |v.frames| && Timed(v, i) ensures Distance(v, hi - 1, at) < Distance(v, i, at) {
      LaterIsLarger(v, hi - 1, i);
    }
  }

  /** Stopping the scan early loses nothing. */
  lemma EarlyStopSuffices(v: Shard, lo: nat, at: real, stop: real, hi: nat)
    requires Valid(v) && lo <= |v.frames| && at <= stop && hi == ScanEnd(v, lo, stop)
    ensures NoneTimed(v, lo, hi) <==> NoneTimed(v, lo, |v.frames|)
    ensures forall k :: NearestIn(v, lo, hi, at, k) ==> NearestIn(v, lo, |v.frames|, at, k)
  {
    if hi < |v.frames| {
      EndIsLate(v, lo, at, stop, hi);
      forall k | NearestIn(v, lo, hi, at, k) ensures NearestIn(v, lo, |v.frames|, at, k) {
        assert Distance(v, k, at) <= Distance(v, hi - 1, at);
      }
    }
  }

  /** Searching from the landing on finds the nearest frame of the whole shard exactly when the target is reached. */
  lemma NearestIffReached(v: Shard, lo: nat, at: real, k: nat)
    requires Valid(v) && Landing(v, lo) && NearestIn(v, lo, |v.frames|, at, k)
    ensures Nearest(v, at, k) <==> Reached(v, lo, at)
  {
    if Nearest(v, at, k) {
      forall i | 0 <= i < lo && Timed(v, i) ensures Distance(v, lo, at) < Distance(v, i, at) {
        LaterIsLarger(v, i, lo);
        if lo < k {
          LaterIsLarger(v, lo, k);
        }
      }
    }
  }

  /** A landing hides no shard's timed frames altogether. */
  lemma LandingSeesAny(v: Shard, lo: nat)
    requires Landing(v, lo)
    ensures NoneTimed(v, lo, |v.frames|) <==> NoneTimed(v, 0, |v.frames|)
  {
  }

  // ---------------------------------------------------------------- scanning one cluster

  /** The best frame seen so far for a target; absent while its distance is still infinite. */
  datatype Best = Best(dist: real, image: Image)

  ghost function BestFrame(v: Shard, lo: nat, hi: nat, at: real): (r: Option<nat>)
    requires lo <= hi <= |v.frames|
    ensures r.None? <==> NoneTimed(v, lo, hi)
    ensures r.Some? ==> NearestIn(v, lo, hi, at, r.value)
  {
    if lo == hi then None
    else
      var b := BestFrame(v, lo, hi - 1, at);
      if Timed(v, hi - 1) && (b.None? || Distance(v, hi - 1, at) < Distance(v, b.value, at)) then Some(hi - 1) else b
  }

  /** `best` holds what scanning frames `lo .. hi` finds for target `t`. */
  ghost predicate Tracks(v: Shard, best: map<nat, Best>, t: Target, lo: nat, hi: nat)
    requires lo <= hi <= |v.frames|
  {
    match BestFrame(v, lo, hi, t.at)
    case None => t.row !in best
    case Some(k) => t.row in best && best[t.row] == Best(Distance(v, k, t.at), v.frames[k].image)
  }

  ghost predicate AllTrack(v: Shard, best: map<nat, Best>, ts: seq<Target>, lo: nat, hi: nat)
    requires lo <= hi <= |v.frames|
  {
    forall a :: 0 <= a < |ts| ==> Tracks(v, best, ts[a], lo, hi)
  }

  ghost predicate DistinctRows(ts: seq<Target>) {
    forall a, b :: 0 <= a < b < |ts| ==> ts[a].row != ts[b].row
  }

  ghost predicate Among(row: nat, ts: seq<Target>) {
    exists a :: 0 <= a < |ts| && ts[a].row == row
  }

  /** Every row outside `ts` is as it was. */
  ghost predicate SameOutside(best: map<nat, Best>, best': map<nat, Best>, ts: seq<Target>) {
    forall row: nat :: !Among(row, ts) ==> (row in best' <==> row in best) && (row in best ==> best'[row] == best[row])
  }

  lemma TracksFrame(v: Shard, best: map<nat, Best>, best': map<nat, Best>, t: Target, lo: nat, hi: nat)
    requires lo <= hi <= |v.frames| && Tracks(v, best, t, lo, hi)
    requires (t.row in best' <==> t.row in best) && (t.row in best ==> best'[t.row] == best[t.row])
    ensures Tracks(v, best', t, lo, hi)
  {
  }

  /** Offers frame `i` to one target. */
  method ImproveOne(v: Shard, i: nat, t: Target, best: map<nat, Best>, ghost lo: nat) returns (best': map<nat, Best>)
    requires lo <= i < |v.frames| && Timed(v, i) && Tracks(v, best, t, lo, i)
    ensures Tracks(v, best', t, lo, i + 1)
    ensures forall row :: row != t.row ==> (row in best' <==> row in best) && (row in best ==> best'[row] == best[row])
  {
    best' := best;
    var dist := Distance(v, i, t.at);
    if t.row !in best' || dist < best'[t.row].dist {
      best' := best'[t.row := Best(dist, v.frames[i].image)];
    }
  }

  /** Offers frame `i` to every target of the cluster. */
  method Improve(v: Shard, i: nat, ts: seq<Target>, best: map<nat, Best>, ghost lo: nat) returns (best': map<nat, Best>)
    requires lo <= i < |v.frames| && Timed(v, i) && DistinctRows(ts) && AllTrack(v, best, ts, lo, i)
    ensures AllTrack(v, best', ts, lo, i + 1) && SameOutside(best, best', ts)
  {
    best' := best;
    for a := 0 to |ts|
      invariant forall b :: 0 <= b < a ==> Tracks(v, best', ts[b], lo, i + 1)
      invariant forall b :: a <= b < |ts| ==> Tracks(v, best', ts[b], lo, i)
      invariant SameOutside(best, best', ts)
    {
      ghost var before := best';
      best' := ImproveOne(v, i, ts[a], best', lo);
      assert Among(ts[a].row, ts);
      forall b | 0 <= b < |ts| && b != a ensures Tracks(v, best', ts[b], lo, if b < a then i + 1 else i) {
        TracksFrame(v, before, best', ts[b], lo, if b < a then i + 1 else i);
      }
    }
  }

  lemma {:induction false} CountSplits(v: Shard, lo: nat, mid: nat, hi: nat)
    requires lo <= mid <= hi <= |v.frames|
    ensures CountTimed(v, lo, hi) == CountTimed(v, lo, mid) + CountTimed(v, mid, hi)
    decreases mid - lo
  {
    if lo < mid {
      CountSplits(v, lo + 1, mid, hi);
    }
  }

  lemma SkipUntimed(v: Shard, best: map<nat, Best>, ts: seq<Target>, lo: nat, i: nat)
    requires lo <= i < |v.frames| && !Timed(v, i) && AllTrack(v, best, ts, lo, i)
    ensures AllTrack(v, best, ts, lo, i + 1)
  {
    forall a | 0 <= a < |ts| ensures Tracks(v, best, ts[a], lo, i + 1) {
      assert Tracks(v, best, ts[a], lo, i);
    }
  }

  lemma SameOutsideTwice(a: map<nat, Best>, b: map<nat, Best>, c: map<nat, Best>, ts: seq<Target>)
    requires SameOutside(a, b, ts) && SameOutside(b, c, ts)
    ensures SameOutside(a, c, ts)
  {
  }

  lemma CountStep(v: Shard, lo: nat, i: nat, hi: nat)
    requires lo <= i < hi <= |v.frames|
    ensures CountTimed(v, lo, i + 1) == CountTimed(v, lo, i) + if Timed(v, i) then 1 else 0
    ensures CountTimed(v, lo, i + 1) <= CountTimed(v, lo, hi)
  {
    CountSplits(v, lo, i, i + 1);
    CountSplits(v, lo, i + 1, hi);
    assert CountTimed(v, i, i + 1) == (if Timed(v, i) then 1 else 0) + CountTimed(v, i + 1, i + 1);
  }

  /** What is known after frames `lo .. i` of a cluster's stretch. */
  ghost predicate Scanned(v: Shard, ts: seq<Target>, lo: nat, i: nat, best: map<nat, Best>, best': map<nat, Best>)
    requires lo <= i <= |v.frames|
  {
    AllTrack(v, best', ts, lo, i) && SameOutside(best, best', ts)
  }

  /** Decodes frame `i`, if it has a timestamp. */
  method DecodeFrame(v: Shard, i: nat, ts: seq<Target>, best: map<nat, Best>, ghost lo: nat,
                     ghost first: map<nat, Best>)
    returns (best': map<nat, Best>)
    requires lo <= i < |v.frames| && DistinctRows(ts) && Scanned(v, ts, lo, i, first, best)
    ensures Scanned(v, ts, lo, i + 1, first, best')
  {
    if !Timed(v, i) {
      SkipUntimed(v, best, ts, lo, i);
      return best;
    }
    best' := Improve(v, i, ts, best, lo);
    SameOutsideTwice(first, best, best', ts);
  }

  /**
   One forward decode from frame `lo`, stopping just past the first frame at or after `stop`.
   Gives up when the number of decoded frames reaches the budget.
   */
  method ScanCluster(v: Shard, lo: nat, stop: real, ts: seq<Target>, best: map<nat, Best>, decoded: nat, budget: nat)
    returns (best': map<nat, Best>, decoded': nat, exceeded: bool)
    requires lo <= |v.frames| && DistinctRows(ts) && decoded < budget
    requires forall a :: 0 <= a < |ts| ==> ts[a].row !in best
    ensures exceeded <==> decoded + CountTimed(v, lo, ScanEnd(v, lo, stop)) >= budget
    ensures !exceeded ==> decoded' == decoded + CountTimed(v, lo, ScanEnd(v, lo, stop))
    ensures !exceeded ==> Scanned(v, ts, lo, ScanEnd(v, lo, stop), best, best')
  {
    best', decoded', exceeded := best, decoded, false;
    ghost var hi := ScanEnd(v, lo, stop);
    var i := lo;
    while i < |v.frames|
      invariant lo <= i <= |v.frames| && ScanEnd(v, i, stop) == hi
      invariant decoded' == decoded + CountTimed(v, lo, i) < budget
      invariant Scanned(v, ts, lo, i, best, best')
    {
      CountStep(v, lo, i, hi);
      best' := DecodeFrame(v, i, ts, best', lo, best);
      if Timed(v, i) {
        decoded' := decoded' + 1;
        if decoded' >= budget {
          exceeded := true;
          return;
        }
        if TimeOf(v, i) >= stop {
          i := i + 1;
          break;
        }
      }
      i := i + 1;
    }
  }

  // ---------------------------------------------------------------- sorting and clustering

  ghost predicate Ordered(ts: seq<Target>) {
    forall a, b :: 0 <= a < b < |ts| ==> ts[a].at <= ts[b].at
  }

  /** Inserts `t` after every target that is not later. */
  function Insert(t: Target, ts: seq<Target>): (r: seq<Target>)
    ensures |r| == |ts| + 1 && forall x :: x in r <==> x == t || x in ts
  {
    if ts == [] || ts[|ts| - 1].at <= t.at then ts + [t]
    else
      assert ts == ts[..|ts| - 1] + [ts[|ts| - 1]];
      Insert(t, ts[..|ts| - 1]) + [ts[|ts| - 1]]
  }

  lemma {:induction false} InsertKeepsOrder(t: Target, ts: seq<Target>)
    requires Ordered(ts)
    ensures Ordered(Insert(t, ts))
  {
    if ts == [] || ts[|ts| - 1].at <= t.at {
    } else {
      var front := ts[..|ts| - 1];
      InsertKeepsOrder(t, front);
      var r := Insert(t, front);
      assert forall a :: 0 <= a < |r| ==> r[a] in r;
    }
  }

  lemma {:induction false} InsertKeepsRows(t: Target, ts: seq<Target>)
    requires DistinctRows(ts) && !Among(t.row, ts)
    ensures DistinctRows(Insert(t, ts))
  {
    if ts == [] || ts[|ts| - 1].at <= t.at {
    } else {
      var front := ts[..|ts| - 1];
      assert !Among(t.row, front);
      InsertKeepsRows(t, front);
      var r := Insert(t, front);
      assert forall a :: 0 <= a < |r| ==> r[a] in r;
    }
  }

  /** The targets in ascending time, earlier rows first among equals. */
  function SortedByTime(ts: seq<Target>): (r: seq<Target>)
    ensures |r| == |ts| && (forall x :: x in r <==> x in ts) && Ordered(r)
    ensures DistinctRows(ts) ==> DistinctRows(r)
  {
    if ts == [] then []
    else
      var front, last := ts[..|ts| - 1], ts[|ts| - 1];
      var r := SortedByTime(front);
      assert ts == front + [last];
      SameRows(front, r, last.row);
      assert forall a :: 0 <= a < |front| ==> ts[a] == front[a];
      InsertKeepsOrder(last, r);
      assert DistinctRows(ts) ==> DistinctRows(Insert(last, r)) by {
        if DistinctRows(ts) {
          InsertKeepsRows(last, r);
        }
      }
      Insert(last, r)
  }

  lemma SameRows(ts: seq<Target>, us: seq<Target>, row: nat)
    requires forall x :: x in us <==> x in ts
    ensures Among(row, us) <==> Among(row, ts)
  {
    if a :| 0 <= a < |us| && us[a].row == row {
      assert us[a] in ts;
    }
    if a :| 0 <= a < |ts| && ts[a].row == row {
      assert ts[a] in us;
    }
  }

  function Last<T>(s: seq<T>): T
    requires s != []
  {
    s[|s| - 1]
  }

  function Flatten(cs: seq<seq<Target>>): seq<Target> {
    if cs == [] then [] else Flatten(cs[..|cs| - 1]) + Last(cs)
  }

  /** A target joins the last cluster if it is at most `gap` after its last target, and else starts a new one. */
  function AddTarget(cs: seq<seq<Target>>, t: Target, gap: real): (r: seq<seq<Target>>)
    requires cs != [] && Last(cs) != []
    ensures Flatten(r) == Flatten(cs) + [t] && r != [] && Last(r) != [] && Last(Last(r)) == t
  {
    if t.at - Last(Last(cs)).at > gap then
      assert (cs + [[t]])[..|cs|] == cs;
      cs + [[t]]
    else
      var r := cs[..|cs| - 1] + [Last(cs) + [t]];
      assert r[..|r| - 1] == cs[..|cs| - 1];
      assert Flatten(r) == Flatten(cs[..|cs| - 1]) + (Last(cs) + [t]) == Flatten(cs) + [t];
      r
  }

  /** Neighbouring targets at most `gap` apart share a cluster. */
  function Clusters(ts: seq<Target>, gap: real): (cs: seq<seq<Target>>)
    requires ts != []
    ensures cs != [] && (forall c :: 0 <= c < |cs| ==> cs[c] != []) && Flatten(cs) == ts && Last(Last(cs)) == Last(ts)
  {
    if |ts| == 1 then
      assert Flatten([ts]) == Flatten([ts][..0]) + ts;
      [ts]
    else
      assert ts == ts[..|ts| - 1] + [Last(ts)];
      AddTarget(Clusters(ts[..|ts| - 1], gap), Last(ts), gap)
  }

  method MakeClusters(ts: seq<Target>, gap: real) returns (cs: seq<seq<Target>>)
    requires ts != []
    ensures cs == Clusters(ts, gap)
  {
    cs := [[ts[0]]];
    assert ts[..1] == [ts[0]];
    for i := 1 to |ts|
      invariant cs == Clusters(ts[..i], gap)
    {
      assert ts[..i + 1][..i] == ts[..i] && Last(ts[..i + 1]) == ts[i];
      if ts[i].at - Last(Last(cs)).at > gap {
        cs := cs + [[ts[i]]];
      } else {
        cs := cs[..|cs| - 1] + [Last(cs) + [ts[i]]];
      }
    }
    assert ts[..|ts|] == ts;
  }

  lemma {:induction false} FlattenPrefix(cs: seq<seq<Target>>, c: nat)
    requires c < |cs|
    ensures Flatten(cs[..c + 1]) == Flatten(cs[..c]) + cs[c]
    ensures Flatten(cs[..c + 1]) <= Flatten(cs)
    decreases |cs|
  {
    assert cs[..c + 1][..c] == cs[..c];
    if c + 1 == |cs| {
      assert cs[..c + 1] == cs;
    } else {
      FlattenPrefix(cs[..|cs| - 1], c);
      assert cs[..|cs| - 1][..c + 1] == cs[..c + 1];
    }
  }

  // ---------------------------------------------------------------- the whole shard

  /** How far past the last target of a cluster decoding goes on. */
  function Tail(tolerance: real): real {
    Max(Max(0.1, tolerance * 50.0), 1.0 / 24.0)
  }

  function StretchStart(v: Shard, cluster: seq<Target>): nat
    requires v.timeBase > 0.0 && cluster != []
    ensures StretchStart(v, cluster) <= |v.frames|
  {
    ScanStart(v, cluster[0].at)
  }

  function StretchEnd(v: Shard, cluster: seq<Target>, tolerance: real): (hi: nat)
    requires v.timeBase > 0.0 && cluster != []
    ensures StretchStart(v, cluster) <= hi <= |v.frames|
  {
    ScanEnd(v, StretchStart(v, cluster), Last(cluster).at + Tail(tolerance))
  }

  /** Frames decoded for one cluster. */
  function StretchWork(v: Shard, cluster: seq<Target>, tolerance: real): nat
    requires v.timeBase > 0.0 && cluster != []
  {
    CountTimed(v, StretchStart(v, cluster), StretchEnd(v, cluster, tolerance))
  }

  /** Frames the clustered decode of `cs` decodes. */
  function Work(v: Shard, cs: seq<seq<Target>>, tolerance: real): nat
    requires v.timeBase > 0.0 && forall c :: 0 <= c < |cs| ==> cs[c] != []
  {
    if cs == [] then 0
    else Work(v, cs[..|cs| - 1], tolerance) + StretchWork(v, Last(cs), tolerance)
  }

  lemma {:induction false} WorkPrefix(v: Shard, cs: seq<seq<Target>>, tolerance: real, c: nat)
    requires v.timeBase > 0.0 && c <= |cs| && forall d :: 0 <= d < |cs| ==> cs[d] != []
    ensures Work(v, cs[..c], tolerance) <= Work(v, cs, tolerance)
    decreases |cs|
  {
    if c == |cs| {
      assert cs[..c] == cs;
    } else {
      WorkPrefix(v, cs[..|cs| - 1], tolerance, c);
      assert cs[..|cs| - 1][..c] == cs[..c];
    }
  }

  /** Found for `t` by the scan of its cluster's stretch, found for `t` by a scan to the end of the shard. */
  lemma StretchTracks(v: Shard, best: map<nat, Best>, cluster: seq<Target>, tolerance: real, t: Target)
    requires Valid(v) && cluster != [] && t in cluster && Ordered(cluster)
    requires Tracks(v, best, t, StretchStart(v, cluster), StretchEnd(v, cluster, tolerance))
    ensures Tracks(v, best, t, StretchStart(v, cluster), |v.frames|)
  {
    var a :| 0 <= a < |cluster| && cluster[a] == t;
    assert t.at <= Last(cluster).at;
    var lo, hi := StretchStart(v, cluster), StretchEnd(v, cluster, tolerance);
    EarlyStopSuffices(v, lo, t.at, Last(cluster).at + Tail(tolerance), hi);
    var local, global := BestFrame(v, lo, hi, t.at), BestFrame(v, lo, |v.frames|, t.at);
    if local.Some? {
      NearestIsUnique(v, lo, |v.frames|, t.at, local.value, global.value);
    }
  }

  function Repeat(n: nat, lo: nat): (r: seq<nat>)
    ensures |r| == n && forall a :: 0 <= a < n ==> r[a] == lo
  {
    seq(n, _ => lo)
  }

  /** For each target of the clusters in turn, the frame at which decoding starts for it. */
  function Landings(v: Shard, cs: seq<seq<Target>>): (los: seq<nat>)
    requires v.timeBase > 0.0 && forall c :: 0 <= c < |cs| ==> cs[c] != []
    ensures |los| == |Flatten(cs)| && forall a :: 0 <= a < |los| ==> los[a] <= |v.frames| && Landing(v, los[a])
  {
    if cs == [] then [] else Landings(v, cs[..|cs| - 1]) + Repeat(|Last(cs)|, StretchStart(v, Last(cs)))
  }

  /** What is known once the targets `done`, starting from `los`, have been searched. */
  ghost predicate Searched(v: Shard, done: seq<Target>, los: seq<nat>, best: map<nat, Best>) {
    && |los| == |done|
    && (forall a :: 0 <= a < |done| ==> los[a] <= |v.frames| && Tracks(v, best, done[a], los[a], |v.frames|))
    && forall row :: row in best ==> Among(row, done)
  }

  lemma ClusterSearched(v: Shard, done: seq<Target>, los: seq<nat>, cluster: seq<Target>, tolerance: real,
                        best: map<nat, Best>, best': map<nat, Best>)
    requires Valid(v) && cluster != [] && Ordered(done + cluster) && DistinctRows(done + cluster)
    requires Searched(v, done, los, best)
    requires Scanned(v, cluster, StretchStart(v, cluster), StretchEnd(v, cluster, tolerance), best, best')
    ensures Searched(v, done + cluster, los + Repeat(|cluster|, StretchStart(v, cluster)), best')
  {
    var all, los' := done + cluster, los + Repeat(|cluster|, StretchStart(v, cluster));
    ClusterInherits(done, cluster);
    forall a | 0 <= a < |all| ensures los'[a] <= |v.frames| && Tracks(v, best', all[a], los'[a], |v.frames|) {
      if a < |done| {
        assert Tracks(v, best, done[a], los[a], |v.frames|);
        assert !Among(all[a].row, cluster);
      } else {
        assert all[a] == cluster[a - |done|] && all[a] in cluster;
        StretchTracks(v, best', cluster, tolerance, all[a]);
      }
    }
    forall row | row in best' ensures Among(row, all) {
      if Among(row, cluster) {
        var b :| 0 <= b < |cluster| && cluster[b].row == row;
        assert all[|done| + b].row == row;
      } else {
        var b :| 0 <= b < |done| && done[b].row == row;
        assert all[b].row == row;
      }
    }
  }

  lemma ClusterInherits(done: seq<Target>, cluster: seq<Target>)
    requires Ordered(done + cluster) && DistinctRows(done + cluster)
    ensures Ordered(cluster) && DistinctRows(cluster)
    ensures forall a, b :: 0 <= a < |done| && 0 <= b < |cluster| ==> done[a].row != cluster[b].row
  {
    var all := done + cluster;
    assert forall b :: 0 <= b < |cluster| ==> all[|done| + b] == cluster[b];
    assert forall a :: 0 <= a < |done| ==> all[a] == done[a];
  }

  // ---------------------------------------------------------------- decoding

  /** A decoded picture, resized when both dimensions are given. */
  datatype Picture = Picture(image: Image, size: Option<(nat, nat)>)

  datatype Decoded = Images(images: seq<(nat, Picture)>) | BudgetExceeded | NoFrames | NoMatch(row: nat)

  function SizeOf(width: Option<nat>, height: Option<nat>): Option<(nat, nat)> {
    if width.Some? && height.Some? then Some((width.value, height.value)) else None
  }

  /** Some frame from `lo` on lies within `tolerance` of `at`. */
  ghost predicate Matched(v: Shard, lo: nat, at: real, tolerance: real) {
    exists k :: lo <= k < |v.frames| && Timed(v, k) && Distance(v, k, at) <= tolerance
  }

  /** `p` is the picture of the frame nearest to `at` from `lo` on, the earliest among equals. */
  ghost predicate Shows(v: Shard, lo: nat, at: real, size: Option<(nat, nat)>, p: Picture) {
    exists k: nat :: NearestIn(v, lo, |v.frames|, at, k) && p == Picture(v.frames[k].image, size)
  }

  lemma TrackedShows(v: Shard, best: map<nat, Best>, t: Target, lo: nat, tolerance: real, size: Option<(nat, nat)>)
    requires Landing(v, lo) && lo <= |v.frames| && Tracks(v, best, t, lo, |v.frames|) && !NoneTimed(v, 0, |v.frames|)
    ensures t.row in best && Shows(v, lo, t.at, size, Picture(best[t.row].image, size))
    ensures best[t.row].dist <= tolerance <==> Matched(v, lo, t.at, tolerance)
  {
    LandingSeesAny(v, lo);
    var k := BestFrame(v, lo, |v.frames|, t.at).value;
    assert NearestIn(v, lo, |v.frames|, t.at, k);
  }

  /** For a reached target, the search from its landing is the search of the whole shard. */
  lemma ReachedIsWhole(v: Shard, lo: nat, at: real, tolerance: real, size: Option<(nat, nat)>)
    requires Valid(v) && Landing(v, lo) && Reached(v, lo, at)
    ensures forall p :: Shows(v, lo, at, size, p) ==> Shows(v, 0, at, size, p)
    ensures Matched(v, lo, at, tolerance) <==> Matched(v, 0, at, tolerance)
  {
    forall p | Shows(v, lo, at, size, p) ensures Shows(v, 0, at, size, p) {
      var k: nat :| NearestIn(v, lo, |v.frames|, at, k) && p == Picture(v.frames[k].image, size);
      NearestIffReached(v, lo, at, k);
    }
    if k :| 0 <= k < lo && k < |v.frames| && Timed(v, k) && Distance(v, k, at) <= tolerance {
      assert Distance(v, lo, at) <= tolerance;
    }
  }

  ghost predicate Splits(cs: seq<seq<Target>>, ts: seq<Target>) {
    Flatten(cs) == ts && forall c :: 0 <= c < |cs| ==> cs[c] != []
  }

  /** The next cluster continues the searched prefix of the sorted targets. */
  lemma NextCluster(v: Shard, cs: seq<seq<Target>>, ts: seq<Target>, tolerance: real, c: nat)
    requires Valid(v) && Splits(cs, ts) && Ordered(ts) && DistinctRows(ts) && c < |cs|
    ensures var done := Flatten(cs[..c]);
            && Flatten(cs[..c + 1]) == done + cs[c] && Ordered(done + cs[c]) && DistinctRows(done + cs[c])
    ensures Landings(v, cs[..c + 1]) == Landings(v, cs[..c]) + Repeat(|cs[c]|, StretchStart(v, cs[c]))
    ensures Work(v, cs[..c + 1], tolerance)
            == Work(v, cs[..c], tolerance) + StretchWork(v, cs[c], tolerance)
    ensures Work(v, cs[..c + 1], tolerance) <= Work(v, cs, tolerance)
  {
    FlattenPrefix(cs, c);
    PrefixInherits(Flatten(cs[..c + 1]), ts);
    WorkPrefix(v, cs, tolerance, c + 1);
    assert cs[..c + 1][..c] == cs[..c];
  }

  lemma FreshRows(v: Shard, done: seq<Target>, los: seq<nat>, cluster: seq<Target>, best: map<nat, Best>)
    requires Ordered(done + cluster) && DistinctRows(done + cluster) && Searched(v, done, los, best)
    ensures DistinctRows(cluster) && forall a :: 0 <= a < |cluster| ==> cluster[a].row !in best
  {
    ClusterInherits(done, cluster);
  }

  /** One seek and one forward decode for the targets of a cluster. */
  method SearchCluster(v: Shard, ghost done: seq<Target>, ghost los: seq<nat>, cluster: seq<Target>, tolerance: real,
                       best: map<nat, Best>, decoded: nat, budget: nat)
    returns (best': map<nat, Best>, decoded': nat, exceeded: bool)
    requires Valid(v) && cluster != [] && Ordered(done + cluster) && DistinctRows(done + cluster)
    requires Searched(v, done, los, best) && decoded < budget
    ensures exceeded <==> decoded + StretchWork(v, cluster, tolerance) >= budget
    ensures !exceeded ==> decoded' == decoded + StretchWork(v, cluster, tolerance)
    ensures !exceeded ==> Searched(v, done + cluster, los + Repeat(|cluster|, StretchStart(v, cluster)), best')
  {
    FreshRows(v, done, los, cluster, best);
    best', decoded', exceeded :=
      ScanCluster(v, StretchStart(v, cluster), Last(cluster).at + Tail(tolerance), cluster, best, decoded, budget);
    if !exceeded {
      ClusterSearched(v, done, los, cluster, tolerance, best, best');
    }
  }

  /** Searches all clusters; gives up when the budget is reached. */
  method Search(v: Shard, ghost ts: seq<Target>, cs: seq<seq<Target>>, tolerance: real, budget: nat)
    returns (best: map<nat, Best>, decoded: nat, exceeded: bool)
    requires Valid(v) && budget > 0 && Ordered(ts) && DistinctRows(ts) && Splits(cs, ts)
    ensures exceeded <==> Work(v, cs, tolerance) >= budget
    ensures !exceeded ==> decoded == Work(v, cs, tolerance) && Searched(v, ts, Landings(v, cs), best)
  {
    best, decoded, exceeded := map[], 0, false;
    assert cs[..0] == [];
    ghost var done: seq<Target>, los: seq<nat> := [], [];
    for c := 0 to |cs|
      invariant done == Flatten(cs[..c]) && los == Landings(v, cs[..c])
      invariant decoded == Work(v, cs[..c], tolerance) < budget
      invariant Searched(v, done, los, best)
    {
      NextCluster(v, cs, ts, tolerance, c);
      best, decoded, exceeded := SearchCluster(v, done, los, cs[c], tolerance, best, decoded, budget);
      if exceeded {
        return;
      }
      done, los := done + cs[c], los + Repeat(|cs[c]|, StretchStart(v, cs[c]));
    }
    assert cs[..|cs|] == cs;
  }

  lemma PrefixInherits(prefix: seq<Target>, ts: seq<Target>)
    requires prefix <= ts && Ordered(ts) && DistinctRows(ts)
    ensures Ordered(prefix) && DistinctRows(prefix)
  {
    assert forall a :: 0 <= a < |prefix| ==> prefix[a] == ts[a];
  }

  lemma StretchWorkIffTimed(v: Shard, cluster: seq<Target>, tolerance: real)
    requires Valid(v) && cluster != [] && Ordered(cluster)
    ensures StretchWork(v, cluster, tolerance) == 0 <==> NoneTimed(v, 0, |v.frames|)
  {
    var lo, hi, first := StretchStart(v, cluster), StretchEnd(v, cluster, tolerance), cluster[0].at;
    assert first <= Last(cluster).at;
    EarlyStopSuffices(v, lo, first, Last(cluster).at + Tail(tolerance), hi);
    LandingSeesAny(v, lo);
    CountZero(v, lo, hi);
  }

  /** Nothing is decoded exactly when the shard has no timed frame. */
  lemma SomeWorkIffTimed(v: Shard, cs: seq<seq<Target>>, tolerance: real, ts: seq<Target>)
    requires Valid(v) && cs != [] && Splits(cs, ts) && Ordered(ts) && DistinctRows(ts)
    ensures Work(v, cs, tolerance) == 0 <==> NoneTimed(v, 0, |v.frames|)
  {
    forall c | 0 <= c < |cs| ensures StretchWork(v, cs[c], tolerance) == 0 <==> NoneTimed(v, 0, |v.frames|) {
      NextCluster(v, cs, ts, tolerance, c);
      ClusterInherits(Flatten(cs[..c]), cs[c]);
      StretchWorkIffTimed(v, cs[c], tolerance);
    }
    WorkZero(v, cs, tolerance);
    assert StretchWork(v, cs[0], tolerance) == 0 <==> NoneTimed(v, 0, |v.frames|);
  }

  lemma {:induction false} CountZero(v: Shard, lo: nat, hi: nat)
    requires lo <= hi <= |v.frames|
    ensures CountTimed(v, lo, hi) == 0 <==> NoneTimed(v, lo, hi)
    decreases hi - lo
  {
    if lo < hi {
      CountZero(v, lo + 1, hi);
    }
  }

  lemma {:induction false} WorkZero(v: Shard, cs: seq<seq<Target>>, tolerance: real)
    requires v.timeBase > 0.0 && forall c :: 0 <= c < |cs| ==> cs[c] != []
    ensures Work(v, cs, tolerance) == 0 <==>
            forall c :: 0 <= c < |cs| ==> StretchWork(v, cs[c], tolerance) == 0
  {
    if cs == [] {
    } else {
      WorkZero(v, cs[..|cs| - 1], tolerance);
      assert forall c :: 0 <= c < |cs| - 1 ==> cs[..|cs| - 1][c] == cs[c];
    }
  }

  /** Where decoding starts for each target in ascending time. */
  function SortedLandings(v: Shard, targets: seq<Target>, gap: real): (los: seq<nat>)
    requires v.timeBase > 0.0 && targets != []
    ensures |los| == |SortedByTime(targets)| && forall a :: 0 <= a < |los| ==>
            los[a] <= |v.frames| && Landing(v, los[a])
  {
    Landings(v, Clusters(SortedByTime(targets), gap))
  }

  ghost predicate AllMatched(v: Shard, ts: seq<Target>, los: seq<nat>, tolerance: real)
    requires |los| == |ts|
  {
    forall a :: 0 <= a < |ts| ==> Matched(v, los[a], ts[a].at, tolerance)
  }

  /** What decoding one shard must answer for targets in ascending time. */
  ghost predicate AnswersSorted(v: Shard, ts: seq<Target>, tolerance: real, size: Option<(nat, nat)>, gap: real,
                                budget: nat, r: Decoded)
    requires v.timeBase > 0.0 && ts != []
  {
    var los := Landings(v, Clusters(ts, gap));
    if Work(v, Clusters(ts, gap), tolerance) >= budget then r == BudgetExceeded
    else if NoneTimed(v, 0, |v.frames|) then r == NoFrames
    else if AllMatched(v, ts, los, tolerance) then
      && r.Images? && |r.images| == |ts|
      && forall a :: 0 <= a < |ts| ==> r.images[a].0 == ts[a].row && Shows(v, los[a], ts[a].at, size, r.images[a].1)
    else
      r.NoMatch? && exists a :: 0 <= a < |ts| && r.row == ts[a].row && !Matched(v, los[a], ts[a].at, tolerance)
  }

  /** What decoding one shard must answer. */
  ghost predicate Answers(v: Shard, targets: seq<Target>, tolerance: real, size: Option<(nat, nat)>, gap: real,
                          budget: nat, r: Decoded)
    requires v.timeBase > 0.0 && targets != []
  {
    AnswersSorted(v, SortedByTime(targets), tolerance, size, gap, budget, r)
  }

  /** `p` is right for target `t` searched from `lo`, and its frame is within tolerance. */
  ghost predicate Renders(v: Shard, t: Target, lo: nat, tolerance: real, size: Option<(nat, nat)>, p: (nat, Picture)) {
    p.0 == t.row && Shows(v, lo, t.at, size, p.1) && Matched(v, lo, t.at, tolerance)
  }

  /** The picture for target `a`, or None if its frame is too far from it. */
  method RenderOne(v: Shard, ts: seq<Target>, ghost los: seq<nat>, a: nat, best: map<nat, Best>, tolerance: real,
                   size: Option<(nat, nat)>)
    returns (p: Option<(nat, Picture)>)
    requires Searched(v, ts, los, best) && a < |ts| && Landing(v, los[a]) && !NoneTimed(v, 0, |v.frames|)
    ensures p.Some? ==> Renders(v, ts[a], los[a], tolerance, size, p.value)
    ensures p.None? ==> !Matched(v, los[a], ts[a].at, tolerance)
  {
    var t := ts[a];
    TrackedShows(v, best, t, los[a], tolerance, size);
    if best[t.row].dist > tolerance {
      return None;
    }
    return Some((t.row, Picture(best[t.row].image, size)));
  }

  ghost predicate Rendered(v: Shard, ts: seq<Target>, los: seq<nat>, tolerance: real, size: Option<(nat, nat)>,
                           out: seq<(nat, Picture)>) {
    |out| <= |ts| == |los| && forall a :: 0 <= a < |out| ==> Renders(v, ts[a], los[a], tolerance, size, out[a])
  }

  ghost predicate Landed(v: Shard, los: seq<nat>) {
    forall a :: 0 <= a < |los| ==> Landing(v, los[a])
  }

  /** Turns the best frames into pictures, in target order; fails on the first target too far from its frame. */
  method Render(v: Shard, ts: seq<Target>, ghost los: seq<nat>, best: map<nat, Best>, tolerance: real,
                size: Option<(nat, nat)>)
    returns (r: Decoded)
    requires Searched(v, ts, los, best) && Landed(v, los) && !NoneTimed(v, 0, |v.frames|)
    ensures r.Images? || r.NoMatch?
    ensures r.Images? ==> |r.images| == |ts| && Rendered(v, ts, los, tolerance, size, r.images)
    ensures r.NoMatch? ==> exists a :: 0 <= a < |ts| && r.row == ts[a].row && !Matched(v, los[a], ts[a].at, tolerance)
  {
    var out: seq<(nat, Picture)> := [];
    for a := 0 to |ts|
      invariant |out| == a && Rendered(v, ts, los, tolerance, size, out)
    {
      var p := RenderOne(v, ts, los, a, best, tolerance, size);
      if p.None? {
        return NoMatch(ts[a].row);
      }
      RenderedSnoc(v, ts, los, tolerance, size, out, p.value);
      out := out + [p.value];
    }
    return Images(out);
  }

  lemma RenderedSnoc(v: Shard, ts: seq<Target>, los: seq<nat>, tolerance: real, size: Option<(nat, nat)>,
                     out: seq<(nat, Picture)>, p: (nat, Picture))
    requires Rendered(v, ts, los, tolerance, size, out) && |out| < |ts|
             && Renders(v, ts[|out|], los[|out|], tolerance, size, p)
    ensures Rendered(v, ts, los, tolerance, size, out + [p])
  {
  }

  method DecodeSorted(v: Shard, ts: seq<Target>, tolerance: real, size: Option<(nat, nat)>, gap: real, budget: nat)
    returns (r: Decoded)
    requires Valid(v) && ts != [] && Ordered(ts) && DistinctRows(ts) && budget > 0
    ensures AnswersSorted(v, ts, tolerance, size, gap, budget, r)
  {
    var cs := MakeClusters(ts, gap);
    ghost var los := Landings(v, cs);
    var best, decoded, exceeded := Search(v, ts, cs, tolerance, budget);
    if exceeded {
      return BudgetExceeded;
    }
    SomeWorkIffTimed(v, cs, tolerance, ts);
    if decoded == 0 {
      return NoFrames;
    }
    r := Render(v, ts, los, best, tolerance, size);
    RenderAnswers(v, ts, tolerance, size, gap, budget, r, los);
  }

  lemma RenderedAnswers(v: Shard, ts: seq<Target>, los: seq<nat>, tolerance: real, size: Option<(nat, nat)>,
                        images: seq<(nat, Picture)>)
    requires |images| == |ts| && Rendered(v, ts, los, tolerance, size, images)
    ensures AllMatched(v, ts, los, tolerance)
    ensures forall a :: 0 <= a < |ts| ==> images[a].0 == ts[a].row && Shows(v, los[a], ts[a].at, size, images[a].1)
  {
    assert forall a :: 0 <= a < |ts| ==> Renders(v, ts[a], los[a], tolerance, size, images[a]);
  }

  lemma RenderAnswers(v: Shard, ts: seq<Target>, tolerance: real, size: Option<(nat, nat)>, gap: real, budget: nat,
                      r: Decoded, los: seq<nat>)
    requires v.timeBase > 0.0 && ts != [] && los == Landings(v, Clusters(ts, gap))
    requires Work(v, Clusters(ts, gap), tolerance) < budget && !NoneTimed(v, 0, |v.frames|) && (r.Images? || r.NoMatch?)
    requires r.Images? ==> |r.images| == |ts| && Rendered(v, ts, los, tolerance, size, r.images)
    requires r.NoMatch? ==>
               exists a :: 0 <= a < |ts| && r.row == ts[a].row && !Matched(v, los[a], ts[a].at, tolerance)
    ensures AnswersSorted(v, ts, tolerance, size, gap, budget, r)
  {
    if r.Images? {
      RenderedAnswers(v, ts, los, tolerance, size, r.images);
    }
  }

  /**
   The clustered decode of one shard: whatever the re-seek gap, every row gets the frame nearest to
   its timestamp from its cluster's landing on, and decoding fails exactly when the budget is used
   up, the shard has no timed frame, or some row's nearest frame is out of tolerance.
   */
  method DecodeOneShard(v: Shard, targets: seq<Target>, tolerance: real, width: Option<nat>, height: Option<nat>,
                        gap: real, budget: nat)
    returns (r: Decoded)
    requires Valid(v) && targets != [] && DistinctRows(targets) && budget > 0
    ensures Answers(v, targets, tolerance, SizeOf(width, height), gap, budget, r)
    ensures r.Images? ==> forall a :: 0 <= a < |r.images| ==>
              r.images[a].1.size == if width.None? || height.None? then None else Some((width.value, height.value))
  {
    r := DecodeSorted(v, SortedByTime(targets), tolerance, SizeOf(width, height), gap, budget);
  }

  // ---------------------------------------------------------------- what decoding costs

  /** A time of `m` microseconds is not past `earliest`, or is zero. */
  predicate NotPast(m: nat, earliest: real) {
    m == 0 || m as real <= earliest * 1000000.0
  }

  /** Decoding for targets from `earliest` on may start at `k`: the first frame, or a keyframe that is not past them. */
  ghost predicate MayStart(v: Shard, k: nat, earliest: real) {
    || k == 0
    || (k < |v.frames| && v.frames[k].key && v.frames[k].pts.Some?
        && exists m: nat :: NotPast(m, earliest) && v.frames[k].pts.value as real * v.timeBase <= m as real / 1000000.0)
  }

  lemma TruncateIsLatest(m: nat, x: real)
    requires m == 0 || m as real <= x
    ensures Truncate(x) < 0 ==> m == 0
    ensures Truncate(x) >= 0 ==> m <= Truncate(x)
  {
  }

  lemma SeekTimeIsLatest(m: nat, earliest: real)
    requires NotPast(m, earliest)
    ensures m as real / 1000000.0 <= SeekTime(earliest)
  {
    TruncateIsLatest(m, earliest * 1000000.0);
    var micros := Truncate(earliest * 1000000.0);
    var last: nat := if micros < 0 then 0 else micros;
    assert m <= last && SeekTime(earliest) == last as real / 1000000.0;
  }

  lemma TicksNotPast(p: int, timeBase: real, seconds: real)
    requires timeBase > 0.0 && p as real * timeBase <= seconds
    ensures p as real <= seconds / timeBase
  {
    var ticks := seconds / timeBase;
    assert ticks * timeBase == seconds;
    if p as real > ticks {
      assert (p as real - ticks) * timeBase > 0.0;
    }
  }

  lemma LandingMayStart(v: Shard, earliest: real)
    requires v.timeBase > 0.0
    ensures MayStart(v, ScanStart(v, earliest), earliest)
  {
    var lo := ScanStart(v, earliest);
    if lo > 0 {
      var micros := Truncate(earliest * 1000000.0);
      var m: nat := if micros < 0 then 0 else micros;
      SeekTicks(v, v.frames[lo].pts.value, SeekTime(earliest));
      assert SeekTime(earliest) == m as real / 1000000.0;
      assert NotPast(m, earliest);
    }
  }

  lemma StartIsSought(v: Shard, earliest: real, k: nat)
    requires v.timeBase > 0.0 && MayStart(v, k, earliest)
    ensures k <= ScanStart(v, earliest)
  {
    if k > 0 {
      var p := v.frames[k].pts.value;
      var m: nat :| NotPast(m, earliest) && p as real * v.timeBase <= m as real / 1000000.0;
      SeekTimeIsLatest(m, earliest);
      TicksNotPast(p, v.timeBase, SeekTime(earliest));
      assert KeyAtOrBefore(v.frames[k], SeekTime(earliest) / v.timeBase);
    }
  }

  /** The seek lands on the last frame at which decoding may start. */
  lemma SeekIsLatest(v: Shard, earliest: real)
    requires v.timeBase > 0.0
    ensures MayStart(v, ScanStart(v, earliest), earliest)
    ensures forall k: nat :: MayStart(v, k, earliest) ==> k <= ScanStart(v, earliest)
  {
    LandingMayStart(v, earliest);
    forall k: nat | MayStart(v, k, earliest) ensures k <= ScanStart(v, earliest) {
      StartIsSought(v, earliest, k);
    }
  }

  /** Decoding up to `latest` may stop before frame `e`: a frame past every start and well past `latest` precedes it. */
  ghost predicate MayEnd(v: Shard, e: nat, earliest: real, latest: real, tolerance: real) {
    || e == |v.frames|
    || (0 < e < |v.frames| && v.frames[e - 1].pts.Some? && (forall k: nat :: MayStart(v, k, earliest) ==> k < e)
        && var t := v.frames[e - 1].pts.value as real * v.timeBase;
           t >= latest + 0.1 && t >= latest + tolerance * 50.0 && t >= latest + 1.0 / 24.0)
  }

  lemma {:induction false} ScanEndIsFirst(v: Shard, i: nat, stop: real, e: nat)
    requires i < e <= |v.frames| && Timed(v, e - 1) && TimeOf(v, e - 1) >= stop
    ensures ScanEnd(v, i, stop) <= e
    decreases |v.frames| - i
  {
    if i == e - 1 {
    } else if Timed(v, i) && TimeOf(v, i) >= stop {
    } else {
      ScanEndIsFirst(v, i + 1, stop, e);
    }
  }

  lemma StartsBefore(v: Shard, earliest: real, e: nat)
    requires v.timeBase > 0.0 && ScanStart(v, earliest) < e
    ensures forall k: nat :: MayStart(v, k, earliest) ==> k < e
  {
    SeekIsLatest(v, earliest);
  }

  lemma ScanMayEnd(v: Shard, cluster: seq<Target>, tolerance: real)
    requires v.timeBase > 0.0 && cluster != []
    ensures MayEnd(v, StretchEnd(v, cluster, tolerance), cluster[0].at, Last(cluster).at, tolerance)
  {
    var lo, hi, stop := StretchStart(v, cluster), StretchEnd(v, cluster, tolerance), Last(cluster).at + Tail(tolerance);
    if hi < |v.frames| {
      assert lo < hi && Timed(v, hi - 1) && TimeOf(v, hi - 1) >= stop;
      StartsBefore(v, cluster[0].at, hi);
    }
  }

  lemma EndIsScanned(v: Shard, cluster: seq<Target>, tolerance: real, e: nat)
    requires v.timeBase > 0.0 && cluster != []
    requires MayEnd(v, e, cluster[0].at, Last(cluster).at, tolerance)
    ensures StretchEnd(v, cluster, tolerance) <= e
  {
    if e < |v.frames| {
      LandingMayStart(v, cluster[0].at);
      ScanEndIsFirst(v, StretchStart(v, cluster), Last(cluster).at + Tail(tolerance), e);
    }
  }

  /** The scan stops at the first frame before which it may stop. */
  lemma ScanIsShortest(v: Shard, cluster: seq<Target>, tolerance: real)
    requires v.timeBase > 0.0 && cluster != []
    ensures MayEnd(v, StretchEnd(v, cluster, tolerance), cluster[0].at, Last(cluster).at, tolerance)
    ensures forall e: nat :: MayEnd(v, e, cluster[0].at, Last(cluster).at, tolerance) ==>
              StretchEnd(v, cluster, tolerance) <= e
  {
    ScanMayEnd(v, cluster, tolerance);
    forall e: nat | MayEnd(v, e, cluster[0].at, Last(cluster).at, tolerance)
      ensures StretchEnd(v, cluster, tolerance) <= e
    {
      EndIsScanned(v, cluster, tolerance, e);
    }
  }

  /** Neighbours at most `gap` apart. */
  ghost predicate Close(cluster: seq<Target>, gap: real) {
    forall i :: 0 < i < |cluster| ==> cluster[i].at - cluster[i - 1].at <= gap
  }

  /** Each cluster starts more than `gap` after the one before it. */
  ghost predicate Apart(cs: seq<seq<Target>>, gap: real)
    requires forall c :: 0 <= c < |cs| ==> cs[c] != []
  {
    forall c :: 0 < c < |cs| ==> cs[c][0].at - Last(cs[c - 1]).at > gap
  }

  /** `cs` are the targets `ts`, cut exactly where two neighbours are more than `gap` apart. */
  ghost predicate Runs(cs: seq<seq<Target>>, ts: seq<Target>, gap: real) {
    Splits(cs, ts) && (forall c :: 0 <= c < |cs| ==> Close(cs[c], gap)) && Apart(cs, gap)
  }

  lemma RunsExtend(cs: seq<seq<Target>>, ts: seq<Target>, t: Target, gap: real)
    requires cs != [] && Runs(cs, ts, gap)
    ensures Runs(AddTarget(cs, t, gap), ts + [t], gap)
  {
    var k, r := |cs| - 1, AddTarget(cs, t, gap);
    if t.at - Last(Last(cs)).at <= gap {
      assert r[k] == cs[k] + [t] && r[k][0] == cs[k][0];
      assert Close(cs[k], gap);
      assert Close(r[k], gap);
    }
  }

  lemma ClustersUnfold(ts: seq<Target>, gap: real)
    requires |ts| > 1
    ensures Clusters(ts, gap) == AddTarget(Clusters(ts[..|ts| - 1], gap), Last(ts), gap)
  {
  }

  lemma {:induction false} ClustersAreRuns(ts: seq<Target>, gap: real)
    requires ts != []
    ensures Runs(Clusters(ts, gap), ts, gap)
  {
    if |ts| == 1 {
    } else {
      var front := ts[..|ts| - 1];
      ClustersAreRuns(front, gap);
      RunsExtend(Clusters(front, gap), front, Last(ts), gap);
      ClustersUnfold(ts, gap);
      assert ts == front + [Last(ts)];
    }
  }

  /** Taking the last target of a cluster with others away. */
  lemma RunsShrink(cs: seq<seq<Target>>, ts: seq<Target>, gap: real, k: nat, n: nat) returns (cs': seq<seq<Target>>)
    requires Runs(cs, ts, gap) && |cs| == k + 1 && |cs[k]| == n + 1 && n > 0 && ts != []
    ensures cs' != [] && Runs(cs', ts[..|ts| - 1], gap) && cs == AddTarget(cs', Last(ts), gap)
  {
    cs' := cs[..k] + [cs[k][..n]];
    assert ts == Flatten(cs[..k]) + cs[k];
    assert cs'[..k] == cs[..k] && ts[..|ts| - 1] == Flatten(cs[..k]) + cs[k][..n] == Flatten(cs');
    assert Close(cs[k], gap) && cs[k][..n][0] == cs[k][0];
    assert cs[k][..n] + [cs[k][n]] == cs[k] && cs == cs[..k] + [cs[k]];
  }

  /** Taking a cluster of one target away. */
  lemma RunsDrop(cs: seq<seq<Target>>, ts: seq<Target>, gap: real, k: nat) returns (cs': seq<seq<Target>>)
    requires Runs(cs, ts, gap) && |cs| == k + 1 && |cs[k]| == 1 && k > 0 && ts != []
    ensures cs' != [] && Runs(cs', ts[..|ts| - 1], gap) && cs == AddTarget(cs', Last(ts), gap)
  {
    cs' := cs[..k];
    assert ts == Flatten(cs[..k]) + cs[k];
    assert ts[..|ts| - 1] == Flatten(cs[..k]);
    assert cs[k] == [cs[k][0]] && cs == cs[..k] + [cs[k]];
  }

  lemma FlattenOne(cs: seq<seq<Target>>)
    requires |cs| == 1
    ensures Flatten(cs) == cs[0]
  {
    assert cs[..0] == [];
  }

  lemma FlattenMore(cs: seq<seq<Target>>)
    requires |cs| > 1 && forall c :: 0 <= c < |cs| ==> cs[c] != []
    ensures |Flatten(cs)| > 1
  {
    FlattenNonEmpty(cs[..|cs| - 1]);
  }

  lemma OneCluster(cs: seq<seq<Target>>, ts: seq<Target>, gap: real)
    requires |ts| == 1 && Runs(cs, ts, gap)
    ensures cs == [ts]
  {
    if |cs| > 1 {
      FlattenMore(cs);
    } else if |cs| == 1 {
      FlattenOne(cs);
      assert cs == [cs[0]];
    }
  }

  /** There is only one way to cut the targets. */
  lemma {:induction false} RunsAreClusters(cs: seq<seq<Target>>, ts: seq<Target>, gap: real)
    requires ts != [] && Runs(cs, ts, gap)
    ensures cs == Clusters(ts, gap)
    decreases |ts|
  {
    if |ts| == 1 {
      OneCluster(cs, ts, gap);
    } else {
      var k := |cs| - 1;
      var front := ts[..|ts| - 1];
      var cs';
      if |cs[k]| > 1 {
        cs' := RunsShrink(cs, ts, gap, k, |cs[k]| - 1);
      } else {
        if |cs| == 1 {
          FlattenOne(cs);
        }
        cs' := RunsDrop(cs, ts, gap, k);
      }
      RunsAreClusters(cs', front, gap);
      ClustersUnfold(ts, gap);
    }
  }

  lemma CostExtends(v: Shard, ks: seq<nat>, es: seq<nat>, k: nat, e: nat)
    requires Bounds(v, ks, es) && k <= e <= |v.frames|
    ensures Bounds(v, ks + [k], es + [e]) && Cost(v, ks + [k], es + [e]) == Cost(v, ks, es) + CountTimed(v, k, e)
  {
    assert (ks + [k])[..|ks|] == ks && (es + [e])[..|es|] == es;
  }

  lemma StretchesExtend(v: Shard, cs: seq<seq<Target>>, tolerance: real, ks: seq<nat>, es: seq<nat>, n: nat, k: nat,
                        e: nat)
    requires v.timeBase > 0.0 && |cs| == n + 1 && |ks| == |es| == n && forall c :: 0 <= c < |cs| ==> cs[c] != []
    requires k == StretchStart(v, cs[n]) && e == StretchEnd(v, cs[n], tolerance)
    requires forall c :: 0 <= c < n ==> Stretch(v, cs[..n][c], tolerance, ks[c], es[c])
    ensures forall c :: 0 <= c < |cs| ==> Stretch(v, cs[c], tolerance, (ks + [k])[c], (es + [e])[c])
  {
    forall c | 0 <= c < |cs| ensures Stretch(v, cs[c], tolerance, (ks + [k])[c], (es + [e])[c]) {
      if c < n {
        assert Stretch(v, cs[..n][c], tolerance, ks[c], es[c]);
      } else {
        DecodedStretch(v, cs[n], tolerance);
      }
    }
  }

  lemma DecodedStretch(v: Shard, cluster: seq<Target>, tolerance: real)
    requires v.timeBase > 0.0 && cluster != []
    ensures Stretch(v, cluster, tolerance, StretchStart(v, cluster), StretchEnd(v, cluster, tolerance))
  {
    LandingMayStart(v, cluster[0].at);
    ScanMayEnd(v, cluster, tolerance);
  }

  lemma FlattenNonEmpty(cs: seq<seq<Target>>)
    requires cs != [] && Last(cs) != []
    ensures Flatten(cs) != []
  {
  }

  ghost predicate Bounds(v: Shard, ks: seq<nat>, es: seq<nat>) {
    |ks| == |es| && forall c :: 0 <= c < |ks| ==> ks[c] <= es[c] <= |v.frames|
  }

  /** Timed frames in all the stretches `ks[c] .. es[c]`. */
  ghost function Cost(v: Shard, ks: seq<nat>, es: seq<nat>): nat
    requires Bounds(v, ks, es)
  {
    if ks == [] then 0
    else Cost(v, ks[..|ks| - 1], es[..|es| - 1]) + CountTimed(v, Last(ks), Last(es))
  }

  /** Clusters with a place to start and a place to stop for each, costing less than the budget. */
  ghost predicate Plan(v: Shard, ts: seq<Target>, tolerance: real, gap: real, budget: nat,
                       cs: seq<seq<Target>>, ks: seq<nat>, es: seq<nat>)
  {
    && Runs(cs, ts, gap) && |ks| == |cs| && Bounds(v, ks, es)
    && (forall c :: 0 <= c < |cs| ==> Stretch(v, cs[c], tolerance, ks[c], es[c]))
    && Cost(v, ks, es) < budget
  }

  ghost predicate Stretch(v: Shard, cluster: seq<Target>, tolerance: real, k: nat, e: nat)
    requires cluster != []
  {
    && MayStart(v, k, cluster[0].at)
    && MayEnd(v, e, cluster[0].at, Last(cluster).at, tolerance)
  }

  /** The targets can be decoded within the budget. */
  ghost predicate Affordable(v: Shard, ts: seq<Target>, tolerance: real, gap: real, budget: nat) {
    exists cs, ks, es :: Plan(v, ts, tolerance, gap, budget, cs, ks, es)
  }

  /** No stretch is cheaper than the one decoded. */
  lemma StretchIsCheapest(v: Shard, cluster: seq<Target>, tolerance: real, k: nat, e: nat)
    requires v.timeBase > 0.0 && cluster != [] && k <= e <= |v.frames| && Stretch(v, cluster, tolerance, k, e)
    ensures StretchWork(v, cluster, tolerance) <= CountTimed(v, k, e)
  {
    var lo, hi := StretchStart(v, cluster), StretchEnd(v, cluster, tolerance);
    SeekIsLatest(v, cluster[0].at);
    ScanIsShortest(v, cluster, tolerance);
    CountSplits(v, k, lo, e);
    CountSplits(v, lo, hi, e);
  }

  lemma {:induction false} WorkIsCheapest(v: Shard, cs: seq<seq<Target>>, tolerance: real, ks: seq<nat>, es: seq<nat>)
    requires v.timeBase > 0.0 && |ks| == |cs| && Bounds(v, ks, es) && forall c :: 0 <= c < |cs| ==> cs[c] != []
    requires forall c :: 0 <= c < |cs| ==> Stretch(v, cs[c], tolerance, ks[c], es[c])
    ensures Work(v, cs, tolerance) <= Cost(v, ks, es)
    decreases |cs|
  {
    if cs == [] {
    } else {
      var n := |cs| - 1;
      WorkIsCheapest(v, cs[..n], tolerance, ks[..n], es[..n]);
      StretchIsCheapest(v, cs[n], tolerance, ks[n], es[n]);
    }
  }

  /** The stretches that are decoded. */
  lemma {:induction false} WorkIsACost(v: Shard, cs: seq<seq<Target>>, tolerance: real)
    returns (ks: seq<nat>, es: seq<nat>)
    requires v.timeBase > 0.0 && forall c :: 0 <= c < |cs| ==> cs[c] != []
    ensures |ks| == |cs| && Bounds(v, ks, es)
    ensures forall c :: 0 <= c < |cs| ==> Stretch(v, cs[c], tolerance, ks[c], es[c])
    ensures Work(v, cs, tolerance) == Cost(v, ks, es)
    decreases |cs|
  {
    if cs == [] {
      ks, es := [], [];
    } else {
      var n := |cs| - 1;
      var ks', es' := WorkIsACost(v, cs[..n], tolerance);
      var k, e := StretchStart(v, cs[n]), StretchEnd(v, cs[n], tolerance);
      ks, es := ks' + [k], es' + [e];
      CostExtends(v, ks', es', k, e);
      StretchesExtend(v, cs, tolerance, ks', es', n, k, e);
    }
  }

  lemma AffordableIff(v: Shard, ts: seq<Target>, tolerance: real, gap: real, budget: nat)
    requires v.timeBase > 0.0 && ts != []
    ensures Affordable(v, ts, tolerance, gap, budget) <==> Work(v, Clusters(ts, gap), tolerance) < budget
  {
    var clusters := Clusters(ts, gap);
    if Work(v, clusters, tolerance) < budget {
      ClustersAreRuns(ts, gap);
      var ks, es := WorkIsACost(v, clusters, tolerance);
      assert Plan(v, ts, tolerance, gap, budget, clusters, ks, es);
    }
    if cs, ks, es :| Plan(v, ts, tolerance, gap, budget, cs, ks, es) {
      RunsAreClusters(cs, ts, gap);
      WorkIsCheapest(v, cs, tolerance, ks, es);
    }
  }

  /** What counts is the frames with a timestamp. */
  lemma {:induction false} CountTimedMeans(v: Shard, lo: nat, hi: nat)
    requires lo <= hi <= |v.frames|
    ensures CountTimed(v, lo, hi) == |set i | lo <= i < hi && v.frames[i].pts.Some?|
    decreases hi - lo
  {
    var all := set i | lo <= i < hi && v.frames[i].pts.Some?;
    if lo == hi {
      assert all == {};
    } else {
      CountTimedMeans(v, lo + 1, hi);
      var rest := set i | lo + 1 <= i < hi && v.frames[i].pts.Some?;
      assert all == rest + if v.frames[lo].pts.Some? then {lo} else {};
    }
  }

  /**
   The budget is exceeded if and only if no choice of a start for each cluster, the first frame or a keyframe not
   past its targets, and of an end well past them keeps the timed frames in between below the budget.
   */
  lemma BudgetIff(v: Shard, targets: seq<Target>, tolerance: real, size: Option<(nat, nat)>, gap: real, budget: nat,
                  r: Decoded)
    requires v.timeBase > 0.0 && targets != [] && Answers(v, targets, tolerance, size, gap, budget, r)
    ensures r == BudgetExceeded <==> !Affordable(v, SortedByTime(targets), tolerance, gap, budget)
  {
    AffordableIff(v, SortedByTime(targets), tolerance, gap, budget);
  }

  // ---------------------------------------------------------------- the whole shard, seen from a landing

  lemma {:induction false} LandingsReach(v: Shard, cs: seq<seq<Target>>, ts: seq<Target>)
    requires Valid(v) && Splits(cs, ts) && Ordered(ts)
    ensures forall a :: 0 <= a < |ts| && Reachable(v, ts[a].at) ==> Reached(v, Landings(v, cs)[a], ts[a].at)
    decreases |cs|
  {
    if cs == [] {
    } else {
      var front, last := cs[..|cs| - 1], Last(cs);
      var n := |Flatten(front)|;
      assert ts == Flatten(front) + last;
      assert forall b :: 0 <= b < n ==> ts[b] == Flatten(front)[b];
      LandingsReach(v, front, Flatten(front));
      forall a | 0 <= a < |ts| && Reachable(v, ts[a].at) ensures Reached(v, Landings(v, cs)[a], ts[a].at) {
        if a >= n {
          assert ts[n] == last[0] && ts[a] == last[a - n];
          ReachableIsReached(v, last[0].at, ts[a].at);
        }
      }
    }
  }

  /**
   A row whose timestamp is not before zero, or whose shard has no frame before zero, is answered as
   if the whole shard had been searched from end to end.
   */
  lemma ReachableRowsSeeTheWholeShard(v: Shard, targets: seq<Target>, gap: real, tolerance: real,
                                      size: Option<(nat, nat)>, a: nat)
    requires Valid(v) && targets != [] && a < |SortedByTime(targets)| && Reachable(v, SortedByTime(targets)[a].at)
    ensures var lo, at := SortedLandings(v, targets, gap)[a], SortedByTime(targets)[a].at;
            && Reached(v, lo, at)
            && (forall p :: Shows(v, lo, at, size, p) ==> Shows(v, 0, at, size, p))
            && (Matched(v, lo, at, tolerance) <==> Matched(v, 0, at, tolerance))
  {
    var ts := SortedByTime(targets);
    LandingsReach(v, Clusters(ts, gap), ts);
    ReachedIsWhole(v, SortedLandings(v, targets, gap)[a], ts[a].at, tolerance, size);
  }

  /** The nearest frame of the whole shard, in terms of timestamps. */
  lemma NearestMeans(v: Shard, at: real, k: nat)
    ensures Nearest(v, at, k) <==>
            && k < |v.frames| && v.frames[k].pts.Some?
            && var d := Abs(v.frames[k].pts.value as real * v.timeBase - at);
               forall i :: 0 <= i < |v.frames| && v.frames[i].pts.Some? ==>
                 var di := Abs(v.frames[i].pts.value as real * v.timeBase - at);
                 d <= di && (i < k ==> d < di)
  {
    assert forall i :: 0 <= i < |v.frames| ==>
             (Timed(v, i) <==> v.frames[i].pts.Some?)
             && (Timed(v, i) ==> Distance(v, i, at) == Abs(v.frames[i].pts.value as real * v.timeBase - at));
  }

  /** A frame within tolerance, in terms of timestamps. */
  lemma MatchedMeans(v: Shard, at: real, tolerance: real)
    ensures Matched(v, 0, at, tolerance) <==>
            exists k :: 0 <= k < |v.frames| && v.frames[k].pts.Some?
                        && Abs(v.frames[k].pts.value as real * v.timeBase - at) <= tolerance
  {
    if k :| 0 <= k < |v.frames| && v.frames[k].pts.Some?
            && Abs(v.frames[k].pts.value as real * v.timeBase - at) <= tolerance {
      assert Timed(v, k) && Distance(v, k, at) <= tolerance;
    }
  }

  /** The answer for a single target, in terms of its landing. */
  lemma AnswerForOne(v: Shard, t: Target, tolerance: real, size: Option<(nat, nat)>, gap: real, budget: nat,
                     r: Decoded, lo: nat)
    requires Valid(v) && !NoneTimed(v, 0, |v.frames|) && budget > |v.frames| && lo == ScanStart(v, t.at)
    requires Answers(v, [t], tolerance, size, gap, budget, r)
    ensures !Matched(v, lo, t.at, tolerance) ==> r == NoMatch(t.row)
    ensures Matched(v, lo, t.at, tolerance) ==>
              r.Images? && |r.images| == 1 && r.images[0].0 == t.row && Shows(v, lo, t.at, size, r.images[0].1)
  {
    var ts := [t];
    assert SortedByTime(ts) == ts by {
      assert SortedByTime(ts)[0] in ts;
    }
    assert Clusters(ts, gap) == [ts];
    LandingOfOne(v, ts);
    WorkOfOne(v, ts, tolerance);
  }

  /**
   A frame and a target both before zero can miss each other: the seek never goes below zero.  The decode
   answers with the wrong frame, or with a failure although the shard has a frame at the very target.
   */
  lemma NegativeTimesCanMiss(v: Shard, t: Target, tolerance: real, size: Option<(nat, nat)>, gap: real, budget: nat,
                             r: Decoded)
    requires v == Shard([Frame(Some(-2), true, 0), Frame(Some(0), true, 1)], 1.0) && t == Target(0, -2.0)
    requires budget > 2 && Answers(v, [t], tolerance, size, gap, budget, r)
    ensures Valid(v) && Shows(v, 0, t.at, size, Picture(0, size))
    ensures r == if tolerance < 2.0 then NoMatch(0) else Images([(0, Picture(1, size))])
  {
    assert TimeOf(v, 0) == -2.0 && TimeOf(v, 1) == 0.0;
    assert Nearest(v, t.at, 0);
    var lo := ScanStart(v, t.at);
    assert lo == 1 by {
      assert SeekTime(t.at) == 0.0;
      assert KeyAtOrBefore(v.frames[1], SeekTime(t.at) / v.timeBase);
    }
    AnswerForOne(v, t, tolerance, size, gap, budget, r, lo);
    assert Distance(v, 1, t.at) == 2.0;
    assert r.Images? ==> r.images == [r.images[0]];
  }

  lemma LandingOfOne(v: Shard, ts: seq<Target>)
    requires v.timeBase > 0.0 && |ts| == 1
    ensures Landings(v, [ts]) == [StretchStart(v, ts)]
  {
    assert [ts][..0] == [];
  }

  lemma WorkOfOne(v: Shard, ts: seq<Target>, tolerance: real)
    requires v.timeBase > 0.0 && |ts| == 1
    ensures Work(v, [ts], tolerance) <= |v.frames|
  {
    assert [ts][..0] == [];
    CountIsBounded(v, StretchStart(v, ts), StretchEnd(v, ts, tolerance));
  }

  lemma {:induction false} CountIsBounded(v: Shard, lo: nat, hi: nat)
    requires lo <= hi <= |v.frames|
    ensures CountTimed(v, lo, hi) <= hi - lo
    decreases hi - lo
  {
    if lo == hi {
    } else {
      CountIsBounded(v, lo + 1, hi);
    }
  }
}
