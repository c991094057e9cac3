/**
 Iterating over the frames of a time range, optionally sampled at an interval.  The iterator keeps a
 running target time; the theorems say that this is the stateless rule "first frame of its grid
 cell", and that seeking to the start changes nothing.
 */
module FrameSampling {
  import opened Options
  import opened VideoStream

  /** `keyFrame` keeps only keyframes, only other frames, or both; `interval` samples. */
  datatype Query = Query(start: real, end: Option<real>, keyFrame: Option<bool>, interval: Option<real>)

  datatype Emitted = Emitted(number: int, time: Option<real>, frame: Frame)

  datatype Error = PartialSize | BadInterval

  /** Slack for comparing times: a millionth of the interval, at least a nanosecond. */
  function Epsilon(interval: real): real {
    Max(0.000000001, interval * 0.000001)
  }

  // ---------------------------------------------------------------- the stateless rule

  predicate Early(v: Video, q: Query, f: Frame) {
    var t := FrameTime(v, f);
    t.Some? && t.value < q.start
  }

  /** A frame at which the iteration ends. */
  predicate Stops(v: Video, q: Query, f: Frame) {
    var t := FrameTime(v, f);
    !Early(v, q, f) && q.end.Some? && t.Some? && t.value > q.end.value
  }

  /** Reached by the iteration and passing the time and keyframe filters; when sampling, also timed. */
  ghost predicate Passes(v: Video, q: Query, ds: seq<Frame>, i: nat)
    requires i < |ds|
  {
    && (forall j :: 0 <= j <= i ==> !Stops(v, q, ds[j]))
    && !Early(v, q, ds[i]) && !(q.keyFrame == Some(false) && ds[i].key)
    && (q.interval.Some? ==> FrameTime(v, ds[i]).Some?)
  }

  /** The cell of the sampling grid `start, start + interval, ...` that time `t` falls into. */
  function Cell(q: Query, t: real): int
    requires q.interval.Some? && q.interval.value > 0.0
  {
    ((t + Epsilon(q.interval.value) - q.start) / q.interval.value).Floor
  }

  function CellOf(v: Video, q: Query, f: Frame): int
    requires q.interval.Some? && q.interval.value > 0.0 && FrameTime(v, f).Some?
  {
    Cell(q, FrameTime(v, f).value)
  }

  ghost predicate ValidQuery(q: Query) {
    q.interval.Some? ==> q.interval.value > 0.0
  }

  /** Frame `i` is emitted: it passes, and when sampling no earlier passing frame reached its cell. */
  ghost predicate Selected(v: Video, q: Query, ds: seq<Frame>, i: nat)
    requires i < |ds| && ValidQuery(q)
  {
    && Passes(v, q, ds, i)
    && (q.interval.Some? ==>
          forall j :: 0 <= j < i && Passes(v, q, ds, j) ==> CellOf(v, q, ds[j]) < CellOf(v, q, ds[i]))
  }

  ghost function Selection(v: Video, q: Query, ds: seq<Frame>, n: nat): seq<Emitted>
    requires n <= |ds| && ValidQuery(q)
  {
    if n == 0 then []
    else
      Selection(v, q, ds, n - 1)
      + if Selected(v, q, ds, n - 1)
        then [Emitted(FrameNumber(v, ds[n - 1], n - 1), FrameTime(v, ds[n - 1]), ds[n - 1])] else []
  }

  /** With increasing times, the emitted frames are the first passing frames of the cells reached, one per cell. */
  lemma {:induction false} CellIsRepresented(v: Video, q: Query, ds: seq<Frame>, j: nat) returns (i: nat)
    requires ValidVideo(v) && ValidQuery(q) && q.interval.Some? && Increasing(ds)
    requires j < |ds| && Passes(v, q, ds, j)
    ensures i <= j && Selected(v, q, ds, i) && CellOf(v, q, ds[i]) == CellOf(v, q, ds[j])
    ensures forall k :: 0 <= k < |ds| && Selected(v, q, ds, k) && CellOf(v, q, ds[k]) == CellOf(v, q, ds[j]) ==> k == i
    decreases j
  {
    if Selected(v, q, ds, j) {
      i := j;
    } else {
      var h: nat :| h < j && Passes(v, q, ds, h) && CellOf(v, q, ds[h]) >= CellOf(v, q, ds[j]);
      CellIsMonotone(v, q, ds[h], ds[j]);
      i := CellIsRepresented(v, q, ds, h);
    }
  }

  lemma CellIsMonotone(v: Video, q: Query, f: Frame, g: Frame)
    requires ValidVideo(v) && ValidQuery(q) && q.interval.Some? && f.pts.Some? && g.pts.Some? && v.timeBase.Some?
    requires f.pts.value <= g.pts.value
    ensures CellOf(v, q, f) <= CellOf(v, q, g)
  {
    var w := q.interval.value;
    var s, t := FrameTime(v, f).value, FrameTime(v, g).value;
    assert s <= t;
    Quotients(s + Epsilon(w) - q.start, t + Epsilon(w) - q.start, w);
  }

  lemma Quotients(a: real, b: real, w: real)
    requires a <= b && w > 0.0
    ensures (a / w).Floor <= (b / w).Floor
  {
    var x, y := a / w, b / w;
    assert x * w == a && y * w == b;
    assert x <= y;
  }

  // ---------------------------------------------------------------- the rule, written out

  /** The frame has a time, and it is `t`. */
  predicate At(v: Video, f: Frame, t: real) {
    f.pts.Some? && v.timeBase.Some? && t == f.pts.value as real * v.timeBase.value
  }

  /** The frame is in the range and past its end. */
  ghost predicate PastEnd(v: Video, q: Query, f: Frame) {
    exists t :: At(v, f, t) && q.start <= t && q.end.Some? && q.end.value < t
  }

  /** Frame `k` is decoded before any frame past the end, is not before the start, and is of the wanted kind. */
  ghost predicate Wanted(v: Video, q: Query, ds: seq<Frame>, k: nat)
    requires k < |ds|
  {
    && (forall j :: 0 <= j <= k ==> !PastEnd(v, q, ds[j]))
    && (forall t :: At(v, ds[k], t) ==> q.start <= t)
    && (q.keyFrame == Some(false) ==> !ds[k].key)
    && (q.interval.Some? ==> exists t :: At(v, ds[k], t))
  }

  /** Time `t` has come to `m` intervals after the start, give or take a nanosecond or a millionth of the interval. */
  predicate HasCome(q: Query, t: real, m: nat)
    requires q.interval.Some?
  {
    var due := q.start + m as real * q.interval.value;
    t + 0.000000001 >= due || t + q.interval.value * 0.000001 >= due
  }

  /** Some multiple of the interval has come for frame `k` and for no wanted frame before it. */
  ghost predicate FirstToCome(v: Video, q: Query, ds: seq<Frame>, k: nat)
    requires k < |ds| && q.interval.Some?
  {
    exists m: nat :: DueFor(v, q, ds, k, m)
  }

  ghost predicate DueFor(v: Video, q: Query, ds: seq<Frame>, k: nat, m: nat)
    requires k < |ds| && q.interval.Some?
  {
    && (forall t :: At(v, ds[k], t) ==> HasCome(q, t, m))
    && forall j :: 0 <= j < k && Wanted(v, q, ds, j) ==> forall t :: At(v, ds[j], t) ==> !HasCome(q, t, m)
  }

  lemma WantedIff(v: Video, q: Query, ds: seq<Frame>, k: nat)
    requires k < |ds|
    ensures Passes(v, q, ds, k) <==> Wanted(v, q, ds, k)
  {
    forall j | 0 <= j < |ds| ensures Stops(v, q, ds[j]) <==> PastEnd(v, q, ds[j]) {
      TimeIff(v, ds[j]);
      if Stops(v, q, ds[j]) {
        assert At(v, ds[j], FrameTime(v, ds[j]).value);
      }
    }
    TimeIff(v, ds[k]);
  }

  lemma TimeIff(v: Video, f: Frame)
    ensures FrameTime(v, f).None? ==> forall t :: !At(v, f, t)
    ensures forall t :: FrameTime(v, f) == Some(t) <==> At(v, f, t)
  {
  }

  lemma HasComeIff(q: Query, t: real, m: nat)
    requires q.interval.Some? && q.interval.value > 0.0
    ensures HasCome(q, t, m) <==> Cell(q, t) >= m
  {
    CellVersusGrid(q, t, m);
  }

  lemma DueIff(v: Video, q: Query, ds: seq<Frame>, k: nat, m: nat)
    requires k < |ds| && ValidQuery(q) && q.interval.Some? && Passes(v, q, ds, k)
    ensures DueFor(v, q, ds, k, m) <==>
            && CellOf(v, q, ds[k]) >= m
            && forall j :: 0 <= j < k && Passes(v, q, ds, j) ==> CellOf(v, q, ds[j]) < m
  {
    forall j | 0 <= j <= k
      ensures Passes(v, q, ds, j) <==> Wanted(v, q, ds, j)
      ensures Passes(v, q, ds, j) ==>
                ((forall t :: At(v, ds[j], t) ==> HasCome(q, t, m)) <==> CellOf(v, q, ds[j]) >= m)
      ensures Passes(v, q, ds, j) ==>
                ((forall t :: At(v, ds[j], t) ==> !HasCome(q, t, m)) <==> CellOf(v, q, ds[j]) < m)
    {
      WantedIff(v, q, ds, j);
      TimeIff(v, ds[j]);
      if Passes(v, q, ds, j) {
        HasComeIff(q, FrameTime(v, ds[j]).value, m);
        assert At(v, ds[j], FrameTime(v, ds[j]).value);
      }
    }
  }

  /** A frame is selected exactly when it is wanted and, when sampling, the first to come to some multiple. */
  lemma SelectedMeans(v: Video, q: Query, ds: seq<Frame>, k: nat)
    requires k < |ds| && ValidQuery(q)
    ensures Selected(v, q, ds, k) <==>
            Wanted(v, q, ds, k) && (q.interval.Some? ==> FirstToCome(v, q, ds, k))
  {
    WantedIff(v, q, ds, k);
    if q.interval.Some? && Passes(v, q, ds, k) {
      CellVersusGrid(q, FrameTime(v, ds[k]).value, 0);
      var cell := CellOf(v, q, ds[k]);
      DueIff(v, q, ds, k, cell);
      if m: nat :| DueFor(v, q, ds, k, m) {
        DueIff(v, q, ds, k, m);
      }
    }
  }

  /** The selection is the selected frames in order, each with its time and number. */
  lemma {:induction false} SelectionIs(v: Video, q: Query, ds: seq<Frame>, n: nat) returns (ks: seq<nat>)
    requires ValidQuery(q) && n <= |ds|
    ensures |ks| == |Selection(v, q, ds, n)| && forall i, j :: 0 <= i < j < |ks| ==> ks[i] < ks[j]
    ensures forall k: nat :: k in ks <==> k < n && Selected(v, q, ds, k)
    ensures forall i :: 0 <= i < |ks| ==>
              ks[i] < n
              && Selection(v, q, ds, n)[i]
                 == Emitted(FrameNumber(v, ds[ks[i]], ks[i]), FrameTime(v, ds[ks[i]]), ds[ks[i]])
  {
    if n == 0 {
      ks := [];
    } else {
      ks := SelectionIs(v, q, ds, n - 1);
      if Selected(v, q, ds, n - 1) {
        ks := ks + [n - 1];
      }
    }
  }

  lemma WantedInRange(v: Video, q: Query, ds: seq<Frame>, k: nat, t: real)
    requires k < |ds| && Wanted(v, q, ds, k) && At(v, ds[k], t)
    ensures q.start <= t && (q.end.Some? ==> t <= q.end.value)
  {
    assert !PastEnd(v, q, ds[k]);
  }

  /** A frame without a time, or one in the range; in either case of the wanted kind. */
  predicate InRange(v: Video, q: Query, f: Frame) {
    && (q.keyFrame == Some(false) ==> !f.key)
    && (f.pts.Some? && v.timeBase.Some? ==>
          && q.start <= f.pts.value as real * v.timeBase.value
          && (q.end.Some? ==> f.pts.value as real * v.timeBase.value <= q.end.value))
  }

  lemma SelectedInRange(v: Video, q: Query, ds: seq<Frame>, k: nat)
    requires ValidQuery(q) && k < |ds| && Selected(v, q, ds, k)
    ensures InRange(v, q, ds[k])
  {
    SelectedMeans(v, q, ds, k);
    if ds[k].pts.Some? && v.timeBase.Some? {
      WantedInRange(v, q, ds, k, ds[k].pts.value as real * v.timeBase.value);
    }
  }

  /** Every emitted frame is decoded, lies in the range if it has a time, and shows that time. */
  lemma EmittedInRange(v: Video, q: Query, ds: seq<Frame>, n: nat, i: nat, out: Emitted)
    requires ValidQuery(q) && n <= |ds| && i < |Selection(v, q, ds, n)| && out == Selection(v, q, ds, n)[i]
    ensures out.frame in ds && InRange(v, q, out.frame)
    ensures out.time.None? <==> out.frame.pts.None? || v.timeBase.None?
    ensures out.time.Some? ==> At(v, out.frame, out.time.value)
  {
    var ks := SelectionIs(v, q, ds, n);
    assert ks[i] in ks;
    SelectedInRange(v, q, ds, ks[i]);
  }

  /** Without sampling, every decoded frame in the range before the first one past its end is emitted. */
  lemma RangeIsEmitted(v: Video, q: Query, ds: seq<Frame>, k: nat, t: real)
    requires ValidQuery(q) && q.interval.None? && k < |ds| && At(v, ds[k], t)
    requires q.start <= t && (q.end.Some? ==> t <= q.end.value) && (q.keyFrame == Some(false) ==> !ds[k].key)
    requires forall j :: 0 <= j < k ==> !PastEnd(v, q, ds[j])
    ensures Emitted(FrameNumber(v, ds[k], k), Some(t), ds[k]) in Selection(v, q, ds, |ds|)
  {
    SelectedMeans(v, q, ds, k);
    TimeIff(v, ds[k]);
    SelectedIsEmitted(v, q, ds, |ds|, k);
  }

  lemma SelectedIsEmitted(v: Video, q: Query, ds: seq<Frame>, n: nat, k: nat)
    requires ValidQuery(q) && k < n <= |ds| && Selected(v, q, ds, k)
    ensures Emitted(FrameNumber(v, ds[k], k), FrameTime(v, ds[k]), ds[k]) in Selection(v, q, ds, n)
  {
    var ks := SelectionIs(v, q, ds, n);
    assert k in ks;
  }

  // ---------------------------------------------------------------- the running target

  /** The `m`-th grid point. */
  function GridPoint(q: Query, m: nat): real
    requires q.interval.Some?
  {
    q.start + m as real * q.interval.value
  }

  lemma CellVersusGrid(q: Query, t: real, m: nat)
    requires q.interval.Some? && q.interval.value > 0.0
    ensures t + Epsilon(q.interval.value) >= GridPoint(q, m) <==> Cell(q, t) >= m
  {
    var d, w := t + Epsilon(q.interval.value) - q.start, q.interval.value;
    Divide(d, w, m);
  }

  lemma Divide(d: real, w: real, m: int)
    requires w > 0.0
    ensures d >= m as real * w <==> (d / w).Floor >= m
  {
    var x := d / w;
    assert x * w == d;
    if x >= m as real {
      assert x * w >= m as real * w;
    } else {
      assert x * w < m as real * w;
    }
  }

  lemma NextGridPoint(q: Query, m: nat)
    requires q.interval.Some?
    ensures GridPoint(q, m + 1) == GridPoint(q, m) + q.interval.value
  {
    assert (m + 1) as real == m as real + 1.0;
  }

  /** The running target is grid point `m`, one past the largest cell reached by the first `n` frames. */
  ghost predicate Target(v: Video, q: Query, ds: seq<Frame>, n: nat, m: nat)
    requires n <= |ds| && ValidQuery(q) && q.interval.Some?
  {
    && (forall j :: 0 <= j < n && Passes(v, q, ds, j) ==> CellOf(v, q, ds[j]) < m)
    && (m > 0 ==> exists j :: 0 <= j < n && Passes(v, q, ds, j) && CellOf(v, q, ds[j]) == m - 1)
  }

  lemma SelectedIffReached(v: Video, q: Query, ds: seq<Frame>, i: nat, m: nat)
    requires i < |ds| && ValidQuery(q) && q.interval.Some? && Target(v, q, ds, i, m) && Passes(v, q, ds, i)
    ensures Selected(v, q, ds, i) <==> CellOf(v, q, ds[i]) >= m
  {
    CellVersusGrid(q, FrameTime(v, ds[i]).value, 0);
  }

  /** Moves the target past every grid point the frame covers. */
  method CatchUp(q: Query, t: real, next: real, ghost m: nat) returns (next': real, ghost m': nat)
    requires q.interval.Some? && q.interval.value > 0.0 && next == GridPoint(q, m) && Cell(q, t) >= m
    ensures next' == GridPoint(q, Cell(q, t) + 1) && m' == Cell(q, t) + 1
  {
    next', m' := next, m;
    CellVersusGrid(q, t, m');
    while t + Epsilon(q.interval.value) >= next'
      invariant next' == GridPoint(q, m') && m' <= Cell(q, t) + 1
      invariant t + Epsilon(q.interval.value) >= next' <==> Cell(q, t) >= m'
      decreases Cell(q, t) + 1 - m'
    {
      NextGridPoint(q, m');
      next', m' := next' + q.interval.value, m' + 1;
      CellVersusGrid(q, t, m');
    }
  }

  lemma {:induction false} NothingAfterStop(v: Video, q: Query, ds: seq<Frame>, i: nat, n: nat)
    requires i < n <= |ds| && ValidQuery(q) && Stops(v, q, ds[i])
    ensures Selection(v, q, ds, n) == Selection(v, q, ds, i)
  {
    assert !Passes(v, q, ds, n - 1);
    if i < n - 1 {
      NothingAfterStop(v, q, ds, i, n - 1);
    }
  }

  lemma TargetAdvances(v: Video, q: Query, ds: seq<Frame>, i: nat, m: nat, m': nat)
    requires i < |ds| && ValidQuery(q) && q.interval.Some? && Target(v, q, ds, i, m)
    requires !Passes(v, q, ds, i) ==> m' == m
    requires Passes(v, q, ds, i) ==> m' == if CellOf(v, q, ds[i]) >= m then CellOf(v, q, ds[i]) + 1 else m
    ensures Target(v, q, ds, i + 1, m')
  {
    if m' > 0 && m' == m {
      var j :| 0 <= j < i && Passes(v, q, ds, j) && CellOf(v, q, ds[j]) == m - 1;
      assert 0 <= j < i + 1 && Passes(v, q, ds, j) && CellOf(v, q, ds[j]) == m' - 1;
    }
  }

  /** One frame that does not end the iteration: is it emitted, and what is the target afterwards? */
  method Consider(v: Video, q: Query, ds: seq<Frame>, i: nat, next: real, ghost m: nat)
    returns (emit: bool, next': real, ghost m': nat)
    requires i < |ds| && ValidQuery(q) && forall j :: 0 <= j <= i ==> !Stops(v, q, ds[j])
    requires q.interval.Some? ==> next == GridPoint(q, m) && Target(v, q, ds, i, m)
    ensures emit <==> Selected(v, q, ds, i)
    ensures q.interval.Some? ==> next' == GridPoint(q, m') && Target(v, q, ds, i + 1, m')
  {
    var f := ds[i];
    var t := FrameTime(v, f);
    emit, next', m' := false, next, m;
    if (t.Some? && t.value < q.start) || (q.keyFrame == Some(false) && f.key) || (q.interval.Some? && t.None?) {
      assert !Passes(v, q, ds, i);
      if q.interval.Some? {
        TargetAdvances(v, q, ds, i, m, m);
      }
      return;
    }
    assert Passes(v, q, ds, i);
    if q.interval.None? {
      return true, next, m;
    }
    SelectedIffReached(v, q, ds, i, m);
    CellVersusGrid(q, t.value, m);
    if t.value + Epsilon(q.interval.value) < next {
      TargetAdvances(v, q, ds, i, m, m);
      return;
    }
    next', m' := CatchUp(q, t.value, next, m);
    TargetAdvances(v, q, ds, i, m, m');
    emit := true;
  }

  /** The iterator's loop over the decoded frames. */
  method Iterate(v: Video, q: Query, ds: seq<Frame>) returns (out: seq<Emitted>)
    requires ValidQuery(q)
    ensures out == Selection(v, q, ds, |ds|)
  {
    out := [];
    var next := q.start;
    ghost var m: nat := 0;
    for i := 0 to |ds|
      invariant out == Selection(v, q, ds, i)
      invariant forall j :: 0 <= j < i ==> !Stops(v, q, ds[j])
      invariant q.interval.Some? ==> next == GridPoint(q, m) && Target(v, q, ds, i, m)
    {
      if Stops(v, q, ds[i]) {
        NothingAfterStop(v, q, ds, i, |ds|);
        return;
      }
      var emit;
      emit, next, m := Consider(v, q, ds, i, next, m);
      if emit {
        out := out + [Emitted(FrameNumber(v, ds[i], i), FrameTime(v, ds[i]), ds[i])];
      }
    }
  }

  // ---------------------------------------------------------------- seeking

  function KeysOnly(frames: seq<Frame>): seq<Frame> {
    if frames == [] then []
    else KeysOnly(frames[..|frames| - 1]) + if frames[|frames| - 1].key then [frames[|frames| - 1]] else []
  }

  /** Frames handed out by the decoder, which skips all but keyframes when only those are wanted. */
  function Decoded(q: Query, frames: seq<Frame>): seq<Frame> {
    if q.keyFrame == Some(true) then KeysOnly(frames) else frames
  }

  function StartFrame(v: Video, q: Query): (k: nat)
    requires ValidVideo(v)
    ensures k <= |v.frames|
  {
    if q.start > 0.0 && v.timeBase.Some? then Seek(v.frames, Truncate(q.start / v.timeBase.value) as real) else 0
  }

  /** Decoding starts at the last keyframe not past the start of the range, or else at the first frame. */
  lemma StartFrameIsLast(v: Video, q: Query, k: nat)
    requires ValidVideo(v) && k < |v.frames| && v.frames[k].key
    ensures q.start > 0.0 ==> forall t :: At(v, v.frames[k], t) && t <= q.start ==> k <= StartFrame(v, q)
    ensures k > 0 && k == StartFrame(v, q) ==> q.start > 0.0 && exists t :: At(v, v.frames[k], t) && t <= q.start
  {
    if q.start > 0.0 && v.timeBase.Some? && v.frames[k].pts.Some? {
      var tb, p := v.timeBase.value, v.frames[k].pts.value as real;
      TicksOfStart(p, q.start, tb);
      SeekLandsOnLast(v.frames, q.start / tb, k);
      assert At(v, v.frames[k], p * tb);
    }
  }

  lemma TicksOfStart(p: real, start: real, tb: real)
    requires start > 0.0 && tb > 0.0
    ensures start / tb >= 0.0 && (p <= start / tb <==> p * tb <= start)
  {
    var ticks := start / tb;
    assert ticks * tb == start;
    if p <= ticks {
      Scale(p, ticks, tb);
    } else {
      assert (p - ticks) * tb > 0.0;
    }
  }

  /** A start frame other than the first is a keyframe. */
  lemma StartFrameIsKey(v: Video, q: Query)
    requires ValidVideo(v) && StartFrame(v, q) > 0
    ensures StartFrame(v, q) < |v.frames| && v.frames[StartFrame(v, q)].key
  {
  }

  /** Only keyframes are kept, all of them, in order. */
  lemma KeysOnlyMeans(a: seq<Frame>, f: Frame, b: seq<Frame>)
    ensures KeysOnly([]) == []
    ensures KeysOnly(a + [f] + b) == KeysOnly(a) + (if f.key then [f] else []) + KeysOnly(b)
  {
    KeysConcat(a + [f], b);
    KeysConcat(a, [f]);
    assert [f][..0] == [];
    assert KeysOnly([f]) == KeysOnly([f][..0]) + if f.key then [f] else [];
  }

  lemma {:induction false} KeysOnlyIff(fs: seq<Frame>, f: Frame)
    ensures f in KeysOnly(fs) <==> f in fs && f.key
  {
    if fs == [] {
    } else {
      KeysOnlyIff(fs[..|fs| - 1], f);
      assert fs == fs[..|fs| - 1] + [fs[|fs| - 1]];
    }
  }

  /** The decoder hands out keyframes if only those are wanted, and else every frame. */
  lemma DecodedMeans(q: Query, fs: seq<Frame>, f: Frame)
    ensures f in Decoded(q, fs) <==> f in fs && (q.keyFrame == Some(true) ==> f.key)
    ensures q.keyFrame != Some(true) ==> Decoded(q, fs) == fs
  {
    KeysOnlyIff(fs, f);
  }

  /**
   What every emitted frame satisfies: it is a frame of the video, of the wanted kind, in the range, with its time.
   */
  ghost predicate Fits(v: Video, q: Query, out: Emitted) {
    && out.frame in v.frames && InRange(v, q, out.frame) && (q.keyFrame == Some(true) ==> out.frame.key)
    && (out.time.None? <==> out.frame.pts.None? || v.timeBase.None?)
    && (out.time.Some? ==> At(v, out.frame, out.time.value))
  }

  lemma EmittedFits(v: Video, q: Query, fs: seq<Frame>, ds: seq<Frame>, i: nat, out: Emitted)
    requires ValidQuery(q) && ds == Decoded(q, fs) && forall f :: f in fs ==> f in v.frames
    requires i < |Selection(v, q, ds, |ds|)| && out == Selection(v, q, ds, |ds|)[i]
    ensures Fits(v, q, out)
  {
    EmittedInRange(v, q, ds, |ds|, i, out);
    DecodedMeans(q, fs, out.frame);
  }

  /** Frames of the time range, as the iterator yields them. */
  method Frames(v: Video, q: Query, width: Option<nat>, height: Option<nat>) returns (r: Result<seq<Emitted>, Error>)
    requires ValidVideo(v)
    ensures r == Err(PartialSize) <==> width.Some? != height.Some?
    ensures r == Err(BadInterval) <==>
            width.Some? == height.Some? && q.interval.Some? && q.interval.value <= 0.0
    ensures r.Ok? ==> forall i :: 0 <= i < |r.value| ==> Fits(v, q, r.value[i])
    ensures r.Ok? ==> var ds := Decoded(q, v.frames[StartFrame(v, q)..]); r.value == Selection(v, q, ds, |ds|)
  {
    if width.None? != height.None? {
      return Err(PartialSize);
    }
    if q.interval.Some? && q.interval.value <= 0.0 {
      return Err(BadInterval);
    }
    var decoded := Decoded(q, v.frames[StartFrame(v, q)..]);
    var out := Iterate(v, q, decoded);
    forall i | 0 <= i < |out| ensures Fits(v, q, out[i]) {
      EmittedFits(v, q, v.frames[StartFrame(v, q)..], decoded, i, out[i]);
    }
    return Ok(out);
  }

  /** A frame the filters always reject, or one without a time: no reason to end the iteration. */
  ghost predicate Skippable(v: Video, q: Query, f: Frame) {
    Early(v, q, f) || FrameTime(v, f).None?
  }

  /** A skippable frame that would nevertheless be emitted: only possible for a frame without a time. */
  predicate Shown(v: Video, q: Query, f: Frame) {
    FrameTime(v, f).None? && q.interval.None? && !(q.keyFrame == Some(false) && f.key)
  }

  /** The number of the frame is computed from its timestamp. */
  predicate Numbered(v: Video, f: Frame) {
    f.pts.Some? && v.timeBase.Some? && v.fps.Some?
  }

  /** Frames that are not numbered by their timestamps count from `k` later. */
  function Renumbered(v: Video, out: seq<Emitted>, k: nat): (r: seq<Emitted>)
    ensures |r| == |out|
  {
    seq(|out|, i requires 0 <= i < |out| =>
      if Numbered(v, out[i].frame) then out[i] else out[i].(number := out[i].number + k))
  }

  ghost predicate AllSkippable(v: Video, q: Query, fs: seq<Frame>) {
    forall i :: 0 <= i < |fs| ==> Skippable(v, q, fs[i])
  }

  ghost predicate SomeShown(v: Video, q: Query, fs: seq<Frame>) {
    exists i :: 0 <= i < |fs| && Shown(v, q, fs[i])
  }

  lemma BeforeStartIsEarly(v: Video, q: Query, f: Frame, landing: int)
    requires ValidVideo(v) && v.timeBase.Some? && q.start > 0.0
    requires f.pts.Some? && f.pts.value < landing <= Truncate(q.start / v.timeBase.value)
    ensures Early(v, q, f)
  {
    var tb := v.timeBase.value;
    var limit := q.start / tb;
    assert limit * tb == q.start;
    assert f.pts.value as real + 1.0 <= limit;
    Scale(f.pts.value as real + 1.0, limit, tb);
  }

  lemma SkippedAreSkippable(v: Video, q: Query)
    requires ValidVideo(v) && Increasing(v.frames)
    ensures AllSkippable(v, q, v.frames[..StartFrame(v, q)])
  {
    var k := StartFrame(v, q);
    forall i | 0 <= i < k && v.frames[i].pts.Some? ensures Early(v, q, v.frames[i]) {
      BeforeStartIsEarly(v, q, v.frames[i], v.frames[k].pts.value);
    }
  }

  lemma {:induction false} KeysConcat(a: seq<Frame>, b: seq<Frame>)
    ensures KeysOnly(a + b) == KeysOnly(a) + KeysOnly(b)
    decreases |b|
  {
    if b == [] {
      assert a + b == a;
    } else {
      var k := |b| - 1;
      KeysConcat(a, b[..k]);
      assert (a + b)[..|a + b| - 1] == a + b[..k];
      assert (a + b)[|a + b| - 1] == b[k];
    }
  }

  lemma {:induction false} KeysAreSkippable(v: Video, q: Query, fs: seq<Frame>)
    requires AllSkippable(v, q, fs)
    ensures AllSkippable(v, q, KeysOnly(fs))
  {
    if fs == [] {
    } else {
      KeysAreSkippable(v, q, fs[..|fs| - 1]);
    }
  }

  lemma PassesShift(v: Video, q: Query, pre: seq<Frame>, ds: seq<Frame>, i: nat)
    requires AllSkippable(v, q, pre) && i < |ds|
    ensures Passes(v, q, pre + ds, |pre| + i) <==> Passes(v, q, ds, i)
  {
    var all := pre + ds;
    assert forall j :: 0 <= j < |ds| ==> all[|pre| + j] == ds[j];
    if Passes(v, q, ds, i) {
      forall j | 0 <= j <= |pre| + i ensures !Stops(v, q, all[j]) {
        if j >= |pre| {
          assert all[j] == ds[j - |pre|];
        }
      }
    }
  }

  lemma PrefixPasses(v: Video, q: Query, pre: seq<Frame>, ds: seq<Frame>, i: nat)
    requires AllSkippable(v, q, pre) && i < |pre|
    ensures Passes(v, q, pre + ds, i) <==> Shown(v, q, pre[i])
  {
    assert forall j :: 0 <= j < |pre| ==> (pre + ds)[j] == pre[j];
    assert forall j :: 0 <= j <= i ==> !Stops(v, q, pre[j]);
  }

  lemma SelectedShift(v: Video, q: Query, pre: seq<Frame>, ds: seq<Frame>, i: nat)
    requires ValidQuery(q) && AllSkippable(v, q, pre) && i < |ds|
    ensures Selected(v, q, pre + ds, |pre| + i) <==> Selected(v, q, ds, i)
  {
    var all := pre + ds;
    PassesShift(v, q, pre, ds, i);
    if q.interval.Some? && Passes(v, q, ds, i) {
      forall j | 0 <= j < |pre| ensures !Passes(v, q, all, j) {
        PrefixPasses(v, q, pre, ds, j);
      }
      forall j | 0 <= j < i ensures Passes(v, q, all, |pre| + j) <==> Passes(v, q, ds, j) {
        PassesShift(v, q, pre, ds, j);
      }
      CellsShift(v, q, pre, ds, i);
    }
  }

  lemma CellsShift(v: Video, q: Query, pre: seq<Frame>, ds: seq<Frame>, i: nat)
    requires ValidQuery(q) && q.interval.Some? && i < |ds| && Passes(v, q, ds, i) && Passes(v, q, pre + ds, |pre| + i)
    requires forall j :: 0 <= j < |pre| ==> !Passes(v, q, pre + ds, j)
    requires forall j :: 0 <= j < i ==> (Passes(v, q, pre + ds, |pre| + j) <==> Passes(v, q, ds, j))
    ensures Selected(v, q, pre + ds, |pre| + i) <==> Selected(v, q, ds, i)
  {
    var all := pre + ds;
    if Selected(v, q, ds, i) {
      forall j | 0 <= j < |pre| + i && Passes(v, q, all, j)
        ensures CellOf(v, q, all[j]) < CellOf(v, q, all[|pre| + i])
      {
        assert Passes(v, q, ds, j - |pre|);
      }
    }
    if Selected(v, q, all, |pre| + i) {
      forall j | 0 <= j < i && Passes(v, q, ds, j) ensures CellOf(v, q, ds[j]) < CellOf(v, q, ds[i]) {
        assert Passes(v, q, all, |pre| + j);
      }
    }
  }

  /** Skippable frames in front only add what is shown of them and shift the counted frame numbers. */
  lemma {:induction false} SelectionShift(v: Video, q: Query, pre: seq<Frame>, ds: seq<Frame>, n: nat)
    requires ValidQuery(q) && AllSkippable(v, q, pre) && n <= |ds|
    ensures Selection(v, q, pre + ds, |pre| + n)
         == Selection(v, q, pre + ds, |pre|) + Renumbered(v, Selection(v, q, ds, n), |pre|)
  {
    if n == 0 {
    } else {
      SelectionShift(v, q, pre, ds, n - 1);
      SelectedShift(v, q, pre, ds, n - 1);
      assert (pre + ds)[|pre| + n - 1] == ds[n - 1];
    }
  }

  lemma {:induction false} PrefixIsSilent(v: Video, q: Query, pre: seq<Frame>, ds: seq<Frame>, n: nat)
    requires ValidQuery(q) && AllSkippable(v, q, pre) && n <= |pre|
    ensures Selection(v, q, pre + ds, n) == [] <==> !SomeShown(v, q, pre[..n])
  {
    if n == 0 {
    } else {
      PrefixIsSilent(v, q, pre, ds, n - 1);
      PrefixPasses(v, q, pre, ds, n - 1);
      assert pre[..n] == pre[..n - 1] + [pre[n - 1]];
      if SomeShown(v, q, pre[..n - 1]) {
        var i :| 0 <= i < n - 1 && Shown(v, q, pre[..n - 1][i]);
        assert Shown(v, q, pre[..n][i]);
      } else if Shown(v, q, pre[n - 1]) {
        assert Shown(v, q, pre[..n][n - 1]);
        assert q.interval.None?;
      }
    }
  }

  ghost predicate AllNumbered(v: Video, out: seq<Emitted>) {
    forall i :: 0 <= i < |out| ==> Numbered(v, out[i].frame)
  }

  lemma RenumberedIsSame(v: Video, out: seq<Emitted>, k: nat)
    ensures Renumbered(v, out, k) == out <==> k == 0 || AllNumbered(v, out)
  {
    if k > 0 && !AllNumbered(v, out) {
      var i :| 0 <= i < |out| && !Numbered(v, out[i].frame);
      assert Renumbered(v, out, k)[i] != out[i];
    }
  }

  lemma PrefixInvisible(v: Video, q: Query, pre: seq<Frame>, ds: seq<Frame>)
    requires ValidQuery(q) && AllSkippable(v, q, pre)
    ensures Selection(v, q, pre + ds, |pre + ds|) == Selection(v, q, ds, |ds|)
       <==> !SomeShown(v, q, pre) && (pre == [] || AllNumbered(v, Selection(v, q, ds, |ds|)))
  {
    SelectionShift(v, q, pre, ds, |ds|);
    PrefixIsSilent(v, q, pre, ds, |pre|);
    assert pre[..|pre|] == pre;
    RenumberedIsSame(v, Selection(v, q, ds, |ds|), |pre|);
  }

  lemma DecodedAreSkippable(v: Video, q: Query, fs: seq<Frame>)
    requires AllSkippable(v, q, fs)
    ensures AllSkippable(v, q, Decoded(q, fs))
  {
    KeysAreSkippable(v, q, fs);
  }

  lemma DecodedSplits(q: Query, early: seq<Frame>, late: seq<Frame>)
    ensures Decoded(q, early + late) == Decoded(q, early) + Decoded(q, late)
  {
    KeysConcat(early, late);
  }

  lemma SeekInvisibleAt(v: Video, q: Query, k: nat, skipped: seq<Frame>, ds: seq<Frame>, all: seq<Frame>)
    requires ValidQuery(q) && k <= |v.frames| && AllSkippable(v, q, v.frames[..k])
    requires skipped == Decoded(q, v.frames[..k]) && ds == Decoded(q, v.frames[k..]) && all == Decoded(q, v.frames)
    ensures Selection(v, q, ds, |ds|) == Selection(v, q, all, |all|)
       <==> !SomeShown(v, q, skipped) && (skipped == [] || AllNumbered(v, Selection(v, q, ds, |ds|)))
  {
    DecodedAreSkippable(v, q, v.frames[..k]);
    assert all == skipped + ds by {
      DecodedSplits(q, v.frames[..k], v.frames[k..]);
      assert v.frames == v.frames[..k] + v.frames[k..];
    }
    PrefixInvisible(v, q, skipped, ds);
  }

  /**
   Seeking to the start yields what iterating over the whole video from its first frame yields, exactly
   when no skipped frame lacks a time and would be emitted, and no emitted frame's number is counted
   from where decoding began.
   */
  lemma SeekIsInvisible(v: Video, q: Query, skipped: seq<Frame>, ds: seq<Frame>, all: seq<Frame>)
    requires ValidVideo(v) && ValidQuery(q) && Increasing(v.frames)
    requires skipped == Decoded(q, v.frames[..StartFrame(v, q)]) && ds == Decoded(q, v.frames[StartFrame(v, q)..])
    requires all == Decoded(q, v.frames)
    ensures Selection(v, q, ds, |ds|) == Selection(v, q, all, |all|)
       <==> !SomeShown(v, q, skipped) && (skipped == [] || AllNumbered(v, Selection(v, q, ds, |ds|)))
  {
    SkippedAreSkippable(v, q);
    SeekInvisibleAt(v, q, StartFrame(v, q), skipped, ds, all);
  }

  /** A caller's view: with a frame rate and a timestamp on every frame, seeking never shows. */
  lemma TimedVideosSeekInvisibly(v: Video, q: Query, ds: seq<Frame>, all: seq<Frame>)
    requires ValidVideo(v) && ValidQuery(q) && Increasing(v.frames) && v.fps.Some? && v.timeBase.Some?
    requires forall i :: 0 <= i < |v.frames| ==> v.frames[i].pts.Some?
    requires ds == Decoded(q, v.frames[StartFrame(v, q)..]) && all == Decoded(q, v.frames)
    ensures Selection(v, q, ds, |ds|) == Selection(v, q, all, |all|)
  {
    var k := StartFrame(v, q);
    var skipped := Decoded(q, v.frames[..k]);
    KeysAreTimed(v.frames[..k]);
    KeysAreTimed(v.frames[k..]);
    SeekIsInvisible(v, q, skipped, ds, all);
    EmittedAreDecoded(v, q, ds, |ds|);
  }

  lemma {:induction false} KeysAreTimed(fs: seq<Frame>)
    requires forall i :: 0 <= i < |fs| ==> fs[i].pts.Some?
    ensures forall i :: 0 <= i < |KeysOnly(fs)| ==> KeysOnly(fs)[i].pts.Some?
  {
    if fs == [] {
    } else {
      KeysAreTimed(fs[..|fs| - 1]);
    }
  }

  lemma {:induction false} EmittedAreDecoded(v: Video, q: Query, ds: seq<Frame>, n: nat)
    requires ValidQuery(q) && n <= |ds|
    ensures forall i :: 0 <= i < |Selection(v, q, ds, n)| ==> Selection(v, q, ds, n)[i].frame in ds
  {
    if n == 0 {
    } else {
      EmittedAreDecoded(v, q, ds, n - 1);
    }
  }
}
