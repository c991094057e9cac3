/** Looking a frame up by number: seek to a keyframe, scan forward, stop at the first larger number. */
module FrameLookup {
  import opened Options
  import opened VideoStream

  /** Frame numbers come from timestamps, for every frame. */
  predicate NumberedThroughout(v: Video) {
    v.timeBase.Some? && v.fps.Some? && forall i :: 0 <= i < |v.frames| ==> v.frames[i].pts.Some?
  }

  ghost predicate NonDecreasing(v: Video) {
    forall i, j :: 0 <= i < j < |v.frames| && v.frames[i].pts.Some? && v.frames[j].pts.Some? ==>
      v.frames[i].pts.value <= v.frames[j].pts.value
  }

  function Number(v: Video, i: nat): int
    requires i < |v.frames| && NumberedThroughout(v)
  {
    FrameNumber(v, v.frames[i], i)
  }

  /** Some frame of the whole video has number `idx`. */
  ghost predicate HasNumber(v: Video, idx: int)
    requires NumberedThroughout(v)
  {
    exists i :: 0 <= i < |v.frames| && Number(v, i) == idx
  }

  function SeekTicks(v: Video, idx: int): int
    requires ValidVideo(v) && v.timeBase.Some? && v.fps.Some?
  {
    Truncate(idx as real / v.fps.value / v.timeBase.value)
  }

  /** Where the scan begins. */
  function ScanFrom(v: Video, idx: int): (k: nat)
    requires ValidVideo(v)
    ensures k <= |v.frames|
  {
    if idx > 0 && v.timeBase.Some? && v.fps.Some? then Seek(v.frames, SeekTicks(v, idx) as real) else 0
  }

  /** The sought keyframe is not already past `idx`. */
  predicate LandsInTime(v: Video, idx: int)
    requires ValidVideo(v) && NumberedThroughout(v)
  {
    var k := ScanFrom(v, idx);
    k < |v.frames| ==> Number(v, k) <= idx
  }

  lemma NumbersGrow(v: Video, i: nat, j: nat)
    requires ValidVideo(v) && NumberedThroughout(v) && NonDecreasing(v) && i <= j < |v.frames|
    ensures Number(v, i) <= Number(v, j)
  {
    assert v.frames[i].pts.Some? && v.frames[j].pts.Some? && v.frames[i].pts.value <= v.frames[j].pts.value;
    NumberAtIsMonotone(v.frames[i].pts.value, v.frames[j].pts.value, v.startPts, v.timeBase.value, v.fps.value);
  }

  lemma TicksBack(idx: real, tb: real, fps: real, p: real)
    requires tb > 0.0 && fps > 0.0 && p <= idx / fps / tb
    ensures FramesIn(p, tb, fps) <= idx
  {
    var seconds := idx / fps;
    var ticks := seconds / tb;
    Scale(p, ticks, tb);
    assert ticks * tb == seconds;
    Scale(p * tb, seconds, fps);
    assert seconds * fps == idx;
  }

  lemma NumberNotPast(p: int, start: int, tb: real, fps: real, idx: int)
    requires tb > 0.0 && fps > 0.0 && start >= 0 && p as real <= idx as real / fps / tb
    ensures NumberAt(p, start, tb, fps) <= idx
  {
    TicksBack(idx as real, tb, fps, p as real);
    NumberAtIsMonotone(p, p + start, start, tb, fps);
    RoundIsMonotone(FramesIn(p as real, tb, fps), idx as real);
    RoundFixesIntegers(idx);
  }

  /** When the stream does not start before tick 0, the seek never overshoots. */
  lemma NonNegativeStartLandsInTime(v: Video, idx: int)
    requires ValidVideo(v) && NumberedThroughout(v) && v.startPts >= 0 && ScanFrom(v, idx) > 0
    ensures LandsInTime(v, idx)
  {
    var k, tb, fps := ScanFrom(v, idx), v.timeBase.value, v.fps.value;
    assert SeekTicks(v, idx) as real <= idx as real / fps / tb;
    NumberNotPast(v.frames[k].pts.value, v.startPts, tb, fps, idx);
  }

  /** If a frame numbered `idx` lies before the sought keyframe, the keyframe itself has that number. */
  lemma KeyframeStandsIn(v: Video, idx: int, i: nat)
    requires ValidVideo(v) && NumberedThroughout(v) && NonDecreasing(v) && LandsInTime(v, idx)
    requires i < ScanFrom(v, idx) < |v.frames| && Number(v, i) == idx
    ensures Number(v, ScanFrom(v, idx)) == idx
  {
    NumbersGrow(v, i, ScanFrom(v, idx));
  }

  /** The number the scan gives frame `i`; frames without a computed number count from where the scan began. */
  function ScanNumber(v: Video, idx: int, i: nat): int
    requires ValidVideo(v) && ScanFrom(v, idx) <= i < |v.frames|
  {
    FrameNumber(v, v.frames[i], i - ScanFrom(v, idx))
  }

  /** Frame `i` is the first of the scan whose number is not below `idx`, and it is `idx`. */
  ghost predicate Hit(v: Video, idx: int, i: nat)
    requires ValidVideo(v)
  {
    && ScanFrom(v, idx) <= i < |v.frames| && ScanNumber(v, idx, i) == idx
    && forall j :: ScanFrom(v, idx) <= j < i ==> ScanNumber(v, idx, j) < idx
  }

  /** Where frame `j` lies relative to number `idx`, in seconds. */
  function Lead(v: Video, j: nat, idx: int): real
    requires j < |v.frames| && ValidVideo(v) && NumberedThroughout(v)
  {
    (v.frames[j].pts.value - v.startPts) as real * v.timeBase.value - idx as real / v.fps.value
  }

  /** Half a frame interval. */
  function Half(v: Video): real
    requires ValidVideo(v) && NumberedThroughout(v)
  {
    0.5 / v.fps.value
  }

  /**
   Frame `i` is less than half a frame interval from number `idx`, and no other frame is; for an even number no
   other is exactly half an interval away either.
   */
  ghost predicate OnlyNear(v: Video, idx: int, i: nat) {
    && ValidVideo(v) && NumberedThroughout(v) && i < |v.frames|
    && -Half(v) < Lead(v, i, idx) < Half(v)
    && forall j :: 0 <= j < |v.frames| && j != i ==>
         var x := Lead(v, j, idx); if idx % 2 == 0 then x < -Half(v) || x > Half(v) else x <= -Half(v) || x >= Half(v)
  }

  /** Times in seconds and in frames. */
  lemma InFrames(seconds: real, idx: int, fps: real)
    requires fps > 0.0
    ensures var x := seconds - idx as real / fps;
            && (x < 0.5 / fps <==> seconds * fps < idx as real + 0.5)
            && (x > 0.5 / fps <==> seconds * fps > idx as real + 0.5)
            && (x < -(0.5 / fps) <==> seconds * fps < idx as real - 0.5)
            && (x > -(0.5 / fps) <==> seconds * fps > idx as real - 0.5)
  {
    var at, half := idx as real / fps, 0.5 / fps;
    assert at * fps == idx as real && half * fps == 0.5;
    Order(seconds, at + half, fps);
    Order(seconds, at - half, fps);
    assert (at + half) * fps == idx as real + 0.5 && (at - half) * fps == idx as real - 0.5;
  }

  lemma Order(a: real, b: real, w: real)
    requires w > 0.0
    ensures a < b <==> a * w < b * w
    ensures a > b <==> a * w > b * w
  {
    if a < b {
      assert (b - a) * w > 0.0;
    } else if a > b {
      assert (a - b) * w > 0.0;
    }
  }

  lemma NearestToHalf(x: real, n: int, idx: int)
    requires n as real - 0.5 <= x <= n as real + 0.5 && (x == n as real - 0.5 || x == n as real + 0.5 ==> n % 2 == 0)
    ensures idx as real - 0.5 < x < idx as real + 0.5 ==> n == idx
    ensures x < idx as real - 0.5 || x > idx as real + 0.5 ==> n != idx
    ensures idx % 2 != 0 && (x <= idx as real - 0.5 || x >= idx as real + 0.5) ==> n != idx
  {
  }

  lemma NearHasNumber(v: Video, idx: int, i: nat, j: nat)
    requires OnlyNear(v, idx, i) && j < |v.frames|
    ensures Number(v, j) == idx <==> j == i
  {
    var tb, fps, p := v.timeBase.value, v.fps.value, v.frames[j].pts.value;
    var seconds, n := (p - v.startPts) as real * tb, NumberAt(p, v.startPts, tb, fps);
    InFrames(seconds, idx, fps);
    NumberIsNearest(p, v.startPts, tb, fps);
    assert Number(v, j) == n && Lead(v, j, idx) == seconds - idx as real / fps;
    NearestToHalf(seconds * fps, n, idx);
  }

  /** With ordered timestamps and a start at or after tick zero, the only frame near a number is the one found. */
  lemma NearIsHit(v: Video, idx: int, i: nat)
    requires OnlyNear(v, idx, i) && NonDecreasing(v) && v.startPts >= 0
    ensures HasNumber(v, idx) && LandsInTime(v, idx)
    ensures forall k: nat :: Hit(v, idx, k) ==> k == i
  {
    NearHasNumber(v, idx, i, i);
    LookupIsComplete(v, idx);
    forall k: nat | Hit(v, idx, k) ensures k == i {
      NearHasNumber(v, idx, i, k);
    }
  }

  /** Where the scan begins, in terms of timestamps: the last keyframe not past the number, else the first frame. */
  lemma ScanFromIsLast(v: Video, idx: int, k: nat)
    requires ValidVideo(v) && v.timeBase.Some? && v.fps.Some? && idx > 0
    requires k < |v.frames| && v.frames[k].key && v.frames[k].pts.Some?
    ensures v.frames[k].pts.value as real * v.timeBase.value * v.fps.value <= idx as real ==> k <= ScanFrom(v, idx)
    ensures k > 0 && k == ScanFrom(v, idx) ==>
              v.frames[k].pts.value as real * v.timeBase.value * v.fps.value <= idx as real
  {
    var tb, fps, p := v.timeBase.value, v.fps.value, v.frames[k].pts.value as real;
    var seconds := idx as real / fps;
    var ticks := seconds / tb;
    assert seconds > 0.0 && ticks >= 0.0 by {
      assert seconds * fps == idx as real && ticks * tb == seconds;
      Order(0.0, seconds, fps);
      Order(0.0, ticks, tb);
    }
    SeekLandsOnLast(v.frames, ticks, k);
    InTicks(p, idx as real, tb, fps);
  }

  lemma InTicks(p: real, idx: real, tb: real, fps: real)
    requires tb > 0.0 && fps > 0.0
    ensures p <= idx / fps / tb <==> p * tb * fps <= idx
  {
    var seconds := idx / fps;
    var ticks := seconds / tb;
    Order(p, ticks, tb);
    assert ticks * tb == seconds;
    Order(p * tb, seconds, fps);
    assert seconds * fps == idx;
  }

  /** Scans to the first number that is not below `idx`. */
  method ScanForward(v: Video, idx: int) returns (found: bool, i: nat)
    requires ValidVideo(v)
    ensures ScanFrom(v, idx) <= i <= |v.frames|
    ensures forall j :: ScanFrom(v, idx) <= j < i ==> ScanNumber(v, idx, j) < idx
    ensures found <==> i < |v.frames| && ScanNumber(v, idx, i) == idx
    ensures i < |v.frames| ==> ScanNumber(v, idx, i) >= idx
  {
    var k := ScanFrom(v, idx);
    i := k;
    while i < |v.frames|
      invariant k <= i <= |v.frames|
      invariant forall j :: k <= j < i ==> ScanNumber(v, idx, j) < idx
    {
      var number := FrameNumber(v, v.frames[i], i - k);
      if number == idx {
        return true, i;
      }
      if number > idx {
        return false, i;
      }
      i := i + 1;
    }
    found := false;
  }

  method GetFrameByIdx(v: Video, idx: int) returns (r: Option<Image>)
    requires ValidVideo(v)
    ensures idx < 0 ==> r.None?
    ensures idx >= 0 && r.None? ==> forall i: nat :: !Hit(v, idx, i)
    ensures idx >= 0 && r.Some? ==> exists i: nat :: Hit(v, idx, i) && r.value == v.frames[i].image
    ensures idx >= 0 && NumberedThroughout(v) && NonDecreasing(v) ==>
              (r.Some? <==> HasNumber(v, idx) && LandsInTime(v, idx))
    ensures idx >= 0 && NonDecreasing(v) && v.startPts >= 0 ==>
              forall i: nat :: OnlyNear(v, idx, i) ==> r == Some(v.frames[i].image)
    ensures idx >= 0 && (v.timeBase.None? || v.fps.None?) ==>
            r == if idx < |v.frames| then Some(v.frames[idx].image) else None
  {
    if idx < 0 {
      return None;
    }
    var found, i := ScanForward(v, idx);
    forall near: nat | NonDecreasing(v) && v.startPts >= 0 && OnlyNear(v, idx, near)
      ensures HasNumber(v, idx) && LandsInTime(v, idx) && (Hit(v, idx, i) ==> near == i)
    {
      NearIsHit(v, idx, near);
    }
    if found {
      HitIsPresent(v, idx, i);
      return Some(v.frames[i].image);
    }
    LookupMisses(v, idx, i);
    return None;
  }

  lemma HitIsPresent(v: Video, idx: int, i: nat)
    requires ValidVideo(v) && idx >= 0 && Hit(v, idx, i)
    ensures NumberedThroughout(v) && NonDecreasing(v) ==> HasNumber(v, idx) && LandsInTime(v, idx)
    ensures v.timeBase.None? || v.fps.None? ==> i == idx
  {
    if NumberedThroughout(v) && NonDecreasing(v) {
      assert Number(v, i) == idx;
      NumbersGrow(v, ScanFrom(v, idx), i);
    }
  }

  lemma PlaceIsNumber(v: Video, idx: int, j: nat)
    requires ValidVideo(v) && (v.timeBase.None? || v.fps.None?)
    ensures ScanFrom(v, idx) == 0
    ensures j < |v.frames| ==> ScanNumber(v, idx, j) == j
  {
  }

  /** A scan that stops at `i`, at a larger number or at the end, has missed nothing. */
  lemma LookupMisses(v: Video, idx: int, i: nat)
    requires ValidVideo(v) && idx >= 0 && ScanFrom(v, idx) <= i <= |v.frames|
    requires i < |v.frames| ==> ScanNumber(v, idx, i) > idx
    requires forall j :: ScanFrom(v, idx) <= j < i ==> ScanNumber(v, idx, j) < idx
    ensures forall j: nat :: !Hit(v, idx, j)
    ensures NumberedThroughout(v) && NonDecreasing(v) ==> !(HasNumber(v, idx) && LandsInTime(v, idx))
    ensures v.timeBase.None? || v.fps.None? ==> idx >= |v.frames|
  {
    var k := ScanFrom(v, idx);
    if NumberedThroughout(v) && NonDecreasing(v) {
      assert forall j :: k <= j < |v.frames| ==> ScanNumber(v, idx, j) == Number(v, j);
      if HasNumber(v, idx) && LandsInTime(v, idx) {
        var j :| 0 <= j < |v.frames| && Number(v, j) == idx;
        if j < k {
          KeyframeStandsIn(v, idx, j);
        } else if i < j {
          NumbersGrow(v, i, j);
        }
      }
    }
    if v.timeBase.None? || v.fps.None? {
      PlaceIsNumber(v, idx, idx);
      PlaceIsNumber(v, idx, i);
    }
  }

  /**
   With timestamps that never decrease and a stream that does not start before tick 0, the lookup
   finds a frame exactly when some frame of the whole video has that number.
   */
  lemma LookupIsComplete(v: Video, idx: int)
    requires ValidVideo(v) && NumberedThroughout(v) && NonDecreasing(v) && v.startPts >= 0
    ensures HasNumber(v, idx) ==> LandsInTime(v, idx)
  {
    if HasNumber(v, idx) {
      var i :| 0 <= i < |v.frames| && Number(v, i) == idx;
      if ScanFrom(v, idx) > 0 {
        NonNegativeStartLandsInTime(v, idx);
      } else {
        NumbersGrow(v, 0, i);
      }
    }
  }

  /** A stream that starts before tick 0 can have a frame the lookup misses: the seek ignores the start. */
  lemma NegativeStartCanMiss(v: Video)
    requires v == Video([Frame(Some(-10), true, 0), Frame(Some(-5), true, 1), Frame(Some(0), true, 2)],
                        Some(1.0), Some(1.0), -10)
    ensures ValidVideo(v) && NumberedThroughout(v) && NonDecreasing(v) && HasNumber(v, 5) && !LandsInTime(v, 5)
  {
    assert Number(v, 1) == 5;
    assert SeekTicks(v, 5) == 5;
    assert ScanFrom(v, 5) == 2;
  }
}
