/**
 A decodable video stream: frames in presentation order and seeking to keyframes.
 Frames may lack a timestamp; a timestamp counts ticks of the stream's time base.
 */
module VideoStream {
  import opened Options

  type Image = nat

  datatype Frame = Frame(pts: Option<int>, key: bool, image: Image)

  /** Timestamps of later frames are larger. */
  ghost predicate Increasing(frames: seq<Frame>) {
    forall i, j :: 0 <= i < j < |frames| && frames[i].pts.Some? && frames[j].pts.Some? ==>
      frames[i].pts.value < frames[j].pts.value
  }

  predicate KeyAtOrBefore(f: Frame, ticks: real) {
    f.key && f.pts.Some? && f.pts.value as real <= ticks
  }

  /** The last keyframe at or before `ticks` among the first `n` frames; the first frame if there is none. */
  function SeekAmong(frames: seq<Frame>, ticks: real, n: nat): (k: nat)
    requires n <= |frames|
    ensures k == 0 || (k < n && KeyAtOrBefore(frames[k], ticks))
    ensures forall i :: k < i < n ==> !KeyAtOrBefore(frames[i], ticks)
  {
    if n == 0 then 0 else if KeyAtOrBefore(frames[n - 1], ticks) then n - 1 else SeekAmong(frames, ticks, n - 1)
  }

  /** Where decoding resumes after a backward seek. */
  function Seek(frames: seq<Frame>, ticks: real): (k: nat)
    ensures k == 0 || (k < |frames| && KeyAtOrBefore(frames[k], ticks))
    ensures forall i :: k < i < |frames| ==> !KeyAtOrBefore(frames[i], ticks)
  {
    SeekAmong(frames, ticks, |frames|)
  }

  function Max(a: real, b: real): real {
    if a < b then b else a
  }

  /** int() of a real: truncation toward zero. */
  function Truncate(x: real): int {
    if x < 0.0 then -((-x).Floor) else x.Floor
  }

  /** round() to an integer, halves to the even neighbour. */
  function Round(x: real): (r: int)
    ensures r as real - 0.5 <= x <= r as real + 0.5
    ensures x == r as real - 0.5 || x == r as real + 0.5 ==> r % 2 == 0
  {
    var f := x.Floor;
    var d := x - f as real;
    if d < 0.5 || (d == 0.5 && f % 2 == 0) then f else f + 1
  }

  lemma RoundIsMonotone(x: real, y: real)
    requires x <= y
    ensures Round(x) <= Round(y)
  {
  }

  lemma RoundFixesIntegers(n: int)
    ensures Round(n as real) == n
  {
  }

  /** A video stream as the container describes it; `startPts` is 0 if the container does not say. */
  datatype Video = Video(frames: seq<Frame>, timeBase: Option<real>, fps: Option<real>, startPts: int)

  ghost predicate ValidVideo(v: Video) {
    (v.timeBase.Some? ==> v.timeBase.value > 0.0) && (v.fps.Some? ==> v.fps.value > 0.0)
  }

  function FrameTime(v: Video, f: Frame): Option<real> {
    if f.pts.Some? && v.timeBase.Some? then Some(f.pts.value as real * v.timeBase.value) else None
  }

  /** Frames that fit into `ticks`. */
  function FramesIn(ticks: real, timeBase: real, fps: real): real {
    ticks * timeBase * fps
  }

  /** The frame number at a timestamp. */
  function NumberAt(pts: int, start: int, timeBase: real, fps: real): int {
    Round(FramesIn((pts - start) as real, timeBase, fps))
  }

  lemma Scale(a: real, b: real, w: real)
    requires a <= b && w > 0.0
    ensures a * w <= b * w
  {
    assert (b - a) * w >= 0.0;
  }

  lemma FramesInIsMonotone(a: real, b: real, timeBase: real, fps: real)
    requires a <= b && timeBase > 0.0 && fps > 0.0
    ensures FramesIn(a, timeBase, fps) <= FramesIn(b, timeBase, fps)
  {
    Scale(a, b, timeBase);
    Scale(a * timeBase, b * timeBase, fps);
  }

  /** The number is the nearest to the frames that fit in since the start, the even one of two. */
  lemma NumberIsNearest(pts: int, start: int, timeBase: real, fps: real)
    ensures var n, x := NumberAt(pts, start, timeBase, fps), (pts - start) as real * timeBase * fps;
            && n as real - 0.5 <= x <= n as real + 0.5
            && (x == n as real - 0.5 || x == n as real + 0.5 ==> n % 2 == 0)
  {
  }

  /** A seek by a truncated time lands on the last keyframe not past that time. */
  lemma SeekLandsOnLast(frames: seq<Frame>, ticks: real, k: nat)
    requires ticks >= 0.0 && k < |frames| && frames[k].key && frames[k].pts.Some?
    ensures frames[k].pts.value as real <= ticks ==> k <= Seek(frames, Truncate(ticks) as real)
    ensures k > 0 && k == Seek(frames, Truncate(ticks) as real) ==> frames[k].pts.value as real <= ticks
  {
    assert frames[k].pts.value as real <= ticks ==> frames[k].pts.value <= Truncate(ticks);
    assert frames[k].pts.value as real <= ticks ==> KeyAtOrBefore(frames[k], Truncate(ticks) as real);
  }

  lemma NumberAtIsMonotone(p: int, q: int, start: int, timeBase: real, fps: real)
    requires p <= q && timeBase > 0.0 && fps > 0.0
    ensures NumberAt(p, start, timeBase, fps) <= NumberAt(q, start, timeBase, fps)
  {
    var a, b := (p - start) as real, (q - start) as real;
    FramesInIsMonotone(a, b, timeBase, fps);
    RoundIsMonotone(FramesIn(a, timeBase, fps), FramesIn(b, timeBase, fps));
  }

  /** The frame number shown for `f`: computed from its timestamp if possible, otherwise its place in the decoding. */
  function FrameNumber(v: Video, f: Frame, place: nat): int {
    if f.pts.Some? && v.timeBase.Some? && v.fps.Some?
    then NumberAt(f.pts.value, v.startPts, v.timeBase.value, v.fps.value)
    else place
  }

  /** A frame without a timestamp, or in a stream without time base or rate, is numbered by its place. */
  lemma FrameNumberMeans(v: Video, f: Frame, place: nat)
    ensures f.pts.None? || v.timeBase.None? || v.fps.None? ==> FrameNumber(v, f, place) == place
    ensures f.pts.Some? && v.timeBase.Some? && v.fps.Some? ==>
              var n, x := FrameNumber(v, f, place),
                          (f.pts.value - v.startPts) as real * v.timeBase.value * v.fps.value;
              n as real - 0.5 <= x <= n as real + 0.5
  {
  }
}
