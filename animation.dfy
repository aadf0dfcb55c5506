/**
 * `AnimatedGIF`: a label that cycles through the resized frames of a GIF.
 * The object's fields are `frames`, `current_frame` and `animation` (the
 * pending `after` id, if any); the label's current image is kept beside
 * them. The pure step functions below say what each method does to that
 * state; the class runs them in place.
 */
module Animation {
  import opened Wrappers
  import opened Images
  import PyInt

  /** An id returned by Tk's `after`. */
  type Handle = nat

  /** A `PhotoImage` of the given size, or the `None` put in place of a GIF that failed. */
  datatype Frame = Placeholder | Photo(size: Dims)

  datatype GifState = GifState(
    frames: seq<Frame>,
    current: int,
    pending: Option<Handle>,
    shown: Option<Frame>)  // what the label displays; None before the first configure

  /**
   * The object invariant: there is a frame, the index is within the frames,
   * a tick is pending only for a real animation, and the label shows the
   * current frame once it shows anything.
   */
  predicate WellFormed(s: GifState)
  {
    |s.frames| >= 1 && 0 <= s.current < |s.frames|
    && (s.pending.Some? ==> |s.frames| > 1)
    && (s.shown.Some? ==> s.shown.value == s.frames[s.current])
  }

  /** Each original frame resized to `width`, or None if resizing any of them raises. */
  function ResizeAll(originals: seq<Dims>, width: nat): (r: Option<seq<Dims>>)
    ensures r.Some? <==> forall i :: 0 <= i < |originals| ==> Resize(originals[i], width).Some?
    ensures r.Some? ==> |r.value| == |originals|
    ensures r.Some? ==> forall i :: 0 <= i < |originals| ==> Resize(originals[i], width) == Some(r.value[i])
  {
    if originals == [] then Some([])
    else match Resize(originals[0], width)
      case None => None
      case Some(d) =>
        match ResizeAll(originals[1..], width)
        case None => None
        case Some(rest) => Some([d] + rest)
  }

  function Photos(sizes: seq<Dims>): (frames: seq<Frame>)
    ensures |frames| == |sizes|
    ensures forall i :: 0 <= i < |sizes| ==> frames[i] == Photo(sizes[i])
  {
    seq(|sizes|, i requires 0 <= i < |sizes| => Photo(sizes[i]))
  }

  /**
   * The frame list `__init__` builds: every frame of the file resized to
   * `width`, or the single placeholder when opening, decoding or any resize
   * raises.
   */
  function LoadedFrames(disk: Disk, path: Path, width: nat): (frames: seq<Frame>)
    ensures |frames| >= 1
    ensures frames == [Placeholder] <==>
              path !in disk || disk[path].Undecodable? || ResizeAll(disk[path].Frames(), width).None?
    ensures frames != [Placeholder] ==>
              |frames| == |disk[path].Frames()| &&
              forall i :: 0 <= i < |frames| ==> frames[i].Photo? && frames[i].size.width == width
    ensures frames != [Placeholder] ==>
              forall i :: 0 <= i < |frames| ==> Some(frames[i].size) == Resize(disk[path].Frames()[i], width)
  {
    if path !in disk then [Placeholder]
    else match disk[path]
      case Undecodable => [Placeholder]
      case Picture(_, _) =>
        match ResizeAll(disk[path].Frames(), width)
        case None => [Placeholder]
        case Some(sizes) =>
          assert Photos(sizes)[0] != Placeholder;
          Photos(sizes)
  }

  /**
   * `animate`: with more than one frame, advance the index cyclically, show
   * that frame and take the new `after` id; otherwise change nothing.
   */
  function AnimateStep(s: GifState, tick: Handle): (t: GifState)
    requires WellFormed(s)
    ensures WellFormed(t) && t.frames == s.frames
    ensures |s.frames| > 1 ==>
              t.current == (s.current + 1) % |s.frames| && t.pending == Some(tick) && t.shown.Some?
    ensures |s.frames| <= 1 ==> t == s
  {
    if |s.frames| > 1 then
      var next := (s.current + 1) % |s.frames|;
      s.(current := next, shown := Some(s.frames[next]), pending := Some(tick))
    else s
  }

  /** `stop`: cancel the pending tick, if there is one, and forget it. */
  function StopStep(s: GifState): (t: GifState)
    ensures t.pending == None
    ensures t.frames == s.frames && t.current == s.current && t.shown == s.shown
  {
    if s.pending.Some? then s.(pending := None) else s
  }

  /** The state right after `__init__`, which calls `animate` once itself. */
  function Initial(disk: Disk, path: Path, width: nat, tick: Handle): (s: GifState)
    ensures WellFormed(s) && s.frames == LoadedFrames(disk, path, width)
    ensures |s.frames| > 1 ==> s.current == 1 && s.pending == Some(tick) && s.shown == Some(s.frames[1])
    ensures |s.frames| <= 1 ==> s.current == 0 && s.pending == None && s.shown == None
  {
    var frames := LoadedFrames(disk, path, width);
    assert |frames| > 1 ==> 1 % |frames| == 1 by {
      if |frames| > 1 { ModUnique(1, 0, 1, |frames|); }
    }
    AnimateStep(GifState(LoadedFrames(disk, path, width), 0, None, None), tick)
  }

  /**
   * The state after the scheduled ticks fire, one `animate` per id. A tick
   * fires only while one is pending: once `stop` has cancelled it (or none
   * was ever scheduled) nothing calls `animate` again.
   */
  function Run(s: GifState, ticks: seq<Handle>): (t: GifState)
    requires WellFormed(s)
    ensures WellFormed(t) && t.frames == s.frames
    ensures s.pending == None ==> t == s
    decreases |ticks|
  {
    if ticks == [] || s.pending == None then s else Run(AnimateStep(s, ticks[0]), ticks[1..])
  }

  /** After k ticks of a real animation the index has moved k places around the cycle. */
  lemma {:induction false} RunIndex(s: GifState, ticks: seq<Handle>)
    requires WellFormed(s) && |s.frames| > 1 && s.pending.Some?
    ensures Run(s, ticks).current == (s.current + |ticks|) % |s.frames|
    ensures ticks != [] ==> Run(s, ticks).pending == Some(ticks[|ticks| - 1])
    decreases |ticks|
  {
    if ticks == [] {
      ModUnique(s.current, 0, s.current, |s.frames|);
    } else {
      var s1 := RunFirstTick(s, ticks);
      RunIndex(s1, ticks[1..]);
      ModAddLeft(s.current + 1, |ticks| - 1, |s.frames|);
      if |ticks| > 1 {
        assert ticks[1..][|ticks[1..]| - 1] == ticks[|ticks| - 1];
      }
    }
  }

  /** The first of several ticks: `animate` once, then the rest. */
  lemma RunFirstTick(s: GifState, ticks: seq<Handle>) returns (s1: GifState)
    requires WellFormed(s) && |s.frames| > 1 && s.pending.Some? && ticks != []
    ensures WellFormed(s1) && s1.frames == s.frames && s1.pending == Some(ticks[0])
    ensures s1.current == (s.current + 1) % |s.frames|
    ensures Run(s, ticks) == Run(s1, ticks[1..])
  {
    s1 := AnimateStep(s, ticks[0]);
  }

  lemma ModAddLeft(a: nat, k: nat, n: int)
    requires n > 0
    ensures (a % n + k) % n == (a + k) % n
  {
    var q, r := (a % n + k) / n, (a % n + k) % n;
    assert a == (a / n) * n + a % n;
    assert a % n + k == q * n + r;
    assert a + k == (q + a / n) * n + r;
    ModUnique(a + k, q + a / n, r, n);
  }

  /** Quotient and remainder are unique: y == m * n + r with 0 <= r < n fixes y % n. */
  lemma ModUnique(y: int, m: int, r: int, n: int)
    requires n > 0 && 0 <= r < n && y == m * n + r
    ensures y % n == r
  {
    var d, e := y / n, y % n;
    assert y == d * n + e && 0 <= e < n;
    assert (m - d) * n == m * n - d * n;
    assert (m - d) * n == e - r;
    if m - d >= 1 {
      PyInt.MulMono(1, m - d, n);
    } else if d - m >= 1 {
      PyInt.MulMono(1, d - m, n);
    }
  }

  /** A GIF that failed to load, or has a single frame, never moves and never schedules a tick. */
  lemma {:induction false} RunStill(s: GifState, ticks: seq<Handle>)
    requires WellFormed(s) && |s.frames| <= 1
    ensures Run(s, ticks) == s
    decreases |ticks|
  {
    if ticks != [] {
      RunStill(AnimateStep(s, ticks[0]), ticks[1..]);
    }
  }

  /** Once the label shows something, after any ticks it shows the current frame. */
  lemma {:induction false} RunShows(s: GifState, ticks: seq<Handle>)
    requires WellFormed(s) && s.shown.Some?
    ensures Run(s, ticks).shown == Some(s.frames[Run(s, ticks).current])
    decreases |ticks|
  {
    if ticks != [] && s.pending.Some? {
      RunShows(AnimateStep(s, ticks[0]), ticks[1..]);
    }
  }

  /**
   * From construction: with n > 1 frames, after k further ticks the label
   * shows frame (k + 1) mod n, since `__init__` already advanced to frame 1.
   */
  lemma CycleFromStart(disk: Disk, path: Path, width: nat, tick: Handle, ticks: seq<Handle>)
    requires |LoadedFrames(disk, path, width)| > 1
    ensures Run(Initial(disk, path, width, tick), ticks).current ==
              (|ticks| + 1) % |LoadedFrames(disk, path, width)|
    ensures Run(Initial(disk, path, width, tick), ticks).shown ==
              Some(LoadedFrames(disk, path, width)[(|ticks| + 1) % |LoadedFrames(disk, path, width)|])
  {
    RunIndex(Initial(disk, path, width, tick), ticks);
    RunShows(Initial(disk, path, width, tick), ticks);
  }

  /** A GIF that does not load (placeholder frame) stays blank and idle whatever fires. */
  lemma FailedGifNeverTicks(disk: Disk, path: Path, width: nat, tick: Handle, ticks: seq<Handle>)
    requires path !in disk || disk[path].Undecodable? || ResizeAll(disk[path].Frames(), width).None?
    ensures Run(Initial(disk, path, width, tick), ticks).pending == None
    ensures Run(Initial(disk, path, width, tick), ticks).shown == None
  {
    RunStill(Initial(disk, path, width, tick), ticks);
  }

  /** After `stop` no tick fires: the animation stays where it stopped. */
  lemma StoppedStaysStill(s: GifState, ticks: seq<Handle>)
    requires WellFormed(s)
    ensures WellFormed(StopStep(s))
    ensures Run(StopStep(s), ticks) == StopStep(s)
  {
  }

  /**
   * The animated label of a process-window step whose `.gif` exists but
   * does not load stays blank and idle, whatever ticks fire.
   */
  lemma FailedAnimatedLabelStaysBlank(disk: Disk, dir: string, name: string, tick: Handle, ticks: seq<Handle>)
    requires ProcessFigure(disk, dir, name).AnimatedLabel?
    requires disk[Join(dir, name)].Undecodable? ||
             ResizeAll(disk[Join(dir, name)].Frames(), ProcessImageWidth).None?
    ensures var f := ProcessFigure(disk, dir, name);
            Run(Initial(disk, f.source, f.width, tick), ticks).shown == None
  {
    var f := ProcessFigure(disk, dir, name);
    FailedGifNeverTicks(disk, f.source, f.width, tick, ticks);
  }

  /** `stop` twice is `stop` once. */
  lemma StopIdempotent(s: GifState)
    ensures StopStep(StopStep(s)) == StopStep(s)
  {
  }

  /** `stop` with nothing pending is a no-op. */
  lemma StopIdle(s: GifState)
    requires s.pending == None
    ensures StopStep(s) == s
  {
  }

  /** An `AnimatedGIF` object, with Tk's `after` ids passed in by the caller. */
  class AnimatedGif {
    const path: Path
    const width: nat
    var frames: seq<Frame>
    var currentFrame: int
    var animation: Option<Handle>
    var shown: Option<Frame>  // the label's image

    function State(): GifState
      reads this
    {
      GifState(frames, currentFrame, animation, shown)
    }

    predicate Valid()
      reads this
    {
      WellFormed(State())
    }

    /**
     * `__init__`: build the frames by resizing the file's frames one by
     * one, fall back to the placeholder on the first failure, then call
     * `animate` once with the id Tk's `after` would hand out.
     */
    constructor (disk: Disk, path: Path, width: nat, tick: Handle)
      ensures Valid() && this.path == path && this.width == width
      ensures State() == Initial(disk, path, width, tick)
    {
      this.path := path;
      this.width := width;
      var loaded: seq<Frame> := [];
      var failed := false;
      if path !in disk || disk[path].Undecodable? {
        failed := true;
      } else {
        var originals := disk[path].Frames();
        var i := 0;
        while i < |originals| && !failed
          invariant 0 <= i <= |originals|
          invariant |loaded| == i
          invariant forall j :: 0 <= j < i ==>
                      Resize(originals[j], width).Some? && loaded[j] == Photo(Resize(originals[j], width).value)
          invariant failed ==> ResizeAll(originals, width).None?
          decreases |originals| - i, !failed
        {
          var resized := Resize(originals[i], width);
          if resized.None? {
            failed := true;
          } else {
            loaded := loaded + [Photo(resized.value)];
            i := i + 1;
          }
        }
        if !failed {
          var sizes := ResizeAll(originals, width).value;
          assert loaded == Photos(sizes);
        }
      }
      frames := if failed then [Placeholder] else loaded;
      currentFrame := 0;
      animation := None;
      shown := None;
      new;
      Animate(tick);
    }

    /** `animate`, with `tick` the id of the `after` call it makes. */
    method Animate(tick: Handle)
      requires Valid()
      modifies this
      ensures Valid()
      ensures State() == AnimateStep(old(State()), tick)
    {
      if |frames| > 1 {
        currentFrame := (currentFrame + 1) % |frames|;
        shown := Some(frames[currentFrame]);
        animation := Some(tick);
      }
    }

    /** `stop`; `cancelled` is the id handed to `after_cancel`, if any. */
    method Stop() returns (cancelled: Option<Handle>)
      requires Valid()
      modifies this
      ensures Valid()
      ensures cancelled == old(animation)
      ensures State() == StopStep(old(State()))
    {
      cancelled := animation;
      if animation.Some? {
        animation := None;
      }
    }
  }
}
