/** The playback side of the web view: the module-level state `frames`,
    `current`, `playing`, `speed`, `lastTimestamp` and `accumulated`, the
    drift-carrying animation tick, the transport controls, the speed
    controls, and the decode entry point that installs freshly composed
    frames. Timestamps come from the environment as method arguments. */
module Playback {
  import opened Raster
  import opened Compositor
  import opened Presets

  datatype Option<T> = None | Some(value: T)

  /** What the external GIF decoder made of the bytes: a parse failure, or
      the logical screen size (0 where the GIF declares none) and the raw
      frames. */
  datatype Decoded = ParseFailed | Parsed(screenWidth: nat, screenHeight: nat, raw: seq<RawFrame>)

  /** Outcome of a decode, as the info line reports it. */
  datatype LoadStatus = Failed | NoFrames | Loaded(frameCount: nat)

  /** Outcome of one animation tick: not playing, the frame lookup threw
      because there are no frames, or the frame was drawn after `advances`
      advances. */
  datatype TickOutcome = Idle | Faulted | Drawn(advances: nat)

  /** Where the catch-up loop of a tick stands: the frame index, the time
      still to be consumed, and the number of advances so far. */
  datatype CatchUpState = CatchUpState(current: nat, accumulated: real, loops: nat)

  /** The loop of a tick breaks once it has advanced more than this many times. */
  const MaxLoops := 10

  const MinSpeed: real := 0.1
  const MaxSpeed: real := 4.0

  /** Speed before any control is used: the injected initial speed when one
      is present and not zero, else 1. */
  function InitialSpeed(injected: Option<real>): real
  {
    match injected
    case Some(v) => if v != 0.0 then v else 1.0
    case None => 1.0
  }

  function Dist(a: real, b: real): real
  {
    if a >= b then a - b else b - a
  }

  /** The select-box handler's clamp: the point of [0.1, 4] nearest to `v`. */
  function ClampSpeed(v: real): (r: real)
    ensures MinSpeed <= r <= MaxSpeed
    ensures MinSpeed <= v <= MaxSpeed ==> r == v
    ensures forall u :: MinSpeed <= u <= MaxSpeed ==> Dist(r, v) <= Dist(u, v)
  {
    if v < MinSpeed then MinSpeed else if v > MaxSpeed then MaxSpeed else v
  }

  /** Elapsed time a tick adds: none on the first tick after `play`, which
      only sets the time origin. */
  function Elapsed(lastTimestamp: real, timestamp: real): real
  {
    if lastTimestamp == 0.0 then 0.0 else timestamp - lastTimestamp
  }

  /** The catch-up loop of `stepPlay` (index.ts lines 187-193) from frame
      `cur` with `acc` milliseconds to consume after `loops` advances. */
  function CatchUp(frames: seq<ComposedFrame>, cur: nat, acc: real, loops: nat): (s: CatchUpState)
    requires cur < |frames| && loops <= MaxLoops
    ensures s.current < |frames|
    ensures loops <= s.loops <= MaxLoops + 1
    decreases MaxLoops - loops
  {
    if acc < frames[cur].delay as real then CatchUpState(cur, acc, loops)
    else
      var next := (cur + 1) % |frames|;
      var rest := acc - frames[cur].delay as real;
      if loops + 1 > MaxLoops then CatchUpState(next, rest, loops + 1)
      else CatchUp(frames, next, rest, loops + 1)
  }

  /** One pass of the loop body when the frame's delay is covered. */
  lemma CatchUpStep(frames: seq<ComposedFrame>, cur: nat, acc: real, loops: nat)
    requires cur < |frames| && loops <= MaxLoops && acc >= frames[cur].delay as real
    ensures var next := (cur + 1) % |frames|;
      var rest := acc - frames[cur].delay as real;
      CatchUp(frames, cur, acc, loops)
        == if loops + 1 > MaxLoops then CatchUpState(next, rest, loops + 1) else CatchUp(frames, next, rest, loops + 1)
  {
  }

  /** Total delay of the `k` frames played from index `start` on, wrapping. */
  function Span(frames: seq<ComposedFrame>, start: nat, k: nat): int
    requires |frames| > 0
  {
    if k == 0 then 0 else Span(frames, start, k - 1) + frames[(start + k - 1) % |frames|].delay
  }

  function NextIndex(c: int, n: nat): int
    requires n > 0
  {
    (c + 1) % n
  }

  function PrevIndex(c: int, n: nat): int
    requires n > 0
  {
    (c - 1 + n) % n
  }

  lemma {:induction false} ModNext(a: nat, n: nat)
    requires n > 0
    ensures (a + 1) % n == (a % n + 1) % n
  {
    var q, r := a / n, a % n;
    if r + 1 < n {
      DivModUnique(a + 1, n, q, r + 1);
      DivModUnique(r + 1, n, 0, r + 1);
    } else {
      DivModUnique(a + 1, n, q + 1, 0);
      DivModUnique(r + 1, n, 1, 0);
    }
  }

  /** Next and prev undo each other on every valid frame index. */
  lemma {:induction false} NextPrevInverse(c: nat, n: nat)
    requires c < n
    ensures 0 <= NextIndex(c, n) < n && 0 <= PrevIndex(c, n) < n
    ensures PrevIndex(NextIndex(c, n), n) == c
    ensures NextIndex(PrevIndex(c, n), n) == c
  {
    if c + 1 < n {
      DivModUnique(c + 1, n, 0, c + 1);
      DivModUnique(c + n, n, 1, c);
    } else {
      DivModUnique(c + 1, n, 1, 0);
      DivModUnique(n - 1, n, 0, n - 1);
    }
    if c > 0 {
      DivModUnique(c - 1 + n, n, 1, c - 1);
      DivModUnique(c, n, 0, c);
    } else {
      DivModUnique(n - 1, n, 0, n - 1);
      DivModUnique(n, n, 1, 0);
    }
  }

  /** What holds of the catch-up after `loops` advances from frame `start`
      with `acc0` milliseconds: the frame reached, the time left, and that
      each advance so far was covered. */
  ghost predicate AdvancedFrom(frames: seq<ComposedFrame>, start: nat, acc0: real, cur: nat, acc: real, loops: nat)
    requires |frames| > 0
  {
    && cur == (start + loops) % |frames|
    && acc == acc0 - Span(frames, start, loops) as real
    && forall j :: 0 <= j < loops ==>
         acc0 - Span(frames, start, j) as real >= frames[(start + j) % |frames|].delay as real
  }

  /** An advance taken because the time left covers the current frame keeps
      `AdvancedFrom`. */
  lemma {:induction false} AdvanceKeeps(frames: seq<ComposedFrame>, start: nat, acc0: real, cur: nat, acc: real, loops: nat)
    requires |frames| > 0 && cur < |frames|
    requires AdvancedFrom(frames, start, acc0, cur, acc, loops)
    requires acc >= frames[cur].delay as real
    ensures AdvancedFrom(frames, start, acc0, (cur + 1) % |frames|, acc - frames[cur].delay as real, loops + 1)
  {
    ModNext(start + loops, |frames|);
    assert Span(frames, start, loops + 1) == Span(frames, start, loops) + frames[cur].delay;
  }

  lemma {:induction false} CatchUpFrom(frames: seq<ComposedFrame>, start: nat, acc0: real, cur: nat, acc: real, loops: nat)
    requires |frames| > 0 && cur < |frames| && loops <= MaxLoops
    requires AdvancedFrom(frames, start, acc0, cur, acc, loops)
    ensures var s := CatchUp(frames, cur, acc, loops);
      && AdvancedFrom(frames, start, acc0, s.current, s.accumulated, s.loops)
      && (s.loops == MaxLoops + 1 || s.accumulated < frames[s.current].delay as real)
    decreases MaxLoops - loops
  {
    if acc >= frames[cur].delay as real {
      AdvanceKeeps(frames, start, acc0, cur, acc, loops);
      CatchUpStep(frames, cur, acc, loops);
      if loops + 1 <= MaxLoops {
        CatchUpFrom(frames, start, acc0, (cur + 1) % |frames|, acc - frames[cur].delay as real, loops + 1);
      }
    }
  }

  /** One tick's catch-up from frame `start` with `acc0` milliseconds: it
      makes `k` advances, at most 11; the i-th advance leaves frame
      `(start + i) % n` and subtracts exactly that frame's delay, and was
      taken only because the time left covered it; it stops on frame
      `(start + k) % n` with less time left than that frame's delay, unless
      the cap was hit. */
  lemma {:induction false} CatchUpSpec(frames: seq<ComposedFrame>, start: nat, acc0: real)
    requires start < |frames|
    ensures var s := CatchUp(frames, start, acc0, 0);
      && s.loops <= MaxLoops + 1
      && s.current == (start + s.loops) % |frames|
      && s.accumulated == acc0 - Span(frames, start, s.loops) as real
      && (forall j :: 0 <= j < s.loops ==>
            acc0 - Span(frames, start, j) as real >= frames[(start + j) % |frames|].delay as real)
      && (s.loops == MaxLoops + 1 || s.accumulated < frames[s.current].delay as real)
  {
    DivModUnique(start, |frames|, 0, start);
    CatchUpFrom(frames, start, acc0, start, acc0, 0);
    var s := CatchUp(frames, start, acc0, 0);
    assert AdvancedFrom(frames, start, acc0, s.current, s.accumulated, s.loops);
  }

  /** Three 100 ms frames at speed 1: 250 ms end on frame 2 with 50 ms
      carried; 1000 ms of scaled time make ten advances and end on frame 1
      with nothing carried; 1500 ms hit the cap after 11 advances, on
      frame 2 with 400 ms still carried. */
  lemma CatchUpExamples(f: ComposedFrame)
    requires f.delay == 100
    ensures CatchUp([f, f, f], 0, 250.0, 0) == CatchUpState(2, 50.0, 2)
    ensures CatchUp([f, f, f], 0, 1000.0, 0) == CatchUpState(1, 0.0, 10)
    ensures CatchUp([f, f, f], 0, 1500.0, 0) == CatchUpState(2, 400.0, 11)
  {
  }

  /** The catch-up loop of `stepPlay` (index.ts lines 187-193): while the
      time left covers the current frame's delay, subtract it and advance,
      breaking after more than `MaxLoops` advances. */
  method RunCatchUp(frames: seq<ComposedFrame>, start: nat, acc0: real) returns (cur: nat, acc: real, loops: nat)
    requires start < |frames|
    ensures CatchUpState(cur, acc, loops) == CatchUp(frames, start, acc0, 0)
  {
    cur, acc, loops := start, acc0, 0;
    while acc >= frames[cur].delay as real
      invariant cur < |frames| && loops <= MaxLoops
      invariant CatchUp(frames, cur, acc, loops) == CatchUp(frames, start, acc0, 0)
      decreases MaxLoops - loops
    {
      CatchUpStep(frames, cur, acc, loops);
      acc := acc - frames[cur].delay as real;
      cur := (cur + 1) % |frames|;
      loops := loops + 1;
      if loops > MaxLoops {
        break;
      }
    }
  }

  /** The web view's playback state. */
  class Player {
    var frames: seq<ComposedFrame>
    var current: int
    var playing: bool
    var speed: real
    var lastTimestamp: real
    var accumulated: real
    var totalDuration: int
    var logicalW: nat
    var logicalH: nat
    /** `max` of the progress slider: 0 in the page, `frames.length - 1`
        after each decode that yields frames. The slider only offers values
        in `[0, max]`. */
    var progressMax: int

    ghost predicate Valid()
      reads this
    {
      && 0 <= current <= progressMax
      && (|frames| > 0 ==> progressMax == |frames| - 1 && totalDuration == TotalDuration(frames))
      && (forall k :: 0 <= k < |frames| ==> frames[k].delay >= MinDelay)
    }

    constructor (injectedSpeed: Option<real>)
      ensures Valid()
      ensures frames == [] && current == 0 && !playing && progressMax == 0
      ensures speed == InitialSpeed(injectedSpeed)
      ensures lastTimestamp == 0.0 && accumulated == 0.0 && totalDuration == 0
      ensures logicalW == 0 && logicalH == 0
    {
      frames := [];
      current := 0;
      playing := false;
      speed := InitialSpeed(injectedSpeed);
      lastTimestamp := 0.0;
      accumulated := 0.0;
      totalDuration := 0;
      logicalW := 0;
      logicalH := 0;
      progressMax := 0;
    }

    /** `play` (index.ts lines 198-205): nothing without frames; otherwise
        playing from the current frame with a fresh time origin. */
    method Play()
      requires Valid()
      modifies this`playing, this`lastTimestamp, this`accumulated
      ensures Valid()
      ensures |frames| == 0 ==> playing == old(playing) && lastTimestamp == old(lastTimestamp) && accumulated == old(accumulated)
      ensures |frames| > 0 ==> playing && lastTimestamp == 0.0 && accumulated == 0.0
    {
      if |frames| == 0 {
        return;
      }
      playing := true;
      lastTimestamp := 0.0;
      accumulated := 0.0;
    }

    /** `pause` (index.ts lines 206-210). */
    method Pause()
      modifies this`playing
      ensures !playing
    {
      playing := false;
    }

    /** The play button and the Space key. */
    method TogglePlay()
      requires Valid()
      modifies this`playing, this`lastTimestamp, this`accumulated
      ensures Valid()
      ensures old(playing) ==> !playing && lastTimestamp == old(lastTimestamp) && accumulated == old(accumulated)
      ensures !old(playing) && |frames| == 0 ==> !playing && lastTimestamp == old(lastTimestamp) && accumulated == old(accumulated)
      ensures !old(playing) && |frames| > 0 ==> playing && lastTimestamp == 0.0 && accumulated == 0.0
    {
      if playing {
        Pause();
      } else {
        Play();
      }
    }

    /** The prev button and the ArrowLeft key: pause, then one frame back,
        wrapping from the first frame to the last (`PrevIndex`). */
    method Prev()
      requires Valid()
      modifies this`playing, this`current
      ensures Valid() && !playing
      ensures |frames| == 0 ==> current == old(current)
      ensures |frames| > 0 ==> current == PrevIndex(old(current), |frames|)
    {
      Pause();
      if |frames| > 0 {
        NextPrevInverse(current, |frames|);
        current := (current - 1 + |frames|) % |frames|;
      }
    }

    /** The next button and the ArrowRight key: pause, then one frame on,
        wrapping from the last frame to the first (`NextIndex`). */
    method Next()
      requires Valid()
      modifies this`playing, this`current
      ensures Valid() && !playing
      ensures |frames| == 0 ==> current == old(current)
      ensures |frames| > 0 ==> current == NextIndex(old(current), |frames|)
    {
      Pause();
      if |frames| > 0 {
        NextPrevInverse(current, |frames|);
        current := (current + 1) % |frames|;
      }
    }

    /** The progress slider (index.ts lines 229-233): pause and jump to the
        slider's value, which the code takes as it is. */
    method Seek(value: int)
      requires Valid() && 0 <= value <= progressMax
      modifies this`playing, this`current
      ensures Valid() && !playing && current == value
    {
      Pause();
      current := value;
    }

    /** The speed select box (index.ts lines 235-238): the same clamp as
        `ClampSpeed`, written as the handler's two comparisons. */
    method SelectSpeed(v: real)
      modifies this`speed
      ensures speed == ClampSpeed(v)
    {
      if v < 0.1 {
        speed := 0.1;
      } else if v > 4.0 {
        speed := 4.0;
      } else {
        speed := v;
      }
    }

    /** The ArrowUp key (index.ts lines 276-295). */
    method SpeedUpKey()
      modifies this`speed
      ensures speed in SpeedOptions && speed == SpeedUp(SpeedOptions, old(speed))
    {
      speed := SpeedUp(SpeedOptions, speed);
    }

    /** The ArrowDown key (index.ts lines 296-313). */
    method SpeedDownKey()
      modifies this`speed
      ensures speed in SpeedOptions && speed == SpeedDown(SpeedOptions, old(speed))
    {
      speed := SpeedDown(SpeedOptions, speed);
    }

    /** `stepPlay` (index.ts lines 181-196) for the animation-frame callback
        with `timestamp`. With no frames the frame lookup throws after the
        clock fields were updated. */
    method Tick(timestamp: real) returns (outcome: TickOutcome)
      requires Valid()
      modifies this`lastTimestamp, this`accumulated, this`current
      ensures Valid()
      ensures !playing ==> outcome == Idle && unchanged(this)
      ensures playing ==> lastTimestamp == timestamp
      ensures playing && |frames| == 0 ==>
        outcome == Faulted && current == old(current)
        && accumulated == old(accumulated + Elapsed(lastTimestamp, timestamp) * speed)
      ensures playing && |frames| > 0 ==>
        var s := CatchUp(frames, old(current), old(accumulated + Elapsed(lastTimestamp, timestamp) * speed), 0);
        current == s.current && accumulated == s.accumulated && outcome == Drawn(s.loops)
    {
      if !playing {
        return Idle;
      }
      if lastTimestamp == 0.0 {
        lastTimestamp := timestamp;
      }
      var delta := timestamp - lastTimestamp;
      ghost var scaled := old(accumulated + Elapsed(lastTimestamp, timestamp) * speed);
      lastTimestamp := timestamp;
      accumulated := accumulated + delta * speed;
      assert accumulated == scaled;
      if |frames| == 0 {
        return Faulted;
      }
      var cur, acc, loops := RunCatchUp(frames, current, accumulated);
      current, accumulated := cur, acc;
      outcome := Drawn(loops);
    }

    /** `decode` (index.ts lines 49-153) once the external decoder has run:
        a parse failure changes nothing; no frames empties `frames`; a
        canvas with no pixels makes `ImageData` throw, after the logical size
        was recorded; otherwise the composed frames replace the old ones,
        playback restarts at frame 0 and starts playing if it was not. */
    method Load(d: Decoded) returns (status: LoadStatus)
      requires Valid()
      requires d.Parsed? && d.raw != [] && CanvasWidth(d) > 0 && CanvasHeight(d) > 0 ==>
        AllFitCanvas(d.raw, CanvasWidth(d), CanvasHeight(d))
      modifies this
      ensures Valid()
      ensures speed == old(speed)
      ensures d.ParseFailed? ==> status == Failed && unchanged(this)
      ensures d.Parsed? && d.raw == [] ==>
        status == NoFrames && frames == []
        && current == old(current) && playing == old(playing) && progressMax == old(progressMax)
        && lastTimestamp == old(lastTimestamp) && accumulated == old(accumulated)
        && logicalW == old(logicalW) && logicalH == old(logicalH) && totalDuration == old(totalDuration)
      ensures d.Parsed? && d.raw != [] ==> logicalW == CanvasWidth(d) && logicalH == CanvasHeight(d)
      ensures d.Parsed? && d.raw != [] && (CanvasWidth(d) == 0 || CanvasHeight(d) == 0) ==>
        && status == Failed && frames == old(frames) && current == old(current) && playing == old(playing)
        && progressMax == old(progressMax) && totalDuration == old(totalDuration)
        && lastTimestamp == old(lastTimestamp) && accumulated == old(accumulated)
      ensures d.Parsed? && d.raw != [] && CanvasWidth(d) > 0 && CanvasHeight(d) > 0 ==>
        && AllPatchSized(d.raw)
        && status == Loaded(|d.raw|)
        && frames == ComposeFrom(Blank(CanvasWidth(d) * CanvasHeight(d) * 4), d.raw, CanvasWidth(d))
        && totalDuration == TotalDuration(frames) && progressMax == |frames| - 1
        && current == 0 && playing
        && (old(playing) ==> lastTimestamp == old(lastTimestamp) && accumulated == old(accumulated))
        && (!old(playing) ==> lastTimestamp == 0.0 && accumulated == 0.0)
    {
      if d.ParseFailed? {
        return Failed;
      }
      if |d.raw| == 0 {
        frames := [];
        return NoFrames;
      }
      logicalW := CanvasWidth(d);
      logicalH := CanvasHeight(d);
      if logicalW == 0 || logicalH == 0 {
        // `new ImageData` rejects an empty pixel buffer: the error is caught
        // before `frames` is assigned.
        return Failed;
      }
      var composed := Compose(d.raw, logicalW, logicalH);
      frames := composed;
      totalDuration := TotalDuration(frames);
      progressMax := |frames| - 1;
      current := 0;
      if !playing {
        Play();
      }
      status := Loaded(|frames|);
    }
  }

  /** `lsd.width || rawFrames[0].dims.width`. */
  function CanvasWidth(d: Decoded): nat
    requires d.Parsed? && d.raw != []
  {
    if d.screenWidth != 0 then d.screenWidth else d.raw[0].dims.width
  }

  /** `lsd.height || rawFrames[0].dims.height`. */
  function CanvasHeight(d: Decoded): nat
    requires d.Parsed? && d.raw != []
  {
    if d.screenHeight != 0 then d.screenHeight else d.raw[0].dims.height
  }
}
