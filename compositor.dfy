/** The frame compositor of the web view: turns the raw, disposal-tagged
    patches of a decoded GIF into full logical-canvas RGBA frames, in one
    pass, with the replace-or-skip alpha rule and GIF89a disposal methods. */
module Compositor {
  import opened Raster

  /** Patch rectangle of a raw frame, in logical-screen pixels (`rf.dims`). */
  datatype Rect = Rect(left: nat, top: nat, width: nat, height: nat)

  /** A frame as the external GIF decoder hands it over: the patch rectangle,
      its RGBA bytes (row-major, `width*height*4` of them), the GIF89a
      disposal method and the delay in milliseconds (0 when absent). */
  datatype RawFrame = RawFrame(dims: Rect, patch: seq<Byte>, disposalType: int, delay: nat)

  /** A full-canvas frame ready for display, with its playback delay. */
  datatype ComposedFrame = ComposedFrame(pixels: seq<Byte>, delay: int)

  /** Smallest delay a composed frame is given, in milliseconds. */
  const MinDelay := 10

  predicate InRect(r: Rect, x: nat, y: nat)
  {
    r.left <= x < r.left + r.width && r.top <= y < r.top + r.height
  }

  predicate RectInCanvas(r: Rect, w: nat, h: nat)
  {
    r.left + r.width <= w && r.top + r.height <= h
  }

  predicate PatchSized(f: RawFrame)
  {
    |f.patch| == f.dims.width * f.dims.height * 4
  }

  /** What the compositor needs of a raw frame: a patch of the announced size
      whose rectangle lies inside the canvas (the source does not clamp). */
  predicate FitsCanvas(f: RawFrame, w: nat, h: nat)
  {
    PatchSized(f) && RectInCanvas(f.dims, w, h)
  }

  predicate AllPatchSized(raw: seq<RawFrame>)
  {
    forall k :: 0 <= k < |raw| ==> PatchSized(raw[k])
  }

  predicate AllFitCanvas(raw: seq<RawFrame>, w: nat, h: nat)
  {
    forall k :: 0 <= k < |raw| ==> FitsCanvas(raw[k], w, h)
  }

  /** `Math.max(10, rf.delay || 0)`. */
  function FrameDelay(rawDelay: nat): (d: int)
    ensures d >= MinDelay && d >= rawDelay
    ensures d == MinDelay || d == rawDelay
  {
    if rawDelay > MinDelay then rawDelay else MinDelay
  }

  /** Byte `i` of a canvas `w` pixels wide belongs to a pixel inside `r`. */
  predicate Covers(r: Rect, w: nat, i: nat)
    requires w > 0
  {
    InRect(r, PixelX(w, i), PixelY(w, i))
  }

  /** Offset in the patch of channel `c` of the patch pixel drawn onto byte `i`. */
  function PatchOffset(r: Rect, w: nat, i: nat, c: nat): (o: nat)
    requires w > 0 && Covers(r, w, i) && c < 4
    ensures o < r.width * r.height * 4
  {
    OffsetBound(r.width, r.height, PixelX(w, i) - r.left, PixelY(w, i) - r.top, c);
    Offset(r.width, PixelX(w, i) - r.left, PixelY(w, i) - r.top, c)
  }

  /** Byte `i` is under a patch pixel whose alpha is not zero. */
  predicate Opaque(f: RawFrame, w: nat, i: nat)
    requires w > 0 && PatchSized(f)
  {
    Covers(f.dims, w, i) && f.patch[PatchOffset(f.dims, w, i, 3)] != 0
  }

  /** The canvas after drawing the patch of `f` over `base`: a patch pixel
      with alpha 0 leaves the four bytes beneath it, any other one replaces
      all four; bytes outside the rectangle are those of `base`. */
  function Draw(base: seq<Byte>, f: RawFrame, w: nat): (r: seq<Byte>)
    requires w > 0 && PatchSized(f)
  {
    seq(|base|, i requires 0 <= i < |base| =>
      if Opaque(f, w, i) then f.patch[PatchOffset(f.dims, w, i, Channel(i))] else base[i])
  }

  /** `s` with every byte of the rectangle `r` set to 0 (transparent black). */
  function Cleared(s: seq<Byte>, r: Rect, w: nat): (t: seq<Byte>)
    requires w > 0
  {
    seq(|s|, i requires 0 <= i < |s| => if Covers(r, w, i) then 0 else s[i])
  }

  /** A fully transparent canvas of `n` bytes. */
  function Blank(n: nat): (s: seq<Byte>)
  {
    seq(n, _ => 0)
  }

  /** The base the next frame is drawn on, chosen by this frame's disposal
      method: 2 restores the rectangle to transparent, 3 restores the base
      this frame was drawn on, 0, 1 and every other value keep the drawing. */
  function NextBase(base: seq<Byte>, drawn: seq<Byte>, f: RawFrame, w: nat): seq<Byte>
    requires w > 0
  {
    match f.disposalType
    case 2 => Cleared(drawn, f.dims, w)
    case 3 => base
    case _ => drawn
  }

  /** The composed frames of `raw` when the first is drawn over `base`. */
  function ComposeFrom(base: seq<Byte>, raw: seq<RawFrame>, w: nat): (out: seq<ComposedFrame>)
    requires w > 0 && AllPatchSized(raw)
    ensures |out| == |raw|
    ensures forall k :: 0 <= k < |out| ==> |out[k].pixels| == |base|
    ensures forall k :: 0 <= k < |out| ==> out[k].delay == FrameDelay(raw[k].delay)
    decreases |raw|
  {
    if raw == [] then []
    else
      var drawn := Draw(base, raw[0], w);
      [ComposedFrame(drawn, FrameDelay(raw[0].delay))]
        + ComposeFrom(NextBase(base, drawn, raw[0], w), raw[1..], w)
  }

  /** The base frame `k` of `raw` is drawn on, when frame 0 is drawn on `base`. */
  function BaseBefore(base: seq<Byte>, raw: seq<RawFrame>, w: nat, k: nat): (b: seq<Byte>)
    requires w > 0 && k <= |raw| && AllPatchSized(raw)
    ensures |b| == |base|
    decreases k
  {
    if k == 0 then base
    else BaseBefore(NextBase(base, Draw(base, raw[0], w), raw[0], w), raw[1..], w, k - 1)
  }

  /** Sum of the delays of `frames` (`totalDuration`). */
  function TotalDuration(frames: seq<ComposedFrame>): int
  {
    if frames == [] then 0 else frames[0].delay + TotalDuration(frames[1..])
  }

  // ---------------------------------------------------------------------
  // Properties of one frame's drawing and of the disposal rule

  /** Bytes of pixels outside the patch rectangle keep the base's value. */
  lemma {:induction false} DrawOutsideUnchanged(base: seq<Byte>, f: RawFrame, w: nat, h: nat, x: nat, y: nat, c: nat)
    requires w > 0 && |base| == w * h * 4 && FitsCanvas(f, w, h)
    requires x < w && y < h && c < 4 && !InRect(f.dims, x, y)
    ensures Offset(w, x, y, c) < |base| && Draw(base, f, w)[Offset(w, x, y, c)] == base[Offset(w, x, y, c)]
  {
    OffsetBound(w, h, x, y, c);
    OffsetInverse(w, x, y, c);
  }

  /** Alpha punch-through: a patch pixel with alpha 0 leaves all four bytes
      beneath it as they were. */
  lemma {:induction false} DrawTransparentSkips(base: seq<Byte>, f: RawFrame, w: nat, h: nat, x: nat, y: nat, c: nat)
    requires w > 0 && |base| == w * h * 4 && FitsCanvas(f, w, h)
    requires x < w && y < h && c < 4 && InRect(f.dims, x, y)
    ensures Offset(f.dims.width, x - f.dims.left, y - f.dims.top, 3) < |f.patch|
    ensures f.patch[Offset(f.dims.width, x - f.dims.left, y - f.dims.top, 3)] == 0 ==>
      Offset(w, x, y, c) < |base| && Draw(base, f, w)[Offset(w, x, y, c)] == base[Offset(w, x, y, c)]
  {
    OffsetBound(w, h, x, y, c);
    OffsetBound(f.dims.width, f.dims.height, x - f.dims.left, y - f.dims.top, 3);
    OffsetInverse(w, x, y, c);
  }

  /** Replace, never blend: a patch pixel with any alpha other than 0 sets
      all four bytes beneath it to its own four channels. */
  lemma {:induction false} DrawOpaqueReplaces(base: seq<Byte>, f: RawFrame, w: nat, h: nat, x: nat, y: nat, c: nat)
    requires w > 0 && |base| == w * h * 4 && FitsCanvas(f, w, h)
    requires x < w && y < h && c < 4 && InRect(f.dims, x, y)
    ensures Offset(f.dims.width, x - f.dims.left, y - f.dims.top, 3) < |f.patch|
    ensures f.patch[Offset(f.dims.width, x - f.dims.left, y - f.dims.top, 3)] != 0 ==>
      Offset(w, x, y, c) < |base| &&
      Draw(base, f, w)[Offset(w, x, y, c)] == f.patch[Offset(f.dims.width, x - f.dims.left, y - f.dims.top, c)]
  {
    OffsetBound(w, h, x, y, c);
    OffsetBound(f.dims.width, f.dims.height, x - f.dims.left, y - f.dims.top, 3);
    OffsetInverse(w, x, y, c);
  }

  /** Restoring to background zeroes exactly the bytes of the rectangle. */
  lemma {:induction false} ClearedAt(s: seq<Byte>, r: Rect, w: nat, h: nat, x: nat, y: nat, c: nat)
    requires w > 0 && |s| == w * h * 4 && RectInCanvas(r, w, h) && x < w && y < h && c < 4
    ensures Offset(w, x, y, c) < |s|
    ensures Cleared(s, r, w)[Offset(w, x, y, c)] == if InRect(r, x, y) then 0 else s[Offset(w, x, y, c)]
  {
    OffsetBound(w, h, x, y, c);
    OffsetInverse(w, x, y, c);
  }

  /** Frame `k` of the pass is frame `k`'s patch drawn on the base left by
      the frames before it. */
  lemma {:induction false} FrameDrawnOnBase(base: seq<Byte>, raw: seq<RawFrame>, w: nat, k: nat)
    requires w > 0 && AllPatchSized(raw) && k < |raw|
    ensures ComposeFrom(base, raw, w)[k].pixels == Draw(BaseBefore(base, raw, w, k), raw[k], w)
    decreases k
  {
    if k > 0 {
      var next := NextBase(base, Draw(base, raw[0], w), raw[0], w);
      FrameDrawnOnBase(next, raw[1..], w, k - 1);
    }
  }

  /** The base after frame `k` is the one frame `k`'s disposal method picks
      from the base it was drawn on and the frame it produced. */
  lemma {:induction false} BaseAfterFrame(base: seq<Byte>, raw: seq<RawFrame>, w: nat, k: nat)
    requires w > 0 && AllPatchSized(raw) && k < |raw|
    ensures BaseBefore(base, raw, w, k + 1)
      == NextBase(BaseBefore(base, raw, w, k), ComposeFrom(base, raw, w)[k].pixels, raw[k], w)
  {
    FrameDrawnOnBase(base, raw, w, k);
    BaseBeforeNext(base, raw, w, k);
  }

  /** `BaseBefore` one frame further: frame `k`'s disposal applied to the
      base it is drawn on and its drawing. */
  lemma {:induction false} BaseBeforeNext(base: seq<Byte>, raw: seq<RawFrame>, w: nat, k: nat)
    requires w > 0 && AllPatchSized(raw) && k < |raw|
    ensures var b := BaseBefore(base, raw, w, k);
      BaseBefore(base, raw, w, k + 1) == NextBase(b, Draw(b, raw[k], w), raw[k], w)
    decreases k
  {
    if k > 0 {
      var next := NextBase(base, Draw(base, raw[0], w), raw[0], w);
      assert raw[1..][k - 1] == raw[k];
      BaseBeforeNext(next, raw[1..], w, k - 1);
    }
  }

  /** The disposal methods, frame by frame over a whole pass: 3 gives the
      next frame exactly the base this frame was drawn on, 2 gives it this
      frame's output with the rectangle transparent, and 0, 1 and every
      other value give it this frame's output unchanged. */
  lemma {:induction false} DisposalRule(base: seq<Byte>, raw: seq<RawFrame>, w: nat, h: nat, k: nat)
    requires w > 0 && AllPatchSized(raw) && AllFitCanvas(raw, w, h) && k < |raw|
    ensures var out := ComposeFrom(base, raw, w);
      && (raw[k].disposalType == 3 ==> BaseBefore(base, raw, w, k + 1) == BaseBefore(base, raw, w, k))
      && (raw[k].disposalType == 2 ==> BaseBefore(base, raw, w, k + 1) == Cleared(out[k].pixels, raw[k].dims, w))
      && (raw[k].disposalType != 2 && raw[k].disposalType != 3 ==> BaseBefore(base, raw, w, k + 1) == out[k].pixels)
  {
    BaseAfterFrame(base, raw, w, k);
  }

  /** The frames of a pass from frame `k` on are the pass that starts from
      frame `k` over the base the earlier frames left. */
  lemma {:induction false} ComposeSuffix(base: seq<Byte>, raw: seq<RawFrame>, w: nat, k: nat)
    requires w > 0 && AllPatchSized(raw) && k <= |raw|
    ensures AllPatchSized(raw[k..])
    ensures ComposeFrom(base, raw, w)[k..] == ComposeFrom(BaseBefore(base, raw, w, k), raw[k..], w)
    decreases k
  {
    SuffixPatchSized(raw, k);
    if k > 0 {
      var next := NextBase(base, Draw(base, raw[0], w), raw[0], w);
      ComposeTail(base, raw, w);
      ComposeSuffix(next, raw[1..], w, k - 1);
      assert raw[1..][k - 1..] == raw[k..];
      assert ComposeFrom(base, raw, w)[k..] == ComposeFrom(base, raw, w)[1..][k - 1..];
    }
  }

  /** The frames of a pass after the first are the pass over the rest,
      from the base the first frame's disposal leaves. */
  lemma {:induction false} ComposeTail(base: seq<Byte>, raw: seq<RawFrame>, w: nat)
    requires w > 0 && AllPatchSized(raw) && raw != []
    ensures AllPatchSized(raw[1..])
    ensures ComposeFrom(base, raw, w)[1..]
      == ComposeFrom(NextBase(base, Draw(base, raw[0], w), raw[0], w), raw[1..], w)
  {
    SuffixPatchSized(raw, 1);
  }

  /** The base frame `k` is drawn on depends only on the frames before it. */
  lemma {:induction false} BaseBeforePrefix(base: seq<Byte>, raw: seq<RawFrame>, other: seq<RawFrame>, w: nat, k: nat)
    requires w > 0 && AllPatchSized(raw) && AllPatchSized(other)
    requires k <= |raw| && k <= |other| && raw[..k] == other[..k]
    ensures BaseBefore(base, raw, w, k) == BaseBefore(base, other, w, k)
    decreases k
  {
    if k > 0 {
      assert raw[0] == raw[..k][0] == other[..k][0] == other[0];
      assert raw[1..][..k - 1] == raw[..k][1..] == other[..k][1..] == other[1..][..k - 1];
      var next := NextBase(base, Draw(base, raw[0], w), raw[0], w);
      BaseBeforePrefix(next, raw[1..], other[1..], w, k - 1);
    }
  }

  /** A frame with disposal 3 leaves no trace, wherever it stands: the
      frames after frame `k` are those the pass composes when frame `k` is
      removed from it. */
  lemma {:induction false} RestorePreviousLeavesNoTrace(base: seq<Byte>, raw: seq<RawFrame>, w: nat, k: nat)
    requires w > 0 && AllPatchSized(raw) && k < |raw| && raw[k].disposalType == 3
    ensures AllPatchSized(raw[..k] + raw[k + 1..])
    ensures ComposeFrom(base, raw, w)[k + 1..] == ComposeFrom(base, raw[..k] + raw[k + 1..], w)[k..]
  {
    var without := raw[..k] + raw[k + 1..];
    forall j | 0 <= j < |without|
      ensures PatchSized(without[j])
    {
      if j < k {
        assert without[j] == raw[j];
      } else {
        assert without[j] == raw[j + 1];
      }
    }
    assert without[..k] == raw[..k];
    assert without[k..] == raw[k + 1..];
    ComposeSuffix(base, raw, w, k + 1);
    ComposeSuffix(base, without, w, k);
    BaseBeforeNext(base, raw, w, k);
    BaseBeforePrefix(base, raw, without, w, k);
  }

  /** Every delay is at least `MinDelay`, so the total is at least
      `MinDelay` per frame. */
  lemma {:induction false} TotalDurationAtLeast(frames: seq<ComposedFrame>)
    requires forall k :: 0 <= k < |frames| ==> frames[k].delay >= MinDelay
    ensures TotalDuration(frames) >= MinDelay * |frames|
  {
    if frames != [] {
      TotalDurationAtLeast(frames[1..]);
    }
  }

  // ---------------------------------------------------------------------
  // Specification of the source's nested loops, row by row

  /** Byte `i` lies under a patch pixel the loops have reached before
      patch row `y`, column `x`. */
  ghost predicate Reached(r: Rect, w: nat, i: nat, y: nat, x: nat)
    requires w > 0
  {
    Covers(r, w, i) &&
    (PixelY(w, i) - r.top < y || (PixelY(w, i) - r.top == y && PixelX(w, i) - r.left < x))
  }

  ghost function DrawnUpTo(base: seq<Byte>, f: RawFrame, w: nat, y: nat, x: nat): seq<Byte>
    requires w > 0 && PatchSized(f)
  {
    seq(|base|, i requires 0 <= i < |base| =>
      if Reached(f.dims, w, i, y, x) && Opaque(f, w, i)
      then f.patch[PatchOffset(f.dims, w, i, Channel(i))] else base[i])
  }

  ghost function ClearedUpTo(s: seq<Byte>, r: Rect, w: nat, y: nat, x: nat): seq<Byte>
    requires w > 0
  {
    seq(|s|, i requires 0 <= i < |s| => if Reached(r, w, i, y, x) then 0 else s[i])
  }

  /** The pixel at patch row `y`, column `x` owns exactly the four canvas
      bytes from `Offset(w, left + x, top + y, 0)` on. */
  lemma {:induction false} PixelBytes(r: Rect, w: nat, h: nat, y: nat, x: nat, i: nat)
    requires w > 0 && RectInCanvas(r, w, h) && y < r.height && x < r.width
    ensures Offset(w, r.left + x, r.top + y, 3) < w * h * 4
    ensures var o := Offset(w, r.left + x, r.top + y, 0);
      (Covers(r, w, i) && PixelY(w, i) - r.top == y && PixelX(w, i) - r.left == x)
        <==> o <= i < o + 4
    ensures var o := Offset(w, r.left + x, r.top + y, 0);
      o <= i < o + 4 ==> Channel(i) == i - o
  {
    OffsetBound(w, h, r.left + x, r.top + y, 3);
    var o := Offset(w, r.left + x, r.top + y, 0);
    OffsetOf(w, i);
    if o <= i < o + 4 {
      assert i == Offset(w, r.left + x, r.top + y, i - o);
      OffsetInverse(w, r.left + x, r.top + y, i - o);
    }
  }

  /** `s` with the four bytes from `o` on set to the four patch bytes from `si` on. */
  ghost function PixelWritten(s: seq<Byte>, o: nat, patch: seq<Byte>, si: nat): seq<Byte>
    requires o + 3 < |s| && si + 3 < |patch|
  {
    s[o := patch[si]][o + 1 := patch[si + 1]][o + 2 := patch[si + 2]][o + 3 := patch[si + 3]]
  }

  lemma {:induction false} DrawStep(base: seq<Byte>, f: RawFrame, w: nat, h: nat, y: nat, x: nat)
    requires w > 0 && |base| == w * h * 4 && FitsCanvas(f, w, h)
    requires y < f.dims.height && x < f.dims.width
    ensures var o := Offset(w, f.dims.left + x, f.dims.top + y, 0);
      var s := Offset(f.dims.width, x, y, 0);
      o + 3 < |base| && s + 3 < |f.patch| &&
      DrawnUpTo(base, f, w, y, x + 1) ==
        if f.patch[s + 3] == 0 then DrawnUpTo(base, f, w, y, x)
        else PixelWritten(DrawnUpTo(base, f, w, y, x), o, f.patch, s)
  {
    var r := f.dims;
    var o := Offset(w, r.left + x, r.top + y, 0);
    var s := Offset(r.width, x, y, 0);
    OffsetBound(r.width, r.height, x, y, 3);
    OffsetBound(w, h, r.left + x, r.top + y, 3);
    var before := DrawnUpTo(base, f, w, y, x);
    var after := DrawnUpTo(base, f, w, y, x + 1);
    var expected :=
      if f.patch[s + 3] == 0 then before
      else PixelWritten(before, o, f.patch, s);
    forall i | 0 <= i < |base|
      ensures after[i] == expected[i]
    {
      PixelBytes(r, w, h, y, x, i);
      if o <= i < o + 4 {
        assert PatchOffset(r, w, i, 3) == s + 3;
        assert PatchOffset(r, w, i, Channel(i)) == s + (i - o);
      }
    }
  }

  lemma {:induction false} ClearStep(s: seq<Byte>, r: Rect, w: nat, h: nat, y: nat, x: nat)
    requires w > 0 && |s| == w * h * 4 && RectInCanvas(r, w, h)
    requires y < r.height && x < r.width
    ensures var o := Offset(w, r.left + x, r.top + y, 0);
      o + 3 < |s| &&
      ClearedUpTo(s, r, w, y, x + 1) == ClearedUpTo(s, r, w, y, x)[o := 0][o + 1 := 0][o + 2 := 0][o + 3 := 0]
  {
    var o := Offset(w, r.left + x, r.top + y, 0);
    OffsetBound(w, h, r.left + x, r.top + y, 3);
    var after := ClearedUpTo(s, r, w, y, x + 1);
    var expected := ClearedUpTo(s, r, w, y, x)[o := 0][o + 1 := 0][o + 2 := 0][o + 3 := 0];
    forall i | 0 <= i < |s|
      ensures after[i] == expected[i]
    {
      PixelBytes(r, w, h, y, x, i);
    }
  }

  /** The drawing loops start from the base, carry over from the end of one
      patch row to the start of the next, and end with the whole drawing. */
  lemma {:induction false} DrawnRows(base: seq<Byte>, f: RawFrame, w: nat, y: nat)
    requires w > 0 && PatchSized(f)
    ensures DrawnUpTo(base, f, w, 0, 0) == base
    ensures DrawnUpTo(base, f, w, y, f.dims.width) == DrawnUpTo(base, f, w, y + 1, 0)
    ensures DrawnUpTo(base, f, w, f.dims.height, 0) == Draw(base, f, w)
  {
  }

  /** The clearing loops, likewise. */
  lemma {:induction false} ClearedRows(s: seq<Byte>, r: Rect, w: nat, y: nat)
    requires w > 0
    ensures ClearedUpTo(s, r, w, 0, 0) == s
    ensures ClearedUpTo(s, r, w, y, r.width) == ClearedUpTo(s, r, w, y + 1, 0)
    ensures ClearedUpTo(s, r, w, r.height, 0) == Cleared(s, r, w)
  {
  }

  /** One step of the pass: frame `i` is drawn on the current base and the
      rest are composed over the base its disposal leaves. */
  lemma {:induction false} ComposeUnfold(base: seq<Byte>, raw: seq<RawFrame>, w: nat, i: nat)
    requires w > 0 && i < |raw| && AllPatchSized(raw)
    ensures ComposeFrom(base, raw[i..], w)
      == [ComposedFrame(Draw(base, raw[i], w), FrameDelay(raw[i].delay))]
         + ComposeFrom(NextBase(base, Draw(base, raw[i], w), raw[i], w), raw[i + 1..], w)
  {
    assert raw[i..][0] == raw[i];
    assert raw[i..][1..] == raw[i + 1..];
  }

  lemma {:induction false} SuffixPatchSized(raw: seq<RawFrame>, i: nat)
    requires AllPatchSized(raw) && i <= |raw|
    ensures AllPatchSized(raw[i..])
  {
    forall k | 0 <= k < |raw| - i
      ensures PatchSized(raw[i..][k])
    {
      assert raw[i..][k] == raw[i + k];
    }
  }

  /** Associativity of `+`, stated apart so that the compositing loop's
      proof does not search for it among the facts about the buffers. */
  lemma ConcatAssoc<T>(a: seq<T>, b: seq<T>, c: seq<T>)
    ensures a + (b + c) == (a + b) + c
  {
  }

  // ---------------------------------------------------------------------
  // The compositing pass, on fresh buffers as the source allocates them

  /** `new Uint8ClampedArray(a)`: a fresh copy. */
  method CopyBuffer(a: array<Byte>) returns (b: array<Byte>)
    ensures fresh(b) && b[..] == a[..]
  {
    b := new Byte[a.Length](i requires 0 <= i < a.Length reads a => a[i]);
  }

  method WritePixel(buf: array<Byte>, di: nat, patch: seq<Byte>, si: nat)
    requires di + 3 < buf.Length && si + 3 < |patch|
    modifies buf
    ensures buf[..] == PixelWritten(old(buf[..]), di, patch, si)
  {
    buf[di] := patch[si];
    buf[di + 1] := patch[si + 1];
    buf[di + 2] := patch[si + 2];
    buf[di + 3] := patch[si + 3];
  }

  /** Writes the patch of `f` over `buf` (index.ts lines 85-96). */
  method DrawPatch(buf: array<Byte>, f: RawFrame, w: nat, h: nat)
    requires w > 0 && buf.Length == w * h * 4 && FitsCanvas(f, w, h)
    modifies buf
    ensures buf[..] == Draw(old(buf[..]), f, w)
  {
    ghost var base := buf[..];
    DrawnRows(base, f, w, 0);
    for y := 0 to f.dims.height
      invariant buf[..] == DrawnUpTo(base, f, w, y, 0)
    {
      DrawRow(buf, base, f, w, h, y);
      DrawnRows(base, f, w, y);
    }
  }

  /** One patch row of the drawing loops. */
  method DrawRow(buf: array<Byte>, ghost base: seq<Byte>, f: RawFrame, w: nat, h: nat, y: nat)
    requires w > 0 && buf.Length == w * h * 4 && |base| == w * h * 4 && FitsCanvas(f, w, h)
    requires y < f.dims.height && buf[..] == DrawnUpTo(base, f, w, y, 0)
    modifies buf
    ensures buf[..] == DrawnUpTo(base, f, w, y, f.dims.width)
  {
    var left, top, fw := f.dims.left, f.dims.top, f.dims.width;
    for x := 0 to fw
      invariant buf[..] == DrawnUpTo(base, f, w, y, x)
    {
      DrawStep(base, f, w, h, y, x);
      var si := (y * fw + x) * 4;
      var alpha := f.patch[si + 3];
      if alpha == 0 {
        continue;
      }
      var di := ((top + y) * w + (left + x)) * 4;
      WritePixel(buf, di, f.patch, si);
    }
  }

  /** Sets the rectangle `r` of `buf` to transparent (index.ts lines 106-114). */
  method ClearRect(buf: array<Byte>, r: Rect, w: nat, h: nat)
    requires w > 0 && buf.Length == w * h * 4 && RectInCanvas(r, w, h)
    modifies buf
    ensures buf[..] == Cleared(old(buf[..]), r, w)
  {
    ghost var start := buf[..];
    var left, top, fw, fh := r.left, r.top, r.width, r.height;
    ClearedRows(start, r, w, 0);
    for y := 0 to fh
      invariant buf[..] == ClearedUpTo(start, r, w, y, 0)
    {
      for x := 0 to fw
        invariant buf[..] == ClearedUpTo(start, r, w, y, x)
      {
        ClearStep(start, r, w, h, y, x);
        var di := ((top + y) * w + (left + x)) * 4;
        buf[di] := 0;
        buf[di + 1] := 0;
        buf[di + 2] := 0;
        buf[di + 3] := 0;
      }
      ClearedRows(start, r, w, y);
    }
  }

  /** One pass of the compositing loop of `decode` (index.ts lines 70-128):
      the frame drawn over a copy of `baseForNext`, and the base its disposal
      method leaves for the next frame, both in fresh buffers. */
  method ComposeStep(baseForNext: array<Byte>, rf: RawFrame, w: nat, h: nat)
    returns (currentFull: array<Byte>, nextBaseForNext: array<Byte>)
    requires w > 0 && baseForNext.Length == w * h * 4 && FitsCanvas(rf, w, h)
    ensures fresh(currentFull) && fresh(nextBaseForNext)
    ensures nextBaseForNext.Length == w * h * 4
    ensures currentFull[..] == Draw(baseForNext[..], rf, w)
    ensures nextBaseForNext[..] == NextBase(baseForNext[..], currentFull[..], rf, w)
  {
    var disposal := rf.disposalType;
    var previousFrameSnapshot: array?<Byte>;
    if disposal == 3 {
      previousFrameSnapshot := CopyBuffer(baseForNext);
    } else {
      previousFrameSnapshot := null;
    }
    currentFull := CopyBuffer(baseForNext);
    DrawPatch(currentFull, rf, w, h);
    match disposal {
      case 2 =>
        var nextBase := CopyBuffer(currentFull);
        ClearRect(nextBase, rf.dims, w, h);
        nextBaseForNext := nextBase;
      case 3 =>
        // The snapshot was taken above whenever the disposal is 3, so the
        // source's fallback to the drawn frame is never taken.
        if previousFrameSnapshot != null {
          nextBaseForNext := CopyBuffer(previousFrameSnapshot);
        } else {
          assert false;
          nextBaseForNext := CopyBuffer(currentFull);
        }
      case _ =>
        nextBaseForNext := CopyBuffer(currentFull);
    }
  }

  /** The compositing loop of `decode` (index.ts lines 65-129) on a canvas
      of `w` by `h` pixels. */
  method Compose(raw: seq<RawFrame>, w: nat, h: nat) returns (composed: seq<ComposedFrame>)
    requires w > 0 && h > 0
    requires AllFitCanvas(raw, w, h)
    ensures AllPatchSized(raw) && composed == ComposeFrom(Blank(w * h * 4), raw, w)
  {
    assert AllPatchSized(raw) by {
      forall k | 0 <= k < |raw|
        ensures PatchSized(raw[k])
      {
        assert FitsCanvas(raw[k], w, h);
      }
    }
    composed := [];
    var baseForNext := new Byte[w * h * 4](_ => 0);
    assert baseForNext[..] == Blank(w * h * 4);
    assert raw[0..] == raw;
    ghost var whole := ComposeFrom(Blank(w * h * 4), raw, w);
    for i := 0 to |raw|
      invariant baseForNext.Length == w * h * 4
      invariant AllPatchSized(raw[i..])
      invariant whole == composed + ComposeFrom(baseForNext[..], raw[i..], w)
    {
      ghost var base := baseForNext[..];
      var rf := raw[i];
      var currentFull, nextBase := ComposeStep(baseForNext, rf, w, h);
      ghost var drawn := currentFull[..];
      ComposeUnfold(base, raw, w, i);
      ghost var before := composed;
      composed := composed + [ComposedFrame(currentFull[..], FrameDelay(rf.delay))];
      baseForNext := nextBase;
      SuffixPatchSized(raw, i + 1);
      ghost var rest := ComposeFrom(baseForNext[..], raw[i + 1..], w);
      ConcatAssoc(before, [ComposedFrame(drawn, FrameDelay(rf.delay))], rest);
    }
  }
}
