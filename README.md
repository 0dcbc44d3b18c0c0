# GIF viewer web view: compositor and playback, in Dafny

This project models the core of the GIF viewer's web view (`webview-src/index.ts`):

- **The frame compositor.** It runs inside `decode` and turns the raw frames from the GIF decoder into full-canvas RGBA frames in one pass. Each raw frame has a patch rectangle, RGBA patch bytes, a GIF89a disposal method and a delay.
  - Each frame is drawn on a fresh copy of the running base buffer `baseForNext`.
  - A patch pixel with alpha 0 is skipped. Any other patch pixel replaces all four bytes beneath it.
  - The disposal method then picks the next base:
    - 2 clears the rectangle to transparent;
    - 3 restores the base the frame was drawn on;
    - 0, 1 and every other value keep the drawing.
  - Delays are raised to at least 10 ms.
- **The playback state.** This is the module-level state `frames`, `current`, `playing`, `speed`, `lastTimestamp` and `accumulated`, plus:
  - the drift-carrying animation tick `stepPlay`, which makes at most 11 catch-up advances per call;
  - play and pause;
  - prev and next, which wrap around;
  - the progress slider;
  - the speed select box, which clamps to [0.1, 4];
  - the ArrowUp/ArrowDown preset stepping over the speed options of the host page (`src/extension.ts`).

## Layout

- `raster.dfy` (module `Raster`): the byte type and the arithmetic from a pixel coordinate and channel to a byte offset (`((y*w + x)*4 + c)`) and back.
- `compositor.dfy` (module `Compositor`):
  - the raw and composed frame datatypes;
  - per-byte specification functions: `Draw`, `Cleared`, `NextBase`, and `ComposeFrom` for the whole pass;
  - their properties as lemmas;
  - the imperative pass over `array<Byte>` buffers. These are the source's nested `for` loops, fresh copies and disposal `switch`, each method proved against the specification functions.
  - The body of the frame loop (`ComposeStep`), the inner patch loop over one row (`DrawRow`) and the four byte writes (`WritePixel`) are separate methods. The statements are the source's own; the split only keeps each proof small.
- `presets.dfy` (module `Presets`): the ArrowUp/ArrowDown preset lookup as pure functions, with lemmas characterising the preset they pick.
- `playback.dfy` (module `Playback`):
  - the catch-up loop as the function `CatchUp`, with its closed form;
  - the class `Player`, holding the module-level fields and the handlers that update them in place;
  - `Load`, the part of `decode` that installs the composed frames.

Timestamps from `requestAnimationFrame` are arguments of `Player.Tick`. The GIF decoder's result is the argument of `Player.Load`.

### Behaviour worth knowing

- The progress slider handler takes the slider's value as it is (`index.ts` line 231). It does not clamp.
- `play` itself has no "already playing" check. Its callers guard it: `decode` (line 146), the play button (line 213) and the Space key (line 261) call it only when `playing` is false. `Player.Play` models the function on its own, and `Player.TogglePlay` the guarded call.
- A disposal method other than 2 or 3 is treated like 0 and 1 by the `default` branch.
- The fallback at line 121, for a missing snapshot under disposal 3, can never run. The snapshot is always taken at line 75 when the disposal is 3, and `Compositor.ComposeStep` proves that branch dead.

### Behaviour of the code that the model makes explicit

- **A reload with zero frames while playing.** Such a reload sets `frames = []` but leaves `playing` set. The next animation tick still updates `lastTimestamp` and `accumulated`, then throws when it reads `frames[current].delay`. `Player.Tick` returns `Faulted` in that case. The throw also ends the animation, because line 195 never requests the next tick; see `requestAnimationFrame` under "## Left out".
- **A logical screen of width or height 0.** After the `lsd || dims` fallback this makes `new ImageData` throw. The error is caught after `logicalW`/`logicalH` were assigned but before `frames` is. `Player.Load` returns `Failed` with the frames unchanged.

## Model

| member | source | states |
|---|---|---|
| `Raster.OffsetInverse` | webview-src/index.ts:87-90 | The write index `((y*w + x)*4 + c)` of a pixel channel inside a row of width `w` decodes back to exactly that column, row and channel, so distinct pixels never share a byte. |
| `Raster.OffsetOf` | webview-src/index.ts:90 | Every byte of a buffer `w` pixels wide is the offset of one column below `w`, one row and one channel below 4. |
| `Raster.OffsetBound` | webview-src/index.ts:66-90 | A pixel inside a `w` by `h` canvas has all its channel offsets below `w*h*4`, the size of the buffer allocated at line 66. |
| `Compositor.FrameDelay` | webview-src/index.ts:100 | The composed delay is `max(10, delay)`: at least 10, at least the raw delay, and equal to one of the two. |
| `Compositor.ComposeFrom` | webview-src/index.ts:65-129 | The pass gives exactly one composed frame per raw frame. Every composed buffer has as many bytes as the base, `w*h*4` from a blank canvas, whatever the patch sizes. Every delay is `FrameDelay` of that frame's raw delay. |
| `Compositor.DrawOutsideUnchanged` | webview-src/index.ts:81-96 | For a patch rectangle inside the canvas, every byte of a pixel outside it keeps the value of the base the frame was copied from. |
| `Compositor.DrawTransparentSkips` | webview-src/index.ts:87-89 | For a patch rectangle inside the canvas, a patch pixel whose alpha byte is 0 leaves all four bytes beneath it as they were. |
| `Compositor.DrawOpaqueReplaces` | webview-src/index.ts:87-94 | For a patch rectangle inside the canvas, a patch pixel with any other alpha, partial values included, sets all four canvas bytes to its own four channels, with no blending. |
| `Compositor.ClearedAt` | webview-src/index.ts:104-114 | For a rectangle inside the canvas, restoring to background sets every byte of the rectangle to 0 and leaves every other byte unchanged. |
| `Compositor.FrameDrawnOnBase` | webview-src/index.ts:69-100 | Composed frame `k` is frame `k`'s patch drawn on the base left by frames `0..k-1`. |
| `Compositor.BaseAfterFrame` | webview-src/index.ts:103-128 | The base after frame `k` is what frame `k`'s disposal method makes of the base it was drawn on and of its composed output. |
| `Compositor.DisposalRule` | webview-src/index.ts:74-128 | Over a whole pass of frames whose rectangles lie inside the canvas: disposal 3 gives the next frame exactly the base this frame was drawn on; 2 gives this frame's output with the rectangle zeroed; 0, 1 and any other value give this frame's output unchanged. |
| `Compositor.ComposeSuffix` | webview-src/index.ts:69-129 | The frames of a pass from frame `k` on are exactly the pass that starts at frame `k` over the base the frames before it left in `baseForNext`. |
| `Compositor.BaseBeforePrefix` | webview-src/index.ts:69-128 | The base frame `k` is drawn on depends only on frames `0..k-1`: two frame lists that agree there give it the same base. |
| `Compositor.RestorePreviousLeavesNoTrace` | webview-src/index.ts:117-123 | A disposal-3 frame at any position `k` leaves no trace: the frames after it are exactly the frames from position `k` on of the pass with frame `k` removed. |
| `Compositor.TotalDurationAtLeast` | webview-src/index.ts:132 | With every delay at least 10, `totalDuration` is at least 10 per frame, so it is positive whenever there is a frame. |
| `Compositor.CopyBuffer` | webview-src/index.ts:81 | `new Uint8ClampedArray(buf)` is a fresh buffer with the same bytes. |
| `Compositor.WritePixel` | webview-src/index.ts:91-94 | The four writes set exactly the four bytes from `di` on to the four patch bytes from `si` on. |
| `Compositor.DrawRow` | webview-src/index.ts:86-95 | The inner loop over one patch row takes the buffer from "drawn up to row `y`" to "drawn up to row `y + 1`". |
| `Compositor.DrawPatch` | webview-src/index.ts:85-96 | The nested patch loops leave the buffer equal to `Draw` of its old contents. |
| `Compositor.ClearRect` | webview-src/index.ts:106-114 | The nested clearing loops leave the buffer equal to `Cleared` of its old contents. |
| `Compositor.ComposeStep` | webview-src/index.ts:70-128 | One loop pass: the composed buffer is `Draw` of the current base. The new base is `NextBase` of the old base and the drawing, both in fresh buffers. |
| `Compositor.Compose` | webview-src/index.ts:65-129 | The compositing loop returns exactly `ComposeFrom` over a blank `w*h*4` canvas. |
| `Presets.FindIndexAtLeast` | webview-src/index.ts:280 | `findIndex(v => v >= speed)`: -1 exactly when every option is below `speed`. Otherwise it is an option at least `speed` with every earlier option below it. |
| `Presets.SpeedUp` | webview-src/index.ts:279-292 | ArrowUp always picks one of the options. |
| `Presets.SpeedDown` | webview-src/index.ts:298-311 | ArrowDown always picks one of the options. |
| `Presets.SpeedOptionsSorted` | src/extension.ts:148-156 | The option values of the speed box are non-empty and strictly ascending, so the numeric `sort` at lines 279 and 298 leaves them in page order. |
| `Presets.StepFromPreset` | webview-src/index.ts:282-310 | From an exact preset, ArrowUp moves to the next higher preset and stays on the top one. ArrowDown moves to the next lower preset and stays on the bottom one. |
| `Presets.AboveAllGoesToSmallest` | webview-src/index.ts:282-302 | A speed above every preset goes to the smallest preset under both keys. |
| `Presets.SpeedUpIsNextHigher` | webview-src/index.ts:280-291 | For a speed up to the top preset, ArrowUp picks the smallest preset strictly above it, or the top preset when there is none. |
| `Presets.SpeedDownIsNextLower` | webview-src/index.ts:299-310 | For a speed up to the top preset, ArrowDown picks the largest preset strictly below it, or the bottom preset when there is none. |
| `Playback.ClampSpeed` | webview-src/index.ts:235-238 | The select-box speed lies in [0.1, 4], equals the chosen value when that is in range, and is the point of the range nearest to it. |
| `Playback.CatchUp` | webview-src/index.ts:187-193 | The catch-up loop ends on a valid frame index after at most 11 advances. |
| `Playback.CatchUpSpec` | webview-src/index.ts:181-193 | After `k <= 11` advances from frame `start`: `current` is `(start + k) % n` and the time left is the time at entry minus the delays of the frames left. Every advance was taken only because the time left covered the frame being left. The loop stopped because the cap was hit or the time left is below the current frame's delay. |
| `Playback.CatchUpExamples` | webview-src/index.ts:187-193 | Three 100 ms frames: 250 ms ends on frame 2 with 50 ms carried. 1000 ms makes ten advances and ends on frame 1 with nothing carried. 1500 ms is cut off by the cap after 11 advances, on frame 2 with 400 ms carried. |
| `Playback.RunCatchUp` | webview-src/index.ts:187-193 | The `while` loop, run on its own, computes exactly `CatchUp` from the start frame and time. |
| `Playback.NextPrevInverse` | webview-src/index.ts:215-228 | Next and prev keep a valid index valid and undo each other. |
| `Playback.Player.constructor` | webview-src/index.ts:22-31 | Start state: no frames, frame 0, paused, clock fields, total duration and logical size 0. Speed is the injected speed when present and non-zero, else 1. |
| `Playback.Player.Play` | webview-src/index.ts:198-205 | With no frames nothing changes. Otherwise the player is playing with `lastTimestamp` and `accumulated` reset to 0, and `current` is kept. |
| `Playback.Player.Pause` | webview-src/index.ts:206-210 | The player is paused and nothing else changes. |
| `Playback.Player.TogglePlay` | webview-src/index.ts:212-214 | Pauses when playing, otherwise behaves as `Play`. |
| `Playback.Player.Prev` | webview-src/index.ts:215-221 | Pauses, then moves `current` one frame back, wrapping. With no frames `current` is unchanged. |
| `Playback.Player.Next` | webview-src/index.ts:222-228 | Pauses, then moves `current` one frame on, wrapping. With no frames `current` is unchanged. |
| `Playback.Player.Seek` | webview-src/index.ts:229-233 | Pauses and sets `current` to the slider value, unclamped. |
| `Playback.Player.SelectSpeed` | webview-src/index.ts:235-238 | The speed becomes `ClampSpeed` of the selected value. |
| `Playback.Player.SpeedUpKey` | webview-src/index.ts:276-295 | The speed becomes `SpeedUp` of the old speed over the page's options, and is one of them. |
| `Playback.Player.SpeedDownKey` | webview-src/index.ts:296-313 | The speed becomes `SpeedDown` of the old speed over the page's options, and is one of them. |
| `Playback.Player.Tick` | webview-src/index.ts:181-196 | Paused: nothing changes. Playing: `lastTimestamp` becomes the timestamp, and the elapsed time (0 on the first tick after `play`) times `speed` is added to `accumulated`. With frames, `current`, `accumulated` and the advance count are exactly `CatchUp` from there, and the frame index stays valid. With no frames the tick faults after the clock update. |
| `Playback.Player.Load` | webview-src/index.ts:49-153 | Each decode outcome is stated separately. A parse failure changes nothing. No frames empties `frames` and changes nothing else, `totalDuration` included. A zero-size canvas fails after recording the logical size. Otherwise `frames` is `ComposeFrom` over a blank canvas of the logical size, with `totalDuration` their delay sum and the slider max `n-1`. `current` becomes 0 and the player plays, with its clock reset only if it was paused. |

## Left out

- GIF parsing and LZW decompression (`parseGIF`/`decompressFrames` from `gifuct-js`) and base64 decoding with `atob` (`arrayBufferFromBase64`). These are a foreign library and a browser builtin. Their result is the `Decoded` argument of `Player.Load`: a parse failure, or the logical screen size (0 when absent) and the raw frames. A throw from `atob` is the same parse failure.
- The DOM and canvas:
  - `ImageData` objects (a composed frame keeps its byte sequence);
  - `putImageData` in `drawFrame`;
  - button text, `progress.value`, `setInfo` strings and `toFixed`;
  - the `MAX_FRAMES_WARNING` and large-file notices;
  - `recalcScale` and the `ResizeObserver`;
  - canvas resizing.
  None of these affects playback state.
- `requestAnimationFrame`/`cancelAnimationFrame` and `rafHandle`. Ticks are method calls with the timestamp as argument, and the model lets them come at any time. In the page, `play` runs only when `playing` is false (lines 146, 213 and 261), so at most one callback is pending, and `pause` cancels it (line 209). The paused case of `Player.Tick` models the defensive early return at line 182. After a `Faulted` tick the page requests no further tick (line 195 is not reached), while the model still accepts ticks. A later decode that yields frames finds `playing` set and skips `play()` (line 146), so in the page the animation stays frozen until the user pauses and plays again. The model does not capture that frozen state.
- The message listener, the keydown dispatch with its editable-target filter, `copyGif`, and the initial `requestBytes`/`__initialGifBase64` load. These are plumbing that only selects which modelled operation runs.
- Syncing the speed select box to the new speed (`index.ts` lines 293-295, 312-313 and 330-334). This is DOM state only.
- All of `src/extension.ts` except the option values of the speed box; `native/macos-gif-clipboard/main.swift`; `scripts/build-webview.js`. These are host glue.
- Floating point. Timestamps, speed and accumulated time are exact reals. Rounding in `delta * speed` and in the subtraction loop is not modelled.
- `Playback.Player.SelectSpeed`: does not model a non-numeric option value. `Number` would give `NaN`, which passes both comparisons and becomes the speed. The page's options are all numeric.
- `Playback.Player.constructor`: the injected initial speed is `None` when absent or not a number. Nothing in `src/extension.ts` injects one.
- `Presets.SpeedUp`: the preset list is taken in the order the page declares it rather than re-sorted. `Presets.SpeedOptionsSorted` proves that order is already ascending.
- `Presets.SpeedDown`: the same as `Presets.SpeedUp`.
- `Compositor.Compose`: requires every patch to hold `width*height*4` bytes and its rectangle to lie inside the canvas. The source does not check either. A rectangle that overflows the right edge makes the write index of line 90 wrap into the next canvas row, while `Draw` and `Cleared` clip to the rectangle's pixels; the lemmas about single pixels (`Compositor.DrawOutsideUnchanged`, `Compositor.DrawTransparentSkips`, `Compositor.DrawOpaqueReplaces`, `Compositor.ClearedAt`) and `Compositor.DisposalRule` therefore require the rectangle to fit. `Uint8ClampedArray` silently ignores writes past the end of the buffer and reads `undefined` past the end of a short patch; neither is modelled. Patch bytes are 0..255 by their type, so value clamping never applies.
- `Playback.Player.Load`: carries the same requirement on the raw frames whenever the canvas is non-empty.
- `Playback.Player.Seek`: requires the value to lie in `[0, max]` of the range input. The browser keeps a range input's value there, and the handler itself takes whatever value it gets.
