# Phosphorizer, modelled in Dafny

Phosphorizer is a small Node script (`phosphorizer.js`). It turns a still
image into a 20-frame looping GIF. Each frame is the image with a
generated overlay composited on top, in one of three effects: `scanlines`,
`glow-pulse` or `rgb-shift`. This project models its three pieces of
sequential logic:

- `overlay.dfy`, module `Overlay`: the overlay synthesizer
  `generateFrameOverlay`. It dispatches on the effect name and builds a
  scene. A scene is a tagged value with one variant per effect, and it
  carries the paint parameters that the SVG text spells out.
- `pipeline.dfy`, module `Pipeline`: `createRarityGif`, modelled as the
  sequence of calls it makes on the GIF encoder (`Create`, `Pipe`,
  `Start`, `SetRepeat(0)`, `SetDelay(100)`, `SetQuality(10)`, `AddFrame`
  ×20, `Finish`) together with its exit status. `FrameLoop` is a
  functional reference definition of that sequence. The method
  `CreateRarityGif` is the imperative loop, and it is proved equal to the
  reference.
- `cli.dfy`, module `Cli`: argument defaults, the output name and its
  `.gif` suffix, and the hand-off to the pipeline.
- `wrappers.dfy`, module `Wrappers`: the `Result` type used for
  everything that can throw.

Collaborators the model cannot see are parameters:

- the outcome of reading and decoding the input file (`load`, or
  `decoded`);
- `sharp`'s composite-then-`toBuffer` (`Host.composite`, which may fail);
- `Math.sin` (`Host.sin`);
- `path.parse(...).name` (`stem`).

Images are values of a type parameter, so `image.clone()` is the identity.
Each frame is therefore computed from the untouched base image.
`RenderFrame(d, rarity, k, host)` depends only on the base image and `k`.

Facts about the script that the model keeps:

- The effect name is checked only when frame 0's overlay is generated
  (line 24). By then the encoder has been created, piped to the output
  file, started and configured (lines 15-20). Such a run adds no frame,
  never calls `finish`, and exits with status 1
  (`Pipeline.UnknownEffectRun`).
- `scanlines` draws one horizontal line whose y position moves down a
  tenth of the canvas per frame and wraps every ten frames.
- The glow hue is `18 * frame`, so over frames 0..19 it runs from 0 to
  342. The glow opacity `0.4 + 0.5 * sin(frame * 0.5)` is used as is,
  with no clamping.
- In `rgb-shift` both `feOffset` primitives take `SourceGraphic` as input,
  which is the overlay's own rectangle; the model records the offsets and
  the blend mode as the script writes them.

## Model

| member | source | states |
|---|---|---|
| Overlay.ParseEffect | phosphorizer.js:47-81 | exactly `scanlines`, `glow-pulse` and `rgb-shift` are accepted, each naming its effect; every other name fails with the message listing those three |
| Overlay.ParseEffectName | phosphorizer.js:47-81 | each effect's name is accepted as that same effect |
| Overlay.GenerateFrameOverlay | phosphorizer.js:44-83 | an overlay is produced iff the name is one of the three; it covers the given canvas and is the variant of the named effect; otherwise the error carries the supported-effects message |
| Overlay.UnsupportedEffectFails | phosphorizer.js:80-81 | any other name fails with that message for every canvas and frame |
| Overlay.JsRemainder | phosphorizer.js:49 | JavaScript `%` takes the dividend's sign, its magnitude is the Euclidean remainder of the operands' magnitudes, and it agrees with the Euclidean remainder for non-negative dividends |
| Overlay.TenthsRemainder | phosphorizer.js:49 | `(frame * height) % (10 * height)` is `(frame mod 10) * height`, the scan position in tenths of a pixel |
| Overlay.ScanY | phosphorizer.js:49 | the scan line's y is in [0, height) and 10·y = (frame mod 10)·height |
| Overlay.ScanlinesScene | phosphorizer.js:48-54 | scan lines: a full-canvas black wash at alpha 0.7, and one horizontal line from x=0 to x=width at that y, stroke #00ff00, width 3, opacity 0.9, none of which depend on the frame |
| Overlay.ScanlinesPeriodic | phosphorizer.js:49-54 | the scan-line overlay for frame f+10 equals the one for frame f |
| Overlay.GlowPulseScene | phosphorizer.js:56-67 | glow pulse: an unfilled full-canvas rectangle with stroke hsl(18·frame, 100%, 50%), width 15, blur stdDeviation 5, filter region -20%/-20%/140%/140%, and opacity 0.4 + 0.5·sin(0.5·frame) passed through as is |
| Overlay.GlowHueRange | phosphorizer.js:65 | for frames f < g < 20 the hues satisfy 0 ≤ hue(f) < hue(g) ≤ 342 |
| Overlay.GlowOpacityUnclamped | phosphorizer.js:57 | the opacity is not clamped: it is below 0 exactly when sin(0.5·frame) < -0.8, and above 1 exactly when sin(0.5·frame) > 1.2 |
| Overlay.RgbShiftScene | phosphorizer.js:69-78 | RGB shift: the offsets are (-o, o) and (o, -o) for o = 5·sin(π·frame/20), exact negations of each other, blended with `screen` at opacity 0.7 |
| Pipeline.CreateRarityGif | phosphorizer.js:7-42 | the imperative run (decode check, encoder set-up, 20-iteration frame loop, finish) produces exactly the reference event sequence and status: a decode failure makes no encoder call; otherwise the six set-up calls come first; success has 27 events ending in `finish`; failure has no `finish` and exit status 1 |
| Pipeline.RunShape | phosphorizer.js:12-41 | after a good decode every run starts with the six set-up calls; a completed run is 27 events ending in `finish`; an aborted run contains no `finish` and exits with status 1 |
| Pipeline.FrameLoopCompletes | phosphorizer.js:23-36 | the frame loop completes iff every remaining frame's overlay and composite succeed |
| Pipeline.CompletedLoopShape | phosphorizer.js:23-36 | a completed loop appends one `addFrame` per remaining frame, in frame order and carrying that frame's buffer, then exactly one `finish`, last |
| Pipeline.AbortedLoopShape | phosphorizer.js:23-41 | an aborted loop stops at the first failing frame k: it has appended frames before k in order, and reports frame k's error |
| Pipeline.RunCompletes | phosphorizer.js:8-36 | a run succeeds iff the image decodes and every one of the 20 frames renders |
| Pipeline.SuccessfulRun | phosphorizer.js:12-36 | a successful run is the six set-up calls (dimensions, output, start, repeat 0, delay 100, quality 10), exactly 20 `addFrame` calls for frames 0..19 in order, each carrying that frame's overlay composited over the base image, and one final `finish`, with exit status 0 |
| Pipeline.FailingRun | phosphorizer.js:12-41 | after a good decode, a failing run is the six set-up calls plus exactly k `addFrame` calls for frames 0..k-1, where frame k is the first whose overlay or composite fails, and its message is that error |
| Pipeline.AbortedRunNeverFinishes | phosphorizer.js:8-41 | a failing run never calls `finish` and exits with status 1; a decode failure makes no encoder call at all |
| Pipeline.UnknownEffectRun | phosphorizer.js:15-24 | an unknown effect yields exactly the six set-up calls, no frame, and the supported-effects error |
| Pipeline.FailedPrefix | phosphorizer.js:23-34 | frames appended from frame 0 after the six set-up calls sit at positions 6 + j, frame j's buffer at each |
| Pipeline.AppendedFramesAreFrames | phosphorizer.js:23-34 | the frame loop appends nothing but `addFrame` calls, so it never introduces a `finish` |
| Cli.WithGifExtension | phosphorizer.js:106-109 | the output name ends with `.gif`; it is the given name unchanged iff that already ends with `.gif` (case-sensitive), and otherwise the given name with exactly `.gif` appended |
| Cli.WithGifExtensionIdempotent | phosphorizer.js:106-109 | applying the suffix rule twice gives the same name as applying it once |
| Cli.ArgumentOr | phosphorizer.js:102-104 | `argv[i] || fallback` yields the entry exactly when it is present and non-empty, and the fallback otherwise |
| Cli.ResolveArguments | phosphorizer.js:86-109 | fewer than 3 argv entries means usage; otherwise the input is argv[2]; the effect is argv[3], or `scanlines` when it is absent or empty; the output ends with `.gif`; it is `<stem>_<effect>.gif` when argv[4] is absent or empty, and otherwise argv[4] unchanged if it ends with `.gif`, or argv[4] with exactly `.gif` appended |
| Cli.DefaultNameKept | phosphorizer.js:103-109 | the default output name already ends with `.gif` and is used unchanged |
| Cli.Phosphorize | phosphorizer.js:86-111 | a script invocation shows usage with exit status 0 iff there are fewer than 3 argv entries; otherwise it runs the pipeline on the resolved input, effect and output |
| Cli.UnknownEffectExits | phosphorizer.js:101-111 | an unsupported effect argument with a decodable input configures the encoder on the `.gif` output, adds no frame, and exits with status 1 and the supported-effects message |
| Cli.SupportedEffectSucceeds | phosphorizer.js:101-111 | a supported effect argument, a decodable input and compositing that never fails give exit status 0: the six set-up calls on the resolved `.gif` output, then `addFrame` for frames 0..19 in order, each carrying that frame's composited buffer, then one final `finish` |
| Cli.EveryFrameRenders | phosphorizer.js:23-31 | with a supported effect and compositing that never fails on the base image, all 20 frames render |

## Left out

- File reading, `sharp` decoding and `image.metadata()` (lines 10-12) are one caller-supplied outcome: a decoded image with its dimensions, or an error message.
- Overlay.Pixels: decoded images are taken to have positive width and height. With a height of 0, line 49 would compute `NaN`; that case is not modelled.
- SVG rasterisation, compositing and `toBuffer()` (lines 25-31) are the caller-supplied `composite`, which may fail. The blend mode `over` is recorded in the layer passed to it.
- `gifencoder` internals are not modelled: LZW coding, palette quantisation, and the frame timing of the Graphic Control Extension (section 23 of the GIF89a specification). Its calls appear only as trace events. The model assumes that `addFrame` and `finish` do not throw, because that code is not part of this model.
- The write stream and `pipe` (line 16) appear only as the `Pipe(outputPath)` event. Stream errors are asynchronous and outside the `try`, and the stream has no `error` listener, so an unwritable output path crashes the process with a non-zero status; the model instead reports `Completed` with exit status 0 for such a run.
- Console output is not modelled: the usage text, the success message, and the logged error. The error message is kept as the `Aborted` status, and `process.exit` as the exit code.
- `Math.sin` values are uninterpreted (`Host.sin`). `Math.PI` is the shortest decimal that JavaScript prints for it, which denotes the same double.
- Overlay.ScanY: the value is exact, with no modelling of double rounding in `frame * height / 10`. It is computed in tenths of a pixel, which equals the exact real `(frame * height / 10) % height`.
- SVG text formatting and number-to-string conversion are not modelled; a scene is a datatype. The `rgb-shift` rectangle's default black fill is left implicit.
- `path.parse(input).name` is the caller-supplied `stem`.
- `createRarityGif` is asynchronous and not awaited at line 111. Execution is strictly sequential, so no concurrency is modelled.
