/** The frame pipeline of `phosphorizer.js` (`createRarityGif`), modelled
    as the sequence of calls it makes on the GIF encoder.

    The image library is a pair of collaborators: the outcome of reading
    and decoding the input (an image and its dimensions, or an error), and
    a compositing function that may fail. Images are values of the type
    parameter `Img`; `image.clone()` is the identity on values, so every
    frame starts from the untouched base image. */
module Pipeline {
  import opened Wrappers
  import opened Overlay

  const FrameCount: nat := 20
  const Repeat: int := 0
  const DelayMs: nat := 100
  const Quality: nat := 10

  /** One call on the encoder or on its output stream. */
  datatype Event<Img> =
    | Create(width: nat, height: nat)
    | Pipe(path: string)
    | Start
    | SetRepeat(repeat: int)
    | SetDelay(delay: nat)
    | SetQuality(quality: nat)
    | AddFrame(frame: Img)
    | Finish

  /** `Completed` logs success and leaves exit status 0; `Aborted` logs the
      error message and calls `process.exit(1)`. */
  datatype Status = Completed | Aborted(message: string)

  function ExitCode(s: Status): nat {
    if s.Completed? then 0 else 1
  }

  datatype Run<Img> = Run(events: seq<Event<Img>>, status: Status)

  /** The decoded input image and its metadata. */
  datatype Decoded<Img> = Decoded(image: Img, canvas: Canvas)

  /** One `composite` input: the overlay and its blend mode. */
  datatype Layer = Layer(input: Scene, blend: BlendMode)

  /** The collaborators consulted once per frame: `Math.sin` for the
      overlay, and `sharp`'s composite-then-`toBuffer`. */
  datatype Host<!Img> = Host(sin: real -> real, composite: (Img, Layer) -> Result<Img, string>)

  /** The encoder calls made before the frame loop, in order. */
  function ConfigEvents<Img>(canvas: Canvas, outputPath: string): seq<Event<Img>> {
    [Create(canvas.width, canvas.height), Pipe(outputPath), Start,
     SetRepeat(Repeat), SetDelay(DelayMs), SetQuality(Quality)]
  }

  /** The buffer handed to `addFrame` for `frame`: the overlay composited
      over the base image with blend mode `over`. It depends only on the
      base image and the frame index. */
  function RenderFrame<Img>(d: Decoded<Img>, rarity: string, frame: nat, host: Host<Img>)
    : Result<Img, string>
  {
    var overlay :- GenerateFrameOverlay(d.canvas, rarity, frame, host.sin);
    host.composite(d.image, Layer(overlay, Over))
  }

  /** The per-frame renderer of one run: frame `k`'s buffer depends only
      on the base image and `k`. */
  function Renderer<Img>(d: Decoded<Img>, rarity: string, host: Host<Img>): nat -> Result<Img, string> {
    (k: nat) => RenderFrame(d, rarity, k, host)
  }

  /** The frame loop from `frame` on, given the events emitted so far:
      the first error ends the run, otherwise `finish` follows frame 19. */
  function FrameLoop<Img>(render: nat -> Result<Img, string>, frame: nat, events: seq<Event<Img>>)
    : Run<Img>
    requires frame <= FrameCount
    decreases FrameCount - frame
  {
    if frame == FrameCount then Run(events + [Finish], Completed)
    else
      match render(frame)
      case Failure(e) => Run(events, Aborted(e))
      case Success(buffer) => FrameLoop(render, frame + 1, events + [AddFrame(buffer)])
  }

  /** The whole of `createRarityGif` as a function of its collaborators'
      answers. */
  function RarityGifRun<Img>(decoded: Result<Decoded<Img>, string>, rarity: string,
                             outputPath: string, host: Host<Img>): Run<Img>
  {
    match decoded
    case Failure(e) => Run([], Aborted(e))
    case Success(d) => FrameLoop(Renderer(d, rarity, host), 0, ConfigEvents(d.canvas, outputPath))
  }

  /** `createRarityGif`: configure the encoder, add twenty frames, finish. */
  method CreateRarityGif<Img>(decoded: Result<Decoded<Img>, string>, rarity: string,
                              outputPath: string, host: Host<Img>)
    returns (run: Run<Img>)
    ensures run == RarityGifRun(decoded, rarity, outputPath, host)
    ensures decoded.Failure? ==> run == Run([], Aborted(decoded.error))
    ensures decoded.Success? ==>
      |run.events| >= 6 && run.events[..6] == ConfigEvents(decoded.value.canvas, outputPath)
    ensures run.status.Completed? ==>
      |run.events| == 6 + FrameCount + 1 && run.events[6 + FrameCount] == Finish
    ensures run.status.Aborted? ==> Finish !in run.events && ExitCode(run.status) == 1
  {
    if decoded.Failure? {
      return Run([], Aborted(decoded.error));
    }
    var d := decoded.value;
    ghost var render := Renderer(d, rarity, host);
    var events := ConfigEvents(d.canvas, outputPath);
    var frame := 0;
    while frame < FrameCount
      invariant frame <= FrameCount
      invariant FrameLoop(render, frame, events) == FrameLoop(render, 0, ConfigEvents(d.canvas, outputPath))
    {
      var overlay := GenerateFrameOverlay(d.canvas, rarity, frame, host.sin);
      if overlay.Failure? {
        run := Run(events, Aborted(overlay.error));
        RunShape(decoded, rarity, outputPath, host);
        return;
      }
      var buffer := host.composite(d.image, Layer(overlay.value, Over));
      assert render(frame) == buffer;
      if buffer.Failure? {
        run := Run(events, Aborted(buffer.error));
        RunShape(decoded, rarity, outputPath, host);
        return;
      }
      events := events + [AddFrame(buffer.value)];
      frame := frame + 1;
    }
    events := events + [Finish];
    run := Run(events, Completed);
    RunShape(decoded, rarity, outputPath, host);
  }

  /** `out` extends `prefix` by one `AddFrame` per frame in [from, upto),
      in frame order, each carrying that frame's rendered buffer. */
  ghost predicate FramesAppended<Img>(render: nat -> Result<Img, string>, prefix: seq<Event<Img>>,
                                      from: nat, upto: nat, out: seq<Event<Img>>)
  {
    && from <= upto
    && |out| == |prefix| + (upto - from)
    && out[..|prefix|] == prefix
    && forall j :: from <= j < upto ==>
         render(j).Success? && out[|prefix| + (j - from)] == AddFrame(render(j).value)
  }

  lemma FramesAppendedStep<Img>(render: nat -> Result<Img, string>, prefix: seq<Event<Img>>,
                                from: nat, upto: nat, out: seq<Event<Img>>)
    requires from < upto && render(from).Success?
    requires FramesAppended(render, prefix + [AddFrame(render(from).value)], from + 1, upto, out)
    ensures FramesAppended(render, prefix, from, upto, out)
  {
    var next := prefix + [AddFrame(render(from).value)];
    assert out[..|prefix|] == out[..|next|][..|prefix|];
  }

  /** The frame loop completes exactly when every remaining frame renders. */
  lemma {:induction false} FrameLoopCompletes<Img>(render: nat -> Result<Img, string>,
                                                  frame: nat, events: seq<Event<Img>>)
    requires frame <= FrameCount
    ensures FrameLoop(render, frame, events).status.Completed?
        <==> forall k :: frame <= k < FrameCount ==> render(k).Success?
    decreases FrameCount - frame
  {
    if frame < FrameCount && render(frame).Success? {
      FrameLoopCompletes(render, frame + 1, events + [AddFrame(render(frame).value)]);
    }
  }

  /** A completed loop has added every remaining frame in order and then
      called `finish` once, last. */
  lemma {:induction false} CompletedLoopShape<Img>(render: nat -> Result<Img, string>,
                                                  frame: nat, events: seq<Event<Img>>)
    requires frame <= FrameCount
    requires FrameLoop(render, frame, events).status.Completed?
    ensures var r := FrameLoop(render, frame, events);
      && |r.events| == |events| + (FrameCount - frame) + 1
      && r.events[|r.events| - 1] == Finish
      && FramesAppended(render, events, frame, FrameCount, r.events[..|r.events| - 1])
    decreases FrameCount - frame
  {
    var r := FrameLoop(render, frame, events);
    if frame == FrameCount {
      assert r.events[..|r.events| - 1] == events;
    } else {
      var next := events + [AddFrame(render(frame).value)];
      CompletedLoopShape(render, frame + 1, next);
      FramesAppendedStep(render, events, frame, FrameCount, r.events[..|r.events| - 1]);
    }
  }

  /** An aborted loop stopped at the first frame that failed to render:
      it added the frames before it, in order, and reports its error. */
  lemma {:induction false} AbortedLoopShape<Img>(render: nat -> Result<Img, string>,
                                                frame: nat, events: seq<Event<Img>>)
    requires frame <= FrameCount
    requires FrameLoop(render, frame, events).status.Aborted?
    ensures var r := FrameLoop(render, frame, events);
      var k := frame + (|r.events| - |events|);
      && |events| <= |r.events|
      && k < FrameCount
      && FramesAppended(render, events, frame, k, r.events)
      && render(k).Failure?
      && r.status.message == render(k).error
    decreases FrameCount - frame
  {
    var r := FrameLoop(render, frame, events);
    if render(frame).Failure? {
      assert r.events[..|events|] == events;
    } else {
      var next := events + [AddFrame(render(frame).value)];
      AbortedLoopShape(render, frame + 1, next);
      var k := frame + 1 + (|r.events| - |next|);
      FramesAppendedStep(render, events, frame, k, r.events);
    }
  }

  /** Appending frames adds no `finish`. */
  lemma AppendedFramesAreFrames<Img>(render: nat -> Result<Img, string>, prefix: seq<Event<Img>>,
                                     from: nat, upto: nat, out: seq<Event<Img>>)
    requires FramesAppended(render, prefix, from, upto, out)
    ensures forall i :: |prefix| <= i < |out| ==> out[i].AddFrame?
    ensures Finish !in prefix ==> Finish !in out
  {
    forall i | |prefix| <= i < |out|
      ensures out[i].AddFrame?
    {
      var j := from + (i - |prefix|);
      assert out[|prefix| + (j - from)] == AddFrame(render(j).value);
    }
    if Finish !in prefix {
      forall i | 0 <= i < |out|
        ensures out[i] != Finish
      {
        if i < |prefix| {
          assert out[i] == out[..|prefix|][i];
        }
      }
    }
  }

  /** A run succeeds exactly when the image decodes and every one of the
      twenty frames renders. */
  lemma RunCompletes<Img>(decoded: Result<Decoded<Img>, string>, rarity: string,
                          outputPath: string, host: Host<Img>)
    ensures RarityGifRun(decoded, rarity, outputPath, host).status.Completed? <==>
      decoded.Success? && forall k :: 0 <= k < FrameCount ==> RenderFrame(decoded.value, rarity, k, host).Success?
  {
    if decoded.Success? {
      var render := Renderer(decoded.value, rarity, host);
      FrameLoopCompletes(render, 0, ConfigEvents(decoded.value.canvas, outputPath));
      assert forall k :: 0 <= k < FrameCount ==> render(k) == RenderFrame(decoded.value, rarity, k, host);
    }
  }

  /** A successful run: the six configuration calls, then exactly twenty
      `addFrame` calls carrying frames 0..19 in order, then one `finish`
      and nothing after it. */
  lemma SuccessfulRun<Img>(d: Decoded<Img>, rarity: string, outputPath: string, host: Host<Img>)
    requires RarityGifRun(Success(d), rarity, outputPath, host).status.Completed?
    ensures var run := RarityGifRun(Success(d), rarity, outputPath, host);
      && ExitCode(run.status) == 0
      && |run.events| == 6 + FrameCount + 1
      && run.events[..6] == ConfigEvents(d.canvas, outputPath)
      && (forall k :: 0 <= k < FrameCount ==>
            RenderFrame(d, rarity, k, host).Success?
            && run.events[6 + k] == AddFrame(RenderFrame(d, rarity, k, host).value))
      && run.events[6 + FrameCount] == Finish
  {
    var render := Renderer(d, rarity, host);
    var config := ConfigEvents<Img>(d.canvas, outputPath);
    CompletedLoopShape(render, 0, config);
    var run := FrameLoop(render, 0, config);
    var body := run.events[..|run.events| - 1];
    assert run.events[..6] == body[..6];
    forall k | 0 <= k < FrameCount
      ensures RenderFrame(d, rarity, k, host).Success?
      ensures run.events[6 + k] == AddFrame(RenderFrame(d, rarity, k, host).value)
    {
      assert run.events[6 + k] == body[|config| + (k - 0)];
      assert render(k) == RenderFrame(d, rarity, k, host);
    }
  }

  /** A failing run after a successful decode stops at the first frame
      `k` whose overlay or composite fails: it has configured the encoder
      and added exactly the frames before `k`, in order, and reports frame
      `k`'s error. */
  lemma FailingRun<Img>(d: Decoded<Img>, rarity: string, outputPath: string, host: Host<Img>)
    requires RarityGifRun(Success(d), rarity, outputPath, host).status.Aborted?
    ensures var run := RarityGifRun(Success(d), rarity, outputPath, host);
      var k := |run.events| - 6;
      && 0 <= k < FrameCount
      && run.events[..6] == ConfigEvents(d.canvas, outputPath)
      && (forall j :: 0 <= j < k ==>
            RenderFrame(d, rarity, j, host).Success?
            && run.events[6 + j] == AddFrame(RenderFrame(d, rarity, j, host).value))
    ensures var run := RarityGifRun(Success(d), rarity, outputPath, host);
      var k := |run.events| - 6;
      && RenderFrame(d, rarity, k, host).Failure?
      && run.status.message == RenderFrame(d, rarity, k, host).error
  {
    var render := Renderer(d, rarity, host);
    var config := ConfigEvents<Img>(d.canvas, outputPath);
    AbortedLoopShape(render, 0, config);
    var run := FrameLoop(render, 0, config);
    FailedPrefix(render, config, |run.events| - 6, run.events);
    var k := |run.events| - 6;
    forall j | 0 <= j < k
      ensures RenderFrame(d, rarity, j, host).Success?
      ensures run.events[6 + j] == AddFrame(RenderFrame(d, rarity, j, host).value)
    {
      assert render(j) == RenderFrame(d, rarity, j, host);
    }
    assert render(k) == RenderFrame(d, rarity, k, host);
  }

  /** Frames appended from frame 0 onto the six set-up calls sit at
      positions 6 + j. */
  lemma FailedPrefix<Img>(render: nat -> Result<Img, string>, config: seq<Event<Img>>,
                          k: nat, out: seq<Event<Img>>)
    requires |config| == 6 && FramesAppended(render, config, 0, k, out)
    ensures out[..6] == config
    ensures forall j :: 0 <= j < k ==> render(j).Success? && out[6 + j] == AddFrame(render(j).value)
  {
    forall j | 0 <= j < k
      ensures render(j).Success? && out[6 + j] == AddFrame(render(j).value)
    {
      assert out[6 + j] == out[|config| + (j - 0)];
    }
  }

  /** A failing run never calls `finish` and exits with status 1; if the
      image does not decode, it makes no encoder call at all. */
  lemma AbortedRunNeverFinishes<Img>(decoded: Result<Decoded<Img>, string>, rarity: string,
                                     outputPath: string, host: Host<Img>)
    requires RarityGifRun(decoded, rarity, outputPath, host).status.Aborted?
    ensures var run := RarityGifRun(decoded, rarity, outputPath, host);
      && ExitCode(run.status) == 1
      && Finish !in run.events
      && (decoded.Failure? ==> run.events == [] && run.status.message == decoded.error)
  {
    if decoded.Success? {
      var d := decoded.value;
      var render := Renderer(d, rarity, host);
      var config := ConfigEvents<Img>(d.canvas, outputPath);
      AbortedLoopShape(render, 0, config);
      var run := FrameLoop(render, 0, config);
      AppendedFramesAreFrames(render, config, 0, |run.events| - 6, run.events);
    }
  }

  /** An unknown effect name is noticed only when frame 0's overlay is
      generated: by then the encoder has been created, piped, started and
      configured, but no frame is added and `finish` is never called. */
  lemma UnknownEffectRun<Img>(d: Decoded<Img>, rarity: string, outputPath: string, host: Host<Img>)
    requires !IsSupported(rarity)
    ensures RarityGifRun(Success(d), rarity, outputPath, host)
         == Run(ConfigEvents(d.canvas, outputPath), Aborted(UnsupportedMessage))
  {
    assert Renderer(d, rarity, host)(0) == Failure(UnsupportedMessage);
  }

  /** The shape every run has: the set-up calls first after a good decode,
      twenty frames and a final `finish` on success, no `finish` and exit
      status 1 on failure. */
  lemma RunShape<Img>(decoded: Result<Decoded<Img>, string>, rarity: string,
                      outputPath: string, host: Host<Img>)
    ensures var run := RarityGifRun(decoded, rarity, outputPath, host);
      decoded.Success? ==>
        |run.events| >= 6 && run.events[..6] == ConfigEvents(decoded.value.canvas, outputPath)
    ensures var run := RarityGifRun(decoded, rarity, outputPath, host);
      run.status.Completed? ==>
        |run.events| == 6 + FrameCount + 1 && run.events[6 + FrameCount] == Finish
    ensures var run := RarityGifRun(decoded, rarity, outputPath, host);
      run.status.Aborted? ==> Finish !in run.events && ExitCode(run.status) == 1
  {
    var run := RarityGifRun(decoded, rarity, outputPath, host);
    if run.status.Completed? {
      SuccessfulRun(decoded.value, rarity, outputPath, host);
    } else {
      AbortedRunNeverFinishes(decoded, rarity, outputPath, host);
      if decoded.Success? {
        FailingRun(decoded.value, rarity, outputPath, host);
      }
    }
  }
}
