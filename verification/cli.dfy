/** The command-line entry of `phosphorizer.js`: argument defaults, the
    output name and its `.gif` suffix, and the hand-off to
    `createRarityGif`.

    `process.argv` is a sequence of strings whose first two entries are
    the interpreter and the script. `path.parse(input).name` is the
    caller-supplied `stem`, and reading plus decoding the input file is the
    caller-supplied `load`. */
module Cli {
  import opened Wrappers
  import opened Overlay
  import opened Pipeline

  const DefaultEffect: string := "scanlines"
  const GifExtension: string := ".gif"

  predicate EndsWith(s: string, suffix: string) {
    |suffix| <= |s| && s[|s| - |suffix|..] == suffix
  }

  /** The output name with `.gif` appended unless it already ends so
      (the test is case-sensitive). */
  function WithGifExtension(name: string): (r: string)
    ensures EndsWith(r, GifExtension)
    ensures name <= r && |r| <= |name| + |GifExtension|
    ensures r == name || r == name + GifExtension
    ensures r == name <==> EndsWith(name, GifExtension)
  {
    if EndsWith(name, GifExtension) then name else name + GifExtension
  }

  /** Appending the suffix once is enough: a second application changes
      nothing. */
  lemma WithGifExtensionIdempotent(name: string)
    ensures WithGifExtension(WithGifExtension(name)) == WithGifExtension(name)
  {
  }

  /** `argv[i] || fallback`: a missing entry is `undefined`, and it and the
      empty string are both falsy. */
  function ArgumentOr(argv: seq<string>, i: nat, fallback: string): (r: string)
    ensures i < |argv| && argv[i] != "" ==> r == argv[i]
    ensures !(i < |argv| && argv[i] != "") ==> r == fallback
    ensures r == "" ==> fallback == ""
  {
    if i < |argv| && argv[i] != "" then argv[i] else fallback
  }

  /** What the script decides from its arguments. */
  datatype Command = ShowUsage | Render(input: string, effect: string, output: string)

  /** The argument handling at the bottom of the script. */
  function ResolveArguments(argv: seq<string>, stem: string -> string): (c: Command)
    ensures c.ShowUsage? <==> |argv| < 3
    ensures c.Render? ==> c.input == argv[2]
    ensures c.Render? ==> c.effect != ""
    ensures c.Render? && 4 <= |argv| && argv[3] != "" ==> c.effect == argv[3]
    ensures c.Render? && (|argv| < 4 || argv[3] == "") ==> c.effect == DefaultEffect
    ensures c.Render? ==> EndsWith(c.output, GifExtension)
    ensures c.Render? && (|argv| < 5 || argv[4] == "") ==>
              c.output == stem(argv[2]) + "_" + c.effect + GifExtension
    ensures c.Render? && 5 <= |argv| && argv[4] != "" ==>
              (c.output == argv[4] || c.output == argv[4] + GifExtension)
              && (c.output == argv[4] <==> EndsWith(argv[4], GifExtension))
  {
    if |argv| < 3 then ShowUsage
    else
      var input := argv[2];
      var effect := ArgumentOr(argv, 3, DefaultEffect);
      var output := ArgumentOr(argv, 4, stem(input) + "_" + effect + GifExtension);
      Render(input, effect, WithGifExtension(output))
  }

  /** The default output name already carries the suffix, so it is used
      as built. */
  lemma DefaultNameKept(stem: string -> string, input: string, effect: string)
    ensures WithGifExtension(stem(input) + "_" + effect + GifExtension)
         == stem(input) + "_" + effect + GifExtension
  {
    var name := stem(input) + "_" + effect + GifExtension;
    assert name[|name| - |GifExtension|..] == GifExtension;
  }

  /** What one invocation of the script did. */
  datatype Outcome<Img> = UsageShown | Rendered(command: Command, run: Run<Img>)

  function ProcessExitCode<Img>(o: Outcome<Img>): nat {
    match o
    case UsageShown => 0
    case Rendered(_, run) => ExitCode(run.status)
  }

  /** One invocation of the script. */
  method Phosphorize<Img>(argv: seq<string>, stem: string -> string,
                          load: string -> Result<Decoded<Img>, string>, host: Host<Img>)
    returns (o: Outcome<Img>)
    ensures o.UsageShown? <==> |argv| < 3
    ensures o.UsageShown? ==> ProcessExitCode(o) == 0
    ensures o.Rendered? ==>
      && o.command == ResolveArguments(argv, stem)
      && o.run == RarityGifRun(load(o.command.input), o.command.effect, o.command.output, host)
  {
    var command := ResolveArguments(argv, stem);
    if command.ShowUsage? {
      return UsageShown;
    }
    var run := CreateRarityGif(load(command.input), command.effect, command.output, host);
    o := Rendered(command, run);
  }

  /** An unknown effect name on the command line still opens and
      configures the encoder on the `.gif` output, then exits with status 1
      and the message listing the supported effects, with no frame added. */
  lemma UnknownEffectExits<Img>(argv: seq<string>, stem: string -> string,
                                load: string -> Result<Decoded<Img>, string>, host: Host<Img>)
    requires 4 <= |argv| && argv[3] != "" && !IsSupported(argv[3])
    requires load(argv[2]).Success?
    ensures var c := ResolveArguments(argv, stem);
      var run := RarityGifRun(load(c.input), c.effect, c.output, host);
      && run == Run(ConfigEvents(load(argv[2]).value.canvas, c.output), Aborted(UnsupportedMessage))
      && ExitCode(run.status) == 1
      && EndsWith(c.output, GifExtension)
  {
    var c := ResolveArguments(argv, stem);
    UnknownEffectRun(load(argv[2]).value, c.effect, c.output, host);
  }

  /** Arguments that name a supported effect and an input that decodes and
      composites on every frame give exit status 0: the six set-up calls
      on the `.gif` output, the twenty frames in order, and one `finish`. */
  lemma SupportedEffectSucceeds<Img>(argv: seq<string>, stem: string -> string,
                                     load: string -> Result<Decoded<Img>, string>, host: Host<Img>)
    requires 3 <= |argv| && load(argv[2]).Success?
    requires IsSupported(ResolveArguments(argv, stem).effect)
    requires forall layer: Layer :: host.composite(load(argv[2]).value.image, layer).Success?
    ensures var c := ResolveArguments(argv, stem);
      var d := load(argv[2]).value;
      var run := RarityGifRun(load(c.input), c.effect, c.output, host);
      && ExitCode(run.status) == 0
      && |run.events| == 6 + FrameCount + 1
      && run.events[..6] == ConfigEvents(d.canvas, c.output)
      && (forall k :: 0 <= k < FrameCount ==>
            RenderFrame(d, c.effect, k, host).Success?
            && run.events[6 + k] == AddFrame(RenderFrame(d, c.effect, k, host).value))
      && run.events[6 + FrameCount] == Finish
  {
    var c := ResolveArguments(argv, stem);
    var d := load(argv[2]).value;
    EveryFrameRenders(d, c.effect, host);
    RunCompletes(Success(d), c.effect, c.output, host);
    SuccessfulRun(d, c.effect, c.output, host);
  }

  /** With a supported effect and compositing that never fails on the base
      image, every frame renders. */
  lemma EveryFrameRenders<Img>(d: Decoded<Img>, rarity: string, host: Host<Img>)
    requires IsSupported(rarity)
    requires forall layer: Layer :: host.composite(d.image, layer).Success?
    ensures forall k :: 0 <= k < FrameCount ==> RenderFrame(d, rarity, k, host).Success?
  {
    forall k | 0 <= k < FrameCount
      ensures RenderFrame(d, rarity, k, host).Success?
    {
      var layer := Layer(GenerateFrameOverlay(d.canvas, rarity, k, host.sin).value, Over);
      assert host.composite(d.image, layer).Success?;
    }
  }
}
