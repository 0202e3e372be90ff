/** The overlay synthesizer of `phosphorizer.js` (`generateFrameOverlay`).

    The source renders each overlay as SVG text; here a scene is a tagged
    value, one variant per effect, carrying the paint parameters the SVG
    would spell out. `Math.PI` is the decimal JavaScript prints for it;
    `Math.sin` is a parameter whose values are left uninterpreted. */
module Overlay {
  import opened Wrappers

  /** A pixel dimension of a decoded image; image metadata never reports 0. */
  type Pixels = n: nat | 0 < n witness 1

  datatype Canvas = Canvas(width: Pixels, height: Pixels)

  /** The three named effects ("rarities" in the source). */
  datatype Effect = Scanlines | GlowPulse | RgbShift

  /** The message of the error thrown for any other effect name. */
  const UnsupportedMessage: string := "Supported rarities: scanlines, glow-pulse, rgb-shift"

  function EffectName(e: Effect): string {
    match e
    case Scanlines => "scanlines"
    case GlowPulse => "glow-pulse"
    case RgbShift => "rgb-shift"
  }

  predicate IsSupported(name: string) {
    name == "scanlines" || name == "glow-pulse" || name == "rgb-shift"
  }

  /** The `switch` on the effect name: exactly the three names are accepted,
      and every other name fails with the message listing them. */
  function ParseEffect(name: string): (r: Result<Effect, string>)
    ensures r.Success? <==> IsSupported(name)
    ensures r.Success? ==> EffectName(r.value) == name
    ensures r.Failure? ==> r.error == UnsupportedMessage
  {
    if name == "scanlines" then Success(Scanlines)
    else if name == "glow-pulse" then Success(GlowPulse)
    else if name == "rgb-shift" then Success(RgbShift)
    else Failure(UnsupportedMessage)
  }

  lemma ParseEffectName(e: Effect)
    ensures ParseEffect(EffectName(e)) == Success(e)
  {
  }

  /** Paint values as SVG spells them: `rgba(...)`, `#rrggbb`, `hsl(...)`
      (saturation and lightness in percent), and `none`. */
  datatype Color =
    | Rgba(red: nat, green: nat, blue: nat, alpha: real)
    | Rgb(red: nat, green: nat, blue: nat)
    | Hsl(hue: int, saturation: nat, lightness: nat)
    | NoPaint

  datatype BlendMode = Over | Screen

  datatype Line = Line(x1: real, y1: real, x2: real, y2: real)

  /** The displacement of one `feOffset` primitive. */
  datatype Offset = Offset(dx: real, dy: real)

  /** A filter region, each bound in percent of the element's box. */
  datatype Region = Region(x: int, y: int, width: int, height: int)

  /** One frame's overlay. Every variant covers the whole canvas. */
  datatype Scene =
    | ScanlineScene(canvas: Canvas, wash: Color, line: Line, stroke: Color,
                    strokeWidth: nat, opacity: real)
    | GlowScene(canvas: Canvas, fill: Color, stroke: Color, strokeWidth: nat,
                blurStdDeviation: nat, glowRegion: Region, opacity: real)
    | ShiftScene(canvas: Canvas, red: Offset, blue: Offset, blend: BlendMode,
                 opacity: real)

  /** `Math.PI`: the decimal JavaScript prints for the double nearest to pi. */
  const MathPI: real := 3.141592653589793

  const HueStep: nat := 18
  const ScanlineWash: Color := Rgba(0, 0, 0, 0.7)
  const ScanlineStroke: Color := Rgb(0, 255, 0)
  const ScanlineWidth: nat := 3
  const ScanlineOpacity: real := 0.9
  const GlowWidth: nat := 15
  const GlowBlur: nat := 5
  const GlowRegion: Region := Region(-20, -20, 140, 140)
  const ShiftOpacity: real := 0.7

  /** JavaScript's `%`: the remainder of truncating division, which takes
      the sign of the dividend (Dafny's `%` is Euclidean). */
  function JsRemainder(a: int, b: int): (r: int)
    requires b != 0
    ensures 0 <= a ==> 0 <= r < Abs(b)
    ensures a <= 0 ==> -Abs(b) < r <= 0
    ensures 0 <= a ==> r == a % b
    ensures Abs(r) == Abs(a) % Abs(b)
  {
    if 0 <= a then a % b else -((-a) % b)
  }

  function Abs(n: int): int {
    if n < 0 then -n else n
  }

  /** The y coordinate of the scan line, `(frame * height / 10) % height`.
      It is computed exactly, in tenths of a pixel: scaling both operands of
      `%` by ten scales the remainder by ten. The line steps down a tenth of
      the canvas per frame and wraps around every ten frames. */
  function ScanY(frame: nat, height: Pixels): (y: real)
    ensures 0.0 <= y < height as real
    ensures 10.0 * y == ((frame % 10) * height) as real
  {
    TenthsRemainder(frame, height);
    JsRemainder(frame * height, 10 * height) as real / 10.0
  }

  lemma TenthsRemainder(frame: nat, height: Pixels)
    ensures JsRemainder(frame * height, 10 * height) == (frame % 10) * height
  {
    var q, k := frame / 10, frame % 10;
    SplitProduct(q, k, height);
    assert k * height < 10 * height by {
      MultipleBounds(10 - k, height);
    }
    RemainderUnique(frame * height, 10 * height, q, k * height);
  }

  lemma SplitProduct(q: int, k: int, h: int)
    ensures (10 * q + k) * h == q * (10 * h) + k * h
  {
  }

  /** Euclidean division has exactly one quotient and remainder. */
  lemma RemainderUnique(a: int, b: int, q: int, r: int)
    requires 0 < b && a == q * b + r && 0 <= r < b
    ensures a % b == r && a / b == q
  {
    var q', r' := a / b, a % b;
    assert (q' - q) * b == r - r';
    MultipleBounds(q' - q, b);
  }

  /** A nonzero multiple of `b` is at least `b` away from zero. */
  lemma MultipleBounds(k: int, b: int)
    requires 0 < b
    ensures k == 0 || b <= k * b || k * b <= -b
  {
    if k >= 1 {
      assert k * b >= 1 * b;
    } else if k <= -1 {
      assert k * b <= -1 * b;
    }
  }

  function GlowOpacity(frame: nat, sin: real -> real): real {
    0.4 + 0.5 * sin(frame as real * 0.5)
  }

  /** `sin(normalizedFrame * PI) * 5`, where `normalizedFrame = frame / 20`. */
  function ShiftAmount(frame: nat, sin: real -> real): real {
    sin(frame as real / 20.0 * MathPI) * 5.0
  }

  /** The scene drawn for effect `e` at `frame`. */
  function SceneFor(e: Effect, canvas: Canvas, frame: nat, sin: real -> real): Scene {
    match e
    case Scanlines =>
      var y := ScanY(frame, canvas.height);
      ScanlineScene(canvas, ScanlineWash, Line(0.0, y, canvas.width as real, y),
                    ScanlineStroke, ScanlineWidth, ScanlineOpacity)
    case GlowPulse =>
      GlowScene(canvas, NoPaint, Hsl(frame * HueStep, 100, 50), GlowWidth,
                GlowBlur, GlowRegion, GlowOpacity(frame, sin))
    case RgbShift =>
      var o := ShiftAmount(frame, sin);
      ShiftScene(canvas, Offset(-o, o), Offset(o, -o), Screen, ShiftOpacity)
  }

  /** `generateFrameOverlay(width, height, rarity, frame)`. */
  function GenerateFrameOverlay(canvas: Canvas, rarity: string, frame: nat, sin: real -> real)
    : (r: Result<Scene, string>)
    ensures r.Success? <==> IsSupported(rarity)
    ensures r.Failure? ==> r.error == UnsupportedMessage
    ensures r.Success? ==> r.value.canvas == canvas
    ensures r.Success? ==> (r.value.ScanlineScene? <==> rarity == "scanlines")
    ensures r.Success? ==> (r.value.GlowScene? <==> rarity == "glow-pulse")
    ensures r.Success? ==> (r.value.ShiftScene? <==> rarity == "rgb-shift")
  {
    var e :- ParseEffect(rarity);
    Success(SceneFor(e, canvas, frame, sin))
  }

  /** Scan lines: a black wash at alpha 0.7 over the canvas and one green
      line, 3 wide at opacity 0.9, across the full width at `ScanY`. */
  lemma ScanlinesScene(canvas: Canvas, frame: nat, sin: real -> real)
    ensures var r := GenerateFrameOverlay(canvas, "scanlines", frame, sin);
      && r.Success? && r.value.ScanlineScene?
      && r.value.wash == Rgba(0, 0, 0, 0.7)
      && r.value.line.x1 == 0.0 && r.value.line.x2 == canvas.width as real
      && r.value.line.y1 == r.value.line.y2
      && 0.0 <= r.value.line.y1 < canvas.height as real
      && 10.0 * r.value.line.y1 == ((frame % 10) * canvas.height) as real
      && r.value.stroke == Rgb(0, 255, 0)
      && r.value.strokeWidth == 3 && r.value.opacity == 0.9
  {
  }

  /** The scan-line overlay repeats every ten frames. */
  lemma ScanlinesPeriodic(canvas: Canvas, frame: nat, sin: real -> real)
    ensures GenerateFrameOverlay(canvas, "scanlines", frame + 10, sin)
         == GenerateFrameOverlay(canvas, "scanlines", frame, sin)
  {
    var a := ScanY(frame + 10, canvas.height);
    var b := ScanY(frame, canvas.height);
    assert (frame + 10) % 10 == frame % 10;
    assert 10.0 * a == 10.0 * b;
  }

  /** Glow pulse: an unfilled full-canvas rectangle whose stroke hue is
      `18 * frame`; width 15, blur 5 and the filter region do not depend on
      the frame, and the opacity `0.4 + 0.5 * sin(frame * 0.5)` is passed
      through unclamped. */
  lemma GlowPulseScene(canvas: Canvas, frame: nat, sin: real -> real)
    ensures var r := GenerateFrameOverlay(canvas, "glow-pulse", frame, sin);
      && r.Success? && r.value.GlowScene?
      && r.value.fill == NoPaint
      && r.value.stroke == Hsl(18 * frame, 100, 50)
      && r.value.strokeWidth == 15 && r.value.blurStdDeviation == 5
      && r.value.glowRegion == Region(-20, -20, 140, 140)
      && r.value.opacity == 0.4 + 0.5 * sin(frame as real * 0.5)
  {
  }

  /** Within one loop the hue rises strictly with the frame and stays in
      [0, 342]: it never reaches a full turn. */
  lemma GlowHueRange(canvas: Canvas, f: nat, g: nat, sin: real -> real)
    requires f < g < 20
    ensures var hf := GenerateFrameOverlay(canvas, "glow-pulse", f, sin).value.stroke.hue;
            var hg := GenerateFrameOverlay(canvas, "glow-pulse", g, sin).value.stroke.hue;
      0 <= hf < hg <= 342
  {
  }

  /** The opacity is not clamped: it leaves [0, 1] exactly when the sine
      value is below -0.8 or above 1.2. */
  lemma GlowOpacityUnclamped(canvas: Canvas, frame: nat, sin: real -> real)
    ensures var r := GenerateFrameOverlay(canvas, "glow-pulse", frame, sin);
      && (r.value.opacity < 0.0 <==> sin(frame as real * 0.5) < -0.8)
      && (r.value.opacity > 1.0 <==> sin(frame as real * 0.5) > 1.2)
  {
  }

  /** RGB shift: two displacements that are exact negations of each other,
      `(-o, o)` and `(o, -o)` for `o = 5 * sin(pi * frame / 20)`, blended
      with `screen` under a fixed opacity of 0.7. */
  lemma RgbShiftScene(canvas: Canvas, frame: nat, sin: real -> real)
    ensures GenerateFrameOverlay(canvas, "rgb-shift", frame, sin).Success?
    ensures var s := GenerateFrameOverlay(canvas, "rgb-shift", frame, sin).value;
      var o := sin(frame as real / 20.0 * MathPI) * 5.0;
      s.ShiftScene? && s.red == Offset(-o, o) && s.blue == Offset(o, -o)
    ensures var s := GenerateFrameOverlay(canvas, "rgb-shift", frame, sin).value;
      && s.red.dx == -s.blue.dx && s.red.dy == -s.blue.dy
      && s.blend == Screen && s.opacity == 0.7
  {
    var o := ShiftAmount(frame, sin);
    assert GenerateFrameOverlay(canvas, "rgb-shift", frame, sin).value
        == ShiftScene(canvas, Offset(-o, o), Offset(o, -o), Screen, ShiftOpacity);
  }

  /** Any other effect name fails, whatever the canvas and frame. */
  lemma UnsupportedEffectFails(canvas: Canvas, rarity: string, frame: nat, sin: real -> real)
    requires !IsSupported(rarity)
    ensures GenerateFrameOverlay(canvas, rarity, frame, sin) == Failure(UnsupportedMessage)
  {
  }
}
