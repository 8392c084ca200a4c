/** `GradientColors`: the color sequences the heatmap gradient can use. */
module Gradients {
  import opened JavaNumbers

  /** An 8-bit color channel. */
  newtype Channel = c: int | 0 <= c < 256

  /**
   * `Color.argb`: the four channels packed into a 32-bit `int`, alpha in the
   * top byte; packing 255 into the top byte makes the `int` negative.
   */
  function Argb(alpha: Channel, red: Channel, green: Channel, blue: Channel): (color: int)
    ensures IsInt32(color)
    ensures (color < 0) <==> alpha >= 128
  {
    ToInt32(alpha as int * 0x100_0000 + red as int * 0x1_0000 + green as int * 0x100 + blue as int)
  }

  /** The framework's predefined colors. */
  const RED: int := Argb(255, 255, 0, 0)
  const YELLOW: int := Argb(255, 255, 255, 0)
  const GREEN: int := Argb(255, 0, 255, 0)
  const DARK_GREEN: int := Argb(255, 0, 60, 0)
  /** Yellow with no opacity at all. */
  const CLEAR_YELLOW: int := Argb(0, 255, 255, 0)

  const MODE_RED_YELLOW_GREEN: int := 0
  const MODE_GREEN_YELLOW_RED: int := 1
  const MODE_RED_YELLOW_GREEN_DARKGREEN: int := 2
  const MODE_RED_GREEN: int := 3
  const MODE_RED_YELLOW_TRANSPARENT: int := 4

  /** The packed values agree with the framework's published color constants. */
  lemma PredefinedColorValues()
    ensures RED == -0x1_0000 && YELLOW == -0x100 && GREEN == -0xff_0100
    ensures CLEAR_YELLOW == 0xff_ff00
  {
  }

  /** A color gradient; the constructor picks the colors by mode. */
  datatype GradientColors = GradientColors(colors: seq<int>)
  {
    /** `getColors`: the colors in gradient order, worst value first. */
    function GetColors(): (c: seq<int>)
      ensures c == colors
    {
      colors
    }
  }

  /**
   * The constructor. Any unknown mode falls through to the default, which is
   * red, yellow, green. Every gradient has at least two colors, worst value
   * first, and the first color is always fully opaque.
   */
  function NewGradientColors(mode: int): (g: GradientColors)
    ensures |g.GetColors()| >= 2
    ensures g.GetColors()[0] < 0
  {
    match mode
    case 1 => GradientColors([GREEN, YELLOW, RED])
    case 2 => GradientColors([RED, YELLOW, GREEN, DARK_GREEN])
    case 3 => GradientColors([RED, GREEN])
    case 4 => GradientColors([RED, YELLOW, CLEAR_YELLOW])
    case _ => GradientColors([RED, YELLOW, GREEN])
  }

  /** An unknown mode gives the default gradient. */
  lemma UnknownModeUsesDefault(mode: int)
    requires mode !in {MODE_GREEN_YELLOW_RED, MODE_RED_YELLOW_GREEN_DARKGREEN, MODE_RED_GREEN, MODE_RED_YELLOW_TRANSPARENT}
    ensures NewGradientColors(mode) == NewGradientColors(MODE_RED_YELLOW_GREEN)
    ensures NewGradientColors(mode).GetColors() == [RED, YELLOW, GREEN]
  {
  }

  function Reverse(s: seq<int>): (r: seq<int>)
    ensures |r| == |s|
    ensures forall i :: 0 <= i < |s| ==> r[i] == s[|s| - 1 - i]
  {
    if s == [] then [] else Reverse(s[1..]) + [s[0]]
  }

  /** Green-yellow-red is the default gradient turned around. */
  lemma GreenYellowRedIsReversedDefault()
    ensures NewGradientColors(MODE_GREEN_YELLOW_RED).GetColors()
            == Reverse(NewGradientColors(MODE_RED_YELLOW_GREEN).GetColors())
  {
  }

  /**
   * The dark-green and clear-yellow variants extend the default's first colors
   * by one; the red-green variant drops the default's middle color.
   */
  lemma VariantsExtendDefault()
    ensures NewGradientColors(MODE_RED_YELLOW_GREEN_DARKGREEN).GetColors()
            == NewGradientColors(MODE_RED_YELLOW_GREEN).GetColors() + [DARK_GREEN]
    ensures var d := NewGradientColors(MODE_RED_YELLOW_GREEN).GetColors();
            NewGradientColors(MODE_RED_GREEN).GetColors() == [d[0], d[2]]
    ensures NewGradientColors(MODE_RED_YELLOW_TRANSPARENT).GetColors()
            == NewGradientColors(MODE_RED_YELLOW_GREEN).GetColors()[..2] + [CLEAR_YELLOW]
  {
  }
}
