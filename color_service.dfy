/** Basic colour operations: reading "#rrggbb" strings and inverting a colour. */
module ColorService {
  import opened Wrappers
  import opened JavaInt
  import opened ColorSynthbase

  /**
   * hexToColor(hex) (and hexToColorAWT): the same three base-16 fields as
   * ColorSynthbase.hexToRGB, the first character skipped whatever it is.
   */
  function HexToColor(hex: string): (c: Option<Rgb>)
    ensures |hex| < 7 ==> c.None?
  {
    HexToRgb(hex)
  }

  /** The first character is never looked at: any symbol in place of '#' gives the same colour. */
  lemma FirstCharIgnored(hex: string, ch: char)
    requires |hex| >= 1
    ensures HexToColor([ch] + hex[1..]) == HexToColor(hex)
  {
    var h := [ch] + hex[1..];
    if |hex| >= 7 {
      assert h[1..3] == hex[1..3] && h[3..5] == hex[3..5] && h[5..7] == hex[5..7];
    }
  }

  /** Any colour written by RGBToHex reads back, whatever its first character. */
  lemma HexToColorRoundTrip(r: int32, g: int32, b: int32, ch: char)
    requires ValidChannel(r) && ValidChannel(g) && ValidChannel(b)
    ensures HexToColor([ch] + RgbToHex(r, g, b)[1..]) == Some(Rgb(r, g, b))
  {
    HexRoundTrip(r, g, b);
    FirstCharIgnored(RgbToHex(r, g, b), ch);
  }

  /** invertColor(c): each channel c becomes 255 - c; the result is always a valid colour. */
  function InvertColor(c: Rgb): (d: Rgb)
    requires ValidRgb(c)
    ensures ValidRgb(d)
    ensures d.r + c.r == 255 && d.g + c.g == 255 && d.b + c.b == 255
  {
    Rgb(255 - c.r, 255 - c.g, 255 - c.b)
  }

  /** Inverting twice gives the colour back; white and black are each other's inverse. */
  lemma InvertInvolution(c: Rgb)
    requires ValidRgb(c)
    ensures InvertColor(InvertColor(c)) == c
    ensures InvertColor(Rgb(255, 255, 255)) == Rgb(0, 0, 0)
  {
  }
}
