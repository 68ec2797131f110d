/**
 * Colour helpers: hexadecimal colour strings ("#rrggbb") in both directions,
 * the dominant-channel tests, an integer luminance, and the names of the
 * java.awt colour-space types.
 */
module ColorSynthbase {
  import opened Wrappers
  import opened JavaInt
  import opened JavaText

  /** A java.awt.Color's red, green and blue channels; the alpha is not modelled. */
  datatype Rgb = Rgb(r: int, g: int, b: int)

  predicate ValidChannel(x: int)
  {
    0 <= x <= 255
  }

  predicate ValidRgb(c: Rgb)
  {
    ValidChannel(c.r) && ValidChannel(c.g) && ValidChannel(c.b)
  }

  /** new java.awt.Color(r, g, b): None where the constructor throws (a channel outside 0..255). */
  function NewColor(r: int, g: int, b: int): (c: Option<Rgb>)
    ensures c.Some? <==> ValidChannel(r) && ValidChannel(g) && ValidChannel(b)
    ensures c.Some? ==> c.value == Rgb(r, g, b) && ValidRgb(c.value)
  {
    if ValidChannel(r) && ValidChannel(g) && ValidChannel(b) then Some(Rgb(r, g, b)) else None
  }

  /** "%02x" of an int: its unsigned hexadecimal digits, padded to two. */
  function Format02x(n: int32): (s: string)
    ensures ValidChannel(n) ==> s == FixedHex(n, 2)
  {
    Channel02x(n);
    PadZeros(HexString(Unsigned(n)), 2)
  }

  lemma Channel02x(n: int32)
    ensures ValidChannel(n) ==> PadZeros(HexString(Unsigned(n)), 2) == FixedHex(n, 2)
  {
    if ValidChannel(n) {
      assert Pow16(2) == 256;
      PadIsFixed(n, 2);
    }
  }

  /** RGBToHex(r, g, b) = String.format("#%02x%02x%02x", r, g, b). */
  function RgbToHex(r: int32, g: int32, b: int32): (s: string)
    ensures ValidChannel(r) && ValidChannel(g) && ValidChannel(b) ==>
      |s| == 7 && s[0] == '#' && forall i | 1 <= i < 7 :: s[i] in HEX_DIGITS
  {
    var t := "#" + Format02x(r) + Format02x(g) + Format02x(b);
    if ValidChannel(r) && ValidChannel(g) && ValidChannel(b) then
      assert t[1..3] == FixedHex(r, 2) && t[3..5] == FixedHex(g, 2) && t[5..7] == FixedHex(b, 2);
      FixedHexDigits(r, 2);
      FixedHexDigits(g, 2);
      FixedHexDigits(b, 2);
      t
    else
      t
  }

  /** Every character of a fixed-width field is a lower-case hexadecimal digit. */
  lemma {:induction false} FixedHexDigits(n: nat, w: nat)
    ensures forall i | 0 <= i < w :: FixedHex(n, w)[i] in HEX_DIGITS
  {
    if w > 0 {
      FixedHexDigits(n / 16, w - 1);
      assert HEX_DIGITS[n % 16] in HEX_DIGITS;
    }
  }

  /** Integer.valueOf(s, 16) of one two-digit field. */
  function ParseField(hex: string, from: nat): Option<int>
    requires from + 2 <= |hex|
  {
    ParseHex(hex[from..from + 2])
  }

  /**
   * hexToRGB(hex): fields [1,3), [3,5) and [5,7) parsed in base 16 into a new
   * Color; the first character is not looked at, characters after the
   * seventh are ignored. None where Java throws: a string shorter than seven
   * (substring), a field that is not a number (NumberFormatException) or a
   * negative field such as "-1" (the Color constructor).
   */
  function HexToRgb(hex: string): (c: Option<Rgb>)
    ensures c.Some? ==> ValidRgb(c.value) && |hex| >= 7
  {
    if |hex| < 7 then None
    else
      match (ParseField(hex, 1), ParseField(hex, 3), ParseField(hex, 5))
      case (Some(r), Some(g), Some(b)) => NewColor(r, g, b)
      case _ => None
  }

  /** A two-digit field written by "%02x" reads back as the channel. */
  lemma FieldRoundTrip(x: int)
    requires ValidChannel(x)
    ensures ParseHex(FixedHex(x, 2)) == Some(x)
  {
    var s := FixedHex(x, 2);
    FixedHexLeadsWithDigit(x, 2);
    assert s[0] != '-' && s[0] != '+';
    FixedHexValue(x, 2);
    assert Pow16(2) == 256;
    ModUnique(x, 256, 0, x);
    assert HexDigitsValue(s).value == x;
  }

  /** A fixed-width field starts with a digit, never with a sign. */
  lemma {:induction false} FixedHexLeadsWithDigit(n: nat, w: nat)
    requires w >= 1
    ensures HexValue(FixedHex(n, w)[0]).Some?
  {
    if w > 1 {
      FixedHexLeadsWithDigit(n / 16, w - 1);
    }
  }

  /** hexToRGB(RGBToHex(r, g, b)) is the colour (r, g, b). */
  lemma HexRoundTrip(r: int32, g: int32, b: int32)
    requires ValidChannel(r) && ValidChannel(g) && ValidChannel(b)
    ensures HexToRgb(RgbToHex(r, g, b)) == Some(Rgb(r, g, b))
  {
    var s := RgbToHex(r, g, b);
    assert s[1..3] == FixedHex(r, 2) && s[3..5] == FixedHex(g, 2) && s[5..7] == FixedHex(b, 2);
    FieldRoundTrip(r);
    FieldRoundTrip(g);
    FieldRoundTrip(b);
  }

  /** The RGB value of a colour, (r << 16) | (g << 8) | b, as getRGB() & 0xffffff gives it. */
  function Packed(c: Rgb): (v: nat)
    requires ValidRgb(c)
    ensures v < 0x100_0000
  {
    c.r * 0x1_0000 + c.g * 0x100 + c.b
  }

  /**
   * color2hex_2 as written: Integer.toHexString of the packed value, then
   * "0", "00" or "000" in front when that has 5, 4 or 3 digits, then '#'.
   */
  function Color2Hex2AsWritten(c: Rgb): (s: string)
    requires ValidRgb(c)
  {
    var hex := HexString(Packed(c));
    var hex := if |hex| == 5 then "0" + hex else hex;
    var hex := if |hex| == 4 then "00" + hex else hex;
    var hex := if |hex| == 3 then "000" + hex else hex;
    "#" + hex
  }

  /** As written, a packed value of fewer than three hex digits is not padded: (0, 0, 5) is written "#5", which hexToRGB cannot read back. */
  lemma Color2Hex2AsWrittenShort()
    ensures Color2Hex2AsWritten(Rgb(0, 0, 5)) == "#5"
    ensures HexToRgb(Color2Hex2AsWritten(Rgb(0, 0, 5))).None?
  {
    assert HexString(5) == [HexDigit(5)];
  }

  /** As written, the result has seven characters exactly when the packed value has at least three hex digits. */
  lemma Color2Hex2AsWrittenLength(c: Rgb)
    requires ValidRgb(c)
    ensures |Color2Hex2AsWritten(c)| == 7 <==> Packed(c) >= 0x100
  {
    HexStringLength(Packed(c));
    assert Pow16(6) == 0x100_0000;
    PadIsFixed(Packed(c), 6);
  }

  /** toHexString writes at most two digits below 0x100 and at least three from 0x100. */
  lemma {:induction false} HexStringLength(n: nat)
    ensures n < 0x100 <==> |HexString(n)| <= 2
  {
    if n >= 16 {
      HexStringLength(n / 16);
    }
  }

  /** color2hex_2 with six digits always: "#" and the packed value zero-padded to six. */
  function Color2Hex(c: Rgb): (s: string)
    requires ValidRgb(c)
    ensures s == RgbToHex(c.r, c.g, c.b)
    ensures Packed(c) >= 0x100 ==> s == Color2Hex2AsWritten(c)
  {
    ColorFields(c);
    AsWrittenAgrees(c);
    "#" + FixedHex(Packed(c), 6)
  }

  /** The six digits of the packed value are the three two-digit channel fields. */
  lemma ColorFields(c: Rgb)
    requires ValidRgb(c)
    ensures FixedHex(Packed(c), 6) == FixedHex(c.r, 2) + FixedHex(c.g, 2) + FixedHex(c.b, 2)
  {
    var hi := c.r * 256 + c.g;
    Join256(Packed(c), hi, c.b, 2, 4);
    Join256(hi, c.r, c.g, 2, 2);
  }

  /** The w + m digits of x * 256 + b (b below 256, w = 2) are those of x, then those of b. */
  lemma Join256(n: nat, x: nat, b: nat, w: nat, m: nat)
    requires n == x * 256 + b && b < 256 && w == 2
    ensures FixedHex(n, w + m) == FixedHex(x, m) + FixedHex(b, w)
  {
    FixedHexSplit(n, w, m);
    Split256(x, b);
  }

  /** n with its w low digits dropped. */
  function DropDigits(n: nat, w: nat): nat
  {
    if w == 0 then n else DropDigits(n / 16, w - 1)
  }

  /** The w + m digits of n are the m digits above the low w, then the low w. */
  lemma {:induction false} FixedHexSplit(n: nat, w: nat, m: nat)
    ensures FixedHex(n, w + m) == FixedHex(DropDigits(n, w), m) + FixedHex(n, w)
    decreases w
  {
    if w > 0 {
      var k := w - 1;
      FixedHexSplit(n / 16, k, m);
      var d := [HexDigit(n % 16)];
      var low, high := FixedHex(n / 16, k), FixedHex(DropDigits(n / 16, k), m);
      assert FixedHex(n, w + m) == FixedHex(n / 16, k + m) + d;
      assert high + low + d == high + (low + d);
    }
  }

  /** Two digits of x * 256 + b: dropping them leaves x, and they are the two digits of b. */
  lemma Split256(x: nat, b: nat)
    requires b < 256
    ensures DropDigits(x * 256 + b, 2) == x
    ensures FixedHex(x * 256 + b, 2) == FixedHex(b, 2)
  {
    var n := x * 256 + b;
    DivModSplit(x * 16, b);
    assert n / 16 == x * 16 + b / 16 && n % 16 == b % 16;
    DivModSplit(x, b / 16);
    assert (n / 16) / 16 == x && (n / 16) % 16 == (b / 16) % 16;
    assert DropDigits(n, 2) == DropDigits(n / 16 / 16, 0);
  }

  /** (16 a + x) / 16 = a + x / 16 and (16 a + x) % 16 = x % 16. */
  lemma DivModSplit(a: nat, x: nat)
    ensures (a * 16 + x) / 16 == a + x / 16
    ensures (a * 16 + x) % 16 == x % 16
  {
    var q, r := x / 16, x % 16;
    assert a * 16 + x == (a + q) * 16 + r;
    ModUnique(a * 16 + x, 16, a + q, r);
  }

  /** From 0x100 on, the as-written padding pads to six digits. */
  lemma AsWrittenAgrees(c: Rgb)
    requires ValidRgb(c)
    ensures Packed(c) >= 0x100 ==> Color2Hex2AsWritten(c) == "#" + FixedHex(Packed(c), 6)
  {
    var n := Packed(c);
    if n < 0x100 {
      return;
    }
    HexStringLength(n);
    assert Pow16(6) == 0x100_0000;
    PadIsFixed(n, 6);
    var h := HexString(n);
    PadZerosForm(h, 6);
    if |h| == 3 {
      assert Zeros(3) == "000";
    } else if |h| == 4 {
      assert Zeros(2) == "00";
    } else if |h| == 5 {
      assert Zeros(1) == "0";
    } else {
      assert Zeros(0) == "";
    }
  }

  /** The corrected color2hex_2 reads back as the colour. */
  lemma Color2HexRoundTrip(c: Rgb)
    requires ValidRgb(c)
    ensures HexToRgb(Color2Hex(c)) == Some(c)
  {
    HexRoundTrip(c.r, c.g, c.b);
  }

  /** is_red(e): the first component exceeds the other two. */
  predicate IsRed(e: seq<real>)
    requires |e| >= 3
  {
    e[0] > e[1] && e[0] > e[2]
  }

  /** is_green(e): the second component exceeds the other two. */
  predicate IsGreen(e: seq<real>)
    requires |e| >= 3
  {
    e[1] > e[0] && e[1] > e[2]
  }

  /** is_blue(e): the third component exceeds the other two. */
  predicate IsBlue(e: seq<real>)
    requires |e| >= 3
  {
    e[2] > e[1] && e[2] > e[0]
  }

  /** At most one channel dominates; none does in a grey; one does when the channels differ. */
  lemma DominantExclusive(e: seq<real>)
    requires |e| >= 3
    ensures !(IsRed(e) && IsGreen(e)) && !(IsRed(e) && IsBlue(e)) && !(IsGreen(e) && IsBlue(e))
    ensures e[0] == e[1] == e[2] ==> !IsRed(e) && !IsGreen(e) && !IsBlue(e)
    ensures e[0] != e[1] && e[0] != e[2] && e[1] != e[2] ==> IsRed(e) || IsGreen(e) || IsBlue(e)
  {
  }

  /** relative_luminance_4(c) = (b + 3 r + 4 g) >> 3. */
  function Luminance4(c: Rgb): (l: int)
    requires ValidRgb(c)
    ensures 0 <= l <= 255
    ensures c.r == c.g == c.b ==> l == c.r
  {
    (c.b + c.r * 3 + c.g * 4) / 8
  }

  /** More of any channel never lowers the luminance. */
  lemma Luminance4Monotone(c: Rgb, d: Rgb)
    requires ValidRgb(c) && ValidRgb(d)
    requires c.r <= d.r && c.g <= d.g && c.b <= d.b
    ensures Luminance4(c) <= Luminance4(d)
  {
  }

  /** awt_colorspace_AllTypes(): the java.awt ColorSpace types 0..23 except 10. */
  const ALL_TYPES: seq<int32> := [0, 1, 2, 3, 4, 5, 6, 7, 8, 9, 11, 12, 13, 14, 15, 16, 17, 18, 19, 20, 21, 22, 23]

  /** awt_colorspace_NameMatch: the name of a colour-space type, "UNKNOWN" for any other number. */
  function NameMatch(t: int32): string
  {
    match t
    case 0 => "XYZ"
    case 1 => "Lab"
    case 2 => "Luv"
    case 3 => "YCbCr"
    case 4 => "Yxy"
    case 5 => "RGB"
    case 6 => "GRAY"
    case 7 => "HSV"
    case 8 => "HLS"
    case 9 => "CMYK"
    case 11 => "CMY"
    case 12 => "2CLR"
    case 13 => "3CLR"
    case 14 => "4CLR"
    case 15 => "5CLR"
    case 16 => "6CLR"
    case 17 => "7CLR"
    case 18 => "8CLR"
    case 19 => "9CLR"
    case 20 => "ACLR"
    case 21 => "BCLR"
    case 22 => "CCLR"
    case 23 => "DCLR"
    case _ => "UNKNOWN"
  }

  /** The listed types are exactly the ones with a name. */
  lemma AllTypesNamed(t: int32)
    ensures t in ALL_TYPES <==> NameMatch(t) != "UNKNOWN"
    ensures t in ALL_TYPES <==> 0 <= t <= 23 && t != 10
  {
  }

  /** awt_colorspace_AllTypes() lists the types in increasing order. */
  lemma AllTypesIncreasing()
    ensures forall i, j | 0 <= i < j < |ALL_TYPES| :: ALL_TYPES[i] < ALL_TYPES[j]
  {
  }
}
