/**
 * A builder of ANSI "Select Graphic Rendition" escapes (ECMA-48, section
 * 8.3.117). Each style call appends one numeric parameter and a ';' to a code
 * buffer; rendering drops the last ';' and wraps the content as
 * ESC '[' parameters 'm' content, followed by the reset sequence ESC "[0m".
 * The static "enabled" switch is passed to the calls that read it.
 */
module AnsiColor {
  import opened Wrappers
  import opened JavaInt
  import opened JavaText
  import Maths

  const ESC: char := 27 as char
  /** The control sequence introducer ESC '['. */
  const CSI: string := [ESC, '[']
  /** reset(): ESC "[0m". */
  const RESET: string := CSI + "0m"
  /** The printable spelling escaped() uses for ESC. */
  const ESC_TEXT: string := "\\033"

  /** The eight base colours; each has a normal and a bright variant. */
  datatype Hue = Black | Red | Green | Yellow | Blue | Magenta | Cyan | White

  datatype Color = Color(hue: Hue, bright: bool)

  /** The SGR font effects the builder offers, from reset (0) to no_overlined (55). */
  datatype Effect =
    | Reset | Bold | Faint | Italic | Underline | BlinkSlow | BlinkFast | SwapFgBg | Hide
    | Strikethrough | Primary | Font1 | Font2 | Font3 | Font4 | Font5 | Font6 | Font7
    | Font8 | Font9 | Fraktur | NoBold | Normal | NoItalic | NoUnderline | NoBlink
    | NoInverse | NoHide | NoStrikethrough | Framed | Encircled | Overlined
    | NoFramedNoEncircled | NoOverlined

  function HueIndex(h: Hue): (k: nat)
    ensures k < 8
  {
    match h
    case Black => 0
    case Red => 1
    case Green => 2
    case Yellow => 3
    case Blue => 4
    case Magenta => 5
    case Cyan => 6
    case White => 7
  }

  /** The foreground code of black_fg() .. white_fg() (30-37) and bright_black_fg() .. bright_white_fg() (90-97). */
  function FgCode(c: Color): (code: nat)
    ensures c.bright ==> code == 90 + HueIndex(c.hue)
    ensures !c.bright ==> code == 30 + HueIndex(c.hue)
  {
    match (c.hue, c.bright)
    case (Black, false) => 30
    case (Red, false) => 31
    case (Green, false) => 32
    case (Yellow, false) => 33
    case (Blue, false) => 34
    case (Magenta, false) => 35
    case (Cyan, false) => 36
    case (White, false) => 37
    case (Black, true) => 90
    case (Red, true) => 91
    case (Green, true) => 92
    case (Yellow, true) => 93
    case (Blue, true) => 94
    case (Magenta, true) => 95
    case (Cyan, true) => 96
    case (White, true) => 97
  }

  /** The background codes as the builder writes them: blue_bg() emits 43, the code of yellow_bg(). */
  function BgCodeAsWritten(c: Color): (code: nat)
    ensures 40 <= code <= 47 || 100 <= code <= 107
  {
    match (c.hue, c.bright)
    case (Black, false) => 40
    case (Red, false) => 41
    case (Green, false) => 42
    case (Yellow, false) => 43
    case (Blue, false) => 43
    case (Magenta, false) => 45
    case (Cyan, false) => 46
    case (White, false) => 47
    case (Black, true) => 100
    case (Red, true) => 101
    case (Green, true) => 102
    case (Yellow, true) => 103
    case (Blue, true) => 104
    case (Magenta, true) => 105
    case (Cyan, true) => 106
    case (White, true) => 107
  }

  /** As written, blue_bg() and yellow_bg() emit the same code, one off the background of blue. */
  lemma BlueBgAsWrittenIsYellow()
    ensures BgCodeAsWritten(Color(Blue, false)) == BgCodeAsWritten(Color(Yellow, false))
    ensures BgCodeAsWritten(Color(Blue, false)) != FgCode(Color(Blue, false)) + 10
  {
  }

  /** Every other background code is its foreground code plus 10. */
  lemma BgAsWrittenElsewhere(c: Color)
    requires c != Color(Blue, false)
    ensures BgCodeAsWritten(c) == FgCode(c) + 10
  {
  }

  /** The background codes 40-47 and 100-107, with blue at 44. */
  function BgCode(c: Color): (code: nat)
    ensures code == FgCode(c) + 10
    ensures c != Color(Blue, false) ==> code == BgCodeAsWritten(c)
  {
    if c == Color(Blue, false) then 44 else BgCodeAsWritten(c)
  }

  /** Distinct colours have distinct foreground and distinct background codes, and no foreground code is a background code. */
  lemma ColorCodesDistinct(c: Color, d: Color)
    ensures FgCode(c) == FgCode(d) <==> c == d
    ensures BgCode(c) == BgCode(d) <==> c == d
    ensures FgCode(c) != BgCode(d)
  {
  }

  /** The code each font-effect method appends. */
  function EffectCode(e: Effect): (code: nat)
    ensures code <= 55
    ensures !(30 <= code <= 49) && !(90 <= code <= 107)
  {
    match e
    case Reset => 0
    case Bold => 1
    case Faint => 2
    case Italic => 3
    case Underline => 4
    case BlinkSlow => 5
    case BlinkFast => 6
    case SwapFgBg => 7
    case Hide => 8
    case Strikethrough => 9
    case Primary => 10
    case Font1 => 11
    case Font2 => 12
    case Font3 => 13
    case Font4 => 14
    case Font5 => 15
    case Font6 => 16
    case Font7 => 17
    case Font8 => 18
    case Font9 => 19
    case Fraktur => 20
    case NoBold => 21
    case Normal => 22
    case NoItalic => 23
    case NoUnderline => 24
    case NoBlink => 25
    case NoInverse => 27
    case NoHide => 28
    case NoStrikethrough => 29
    case Framed => 51
    case Encircled => 52
    case Overlined => 53
    case NoFramedNoEncircled => 54
    case NoOverlined => 55
  }

  /** A channel of rgb_fg/rgb_bg as written: clampInt(0, 255, x) clamps the constant 0 into [255, x]. */
  function RgbChannelAsWritten(x: int32): (r: int32)
  {
    Maths.ClampInt(0, 255, x)
  }

  /** Whatever the requested channel, the as-written clamp yields 255. */
  lemma RgbChannelAsWrittenIsConstant(x: int32)
    ensures RgbChannelAsWritten(x) == 255
    ensures RgbChannelAsWritten(0) != 0
  {
  }

  /** A channel clamped into [0, 255], as the comments beside rgb_fg/rgb_bg describe. */
  function RgbChannel(x: int32): (r: int32)
    ensures 0 <= r <= 255
    ensures 0 <= x <= 255 ==> r == x
    ensures x < 0 ==> r == 0
    ensures x > 255 ==> r == 255
  {
    Maths.ClampInt(x, 0, 255)
  }

  /** The code buffer after appending each of cs followed by ';'. */
  function Terminated(cs: seq<string>): string
  {
    if cs == [] then "" else Terminated(cs[..|cs| - 1]) + cs[|cs| - 1] + ";"
  }

  /** The parameters joined by ';', as ECMA-48 separates SGR parameters. */
  function Separated(cs: seq<string>): string
    requires cs != []
  {
    if |cs| == 1 then cs[0] else Separated(cs[..|cs| - 1]) + ";" + cs[|cs| - 1]
  }

  /** The decimal texts of int codes, as `code + ""` writes them. */
  function Texts(cs: seq<int32>): (r: seq<string>)
    ensures |r| == |cs|
  {
    if cs == [] then [] else Texts(cs[..|cs| - 1]) + [IntString(cs[|cs| - 1])]
  }

  /** The k-th text is the decimal text of the k-th code. */
  lemma {:induction false} TextsAt(cs: seq<int32>, k: int)
    requires 0 <= k < |cs|
    ensures Texts(cs)[k] == IntString(cs[k])
    decreases |cs|
  {
    if k < |cs| - 1 {
      TextsAt(cs[..|cs| - 1], k);
    }
  }

  /** One more code: the buffer grows by its text and a ';'. */
  lemma TextsSnoc(start: string, cs: seq<int32>, i: int)
    requires 0 <= i < |cs|
    ensures start + Terminated(Texts(cs[..i + 1])) == start + Terminated(Texts(cs[..i])) + IntString(cs[i]) + ";"
  {
    assert cs[..i + 1][..i] == cs[..i];
    TerminatedSnoc(Texts(cs[..i]), IntString(cs[i]));
  }

  lemma TerminatedSnoc(cs: seq<string>, c: string)
    ensures Terminated(cs + [c]) == Terminated(cs) + c + ";"
  {
    assert (cs + [c])[..|cs|] == cs;
  }

  lemma {:induction false} TerminatedAppend(a: seq<string>, b: seq<string>)
    ensures Terminated(a + b) == Terminated(a) + Terminated(b)
    decreases |b|
  {
    if b == [] {
      assert a + b == a;
    } else {
      var b', x := b[..|b| - 1], b[|b| - 1];
      assert a + b == (a + b') + [x];
      assert b == b' + [x];
      TerminatedSnoc(a + b', x);
      TerminatedSnoc(b', x);
      TerminatedAppend(a, b');
    }
  }

  /** A non-empty buffer of terminated codes is the separated codes plus one trailing ';'. */
  lemma {:induction false} TerminatedIsSeparated(cs: seq<string>)
    requires cs != []
    ensures Terminated(cs) == Separated(cs) + ";"
  {
    if |cs| > 1 {
      TerminatedIsSeparated(cs[..|cs| - 1]);
    } else {
      assert cs[..0] == [];
    }
  }

  /** end(): the buffer without its last ';'; None where Java's deleteCharAt(-1) throws. */
  function EndCodes(s: string): (r: Option<string>)
    ensures r.None? <==> forall i | 0 <= i < |s| :: s[i] != ';'
    ensures r.Some? ==> |r.value| == |s| - 1
  {
    match LastIndexOf(s, ';')
    case None => None
    case Some(i) => Some(s[..i] + s[i + 1..])
  }

  /** end() after a non-empty run of style calls yields exactly the ';'-separated parameter list. */
  lemma EndOfTerminated(cs: seq<string>)
    requires cs != []
    ensures EndCodes(Terminated(cs)) == Some(Separated(cs))
  {
    TerminatedIsSeparated(cs);
    var s := Terminated(cs);
    assert s == Separated(cs) + ";";
    assert s[|s| - 1] == ';';
    assert LastIndexOf(s, ';') == Some(|s| - 1);
    assert s[..|s| - 1] == Separated(cs);
    assert s[..|s| - 1] + s[|s|..] == Separated(cs);
  }

  /** An SGR escape: CSI, the parameters, 'm', then the text it applies to. */
  function Sgr(params: string, text: string): (r: string)
    ensures |r| == |params| + |text| + 3
    ensures r[..2] == CSI && r[|r| - |text|..] == text
  {
    CSI + params + "m" + text
  }

  /** Rebracketing CSI + (e + "m" + x + tail) into an SGR escape and its tail. */
  lemma SgrShape(e: string, x: string, tail: string)
    ensures CSI + (e + "m" + x + tail) == Sgr(e, x) + tail
  {
  }

  /** The output of toString(c): the escaped content and c plus the reset when enabled, c alone otherwise. */
  function ToStringOut(enabled: bool, codes: string, content: string, c: string): Option<string>
  {
    if !enabled then Some(c)
    else
      match EndCodes(codes)
      case None => None
      case Some(e) => Some(Sgr(e, content + c) + RESET)
  }

  /** The output of render(), which appends the content buffer to itself before writing it. */
  function RenderAsWritten(codes: string, content: string): Option<string>
  {
    match EndCodes(codes)
    case None => None
    case Some(e) => Some(Sgr(e, content + content))
  }

  /** The output of toString(), which passes the content to toString(c) and so writes it twice. */
  function ToStringSelfAsWritten(enabled: bool, codes: string, content: string): Option<string>
  {
    ToStringOut(enabled, codes, content, content)
  }

  /** render() without the doubling: the escaped content, no reset. */
  function RenderOut(codes: string, content: string): Option<string>
  {
    match EndCodes(codes)
    case None => None
    case Some(e) => Some(Sgr(e, content))
  }

  /** toString() without the doubling: the content once, with the reset when enabled. */
  function ToStringSelfOut(enabled: bool, codes: string, content: string): Option<string>
  {
    if enabled then ToStringOut(true, codes, content, "") else Some(content)
  }

  /** As written, render() and toString() emit the content twice: "a" styled bold comes out as "aa". */
  lemma RenderAsWrittenDoubles(codes: string, content: string)
    requires EndCodes(codes).Some? && content != ""
    ensures RenderAsWritten(codes, content) == RenderOut(codes, content + content)
    ensures RenderAsWritten(codes, content) != RenderOut(codes, content)
    ensures ToStringSelfAsWritten(true, codes, content) == ToStringSelfOut(true, codes, content + content)
    ensures ToStringSelfAsWritten(true, codes, content) != ToStringSelfOut(true, codes, content)
  {
    assert content + content + "" == content + content;
    assert content + "" == content;
    var e := EndCodes(codes).value;
    assert |Sgr(e, content + content) + RESET| != |Sgr(e, content + "") + RESET|;
  }

  /** toString() is render() followed by the reset, and toString(c) with ANSI off is c. */
  lemma ToStringIsRenderThenReset(codes: string, content: string, c: string)
    ensures ToStringSelfOut(true, codes, content) ==
      (match RenderOut(codes, content) case None => None case Some(s) => Some(s + RESET))
    ensures ToStringOut(false, codes, content, c) == Some(c)
  {
    assert content + "" == content;
  }

  /** The whole contract of a styled string: make(x), a non-empty run of codes, toString(c). */
  lemma StyledString(cs: seq<string>, x: string, c: string)
    requires cs != []
    ensures ToStringOut(true, Terminated(cs), x, c) == Some(CSI + Separated(cs) + "m" + x + c + RESET)
  {
    EndOfTerminated(cs);
    var p := Separated(cs);
    assert Sgr(p, x + c) + RESET == CSI + p + "m" + x + c + RESET;
  }

  /** ESC written as the four characters \033, as escaped() prints it. */
  function Escape(s: string): (r: string)
    ensures |r| >= |s|
    ensures (forall i | 0 <= i < |s| :: s[i] != ESC) ==> r == s
  {
    if s == [] then [] else Escape(s[..|s| - 1]) + (if s[|s| - 1] == ESC then ESC_TEXT else [s[|s| - 1]])
  }

  lemma {:induction false} EscapeAppend(a: string, b: string)
    ensures Escape(a + b) == Escape(a) + Escape(b)
    decreases |b|
  {
    if b == [] {
      assert a + b == a;
    } else {
      var b', x := b[..|b| - 1], b[|b| - 1];
      assert (a + b)[..|a + b| - 1] == a + b';
      EscapeAppend(a, b');
    }
  }

  /** The output of escaped(): the SGR text with ESC spelled out and the reset appended. */
  function EscapedOut(codes: string, content: string): Option<string>
  {
    match EndCodes(codes)
    case None => None
    case Some(e) => Some(ESC_TEXT + "[" + e + "m" + content + ESC_TEXT + "[0m")
  }

  predicate EscFree(s: string)
  {
    forall i | 0 <= i < |s| :: s[i] != ESC
  }

  /** end() only deletes, so it keeps a buffer free of ESC. */
  lemma EndKeepsEscFree(codes: string)
    requires EscFree(codes) && EndCodes(codes).Some?
    ensures EscFree(EndCodes(codes).value)
  {
    var j := LastIndexOf(codes, ';').value;
    var e := EndCodes(codes).value;
    forall i | 0 <= i < |e|
      ensures e[i] != ESC
    {
      if i < j {
        assert e[i] == codes[i];
      } else {
        assert e[i] == codes[i + 1];
      }
    }
  }

  lemma EscapeFrame(body: string)
    requires EscFree(body)
    ensures Escape(CSI + body + RESET) == ESC_TEXT + "[" + body + ESC_TEXT + "[0m"
  {
    EscapeAppend(CSI, body);
    EscapeAppend(CSI + body, RESET);
    assert Escape(CSI) == ESC_TEXT + "[" by {
      assert CSI[..1] == [ESC];
      assert Escape([ESC]) == Escape([]) + ESC_TEXT;
    }
    assert Escape(RESET) == ESC_TEXT + "[0m" by {
      EscapeAppend(CSI, "0m");
    }
  }

  /** escaped() prints toString() with each ESC replaced by \033 (for codes and content free of ESC). */
  lemma EscapedIsToStringSpelledOut(codes: string, content: string)
    requires EscFree(codes) && EscFree(content)
    ensures EscapedOut(codes, content).Some? <==> ToStringSelfOut(true, codes, content).Some?
    ensures EscapedOut(codes, content).Some? ==>
      EscapedOut(codes, content).value == Escape(ToStringSelfOut(true, codes, content).value)
  {
    if EndCodes(codes).Some? {
      var e := EndCodes(codes).value;
      EndKeepsEscFree(codes);
      var body := e + "m" + content;
      assert EscFree(body) by {
        forall i | 0 <= i < |body|
          ensures body[i] != ESC
        {
          if i < |e| {
            assert body[i] == e[i];
          } else if i > |e| {
            assert body[i] == content[i - |e| - 1];
          }
        }
      }
      assert ToStringSelfOut(true, codes, content).value == CSI + body + RESET by {
        assert content + "" == content;
      }
      EscapeFrame(body);
    }
  }

  /** InternedInstance: the code buffer ($ansi_content) and the content buffer of one builder. */
  class InternedInstance {
    /** The SGR parameters appended so far, each followed by ';'. */
    var codes: string
    /** The text to be styled. */
    var content: string

    /** make(content) (make() is make("")): no codes yet. */
    constructor(content: string)
      ensures codes == "" && this.content == content
    {
      codes := "";
      this.content := content;
    }

    /** The private make(code): appends the code and a ';'. */
    method Make(code: string)
      modifies this
      ensures codes == old(codes) + code + ";"
      ensures content == old(content)
    {
      codes := codes + code + ";";
    }

    /** The colour_fg() methods, and the aliases (black(), gray(), dark_gray(), white() and the rest) that call them. */
    method Foreground(c: Color)
      modifies this
      ensures codes == old(codes) + IntString(FgCode(c)) + ";"
      ensures content == old(content)
    {
      Make(IntString(FgCode(c)));
    }

    /** The colour_bg() methods, with blue at 44. */
    method Background(c: Color)
      modifies this
      ensures codes == old(codes) + IntString(BgCode(c)) + ";"
      ensures content == old(content)
    {
      Make(IntString(BgCode(c)));
    }

    /** The font-effect methods bold() .. no_overlined(). */
    method Style(e: Effect)
      modifies this
      ensures codes == old(codes) + IntString(EffectCode(e)) + ";"
      ensures content == old(content)
    {
      Make(IntString(EffectCode(e)));
    }

    /** make(int... codes) and apply(int... codes): each code's decimal text followed by ';', in order. */
    method MakeCodes(cs: seq<int32>)
      modifies this
      ensures codes == old(codes) + Terminated(Texts(cs))
      ensures content == old(content)
    {
      var acc := codes;
      var i := 0;
      while i < |cs|
        invariant 0 <= i <= |cs|
        invariant acc == old(codes) + Terminated(Texts(cs[..i]))
        invariant unchanged(this)
      {
        TextsSnoc(old(codes), cs, i);
        acc := acc + IntString(cs[i]) + ";";
        i := i + 1;
      }
      codes := acc;
      assert cs[..i] == cs;
    }

    /** rgb_fg(r, g, b): "38;2;r;g;b;" with each channel clamped into [0, 255]. */
    method RgbForeground(r: int32, g: int32, b: int32)
      modifies this
      ensures codes == old(codes) + "38;2;" + Terminated(Texts([RgbChannel(r), RgbChannel(g), RgbChannel(b)]))
      ensures content == old(content)
    {
      Make("38");
      Make("2");
      MakeCodes([RgbChannel(r), RgbChannel(g), RgbChannel(b)]);
      assert "38" + ";" + "2" + ";" == "38;2;";
    }

    /** rgb_bg(r, g, b): "48;2;r;g;b;" with each channel clamped into [0, 255]. */
    method RgbBackground(r: int32, g: int32, b: int32)
      modifies this
      ensures codes == old(codes) + "48;2;" + Terminated(Texts([RgbChannel(r), RgbChannel(g), RgbChannel(b)]))
      ensures content == old(content)
    {
      Make("48");
      Make("2");
      MakeCodes([RgbChannel(r), RgbChannel(g), RgbChannel(b)]);
      assert "48" + ";" + "2" + ";" == "48;2;";
    }

    /** append(s): adds to the content. */
    method Append(s: string)
      modifies this
      ensures content == old(content) + s && codes == old(codes)
    {
      content := content + s;
    }

    /** end(): deletes the last ';' of the code buffer; ok is false where Java throws (no ';'). */
    method End() returns (ok: bool)
      modifies this
      ensures ok <==> EndCodes(old(codes)).Some?
      ensures ok ==> codes == EndCodes(old(codes)).value
      ensures !ok ==> codes == old(codes)
      ensures content == old(content)
    {
      var i := LastIndexOf(codes, ';');
      if i.None? {
        return false;
      }
      codes := codes[..i.value] + codes[i.value + 1..];
      return true;
    }

    /**
     * toString(c): with ANSI on, end() and then "m", the content with c
     * appended and the reset are appended to the code buffer, and the result
     * is CSI followed by that buffer; with ANSI off, c alone and no change.
     */
    method ToString(enabled: bool, c: string) returns (r: Option<string>)
      modifies this
      ensures r == ToStringOut(enabled, old(codes), old(content), c)
      ensures r.Some? && enabled ==> content == old(content) + c && r.value == CSI + codes
      ensures (r.None? || !enabled) ==> codes == old(codes) && content == old(content)
    {
      if !enabled {
        return Some(c);
      }
      var ok := End();
      if !ok {
        return None;
      }
      ghost var e := codes;
      content := content + c;
      codes := codes + "m" + content + RESET;
      r := Some(CSI + codes);
      SgrShape(e, content, RESET);
    }

    /** toString(): the content once, followed by the reset when ANSI is on. */
    method ToStringSelf(enabled: bool) returns (r: Option<string>)
      modifies this
      ensures r == ToStringSelfOut(enabled, old(codes), old(content))
      ensures content == old(content)
      ensures r.Some? && enabled ==> r.value == CSI + codes
      ensures (r.None? || !enabled) ==> codes == old(codes)
    {
      if !enabled {
        return Some(content);
      }
      r := ToString(true, "");
      assert old(content) + "" == old(content);
    }

    /** render(): CSI, the parameters, 'm' and the content once, without the reset. */
    method Render() returns (r: Option<string>)
      modifies this
      ensures r == RenderOut(old(codes), old(content))
      ensures content == old(content)
      ensures r.Some? ==> r.value == CSI + codes
      ensures r.None? ==> codes == old(codes)
    {
      var ok := End();
      if !ok {
        return None;
      }
      ghost var e := codes;
      codes := codes + "m" + content;
      r := Some(CSI + codes);
      SgrShape(e, content, "");
      assert codes + "" == codes && Sgr(e, content) + "" == Sgr(e, content);
    }

    /** escaped(): the same text with ESC spelled \033, for printing the escape itself. */
    method Escaped() returns (r: Option<string>)
      modifies this
      ensures r == EscapedOut(old(codes), old(content))
      ensures content == old(content)
      ensures r.Some? ==> r.value == ESC_TEXT + "[" + codes
      ensures r.None? ==> codes == old(codes)
    {
      var ok := End();
      if !ok {
        return None;
      }
      ghost var e := codes;
      codes := codes + "m" + content + ESC_TEXT + "[0m";
      r := Some(ESC_TEXT + "[" + codes);
      assert ESC_TEXT + "[" + (e + "m" + content + ESC_TEXT + "[0m") == ESC_TEXT + "[" + e + "m" + content + ESC_TEXT + "[0m";
    }
  }
}
