/**
 * The parts of Java's text library the model uses: hexadecimal and decimal
 * formatting of integers (Integer.toHexString, "%02x", Integer.toString),
 * parsing (Integer.valueOf(s, 16)), ASCII lower-casing and substring search.
 */
module JavaText {
  import opened Wrappers
  import opened JavaInt

  const HEX_DIGITS: string := "0123456789abcdef"

  /** The lower-case hexadecimal digit for 0..15. */
  function HexDigit(d: nat): (c: char)
    requires d < 16
    ensures HexValue(c) == Some(d)
  {
    HEX_DIGITS[d]
  }

  /** Character.digit(c, 16) on ASCII: the digit's value, or None. */
  function HexValue(c: char): (r: Option<nat>)
    ensures r.Some? ==> r.value < 16
  {
    if '0' <= c <= '9' then Some(c as nat - '0' as nat)
    else if 'a' <= c <= 'f' then Some(c as nat - 'a' as nat + 10)
    else if 'A' <= c <= 'F' then Some(c as nat - 'A' as nat + 10)
    else None
  }

  /** The value of a string of hexadecimal digits, most significant first; None if one is not a digit. */
  function HexDigitsValue(s: string): (r: Option<nat>)
  {
    if s == [] then Some(0)
    else
      match HexDigitsValue(s[..|s| - 1])
      case None => None
      case Some(hi) =>
        match HexValue(s[|s| - 1])
        case None => None
        case Some(lo) => Some(16 * hi + lo)
  }

  /**
   * Integer.valueOf(s, 16): an optional sign followed by at least one
   * hexadecimal digit; anything else (including the empty string) is a
   * NumberFormatException, here None. Results outside the int range are
   * also rejected by Java; the strings parsed in this model have at most
   * two digits.
   */
  function ParseHex(s: string): (r: Option<int>)
    ensures |s| > 0 && s[0] != '-' && s[0] != '+' ==> (r.Some? <==> HexDigitsValue(s).Some?)
    ensures |s| > 0 && s[0] != '-' && s[0] != '+' && r.Some? ==> r.value == HexDigitsValue(s).value
  {
    if s == [] then None
    else if s[0] == '-' || s[0] == '+' then
      if |s| == 1 then None
      else
        match HexDigitsValue(s[1..])
        case None => None
        case Some(v) =>
          var x: int := if s[0] == '-' then -(v as int) else v as int;
          Some(x)
    else
      match HexDigitsValue(s)
      case None => None
      case Some(v) => Some(v)
  }

  /** Integer.toHexString of a non-negative value: the shortest lower-case digit string ("0" for zero). */
  function HexString(n: nat): (s: string)
    ensures 1 <= |s|
    ensures forall i | 0 <= i < |s| :: HexValue(s[i]).Some?
  {
    if n < 16 then [HexDigit(n)] else HexString(n / 16) + [HexDigit(n % 16)]
  }

  /** `w` hexadecimal digits of n (the low ones), zero-padded, as "%0wx" writes a value below 16^w. */
  function FixedHex(n: nat, w: nat): (s: string)
    ensures |s| == w
  {
    if w == 0 then [] else FixedHex(n / 16, w - 1) + [HexDigit(n % 16)]
  }

  function Zeros(k: nat): (s: string)
    ensures |s| == k && forall i | 0 <= i < k :: s[i] == '0'
  {
    if k == 0 then [] else Zeros(k - 1) + "0"
  }

  /** Left-pads s with '0' to width w, as a "%0w" format does. */
  function PadZeros(s: string, w: nat): (r: string)
    ensures |r| == if |s| >= w then |s| else w
  {
    if |s| >= w then s else Zeros(w - |s|) + s
  }

  function Pow16(k: nat): (p: nat)
    ensures p >= 1
  {
    if k == 0 then 1 else 16 * Pow16(k - 1)
  }

  /** Reading back w fixed digits gives the value modulo 16^w. */
  lemma {:induction false} FixedHexValue(n: nat, w: nat)
    ensures HexDigitsValue(FixedHex(n, w)) == Some(n % Pow16(w))
  {
    if w > 0 {
      var s := FixedHex(n, w);
      assert s[..|s| - 1] == FixedHex(n / 16, w - 1);
      FixedHexValue(n / 16, w - 1);
      ModSplit(n, Pow16(w - 1));
    }
  }

  /** n mod 16p = 16 ((n / 16) mod p) + n mod 16. */
  lemma ModSplit(n: nat, p: nat)
    requires p >= 1
    ensures n % (16 * p) == 16 * ((n / 16) % p) + n % 16
  {
    var q := n / 16;
    var a, b := q / p, q % p;
    assert n == 16 * q + n % 16;
    assert q == a * p + b;
    assert n == a * (16 * p) + (16 * b + n % 16);
    assert 0 <= 16 * b + n % 16 < 16 * p;
    ModUnique(n, 16 * p, a, 16 * b + n % 16);
  }

  /** The zero digits read back as zero. */
  lemma {:induction false} FixedHexZero(w: nat)
    ensures FixedHex(0, w) == Zeros(w)
  {
    if w > 0 {
      FixedHexZero(w - 1);
    }
  }

  lemma PadZerosForm(s: string, w: nat)
    requires |s| <= w
    ensures PadZeros(s, w) == Zeros(w - |s|) + s
  {
  }

  /** A value below 16^w has at most w digits, and padding them to w gives the fixed-width form. */
  lemma {:induction false} PadIsFixed(n: nat, w: nat)
    requires 1 <= w && n < Pow16(w)
    ensures |HexString(n)| <= w
    ensures PadZeros(HexString(n), w) == FixedHex(n, w)
  {
    if n < 16 {
      PadOneDigit(n, w);
    } else {
      if w == 1 {
        assert false;
      }
      DivBound(n, Pow16(w - 1));
      PadIsFixed(n / 16, w - 1);
      PadStep(n, w);
    }
  }

  lemma PadOneDigit(n: nat, w: nat)
    requires 1 <= w && n < 16
    ensures |HexString(n)| <= w
    ensures PadZeros(HexString(n), w) == FixedHex(n, w)
  {
    assert n / 16 == 0 && n % 16 == n;
    FixedHexZero(w - 1);
    assert FixedHex(n, w) == Zeros(w - 1) + [HexDigit(n)];
    assert HexString(n) == [HexDigit(n)];
    PadZerosForm(HexString(n), w);
  }

  lemma DivBound(n: nat, p: nat)
    requires n < 16 * p
    ensures n / 16 < p
  {
  }

  /** One more digit on both sides of the padded form. */
  lemma PadStep(n: nat, w: nat)
    requires 2 <= w && 16 <= n
    requires |HexString(n / 16)| <= w - 1
    requires PadZeros(HexString(n / 16), w - 1) == FixedHex(n / 16, w - 1)
    ensures |HexString(n)| <= w
    ensures PadZeros(HexString(n), w) == FixedHex(n, w)
  {
    var h, d := HexString(n / 16), [HexDigit(n % 16)];
    var k := w - 1 - |h|;
    PadZerosForm(h, w - 1);
    assert FixedHex(n, w) == Zeros(k) + h + d;
    assert HexString(n) == h + d;
    PadZerosForm(h + d, w);
    assert Zeros(k) + h + d == Zeros(k) + (h + d);
  }

  /** The decimal digits of a non-negative value, most significant first. */
  function DecimalDigits(n: nat): (s: string)
    ensures 1 <= |s| && forall i | 0 <= i < |s| :: '0' <= s[i] <= '9'
  {
    if n < 10 then [(n + '0' as nat) as char] else DecimalDigits(n / 10) + [(n % 10 + '0' as nat) as char]
  }

  /** The value of a string of decimal digits. */
  function DecimalValue(s: string): nat
    requires forall i | 0 <= i < |s| :: '0' <= s[i] <= '9'
  {
    if s == [] then 0 else 10 * DecimalValue(s[..|s| - 1]) + (s[|s| - 1] as nat - '0' as nat)
  }

  /** Decimal digits read back as the value they were made from. */
  lemma {:induction false} DecimalRoundTrip(n: nat)
    ensures DecimalValue(DecimalDigits(n)) == n
  {
    if n >= 10 {
      var s := DecimalDigits(n);
      assert s[..|s| - 1] == DecimalDigits(n / 10);
      DecimalRoundTrip(n / 10);
    }
  }

  /** Integer.toString(n) (also `n + ""`): a '-' before the digits of a negative value. */
  function IntString(n: int): (s: string)
    ensures n >= 0 ==> s == DecimalDigits(n)
    ensures n < 0 ==> s == "-" + DecimalDigits(-n)
  {
    if n < 0 then "-" + DecimalDigits(-n) else DecimalDigits(n)
  }

  /** String.toLowerCase on ASCII letters. */
  function ToLower(s: string): (r: string)
    ensures |r| == |s|
    ensures forall i | 0 <= i < |s| :: r[i] == LowerChar(s[i])
  {
    if s == [] then [] else ToLower(s[..|s| - 1]) + [LowerChar(s[|s| - 1])]
  }

  function LowerChar(c: char): (r: char)
    ensures !('A' <= r <= 'Z')
  {
    if 'A' <= c <= 'Z' then (c as int - 'A' as int + 'a' as int) as char else c
  }

  /** Lower-casing twice is lower-casing once. */
  lemma ToLowerIdempotent(s: string)
    ensures ToLower(ToLower(s)) == ToLower(s)
  {
    assert forall i | 0 <= i < |s| :: LowerChar(LowerChar(s[i])) == LowerChar(s[i]);
  }

  /** t occurs in s starting at index i. */
  predicate OccursAt(s: string, t: string, i: int)
  {
    0 <= i && i + |t| <= |s| && s[i..i + |t|] == t
  }

  /** s.contains(t): t occurs in s at some index. */
  predicate Contains(s: string, t: string)
  {
    exists i | 0 <= i <= |s| :: OccursAt(s, t, i)
  }

  /** The search String.contains performs: the first index where t starts, or None. */
  function IndexOf(s: string, t: string, from: nat): (r: Option<nat>)
    requires from <= |s| + 1
    ensures r.Some? ==> from <= r.value && OccursAt(s, t, r.value)
    ensures r.Some? ==> forall i | from <= i < r.value :: !OccursAt(s, t, i)
    ensures r.None? ==> forall i | from <= i :: !OccursAt(s, t, i)
    decreases |s| + 1 - from
  {
    if from + |t| > |s| then None
    else if OccursAt(s, t, from) then Some(from)
    else IndexOf(s, t, from + 1)
  }

  /** String.contains by search agrees with the definition. */
  lemma ContainsIffFound(s: string, t: string)
    ensures Contains(s, t) <==> IndexOf(s, t, 0).Some?
  {
  }

  /** s.lastIndexOf(c): the last index holding c, or None (-1). */
  function LastIndexOf(s: string, c: char): (r: Option<nat>)
    ensures r.Some? ==> r.value < |s| && s[r.value] == c && forall j | r.value < j < |s| :: s[j] != c
    ensures r.None? ==> forall j | 0 <= j < |s| :: s[j] != c
  {
    if s == [] then None
    else if s[|s| - 1] == c then Some(|s| - 1)
    else LastIndexOf(s[..|s| - 1], c)
  }
}
