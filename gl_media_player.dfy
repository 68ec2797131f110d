/**
 * The public face of the JOGL media player: stream-id constants, chapter
 * metadata, the player state enumeration and the EventMask bit set that
 * reports what changed on each event.
 */
module GLMediaPlayer {
  import opened JavaInt
  import FfmpegTool

  const TEXTURE_COUNT_DEFAULT: int := 3
  const TEXTURE_COUNT_MIN: int := 1
  const STREAM_ID_NONE: int32 := -2
  const STREAM_ID_AUTO: int32 := -1

  /** The Java constants agree with the native ones, so ids cross the JNI boundary unchanged. */
  lemma StreamIdConstantsAgree()
    ensures STREAM_ID_NONE as int == FfmpegTool.AV_STREAM_ID_NONE
    ensures STREAM_ID_AUTO as int == FfmpegTool.AV_STREAM_ID_AUTO
    ensures STREAM_ID_NONE != STREAM_ID_AUTO && STREAM_ID_NONE < 0 && STREAM_ID_AUTO < 0
    ensures 0 < TEXTURE_COUNT_MIN < TEXTURE_COUNT_DEFAULT
  {
  }

  // ---------------------------------------------------------------- chapters

  /** Chapter metadata; start and end are presentation times in milliseconds. */
  datatype Chapter = Chapter(id: int32, start: int32, end: int32, title: string)

  /** `end - start + 1` in Java int arithmetic (both bounds are inclusive). */
  function Duration(c: Chapter): (d: int32)
    ensures c.start <= c.end && IsInt32(c.end as int - c.start + 1) ==> d >= 1
  {
    Wrap32(c.end as int - c.start + 1)
  }

  /** Without overflow, a chapter's duration counts exactly the milliseconds from start to end. */
  lemma DurationCoversChapter(c: Chapter, msec: int)
    requires c.start <= c.end && IsInt32(c.end as int - c.start + 1)
    ensures c.start <= msec <= c.end <==> c.start <= msec < c.start + Duration(c)
  {
  }

  /** The subtraction wraps: a chapter spanning more than 2^31 - 1 ms reports a negative duration. */
  lemma DurationWraps()
    ensures Duration(Chapter(0, INT_MIN as int32, 0, "")) == INT_MIN + 1
  {
    ModUnique(0x8000_0001, TWO_32, 0, 0x8000_0001);
  }

  // ---------------------------------------------------------------- player state

  datatype State = Uninitialized | Initialized | Playing | Paused
  {
    function Id(): (n: int)
      ensures 0 <= n <= 3
    {
      match this
      case Uninitialized => 0
      case Initialized => 1
      case Playing => 2
      case Paused => 3
    }
  }

  /** The state ids are distinct, so the id identifies the state. */
  lemma StateIdInjective(s: State, t: State)
    ensures s.Id() == t.Id() <==> s == t
  {
  }

  // ---------------------------------------------------------------- event bits

  /*
   * A Java int used as a bit set is modelled as the set of positions 0..31
   * whose bit is one: `|` is union, `&` is intersection and `0` is the empty
   * set. Every word below is a subset of 0..31.
   */
  predicate IsWord(w: set<nat>) { forall i :: i in w ==> i < 32 }

  datatype Bit =
    | Init | Uninit | Play | Pause | Seek | EOS | Error
    | VID | AID | SID | Size | FPS | BPS | Length | Codec | ACodec | VCodec | SCodec

  /** The position of the enumeration's single-bit `value`. */
  function Pos(b: Bit): (k: nat)
    ensures k < 32
  {
    match b
    case Init => 0
    case Uninit => 1
    case Play => 2
    case Pause => 3
    case Seek => 4
    case EOS => 5
    case Error => 6
    case VID => 16
    case AID => 17
    case SID => 18
    case Size => 19
    case FPS => 20
    case BPS => 21
    case Length => 22
    case Codec => 23
    case ACodec => 24
    case VCodec => 25
    case SCodec => 26
  }

  /** The enumeration's `value` as a word: the single bit at Pos(b). */
  function Value(b: Bit): set<nat>
  {
    {Pos(b)}
  }

  /** The enumeration's `value` as a number. */
  function IntValue(b: Bit): nat
  {
    Pow2(Pos(b))
  }

  /** The enumeration's `name()`. */
  function Name(b: Bit): string
  {
    match b
    case Init => "Init"
    case Uninit => "Uninit"
    case Play => "Play"
    case Pause => "Pause"
    case Seek => "Seek"
    case EOS => "EOS"
    case Error => "Error"
    case VID => "VID"
    case AID => "AID"
    case SID => "SID"
    case Size => "Size"
    case FPS => "FPS"
    case BPS => "BPS"
    case Length => "Length"
    case Codec => "Codec"
    case ACodec => "ACodec"
    case VCodec => "VCodec"
    case SCodec => "SCodec"
  }

  /** `Bit.values()`: every bit, in declaration order. */
  const AllBits: seq<Bit> :=
    [Init, Uninit, Play, Pause, Seek, EOS, Error,
     VID, AID, SID, Size, FPS, BPS, Length, Codec, ACodec, VCodec, SCodec]

  /** Whether bit b is on in the word `mask`. */
  predicate Has(mask: set<nat>, b: Bit) { Pos(b) in mask }

  /** Every value is a single bit, and two different bits never share it. */
  lemma BitValuesArePowersOfTwo(b: Bit, c: Bit)
    ensures IsWord(Value(b)) && |Value(b)| == 1
    ensures b != c ==> Value(b) * Value(c) == {}
    ensures Value(b) == Value(c) <==> b == c
  {
    PosInjective(b, c);
    if b != c {
      assert Pos(b) !in Value(c);
    }
  }

  /** As numbers, the values are distinct powers of two. */
  lemma IntValuesDistinct(b: Bit, c: Bit)
    ensures IntValue(b) == Pow2(Pos(b))
    ensures IntValue(b) == IntValue(c) <==> b == c
  {
    PosInjective(b, c);
    if Pos(b) < Pos(c) {
      Pow2Monotone(Pos(b), Pos(c));
    } else if Pos(c) < Pos(b) {
      Pow2Monotone(Pos(c), Pos(b));
    }
  }

  lemma PosInjective(b: Bit, c: Bit)
    ensures Pos(b) == Pos(c) <==> b == c
  {
    match b
    case Init => {} case Uninit => {} case Play => {} case Pause => {}
    case Seek => {} case EOS => {} case Error => {} case VID => {}
    case AID => {} case SID => {} case Size => {} case FPS => {}
    case BPS => {} case Length => {} case Codec => {} case ACodec => {}
    case VCodec => {} case SCodec => {}
  }

  /** The numeric values of a few bits, as the enumeration declares them. */
  lemma BitIntValues()
    ensures IntValue(Init) == 1 && IntValue(Error) == 0x40
    ensures IntValue(VID) == 0x1_0000 && IntValue(SCodec) == 0x400_0000
  {
    assert Pow2(6) == 0x40;
    assert Pow2(16) == 0x1_0000;
    assert Pow2(26) == 0x400_0000;
  }

  /** isSet(Bit) tests `bit.value == (mask & bit.value)`, which holds exactly when the bit is on. */
  lemma HasIsAnd(mask: set<nat>, b: Bit)
    ensures Has(mask, b) <==> Value(b) == mask * Value(b)
  {
    if Pos(b) in mask {
      assert mask * Value(b) == Value(b);
    }
  }

  /** The enumeration's ordinal: where b stands in Bit.values(). */
  function Ordinal(b: Bit): (i: nat)
    ensures i < |AllBits| && AllBits[i] == b
  {
    match b
    case Init => 0 case Uninit => 1 case Play => 2 case Pause => 3 case Seek => 4
    case EOS => 5 case Error => 6 case VID => 7 case AID => 8 case SID => 9
    case Size => 10 case FPS => 11 case BPS => 12 case Length => 13 case Codec => 14
    case ACodec => 15 case VCodec => 16 case SCodec => 17
  }

  /** Bit.values() lists every bit exactly once. */
  lemma AllBitsEnumerates(b: Bit)
    ensures b in AllBits
    ensures forall i, j :: 0 <= i < j < |AllBits| ==> AllBits[i] != AllBits[j]
  {
  }

  /** getBits: the bitwise OR of the listed values, folded in list order. */
  function BitsOf(v: seq<Bit>): set<nat>
  {
    if |v| == 0 then {} else BitsOf(v[..|v| - 1]) + Value(v[|v| - 1])
  }

  /** getBits sets exactly the listed bits and yields a 32-bit word. */
  lemma {:induction false} BitsOfExactly(v: seq<Bit>, b: Bit)
    ensures Has(BitsOf(v), b) <==> b in v
    ensures IsWord(BitsOf(v))
  {
    if |v| > 0 {
      var p, c := v[..|v| - 1], v[|v| - 1];
      assert v == p + [c];
      BitsOfExactly(p, b);
      BitValuesArePowersOfTwo(b, c);
    }
  }

  /** isSet(List): `bits_i == (mask & bits_i)` with bits_i = getBits(list). */
  predicate IsSetBitsOf(mask: set<nat>, v: seq<Bit>)
  {
    BitsOf(v) == mask * BitsOf(v)
  }

  /** isSet(List) holds iff every listed bit is set. */
  lemma {:induction false} IsSetBitsIff(mask: set<nat>, v: seq<Bit>)
    ensures IsSetBitsOf(mask, v) <==> forall b :: b in v ==> Has(mask, b)
  {
    if |v| > 0 {
      var p, c := v[..|v| - 1], v[|v| - 1];
      assert v == p + [c];
      IsSetBitsIff(mask, p);
      assert BitsOf(v) == BitsOf(p) + Value(c);
      assert IsSetBitsOf(mask, v) <==> IsSetBitsOf(mask, p) && Has(mask, c);
      assert forall b :: b in v <==> b in p || b == c;
    }
  }

  /** setBit(b) turns on b, keeps every other bit as it was, and leaves a non-zero mask. */
  lemma SetBitEffect(mask: set<nat>, b: Bit, c: Bit)
    ensures Has(mask + Value(b), b) && mask + Value(b) != {}
    ensures c != b ==> (Has(mask + Value(b), c) <==> Has(mask, c))
    ensures Has(mask, c) ==> Has(mask + Value(b), c)
  {
    BitValuesArePowersOfTwo(b, c);
  }

  /** Setting a bit twice is the same as once, and setting a bit already set changes nothing. */
  lemma SetBitIdempotent(mask: set<nat>, b: Bit)
    ensures (mask + Value(b)) + Value(b) == mask + Value(b)
    ensures Has(mask, b) <==> mask + Value(b) == mask
  {
  }

  // ---------------------------------------------------------------- toString

  /** The names of the bits of `bits` set in `mask`, in the order given. */
  function SetNames(mask: set<nat>, bits: seq<Bit>): seq<string>
  {
    if |bits| == 0 then []
    else
      var last := bits[|bits| - 1];
      SetNames(mask, bits[..|bits| - 1]) + (if Has(mask, last) then [Name(last)] else [])
  }

  /** Names separated by ", ". */
  function Join(names: seq<string>): string
  {
    if |names| == 0 then ""
    else if |names| == 1 then names[0]
    else Join(names[..|names| - 1]) + ", " + names[|names| - 1]
  }

  /** The text toString builds for a mask. */
  function MaskString(mask: set<nat>): string
  {
    var names := SetNames(mask, AllBits);
    if |names| == 0 then "None"
    else if |names| == 1 then names[0]
    else "[" + Join(names) + "]"
  }

  lemma {:induction false} SetNamesEmptyIff(mask: set<nat>, bits: seq<Bit>)
    ensures |SetNames(mask, bits)| == 0 <==> forall b :: b in bits ==> !Has(mask, b)
  {
    if |bits| > 0 {
      var p := bits[..|bits| - 1];
      assert bits == p + [bits[|bits| - 1]];
      SetNamesEmptyIff(mask, p);
    }
  }

  lemma {:induction false} SetNamesTwo(mask: set<nat>, bits: seq<Bit>, i: nat, j: nat)
    requires i < j < |bits| && Has(mask, bits[i]) && Has(mask, bits[j])
    ensures |SetNames(mask, bits)| >= 2
  {
    var p := bits[..|bits| - 1];
    if j == |bits| - 1 {
      assert p[i] == bits[i];
      SetNamesEmptyIff(mask, p);
    } else {
      SetNamesTwo(mask, p, i, j);
    }
  }

  /** With only bit b among the listed bits set, the names are just b's (for a list without repeats). */
  lemma {:induction false} SetNamesOne(mask: set<nat>, bits: seq<Bit>, b: Bit)
    requires forall i, j :: 0 <= i < j < |bits| ==> bits[i] != bits[j]
    requires Has(mask, b) && forall c :: c in bits && c != b ==> !Has(mask, c)
    ensures SetNames(mask, bits) == if b in bits then [Name(b)] else []
  {
    if |bits| > 0 {
      var p, l := bits[..|bits| - 1], bits[|bits| - 1];
      assert bits == p + [l];
      SetNamesOne(mask, p, b);
      assert l == b ==> b !in p;
    }
  }

  /** toString: "None" exactly when no bit is set. */
  lemma MaskStringNone(mask: set<nat>)
    ensures MaskString(mask) == "None" <==> forall b :: !Has(mask, b)
  {
    SetNamesEmptyIff(mask, AllBits);
    forall b ensures b in AllBits { AllBitsEnumerates(b); }
    var names := SetNames(mask, AllBits);
    if |names| == 1 {
      NameNotNone(mask, AllBits);
      assert MaskString(mask) == names[0] != "None";
    } else if |names| > 1 {
      assert MaskString(mask)[0] == '[' != "None"[0];
    }
  }

  lemma {:induction false} NameNotNone(mask: set<nat>, bits: seq<Bit>)
    ensures forall i :: 0 <= i < |SetNames(mask, bits)| ==> SetNames(mask, bits)[i] != "None"
  {
    if |bits| > 0 {
      var p := bits[..|bits| - 1];
      NameNotNone(mask, p);
    }
  }

  /** toString: brackets exactly when two different bits are set; a lone bit prints as its name. */
  lemma MaskStringBrackets(mask: set<nat>, b: Bit, c: Bit)
    requires b != c && Has(mask, b) && Has(mask, c)
    ensures |MaskString(mask)| >= 2
      && MaskString(mask)[0] == '[' && MaskString(mask)[|MaskString(mask)| - 1] == ']'
  {
    var i, j := Ordinal(b), Ordinal(c);
    if i < j {
      SetNamesTwo(mask, AllBits, i, j);
    } else {
      SetNamesTwo(mask, AllBits, j, i);
    }
  }

  lemma MaskStringSingle(mask: set<nat>, b: Bit)
    requires Has(mask, b) && forall c :: c != b ==> !Has(mask, c)
    ensures MaskString(mask) == Name(b)
  {
    AllBitsEnumerates(b);
    SetNamesOne(mask, AllBits, b);
  }

  /** Appending one name to a joined list adds a separator unless the list was empty. */
  lemma JoinSnoc(names: seq<string>, x: string)
    ensures Join(names + [x]) == if |names| == 0 then x else Join(names) + ", " + x
  {
    assert (names + [x])[..|names|] == names;
  }

  /** The player's EventMask: a mutable int of event bits. */
  class EventMask {
    var mask: set<nat>

    ghost predicate Valid()
      reads this
    {
      IsWord(mask)
    }

    constructor ()
      ensures mask == {} && Valid()
    {
      mask := {};
    }

    constructor FromBit(b: Bit)
      ensures mask == Value(b) && Valid()
    {
      mask := Value(b);
    }

    constructor FromBits(v: seq<Bit>)
      ensures mask == BitsOf(v) && Valid()
    {
      mask := BitsOf(v);
      BitsOfExactly(v, Init);
    }

    constructor FromInt(v: set<nat>)
      requires IsWord(v)
      ensures mask == v && Valid()
    {
      mask := v;
    }

    predicate IsSet(b: Bit)
      reads this
    {
      Has(mask, b)
    }

    predicate IsSetBits(v: seq<Bit>)
      reads this
    {
      IsSetBitsOf(mask, v)
    }

    /** isSet(int): `bits == (mask & bits)`. */
    predicate IsSetInt(bits: set<nat>)
      reads this
    {
      bits == mask * bits
    }

    predicate IsZero()
      reads this
    {
      mask == {}
    }

    method SetBit(b: Bit)
      requires Valid()
      modifies this
      ensures mask == old(mask) + Value(b) && Valid()
      ensures IsSet(b) && !IsZero()
      ensures forall c :: old(IsSet(c)) ==> IsSet(c)
      ensures forall c :: c != b ==> (IsSet(c) <==> old(IsSet(c)))
    {
      mask := mask + Value(b);
      forall c ensures old(Has(mask, c)) ==> Has(mask, c)
        ensures c != b ==> (Has(mask, c) <==> old(Has(mask, c)))
      {
        SetBitEffect(old(mask), b, c);
      }
      SetBitEffect(old(mask), b, b);
    }

    method SetBits(v: seq<Bit>)
      requires Valid()
      modifies this
      ensures mask == old(mask) + BitsOf(v) && Valid()
      ensures IsSetBits(v)
    {
      var i := 0;
      while i < |v|
        invariant 0 <= i <= |v|
        invariant mask == old(mask) + BitsOf(v[..i])
      {
        assert v[..i + 1][..i] == v[..i];
        mask := mask + Value(v[i]);
        i := i + 1;
      }
      assert v[..i] == v;
      BitsOfExactly(v, Init);
    }

    method ToString() returns (s: string)
      ensures s == MaskString(mask)
    {
      var out := "";
      var count := 0;
      var i := 0;
      while i < |AllBits|
        invariant 0 <= i <= |AllBits|
        invariant count == |SetNames(mask, AllBits[..i])|
        invariant out == Join(SetNames(mask, AllBits[..i]))
      {
        var dt := AllBits[i];
        ghost var names := SetNames(mask, AllBits[..i]);
        assert AllBits[..i + 1][..i] == AllBits[..i];
        assert SetNames(mask, AllBits[..i + 1])
          == names + (if Has(mask, dt) then [Name(dt)] else []);
        if IsSet(dt) {
          JoinSnoc(names, Name(dt));
          if 0 < count {
            out := out + ", ";
          }
          out := out + Name(dt);
          count := count + 1;
        } else {
          assert names + [] == names;
        }
        i := i + 1;
      }
      assert AllBits[..i] == AllBits;
      if count == 0 {
        out := "None";
      } else if 1 < count {
        out := "[" + out + "]";
      }
      s := out;
    }
  }
}
