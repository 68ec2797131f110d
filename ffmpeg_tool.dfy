/**
 * The integer helpers, sentinels and bookkeeping records of the JOGL FFmpeg
 * glue header: power-of-two rounding of texture sizes, rational-to-int32
 * conversion, alignment, clipping, version-word fields and the per-stream
 * timestamp statistics.
 */
module FfmpegTool {
  import opened JavaInt

  /** No stream selected; kept equal to the player's STREAM_ID_NONE. */
  const AV_STREAM_ID_NONE: int := -2
  /** Let the decoder choose a stream; kept equal to the player's STREAM_ID_AUTO. */
  const AV_STREAM_ID_AUTO: int := -1
  /** Default number of audio frames per video frame. */
  const AV_DEFAULT_AFRAMES: int := 8
  /** Invalid PTS: the bit pattern of the smallest int32. */
  const INVALID_PTS: int := 0x8000_0000
  /** End-of-stream PTS: the largest int32. */
  const END_OF_STREAM_PTS: int := 0x7FFF_FFFF
  /** Capacity of each of the video, audio and subtitle stream-id arrays. */
  const MAX_STREAM_COUNT: nat := 64
  /** FFmpeg's time base is 1000000 ticks per second, so 1000 ticks per millisecond. */
  const AV_TIME_BASE: int := 1_000_000
  const AV_TIME_BASE_MSEC: int := AV_TIME_BASE / 1000
  /** FFmpeg's "no timestamp" value, the smallest int64. */
  const AV_NOPTS_VALUE: int := LONG_MIN

  lemma SentinelValues()
    ensures Wrap32(INVALID_PTS) == INT_MIN
    ensures END_OF_STREAM_PTS == INT_MAX
    ensures AV_TIME_BASE_MSEC == 1000
  {
  }

  // ---------------------------------------------------------------- version words

  function VersionMajor(i: bv32): bv32 { (i >> 16) & 0xFF }
  function VersionMinor(i: bv32): bv32 { (i >> 8) & 0xFF }
  function VersionSub(i: bv32): bv32 { i & 0xFF }

  /** The three version macros read back the fields of a packed major.minor.sub word. */
  lemma VersionFields(major: bv32, minor: bv32, sub: bv32)
    requires major <= 0xFF && minor <= 0xFF && sub <= 0xFF
    ensures var w := (major << 16) | (minor << 8) | sub;
      VersionMajor(w) == major && VersionMinor(w) == minor && VersionSub(w) == sub
  {
  }

  // ---------------------------------------------------------------- powers of two

  /** The 32-bit word with only bit k set. */
  function Bit(k: nat): bv32
    requires k < 32
  {
    (1 as bv32) << k
  }

  /** isPowerOf2: n is non-zero and n & (n - 1) is zero. */
  predicate IsPowerOf2(n: bv32): (b: bool)
    ensures b <==> n != 0 && n & (0 - n) == n
  {
    n != 0 && n & (n - 1) == 0
  }

  /** The index of the highest set bit of n, read off five masks; for a single-bit word, its only bit. */
  function BitIndex(n: bv32): (k: nat)
    ensures k < 32
  {
    (if n & 0xFFFF_0000 != 0 then 16 else 0) + (if n & 0xFF00_FF00 != 0 then 8 else 0) +
    (if n & 0xF0F0_F0F0 != 0 then 4 else 0) + (if n & 0xCCCC_CCCC != 0 then 2 else 0) +
    (if n & 0xAAAA_AAAA != 0 then 1 else 0)
  }

  /** A word passes isPowerOf2 exactly when it has a single set bit. */
  lemma PowerOf2IsSingleBit(n: bv32)
    ensures IsPowerOf2(n) <==> exists k :: 0 <= k < 32 && n == Bit(k)
  {
    if IsPowerOf2(n) {
      assert n == Bit(BitIndex(n));
    }
  }

  /**
   * nextPowerOf2: smear the bits of n - 1 rightwards and add one; a result of 0 becomes 1.
   * C returns the word as an `int`, so a word with bit 31 set reads as a negative number.
   */
  function NextPowerOf2(n: bv32): (r: bv32)
    ensures r != 0
    ensures 1 <= n <= 0x8000_0000 ==> IsPowerOf2(r) && n <= r
  {
    var m0 := n - 1;
    var m1 := m0 | (m0 >> 1);
    var m2 := m1 | (m1 >> 2);
    var m3 := m2 | (m2 >> 4);
    var m4 := m3 | (m3 >> 8);
    var m5 := m4 | (m4 >> 16);
    var m6 := m5 + 1;
    if m6 == 0 then 1 else m6
  }

  /** For 1 <= n <= 2^31, nextPowerOf2 is the smallest power of two that is at least n. */
  lemma NextPowerOf2IsLeast(n: bv32)
    requires 1 <= n <= 0x8000_0000
    ensures IsPowerOf2(NextPowerOf2(n)) && n <= NextPowerOf2(n)
    ensures forall p :: IsPowerOf2(p) && n <= p ==> NextPowerOf2(n) <= p
  {
  }

  /**
   * On 1..2^30 the result is a positive `int`; on 2^30+1..2^31 it is the word of the
   * smallest `int`; 0 and the words above 2^31 give 1.
   */
  lemma NextPowerOf2Range(n: bv32)
    ensures 1 <= n <= 0x4000_0000 ==> NextPowerOf2(n) <= 0x4000_0000
    ensures 0x4000_0000 < n <= 0x8000_0000 ==> NextPowerOf2(n) == 0x8000_0000
    ensures n == 0 || n > 0x8000_0000 ==> NextPowerOf2(n) == 1
  {
  }

  /** roundToPowerOf2: a power of two is kept, anything else goes to the next power of two. */
  function RoundToPowerOf2(n: bv32): (r: bv32)
    ensures IsPowerOf2(n) ==> r == n
    ensures 1 <= n <= 0x8000_0000 ==> IsPowerOf2(r) && n <= r
  {
    if IsPowerOf2(n) then n
    else if 1 <= n <= 0x8000_0000 then NextPowerOf2IsLeast(n); NextPowerOf2(n)
    else NextPowerOf2(n)
  }

  /** Texture sizes of a 640x480 frame and of an empty one. */
  lemma RoundToPowerOf2Examples()
    ensures RoundToPowerOf2(640) == 1024
    ensures RoundToPowerOf2(480) == 512
    ensures RoundToPowerOf2(512) == 512
    ensures RoundToPowerOf2(0) == 1
  {
  }

  /** For 1 <= n <= 2^31, roundToPowerOf2 is the least power of two that is at least n. */
  lemma RoundToPowerOf2IsLeast(n: bv32, p: bv32)
    requires 1 <= n <= 0x8000_0000 && IsPowerOf2(p) && n <= p
    ensures RoundToPowerOf2(n) <= p
  {
    if !IsPowerOf2(n) {
      NextPowerOf2IsLeast(n);
    }
  }

  // ---------------------------------------------------------------- rational to int32

  /**
   * my_av_q2i32: snum * num / den in 64-bit arithmetic, truncated toward zero and
   * cast to int32. C leaves a zero divisor and a 64-bit overflow undefined, so
   * callers must avoid them.
   */
  function AvQ2I32(snum: int, num: int32, den: int32): (r: int32)
    requires IsInt64(snum) && den != 0
    requires IsInt64(snum * num) && IsInt64(Div(snum * num, den))
    ensures IsInt32(Div(snum * num, den)) ==> r == Div(snum * num, den)
  {
    Wrap32(Div(snum * num, den))
  }

  /** When the quotient fits, the result is the exact quotient rounded toward zero. */
  lemma AvQ2I32Truncates(snum: int, num: int32, den: int32)
    requires IsInt64(snum) && den != 0
    requires IsInt64(snum * num) && IsInt64(Div(snum * num, den))
    requires IsInt32(Div(snum * num, den))
    ensures var r, p := AvQ2I32(snum, num, den), snum * num;
      p == r * den + Rem(p, den) && Abs(Rem(p, den)) < Abs(den) &&
      (p >= 0 ==> Rem(p, den) >= 0) && (p < 0 ==> Rem(p, den) <= 0)
  {
  }

  // ---------------------------------------------------------------- alignment

  /** Signed order on two's-complement words: flipping the sign bit maps it onto unsigned order. */
  predicate SignedLe(x: bv32, y: bv32) { (x ^ 0x8000_0000) <= (y ^ 0x8000_0000) }

  /** my_align: (v + a - 1) & ~(a - 1) on C ints, as 32-bit words. */
  function MyAlign(v: bv32, a: bv32): bv32 { (v + a - 1) & !(a - 1) }

  /**
   * For a = 2^k with k <= 30, and v + a - 1 not overflowing, my_align gives
   * the multiple of a in v..v+a-1: it has no bit below k, it is at least v as
   * a signed int, and it lies less than a above v. That multiple is unique,
   * so it is the least multiple of a that is at least v.
   */
  lemma MyAlignRoundsUp(v: bv32, k: nat)
    requires k <= 30 && SignedLe(v, v + (Bit(k) - 1))
    ensures var a, r := Bit(k), MyAlign(v, Bit(k));
      r & (a - 1) == 0 && SignedLe(v, r) && r - v < a
  {
  }

  /** Examples: 13 rounds up to 16 for a = 8, a multiple stays, and -13 goes to -8. */
  lemma MyAlignExamples()
    ensures MyAlign(13, 8) == 16 && MyAlign(16, 8) == 16
    ensures MyAlign(0xFFFF_FFF3, 8) == 0xFFFF_FFF8
  {
  }

  // ---------------------------------------------------------------- min, max, clip

  /** my_min: the smaller argument (b on a tie, where MIN_INT picks a: the same value). */
  function MyMin(a: int32, b: int32): (r: int32)
    ensures r <= a && r <= b && (r == a || r == b)
  {
    if a < b then a else b
  }

  /** my_max: the larger argument (b on a tie, where MAX_INT picks a: the same value). */
  function MyMax(a: int32, b: int32): (r: int32)
    ensures r >= a && r >= b && (r == a || r == b)
  {
    if a > b then a else b
  }

  /** my_clip: my_min(max, my_max(min, a)). */
  function MyClip(a: int32, min: int32, max: int32): (r: int32)
    ensures min <= max ==> min <= r <= max
    ensures min <= a <= max ==> r == a
    ensures a < min <= max ==> r == min
    ensures min <= max < a ==> r == max
  {
    MyMin(max, MyMax(min, a))
  }

  /** With min > max the clip always gives max, whatever a is. */
  lemma MyClipInverted(a: int32, min: int32, max: int32)
    requires min > max
    ensures MyClip(a, min, max) == max
  {
  }

  // ---------------------------------------------------------------- timestamp statistics

  /**
   * PTSStats: ptsError and dtsError count timestamps that went backwards, ptsLast
   * and dtsLast hold the last timestamps seen. Frames without a timestamp carry
   * AV_NOPTS_VALUE and are skipped.
   */
  datatype PtsStats = PtsStats(ptsError: int, dtsError: int, ptsLast: int, dtsLast: int)

  /** The statistics of a freshly zeroed session record. */
  const InitialStats := PtsStats(0, 0, 0, 0)

  /** One timestamp: counted as an error when it is earlier than the last one, then remembered. */
  function ObserveStamp(errors: int, last: int, t: int): (int, int)
  {
    if t == AV_NOPTS_VALUE then (errors, last)
    else ((if t < last then errors + 1 else errors), t)
  }

  /** Accounts one decoded frame's presentation and decoding timestamps. */
  function Observe(s: PtsStats, pts: int, dts: int): (r: PtsStats)
    ensures r.ptsError == s.ptsError + (if pts != AV_NOPTS_VALUE && pts < s.ptsLast then 1 else 0)
    ensures r.ptsLast == (if pts == AV_NOPTS_VALUE then s.ptsLast else pts)
    ensures r.dtsError == s.dtsError + (if dts != AV_NOPTS_VALUE && dts < s.dtsLast then 1 else 0)
    ensures r.dtsLast == (if dts == AV_NOPTS_VALUE then s.dtsLast else dts)
  {
    var (pe, pl) := ObserveStamp(s.ptsError, s.ptsLast, pts);
    var (de, dl) := ObserveStamp(s.dtsError, s.dtsLast, dts);
    PtsStats(pe, de, pl, dl)
  }

  /** The presentation timestamps of a run of frames, fed one by one. */
  function ObserveAll(s: PtsStats, pts: seq<int>): PtsStats
    decreases |pts|
  {
    if pts == [] then s
    else ObserveAll(Observe(s, pts[0], AV_NOPTS_VALUE), pts[1..])
  }

  /** The timestamps that are not AV_NOPTS_VALUE, in order. */
  function Stamped(ts: seq<int>): (r: seq<int>)
    ensures forall i :: 0 <= i < |r| ==> r[i] != AV_NOPTS_VALUE
    ensures |r| <= |ts|
  {
    if ts == [] then []
    else (if ts[0] == AV_NOPTS_VALUE then [] else [ts[0]]) + Stamped(ts[1..])
  }

  /** The number of adjacent pairs of ts whose second element is smaller than the first. */
  function Descents(ts: seq<int>): nat
  {
    if |ts| < 2 then 0
    else (if ts[1] < ts[0] then 1 else 0) + Descents(ts[1..])
  }

  /**
   * After a run of frames, ptsError has grown by the number of backward steps among
   * the timestamped frames, measured from the last timestamp already seen, and
   * ptsLast is the last timestamp of the run (or unchanged if none had one).
   */
  lemma {:induction false} ObserveAllCountsBackwardSteps(s: PtsStats, pts: seq<int>)
    requires s.ptsLast != AV_NOPTS_VALUE
    ensures var r, f := ObserveAll(s, pts), Stamped(pts);
      r.ptsError == s.ptsError + Descents([s.ptsLast] + f) &&
      r.ptsLast == (if f == [] then s.ptsLast else f[|f| - 1]) &&
      r.dtsError == s.dtsError && r.dtsLast == s.dtsLast
    decreases |pts|
  {
    if pts != [] {
      var s' := Observe(s, pts[0], AV_NOPTS_VALUE);
      ObserveAllCountsBackwardSteps(s', pts[1..]);
      var f' := Stamped(pts[1..]);
      assert pts == [pts[0]] + pts[1..];
      if pts[0] == AV_NOPTS_VALUE {
        assert Stamped(pts) == f';
      } else {
        assert Stamped(pts) == [pts[0]] + f';
        assert ([s.ptsLast] + ([pts[0]] + f'))[1..] == [pts[0]] + f';
      }
    }
  }

  /** A stream that goes back once: 1000, 900, 1100 gives one error and ends at 1100. */
  lemma ObserveExample()
    ensures ObserveAll(InitialStats, [1000, 900, 1100]).ptsError == 1
    ensures ObserveAll(InitialStats, [1000, 900, 1100]).ptsLast == 1100
  {
  }
}
