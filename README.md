# Poprock core, modelled in Dafny

This project models the sequential core of the Poprock repository and of the
JOGL media and GL tooling it carries. It proves properties of that model.

- **JOGL FFmpeg glue** (`ffmpeg_tool.dfy`). The integer helpers of the native header:
  - power-of-two rounding of texture sizes;
  - rational-to-int32 conversion, alignment and clipping;
  - version-word fields, sentinels and per-stream timestamp statistics.
- **JOGL media player**. Stream-id constants, chapters, the player state and the `EventMask` bit set (`gl_media_player.dfy`). Stream-id rotation, language and title lookup, and chapter search (`gl_media_player_impl.dfy`). The event bits an attribute update raises (`player_events.dfy`). The player as an object whose state and attribute updates report their changes (`gl_media_player_object.dfy`).
- **JOGL GL client state**. `GLStateTracker`: the pixel-store shadow map, the push/pop attribute stack and the blend states. `GLArrayDataClient`: the seal/enable state machine and buffer growth.
- **Small data structures**:
  - a byte ring buffer;
  - a two-queue FIFO;
  - an interval tree;
  - an LRU map;
  - a Bloom filter and its seeded string hash;
  - a sampler;
  - the integer binomial coefficient and an int clamp.
- **Poprock core services**:
  - an ANSI SGR builder (ECMA-48, section 8.3.117);
  - hex colour printing and parsing;
  - the event-pool service;
  - shared properties;
  - the ephemeral registry, its entries and the entry factory;
  - the registry service;
  - texture-atlas shards and clusters;
  - the guard-based property definition `use_Def`.

How the model treats the source:

- Java `int` and C `int32_t`/`uint32_t` arithmetic is written out. Wrap-around, truncating `/` and `%`, and bit operations live in `java_int.dfy` and `ffmpeg_tool.dfy`.
- An exception, or a panic raised through the debug service, becomes the `Err` branch of a `Result`, with an error kind that names the failure.
- A Java `assert` becomes a precondition: an obligation on the caller. The `TxfyrShard` and `TxfyrCluster` constructors are examples.
- Static state becomes the fields of a class instance. This covers the shared properties, the registry table and the event pools.
- The static "enabled" flag of `AnsiColor` becomes a parameter.
- A listener or callback is not run. The operation that would run listeners returns them, in the order they would run.
- Where verifying the natural contract showed a defect in the source, the code as written is modelled beside the evidently intended behaviour; see "## Findings". The rest of the model uses the intended behaviour.

## Model

| member | source | states |
|---|---|---|
| FfmpegTool.SentinelValues | Tooling/JOGL/jogl/native/libav/ffmpeg_tool.h:98-102 | INVALID_PTS is the bit pattern of the smallest int32 and END_OF_STREAM_PTS is the largest int32; AV_TIME_BASE_MSEC is 1000 ticks |
| FfmpegTool.VersionFields | Tooling/JOGL/jogl/native/libav/ffmpeg_tool.h:79-87 | the major, minor and sub macros read back the three byte fields of a packed version word |
| FfmpegTool.IsPowerOf2 | Tooling/JOGL/jogl/native/libav/ffmpeg_tool.h:112 | isPowerOf2 holds exactly when n is non-zero and equals its own lowest set bit, n & -n; PowerOf2IsSingleBit states that this means a single set bit |
| FfmpegTool.PowerOf2IsSingleBit | Tooling/JOGL/jogl/native/libav/ffmpeg_tool.h:112 | isPowerOf2(n) holds exactly when n has a single set bit |
| FfmpegTool.NextPowerOf2 | Tooling/JOGL/jogl/native/libav/ffmpeg_tool.h:113-122 | nextPowerOf2 never returns 0, and on 1..2^31 returns a power of two at least n; NextPowerOf2IsLeast adds that it is the least one and NextPowerOf2Range gives the results outside that range |
| FfmpegTool.NextPowerOf2IsLeast | Tooling/JOGL/jogl/native/libav/ffmpeg_tool.h:113-122 | for 1 <= n <= 2^31, nextPowerOf2(n) is a power of two, at least n, and below every other power of two that is at least n |
| FfmpegTool.NextPowerOf2Range | Tooling/JOGL/jogl/native/libav/ffmpeg_tool.h:113-122 | on 1..2^30 the result is at most 2^30; on 2^30+1..2^31 it is the word 2^31 (a negative int); 0 and words above 2^31 give 1 |
| FfmpegTool.RoundToPowerOf2 | Tooling/JOGL/jogl/native/libav/ffmpeg_tool.h:123-125 | a power of two is returned unchanged; for 1 <= n <= 2^31 the result is a power of two at least n |
| FfmpegTool.RoundToPowerOf2Examples | Tooling/JOGL/jogl/native/libav/ffmpeg_tool.h:123-125 | 640 rounds to 1024, 480 to 512, 512 stays, and 0 gives 1 |
| FfmpegTool.RoundToPowerOf2IsLeast | Tooling/JOGL/jogl/native/libav/ffmpeg_tool.h:123-125 | for 1 <= n <= 2^31, roundToPowerOf2(n) is at most every power of two that is at least n |
| FfmpegTool.AvQ2I32 | Tooling/JOGL/jogl/native/libav/ffmpeg_tool.h:133-135 | given a non-zero denominator and no 64-bit overflow, a quotient that fits in int32 is returned exactly, rounded toward zero |
| FfmpegTool.AvQ2I32Truncates | Tooling/JOGL/jogl/native/libav/ffmpeg_tool.h:133-135 | the result r satisfies snum*num == r*den + rem, with abs(rem) < abs(den) and rem taking the sign of the dividend (C truncating division) |
| FfmpegTool.MyAlign | Tooling/JOGL/jogl/native/libav/ffmpeg_tool.h:136-138 | my_align on 32-bit words; MyAlignRoundsUp states that for a power of two a it is the least multiple of a at or above v, and MyAlignExamples gives values including a negative v |
| FfmpegTool.MyAlignRoundsUp | Tooling/JOGL/jogl/native/libav/ffmpeg_tool.h:136-138 | for a = 2^k (k <= 30) without overflow, my_align(v, a) is a multiple of a, at least v, and less than a above v: the least multiple of a that is at least v |
| FfmpegTool.MyAlignExamples | Tooling/JOGL/jogl/native/libav/ffmpeg_tool.h:136-138 | 13 aligns to 16 and 16 stays 16 for a = 8; -13 aligns to -8 |
| FfmpegTool.MyMin | Tooling/JOGL/jogl/native/libav/ffmpeg_tool.h:140 | the result is one of the arguments and at most both |
| FfmpegTool.MyMax | Tooling/JOGL/jogl/native/libav/ffmpeg_tool.h:141 | the result is one of the arguments and at least both |
| FfmpegTool.MyClip | Tooling/JOGL/jogl/native/libav/ffmpeg_tool.h:142-144 | with min <= max the result lies in [min, max], is the identity inside it, and gives min below and max above |
| FfmpegTool.MyClipInverted | Tooling/JOGL/jogl/native/libav/ffmpeg_tool.h:142-144 | with min > max the result is always max |
| FfmpegTool.Observe | Tooling/JOGL/jogl/native/libav/ffmpeg_tool.h:158-163 | a timestamp other than AV_NOPTS_VALUE that is earlier than the last one adds one error; a timestamp is remembered as the last unless it is AV_NOPTS_VALUE |
| FfmpegTool.Stamped | Tooling/JOGL/jogl/native/libav/ffmpeg_tool.h:158-163 | the timestamps kept are none of them AV_NOPTS_VALUE and are no more than given |
| FfmpegTool.ObserveAllCountsBackwardSteps | Tooling/JOGL/jogl/native/libav/ffmpeg_tool.h:158-163 | over a run of frames, ptsError grows by the number of backward steps among the timestamped frames (starting from the last timestamp seen), ptsLast becomes the last timestamp of the run, and the DTS fields are unchanged |
| FfmpegTool.ObserveExample | Tooling/JOGL/jogl/native/libav/ffmpeg_tool.h:158-163 | the run 1000, 900, 1100 counts one backward PTS and ends at 1100 |
| Maths.ClampInt | Source/net/exoad/math/Maths.java:6-9 | with min <= max the result lies in [min, max] and is the identity inside it; below min it is min, above max it is max; with max < min it is always min |
| Maths.ClampIdempotent | Source/net/exoad/math/Maths.java:6-9 | clamping a clamped value changes nothing |
| MathF.ChooseAbove | Source/com/jackmeng/MathF.java:6-12 | the reference binomial C(m, i) is 0 when i exceeds m |
| MathF.ChooseOne | Source/com/jackmeng/MathF.java:6-12 | the reference binomial C(m, 1) is m |
| MathF.ChooseAll | Source/com/jackmeng/MathF.java:6-12 | the reference binomial C(m, m) is 1 |
| MathF.Absorb | Source/com/jackmeng/MathF.java:10 | i * C(m, i) == m * C(m-1, i-1), so every step's product is divisible by i |
| MathF.StepExact | Source/com/jackmeng/MathF.java:10 | one loop step, C(m-1, i-1) * m / i with Java's truncating division, is exactly C(m, i) |
| MathF.ExactQuotient | Source/com/jackmeng/MathF.java:10 | Java's truncating division of a multiple of d by d gives back the factor |
| MathF.BinomialCoefficient | Source/com/jackmeng/MathF.java:6-12 | for k <= 0 the result is 1; for 0 <= k <= n it is C(n, k); the loop keeps result == C(n-k+i-1, i-1) with every division exact |
| MathF.BinomialEdges | Source/com/jackmeng/MathF.java:6-12 | C(n, 0) == 1, C(n, 1) == n and C(n, n) == 1 for the reference value the method computes |
| GLMediaPlayer.StreamIdConstantsAgree | Tooling/JOGL/jogl/classes/com/jogamp/opengl/util/av/GLMediaPlayer.java:203-211 | STREAM_ID_NONE and STREAM_ID_AUTO equal the native AV_STREAM_ID_NONE (-2) and AV_STREAM_ID_AUTO (-1) and differ; 0 < TEXTURE_COUNT_MIN (1) < TEXTURE_COUNT_DEFAULT (3) |
| GLMediaPlayer.Duration | Tooling/JOGL/jogl/classes/com/jogamp/opengl/util/av/GLMediaPlayer.java:289-290 | without overflow, a chapter whose start is not after its end lasts at least 1 ms |
| GLMediaPlayer.DurationCoversChapter | Tooling/JOGL/jogl/classes/com/jogamp/opengl/util/av/GLMediaPlayer.java:289-290 | without overflow, a time lies in [start, end] exactly when it lies in [start, start + duration): both bounds are inclusive |
| GLMediaPlayer.DurationWraps | Tooling/JOGL/jogl/classes/com/jogamp/opengl/util/av/GLMediaPlayer.java:290 | end - start + 1 is Java int arithmetic: a chapter from Integer.MIN_VALUE to 0 reports a duration of Integer.MIN_VALUE + 1 |
| GLMediaPlayer.State.Id | Tooling/JOGL/jogl/classes/com/jogamp/opengl/util/av/GLMediaPlayer.java:446-460 | the state ids lie in 0..3 |
| GLMediaPlayer.StateIdInjective | Tooling/JOGL/jogl/classes/com/jogamp/opengl/util/av/GLMediaPlayer.java:446-460 | two states have the same id exactly when they are the same state |
| GLMediaPlayer.Pos | Tooling/JOGL/jogl/classes/com/jogamp/opengl/util/av/GLMediaPlayer.java:337-374 | each bit's position is below 32 |
| GLMediaPlayer.BitValuesArePowersOfTwo | Tooling/JOGL/jogl/classes/com/jogamp/opengl/util/av/GLMediaPlayer.java:337-374 | every bit value is a single bit of a 32-bit word; different bits share no bit; two values are equal only for the same bit |
| GLMediaPlayer.IntValuesDistinct | Tooling/JOGL/jogl/classes/com/jogamp/opengl/util/av/GLMediaPlayer.java:337-374 | as numbers the values are powers of two, and distinct bits have distinct values |
| GLMediaPlayer.PosInjective | Tooling/JOGL/jogl/classes/com/jogamp/opengl/util/av/GLMediaPlayer.java:337-374 | two bits have the same position exactly when they are the same bit |
| GLMediaPlayer.BitIntValues | Tooling/JOGL/jogl/classes/com/jogamp/opengl/util/av/GLMediaPlayer.java:339-374 | Init is 1, Error is 0x40, VID is 0x10000 and SCodec is 0x4000000 |
| GLMediaPlayer.HasIsAnd | Tooling/JOGL/jogl/classes/com/jogamp/opengl/util/av/GLMediaPlayer.java:401 | isSet(bit), value == (mask & value), holds exactly when the bit is on |
| GLMediaPlayer.Ordinal | Tooling/JOGL/jogl/classes/com/jogamp/opengl/util/av/GLMediaPlayer.java:337-374 | each bit stands at its ordinal in Bit.values() |
| GLMediaPlayer.AllBitsEnumerates | Tooling/JOGL/jogl/classes/com/jogamp/opengl/util/av/GLMediaPlayer.java:337-374 | Bit.values() lists every bit, each once |
| GLMediaPlayer.BitsOfExactly | Tooling/JOGL/jogl/classes/com/jogamp/opengl/util/av/GLMediaPlayer.java:381-387 | getBits sets exactly the listed bits (bit b is on iff b is in the list) and yields a 32-bit word |
| GLMediaPlayer.IsSetBitsIff | Tooling/JOGL/jogl/classes/com/jogamp/opengl/util/av/GLMediaPlayer.java:402 | isSet(list) holds iff every listed bit is on |
| GLMediaPlayer.SetBitEffect | Tooling/JOGL/jogl/classes/com/jogamp/opengl/util/av/GLMediaPlayer.java:406 | setBit(b) turns on b, leaves every other bit as it was, and makes the mask non-zero |
| GLMediaPlayer.SetBitIdempotent | Tooling/JOGL/jogl/classes/com/jogamp/opengl/util/av/GLMediaPlayer.java:406 | setting a bit twice is setting it once; setting a bit already on changes nothing, and only then |
| GLMediaPlayer.SetNamesEmptyIff | Tooling/JOGL/jogl/classes/com/jogamp/opengl/util/av/GLMediaPlayer.java:415-431 | no name is collected exactly when none of the bits walked is on |
| GLMediaPlayer.SetNamesTwo | Tooling/JOGL/jogl/classes/com/jogamp/opengl/util/av/GLMediaPlayer.java:415-431 | two different on bits give at least two names |
| GLMediaPlayer.SetNamesOne | Tooling/JOGL/jogl/classes/com/jogamp/opengl/util/av/GLMediaPlayer.java:415-431 | with only bit b on, the names collected are just b's |
| GLMediaPlayer.MaskStringNone | Tooling/JOGL/jogl/classes/com/jogamp/opengl/util/av/GLMediaPlayer.java:415-431 | toString is "None" exactly when no bit is on |
| GLMediaPlayer.NameNotNone | Tooling/JOGL/jogl/classes/com/jogamp/opengl/util/av/GLMediaPlayer.java:415-431 | no bit is named "None" |
| GLMediaPlayer.MaskStringBrackets | Tooling/JOGL/jogl/classes/com/jogamp/opengl/util/av/GLMediaPlayer.java:415-431 | with two different bits on, toString starts with '[' and ends with ']' |
| GLMediaPlayer.MaskStringSingle | Tooling/JOGL/jogl/classes/com/jogamp/opengl/util/av/GLMediaPlayer.java:415-431 | with a single bit on, toString is its name, without brackets |
| GLMediaPlayer.JoinSnoc | Tooling/JOGL/jogl/classes/com/jogamp/opengl/util/av/GLMediaPlayer.java:420-424 | appending a name adds ", " before it unless it is the first |
| GLMediaPlayer.EventMask.constructor | Tooling/JOGL/jogl/classes/com/jogamp/opengl/util/av/GLMediaPlayer.java:397-399 | the empty mask |
| GLMediaPlayer.EventMask.FromBit | Tooling/JOGL/jogl/classes/com/jogamp/opengl/util/av/GLMediaPlayer.java:391-393 | the mask of a single bit |
| GLMediaPlayer.EventMask.FromBits | Tooling/JOGL/jogl/classes/com/jogamp/opengl/util/av/GLMediaPlayer.java:388-390 | the mask is getBits of the list |
| GLMediaPlayer.EventMask.FromInt | Tooling/JOGL/jogl/classes/com/jogamp/opengl/util/av/GLMediaPlayer.java:394-396 | the mask is the given word |
| GLMediaPlayer.EventMask.SetBit | Tooling/JOGL/jogl/classes/com/jogamp/opengl/util/av/GLMediaPlayer.java:406 | the mask gains b's bit: b is on, the mask is non-zero, no bit that was on goes off, and no other bit changes |
| GLMediaPlayer.EventMask.SetBits | Tooling/JOGL/jogl/classes/com/jogamp/opengl/util/av/GLMediaPlayer.java:407-413 | the mask gains every listed bit, so isSet(list) holds afterwards |
| GLMediaPlayer.EventMask.ToString | Tooling/JOGL/jogl/classes/com/jogamp/opengl/util/av/GLMediaPlayer.java:415-431 | the loop over Bit.values() builds exactly the reference text: "None", a lone name, or the names joined by ", " in brackets |
| SeqSearch.IndexOf | Tooling/JOGL/jogl/classes/jogamp/opengl/util/av/GLMediaPlayerImpl.java:2065-2073 | the index found lies in -1..length-1 |
| SeqSearch.LastIndexOf | Tooling/JOGL/jogl/classes/jogamp/opengl/util/av/GLMediaPlayerImpl.java:1915-1925 | the index found lies in -1..length-1 |
| SeqSearch.IndexOfSpec | Tooling/JOGL/jogl/classes/jogamp/opengl/util/av/GLMediaPlayerImpl.java:2065-2073 | the scan gives -1 exactly when the value is absent, and otherwise an index holding it with no earlier occurrence |
| SeqSearch.LastIndexOfSpec | Tooling/JOGL/jogl/classes/jogamp/opengl/util/av/GLMediaPlayerImpl.java:2121-2133 | the backward scan gives -1 exactly when the value is absent, and otherwise an index holding it with no later occurrence |
| SeqSearch.IndexOfIsFirst | Tooling/JOGL/jogl/classes/jogamp/opengl/util/av/GLMediaPlayerImpl.java:2065-2073 | an index holding the value with none before it is the one found |
| SeqSearch.LastIndexOfIsLast | Tooling/JOGL/jogl/classes/jogamp/opengl/util/av/GLMediaPlayerImpl.java:2121-2133 | an index holding the value with none after it is the one found backwards |
| GLMediaPlayerImpl.NextStreamId | Tooling/JOGL/jogl/classes/jogamp/opengl/util/av/GLMediaPlayerImpl.java:2061-2078 | getNextImpl as written, with its length > 1 guard; NextFromUnknown, NextIsSuccessor and NextStaysInList state the selected id, and SingleSubtitleNeverOff the case the guard gets wrong |
| GLMediaPlayerImpl.GetNextImpl | Tooling/JOGL/jogl/classes/jogamp/opengl/util/av/GLMediaPlayerImpl.java:2061-2078 | the scan returns NextStreamId: NONE or an unlisted id selects the first stream (NONE for no streams); with two or more streams, the successor of the first match, and after the last stream NONE or the first again |
| GLMediaPlayerImpl.NextFromUnknown | Tooling/JOGL/jogl/classes/jogamp/opengl/util/av/GLMediaPlayerImpl.java:2061-2077 | with no current stream, or one not listed, the first stream is selected, or NONE when the list is empty |
| GLMediaPlayerImpl.NextIsSuccessor | Tooling/JOGL/jogl/classes/jogamp/opengl/util/av/GLMediaPlayerImpl.java:2065-2075 | with at least two streams, the stream after the current one is selected; after the last, NONE when use_no_stream holds, else the first |
| GLMediaPlayerImpl.NextStaysInList | Tooling/JOGL/jogl/classes/jogamp/opengl/util/av/GLMediaPlayerImpl.java:2061-2078 | the result is a listed stream or NONE; without use_no_stream a non-empty list never yields NONE |
| GLMediaPlayerImpl.SingleSubtitleNeverOff | Tooling/JOGL/jogl/classes/jogamp/opengl/util/av/GLMediaPlayerImpl.java:2065-2077 | with one subtitle stream selected, getNextSID as written selects it again, where the documented rotation goes to NONE |
| GLMediaPlayerImpl.IntendedNextStreamId | Tooling/JOGL/jogl/classes/jogamp/opengl/util/av/GLMediaPlayerImpl.java:2061-2078 | the corrected rotation returns a listed stream or NONE |
| GLMediaPlayerImpl.IntendedAgreesExceptSingleSubtitle | Tooling/JOGL/jogl/classes/jogamp/opengl/util/av/GLMediaPlayerImpl.java:2061-2078 | the corrected rotation differs from the code as written only for a one-stream list rotated through NONE |
| GLMediaPlayerImpl.ValidStreamsIndex | Tooling/JOGL/jogl/classes/jogamp/opengl/util/av/GLMediaPlayerImpl.java:2065-2073 | in a list without repeats, the scan finds each stream at its own index |
| GLMediaPlayerImpl.WrapStep | Tooling/JOGL/jogl/classes/jogamp/opengl/util/av/GLMediaPlayerImpl.java:2088-2106 | a video or audio step moves from stream i to stream (i+1) mod n |
| GLMediaPlayerImpl.SubtitleStep | Tooling/JOGL/jogl/classes/jogamp/opengl/util/av/GLMediaPlayerImpl.java:2117-2118 | a subtitle step moves to the next stream, from the last to NONE, and from NONE to the first |
| GLMediaPlayerImpl.WrapRotationCycles | Tooling/JOGL/jogl/classes/jogamp/opengl/util/av/GLMediaPlayerImpl.java:2088-2106 | k video or audio steps from the first stream reach stream k mod n: every stream is visited in order and the rotation is a cycle |
| GLMediaPlayerImpl.ModSucc | Tooling/JOGL/jogl/classes/jogamp/opengl/util/av/GLMediaPlayerImpl.java:2090-2091 | (k+1) mod n follows k mod n cyclically |
| GLMediaPlayerImpl.SubtitleRotationCycles | Tooling/JOGL/jogl/classes/jogamp/opengl/util/av/GLMediaPlayerImpl.java:2117-2118 | k subtitle steps from NONE reach NONE when k mod (n+1) is 0 and otherwise stream (k mod (n+1)) - 1: a cycle of n+1 steps that includes NONE |
| GLMediaPlayerImpl.FindLast | Tooling/JOGL/jogl/classes/jogamp/opengl/util/av/GLMediaPlayerImpl.java:2123-2131 | the backward scan returns the last index holding the id, and -1 exactly when the id is absent |
| GLMediaPlayerImpl.HasStreamId | Tooling/JOGL/jogl/classes/jogamp/opengl/util/av/GLMediaPlayerImpl.java:2121-2133 | true iff the id is a video, audio or subtitle stream |
| GLMediaPlayerImpl.GetLang | Tooling/JOGL/jogl/classes/jogamp/opengl/util/av/GLMediaPlayerImpl.java:2135-2147 | the three backward scans compute Lang: the video, then the audio, then the subtitle language at the index found, "undef" when the id is no stream, and an index error when the language array is shorter |
| GLMediaPlayerImpl.LangOfUnknownId | Tooling/JOGL/jogl/classes/jogamp/opengl/util/av/GLMediaPlayerImpl.java:2146 | an id that is no stream has the language "undef" |
| GLMediaPlayerImpl.LangAtLastIndex | Tooling/JOGL/jogl/classes/jogamp/opengl/util/av/GLMediaPlayerImpl.java:2137-2145 | a stream found at index i has the language at index i of its own list |
| GLMediaPlayerImpl.LangSearchOrder | Tooling/JOGL/jogl/classes/jogamp/opengl/util/av/GLMediaPlayerImpl.java:2135-2147 | the video list is searched first, then the audio list, then the subtitle list |
| GLMediaPlayerImpl.LangTotal | Tooling/JOGL/jogl/classes/jogamp/opengl/util/av/GLMediaPlayerImpl.java:2135-2147 | language arrays at least as long as their stream arrays make getLang succeed |
| GLMediaPlayerImpl.LangShortListThrows | Tooling/JOGL/jogl/classes/jogamp/opengl/util/av/GLMediaPlayerImpl.java:2137-2139 | a language array shorter than its stream array makes getLang throw an index error |
| GLMediaPlayerImpl.Basename | Tooling/JOGL/jogl/classes/jogamp/opengl/util/av/GLMediaPlayerImpl.java:1917-1923 | the part of the URI path after its last '/' when that '/' is not the first character; BasenameInDirectory states it for a file below a directory |
| GLMediaPlayerImpl.StripExtension | Tooling/JOGL/jogl/classes/jogamp/opengl/util/av/GLMediaPlayerImpl.java:1924-1929 | the name cut at its last '.' when that '.' is not the first character; StripLastExtension states it |
| GLMediaPlayerImpl.DeriveTitle | Tooling/JOGL/jogl/classes/jogamp/opengl/util/av/GLMediaPlayerImpl.java:1915-1932 | the title derived from the URI path; TitleOfFileWithExtension, TitleOfFileWithoutExtension and TitleOfRootFile state it |
| GLMediaPlayerImpl.BasenameInDirectory | Tooling/JOGL/jogl/classes/jogamp/opengl/util/av/GLMediaPlayerImpl.java:1917-1923 | below a non-empty directory, the basename is the part after the last '/' |
| GLMediaPlayerImpl.StripLastExtension | Tooling/JOGL/jogl/classes/jogamp/opengl/util/av/GLMediaPlayerImpl.java:1924-1929 | a name whose last '.' follows a non-empty stem is cut at that '.' |
| GLMediaPlayerImpl.TitleOfFileWithExtension | Tooling/JOGL/jogl/classes/jogamp/opengl/util/av/GLMediaPlayerImpl.java:1915-1932 | a null title becomes the file name without its last extension |
| GLMediaPlayerImpl.TitleOfFileWithoutExtension | Tooling/JOGL/jogl/classes/jogamp/opengl/util/av/GLMediaPlayerImpl.java:1915-1932 | a file name with no '.' after its first character is the whole title |
| GLMediaPlayerImpl.TitleOfRootFile | Tooling/JOGL/jogl/classes/jogamp/opengl/util/av/GLMediaPlayerImpl.java:1917-1923 | a '/' at index 0 is not cut off ("/clip.mp4" gives "/clip"), and the placeholder path "/stream/" gives the empty title |
| GLMediaPlayerImpl.GetChapter | Tooling/JOGL/jogl/classes/jogamp/opengl/util/av/GLMediaPlayerImpl.java:2207-2214 | the loop returns ChapterAt: the first chapter with start <= msec <= end, or none |
| GLMediaPlayerImpl.ChapterAtIsFirst | Tooling/JOGL/jogl/classes/jogamp/opengl/util/av/GLMediaPlayerImpl.java:2207-2214 | no chapter is returned exactly when none covers msec; otherwise the one returned covers msec and no earlier chapter does |
| GLMediaPlayerImpl.ValidateTextureCount | Tooling/JOGL/jogl/classes/jogamp/opengl/util/av/GLMediaPlayerImpl.java:941-943 | the result is max(desired, TEXTURE_COUNT_MIN): desired when it is at least 1, else 1 |
| GLMediaPlayerImpl.AudioChannelLimit | Tooling/JOGL/jogl/classes/jogamp/opengl/util/av/GLMediaPlayerImpl.java:311-314 | the limit lies in [1, 8] and equals the request inside that range |
| GLMediaPlayerImpl.AudioChannelLimitIsClip | Tooling/JOGL/jogl/classes/jogamp/opengl/util/av/GLMediaPlayerImpl.java:311-314 | the limit is the native my_clip of the request into [1, 8] |
| GLMediaPlayerImpl.NormalizeId | Tooling/JOGL/jogl/classes/jogamp/opengl/util/av/GLMediaPlayerImpl.java:1941-1961 | the stored id is NONE exactly when the id is AUTO or NONE or its stream list is empty, and otherwise the id itself |
| GLMediaPlayerImpl.NewCodec | Tooling/JOGL/jogl/classes/jogamp/opengl/util/av/GLMediaPlayerImpl.java:1998-2012 | a codec name is replaced only when the new one is given, non-empty and different |
| PlayerEvents.UpdateMaskBits | Tooling/JOGL/jogl/classes/jogamp/opengl/util/av/GLMediaPlayerImpl.java:1908-2026 | bit b of the mask updateAttributes reports is set exactly when it raises b: Init on the first call, each attribute's bit when that attribute changed, Codec with any codec bit, and never Uninit, Play, Pause, Seek, EOS or Error |
| PlayerEvents.GroupRanges | Tooling/JOGL/jogl/classes/jogamp/opengl/util/av/GLMediaPlayerImpl.java:1941-2026 | the id group raises only bits 16-18, the measure group only 19-22 and the codec group only 23-26 |
| PlayerEvents.MaskStateBits | Tooling/JOGL/jogl/classes/jogamp/opengl/util/av/GLMediaPlayerImpl.java:1908-1914 | Init is reported exactly on the first call from Uninitialized; no other state bit is ever reported |
| PlayerEvents.MaskIdBits | Tooling/JOGL/jogl/classes/jogamp/opengl/util/av/GLMediaPlayerImpl.java:1941-1963 | the VID, AID and SID bits are reported exactly when the stored id changed |
| PlayerEvents.MaskMeasureBits | Tooling/JOGL/jogl/classes/jogamp/opengl/util/av/GLMediaPlayerImpl.java:1965-1996 | the Size, FPS, BPS and Length bits are reported exactly when those attributes changed |
| PlayerEvents.MaskCodecBits | Tooling/JOGL/jogl/classes/jogamp/opengl/util/av/GLMediaPlayerImpl.java:1998-2026 | Codec is reported exactly when some codec changed, and ACodec, VCodec and SCodec exactly when their own codec changed |
| PlayerEvents.UpdateMaskIsWord | Tooling/JOGL/jogl/classes/jogamp/opengl/util/av/GLMediaPlayerImpl.java:1908 | the reported mask is a 32-bit word |
| PlayerEvents.UpdateMaskEmpty | Tooling/JOGL/jogl/classes/jogamp/opengl/util/av/GLMediaPlayerImpl.java:2027-2029 | the mask is empty (and the call returns without notifying) exactly when nothing changed |
| PlayerEvents.StateEventBits | Tooling/JOGL/jogl/classes/jogamp/opengl/util/av/GLMediaPlayerImpl.java:1841-1858 | addStateEventMask adds exactly the new state's bit, and only when the state differs |
| GLMediaPlayerObject.Player.constructor | Tooling/JOGL/jogl/classes/jogamp/opengl/util/av/GLMediaPlayerImpl.java:109-195 | a new player is Uninitialized with the placeholder URI path, title "undef", no streams, every id NONE, every codec id CodecID.NONE, zero measures, codecs "unknown", lookup function "texture2D", shader hash 0 and no channel limit (-1) |
| GLMediaPlayerObject.Player.SetAudioChannelLimit | Tooling/JOGL/jogl/classes/jogamp/opengl/util/av/GLMediaPlayerImpl.java:311-314 | the stored limit is the request clipped to [1, 8] |
| GLMediaPlayerObject.Player.AddStateEventMask | Tooling/JOGL/jogl/classes/jogamp/opengl/util/av/GLMediaPlayerImpl.java:1841-1858 | the mask gains exactly the new state's bit when the state differs, and nothing otherwise |
| GLMediaPlayerObject.Player.ChangeState | Tooling/JOGL/jogl/classes/jogamp/opengl/util/av/GLMediaPlayerImpl.java:1876-1886 | the state bit is added; the state becomes the new one only if the resulting mask is non-zero; entering Uninitialized then resets the lookup function to "texture2D" and the shader hash to 0; nothing else changes |
| GLMediaPlayerObject.Player.UpdateAttributes | Tooling/JOGL/jogl/classes/jogamp/opengl/util/av/GLMediaPlayerImpl.java:1898-2030 | the returned mask is exactly UpdateMask of what differed before the call; a first call moves to Initialized; the title is the given one or the one derived from the URI path; the stream lists are taken; the ids are normalized (AUTO or an empty list gives NONE); the measures are taken; a codec name is replaced only when given, non-empty and different; a codec id is replaced only when the FFmpeg number is positive, maps to a codec of the stream's kind and differs |
| GLMediaPlayerObject.Player.Store | Tooling/JOGL/jogl/classes/jogamp/opengl/util/av/GLMediaPlayerImpl.java:1910-2030 | every reported attribute is stored as UpdateAttributes states, and the URI path, channel limit and texture fields are kept |
| GLMediaPlayerObject.Player.RaiseChanges | Tooling/JOGL/jogl/classes/jogamp/opengl/util/av/GLMediaPlayerImpl.java:1908-2026 | a fresh mask with exactly the bits the changes raise, in the order the source tests them |
| GLMediaPlayerObject.Player.RaiseMeasuresAndCodecs | Tooling/JOGL/jogl/classes/jogamp/opengl/util/av/GLMediaPlayerImpl.java:1965-2026 | the mask gains the measure bits, then the codec bits, of the changes |
| GLMediaPlayerObject.Player.StoreStateTitleAndStreams | Tooling/JOGL/jogl/classes/jogamp/opengl/util/av/GLMediaPlayerImpl.java:1910-1939 | a first call initializes the player; the title is given or derived; the stream and language lists are taken from the report |
| GLMediaPlayerObject.Player.StoreIdsAndMeasures | Tooling/JOGL/jogl/classes/jogamp/opengl/util/av/GLMediaPlayerImpl.java:1941-1996 | the ids are stored normalized; size, frame rate, bit rates, frame counts and duration are taken from the report |
| GLMediaPlayerObject.Player.StoreCodecs | Tooling/JOGL/jogl/classes/jogamp/opengl/util/av/GLMediaPlayerImpl.java:1998-2030 | each codec name is replaced only when the report gives a different, non-empty one, and each codec id only when the report's FFmpeg number maps to a different codec of the stream's kind |
| GLMediaPlayerObject.Player.StoreIdsMeasuresAndCodecs | Tooling/JOGL/jogl/classes/jogamp/opengl/util/av/GLMediaPlayerImpl.java:1941-2030 | the stream ids, the measures, the codec names and the codec ids are stored as UpdateAttributes states, and no other field changes |
| GLMediaPlayerImpl.NewCodecId | Tooling/JOGL/jogl/classes/jogamp/opengl/util/av/GLMediaPlayerImpl.java:2013-2030 | a codec id changes exactly when the FFmpeg number is positive and maps to a codec of the stream's kind that differs from the current one; the new id is then that codec |
| GLMediaPlayerImpl.CodecReportSettles | Tooling/JOGL/jogl/classes/jogamp/opengl/util/av/GLMediaPlayerImpl.java:1998-2030 | reporting the same codec name and FFmpeg codec number a second time changes neither, so it raises no codec event |
| GLMediaPlayerObject.Player.RaiseIf | Tooling/JOGL/jogl/classes/jogamp/opengl/util/av/GLMediaPlayerImpl.java:1944-1946 | one conditional setBit: the mask gains bit b exactly when the attribute changed |
| GLStateTracker.DefaultPixelStatesCount | Tooling/JOGL/jogl/classes/jogamp/opengl/GLStateTracker.java:82-103 | clearStates installs sixteen distinct pixel-store entries |
| GLStateTracker.DefaultPixelStatesValues | Tooling/JOGL/jogl/classes/jogamp/opengl/GLStateTracker.java:82-103 | both alignments default to 4 and every other pixel-store value to 0 (GL_FALSE) |
| GLStateTracker.SortedKeysCount | Tooling/JOGL/jogl/classes/jogamp/opengl/GLStateTracker.java:82-103 | strictly increasing enumerants are all distinct keys |
| GLStateTracker.Lookup | Tooling/JOGL/jogl/classes/jogamp/opengl/GLStateTracker.java:278-287 | getInt finds a value exactly when tracking is on and the map holds a value other than the not-found 0xFFFFFFFF, and then returns that value |
| GLStateTracker.StoreThenLookup | Tooling/JOGL/jogl/classes/jogamp/opengl/GLStateTracker.java:278-306 | with tracking on, setInt changes only the named entry, and getInt then reads the stored value back |
| GLStateTracker.DisabledIsInert | Tooling/JOGL/jogl/classes/jogamp/opengl/GLStateTracker.java:278-341 | with tracking off, setInt, pushAttrib and popAttrib change nothing and getInt never answers |
| GLStateTracker.PushGrows | Tooling/JOGL/jogl/classes/jogamp/opengl/GLStateTracker.java:312-321 | pushAttrib grows the stack by one, saves the pixel states exactly when CLIENT_PIXEL_STORE_BIT is set, and keeps the current states |
| GLStateTracker.PushPopRestores | Tooling/JOGL/jogl/classes/jogamp/opengl/GLStateTracker.java:312-341 | a pop right after a push gives back the stack and pixel states from before the push |
| GLStateTracker.PushStoresPopRestores | Tooling/JOGL/jogl/classes/jogamp/opengl/GLStateTracker.java:312-341 | pushing CLIENT_PIXEL_STORE_BIT, then any run of setInt, then popping restores every value from before the push |
| GLStateTracker.StoreAllKeepsStack | Tooling/JOGL/jogl/classes/jogamp/opengl/GLStateTracker.java:302-306 | setInt never touches the stack or the enabled flag |
| GLStateTracker.PopEmptyFails | Tooling/JOGL/jogl/classes/jogamp/opengl/GLStateTracker.java:325-327 | popAttrib on an empty stack throws while tracking is on |
| GLStateTracker.BlendFuncEq.constructor | Tooling/JOGL/jogl/classes/jogamp/opengl/GLStateTracker.java:147-162 | a new blend state holds the defaults: src = ONE, dst = ZERO, equation FUNC_ADD |
| GLStateTracker.BlendFuncEq.Copy | Tooling/JOGL/jogl/classes/jogamp/opengl/GLStateTracker.java:151-153 | the copy holds the source's six values |
| GLStateTracker.BlendFuncEq.ClearStates | Tooling/JOGL/jogl/classes/jogamp/opengl/GLStateTracker.java:155-162 | the six values return to their defaults |
| GLStateTracker.BlendFuncEq.Set | Tooling/JOGL/jogl/classes/jogamp/opengl/GLStateTracker.java:164-171 | the six values become the source's |
| GLStateTracker.BlendGlobal.constructor | Tooling/JOGL/jogl/classes/jogamp/opengl/GLStateTracker.java:181-184 | a fresh function/equation state; colour zero, blending disabled, defaults everywhere |
| GLStateTracker.BlendGlobal.ClearStates | Tooling/JOGL/jogl/classes/jogamp/opengl/GLStateTracker.java:191-195 | colour zero, blending disabled, and the same function/equation object reset to defaults |
| GLStateTracker.BlendGlobal.Set | Tooling/JOGL/jogl/classes/jogamp/opengl/GLStateTracker.java:197-205 | colour, enabled flag and function/equation values become the source's, keeping this object's own function/equation object |
| GLStateTracker.Tracker.constructor | Tooling/JOGL/jogl/classes/jogamp/opengl/GLStateTracker.java:207-259 | tracking on, default pixel states, an empty stack, default global blending and no per-output blending |
| GLStateTracker.Tracker.SetEnabled | Tooling/JOGL/jogl/classes/jogamp/opengl/GLStateTracker.java:261-263 | the tracking flag becomes the argument |
| GLStateTracker.Tracker.GetInt | Tooling/JOGL/jogl/classes/jogamp/opengl/GLStateTracker.java:278-287 | getInt answers as Lookup on the tracker's state |
| GLStateTracker.Tracker.SetInt | Tooling/JOGL/jogl/classes/jogamp/opengl/GLStateTracker.java:302-306 | the tracker's state becomes Store of the old state |
| GLStateTracker.Tracker.PushAttrib | Tooling/JOGL/jogl/classes/jogamp/opengl/GLStateTracker.java:312-321 | the tracker's state becomes Push of the old state |
| GLStateTracker.Tracker.PopAttrib | Tooling/JOGL/jogl/classes/jogamp/opengl/GLStateTracker.java:323-341 | the outcome fails exactly when Pop of the old state fails (empty stack), the tracker then unchanged; otherwise the state becomes Pop of the old state |
| GLStateTracker.Tracker.ClearStates | Tooling/JOGL/jogl/classes/jogamp/opengl/GLStateTracker.java:342-347 | the stack and per-output list are emptied, the pixel states and global blending reset to their defaults, and the enabled flag kept |
| GLArrayDataClient.Zeros | Tooling/JOGL/jogl/classes/com/jogamp/opengl/util/GLArrayDataClient.java:481-511 | a newly allocated direct buffer of n components holds n zeros |
| GLArrayDataClient.Write | Tooling/JOGL/jogl/classes/com/jogamp/opengl/util/GLArrayDataClient.java:275-284 | a relative bulk put stores the components at the position, moves the position past them and keeps the limit, the capacity and everything written before |
| GLArrayDataClient.FloatToInt | Tooling/JOGL/jogl/classes/com/jogamp/opengl/util/GLArrayDataClient.java:452 | Java's (int) cast of a non-negative in-range float is its floor |
| GLArrayDataClient.CompsToElemCount | Tooling/JOGL/jogl/classes/com/jogamp/opengl/util/GLArrayDataClient.java:427-429 | compsToElemCount with Java int wrap-around and truncating division; CompsToElemCountIsCeiling states it is the ceiling of componentCount / compsPerElement when nothing overflows |
| GLArrayDataClient.CompsToElemCountIsCeiling | Tooling/JOGL/jogl/classes/com/jogamp/opengl/util/GLArrayDataClient.java:427-429 | without overflow, compsToElemCount gives the least element count that holds the components |
| GLArrayDataClient.ReservedSizePacked | Tooling/JOGL/jogl/classes/com/jogamp/opengl/util/GLArrayDataClient.java:469-478 | with no stride padding and no overflow, reserve asks for exactly elementCount * compsPerElement components |
| GLArrayDataClient.Regrown | Tooling/JOGL/jogl/classes/com/jogamp/opengl/util/GLArrayDataClient.java:481-514 | the buffer reserve installs has the requested capacity, an open limit, and the old buffer's position and written components |
| GLArrayDataClient.ReserveStep | Tooling/JOGL/jogl/classes/com/jogamp/opengl/util/GLArrayDataClient.java:469-520 | reserve only ever replaces the buffer, leaving every other field of the client alone, and keeps it valid |
| GLArrayDataClient.GrowStep | Tooling/JOGL/jogl/classes/com/jogamp/opengl/util/GLArrayDataClient.java:439-458 | growIfNeeded only ever replaces the buffer, leaving every other field alone, and keeps it valid |
| GLArrayDataClient.PutStep | Tooling/JOGL/jogl/classes/com/jogamp/opengl/util/GLArrayDataClient.java:275-401 | the put family only ever replaces the buffer, leaving every other field alone, and keeps it valid |
| GLArrayDataClient.Seal | Tooling/JOGL/jogl/classes/com/jogamp/opengl/util/GLArrayDataClient.java:236-249 | seal(s) keeps the client valid and leaves it sealed exactly when s is true |
| GLArrayDataClient.Clear | Tooling/JOGL/jogl/classes/com/jogamp/opengl/util/GLArrayDataClient.java:226-234 | clear() keeps the client valid |
| GLArrayDataClient.SetWritten | Tooling/JOGL/jogl/classes/com/jogamp/opengl/util/GLArrayDataClient.java:171-173 | setVBOWritten sets the written flag as given for an unmapped buffer, and keeps a mapped one written |
| GLArrayDataClient.ReserveKeeps | Tooling/JOGL/jogl/classes/com/jogamp/opengl/util/GLArrayDataClient.java:469-480 | reserve throws on a dead or sealed client and returns false, changing nothing, when the buffer is already large enough |
| GLArrayDataClient.ReserveGrows | Tooling/JOGL/jogl/classes/com/jogamp/opengl/util/GLArrayDataClient.java:469-520 | a reserve that returns true leaves a buffer of the requested capacity, open to its end, holding the old written components at the old position, and nothing else changed |
| GLArrayDataClient.GrowIfNeededCases | Tooling/JOGL/jogl/classes/com/jogamp/opengl/util/GLArrayDataClient.java:439-458 | growIfNeeded returns false and changes nothing when enough room remains, and throws for a mapped buffer that would have to grow |
| GLArrayDataClient.GrowTarget | Tooling/JOGL/jogl/classes/com/jogamp/opengl/util/GLArrayDataClient.java:446-455 | the element count growIfNeeded reserves: the larger of the grown and the required count, or of initElemCount and the required count without a buffer; GrowIfNeededMakesRoom states that reserving it leaves the spare room |
| GLArrayDataClient.GrowIfNeededMakesRoom | Tooling/JOGL/jogl/classes/com/jogamp/opengl/util/GLArrayDataClient.java:439-458 | on a live, open, unmapped, packed client of a supported class, growIfNeeded succeeds and leaves at least the spare components free (barring int overflow) |
| GLArrayDataClient.PutWhileSealed | Tooling/JOGL/jogl/classes/com/jogamp/opengl/util/GLArrayDataClient.java:275-401 | every put is a no-op while the client is sealed |
| GLArrayDataClient.PutAppends | Tooling/JOGL/jogl/classes/com/jogamp/opengl/util/GLArrayDataClient.java:275-284 | a successful put writes the components right after the ones already written and keeps those |
| GLArrayDataClient.SealIdempotent | Tooling/JOGL/jogl/classes/com/jogamp/opengl/util/GLArrayDataClient.java:236-238 | sealing twice with the same flag is the same as sealing once |
| GLArrayDataClient.SealUnsealResumes | Tooling/JOGL/jogl/classes/com/jogamp/opengl/util/GLArrayDataClient.java:236-249 | seal(true) then seal(false) reopens the buffer with the position where writing stopped and the limit at capacity |
| GLArrayDataClient.ClearGLResets | Tooling/JOGL/jogl/classes/com/jogamp/opengl/util/GLArrayDataClient.java:182-186 | clear(gl) leaves the client unsealed and disabled with the buffer position at 0 |
| GLArrayDataClient.EnableBuffer | Tooling/JOGL/jogl/classes/com/jogamp/opengl/util/GLArrayDataClient.java:194-205 | enableBuffer changes at most the enabled flag, turns it on only for a live, sealed client, and changes nothing when it throws |
| GLArrayDataClient.EnableNeedsSeal | Tooling/JOGL/jogl/classes/com/jogamp/opengl/util/GLArrayDataClient.java:194-199 | enabling a client that is not sealed throws "not sealed yet" |
| GLArrayDataClient.ArrayDataClient.Init | Tooling/JOGL/jogl/classes/com/jogamp/opengl/util/GLArrayDataClient.java:537-567 | the fields as the constructor sets them: alive, unsealed, disabled, written exactly when mapped |
| GLArrayDataClient.ArrayDataClient.Create | Tooling/JOGL/jogl/classes/com/jogamp/opengl/util/GLArrayDataClient.java:537-571 | the constructor rejects a mapped count together with an initial count, and otherwise reserves the initial elements when no buffer is given |
| GLArrayDataClient.ArrayDataClient.SetVBOWritten | Tooling/JOGL/jogl/classes/com/jogamp/opengl/util/GLArrayDataClient.java:171-173 | the new state is setVBOWritten's |
| GLArrayDataClient.ArrayDataClient.SetGrowthFactor | Tooling/JOGL/jogl/classes/com/jogamp/opengl/util/GLArrayDataClient.java:635-637 | the growth factor is clipped to at least 1 |
| GLArrayDataClient.ArrayDataClient.SetEnableAlways | Tooling/JOGL/jogl/classes/com/jogamp/opengl/util/GLArrayDataClient.java:217 | the enable-always flag is set as given |
| GLArrayDataClient.ArrayDataClient.ClearData | Tooling/JOGL/jogl/classes/com/jogamp/opengl/util/GLArrayDataClient.java:226-234 | the new state is clear()'s, which ClearGLResets describes |
| GLArrayDataClient.ArrayDataClient.SetSealed | Tooling/JOGL/jogl/classes/com/jogamp/opengl/util/GLArrayDataClient.java:236-249 | the new state is seal(s)'s, which SealIdempotent and SealUnsealResumes describe |
| GLArrayDataClient.ArrayDataClient.Enable | Tooling/JOGL/jogl/classes/com/jogamp/opengl/util/GLArrayDataClient.java:194-205 | enableBuffer acts only when forced or when the flag changes, and enabling checks the client is alive and sealed |
| GLArrayDataClient.ArrayDataClient.SealWithGL | Tooling/JOGL/jogl/classes/com/jogamp/opengl/util/GLArrayDataClient.java:188-192 | seal(gl, s) is seal(s) followed by enableBuffer(gl, s) |
| GLArrayDataClient.ArrayDataClient.ClearWithGL | Tooling/JOGL/jogl/classes/com/jogamp/opengl/util/GLArrayDataClient.java:182-186 | clear(gl) is seal(gl, false) followed by clear() |
| GLArrayDataClient.ArrayDataClient.Reserve | Tooling/JOGL/jogl/classes/com/jogamp/opengl/util/GLArrayDataClient.java:469-520 | the outcome and new state are reserve's, described by ReserveKeeps and ReserveGrows |
| GLArrayDataClient.ArrayDataClient.GrowIfNeeded | Tooling/JOGL/jogl/classes/com/jogamp/opengl/util/GLArrayDataClient.java:439-458 | the outcome and new state are growIfNeeded's, described by GrowIfNeededCases and GrowIfNeededMakesRoom |
| GLArrayDataClient.ArrayDataClient.Put | Tooling/JOGL/jogl/classes/com/jogamp/opengl/util/GLArrayDataClient.java:275-401 | the outcome and new state are the put family's, described by PutWhileSealed and PutAppends |
| GLArrayDataClient.ArrayDataClient.RewindBuffer | Tooling/JOGL/jogl/classes/com/jogamp/opengl/util/GLArrayDataClient.java:253 | rewind moves the position of a present buffer to 0 and leaves a missing one missing |
| CircularBuffer.CalcOffset | Source/com/jackmeng/CircularBuffer.java:87-90 | calc_offset is a Java remainder: inside the ring for a non-negative wrapped sum, in (-capacity, 0] for a negative one |
| CircularBuffer.NextStart | Source/com/jackmeng/CircularBuffer.java:87-90 | calc_offset of a non-negative count from a start inside the ring is an index inside the ring |
| CircularBuffer.CalcOffsetWraps | Source/com/jackmeng/CircularBuffer.java:87-90 | calc_offset is the index count places after base, wrapping past the array's end at most once |
| CircularBuffer.Free | Source/com/jackmeng/CircularBuffer.java:167-170 | the corrected free(n) is never negative and never runs past the array end |
| CircularBuffer.FreeAsWritten | Source/com/jackmeng/CircularBuffer.java:167-170 | free(n) as written is the negated corrected room when start >= n with bytes held, and the corrected room otherwise |
| CircularBuffer.FreeAtOffset | Source/com/jackmeng/CircularBuffer.java:167-170 | at the write offset, the corrected free is the contiguous room there: between 0 and the free size, 0 exactly when the ring is full, ending at the array's end or at the oldest byte |
| CircularBuffer.FreeBeforeStart | Source/com/jackmeng/CircularBuffer.java:167-170 | when the oldest byte lies before n, free(n) is the room to the array's end, as written and as corrected |
| CircularBuffer.FreeAsWrittenNegative | Source/com/jackmeng/CircularBuffer.java:167-170 | a ring of 4 holding 2 bytes from index 2 writes next at 0, where free as written answers -2 instead of 2 |
| CircularBuffer.FreeAsWrittenWrong | Source/com/jackmeng/CircularBuffer.java:167-170 | in a ring neither empty nor full, free as written at the write offset is negative exactly when the data wraps |
| CircularBuffer.GetRemAsWritten | Source/com/jackmeng/CircularBuffer.java:51-67 | getRem as written, over the as-written free: it ends with a leftover count no larger than the request, or throws after copying at most the request |
| CircularBuffer.PushAsWrittenThrows | Source/com/jackmeng/CircularBuffer.java:51-67 | push as written throws once the write position wraps: 3 bytes into 1 byte held at index 2 of 4 copy one byte and then throw, and with 2 bytes held from index 2 even an empty push throws |
| CircularBuffer.PushAsWrittenFitsBeforeEnd | Source/com/jackmeng/CircularBuffer.java:51-67 | while the bytes fit before the array's end, push as written copies them all, as the corrected push does |
| CircularBuffer.ViewAppend | Source/com/jackmeng/CircularBuffer.java:60-61 | copying a chunk into the free room at the write offset, then counting it, appends the chunk to the bytes held |
| CircularBuffer.ViewAppendInside | Source/com/jackmeng/CircularBuffer.java:60-61 | when the data does not wrap, the chunk lands right after it |
| CircularBuffer.ViewAppendWrapped | Source/com/jackmeng/CircularBuffer.java:60-61 | when the data wraps, the chunk lands at the front of the array, before the oldest byte |
| CircularBuffer.CircularBuffer.constructor | Source/com/jackmeng/CircularBuffer.java:10-13 | a new ring of the given capacity holds nothing |
| CircularBuffer.CircularBuffer.Default | Source/com/jackmeng/CircularBuffer.java:15-18 | the no-argument ring has capacity 255 and holds nothing |
| CircularBuffer.CircularBuffer.UsedSize | Source/com/jackmeng/CircularBuffer.java:20-23 | usedSize is the number of bytes held |
| CircularBuffer.CircularBuffer.FreeSize | Source/com/jackmeng/CircularBuffer.java:30-33 | freeSize is non-negative and adds up with the bytes held to the capacity |
| CircularBuffer.CircularBuffer.Offset | Source/com/jackmeng/CircularBuffer.java:92-95 | the write offset is inside the array: start + sz, less the capacity when that passes the end |
| CircularBuffer.CircularBuffer.Overflows | Source/com/jackmeng/CircularBuffer.java:148-151 | overflows(n) holds exactly when n bytes do not fit between the write offset and the array's end (barring int overflow) |
| CircularBuffer.CircularBuffer.FreeAt | Source/com/jackmeng/CircularBuffer.java:167-170 | the corrected free (see "## Findings") at the write offset is the contiguous room there and is 0 exactly when the ring is full |
| CircularBuffer.CircularBuffer.Init | Source/com/jackmeng/CircularBuffer.java:81-85 | init empties the ring and restarts it at index 0 |
| CircularBuffer.CircularBuffer.Drop | Source/com/jackmeng/CircularBuffer.java:35-42 | drop(n) forgets the min(n, sz) oldest bytes and keeps the rest in order |
| CircularBuffer.CircularBuffer.Next | Source/com/jackmeng/CircularBuffer.java:153-165 | next(n) counts n more bytes, capped at the capacity, moving the start past any bytes overwritten |
| CircularBuffer.CircularBuffer.AppendChunk | Source/com/jackmeng/CircularBuffer.java:60-61 | one array copy into the free room followed by next appends those bytes to the contents |
| CircularBuffer.CircularBuffer.PushChunk | Source/com/jackmeng/CircularBuffer.java:55-63 | one round of getRem over the corrected free (see "## Findings"): no room exactly when the ring is full; otherwise a non-empty prefix of what remains is appended |
| CircularBuffer.CircularBuffer.Push | Source/com/jackmeng/CircularBuffer.java:44-49 | the corrected push (see "## Findings") copies min(len, freeSize) bytes, appends exactly those to the contents and returns their count |
| CircularBuffer.CircularBuffer.PushRound | Source/com/jackmeng/CircularBuffer.java:53-65 | one turn of getRem's loop over the corrected free (see "## Findings") copies nothing exactly when the ring was full, and otherwise copies at least one byte, appending the next bytes of the request |
| CircularBuffer.CircularBuffer.GetRem | Source/com/jackmeng/CircularBuffer.java:51-67 | the corrected getRem (see "## Findings") appends the leading bytes of the request and stops only when all are copied or the ring is full, returning the count left over |
| LazyQueue.LazyQueue.constructor | Source/com/jackmeng/LazyQueue.java:7-8 | a new queue holds nothing |
| LazyQueue.LazyQueue.Enqueue | Source/com/jackmeng/LazyQueue.java:10-13 | the item joins the back of the queue, in the lazy part |
| LazyQueue.LazyQueue.Drain | Source/com/jackmeng/LazyQueue.java:22-26 | every waiting item moves, in order, to the back of the front queue, and the queue's order is unchanged |
| LazyQueue.LazyQueue.Dequeue | Source/com/jackmeng/LazyQueue.java:15-20 | dequeue removes and returns the oldest item, and returns null (None) on an empty queue, leaving it empty |
| LazyQueue.LazyQueue.Peek | Source/com/jackmeng/LazyQueue.java:28-33 | peek returns what dequeue would, and the queue's items and order stay |
| LazyQueue.LazyQueue.IsEmpty | Source/com/jackmeng/LazyQueue.java:35-38 | isEmpty holds exactly when the queue holds nothing |
| LazyQueue.LazyQueue.Size | Source/com/jackmeng/LazyQueue.java:40-43 | size is the number of items held |
| IntervalTree.IntervalsAreMembers | Source/com/jackmeng/IntervalTree.java:17-28 | the pre-order list of a tree holds exactly its stored intervals |
| IntervalTree.FilterMembers | Source/com/jackmeng/IntervalTree.java:64-65 | the reference answer keeps exactly the intervals that contain the point |
| IntervalTree.FilterAppend | Source/com/jackmeng/IntervalTree.java:58-70 | the reference answer of a concatenation is the concatenation of the answers |
| IntervalTree.FilterOne | Source/com/jackmeng/IntervalTree.java:64-65 | one interval is reported exactly when it contains the point |
| IntervalTree.FilterNone | Source/com/jackmeng/IntervalTree.java:66-69 | a list with no interval containing the point yields nothing |
| IntervalTree.InsertNode | Source/com/jackmeng/IntervalTree.java:37-49 | insert returns a non-empty tree whose intervals are the old ones plus exactly the new one |
| IntervalTree.InsertKeepsOrder | Source/com/jackmeng/IntervalTree.java:41-45 | insert keeps the search order on low, smaller lows left and ties right |
| IntervalTree.InsertKeepsMaxBounds | Source/com/jackmeng/IntervalTree.java:23-47 | insert keeps every node's max at or above each high end in its subtree |
| IntervalTree.SkipSubtree | Source/com/jackmeng/IntervalTree.java:66-69 | a subtree whose max lies below the point holds no interval containing it, so skipping it loses nothing |
| IntervalTree.SearchChild | Source/com/jackmeng/IntervalTree.java:66-69 | the guarded visit of a child finds exactly what scanning its whole subtree finds |
| IntervalTree.SearchIsFilter | Source/com/jackmeng/IntervalTree.java:58-70 | with the max bounds in place, the pruned search returns exactly the stored intervals containing the point, in pre-order |
| IntervalTree.SearchEmpty | Source/com/jackmeng/IntervalTree.java:62-63 | searching the empty tree returns nothing |
| IntervalTree.IntervalTree.constructor | Source/com/jackmeng/IntervalTree.java:30 | a new tree is empty and valid |
| IntervalTree.IntervalTree.Insert | Source/com/jackmeng/IntervalTree.java:32-35 | insert adds exactly the one interval and keeps the order and max invariants |
| IntervalTree.IntervalTree.Search | Source/com/jackmeng/IntervalTree.java:51-56 | search returns every stored interval containing the point and no other, in pre-order |
| NaiveLRUCache.GetColorAsWritten | Source/com/jackmeng/NaiveLRUCache.java:67-70 | getColor as written takes the sign of the hash code: a block index for a non-negative hash, in (-numColors, 0] for a negative one |
| NaiveLRUCache.GetColorAsWrittenNegative | Source/com/jackmeng/NaiveLRUCache.java:67-70 | a key with hash code -1 and four colours gets colour -1, outside the colour blocks |
| NaiveLRUCache.GetColor | Source/com/jackmeng/NaiveLRUCache.java:67-70 | the corrected colour is a block index for every hash code, agrees with the code as written for non-negative hash codes, and is congruent to the hash code |
| NaiveLRUCache.GetEntry | Source/com/jackmeng/NaiveLRUCache.java:38-42 | get finds a value exactly when the key is in the map |
| NaiveLRUCache.Evict | Source/com/jackmeng/NaiveLRUCache.java:91-103 | evict removes at most one key and adds none, and removes exactly one when the lists choose a key of the map |
| NaiveLRUCache.GetAfterPut | Source/com/jackmeng/NaiveLRUCache.java:72-89 | with the corrected colour (see "## Findings"), after put(k, v), get(k) returns v |
| NaiveLRUCache.PutExisting | Source/com/jackmeng/NaiveLRUCache.java:74-80 | put on a present key replaces its value and adds no key |
| NaiveLRUCache.EvictOnlyWhenFull | Source/com/jackmeng/NaiveLRUCache.java:81-88 | put loses keys only when a new key arrives at a full map |
| NaiveLRUCache.PutKeepsOthers | Source/com/jackmeng/NaiveLRUCache.java:72-89 | put leaves every other key's value alone unless the full map evicts that key |
| NaiveLRUCache.PutWithinCapacity | Source/com/jackmeng/NaiveLRUCache.java:81-88 | a map within capacity stays within capacity after put, provided eviction removes one of its keys |
| NaiveLRUCache.NaiveLRUCache.constructor | Source/com/jackmeng/NaiveLRUCache.java:14-23 | a new cache keeps its capacity, colour count and hash codes and holds no entries |
| NaiveLRUCache.NaiveLRUCache.Get | Source/com/jackmeng/NaiveLRUCache.java:38-46 | get, filing the node under the corrected colour (see "## Findings"), returns the stored value, or null (None) for an absent key |
| NaiveLRUCache.NaiveLRUCache.Put | Source/com/jackmeng/NaiveLRUCache.java:72-89 | put updates the map as PutEntry says and files the node under the key's corrected colour, a valid block index |
| HashFunction.NewHashFunction | Source/com/jackmeng/HashFunction.java:11-15 | a new hash function keeps its size and has a seed in [0, Integer.MAX_VALUE) |
| HashFunction.StepAsWritten | Source/com/jackmeng/HashFunction.java:21 | one step of hash as written: the wrapped h * 31 + c, reduced by Java's remainder to strictly between -size and size |
| HashFunction.HashAsWritten | Source/com/jackmeng/HashFunction.java:17-23 | hash as written: the seed for "", otherwise strictly between -size and size and so possibly negative; HashAsWrittenOverflows gives -613 |
| HashFunction.HashAsWrittenOverflows | Source/com/jackmeng/HashFunction.java:17-23 | with a seed of 2147483646 and size 1000, the hash of "a" overflows to -613 |
| HashFunction.Hash | Source/com/jackmeng/HashFunction.java:17-23 | the corrected hash of the empty string is the seed, and of any other string an index in [0, size) |
| HashFunction.ComputeHash | Source/com/jackmeng/HashFunction.java:17-23 | the loop computes the corrected hash, which is non-negative for a non-negative seed |
| HashFunction.NoOverflowAgrees | Source/com/jackmeng/HashFunction.java:17-23 | when neither the seed nor the size can overflow a step, the code as written computes the corrected hash, an index in [0, size) for a non-empty string |
| BloomFilter.Positions | Source/com/jackmeng/BloomFilter.java:23-30 | every position add sets is the hash of the value under one of the hash functions |
| BloomFilter.AddedIsContained | Source/com/jackmeng/BloomFilter.java:23-41 | no false negatives: after add(s), contains(s) holds, and every earlier positive answer stays positive |
| BloomFilter.UnsetPositionRejects | Source/com/jackmeng/BloomFilter.java:32-41 | contains fails as soon as one hash position of the value is unset |
| BloomFilter.BloomFilter.constructor | Source/com/jackmeng/BloomFilter.java:15-21 | a new filter has an empty bit set and the requested number of hash functions, each of the filter's size |
| BloomFilter.BloomFilter.Add | Source/com/jackmeng/BloomFilter.java:23-30 | add sets exactly the hash positions of the value and clears no bit |
| BloomFilter.BloomFilter.Contains | Source/com/jackmeng/BloomFilter.java:32-41 | contains is true exactly when every hash position of the value is set |
| NaiveSampler.NaiveSampler.constructor | Source/com/jackmeng/NaiveSampler.java:15-20 | a new sampler starts with counter 0 |
| NaiveSampler.NaiveSampler.Accept | Source/com/jackmeng/NaiveSampler.java:40-45 | the n-th item accepted (from 0) is forwarded exactly when n is a multiple of |sampleRate|; a rate of 1 or -1 forwards everything |
| NaiveSampler.RemOfNonNegative | Source/com/jackmeng/NaiveSampler.java:44 | for a non-negative counter, Java's `%` by sampleRate is the remainder by |sampleRate|, whatever the rate's sign |
| AnsiColor.HueIndex | Source/net/exoad/ansicolor/AnsiColor.java:684-990 | each of the eight base colours has its own offset 0-7 |
| AnsiColor.FgCode | Source/net/exoad/ansicolor/AnsiColor.java:693-985 | the foreground codes are 30 plus the colour's offset, or 90 plus it for the bright colours |
| AnsiColor.BgCodeAsWritten | Source/net/exoad/ansicolor/AnsiColor.java:768-789 | the background codes as written are standard (40-47) or bright (100-107) background codes; BlueBgAsWrittenIsYellow and BgAsWrittenElsewhere state which |
| AnsiColor.BlueBgAsWrittenIsYellow | Source/net/exoad/ansicolor/AnsiColor.java:768-789 | blue_bg() emits 43, the code of yellow_bg(), rather than the foreground code of blue plus 10 |
| AnsiColor.BgAsWrittenElsewhere | Source/net/exoad/ansicolor/AnsiColor.java:714-990 | every background method other than blue_bg() emits its foreground code plus 10 |
| AnsiColor.BgCode | Source/net/exoad/ansicolor/AnsiColor.java:714-990 | the corrected background code is the foreground code plus 10, and agrees with the code as written everywhere but blue |
| AnsiColor.ColorCodesDistinct | Source/net/exoad/ansicolor/AnsiColor.java:684-990 | distinct colours get distinct foreground codes and distinct background codes, and no foreground code is a background code |
| AnsiColor.EffectCode | Source/net/exoad/ansicolor/AnsiColor.java:1001-1203 | each font effect emits a code between 0 and 55 that is never a colour code |
| AnsiColor.RgbChannelAsWritten | Source/net/exoad/ansicolor/AnsiColor.java:1216-1227 | a channel of rgb_fg/rgb_bg as written; RgbChannelAsWrittenIsConstant states it is 255 whatever the request |
| AnsiColor.RgbChannelAsWrittenIsConstant | Source/net/exoad/ansicolor/AnsiColor.java:1216-1227 | clampInt(0, 255, x) as called in rgb_fg/rgb_bg yields 255 whatever the channel, even for 0 |
| AnsiColor.RgbChannel | Source/net/exoad/ansicolor/AnsiColor.java:1216-1227 | the corrected channel lies in [0, 255], is the requested value when that is in range, and is 0 or 255 past either end |
| AnsiColor.Texts | Source/net/exoad/ansicolor/AnsiColor.java:1245-1250 | make(int...) writes one decimal text per code |
| AnsiColor.TextsAt | Source/net/exoad/ansicolor/AnsiColor.java:1245-1250 | the k-th text written for make(int...) is the decimal text of the k-th code, so the codes appear in order and each in full |
| AnsiColor.TextsSnoc | Source/net/exoad/ansicolor/AnsiColor.java:1245-1250 | each further code grows the buffer by its text and a ';' |
| AnsiColor.TerminatedSnoc | Source/net/exoad/ansicolor/AnsiColor.java:706-711 | make(code) grows the buffer by the code and a ';' |
| AnsiColor.TerminatedAppend | Source/net/exoad/ansicolor/AnsiColor.java:706-711 | the buffer after two runs of make is the concatenation of the runs |
| AnsiColor.TerminatedIsSeparated | Source/net/exoad/ansicolor/AnsiColor.java:706-711 | a non-empty run of make calls leaves the ';'-separated parameter list plus one trailing ';' |
| AnsiColor.EndCodes | Source/net/exoad/ansicolor/AnsiColor.java:1320-1324 | end() fails (deleteCharAt(-1) throws) exactly when the buffer holds no ';', and otherwise removes exactly one character |
| AnsiColor.EndOfTerminated | Source/net/exoad/ansicolor/AnsiColor.java:1320-1324 | end() after a non-empty run of style calls leaves exactly the ';'-separated parameter list |
| AnsiColor.Sgr | Source/net/exoad/ansicolor/AnsiColor.java:1303-1309 | the escape is CSI, the parameters, 'm', then the text |
| AnsiColor.SgrShape | Source/net/exoad/ansicolor/AnsiColor.java:1377-1384 | appending 'm', the text and a tail to the ended buffer and prefixing CSI is the escape followed by the tail |
| AnsiColor.RenderAsWritten | Source/net/exoad/ansicolor/AnsiColor.java:1303-1309 | render() as written; RenderAsWrittenDoubles states it writes the content twice |
| AnsiColor.ToStringSelfAsWritten | Source/net/exoad/ansicolor/AnsiColor.java:1362-1365 | toString() as written passes the content to toString(c); RenderAsWrittenDoubles states it writes the content twice |
| AnsiColor.RenderAsWrittenDoubles | Source/net/exoad/ansicolor/AnsiColor.java:1303-1309 | render() and toString() as written emit the content twice (content.append(content)) rather than once |
| AnsiColor.ToStringIsRenderThenReset | Source/net/exoad/ansicolor/AnsiColor.java:1362-1384 | the corrected toString() is render() followed by the reset, and toString(c) with ANSI off is c |
| AnsiColor.StyledString | Source/net/exoad/ansicolor/AnsiColor.java:1377-1384 | make(x) with a non-empty run of codes renders as CSI, the ';'-separated codes, 'm', x, c and ESC[0m |
| AnsiColor.Escape | Source/net/exoad/ansicolor/AnsiColor.java:1332-1339 | spelling ESC as `\033` never shortens a string and leaves one without ESC alone |
| AnsiColor.EscapeAppend | Source/net/exoad/ansicolor/AnsiColor.java:1332-1339 | spelling out ESC distributes over concatenation |
| AnsiColor.EndKeepsEscFree | Source/net/exoad/ansicolor/AnsiColor.java:1320-1324 | end() only deletes, so it cannot introduce an ESC |
| AnsiColor.EscapeFrame | Source/net/exoad/ansicolor/AnsiColor.java:1332-1339 | the escape frame CSI ... ESC[0m spelled out is `\033[` ... `\033[0m` |
| AnsiColor.EscapedIsToStringSpelledOut | Source/net/exoad/ansicolor/AnsiColor.java:1332-1339 | escaped() is toString() with each ESC spelled out, for codes and content free of ESC |
| AnsiColor.InternedInstance.constructor | Source/net/exoad/ansicolor/AnsiColor.java:220-280 | make(content) and make() start with no codes and the given (or empty) content |
| AnsiColor.InternedInstance.Make | Source/net/exoad/ansicolor/AnsiColor.java:706-711 | make(code) appends the code and a ';' and leaves the content alone |
| AnsiColor.InternedInstance.Foreground | Source/net/exoad/ansicolor/AnsiColor.java:684-990 | a foreground method appends its colour's code and a ';' |
| AnsiColor.InternedInstance.Background | Source/net/exoad/ansicolor/AnsiColor.java:714-990 | a background method appends the colour's (corrected) background code and a ';' |
| AnsiColor.InternedInstance.Style | Source/net/exoad/ansicolor/AnsiColor.java:1001-1203 | a font-effect method appends its code and a ';' |
| AnsiColor.InternedInstance.MakeCodes | Source/net/exoad/ansicolor/AnsiColor.java:1245-1293 | make(int...) and apply(int...) append each code's decimal text and a ';', in order |
| AnsiColor.InternedInstance.RgbForeground | Source/net/exoad/ansicolor/AnsiColor.java:1216-1243 | the corrected rgb_fg (see "## Findings") appends 38;2;r;g;b; with each channel clamped into [0, 255] |
| AnsiColor.InternedInstance.RgbBackground | Source/net/exoad/ansicolor/AnsiColor.java:1257-1280 | the corrected rgb_bg (see "## Findings") appends 48;2;r;g;b; with each channel clamped into [0, 255] |
| AnsiColor.InternedInstance.Append | Source/net/exoad/ansicolor/AnsiColor.java:394-398 | append adds to the content and leaves the codes alone |
| AnsiColor.InternedInstance.End | Source/net/exoad/ansicolor/AnsiColor.java:1320-1324 | end() removes the last ';' and fails, changing nothing, when there is none |
| AnsiColor.InternedInstance.ToString | Source/net/exoad/ansicolor/AnsiColor.java:1377-1384 | toString(c) with ANSI on returns CSI, the ended codes, 'm', the content with c appended and the reset, and fails where end() throws; with ANSI off it returns c and changes nothing |
| AnsiColor.InternedInstance.ToStringSelf | Source/net/exoad/ansicolor/AnsiColor.java:1362-1365 | the corrected toString() returns the content once, followed by the reset when ANSI is on |
| AnsiColor.InternedInstance.Render | Source/net/exoad/ansicolor/AnsiColor.java:1303-1309 | the corrected render() returns CSI, the ended codes, 'm' and the content once, with no reset |
| AnsiColor.InternedInstance.Escaped | Source/net/exoad/ansicolor/AnsiColor.java:1332-1339 | escaped() returns `\033[`, the ended codes, 'm', the content and `\033[0m` |
| ColorSynthbase.NewColor | Source/pkg/exoad/poprock/core/color/ColorSynthbase.java:136-140 | the java.awt.Color constructor succeeds exactly when every channel lies in 0..255, and keeps the channels |
| ColorSynthbase.Format02x | Source/pkg/exoad/poprock/core/color/ColorSynthbase.java:32 | "%02x" of a channel in 0..255 is its two-digit lower-case hexadecimal field |
| ColorSynthbase.RgbToHex | Source/pkg/exoad/poprock/core/color/ColorSynthbase.java:30-33 | RGBToHex of valid channels is '#' followed by six hexadecimal digits |
| ColorSynthbase.HexToRgb | Source/pkg/exoad/poprock/core/color/ColorSynthbase.java:134-141 | hexToRGB yields a colour only for a string of at least seven characters whose three fields are channels in 0..255 |
| ColorSynthbase.FieldRoundTrip | Source/pkg/exoad/poprock/core/color/ColorSynthbase.java:137-139 | a two-digit field written by "%02x" parses back in base 16 to the channel |
| ColorSynthbase.HexRoundTrip | Source/pkg/exoad/poprock/core/color/ColorSynthbase.java:30-141 | hexToRGB(RGBToHex(r, g, b)) is the colour (r, g, b) |
| ColorSynthbase.Packed | Source/pkg/exoad/poprock/core/color/ColorSynthbase.java:37 | getRGB() & 0xffffff of a colour is below 2^24 |
| ColorSynthbase.Color2Hex2AsWritten | Source/pkg/exoad/poprock/core/color/ColorSynthbase.java:35-49 | color2hex_2 as written; Color2Hex2AsWrittenLength states it has seven characters exactly when the packed value has at least three hex digits, and Color2Hex2AsWrittenShort gives "#5" |
| ColorSynthbase.Color2Hex2AsWrittenShort | Source/pkg/exoad/poprock/core/color/ColorSynthbase.java:35-49 | color2hex_2 of (0, 0, 5) is "#5", which hexToRGB cannot read back |
| ColorSynthbase.Color2Hex2AsWrittenLength | Source/pkg/exoad/poprock/core/color/ColorSynthbase.java:35-49 | color2hex_2 as written has seven characters exactly when the packed value has at least three hex digits |
| ColorSynthbase.HexStringLength | Source/pkg/exoad/poprock/core/color/ColorSynthbase.java:37 | Integer.toHexString writes at most two digits exactly below 0x100 |
| ColorSynthbase.Color2Hex | Source/pkg/exoad/poprock/core/color/ColorSynthbase.java:35-49 | the corrected color2hex_2 is RGBToHex of the channels, and agrees with the code as written from 0x100 on |
| ColorSynthbase.ColorFields | Source/pkg/exoad/poprock/core/color/ColorSynthbase.java:30-49 | the six digits of the packed value are the three two-digit channel fields |
| ColorSynthbase.AsWrittenAgrees | Source/pkg/exoad/poprock/core/color/ColorSynthbase.java:38-47 | from 0x100 on, the padding as written zero-pads to six digits |
| ColorSynthbase.Color2HexRoundTrip | Source/pkg/exoad/poprock/core/color/ColorSynthbase.java:35-49 | the corrected color2hex_2 reads back through hexToRGB as the same colour |
| ColorSynthbase.DominantExclusive | Source/pkg/exoad/poprock/core/color/ColorSynthbase.java:51-64 | at most one of is_red, is_green and is_blue holds; none for a grey; one when the three components differ |
| ColorSynthbase.Luminance4 | Source/pkg/exoad/poprock/core/color/ColorSynthbase.java:124-127 | relative_luminance_4 of a colour lies in 0..255 and is the channel value for a grey |
| ColorSynthbase.Luminance4Monotone | Source/pkg/exoad/poprock/core/color/ColorSynthbase.java:124-127 | raising any channel never lowers relative_luminance_4 |
| ColorSynthbase.AllTypesNamed | Source/pkg/exoad/poprock/core/color/ColorSynthbase.java:1111-1140 | the listed colour-space types are exactly those NameMatch names: 0..23 without 10 |
| ColorSynthbase.AllTypesIncreasing | Source/pkg/exoad/poprock/core/color/ColorSynthbase.java:18-28 | awt_colorspace_AllTypes lists the types in increasing order |
| ColorService.HexToColor | Source/pkg/exoad/poprock/core/ColorService.java:30-94 | hexToColor throws (None) for a string shorter than seven characters |
| ColorService.FirstCharIgnored | Source/pkg/exoad/poprock/core/ColorService.java:30-61 | the first character is never read: any symbol in place of '#' gives the same colour |
| ColorService.HexToColorRoundTrip | Source/pkg/exoad/poprock/core/ColorService.java:30-61 | any colour written by RGBToHex reads back through hexToColor, whatever its first character |
| ColorService.InvertColor | Source/pkg/exoad/poprock/core/ColorService.java:105-115 | invertColor maps each channel c to 255 - c and always yields a valid colour |
| ColorService.InvertInvolution | Source/pkg/exoad/poprock/core/ColorService.java:105-115 | inverting twice gives the colour back, and white inverts to black |
| EventPoolService.EventPool.constructor | Source/pkg/exoad/poprock/core/EventPoolService.java:159-162 | a new pool has no payload types |
| EventPoolService.EventPool.AttachListener | Source/pkg/exoad/poprock/core/EventPoolService.java:170-185 | attaching to an unregistered type throws and changes nothing; otherwise the listener becomes the type's last, and every payload and other type stays |
| EventPoolService.EventPool.RegisterEvent | Source/pkg/exoad/poprock/core/EventPoolService.java:193-205 | the type is (re)registered with no listeners and the given payload; every other type stays |
| EventPoolService.EventPool.GetPayload | Source/pkg/exoad/poprock/core/EventPoolService.java:216-233 | getPayload throws exactly for an unregistered type, and otherwise returns the payload held |
| EventPoolService.EventPool.Ping | Source/pkg/exoad/poprock/core/EventPoolService.java:243-259 | ping throws exactly for an unregistered type, and otherwise runs the type's listeners in attach order |
| EventPoolService.EventPool.IsRegisteredPayloadId | Source/pkg/exoad/poprock/core/EventPoolService.java:261-268 | isRegisteredPayloadID holds exactly when getPayload would not throw |
| EventPoolService.EventPool.DispatchEvent | Source/pkg/exoad/poprock/core/EventPoolService.java:270-293 | a null payload is refused first, then an unregistered type, changing nothing; otherwise the payload is stored, getPayload returns it, the listeners run in attach order and nothing else changes |
| EventPoolService.Pools.constructor | Source/pkg/exoad/poprock/core/EventPoolService.java:62 | the pool registry starts empty |
| EventPoolService.Pools.GetPool | Source/pkg/exoad/poprock/core/EventPoolService.java:98-108 | getPool panics exactly for an unregistered number and otherwise returns that pool |
| EventPoolService.Pools.RegisterEventPool | Source/pkg/exoad/poprock/core/EventPoolService.java:122-136 | a taken number panics and changes nothing; otherwise a new empty pool is stored under it, the others stay, and the number is returned unchanged |
| EventPoolService.Pools.InferEventPool | Source/pkg/exoad/poprock/core/EventPoolService.java:77-86 | inferEventPool panics exactly where getPool does, and otherwise returns exactly the pool's registered payload types |
| SharedServices.SameClassesKeepShape | Source/pkg/exoad/poprock/core/SharedServices.java:15-61 | any table whose keys keep the classes of the defaults still has a Boolean nullable-value flag and a DiagnosticsMode debug volume |
| SharedServices.Properties.constructor | Source/pkg/exoad/poprock/core/SharedServices.java:13-21 | the table starts with exactly the two defaults: the nullable-value flag true and the debug volume FAIL_FAST |
| SharedServices.Properties.Set | Source/pkg/exoad/poprock/core/SharedServices.java:50-61 | set stores the value exactly when the key is known and the value has the class of what it holds; an unknown key, a value of another class or a null value (which throws) changes nothing; every key keeps its class |
| SharedServices.Properties.Get | Source/pkg/exoad/poprock/core/SharedServices.java:63-71 | get is empty exactly for an unknown key and otherwise returns the stored value |
| SharedServices.Properties.GetBool | Source/pkg/exoad/poprock/core/SharedServices.java:73-92 | getBool returns a flag exactly when the key holds a Boolean, and that flag is what get returns |
| SharedServices.FlagAlwaysPresent | Source/pkg/exoad/poprock/core/SharedServices.java:13-92 | while the table keeps the default shape, getBool of the nullable-value flag is never empty |
| BasicService.StrContains | Source/pkg/exoad/poprock/core/BasicService.java:86-93 | strContains is true exactly when some given sequence occurs in the string, and false for none given |
| BasicService.ContainsChar | Source/pkg/exoad/poprock/core/BasicService.java:86-93 | a one-character sequence occurs in a string exactly where that character does |
| BasicService.PairedNullsMeaning | Source/pkg/exoad/poprock/core/BasicService.java:104-111 | with no null element, anyPairedNulls answers whether some pair has a null component |
| BasicService.AnyPairedNulls | Source/pkg/exoad/poprock/core/BasicService.java:104-111 | a null array counts as having nulls, an empty one as not; otherwise the loop answers at the first pair with a null component and throws at a null element reached first |
| BasicService.ClampBounds | Source/pkg/exoad/poprock/core/BasicService.java:72-75 | clamping to the whole int range returns every int unchanged |
| RegistryEntries.RegistryEntry.Plain | Source/pkg/exoad/poprock/core/registry/RegistryEntry.java:11-69 | a plain entry has its canonical name and starts with a null value |
| RegistryEntries.RegistryEntry.Collated | Source/pkg/exoad/poprock/core/registry/RegistryEntryFactory.java:112-135 | the entry collate builds keeps the factory's check, default and name and starts from the factory's value |
| RegistryEntries.RegistryEntry.Check | Source/pkg/exoad/poprock/core/registry/RegistryEntry.java:26-29 | the base check accepts every value; a collated entry's check is the factory's functor (the collated override is at RegistryEntryFactory.java lines 130-133) |
| RegistryEntries.RegistryEntry.SetCurrentValue | Source/pkg/exoad/poprock/core/registry/RegistryEntry.java:54-57 | a value the check accepts becomes current; a refused one leaves the current value alone; the base always sets (the collated override is at RegistryEntryFactory.java lines 124-128) |
| RegistryEntries.RegistryEntry.DefaultValue | Source/pkg/exoad/poprock/core/registry/RegistryEntry.java:64-67 | the base default is empty; a collated entry's is the factory's default (the collated override is at RegistryEntryFactory.java lines 119-122) |
| RegistryEntryFactories.InitialValue | Source/pkg/exoad/poprock/core/registry/RegistryEntryFactory.java:152-168 | a non-null value is kept; a null one becomes the default when the nullable-value flag is present, and stays null otherwise |
| RegistryEntryFactories.FlagValueIgnored | Source/pkg/exoad/poprock/core/registry/RegistryEntryFactory.java:152-168 | only the flag's presence matters: true and false give the same initial value |
| RegistryEntryFactories.RegistryEntryFactory.Make | Source/pkg/exoad/poprock/core/registry/RegistryEntryFactory.java:42-45 | make() starts with nothing set |
| RegistryEntryFactories.RegistryEntryFactory.WithCheck | Source/pkg/exoad/poprock/core/registry/RegistryEntryFactory.java:57-61 | withCheck sets the check and nothing else |
| RegistryEntryFactories.RegistryEntryFactory.WithCanonicalName | Source/pkg/exoad/poprock/core/registry/RegistryEntryFactory.java:70-74 | withCanonicalName sets the name and nothing else |
| RegistryEntryFactories.RegistryEntryFactory.WithDefaultValue | Source/pkg/exoad/poprock/core/registry/RegistryEntryFactory.java:83-89 | withDefaultValue sets the default and nothing else |
| RegistryEntryFactories.RegistryEntryFactory.WithValue | Source/pkg/exoad/poprock/core/registry/RegistryEntryFactory.java:91-107 | withValue panics, changing nothing, unless a check is set and accepts the value; otherwise the value becomes the initial value |
| RegistryEntryFactories.RegistryEntryFactory.Missing | Source/pkg/exoad/poprock/core/registry/RegistryEntryFactory.java:149-151 | the first unset part in the order check, default, name, and none exactly when all three are set |
| RegistryEntryFactories.RegistryEntryFactory.CheckTargets | Source/pkg/exoad/poprock/core/registry/RegistryEntryFactory.java:147-170 | checkTargets fails exactly when a required part is unset, naming the first; otherwise the initial value becomes InitialValue of the old one |
| RegistryEntryFactories.RegistryEntryFactory.Collate | Source/pkg/exoad/poprock/core/registry/RegistryEntryFactory.java:109-137 | collate fails exactly where checkTargets does; otherwise the new entry carries the factory's check, default and name and starts from the (possibly defaulted) initial value |
| EphemeralRegistries.ForbiddenSequencesAreChars | Source/pkg/exoad/poprock/core/registry/EphemeralRegistry.java:47-59 | each forbidden sequence is a single character of the forbidden set, and each forbidden character is one of the sequences |
| EphemeralRegistries.ForbiddenIffChar | Source/pkg/exoad/poprock/core/registry/EphemeralRegistry.java:47-125 | a name contains a forbidden sequence exactly when it has a forbidden character |
| EphemeralRegistries.FormatLeafName | Source/pkg/exoad/poprock/core/registry/EphemeralRegistry.java:116-127 | assertLeafNameFormat panics exactly for a name with a forbidden character, and otherwise returns the name lower-cased |
| EphemeralRegistries.LowerKeepsForbidden | Source/pkg/exoad/poprock/core/registry/EphemeralRegistry.java:116-127 | lower-casing neither adds nor removes a forbidden character |
| EphemeralRegistries.FormatIdempotent | Source/pkg/exoad/poprock/core/registry/EphemeralRegistry.java:116-127 | a formatted name formats to itself |
| EphemeralRegistries.FormatIgnoresCase | Source/pkg/exoad/poprock/core/registry/EphemeralRegistry.java:116-127 | names equal up to case are both refused or give the same key |
| EphemeralRegistries.InitialLeaves | Source/pkg/exoad/poprock/core/registry/EphemeralRegistry.java:91-102 | the constructor's leaves, when no name panics, are keyed only by valid lower-case names |
| EphemeralRegistries.InitialLeavesStoreAll | Source/pkg/exoad/poprock/core/registry/EphemeralRegistry.java:91-102 | every initial entry's lower-cased name is a key, and the last entry given for a name is the one stored |
| EphemeralRegistries.InitialLeavesErrorPersists | Source/pkg/exoad/poprock/core/registry/EphemeralRegistry.java:94-101 | once an entry's name panics, the whole construction fails with that panic |
| EphemeralRegistries.BuildLeaves | Source/pkg/exoad/poprock/core/registry/EphemeralRegistry.java:91-102 | the constructor's loop builds exactly the leaves InitialLeaves describes, or fails at the first invalid name |
| EphemeralRegistries.InitialObjectNameAsWritten | Source/pkg/exoad/poprock/core/registry/EphemeralRegistry.java:82-103 | the constructor never stores the root name, so getObjectName reports the empty string |
| EphemeralRegistries.RootNameLost | Source/pkg/exoad/poprock/core/registry/EphemeralRegistry.java:82-103 | a registry made with a non-empty root name does not report it |
| EphemeralRegistries.InitialObjectName | Source/pkg/exoad/poprock/core/registry/EphemeralRegistry.java:66-85 | the corrected registry carries its root name |
| EphemeralRegistries.EphemeralRegistry.Init | Source/pkg/exoad/poprock/core/registry/EphemeralRegistry.java:63-103 | the registry starts with the given well-formed leaves and name |
| EphemeralRegistries.EphemeralRegistry.New | Source/pkg/exoad/poprock/core/registry/EphemeralRegistry.java:82-103 | a load factor <= 0 throws; no entries give no leaves; otherwise construction succeeds exactly when every initial name is valid, with the leaves InitialLeaves describes and its root name |
| EphemeralRegistries.EphemeralRegistry.AcquireEntry | Source/pkg/exoad/poprock/core/registry/EphemeralRegistry.java:176-188 | acquireEntry panics for an invalid name and throws for one not registered; otherwise it returns the leaf under the lower-cased name |
| EphemeralRegistries.EphemeralRegistry.RegisterEntry | Source/pkg/exoad/poprock/core/registry/EphemeralRegistry.java:164-174 | registerEntry panics for an invalid name and throws for a taken one, changing nothing; otherwise it adds exactly one leaf, which acquireEntry then returns |
| EphemeralRegistries.EphemeralRegistry.AcquireEntryValue | Source/pkg/exoad/poprock/core/registry/BaseRegistry.java:57-60 | acquireEntryValue fails exactly where acquireEntry does, and otherwise returns that leaf's current value |
| EphemeralRegistries.EphemeralRegistry.InferTyping | Source/pkg/exoad/poprock/core/registry/EphemeralRegistry.java:190-193 | inferTyping is always empty |
| EphemeralRegistries.LookupIgnoresCase | Source/pkg/exoad/poprock/core/registry/EphemeralRegistry.java:176-188 | names equal up to case find the same leaf or fail alike |
| RegistryServices.Registries.constructor | Source/pkg/exoad/poprock/core/registry/RegistryServices.java:29-32 | the registry table starts empty and unarmed |
| RegistryServices.Registries.ArmService | Source/pkg/exoad/poprock/core/registry/RegistryServices.java:40-43 | after armService the service is armed, however often it is called, and the table is unchanged |
| RegistryServices.Registries.RunOnArmed | Source/pkg/exoad/poprock/core/registry/RegistryServices.java:50-53 | the runnable runs exactly once when the service is armed, and not at all otherwise |
| RegistryServices.Registries.RegisterEphemeralRegistry | Source/pkg/exoad/poprock/core/registry/RegistryServices.java:66-82 | a taken id panics and a failing construction throws, both changing nothing; otherwise a new valid registry carrying the root name (the corrected constructor, see "## Findings") is stored under the id and the other ids keep theirs |
| RegistryServices.Registries.GetEphemeral | Source/pkg/exoad/poprock/core/registry/RegistryServices.java:94-101 | getEphemeral panics exactly for an unregistered id and otherwise returns that registry |
| RegistryServices.RegistryServicesScenario | Tests/CoreTest/Test_RegistryServices.java:9-42 | with the corrected registry constructor (see "## Findings"), the test's steps end with the registry found, named "test_exoad", and entry#1 holding the default object; as written the name is "" and that assertion fails |
| RegistryServices.RegisterTestRegistry | Tests/CoreTest/Test_RegistryServices.java:11-25 | with the corrected registry constructor (see "## Findings"), arming and registering registry 1 with no entries gives an empty registry named "test_exoad" |
| RegistryServices.CollateWithDefault | Tests/CoreTest/Test_RegistryServices.java:26-37 | a factory with a name, an accept-all check and a default but no value collates into an entry holding the default |
| RegistryServices.PlainLeafName | Tests/CoreTest/Test_RegistryServices.java:30 | "entry#1" is a valid leaf name and already lower-case |
| TxfyrShards.NewShard | Source/pkg/exoad/poprock/core/txfyr/TxfyrShard.java:3-11 | a shard built within the record's assertions is valid and keeps its fields |
| TxfyrShards.Area | Source/pkg/exoad/poprock/core/txfyr/TxfyrShard.java:13-16 | area is width * height whenever that fits in a Java int (it wraps otherwise) |
| TxfyrShards.Perimeter | Source/pkg/exoad/poprock/core/txfyr/TxfyrShard.java:18-21 | perimeter is 2 * width + 2 * height whenever that fits in a Java int |
| TxfyrShards.AreaBounds | Source/pkg/exoad/poprock/core/txfyr/TxfyrShard.java:6-16 | a valid shard whose area does not overflow has a positive area of at least its width and its height |
| TxfyrShards.PerimeterBounds | Source/pkg/exoad/poprock/core/txfyr/TxfyrShard.java:6-21 | a valid shard whose perimeter does not overflow has a perimeter above twice each side |
| TxfyrShards.AreaWraps | Source/pkg/exoad/poprock/core/txfyr/TxfyrShard.java:13-16 | a 65536-by-65536 shard's area wraps to 0 |
| TxfyrClusters.Dedup | Source/pkg/exoad/poprock/core/txfyr/TxfyrCluster.java:30 | copying into a LinkedHashSet keeps exactly the items given and never adds any |
| TxfyrClusters.DedupNoDuplicates | Source/pkg/exoad/poprock/core/txfyr/TxfyrCluster.java:30 | the copy holds each item once |
| TxfyrClusters.DedupKeepsOrder | Source/pkg/exoad/poprock/core/txfyr/TxfyrCluster.java:60-71 | a collection without duplicates is copied as it is, in the same order |
| TxfyrClusters.DedupIdempotent | Source/pkg/exoad/poprock/core/txfyr/TxfyrCluster.java:30 | copying twice is copying once |
| TxfyrClusters.ShardProblem | Source/pkg/exoad/poprock/core/txfyr/TxfyrCluster.java:38-52 | a null shard is reported; a shard passes exactly when its x and y lie within the cluster and its area is at most the cluster's (Java int products) |
| TxfyrClusters.FirstProblem | Source/pkg/exoad/poprock/core/txfyr/TxfyrCluster.java:38-52 | validate finds no problem exactly when every shard passes, and any problem it reports is some shard's |
| TxfyrClusters.BoundaryShardPasses | Source/pkg/exoad/poprock/core/txfyr/TxfyrCluster.java:45-50 | the bounds are inclusive: a shard at the far corner as large as the cluster passes |
| TxfyrClusters.TxfyrCluster.Init | Source/pkg/exoad/poprock/core/txfyr/TxfyrCluster.java:19-36 | the fields as the constructor sets them |
| TxfyrClusters.TxfyrCluster.New | Source/pkg/exoad/poprock/core/txfyr/TxfyrCluster.java:19-36 | the constructor copies the shards without duplicates in order, then throws exactly when some shard fails validation, reporting the first; a built cluster holds only passing shards |
| TxfyrClusters.TxfyrCluster.Validate | Source/pkg/exoad/poprock/core/txfyr/TxfyrCluster.java:38-52 | validate throws exactly when some shard fails, with the first failure in iteration order |
| TxfyrClusters.CopyToSet | Source/pkg/exoad/poprock/core/txfyr/TxfyrCluster.java:30 | the LinkedHashSet copy is the items in order of first occurrence |
| UseDefs.LastVerdict | Source/pkg/exoad/poprock/core/halite/def/use_Def.java:134-136 | with no guards the verdict is true; otherwise it is the last guard's verdict on the value |
| UseDefs.LastGuardOnly | Source/pkg/exoad/poprock/core/halite/def/use_Def.java:132-139 | a rejecting guard followed by an accepting one gives a valid verdict as written, though not every guard accepts |
| UseDefs.VerdictsAgreeOnOneGuard | Source/pkg/exoad/poprock/core/halite/def/use_Def.java:132-139 | with at most one guard, the as-written verdict equals "every guard accepts" |
| UseDefs.StateOf | Source/pkg/exoad/poprock/core/halite/def/use_Def.java:137 | the recorded state is never NOT_LOADED and is VALID exactly when the verdict is true |
| UseDefs.UseDef.constructor | Source/pkg/exoad/poprock/core/halite/def/use_Def.java:86-108 | a missing modifier, action or descriptor is kept as empty; key, name, default and guards are stored; the definition starts NOT_LOADED |
| UseDefs.UseDef.WithoutExtras | Source/pkg/exoad/poprock/core/halite/def/use_Def.java:43-57 | no modifier, action or descriptor; the other fields are stored; the definition starts NOT_LOADED |
| UseDefs.UseDef.CallAsWritten | Source/pkg/exoad/poprock/core/halite/def/use_Def.java:132-139 | returns the last guard's verdict (true with no guards) and records VALID or INVALID to match it |
| UseDefs.UseDef.Call | Source/pkg/exoad/poprock/core/halite/def/use_Def.java:132-139 | returns true exactly when every guard accepts the value and records VALID or INVALID to match it |

## Left out

- Threads, clocks and audio/video synchronisation of the media player (the stream worker, PTS/SCR clocks, seek and pause with an audio sink) are left out. They are concurrency and wall-clock behaviour.
- Listener dispatch, GL texture creation and every JNI or GL call are not part of this model. Only the bookkeeping around them is modelled.
- The frame-duration arithmetic of updateAttributes is floating point and is not modelled. The frame rate is stored as a real and compared for change only.
- CodecID is not part of this model. Its mapping from FFmpeg codec numbers and its audio, video and subtitle tests enter as a parameter of the player (a `CodecCatalog`).
- FfmpegTool: the header's per-session stream-id arrays (v_streams, a_streams, s_streams and their counts) are plain storage filled by the native decoder and are not modelled. The Java side's stream lists, which updateAttributes receives, are.
- The native decode loop that updates PTSStats is not part of this model. `FfmpegTool.Observe` follows the field comments of the header.
- GLArrayDataClient: mapping GL buffer memory (mappedElemCount) is kept only as the flag that forbids growth. GLArrayDataWrapper is not part of this model, so its `alive` flag is taken as given.
- GLStateTracker: the BlendGlobal copy constructor would throw a NullPointerException on a missing source. Only commented-out code uses it, so it is not modelled.
- IntervalTree: nodes are modelled as values held by the tree object, so node identity and sharing are not captured.
- NaiveLRUCache: the recency lists and colour blocks are not modelled. Which key an eviction removes enters as a parameter, and the map-level behaviour is proved.
- NaiveLRUCache.NaiveLRUCache.Get uses the corrected colour (see "## Findings"). In the source a present key whose hashCode is negative makes addToFront throw ArrayIndexOutOfBoundsException after relinking the node, so get never returns that key's value.
- NaiveLRUCache.NaiveLRUCache.Put uses the corrected colour. In the source a key whose hashCode is negative makes addToFront throw after map.put has already stored the node.
- NaiveLRUCache.GetAfterPut holds of the corrected cache. In the source it holds only for keys whose hashCode is non-negative: for the others both put and get throw.
- NaiveLRUCache.NaiveLRUCache.constructor requires capacity >= 0, numColors > 0 and blockSize > 0. In the source `new HashMap<>(capacity)` throws IllegalArgumentException for a negative capacity; the constructor also throws for a negative numColors or blockSize (allocating the colour blocks) and for blockSize 0 (linking a block's first node). numColors 0 is accepted there, and the first getColor then throws ArithmeticException at its `%`.
- NaiveSampler.NaiveSampler.constructor requires sampleRate != 0. With 0 the source's first accept forwards its item and then throws ArithmeticException. A negative rate is modelled: it forwards every |sampleRate|-th item.
- NaiveSampler.sampleFile reads a file and is left out.
- CircularBuffer.CircularBuffer.constructor requires a capacity in 1..2^30. A zero capacity would throw at the first `%`, and the upper bound keeps `start + sz` inside a Java int.
- CircularBuffer.CircularBuffer.Drop requires a non-negative count. The source's drop(-k) does not throw: it raises sz by k and moves start back by a Java remainder that can be negative, leaving the ring inconsistent. That path is not modelled.
- CircularBuffer.CircularBuffer.Next requires n >= 0 and sz + n <= Integer.MAX_VALUE. In the source a negative n lowers sz, possibly below 0, and a larger sum wraps to a negative int. Neither path is modelled.
- CircularBuffer.CircularBuffer.Push requires 0 <= i, 0 <= len and i + len <= data.length. In the source a negative len returns 0 on a full ring and otherwise throws IndexOutOfBoundsException from System.arraycopy; an out-of-range i or i + len throws too, possibly after a first chunk was already copied and counted by next. These exception paths and the partial copy are not modelled.
- CircularBuffer.CircularBuffer.GetRem requires 0 <= off, 0 <= rem and off + rem <= data.length, as Push does. In the source a negative rem returns it unchanged on a full ring and otherwise throws from System.arraycopy, and an out-of-range offset throws, possibly after earlier chunks were copied and counted by next. These paths are not modelled.
- CircularBuffer.CircularBuffer.FreeAt is the corrected free (see "## Findings"). As written, free at the write offset is negative whenever the held bytes reach the array's end without filling it.
- CircularBuffer.CircularBuffer.PushChunk copies by the corrected free. As written, a round at a wrapped write offset gets a negative free and System.arraycopy throws; GetRemAsWritten models that outcome.
- CircularBuffer.CircularBuffer.PushRound is one turn over the corrected free and so does not throw where the source's turn does, at a wrapped write offset.
- CircularBuffer.CircularBuffer.GetRem loops over the corrected free. The source's loop throws once the write offset wraps, possibly after an earlier chunk was copied and counted by next; GetRemAsWritten and PushAsWrittenThrows state that behaviour.
- CircularBuffer.CircularBuffer.Push is the corrected push. The source's push throws once the write position wraps (PushAsWrittenThrows: 3 bytes into 1 byte held at index 2 of 4 copy one byte, then throw), and an empty push throws when the held bytes reach the array's end.
- CircularBuffer opush, the two peek methods and pop are left out. The model covers the ring's push/drop bookkeeping only. The callback form of peek hands out views of the array. The array form of peek, and pop through it, copies within the caller's array and never reads the ring.
- GLArrayDataClient.GrowStep computes `(int)(has_comps * growthFactor + 0.5f)` over exact reals, not in Java float arithmetic. Float rounding of large products is not modelled (2^24 + 1 components with factor 2 give 33554432 in Java and 33554434 here), and neither are NaN or infinite growth factors.
- GLArrayDataClient.ArrayDataClient.GrowIfNeeded grows to the target GrowStep computes, so it shares that exact-real reading of the float expression.
- MathF.BinomialCoefficient computes over unbounded integers. Java `int` overflow of the intermediate product is not modelled.
- HashFunction: the constructor draws its seed from Math.random(). The seed is a parameter of the model.
- BloomFilter.BloomFilter.constructor requires size > 0 and hashes >= 0. In the source size 0 is accepted: `new BitSet(0)` and `new HashFunction(0)` succeed, add("") and contains("") work on the seed, and only a non-empty string throws ArithmeticException at `% size`. A negative size or hash count throws NegativeArraySizeException when the bit set or the hash-function array is allocated. These paths are not modelled.
- BloomFilter is built on the corrected hash `HashFunction.Hash` (see "## Findings").
- ColorSynthbase.DominantExclusive, and the predicates ColorSynthbase.IsRed, ColorSynthbase.IsGreen and ColorSynthbase.IsBlue it is about, read the `float[]` components as reals. NaN is not modelled: for [NaN, 1, 0] the components differ yet none of is_red, is_green and is_blue holds, so the "one when all differ" clause holds only for non-NaN components. They also require three components, where a shorter array throws ArrayIndexOutOfBoundsException in the source.
- ColorSynthbase: tints, shades, tones, HSV/HSL/CMYK conversion, colour temperature and gradients are floating point and are left out. relative_luminance_4 is integer arithmetic and is modelled.
- Strings are sequences of Dafny characters (Unicode scalar values), not Java's UTF-16 code units. Surrogate pairs are not modelled, and neither are locale-specific case rules; lower-casing is ASCII.
- AnsiColor: getVersion, print/println and the `append` overloads other than `String` are left out. They only write to a stream or convert their argument to a string first.
- DebugService: the switch that turns panics into log lines is not modelled. Every panic is an `Err`.
- EventPoolService.EventPool.GetPayload returns payloads of the pool's one payload type. In the source registerEvent stores an `Object` payload and getPayload casts it with `id.cast`, so a payload of another class than its id throws ClassCastException; that path is not modelled.
- EventPoolService: parallelStream dispatch is modelled as sequential, in attachment order.
- BasicService: containsClass, requireAllNonNull, emptyRunnable, emptyConsumer and isWrapperClass are left out. They are reflection or no-op helpers.
- EphemeralRegistry: a NaN load factor, and null names or entries, are left out. forEach is left out because its order is the hash map's key order.
- RegistryEntryFactories.RegistryEntryFactory.Collate builds an entry holding copies of the factory's check, default value and canonical name. In the source the collated entry reads those factory fields on every call, so a later withCheck, withDefaultValue or withCanonicalName changes entries already collated. That sharing is not modelled.
- RegistryEntries.RegistryEntry.Collated describes the same snapshot and so does not capture that sharing either.
- RegistryServices.Registries.RegisterEphemeralRegistry, RegistryServices.RegistryServicesScenario and RegistryServices.RegisterTestRegistry build registries with the corrected constructor, which keeps the root name (see "## Findings"); as written the registry's name is "".
- RegistryServices: the second object table and BroadcastingRegistry are unfinished in the source and are not modelled.
- TxfyrShard: diagonal and toString use floating point and text formatting and are left out.
- TxfyrCluster: the source image and toString are left out.
- use_Def: a null guard array, on which call() would throw a NullPointerException, is not modelled. The guard group is always a sequence, possibly empty.

## Findings

| source | as written | input that shows it | evidently intended | confidence | as-written member | corrected member |
|---|---|---|---|---|---|---|
| Source/com/jackmeng/CircularBuffer.java:167-170 | free(n) returns n - start when the held bytes wrap past the end, so getRem hands System.arraycopy a negative length and push throws once the write position wraps, possibly after a first chunk was copied and counted | capacity 4, 2 bytes held from index 2: free answers -2; pushing 3 bytes into 1 byte held at index 2 copies one byte and then throws | the distance start - n to the oldest byte, 2 here, so push copies what fits | high, not executed | CircularBuffer.FreeAsWritten, CircularBuffer.FreeAsWrittenNegative, CircularBuffer.GetRemAsWritten, CircularBuffer.PushAsWrittenThrows | CircularBuffer.Free, CircularBuffer.FreeAtOffset, CircularBuffer.CircularBuffer.FreeAt, CircularBuffer.CircularBuffer.PushChunk, CircularBuffer.CircularBuffer.PushRound, CircularBuffer.CircularBuffer.GetRem, CircularBuffer.CircularBuffer.Push |
| Tooling/JOGL/jogl/classes/jogamp/opengl/util/av/GLMediaPlayerImpl.java:2061-2078 | the successor search runs only for two or more streams | one subtitle stream 7, currently selected: the next id is 7 again | the subtitle rotation passes through NONE, as documented | medium, not executed | GLMediaPlayerImpl.NextStreamId, GLMediaPlayerImpl.SingleSubtitleNeverOff | GLMediaPlayerImpl.IntendedNextStreamId, GLMediaPlayerImpl.SubtitleRotationCycles |
| Source/net/exoad/ansicolor/AnsiColor.java:1216-1227 | rgb_fg/rgb_bg call clampInt with value and bounds swapped | any channel, for example 0: the result is 255 | the channel clamped to [0, 255] | high, not executed | AnsiColor.RgbChannelAsWritten, AnsiColor.RgbChannelAsWrittenIsConstant | AnsiColor.RgbChannel |
| Source/net/exoad/ansicolor/AnsiColor.java:768-789 | blue_bg() appends 43 | blue_bg(): the code of yellow_bg() | 44, the blue foreground code plus 10 | high, not executed | AnsiColor.BgCodeAsWritten, AnsiColor.BlueBgAsWrittenIsYellow | AnsiColor.BgCode |
| Source/net/exoad/ansicolor/AnsiColor.java:1303-1309 | render() and toString() append the content buffer to itself | content "x": the output carries "xx" | the content once | high, not executed | AnsiColor.RenderAsWritten, AnsiColor.ToStringSelfAsWritten, AnsiColor.RenderAsWrittenDoubles | AnsiColor.RenderOut, AnsiColor.ToStringSelfOut, AnsiColor.InternedInstance.Render, AnsiColor.InternedInstance.ToStringSelf |
| Source/pkg/exoad/poprock/core/color/ColorSynthbase.java:35-49 | color2hex_2 pads only hex strings of three or more digits | (0, 0, 5): "#5", which hexToRGB cannot read | six hex digits, "#000005" | high, not executed | ColorSynthbase.Color2Hex2AsWritten, ColorSynthbase.Color2Hex2AsWrittenShort | ColorSynthbase.Color2Hex, ColorSynthbase.Color2HexRoundTrip |
| Source/com/jackmeng/NaiveLRUCache.java:67-70 | getColor is hashCode % numColors with Java's signed remainder | hash code -1, four colours: colour -1 | a colour block in [0, numColors) | high, not executed | NaiveLRUCache.GetColorAsWritten, NaiveLRUCache.GetColorAsWrittenNegative | NaiveLRUCache.GetColor, NaiveLRUCache.NaiveLRUCache.Get, NaiveLRUCache.NaiveLRUCache.Put, NaiveLRUCache.GetAfterPut |
| Source/com/jackmeng/HashFunction.java:17-23 | h * 31 + c overflows a Java int before the remainder | seed 2147483646, size 1000, "a": -613, and BitSet.set(-613) throws | an index in [0, size) | high, not executed | HashFunction.HashAsWritten, HashFunction.HashAsWrittenOverflows | HashFunction.Hash, HashFunction.NoOverflowAgrees |
| Source/pkg/exoad/poprock/core/halite/def/use_Def.java:132-139 | each guard's verdict overwrites the one before | a rejecting guard then an accepting one: valid | valid only when every guard accepts | medium, not executed | UseDefs.UseDef.CallAsWritten, UseDefs.LastGuardOnly | UseDefs.UseDef.Call |
| Source/pkg/exoad/poprock/core/registry/EphemeralRegistry.java:82-103 | the constructor never stores rootName, so getObjectName() stays "" | root name "audio": the registry reports "" | the registry carries its root name | medium, not executed | EphemeralRegistries.InitialObjectNameAsWritten, EphemeralRegistries.RootNameLost | EphemeralRegistries.InitialObjectName, EphemeralRegistries.EphemeralRegistry.New, RegistryServices.Registries.RegisterEphemeralRegistry, RegistryServices.RegistryServicesScenario, RegistryServices.RegisterTestRegistry |
