/**
 * The sequential bookkeeping of the JOGL media player implementation:
 * rotating through the video, audio and subtitle stream ids, looking up a
 * stream's language, deriving a title from the stream's URI path, finding
 * the chapter at a time, and the state and attribute updates that report
 * what changed through an EventMask.
 */
module GLMediaPlayerImpl {
  import opened JavaInt
  import opened Wrappers
  import opened SeqSearch
  import opened GLMediaPlayer
  import FfmpegTool

  const UNKNOWN: string := "unknown"
  const UNDEF: string := "undef"
  /** The GLSL texture lookup function used before any stream is initialized. */
  const TEXTURE_2D: string := "texture2D"
  /** The path of the placeholder URI "https://no/stream/" a new player holds. */
  const NO_STREAM_PATH: string := "/stream/"

  // ---------------------------------------------------------------- stream-id rotation

  /**
   * getNextImpl as written: NONE or an unknown id selects the first stream;
   * otherwise, when there are at least two streams, the id after the first
   * occurrence of `current`, and after the last stream either NONE
   * (`useNoStream`) or the first stream again.
   */
  function NextStreamId(ids: seq<int32>, current: int32, useNoStream: bool): int32
  {
    var alt := if |ids| > 0 then ids[0] else STREAM_ID_NONE;
    if current == STREAM_ID_NONE then alt
    else if |ids| > 1 && current in ids then
      var i := IndexOf(ids, current);
      if i + 1 < |ids| then ids[i + 1]
      else if useNoStream then STREAM_ID_NONE
      else ids[0]
    else alt
  }

  /** The scanning loop of getNextImpl. */
  method GetNextImpl(ids: seq<int32>, current: int32, useNoStream: bool) returns (r: int32)
    ensures r == NextStreamId(ids, current, useNoStream)
  {
    var alt := if |ids| > 0 then ids[0] else STREAM_ID_NONE;
    if current == STREAM_ID_NONE {
      return alt;
    }
    if |ids| > 1 {
      var i := 0;
      while i < |ids|
        invariant 0 <= i <= |ids|
        invariant current !in ids[..i]
      {
        if current == ids[i] {
          IndexOfIsFirst(ids, current, i);
          if i + 1 < |ids| {
            return ids[i + 1];
          } else {
            return if useNoStream then STREAM_ID_NONE else ids[0];
          }
        }
        assert ids[..i + 1] == ids[..i] + [ids[i]];
        i := i + 1;
      }
      assert ids[..i] == ids;
    }
    return alt;
  }

  /** getNextVID and getNextAID wrap around; getNextSID passes through NONE. */
  function NextVideoId(ids: seq<int32>, current: int32): int32 { NextStreamId(ids, current, false) }
  function NextAudioId(ids: seq<int32>, current: int32): int32 { NextStreamId(ids, current, false) }
  function NextSubtitleId(ids: seq<int32>, current: int32): int32 { NextStreamId(ids, current, true) }

  /** No current stream, or one not listed, selects the first stream, or NONE when there is none. */
  lemma NextFromUnknown(ids: seq<int32>, current: int32, useNoStream: bool)
    requires current == STREAM_ID_NONE || current !in ids
    ensures NextStreamId(ids, current, useNoStream) == (if |ids| > 0 then ids[0] else STREAM_ID_NONE)
  {
  }

  /** With two or more streams, the first occurrence's successor is chosen; after the last, NONE or the first. */
  lemma NextIsSuccessor(ids: seq<int32>, i: int, useNoStream: bool)
    requires |ids| > 1 && 0 <= i < |ids|
    requires ids[i] != STREAM_ID_NONE && ids[i] !in ids[..i]
    ensures NextStreamId(ids, ids[i], useNoStream)
         == if i + 1 < |ids| then ids[i + 1] else if useNoStream then STREAM_ID_NONE else ids[0]
  {
    IndexOfIsFirst(ids, ids[i], i);
  }

  /** The result is always one of the streams or NONE; a wrapping rotation over a non-empty list never gives NONE. */
  lemma NextStaysInList(ids: seq<int32>, current: int32, useNoStream: bool)
    ensures var r := NextStreamId(ids, current, useNoStream); r in ids || r == STREAM_ID_NONE
    ensures !useNoStream && |ids| > 0 ==> NextStreamId(ids, current, useNoStream) in ids
  {
  }

  /**
   * As written, a single stream is always selected again, so getNextSID with
   * one subtitle stream never returns to NONE.
   */
  lemma SingleSubtitleNeverOff()
    ensures NextSubtitleId([7], 7) == 7
    ensures IntendedNextStreamId([7], 7, true) == STREAM_ID_NONE
  {
    IndexOfIsFirst([7], 7, 0);
  }

  /**
   * getNextImpl as documented ("rotates including no-stream" for subtitles):
   * the successor search runs for any non-empty list.
   */
  function IntendedNextStreamId(ids: seq<int32>, current: int32, useNoStream: bool): (r: int32)
    ensures r in ids || r == STREAM_ID_NONE
  {
    var alt := if |ids| > 0 then ids[0] else STREAM_ID_NONE;
    if current == STREAM_ID_NONE || current !in ids then alt
    else
      var i := IndexOf(ids, current);
      if i + 1 < |ids| then ids[i + 1]
      else if useNoStream then STREAM_ID_NONE
      else ids[0]
  }

  /** The two definitions differ only for a single stream passed through NONE. */
  lemma IntendedAgreesExceptSingleSubtitle(ids: seq<int32>, current: int32, useNoStream: bool)
    requires !useNoStream || |ids| != 1
    ensures IntendedNextStreamId(ids, current, useNoStream) == NextStreamId(ids, current, useNoStream)
  {
    if |ids| == 1 && current != STREAM_ID_NONE && current in ids {
      assert current == ids[0];
      IndexOfIsFirst(ids, current, 0);
    }
  }

  /** A stream list as a demuxer reports it: no repeated id and no NONE. */
  predicate ValidStreams(ids: seq<int32>)
  {
    STREAM_ID_NONE !in ids && forall i, j :: 0 <= i < j < |ids| ==> ids[i] != ids[j]
  }

  lemma ValidStreamsIndex(ids: seq<int32>, i: int)
    requires ValidStreams(ids) && 0 <= i < |ids|
    ensures IndexOf(ids, ids[i]) == i
  {
    assert ids[i] !in ids[..i] by {
      forall j | 0 <= j < i ensures ids[..i][j] != ids[i] { }
    }
    IndexOfIsFirst(ids, ids[i], i);
  }

  /** One video or audio step moves to the next stream, cyclically. */
  lemma WrapStep(ids: seq<int32>, i: int)
    requires ValidStreams(ids) && 0 <= i < |ids|
    ensures IntendedNextStreamId(ids, ids[i], false) == ids[(i + 1) % |ids|]
  {
    ValidStreamsIndex(ids, i);
    if i + 1 < |ids| {
      ModUnique(i + 1, |ids|, 0, i + 1);
    } else {
      ModUnique(i + 1, |ids|, 1, 0);
    }
  }

  /** One subtitle step moves to the next stream, from the last to NONE, and from NONE to the first. */
  lemma SubtitleStep(ids: seq<int32>, i: int)
    requires ValidStreams(ids) && 0 <= i < |ids|
    ensures IntendedNextStreamId(ids, ids[i], true)
         == if i + 1 < |ids| then ids[i + 1] else STREAM_ID_NONE
    ensures IntendedNextStreamId(ids, STREAM_ID_NONE, true) == ids[0]
  {
    ValidStreamsIndex(ids, i);
  }

  /** k rotation steps from `current`. */
  function Rotate(ids: seq<int32>, current: int32, useNoStream: bool, k: nat): int32
  {
    if k == 0 then current
    else IntendedNextStreamId(ids, Rotate(ids, current, useNoStream, k - 1), useNoStream)
  }

  /** Video and audio rotation visits every stream in order and returns to the start after |ids| steps. */
  lemma {:induction false} WrapRotationCycles(ids: seq<int32>, k: nat)
    requires ValidStreams(ids) && |ids| > 0
    ensures Rotate(ids, ids[0], false, k) == ids[k % |ids|]
  {
    if k == 0 {
      ModUnique(0, |ids|, 0, 0);
    } else {
      WrapRotationCycles(ids, k - 1);
      var j := (k - 1) % |ids|;
      WrapStep(ids, j);
      ModSucc(k - 1, |ids|);
    }
  }

  /** (k + 1) mod n follows k mod n cyclically. */
  lemma ModSucc(k: nat, n: nat)
    requires n > 0
    ensures (k + 1) % n == (k % n + 1) % n
  {
    var q, r := k / n, k % n;
    assert k == q * n + r;
    if r + 1 < n {
      ModUnique(k + 1, n, q, r + 1);
      ModUnique(r + 1, n, 0, r + 1);
    } else {
      assert k + 1 == (q + 1) * n + 0;
      ModUnique(k + 1, n, q + 1, 0);
      ModUnique(r + 1, n, 1, 0);
    }
  }

  /** Subtitle rotation from NONE visits every stream, then NONE: a cycle of |ids| + 1 steps. */
  lemma {:induction false} SubtitleRotationCycles(ids: seq<int32>, k: nat)
    requires ValidStreams(ids) && |ids| > 0
    ensures var m := k % (|ids| + 1);
      Rotate(ids, STREAM_ID_NONE, true, k) == if m == 0 then STREAM_ID_NONE else ids[m - 1]
  {
    var n := |ids| + 1;
    if k == 0 {
      ModUnique(0, n, 0, 0);
    } else {
      SubtitleRotationCycles(ids, k - 1);
      var m := (k - 1) % n;
      ModSucc(k - 1, n);
      if m == 0 {
        SubtitleStep(ids, 0);
        ModUnique(1, n, 0, 1);
      } else {
        SubtitleStep(ids, m - 1);
        if m + 1 < n {
          ModUnique(m + 1, n, 0, m + 1);
        } else {
          ModUnique(m + 1, n, 1, 0);
        }
      }
    }
  }

  // ---------------------------------------------------------------- stream lookup

  /** The backward scan of hasStreamID and getLang over one stream array. */
  method FindLast(ids: seq<int32>, id: int32) returns (i: int)
    ensures i == LastIndexOf(ids, id)
    ensures i == -1 <==> id !in ids
  {
    i := |ids| - 1;
    while i >= 0
      invariant -1 <= i < |ids|
      invariant id !in ids[i + 1..]
    {
      if ids[i] == id {
        LastIndexOfIsLast(ids, id, i);
        return;
      }
      assert ids[i..] == [ids[i]] + ids[i + 1..];
      i := i - 1;
    }
    assert ids[0..] == ids;
    LastIndexOfSpec(ids, id);
  }

  /** hasStreamID: whether id is a video, audio or subtitle stream. */
  method HasStreamId(v: seq<int32>, a: seq<int32>, s: seq<int32>, id: int32) returns (r: bool)
    ensures r <==> id in v || id in a || id in s
  {
    var i := FindLast(v, id);
    if i >= 0 {
      return true;
    }
    i := FindLast(a, id);
    if i >= 0 {
      return true;
    }
    i := FindLast(s, id);
    return i >= 0;
  }

  /** getLang reads a language array at the index of the stream it found; a shorter array throws. */
  datatype LangError = IndexOutOfBounds(index: int)

  /** The language of id's last occurrence in one stream array, None when it is not there. */
  function LangIn(ids: seq<int32>, langs: seq<string>, id: int32): Option<Result<string, LangError>>
  {
    var i := LastIndexOf(ids, id);
    if i < 0 then None
    else if i < |langs| then Some(Ok(langs[i]))
    else Some(Err(IndexOutOfBounds(i)))
  }

  /** getLang: the video, then the audio, then the subtitle language of id, else "undef". */
  function Lang(v: seq<int32>, vl: seq<string>, a: seq<int32>, al: seq<string>,
                s: seq<int32>, sl: seq<string>, id: int32): Result<string, LangError>
  {
    var fromV := LangIn(v, vl, id);
    if fromV.Some? then fromV.value
    else
      var fromA := LangIn(a, al, id);
      if fromA.Some? then fromA.value
      else
        var fromS := LangIn(s, sl, id);
        if fromS.Some? then fromS.value else Ok(UNDEF)
  }

  /** The three backward scans of getLang. */
  method GetLang(v: seq<int32>, vl: seq<string>, a: seq<int32>, al: seq<string>,
                 s: seq<int32>, sl: seq<string>, id: int32) returns (r: Result<string, LangError>)
    ensures r == Lang(v, vl, a, al, s, sl, id)
  {
    var i := FindLast(v, id);
    if i >= 0 {
      return if i < |vl| then Ok(vl[i]) else Err(IndexOutOfBounds(i));
    }
    i := FindLast(a, id);
    if i >= 0 {
      return if i < |al| then Ok(al[i]) else Err(IndexOutOfBounds(i));
    }
    i := FindLast(s, id);
    if i >= 0 {
      return if i < |sl| then Ok(sl[i]) else Err(IndexOutOfBounds(i));
    }
    return Ok(UNDEF);
  }

  /** An id that is no stream has the language "undef". */
  lemma LangOfUnknownId(v: seq<int32>, vl: seq<string>, a: seq<int32>, al: seq<string>,
                        s: seq<int32>, sl: seq<string>, id: int32)
    requires !(id in v || id in a || id in s)
    ensures Lang(v, vl, a, al, s, sl, id) == Ok(UNDEF)
  {
    LastIndexOfSpec(v, id);
    LastIndexOfSpec(a, id);
    LastIndexOfSpec(s, id);
  }

  /** A stream found at index i, with no later occurrence, has the language at i in its own list. */
  lemma LangAtLastIndex(ids: seq<int32>, langs: seq<string>, i: int)
    requires 0 <= i < |ids| && i < |langs| && ids[i] !in ids[i + 1..]
    ensures LangIn(ids, langs, ids[i]) == Some(Ok(langs[i]))
  {
    LastIndexOfIsLast(ids, ids[i], i);
  }

  /** The video list is searched first, then audio, then subtitles. */
  lemma LangSearchOrder(v: seq<int32>, vl: seq<string>, a: seq<int32>, al: seq<string>,
                        s: seq<int32>, sl: seq<string>, id: int32)
    ensures id in v ==> LangIn(v, vl, id) == Some(Lang(v, vl, a, al, s, sl, id))
    ensures id !in v && id in a ==> LangIn(a, al, id) == Some(Lang(v, vl, a, al, s, sl, id))
    ensures id !in v && id !in a && id in s ==> LangIn(s, sl, id) == Some(Lang(v, vl, a, al, s, sl, id))
  {
    LastIndexOfSpec(v, id);
    LastIndexOfSpec(a, id);
    LastIndexOfSpec(s, id);
  }

  /** Language lists at least as long as their stream lists make getLang total. */
  lemma LangTotal(v: seq<int32>, vl: seq<string>, a: seq<int32>, al: seq<string>,
                  s: seq<int32>, sl: seq<string>, id: int32)
    requires |vl| >= |v| && |al| >= |a| && |sl| >= |s|
    ensures Lang(v, vl, a, al, s, sl, id).Ok?
  {
  }

  /** A language list shorter than its stream list makes getLang throw. */
  lemma LangShortListThrows()
    ensures Lang([7], [], [], [], [], [], 7) == Err(IndexOutOfBounds(0))
  {
    LastIndexOfIsLast([7], 7, 0);
  }

  // ---------------------------------------------------------------- title from the URI path

  /** The part of a path after its last '/', when that '/' is not the first character. */
  function Basename(path: string): string
  {
    var li := LastIndexOf(path, '/');
    if 0 < li then path[li + 1..] else path
  }

  /** A name without the part from its last '.', when that '.' is not the first character. */
  function StripExtension(name: string): string
  {
    var di := LastIndexOf(name, '.');
    if 0 < di then name[..di] else name
  }

  /** The title updateAttributes derives when none is given. */
  function DeriveTitle(path: string): string
  {
    StripExtension(Basename(path))
  }

  /** Below a non-empty directory, the basename is the part after the separating '/'. */
  lemma BasenameInDirectory(dir: string, name: string)
    requires |dir| > 0 && '/' !in name
    ensures Basename(dir + "/" + name) == name
  {
    var path := dir + "/" + name;
    assert path[|dir|] == '/';
    assert path[|dir| + 1..] == name;
    LastIndexOfIsLast(path, '/', |dir|);
  }

  /** A non-empty stem keeps itself when the last extension is stripped. */
  lemma StripLastExtension(stem: string, ext: string)
    requires |stem| > 0 && '.' !in ext
    ensures StripExtension(stem + "." + ext) == stem
  {
    var name := stem + "." + ext;
    assert name[|stem|] == '.' && name[|stem| + 1..] == ext;
    LastIndexOfIsLast(name, '.', |stem|);
    assert name[..|stem|] == stem;
  }

  /** A file in a directory is titled by its name without the last extension. */
  lemma TitleOfFileWithExtension(dir: string, stem: string, ext: string)
    requires |dir| > 0 && |stem| > 0
    requires '/' !in stem && '/' !in ext && '.' !in ext
    ensures DeriveTitle(dir + "/" + stem + "." + ext) == stem
  {
    var name := stem + "." + ext;
    assert dir + "/" + stem + "." + ext == dir + "/" + name;
    BasenameInDirectory(dir, name);
    StripLastExtension(stem, ext);
  }

  /** A name whose only '.' may be its first character keeps its whole name. */
  lemma TitleOfFileWithoutExtension(dir: string, name: string)
    requires |dir| > 0 && '/' !in name
    requires forall i :: 0 < i < |name| ==> name[i] != '.'
    ensures DeriveTitle(dir + "/" + name) == name
  {
    BasenameInDirectory(dir, name);
    LastIndexOfSpec(name, '.');
  }

  /** A file directly under the root keeps its leading '/', because the slash is at index 0. */
  lemma TitleOfRootFile()
    ensures DeriveTitle("/clip.mp4") == "/clip"
    ensures DeriveTitle(NO_STREAM_PATH) == ""
  {
    LastIndexOfIsLast("/clip.mp4", '/', 0);
    LastIndexOfIsLast("/clip.mp4", '.', 5);
    LastIndexOfIsLast(NO_STREAM_PATH, '/', 7);
  }

  // ---------------------------------------------------------------- chapters

  predicate Covers(c: Chapter, msec: int)
  {
    c.start <= msec <= c.end
  }

  /** getChapter: the first chapter covering msec, if any. */
  function ChapterAt(chapters: seq<Chapter>, msec: int): Option<Chapter>
  {
    if |chapters| == 0 then None
    else if Covers(chapters[0], msec) then Some(chapters[0])
    else ChapterAt(chapters[1..], msec)
  }

  /** The loop of getChapter over the chapter list. */
  method GetChapter(chapters: seq<Chapter>, msec: int32) returns (r: Option<Chapter>)
    ensures r == ChapterAt(chapters, msec)
  {
    var i := 0;
    while i < |chapters|
      invariant 0 <= i <= |chapters|
      invariant ChapterAt(chapters[i..], msec) == ChapterAt(chapters, msec)
    {
      if Covers(chapters[i], msec) {
        return Some(chapters[i]);
      }
      assert chapters[i..][1..] == chapters[i + 1..];
      i := i + 1;
    }
    return None;
  }

  /** The chapter found covers msec and every chapter before it does not; None means no chapter covers msec. */
  lemma {:induction false} ChapterAtIsFirst(chapters: seq<Chapter>, msec: int)
    ensures ChapterAt(chapters, msec).None? <==> forall c :: c in chapters ==> !Covers(c, msec)
    ensures ChapterAt(chapters, msec).Some? ==>
      exists i :: 0 <= i < |chapters| && chapters[i] == ChapterAt(chapters, msec).value
        && Covers(chapters[i], msec) && forall j :: 0 <= j < i ==> !Covers(chapters[j], msec)
  {
    if |chapters| > 0 && !Covers(chapters[0], msec) {
      ChapterAtIsFirst(chapters[1..], msec);
      assert chapters == [chapters[0]] + chapters[1..];
      if ChapterAt(chapters[1..], msec).Some? {
        var i :| 0 <= i < |chapters[1..]| && chapters[1..][i] == ChapterAt(chapters, msec).value
          && Covers(chapters[1..][i], msec) && forall j :: 0 <= j < i ==> !Covers(chapters[1..][j], msec);
        assert forall j :: 0 <= j < i + 1 ==> !Covers(chapters[j], msec) by {
          forall j | 0 <= j < i + 1 ensures !Covers(chapters[j], msec) {
            if j > 0 { assert chapters[j] == chapters[1..][j - 1]; }
          }
        }
        assert chapters[i + 1] == ChapterAt(chapters, msec).value;
      }
    } else if |chapters| > 0 {
      assert chapters[0] == ChapterAt(chapters, msec).value;
    }
  }

  // ---------------------------------------------------------------- texture count, channel limit

  /** validateTextureCount: at least TEXTURE_COUNT_MIN textures. */
  function ValidateTextureCount(desired: int32): (r: int32)
    ensures r >= TEXTURE_COUNT_MIN
    ensures desired >= TEXTURE_COUNT_MIN ==> r == desired
    ensures desired < TEXTURE_COUNT_MIN ==> r == TEXTURE_COUNT_MIN
  {
    if desired < TEXTURE_COUNT_MIN then TEXTURE_COUNT_MIN else desired
  }

  /** setAudioChannelLimit's `Math.min(8, Math.max(1, cc))`. */
  function AudioChannelLimit(cc: int32): (r: int32)
    ensures 1 <= r <= 8
    ensures 1 <= cc <= 8 ==> r == cc
  {
    Min(8, Max(1, cc))
  }

  /** The limit is FFmpeg's my_clip into [1, 8]. */
  lemma AudioChannelLimitIsClip(cc: int32)
    ensures AudioChannelLimit(cc) == FfmpegTool.MyClip(cc, 1, 8)
  {
  }

  // ---------------------------------------------------------------- attribute updates

  /** The attributes a decoder reports through updateAttributes. */
  datatype Attributes = Attributes(
    title: Option<string>,
    vStreams: seq<int32>, vLangs: seq<string>, vid: int32,
    aStreams: seq<int32>, aLangs: seq<string>, aid: int32,
    sStreams: seq<int32>, sLangs: seq<string>, sid: int32,
    width: int32, height: int32,
    bpsStream: int32, bpsVideo: int32, bpsAudio: int32,
    fps: real, videoFrames: int32, audioFrames: int32, duration: int32,
    vcodec: Option<string>, acodec: Option<string>, scodec: Option<string>,
    ffmpegVCodecID: int32, ffmpegACodecID: int32, ffmpegSCodecID: int32)

  /** AUTO, or an id for an empty stream list, is stored as NONE. */
  function NormalizeId(id: int32, ids: seq<int32>): (r: int32)
    ensures r == STREAM_ID_NONE || r == id
    ensures r == STREAM_ID_NONE <==> id == STREAM_ID_AUTO || id == STREAM_ID_NONE || |ids| == 0
  {
    if id == STREAM_ID_AUTO || |ids| == 0 then STREAM_ID_NONE else id
  }

  /** A codec name replaces the current one when it is given, non-empty and different. */
  predicate CodecChanges(current: string, given: Option<string>)
  {
    given.Some? && |given.value| > 0 && given.value != current
  }

  function NewCodec(current: string, given: Option<string>): (r: string)
    ensures r == current || CodecChanges(current, given)
  {
    if CodecChanges(current, given) then given.value else current
  }

  /**
   * CodecID is not part of this model. What updateAttributes asks of it
   * enters as a catalog over the codec values `C`: CodecID.NONE,
   * CodecID.fromFFmpeg, and the tests isAudioCodec(id, true), isVideoCodec
   * and isSubtitleCodec.
   */
  datatype CodecCatalog<!C> = CodecCatalog(
    none: C, fromFFmpeg: int32 -> C, isAudio: C -> bool, isVideo: C -> bool, isSubtitle: C -> bool)

  /** A reported codec id replaces the current one when its FFmpeg number is positive, it is of the stream's kind, and it differs. */
  predicate CodecIdChanges<C(==)>(current: C, ffmpegId: int32, fromFFmpeg: int32 -> C, ofKind: C -> bool)
  {
    0 < ffmpegId && ofKind(fromFFmpeg(ffmpegId)) && fromFFmpeg(ffmpegId) != current
  }

  function NewCodecId<C(==)>(current: C, ffmpegId: int32, fromFFmpeg: int32 -> C, ofKind: C -> bool): (r: C)
    ensures r != current <==> CodecIdChanges(current, ffmpegId, fromFFmpeg, ofKind)
    ensures r != current ==> r == fromFFmpeg(ffmpegId) && ofKind(r) && 0 < ffmpegId
  {
    if CodecIdChanges(current, ffmpegId, fromFFmpeg, ofKind) then fromFFmpeg(ffmpegId) else current
  }

  /** Reporting the same codec name and id a second time changes nothing, so it raises no codec event. */
  lemma CodecReportSettles<C>(name: string, given: Option<string>,
                                  current: C, ffmpegId: int32, fromFFmpeg: int32 -> C, ofKind: C -> bool)
    ensures !CodecChanges(NewCodec(name, given), given)
    ensures !CodecIdChanges(NewCodecId(current, ffmpegId, fromFFmpeg, ofKind), ffmpegId, fromFFmpeg, ofKind)
  {
  }
}
