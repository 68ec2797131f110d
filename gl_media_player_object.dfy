/**
 * The JOGL media player implementation as an object: the attributes a
 * decoder reports, the player state, and the methods that update them and
 * report the change through an EventMask.
 */
module GLMediaPlayerObject {
  import opened JavaInt
  import opened Wrappers
  import opened GLMediaPlayer
  import opened GLMediaPlayerImpl
  import opened PlayerEvents

  /** The player's attributes that updateAttributes and changeState maintain. */
  class Player<C(==)> {
    /** What the model needs of CodecID, which is not part of it. */
    const codecs: CodecCatalog<C>
    var state: State
    var uriPath: string
    var title: string
    var vStreams: seq<int32>
    var vLangs: seq<string>
    var vid: int32
    var aStreams: seq<int32>
    var aLangs: seq<string>
    var aid: int32
    var sStreams: seq<int32>
    var sLangs: seq<string>
    var sid: int32
    var width: int32
    var height: int32
    var fps: real
    var bpsStream: int32
    var bpsVideo: int32
    var bpsAudio: int32
    var videoFrames: int32
    var audioFrames: int32
    var duration: int32
    var acodec: string
    var vcodec: string
    var scodec: string
    var acodecID: C
    var vcodecID: C
    var scodecID: C
    var textureLookupFunctionName: string
    var textureFragmentShaderHashCode: int32
    var userMaxChannels: int32

    constructor (codecs: CodecCatalog<C>)
      ensures this.codecs == codecs
      ensures state == Uninitialized && uriPath == NO_STREAM_PATH && title == UNDEF
      ensures vStreams == [] && aStreams == [] && sStreams == []
      ensures vLangs == [] && aLangs == [] && sLangs == []
      ensures vid == STREAM_ID_NONE && aid == STREAM_ID_NONE && sid == STREAM_ID_NONE
      ensures width == 0 && height == 0 && fps == 0.0
      ensures bpsStream == 0 && bpsVideo == 0 && bpsAudio == 0
      ensures videoFrames == 0 && audioFrames == 0 && duration == 0
      ensures acodec == UNKNOWN && vcodec == UNKNOWN && scodec == UNKNOWN
      ensures acodecID == codecs.none && vcodecID == codecs.none && scodecID == codecs.none
      ensures textureLookupFunctionName == TEXTURE_2D && textureFragmentShaderHashCode == 0
      ensures userMaxChannels == -1
    {
      this.codecs := codecs;
      state := Uninitialized;
      uriPath := NO_STREAM_PATH;
      title := UNDEF;
      vStreams, vLangs, vid := [], [], STREAM_ID_NONE;
      aStreams, aLangs, aid := [], [], STREAM_ID_NONE;
      sStreams, sLangs, sid := [], [], STREAM_ID_NONE;
      width, height, fps := 0, 0, 0.0;
      bpsStream, bpsVideo, bpsAudio := 0, 0, 0;
      videoFrames, audioFrames, duration := 0, 0, 0;
      acodec, vcodec, scodec := UNKNOWN, UNKNOWN, UNKNOWN;
      acodecID, vcodecID, scodecID := codecs.none, codecs.none, codecs.none;
      textureLookupFunctionName := TEXTURE_2D;
      textureFragmentShaderHashCode := 0;
      userMaxChannels := -1;
    }

    method SetAudioChannelLimit(cc: int32)
      modifies this`userMaxChannels
      ensures userMaxChannels == AudioChannelLimit(cc)
    {
      userMaxChannels := Min(8, Max(1, cc));
    }

    /** addStateEventMask: raise the new state's bit when the state would change. */
    method AddStateEventMask(eventMask: EventMask, newState: State)
      requires eventMask.Valid()
      modifies eventMask
      ensures eventMask.Valid()
      ensures eventMask.mask == old(eventMask.mask) + StateEvent(state, newState)
    {
      if state != newState {
        match newState
        case Uninitialized => eventMask.SetBit(Uninit);
        case Initialized => eventMask.SetBit(Init);
        case Playing => eventMask.SetBit(Play);
        case Paused => eventMask.SetBit(Pause);
      }
    }

    /**
     * changeState: the state becomes newState only when the mask, with the
     * state bit added, is not empty; entering Uninitialized resets the
     * texture lookup function and the shader hash.
     */
    method ChangeState(eventMask: EventMask, newState: State)
      requires eventMask.Valid()
      modifies eventMask, this`state, this`textureLookupFunctionName, this`textureFragmentShaderHashCode
      ensures eventMask.Valid()
      ensures eventMask.mask == old(eventMask.mask) + StateEvent(old(state), newState)
      ensures state == if eventMask.mask != {} then newState else old(state)
      ensures eventMask.mask != {} && newState == Uninitialized ==>
        textureLookupFunctionName == TEXTURE_2D && textureFragmentShaderHashCode == 0
      ensures !(eventMask.mask != {} && newState == Uninitialized) ==>
        textureLookupFunctionName == old(textureLookupFunctionName)
        && textureFragmentShaderHashCode == old(textureFragmentShaderHashCode)
    {
      AddStateEventMask(eventMask, newState);
      if !eventMask.IsZero() {
        state := newState;
        if state == Uninitialized {
          textureLookupFunctionName := TEXTURE_2D;
          textureFragmentShaderHashCode := 0;
        }
      }
    }

    /** What updateAttributes would find changed if it were given x now. */
    function Diff(x: Attributes): Changes
      reads this
    {
      Changes(
        state == Uninitialized,
        NormalizeId(x.vid, x.vStreams) != vid,
        NormalizeId(x.aid, x.aStreams) != aid,
        NormalizeId(x.sid, x.sStreams) != sid,
        width != x.width || height != x.height,
        fps != x.fps,
        bpsStream != x.bpsStream || bpsVideo != x.bpsVideo || bpsAudio != x.bpsAudio,
        videoFrames != x.videoFrames || audioFrames != x.audioFrames || duration != x.duration,
        CodecChanges(acodec, x.acodec) || CodecIdChanges(acodecID, x.ffmpegACodecID, codecs.fromFFmpeg, codecs.isAudio),
        CodecChanges(vcodec, x.vcodec) || CodecIdChanges(vcodecID, x.ffmpegVCodecID, codecs.fromFFmpeg, codecs.isVideo),
        CodecChanges(scodec, x.scodec) || CodecIdChanges(scodecID, x.ffmpegSCodecID, codecs.fromFFmpeg, codecs.isSubtitle))
    }

    /**
     * updateAttributes: store the reported attributes and return the mask of
     * what changed. A first call moves the player to Initialized.
     */
    method UpdateAttributes(x: Attributes) returns (eventMask: EventMask)
      modifies this
      ensures fresh(eventMask) && eventMask.Valid()
      ensures eventMask.mask == UpdateMask(old(Diff(x)))
      ensures uriPath == old(uriPath) && userMaxChannels == old(userMaxChannels)
      ensures textureLookupFunctionName == old(textureLookupFunctionName)
      ensures textureFragmentShaderHashCode == old(textureFragmentShaderHashCode)
      ensures state == if old(state) == Uninitialized then Initialized else old(state)
      ensures title == if x.title.Some? then x.title.value else DeriveTitle(uriPath)
      ensures vStreams == x.vStreams && aStreams == x.aStreams && sStreams == x.sStreams
      ensures vLangs == x.vLangs && aLangs == x.aLangs && sLangs == x.sLangs
      ensures vid == NormalizeId(x.vid, x.vStreams)
      ensures aid == NormalizeId(x.aid, x.aStreams)
      ensures sid == NormalizeId(x.sid, x.sStreams)
      ensures width == x.width && height == x.height && fps == x.fps
      ensures bpsStream == x.bpsStream && bpsVideo == x.bpsVideo && bpsAudio == x.bpsAudio
      ensures videoFrames == x.videoFrames && audioFrames == x.audioFrames && duration == x.duration
      ensures acodec == NewCodec(old(acodec), x.acodec)
      ensures vcodec == NewCodec(old(vcodec), x.vcodec)
      ensures scodec == NewCodec(old(scodec), x.scodec)
      ensures acodecID == NewCodecId(old(acodecID), x.ffmpegACodecID, codecs.fromFFmpeg, codecs.isAudio)
      ensures vcodecID == NewCodecId(old(vcodecID), x.ffmpegVCodecID, codecs.fromFFmpeg, codecs.isVideo)
      ensures scodecID == NewCodecId(old(scodecID), x.ffmpegSCodecID, codecs.fromFFmpeg, codecs.isSubtitle)
    {
      var changes := Diff(x);
      eventMask := RaiseChanges(changes);
      Store(x);
    }

    /** The attribute part of updateAttributes: every reported attribute is stored. */
    method Store(x: Attributes)
      modifies this
      ensures uriPath == old(uriPath) && userMaxChannels == old(userMaxChannels)
      ensures textureLookupFunctionName == old(textureLookupFunctionName)
      ensures textureFragmentShaderHashCode == old(textureFragmentShaderHashCode)
      ensures state == if old(state) == Uninitialized then Initialized else old(state)
      ensures title == if x.title.Some? then x.title.value else DeriveTitle(uriPath)
      ensures vStreams == x.vStreams && aStreams == x.aStreams && sStreams == x.sStreams
      ensures vLangs == x.vLangs && aLangs == x.aLangs && sLangs == x.sLangs
      ensures vid == NormalizeId(x.vid, x.vStreams)
      ensures aid == NormalizeId(x.aid, x.aStreams)
      ensures sid == NormalizeId(x.sid, x.sStreams)
      ensures width == x.width && height == x.height && fps == x.fps
      ensures bpsStream == x.bpsStream && bpsVideo == x.bpsVideo && bpsAudio == x.bpsAudio
      ensures videoFrames == x.videoFrames && audioFrames == x.audioFrames && duration == x.duration
      ensures acodec == NewCodec(old(acodec), x.acodec)
      ensures vcodec == NewCodec(old(vcodec), x.vcodec)
      ensures scodec == NewCodec(old(scodec), x.scodec)
      ensures acodecID == NewCodecId(old(acodecID), x.ffmpegACodecID, codecs.fromFFmpeg, codecs.isAudio)
      ensures vcodecID == NewCodecId(old(vcodecID), x.ffmpegVCodecID, codecs.fromFFmpeg, codecs.isVideo)
      ensures scodecID == NewCodecId(old(scodecID), x.ffmpegSCodecID, codecs.fromFFmpeg, codecs.isSubtitle)
    {
      StoreStateTitleAndStreams(x);
      StoreIdsMeasuresAndCodecs(x);
    }

    /** The selected stream ids, the measures and the codecs. */
    method StoreIdsMeasuresAndCodecs(x: Attributes)
      modifies this`vid, this`aid, this`sid, this`width, this`height, this`fps,
        this`bpsStream, this`bpsVideo, this`bpsAudio, this`videoFrames, this`audioFrames, this`duration,
        this`acodec, this`vcodec, this`scodec, this`acodecID, this`vcodecID, this`scodecID
      ensures vid == NormalizeId(x.vid, x.vStreams)
      ensures aid == NormalizeId(x.aid, x.aStreams)
      ensures sid == NormalizeId(x.sid, x.sStreams)
      ensures width == x.width && height == x.height && fps == x.fps
      ensures bpsStream == x.bpsStream && bpsVideo == x.bpsVideo && bpsAudio == x.bpsAudio
      ensures videoFrames == x.videoFrames && audioFrames == x.audioFrames && duration == x.duration
      ensures acodec == NewCodec(old(acodec), x.acodec)
      ensures vcodec == NewCodec(old(vcodec), x.vcodec)
      ensures scodec == NewCodec(old(scodec), x.scodec)
      ensures acodecID == NewCodecId(old(acodecID), x.ffmpegACodecID, codecs.fromFFmpeg, codecs.isAudio)
      ensures vcodecID == NewCodecId(old(vcodecID), x.ffmpegVCodecID, codecs.fromFFmpeg, codecs.isVideo)
      ensures scodecID == NewCodecId(old(scodecID), x.ffmpegSCodecID, codecs.fromFFmpeg, codecs.isSubtitle)
    {
      StoreIdsAndMeasures(x);
      StoreCodecs(x);
    }

    /** The event mask of updateAttributes, raised bit by bit in the order the source tests them. */
    static method RaiseChanges(ch: Changes) returns (eventMask: EventMask)
      ensures fresh(eventMask) && eventMask.Valid()
      ensures eventMask.mask == UpdateMask(ch)
    {
      eventMask := new EventMask();
      RaiseIf(eventMask, ch.init, Init);
      RaiseIf(eventMask, ch.vid, VID);
      RaiseIf(eventMask, ch.aid, AID);
      RaiseIf(eventMask, ch.sid, SID);
      RaiseMeasuresAndCodecs(eventMask, ch);
    }

    static method RaiseMeasuresAndCodecs(eventMask: EventMask, ch: Changes)
      requires eventMask.Valid()
      modifies eventMask
      ensures eventMask.Valid()
      ensures eventMask.mask == AddCodecBits(AddMeasureBits(old(eventMask.mask),
        ch.size, ch.fps, ch.bps, ch.length), ch.acodec, ch.vcodec, ch.scodec)
    {
      RaiseIf(eventMask, ch.size, Size);
      RaiseIf(eventMask, ch.fps, FPS);
      RaiseIf(eventMask, ch.bps, BPS);
      RaiseIf(eventMask, ch.length, Length);
      RaiseIf(eventMask, ch.acodec || ch.vcodec || ch.scodec, Codec);
      RaiseIf(eventMask, ch.acodec, ACodec);
      RaiseIf(eventMask, ch.vcodec, VCodec);
      RaiseIf(eventMask, ch.scodec, SCodec);
    }

    /** A first call initializes the player; the title and the stream lists are taken from x. */
    method StoreStateTitleAndStreams(x: Attributes)
      modifies this`state, this`title, this`vStreams, this`vLangs, this`aStreams, this`aLangs,
        this`sStreams, this`sLangs
      ensures state == if old(state) == Uninitialized then Initialized else old(state)
      ensures title == if x.title.Some? then x.title.value else DeriveTitle(uriPath)
      ensures vStreams == x.vStreams && aStreams == x.aStreams && sStreams == x.sStreams
      ensures vLangs == x.vLangs && aLangs == x.aLangs && sLangs == x.sLangs
    {
      if state == Uninitialized {
        state := Initialized;
      }
      if x.title.None? {
        title := DeriveTitle(uriPath);
      } else {
        title := x.title.value;
      }
      vStreams, vLangs := x.vStreams, x.vLangs;
      aStreams, aLangs := x.aStreams, x.aLangs;
      sStreams, sLangs := x.sStreams, x.sLangs;
    }

    /** The selected stream ids, normalized, and the size, rate and length attributes. */
    method StoreIdsAndMeasures(x: Attributes)
      modifies this`vid, this`aid, this`sid, this`width, this`height, this`fps,
        this`bpsStream, this`bpsVideo, this`bpsAudio, this`videoFrames, this`audioFrames, this`duration
      ensures vid == NormalizeId(x.vid, x.vStreams)
      ensures aid == NormalizeId(x.aid, x.aStreams)
      ensures sid == NormalizeId(x.sid, x.sStreams)
      ensures width == x.width && height == x.height && fps == x.fps
      ensures bpsStream == x.bpsStream && bpsVideo == x.bpsVideo && bpsAudio == x.bpsAudio
      ensures videoFrames == x.videoFrames && audioFrames == x.audioFrames && duration == x.duration
    {
      vid := NormalizeId(x.vid, x.vStreams);
      aid := NormalizeId(x.aid, x.aStreams);
      sid := NormalizeId(x.sid, x.sStreams);
      width, height, fps := x.width, x.height, x.fps;
      bpsStream, bpsVideo, bpsAudio := x.bpsStream, x.bpsVideo, x.bpsAudio;
      videoFrames, audioFrames, duration := x.videoFrames, x.audioFrames, x.duration;
    }

    /** Each codec name, and each codec id, that x reports and that differs replaces the stored one. */
    method StoreCodecs(x: Attributes)
      modifies this`acodec, this`vcodec, this`scodec, this`acodecID, this`vcodecID, this`scodecID
      ensures acodec == NewCodec(old(acodec), x.acodec)
      ensures vcodec == NewCodec(old(vcodec), x.vcodec)
      ensures scodec == NewCodec(old(scodec), x.scodec)
      ensures acodecID == NewCodecId(old(acodecID), x.ffmpegACodecID, codecs.fromFFmpeg, codecs.isAudio)
      ensures vcodecID == NewCodecId(old(vcodecID), x.ffmpegVCodecID, codecs.fromFFmpeg, codecs.isVideo)
      ensures scodecID == NewCodecId(old(scodecID), x.ffmpegSCodecID, codecs.fromFFmpeg, codecs.isSubtitle)
    {
      acodec, vcodec, scodec := NewCodec(acodec, x.acodec), NewCodec(vcodec, x.vcodec), NewCodec(scodec, x.scodec);
      acodecID := NewCodecId(acodecID, x.ffmpegACodecID, codecs.fromFFmpeg, codecs.isAudio);
      vcodecID := NewCodecId(vcodecID, x.ffmpegVCodecID, codecs.fromFFmpeg, codecs.isVideo);
      scodecID := NewCodecId(scodecID, x.ffmpegSCodecID, codecs.fromFFmpeg, codecs.isSubtitle);
    }

    /** One `if (changed) eventMask.setBit(b)` step of updateAttributes. */
    static method RaiseIf(eventMask: EventMask, changed: bool, b: Bit)
      requires eventMask.Valid()
      modifies eventMask
      ensures eventMask.Valid() && eventMask.mask == old(eventMask.mask) + If(changed, b)
    {
      if changed {
        eventMask.SetBit(b);
      }
    }
  }
}
