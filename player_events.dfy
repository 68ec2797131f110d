/**
 * The events updateAttributes and changeState report: which bits of the
 * GLMediaPlayer event mask a set of attribute changes raises.
 */
module PlayerEvents {
  import opened GLMediaPlayer

  /** What one updateAttributes call found changed, one flag per event bit it may raise. */
  datatype Changes = Changes(
    init: bool, vid: bool, aid: bool, sid: bool, size: bool, fps: bool, bps: bool, length: bool,
    acodec: bool, vcodec: bool, scodec: bool)

  /** The bit b, when c holds. */
  function If(c: bool, b: Bit): set<nat> { set k | k in Value(b) && c }

  /** m with the vid, aid and sid bits raised, in that order, where they changed. */
  function AddIdBits(m: set<nat>, vid: bool, aid: bool, sid: bool): set<nat>
  {
    m + If(vid, VID) + If(aid, AID) + If(sid, SID)
  }

  /** m with the size, frame-rate, bit-rate and length bits raised where they changed. */
  function AddMeasureBits(m: set<nat>, size: bool, fps: bool, bps: bool, length: bool): set<nat>
  {
    m + If(size, Size) + If(fps, FPS) + If(bps, BPS) + If(length, Length)
  }

  /** m with the codec bits raised: any codec change raises Codec before the codec's own bit. */
  function AddCodecBits(m: set<nat>, acodec: bool, vcodec: bool, scodec: bool): set<nat>
  {
    m + If(acodec || vcodec || scodec, Codec) + If(acodec, ACodec) + If(vcodec, VCodec) + If(scodec, SCodec)
  }

  /** The event mask updateAttributes reports for the given changes, in the order it raises them. */
  function UpdateMask(ch: Changes): set<nat>
  {
    var withIds := AddIdBits({} + If(ch.init, Init), ch.vid, ch.aid, ch.sid);
    var withMeasures := AddMeasureBits(withIds, ch.size, ch.fps, ch.bps, ch.length);
    AddCodecBits(withMeasures, ch.acodec, ch.vcodec, ch.scodec)
  }

  /** Whether updateAttributes raises bit b for the given changes. */
  predicate Raised(ch: Changes, b: Bit)
  {
    match b
    case Init => ch.init
    case VID => ch.vid
    case AID => ch.aid
    case SID => ch.sid
    case Size => ch.size
    case FPS => ch.fps
    case BPS => ch.bps
    case Length => ch.length
    case Codec => ch.acodec || ch.vcodec || ch.scodec
    case ACodec => ch.acodec
    case VCodec => ch.vcodec
    case SCodec => ch.scodec
    case _ => false
  }

  const NoChanges := Changes(false, false, false, false, false, false, false, false, false, false, false)

  /**
   * Bit b of the reported mask is set exactly when updateAttributes raises
   * it: Init on the first call, each attribute's bit when it changed, Codec
   * with any codec bit, and never Uninit, Play, Pause, Seek, EOS or Error.
   */
  lemma UpdateMaskBits(ch: Changes, b: Bit)
    ensures Has(UpdateMask(ch), b) <==> Raised(ch, b)
  {
    MaskStateBits(ch);
    MaskIdBits(ch);
    MaskMeasureBits(ch);
    MaskCodecBits(ch);
    match b
    case Init => {} case Uninit => {} case Play => {} case Pause => {}
    case Seek => {} case EOS => {} case Error => {} case VID => {}
    case AID => {} case SID => {} case Size => {} case FPS => {}
    case BPS => {} case Length => {} case Codec => {} case ACodec => {}
    case VCodec => {} case SCodec => {}
  }

  /** Each group raises bits only within its own range of positions. */
  lemma GroupRanges(ch: Changes)
    ensures forall k :: k in If(ch.init, Init) ==> k == 0
    ensures forall k, m :: k in AddIdBits(m, ch.vid, ch.aid, ch.sid) ==> k in m || 16 <= k <= 18
    ensures forall k, m :: k in AddMeasureBits(m, ch.size, ch.fps, ch.bps, ch.length) ==> k in m || 19 <= k <= 22
    ensures forall k, m :: k in AddCodecBits(m, ch.acodec, ch.vcodec, ch.scodec) ==> k in m || 23 <= k <= 26
  {
  }

  lemma MaskStateBits(ch: Changes)
    ensures Has(UpdateMask(ch), Init) <==> ch.init
    ensures !Has(UpdateMask(ch), Uninit) && !Has(UpdateMask(ch), Play) && !Has(UpdateMask(ch), Pause)
    ensures !Has(UpdateMask(ch), Seek) && !Has(UpdateMask(ch), EOS) && !Has(UpdateMask(ch), Error)
  {
    GroupRanges(ch);
  }

  lemma MaskIdBits(ch: Changes)
    ensures Has(UpdateMask(ch), VID) <==> ch.vid
    ensures Has(UpdateMask(ch), AID) <==> ch.aid
    ensures Has(UpdateMask(ch), SID) <==> ch.sid
  {
    GroupRanges(ch);
  }

  lemma MaskMeasureBits(ch: Changes)
    ensures Has(UpdateMask(ch), Size) <==> ch.size
    ensures Has(UpdateMask(ch), FPS) <==> ch.fps
    ensures Has(UpdateMask(ch), BPS) <==> ch.bps
    ensures Has(UpdateMask(ch), Length) <==> ch.length
  {
    GroupRanges(ch);
  }

  lemma MaskCodecBits(ch: Changes)
    ensures Has(UpdateMask(ch), Codec) <==> ch.acodec || ch.vcodec || ch.scodec
    ensures Has(UpdateMask(ch), ACodec) <==> ch.acodec
    ensures Has(UpdateMask(ch), VCodec) <==> ch.vcodec
    ensures Has(UpdateMask(ch), SCodec) <==> ch.scodec
  {
    GroupRanges(ch);
  }

  /** The reported mask is a word: every bit it holds is below 32. */
  lemma UpdateMaskIsWord(ch: Changes)
    ensures IsWord(UpdateMask(ch))
  {
  }

  /** The reported mask is empty exactly when nothing changed. */
  lemma UpdateMaskEmpty(ch: Changes)
    ensures UpdateMask(ch) == {} <==> ch == NoChanges
  {
    if ch != NoChanges {
      MaskStateBits(ch);
      MaskIdBits(ch);
      MaskMeasureBits(ch);
      MaskCodecBits(ch);
    }
  }

  /** The state change event: the bit of the new state, when the state differs. */
  function StateBit(s: State): (b: Bit)
  {
    match s
    case Uninitialized => Uninit
    case Initialized => Init
    case Playing => Play
    case Paused => Pause
  }

  function StateEvent(current: State, next: State): set<nat>
  {
    if current != next then Value(StateBit(next)) else {}
  }

  /** The state event holds exactly the new state's bit, and only when the state changes. */
  lemma StateEventBits(current: State, next: State, b: Bit)
    ensures Has(StateEvent(current, next), b) <==> current != next && b == StateBit(next)
    ensures StateEvent(current, next) == {} <==> current == next
  {
    PosInjective(b, StateBit(next));
  }
}
