/**
 * JOGL's GLArrayDataClient: a client-side vertex-attribute buffer that
 * grows on demand while it is open for writing, and is sealed (flipped for
 * reading) before GL uses it. The java.nio buffer is modelled as its
 * contents with a position and a limit; its capacity is the length of the
 * contents.
 */
module GLArrayDataClient {
  import opened JavaInt
  import opened Wrappers

  /** The failures the client reports by throwing. */
  datatype Error =
    | InvalidState      // reserve or checkSeal on a dead or sealed client
    | NotSealed         // enabling a buffer that is still open for writing
    | MappedCannotGrow  // growing a buffer that maps GL memory
    | UnsupportedClass  // a component class other than byte, short, int or float
    | NullBuffer        // writing while no buffer exists
    | BufferOverflow    // writing more components than the buffer has room for
    | IllegalArgument   // a mapped element count together with an initial element count

  /** The component class of the buffer (ByteBuffer, ShortBuffer, IntBuffer, FloatBuffer, or another). */
  datatype ComponentClass = ByteComps | ShortComps | IntComps | FloatComps | OtherComps

  /** A java.nio buffer: contents, position and limit; capacity is |data|. */
  datatype NioBuffer = NioBuffer(data: seq<int>, position: nat, limit: nat)
  {
    predicate Valid() { position <= limit <= |data| <= INT_MAX }
    function Capacity(): nat { |data| }
    function Remaining(): int { limit - position }
  }

  /** Buffer.clear: position 0, limit at capacity; the contents stay. */
  function ClearBuffer(b: NioBuffer): NioBuffer { b.(position := 0, limit := |b.data|) }

  /** Buffer.flip: limit at the old position, position 0. */
  function Flip(b: NioBuffer): NioBuffer { b.(position := 0, limit := b.position) }

  /** Reopen for writing after a flip: position at the old limit, limit at capacity. */
  function Reopen(b: NioBuffer): NioBuffer { b.(position := b.limit, limit := |b.data|) }

  /** Buffer.rewind: position 0. */
  function Rewind(b: NioBuffer): NioBuffer { b.(position := 0) }

  /** n zero components, as a freshly allocated direct buffer holds. */
  function Zeros(n: nat): (z: seq<int>)
    ensures |z| == n && forall i :: 0 <= i < n ==> z[i] == 0
  {
    if n == 0 then [] else Zeros(n - 1) + [0]
  }

  /** Relative bulk put: vs written at the position, which moves past them. */
  function Write(b: NioBuffer, vs: seq<int>): (r: NioBuffer)
    requires b.Valid() && |vs| <= b.Remaining()
    ensures r.Valid() && |r.data| == |b.data| && r.limit == b.limit
    ensures r.position == b.position + |vs| && r.data[b.position..r.position] == vs
    ensures r.data[..b.position] == b.data[..b.position]
  {
    b.(data := b.data[..b.position] + vs + b.data[b.position + |vs|..], position := b.position + |vs|)
  }

  /** Java's (int) cast of a floating-point value: toward zero, saturating at the int range. */
  function FloatToInt(x: real): (r: int32)
    ensures 0.0 <= x < INT_MAX as real ==> r == x.Floor
  {
    if x >= INT_MAX as real then INT_MAX
    else if x <= INT_MIN as real then INT_MIN
    else if x >= 0.0 then x.Floor
    else -((-x).Floor)
  }

  /** The per-array layout fixed at construction (kept by the GLArrayDataWrapper base class). */
  datatype Layout = Layout(compsPerElement: int32, strideL: int32, initElemCount: int32,
                           mappedElemCount: int32, componentClass: ComponentClass)
  {
    predicate Valid() { compsPerElement > 0 }
  }

  /** compsToElemCount: elements needed for a number of components, rounding up. */
  function CompsToElemCount(comps: int32, componentCount: int32): int32
    requires comps > 0
  {
    Div(Wrap32(componentCount + comps - 1), comps)
  }

  /** Without overflow, compsToElemCount is the ceiling of componentCount / comps. */
  lemma CompsToElemCountIsCeiling(comps: int32, n: int32)
    requires comps > 0 && 0 <= n && n + comps - 1 <= INT_MAX
    ensures var r := CompsToElemCount(comps, n); 0 <= r && n <= r * comps && (r - 1) * comps < n
  {
    var m := n + comps - 1;
    assert Wrap32(m) == m;
    assert m == (m / comps) * comps + m % comps && 0 <= m % comps < comps;
  }

  /** The component count reserve(elementCount) asks for, after adding the stride delta. */
  function ReservedSize(lay: Layout, elementCount: int32): int32
    requires lay.Valid()
  {
    var c := lay.compsPerElement;
    var withStride := Wrap32(elementCount + Wrap32(Div(elementCount, c) * Wrap32(lay.strideL - c)));
    Wrap32(withStride * c)
  }

  /** For a tightly packed layout and no overflow, reserve asks for exactly elementCount elements. */
  lemma ReservedSizePacked(lay: Layout, elementCount: int32)
    requires lay.Valid() && lay.strideL == lay.compsPerElement
    requires IsInt32(elementCount * lay.compsPerElement)
    ensures ReservedSize(lay, elementCount) == elementCount * lay.compsPerElement
  {
  }

  /** The mutable state of one client. */
  datatype State = State(alive: bool, sealed: bool, enabled: bool, written: bool, enableAlways: bool,
                         growthFactor: real, buffer: Option<NioBuffer>)
  {
    predicate Valid(lay: Layout)
    {
      (buffer.Some? ==> buffer.value.Valid()) && (lay.mappedElemCount != 0 ==> written)
    }
  }

  /** What an operation reports, and the state it leaves, also when it throws. */
  datatype Step<T> = Step(outcome: Result<T, Error>, next: State)

  /** The buffer reserve installs: the written part of the old one, then zeros up to nsize. */
  function Regrown(prev: Option<NioBuffer>, nsize: nat): (b: NioBuffer)
    requires prev.Some? ==> prev.value.Valid() && prev.value.Capacity() < nsize <= INT_MAX
    requires nsize <= INT_MAX
    ensures b.Valid() && b.Capacity() == nsize && b.limit == nsize
    ensures prev.Some? ==> b.position == prev.value.position && b.data[..b.position] == prev.value.data[..b.position]
    ensures prev.None? ==> b.position == 0
  {
    var kept := if prev.Some? then prev.value.data[..prev.value.position] else [];
    NioBuffer(kept + Zeros(nsize - |kept|), |kept|, nsize)
  }

  /** reserve(elementCount): true when the buffer was replaced by a larger one. */
  function ReserveStep(lay: Layout, s: State, elementCount: int32): (r: Step<bool>)
    requires lay.Valid() && s.Valid(lay)
    ensures r.next.Valid(lay) && r.next.(buffer := s.buffer) == s
  {
    if !s.alive || s.sealed then Step(Err(InvalidState), s)
    else
      var nsize := ReservedSize(lay, elementCount);
      var osize := if s.buffer.Some? then s.buffer.value.Capacity() else 0;
      if nsize <= osize then Step(Ok(false), s)
      else if lay.componentClass == OtherComps then Step(Err(UnsupportedClass), s)
      else Step(Ok(true), s.(buffer := Some(Regrown(s.buffer, nsize))))
  }

  /** The element count growIfNeeded passes to reserve. */
  function GrowTarget(lay: Layout, s: State, spare: int32): int32
    requires lay.Valid() && s.Valid(lay)
  {
    var c := lay.compsPerElement;
    if s.buffer.None? then Max(lay.initElemCount, CompsToElemCount(c, spare))
    else
      var has := s.buffer.value.Capacity();
      var required := CompsToElemCount(c, Wrap32(has + spare));
      var grown := CompsToElemCount(c, FloatToInt(has as real * s.growthFactor + 0.5));
      Max(grown, required)
  }

  /** growIfNeeded(spare): reserves more room when fewer than spare components remain. */
  function GrowStep(lay: Layout, s: State, spare: int32): (r: Step<bool>)
    requires lay.Valid() && s.Valid(lay)
    ensures r.next.Valid(lay) && r.next.(buffer := s.buffer) == s
  {
    if s.buffer.Some? && s.buffer.value.Remaining() >= spare then Step(Ok(false), s)
    else if lay.mappedElemCount != 0 then Step(Err(MappedCannotGrow), s)
    else ReserveStep(lay, s, GrowTarget(lay, s, spare))
  }

  /** The put* family: nothing while sealed, otherwise grow and write the components. */
  function PutStep(lay: Layout, s: State, vs: seq<int>): (r: Step<()>)
    requires lay.Valid() && s.Valid(lay) && |vs| <= INT_MAX
    ensures r.next.Valid(lay) && r.next.(buffer := s.buffer) == s
  {
    if s.sealed then Step(Ok(()), s)
    else
      var grown := GrowStep(lay, s, |vs|);
      var g := grown.next;
      if grown.outcome.Err? then Step(Err(grown.outcome.error), g)
      else if g.buffer.None? then Step(Err(NullBuffer), g)
      else if g.buffer.value.Remaining() < |vs| then Step(Err(BufferOverflow), g)
      else Step(Ok(()), g.(buffer := Some(Write(g.buffer.value, vs))))
  }

  /** seal(s): on a change, flips the buffer for reading or reopens it for writing. */
  function Seal(lay: Layout, s: State, seal: bool): (r: State)
    ensures s.Valid(lay) ==> r.Valid(lay)
    ensures r.sealed == seal
  {
    if s.sealed == seal then s
    else
      var b := if s.buffer.None? then None else if seal then Some(Flip(s.buffer.value)) else Some(Reopen(s.buffer.value));
      s.(sealed := seal, written := lay.mappedElemCount != 0, buffer := b)
  }

  /** clear(): the buffer cleared, unsealed and disabled. */
  function Clear(lay: Layout, s: State): (r: State)
    ensures s.Valid(lay) ==> r.Valid(lay)
  {
    var b := if s.buffer.None? then None else Some(ClearBuffer(s.buffer.value));
    s.(buffer := b, sealed := false, enabled := false, written := lay.mappedElemCount != 0)
  }

  /** setVBOWritten: a mapped buffer always counts as written. */
  function SetWritten(lay: Layout, s: State, written: bool): (r: State)
    ensures r.Valid(lay) <==> (s.buffer.Some? ==> s.buffer.value.Valid())
    ensures lay.mappedElemCount == 0 ==> r.written == written
  {
    s.(written := if lay.mappedElemCount == 0 then written else true)
  }

  /** enableBuffer: enabling checks that the client is alive and sealed; the GL calls are not modelled. */
  function EnableBuffer(s: State, enable: bool): (r: Step<()>)
    ensures r.next == s || (r.next == s.(enabled := enable) && (enable ==> s.alive && s.sealed))
    ensures r.outcome.Err? ==> r.next == s
  {
    if !s.enableAlways && s.enabled == enable then Step(Ok(()), s)
    else if enable && !s.alive then Step(Err(InvalidState), s)
    else if enable && !s.sealed then Step(Err(NotSealed), s)
    else Step(Ok(()), s.(enabled := enable))
  }

  /** seal(gl, s): seal(s), then enableBuffer(gl, s). */
  function SealGL(lay: Layout, s: State, seal: bool): Step<()>
  {
    EnableBuffer(Seal(lay, s, seal), seal)
  }

  /** clear(gl): seal(gl, false), then clear(). */
  function ClearGL(lay: Layout, s: State): State
  {
    Clear(lay, SealGL(lay, s, false).next)
  }

  /** reserve throws on a dead or sealed client, and keeps the buffer when it is already large enough. */
  lemma ReserveKeeps(lay: Layout, s: State, elementCount: int32)
    requires lay.Valid() && s.Valid(lay)
    ensures !s.alive || s.sealed ==> ReserveStep(lay, s, elementCount) == Step(Err(InvalidState), s)
    ensures s.alive && !s.sealed && s.buffer.Some? && ReservedSize(lay, elementCount) <= s.buffer.value.Capacity()
      ==> ReserveStep(lay, s, elementCount) == Step(Ok(false), s)
  {
  }

  /** A successful reserve leaves capacity nsize and keeps the written components as a prefix. */
  lemma ReserveGrows(lay: Layout, s: State, elementCount: int32)
    requires lay.Valid() && s.Valid(lay)
    requires ReserveStep(lay, s, elementCount).outcome == Ok(true)
    ensures var n := ReserveStep(lay, s, elementCount).next;
      n.buffer.Some? && n.buffer.value.Capacity() == ReservedSize(lay, elementCount)
      && n.buffer.value.limit == n.buffer.value.Capacity()
      && (s.buffer.Some? ==>
            n.buffer.value.position == s.buffer.value.position
            && n.buffer.value.data[..s.buffer.value.position] == s.buffer.value.data[..s.buffer.value.position])
      && n.(buffer := s.buffer) == s
  {
  }

  /** growIfNeeded leaves everything alone when enough room remains, and throws for a mapped buffer that must grow. */
  lemma GrowIfNeededCases(lay: Layout, s: State, spare: int32)
    requires lay.Valid() && s.Valid(lay)
    ensures s.buffer.Some? && s.buffer.value.Remaining() >= spare ==> GrowStep(lay, s, spare) == Step(Ok(false), s)
    ensures (s.buffer.None? || s.buffer.value.Remaining() < spare) && lay.mappedElemCount != 0
      ==> GrowStep(lay, s, spare) == Step(Err(MappedCannotGrow), s)
  {
  }

  /**
   * On a live, open, unmapped and tightly packed buffer of a supported class,
   * growIfNeeded leaves room for the spare components, unless the sizes
   * overflow a Java int.
   */
  lemma {:induction false} GrowIfNeededMakesRoom(lay: Layout, s: State, spare: int32)
    requires lay.Valid() && s.Valid(lay) && s.alive && !s.sealed
    requires lay.mappedElemCount == 0 && lay.strideL == lay.compsPerElement && lay.componentClass != OtherComps
    requires 0 < spare
    requires s.buffer.Some? ==> s.buffer.value.Capacity() + spare + lay.compsPerElement <= INT_MAX
    requires spare + lay.compsPerElement <= INT_MAX
    requires IsInt32(GrowTarget(lay, s, spare) * lay.compsPerElement)
    ensures var g := GrowStep(lay, s, spare);
      g.outcome.Ok? && g.next.buffer.Some? && g.next.buffer.value.Remaining() >= spare
  {
    var c := lay.compsPerElement;
    var e := GrowTarget(lay, s, spare);
    if s.buffer.None? {
      CompsToElemCountIsCeiling(c, spare);
      MulMonotone(CompsToElemCount(c, spare), e, c);
    } else if s.buffer.value.Remaining() < spare {
      var has := s.buffer.value.Capacity();
      CompsToElemCountIsCeiling(c, has + spare);
      MulMonotone(CompsToElemCount(c, Wrap32(has + spare)), e, c);
    }
    ReservedSizePacked(lay, e);
  }

  lemma MulMonotone(x: int, y: int, c: nat)
    requires x <= y
    ensures x * c <= y * c
  {
  }

  /** Writes are no-ops while sealed. */
  lemma PutWhileSealed(lay: Layout, s: State, vs: seq<int>)
    requires lay.Valid() && s.Valid(lay) && |vs| <= INT_MAX && s.sealed
    ensures PutStep(lay, s, vs) == Step(Ok(()), s)
  {
  }

  /** A successful put appends the components after the written ones and keeps those. */
  lemma PutAppends(lay: Layout, s: State, vs: seq<int>)
    requires lay.Valid() && s.Valid(lay) && |vs| <= INT_MAX && !s.sealed
    requires s.buffer.Some? && PutStep(lay, s, vs).outcome.Ok?
    ensures var b, n := s.buffer.value, PutStep(lay, s, vs).next.buffer;
      n.Some? && n.value.position == b.position + |vs|
      && n.value.data[..b.position + |vs|] == b.data[..b.position] + vs
  {
    var g := GrowStep(lay, s, |vs|).next;
    var gb := g.buffer.value;
    assert gb.position == s.buffer.value.position;
    assert gb.data[..gb.position] == s.buffer.value.data[..gb.position];
    var w := Write(gb, vs);
    assert w.data[..w.position] == w.data[..gb.position] + w.data[gb.position..w.position];
  }

  /** seal(s) a second time with the same s changes nothing. */
  lemma SealIdempotent(lay: Layout, s: State, seal: bool)
    ensures Seal(lay, Seal(lay, s, seal), seal) == Seal(lay, s, seal)
  {
  }

  /** Sealing flips the written part for reading; unsealing again reopens it where writing stopped. */
  lemma SealUnsealResumes(lay: Layout, s: State)
    requires !s.sealed && s.buffer.Some? && s.buffer.value.Valid()
    ensures var u := Seal(lay, Seal(lay, s, true), false);
      u.buffer.Some? && u.buffer.value.position == s.buffer.value.position
      && u.buffer.value.limit == s.buffer.value.Capacity() && u.buffer.value.data == s.buffer.value.data
  {
  }

  /** clear(gl) leaves the client unsealed and disabled, with its buffer cleared. */
  lemma ClearGLResets(lay: Layout, s: State)
    ensures var c := ClearGL(lay, s); !c.sealed && !c.enabled
    ensures var c := ClearGL(lay, s); c.buffer.Some? ==> c.buffer.value.position == 0
  {
  }

  /** Enabling a buffer that is still open for writing throws. */
  lemma EnableNeedsSeal(s: State)
    requires s.alive && !s.sealed && (s.enableAlways || !s.enabled)
    ensures EnableBuffer(s, true).outcome == Err(NotSealed)
  {
  }

  /** The client object; the layout is fixed, the state changes. */
  class ArrayDataClient {
    const layout: Layout
    var alive: bool
    var sealed: bool
    var bufferEnabled: bool
    var bufferWritten: bool
    var enableBufferAlways: bool
    var growthFactor: real
    var buffer: Option<NioBuffer>

    function Model(): State
      reads this
    {
      State(alive, sealed, bufferEnabled, bufferWritten, enableBufferAlways, growthFactor, buffer)
    }

    ghost predicate Valid()
      reads this
    {
      layout.Valid() && Model().Valid(layout)
    }

    /** The fields as the constructor leaves them, before any initial reserve. */
    constructor Init(lay: Layout, data: Option<NioBuffer>, growth: real)
      requires lay.Valid() && (data.Some? ==> data.value.Valid())
      ensures layout == lay && Valid()
      ensures Model() == State(true, false, false, lay.mappedElemCount != 0, false, growth, data)
    {
      layout := lay;
      alive := true;
      sealed, bufferEnabled, enableBufferAlways := false, false, false;
      bufferWritten := lay.mappedElemCount != 0;
      growthFactor := growth;
      buffer := data;
    }

    /** The constructor: rejects a mapped count with an initial count, and reserves the initial elements when no buffer is given. */
    static method Create(lay: Layout, data: Option<NioBuffer>, growth: real) returns (r: Result<ArrayDataClient, Error>)
      requires lay.Valid() && (data.Some? ==> data.value.Valid())
      ensures (0 < lay.mappedElemCount && 0 < lay.initElemCount) ==> r == Err(IllegalArgument)
      ensures r.Ok? ==> fresh(r.value) && r.value.Valid() && r.value.layout == lay
      ensures r.Ok? ==> var s := State(true, false, false, lay.mappedElemCount != 0, false, growth, data);
        r.value.Model() == if data.None? && lay.initElemCount > 0 then ReserveStep(lay, s, lay.initElemCount).next else s
    {
      if 0 < lay.mappedElemCount && 0 < lay.initElemCount {
        return Err(IllegalArgument);
      }
      var c := new ArrayDataClient.Init(lay, data, growth);
      if data.None? && lay.initElemCount > 0 {
        var reserved := c.Reserve(lay.initElemCount);
        if reserved.Err? {
          return Err(reserved.error);
        }
      }
      r := Ok(c);
    }

    method SetVBOWritten(written: bool)
      requires Valid()
      modifies this`bufferWritten
      ensures Valid() && Model() == SetWritten(layout, old(Model()), written)
    {
      bufferWritten := if layout.mappedElemCount == 0 then written else true;
    }

    method SetGrowthFactor(v: real)
      modifies this`growthFactor
      ensures growthFactor == if v >= 1.0 then v else 1.0
    {
      growthFactor := if v >= 1.0 then v else 1.0;
    }

    method SetEnableAlways(always: bool)
      modifies this`enableBufferAlways
      ensures enableBufferAlways == always
    {
      enableBufferAlways := always;
    }

    method ClearData()
      requires Valid()
      modifies this
      ensures Valid() && Model() == Clear(layout, old(Model()))
    {
      if buffer.Some? {
        buffer := Some(ClearBuffer(buffer.value));
      }
      sealed := false;
      bufferEnabled := false;
      bufferWritten := layout.mappedElemCount != 0;
    }

    method SetSealed(seal: bool)
      requires Valid()
      modifies this
      ensures Valid() && Model() == Seal(layout, old(Model()), seal)
    {
      if sealed == seal {
        return;
      }
      sealed := seal;
      bufferWritten := layout.mappedElemCount != 0;
      if seal {
        if buffer.Some? {
          buffer := Some(Flip(buffer.value));
        }
      } else if buffer.Some? {
        buffer := Some(Reopen(buffer.value));
      }
    }

    method Enable(enable: bool) returns (outcome: Result<(), Error>)
      requires Valid()
      modifies this`bufferEnabled
      ensures Valid() && outcome == EnableBuffer(old(Model()), enable).outcome
      ensures Model() == EnableBuffer(old(Model()), enable).next
    {
      outcome := Ok(());
      if enableBufferAlways || bufferEnabled != enable {
        if enable {
          if !alive {
            return Err(InvalidState);
          }
          if !sealed {
            return Err(NotSealed);
          }
        }
        bufferEnabled := enable;
      }
    }

    method SealWithGL(seal: bool) returns (outcome: Result<(), Error>)
      requires Valid()
      modifies this
      ensures Valid() && outcome == SealGL(layout, old(Model()), seal).outcome
      ensures Model() == SealGL(layout, old(Model()), seal).next
    {
      SetSealed(seal);
      outcome := Enable(seal);
    }

    method ClearWithGL()
      requires Valid()
      modifies this
      ensures Valid() && Model() == ClearGL(layout, old(Model()))
    {
      var _ := SealWithGL(false);
      ClearData();
    }

    method Reserve(elementCount: int32) returns (outcome: Result<bool, Error>)
      requires Valid()
      modifies this`buffer
      ensures Valid() && outcome == ReserveStep(layout, old(Model()), elementCount).outcome
      ensures Model() == ReserveStep(layout, old(Model()), elementCount).next
    {
      if !alive || sealed {
        return Err(InvalidState);
      }
      var nsize := ReservedSize(layout, elementCount);
      var osize := if buffer.Some? then buffer.value.Capacity() else 0;
      if nsize <= osize {
        return Ok(false);
      }
      if layout.componentClass == OtherComps {
        return Err(UnsupportedClass);
      }
      buffer := Some(Regrown(buffer, nsize));
      outcome := Ok(true);
    }

    method GrowIfNeeded(spare: int32) returns (outcome: Result<bool, Error>)
      requires Valid()
      modifies this`buffer
      ensures Valid() && outcome == GrowStep(layout, old(Model()), spare).outcome
      ensures Model() == GrowStep(layout, old(Model()), spare).next
    {
      if buffer.None? || buffer.value.Remaining() < spare {
        if layout.mappedElemCount != 0 {
          return Err(MappedCannotGrow);
        }
        outcome := Reserve(GrowTarget(layout, Model(), spare));
        return;
      }
      outcome := Ok(false);
    }

    /** put, putb, put3b, ..., putf: the components are given in order, whatever their Java type. */
    method Put(vs: seq<int>) returns (outcome: Result<(), Error>)
      requires Valid() && |vs| <= INT_MAX
      modifies this`buffer
      ensures Valid() && outcome == PutStep(layout, old(Model()), vs).outcome
      ensures Model() == PutStep(layout, old(Model()), vs).next
    {
      if sealed {
        return Ok(());
      }
      var grown := GrowIfNeeded(|vs|);
      if grown.Err? {
        return Err(grown.error);
      }
      if buffer.None? {
        return Err(NullBuffer);
      }
      if buffer.value.Remaining() < |vs| {
        return Err(BufferOverflow);
      }
      buffer := Some(Write(buffer.value, vs));
      outcome := Ok(());
    }

    method RewindBuffer()
      modifies this`buffer
      ensures buffer == if old(buffer).Some? then Some(Rewind(old(buffer).value)) else None
    {
      if buffer.Some? {
        buffer := Some(Rewind(buffer.value));
      }
    }
  }
}
