/**
 * JOGL's GLStateTracker: a per-context shadow of the client pixel-store
 * state (glPixelStorei), a push/pop attribute stack, and the blending
 * states. The numeric GL enumerants are the ones the OpenGL specification
 * assigns.
 */
module GLStateTracker {
  import opened JavaInt
  import opened Wrappers

  /** GL_CLIENT_PIXEL_STORE_BIT, the only attribute group pushAttrib saves. */
  const GL_CLIENT_PIXEL_STORE_BIT: int32 := 0x1
  /** The depth the stack is created with (MIN_CLIENT_ATTRIB_STACK_DEPTH). */
  const MIN_CLIENT_ATTRIB_STACK_DEPTH: nat := 16

  const GL_FALSE: int32 := 0
  const GL_ZERO: int32 := 0
  const GL_ONE: int32 := 1
  const GL_FUNC_ADD: int32 := 0x8006

  const GL_UNPACK_SWAP_BYTES: int32 := 0x0CF0
  const GL_UNPACK_LSB_FIRST: int32 := 0x0CF1
  const GL_UNPACK_ROW_LENGTH: int32 := 0x0CF2
  const GL_UNPACK_SKIP_ROWS: int32 := 0x0CF3
  const GL_UNPACK_SKIP_PIXELS: int32 := 0x0CF4
  const GL_UNPACK_ALIGNMENT: int32 := 0x0CF5
  const GL_PACK_SWAP_BYTES: int32 := 0x0D00
  const GL_PACK_LSB_FIRST: int32 := 0x0D01
  const GL_PACK_ROW_LENGTH: int32 := 0x0D02
  const GL_PACK_SKIP_ROWS: int32 := 0x0D03
  const GL_PACK_SKIP_PIXELS: int32 := 0x0D04
  const GL_PACK_ALIGNMENT: int32 := 0x0D05
  const GL_PACK_SKIP_IMAGES: int32 := 0x806B
  const GL_PACK_IMAGE_HEIGHT: int32 := 0x806C
  const GL_UNPACK_SKIP_IMAGES: int32 := 0x806D
  const GL_UNPACK_IMAGE_HEIGHT: int32 := 0x806E

  /** The value the pixel-state hash map answers for a missing key: 0xFFFFFFFF as a Java int. */
  const KEY_NOT_FOUND: int32 := -1

  type PixelStates = map<int32, int32>

  /** PixelStateMap.clearStates: the sixteen OpenGL pixel-store defaults, and nothing else. */
  const DEFAULT_PIXEL_STATES: PixelStates := map[
    GL_PACK_ALIGNMENT := 4, GL_PACK_SWAP_BYTES := GL_FALSE, GL_PACK_LSB_FIRST := GL_FALSE,
    GL_PACK_ROW_LENGTH := 0, GL_PACK_SKIP_ROWS := 0, GL_PACK_SKIP_PIXELS := 0,
    GL_PACK_IMAGE_HEIGHT := 0, GL_PACK_SKIP_IMAGES := 0,
    GL_UNPACK_ALIGNMENT := 4, GL_UNPACK_SWAP_BYTES := GL_FALSE, GL_UNPACK_LSB_FIRST := GL_FALSE,
    GL_UNPACK_ROW_LENGTH := 0, GL_UNPACK_SKIP_ROWS := 0, GL_UNPACK_SKIP_PIXELS := 0,
    GL_UNPACK_IMAGE_HEIGHT := 0, GL_UNPACK_SKIP_IMAGES := 0]

  /** The pixel-store names in increasing order of their enumerant. */
  const PIXEL_STORE_NAMES: seq<int32> := [
    GL_UNPACK_SWAP_BYTES, GL_UNPACK_LSB_FIRST, GL_UNPACK_ROW_LENGTH, GL_UNPACK_SKIP_ROWS,
    GL_UNPACK_SKIP_PIXELS, GL_UNPACK_ALIGNMENT, GL_PACK_SWAP_BYTES, GL_PACK_LSB_FIRST,
    GL_PACK_ROW_LENGTH, GL_PACK_SKIP_ROWS, GL_PACK_SKIP_PIXELS, GL_PACK_ALIGNMENT,
    GL_PACK_SKIP_IMAGES, GL_PACK_IMAGE_HEIGHT, GL_UNPACK_SKIP_IMAGES, GL_UNPACK_IMAGE_HEIGHT]

  /** The default map holds sixteen entries, one per pixel-store name. */
  lemma DefaultPixelStatesCount()
    ensures |DEFAULT_PIXEL_STATES.Keys| == 16
  {
    var ks := set i | 0 <= i < 16 :: PIXEL_STORE_NAMES[i];
    forall k | k in DEFAULT_PIXEL_STATES ensures k in ks {
      var i := if k < 0x0D00 then k - 0x0CF0 else if k < 0x806B then k - 0x0D00 + 6 else k - 0x806B + 12;
      assert PIXEL_STORE_NAMES[i] == k;
    }
    assert DEFAULT_PIXEL_STATES.Keys == ks;
    SortedKeysCount(PIXEL_STORE_NAMES);
  }

  /** Both alignments default to 4 and every other pixel-store value to 0. */
  lemma DefaultPixelStatesValues()
    ensures DEFAULT_PIXEL_STATES[GL_PACK_ALIGNMENT] == 4 && DEFAULT_PIXEL_STATES[GL_UNPACK_ALIGNMENT] == 4
    ensures forall k :: k in DEFAULT_PIXEL_STATES && k != GL_PACK_ALIGNMENT && k != GL_UNPACK_ALIGNMENT ==>
      DEFAULT_PIXEL_STATES[k] == 0
  {
  }

  /** Strictly increasing keys are as many distinct values as there are keys. */
  lemma {:induction false} SortedKeysCount(keys: seq<int32>)
    requires forall i, j :: 0 <= i < j < |keys| ==> keys[i] < keys[j]
    ensures |set i | 0 <= i < |keys| :: keys[i]| == |keys|
  {
    if |keys| > 0 {
      var p := keys[..|keys| - 1];
      SortedKeysCount(p);
      var s := set i | 0 <= i < |keys| :: keys[i];
      var t := set i | 0 <= i < |p| :: p[i];
      assert s == t + {keys[|keys| - 1]} by {
        forall x | x in s ensures x in t + {keys[|keys| - 1]} {
          var i :| 0 <= i < |keys| && keys[i] == x;
          if i < |p| { assert p[i] == x; }
        }
      }
      assert keys[|keys| - 1] !in t;
    }
  }

  /** IntIntHashMap.get with 0xFFFFFFFF as the value for a missing key. */
  function Get(states: PixelStates, pname: int32): int32
  {
    if pname in states then states[pname] else KEY_NOT_FOUND
  }

  /** The state pushAttrib saves: a deep copy of the pixel states, or an empty slot. */
  type SavedState = Option<PixelStates>

  /** The tracker's pixel-store part as a value: what push, pop and setInt work on. */
  datatype Snapshot = Snapshot(enabled: bool, pixels: PixelStates, stack: seq<SavedState>)

  /** getInt: found exactly when tracking is on and the map holds a value other than the not-found one. */
  function Lookup(s: Snapshot, pname: int32): (r: Option<int32>)
    ensures r.Some? <==> s.enabled && pname in s.pixels && s.pixels[pname] != KEY_NOT_FOUND
    ensures r.Some? ==> r.value == s.pixels[pname]
  {
    if s.enabled && Get(s.pixels, pname) != KEY_NOT_FOUND then Some(Get(s.pixels, pname)) else None
  }

  /** setInt: stores the value only while tracking is on. */
  function Store(s: Snapshot, pname: int32, param: int32): Snapshot
  {
    if s.enabled then s.(pixels := s.pixels[pname := param]) else s
  }

  /** pushAttrib: while tracking is on, pushes a copy of the pixel states, or an empty slot without the pixel-store bit. */
  function Push(s: Snapshot, flags: int32): Snapshot
  {
    if !s.enabled then s
    else
      var slot := if flags % 2 != 0 then Some(s.pixels) else None;
      s.(stack := s.stack + [slot])
  }

  /** popAttrib: fails on an empty stack, otherwise drops the top and restores the pixel states it holds. */
  function Pop(s: Snapshot): Result<Snapshot, string>
  {
    if !s.enabled then Ok(s)
    else if |s.stack| == 0 then Err("stack contains no elements")
    else
      var top := s.stack[|s.stack| - 1];
      var rest := s.(stack := s.stack[..|s.stack| - 1]);
      Ok(if top.Some? then rest.(pixels := top.value) else rest)
  }

  /** setInt changes only the named entry, and getInt then reads the stored value back. */
  lemma StoreThenLookup(s: Snapshot, pname: int32, param: int32, other: int32)
    requires s.enabled && param != KEY_NOT_FOUND && other != pname
    ensures Lookup(Store(s, pname, param), pname) == Some(param)
    ensures Lookup(Store(s, pname, param), other) == Lookup(s, other)
  {
  }

  /** With tracking off, setInt changes nothing and getInt always asks GL. */
  lemma DisabledIsInert(s: Snapshot, pname: int32, param: int32, flags: int32)
    requires !s.enabled
    ensures Store(s, pname, param) == s && Push(s, flags) == s && Pop(s) == Ok(s)
    ensures Lookup(s, pname) == None
  {
  }

  /** pushAttrib grows the stack by one and saves the pixel states exactly when the pixel-store bit is set. */
  lemma PushGrows(s: Snapshot, flags: int32)
    requires s.enabled
    ensures |Push(s, flags).stack| == |s.stack| + 1
    ensures Push(s, flags).stack[|s.stack|].Some? <==> flags % 2 == 1
    ensures Push(s, flags).pixels == s.pixels
  {
  }

  /** A pop undoes the push before it: the stack and the pixel states are as they were before the push. */
  lemma PushPopRestores(s: Snapshot, flags: int32)
    requires s.enabled
    ensures Pop(Push(s, flags)) == Ok(s)
  {
    assert Push(s, flags).stack[..|s.stack|] == s.stack;
  }

  /** Pushing the pixel-store bit, setting values and popping restores every value from before the push. */
  lemma {:induction false} PushStoresPopRestores(s: Snapshot, sets: seq<(int32, int32)>)
    requires s.enabled
    ensures Pop(StoreAll(Push(s, GL_CLIENT_PIXEL_STORE_BIT), sets)) == Ok(s)
  {
    var pushed := Push(s, GL_CLIENT_PIXEL_STORE_BIT);
    StoreAllKeepsStack(pushed, sets);
    assert pushed.stack[..|s.stack|] == s.stack;
  }

  /** A run of setInt calls, in order. */
  function StoreAll(s: Snapshot, sets: seq<(int32, int32)>): Snapshot
    decreases |sets|
  {
    if |sets| == 0 then s else StoreAll(Store(s, sets[0].0, sets[0].1), sets[1..])
  }

  lemma {:induction false} StoreAllKeepsStack(s: Snapshot, sets: seq<(int32, int32)>)
    ensures StoreAll(s, sets).stack == s.stack && StoreAll(s, sets).enabled == s.enabled
    decreases |sets|
  {
    if |sets| > 0 {
      StoreAllKeepsStack(Store(s, sets[0].0, sets[0].1), sets[1..]);
    }
  }

  /** A pop on an empty stack fails while tracking is on. */
  lemma PopEmptyFails(s: Snapshot)
    requires s.enabled && s.stack == []
    ensures Pop(s).Err?
  {
  }

  /**
   * Blending function and equation for one draw buffer. The factors and
   * equations are GL enumerants; the defaults are src = ONE, dst = ZERO and
   * the equation FUNC_ADD.
   */
  class BlendFuncEq {
    var dstAlpha: int32
    var dstRgb: int32
    var srcAlpha: int32
    var srcRgb: int32
    var eqAlpha: int32
    var eqRgb: int32

    predicate IsDefault()
      reads this
    {
      dstAlpha == GL_ZERO && dstRgb == GL_ZERO && srcAlpha == GL_ONE && srcRgb == GL_ONE
      && eqAlpha == GL_FUNC_ADD && eqRgb == GL_FUNC_ADD
    }

    /** The six values, for comparing two instances. */
    function Values(): (int32, int32, int32, int32, int32, int32)
      reads this
    {
      (dstAlpha, dstRgb, srcAlpha, srcRgb, eqAlpha, eqRgb)
    }

    constructor ()
      ensures IsDefault()
    {
      dstAlpha, dstRgb := GL_ZERO, GL_ZERO;
      srcAlpha, srcRgb := GL_ONE, GL_ONE;
      eqAlpha, eqRgb := GL_FUNC_ADD, GL_FUNC_ADD;
    }

    /** Copy constructor. */
    constructor Copy(src: BlendFuncEq)
      ensures Values() == src.Values()
    {
      dstAlpha, dstRgb := src.dstAlpha, src.dstRgb;
      srcAlpha, srcRgb := src.srcAlpha, src.srcRgb;
      eqAlpha, eqRgb := src.eqAlpha, src.eqRgb;
    }

    method ClearStates()
      modifies this
      ensures IsDefault()
    {
      dstAlpha, dstRgb := GL_ZERO, GL_ZERO;
      srcAlpha, srcRgb := GL_ONE, GL_ONE;
      eqAlpha, eqRgb := GL_FUNC_ADD, GL_FUNC_ADD;
    }

    method Set(src: BlendFuncEq)
      modifies this
      ensures Values() == old(src.Values())
    {
      dstAlpha, dstRgb := src.dstAlpha, src.dstRgb;
      srcAlpha, srcRgb := src.srcAlpha, src.srcRgb;
      eqAlpha, eqRgb := src.eqAlpha, src.eqRgb;
    }
  }

  /** The global blending state: the blend colour, the enable flag and one BlendFuncEq. */
  class BlendGlobal {
    var r: real
    var g: real
    var b: real
    var a: real
    var enabled: bool
    var state: BlendFuncEq

    predicate IsDefault()
      reads this, state
    {
      r == 0.0 && g == 0.0 && b == 0.0 && a == 0.0 && !enabled && state.IsDefault()
    }

    constructor ()
      ensures IsDefault() && fresh(state)
    {
      state := new BlendFuncEq();
      r, g, b, a := 0.0, 0.0, 0.0, 0.0;
      enabled := false;
    }

    method ClearStates()
      modifies this, state
      ensures state == old(state) && IsDefault()
    {
      r, g, b, a := 0.0, 0.0, 0.0, 0.0;
      enabled := false;
      state.ClearStates();
    }

    method Set(src: BlendGlobal)
      modifies this, state
      ensures state == old(state)
      ensures (r, g, b, a, enabled) == old((src.r, src.g, src.b, src.a, src.enabled))
      ensures state.Values() == old(src.state.Values())
    {
      r, g, b, a := src.r, src.g, src.b, src.a;
      enabled := src.enabled;
      state.Set(src.state);
    }
  }

  /** The per-context tracker. */
  class Tracker {
    var enabled: bool
    var pixels: PixelStates
    var stack: seq<SavedState>
    var blendGlobal: BlendGlobal
    var blendPerOutput: seq<BlendFuncEq>

    function Model(): Snapshot
      reads this
    {
      Snapshot(enabled, pixels, stack)
    }

    constructor ()
      ensures enabled && pixels == DEFAULT_PIXEL_STATES && stack == [] && blendPerOutput == []
      ensures fresh(blendGlobal) && fresh(blendGlobal.state) && blendGlobal.IsDefault()
    {
      enabled := true;
      pixels := DEFAULT_PIXEL_STATES;
      stack := [];
      blendGlobal := new BlendGlobal();
      blendPerOutput := [];
    }

    method SetEnabled(on: bool)
      modifies this`enabled
      ensures enabled == on
    {
      enabled := on;
    }

    /** getInt: the tracked value, or None when the caller has to query GL. */
    function GetInt(pname: int32): (r: Option<int32>)
      reads this
      ensures r == Lookup(Model(), pname)
    {
      if enabled && Get(pixels, pname) != KEY_NOT_FOUND then Some(Get(pixels, pname)) else None
    }

    method SetInt(pname: int32, param: int32)
      modifies this`pixels
      ensures Model() == Store(old(Model()), pname, param)
    {
      if enabled {
        pixels := pixels[pname := param];
      }
    }

    method PushAttrib(flags: int32)
      modifies this`stack
      ensures Model() == Push(old(Model()), flags)
    {
      if enabled {
        var slot: SavedState := None;
        if flags % 2 != 0 {
          slot := Some(pixels);
        }
        stack := stack + [slot];
      }
    }

    /** popAttrib; a GLException becomes Err, and the tracker is then unchanged. */
    method PopAttrib() returns (outcome: Result<(), string>)
      modifies this`pixels, this`stack
      ensures Pop(old(Model())).Ok? <==> outcome.Ok?
      ensures Model() == if outcome.Ok? then Pop(old(Model())).value else old(Model())
    {
      outcome := Ok(());
      if enabled {
        if |stack| == 0 {
          return Err("stack contains no elements");
        }
        var top := stack[|stack| - 1];
        stack := stack[..|stack| - 1];
        if top.Some? {
          pixels := top.value;
        }
      }
    }

    /** clearStates: an empty stack, the default pixel states and blending, no per-output blending. */
    method ClearStates()
      modifies this, blendGlobal, blendGlobal.state
      ensures enabled == old(enabled) && blendGlobal == old(blendGlobal)
      ensures stack == [] && pixels == DEFAULT_PIXEL_STATES && blendPerOutput == []
      ensures blendGlobal.IsDefault()
    {
      stack := [];
      pixels := DEFAULT_PIXEL_STATES;
      blendGlobal.ClearStates();
      blendPerOutput := [];
    }
  }
}
