/**
 * A fixed-capacity ring of bytes: `start` indexes the oldest byte and `sz`
 * counts the bytes held; writing past the end of the array continues at
 * index 0.
 */
module CircularBuffer {
  import opened JavaInt

  /** The capacity the no-argument constructor uses. */
  const DEFAULT_CAPACITY: int32 := 255
  /** The largest capacity modelled: start + sz then never overflows a Java int. */
  const MAX_CAPACITY: int := 0x4000_0000

  /** calc_offset(len_0, sz, buff_len): (sz + len_0) % buff_len in Java int arithmetic. */
  function CalcOffset(base: int32, count: int32, cap: int32): (r: int32)
    requires cap > 0
    ensures Wrap32(count + base) >= 0 ==> 0 <= r < cap
    ensures Wrap32(count + base) < 0 ==> -cap < r <= 0
  {
    Rem(Wrap32(count + base), cap)
  }

  /** calc_offset of a non-negative count from a start inside the ring stays inside the ring. */
  function NextStart(base: int32, count: int32, cap: int32): (r: int32)
    requires cap > 0 && 0 <= base && 0 <= count && base + count <= INT_MAX
    ensures r == CalcOffset(base, count, cap) && 0 <= r < cap
  {
    CalcOffset(base, count, cap)
  }

  /** Inside the ring, calc_offset is the index `count` places after `base`, wrapping once. */
  lemma CalcOffsetWraps(base: int32, count: int32, cap: int32)
    requires 0 < cap <= MAX_CAPACITY && 0 <= base < cap && 0 <= count <= cap
    ensures CalcOffset(base, count, cap) == if base + count < cap then base + count else base + count - cap
  {
    var m := base + count;
    assert Wrap32(m) == m;
    if m < cap {
      assert m == 0 * cap + m;
    } else {
      assert m == 1 * cap + (m - cap);
    }
    ModUnique(m, cap, if m < cap then 0 else 1, if m < cap then m else m - cap);
  }

  /**
   * free(n) as written: the room the code reports at index n. When the data
   * wraps (start >= n with bytes held), it answers n - start, which is
   * negative unless the ring is full.
   */
  function FreeAsWritten(start: int32, sz: int32, cap: int32, n: int32): (r: int)
    ensures start >= n && sz > 0 ==> r == -Free(start, sz, cap, n)
    ensures !(start >= n && sz > 0) ==> r == Free(start, sz, cap, n)
  {
    if start >= n then (if sz > 0 then n - start else cap - n) else cap - n
  }

  /** free(n) as intended: the contiguous room from index n up to the oldest byte or the array's end. */
  function Free(start: int32, sz: int32, cap: int32, n: int32): (r: int)
    ensures 0 <= start <= cap && 0 <= n <= cap ==> 0 <= r <= cap - n
  {
    if start >= n then (if sz > 0 then start - n else cap - n) else cap - n
  }

  /** At the write offset, free is the contiguous room there: zero exactly when the ring is full. */
  lemma FreeAtOffset(start: int32, sz: int32, cap: int32)
    requires 0 < cap <= MAX_CAPACITY && 0 <= start < cap && 0 <= sz <= cap
    ensures var o := CalcOffset(start, sz, cap); var f := Free(start, sz, cap, o);
      0 <= f <= cap - sz && o + f <= cap && (f == 0 <==> sz == cap)
      && (start + sz < cap ==> f == cap - o)
      && (start + sz >= cap ==> o + f == start)
  {
    CalcOffsetWraps(start, sz, cap);
  }

  /** When the oldest byte lies before n, free(n) is the room up to the array's end. */
  lemma FreeBeforeStart(start: int32, sz: int32, cap: int32, n: int32)
    requires start < n
    ensures Free(start, sz, cap, n) == cap - n && FreeAsWritten(start, sz, cap, n) == cap - n
  {
  }

  /**
   * The code as written reports negative room after a drop leaves the data
   * wrapped: a ring of 4 filled and then drained by 2 holds start = 2, sz = 2
   * and writes next at index 0, where free answers -2 instead of 2, and the
   * following array copy of -2 bytes throws.
   */
  lemma FreeAsWrittenNegative()
    ensures CalcOffset(2, 2, 4) == 0
    ensures FreeAsWritten(2, 2, 4, 0) == -2 && Free(2, 2, 4, 0) == 2
  {
    CalcOffsetWraps(2, 2, 4);
  }

  /** Outside a full ring the as-written free is negative exactly where the data wraps. */
  lemma FreeAsWrittenWrong(start: int32, sz: int32, cap: int32)
    requires 0 < cap <= MAX_CAPACITY && 0 <= start < cap && 0 < sz < cap
    ensures var o := CalcOffset(start, sz, cap);
      FreeAsWritten(start, sz, cap, o) < 0 <==> start + sz >= cap
  {
    CalcOffsetWraps(start, sz, cap);
  }

  /** How getRem as written ends: the count left over, or the throw of System.arraycopy after `copied` bytes went in. */
  datatype PushOutcome = Done(rem: int32) | Throws(copied: int)

  /**
   * getRem as written, on the ring's start and size: each round asks the
   * as-written free at the write offset; a negative answer becomes a
   * negative arraycopy length, which throws.
   */
  function GetRemAsWritten(start: int32, sz: int32, cap: int32, rem: int32): (r: PushOutcome)
    requires 0 < cap <= MAX_CAPACITY && 0 <= start < cap && 0 <= sz <= cap && 0 <= rem
    ensures r.Done? ==> 0 <= r.rem <= rem
    ensures r.Throws? ==> 0 <= r.copied <= rem
    decreases rem
  {
    var o := CalcOffset(start, sz, cap);
    var a := FreeAsWritten(start, sz, cap, o);
    if a == 0 then Done(rem)
    else if a < 0 then Throws(0)
    else
      FreeAtOffset(start, sz, cap);
      var copy := if rem <= a then rem else a as int32;
      if rem - copy > 0 then
        match GetRemAsWritten(start, sz + copy, cap, rem - copy)
        case Done(left) => Done(left)
        case Throws(c) => Throws(copy + c)
      else Done(rem - copy)
  }

  /**
   * push as written throws once the write position wraps: with one byte held
   * at index 2 of 4, pushing three bytes copies one, then free answers -2 and
   * the copy of -2 bytes throws; with two bytes held from index 2 even a push
   * of nothing throws, since the loop body runs once.
   */
  lemma PushAsWrittenThrows()
    ensures GetRemAsWritten(2, 1, 4, 3) == Throws(1)
    ensures GetRemAsWritten(2, 2, 4, 0) == Throws(0)
  {
    CalcOffsetWraps(2, 1, 4);
    CalcOffsetWraps(2, 2, 4);
  }

  /** While the bytes fit before the array's end, push as written copies them all, as the corrected push does. */
  lemma PushAsWrittenFitsBeforeEnd(start: int32, sz: int32, cap: int32, rem: int32)
    requires 0 < cap <= MAX_CAPACITY && 0 <= start < cap && 0 <= sz && 0 <= rem && start + sz + rem <= cap
    requires start + sz < cap
    ensures GetRemAsWritten(start, sz, cap, rem) == Done(0)
  {
    CalcOffsetWraps(start, sz, cap);
  }

  /** The sz bytes of a ring array b from index start on, wrapping once at the end. */
  function View(b: seq<bv8>, start: int, sz: int): seq<bv8>
    requires 0 <= start < |b| && 0 <= sz <= |b|
  {
    if start + sz <= |b| then b[start..start + sz] else b[start..] + b[..start + sz - |b|]
  }

  /** Writing a chunk into the free room at the write offset appends it to the view. */
  lemma ViewAppend(before: seq<bv8>, after: seq<bv8>, start: int, sz: int, o: int, chunk: seq<bv8>)
    requires |after| == |before| && 0 <= start < |before| && 0 <= sz && sz + |chunk| <= |before|
    requires o == if start + sz < |before| then start + sz else start + sz - |before|
    requires start + sz < |before| ==> o + |chunk| <= |before|
    requires start + sz >= |before| ==> o + |chunk| <= start
    requires forall k :: 0 <= k < |after| ==> after[k] == if o <= k < o + |chunk| then chunk[k - o] else before[k]
    ensures View(after, start, sz + |chunk|) == View(before, start, sz) + chunk
  {
    var c := |chunk|;
    assert after == before[..o] + chunk + before[o + c..];
    if start + sz < |before| {
      ViewAppendInside(before, after, start, sz, chunk);
    } else {
      ViewAppendWrapped(before, after, start, sz, o, chunk);
    }
  }

  /** The data does not wrap before the write: the chunk goes right after it. */
  lemma ViewAppendInside(before: seq<bv8>, after: seq<bv8>, start: int, sz: int, chunk: seq<bv8>)
    requires 0 <= start < |before| && 0 <= sz && start + sz + |chunk| <= |before|
    requires after == before[..start + sz] + chunk + before[start + sz + |chunk|..]
    ensures View(after, start, sz + |chunk|) == View(before, start, sz) + chunk
  {
    var o := start + sz;
    assert after[start..o] == before[start..o];
    assert after[o..o + |chunk|] == chunk;
    assert after[start..o + |chunk|] == after[start..o] + after[o..o + |chunk|];
  }

  /** The data already wraps (or ends at the last byte): the chunk goes at the front, before `start`. */
  lemma ViewAppendWrapped(before: seq<bv8>, after: seq<bv8>, start: int, sz: int, o: int, chunk: seq<bv8>)
    requires 0 <= start < |before| && sz + |chunk| <= |before|
    requires o == start + sz - |before| && 0 <= o && o + |chunk| <= start
    requires after == before[..o] + chunk + before[o + |chunk|..]
    ensures View(after, start, sz + |chunk|) == View(before, start, sz) + chunk
  {
    var c := |chunk|;
    ViewWrappedForm(before, start, sz);
    ViewWrappedForm(after, start, sz + c);
    AfterSlices(before, after, start, o, chunk);
  }

  /** Once the data reaches the end of the buffer, the view is the tail from `start` then the head. */
  lemma ViewWrappedForm(b: seq<bv8>, start: int, sz: int)
    requires 0 <= start < |b| && 0 <= sz <= |b| && start + sz >= |b|
    ensures View(b, start, sz) == b[start..] + b[..start + sz - |b|]
  {
    if start + sz == |b| {
      assert b[..0] == [];
    }
  }

  lemma SliceJoin(s: seq<bv8>, i: int, j: int, k: int)
    requires 0 <= i <= j <= k <= |s|
    ensures s[i..k] == s[i..j] + s[j..k]
  {
  }

  lemma AfterSlices(before: seq<bv8>, after: seq<bv8>, start: int, o: int, chunk: seq<bv8>)
    requires 0 <= o && o + |chunk| <= start < |before|
    requires after == before[..o] + chunk + before[o + |chunk|..]
    ensures after[start..] == before[start..]
    ensures after[..o + |chunk|] == before[..o] + chunk
  {
  }

  class CircularBuffer {
    const buffer: array<bv8>
    var start: int32
    var sz: int32

    ghost predicate Valid()
      reads this
    {
      0 < buffer.Length <= MAX_CAPACITY && 0 <= start < buffer.Length && 0 <= sz <= buffer.Length
    }

    /** The bytes held, oldest first. */
    ghost function Contents(): seq<bv8>
      reads this, buffer
      requires Valid()
    {
      View(buffer[..], start, sz)
    }

    constructor (initSize: int32)
      requires 0 < initSize <= MAX_CAPACITY
      ensures Valid() && fresh(buffer) && buffer.Length == initSize && Contents() == []
    {
      buffer := new bv8[initSize];
      start, sz := 0, 0;
    }

    constructor Default()
      ensures Valid() && fresh(buffer) && buffer.Length == DEFAULT_CAPACITY as int && Contents() == []
    {
      buffer := new bv8[DEFAULT_CAPACITY];
      start, sz := 0, 0;
    }

    function UsedSize(): (r: int32)
      reads this
      requires Valid()
      ensures r == |Contents()|
    {
      sz
    }

    function TotalSize(): int32
      reads this
      requires Valid()
    {
      buffer.Length as int32
    }

    /** freeSize: capacity minus the bytes held. */
    function FreeSize(): (r: int32)
      reads this
      requires Valid()
      ensures r >= 0 && r + |Contents()| == buffer.Length
    {
      TotalSize() - UsedSize()
    }

    /** offset(): where the next byte goes. */
    function Offset(): (r: int32)
      reads this
      requires Valid()
      ensures 0 <= r < buffer.Length
      ensures r == if start + sz < buffer.Length then start + sz else start + sz - buffer.Length
    {
      CalcOffsetWraps(start, sz, buffer.Length as int32);
      CalcOffset(start, sz, buffer.Length as int32)
    }

    /** overflows(n): n bytes do not fit between the write offset and the array's end. */
    function Overflows(n: int32): (r: bool)
      reads this
      requires Valid()
      ensures Offset() + n <= INT_MAX ==> (r <==> n > buffer.Length - Offset())
    {
      Wrap32(Offset() + n) > buffer.Length
    }

    /**
     * free(n) with the corrected wrap case. At the write offset it is the
     * contiguous room there, and zero exactly when the ring is full.
     */
    function FreeAt(n: int32): (r: int)
      reads this
      requires Valid()
      ensures n == Offset() ==> 0 <= r <= buffer.Length - sz && (r == 0 <==> sz == buffer.Length)
      ensures n == Offset() ==> (start + sz < buffer.Length ==> n + r <= buffer.Length)
      ensures n == Offset() ==> (start + sz >= buffer.Length ==> n + r == start)
    {
      FreeAtOffset(start, sz, buffer.Length as int32);
      Free(start, sz, buffer.Length as int32, n)
    }

    method Init()
      requires Valid()
      modifies this
      ensures Valid() && start == 0 && Contents() == []
    {
      start := 0;
      sz := 0;
    }

    /** drop(n): forgets the n oldest bytes (all of them when fewer are held). */
    method Drop(elementsCount: int32)
      requires Valid() && elementsCount >= 0
      modifies this
      ensures Valid()
      ensures sz == old(sz) - Min(elementsCount, old(sz))
      ensures Contents() == old(Contents())[Min(elementsCount, old(sz))..]
    {
      var t := Min(elementsCount, sz);
      var sz1 := sz - t;
      var diff := sz - sz1;
      ghost var before := Contents();
      CalcOffsetWraps(start, diff, buffer.Length as int32);
      start := CalcOffset(start, diff, buffer.Length as int32);
      sz := sz1;
      DropContents(before, old(start), t);
    }

    lemma DropContents(before: seq<bv8>, oldStart: int32, t: int)
      requires Valid() && 0 <= oldStart < buffer.Length && 0 <= t && sz + t <= buffer.Length
      requires start == if oldStart + t < buffer.Length then oldStart + t else oldStart + t - buffer.Length
      requires before == if oldStart + sz + t <= buffer.Length then buffer[oldStart..oldStart + sz + t]
        else buffer[oldStart..] + buffer[..oldStart + sz + t - buffer.Length]
      ensures Contents() == before[t..]
    {
      var n := buffer.Length;
      if oldStart + sz + t > n && oldStart + t < n {
        assert before[t..] == buffer[oldStart + t..] + buffer[..oldStart + sz + t - n];
      }
    }

    /** next(n): counts n more bytes as held; past capacity the oldest bytes are overwritten. */
    method Next(n: int32)
      requires Valid() && n >= 0 && sz + n <= INT_MAX
      modifies this
      ensures Valid()
      ensures sz == Min(old(sz) + n, buffer.Length)
      ensures start == CalcOffset(old(start), Max(0, old(sz) + n - buffer.Length), buffer.Length as int32)
      ensures old(sz) + n <= buffer.Length ==> start == old(start)
    {
      var sz1 := sz + n;
      var overflow := 0;
      if sz1 > buffer.Length {
        sz := buffer.Length as int32;
        overflow := sz1 - buffer.Length;
      } else {
        sz := sz1;
      }
      if overflow == 0 {
        CalcOffsetWraps(start, 0, buffer.Length as int32);
      }
      start := NextStart(start, overflow, buffer.Length as int32);
    }

    /** The array copy of one chunk followed by next(copy), with the chunk inside the free room. */
    method AppendChunk(data: array<bv8>, off: int, copy: int32)
      requires Valid() && data != buffer
      requires 0 <= off && 0 <= copy && off + copy <= data.Length
      requires copy <= FreeAt(Offset())
      modifies this, buffer
      ensures Valid() && start == old(start) && sz == old(sz) + copy
      ensures Contents() == old(Contents()) + data[off..off + copy]
    {
      var o := Offset();
      ghost var before := buffer[..];
      forall j | 0 <= j < copy {
        buffer[o + j] := data[off + j];
      }
      ViewAppend(before, buffer[..], start, sz, o, data[off..off + copy]);
      Next(copy);
    }

    /**
     * One round of getRem: the room a at the write offset and, when there is
     * room, the array copy of min(rem, a) bytes there followed by next.
     */
    method PushChunk(data: array<bv8>, off: int, rem: int32) returns (a: int, copy: int32)
      requires Valid() && data != buffer
      requires 0 <= off && 0 <= rem && off + rem <= data.Length
      modifies this, buffer
      ensures Valid() && 0 <= copy <= rem && sz == old(sz) + copy
      ensures a == 0 <==> old(sz) == buffer.Length
      ensures a == 0 ==> copy == 0
      ensures a != 0 && rem > 0 ==> copy > 0
      ensures Contents() == old(Contents()) + data[off..off + copy]
    {
      var offSet := Offset();
      a := FreeAt(offSet);
      if a == 0 {
        copy := 0;
        assert data[off..off] == [];
        return;
      }
      copy := if rem <= a then rem else a as int32;
      AppendChunk(data, off, copy);
    }

    /** push(data, i, len): copies as many bytes as fit and returns how many it copied. */
    method Push(data: array<bv8>, i: int32, len: int32) returns (written: int32)
      requires Valid() && data != buffer
      requires 0 <= i && 0 <= len && i + len <= data.Length
      modifies this, buffer
      ensures Valid()
      ensures written == Min(len, old(FreeSize()))
      ensures Contents() == old(Contents()) + data[i..i + written]
    {
      var rem := GetRem(data, len, i);
      written := len - rem;
    }

    /**
     * getRem(data, rem, off): copies chunk by chunk until nothing remains or
     * the ring is full, and returns how many bytes were left over.
     */
    method GetRem(data: array<bv8>, count: int32, from: int32) returns (rem: int32)
      requires Valid() && data != buffer
      requires 0 <= from && 0 <= count && from + count <= data.Length
      modifies this, buffer
      ensures Valid() && 0 <= rem <= count
      ensures sz == old(sz) + (count - rem) && (rem > 0 ==> sz == buffer.Length)
      ensures Contents() == old(Contents()) + data[from..from + (count - rem)]
    {
      ghost var init, used := Contents(), sz;
      rem := count;
      var off := from;
      var first := true;
      while first || rem > 0
        invariant Valid()
        invariant 0 <= rem <= count && off == from + (count - rem)
        invariant first ==> rem == count
        invariant Contents() == init + data[from..off]
        invariant sz == used + (off - from)
        decreases rem, if first then 1 else 0
      {
        first := false;
        var a;
        a, off, rem := PushRound(data, from, off, rem, init);
        if a == 0 {
          break;
        }
      }
    }

    /** One turn of getRem's loop, stated against the bytes copied since the loop began at `from`. */
    method PushRound(data: array<bv8>, from: int, off: int, rem: int32, ghost init: seq<bv8>)
      returns (a: int, off': int, rem': int32)
      requires Valid() && data != buffer
      requires 0 <= from <= off && 0 <= rem && off + rem <= data.Length
      requires Contents() == init + data[from..off]
      modifies this, buffer
      ensures Valid() && 0 <= rem' <= rem && off' == off + (rem - rem') && sz == old(sz) + (rem - rem')
      ensures Contents() == init + data[from..off']
      ensures a == 0 <==> old(sz) == buffer.Length
      ensures a == 0 ==> rem' == rem
      ensures a != 0 && rem > 0 ==> rem' < rem
    {
      var copy;
      a, copy := PushChunk(data, off, rem);
      SliceJoin(data[..], from, off, off + copy);
      rem' := rem - copy;
      off' := off + copy;
    }
  }
}
