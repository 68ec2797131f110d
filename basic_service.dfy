/** Small helpers: multi-sequence containment, paired-null detection and int clamping. */
module BasicService {
  import opened Wrappers
  import opened JavaInt
  import opened JavaText
  import opened Maths

  /** Some sequence of `chars` occurs in `str`. */
  predicate AnyContained(str: string, chars: seq<string>)
  {
    exists i | 0 <= i < |chars| :: Contains(str, chars[i])
  }

  /**
   * strContains(str, chars...): tries each sequence in order and stops at
   * the first one `str` contains.
   */
  method StrContains(str: string, chars: seq<string>) returns (found: bool)
    ensures found <==> AnyContained(str, chars)
    ensures chars == [] ==> !found
  {
    var i := 0;
    while i < |chars|
      invariant 0 <= i <= |chars|
      invariant forall j | 0 <= j < i :: !Contains(str, chars[j])
    {
      if Contains(str, chars[i]) {
        return true;
      }
      i := i + 1;
    }
    found := false;
  }

  /** A one-character sequence occurs exactly where that character does. */
  lemma ContainsChar(str: string, c: char)
    ensures Contains(str, [c]) <==> exists i | 0 <= i < |str| :: str[i] == c
  {
    if Contains(str, [c]) {
      var i :| 0 <= i <= |str| && OccursAt(str, [c], i);
      assert str[i..i + 1][0] == str[i];
    }
    if exists i | 0 <= i < |str| :: str[i] == c {
      var i :| 0 <= i < |str| && str[i] == c;
      assert str[i..i + 1] == [c];
      assert OccursAt(str, [c], i);
    }
  }

  /** A Pair whose components may be null. */
  datatype Pair<A, B> = Pair(first: Option<A>, second: Option<B>)

  predicate HasNull<A, B>(p: Pair<A, B>)
  {
    p.first.None? || p.second.None?
  }

  /** What anyPairedNulls throws: reading a component of a null element. */
  datatype Thrown = NullPointer

  /**
   * anyPairedNulls over the elements from the front: true at the first pair
   * with a null component, false past the end; a null element reached first
   * throws.
   */
  function PairedNulls<A, B>(v: seq<Option<Pair<A, B>>>): (r: Result<bool, Thrown>)
  {
    if v == [] then Ok(false)
    else if v[0].None? then Err(NullPointer)
    else if HasNull(v[0].value) then Ok(true)
    else PairedNulls(v[1..])
  }

  /** With no null element, the answer is whether some pair has a null component. */
  lemma {:induction false} PairedNullsMeaning<A, B>(v: seq<Option<Pair<A, B>>>)
    requires forall i | 0 <= i < |v| :: v[i].Some?
    ensures PairedNulls(v) == Ok(exists i | 0 <= i < |v| :: HasNull(v[i].value))
  {
    if v != [] && !HasNull(v[0].value) {
      PairedNullsMeaning(v[1..]);
      assert forall i | 1 <= i < |v| :: v[i] == v[1..][i - 1];
    }
  }

  /** anyPairedNulls(v): a null array counts as having nulls. */
  method AnyPairedNulls<A, B>(v: Option<seq<Option<Pair<A, B>>>>) returns (r: Result<bool, Thrown>)
    ensures v.None? ==> r == Ok(true)
    ensures v.Some? ==> r == PairedNulls(v.value)
    ensures v == Some([]) ==> r == Ok(false)
  {
    if v.None? {
      return Ok(true);
    }
    var a := v.value;
    var i := 0;
    while i < |a|
      invariant 0 <= i <= |a|
      invariant PairedNulls(a[i..]) == PairedNulls(a)
    {
      if a[i].None? {
        return Err(NullPointer);
      }
      if HasNull(a[i].value) {
        return Ok(true);
      }
      assert a[i..][1..] == a[i + 1..];
      i := i + 1;
    }
    r := Ok(false);
  }

  /** clampBounds(i): clamping to the whole int range leaves every int as it is. */
  function ClampBounds(i: int32): (r: int32)
    ensures r == i
  {
    ClampInt(i, INT_MIN, INT_MAX)
  }
}
