/** Java's `indexOf` and `lastIndexOf` on arrays and strings: an index, or -1 when absent. */
module SeqSearch {
  /** The first index holding x, or -1. */
  function IndexOf<T(==)>(a: seq<T>, x: T): (r: int)
    ensures -1 <= r < |a|
  {
    if |a| == 0 then -1
    else if a[0] == x then 0
    else
      var k := IndexOf(a[1..], x);
      if k < 0 then -1 else k + 1
  }

  /** The last index holding x, or -1. */
  function LastIndexOf<T(==)>(a: seq<T>, x: T): (r: int)
    ensures -1 <= r < |a|
  {
    if |a| == 0 then -1
    else if a[|a| - 1] == x then |a| - 1
    else LastIndexOf(a[..|a| - 1], x)
  }

  /** IndexOf finds the first occurrence, and -1 exactly when there is none. */
  lemma {:induction false} IndexOfSpec<T>(a: seq<T>, x: T)
    ensures IndexOf(a, x) == -1 <==> x !in a
    ensures IndexOf(a, x) >= 0 ==> a[IndexOf(a, x)] == x && x !in a[..IndexOf(a, x)]
  {
    if |a| > 0 && a[0] != x {
      IndexOfSpec(a[1..], x);
      assert a == [a[0]] + a[1..];
      var k := IndexOf(a[1..], x);
      if k >= 0 {
        assert a[..k + 1] == [a[0]] + a[1..][..k];
      }
    }
  }

  /** LastIndexOf finds the last occurrence, and -1 exactly when there is none. */
  lemma {:induction false} LastIndexOfSpec<T>(a: seq<T>, x: T)
    ensures LastIndexOf(a, x) == -1 <==> x !in a
    ensures LastIndexOf(a, x) >= 0 ==> a[LastIndexOf(a, x)] == x && x !in a[LastIndexOf(a, x) + 1..]
  {
    if |a| > 0 && a[|a| - 1] != x {
      var front := a[..|a| - 1];
      LastIndexOfSpec(front, x);
      assert a == front + [a[|a| - 1]];
      var k := LastIndexOf(front, x);
      if k >= 0 {
        assert a[k + 1..] == front[k + 1..] + [a[|a| - 1]];
      }
    }
  }

  /** An index holding x with no x before it is the first one. */
  lemma IndexOfIsFirst<T>(a: seq<T>, x: T, i: int)
    requires 0 <= i < |a| && a[i] == x && x !in a[..i]
    ensures IndexOf(a, x) == i
  {
    IndexOfSpec(a, x);
  }

  /** An index holding x with no x after it is the last one. */
  lemma LastIndexOfIsLast<T>(a: seq<T>, x: T, i: int)
    requires 0 <= i < |a| && a[i] == x && x !in a[i + 1..]
    ensures LastIndexOf(a, x) == i
  {
    LastIndexOfSpec(a, x);
  }
}
