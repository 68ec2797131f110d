/**
 * An interval tree: a binary search tree ordered by each interval's low end,
 * where every node also records `max`, an upper bound on the high ends in its
 * subtree, so that a stabbing query can skip subtrees that end too early.
 */
module IntervalTree {

  /** IntInterval: the closed range [low, high]. */
  datatype Interval = Interval(low: int, high: int)

  /** IntervalNode: an interval, the max of its subtree and two children; Nil is null. */
  datatype Tree = Nil | Node(interval: Interval, max: int, left: Tree, right: Tree)

  /** The point lies in the interval (both ends included). */
  predicate Stabs(iv: Interval, p: int)
  {
    iv.low <= p <= iv.high
  }

  /** The stored intervals in pre-order: node, then left subtree, then right subtree. */
  function Intervals(t: Tree): seq<Interval>
  {
    if t.Nil? then [] else [t.interval] + Intervals(t.left) + Intervals(t.right)
  }

  /** The stored intervals as a multiset. */
  function Members(t: Tree): multiset<Interval>
  {
    if t.Nil? then multiset{} else multiset{t.interval} + Members(t.left) + Members(t.right)
  }

  /** Binary search order on low: smaller lows to the left, equal or larger lows to the right. */
  ghost predicate Ordered(t: Tree)
  {
    t.Node? ==>
      (forall y | y in Members(t.left) :: y.low < t.interval.low) &&
      (forall y | y in Members(t.right) :: y.low >= t.interval.low) &&
      Ordered(t.left) && Ordered(t.right)
  }

  /** Every node's max bounds the high end of each interval in its subtree. */
  ghost predicate MaxBounds(t: Tree)
  {
    t.Node? ==>
      (forall y | y in Members(t) :: y.high <= t.max) &&
      MaxBounds(t.left) && MaxBounds(t.right)
  }

  /** The reference answer: the intervals of s that contain p, in the order of s. */
  function Filter(s: seq<Interval>, p: int): seq<Interval>
  {
    if s == [] then [] else (if Stabs(s[0], p) then [s[0]] else []) + Filter(s[1..], p)
  }

  /** The pre-order list holds exactly the members. */
  lemma {:induction false} IntervalsAreMembers(t: Tree)
    ensures multiset(Intervals(t)) == Members(t)
  {
    if t.Node? {
      IntervalsAreMembers(t.left);
      IntervalsAreMembers(t.right);
    }
  }

  /** Filter keeps exactly the intervals that contain the point. */
  lemma {:induction false} FilterMembers(s: seq<Interval>, p: int)
    ensures forall y :: y in Filter(s, p) <==> y in s && Stabs(y, p)
  {
    if s != [] {
      FilterMembers(s[1..], p);
      assert s == [s[0]] + s[1..];
    }
  }

  lemma {:induction false} FilterAppend(a: seq<Interval>, b: seq<Interval>, p: int)
    ensures Filter(a + b, p) == Filter(a, p) + Filter(b, p)
  {
    if a == [] {
      assert a + b == b;
    } else {
      assert (a + b)[0] == a[0];
      assert (a + b)[1..] == a[1..] + b;
      FilterAppend(a[1..], b, p);
    }
  }

  lemma FilterOne(x: Interval, p: int)
    ensures Filter([x], p) == if Stabs(x, p) then [x] else []
  {
    assert Filter([x], p) == (if Stabs(x, p) then [x] else []) + Filter([], p);
  }

  /** A list none of whose intervals contains the point filters to nothing. */
  lemma {:induction false} FilterNone(s: seq<Interval>, p: int)
    requires forall y | y in s :: !Stabs(y, p)
    ensures Filter(s, p) == []
  {
    if s != [] {
      assert s[0] in s;
      FilterNone(s[1..], p);
    }
  }

  /**
   * insert(node, interval): descends left when the new low is smaller and
   * right otherwise, attaches a fresh node (max = high) at the empty spot and
   * raises max on the way back up.
   */
  function InsertNode(t: Tree, x: Interval): (r: Tree)
    ensures r.Node? && Members(r) == Members(t) + multiset{x}
  {
    if t.Nil? then
      Node(x, x.high, Nil, Nil)
    else
      var m := if t.max < x.high then x.high else t.max;
      if x.low < t.interval.low then
        Node(t.interval, m, InsertNode(t.left, x), t.right)
      else
        Node(t.interval, m, t.left, InsertNode(t.right, x))
  }

  /** insert keeps the search order on low, sending ties right. */
  lemma {:induction false} InsertKeepsOrder(t: Tree, x: Interval)
    requires Ordered(t)
    ensures Ordered(InsertNode(t, x))
  {
    if t.Node? {
      if x.low < t.interval.low {
        InsertKeepsOrder(t.left, x);
      } else {
        InsertKeepsOrder(t.right, x);
      }
    }
  }

  /** insert keeps every node's max at or above each high end below it. */
  lemma {:induction false} InsertKeepsMaxBounds(t: Tree, x: Interval)
    requires MaxBounds(t)
    ensures MaxBounds(InsertNode(t, x))
  {
    if t.Node? {
      if x.low < t.interval.low {
        InsertKeepsMaxBounds(t.left, x);
      } else {
        InsertKeepsMaxBounds(t.right, x);
      }
    }
  }

  /** search(node, point, results): the matches at the node, then in each child whose max reaches the point. */
  function SearchNode(t: Tree, p: int): seq<Interval>
  {
    if t.Nil? then []
    else
      (if p >= t.interval.low && p <= t.interval.high then [t.interval] else [])
      + (if t.left.Node? && p <= t.left.max then SearchNode(t.left, p) else [])
      + (if t.right.Node? && p <= t.right.max then SearchNode(t.right, p) else [])
  }

  /** Filtering a subtree whose max lies below the point finds nothing. */
  lemma SkipSubtree(t: Tree, p: int)
    requires t.Node? && MaxBounds(t) && t.max < p
    ensures Filter(Intervals(t), p) == []
  {
    IntervalsAreMembers(t);
    forall y | y in Intervals(t)
      ensures !Stabs(y, p)
    {
      assert y in multiset(Intervals(t));
    }
    FilterNone(Intervals(t), p);
  }

  /** The guarded visit of a child finds what filtering its whole subtree finds. */
  lemma {:induction false} SearchChild(c: Tree, p: int)
    requires MaxBounds(c)
    decreases c, 2
    ensures (if c.Node? && p <= c.max then SearchNode(c, p) else []) == Filter(Intervals(c), p)
  {
    if c.Node? {
      if p <= c.max {
        SearchIsFilter(c, p);
      } else {
        SkipSubtree(c, p);
      }
    }
  }

  /** With the max bounds in place, the pruned search returns exactly the stored intervals containing p, in pre-order. */
  lemma {:induction false} SearchIsFilter(t: Tree, p: int)
    requires MaxBounds(t)
    ensures SearchNode(t, p) == Filter(Intervals(t), p)
    decreases t, 1
  {
    if t.Node? {
      SearchChild(t.left, p);
      SearchChild(t.right, p);
      var here, l, r := [t.interval], Intervals(t.left), Intervals(t.right);
      assert Intervals(t) == here + l + r;
      FilterAppend(here + l, r, p);
      FilterAppend(here, l, p);
      FilterOne(t.interval, p);
    }
  }

  /** Searching the empty tree returns the empty list. */
  lemma SearchEmpty(p: int)
    ensures SearchNode(Nil, p) == []
  {
  }

  /** IntervalTree: the root, null for an empty tree. */
  class IntervalTree {
    var root: Tree

    ghost predicate Valid()
      reads this
    {
      Ordered(root) && MaxBounds(root)
    }

    constructor()
      ensures Valid() && Members(root) == multiset{}
    {
      root := Nil;
    }

    /** insert(interval): adds exactly one interval and keeps every other. */
    method Insert(x: Interval)
      requires Valid()
      modifies this
      ensures Valid()
      ensures Members(root) == Members(old(root)) + multiset{x}
    {
      InsertKeepsOrder(root, x);
      InsertKeepsMaxBounds(root, x);
      root := InsertNode(root, x);
    }

    /** search(point): every stored interval containing the point, and no other. */
    method Search(p: int) returns (r: seq<Interval>)
      requires Valid()
      ensures r == Filter(Intervals(root), p)
      ensures forall y :: y in r <==> y in Members(root) && Stabs(y, p)
    {
      r := SearchNode(root, p);
      SearchIsFilter(root, p);
      FilterMembers(Intervals(root), p);
      IntervalsAreMembers(root);
    }
  }
}
