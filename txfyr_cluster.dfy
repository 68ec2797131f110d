/**
 * TxfyrCluster: a named atlas of the given size holding a set of shards,
 * kept in the order they were given, without duplicates, and each checked
 * against the cluster's bounds.
 */
module TxfyrClusters {
  import opened Wrappers
  import opened JavaInt
  import opened TxfyrShards

  /** Why validate() throws InvalidTxfyrShardException. */
  datatype ShardError =
    | NullShard
    | XBeyondWidth(key: string)
    | YBeyondHeight(key: string)
    | AreaBeyondCluster(key: string)

  /** The items of `s` in order of first occurrence: what copying into a LinkedHashSet keeps. */
  function Dedup<T(==)>(s: seq<T>): (d: seq<T>)
    ensures |d| <= |s|
    ensures forall x | x in s :: x in d
    ensures forall x | x in d :: x in s
  {
    if s == [] then []
    else
      var d := Dedup(s[..|s| - 1]);
      if s[|s| - 1] in d then d else d + [s[|s| - 1]]
  }

  predicate NoDuplicates<T(==)>(s: seq<T>)
  {
    forall i, j | 0 <= i < j < |s| :: s[i] != s[j]
  }

  /** The copy holds each item once. */
  lemma {:induction false} DedupNoDuplicates<T>(s: seq<T>)
    ensures NoDuplicates(Dedup(s))
  {
    if s != [] {
      DedupNoDuplicates(s[..|s| - 1]);
    }
  }

  /** A collection with no duplicates is copied as it is, in the same order. */
  lemma {:induction false} DedupKeepsOrder<T>(s: seq<T>)
    requires NoDuplicates(s)
    ensures Dedup(s) == s
  {
    if s != [] {
      var p := s[..|s| - 1];
      assert NoDuplicates(p);
      DedupKeepsOrder(p);
      assert s[|s| - 1] !in p;
      assert p + [s[|s| - 1]] == s;
    }
  }

  /** Copying twice is copying once. */
  lemma DedupIdempotent<T>(s: seq<T>)
    ensures Dedup(Dedup(s)) == Dedup(s)
  {
    DedupNoDuplicates(s);
    DedupKeepsOrder(Dedup(s));
  }

  /**
   * The check validate() makes of one shard, in its order: null, then x
   * beyond the width, y beyond the height, then an area beyond the
   * cluster's (Java int products on both sides).
   */
  function ShardProblem(width: int32, height: int32, s: Option<TxfyrShard>): (e: Option<ShardError>)
    ensures s.None? ==> e == Some(NullShard)
    ensures s.Some? && (s.value.x > width || s.value.y > height) ==> e.Some?
    ensures e.None? <==>
      s.Some? && s.value.x <= width && s.value.y <= height && Area(s.value) <= Wrap32(width * height)
  {
    match s
    case None => Some(NullShard)
    case Some(shard) =>
      if shard.x > width then Some(XBeyondWidth(shard.key))
      else if shard.y > height then Some(YBeyondHeight(shard.key))
      else if Area(shard) > Wrap32(width * height) then Some(AreaBeyondCluster(shard.key))
      else None
  }

  /** What validate() throws for: the first shard, in iteration order, with a problem. */
  function FirstProblem(width: int32, height: int32, shards: seq<Option<TxfyrShard>>): (e: Option<ShardError>)
    ensures e.None? <==> forall i | 0 <= i < |shards| :: ShardProblem(width, height, shards[i]).None?
    ensures e.Some? ==> exists i | 0 <= i < |shards| :: ShardProblem(width, height, shards[i]) == e
  {
    if shards == [] then None
    else
      match ShardProblem(width, height, shards[0])
      case Some(p) => Some(p)
      case None =>
        var rest := FirstProblem(width, height, shards[1..]);
        assert forall i | 1 <= i < |shards| :: shards[i] == shards[1..][i - 1];
        rest
  }

  /** A shard placed at the far corner and as large as the cluster passes: the bounds are inclusive. */
  lemma BoundaryShardPasses(width: int32, height: int32, key: string)
    requires width > 0 && height > 0
    ensures ShardProblem(width, height, Some(TxfyrShard(key, width, height, width, height))).None?
  {
  }

  class TxfyrCluster {
    const name: string
    const width: int32
    const height: int32
    /** The LinkedHashSet of shards, in insertion order: what iterator() and forEach walk. */
    const shards: seq<Option<TxfyrShard>>

    constructor Init(key: string, width: int32, height: int32, shards: seq<Option<TxfyrShard>>)
      ensures this.name == key && this.width == width && this.height == height && this.shards == shards
    {
      this.name, this.width, this.height, this.shards := key, width, height, shards;
    }

    /**
     * new TxfyrCluster(key, width, height, source, shards): the asserts as
     * preconditions; the shards are copied without duplicates, then
     * validate() runs and may throw.
     */
    static method New(key: string, width: int32, height: int32, given: seq<Option<TxfyrShard>>)
      returns (r: Result<TxfyrCluster, ShardError>)
      requires width > 0 && height > 0
      requires |given| > 0
      ensures r.Err? <==> FirstProblem(width, height, Dedup(given)).Some?
      ensures r.Err? ==> r.error == FirstProblem(width, height, Dedup(given)).value
      ensures r.Ok? ==> fresh(r.value) && r.value.name == key && r.value.width == width && r.value.height == height
      ensures r.Ok? ==> r.value.shards == Dedup(given) && |r.value.shards| > 0 && NoDuplicates(r.value.shards)
      ensures r.Ok? ==> forall i | 0 <= i < |r.value.shards| :: ShardProblem(width, height, r.value.shards[i]).None?
    {
      var copy := CopyToSet(given);
      DedupNoDuplicates(given);
      var cluster := new TxfyrCluster.Init(key, width, height, copy);
      var checked := cluster.Validate();
      if checked.Err? {
        return Err(checked.error);
      }
      r := Ok(cluster);
    }

    /** validate(): throws for the first shard, in iteration order, that does not fit. */
    method Validate() returns (r: Result<(), ShardError>)
      ensures r.Err? <==> FirstProblem(width, height, shards).Some?
      ensures r.Err? ==> r.error == FirstProblem(width, height, shards).value
    {
      var i := 0;
      while i < |shards|
        invariant 0 <= i <= |shards|
        invariant FirstProblem(width, height, shards[i..]) == FirstProblem(width, height, shards)
      {
        var p := ShardProblem(width, height, shards[i]);
        if p.Some? {
          return Err(p.value);
        }
        assert shards[i..][1..] == shards[i + 1..];
        i := i + 1;
      }
      r := Ok(());
    }
  }

  /** new LinkedHashSet<>(shards): each shard once, in the order first given. */
  method CopyToSet<T(==)>(given: seq<T>) returns (copy: seq<T>)
    ensures copy == Dedup(given)
  {
    copy := [];
    var i := 0;
    while i < |given|
      invariant 0 <= i <= |given|
      invariant copy == Dedup(given[..i])
    {
      assert given[..i + 1][..i] == given[..i];
      if given[i] !in copy {
        copy := copy + [given[i]];
      }
      i := i + 1;
    }
    assert given[..i] == given;
  }
}
