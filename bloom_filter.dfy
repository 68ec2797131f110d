/**
 * A Bloom filter: a bit set and a list of seeded string hashes. Adding a
 * string sets the bit at each of its hashes; a string may be present only
 * when all of those bits are set.
 */
module BloomFilter {
  import opened JavaInt
  import opened HashFunction

  /** The bit positions the hash functions assign to s. */
  function Positions(fs: seq<HashFunction>, s: string): (r: set<int>)
    requires forall i | 0 <= i < |fs| :: fs[i].size > 0
    ensures forall p | p in r :: exists i | 0 <= i < |fs| :: p == Hash(fs[i], s)
  {
    set i | 0 <= i < |fs| :: Hash(fs[i], s)
  }

  /** The membership test on a bit set: every position of s is set. */
  predicate MayContain(bits: set<int>, fs: seq<HashFunction>, s: string)
    requires forall i | 0 <= i < |fs| :: fs[i].size > 0
  {
    forall i | 0 <= i < |fs| :: Hash(fs[i], s) in bits
  }

  /** No false negatives: once s is added, the test for s succeeds, and every earlier success stays. */
  lemma AddedIsContained(bits: set<int>, fs: seq<HashFunction>, s: string, t: string)
    requires forall i | 0 <= i < |fs| :: fs[i].size > 0
    ensures MayContain(bits + Positions(fs, s), fs, s)
    ensures MayContain(bits, fs, t) ==> MayContain(bits + Positions(fs, s), fs, t)
  {
    forall i | 0 <= i < |fs|
      ensures Hash(fs[i], s) in Positions(fs, s)
    {
    }
  }

  /** The test fails as soon as one position of s is unset. */
  lemma UnsetPositionRejects(bits: set<int>, fs: seq<HashFunction>, s: string, i: int)
    requires forall j | 0 <= j < |fs| :: fs[j].size > 0
    requires 0 <= i < |fs| && Hash(fs[i], s) !in bits
    ensures !MayContain(bits, fs, s)
  {
  }

  class BloomFilter {
    /** The hash functions, all of the filter's size. */
    const hashFxs: seq<HashFunction>
    /** The bit set, as the set of positions that are on. */
    var bits: set<int>

    ghost predicate Valid()
      reads this
    {
      forall i | 0 <= i < |hashFxs| :: hashFxs[i].size > 0
    }

    /** BloomFilter(size, hashes): an empty bit set and `hashes` hash functions; `draws` are their random seeds. */
    constructor(size: int32, hashes: int32, draws: seq<int32>)
      requires size > 0 && hashes >= 0 && |draws| == hashes as int
      requires forall i | 0 <= i < |draws| :: 0 <= draws[i] < INT_MAX
      ensures Valid() && bits == {} && |hashFxs| == hashes as int
      ensures forall i | 0 <= i < |hashFxs| :: hashFxs[i] == NewHashFunction(size, draws[i])
    {
      bits := {};
      var fs: seq<HashFunction> := [];
      var i := 0;
      while i < hashes
        invariant 0 <= i <= hashes && |fs| == i as int
        invariant forall j | 0 <= j < i :: fs[j] == NewHashFunction(size, draws[j])
      {
        fs := fs + [NewHashFunction(size, draws[i])];
        i := i + 1;
      }
      hashFxs := fs;
    }

    /** add(value): sets the bit at each hash of value; no bit is ever cleared. */
    method Add(value: string)
      requires Valid()
      modifies this
      ensures bits == old(bits) + Positions(hashFxs, value)
      ensures old(bits) <= bits
    {
      var i := 0;
      while i < |hashFxs|
        invariant 0 <= i <= |hashFxs|
        invariant bits == old(bits) + set j | 0 <= j < i :: Hash(hashFxs[j], value)
      {
        var h := ComputeHash(hashFxs[i], value);
        bits := bits + {h};
        i := i + 1;
      }
    }

    /** contains(value): true exactly when every hash of value is set; stops at the first unset bit. */
    method Contains(value: string) returns (r: bool)
      requires Valid()
      ensures r <==> MayContain(bits, hashFxs, value)
    {
      var i := 0;
      while i < |hashFxs|
        invariant 0 <= i <= |hashFxs|
        invariant forall j | 0 <= j < i :: Hash(hashFxs[j], value) in bits
      {
        var h := ComputeHash(hashFxs[i], value);
        if h !in bits {
          return false;
        }
        i := i + 1;
      }
      return true;
    }
  }
}
