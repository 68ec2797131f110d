/** TxfyrShard: a named rectangle cut from a texture atlas. */
module TxfyrShards {
  import opened JavaInt

  datatype TxfyrShard = TxfyrShard(key: string, x: int32, y: int32, width: int32, height: int32)

  /** What the record's compact constructor asserts (a Java assert: checked only with assertions enabled). */
  predicate Valid(s: TxfyrShard)
  {
    s.x >= 0 && s.y >= 0 && s.width > 0 && s.height > 0
  }

  /** new TxfyrShard(key, x, y, width, height). */
  function NewShard(key: string, x: int32, y: int32, width: int32, height: int32): (s: TxfyrShard)
    requires x >= 0 && y >= 0
    requires width > 0 && height > 0
    ensures Valid(s)
    ensures s.key == key && s.x == x && s.y == y && s.width == width && s.height == height
  {
    TxfyrShard(key, x, y, width, height)
  }

  /** area(): width * height as a Java int product, so it wraps past Integer.MAX_VALUE. */
  function Area(s: TxfyrShard): (a: int32)
    ensures s.width * s.height <= INT_MAX && s.width * s.height >= INT_MIN ==> a == s.width * s.height
  {
    Wrap32(s.width * s.height)
  }

  /** perimeter(): 2 * width + 2 * height as Java int arithmetic (wrapping each step or once at the end gives the same int). */
  function Perimeter(s: TxfyrShard): (p: int32)
    ensures INT_MIN <= 2 * s.width + 2 * s.height <= INT_MAX ==> p == 2 * s.width + 2 * s.height
  {
    Wrap32(2 * s.width + 2 * s.height)
  }

  /** A valid shard that does not overflow has a positive area of at least its width and its height. */
  lemma AreaBounds(s: TxfyrShard)
    requires Valid(s) && s.width * s.height <= INT_MAX
    ensures Area(s) >= s.width && Area(s) >= s.height && Area(s) > 0
  {
    MulAtLeast(s.width, s.height);
    MulAtLeast(s.height, s.width);
  }

  /** A valid shard that does not overflow has a perimeter above twice each side. */
  lemma PerimeterBounds(s: TxfyrShard)
    requires Valid(s) && 2 * s.width + 2 * s.height <= INT_MAX
    ensures Perimeter(s) > 2 * s.width && Perimeter(s) > 2 * s.height
  {
  }

  /** A 65536-by-65536 shard's area wraps to 0. */
  lemma AreaWraps()
    ensures Area(TxfyrShard("k", 0, 0, 65536, 65536)) == 0
  {
    assert 65536 * 65536 == TWO_32;
    ModUnique(TWO_32, TWO_32, 1, 0);
  }
}
