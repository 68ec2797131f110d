/**
 * A least-recently-used cache: a map from keys to nodes, the nodes threaded
 * on a recency list and grouped into colour blocks chosen from each key's
 * hash code. This module keeps the map-level behaviour; which key an
 * eviction removes is decided by the lists and enters as a parameter.
 */
module NaiveLRUCache {
  import opened JavaInt
  import opened Wrappers

  /** getColor as written: hashCode % numColors with Java's sign-of-dividend remainder. */
  function GetColorAsWritten(hash: int32, numColors: int32): (r: int)
    requires numColors > 0
    ensures hash >= 0 ==> 0 <= r < numColors
    ensures hash < 0 ==> -numColors < r <= 0
  {
    Rem(hash, numColors)
  }

  /** A key whose hash code is -1 gets colour -1, an index outside the colour blocks. */
  lemma GetColorAsWrittenNegative()
    ensures GetColorAsWritten(-1, 4) == -1
  {
  }

  /** getColor as intended (Math.floorMod): a block index for every hash code. */
  function GetColor(hash: int32, numColors: int32): (r: int)
    requires numColors > 0
    ensures 0 <= r < numColors
    ensures hash >= 0 ==> r == GetColorAsWritten(hash, numColors)
    ensures (r - hash) % numColors == 0
  {
    FloorModFacts(hash, numColors);
    hash % numColors
  }

  lemma FloorModFacts(hash: int32, numColors: int32)
    requires numColors > 0
    ensures hash >= 0 ==> hash % numColors == GetColorAsWritten(hash, numColors)
    ensures (hash % numColors - hash) % numColors == 0
  {
    var q, r := hash / numColors, hash % numColors;
    assert hash == q * numColors + r;
    ModUnique(r - hash, numColors, -q, 0);
    if hash >= 0 {
      assert Div(hash, numColors) == q;
    }
  }

  /** get on the key/value map: the value stored under key, or None (null). */
  function GetEntry<K, V>(m: map<K, V>, key: K): (r: Option<V>)
    ensures r.Some? <==> key in m
  {
    if key in m then Some(m[key]) else None
  }

  /** evict on the key/value map: removes the chosen key, if the lists chose one. */
  function Evict<K, V>(m: map<K, V>, victim: Option<K>): (r: map<K, V>)
    ensures r.Keys <= m.Keys && |m| - 1 <= |r| <= |m|
    ensures victim.Some? && victim.value in m ==> |r| == |m| - 1
  {
    if victim.Some? then m - {victim.value} else m
  }

  /**
   * put on the key/value map: an existing key takes the new value; a new key
   * first evicts when the map holds capacity entries, then is added.
   */
  function PutEntry<K, V>(m: map<K, V>, capacity: int, key: K, value: V, victim: Option<K>): map<K, V>
  {
    if key in m then m[key := value]
    else (if |m| == capacity then Evict(m, victim) else m)[key := value]
  }

  /** put(k, v) then get(k) returns v. */
  lemma GetAfterPut<K, V>(m: map<K, V>, capacity: int, key: K, value: V, victim: Option<K>)
    ensures GetEntry(PutEntry(m, capacity, key, value, victim), key) == Some(value)
  {
  }

  /** put on an existing key replaces its value and adds no entry. */
  lemma PutExisting<K, V>(m: map<K, V>, capacity: int, key: K, value: V, victim: Option<K>)
    requires key in m
    ensures PutEntry(m, capacity, key, value, victim).Keys == m.Keys
    ensures |PutEntry(m, capacity, key, value, victim)| == |m|
  {
    assert m[key := value].Keys == m.Keys;
  }

  /** Keys are lost only when a new key arrives at a full map. */
  lemma EvictOnlyWhenFull<K, V>(m: map<K, V>, capacity: int, key: K, value: V, victim: Option<K>)
    requires key in m || |m| != capacity
    ensures m.Keys <= PutEntry(m, capacity, key, value, victim).Keys
  {
  }

  /** Other keys keep their values, unless the full map evicts them. */
  lemma PutKeepsOthers<K, V>(m: map<K, V>, capacity: int, key: K, value: V, victim: Option<K>, other: K)
    requires other != key && other in m
    requires key !in m && |m| == capacity ==> victim != Some(other)
    ensures GetEntry(PutEntry(m, capacity, key, value, victim), other) == GetEntry(m, other)
  {
  }

  /** A full map that evicts one of its own keys stays within capacity. */
  lemma PutWithinCapacity<K, V>(m: map<K, V>, capacity: int, key: K, value: V, victim: Option<K>)
    requires |m| <= capacity
    requires key !in m && |m| == capacity ==> victim.Some? && victim.value in m
    ensures |PutEntry(m, capacity, key, value, victim)| <= capacity
  {
    var e := if key !in m && |m| == capacity then Evict(m, victim) else m;
    if key !in m {
      assert key !in e;
      assert |e[key := value]| == |e| + 1;
    } else {
      assert m[key := value].Keys == m.Keys;
    }
  }

  class NaiveLRUCache<K(==), V> {
    const capacity: int32
    const numColors: int32
    /** The keys' hashCode, which Java supplies per object. */
    const hashCode: K -> int32
    /** The map from keys to (the values of) their nodes. */
    var entries: map<K, V>

    constructor(capacity: int32, numColors: int32, blockSize: int32, hashCode: K -> int32)
      requires capacity >= 0 && numColors > 0 && blockSize > 0
      ensures this.capacity == capacity && this.numColors == numColors && this.hashCode == hashCode
      ensures entries == map[]
    {
      this.capacity := capacity;
      this.numColors := numColors;
      this.hashCode := hashCode;
      entries := map[];
    }

    /** get(key): the stored value, or None when the key is absent; the map is unchanged. */
    method Get(key: K) returns (r: Option<V>)
      requires numColors > 0
      ensures r == GetEntry(entries, key)
      ensures key in entries ==> r == Some(entries[key])
    {
      r := GetEntry(entries, key);
    }

    /** put(key, value): stores the value under the key and files the node under the key's colour. */
    method Put(key: K, value: V, victim: Option<K>) returns (color: int)
      requires numColors > 0
      modifies this
      ensures entries == PutEntry(old(entries), capacity as int, key, value, victim)
      ensures 0 <= color < numColors && color == GetColor(hashCode(key), numColors)
    {
      if key in entries {
        entries := entries[key := value];
      } else {
        if |entries| == capacity as int {
          entries := Evict(entries, victim);
        }
        entries := entries[key := value];
      }
      color := GetColor(hashCode(key), numColors);
    }
  }
}
