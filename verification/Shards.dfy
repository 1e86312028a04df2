/** Which shards a call of memoryBackend touches, and where its indexing and slicing run out of bounds. */
module Shards {

  /** Go's integer division truncates towards zero. */
  function Quotient(a: int, b: int): int
    requires b > 0
  {
    if a >= 0 then a / b else -((-a) / b)
  }

  function ShardCount(size: nat): nat {
    (size + 65535) / 65536
  }

  function ShardOf(a: nat): nat {
    a / 65536
  }

  /** Shards are 65536 bytes each, and there are just enough of them for the disk. */
  lemma ShardsTile(size: nat, a: nat)
    ensures ShardOf(a) * 65536 <= a < (ShardOf(a) + 1) * 65536
    ensures size <= ShardCount(size) * 65536 < size + 65536
  {
  }

  /** shardRange, for any signed offset. */
  function ShardRange(size: nat, off: int, len: nat): (int, int) {
    var end := Quotient(off + len - 1, 65536);
    (Quotient(off, 65536), if end >= ShardCount(size) then ShardCount(size) - 1 else end)
  }

  /** Every byte of the range is in one of the locked shards, which exist; a non-empty range locks
      exactly the shards from its first byte's to its last byte's; an empty range at offset 0 still
      locks shard 0, because the division truncates. */
  lemma ShardRangeCovers(size: nat, off: nat, len: nat)
    requires off < size && off + len <= size
    ensures
      var (first, last) := ShardRange(size, off, len);
      && 0 <= first < ShardCount(size) && first - 1 <= last < ShardCount(size)
      && (forall a: nat :: off <= a < off + len ==> first <= ShardOf(a) <= last)
      && (len > 0 ==> first == ShardOf(off) && last == ShardOf(off + len - 1))
      && (off == 0 && len == 0 ==> first == last == 0)
      && (off > 0 && len == 0 ==> (last < first <==> off % 65536 == 0))
  {
  }

  // ---- Out of bounds ----

  /** How much of a call's buffer or range is kept: what is available from the offset on. */
  function Kept(size: nat, off: int, len: nat): nat
    requires off < size
  {
    if len > size - off then size - off else len
  }

  /** The locking loop indexes a shard that does not exist. */
  predicate MissesShard(size: nat, first: int, last: int) {
    first <= last && (first < 0 || last >= ShardCount(size))
  }

  /** A ReadAt, WriteAt or Discard that does not return at once indexes a missing shard, or slices
      the data outside its bounds. */
  predicate CallPanics(size: nat, off: int, len: nat) {
    off < size &&
    var n := Kept(size, off, len);
    var (first, last) := ShardRange(size, off, n);
    MissesShard(size, first, last) || !(0 <= off <= off + n <= size)
  }

  /** The shard index is out of range exactly from one shard before the start on, except for empty
      calls whose truncated range is empty too. */
  lemma MissesShardExactlyWhen(size: nat, off: int, len: nat)
    requires off < size
    ensures
      var (first, last) := ShardRange(size, off, Kept(size, off, len));
      MissesShard(size, first, last) <==> off <= -65536 && (len > 0 || -off % 65536 != 65535)
  {
    if off >= 0 {
      ShardRangeCovers(size, off, Kept(size, off, len));
    }
  }

  /** A call panics exactly at negative offsets: whatever the shards, the slice is then out of bounds. */
  lemma CallPanicsExactlyWhen(size: nat, off: int, len: nat)
    ensures CallPanics(size, off, len) <==> off < 0
  {
    if off < size {
      MissesShardExactlyWhen(size, off, len);
    }
  }
}
