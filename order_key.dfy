/**
 * The directory queue's order key `!(ino >> 8)` on u64, and what it means
 * for the visit order. On an unsigned 64-bit value, `>> 8` is division by
 * 256 and `!` is subtraction from u64::MAX, so the key is written here with
 * those two operations.
 */
module Ordering {
  import opened Types

  const U64_MAX: nat := 0xFFFF_FFFF_FFFF_FFFF

  /** `!(ino >> 8)`: the inode number coarsened to buckets of 256, then complemented. */
  function OrderKey(ino: U64): (key: U64)
  {
    U64_MAX - ino / 256
  }

  /**
   * A key is larger exactly when the inode bucket is smaller, so a max-first
   * queue pops the directory with the smallest inode bucket first.
   */
  lemma KeyOrdersBuckets(a: U64, b: U64)
    ensures OrderKey(a) > OrderKey(b) <==> a / 256 < b / 256
    ensures OrderKey(a) == OrderKey(b) <==> a / 256 == b / 256
  {
  }

  /** A directory popped before another (strictly larger key) has the smaller inode number. */
  lemma LargerKeySmallerInode(a: U64, b: U64)
    requires OrderKey(a) > OrderKey(b)
    ensures a < b
  {
  }

  /** The key never increases as the inode grows. */
  lemma OrderKeyAntitone(a: U64, b: U64)
    requires a <= b
    ensures OrderKey(b) <= OrderKey(a)
  {
  }
}
