/** Byte offsets into the shared region: why a pool slot may stand for an int32_t offset. */
module Offsets {
  import opened UserData

  /** The six text fields of a user, the offset of the next node, a flag and padding. */
  const LIST_NODE_BYTES: nat := 64 + 64 + 16 + 32 + 32 + 64 + 3 * 4

  /** Four offsets, the colour and a flag. */
  const TREE_NODE_BYTES: nat := 6 * 4
  const INT32_MAX: nat := 0x7FFF_FFFF

  /** The list pool follows the header, the tree pool follows the list pool. */
  function ListOffset(header: nat, i: nat): nat {
    header + LIST_NODE_BYTES * i
  }

  function TreeOffset(header: nat, i: nat): nat {
    header + LIST_NODE_BYTES * POOL_NODES + TREE_NODE_BYTES * i
  }

  /** Every slot of either pool has a positive offset that fits, and its bytes overlap neither
      the header nor another slot of either pool: equal offsets mean equal slots, and 0 is left
      to encode a null pointer. */
  lemma OffsetsFit(header: nat, i: nat, j: nat)
    requires 0 < header <= 4096 && i < POOL_NODES && j < POOL_NODES
    ensures header <= ListOffset(header, i) && ListOffset(header, i) + LIST_NODE_BYTES <= TreeOffset(header, j)
    ensures TreeOffset(header, j) + TREE_NODE_BYTES <= INT32_MAX
    ensures i < j ==> ListOffset(header, i) + LIST_NODE_BYTES <= ListOffset(header, j)
    ensures i < j ==> TreeOffset(header, i) + TREE_NODE_BYTES <= TreeOffset(header, j)
  {
    assert LIST_NODE_BYTES * i + LIST_NODE_BYTES <= LIST_NODE_BYTES * POOL_NODES;
  }
}
