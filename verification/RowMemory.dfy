/**
 The memory the emitted query code allocates at run time (PochiVM/mini_db_backend/query_execution_memory_pool.cpp):
 blocks of words at fresh nonzero addresses, written in place and never freed while the query runs.
 */
module RowMemory {

  class QueryExecutionTempAllocator<W(0)> {
    var blocks: map<nat, seq<W>>
    var next: nat

    ghost predicate Valid()
      reads this
    {
      next >= 1 && forall a :: a in blocks ==> 1 <= a < next
    }

    constructor ()
      ensures Valid() && blocks == map[]
    {
      blocks, next := map[], 1;
    }

    /** The new block's contents are arbitrary. */
    method Allocate(size: nat) returns (address: nat)
      requires Valid()
      modifies this
      ensures Valid() && address != 0 && address !in old(blocks)
      ensures address in blocks && |blocks[address]| == size
      ensures blocks == old(blocks)[address := blocks[address]]
    {
      address := next;
      var words := new W[size];
      blocks := blocks[address := words[..]];
      next := next + 1;
    }

    /** A store to one word of a block. */
    method Assign(address: nat, i: nat, w: W)
      requires Valid() && address in blocks && i < |blocks[address]|
      modifies this
      ensures Valid() && blocks == old(blocks)[address := old(blocks)[address][i := w]]
    {
      blocks := blocks[address := blocks[address][i := w]];
    }
  }
}
