/** Aligned bump allocation over a chain of blocks. */
module Arenas {

  const ARENA_BLOCK_SIZE := 4096

  // The chain is a sequence: the head is the first block and the tail the last.
  datatype Block = Block(base: nat, used: nat, size: nat)

  datatype Allocation = Allocation(block: nat, address: nat, size: nat)

  predicate DisjointRanges(a: nat, m: nat, b: nat, n: nat) {
    a + m <= b || b + n <= a
  }

  ghost predicate IsPowerOfTwo(n: nat) {
    n == 1 || (n > 1 && n % 2 == 0 && IsPowerOfTwo(n / 2))
  }

  ghost predicate IsMultiple(x: nat, n: nat) {
    exists k: nat :: x == k * n
  }

  /** x with the bits below the power of two n cleared: the mask ~(n - 1). */
  function ClearBelow(x: nat, n: nat): (r: nat)
    requires IsPowerOfTwo(n)
    ensures r <= x < r + n
    ensures IsMultiple(r, n)
    decreases n
  {
    if n == 1 then
      assert x == x * 1;
      x
    else
      var half := ClearBelow(x / 2, n / 2);
      assert IsMultiple(2 * half, n) by {
        var k: nat :| half == k * (n / 2);
        assert 2 * half == k * (2 * (n / 2));
      }
      2 * half
  }

  function AlignUp(address: nat, align: nat): (r: nat)
    requires IsPowerOfTwo(align)
    ensures address <= r < address + align
    ensures IsMultiple(r, align)
  {
    ClearBelow(address + (align - 1), align)
  }

  function UsedUpTo(blocks: seq<Block>, n: nat): nat
    requires n <= |blocks|
  {
    if n == 0 then 0 else UsedUpTo(blocks, n - 1) + blocks[n - 1].used
  }

  function Used(blocks: seq<Block>): nat {
    UsedUpTo(blocks, |blocks|)
  }

  lemma {:induction false} UsedUpToAgrees(a: seq<Block>, b: seq<Block>, n: nat)
    requires n <= |a| && n <= |b| && a[..n] == b[..n]
    ensures UsedUpTo(a, n) == UsedUpTo(b, n)
  {
    if n > 0 {
      assert a[..n][n - 1] == b[..n][n - 1];
      assert a[..n - 1] == a[..n][..n - 1] == b[..n][..n - 1] == b[..n - 1];
      UsedUpToAgrees(a, b, n - 1);
    }
  }

  lemma UsedAfterLastGrows(blocks: seq<Block>, more: nat)
    requires blocks != []
    ensures var last := |blocks| - 1;
            Used(blocks[last := blocks[last].(used := blocks[last].used + more)]) == Used(blocks) + more
  {
    var last := |blocks| - 1;
    var blocks' := blocks[last := blocks[last].(used := blocks[last].used + more)];
    UsedUpToAgrees(blocks, blocks', last);
  }

  lemma UsedAfterNewBlock(blocks: seq<Block>, b: Block)
    ensures Used(blocks + [b]) == Used(blocks) + b.used
  {
    UsedUpToAgrees(blocks, blocks + [b], |blocks|);
  }

  /** An address above every block. */
  ghost function Top(blocks: seq<Block>): (top: nat)
    ensures forall i | 0 <= i < |blocks| :: blocks[i].base + blocks[i].size <= top
  {
    if blocks == [] then 0
    else
      var last := blocks[|blocks| - 1];
      var t := Top(blocks[..|blocks| - 1]);
      assert forall i | 0 <= i < |blocks| - 1 :: blocks[..|blocks| - 1][i] == blocks[i];
      if t < last.base + last.size then last.base + last.size else t
  }

  predicate FreshBlock(blocks: seq<Block>, base: nat, size: nat) {
    forall i | 0 <= i < |blocks| :: DisjointRanges(blocks[i].base, blocks[i].size, base, size)
  }

  ghost predicate BlocksOk(blocks: seq<Block>) {
    && (forall i | 0 <= i < |blocks| :: blocks[i].used <= blocks[i].size)
    && (forall i, j | 0 <= i < j < |blocks| ::
          DisjointRanges(blocks[i].base, blocks[i].size, blocks[j].base, blocks[j].size))
  }

  lemma AppendKeepsBlocksOk(blocks: seq<Block>, b: Block)
    requires BlocksOk(blocks) && FreshBlock(blocks, b.base, b.size) && b.used <= b.size
    ensures BlocksOk(blocks + [b])
  {
  }

  ghost predicate Inside(blocks: seq<Block>, a: Allocation) {
    a.block < |blocks| && blocks[a.block].base <= a.address
    && a.address + a.size <= blocks[a.block].base + blocks[a.block].used
  }

  ghost predicate Disjoint(allocations: seq<Allocation>) {
    forall i, j | 0 <= i < j < |allocations| ::
      DisjointRanges(allocations[i].address, allocations[i].size, allocations[j].address, allocations[j].size)
  }

  class Arena {
    var blocks: seq<Block>
    ghost var allocations: seq<Allocation>   // everything ever returned

    ghost predicate Valid()
      reads this
    {
      && BlocksOk(blocks)
      && (forall i | 0 <= i < |allocations| :: Inside(blocks, allocations[i]))
      && Disjoint(allocations)
    }

    constructor ()
      ensures Valid() && blocks == [] && allocations == []
    {
      blocks, allocations := [], [];
    }

    // The address is whatever the system's allocator picks, clear of the live blocks.
    method NewBlock(minSize: nat)
      requires Valid()
      modifies this
      ensures Valid() && allocations == old(allocations)
      ensures |blocks| == |old(blocks)| + 1 && blocks[..|old(blocks)|] == old(blocks)
      ensures blocks[|old(blocks)|].used == 0 && blocks[|old(blocks)|].size >= minSize
      ensures Used(blocks) == Used(old(blocks))
    {
      var size := if minSize > ARENA_BLOCK_SIZE then minSize else ARENA_BLOCK_SIZE;
      assert FreshBlock(blocks, Top(blocks), size);
      var base: nat :| FreshBlock(blocks, base, size);
      UsedAfterNewBlock(blocks, Block(base, 0, size));
      AppendKeepsBlocksOk(blocks, Block(base, 0, size));
      blocks := blocks + [Block(base, 0, size)];
    }

    /** Take `total` bytes at the end of the tail, the last `size` of them for the caller. */
    method Take(total: nat, size: nat)
      requires Valid() && blocks != [] && size <= total
      requires var b := blocks[|blocks| - 1]; b.used + total <= b.size
      modifies this
      ensures Valid() && |blocks| == |old(blocks)|
      ensures var b := old(blocks)[|blocks| - 1];
              allocations == old(allocations) + [Allocation(|blocks| - 1, b.base + b.used + total - size, size)]
      ensures Used(blocks) == Used(old(blocks)) + total
    {
      var last := |blocks| - 1;
      var b := blocks[last];
      UsedAfterLastGrows(blocks, total);
      blocks := blocks[last := b.(used := b.used + total)];
      allocations := allocations + [Allocation(last, b.base + b.used + total - size, size)];
    }

    /** Every allocation is inside its block, aligned, and disjoint from all earlier ones (Valid says
      * so of the whole history); a call adds at most one block. */
    method AllocAligned(size: nat, align: nat) returns (address: nat)
      requires Valid() && IsPowerOfTwo(align)
      modifies this
      ensures Valid() && IsMultiple(address, align)
      ensures |old(blocks)| <= |blocks| <= |old(blocks)| + 1
      ensures |allocations| == |old(allocations)| + 1 && allocations[..|old(allocations)|] == old(allocations)
      ensures var a := allocations[|old(allocations)|]; a.address == address && a.size == size
      ensures Used(old(blocks)) + size <= Used(blocks) < Used(old(blocks)) + size + align
    {
      if |blocks| == 0 {
        NewBlock(size + align - 1);
      }
      while true
        invariant Valid() && blocks != [] && allocations == old(allocations)
        invariant Used(blocks) == Used(old(blocks))
        invariant |old(blocks)| <= |blocks| <= |old(blocks)| + 1
        invariant var b := blocks[|blocks| - 1];
                  |blocks| == |old(blocks)| || (b.used == 0 && size + align - 1 <= b.size)
        decreases |old(blocks)| + 1 - |blocks|
      {
        var b := blocks[|blocks| - 1];
        var base := b.base + b.used;
        var aligned := AlignUp(base, align);
        var total := aligned - base + size;
        if b.used + total <= b.size {
          Take(total, size);
          return aligned;
        }
        NewBlock(size + align - 1);
      }
    }

    method Alloc(length: nat) returns (address: nat)
      requires Valid()
      modifies this
      ensures Valid()
      ensures |allocations| == |old(allocations)| + 1 && allocations[..|old(allocations)|] == old(allocations)
      ensures var a := allocations[|old(allocations)|]; a.address == address && a.size == length
      ensures Used(blocks) == Used(old(blocks)) + length
    {
      address := AllocAligned(length, 1);
    }

    method ArenaUsed() returns (used: nat)
      ensures used == Used(blocks)
    {
      used := 0;
      var i := 0;
      while i < |blocks|
        invariant i <= |blocks| && used == UsedUpTo(blocks, i)
      {
        used := used + blocks[i].used;
        i := i + 1;
      }
    }

    method Free()
      modifies this
      ensures Valid() && blocks == [] && allocations == []
    {
      blocks, allocations := [], [];
    }
  }
}
