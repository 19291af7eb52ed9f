/**
 * Model of the fixed-block memory pool
 * (include/assessment/memory/memory_pool.h). The arena is divided into
 * `totalSize / blockSize` blocks; a bitmap records which are in use and a
 * map records each live allocation by its first block, which serves as the
 * handle the pool hands out in place of a pointer. Counters track
 * allocations, deallocations and the bytes in use.
 */
module Memory {
  import opened Wrappers
  import opened Blocks

  /** `std::invalid_argument` and `std::bad_alloc`. */
  datatype Error = InvalidArgument | OutOfMemory

  /** What `deallocate` reports: success, or the exception it throws. */
  datatype Outcome = Pass | Fail(error: Error)

  /** A handle to an allocation: its first block, or the null pointer. */
  datatype Handle = Null | Block(index: nat)

  /** The default block size in bytes. */
  const DefaultBlockSize: nat := 64

  class MemoryPool {
    const totalSize: nat
    const blockSize: nat
    const blockCount: nat
    /** One flag per block; true when the block is in use. */
    const used: array<bool>
    /** First block of each live allocation, mapped to its length in blocks. */
    var live: map<nat, nat>
    var allocationCount: nat
    var deallocationCount: nat
    var usedSize: nat

    ghost predicate Valid()
      reads this, used
    {
      0 < totalSize && 0 < blockSize &&
      blockCount == totalSize / blockSize && used.Length == blockCount &&
      Tracks(used[..], live) &&
      usedSize == Count(used[..]) * blockSize &&
      allocationCount == deallocationCount + |live|
    }

    /** `MemoryPool(totalSize, blockSize)`, once the arguments have been checked. */
    constructor (totalSize: nat, blockSize: nat)
      requires 0 < totalSize && 0 < blockSize
      ensures Valid() && fresh(used)
      ensures this.totalSize == totalSize && this.blockSize == blockSize
      ensures live == map[] && allocationCount == 0 && deallocationCount == 0 && usedSize == 0
    {
      this.totalSize := totalSize;
      this.blockSize := blockSize;
      blockCount := totalSize / blockSize;
      used := new bool[totalSize / blockSize](_ => false);
      live := map[];
      allocationCount, deallocationCount, usedSize := 0, 0, 0;
      new;
      CountZero(used[..]);
    }

    /**
     * The constructor with its argument check: a zero total size or block
     * size is rejected with `InvalidArgument` and no pool is made.
     */
    static method Create(totalSize: nat, blockSize: nat := DefaultBlockSize) returns (r: Result<MemoryPool, Error>)
      ensures r.Err? <==> totalSize == 0 || blockSize == 0
      ensures r.Err? ==> r.error == InvalidArgument
      ensures r.Ok? ==> fresh(r.value) && fresh(r.value.used) && r.value.Valid()
      ensures r.Ok? ==> r.value.totalSize == totalSize && r.value.blockSize == blockSize && r.value.live == map[]
      ensures r.Ok? ==> r.value.allocationCount == 0 && r.value.deallocationCount == 0 && r.value.usedSize == 0
    {
      if totalSize == 0 || blockSize == 0 {
        return Err(InvalidArgument);
      }
      var pool := new MemoryPool(totalSize, blockSize);
      return Ok(pool);
    }

    /**
     * First-fit search: a single scan that tracks the length of the free
     * run ending at the current block and stops as soon as it reaches `n`.
     */
    method FindRun(n: nat) returns (r: Option<nat>)
      ensures r == FirstFit(used[..], n)
    {
      if n == 0 {
        assert RunFree(used[..], 0, 0);
        return Some(0);
      }
      var i, run := 0, 0;
      while i < used.Length
        invariant run <= i <= used.Length && run < n
        invariant RunFree(used[..], i - run, run)
        invariant i - run == 0 || used[i - run - 1]
        invariant forall s: nat | s + n <= i :: !RunFree(used[..], s, n)
      {
        run := if used[i] then 0 else run + 1;
        i := i + 1;
        if run == n {
          var start := i - n;
          assert RunFree(used[..], start, n);
          var f := FirstFit(used[..], n);
          assert forall s: nat | s < start :: !RunFree(used[..], s, n);
          assert f.Some? && f.value <= start;
          return Some(start);
        }
      }
      assert forall s: nat :: !RunFree(used[..], s, n);
      return None;
    }

    /** Sets blocks `start .. start + n` to `v`. */
    method MarkRun(start: nat, n: nat, v: bool)
      requires start + n <= used.Length
      modifies used
      ensures used[..] == Mark(old(used[..]), start, n, v)
    {
      var j := start;
      while j < start + n
        invariant start <= j <= start + n
        invariant forall k | 0 <= k < used.Length ::
          used[k] == if start <= k < j then v else old(used[k])
      {
        used[j] := v;
        j := j + 1;
      }
    }

    /**
     * `allocate(size)`: claims the first run of free blocks that covers
     * `size` bytes and returns its first block. Fails with `InvalidArgument`
     * for a zero size and with `OutOfMemory` when no run is large enough;
     * a failed call changes nothing.
     */
    method Allocate(size: nat) returns (r: Result<Handle, Error>)
      requires Valid()
      modifies this, used
      ensures Valid()
      ensures r.Err? <==> size == 0 || FirstFit(old(used[..]), BlocksFor(size, blockSize)).None?
      ensures size == 0 ==> r == Err(InvalidArgument)
      ensures 0 < size && FirstFit(old(used[..]), BlocksFor(size, blockSize)).None? ==> r == Err(OutOfMemory)
      ensures r.Err? ==> used[..] == old(used[..]) && live == old(live) && usedSize == old(usedSize)
      ensures r.Err? ==> allocationCount == old(allocationCount) && deallocationCount == old(deallocationCount)
      ensures r.Ok? ==> 0 < size && r.value.Block?
      ensures r.Ok? ==> var start, n := r.value.index, BlocksFor(size, blockSize);
        && Some(start) == FirstFit(old(used[..]), n)
        && RunFree(old(used[..]), start, n) && RunUsed(used[..], start, n)
        && used[..] == Mark(old(used[..]), start, n, true)
        && live == old(live)[start := n]
        && usedSize == old(usedSize) + n * blockSize
        && allocationCount == old(allocationCount) + 1 && deallocationCount == old(deallocationCount)
    {
      if size == 0 {
        return Err(InvalidArgument);
      }
      var n := BlocksFor(size, blockSize);
      var found := FindRun(n);
      if found.None? {
        return Err(OutOfMemory);
      }
      var start := found.value;
      Claim(start, n);
      r := Ok(Block(start));
    }

    /** Marks the free run of `n` blocks at `start` in use and records it as a live allocation. */
    method Claim(start: nat, n: nat)
      requires Valid() && 0 < n && RunFree(used[..], start, n)
      modifies this, used
      ensures Valid()
      ensures RunUsed(used[..], start, n)
      ensures used[..] == Mark(old(used[..]), start, n, true)
      ensures live == old(live)[start := n]
      ensures usedSize == old(usedSize) + n * blockSize
      ensures allocationCount == old(allocationCount) + 1 && deallocationCount == old(deallocationCount)
    {
      ClaimKeepsBooks(used[..], live, start, n);
      ScaleSum(Count(used[..]), n, Count(Mark(used[..], start, n, true)), blockSize);
      MarkRun(start, n, true);
      live := live[start := n];
      usedSize := usedSize + n * blockSize;
      allocationCount := allocationCount + 1;
    }

    /**
     * `deallocate(handle, size)`: frees the allocation that starts at the
     * handle's block. A null handle, a block that does not start a live
     * allocation of this pool (a foreign handle or a second free), or a
     * size that does not round to the allocation's length fails with
     * `InvalidArgument` and changes nothing.
     */
    method Deallocate(handle: Handle, size: nat) returns (r: Outcome)
      requires Valid()
      modifies this, used
      ensures Valid()
      ensures r == Pass <==> handle.Block? && handle.index in old(live) && BlocksFor(size, blockSize) == old(live)[handle.index]
      ensures r.Fail? ==> r.error == InvalidArgument
      ensures r.Fail? ==> used[..] == old(used[..]) && live == old(live) && usedSize == old(usedSize)
      ensures r.Fail? ==> allocationCount == old(allocationCount) && deallocationCount == old(deallocationCount)
      ensures r == Pass ==> var start, n := handle.index, old(live)[handle.index];
        && RunUsed(old(used[..]), start, n) && RunFree(used[..], start, n)
        && used[..] == Mark(old(used[..]), start, n, false)
        && live == old(live) - {start}
        && usedSize + n * blockSize == old(usedSize)
        && deallocationCount == old(deallocationCount) + 1 && allocationCount == old(allocationCount)
    {
      if handle.Null? || handle.index !in live || BlocksFor(size, blockSize) != live[handle.index] {
        return Fail(InvalidArgument);
      }
      Release(handle.index);
      r := Pass;
    }

    /** Returns the blocks of the live allocation starting at `start` to the free set. */
    method Release(start: nat)
      requires Valid() && start in live
      modifies this, used
      ensures Valid()
      ensures var n := old(live)[start];
        && RunUsed(old(used[..]), start, n) && RunFree(used[..], start, n)
        && used[..] == Mark(old(used[..]), start, n, false)
        && live == old(live) - {start}
        && usedSize + n * blockSize == old(usedSize)
        && deallocationCount == old(deallocationCount) + 1 && allocationCount == old(allocationCount)
    {
      var n := live[start];
      ReleaseKeepsBooks(used[..], live, start);
      ScaleSum(Count(Mark(used[..], start, n, false)), n, Count(used[..]), blockSize);
      MarkRun(start, n, false);
      live := live - {start};
      usedSize := usedSize - n * blockSize;
      deallocationCount := deallocationCount + 1;
    }

    function GetTotalSize(): (r: nat)
      requires Valid()
      reads this, used
      ensures r > 0
    {
      totalSize
    }

    function GetBlockSize(): (r: nat)
      requires Valid()
      reads this, used
      ensures r > 0
    {
      blockSize
    }

    function GetAllocationCount(): (r: nat)
      requires Valid()
      reads this, used
      ensures r >= |live|
    {
      allocationCount
    }

    function GetDeallocationCount(): (r: nat)
      requires Valid()
      reads this, used
      ensures r + |live| == allocationCount
    {
      deallocationCount
    }

    /** Bytes in use: whole blocks of every live allocation. */
    function GetUsedSize(): (r: nat)
      requires Valid()
      reads this, used
      ensures r == Count(used[..]) * blockSize
      ensures r <= totalSize
    {
      UsedWithinTotal();
      usedSize
    }

    /** Bytes not in use; with the used bytes they make up the whole pool. */
    function GetAvailableSize(): (r: nat)
      requires Valid()
      reads this, used
      ensures GetUsedSize() + r == totalSize
    {
      UsedWithinTotal();
      totalSize - usedSize
    }

    /** The number of live allocations, which teardown would report as leaks. */
    function OutstandingAllocations(): (r: nat)
      requires Valid()
      reads this, used
      ensures r == |live|
    {
      allocationCount - deallocationCount
    }

    /** True when no allocation is live. */
    function IsEmpty(): (r: bool)
      requires Valid()
      reads this, used
      ensures r <==> live == map[]
      ensures r <==> forall i | 0 <= i < used.Length :: !used[i]
    {
      TracksEmpty(used[..], live);
      CountZero(used[..]);
      usedSize == 0
    }

    /** True when no further allocation, of any size, can succeed. */
    function IsFull(): (r: bool)
      requires Valid()
      reads this, used
      ensures r <==> forall size: nat | 0 < size :: FirstFit(used[..], BlocksFor(size, blockSize)) == None
    {
      NoFitIffFull(used[..], blockSize);
      CountFull(used[..]);
      ScaleCancel(Count(used[..]), blockCount, blockSize);
      usedSize == blockCount * blockSize
    }

    lemma UsedWithinTotal()
      requires Valid()
      ensures usedSize <= blockCount * blockSize <= totalSize
    {
      ScaleMono(Count(used[..]), blockCount, blockSize);
      WholeBlocksFit(totalSize, blockSize);
    }
  }

  /** Claiming a free run keeps the bitmap, the live allocations and the block count in step. */
  lemma ClaimKeepsBooks(used: seq<bool>, live: map<nat, nat>, start: nat, n: nat)
    requires Tracks(used, live) && 0 < n && RunFree(used, start, n)
    ensures var m := Mark(used, start, n, true);
      && Tracks(m, live[start := n]) && |live[start := n]| == |live| + 1
      && RunUsed(m, start, n) && Count(m) == Count(used) + n
  {
    MarkCount(used, start, n, true);
    TracksAllocate(used, live, start, n);
  }

  /** Releasing a live allocation keeps the bitmap, the live allocations and the block count in step. */
  lemma ReleaseKeepsBooks(used: seq<bool>, live: map<nat, nat>, start: nat)
    requires Tracks(used, live) && start in live
    ensures var n := live[start]; var m := Mark(used, start, n, false);
      && RunUsed(used, start, n)
      && Tracks(m, live - {start}) && |live - {start}| + 1 == |live|
      && RunFree(m, start, n) && Count(m) + n == Count(used)
  {
    TracksFree(used, live, start);
    MarkCount(used, start, live[start], false);
  }

  lemma WholeBlocksFit(total: nat, blockSize: nat)
    requires 0 < blockSize
    ensures (total / blockSize) * blockSize <= total
  {
  }

  /** Whole blocks add up in bytes as they do in blocks. */
  lemma ScaleSum(a: nat, b: nat, c: nat, k: nat)
    requires a + b == c
    ensures a * k + b * k == c * k
    ensures a * k <= c * k && b * k <= c * k
  {
  }

  lemma ScaleMono(a: nat, b: nat, k: nat)
    requires a <= b
    ensures a * k <= b * k
  {
  }

  lemma ScaleCancel(a: nat, b: nat, k: nat)
    requires 0 < k
    ensures a * k == b * k <==> a == b
  {
    if a < b {
      assert a * k < b * k;
    } else if b < a {
      assert b * k < a * k;
    }
  }

  /**
   * A client of the pool: on a fresh 4096-byte pool of 64-byte blocks a
   * 100-byte request takes the first two blocks, a second free of the same
   * handle fails, and the pool is empty again afterwards.
   */
  method AllocateFreeTwice() returns (pool: MemoryPool, first: Result<Handle, Error>, freed: Outcome, again: Outcome)
    ensures first == Ok(Block(0)) && freed == Pass && again == Fail(InvalidArgument)
    ensures pool.Valid() && pool.IsEmpty() && pool.GetAvailableSize() == 4096
  {
    var created := MemoryPool.Create(4096);
    pool := created.value;
    assert BlocksFor(100, 64) == 2;
    assert pool.used.Length == 64;
    assert RunFree(pool.used[..], 0, 2) by {
      forall i | 0 <= i < 2 ensures !pool.used[..][i] {
        assert !Covered(pool.live, i);
      }
    }
    first := pool.Allocate(100);
    var handle := Block(0);
    freed := pool.Deallocate(handle, 100);
    again := pool.Deallocate(handle, 100);
  }
}
