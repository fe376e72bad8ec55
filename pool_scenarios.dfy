/**
 * Call sequences on `FixedMemoryPool` whose outcome follows from the
 * contracts of its operations alone.
 */
module PoolScenarios {
  import opened PoolArith
  import opened Pool

  /**
   * LIFO reuse: `free(p)` followed by `malloc()` hands back `p`, without
   * mapping anything.
   */
  method FreeThenMalloc(pool: FixedMemoryPool, p: int, region: int) returns (q: int)
    requires pool.Valid() && p - pool.headerSize in pool.live
    requires pool.RegionFree(region, pool.PagesFor(1))
    modifies pool
    ensures pool.Valid() && q == p
    ensures pool.live == old(pool.live) && pool.allocatedUnits == old(pool.allocatedUnits)
    ensures pool.vmPages == old(pool.vmPages) && pool.allUnits == old(pool.allUnits)
  {
    pool.Free(p);
    q := pool.Malloc(region);
  }

  /**
   * `free` undoes `malloc` on a non-empty free list: the same unit is back
   * at the head and every counter is as before.
   */
  method MallocThenFree(pool: FixedMemoryPool, region: int) returns (p: int)
    requires pool.Valid() && pool.free != []
    requires pool.RegionFree(region, pool.PagesFor(1))
    modifies pool
    ensures pool.Valid() && p == old(pool.free)[0] + pool.headerSize
    ensures pool.free == old(pool.free) && pool.live == old(pool.live)
    ensures pool.allocatedUnits == old(pool.allocatedUnits) && pool.allUnits == old(pool.allUnits)
    ensures pool.vmPages == old(pool.vmPages) && pool.allocatedPages == old(pool.allocatedPages)
  {
    p := pool.Malloc(region);
    pool.Free(p);
  }

  /**
   * A pool built for 10 four-byte elements with 8-byte headers and
   * 4096-byte pages maps one page of 341 units, so 11 calls to `malloc`
   * map nothing more: capacity is a whole number of pages, not the
   * requested element count.
   */
  method ElevenFromTen(base: int, region: int) returns (pool: FixedMemoryPool)
    requires base > 0 && region > 0
    requires region + 4096 <= base || base + 4096 <= region
    ensures pool.Valid() && pool.vmPages == [VMPageMeta(base, 1)] && pool.allocatedPages == 1
    ensures pool.allUnits == 341 && pool.allocatedUnits == 11
  {
    UnitsForIsQuotient(4096, 12);
    pool := new FixedMemoryPool(10, 4096, 4, 8, base);
    assert pool.PagesFor(10) == 1 && pool.PagesFor(1) == 1;
    for i := 0 to 11
      invariant pool.Valid() && pool.vmPages == [VMPageMeta(base, 1)] && pool.allocatedPages == 1
      invariant pool.allUnits == 341 && pool.allocatedUnits == i
      invariant pool.pageSize == 4096 && pool.elementSize == 4 && pool.headerSize == 8
    {
      assert pool.free != [];
      var p := pool.Malloc(region);
    }
  }
}
