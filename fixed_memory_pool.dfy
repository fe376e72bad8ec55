/**
 * `FixedMemoryPool<T>`: a pool of fixed-stride units carved out of mapped
 * pages and recycled through an intrusive LIFO free list.
 *
 * Addresses are integers. A unit is a header of `headerSize` bytes followed
 * by `elementSize` payload bytes; callers receive the payload address
 * `unit + headerSize`. Page mapping is abstracted: the caller supplies the
 * address of a fresh region (non-null and disjoint from every page the pool
 * already holds), which stands for what `mmap` returns. The spin lock is left
 * out: each call is one atomic step.
 */
module Pool {
  import opened PoolArith
  import opened FreeList

  /** One mapping: its start address and its number of pages. */
  datatype VMPageMeta = VMPageMeta(page: int, size: nat)

  /** Total pages over a sequence of mappings. */
  function TotalPages(pages: seq<VMPageMeta>): nat
  {
    if pages == [] then 0 else pages[0].size + TotalPages(pages[1..])
  }

  lemma {:induction false} TotalPagesAppend(pages: seq<VMPageMeta>, m: VMPageMeta)
    ensures TotalPages(pages + [m]) == TotalPages(pages) + m.size
    decreases |pages|
  {
    if pages != [] {
      assert (pages + [m])[1..] == pages[1..] + [m];
      TotalPagesAppend(pages[1..], m);
    }
  }

  /** `owner` with every unit of `units` assigned to mapping `k`. */
  ghost function Claim(owner: map<int, nat>, units: seq<int>, k: nat): map<int, nat>
  {
    owner + map v | v in units :: k
  }

  class FixedMemoryPool {
    /** `SYSTEM_PAGE_SIZE`, `sizeof(T)` and `sizeof(FixedMemoryUnit)`. */
    const pageSize: nat
    const elementSize: nat
    const headerSize: nat

    /** Head of the free list; `Null` when it is empty. */
    var freeList: int
    /** The `next` header of every unit the pool has written. */
    var links: map<int, int>
    var vmPages: seq<VMPageMeta>
    var allocatedPages: nat
    var allUnits: nat
    var allocatedUnits: nat

    /** The free units, head first. */
    ghost var free: seq<int>
    /** The units handed out by `Malloc` and not yet given back. */
    ghost var live: set<int>
    /** The index in `vmPages` of the mapping each unit was carved from. */
    ghost var owner: map<int, nat>

    /** `totalUnitSize`: the fixed distance between consecutive units. */
    function Stride(): nat
    {
      elementSize + headerSize
    }

    ghost predicate Disjoint(a: VMPageMeta, b: VMPageMeta)
    {
      a.page + a.size * pageSize <= b.page || b.page + b.size * pageSize <= a.page
    }

    /** Unit `u`, header and payload, lies wholly inside mapping `m`. */
    ghost predicate InPage(u: int, m: VMPageMeta)
    {
      m.page <= u && u + Stride() <= m.page + m.size * pageSize
    }

    /**
     * A region of `cnt` pages at `base` is one the operating system could
     * hand out now: non-null and overlapping no mapping the pool holds.
     */
    ghost predicate RegionFree(base: int, cnt: nat)
      reads this`vmPages
    {
      base > 0 &&
      forall k :: 0 <= k < |vmPages| ==> Disjoint(vmPages[k], VMPageMeta(base, cnt))
    }

    /** Mappings are non-null and never overlap. */
    ghost predicate PagesDisjoint()
      reads this`vmPages
    {
      (forall k :: 0 <= k < |vmPages| ==> vmPages[k].page > 0) &&
      (forall i, j :: 0 <= i < j < |vmPages| ==> Disjoint(vmPages[i], vmPages[j]))
    }

    /**
     * Every unit sits in the mapping it was carved from and is either free
     * or live, never both.
     */
    ghost predicate UnitsPlaced()
      reads this`vmPages, this`owner, this`live, this`free
    {
      Placed(vmPages, owner, live, free)
    }

    /** UnitsPlaced on explicit values: `owner` indexes `pages`. */
    ghost predicate Placed(pages: seq<VMPageMeta>, owner: map<int, nat>, live: set<int>, free: seq<int>)
    {
      (forall u :: u in owner ==> owner[u] < |pages| && InPage(u, pages[owner[u]])) &&
      (forall u :: u in owner <==> u in live || u in free) &&
      (forall u :: u in live ==> u !in free)
    }

    /**
     * The pool invariant. Every unit belongs to exactly one mapping and is
     * either free or live, never both; the counters agree with the
     * free list, the live units and the page records.
     */
    ghost predicate Valid()
      reads this
    {
      pageSize >= 1 && elementSize >= 1 && Stride() < U32 &&
      IsList(links, freeList, free) && Null !in free &&
      PagesDisjoint() && UnitsPlaced() &&
      allocatedUnits == |live| &&
      allUnits == allocatedUnits + |free| &&
      allocatedPages == TotalPages(vmPages)
    }

    /** Pages mapped for a request of `nElements` units. */
    function PagesFor(nElements: nat): nat
      requires pageSize >= 1
    {
      PageCount(nElements * Stride(), pageSize)
    }

    /** Units carved from a mapping of `cnt` pages. */
    function UnitsIn(cnt: nat): nat
      requires elementSize >= 1
    {
      UnitsFor(cnt * pageSize, Stride())
    }

    /**
     * Maps the pages for `nElements` units at `base` and puts all of their
     * units on the free list.
     */
    constructor (nElements: nat, pageSize: nat, elementSize: nat, headerSize: nat, base: int)
      requires pageSize >= 1 && elementSize >= 1 && elementSize + headerSize < U32
      requires nElements * (elementSize + headerSize) < U32
      requires base > 0
      ensures Valid()
      ensures this.pageSize == pageSize && this.elementSize == elementSize && this.headerSize == headerSize
      ensures vmPages == [VMPageMeta(base, PagesFor(nElements))]
      ensures allocatedPages == PagesFor(nElements)
      ensures allUnits == UnitsIn(PagesFor(nElements)) && allUnits >= nElements
      ensures allocatedUnits == 0 && live == {}
      ensures free == CarvedUnits(base, Stride(), allUnits)
    {
      this.pageSize := pageSize;
      this.elementSize := elementSize;
      this.headerSize := headerSize;
      freeList := Null;
      links := map[];
      vmPages := [];
      allocatedPages := 0;
      allUnits := 0;
      allocatedUnits := 0;
      free := [];
      live := {};
      owner := map[];
      new;
      ApplyNewFreePage(nElements, base);
    }

    /**
     * `insertToHead`: `unit` becomes the head and its header points to the
     * old head (null when the list was empty).
     */
    method InsertToHead(unit: int)
      requires IsList(links, freeList, free) && unit !in free && unit != Null
      modifies this`links, this`freeList, this`free
      ensures links == old(links)[unit := old(freeList)] && freeList == unit
      ensures free == [unit] + old(free) && IsList(links, freeList, free)
    {
      InsertThenRemove(links, freeList, free, unit);
      if freeList != Null {
        links := links[unit := freeList];
        freeList := unit;
      } else {
        links := links[unit := Null];
        freeList := unit;
      }
      free := [unit] + free;
    }

    /**
     * `removeFromHead`: on an empty list returns null and changes nothing;
     * otherwise returns the head and advances the head to its `next`.
     */
    method RemoveFromHead() returns (res: int)
      requires IsList(links, freeList, free) && Null !in free
      modifies this`freeList, this`free
      ensures old(free) == [] ==> res == Null && freeList == Null && free == []
      ensures old(free) != [] ==>
        res == old(freeList) == old(free)[0] && freeList == links[res] && free == old(free)[1..]
      ensures IsList(links, freeList, free)
    {
      if freeList == Null {
        return Null;
      }
      res := freeList;
      freeList := links[freeList];
      free := free[1..];
    }

    /**
     * `applyNewFreePage`: maps the least number of pages (at least one)
     * covering `nElements` units, records the mapping, carves it into as many
     * units as fit and pushes them in ascending address order.
     */
    method ApplyNewFreePage(nElements: nat, base: int)
      requires Valid()
      requires nElements * Stride() < U32
      requires RegionFree(base, PagesFor(nElements))
      modifies this
      ensures Valid()
      ensures vmPages == old(vmPages) + [VMPageMeta(base, PagesFor(nElements))]
      ensures allocatedPages == old(allocatedPages) + PagesFor(nElements)
      ensures allUnits == old(allUnits) + UnitsIn(PagesFor(nElements))
      ensures UnitsIn(PagesFor(nElements)) >= nElements
      ensures free == CarvedUnits(base, Stride(), UnitsIn(PagesFor(nElements))) + old(free)
      ensures live == old(live) && allocatedUnits == old(allocatedUnits)
    {
      var totalUnitSize := elementSize + headerSize;
      var totalInitSize := RequestBytes32(nElements, totalUnitSize);
      var cnt := CountPages(totalInitSize, pageSize);
      var pages := base;
      RecordPages(pages, cnt);
      CarvedInLastPage(pages, cnt);
      CarvePages(pages, cnt);
      UnitsCover(nElements, totalUnitSize, pageSize);
    }

    /**
     * The bookkeeping half of `applyNewFreePage`: add the mapping's pages to
     * the count and append its record. The new mapping holds no unit yet.
     */
    method RecordPages(pages: int, cnt: nat)
      requires Valid() && RegionFree(pages, cnt)
      modifies this`allocatedPages, this`vmPages
      ensures Valid()
      ensures vmPages == old(vmPages) + [VMPageMeta(pages, cnt)]
      ensures allocatedPages == old(allocatedPages) + cnt
      ensures forall u :: u in owner ==> owner[u] < |vmPages| - 1
    {
      allocatedPages := allocatedPages + cnt;
      TotalPagesAppend(vmPages, VMPageMeta(pages, cnt));
      vmPages := vmPages + [VMPageMeta(pages, cnt)];
      assert PagesDisjoint() by {
        forall i, j | 0 <= i < j < |vmPages|
          ensures Disjoint(vmPages[i], vmPages[j])
        {
          if j < |vmPages| - 1 {
            assert Disjoint(old(vmPages)[i], old(vmPages)[j]);
          } else {
            assert Disjoint(old(vmPages)[i], VMPageMeta(pages, cnt));
          }
        }
      }
      assert UnitsPlaced() by {
        forall u | u in owner
          ensures owner[u] < |vmPages| && InPage(u, vmPages[owner[u]])
        {
          assert vmPages[owner[u]] == old(vmPages)[owner[u]];
        }
      }
    }

    /**
     * Every unit carved from the last mapping lies inside it, and no unit
     * the pool placed in an earlier mapping lies in the carved range.
     */
    lemma CarvedInLastPage(pages: int, cnt: nat)
      requires UnitsPlaced() && PagesDisjoint() && elementSize >= 1
      requires |vmPages| > 0 && vmPages[|vmPages| - 1] == VMPageMeta(pages, cnt)
      requires forall u :: u in owner ==> owner[u] < |vmPages| - 1
      ensures forall v :: v in owner ==>
        v + Stride() <= pages || pages + UnitOffset(UnitsIn(cnt), Stride()) <= v
      ensures forall v :: v in CarvedUnits(pages, Stride(), UnitsIn(cnt)) ==>
        InPage(v, VMPageMeta(pages, cnt)) && v !in owner
    {
      var units := UnitsIn(cnt);
      assert UnitOffset(units, Stride()) <= cnt * pageSize;
      CarvedUnitsWithin(pages, Stride(), units);
      var last := vmPages[|vmPages| - 1];
      forall v | v in owner
        ensures v + Stride() <= last.page || last.page + last.size * pageSize <= v
      {
        assert InPage(v, vmPages[owner[v]]);
        assert Disjoint(vmPages[owner[v]], last);
      }
    }

    /**
     * Giving the carved units, all new, to the last mapping and putting them
     * on the free list keeps every unit placed.
     */
    lemma CarvedPlaced(pages: seq<VMPageMeta>, owner0: map<int, nat>, live: set<int>, free0: seq<int>, carved: seq<int>)
      requires Placed(pages, owner0, live, free0) && |pages| > 0
      requires forall v :: v in carved ==> InPage(v, pages[|pages| - 1]) && v !in owner0
      ensures Placed(pages, Claim(owner0, carved, |pages| - 1), live, carved + free0)
    {
    }

    /**
     * The second half of `applyNewFreePage`: carve the last mapping into
     * units and count them all.
     */
    method CarvePages(pages: int, cnt: nat)
      requires elementSize >= 1 && pages > 0 && IsList(links, freeList, free) && Null !in free
      requires UnitsPlaced() && allUnits == allocatedUnits + |free|
      requires |vmPages| > 0 && vmPages[|vmPages| - 1] == VMPageMeta(pages, cnt)
      requires forall v :: v in owner ==>
        v + Stride() <= pages || pages + UnitOffset(UnitsIn(cnt), Stride()) <= v
      requires forall v :: v in CarvedUnits(pages, Stride(), UnitsIn(cnt)) ==>
        InPage(v, VMPageMeta(pages, cnt)) && v !in owner
      modifies this`links, this`freeList, this`free, this`owner, this`allUnits
      ensures IsList(links, freeList, free) && Null !in free
      ensures UnitsPlaced() && allUnits == allocatedUnits + |free|
      ensures allUnits == old(allUnits) + UnitsIn(cnt)
      ensures free == CarvedUnits(pages, Stride(), UnitsIn(cnt)) + old(free)
    {
      var units := UnitsIn(cnt);
      ghost var carved := CarvedUnits(pages, Stride(), units);
      CarvedPlaced(vmPages, owner, live, free, carved);
      PushUnits(pages, units);
      allUnits := allUnits + units;
      owner := Claim(owner, carved, |vmPages| - 1);
    }

    /**
     * The carving loop of `applyNewFreePage`: starting at `first`, push
     * `units` consecutive units, one stride apart, in ascending order. No
     * free unit may lie in the carved range.
     */
    method PushUnits(first: int, units: nat)
      requires elementSize >= 1 && first > 0
      requires IsList(links, freeList, free) && Null !in free
      requires forall v :: v in free ==> v + Stride() <= first || first + UnitOffset(units, Stride()) <= v
      modifies this`links, this`freeList, this`free
      ensures free == CarvedUnits(first, Stride(), units) + old(free)
      ensures IsList(links, freeList, free) && Null !in free
    {
      var totalUnitSize := elementSize + headerSize;
      var ptr := first;
      for i := 0 to units
        invariant ptr == first + UnitOffset(i, totalUnitSize)
        invariant free == CarvedUnits(first, totalUnitSize, i) + old(free)
        invariant IsList(links, freeList, free) && Null !in free
      {
        assert ptr !in free by {
          UnitOffsetMonotone(i + 1, units, totalUnitSize);
          assert ptr !in old(free);
          CarvedUnitsWithin(first, totalUnitSize, i);
        }
        InsertToHead(ptr);
        ptr := ptr + totalUnitSize;
      }
    }

    /**
     * `malloc`: grows by one request's worth of pages (for a single unit)
     * only when the free list is empty, then pops the head unit and returns
     * its payload address.
     */
    method Malloc(region: int) returns (p: int)
      requires Valid()
      requires RegionFree(region, PagesFor(1))
      modifies this
      ensures Valid()
      ensures p - headerSize !in old(live)
      ensures live == old(live) + {p - headerSize}
      ensures allocatedUnits == old(allocatedUnits) + 1
      ensures old(free) != [] ==>
        p == old(free)[0] + headerSize && free == old(free)[1..] &&
        vmPages == old(vmPages) && allocatedPages == old(allocatedPages) && allUnits == old(allUnits)
      ensures old(free) == [] ==>
        var cnt := PagesFor(1);
        var k := UnitsIn(cnt);
        k >= 1 &&
        vmPages == old(vmPages) + [VMPageMeta(region, cnt)] &&
        allocatedPages == old(allocatedPages) + cnt && allUnits == old(allUnits) + k &&
        p == region + (k - 1) * Stride() + headerSize &&
        free == CarvedUnits(region, Stride(), k)[1..]
    {
      IsListEmpty(links, freeList, free);
      if freeList == Null {
        ApplyNewFreePage(1, region);
        UnitsCover(1, Stride(), pageSize);
        CarvedUnitsAt(region, Stride(), UnitsIn(PagesFor(1)), 0);
      }
      var unit := TakeHead();
      p := unit + headerSize;
    }

    /**
     * The allocation step of `malloc` once the free list is known to be
     * non-empty: count one more allocated unit and pop the head.
     */
    method TakeHead() returns (unit: int)
      requires Valid() && free != []
      modifies this`allocatedUnits, this`freeList, this`free, this`live
      ensures Valid()
      ensures unit == old(free)[0] && free == old(free)[1..]
      ensures unit !in old(live) && live == old(live) + {unit}
      ensures allocatedUnits == old(allocatedUnits) + 1
    {
      allocatedUnits := allocatedUnits + 1;
      ghost var before := free;
      IsListDistinct(links, freeList, free);
      unit := RemoveFromHead();
      assert unit == before[0] && unit !in free;
      live := live + {unit};
    }

    /**
     * `free`: recovers the unit from the payload address and pushes it back
     * as the new head. The caller must pass an address `Malloc` returned and
     * that was not freed since; the source checks nothing.
     */
    method Free(ptr: int)
      requires Valid()
      requires ptr - headerSize in live
      modifies this
      ensures Valid()
      ensures freeList == ptr - headerSize && free == [ptr - headerSize] + old(free)
      ensures live == old(live) - {ptr - headerSize}
      ensures allocatedUnits == old(allocatedUnits) - 1
      ensures vmPages == old(vmPages) && allocatedPages == old(allocatedPages) && allUnits == old(allUnits)
    {
      var unit := ptr - headerSize;
      assert unit in owner && InPage(unit, vmPages[owner[unit]]);
      allocatedUnits := allocatedUnits - 1;
      InsertToHead(unit);
      live := live - {unit};
    }

    /**
     * The destructor: hands every page record to `returnPageToKernel`
     * exactly once, in the order they were mapped. The result lists those
     * calls; no two released regions overlap, so no page is unmapped twice.
     */
    method ReleasePages() returns (released: seq<VMPageMeta>)
      requires Valid()
      ensures released == vmPages
      ensures forall i, j :: 0 <= i < j < |released| ==> Disjoint(released[i], released[j])
    {
      released := [];
      for i := 0 to |vmPages|
        invariant released == vmPages[..i]
      {
        released := released + [vmPages[i]];
      }
    }
  }

  /** Free units are distinct: no unit can be handed out twice in a row. */
  lemma FreeUnitsDistinct(pool: FixedMemoryPool)
    requires pool.Valid()
    ensures Distinct(pool.free)
  {
    IsListDistinct(pool.links, pool.freeList, pool.free);
  }
}
