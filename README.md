# Fixed-size memory pool and path joining, modelled in Dafny

This project models two pieces of a small C++ systems toolkit:

- **`FixedMemoryPool<T>`** (`fixedmemorypool_bad.hpp`). The pool maps whole
  pages from the kernel and carves them into fixed-stride units. Each unit is
  a one-pointer header followed by `sizeof(T)` payload bytes. Free units sit
  on an intrusive LIFO free list threaded through their headers.
  - `malloc` pops the head unit and returns its payload address. When the list
    is empty, it first maps and carves a fresh request.
  - `free` steps back over the header and pushes the unit onto the list again.
  - The counters `allocatedPages`, `allUnits` and `allocatedUnits` and the
    page-record vector `vmPages` are updated step by step.
- **`Path`** (`pathutil.hpp`). A string wrapper.
  - `joinInplace` appends a component, inserting `/` only when the path is
    non-empty and does not already end in one.
  - `joinCopy` does the same on a copy.
  - `reset` and the constructor store a path verbatim.
  - `isDir` tests the `S_IFDIR` bit of a `st_mode`.

## Modules

- `pool_arith.dfy`, module `PoolArith`: the arithmetic of `applyNewFreePage`.
  - The page count is the least `c >= 1` whose pages cover the request.
  - The number of units carved is `cnt * pageSize / stride`. It is defined
    recursively and proved equal to the quotient.
  - Carved unit `i` sits at `base + i * stride`.
  - The list of carved units is in the order the carving loop leaves them on
    the free list.
  - The source computes the request size as a `uint32_t` product.
- `free_list.dfy`, module `FreeList`: the intrusive singly linked list.
  - The unit headers are a map from a unit's address to its `next` field.
  - `IsList(links, head, s)` says that following the headers from `head`
    visits exactly `s` and then reaches null.
  - Lemmas: the list is unique, has no repeated unit, and is unaffected by
    writes to units not on it; also push-then-pop.
- `fixed_memory_pool.dfy`, module `Pool`: the class `FixedMemoryPool`.
  - Its fields are those of the source: the free-list head, the page records
    and the three counters.
  - It also keeps the unit headers and ghost state:
    - the free list as a sequence, head first;
    - the set of live (handed-out) units;
    - the mapping each unit was carved from.
  - `Valid()` is the pool invariant. It states:
    - the conservation law `allUnits == allocatedUnits + |free list|`;
    - `allocatedPages` is the sum of the page records;
    - every unit lies inside its mapping and is either free or live, never
      both;
    - mappings never overlap.
  - The constructor, `Malloc`, `Free` and `ApplyNewFreePage` establish or
    preserve `Valid()` and state the free list, the live set, the counters
    and the page records they leave. The list and carving steps
    (`InsertToHead`, `RemoveFromHead`, `CarvePages`, `PushUnits`) state the
    free list they leave and the list invariant they keep.
- `pool_scenarios.dfy`, module `PoolScenarios`: call sequences whose outcome
  follows from the contracts.
  - `free(p)` then `malloc()` returns `p`.
  - `malloc()` then `free` restores the pool.
  - A pool built for 10 elements survives 11 `malloc` calls without mapping
    again.
- `path_util.dfy`, module `PathUtil`: the class `Path`, the pure join
  function `Joined` that specifies it, and `isDir`.

Addresses are integers and `0` stands for `nullptr`. The page size,
`sizeof(T)` and the header size are constructor parameters.

Two behaviours of the code are easy to misread, and the model keeps both:

- **Growth.** `applyNewFreePage` maps `PageCount(n * stride)` pages and
  carves every unit that fits (`cnt * pageSize / stride`,
  fixedmemorypool_bad.hpp:72, 77), both at construction and when `malloc`
  grows with `applyNewFreePage(1)` (fixedmemorypool_bad.hpp:43). So a pool
  for 10 four-byte elements, with 8-byte headers and 4096-byte pages, holds
  341 units, and its 11th `malloc` maps nothing
  (`PoolScenarios.ElevenFromTen`).
- **Capacity 0.** The page-count loop (fixedmemorypool_bad.hpp:66-67) yields
  at least one page, so even `nElements == 0` maps one page and carves it.

## Model

| member | source | states |
|---|---|---|
| PoolArith.PageCount | fixedmemorypool_bad.hpp:66-67 | the page count is at least 1, its pages cover the request, and one page fewer would not (unless it is 1) |
| PoolArith.PageCountLeast | fixedmemorypool_bad.hpp:66-67 | no count `c >= 1` whose pages cover the request is smaller than the chosen count |
| PoolArith.PageCountUnique | fixedmemorypool_bad.hpp:66-67 | the three properties of the page count determine it uniquely |
| PoolArith.CountPages | fixedmemorypool_bad.hpp:66-67 | the counting loop (start at one page, add pages while they fall short of the request) ends with exactly `PageCount` |
| PoolArith.UnitOffsetIsProduct | fixedmemorypool_bad.hpp:71-72 | advancing the carving pointer by one stride `k` times reaches offset `k * stride` |
| PoolArith.UnitsFor | fixedmemorypool_bad.hpp:72 | the number of carved units is the largest `k` whose `k` strides fit in the mapped bytes: `k` strides fit and `k + 1` do not |
| PoolArith.UnitsForIsQuotient | fixedmemorypool_bad.hpp:72 | the carved-unit count equals the integer quotient `cnt * SYSTEM_PAGE_SIZE / totalUnitSize` the loop bound computes |
| PoolArith.UnitsFit | fixedmemorypool_bad.hpp:72-75 | every carved unit, header and payload, ends inside the mapped bytes |
| PoolArith.UnitsCover | fixedmemorypool_bad.hpp:63-77 | with the unbounded product, a request for `n` elements carves at least `n` units, so at least one when `n >= 1` |
| PoolArith.RequestBytes32 | fixedmemorypool_bad.hpp:64 | the request size is below 2^32 and equals `nElements * totalUnitSize` whenever that product fits in 32 bits |
| PoolArith.RequestBytes32Shortfall | fixedmemorypool_bad.hpp:64-72 | for 357913942 elements of stride 12, the 32-bit request is 8 bytes, so one 4096-byte page of 341 units is carved: fewer than requested |
| PoolArith.CarvedUnits | fixedmemorypool_bad.hpp:71-76 | the carved units in free-list order: one per index, the last pushed (highest) first |
| PoolArith.CarvedUnitsWithin | fixedmemorypool_bad.hpp:71-72 | the first `k` carved units lie in the `k * stride` bytes that start at the mapping |
| PoolArith.CarvedUnitsAt | fixedmemorypool_bad.hpp:71-76 | position `j` of the free list after carving `k` units holds `base + (k - 1 - j) * stride`, so the head is the highest unit |
| FreeList.IsListEmpty | fixedmemorypool_bad.hpp:105 | a null head means an empty list and nothing else does |
| FreeList.InsertThenRemove | fixedmemorypool_bad.hpp:94-109 | pushing `u` gives the list `[u] + s`, and popping it again returns `u` and restores the old head and list |
| FreeList.IsListDistinct | fixedmemorypool_bad.hpp:94-109 | a null-terminated free list never visits a unit twice |
| Pool.TotalPagesAppend | fixedmemorypool_bad.hpp:69-70 | appending a page record adds its size to the page total |
| Pool.FixedMemoryPool.constructor | fixedmemorypool_bad.hpp:32-34 | construction runs `applyNewFreePage(nElements)` on an empty pool: one mapping of `PageCount` pages, at least `nElements` units all free in carved order, nothing live, pool invariant established |
| Pool.FixedMemoryPool.InsertToHead | fixedmemorypool_bad.hpp:94-102 | `unit` becomes the head, its header holds the old head (null when empty), the rest of the list is unchanged, and both source branches agree |
| Pool.FixedMemoryPool.RemoveFromHead | fixedmemorypool_bad.hpp:104-109 | on an empty list returns null and leaves the head null; otherwise returns the old head, moves the head to its `next`, and drops the first list element |
| Pool.FixedMemoryPool.ApplyNewFreePage | fixedmemorypool_bad.hpp:62-78 | appends exactly one record `{base, PageCount}`, adds its pages to `allocatedPages`, and puts `cnt * PAGE / stride` units (at least `nElements`) in front of the old free list and into `allUnits`; live units unchanged; invariant kept |
| Pool.FixedMemoryPool.RecordPages | fixedmemorypool_bad.hpp:68-70 | the new record is appended and counted; mappings stay disjoint and no existing unit belongs to the new one |
| Pool.FixedMemoryPool.CarvedInLastPage | fixedmemorypool_bad.hpp:71-76 | carved units lie inside the fresh mapping and are new, and no existing unit lies in the carved range |
| Pool.FixedMemoryPool.CarvePages | fixedmemorypool_bad.hpp:71-77 | carving pushes exactly the carved units in front of the old list and adds their number to `allUnits`, keeping the list and unit placement invariants |
| Pool.FixedMemoryPool.PushUnits | fixedmemorypool_bad.hpp:71-76 | the carving loop pushes `base, base + stride, ...` in ascending order, leaving them highest first in front of the old list |
| Pool.FixedMemoryPool.Malloc | fixedmemorypool_bad.hpp:40-48 | grows only when the list is empty; returns head unit + header size; that unit was not live and now is; `allocatedUnits` rises by 1; pages and `allUnits` change only on the growth path, where the returned unit is the highest carved one; invariant kept |
| Pool.FixedMemoryPool.TakeHead | fixedmemorypool_bad.hpp:44-46 | on a non-empty list, counts one more allocation and pops the head, which was not live and becomes live |
| Pool.FixedMemoryPool.Free | fixedmemorypool_bad.hpp:50-55 | recovers the unit at `ptr - headerSize`, the inverse of `malloc`'s offset; it becomes the head; `allocatedUnits` drops by 1; pages and `allUnits` are untouched; invariant kept |
| Pool.FixedMemoryPool.ReleasePages | fixedmemorypool_bad.hpp:35-38 | the destructor releases every page record exactly once, in mapping order, and in a valid pool no two released regions overlap, so no page is unmapped twice |
| Pool.FreeUnitsDistinct | fixedmemorypool_bad.hpp:155-160 | in every valid pool the free units are pairwise distinct, so no unit is handed out twice without a `free` in between |
| PoolScenarios.FreeThenMalloc | fixedmemorypool_bad.hpp:40-55 | `free(p)` then `malloc()` returns `p` and leaves counters, live set and mappings as they were |
| PoolScenarios.MallocThenFree | fixedmemorypool_bad.hpp:40-55 | on a non-empty list, `malloc()` then `free` restores the free list, live set and every counter |
| PoolScenarios.ElevenFromTen | fixedmemorypool_bad.hpp:32-48 | a pool for 10 four-byte elements holds one page of 341 units, and 11 `malloc` calls leave `allocatedPages == 1` |
| PathUtil.Joined | pathutil.hpp:34-37 | joining onto an empty path gives the component; the result is the two lengths plus at most one separator |
| PathUtil.JoinedPrefixSuffix | pathutil.hpp:34-37 | the joined path starts with the old path and ends with the component, and when the old path is non-empty the character just before the component is `/` |
| PathUtil.JoinedLength | pathutil.hpp:35 | one extra character (the `/`) is added exactly when the path is non-empty and does not end in `/`, none otherwise |
| PathUtil.JoinedNeedsSeparator | pathutil.hpp:35-36 | after a join, the next join needs a separator exactly when the last component is non-empty and needs one |
| PathUtil.JoinedAssociative | pathutil.hpp:34-37 | `a.join(b).join(c)` and `a.join(b.join(c))` give the same path for all components |
| PathUtil.Path.constructor | pathutil.hpp:26 | stores its argument verbatim |
| PathUtil.Path.Reset | pathutil.hpp:27 | replaces the path with its argument verbatim |
| PathUtil.Path.JoinInplace | pathutil.hpp:34-37 | the new path is `Joined(old path, subPath)` |
| PathUtil.Path.JoinCopy | pathutil.hpp:39-43 | returns a fresh `Path` holding what `joinInplace` would produce, and leaves the receiver unchanged |
| PathUtil.Path.GetPathString | pathutil.hpp:72-74 | returns the stored path unchanged; the round trips with `reset` and the constructor are `ResetThenGet` and `ConstructThenGet` |
| PathUtil.ResetThenGet | pathutil.hpp:27-74 | `reset(s)` followed by `getPathString()` returns `s` |
| PathUtil.ConstructThenGet | pathutil.hpp:26-74 | a `Path` constructed from `s` reports `s` from `getPathString()` |
| PathUtil.JoinCopyThenGet | pathutil.hpp:34-43 | `joinCopy(s)` yields the same path string that `joinInplace(s)` leaves on the receiver |
| PathUtil.IsDir | pathutil.hpp:76-78 | a directory always passes; among the POSIX file types, exactly directories, block devices and sockets pass |
| PathUtil.IsDirBlockDevice | pathutil.hpp:76-78 | a block device with mode 0644 passes `isDir` though it is not a directory |
| PathUtil.IsDirectory | pathutil.hpp:76-78 | the intended directory test accepts only entries `isDir` accepts, and over the POSIX types it drops exactly block devices and sockets |

## Left out

- `SpinLock` and `SpinLockGuard` (fixedmemorypool_bad.hpp:112-127): concurrency is not modelled. Each `malloc` and `free` is one atomic step.
- `getNPageFromKernel` and `returnPageToKernel` (fixedmemorypool_bad.hpp:129-152) are `mmap` and `munmap`.
  - A mapping is a region address passed in by the caller. It must be non-null and must overlap no existing mapping.
  - The `MAP_FAILED` to null path is excluded by that precondition, because the carving loop would dereference null.
  - The destructor is modelled as the list of records it releases.
- `memset` (fixedmemorypool_bad.hpp:74, 142): byte contents and payloads are not modelled. Only the `next` header of each unit is.
- `printStatistic` and `test()` (fixedmemorypool_bad.hpp:57-59, 167-218): console output and a multithreaded benchmark.
- `Path::isExist` and `Path::listDir` (pathutil.hpp:28-32, 45-71): filesystem I/O and `errno`. `DirMetaInfo` keeps only a name and `st_mode`.
- FIFO_server_client.cpp, measureutil.hpp and python_script/performance_measure.py are not part of this model. They hold IPC, timing and profiling I/O only.
- PathUtil.Path.JoinInplace: the component is a value. In the source it is a `const string&`, so the self-aliased call `p.joinInplace(p.getPathString())` sees the separator appended at line 35 and gives `"a/a/"` for `"a"`, where the model gives `"a/a"`. That aliasing is not modelled; `joinCopy` is unaffected because it joins on a copy.
- Pool.FixedMemoryPool.ApplyNewFreePage: requires `nElements * stride < 2^32`, which excludes the 32-bit wrap of the request size. The wrap itself is modelled and shown in the findings below.
- Pool.FixedMemoryPool.constructor: has the same 32-bit precondition as `ApplyNewFreePage`.
- Pool.FixedMemoryPool.Malloc: the counters are unbounded naturals. The `uint32_t` wrap of `allocatedUnits`, `allUnits` and `allocatedPages` after 2^32 units or pages is not modelled.
- Pool.FixedMemoryPool.Free: requires that `ptr` was returned by `malloc` and not freed since. The source checks nothing, and a double or foreign `free` corrupts the list; that undefined behaviour is not modelled.

## Findings

| source | as written | input that shows it | evidently intended | confidence | as-written member | corrected member |
|---|---|---|---|---|---|---|
| fixedmemorypool_bad.hpp:64 | `uint32_t totalInitSize = nElements * totalUnitSize` wraps modulo 2^32 | `nElements = 357913942` with a 4-byte element and an 8-byte header (stride 12) and 4096-byte pages: the request is 8 bytes, so one page of 341 units is carved | the pool holds at least `nElements` units | not executed | PoolArith.RequestBytes32Shortfall | PoolArith.UnitsCover |
| pathutil.hpp:77 | `st_mode & S_IFDIR` tests one bit, which the block-device (`0060000`) and socket (`0140000`) types also contain | a block device with mode `0060644` | true for directories only, as POSIX `S_ISDIR` (`(st_mode & S_IFMT) == S_IFDIR`) | not executed | PathUtil.IsDirBlockDevice | PathUtil.IsDirectory |
