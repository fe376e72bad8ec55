/**
 * Page and unit arithmetic of the fixed-size memory pool: how many pages a
 * request maps, how many units a mapping is carved into, and where each
 * carved unit sits.
 */
module PoolArith {

  /** Number of values of the source's `uint32_t`. */
  const U32: nat := 0x1_0000_0000

  /**
   * The page count that `applyNewFreePage` settles on for a request of
   * `totalSize` bytes: the least count, never below one, whose pages cover
   * the request.
   */
  function PageCount(totalSize: nat, pageSize: nat): (cnt: nat)
    requires pageSize >= 1
    ensures cnt >= 1
    ensures cnt * pageSize >= totalSize
    ensures cnt == 1 || (cnt - 1) * pageSize < totalSize
    decreases totalSize
  {
    if totalSize <= pageSize then 1
    else
      var rest := PageCount(totalSize - pageSize, pageSize);
      assert (rest + 1) * pageSize == rest * pageSize + pageSize;
      rest + 1
  }

  lemma MulMonotone(a: nat, b: nat, c: nat)
    requires a <= b
    ensures a * c <= b * c
  {
    var d := b - a;
    assert b * c == a * c + d * c;
  }

  /** No smaller positive count covers the request. */
  lemma PageCountLeast(totalSize: nat, pageSize: nat, c: nat)
    requires pageSize >= 1
    requires c >= 1 && c * pageSize >= totalSize
    ensures PageCount(totalSize, pageSize) <= c
  {
    var r := PageCount(totalSize, pageSize);
    if r > c {
      MulMonotone(c, r - 1, pageSize);
      assert false;
    }
  }

  /** The three properties of PageCount pin it down. */
  lemma PageCountUnique(totalSize: nat, pageSize: nat, c: nat)
    requires pageSize >= 1
    requires c >= 1 && c * pageSize >= totalSize
    requires c == 1 || (c - 1) * pageSize < totalSize
    ensures c == PageCount(totalSize, pageSize)
  {
    var r := PageCount(totalSize, pageSize);
    PageCountLeast(totalSize, pageSize, c);
    if r < c {
      MulMonotone(r, c - 1, pageSize);
    }
  }

  /**
   * The counting loop of `applyNewFreePage`: start from one page and add
   * pages while they fall short of the request.
   */
  method CountPages(totalSize: nat, pageSize: nat) returns (cnt: nat)
    requires pageSize >= 1
    ensures cnt == PageCount(totalSize, pageSize)
  {
    cnt := 1;
    while cnt * pageSize < totalSize
      invariant cnt >= 1
      invariant cnt == 1 || (cnt - 1) * pageSize < totalSize
      decreases totalSize - cnt * pageSize
    {
      assert (cnt + 1) * pageSize == cnt * pageSize + pageSize;
      cnt := cnt + 1;
    }
    PageCountUnique(totalSize, pageSize, cnt);
  }

  /**
   * The byte offset of unit `k` in its mapping: `k` strides, accumulated one
   * stride at a time as the carving loop advances its pointer.
   */
  function UnitOffset(k: nat, stride: nat): nat
  {
    if k == 0 then 0 else UnitOffset(k - 1, stride) + stride
  }

  lemma {:induction false} UnitOffsetIsProduct(k: nat, stride: nat)
    ensures UnitOffset(k, stride) == k * stride
  {
    if k > 0 {
      UnitOffsetIsProduct(k - 1, stride);
      assert (k - 1) * stride + stride == k * stride;
    }
  }

  lemma {:induction false} UnitOffsetMonotone(j: nat, k: nat, stride: nat)
    requires j <= k
    ensures UnitOffset(j, stride) <= UnitOffset(k, stride)
    decreases k
  {
    if j < k {
      UnitOffsetMonotone(j, k - 1, stride);
    }
  }

  /**
   * The number of whole units of `stride` bytes that fit in `bytes` bytes,
   * which is what the source's `cnt * SYSTEM_PAGE_SIZE / totalUnitSize`
   * computes (UnitsForIsQuotient).
   */
  function UnitsFor(bytes: nat, stride: nat): (k: nat)
    requires stride >= 1
    ensures UnitOffset(k, stride) <= bytes < UnitOffset(k, stride) + stride
    decreases bytes
  {
    if bytes < stride then 0 else UnitsFor(bytes - stride, stride) + 1
  }

  lemma UnitsForIsQuotient(bytes: nat, stride: nat)
    requires stride >= 1
    ensures UnitsFor(bytes, stride) == bytes / stride
  {
    var k := UnitsFor(bytes, stride);
    UnitOffsetIsProduct(k, stride);
    var q, r := bytes / stride, bytes % stride;
    QuotientUnique(bytes, stride, k, q, r);
  }

  /** Only one count of whole strides leaves a remainder below one stride. */
  lemma QuotientUnique(x: nat, stride: nat, k: nat, q: nat, r: nat)
    requires stride >= 1
    requires k * stride <= x < k * stride + stride
    requires q * stride + r == x && r < stride
    ensures k == q
  {
    if k < q {
      assert (k + 1) * stride == k * stride + stride;
      MulMonotone(k + 1, q, stride);
      assert false;
    } else if q < k {
      assert (q + 1) * stride == q * stride + stride;
      MulMonotone(q + 1, k, stride);
      assert false;
    }
  }

  /** Every carved unit, header and payload, lies inside the mapped bytes. */
  lemma UnitsFit(bytes: nat, stride: nat, i: nat)
    requires stride >= 1
    requires i < UnitsFor(bytes, stride)
    ensures UnitOffset(i, stride) + stride <= bytes
  {
    UnitOffsetMonotone(i + 1, UnitsFor(bytes, stride), stride);
  }

  /**
   * A request for `nElements` units of `stride` bytes maps enough pages to
   * carve at least `nElements` units (and so at least one when
   * `nElements >= 1`).
   */
  lemma UnitsCover(nElements: nat, stride: nat, pageSize: nat)
    requires stride >= 1 && pageSize >= 1
    ensures UnitsFor(PageCount(nElements * stride, pageSize) * pageSize, stride) >= nElements
  {
    UnitsAtLeast(PageCount(nElements * stride, pageSize) * pageSize, stride, nElements);
  }

  /** If `n` units fit in `bytes` bytes, at least `n` are carved. */
  lemma UnitsAtLeast(bytes: nat, stride: nat, n: nat)
    requires stride >= 1 && n * stride <= bytes
    ensures UnitsFor(bytes, stride) >= n
  {
    var k := UnitsFor(bytes, stride);
    if k < n {
      UnitOffsetIsProduct(n, stride);
      UnitOffsetMonotone(k + 1, n, stride);
      assert false;
    }
  }

  /**
   * `nElements * totalUnitSize` as the source computes it: a `uint32_t`
   * product, so reduced modulo 2^32.
   */
  function RequestBytes32(nElements: nat, stride: nat): (r: nat)
    ensures r < U32
    ensures nElements * stride < U32 ==> r == nElements * stride
  {
    (nElements * stride) % U32
  }

  /**
   * With the 32-bit product, a pool of 357913942 four-byte elements (stride
   * 12, 4096-byte pages) requests 8 bytes, maps one page and carves only 341
   * units.
   */
  lemma RequestBytes32Shortfall()
    ensures var n := 357913942;
      RequestBytes32(n, 12) == 8 &&
      UnitsFor(PageCount(RequestBytes32(n, 12), 4096) * 4096, 12) == 341 &&
      341 < n
  {
    UnitsForIsQuotient(4096, 12);
  }

  /**
   * The units carved from a region at `base`, in the order the carving loop
   * leaves them on the free list: the loop pushes `base`, `base + stride`,
   * ..., so the last one pushed, the highest, is the head.
   */
  function CarvedUnits(base: int, stride: nat, k: nat): (r: seq<int>)
    ensures |r| == k
  {
    if k == 0 then [] else [base + UnitOffset(k - 1, stride)] + CarvedUnits(base, stride, k - 1)
  }

  /** The first `k` units, headers and payloads, fill `UnitOffset(k, stride)` bytes from `base`. */
  lemma {:induction false} CarvedUnitsWithin(base: int, stride: nat, k: nat)
    ensures forall v :: v in CarvedUnits(base, stride, k) ==> base <= v && v + stride <= base + UnitOffset(k, stride)
  {
    if k > 0 {
      CarvedUnitsWithin(base, stride, k - 1);
    }
  }

  /** Position `j` of the carved list holds the unit of index `k - 1 - j`. */
  lemma {:induction false} CarvedUnitsAt(base: int, stride: nat, k: nat, j: nat)
    requires j < k
    ensures CarvedUnits(base, stride, k)[j] == base + (k - 1 - j) * stride
  {
    if j > 0 {
      CarvedUnitsAt(base, stride, k - 1, j - 1);
    } else {
      UnitOffsetIsProduct(k - 1, stride);
    }
  }
}
