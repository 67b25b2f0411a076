/** The state of the hugepage allocator (lib/common/nvme_mem.c) and what its
    operations keep.  Every hugepage carries one heap; both are one `Page` here,
    known by the hugepage's virtual address. */
module Memory {
  import opened Common
  import opened Lists
  import opened Bits

  const MIN_BITS: nat := 7
  const MAX_BITS: nat := 21
  const POOLS: nat := 15
  const BUCKETS: nat := 32

  /** A hugepage and its heap of equally sized slots; a set bit is an allocated
      slot. */
  datatype Page = Page(paddr: nat, pool: nat, nrObjs: nat, nrFree: nat, bitmap: seq<bv8>)

  /** Slots of 2^sizeBits bytes; `use` lists the heaps with a free slot. */
  datatype Mempool = Mempool(sizeBits: nat, nrObjs: nat, nrFree: nat, nrUse: nat, use: seq<nat>, nrFull: nat, full: seq<nat>)

  /** hpBits: hugepages have 2^hpBits bytes. */
  datatype Mem = Mem(hpBits: nat, buckets: seq<seq<nat>>, nrHp: nat, pools: seq<Mempool>, pages: map<nat, Page>)

  function HpSize(m: Mem): nat {
    Pow2(m.hpBits)
  }

  function Hash(m: Mem, v: nat): (h: nat)
    ensures h < BUCKETS
  {
    v / HpSize(m) % BUCKETS
  }

  function SlotSize(i: nat): nat {
    Pow2(MIN_BITS + i)
  }

  /** Slots of a heap in pool i. */
  function Slots(m: Mem, i: nat): nat
    requires i < POOLS && m.hpBits >= MAX_BITS
  {
    Pow2(m.hpBits - MIN_BITS - i)
  }

  // ---------------------------------------------------------------- invariant

  ghost predicate PageInv(m: Mem, v: nat)
    requires m.hpBits >= MAX_BITS && v in m.pages
  {
    var p := m.pages[v];
    && v % HpSize(m) == 0
    && p.pool < POOLS
    && p.nrObjs == Slots(m, p.pool)
    && Covers(p.bitmap, p.nrObjs)
    && (CoversBit(p.bitmap, p.nrObjs); p.nrFree == CountClear(p.bitmap, p.nrObjs))
  }

  /** Free slots of the listed heaps. */
  ghost function SumFree(pages: map<nat, Page>, list: seq<nat>): nat {
    if list == [] then 0
    else (if list[0] in pages then pages[list[0]].nrFree else 0) + SumFree(pages, list[1..])
  }

  predicate InUse(pages: map<nat, Page>, i: nat, v: nat) {
    v in pages && pages[v].pool == i && pages[v].nrFree > 0
  }

  predicate IsFull(pages: map<nat, Page>, i: nat, v: nat) {
    v in pages && pages[v].pool == i && pages[v].nrFree == 0
  }

  /** The lists hold the pool's heaps, full or not. */
  ghost predicate PoolLists(pages: map<nat, Page>, q: Mempool, i: nat) {
    && NoDup(q.use) && NoDup(q.full)
    && (forall v :: v in q.use <==> InUse(pages, i, v))
    && (forall v :: v in q.full <==> IsFull(pages, i, v))
  }

  /** The counters are the sums over the heaps, each with n slots. */
  ghost predicate PoolCounts(pages: map<nat, Page>, q: Mempool, n: nat) {
    && q.nrUse == |q.use| && q.nrFull == |q.full|
    && q.nrObjs == (|q.use| + |q.full|) * n
    && q.nrFree == SumFree(pages, q.use)
  }

  ghost predicate PoolInv(m: Mem, i: nat)
    requires i < POOLS && m.hpBits >= MAX_BITS && |m.pools| == POOLS
  {
    && m.pools[i].sizeBits == MIN_BITS + i
    && PoolLists(m.pages, m.pools[i], i)
    && PoolCounts(m.pages, m.pools[i], Slots(m, i))
  }

  /** The hash table indexes exactly the hugepages there are. */
  ghost predicate HashInv(m: Mem) {
    && |m.buckets| == BUCKETS
    && (forall b :: 0 <= b < BUCKETS ==> NoDup(m.buckets[b]))
    && (forall b, v :: 0 <= b < BUCKETS ==> (v in m.buckets[b] <==> v in m.pages && Hash(m, v) == b))
    && m.nrHp == |m.pages|
  }

  predicate Empty(p: Page) {
    p.nrFree == p.nrObjs
  }

  predicate EmptyHeap(m: Mem, i: nat, v: nat) {
    v in m.pages && m.pages[v].pool == i && Empty(m.pages[v])
  }

  /** At most one heap of pool i is wholly empty. */
  ghost predicate OneEmpty(m: Mem, i: nat) {
    forall v, w :: EmptyHeap(m, i, v) && EmptyHeap(m, i, w) ==> v == w
  }

  /** Bookkeeping that every step keeps. */
  ghost predicate Books(m: Mem) {
    && m.hpBits >= MAX_BITS
    && |m.pools| == POOLS
    && (forall v :: v in m.pages ==> PageInv(m, v))
    && (forall i :: 0 <= i < POOLS ==> PoolInv(m, i))
    && HashInv(m)
  }

  /** What holds between calls. */
  ghost predicate MemInv(m: Mem) {
    Books(m) && forall i :: 0 <= i < POOLS ==> OneEmpty(m, i)
  }

  // ------------------------------------------------------------ sums over heaps

  lemma {:induction false} SumUpdate(pages: map<nat, Page>, list: seq<nat>, v: nat, p: Page)
    requires NoDup(list) && v in pages
    ensures SumFree(pages[v := p], list) + (if v in list then pages[v].nrFree else 0)
         == SumFree(pages, list) + (if v in list then p.nrFree else 0)
  {
    if list != [] {
      NoDupTail(list);
      SumUpdate(pages, list[1..], v, p);
    }
  }

  lemma {:induction false} SumRemove(pages: map<nat, Page>, list: seq<nat>, v: nat)
    requires NoDup(list) && v in list && v in pages
    ensures SumFree(pages, list) == SumFree(pages, Remove(list, v)) + pages[v].nrFree
  {
    if list[0] != v {
      NoDupTail(list);
      SumRemove(pages, list[1..], v);
      assert Remove(list, v)[1..] == Remove(list[1..], v);
    }
  }

  lemma {:induction false} SumOutside(pages: map<nat, Page>, pages': map<nat, Page>, list: seq<nat>)
    requires forall v :: v in list ==> v in pages && v in pages' && pages[v] == pages'[v]
    ensures SumFree(pages', list) == SumFree(pages, list)
  {
    if list != [] {
      SumOutside(pages, pages', list[1..]);
    }
  }

  // ------------------------------------------------------- changing one heap

  /** Only page v of pool i and the pool's own record may differ. */
  ghost predicate Local(m: Mem, m': Mem, i: nat, v: nat) {
    && m'.hpBits == m.hpBits
    && |m'.pools| == |m.pools|
    && (forall j :: 0 <= j < |m.pools| && j != i ==> m'.pools[j] == m.pools[j])
    && (forall w :: w != v ==> (w in m'.pages <==> w in m.pages))
    && (forall w :: w != v && w in m.pages ==> m'.pages[w] == m.pages[w])
    && (v in m.pages ==> m.pages[v].pool == i)
    && (v in m'.pages ==> m'.pages[v].pool == i)
  }

  lemma OtherPools(m: Mem, m': Mem, i: nat, v: nat, j: nat)
    requires Local(m, m', i, v) && m.hpBits >= MAX_BITS && |m.pools| == POOLS
    requires j < POOLS && j != i && PoolInv(m, j)
    ensures PoolInv(m', j)
  {
    var q := m.pools[j];
    forall w | w in q.use ensures w in m.pages && w in m'.pages && m.pages[w] == m'.pages[w] {
      assert InUse(m.pages, j, w);
    }
    SumOutside(m.pages, m'.pages, q.use);
    assert forall w :: InUse(m'.pages, j, w) <==> InUse(m.pages, j, w);
    assert forall w :: IsFull(m'.pages, j, w) <==> IsFull(m.pages, j, w);
  }

  lemma OtherPages(m: Mem, m': Mem, i: nat, v: nat)
    requires Local(m, m', i, v) && m.hpBits >= MAX_BITS
    requires forall w :: w in m.pages ==> PageInv(m, w)
    requires v in m'.pages ==> PageInv(m', v)
    ensures forall w :: w in m'.pages ==> PageInv(m', w)
  {
    hide CountClear, Covers, Pow2;
    forall w | w in m'.pages && w != v ensures PageInv(m', w) {
      assert PageInv(m, w);
    }
  }

  lemma SameKeys(m: Mem, m': Mem)
    requires HashInv(m) && m'.buckets == m.buckets && m'.nrHp == m.nrHp && m'.hpBits == m.hpBits
    requires m'.pages.Keys == m.pages.Keys
    ensures HashInv(m')
  {
    assert |m'.pages.Keys| == |m.pages.Keys|;
    assert forall v :: Hash(m', v) == Hash(m, v);
  }

  // --------------------------------------------------------------- operations

  /** The pool's side of an allocation from heap v: one free slot less, and the
      heap moves to the full list with its last slot. */
  function TakeFrom(q: Mempool, v: nat, last: bool): Mempool
    requires q.nrFree > 0 && q.nrUse > 0
  {
    if last then
      q.(nrFree := q.nrFree - 1, use := Remove(q.use, v), nrUse := q.nrUse - 1,
         full := [v] + q.full, nrFull := q.nrFull + 1)
    else q.(nrFree := q.nrFree - 1)
  }

  /** The reverse: a full heap moves to the head of the use list. */
  function PutInto(q: Mempool, v: nat, first: bool): Mempool
    requires first ==> q.nrFull > 0
  {
    if first then
      q.(nrFree := q.nrFree + 1, full := Remove(q.full, v), nrFull := q.nrFull - 1,
         use := [v] + q.use, nrUse := q.nrUse + 1)
    else q.(nrFree := q.nrFree + 1)
  }

  predicate CanTake(m: Mem, v: nat, bit: nat) {
    && v in m.pages
    && m.pages[v].pool < |m.pools|
    && bit / 8 < |m.pages[v].bitmap|
    && m.pages[v].nrFree > 0
    && m.pools[m.pages[v].pool].nrFree > 0
    && m.pools[m.pages[v].pool].nrUse > 0
  }

  /** nvme_mem_pool_alloc, once the slot is chosen. */
  function Take(m: Mem, v: nat, bit: nat): Mem
    requires CanTake(m, v, bit)
  {
    var p := m.pages[v];
    m.(pages := m.pages[v := p.(bitmap := SetBit(p.bitmap, bit), nrFree := p.nrFree - 1)],
       pools := m.pools[p.pool := TakeFrom(m.pools[p.pool], v, p.nrFree == 1)])
  }

  predicate CanPut(m: Mem, v: nat, bit: nat) {
    && v in m.pages
    && m.pages[v].pool < |m.pools|
    && bit / 8 < |m.pages[v].bitmap|
    && (m.pages[v].nrFree == 0 ==> m.pools[m.pages[v].pool].nrFull > 0)
  }

  /** nvme_mem_pool_free, up to the shrinking. */
  function Put(m: Mem, v: nat, bit: nat): Mem
    requires CanPut(m, v, bit)
  {
    var p := m.pages[v];
    m.(pages := m.pages[v := p.(bitmap := ClearBit(p.bitmap, bit), nrFree := p.nrFree + 1)],
       pools := m.pools[p.pool := PutInto(m.pools[p.pool], v, p.nrFree == 0)])
  }

  lemma ListLength(pages: map<nat, Page>, list: seq<nat>, v: nat)
    requires v in list && v in pages
    ensures |list| > 0 && SumFree(pages, list) >= pages[v].nrFree
  {
  }

  /** A slot of a registered heap. */
  ghost predicate Slot(m: Mem, v: nat, bit: nat) {
    && v in m.pages
    && bit < m.pages[v].nrObjs
    && bit / 8 < |m.pages[v].bitmap|
  }

  ghost predicate Allocated(m: Mem, v: nat, bit: nat)
    requires Slot(m, v, bit)
  {
    TestBit(m.pages[v].bitmap, bit)
  }

  lemma SlotOf(m: Mem, v: nat, bit: nat)
    requires Books(m) && v in m.pages && bit < m.pages[v].nrObjs
    ensures Slot(m, v, bit)
  {
    assert PageInv(m, v);
    CoversBit(m.pages[v].bitmap, m.pages[v].nrObjs);
  }

  /** A heap with a free slot is listed, and its pool's counters are positive. */
  lemma UsableHeap(m: Mem, v: nat)
    requires Books(m) && v in m.pages && m.pages[v].nrFree > 0
    ensures
      var q := m.pools[m.pages[v].pool];
      m.pages[v].pool < POOLS && v in q.use && q.nrFree > 0 && q.nrUse > 0
  {
    assert PageInv(m, v);
    var i := m.pages[v].pool;
    assert PoolInv(m, i);
    assert InUse(m.pages, i, v);
    ListLength(m.pages, m.pools[i].use, v);
  }

  lemma FullHeap(m: Mem, v: nat)
    requires Books(m) && v in m.pages && m.pages[v].nrFree == 0
    ensures
      var q := m.pools[m.pages[v].pool];
      m.pages[v].pool < POOLS && v in q.full && q.nrFull > 0
  {
    assert PageInv(m, v);
    assert PoolInv(m, m.pages[v].pool);
    assert IsFull(m.pages, m.pages[v].pool, v);
  }

  lemma TakePage(m: Mem, v: nat, bit: nat)
    requires m.hpBits >= MAX_BITS && Slot(m, v, bit) && PageInv(m, v) && !Allocated(m, v, bit)
    ensures
      var p := m.pages[v];
      p.nrFree > 0 && PageInv(m.(pages := m.pages[v := p.(bitmap := SetBit(p.bitmap, bit), nrFree := p.nrFree - 1)]), v)
  {
    var p := m.pages[v];
    CoversBit(p.bitmap, p.nrObjs);
    CountUpdate(p.bitmap, p.nrObjs, bit);
    hide CountClear, SetBit, TestBit, Pow2;
  }

  lemma PutPage(m: Mem, v: nat, bit: nat)
    requires m.hpBits >= MAX_BITS && Slot(m, v, bit) && PageInv(m, v) && Allocated(m, v, bit)
    ensures
      var p := m.pages[v];
      && p.nrFree < p.nrObjs
      && PageInv(m.(pages := m.pages[v := p.(bitmap := ClearBit(p.bitmap, bit), nrFree := p.nrFree + 1)]), v)
  {
    var p := m.pages[v];
    CoversBit(p.bitmap, p.nrObjs);
    CountUpdate(p.bitmap, p.nrObjs, bit);
    CountBounds(p.bitmap, p.nrObjs);
    hide CountClear, ClearBit, TestBit, Pow2;
  }

  lemma TakeLists(pages: map<nat, Page>, q: Mempool, i: nat, v: nat, p: Page)
    requires PoolLists(pages, q, i) && InUse(pages, i, v) && q.nrFree > 0 && q.nrUse > 0
    requires p.pool == i && p.nrFree == pages[v].nrFree - 1
    ensures PoolLists(pages[v := p], TakeFrom(q, v, p.nrFree == 0), i)
  {
    RemoveMembers(q.use, v);
    assert !IsFull(pages, i, v);
    NoDupPrepend(v, q.full);
    hide Remove, NoDup;
    assert forall w :: w != v ==> InUse(pages[v := p], i, w) == InUse(pages, i, w);
    assert forall w :: w != v ==> IsFull(pages[v := p], i, w) == IsFull(pages, i, w);
  }

  lemma TakeCounts(pages: map<nat, Page>, q: Mempool, i: nat, v: nat, p: Page, n: nat)
    requires PoolLists(pages, q, i) && PoolCounts(pages, q, n) && InUse(pages, i, v) && q.nrFree > 0 && q.nrUse > 0
    requires p.nrFree == pages[v].nrFree - 1
    ensures PoolCounts(pages[v := p], TakeFrom(q, v, p.nrFree == 0), n)
  {
    assert v in q.use && NoDup(q.use);
    RemoveMembers(q.use, v);
    SumUpdate(pages, q.use, v, p);
    SumRemove(pages[v := p], q.use, v);
    hide Remove, NoDup, SumFree, PoolLists;
  }

  lemma PutLists(pages: map<nat, Page>, q: Mempool, i: nat, v: nat, p: Page)
    requires PoolLists(pages, q, i) && v in pages && pages[v].pool == i
    requires p.pool == i && p.nrFree == pages[v].nrFree + 1 && (pages[v].nrFree == 0 ==> q.nrFull > 0)
    ensures PoolLists(pages[v := p], PutInto(q, v, pages[v].nrFree == 0), i)
  {
    RemoveMembers(q.full, v);
    if pages[v].nrFree == 0 {
      assert !InUse(pages, i, v);
      NoDupPrepend(v, q.use);
    } else {
      assert InUse(pages, i, v) && !IsFull(pages, i, v);
    }
    hide Remove, NoDup;
    assert forall w :: w != v ==> InUse(pages[v := p], i, w) == InUse(pages, i, w);
    assert forall w :: w != v ==> IsFull(pages[v := p], i, w) == IsFull(pages, i, w);
  }

  lemma PutCounts(pages: map<nat, Page>, q: Mempool, i: nat, v: nat, p: Page, n: nat)
    requires PoolLists(pages, q, i) && PoolCounts(pages, q, n) && v in pages && pages[v].pool == i
    requires p.nrFree == pages[v].nrFree + 1 && (pages[v].nrFree == 0 ==> q.nrFull > 0)
    ensures PoolCounts(pages[v := p], PutInto(q, v, pages[v].nrFree == 0), n)
  {
    SumUpdate(pages, q.use, v, p);
    if pages[v].nrFree == 0 {
      assert IsFull(pages, i, v) && !InUse(pages, i, v);
      assert v !in q.use && v in q.full && NoDup(q.full);
      RemoveMembers(q.full, v);
      assert ([v] + q.use)[1..] == q.use;
      assert SumFree(pages[v := p], [v] + q.use) == p.nrFree + SumFree(pages[v := p], q.use);
    } else {
      assert InUse(pages, i, v);
    }
    hide Remove, NoDup, SumFree, PoolLists;
  }

  /** Taking a free slot keeps the books. */
  lemma TakeBooks(m: Mem, v: nat, bit: nat)
    requires Books(m) && Slot(m, v, bit) && !Allocated(m, v, bit)
    ensures CanTake(m, v, bit) && Books(Take(m, v, bit))
    ensures Local(m, Take(m, v, bit), m.pages[v].pool, v)
  {
    hide PoolLists, PoolCounts, CountClear, Covers, SetBit, Pow2, HashInv;
    TakePage(m, v, bit);
    UsableHeap(m, v);
    var i, m' := m.pages[v].pool, Take(m, v, bit);
    assert PoolInv(m, i) && InUse(m.pages, i, v);
    TakeLists(m.pages, m.pools[i], i, v, m'.pages[v]);
    TakeCounts(m.pages, m.pools[i], i, v, m'.pages[v], Slots(m, i));
    OneHeapBooks(m, m', i, v);
  }

  /** Giving an allocated slot back keeps the books. */
  lemma PutBooks(m: Mem, v: nat, bit: nat)
    requires Books(m) && Slot(m, v, bit) && Allocated(m, v, bit)
    ensures CanPut(m, v, bit) && Books(Put(m, v, bit))
    ensures Local(m, Put(m, v, bit), m.pages[v].pool, v)
  {
    hide PoolLists, PoolCounts, CountClear, Covers, ClearBit, Pow2, HashInv;
    PutPage(m, v, bit);
    if m.pages[v].nrFree == 0 {
      FullHeap(m, v);
    } else {
      UsableHeap(m, v);
    }
    var i, m' := m.pages[v].pool, Put(m, v, bit);
    assert PoolInv(m, i);
    PutLists(m.pages, m.pools[i], i, v, m'.pages[v]);
    PutCounts(m.pages, m.pools[i], i, v, m'.pages[v], Slots(m, i));
    OneHeapBooks(m, m', i, v);
  }

  lemma OneHeapBooks(m: Mem, m': Mem, i: nat, v: nat)
    requires Books(m) && Local(m, m', i, v) && v in m.pages && v in m'.pages && i < POOLS
    requires PageInv(m', v) && PoolInv(m', i)
    requires m'.buckets == m.buckets && m'.nrHp == m.nrHp
    ensures Books(m')
  {
    assert m'.pages.Keys == m.pages.Keys;
    SameKeys(m, m');
    NewBooks(m, m', i, v);
  }

  // -------------------------------------------------- adding and dropping heaps

  function ZeroBitmap(n: nat): (bm: seq<bv8>)
    ensures |bm| == 8 * ((n + 63) / 64)
    ensures forall k :: 0 <= k < |bm| ==> bm[k] == 0
  {
    seq(8 * ((n + 63) / 64), _ => 0)
  }

  function NewPage(paddr: nat, i: nat, n: nat): Page {
    Page(paddr, i, n, n, ZeroBitmap(n))
  }

  /** nvme_mem_pool_grow with the hugepage at v: register it and put its heap at
      the head of pool i's use list. */
  function Add(m: Mem, i: nat, v: nat, paddr: nat): Mem
    requires i < POOLS && m.hpBits >= MAX_BITS && |m.pools| == POOLS && |m.buckets| == BUCKETS
  {
    var n, h, q := Slots(m, i), Hash(m, v), m.pools[i];
    m.(pages := m.pages[v := NewPage(paddr, i, n)],
       buckets := m.buckets[h := [v] + m.buckets[h]],
       nrHp := m.nrHp + 1,
       pools := m.pools[i := q.(use := [v] + q.use, nrUse := q.nrUse + 1,
                                nrObjs := q.nrObjs + n, nrFree := q.nrFree + n)])
  }

  predicate CanDrop(m: Mem, v: nat) {
    && v in m.pages
    && m.pages[v].pool < |m.pools|
    && |m.buckets| == BUCKETS
    && m.nrHp > 0
    && var q := m.pools[m.pages[v].pool];
       q.nrUse > 0 && q.nrObjs >= m.pages[v].nrObjs && q.nrFree >= m.pages[v].nrFree
  }

  /** nvme_mem_pool_shrink on one heap. */
  function Drop(m: Mem, v: nat): Mem
    requires CanDrop(m, v)
  {
    var p, h := m.pages[v], Hash(m, v);
    var q := m.pools[p.pool];
    m.(pages := m.pages - {v},
       buckets := m.buckets[h := Remove(m.buckets[h], v)],
       nrHp := m.nrHp - 1,
       pools := m.pools[p.pool := q.(use := Remove(q.use, v), nrUse := q.nrUse - 1,
                                     nrObjs := q.nrObjs - p.nrObjs, nrFree := q.nrFree - p.nrFree)])
  }

  lemma {:induction false} CountZero(bm: seq<bv8>, n: nat)
    requires forall j :: 0 <= j < n ==> j / 8 < |bm|
    requires forall k :: 0 <= k < |bm| ==> bm[k] == 0
    ensures CountClear(bm, n) == n
  {
    if n > 0 {
      CountZero(bm, n - 1);
    }
  }

  lemma NewPageInv(m: Mem, i: nat, v: nat, paddr: nat)
    requires i < POOLS && m.hpBits >= MAX_BITS && v % HpSize(m) == 0 && v in m.pages
    requires m.pages[v] == NewPage(paddr, i, Slots(m, i))
    ensures PageInv(m, v)
  {
    var n := Slots(m, i);
    CoversBit(ZeroBitmap(n), n);
    CountZero(ZeroBitmap(n), n);
  }

  lemma AddLists(pages: map<nat, Page>, q: Mempool, i: nat, v: nat, p: Page, q': Mempool)
    requires PoolLists(pages, q, i) && v !in pages && p.pool == i && p.nrFree > 0
    requires q'.use == [v] + q.use && q'.full == q.full
    ensures PoolLists(pages[v := p], q', i)
  {
    assert !InUse(pages, i, v) && !IsFull(pages, i, v);
    NoDupPrepend(v, q.use);
    hide NoDup;
    assert forall w :: w != v ==> InUse(pages[v := p], i, w) == InUse(pages, i, w);
    assert forall w :: w != v ==> IsFull(pages[v := p], i, w) == IsFull(pages, i, w);
  }

  lemma AddCounts(pages: map<nat, Page>, q: Mempool, i: nat, v: nat, p: Page, q': Mempool, n: nat)
    requires PoolLists(pages, q, i) && PoolCounts(pages, q, n) && v !in pages && p.nrFree == n
    requires q' == q.(use := [v] + q.use, nrUse := q.nrUse + 1, nrObjs := q.nrObjs + n, nrFree := q.nrFree + n)
    ensures PoolCounts(pages[v := p], q', n)
  {
    assert (|q.use| + 1 + |q.full|) * n == (|q.use| + |q.full|) * n + n;
    forall w | w in q.use ensures w in pages && w in pages[v := p] && pages[w] == pages[v := p][w] {
      assert InUse(pages, i, w);
    }
    SumOutside(pages, pages[v := p], q.use);
    assert ([v] + q.use)[1..] == q.use;
    assert SumFree(pages[v := p], [v] + q.use) == n + SumFree(pages[v := p], q.use);
    hide SumFree, PoolLists;
  }

  lemma AddHash(m: Mem, m': Mem, v: nat, p: Page)
    requires HashInv(m) && v !in m.pages && m'.hpBits == m.hpBits
    requires m'.pages == m.pages[v := p] && m'.nrHp == m.nrHp + 1
    requires m'.buckets == m.buckets[Hash(m, v) := [v] + m.buckets[Hash(m, v)]]
    ensures HashInv(m')
  {
    hide Hash;
    assert forall w :: Hash(m', w) == Hash(m, w) by {
      HashSame(m, m');
    }
    NoDupPrepend(v, m.buckets[Hash(m, v)]);
    assert m'.pages.Keys == m.pages.Keys + {v};
  }

  lemma HashSame(m: Mem, m': Mem)
    requires m'.hpBits == m.hpBits
    ensures forall w :: Hash(m', w) == Hash(m, w)
  {
  }

  lemma DropLists(pages: map<nat, Page>, q: Mempool, i: nat, v: nat, q': Mempool)
    requires PoolLists(pages, q, i) && InUse(pages, i, v)
    requires q'.use == Remove(q.use, v) && q'.full == q.full
    ensures PoolLists(pages - {v}, q', i)
  {
    assert !IsFull(pages, i, v);
    RemoveMembers(q.use, v);
    hide NoDup, Remove;
    assert forall w :: w != v ==> InUse(pages - {v}, i, w) == InUse(pages, i, w);
    assert forall w :: w != v ==> IsFull(pages - {v}, i, w) == IsFull(pages, i, w);
  }

  lemma DropCounts(pages: map<nat, Page>, q: Mempool, i: nat, v: nat, n: nat)
    requires PoolLists(pages, q, i) && PoolCounts(pages, q, n) && InUse(pages, i, v)
    ensures q.nrUse > 0 && q.nrObjs >= n && q.nrFree >= pages[v].nrFree
    ensures
      var q' := q.(use := Remove(q.use, v), nrUse := q.nrUse - 1, nrObjs := q.nrObjs - n,
                   nrFree := q.nrFree - pages[v].nrFree);
      PoolCounts(pages - {v}, q', n)
  {
    assert v in q.use && NoDup(q.use);
    hide NoDup, Remove, SumFree;
    RemoveMembers(q.use, v);
    SumRemove(pages, q.use, v);
    OneLess(|q.use| + |q.full|, n);
    forall w | w in Remove(q.use, v) ensures w in pages && w in pages - {v} {
      assert InUse(pages, i, w);
    }
    SumOutside(pages, pages - {v}, Remove(q.use, v));
    hide PoolLists, InUse;
  }

  lemma OneLess(k: nat, n: nat)
    requires k > 0
    ensures k * n == (k - 1) * n + n && (k - 1) * n >= 0
  {
  }

  lemma DropHash(m: Mem, m': Mem, v: nat)
    requires HashInv(m) && v in m.pages && m'.hpBits == m.hpBits
    requires m'.pages == m.pages - {v} && m'.nrHp == m.nrHp - 1
    requires m'.buckets == m.buckets[Hash(m, v) := Remove(m.buckets[Hash(m, v)], v)]
    ensures HashInv(m')
  {
    hide Hash, Remove;
    assert forall w :: Hash(m', w) == Hash(m, w) by {
      HashSame(m, m');
    }
    RemoveMembers(m.buckets[Hash(m, v)], v);
    assert m'.pages.Keys == m.pages.Keys - {v};
  }

  lemma SlotsPositive(m: Mem, i: nat)
    requires i < POOLS && m.hpBits >= MAX_BITS
    ensures Slots(m, i) >= 1
  {
  }

  /** Registering a fresh hugepage keeps the books. */
  lemma AddBooks(m: Mem, i: nat, v: nat, paddr: nat)
    requires Books(m) && i < POOLS && v !in m.pages && v % HpSize(m) == 0
    ensures Books(Add(m, i, v, paddr)) && Local(m, Add(m, i, v, paddr), i, v)
  {
    var m', n := Add(m, i, v, paddr), Slots(m, i);
    var p := NewPage(paddr, i, n);
    SlotsPositive(m, i);
    assert Slots(m', i) == n && HpSize(m') == HpSize(m);
    assert PoolInv(m, i);
    AddLists(m.pages, m.pools[i], i, v, p, m'.pools[i]);
    AddCounts(m.pages, m.pools[i], i, v, p, m'.pools[i], n);
    AddHash(m, m', v, p);
    NewPageInv(m', i, v, paddr);
    NewBooks(m, m', i, v);
  }

  lemma PageCounted(m: Mem, v: nat)
    requires HashInv(m) && v in m.pages
    ensures m.nrHp > 0 && |m.buckets| == BUCKETS
  {
    assert v in m.pages.Keys;
  }

  /** Dropping a heap that is not full keeps the books. */
  lemma DropBooks(m: Mem, v: nat)
    requires Books(m) && v in m.pages && m.pages[v].nrFree > 0
    ensures CanDrop(m, v) && Books(Drop(m, v)) && Local(m, Drop(m, v), m.pages[v].pool, v)
  {
    hide PoolLists, PoolCounts, CountClear, Covers, Pow2, Remove, HashInv;
    PageCounted(m, v);
    UsableHeap(m, v);
    var i := m.pages[v].pool;
    assert PoolInv(m, i) && PageInv(m, v) && InUse(m.pages, i, v);
    DropCounts(m.pages, m.pools[i], i, v, Slots(m, i));
    var m' := Drop(m, v);
    assert Slots(m', i) == Slots(m, i);
    DropLists(m.pages, m.pools[i], i, v, m'.pools[i]);
    DropHash(m, m', v);
    NewBooks(m, m', i, v);
  }

  lemma NewBooks(m: Mem, m': Mem, i: nat, v: nat)
    requires Books(m) && Local(m, m', i, v) && i < POOLS
    requires v in m'.pages ==> PageInv(m', v)
    requires PoolInv(m', i) && HashInv(m')
    ensures Books(m')
  {
    OtherPages(m, m', i, v);
    forall j | 0 <= j < POOLS ensures PoolInv(m', j) {
      if j != i {
        OtherPools(m, m', i, v, j);
      }
    }
    hide PageInv, PoolInv, HashInv, Local;
  }

  // ------------------------------------------------------------- empty heaps

  lemma EmptyHasNone(m: Mem, v: nat, bit: nat)
    requires m.hpBits >= MAX_BITS && Slot(m, v, bit) && PageInv(m, v)
    ensures m.pages[v].nrFree <= m.pages[v].nrObjs
    ensures Empty(m.pages[v]) ==> !Allocated(m, v, bit)
  {
    var p := m.pages[v];
    CoversBit(p.bitmap, p.nrObjs);
    CountBounds(p.bitmap, p.nrObjs);
  }

  lemma OneEmptyLocal(m: Mem, m': Mem, i: nat, v: nat)
    requires Local(m, m', i, v) && forall j :: 0 <= j < POOLS ==> OneEmpty(m, j)
    requires EmptyHeap(m', i, v) ==> EmptyHeap(m, i, v) || forall w :: !EmptyHeap(m, i, w)
    ensures forall j :: 0 <= j < POOLS ==> OneEmpty(m', j)
  {
    forall j | 0 <= j < POOLS ensures OneEmpty(m', j) {
      assert OneEmpty(m, j);
      assert forall w :: w != v ==> EmptyHeap(m', j, w) == EmptyHeap(m, j, w);
    }
  }

  lemma TakeOneEmpty(m: Mem, v: nat, bit: nat)
    requires Books(m) && Slot(m, v, bit) && !Allocated(m, v, bit)
    requires forall i :: 0 <= i < POOLS ==> OneEmpty(m, i)
    ensures CanTake(m, v, bit) && forall i :: 0 <= i < POOLS ==> OneEmpty(Take(m, v, bit), i)
  {
    TakeBooks(m, v, bit);
    assert PageInv(m, v);
    EmptyHasNone(m, v, bit);
    hide Books, PageInv, SetBit, TakeFrom, OneEmpty, Local, TestBit;
    OneEmptyLocal(m, Take(m, v, bit), m.pages[v].pool, v);
  }

  lemma NoneInUse(m: Mem, i: nat, w: nat)
    requires Books(m) && i < POOLS && m.pools[i].use == []
    ensures !EmptyHeap(m, i, w)
  {
    if w in m.pages && m.pages[w].pool == i {
      assert PageInv(m, w) && PoolInv(m, i);
      SlotsPositive(m, i);
      hide Slots, CountClear;
      assert !InUse(m.pages, i, w);
    }
  }

  /** The pool grows only when it has no heap with a free slot, hence no empty
      one. */
  lemma AddOneEmpty(m: Mem, i: nat, v: nat, paddr: nat)
    requires Books(m) && i < POOLS && m.pools[i].use == [] && v !in m.pages && v % HpSize(m) == 0
    requires forall j :: 0 <= j < POOLS ==> OneEmpty(m, j)
    ensures forall j :: 0 <= j < POOLS ==> OneEmpty(Add(m, i, v, paddr), j)
  {
    AddBooks(m, i, v, paddr);
    hide Add, Local, OneEmpty, EmptyHeap;
    forall w ensures !EmptyHeap(m, i, w) {
      NoneInUse(m, i, w);
    }
    OneEmptyLocal(m, Add(m, i, v, paddr), i, v);
  }

  /** Heaps of pool i may have gone, but only empty ones. */
  ghost predicate Shrunk(m: Mem, m': Mem, i: nat) {
    && m'.hpBits == m.hpBits
    && (forall v :: v in m'.pages ==> v in m.pages && m'.pages[v] == m.pages[v])
    && (forall v :: v in m.pages && v !in m'.pages ==> m.pages[v].pool == i && Empty(m.pages[v]))
  }

  // ------------------------------------------------------------ live objects

  /** A slot of the heap on a hugepage. */
  datatype Key = Key(page: nat, slot: nat)

  /** What the caller of an allocation asked for and was told. */
  datatype Object = Object(size: nat, align: nat, paddr: nat)

  function Address(m: Mem, v: nat, bit: nat): nat
    requires v in m.pages
  {
    v + bit * SlotSize(m.pages[v].pool)
  }

  /** The request is one that nvme_align_pow2 can round up. */
  predicate Sane(o: Object) {
    Max(o.size, o.align) <= U64 / 2
  }

  ghost predicate Holds(m: Mem, v: nat, bit: nat, o: Object)
    requires v in m.pages
  {
    var p := m.pages[v];
    && (Sane(o) ==> 0 < o.size <= SlotSize(p.pool))
    && (Sane(o) && o.align != 0 ==> o.align <= SlotSize(p.pool) && IsPow2(o.align))
    && o.paddr == p.paddr + bit * SlotSize(p.pool)
  }

  /** The allocated slots are the live objects. */
  ghost predicate Backed(m: Mem, live: map<Key, Object>) {
    && (forall k :: k in live ==> Slot(m, k.page, k.slot) && Allocated(m, k.page, k.slot) && Holds(m, k.page, k.slot, live[k]))
    && (forall v: nat, b: nat :: Slot(m, v, b) && Allocated(m, v, b) ==> Key(v, b) in live)
  }

  lemma TakeBacked(m: Mem, v: nat, bit: nat, live: map<Key, Object>, o: Object)
    requires Backed(m, live) && Slot(m, v, bit) && !Allocated(m, v, bit) && CanTake(m, v, bit)
    requires Holds(m, v, bit, o)
    ensures Key(v, bit) !in live
    ensures Backed(Take(m, v, bit), live[Key(v, bit) := o])
  {
    var m' := Take(m, v, bit);
    hide SetBit, TestBit, SlotSize, TakeFrom;
    forall w: nat, b: nat | Slot(m, w, b)
      ensures Slot(m', w, b) && (Allocated(m', w, b) <==> (w == v && b == bit) || Allocated(m, w, b))
    {
      if w == v {
        BitUpdate(m.pages[v].bitmap, bit, b);
      }
    }
    assert forall w: nat, b: nat :: Slot(m', w, b) ==> Slot(m, w, b);
  }

  lemma PutBacked(m: Mem, v: nat, bit: nat, live: map<Key, Object>)
    requires Backed(m, live) && Slot(m, v, bit) && Allocated(m, v, bit) && CanPut(m, v, bit)
    ensures Key(v, bit) in live
    ensures Backed(Put(m, v, bit), live - {Key(v, bit)})
  {
    var m' := Put(m, v, bit);
    hide ClearBit, TestBit, SlotSize, PutInto;
    forall w: nat, b: nat | Slot(m, w, b)
      ensures Slot(m', w, b) && (Allocated(m', w, b) <==> !(w == v && b == bit) && Allocated(m, w, b))
    {
      if w == v {
        BitUpdate(m.pages[v].bitmap, bit, b);
      }
    }
    assert forall w: nat, b: nat :: Slot(m', w, b) ==> Slot(m, w, b);
  }

  /** A new heap has no object, and dropping empty heaps loses none. */
  lemma AddBacked(m: Mem, i: nat, v: nat, paddr: nat, live: map<Key, Object>)
    requires Books(m) && Backed(m, live) && i < POOLS && v !in m.pages
    ensures Backed(Add(m, i, v, paddr), live)
  {
    var m' := Add(m, i, v, paddr);
    NewHasNone(m, i, v, paddr);
    assert forall w :: w != v ==> (w in m'.pages <==> w in m.pages) && (w in m.pages ==> m'.pages[w] == m.pages[w]);
    hide Books, Add;
    BackedNew(m, m', v, live);
  }

  lemma NewHasNone(m: Mem, i: nat, v: nat, paddr: nat)
    requires Books(m) && i < POOLS
    ensures forall b: nat :: Slot(Add(m, i, v, paddr), v, b) ==> !Allocated(Add(m, i, v, paddr), v, b)
  {
    var m' := Add(m, i, v, paddr);
    forall b: nat | Slot(m', v, b) ensures !Allocated(m', v, b) {
      NoBit(m'.pages[v].bitmap[b / 8], b % 8);
    }
  }

  lemma BackedNew(m: Mem, m': Mem, v: nat, live: map<Key, Object>)
    requires Backed(m, live) && v !in m.pages
    requires forall w :: w != v ==> (w in m'.pages <==> w in m.pages) && (w in m.pages ==> m'.pages[w] == m.pages[w])
    requires forall b: nat :: Slot(m', v, b) ==> !Allocated(m', v, b)
    ensures Backed(m', live)
  {
    hide TestBit, SlotSize, IsPow2, Sane;
    assert forall w: nat, b: nat :: w != v && Slot(m', w, b) ==> Slot(m, w, b);
  }

  lemma NoBit(b: bv8, k: nat)
    requires b == 0 && k < 8
    ensures !BitOf(b, k)
  {
  }

  lemma ShrunkBacked(m: Mem, m': Mem, i: nat, live: map<Key, Object>)
    requires Books(m) && Backed(m, live) && Shrunk(m, m', i)
    ensures Backed(m', live)
  {
    forall k | k in live ensures k.page in m'.pages {
      assert PageInv(m, k.page);
      EmptyHasNone(m, k.page, k.slot);
    }
    hide Books, Allocated, Holds, PageInv;
    hide TestBit, SlotSize;
    BackedSame(m, m', live);
  }

  lemma BackedSame(m: Mem, m': Mem, live: map<Key, Object>)
    requires Backed(m, live)
    requires forall v :: v in m'.pages ==> v in m.pages && m'.pages[v] == m.pages[v]
    requires forall k :: k in live ==> k.page in m'.pages
    ensures Backed(m', live)
  {
    hide TestBit, SlotSize, IsPow2, Sane;
    assert forall w: nat, b: nat :: Slot(m', w, b) ==> Slot(m, w, b);
  }
}
