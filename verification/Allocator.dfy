/** The hugepage allocator: the global `mm` of lib/common/nvme_mem.c as an
    object, its operations as methods. */
module AllocatorObject {
  import opened Common
  import opened Lists
  import opened Bits
  import opened Memory
  import opened MemoryLayout
  import opened MemoryUse

  /** What the operating system hands out: a mapped, locked hugepage. */
  datatype Hugepage = Hugepage(vaddr: nat, paddr: nat)

  class Allocator {
    const hpBits: nat
    var buckets: seq<seq<nat>>
    var nrHp: nat
    var pools: seq<Mempool>
    var pages: map<nat, Page>
    /** Live objects by heap and slot, with what their callers asked for. */
    ghost var live: map<Key, Object>

    ghost function View(): Mem
      reads this
    {
      Mem(hpBits, buckets, nrHp, pools, pages)
    }

    ghost predicate Valid()
      reads this
    {
      MemInv(View()) && Backed(View(), live)
    }

    /** The operating system maps hugepages apart from each other and aligned. */
    ghost predicate Acquirable(hp: Option<Hugepage>)
      reads this
    {
      hp.Some? ==> hp.value.vaddr !in pages && hp.value.vaddr % Pow2(hpBits) == 0
    }

    /** nvme_mem_init */
    constructor (bits: nat)
      requires bits >= MAX_BITS
      ensures Valid() && live == map[] && pages == map[] && hpBits == bits
    {
      hpBits := bits;
      buckets := seq(BUCKETS, _ => []);
      nrHp := 0;
      pools := seq(POOLS, i requires 0 <= i => Mempool(MIN_BITS + i, 0, 0, 0, [], 0, []));
      pages := map[];
      live := map[];
      new;
      hide *;
      NewMemory(View());
    }

    /** nvme_mem_search_hp: the hash index agrees with a linear search. */
    method Search(a: nat) returns (r: Option<nat>)
      requires Books(View())
      ensures r.Some? ==> r.value in pages && r.value <= a < r.value + Pow2(hpBits)
      ensures r.None? ==> forall v :: v in pages ==> !(v <= a < v + Pow2(hpBits))
    {
      var hpn := Shr(a, hpBits);
      var bucket := buckets[hpn % BUCKETS];
      ghost var m := View();
      var j := 0;
      while j < |bucket|
        invariant 0 <= j <= |bucket|
        invariant forall k :: 0 <= k < j ==> Shr(bucket[k], hpBits) != hpn
      {
        if Shr(bucket[j], hpBits) == hpn {
          SearchHit(m, bucket[j], a);
          return Some(bucket[j]);
        }
        j := j + 1;
      }
      SearchMiss(m, a);
      r := None;
    }

    /** The hugepage branch of nvme_mem_vtophys; elsewhere the page map is read.
        Inside a live object it continues the address the allocation returned. */
    method VtoPhys(a: nat) returns (r: Option<nat>)
      requires Valid()
      ensures r.Some? <==> exists v :: v in pages && v <= a < v + Pow2(hpBits)
      ensures forall k :: k in live && InObject(View(), k, a) ==>
        r == Some(live[k].paddr + (a - Address(View(), k.page, k.slot)))
    {
      assert Books(View()) && Backed(View(), live);
      hide Pow2, Valid, MemInv, Books, Backed, SlotSize, InObject, Address;
      var hp := Search(a);
      if hp.None? {
        NoObject(View(), live, a);
        r := None;
      } else {
        ObjectTranslates(View(), live, hp.value, a);
        r := Some(pages[hp.value].paddr + (a - hp.value));
      }
    }

    // ---------------------------------------------------------- list and bitmap updates

    method TakeSlot(v: nat, bit: nat)
      requires CanTake(View(), v, bit)
      modifies this`pages, this`pools
      ensures View() == Take(old(View()), v, bit)
    {
      var p := pages[v];
      var q := pools[p.pool];
      q := q.(nrFree := q.nrFree - 1);
      p := p.(bitmap := SetBit(p.bitmap, bit), nrFree := p.nrFree - 1);
      if p.nrFree == 0 {
        q := q.(use := Remove(q.use, v), nrUse := q.nrUse - 1, full := [v] + q.full, nrFull := q.nrFull + 1);
      }
      pages := pages[v := p];
      pools := pools[p.pool := q];
    }

    method PutSlot(v: nat, bit: nat)
      requires CanPut(View(), v, bit)
      modifies this`pages, this`pools
      ensures View() == Put(old(View()), v, bit)
    {
      var p := pages[v];
      var q := pools[p.pool];
      if p.nrFree == 0 {
        q := q.(full := Remove(q.full, v), nrFull := q.nrFull - 1, use := [v] + q.use, nrUse := q.nrUse + 1);
      }
      p := p.(bitmap := ClearBit(p.bitmap, bit), nrFree := p.nrFree + 1);
      q := q.(nrFree := q.nrFree + 1);
      pages := pages[v := p];
      pools := pools[p.pool := q];
    }

    method DropHeap(v: nat)
      requires CanDrop(View(), v)
      modifies this`pages, this`pools, this`buckets, this`nrHp
      ensures View() == Drop(old(View()), v)
    {
      var p := pages[v];
      var q := pools[p.pool];
      pools := pools[p.pool := q.(use := Remove(q.use, v), nrUse := q.nrUse - 1,
                                  nrObjs := q.nrObjs - p.nrObjs, nrFree := q.nrFree - p.nrFree)];
      var h := Shr(v, hpBits) % BUCKETS;
      buckets := buckets[h := Remove(buckets[h], v)];
      nrHp := nrHp - 1;
      pages := pages - {v};
    }

    /** nvme_mem_pool_grow */
    method Grow(i: nat, hp: Option<Hugepage>) returns (heap: Option<nat>)
      requires i < POOLS && hpBits >= MAX_BITS && |pools| == POOLS && |buckets| == BUCKETS
      modifies this`pages, this`pools, this`buckets, this`nrHp
      ensures hp.None? ==> heap == None && View() == old(View())
      ensures hp.Some? ==>
        heap == Some(hp.value.vaddr) && View() == Add(old(View()), i, hp.value.vaddr, hp.value.paddr)
    {
      if hp.None? {
        return None;
      }
      var v := hp.value.vaddr;
      var h := Shr(v, hpBits) % BUCKETS;
      buckets := buckets[h := [v] + buckets[h]];
      nrHp := nrHp + 1;
      var n := Shr(Pow2(hpBits), MIN_BITS + i);
      HeapSlots(View(), i);
      pages := pages[v := NewPage(hp.value.paddr, i, n)];
      var q := pools[i];
      pools := pools[i := q.(use := [v] + q.use, nrUse := q.nrUse + 1, nrObjs := q.nrObjs + n, nrFree := q.nrFree + n)];
      heap := Some(v);
    }

    // ----------------------------------------------------------- giving memory back

    /** nvme_mem_pool_shrink without force: keep the first empty heap of the use
        list and drop the others. */
    method Shrink(i: nat)
      requires Books(View()) && i < POOLS
      modifies this`pages, this`pools, this`buckets, this`nrHp
      ensures Books(View()) && Shrunk(old(View()), View(), i) && OneEmpty(View(), i)
      ensures FirstStays(old(View()).pages, old(pools[i].use), pages)
    {
      hide Books, Scanning, Shrunk, OneEmpty, FirstStays;
      ghost var m0 := View();
      ScanStart(m0, i);
      var rest := pools[i].use;
      var n := 0;
      ghost var kept := 0;
      while rest != []
        invariant Scanning(m0, View(), i, rest, n, kept)
        decreases |rest|
      {
        var v := rest[0];
        ScanHead(m0, View(), i, rest, n, kept);
        if Empty(pages[v]) {
          n := n + 1;
        }
        if !Empty(pages[v]) || n == 1 {
          if Empty(pages[v]) {
            kept := v;
          }
        } else {
          DropHeap(v);
        }
        rest := rest[1..];
      }
      ScanEnd(m0, View(), i, n, kept);
    }

    /** nvme_mem_pool_free: an address outside the heap or in a slot that is not
        allocated changes nothing. */
    method PoolFree(v: nat, a: nat)
      requires Valid() && v in pages
      modifies this
      ensures Valid()
      ensures
        if v <= a < v + Pow2(hpBits) && Key(v, SlotIndex(old(View()), v, a)) in old(live) then
          live == old(live) - {Key(v, SlotIndex(old(View()), v, a))}
        else View() == old(View()) && live == old(live)
    {
      hide Pow2, MemInv, Books, Backed, SlotIndex, Put, OneEmpty, Shrunk;
      if a < v || a >= v + Pow2(hpBits) {
        return;
      }
      SlotState(View(), live, v, a);
      var p := pages[v];
      var bit := Shr(a - v, pools[p.pool].sizeBits);
      if p.nrFree == p.nrObjs || !TestBit(p.bitmap, bit) {
        return;
      }
      PutKeeps(View(), live, v, bit);
      ghost var m0 := View();
      PutSlot(v, bit);
      live := live - {Key(v, bit)};
      ghost var m1 := View();
      if pages[v].nrFree == pages[v].nrObjs {
        Shrink(p.pool);
        ShrinkKeeps(m0, m1, View(), live, p.pool, v);
      }
    }

    // --------------------------------------------------------------- allocation

    /** The heap to allocate from: the first with a free slot, or a new one. */
    method ReadyHeap(i: nat, hp: Option<Hugepage>) returns (heap: Option<nat>)
      requires Valid() && i < POOLS && Acquirable(hp)
      modifies this`pages, this`pools, this`buckets, this`nrHp
      ensures Valid()
      ensures heap.None? <==> old(pools)[i].nrFree == 0 && hp.None?
      ensures heap.None? ==> View() == old(View())
      ensures heap.Some? ==> heap.value in pages && pages[heap.value].pool == i && pages[heap.value].nrFree > 0
      ensures forall v :: v in old(pages) ==> v in pages && pages[v] == old(pages)[v]
    {
      hide MemInv, Books, Backed, Pow2;
      PoolUsable(View(), i);
      if pools[i].nrUse > 0 {
        return Some(pools[i].use[0]);
      }
      if hp.Some? {
        AddKeeps(View(), live, i, hp.value.vaddr, hp.value.paddr);
      }
      heap := Grow(i, hp);
    }

    /** What a successful allocation from pool i says. */
    twostate predicate Served(i: nat, size: nat, align: nat, hp: Hugepage, k: Key)
      reads this
    {
      && k !in old(live)
      && live == old(live)[k := Object(size, align, hp.paddr)]
      && k.page in pages && pages[k.page].pool == i
      && hp.vaddr == Address(View(), k.page, k.slot)
    }

    /** The first free slot of a heap that has one. */
    method TakeFirst(v: nat, ghost size: nat, ghost align: nat) returns (r: Hugepage, ghost k: Key)
      requires Valid() && v in pages && pages[v].nrFree > 0 && Serves(pages[v].pool, size, align)
      modifies this`pages, this`pools, this`live
      ensures Valid() && Served(old(pages)[v].pool, size, align, r, k)
      ensures k.page == v && forall b: nat :: b < k.slot ==> Key(v, b) in old(live)
      ensures pages.Keys == old(pages.Keys)
    {
      hide MemInv, Books, Backed, Pow2, Serves, Take, TestBit;
      HasFreeSlot(View(), v);
      var p := pages[v];
      var bit := FindFirstZero(p.bitmap, p.nrObjs);
      assert bit >= 0;
      var offset := bit * Pow2(pools[p.pool].sizeBits);
      r := Hugepage(v + offset, p.paddr + offset);
      k := Key(v, bit);
      ghost var o := Object(size, align, r.paddr);
      TakeKeeps(View(), live, v, bit, o);
      AllBelow(View(), live, v, bit);
      TakeSlot(v, bit);
      live := live[k := o];
    }

    /** nvme_mem_pool_alloc.  There is always a free object to be found. */
    method PoolAlloc(i: nat, ghost size: nat, ghost align: nat, hp: Option<Hugepage>)
        returns (r: Option<Hugepage>, ghost k: Key)
      requires Valid() && i < POOLS && Acquirable(hp) && Serves(i, size, align)
      modifies this
      ensures Valid()
      ensures r.None? <==> old(pools)[i].nrFree == 0 && hp.None?
      ensures r.None? ==> View() == old(View()) && live == old(live)
      ensures r.Some? ==> Served(i, size, align, r.value, k)
      ensures forall v :: v in old(pages) ==> v in pages
    {
      k := Key(0, 0);
      hide MemInv, Books, Backed, Pow2, Serves;
      PoolUsable(View(), i);
      var heap := ReadyHeap(i, hp);
      if heap.None? {
        return None, k;
      }
      var obj;
      obj, k := TakeFirst(heap.value, size, align);
      r := Some(obj);
    }

    /** nvme_mem_alloc_node */
    method AllocNode(size: nat, align: nat, hp: Option<Hugepage>) returns (r: Option<Hugepage>, ghost k: Key)
      requires Valid() && size < U64 && align < U64 && Acquirable(hp)
      modifies this
      ensures Valid()
      ensures r.None? ==> View() == old(View()) && live == old(live)
      ensures r.Some? <==>
        exists i: nat :: i < POOLS && PoolFor(size, align, i) && (old(pools)[i].nrFree > 0 || hp.Some?)
      ensures r.Some? ==> exists i: nat :: PoolFor(size, align, i) && Served(i, size, align, r.value, k)
    {
      k := Key(0, 0);
      hide Pow2, MemInv, Books, Backed, IsPow2, Served, Acquirable;
      PoolUsable(View(), 0);
      var pool := PickPool(size, align);
      if pool.None? {
        return None, k;
      }
      var i := pool.value;
      PoolServes(size, align, i);
      hide PoolFor;
      r, k := PoolAlloc(i, size, align, hp);
    }

    /** nvme_free: the live object the address lies in is gone; any other address
        changes nothing. */
    method Free(a: nat)
      requires Valid()
      modifies this
      ensures Valid()
      ensures forall k :: k in old(live) && a != 0 && InObject(old(View()), k, a) ==> live == old(live) - {k}
      ensures a == 0 || (forall k :: k in old(live) ==> !InObject(old(View()), k, a)) ==>
        View() == old(View()) && live == old(live)
    {
      if a == 0 {
        return;
      }
      assert Books(View()) && Backed(View(), live);
      hide Pow2, Valid, MemInv, Books, Backed, SlotSize, InObject, SlotIndex;
      var hp := Search(a);
      if hp.None? {
        NoObject(View(), live, a);
        return;
      }
      FreedObject(View(), live, hp.value, a);
      PoolFree(hp.value, a);
    }

    /** nvme_memstat: the pools hold all hugepages. */
    method MemStat() returns (hugepages: nat, total: nat, free: nat)
      requires Valid()
      ensures hugepages == |pages|
      ensures total == |pages| * Pow2(hpBits)
      ensures free == FreeBytes(View(), POOLS) <= total
      ensures total == free + LiveBytes(View(), live, POOLS)
    {
      assert Books(View()) && Backed(View(), live);
      hide Pow2, Valid, MemInv, Books, Backed, TotalBytes, FreeBytes, LiveBytes;
      hugepages, total, free := nrHp, 0, 0;
      var i := 0;
      while i < POOLS
        invariant 0 <= i <= POOLS
        invariant total == TotalBytes(View(), i) && free == FreeBytes(View(), i) <= total
      {
        PoolSum(View(), i);
        total := total + pools[i].nrObjs * Pow2(pools[i].sizeBits);
        free := free + pools[i].nrFree * Pow2(pools[i].sizeBits);
        i := i + 1;
      }
      MemstatTotal(View());
      BytesUse(View(), live, POOLS);
    }
  }

  /** The pool nvme_mem_alloc_node takes: the smallest that fits, where sizes
      beyond 2^63 are rounded to 0 and go to pool 0. */
  ghost predicate PoolFor(size: nat, align: nat, i: nat) {
    var max := Max(size, align);
    && size > 0 && (align != 0 ==> IsPow2(align))
    && i < POOLS
    && if max <= U64 / 2 then max <= SlotSize(i) && forall j: nat :: max <= SlotSize(j) ==> i <= j
       else i == 0
  }

  /** There is one exactly for a size between 1 byte and 2 MB with an alignment of
      none or a power of two up to 2 MB, and for what cannot be rounded.  Its
      slots hold the request, and those of half the size would not. */
  lemma PoolRange(size: nat, align: nat)
    ensures (exists i: nat :: PoolFor(size, align, i)) <==>
            && size > 0 && (align == 0 || exists n: nat :: align == Pow2(n))
            && (Max(size, align) <= 0x20_0000 || Max(size, align) > 0x8000_0000_0000_0000)
    ensures forall i: nat :: PoolFor(size, align, i) ==>
              && i < 15
              && (Max(size, align) > 0x8000_0000_0000_0000 ==> i == 0)
              && (Max(size, align) <= 0x8000_0000_0000_0000 ==>
                    Max(size, align) <= Pow2(7 + i) && (i > 0 ==> Pow2(6 + i) < Max(size, align)))
  {
    var max := Max(size, align);
    IsPow2Exact(align);
    TwoMegabytes();
    hide Pow2, IsPow2;
    forall i: nat | PoolFor(size, align, i) && max <= U64 / 2 ensures max <= 0x20_0000 && (i > 0 ==> Pow2(6 + i) < max) {
      if 7 + i < 21 {
        Pow2Monotone(7 + i, 21);
      }
      assert i > 0 && max <= SlotSize(i - 1) ==> i <= i - 1;
    }
    if size > 0 && (align == 0 || IsPow2(align)) {
      if max > U64 / 2 {
        assert PoolFor(size, align, 0);
      } else if max <= 0x20_0000 {
        var i := LeastSlot(max, 14);
        assert PoolFor(size, align, i);
      }
    }
  }

  lemma TwoMegabytes()
    ensures Pow2(21) == 0x20_0000
  {
    Pow2Values();
    Pow2Add(16, 5);
    assert Pow2(1) == 2 && Pow2(2) == 4 && Pow2(3) == 8 && Pow2(4) == 16;
  }

  lemma {:induction false} LeastSlot(max: nat, i: nat) returns (j: nat)
    requires max <= SlotSize(i)
    ensures j <= i && max <= SlotSize(j) && forall k: nat :: max <= SlotSize(k) ==> j <= k
  {
    if i > 0 && max <= SlotSize(i - 1) {
      j := LeastSlot(max, i - 1);
    } else {
      j := i;
      forall k: nat | k < i ensures max > SlotSize(k) {
        if k < i - 1 {
          Pow2Monotone(MIN_BITS + k, MIN_BITS + i - 1);
        }
      }
    }
  }

  /** One byte more than 2^63: the pool of 128-byte slots. */
  lemma WrapsToSmallest()
    ensures PoolFor(U64 / 2 + 1, 0, 0) && SlotSize(0) == 128
  {
    assert Pow2(7) == 128;
  }

  method PickPool(size: nat, align: nat) returns (r: Option<nat>)
    requires size < U64 && align < U64
    ensures r.Some? ==> PoolFor(size, align, r.value)
    ensures r.None? ==> forall i: nat :: !PoolFor(size, align, i)
  {
    if size == 0 || (align != 0 && !IsPow2(align)) {
      return None;
    }
    var max := Max(size, align);
    var rounded, n := AlignPow2(max);
    var bits := Log2(rounded);
    RoundedBits(max, rounded, n, bits);
    hide Pow2, IsPow2, LeastPow2;
    if bits <= MIN_BITS {
      r := Some(0);
    } else if bits <= MAX_BITS {
      r := Some(bits - MIN_BITS);
    } else {
      r := None;
    }
  }

  /** How the exponent of the rounded size relates to the pools. */
  lemma RoundedBits(max: nat, rounded: nat, n: nat, bits: nat)
    requires 0 < max < U64
    requires max <= U64 / 2 ==> LeastPow2(max, rounded, n)
    requires max > U64 / 2 ==> rounded == 0
    requires if IsPow2(rounded) then rounded == Pow2(bits) else bits == 0
    ensures max > U64 / 2 ==> bits == 0
    ensures max <= U64 / 2 ==> forall j: nat :: max <= SlotSize(j) <==> bits <= MIN_BITS + j
  {
    if max <= U64 / 2 {
      IsPow2Exact(rounded);
      if bits < n {
        Pow2Monotone(bits, n);
      } else if n < bits {
        Pow2Monotone(n, bits);
      }
      hide Pow2, IsPow2;
      forall j: nat ensures max <= SlotSize(j) <==> bits <= MIN_BITS + j {
        if bits < MIN_BITS + j {
          Pow2Monotone(bits, MIN_BITS + j);
        }
      }
    }
  }

  lemma PoolServes(size: nat, align: nat, i: nat)
    requires PoolFor(size, align, i)
    ensures Serves(i, size, align)
    ensures forall j: nat :: PoolFor(size, align, j) ==> j == i
  {
  }

  lemma FreedObject(m: Mem, live: map<Key, Object>, v: nat, a: nat)
    requires Books(m) && Backed(m, live) && v in m.pages && v <= a < v + HpSize(m)
    ensures forall k :: k in live && InObject(m, k, a) ==> k == Key(v, SlotIndex(m, v, a))
    ensures Key(v, SlotIndex(m, v, a)) in live ==> InObject(m, Key(v, SlotIndex(m, v, a)), a)
  {
    SlotExists(m, v, a);
    hide Books, Pow2, HpSize;
    forall k | k in live && InObject(m, k, a) ensures k == Key(v, SlotIndex(m, v, a)) {
      InsideHugepage(m, k.page, k.slot);
      OneHugepage(m, k.page, v, a);
      SlotOfAddress(v, SlotSize(m.pages[v].pool), k.slot, a);
    }
  }

  /** A slot of pool i serves the request, unless its size cannot be rounded. */
  ghost predicate Serves(i: nat, size: nat, align: nat) {
    Max(size, align) <= U64 / 2 ==>
      0 < size <= SlotSize(i) && (align != 0 ==> align <= SlotSize(i) && IsPow2(align))
  }

  lemma PoolUsable(m: Mem, i: nat)
    requires MemInv(m) && i < POOLS
    ensures m.hpBits >= MAX_BITS && |m.pools| == POOLS && |m.buckets| == BUCKETS
    ensures
      var q := m.pools[i];
      && q.sizeBits == MIN_BITS + i
      && q.nrUse == |q.use|
      && (q.nrUse > 0 <==> q.nrFree > 0)
      && (q.nrUse > 0 ==> InUse(m.pages, i, q.use[0]))
  {
    assert PoolInv(m, i);
    var q := m.pools[i];
    if q.nrUse > 0 {
      assert q.use[0] in q.use;
      ListLength(m.pages, q.use, q.use[0]);
    }
    hide Slots;
  }

  lemma HasFreeSlot(m: Mem, v: nat)
    requires MemInv(m) && v in m.pages && m.pages[v].nrFree > 0
    ensures
      var p := m.pages[v];
      && p.pool < POOLS && p.pool < |m.pools| && m.pools[p.pool].sizeBits == MIN_BITS + p.pool
      && Covers(p.bitmap, p.nrObjs)
      && exists bit :: 0 <= bit < p.nrObjs && bit / 8 < |p.bitmap| && !TestBit(p.bitmap, bit)
  {
    assert PageInv(m, v);
    var p := m.pages[v];
    assert PoolInv(m, p.pool);
    CoversBit(p.bitmap, p.nrObjs);
    CountBounds(p.bitmap, p.nrObjs);
    hide Books, CountClear, PoolLists, PoolCounts;
  }

  lemma AllBelow(m: Mem, live: map<Key, Object>, v: nat, bit: nat)
    requires Backed(m, live) && v in m.pages && bit < m.pages[v].nrObjs
    requires forall j :: 0 <= j < bit ==> j / 8 < |m.pages[v].bitmap| && TestBit(m.pages[v].bitmap, j)
    ensures forall b: nat :: b < bit ==> Key(v, b) in live
  {
    hide TestBit;
    forall b: nat | b < bit ensures Key(v, b) in live {
      assert Slot(m, v, b) && Allocated(m, v, b);
    }
  }

  lemma AddKeeps(m: Mem, live: map<Key, Object>, i: nat, v: nat, paddr: nat)
    requires MemInv(m) && Backed(m, live) && i < POOLS && i < |m.pools| && m.pools[i].use == []
    requires v !in m.pages && v % HpSize(m) == 0
    ensures
      var m' := Add(m, i, v, paddr);
      && MemInv(m') && Backed(m', live) && InUse(m'.pages, i, v)
      && forall w :: w in m.pages ==> w in m'.pages && m'.pages[w] == m.pages[w]
  {
    AddBooks(m, i, v, paddr);
    AddOneEmpty(m, i, v, paddr);
    AddBacked(m, i, v, paddr, live);
    SlotsPositive(m, i);
    hide Books, Backed, OneEmpty, Slots, HpSize;
  }

  lemma TakeKeeps(m: Mem, live: map<Key, Object>, v: nat, bit: nat, o: Object)
    requires MemInv(m) && Backed(m, live) && v in m.pages && bit < m.pages[v].nrObjs && bit / 8 < |m.pages[v].bitmap|
    requires !TestBit(m.pages[v].bitmap, bit)
    requires Serves(m.pages[v].pool, o.size, o.align) && o.paddr == m.pages[v].paddr + bit * SlotSize(m.pages[v].pool)
    ensures CanTake(m, v, bit) && Key(v, bit) !in live
    ensures
      var m' := Take(m, v, bit);
      && MemInv(m') && Backed(m', live[Key(v, bit) := o])
      && m'.pages.Keys == m.pages.Keys && m'.pages[v].pool == m.pages[v].pool
  {
    TakeBooks(m, v, bit);
    TakeOneEmpty(m, v, bit);
    TakeBacked(m, v, bit, live, o);
    hide Books, Backed, OneEmpty, SetBit, TakeFrom;
  }

  /** The scan of nvme_mem_pool_shrink with `rest` still to visit: n empty heaps
      were met, and of those only the first, `kept`, is still there. */
  ghost predicate Scanning(m0: Mem, m: Mem, i: nat, rest: seq<nat>, n: nat, kept: nat) {
    && Books(m)
    && Shrunk(m0, m, i)
    && NoDup(rest)
    && (forall v :: v in rest ==> InUse(m.pages, i, v))
    && (forall w :: EmptyHeap(m, i, w) && w !in rest ==> n >= 1 && w == kept)
    && (n > 0 ==> kept !in rest)
    && i < |m0.pools| && FirstKept(m0.pages, m.pages, m0.pools[i].use, rest, n, kept)
  }

  /** The first empty heap of a list. */
  predicate FirstEmpty(pages: map<nat, Page>, use: seq<nat>, j: nat) {
    && j < |use| && use[j] in pages && Empty(pages[use[j]])
    && forall h :: 0 <= h < j ==> use[h] in pages && !Empty(pages[use[h]])
  }

  ghost predicate FirstStays(pages0: map<nat, Page>, use: seq<nat>, pages: map<nat, Page>) {
    forall j: nat :: FirstEmpty(pages0, use, j) ==> use[j] in pages
  }

  /** With `rest` of the list still to visit, the first empty heap was not met,
      or is the one kept. */
  ghost predicate FirstKept(pages0: map<nat, Page>, pages: map<nat, Page>, use: seq<nat>, rest: seq<nat>, n: nat, kept: nat) {
    && |rest| <= |use| && rest == use[|use| - |rest|..]
    && (n == 0 ==> forall h :: 0 <= h < |use| - |rest| ==> use[h] in pages0 && !Empty(pages0[use[h]]))
    && (n > 0 ==> kept in pages && forall j: nat :: FirstEmpty(pages0, use, j) ==> use[j] == kept)
  }

  lemma FirstKeptNext(pages0: map<nat, Page>, pages: map<nat, Page>, use: seq<nat>, rest: seq<nat>, n: nat, kept: nat)
    requires FirstKept(pages0, pages, use, rest, n, kept) && rest != []
    requires rest[0] in pages && rest[0] in pages0 && pages0[rest[0]] == pages[rest[0]]
    ensures
      var v := rest[0];
      && (!Empty(pages[v]) ==> FirstKept(pages0, pages, use, rest[1..], n, kept))
      && (Empty(pages[v]) && n == 0 ==> FirstKept(pages0, pages, use, rest[1..], 1, v))
      && (n > 0 && kept != v ==> FirstKept(pages0, pages - {v}, use, rest[1..], n + 1, kept))
  {
    var h := |use| - |rest|;
    assert use[h] == rest[0] && rest[1..] == use[h + 1..];
    if Empty(pages[rest[0]]) && n == 0 {
      forall j: nat | FirstEmpty(pages0, use, j) ensures use[j] == rest[0] {
        assert j == h;
      }
    }
  }

  lemma ScanStart(m: Mem, i: nat)
    requires Books(m) && i < POOLS
    ensures i < |m.pools| && Scanning(m, m, i, m.pools[i].use, 0, 0)
  {
    assert PoolInv(m, i);
    forall w | EmptyHeap(m, i, w) ensures w in m.pools[i].use {
      assert PageInv(m, w);
      SlotsPositive(m, i);
      assert InUse(m.pages, i, w);
    }
    hide Books;
  }

  lemma ScanHead(m0: Mem, m: Mem, i: nat, rest: seq<nat>, n: nat, kept: nat)
    requires Scanning(m0, m, i, rest, n, kept) && rest != []
    ensures
      var v := rest[0];
      && InUse(m.pages, i, v)
      && (!Empty(m.pages[v]) ==> Scanning(m0, m, i, rest[1..], n, kept))
      && (Empty(m.pages[v]) && n == 0 ==> Scanning(m0, m, i, rest[1..], 1, v))
      && (Empty(m.pages[v]) && n > 0 ==> CanDrop(m, v) && Scanning(m0, Drop(m, v), i, rest[1..], n + 1, kept))
  {
    hide PageInv, PoolInv, HashInv, Remove, FirstKept;
    var v := rest[0];
    NoDupTail(rest);
    assert v in rest;
    FirstKeptNext(m0.pages, m.pages, m0.pools[i].use, rest, n, kept);
    if Empty(m.pages[v]) && n > 0 {
      DropBooks(m, v);
      ScanDrop(m0, m, i, rest, n, kept);
    }
  }

  lemma ScanDrop(m0: Mem, m: Mem, i: nat, rest: seq<nat>, n: nat, kept: nat)
    requires Scanning(m0, m, i, rest, n, kept) && rest != []
    requires n > 0 && InUse(m.pages, i, rest[0]) && Empty(m.pages[rest[0]])
    requires CanDrop(m, rest[0]) && Books(Drop(m, rest[0]))
    requires FirstKept(m0.pages, Drop(m, rest[0]).pages, m0.pools[i].use, rest[1..], n + 1, kept)
    ensures Scanning(m0, Drop(m, rest[0]), i, rest[1..], n + 1, kept)
  {
    hide Books, Remove, FirstKept;
    NoDupTail(rest);
  }

  lemma ScanEnd(m0: Mem, m: Mem, i: nat, n: nat, kept: nat)
    requires Scanning(m0, m, i, [], n, kept)
    ensures Books(m) && Shrunk(m0, m, i) && OneEmpty(m, i)
    ensures i < |m0.pools| && FirstStays(m0.pages, m0.pools[i].use, m.pages)
  {
    hide Books, Shrunk;
  }

  /** What the books say about the slot an address lies in. */
  lemma SlotState(m: Mem, live: map<Key, Object>, v: nat, a: nat)
    requires MemInv(m) && Backed(m, live) && v in m.pages && v <= a < v + HpSize(m)
    ensures
      var p, bit := m.pages[v], SlotIndex(m, v, a);
      && p.pool < POOLS && p.pool < |m.pools| && m.pools[p.pool].sizeBits == MIN_BITS + p.pool
      && bit == Shr(a - v, MIN_BITS + p.pool)
      && bit < p.nrObjs && bit / 8 < |p.bitmap|
      && (TestBit(p.bitmap, bit) <==> Key(v, bit) in live)
      && (p.nrFree == p.nrObjs ==> !TestBit(p.bitmap, bit))
  {
    assert PageInv(m, v);
    assert PoolInv(m, m.pages[v].pool);
    SlotExists(m, v, a);
    EmptyHasNone(m, v, SlotIndex(m, v, a));
    hide Books, PageInv, PoolLists, PoolCounts, Shr;
  }

  lemma PutKeeps(m: Mem, live: map<Key, Object>, v: nat, bit: nat)
    requires MemInv(m) && Backed(m, live) && v in m.pages && bit < m.pages[v].nrObjs && bit / 8 < |m.pages[v].bitmap|
    requires TestBit(m.pages[v].bitmap, bit)
    ensures CanPut(m, v, bit)
    ensures
      var m' := Put(m, v, bit);
      && Books(m') && Backed(m', live - {Key(v, bit)}) && Local(m, m', m.pages[v].pool, v)
      && v in m'.pages && m'.pages[v].pool == m.pages[v].pool < POOLS
      && (!Empty(m'.pages[v]) ==> MemInv(m'))
  {
    PutBooks(m, v, bit);
    PutBacked(m, v, bit, live);
    assert PageInv(m, v);
    hide Books, PageInv, Backed, OneEmpty, ClearBit, PutInto, Local;
    if !Empty(Put(m, v, bit).pages[v]) {
      OneEmptyLocal(m, Put(m, v, bit), m.pages[v].pool, v);
    }
  }

  lemma ShrinkKeeps(m0: Mem, m1: Mem, m2: Mem, live: map<Key, Object>, i: nat, v: nat)
    requires MemInv(m0) && Local(m0, m1, i, v) && Books(m1) && Backed(m1, live)
    requires Books(m2) && Shrunk(m1, m2, i) && OneEmpty(m2, i)
    ensures MemInv(m2) && Backed(m2, live)
  {
    ShrunkBacked(m1, m2, i, live);
    hide Books, Backed;
    forall j | 0 <= j < POOLS ensures OneEmpty(m2, j) {
      if j != i {
        OtherEmpty(m0, m1, m2, i, v, j);
      }
    }
  }

  lemma OtherEmpty(m0: Mem, m1: Mem, m2: Mem, i: nat, v: nat, j: nat)
    requires Local(m0, m1, i, v) && Shrunk(m1, m2, i) && j != i && OneEmpty(m0, j)
    ensures OneEmpty(m2, j)
  {
    assert forall w :: EmptyHeap(m2, j, w) ==> EmptyHeap(m0, j, w);
  }

  lemma HeapSlots(m: Mem, i: nat)
    requires m.hpBits >= MAX_BITS && i < POOLS
    ensures Shr(HpSize(m), MIN_BITS + i) == Slots(m, i)
  {
    SlotsCover(m, i);
    hide Pow2;
    DivUnique(SlotSize(i), HpSize(m), Slots(m, i), 0);
  }

  /** An address lies in at most one hugepage. */
  lemma OneHugepage(m: Mem, v: nat, w: nat, a: nat)
    requires Books(m) && v in m.pages && w in m.pages
    requires v <= a < v + HpSize(m) && w <= a < w + HpSize(m)
    ensures v == w
  {
    PageGeometry(m, v);
    PageGeometry(m, w);
    hide Pow2, Books;
    if v < w {
      MultiplesApart(v, w, HpSize(m));
    } else if w < v {
      MultiplesApart(w, v, HpSize(m));
    }
  }

  /** The address lies in the slot k. */
  predicate InObject(m: Mem, k: Key, a: nat) {
    k.page in m.pages && Address(m, k.page, k.slot) <= a < Address(m, k.page, k.slot) + SlotSize(m.pages[k.page].pool)
  }

  lemma NoObject(m: Mem, live: map<Key, Object>, a: nat)
    requires Books(m) && Backed(m, live)
    requires forall v :: v in m.pages ==> !(v <= a < v + HpSize(m))
    ensures forall k :: k in live ==> !InObject(m, k, a)
  {
    hide Books, Pow2, SlotSize;
    forall k | k in live ensures !InObject(m, k, a) {
      InsideHugepage(m, k.page, k.slot);
    }
  }

  lemma ObjectTranslates(m: Mem, live: map<Key, Object>, v: nat, a: nat)
    requires Books(m) && Backed(m, live) && v in m.pages && v <= a < v + HpSize(m)
    ensures forall k :: k in live && InObject(m, k, a) ==>
      m.pages[v].paddr + (a - v) == live[k].paddr + (a - Address(m, k.page, k.slot))
  {
    hide Books, Pow2, SlotSize, HpSize;
    forall k | k in live && InObject(m, k, a)
      ensures m.pages[v].paddr + (a - v) == live[k].paddr + (a - Address(m, k.page, k.slot))
    {
      InsideHugepage(m, k.page, k.slot);
      OneHugepage(m, k.page, v, a);
    }
  }

  lemma SearchHit(m: Mem, v: nat, a: nat)
    requires Books(m) && v in m.buckets[Shr(a, m.hpBits) % BUCKETS] && Shr(v, m.hpBits) == Shr(a, m.hpBits)
    ensures v in m.pages && v <= a < v + HpSize(m)
  {
    assert HashInv(m);
    assert v in m.pages;
    PageGeometry(m, v);
    hide Pow2, Books;
    SameNumber(v, a, HpSize(m));
  }

  /** Nothing registered, nothing allocated. */
  lemma NewMemory(m: Mem)
    requires m.hpBits >= MAX_BITS && m.pages == map[] && m.nrHp == 0
    requires m.buckets == seq(BUCKETS, _ => [])
    requires m.pools == seq(POOLS, i requires 0 <= i => Mempool(MIN_BITS + i, 0, 0, 0, [], 0, []))
    ensures MemInv(m) && Backed(m, map[])
  {
    forall i | 0 <= i < POOLS ensures PoolInv(m, i) {
    }
    hide Pow2;
  }

  lemma SearchFinds(m: Mem, v: nat, a: nat)
    requires Books(m) && v in m.pages && v <= a < v + HpSize(m)
    ensures v in m.buckets[Shr(a, m.hpBits) % BUCKETS] && Shr(v, m.hpBits) == Shr(a, m.hpBits)
  {
    assert HashInv(m) && v in m.buckets[Hash(m, v)];
    PageGeometry(m, v);
    hide Pow2, Books;
    SameNumber(v, a, HpSize(m));
  }

  lemma SearchMiss(m: Mem, a: nat)
    requires Books(m)
    requires forall v :: v in m.buckets[Shr(a, m.hpBits) % BUCKETS] ==> Shr(v, m.hpBits) != Shr(a, m.hpBits)
    ensures forall v :: v in m.pages ==> !(v <= a < v + HpSize(m))
  {
    forall v | v in m.pages ensures !(v <= a < v + HpSize(m)) {
      if v <= a < v + HpSize(m) {
        SearchFinds(m, v, a);
      }
      hide Books, Shr, Pow2;
    }
  }
}
