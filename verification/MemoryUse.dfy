/** The counters of the allocator against its live objects: what nvme_memstat
    reports as not free is just what was handed out. */
module MemoryUse {
  import opened Lists
  import opened Bits
  import opened Memory
  import opened MemoryLayout

  // ------------------------------------------------------------ objects of a heap

  /** Objects on the hugepage at v in slots below n. */
  ghost function Below(live: map<Key, Object>, v: nat, n: nat): set<Key> {
    set k | k in live && k.page == v && k.slot < n
  }

  ghost function On(live: map<Key, Object>, v: nat): set<Key> {
    set k | k in live && k.page == v
  }

  lemma {:induction false} SetBits(bm: seq<bv8>, n: nat, live: map<Key, Object>, v: nat)
    requires forall j :: 0 <= j < n ==> j / 8 < |bm|
    requires forall j: nat :: j < n ==> (TestBit(bm, j) <==> Key(v, j) in live)
    ensures CountClear(bm, n) + |Below(live, v, n)| == n
  {
    hide TestBit;
    if n == 0 {
      assert Below(live, v, 0) == {};
    } else {
      SetBits(bm, n - 1, live, v);
      var k := Key(v, n - 1);
      if k in live {
        assert Below(live, v, n) == Below(live, v, n - 1) + {k};
      } else {
        assert Below(live, v, n) == Below(live, v, n - 1);
      }
    }
  }

  /** A heap's slots are free or hold a live object. */
  lemma HeapUse(m: Mem, live: map<Key, Object>, v: nat)
    requires Books(m) && Backed(m, live) && v in m.pages
    ensures m.pages[v].nrFree + |On(live, v)| == m.pages[v].nrObjs
  {
    var p := m.pages[v];
    assert PageInv(m, v);
    CoversBit(p.bitmap, p.nrObjs);
    hide Books, TestBit, CountClear, Slots, Holds;
    forall j: nat | j < p.nrObjs ensures TestBit(p.bitmap, j) <==> Key(v, j) in live {
      assert Slot(m, v, j);
    }
    SetBits(p.bitmap, p.nrObjs, live, v);
    assert Below(live, v, p.nrObjs) == On(live, v);
  }

  // ------------------------------------------------------------ objects of a pool

  ghost function OnAny(live: map<Key, Object>, list: seq<nat>): set<Key> {
    set k | k in live && k.page in list
  }

  /** Listed heaps of n slots each, with free slots and objects. */
  lemma {:induction false} ListUse(m: Mem, live: map<Key, Object>, list: seq<nat>, n: nat)
    requires Books(m) && Backed(m, live) && NoDup(list)
    requires forall v :: v in list ==> v in m.pages && m.pages[v].nrObjs == n
    ensures SumFree(m.pages, list) + |OnAny(live, list)| == |list| * n
  {
    hide Books, Backed;
    if list == [] {
      assert OnAny(live, []) == {};
    } else {
      var v, rest := list[0], list[1..];
      assert list == [v] + rest;
      NoDupTail(list);
      ListUse(m, live, rest, n);
      HeapUse(m, live, v);
      assert v !in rest;
      assert OnAny(live, list) == On(live, v) + OnAny(live, rest) && On(live, v) !! OnAny(live, rest);
      Distribute(1, |rest|, n);
    }
  }

  /** The live objects of pool i. */
  ghost function InPool(m: Mem, live: map<Key, Object>, i: nat): set<Key> {
    set k | k in live && k.page in m.pages && m.pages[k.page].pool == i
  }

  /** Slots of a pool that are not free hold its live objects. */
  lemma PoolUse(m: Mem, live: map<Key, Object>, i: nat)
    requires Books(m) && Backed(m, live) && i < POOLS
    ensures m.pools[i].nrObjs == m.pools[i].nrFree + |InPool(m, live, i)|
  {
    var q, n := m.pools[i], Slots(m, i);
    assert PoolInv(m, i);
    forall v | v in q.use || v in q.full ensures v in m.pages && m.pages[v].nrObjs == n {
      assert InUse(m.pages, i, v) || IsFull(m.pages, i, v);
      assert PageInv(m, v);
    }
    hide Books, Backed, PageInv, Slots;
    ListUse(m, live, q.use, n);
    ListUse(m, live, q.full, n);
    NoneFree(m, q.full, i);
    PoolObjects(m, live, q, i);
    Distribute(|q.use|, |q.full|, n);
  }

  lemma {:induction false} NoneFree(m: Mem, list: seq<nat>, i: nat)
    requires forall v :: v in list ==> IsFull(m.pages, i, v)
    ensures SumFree(m.pages, list) == 0
  {
    if list != [] {
      assert list[0] in list;
      NoneFree(m, list[1..], i);
    }
  }

  lemma PoolObjects(m: Mem, live: map<Key, Object>, q: Mempool, i: nat)
    requires PoolLists(m.pages, q, i)
    ensures |InPool(m, live, i)| == |OnAny(live, q.use)| + |OnAny(live, q.full)|
  {
    var a, b := OnAny(live, q.use), OnAny(live, q.full);
    forall k | k in live ensures k in InPool(m, live, i) <==> k in a || k in b {
      assert InUse(m.pages, i, k.page) || IsFull(m.pages, i, k.page)
        <==> k.page in m.pages && m.pages[k.page].pool == i;
    }
    assert InPool(m, live, i) == a + b;
    forall k | k in a ensures k !in b {
      assert InUse(m.pages, i, k.page) && !IsFull(m.pages, i, k.page);
    }
    assert a !! b;
  }

  // --------------------------------------------------------------------- bytes

  /** Bytes handed out by the first n pools: a slot for every live object. */
  ghost function LiveBytes(m: Mem, live: map<Key, Object>, n: nat): nat {
    if n == 0 then 0 else LiveBytes(m, live, n - 1) + |InPool(m, live, n - 1)| * SlotSize(n - 1)
  }

  lemma {:induction false} BytesUse(m: Mem, live: map<Key, Object>, n: nat)
    requires Books(m) && Backed(m, live) && n <= POOLS == |m.pools|
    ensures TotalBytes(m, n) == FreeBytes(m, n) + LiveBytes(m, live, n)
  {
    hide Books, Backed, SlotSize, InPool;
    if n > 0 {
      BytesUse(m, live, n - 1);
      PoolUse(m, live, n - 1);
      Distribute(m.pools[n - 1].nrFree, |InPool(m, live, n - 1)|, SlotSize(n - 1));
    }
  }

  /** Every live object is counted, in one pool. */
  lemma ObjectCounted(m: Mem, live: map<Key, Object>, k: Key)
    requires Books(m) && Backed(m, live) && k in live
    ensures exists i :: 0 <= i < POOLS && k in InPool(m, live, i)
    ensures forall i, j :: k in InPool(m, live, i) && k in InPool(m, live, j) ==> i == j
  {
    assert Slot(m, k.page, k.slot) && PageInv(m, k.page);
    assert k in InPool(m, live, m.pages[k.page].pool);
  }
}
