/** Where the allocator's objects lie, and how much memory its pools hold. */
module MemoryLayout {
  import opened Common
  import opened Lists
  import opened Bits
  import opened Memory

  // ---------------------------------------------------------------- addresses

  lemma SlotsCover(m: Mem, i: nat)
    requires m.hpBits >= MAX_BITS && i < POOLS
    ensures Slots(m, i) * SlotSize(i) == HpSize(m)
  {
    Pow2Add(m.hpBits - MIN_BITS - i, MIN_BITS + i);
  }

  lemma SlotInside(n: nat, s: nat, bit: nat)
    requires bit < n
    ensures bit * s + s <= n * s
  {
    assert (bit + 1) * s == bit * s + s;
    assert (bit + 1) * s <= n * s;
  }

  /** What the books say about one hugepage: it is aligned and just filled by
      its slots. */
  lemma PageGeometry(m: Mem, v: nat)
    requires Books(m) && v in m.pages
    ensures v % HpSize(m) == 0 && m.pages[v].pool < POOLS && SlotSize(m.pages[v].pool) > 0 && m.hpBits >= MAX_BITS
    ensures m.pages[v].nrObjs * SlotSize(m.pages[v].pool) == HpSize(m)
  {
    assert PageInv(m, v);
    SlotsCover(m, m.pages[v].pool);
    hide Pow2;
  }

  /** Every slot lies inside its hugepage. */
  lemma InsideHugepage(m: Mem, v: nat, bit: nat)
    requires Books(m) && Slot(m, v, bit)
    ensures v <= Address(m, v, bit) && Address(m, v, bit) + SlotSize(m.pages[v].pool) <= v + HpSize(m)
  {
    hide Pow2, SlotSize, HpSize, Books;
    PageGeometry(m, v);
    SlotInside(m.pages[v].nrObjs, SlotSize(m.pages[v].pool), bit);
  }

  /** Multiples of h that differ are at least h apart. */
  lemma MultiplesApart(v: nat, w: nat, h: nat)
    requires h > 0 && v % h == 0 && w % h == 0 && v < w
    ensures v + h <= w
  {
    var d := w / h - v / h;
    assert w - v == d * h;
    assert d >= 1;
    assert d * h >= h;
  }

  /** A hugepage contains an address exactly when they have the same number. */
  lemma SameNumber(v: nat, a: nat, h: nat)
    requires h > 0 && v % h == 0
    ensures v <= a < v + h <==> v / h == a / h
  {
    assert v == (v / h) * h && a == (a / h) * h + a % h;
    if v <= a < v + h {
      DivUnique(h, a, v / h, a - v);
    }
  }

  /** Different slots do not overlap, in the same heap or in different ones. */
  lemma SlotsDisjoint(m: Mem, v: nat, b: nat, w: nat, c: nat)
    requires Books(m) && Slot(m, v, b) && Slot(m, w, c) && Key(v, b) != Key(w, c)
    ensures
      var s, t := SlotSize(m.pages[v].pool), SlotSize(m.pages[w].pool);
      Address(m, v, b) + s <= Address(m, w, c) || Address(m, w, c) + t <= Address(m, v, b)
  {
    InsideHugepage(m, v, b);
    InsideHugepage(m, w, c);
    PageGeometry(m, v);
    PageGeometry(m, w);
    hide Pow2, SlotSize, Books, HpSize;
    if v < w {
      MultiplesApart(v, w, HpSize(m));
    } else if w < v {
      MultiplesApart(w, v, HpSize(m));
    } else if b < c {
      SlotInside(c, SlotSize(m.pages[v].pool), b);
    } else {
      SlotInside(b, SlotSize(m.pages[v].pool), c);
    }
  }

  lemma MultipleOf(x: nat, n: nat, k: nat)
    requires k <= n && x % Pow2(n) == 0
    ensures x % Pow2(k) == 0
  {
    hide Pow2;
    Pow2Add(n - k, k);
    Regroup(x, x / Pow2(n), Pow2(n - k), Pow2(k));
  }

  lemma Regroup(x: nat, q: nat, a: nat, b: nat)
    requires b > 0 && x == q * (a * b)
    ensures x % b == 0
  {
    assert x == (q * a) * b;
    DivUnique(b, x, q * a, 0);
  }

  lemma SumAligned(x: nat, y: nat, s: nat)
    requires s > 0 && x % s == 0
    ensures (x + y * s) % s == 0
  {
    assert x + y * s == (x / s + y) * s;
    DivUnique(s, x + y * s, x / s + y, 0);
  }

  /** A slot is aligned to every power of two up to its size. */
  lemma SlotAligned(m: Mem, v: nat, bit: nat, align: nat)
    requires Books(m) && Slot(m, v, bit) && IsPow2(align) && align <= SlotSize(m.pages[v].pool)
    ensures Address(m, v, bit) % align == 0
  {
    hide Pow2, Books, IsPow2;
    PageGeometry(m, v);
    var n := MIN_BITS + m.pages[v].pool;
    AlignedPow2(v, bit, m.hpBits, n, align);
  }

  lemma AlignedPow2(v: nat, bit: nat, hpBits: nat, n: nat, align: nat)
    requires n <= hpBits && v % Pow2(hpBits) == 0 && IsPow2(align) && align <= Pow2(n)
    ensures (v + bit * Pow2(n)) % align == 0
  {
    hide Pow2, IsPow2;
    IsPow2Exact(align);
    var k: nat :| align == Pow2(k);
    if k > n {
      Pow2Monotone(n, k);
    }
    MultipleOf(v, hpBits, n);
    SumAligned(v, bit, Pow2(n));
    MultipleOf(v + bit * Pow2(n), n, k);
  }

  /** The slot an address lies in is found by dividing. */
  lemma SlotOfAddress(v: nat, s: nat, bit: nat, a: nat)
    requires s > 0 && v + bit * s <= a < v + bit * s + s
    ensures (a - v) / s == bit
  {
    DivUnique(s, a - v, bit, a - v - bit * s);
  }

  /** The index of the slot of heap v that address a lies in. */
  function SlotIndex(m: Mem, v: nat, a: nat): nat
    requires v in m.pages && v <= a
  {
    Shr(a - v, MIN_BITS + m.pages[v].pool)
  }

  lemma SlotExists(m: Mem, v: nat, a: nat)
    requires Books(m) && v in m.pages && v <= a < v + HpSize(m)
    ensures
      var bit := SlotIndex(m, v, a);
      Slot(m, v, bit) && Address(m, v, bit) <= a < Address(m, v, bit) + SlotSize(m.pages[v].pool)
  {
    hide Pow2, HpSize, Books, Slot;
    PageGeometry(m, v);
    var s, n := SlotSize(m.pages[v].pool), m.pages[v].nrObjs;
    var bit := SlotIndex(m, v, a);
    Quotient(a - v, s);
    if bit >= n {
      SlotsBelow(n, bit, s);
    }
    SlotOf(m, v, bit);
  }

  lemma Quotient(x: nat, s: nat)
    requires s > 0
    ensures x / s * s <= x < x / s * s + s
  {
  }

  lemma SlotsBelow(n: nat, b: nat, s: nat)
    requires n <= b
    ensures n * s <= b * s
  {
  }

  lemma SaneExact()
    ensures forall o: Object :: Sane(o) <==> o.size <= 0x8000_0000_0000_0000 && o.align <= 0x8000_0000_0000_0000
  {
  }

  /** Allocator safety: live objects, but for those of more than 2^63 bytes, lie
      inside one hugepage, are as large and as aligned as asked, and do not overlap
      each other. */
  lemma LiveObjects(m: Mem, live: map<Key, Object>)
    requires Books(m) && Backed(m, live)
    ensures forall o: Object :: Sane(o) <==> o.size <= 0x8000_0000_0000_0000 && o.align <= 0x8000_0000_0000_0000
    ensures forall k :: k in live && Sane(live[k]) ==>
      && Slot(m, k.page, k.slot)
      && var a, o := Address(m, k.page, k.slot), live[k];
         k.page <= a && a + o.size <= k.page + HpSize(m) && (o.align != 0 ==> a % o.align == 0)
    ensures forall k, l :: k in live && l in live && k != l && Sane(live[k]) && Sane(live[l]) ==>
      && Slot(m, k.page, k.slot) && Slot(m, l.page, l.slot)
      && var a, b := Address(m, k.page, k.slot), Address(m, l.page, l.slot);
         a + live[k].size <= b || b + live[l].size <= a
  {
    hide SlotSize, HpSize, Books, Sane;
    SaneExact();
    forall k | k in live && Sane(live[k])
      ensures
        && Slot(m, k.page, k.slot)
        && var a, o := Address(m, k.page, k.slot), live[k];
           k.page <= a && a + o.size <= k.page + HpSize(m) && (o.align != 0 ==> a % o.align == 0)
    {
      InsideHugepage(m, k.page, k.slot);
      if live[k].align != 0 {
        SlotAligned(m, k.page, k.slot, live[k].align);
      }
    }
    forall k, l | k in live && l in live && k != l && Sane(live[k]) && Sane(live[l])
      ensures
        && Slot(m, k.page, k.slot) && Slot(m, l.page, l.slot)
        && var a, b := Address(m, k.page, k.slot), Address(m, l.page, l.slot);
           a + live[k].size <= b || b + live[l].size <= a
    {
      SlotsDisjoint(m, k.page, k.slot, l.page, l.slot);
    }
  }

  // ------------------------------------------------------------------- totals

  /** Bytes in the slots of the first n pools, as nvme_memstat adds them up. */
  ghost function TotalBytes(m: Mem, n: nat): nat
    requires n <= |m.pools|
  {
    if n == 0 then 0 else TotalBytes(m, n - 1) + m.pools[n - 1].nrObjs * SlotSize(n - 1)
  }

  ghost function FreeBytes(m: Mem, n: nat): nat
    requires n <= |m.pools|
  {
    if n == 0 then 0 else FreeBytes(m, n - 1) + m.pools[n - 1].nrFree * SlotSize(n - 1)
  }

  function PagesBelow(m: Mem, n: nat): set<nat> {
    set v | v in m.pages && m.pages[v].pool < n
  }

  function Elements(s: seq<nat>): set<nat> {
    set v | v in s
  }

  lemma {:induction false} DistinctElements(s: seq<nat>)
    requires NoDup(s)
    ensures |Elements(s)| == |s|
  {
    if s == [] {
      assert Elements(s) == {};
    } else {
      NoDupTail(s);
      DistinctElements(s[1..]);
      assert Elements(s) == Elements(s[1..]) + {s[0]};
    }
  }

  lemma UnionSize(a: set<nat>, u: set<nat>, f: set<nat>, b: set<nat>)
    requires a !! u && a !! f && u !! f && b == a + u + f
    ensures |b| == |a| + |u| + |f|
  {
    assert |a + u| == |a| + |u|;
  }

  /** The two lists of a pool hold all its hugepages. */
  lemma PoolPages(m: Mem, q: Mempool, i: nat)
    requires PoolLists(m.pages, q, i)
    ensures |PagesBelow(m, i + 1)| == |PagesBelow(m, i)| + |q.use| + |q.full|
  {
    DistinctElements(q.use);
    DistinctElements(q.full);
    hide NoDup;
    assert forall v :: v in Elements(q.use) <==> InUse(m.pages, i, v);
    assert forall v :: v in Elements(q.full) <==> IsFull(m.pages, i, v);
    UnionSize(PagesBelow(m, i), Elements(q.use), Elements(q.full), PagesBelow(m, i + 1));
  }

  lemma PoolFacts(m: Mem, i: nat)
    requires Books(m) && i < POOLS
    ensures PoolLists(m.pages, m.pools[i], i)
    ensures m.pools[i].nrObjs == (|m.pools[i].use| + |m.pools[i].full|) * Slots(m, i)
  {
    assert PoolInv(m, i);
    hide PoolLists;
  }

  /** What one more pool adds. */
  lemma PoolBytes(m: Mem, i: nat)
    requires Books(m) && i < POOLS
    ensures TotalBytes(m, i + 1) == TotalBytes(m, i) + (|m.pools[i].use| + |m.pools[i].full|) * HpSize(m)
  {
    PoolFacts(m, i);
    SlotsCover(m, i);
    var t := TotalBytes(m, i);
    var q := m.pools[i];
    assert TotalBytes(m, i + 1) == t + q.nrObjs * SlotSize(i);
    hide *;
    Spread(|q.use| + |q.full|, Slots(m, i), SlotSize(i), HpSize(m));
  }

  lemma {:induction false} BytesBelow(m: Mem, n: nat)
    requires Books(m) && n <= POOLS
    ensures TotalBytes(m, n) == |PagesBelow(m, n)| * HpSize(m)
  {
    if n == 0 {
      assert PagesBelow(m, 0) == {};
      hide Pow2;
    } else {
      assert |m.pools| == POOLS;
      hide *;
      BytesBelow(m, n - 1);
      BytesNext(m, n - 1);
    }
  }

  lemma BytesNext(m: Mem, i: nat)
    requires Books(m) && i < POOLS && |m.pools| == POOLS && TotalBytes(m, i) == |PagesBelow(m, i)| * HpSize(m)
    ensures TotalBytes(m, i + 1) == |PagesBelow(m, i + 1)| * HpSize(m)
  {
    hide *;
    PoolFacts(m, i);
    PoolBytes(m, i);
    PoolPages(m, m.pools[i], i);
    Distribute(|PagesBelow(m, i)|, |m.pools[i].use| + |m.pools[i].full|, HpSize(m));
  }

  lemma Distribute(a: nat, k: nat, h: nat)
    ensures (a + k) * h == a * h + k * h
  {
  }

  lemma Spread(k: nat, n: nat, s: nat, h: nat)
    requires n * s == h
    ensures (k * n) * s == k * h
  {
    assert (k * n) * s == k * (n * s);
  }

  /** The pools together hold exactly the registered hugepages. */
  lemma MemstatTotal(m: Mem)
    requires Books(m)
    ensures TotalBytes(m, POOLS) == m.nrHp * HpSize(m)
  {
    BytesBelow(m, POOLS);
    assert PagesBelow(m, POOLS) == m.pages.Keys by {
      forall v | v in m.pages ensures v in PagesBelow(m, POOLS) {
        assert PageInv(m, v);
      }
    }
    assert HashInv(m);
    hide Pow2, HpSize, TotalBytes;
  }

  lemma {:induction false} SumAtMost(pages: map<nat, Page>, list: seq<nat>, n: nat)
    requires forall v :: v in list && v in pages ==> pages[v].nrFree <= n
    ensures SumFree(pages, list) <= |list| * n
  {
    if list != [] {
      SumAtMost(pages, list[1..], n);
      assert |list| * n == (|list| - 1) * n + n;
    }
  }

  lemma FreeAtMost(m: Mem, i: nat)
    requires Books(m) && i < POOLS
    ensures m.pools[i].nrFree <= m.pools[i].nrObjs
  {
    assert PoolInv(m, i);
    var q := m.pools[i];
    forall v | v in q.use && v in m.pages ensures m.pages[v].nrFree <= Slots(m, i) {
      assert PageInv(m, v) && InUse(m.pages, i, v);
      CoversBit(m.pages[v].bitmap, m.pages[v].nrObjs);
      CountBounds(m.pages[v].bitmap, m.pages[v].nrObjs);
    }
    hide Pow2, Slots, PoolLists, PageInv;
    SumAtMost(m.pages, q.use, Slots(m, i));
    assert (|q.use| + |q.full|) * Slots(m, i) == |q.use| * Slots(m, i) + |q.full| * Slots(m, i);
  }

  /** One round of nvme_memstat. */
  lemma PoolSum(m: Mem, i: nat)
    requires Books(m) && i < POOLS
    ensures |m.pools| == POOLS && m.nrHp == |m.pages|
    ensures
      var q := m.pools[i];
      && TotalBytes(m, i + 1) == TotalBytes(m, i) + q.nrObjs * Pow2(q.sizeBits)
      && FreeBytes(m, i + 1) == FreeBytes(m, i) + q.nrFree * Pow2(q.sizeBits)
      && q.nrFree * Pow2(q.sizeBits) <= q.nrObjs * Pow2(q.sizeBits)
  {
    assert PoolInv(m, i) && HashInv(m);
    hide Pow2, PoolLists, PoolCounts, PageInv, Slots;
    FreeAtMost(m, i);
    SlotsBelow(m.pools[i].nrFree, m.pools[i].nrObjs, Pow2(m.pools[i].sizeBits));
  }
}
