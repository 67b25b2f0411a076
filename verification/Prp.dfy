/** Physical region pages: the data pointer of section 4.3 of NVM Express 1.2,
    and the builder of lib/nvme/nvme_qpair.c for contiguous payloads. */
module Prp {
  import opened Common

  const PAGE: nat := 4096
  const MAX_PRP_LIST: nat := 506
  const MAX_XFER: nat := MAX_PRP_LIST * PAGE
  const VTOPHYS_ERROR: nat := 0xFFFF_FFFF_FFFF_FFFF

  /** n consecutive byte addresses from a on. */
  function Bytes(a: nat, n: nat): (s: seq<nat>)
    ensures |s| == n
  {
    seq(n, i => a + i)
  }

  lemma BytesConcat(a: nat, m: nat, n: nat)
    ensures Bytes(a, m + n) == Bytes(a, m) + Bytes(a + m, n)
  {
  }

  lemma BytesPrefix(a: nat, m: nat, n: nat)
    requires m <= n
    ensures Bytes(a, n)[..m] == Bytes(a, m)
  {
  }

  // ------------------------------------------------------------------ decoder

  /** The data pointer as the controller finds it: PRP1, PRP2, and the list in
      host memory at listAddr. */
  datatype Pointer = Pointer(prp1: nat, prp2: nat, listAddr: nat, list: seq<nat>)

  /** Section 4.3: the entries of a PRP list are page addresses with offset 0;
      each but the last covers a whole page. */
  function DecodeList(list: seq<nat>, len: nat): (r: Option<seq<nat>>) {
    if len == 0 then Some([])
    else if list == [] || list[0] % PAGE != 0 then None
    else
      var n := Min(len, PAGE);
      match DecodeList(list[1..], len - n)
      case None => None
      case Some(rest) => Some(Bytes(list[0], n) + rest)
  }

  /** PRP1 covers the rest of its page; PRP2 is the second page when one more
      suffices and the address of a PRP list otherwise. */
  function Decode(p: Pointer, len: nat): (r: Option<seq<nat>>) {
    var n := Min(len, PAGE - p.prp1 % PAGE);
    var rest := len - n;
    var tail :=
      if rest == 0 then Some([])
      else if rest <= PAGE then DecodeList([p.prp2], rest)
      else if p.prp2 == p.listAddr then DecodeList(p.list, rest)
      else None;
    match tail
    case None => None
    case Some(t) => Some(Bytes(p.prp1, n) + t)
  }

  // -------------------------------------------------------------------- pages

  /** A transfer as the pages it touches: the first address may be anywhere in
      its page, the others are page addresses. */
  ghost predicate PageList(pages: seq<nat>) {
    pages != [] && forall i :: 0 < i < |pages| ==> pages[i] % PAGE == 0
  }

  /** The bytes of a transfer of `len` bytes over `pages`. */
  function PageBytes(pages: seq<nat>, len: nat): (s: seq<nat>)
    decreases pages
  {
    if pages == [] || len == 0 then []
    else
      var n := Min(len, PAGE - pages[0] % PAGE);
      Bytes(pages[0], n) + PageBytes(pages[1..], len - n)
  }

  /** Pages touched by `len` bytes that start `offset` into a page. */
  function PageCount(offset: nat, len: nat): nat {
    (offset + len + PAGE - 1) / PAGE
  }

  lemma PageCountRest(offset: nat, len: nat)
    requires offset < PAGE && len > 0
    ensures PageCount(offset, len) >= 1
    ensures
      var n := Min(len, PAGE - offset);
      PageCount(0, len - n) == PageCount(offset, len) - 1 && (n < len ==> offset + n == PAGE)
  {
  }

  /** The pages are as many as the length needs. */
  predicate Fits(pages: seq<nat>, len: nat) {
    pages != [] && len > 0 && |pages| == PageCount(pages[0] % PAGE, len)
  }

  /** The pointer that describes a page list. */
  predicate Describes(p: Pointer, pages: seq<nat>) {
    && pages != []
    && p.prp1 == pages[0]
    && (|pages| == 2 ==> p.prp2 == pages[1])
    && (|pages| > 2 ==> p.prp2 == p.listAddr && |pages| - 1 <= |p.list| && p.list[..|pages| - 1] == pages[1..])
  }

  lemma {:induction false} ListDecodes(pages: seq<nat>, list: seq<nat>, len: nat)
    requires forall i :: 0 <= i < |pages| ==> pages[i] % PAGE == 0
    requires |pages| <= |list| && list[..|pages|] == pages
    requires |pages| == PageCount(0, len)
    ensures DecodeList(list, len) == Some(PageBytes(pages, len))
  {
    if len != 0 {
      assert pages[0] == list[0];
      assert list[1..][..|pages| - 1] == pages[1..];
      var n := Min(len, PAGE);
      PageCountRest(0, len);
      ListDecodes(pages[1..], list[1..], len - n);
    }
  }

  /** Whatever pointer describes a page list decodes to its bytes. */
  lemma DescribedDecodes(p: Pointer, pages: seq<nat>, len: nat)
    requires PageList(pages) && Fits(pages, len) && Describes(p, pages)
    ensures Decode(p, len) == Some(PageBytes(pages, len))
  {
    var n := Min(len, PAGE - pages[0] % PAGE);
    var rest := len - n;
    PageCountRest(pages[0] % PAGE, len);
    if rest == 0 {
      assert PageBytes(pages[1..], 0) == [];
    } else if rest <= PAGE {
      ListDecodes(pages[1..], [p.prp2], rest);
    } else {
      ListDecodes(pages[1..], p.list, rest);
    }
  }

  lemma SameHeads(a: nat, b: nat, n: nat, x: seq<nat>, y: seq<nat>)
    requires n > 0 && Bytes(a, n) + x == Bytes(b, n) + y
    ensures a == b && x == y
  {
    var s := Bytes(a, n) + x;
    assert s[0] == a && s[0] == b;
    assert s[n..] == x && s[n..] == y;
  }

  lemma {:induction false} ListExact(pages: seq<nat>, list: seq<nat>, len: nat)
    requires forall i :: 0 <= i < |pages| ==> pages[i] % PAGE == 0
    requires |pages| == PageCount(0, len) && DecodeList(list, len) == Some(PageBytes(pages, len))
    ensures |pages| <= |list| && list[..|pages|] == pages
    decreases len
  {
    if len != 0 {
      var n := Min(len, PAGE);
      PageCountRest(0, len);
      SameHeads(list[0], pages[0], n, DecodeList(list[1..], len - n).value, PageBytes(pages[1..], len - n));
      ListExact(pages[1..], list[1..], len - n);
    }
  }

  /** The list entries a pointer gives for the pages after the first. */
  function TailOf(p: Pointer, rest: nat): seq<nat> {
    if rest <= PAGE then [p.prp2] else p.list
  }

  lemma TailDecodes(p: Pointer, pages: seq<nat>, len: nat)
    requires pages != [] && p.prp1 == pages[0] && Decode(p, len) == Some(PageBytes(pages, len))
    requires len > PAGE - pages[0] % PAGE
    ensures
      var rest := len - (PAGE - pages[0] % PAGE);
      DecodeList(TailOf(p, rest), rest) == Some(PageBytes(pages[1..], rest))
  {
    var n := PAGE - pages[0] % PAGE;
    hide DecodeList, Bytes;
    SameHeads(pages[0], pages[0], n, DecodeList(TailOf(p, len - n), len - n).value, PageBytes(pages[1..], len - n));
  }

  lemma PagesAfterFirst(offset: nat, len: nat)
    requires offset < PAGE && len > 0
    ensures PageCount(offset, len) >= 2 <==> len > PAGE - offset
    ensures PageCount(offset, len) > 2 <==> len > PAGE - offset + PAGE
    ensures len > PAGE - offset ==> PageCount(0, len - (PAGE - offset)) == PageCount(offset, len) - 1
  {
  }

  lemma DecodedIsDescribed(p: Pointer, pages: seq<nat>, len: nat)
    requires PageList(pages) && Fits(pages, len)
    requires p.prp1 == pages[0] && (|pages| > 2 ==> p.prp2 == p.listAddr)
    requires Decode(p, len) == Some(PageBytes(pages, len))
    ensures Describes(p, pages)
  {
    hide Decode, PageBytes, PageCount, DecodeList;
    PagesAfterFirst(pages[0] % PAGE, len);
    if |pages| >= 2 {
      var rest := len - (PAGE - pages[0] % PAGE);
      TailDecodes(p, pages, len);
      ListExact(pages[1..], TailOf(p, rest), rest);
      if |pages| == 2 {
        assert [p.prp2][..1] == pages[1..];
      }
    }
  }

  /** Only a pointer that describes the page list decodes to its bytes. */
  lemma DecodesExactly(p: Pointer, pages: seq<nat>, len: nat)
    requires PageList(pages) && Fits(pages, len)
    requires p.prp1 == pages[0] && (|pages| > 2 ==> p.prp2 == p.listAddr)
    ensures Decode(p, len) == Some(PageBytes(pages, len)) <==> Describes(p, pages)
  {
    hide *;
    if Describes(p, pages) {
      DescribedDecodes(p, pages, len);
    } else if Decode(p, len) == Some(PageBytes(pages, len)) {
      DecodedIsDescribed(p, pages, len);
    }
  }

  // ------------------------------------------------ physically contiguous payload

  /** Address translation works page by page: virtual page to page frame.  It
      fails where the page map cannot be read; a page that is merely not mapped
      reads as frame 0. */
  type Frames = nat -> Option<nat>

  ghost predicate FramesOk(f: Frames) {
    forall v: nat :: f(v).Some? ==> f(v).value < 0x8_0000_0000_0000
  }

  /** nvme_mem_vtophys */
  function Phys(f: Frames, v: nat): (p: nat) {
    match f(v / PAGE)
    case Some(frame) => frame * PAGE + v % PAGE
    case None => VTOPHYS_ERROR
  }

  /** The addresses of the payload's bytes. */
  ghost function PhysBytes(f: Frames, v: nat, n: nat): (s: seq<nat>)
    ensures |s| == n
    ensures forall i :: 0 <= i < n ==> s[i] == Phys(f, v + i)
  {
    if n == 0 then [] else PhysBytes(f, v, n - 1) + [Phys(f, v + n - 1)]
  }

  lemma PhysPage(f: Frames, v: nat, n: nat)
    requires FramesOk(f) && f(v / PAGE).Some? && v % PAGE + n <= PAGE
    ensures Phys(f, v) != VTOPHYS_ERROR
    ensures Phys(f, v) % PAGE == v % PAGE
    ensures PhysBytes(f, v, n) == Bytes(Phys(f, v), n)
  {
    forall i | 0 <= i < n ensures PhysBytes(f, v, n)[i] == Bytes(Phys(f, v), n)[i] {
      assert (v + i) / PAGE == v / PAGE && (v + i) % PAGE == v % PAGE + i;
    }
  }

  /** Segments needed for `size` bytes that start `unaligned` into a page, as
      both PRP builders compute it. */
  function Segments(unaligned: nat, size: nat): (n: nat) {
    var modulo := size % PAGE;
    size / PAGE + (if modulo != 0 || unaligned != 0 then 1 + (modulo + unaligned - 1) / PAGE else 0)
  }

  /** The segment count is the number of pages touched, at every size and
      misalignment, and it needs more than the 506 list entries exactly when
      the payload reaches past the 507th page. */
  lemma SegmentsExact(unaligned: nat, size: nat)
    requires unaligned < PAGE
    ensures Segments(unaligned, size) == PageCount(unaligned, size)
    ensures Segments(unaligned, size) - 1 <= MAX_PRP_LIST <==> unaligned + size <= (MAX_PRP_LIST + 1) * PAGE
    ensures size <= MAX_XFER ==> Segments(unaligned, size) - 1 <= MAX_PRP_LIST
  {
  }

  /** Virtual address of the k-th page the payload touches. */
  function PageAt(v: nat, k: nat): nat {
    if k == 0 then v else v - v % PAGE + k * PAGE
  }

  ghost function Pages(f: Frames, v: nat, n: nat): (s: seq<nat>)
    ensures |s| == n
  {
    seq(n, k requires 0 <= k => Phys(f, PageAt(v, k)))
  }

  ghost predicate Translates(f: Frames, v: nat, n: nat) {
    forall k :: 0 <= k < n ==> f(PageAt(v, k) / PAGE).Some?
  }

  lemma PhysBytesConcat(f: Frames, v: nat, m: nat, n: nat)
    ensures PhysBytes(f, v, m + n) == PhysBytes(f, v, m) + PhysBytes(f, v + m, n)
  {
    var whole, parts := PhysBytes(f, v, m + n), PhysBytes(f, v, m) + PhysBytes(f, v + m, n);
    forall i | 0 <= i < |whole| ensures whole[i] == parts[i] {
      if i >= m {
        assert v + i == v + m + (i - m);
      }
    }
  }

  /** From the second page on, the pages are those of the rest of the payload. */
  lemma PagesShift(f: Frames, v: nat, n: nat, v': nat)
    requires n > 0 && v' == v - v % PAGE + PAGE
    ensures v' % PAGE == 0
    ensures Pages(f, v, n)[1..] == Pages(f, v', n - 1)
    ensures Translates(f, v, n) ==> Translates(f, v', n - 1)
  {
    forall k | 0 <= k < n - 1 ensures PageAt(v', k) == PageAt(v, k + 1) {
    }
  }

  /** A payload that translates: its bytes are the bytes of its pages. */
  lemma {:induction false} PagesCover(f: Frames, v: nat, size: nat)
    requires FramesOk(f) && size > 0 && Translates(f, v, PageCount(v % PAGE, size))
    ensures PageBytes(Pages(f, v, PageCount(v % PAGE, size)), size) == PhysBytes(f, v, size)
    decreases size
  {
    hide PhysBytes, PageCount, Phys, PageBytes;
    var n := PageCount(v % PAGE, size);
    var m := Min(size, PAGE - v % PAGE);
    PageCountRest(v % PAGE, size);
    FirstPage(f, v, n, size);
    if size > m {
      PagesShift(f, v, n, v + m);
      PagesCover(f, v + m, size - m);
      PhysBytesConcat(f, v, m, size - m);
    }
  }

  lemma FirstPage(f: Frames, v: nat, n: nat, size: nat)
    requires FramesOk(f) && n > 0 && size > 0 && Translates(f, v, n)
    ensures
      var m := Min(size, PAGE - v % PAGE);
      && PageBytes(Pages(f, v, n), size) == PhysBytes(f, v, m) + PageBytes(Pages(f, v, n)[1..], size - m)
      && (m == size ==> PageBytes(Pages(f, v, n), size) == PhysBytes(f, v, size))
  {
    assert f(PageAt(v, 0) / PAGE).Some?;
    PhysPage(f, v, Min(size, PAGE - v % PAGE));
    hide PhysBytes;
    assert PageBytes(Pages(f, v, n)[1..], 0) == [];
  }

  lemma PagesAligned(f: Frames, v: nat, n: nat)
    requires FramesOk(f) && Translates(f, v, n) && n > 0
    ensures PageList(Pages(f, v, n)) && Pages(f, v, n)[0] % PAGE == v % PAGE
  {
    forall k | 0 <= k < n ensures k > 0 ==> Pages(f, v, n)[k] % PAGE == 0 {
      PhysPage(f, PageAt(v, k), 0);
    }
    PhysPage(f, PageAt(v, 0), 0);
  }

  /** Overrun stands for the store past the 506 entries of the tracker's list. */
  datatype Built = Rejected | Overrun | Command(prp1: nat, prp2: nat, mptr: nat)

  /** _nvme_qpair_build_contig_request.  The page that a two-page transfer ends
      in is translated without looking for an error, and nothing keeps the list
      within its 506 entries. */
  method BuildContig(f: Frames, payload: nat, size: nat, md: Option<nat>, list: array<nat>, listAddr: nat)
      returns (r: Built)
    requires FramesOk(f) && size > 0
    requires list.Length == MAX_PRP_LIST
    modifies list
    ensures
      var n := Segments(payload % PAGE, size);
      r.Rejected? <==>
        || f(payload / PAGE).None?
        || (md.Some? && f(md.value / PAGE).None?)
        || (n > 2 && !Translates(f, payload, Min(n, MAX_PRP_LIST + 2)))
    ensures r.Overrun? <==> !r.Rejected? && payload % PAGE + size > (MAX_PRP_LIST + 1) * PAGE
    ensures r.Command? ==>
      var n := Segments(payload % PAGE, size);
      if Translates(f, payload, n) then
        Decode(Pointer(r.prp1, r.prp2, listAddr, list[..]), size) == Some(PhysBytes(f, payload, size))
      else
        n == 2 && r.prp2 == VTOPHYS_ERROR && Decode(Pointer(r.prp1, r.prp2, listAddr, list[..]), size) == None
    ensures r.Command? && md.Some? ==> r.mptr == Phys(f, md.value)
  {
    SegmentsExact(payload % PAGE, size);
    var phys := Phys(f, payload);
    if phys == VTOPHYS_ERROR {
      PhysError(f, payload);
      return Rejected;
    }
    PhysError(f, payload);
    PhysPage(f, payload, 0);
    var unaligned := phys % PAGE;
    var nseg := Segments(unaligned, size);
    var mptr := 0;
    if md.Some? {
      mptr := Phys(f, md.value);
      PhysError(f, md.value);
      if mptr == VTOPHYS_ERROR {
        return Rejected;
      }
    }
    var prp1, prp2 := phys, 0;
    if nseg == 2 {
      prp2 := Phys(f, payload + PAGE - unaligned);
    } else if nseg > 2 {
      prp2 := listAddr;
      var cur := 1;
      while cur < nseg
        invariant 1 <= cur <= nseg && cur <= MAX_PRP_LIST + 1
        invariant Translates(f, payload, cur)
        invariant forall k :: 1 <= k < cur ==> list[k - 1] == Phys(f, PageAt(payload, k))
      {
        var p := Phys(f, payload + cur * PAGE - unaligned);
        PhysError(f, PageAt(payload, cur));
        if p == VTOPHYS_ERROR {
          return Rejected;
        }
        if cur - 1 == MAX_PRP_LIST {
          return Overrun;
        }
        list[cur - 1] := p;
        cur := cur + 1;
      }
    }
    r := Command(prp1, prp2, mptr);
    ContigMeaning(f, payload, size, Pointer(prp1, prp2, listAddr, list[..]));
  }

  lemma PhysError(f: Frames, v: nat)
    requires FramesOk(f)
    ensures Phys(f, v) == VTOPHYS_ERROR <==> f(v / PAGE).None?
  {
    if f(v / PAGE).Some? {
      PhysPage(f, v, 0);
    }
  }

  lemma ContigMeaning(f: Frames, v: nat, size: nat, p: Pointer)
    requires FramesOk(f) && size > 0 && f(v / PAGE).Some?
    requires
      var n := Segments(v % PAGE, size);
      && p.prp1 == Phys(f, v)
      && (n == 2 ==> p.prp2 == Phys(f, PageAt(v, 1)))
      && (n > 2 ==>
        && Translates(f, v, n)
        && p.prp2 == p.listAddr
        && n - 1 <= |p.list|
        && forall k :: 1 <= k < n ==> p.list[k - 1] == Phys(f, PageAt(v, k)))
    ensures
      var n := Segments(v % PAGE, size);
      if Translates(f, v, n) then Decode(p, size) == Some(PhysBytes(f, v, size))
      else n == 2 && p.prp2 == VTOPHYS_ERROR && Decode(p, size) == None
  {
    var n := Segments(v % PAGE, size);
    SegmentsExact(v % PAGE, size);
    if Translates(f, v, n) {
      var pages := Pages(f, v, n);
      PagesAligned(f, v, n);
      PagesCover(f, v, size);
      assert n > 2 ==> p.list[..n - 1] == pages[1..];
      DescribedDecodes(p, pages, size);
    } else {
      assert PageAt(v, 0) == v;
      SecondPageError(f, v, size, p);
    }
  }

  /** The error value is no page address. */
  lemma SecondPageError(f: Frames, v: nat, size: nat, p: Pointer)
    requires FramesOk(f) && size > 0 && f(v / PAGE).Some? && Segments(v % PAGE, size) == 2
    requires p.prp1 == Phys(f, v) && p.prp2 == VTOPHYS_ERROR
    ensures Decode(p, size) == None
  {
    SegmentsExact(v % PAGE, size);
    PageCountRest(v % PAGE, size);
    PhysPage(f, v, 0);
    assert VTOPHYS_ERROR % PAGE != 0;
  }

  /** Two pages from page 5 on of which only the first translates: the command is
      built, and describes no payload. */
  lemma SecondPageFails(listAddr: nat, list: seq<nat>)
    ensures
      var f: Frames := v => if v == 5 then Some(7) else None;
      var v := 5 * PAGE;
      && FramesOk(f) && f(v / PAGE).Some?
      && Segments(v % PAGE, 2 * PAGE) == 2 && !Translates(f, v, 2)
      && Phys(f, PageAt(v, 1)) == VTOPHYS_ERROR
      && Decode(Pointer(Phys(f, v), Phys(f, PageAt(v, 1)), listAddr, list), 2 * PAGE) == None
  {
    var f: Frames := v => if v == 5 then Some(7) else None;
    var v := 5 * PAGE;
    assert PageAt(v, 1) / PAGE == 6 && f(6).None?;
    SecondPageError(f, v, 2 * PAGE, Pointer(Phys(f, v), VTOPHYS_ERROR, listAddr, list));
  }
}
