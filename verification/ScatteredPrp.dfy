/** _nvme_qpair_build_prps_sgl_request: a scattered payload as a PRP list. */
module ScatteredPrp {
  import opened Common
  import opened Prp

  /** What the caller's next_sge callback delivers, in order; after the last
      segment it reports an error. */
  datatype Segment = Segment(addr: nat, len: nat)

  function Total(sges: seq<Segment>): nat {
    if sges == [] then 0 else Total(sges[..|sges| - 1]) + sges[|sges| - 1].len
  }

  /** The byte addresses of the segments, in order. */
  function Stream(sges: seq<Segment>): (s: seq<nat>)
    ensures |s| == Total(sges)
  {
    if sges == [] then [] else
      Stream(sges[..|sges| - 1]) + Bytes(sges[|sges| - 1].addr, sges[|sges| - 1].len)
  }

  ghost predicate NonEmpty(sges: seq<Segment>) {
    forall i :: 0 <= i < |sges| ==> sges[i].len > 0
  }

  /** What the builder checks on segment i when `left` bytes are still to be
      described. */
  predicate SegOk(sges: seq<Segment>, i: nat, left: nat)
    requires i < |sges|
  {
    && sges[i].addr % 4 == 0
    && (sges[i].len == left || (sges[i].addr + sges[i].len) % PAGE == 0)
    && (i != 0 ==> sges[i].addr % PAGE == 0)
  }

  /** The first i segments pass the checks and all of them are needed: dword
      aligned, starting on a page unless first, ending on one unless last. */
  ghost predicate Passes(sges: seq<Segment>, size: nat, i: nat) {
    && i <= |sges|
    && forall h :: 0 <= h < i ==> Total(sges[..h]) < size && SegOk(sges, h, size - Total(sges[..h]))
  }

  /** The first k segments are enough, and none of them is superfluous. */
  ghost predicate AcceptedWith(sges: seq<Segment>, size: nat, k: nat) {
    Passes(sges, size, k) && Total(sges[..k]) >= size
  }

  // -------------------------------------------------------------------- pages

  /** The pages of n bytes from addr on. */
  function RunPages(addr: nat, n: nat): (s: seq<nat>)
    ensures |s| == PageCount(addr % PAGE, n)
  {
    seq(PageCount(addr % PAGE, n), j requires 0 <= j => if j == 0 then addr else addr - addr % PAGE + j * PAGE)
  }

  lemma RunPagesAt(addr: nat, n: nat)
    ensures
      var s := RunPages(addr, n);
      forall j :: 0 <= j < |s| ==> s[j] == if j == 0 then addr else addr - addr % PAGE + j * PAGE
  {
  }

  /** Bytes of the first page that the transfer can use. */
  function Room(pages: seq<nat>): (k: nat)
    requires pages != []
    ensures 0 < k <= PAGE
  {
    PAGE - pages[0] % PAGE
  }

  lemma FirstFull(pages: seq<nat>, len: nat)
    requires pages != [] && len >= Room(pages)
    ensures PageBytes(pages, len) == Bytes(pages[0], Room(pages)) + PageBytes(pages[1..], len - Room(pages))
  {
  }

  lemma FirstOnly(pages: seq<nat>, len: nat)
    requires pages != [] && len <= Room(pages)
    ensures PageBytes(pages, len) == Bytes(pages[0], len)
  {
    assert PageBytes(pages[1..], 0) == [];
  }

  lemma RunHead(addr: nat, n: nat)
    requires n > 0
    ensures RunPages(addr, n) != [] && RunPages(addr, n)[0] == addr
  {
  }

  lemma {:induction false} RunCover(addr: nat, n: nat)
    requires n > 0
    ensures PageBytes(RunPages(addr, n), n) == Bytes(addr, n)
    decreases n
  {
    hide PageCount, RunPages, Bytes, PageBytes;
    var pages := RunPages(addr, n);
    RunHead(addr, n);
    if n <= Room(pages) {
      FirstOnly(pages, n);
    } else {
      var m := Room(pages);
      FirstFull(pages, n);
      RunCover(addr + m, n - m);
      RunRest(addr, n);
      BytesConcat(addr, m, n - m);
    }
  }

  lemma RunRest(addr: nat, n: nat)
    requires n > PAGE - addr % PAGE
    ensures
      var m := PAGE - addr % PAGE;
      RunPages(addr, n) != [] && RunPages(addr, n)[1..] == RunPages(addr + m, n - m)
  {
    var m := PAGE - addr % PAGE;
    PageCountRest(addr % PAGE, n);
    assert (addr + m) % PAGE == 0;
    RunPagesAt(addr, n);
    RunPagesAt(addr + m, n - m);
    hide PageCount, RunPages;
    var whole, rest := RunPages(addr, n)[1..], RunPages(addr + m, n - m);
    assert |whole| == |rest|;
    assert forall j :: 0 <= j < |rest| ==> whole[j] == rest[j];
  }

  lemma RoomAfter(a: seq<nat>, b: seq<nat>)
    requires PageList(a)
    ensures Room(a + b) == Room(a)
    ensures |a| > 1 ==> PageList(a[1..]) && Room(a[1..]) == PAGE
  {
  }

  lemma NoBytes(pages: seq<nat>)
    ensures PageBytes(pages, 0) == []
  {
  }

  lemma {:induction false} FullAppend(a: seq<nat>, b: seq<nat>, m: nat, n: nat)
    requires PageList(a) && m == Room(a) + (|a| - 1) * PAGE
    ensures PageBytes(a + b, m + n) == PageBytes(a, m) + PageBytes(b, n)
  {
    hide Bytes, PageBytes, Room;
    assert a != [] && (a + b)[0] == a[0] && (a + b)[1..] == a[1..] + b;
    RoomAfter(a, b);
    FirstFull(a, m);
    FirstFull(a + b, m + n);
    if |a| == 1 {
      assert a[1..] + b == b;
      FirstOnly(a, m);
      NoBytes(a[1..]);
    } else {
      FullAppend(a[1..], b, m - Room(a), n);
    }
  }

  /** Pages filled to the end can be followed by more. */
  lemma PageBytesAppend(a: seq<nat>, b: seq<nat>, m: nat, n: nat)
    requires PageList(a) && a[0] % PAGE + m == |a| * PAGE
    ensures PageBytes(a + b, m + n) == PageBytes(a, m) + PageBytes(b, n)
  {
    FullAppend(a, b, m, n);
  }

  lemma PageCountJoin(offset: nat, m: nat, n: nat)
    requires (offset + m) % PAGE == 0
    ensures PageCount(offset, m + n) == PageCount(offset, m) + PageCount(0, n)
    ensures PageCount(offset, m) * PAGE == offset + m
  {
  }

  /** The pages of the first segments of a transfer of `size` bytes. */
  ghost function SegPages(sges: seq<Segment>, size: nat): (s: seq<nat>)
    decreases |sges|
  {
    if sges == [] then []
    else
      var i := |sges| - 1;
      var before := Total(sges[..i]);
      SegPages(sges[..i], size)
      + (if before < size then RunPages(sges[i].addr, Min(size - before, sges[i].len)) else [])
  }

  lemma SegPagesNext(sges: seq<Segment>, size: nat, i: nat)
    requires i < |sges| && Total(sges[..i]) < size
    ensures
      && SegPages(sges[..i + 1], size)
         == SegPages(sges[..i], size) + RunPages(sges[i].addr, Min(size - Total(sges[..i]), sges[i].len))
      && Total(sges[..i + 1]) == Total(sges[..i]) + sges[i].len
      && Stream(sges[..i + 1]) == Stream(sges[..i]) + Bytes(sges[i].addr, sges[i].len)
  {
    assert sges[..i + 1][..i] == sges[..i];
  }

  /** The pages hold just the first bytes of a stream that is cut off at `size`,
      and are full unless that is where they end. */
  ghost predicate Covering(pages: seq<nat>, stream: seq<nat>, size: nat) {
    var c := Min(size, |stream|);
    && PageList(pages) && Fits(pages, c)
    && PageBytes(pages, c) == stream[..c]
    && (|stream| < size ==> pages[0] % PAGE + c == |pages| * PAGE)
  }

  ghost predicate Covers(sges: seq<Segment>, size: nat) {
    if SegPages(sges, size) == [] then Stream(sges) == [] else Covering(SegPages(sges, size), Stream(sges), size)
  }

  lemma RunPagesFull(addr: nat, n: nat)
    requires n > 0
    ensures PageList(RunPages(addr, n))
    ensures (addr + n) % PAGE == 0 ==> addr % PAGE + n == |RunPages(addr, n)| * PAGE
  {
  }

  lemma RunCovers(addr: nat, len: nat, size: nat)
    requires len > 0 && size > 0 && (len == size || (addr + len) % PAGE == 0)
    ensures Covering(RunPages(addr, Min(size, len)), Bytes(addr, len), size)
  {
    var c := Min(size, len);
    RunPagesFull(addr, c);
    RunCover(addr, c);
    BytesPrefix(addr, c, len);
    assert RunPages(addr, c)[0] == addr;
    hide PageCount, Bytes;
  }

  lemma JoinRun(pages: seq<nat>, c: nat, addr: nat, m: nat)
    requires PageList(pages) && Fits(pages, c) && pages[0] % PAGE + c == |pages| * PAGE
    requires m > 0 && addr % PAGE == 0
    ensures
      var all := pages + RunPages(addr, m);
      && PageList(all) && Fits(all, c + m)
      && PageBytes(all, c + m) == PageBytes(pages, c) + Bytes(addr, m)
      && ((addr + m) % PAGE == 0 ==> all[0] % PAGE + c + m == |all| * PAGE)
  {
    RunPagesFull(addr, m);
    RunCover(addr, m);
    PageBytesAppend(pages, RunPages(addr, m), c, m);
    PageCountJoin(pages[0] % PAGE, c, m);
    hide PageCount, PageBytes;
    assert (pages + RunPages(addr, m))[0] == pages[0];
  }

  lemma CutConcat(a: seq<nat>, b: seq<nat>, m: nat)
    requires m <= |b|
    ensures (a + b)[..|a| + m] == a + b[..m]
  {
  }

  lemma JoinCovers(pages: seq<nat>, stream: seq<nat>, size: nat, addr: nat, len: nat)
    requires Covering(pages, stream, size) && |stream| < size
    requires len > 0 && addr % PAGE == 0 && (len == size - |stream| || (addr + len) % PAGE == 0)
    ensures Covering(pages + RunPages(addr, Min(size - |stream|, len)), stream + Bytes(addr, len), size)
  {
    var c := |stream|;
    var m := Min(size - c, len);
    JoinRun(pages, c, addr, m);
    BytesPrefix(addr, m, len);
    hide PageList, Fits, PageBytes, RunPages, Bytes;
    assert stream[..c] == stream;
    CutConcat(stream, Bytes(addr, len), m);
  }

  /** An empty segment brings no page. */
  lemma EmptySegment(sges: seq<Segment>, size: nat, i: nat)
    requires i < |sges| && sges[i].len == 0 && Total(sges[..i]) < size && SegOk(sges, i, size - Total(sges[..i]))
    ensures SegPages(sges[..i + 1], size) == SegPages(sges[..i], size)
    ensures Stream(sges[..i + 1]) == Stream(sges[..i])
  {
    SegPagesNext(sges, size, i);
    assert RunPages(sges[i].addr, 0) == [];
    assert Bytes(sges[i].addr, 0) == [];
  }

  lemma CoversNext(sges: seq<Segment>, size: nat, i: nat)
    requires i < |sges| && Total(sges[..i]) < size
    requires SegOk(sges, i, size - Total(sges[..i])) && Covers(sges[..i], size)
    ensures Covers(sges[..i + 1], size)
  {
    hide Covering, SegPages, Stream, Total, RunPages, Bytes;
    if sges[i].len == 0 {
      EmptySegment(sges, size, i);
    } else {
      SegPagesNext(sges, size, i);
      if SegPages(sges[..i], size) == [] {
        assert |Stream(sges[..i])| == Total(sges[..i]) == 0;
        RunCovers(sges[i].addr, sges[i].len, size);
        assert SegPages(sges[..i + 1], size) == RunPages(sges[i].addr, Min(size, sges[i].len));
        assert Stream(sges[..i + 1]) == Bytes(sges[i].addr, sges[i].len);
      } else {
        PagesNeedSegments(sges[..i], size);
        JoinCovers(SegPages(sges[..i], size), Stream(sges[..i]), size, sges[i].addr, sges[i].len);
      }
      CoveringPages(SegPages(sges[..i + 1], size), Stream(sges[..i + 1]), size);
    }
  }

  lemma PagesNeedSegments(sges: seq<Segment>, size: nat)
    requires SegPages(sges, size) != []
    ensures sges != []
  {
  }

  lemma CoveringPages(pages: seq<nat>, stream: seq<nat>, size: nat)
    requires Covering(pages, stream, size)
    ensures pages != []
  {
  }

  lemma {:induction false} CoversAll(sges: seq<Segment>, size: nat, i: nat)
    requires Passes(sges, size, i)
    ensures Covers(sges[..i], size)
    decreases i
  {
    if i > 0 {
      CoversAll(sges, size, i - 1);
      CoversNext(sges, size, i - 1);
    }
  }

  lemma {:induction false} SegPagesPrefix(sges: seq<Segment>, size: nat, i: nat)
    requires i <= |sges|
    ensures SegPages(sges[..i], size) <= SegPages(sges, size)
    decreases |sges|
  {
    if i == |sges| {
      assert sges[..i] == sges;
    } else {
      var init := sges[..|sges| - 1];
      SegPagesPrefix(init, size, i);
      assert init[..i] == sges[..i];
    }
  }

  // ------------------------------------------------- what the builder makes of it

  /** Index of the segment with which the payload gets its second page, or the
      number of segments while it has none. */
  ghost function Cross(sges: seq<Segment>, size: nat): (c: nat)
    ensures c <= |sges|
  {
    if sges == [] then 0
    else if |SegPages(sges, size)| <= 1 then |sges|
    else Cross(sges[..|sges| - 1], size)
  }

  lemma {:induction false} CrossExact(sges: seq<Segment>, size: nat)
    requires |SegPages(sges, size)| >= 2
    ensures
      var c := Cross(sges, size);
      c < |sges| && |SegPages(sges[..c], size)| <= 1 && |SegPages(sges[..c + 1], size)| >= 2
  {
    var c := Cross(sges, size);
    var init := sges[..|sges| - 1];
    if |SegPages(init, size)| >= 2 {
      CrossExact(init, size);
      assert init[..c] == sges[..c] && init[..c + 1] == sges[..c + 1];
    } else {
      assert c == |init| && sges[..c] == init && sges[..c + 1] == sges;
    }
  }

  /** The page from which on the segments' pages are appended to the list.  It
      should be 1, or 2 with the second page put first. */
  ghost function Origin(sges: seq<Segment>, size: nat): (j: nat)
    ensures j <= 2
  {
    var c := Cross(sges, size);
    if |SegPages(sges, size)| < 2 then 0
    else
      CrossExact(sges, size);
      if |SegPages(sges[..c + 1], size)| == 2 then 2
      else if c == 0 then 1
      else |SegPages(sges[..c], size)|
  }

  /** The address kept as second page when a segment ended with it: of segment 0
      the second page, of segment 1 the first, of later ones none; and an empty
      segment 1 replaces it. */
  ghost function Second(sges: seq<Segment>, size: nat): nat {
    var c := Cross(sges, size);
    if Origin(sges, size) != 2 || c >= 2 then 0
    else if c == 1 && |sges| > 1 then sges[1].addr
    else if |sges| > 1 && sges[1].len == 0 then sges[1].addr
    else if |sges| > 0 then sges[0].addr - sges[0].addr % PAGE + PAGE
    else 0
  }

  /** Entries of the list that are written. */
  ghost function Needed(sges: seq<Segment>, size: nat): int {
    if |SegPages(sges, size)| <= 2 then 0
    else |SegPages(sges, size)| - Origin(sges, size) + (if Second(sges, size) != 0 then 1 else 0)
  }

  /** The pages are described as they are. */
  ghost predicate Sound(sges: seq<Segment>, size: nat) {
    var pages := SegPages(sges, size);
    && (|pages| == 2 ==> Second(sges, size) == pages[1])
    && (|pages| > 2 ==>
          if Origin(sges, size) == 2 then Second(sges, size) == pages[1] && pages[1] != 0
          else Origin(sges, size) == 1)
  }

  /** The second page is missing from the list, but all pages after the first
      are the same and so is what the list held before. */
  ghost predicate Repeats(sges: seq<Segment>, size: nat, was: seq<nat>) {
    var pages := SegPages(sges, size);
    && |pages| > 2
    && Origin(sges, size) == 2 && Second(sges, size) == 0
    && pages[1..|pages| - 1] == pages[2..]
    && |pages| - 2 < |was| && was[|pages| - 2] == pages[|pages| - 1]
  }

  /** The condition for what the list held before to make no difference. */
  lemma EveryContent(sges: seq<Segment>, size: nat)
    ensures (forall was: seq<nat> :: |was| == MAX_PRP_LIST ==> Sound(sges, size) || Repeats(sges, size, was))
       <==> Sound(sges, size)
  {
    var pages := SegPages(sges, size);
    if !Sound(sges, size) && |pages| > 2 {
      var was := seq(MAX_PRP_LIST, i => pages[|pages| - 1] + 1);
      assert !Repeats(sges, size, was);
    } else if !Sound(sges, size) {
      var was := seq(MAX_PRP_LIST, i => 0);
      assert !Repeats(sges, size, was);
    }
  }

  // ------------------------------------------------------- segments with contents

  /** A segment ended with the second page, and that page was page 0. */
  ghost predicate LostPage(sges: seq<Segment>, size: nat) {
    && |SegPages(sges, size)| > 2
    && SegPages(sges, size)[1] == 0
    && exists i :: 0 <= i <= |sges| && |SegPages(sges[..i], size)| == 2
  }

  lemma PrefixOfPrefix(sges: seq<Segment>, size: nat, i: nat, k: nat)
    requires i <= k <= |sges|
    ensures SegPages(sges[..i], size) <= SegPages(sges[..k], size)
  {
    assert sges[..k][..i] == sges[..i];
    SegPagesPrefix(sges[..k], size, i);
  }

  /** Crossing with two pages is having two pages at the end of some segment. */
  lemma OriginTwo(sges: seq<Segment>, size: nat)
    requires |SegPages(sges, size)| >= 2
    ensures Origin(sges, size) == 2 <==> exists i :: 0 <= i <= |sges| && |SegPages(sges[..i], size)| == 2
  {
    hide SegPages, Cross;
    CrossExact(sges, size);
    var c := Cross(sges, size);
    forall i | 0 <= i <= |sges| && |SegPages(sges[..i], size)| == 2 ensures |SegPages(sges[..c + 1], size)| == 2 {
      if i <= c {
        PrefixOfPrefix(sges, size, i, c);
      } else {
        PrefixOfPrefix(sges, size, c + 1, i);
      }
    }
  }

  lemma BroughtPages(sges: seq<Segment>, size: nat, i: nat)
    requires Passes(sges, size, |sges|) && i < |sges| && sges[i].len > 0
    ensures
      var before, all := SegPages(sges[..i], size), SegPages(sges[..i + 1], size);
      && |all| > |before|
      && all[|before|] == sges[i].addr
      && (|all| > |before| + 1 ==> all[|before| + 1] == sges[i].addr - sges[i].addr % PAGE + PAGE)
      && before <= all
  {
    SegPagesNext(sges, size, i);
    RunHead(sges[i].addr, Min(size - Total(sges[..i]), sges[i].len));
    RunPagesAt(sges[i].addr, Min(size - Total(sges[..i]), sges[i].len));
    hide SegPages, PageCount, RunPages;
  }

  /** Without empty segments the builder takes the right second page. */
  lemma PlainSecond(sges: seq<Segment>, size: nat)
    requires Passes(sges, size, |sges|) && NonEmpty(sges) && |SegPages(sges, size)| >= 2
    ensures Origin(sges, size) >= 1
    ensures Origin(sges, size) == 2 ==> Second(sges, size) == SegPages(sges, size)[1]
  {
    hide SegPages, Cross, Passes, Total;
    assert sges[..0] == [];
    NoSegments(size);
    CrossExact(sges, size);
    var c := Cross(sges, size);
    SegPagesPrefix(sges, size, c + 1);
    BroughtPages(sges, size, 0);
    if c > 0 {
      PrefixOfPrefix(sges, size, 1, c);
      BroughtPages(sges, size, 1);
      if c > 1 {
        PrefixOfPrefix(sges, size, 2, c);
      }
    }
  }

  /** Then the command describes the payload, unless page 0 was lost. */
  lemma PlainSound(sges: seq<Segment>, size: nat)
    requires Passes(sges, size, |sges|) && NonEmpty(sges)
    ensures Sound(sges, size) <==> !LostPage(sges, size)
  {
    hide SegPages, Second, Passes, NonEmpty, Origin;
    if |SegPages(sges, size)| >= 2 {
      PlainSecond(sges, size);
      OriginTwo(sges, size);
      if |SegPages(sges, size)| == 2 {
        assert sges[..|sges|] == sges;
      }
    }
  }

  /** Pages 1, 0 and 2, a segment each. */
  const ONE_ZERO_TWO: seq<Segment> := [Segment(PAGE, PAGE), Segment(0, PAGE), Segment(2 * PAGE, PAGE)]

  lemma OneZeroTwoPages()
    ensures
      var s, size := ONE_ZERO_TWO, 3 * PAGE;
      && Total(s[..0]) == 0 && Total(s[..1]) == PAGE && Total(s[..2]) == 2 * PAGE && Total(s[..3]) == 3 * PAGE
      && |SegPages(s[..2], size)| == 2
      && SegPages(s, size) == [PAGE, 0, 2 * PAGE]
  {
    hide SegPages, RunPages, PageCount, Stream, Total;
    var s, size := ONE_ZERO_TWO, 3 * PAGE;
    assert s[..3] == s && s[..0] == [];
    NoSegments(size);
    SegPagesNext(s, size, 0);
    SegPagesNext(s, size, 1);
    SegPagesNext(s, size, 2);
    OnePage(PAGE);
    OnePage(0);
    OnePage(2 * PAGE);
    assert [] + [PAGE] + [0] + [2 * PAGE] == [PAGE, 0, 2 * PAGE];
  }

  lemma NoSegments(size: nat)
    ensures SegPages([], size) == [] && Total([]) == 0
  {
  }

  lemma OnePage(addr: nat)
    requires addr % PAGE == 0
    ensures RunPages(addr, PAGE) == [addr]
  {
  }

  /** Page 0 is lost. */
  lemma LostPageExample(was: seq<nat>)
    ensures
      var s, size := ONE_ZERO_TWO, 3 * PAGE;
      && AcceptedWith(s, size, |s|) && NonEmpty(s)
      && LostPage(s, size) && !Sound(s, size) && !Repeats(s, size, was)
  {
    hide SegPages, Total, Second, Origin, Sound;
    var s, size := ONE_ZERO_TWO, 3 * PAGE;
    OneZeroTwoPages();
    assert s[..3] == s;
    PlainSound(s, size);
    assert SegPages(s, size)[1..2][0] == 0 && SegPages(s, size)[2..][0] == 2 * PAGE;
  }

  /** An empty segment before two pages: the second page is taken to be the
      first. */
  lemma EmptyFirstExample(was: seq<nat>)
    ensures
      var sges := [Segment(PAGE, 0), Segment(2 * PAGE, 2 * PAGE)];
      && AcceptedWith(sges, 2 * PAGE, 2)
      && SegPages(sges[..2], 2 * PAGE) == [2 * PAGE, 3 * PAGE]
      && Second(sges[..2], 2 * PAGE) == 2 * PAGE
      && !Sound(sges[..2], 2 * PAGE) && !Repeats(sges[..2], 2 * PAGE, was)
  {
    var sges, size := [Segment(PAGE, 0), Segment(2 * PAGE, 2 * PAGE)], 2 * PAGE;
    assert sges[..2] == sges && sges[..0] == [];
    assert SegPages([], size) == [];
    SegPagesNext(sges, size, 0);
    SegPagesNext(sges, size, 1);
    assert RunPages(PAGE, 0) == [] && RunPages(2 * PAGE, 2 * PAGE) == [2 * PAGE, 3 * PAGE];
    CrossExact(sges, size);
    assert |SegPages(sges[..1], size)| == 0;
  }

  // ------------------------------------------------------------------ builder

  /** The builder's variables: pages and segments so far, bytes left, the two
      command fields, the saved second page and the list position. */
  datatype Progress = Progress(total: nat, count: nat, left: nat, prp1: nat, prp2: nat, saved: nat, last: nat)

  /** Pages the segment brings. */
  function Brought(st: Progress, sge: Segment): nat {
    PageCount(sge.addr % PAGE, Min(st.left, sge.len))
  }

  /** How many pages a segment adds to the list: all, except that the very
      first page of the transfer goes to PRP1. */
  function Appended(st: Progress, sge: Segment): nat {
    var nseg := Brought(st, sge);
    if st.count == 0 && nseg > 0 then nseg - 1 else nseg
  }

  /** The variables after one more segment. */
  function Advance(st: Progress, sge: Segment, listAddr: nat): Progress {
    var total := st.total + Brought(st, sge);
    var prp2 :=
      if total > 2 then listAddr
      else if total < 2 || st.count >= 2 then st.prp2
      else if st.count == 0 then sge.addr + PAGE - sge.addr % PAGE
      else sge.addr;
    Progress(total, st.count + 1, st.left - Min(st.left, sge.len),
             if st.total == 0 then sge.addr else st.prp1,
             prp2,
             if total == 2 then prp2 else st.saved,
             if total > 2 then st.last + Appended(st, sge) else st.last)
  }

  /** List entries in use. */
  function Used(st: Progress): nat {
    st.last + (if st.saved != 0 then 1 else 0)
  }

  /** What the variables say about the segments so far. */
  ghost predicate Vars(st: Progress, listAddr: nat, sges: seq<Segment>, size: nat) {
    var pages := SegPages(sges, size);
    && st.count == |sges|
    && st.total == |pages|
    && (pages != [] ==> st.prp1 == pages[0])
    && (|pages| <= 1 ==> st.prp2 == st.saved == st.last == 0)
    && (|pages| == 2 ==> st.prp2 == st.saved == Second(sges, size) && Origin(sges, size) == 2 && st.last == 0)
    && (|pages| > 2 ==>
          && st.prp2 == listAddr
          && st.saved == Second(sges, size)
          && st.last == |pages| - Origin(sges, size))
  }

  /** The list holds the pages from j on, after the saved one if there is one,
      and beyond them what it held before. */
  ghost predicate Holds(list: seq<nat>, was: seq<nat>, pages: seq<nat>, j: nat, saved: nat, last: nat) {
    var o := if saved != 0 then 1 else 0;
    && |list| == |was| == MAX_PRP_LIST && last + o <= |list|
    && last + j == |pages|
    && (forall i :: o <= i < last + o ==> list[i] == pages[i - o + j])
    && (forall i :: last + o <= i < |list| ==> list[i] == was[i])
    && (o == 1 && last > 0 ==> list[0] == saved)
  }

  /** What the list holds, when it held `was` before. */
  ghost predicate Lists(st: Progress, list: seq<nat>, was: seq<nat>, sges: seq<Segment>, size: nat) {
    var pages := SegPages(sges, size);
    && |list| == |was| == MAX_PRP_LIST && Used(st) <= |list|
    && if |pages| <= 2 then list == was else Holds(list, was, pages, Origin(sges, size), st.saved, st.last)
  }

  lemma PagesNext(sges: seq<Segment>, g: Segment, size: nat)
    requires Total(sges) < size
    ensures SegPages(sges + [g], size) == SegPages(sges, size) + RunPages(g.addr, Min(size - Total(sges), g.len))
    ensures Total(sges + [g]) == Total(sges) + g.len
    ensures sges == [] ==> SegPages(sges, size) == []
  {
    assert (sges + [g])[..|sges|] == sges;
  }

  /** Crossing with the new segment. */
  lemma CrossedNow(sges: seq<Segment>, g: Segment, size: nat)
    requires Total(sges) < size && |SegPages(sges, size)| <= 1 && |SegPages(sges + [g], size)| >= 2
    ensures
      var all := sges + [g];
      && Cross(all, size) == |sges|
      && Origin(all, size) == (if |SegPages(all, size)| == 2 then 2 else if sges == [] then 1 else |SegPages(sges, size)|)
  {
    var all := sges + [g];
    assert all[..|sges|] == sges && all[..|sges| + 1] == all;
  }

  /** Crossing happened before. */
  lemma CrossedBefore(sges: seq<Segment>, g: Segment, size: nat)
    requires |SegPages(sges, size)| >= 2 && |SegPages(sges + [g], size)| >= 2
    ensures
      var all := sges + [g];
      && Cross(all, size) == Cross(sges, size) < |sges|
      && Origin(all, size) == Origin(sges, size)
      && (|sges| > 1 || g.len > 0 ==> Second(all, size) == Second(sges, size))
      && (|sges| == 1 && g.len == 0 && Origin(sges, size) == 2 ==> Second(all, size) == g.addr)
  {
    hide SegPages, Cross, Origin;
    CrossKept(sges, g, size);
    CrossExact(sges, size);
    OriginKept(sges, g, size);
  }

  lemma OriginKept(sges: seq<Segment>, g: Segment, size: nat)
    requires |SegPages(sges, size)| >= 2 && |SegPages(sges + [g], size)| >= 2
    requires Cross(sges + [g], size) == Cross(sges, size) < |sges|
    ensures Origin(sges + [g], size) == Origin(sges, size)
  {
    hide SegPages, Cross;
    var all, c := sges + [g], Cross(sges, size);
    assert all[..c] == sges[..c] && all[..c + 1] == sges[..c + 1];
  }

  lemma CrossKept(sges: seq<Segment>, g: Segment, size: nat)
    requires |SegPages(sges + [g], size)| >= 2
    ensures Cross(sges + [g], size) == Cross(sges, size)
  {
    assert (sges + [g])[..|sges|] == sges;
  }

  lemma {:induction false} VarsNext(st: Progress, listAddr: nat, sges: seq<Segment>, g: Segment, size: nat)
    requires Vars(st, listAddr, sges, size) && st.left == size - Total(sges) && st.left > 0
    requires (sges != [] ==> g.addr % PAGE == 0) && (g.len == st.left || (g.addr + g.len) % PAGE == 0)
    ensures Vars(Advance(st, g, listAddr), listAddr, sges + [g], size)
  {
    var pages, all := SegPages(sges, size), SegPages(sges + [g], size);
    PagesNext(sges, g, size);
    RunPagesAt(g.addr, Min(st.left, g.len));
    assert sges == [] ==> pages == [];
    EmptyBrings(st, g);
    hide SegPages, PageCount, Cross, RunPages, Total;
    if |all| >= 2 {
      if |pages| <= 1 {
        CrossedNow(sges, g, size);
      } else {
        CrossedBefore(sges, g, size);
        hide Origin, Second;
      }
    }
  }

  lemma EmptyBrings(st: Progress, g: Segment)
    requires st.left > 0 && (g.len == st.left || (g.addr + g.len) % PAGE == 0)
    ensures Brought(st, g) == 0 <==> g.len == 0
  {
  }

  /** The list after appending the n pages of `addr` from the c-th on, with the
      saved page put first. */
  ghost predicate Extended(list: seq<nat>, list': seq<nat>, saved: nat, last: nat, addr: nat, c: nat, n: nat) {
    var o := if saved != 0 then 1 else 0;
    && last + n + o <= |list| == |list'|
    && (forall i :: last + o <= i < last + n + o ==> list'[i] == addr - addr % PAGE + (i - last - o + c) * PAGE)
    && (forall i :: o <= i < last + o || last + n + o <= i < |list| ==> list'[i] == list[i])
    && (saved != 0 && |list| > 0 ==> list'[0] == if n > 0 then saved else list[0])
  }

  /** What one round of the loop does to the list. */
  ghost predicate ListUpdated(st: Progress, sge: Segment, list: seq<nat>, list': seq<nat>) {
    && |list'| == |list|
    && if st.total + Brought(st, sge) > 2 then
         Extended(list, list', st.saved, st.last, sge.addr, if st.count == 0 then 1 else 0, Appended(st, sge))
       else list' == list
  }

  lemma HoldsMore(list: seq<nat>, list': seq<nat>, was: seq<nat>, pages: seq<nat>, more: seq<nat>,
                  j: nat, saved: nat, last: nat, addr: nat)
    requires Holds(list, was, pages, j, saved, last) && addr % PAGE == 0
    requires forall i :: 0 <= i < |more| ==> more[i] == if i == 0 then addr else addr - addr % PAGE + i * PAGE
    requires Extended(list, list', saved, last, addr, 0, |more|)
    ensures Holds(list', was, pages + more, j, saved, last + |more|)
  {
  }

  lemma HoldsFirst(list': seq<nat>, was: seq<nat>, more: seq<nat>, addr: nat)
    requires more != [] && |was| == MAX_PRP_LIST
    requires forall i :: 0 <= i < |more| ==> more[i] == if i == 0 then addr else addr - addr % PAGE + i * PAGE
    requires Extended(was, list', 0, 0, addr, 1, |more| - 1)
    ensures Holds(list', was, more, 1, 0, |more| - 1)
  {
  }

  lemma ListsNext(st: Progress, listAddr: nat, list: seq<nat>, list': seq<nat>, was: seq<nat>,
                  sges: seq<Segment>, g: Segment, size: nat)
    requires Vars(st, listAddr, sges, size) && Lists(st, list, was, sges, size)
    requires Vars(Advance(st, g, listAddr), listAddr, sges + [g], size)
    requires Used(Advance(st, g, listAddr)) <= MAX_PRP_LIST
    requires st.left == size - Total(sges) && st.left > 0 && (sges != [] ==> g.addr % PAGE == 0)
    requires ListUpdated(st, g, list, list')
    ensures Lists(Advance(st, g, listAddr), list', was, sges + [g], size)
  {
    hide SegPages, PageCount, Cross, RunPages, Total, Holds, Extended, Origin, Second;
    var pages, all := SegPages(sges, size), SegPages(sges + [g], size);
    var more := RunPages(g.addr, Min(st.left, g.len));
    PagesNext(sges, g, size);
    RunPagesAt(g.addr, Min(st.left, g.len));
    if |all| > 2 {
      if sges == [] {
        CrossedNow(sges, g, size);
        assert pages + more == more;
        HoldsFirst(list', was, more, g.addr);
      } else if |pages| <= 2 {
        if |pages| <= 1 {
          CrossedNow(sges, g, size);
        } else {
          CrossedBefore(sges, g, size);
        }
        HoldsNothing(was, pages, st.saved);
        HoldsMore(list, list', was, pages, more, |pages|, st.saved, 0, g.addr);
      } else {
        CrossedBefore(sges, g, size);
        HoldsMore(list, list', was, pages, more, Origin(sges, size), st.saved, st.last, g.addr);
      }
    }
  }

  lemma HoldsNothing(was: seq<nat>, pages: seq<nat>, saved: nat)
    requires |was| == MAX_PRP_LIST
    ensures Holds(was, was, pages, |pages|, saved, 0)
  {
  }

  /** The inner loop, which appends the pages c .. nseg-1 of a segment; `ok` says
      that it stayed within the list. */
  method AppendPages(list: array<nat>, saved: nat, last: nat, addr: nat, c: nat, nseg: nat)
      returns (last': nat, ok: bool)
    requires list.Length == MAX_PRP_LIST && c <= nseg
    requires last + (if saved != 0 then 1 else 0) <= MAX_PRP_LIST
    modifies list
    ensures ok <==> last + nseg - c + (if saved != 0 then 1 else 0) <= MAX_PRP_LIST
    ensures ok ==> last' == last + nseg - c && Extended(old(list[..]), list[..], saved, last, addr, c, nseg - c)
  {
    last' := last;
    var cur := c;
    var unaligned := addr % PAGE;
    var o := if saved != 0 then 1 else 0;
    while cur < nseg
      invariant c <= cur <= nseg && last' == last + cur - c && last' + o <= MAX_PRP_LIST
      invariant forall i :: last + o <= i < last' + o ==> list[i] == addr - unaligned + (i - last - o + c) * PAGE
      invariant forall i :: o <= i < last + o || last' + o <= i < list.Length ==> list[i] == old(list[i])
      invariant saved != 0 ==> list[0] == if c < cur then saved else old(list[0])
    {
      if last' + o == MAX_PRP_LIST {
        return last', false;
      }
      if saved != 0 {
        list[0] := saved;
        list[last' + 1] := addr + cur * PAGE - unaligned;
      } else {
        list[last'] := addr + cur * PAGE - unaligned;
      }
      last', cur := last' + 1, cur + 1;
    }
    ok := true;
  }

  /** One round of the builder's loop for a segment that passed the checks. */
  method AddSegment(st: Progress, sge: Segment, list: array<nat>, listAddr: nat) returns (st': Progress, ok: bool)
    requires list.Length == MAX_PRP_LIST && st.left > 0 && Used(st) <= MAX_PRP_LIST
    requires st.count == 0 ==> st.total == 0
    modifies list
    ensures
      var next := Advance(st, sge, listAddr);
      ok <==> next.total > 2 ==> next.last + Used(st) - st.last <= MAX_PRP_LIST
    ensures ok ==> st' == Advance(st, sge, listAddr) && ListUpdated(st, sge, old(list[..]), list[..])
  {
    var data := Min(st.left, sge.len);
    var nseg := Segments(sge.addr % PAGE, data);
    SegmentsExact(sge.addr % PAGE, data);
    hide Segments, PageCount, Extended;
    var prp1 := if st.total == 0 then sge.addr else st.prp1;
    var total, count := st.total + nseg, st.count + 1;
    var prp2, saved, last := st.prp2, st.saved, st.last;
    ok := true;
    if total == 2 {
      if count == 1 {
        prp2 := sge.addr + PAGE - sge.addr % PAGE;
      } else if count == 2 {
        prp2 := sge.addr;
      }
      saved := prp2;
    } else if total > 2 {
      prp2 := listAddr;
      last, ok := AppendPages(list, saved, last, sge.addr, if count == 1 then 1 else 0, nseg);
    }
    st' := Progress(total, count, st.left - data, prp1, prp2, saved, last);
  }

  // ------------------------------------------------------------------ meaning

  /** Appending from the first page on happens after an empty first segment
      only, and then repeats that page. */
  lemma OriginZero(sges: seq<Segment>, size: nat)
    requires |SegPages(sges, size)| > 2 && Origin(sges, size) == 0
    ensures
      var c, pages := Cross(sges, size), SegPages(sges, size);
      0 < c < |sges| && pages[0] == sges[c].addr && pages[0] != pages[1]
  {
    var c := Cross(sges, size);
    CrossExact(sges, size);
    SegPagesPrefix(sges, size, c + 1);
    assert sges[..c + 1][..c] == sges[..c];
    RunPagesAt(sges[c].addr, Min(size - Total(sges[..c]), sges[c].len));
    hide PageCount, RunPages, Cross;
  }

  lemma KeptSecond(p: Pointer, was: seq<nat>, pages: seq<nat>, saved: nat)
    requires |pages| > 2 && saved != 0 && Holds(p.list, was, pages, 2, saved, |pages| - 2)
    ensures p.list[..|pages| - 1] == pages[1..] <==> saved == pages[1]
  {
    var a, b := p.list[..|pages| - 1], pages[1..];
    assert a[0] == saved && b[0] == pages[1];
    assert forall i :: 1 <= i < |pages| - 1 ==> a[i] == b[i];
  }

  lemma MissingSecond(list: seq<nat>, was: seq<nat>, pages: seq<nat>)
    requires |pages| > 2 && Holds(list, was, pages, 2, 0, |pages| - 2)
    ensures
      var n := |pages|;
      && n - 2 <= |list|
      && (n - 1 <= |list| ==>
            (list[..n - 1] == pages[1..] <==> pages[1..n - 1] == pages[2..] && was[n - 2] == pages[n - 1]))
  {
    var n := |pages|;
    if n - 1 <= |list| {
      assert list[..n - 1] == pages[2..] + [was[n - 2]];
      assert pages[1..] == pages[1..n - 1] + [pages[n - 1]];
      assert |pages[1..n - 1]| == |pages[2..]|;
      TwoParts(pages[2..], was[n - 2], pages[1..n - 1], pages[n - 1]);
    }
  }

  lemma TwoParts(a: seq<nat>, x: nat, b: seq<nat>, y: nat)
    requires |a| == |b|
    ensures a + [x] == b + [y] <==> a == b && x == y
  {
    var s, t := a + [x], b + [y];
    assert s[..|a|] == a && t[..|a|] == b && s[|a|] == x && t[|a|] == y;
  }

  lemma DescribedWhen(st: Progress, listAddr: nat, list: seq<nat>, was: seq<nat>, sges: seq<Segment>, size: nat)
    requires Vars(st, listAddr, sges, size) && Lists(st, list, was, sges, size) && SegPages(sges, size) != []
    ensures Describes(Pointer(st.prp1, st.prp2, listAddr, list), SegPages(sges, size))
       <==> Sound(sges, size) || Repeats(sges, size, was)
  {
    var pages, j := SegPages(sges, size), Origin(sges, size);
    var p := Pointer(st.prp1, st.prp2, listAddr, list);
    if |pages| > 2 {
      assert j != 2 ==> Second(sges, size) == 0;
      if j == 0 {
        OriginZero(sges, size);
        assert list[0] == pages[0];
      }
      hide SegPages, Origin, Second;
      if j == 1 {
        assert list[..|pages| - 1] == pages[1..];
      } else if j == 2 && st.saved != 0 {
        KeptSecond(p, was, pages, st.saved);
      } else if j == 2 {
        MissingSecond(list, was, pages);
      }
    }
  }

  /** The finished command decodes to the payload exactly when the segments are
      described as they are. */
  lemma Meaning(sges: seq<Segment>, size: nat, st: Progress, list: seq<nat>, was: seq<nat>, listAddr: nat)
    requires size > 0 && Total(sges) >= size && Covers(sges, size)
    requires Vars(st, listAddr, sges, size) && Lists(st, list, was, sges, size)
    ensures Decode(Pointer(st.prp1, st.prp2, listAddr, list), size) == Some(Stream(sges)[..size])
       <==> Sound(sges, size) || Repeats(sges, size, was)
  {
    assert SegPages(sges, size) != [];
    DescribedWhen(st, listAddr, list, was, sges, size);
    hide SegPages, Stream, Lists, Sound, Repeats, Decode, PageBytes, Describes, PageCount;
    DecodesExactly(Pointer(st.prp1, st.prp2, listAddr, list), SegPages(sges, size), size);
  }

  /** Within the transfer size the list is long enough. */
  lemma ListLongEnough(sges: seq<Segment>, size: nat, i: nat)
    requires Passes(sges, size, i) && size <= MAX_XFER
    ensures Needed(sges[..i], size) <= MAX_PRP_LIST
  {
    var pages := SegPages(sges[..i], size);
    if |pages| > 2 {
      CoversAll(sges, size, i);
      assert Fits(pages, Min(size, |Stream(sges[..i])|));
      if Origin(sges[..i], size) == 0 {
        OriginZero(sges[..i], size);
        assert SegOk(sges, Cross(sges[..i], size), size - Total(sges[..Cross(sges[..i], size)]));
      }
      hide SegPages, Stream, Cross;
      PageCountLimit(pages[0] % PAGE, Min(size, |Stream(sges[..i])|));
    }
  }

  lemma PageCountLimit(offset: nat, n: nat)
    requires offset < PAGE && n <= MAX_XFER
    ensures PageCount(offset, n) <= MAX_PRP_LIST + (if offset == 0 then 0 else 1)
  {
  }

  /** The variables and the list agree with the segments consumed so far, which
      passed the checks and did not overrun the list. */
  ghost predicate InStep(sges: seq<Segment>, size: nat, st: Progress, list: seq<nat>, was: seq<nat>, listAddr: nat) {
    && Passes(sges, size, st.count)
    && st.left == size - Min(size, Total(sges[..st.count]))
    && Vars(st, listAddr, sges[..st.count], size)
    && Lists(st, list, was, sges[..st.count], size)
    && forall i :: 0 <= i <= st.count ==> Needed(sges[..i], size) <= MAX_PRP_LIST
  }

  lemma InStepFirst(sges: seq<Segment>, size: nat, st: Progress, was: seq<nat>, listAddr: nat)
    requires st == Progress(0, 0, size, 0, 0, 0, 0) && |was| == MAX_PRP_LIST
    ensures InStep(sges, size, st, was, was, listAddr)
  {
    assert sges[..0] == [];
  }

  /** What the loop needs to know. */
  lemma InStepUse(sges: seq<Segment>, size: nat, st: Progress, list: seq<nat>, was: seq<nat>, listAddr: nat)
    requires InStep(sges, size, st, list, was, listAddr)
    ensures st.count <= |sges| && Used(st) <= MAX_PRP_LIST && (st.count == 0 ==> st.total == 0)
  {
    assert sges[..0] == [];
  }

  lemma PassesNext(sges: seq<Segment>, size: nat, st: Progress)
    requires st.count < |sges| && Passes(sges, size, st.count) && st.left > 0
    requires st.left == size - Min(size, Total(sges[..st.count])) && SegOk(sges, st.count, st.left)
    ensures Passes(sges, size, st.count + 1)
    ensures sges[..st.count + 1] == sges[..st.count] + [sges[st.count]]
    ensures Total(sges[..st.count + 1]) == Total(sges[..st.count]) + sges[st.count].len
  {
    hide SegPages, Stream, Total, SegOk;
    SegPagesNext(sges, size, st.count);
  }

  /** Entries in use are entries needed, before and after the segment. */
  lemma NeededIsUsed(st: Progress, listAddr: nat, sges: seq<Segment>, size: nat)
    requires Vars(st, listAddr, sges, size)
    ensures Needed(sges, size) == if st.total > 2 then Used(st) else 0
    ensures st.total <= 2 ==> Used(st) <= 1
  {
    hide SegPages, Origin, Second;
  }

  lemma InStepNext(sges: seq<Segment>, size: nat, st: Progress, list: seq<nat>, list': seq<nat>, was: seq<nat>, listAddr: nat)
    requires InStep(sges, size, st, list, was, listAddr) && st.left > 0
    requires st.count < |sges| && SegOk(sges, st.count, st.left)
    ensures
      var next := Advance(st, sges[st.count], listAddr);
      && Passes(sges, size, st.count + 1) && next.count == st.count + 1
      && Needed(sges[..st.count + 1], size)
         == (if next.total > 2 then next.last + Used(st) - st.last else 0)
      && ((next.total > 2 ==> next.last + Used(st) - st.last <= MAX_PRP_LIST) && ListUpdated(st, sges[st.count], list, list')
          ==> InStep(sges, size, next, list', was, listAddr))
  {
    hide SegPages, Total, Vars, Lists, ListUpdated, Needed, Advance, Passes;
    var i := st.count;
    var next := Advance(st, sges[i], listAddr);
    PassesNext(sges, size, st);
    AdvanceSimple(st, sges[i], listAddr);
    VarsNext(st, listAddr, sges[..i], sges[i], size);
    NeededIsUsed(next, listAddr, sges[..i + 1], size);
    if (next.total > 2 ==> Used(next) <= MAX_PRP_LIST) && ListUpdated(st, sges[i], list, list') {
      ListsNext(st, listAddr, list, list', was, sges[..i], sges[i], size);
    }
  }

  lemma AdvanceSimple(st: Progress, sge: Segment, listAddr: nat)
    ensures
      var next := Advance(st, sge, listAddr);
      && next.count == st.count + 1 && next.left == st.left - Min(st.left, sge.len)
      && (next.total > 2 ==> next.saved == st.saved)
  {
    hide PageCount;
  }

  /** Where the loop ends, no more segments pass. */
  lemma PassesBound(sges: seq<Segment>, size: nat, st: Progress)
    requires Passes(sges, size, st.count) && st.left == size - Min(size, Total(sges[..st.count]))
    requires st.left == 0 || st.count == |sges| || !SegOk(sges, st.count, st.left)
    ensures forall i: nat :: Passes(sges, size, i) ==> i <= st.count
    ensures forall k: nat :: AcceptedWith(sges, size, k) <==> st.left == 0 && k == st.count
  {
  }

  /** _nvme_qpair_build_prps_sgl_request.  The store past the list happens exactly
      when a prefix of checked segments needs more than 506 entries; otherwise
      exactly the segments that section 4.3 can describe are accepted, and the
      command decodes to the first `size` bytes of the stream exactly under the
      condition above. */
  method BuildScattered(sges: seq<Segment>, size: nat, list: array<nat>, listAddr: nat) returns (r: Built)
    requires list.Length == MAX_PRP_LIST
    modifies list
    ensures r.Overrun? <==> exists i: nat :: Passes(sges, size, i) && Needed(sges[..i], size) > MAX_PRP_LIST
    ensures r.Overrun? ==> size > MAX_XFER
    ensures r.Command? <==> !r.Overrun? && exists k: nat :: AcceptedWith(sges, size, k)
    ensures forall k: nat :: size > 0 && r.Command? && AcceptedWith(sges, size, k) ==>
              (Decode(Pointer(r.prp1, r.prp2, listAddr, list[..]), size) == Some(Stream(sges[..k])[..size])
               <==> Sound(sges[..k], size) || Repeats(sges[..k], size, old(list[..])))
  {
    hide Vars, Lists, SegPages, ListUpdated, Sound, Repeats, Needed, Advance, Total, Passes, AcceptedWith, Decode, Stream;
    var st := Progress(0, 0, size, 0, 0, 0, 0);
    ghost var was := list[..];
    InStepFirst(sges, size, st, was, listAddr);
    while st.left > 0
      invariant InStep(sges, size, st, list[..], was, listAddr)
      decreases |sges| - st.count
    {
      InStepUse(sges, size, st, list[..], was, listAddr);
      if st.count == |sges| {
        PassesBound(sges, size, st);
        return Rejected;
      }
      var sge := sges[st.count];
      if sge.addr % 4 != 0
        || (sge.len != st.left && (sge.addr + sge.len) % PAGE != 0)
        || (st.count != 0 && sge.addr % PAGE != 0)
      {
        PassesBound(sges, size, st);
        return Rejected;
      }
      ghost var before, cur := list[..], st;
      var ok;
      st, ok := AddSegment(st, sge, list, listAddr);
      InStepNext(sges, size, cur, before, list[..], was, listAddr);
      if !ok {
        if size <= MAX_XFER {
          ListLongEnough(sges, size, cur.count + 1);
        }
        return Overrun;
      }
    }
    InStepUse(sges, size, st, list[..], was, listAddr);
    PassesBound(sges, size, st);
    assert AcceptedWith(sges, size, st.count);
    CoversAll(sges, size, st.count);
    if size > 0 {
      Meaning(sges[..st.count], size, st, list[..], was, listAddr);
    }
    r := Command(st.prp1, st.prp2, 0);
  }
}
