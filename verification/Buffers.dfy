/** What the commands of an I/O mean in bytes: where they transfer to in the
    payload and metadata buffers, what their fields say, and that none crosses a
    stripe of the device.  Stated on the fields of namespace and commands. */
module Buffers {
  import opened Common
  import opened Bits
  import opened Split
  import opened ChildCounter
  import opened SplitBuild

  // ------------------------------------------------------------------ sizes

  lemma {:induction false} AndBit(v: nat, n: nat)
    ensures And(v, Pow2(n)) == 0 <==> v / Pow2(n) % 2 == 0
  {
    if n == 0 {
      AndOne(v);
    } else {
      var p := Pow2(n - 1);
      hide Pow2, And;
      AndBit(v / 2, n - 1);
      AndDouble(v, p);
      HalfDiv(v, p);
    }
  }

  lemma AndOne(v: nat)
    ensures And(v, 1) == v % 2
  {
    assert And(v / 2, 0) == 0;
  }

  lemma AndDouble(v: nat, p: nat)
    requires p > 0
    ensures And(v, 2 * p) == 2 * And(v / 2, p)
  {
    assert 2 * p / 2 == p && 2 * p % 2 == 0;
  }

  lemma HalfDiv(v: nat, p: nat)
    requires p > 0
    ensures v / (2 * p) == v / 2 / p
  {
    var q, r := v / 2 / p, v / 2 % p;
    assert v == q * (2 * p) + (2 * r + v % 2);
    DivUnique(2 * p, v, q, 2 * r + v % 2);
  }

  /** A sector takes its metadata along in the payload buffer exactly on an
      extended, protected format unless bit 29 of the flags has the controller
      insert and strip it. */
  lemma SectorInBuffer(io: Io)
    ensures SectorBytes(io) ==
            if io.ns.protection && io.ns.extended && io.flags / 0x2000_0000 % 2 == 0
            then io.ns.sectorSize + io.ns.mdSize else io.ns.sectorSize
  {
    hide And, Pow2;
    assert Pow2(29) == 0x2000_0000 by { Pow2At29(); }
    AndBit(io.flags, 29);
  }

  lemma Pow2At29()
    ensures Pow2(29) == 0x2000_0000
  {
    hide Pow2;
    Pow2Values();
    Pow2Add(16, 13);
    Pow2Add(8, 5);
    SmallPowers();
  }

  lemma SmallPowers()
    ensures Pow2(5) == 32
  {
    assert Pow2(1) == 2 && Pow2(2) == 4 && Pow2(3) == 8;
  }

  // ----------------------------------------------------------------- offsets

  lemma {:induction false} TilesInside(leaves: seq<Node>, lba: nat, count: nat, l: Node)
    requires Tiles(leaves, lba, count) && l in leaves
    ensures l.Command? && lba <= l.slba && l.slba + l.blocks <= lba + count
  {
    if l != leaves[0] {
      TilesInside(leaves[1..], lba + leaves[0].blocks, count - leaves[0].blocks, l);
    }
  }

  lemma {:induction false} TilesNext(leaves: seq<Node>, lba: nat, count: nat, i: nat)
    requires Tiles(leaves, lba, count) && i < |leaves|
    ensures leaves[i].Command?
    ensures i == 0 ==> leaves[i].slba == lba
    ensures i + 1 < |leaves| ==> leaves[i + 1].Command? && leaves[i + 1].slba == leaves[i].slba + leaves[i].blocks
    ensures i + 1 == |leaves| ==> leaves[i].slba + leaves[i].blocks == lba + count
  {
    if i > 0 {
      TilesNext(leaves[1..], lba + leaves[0].blocks, count - leaves[0].blocks, i - 1);
    }
  }

  lemma Unwrapped(n: nat, count: nat, b: nat)
    requires n <= count && count * b < 0x1_0000_0000
    ensures ByteOffset(n, b) == n * b
  {
    assert n * b <= count * b;
  }

  /** A command's place in the buffers of an I/O from sector `lba` on, with b
      bytes per sector in the payload buffer. */
  ghost predicate InPlace(io: Io, l: Node, lba: nat, count: nat, b: nat) {
    && l.Command? && lba <= l.slba && l.slba + l.blocks <= lba + count
    && (count * b < 0x1_0000_0000 ==> l.offset == (l.slba - lba) * b && l.size == l.blocks * b)
    && (io.hasMd && count * io.ns.mdSize < 0x1_0000_0000 ==> l.mdOffset == (l.slba - lba) * io.ns.mdSize)
  }

  /** Without nesting every command transfers to the bytes of its sectors, in the
      payload buffer and in a separate metadata buffer. */
  lemma LeafBuffers(io: Io, node: Node, lba: nat, count: nat, b: nat)
    requires io.ns.maxIo > 0 && count > 0 && Exact(io, node, lba, count, 0, 0) && !Nested(io.ns, lba, count)
    requires b == if io.ns.protection && io.ns.extended && io.flags / 0x2000_0000 % 2 == 0
                  then io.ns.sectorSize + io.ns.mdSize else io.ns.sectorSize
    ensures forall l :: l in Leaves(node) ==>
              && l.Command? && lba <= l.slba && l.slba + l.blocks <= lba + count
              && (count * b < 0x1_0000_0000 ==> l.offset == (l.slba - lba) * b && l.size == l.blocks * b)
              && (io.hasMd && count * io.ns.mdSize < 0x1_0000_0000 ==> l.mdOffset == (l.slba - lba) * io.ns.mdSize)
  {
    SectorInBuffer(io);
    SplitTiles(io, node, lba, count, 0, 0);
    UnnestedRight(io, node, lba, count);
    hide Exact, Nested, SectorBytes, ByteOffset, Tiles, Leaves, Or, And, Pow2, InPlace;
    forall l | l in Leaves(node) ensures InPlace(io, l, lba, count, b) {
      TilesInside(Leaves(node), lba, count, l);
      assert LeafOk(io, l) && LeafRight(io, l, lba);
      LeafInPlace(io, l, lba, count, b);
    }
    AllInPlace(io, Leaves(node), lba, count, b);
  }

  lemma LeafInPlace(io: Io, l: Node, lba: nat, count: nat, b: nat)
    requires l.Command? && lba <= l.slba && l.slba + l.blocks <= lba + count && b == SectorBytes(io)
    requires LeafOk(io, l) && LeafRight(io, l, lba)
    ensures InPlace(io, l, lba, count, b)
  {
    hide SectorBytes, ByteOffset, Or, And, Pow2;
    if count * b < 0x1_0000_0000 {
      Unwrapped(l.slba - lba, count, b);
      Unwrapped(l.blocks, count, b);
    }
    if count * io.ns.mdSize < 0x1_0000_0000 {
      Unwrapped(l.slba - lba, count, io.ns.mdSize);
    }
  }

  lemma AllInPlace(io: Io, leaves: seq<Node>, lba: nat, count: nat, b: nat)
    requires forall l :: l in leaves ==> InPlace(io, l, lba, count, b)
    ensures forall l :: l in leaves ==>
              && l.Command? && lba <= l.slba && l.slba + l.blocks <= lba + count
              && (count * b < 0x1_0000_0000 ==> l.offset == (l.slba - lba) * b && l.size == l.blocks * b)
              && (io.hasMd && count * io.ns.mdSize < 0x1_0000_0000 ==> l.mdOffset == (l.slba - lba) * io.ns.mdSize)
  {
  }

  lemma Adjoining(x: nat, y: nat, m: nat, b: nat)
    requires y == x + m
    ensures y * b == x * b + m * b
  {
  }

  /** So the commands tile both buffers: the first starts at 0, each starts where
      the one before it ends, and the last ends with the buffer. */
  lemma BuffersTiled(io: Io, node: Node, lba: nat, count: nat, b: nat, i: nat)
    requires io.ns.maxIo > 0 && count > 0 && Exact(io, node, lba, count, 0, 0) && !Nested(io.ns, lba, count)
    requires b == if io.ns.protection && io.ns.extended && io.flags / 0x2000_0000 % 2 == 0
                  then io.ns.sectorSize + io.ns.mdSize else io.ns.sectorSize
    requires i < |Leaves(node)|
    ensures count * b < 0x1_0000_0000 ==>
      var s := Leaves(node);
      && s[i].Command?
      && (i == 0 ==> s[i].offset == 0)
      && (i + 1 < |s| ==> s[i + 1].Command? && s[i + 1].offset == s[i].offset + s[i].size)
      && (i + 1 == |s| ==> s[i].offset + s[i].size == count * b)
    ensures io.hasMd && count * io.ns.mdSize < 0x1_0000_0000 ==>
      var s, m := Leaves(node), io.ns.mdSize;
      && s[i].Command?
      && (i == 0 ==> s[i].mdOffset == 0)
      && (i + 1 < |s| ==> s[i + 1].Command? && s[i + 1].mdOffset == s[i].mdOffset + s[i].blocks * m)
      && (i + 1 == |s| ==> s[i].mdOffset + s[i].blocks * m == count * m)
  {
    SplitTiles(io, node, lba, count, 0, 0);
    LeafBuffers(io, node, lba, count, b);
    hide Exact, Nested, Tiles, Leaves, LeafOk;
    var s, m := Leaves(node), io.ns.mdSize;
    TilesNext(s, lba, count, i);
    assert s[i] in s;
    if i + 1 < |s| {
      assert s[i + 1] in s;
      Adjoining(s[i].slba - lba, s[i + 1].slba - lba, s[i].blocks, b);
      Adjoining(s[i].slba - lba, s[i + 1].slba - lba, s[i].blocks, m);
    } else {
      Adjoining(s[i].slba - lba, count, s[i].blocks, b);
      Adjoining(s[i].slba - lba, count, s[i].blocks, m);
    }
  }

  // ---------------------------------------------------------- command fields

  /** Or-ing values without common bits adds them. */
  lemma {:induction false} OrDisjoint(v: nat, f: nat, n: nat)
    requires v < Pow2(n) && f % Pow2(n) == 0
    ensures Or(v, f) == v + f
  {
    if n > 0 {
      var p := Pow2(n - 1);
      hide Pow2;
      ModDouble(f, p);
      OrDisjoint(v / 2, f / 2, n - 1);
      OrEven(v, f);
    }
  }

  lemma OrEven(v: nat, f: nat)
    requires f % 2 == 0
    ensures Or(v, f) == 2 * Or(v / 2, f / 2) + v % 2
  {
  }

  /** The twelfth double word of a command: the flags the caller gave, and below
      them the number of sectors less one. */
  lemma CommandFields(io: Io, leaf: Node)
    requires LeafOk(io, leaf) && io.flags % 65536 == 0 && leaf.blocks <= 65536
    ensures leaf.cdw12 == io.flags + leaf.blocks - 1
  {
    hide Or, And, Pow2, ByteOffset, SectorBytes;
    Pow2Values();
    OrDisjoint(leaf.blocks - 1, io.flags, 16);
  }

  // ----------------------------------------------------------------- stripes

  lemma DivScaled(x: nat, r: nat, b: nat, t: nat)
    requires t > 0 && r < b
    ensures t * b > 0 && (x * b + r) / (t * b) == x / t
  {
    var q, m := x / t, x % t;
    assert x * b + r == q * (t * b) + (m * b + r) by {
      assert x == q * t + m;
      assert (q * t + m) * b == q * t * b + m * b;
      assert q * t * b == q * (t * b);
    }
    assert m * b + r < t * b by {
      assert m + 1 <= t;
      assert (m + 1) * b <= t * b;
    }
    DivUnique(t * b, x * b + r, q, m * b + r);
  }

  /** The limits nvme_ns_identify_update derives: sectors of 2^lbads bytes, as
      many per command as fit the largest transfer, and stripes of 2^(a+b) bytes
      where there are any that hold a sector. */
  lemma DerivedExactly(lbads: nat, mdSize: nat, protection: bool, extended: bool, maxXfer: nat, striping: bool, a: nat, b: nat)
    ensures
      var ns := Derived(Pow2(lbads), mdSize, protection, extended, maxXfer, if striping then StripeSize(a, b) else 0);
      && ns.sectorSize == Pow2(lbads) && ns.mdSize == mdSize && ns.protection == protection && ns.extended == extended
      && ns.maxIo * Pow2(lbads) <= maxXfer < (ns.maxIo + 1) * Pow2(lbads)
      && (if striping && lbads <= a + b < 32 then ns.stripe * Pow2(lbads) == Pow2(a + b) else ns.stripe == 0)
  {
    var s := Pow2(lbads);
    StripeSizePow2(a, b);
    Pow2Quotient(a + b, lbads);
    if lbads <= a + b {
      Pow2Add(a + b - lbads, lbads);
    }
    hide Pow2, StripeSize;
    QuotientBounds(maxXfer, s);
    assert 0 / s == 0;
  }

  lemma QuotientBounds(x: nat, s: nat)
    requires s > 0
    ensures x / s * s <= x < (x / s + 1) * s
  {
  }

  /** No command of an I/O with these limits crosses a multiple of the stripe size
      in bytes, whatever is lost of the request on the way. */
  lemma NoStripeCrossed(io: Io, node: Node, lba: nat, count: nat, offset: nat, mdOffset: nat,
                        lbads: nat, maxXfer: nat, a: nat, b: nat)
    requires io.ns == Derived(Pow2(lbads), io.ns.mdSize, io.ns.protection, io.ns.extended, maxXfer, StripeSize(a, b))
    requires io.ns.maxIo > 0 && count > 0 && Kept(io, node, lba, count, offset, mdOffset) && lbads <= a + b < 32
    ensures forall l :: l in Leaves(node) ==>
              && l.Command? && l.blocks > 0
              && l.slba * Pow2(lbads) / Pow2(a + b) == ((l.slba + l.blocks) * Pow2(lbads) - 1) / Pow2(a + b)
  {
    var s, t := Pow2(lbads), io.ns.stripe;
    DerivedExactly(lbads, io.ns.mdSize, io.ns.protection, io.ns.extended, maxXfer, true, a, b);
    KeptLeaves(io, node, lba, count, offset, mdOffset);
    hide Kept, Derived, StripeSize, Pow2, Leaves, ByteOffset, SectorBytes, Or;
    assert t > 0;
    forall l | l in Leaves(node)
      ensures l.Command? && l.blocks > 0 && l.slba * s / Pow2(a + b) == ((l.slba + l.blocks) * s - 1) / Pow2(a + b)
    {
      assert LeafOk(io, l);
      DivScaled(l.slba, 0, s, t);
      DivScaled(l.slba + l.blocks - 1, s - 1, s, t);
      Adjoining(l.slba + l.blocks - 1, l.slba + l.blocks, 1, s);
    }
  }

  // ------------------------------------------------------------ no split too many

  /** A command that could not have been longer: it has the largest size, or ends
      with a stripe or with the I/O. */
  predicate Full(ns: Namespace, l: Node, end: nat) {
    && l.Command?
    && (l.blocks == ns.maxIo || l.slba + l.blocks == end || (ns.stripe > 0 && (l.slba + l.blocks) % ns.stripe == 0))
  }

  lemma PieceEnds(cut: Cut, d: Cursor)
    requires cut.step > 0
    ensures
      var m := Piece(cut, d);
      m == d.left || (if cut.aligned then (d.lba + m) % cut.step == 0 else m == cut.step)
  {
    if cut.aligned && Piece(cut, d) != d.left {
      var q, r := d.lba / cut.step, d.lba % cut.step;
      assert d.lba + Piece(cut, d) == q * cut.step + cut.step;
      assert q * cut.step + cut.step == (q + 1) * cut.step;
      DivUnique(cut.step, d.lba + Piece(cut, d), q + 1, 0);
    }
  }

  lemma StripeFull(io: Io, node: Node, lba: nat, count: nat, offset: nat, mdOffset: nat, l: Node)
    requires io.ns.maxIo > 0 && count > 0 && Exact(io, node, lba, count, offset, mdOffset)
    requires !Spans(io.ns, lba, count) && l in Leaves(node)
    ensures Full(io.ns, l, lba + count)
  {
    hide Or, And, ByteOffset, SectorBytes;
    if Splits(io.ns, lba, count) {
      var cut, c := CutOf(io.ns, lba, count), Cursor(lba, count, 0, 0);
      LeavesMember(node.children, l);
      var i :| 0 <= i < |node.children| && l in Leaves(node.children[i]);
      var d := After(io, cut, c, i);
      PieceEnds(cut, d);
      KidInside(io, cut, lba, count, i);
      assert node.children[i].Command?;
    }
  }

  /** A piece of at most the largest size, inside a stripe, is not split again. */
  lemma KidInside(io: Io, cut: Cut, lba: nat, count: nat, i: nat)
    requires cut == Cut(io.ns.maxIo, false) && io.ns.maxIo > 0 && !Spans(io.ns, lba, count)
    ensures
      var d := After(io, cut, Cursor(lba, count, 0, 0), i);
      d.left > 0 ==> !Splits(io.ns, d.lba, Piece(cut, d))
  {
    var d := After(io, cut, Cursor(lba, count, 0, 0), i);
    if io.ns.stripe > 0 && d.left > 0 {
      PartInside(io.ns.stripe, lba, count, d.lba, Piece(cut, d));
    }
  }

  /** No command is shorter than the limits demand. */
  lemma CommandsFull(io: Io, node: Node, lba: nat, count: nat, offset: nat, mdOffset: nat)
    requires io.ns.maxIo > 0 && count > 0 && Exact(io, node, lba, count, offset, mdOffset)
    ensures forall l :: l in Leaves(node) ==>
              && l.Command?
              && (|| l.blocks == io.ns.maxIo
                  || l.slba + l.blocks == lba + count
                  || (io.ns.stripe > 0 && (l.slba + l.blocks) % io.ns.stripe == 0))
  {
    hide Or, And, ByteOffset, SectorBytes;
    forall l | l in Leaves(node) ensures Full(io.ns, l, lba + count) {
      if !Spans(io.ns, lba, count) {
        StripeFull(io, node, lba, count, offset, mdOffset, l);
      } else {
        SpanFull(io, node, lba, count, offset, mdOffset, l);
      }
    }
  }

  lemma PieceInStripe(ns: Namespace, d: Cursor)
    requires ns.stripe > 0
    ensures !Spans(ns, d.lba, Piece(Cut(ns.stripe, true), d))
  {
  }

  lemma SpanFull(io: Io, node: Node, lba: nat, count: nat, offset: nat, mdOffset: nat, l: Node)
    requires io.ns.maxIo > 0 && count > 0 && Exact(io, node, lba, count, offset, mdOffset)
    requires Spans(io.ns, lba, count) && l in Leaves(node)
    ensures Full(io.ns, l, lba + count)
  {
    hide Or, And, ByteOffset, SectorBytes;
    var cut, c := CutOf(io.ns, lba, count), Cursor(lba, count, 0, 0);
    LeavesMember(node.children, l);
    var i :| 0 <= i < |node.children| && l in Leaves(node.children[i]);
    var d := After(io, cut, c, i);
    PieceEnds(cut, d);
    PieceInStripe(io.ns, d);
    hide Piece, After, Spans, Leaves;
    StripeFull(io, node.children[i], d.lba, Piece(cut, d), d.offset, d.mdOffset, l);
  }

  // --------------------------------------------------------------- built I/Os

  /** All of it for the request _nvme_ns_rw builds of an I/O that is countable and
      not nested. */
  lemma RwBuffers(io: Io, lba: nat, count: nat, free: seq<nat>, r: Result, free': seq<nat>, b: nat)
    requires io.ns.maxIo > 0 && count > 0 && io.flags % 65536 == 0
    requires RwSpec(io, lba, count, free, r, free') && r.Built?
    requires b == if io.ns.protection && io.ns.extended && io.flags / 0x2000_0000 % 2 == 0
                  then io.ns.sectorSize + io.ns.mdSize else io.ns.sectorSize
    ensures io.ns.maxIo <= 65536 ==> forall l :: l in Leaves(r.node) ==> l.Command? && l.cdw12 == io.flags + l.blocks - 1
    ensures Countable(io.ns, lba, count) ==>
      forall l :: l in Leaves(r.node) ==>
        && l.Command?
        && (|| l.blocks == io.ns.maxIo
            || l.slba + l.blocks == lba + count
            || (io.ns.stripe > 0 && (l.slba + l.blocks) % io.ns.stripe == 0))
    ensures Countable(io.ns, lba, count) && !Nested(io.ns, lba, count) ==>
      forall l :: l in Leaves(r.node) ==>
        && l.Command? && lba <= l.slba && l.slba + l.blocks <= lba + count
        && (count * b < 0x1_0000_0000 ==> l.offset == (l.slba - lba) * b && l.size == l.blocks * b)
        && (io.hasMd && count * io.ns.mdSize < 0x1_0000_0000 ==> l.mdOffset == (l.slba - lba) * io.ns.mdSize)
  {
    hide Need, Spans, Exact, Kept, Or, And, Ids, Nested, Countable, Narrow, Flat, Latest, Leaves, SectorBytes, ByteOffset;
    KeptLeaves(io, r.node, lba, count, 0, 0);
    if io.ns.maxIo <= 65536 {
      forall l | l in Leaves(r.node) ensures l.Command? && l.cdw12 == io.flags + l.blocks - 1 {
        CommandFields(io, l);
      }
    }
    if Countable(io.ns, lba, count) {
      KeptExact(io, r.node, lba, count, 0, 0);
      CommandsFull(io, r.node, lba, count, 0, 0);
    }
    if Countable(io.ns, lba, count) && !Nested(io.ns, lba, count) {
      LeafBuffers(io, r.node, lba, count, b);
    }
  }
}
