/** Do the commands of an I/O fit the PRP list of a tracker?  The limit on
    sectors per command leaves interleaved metadata out. */
module Transfer {
  import opened Bits
  import Prp
  import opened Split

  /** List entries for `size` bytes that start `offset` into a page. */
  function Entries(offset: nat, size: nat): int {
    Prp.Segments(offset, size) - 1
  }

  /** The list of a tracker is long enough wherever the payload starts. */
  ghost predicate ListSuffices(size: nat) {
    forall offset: nat :: offset < Prp.PAGE ==> Entries(offset, size) <= Prp.MAX_PRP_LIST
  }

  lemma EntriesBound(size: nat)
    ensures ListSuffices(size) <==> size <= 506 * 4096 + 1
  {
    forall offset: nat | offset < Prp.PAGE
      ensures Entries(offset, size) <= Prp.MAX_PRP_LIST <==> offset + size <= 507 * 4096
    {
      Prp.SegmentsExact(offset, size);
    }
    var worst: nat := Prp.PAGE - 1;
    assert Entries(worst, size) <= Prp.MAX_PRP_LIST <==> worst + size <= 507 * 4096;
  }

  /** Limits as nvme_ns_identify_update derives them, for a transfer size within
      the 506 pages of a list, 512 bytes or more per sector and the 16-bit
      metadata size of the identify data. */
  ghost predicate FromIdentify(ns: Namespace) {
    && ns.sectorSize >= 512 && ns.mdSize < 65536
    && exists maxXfer: nat :: maxXfer <= Prp.MAX_XFER && ns.maxIo == Quotient(maxXfer, ns.sectorSize)
  }

  function Quotient(x: nat, s: nat): nat
    requires s > 0
  {
    x / s
  }

  lemma LeafSize(io: Io, leaf: Node)
    requires FromIdentify(io.ns) && LeafOk(io, leaf)
    ensures leaf.blocks * io.ns.sectorSize <= Prp.MAX_XFER
    ensures leaf.size == leaf.blocks * SectorBytes(io)
  {
    hide And, Or, Pow2;
    var maxXfer: nat :| maxXfer <= Prp.MAX_XFER && io.ns.maxIo == Quotient(maxXfer, io.ns.sectorSize);
    SectorsFit(io.ns.sectorSize, maxXfer);
    assert leaf.blocks * io.ns.sectorSize <= Prp.MAX_XFER;
    SizeBound(leaf.blocks, io.ns.sectorSize, SectorBytes(io) - io.ns.sectorSize);
    NoWrap(leaf.blocks, SectorBytes(io));
  }

  lemma NoWrap(n: nat, b: nat)
    requires n * b < U32
    ensures ByteOffset(n, b) == n * b
  {
  }

  lemma SizeBound(blocks: nat, sector: nat, md: nat)
    requires sector >= 512 && md < 65536 && blocks * sector <= Prp.MAX_XFER
    ensures blocks * (sector + md) < U32
  {
    assert blocks <= 4048;
    assert blocks * md <= 4048 * md;
    assert blocks * (sector + md) == blocks * sector + blocks * md;
  }

  /** For every command of every I/O: its list fits wherever the buffer starts
      exactly when its payload is at most one byte over 506 pages, which plain
      sectors guarantee. */
  lemma CommandsFit(io: Io, node: Node, lba: nat, count: nat, offset: nat, mdOffset: nat)
    requires FromIdentify(io.ns) && io.ns.maxIo > 0 && count > 0
    requires Exact(io, node, lba, count, offset, mdOffset)
    ensures forall l :: l in Leaves(node) ==>
              && l.Command?
              && (ListSuffices(l.size) <==> l.blocks * SectorBytes(io) <= 506 * 4096 + 1)
              && (SectorBytes(io) == io.ns.sectorSize ==> ListSuffices(l.size))
  {
    SplitTiles(io, node, lba, count, offset, mdOffset);
    hide And, Or, Pow2, Exact, ListSuffices, FromIdentify, SectorBytes;
    forall l | l in Leaves(node)
      ensures l.Command?
      ensures ListSuffices(l.size) <==> l.blocks * SectorBytes(io) <= 506 * 4096 + 1
      ensures SectorBytes(io) == io.ns.sectorSize ==> ListSuffices(l.size)
    {
      LeafSize(io, l);
      EntriesBound(l.size);
    }
  }

  /** 512-byte sectors with 8 interleaved bytes of metadata: a read of 4048
      sectors is one command, and needs 513 entries even for an aligned buffer. */
  lemma InterleavedOverruns()
    ensures
      var io := Io(Derived(512, 8, true, true, 506 * 4096, 0), 0, false);
      var leaf := Node.Command(0, 4048 * 520, 0, 0, 0, 4048, Or(4047, 0));
      && FromIdentify(io.ns) && io.ns.maxIo > 0
      && Exact(io, leaf, 0, 4048, 0, 0)
      && Entries(0, leaf.size) == 513
      && !ListSuffices(leaf.size)
  {
    var io := Io(Derived(512, 8, true, true, 506 * 4096, 0), 0, false);
    assert io.ns.maxIo == Quotient(506 * 4096, 512);
    hide Or, Pow2;
    assert io.ns.maxIo == 4048 && SectorBytes(io) == 520;
    assert 4048 * 520 % U32 == 4048 * 520;
    assert Prp.Segments(0, 4048 * 520) == 514;
    EntriesBound(4048 * 520);
  }
}
