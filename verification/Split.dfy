/** Splitting an I/O into commands the controller takes
    (_nvme_ns_rw and _nvme_ns_split_request in lib/nvme/nvme_ns.c). */
module Split {
  import opened Common
  import opened Bits

  const U32: nat := 0x1_0000_0000
  const PRACT: nat := 0x2000_0000

  /** The limits of a namespace, in sectors; `stripe` is 0 when there is none. */
  datatype Namespace = Namespace(sectorSize: nat, mdSize: nat, maxIo: nat, stripe: nat, protection: bool, extended: bool)

  /** What all parts of one I/O share. */
  datatype Io = Io(ns: Namespace, flags: nat, hasMd: bool)

  /** A request as the splitter leaves it: a command for `blocks` sectors, or a
      parent of several. */
  datatype Node =
    | Command(id: nat, size: nat, offset: nat, mdOffset: nat, slba: nat, blocks: nat, cdw12: nat)
    | Parent(id: nat, size: nat, offset: nat, mdOffset: nat, children: seq<Node>)

  ghost predicate LimitsOk(ns: Namespace) {
    ns.maxIo > 0 && (ns.stripe == 0 || exists k: nat :: ns.stripe == Pow2(k))
  }

  /** Bytes a sector takes in the payload buffer. */
  function SectorBytes(io: Io): nat {
    io.ns.sectorSize
    + (if io.ns.protection && io.ns.extended && And(io.flags, PRACT) == 0 then io.ns.mdSize else 0)
  }

  function MdBytes(io: Io): nat {
    if io.hasMd then io.ns.mdSize else 0
  }

  // ------------------------------------------------------------ what is built

  /** The I/O does not stay inside one stripe. */
  predicate Spans(ns: Namespace, lba: nat, count: nat) {
    ns.stripe > 0 && lba % ns.stripe + count > ns.stripe
  }

  /** Where the splitter stands: next sector, sectors left, buffer offsets. */
  datatype Cursor = Cursor(lba: nat, left: nat, offset: nat, mdOffset: nat)

  /** Pieces of at most `step` sectors, cut at multiples of it when aligned. */
  datatype Cut = Cut(step: nat, aligned: bool)

  function CutOf(ns: Namespace, lba: nat, count: nat): Cut {
    if Spans(ns, lba, count) then Cut(ns.stripe, true) else Cut(ns.maxIo, false)
  }

  function Piece(cut: Cut, c: Cursor): (m: nat)
    requires cut.step > 0
    ensures c.left > 0 ==> m > 0
    ensures m <= c.left && m <= cut.step
  {
    Min(c.left, cut.step - (if cut.aligned then c.lba % cut.step else 0))
  }

  /** 32-bit buffer offset of the n-th item of b bytes, and moving on by m. */
  function ByteOffset(n: nat, b: nat): nat {
    n * b % U32
  }

  function MoveOn(offset: nat, m: nat, b: nat): nat {
    (offset + m * b) % U32
  }

  function Next(io: Io, c: Cursor, m: nat): Cursor
    requires m <= c.left
  {
    Cursor(c.lba + m, c.left - m, MoveOn(c.offset, m, SectorBytes(io)), MoveOn(c.mdOffset, m, MdBytes(io)))
  }

  /** The cursor after n pieces. */
  function After(io: Io, cut: Cut, c: Cursor, n: nat): (d: Cursor)
    requires cut.step > 0
    ensures d.lba + d.left == c.lba + c.left && d.lba >= c.lba
  {
    if n == 0 then c else
      var d := After(io, cut, c, n - 1);
      Next(io, d, Piece(cut, d))
  }

  /** Does the I/O fit in one command? */
  predicate Splits(ns: Namespace, lba: nat, count: nat) {
    Spans(ns, lba, count) || count > ns.maxIo
  }

  /** `node` is the request for sectors lba .. lba+count-1. */
  ghost predicate Exact(io: Io, node: Node, lba: nat, count: nat, offset: nat, mdOffset: nat)
    requires io.ns.maxIo > 0
    decreases node
  {
    && node.size == ByteOffset(count, SectorBytes(io))
    && node.offset == offset
    && (io.hasMd ==> node.mdOffset == mdOffset)
    && (node.Parent? <==> Splits(io.ns, lba, count))
    && match node
       case Command(_, _, _, _, slba, blocks, cdw12) =>
         slba == lba && blocks == count && cdw12 == Or((count + U32 - 1) % U32, io.flags)
       case Parent(_, _, _, _, children) =>
         var cut, c := CutOf(io.ns, lba, count), Cursor(lba, count, 0, 0);
         && After(io, cut, c, |children|).left == 0
         && forall i :: 0 <= i < |children| ==>
           var d := After(io, cut, c, i);
           d.left > 0 && Exact(io, children[i], d.lba, Piece(cut, d), d.offset, d.mdOffset)
  }

  // ------------------------------------------------------------------- tiling

  function Leaves(node: Node): (s: seq<Node>)
    decreases node
  {
    match node
    case Command(_, _, _, _, _, _, _) => [node]
    case Parent(_, _, _, _, children) => LeavesOf(children)
  }

  function LeavesOf(kids: seq<Node>): (s: seq<Node>)
    decreases kids
  {
    if kids == [] then [] else LeavesOf(kids[..|kids| - 1]) + Leaves(kids[|kids| - 1])
  }

  /** The commands cover [lba, lba + count) in order, without gap or overlap. */
  ghost predicate Tiles(leaves: seq<Node>, lba: nat, count: nat) {
    if leaves == [] then count == 0
    else
      && leaves[0].Command?
      && leaves[0].slba == lba
      && 0 < leaves[0].blocks <= count
      && Tiles(leaves[1..], lba + leaves[0].blocks, count - leaves[0].blocks)
  }

  lemma {:induction false} TilesConcat(a: seq<Node>, b: seq<Node>, lba: nat, m: nat, n: nat)
    requires Tiles(a, lba, m) && Tiles(b, lba + m, n)
    ensures Tiles(a + b, lba, m + n)
  {
    if a == [] {
      assert a + b == b;
    } else {
      TilesConcat(a[1..], b, lba + a[0].blocks, m - a[0].blocks, n);
      assert (a + b)[1..] == a[1..] + b;
    }
  }

  /** A command the controller takes: short enough, inside one stripe, with the
      length and flags in its fields and a payload of that many sectors. */
  ghost predicate LeafOk(io: Io, leaf: Node) {
    && leaf.Command?
    && 0 < leaf.blocks <= io.ns.maxIo
    && (io.ns.stripe > 0 ==> leaf.slba / io.ns.stripe == (leaf.slba + leaf.blocks - 1) / io.ns.stripe)
    && leaf.cdw12 == Or((leaf.blocks + U32 - 1) % U32, io.flags)
    && leaf.size == ByteOffset(leaf.blocks, SectorBytes(io))
  }

  lemma InOneStripe(s: nat, lba: nat, count: nat)
    requires s > 0 && count > 0
    ensures lba % s + count <= s <==> lba / s == (lba + count - 1) / s
  {
    var q, r := lba / s, lba % s;
    assert lba == q * s + r;
    var e := r + count - 1;
    if e < s {
      DivUnique(s, lba + count - 1, q, e);
    } else {
      DivAbove(s, lba + count - 1, q);
    }
  }

  lemma DivAbove(s: nat, x: nat, q: nat)
    requires s > 0 && x >= q * s + s
    ensures x / s > q
  {
  }

  /** A part of an I/O that stays inside a stripe stays inside it too. */
  lemma PartInside(s: nat, lba: nat, count: nat, lba': nat, m: nat)
    requires s > 0 && lba % s + count <= s && m > 0 && lba <= lba' && lba' + m <= lba + count
    ensures lba' % s + m <= s
  {
    DivUnique(s, lba', lba / s, lba % s + (lba' - lba));
  }

  predicate Within(node: Node, depth: nat)
    decreases node
  {
    node.Command? || (depth > 0 && forall i :: 0 <= i < |node.children| ==> Within(node.children[i], depth - 1))
  }

  lemma AfterNext(io: Io, cut: Cut, c: Cursor, n: nat)
    requires cut.step > 0
    ensures
      var d := After(io, cut, c, n);
      var d' := After(io, cut, c, n + 1);
      d' == Next(io, d, Piece(cut, d)) && d'.lba == d.lba + Piece(cut, d) && d'.left == d.left - Piece(cut, d)
  {
  }

  ghost predicate TilesBetween(kid: Node, start: nat, end: nat) {
    start <= end && Tiles(Leaves(kid), start, end - start)
  }

  lemma {:induction false} JoinTiles(kids: seq<Node>, starts: seq<nat>)
    requires |starts| == |kids| + 1
    requires forall i {:trigger kids[i]} :: 0 <= i < |kids| ==> TilesBetween(kids[i], starts[i], starts[i + 1])
    ensures starts[0] <= starts[|kids|] && Tiles(LeavesOf(kids), starts[0], starts[|kids|] - starts[0])
  {
    if kids != [] {
      var n := |kids| - 1;
      JoinTiles(kids[..n], starts[..n + 1]);
      hide Tiles, Leaves;
      assert TilesBetween(kids[n], starts[n], starts[n + 1]);
      TilesConcat(LeavesOf(kids[..n]), Leaves(kids[n]), starts[0], starts[n] - starts[0], starts[n + 1] - starts[n]);
    }
  }

  ghost function Starts(io: Io, cut: Cut, c: Cursor, n: nat): (s: seq<nat>)
    requires cut.step > 0
    ensures |s| == n + 1 && s[0] == c.lba
    ensures forall i :: 0 <= i <= n ==> s[i] == After(io, cut, c, i).lba
  {
    seq(n + 1, i requires 0 <= i => After(io, cut, c, i).lba)
  }

  ghost predicate TilesPiece(io: Io, cut: Cut, c: Cursor, i: nat, kid: Node)
    requires cut.step > 0
  {
    var d := After(io, cut, c, i);
    Tiles(Leaves(kid), d.lba, Piece(cut, d))
  }

  /** The children of a split tile what the cursor has passed. */
  lemma KidsTile(io: Io, cut: Cut, c: Cursor, kids: seq<Node>)
    requires cut.step > 0
    requires forall i :: 0 <= i < |kids| ==> TilesPiece(io, cut, c, i, kids[i])
    ensures Tiles(LeavesOf(kids), c.lba, After(io, cut, c, |kids|).lba - c.lba)
  {
    hide Tiles, Leaves, LeavesOf, After, Piece, Starts;
    var starts := Starts(io, cut, c, |kids|);
    forall i {:trigger kids[i]} | 0 <= i < |kids| ensures TilesBetween(kids[i], starts[i], starts[i + 1]) {
      AfterNext(io, cut, c, i);
      assert TilesPiece(io, cut, c, i, kids[i]);
    }
    JoinTiles(kids, starts);
  }

  lemma {:induction false} LeavesMember(kids: seq<Node>, l: Node)
    requires l in LeavesOf(kids)
    ensures exists i :: 0 <= i < |kids| && l in Leaves(kids[i])
  {
    var n := |kids| - 1;
    if l in Leaves(kids[n]) {
    } else {
      LeavesMember(kids[..n], l);
      var i :| 0 <= i < n && l in Leaves(kids[..n][i]);
      assert kids[i] == kids[..n][i];
    }
  }

  /** What holds of a request: its commands tile its sectors, each is one the
      controller takes, and there are at most `depth` levels of parents. */
  ghost predicate Good(io: Io, node: Node, lba: nat, count: nat, depth: nat) {
    && Tiles(Leaves(node), lba, count)
    && Within(node, depth)
    && forall l :: l in Leaves(node) ==> LeafOk(io, l)
  }

  lemma CommandGood(io: Io, node: Node, lba: nat, count: nat, offset: nat, mdOffset: nat)
    requires io.ns.maxIo > 0 && count > 0 && Exact(io, node, lba, count, offset, mdOffset)
    requires !Splits(io.ns, lba, count)
    ensures node.Command? && Good(io, node, lba, count, 0)
  {
    assert Tiles([], lba + count, 0);
    assert Leaves(node)[1..] == [];
    if io.ns.stripe > 0 {
      InOneStripe(io.ns.stripe, lba, count);
    }
  }

  ghost predicate GoodPiece(io: Io, cut: Cut, c: Cursor, i: nat, kid: Node, depth: nat)
    requires cut.step > 0
  {
    var d := After(io, cut, c, i);
    Good(io, kid, d.lba, Piece(cut, d), depth)
  }

  lemma KidsGood(io: Io, node: Node, lba: nat, count: nat, cut: Cut, depth: nat)
    requires node.Parent? && cut.step > 0
    requires After(io, cut, Cursor(lba, count, 0, 0), |node.children|).left == 0
    requires forall i :: 0 <= i < |node.children| ==>
      GoodPiece(io, cut, Cursor(lba, count, 0, 0), i, node.children[i], depth)
    ensures Good(io, node, lba, count, depth + 1)
  {
    var c := Cursor(lba, count, 0, 0);
    var kids := node.children;
    hide After, Piece, Tiles, LeafOk, LeavesOf;
    forall i | 0 <= i < |kids| ensures TilesPiece(io, cut, c, i, kids[i]) && Within(kids[i], depth) {
      assert GoodPiece(io, cut, c, i, kids[i], depth);
    }
    KidsTile(io, cut, c, kids);
    forall l | l in Leaves(node) ensures LeafOk(io, l) {
      LeavesMember(kids, l);
      var i :| 0 <= i < |kids| && l in Leaves(kids[i]);
      assert GoodPiece(io, cut, c, i, kids[i], depth);
    }
  }

  /** Inside one stripe, one level of splitting is enough. */
  lemma StripeGood(io: Io, node: Node, lba: nat, count: nat, offset: nat, mdOffset: nat)
    requires io.ns.maxIo > 0 && count > 0 && Exact(io, node, lba, count, offset, mdOffset)
    requires !Spans(io.ns, lba, count)
    ensures Good(io, node, lba, count, 1)
  {
    if !Splits(io.ns, lba, count) {
      CommandGood(io, node, lba, count, offset, mdOffset);
    } else {
      var cut, c := CutOf(io.ns, lba, count), Cursor(lba, count, 0, 0);
      forall i | 0 <= i < |node.children|
        ensures GoodPiece(io, cut, c, i, node.children[i], 0)
      {
        var d := After(io, cut, c, i);
        var m := Piece(cut, d);
        if io.ns.stripe > 0 {
          PartInside(io.ns.stripe, lba, count, d.lba, m);
        }
        CommandGood(io, node.children[i], d.lba, m, d.offset, d.mdOffset);
      }
      KidsGood(io, node, lba, count, cut, 0);
    }
  }

  /** Split tiling: the commands of an I/O cover exactly its sectors, in order,
      each within the limits, with at most two levels of parents. */
  lemma SplitTiles(io: Io, node: Node, lba: nat, count: nat, offset: nat, mdOffset: nat)
    requires io.ns.maxIo > 0 && count > 0 && Exact(io, node, lba, count, offset, mdOffset)
    ensures Good(io, node, lba, count, 2)
  {
    if !Spans(io.ns, lba, count) {
      StripeGood(io, node, lba, count, offset, mdOffset);
      WithinMore(node, 1);
    } else {
      var cut, c := CutOf(io.ns, lba, count), Cursor(lba, count, 0, 0);
      forall i | 0 <= i < |node.children|
        ensures GoodPiece(io, cut, c, i, node.children[i], 1)
      {
        var d := After(io, cut, c, i);
        StripeGood(io, node.children[i], d.lba, Piece(cut, d), d.offset, d.mdOffset);
      }
      KidsGood(io, node, lba, count, cut, 1);
    }
  }

  lemma {:induction false} WithinMore(node: Node, depth: nat)
    requires Within(node, depth)
    ensures Within(node, depth + 1)
    decreases node
  {
    if node.Parent? {
      forall i | 0 <= i < |node.children| ensures Within(node.children[i], depth) {
        WithinMore(node.children[i], depth - 1);
      }
    }
  }

  // ----------------------------------------------------------- buffer offsets

  /** The command transfers to the place its sectors have in an I/O that starts
      at `base`. */
  ghost predicate LeafRight(io: Io, l: Node, base: nat) {
    && l.Command?
    && l.slba >= base
    && l.offset == ByteOffset(l.slba - base, SectorBytes(io))
    && (io.hasMd ==> l.mdOffset == ByteOffset(l.slba - base, MdBytes(io)))
  }

  ghost predicate Right(io: Io, node: Node, base: nat) {
    forall l :: l in Leaves(node) ==> LeafRight(io, l, base)
  }

  lemma OffsetNext(n: nat, m: nat, b: nat)
    ensures MoveOn(ByteOffset(n, b), m, b) == ByteOffset(n + m, b)
    ensures ByteOffset(0, b) == 0
  {
    assert (n + m) * b == n * b + m * b;
    ModAdd(n * b, m * b);
  }

  lemma ModAdd(x: nat, y: nat)
    ensures (x % U32 + y) % U32 == (x + y) % U32
  {
  }

  lemma {:induction false} AfterOffset(io: Io, cut: Cut, lba: nat, count: nat, n: nat)
    requires cut.step > 0
    ensures
      var d := After(io, cut, Cursor(lba, count, 0, 0), n);
      && d.offset == ByteOffset(d.lba - lba, SectorBytes(io))
      && d.mdOffset == ByteOffset(d.lba - lba, MdBytes(io))
  {
    hide SectorBytes, MdBytes, Piece, ByteOffset, MoveOn;
    if n == 0 {
      OffsetNext(0, 0, SectorBytes(io));
      OffsetNext(0, 0, MdBytes(io));
    } else {
      AfterOffset(io, cut, lba, count, n - 1);
      var d := After(io, cut, Cursor(lba, count, 0, 0), n - 1);
      OffsetNext(d.lba - lba, Piece(cut, d), SectorBytes(io));
      OffsetNext(d.lba - lba, Piece(cut, d), MdBytes(io));
    }
  }

  lemma KidsRight(io: Io, node: Node, base: nat)
    requires node.Parent? && forall i :: 0 <= i < |node.children| ==> Right(io, node.children[i], base)
    ensures Right(io, node, base)
  {
    forall l | l in Leaves(node) ensures LeafRight(io, l, base) {
      LeavesMember(node.children, l);
    }
  }

  /** A command that is a piece of a split gets the right offsets. */
  lemma PieceRight(io: Io, cut: Cut, lba: nat, count: nat, i: nat, kid: Node)
    requires cut.step > 0 && io.ns.maxIo > 0
    requires
      var d := After(io, cut, Cursor(lba, count, 0, 0), i);
      Exact(io, kid, d.lba, Piece(cut, d), d.offset, d.mdOffset) && kid.Command?
    ensures Right(io, kid, lba)
  {
    AfterOffset(io, cut, lba, count, i);
  }

  /** Inside one stripe the offsets are right. */
  lemma StripeRight(io: Io, node: Node, lba: nat, count: nat)
    requires io.ns.maxIo > 0 && count > 0 && Exact(io, node, lba, count, 0, 0) && !Spans(io.ns, lba, count)
    ensures Right(io, node, lba)
  {
    if node.Parent? {
      var cut, c := CutOf(io.ns, lba, count), Cursor(lba, count, 0, 0);
      forall i | 0 <= i < |node.children| ensures Right(io, node.children[i], lba) {
        var d := After(io, cut, c, i);
        if io.ns.stripe > 0 {
          PartInside(io.ns.stripe, lba, count, d.lba, Piece(cut, d));
        }
        PieceRight(io, cut, lba, count, i, node.children[i]);
      }
      KidsRight(io, node, lba);
    }
  }

  /** Some stripe after the first is itself split.  The second is the longest. */
  predicate Nested(ns: Namespace, lba: nat, count: nat) {
    Spans(ns, lba, count) && Min(ns.stripe, count - (ns.stripe - lba % ns.stripe)) > ns.maxIo
  }

  lemma SecondPiece(io: Io, lba: nat, count: nat)
    requires Spans(io.ns, lba, count)
    ensures
      var cut, c := Cut(io.ns.stripe, true), Cursor(lba, count, 0, 0);
      var d := After(io, cut, c, 1);
      && d.lba == lba + (io.ns.stripe - lba % io.ns.stripe)
      && d.lba % io.ns.stripe == 0
      && d.left == count - (io.ns.stripe - lba % io.ns.stripe)
      && Piece(cut, d) == Min(io.ns.stripe, d.left)
  {
    var s := io.ns.stripe;
    var cut, c := Cut(s, true), Cursor(lba, count, 0, 0);
    assert After(io, cut, c, 0) == c;
    AfterNext(io, cut, c, 0);
    DivUnique(s, lba + (s - lba % s), lba / s + 1, 0);
  }

  lemma {:induction false} LaterPieces(io: Io, cut: Cut, c: Cursor, i: nat)
    requires cut.step > 0 && i >= 1
    ensures After(io, cut, c, i).left <= After(io, cut, c, 1).left
  {
    if i > 1 {
      LaterPieces(io, cut, c, i - 1);
      AfterNext(io, cut, c, i - 1);
    }
  }

  /** Without nesting every command transfers to its place in the buffers. */
  lemma UnnestedRight(io: Io, node: Node, lba: nat, count: nat)
    requires io.ns.maxIo > 0 && count > 0 && Exact(io, node, lba, count, 0, 0) && !Nested(io.ns, lba, count)
    ensures Right(io, node, lba)
  {
    if !Spans(io.ns, lba, count) {
      StripeRight(io, node, lba, count);
    } else {
      var cut, c := CutOf(io.ns, lba, count), Cursor(lba, count, 0, 0);
      forall i | 0 <= i < |node.children| ensures Right(io, node.children[i], lba) {
        var d := After(io, cut, c, i);
        if i == 0 {
          StripeRight(io, node.children[0], lba, Piece(cut, c));
        } else {
          SecondPiece(io, lba, count);
          LaterPieces(io, cut, c, i);
          PieceRight(io, cut, lba, count, i, node.children[i]);
        }
      }
      KidsRight(io, node, lba);
    }
  }

  lemma {:induction false} LeavesInclude(kids: seq<Node>, i: nat, l: Node)
    requires i < |kids| && l in Leaves(kids[i])
    ensures l in LeavesOf(kids)
  {
    var n := |kids| - 1;
    if i < n {
      LeavesInclude(kids[..n], i, l);
    }
  }

  /** The first command of a piece that was split again starts at offset 0 of
      the whole buffer, wherever the piece lies. */
  lemma NestedFirstLeaf(io: Io, node: Node, lba: nat, count: nat, offset: nat, mdOffset: nat)
    requires io.ns.maxIo > 0 && count > io.ns.maxIo && Exact(io, node, lba, count, offset, mdOffset)
    requires !Spans(io.ns, lba, count)
    ensures exists l :: l in Leaves(node) && l.Command? && l.slba == lba && l.offset == 0
  {
    var cut, c := CutOf(io.ns, lba, count), Cursor(lba, count, 0, 0);
    assert After(io, cut, c, 0) == c;
    assert node.children != [];
    if io.ns.stripe > 0 {
      PartInside(io.ns.stripe, lba, count, lba, Piece(cut, c));
    }
    var l := node.children[0];
    assert Leaves(l) == [l];
    LeavesInclude(node.children, 0, l);
  }

  /** The first command of the second stripe, when that is split again. */
  lemma SecondStripeLeaf(io: Io, node: Node, lba: nat, count: nat) returns (skip: nat, l: Node)
    requires io.ns.maxIo > 0 && Exact(io, node, lba, count, 0, 0) && Nested(io.ns, lba, count)
    ensures 0 < skip < count
    ensures l in Leaves(node) && l.Command? && l.slba == lba + skip && l.offset == 0
  {
    var cut, c := CutOf(io.ns, lba, count), Cursor(lba, count, 0, 0);
    SecondPiece(io, lba, count);
    assert After(io, cut, c, 0) == c;
    var d := After(io, cut, c, 1);
    assert d.left > 0 && Piece(cut, d) > io.ns.maxIo && !Spans(io.ns, d.lba, Piece(cut, d));
    hide After, Piece, SectorBytes, ByteOffset, Leaves, LeavesOf;
    skip := d.lba - lba;
    var kid := node.children[1];
    NestedFirstLeaf(io, kid, d.lba, Piece(cut, d), d.offset, d.mdOffset);
    l :| l in Leaves(kid) && l.Command? && l.slba == d.lba && l.offset == 0;
    ChildLeaf(node, 1, l);
  }

  lemma ChildLeaf(node: Node, i: nat, l: Node)
    requires node.Parent? && i < |node.children| && l in Leaves(node.children[i])
    ensures l in Leaves(node)
  {
    LeavesInclude(node.children, i, l);
  }

  /** Nesting puts a command's data in the wrong place. */
  lemma NestedWrong(io: Io, node: Node, lba: nat, count: nat)
    requires io.ns.maxIo > 0 && Exact(io, node, lba, count, 0, 0) && Nested(io.ns, lba, count)
    requires SectorBytes(io) > 0 && count * SectorBytes(io) < U32
    ensures !Right(io, node, lba)
  {
    hide Exact, SectorBytes, ByteOffset, Leaves, Nested;
    var skip, l := SecondStripeLeaf(io, node, lba, count);
    OffsetInRange(skip, count, SectorBytes(io));
    assert !LeafRight(io, l, lba);
  }

  lemma OffsetInRange(n: nat, count: nat, b: nat)
    requires 0 < n <= count && b > 0 && count * b < U32
    ensures ByteOffset(n, b) == n * b > 0
  {
    assert n * b <= count * b;
  }

  /** Exactly when no later stripe is split again do the buffer offsets follow
      the sectors; given no 32-bit overflow they then tile the payload. */
  lemma OffsetsExact(io: Io, node: Node, lba: nat, count: nat)
    requires io.ns.maxIo > 0 && count > 0 && Exact(io, node, lba, count, 0, 0)
    requires SectorBytes(io) > 0 && count * SectorBytes(io) < U32
    ensures Right(io, node, lba) <==> !Nested(io.ns, lba, count)
    ensures io.ns.stripe <= io.ns.maxIo ==> Right(io, node, lba)
  {
    if Nested(io.ns, lba, count) {
      NestedWrong(io, node, lba, count);
    } else {
      UnnestedRight(io, node, lba, count);
    }
  }

  /** Two stripes of 16 sectors in commands of 8: whatever exact request is built
      for them, some command has a wrong offset. */
  lemma NestedExample(node: Node)
    requires Exact(Io(Namespace(512, 0, 8, 16, false, false), 0, false), node, 0, 32, 0, 0)
    ensures !Right(Io(Namespace(512, 0, 8, 16, false, false), 0, false), node, 0)
  {
    var io := Io(Namespace(512, 0, 8, 16, false, false), 0, false);
    assert Nested(io.ns, 0, 32) && SectorBytes(io) == 512;
    hide Exact, Right, Nested, SectorBytes;
    OffsetsExact(io, node, 0, 32);
  }

  // ------------------------------------------------------------- command fields

  /** The command's number of logical blocks, bits 15:0 of cdw12, zero based. */
  function Nlb(cdw12: nat): nat {
    And(cdw12, 0xFFFF) + 1
  }

  /** The field says how many sectors were meant exactly for 1 to 65536 of them;
      0 sectors come out as 65536. */
  lemma NlbDecodes(count: nat, flags: nat)
    requires count < U32 && flags % 65536 == 0
    ensures
      var n := Nlb(Or((count + U32 - 1) % U32, flags));
      && (n == count <==> 0 < count <= 65536)
      && (count == 0 ==> n == 65536)
  {
    hide And, Or, Pow2;
    var v := (count + U32 - 1) % U32;
    Pow2Values();
    AndMask(Or(v, flags), 16);
    OrKeepsLow(v, flags, 16);
  }

  /** With flags that leave the field alone and a maximum that fits it, every
      command of an I/O asks for just its sectors. */
  lemma LeafDecodes(io: Io, leaf: Node)
    requires LeafOk(io, leaf) && io.flags % 65536 == 0 && io.ns.maxIo <= 65536
    ensures Nlb(leaf.cdw12) == leaf.blocks
  {
    hide And, Or, Pow2, ByteOffset, SectorBytes;
    NlbDecodes(leaf.blocks, io.flags);
  }

  // ------------------------------------------------------------ derived limits

  lemma Pow2Quotient(m: nat, n: nat)
    ensures Pow2(m) / Pow2(n) == if m >= n then Pow2(m - n) else 0
    ensures Pow2(m) % Pow2(n) == if m >= n then 0 else Pow2(m)
  {
    if m >= n {
      Pow2Add(m - n, n);
      hide Pow2;
      DivUnique(Pow2(n), Pow2(m), Pow2(m - n), 0);
    } else {
      Pow2Monotone(m, n);
      hide Pow2;
      DivUnique(Pow2(n), Pow2(m), 0, Pow2(m));
    }
  }

  /** nvme_ns_construct: a stripe of 2^a minimum pages of 2^b bytes, in 32 bits. */
  function StripeSize(a: nat, b: nat): (r: nat) {
    var x, y := Pow2(a), Pow2(b);
    x * y % U32
  }

  lemma StripeSizePow2(a: nat, b: nat)
    ensures StripeSize(a, b) == if a + b < 32 then Pow2(a + b) else 0
  {
    hide Pow2;
    Pow2Values();
    Pow2Add(a, b);
    Pow2Quotient(a + b, 32);
  }

  /** nvme_ns_identify_update: the limits that follow from the sector size, the
      largest transfer and the stripe size in bytes. */
  function Derived(sectorSize: nat, mdSize: nat, protection: bool, extended: bool, maxXfer: nat, stripeSize: nat): Namespace
    requires sectorSize > 0
  {
    Namespace(sectorSize, mdSize, maxXfer / sectorSize, stripeSize / sectorSize, protection, extended)
  }

  /** The derived limits are ones the splitter can work with exactly when a
      sector fits in a transfer.  A command's sectors then stay within the
      transfer size, and for sectors of 512 bytes or more and transfers of at
      most 506 pages its length fits the 16-bit field. */
  lemma DerivedLimits(lbads: nat, mdSize: nat, protection: bool, extended: bool, maxXfer: nat, striping: bool, a: nat, b: nat)
    ensures
      var ns := Derived(Pow2(lbads), mdSize, protection, extended, maxXfer, if striping then StripeSize(a, b) else 0);
      && (LimitsOk(ns) <==> Pow2(lbads) <= maxXfer)
      && (forall n: nat :: n <= ns.maxIo ==> n * ns.sectorSize <= maxXfer)
      && (lbads >= 9 && maxXfer <= 506 * 4096 ==> ns.maxIo <= 65536)
  {
    var s := Pow2(lbads);
    StripeSizePow2(a, b);
    Pow2Quotient(a + b, lbads);
    hide Pow2, StripeSize;
    if s > maxXfer {
      DivUnique(s, maxXfer, 0, maxXfer);
    } else {
      DivAbove(s, maxXfer, 0);
    }
    assert 0 / s == 0;
    SectorsFit(s, maxXfer);
    if lbads >= 9 {
      LargeSector(lbads, maxXfer);
    }
  }

  /** The payload of every command fits the transfer size exactly when that of
      the longest does: always with plain sectors, not always when metadata is
      interleaved, because the limit was derived from the sector size alone. */
  lemma TransferFits(io: Io, maxXfer: nat)
    requires io.ns.sectorSize > 0 && io.ns.maxIo == maxXfer / io.ns.sectorSize
    ensures (forall n: nat :: n <= io.ns.maxIo ==> n * SectorBytes(io) <= maxXfer)
       <==> io.ns.maxIo * SectorBytes(io) <= maxXfer
    ensures SectorBytes(io) == io.ns.sectorSize ==> io.ns.maxIo * SectorBytes(io) <= maxXfer
  {
    var b, k := SectorBytes(io), io.ns.maxIo;
    hide SectorBytes;
    SectorsFit(io.ns.sectorSize, maxXfer);
    forall n: nat | n <= k ensures n * b <= k * b {
    }
  }

  /** 512-byte sectors with 8 bytes of metadata each, 506 pages per transfer. */
  lemma InterleavedExceeds()
    ensures
      var io := Io(Derived(512, 8, true, true, 506 * 4096, 0), 0, false);
      io.ns.maxIo * SectorBytes(io) > 506 * 4096
  {
    var io := Io(Derived(512, 8, true, true, 506 * 4096, 0), 0, false);
    assert io.ns.maxIo == 4048 && SectorBytes(io) == 520;
  }

  lemma SectorsFit(s: nat, maxXfer: nat)
    requires s > 0
    ensures forall n: nat :: n <= maxXfer / s ==> n * s <= maxXfer
  {
    forall n: nat | n <= maxXfer / s ensures n * s <= maxXfer {
      assert n * s <= maxXfer / s * s;
    }
  }

  lemma LargeSector(lbads: nat, maxXfer: nat)
    requires lbads >= 9
    ensures maxXfer <= 506 * 4096 ==> maxXfer / Pow2(lbads) <= 65536
  {
    assert Pow2(9) == 2 * Pow2(8);
    Pow2Values();
    if lbads > 9 {
      Pow2Monotone(9, lbads);
    }
    SmallQuotient(maxXfer, Pow2(lbads));
  }

  lemma SmallQuotient(x: nat, p: nat)
    requires p >= 512
    ensures x <= 506 * 4096 ==> x / p <= 65536
  {
    assert x / p * p <= x;
  }
}
