/** The 8-bit counter of a parent's children (child_reqs) in _nvme_ns_split_request:
    which pieces of a split are left in the list when it wraps, and exactly which
    I/Os are split without that. */
module ChildCounter {
  import opened Common
  import opened Bits
  import opened Split

  /** A split has at most one level of parents. */
  predicate Flat(ns: Namespace, lba: nat, count: nat) {
    !Spans(ns, lba, count) || ns.stripe <= ns.maxIo
  }

  /** Every piece of a split stays inside one stripe and is shorter than the I/O. */
  lemma PieceInside(io: Io, lba: nat, count: nat, n: nat)
    requires io.ns.maxIo > 0 && Splits(io.ns, lba, count)
    ensures
      var cut := CutOf(io.ns, lba, count);
      var d := After(io, cut, Cursor(lba, count, 0, 0), n);
      && Piece(cut, d) < count
      && (d.left > 0 ==> !Spans(io.ns, d.lba, Piece(cut, d)))
  {
    var cut := CutOf(io.ns, lba, count);
    var d := After(io, cut, Cursor(lba, count, 0, 0), n);
    if !Spans(io.ns, lba, count) && io.ns.stripe > 0 && d.left > 0 {
      PartInside(io.ns.stripe, lba, count, d.lba, Piece(cut, d));
    }
  }

  predicate OnCut(cut: Cut, lba: nat)
    requires cut.step > 0
  {
    cut.aligned ==> lba % cut.step == 0
  }

  /** From a sector on a cut, a piece has the full length unless it is the last. */
  lemma PieceOnCut(cut: Cut, d: Cursor)
    requires cut.step > 0 && OnCut(cut, d.lba)
    ensures Piece(cut, d) == Min(d.left, cut.step) && OnCut(cut, d.lba + cut.step)
  {
    DivUnique(cut.step, d.lba + cut.step, d.lba / cut.step + 1, d.lba % cut.step);
  }

  /** Sectors in n full pieces. */
  function Full(cut: Cut, n: nat): nat {
    n * cut.step
  }

  lemma FullNext(cut: Cut, n: nat)
    ensures Full(cut, n + 1) == Full(cut, n) + cut.step
  {
  }

  lemma AfterNone(io: Io, cut: Cut, c: Cursor)
    requires cut.step > 0
    ensures After(io, cut, c, 0) == c && Full(cut, 0) == 0
  {
  }

  lemma {:induction false} Progress(io: Io, cut: Cut, c: Cursor, n: nat)
    requires cut.step > 0 && OnCut(cut, c.lba)
    ensures
      var d := After(io, cut, c, n);
      d.left == 0 || (d.left + Full(cut, n) == c.left && OnCut(cut, d.lba))
  {
    hide *;
    if n == 0 {
      AfterNone(io, cut, c);
    } else {
      Progress(io, cut, c, n - 1);
      AfterNext(io, cut, c, n - 1);
      FullNext(cut, n - 1);
      var d := After(io, cut, c, n - 1);
      if d.left > 0 {
        PieceOnCut(cut, d);
        MinIs(d.left, cut.step);
      }
    }
  }

  lemma MinIs(a: nat, b: nat)
    ensures Min(a, b) == if a < b then a else b
  {
  }

  lemma {:induction false} AfterPlus(io: Io, cut: Cut, c: Cursor, j: nat, i: nat)
    requires cut.step > 0
    ensures After(io, cut, c, j + i) == After(io, cut, After(io, cut, c, j), i)
  {
    hide Piece, Next;
    if i > 0 {
      AfterPlus(io, cut, c, j, i - 1);
    }
  }

  // --------------------------------------------------------------- how many pieces

  /** Pieces from a sector on. */
  function Pieces(cut: Cut, lba: nat, left: nat): nat
    requires cut.step > 0
    decreases left
  {
    if left == 0 then 0 else
      var m := Piece(cut, Cursor(lba, left, 0, 0));
      1 + Pieces(cut, lba + m, left - m)
  }

  /** Sectors of the first step that lie before the I/O. */
  function Before(cut: Cut, lba: nat): nat
    requires cut.step > 0
  {
    if cut.aligned then lba % cut.step else 0
  }

  lemma NoneBefore(cut: Cut, lba: nat)
    requires cut.step > 0
    ensures Before(cut, lba) < cut.step && Before(cut, lba + (cut.step - Before(cut, lba))) == 0
  {
    if cut.aligned {
      DivUnique(cut.step, lba + (cut.step - lba % cut.step), lba / cut.step + 1, 0);
    }
  }

  /** Steps of s sectors for x sectors. */
  function Steps(x: nat, s: nat): nat
    requires s > 0
  {
    (x + s - 1) / s
  }

  lemma StepsNext(x: nat, s: nat)
    requires s > 0
    ensures 0 < x <= s ==> Steps(x, s) == 1
    ensures x > s ==> Steps(x, s) == 1 + Steps(x - s, s)
  {
    if 0 < x <= s {
      DivUnique(s, x + s - 1, 1, x - 1);
    } else if x > s {
      var y := x - s + s - 1;
      DivUnique(s, x + s - 1, y / s + 1, y % s);
    }
  }

  /** As many as there are steps with a sector of the I/O. */
  lemma {:induction false} PiecesClosed(cut: Cut, lba: nat, left: nat)
    requires cut.step > 0 && left > 0
    ensures Pieces(cut, lba, left) == Steps(Before(cut, lba) + left, cut.step)
    decreases left
  {
    hide Pieces, Steps, Before, Piece;
    var c := Cursor(lba, left, 0, 0);
    OnePiece(cut, c);
    NoneBefore(cut, lba);
    FirstPiece(cut, c);
    StepsNext(Before(cut, lba) + left, cut.step);
    var m := Piece(cut, c);
    if m < left {
      PiecesClosed(cut, lba + m, left - m);
    } else {
      OnePiece(cut, Cursor(lba + m, 0, 0, 0));
    }
  }

  lemma FirstPiece(cut: Cut, c: Cursor)
    requires cut.step > 0
    ensures Piece(cut, c) == Min(c.left, cut.step - Before(cut, c.lba))
  {
  }

  lemma {:induction false} PiecesPassed(io: Io, cut: Cut, c: Cursor, n: nat)
    requires cut.step > 0
    ensures
      var d, all := After(io, cut, c, n), Pieces(cut, c.lba, c.left);
      && Pieces(cut, d.lba, d.left) == (if n <= all then all - n else 0)
      && (n < all <==> d.left > 0)
  {
    hide *;
    if n == 0 {
      AfterNone(io, cut, c);
      OnePiece(cut, c);
    } else {
      PiecesPassed(io, cut, c, n - 1);
      AfterNext(io, cut, c, n - 1);
      OnePiece(cut, After(io, cut, c, n - 1));
      OnePiece(cut, After(io, cut, c, n));
    }
  }

  lemma OnePiece(cut: Cut, d: Cursor)
    requires cut.step > 0
    ensures
      var m := Piece(cut, d);
      && (d.left > 0 ==> Pieces(cut, d.lba, d.left) == 1 + Pieces(cut, d.lba + m, d.left - m))
      && (d.left == 0 <==> Pieces(cut, d.lba, d.left) == 0)
  {
  }

  // ------------------------------------------------------------ what stays listed

  /** Children in the list after n additions: a counter of 0 empties it first. */
  function Batch(n: nat): (k: nat)
    ensures k <= n
  {
    if n == 0 then 0 else (n - 1) % 256 + 1
  }

  lemma BatchNext(n: nat)
    ensures Batch(n + 1) == if Batch(n) % 256 == 0 then 1 else Batch(n) + 1
    ensures Batch(n) % 256 == n % 256
    ensures Batch(n) == n <==> n <= 256
  {
  }

  /** `node` is what is left of the request for sectors lba .. lba+count-1: of the
      pieces of a split, those added since the counter was last 0. */
  ghost predicate Kept(io: Io, node: Node, lba: nat, count: nat, offset: nat, mdOffset: nat)
    requires io.ns.maxIo > 0
    decreases node
  {
    && node.size == ByteOffset(count, SectorBytes(io))
    && node.offset == offset
    && (io.hasMd ==> node.mdOffset == mdOffset)
    && (node.Parent? <==> Splits(io.ns, lba, count))
    && match node
       case Command(_, _, _, _, slba, blocks, cdw12) =>
         slba == lba && blocks == count && cdw12 == Or((count + U32 - 1) % U32, io.flags)
       case Parent(_, _, _, _, children) =>
         var cut, c := CutOf(io.ns, lba, count), Cursor(lba, count, 0, 0);
         var n := Pieces(cut, lba, count);
         && |children| == Batch(n)
         && forall i :: 0 <= i < |children| ==>
           var d := After(io, cut, c, n - |children| + i);
           d.left > 0 && Kept(io, children[i], d.lba, Piece(cut, d), d.offset, d.mdOffset)
  }

  ghost predicate KeptPiece(io: Io, cut: Cut, c: Cursor, i: nat, kid: Node)
    requires io.ns.maxIo > 0 && cut.step > 0
  {
    var d := After(io, cut, c, i);
    d.left > 0 && Kept(io, kid, d.lba, Piece(cut, d), d.offset, d.mdOffset)
  }

  /** Every parent has 1 to 255 children, which is what the counter can say. */
  predicate Narrow(node: Node)
    decreases node
  {
    node.Parent? ==>
      && 1 <= |node.children| <= 255
      && forall i :: 0 <= i < |node.children| ==> Narrow(node.children[i])
  }

  // --------------------------------------------------------- the exact condition

  /** Every split, the one at stripes and those of the first and second stripe,
      has at most 255 pieces. */
  predicate Countable(ns: Namespace, lba: nat, count: nat) {
    if Spans(ns, lba, count) then
      var first := ns.stripe - lba % ns.stripe;
      && count - first <= 254 * ns.stripe
      && first <= 255 * ns.maxIo
      && Min(ns.stripe, count - first) <= 255 * ns.maxIo
    else
      count <= 255 * ns.maxIo
  }

  /** A countable split has at most 255 pieces, each countable. */
  lemma CountablePieces(io: Io, lba: nat, count: nat, n: nat)
    requires io.ns.maxIo > 0 && Splits(io.ns, lba, count) && Countable(io.ns, lba, count)
    requires After(io, CutOf(io.ns, lba, count), Cursor(lba, count, 0, 0), n).left > 0
    ensures
      var cut := CutOf(io.ns, lba, count);
      var d := After(io, cut, Cursor(lba, count, 0, 0), n);
      n < 255 && Countable(io.ns, d.lba, Piece(cut, d))
  {
    PieceInside(io, lba, count, n);
    if Spans(io.ns, lba, count) {
      if n >= 1 {
        var cut, c := Cut(io.ns.stripe, true), Cursor(lba, count, 0, 0);
        SecondPiece(io, lba, count);
        AfterPlus(io, cut, c, 1, n - 1);
        Progress(io, cut, After(io, cut, c, 1), n - 1);
        TooMany(n - 1, 254, io.ns.stripe);
      }
    } else {
      Progress(io, Cut(io.ns.maxIo, false), Cursor(lba, count, 0, 0), n);
      TooMany(n, 255, io.ns.maxIo);
    }
  }

  lemma TooMany(n: nat, k: nat, s: nat)
    requires s > 0
    ensures n >= k ==> n * s >= k * s
  {
  }


  /** A countable split is not cut into more pieces than the counter can say. */
  lemma CountableTotal(io: Io, lba: nat, count: nat)
    requires io.ns.maxIo > 0 && Splits(io.ns, lba, count) && Countable(io.ns, lba, count)
    ensures
      var cut, c := CutOf(io.ns, lba, count), Cursor(lba, count, 0, 0);
      var n := Pieces(cut, lba, count);
      1 <= n <= 255 && Batch(n) == n && After(io, cut, c, n).left == 0
  {
    var cut, c := CutOf(io.ns, lba, count), Cursor(lba, count, 0, 0);
    var n := Pieces(cut, lba, count);
    hide After, Pieces, Countable;
    OnePiece(cut, c);
    PiecesPassed(io, cut, c, n);
    PiecesPassed(io, cut, c, n - 1);
    CountablePieces(io, lba, count, n - 1);
  }

  ghost predicate ExactPiece(io: Io, cut: Cut, c: Cursor, i: nat, kid: Node)
    requires io.ns.maxIo > 0 && cut.step > 0
  {
    var d := After(io, cut, c, i);
    d.left > 0 && Exact(io, kid, d.lba, Piece(cut, d), d.offset, d.mdOffset)
  }

  lemma ExactKids(io: Io, node: Node, lba: nat, count: nat, offset: nat, mdOffset: nat)
    requires io.ns.maxIo > 0 && Kept(io, node, lba, count, offset, mdOffset) && node.Parent?
    requires
      var cut, c := CutOf(io.ns, lba, count), Cursor(lba, count, 0, 0);
      && After(io, cut, c, |node.children|).left == 0
      && forall i :: 0 <= i < |node.children| ==> ExactPiece(io, cut, c, i, node.children[i])
    ensures Exact(io, node, lba, count, offset, mdOffset)
  {
    hide After, Piece, CutOf, Pieces, Batch, ByteOffset, SectorBytes, Splits, Or;
    var cut, c := CutOf(io.ns, lba, count), Cursor(lba, count, 0, 0);
    assert forall i :: 0 <= i < |node.children| ==> ExactPiece(io, cut, c, i, node.children[i]);
  }

  lemma KeptKid(io: Io, node: Node, lba: nat, count: nat, offset: nat, mdOffset: nat, i: nat)
    requires io.ns.maxIo > 0 && Kept(io, node, lba, count, offset, mdOffset) && node.Parent? && i < |node.children|
    ensures
      var cut := CutOf(io.ns, lba, count);
      var n := Pieces(cut, lba, count);
      |node.children| == Batch(n) && KeptPiece(io, cut, Cursor(lba, count, 0, 0), n - Batch(n) + i, node.children[i])
  {
    hide After, Piece, CutOf, Pieces, Batch, ByteOffset, SectorBytes, Splits, Or;
  }

  /** Countable I/Os lose nothing, and every parent of theirs is narrow. */
  lemma {:induction false} KeptExact(io: Io, node: Node, lba: nat, count: nat, offset: nat, mdOffset: nat)
    requires io.ns.maxIo > 0 && Kept(io, node, lba, count, offset, mdOffset) && Countable(io.ns, lba, count)
    ensures Exact(io, node, lba, count, offset, mdOffset) && Narrow(node)
    decreases node
  {
    hide After, Piece, CutOf, Pieces, Batch, ByteOffset, SectorBytes, Spans, Or, Countable;
    if node.Parent? {
      hide Exact, Splits;
      SplitStep(io.ns, lba, count);
      var cut, c, kids := CutOf(io.ns, lba, count), Cursor(lba, count, 0, 0), node.children;
      CountableTotal(io, lba, count);
      forall i | 0 <= i < |kids| ensures Narrow(kids[i]) && ExactPiece(io, cut, c, i, kids[i]) {
        KeptKid(io, node, lba, count, offset, mdOffset, i);
        var d := After(io, cut, c, i);
        CountablePieces(io, lba, count, i);
        KeptExact(io, kids[i], d.lba, Piece(cut, d), d.offset, d.mdOffset);
      }
      ExactKids(io, node, lba, count, offset, mdOffset);
    }
  }

  lemma SplitStep(ns: Namespace, lba: nat, count: nat)
    requires ns.maxIo > 0
    ensures CutOf(ns, lba, count).step > 0
  {
  }

  /** At most 255 pieces, inside one stripe. */
  lemma FewSteps(s: nat, x: nat)
    requires s > 0
    ensures Steps(x, s) <= 255 <==> x <= 255 * s
  {
    var q, r := (x + s - 1) / s, (x + s - 1) % s;
    assert x + s - 1 == q * s + r;
    if q <= 255 {
      assert q * s <= 255 * s;
    } else {
      assert q * s >= 256 * s;
    }
  }

  /** A narrow request without splits after its children: few sectors. */
  lemma StripeNarrow(io: Io, node: Node, lba: nat, count: nat, offset: nat, mdOffset: nat)
    requires io.ns.maxIo > 0 && Exact(io, node, lba, count, offset, mdOffset) && Narrow(node)
    requires !Spans(io.ns, lba, count)
    ensures count <= 255 * io.ns.maxIo
  {
    if node.Parent? {
      var cut, c := CutOf(io.ns, lba, count), Cursor(lba, count, 0, 0);
      PiecesPassed(io, cut, c, |node.children|);
      PiecesClosed(cut, lba, count);
      FewSteps(io.ns.maxIo, count);
    }
  }

  lemma ExactKid(io: Io, node: Node, lba: nat, count: nat, offset: nat, mdOffset: nat, i: nat)
    requires io.ns.maxIo > 0 && Exact(io, node, lba, count, offset, mdOffset) && node.Parent? && i < |node.children|
    ensures ExactPiece(io, CutOf(io.ns, lba, count), Cursor(lba, count, 0, 0), i, node.children[i])
  {
    hide After, Piece, CutOf, ByteOffset, SectorBytes, Splits, Or;
  }

  lemma ExactTotal(io: Io, node: Node, lba: nat, count: nat, offset: nat, mdOffset: nat)
    requires io.ns.maxIo > 0 && Exact(io, node, lba, count, offset, mdOffset) && node.Parent?
    ensures Pieces(CutOf(io.ns, lba, count), lba, count) <= |node.children|
  {
    hide Piece, CutOf, ByteOffset, SectorBytes, Or;
    SplitStep(io.ns, lba, count);
    PiecesPassed(io, CutOf(io.ns, lba, count), Cursor(lba, count, 0, 0), |node.children|);
  }

  /** The pieces at stripes, by their number. */
  lemma FewStripes(ns: Namespace, lba: nat, count: nat)
    requires Spans(ns, lba, count)
    ensures
      var n := Pieces(Cut(ns.stripe, true), lba, count);
      n >= 2 && (n <= 255 <==> count - (ns.stripe - lba % ns.stripe) <= 254 * ns.stripe)
  {
    var s, x := ns.stripe, lba % ns.stripe + count;
    PiecesClosed(Cut(s, true), lba, count);
    hide Pieces, Steps;
    FewSteps(s, x);
    StepsNext(x, s);
    StepsNext(x - s, s);
  }

  /** From the tree to the condition. */
  lemma ExactCountable(io: Io, node: Node, lba: nat, count: nat, offset: nat, mdOffset: nat)
    requires io.ns.maxIo > 0 && Exact(io, node, lba, count, offset, mdOffset) && Narrow(node)
    ensures Countable(io.ns, lba, count)
  {
    if !Spans(io.ns, lba, count) {
      StripeNarrow(io, node, lba, count, offset, mdOffset);
    } else {
      var cut, c, kids := CutOf(io.ns, lba, count), Cursor(lba, count, 0, 0), node.children;
      ExactTotal(io, node, lba, count, offset, mdOffset);
      FewStripes(io.ns, lba, count);
      SecondPiece(io, lba, count);
      assert After(io, cut, c, 0) == c;
      assert Piece(cut, c) == io.ns.stripe - lba % io.ns.stripe;
      hide After, Piece, Pieces, Exact;
      forall i | 0 <= i < 2 ensures Piece(cut, After(io, cut, c, i)) <= 255 * io.ns.maxIo {
        ExactKid(io, node, lba, count, offset, mdOffset, i);
        PieceInside(io, lba, count, i);
        var d := After(io, cut, c, i);
        StripeNarrow(io, kids[i], d.lba, Piece(cut, d), d.offset, d.mdOffset);
      }
    }
  }

  /** Exactly the countable I/Os are split as they should be: what is left of the
      request is all of it, and every parent has as many children as its counter
      can say. */
  lemma CountedExactly(io: Io, node: Node, lba: nat, count: nat, offset: nat, mdOffset: nat)
    requires io.ns.maxIo > 0 && Kept(io, node, lba, count, offset, mdOffset)
    ensures Exact(io, node, lba, count, offset, mdOffset) && Narrow(node) <==> Countable(io.ns, lba, count)
  {
    hide *;
    if Countable(io.ns, lba, count) {
      KeptExact(io, node, lba, count, offset, mdOffset);
    } else if Exact(io, node, lba, count, offset, mdOffset) && Narrow(node) {
      ExactCountable(io, node, lba, count, offset, mdOffset);
    }
  }

  // --------------------------------------------------------- sectors that are left

  /** Sectors the commands ask for. */
  function Sectors(leaves: seq<Node>): nat {
    if leaves == [] then 0
    else (if leaves[0].Command? then leaves[0].blocks else 0) + Sectors(leaves[1..])
  }

  lemma {:induction false} SectorsConcat(a: seq<Node>, b: seq<Node>)
    ensures Sectors(a + b) == Sectors(a) + Sectors(b)
  {
    if a == [] {
      assert a + b == b;
    } else {
      SectorsConcat(a[1..], b);
      assert (a + b)[1..] == a[1..] + b;
    }
  }

  lemma {:induction false} TiledSectors(leaves: seq<Node>, lba: nat, count: nat)
    requires Tiles(leaves, lba, count)
    ensures Sectors(leaves) == count
  {
    if leaves != [] {
      TiledSectors(leaves[1..], lba + leaves[0].blocks, count - leaves[0].blocks);
    }
  }

  /** A child asks for no more than its piece, and for all of it only when whole. */
  ghost predicate AtMostPiece(io: Io, cut: Cut, c: Cursor, i: nat, kid: Node)
    requires io.ns.maxIo > 0 && cut.step > 0
  {
    var m := Piece(cut, After(io, cut, c, i));
    Sectors(Leaves(kid)) <= m && (Sectors(Leaves(kid)) == m ==> ExactPiece(io, cut, c, i, kid))
  }

  lemma {:induction false} KidsSectors(io: Io, cut: Cut, c: Cursor, j: nat, kids: seq<Node>)
    requires io.ns.maxIo > 0 && cut.step > 0
    requires forall i :: 0 <= i < |kids| ==> AtMostPiece(io, cut, c, j + i, kids[i])
    ensures
      var passed := After(io, cut, c, j + |kids|).lba - After(io, cut, c, j).lba;
      && Sectors(LeavesOf(kids)) <= passed
      && (Sectors(LeavesOf(kids)) == passed ==>
            forall i :: 0 <= i < |kids| ==> ExactPiece(io, cut, c, j + i, kids[i]))
  {
    hide After, Piece, ExactPiece, Sectors;
    if kids == [] {
      NoSectors();
    } else {
      var n := |kids| - 1;
      assert AtMostPiece(io, cut, c, j + n, kids[n]);
      KidsSectors(io, cut, c, j, kids[..n]);
      SectorsConcat(LeavesOf(kids[..n]), Leaves(kids[n]));
      AfterNext(io, cut, c, j + n);
    }
  }

  lemma NoSectors()
    ensures Sectors([]) == 0
  {
  }

  lemma Moving(io: Io, cut: Cut, c: Cursor, j: nat)
    requires cut.step > 0 && c.left > 0 && j > 0
    ensures After(io, cut, c, j).lba > c.lba
  {
    hide Piece;
    AfterPlus(io, cut, c, 1, j - 1);
    AfterNext(io, cut, c, 0);
    PiecePositive(cut, c);
  }

  lemma KeptCommand(io: Io, node: Node, lba: nat, count: nat, offset: nat, mdOffset: nat)
    requires io.ns.maxIo > 0 && Kept(io, node, lba, count, offset, mdOffset) && !Splits(io.ns, lba, count)
    ensures Exact(io, node, lba, count, offset, mdOffset) && node.Command? && Leaves(node) == [node]
    ensures Sectors(Leaves(node)) == count
  {
    assert Leaves(node)[1..] == [];
  }

  /** What is left asks for all sectors only when nothing was lost. */
  lemma {:induction false} KeptSectors(io: Io, node: Node, lba: nat, count: nat, offset: nat, mdOffset: nat)
    requires io.ns.maxIo > 0 && Kept(io, node, lba, count, offset, mdOffset)
    ensures Sectors(Leaves(node)) <= count
    ensures Sectors(Leaves(node)) == count ==> Exact(io, node, lba, count, offset, mdOffset)
    decreases node
  {
    hide After, Piece, CutOf, Pieces, Batch, Exact, Sectors, SectorBytes, Spans, Or;
    if node.Command? {
      KeptCommand(io, node, lba, count, offset, mdOffset);
    } else {
      SplitStep(io.ns, lba, count);
      var cut, c, kids := CutOf(io.ns, lba, count), Cursor(lba, count, 0, 0), node.children;
      var n := Pieces(cut, lba, count);
      var j := n - Batch(n);
      PiecesPassed(io, cut, c, n);
      forall i | 0 <= i < |kids| ensures AtMostPiece(io, cut, c, j + i, kids[i]) {
        KeptKid(io, node, lba, count, offset, mdOffset, i);
        var d := After(io, cut, c, j + i);
        KeptSectors(io, kids[i], d.lba, Piece(cut, d), d.offset, d.mdOffset);
      }
      KidsSectors(io, cut, c, j, kids);
      if Sectors(Leaves(node)) == count {
        SplitsSome(io.ns, lba, count);
        if j > 0 {
          Moving(io, cut, c, j);
        }
        ExactKids(io, node, lba, count, offset, mdOffset);
      }
    }
  }

  /** In terms of sectors: the commands that are left tile the I/O, under parents
      whose counters are right, exactly when it is countable. */
  lemma TiledExactly(io: Io, node: Node, lba: nat, count: nat, offset: nat, mdOffset: nat)
    requires io.ns.maxIo > 0 && count > 0 && Kept(io, node, lba, count, offset, mdOffset)
    ensures Tiles(Leaves(node), lba, count) && Narrow(node) <==> Countable(io.ns, lba, count)
  {
    hide Kept, Exact, Tiles, Narrow, Countable, Leaves, Sectors;
    CountedExactly(io, node, lba, count, offset, mdOffset);
    if Exact(io, node, lba, count, offset, mdOffset) {
      SplitTiles(io, node, lba, count, offset, mdOffset);
    }
    if Tiles(Leaves(node), lba, count) {
      TiledSectors(Leaves(node), lba, count);
      KeptSectors(io, node, lba, count, offset, mdOffset);
    }
  }

  // ------------------------------------------------------------------ flat splits

  /** In a flat split every piece is one command. */
  lemma FlatPiece(io: Io, lba: nat, count: nat, n: nat)
    requires io.ns.maxIo > 0 && Splits(io.ns, lba, count) && Flat(io.ns, lba, count)
    ensures
      var cut := CutOf(io.ns, lba, count);
      var d := After(io, cut, Cursor(lba, count, 0, 0), n);
      d.left > 0 ==> !Splits(io.ns, d.lba, Piece(cut, d))
  {
    PieceInside(io, lba, count, n);
  }

  /** Where the pieces that are left begin, after j others. */
  lemma LeftFrom(io: Io, lba: nat, count: nat, j: nat)
    requires io.ns.maxIo > 0 && Splits(io.ns, lba, count)
    ensures
      var d := After(io, CutOf(io.ns, lba, count), Cursor(lba, count, 0, 0), j);
      d.left > 0 ==>
        d.lba == if j == 0 then lba
                 else if Spans(io.ns, lba, count) then
                   lba + (io.ns.stripe - lba % io.ns.stripe) + (j - 1) * io.ns.stripe
                 else lba + j * io.ns.maxIo
  {
    hide After, Piece;
    var cut, c := CutOf(io.ns, lba, count), Cursor(lba, count, 0, 0);
    if j == 0 {
      AfterNone(io, cut, c);
    } else if Spans(io.ns, lba, count) {
      SecondPiece(io, lba, count);
      AfterPlus(io, cut, c, 1, j - 1);
      Progress(io, cut, After(io, cut, c, 1), j - 1);
    } else {
      Progress(io, cut, c, j);
    }
  }

  /** A flat split of n pieces leaves the last (n - 1) % 256 + 1 of them, commands
      the controller takes that tile the sectors from there on, and no others. */
  lemma FlatLeft(io: Io, node: Node, lba: nat, count: nat, offset: nat, mdOffset: nat)
    requires io.ns.maxIo > 0 && Kept(io, node, lba, count, offset, mdOffset)
    requires Splits(io.ns, lba, count) && Flat(io.ns, lba, count)
    ensures
      var cut := CutOf(io.ns, lba, count);
      var n := Pieces(cut, lba, count);
      var d := After(io, cut, Cursor(lba, count, 0, 0), n - Batch(n));
      && |node.children| == Batch(n)
      && d.left > 0
      && Tiles(Leaves(node), d.lba, d.left)
      && forall l :: l in Leaves(node) ==> LeafOk(io, l)
  {
    hide After, Piece, CutOf, Pieces, Batch, Flat, SectorBytes, ByteOffset, Or, Spans;
    SplitStep(io.ns, lba, count);
    var cut, c, kids := CutOf(io.ns, lba, count), Cursor(lba, count, 0, 0), node.children;
    var n := Pieces(cut, lba, count);
    var j := n - Batch(n);
    var d := After(io, cut, c, j);
    SplitsSome(io.ns, lba, count);
    SomeLeft(cut, c);
    PiecesPassed(io, cut, c, j);
    PiecesPassed(io, cut, c, n);
    AfterPlus(io, cut, c, j, |kids|);
    hide Kept, Splits;
    forall i | 0 <= i < |kids| ensures GoodPiece(io, cut, d, i, kids[i], 0) {
      KeptKid(io, node, lba, count, offset, mdOffset, i);
      AfterPlus(io, cut, c, j, i);
      FlatPiece(io, lba, count, j + i);
      var e := After(io, cut, c, j + i);
      KeptCommand(io, kids[i], e.lba, Piece(cut, e), e.offset, e.mdOffset);
      PiecePositive(cut, e);
      CommandGood(io, kids[i], e.lba, Piece(cut, e), e.offset, e.mdOffset);
    }
    GoodKids(io, node, cut, d);
  }

  lemma SplitsSome(ns: Namespace, lba: nat, count: nat)
    requires Splits(ns, lba, count)
    ensures count > 0
  {
  }

  lemma SomeLeft(cut: Cut, c: Cursor)
    requires cut.step > 0 && c.left > 0
    ensures
      var n := Pieces(cut, c.lba, c.left);
      n > 0 && Batch(n) > 0
  {
  }

  lemma PiecePositive(cut: Cut, d: Cursor)
    requires cut.step > 0 && d.left > 0
    ensures Piece(cut, d) > 0
  {
  }

  lemma GoodKids(io: Io, node: Node, cut: Cut, d: Cursor)
    requires node.Parent? && cut.step > 0 && After(io, cut, d, |node.children|).left == 0
    requires forall i :: 0 <= i < |node.children| ==> GoodPiece(io, cut, d, i, node.children[i], 0)
    ensures Tiles(Leaves(node), d.lba, d.left)
    ensures forall l :: l in Leaves(node) ==> LeafOk(io, l)
  {
    hide After, Piece, Tiles, LeafOk, LeavesOf;
    var kids := node.children;
    forall i | 0 <= i < |kids| ensures TilesPiece(io, cut, d, i, kids[i]) {
      assert GoodPiece(io, cut, d, i, kids[i], 0);
    }
    KidsTile(io, cut, d, kids);
    forall l | l in Leaves(node) ensures LeafOk(io, l) {
      LeavesMember(kids, l);
      var i :| 0 <= i < |kids| && l in Leaves(kids[i]);
      assert GoodPiece(io, cut, d, i, kids[i], 0);
    }
  }

  /** Every command that is left is one the controller takes. */
  lemma StripeLeaves(io: Io, node: Node, lba: nat, count: nat, offset: nat, mdOffset: nat)
    requires io.ns.maxIo > 0 && count > 0 && Kept(io, node, lba, count, offset, mdOffset) && !Spans(io.ns, lba, count)
    ensures Within(node, 1) && forall l :: l in Leaves(node) ==> LeafOk(io, l)
  {
    if Splits(io.ns, lba, count) {
      FlatLeft(io, node, lba, count, offset, mdOffset);
      FlatWithin(io, node, lba, count, offset, mdOffset);
    } else {
      KeptCommand(io, node, lba, count, offset, mdOffset);
      CommandGood(io, node, lba, count, offset, mdOffset);
    }
  }

  lemma FlatWithin(io: Io, node: Node, lba: nat, count: nat, offset: nat, mdOffset: nat)
    requires io.ns.maxIo > 0 && Kept(io, node, lba, count, offset, mdOffset)
    requires Splits(io.ns, lba, count) && Flat(io.ns, lba, count)
    ensures Within(node, 1)
  {
    hide After, Piece, CutOf, Pieces, Batch, Flat, SectorBytes, ByteOffset, Or, Spans;
    SplitStep(io.ns, lba, count);
    var cut, c, kids := CutOf(io.ns, lba, count), Cursor(lba, count, 0, 0), node.children;
    var n := Pieces(cut, lba, count);
    hide Splits, Kept;
    forall i | 0 <= i < |kids| ensures Within(kids[i], 0) {
      KeptKid(io, node, lba, count, offset, mdOffset, i);
      FlatPiece(io, lba, count, n - Batch(n) + i);
      var e := After(io, cut, c, n - Batch(n) + i);
      KeptCommand(io, kids[i], e.lba, Piece(cut, e), e.offset, e.mdOffset);
    }
  }

  lemma KeptLeaves(io: Io, node: Node, lba: nat, count: nat, offset: nat, mdOffset: nat)
    requires io.ns.maxIo > 0 && count > 0 && Kept(io, node, lba, count, offset, mdOffset)
    ensures Within(node, 2) && forall l :: l in Leaves(node) ==> LeafOk(io, l)
  {
    hide After, Piece, CutOf, Pieces, Batch, SectorBytes, ByteOffset, Or, Spans, LeafOk;
    if !Spans(io.ns, lba, count) {
      StripeLeaves(io, node, lba, count, offset, mdOffset);
      WithinMore(node, 1);
    } else {
      SplitStep(io.ns, lba, count);
      var cut, c, kids := CutOf(io.ns, lba, count), Cursor(lba, count, 0, 0), node.children;
      var n := Pieces(cut, lba, count);
      forall i | 0 <= i < |kids| ensures Within(kids[i], 1) && forall l :: l in Leaves(kids[i]) ==> LeafOk(io, l) {
        KeptKid(io, node, lba, count, offset, mdOffset, i);
        var j := n - Batch(n) + i;
        PieceInside(io, lba, count, j);
        var e := After(io, cut, c, j);
        PiecePositive(cut, e);
        StripeLeaves(io, kids[i], e.lba, Piece(cut, e), e.offset, e.mdOffset);
      }
      forall l | l in Leaves(node) ensures LeafOk(io, l) {
        LeavesMember(kids, l);
      }
    }
  }
}
