/** _nvme_ns_rw and _nvme_ns_split_request as they work: taking requests from the
    pool, adding children to an 8-bit counted list, and giving up when the pool
    runs out.  Proved to build what the counter leaves of what Split describes. */
module SplitBuild {
  import opened Common
  import opened Bits
  import opened Lists
  import opened Split
  import opened ChildCounter

  // ------------------------------------------------------------ requests needed

  /** Requests an I/O inside one stripe takes. */
  function NeedInStripe(ns: Namespace, count: nat): nat
    requires ns.maxIo > 0
  {
    if count <= ns.maxIo then 1 else 1 + (count + ns.maxIo - 1) / ns.maxIo
  }

  /** Requests the pieces of a split take. */
  function NeedRun(ns: Namespace, cut: Cut, lba: nat, left: nat): nat
    requires ns.maxIo > 0 && cut.step > 0
    decreases left
  {
    if left == 0 then 0 else
      var m := Piece(cut, Cursor(lba, left, 0, 0));
      NeedInStripe(ns, m) + NeedRun(ns, cut, lba + m, left - m)
  }

  /** Requests an I/O takes from the pool. */
  function Need(ns: Namespace, lba: nat, count: nat): nat
    requires ns.maxIo > 0
  {
    if Spans(ns, lba, count) then 1 + NeedRun(ns, Cut(ns.stripe, true), lba, count) else NeedInStripe(ns, count)
  }

  lemma {:induction false} NeedRunFlat(ns: Namespace, lba: nat, left: nat)
    requires ns.maxIo > 0
    ensures NeedRun(ns, Cut(ns.maxIo, false), lba, left) == (left + ns.maxIo - 1) / ns.maxIo
    decreases left
  {
    var k := ns.maxIo;
    var m := Min(left, k);
    if left == 0 {
      DivUnique(k, k - 1, 0, k - 1);
    } else {
      NeedRunFlat(ns, lba + m, left - m);
      if left <= k {
        DivUnique(k, left + k - 1, 1, left - 1);
        DivUnique(k, k - 1, 0, k - 1);
      } else {
        var x := left - k + k - 1;
        DivUnique(k, x + k, x / k + 1, x % k);
      }
    }
  }

  lemma NeedSplit(ns: Namespace, lba: nat, count: nat)
    requires ns.maxIo > 0 && Splits(ns, lba, count)
    ensures Need(ns, lba, count) == 1 + NeedRun(ns, CutOf(ns, lba, count), lba, count)
  {
    NeedRunFlat(ns, lba, count);
  }

  function Ids(node: Node): (s: seq<nat>)
    decreases node
  {
    match node
    case Command(id, _, _, _, _, _, _) => [id]
    case Parent(id, _, _, _, children) => [id] + IdsOf(children)
  }

  function IdsOf(kids: seq<Node>): (s: seq<nat>)
    decreases kids
  {
    if kids == [] then [] else IdsOf(kids[..|kids| - 1]) + Ids(kids[|kids| - 1])
  }

  /** The child list of a parent with the 8-bit counter child_reqs: a counter of
      0, initially or after a wrap, empties the list first. */
  function AddKid(kids: seq<Node>, kid: Node): seq<Node> {
    if |kids| % 256 == 0 then [kid] else kids + [kid]
  }

  datatype Result = Built(node: Node) | NoRequest | AssertFailed

  function Reverse(s: seq<nat>): (r: seq<nat>)
    ensures |r| == |s|
  {
    if s == [] then [] else Reverse(s[1..]) + [s[0]]
  }

  lemma Reoffset(io: Io, node: Node, lba: nat, count: nat, offset: nat, mdOffset: nat)
    requires io.ns.maxIo > 0 && Kept(io, node, lba, count, 0, 0)
    ensures
      var node' := node.(offset := offset, mdOffset := if io.hasMd then mdOffset else node.mdOffset);
      Kept(io, node', lba, count, offset, mdOffset) && Ids(node') == Ids(node)
  {
  }

  /** The whole contract of _nvme_ns_rw. */
  ghost predicate RwSpec(io: Io, lba: nat, count: nat, free: seq<nat>, r: Result, free': seq<nat>)
    requires io.ns.maxIo > 0
  {
    var need := Need(io.ns, lba, count);
    if io.flags % 65536 != 0 then r == NoRequest && free' == free
    else if need <= |free| then
      && r.Built?
      && free' == free[need..]
      && free != [] && r.node.id == free[0]
      && Kept(io, r.node, lba, count, 0, 0)
      && (r.node.Parent? && Flat(io.ns, lba, count) ==> TopIds(r.node.children) == Latest(free[1..need]))
      && (Countable(io.ns, lba, count) ==> Ids(r.node) == free[..need])
    else if free == [] then
      r == NoRequest && free' == []
    else
      && !r.Built?
      && Among(free', free[1..])
      && (exists m: nat :: StuckAt(io, lba, count, free[1..], m, r, free'))
      && (Flat(io.ns, lba, count) ==> r == NoRequest && free' == Reverse(LastBatch(free[1..])))
  }

  /** The requests of the children still listed when all are made. */
  function Latest(made: seq<nat>): seq<nat> {
    made[|made| - Batch(|made|)..]
  }

  ghost predicate Among(a: seq<nat>, b: seq<nat>) {
    multiset(a) <= multiset(b)
  }

  /** The children counted since the 8-bit counter was last 0. */
  function LastBatch(made: seq<nat>): seq<nat> {
    made[|made| - |made| % 256..]
  }

  lemma {:induction false} ReverseSnoc(s: seq<nat>, x: nat)
    ensures Reverse(s + [x]) == [x] + Reverse(s)
  {
    if s == [] {
    } else {
      assert (s + [x])[1..] == s[1..] + [x];
      ReverseSnoc(s[1..], x);
    }
  }

  /** Freeing a request whose child counter is not 0 fails an assertion. */
  predicate Busy(node: Node) {
    node.Parent? && |node.children| % 256 != 0
  }

  /** Position of the first true value. */
  function FirstTrue(b: seq<bool>): (k: nat)
    ensures k <= |b|
    ensures forall i :: 0 <= i < k ==> !b[i]
    ensures k < |b| ==> b[k]
  {
    if b == [] then 0
    else
      var k := FirstTrue(b[..|b| - 1]);
      if k < |b| - 1 || b[|b| - 1] then k else k + 1
  }

  function BusyKids(kids: seq<Node>): (b: seq<bool>)
    ensures |b| == |kids| && forall i :: 0 <= i < |b| ==> b[i] == Busy(kids[i])
  {
    seq(|kids|, i requires 0 <= i < |kids| => Busy(kids[i]))
  }

  /** How many children are freed before that happens. */
  function Freeable(kids: seq<Node>): (k: nat)
    ensures k <= |kids|
    ensures forall i :: 0 <= i < k ==> !Busy(kids[i])
    ensures k < |kids| ==> Busy(kids[k])
  {
    FirstTrue(BusyKids(kids))
  }

  function TopIds(kids: seq<Node>): (s: seq<nat>)
    ensures |s| == |kids| && forall i :: 0 <= i < |s| ==> s[i] == kids[i].id
  {
    seq(|kids|, i requires 0 <= i < |kids| => kids[i].id)
  }

  /** Giving the children back after a child could not be made: each goes to the
      head of the free list, up to the first that cannot be freed. */
  method FreeKids(kids: seq<Node>, free: seq<nat>) returns (ok: bool, free': seq<nat>)
    ensures ok <==> Freeable(kids) == |kids|
    ensures free' == Reverse(TopIds(kids[..Freeable(kids)])) + free
  {
    free' := free;
    var i := 0;
    while i < |kids|
      invariant 0 <= i <= Freeable(kids)
      invariant free' == Reverse(TopIds(kids[..i])) + free
    {
      if Busy(kids[i]) {
        return false, free';
      }
      free' := [kids[i].id] + free';
      assert TopIds(kids[..i + 1]) == TopIds(kids[..i]) + [kids[i].id];
      ReverseSnoc(TopIds(kids[..i]), kids[i].id);
      i := i + 1;
    }
    ok := true;
  }

  // ------------------------------------------------------------------- methods

  /** Requests taken when the loop has come to c. */
  function Used(io: Io, lba: nat, count: nat, c: Cursor): int
    requires io.ns.maxIo > 0
  {
    var cut := CutOf(io.ns, lba, count);
    NeedRun(io.ns, cut, lba, count) - NeedRun(io.ns, cut, c.lba, c.left)
  }

  /** The splitting loop after n pieces took that many requests from `free`... */
  ghost predicate Spent(io: Io, lba: nat, count: nat, free: seq<nat>, c: Cursor, n: nat, rest: seq<nat>)
    requires io.ns.maxIo > 0
  {
    && c == After(io, CutOf(io.ns, lba, count), Cursor(lba, count, 0, 0), n)
    && 0 <= Used(io, lba, count, c) <= |free|
    && rest == free[Used(io, lba, count, c)..]
  }

  /** Requests taken by the first j pieces. */
  function UsedAt(io: Io, lba: nat, count: nat, j: nat): int
    requires io.ns.maxIo > 0
  {
    Used(io, lba, count, After(io, CutOf(io.ns, lba, count), Cursor(lba, count, 0, 0), j))
  }

  /** The children listed after n pieces are what is left of the latest pieces,
      and each is the first request its piece took. */
  ghost predicate Collected(io: Io, lba: nat, count: nat, free: seq<nat>, n: nat, kids: seq<Node>)
    requires io.ns.maxIo > 0
  {
    && |kids| == Batch(n)
    && forall i :: 0 <= i < |kids| ==> KidAt(io, lba, count, free, n - |kids| + i, kids[i])
  }

  ghost predicate KidAt(io: Io, lba: nat, count: nat, free: seq<nat>, j: nat, kid: Node)
    requires io.ns.maxIo > 0
  {
    && KeptPiece(io, CutOf(io.ns, lba, count), Cursor(lba, count, 0, 0), j, kid)
    && 0 <= UsedAt(io, lba, count, j) < |free|
    && kid.id == free[UsedAt(io, lba, count, j)]
  }

  lemma CollectedNext(io: Io, lba: nat, count: nat, free: seq<nat>, n: nat, kids: seq<Node>, kid: Node)
    requires io.ns.maxIo > 0 && Collected(io, lba, count, free, n, kids) && KidAt(io, lba, count, free, n, kid)
    ensures Collected(io, lba, count, free, n + 1, AddKid(kids, kid))
  {
    hide KidAt, Batch;
    BatchNext(n);
  }

  // ------------------------------------------------------------------ giving up

  /** The j-th piece is a parent whose child counter is not 0. */
  predicate BusyPiece(io: Io, lba: nat, count: nat, j: nat)
    requires io.ns.maxIo > 0
  {
    var cut := CutOf(io.ns, lba, count);
    var d := After(io, cut, Cursor(lba, count, 0, 0), j);
    var m := Piece(cut, d);
    Splits(io.ns, d.lba, m) && Pieces(CutOf(io.ns, d.lba, m), d.lba, m) % 256 != 0
  }

  function BusyRun(io: Io, lba: nat, count: nat, j: nat, k: nat): (b: seq<bool>)
    requires io.ns.maxIo > 0
    ensures |b| == k && forall i :: 0 <= i < k ==> b[i] == BusyPiece(io, lba, count, j + i)
  {
    seq(k, i requires 0 <= i => BusyPiece(io, lba, count, j + i))
  }

  /** First requests of the pieces j .. j+k-1. */
  function Heads(io: Io, lba: nat, count: nat, free: seq<nat>, j: nat, k: nat): (s: seq<nat>)
    requires io.ns.maxIo > 0
    requires forall i :: j <= i < j + k ==> 0 <= UsedAt(io, lba, count, i) < |free|
    ensures |s| == k && forall i :: 0 <= i < k ==> s[i] == free[UsedAt(io, lba, count, j + i)]
  {
    seq(k, i requires 0 <= i < k => free[UsedAt(io, lba, count, j + i)])
  }

  /** A piece that cannot be made gives back its own latest children. */
  function PieceBack(rest: seq<nat>): seq<nat> {
    if rest == [] then [] else Reverse(LastBatch(rest[1..]))
  }

  /** The split made m pieces and had too few requests for the next: the result,
      and all that returns to the pool.  With the counter at 0 that is what the
      failed piece gave back; else also the listed pieces, in reverse order, up
      to the first that cannot be freed. */
  ghost predicate StuckAt(io: Io, lba: nat, count: nat, free: seq<nat>, m: nat, r: Result, free': seq<nat>)
    requires io.ns.maxIo > 0
  {
    var cut := CutOf(io.ns, lba, count);
    var d := After(io, cut, Cursor(lba, count, 0, 0), m);
    var used := UsedAt(io, lba, count, m);
    && d.left > 0
    && 0 <= used <= |free| < used + Need(io.ns, d.lba, Piece(cut, d))
    && (forall j :: 0 <= j < m ==> 0 <= UsedAt(io, lba, count, j) < |free|)
    && if m % 256 == 0 then r == NoRequest && free' == PieceBack(free[used..])
       else
         var k := m % 256;
         var f := FirstTrue(BusyRun(io, lba, count, m - k, k));
         && r == (if f == k then NoRequest else AssertFailed)
         && free' == Reverse(Heads(io, lba, count, free, m - k, f)) + PieceBack(free[used..])
  }

  lemma AddKidAmong(kids: seq<Node>, kid: Node, rest: seq<nat>, rest': seq<nat>, free: seq<nat>)
    requires Among(TopIds(kids) + rest, free) && Among([kid.id] + rest', rest)
    ensures Among(TopIds(AddKid(kids, kid)) + rest', free)
  {
    var kids' := AddKid(kids, kid);
    assert TopIds(kids') == if |kids| % 256 == 0 then [kid.id] else TopIds(kids) + [kid.id];
  }

  lemma NeedPiece(io: Io, lba: nat, count: nat, n: nat)
    requires io.ns.maxIo > 0 && Splits(io.ns, lba, count)
    requires After(io, CutOf(io.ns, lba, count), Cursor(lba, count, 0, 0), n).left > 0
    ensures
      var cut := CutOf(io.ns, lba, count);
      var d := After(io, cut, Cursor(lba, count, 0, 0), n);
      var need := Need(io.ns, d.lba, Piece(cut, d));
      && need >= 1
      && NeedRun(io.ns, cut, d.lba, d.left)
         == need + NeedRun(io.ns, cut, d.lba + Piece(cut, d), d.left - Piece(cut, d))
      && (Flat(io.ns, lba, count) ==> need == 1 && !Splits(io.ns, d.lba, Piece(cut, d)))
  {
    PieceInside(io, lba, count, n);
    var d := After(io, CutOf(io.ns, lba, count), Cursor(lba, count, 0, 0), n);
    hide After;
    NeedOne(io.ns, CutOf(io.ns, lba, count), d);
  }

  lemma NeedOne(ns: Namespace, cut: Cut, d: Cursor)
    requires ns.maxIo > 0 && cut.step > 0 && d.left > 0 && !Spans(ns, d.lba, Piece(cut, d))
    ensures NeedRun(ns, cut, d.lba, d.left)
         == Need(ns, d.lba, Piece(cut, d)) + NeedRun(ns, cut, d.lba + Piece(cut, d), d.left - Piece(cut, d))
    ensures Need(ns, d.lba, Piece(cut, d)) >= 1
    ensures Piece(cut, d) <= ns.maxIo ==> Need(ns, d.lba, Piece(cut, d)) == 1
  {
    hide Spans;
  }

  function Placed(io: Io, kid: Node, c: Cursor): Node {
    kid.(offset := c.offset, mdOffset := if io.hasMd then c.mdOffset else kid.mdOffset)
  }

  /** The child that was made is the n-th piece of the split. */
  lemma PieceBuilt(io: Io, lba: nat, count: nat, free: seq<nat>, c: Cursor, n: nat, rest: seq<nat>, kid: Node, rest': seq<nat>)
    requires io.ns.maxIo > 0 && Splits(io.ns, lba, count) && io.flags % 65536 == 0
    requires Spent(io, lba, count, free, c, n, rest) && c.left > 0
    requires RwSpec(io, c.lba, Piece(CutOf(io.ns, lba, count), c), rest, Built(kid), rest')
    ensures KidAt(io, lba, count, free, n, Placed(io, kid, c))
    ensures Ids(Placed(io, kid, c)) == Ids(kid)
  {
    hide After, Piece, Kept, Need, NeedRun, CutOf, Countable, Ids, Flat, Splits;
    SplitStep(io.ns, lba, count);
    Reoffset(io, kid, c.lba, Piece(CutOf(io.ns, lba, count), c), c.offset, c.mdOffset);
  }

  lemma SpentNext(io: Io, lba: nat, count: nat, free: seq<nat>, c: Cursor, n: nat, rest: seq<nat>)
    requires io.ns.maxIo > 0 && Splits(io.ns, lba, count) && c.left > 0
    requires Spent(io, lba, count, free, c, n, rest)
    requires Need(io.ns, c.lba, Piece(CutOf(io.ns, lba, count), c)) <= |rest|
    ensures
      var m := Piece(CutOf(io.ns, lba, count), c);
      var need := Need(io.ns, c.lba, m);
      && Spent(io, lba, count, free, Next(io, c, m), n + 1, rest[need..])
      && Used(io, lba, count, Next(io, c, m)) == Used(io, lba, count, c) + need
      && need >= 1
      && (Flat(io.ns, lba, count) ==> need == 1)
  {
    hide After, Piece, Next, Need, NeedRun, CutOf, Splits, Flat;
    SplitStep(io.ns, lba, count);
    var cut, c0 := CutOf(io.ns, lba, count), Cursor(lba, count, 0, 0);
    NeedPiece(io, lba, count, n);
    AfterNext(io, cut, c0, n);
  }

  /** The requests of a countable split are all in the tree. */
  lemma IdsNext(io: Io, lba: nat, count: nat, free: seq<nat>, c: Cursor, n: nat, kids: seq<Node>,
                rest: seq<nat>, kid: Node, rest': seq<nat>)
    requires io.ns.maxIo > 0 && Splits(io.ns, lba, count) && c.left > 0 && io.flags % 65536 == 0
    requires Countable(io.ns, lba, count) && Spent(io, lba, count, free, c, n, rest)
    requires |kids| == Batch(n) && IdsOf(kids) == free[..Used(io, lba, count, c)]
    requires RwSpec(io, c.lba, Piece(CutOf(io.ns, lba, count), c), rest, Built(kid), rest')
    requires Ids(Placed(io, kid, c)) == Ids(kid)
    ensures
      var used := Used(io, lba, count, c) + Need(io.ns, c.lba, Piece(CutOf(io.ns, lba, count), c));
      used <= |free| && IdsOf(AddKid(kids, Placed(io, kid, c))) == free[..used]
  {
    hide After, Piece, Need, NeedRun, CutOf, Ids, IdsOf, Countable, Kept, Splits, Flat, AddKid, Placed;
    SplitStep(io.ns, lba, count);
    CountablePieces(io, lba, count, n);
    AllListed(kids, n, Placed(io, kid, c));
    SliceJoin(free, Used(io, lba, count, c), Need(io.ns, c.lba, Piece(CutOf(io.ns, lba, count), c)));
  }

  lemma AllListed(kids: seq<Node>, n: nat, kid: Node)
    requires |kids| == Batch(n) && n < 256
    ensures IdsOf(AddKid(kids, kid)) == IdsOf(kids) + Ids(kid)
  {
    hide Ids;
    assert AddKid(kids, kid) == kids + [kid];
    assert (kids + [kid])[..|kids|] == kids;
  }

  lemma SliceJoin(free: seq<nat>, used: nat, need: nat)
    requires used + need <= |free|
    ensures free[..used] + free[used..][..need] == free[..used + need]
  {
  }

  lemma StripeMask(ns: Namespace, lba: nat)
    requires LimitsOk(ns) && ns.stripe > 0
    ensures And(lba, ns.stripe - 1) == lba % ns.stripe
  {
    var k: nat :| ns.stripe == Pow2(k);
    AndMask(lba, k);
  }

  /** A finished loop has built the request. */
  lemma SplitDone(io: Io, lba: nat, count: nat, free: seq<nat>, c: Cursor, n: nat, kids: seq<Node>, id: nat)
    requires io.ns.maxIo > 0 && Splits(io.ns, lba, count) && c.left == 0
    requires c == After(io, CutOf(io.ns, lba, count), Cursor(lba, count, 0, 0), n)
    requires n == Pieces(CutOf(io.ns, lba, count), lba, count)
    requires Collected(io, lba, count, free, n, kids)
    ensures Kept(io, Parent(id, ByteOffset(count, SectorBytes(io)), 0, 0, kids), lba, count, 0, 0)
  {
    hide After, Piece, CutOf, NeedRun, SectorBytes, ByteOffset, Spans, Countable, IdsOf, Used, Pieces, Batch;
    SplitStep(io.ns, lba, count);
    var cut, c0 := CutOf(io.ns, lba, count), Cursor(lba, count, 0, 0);
    forall i | 0 <= i < |kids|
      ensures
        var d := After(io, cut, c0, n - |kids| + i);
        d.left > 0 && Kept(io, kids[i], d.lba, Piece(cut, d), d.offset, d.mdOffset)
    {
      assert KidAt(io, lba, count, free, n - |kids| + i, kids[i]);
    }
  }

  /** The contract of _nvme_ns_split_request, whose request is already taken. */
  ghost predicate SplitSpec(io: Io, lba: nat, count: nat, id: nat, free: seq<nat>, r: Result, free': seq<nat>)
    requires io.ns.maxIo > 0
  {
    var need := NeedRun(io.ns, CutOf(io.ns, lba, count), lba, count);
    if need <= |free| then
      && r.Built?
      && free' == free[need..]
      && r.node.Parent? && r.node.id == id
      && Kept(io, r.node, lba, count, 0, 0)
      && (Flat(io.ns, lba, count) ==> TopIds(r.node.children) == Latest(free[..need]))
      && (Countable(io.ns, lba, count) ==> Ids(r.node) == [id] + free[..need])
    else
      && !r.Built?
      && Among(free', free)
      && (exists m: nat :: StuckAt(io, lba, count, free, m, r, free'))
      && (Flat(io.ns, lba, count) ==> r == NoRequest && free' == Reverse(LastBatch(free)))
  }

  /** A piece that cannot be made: the I/O needs more than the pool has.  A piece
      is never split at stripes, so it gives back its own latest children. */
  lemma SplitStuck(io: Io, lba: nat, count: nat, free: seq<nat>, c: Cursor, n: nat, rest: seq<nat>,
                   r: Result, rest': seq<nat>)
    requires io.ns.maxIo > 0 && Splits(io.ns, lba, count) && c.left > 0 && io.flags % 65536 == 0 && !r.Built?
    requires Spent(io, lba, count, free, c, n, rest)
    requires RwSpec(io, c.lba, Piece(CutOf(io.ns, lba, count), c), rest, r, rest')
    ensures NeedRun(io.ns, CutOf(io.ns, lba, count), lba, count) > |free|
    ensures Need(io.ns, c.lba, Piece(CutOf(io.ns, lba, count), c)) > |rest|
    ensures r == NoRequest && rest' == PieceBack(rest) && Among(rest', rest)
  {
    hide After, Piece, Need, NeedRun, Next, Countable, Kept, Splits, CutOf, Ids, StuckAt, Spans;
    SplitStep(io.ns, lba, count);
    NeedPiece(io, lba, count, n);
    PieceInside(io, lba, count, n);
    if rest != [] {
      assert rest == [rest[0]] + rest[1..];
    }
  }

  ghost predicate InLoop(io: Io, lba: nat, count: nat, free: seq<nat>, c: Cursor, n: nat, kids: seq<Node>, rest: seq<nat>)
    requires io.ns.maxIo > 0
  {
    && Spent(io, lba, count, free, c, n, rest)
    && Among(TopIds(kids) + rest, free)
    && Collected(io, lba, count, free, n, kids)
    && (forall j :: 0 <= j < n ==> 0 <= UsedAt(io, lba, count, j) < |free|)
    && (Countable(io.ns, lba, count) ==> IdsOf(kids) == free[..Used(io, lba, count, c)])
  }

  lemma InLoopStart(io: Io, lba: nat, count: nat, free: seq<nat>)
    requires io.ns.maxIo > 0
    ensures InLoop(io, lba, count, free, Cursor(lba, count, 0, 0), 0, [], free)
  {
    hide NeedRun, CutOf, Countable, Flat;
    assert TopIds([]) + free == free;
  }

  lemma InLoopNext(io: Io, lba: nat, count: nat, free: seq<nat>, c: Cursor, n: nat, kids: seq<Node>,
                   rest: seq<nat>, child: Result, rest': seq<nat>)
    requires io.ns.maxIo > 0 && Splits(io.ns, lba, count) && c.left > 0 && io.flags % 65536 == 0 && child.Built?
    requires InLoop(io, lba, count, free, c, n, kids, rest)
    requires RwSpec(io, c.lba, Piece(CutOf(io.ns, lba, count), c), rest, child, rest')
    ensures
      var m := Piece(CutOf(io.ns, lba, count), c);
      InLoop(io, lba, count, free, Next(io, c, m), n + 1, AddKid(kids, Placed(io, child.node, c)), rest')
  {
    hide After, Piece, Need, NeedRun, CutOf, Collected, Used, Kept, Ids, IdsOf, Next, AddKid, Countable, Among,
         TopIds, Flat, Splits, KidAt, StuckAt, Latest;
    SpentNext(io, lba, count, free, c, n, rest);
    ChildAmong(rest, Need(io.ns, c.lba, Piece(CutOf(io.ns, lba, count), c)));
    AddKidAmong(kids, Placed(io, child.node, c), rest, rest', free);
    PieceBuilt(io, lba, count, free, c, n, rest, child.node, rest');
    CollectedNext(io, lba, count, free, n, kids, Placed(io, child.node, c));
    if Countable(io.ns, lba, count) {
      CollectedNumber(io, lba, count, free, n, kids);
      IdsNext(io, lba, count, free, c, n, kids, rest, child.node, rest');
    }
  }

  lemma CollectedNumber(io: Io, lba: nat, count: nat, free: seq<nat>, n: nat, kids: seq<Node>)
    requires io.ns.maxIo > 0 && Collected(io, lba, count, free, n, kids)
    ensures |kids| == Batch(n)
  {
    hide KidAt;
  }

  lemma ChildAmong(rest: seq<nat>, need: nat)
    requires 1 <= need <= |rest|
    ensures Among([rest[0]] + rest[need..], rest)
  {
    assert rest == [rest[0]] + rest[1..need] + rest[need..];
  }

  /** In a flat split each piece takes one request. */
  lemma {:induction false} FlatUsed(io: Io, lba: nat, count: nat, j: nat)
    requires io.ns.maxIo > 0 && Splits(io.ns, lba, count) && Flat(io.ns, lba, count)
    requires j <= Pieces(CutOf(io.ns, lba, count), lba, count)
    ensures UsedAt(io, lba, count, j) == j
  {
    hide After, Piece, Need, NeedRun, CutOf, Pieces, Flat, Splits;
    SplitStep(io.ns, lba, count);
    var cut, c := CutOf(io.ns, lba, count), Cursor(lba, count, 0, 0);
    if j == 0 {
      AfterNone(io, cut, c);
    } else {
      FlatUsed(io, lba, count, j - 1);
      PiecesPassed(io, cut, c, j - 1);
      NeedPiece(io, lba, count, j - 1);
      AfterNext(io, cut, c, j - 1);
    }
  }

  lemma FlatTopIds(io: Io, lba: nat, count: nat, free: seq<nat>, n: nat, kids: seq<Node>)
    requires io.ns.maxIo > 0 && Splits(io.ns, lba, count) && Flat(io.ns, lba, count)
    requires n <= Pieces(CutOf(io.ns, lba, count), lba, count) && n <= |free|
    requires Collected(io, lba, count, free, n, kids)
    ensures TopIds(kids) == Latest(free[..n])
  {
    hide KeptPiece, UsedAt, Pieces, Flat, Splits, CutOf;
    var k := |kids|;
    forall i | 0 <= i < k ensures TopIds(kids)[i] == free[..n][n - k + i] {
      assert KidAt(io, lba, count, free, n - k + i, kids[i]);
      FlatUsed(io, lba, count, n - k + i);
    }
    assert |Latest(free[..n])| == k;
  }

  lemma LoopDone(io: Io, lba: nat, count: nat, c: Cursor, n: nat)
    requires io.ns.maxIo > 0 && c.left == 0
    requires n == 0 || After(io, CutOf(io.ns, lba, count), Cursor(lba, count, 0, 0), n - 1).left > 0
    requires c == After(io, CutOf(io.ns, lba, count), Cursor(lba, count, 0, 0), n)
    ensures n == Pieces(CutOf(io.ns, lba, count), lba, count)
    ensures Used(io, lba, count, c) == NeedRun(io.ns, CutOf(io.ns, lba, count), lba, count)
  {
    var cut, c0 := CutOf(io.ns, lba, count), Cursor(lba, count, 0, 0);
    hide After, Piece, Pieces;
    PiecesPassed(io, cut, c0, n);
    if n > 0 {
      PiecesPassed(io, cut, c0, n - 1);
    }
  }

  lemma SplitBuilt(io: Io, lba: nat, count: nat, id: nat, free: seq<nat>, c: Cursor, n: nat, kids: seq<Node>,
                   rest: seq<nat>)
    requires io.ns.maxIo > 0 && Splits(io.ns, lba, count) && c.left == 0
    requires InLoop(io, lba, count, free, c, n, kids, rest)
    requires n == 0 || After(io, CutOf(io.ns, lba, count), Cursor(lba, count, 0, 0), n - 1).left > 0
    ensures SplitSpec(io, lba, count, id, free, Built(Parent(id, ByteOffset(count, SectorBytes(io)), 0, 0, kids)), rest)
  {
    hide After, CutOf, NeedRun, SectorBytes, ByteOffset, Spans, Countable, Kept, Collected, Flat, Used, Pieces, Latest, Splits,
         IdsOf, TopIds, UsedAt, Among;
    SplitStep(io.ns, lba, count);
    LoopDone(io, lba, count, c, n);
    SplitDone(io, lba, count, free, c, n, kids, id);
    if Flat(io.ns, lba, count) {
      FlatUsed(io, lba, count, n);
      FlatAll(io, lba, count, c, n);
      FlatTopIds(io, lba, count, free, n, kids);
    }
  }

  lemma FlatAll(io: Io, lba: nat, count: nat, c: Cursor, n: nat)
    requires io.ns.maxIo > 0 && c == After(io, CutOf(io.ns, lba, count), Cursor(lba, count, 0, 0), n)
    ensures UsedAt(io, lba, count, n) == Used(io, lba, count, c)
  {
  }

  ghost predicate GivenUp(child: Result, kids: seq<Node>, free: seq<nat>, r: Result, free': seq<nat>) {
    if child.AssertFailed? then r == AssertFailed && free' == free
    else if |kids| % 256 == 0 then r == NoRequest && free' == free
    else
      && r == (if Freeable(kids) == |kids| then NoRequest else AssertFailed)
      && free' == Reverse(TopIds(kids[..Freeable(kids)])) + free
  }

  /** What happens when a child cannot be made. */
  method GiveUp(child: Result, kids: seq<Node>, free: seq<nat>) returns (r: Result, free': seq<nat>)
    ensures GivenUp(child, kids, free, r, free')
  {
    free' := free;
    if child.AssertFailed? {
      r := AssertFailed;
    } else if |kids| % 256 != 0 {
      var ok;
      ok, free' := FreeKids(kids, free);
      r := if ok then NoRequest else AssertFailed;
    } else {
      r := NoRequest;
    }
  }

  lemma {:induction false} ReverseSame(s: seq<nat>)
    ensures multiset(Reverse(s)) == multiset(s)
  {
    if s != [] {
      ReverseSame(s[1..]);
      assert s == [s[0]] + s[1..];
    }
  }

  /** Nothing is given back that was not taken. */
  lemma GivenUpAmong(child: Result, kids: seq<Node>, rest: seq<nat>, free: seq<nat>, r: Result, free': seq<nat>)
    requires !child.Built? && GivenUp(child, kids, rest, r, free') && Among(TopIds(kids) + rest, free)
    ensures !r.Built? && Among(free', free)
  {
    var k := Freeable(kids);
    hide Freeable, Reverse;
    ReverseSame(TopIds(kids[..k]));
    assert TopIds(kids) == TopIds(kids[..k]) + TopIds(kids[k..]);
  }

  /** The listed children give back what the pieces they stand for say. */
  lemma KidsFreed(io: Io, lba: nat, count: nat, free: seq<nat>, n: nat, kids: seq<Node>)
    requires io.ns.maxIo > 0 && Collected(io, lba, count, free, n, kids)
    requires forall j :: 0 <= j < n ==> 0 <= UsedAt(io, lba, count, j) < |free|
    ensures
      var k := |kids|;
      && Freeable(kids) == FirstTrue(BusyRun(io, lba, count, n - k, k))
      && TopIds(kids[..Freeable(kids)]) == Heads(io, lba, count, free, n - k, Freeable(kids))
  {
    hide UsedAt, Batch, BusyKids, BusyRun, Busy, BusyPiece, FirstTrue, KeptPiece;
    var k := |kids|;
    var b := BusyKids(kids);
    forall i | 0 <= i < k
      ensures b[i] == BusyRun(io, lba, count, n - k, k)[i] && 0 <= UsedAt(io, lba, count, n - k + i) < |free|
              && kids[i].id == free[UsedAt(io, lba, count, n - k + i)]
    {
      assert KidAt(io, lba, count, free, n - k + i, kids[i]);
      BusyKid(io, lba, count, n - k + i, kids[i]);
    }
    assert b == BusyRun(io, lba, count, n - k, k);
  }

  lemma BusyKid(io: Io, lba: nat, count: nat, j: nat, kid: Node)
    requires io.ns.maxIo > 0
    requires KeptPiece(io, CutOf(io.ns, lba, count), Cursor(lba, count, 0, 0), j, kid)
    ensures Busy(kid) <==> BusyPiece(io, lba, count, j)
  {
    var cut := CutOf(io.ns, lba, count);
    var d := After(io, cut, Cursor(lba, count, 0, 0), j);
    hide After, Piece, Pieces, Batch;
    BatchNext(Pieces(CutOf(io.ns, d.lba, Piece(cut, d)), d.lba, Piece(cut, d)));
  }

  lemma StuckHere(io: Io, lba: nat, count: nat, free: seq<nat>, c: Cursor, n: nat, kids: seq<Node>,
                  rest: seq<nat>, rest': seq<nat>, r: Result, free': seq<nat>)
    requires io.ns.maxIo > 0 && c.left > 0 && InLoop(io, lba, count, free, c, n, kids, rest)
    requires Need(io.ns, c.lba, Piece(CutOf(io.ns, lba, count), c)) > |rest| && rest' == PieceBack(rest)
    requires GivenUp(NoRequest, kids, rest', r, free')
    ensures StuckAt(io, lba, count, free, n, r, free')
  {
    hide After, Piece, Need, NeedRun, CutOf, Used, Countable, Collected, TopIds, Reverse, PieceBack, BusyRun, IdsOf, Among, Heads,
         Freeable, Batch;
    FlatAll(io, lba, count, c, n);
    hide UsedAt;
    CollectedNumber(io, lba, count, free, n, kids);
    BatchNext(n);
    KidsFreed(io, lba, count, free, n, kids);
    BatchSmall(n);
  }

  lemma BatchSmall(n: nat)
    ensures n % 256 != 0 ==> Batch(n) == n % 256
  {
  }

  /** In a flat split that is all of the latest children. */
  lemma FlatStuck(io: Io, lba: nat, count: nat, free: seq<nat>, m: nat, r: Result, free': seq<nat>)
    requires io.ns.maxIo > 0 && Splits(io.ns, lba, count) && Flat(io.ns, lba, count)
    requires StuckAt(io, lba, count, free, m, r, free')
    ensures r == NoRequest && free' == Reverse(LastBatch(free))
  {
    hide After, Piece, Need, NeedRun, CutOf, Used, BusyPiece, Pieces, Splits, Flat, UsedAt;
    SplitStep(io.ns, lba, count);
    PiecesPassed(io, CutOf(io.ns, lba, count), Cursor(lba, count, 0, 0), m);
    FlatUsed(io, lba, count, m);
    NeedPiece(io, lba, count, m);
    assert m == |free| && PieceBack(free[m..]) == [];
    if m % 256 != 0 {
      var k := m % 256;
      forall i | m - k <= i < m ensures !BusyPiece(io, lba, count, i) && UsedAt(io, lba, count, i) == i {
        FlatUsed(io, lba, count, i);
        FlatIdle(io, lba, count, i);
      }
      assert Heads(io, lba, count, free, m - k, k) == LastBatch(free);
    }
  }

  lemma FlatIdle(io: Io, lba: nat, count: nat, j: nat)
    requires io.ns.maxIo > 0 && Splits(io.ns, lba, count) && Flat(io.ns, lba, count)
    requires j < Pieces(CutOf(io.ns, lba, count), lba, count)
    ensures !BusyPiece(io, lba, count, j)
  {
    PiecesPassed(io, CutOf(io.ns, lba, count), Cursor(lba, count, 0, 0), j);
    FlatPiece(io, lba, count, j);
  }

  lemma SplitGivenUp(io: Io, lba: nat, count: nat, id: nat, free: seq<nat>, c: Cursor, n: nat, kids: seq<Node>,
                     rest: seq<nat>, child: Result, rest': seq<nat>, r: Result, free': seq<nat>)
    requires io.ns.maxIo > 0 && Splits(io.ns, lba, count) && c.left > 0 && io.flags % 65536 == 0 && !child.Built?
    requires InLoop(io, lba, count, free, c, n, kids, rest)
    requires RwSpec(io, c.lba, Piece(CutOf(io.ns, lba, count), c), rest, child, rest')
    requires GivenUp(child, kids, rest', r, free')
    ensures SplitSpec(io, lba, count, id, free, r, free')
  {
    hide After, Piece, Need, NeedRun, CutOf, Collected, Used, Kept, Ids, IdsOf, Countable, RwSpec, Flat, GivenUp, TopIds, StuckAt,
         UsedAt, Splits;
    SplitStuck(io, lba, count, free, c, n, rest, child, rest');
    AmongMore(TopIds(kids), rest', rest, free);
    GivenUpAmong(child, kids, rest', free, r, free');
    StuckHere(io, lba, count, free, c, n, kids, rest, rest', r, free');
    if Flat(io.ns, lba, count) {
      FlatStuck(io, lba, count, free, n, r, free');
    }
  }

  lemma AmongMore(a: seq<nat>, b: seq<nat>, b': seq<nat>, c: seq<nat>)
    requires Among(b, b') && Among(a + b', c)
    ensures Among(a + b, c)
  {
  }

  method NextPiece(io: Io, lba: nat, count: nat, step: nat, mask: nat, c: Cursor) returns (m: nat)
    requires LimitsOk(io.ns) && Splits(io.ns, lba, count)
    requires
      var cut := CutOf(io.ns, lba, count);
      step == cut.step && mask == if cut.aligned then step - 1 else 0
    ensures m == Piece(CutOf(io.ns, lba, count), c)
  {
    if mask != 0 {
      StripeMask(io.ns, c.lba);
    }
    m := Min(c.left, step - And(c.lba, mask));
  }

  /** _nvme_ns_split_request */
  method SplitRequest(io: Io, lba: nat, count: nat, step: nat, mask: nat, id: nat, free: seq<nat>)
      returns (r: Result, free': seq<nat>)
    requires LimitsOk(io.ns) && Splits(io.ns, lba, count) && io.flags % 65536 == 0
    requires
      var cut := CutOf(io.ns, lba, count);
      step == cut.step && mask == if cut.aligned then step - 1 else 0
    ensures SplitSpec(io, lba, count, id, free, r, free')
    decreases count, 0
  {
    hide *;
    LimitsPositive(io.ns);
    SplitStep(io.ns, lba, count);
    var kids := [];
    free' := free;
    var c := Cursor(lba, count, 0, 0);
    ghost var n := 0;
    InLoopStart(io, lba, count, free);
    while c.left > 0
      invariant InLoop(io, lba, count, free, c, n, kids, free')
      invariant n == 0 || After(io, CutOf(io.ns, lba, count), Cursor(lba, count, 0, 0), n - 1).left > 0
      decreases c.left
    {
      var m := NextPiece(io, lba, count, step, mask, c);
      ShorterPiece(io, lba, count, free, c, n, kids, free');
      ghost var rest := free';
      var child;
      child, free' := Rw(io, c.lba, m, free');
      if !child.Built? {
        ghost var rest' := free';
        r, free' := GiveUp(child, kids, free');
        SplitGivenUp(io, lba, count, id, free, c, n, kids, rest, child, rest', r, free');
        return;
      }
      LoopCursor(io, lba, count, free, c, n, kids, rest);
      InLoopNext(io, lba, count, free, c, n, kids, rest, child, free');
      kids := AddKid(kids, Placed(io, child.node, c));
      NextLeft(io, c, m);
      c := Next(io, c, m);
      n := n + 1;
    }
    r := Built(Parent(id, ByteOffset(count, SectorBytes(io)), 0, 0, kids));
    SplitBuilt(io, lba, count, id, free, c, n, kids, free');
  }

  lemma LoopCursor(io: Io, lba: nat, count: nat, free: seq<nat>, c: Cursor, n: nat, kids: seq<Node>, rest: seq<nat>)
    requires io.ns.maxIo > 0 && InLoop(io, lba, count, free, c, n, kids, rest)
    ensures After(io, CutOf(io.ns, lba, count), Cursor(lba, count, 0, 0), n) == c
  {
  }

  lemma LimitsPositive(ns: Namespace)
    requires LimitsOk(ns)
    ensures ns.maxIo > 0
  {
  }

  lemma NextLeft(io: Io, c: Cursor, m: nat)
    requires m <= c.left
    ensures Next(io, c, m).left == c.left - m
  {
  }

  lemma ShorterPiece(io: Io, lba: nat, count: nat, free: seq<nat>, c: Cursor, n: nat, kids: seq<Node>, rest: seq<nat>)
    requires io.ns.maxIo > 0 && Splits(io.ns, lba, count) && InLoop(io, lba, count, free, c, n, kids, rest)
    ensures Piece(CutOf(io.ns, lba, count), c) < count
  {
    PieceInside(io, lba, count, n);
  }

  lemma RwSplit(io: Io, lba: nat, count: nat, free: seq<nat>, r: Result, free': seq<nat>)
    requires io.ns.maxIo > 0 && Splits(io.ns, lba, count) && io.flags % 65536 == 0 && free != []
    requires SplitSpec(io, lba, count, free[0], free[1..], r, free')
    ensures RwSpec(io, lba, count, free, r, free')
  {
    hide Need, NeedRun, CutOf, Countable, Kept, Ids, Flat, Splits, StuckAt, Latest, Reverse, LastBatch, TopIds;
    SplitStep(io.ns, lba, count);
    NeedSplit(io.ns, lba, count);
    var need := NeedRun(io.ns, CutOf(io.ns, lba, count), lba, count);
    if need <= |free[1..]| {
      assert free[1..][need..] == free[1 + need..];
      assert free[1..][..need] == free[1..1 + need];
      assert [free[0]] + free[1..][..need] == free[..1 + need];
    }
  }

  /** _nvme_ns_rw */
  method Rw(io: Io, lba: nat, count: nat, free: seq<nat>) returns (r: Result, free': seq<nat>)
    requires LimitsOk(io.ns)
    ensures RwSpec(io, lba, count, free, r, free')
    decreases count, 1
  {
    if io.flags % 65536 != 0 || free == [] {
      return NoRequest, free;
    }
    var id, size := free[0], ByteOffset(count, SectorBytes(io));
    free' := free[1..];
    if io.ns.stripe > 0 {
      StripeMask(io.ns, lba);
    }
    if io.ns.stripe > 0 && And(lba, io.ns.stripe - 1) + count > io.ns.stripe {
      r, free' := SplitRequest(io, lba, count, io.ns.stripe, io.ns.stripe - 1, id, free');
      RwSplit(io, lba, count, free, r, free');
    } else if count > io.ns.maxIo {
      r, free' := SplitRequest(io, lba, count, io.ns.maxIo, 0, id, free');
      RwSplit(io, lba, count, free, r, free');
    } else {
      r := Built(Command(id, size, 0, 0, lba, count, Or((count + U32 - 1) % U32, io.flags)));
    }
  }

  /** What a built request means for the controller and for the pool.  Its commands
      tile the I/O, under parents whose counters are right, exactly when the I/O
      is countable; then each part has one request from the front of the free
      list, and none is used twice.  A flat split leaves the latest pieces. */
  lemma RwMeaning(io: Io, lba: nat, count: nat, free: seq<nat>, r: Result, free': seq<nat>)
    requires io.ns.maxIo > 0 && count > 0 && io.flags % 65536 == 0
    requires RwSpec(io, lba, count, free, r, free') && r.Built?
    ensures Tiles(Leaves(r.node), lba, count) && Narrow(r.node) <==> Countable(io.ns, lba, count)
    ensures Within(r.node, 2) && forall l :: l in Leaves(r.node) ==> LeafOk(io, l)
    ensures io.ns.maxIo <= 65536 ==> forall l :: l in Leaves(r.node) ==> l.Command? && Nlb(l.cdw12) == l.blocks
    ensures Countable(io.ns, lba, count) ==> Ids(r.node) + free' == free
    ensures Countable(io.ns, lba, count) && !Nested(io.ns, lba, count) ==> Right(io, r.node, lba)
  {
    hide Need, Spans, Exact, Kept, Or, And, LeafOk, Ids, Right, Nested, Countable, Narrow, Tiles, Within, Flat, Latest;
    TiledExactly(io, r.node, lba, count, 0, 0);
    KeptLeaves(io, r.node, lba, count, 0, 0);
    if Countable(io.ns, lba, count) && !Nested(io.ns, lba, count) {
      KeptExact(io, r.node, lba, count, 0, 0);
      UnnestedRight(io, r.node, lba, count);
    }
    if io.ns.maxIo <= 65536 {
      forall l | l in Leaves(r.node) ensures l.Command? && Nlb(l.cdw12) == l.blocks {
        LeafDecodes(io, l);
        LeafCommand(io, l);
      }
    }
  }

  lemma LeafCommand(io: Io, l: Node)
    requires LeafOk(io, l)
    ensures l.Command?
  {
  }

  /** Of a flat split of n pieces the last (n - 1) % 256 + 1 remain, as commands
      that tile the sectors from there on, with the last requests taken. */
  lemma RwFlat(io: Io, lba: nat, count: nat, free: seq<nat>, r: Result, free': seq<nat>)
    requires io.ns.maxIo > 0 && io.flags % 65536 == 0 && Splits(io.ns, lba, count) && Flat(io.ns, lba, count)
    requires RwSpec(io, lba, count, free, r, free') && r.Built?
    ensures
      var cut := CutOf(io.ns, lba, count);
      var n := Pieces(cut, lba, count);
      var d := After(io, cut, Cursor(lba, count, 0, 0), n - Batch(n));
      && n == Steps(Before(cut, lba) + count, cut.step)
      && Need(io.ns, lba, count) == n + 1 <= |free|
      && TopIds(r.node.children) == free[n + 1 - Batch(n)..n + 1] && free' == free[n + 1..]
      && d.left > 0 && Tiles(Leaves(r.node), d.lba, d.left)
      && (Tiles(Leaves(r.node), lba, count) <==> n <= 256)
  {
    hide After, Piece, CutOf, Need, NeedRun, Pieces, Flat, Kept, Splits, Countable, Ids, Tiles, Leaves;
    SplitStep(io.ns, lba, count);
    var cut, c := CutOf(io.ns, lba, count), Cursor(lba, count, 0, 0);
    var n := Pieces(cut, lba, count);
    SplitsSome(io.ns, lba, count);
    PiecesClosed(cut, lba, count);
    NeedSplit(io.ns, lba, count);
    FlatNeed(io, lba, count);
    KeptParent(io, r.node, lba, count);
    FlatLeft(io, r.node, lba, count, 0, 0);
    assert free[1..n + 1][n - Batch(n)..] == free[n + 1 - Batch(n)..n + 1];
    BatchNext(n);
    var d := After(io, cut, c, n - Batch(n));
    if n <= 256 {
      AfterNone(io, cut, c);
    } else {
      Moving(io, cut, c, n - Batch(n));
      TiledFrom(Leaves(r.node), d.lba, d.left, lba, count);
    }
  }

  lemma KeptParent(io: Io, node: Node, lba: nat, count: nat)
    requires io.ns.maxIo > 0 && Kept(io, node, lba, count, 0, 0)
    ensures node.Parent? <==> Splits(io.ns, lba, count)
  {
  }

  lemma FlatNeed(io: Io, lba: nat, count: nat)
    requires io.ns.maxIo > 0 && Splits(io.ns, lba, count) && Flat(io.ns, lba, count)
    ensures
      var cut := CutOf(io.ns, lba, count);
      NeedRun(io.ns, cut, lba, count) == Pieces(cut, lba, count)
  {
    hide After, Piece, CutOf, Pieces, Flat, Splits;
    SplitStep(io.ns, lba, count);
    var cut, c := CutOf(io.ns, lba, count), Cursor(lba, count, 0, 0);
    var n := Pieces(cut, lba, count);
    PiecesPassed(io, cut, c, n);
    FlatUsed(io, lba, count, n);
  }

  lemma TiledFrom(leaves: seq<Node>, a: nat, n: nat, b: nat, m: nat)
    requires Tiles(leaves, a, n) && n > 0 && a != b
    ensures !Tiles(leaves, b, m)
  {
  }

  /** Two sectors in commands of one, and a pool of one request: it is lost. */
  lemma LostExample(r: Result, free': seq<nat>)
    requires RwSpec(Io(Namespace(512, 0, 1, 0, false, false), 0, false), 0, 2, [7], r, free')
    ensures r == NoRequest && free' == []
  {
    hide Kept, StuckAt;
    assert [7][1..] == [];
  }

  /** 512-byte sectors, 128 KiB transfers, no stripes. */
  const PLAIN := Io(Namespace(512, 0, 256, 0, false, false), 0, false)

  /** A read of 257 pieces keeps one child, which asks for the last 256 of its
      65792 sectors, and 256 requests are lost. */
  lemma WrapExample(free: seq<nat>, r: Result, free': seq<nat>)
    requires |free| >= 258 && RwSpec(PLAIN, 0, 65792, free, r, free')
    ensures r.Built? && r.node.Parent? && TopIds(r.node.children) == [free[257]] && free' == free[258..]
    ensures Tiles(Leaves(r.node), 65536, 256)
    ensures !Countable(PLAIN.ns, 0, 65792) && !Tiles(Leaves(r.node), 0, 65792)
  {
    hide Kept, Need, Tiles, Leaves, StuckAt, Pieces, After, Ids;
    assert Need(PLAIN.ns, 0, 65792) == 258 by { NeedPlain(65792); }
    RwFlat(PLAIN, 0, 65792, free, r, free');
    LeftFrom(PLAIN, 0, 65792, 256);
    assert free[257..258] == [free[257]];
    KeptParent(PLAIN, r.node, 0, 65792);
  }

  lemma NeedPlain(count: nat)
    requires count > 256
    ensures Need(PLAIN.ns, 0, count) == 1 + (count + 255) / 256
  {
  }

  /** A read of 256 pieces lists them all, but the counter that says so is 0. */
  lemma WrapToZero(free: seq<nat>, r: Result, free': seq<nat>)
    requires |free| >= 257 && RwSpec(PLAIN, 0, 65536, free, r, free')
    ensures r.Built? && r.node.Parent? && |r.node.children| == 256 && !Busy(r.node)
    ensures Tiles(Leaves(r.node), 0, 65536) && !Narrow(r.node) && !Countable(PLAIN.ns, 0, 65536)
  {
    hide Kept, Need, Tiles, Leaves, StuckAt, Pieces, After, Ids;
    assert Need(PLAIN.ns, 0, 65536) == 257 by { NeedPlain(65536); }
    RwFlat(PLAIN, 0, 65536, free, r, free');
    KeptParent(PLAIN, r.node, 0, 65536);
  }

  /** An I/O that fails gives everything back only when it had taken nothing: its
      own request never returns to the pool. */
  lemma RwConserves(io: Io, lba: nat, count: nat, free: seq<nat>, r: Result, free': seq<nat>)
    requires io.ns.maxIo > 0 && RwSpec(io, lba, count, free, r, free') && !r.Built?
    ensures multiset(free') == multiset(free) <==> io.flags % 65536 != 0 || free == []
    ensures io.flags % 65536 == 0 && free != [] && NoDup(free) ==> free[0] !in free'
  {
    hide Need, Kept, Countable, Flat, Ids, Reverse, Splits, StuckAt;
    if io.flags % 65536 == 0 && free != [] {
      assert free == [free[0]] + free[1..];
      assert multiset(free)[free[0]] == 1 + multiset(free[1..])[free[0]];
      if NoDup(free) {
        assert free[0] !in free[1..];
      }
    }
  }
}
