/** Submitting a split request: nvme_qpair_submit_request walks the tree of
    children and submits every leaf in order. */
module SplitSubmit {
  import opened Lists
  import opened Requests
  import opened Qpair
  import opened Drain

  /** Give the request its place in the acceptance order. */
  function Accept(c: Core, r: nat): Core
    requires r < |c.seqno|
  {
    c.(seqno := c.seqno[r := c.nextSeq], nextSeq := c.nextSeq + 1)
  }

  /** An unsplit request in the driver's hands, whose parent, if any, waits. */
  ghost predicate LeafAt(p: Pool, r: nat)
    requires Shape(p)
  {
    && r < |p.reqs|
    && p.hist[r].place == Held
    && p.reqs[r].children == []
    && p.hist[r].nkids == 0
    && (p.reqs[r].cb.ToParent? ==>
          p.reqs[r].cb.parent < |p.reqs| && p.hist[p.reqs[r].cb.parent].place == Awaiting)
  }

  lemma AcceptFifo(c: Core, r: nat)
    requires Shape(c.pool) && QueueInv(c) && FifoInv(c) && RingInv(c) && r < |c.pool.reqs|
    requires c.pool.hist[r].place == Held
    ensures QueueInv(Accept(c, r)) && FifoInv(Accept(c, r)) && RingInv(Accept(c, r))
    ensures Youngest(Accept(c, r), r)
  {
    QueueFrame(c, Accept(c, r));
    RingFrame(c, Accept(c, r));
  }

  lemma AcceptInv(c: Core, r: nat)
    requires CoreInv(c) && LeafAt(c.pool, r)
    ensures Staged(Accept(c, r), r) && Youngest(Accept(c, r), r)
  {
    var c' := Accept(c, r);
    AcceptFifo(c, r);
    TrackFrame(c, c');
    assert TreeAt(c.pool, r);
    if c.pool.reqs[r].cb.ToParent? {
      assert TreeAt(c.pool, c.pool.reqs[r].cb.parent);
    }
  }

  ghost predicate SubmitPre(c: Core) {
    && CoreInv(c) && Room(c, 0) && WorkConserving(c)
    && !c.failed && (c.enabled ==> !c.resetting)
  }

  lemma AcceptedLeafPre(c: Core, r: nat)
    requires SubmitPre(c) && LeafAt(c.pool, r)
    ensures LeafPre(Accept(c, r), r)
  {
    AcceptInv(c, r);
  }

  /** Only `r` moved, to the queue or to a tracker. */
  ghost predicate LeafMoved(p: Pool, p': Pool, r: nat)
    requires Shape(p) && r < |p.reqs|
  {
    && Shape(p') && |p'.reqs| == |p.reqs|
    && p'.slot == p.slot && p'.ended == p.ended
    && Waiting(p'.hist[r].place)
    && p'.hist[r] == p.hist[r].(place := p'.hist[r].place)
    && p'.reqs[r] == p.reqs[r].(cid := p'.reqs[r].cid)
    && (forall y :: 0 <= y < |p.reqs| && y != r ==> p'.hist[y] == p.hist[y] && p'.reqs[y] == p.reqs[y])
  }

  /** An accepted request is put on the ring when there is a tracker, else queued. */
  lemma LeafSubmitted(c: Core, r: nat)
    requires SubmitPre(c) && LeafAt(c.pool, r) && c.pool.reqs[r].accept
    ensures LeafPre(Accept(c, r), r)
    ensures SubmitPre(SubmitLeaf(Accept(c, r), r))
    ensures LeafMoved(c.pool, SubmitLeaf(Accept(c, r), r).pool, r)
    ensures Flow(c, SubmitLeaf(Accept(c, r), r), multiset{})
  {
    AcceptedLeafPre(c, r);
    var c1 := Accept(c, r);
    var c' := SubmitLeaf(c1, r);
    SubmitLeafWork(c1, r);
    FlowSame(c, c1);
    SubmitLeafFlow(c1, r);
    FlowTrans(c, c1, c', multiset{}, multiset{});
  }

  // -------------------------------------------------------------------- trees

  /** `y` is `r`, a child of `r`, or a grandchild of `r`. */
  predicate Under(p: Pool, y: nat, r: nat)
    requires y < |p.reqs|
  {
    || y == r
    || (p.reqs[y].cb.ToParent? && p.reqs[y].cb.parent == r)
    || (p.reqs[y].cb.ToParent? && p.reqs[y].cb.parent < |p.reqs|
        && p.reqs[p.reqs[y].cb.parent].cb == ToParent(r))
  }

  /** The tree below `r` is built and nothing of it has been submitted. */
  ghost predicate TreeReady(p: Pool, r: nat)
    requires Shape(p)
  {
    && r < |p.reqs| && InTree(p.hist[r].place)
    && p.reqs[r].cb.ToParent?
    && p.reqs[r].cb.parent < |p.reqs| && p.hist[p.reqs[r].cb.parent].place == Awaiting
    && (forall y :: 0 <= y < |p.reqs| && Under(p, y, r) && InTree(p.hist[y].place) ==>
          if p.reqs[y].children == [] then p.hist[y].place == Held && p.hist[y].nkids == 0
          else p.hist[y].place == Awaiting)
  }

  ghost function Tree(p: Pool, r: nat): set<nat>
    requires Shape(p)
  {
    set y | 0 <= y < |p.reqs| && InTree(p.hist[y].place) && Under(p, y, r)
  }

  ghost function Forest(p: Pool, kids: seq<nat>): set<nat>
    requires Shape(p)
  {
    if kids == [] then {} else Tree(p, kids[0]) + Forest(p, kids[1..])
  }

  /** Outside `s` nothing changed; inside, only places and command identifiers
      did, and no request is left unsubmitted. */
  ghost predicate Moved(p: Pool, p': Pool, s: set<nat>)
    requires Shape(p)
  {
    && Shape(p') && |p'.reqs| == |p.reqs|
    && p'.slot == p.slot && p'.ended == p.ended
    && (forall y :: 0 <= y < |p.reqs| && y !in s ==> p'.hist[y] == p.hist[y] && p'.reqs[y] == p.reqs[y])
    && (forall y :: 0 <= y < |p.reqs| && y in s ==>
          && InTree(p.hist[y].place)
          && p'.hist[y] == p.hist[y].(place := p'.hist[y].place)
          && p'.reqs[y] == p.reqs[y].(cid := p'.reqs[y].cid)
          && Submitted(p'.hist[y].place)
          && (p.hist[y].place == Awaiting ==> p'.hist[y].place == Awaiting))
  }

  lemma MovedTrans(p: Pool, p1: Pool, p2: Pool, s: set<nat>, t: set<nat>)
    requires Shape(p) && Moved(p, p1, s) && Moved(p1, p2, t) && s !! t
    ensures Moved(p, p2, s + t)
  {
  }

  /** Trees do not depend on what Moved changes. */
  lemma MovedTree(p: Pool, p': Pool, s: set<nat>, r: nat)
    requires Shape(p) && Moved(p, p', s)
    ensures Tree(p', r) == Tree(p, r)
  {
  }

  lemma {:induction false} MovedForest(p: Pool, p': Pool, s: set<nat>, kids: seq<nat>)
    requires Shape(p) && Moved(p, p', s)
    ensures Forest(p', kids) == Forest(p, kids)
  {
    if kids != [] {
      MovedTree(p, p', s, kids[0]);
      MovedForest(p, p', s, kids[1..]);
    }
  }

  /** The trees of two siblings have nothing in common. */
  lemma UnderDisjoint(p: Pool, y: nat, j: nat, k: nat)
    requires PoolInv(p) && y < |p.reqs| && j < |p.reqs| && k < |p.reqs| && j != k
    requires InTree(p.hist[y].place) && InTree(p.hist[j].place) && InTree(p.hist[k].place)
    requires p.reqs[j].cb.ToParent? && p.reqs[k].cb == p.reqs[j].cb
    ensures !(Under(p, y, j) && Under(p, y, k))
  {
    var q := p.reqs[j].cb.parent;
    assert TreeAt(p, j) && TreeAt(p, k) && TreeAt(p, q);
    assert ChildLink(p, q, j) && ChildLink(p, q, k);
    if p.reqs[q].cb.ToParent? {
      assert TreeAt(p, p.reqs[q].cb.parent);
      assert ChildLink(p, p.reqs[q].cb.parent, q);
    }
  }

  ghost predicate KidsPre(c: Core, q: nat, kids: seq<nat>) {
    && SubmitPre(c)
    && q < |c.pool.reqs| && TreeAt(c.pool, q) && c.pool.hist[q].place == Awaiting
    && NoDup(kids)
    && (forall i :: 0 <= i < |kids| ==> kids[i] in c.pool.reqs[q].children && TreeReady(c.pool, kids[i]))
  }

  lemma SiblingTrees(p: Pool, j: nat, k: nat)
    requires PoolInv(p) && j < |p.reqs| && k < |p.reqs| && j != k
    requires InTree(p.hist[j].place) && InTree(p.hist[k].place)
    requires p.reqs[j].cb.ToParent? && p.reqs[k].cb == p.reqs[j].cb
    ensures Tree(p, j) !! Tree(p, k)
  {
    forall y | y in Tree(p, j) ensures y !in Tree(p, k) {
      UnderDisjoint(p, y, j, k);
    }
  }

  lemma {:induction false} SiblingForest(p: Pool, q: nat, k: nat, kids: seq<nat>)
    requires PoolInv(p) && q < |p.reqs| && k < |p.reqs| && k !in kids
    requires InTree(p.hist[k].place) && p.reqs[k].cb == ToParent(q)
    requires forall i :: 0 <= i < |kids| ==> kids[i] < |p.reqs| && InTree(p.hist[kids[i]].place) && p.reqs[kids[i]].cb == ToParent(q)
    ensures Tree(p, k) !! Forest(p, kids)
  {
    if kids != [] {
      SiblingTrees(p, k, kids[0]);
      SiblingForest(p, q, k, kids[1..]);
    }
  }

  /** Moving one sibling's tree leaves the other siblings ready. */
  lemma TreeReadyFrame(p: Pool, p': Pool, j: nat, k: nat)
    requires PoolInv(p) && TreeReady(p, j) && TreeReady(p, k) && j != k && p.reqs[j].cb == p.reqs[k].cb
    requires Moved(p, p', Tree(p, j))
    ensures TreeReady(p', k)
  {
    SiblingTrees(p, j, k);
    forall y | 0 <= y < |p'.reqs| && Under(p', y, k) && InTree(p'.hist[y].place)
      ensures if p'.reqs[y].children == [] then p'.hist[y].place == Held && p'.hist[y].nkids == 0
              else p'.hist[y].place == Awaiting
    {
      assert y in Tree(p, k);
    }
  }

  lemma {:induction false} ForestMember(p: Pool, kids: seq<nat>, y: nat)
    requires Shape(p)
    ensures y in Forest(p, kids) <==> exists i :: 0 <= i < |kids| && y in Tree(p, kids[i])
  {
    if kids != [] {
      ForestMember(p, kids[1..], y);
      if exists i :: 0 <= i < |kids[1..]| && y in Tree(p, kids[1..][i]) {
        var i :| 0 <= i < |kids[1..]| && y in Tree(p, kids[1..][i]);
        assert y in Tree(p, kids[i + 1]);
      }
      if exists i :: 0 <= i < |kids| && y in Tree(p, kids[i]) {
        var i :| 0 <= i < |kids| && y in Tree(p, kids[i]);
        if i > 0 {
          assert kids[1..][i - 1] == kids[i];
        }
      }
    }
  }

  lemma ParentHigher(p: Pool, y: nat)
    requires PoolInv(p) && y < |p.reqs| && InTree(p.hist[y].place)
    ensures p.reqs[y].cb.ToParent? ==>
      var z := p.reqs[y].cb.parent;
      z < |p.reqs| && InTree(p.hist[z].place) && p.hist[y].height < p.hist[z].height <= MAX_HEIGHT
  {
    assert TreeAt(p, y);
    if p.reqs[y].cb.ToParent? {
      assert TreeAt(p, p.reqs[y].cb.parent) && ChildLink(p, p.reqs[y].cb.parent, y);
    }
  }

  /** Below a request there are at most two generations. */
  lemma TreeStep(p: Pool, k: nat, y: nat)
    requires PoolInv(p) && k < |p.reqs| && InTree(p.hist[k].place) && y < |p.reqs| && InTree(p.hist[y].place)
    ensures Under(p, y, k) && y != k ==> exists i :: 0 <= i < |p.reqs[k].children| && Under(p, y, p.reqs[k].children[i])
    ensures forall i :: 0 <= i < |p.reqs[k].children| && Under(p, y, p.reqs[k].children[i]) ==> Under(p, y, k)
  {
    assert TreeAt(p, k) && TreeAt(p, y);
    if p.reqs[y].cb.ToParent? {
      var z := p.reqs[y].cb.parent;
      assert TreeAt(p, z) && ChildLink(p, z, y);
      if p.reqs[z].cb.ToParent? {
        var w := p.reqs[z].cb.parent;
        assert TreeAt(p, w) && ChildLink(p, w, z);
        ParentHigher(p, w);
      }
      if Under(p, y, k) && y != k {
        var m := if z == k then y else z;
        assert m in p.reqs[k].children;
        var i :| 0 <= i < |p.reqs[k].children| && p.reqs[k].children[i] == m;
        assert Under(p, y, p.reqs[k].children[i]);
      }
    }
    forall i | 0 <= i < |p.reqs[k].children| && Under(p, y, p.reqs[k].children[i]) ensures Under(p, y, k) {
      assert ChildLink(p, k, p.reqs[k].children[i]);
    }
  }

  /** The tree of a split request is the request and the trees of its children. */
  lemma TreeOfParent(p: Pool, k: nat)
    requires PoolInv(p) && k < |p.reqs| && InTree(p.hist[k].place)
    ensures Tree(p, k) == {k} + Forest(p, p.reqs[k].children)
  {
    forall y: nat ensures y in Tree(p, k) <==> y == k || y in Forest(p, p.reqs[k].children) {
      ForestMember(p, p.reqs[k].children, y);
      if y < |p.reqs| && InTree(p.hist[y].place) {
        TreeStep(p, k, y);
      }
    }
  }

  // -------------------------------------------------------- submitting a tree

  ghost predicate ChildPre(c: Core, k: nat) {
    SubmitPre(c) && TreeReady(c.pool, k)
  }

  ghost predicate SubmitPost(c: Core, c': Core, s: set<nat>) {
    SubmitPre(c') && Shape(c.pool) && Moved(c.pool, c'.pool, s) && Flow(c, c', multiset{})
  }

  lemma ChildIsLeaf(c: Core, k: nat)
    requires ChildPre(c, k) && c.pool.reqs[k].children == []
    ensures LeafAt(c.pool, k) && LeafPre(Accept(c, k), k)
    ensures SubmitPost(c, SubmitLeaf(Accept(c, k), k), Tree(c.pool, k))
  {
    assert Under(c.pool, k, k);
    LeafSubmitted(c, k);
    TreeOfParent(c.pool, k);
    LeafIsMoved(c.pool, SubmitLeaf(Accept(c, k), k).pool, k);
  }

  lemma LeafIsMoved(p: Pool, p': Pool, k: nat)
    requires Shape(p) && LeafAt(p, k) && LeafMoved(p, p', k)
    requires Tree(p, k) == {k} + Forest(p, [])
    ensures Moved(p, p', Tree(p, k))
  {
  }

  lemma ChildIsParent(c: Core, k: nat)
    requires ChildPre(c, k) && c.pool.reqs[k].children != []
    ensures KidsPre(c, k, c.pool.reqs[k].children)
  {
    var p := c.pool;
    assert TreeAt(p, k);
    assert Under(p, k, k);
    forall i | 0 <= i < |p.reqs[k].children| ensures TreeReady(p, p.reqs[k].children[i]) {
      var j := p.reqs[k].children[i];
      assert ChildLink(p, k, j);
      forall y | 0 <= y < |p.reqs| && Under(p, y, j) && InTree(p.hist[y].place)
        ensures if p.reqs[y].children == [] then p.hist[y].place == Held && p.hist[y].nkids == 0
                else p.hist[y].place == Awaiting
      {
        TreeStep(p, k, y);
      }
    }
  }

  lemma ParentMoved(c: Core, c': Core, k: nat)
    requires ChildPre(c, k) && c.pool.reqs[k].children != []
    requires SubmitPost(c, c', Forest(c.pool, c.pool.reqs[k].children))
    ensures SubmitPost(c, c', Tree(c.pool, k))
  {
    hide RingInv, FifoInv, TagInv, EndedInv, FreeInv, TrackInv;
    assert Under(c.pool, k, k);
    TreeOfParent(c.pool, k);
  }

  /** The state between two siblings of a split. */
  lemma NextSibling(c: Core, c1: Core, q: nat, kids: seq<nat>)
    requires KidsPre(c, q, kids) && kids != []
    requires SubmitPost(c, c1, Tree(c.pool, kids[0]))
    ensures KidsPre(c1, q, kids[1..])
    ensures c1.pool.hist[q].height == c.pool.hist[q].height
  {
    var p, p1 := c.pool, c1.pool;
    assert TreeAt(p1, q);
    hide TagInv, EndedInv, FreeInv, RingInv, TrackInv, KidsAccepted;
    forall i | 0 <= i < |kids[1..]| ensures kids[1..][i] in p1.reqs[q].children && TreeReady(p1, kids[1..][i]) {
      assert kids[1..][i] == kids[i + 1] && kids[0] != kids[i + 1];
      assert ChildLink(p, q, kids[0]) && ChildLink(p, q, kids[i + 1]);
      TreeReadyFrame(p, p1, kids[0], kids[i + 1]);
    }
  }

  lemma FirstAndRest(p: Pool, q: nat, kids: seq<nat>)
    requires PoolInv(p) && q < |p.reqs| && TreeAt(p, q) && InTree(p.hist[q].place)
    requires NoDup(kids) && kids != [] && forall i :: 0 <= i < |kids| ==> kids[i] in p.reqs[q].children
    ensures Tree(p, kids[0]) !! Forest(p, kids[1..])
  {
    assert ChildLink(p, q, kids[0]);
    forall i | 0 <= i < |kids[1..]|
      ensures kids[1..][i] < |p.reqs| && InTree(p.hist[kids[1..][i]].place) && p.reqs[kids[1..][i]].cb == ToParent(q)
    {
      assert kids[1..][i] == kids[i + 1];
      assert ChildLink(p, q, kids[i + 1]);
    }
    SiblingForest(p, q, kids[0], kids[1..]);
  }

  lemma JoinSiblings(c: Core, c1: Core, c': Core, kids: seq<nat>)
    requires Shape(c.pool) && Shape(c1.pool) && kids != [] && SubmitPre(c')
    requires Moved(c.pool, c1.pool, Tree(c.pool, kids[0])) && Flow(c, c1, multiset{})
    requires Moved(c1.pool, c'.pool, Forest(c1.pool, kids[1..])) && Flow(c1, c', multiset{})
    requires Tree(c.pool, kids[0]) !! Forest(c.pool, kids[1..])
    ensures SubmitPost(c, c', Forest(c.pool, kids))
  {
    MovedForest(c.pool, c1.pool, Tree(c.pool, kids[0]), kids[1..]);
    MovedTrans(c.pool, c1.pool, c'.pool, Tree(c.pool, kids[0]), Forest(c.pool, kids[1..]));
    FlowTrans(c, c1, c', multiset{}, multiset{});
  }

  ghost function SubmitChild(c: Core, k: nat): (c': Core)
    requires ChildPre(c, k)
    ensures SubmitPost(c, c', Tree(c.pool, k))
    decreases c.pool.hist[k].height, 1, 0
  {
    if c.pool.reqs[k].children == [] then
      ChildIsLeaf(c, k);
      SubmitLeaf(Accept(c, k), k)
    else
      ChildIsParent(c, k);
      var c' := SubmitKids(c, k, c.pool.reqs[k].children);
      ParentMoved(c, c', k);
      c'
  }

  /** The TAILQ_FOREACH_SAFE loop over the children of a split request. */
  ghost function SubmitKids(c: Core, q: nat, kids: seq<nat>): (c': Core)
    requires KidsPre(c, q, kids)
    ensures SubmitPost(c, c', Forest(c.pool, kids))
    decreases c.pool.hist[q].height, 0, |kids|
  {
    if kids == [] then
      FlowSame(c, c);
      c
    else
      assert ChildLink(c.pool, q, kids[0]);
      var c1 := SubmitChild(c, kids[0]);
      NextSibling(c, c1, q, kids);
      var c' := SubmitKids(c1, q, kids[1..]);
      FirstAndRest(c.pool, q, kids);
      JoinSiblings(c, c1, c', kids);
      c'
  }

  // ------------------------------------------------------ submitting a request

  /** From now on the parents of the tree wait for their children. */
  ghost function Park(p: Pool, r: nat): (q: Pool)
    requires Shape(p)
    ensures Shape(q) && |q.reqs| == |p.reqs|
  {
    p.(hist := seq(|p.hist|, y requires 0 <= y < |p.hist| =>
        if InTree(p.hist[y].place) && Under(p, y, r) && p.reqs[y].children != []
        then p.hist[y].(place := Awaiting) else p.hist[y]))
  }

  lemma ParkInv(p: Pool, r: nat)
    requires PoolInv(p) && IsRoot(p, r)
    ensures PoolInv(Park(p, r))
  {
    var q := Park(p, r);
    LogFrame(p, q);
    hide LogInv;
    forall y | 0 <= y < |p.reqs| ensures TreeAt(q, y) {
      assert TreeAt(p, y);
      ParkTreeAt(p, r, y);
    }
    assert forall t: nat :: HasEnded(p, t) <==> HasEnded(q, t);
  }

  lemma ParkTreeAt(p: Pool, r: nat, y: nat)
    requires PoolInv(p) && IsRoot(p, r) && y < |p.reqs| && TreeAt(p, y)
    ensures TreeAt(Park(p, r), y)
  {
    var q := Park(p, r);
    forall k | k in p.reqs[y].children && InTree(p.hist[y].place) ensures ChildLink(q, y, k) {
      assert ChildLink(p, y, k);
    }
    if InTree(p.hist[y].place) && p.reqs[y].cb.ToParent? {
      var z := p.reqs[y].cb.parent;
      assert TreeAt(p, z) && ChildLink(p, z, y);
      if p.reqs[z].cb.ToParent? {
        assert TreeAt(p, p.reqs[z].cb.parent) && ChildLink(p, p.reqs[z].cb.parent, z);
      }
    }
  }

  /** A parent in the caller's hands has all its tree there. */
  lemma HeldTree(p: Pool, r: nat, y: nat)
    requires PoolInv(p) && IsRoot(p, r) && y < |p.reqs| && InTree(p.hist[y].place) && Under(p, y, r)
    ensures p.hist[y].place == Held
  {
    assert TreeAt(p, y);
    if y != r {
      assert TreeAt(p, p.reqs[y].cb.parent);
    }
  }

  /** No callback is running, and requests in the caller's hands have had no
      child finish. */
  ghost predicate HeldUnanswered(p: Pool)
    requires Shape(p)
  {
    forall r :: 0 <= r < |p.reqs| ==>
      p.hist[r].place != Ending && (p.hist[r].place == Held ==> p.hist[r].kids == [])
  }

  lemma ParkPlaces(p: Pool, r: nat)
    requires PoolInv(p) && IsRoot(p, r)
    ensures forall y :: 0 <= y < |p.reqs| ==>
              || Park(p, r).hist[y] == p.hist[y]
              || (p.hist[y].place == Held && Park(p, r).hist[y] == p.hist[y].(place := Awaiting))
  {
    forall y | 0 <= y < |p.reqs| && Park(p, r).hist[y] != p.hist[y] ensures p.hist[y].place == Held {
      HeldTree(p, r, y);
    }
  }

  lemma ParkCore(c: Core, r: nat)
    requires CoreInv(c) && IsRoot(c.pool, r)
    ensures CoreInv(c.(pool := Park(c.pool, r)))
  {
    var c1 := c.(pool := Park(c.pool, r));
    ParkInv(c.pool, r);
    ParkPlaces(c.pool, r);
    TrackFrame(c, c1);
    QueueFrame(c, c1);
    RingFrame(c, c1);
  }

  lemma ParkedKids(c: Core, r: nat)
    requires SubmitPre(c) && IsRoot(c.pool, r) && c.pool.reqs[r].children != [] && HeldUnanswered(c.pool)
    ensures KidsPre(c.(pool := Park(c.pool, r)), r, c.pool.reqs[r].children)
  {
    var p, q := c.pool, Park(c.pool, r);
    ParkCore(c, r);
    assert TreeAt(p, r) && TreeAt(q, r);
    forall i | 0 <= i < |p.reqs[r].children| ensures TreeReady(q, p.reqs[r].children[i]) {
      ParkedReady(p, r, p.reqs[r].children[i]);
    }
  }

  lemma ParkedReady(p: Pool, r: nat, k: nat)
    requires PoolInv(p) && IsRoot(p, r) && HeldUnanswered(p) && k in p.reqs[r].children
    ensures TreeReady(Park(p, r), k)
  {
    var q := Park(p, r);
    assert TreeAt(p, r) && ChildLink(p, r, k);
    forall y | 0 <= y < |q.reqs| && Under(q, y, k) && InTree(q.hist[y].place)
      ensures if q.reqs[y].children == [] then q.hist[y].place == Held && q.hist[y].nkids == 0
              else q.hist[y].place == Awaiting
    {
      assert TreeAt(p, y);
      TreeStep(p, r, y);
      HeldTree(p, r, y);
    }
  }

  ghost predicate RootPre(c: Core, r: nat) {
    SubmitPre(c) && IsRoot(c.pool, r) && Settled(c.pool)
  }

  lemma RootLeaf(c: Core, r: nat)
    requires RootPre(c, r) && c.pool.reqs[r].children == []
    ensures LeafAt(c.pool, r) && LeafPre(Accept(c, r), r)
  {
    assert TreeAt(c.pool, r);
    AcceptedLeafPre(c, r);
  }

  /** nvme_qpair_submit_request on an enabled, or a resetting, queue pair. */
  ghost function SubmitRoot(c: Core, r: nat): (c': Core)
    requires RootPre(c, r)
  {
    if c.pool.reqs[r].children == [] then
      RootLeaf(c, r);
      SubmitLeaf(Accept(c, r), r)
    else
      ParkedKids(c, r);
      SubmitKids(c.(pool := Park(c.pool, r)), r, c.pool.reqs[r].children)
  }

  /** What a submission leaves in place for the next one. */
  ghost predicate Settled(p: Pool)
    requires Shape(p)
  {
    HeldUnanswered(p) && KidsSubmitted(p)
  }

  lemma LeafMovedSettled(p: Pool, p': Pool, r: nat)
    requires Shape(p) && Settled(p) && r < |p.reqs| && LeafMoved(p, p', r)
    ensures Settled(p')
  {
  }

  lemma FinishSettled(p: Pool, p': Pool, r: nat, st: Status)
    requires Shape(p) && Settled(p) && Shape(p') && r < |p.reqs| == |p'.reqs| && FinishEffect(p, p', r, st)
    ensures Settled(p')
  {
  }

  lemma LeafRootKeeps(c: Core, r: nat)
    requires RootPre(c, r) && c.pool.reqs[r].children == []
    ensures SubmitPre(SubmitRoot(c, r)) && Flow(c, SubmitRoot(c, r), multiset{})
    ensures Settled(SubmitRoot(c, r).pool)
  {
    RootLeaf(c, r);
    var c1 := Accept(c, r);
    FlowSame(c, c1);
    SubmitLeafFlow(c1, r);
    FlowTrans(c, c1, SubmitRoot(c, r), multiset{}, multiset{});
    SubmitLeafWork(c1, r);
    LeafRootSettled(c, r);
  }

  lemma RejectedRootSettled(c: Core, r: nat)
    requires RootPre(c, r) && LeafAt(c.pool, r) && LeafPre(Accept(c, r), r)
    requires c.freeTr != [] && c.enabled && !c.pool.reqs[r].accept
    ensures Settled(Reject(Accept(c, r), r).pool)
  {
    RejectInv(Accept(c, r), r);
    FinishSettled(c.pool, Reject(Accept(c, r), r).pool, r, INVALID_FIELD);
  }

  /** A leaf that cannot be dispatched now moves to the queue. */
  lemma QueuedMoved(c: Core, r: nat)
    requires SubmitPre(c) && LeafAt(c.pool, r) && LeafPre(Accept(c, r), r) && (c.freeTr == [] || !c.enabled)
    ensures LeafMoved(c.pool, SubmitLeaf(Accept(c, r), r).pool, r)
  {
  }

  lemma LeafRootSettled(c: Core, r: nat)
    requires RootPre(c, r) && LeafAt(c.pool, r) && LeafPre(Accept(c, r), r)
    ensures Settled(SubmitLeaf(Accept(c, r), r).pool)
  {
    var c1 := Accept(c, r);
    if c.freeTr == [] || !c.enabled {
      QueuedMoved(c, r);
      LeafMovedSettled(c.pool, SubmitLeaf(c1, r).pool, r);
    } else if c.pool.reqs[r].accept {
      LeafSubmitted(c, r);
      LeafMovedSettled(c.pool, SubmitLeaf(c1, r).pool, r);
    } else {
      RejectedRootSettled(c, r);
    }
  }

  lemma ParentRootKeeps(c: Core, r: nat)
    requires RootPre(c, r) && c.pool.reqs[r].children != []
    ensures SubmitPre(SubmitRoot(c, r)) && Flow(c, SubmitRoot(c, r), multiset{})
    ensures Settled(SubmitRoot(c, r).pool)
  {
    var c1 := c.(pool := Park(c.pool, r));
    var c' := SubmitRoot(c, r);
    ParkedKids(c, r);
    FlowSame(c, c1);
    FlowTrans(c, c1, c', multiset{}, multiset{});
    ParkedSettled(c.pool, r, c'.pool);
  }

  lemma ParkedSettled(p: Pool, r: nat, p': Pool)
    requires PoolInv(p) && IsRoot(p, r) && Settled(p) && PoolInv(p')
    requires Moved(Park(p, r), p', Forest(Park(p, r), p.reqs[r].children))
    ensures Settled(p')
  {
    ParkedKidsSubmitted(p, r, p');
    ParkPlaces(p, r);
    HeldMoved(Park(p, r), p', Forest(Park(p, r), p.reqs[r].children));
  }

  lemma HeldMoved(p: Pool, p': Pool, s: set<nat>)
    requires Shape(p) && HeldUnanswered(p) && Moved(p, p', s)
    ensures HeldUnanswered(p')
  {
  }

  /** Submitting keeps every invariant of the queue pair. */
  lemma SubmitRootKeeps(c: Core, r: nat)
    requires RootPre(c, r)
    ensures SubmitPre(SubmitRoot(c, r)) && Flow(c, SubmitRoot(c, r), multiset{})
    ensures Settled(SubmitRoot(c, r).pool)
  {
    if c.pool.reqs[r].children == [] {
      LeafRootKeeps(c, r);
    } else {
      ParentRootKeeps(c, r);
    }
  }

  lemma ParkedKidsSubmitted(p: Pool, r: nat, p': Pool)
    requires PoolInv(p) && IsRoot(p, r) && KidsSubmitted(p) && PoolInv(p')
    requires Moved(Park(p, r), p', Forest(Park(p, r), p.reqs[r].children))
    ensures KidsSubmitted(p')
  {
    var q := Park(p, r);
    ParkInv(p, r);
    ParkPlaces(p, r);
    TreeOfParent(q, r);
    forall y | 0 <= y < |p'.reqs| && InTree(p'.hist[y].place) && p'.reqs[y].cb.ToParent?
               && p'.reqs[y].cb.parent < |p'.reqs| && p'.hist[p'.reqs[y].cb.parent].place == Awaiting
      ensures p'.hist[y].place != Held
    {
      var z := p.reqs[y].cb.parent;
      if y !in Forest(q, p.reqs[r].children) {
        assert y !in Tree(q, r) || y == r;
        assert TreeAt(q, y);
        assert z !in Tree(q, r) by { UnderUp(q, y, z, r); }
      }
    }
  }

  lemma UnderUp(p: Pool, y: nat, z: nat, r: nat)
    requires PoolInv(p) && y < |p.reqs| && z < |p.reqs| && r < |p.reqs|
    requires InTree(p.hist[y].place) && p.reqs[y].cb == ToParent(z) && y !in Tree(p, r)
    ensures z !in Tree(p, r)
  {
    ParentHigher(p, y);
    if p.reqs[z].cb.ToParent? {
      ParentHigher(p, z);
      var w := p.reqs[z].cb.parent;
      if p.reqs[w].cb.ToParent? {
        ParentHigher(p, w);
      }
    }
  }
}
