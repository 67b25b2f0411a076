/** In which order requests move: what one allocation and one submission do, the
    children of a split in the order they were attached, and a drain in the order
    of the lists.  Stated on the fields of the queue pair. */
module Orders {
  import opened Common
  import opened Lists
  import opened Requests
  import opened Rings
  import opened Qpair
  import opened Drain
  import opened SplitSubmit
  import opened System
  import opened Runs
  import opened Commands
  import opened Outcomes

  // ------------------------------------------------------------- one request

  /** The first free descriptor, with nothing left of its last use, got a new
      lifetime. */
  ghost predicate Taken(p: Pool, p': Pool, accept: bool) {
    && Shape(p) && Shape(p') && |p'.reqs| == |p.reqs| && p.free != []
    && var r := p.free[0];
       && r < |p.reqs| && p'.free == p.free[1..] && p'.ended == p.ended
       && p'.hist[r].place == Held && p'.hist[r].tag == |p.slot|
       && p'.reqs[r].cb == ToCaller && p'.reqs[r].accept == accept
       && p'.reqs[r].retries == 0 && p'.reqs[r].childReqs == 0 && p'.reqs[r].children == []
       && forall y :: 0 <= y < |p.reqs| && y != r ==> p'.reqs[y] == p.reqs[y] && p'.hist[y] == p.hist[y]
  }

  lemma AllocateTakes(p: Pool, accept: bool)
    requires PoolInv(p) && p.free != []
    ensures p.free[0] < |p.reqs| && Taken(p, Allocate(p, accept), accept)
  {
    hide TagInv, EndedInv, LogInv;
    assert TreeAt(p, p.free[0]);
  }

  /** An allocation fails exactly when no descriptor is free. */
  lemma TakesFirst(entries: nat, trackers: nat, es: seq<Event>, accept: bool)
    requires 0 < trackers < entries
    ensures
      var s := Reached(entries, trackers, es);
      var s' := Step(s, TakeReq(accept));
      if s.core.pool.free == [] || s.panicked then s' == s
      else s' == s.(core := s.core.(pool := s'.core.pool)) && Taken(s.core.pool, s'.core.pool, accept)
  {
    hide SysInv, PoolInv, Run, Init, Taken, Allocate;
    var s := Reached(entries, trackers, es);
    SysPool(s);
    if s.core.pool.free != [] {
      AllocateTakes(s.core.pool, accept);
    }
  }

  /** A child goes to the end of its parent's list and answers to the parent. */
  ghost predicate AttachedLast(p: Pool, p': Pool, q: nat, k: nat) {
    && |p'.reqs| == |p.reqs| && q < |p.reqs| && k < |p.reqs|
    && p'.reqs[q].children == p.reqs[q].children + [k] && p'.reqs[q].childReqs == |p'.reqs[q].children|
    && p'.reqs[k] == p.reqs[k].(cb := ToParent(q))
    && p'.free == p.free && p'.ended == p.ended
    && forall y :: 0 <= y < |p.reqs| && y != q && y != k ==> p'.reqs[y] == p.reqs[y]
  }

  lemma AddsLast(p: Pool, q: nat, k: nat)
    requires CanAddChild(p, q, k)
    ensures AttachedLast(p, AddChild(p, q, k), q, k)
  {
    hide TagInv, EndedInv, LogInv, FreeInv;
    assert TreeAt(p, q);
  }

  lemma AttachesLast(entries: nat, trackers: nat, es: seq<Event>, q: nat, k: nat)
    requires 0 < trackers < entries
    ensures
      var s := Reached(entries, trackers, es);
      var s' := Step(s, AttachKid(q, k));
      CanAttach(s, q, k) && !s.panicked ==>
        s' == s.(core := s.core.(pool := s'.core.pool)) && AttachedLast(s.core.pool, s'.core.pool, q, k)
  {
    hide SysInv, PoolInv, Run, Init, AttachedLast, AddChild;
    var s := Reached(entries, trackers, es);
    if CanAttach(s, q, k) {
      AddsLast(s.core.pool, q, k);
    }
  }

  /** A request taken on a controller that was given up comes straight back. */
  lemma RefusedBack(entries: nat, trackers: nat, es: seq<Event>, r: nat)
    requires 0 < trackers < entries
    ensures
      var s := Reached(entries, trackers, es);
      var p, s' := s.core.pool, Step(s, SubmitReq(r));
      s.core.failed && !s.panicked && CanSubmit(s, r) ==>
        && s' == s.(core := s.core.(pool := s'.core.pool))
        && s'.core.pool.free == [r] + p.free
        && s'.core.pool.ended == p.ended + [Ended(p.hist[r].tag, Refused)]
  {
    hide SysInv, Run, Init;
    var s := Reached(entries, trackers, es);
    if s.core.failed && !s.panicked && CanSubmit(s, r) {
      StepSubmit(s, r);
    }
  }

  /** An unsplit request that is submitted on a queue pair c, enabled or in a
      reset: with a tracker at hand its command goes on the ring under the first
      free identifier, or it is called back when its payload is rejected;
      otherwise it goes to the end of the queue. */
  ghost predicate Placed(c: Core, c': Core, r: nat) {
    && Shape(c.pool) && Shape(c'.pool) && r < |c.pool.reqs| == |c'.pool.reqs|
    && (forall y :: 0 <= y < |c.pool.reqs| && y != r ==>
          c'.pool.reqs[y] == c.pool.reqs[y] && c'.pool.hist[y] == c.pool.hist[y])
    && if c.enabled && c.freeTr != [] then
         var x := c.freeTr[0];
         if c.pool.reqs[r].accept then
           && c'.sq.sent == c.sq.sent + [Command(x, c.nextSeq)]
           && c'.freeTr == c.freeTr[1..] && c'.outTr == [x] + c.outTr
           && x < |c'.tr| && c'.tr[x] == Tracker(Some(r), true) && c'.pool.hist[r].place == Tracked(x)
           && c'.queue == c.queue && c'.pool.ended == c.pool.ended
         else
           && c'.sq == c.sq && c'.freeTr == c.freeTr && c'.outTr == c.outTr && c'.tr == c.tr && c'.queue == c.queue
           && c'.pool.ended == c.pool.ended + [Ended(c.pool.hist[r].tag, Called(Status(0, 2, true), [], 0))]
           && c'.pool.free == [r] + c.pool.free
       else
         && c'.sq == c.sq && c'.freeTr == c.freeTr && c'.outTr == c.outTr && c'.tr == c.tr
         && c'.queue == c.queue + [r] && c'.pool.hist[r].place == Queued
         && c'.pool.ended == c.pool.ended
  }

  lemma SubmitPlaced(entries: nat, trackers: nat, es: seq<Event>, r: nat)
    requires 0 < trackers < entries
    ensures
      var s := Reached(entries, trackers, es);
      !s.core.failed && !s.panicked && CanSubmit(s, r) && s.core.pool.reqs[r].children == [] ==>
        Placed(Step(s, PollBegin).core, Step(s, SubmitReq(r)).core, r)
  {
    hide SysInv, Run, Init, Placed, EnsureEnabled, Step, RootPre;
    var s := Reached(entries, trackers, es);
    if !s.core.failed && !s.panicked && CanSubmit(s, r) && s.core.pool.reqs[r].children == [] {
      StepSubmit(s, r);
      StepPolls(s);
      SubmitReady(s, r);
      HeldKept(s, r);
      RootPlaced(EnsureEnabled(s).core, r);
    }
  }

  lemma HeldKept(s: State, r: nat)
    requires SysInv(s) && CanSubmit(s, r)
    ensures r < |EnsureEnabled(s).core.pool.reqs|
    ensures EnsureEnabled(s).core.pool.reqs[r].children == s.core.pool.reqs[r].children
  {
    EnableSteps(s);
    if !s.core.enabled && !s.core.resetting {
      DrainSettled(s.core.(enabled := true), false);
    }
  }

  lemma RootPlaced(c: Core, r: nat)
    requires RootPre(c, r) && c.pool.reqs[r].children == []
    ensures Placed(c, SubmitRoot(c, r), r)
  {
    hide CoreInv, LeafPre, Settled, SubmitLeaf, Placed;
    RootLeaf(c, r);
    CoreShape(c);
    Sizes(c);
    LeafPlaced(c, r);
  }

  lemma LeafPlaced(c: Core, r: nat)
    requires Shape(c.pool) && r < |c.seqno| && LeafPre(Accept(c, r), r) && WorkConserving(c)
    requires r < |c.pool.reqs| && c.pool.reqs[r].cb == ToCaller
    ensures Placed(c, SubmitLeaf(Accept(c, r), r), r)
  {
    hide CoreInv, Oldest, Youngest, PumpPre, Reject, TreeAt;
    var c1 := Accept(c, r);
    StagedSlots(c1, r);
    if c.enabled && c.freeTr != [] && !c.pool.reqs[r].accept {
      RejectPumps(c1, r);
      RootRejects(c1, r);
      assert Pump(Reject(c1, r)) == Reject(c1, r);
    }
  }

  lemma RootRejects(c: Core, r: nat)
    requires Staged(c, r) && c.freeTr != [] && c.pool.reqs[r].cb == ToCaller
    ensures
      var p, c' := c.pool, Reject(c, r);
      && c' == c.(pool := c'.pool) && Shape(c'.pool) && |c'.pool.reqs| == |p.reqs|
      && c'.pool.ended == p.ended + [Ended(p.hist[r].tag, Called(Status(0, 2, true), [], 0))]
      && c'.pool.free == [r] + p.free
      && forall y :: 0 <= y < |p.reqs| && y != r ==> c'.pool.reqs[y] == p.reqs[y] && c'.pool.hist[y] == p.hist[y]
  {
    StagedKids(c, r);
    StagedCid(c, r);
    hide CoreInv, PoolInv, TreeAt;
  }

  // --------------------------------------------------- the children of a split

  lemma {:induction false} SubmitLeafSeq(c: Core, r: nat)
    requires LeafPre(c, r)
    ensures SubmitLeaf(c, r).seqno == c.seqno && SubmitLeaf(c, r).nextSeq == c.nextSeq
    decreases |c.queue|, 1
  {
    hide CoreInv, Oldest, Youngest, PumpPre, Reject;
    StagedSlots(c, r);
    if c.freeTr != [] && c.enabled && !c.pool.reqs[r].accept {
      RejectPumps(c, r);
      RejectOnly(c, r);
      PumpSeq(Reject(c, r));
    }
  }

  lemma {:induction false} PumpSeq(c: Core)
    requires PumpPre(c)
    ensures Pump(c).seqno == c.seqno && Pump(c).nextSeq == c.nextSeq
    decreases |c.queue|, 0
  {
    if c.queue != [] && !c.resetting {
      DequeueInv(c);
      SubmitLeafSeq(Dequeue(c), c.queue[0]);
    }
  }

  /** From c to c' the unsplit requests of s, and no others, got new acceptance
      numbers. */
  ghost predicate Numbered(c: Core, c': Core, s: set<nat>) {
    && |c'.seqno| == |c.seqno| == |c.pool.reqs|
    && c.nextSeq <= c'.nextSeq
    && (forall y :: 0 <= y < |c.seqno| && y !in s ==> c'.seqno[y] == c.seqno[y])
    && (forall y :: 0 <= y < |c.seqno| && y in s && c.pool.reqs[y].children == [] ==>
          c.nextSeq <= c'.seqno[y] < c'.nextSeq)
  }

  predicate Unsplit(p: Pool, y: nat) {
    y < |p.reqs| && p.reqs[y].children == []
  }

  ghost predicate LeafBelow(p: Pool, k: nat, y: nat)
    requires Shape(p)
  {
    y in Tree(p, k) && Unsplit(p, y)
  }

  /** The unsplit requests below an earlier child have smaller numbers. */
  ghost predicate InChildOrder(p: Pool, seqno: seq<nat>, kids: seq<nat>) {
    && Shape(p) && |seqno| == |p.reqs|
    && forall i, j, y: nat, z: nat :: 0 <= i < j < |kids| && LeafBelow(p, kids[i], y) && LeafBelow(p, kids[j], z) ==>
         seqno[y] < seqno[z]
  }

  /** So at every level. */
  ghost predicate AllInOrder(p: Pool, seqno: seq<nat>, kids: seq<nat>) {
    && InChildOrder(p, seqno, kids)
    && forall i :: 0 <= i < |kids| ==> kids[i] < |p.reqs| && InChildOrder(p, seqno, p.reqs[kids[i]].children)
  }

  /** What does not depend on places and identifiers. */
  lemma OrderKept(p: Pool, p': Pool, s: set<nat>, seqno: seq<nat>, kids: seq<nat>)
    requires Shape(p) && Moved(p, p', s) && InChildOrder(p', seqno, kids)
    ensures InChildOrder(p, seqno, kids)
  {
    forall i, j, y: nat, z: nat | 0 <= i < j < |kids| && LeafBelow(p, kids[i], y) && LeafBelow(p, kids[j], z)
      ensures seqno[y] < seqno[z]
    {
      MovedTree(p, p', s, kids[i]);
      MovedTree(p, p', s, kids[j]);
      assert LeafBelow(p', kids[i], y) && LeafBelow(p', kids[j], z);
    }
  }

  lemma ChildrenKept(p: Pool, p': Pool, s: set<nat>)
    requires Shape(p) && Moved(p, p', s)
    ensures |p'.reqs| == |p.reqs| && forall y :: 0 <= y < |p.reqs| ==> p'.reqs[y].children == p.reqs[y].children
  {
  }

  /** The unsplit requests of s have smaller numbers than those of t. */
  ghost predicate Earlier(p: Pool, seqno: seq<nat>, s: set<nat>, t: set<nat>)
    requires |seqno| == |p.reqs|
  {
    forall y, z :: y in s && z in t && Unsplit(p, y) && Unsplit(p, z) ==> seqno[y] < seqno[z]
  }

  /** One child's tree, then those of the others. */
  lemma NumberedTrans(c: Core, c1: Core, c': Core, s: set<nat>, t: set<nat>)
    requires Numbered(c, c1, s) && Numbered(c1, c', t) && s !! t
    requires |c1.pool.reqs| == |c.pool.reqs|
    requires forall y :: 0 <= y < |c.pool.reqs| ==> c1.pool.reqs[y].children == c.pool.reqs[y].children
    ensures Numbered(c, c', s + t)
    ensures Earlier(c.pool, c'.seqno, s, t)
  {
  }

  lemma FirstInOrder(p: Pool, seqno: seq<nat>, kids: seq<nat>)
    requires kids != [] && InChildOrder(p, seqno, kids[1..])
    requires Earlier(p, seqno, Tree(p, kids[0]), Forest(p, kids[1..]))
    ensures InChildOrder(p, seqno, kids)
  {
    forall i, j, y: nat, z: nat | 0 <= i < j < |kids| && LeafBelow(p, kids[i], y) && LeafBelow(p, kids[j], z)
      ensures seqno[y] < seqno[z]
    {
      var rest := kids[1..];
      assert rest[j - 1] == kids[j];
      if i == 0 {
        ForestMember(p, rest, z);
        assert z in Tree(p, rest[j - 1]);
      } else {
        assert rest[i - 1] == kids[i];
        assert LeafBelow(p, rest[i - 1], y) && LeafBelow(p, rest[j - 1], z);
      }
    }
  }

  /** The first child's own children keep their numbers. */
  lemma BelowKept(p: Pool, k: nat, seqno: seq<nat>, seqno': seq<nat>)
    requires PoolInv(p) && k < |p.reqs| && InTree(p.hist[k].place)
    requires InChildOrder(p, seqno, p.reqs[k].children) && |seqno'| == |seqno|
    requires forall y :: 0 <= y < |seqno| && y in Tree(p, k) ==> seqno'[y] == seqno[y]
    ensures InChildOrder(p, seqno', p.reqs[k].children)
  {
    var kids := p.reqs[k].children;
    forall i, j, y: nat, z: nat | 0 <= i < j < |kids| && LeafBelow(p, kids[i], y) && LeafBelow(p, kids[j], z)
      ensures seqno'[y] < seqno'[z]
    {
      hide PoolInv;
      TreeStep(p, k, y);
      TreeStep(p, k, z);
      assert y in Tree(p, k) && z in Tree(p, k);
    }
  }

  lemma {:induction false} SubmitChildOrder(c: Core, k: nat)
    requires ChildPre(c, k)
    ensures Numbered(c, SubmitChild(c, k), Tree(c.pool, k))
    ensures InChildOrder(c.pool, SubmitChild(c, k).seqno, c.pool.reqs[k].children)
    decreases c.pool.hist[k].height, 1, 0
  {
    hide CoreInv, LeafPre, KidsPre, TreeReady, Numbered, InChildOrder, Tree, Forest, SubmitLeaf, Moved;
    CoreShape(c);
    ReadyRange(c.pool, k);
    if c.pool.reqs[k].children == [] {
      ChildIsLeaf(c, k);
      LeafTree(c, k);
      SubmitLeafSeq(Accept(c, k), k);
      LeafNumbered(c, SubmitChild(c, k), k);
    } else {
      ChildIsParent(c, k);
      ChildTree(c, k);
      SubmitKidsOrder(c, k, c.pool.reqs[k].children);
      assert SubmitChild(c, k) == SubmitKids(c, k, c.pool.reqs[k].children);
      WithParent(c, SubmitChild(c, k), k);
    }
  }

  lemma ReadyRange(p: Pool, k: nat)
    requires Shape(p) && TreeReady(p, k)
    ensures k < |p.reqs|
  {
  }

  lemma LeafNumbered(c: Core, c': Core, k: nat)
    requires Shape(c.pool) && k < |c.seqno| == |c.pool.reqs| && c.pool.reqs[k].children == []
    requires c'.seqno == c.seqno[k := c.nextSeq] && c'.nextSeq == c.nextSeq + 1
    ensures Numbered(c, c', {k}) && InChildOrder(c.pool, c'.seqno, c.pool.reqs[k].children)
  {
  }

  lemma LeafTree(c: Core, k: nat)
    requires CoreInv(c) && TreeReady(c.pool, k) && c.pool.reqs[k].children == []
    ensures Tree(c.pool, k) == {k} && |c.seqno| == |c.pool.reqs|
  {
    hide TrackInv, QueueInv, RingInv, SqInv, KidsAccepted;
    TreeOfParent(c.pool, k);
  }

  lemma ChildTree(c: Core, k: nat)
    requires CoreInv(c) && TreeReady(c.pool, k)
    ensures Tree(c.pool, k) == {k} + Forest(c.pool, c.pool.reqs[k].children)
  {
    hide TrackInv, QueueInv, RingInv, SqInv, KidsAccepted, FifoInv;
    TreeOfParent(c.pool, k);
  }

  lemma WithParent(c: Core, c': Core, k: nat)
    requires Shape(c.pool) && k < |c.pool.reqs| && c.pool.reqs[k].children != []
    requires Tree(c.pool, k) == {k} + Forest(c.pool, c.pool.reqs[k].children)
    requires Numbered(c, c', Forest(c.pool, c.pool.reqs[k].children))
    ensures Numbered(c, c', Tree(c.pool, k))
  {
  }

  lemma {:induction false} SubmitKidsOrder(c: Core, q: nat, kids: seq<nat>)
    requires KidsPre(c, q, kids)
    ensures Numbered(c, SubmitKids(c, q, kids), Forest(c.pool, kids))
    ensures AllInOrder(c.pool, SubmitKids(c, q, kids).seqno, kids)
    decreases c.pool.hist[q].height, 0, |kids|
  {
    CoreShape(c);
    if kids == [] {
      Sizes(c);
    } else {
      FirstKid(c, q, kids);
      var c1 := SubmitChild(c, kids[0]);
      NextSibling(c, c1, q, kids);
      var c' := SubmitKids(c1, q, kids[1..]);
      assert SubmitKids(c, q, kids) == c';
      SubmitChildOrder(c, kids[0]);
      SubmitKidsOrder(c1, q, kids[1..]);
      JoinOrder(c, c1, c', kids);
    }
  }

  lemma Sizes(c: Core)
    requires CoreInv(c)
    ensures |c.seqno| == |c.pool.reqs|
  {
  }

  lemma FirstKid(c: Core, q: nat, kids: seq<nat>)
    requires KidsPre(c, q, kids) && kids != []
    ensures PoolInv(c.pool) && ChildLink(c.pool, q, kids[0]) && ChildPre(c, kids[0])
    ensures c.pool.hist[kids[0]].height < c.pool.hist[q].height
    ensures Tree(c.pool, kids[0]) !! Forest(c.pool, kids[1..])
  {
    assert kids[0] in c.pool.reqs[q].children;
    assert ChildLink(c.pool, q, kids[0]);
    FirstAndRest(c.pool, q, kids);
  }

  lemma JoinOrder(c: Core, c1: Core, c': Core, kids: seq<nat>)
    requires PoolInv(c.pool) && kids != [] && kids[0] < |c.pool.reqs| && InTree(c.pool.hist[kids[0]].place)
    requires Shape(c1.pool) && Moved(c.pool, c1.pool, Tree(c.pool, kids[0]))
    requires Tree(c.pool, kids[0]) !! Forest(c.pool, kids[1..])
    requires Numbered(c, c1, Tree(c.pool, kids[0])) && Numbered(c1, c', Forest(c1.pool, kids[1..]))
    requires InChildOrder(c.pool, c1.seqno, c.pool.reqs[kids[0]].children)
    requires AllInOrder(c1.pool, c'.seqno, kids[1..])
    ensures Numbered(c, c', Forest(c.pool, kids))
    ensures AllInOrder(c.pool, c'.seqno, kids)
  {
    var p, t, rest := c.pool, Tree(c.pool, kids[0]), kids[1..];
    MovedForest(p, c1.pool, t, rest);
    ChildrenKept(p, c1.pool, t);
    NumberedTrans(c, c1, c', t, Forest(p, rest));
    OrderKept(p, c1.pool, t, c'.seqno, rest);
    FirstInOrder(p, c'.seqno, kids);
    FirstKept(c1, c', t, Forest(p, rest));
    BelowKept(p, kids[0], c1.seqno, c'.seqno);
    hide PoolInv, InChildOrder, Numbered, Tree, Forest, Moved;
    forall i | 0 <= i < |kids| ensures kids[i] < |p.reqs| && InChildOrder(p, c'.seqno, p.reqs[kids[i]].children) {
      if i > 0 {
        assert rest[i - 1] == kids[i];
        OrderKept(p, c1.pool, t, c'.seqno, p.reqs[kids[i]].children);
      }
    }
  }

  lemma FirstKept(c1: Core, c': Core, s: set<nat>, t: set<nat>)
    requires Numbered(c1, c', t) && s !! t
    ensures forall y :: 0 <= y < |c1.seqno| && y in s ==> c'.seqno[y] == c1.seqno[y]
  {
  }

  lemma ParkedOrder(p: Pool, r: nat, seqno: seq<nat>, kids: seq<nat>)
    requires Shape(p) && AllInOrder(Park(p, r), seqno, kids)
    ensures AllInOrder(p, seqno, kids)
  {
    var q := Park(p, r);
    assert q.reqs == p.reqs;
    forall k: nat ensures Tree(q, k) == Tree(p, k) {
    }
    assert forall k: nat, y: nat :: LeafBelow(p, k, y) == LeafBelow(q, k, y);
    hide Park, Tree, LeafBelow;
  }

  lemma SplitInOrder(c: Core, r: nat)
    requires RootPre(c, r) && c.pool.reqs[r].children != []
    ensures AllInOrder(c.pool, SubmitRoot(c, r).seqno, c.pool.reqs[r].children)
  {
    hide CoreInv, KidsPre, Settled, AllInOrder, Numbered, SubmitKids, Park;
    CoreShape(c);
    RootKids(c, r);
    SubmitKidsOrder(c.(pool := Park(c.pool, r)), r, c.pool.reqs[r].children);
    ParkedOrder(c.pool, r, SubmitRoot(c, r).seqno, c.pool.reqs[r].children);
  }

  /** Over every run: submitting a split request accepts the unsplit requests below
      it in the order of the children, at both levels. */
  lemma ChildrenInOrder(entries: nat, trackers: nat, es: seq<Event>, r: nat)
    requires 0 < trackers < entries
    ensures
      var s := Reached(entries, trackers, es);
      !s.core.failed && !s.panicked && CanSubmit(s, r) && s.core.pool.reqs[r].children != [] ==>
        AllInOrder(Step(s, PollBegin).core.pool, Step(s, SubmitReq(r)).core.seqno, s.core.pool.reqs[r].children)
  {
    hide SysInv, Run, Init, AllInOrder, EnsureEnabled, Step, RootPre;
    var s := Reached(entries, trackers, es);
    if !s.core.failed && !s.panicked && CanSubmit(s, r) && s.core.pool.reqs[r].children != [] {
      StepSubmit(s, r);
      StepPolls(s);
      SubmitReady(s, r);
      HeldKept(s, r);
      SplitInOrder(EnsureEnabled(s).core, r);
    }
  }

  // ------------------------------------------------------------------- drains

  /** The lifetimes of unsplit requests in a log, in order. */
  function LeafTags(log: seq<Ended>): seq<nat> {
    if log == [] then []
    else
      var n := |log| - 1;
      LeafTags(log[..n])
      + (if log[n].outcome.Called? && log[n].outcome.nkids == 0 then [log[n].tag] else [])
  }

  lemma {:induction false} LeafTagsGrow(log: seq<Ended>, e: Ended, log': seq<Ended>)
    requires Grows(log, e, log') && e.outcome.Called? && e.outcome.nkids == 0
    ensures LeafTags(log') == LeafTags(log) + [e.tag]
    decreases |log'|
  {
    var n := |log'| - 1;
    if n == |log| {
      assert log'[..n] == log;
    } else {
      LeafTagsGrow(log, e, log'[..n]);
    }
  }

  function TagAt(p: Pool, r: nat): nat {
    if r < |p.hist| then p.hist[r].tag else 0
  }

  function TrackerTag(c: Core, x: nat): nat {
    if x < |c.tr| && c.tr[x].req.Some? then TagAt(c.pool, c.tr[x].req.value) else 0
  }

  /** The lifetimes in the queue, and those of the outstanding trackers. */
  function QueueTags(c: Core): seq<nat> {
    seq(|c.queue|, i requires 0 <= i < |c.queue| => TagAt(c.pool, c.queue[i]))
  }

  function TrackerTags(c: Core): seq<nat> {
    seq(|c.outTr|, i requires 0 <= i < |c.outTr| => TrackerTag(c, c.outTr[i]))
  }

  /** A waiting request that is called back adds its lifetime, and leaves the other
      waiting ones as they are. */
  lemma WaitingEnds(c: Core, r: nat, st: Status)
    requires CoreInv(c) && r < |c.pool.reqs| && Waiting(c.pool.hist[r].place)
    ensures CanFinish(c.pool, r, st)
    ensures LeafTags(Finish(c.pool, r, st).ended) == LeafTags(c.pool.ended) + [c.pool.hist[r].tag]
    ensures |Finish(c.pool, r, st).hist| == |c.pool.hist|
    ensures forall y :: 0 <= y < |c.pool.hist| && y != r && Waiting(c.pool.hist[y].place) ==>
              Finish(c.pool, r, st).hist[y] == c.pool.hist[y]
  {
    hide TrackInv, QueueInv, FifoInv, RingInv, SqInv, KidsAccepted, LeafTags, Grows;
    LeafCanFinish(c, r, st);
    assert TreeAt(c.pool, r);
    FinishRest(c.pool, r, st);
    LeafTagsGrow(c.pool.ended, Ended(c.pool.hist[r].tag, Called(st, c.pool.hist[r].kids, c.pool.hist[r].nkids)),
                 Finish(c.pool, r, st).ended);
  }

  lemma QueueWaits(c: Core)
    requires CoreInv(c)
    ensures Shape(c.pool) && NoDup(c.queue)
    ensures forall i :: 0 <= i < |c.queue| ==>
              c.queue[i] < |c.pool.reqs| && c.pool.hist[c.queue[i]].place == Queued
  {
  }

  lemma {:induction false} AbortQueueOrder(c: Core)
    requires CoreInv(c)
    ensures LeafTags(AbortQueue(c).pool.ended) == LeafTags(c.pool.ended) + QueueTags(c)
    decreases |c.queue|
  {
    hide CoreInv, CanFinish, LeafTags, AbortHead;
    QueueWaits(c);
    if c.queue != [] {
      AbortHeadInv(c);
      HeadCanFinish(c);
      WaitingEnds(c, c.queue[0], Aborted(false));
      var c1 := AbortHead(c);
      AbortQueueOrder(c1);
      assert QueueTags(c) == [c.pool.hist[c.queue[0]].tag] + QueueTags(c1);
    }
  }

  lemma RetireOrder(c: Core, x: nat, st: Status)
    requires CoreInv(c) && c.outTr != [] && x == c.outTr[0] && OutAt(c, x)
    requires CanFinish(c.pool, c.tr[x].req.value, st)
    ensures
      var c1 := Retire(c, x, st);
      && LeafTags(c1.pool.ended) == LeafTags(c.pool.ended) + [TrackerTag(c, x)]
      && TrackerTags(c) == [TrackerTag(c, x)] + TrackerTags(c1)
  {
    hide CoreInv, CanFinish, LeafTags;
    CoreShape(c);
    RemoveHead(c.outTr);
    WaitingEnds(c, c.tr[x].req.value, st);
    RestTags(c, Retire(c, x, st));
  }

  lemma {:induction false} AbortTrackersOrder(c: Core, dnr: bool)
    requires CoreInv(c)
    ensures LeafTags(AbortTrackers(c, dnr).pool.ended) == LeafTags(c.pool.ended) + TrackerTags(c)
    decreases |c.outTr|
  {
    hide CoreInv, CanFinish, LeafTags, OutAt, TrackerTags, Finish, FinishEffect;
    if c.outTr == [] {
      NoTags(c);
    } else {
      var x, st := c.outTr[0], Aborted(dnr);
      OutAtHead(c);
      RetireInv(c, x, st);
      RemoveHead(c.outTr);
      RetireOrder(c, x, st);
      AbortTrackersOrder(Retire(c, x, st), dnr);
    }
  }

  lemma NoTags(c: Core)
    requires c.outTr == []
    ensures TrackerTags(c) == []
  {
  }

  lemma OutAtHead(c: Core)
    requires CoreInv(c) && c.outTr != []
    ensures Shape(c.pool) && c.outTr[0] in c.outTr && OutAt(c, c.outTr[0])
    ensures c.outTr[0] < |c.tr| && c.tr[c.outTr[0]].req.Some?
  {
    CoreShape(c);
    hide PoolInv, QueueInv, FifoInv, RingInv, SqInv, KidsAccepted;
    OutMember(c);
  }

  lemma RestTags(c: Core, c1: Core)
    requires CoreInv(c) && c.outTr != [] && c1.outTr == c.outTr[1..]
    requires c.outTr[0] < |c.tr| && c1.tr == c.tr[c.outTr[0] := IDLE]
    requires c.tr[c.outTr[0]].req.Some? && |c1.pool.hist| == |c.pool.hist|
    requires forall y :: 0 <= y < |c.pool.hist| && Some(y) != c.tr[c.outTr[0]].req && Waiting(c.pool.hist[y].place) ==>
               c1.pool.hist[y] == c.pool.hist[y]
    ensures TrackerTags(c) == [TrackerTag(c, c.outTr[0])] + TrackerTags(c1)
  {
    hide CoreInv;
    Outstanding(c);
    OutDistinct(c);
    forall i | 0 <= i < |c1.outTr| ensures TrackerTag(c1, c1.outTr[i]) == TrackerTag(c, c.outTr[i + 1]) {
      assert c1.outTr[i] == c.outTr[i + 1] && c.outTr[i + 1] in c.outTr && c.outTr[0] in c.outTr;
      assert c.outTr[i + 1] != c.outTr[0];
    }
  }

  /** A drain calls back the queued requests from first to last, then those of the
      outstanding trackers, the most recent first. */
  lemma DrainOrder(c: Core, dnr: bool)
    requires CoreInv(c)
    ensures LeafTags(DrainAll(c, dnr).pool.ended) == LeafTags(c.pool.ended) + QueueTags(c) + TrackerTags(c)
  {
    hide CoreInv, LeafTags, AbortQueue, AbortTrackers;
    AbortQueueOrder(c);
    AbortTrackersOrder(AbortQueue(c), dnr);
    QueueLeaves(c);
  }

  lemma QueueLeaves(c: Core)
    requires CoreInv(c)
    ensures TrackerTags(AbortQueue(c)) == TrackerTags(c)
  {
    hide CoreInv, AbortQueue;
    AbortQueueEffect(c);
    Outstanding(c);
    Outstanding(AbortQueue(c));
    var c1 := AbortQueue(c);
    forall i | 0 <= i < |c.outTr| ensures TrackerTag(c1, c.outTr[i]) == TrackerTag(c, c.outTr[i]) {
      assert c.outTr[i] in c.outTr;
    }
  }

  /** So when the controller is given up, and when a queue pair is used again after
      a reset. */
  lemma DrainsInOrder(entries: nat, trackers: nat, es: seq<Event>)
    requires 0 < trackers < entries
    ensures
      var s := Reached(entries, trackers, es);
      var c := s.core;
      && (c.resetting && !s.panicked ==>
            LeafTags(Step(s, GiveUp).core.pool.ended) == LeafTags(c.pool.ended) + QueueTags(c) + TrackerTags(c))
      && (!c.enabled && !c.resetting && !s.panicked ==>
            LeafTags(Step(s, PollBegin).core.pool.ended) == LeafTags(c.pool.ended) + QueueTags(c) + TrackerTags(c))
  {
    hide SysInv, Run, Init, LeafTags, CoreInv, DrainAll, EnsureEnabled;
    var s := Reached(entries, trackers, es);
    CoreOf(s);
    EnableSteps(s);
    SwitchInv(s);
    FlagTags(s.core);
    DrainOrder(s.core.(enabled := true), false);
    DrainOrder(s.core.(failed := true), true);
  }

  lemma FlagTags(c: Core)
    ensures QueueTags(c.(enabled := true)) == QueueTags(c) == QueueTags(c.(failed := true))
    ensures TrackerTags(c.(enabled := true)) == TrackerTags(c) == TrackerTags(c.(failed := true))
  {
  }
}
