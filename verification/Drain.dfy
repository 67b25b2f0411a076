/** Aborting everything a queue pair holds: nvme_qpair_fail, and re-enabling an
    I/O queue pair after a controller reset. */
module Drain {
  import opened Lists
  import opened Requests
  import opened Rings
  import opened Qpair

  /** nvme_qpair_manual_complete_request on the first queued request. */
  ghost function AbortHead(c: Core): Core
    requires CoreInv(c) && c.queue != []
  {
    LeafCanFinish(c, c.queue[0], Aborted(false));
    c.(queue := c.queue[1..], pool := Finish(c.pool, c.queue[0], Aborted(false)))
  }

  lemma HeadCanFinish(c: Core)
    requires CoreInv(c) && c.queue != []
    ensures CanFinish(c.pool, c.queue[0], Aborted(false))
    ensures AbortHead(c) == c.(queue := c.queue[1..], pool := Finish(c.pool, c.queue[0], Aborted(false)))
  {
    LeafCanFinish(c, c.queue[0], Aborted(false));
  }

  lemma AbortHeadFifo(c: Core, c': Core)
    requires Shape(c.pool) && QueueInv(c) && FifoInv(c) && c.queue != []
    requires Shape(c'.pool) && |c'.pool.reqs| == |c.pool.reqs|
    requires FinishEffect(c.pool, c'.pool, c.queue[0], Aborted(false))
    requires c'.queue == c.queue[1..] && c'.seqno == c.seqno && c'.nextSeq == c.nextSeq && c'.first == c.first
    ensures QueueInv(c') && FifoInv(c')
  {
    NoDupTail(c.queue);
  }

  lemma AbortHeadCore(c: Core, p: Pool)
    requires Shape(c.pool) && TrackInv(c) && QueueInv(c) && FifoInv(c) && RingInv(c) && SqInv(c.sq) && KidsAccepted(c)
    requires c.queue != [] && |c.seqno| == |c.pool.reqs| && PoolInv(p) && |p.reqs| == |c.pool.reqs|
    requires FinishEffect(c.pool, p, c.queue[0], Aborted(false))
    ensures CoreInv(c.(queue := c.queue[1..], pool := p))
  {
    var c' := c.(queue := c.queue[1..], pool := p);
    TrackFrame(c, c');
    AbortHeadFifo(c, c');
    RingFrame(c, c');
    FinishKids(c, p, c.queue[0], Aborted(false));
  }

  lemma AbortHeadInv(c: Core)
    requires CoreInv(c) && c.queue != []
    ensures CoreInv(AbortHead(c))
    ensures FinishEffect(c.pool, AbortHead(c).pool, c.queue[0], Aborted(false))
  {
    LeafCanFinish(c, c.queue[0], Aborted(false));
    AbortHeadCore(c, AbortHead(c).pool);
  }

  ghost function AbortQueue(c: Core): (c': Core)
    requires CoreInv(c)
    ensures CoreInv(c')
    decreases |c.queue|
  {
    if c.queue == [] then c
    else
      AbortHeadInv(c);
      AbortQueue(AbortHead(c))
  }

  ghost function AbortTrackers(c: Core, dnr: bool): (c': Core)
    requires CoreInv(c)
    ensures CoreInv(c')
    decreases |c.outTr|
  {
    if c.outTr == [] then c
    else
      var x := c.outTr[0];
      OutMember(c);
      RetireInv(c, x, Aborted(dnr));
      RemoveHead(c.outTr);
      AbortTrackers(Retire(c, x, Aborted(dnr)), dnr)
  }

  /** With an empty queue, completing a tracker with a status that is not retried
      comes down to retiring it: there is nothing to submit next. */
  lemma CompleteRetires(c: Core, x: nat, st: Status)
    requires CompletePre(c, x) && c.queue == [] && !Retryable(st)
    ensures CanFinish(c.pool, c.tr[x].req.value, st)
    ensures Complete(c, x, st) == Retire(c, x, st)
  {
    RetireInv(c, x, st);
    hide CoreInv, CanFinish;
  }

  /** Queued requests first, then outstanding ones. */
  ghost function DrainAll(c: Core, dnr: bool): (c': Core)
    requires CoreInv(c)
    ensures CoreInv(c')
  {
    AbortTrackers(AbortQueue(c), dnr)
  }

  // ------------------------------------------------------------------ effects

  /** `r` was called back with status `st` between p and p'. */
  ghost predicate AnsweredWith(p: Pool, p': Pool, r: nat, st: Status)
    requires Shape(p) && r < |p.reqs|
  {
    exists i :: |p.ended| <= i < |p'.ended|
                && p'.ended[i] == Ended(p.hist[r].tag, Called(st, p.hist[r].kids, p.hist[r].nkids))
  }

  /** What aborting keeps: the log only grows, the ring is not used, and a
      waiting request is either untouched or answered with `st`. */
  ghost predicate AbortEffect(c: Core, c': Core, st: Status) {
    && Shape(c.pool) && Shape(c'.pool) && |c'.pool.reqs| == |c.pool.reqs|
    && SameMode(c, c')
    && c'.sq == c.sq && c'.ring == c.ring && c'.first == c.first
    && c'.seqno == c.seqno && c'.nextSeq == c.nextSeq
    && |c'.tr| == |c.tr|
    && c'.pool.slot == c.pool.slot
    && c.pool.ended <= c'.pool.ended
    && CalledSince(|c.pool.ended|, c'.pool.ended, st)
    && (forall r :: 0 <= r < |c.pool.reqs| && Waiting(c.pool.hist[r].place) ==>
          || (c'.pool.hist[r] == c.pool.hist[r] && c'.pool.reqs[r] == c.pool.reqs[r])
          || (c'.pool.hist[r].place == Free && AnsweredWith(c.pool, c'.pool, r, st)))
    && (forall r :: 0 <= r < |c.pool.reqs| && !Waiting(c.pool.hist[r].place) && c.pool.hist[r].place != Awaiting ==>
          c'.pool.hist[r] == c.pool.hist[r] && c'.pool.reqs[r] == c.pool.reqs[r])
    && (forall r :: 0 <= r < |c.pool.reqs| && c.pool.hist[r].place == Awaiting ==>
          c'.pool.hist[r].place == Awaiting || c'.pool.hist[r].place == Free)
    && (forall r :: 0 <= r < |c.pool.reqs| ==> c'.pool.reqs[r].cb == c.pool.reqs[r].cb)
  }

  /** One abort followed by others. */
  lemma AbortStep(c: Core, c1: Core, c': Core, r: nat, st: Status)
    requires Shape(c.pool) && Shape(c1.pool) && Shape(c'.pool)
    requires |c1.pool.reqs| == |c.pool.reqs| == |c'.pool.reqs| && r < |c.pool.reqs|
    requires Waiting(c.pool.hist[r].place) && FinishEffect(c.pool, c1.pool, r, st)
    requires SameMode(c, c1) && c1.sq == c.sq && c1.ring == c.ring && c1.first == c.first
    requires c1.seqno == c.seqno && c1.nextSeq == c.nextSeq && |c1.tr| == |c.tr|
    requires AbortEffect(c1, c', st)
    ensures AbortEffect(c, c', st)
  {
    var n := |c.pool.ended|;
    assert c1.pool.ended[..n] == c.pool.ended;
    forall i | n <= i < |c'.pool.ended|
      ensures c'.pool.ended[i].outcome.Called? && (IsError(st) ==> c'.pool.ended[i].outcome.status == st)
    {
      if i < |c1.pool.ended| {
        assert c'.pool.ended[i] == c1.pool.ended[i];
      }
    }
    forall x | 0 <= x < |c.pool.reqs| && Waiting(c.pool.hist[x].place)
      ensures || (c'.pool.hist[x] == c.pool.hist[x] && c'.pool.reqs[x] == c.pool.reqs[x])
              || (c'.pool.hist[x].place == Free && AnsweredWith(c.pool, c'.pool, x, st))
    {
      if x == r {
        assert c'.pool.ended[n] == c1.pool.ended[n];
        assert AnsweredWith(c.pool, c'.pool, x, st);
      } else if c'.pool.hist[x] != c1.pool.hist[x] || c'.pool.reqs[x] != c1.pool.reqs[x] {
        var i :| |c1.pool.ended| <= i < |c'.pool.ended|
          && c'.pool.ended[i] == Ended(c1.pool.hist[x].tag, Called(st, c1.pool.hist[x].kids, c1.pool.hist[x].nkids));
        assert AnsweredWith(c.pool, c'.pool, x, st);
      }
    }
  }

  lemma {:induction false} AbortQueueEffect(c: Core)
    requires CoreInv(c)
    ensures AbortEffect(c, AbortQueue(c), Aborted(false))
    ensures AbortQueue(c).queue == []
    ensures AbortQueue(c).tr == c.tr && AbortQueue(c).outTr == c.outTr && AbortQueue(c).freeTr == c.freeTr
    decreases |c.queue|
  {
    if c.queue != [] {
      AbortHeadInv(c);
      AbortQueueEffect(AbortHead(c));
      AbortStep(c, AbortHead(c), AbortQueue(c), c.queue[0], Aborted(false));
    }
  }

  lemma {:induction false} AbortTrackersEffect(c: Core, dnr: bool)
    requires CoreInv(c) && c.queue == []
    ensures AbortEffect(c, AbortTrackers(c, dnr), Aborted(dnr))
    ensures AbortTrackers(c, dnr).queue == [] && AbortTrackers(c, dnr).outTr == []
    decreases |c.outTr|
  {
    if c.outTr != [] {
      var x := c.outTr[0];
      OutMember(c);
      RetireInv(c, x, Aborted(dnr));
      RemoveHead(c.outTr);
      AbortTrackersEffect(Retire(c, x, Aborted(dnr)), dnr);
      AbortStep(c, Retire(c, x, Aborted(dnr)), AbortTrackers(c, dnr), c.tr[x].req.value, Aborted(dnr));
    }
  }

  /** Nothing queued, every tracker free and idle. */
  ghost predicate IsDrained(c: Core) {
    && c.queue == [] && c.outTr == [] && |c.freeTr| == |c.tr|
    && forall x :: 0 <= x < |c.tr| ==> c.tr[x] == IDLE && x in c.freeTr
  }

  lemma DrainCore(c: Core, dnr: bool)
    requires CoreInv(c)
    ensures IsDrained(DrainAll(c, dnr))
    ensures DrainAll(c, dnr).sq == c.sq && SameSizes(c, DrainAll(c, dnr)) && SameMode(c, DrainAll(c, dnr))
  {
    AbortQueueEffect(c);
    AbortTrackersEffect(AbortQueue(c), dnr);
    DrainedTrackers(DrainAll(c, dnr));
  }

  /** Everything logged from position n on was called back with an abort status. */
  ghost predicate AbortedSince(n: nat, log: seq<Ended>, dnr: bool) {
    forall i :: n <= i < |log| ==>
      log[i].outcome.Called? && (log[i].outcome.status == Aborted(false) || log[i].outcome.status == Aborted(dnr))
  }

  /** After a drain every tracker is idle, and each request that was queued or
      outstanding has been called back with an abort status, and so has every
      parent this completed; nothing was submitted on the way. */
  lemma DrainExact(c: Core, dnr: bool)
    requires CoreInv(c)
    ensures IsDrained(DrainAll(c, dnr))
    ensures DrainAll(c, dnr).sq == c.sq && DrainAll(c, dnr).ring == c.ring
    ensures SameMode(c, DrainAll(c, dnr))
    ensures |DrainAll(c, dnr).pool.reqs| == |c.pool.reqs|
    ensures forall r :: 0 <= r < |c.pool.reqs| && c.pool.hist[r].place.Queued? ==>
              AnsweredWith(c.pool, DrainAll(c, dnr).pool, r, Aborted(false))
    ensures forall r :: 0 <= r < |c.pool.reqs| && c.pool.hist[r].place.Tracked? ==>
              AnsweredWith(c.pool, DrainAll(c, dnr).pool, r, Aborted(dnr))
    ensures c.pool.ended <= DrainAll(c, dnr).pool.ended
    ensures AbortedSince(|c.pool.ended|, DrainAll(c, dnr).pool.ended, dnr)
  {
    var c1 := AbortQueue(c);
    var c2 := AbortTrackers(c1, dnr);
    AbortQueueEffect(c);
    AbortTrackersEffect(c1, dnr);
    DrainedTrackers(c2);
    DrainQueued(c, c1, c2, dnr);
    DrainTracked(c, c1, c2, dnr);
    DrainLog(c, c1, c2, dnr);
  }

  lemma DrainLog(c: Core, c1: Core, c2: Core, dnr: bool)
    requires AbortEffect(c, c1, Aborted(false)) && AbortEffect(c1, c2, Aborted(dnr))
    ensures c.pool.ended <= c2.pool.ended && AbortedSince(|c.pool.ended|, c2.pool.ended, dnr)
  {
    forall i | |c.pool.ended| <= i < |c2.pool.ended|
      ensures
        && c2.pool.ended[i].outcome.Called?
        && (c2.pool.ended[i].outcome.status == Aborted(false) || c2.pool.ended[i].outcome.status == Aborted(dnr))
    {
      if i < |c1.pool.ended| {
        assert c2.pool.ended[i] == c1.pool.ended[i];
      }
    }
  }

  lemma DrainQueued(c: Core, c1: Core, c2: Core, dnr: bool)
    requires CoreInv(c1) && AbortEffect(c, c1, Aborted(false)) && c1.queue == []
    requires AbortEffect(c1, c2, Aborted(dnr))
    ensures forall r :: 0 <= r < |c.pool.reqs| && c.pool.hist[r].place.Queued? ==>
              AnsweredWith(c.pool, c2.pool, r, Aborted(false))
  {
    forall r | 0 <= r < |c.pool.reqs| && c.pool.hist[r].place.Queued?
      ensures AnsweredWith(c.pool, c2.pool, r, Aborted(false))
    {
      assert c1.pool.hist[r].place != Queued;
      var i :| |c.pool.ended| <= i < |c1.pool.ended|
        && c1.pool.ended[i] == Ended(c.pool.hist[r].tag, Called(Aborted(false), c.pool.hist[r].kids, c.pool.hist[r].nkids));
      assert c2.pool.ended[i] == c1.pool.ended[i];
    }
  }

  lemma DrainedTrackers(c: Core)
    requires Shape(c.pool) && TrackInv(c) && c.queue == [] && c.outTr == []
    ensures IsDrained(c)
  {
    forall x | 0 <= x < |c.tr| ensures c.tr[x] == IDLE && x in c.freeTr {
      assert x in c.freeTr || x in c.outTr;
      var i :| 0 <= i < |c.freeTr| && c.freeTr[i] == x;
    }
  }

  lemma DrainTracked(c: Core, c1: Core, c2: Core, dnr: bool)
    requires CoreInv(c) && CoreInv(c1) && CoreInv(c2)
    requires AbortEffect(c, c1, Aborted(false)) && c1.tr == c.tr && c1.outTr == c.outTr
    requires AbortEffect(c1, c2, Aborted(dnr)) && c2.outTr == []
    ensures forall r :: 0 <= r < |c.pool.reqs| && c.pool.hist[r].place.Tracked? ==>
              AnsweredWith(c.pool, c2.pool, r, Aborted(dnr))
  {
    forall r | 0 <= r < |c.pool.reqs| && c.pool.hist[r].place.Tracked?
      ensures AnsweredWith(c.pool, c2.pool, r, Aborted(dnr))
    {
      OutMember(c1);
      assert c1.pool.hist[r] == c.pool.hist[r];
      assert !c2.pool.hist[r].place.Tracked?;
      var i :| |c1.pool.ended| <= i < |c2.pool.ended|
        && c2.pool.ended[i] == Ended(c1.pool.hist[r].tag, Called(Aborted(dnr), c1.pool.hist[r].kids, c1.pool.hist[r].nkids));
      assert AnsweredWith(c.pool, c2.pool, r, Aborted(dnr));
    }
  }

  // ------------------------------------------------------------ split parents

  /** Every child of a waiting parent has been submitted too. */
  ghost predicate KidsSubmitted(p: Pool)
    requires Shape(p)
  {
    forall r :: 0 <= r < |p.reqs| && InTree(p.hist[r].place) && p.reqs[r].cb.ToParent?
                && p.reqs[r].cb.parent < |p.reqs| && p.hist[p.reqs[r].cb.parent].place == Awaiting
                ==> p.hist[r].place != Held
  }

  /** Once no request is queued or outstanding, no parent is left waiting. */
  lemma {:induction false} NoParentLeft(p: Pool, r: nat)
    requires PoolInv(p) && KidsSubmitted(p) && r < |p.reqs|
    requires forall x :: 0 <= x < |p.reqs| ==> !Waiting(p.hist[x].place)
    ensures p.hist[r].place != Awaiting
    decreases p.hist[r].height
  {
    assert TreeAt(p, r);
    if p.reqs[r].children != [] && InTree(p.hist[r].place) {
      var k := p.reqs[r].children[0];
      assert ChildLink(p, r, k);
      NoParentLeft(p, k);
    }
  }

  lemma AbortKeepsKids(c: Core, c': Core, st: Status)
    requires CoreInv(c) && CoreInv(c') && AbortEffect(c, c', st) && KidsSubmitted(c.pool)
    ensures KidsSubmitted(c'.pool)
  {
  }

  /** Draining finishes everything that was submitted, split parents included:
      afterwards every descriptor is free or in the caller's hands. */
  lemma DrainFinishesAll(c: Core, dnr: bool)
    requires CoreInv(c) && KidsSubmitted(c.pool)
    ensures KidsSubmitted(DrainAll(c, dnr).pool)
    ensures forall r :: 0 <= r < |DrainAll(c, dnr).pool.reqs| ==> !Submitted(DrainAll(c, dnr).pool.hist[r].place)
  {
    var c1 := AbortQueue(c);
    var c2 := AbortTrackers(c1, dnr);
    AbortQueueEffect(c);
    AbortTrackersEffect(c1, dnr);
    AbortKeepsKids(c, c1, Aborted(false));
    AbortKeepsKids(c1, c2, Aborted(dnr));
    NothingWaits(c2);
    forall r | 0 <= r < |c2.pool.reqs| ensures !Submitted(c2.pool.hist[r].place) {
      NoParentLeft(c2.pool, r);
    }
  }

  lemma NothingWaits(c: Core)
    requires CoreInv(c) && c.queue == [] && c.outTr == []
    ensures forall x :: 0 <= x < |c.pool.reqs| ==> !Waiting(c.pool.hist[x].place)
  {
  }
}
