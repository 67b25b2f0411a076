/** The driver's side of an I/O queue pair (lib/nvme/nvme_qpair.c): trackers,
    the overflow queue, submission, completion, retry and abort, as functions
    on states.  The class QueuePair of QueuePair.dfy is proved against them. */
module Qpair {
  import opened Common
  import opened Lists
  import opened Requests
  import opened Rings

  const MAX_RETRY: nat := 3
  const INVALID_FIELD := Status(0, 0x02, true)

  /** NVME_SC_ABORTED_BY_REQUEST, with the do-not-retry bit the caller passes. */
  function Aborted(dnr: bool): (st: Status)
    ensures IsError(st) && !Retryable(st)
  {
    Status(0, 0x07, dnr)
  }

  /** nvme_qpair_completion_retry: only namespace-not-ready and
      format-in-progress, and only without the do-not-retry bit. */
  predicate Retryable(st: Status) {
    st.sct == 0 && (st.sc == 0x82 || st.sc == 0x84) && !st.dnr
  }

  datatype Tracker = Tracker(req: Option<nat>, active: bool)

  const IDLE := Tracker(None, false)

  /** A submission entry: its command identifier, and the acceptance number of
      the request as a stand-in for the rest of the command. */
  datatype Command = Command(cid: nat, seqno: nat)

  datatype Core = Core(
    sq: SubmissionRing<Command>,
    freeTr: seq<nat>,
    outTr: seq<nat>,
    tr: seq<Tracker>,
    pool: Pool,
    queue: seq<nat>,
    enabled: bool,
    resetting: bool,     // ctrlr->resetting
    failed: bool,        // ctrlr->failed
    seqno: seq<nat>,     // acceptance number of the request in each descriptor
    nextSeq: nat,
    ring: seq<nat>,      // acceptance numbers in the order they were put on the ring
    first: seq<nat>)     // the same, first submissions only

  // ---------------------------------------------------------------- invariant

  ghost predicate OutAt(c: Core, x: nat)
    requires Shape(c.pool)
  {
    && x < |c.tr|
    && c.tr[x].active
    && c.tr[x].req.Some?
    && c.tr[x].req.value < |c.pool.reqs|
    && c.pool.hist[c.tr[x].req.value].place == Tracked(x)
    && c.pool.reqs[c.tr[x].req.value].cid == x
  }

  /** The free and outstanding lists partition the tracker table; exactly the
      outstanding trackers are active and own a request. */
  ghost predicate TrackInv(c: Core)
    requires Shape(c.pool)
  {
    && 0 < |c.tr| < |c.sq.cmd|
    && NoDup(c.freeTr) && NoDup(c.outTr)
    && |c.freeTr| + |c.outTr| == |c.tr|
    && (forall i :: 0 <= i < |c.freeTr| ==> c.freeTr[i] < |c.tr| && c.tr[c.freeTr[i]] == IDLE)
    && (forall i :: 0 <= i < |c.outTr| ==> OutAt(c, c.outTr[i]))
    && (forall x :: 0 <= x < |c.tr| ==> x in c.freeTr || x in c.outTr)
    && (forall r :: 0 <= r < |c.pool.reqs| && c.pool.hist[r].place.Tracked? ==>
          var x := c.pool.hist[r].place.cid;
          x in c.outTr && x < |c.tr| && c.tr[x].req == Some(r))
  }

  ghost predicate QueueInv(c: Core)
    requires Shape(c.pool)
  {
    && NoDup(c.queue)
    && (forall i :: 0 <= i < |c.queue| ==>
          c.queue[i] < |c.pool.reqs| && c.pool.hist[c.queue[i]].place == Queued)
    && (forall r :: 0 <= r < |c.pool.reqs| && c.pool.hist[r].place == Queued ==> r in c.queue)
  }

  predicate Waiting(pl: Place) {
    pl.Queued? || pl.Tracked?
  }

  /** Requests leave the queue, and first reach the ring, in acceptance order. */
  ghost predicate FifoInv(c: Core)
    requires Shape(c.pool)
  {
    && |c.seqno| == |c.pool.reqs|
    && (forall i :: 0 <= i < |c.queue| ==> c.queue[i] < |c.seqno|)
    && (forall i, j :: 0 <= i < j < |c.queue| ==> c.seqno[c.queue[i]] < c.seqno[c.queue[j]])
    && (forall i, j :: 0 <= i < j < |c.first| ==> c.first[i] < c.first[j])
    && (forall i, j :: 0 <= i < |c.first| && 0 <= j < |c.queue| ==> c.first[i] < c.seqno[c.queue[j]])
    && (forall i :: 0 <= i < |c.first| ==> c.first[i] < c.nextSeq)
  }

  /** How often a request that waits has been put on the ring so far. */
  function Uses(pl: Place, retries: nat): nat {
    if pl.Tracked? then 1 + retries else 0
  }

  /** The ring holds requests in the order of their first submission: where one
      appears for the first time, everything before it was accepted earlier. */
  ghost predicate InOrder(ring: seq<nat>, first: seq<nat>) {
    && (forall i :: 0 <= i < |ring| ==> ring[i] in first)
    && (forall i, j :: 0 <= i < j < |ring| && ring[j] !in ring[..j] ==> ring[i] < ring[j])
  }

  lemma InOrderNew(ring: seq<nat>, first: seq<nat>, s: nat)
    requires InOrder(ring, first) && forall i :: 0 <= i < |first| ==> first[i] < s
    ensures InOrder(ring + [s], first + [s])
  {
    var ring' := ring + [s];
    forall i, j | 0 <= i < j < |ring'| && ring'[j] !in ring'[..j] ensures ring'[i] < ring'[j] {
      if j < |ring| {
        assert ring'[..j] == ring[..j];
      }
    }
  }

  lemma InOrderAgain(ring: seq<nat>, first: seq<nat>, s: nat)
    requires InOrder(ring, first) && s in ring
    ensures InOrder(ring + [s], first)
  {
    var ring' := ring + [s];
    forall i, j | 0 <= i < j < |ring'| && ring'[j] !in ring'[..j] ensures ring'[i] < ring'[j] {
      assert ring'[..|ring|] == ring;
      if j < |ring| {
        assert ring'[..j] == ring[..j];
      }
    }
  }

  ghost predicate RingInv(c: Core)
    requires Shape(c.pool) && |c.seqno| == |c.pool.reqs|
  {
    && InOrder(c.ring, c.first)
    && (forall s: nat :: multiset(c.ring)[s] <= 1 + MAX_RETRY)
    && (forall s: nat :: s >= c.nextSeq ==> multiset(c.ring)[s] == 0)
    && (forall r :: 0 <= r < |c.seqno| && Waiting(c.pool.hist[r].place) ==>
          && c.seqno[r] < c.nextSeq
          && c.pool.reqs[r].retries <= MAX_RETRY
          && multiset(c.ring)[c.seqno[r]] == Uses(c.pool.hist[r].place, c.pool.reqs[r].retries))
    && (forall r :: 0 <= r < |c.seqno| && InTree(c.pool.hist[r].place) && !c.pool.hist[r].place.Tracked? ==>
          c.pool.reqs[r].retries == 0)
    && (forall r, s ::
          0 <= r < s < |c.seqno| && Waiting(c.pool.hist[r].place) && Waiting(c.pool.hist[s].place) ==>
          c.seqno[r] != c.seqno[s])
  }

  /** The builders accept every unsplit child of a split. */
  ghost predicate KidsAccepted(c: Core)
    requires Shape(c.pool)
  {
    forall r :: 0 <= r < |c.pool.reqs| && InTree(c.pool.hist[r].place)
                && c.pool.reqs[r].cb.ToParent? && c.pool.hist[r].nkids == 0
                ==> c.pool.reqs[r].accept
  }

  ghost predicate CoreInv(c: Core) {
    && PoolInv(c.pool)
    && TrackInv(c)
    && QueueInv(c)
    && FifoInv(c)
    && RingInv(c)
    && SqInv(c.sq)
    && KidsAccepted(c)
  }

  /** Commands not fetched yet, plus `k`, are among the outstanding ones. */
  predicate Room(c: Core, k: nat) {
    |c.sq.sent| - c.sq.fetched + k <= |c.outTr|
  }

  /** While enabled, requests wait only for want of a tracker. */
  predicate WorkConserving(c: Core) {
    c.enabled && c.queue != [] ==> c.freeTr == []
  }

  // -------------------------------------------------------------- basic steps

  /** A request about to be handed to the ring or to the queue: accepted, held
      by the submission path, and younger than everything already on the ring. */
  ghost predicate Staged(c: Core, r: nat) {
    && CoreInv(c)
    && r < |c.pool.reqs|
    && c.pool.hist[r].place == Held
    && c.pool.reqs[r].children == []
    && c.pool.hist[r].nkids == 0
    && TreeAt(c.pool, r)
    && (c.pool.reqs[r].cb.ToParent? ==>
      && TreeAt(c.pool, c.pool.reqs[r].cb.parent)
      && c.pool.hist[c.pool.reqs[r].cb.parent].place == Awaiting)
    && c.seqno[r] < c.nextSeq
    && multiset(c.ring)[c.seqno[r]] == 0
    && (forall x :: 0 <= x < |c.seqno| && Waiting(c.pool.hist[x].place) ==> c.seqno[x] != c.seqno[r])
    && (forall i :: 0 <= i < |c.first| ==> c.first[i] < c.seqno[r])
  }

  /** `r` was accepted before everything in the queue. */
  ghost predicate Oldest(c: Core, r: nat) {
    r < |c.seqno| && forall i :: 0 <= i < |c.queue| ==> c.queue[i] < |c.seqno| && c.seqno[r] < c.seqno[c.queue[i]]
  }

  /** `r` was accepted after everything in the queue. */
  ghost predicate Youngest(c: Core, r: nat) {
    r < |c.seqno| && forall i :: 0 <= i < |c.queue| ==> c.queue[i] < |c.seqno| && c.seqno[c.queue[i]] < c.seqno[r]
  }

  /** No tracker, or disabled: wait at the end of the queue. */
  function Enqueue(c: Core, r: nat): Core
    requires Shape(c.pool) && r < |c.pool.reqs|
  {
    c.(queue := c.queue + [r], pool := SetPlace(c.pool, r, Queued))
  }

  function Dequeue(c: Core): Core
    requires Shape(c.pool) && c.queue != [] && c.queue[0] < |c.pool.reqs|
  {
    c.(queue := c.queue[1..], pool := SetPlace(c.pool, c.queue[0], Held))
  }

  function SetReq(p: Pool, r: nat, q: Request): Pool
    requires r < |p.reqs|
  {
    p.(reqs := p.reqs[r := q])
  }

  /** nvme_qpair_submit_tracker for the request in tracker `x`. */
  function Launch(c: Core, x: nat, r: nat): Core
    requires x < |c.tr| && r < |c.seqno| && c.sq.tail < |c.sq.cmd|
  {
    c.(tr := c.tr[x := c.tr[x].(active := true)],
       sq := Push(c.sq, Command(x, c.seqno[r])),
       ring := c.ring + [c.seqno[r]])
  }

  /** Give the first free tracker to `r`. */
  function Assign(c: Core, r: nat): Core
    requires r < |c.pool.reqs| && c.freeTr != [] && c.freeTr[0] < |c.tr|
  {
    var x := c.freeTr[0];
    c.(freeTr := c.freeTr[1..],
       outTr := [x] + c.outTr,
       tr := c.tr[x := Tracker(Some(r), false)],
       pool := SetReq(c.pool, r, c.pool.reqs[r].(cid := x)))
  }

  /** Give the first free tracker to `r` and submit it. */
  function Dispatch(c: Core, r: nat): Core
    requires Shape(c.pool) && r < |c.pool.reqs| == |c.seqno|
    requires c.freeTr != [] && c.freeTr[0] < |c.tr| && c.sq.tail < |c.sq.cmd|
  {
    var c1 := Assign(c, r);
    Launch(c1.(pool := SetPlace(c1.pool, r, Tracked(c.freeTr[0])), first := c.first + [c.seqno[r]]), c.freeTr[0], r)
  }

  /** The retry branch of nvme_qpair_complete_tracker. */
  function Resubmit(c: Core, x: nat): Core
    requires x < |c.tr| && c.tr[x].req.Some? && c.tr[x].req.value < |c.pool.reqs| == |c.seqno|
    requires c.sq.tail < |c.sq.cmd|
  {
    var r := c.tr[x].req.value;
    Launch(c.(pool := SetReq(c.pool, r, c.pool.reqs[r].(retries := c.pool.reqs[r].retries + 1))), x, r)
  }

  // -------------------------------------------------------------- frame rules

  /** Steps that do not touch a tracked request leave the trackers in order. */
  lemma TrackFrame(c: Core, c': Core)
    requires Shape(c.pool) && TrackInv(c)
    requires Shape(c'.pool) && |c'.pool.reqs| == |c.pool.reqs|
    requires c'.tr == c.tr && c'.freeTr == c.freeTr && c'.outTr == c.outTr && |c'.sq.cmd| == |c.sq.cmd|
    requires forall r :: 0 <= r < |c.pool.reqs| ==> c'.pool.hist[r].place.Tracked? == c.pool.hist[r].place.Tracked?
    requires forall r :: 0 <= r < |c.pool.reqs| && c.pool.hist[r].place.Tracked? ==>
               c'.pool.hist[r].place == c.pool.hist[r].place && c'.pool.reqs[r].cid == c.pool.reqs[r].cid
    ensures TrackInv(c')
  {
    forall i | 0 <= i < |c'.outTr| ensures OutAt(c', c'.outTr[i]) {
      assert OutAt(c, c.outTr[i]);
    }
  }

  /** Steps that do not touch a queued request leave the queue in order. */
  lemma QueueFrame(c: Core, c': Core)
    requires Shape(c.pool) && QueueInv(c) && FifoInv(c)
    requires Shape(c'.pool) && |c'.pool.reqs| == |c.pool.reqs|
    requires c'.queue == c.queue && |c'.seqno| == |c.seqno| && c.nextSeq <= c'.nextSeq
    requires forall r :: 0 <= r < |c.pool.reqs| ==> c'.pool.hist[r].place.Queued? == c.pool.hist[r].place.Queued?
    requires forall r :: 0 <= r < |c.pool.reqs| && c.pool.hist[r].place.Queued? ==> c'.seqno[r] == c.seqno[r]
    requires c'.first == c.first
    ensures QueueInv(c') && FifoInv(c')
  {
  }

  /** Nothing new on the ring, no request newly waiting. */
  lemma RingFrame(c: Core, c': Core)
    requires Shape(c.pool) && |c.seqno| == |c.pool.reqs| && RingInv(c)
    requires Shape(c'.pool) && |c'.pool.reqs| == |c.pool.reqs| && |c'.seqno| == |c.seqno|
    requires c'.ring == c.ring && c'.first == c.first && c.nextSeq <= c'.nextSeq
    requires forall r :: 0 <= r < |c.seqno| && Waiting(c'.pool.hist[r].place) ==>
               && c.pool.hist[r].place == c'.pool.hist[r].place
               && c'.seqno[r] == c.seqno[r]
    requires forall r :: 0 <= r < |c.seqno| && InTree(c'.pool.hist[r].place) ==>
               && c'.pool.reqs[r].retries == c.pool.reqs[r].retries
               && InTree(c.pool.hist[r].place)
               && (c.pool.hist[r].place.Tracked? ==> c'.pool.hist[r].place.Tracked?)
    ensures RingInv(c')
  {
  }

  // --------------------------------------------- basic steps keep the invariant

  lemma EnqueueInv(c: Core, r: nat)
    requires Staged(c, r) && Youngest(c, r)
    ensures CoreInv(Enqueue(c, r))
  {
    var c' := Enqueue(c, r);
    MoveInv(c.pool, r, Queued);
    TrackFrame(c, c');
    EnqueueFifo(c, r);
    EnqueueRing(c, r);
  }

  lemma EnqueueFifo(c: Core, r: nat)
    requires Shape(c.pool) && QueueInv(c) && FifoInv(c) && Youngest(c, r)
    requires r < |c.pool.reqs| && c.pool.hist[r].place == Held
    requires forall i :: 0 <= i < |c.first| ==> c.first[i] < c.seqno[r]
    ensures QueueInv(Enqueue(c, r)) && FifoInv(Enqueue(c, r))
  {
    NoDupAppend(c.queue, r);
  }

  lemma EnqueueRing(c: Core, r: nat)
    requires Staged(c, r)
    ensures RingInv(Enqueue(c, r))
  {
  }

  lemma DequeueFifo(c: Core)
    requires Shape(c.pool) && QueueInv(c) && FifoInv(c) && c.queue != []
    ensures QueueInv(Dequeue(c)) && FifoInv(Dequeue(c)) && Oldest(Dequeue(c), c.queue[0])
  {
    NoDupTail(c.queue);
    hide NoDup;
  }

  lemma DequeueCore(c: Core)
    requires CoreInv(c) && c.queue != []
    ensures CoreInv(Dequeue(c))
  {
    hide InOrder, SqInv, EndedInv;
    var c', r := Dequeue(c), c.queue[0];
    assert TreeAt(c.pool, r);
    MoveInv(c.pool, r, Held);
    TrackFrame(c, c');
    DequeueFifo(c);
    RingFrame(c, c');
  }

  lemma DequeueInv(c: Core)
    requires CoreInv(c) && c.queue != []
    ensures Staged(Dequeue(c), c.queue[0]) && Oldest(Dequeue(c), c.queue[0])
  {
    var c', r := Dequeue(c), c.queue[0];
    assert TreeAt(c.pool, r);
    DequeueCore(c);
    DequeueFifo(c);
    assert TreeAt(c'.pool, r);
    if c.pool.reqs[r].cb.ToParent? {
      assert TreeAt(c'.pool, c.pool.reqs[r].cb.parent);
    }
  }

  /** The command identifier and the retry count are not part of the tree. */
  lemma SetReqInv(p: Pool, r: nat, q: Request)
    requires PoolInv(p) && r < |p.reqs| && q == p.reqs[r].(cid := q.cid, retries := q.retries)
    ensures PoolInv(SetReq(p, r, q))
  {
    var p' := SetReq(p, r, q);
    LogFrame(p, p');
    hide LogInv;
    forall y | 0 <= y < |p.reqs| ensures TreeAt(p', y) {
      assert TreeAt(p, y);
      forall k | k in p.reqs[y].children && InTree(p.hist[y].place) ensures ChildLink(p', y, k) {
        assert ChildLink(p, y, k);
      }
    }
    assert forall t: nat :: HasEnded(p, t) <==> HasEnded(p', t);
  }

  lemma OutMember(c: Core)
    requires Shape(c.pool) && TrackInv(c)
    ensures forall x :: x in c.outTr ==> x < |c.tr| && c.tr[x].active && OutAt(c, x)
  {
    forall x | x in c.outTr ensures OutAt(c, x) {
      var i :| 0 <= i < |c.outTr| && c.outTr[i] == x;
      assert OutAt(c, c.outTr[i]);
    }
  }

  lemma DispatchTrack(c: Core, r: nat)
    requires Shape(c.pool) && TrackInv(c) && r < |c.pool.reqs| == |c.seqno|
    requires c.pool.hist[r].place == Held && c.freeTr != [] && c.sq.tail < |c.sq.cmd|
    ensures TrackInv(Dispatch(c, r))
  {
    var c', x := Dispatch(c, r), c.freeTr[0];
    NoDupTail(c.freeTr);
    OutMember(c);
    NoDupPrepend(x, c.outTr);
    forall i | 0 <= i < |c'.outTr| ensures OutAt(c', c'.outTr[i]) {
      if i > 0 {
        assert OutAt(c, c.outTr[i - 1]);
      }
    }
  }

  lemma DispatchFifo(c: Core, r: nat)
    requires Staged(c, r) && Oldest(c, r) && c.freeTr != []
    ensures QueueInv(Dispatch(c, r)) && FifoInv(Dispatch(c, r))
  {
  }

  lemma DispatchRing(c: Core, r: nat)
    requires Shape(c.pool) && r < |c.pool.reqs| == |c.seqno| && RingInv(c) && c.pool.hist[r].place == Held
    requires c.freeTr != [] && c.freeTr[0] < |c.tr| && c.sq.tail < |c.sq.cmd|
    requires c.seqno[r] < c.nextSeq && multiset(c.ring)[c.seqno[r]] == 0
    requires forall i :: 0 <= i < |c.first| ==> c.first[i] < c.seqno[r]
    requires forall x :: 0 <= x < |c.seqno| && Waiting(c.pool.hist[x].place) ==> c.seqno[x] != c.seqno[r]
    ensures RingInv(Dispatch(c, r))
  {
    hide InOrder;
    assert multiset(c.ring + [c.seqno[r]]) == multiset(c.ring) + multiset{c.seqno[r]};
    InOrderNew(c.ring, c.first, c.seqno[r]);
  }

  lemma DispatchPool(c: Core, r: nat)
    requires Staged(c, r) && c.freeTr != []
    ensures PoolInv(Dispatch(c, r).pool)
  {
    var x := c.freeTr[0];
    var p := SetReq(c.pool, r, c.pool.reqs[r].(cid := x));
    SetReqInv(c.pool, r, c.pool.reqs[r].(cid := x));
    assert TreeAt(p, r);
    MoveInv(p, r, Tracked(x));
  }

  lemma DispatchInv(c: Core, r: nat)
    requires Staged(c, r) && Oldest(c, r) && c.freeTr != [] && Room(c, 0)
    ensures CoreInv(Dispatch(c, r)) && Room(Dispatch(c, r), 0)
  {
    DispatchPool(c, r);
    DispatchTrack(c, r);
    DispatchFifo(c, r);
    DispatchRing(c, r);
    PushInv(c.sq, Command(c.freeTr[0], c.seqno[r]));
  }

  lemma ResubmitInv(c: Core, x: nat)
    requires CoreInv(c) && x in c.outTr && OutAt(c, x) && Room(c, 1)
    requires c.pool.reqs[c.tr[x].req.value].retries < MAX_RETRY
    ensures CoreInv(Resubmit(c, x)) && Room(Resubmit(c, x), 0)
  {
    hide InOrder, EndedInv, TagInv;
    var r := c.tr[x].req.value;
    SetReqInv(c.pool, r, c.pool.reqs[r].(retries := c.pool.reqs[r].retries + 1));
    ResubmitFrames(c, x);
    ResubmitRing(c, x);
    PushInv(c.sq, Command(x, c.seqno[r]));
  }

  lemma ResubmitFrames(c: Core, x: nat)
    requires Shape(c.pool) && TrackInv(c) && QueueInv(c) && FifoInv(c) && KidsAccepted(c) && OutAt(c, x)
    requires |c.seqno| == |c.pool.reqs| && c.sq.tail < |c.sq.cmd|
    ensures
      var c' := Resubmit(c, x);
      TrackInv(c') && QueueInv(c') && FifoInv(c') && KidsAccepted(c')
  {
    var c' := Resubmit(c, x);
    assert c'.tr == c.tr;
    TrackFrame(c, c');
    QueueFrame(c, c');
  }

  lemma ResubmitRing(c: Core, x: nat)
    requires Shape(c.pool) && |c.seqno| == |c.pool.reqs| && RingInv(c)
    requires OutAt(c, x) && c.pool.reqs[c.tr[x].req.value].retries < MAX_RETRY
    requires c.sq.tail < |c.sq.cmd|
    ensures RingInv(Resubmit(c, x))
  {
    var s := c.seqno[c.tr[x].req.value];
    assert multiset(c.ring + [s]) == multiset(c.ring) + multiset{s};
    assert multiset(c.ring)[s] >= 1;
    InOrderAgain(c.ring, c.first, s);
  }

  // ------------------------------------------------------ requests that finish

  /** A queued or tracked request, or a staged one, can be answered. */
  lemma LeafCanFinish(c: Core, r: nat, st: Status)
    requires CoreInv(c) && r < |c.pool.reqs| && (Waiting(c.pool.hist[r].place) || Staged(c, r))
    ensures CanFinish(c.pool, r, st)
    ensures FinishEffect(c.pool, Finish(c.pool, r, st), r, st)
    ensures PoolInv(Finish(c.pool, r, st))
  {
    assert TreeAt(c.pool, r);
    if c.pool.reqs[r].cb.ToParent? {
      assert TreeAt(c.pool, c.pool.reqs[r].cb.parent);
    }
    FinishInv(c.pool, r, st);
  }

  /** Answering one request leaves the other waiting requests alone. */
  lemma FinishFrame(c: Core, c': Core, r: nat, st: Status)
    requires Shape(c.pool) && QueueInv(c) && FifoInv(c) && RingInv(c) && SqInv(c.sq)
    requires r < |c.pool.reqs| == |c.seqno| && !c.pool.hist[r].place.Queued?
    requires Shape(c'.pool) && |c'.pool.reqs| == |c.pool.reqs|
    requires FinishEffect(c.pool, c'.pool, r, st)
    requires c'.queue == c.queue && c'.seqno == c.seqno && c'.nextSeq == c.nextSeq
    requires c'.first == c.first && c'.ring == c.ring && c'.sq == c.sq
    ensures QueueInv(c') && FifoInv(c') && RingInv(c') && SqInv(c'.sq)
  {
    QueueFrame(c, c');
    RingFrame(c, c');
  }

  lemma FinishKids(c: Core, p: Pool, r: nat, st: Status)
    requires Shape(c.pool) && KidsAccepted(c) && r < |c.pool.reqs|
    requires Shape(p) && TreeInv(p) && |p.reqs| == |c.pool.reqs| && FinishEffect(c.pool, p, r, st)
    ensures KidsAccepted(c.(pool := p))
  {
    forall y | 0 <= y < |p.reqs| && InTree(p.hist[y].place) && p.reqs[y].cb.ToParent? && p.hist[y].nkids == 0
      ensures p.reqs[y].accept
    {
      assert TreeAt(p, y);
    }
  }

  /** The completion branch of nvme_qpair_complete_tracker, before it looks at
      the queue: call back, free the request, free the tracker. */
  ghost function Retire(c: Core, x: nat, st: Status): Core
    requires x < |c.tr| && c.tr[x].req.Some? && CanFinish(c.pool, c.tr[x].req.value, st)
  {
    c.(pool := Finish(c.pool, c.tr[x].req.value, st),
       tr := c.tr[x := IDLE],
       outTr := Remove(c.outTr, x),
       freeTr := [x] + c.freeTr)
  }

  lemma RetireTrack(c: Core, c': Core, x: nat, r: nat)
    requires Shape(c.pool) && TrackInv(c) && x in c.outTr && OutAt(c, x) && c.tr[x].req == Some(r)
    requires Shape(c'.pool) && |c'.pool.reqs| == |c.pool.reqs| && |c'.sq.cmd| == |c.sq.cmd|
    requires c'.pool.hist[r].place == Free
    requires forall y :: 0 <= y < |c.pool.reqs| && y != r && c.pool.hist[y].place != Awaiting ==>
               c'.pool.hist[y] == c.pool.hist[y] && c'.pool.reqs[y] == c.pool.reqs[y]
    requires forall y :: 0 <= y < |c.pool.reqs| && c.pool.hist[y].place == Awaiting ==>
               c'.pool.hist[y].place == Awaiting || c'.pool.hist[y].place == Free
    requires c'.tr == c.tr[x := IDLE] && c'.outTr == Remove(c.outTr, x) && c'.freeTr == [x] + c.freeTr
    ensures TrackInv(c')
  {
    OutMember(c);
    RemoveMembers(c.outTr, x);
    assert x !in c.freeTr;
    NoDupPrepend(x, c.freeTr);
    forall i | 0 <= i < |c'.outTr| ensures OutAt(c', c'.outTr[i]) {
      assert c'.outTr[i] in c'.outTr;
      assert OutAt(c, c'.outTr[i]);
    }
  }

  lemma RetireInv(c: Core, x: nat, st: Status)
    requires CoreInv(c) && x in c.outTr && OutAt(c, x)
    ensures CanFinish(c.pool, c.tr[x].req.value, st)
    ensures CoreInv(Retire(c, x, st))
    ensures FinishEffect(c.pool, Retire(c, x, st).pool, c.tr[x].req.value, st)
  {
    var r := c.tr[x].req.value;
    LeafCanFinish(c, r, st);
    var c' := Retire(c, x, st);
    RetireTrack(c, c', x, r);
    FinishFrame(c, c', r, st);
    FinishKids(c, c'.pool, r, st);
  }

  // ------------------------------------------------- submission and completion

  /** A builder rejected `r` after it was given the first free tracker: the
      request is answered and the tracker is first in the free list again. */
  ghost function Reject(c: Core, r: nat): Core
    requires Staged(c, r) && c.freeTr != []
  {
    var p := SetReq(c.pool, r, c.pool.reqs[r].(cid := c.freeTr[0]));
    StagedCid(c, r);
    c.(pool := Finish(p, r, INVALID_FIELD))
  }

  lemma StagedCid(c: Core, r: nat)
    requires Staged(c, r) && c.freeTr != []
    ensures
      var p := SetReq(c.pool, r, c.pool.reqs[r].(cid := c.freeTr[0]));
      && CanFinish(p, r, INVALID_FIELD)
      && PoolInv(Finish(p, r, INVALID_FIELD))
      && FinishEffect(p, Finish(p, r, INVALID_FIELD), r, INVALID_FIELD)
  {
    var p := SetReq(c.pool, r, c.pool.reqs[r].(cid := c.freeTr[0]));
    SetReqInv(c.pool, r, p.reqs[r]);
    assert TreeAt(p, r);
    if p.reqs[r].cb.ToParent? {
      assert TreeAt(p, p.reqs[r].cb.parent);
    }
    FinishInv(p, r, INVALID_FIELD);
  }

  /** Completing the tracker just assigned undoes the assignment. */
  lemma AssignRetire(c: Core, r: nat)
    requires Staged(c, r) && c.freeTr != []
    ensures CanFinish(Assign(c, r).pool, r, INVALID_FIELD)
    ensures Retire(Assign(c, r), c.freeTr[0], INVALID_FIELD) == Reject(c, r)
  {
    hide PoolInv, RingInv, FifoInv, SqInv;
    var x := c.freeTr[0];
    StagedCid(c, r);
    assert c.tr[x] == IDLE;
    assert c.tr[x := Tracker(Some(r), false)][x := IDLE] == c.tr;
    assert [x] + c.freeTr[1..] == c.freeTr;
    assert Remove([x] + c.outTr, x) == c.outTr;
  }

  lemma RejectEffect(c: Core, r: nat)
    requires Staged(c, r) && c.freeTr != []
    ensures PoolInv(Reject(c, r).pool) && |Reject(c, r).pool.reqs| == |c.pool.reqs|
    ensures FinishEffect(c.pool, Reject(c, r).pool, r, INVALID_FIELD)
  {
    StagedCid(c, r);
  }

  /** A request that is neither queued nor tracked can finish without disturbing
      anything else. */
  lemma FinishCore(c: Core, p: Pool, r: nat, st: Status)
    requires Shape(c.pool) && TrackInv(c) && QueueInv(c) && FifoInv(c) && RingInv(c) && SqInv(c.sq) && KidsAccepted(c)
    requires r < |c.pool.reqs| == |c.seqno| && !c.pool.hist[r].place.Queued? && !c.pool.hist[r].place.Tracked?
    requires PoolInv(p) && |p.reqs| == |c.pool.reqs| && FinishEffect(c.pool, p, r, st)
    ensures CoreInv(c.(pool := p))
  {
    var c' := c.(pool := p);
    TrackFrame(c, c');
    FinishFrame(c, c', r, st);
    FinishKids(c, p, r, st);
  }

  lemma RejectInv(c: Core, r: nat)
    requires Staged(c, r) && c.freeTr != []
    ensures CoreInv(Reject(c, r))
    ensures FinishEffect(c.pool, Reject(c, r).pool, r, INVALID_FIELD)
  {
    RejectEffect(c, r);
    FinishCore(c, Reject(c, r).pool, r, INVALID_FIELD);
  }

  ghost predicate LeafPre(c: Core, r: nat) {
    && Staged(c, r) && Room(c, 0)
    && !c.failed && (c.enabled ==> !c.resetting)
    && (if c.freeTr == [] || !c.enabled then Youngest(c, r) else Oldest(c, r))
  }

  ghost predicate PumpPre(c: Core) {
    && CoreInv(c) && Room(c, 0)
    && (c.enabled ==> !c.resetting)
    && (c.queue != [] && !c.resetting ==> c.enabled && !c.failed && c.freeTr != [])
  }

  /** nvme_qpair_submit_request for a request that is not split. */
  ghost function SubmitLeaf(c: Core, r: nat): (c': Core)
    requires LeafPre(c, r)
    ensures CoreInv(c') && Room(c', 0)
    decreases |c.queue|, 1
  {
    if c.freeTr == [] || !c.enabled then
      EnqueueInv(c, r);
      Enqueue(c, r)
    else if c.pool.reqs[r].accept then
      DispatchInv(c, r);
      Dispatch(c, r)
    else
      RejectInv(c, r);
      Pump(Reject(c, r))
  }

  /** The end of nvme_qpair_complete_tracker: submit the next queued request. */
  ghost function Pump(c: Core): (c': Core)
    requires PumpPre(c)
    ensures CoreInv(c') && Room(c', 0)
    decreases |c.queue|, 0
  {
    if c.queue == [] || c.resetting then c
    else
      DequeueInv(c);
      SubmitLeaf(Dequeue(c), c.queue[0])
  }

  ghost predicate CompletePre(c: Core, x: nat) {
    && CoreInv(c) && Room(c, 1)
    && x in c.outTr && OutAt(c, x)
    && (c.enabled ==> !c.resetting)
    && (c.queue != [] && !c.resetting ==> c.enabled && !c.failed)
  }

  predicate WillRetry(c: Core, x: nat, st: Status)
    requires x < |c.tr| && c.tr[x].req.Some? && c.tr[x].req.value < |c.pool.reqs|
  {
    IsError(st) && Retryable(st) && c.pool.reqs[c.tr[x].req.value].retries < MAX_RETRY
  }

  /** A completed tracker is free for the next queued request. */
  lemma RetirePump(c: Core, x: nat, st: Status)
    requires CompletePre(c, x)
    ensures CanFinish(c.pool, c.tr[x].req.value, st)
    ensures PumpPre(Retire(c, x, st))
    ensures FinishEffect(c.pool, Retire(c, x, st).pool, c.tr[x].req.value, st)
  {
    RetireInv(c, x, st);
    RemoveMembers(c.outTr, x);
  }

  /** nvme_qpair_complete_tracker */
  ghost function Complete(c: Core, x: nat, st: Status): (c': Core)
    requires CompletePre(c, x)
    ensures CoreInv(c') && Room(c', 0)
  {
    if WillRetry(c, x, st) then
      ResubmitInv(c, x);
      Resubmit(c, x)
    else
      RetirePump(c, x, st);
      Pump(Retire(c, x, st))
  }

  // ---------------------------------------------------- what crosses the ring

  function Cids(s: seq<Command>): (r: seq<nat>)
    ensures |r| == |s|
  {
    seq(|s|, i requires 0 <= i < |s| => s[i].cid)
  }

  lemma CidsConcat(a: seq<Command>, b: seq<Command>)
    ensures Cids(a + b) == Cids(a) + Cids(b)
  {
  }

  predicate SameMode(c: Core, c': Core) {
    c'.enabled == c.enabled && c'.resetting == c.resetting && c'.failed == c.failed
  }

  predicate SameSizes(c: Core, c': Core) {
    |c'.sq.cmd| == |c.sq.cmd| && |c'.tr| == |c.tr| && |c'.pool.reqs| == |c.pool.reqs|
  }

  /** Between c and c' the ring only grew, and the trackers that became
      outstanding are, one for one, the commands put on it; the trackers in
      `gone` were handed back by the controller. */
  ghost predicate Flow(c: Core, c': Core, gone: multiset<nat>) {
    && SameMode(c, c')
    && SameSizes(c, c')
    && c.sq.sent <= c'.sq.sent
    && c'.sq.fetched == c.sq.fetched && c'.sq.head == c.sq.head
    && (!c.enabled ==> c'.sq == c.sq)
    && multiset(c'.outTr) + gone
       == multiset(c.outTr) + multiset(Cids(c'.sq.sent[|c.sq.sent|..]))
  }

  lemma FlowTrans(a: Core, b: Core, c: Core, g: multiset<nat>, h: multiset<nat>)
    requires Flow(a, b, g) && Flow(b, c, h)
    ensures Flow(a, c, g + h)
  {
    var m, n := |a.sq.sent|, |b.sq.sent|;
    assert b.sq.sent == c.sq.sent[..n];
    assert c.sq.sent[m..] == b.sq.sent[m..] + c.sq.sent[n..];
    CidsConcat(b.sq.sent[m..], c.sq.sent[n..]);
    var ab, bc := multiset(Cids(b.sq.sent[m..])), multiset(Cids(c.sq.sent[n..]));
    assert multiset(Cids(c.sq.sent[m..])) == ab + bc;
    calc {
      multiset(c.outTr) + (g + h);
      (multiset(c.outTr) + h) + g;
      (multiset(b.outTr) + bc) + g;
      (multiset(b.outTr) + g) + bc;
      (multiset(a.outTr) + ab) + bc;
      multiset(a.outTr) + (ab + bc);
    }
  }

  lemma FlowSame(c: Core, c': Core)
    requires SameMode(c, c') && c'.sq == c.sq && SameSizes(c, c') && c'.outTr == c.outTr
    ensures Flow(c, c', multiset{})
  {
    assert c'.sq.sent[|c.sq.sent|..] == [];
  }

  lemma LaunchFlow(c: Core, c': Core, x: nat, cmd: Command)
    requires SameMode(c, c') && SameSizes(c, c') && c.sq.tail < |c.sq.cmd|
    requires c'.sq == Push(c.sq, cmd) && cmd.cid == x && c.enabled
    requires c'.outTr == [x] + c.outTr || c'.outTr == c.outTr
    ensures c'.outTr == [x] + c.outTr ==> Flow(c, c', multiset{})
    ensures c'.outTr == c.outTr ==> Flow(c, c', multiset{x})
  {
    assert c'.sq.sent[|c.sq.sent|..] == [cmd];
    assert Cids([cmd]) == [x];
  }

  lemma StagedSlots(c: Core, r: nat)
    requires Staged(c, r)
    ensures Shape(c.pool) && r < |c.seqno| == |c.pool.reqs|
    ensures c.sq.tail < |c.sq.cmd| && (c.freeTr != [] ==> c.freeTr[0] < |c.tr|)
  {
  }

  lemma {:induction false} SubmitLeafFlow(c: Core, r: nat)
    requires LeafPre(c, r)
    ensures Flow(c, SubmitLeaf(c, r), multiset{})
    decreases |c.queue|, 1
  {
    hide CoreInv, Oldest, Youngest, PumpPre, Reject;
    var c' := SubmitLeaf(c, r);
    StagedSlots(c, r);
    if c.freeTr == [] || !c.enabled {
      FlowSame(c, c');
    } else if c.pool.reqs[r].accept {
      LaunchFlow(c, c', c.freeTr[0], Command(c.freeTr[0], c.seqno[r]));
    } else {
      RejectPumps(c, r);
      PumpFlow(Reject(c, r));
      FlowTrans(c, Reject(c, r), c', multiset{}, multiset{});
    }
  }

  lemma RejectPumps(c: Core, r: nat)
    requires LeafPre(c, r) && c.enabled && c.freeTr != []
    ensures PumpPre(Reject(c, r)) && Reject(c, r).queue == c.queue && Flow(c, Reject(c, r), multiset{})
    ensures Shape(Reject(c, r).pool) && |Reject(c, r).pool.reqs| == |c.pool.reqs|
  {
    hide CoreInv, Oldest, Youngest;
    RejectInv(c, r);
    FlowSame(c, Reject(c, r));
  }

  lemma {:induction false} PumpFlow(c: Core)
    requires PumpPre(c)
    ensures Flow(c, Pump(c), multiset{})
    decreases |c.queue|, 0
  {
    if c.queue == [] || c.resetting {
      FlowSame(c, c);
    } else {
      DequeueInv(c);
      FlowSame(c, Dequeue(c));
      SubmitLeafFlow(Dequeue(c), c.queue[0]);
      FlowTrans(c, Dequeue(c), Pump(c), multiset{}, multiset{});
    }
  }

  lemma RetireFlow(c: Core, c1: Core, x: nat)
    requires NoDup(c.outTr) && x in c.outTr
    requires SameMode(c, c1) && c1.sq == c.sq && SameSizes(c, c1) && c1.outTr == Remove(c.outTr, x)
    ensures Flow(c, c1, multiset{x})
  {
    RemoveMembers(c.outTr, x);
    assert c1.sq.sent[|c.sq.sent|..] == [];
  }

  lemma CompleteFlow(c: Core, x: nat, st: Status)
    requires CompletePre(c, x) && c.enabled
    ensures Flow(c, Complete(c, x, st), multiset{x})
  {
    if WillRetry(c, x, st) {
      RetryFlow(c, x);
    } else {
      RetirePump(c, x, st);
      var c1 := Retire(c, x, st);
      RetireFlow(c, c1, x);
      PumpFlow(c1);
      FlowTrans(c, c1, Pump(c1), multiset{x}, multiset{});
      assert multiset{x} + multiset{} == multiset{x};
    }
  }

  lemma RetryFlow(c: Core, x: nat)
    requires CompletePre(c, x) && c.enabled && c.pool.reqs[c.tr[x].req.value].retries < MAX_RETRY
    ensures Flow(c, Resubmit(c, x), multiset{x})
  {
    LaunchFlow(c, Resubmit(c, x), x, Command(x, c.seqno[c.tr[x].req.value]));
  }

  // --------------------------------------------------------- work conservation

  lemma {:induction false} SubmitLeafWork(c: Core, r: nat)
    requires LeafPre(c, r)
    requires c.enabled && c.queue != [] ==> |c.freeTr| <= 1
    ensures WorkConserving(SubmitLeaf(c, r))
    decreases |c.queue|, 1
  {
    hide RingInv, FifoInv, SqInv, LogInv, TagInv, EndedInv, KidsAccepted;
    if c.freeTr != [] && c.enabled && !c.pool.reqs[r].accept {
      RejectInv(c, r);
      PumpWork(Reject(c, r));
    }
  }

  lemma {:induction false} PumpWork(c: Core)
    requires PumpPre(c)
    requires c.enabled && c.queue != [] ==> |c.freeTr| <= 1
    ensures WorkConserving(Pump(c))
    decreases |c.queue|, 0
  {
    if c.queue != [] && !c.resetting {
      DequeueInv(c);
      SubmitLeafWork(Dequeue(c), c.queue[0]);
    }
  }

  /** Completing a command hands its tracker to the next queued request. */
  lemma CompleteWork(c: Core, x: nat, st: Status)
    requires CompletePre(c, x) && WorkConserving(c)
    ensures WorkConserving(Complete(c, x, st))
  {
    if !WillRetry(c, x, st) {
      RetirePump(c, x, st);
      PumpWork(Retire(c, x, st));
    }
  }
}
