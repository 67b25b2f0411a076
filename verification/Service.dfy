/** Nothing gets stuck: however controller and driver take turns, and whatever
    the controller answers, serving an enabled queue pair ends with every
    submitted request called back. */
module Service {
  import opened Requests
  import opened Rings
  import opened Qpair
  import opened Drain
  import opened System
  import opened Runs

  // ---------------------------------------------------------- work that is left

  /** Times a request can still be put on the ring, at least one while it waits. */
  function Weight(q: Request, pl: Place): nat {
    if pl.Queued? || pl.Tracked? then 1 + (if q.retries < MAX_RETRY then MAX_RETRY - q.retries else 0) else 0
  }

  ghost function Work(p: Pool, n: nat): nat
    requires Shape(p) && n <= |p.reqs|
  {
    if n == 0 then 0 else Work(p, n - 1) + Weight(p.reqs[n - 1], p.hist[n - 1].place)
  }

  /** What serving does to the pool: a submitted request stays submitted or is
      free, the others stay where they are, none is allocated, lifetimes end by
      callbacks only, and no request gets more work. */
  ghost predicate Calm(p: Pool, p': Pool) {
    && Shape(p) && Shape(p') && |p'.reqs| == |p.reqs| && p'.slot == p.slot
    && p.ended <= p'.ended && CalledSince(|p.ended|, p'.ended, SUCCESS)
    && (forall r :: 0 <= r < |p.reqs| && Submitted(p.hist[r].place) ==>
          Submitted(p'.hist[r].place) || p'.hist[r].place == Free)
    && (forall r :: 0 <= r < |p.reqs| && !Submitted(p.hist[r].place) ==> p'.hist[r].place == p.hist[r].place)
    && (forall r :: 0 <= r < |p.reqs| ==>
          Weight(p'.reqs[r], p'.hist[r].place) <= Weight(p.reqs[r], p.hist[r].place))
  }

  lemma CalmTrans(p: Pool, q: Pool, r: Pool)
    requires Calm(p, q) && Calm(q, r)
    ensures Calm(p, r)
  {
  }

  lemma {:induction false} WorkLess(p: Pool, p': Pool, n: nat)
    requires Calm(p, p') && n <= |p.reqs|
    ensures Work(p', n) <= Work(p, n)
    ensures forall r :: 0 <= r < n && Weight(p'.reqs[r], p'.hist[r].place) < Weight(p.reqs[r], p.hist[r].place) ==>
              Work(p', n) < Work(p, n)
  {
    if n > 0 {
      WorkLess(p, p', n - 1);
    }
  }

  lemma FinishCalm(p: Pool, p': Pool, r: nat, st: Status)
    requires Shape(p) && Shape(p') && r < |p.reqs| == |p'.reqs| && FinishEffect(p, p', r, st)
    requires Submitted(p.hist[r].place)
    ensures Calm(p, p') && Weight(p'.reqs[r], p'.hist[r].place) == 0
  {
  }

  /** The pool with r counted among the queued. */
  function AsQueued(p: Pool, r: nat): Pool
    requires Shape(p) && r < |p.reqs|
  {
    SetPlace(p, r, Queued)
  }

  lemma RejectCalm(p: Pool, p': Pool, r: nat, st: Status)
    requires Shape(p) && Shape(p') && r < |p.reqs| == |p'.reqs| && FinishEffect(p, p', r, st) && p.hist[r].place == Held
    ensures Calm(AsQueued(p, r), p')
  {
  }

  lemma DispatchCalm(c: Core, r: nat)
    requires Shape(c.pool) && r < |c.pool.reqs| == |c.seqno|
    requires c.freeTr != [] && c.freeTr[0] < |c.tr| && c.sq.tail < |c.sq.cmd|
    ensures Calm(AsQueued(c.pool, r), Dispatch(c, r).pool)
  {
  }

  lemma EnqueueCalm(c: Core, r: nat)
    requires Shape(c.pool) && r < |c.pool.reqs|
    ensures Calm(AsQueued(c.pool, r), Enqueue(c, r).pool)
  {
  }

  lemma {:induction false} SubmitLeafCalm(c: Core, r: nat)
    requires LeafPre(c, r)
    ensures Calm(AsQueued(c.pool, r), SubmitLeaf(c, r).pool)
    decreases |c.queue|, 1
  {
    hide CoreInv, Calm, Oldest, Youngest, PumpPre, Reject;
    StagedSlots(c, r);
    if c.freeTr == [] || !c.enabled {
      EnqueueCalm(c, r);
    } else if c.pool.reqs[r].accept {
      DispatchCalm(c, r);
    } else {
      RejectPumps(c, r);
      RejectInv(c, r);
      RejectCalm(c.pool, Reject(c, r).pool, r, INVALID_FIELD);
      PumpCalm(Reject(c, r));
      CalmTrans(AsQueued(c.pool, r), Reject(c, r).pool, SubmitLeaf(c, r).pool);
    }
  }

  lemma RequeuedIsSame(p: Pool, r: nat)
    requires Shape(p) && r < |p.reqs| && p.hist[r].place == Queued
    ensures AsQueued(SetPlace(p, r, Held), r) == p
  {
    assert p.hist[r := p.hist[r].(place := Held)][r := p.hist[r]] == p.hist;
  }

  lemma HeadIsQueued(c: Core)
    requires CoreInv(c) && c.queue != []
    ensures c.queue[0] < |c.pool.reqs| && c.pool.hist[c.queue[0]].place == Queued
  {
  }

  lemma {:induction false} PumpCalm(c: Core)
    requires PumpPre(c)
    ensures Calm(c.pool, Pump(c).pool)
    decreases |c.queue|, 0
  {
    if c.queue != [] && !c.resetting {
      DequeueInv(c);
      SubmitLeafCalm(Dequeue(c), c.queue[0]);
      HeadIsQueued(c);
      hide CoreInv, Calm, Staged;
      RequeuedIsSame(c.pool, c.queue[0]);
    }
  }

  lemma RetryCalm(c: Core, x: nat)
    requires CoreInv(c) && x in c.outTr && OutAt(c, x) && Room(c, 1)
    requires c.pool.reqs[c.tr[x].req.value].retries < MAX_RETRY
    requires c.sq.tail < |c.sq.cmd| && |c.seqno| == |c.pool.reqs|
    ensures Calm(c.pool, Resubmit(c, x).pool)
    ensures Work(Resubmit(c, x).pool, |c.pool.reqs|) < Work(c.pool, |c.pool.reqs|)
  {
    var p, p', r := c.pool, Resubmit(c, x).pool, c.tr[x].req.value;
    assert Shape(p) && Shape(p');
    hide CoreInv;
    assert Weight(p'.reqs[r], p'.hist[r].place) < Weight(p.reqs[r], p.hist[r].place);
    WorkLess(p, p', |p.reqs|);
  }

  lemma RetireCalm(p: Pool, c1: Core, r: nat, st: Status)
    requires Shape(p) && r < |p.reqs| && p.hist[r].place.Tracked?
    requires PumpPre(c1) && |c1.pool.reqs| == |p.reqs| && FinishEffect(p, c1.pool, r, st)
    ensures Calm(p, Pump(c1).pool) && Work(Pump(c1).pool, |p.reqs|) < Work(p, |p.reqs|)
  {
    FinishCalm(p, c1.pool, r, st);
    PumpCalm(c1);
    hide PumpPre, CoreInv, FinishEffect, Pump;
    CalmTrans(p, c1.pool, Pump(c1).pool);
    LessWork(p, c1.pool, Pump(c1).pool, r);
  }

  lemma LessWork(p: Pool, q: Pool, p': Pool, r: nat)
    requires Calm(p, q) && Calm(q, p') && r < |p.reqs|
    requires Weight(q.reqs[r], q.hist[r].place) < Weight(p.reqs[r], p.hist[r].place)
    ensures Work(p', |p.reqs|) < Work(p, |p.reqs|)
  {
    WorkLess(p, q, |p.reqs|);
    WorkLess(q, p', |p.reqs|);
  }

  /** A completion handled is work done. */
  lemma CompleteCalm(c: Core, x: nat, st: Status)
    requires CompletePre(c, x)
    ensures Calm(c.pool, Complete(c, x, st).pool)
    ensures Work(Complete(c, x, st).pool, |c.pool.reqs|) < Work(c.pool, |c.pool.reqs|)
  {
    if WillRetry(c, x, st) {
      ResubmitInv(c, x);
      RetryCalm(c, x);
    } else {
      RetirePump(c, x, st);
      RetireCalm(c.pool, Retire(c, x, st), c.tr[x].req.value, st);
    }
  }

  // -------------------------------------------------------------- service events

  /** The queue pair is in use. */
  ghost predicate Running(s: State) {
    SysInv(s) && s.core.enabled && !s.core.failed && !s.panicked
  }

  /** A fetch, a completion of any fetched command with any status, the handling
      of a completion, or an acknowledgement that is due. */
  ghost predicate Helpful(s: State, e: Event)
    requires SysInv(s)
  {
    && Possible(s, e)
    && (e.CtrlrFetch? || e.CtrlrPost? || e.PollNext? || (e.PollEnd? && s.cq.acked < s.cq.taken))
  }

  ghost predicate Idle(s: State)
    requires SysInv(s)
  {
    forall e :: !Helpful(s, e)
  }

  /** Nothing is submitted any more. */
  ghost predicate Quiet(s: State) {
    && s.core.queue == [] && s.core.outTr == []
    && Shape(s.core.pool)
    && forall r :: 0 <= r < |s.core.pool.reqs| ==> !Submitted(s.core.pool.hist[r].place)
  }

  ghost function WorkLeft(s: State): nat
    requires Shape(s.core.pool)
  {
    Work(s.core.pool, |s.core.pool.reqs|)
  }

  /** Closer to the end: less work, or as much and fewer commands to fetch, or to
      complete, or completions to acknowledge. */
  ghost predicate Closer(s: State, s': State)
    requires Running(s) && Running(s')
  {
    var w, w' := WorkLeft(s), WorkLeft(s');
    var f, f' := |s.core.sq.sent| - s.core.sq.fetched, |s'.core.sq.sent| - s'.core.sq.fetched;
    var i, i' := |s.inflight|, |s'.inflight|;
    var a, a' := |s.cq.posted| - s.cq.acked, |s'.cq.posted| - s'.cq.acked;
    || w' < w
    || (w' == w && f' < f)
    || (w' == w && f' == f && i' < i)
    || (w' == w && f' == f && i' == i && a' < a)
  }

  lemma PollCloser(s: State)
    requires Running(s) && CanPoll(s)
    ensures
      var s' := PollOne(s);
      Running(s') && Calm(s.core.pool, s'.core.pool) && Closer(s, s')
  {
    PollKeeps(s);
    PollTakes(s);
    PollFacts(s);
    PollActive(s);
    var e := s.cq.cpl[s.cq.head].body;
    CompleteCalm(s.core, e.cid, e.status);
    CompleteFlow(s.core, e.cid, e.status);
  }

  lemma CalmSame(p: Pool)
    requires Shape(p)
    ensures Calm(p, p)
  {
  }

  lemma FetchCloser(s: State)
    requires Running(s) && HasWork(s.core.sq)
    ensures
      var s' := DeviceFetch(s);
      Running(s') && Calm(s.core.pool, s'.core.pool) && Closer(s, s')
  {
    FetchKeeps(s);
    FetchInv(s.core.sq);
    CalmSame(s.core.pool);
  }

  lemma PostCloser(s: State, x: nat, st: Status)
    requires Running(s) && x in s.inflight && !CqFull(s.cq)
    ensures
      var s' := DevicePost(s, x, st);
      Running(s') && Calm(s.core.pool, s'.core.pool) && Closer(s, s')
  {
    PostKeeps(s, x, st);
    CalmSame(s.core.pool);
  }

  lemma AckCloser(s: State)
    requires Running(s) && s.cq.acked < s.cq.taken
    ensures
      var s' := Ack(s);
      Running(s') && Calm(s.core.pool, s'.core.pool) && Closer(s, s')
  {
    AckKeeps(s);
    CalmSame(s.core.pool);
  }

  /** Every service event brings the end closer. */
  lemma HelpfulCloser(s: State, e: Event)
    requires Running(s) && Helpful(s, e)
    ensures Running(Step(s, e)) && Calm(s.core.pool, Step(s, e).core.pool) && Closer(s, Step(s, e))
  {
    StepPolls(s);
    RingSlots(s);
    hide SysInv, Step, Closer, Calm;
    match e
    case PollNext => PollCloser(s);
    case PollEnd => AckCloser(s);
    case CtrlrFetch => StepFetch(s); FetchCloser(s);
    case CtrlrPost(x, st) => StepPost(s, x, st); PostCloser(s, x, st);
  }

  // ------------------------------------------------------------------- theorem

  lemma IdleRings(s: State)
    requires Running(s) && Idle(s)
    ensures s.core.sq.fetched == |s.core.sq.sent|
    ensures s.cq.taken == |s.cq.posted|
    ensures s.inflight == multiset{}
  {
    FetchInv(s.core.sq);
    ReadyExact(s.cq);
    assert !Helpful(s, CtrlrFetch);
    assert !Helpful(s, PollNext);
    assert !Helpful(s, PollEnd);
    assert s.cq.tail == s.cq.hdbl;
    forall x: nat ensures x !in s.inflight {
      assert !Helpful(s, CtrlrPost(x, SUCCESS));
    }
  }

  /** When no service event is left, nothing is submitted any more. */
  lemma IdleQuiet(s: State)
    requires Running(s) && Idle(s)
    ensures Quiet(s)
  {
    IdleRings(s);
    assert Unfetched(s) == [] && Pending(s) == [];
    assert Owed(s) == multiset{};
    assert multiset(s.core.outTr) == multiset{};
    NothingOut(s);
    NothingWaits(s.core);
    forall r | 0 <= r < |s.core.pool.reqs| ensures !Submitted(s.core.pool.hist[r].place) {
      NoParentLeft(s.core.pool, r);
    }
  }

  lemma NothingOut(s: State)
    requires Running(s) && multiset(s.core.outTr) == multiset{}
    ensures s.core.outTr == [] && s.core.queue == []
  {
    assert |multiset(s.core.outTr)| == |s.core.outTr|;
  }

  /** Who goes next. */
  type Scheduler = State -> Event

  /** Some service event is chosen as long as there is one. */
  ghost predicate Diligent(pick: Scheduler) {
    forall s :: Running(s) && !Idle(s) ==> Helpful(s, pick(s))
  }

  ghost function AnyHelpful(s: State): Event {
    if Running(s) && !Idle(s) then
      var e :| Helpful(s, e);
      e
    else PollBegin
  }

  lemma SchedulerExists()
    ensures Diligent(AnyHelpful)
  {
  }

  /** The events a scheduler chooses until there is no service event left. */
  ghost function Schedule(pick: Scheduler, s: State): seq<Event>
    requires Diligent(pick) && Running(s)
    decreases WorkLeft(s), |s.core.sq.sent| - s.core.sq.fetched, |s.inflight|, |s.cq.posted| - s.cq.acked
  {
    if Idle(s) then []
    else
      HelpfulCloser(s, pick(s));
      [pick(s)] + Schedule(pick, Step(s, pick(s)))
  }

  lemma RingBounds(s: State)
    requires SysInv(s)
    ensures s.core.sq.fetched <= |s.core.sq.sent| && s.cq.acked <= |s.cq.posted|
  {
  }

  lemma {:induction false} ScheduleServes(pick: Scheduler, s: State)
    requires Diligent(pick) && Running(s)
    ensures
      var s' := Run(s, Schedule(pick, s));
      Running(s') && Quiet(s') && Calm(s.core.pool, s'.core.pool)
    decreases WorkLeft(s), |s.core.sq.sent| - s.core.sq.fetched, |s.inflight|, |s.cq.posted| - s.cq.acked
  {
    hide SysInv, Quiet, Calm, Step, Idle, Helpful;
    if Idle(s) {
      IdleQuiet(s);
      SysPool(s);
      CalmSame(s.core.pool);
    } else {
      RingBounds(s);
      var e := pick(s);
      HelpfulCloser(s, e);
      var s1 := Step(s, e);
      ScheduleServes(pick, s1);
      RunOne(s, e);
      RunConcat(s, [e], Schedule(pick, s1));
      CalmTrans(s.core.pool, s1.core.pool, Run(s1, Schedule(pick, s1)).core.pool);
    }
  }

  /** Nothing gets stuck: from every reachable state with the queue pair in use,
      every diligent scheduler, with the controller answering in any order with
      any statuses, ends with an empty queue pair, and every request that was
      submitted has been called back. */
  lemma NothingStuck(entries: nat, trackers: nat, es: seq<Event>, pick: Scheduler)
    requires 0 < trackers < entries && Diligent(pick)
    requires Running(Reached(entries, trackers, es))
    ensures
      var s := Reached(entries, trackers, es);
      var s' := Run(s, Schedule(pick, s));
      && Quiet(s')
      && forall r :: 0 <= r < |s.core.pool.reqs| && Submitted(s.core.pool.hist[r].place) ==>
           CalledBack(s.core.pool, s'.core.pool, r)
  {
    var s := Reached(entries, trackers, es);
    var s' := Run(s, Schedule(pick, s));
    ScheduleServes(pick, s);
    forall r | 0 <= r < |s.core.pool.reqs| && Submitted(s.core.pool.hist[r].place)
      ensures CalledBack(s.core.pool, s'.core.pool, r)
    {
      var i := GoneEnded(s.core.pool, s'.core.pool, r);
    }
  }
}
