/** All finite interleavings of a queue pair and its controller, and what holds
    in every state they reach. */
module Runs {
  import opened Common
  import opened Lists
  import opened Requests
  import opened Rings
  import opened Qpair
  import opened Drain
  import opened SplitSubmit
  import opened System

  datatype Event =
    | TakeReq(accept: bool)              // a caller allocates a request
    | AttachKid(parent: nat, kid: nat)   // and makes it a child of another one
    | SubmitReq(req: nat)
    | PollBegin
    | PollNext
    | PollEnd
    | CtrlrFetch
    | CtrlrPost(cid: nat, status: Status)
    | ResetBegin
    | ResetQueue
    | ResetEnd
    | GiveUp

  /** An event that is not possible in a state leaves the state alone. */
  ghost predicate Possible(s: State, e: Event)
    requires SysInv(s)
  {
    !s.panicked &&
    match e
    case TakeReq(_) => s.core.pool.free != []
    case AttachKid(q, k) => CanAttach(s, q, k)
    case SubmitReq(r) => CanSubmit(s, r)
    case PollBegin => true
    case PollNext => CanPoll(s)
    case PollEnd => true
    case CtrlrFetch => HasWork(s.core.sq)
    case CtrlrPost(x, _) => x in s.inflight && !CqFull(s.cq)
    case ResetBegin => !s.core.resetting && !s.core.failed
    case ResetQueue => s.core.resetting
    case ResetEnd => s.core.resetting && (s.recreated || s.core.failed)
    case GiveUp => s.core.resetting
  }

  ghost function Step(s: State, e: Event): State
    requires SysInv(s)
  {
    if !Possible(s, e) then s
    else
      match e
      case TakeReq(accept) => TakeRequest(s, accept)
      case AttachKid(q, k) => AttachChild(s, q, k)
      case SubmitReq(r) => SubmitStep(s, r)
      case PollBegin => EnsureEnabled(s)
      case PollNext => PollOne(s)
      case PollEnd => Ack(s)
      case CtrlrFetch => DeviceFetch(s)
      case CtrlrPost(x, st) => DevicePost(s, x, st)
      case ResetBegin => BeginReset(s)
      case ResetQueue => Recreate(s)
      case ResetEnd => EndReset(s)
      case GiveUp => FailStep(s)
  }

  /** Every event keeps the invariant. */
  lemma StepKeeps(s: State, e: Event)
    requires SysInv(s)
    ensures SysInv(Step(s, e))
  {
    hide SysInv;
    if Possible(s, e) {
      match e
      case TakeReq(accept) => TakeKeeps(s, accept);
      case AttachKid(q, k) => AttachKeeps(s, q, k);
      case SubmitReq(r) => SubmitKeeps(s, r);
      case PollBegin => EnsureEnabledKeeps(s);
      case PollNext => PollKeeps(s);
      case PollEnd => AckKeeps(s);
      case CtrlrFetch => FetchKeeps(s);
      case CtrlrPost(x, st) => PostKeeps(s, x, st);
      case ResetBegin => ResetKeeps(s);
      case ResetQueue => ResetKeeps(s);
      case ResetEnd => ResetKeeps(s);
      case GiveUp => FailKeeps(s);
    }
  }

  /** Any finite interleaving of driver and controller. */
  ghost function Run(s: State, es: seq<Event>): (s': State)
    requires SysInv(s)
    ensures SysInv(s')
  {
    if es == [] then s
    else
      var s1 := Run(s, es[..|es| - 1]);
      StepKeeps(s1, es[|es| - 1]);
      Step(s1, es[|es| - 1])
  }

  lemma RunSnoc(s: State, es: seq<Event>, e: Event)
    requires SysInv(s)
    ensures Run(s, es + [e]) == Step(Run(s, es), e)
  {
    hide SysInv, Step;
    assert (es + [e])[..|es|] == es;
  }

  lemma {:induction false} RunConcat(s: State, es: seq<Event>, fs: seq<Event>)
    requires SysInv(s)
    ensures Run(s, es + fs) == Run(Run(s, es), fs)
  {
    hide SysInv, Step;
    if fs == [] {
      assert es + fs == es;
    } else {
      var init, e := fs[..|fs| - 1], fs[|fs| - 1];
      RunConcat(s, es, init);
      assert es + fs == (es + init) + [e];
      RunSnoc(s, es + init, e);
    }
  }

  lemma StepPolls(s: State)
    requires SysInv(s) && !s.panicked
    ensures Step(s, PollBegin) == EnsureEnabled(s) && Step(s, PollEnd) == Ack(s)
    ensures CanPoll(s) ==> Step(s, PollNext) == PollOne(s)
  {
    hide SysInv, CanPoll, CanAttach, CanSubmit, TakeRequest, AttachChild, SubmitStep, EnsureEnabled, PollOne, Ack,
         DeviceFetch, DevicePost, BeginReset, Recreate, EndReset, FailStep, HasWork, CqFull;
  }

  lemma RunOne(s: State, e: Event)
    requires SysInv(s)
    ensures Run(s, [e]) == Step(s, e)
  {
    hide SysInv, Step;
    RunSnoc(s, [], e);
    assert [] + [e] == [e];
  }

  lemma PollSize(s: State)
    requires SysInv(s)
    ensures s.cq.head < |s.cq.cpl| && |s.cq.cpl| >= 2
  {
  }

  /** A completion handled is a completion consumed, unless the driver panics. */
  lemma PollTakes(s: State)
    requires SysInv(s) && CanPoll(s)
    ensures PollOne(s).panicked ==> PollOne(s).core.failed && PollOne(s).cq.taken == s.cq.taken
    ensures !PollOne(s).panicked ==> PollOne(s).cq.taken == s.cq.taken + 1 && PollOne(s).core.enabled
  {
    PollFacts(s);
    PollActive(s);
    if !s.core.failed {
      CompleteFlow(s.core, s.cq.cpl[s.cq.head].body.cid, s.cq.cpl[s.cq.head].body.status);
    }
  }

  lemma RingSlots(s: State)
    requires SysInv(s)
    ensures s.core.sq.head < |s.core.sq.cmd| && s.cq.tail < |s.cq.cpl|
  {
  }

  lemma StepFetch(s: State)
    requires SysInv(s) && !s.panicked && s.core.sq.head < |s.core.sq.cmd|
    ensures Step(s, CtrlrFetch) == if HasWork(s.core.sq) then DeviceFetch(s) else s
  {
    hide SysInv, CanPoll, CanAttach, CanSubmit, HasWork, DeviceFetch;
  }

  lemma StepSubmit(s: State, r: nat)
    requires SysInv(s) && CanSubmit(s, r) && !s.panicked
    ensures Step(s, SubmitReq(r)) == SubmitStep(s, r)
  {
    hide SysInv, CanSubmit, SubmitStep;
  }

  lemma StepPost(s: State, x: nat, st: Status)
    requires SysInv(s) && !s.panicked && s.cq.tail < |s.cq.cpl|
    ensures Step(s, CtrlrPost(x, st)) == if x in s.inflight && !CqFull(s.cq) then DevicePost(s, x, st) else s
  {
    hide SysInv, CanPoll, CanAttach, CanSubmit, CqFull, DevicePost;
  }

  // ----------------------------------------------------------------- theorems

  ghost function Reached(entries: nat, trackers: nat, es: seq<Event>): (s: State)
    requires 0 < trackers < entries
    ensures SysInv(s)
  {
    InitInv(entries, trackers);
    Run(Init(entries, trackers), es)
  }

  datatype Location = OnFreeList | OnQueue | InTracker(cid: nat) | AwaitingChildren | InHands

  /** Everywhere request `r` is. */
  ghost function Locations(c: Core, r: nat): set<Location>
    requires Shape(c.pool) && r < |c.pool.reqs|
  {
    (if r in c.pool.free then {OnFreeList} else {})
    + (if r in c.queue then {OnQueue} else {})
    + (set x | 0 <= x < |c.tr| && c.tr[x].req == Some(r) :: InTracker(x))
    + (if c.pool.hist[r].place == Awaiting then {AwaitingChildren} else {})
    + (if c.pool.hist[r].place == Held then {InHands} else {})
  }

  /** Conservation: a pool request is always in exactly one place. */
  lemma OnePlaceEach(entries: nat, trackers: nat, es: seq<Event>, r: nat)
    requires 0 < trackers < entries
    requires r < |Reached(entries, trackers, es).core.pool.reqs|
    ensures
      var c := Reached(entries, trackers, es).core;
      && |Locations(c, r)| == 1
      && NoDup(c.pool.free) && NoDup(c.queue)
  {
    var c := Reached(entries, trackers, es).core;
    OnePlace(c, r);
  }

  lemma OnePlace(c: Core, r: nat)
    requires CoreInv(c) && HeldUnanswered(c.pool) && r < |c.pool.reqs|
    ensures |Locations(c, r)| == 1
  {
    OutMember(c);
    forall x | 0 <= x < |c.tr| ensures c.tr[x].req == Some(r) <==> c.pool.hist[r].place == Tracked(x) {
      assert x in c.freeTr || x in c.outTr;
      if x in c.freeTr {
        var i :| 0 <= i < |c.freeTr| && c.freeTr[i] == x;
      }
    }
    match c.pool.hist[r].place
    case Free => assert Locations(c, r) == {OnFreeList};
    case Held => assert Locations(c, r) == {InHands};
    case Queued => assert Locations(c, r) == {OnQueue};
    case Tracked(x) =>
      assert x < |c.tr|;
      assert Locations(c, r) == {InTracker(x)};
    case Awaiting => assert Locations(c, r) == {AwaitingChildren};
  }

  /** Lifetimes: a request is called back at most once, and one that has not
      ended is still somewhere in the driver or the caller's hands. */
  lemma CalledBackAtMostOnce(entries: nat, trackers: nat, es: seq<Event>, t: nat)
    requires 0 < trackers < entries
    requires t < |Reached(entries, trackers, es).core.pool.slot|
    ensures
      var p := Reached(entries, trackers, es).core.pool;
      && (forall i, j :: 0 <= i < |p.ended| && 0 <= j < |p.ended| && p.ended[i].tag == t && p.ended[j].tag == t ==> i == j)
      && (HasEnded(p, t) <==> !exists r :: 0 <= r < |p.reqs| && InTree(p.hist[r].place) && p.hist[r].tag == t)
  {
    hide SysInv, Run, Init, TreeAt;
    var p := Reached(entries, trackers, es).core.pool;
    SysPool(Reached(entries, trackers, es));
    if !HasEnded(p, t) {
      assert InTree(p.hist[p.slot[t]].place) && p.hist[p.slot[t]].tag == t;
    }
  }

  ghost predicate CalledBefore(p: Pool, t: nat, i: nat) {
    exists j :: 0 <= j < i && j < |p.ended| && p.ended[j].tag == t && p.ended[j].outcome.Called?
  }

  /** A lifetime attached to one that has ended was called back before it. */
  lemma KidCalledBefore(p: Pool, i: nat, t: nat)
    requires PoolInv(p) && i < |p.ended| && p.ended[i].outcome.Called?
    requires t < |p.owner| && p.owner[t] == Some(p.ended[i].tag)
    ensures CalledBefore(p, t, i)
  {
    hide KidStatuses, FreeInv, EndedInv;
    assert Logged(p, i);
    if !HasEnded(p, t) {
      var r := p.slot[t];
      assert TreeAt(p, r);
      OwnerOf(p, r);
      assert false;
    }
    var j :| 0 <= j < |p.ended| && p.ended[j].tag == t;
    assert Logged(p, j);
    assert IsKid(p.ended[j], p.owner, p.ended[i].tag);
  }

  /** A split parent is called back when all its children are: every lifetime
      ever attached to it was called back before it, the statuses it collected
      are theirs in the order of the log, and it reports success exactly when
      every child succeeded and otherwise the last failure. */
  lemma SplitsRecombine(entries: nat, trackers: nat, es: seq<Event>, i: nat)
    requires 0 < trackers < entries
    requires i < |Reached(entries, trackers, es).core.pool.ended|
    ensures
      var p := Reached(entries, trackers, es).core.pool;
      var e := p.ended[i];
      e.outcome.Called? && e.outcome.nkids > 0 ==>
        && e.outcome.kids == KidStatuses(p.ended[..i], p.owner, e.tag)
        && (forall t: nat :: t < |p.owner| && p.owner[t] == Some(e.tag) ==> CalledBefore(p, t, i))
        && |e.outcome.kids| == e.outcome.nkids
        && e.outcome.status == LastError(e.outcome.kids)
        && (e.outcome.status == Status(0, 0, false) <==>
              forall k :: 0 <= k < |e.outcome.kids| ==> e.outcome.kids[k].sct == 0 && e.outcome.kids[k].sc == 0)
        && (e.outcome.status != Status(0, 0, false) ==>
              exists k :: 0 <= k < |e.outcome.kids| && e.outcome.kids[k] == e.outcome.status
                          && forall j :: k < j < |e.outcome.kids| ==> e.outcome.kids[j].sct == 0 && e.outcome.kids[j].sc == 0)
  {
    hide SysInv, Run, Init, TreeAt;
    SysPool(Reached(entries, trackers, es));
    var p := Reached(entries, trackers, es).core.pool;
    assert Recombined(p.ended[i]) && Logged(p, i);
    if p.ended[i].outcome.Called? {
      LastErrorExact(p.ended[i].outcome.kids);
    }
    hide PoolInv, CalledBefore, KidStatuses;
    forall t: nat | p.ended[i].outcome.Called? && t < |p.owner| && p.owner[t] == Some(p.ended[i].tag)
      ensures CalledBefore(p, t, i)
    {
      KidCalledBefore(p, i, t);
    }
  }

  /** A request goes on the ring at most 1 + 3 times, and requests go there for
      the first time in the order in which they were accepted. */
  lemma RingUse(entries: nat, trackers: nat, es: seq<Event>)
    requires 0 < trackers < entries
    ensures
      var c := Reached(entries, trackers, es).core;
      && (forall s: nat :: multiset(c.ring)[s] <= 4)
      && (forall i, j :: 0 <= i < j < |c.ring| && c.ring[j] !in c.ring[..j] ==> c.ring[i] < c.ring[j])
      && (forall i, j :: 0 <= i < |c.ring| && 0 <= j < |c.queue| ==> c.ring[i] < c.seqno[c.queue[j]])
      && (c.enabled && c.queue != [] ==> c.freeTr == [])
  {
    var c := Reached(entries, trackers, es).core;
    assert CoreInv(c) && WorkConserving(c);
  }

  lemma EnableSizes(s: State)
    requires SysInv(s)
    ensures SameSizes(s.core, EnsureEnabled(s).core)
  {
    if !s.core.enabled && !s.core.resetting {
      CoreFrame(s.core, s.core.(enabled := true));
      DrainCore(s.core.(enabled := true), false);
    }
  }

  lemma SubmitSizes(s: State, r: nat)
    requires SysInv(s) && CanSubmit(s, r)
    ensures SameSizes(s.core, SubmitStep(s, r).core)
  {
    if !s.core.failed {
      EnableSizes(s);
      SubmitReady(s, r);
      SubmitRootKeeps(EnsureEnabled(s).core, r);
    }
  }

  lemma PollSizes(s: State)
    requires SysInv(s) && CanPoll(s)
    ensures SameSizes(s.core, PollOne(s).core)
  {
    PollActive(s);
    PollCid(s);
    if !s.core.failed {
      PollPre(s);
      CompleteFlow(s.core, s.cq.cpl[s.cq.head].body.cid, s.cq.cpl[s.cq.head].body.status);
    }
  }

  lemma FreeInRange(s: State)
    requires SysInv(s) && s.core.pool.free != []
    ensures Shape(s.core.pool) && s.core.pool.free[0] < |s.core.pool.reqs|
  {
    hide TreeAt;
    SysPool(s);
  }

  lemma OtherSizes(s: State, e: Event)
    requires SysInv(s) && Possible(s, e)
    requires !e.SubmitReq? && !e.PollBegin? && !e.PollNext? && !e.GiveUp?
    ensures SameSizes(s.core, Step(s, e).core)
  {
    hide SysInv, PoolInv, CanSubmit, CanPoll, HasWork, CqFull;
    match e
    case TakeReq(accept) => FreeInRange(s);
    case AttachKid(q, k) =>
    case PollEnd =>
    case CtrlrFetch =>
    case CtrlrPost(x, st) =>
    case ResetBegin =>
    case ResetQueue =>
    case ResetEnd =>
  }

  lemma StepSizes(s: State, e: Event)
    requires SysInv(s)
    ensures SameSizes(s.core, Step(s, e).core)
  {
    hide SysInv;
    if Possible(s, e) {
      match e
      case SubmitReq(r) => SubmitSizes(s, r);
      case PollBegin => EnableSizes(s);
      case PollNext => PollSizes(s);
      case GiveUp => FailSizes(s);
      case _ => OtherSizes(s, e);
    }
  }

  lemma FailSizes(s: State)
    requires SysInv(s)
    ensures SameSizes(s.core, FailStep(s).core)
  {
    CoreFrame(s.core, s.core.(failed := true));
    DrainCore(s.core.(failed := true), true);
  }

  lemma {:induction false} RunSizes(s: State, es: seq<Event>)
    requires SysInv(s)
    ensures SameSizes(s.core, Run(s, es).core)
  {
    hide SysInv;
    if es != [] {
      RunSizes(s, es[..|es| - 1]);
      StepSizes(Run(s, es[..|es| - 1]), es[|es| - 1]);
    }
  }

  lemma TrackersActive(c: Core)
    requires Shape(c.pool) && TrackInv(c)
    ensures forall x :: 0 <= x < |c.tr| ==> (c.tr[x].active <==> x in c.outTr)
  {
    OutMember(c);
    forall x | 0 <= x < |c.tr| ensures c.tr[x].active <==> x in c.outTr {
      assert x in c.freeTr || x in c.outTr;
      if x in c.freeTr {
        var i :| 0 <= i < |c.freeTr| && c.freeTr[i] == x;
      }
    }
  }

  /** At most `trackers` commands are in flight, the outstanding trackers are
      theirs, and the slot at sq_tail is never one still to be fetched. */
  lemma InFlightBound(entries: nat, trackers: nat, es: seq<Event>)
    requires 0 < trackers < entries
    ensures
      var s := Reached(entries, trackers, es);
      && |s.core.tr| == trackers && |s.core.sq.cmd| == entries && |s.core.pool.reqs| == 8 * trackers
      && (!s.core.failed ==> Owed(s) + s.orphans == multiset(s.core.outTr) && |Owed(s)| <= trackers)
      && (forall x :: 0 <= x < trackers ==> (s.core.tr[x].active <==> x in s.core.outTr))
      && (forall k :: s.core.sq.fetched <= k < |s.core.sq.sent| ==> Slot(k, entries) != s.core.sq.tail)
  {
    var s := Reached(entries, trackers, es);
    InitInv(entries, trackers);
    RunSizes(Init(entries, trackers), es);
    InFlight(s);
  }

  lemma InFlight(s: State)
    requires SysInv(s)
    ensures !s.core.failed ==> Owed(s) + s.orphans == multiset(s.core.outTr) && |Owed(s)| <= |s.core.tr|
    ensures forall x :: 0 <= x < |s.core.tr| ==> (s.core.tr[x].active <==> x in s.core.outTr)
    ensures forall k :: s.core.sq.fetched <= k < |s.core.sq.sent| ==> Slot(k, |s.core.sq.cmd|) != s.core.sq.tail
  {
    TrackersActive(s.core);
    TailFree(s.core.sq);
    if !s.core.failed {
      assert |Owed(s) + s.orphans| == |multiset(s.core.outTr)|;
    }
  }

  /** Polling: the phase tag shows a completion exactly when one posted is
      unconsumed; the one handled is the oldest such, it is then consumed, and
      the panic for an unknown command is reached exactly on a controller that
      was given up. */
  lemma PollExact(entries: nat, trackers: nat, es: seq<Event>)
    requires 0 < trackers < entries
    ensures
      var s := Reached(entries, trackers, es);
      && (Rings.Ready(s.cq) <==> s.cq.taken < |s.cq.posted|)
      && |s.cq.posted| - s.cq.acked <= |s.cq.cpl| - 1
      && (CanPoll(s) ==>
            && s.cq.cpl[s.cq.head].body == s.cq.posted[s.cq.taken]
            && (PollOne(s).panicked <==> s.core.failed)
            && (!s.core.failed ==>
                  PollOne(s).cq.taken == s.cq.taken + 1 && PollOne(s).cq.posted == s.cq.posted))
  {
    var s := Reached(entries, trackers, es);
    ReadyExact(s.cq);
    if CanPoll(s) {
      PollActive(s);
    }
  }

  /** The lifetime of r was called back between p and p'. */
  ghost predicate CalledBack(p: Pool, p': Pool, r: nat)
    requires Shape(p) && r < |p.reqs|
  {
    exists i :: |p.ended| <= i < |p'.ended| && p'.ended[i].tag == p.hist[r].tag && p'.ended[i].outcome.Called?
  }

  /** It was called back with an abort status. */
  ghost predicate AbortedBack(p: Pool, p': Pool, r: nat, dnr: bool)
    requires Shape(p) && r < |p.reqs|
  {
    exists i ::
      && |p.ended| <= i < |p'.ended|
      && p'.ended[i].tag == p.hist[r].tag
      && p'.ended[i].outcome.Called?
      && (p'.ended[i].outcome.status == Status(0, 7, false) || p'.ended[i].outcome.status == Status(0, 7, dnr))
  }

  /** In the drained state every submitted lifetime was called back with an
      abort status, split parents included. */
  lemma DrainEnds(c: Core, dnr: bool, r: nat)
    requires CoreInv(c) && KidsSubmitted(c.pool) && r < |c.pool.reqs| && Submitted(c.pool.hist[r].place)
    ensures AbortedBack(c.pool, DrainAll(c, dnr).pool, r, dnr)
  {
    hide TrackInv, QueueInv, FifoInv, RingInv, SqInv, KidsAccepted, TreeInv, LogInv, EndedInv, FreeInv, DrainAll, KidsSubmitted,
         AnsweredWith;
    DrainSlots(c, dnr);
    DrainExact(c, dnr);
    var p, p' := c.pool, DrainAll(c, dnr).pool;
    var i := GoneEnded(p, p', r);
  }

  /** A lifetime whose descriptor left the tree has ended since. */
  lemma GoneEnded(p: Pool, p': Pool, r: nat) returns (i: nat)
    requires Shape(p) && TagInv(p) && Shape(p') && TagInv(p') && r < |p.reqs| == |p'.reqs|
    requires p'.slot == p.slot && InTree(p.hist[r].place) && !InTree(p'.hist[r].place) && p.ended <= p'.ended
    ensures |p.ended| <= i < |p'.ended| && p'.ended[i].tag == p.hist[r].tag
  {
    assert p.slot[p.hist[r].tag] == r;
    assert forall j :: 0 <= j < |p.ended| ==> p.ended[j] == p'.ended[j] && p.ended[j].tag != p.hist[r].tag;
    i :| 0 <= i < |p'.ended| && p'.ended[i].tag == p.hist[r].tag;
  }

  lemma DrainSlots(c: Core, dnr: bool)
    requires CoreInv(c) && KidsSubmitted(c.pool)
    ensures DrainAll(c, dnr).pool.slot == c.pool.slot && Shape(DrainAll(c, dnr).pool)
    ensures |DrainAll(c, dnr).pool.reqs| == |c.pool.reqs|
    ensures forall r :: 0 <= r < |c.pool.reqs| && Submitted(c.pool.hist[r].place) ==>
              !InTree(DrainAll(c, dnr).pool.hist[r].place)
  {
    hide CoreInv, KidsSubmitted, AbortQueue, AbortTrackers, AnsweredWith, CalledSince;
    var c1, c' := AbortQueue(c), DrainAll(c, dnr);
    AbortQueueEffect(c);
    AbortTrackersEffect(c1, dnr);
    DrainFinishesAll(c, dnr);
    forall r | 0 <= r < |c.pool.reqs| && Submitted(c.pool.hist[r].place) ensures !InTree(c'.pool.hist[r].place) {
      assert Submitted(c1.pool.hist[r].place) || c1.pool.hist[r].place == Free;
    }
  }

  /** Between c and c' the queue pair was emptied: the queue and the
      outstanding list are empty, every tracker is idle, nothing was put on the
      ring, every request that was submitted, split parents included, was called
      back with an abort status, and none is left waiting. */
  ghost predicate Flushed(c: Core, c': Core, dnr: bool) {
    && Shape(c.pool) && Shape(c'.pool) && |c'.pool.reqs| == |c.pool.reqs|
    && IsDrained(c')
    && c'.ring == c.ring && c'.sq == c.sq
    && (forall r :: 0 <= r < |c'.pool.reqs| ==> !Submitted(c'.pool.hist[r].place))
    && (forall r :: 0 <= r < |c.pool.reqs| && Submitted(c.pool.hist[r].place) ==>
          AbortedBack(c.pool, c'.pool, r, dnr))
    && c.pool.ended <= c'.pool.ended && AbortedSince(|c.pool.ended|, c'.pool.ended, dnr)
    && (forall r :: 0 <= r < |c.pool.reqs| && c.pool.hist[r].place.Queued? ==>
          AnsweredWith(c.pool, c'.pool, r, Status(0, 7, false)))
    && (forall r :: 0 <= r < |c.pool.reqs| && c.pool.hist[r].place.Tracked? ==>
          AnsweredWith(c.pool, c'.pool, r, Status(0, 7, dnr)))
  }

  lemma DrainFlushes(c: Core, dnr: bool)
    requires Shape(c.pool) && CoreInv(c) && KidsSubmitted(c.pool)
    ensures Flushed(c, DrainAll(c, dnr), dnr)
  {
    hide CoreInv, TreeAt;
    DrainExact(c, dnr);
    DrainFinishesAll(c, dnr);
    DrainSlots(c, dnr);
    forall r | 0 <= r < |c.pool.reqs| && Submitted(c.pool.hist[r].place)
      ensures AbortedBack(c.pool, DrainAll(c, dnr).pool, r, dnr)
    {
      DrainEnds(c, dnr, r);
    }
  }

  /** Giving up on the controller, from any reachable state. */
  lemma GiveUpDrains(entries: nat, trackers: nat, es: seq<Event>)
    requires 0 < trackers < entries
    ensures
      var s := Reached(entries, trackers, es);
      Flushed(s.core, FailStep(s).core, true)
  {
    hide SysInv, Flushed;
    FailFlushes(Reached(entries, trackers, es));
  }

  lemma FailFlushes(s: State)
    requires SysInv(s)
    ensures Flushed(s.core, FailStep(s).core, true)
  {
    var c := s.core.(failed := true);
    CoreFrame(s.core, c);
    hide CoreInv, Wire;
    DrainFlushes(c, true);
    FlushedModes(s.core, c, DrainAll(c, true), true);
  }

  lemma FlushedModes(c: Core, c1: Core, c': Core, dnr: bool)
    requires c1 == c.(enabled := c1.enabled, failed := c1.failed) && Flushed(c1, c', dnr)
    ensures Flushed(c, c', dnr)
  {
  }

  /** Using a queue pair again after a reset. */
  lemma ReenableDrains(entries: nat, trackers: nat, es: seq<Event>)
    requires 0 < trackers < entries
    ensures
      var s := Reached(entries, trackers, es);
      !s.core.enabled && !s.core.resetting ==>
        EnsureEnabled(s).core.enabled && Flushed(s.core, EnsureEnabled(s).core, false)
  {
    hide SysInv, Flushed;
    var s := Reached(entries, trackers, es);
    if !s.core.enabled && !s.core.resetting {
      EnableFlushes(s);
    }
  }

  lemma EnableFlushes(s: State)
    requires SysInv(s) && !s.core.enabled && !s.core.resetting
    ensures EnsureEnabled(s).core.enabled && Flushed(s.core, EnsureEnabled(s).core, false)
  {
    var c := s.core.(enabled := true);
    CoreFrame(s.core, c);
    hide CoreInv, Wire;
    DrainFlushes(c, false);
    DrainCore(c, false);
    FlushedModes(s.core, c, DrainAll(c, false), false);
  }
}
