/** A queue pair together with the controller it talks to, and all their runs.

    The controller is any device that fetches commands in ring order, completes
    each fetched command once and in any order with any status, writes the
    phase tag of its current pass and stops when the completion queue is full
    (sections 4.1 and 4.6 of NVM Express 1.2).  Every event is atomic; polling
    is one event per completion, so that the controller can act in between. */
module System {
  import opened Common
  import opened Requests
  import opened Rings
  import opened Qpair
  import opened Drain
  import opened SplitSubmit

  datatype Cpl = Cpl(cid: nat, status: Status)

  datatype State = State(
    core: Core,
    cq: CompletionRing<Cpl>,
    inflight: multiset<nat>,   // fetched by the controller, not completed yet
    orphans: multiset<nat>,    // outstanding commands a controller reset threw away
    recreated: bool,           // the queues were re-created in the current reset
    panicked: bool)            // nvme_panic("received completion for unknown cmd")

  function CplCids(s: seq<Cpl>): (r: seq<nat>)
    ensures |r| == |s|
  {
    seq(|s|, i requires 0 <= i < |s| => s[i].cid)
  }

  ghost function Unfetched(s: State): (r: seq<nat>)
    requires s.core.sq.fetched <= |s.core.sq.sent|
  {
    Cids(s.core.sq.sent[s.core.sq.fetched..])
  }

  ghost function Pending(s: State): (r: seq<nat>)
    requires s.cq.taken <= |s.cq.posted|
  {
    CplCids(s.cq.posted[s.cq.taken..])
  }

  /** Command identifiers the controller owes or has delivered unseen. */
  ghost function Owed(s: State): multiset<nat>
    requires s.core.sq.fetched <= |s.core.sq.sent| && s.cq.taken <= |s.cq.posted|
  {
    multiset(Unfetched(s)) + s.inflight + multiset(Pending(s))
  }

  // ---------------------------------------------------------------- invariant

  /** A tracker is outstanding exactly when its command was submitted and its
      completion not yet consumed. */
  ghost predicate Link(s: State)
    requires s.core.sq.fetched <= |s.core.sq.sent| && s.cq.taken <= |s.cq.posted|
  {
    !s.core.failed ==> Owed(s) + s.orphans == multiset(s.core.outTr)
  }

  ghost predicate CidsValid(s: State)
    requires s.core.sq.fetched <= |s.core.sq.sent| && s.cq.taken <= |s.cq.posted|
  {
    forall x :: x in Owed(s) ==> x < |s.core.tr|
  }

  ghost predicate Modes(s: State)
    requires s.core.sq.fetched <= |s.core.sq.sent| && s.cq.taken <= |s.cq.posted|
  {
    && (s.core.enabled ==> !s.core.resetting && s.orphans == multiset{})
    && (s.core.failed ==> s.core.queue == [] && s.core.outTr == [])
    && (!s.core.enabled && !s.core.failed && (s.core.resetting ==> s.recreated) ==> Owed(s) == multiset{})
    && (s.panicked ==> s.core.failed)
  }

  /** What ties the driver's side to the controller's. */
  ghost predicate Wire(s: State) {
    && s.core.sq.fetched <= |s.core.sq.sent| && s.cq.taken <= |s.cq.posted|
    && |s.cq.cpl| == |s.core.sq.cmd|
    && Link(s)
    && CidsValid(s)
    && Modes(s)
  }

  ghost predicate SysInv(s: State) {
    && CoreInv(s.core)
    && CqInv(s.cq)
    && Wire(s)
    && WorkConserving(s.core)
    && Settled(s.core.pool)
  }

  lemma SysPool(s: State)
    requires SysInv(s)
    ensures PoolInv(s.core.pool)
  {
  }

  // ------------------------------------------------------------ initial state

  const IO_TRACKERS: nat := 128
  const REQS_PER_TRACKER: nat := 8   // NVME_IO_ENTRIES / NVME_IO_TRACKERS

  /** Queue depth and tracker count chosen by nvme_ioqp_get. */
  function QueueDepth(qd: nat, maxEntries: nat): Option<(nat, nat)> {
    if qd == 1 then None
    else
      var d := if qd == 0 || qd > maxEntries then maxEntries else qd;
      if d == 0 then None else Some((d, if IO_TRACKERS < d - 1 then IO_TRACKERS else d - 1))
  }

  /** A queue of one entry is refused, and so is any on a controller without
      entries.  The depth is the one asked for, or all the controller offers when
      that is 0 or too much; trackers are one less, and at most 128. */
  lemma QueueDepthExact(qd: nat, maxEntries: nat)
    ensures
      var d := QueueDepth(qd, maxEntries);
      && (d.None? <==> qd == 1 || maxEntries == 0)
      && (2 <= qd <= maxEntries ==> d.Some? && d.value.0 == qd)
      && (qd != 1 && (qd == 0 || qd > maxEntries) && maxEntries > 0 ==> d.Some? && d.value.0 == maxEntries)
      && (d.Some? ==> d.value.1 == if d.value.0 <= 129 then d.value.0 - 1 else 128)
  {
  }

  /** There is always one tracker less than ring entries, or fewer, and at
      least one unless the controller offers single-entry queues only. */
  lemma QueueDepthBounds(qd: nat, maxEntries: nat)
    ensures
      var d := QueueDepth(qd, maxEntries);
      d.Some? ==> d.value.0 <= maxEntries && d.value.1 <= d.value.0 - 1 && d.value.1 <= IO_TRACKERS
    ensures
      var d := QueueDepth(qd, maxEntries);
      d.Some? && maxEntries >= 2 ==> d.value.0 >= 2 && d.value.1 >= 1
  {
  }

  /** nvme_qpair_construct; trackers are inserted at the head of the free list. */
  function InitCore(entries: nat, trackers: nat): (c: Core) {
    var n := REQS_PER_TRACKER * trackers;
    Core(NewSq(seq(entries, i => Command(0, 0))),
         seq(trackers, i => trackers - 1 - i),
         [],
         seq(trackers, i => IDLE),
         NewPool(n),
         [], false, false, false,
         seq(n, i => 0), 0, [], [])
  }

  function NoCpl(entries: nat): (s: seq<Entry<Cpl>>)
    ensures |s| == entries && forall i :: 0 <= i < entries ==> !s[i].phase
  {
    seq(entries, i => Entry(Cpl(0, SUCCESS), false))
  }

  function Init(entries: nat, trackers: nat): (s: State) {
    State(InitCore(entries, trackers), NewCq(NoCpl(entries)), multiset{}, multiset{}, false, false)
  }

  lemma InitInv(entries: nat, trackers: nat)
    requires 0 < trackers < entries
    ensures SysInv(Init(entries, trackers))
  {
    hide PoolInv, CqInv;
    var s := Init(entries, trackers);
    var c := s.core;
    NewPoolInv(|c.pool.reqs|);
    NewCqInv(NoCpl(entries));
    SlotFirstPass(0, entries);
    forall x | 0 <= x < trackers ensures x in c.freeTr {
      assert c.freeTr[trackers - 1 - x] == x;
    }
    assert s.core.sq.sent[0..] == [] && s.cq.posted[0..] == [];
    assert Owed(s) == multiset{};
  }

  // --------------------------------------------------------- controller steps

  function DeviceFetch(s: State): State
    requires s.core.sq.head < |s.core.sq.cmd|
  {
    s.(core := s.core.(sq := Fetch(s.core.sq)),
       inflight := s.inflight + multiset{s.core.sq.cmd[s.core.sq.head].cid})
  }

  function DevicePost(s: State, x: nat, st: Status): State
    requires s.cq.tail < |s.cq.cpl|
  {
    s.(cq := Post(s.cq, Cpl(x, st)), inflight := s.inflight - multiset{x})
  }

  /** The invariant of the driver's side does not depend on the flags, nor on
      the ring beyond its own invariant. */
  lemma CoreFrame(c: Core, c': Core)
    requires CoreInv(c)
    requires c' == c.(sq := c'.sq, enabled := c'.enabled, resetting := c'.resetting, failed := c'.failed)
    requires SqInv(c'.sq) && |c'.sq.cmd| == |c.sq.cmd|
    ensures CoreInv(c')
  {
    TrackFrame(c, c');
  }

  lemma SwitchInv(s: State)
    requires SysInv(s)
    ensures CoreInv(s.core.(enabled := true)) && CoreInv(s.core.(failed := true))
  {
    CoreFrame(s.core, s.core.(enabled := true));
    CoreFrame(s.core, s.core.(failed := true));
  }

  lemma FetchOwed(s: State)
    requires SqInv(s.core.sq) && HasWork(s.core.sq) && s.cq.taken <= |s.cq.posted|
    ensures SqInv(DeviceFetch(s).core.sq)
    ensures Owed(DeviceFetch(s)) == Owed(s)
  {
    var s' := DeviceFetch(s);
    var q := s.core.sq;
    FetchInv(q);
    assert q.sent[q.fetched..] == [q.sent[q.fetched]] + q.sent[q.fetched + 1..];
    CidsConcat([q.sent[q.fetched]], q.sent[q.fetched + 1..]);
    assert Cids([q.sent[q.fetched]]) == [q.sent[q.fetched].cid];
    assert multiset(Unfetched(s)) == multiset{q.sent[q.fetched].cid} + multiset(Unfetched(s'));
  }

  lemma FetchKeeps(s: State)
    requires SysInv(s) && HasWork(s.core.sq)
    ensures SysInv(DeviceFetch(s))
  {
    FetchOwed(s);
    CoreFrame(s.core, DeviceFetch(s).core);
  }

  lemma PostOwed(s: State, x: nat, st: Status)
    requires CqInv(s.cq) && s.core.sq.fetched <= |s.core.sq.sent| && x in s.inflight
    ensures Owed(DevicePost(s, x, st)) == Owed(s)
  {
    var s' := DevicePost(s, x, st);
    assert s'.cq.posted[s.cq.taken..] == s.cq.posted[s.cq.taken..] + [Cpl(x, st)];
    assert Pending(s') == Pending(s) + [x];
    assert s.inflight == s'.inflight + multiset{x};
  }

  lemma PostKeeps(s: State, x: nat, st: Status)
    requires SysInv(s) && x in s.inflight && !CqFull(s.cq)
    ensures SysInv(DevicePost(s, x, st))
  {
    PostInv(s.cq, Cpl(x, st));
    PostOwed(s, x, st);
  }

  /** Changing only the request pool leaves the controller's view alone. */
  lemma PoolStep(s: State, p: Pool)
    requires SysInv(s) && CoreInv(s.core.(pool := p)) && Settled(p)
    ensures SysInv(s.(core := s.core.(pool := p)))
  {
    assert Owed(s.(core := s.core.(pool := p))) == Owed(s);
  }

  // ------------------------------------------------------------- driver steps

  function TakeRequest(s: State, accept: bool): State
    requires Shape(s.core.pool) && s.core.pool.free != [] && s.core.pool.free[0] < |s.core.pool.reqs|
  {
    s.(core := s.core.(pool := Allocate(s.core.pool, accept)))
  }

  lemma TakeKeeps(s: State, accept: bool)
    requires SysInv(s) && s.core.pool.free != []
    ensures SysInv(TakeRequest(s, accept))
  {
    TakeCore(s.core, accept);
    assert s.core.pool.hist[s.core.pool.free[0]].place == Free;
    PoolStep(s, Allocate(s.core.pool, accept));
  }

  lemma TakeCore(c: Core, accept: bool)
    requires CoreInv(c) && c.pool.free != []
    ensures CoreInv(c.(pool := Allocate(c.pool, accept)))
  {
    var c' := c.(pool := Allocate(c.pool, accept));
    AllocateInv(c.pool, accept);
    assert c.pool.hist[c.pool.free[0]].place == Free;
    TrackFrame(c, c');
    QueueFrame(c, c');
    TakeRing(c, accept);
  }

  lemma TakeRing(c: Core, accept: bool)
    requires CoreInv(c) && c.pool.free != []
    ensures RingInv(c.(pool := Allocate(c.pool, accept)))
  {
    assert c.pool.hist[c.pool.free[0]].place == Free;
  }

  /** A child must be one the builders accept. */
  ghost predicate CanAttach(s: State, q: nat, k: nat) {
    && CanAddChild(s.core.pool, q, k)
    && (s.core.pool.hist[k].nkids == 0 ==> s.core.pool.reqs[k].accept)
  }

  function AttachChild(s: State, q: nat, k: nat): State
    requires Shape(s.core.pool) && q < |s.core.pool.reqs| && k < |s.core.pool.reqs| && q != k
  {
    s.(core := s.core.(pool := AddChild(s.core.pool, q, k)))
  }

  lemma AttachCore(c: Core, q: nat, k: nat)
    requires CoreInv(c) && CanAddChild(c.pool, q, k)
    requires c.pool.hist[k].nkids == 0 ==> c.pool.reqs[k].accept
    ensures CoreInv(c.(pool := AddChild(c.pool, q, k)))
  {
    hide InOrder, SqInv, EndedInv, TagInv, LogInv;
    var c' := c.(pool := AddChild(c.pool, q, k));
    AddChildInv(c.pool, q, k);
    TrackFrame(c, c');
    QueueFrame(c, c');
    RingFrame(c, c');
  }

  lemma AttachKeeps(s: State, q: nat, k: nat)
    requires SysInv(s) && CanAttach(s, q, k)
    ensures SysInv(AttachChild(s, q, k))
  {
    AttachCore(s.core, q, k);
    AttachSettled(s.core.pool, q, k);
    PoolStep(s, AddChild(s.core.pool, q, k));
  }

  lemma AttachSettled(p: Pool, q: nat, k: nat)
    requires CanAddChild(p, q, k) && Settled(p)
    ensures Settled(AddChild(p, q, k))
  {
  }

  lemma AbortHeld(c: Core, c': Core, st: Status)
    requires AbortEffect(c, c', st) && HeldUnanswered(c.pool)
    ensures HeldUnanswered(c'.pool)
    ensures forall r :: 0 <= r < |c.pool.reqs| && c.pool.hist[r].place == Held ==>
              c'.pool.hist[r] == c.pool.hist[r] && c'.pool.reqs[r] == c.pool.reqs[r]
  {
  }

  lemma DrainSettled(c: Core, dnr: bool)
    requires CoreInv(c) && Settled(c.pool)
    ensures Settled(DrainAll(c, dnr).pool) && |DrainAll(c, dnr).pool.reqs| == |c.pool.reqs|
    ensures forall r :: 0 <= r < |c.pool.reqs| && c.pool.hist[r].place == Held ==>
              && DrainAll(c, dnr).pool.hist[r] == c.pool.hist[r]
              && DrainAll(c, dnr).pool.reqs[r] == c.pool.reqs[r]
  {
    DrainFinishesAll(c, dnr);
    AbortQueueEffect(c);
    AbortTrackersEffect(AbortQueue(c), dnr);
    AbortHeld(c, AbortQueue(c), Aborted(false));
    AbortHeld(AbortQueue(c), DrainAll(c, dnr), Aborted(dnr));
  }

  /** nvme_qpair_enabled: re-enabling an I/O queue pair aborts what a reset left. */
  ghost function EnsureEnabled(s: State): State
    requires SysInv(s)
  {
    if s.core.enabled || s.core.resetting then s
    else
      CoreFrame(s.core, s.core.(enabled := true));
      s.(core := DrainAll(s.core.(enabled := true), false), orphans := multiset{})
  }

  lemma EnableSteps(s: State)
    requires SysInv(s)
    ensures CoreInv(s.core.(enabled := true))
    ensures EnsureEnabled(s) ==
            if s.core.enabled || s.core.resetting then s
            else s.(core := DrainAll(s.core.(enabled := true), false), orphans := multiset{})
  {
    CoreFrame(s.core, s.core.(enabled := true));
    hide CoreInv, DrainAll;
  }

  /** A drained queue pair needs nothing from the controller. */
  lemma DrainedSys(s: State, s': State)
    requires Wire(s) && CqInv(s.cq)
    requires CoreInv(s'.core) && IsDrained(s'.core) && Settled(s'.core.pool)
    requires s'.core.sq == s.core.sq && |s'.core.tr| == |s.core.tr| && s'.cq == s.cq && s'.inflight == s.inflight
    requires s'.core.failed || (Owed(s) == multiset{} && s'.orphans == multiset{})
    requires s'.core.enabled ==> !s'.core.resetting && s'.orphans == multiset{}
    requires s'.panicked ==> s'.core.failed
    ensures SysInv(s')
  {
    assert Owed(s') == Owed(s);
  }

  lemma EnsureEnabledKeeps(s: State)
    requires SysInv(s)
    ensures SysInv(EnsureEnabled(s))
    ensures EnsureEnabled(s).core.enabled || EnsureEnabled(s).core.resetting
    ensures EnsureEnabled(s).core.failed == s.core.failed
  {
    if !s.core.enabled && !s.core.resetting {
      var c := s.core.(enabled := true);
      CoreFrame(s.core, c);
      DrainCore(c, false);
      DrainSettled(c, false);
      DrainedSys(s, EnsureEnabled(s));
    }
  }

  ghost function FailStep(s: State): State
    requires SysInv(s)
  {
    CoreFrame(s.core, s.core.(failed := true));
    s.(core := DrainAll(s.core.(failed := true), true))
  }

  lemma FailKeeps(s: State)
    requires SysInv(s)
    ensures SysInv(FailStep(s))
  {
    var c := s.core.(failed := true);
    CoreFrame(s.core, c);
    DrainCore(c, true);
    DrainSettled(c, true);
    DrainedSys(s, FailStep(s));
  }

  function BeginReset(s: State): State {
    s.(core := s.core.(resetting := true, enabled := false), recreated := false)
  }

  /** The controller has been disabled and enabled again and the queue pair
      re-created on it: nvme_qpair_reset clears both rings. */
  function Recreate(s: State): State {
    s.(core := s.core.(sq := NewSq(seq(|s.core.sq.cmd|, i => Command(0, 0)))),
       cq := NewCq(NoCpl(|s.cq.cpl|)),
       inflight := multiset{},
       orphans := multiset(s.core.outTr),
       recreated := true)
  }

  function EndReset(s: State): State {
    s.(core := s.core.(resetting := false))
  }

  lemma ResetKeeps(s: State)
    requires SysInv(s)
    ensures SysInv(BeginReset(s))
    ensures s.core.resetting ==> SysInv(Recreate(s))
    ensures s.core.resetting && (s.recreated || s.core.failed) ==> SysInv(EndReset(s))
  {
    hide SysInv;
    BeginKeeps(s);
    if s.core.resetting && (s.recreated || s.core.failed) {
      EndKeeps(s);
    }
    RecreateKeeps(s);
  }

  lemma BeginKeeps(s: State)
    requires SysInv(s)
    ensures SysInv(BeginReset(s))
  {
    CoreFrame(s.core, BeginReset(s).core);
    assert Owed(BeginReset(s)) == Owed(s);
  }

  lemma EndKeeps(s: State)
    requires SysInv(s) && s.core.resetting && (s.recreated || s.core.failed)
    ensures SysInv(EndReset(s))
  {
    CoreFrame(s.core, EndReset(s).core);
    assert Owed(EndReset(s)) == Owed(s);
  }

  lemma RecreateKeeps(s: State)
    requires SysInv(s)
    ensures s.core.resetting ==> SysInv(Recreate(s))
  {
    var s' := Recreate(s);
    SlotFirstPass(0, |s.core.sq.cmd|);
    CoreFrame(s.core, s'.core);
    NewCqInv(NoCpl(|s.cq.cpl|));
    assert s'.core.sq.sent[0..] == [] && s'.cq.posted[0..] == [];
    assert Owed(s') == multiset{};
  }

  /** Commands still in the ring are outstanding. */
  lemma RoomFromLink(s: State)
    requires SysInv(s) && !s.core.failed
    ensures Room(s.core, |Pending(s)|)
  {
    assert |Owed(s) + s.orphans| == |multiset(s.core.outTr)|;
  }

  ghost predicate CanSubmit(s: State, r: nat) {
    && Shape(s.core.pool)
    && IsRoot(s.core.pool, r)
    && (s.core.failed ==> s.core.pool.reqs[r].children == [])
  }

  lemma SubmitReady(s: State, r: nat)
    requires SysInv(s) && CanSubmit(s, r) && !s.core.failed
    ensures SysInv(EnsureEnabled(s)) && RootPre(EnsureEnabled(s).core, r)
  {
    EnsureEnabledKeeps(s);
    RoomFromLink(EnsureEnabled(s));
    if !s.core.enabled && !s.core.resetting {
      CoreFrame(s.core, s.core.(enabled := true));
      DrainSettled(s.core.(enabled := true), false);
    }
  }

  /** nvme_qpair_submit_request as the caller sees it. */
  ghost function SubmitStep(s: State, r: nat): State
    requires SysInv(s) && CanSubmit(s, r)
  {
    if s.core.failed then s.(core := s.core.(pool := Refuse(s.core.pool, r)))
    else
      SubmitReady(s, r);
      var s1 := EnsureEnabled(s);
      s1.(core := SubmitRoot(s1.core, r))
  }

  lemma FlowOwed(s: State, c: Core, gone: multiset<nat>)
    requires s.core.sq.fetched <= |s.core.sq.sent| && s.cq.taken <= |s.cq.posted|
    requires Flow(s.core, c, gone)
    ensures c.sq.fetched <= |c.sq.sent|
    ensures Owed(s.(core := c)) == Owed(s) + multiset(Cids(c.sq.sent[|s.core.sq.sent|..]))
  {
    var q, q' := s.core.sq, c.sq;
    assert q'.sent[q.fetched..] == q.sent[q.fetched..] + q'.sent[|q.sent|..];
    CidsConcat(q.sent[q.fetched..], q'.sent[|q.sent|..]);
  }

  lemma RefuseKeeps(s: State, r: nat)
    requires SysInv(s) && IsRoot(s.core.pool, r) && s.core.pool.reqs[r].children == []
    ensures SysInv(s.(core := s.core.(pool := Refuse(s.core.pool, r))))
  {
    RefuseCore(s.core, r);
    PoolStep(s, Refuse(s.core.pool, r));
  }

  lemma RefuseCore(c: Core, r: nat)
    requires CoreInv(c) && IsRoot(c.pool, r) && c.pool.reqs[r].children == [] && Settled(c.pool)
    ensures CoreInv(c.(pool := Refuse(c.pool, r))) && Settled(Refuse(c.pool, r))
  {
    hide InOrder, SqInv, EndedInv, TagInv, Settled;
    var c' := c.(pool := Refuse(c.pool, r));
    RefuseInv(c.pool, r);
    RefusedSettled(c.pool, r);
    TrackFrame(c, c');
    QueueFrame(c, c');
    RingFrame(c, c');
  }

  lemma RefusedSettled(p: Pool, r: nat)
    requires Shape(p) && IsRoot(p, r) && Settled(p)
    ensures Settled(Refuse(p, r))
  {
  }

  lemma SubmitKeeps(s: State, r: nat)
    requires SysInv(s) && CanSubmit(s, r)
    ensures SysInv(SubmitStep(s, r))
  {
    if s.core.failed {
      RefuseKeeps(s, r);
    } else {
      SubmitReady(s, r);
      var s1 := EnsureEnabled(s);
      SubmitRootKeeps(s1.core, r);
      FlowKeeps(s1, SubmitRoot(s1.core, r));
    }
  }

  lemma FlowKeeps(s: State, c: Core)
    requires SysInv(s) && !s.core.failed && SubmitPre(c) && Settled(c.pool) && Flow(s.core, c, multiset{})
    ensures SysInv(s.(core := c))
  {
    OutMember(c);
    FlowWire(s, c);
  }

  lemma FlowWire(s: State, c: Core)
    requires Wire(s) && Flow(s.core, c, multiset{}) && !s.core.failed
    requires forall x :: x in c.outTr ==> x < |c.tr|
    ensures Wire(s.(core := c))
  {
    var s' := s.(core := c);
    FlowOwed(s, c, multiset{});
    var added := multiset(Cids(c.sq.sent[|s.core.sq.sent|..]));
    assert multiset(c.outTr) == multiset(s.core.outTr) + added;
    forall x | x in Owed(s') ensures x < |c.tr| {
      AddedMember(Owed(s), multiset(s.core.outTr), added, c.outTr, x);
    }
    if !c.enabled {
      assert c.sq == s.core.sq;
    }
  }

  lemma AddedMember(a: multiset<nat>, b: multiset<nat>, added: multiset<nat>, out: seq<nat>, x: nat)
    requires multiset(out) == b + added && x in a + added
    ensures x in a || x in out
  {
    if x in added {
      assert x in multiset(out);
    }
  }

  // ------------------------------------------------------------------ polling

  /** The loop of nvme_qpair_poll looks at one more completion. */
  ghost predicate CanPoll(s: State)
    requires SysInv(s)
  {
    s.core.enabled && !s.panicked && Ready(s.cq)
  }

  lemma PollCid(s: State)
    requires SysInv(s) && Ready(s.cq)
    ensures s.cq.taken < |s.cq.posted| && s.cq.cpl[s.cq.head].body == s.cq.posted[s.cq.taken]
    ensures Pending(s) == [s.cq.posted[s.cq.taken].cid] + CplCids(s.cq.posted[s.cq.taken + 1..])
    ensures s.cq.posted[s.cq.taken].cid in Owed(s)
    ensures s.cq.posted[s.cq.taken].cid < |s.core.tr|
  {
    hide PoolInv, TrackInv, QueueInv, FifoInv, RingInv, SqInv, KidsAccepted, WorkConserving, Settled;
    ReadyExact(s.cq);
    FirstPending(s);
    assert s.cq.posted[s.cq.taken].cid in multiset(Pending(s));
  }

  lemma FirstPending(s: State)
    requires s.cq.taken < |s.cq.posted|
    ensures Pending(s) == [s.cq.posted[s.cq.taken].cid] + CplCids(s.cq.posted[s.cq.taken + 1..])
    ensures s.cq.posted[s.cq.taken].cid in multiset(Pending(s))
  {
    var t := s.cq.posted[s.cq.taken..];
    assert t == [t[0]] + t[1..];
    assert Pending(s)[0] == t[0].cid;
  }

  lemma PollPre(s: State)
    requires SysInv(s) && s.core.enabled && Ready(s.cq) && !s.core.failed
    ensures CompletePre(s.core, s.cq.cpl[s.cq.head].body.cid)
  {
    PollCid(s);
    var x := s.cq.cpl[s.cq.head].body.cid;
    assert x in multiset(s.core.outTr);
    OutMember(s.core);
    RoomFromLink(s);
  }

  ghost function PollOne(s: State): State
    requires SysInv(s) && CanPoll(s)
  {
    PollCid(s);
    var e := s.cq.cpl[s.cq.head].body;
    if s.core.tr[e.cid].active then
      PollActive(s);
      PollPre(s);
      s.(core := Complete(s.core, e.cid, e.status), cq := Take(s.cq))
    else
      s.(panicked := true)
  }

  /** The completion at the head belongs to an active tracker, unless the
      controller was given up. */
  lemma PollActive(s: State)
    requires SysInv(s) && s.core.enabled && Ready(s.cq)
    ensures s.cq.cpl[s.cq.head].body.cid < |s.core.tr|
    ensures s.core.tr[s.cq.cpl[s.cq.head].body.cid].active <==> !s.core.failed
  {
    PollCid(s);
    var x := s.cq.posted[s.cq.taken].cid;
    if s.core.failed {
      assert x in s.core.freeTr || x in s.core.outTr;
    } else {
      PollPre(s);
    }
  }

  lemma {:induction false} SubmitLeafSettled(c: Core, r: nat)
    requires LeafPre(c, r) && Settled(c.pool.(hist := c.pool.hist[r := c.pool.hist[r].(place := Queued)]))
    ensures Settled(SubmitLeaf(c, r).pool)
    decreases |c.queue|, 1
  {
    assert Shape(c.pool);
    hide CoreInv;
    if c.freeTr == [] || !c.enabled {
      assert Enqueue(c, r).pool == c.pool.(hist := c.pool.hist[r := c.pool.hist[r].(place := Queued)]);
    } else if c.pool.reqs[r].accept {
      DispatchSettled(c, r);
    } else {
      RejectInv(c, r);
      RejectSettled(c.pool, Reject(c, r).pool, r);
      PumpSettled(Reject(c, r));
    }
  }

  lemma DispatchSettled(c: Core, r: nat)
    requires Staged(c, r) && c.freeTr != []
    requires Settled(c.pool.(hist := c.pool.hist[r := c.pool.hist[r].(place := Queued)]))
    ensures Settled(Dispatch(c, r).pool)
  {
    var q, p := c.pool.(hist := c.pool.hist[r := c.pool.hist[r].(place := Queued)]), Dispatch(c, r).pool;
    hide CoreInv;
    forall y | 0 <= y < |p.reqs| ensures p.reqs[y].cb == q.reqs[y].cb {
    }
    forall y | 0 <= y < |p.reqs| && y != r ensures p.hist[y] == q.hist[y] {
    }
  }

  lemma RejectSettled(p: Pool, p': Pool, r: nat)
    requires Shape(p) && r < |p.reqs| && Settled(p.(hist := p.hist[r := p.hist[r].(place := Queued)]))
    requires Shape(p') && |p'.reqs| == |p.reqs| && FinishEffect(p, p', r, INVALID_FIELD)
    ensures Settled(p')
  {
    var q := p.(hist := p.hist[r := p.hist[r].(place := Queued)]);
    assert forall y :: 0 <= y < |p.reqs| && y != r ==> q.hist[y] == p.hist[y];
  }

  lemma {:induction false} PumpSettled(c: Core)
    requires PumpPre(c) && Settled(c.pool)
    ensures Settled(Pump(c).pool)
    decreases |c.queue|, 0
  {
    if c.queue != [] && !c.resetting {
      var r, p := c.queue[0], Dequeue(c).pool;
      DequeueInv(c);
      assert p.(hist := p.hist[r := p.hist[r].(place := Queued)]) == c.pool;
      SubmitLeafSettled(Dequeue(c), r);
    }
  }

  lemma CompleteSettled(c: Core, x: nat, st: Status)
    requires Shape(c.pool) && CompletePre(c, x) && Settled(c.pool)
    ensures Settled(Complete(c, x, st).pool)
  {
    hide CoreInv;
    var r := c.tr[x].req.value;
    if WillRetry(c, x, st) {
      RetrySettled(c.pool, r, c.pool.reqs[r].(retries := c.pool.reqs[r].retries + 1));
    } else {
      RetirePump(c, x, st);
      FinishSettled(c.pool, Retire(c, x, st).pool, r, st);
      PumpSettled(Retire(c, x, st));
    }
  }

  lemma RetrySettled(p: Pool, r: nat, q: Request)
    requires Shape(p) && r < |p.reqs| && Settled(p) && q.cb == p.reqs[r].cb
    ensures Settled(SetReq(p, r, q))
  {
  }

  lemma PollWire(s: State, c: Core, x: nat)
    requires Wire(s) && s.core.enabled && !s.core.failed && s.cq.head < |s.cq.cpl|
    requires s.cq.taken < |s.cq.posted| && x == s.cq.posted[s.cq.taken].cid
    requires Flow(s.core, c, multiset{x})
    requires forall y :: y in c.outTr ==> y < |c.tr|
    ensures Wire(s.(core := c, cq := Take(s.cq)))
  {
    var s1 := s.(core := c);
    var s' := s1.(cq := Take(s.cq));
    FlowOwed(s, c, multiset{x});
    var t := s.cq.posted[s.cq.taken..];
    assert t == [t[0]] + s.cq.posted[s.cq.taken + 1..];
    assert Pending(s1) == [x] + Pending(s');
    assert Owed(s1) == Owed(s') + multiset{x};
    assert Owed(s) == multiset(s.core.outTr);
    CancelOne(Owed(s'), multiset(c.outTr), x);
    PolledWire(s', c);
  }

  lemma PolledWire(s: State, c: Core)
    requires s.core == c && c.enabled && !c.resetting && !c.failed && !s.panicked && s.orphans == multiset{}
    requires c.sq.fetched <= |c.sq.sent| && s.cq.taken <= |s.cq.posted| && |s.cq.cpl| == |c.sq.cmd|
    requires Owed(s) == multiset(c.outTr)
    requires forall y :: y in c.outTr ==> y < |c.tr|
    ensures Wire(s)
  {
    assert forall y :: y in Owed(s) ==> y in c.outTr;
  }

  lemma CancelOne(a: multiset<nat>, b: multiset<nat>, x: nat)
    requires a + multiset{x} == b + multiset{x}
    ensures a == b
  {
    assert a == (a + multiset{x}) - multiset{x};
    assert b == (b + multiset{x}) - multiset{x};
  }

  lemma PollKeeps(s: State)
    requires SysInv(s) && CanPoll(s)
    ensures SysInv(PollOne(s))
  {
    PollActive(s);
    PollCid(s);
    if !s.core.failed {
      PollCore(s);
    } else {
      assert Owed(PollOne(s)) == Owed(s);
    }
  }

  lemma PollCore(s: State)
    requires SysInv(s) && CanPoll(s) && !s.core.failed
    ensures SysInv(PollOne(s))
  {
    PollActive(s);
    PollCid(s);
    PollPre(s);
    var e := s.cq.cpl[s.cq.head].body;
    var c := Complete(s.core, e.cid, e.status);
    CompleteWork(s.core, e.cid, e.status);
    CompleteSettled(s.core, e.cid, e.status);
    CompleteFlow(s.core, e.cid, e.status);
    OutMember(c);
    PollWire(s, c, e.cid);
    TakeInv(s.cq);
  }

  function Ack(s: State): State {
    s.(cq := RingHead(s.cq))
  }

  lemma AckKeeps(s: State)
    requires SysInv(s)
    ensures SysInv(Ack(s))
  {
    RingHeadInv(s.cq);
    assert Owed(Ack(s)) == Owed(s);
  }

  /** What nvme_qpair_poll relies on at a slot whose phase matches. */
  lemma PollFacts(s: State)
    requires SysInv(s) && CanPoll(s)
    ensures s.cq.head < |s.cq.cpl| && s.cq.cpl[s.cq.head].body.cid < |s.core.tr|
    ensures
      var e := s.cq.cpl[s.cq.head].body;
      if s.core.tr[e.cid].active then
        && CompletePre(s.core, e.cid)
        && PollOne(s) == s.(core := Complete(s.core, e.cid, e.status), cq := Take(s.cq))
      else
        PollOne(s) == s.(panicked := true)
  {
    PollActive(s);
    if !s.core.failed {
      PollPre(s);
    }
  }
}
