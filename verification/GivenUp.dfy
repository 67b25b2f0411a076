/** What a reset that fails does to a completion the driver has not handled yet:
    nvme_ctrlr_fail returns every tracker, but the completion ring keeps what was
    posted, and the first poll after the reset stops on a tracker that is not
    active. */
module GivenUp {
  import opened Requests
  import opened Rings
  import opened Qpair
  import opened Drain
  import opened SplitSubmit
  import opened System
  import opened Runs
  import opened Service

  /** The three steps of a reset that fails. */
  lemma StepReset(s: State)
    requires SysInv(s) && !s.panicked
    ensures !s.core.resetting && !s.core.failed ==> Step(s, ResetBegin) == BeginReset(s)
    ensures s.core.resetting ==> Step(s, GiveUp) == FailStep(s)
    ensures s.core.resetting && s.core.failed ==> Step(s, ResetEnd) == EndReset(s)
  {
    hide SysInv, CanAttach, CanSubmit, CanPoll, HasWork, CqFull, FailStep;
  }

  lemma FailedState(s: State)
    requires SysInv(s)
    ensures FailStep(s).core.failed
    ensures FailStep(s).core.enabled == s.core.enabled && FailStep(s).core.resetting == s.core.resetting
    ensures FailStep(s).cq == s.cq && FailStep(s).panicked == s.panicked
  {
    CoreFrame(s.core, s.core.(failed := true));
    hide CoreInv;
    DrainExact(s.core.(failed := true), true);
  }

  /** Enabling keeps the completion ring. */
  lemma EnabledState(s: State)
    requires SysInv(s) && !s.core.enabled && !s.core.resetting
    ensures EnsureEnabled(s).core.enabled && EnsureEnabled(s).core.failed == s.core.failed
    ensures EnsureEnabled(s).cq == s.cq && EnsureEnabled(s).panicked == s.panicked
  {
    CoreFrame(s.core, s.core.(enabled := true));
    hide CoreInv;
    DrainExact(s.core.(enabled := true), false);
  }

  /** Polling a failed controller that left a completion panics. */
  lemma LeftoverPanics(s: State)
    requires SysInv(s) && s.core.failed && !s.core.enabled && !s.core.resetting && !s.panicked && Ready(s.cq)
    ensures SysInv(Step(s, PollBegin)) && Step(Step(s, PollBegin), PollNext).panicked
  {
    StepPolls(s);
    StepKeeps(s, PollBegin);
    EnabledState(s);
    hide SysInv, Step, EnsureEnabled;
    var s' := EnsureEnabled(s);
    PollActive(s');
    StepPolls(s');
  }

  lemma NotResetting(s: State)
    requires Running(s)
    ensures !s.core.resetting
  {
  }

  lemma RunThree(s: State, a: Event, b: Event, e: Event)
    requires SysInv(s)
    ensures SysInv(Step(s, a)) && SysInv(Step(Step(s, a), b))
    ensures Run(s, [a, b, e]) == Step(Step(Step(s, a), b), e)
  {
    hide SysInv, Step;
    StepKeeps(s, a);
    StepKeeps(Step(s, a), b);
    RunOne(s, a);
    RunSnoc(s, [a], b);
    assert [a] + [b] == [a, b];
    RunSnoc(s, [a, b], e);
    assert [a, b] + [e] == [a, b, e];
  }

  /** A reset that fails leaves the completion ring as it was. */
  lemma FailedReset(s: State)
    requires Running(s)
    ensures
      var s' := Run(s, [ResetBegin, GiveUp, ResetEnd]);
      && s'.core.failed && !s'.core.enabled && !s'.core.resetting && !s'.panicked
      && s'.cq == s.cq
  {
    hide SysInv, Step, FailStep, Run;
    RunThree(s, ResetBegin, GiveUp, ResetEnd);
    NotResetting(s);
    StepReset(s);
    StepReset(BeginReset(s));
    FailedState(BeginReset(s));
    StepReset(FailStep(BeginReset(s)));
  }

  /** From any queue pair in use with a completion not handled yet. */
  lemma FailedResetPanics(s: State)
    requires Running(s) && Ready(s.cq)
    ensures Run(s, [ResetBegin, GiveUp, ResetEnd, PollBegin, PollNext]).panicked
  {
    hide SysInv, Step, Run;
    var es := [ResetBegin, GiveUp, ResetEnd];
    FailedReset(s);
    LeftoverPanics(Run(s, es));
    RunSnoc(s, es, PollBegin);
    RunSnoc(s, es + [PollBegin], PollNext);
    assert es + [PollBegin] + [PollNext] == [ResetBegin, GiveUp, ResetEnd, PollBegin, PollNext];
  }

  // ----------------------------------------------------- such a state is reached

  /** A fresh queue pair with one request taken from its pool. */
  lemma FirstTaken(entries: nat, trackers: nat)
    requires 0 < trackers < entries
    ensures
      var s := Init(entries, trackers);
      && SysInv(s)
      && Shape(s.core.pool) && s.core.pool.free != [] && s.core.pool.free[0] == 0 && 0 < |s.core.pool.reqs|
      && Step(s, TakeReq(true)) == TakeRequest(s, true)
      && SysInv(TakeRequest(s, true))
      && CanSubmit(TakeRequest(s, true), 0)
      && !TakeRequest(s, true).core.enabled
  {
    InitInv(entries, trackers);
    var s := Init(entries, trackers);
    assert s.core.pool.free[0] == 0;
    TakeKeeps(s, true);
  }

  /** Enabling an idle queue pair aborts nothing. */
  lemma IdleEnabled(s: State)
    requires SysInv(s) && !s.core.enabled && !s.core.resetting && s.core.queue == [] && s.core.outTr == []
    ensures EnsureEnabled(s) == s.(core := s.core.(enabled := true), orphans := multiset{})
  {
    CoreFrame(s.core, s.core.(enabled := true));
    hide CoreInv;
  }

  lemma RootDispatched(c: Core, r: nat)
    requires RootPre(c, r) && c.pool.reqs[r].children == []
    requires c.enabled && c.freeTr != [] && c.pool.reqs[r].accept
    ensures r < |c.seqno| == |c.pool.reqs| && c.sq.tail < |c.sq.cmd| && c.freeTr[0] < |c.tr|
    ensures SubmitRoot(c, r) == Dispatch(Accept(c, r), r)
  {
    RootLeaf(c, r);
    StagedSlots(Accept(c, r), r);
  }

  /** Submitting a request to an idle queue pair puts it on the ring. */
  lemma FirstSubmitted(s: State, r: nat)
    requires SysInv(s) && CanSubmit(s, r) && !s.panicked
    requires !s.core.enabled && !s.core.resetting && !s.core.failed && s.core.queue == [] && s.core.outTr == []
    requires s.core.freeTr != [] && s.core.pool.reqs[r].accept && s.core.pool.reqs[r].children == []
    ensures
      var c := s.core.(enabled := true);
      && r < |c.seqno| == |c.pool.reqs| && c.sq.tail < |c.sq.cmd| && c.freeTr[0] < |c.tr|
      && Step(s, SubmitReq(r)) == s.(core := Dispatch(Accept(c, r), r), orphans := multiset{})
  {
    StepSubmit(s, r);
    IdleEnabled(s);
    SubmitReady(s, r);
    hide SysInv, Step, CanSubmit, RootPre, EnsureEnabled, SubmitRoot, Dispatch, Accept;
    RootDispatched(s.core.(enabled := true), r);
  }

  /** The command a fresh queue pair sends first carries the last tracker. */
  lemma FirstCommand(entries: nat, trackers: nat)
    requires 0 < trackers < entries
    ensures
      var c := TakeRequest(Init(entries, trackers), true).core.(enabled := true);
      && 0 < |c.seqno| == |c.pool.reqs| && c.sq.tail < |c.sq.cmd| && c.freeTr != [] && c.freeTr[0] < |c.tr|
      && c.pool.reqs[0].accept && c.pool.reqs[0].children == []
      && HasWork(Dispatch(Accept(c, 0), 0).sq)
      && SameMode(c, Dispatch(Accept(c, 0), 0))
      && Dispatch(Accept(c, 0), 0).sq.head == 0
      && Dispatch(Accept(c, 0), 0).sq.cmd[0].cid == trackers - 1
  {
  }

  lemma Fresh(entries: nat, trackers: nat)
    requires 0 < trackers < entries
    ensures
      var s := Init(entries, trackers);
      && s.cq.tail < |s.cq.cpl| && !CqFull(s.cq) && !s.panicked
      && !s.core.enabled && !s.core.resetting && !s.core.failed && s.core.queue == [] && s.core.outTr == []
  {
  }

  lemma FromInit(entries: nat, trackers: nat, es: seq<Event>)
    requires 0 < trackers < entries
    ensures SysInv(Init(entries, trackers)) && Reached(entries, trackers, es) == Run(Init(entries, trackers), es)
  {
    hide SysInv, Init, Run;
    InitInv(entries, trackers);
  }

  /** Taking a request, submitting it and a fetch by the controller lead there,
      on a queue pair of any size. */
  lemma FirstFetched(entries: nat, trackers: nat)
    requires 0 < trackers < entries
    ensures
      var s := Reached(entries, trackers, [TakeReq(true), SubmitReq(0), CtrlrFetch]);
      && Running(s) && s.cq.tail < |s.cq.cpl|
      && trackers - 1 in s.inflight && !CqFull(s.cq)
  {
    hide SysInv, Step, CqFull, HasWork, CanSubmit, Reached, Run, Dispatch, Accept, Init;
    var s := Init(entries, trackers);
    FromInit(entries, trackers, [TakeReq(true), SubmitReq(0), CtrlrFetch]);
    RunThree(s, TakeReq(true), SubmitReq(0), CtrlrFetch);
    FirstTaken(entries, trackers);
    FirstCommand(entries, trackers);
    Fresh(entries, trackers);
    FirstSubmitted(TakeRequest(s, true), 0);
    RingSlots(Step(TakeRequest(s, true), SubmitReq(0)));
    StepFetch(Step(TakeRequest(s, true), SubmitReq(0)));
  }

  lemma PostedReady(s: State, x: nat, st: Status)
    requires Running(s) && s.cq.tail < |s.cq.cpl| && x in s.inflight && !CqFull(s.cq)
    ensures
      var s' := Step(s, CtrlrPost(x, st));
      Running(s') && Ready(s'.cq)
  {
    StepPost(s, x, st);
    StepKeeps(s, CtrlrPost(x, st));
    RingInvs(s);
    RingInvs(DevicePost(s, x, st));
    hide SysInv, Step;
    ReadyExact(DevicePost(s, x, st).cq);
  }

  lemma RingInvs(s: State)
    requires SysInv(s)
    ensures CqInv(s.cq)
  {
  }

  /** The answer to the first command of a queue pair of any size is left behind
      by a reset that fails. */
  lemma PanicReached(entries: nat, trackers: nat)
    requires 0 < trackers < entries
    ensures Reached(entries, trackers,
                    [TakeReq(true), SubmitReq(0), CtrlrFetch, CtrlrPost(trackers - 1, SUCCESS)]
                    + [ResetBegin, GiveUp, ResetEnd, PollBegin, PollNext]).panicked
  {
    hide *;
    var es := [TakeReq(true), SubmitReq(0), CtrlrFetch];
    var post := CtrlrPost(trackers - 1, SUCCESS);
    var fs := [ResetBegin, GiveUp, ResetEnd, PollBegin, PollNext];
    FirstFetched(entries, trackers);
    FromInit(entries, trackers, es);
    FromInit(entries, trackers, es + [post] + fs);
    var s := Init(entries, trackers);
    RunSnoc(s, es, post);
    RunConcat(s, es + [post], fs);
    PostedReady(Run(s, es), trackers - 1, SUCCESS);
    FailedResetPanics(Run(s, es + [post]));
    assert es + [post] == [TakeReq(true), SubmitReq(0), CtrlrFetch, post];
  }
}
