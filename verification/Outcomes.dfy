/** With which status requests are called back: the controller's own, INVALID
    FIELD or an abort status, and when the controller's leads to a retry.  Stated
    on the fields of completions and requests. */
module Outcomes {
  import opened Common
  import opened Requests
  import opened Rings
  import opened Qpair
  import opened Drain
  import opened SplitSubmit
  import opened System
  import opened Runs
  import opened Service

  // ----------------------------------------------------------- the log of a step

  /** The log grew by entry e and then by split parents only. */
  ghost predicate Grows(log: seq<Ended>, e: Ended, log': seq<Ended>) {
    && |log| < |log'| && log <= log' && log'[|log|] == e
    && forall i :: |log| < i < |log'| ==> log'[i].outcome.Called? && log'[i].outcome.nkids > 0
  }

  lemma GrowsFirst(log: seq<Ended>, e: Ended)
    ensures Grows(log, e, log + [e])
  {
  }

  lemma GrowsOn(log: seq<Ended>, e: Ended, e1: Ended, log': seq<Ended>)
    requires Grows(log + [e], e1, log') && e1.outcome.Called? && e1.outcome.nkids > 0
    ensures Grows(log, e, log')
  {
    assert log'[|log|] == (log + [e])[|log|];
  }

  lemma {:induction false} FinishRest(p: Pool, r: nat, st: Status)
    requires CanFinish(p, r, st)
    ensures Grows(p.ended, Ended(p.hist[r].tag, Called(st, p.hist[r].kids, p.hist[r].nkids)), Finish(p, r, st).ended)
    decreases MAX_HEIGHT - p.hist[r].height
  {
    hide TreeInv, TagInv, EndedInv, LogInv, FreeInv, Grows;
    var p1, e := Answer(p, r, st), Ended(p.hist[r].tag, Called(st, p.hist[r].kids, p.hist[r].nkids));
    AnswerInv(p, r, st);
    assert p1.ended == p.ended + [e];
    if p.reqs[r].cb.ToParent? && p1.reqs[p.reqs[r].cb.parent].childReqs == 0 {
      ParentRest(p, r, st);
      var q := p.reqs[r].cb.parent;
      FinishRest(p1, q, p1.reqs[q].parentStatus);
      GrowsOn(p.ended, e, Ended(p1.hist[q].tag, Called(p1.reqs[q].parentStatus, p1.hist[q].kids, p1.hist[q].nkids)),
              Finish(p, r, st).ended);
    } else {
      GrowsFirst(p.ended, e);
    }
  }

  lemma ParentRest(p: Pool, r: nat, st: Status)
    requires CanFinish(p, r, st) && p.reqs[r].cb.ToParent?
    ensures p.reqs[r].cb.parent < |p.reqs| && Answer(p, r, st).hist[p.reqs[r].cb.parent].nkids > 0
  {
    LastChildLeft(p, r, st);
    assert TreeAt(p, p.reqs[r].cb.parent);
  }

  /** An unsplit request has collected nothing. */
  lemma LeafKids(p: Pool, r: nat)
    requires PoolInv(p) && r < |p.reqs|
    requires p.hist[r].place.Tracked? || (p.hist[r].place == Held && p.hist[r].nkids == 0)
    ensures p.hist[r].kids == [] && p.hist[r].nkids == 0
  {
    assert TreeAt(p, r);
  }

  /** New entries for unsplit requests report INVALID FIELD: status code 2 of the
      generic type, not to be retried. */
  ghost predicate Rejections(n: nat, log: seq<Ended>, log': seq<Ended>) {
    && n <= |log'| && log <= log'
    && forall i :: n <= i < |log'| && log'[i].outcome.Called? && log'[i].outcome.nkids == 0 ==>
         log'[i].outcome.status == Status(0, 2, true)
  }

  lemma RejectionsTrans(a: nat, x: seq<Ended>, y: seq<Ended>, z: seq<Ended>)
    requires Rejections(a, x, y) && Rejections(|y|, y, z)
    ensures Rejections(a, x, z)
  {
  }

  lemma RejectLog(c: Core, r: nat)
    requires Staged(c, r) && c.freeTr != []
    ensures Rejections(|c.pool.ended|, c.pool.ended, Reject(c, r).pool.ended)
    ensures |Reject(c, r).pool.ended| > |c.pool.ended|
    ensures Reject(c, r).pool.ended[|c.pool.ended|] == Ended(c.pool.hist[r].tag, Called(Status(0, 2, true), [], 0))
  {
    hide CoreInv, CanFinish;
    StagedCid(c, r);
    StagedKids(c, r);
    FinishRest(SetReq(c.pool, r, c.pool.reqs[r].(cid := c.freeTr[0])), r, INVALID_FIELD);
  }

  lemma StagedKids(c: Core, r: nat)
    requires Staged(c, r)
    ensures Shape(c.pool) && r < |c.pool.reqs| && c.pool.hist[r].kids == [] && c.pool.hist[r].nkids == 0
  {
    hide TrackInv, QueueInv, FifoInv, RingInv, SqInv, KidsAccepted;
    LeafKids(c.pool, r);
  }

  lemma TrackedKids(c: Core, x: nat)
    requires CompletePre(c, x)
    ensures Shape(c.pool) && x < |c.tr| && c.tr[x].req.Some? && c.tr[x].req.value < |c.pool.reqs|
    ensures c.pool.hist[c.tr[x].req.value].kids == [] && c.pool.hist[c.tr[x].req.value].nkids == 0
  {
    hide TrackInv, QueueInv, FifoInv, RingInv, SqInv, KidsAccepted;
    LeafKids(c.pool, c.tr[x].req.value);
  }

  lemma {:induction false} SubmitLeafLog(c: Core, r: nat)
    requires LeafPre(c, r)
    ensures Rejections(|c.pool.ended|, c.pool.ended, SubmitLeaf(c, r).pool.ended)
    decreases |c.queue|, 1
  {
    hide CoreInv, Oldest, Youngest, PumpPre, Reject, Rejections;
    StagedSlots(c, r);
    if c.freeTr == [] || !c.enabled {
      NothingLogged(c.pool.ended);
    } else if c.pool.reqs[r].accept {
      NothingLogged(c.pool.ended);
    } else {
      RejectPumps(c, r);
      RejectLog(c, r);
      PumpLog(Reject(c, r));
      RejectionsTrans(|c.pool.ended|, c.pool.ended, Reject(c, r).pool.ended, SubmitLeaf(c, r).pool.ended);
    }
  }

  lemma NothingLogged(log: seq<Ended>)
    ensures Rejections(|log|, log, log)
  {
  }

  lemma {:induction false} PumpLog(c: Core)
    requires PumpPre(c)
    ensures Rejections(|c.pool.ended|, c.pool.ended, Pump(c).pool.ended)
    decreases |c.queue|, 0
  {
    hide Rejections;
    if c.queue == [] || c.resetting {
      NothingLogged(c.pool.ended);
    } else {
      DequeueInv(c);
      SubmitLeafLog(Dequeue(c), c.queue[0]);
    }
  }

  // ------------------------------------------------------------- a completion

  /** The test of nvme_qpair_completion_retry and the retry count. */
  predicate Again(st: Status, retries: nat) {
    st.sct == 0 && (st.sc == 0x82 || st.sc == 0x84) && !st.dnr && retries < 3
  }

  /** A retry: the request keeps its tracker and goes on the ring once more. */
  lemma RetryOutcome(c: Core, x: nat, st: Status)
    requires CompletePre(c, x) && Again(st, c.pool.reqs[c.tr[x].req.value].retries)
    ensures
      var c', r := Complete(c, x, st), c.tr[x].req.value;
      && c'.pool.ended == c.pool.ended && c'.pool.hist == c.pool.hist
      && c'.outTr == c.outTr && x < |c'.tr| && c'.tr[x].req == c.tr[x].req
      && r < |c.seqno| && c'.ring == c.ring + [c.seqno[r]]
      && r < |c'.pool.reqs| && c'.pool.reqs[r].retries == c.pool.reqs[r].retries + 1
  {
    ResubmitInv(c, x);
    hide CoreInv;
  }

  /** Otherwise it is called back with the controller's status, and whatever else
      ends for good on the way is a split parent or a rejected request. */
  lemma FinalOutcome(c: Core, x: nat, st: Status)
    requires CompletePre(c, x) && !Again(st, c.pool.reqs[c.tr[x].req.value].retries)
    ensures
      var p, p', r := c.pool, Complete(c, x, st).pool, c.tr[x].req.value;
      && |p.ended| < |p'.ended|
      && p'.ended[|p.ended|] == Ended(p.hist[r].tag, Called(st, [], 0))
      && Rejections(|p.ended| + 1, p.ended, p'.ended)
  {
    hide CoreInv, CanFinish, PumpPre, Rejections, Grows;
    TrackedKids(c, x);
    var p, r := c.pool, c.tr[x].req.value;
    RetirePump(c, x, st);
    FinishRest(p, r, st);
    PumpLog(Retire(c, x, st));
    assert !WillRetry(c, x, st);
    assert Complete(c, x, st) == Pump(Retire(c, x, st));
    FirstThenRest(p.ended, Ended(p.hist[r].tag, Called(st, [], 0)), Retire(c, x, st).pool.ended, Complete(c, x, st).pool.ended);
  }

  lemma FirstThenRest(a: seq<Ended>, e: Ended, b: seq<Ended>, d: seq<Ended>)
    requires Grows(a, e, b) && Rejections(|b|, b, d)
    ensures |a| < |d| && d[|a|] == e && Rejections(|a| + 1, a, d)
  {
  }

  /** A completion is handled: with a status to retry and tries left nothing ends
      and the request goes on the ring again; otherwise the next callback is its,
      with the very status the controller posted. */
  lemma PollOutcome(s: State)
    requires SysInv(s) && CanPoll(s) && !s.core.failed
    ensures
      var c, c' := s.core, PollOne(s).core;
      && s.cq.taken < |s.cq.posted|
      && var x, st := s.cq.posted[s.cq.taken].cid, s.cq.posted[s.cq.taken].status;
         && Shape(c.pool) && x < |c.tr| && c.tr[x].req.Some? && c.tr[x].req.value < |c.pool.reqs|
         && var r := c.tr[x].req.value;
            if st.sct == 0 && (st.sc == 0x82 || st.sc == 0x84) && !st.dnr && c.pool.reqs[r].retries < 3 then
              && c'.pool.ended == c.pool.ended
              && c'.outTr == c.outTr && x < |c'.tr| && c'.tr[x].req == Some(r)
              && r < |c.seqno| && c'.ring == c.ring + [c.seqno[r]]
            else
              && |c.pool.ended| < |c'.pool.ended|
              && c'.pool.ended[|c.pool.ended|] == Ended(c.pool.hist[r].tag, Called(st, [], 0))
              && Rejections(|c.pool.ended| + 1, c.pool.ended, c'.pool.ended)
  {
    PollCid(s);
    PollActive(s);
    PollPre(s);
    PollFacts(s);
    hide SysInv, Complete, Rejections;
    var c, e := s.core, s.cq.posted[s.cq.taken];
    CompleteShape(c, e.cid);
    hide CompletePre;
    if Again(e.status, c.pool.reqs[c.tr[e.cid].req.value].retries) {
      RetryOutcome(c, e.cid, e.status);
    } else {
      FinalOutcome(c, e.cid, e.status);
    }
  }

  lemma CompleteShape(c: Core, x: nat)
    requires CompletePre(c, x)
    ensures Shape(c.pool) && x < |c.tr| && c.tr[x].req.Some? && c.tr[x].req.value < |c.pool.reqs|
  {
  }

  // ----------------------------------------------------------------- any step

  lemma LeafRootLog(c: Core, r: nat)
    requires RootPre(c, r) && c.pool.reqs[r].children == []
    ensures Rejections(|c.pool.ended|, c.pool.ended, SubmitRoot(c, r).pool.ended)
  {
    RootLeaf(c, r);
    hide CoreInv, LeafPre, Rejections;
    SubmitLeafLog(Accept(c, r), r);
  }

  lemma SubmitRootLog(c: Core, r: nat)
    requires RootPre(c, r)
    ensures Rejections(|c.pool.ended|, c.pool.ended, SubmitRoot(c, r).pool.ended)
  {
    if c.pool.reqs[r].children == [] {
      LeafRootLog(c, r);
    } else {
      ParkedKids(c, r);
      hide CoreInv, KidsPre, SubmitKids, Rejections;
      NothingLogged(c.pool.ended);
    }
  }

  /** New entries of a drain report ABORTED BY REQUEST: status code 7 of the
      generic type. */
  ghost predicate Aborts(log: seq<Ended>, log': seq<Ended>) {
    && log <= log'
    && forall i :: |log| <= i < |log'| ==>
         log'[i].outcome.Called?
         && (log'[i].outcome.status == Status(0, 7, false) || log'[i].outcome.status == Status(0, 7, true))
  }

  lemma DrainLogged(c: Core, dnr: bool)
    requires CoreInv(c)
    ensures Aborts(c.pool.ended, DrainAll(c, dnr).pool.ended)
  {
    hide CoreInv, DrainAll;
    DrainExact(c, dnr);
  }

  lemma EnableLogged(s: State)
    requires SysInv(s)
    ensures Aborts(s.core.pool.ended, EnsureEnabled(s).core.pool.ended)
  {
    hide SysInv, CoreInv, DrainAll, EnsureEnabled;
    EnableSteps(s);
    DrainLogged(s.core.(enabled := true), false);
  }

  lemma FailLogged(s: State)
    requires SysInv(s)
    ensures Aborts(s.core.pool.ended, FailStep(s).core.pool.ended)
  {
    CoreFrame(s.core, s.core.(failed := true));
    hide SysInv, CoreInv, DrainAll;
    DrainLogged(s.core.(failed := true), true);
  }

  /** The completion handled next is for the lifetime x.tag, with the status x
      was called back with. */
  ghost predicate Handles(s: State, x: Ended) {
    && s.cq.taken < |s.cq.posted|
    && var d := s.cq.posted[s.cq.taken];
       && d.cid < |s.core.tr| && s.core.tr[d.cid].req.Some? && s.core.tr[d.cid].req.value < |s.core.pool.hist|
       && s.core.pool.hist[s.core.tr[d.cid].req.value].tag == x.tag
       && x.outcome.Called? && x.outcome.status == d.status
  }

  /** Where the status of an unsplit request comes from, for an entry that event e
      logs in state s. */
  ghost predicate From(s: State, e: Event, x: Ended) {
    x.outcome.Called? && x.outcome.nkids == 0 ==>
      || x.outcome.status == Status(0, 2, true)
      || x.outcome.status == Status(0, 7, false)
      || x.outcome.status == Status(0, 7, true)
      || (e.PollNext? && Handles(s, x))
  }

  ghost predicate Accounted(s: State, e: Event, log: seq<Ended>) {
    s.core.pool.ended <= log && forall i :: |s.core.pool.ended| <= i < |log| ==> From(s, e, log[i])
  }

  lemma AbortsAccounted(s: State, e: Event, log: seq<Ended>)
    requires Aborts(s.core.pool.ended, log)
    ensures Accounted(s, e, log)
  {
  }

  lemma SubmitAccounted(s: State, r: nat)
    requires SysInv(s) && CanSubmit(s, r)
    ensures Accounted(s, SubmitReq(r), SubmitStep(s, r).core.pool.ended)
  {
    hide SysInv, CoreInv, EnsureEnabled, SubmitRoot, RootPre;
    if !s.core.failed {
      SubmitReady(s, r);
      EnableLogged(s);
      SubmitRootLog(EnsureEnabled(s).core, r);
      AbortsThenRejections(s, SubmitReq(r), EnsureEnabled(s).core.pool.ended, SubmitStep(s, r).core.pool.ended);
    }
  }

  lemma AbortsThenRejections(s: State, e: Event, a: seq<Ended>, b: seq<Ended>)
    requires Aborts(s.core.pool.ended, a) && Rejections(|a|, a, b)
    ensures Accounted(s, e, b)
  {
  }

  lemma PollAccounted(s: State)
    requires SysInv(s) && CanPoll(s)
    ensures Accounted(s, PollNext, PollOne(s).core.pool.ended)
  {
    hide SysInv, CoreInv, Complete, CompletePre, Accounted;
    PollActive(s);
    PollFacts(s);
    if s.core.failed {
      NothingNew(s, PollNext);
    } else {
      hide PollOne;
      PollOutcome(s);
      HandledAccounted(s, PollOne(s).core.pool.ended);
    }
  }

  lemma NothingNew(s: State, e: Event)
    ensures Accounted(s, e, s.core.pool.ended)
  {
  }

  lemma HandledAccounted(s: State, log: seq<Ended>)
    requires s.cq.taken < |s.cq.posted|
    requires
      var was, d := s.core.pool.ended, s.cq.posted[s.cq.taken];
      log == was ||
        (&& d.cid < |s.core.tr| && s.core.tr[d.cid].req.Some? && s.core.tr[d.cid].req.value < |s.core.pool.hist|
         && |was| < |log|
         && log[|was|] == Ended(s.core.pool.hist[s.core.tr[d.cid].req.value].tag, Called(d.status, [], 0))
         && Rejections(|was| + 1, was, log))
    ensures Accounted(s, PollNext, log)
  {
  }

  lemma StepAccounted(s: State, e: Event)
    requires SysInv(s)
    ensures Accounted(s, e, Step(s, e).core.pool.ended)
  {
    hide SysInv, CoreInv, PoolInv, CanSubmit, EnsureEnabled, FailStep, SubmitStep, PollOne, From;
    if Possible(s, e) {
      match e
      case TakeReq(accept) => FreeInRange(s);
      case AttachKid(q, k) =>
      case SubmitReq(r) => SubmitAccounted(s, r);
      case PollBegin => EnableLogged(s); AbortsAccounted(s, e, Step(s, e).core.pool.ended);
      case PollNext => PollAccounted(s);
      case PollEnd =>
      case CtrlrFetch =>
      case CtrlrPost(x, st) =>
      case ResetBegin =>
      case ResetQueue =>
      case ResetEnd =>
      case GiveUp => FailLogged(s); AbortsAccounted(s, e, Step(s, e).core.pool.ended);
    }
  }

  // --------------------------------------------------------------------- runs

  /** Over every run: what becomes of a completion when it is handled. */
  lemma PollReports(entries: nat, trackers: nat, es: seq<Event>)
    requires 0 < trackers < entries
    ensures
      var s := Reached(entries, trackers, es);
      s.core.enabled && !s.core.failed && s.cq.taken < |s.cq.posted| ==>
        var c, c' := s.core, Step(s, PollNext).core;
        && var x, st := s.cq.posted[s.cq.taken].cid, s.cq.posted[s.cq.taken].status;
           && Shape(c.pool) && x < |c.tr| && c.tr[x].req.Some? && c.tr[x].req.value < |c.pool.reqs|
           && var r := c.tr[x].req.value;
              if st.sct == 0 && (st.sc == 0x82 || st.sc == 0x84) && !st.dnr && c.pool.reqs[r].retries < 3 then
                && c'.pool.ended == c.pool.ended
                && c'.outTr == c.outTr && x < |c'.tr| && c'.tr[x].req == Some(r)
                && r < |c.seqno| && c'.ring == c.ring + [c.seqno[r]]
              else
                && |c.pool.ended| < |c'.pool.ended|
                && c'.pool.ended[|c.pool.ended|] == Ended(c.pool.hist[r].tag, Called(st, [], 0))
  {
    PollExact(entries, trackers, es);
    hide SysInv, Run, Init, PollOne, Step;
    var s := Reached(entries, trackers, es);
    if s.core.enabled && !s.core.failed && s.cq.taken < |s.cq.posted| {
      NoPanic(s);
      StepPolls(s);
      PollOutcome(s);
    }
  }

  lemma NoPanic(s: State)
    requires SysInv(s) && !s.core.failed
    ensures !s.panicked
  {
  }

  /** Completions are what the controller posted. */
  ghost predicate PostedIn(es: seq<Event>, n: nat, d: Cpl) {
    exists m :: 0 <= m < n && m < |es| && es[m] == CtrlrPost(d.cid, d.status)
  }

  lemma StepPosted(s: State, e: Event)
    requires SysInv(s)
    ensures
      var q := Step(s, e).cq.posted;
      q == s.cq.posted || q == [] || (e.CtrlrPost? && q == s.cq.posted + [Cpl(e.cid, e.status)])
  {
    hide SysInv, CoreInv, PoolInv, CanSubmit;
    if Possible(s, e) {
      match e
      case TakeReq(accept) => FreeInRange(s);
      case AttachKid(q, k) =>
      case SubmitReq(r) => SubmitPosted(s, r);
      case PollBegin => EnableSteps(s);
      case PollNext => PollFacts(s); RingSlots(s);
      case PollEnd =>
      case CtrlrFetch => RingSlots(s);
      case CtrlrPost(x, st) => RingSlots(s);
      case ResetBegin =>
      case ResetQueue =>
      case ResetEnd =>
      case GiveUp =>
    }
  }

  lemma SubmitPosted(s: State, r: nat)
    requires SysInv(s) && CanSubmit(s, r)
    ensures SubmitStep(s, r).cq == s.cq
  {
    hide SysInv, CoreInv, EnsureEnabled, SubmitRoot, RootPre, DrainAll;
    EnableSteps(s);
    if !s.core.failed {
      SubmitReady(s, r);
    }
  }

  lemma {:induction false} RunPosted(s: State, es: seq<Event>, k: nat)
    requires SysInv(s) && s.cq.posted == [] && k < |Run(s, es).cq.posted|
    ensures PostedIn(es, |es|, Run(s, es).cq.posted[k])
  {
    hide SysInv, Step;
    if es != [] {
      var n := |es| - 1;
      var init, e := es[..n], es[n];
      assert es == init + [e];
      RunSnoc(s, init, e);
      StepPosted(Run(s, init), e);
      var q := Run(s, init).cq.posted;
      if k < |q| {
        RunPosted(s, init, k);
        var m :| 0 <= m < n && init[m] == CtrlrPost(q[k].cid, q[k].status);
        assert es[m] == init[m];
      } else {
        assert es[n] == e;
      }
    }
  }

  ghost predicate FromRun(s: State, es: seq<Event>, x: Ended)
    requires SysInv(s)
  {
    exists j :: 0 <= j < |es| && From(Run(s, es[..j]), es[j], x)
  }

  lemma {:induction false} RunOrigin(s: State, es: seq<Event>, i: nat)
    requires SysInv(s) && |s.core.pool.ended| <= i < |Run(s, es).core.pool.ended|
    ensures FromRun(s, es, Run(s, es).core.pool.ended[i])
  {
    hide SysInv, Step, From;
    if es != [] {
      var n := |es| - 1;
      var init, e := es[..n], es[n];
      assert es == init + [e];
      RunSnoc(s, init, e);
      StepAccounted(Run(s, init), e);
      var log, x := Run(s, init).core.pool.ended, Run(s, es).core.pool.ended[i];
      if i < |log| {
        RunOrigin(s, init, i);
        var j :| 0 <= j < n && From(Run(s, init[..j]), init[j], x);
        assert es[..j] == init[..j] && es[j] == init[j];
      } else {
        assert From(Run(s, es[..n]), es[n], x);
      }
    }
  }

  /** Event j handles the completion that x reports, which the controller had
      posted before. */
  ghost predicate Answered(entries: nat, trackers: nat, es: seq<Event>, j: int, x: Ended)
    requires 0 < trackers < entries
  {
    && 0 <= j < |es| && es[j] == PollNext
    && var s := Reached(entries, trackers, es[..j]);
       Handles(s, x) && PostedIn(es, j, s.cq.posted[s.cq.taken])
  }

  /** Over every run an unsplit request is called back with the status of the
      completion the controller posted for its tracker, at the event that handles
      it; or with INVALID FIELD, when its payload is rejected; or with ABORTED BY
      REQUEST. */
  lemma StatusOrigin(entries: nat, trackers: nat, es: seq<Event>, i: nat)
    requires 0 < trackers < entries
    requires i < |Reached(entries, trackers, es).core.pool.ended|
    ensures
      var x := Reached(entries, trackers, es).core.pool.ended[i];
      x.outcome.Called? && x.outcome.nkids == 0 ==>
        || x.outcome.status == Status(0, 2, true)
        || x.outcome.status == Status(0, 7, false)
        || x.outcome.status == Status(0, 7, true)
        || exists j :: Answered(entries, trackers, es, j, x)
  {
    InitInv(entries, trackers);
    var s := Init(entries, trackers);
    assert s.core.pool.ended == [] && s.cq.posted == [];
    hide SysInv, Init, Run, Handles;
    RunOrigin(s, es, i);
    var x := Reached(entries, trackers, es).core.pool.ended[i];
    var j :| 0 <= j < |es| && From(Run(s, es[..j]), es[j], x);
    if es[j] == PollNext && Handles(Run(s, es[..j]), x) {
      HandledPosted(s, es, j, x);
      assert Answered(entries, trackers, es, j, x);
    }
  }

  lemma HandledPosted(s: State, es: seq<Event>, j: nat, x: Ended)
    requires SysInv(s) && s.cq.posted == [] && j < |es| && Handles(Run(s, es[..j]), x)
    ensures
      var q := Run(s, es[..j]).cq;
      q.taken < |q.posted| && PostedIn(es, j, q.posted[q.taken])
  {
    hide SysInv, Run;
    var q := Run(s, es[..j]).cq;
    RunPosted(s, es[..j], q.taken);
    var m :| 0 <= m < j && es[..j][m] == CtrlrPost(q.posted[q.taken].cid, q.posted[q.taken].status);
    assert es[m] == es[..j][m];
  }

  /** A request with a payload the builder rejects, submitted while there is a
      tracker for it: the next callback is its, with INVALID FIELD. */
  lemma RejectedBack(s: State, r: nat)
    requires Running(s) && CanSubmit(s, r) && s.core.freeTr != []
    requires s.core.pool.reqs[r].children == [] && !s.core.pool.reqs[r].accept
    ensures
      var p, p' := s.core.pool, SubmitStep(s, r).core.pool;
      && |p.ended| < |p'.ended|
      && p'.ended[|p.ended|] == Ended(p.hist[r].tag, Called(Status(0, 2, true), [], 0))
  {
    SubmitReady(s, r);
    assert EnsureEnabled(s) == s;
    hide SysInv, CoreInv, EnsureEnabled;
    RootLeaf(s.core, r);
    RootRejected(s.core, r);
  }

  lemma RootRejected(c: Core, r: nat)
    requires RootPre(c, r) && LeafAt(c.pool, r) && LeafPre(Accept(c, r), r)
    requires c.enabled && c.freeTr != [] && c.pool.reqs[r].children == [] && !c.pool.reqs[r].accept
    ensures
      var p, p' := c.pool, SubmitRoot(c, r).pool;
      && |p.ended| < |p'.ended|
      && p'.ended[|p.ended|] == Ended(p.hist[r].tag, Called(Status(0, 2, true), [], 0))
  {
    assert r < |c.seqno|;
    hide CoreInv, PumpPre, Reject, Oldest, Youngest, Settled;
    var c1 := Accept(c, r);
    RejectPumps(c1, r);
    RejectLog(c1, r);
    PumpLog(Reject(c1, r));
  }
}
