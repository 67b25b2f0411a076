/** The I/O queue pair of lib/nvme/nvme_qpair.c as the object the driver
    updates in place.  Every method is tied to a function of Qpair, Drain,
    SplitSubmit or System, so that each call is an event of Runs. */
module QueuePairObject {
  import opened Common
  import opened Lists
  import opened Requests
  import opened Rings
  import opened Qpair
  import opened Drain
  import opened SplitSubmit
  import opened System
  import opened Runs

  datatype SqHistory = SqHistory(head: nat, sent: seq<Command>, fetched: nat)
  datatype CqHistory = CqHistory(tail: nat, phase: bool, posted: seq<Cpl>, taken: nat, acked: nat)
  datatype Environment = Environment(inflight: multiset<nat>, orphans: multiset<nat>, recreated: bool)
  datatype PoolHistory = PoolHistory(hist: seq<Trace>, slot: seq<nat>, owner: seq<Option<nat>>, ended: seq<Ended>)
  datatype RingHistory = RingHistory(ring: seq<nat>, first: seq<nat>)

  class QueuePair {
    // rings shared with the controller, and the doorbell registers
    const cmd: array<Command>
    const cpl: array<Entry<Cpl>>
    var sqTail: nat
    var sqTdbl: nat
    var cqHead: nat
    var cqHdbl: nat
    var phase: bool

    // trackers, indexed by command identifier
    var tr: seq<Tracker>
    var freeTr: seq<nat>
    var outTr: seq<nat>

    // request pool
    var reqs: seq<Request>
    var freeReq: seq<nat>
    var queuedReq: seq<nat>

    // acceptance numbers, standing for the contents of the commands
    var seqno: seq<nat>
    var nextSeq: nat

    var enabled: bool
    var resetting: bool   // of the controller
    var failed: bool      // of the controller
    var panicked: bool    // the process has stopped in nvme_panic

    // the controller's side of the rings
    var sqh: SqHistory
    var cqh: CqHistory
    var env: Environment

    // history of the requests
    ghost var ph: PoolHistory
    ghost var rh: RingHistory

    ghost function PoolView(): Pool
      reads this`reqs, this`freeReq, this`ph
    {
      Pool(reqs, freeReq, ph.hist, ph.slot, ph.owner, ph.ended)
    }

    ghost function SqView(): SubmissionRing<Command>
      reads this`sqTail, this`sqTdbl, this`sqh, cmd
    {
      SubmissionRing(cmd[..], sqTail, sqTdbl, sqh.head, sqh.sent, sqh.fetched)
    }

    ghost function CoreView(): Core
      reads this`sqTail, this`sqTdbl, this`sqh, this`freeTr, this`outTr, this`tr, this`reqs, this`freeReq, this`ph,
            this`queuedReq, this`enabled, this`resetting, this`failed, this`seqno, this`nextSeq, this`rh, cmd
    {
      Core(SqView(), freeTr, outTr, tr, PoolView(), queuedReq, enabled, resetting, failed,
           seqno, nextSeq, rh.ring, rh.first)
    }

    ghost function CqView(): CompletionRing<Cpl>
      reads this`cqHead, this`phase, this`cqHdbl, this`cqh, cpl
    {
      CompletionRing(cpl[..], cqHead, phase, cqHdbl, cqh.tail, cqh.phase, cqh.posted, cqh.taken, cqh.acked)
    }

    ghost function View(): State
      reads this, cmd, cpl
    {
      State(CoreView(), CqView(), env.inflight, env.orphans, env.recreated, panicked)
    }

    /** The two rings are different memory. */
    ghost predicate Separate() {
      cmd as object != cpl
    }

    /** nvme_qpair_construct and nvme_request_pool_construct. */
    constructor (entries: nat, trackers: nat)
      requires 0 < trackers < entries
      ensures View() == Init(entries, trackers) && SysInv(View())
      ensures fresh(cmd) && fresh(cpl) && Separate()
    {
      InitInv(entries, trackers);
      var n := REQS_PER_TRACKER * trackers;
      var frees: seq<nat> := [];
      for i := 0 to trackers
        invariant frees == seq(i, k => i - 1 - k)
      {
        frees := [i] + frees;
      }
      var pool: seq<nat> := [];
      for i := 0 to n
        invariant pool == seq(i, k => k)
      {
        pool := pool + [i];
      }
      cmd := new Command[entries](i => Command(0, 0));
      cpl := new Entry<Cpl>[entries](i => Entry(Cpl(0, SUCCESS), false));
      sqTail, sqTdbl, cqHead, cqHdbl, phase := 0, 0, 0, 0, true;
      tr, freeTr, outTr := seq(trackers, i => IDLE), frees, [];
      reqs := seq(n, i => Request(ToCaller, false, 0, 0, [], 0, SUCCESS));
      freeReq, queuedReq := pool, [];
      seqno, nextSeq := seq(n, i => 0), 0;
      enabled, resetting, failed, panicked := false, false, false, false;
      sqh, cqh, env := SqHistory(0, [], 0), CqHistory(0, true, [], 0, 0), Environment(multiset{}, multiset{}, false);
      ph, rh := PoolHistory(seq(n, i => Trace(Free, 0, [], 0, 0)), [], [], []), RingHistory([], []);
      new;
      hide SysInv;
      ghost var s := Init(entries, trackers);
      assert SqView() == s.core.sq;
      assert PoolView() == s.core.pool;
      assert CqView() == s.cq;
      assert CoreView() == s.core;
    }

    // ----------------------------------------------------------- request pool

    /** nvme_request_allocate */
    method Allocate(accept: bool) returns (r: Option<nat>)
      requires PoolInv(PoolView())
      modifies this`reqs, this`freeReq, this`ph
      ensures r.None? <==> old(freeReq) == []
      ensures r.None? ==> PoolView() == old(PoolView())
      ensures r.Some? ==> PoolView() == Requests.Allocate(old(PoolView()), accept) && r.value == old(freeReq)[0]
    {
      if freeReq == [] {
        return None;
      }
      var q := freeReq[0];
      freeReq := freeReq[1..];
      reqs := reqs[q := reqs[q].(cb := ToCaller, accept := accept, retries := 0, cid := 0, childReqs := 0)];
      ph := ph.(hist := ph.hist[q := Trace(Held, |ph.slot|, [], 0, 0)]);
      ph := ph.(slot := ph.slot + [q], owner := ph.owner + [None]);
      return Some(q);
    }

    /** nvme_request_add_child */
    method AddChild(q: nat, k: nat)
      requires Shape(PoolView()) && q < |reqs| && k < |reqs| && q != k
      modifies this`reqs, this`ph
      ensures PoolView() == Requests.AddChild(old(PoolView()), q, k)
    {
      if reqs[q].childReqs == 0 {
        reqs := reqs[q := reqs[q].(children := [], parentStatus := SUCCESS)];
      }
      reqs := reqs[q := reqs[q].(childReqs := (reqs[q].childReqs + 1) % 256)];
      reqs := reqs[q := reqs[q].(children := reqs[q].children + [k])];
      reqs := reqs[k := reqs[k].(cb := ToParent(q))];
      ph := ph.(owner := if ph.hist[k].tag < |ph.owner| then ph.owner[ph.hist[k].tag := Some(ph.hist[q].tag)] else ph.owner);
      ph := ph.(hist := ph.hist[q :=
        ph.hist[q].(nkids := ph.hist[q].nkids + 1, height := Max(ph.hist[q].height, ph.hist[k].height + 1))]);
    }

    /** Call back and free a request: the callback of a child is
        nvme_request_cb_complete_child, which may finish its parent in turn. */
    method FinishRequest(r: nat, st: Status)
      requires CanFinish(PoolView(), r, st)
      modifies this`reqs, this`freeReq, this`ph
      ensures PoolView() == Finish(old(PoolView()), r, st)
      decreases MAX_HEIGHT - ph.hist[r].height
    {
      hide TreeInv, TagInv, EndedInv, LogInv, FreeInv;
      ghost var p := PoolView();
      AnswerInv(p, r, st);
      ph := ph.(ended := ph.ended + [Ended(ph.hist[r].tag, Called(st, ph.hist[r].kids, ph.hist[r].nkids))]);
      ph := ph.(hist := ph.hist[r := ph.hist[r].(place := Ending)]);
      match reqs[r].cb {
        case ToCaller =>
          assert PoolView() == Answer(p, r, st);
        case ToParent(q) =>
          // nvme_request_remove_child
          reqs := reqs[q := reqs[q].(childReqs := reqs[q].childReqs - 1, children := Remove(reqs[q].children, r))];
          if IsError(st) {
            reqs := reqs[q := reqs[q].(parentStatus := st)];
          }
          ph := ph.(hist := ph.hist[q :=
            ph.hist[q].(kids := ph.hist[q].kids + [st],
                        place := if reqs[q].childReqs == 0 then Held else ph.hist[q].place)]);
          assert PoolView() == Answer(p, r, st);
          if reqs[q].childReqs == 0 {
            FinishRequest(q, reqs[q].parentStatus);
          }
      }
      // nvme_request_free
      freeReq := [r] + freeReq;
      ph := ph.(hist := ph.hist[r := ph.hist[r].(place := Free)]);
    }

    // ------------------------------------------------ submission and completion

    /** Copy a command to the tail, advance, and ring the doorbell. */
    method PushCommand(c: Command)
      requires sqTail < cmd.Length
      modifies this`sqTail, this`sqTdbl, this`sqh, cmd
      ensures SqView() == Push(old(SqView()), c)
    {
      cmd[sqTail] := c;
      assert cmd[..] == old(cmd[..])[sqTail := c];
      sqTail := sqTail + 1;
      if sqTail == cmd.Length {
        sqTail := 0;
      }
      sqTdbl := sqTail;
      sqh := sqh.(sent := sqh.sent + [c]);
    }

    /** nvme_qpair_submit_tracker */
    method SubmitTracker(x: nat, r: nat)
      requires x < |tr| && r < |seqno| && sqTail < cmd.Length
      modifies this`tr, this`sqTail, this`sqTdbl, this`sqh, this`rh, cmd
      ensures CoreView() == Launch(old(CoreView()), x, r)
    {
      ghost var c' := Launch(CoreView(), x, r);
      tr := tr[x := tr[x].(active := true)];
      assert SqView() == old(SqView());
      PushCommand(Command(x, seqno[r]));
      rh := rh.(ring := rh.ring + [seqno[r]]);
      assert tr == c'.tr;
      assert PoolView() == c'.pool;
    }

    /** nvme_qpair_complete_tracker when it does not retry, up to its look at
        the queue. */
    method RetireTracker(x: nat, st: Status)
      requires x < |tr| && tr[x].req.Some? && CanFinish(PoolView(), tr[x].req.value, st)
      modifies this`reqs, this`freeReq, this`ph, this`tr, this`freeTr, this`outTr
      ensures CoreView() == Retire(old(CoreView()), x, st)
    {
      ghost var c' := Retire(CoreView(), x, st);
      tr := tr[x := tr[x].(active := false)];
      assert PoolView() == old(PoolView());
      hide CanFinish;
      FinishRequest(tr[x].req.value, st);
      tr := tr[x := tr[x].(req := None)];
      assert tr == c'.tr;
      outTr := Remove(outTr, x);
      freeTr := [x] + freeTr;
      assert PoolView() == c'.pool;
      assert SqView() == c'.sq;
    }

    /** The end of nvme_qpair_complete_tracker.  The checks at the start of
        nvme_qpair_submit_request have no effect here: the controller has not
        failed and the queue pair is enabled. */
    method SubmitNextQueued()
      requires PumpPre(CoreView())
      modifies this`reqs, this`freeReq, this`ph, this`tr, this`freeTr, this`outTr, this`queuedReq, this`sqTail,
               this`sqTdbl, this`sqh, this`rh, cmd
      ensures CoreView() == Pump(old(CoreView()))
      decreases |queuedReq|, 0
    {
      if queuedReq != [] && !resetting {
        ghost var c := CoreView();
        DequeueInv(c);
        hide CoreInv;
        var r := queuedReq[0];
        queuedReq := queuedReq[1..];
        ph := ph.(hist := ph.hist[r := ph.hist[r].(place := Held)]);
        assert CoreView() == Dequeue(c);
        var _ := SubmitUnsplit(r);
      }
    }

    /** nvme_qpair_submit_request from the choice of a tracker on.  `accept`
        stands for the outcome of the data-pointer builder. */
    method SubmitUnsplit(r: nat) returns (ok: bool)
      requires LeafPre(CoreView(), r)
      modifies this`reqs, this`freeReq, this`ph, this`tr, this`freeTr, this`outTr, this`queuedReq, this`sqTail,
               this`sqTdbl, this`sqh, this`rh, cmd
      ensures CoreView() == SubmitLeaf(old(CoreView()), r)
      ensures ok <==> old(freeTr == [] || !enabled || reqs[r].accept)
      decreases |queuedReq|, 1
    {
      ghost var c := CoreView();
      if freeTr == [] || !enabled {
        queuedReq := queuedReq + [r];
        ph := ph.(hist := ph.hist[r := ph.hist[r].(place := Queued)]);
        assert PoolView() == Enqueue(c, r).pool;
        assert SqView() == c.sq;
        return true;
      }
      var accept := reqs[r].accept;
      assert Shape(PoolView()) && |seqno| == |reqs| && sqTail < cmd.Length && !tr[freeTr[0]].active;
      if accept {
        DispatchRequest(r);
        return true;
      }
      // the builder completes the tracker with an error that is not retried
      AssignRetire(c, r);
      RejectInv(c, r);
      hide CoreInv, CanFinish, Finish;
      var x := AssignTracker(r);
      RetireTracker(x, INVALID_FIELD);
      SubmitNextQueued();
      return false;
    }

    method DispatchRequest(r: nat)
      requires Shape(PoolView()) && r < |reqs| == |seqno| && sqTail < cmd.Length
      requires freeTr != [] && freeTr[0] < |tr| && !tr[freeTr[0]].active
      modifies this`reqs, this`ph, this`tr, this`freeTr, this`outTr, this`sqTail, this`sqTdbl, this`sqh,
               this`rh, cmd
      ensures CoreView() == Dispatch(old(CoreView()), r)
    {
      var x := AssignTracker(r);
      ghost var c1 := CoreView();
      rh := rh.(first := rh.first + [seqno[r]]);
      ph := ph.(hist := ph.hist[r := ph.hist[r].(place := Tracked(x))]);
      assert PoolView() == SetPlace(c1.pool, r, Tracked(x));
      assert SqView() == c1.sq;
      SubmitTracker(x, r);
    }

    method AssignTracker(r: nat) returns (x: nat)
      requires r < |reqs| && freeTr != [] && freeTr[0] < |tr| && !tr[freeTr[0]].active
      modifies this`reqs, this`tr, this`freeTr, this`outTr
      ensures x == old(freeTr[0]) && CoreView() == Assign(old(CoreView()), r)
    {
      ghost var c' := Assign(CoreView(), r);
      x := freeTr[0];
      freeTr := freeTr[1..];
      outTr := [x] + outTr;
      tr := tr[x := tr[x].(req := Some(r))];
      reqs := reqs[r := reqs[r].(cid := x)];
      assert tr == c'.tr;
      assert PoolView() == c'.pool;
      assert SqView() == c'.sq;
    }

    /** The retry branch of nvme_qpair_complete_tracker. */
    method RetryTracker(x: nat)
      requires x < |tr| && tr[x].req.Some? && tr[x].req.value < |reqs| == |seqno| && sqTail < cmd.Length
      modifies this`reqs, this`tr, this`sqTail, this`sqTdbl, this`sqh, this`rh, cmd
      ensures CoreView() == Resubmit(old(CoreView()), x)
    {
      ghost var c := CoreView();
      var r := tr[x].req.value;
      tr := tr[x := tr[x].(active := false)];
      reqs := reqs[r := reqs[r].(retries := reqs[r].retries + 1)];
      assert PoolView() == SetReq(c.pool, r, c.pool.reqs[r].(retries := c.pool.reqs[r].retries + 1));
      assert SqView() == c.sq;
      SubmitTracker(x, r);
      assert tr == Resubmit(c, x).tr;
    }

    /** nvme_qpair_complete_tracker */
    method CompleteTracker(x: nat, st: Status)
      requires CompletePre(CoreView(), x)
      modifies this`reqs, this`freeReq, this`ph, this`tr, this`freeTr, this`outTr, this`queuedReq, this`sqTail,
               this`sqTdbl, this`sqh, this`rh, cmd
      ensures CoreView() == Complete(old(CoreView()), x, st)
    {
      var retry := IsError(st) && Retryable(st) && reqs[tr[x].req.value].retries < MAX_RETRY;
      if retry {
        RetryTracker(x);
      } else {
        RetirePump(CoreView(), x, st);
        hide CoreInv, CanFinish;
        RetireTracker(x, st);
        SubmitNextQueued();
      }
    }

    // ------------------------------------------------- submitting a request

    /** nvme_qpair_submit_request on a child of a split. */
    method SubmitSplitChild(k: nat)
      requires ChildPre(CoreView(), k)
      modifies this`reqs, this`freeReq, this`ph, this`tr, this`freeTr, this`outTr, this`queuedReq, this`sqTail,
               this`sqTdbl, this`sqh, this`rh, this`seqno, this`nextSeq, cmd
      ensures CoreView() == SubmitChild(old(CoreView()), k)
      decreases ph.hist[k].height, 1, 0
    {
      if reqs[k].children == [] {
        ChildIsLeaf(CoreView(), k);
        AcceptRequest(k);
        hide CoreInv;
        var _ := SubmitUnsplit(k);
      } else {
        ChildIsParent(CoreView(), k);
        hide CoreInv;
        SubmitSplit(k, reqs[k].children);
      }
    }

    /** The loop over the children of a split request. */
    method SubmitSplit(q: nat, kids: seq<nat>)
      requires q < |ph.hist| && KidsPre(CoreView(), q, kids)
      modifies this`reqs, this`freeReq, this`ph, this`tr, this`freeTr, this`outTr, this`queuedReq,
               this`sqTail, this`sqTdbl, this`sqh, this`rh, this`seqno, this`nextSeq, cmd
      ensures CoreView() == SubmitKids(old(CoreView()), q, kids)
      decreases ph.hist[q].height, 0, 1
    {
      hide KidsPre;
      var rest := kids;
      while rest != []
        invariant KidsPre(CoreView(), q, rest)
        invariant q < |ph.hist| && ph.hist[q].height == old(ph.hist[q].height)
        invariant SubmitKids(CoreView(), q, rest) == SubmitKids(old(CoreView()), q, kids)
      {
        SubmitSibling(q, rest);
        rest := rest[1..];
      }
    }

    method SubmitSibling(q: nat, kids: seq<nat>)
      requires KidsPre(CoreView(), q, kids) && kids != []
      modifies this`reqs, this`freeReq, this`ph, this`tr, this`freeTr, this`outTr, this`queuedReq,
               this`sqTail, this`sqTdbl, this`sqh, this`rh, this`seqno, this`nextSeq, cmd
      ensures KidsPre(CoreView(), q, kids[1..])
      ensures q < |ph.hist| && ph.hist[q].height == old(ph.hist[q].height)
      ensures SubmitKids(CoreView(), q, kids[1..]) == SubmitKids(old(CoreView()), q, kids)
      decreases ph.hist[q].height, 0, 0
    {
      ghost var c := CoreView();
      assert ChildLink(c.pool, q, kids[0]);
      hide CoreInv;
      SubmitSplitChild(kids[0]);
      NextSibling(c, CoreView(), q, kids);
    }

    method AcceptRequest(r: nat)
      requires r < |seqno|
      modifies this`seqno, this`nextSeq
      ensures CoreView() == Accept(old(CoreView()), r)
    {
      seqno := seqno[r := nextSeq];
      nextSeq := nextSeq + 1;
      assert SqView() == old(SqView()) && PoolView() == old(PoolView());
    }

    // ------------------------------------------------------ aborting everything

    /** nvme_qpair_manual_complete_request on the first queued request. */
    method AbortFirstQueued()
      requires CoreInv(CoreView()) && queuedReq != []
      modifies this`reqs, this`freeReq, this`ph, this`queuedReq
      ensures CoreView() == AbortHead(old(CoreView()))
    {
      hide CoreInv, CanFinish, AbortHead;
      ghost var c' := AbortHead(CoreView());
      HeadCanFinish(CoreView());
      var r := queuedReq[0];
      queuedReq := queuedReq[1..];
      assert PoolView() == old(PoolView());
      FinishRequest(r, Aborted(false));
      assert SqView() == c'.sq;
      assert PoolView() == c'.pool;
    }

    method AbortQueued()
      requires CoreInv(CoreView())
      modifies this`reqs, this`freeReq, this`ph, this`queuedReq
      ensures CoreView() == AbortQueue(old(CoreView()))
    {
      hide CoreInv;
      while queuedReq != []
        invariant CoreInv(CoreView())
        invariant AbortQueue(CoreView()) == AbortQueue(old(CoreView()))
        decreases |queuedReq|
      {
        AbortHeadInv(CoreView());
        AbortFirstQueued();
      }
    }

    /** nvme_qpair_manual_complete_tracker on every outstanding tracker.  The
        status is not one to retry and the queue is empty, so completing a
        tracker comes down to retiring it (CompleteRetires). */
    method AbortOutstanding(dnr: bool)
      requires CoreInv(CoreView()) && queuedReq == []
      modifies this`reqs, this`freeReq, this`ph, this`tr, this`freeTr, this`outTr
      ensures CoreView() == AbortTrackers(old(CoreView()), dnr)
    {
      while outTr != []
        invariant CoreInv(CoreView())
        invariant AbortTrackers(CoreView(), dnr) == AbortTrackers(old(CoreView()), dnr)
        decreases |outTr|
      {
        ghost var c := CoreView();
        var x := outTr[0];
        OutMember(c);
        RetireInv(c, x, Aborted(dnr));
        RemoveHead(c.outTr);
        hide CoreInv, CanFinish;
        RetireTracker(x, Aborted(dnr));
      }
    }

    /** Queued requests first, then outstanding ones. */
    method AbortAll(dnr: bool)
      requires CoreInv(CoreView())
      modifies this`reqs, this`freeReq, this`ph, this`tr, this`freeTr, this`outTr, this`queuedReq
      ensures CoreView() == DrainAll(old(CoreView()), dnr)
    {
      hide CoreInv;
      AbortQueueEffect(CoreView());
      AbortQueued();
      AbortOutstanding(dnr);
    }

    /** _nvme_qpair_io_qpair_enable */
    method Enable()
      requires CoreInv(CoreView().(enabled := true))
      modifies this`reqs, this`freeReq, this`ph, this`tr, this`freeTr, this`outTr, this`queuedReq,
               this`enabled
      ensures CoreView() == DrainAll(old(CoreView()).(enabled := true), false)
    {
      hide CoreInv, DrainAll;
      ghost var c := CoreView().(enabled := true);
      enabled := true;
      assert SqView() == c.sq && PoolView() == c.pool;
      AbortAll(false);
    }

    /** nvme_qpair_enabled */
    method CheckEnabled() returns (r: bool)
      requires SysInv(View())
      modifies this`reqs, this`freeReq, this`ph, this`tr, this`freeTr, this`outTr, this`queuedReq,
               this`enabled, this`env
      ensures View() == EnsureEnabled(old(View()))
      ensures r == enabled
    {
      hide SysInv, CoreInv, DrainAll, EnsureEnabled;
      ghost var s' := EnsureEnabled(View());
      EnableSteps(View());
      if !enabled && !resetting {
        Enable();
        env := env.(orphans := multiset{});
        assert CoreView() == s'.core;
        assert CqView() == s'.cq;
      }
      r := enabled;
    }

    /** nvme_qpair_fail, on behalf of nvme_ctrlr_fail. */
    method Fail()
      requires SysInv(View())
      modifies this`reqs, this`freeReq, this`ph, this`tr, this`freeTr, this`outTr, this`queuedReq, this`failed
      ensures View() == FailStep(old(View()))
    {
      hide SysInv, CoreInv, DrainAll;
      ghost var s' := FailStep(View());
      SwitchInv(View());
      FailQueue();
      assert CoreView() == s'.core;
      assert CqView() == s'.cq;
    }

    method FailQueue()
      requires CoreInv(CoreView().(failed := true))
      modifies this`reqs, this`freeReq, this`ph, this`tr, this`freeTr, this`outTr, this`queuedReq, this`failed
      ensures CoreView() == DrainAll(old(CoreView()).(failed := true), true)
    {
      hide CoreInv, DrainAll;
      ghost var c := CoreView().(failed := true);
      failed := true;
      assert SqView() == c.sq && PoolView() == c.pool;
      AbortAll(true);
    }

    // ------------------------------------------------------------ controller reset

    /** nvme_qpair_disable */
    method DisableQueue()
      modifies this`resetting, this`enabled
      ensures CoreView() == old(CoreView()).(resetting := true, enabled := false)
    {
      resetting := true;
      enabled := false;
    }

    /** The start of nvme_ctrlr_reset. */
    method Disable()
      modifies this`resetting, this`enabled, this`env
      ensures View() == BeginReset(old(View()))
    {
      DisableQueue();
      env := env.(recreated := false);
    }

    method ClearSq()
      modifies this`sqTail, this`sqTdbl, this`sqh, cmd
      ensures SqView() == NewSq(seq(cmd.Length, i => Command(0, 0)))
    {
      sqTail := 0;
      for i := 0 to cmd.Length
        modifies cmd
        invariant forall k :: 0 <= k < i ==> cmd[k] == Command(0, 0)
      {
        cmd[i] := Command(0, 0);
      }
      sqTdbl := 0;
      sqh := SqHistory(0, [], 0);
      assert cmd[..] == seq(cmd.Length, i => Command(0, 0));
    }

    method ClearCq()
      modifies this`cqHead, this`phase, this`cqHdbl, this`cqh, cpl
      ensures CqView() == NewCq(NoCpl(cpl.Length))
    {
      cqHead := 0;
      phase := true;
      for i := 0 to cpl.Length
        modifies cpl
        invariant forall k :: 0 <= k < i ==> cpl[k] == Entry(Cpl(0, SUCCESS), false)
      {
        cpl[i] := Entry(Cpl(0, SUCCESS), false);
      }
      cqHdbl := 0;
      cqh := CqHistory(0, true, [], 0, 0);
      assert cpl[..] == NoCpl(cpl.Length);
    }

    method ClearRings()
      requires Separate()
      modifies this`sqTail, this`sqTdbl, this`sqh, this`cqHead, this`phase, this`cqHdbl, this`cqh, cmd, cpl
      ensures CoreView() == old(CoreView()).(sq := NewSq(seq(cmd.Length, i => Command(0, 0))))
      ensures CqView() == NewCq(NoCpl(cpl.Length))
    {
      ClearSq();
      ghost var c := CoreView();
      assert c == old(CoreView()).(sq := c.sq);
      ClearCq();
      assert SqView() == c.sq;
    }

    /** nvme_qpair_reset, the controller having started afresh. */
    method Reset()
      requires Separate()
      modifies this`sqTail, this`sqTdbl, this`sqh, this`cqHead, this`phase, this`cqHdbl, this`cqh, this`env,
               cmd, cpl
      ensures View() == Recreate(old(View()))
    {
      ClearRings();
      env := Environment(multiset{}, multiset(outTr), true);
    }

    method FinishReset()
      modifies this`resetting
      ensures View() == EndReset(old(View()))
    {
      resetting := false;
      assert SqView() == old(SqView()) && PoolView() == old(PoolView()) && CqView() == old(CqView());
    }

    // ------------------------------------------------------------ public calls

    /** nvme_request_free on a request that is refused. */
    method RefuseRequest(r: nat)
      requires Shape(PoolView()) && r < |reqs|
      modifies this`freeReq, this`ph
      ensures PoolView() == Refuse(old(PoolView()), r)
    {
      freeReq := [r] + freeReq;
      ph := ph.(hist := ph.hist[r := ph.hist[r].(place := Free)],
                ended := ph.ended + [Ended(ph.hist[r].tag, Refused)]);
    }

    /** nvme_qpair_submit_request once the queue pair is usable. */
    method SubmitAny(r: nat) returns (ok: bool)
      requires RootPre(CoreView(), r)
      modifies this`reqs, this`freeReq, this`ph, this`tr, this`freeTr, this`outTr, this`queuedReq,
               this`sqTail, this`sqTdbl, this`sqh, this`rh, this`seqno, this`nextSeq, cmd
      ensures CoreView() == SubmitRoot(old(CoreView()), r)
      ensures ok <==> Succeeds(old(CoreView()), r)
    {
      hide RingInv, SqInv, LogInv, TagInv, EndedInv, KidsAccepted, TrackInv;
      ghost var c := CoreView();
      assert TreeAt(c.pool, r);
      if reqs[r].childReqs != 0 {
        ParkedKids(c, r);
        hide CoreInv;
        ph := ph.(hist := Park(c.pool, r).hist);
        assert PoolView() == Park(c.pool, r);
        assert SqView() == c.sq;
        SubmitSplit(r, reqs[r].children);
        ok := true;
      } else {
        RootLeaf(c, r);
        hide CoreInv;
        AcceptRequest(r);
        ok := SubmitUnsplit(r);
      }
    }

    /** nvme_qpair_submit_request */
    method SubmitRequest(r: nat) returns (ok: bool)
      requires SysInv(View()) && CanSubmit(View(), r)
      modifies this`reqs, this`freeReq, this`ph, this`tr, this`freeTr, this`outTr, this`queuedReq,
               this`sqTail, this`sqTdbl, this`sqh, this`rh, this`seqno, this`nextSeq, this`enabled, this`env, cmd
      ensures View() == SubmitStep(old(View()), r)
      ensures
        var c := EnsureEnabled(old(View())).core;
        ok <==> !old(failed) && r < |c.pool.reqs|
                && (c.pool.reqs[r].children != [] || c.freeTr == [] || !c.enabled || c.pool.reqs[r].accept)
    {
      hide SysInv, CoreInv, EnsureEnabled, SubmitRoot, RootPre;
      ghost var s := View();
      if failed {
        RefuseRequest(r);
        assert SqView() == s.core.sq;
        assert CqView() == s.cq;
        ok := false;
      } else {
        SubmitReady(s, r);
        ok := SubmitUsable(r);
      }
    }

    method SubmitUsable(r: nat) returns (ok: bool)
      requires SysInv(View()) && RootPre(EnsureEnabled(View()).core, r)
      modifies this`reqs, this`freeReq, this`ph, this`tr, this`freeTr, this`outTr, this`queuedReq,
               this`sqTail, this`sqTdbl, this`sqh, this`rh, this`seqno, this`nextSeq, this`enabled, this`env, cmd
      ensures
        var s1 := EnsureEnabled(old(View()));
        View() == s1.(core := SubmitRoot(s1.core, r)) && (ok <==> Succeeds(s1.core, r))
    {
      hide SysInv, EnsureEnabled, SubmitRoot, RootPre;
      var _ := CheckEnabled();
      ok := SubmitAny(r);
    }

    /** The doorbell write at the end of nvme_qpair_poll. */
    method WriteHeadDoorbell()
      modifies this`cqHdbl, this`cqh
      ensures View() == Ack(old(View()))
    {
      cqHdbl := cqHead;
      cqh := cqh.(acked := cqh.taken);
      assert CoreView() == old(CoreView());
    }

    /** One turn of the loop of nvme_qpair_poll, on a slot whose phase matches. */
    method PollSlot()
      requires SysInv(View()) && CanPoll(View())
      modifies this`reqs, this`freeReq, this`ph, this`tr, this`freeTr, this`outTr, this`queuedReq,
               this`sqTail, this`sqTdbl, this`sqh, this`rh, this`cqHead, this`phase, this`cqh, this`panicked, cmd
      ensures View() == PollOne(old(View()))
    {
      hide SysInv, CoreInv, CompletePre, Complete, PollOne;
      ghost var s := View();
      PollFacts(s);
      var e := cpl[cqHead].body;
      if tr[e.cid].active {
        HandleCompletion(e.cid, e.status);
      } else {
        panicked := true;
        assert CoreView() == s.core;
      }
    }

    method HandleCompletion(x: nat, st: Status)
      requires CompletePre(CoreView(), x) && cqHead < cpl.Length
      modifies this`reqs, this`freeReq, this`ph, this`tr, this`freeTr, this`outTr, this`queuedReq,
               this`sqTail, this`sqTdbl, this`sqh, this`rh, this`cqHead, this`phase, this`cqh, cmd
      ensures CoreView() == Complete(old(CoreView()), x, st)
      ensures CqView() == Take(old(CqView()))
    {
      hide CompletePre, Complete;
      CompleteTracker(x, st);
      AdvanceHead();
    }

    method AdvanceHead()
      requires cqHead < cpl.Length
      modifies this`cqHead, this`phase, this`cqh
      ensures CqView() == Take(old(CqView()))
    {
      cqHead := cqHead + 1;
      if cqHead == cpl.Length {
        cqHead := 0;
        phase := !phase;
      }
      cqh := cqh.(taken := cqh.taken + 1);
    }

    // -------------------------------------------------------------- controller

    /** The controller fetches the command at its head. */
    method CtrlrFetchOne()
      requires sqh.head < cmd.Length
      modifies this`sqh, this`env
      ensures View() == DeviceFetch(old(View()))
    {
      ghost var s := View();
      env := env.(inflight := env.inflight + multiset{cmd[sqh.head].cid});
      sqh := sqh.(head := Next(sqh.head, cmd.Length), fetched := sqh.fetched + 1);
      assert SqView() == Rings.Fetch(s.core.sq);
      assert CqView() == s.cq;
    }

    /** The controller completes a command it has fetched. */
    method CtrlrPostOne(x: nat, st: Status)
      requires cqh.tail < cpl.Length
      modifies this`cqh, this`env, cpl
      ensures Separate() ==> View() == DevicePost(old(View()), x, st)
      ensures cqh.taken == old(cqh.taken) && cqh.acked == old(cqh.acked)
    {
      ghost var s := View();
      PostCompletion(Cpl(x, st));
      env := env.(inflight := env.inflight - multiset{x});
      assert Separate() ==> CoreView() == s.core;
    }

    /** The controller takes one step, if it can. */
    method CtrlrAct(e: Event)
      requires SysInv(View()) && !panicked && (e.CtrlrFetch? || e.CtrlrPost?) && Separate()
      modifies this`sqh, this`cqh, this`env, cpl
      ensures View() == Step(old(View()), e)
      ensures cqh.taken == old(cqh.taken) && cqh.acked == old(cqh.acked)
    {
      hide SysInv, Step;
      RingSlots(View());
      if e.CtrlrFetch? {
        StepFetch(View());
        if sqh.head != sqTdbl {
          CtrlrFetchOne();
        }
      } else {
        StepPost(View(), e.cid, e.status);
        if e.cid in env.inflight && Next(cqh.tail, cpl.Length) != cqHdbl {
          CtrlrPostOne(e.cid, e.status);
        }
      }
    }

    method PostCompletion(c: Cpl)
      requires cqh.tail < cpl.Length
      modifies this`cqh, cpl
      ensures CqView() == Rings.Post(old(CqView()), c)
      ensures cqh.taken == old(cqh.taken) && cqh.acked == old(cqh.acked)
    {
      cpl[cqh.tail] := Entry(c, cqh.phase);
      assert cpl[..] == old(cpl[..])[cqh.tail := Entry(c, cqh.phase)];
      cqh := CqHistory(Next(cqh.tail, cpl.Length), if cqh.tail + 1 == cpl.Length then !cqh.phase else cqh.phase,
                       cqh.posted + [c], cqh.taken, cqh.acked);
    }

    // ----------------------------------------------------------------- polling

    method CtrlrActs(acts: seq<Event>)
      requires SysInv(View()) && !panicked && Separate()
      requires forall i :: 0 <= i < |acts| ==> acts[i].CtrlrFetch? || acts[i].CtrlrPost?
      modifies this`sqh, this`cqh, this`env, cpl
      ensures SysInv(View()) && View() == Run(old(View()), acts)
      ensures cqh.taken == old(cqh.taken) && cqh.acked == old(cqh.acked)
    {
      hide SysInv, Step;
      for i := 0 to |acts|
        invariant SysInv(View()) && View() == Run(old(View()), acts[..i])
        invariant cqh.taken == old(cqh.taken) && cqh.acked == old(cqh.acked)
      {
        RunSnoc(old(View()), acts[..i], acts[i]);
        assert acts[..i] + [acts[i]] == acts[..i + 1];
        StepKeeps(View(), acts[i]);
        CtrlrAct(acts[i]);
      }
      assert acts[..|acts|] == acts;
    }

    method BeginPoll() returns (usable: bool)
      requires SysInv(View()) && !panicked
      modifies this`reqs, this`freeReq, this`ph, this`tr, this`freeTr, this`outTr, this`queuedReq, this`enabled, this`env
      ensures SysInv(View()) && View() == Step(old(View()), PollBegin)
      ensures usable == enabled
    {
      hide SysInv, Step, EnsureEnabled;
      StepPolls(View());
      StepKeeps(View(), PollBegin);
      usable := CheckEnabled();
    }

    method PollNextSlot()
      requires SysInv(View()) && !panicked && enabled && cqHead < cpl.Length && cpl[cqHead].phase == phase
      modifies this`reqs, this`freeReq, this`ph, this`tr, this`freeTr, this`outTr, this`queuedReq,
               this`sqTail, this`sqTdbl, this`sqh, this`rh, this`cqHead, this`phase, this`cqh, this`panicked, cmd
      ensures SysInv(View()) && View() == Step(old(View()), PollNext)
      ensures panicked ==> failed && cqh.taken == old(cqh.taken)
      ensures !panicked ==> enabled && cqh.taken == old(cqh.taken) + 1
    {
      hide SysInv, Step, PollOne;
      StepPolls(View());
      StepKeeps(View(), PollNext);
      PollTakes(View());
      PollSlot();
    }

    method EndPoll()
      requires SysInv(View()) && !panicked
      modifies this`cqHdbl, this`cqh
      ensures SysInv(View()) && View() == Step(old(View()), PollEnd)
      ensures cqh.acked == cqh.taken == old(cqh.taken)
    {
      hide SysInv, Step;
      StepPolls(View());
      StepKeeps(View(), PollEnd);
      WriteHeadDoorbell();
    }

    /** The loop of nvme_qpair_poll.  `turns[i]` is what the controller does
        before the driver looks at the ring for the i-th time.  The loop goes on
        until it has handled `bound` completions or sees none. */
    method PollLoop(bound: nat, turns: seq<seq<Event>>) returns (n: nat)
      requires SysInv(View()) && !panicked && enabled && Separate() && CtrlrOnly(turns)
      modifies this`reqs, this`freeReq, this`ph, this`tr, this`freeTr, this`outTr, this`queuedReq,
               this`sqTail, this`sqTdbl, this`sqh, this`rh, this`cqHead, this`phase, this`cqh, this`panicked,
               this`env, cmd, cpl
      ensures SysInv(View()) && View() == Run(old(View()), LoopEvents(turns, n, bound, panicked))
      ensures cqh.taken == old(cqh.taken) + n && n <= bound
      ensures panicked ==> failed
      ensures !panicked ==> enabled
      ensures !panicked && n < bound ==> cqHead < cpl.Length && cpl[cqHead].phase != phase
    {
      hide SysInv, Run;
      ghost var s0 := View();
      RunNone(s0);
      n := 0;
      while n < bound
        invariant SysInv(View()) && View() == Run(s0, Looks(turns, n))
        invariant !panicked && enabled
        invariant 0 <= n <= bound && cqh.taken == old(cqh.taken) + n
        decreases bound - n
      {
        var seen := PollTurn(turns, n);
        RunConcat(s0, Looks(turns, n), TurnEvents(turns, n, seen));
        LooksNext(turns, n);
        if !seen || panicked {
          return;
        }
        n := n + 1;
      }
    }

    /** The controller's turn, then one look at the ring. */
    method PollTurn(turns: seq<seq<Event>>, i: nat) returns (seen: bool)
      requires SysInv(View()) && !panicked && enabled && Separate() && CtrlrOnly(turns)
      modifies this`reqs, this`freeReq, this`ph, this`tr, this`freeTr, this`outTr, this`queuedReq,
               this`sqTail, this`sqTdbl, this`sqh, this`rh, this`cqHead, this`phase, this`cqh, this`panicked,
               this`env, cmd, cpl
      ensures SysInv(View()) && View() == Run(old(View()), TurnEvents(turns, i, seen))
      ensures !seen ==> !panicked && cqHead < cpl.Length && cpl[cqHead].phase != phase
      ensures if panicked then failed else enabled
      ensures cqh.taken == old(cqh.taken) + if seen && !panicked then 1 else 0
    {
      hide SysInv, Step, Run;
      ghost var s0 := View();
      if i < |turns| {
        CtrlrActs(turns[i]);
      } else {
        RunNone(s0);
      }
      PollSize(View());
      seen := cpl[cqHead].phase == phase;
      if seen {
        RunSnoc(s0, Turn(turns, i), PollNext);
        PollNextSlot();
      }
    }

    /** nvme_qpair_poll; nothing is handled while the queue pair is unusable. */
    method Poll(maxCompletions: nat, turns: seq<seq<Event>>) returns (n: nat)
      requires SysInv(View()) && !panicked && Separate() && CtrlrOnly(turns)
      modifies this`reqs, this`freeReq, this`ph, this`tr, this`freeTr, this`outTr, this`queuedReq,
               this`sqTail, this`sqTdbl, this`sqh, this`rh, this`cqHead, this`phase, this`cqh, this`panicked,
               this`enabled, this`env, this`cqHdbl, cmd, cpl
      ensures SysInv(View())
      ensures
        var s1 := EnsureEnabled(old(View()));
        && enabled == s1.core.enabled
        && (!enabled ==> n == 0 && View() == s1)
        && (enabled ==> View() == Run(old(View()), [PollBegin] + PollEvents(turns, n, Bound(maxCompletions), panicked)))
      ensures cqh.taken == old(cqh.taken) + n && n <= Bound(maxCompletions)
      ensures n > 0 && !panicked ==> cqh.acked == cqh.taken
      ensures panicked ==> failed
      ensures n <= cpl.Length - 1 && (maxCompletions > 0 ==> n <= maxCompletions)
      ensures enabled && !panicked ==>
        || (cqHead < cpl.Length && cpl[cqHead].phase != phase)
        || n == cpl.Length - 1
        || n == maxCompletions > 0
    {
      hide SysInv, Step, EnsureEnabled, Run;
      StepPolls(View());
      PollSize(View());
      ghost var s0 := View();
      n := 0;
      var usable := BeginPoll();
      RunOne(s0, PollBegin);
      if usable {
        ghost var s1 := View();
        n := PollUsable(maxCompletions, turns);
        RunConcat(s0, [PollBegin], PollEvents(turns, n, Bound(maxCompletions), panicked));
      }
    }

    /** At most one queue depth batch of completions; 0 means as many as that. */
    function Bound(maxCompletions: nat): (b: int) {
      if maxCompletions == 0 || maxCompletions > cpl.Length - 1 then cpl.Length - 1 else maxCompletions
    }

    /** The loop, and the doorbell when something was handled. */
    method PollUsable(maxCompletions: nat, turns: seq<seq<Event>>) returns (n: nat)
      requires SysInv(View()) && !panicked && enabled && Separate() && CtrlrOnly(turns)
      modifies this`reqs, this`freeReq, this`ph, this`tr, this`freeTr, this`outTr, this`queuedReq,
               this`sqTail, this`sqTdbl, this`sqh, this`rh, this`cqHead, this`phase, this`cqh, this`panicked,
               this`env, this`cqHdbl, cmd, cpl
      ensures SysInv(View()) && View() == Run(old(View()), PollEvents(turns, n, Bound(maxCompletions), panicked))
      ensures enabled == old(enabled)
      ensures cqh.taken == old(cqh.taken) + n && n <= Bound(maxCompletions)
      ensures n > 0 && !panicked ==> cqh.acked == cqh.taken
      ensures panicked ==> failed
      ensures !panicked && n < Bound(maxCompletions) ==> cqHead < cpl.Length && cpl[cqHead].phase != phase
    {
      hide SysInv, Step;
      PollSize(View());
      hide Run;
      ghost var s0 := View();
      n := PollLoop(Bound(maxCompletions), turns);
      ghost var es := LoopEvents(turns, n, Bound(maxCompletions), panicked);
      if n > 0 && !panicked {
        RunSnoc(s0, es, PollEnd);
        EndPoll();
      } else {
        assert es + [] == es;
      }
    }
  }

  /** nvme_qpair_submit_request returns 0: the request is split, waits in the
      queue, or has a payload the builder accepts. */
  ghost predicate Succeeds(c: Core, r: nat) {
    r < |c.pool.reqs| && (c.pool.reqs[r].children != [] || c.freeTr == [] || !c.enabled || c.pool.reqs[r].accept)
  }

  /** The turns are the controller's. */
  ghost predicate CtrlrOnly(turns: seq<seq<Event>>) {
    forall t, i :: 0 <= t < |turns| && 0 <= i < |turns[t]| ==> turns[t][i].CtrlrFetch? || turns[t][i].CtrlrPost?
  }

  ghost function Turn(turns: seq<seq<Event>>, i: nat): seq<Event> {
    if i < |turns| then turns[i] else []
  }

  ghost function TurnEvents(turns: seq<seq<Event>>, i: nat, seen: bool): seq<Event> {
    if seen then Turn(turns, i) + [PollNext] else Turn(turns, i)
  }

  lemma LooksNext(turns: seq<seq<Event>>, n: nat)
    ensures Looks(turns, n) + TurnEvents(turns, n, true) == Looks(turns, n + 1)
    ensures Looks(turns, n) + TurnEvents(turns, n, false) == Looks(turns, n) + Turn(turns, n)
  {
    assert Looks(turns, n) + (Turn(turns, n) + [PollNext]) == Looks(turns, n) + Turn(turns, n) + [PollNext];
  }

  /** n completions handled, each after the controller's turn. */
  ghost function Looks(turns: seq<seq<Event>>, n: nat): seq<Event> {
    if n == 0 then [] else Looks(turns, n - 1) + Turn(turns, n - 1) + [PollNext]
  }

  /** The events of the loop of nvme_qpair_poll when it handled n completions. */
  ghost function LoopEvents(turns: seq<seq<Event>>, n: nat, bound: int, panicked: bool): seq<Event> {
    if panicked then Looks(turns, n + 1)
    else if n < bound then Looks(turns, n) + Turn(turns, n)
    else Looks(turns, n)
  }

  /** The events of a call, once the queue pair is usable: the doorbell is
      written when something was handled. */
  ghost function PollEvents(turns: seq<seq<Event>>, n: nat, bound: int, panicked: bool): seq<Event> {
    LoopEvents(turns, n, bound, panicked) + (if n > 0 && !panicked then [PollEnd] else [])
  }

  lemma RunNone(s: State)
    requires SysInv(s)
    ensures Run(s, []) == s
  {
  }
}
