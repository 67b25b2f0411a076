/** What the controller finds in the submission ring: over every run, the command
    it fetches is the one of the request that waits on its identifier. */
module Commands {
  import opened Common
  import opened Lists
  import opened Requests
  import opened Rings
  import opened Qpair
  import opened Drain
  import opened SplitSubmit
  import opened System
  import opened Runs

  /** No later command has the identifier. */
  ghost predicate Latest(sent: seq<Command>, k: int) {
    0 <= k < |sent| && forall j :: k < j < |sent| ==> sent[j].cid != sent[k].cid
  }

  /** The command is the one of the request in its tracker. */
  predicate Carries(c: Core, cmd: Command) {
    && cmd.cid < |c.tr| && c.tr[cmd.cid].req.Some?
    && c.tr[cmd.cid].req.value < |c.seqno|
    && cmd.seqno == c.seqno[c.tr[cmd.cid].req.value]
  }

  /** The commands in the ring are the last that were put there, and the latest of
      each outstanding tracker is the one of its request. */
  ghost predicate Carry(c: Core) {
    && |c.sq.sent| <= |c.ring|
    && (forall k :: 0 <= k < |c.sq.sent| ==> c.sq.sent[k].seqno == c.ring[|c.ring| - |c.sq.sent| + k])
    && (forall k :: Latest(c.sq.sent, k) && c.sq.sent[k].cid in c.outTr ==> Carries(c, c.sq.sent[k]))
  }

  // -------------------------------------------------------------- basic steps

  /** The tracker keeps its request and that its number. */
  predicate SameReq(c: Core, c': Core, x: nat) {
    && x < |c.tr| && x < |c'.tr| && c'.tr[x].req == c.tr[x].req
    && |c'.seqno| == |c.seqno|
    && (c.tr[x].req.Some? && c.tr[x].req.value < |c.seqno| ==> c'.seqno[c.tr[x].req.value] == c.seqno[c.tr[x].req.value])
  }

  /** Steps that put nothing on the ring and give no tracker away. */
  lemma CarryFrame(c: Core, c': Core)
    requires Carry(c) && c'.sq.sent == c.sq.sent && c'.ring == c.ring
    requires forall x :: x in c'.outTr ==> x in c.outTr && SameReq(c, c', x)
    ensures Carry(c')
  {
    forall k | Latest(c'.sq.sent, k) && c'.sq.sent[k].cid in c'.outTr ensures Carries(c', c'.sq.sent[k]) {
      assert Carries(c, c.sq.sent[k]);
    }
  }

  /** Putting the command of the request in tracker x on the ring. */
  lemma CarryLaunch(c: Core, c': Core, x: nat, s: nat)
    requires Carry(c) && c'.sq.sent == c.sq.sent + [Command(x, s)] && c'.ring == c.ring + [s]
    requires Carries(c', Command(x, s))
    requires forall y :: y in c'.outTr && y != x ==> y in c.outTr && SameReq(c, c', y)
    ensures Carry(c')
  {
    var sent, sent' := c.sq.sent, c'.sq.sent;
    var n := |sent|;
    forall k | 0 <= k < n + 1 ensures sent'[k].seqno == c'.ring[|c'.ring| - |sent'| + k] {
      if k < n {
        assert sent[k].seqno == c.ring[|c.ring| - n + k];
      }
    }
    forall k | Latest(sent', k) && sent'[k].cid in c'.outTr ensures Carries(c', sent'[k]) {
      if k < n {
        assert sent'[n].cid == x && sent'[k] == sent[k];
        assert forall j :: k < j < n ==> sent'[j] == sent[j];
        assert Latest(sent, k);
      }
    }
  }

  /** What is outstanding. */
  lemma Outstanding(c: Core)
    requires CoreInv(c)
    ensures Shape(c.pool) && |c.seqno| == |c.pool.reqs| && c.sq.tail < |c.sq.cmd|
    ensures forall x :: x in c.outTr ==>
              && x < |c.tr| && c.tr[x].req.Some? && c.tr[x].req.value < |c.seqno|
              && c.pool.hist[c.tr[x].req.value].place == Tracked(x)
    ensures forall i, x :: 0 <= i < |c.freeTr| && x in c.outTr ==> c.freeTr[i] < |c.tr| && c.freeTr[i] != x
  {
    hide TreeInv, TagInv, FreeInv, EndedInv, LogInv, QueueInv, RingInv, KidsAccepted;
    OutMember(c);
    forall i, x | 0 <= i < |c.freeTr| && x in c.outTr ensures c.freeTr[i] != x {
      assert c.tr[c.freeTr[i]] == IDLE;
    }
  }

  /** Steps on requests and queue only. */
  lemma CarrySame(c: Core, c': Core)
    requires CoreInv(c) && Carry(c)
    requires c'.sq == c.sq && c'.ring == c.ring && c'.outTr == c.outTr && c'.tr == c.tr && c'.seqno == c.seqno
    ensures Carry(c')
  {
    hide CoreInv, Carry;
    Outstanding(c);
    CarryFrame(c, c');
  }

  lemma DispatchCarry(c: Core, r: nat)
    requires CoreInv(c) && Carry(c) && r < |c.seqno| && r < |c.pool.reqs| && c.freeTr != []
    ensures Shape(c.pool) && |c.seqno| == |c.pool.reqs| && c.freeTr[0] < |c.tr| && c.sq.tail < |c.sq.cmd|
    ensures Carry(Dispatch(c, r))
  {
    Outstanding(c);
    var c', x := Dispatch(c, r), c.freeTr[0];
    hide CoreInv, Carry;
    assert x == c.freeTr[0];
    assert x < |c.tr|;
    CarryLaunch(c, c', x, c.seqno[r]);
  }

  lemma ResubmitCarry(c: Core, x: nat)
    requires CompletePre(c, x) && Carry(c)
    ensures |c.seqno| == |c.pool.reqs| && c.sq.tail < |c.sq.cmd|
    ensures Carry(Resubmit(c, x))
  {
    Outstanding(c);
    hide CoreInv, Carry;
    CarryLaunch(c, Resubmit(c, x), x, c.seqno[c.tr[x].req.value]);
  }

  lemma RetireCarry(c: Core, x: nat, st: Status)
    requires CoreInv(c) && x in c.outTr && OutAt(c, x) && Carry(c)
    requires CanFinish(c.pool, c.tr[x].req.value, st)
    ensures Carry(Retire(c, x, st))
  {
    Outstanding(c);
    OutDistinct(c);
    hide CoreInv, Carry, CanFinish;
    RemoveMembers(c.outTr, x);
    CarryFrame(c, Retire(c, x, st));
  }

  lemma OutDistinct(c: Core)
    requires CoreInv(c)
    ensures NoDup(c.outTr)
  {
  }

  // ------------------------------------------------------------- submissions

  lemma {:induction false} SubmitLeafCarry(c: Core, r: nat)
    requires LeafPre(c, r) && Carry(c)
    ensures Carry(SubmitLeaf(c, r))
    decreases |c.queue|, 1
  {
    hide CoreInv, Carry, Oldest, Youngest, PumpPre, Reject, Dispatch;
    StagedSlots(c, r);
    if c.freeTr == [] || !c.enabled {
      CarrySame(c, SubmitLeaf(c, r));
    } else if c.pool.reqs[r].accept {
      DispatchCarry(c, r);
    } else {
      RejectPumps(c, r);
      RejectOnly(c, r);
      CarrySame(c, Reject(c, r));
      PumpCarry(Reject(c, r));
    }
  }

  lemma RejectOnly(c: Core, r: nat)
    requires Staged(c, r) && c.freeTr != []
    ensures Reject(c, r) == c.(pool := Reject(c, r).pool)
  {
    hide CoreInv;
  }

  lemma {:induction false} PumpCarry(c: Core)
    requires PumpPre(c) && Carry(c)
    ensures Carry(Pump(c))
    decreases |c.queue|, 0
  {
    if c.queue != [] && !c.resetting {
      hide Carry;
      DequeueInv(c);
      CarrySame(c, Dequeue(c));
      SubmitLeafCarry(Dequeue(c), c.queue[0]);
    }
  }

  lemma CompleteCarry(c: Core, x: nat, st: Status)
    requires CompletePre(c, x) && Carry(c)
    ensures Carry(Complete(c, x, st))
  {
    hide CoreInv, Carry, CanFinish, PumpPre, Retire;
    if WillRetry(c, x, st) {
      ResubmitCarry(c, x);
    } else {
      RetirePump(c, x, st);
      RetireCarry(c, x, st);
      PumpCarry(Retire(c, x, st));
    }
  }

  lemma AcceptCarry(c: Core, r: nat)
    requires CoreInv(c) && Carry(c) && r < |c.pool.reqs| && Shape(c.pool) && c.pool.hist[r].place == Held
    ensures r < |c.seqno| && Carry(Accept(c, r))
  {
    Outstanding(c);
    hide CoreInv, Carry;
    CarryFrame(c, Accept(c, r));
  }

  lemma PoolCarry(c: Core, p: Pool)
    requires CoreInv(c) && Carry(c)
    ensures Carry(c.(pool := p))
  {
    hide CoreInv, Carry;
    CarrySame(c, c.(pool := p));
  }

  lemma LeafCarry(c: Core, r: nat)
    requires SubmitPre(c) && Shape(c.pool) && LeafAt(c.pool, r) && LeafPre(Accept(c, r), r) && Carry(c)
    ensures Carry(SubmitLeaf(Accept(c, r), r))
  {
    hide CoreInv, Carry, LeafPre;
    AcceptCarry(c, r);
    SubmitLeafCarry(Accept(c, r), r);
  }

  lemma {:induction false} SubmitChildCarry(c: Core, k: nat)
    requires ChildPre(c, k) && Carry(c)
    ensures Carry(SubmitChild(c, k))
    decreases c.pool.hist[k].height, 1, 0
  {
    hide CoreInv, Carry, LeafPre, KidsPre;
    if c.pool.reqs[k].children == [] {
      ChildIsLeaf(c, k);
      LeafCarry(c, k);
    } else {
      ChildIsParent(c, k);
      SubmitKidsCarry(c, k, c.pool.reqs[k].children);
    }
  }

  lemma {:induction false} SubmitKidsCarry(c: Core, q: nat, kids: seq<nat>)
    requires KidsPre(c, q, kids) && Carry(c)
    ensures Carry(SubmitKids(c, q, kids))
    decreases c.pool.hist[q].height, 0, |kids|
  {
    if kids != [] {
      assert ChildLink(c.pool, q, kids[0]);
      var c1 := SubmitChild(c, kids[0]);
      NextSibling(c, c1, q, kids);
      hide CoreInv, Carry;
      SubmitChildCarry(c, kids[0]);
      SubmitKidsCarry(c1, q, kids[1..]);
    }
  }

  lemma SubmitRootCarry(c: Core, r: nat)
    requires RootPre(c, r) && Carry(c)
    ensures Carry(SubmitRoot(c, r))
  {
    CoreShape(c);
    hide CoreInv, Carry, LeafPre, KidsPre, Settled;
    if c.pool.reqs[r].children == [] {
      RootLeaf(c, r);
      LeafCarry(c, r);
    } else {
      RootKids(c, r);
      PoolCarry(c, Park(c.pool, r));
      SubmitKidsCarry(c.(pool := Park(c.pool, r)), r, c.pool.reqs[r].children);
    }
  }

  lemma CoreShape(c: Core)
    requires CoreInv(c)
    ensures Shape(c.pool)
  {
  }

  lemma RootKids(c: Core, r: nat)
    requires RootPre(c, r) && c.pool.reqs[r].children != []
    ensures KidsPre(c.(pool := Park(c.pool, r)), r, c.pool.reqs[r].children)
  {
    hide CoreInv, KidsPre;
    ParkedKids(c, r);
  }

  // ------------------------------------------------------------------ aborts

  lemma {:induction false} AbortQueueCarry(c: Core)
    requires CoreInv(c) && Carry(c)
    ensures Carry(AbortQueue(c))
    decreases |c.queue|
  {
    if c.queue != [] {
      AbortHeadInv(c);
      HeadCanFinish(c);
      hide CoreInv, Carry, AbortHead;
      CarrySame(c, AbortHead(c));
      AbortQueueCarry(AbortHead(c));
    }
  }

  lemma {:induction false} AbortTrackersCarry(c: Core, dnr: bool)
    requires CoreInv(c) && Carry(c)
    ensures Carry(AbortTrackers(c, dnr))
    decreases |c.outTr|
  {
    if c.outTr != [] {
      var x := c.outTr[0];
      OutMember(c);
      RetireInv(c, x, Aborted(dnr));
      RemoveHead(c.outTr);
      RetireCarry(c, x, Aborted(dnr));
      hide CoreInv, Carry;
      AbortTrackersCarry(Retire(c, x, Aborted(dnr)), dnr);
    }
  }

  lemma DrainCarry(c: Core, dnr: bool)
    requires CoreInv(c) && Carry(c)
    ensures Carry(DrainAll(c, dnr))
  {
    hide CoreInv, Carry;
    AbortQueueCarry(c);
    AbortTrackersCarry(AbortQueue(c), dnr);
  }

  // -------------------------------------------------------------------- runs

  lemma EnableCarry(s: State)
    requires SysInv(s) && Carry(s.core)
    ensures Carry(EnsureEnabled(s).core)
  {
    hide CoreInv, Carry, DrainAll;
    EnableSteps(s);
    if !s.core.enabled && !s.core.resetting {
      CoreOf(s);
      CarrySame(s.core, s.core.(enabled := true));
      DrainCarry(s.core.(enabled := true), false);
    }
  }

  lemma CoreOf(s: State)
    requires SysInv(s)
    ensures CoreInv(s.core)
  {
  }

  lemma FailCarry(s: State)
    requires SysInv(s) && Carry(s.core)
    ensures Carry(FailStep(s).core)
  {
    hide CoreInv, Carry, DrainAll;
    CoreOf(s);
    CoreFrame(s.core, s.core.(failed := true));
    CarrySame(s.core, s.core.(failed := true));
    DrainCarry(s.core.(failed := true), true);
  }

  lemma SubmitCarry(s: State, r: nat)
    requires SysInv(s) && CanSubmit(s, r) && Carry(s.core)
    ensures Carry(SubmitStep(s, r).core)
  {
    hide CoreInv, Carry, EnsureEnabled, SubmitRoot, RootPre, CanSubmit;
    if s.core.failed {
      CoreOf(s);
      PoolCarry(s.core, SubmitStep(s, r).core.pool);
    } else {
      SubmitReady(s, r);
      EnableCarry(s);
      SubmitRootCarry(EnsureEnabled(s).core, r);
    }
  }

  lemma PollCarry(s: State)
    requires SysInv(s) && CanPoll(s) && Carry(s.core)
    ensures Carry(PollOne(s).core)
  {
    hide CoreInv, Carry, Complete, CompletePre;
    PollFacts(s);
    var e := s.cq.cpl[s.cq.head].body;
    if s.core.tr[e.cid].active {
      CompleteCarry(s.core, e.cid, e.status);
    }
  }

  lemma FetchCarry(s: State)
    requires SysInv(s) && Carry(s.core) && s.core.sq.head < |s.core.sq.cmd|
    ensures Carry(DeviceFetch(s).core)
  {
    CoreOf(s);
    Outstanding(s.core);
    hide SysInv, CoreInv, Carry;
    CarryFrame(s.core, DeviceFetch(s).core);
  }

  lemma RecreateCarry(s: State)
    ensures Carry(Recreate(s).core)
  {
  }

  lemma StepCarry(s: State, e: Event)
    requires SysInv(s) && Carry(s.core)
    ensures Carry(Step(s, e).core)
  {
    hide SysInv, Carry, CoreInv;
    CoreOf(s);
    if Possible(s, e) {
      match e
      case TakeReq(accept) => PoolCarry(s.core, Step(s, e).core.pool);
      case AttachKid(q, k) => PoolCarry(s.core, Step(s, e).core.pool);
      case SubmitReq(r) => SubmitCarry(s, r);
      case PollBegin => EnableCarry(s);
      case PollNext => PollCarry(s);
      case PollEnd =>
      case CtrlrFetch => RingSlots(s); FetchCarry(s);
      case CtrlrPost(x, st) =>
      case ResetBegin => CarrySame(s.core, Step(s, e).core);
      case ResetQueue => RecreateCarry(s);
      case ResetEnd => CarrySame(s.core, Step(s, e).core);
      case GiveUp => FailCarry(s);
    }
  }

  lemma {:induction false} RunCarry(s: State, es: seq<Event>)
    requires SysInv(s) && Carry(s.core)
    ensures Carry(Run(s, es).core)
  {
    hide SysInv, Carry, Step;
    if es != [] {
      var init, e := es[..|es| - 1], es[|es| - 1];
      RunCarry(s, init);
      RunSnoc(s, init, e);
      assert es == init + [e];
      StepCarry(Run(s, init), e);
    }
  }

  /** Each identifier is owed once, so an unfetched command is the latest with
      its identifier. */
  lemma UnfetchedLatest(s: State, k: nat)
    requires SysInv(s) && s.core.sq.fetched <= k < |s.core.sq.sent| && !s.core.failed
    ensures Latest(s.core.sq.sent, k) && s.core.sq.sent[k].cid in s.core.outTr
  {
    hide SysInv, CoreInv, Latest;
    CoreOf(s);
    OutDistinct(s.core);
    WireOf(s);
    UniqueLatest(s.core.sq.sent, s.core.sq.fetched, k, s.core.outTr);
  }

  lemma UniqueLatest(sent: seq<Command>, f: nat, k: nat, out: seq<nat>)
    requires f <= k < |sent| && NoDup(out) && multiset(Cids(sent[f..])) <= multiset(out)
    ensures Latest(sent, k) && sent[k].cid in out
  {
    var u := Cids(sent[f..]);
    assert u[k - f] == sent[k].cid;
    assert sent[k].cid in multiset(u);
    forall j | k < j < |sent| ensures sent[j].cid != sent[k].cid {
      assert u[j - f] == sent[j].cid;
      OnceOnly(u, k - f, j - f, out);
    }
  }

  lemma WireOf(s: State)
    requires SysInv(s)
    ensures s.core.sq.fetched <= |s.core.sq.sent| && s.cq.taken <= |s.cq.posted|
    ensures !s.core.failed ==> multiset(Unfetched(s)) <= multiset(s.core.outTr)
  {
    hide CoreInv;
  }

  lemma OnceOnly(u: seq<nat>, i: nat, j: nat, out: seq<nat>)
    requires i < j < |u| && NoDup(out) && multiset(u) <= multiset(out)
    ensures u[i] != u[j]
  {
    if u[i] == u[j] {
      assert u == u[..j] + [u[j]] + u[j + 1..];
      assert u[..j][i] == u[i];
      assert u[i] in multiset(u[..j]);
      assert multiset(u)[u[i]] >= 2;
      DistinctCount(out, u[i]);
    }
  }

  lemma {:induction false} DistinctCount(s: seq<nat>, x: nat)
    requires NoDup(s)
    ensures multiset(s)[x] <= 1
  {
    if s != [] {
      assert s == [s[0]] + s[1..];
      DistinctCount(s[1..], x);
      if s[0] == x {
        assert x !in s[1..];
      }
    }
  }

  /** Over every run: the numbers in the ring are the last that were put there, and
      every command the controller has still to fetch carries the acceptance
      number of the request that waits on its identifier. */
  lemma CommandsMatch(entries: nat, trackers: nat, es: seq<Event>)
    requires 0 < trackers < entries
    ensures
      var c := Reached(entries, trackers, es).core;
      && |c.sq.sent| <= |c.ring|
      && (forall k :: 0 <= k < |c.sq.sent| ==> c.sq.sent[k].seqno == c.ring[|c.ring| - |c.sq.sent| + k])
      && (!c.failed ==> forall k :: c.sq.fetched <= k < |c.sq.sent| ==>
            && c.sq.sent[k].cid in c.outTr && c.sq.sent[k].cid < |c.tr|
            && c.tr[c.sq.sent[k].cid].req.Some? && c.tr[c.sq.sent[k].cid].req.value < |c.seqno|
            && c.sq.sent[k].seqno == c.seqno[c.tr[c.sq.sent[k].cid].req.value])
  {
    var s := Reached(entries, trackers, es);
    ReachedCarry(entries, trackers, es);
    hide SysInv, Reached;
    if !s.core.failed {
      forall k | s.core.sq.fetched <= k < |s.core.sq.sent|
        ensures s.core.sq.sent[k].cid in s.core.outTr && Carries(s.core, s.core.sq.sent[k])
      {
        UnfetchedLatest(s, k);
      }
    }
  }

  lemma ReachedCarry(entries: nat, trackers: nat, es: seq<Event>)
    requires 0 < trackers < entries
    ensures SysInv(Reached(entries, trackers, es)) && Carry(Reached(entries, trackers, es).core)
  {
    InitInv(entries, trackers);
    assert Carry(Init(entries, trackers).core);
    hide SysInv, Carry, Init, Run;
    RunCarry(Init(entries, trackers), es);
  }

  /** So does the command in the slot the controller fetches next, and the
      request it belongs to is the only one waiting with that number. */
  lemma FetchedCommand(entries: nat, trackers: nat, es: seq<Event>)
    requires 0 < trackers < entries
    ensures
      var c := Reached(entries, trackers, es).core;
      HasWork(c.sq) && !c.failed ==>
        && c.sq.head < |c.sq.cmd|
        && var cmd := c.sq.cmd[c.sq.head];
           && cmd.cid < |c.tr| && c.tr[cmd.cid].req.Some? && c.tr[cmd.cid].req.value < |c.seqno| == |c.pool.hist|
           && cmd.seqno == c.seqno[c.tr[cmd.cid].req.value]
           && forall r :: 0 <= r < |c.seqno| && Waiting(c.pool.hist[r].place) && c.seqno[r] == cmd.seqno ==>
                c.tr[cmd.cid].req == Some(r)
  {
    var s := Reached(entries, trackers, es);
    if HasWork(s.core.sq) && !s.core.failed {
      CommandsMatch(entries, trackers, es);
      NextFetched(s);
      WaitingNumbers(s);
    }
  }

  lemma NextFetched(s: State)
    requires SysInv(s) && HasWork(s.core.sq)
    ensures s.core.sq.head < |s.core.sq.cmd| && s.core.sq.fetched < |s.core.sq.sent|
    ensures s.core.sq.cmd[s.core.sq.head] == s.core.sq.sent[s.core.sq.fetched]
  {
    RingSlots(s);
    SqOf(s);
    hide SysInv;
    FetchInv(s.core.sq);
  }

  lemma SqOf(s: State)
    requires SysInv(s)
    ensures SqInv(s.core.sq)
  {
  }

  lemma WaitingNumbers(s: State)
    requires SysInv(s)
    ensures Shape(s.core.pool) && |s.core.seqno| == |s.core.pool.hist|
    ensures forall x, r :: x in s.core.outTr && 0 <= r < |s.core.seqno| && Waiting(s.core.pool.hist[r].place) ==>
              && x < |s.core.tr| && s.core.tr[x].req.Some? && s.core.tr[x].req.value < |s.core.seqno|
              && (s.core.seqno[r] == s.core.seqno[s.core.tr[x].req.value] ==> s.core.tr[x].req == Some(r))
  {
    Outstanding(s.core);
  }
}
