/** The two rings a queue pair shares with the controller (sections 4.1 and 4.6
    of NVM Express 1.2).  Indices wrap at the ring size; the state also carries
    the sequences of everything ever posted, which neither side stores. */
module Rings {
  import opened Common

  /** Ring index of the k-th use of the ring. */
  function Slot(k: nat, n: nat): (i: nat)
    requires n > 0
    ensures i < n
  {
    k % n
  }

  /** Phase tag of the k-th use: 1 on the first pass, inverted on every wrap. */
  function Phase(k: nat, n: nat): bool
    requires n > 0
  {
    (k / n) % 2 == 0
  }

  /** Index increment as both sides write it: ++i, back to 0 at the end. */
  function Next(i: nat, n: nat): (j: nat)
    requires i < n
    ensures j < n
  {
    if i + 1 == n then 0 else i + 1
  }

  lemma SlotNext(k: nat, n: nat)
    requires n > 0
    ensures Slot(k + 1, n) == Next(Slot(k, n), n)
    ensures Phase(k + 1, n) == (if Slot(k, n) + 1 == n then !Phase(k, n) else Phase(k, n))
  {
    var q, i := k / n, k % n;
    assert k == q * n + i;
    if i + 1 == n {
      assert k + 1 == (q + 1) * n + 0;
      DivUnique(n, k + 1, q + 1, 0);
    } else {
      DivUnique(n, k + 1, q, i + 1);
    }
  }

  /** A multiple of n other than 0 is at least n away from 0. */
  lemma MultipleIsFar(d: int, n: nat)
    ensures d >= 1 ==> d * n >= n
    ensures d <= -1 ==> d * n + n <= 0
  {
  }

  /** Two uses less than one ring apart are in different slots. */
  lemma SlotDistinct(j: nat, k: nat, n: nat)
    requires n > 0 && j < k < j + n
    ensures Slot(j, n) != Slot(k, n)
  {
    var d := k / n - j / n;
    assert d * n == k / n * n - j / n * n;
    MultipleIsFar(d, n);
  }

  /** One full ring later: same slot, opposite phase. */
  lemma SlotWrap(k: nat, n: nat)
    requires n > 0
    ensures Slot(k + n, n) == Slot(k, n)
    ensures Phase(k + n, n) == !Phase(k, n)
  {
    var q, i := k / n, k % n;
    assert k + n == (q + 1) * n + i;
    DivUnique(n, k + n, q + 1, i);
  }

  lemma SlotFirstPass(k: nat, n: nat)
    requires k < n
    ensures Slot(k, n) == k && Phase(k, n)
  {
    DivUnique(n, k, 0, k);
  }

  // -------------------------------------------------------- submission ring

  /** cmd[], sq_tail and the tail doorbell on the driver's side, the fetch
      index on the controller's. */
  datatype SubmissionRing<C> = SubmissionRing(
    cmd: seq<C>,
    tail: nat,
    tdbl: nat,
    head: nat,       // controller: next slot to fetch
    sent: seq<C>,    // every command written since the ring was created
    fetched: nat)    // how many of them the controller has fetched

  ghost predicate SqInv<C(!new)>(s: SubmissionRing<C>) {
    var n := |s.cmd|;
    && n > 0
    && s.fetched <= |s.sent|
    && |s.sent| - s.fetched <= n - 1
    && s.tail == Slot(|s.sent|, n)
    && s.tdbl == s.tail
    && s.head == Slot(s.fetched, n)
    && (forall k :: s.fetched <= k < |s.sent| ==> s.cmd[Slot(k, n)] == s.sent[k])
  }

  function NewSq<C>(cmd: seq<C>): SubmissionRing<C> {
    SubmissionRing(cmd, 0, 0, 0, [], 0)
  }

  /** nvme_qpair_submit_tracker: copy, advance the tail, ring the doorbell. */
  function Push<C>(s: SubmissionRing<C>, c: C): SubmissionRing<C>
    requires s.tail < |s.cmd|
  {
    var t := Next(s.tail, |s.cmd|);
    s.(cmd := s.cmd[s.tail := c], tail := t, tdbl := t, sent := s.sent + [c])
  }

  /** The controller sees work exactly when its head is not the doorbell. */
  predicate HasWork<C>(s: SubmissionRing<C>) {
    s.head != s.tdbl
  }

  function Fetch<C>(s: SubmissionRing<C>): SubmissionRing<C>
    requires s.head < |s.cmd|
  {
    s.(head := Next(s.head, |s.cmd|), fetched := s.fetched + 1)
  }

  /** With room for one more, a push overwrites no command still to be fetched. */
  lemma PushInv<C(!new)>(s: SubmissionRing<C>, c: C)
    requires SqInv(s)
    requires |s.sent| - s.fetched < |s.cmd| - 1
    ensures SqInv(Push(s, c))
  {
    SlotNext(|s.sent|, |s.cmd|);
    TailFree(s);
  }

  /** The slot at sq_tail is never one still to be fetched. */
  lemma TailFree<C(!new)>(s: SubmissionRing<C>)
    requires SqInv(s)
    ensures forall k :: s.fetched <= k < |s.sent| ==> Slot(k, |s.cmd|) != s.tail
  {
    var n := |s.cmd|;
    forall k | s.fetched <= k < |s.sent| ensures Slot(k, n) != s.tail {
      SlotDistinct(k, |s.sent|, n);
    }
  }

  /** The controller fetches the commands once each, in the order written. */
  lemma FetchInv<C(!new)>(s: SubmissionRing<C>)
    requires SqInv(s)
    ensures HasWork(s) <==> s.fetched < |s.sent|
    ensures HasWork(s) ==> SqInv(Fetch(s)) && s.cmd[s.head] == s.sent[s.fetched]
  {
    var n := |s.cmd|;
    if s.fetched < |s.sent| {
      SlotDistinct(s.fetched, |s.sent|, n);
      SlotNext(s.fetched, n);
    }
  }

  // -------------------------------------------------------- completion ring

  datatype Entry<P> = Entry(body: P, phase: bool)

  datatype CompletionRing<P> = CompletionRing(
    cpl: seq<Entry<P>>,
    head: nat,         // driver: cq_head
    phase: bool,       // driver: expected phase tag
    hdbl: nat,         // head doorbell
    tail: nat,         // controller: next slot to post
    tphase: bool,      // controller: phase tag it writes
    posted: seq<P>,    // every completion posted since the ring was created
    taken: nat,        // how many the driver has consumed
    acked: nat)        // how many the head doorbell has acknowledged

  /** Slot i holds the last completion posted there, or has never been used. */
  ghost predicate SlotsInv<P(!new)>(c: CompletionRing<P>)
    requires |c.cpl| > 0
  {
    var n := |c.cpl|;
    && (forall k :: 0 <= k < |c.posted| && |c.posted| <= k + n ==>
          c.cpl[Slot(k, n)] == Entry(c.posted[k], Phase(k, n)))
    && (forall i :: |c.posted| <= i < n ==> !c.cpl[i].phase)
  }

  ghost predicate CqInv<P(!new)>(c: CompletionRing<P>) {
    var n := |c.cpl|;
    && n > 1
    && c.acked <= c.taken <= |c.posted| <= c.acked + n - 1
    && c.head == Slot(c.taken, n) && c.phase == Phase(c.taken, n)
    && c.hdbl == Slot(c.acked, n)
    && c.tail == Slot(|c.posted|, n) && c.tphase == Phase(|c.posted|, n)
    && SlotsInv(c)
  }

  /** nvme_qpair_reset on memory just cleared, with a controller just reset. */
  function NewCq<P>(cpl: seq<Entry<P>>): CompletionRing<P> {
    CompletionRing(cpl, 0, true, 0, 0, true, [], 0, 0)
  }

  lemma NewCqInv<P(!new)>(cpl: seq<Entry<P>>)
    requires |cpl| > 1 && forall i :: 0 <= i < |cpl| ==> !cpl[i].phase
    ensures CqInv(NewCq(cpl))
  {
    SlotFirstPass(0, |cpl|);
  }

  /** The controller's test for a full completion queue. */
  predicate CqFull<P>(c: CompletionRing<P>)
    requires c.tail < |c.cpl|
  {
    Next(c.tail, |c.cpl|) == c.hdbl
  }

  function Post<P>(c: CompletionRing<P>, x: P): CompletionRing<P>
    requires c.tail < |c.cpl|
  {
    c.(cpl := c.cpl[c.tail := Entry(x, c.tphase)],
       tail := Next(c.tail, |c.cpl|),
       tphase := if c.tail + 1 == |c.cpl| then !c.tphase else c.tphase,
       posted := c.posted + [x])
  }

  /** The driver's test for a new completion: the phase tag at cq_head. */
  predicate Ready<P>(c: CompletionRing<P>)
    requires c.head < |c.cpl|
  {
    c.cpl[c.head].phase == c.phase
  }

  /** cq_head and phase after one completion has been handled. */
  function Take<P>(c: CompletionRing<P>): CompletionRing<P>
    requires c.head < |c.cpl|
  {
    c.(head := Next(c.head, |c.cpl|),
       phase := if c.head + 1 == |c.cpl| then !c.phase else c.phase,
       taken := c.taken + 1)
  }

  function RingHead<P>(c: CompletionRing<P>): CompletionRing<P> {
    c.(hdbl := c.head, acked := c.taken)
  }

  lemma PostInv<P(!new)>(c: CompletionRing<P>, x: P)
    requires CqInv(c) && !CqFull(c)
    ensures CqInv(Post(c, x))
  {
    var n, t := |c.cpl|, |c.posted|;
    var c' := Post(c, x);
    SlotNext(t, n);
    SlotWrap(c.acked, n);
    assert t != c.acked + n - 1;
    forall k | 0 <= k < t + 1 && t + 1 <= k + n
      ensures c'.cpl[Slot(k, n)] == Entry(c'.posted[k], Phase(k, n))
    {
      if k < t {
        SlotDistinct(k, t, n);
      }
    }
    if t < n {
      SlotFirstPass(t, n);
    }
  }

  /** The phase tag tells new from stale over any number of wraps: the slot at
      cq_head is taken for new exactly when a posted completion is waiting, and
      it then holds the oldest one. */
  lemma ReadyExact<P(!new)>(c: CompletionRing<P>)
    requires CqInv(c)
    ensures Ready(c) <==> c.taken < |c.posted|
    ensures Ready(c) ==> c.cpl[c.head].body == c.posted[c.taken]
  {
    var n, h := |c.cpl|, c.taken;
    if h == |c.posted| {
      if h >= n {
        SlotWrap(h - n, n);
        assert c.cpl[Slot(h - n, n)] == Entry(c.posted[h - n], Phase(h - n, n));
      } else {
        SlotFirstPass(h, n);
      }
    } else {
      assert c.cpl[Slot(h, n)] == Entry(c.posted[h], Phase(h, n));
    }
  }

  lemma TakeInv<P(!new)>(c: CompletionRing<P>)
    requires CqInv(c) && Ready(c)
    ensures CqInv(Take(c))
  {
    ReadyExact(c);
    SlotNext(c.taken, |c.cpl|);
  }

  lemma RingHeadInv<P(!new)>(c: CompletionRing<P>)
    requires CqInv(c)
    ensures CqInv(RingHead(c))
    ensures c.taken - c.acked <= |c.cpl| - 1
  {
  }
}
