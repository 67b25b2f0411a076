/** The request pool and the parent/child bookkeeping of lib/nvme/nvme_request.c.

    A request descriptor is identified by its index in the pool.  Next to the
    fields of the C structure the state carries a history (`Trace`, `slot`,
    `ended`) that the driver does not store: where each descriptor is, which
    lifetime of it this is, and how every finished lifetime ended. */
module Requests {
  import opened Common
  import opened Lists

  /** Completion status: status code type, status code, do-not-retry bit. */
  datatype Status = Status(sct: nat, sc: nat, dnr: bool)

  const SUCCESS := Status(0, 0, false)
  const MAX_CHILDREN: nat := 255
  const MAX_HEIGHT: nat := 2

  /** nvme_cpl_is_error */
  predicate IsError(st: Status) {
    st.sc != 0 || st.sct != 0
  }

  /** What cb_fn/cb_arg of a request stand for: the caller's callback, or
      nvme_request_cb_complete_child on behalf of a split parent. */
  datatype Callback = ToCaller | ToParent(parent: nat)

  /** `accept` says whether the data-pointer builder will accept the payload. */
  datatype Request = Request(
    cb: Callback,
    accept: bool,
    retries: nat,
    cid: nat,
    children: seq<nat>,
    childReqs: nat,
    parentStatus: Status)

  datatype Place =
    | Free               // on free_req
    | Held               // in the hands of a caller or of the submission path
    | Queued             // on queued_req
    | Tracked(cid: nat)  // owned by an outstanding tracker
    | Awaiting           // split parent waiting for its children
    | Ending             // its callback is running

  datatype Trace = Trace(
    place: Place,
    tag: nat,            // lifetime number, unique over all allocations
    kids: seq<Status>,   // statuses of the children that finished, in order
    nkids: nat,          // children ever added in this lifetime
    height: nat)         // longest chain of children below this request

  datatype Outcome =
    | Called(status: Status, kids: seq<Status>, nkids: nat)
    | Refused

  datatype Ended = Ended(tag: nat, outcome: Outcome)

  datatype Pool = Pool(
    reqs: seq<Request>,
    free: seq<nat>,
    hist: seq<Trace>,
    slot: seq<nat>,      // slot[t] is the descriptor of lifetime t
    owner: seq<Option<nat>>, // the parent lifetime that lifetime t was attached to
    ended: seq<Ended>)

  /** Status a split parent reports: that of the last child to fail. */
  function LastError(kids: seq<Status>): (st: Status)
    ensures IsError(st) <==> exists i :: 0 <= i < |kids| && IsError(kids[i])
    ensures !IsError(st) ==> st == SUCCESS
  {
    if kids == [] then SUCCESS
    else if IsError(kids[|kids| - 1]) then kids[|kids| - 1]
    else LastError(kids[..|kids| - 1])
  }

  // ---------------------------------------------------------------- invariant

  ghost predicate Shape(p: Pool) {
    |p.hist| == |p.reqs|
  }

  ghost predicate FreeInv(p: Pool)
    requires Shape(p)
  {
    && NoDup(p.free)
    && (forall i :: 0 <= i < |p.free| ==> p.free[i] < |p.reqs|)
    && (forall r :: 0 <= r < |p.reqs| ==> (r in p.free <==> p.hist[r].place == Free))
  }

  /** The descriptor is part of some request tree. */
  predicate InTree(pl: Place) {
    !pl.Free? && !pl.Ending?
  }

  /** The driver, not the caller, decides when this descriptor finishes. */
  predicate Submitted(pl: Place) {
    pl.Queued? || pl.Tracked? || pl.Awaiting?
  }

  ghost predicate ChildLink(p: Pool, r: nat, k: nat)
    requires Shape(p) && r < |p.reqs|
  {
    && k < |p.reqs|
    && InTree(p.hist[k].place)
    && p.reqs[k].cb == ToParent(r)
    && p.hist[k].height < p.hist[r].height
  }

  ghost predicate TreeAt(p: Pool, r: nat)
    requires Shape(p) && r < |p.reqs|
  {
    var q, h := p.reqs[r], p.hist[r];
    && q.childReqs == |q.children| <= MAX_CHILDREN
    && (!InTree(h.place) ==> q.children == [])
    && (InTree(h.place) ==>
      && NoDup(q.children)
      && h.height <= MAX_HEIGHT
      && (forall k :: k in q.children ==> ChildLink(p, r, k))
      && (q.cb.ToParent? ==>
        && q.cb.parent < |p.reqs|
        && InTree(p.hist[q.cb.parent].place)
        && r in p.reqs[q.cb.parent].children
        && (Submitted(h.place) ==> p.hist[q.cb.parent].place == Awaiting))
      && (q.children != [] ==> h.place == Held || h.place == Awaiting)
      && (h.place == Awaiting ==> q.children != [])
      && (h.place.Queued? || h.place.Tracked? ==> h.nkids == 0)
      && |h.kids| + |q.children| == h.nkids
      && (h.nkids != 0 ==> q.parentStatus == LastError(h.kids)))
  }

  ghost predicate TreeInv(p: Pool)
    requires Shape(p)
  {
    forall r :: 0 <= r < |p.reqs| ==> TreeAt(p, r)
  }

  ghost predicate HasEnded(p: Pool, t: nat) {
    exists i :: 0 <= i < |p.ended| && p.ended[i].tag == t
  }

  ghost predicate TagInv(p: Pool)
    requires Shape(p)
  {
    && (forall r :: 0 <= r < |p.reqs| && InTree(p.hist[r].place) ==>
      && p.hist[r].tag < |p.slot|
      && p.slot[p.hist[r].tag] == r
      && !HasEnded(p, p.hist[r].tag))
    && (forall t :: 0 <= t < |p.slot| ==>
      && p.slot[t] < |p.reqs|
      && (!HasEnded(p, t) ==> InTree(p.hist[p.slot[t]].place) && p.hist[p.slot[t]].tag == t))
    && (forall i :: 0 <= i < |p.ended| ==> p.ended[i].tag < |p.slot|)
    && (forall i, j :: 0 <= i < j < |p.ended| ==> p.ended[i].tag != p.ended[j].tag)
  }

  /** A parent is answered when all its children are, with the right status. */
  ghost predicate Recombined(e: Ended) {
    e.outcome.Called? && e.outcome.nkids != 0 ==>
      && |e.outcome.kids| == e.outcome.nkids
      && e.outcome.status == LastError(e.outcome.kids)
  }

  ghost predicate EndedInv(p: Pool) {
    forall i :: 0 <= i < |p.ended| ==> Recombined(p.ended[i])
  }

  /** Statuses with which the lifetimes attached to lifetime t were called back,
      in the order of the log. */
  function KidStatuses(log: seq<Ended>, owner: seq<Option<nat>>, t: nat): seq<Status> {
    if log == [] then []
    else
      var n := |log| - 1;
      KidStatuses(log[..n], owner, t)
      + (if IsKid(log[n], owner, t) then [log[n].outcome.status] else [])
  }

  predicate IsKid(e: Ended, owner: seq<Option<nat>>, t: nat) {
    e.outcome.Called? && e.tag < |owner| && owner[e.tag] == Some(t)
  }

  /** A request in use: its parent is the one on record, and the statuses it has
      collected are those its children were called back with. */
  ghost predicate Attached(p: Pool, r: nat)
    requires Shape(p) && r < |p.reqs|
  {
    var q, h := p.reqs[r], p.hist[r];
    InTree(h.place) ==>
      && h.tag < |p.owner|
      && p.owner[h.tag] == (if q.cb.ToCaller? then None
                            else if q.cb.parent < |p.hist| then Some(p.hist[q.cb.parent].tag) else Some(h.tag))
      && h.kids == KidStatuses(p.ended, p.owner, h.tag)
  }

  /** A request that was called back: its children were before it, with the
      statuses it reports, and no lifetime was attached to a refused request's. */
  ghost predicate Logged(p: Pool, i: nat)
    requires i < |p.ended|
  {
    var e := p.ended[i];
    && (e.outcome.Called? ==>
          && e.outcome.kids == KidStatuses(p.ended[..i], p.owner, e.tag)
          && forall j :: i <= j < |p.ended| ==> !IsKid(p.ended[j], p.owner, e.tag))
    && (e.outcome.Refused? ==> e.tag < |p.owner| && p.owner[e.tag] == None)
  }

  ghost predicate LogInv(p: Pool)
    requires Shape(p)
  {
    && |p.owner| == |p.slot|
    && (forall t: nat :: t < |p.owner| && p.owner[t].Some? ==> p.owner[t].value < |p.slot|)
    && (forall r: nat :: r < |p.reqs| ==> Attached(p, r))
    && (forall i: nat :: i < |p.ended| ==> Logged(p, i))
  }

  ghost predicate PoolInv(p: Pool) {
    Shape(p) && FreeInv(p) && TreeInv(p) && TagInv(p) && EndedInv(p) && LogInv(p)
  }

  // --------------------------------------------------------------- operations

  function SetPlace(p: Pool, r: nat, pl: Place): (q: Pool)
    requires Shape(p) && r < |p.reqs|
  {
    p.(hist := p.hist[r := p.hist[r].(place := pl)])
  }

  /** nvme_request_pool_construct */
  function NewPool(n: nat): (p: Pool) {
    Pool(seq(n, i => Request(ToCaller, false, 0, 0, [], 0, SUCCESS)),
         seq(n, i => i),
         seq(n, i => Trace(Free, 0, [], 0, 0)),
         [],
         [],
         [])
  }

  /** nvme_alloc_request and nvme_request_allocate: the fields before
      `children` are cleared, the others are left as they were. */
  function Allocate(p: Pool, accept: bool): (q: Pool)
    requires Shape(p) && p.free != [] && p.free[0] < |p.reqs|
  {
    var r := p.free[0];
    p.(reqs := p.reqs[r := p.reqs[r].(cb := ToCaller, accept := accept, retries := 0, cid := 0, childReqs := 0)],
       free := p.free[1..],
       hist := p.hist[r := Trace(Held, |p.slot|, [], 0, 0)],
       slot := p.slot + [r],
       owner := p.owner + [None])
  }

  /** The parent's side of nvme_request_add_child; child_reqs is an 8-bit counter. */
  function WithChild(parent: Request, k: nat): (q: Request) {
    var parent0 := if parent.childReqs == 0
                   then parent.(children := [], parentStatus := SUCCESS) else parent;
    parent0.(childReqs := (parent0.childReqs + 1) % 256, children := parent0.children + [k])
  }

  /** nvme_request_add_child */
  function AddChild(p: Pool, q: nat, k: nat): (p': Pool)
    requires Shape(p) && q < |p.reqs| && k < |p.reqs| && q != k
  {
    p.(reqs := p.reqs[q := WithChild(p.reqs[q], k)][k := p.reqs[k].(cb := ToParent(q))],
       hist := p.hist[q := p.hist[q].(nkids := p.hist[q].nkids + 1,
                                      height := Max(p.hist[q].height, p.hist[k].height + 1))],
       owner := if p.hist[k].tag < |p.owner| then p.owner[p.hist[k].tag := Some(p.hist[q].tag)] else p.owner)
  }

  /** nvme_request_free */
  function FreeSlot(p: Pool, r: nat): (q: Pool)
    requires Shape(p) && r < |p.reqs|
  {
    SetPlace(p, r, Free).(free := [r] + p.free)
  }

  /** Run the callback of `r` with status `st`, up to the point where a parent
      left without children would be answered in turn: log it and, for a
      child, nvme_request_remove_child and the parent_status update. */
  function Answer(p: Pool, r: nat, st: Status): (q: Pool)
    requires Shape(p) && r < |p.reqs|
    requires p.reqs[r].cb.ToParent? ==> p.reqs[r].cb.parent < |p.reqs|
    requires p.reqs[r].cb.ToParent? ==> p.reqs[p.reqs[r].cb.parent].childReqs > 0
    ensures Shape(q) && |q.reqs| == |p.reqs|
  {
    var h := p.hist[r];
    var p1 := SetPlace(p, r, Ending).(ended := p.ended + [Ended(h.tag, Called(st, h.kids, h.nkids))]);
    match p.reqs[r].cb
    case ToCaller => p1
    case ToParent(q) =>
      var parent := p1.reqs[q];
      var parent' := parent.(childReqs := parent.childReqs - 1,
                             children := Remove(parent.children, r),
                             parentStatus := if IsError(st) then st else parent.parentStatus);
      var place' := if parent'.childReqs == 0 then Held else p1.hist[q].place;
      p1.(reqs := p1.reqs[q := parent'],
          hist := p1.hist[q := p1.hist[q].(kids := p1.hist[q].kids + [st], place := place')])
  }

  /** `r` can be answered with `st`: it has no children left and, if it had
      any, `st` is the status collected from them. */
  ghost predicate CanFinish(p: Pool, r: nat, st: Status) {
    && PoolInv(p)
    && r < |p.reqs|
    && TreeAt(p, r)
    && InTree(p.hist[r].place)
    && p.reqs[r].children == []
    && (p.hist[r].nkids != 0 ==> st == p.reqs[r].parentStatus)
    && (p.reqs[r].cb.ToParent? ==>
      && TreeAt(p, p.reqs[r].cb.parent)
      && p.hist[p.reqs[r].cb.parent].place == Awaiting)
  }

  /** Call back and free a request: cb_fn(cb_arg, cpl) followed by
      nvme_request_free, with the recursion of nvme_request_cb_complete_child
      into parents whose last child this was. */
  ghost function Finish(p: Pool, r: nat, st: Status): (q: Pool)
    requires CanFinish(p, r, st)
    ensures Shape(q) && |q.reqs| == |p.reqs|
    decreases MAX_HEIGHT - p.hist[r].height
  {
    var p1 := Answer(p, r, st);
    if p.reqs[r].cb.ToParent? && p1.reqs[p.reqs[r].cb.parent].childReqs == 0 then
      AnswerInv(p, r, st);
      FreeSlot(Finish(p1, p.reqs[r].cb.parent, p1.reqs[p.reqs[r].cb.parent].parentStatus), r)
    else
      FreeSlot(p1, r)
  }

  // ------------------------------------------------------------------- proofs

  /** It is that of the last child that failed. */
  lemma {:induction false} LastErrorExact(kids: seq<Status>)
    ensures
      var st := LastError(kids);
      st.sct != 0 || st.sc != 0 ==>
        exists k :: 0 <= k < |kids| && kids[k] == st && forall j :: k < j < |kids| ==> kids[j].sct == 0 && kids[j].sc == 0
  {
    if kids != [] && !IsError(kids[|kids| - 1]) {
      var n := |kids| - 1;
      LastErrorExact(kids[..n]);
      var st := LastError(kids);
      if IsError(st) {
        var k :| 0 <= k < n && kids[..n][k] == st && forall j :: k < j < n ==> kids[..n][j].sct == 0 && kids[..n][j].sc == 0;
        assert kids[k] == st;
        forall j | k < j < |kids| ensures kids[j].sct == 0 && kids[j].sc == 0 {
          if j < n {
            assert kids[j] == kids[..n][j];
          }
        }
      }
    }
  }

  lemma LastErrorSnoc(kids: seq<Status>, st: Status)
    ensures LastError(kids + [st]) == if IsError(st) then st else LastError(kids)
  {
    assert (kids + [st])[..|kids|] == kids;
  }

  lemma AnswerTreeOther(p: Pool, r: nat, st: Status, x: nat)
    requires CanFinish(p, r, st)
    requires x < |p.reqs| && x != r
    requires p.reqs[r].cb.ToParent? ==> x != p.reqs[r].cb.parent
    ensures TreeAt(Answer(p, r, st), x)
  {
    var p1 := Answer(p, r, st);
    assert TreeAt(p, x);
    assert r !in p.reqs[x].children;
    if p.reqs[r].cb.ToParent? {
      RemoveMembers(p.reqs[p.reqs[r].cb.parent].children, r);
    }
    forall k | k in p.reqs[x].children ensures ChildLink(p1, x, k) {
      assert ChildLink(p, x, k);
    }
    if InTree(p.hist[x].place) && p.reqs[x].cb.ToParent? {
      assert p.reqs[x].cb.parent != r;
    }
  }

  lemma AnswerTreeParent(p: Pool, r: nat, st: Status)
    requires CanFinish(p, r, st)
    requires p.reqs[r].cb.ToParent?
    ensures TreeAt(Answer(p, r, st), p.reqs[r].cb.parent)
  {
    var p1, q := Answer(p, r, st), p.reqs[r].cb.parent;
    RemoveMembers(p.reqs[q].children, r);
    LastErrorSnoc(p.hist[q].kids, st);
    assert q != r;
    forall k | k in p1.reqs[q].children ensures ChildLink(p1, q, k) {
      assert ChildLink(p, q, k);
    }
    if p.reqs[q].cb.ToParent? {
      assert p.reqs[q].cb.parent != r;
      assert ChildLink(p, p.reqs[q].cb.parent, q) by {
        assert TreeAt(p, p.reqs[q].cb.parent);
      }
    }
  }

  lemma AnswerTree(p: Pool, r: nat, st: Status)
    requires CanFinish(p, r, st)
    ensures TreeInv(Answer(p, r, st))
  {
    var p1 := Answer(p, r, st);
    forall x | 0 <= x < |p.reqs| ensures TreeAt(p1, x) {
      if x != r {
        if p.reqs[r].cb.ToParent? && x == p.reqs[r].cb.parent {
          AnswerTreeParent(p, r, st);
        } else {
          AnswerTreeOther(p, r, st, x);
        }
      }
    }
  }

  /** Logging the end of `r`'s lifetime keeps the lifetimes accounted for. */
  lemma EndTags(p: Pool, p1: Pool, r: nat, e: Ended)
    requires Shape(p) && Shape(p1) && |p1.reqs| == |p.reqs| && r < |p.reqs|
    requires TagInv(p) && InTree(p.hist[r].place)
    requires p1.slot == p.slot && p1.ended == p.ended + [e] && e.tag == p.hist[r].tag
    requires !InTree(p1.hist[r].place)
    requires forall x :: 0 <= x < |p.reqs| && x != r ==>
               p1.hist[x].tag == p.hist[x].tag && InTree(p1.hist[x].place) == InTree(p.hist[x].place)
    ensures TagInv(p1)
  {
    var n := |p.ended|;
    assert p1.ended[n] == e && p1.ended[..n] == p.ended;
    forall u: nat ensures HasEnded(p1, u) <==> HasEnded(p, u) || u == e.tag {
      if HasEnded(p, u) {
        var i :| 0 <= i < n && p.ended[i].tag == u;
        assert p1.ended[i].tag == u;
      }
    }
    forall i, j | 0 <= i < j < |p1.ended| ensures p1.ended[i].tag != p1.ended[j].tag {
      if j == n {
        assert p.ended[i].tag != e.tag;
      }
    }
  }

  // --------------------------------------------------------- the log of callbacks

  /** Whom an entry belongs to depends on the owner of its lifetime only. */
  lemma {:induction false} KidsFrame(log: seq<Ended>, owner: seq<Option<nat>>, owner': seq<Option<nat>>, t: nat)
    requires forall i :: 0 <= i < |log| ==> (IsKid(log[i], owner, t) <==> IsKid(log[i], owner', t))
    ensures KidStatuses(log, owner, t) == KidStatuses(log, owner', t)
  {
    hide IsKid;
    if log != [] {
      KidsFrame(log[..|log| - 1], owner, owner', t);
    }
  }

  lemma KidsSnoc(log: seq<Ended>, e: Ended, owner: seq<Option<nat>>, t: nat)
    ensures KidStatuses(log + [e], owner, t)
         == KidStatuses(log, owner, t) + (if IsKid(e, owner, t) then [e.outcome.status] else [])
  {
    assert (log + [e])[..|log|] == log;
  }

  lemma {:induction false} NoKids(log: seq<Ended>, owner: seq<Option<nat>>, t: nat)
    requires forall i :: 0 <= i < |log| ==> !IsKid(log[i], owner, t)
    ensures KidStatuses(log, owner, t) == []
  {
    hide IsKid;
    if log != [] {
      NoKids(log[..|log| - 1], owner, t);
    }
  }

  /** Steps that log nothing and keep parents, lifetimes and collected statuses. */
  lemma LogFrame(p: Pool, q: Pool)
    requires Shape(p) && Shape(q) && |q.reqs| == |p.reqs| && LogInv(p)
    requires q.ended == p.ended && q.owner == p.owner && q.slot == p.slot
    requires forall x :: 0 <= x < |p.reqs| ==>
               && q.hist[x].tag == p.hist[x].tag && q.hist[x].kids == p.hist[x].kids && q.reqs[x].cb == p.reqs[x].cb
               && (InTree(q.hist[x].place) ==> InTree(p.hist[x].place))
    ensures LogInv(q)
  {
    hide KidStatuses, IsKid;
    forall r: nat | r < |q.reqs| ensures Attached(q, r) {
      assert Attached(p, r);
    }
    forall i: nat | i < |q.ended| ensures Logged(q, i) {
      assert Logged(p, i);
    }
  }

  /** One more entry, for a lifetime that is nobody's owner from then on. */
  lemma EntryLogged(p: Pool, p1: Pool, e: Ended)
    requires LogInvPre(p, p1, e)
    requires forall i :: 0 <= i < |p.ended| ==> !IsKid(e, p.owner, p.ended[i].tag)
    requires e.outcome.Called? ==> e.outcome.kids == KidStatuses(p.ended, p.owner, e.tag) && !IsKid(e, p.owner, e.tag)
    requires e.outcome.Refused? ==> e.tag < |p.owner| && p.owner[e.tag] == None
    ensures forall i: nat :: i < |p1.ended| ==> Logged(p1, i)
  {
    hide KidStatuses, IsKid;
    var n := |p.ended|;
    forall i: nat | i < |p1.ended| ensures Logged(p1, i) {
      if i < n {
        assert Logged(p, i);
        assert p1.ended[..i] == p.ended[..i] && p1.ended[i] == p.ended[i];
      } else {
        assert p1.ended[..i] == p.ended;
      }
    }
  }

  ghost predicate LogInvPre(p: Pool, p1: Pool, e: Ended) {
    Shape(p) && LogInv(p) && p1.owner == p.owner && p1.slot == p.slot && p1.ended == p.ended + [e]
  }

  /** A request and its parent, on record. */
  lemma OwnerOf(p: Pool, r: nat)
    requires Shape(p) && LogInv(p) && TagInv(p) && r < |p.reqs| && InTree(p.hist[r].place) && TreeAt(p, r)
    ensures p.hist[r].tag < |p.owner|
    ensures p.reqs[r].cb.ToCaller? ==> p.owner[p.hist[r].tag] == None
    ensures p.reqs[r].cb.ToParent? ==> p.owner[p.hist[r].tag] == Some(p.hist[p.reqs[r].cb.parent].tag)
    ensures forall x :: 0 <= x < |p.reqs| && InTree(p.hist[x].place) && p.owner[p.hist[r].tag] == Some(p.hist[x].tag) ==>
              p.reqs[r].cb == ToParent(x)
    ensures forall i :: 0 <= i < |p.ended| ==> p.owner[p.hist[r].tag] != Some(p.ended[i].tag)
  {
    hide KidStatuses;
    assert Attached(p, r);
    if p.reqs[r].cb.ToParent? {
      var q := p.reqs[r].cb.parent;
      assert !HasEnded(p, p.hist[q].tag);
    }
  }

  lemma AnswerLog(p: Pool, r: nat, st: Status)
    requires CanFinish(p, r, st)
    ensures LogInv(Answer(p, r, st))
  {
    var p1, h := Answer(p, r, st), p.hist[r];
    var e := p1.ended[|p.ended|];
    assert e == Ended(h.tag, Called(st, h.kids, h.nkids)) && p1.ended == p.ended + [e];
    OwnerOf(p, r);
    assert Attached(p, r);
    hide KidStatuses, TreeInv, FreeInv, EndedInv, CanFinish;
    EntryLogged(p, p1, e);
    forall x: nat | x < |p1.reqs| ensures Attached(p1, x) {
      AnswerAttached(p, r, st, e, x);
    }
  }

  lemma AnswerAttached(p: Pool, r: nat, st: Status, e: Ended, x: nat)
    requires CanFinish(p, r, st) && x < |p.reqs|
    requires e == Ended(p.hist[r].tag, Called(st, p.hist[r].kids, p.hist[r].nkids))
    requires Answer(p, r, st).ended == p.ended + [e]
    ensures Attached(Answer(p, r, st), x)
  {
    var p1 := Answer(p, r, st);
    assert TreeAt(p, r) && TreeAt(p, x);
    OwnerOf(p, r);
    assert Attached(p, x);
    hide KidStatuses, TreeInv, FreeInv, EndedInv;
    KidsSnoc(p.ended, e, p.owner, p.hist[x].tag);
    if InTree(p1.hist[x].place) && p.reqs[r].cb.ToParent? {
      assert p.hist[x].tag == p.hist[p.reqs[r].cb.parent].tag <==> x == p.reqs[r].cb.parent;
    }
  }

  lemma AnswerInv(p: Pool, r: nat, st: Status)
    requires CanFinish(p, r, st)
    ensures PoolInv(Answer(p, r, st))
    ensures
      var q := p.reqs[r].cb;
      q.ToParent? && Answer(p, r, st).reqs[q.parent].childReqs == 0 ==>
        && CanFinish(Answer(p, r, st), q.parent, Answer(p, r, st).reqs[q.parent].parentStatus)
        && Answer(p, r, st).hist[q.parent].height > p.hist[r].height
  {
    assert TreeAt(p, r);
    if p.reqs[r].cb.ToParent? {
      assert TreeAt(p, p.reqs[r].cb.parent);
    }
    AnswerTree(p, r, st);
    AnswerLog(p, r, st);
    EndTags(p, Answer(p, r, st), r, Ended(p.hist[r].tag, Called(st, p.hist[r].kids, p.hist[r].nkids)));
    if p.reqs[r].cb.ToParent? {
      assert TreeAt(Answer(p, r, st), p.reqs[r].cb.parent);
    }
  }

  lemma FreeSlotInv(p: Pool, r: nat)
    requires PoolInv(p) && r < |p.reqs| && p.hist[r].place == Ending
    ensures PoolInv(FreeSlot(p, r))
  {
    var q := FreeSlot(p, r);
    LogFrame(p, q);
    hide LogInv;
    NoDupPrepend(r, p.free);
    forall x | 0 <= x < |p.reqs| ensures TreeAt(q, x) {
      assert TreeAt(p, x);
      forall k | k in p.reqs[x].children && InTree(p.hist[x].place) ensures ChildLink(q, x, k) {
        assert ChildLink(p, x, k);
      }
    }
    assert forall t: nat :: HasEnded(p, t) <==> HasEnded(q, t);
  }

  /** Every lifetime logged from position n on ended with a callback, and when
      `st` is an error it was called back with that very status. */
  ghost predicate CalledSince(n: nat, log: seq<Ended>, st: Status) {
    forall i :: n <= i < |log| ==> log[i].outcome.Called? && (IsError(st) ==> log[i].outcome.status == st)
  }

  /** What Finish changes: `r` becomes free, and besides it only parents that
      were waiting may be answered and freed, after `r` and with its status if
      that is an error. */
  ghost predicate FinishEffect(p: Pool, q: Pool, r: nat, st: Status)
    requires Shape(p) && Shape(q) && r < |p.reqs| == |q.reqs|
  {
    && q.slot == p.slot
    && q.hist[r].place == Free
    && (forall x :: 0 <= x < |p.reqs| && x != r && p.hist[x].place != Awaiting ==>
          q.hist[x] == p.hist[x] && q.reqs[x] == p.reqs[x])
    && (forall x :: 0 <= x < |p.reqs| && p.hist[x].place == Awaiting ==>
          q.hist[x].place == Awaiting || q.hist[x].place == Free)
    && (forall x :: 0 <= x < |p.reqs| ==>
          && q.reqs[x].cb == p.reqs[x].cb
          && q.reqs[x].accept == p.reqs[x].accept
          && q.reqs[x].retries == p.reqs[x].retries
          && q.hist[x].nkids == p.hist[x].nkids
          && q.hist[x].height == p.hist[x].height)
    && |p.ended| < |q.ended|
    && q.ended[..|p.ended|] == p.ended
    && q.ended[|p.ended|] == Ended(p.hist[r].tag, Called(st, p.hist[r].kids, p.hist[r].nkids))
    && CalledSince(|p.ended|, q.ended, st)
  }

  lemma {:induction false} FinishInv(p: Pool, r: nat, st: Status)
    requires CanFinish(p, r, st)
    ensures PoolInv(Finish(p, r, st))
    ensures FinishEffect(p, Finish(p, r, st), r, st)
    decreases MAX_HEIGHT - p.hist[r].height
  {
    var p1 := Answer(p, r, st);
    AnswerInv(p, r, st);
    if p.reqs[r].cb.ToParent? && p1.reqs[p.reqs[r].cb.parent].childReqs == 0 {
      var q := p.reqs[r].cb.parent;
      var p2 := Finish(p1, q, p1.reqs[q].parentStatus);
      FinishInv(p1, q, p1.reqs[q].parentStatus);
      FinishChain(p, r, st, p2);
      assert p2.hist[r] == p1.hist[r];
      FreeSlotInv(p2, r);
    } else {
      FreeSlotInv(p1, r);
      FinishLast(p, r, st);
    }
  }

  lemma FinishLast(p: Pool, r: nat, st: Status)
    requires CanFinish(p, r, st)
    requires p.reqs[r].cb.ToParent? ==> Answer(p, r, st).reqs[p.reqs[r].cb.parent].childReqs != 0
    ensures FinishEffect(p, FreeSlot(Answer(p, r, st), r), r, st)
  {
  }

  /** Effects compose when the answer to `r` empties its parent. */
  lemma FinishChain(p: Pool, r: nat, st: Status, p2: Pool)
    requires CanFinish(p, r, st)
    requires p.reqs[r].cb.ToParent?
    requires Shape(p2) && |p2.reqs| == |p.reqs|
    requires
      var q, p1 := p.reqs[r].cb.parent, Answer(p, r, st);
      p1.reqs[q].childReqs == 0 && FinishEffect(p1, p2, q, p1.reqs[q].parentStatus)
    ensures FinishEffect(p, FreeSlot(p2, r), r, st)
  {
    var p1, q := Answer(p, r, st), p.reqs[r].cb.parent;
    var p3 := FreeSlot(p2, r);
    assert p1.ended == p.ended + [p1.ended[|p.ended|]];
    assert p3.ended[..|p.ended|] == p2.ended[..|p1.ended|][..|p.ended|] == p.ended;
    assert p3.ended[|p.ended|] == p2.ended[..|p1.ended|][|p.ended|] == p1.ended[|p.ended|];
    assert IsError(st) ==> p1.reqs[q].parentStatus == st;
    forall i | |p.ended| <= i < |p3.ended|
      ensures p3.ended[i].outcome.Called? && (IsError(st) ==> p3.ended[i].outcome.status == st)
    {
      assert i == |p.ended| || i >= |p1.ended|;
    }
    forall x | 0 <= x < |p.reqs| && x != r && p.hist[x].place != Awaiting
      ensures p3.hist[x] == p.hist[x] && p3.reqs[x] == p.reqs[x]
    {
      assert x != q;
      assert p1.hist[x] == p.hist[x];
    }
    forall x | 0 <= x < |p.reqs| && p.hist[x].place == Awaiting
      ensures p3.hist[x].place == Awaiting || p3.hist[x].place == Free
    {
      if x != q {
        assert p1.hist[x] == p.hist[x];
      }
    }
  }

  /** When the answered request was the last child, its parent is answered
      right after it, with the status of the last child that failed; as long as
      other children remain, nothing but `r` is answered and the parent waits. */
  lemma ParentAnsweredAfterLastChild(p: Pool, r: nat, st: Status)
    requires CanFinish(p, r, st) && p.reqs[r].cb.ToParent?
    ensures
      var q, p' := p.reqs[r].cb.parent, Finish(p, r, st);
      if p.reqs[q].children == [r] then
        && |p'.ended| >= |p.ended| + 2
        && p'.ended[|p.ended| + 1]
           == Ended(p.hist[q].tag, Called(LastError(p.hist[q].kids + [st]), p.hist[q].kids + [st], p.hist[q].nkids))
        && p'.hist[q].place == Free
      else
        && |p'.ended| == |p.ended| + 1
        && p'.hist[q].place == Awaiting
        && p'.reqs[q].children == Remove(p.reqs[q].children, r)
  {
    var q := p.reqs[r].cb.parent;
    LastChildLeft(p, r, st);
    if p.reqs[q].children == [r] {
      LastChildAnswered(p, r, st);
    }
  }

  /** The parent's counter reaches 0 with its last child. */
  lemma LastChildLeft(p: Pool, r: nat, st: Status)
    requires CanFinish(p, r, st) && p.reqs[r].cb.ToParent?
    ensures
      var q := p.reqs[r].cb.parent;
      && q < |p.reqs| && q != r
      && p.hist[q].place == Awaiting
      && (Answer(p, r, st).reqs[q].childReqs == 0 <==> p.reqs[q].children == [r])
  {
    var q := p.reqs[r].cb.parent;
    assert TreeAt(p, r) && TreeAt(p, q);
    RemoveMembers(p.reqs[q].children, r);
  }

  lemma LastChildAnswered(p: Pool, r: nat, st: Status)
    requires CanFinish(p, r, st) && p.reqs[r].cb.ToParent?
    requires p.reqs[r].cb.parent < |p.reqs| && p.reqs[p.reqs[r].cb.parent].children == [r]
    ensures
      var q, p' := p.reqs[r].cb.parent, Finish(p, r, st);
      && |p'.ended| >= |p.ended| + 2
      && p'.ended[|p.ended| + 1]
         == Ended(p.hist[q].tag, Called(LastError(p.hist[q].kids + [st]), p.hist[q].kids + [st], p.hist[q].nkids))
      && p'.hist[q].place == Free
  {
    hide TreeInv, TagInv, EndedInv, LogInv, FreeInv;
    var q, p1 := p.reqs[r].cb.parent, Answer(p, r, st);
    LastChildLeft(p, r, st);
    AnswerInv(p, r, st);
    LastErrorSnoc(p.hist[q].kids, st);
    FinishInv(p1, q, p1.reqs[q].parentStatus);
    var p2 := Finish(p1, q, p1.reqs[q].parentStatus);
    assert p2.ended[|p1.ended|] == Ended(p.hist[q].tag, Called(p1.reqs[q].parentStatus, p1.hist[q].kids, p.hist[q].nkids));
  }

  lemma NewPoolInv(n: nat)
    ensures PoolInv(NewPool(n))
  {
    var p := NewPool(n);
    forall r | 0 <= r < n ensures r in p.free {
      assert p.free[r] == r;
    }
    forall x | 0 <= x < n ensures TreeAt(p, x) {
    }
  }

  lemma AllocateLog(p: Pool, accept: bool)
    requires PoolInv(p) && p.free != []
    ensures LogInv(Allocate(p, accept))
  {
    var q, r, n := Allocate(p, accept), p.free[0], |p.slot|;
    hide KidStatuses, EndedInv;
    forall x: nat | x < |q.reqs| ensures Attached(q, x) {
      assert TreeAt(p, x) && Attached(p, x);
      KidsFrame(p.ended, p.owner, q.owner, p.hist[x].tag);
      NoKids(p.ended, q.owner, n);
    }
    hide Attached, TreeInv, FreeInv;
    forall i: nat | i < |q.ended| ensures Logged(q, i) {
      assert Logged(p, i);
      KidsFrame(p.ended[..i], p.owner, q.owner, p.ended[i].tag);
    }
  }

  lemma AllocateInv(p: Pool, accept: bool)
    requires PoolInv(p) && p.free != []
    ensures PoolInv(Allocate(p, accept))
  {
    var q, r := Allocate(p, accept), p.free[0];
    AllocateLog(p, accept);
    hide LogInv;
    NoDupTail(p.free);
    forall x | 0 <= x < |p.reqs| ensures TreeAt(q, x) {
      assert TreeAt(p, x);
      forall k | k in p.reqs[x].children && InTree(p.hist[x].place) ensures ChildLink(q, x, k) {
        assert ChildLink(p, x, k);
      }
    }
    assert forall t: nat :: HasEnded(p, t) <==> HasEnded(q, t);
    assert !HasEnded(p, |p.slot|);
  }

  /** A request that may become, or take, a child: not submitted, not a child yet. */
  predicate IsRoot(p: Pool, r: nat)
    requires Shape(p)
  {
    r < |p.reqs| && p.hist[r].place == Held && p.reqs[r].cb == ToCaller
  }

  ghost predicate CanAddChild(p: Pool, q: nat, k: nat) {
    && PoolInv(p)
    && q != k
    && IsRoot(p, q) && IsRoot(p, k)
    && |p.reqs[q].children| < MAX_CHILDREN
    && p.hist[k].height < MAX_HEIGHT
    && p.hist[q].kids == []
  }

  lemma AddChildTreeAt(p: Pool, q: nat, k: nat, x: nat)
    requires CanAddChild(p, q, k) && x < |p.reqs|
    requires TreeAt(p, q) && TreeAt(p, k) && TreeAt(p, x)
    requires k !in p.reqs[q].children && q !in p.reqs[k].children
    ensures TreeAt(AddChild(p, q, k), x)
  {
    var p' := AddChild(p, q, k);
    NoDupAppend(p.reqs[q].children, k);
    forall c | c in p'.reqs[x].children && InTree(p.hist[x].place) ensures ChildLink(p', x, c) {
      if !(x == q && c == k) {
        assert ChildLink(p, x, c);
      }
    }
  }

  lemma AddChildTree(p: Pool, q: nat, k: nat)
    requires CanAddChild(p, q, k)
    ensures TreeInv(AddChild(p, q, k))
  {
    assert TreeAt(p, q) && TreeAt(p, k);
    assert k !in p.reqs[q].children && q !in p.reqs[k].children;
    forall x | 0 <= x < |p.reqs| ensures TreeAt(AddChild(p, q, k), x) {
      assert TreeAt(p, x);
      AddChildTreeAt(p, q, k, x);
    }
  }

  lemma AddChildLog(p: Pool, q: nat, k: nat)
    requires CanAddChild(p, q, k)
    ensures LogInv(AddChild(p, q, k))
  {
    var p', t := AddChild(p, q, k), p.hist[k].tag;
    assert Attached(p, k) && !HasEnded(p, t);
    hide KidStatuses, EndedInv, FreeInv;
    forall i, u | 0 <= i < |p.ended| ensures IsKid(p.ended[i], p.owner, u) <==> IsKid(p.ended[i], p'.owner, u) {
      assert p.ended[i].tag != t;
    }
    forall x: nat | x < |p.reqs| ensures Attached(p', x) {
      assert TreeAt(p, x) && Attached(p, x);
      KidsFrame(p.ended, p.owner, p'.owner, p.hist[x].tag);
    }
    hide Attached, TreeInv, IsKid;
    forall i: nat | i < |p.ended| ensures Logged(p', i) {
      AddedLogged(p, p', i, t);
    }
  }

  lemma AddedLogged(p: Pool, p': Pool, i: nat, t: nat)
    requires Shape(p) && LogInv(p) && i < |p.ended| && p'.ended == p.ended && |p'.owner| == |p.owner|
    requires p.ended[i].tag != t && forall u: nat :: u < |p.owner| && u != t ==> p'.owner[u] == p.owner[u]
    requires forall j, u :: 0 <= j < |p.ended| ==> (IsKid(p.ended[j], p.owner, u) <==> IsKid(p.ended[j], p'.owner, u))
    ensures Logged(p', i)
  {
    hide KidStatuses, IsKid;
    assert Logged(p, i);
    KidsFrame(p.ended[..i], p.owner, p'.owner, p.ended[i].tag);
  }

  lemma AddChildInv(p: Pool, q: nat, k: nat)
    requires CanAddChild(p, q, k)
    ensures PoolInv(AddChild(p, q, k))
  {
    AddChildTree(p, q, k);
    AddChildLog(p, q, k);
    hide LogInv;
    assert forall t: nat :: HasEnded(p, t) <==> HasEnded(AddChild(p, q, k), t);
  }

  /** Moving a request between the caller, the queue, a tracker and the wait
      for its children. */
  ghost predicate CanMove(p: Pool, r: nat, pl: Place) {
    && PoolInv(p)
    && r < |p.reqs|
    && InTree(p.hist[r].place) && InTree(pl)
    && p.hist[r].place != Awaiting
    && (p.reqs[r].children != [] <==> pl == Awaiting)
    && (pl.Queued? || pl.Tracked? ==> p.hist[r].nkids == 0)
    && TreeAt(p, r)
    && (Submitted(pl) && p.reqs[r].cb.ToParent? ==> p.hist[p.reqs[r].cb.parent].place == Awaiting)
  }

  lemma MoveInv(p: Pool, r: nat, pl: Place)
    requires CanMove(p, r, pl)
    ensures PoolInv(SetPlace(p, r, pl))
  {
    var q := SetPlace(p, r, pl);
    LogFrame(p, q);
    hide LogInv;
    forall x | 0 <= x < |p.reqs| ensures TreeAt(q, x) {
      assert TreeAt(p, x);
      forall k | k in p.reqs[x].children && InTree(p.hist[x].place) ensures ChildLink(q, x, k) {
        assert ChildLink(p, x, k);
      }
    }
    assert forall t: nat :: HasEnded(p, t) <==> HasEnded(q, t);
  }

  /** nvme_request_free on a request whose submission is refused: no callback. */
  function Refuse(p: Pool, r: nat): (q: Pool)
    requires Shape(p) && r < |p.reqs|
  {
    FreeSlot(p, r).(ended := p.ended + [Ended(p.hist[r].tag, Refused)])
  }

  lemma RefuseLog(p: Pool, r: nat)
    requires PoolInv(p) && IsRoot(p, r)
    ensures LogInv(Refuse(p, r))
  {
    var q, e := Refuse(p, r), Ended(p.hist[r].tag, Refused);
    assert TreeAt(p, r);
    OwnerOf(p, r);
    hide KidStatuses, TreeInv, FreeInv, EndedInv;
    EntryLogged(p, q, e);
    forall x: nat | x < |q.reqs| ensures Attached(q, x) {
      assert Attached(p, x);
      KidsSnoc(p.ended, e, p.owner, p.hist[x].tag);
    }
  }

  lemma RefuseInv(p: Pool, r: nat)
    requires PoolInv(p) && IsRoot(p, r) && p.reqs[r].children == []
    ensures PoolInv(Refuse(p, r))
  {
    var q := Refuse(p, r);
    RefuseLog(p, r);
    hide LogInv;
    EndTags(p, q, r, Ended(p.hist[r].tag, Refused));
    NoDupPrepend(r, p.free);
    assert TreeAt(p, r);
    forall x | 0 <= x < |p.reqs| ensures TreeAt(q, x) {
      assert TreeAt(p, x);
      forall k | k in p.reqs[x].children && InTree(p.hist[x].place) ensures ChildLink(q, x, k) {
        assert ChildLink(p, x, k);
      }
    }
  }

  function WithChildren(parent: Request, ks: seq<nat>): (q: Request) {
    if ks == [] then parent else WithChild(WithChildren(parent, ks[..|ks| - 1]), ks[|ks| - 1])
  }

  /** The 8-bit counter and the child list agree with what was added exactly
      up to 255 children. */
  lemma {:induction false} ChildCounterExact(parent: Request, ks: seq<nat>)
    requires parent.childReqs == 0 && ks != []
    ensures
      var q := WithChildren(parent, ks);
      (q.childReqs == |ks| && q.children == ks) <==> |ks| <= 255
  {
    if |ks| <= MAX_CHILDREN {
      ChildCounterUpTo(parent, ks);
    }
  }

  lemma {:induction false} ChildCounterUpTo(parent: Request, ks: seq<nat>)
    requires parent.childReqs == 0 && 1 <= |ks| <= MAX_CHILDREN
    ensures WithChildren(parent, ks).childReqs == |ks|
    ensures WithChildren(parent, ks).children == ks
    ensures WithChildren(parent, ks).parentStatus == SUCCESS
  {
    var n := |ks| - 1;
    var init := ks[..n];
    assert ks == init + [ks[n]];
    assert (n + 1) % 256 == n + 1;
    if n != 0 {
      ChildCounterUpTo(parent, init);
    }
  }

  /** With 256 children the counter is back to zero and the parent looks unsplit. */
  lemma ChildCounterWraps(parent: Request, ks: seq<nat>)
    requires parent.childReqs == 0 && |ks| == 256
    ensures WithChildren(parent, ks).childReqs == 0
    ensures WithChildren(parent, ks).children == ks
  {
    ChildCounterUpTo(parent, ks[..255]);
    assert ks == ks[..255] + [ks[255]];
  }
}
