/** From an I/O to its callbacks: the tree of requests that _nvme_ns_rw makes is
    a run of the queue pair's own events, and once submitted every part of it is
    called back exactly once. */
module IoPath {
  import opened Requests
  import opened Qpair
  import opened SplitSubmit
  import opened System
  import opened Runs
  import opened Service
  import Split
  import opened ChildCounter
  import opened SplitBuild

  // ------------------------------------------------------------ making the tree

  /** Taking and attaching the requests of a tree, in the order of the code. */
  ghost function Made(node: Split.Node): seq<Event>
    decreases node
  {
    match node
    case Command(_, _, _, _, _, _, _) => [TakeReq(true)]
    case Parent(id, _, _, _, children) => [TakeReq(true)] + MadeKids(id, children)
  }

  ghost function MadeKids(q: nat, kids: seq<Split.Node>): seq<Event>
    decreases kids
  {
    if kids == [] then []
    else
      var kid := kids[|kids| - 1];
      MadeKids(q, kids[..|kids| - 1]) + (Made(kid) + [AttachKid(q, kid.id)])
  }

  /** A tree with at most d levels of parents, each with 1 to 255 children. */
  ghost predicate Shaped(node: Split.Node, d: nat)
    decreases node
  {
    node.Parent? ==>
      && d > 0 && 0 < |node.children| <= MAX_CHILDREN
      && forall i :: 0 <= i < |node.children| ==> Shaped(node.children[i], d - 1)
  }

  ghost predicate Fresh(p: Pool, r: nat, d: nat)
    requires Shape(p)
  {
    && r < |p.reqs| && p.hist[r].place == Held && p.hist[r].kids == [] && p.hist[r].height <= d
    && p.reqs[r].accept && p.hist[r].nkids == |p.reqs[r].children|
  }

  /** The tree stands in the pool, under the same identities. */
  ghost predicate Stands(p: Pool, node: Split.Node, d: nat)
    requires Shape(p)
    decreases node
  {
    && Fresh(p, node.id, d)
    && match node
       case Command(_, _, _, _, _, _, _) => p.reqs[node.id].children == []
       case Parent(_, _, _, _, children) => d > 0 && KidsStand(p, node.id, children, d - 1)
  }

  ghost predicate KidsStand(p: Pool, q: nat, kids: seq<Split.Node>, d: nat)
    requires Shape(p) && q < |p.reqs|
    decreases kids
  {
    && p.reqs[q].children == TopIds(kids)
    && forall i :: 0 <= i < |kids| ==>
         Stands(p, kids[i], d) && p.reqs[kids[i].id].cb == ToParent(q)
  }

  /** Requests in use keep what they are. */
  ghost predicate UsedKept(p: Pool, p': Pool, q: nat) {
    && Shape(p) && Shape(p') && |p'.reqs| == |p.reqs| && p'.ended == p.ended
    && forall y :: 0 <= y < |p.reqs| && y != q && p.hist[y].place != Free ==>
         p'.reqs[y] == p.reqs[y] && p'.hist[y] == p.hist[y]
  }

  /** Children in the caller's hands keep what they are. */
  ghost predicate ChildrenKept(p: Pool, p': Pool) {
    && Shape(p) && Shape(p') && |p'.reqs| == |p.reqs|
    && forall y :: 0 <= y < |p.reqs| && p.hist[y].place == Held && p.reqs[y].cb.ToParent? ==>
         p'.reqs[y] == p.reqs[y] && p'.hist[y] == p.hist[y]
  }

  lemma {:induction false} StandsKept(p: Pool, p': Pool, node: Split.Node, d: nat)
    requires ChildrenKept(p, p') && Stands(p, node, d)
    requires p'.hist[node.id] == p.hist[node.id] && p'.reqs[node.id].accept && p'.reqs[node.id].children == p.reqs[node.id].children
    ensures Stands(p', node, d)
    decreases node
  {
    if node.Parent? {
      forall i | 0 <= i < |node.children|
        ensures Stands(p', node.children[i], d - 1) && p'.reqs[node.children[i].id].cb == ToParent(node.id)
      {
        StandsKept(p, p', node.children[i], d - 1);
      }
    }
  }

  /** Only the pool changes. */
  ghost predicate PoolOnly(s: State, s': State) {
    s' == s.(core := s.core.(pool := s'.core.pool))
  }

  lemma StepTake(s: State)
    requires SysInv(s) && !s.panicked && Shape(s.core.pool)
    requires s.core.pool.free != [] && s.core.pool.free[0] < |s.core.pool.reqs|
    ensures Step(s, TakeReq(true)) == TakeRequest(s, true)
  {
    hide SysInv, CanAttach, CanSubmit, CanPoll, TakeRequest;
  }

  lemma StepAttach(s: State, q: nat, k: nat)
    requires SysInv(s) && !s.panicked && Shape(s.core.pool) && CanAttach(s, q, k)
    ensures q < |s.core.pool.reqs| && k < |s.core.pool.reqs| && q != k
    ensures Step(s, AttachKid(q, k)) == AttachChild(s, q, k)
  {
    hide SysInv, PoolInv, CanSubmit, CanPoll, AttachChild;
  }

  lemma TakenPool(p: Pool)
    requires Shape(p) && FreeInv(p) && p.free != [] && TreeAt(p, p.free[0])
    ensures
      var p', r := Allocate(p, true), p.free[0];
      && UsedKept(p, p', r) && p'.free == p.free[1..]
      && Fresh(p', r, 0) && p'.reqs[r].children == [] && p'.reqs[r].cb == ToCaller
  {
  }

  lemma TakeOne(s: State)
    requires SysInv(s) && !s.panicked && Shape(s.core.pool) && s.core.pool.free != []
    ensures
      var s', p := Step(s, TakeReq(true)), s.core.pool;
      var p', r := s'.core.pool, p.free[0];
      && SysInv(s') && PoolOnly(s, s') && UsedKept(p, p', r)
      && p'.free == p.free[1..]
      && Fresh(p', r, 0) && p'.reqs[r].children == [] && p'.reqs[r].cb == ToCaller
  {
    hide SysInv, Step, UsedKept, Fresh, TreeAt;
    SysPool(s);
    var p := s.core.pool;
    assert p.free[0] < |p.reqs| && TreeAt(p, p.free[0]);
    StepTake(s);
    TakenPool(p);
    StepKeeps(s, TakeReq(true));
  }

  ghost predicate Attachable(p: Pool, q: nat, k: nat, d: nat) {
    && Shape(p) && q != k && 0 < d <= MAX_HEIGHT
    && Fresh(p, q, d) && p.reqs[q].cb == ToCaller && |p.reqs[q].children| < MAX_CHILDREN
    && Fresh(p, k, d - 1) && p.reqs[k].cb == ToCaller
  }

  lemma AttachedPool(p: Pool, q: nat, k: nat, d: nat)
    requires Attachable(p, q, k, d) && TreeAt(p, q)
    ensures
      var p' := AddChild(p, q, k);
      && Fresh(p', q, d) && p'.reqs[q].children == p.reqs[q].children + [k] && p'.reqs[q].cb == ToCaller
      && p'.free == p.free && p'.ended == p.ended
  {
  }

  lemma AttachOne(s: State, q: nat, k: nat, d: nat)
    requires SysInv(s) && !s.panicked && Attachable(s.core.pool, q, k, d)
    ensures
      var s', p := Step(s, AttachKid(q, k)), s.core.pool;
      var p' := s'.core.pool;
      && SysInv(s') && PoolOnly(s, s') && p' == AddChild(p, q, k) && Fresh(p', q, d)
      && p'.reqs[q].children == p.reqs[q].children + [k] && p'.reqs[q].cb == ToCaller
      && p'.free == p.free && p'.ended == p.ended
  {
    hide SysInv, Step, AddChild, TreeAt;
    SysPool(s);
    StepAttach(s, q, k);
    AttachedPool(s.core.pool, q, k, d);
    StepKeeps(s, AttachKid(q, k));
  }

  ghost predicate MadePost(s: State, s': State, node: Split.Node, d: nat, rest: seq<nat>) {
    && SysInv(s') && PoolOnly(s, s')
    && UsedKept(s.core.pool, s'.core.pool, node.id)
    && s'.core.pool.free == rest
    && Stands(s'.core.pool, node, d) && s'.core.pool.reqs[node.id].cb == ToCaller
  }

  ghost predicate KidsPost(s: State, s': State, q: nat, kids: seq<Split.Node>, d: nat, rest: seq<nat>) {
    && SysInv(s') && PoolOnly(s, s') && d > 0
    && UsedKept(s.core.pool, s'.core.pool, q)
    && s'.core.pool.free == rest
    && Fresh(s'.core.pool, q, d) && s'.core.pool.reqs[q].cb == ToCaller
    && KidsStand(s'.core.pool, q, kids, d - 1)
  }

  lemma StandsUsed(p: Pool, p': Pool, k: nat, node: Split.Node, d: nat)
    requires Shape(p) && k < |p.reqs| && p.hist[k].place == Free && UsedKept(p, p', k)
    requires Stands(p, node, d)
    ensures node.id < |p'.reqs| && Stands(p', node, d) && p'.reqs[node.id] == p.reqs[node.id]
  {
    StandsKept(p, p', node, d);
  }

  lemma KidsUsed(p: Pool, p': Pool, k: nat, q: nat, kids: seq<Split.Node>, d: nat)
    requires Shape(p) && k < |p.reqs| && p.hist[k].place == Free && UsedKept(p, p', k)
    requires d > 0 && Fresh(p, q, d) && KidsStand(p, q, kids, d - 1)
    ensures Fresh(p', q, d) && p'.reqs[q] == p.reqs[q] && KidsStand(p', q, kids, d - 1)
  {
    hide Stands;
    forall i | 0 <= i < |kids|
      ensures kids[i].id < |p'.reqs| && Stands(p', kids[i], d - 1) && p'.reqs[kids[i].id].cb == ToParent(q)
    {
      StandsUsed(p, p', k, kids[i], d - 1);
    }
  }

  lemma KidsAttached(p: Pool, q: nat, kids: seq<Split.Node>, kid: Split.Node, d: nat)
    requires Attachable(p, q, kid.id, d) && TreeAt(p, q)
    requires KidsStand(p, q, kids, d - 1) && Stands(p, kid, d - 1)
    ensures KidsStand(AddChild(p, q, kid.id), q, kids + [kid], d - 1)
  {
    var p', all := AddChild(p, q, kid.id), kids + [kid];
    assert ChildrenKept(p, p');
    AttachedPool(p, q, kid.id, d);
    assert TopIds(all) == TopIds(kids) + [kid.id];
    forall i | 0 <= i < |all| ensures Stands(p', all[i], d - 1) && p'.reqs[all[i].id].cb == ToParent(q) {
      if i < |kids| {
        assert Stands(p, kids[i], d - 1) && p.reqs[kids[i].id].cb == ToParent(q);
      }
      StandsKept(p, p', all[i], d - 1);
    }
  }

  lemma MadeKidsLast(s: State, q: nat, kids: seq<Split.Node>)
    requires SysInv(s) && kids != []
    ensures
      var init, kid := kids[..|kids| - 1], kids[|kids| - 1];
      && IdsOf(kids) == IdsOf(init) + Ids(kid)
      && Run(s, MadeKids(q, kids)) == Step(Run(Run(s, MadeKids(q, init)), Made(kid)), AttachKid(q, kid.id))
  {
    hide SysInv, Step, Run, Made;
    var init, kid := kids[..|kids| - 1], kids[|kids| - 1];
    RunConcat(s, MadeKids(q, init), Made(kid) + [AttachKid(q, kid.id)]);
    RunSnoc(Run(s, MadeKids(q, init)), Made(kid), AttachKid(q, kid.id));
  }

  lemma FreeHead(s: State, node: Split.Node, rest: seq<nat>)
    requires SysInv(s) && s.core.pool.free == Ids(node) + rest
    ensures
      var p := s.core.pool;
      && Shape(p) && node.id < |p.reqs| && p.hist[node.id].place == Free && p.free[0] == node.id
  {
    hide SysInv, TreeAt;
    SysPool(s);
    assert s.core.pool.free[0] == node.id;
  }

  lemma UsedThrough(p: Pool, pA: Pool, pB: Pool, q: nat, k: nat)
    requires UsedKept(p, pA, q) && UsedKept(pA, pB, k) && k < |pA.reqs| && pA.hist[k].place == Free
    requires q < |pB.reqs| && q != k
    ensures UsedKept(p, AddChild(pB, q, k), q)
  {
  }

  lemma KidsJoin(s: State, sA: State, sB: State, q: nat, init: seq<Split.Node>, kid: Split.Node, d: nat, rest: seq<nat>)
    requires !s.panicked && 0 < d <= MAX_HEIGHT && |init| < MAX_CHILDREN
    requires KidsPost(s, sA, q, init, d, Ids(kid) + rest) && MadePost(sA, sB, kid, d - 1, rest)
    requires Shape(sA.core.pool) && kid.id < |sA.core.pool.reqs| && sA.core.pool.hist[kid.id].place == Free
    ensures KidsPost(s, Step(sB, AttachKid(q, kid.id)), q, init + [kid], d, rest)
  {
    hide SysInv, Step, TreeAt, AddChild, KidsStand, UsedKept;
    var pA, pB := sA.core.pool, sB.core.pool;
    SysPool(sB);
    KidsUsed(pA, pB, kid.id, q, init, d);
    KidsNumber(pB, q, init, d - 1);
    assert TreeAt(pB, q);
    AttachOne(sB, q, kid.id, d);
    KidsAttached(pB, q, init, kid, d);
    UsedThrough(s.core.pool, pA, pB, q, kid.id);
  }

  lemma KidsNumber(p: Pool, q: nat, kids: seq<Split.Node>, d: nat)
    requires Shape(p) && q < |p.reqs| && KidsStand(p, q, kids, d)
    ensures |p.reqs[q].children| == |kids|
  {
    hide Stands;
  }

  lemma {:induction false} KidsRun(s: State, q: nat, kids: seq<Split.Node>, d: nat, rest: seq<nat>)
    requires SysInv(s) && !s.panicked && 0 < d <= MAX_HEIGHT && |kids| <= MAX_CHILDREN
    requires forall i :: 0 <= i < |kids| ==> Shaped(kids[i], d - 1)
    requires Shape(s.core.pool) && s.core.pool.free == IdsOf(kids) + rest
    requires Fresh(s.core.pool, q, d) && s.core.pool.reqs[q].children == [] && s.core.pool.reqs[q].cb == ToCaller
    ensures KidsPost(s, Run(s, MadeKids(q, kids)), q, kids, d, rest)
    decreases kids, 1
  {
    hide SysInv, Step, Fresh, Stands, TreeAt, AddChild;
    if kids == [] {
      assert IdsOf(kids) + rest == rest;
    } else {
      var init, kid := kids[..|kids| - 1], kids[|kids| - 1];
      MadeKidsLast(s, q, kids);
      assert s.core.pool.free == IdsOf(init) + (Ids(kid) + rest);
      KidsRun(s, q, init, d, Ids(kid) + rest);
      var sA := Run(s, MadeKids(q, init));
      FreeHead(sA, kid, rest);
      MadeRun(sA, kid, d - 1, rest);
      var sB := Run(sA, Made(kid));
      KidsJoin(s, sA, sB, q, init, kid, d, rest);
      assert init + [kid] == kids;
    }
  }

  lemma {:induction false} MadeRun(s: State, node: Split.Node, d: nat, rest: seq<nat>)
    requires SysInv(s) && !s.panicked && d <= MAX_HEIGHT && Shaped(node, d)
    requires s.core.pool.free == Ids(node) + rest
    ensures MadePost(s, Run(s, Made(node)), node, d, rest)
    decreases node, 0
  {
    hide SysInv, Step, TreeAt, UsedKept, KidsStand;
    FreeHead(s, node, rest);
    TakeOne(s);
    RunOne(s, TakeReq(true));
    var s1 := Step(s, TakeReq(true));
    SysPool(s1);
    assert s1.core.pool.free == Ids(node)[1..] + rest;
    if node.Parent? {
      assert Ids(node)[1..] == IdsOf(node.children);
      RunConcat(s, [TakeReq(true)], MadeKids(node.id, node.children));
      KidsRun(s1, node.id, node.children, d, rest);
      UsedTwice(s.core.pool, s1.core.pool, Run(s, Made(node)).core.pool, node.id);
    } else {
      assert Ids(node)[1..] + rest == rest;
    }
  }

  lemma UsedTwice(p: Pool, p1: Pool, p': Pool, q: nat)
    requires UsedKept(p, p1, q) && UsedKept(p1, p', q)
    ensures UsedKept(p, p', q)
  {
  }

  // ------------------------------------------------------------- submitting it

  lemma {:induction false} InSomeKid(kids: seq<Split.Node>, x: nat) returns (i: nat)
    requires x in IdsOf(kids)
    ensures i < |kids| && x in Ids(kids[i])
    decreases kids
  {
    var n := |kids| - 1;
    if x in Ids(kids[n]) {
      i := n;
    } else {
      i := InSomeKid(kids[..n], x);
    }
  }

  lemma StandsKid(p: Pool, node: Split.Node, d: nat, x: nat) returns (kid: Split.Node)
    requires Shape(p) && Stands(p, node, d) && x in Ids(node) && x != node.id
    ensures d > 0 && x in Ids(kid) && Stands(p, kid, d - 1) && p.reqs[kid.id].cb == ToParent(node.id)
  {
    var i := InSomeKid(node.children, x);
    kid := node.children[i];
    assert KidsStand(p, node.id, node.children, d - 1);
  }

  /** With two levels of parents, every request of the tree is the root, a child
      or a grandchild of it. */
  lemma StandsUnder(p: Pool, node: Split.Node, d: nat, x: nat)
    requires Shape(p) && Stands(p, node, d) && d <= 2 && x in Ids(node)
    ensures x < |p.reqs| && p.hist[x].place == Held && Under(p, x, node.id)
  {
    if x != node.id {
      var kid := StandsKid(p, node, d, x);
      if x != kid.id {
        var grandkid := StandsKid(p, kid, d - 1, x);
        hide KidsStand;
        assert grandkid.Command?;
      }
    }
  }

  /** Submitting a tree submits every request of it. */
  ghost predicate AllSubmitted(p: Pool, p': Pool, r: nat) {
    && Shape(p) && Shape(p') && |p'.reqs| == |p.reqs| && p'.ended == p.ended
    && forall y :: 0 <= y < |p.reqs| && InTree(p.hist[y].place) && Under(p, y, r) ==> Submitted(p'.hist[y].place)
  }

  lemma LeafAll(p: Pool, p': Pool, r: nat)
    requires PoolInv(p) && r < |p.reqs| && InTree(p.hist[r].place) && p.reqs[r].children == [] && LeafMoved(p, p', r)
    ensures AllSubmitted(p, p', r)
  {
    TreeOfParent(p, r);
    forall y | 0 <= y < |p.reqs| && InTree(p.hist[y].place) && Under(p, y, r) ensures y == r {
      assert y in Tree(p, r);
    }
  }

  lemma ParentAll(p: Pool, p': Pool, r: nat)
    requires PoolInv(p) && IsRoot(p, r) && p.reqs[r].children != [] && PoolInv(Park(p, r))
    requires Moved(Park(p, r), p', Forest(Park(p, r), p.reqs[r].children))
    ensures AllSubmitted(p, p', r)
  {
    var q := Park(p, r);
    TreeOfParent(q, r);
    forall y | 0 <= y < |p.reqs| && InTree(p.hist[y].place) && Under(p, y, r) ensures Submitted(p'.hist[y].place) {
      assert y in Tree(q, r);
    }
  }

  lemma RootAll(c: Core, r: nat)
    requires RootPre(c, r) && c.pool.reqs[r].accept
    ensures AllSubmitted(c.pool, SubmitRoot(c, r).pool, r)
  {
    hide PoolInv, TreeAt, Forest, AllSubmitted;
    if c.pool.reqs[r].children == [] {
      RootLeaf(c, r);
      LeafSubmitted(c, r);
      LeafAll(c.pool, SubmitRoot(c, r).pool, r);
    } else {
      ParkedKids(c, r);
      ParkInv(c.pool, r);
      ParentAll(c.pool, SubmitRoot(c, r).pool, r);
    }
  }

  lemma RootSubmitted(s: State, r: nat)
    requires Running(s) && CanSubmit(s, r) && s.core.pool.reqs[r].accept
    ensures
      var s' := Step(s, SubmitReq(r));
      Running(s') && AllSubmitted(s.core.pool, s'.core.pool, r)
  {
    hide AllSubmitted, CanSubmit, CoreInv;
    StepSubmit(s, r);
    StepKeeps(s, SubmitReq(r));
    SubmitReady(s, r);
    RootAll(s.core, r);
    SubmitRootKeeps(s.core, r);
  }

  // ------------------------------------------------------------- the whole path

  /** Lifetime t was called back, and only once. */
  ghost predicate CalledOnce(p: Pool, t: nat) {
    exists i :: 0 <= i < |p.ended| && p.ended[i].tag == t && p.ended[i].outcome.Called?
                && forall j :: 0 <= j < |p.ended| && p.ended[j].tag == t ==> j == i
  }

  /** The tree made from the front of the free list and submitted. */
  ghost function Submission(node: Split.Node): seq<Event> {
    Made(node) + [SubmitReq(node.id)]
  }

  lemma TreeSubmitted(s: State, node: Split.Node, rest: seq<nat>)
    requires Running(s) && Shaped(node, MAX_HEIGHT) && s.core.pool.free == Ids(node) + rest
    ensures
      var s1 := Run(s, Submission(node));
      && Running(s1) && s1.core.pool.ended == s.core.pool.ended
      && Shape(s1.core.pool)
      && forall x :: x in Ids(node) ==> x < |s1.core.pool.reqs| && Submitted(s1.core.pool.hist[x].place)
  {
    hide SysInv, Step, Run, Ids, TreeAt;
    var s0 := Run(s, Made(node));
    RunSnoc(s, Made(node), SubmitReq(node.id));
    MadeRun(s, node, MAX_HEIGHT, rest);
    RootSubmitted(s0, node.id);
    var s1 := Run(s, Submission(node));
    forall x | x in Ids(node) ensures x < |s1.core.pool.reqs| && Submitted(s1.core.pool.hist[x].place) {
      StandsUnder(s0.core.pool, node, MAX_HEIGHT, x);
    }
  }

  lemma ServedOnce(s: State, pick: Scheduler, x: nat)
    requires Diligent(pick) && Running(s) && Shape(s.core.pool) && x < |s.core.pool.reqs| && Submitted(s.core.pool.hist[x].place)
    ensures CalledOnce(Run(s, Schedule(pick, s)).core.pool, s.core.pool.hist[x].tag)
  {
    var s' := Run(s, Schedule(pick, s));
    ScheduleServes(pick, s);
    SysPool(s);
    SysPool(s');
    hide SysInv, Run, Schedule, TreeAt;
    var i := GoneEnded(s.core.pool, s'.core.pool, x);
  }

  /** Made and submitted, the tree is served: however driver and controller take
      turns, each of its requests is called back exactly once. */
  ghost predicate Served(s: State, node: Split.Node, pick: Scheduler)
    requires Running(s) && Diligent(pick)
  {
    var s1 := Run(s, Submission(node));
    && Running(s1) && Shape(s1.core.pool)
    && var s2 := Run(s1, Schedule(pick, s1));
       && Quiet(s2)
       && forall x :: x in Ids(node) ==>
            x < |s1.core.pool.reqs| && CalledOnce(s2.core.pool, s1.core.pool.hist[x].tag)
  }

  /** Every tree of the right shape: once made and submitted, and however driver
      and controller then take turns, each of its requests is called back exactly
      once and the queue pair is empty again. */
  lemma TreeServed(s: State, node: Split.Node, rest: seq<nat>, pick: Scheduler)
    requires Running(s) && Diligent(pick) && Shaped(node, MAX_HEIGHT) && s.core.pool.free == Ids(node) + rest
    ensures Served(s, node, pick)
  {
    hide SysInv, Run, Schedule, Quiet, CalledOnce, Ids, Submission;
    TreeSubmitted(s, node, rest);
    var s1 := Run(s, Submission(node));
    ScheduleServes(pick, s1);
    forall x | x in Ids(node)
      ensures x < |s1.core.pool.reqs| && CalledOnce(Run(s1, Schedule(pick, s1)).core.pool, s1.core.pool.hist[x].tag)
    {
      ServedOnce(s1, pick, x);
    }
  }

  lemma {:induction false} NarrowShaped(node: Split.Node, d: nat)
    requires Narrow(node) && Split.Within(node, d)
    ensures Shaped(node, d)
    decreases node
  {
    if node.Parent? {
      forall i | 0 <= i < |node.children| ensures Shaped(node.children[i], d - 1) {
        NarrowShaped(node.children[i], d - 1);
      }
    }
  }

  /** The I/O path end to end.  The request _nvme_ns_rw makes of an I/O tiles its
      sectors with commands, under parents whose child counters are right, exactly
      when the I/O is countable.  Then it is made and submitted by events of the
      queue pair from the front of the free list, and each of its commands and
      parents is called back exactly once. */
  lemma IoServed(io: Split.Io, lba: nat, count: nat, s: State, node: Split.Node, free': seq<nat>, pick: Scheduler)
    requires io.ns.maxIo > 0 && count > 0 && io.flags % 65536 == 0
    requires Running(s) && Diligent(pick)
    requires RwSpec(io, lba, count, s.core.pool.free, Built(node), free')
    ensures Split.Tiles(Split.Leaves(node), lba, count) && Narrow(node) <==> Countable(io.ns, lba, count)
    ensures Countable(io.ns, lba, count) ==> Split.Good(io, node, lba, count, 2) && Served(s, node, pick)
  {
    assert MAX_HEIGHT == 2;
    hide *;
    RwMeaning(io, lba, count, s.core.pool.free, Built(node), free');
    if Countable(io.ns, lba, count) {
      NarrowShaped(node, 2);
      TreeServed(s, node, free', pick);
      TreeGood(io, node, lba, count);
    }
  }

  lemma TreeGood(io: Split.Io, node: Split.Node, lba: nat, count: nat)
    requires Split.Tiles(Split.Leaves(node), lba, count) && Split.Within(node, 2)
    requires forall l :: l in Split.Leaves(node) ==> Split.LeafOk(io, l)
    ensures Split.Good(io, node, lba, count, 2)
  {
    hide Split.Tiles, Split.Leaves, Split.Within, Split.LeafOk;
  }
}
