# libnvme in Dafny

A model of the hard core of libnvme, a user-space NVMe driver, with proofs of what it
promises. The rings it shares with the controller, its requests, data pointers, I/O
splitting, hugepage allocator and enable machine are modelled branch by branch; NVM Express
1.2 is cited where it defines what the controller makes of the driver's output.

| file | models |
|---|---|
| Common.dfy, Lists.dfy | options, minimum; the lists of sys/queue.h as sequences |
| Requests.dfy | request pool, parents and children, callbacks (lib/nvme/nvme_request.c) |
| Rings.dfy | submission ring, phase-tagged completion ring |
| Qpair.dfy, Drain.dfy, SplitSubmit.dfy | trackers, queue, submission, completion, retry, abort, submission of splits, as functions on states |
| System.dfy, Runs.dfy, Service.dfy, GivenUp.dfy | a queue pair with its controller, all events, all runs, the theorems over runs, progress under every scheduler, completions left by a reset that fails |
| Commands.dfy, Outcomes.dfy, Orders.dfy | over every run: which command the controller fetches, with which status a request is called back, and in which order requests are taken, submitted and aborted |
| QueuePair.dfy | the queue pair as an object with arrays and fields, each method proved equal to its function |
| Prp.dfy, ScatteredPrp.dfy, Sgl.dfy | the three data-pointer builders, against decoders of sections 4.3 and 4.4 |
| Split.dfy, ChildCounter.dfy, SplitBuild.dfy | splitting at stripes and at the maximum transfer size: what should be built, what the 8-bit child counter leaves of it, and building it from the request pool (lib/nvme/nvme_ns.c) |
| Buffers.dfy | the commands of an I/O in bytes: their places in the buffers, their fields, the limits, the stripes |
| Transfer.dfy, IoPath.dfy | commands of an I/O against the PRP list of a tracker; an I/O from its split to its callbacks |
| Bits.dfy, Memory.dfy, MemoryLayout.dfy, MemoryUse.dfy, Allocator.dfy | bit helpers and the hugepage allocator (lib/common) |
| Controller.dfy | CC.EN and CSTS.RDY handshake, attach and reset loops |

The queue pair is specified by functions on a value `Core`, which the class `QueuePair` refines
method by method. Next to the driver's fields the state carries a history: lifetimes of
requests, how each ended, what was put on the ring, what was posted and consumed. `Runs`
quantifies over every finite sequence of events of caller, driver and controller. The
controller fetches in ring order, completes each fetched command once, in any order with any
status, writes the phase of its pass, and stops when the completion queue is full.

The allocator's invariant `Valid` is established by its constructor and kept by every method;
a map of live objects records what each caller asked for. Hugepages, the clock, the start of
the controller, RDY and the data-pointer builders' verdict (in the queue pair) are inputs.

## Where the code does not do what one would expect

Each of these is a proved statement with its exact condition.

- A completion that was not handled before a reset that fails panics: `PollExact` shows that
  polling panics exactly when the controller has failed and a completion is pending,
  `FailedResetPanics` and `PanicReached` give the events.
- `BuildContig`: when a payload touches two pages and only the second does not translate, the
  error value becomes PRP2 instead of a rejection; `SecondPageFails` is an instance.
- `BuildContig`, `CommandsFit`, `InterleavedOverruns`: the limit on sectors per command ignores
  interleaved metadata, so a command can need more than the 506 entries of the PRP list, and the
  builder stores past them. Wherever the buffer starts it stays within exactly when sectors times
  bytes per sector, metadata included, are at most 506 pages and one byte.
- `BuildScattered`: the saved second page is tested for being non-zero, so page 0 there is lost
  from a list (`PlainSound`, `LostPageExample`), and an empty segment among the first pages can
  make another page the second (`Sound`, `EmptyFirstExample`). `EveryContent` and `Meaning` have
  the condition both ways.
- `OffsetsExact`: commands of a stripe that is itself split get offsets relative to the stripe;
  offsets are right exactly when no stripe after the first is longer than the maximum;
  `NestedExample` is an I/O for which they are not.
- `TiledExactly`, `RwMeaning`, `IoServed`: the 8-bit counter of children wraps, and the list is
  emptied when it does. A split keeps its last (n - 1) % 256 + 1 pieces (`FlatLeft`, `RwFlat`), so
  that the caller is told of a transfer most of which never took place; `WrapExample` is a read of
  33 MB for which it happens, `WrapToZero` one whose parent looks unsplit. I/Os are split as they
  should be exactly when they are countable: each split has at most 255 pieces.
- `NlbDecodes`: the count fits its field exactly for 1 to 65536 sectors.
- `Rw`, `RwConserves`: a split that exhausts the request pool loses its own request, and those
  children that were made before the counter last wrapped; `LostExample` is an instance.
- `ChildCounterExact`: the counter of children is exact up to 255.
- `AlignPow2`, `PickPool`: requests beyond 2^63 bytes are rounded to 0 and served from the
  128-byte pool (`WrapsToSmallest`); `LiveObjects` is about all others.

## Model

| member | source | states |
|---|---|---|
| `Requests.LastError` | lib/nvme/nvme_request.c:52-68 | A status is reported as an error exactly when some child status is one; with none it is plain success. |
| `Requests.LastErrorExact` | lib/nvme/nvme_request.c:57-61 | An error reported is the status of the last child that failed. |
| `Requests.AllocateInv` | lib/nvme/nvme_request.c:39-50 | Taking the first free descriptor keeps the pool invariant: free list, request trees, lifetimes. |
| `Requests.AddChildInv` | lib/nvme/nvme_request.c:181-201 | Adding a child keeps the pool invariant, including counter equals list length and parent links that match. |
| `Requests.AnswerInv` | lib/nvme/nvme_request.c:52-61 | Running a callback unlinks the child, records a failure in the parent, and keeps the invariant; a parent whose counter reaches 0 can itself be answered, and is higher in the tree. |
| `Requests.AnswerLog` | lib/nvme/nvme_request.c:52-61 | Every callback keeps the log in step with the trees: what a request has collected are the statuses its attached lifetimes were called back with, in order, and whoever has ended had them all before. |
| `Requests.FinishInv` | lib/nvme/nvme_request.c:52-68 | Finishing a request, with the chain of parents this completes, keeps the invariant; only the request and waiting parents change, and the request is recorded as called back once with its status. |
| `Requests.ParentAnsweredAfterLastChild` | lib/nvme/nvme_request.c:52-68 | If the request was the last child the parent is answered right after it with the last failure among all children; otherwise only this request is answered and the parent keeps waiting with the other children. |
| `Requests.MoveInv` | lib/nvme/nvme_qpair.c:1041-1048 | Moving a request between hands, queue and tracker keeps the pool invariant. |
| `Requests.RefuseInv` | lib/nvme/nvme_request.c:172-179 | Giving an unsubmitted request back to the free list keeps the pool invariant. |
| `Requests.NewPoolInv` | lib/nvme/nvme_request.c:78-103 | The freshly constructed pool satisfies the invariant with every descriptor free. |
| `Requests.ChildCounterExact` | lib/nvme/nvme_internal.h:238 | The 8-bit counter equals the number of children added exactly when there are at most 255. |
| `Requests.ChildCounterUpTo` | lib/nvme/nvme_request.c:181-201 | Up to 255 additions, counter and list both hold all children in order. |
| `Requests.ChildCounterWraps` | lib/nvme/nvme_request.c:184-197 | The 256th addition wraps the counter to 0, a concrete failure of the general claim. |
| `Rings.PushInv` | lib/nvme/nvme_qpair.c:342-365 | With fewer unfetched commands than entries minus one, writing at sq_tail keeps the ring equal to the unfetched commands in order. |
| `Rings.TailFree` | lib/nvme/nvme_qpair.c:342-365 | The slot at sq_tail is never one of an unfetched command. |
| `Rings.FetchInv` | lib/nvme/nvme_qpair.c:342-365 | The controller fetches the oldest unfetched command from its head slot. |
| `Rings.PostInv` | lib/nvme/nvme_qpair.c:1074-1127 | A post by a controller that respects the full rule and flips its phase on wrap keeps every slot accounted for by pass and phase. |
| `Rings.ReadyExact` | lib/nvme/nvme_qpair.c:1101-1103 | The phase test at cq_head succeeds exactly when a posted completion is unconsumed, after any number of wraps, and the entry there is the oldest such. |
| `Rings.TakeInv` | lib/nvme/nvme_qpair.c:1114-1117 | Advancing cq_head, with the phase flip at the wrap, consumes exactly that completion. |
| `Rings.RingHeadInv` | lib/nvme/nvme_qpair.c:1123-1124 | Writing the head doorbell frees the consumed slots for the controller and nothing else. |
| `Rings.NewCqInv` | lib/nvme/nvme_qpair.c:1129-1143 | A cleared completion ring with phase 1 satisfies the ring invariant. |
| `Qpair.EnqueueInv` | lib/nvme/nvme_qpair.c:1031-1043 | Queueing a request for lack of a tracker keeps the invariant of the queue pair and the acceptance order. |
| `Qpair.DequeueInv` | lib/nvme/nvme_qpair.c:417-422 | The head of the queue is the oldest request waiting; taking it out keeps the invariant. |
| `Qpair.DispatchInv` | lib/nvme/nvme_qpair.c:1045-1069 | Giving the first free tracker to a request and writing its command keeps the invariant: trackers partitioned, ring not overrun, first submissions in acceptance order, at most 1 + 3 uses of the ring. |
| `Qpair.ResubmitInv` | lib/nvme/nvme_qpair.c:381-399 | A retry below the limit keeps the invariant and counts the extra use of the ring. |
| `Qpair.RetireInv` | lib/nvme/nvme_qpair.c:401-410 | Completing a tracker answers its request and returns the tracker to the free list, keeping the invariant. |
| `Qpair.AssignRetire` | lib/nvme/nvme_qpair.c:495-505 | Giving a tracker to a request and completing it by hand at once leaves tracker table and both lists as they were. |
| `Qpair.RejectInv` | lib/nvme/nvme_qpair.c:495-505 | A request the data-pointer builder rejects is answered with INVALID FIELD, do not retry, and nothing else is disturbed. |
| `Qpair.SubmitLeaf` | lib/nvme/nvme_qpair.c:992-1072 | Submission of an unsplit request, including reject, complete and submit-next, ends, with the queue length as measure, in a state that satisfies the invariant. |
| `Qpair.Pump` | lib/nvme/nvme_qpair.c:412-422 | The submit-next tail of a completion ends in a state that satisfies the invariant. |
| `Qpair.Complete` | lib/nvme/nvme_qpair.c:367-423 | A completion, retried or not, ends in a state that satisfies the invariant; with which status the request ends, and when it is retried, is stated by Outcomes.RetryOutcome and Outcomes.FinalOutcome. |
| `Qpair.SubmitLeafFlow` | lib/nvme/nvme_qpair.c:992-1072 | Commands written on the ring by a submission are exactly the trackers that became outstanding. |
| `Qpair.CompleteFlow` | lib/nvme/nvme_qpair.c:367-423 | A completion takes its identifier out of the outstanding ones and adds exactly those newly written on the ring. |
| `Qpair.SubmitLeafWork` | lib/nvme/nvme_qpair.c:1031-1071 | After a submission on an enabled queue pair a non-empty queue implies no free tracker. |
| `Qpair.PumpWork` | lib/nvme/nvme_qpair.c:412-422 | So it is after the submit-next step. |
| `Qpair.CompleteWork` | lib/nvme/nvme_qpair.c:367-423 | So it is after a completion. |
| `Drain.AbortHeadInv` | lib/nvme/nvme_qpair.c:444-468 | Aborting the first queued request answers it and keeps the invariant. |
| `Drain.AbortQueueEffect` | lib/nvme/nvme_qpair.c:780-788 | Aborting the queue empties it, answers each queued request with ABORTED BY REQUEST, and touches no tracked request. |
| `Drain.AbortTrackersEffect` | lib/nvme/nvme_qpair.c:790-796 | Aborting the outstanding trackers empties their list, ends only waiting requests, each with the abort status, logs nothing but callbacks, and writes nothing on the ring. |
| `Drain.CompleteRetires` | lib/nvme/nvme_qpair.c:401-422 | With an empty queue and a status that is not retried, completing a tracker is just retiring it. |
| `Drain.DrainExact` | lib/nvme/nvme_qpair.c:1161-1191 | The two loops together: queue and outstanding list empty, all trackers free and idle, each pending request answered with the abort status, everything logged on the way, parents included, called back with an abort status, ring untouched. |
| `Drain.NoParentLeft` | lib/nvme/nvme_request.c:52-68 | When everything submitted has been answered no split parent is left waiting. |
| `Drain.DrainFinishesAll` | lib/nvme/nvme_qpair.c:1161-1191 | After draining, no request is queued, tracked or waiting for children. |
| `SplitSubmit.AcceptInv` | lib/nvme/nvme_qpair.c:992-1006 | Accepting a request gives it the next place in the acceptance order and keeps the invariant. |
| `SplitSubmit.LeafSubmitted` | lib/nvme/nvme_qpair.c:1031-1069 | An accepted leaf ends in a tracker or in the queue and nothing else in the pool moves. |
| `SplitSubmit.UnderDisjoint` | lib/nvme/nvme_request.c:181-201 | The trees below two different siblings have no request in common. |
| `SplitSubmit.SubmitChild` | lib/nvme/nvme_qpair.c:1008-1029 | Submitting a child of a split, itself split or not, moves just the requests of its tree. |
| `SplitSubmit.SubmitKids` | lib/nvme/nvme_qpair.c:1015-1026 | Submitting the children in order moves just the requests of their trees and keeps the invariant. |
| `SplitSubmit.SubmitRootKeeps` | lib/nvme/nvme_qpair.c:992-1072 | Any submission, with nested splits, keeps the invariant, is work conserving, and leaves every parent it submitted with submitted children. |
| `System.QueueDepthBounds` | lib/nvme/nvme_ctrlr.c:1427-1441 | Depth and tracker count chosen for a queue pair: at most the controller limit, and always fewer trackers than entries. |
| `System.QueueDepthExact` | lib/nvme/nvme_ctrlr.c:1427-1441 | No queue pair exactly for a depth of 1 or a controller without entries; otherwise the depth asked for, or all entries when it is 0 or too much, and one tracker less, at most 128. |
| `System.InitInv` | lib/nvme/nvme_qpair.c:838-961 | A constructed queue pair with its controller satisfies the system invariant. |
| `System.FetchKeeps` | lib/nvme/nvme_qpair.c:342-365 | A fetch by the controller keeps the system invariant. |
| `System.PostKeeps` | lib/nvme/nvme_qpair.c:1074-1127 | A completion posted in any order with any status keeps the system invariant. |
| `System.TakeKeeps` | lib/nvme/nvme_request.c:122-148 | Handing a request to the caller keeps the system invariant. |
| `System.AttachKeeps` | lib/nvme/nvme_request.c:181-201 | Attaching a child to an unsubmitted request keeps the system invariant. |
| `System.EnsureEnabledKeeps` | lib/nvme/nvme_qpair.c:771-797 | Re-enabling, which aborts everything left over, keeps the system invariant. |
| `System.FailKeeps` | lib/nvme/nvme_qpair.c:1161-1191 | Failing the queue pair keeps the system invariant. |
| `System.ResetKeeps` | lib/nvme/nvme_qpair.c:1129-1143 | Disabling, re-creating and finishing a reset keep the system invariant; outstanding commands become orphans the new controller never completes. |
| `System.SubmitKeeps` | lib/nvme/nvme_qpair.c:992-1072 | Submission, including the refusal on a failed controller, keeps the system invariant. |
| `System.PollActive` | lib/nvme/nvme_qpair.c:1105-1112 | On a controller that has not failed, the tracker named by the next completion is active. |
| `System.PollKeeps` | lib/nvme/nvme_qpair.c:1101-1117 | Handling one completion keeps the system invariant. |
| `System.AckKeeps` | lib/nvme/nvme_qpair.c:1123-1124 | The head doorbell write keeps the system invariant. |
| `Runs.StepKeeps` | lib/nvme/nvme_qpair.c:992-1127 | Every event of driver, caller and controller keeps the system invariant. |
| `Runs.Run` | lib/nvme/nvme_qpair.c:992-1127 | Every state reached by any sequence of events satisfies the system invariant. |
| `Runs.OnePlaceEach` | lib/nvme/nvme_qpair.c:367-468 | In every reachable state each pool request is in exactly one of free list, queue, one tracker, waiting parents, caller hands. |
| `Runs.CalledBackAtMostOnce` | lib/nvme/nvme_request.c:52-68 | Over every run a lifetime of a request ends at most once, and one that has not ended is still somewhere. |
| `Runs.SplitsRecombine` | lib/nvme/nvme_request.c:52-68 | Over every run each finished parent reported after all its children: every lifetime ever attached to it was called back before it, the statuses it collected are theirs in the order of the log, and it reports success exactly when all succeeded and otherwise the last failure. |
| `Runs.RingUse` | lib/nvme/nvme_qpair.c:342-423 | Over every run a request is put on the ring at most 1 + 3 times; where one appears on the ring for the first time everything before it was accepted earlier; everything on the ring was accepted before everything queued; and an enabled queue pair with a queue has no free tracker. |
| `Runs.InFlightBound` | lib/nvme/nvme_qpair.c:342-365 | Over every run there are the trackers, entries and eight requests per tracker asked for; the commands owed by the controller, with the orphans of a reset, are exactly the outstanding trackers, active exactly then, at most as many as trackers, and the slot at sq_tail is never one still to be fetched. |
| `Runs.PollExact` | lib/nvme/nvme_qpair.c:1099-1127 | Over every run the phase test holds exactly when a completion is unconsumed, at most entries minus one are unacknowledged, the one handled is the oldest, and the unknown-command panic is reached exactly when the controller was failed. |
| `GivenUp.FailedResetPanics` | lib/nvme/nvme_ctrlr.c:991-1033 | From every queue pair in use with a completion not yet handled: a reset that fails, followed by a poll, ends in the panic. |
| `GivenUp.FailedReset` | lib/nvme/nvme_ctrlr.c:1008-1030 | A reset that fails leaves the queue pair disabled, not resetting and failed, with its completion ring as it was. |
| `GivenUp.FirstFetched` | lib/nvme/nvme_qpair.c:1045-1069 | On a new queue pair of any size, taking, submitting and fetching one request leads to such a state. |
| `GivenUp.PanicReached` | lib/nvme/nvme_qpair.c:1105-1112 | So the panic is reached from the initial state of every queue pair, by the nine events given: one command answered, then such a reset, then a poll. |
| `Runs.DrainFlushes` | lib/nvme/nvme_qpair.c:771-797 | Draining from any state: Flushed, that is empty lists, idle trackers, untouched ring, and every submitted request, split parents included, called back with status code 7, ABORTED BY REQUEST. |
| `Runs.GiveUpDrains` | lib/nvme/nvme_qpair.c:1161-1191 | Failing the controller from any reachable state calls every submitted request back with an abort status, with do-not-retry for tracked ones, and leaves none. |
| `Runs.ReenableDrains` | lib/nvme/nvme_qpair.c:984-990 | Using a disabled queue pair again after any run does so too, and enables it. |
| `Orders.TakesFirst` | lib/nvme/nvme_request.c:122-148 | Over every run an allocation fails exactly when no descriptor is free, and otherwise takes the first, with nothing left of its last use, for a new lifetime; nothing else changes. |
| `Orders.AttachesLast` | lib/nvme/nvme_request.c:181-201 | Over every run an attached child goes to the end of its parent's list and answers to the parent; the counter is the length of the list. |
| `Orders.RefusedBack` | lib/nvme/nvme_qpair.c:1001-1004 | Over every run a request submitted to a controller that was given up is freed at once, without a callback, and nothing else changes. |
| `Orders.SubmitPlaced` | lib/nvme/nvme_qpair.c:1031-1071 | Over every run an unsplit request that is submitted goes on the ring under the first free identifier, is called back with INVALID FIELD when its payload is rejected, or goes to the end of the queue when there is no tracker or a reset is on; no other request is touched. |
| `Orders.SubmitKidsOrder` | lib/nvme/nvme_qpair.c:1015-1026 | Submitting children accepts the unsplit requests below them, and no others, in the order of the children. |
| `Orders.ChildrenInOrder` | lib/nvme/nvme_qpair.c:1008-1029 | Over every run the unsplit requests below a split are accepted in the order of the children, at both levels; with Runs.RingUse that is their order on the ring. |
| `Orders.AbortQueueOrder` | lib/nvme/nvme_qpair.c:780-788 | Aborting the queue calls the queued requests back from first to last. |
| `Orders.AbortTrackersOrder` | lib/nvme/nvme_qpair.c:790-796 | Aborting the trackers calls their requests back in the order of the outstanding list. |
| `Orders.DrainsInOrder` | lib/nvme/nvme_qpair.c:1161-1191 | Over every run a drain, on giving up and on re-enabling, calls back the queued requests in order, then the outstanding ones, the most recent first, and no other unsplit request. |
| `Commands.StepCarry` | lib/nvme/nvme_qpair.c:342-365 | Every event keeps the latest command of each outstanding tracker equal to that of its request, and the commands in the ring equal to the last ones put there. |
| `Commands.UnfetchedLatest` | lib/nvme/nvme_qpair.c:342-365 | A command still to be fetched is the latest with its identifier, and that identifier is outstanding. |
| `Commands.CommandsMatch` | lib/nvme/nvme_qpair.c:342-365 | Over every run the numbers in the ring are the last ones that were put there, and each command still to be fetched carries the number of the request in the tracker it names. |
| `Commands.FetchedCommand` | lib/nvme/nvme_qpair.c:357-358 | Over every run so does the command the controller fetches next, and no other waiting request has that number. |
| `Outcomes.FinishRest` | lib/nvme/nvme_request.c:52-68 | A callback logs the request with its status first, then split parents only. |
| `Outcomes.RetryOutcome` | lib/nvme/nvme_qpair.c:381-399 | Status type 0 with code 82h or 84h, no do-not-retry bit and fewer than 3 retries: nothing ends, the request keeps its tracker and its number goes on the ring once more. |
| `Outcomes.FinalOutcome` | lib/nvme/nvme_qpair.c:401-423 | Any other status: the next callback is that of the tracker's request, with that very status; all other unsplit requests that end on the way report INVALID FIELD. |
| `Outcomes.PollReports` | lib/nvme/nvme_qpair.c:1099-1121 | Over every run that is what handling the oldest completion does, with the status the controller posted. |
| `Outcomes.StepAccounted` | lib/nvme/nvme_qpair.c:992-1127 | Whatever an event logs for an unsplit request reports INVALID FIELD, ABORTED BY REQUEST, or the status of the completion handled for it. |
| `Outcomes.StatusOrigin` | lib/nvme/nvme_qpair.c:401-402 | Over every run each unsplit request that was called back reports status code 2 with do-not-retry, status code 7, or the status of a completion the controller had posted for its tracker and a poll handled. |
| `Outcomes.RejectedBack` | lib/nvme/nvme_qpair.c:495-505 | A request whose payload is rejected, submitted with a tracker at hand, is the next to be called back, with status code 2 and do-not-retry. |
| `Service.CompleteCalm` | lib/nvme/nvme_qpair.c:367-423 | Handling a completion strictly lowers the number of times requests can still be put on the ring, and leaves unsubmitted requests where they are. |
| `Service.HelpfulCloser` | lib/nvme/nvme_qpair.c:1074-1127 | Every fetch, completion with any status, handled completion and due acknowledgement strictly lowers a well-founded measure. |
| `Service.IdleQuiet` | lib/nvme/nvme_qpair.c:1031-1071 | An enabled queue pair with nothing to fetch, complete, handle or acknowledge has no submitted request left. |
| `Service.ScheduleServes` | lib/nvme/nvme_qpair.c:1074-1127 | Every scheduler that picks such events while there are some ends, with nothing submitted any more. |
| `Service.NothingStuck` | lib/nvme/nvme_qpair.c:992-1127 | From every reachable state in use, under every such scheduler and whatever the controller answers, every submitted request is called back. |
| `IoPath.MadeRun` | lib/nvme/nvme_ns.c:296-350 | The tree of an I/O is made by events of the queue pair in the order of the code: its requests are the front of the free list, stand in the pool with the same parents and children, and nothing else in use changes. |
| `IoPath.KidsRun` | lib/nvme/nvme_ns.c:259-291 | Making and attaching the children one by one does so for a parent. |
| `IoPath.RootAll` | lib/nvme/nvme_qpair.c:1008-1029 | Submitting a request submits every request of its tree. |
| `IoPath.TreeServed` | lib/nvme/nvme_qpair.c:992-1127 | Made, submitted and served under any diligent scheduler, each request of the tree is called back exactly once. |
| `IoPath.NarrowShaped` | lib/nvme/nvme_ns.c:231-294 | Trees whose parents have 1 to 255 children, at most two levels deep, are ones the queue pair can take. |
| `IoPath.IoServed` | lib/nvme/nvme_ns.c:296-396 | End to end, for every I/O that is built: its commands tile its sectors, under parents whose counters are right, exactly when it is countable; then each command and every parent, the caller's request included, is called back exactly once, whatever the controller answers. |
| `QueuePairObject.QueuePair.constructor` | lib/nvme/nvme_qpair.c:838-961 | The object starts in the initial state of the specification. |
| `QueuePairObject.QueuePair.Allocate` | lib/nvme/nvme_request.c:122-148 | Refines the allocation of the specification; an empty free list changes nothing. |
| `QueuePairObject.QueuePair.AddChild` | lib/nvme/nvme_request.c:181-201 | Refines the addition of a child. |
| `QueuePairObject.QueuePair.FinishRequest` | lib/nvme/nvme_request.c:52-68 | Refines finishing a request and its chain of parents. |
| `QueuePairObject.QueuePair.PushCommand` | lib/nvme/nvme_qpair.c:342-365 | Writes one slot of the array and moves sq_tail as the ring specification says. |
| `QueuePairObject.QueuePair.SubmitTracker` | lib/nvme/nvme_qpair.c:342-365 | Refines activating a tracker and writing its command; that it is the command of the request in the tracker is stated by Commands.CommandsMatch. |
| `QueuePairObject.QueuePair.RetireTracker` | lib/nvme/nvme_qpair.c:401-410 | Refines the completion branch. |
| `QueuePairObject.QueuePair.RetryTracker` | lib/nvme/nvme_qpair.c:395-399 | Refines the retry branch. |
| `QueuePairObject.QueuePair.CompleteTracker` | lib/nvme/nvme_qpair.c:367-423 | The recursive completion refines Complete, for which Outcomes.PollReports states the status called back. |
| `QueuePairObject.QueuePair.SubmitNextQueued` | lib/nvme/nvme_qpair.c:412-422 | Refines Pump. |
| `QueuePairObject.QueuePair.SubmitUnsplit` | lib/nvme/nvme_qpair.c:1031-1072 | The recursive submission of one request refines SubmitLeaf. |
| `QueuePairObject.QueuePair.DispatchRequest` | lib/nvme/nvme_qpair.c:1045-1069 | Refines Dispatch. |
| `QueuePairObject.QueuePair.SubmitSplit` | lib/nvme/nvme_qpair.c:1015-1026 | The loop over the children refines SubmitKids. |
| `QueuePairObject.QueuePair.SubmitSplitChild` | lib/nvme/nvme_qpair.c:1008-1029 | Refines SubmitChild. |
| `QueuePairObject.QueuePair.AbortQueued` | lib/nvme/nvme_qpair.c:780-788 | The loop refines AbortQueue. |
| `QueuePairObject.QueuePair.AbortOutstanding` | lib/nvme/nvme_qpair.c:790-796 | The loop refines AbortTrackers. |
| `QueuePairObject.QueuePair.Enable` | lib/nvme/nvme_qpair.c:771-797 | Refines the re-enable step. |
| `QueuePairObject.QueuePair.CheckEnabled` | lib/nvme/nvme_qpair.c:984-990 | Enables lazily, and only outside a reset. |
| `QueuePairObject.QueuePair.Fail` | lib/nvme/nvme_qpair.c:1161-1191 | Refines the fail step. |
| `QueuePairObject.QueuePair.Disable` | lib/nvme/nvme_qpair.c:805-810 | Refines the disable step. |
| `QueuePairObject.QueuePair.Reset` | lib/nvme/nvme_qpair.c:1129-1143 | Clears both arrays and indices as the specification says. |
| `QueuePairObject.QueuePair.SubmitRequest` | lib/nvme/nvme_qpair.c:992-1072 | Refines a submission, refused on a failed controller; the result tells exactly whether the request was refused or rejected. |
| `QueuePairObject.QueuePair.PollSlot` | lib/nvme/nvme_qpair.c:1101-1117 | Handles the completion at cq_head as the specification says, or panics. |
| `QueuePairObject.QueuePair.HandleCompletion` | lib/nvme/nvme_qpair.c:1105-1112 | Completes the tracker named by the entry. |
| `QueuePairObject.QueuePair.AdvanceHead` | lib/nvme/nvme_qpair.c:1114-1117 | Moves cq_head with the phase flip. |
| `QueuePairObject.QueuePair.WriteHeadDoorbell` | lib/nvme/nvme_qpair.c:1123-1124 | Acknowledges what was consumed. |
| `QueuePairObject.QueuePair.PollLoop` | lib/nvme/nvme_qpair.c:1099-1121 | The loop, with the controller acting in between, is exactly the run of looks and handled completions it counts, and stops only at the bound, on a panic, or at an entry of the old phase. |
| `QueuePairObject.QueuePair.PollTurn` | lib/nvme/nvme_qpair.c:1101-1117 | One look: handles the entry at cq_head exactly when its phase is the current one. |
| `QueuePairObject.QueuePair.Poll` | lib/nvme/nvme_qpair.c:1074-1127 | A whole call of poll is the run that enables, handles n completions and acknowledges them; it returns that n, at most entries - 1 and at most the number asked for unless that is 0; on an enabled queue pair it ends because no completion is left at cq_head, or n is entries - 1 or the number asked for, or it panics. |
| `Prp.ListDecodes` | lib/nvme/nvme_qpair.c:545-557 | A PRP list that starts with the pages decodes to their bytes. |
| `Prp.DescribedDecodes` | lib/nvme/nvme_qpair.c:540-557 | Whatever pointer has the one-, two- or many-page form of a page list decodes, by section 4.3 of NVM Express 1.2, to exactly its bytes. |
| `Prp.DecodesExactly` | lib/nvme/nvme_qpair.c:540-557 | And only such a pointer does: decoding to the bytes of the page list is equivalent to describing it. |
| `Prp.SegmentsExact` | lib/nvme/nvme_qpair.c:525-529 | The segment count is the number of pages touched for all sizes and offsets; it needs more than 506 list entries exactly when the payload reaches past the 507th page, never for a payload of at most NVME_MAX_XFER_SIZE. |
| `Prp.PagesCover` | lib/nvme/nvme_qpair.c:540-557 | The bytes of the translated pages are the translated bytes of the payload. |
| `Prp.PagesAligned` | lib/nvme/nvme_qpair.c:548-557 | All page entries after the first are page aligned. |
| `Prp.BuildContig` | lib/nvme/nvme_qpair.c:510-561 | For every size: rejects exactly on a failed translation it looks at, stores past the 506 entries exactly when the payload reaches past the 507th page and no translation failed before; otherwise the command decodes to the payload, or to nothing exactly for two pages of which the second does not translate. |
| `Prp.ContigMeaning` | lib/nvme/nvme_qpair.c:542-544 | The command decodes to the payload exactly when all its pages translate; when the second of two does not, it decodes to nothing. |
| `Prp.SecondPageFails` | lib/nvme/nvme_qpair.c:542-544 | Frames and an address for which the command is built with the error value as PRP2 and decodes to nothing. |
| `Transfer.EntriesBound` | lib/nvme/nvme_qpair.c:525-557 | The 506 list entries suffice wherever the payload starts exactly for payloads of at most 506 pages and one byte. |
| `Transfer.LeafSize` | lib/nvme/nvme_ns.c:54-57 | With limits derived from the identify data, the payload size of a command is its sectors times their bytes, without wrap-around. |
| `Transfer.CommandsFit` | lib/nvme/nvme_ns.c:296-375 | For every command of every I/O: the list suffices wherever the buffer starts exactly when sectors times bytes per sector, metadata included, are at most 506 pages and one byte; always without interleaved metadata. |
| `Transfer.InterleavedOverruns` | lib/nvme/nvme_ns.c:245-257 | 512-byte sectors with 8 interleaved bytes: a read of 4048 sectors is one command and needs 513 entries. |
| `ScatteredPrp.RunCover` | lib/nvme/nvme_qpair.c:701-705 | The pages of a segment hold exactly its bytes. |
| `ScatteredPrp.CoversAll` | lib/nvme/nvme_qpair.c:681-697 | The pages of checked segments, empty ones included, hold the first bytes of the stream in order, full unless the transfer ends there. |
| `ScatteredPrp.CrossExact` | lib/nvme/nvme_qpair.c:707-731 | The segment with which the payload gets its second page is well defined. |
| `ScatteredPrp.VarsNext` | lib/nvme/nvme_qpair.c:699-745 | Through all cases, empty segments included, the variables are what the segments so far determine: first page, kept second page, list position. |
| `ScatteredPrp.ListsNext` | lib/nvme/nvme_qpair.c:733-744 | The list holds the pages from the origin on, after the kept one if there is one, and beyond them what it held before. |
| `ScatteredPrp.DescribedWhen` | lib/nvme/nvme_qpair.c:716-744 | The command describes the pages exactly under the condition Sound, or when the pages repeat what the list held before. |
| `ScatteredPrp.Meaning` | lib/nvme/nvme_qpair.c:647-749 | The command decodes to the payload exactly then. |
| `ScatteredPrp.EveryContent` | lib/nvme/nvme_qpair.c:734-741 | It does so whatever the list held before exactly when Sound. |
| `ScatteredPrp.PlainSecond` | lib/nvme/nvme_qpair.c:716-724 | Without empty segments the second page is the right one. |
| `ScatteredPrp.PlainSound` | lib/nvme/nvme_qpair.c:734-741 | Without empty segments Sound is exactly: no segment ended with page 0 as second page of more than two. |
| `ScatteredPrp.LostPageExample` | lib/nvme/nvme_qpair.c:734-741 | Pages 1, 0 and 2, a segment each, are accepted and page 0 is lost, whatever the list held. |
| `ScatteredPrp.EmptyFirstExample` | lib/nvme/nvme_qpair.c:720-721 | An empty segment before a two-page one is accepted, and the first page becomes PRP2. |
| `ScatteredPrp.ListLongEnough` | lib/nvme/nvme_qpair.c:733-744 | Up to NVME_MAX_XFER_SIZE no list index of 506 or more is written, whatever the segments. |
| `ScatteredPrp.PassesBound` | lib/nvme/nvme_qpair.c:669-697 | Where the loop ends no more segments pass, and the accepted prefix is unique. |
| `ScatteredPrp.AppendPages` | lib/nvme/nvme_qpair.c:733-744 | The inner loop appends the remaining pages of a segment with the saved page first, leaves the rest of the list alone, and reports exactly whether it stayed within 506 entries. |
| `ScatteredPrp.AddSegment` | lib/nvme/nvme_qpair.c:699-745 | One round of the loop computes the next variables and list, or overruns the list, exactly as counted. |
| `ScatteredPrp.BuildScattered` | lib/nvme/nvme_qpair.c:647-749 | For every size and all segments: the list is overrun exactly when a checked prefix needs more than 506 entries, never up to NVME_MAX_XFER_SIZE; otherwise exactly the sequences whose needed prefix is dword aligned, starts on pages after the first and ends on pages before the last are accepted; and the command decodes to the first payload-size bytes of the stream exactly under Sound, or by repetition of what the list held. |
| `Sgl.BuildSgl` | lib/nvme/nvme_qpair.c:566-642 | For every infinite source of segments it ends, accepts exactly when at most 253 answers bring the payload, uses the inline form exactly for one, and decodes by section 4.4 of NVM Express 1.2 to exactly the first payload-size bytes. |
| `Sgl.UptoNext` | lib/nvme/nvme_qpair.c:602-618 | Each descriptor extends what the list describes by the bytes just delivered. |
| `Sgl.UptoStuck` | lib/nvme/nvme_qpair.c:597-607 | An error, or a 254th descriptor needed, means no number of answers up to 253 suffices. |
| `Sgl.FirstDecodes` | lib/nvme/nvme_qpair.c:622-639 | Inline block and last-segment pointer decode to the same bytes as the list. |
| `Split.SplitTiles` | lib/nvme/nvme_ns.c:231-375 | The commands of an I/O cover exactly its sectors in order without gap or overlap, each at most the maximum and inside one stripe, with at most two levels of parents. |
| `Split.StripeGood` | lib/nvme/nvme_ns.c:346-350 | Inside one stripe one level of splitting is enough. |
| `Split.OffsetsExact` | lib/nvme/nvme_ns.c:278-289 | Without 32-bit overflow, payload offsets follow the sectors for all commands exactly when no stripe after the first is split again. |
| `Split.UnnestedRight` | lib/nvme/nvme_ns.c:278-289 | Without nesting payload and metadata offsets of every command are those of its sectors, modulo 2^32; Buffers.LeafBuffers states them in bytes. |
| `Split.NestedWrong` | lib/nvme/nvme_ns.c:278 | With nesting some command gets the offset of the start of the buffer. |
| `Split.NestedExample` | lib/nvme/nvme_ns.c:278 | Two stripes of 16 sectors in commands of 8: a concrete I/O whose offsets are wrong. |
| `Split.NlbDecodes` | lib/nvme/nvme_ns.c:368-369 | The low 16 bits of cdw12 decode to the sector count exactly for 1 to 65536 sectors; a count of 0 asks for 65536. |
| `SplitBuild.StripeMask` | lib/nvme/nvme_ns.c:261 | Masking with stripe minus one is the remainder, for the power-of-two stripes there are. |
| `ChildCounter.CountablePieces` | lib/nvme/nvme_ns.c:259-291 | Every split of a countable I/O has at most 255 pieces, each countable itself. |
| `ChildCounter.PiecesClosed` | lib/nvme/nvme_ns.c:259-291 | A split has as many pieces as there are steps with a sector of the I/O. |
| `ChildCounter.ExactCountable` | lib/nvme/nvme_ns.c:231-294 | A complete tree whose parents all have 1 to 255 children belongs to a countable I/O. |
| `ChildCounter.CountedExactly` | lib/nvme/nvme_ns.c:231-294 | The tree that is left is the whole one, with 1 to 255 children under every parent, exactly for countable I/Os: a condition on stripe, maximum, first sector and count. |
| `ChildCounter.KeptSectors` | lib/nvme/nvme_request.c:184-197 | What the wraps of the counter leave asks for all sectors only when nothing was lost. |
| `ChildCounter.TiledExactly` | lib/nvme/nvme_ns.c:231-375 | The commands that are left tile the I/O, under parents whose counters are right, exactly for countable I/Os. |
| `ChildCounter.LeftFrom` | lib/nvme/nvme_ns.c:259-291 | The sector at which the pieces that are left begin. |
| `ChildCounter.FlatLeft` | lib/nvme/nvme_request.c:184-197 | An un-nested split of n pieces keeps the last (n - 1) % 256 + 1 of them, which tile the sectors from there on. |
| `ChildCounter.KeptLeaves` | lib/nvme/nvme_ns.c:296-375 | Whatever is lost, every command that is left is one the controller takes, at most two levels deep. |
| `SplitBuild.FreeKids` | lib/nvme/nvme_ns.c:266-274 | Children given back go to the head of the free list one by one, up to the first whose own counter is not 0; the assertion fails exactly when there is one. |
| `SplitBuild.GiveUp` | lib/nvme/nvme_ns.c:266-276 | What a failed child leaves of the pool: with the counter at 0 nothing is given back, else the children up to the first that fails the assertion. |
| `SplitBuild.NextPiece` | lib/nvme/nvme_ns.c:261-262 | The next piece ends at a multiple of the stripe, or has the maximum size. |
| `SplitBuild.SplitRequest` | lib/nvme/nvme_ns.c:231-294 | Succeeds exactly when the pool holds the requests needed; the tree is what the 8-bit counter leaves of the specified one, for every number of pieces, from the front of the free list; otherwise the result and the list of requests given back are exact, nested or not. |
| `SplitBuild.Rw` | lib/nvme/nvme_ns.c:296-375 | The recursive build: flags with low bits set are refused; it succeeds exactly when the pool holds the computed number of requests; for every number of pieces the tree is what the 8-bit counter leaves of the specified one; a failure gives back exactly the listed pieces up to the first that cannot be freed, in reverse order, and what the failed piece gave back. |
| `SplitBuild.FlatStuck` | lib/nvme/nvme_ns.c:266-276 | In an un-nested split that is all children made since the counter was last 0. |
| `SplitBuild.KidsFreed` | lib/nvme/nvme_ns.c:266-274 | Which listed children can be freed, and what they give back, is determined by the pieces they stand for. |
| `SplitBuild.RwConserves` | lib/nvme/nvme_ns.c:266-276 | A failed I/O leaves the pool with all its requests exactly when it had taken none; otherwise its own request is lost, nested or not. |
| `SplitBuild.RwMeaning` | lib/nvme/nvme_ns.c:296-375 | For every built request: its commands tile the I/O, under parents whose counters are right, exactly when the I/O is countable; every command decodes to its sectors; a countable I/O uses each request from the front of the free list once, and has the right offsets when un-nested. |
| `SplitBuild.RwFlat` | lib/nvme/nvme_ns.c:259-291 | An un-nested split of n pieces takes n + 1 requests and keeps the last (n - 1) % 256 + 1 children with the last requests taken; its commands tile the sectors from there on, and the whole I/O exactly when n is at most 256. |
| `SplitBuild.WrapExample` | lib/nvme/nvme_request.c:184-197 | A read of 257 pieces keeps one child, which asks for the last 256 of its 65792 sectors, and loses 256 requests. |
| `SplitBuild.WrapToZero` | lib/nvme/nvme_request.c:184-197 | A read of 256 pieces lists them all under a counter of 0. |
| `SplitBuild.LostExample` | lib/nvme/nvme_ns.c:266-276 | Two sectors in commands of one and a pool of one request: that request is lost. |
| `Split.LeafDecodes` | lib/nvme/nvme_ns.c:368-369 | With a maximum of at most 65536 sectors every command asks for just its sectors. |
| `Split.DerivedLimits` | lib/nvme/nvme_ns.c:54-58 | The derived limits are usable exactly when a sector fits a transfer; commands of up to the maximum stay within it; for 512-byte sectors and up the count fits its field; Buffers.DerivedExactly states their values. |
| `Buffers.SectorInBuffer` | lib/nvme/nvme_ns.c:252-257 | A sector takes its metadata along in the payload buffer exactly with protection, extended sectors and bit 29 of the flags clear. |
| `Buffers.LeafBuffers` | lib/nvme/nvme_ns.c:278-289 | Un-nested, every command's payload starts at its sectors times the bytes of a sector and is that long, and its metadata starts at its sectors times the metadata size, as long as the buffers are below 4 GB. |
| `Buffers.BuffersTiled` | lib/nvme/nvme_ns.c:278-289 | So the commands tile both buffers: the first starts at 0, each where the one before ends, the last ends with the buffer. |
| `Buffers.CommandFields` | lib/nvme/nvme_ns.c:368-369 | The length field is the number of sectors less one, next to the flags given. |
| `Buffers.DerivedExactly` | lib/nvme/nvme_ns.c:54-58 | The maximum is the largest number of sectors that fits a transfer; a stripe times the sector size is 2^(a + b) bytes when there is striping and the stripe holds a sector and fits 32 bits, else there is none. |
| `Buffers.NoStripeCrossed` | lib/nvme/nvme_ns.c:338-345 | With these limits no command crosses a multiple of the stripe size in bytes. |
| `Buffers.CommandsFull` | lib/nvme/nvme_ns.c:259-264 | No command is shorter than the limits demand: it has the largest size, ends with a stripe, or ends with the I/O. |
| `Buffers.RwBuffers` | lib/nvme/nvme_ns.c:296-375 | All of it for every request _nvme_ns_rw builds: fields always, sizes for countable I/Os, places in the buffers for countable un-nested ones. |
| `Split.StripeSizePow2` | lib/nvme/nvme_ns.c:101-102 | The 32-bit stripe size is a power of two or 0. |
| `Split.TransferFits` | lib/nvme/nvme_ns.c:57 | All commands fit the transfer size exactly when the longest does, which plain sectors guarantee. |
| `Split.InterleavedExceeds` | lib/nvme/nvme_ns.c:245-257 | With interleaved metadata the longest command can exceed it: a concrete format. |
| `Memory.TakeBooks` | lib/common/nvme_mem.c:433-447 | Taking a free slot keeps the books: bitmap counts, lists by fullness, pool counters, hash index. |
| `Memory.PutBooks` | lib/common/nvme_mem.c:537-547 | Giving a slot back keeps the books. |
| `Memory.AddBooks` | lib/common/nvme_mem.c:352-390 | Registering a fresh hugepage keeps the books. |
| `Memory.DropBooks` | lib/common/nvme_mem.c:493-504 | Dropping an unused heap keeps the books. |
| `Memory.UsableHeap` | lib/common/nvme_mem.c:411-416 | A heap with a free slot is on the use list of a pool whose counters are positive. |
| `Memory.FullHeap` | lib/common/nvme_mem.c:442-447 | A heap without one is on the full list. |
| `Memory.EmptyHasNone` | lib/common/nvme_mem.h:123-124 | A heap counted as empty has no allocated slot. |
| `Memory.TakeOneEmpty` | lib/common/nvme_mem.c:433-447 | Allocation leaves at most one empty heap per pool. |
| `Memory.AddOneEmpty` | lib/common/nvme_mem.c:415-418 | So does growing, which happens only when no heap has a free slot. |
| `Memory.TakeBacked` | lib/common/nvme_mem.c:433-438 | An allocation adds exactly one live object, on a slot that had none. |
| `Memory.PutBacked` | lib/common/nvme_mem.c:537 | A free removes exactly one. |
| `Memory.ShrunkBacked` | lib/common/nvme_mem.c:462-509 | Dropping empty heaps loses no live object. |
| `MemoryLayout.LiveObjects` | lib/common/nvme_mem.c:402-457 | All live objects of up to 2^63 bytes lie inside one hugepage, are as large and as aligned as asked, and are pairwise disjoint. |
| `MemoryLayout.SlotsDisjoint` | lib/common/nvme_mem.c:434-436 | Different slots do not overlap, in one heap or in two. |
| `MemoryLayout.InsideHugepage` | lib/common/nvme_mem.c:371 | The slots of a heap lie inside its hugepage. |
| `MemoryLayout.SlotAligned` | lib/common/nvme_mem.c:434-436 | A slot is aligned to every power of two up to its size. |
| `MemoryLayout.SlotExists` | lib/common/nvme_mem.c:529 | Every address in a hugepage lies in the slot found by the shift. |
| `MemoryLayout.MemstatTotal` | lib/common/nvme_mem.c:684-690 | The slots of all pools add up to hugepage count times hugepage size. |
| `MemoryUse.HeapUse` | lib/common/nvme_mem.c:433-447 | Every slot of a heap is free or holds a live object. |
| `MemoryUse.PoolUse` | lib/common/nvme_mem.c:537-547 | So it is for the counters of a pool. |
| `MemoryUse.BytesUse` | lib/common/nvme_mem.c:684-690 | Over all pools, bytes that are not free are a slot for every live object. |
| `MemoryUse.ObjectCounted` | lib/common/nvme_mem.c:433-447 | Each live object is counted in one pool. |
| `AllocatorObject.Allocator.constructor` | lib/common/nvme_mem.c:698-742 | The object starts with 15 empty pools and an empty hash table. |
| `AllocatorObject.Allocator.Search` | lib/common/nvme_mem.c:265-284 | The hash search finds a hugepage exactly when a registered one contains the address. |
| `AllocatorObject.Allocator.VtoPhys` | lib/common/nvme_mem.c:633-644 | Translates exactly the addresses in registered hugepages; inside a live object it continues the physical address its allocation returned. |
| `AllocatorObject.Allocator.TakeSlot` | lib/common/nvme_mem.c:433-447 | Refines the taking of a slot. |
| `AllocatorObject.Allocator.PutSlot` | lib/common/nvme_mem.c:537-547 | Refines the giving back of a slot. |
| `AllocatorObject.Allocator.DropHeap` | lib/common/nvme_mem.c:495-504 | Refines the dropping of a heap. |
| `AllocatorObject.Allocator.Grow` | lib/common/nvme_mem.c:352-397 | Refines the adding of a heap; without a hugepage nothing changes. |
| `AllocatorObject.Allocator.TakeFirst` | lib/common/nvme_mem.c:425-447 | The object is the least free slot of the heap; the branch without a free object is unreachable. |
| `AllocatorObject.Allocator.PoolAlloc` | lib/common/nvme_mem.c:402-457 | Fails exactly when the pool has no free slot and no hugepage is to be had, and then changes nothing; otherwise adds one live object of the pool. |
| `AllocatorObject.Allocator.Shrink` | lib/common/nvme_mem.c:462-509 | The scan keeps the first empty heap of the use list, drops only empty ones, and leaves at most one. |
| `AllocatorObject.Allocator.PoolFree` | lib/common/nvme_mem.c:514-558 | Removes the live object of the slot, or changes nothing when there is none. |
| `AllocatorObject.Allocator.AllocNode` | lib/common/nvme_mem.c:563-600 | Succeeds exactly when the smallest pool that fits has a slot or a hugepage can be had; adds one live object of that pool; otherwise changes nothing. |
| `AllocatorObject.Allocator.Free` | lib/common/nvme_mem.c:614-628 | The live object the address lies in is gone; any other address changes nothing. |
| `AllocatorObject.Allocator.MemStat` | lib/common/nvme_mem.c:667-693 | Total bytes are hugepages times hugepage size, and total minus free is a slot for every live object. |
| `AllocatorObject.PickPool` | lib/common/nvme_mem.c:584-593 | Picks the smallest of the 15 pools that fits size and alignment, or none does; beyond 2^63 bytes the rounding wraps and pool 0 is picked. |
| `AllocatorObject.PoolRange` | lib/common/nvme_mem.c:563-593 | There is a pool exactly for sizes from 1 byte to 2 MB with alignment 0 or a power of two up to 2 MB, and beyond 2^63; its slots of 2^(7 + i) bytes hold the request, those half as large would not. |
| `AllocatorObject.WrapsToSmallest` | lib/common/nvme_common.h:292-303 | One byte more than 2^63 goes to the pool of 128-byte slots. |
| `Bits.IsPow2Exact` | lib/common/nvme_common.h:284-287 | The test recognises exactly the powers of two. |
| `Bits.AlignPow2` | lib/common/nvme_common.h:292-303 | Least power of two at or above the argument for 1 to 2^63; 0 outside, by wrap-around. |
| `Bits.Smear` | lib/common/nvme_common.h:296-301 | Each shift-or doubles the run of ones at the top. |
| `Bits.SmearAll` | lib/common/nvme_common.h:296-301 | The six of them fill all bits below the top one. |
| `Bits.Log2` | lib/common/nvme_common.h:308-319 | Exact exponent of a power of two, 0 otherwise. |
| `Bits.BitUpdate` | lib/common/nvme_common.h:332-351 | Setting or clearing a bit changes that bit and no other. |
| `Bits.WordFull` | lib/common/nvme_common.h:357-374 | A word of ones is 64 set bits. |
| `Bits.FindFirstZero` | lib/common/nvme_common.h:357-374 | The word-skipping search returns the least clear bit below the limit, or -1 when all are set. |
| `Bits.CountUpdate` | lib/common/nvme_mem.c:440-441 | Setting a clear bit takes one off the number of clear bits, clearing it puts it back. |
| `ControllerObject.Controller.Enable` | lib/nvme/nvme_ctrlr.c:317-370 | Sets EN only from 0, with RDY 0 when called so, and fails exactly on EN 1 or an unsupported arbitration mechanism. |
| `ControllerObject.Controller.Disable` | lib/nvme/nvme_ctrlr.c:375-383 | Clears EN. |
| `ControllerObject.Controller.SetState` | lib/nvme/nvme_ctrlr.c:412-421 | Enters a state with its deadline. |
| `ControllerObject.Controller.InitState` | lib/nvme/nvme_ctrlr.c:869-922 | Leaves the initial state or fails on arbitration only. |
| `ControllerObject.Controller.CheckTimeout` | lib/nvme/nvme_ctrlr.c:977-985 | Fails only after the ready timeout has passed in the state, and never while RDY catches up within it. |
| `ControllerObject.TimeLeft` | lib/nvme/nvme_ctrlr.c:977-985 | While RDY has had no chance to catch up, a prompt controller has time left. |
| `ControllerObject.Controller.Step` | lib/nvme/nvme_ctrlr.c:859-986 | Every call keeps registers and state consistent, never enables with EN 1, panics only if called when ready, and otherwise lowers the rank, waits before its deadline, or fails. |
| `ControllerObject.Controller.UntilReady` | lib/nvme/nvme_ctrlr.c:1125-1129 | The attach and reset loops end; success is exactly READY, with EN and RDY 1, and is certain when arbitration is supported, starts succeed and RDY always catches up within the ready timeout. |
| `ControllerObject.Controller.OnlyHandshakes` | lib/nvme/nvme_ctrlr.c:317-383 | In every state reached, EN was cleared only while EN and RDY were 1 and set only while both were 0. |
| `ControllerObject.Controller.Reset` | lib/nvme/nvme_ctrlr.c:991-1033 | Does nothing when resetting or failed; success is exactly not failed, means one full handshake (clear, if EN was 1, then set), and on such a controller is exactly that all queue pairs were created again. |

## Left out

- The admin queue pair: its enable path is entered again by the commands it aborts, and only I/O
  queue pairs go through the reset and drain properties.
- Builder rejection of a child of a split, and submission of a split to a failed controller: the
  code does not return the parent to the pool there, and the queue-pair model assumes neither happens.
- Callbacks that submit new requests from inside a completion.
- IoPath.IoServed: the data-pointer builder accepts every command of the I/O.
- SplitBuild.Rw: logical block addresses do not wrap at 2^64.
- Allocator: hugepages of less than 2 MiB, where some pools would have no slot per hugepage.
- Allocator: the forced shrink, clean-up and the page map read for addresses outside hugepages.
- Tear-down of queue pairs and controllers, the counter of enabled queue pairs.
- Admin commands, features, log pages, quirks and their delays, device discovery, logging.
- MMIO primitives, memory barriers, locks: each locked section is one atomic step.
- Sizes of machine words other than those written out: ring indices, 32-bit offsets and sizes in
  splitting, the 8-bit child counter, 64-bit rounding.
