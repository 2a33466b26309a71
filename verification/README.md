# Models of the cluster tools

This project models the stateful cores of four programs in one repository: the
BJS batch scheduler, the XCPU remote execution tools, the cellfs file server for the
Cell processor, and the xget file distributor. Each Dafny file is one component.
`dafny verify dfyconfig.toml` checks all of them.

How the files hang together:

- `Timeline.dfy` is the step function of free nodes that a filler pass builds;
  `FillerPool.dfy` is a pass on values, `FillerSafety.dfy` its safety; `Filler.dfy` is
  the same pass as loops that update queue and event list, proved equal to it;
  `NoDelay.dfy` is the promise to the first waiting job over whole runs. `SharedPool.dfy` and
  `SimplePool.dfy` are the other two policies, and `PolicyLoop.dfy` the loop that runs
  all of them until nothing changes. `Allocator.dfy` is the pair of circular pointer
  lists behind every node allocation, and `PoolNodes.dfy` its agreement with what the
  queues say their jobs hold.
- `SexpSpec.dfy` defines s-expressions, their text and the resumable parser;
  `SexpLayout.dfy` proves what the parser makes of any text of a list, `SexpRoundTrip.dfy`
  of printed text and of text in chunks; `SexpParser.dfy` and
  `SexpPrinter.dfy` are the parser object, the receiving client, the two printers and
  the length estimate.
- `TreeSpawn.dfy` is the group arithmetic of tree spawn and its recursion, `Tspawn.dfy`
  the node that carries it out. `QuoteSpec.dfy` and `Quote.dfy` are argument quoting and
  in-place tokenizing. `Ldd.dfy` is the shared-library closure.
- `PipeFs.dfy` is the pipe with back-pressure, `CbeSlots.dfy`, `CbeHandler.dfy`
  and `CbeConnection.dfy` the eight DMA request slots, the completion handler over runs and
  the object, `FidPool.dfy` the fid hash table, `XgetRing.dfy` the ring of workers.
  `Basics.dfy` holds what several files use.

What the models share:

- The world is a parameter: clock readings, ELF contents, packets, the order of
  callbacks and completions, what a peer sends. Integers are unbounded; no proof relies
  on a width except where a constant is named.
- A method that changes state is proved equal to a function on values, and the
  properties are lemmas about that function over all inputs or all runs.
- In the scheduler a pass reads the clock once, but a job that is started is stamped
  by a second reading. The model lets that stamp lie any number of seconds later; the
  promise to a waiting job then moves by at most that delay, and not at all if there is
  none.
- Priorities are always 0 in the repository, so tests on them are left away. A pool's
  nodes are the node table, since the policies use table positions as node numbers.

Where the code differs from what is said about it, the code is modelled:

- `bjs_node_usable` does not ask whether a node is up (bjs/bjs.c:392-405), although
  bjs/bjs.h:216 says so. A simple pool can therefore start a job on fewer nodes than it
  asked for: `SimplePool.ShortStart` is such a pass, `SimplePool.PassServesIff` the exact
  condition before it.
- `bjs_job_free` asserts that the job still has nodes (bjs/bjs.c:623), and `bjs_job_remove`
  frees a job right after taking all of them (`Allocator.KilledHasNoNodes`,
  `Allocator.RunAndKill`). The assertion says the contrary of what it should; it is not
  compiled, because bjs/bjs.c:41 defines NDEBUG before assert.h is included, and removal is
  modelled without it.
- `simple_schedule` does not report that it started jobs (bjs/simple.c:177-181). The
  policy loop still ends quiet (`PolicyLoop.SimplePassLowers`).
- Quoting loses empty arguments and splits bare ones at newlines: `QuoteSpec.RoundTrip`
  is the exact condition, `QuoteSpec.LostArguments` one list of each kind.
- A pipe write can overtake postponed ones: `PipeFs.WritersInOrderIff` says exactly when,
  and `PipeFs.OvertakingHappens` is such a run. A call of `pipe_do` serves one reader at
  most, so a second one can wait although bytes are buffered: `PipeFs.LeftWaitingIff` and
  `PipeFs.SecondReaderWaits`.
- A refused packet loses DMA slots for good: `CbeHandler.LostIffRefused` says which, and
  `CbeHandler.SlotIsLost` is such a run. It also keeps from the SPE what ended in the same
  call: `CbeHandler.UntoldIff` and `CbeHandler.TagIsUntold`.
- The redirect scan can pass over the wanted level: `XgetRing.WantedLevelCanLose` and, in a
  ring, `XgetRing.WantedLevelLoses`, with the exact condition in `XgetRing.ChoiceIsRight`.
- The bound of `sexp_snprint` is not looked at right behind a space between atoms
  (bjs/sexp.c:521-522): `SexpPrinter.SexpSnprint` says what is printed for every bound, and
  `SexpPrinter.BoundIsPassed` when that is more than the bound, with a list.
- `bjs_send_sx` prints without a bound into exactly `sexp_strlen` bytes
  (bjs/client.c:87-89). The text and its NUL fit if and only if the list has an atom
  somewhere (`SexpPrinter.EstimateIsEnough`); without one, as in the empty list, the NUL is
  one byte further.
- A parser's byte limit is cleared when an expression is complete (bjs/sexp.c:106 and 251),
  so it holds for the first one: `SexpRoundTrip.LimitIsForFirst`.
- `tokenize` returns its error code EIO as a positive number (xcpu1.2.3/libstrutil/tokenize.c:51-61),
  which is also the count of a line of five tokens: `Quote.EioIsFiveTokens`.
- `xp_ldd` looks for a name with the search list of whichever file asks first
  (xcpu1.2.3/libxcpu/ldd.c:149-175), so a later file can mean another library than the one
  listed: `Ldd.AskedFirst`, `Ldd.ClosureIsLeast` and the walk `Ldd.OtherMeaning`.

## Model

| member | source | states |
|---|---|---|
| Timeline.Schedule.AddSchedEvent | bjs/filler.c:102-128 | The free-node step function changes by exactly adj on [time, infinity) and nowhere else; the event times gain time and nothing else; times stay strictly increasing from 0. |
| Timeline.Schedule.FindHole | bjs/filler.c:131-146 | The result is the least start over all times, event times or not, whose closed interval [start, start+time] always has enough nodes; -1 exactly when there is none. An exact fit up to the next event is refused, as the strict comparison does. |
| Timeline.Schedule.constructor | bjs/filler.c:189-192 | At the beginning every time has all the up nodes. |
| Timeline.InsertKeepsLevels | bjs/filler.c:105-123 | Splitting a segment at a new time changes no value of the step function. |
| Timeline.AdjustedLevels | bjs/filler.c:125-127 | Adding adj to every later event shifts the function from that time on, and only there. |
| FillerSafety.PassIsSound | bjs/filler.c:156-251 | A pass started from a well-formed pool (running jobs hold exactly their requested number of distinct up nodes, none shared, waiting jobs hold none) never makes the timeline negative at any time, keeps its value at 0 equal to the number of idle up nodes, and ends in a well-formed pool. |
| FillerSafety.PassPlacesEveryJob | bjs/filler.c:212-239 | Turn by turn over the whole pass: the schedule is sound before and after; a job that runs or cannot run is passed over; any other gets a reservation, never -1, at the earliest hole left; if that is 0 it starts with exactly its number of distinct nodes that were up and idle, else nothing else changes; and what the turn makes of the job is what the pass ends with. |
| FillerSafety.OnlyRunnableAreServed | bjs/bjs.c:232-279 | In the job's own fields: a turn of the pass makes one reservation for a job that has not started, is ready and wants no more nodes than are up, and none for any other; the pass starts no other. |
| FillerSafety.UpToIsSound | bjs/filler.c:212-239 | Soundness after any number of turns. |
| FillerSafety.SweepKeepsSound | bjs/filler.c:212-239 | Soundness for any remaining part of the loop over the queue. |
| FillerSafety.SweepJobKeepsSound | bjs/filler.c:213-238 | Soundness for one turn of that loop, whether the job is skipped, reserved or started. |
| FillerSafety.AdmitKeepsSound | bjs/filler.c:225-238 | The same for one admission at a hole. |
| FillerSafety.StartIsSound | bjs/filler.c:168-208 | It holds once the expired jobs are gone and the running ones are on the timeline. |
| FillerSafety.StartTakesIdleNodes | bjs/filler.c:227-234 | A job whose hole is at 0 is given exactly its requested number of distinct nodes, all up and idle until then. |
| FillerSafety.HoleNeverMissing | bjs/filler.c:131-146 | A job that wants no more nodes than are up always gets a reservation, never -1: at the least second from which that many are left up to and including the second at which its time is over. |
| FillerSafety.ReserveHole | bjs/filler.c:225-226 | The two events of a reservation keep every value non-negative and lower the value at 0 exactly when the hole is at 0. |
| FillerSafety.KillKeepsWellFormed | bjs/filler.c:168-180 | Exactly the expired jobs leave, and the allocation invariant survives. |
| FillerSafety.HeldCount | bjs/filler.c:194-208 | The nodes held are as many as the running jobs asked for together, and all of them are up. |
| FillerSafety.NoSharingPairwise | bjs/filler.c:229-234 | No two jobs of the pool hold a common node. |
| FillerSafety.TakeIdleIsIdle | bjs/filler.c:229-234 | The search takes distinct idle nodes only. |
| FillerSafety.TakeIdleIsLowest | bjs/filler.c:229-234 | The nodes taken are the idle ones of lowest index, in ascending order. |
| FillerSafety.TakeIdleCount | bjs/filler.c:229-234 | It takes as many as asked whenever that many are idle. |
| FillerSafety.StartKeepsWellFormed | bjs/filler.c:227-238 | Starting a job on idle nodes keeps the allocation invariant. |
| FillerSafety.StartTakesFromIdle | bjs/filler.c:229-234 | The number of idle nodes falls by exactly what the job asked for. |
| FillerSafety.RunningUse | bjs/filler.c:194-208 | The running jobs together take, at 0, exactly what they hold and never more later. |
| FillerPool.HoleExists | bjs/filler.c:131-146 | The specification of a hole can always be met, by a time or by -1. |
| Filler.PoolQueue.Schedule | bjs/filler.c:157-251 | The loops over queue, node table and event list compute exactly the value-level pass, and the result says whether a job was killed or started. |
| Filler.PoolQueue.Backfill | bjs/filler.c:212-239 | The loop over the waiting jobs ends with the queue the value-level sweep gives, and reports whether any job started. |
| Filler.PoolQueue.Submit | bjs/filler.c:36-60 | A request is accepted exactly when it asks for between 1 and all nodes of the pool; an accepted job goes to the end, a refused one changes nothing. |
| Filler.PoolQueue.Timeout | bjs/filler.c:72-93 | A timeout is wanted exactly when a job runs; no job expires before it, and one does when it is over. |
| Filler.PoolQueue.KillExpiredJobs | bjs/filler.c:168-180 | Removing while walking leaves exactly the jobs that have not expired, in order, and reports whether any went. |
| Filler.PoolQueue.CountUp | bjs/filler.c:182-187 | The number of up nodes. |
| Filler.PoolQueue.PlaceRunning | bjs/filler.c:189-208 | The event list agrees at every time with the reservations of the running jobs. |
| Filler.PoolQueue.Admission | bjs/filler.c:213-238 | One turn is one turn of the value-level sweep; the event list keeps agreeing with the reservations. |
| Filler.PoolQueue.TakeNodes | bjs/filler.c:228-234 | Lowest indices first, the job receives the first idle nodes of the table. |
| Filler.PoolQueue.IsIdle | bjs/bjs.c:380-384 | A node is idle exactly when it is up and no job holds it. |
| Filler.HolesAgree | bjs/filler.c:221-221 | The hole found in the event list is the hole of the reservations it stands for. |
| Filler.KillRemovesExpired | bjs/filler.c:168-180 | The queue shrinks exactly if some job had expired. |
| NoDelay.PromiseIsKept | bjs/filler.c:156-251 | A pass promises the first runnable waiting job an absolute start; after any passes, submissions and departures with fixed up nodes through which it waits, a pass promises it a start no later than that plus the delays of start stamps since, and starts it if that time has come. |
| NoDelay.FirstPromise | bjs/filler.c:212-239 | The pass that makes the promise starts the job or leaves it assured of room from then on. |
| NoDelay.RunNeverDelays | bjs/filler.c:156-251 | Over any steps during which the job waits, the time from which it is assured of room moves by the sum of the delays of the start stamps and by nothing else. |
| NoDelay.PassHonoursAssurance | bjs/filler.c:156-251 | One pass: the promise is no later than the assured time, the job starts if that has come, and otherwise the assurance carries over. |
| NoDelay.PassServesFirst | bjs/filler.c:212-239 | The first runnable waiting job starts exactly when its hole is at 0; otherwise it is still first, unchanged, and the pool has room for it from its promise on. |
| NoDelay.SweepKeepsPaid | bjs/filler.c:225-238 | Backfilling behind the first job starts nothing that would still hold the nodes promised to it. |
| NoDelay.RunningUseIsBusy | bjs/filler.c:194-208 | Capacity taken by running jobs is what they hold until they end, so it only falls with time; the rounding of a remaining time of at most 0 up to 1 is never taken, since such jobs were killed before. |
| NoDelay.RoomBoundsHole | bjs/filler.c:221-221 | Where the running jobs leave room from time t on, the hole of the first job is no later than t. |
| NoDelay.EnvironmentKeepsAssured | bjs/filler.c:36-69 | Submissions behind the job and departures of others, early or not, never take the assured room away. |
| NoDelay.LeaveKeepsWellFormed | bjs/filler.c:63-69 | Removing any job keeps the allocation invariant. |
| NoDelay.SweepReachesFirst | bjs/filler.c:213-216 | Nothing is reserved or started before the first runnable waiting job. |
| SharedPool.SharedSchedule | bjs/shared.c:77-125 | The method starts every runnable waiting job on the next nodes of a round robin over the up nodes, least loaded first; it reports and changes something exactly if there was such a job. |
| SharedPool.StartedJobsAreServed | bjs/shared.c:110-123 | Each started job holds exactly its requested number of distinct up nodes. |
| SharedPool.PassIsBalanced | bjs/shared.c:110-123 | With p placements on m up nodes each node gets floor(p/m) of them, and one more exactly for the p mod m nodes that were least loaded at the start. |
| SharedPool.PlacementsPerNode | bjs/shared.c:115-119 | How many of p consecutive placements fall on each place of the order. |
| SharedPool.PlaceIsDistinct | bjs/shared.c:115-119 | No more placements in a row than nodes: no node twice. |
| SharedPool.StartsAreOk | bjs/shared.c:112-123 | Every job is as it was or was runnable and got consecutive placements; nobody runnable waits at the end; the number of waiting jobs falls. |
| SharedPool.LoadAfterStarts | bjs/shared.c:112-123 | The allocations of a node grow by exactly the placements of the pass that fell on it. |
| SharedPool.FirstToStart | bjs/shared.c:53-64 | The least queue position of a runnable job that is not running. |
| SharedPool.FindFirstRunnable | bjs/shared.c:53-64 | The loop finds that position. |
| SharedPool.LeastLoaded | bjs/shared.c:93-108 | The up nodes, each once, in order of increasing number of allocations. |
| SharedPool.GiveNodes | bjs/shared.c:116-119 | The turning index hands out consecutive nodes and ends where the next job goes on. |
| SharedPool.StartNext | bjs/shared.c:113-122 | One job is served and the remaining starts are those of the pass. |
| SharedPool.OrderCovers | bjs/shared.c:99-104 | The order is as long as there are up nodes, so a runnable job never wants more. |
| SimplePool.SimpleSchedule | bjs/simple.c:119-182 | The method computes the simple pass; it reports killing but not starting. |
| SimplePool.PassServesIff | bjs/simple.c:152-180 | Over a whole pass from a well-formed pool: every job it starts gets all its nodes, and the pool stays well formed, if and only if, once the expired jobs are gone, each request of the runnable waiting jobs in queue order that fits the usable nodes still left (held by nobody) also fits the idle ones still left (up as well), down to the first that does not fit the usable ones. |
| SimplePool.PassServesSum | bjs/simple.c:152-180 | Read off the finished pass, that is so if and only if the jobs it started ask together for no more nodes than were idle. |
| SimplePool.StartTakesUsable | bjs/simple.c:157-177 | A start that idle nodes suffice for lowers the number of usable nodes by the request. |
| SimplePool.FirstAsks | bjs/simple.c:152-156 | Once the first runnable waiting job has started, the requests that are left are the tail. |
| SimplePool.PassServesWhenUp | bjs/simple.c:152-180 | With every node up this is always so. |
| SimplePool.StartIsExact | bjs/simple.c:157-177 | A start that idle nodes suffice for keeps the pool well formed and uses up that many; any other leaves a running job short. |
| SimplePool.StartedInFull | bjs/simple.c:157-177 | A started job gets all its nodes exactly when that many are idle. |
| SimplePool.ShortStart | bjs/simple.c:119-182 | Such a pass: with one node busy, one idle and one down, a whole pass over a well-formed pool leaves a running job with fewer nodes than it asked for. |
| SimplePool.UsableIsIdleWhenUp | bjs/bjs.c:392-405 | Usable means held by nobody, up or not (the header says up as well); the two agree when every node is up. |
| SimplePool.StartingStops | bjs/simple.c:152-181 | A pass ends with nobody runnable waiting, or with a first one that wants more than the usable nodes; no job it leaves has expired. |
| SimplePool.CountFreeNodes | bjs/simple.c:72-78 | The number of nodes no job holds. |
| PolicyLoop.RunPolicies | bjs/bjs.c:2553-2565 | The loop over all policies ends. With the clock fixed, every pool is quiet at its end: no filler pass would kill or start, no simple job has expired and its first runnable job does not fit, no shared job runnable waits. Over the whole loop every job has become what one call of its policy can make of it: gone if its time was over (never in a shared pool), else as it was, or started now on distinct up nodes, in the old order. |
| PolicyLoop.Round | bjs/bjs.c:2558-2563 | A round makes of the jobs of each pool what its policy can; if it changes something it lowers jobs plus waiting jobs, and if not all pools are quiet. |
| PolicyLoop.RunPolicy | bjs/bjs.c:2561-2562 | The same for one policy. |
| PolicyLoop.FillerOutcome | bjs/filler.c:156-251 | What a filler pass makes of every job, in the job's own fields: the jobs whose time is over are gone and the others stay in order; each is as it was, or had not started, was ready and wanted no more nodes than are up, and is now the same job, started now, with as many distinct up nodes as it asked for. |
| PolicyLoop.SimpleOutcome | bjs/simple.c:119-182 | The same for a simple pass, but that a job may have been given fewer nodes. |
| PolicyLoop.SharedOutcome | bjs/shared.c:77-125 | The same for a shared pass, in which no job leaves. |
| PolicyLoop.OutcomeTwice | bjs/bjs.c:2553-2565 | Two calls of a policy at the same clock reading make of every job what one can. |
| PolicyLoop.FillerPassLowers | bjs/filler.c:157-251 | A filler pass that reports something lowers jobs plus waiting jobs; one that does not changes nothing. |
| PolicyLoop.SimplePassLowers | bjs/simple.c:119-182 | The same for the simple policy, although it does not report starts: right after its pass nothing is left to do. |
| PolicyLoop.SharedPassLowers | bjs/shared.c:77-125 | The same for the shared policy. |
| PolicyLoop.QuietFillerReservesAll | bjs/filler.c:212-239 | In a quiet filler pool every runnable waiting job has, after the reservations of the jobs before it, its earliest hole later than now. |
| PolicyLoop.QuietFillerIsFull | bjs/filler.c:212-239 | In a quiet filler pool the first runnable waiting job wants more nodes than are idle. |
| Allocator.AddTailKeepsRing | bjs/bjs_list.h:64-67 | list_add_tail turns a circular list into one with the entry at its end. |
| Allocator.AddTailElsewhere | bjs/bjs_list.h:33-41 | It leaves every circular list without common elements alone. |
| Allocator.DelKeepsRing | bjs/bjs_list.h:76-91 | list_del leaves a circular list of the other elements in order. |
| Allocator.DelElsewhere | bjs/bjs_list.h:76-91 | It leaves disjoint circular lists alone. |
| Allocator.RingEnds | bjs/bjs_list.h:107-110 | A list is empty exactly when its head points to itself; next and prev of the head are the first and last elements. |
| Allocator.NodeTable.Allocate | bjs/bjs.c:282-302 | Refused exactly for an index out of range or a node that is down; otherwise the allocation is at the end of both its lists. All lists stay well-formed circular lists. |
| Allocator.NodeTable.Deallocate | bjs/bjs.c:354-361 | The allocation is off both lists, and its node is handed to cleaning exactly if its list is now empty, as read off the pointers. |
| Allocator.NodeTable.JobKill | bjs/bjs.c:682-692 | Releasing the first allocation while there is one is the value-level kill. |
| Allocator.NodeTable.JobRemove | bjs/bjs.c:696-728 | Kill, then the job is gone; each node has been cleaned once more exactly if the job alone was on it. |
| Allocator.NodeTable.KillNode | bjs/bjs.c:365-378 | Walking the node's list while its elements are removed removes the jobs on it one by one; a node has been cleaned once more exactly if only such jobs were on it. |
| Allocator.NodeTable.AddJob | bjs/bjs.c:649-652 | A new job has an empty list; all others are as before. |
| Allocator.AssignedIsConsistent | bjs/bjs.c:298-302 | An allocation stays on its job's list iff it is on its node's list, once, and on no other list. |
| Allocator.ReleasedIsConsistent | bjs/bjs.c:354-361 | The same after a release. |
| Allocator.ReleaseLinks | bjs/bjs.c:354-359 | Both list_del calls on memory keep all lists circular, and the emptiness test on the pointers is the emptiness of the list. |
| Allocator.KillEmptiesJob | bjs/bjs.c:684-690 | After a kill the job's list is empty and other jobs' lists are unchanged. |
| Allocator.KillFreesAll | bjs/bjs.c:684-690 | Exactly the allocations of the job are gone. |
| Allocator.KilledHasNoNodes | bjs/bjs.c:608-625 | Behind bjs_job_kill the list of the job is empty as read off its pointers, so what the assertion in bjs_job_free asks for never holds when bjs_job_remove frees the job. |
| Allocator.HasNodesIff | bjs/bjs.c:623-623 | What it asks for holds exactly while the job has allocations. |
| Allocator.RunAndKill | bjs/bjs.c:719-727 | A job on one node: it holds before the kill and not after it. |
| Allocator.NodeTable.NodeStatus | bjs/bjs.c:2232-2236 | A node that goes down or comes up keeps its allocations and all lists. |
| Allocator.KillLeavesOthers | bjs/bjs.c:684-690 | Every node's list holds exactly the other jobs' allocations, in order. |
| Allocator.KillCleansOnce | bjs/bjs.c:358-359 | A node is cleaned once if the job was alone on it, and else not at all. |
| Allocator.RemovedIs | bjs/bjs.c:696-728 | After a removal exactly the allocations of other jobs are left, on every node in their order, and the other jobs' lists are as before. |
| Allocator.RemovedCleansOnce | bjs/bjs.c:354-361 | A removal hands a node to cleaning once if something was on it and all of it was the job's, and else not at all. |
| Allocator.NodeKilledCleansOnce | bjs/bjs.c:365-378 | Killing a node hands to cleaning, once each, the nodes on which there was something and only jobs of the node killed, and no others. |
| Allocator.GoesWithItself | bjs/bjs.c:365-378 | The node killed is one of them exactly if something was on it. |
| Allocator.NodeKilledIsFree | bjs/bjs.c:365-378 | After bjs_kill_node the node's list is empty; exactly the jobs that were on it are gone; the others keep all their nodes. |
| Allocator.FirstJobRemoved | bjs/bjs.c:372-377 | Removing the first job takes exactly the first element off the list, so the next pointer read before it stays valid. |
| PoolNodes.IdleAgrees | bjs/bjs.c:380-384 | Where queues and allocation lists agree, a node is idle for the queues exactly if it is up and its list in memory is empty. |
| PoolNodes.HoldsIffListed | bjs/bjs.c:298-302 | A job holds a node exactly if one of its allocations is on that node's list. |
| PoolNodes.OnceIsOnce | bjs/bjs.c:372-377 | Where no job holds a node twice, no job is on any node's list twice, which is what the walk of bjs_kill_node needs. |
| PoolNodes.FillerHoldsOnce | bjs/filler.c:228-234 | After a filler pass no job holds a node twice. |
| PoolNodes.SharedHoldsOnce | bjs/shared.c:112-123 | Nor after a shared pass. |
| PoolNodes.SimpleHoldsOnce | bjs/simple.c:153-180 | Nor after the starts of a simple pass. |
| PoolNodes.SubmitAgrees | bjs/bjs.c:649-652 | A new job keeps queues and lists in agreement. |
| PoolNodes.AllocateAgrees | bjs/bjs.c:298-302 | So does one allocation. |
| PoolNodes.StartAgrees | bjs/filler.c:228-234 | So does starting a job, one allocation after the other. |
| PoolNodes.StampAgrees | bjs/bjs.c:591-603 | So does stamping its start. |
| PoolNodes.RemoveAgrees | bjs/bjs.c:696-728 | So does removing a job with all its allocations. |
| SexpRoundTrip.ParsePrinted | bjs/sexp.c:201-290 | Printed text of a list with non-empty NUL-free atoms parses back to that list and uses up exactly its text, if and only if it nests at most 99 deep and costs no more than the byte limit; otherwise the parser fails. |
| SexpRoundTrip.ParsePrintedChunks | bjs/sexp.c:201-290 | The same for every way of cutting the text into calls. |
| SexpRoundTrip.ChunkingIsIrrelevant | bjs/sexp.c:201-290 | For any text and any state, feeding chunks gives what feeding their concatenation gives. |
| SexpRoundTrip.ParseInTwo | bjs/sexp.c:201-290 | The parser can be stopped and resumed at any character, inside escapes as well. |
| SexpLayout.ParseSpelled | bjs/sexp.c:201-290 | Any text of a list, printed or not: with any of the six white space characters before each element and parenthesis, at least one between two atoms, and a backslash before any character, it parses to the list it stands for and is used up exactly, if and only if that nests at most 99 deep and costs no more than the byte limit. |
| SexpLayout.ReadPieces | bjs/sexp.c:201-290 | Inside any open lists, the text of elements reads as what it stands for exactly when that fits the stack and the limit. |
| SexpLayout.ReachNext | bjs/sexp.c:252-268 | White space or a parenthesis ends an atom, and white space is passed over. |
| SexpLayout.ReadChars | bjs/sexp.c:269-286 | Inside an atom characters read as themselves, with a backslash or without. |
| SexpRoundTrip.PlainIs | bjs/sexp.c:548-582 | Printed text is such a text of the elements printed. |
| SexpRoundTrip.EscapesAre | bjs/sexp.c:522-535 | A text is printed as it is exactly if it has none of the nine characters that need a backslash. |
| SexpRoundTrip.CloseWithoutOpen | bjs/sexp.c:235-240 | A parenthesis that closes nothing is an error. |
| SexpRoundTrip.StopsAtNul | bjs/sexp.c:205-207 | A NUL stops the parser with the text before it read, and is left over. |
| SexpRoundTrip.TextOfElements | bjs/sexp.c:548-582 | A space goes between two atoms and nowhere else. |
| SexpRoundTrip.CostIs | bjs/sexp.c:135-155 | What counts against the limit is 24 for each element, and the text of an atom with its NUL. |
| SexpRoundTrip.TextIsInjective | bjs/sexp.c:548-582 | Two lists with the same text are the same. |
| SexpRoundTrip.ReadManyPrinted | bjs/client.c:96-124 | A concatenation of texts is read as exactly that sequence of lists, each read stopping where the next text begins. |
| SexpRoundTrip.LimitIsForFirst | bjs/sexp.c:93-108 | Of two lists, one after the other, the byte limit bounds the first alone: both come through exactly if the first keeps to it, whatever the second costs. |
| SexpParser.Parser.ParseChunk | bjs/sexp.c:201-290 | The loop over one chunk computes the specified parse: characters used, expression if complete, fields carried over. |
| SexpParser.Parser.Turn | bjs/sexp.c:208-286 | One switch on the state is one step of the specification. |
| SexpParser.Parser.Charge | bjs/sexp.c:135-155 | An element is refused exactly when it would exceed a limit that is set; otherwise its size is added. |
| SexpParser.Parser.Limit | bjs/sexp.c:121-123 | The limit is set and all else stays, so it counts what has been read already. |
| SexpParser.NewClientParser | bjs/bjs.c:1043-1048 | A new client of the scheduler has a fresh parser with the limit 10240, which is where ParsePrinted and LimitIsForFirst start from. |
| SexpParser.Parser.CompleteAtom | bjs/sexp.c:157-170 | The atom goes to the end of the innermost open list unless the limit forbids it. |
| SexpParser.Parser.AddToAtom | bjs/sexp.c:172-199 | One more character, unless the limit forbids it. |
| SexpParser.Client.Recv | bjs/client.c:96-124 | However reads cut the stream, the next complete expression is delivered, what follows is kept for the next call, and end of input in the middle of an expression is a failure. |
| SexpParser.ReceiveAll | bjs/client.c:96-124 | On a connection that delivers the texts of some lists, cut into reads anywhere, as many calls of the receiver return exactly these lists, in order, and leave what follows. |
| SexpParser.NulStops | bjs/sexp.c:205-207 | The parser leaves text over without an expression only at a NUL, and called again it stops there again. |
| SexpParser.NoNulNoRest | bjs/client.c:107-120 | Without NUL bytes a chunk that completes nothing is used up, so the receive loop makes progress. |
| SexpPrinter.SexpPrint | bjs/sexp.c:548-582 | The stack-driven printer writes the recursive text; it fails exactly when the tree exceeds the stack. |
| SexpPrinter.SexpSnprint | bjs/sexp.c:499-546 | For any bound, none included: what is printed is the text up to the bound, except that a bound right behind the space between two atoms is not looked at and the whole text is printed; the NUL follows, nothing behind is touched, and the length is returned. -1 only for trees beyond the stack. |
| SexpPrinter.BoundIsPassed | bjs/sexp.c:521-522 | More than the bound is printed exactly if it lies right behind the space between two atoms and text follows; "(a b)" with the bound 3 is printed in full, five characters. |
| SexpPrinter.PutAtom | bjs/sexp.c:522-535 | The characters of an atom, escaped, stop exactly at the bound, between a backslash and its character as well. |
| SexpPrinter.SexpStrlen | bjs/sexp.c:465-497 | The loop computes the estimate, -1 exactly when the tree exceeds the stack. |
| SexpPrinter.EstimateIsEnough | bjs/client.c:87-89 | The estimate is the text's length plus one for each atom that no atom follows: never below the text, and room for the NUL exactly when there is an atom. The empty list has the text "()" and the estimate 2. |
| SexpPrinter.EstimateElements | bjs/sexp.c:465-497 | The same for the elements of a list in either printing state. |
| SexpPrinter.SexpString | bjs/sexp.c:584-592 | The buffer sized by the estimate holds the whole text and its NUL. |
| TreeSpawn.TreeReachesAll | xcpu1.2.3/xcpufs/tspawn.c:408-471 | Applied again to every clone list it emits, tree spawn ends and reaches each listed node exactly once. |
| TreeSpawn.LevelsNeeded | xcpu1.2.3/xcpufs/tspawn.c:408-471 | With cap c >= 1, d levels suffice exactly for node lists of at most c + c^2 + ... + c^d. |
| TreeSpawn.ChosenCapNeedsTwoLevels | xcpu1.2.3/utils/xrx.c:463-466 | The cap chosen is the least number whose square is not below N, and with it two levels always suffice. |
| TreeSpawn.GroupsCoverAll | xcpu1.2.3/xcpufs/tspawn.c:408-471 | Exactly min(cap, N) groups, or N without a cap, that take every node once, in order. The first one has the least size with which that many groups hold all nodes, none is larger, and of those with clones only the last may be smaller. |
| TreeSpawn.GroupArithmetic | xcpu1.2.3/xcpufs/tspawn.c:408-434 | At least one and at most N leaders, those with clones at most all of them, and the clone part never ends beyond the list: the clamp command.c adds has nothing to clamp. |
| TreeSpawn.CutLosesNothing | xcpu1.2.3/xcpufs/tspawn.c:437-459 | Cutting into groups of m loses and repeats no node. |
| TreeSpawn.CutSizes | xcpu1.2.3/xcpufs/tspawn.c:437-459 | It gives ceil(N/m) groups of at most m, the first one full if there are that many nodes. |
| TreeSpawn.ClonesAreFewer | xcpu1.2.3/xcpufs/tspawn.c:439-459 | Every clone list is shorter than the node list, so the recursion ends. |
| TreeSpawn.CeilDivIsQuotient | xcpu1.2.3/xcpufs/tspawn.c:412-430 | The number of groups of b needed for a is the quotient plus one if there is a remainder. |
| Tspawn.Spawn.Run | xcpu1.2.3/xcpufs/tspawn.c:387-479 | The loops fill slot k with group k, each once, and the spawn is over on return exactly when every copy was. |
| Tspawn.Spawn.StartCloning | xcpu1.2.3/xcpufs/tspawn.c:437-459 | The first loop fills the slots of the groups with clones. |
| Tspawn.Spawn.StartSingles | xcpu1.2.3/xcpufs/tspawn.c:461-471 | The second fills the rest, up to the last slot. |
| Tspawn.Spawn.Shape | xcpu1.2.3/xcpufs/tspawn.c:408-434 | The integer divisions give the specified leaders, group size and end. |
| Tspawn.Spawn.NodeCallback | xcpu1.2.3/xcpufs/tspawn.c:292-316 | A callback counts, and completes the spawn exactly if it is the last one and setup is over. |
| Tspawn.CompletesOnce | xcpu1.2.3/xcpufs/tspawn.c:291-316 | For any order of the n callbacks and the return of setup, the spawn is completed exactly once, at the last of them. |
| Tspawn.SpawnAll | xcpu1.2.3/xcpufs/tspawn.c:291-479 | The setup followed by one callback for each copy it left open completes the spawn once: not before the last of them, and with every slot holding its group. |
| Tspawn.GetNodes | xcpu1.2.3/xcpufs/tspawn.c:65-104 | Trailing commas dropped, the list is cut at every other comma. |
| Tspawn.CloneListRoundTrip | xcpu1.2.3/xcpufs/tspawn.c:258-263 | The list a leader is sent reads back as its clones. |
| Tspawn.SplitIs | xcpu1.2.3/xcpufs/tspawn.c:80-104 | The names have no comma and joined by commas they are the text that was cut. |
| Tspawn.TrailingCommasGo | xcpu1.2.3/xcpufs/tspawn.c:70-78 | However many commas are at the end, all are dropped. |
| QuoteSpec.RoundTrip | xcpu1.2.3/utils/xrx.c:169-210 | Quoting every argument, joining with single spaces and tokenizing gives the arguments back if and only if each one is non-empty and, if it contains a newline, also contains a space, tab or quote. |
| QuoteSpec.LostArguments | xcpu1.2.3/utils/xrx.c:169-210 | Neither ["x", ""] nor ["x", "a\nb"] comes back. |
| QuoteSpec.QuoteIs | xcpu1.2.3/libstrutil/quotestrdup.c:29-68 | An argument is quoted exactly if it has a space, a tab or a quote in it; then every quote in it is doubled and every other character stays. |
| QuoteSpec.SeparatorsCut | xcpu1.2.3/libstrutil/tokenize.c:60-66 | A space, a tab and a newline end a word alike. |
| QuoteSpec.SurvivorsTokenize | xcpu1.2.3/libstrutil/tokenize.c:30-71 | Arguments that survive are returned exactly, with any room for at least that many tokens. |
| QuoteSpec.TailSurvives | xcpu1.2.3/libstrutil/tokenize.c:51-66 | Whatever is cut out of a joined line is a text that would survive, so a lost argument can never be returned. |
| QuoteSpec.ReturnedSurvives | xcpu1.2.3/libstrutil/tokenize.c:30-71 | Every text cut out of a joined line is one that would survive, so an argument list with a lost argument never comes back as it was. |
| QuoteSpec.QuotedArgument | xcpu1.2.3/libstrutil/unquotestr.c:48-71 | A quoted argument before any rest of the line is one token with the original text. |
| QuoteSpec.BareArgument | xcpu1.2.3/libstrutil/unquotestr.c:34-46 | So is a bare one that survives. |
| QuoteSpec.EnoughSeps | xcpu1.2.3/libstrutil/tokenize.c:40-42 | The array sized by the separators has room for every argument. |
| Quote.QuoteStrDup | xcpu1.2.3/libstrutil/quotestrdup.c:29-68 | The counting loop sizes the buffer exactly, and the writing loop fills it with the quoted text and its NUL. |
| Quote.UnquoteStr | xcpu1.2.3/libstrutil/unquotestr.c:29-72 | The token is cut out in place and the rest of the line still stands where reading goes on; failure exactly when a quote is not closed. |
| Quote.UnquoteInPlace | xcpu1.2.3/libstrutil/unquotestr.c:48-71 | The writing index stays behind the reading one, so nothing unread is spoiled. |
| Quote.MoveDown | xcpu1.2.3/libstrutil/unquotestr.c:49-60 | One turn copies one character or one doubled quote and keeps that. |
| Quote.CutWord | xcpu1.2.3/libstrutil/unquotestr.c:34-46 | A NUL replaces the separator after a bare word. |
| Quote.TokenizeLine | xcpu1.2.3/libstrutil/tokenize.c:30-71 | All token pointers point at the specified tokens in the packed copy when it is done, and their number is returned; the number of EIO is returned, and no tokens handed out, exactly when the specification has no result. |
| Quote.EioIsFiveTokens | xcpu1.2.3/libstrutil/tokenize.c:51-71 | The number returned is that of EIO if and only if the line fails or has five tokens, with a line of each kind: a lone quote, and five letters. |
| QuoteSpec.FiveAndNone | xcpu1.2.3/libstrutil/tokenize.c:30-71 | The lone quote has no tokens form; the five letters are five tokens. |
| Quote.TakeToken | xcpu1.2.3/libstrutil/tokenize.c:51-66 | Cutting the next token leaves all earlier ones standing. |
| Quote.PackedCopy | xcpu1.2.3/libstrutil/tokenize.c:37-49 | The copy holds the line without leading separators, and the pointer array has one more place than separators. |
| Ldd.Deplist.Close | xcpu1.2.3/libxcpu/ldd.c:467-503 | The worklist that grows while it is walked ends for every library graph, cyclic or not; on success all is resolved; it fails only if the binary cannot be read or the walk comes to a name that is found nowhere or to a file that cannot be parsed. |
| Ldd.ClosureIsExact | xcpu1.2.3/libxcpu/ldd.c:490-503 | On success the names are the least set that contains what the binary needs and what the file found for each member needs. |
| Ldd.ClosureIsLeast | xcpu1.2.3/libxcpu/ldd.c:490-503 | The files found are in every set that has the binary and whatever its files find for the names they need. Each of them finds each name it needs where the list has it, if and only if no two of them mean different files by one name; then the files found are the least such set. |
| Ldd.OtherMeaning | xcpu1.2.3/libxcpu/ldd.c:368-449 | Such a walk: a binary and its first library need one name with different search lists, and what the library means is not on the list. |
| Ldd.AskedFirst | xcpu1.2.3/libxcpu/ldd.c:149-175 | A name is looked for with the search list of the first file, in the order the walk reads them, that needs it. |
| Ldd.FirstsAreFirst | xcpu1.2.3/libxcpu/ldd.c:149-175 | The list has, for each name asked for, what asked for it first, in the order of the asking. |
| Ldd.ReadFrom | xcpu1.2.3/libxcpu/ldd.c:490-503 | What is read first about a name comes from the first file that needs it. |
| Ldd.StepKeepsFiles | xcpu1.2.3/libxcpu/ldd.c:490-503 | A step locates only files that a closed set has. |
| Ldd.WalkSteps | xcpu1.2.3/libxcpu/ldd.c:490-503 | One step keeps: names distinct, each with the search list of what asked for it first, in order of the asking; the walked part resolved; no name and no file unreached. |
| Ldd.WalkIsBounded | xcpu1.2.3/libxcpu/ldd.c:490-503 | The list never outgrows the names that exist, so the walk ends. |
| Ldd.WantsOfAdd | xcpu1.2.3/libxcpu/ldd.c:149-175 | Appending absent names with the search list of the file at hand keeps the list at what was asked for first. |
| Ldd.Deplist.AddDep | xcpu1.2.3/libxcpu/ldd.c:149-175 | Appends the name exactly if it is not on the list. |
| Ldd.Deplist.FindDeps | xcpu1.2.3/libxcpu/ldd.c:177-237 | Adds what one file needs, and keeps the first interpreter and class found. |
| Ldd.Deplist.LocateDep | xcpu1.2.3/libxcpu/ldd.c:368-449 | The first file of the right class in the file's own search list, then the library path, the configured and the default directories. |
| Ldd.LocateInOrder | xcpu1.2.3/libxcpu/ldd.c:368-449 | The file's own search list is tried first, then the library path, the configured and the default directories, each in its order: where a directory is the first of all of them that has a file of the name and class, the result is the system root with a slash if there is one, that directory, a slash and the name. |
| Ldd.LocateNowhere | xcpu1.2.3/libxcpu/ldd.c:368-449 | Nothing is found if no directory of the four lists has it. |
| Ldd.FirstIsFirst | xcpu1.2.3/libxcpu/ldd.c:368-449 | A directory is passed over only if it has no file of the name and class; nothing is found only if none has. |
| Ldd.LibrariesAre | xcpu1.2.3/libxcpu/ldd.c:505-537 | Reported are exactly the files found that are not the interpreter. |
| Ldd.LibrariesInOrder | xcpu1.2.3/libxcpu/ldd.c:505-537 | In list order, one for each entry. |
| Ldd.Deplist.Paths | xcpu1.2.3/libxcpu/ldd.c:505-537 | The binary, then every library found but the interpreter, in list order. |
| Ldd.StepKeepsReached | xcpu1.2.3/libxcpu/ldd.c:490-503 | A step adds only names the binary reaches. |
| PipeFs.RunServesInOrder | cellfs/trunk/cellfs/pipefs.c:179-296 | Over any run: bytes delivered followed by bytes buffered are the accepted writes in acceptance order; readers are answered in arrival order; a writer is postponed only while at least 32768 bytes are accounted. |
| PipeFs.WritersInOrderIff | cellfs/trunk/cellfs/pipefs.c:267-296 | Writes are accepted in arrival order if and only if no write arrives while others are postponed and no more than 32768 bytes are accounted. |
| PipeFs.OvertakingHappens | cellfs/trunk/cellfs/pipefs.c:234-295 | A run in which it happens: a write beyond the limit, one that waits, a read of one byte, and a write that is taken before it. |
| PipeFs.OvertakingIsAtLimit | cellfs/trunk/cellfs/pipefs.c:234-276 | That happens at exactly 32768 bytes. |
| PipeFs.LeftWaitingIff | cellfs/trunk/cellfs/pipefs.c:202-242 | Over any run: a reader waits at some point although something is buffered, if and only if at some point, with two readers waiting, a write brings more than the first of them asked for. One call serves one reader. |
| PipeFs.OpLeaves | cellfs/trunk/cellfs/pipefs.c:202-296 | The same for one request: nothing else leaves the first such reader waiting. |
| PipeFs.PipeDoLeaves | cellfs/trunk/cellfs/pipefs.c:202-242 | When a call leaves a reader waiting at buffered data, from any state. |
| PipeFs.SecondReaderWaits | cellfs/trunk/cellfs/pipefs.c:202-242 | Such a run: two reads of one byte, then a write of two. |
| PipeFs.OpKeeps | cellfs/trunk/cellfs/pipefs.c:202-296 | What one request does to readers, accepted and postponed writers. |
| PipeFs.PipeDoKeeps | cellfs/trunk/cellfs/pipefs.c:202-242 | Serving and refilling loses no byte, reader or writer. |
| PipeFs.PipeDoServes | cellfs/trunk/cellfs/pipefs.c:202-242 | One call gives the first reader as many bytes as it asked for, or all that is left of the first buffer if that is less. |
| PipeFs.RepliesAreEnough | cellfs/trunk/cellfs/pipefs.c:202-296 | Over any run the i-th reply is no longer than the i-th read asked for, and a shorter one ends where one of the writes ends. |
| PipeFs.WholeWritesCount | cellfs/trunk/cellfs/pipefs.c:179-242 | Over any run the size accounted is that of the writes taken that are not delivered to their end, each in full. |
| PipeFs.Pipe.Do | cellfs/trunk/cellfs/pipefs.c:202-242 | The method on buffer and request queues and its running size is the specified step. |
| PipeFs.Pipe.DoRead | cellfs/trunk/cellfs/pipefs.c:244-265 | A read is queued, then the pipe is run. |
| PipeFs.Pipe.DoWrite | cellfs/trunk/cellfs/pipefs.c:267-296 | A write is accepted exactly when at most 32768 bytes are accounted, else it is queued. |
| PipeFs.Pipe.BufAdd | cellfs/trunk/cellfs/pipefs.c:179-200 | The data is the last buffer, and the size counts it. |
| CbeHandler.RunKeeps | cellfs/trunk/libspfs/cbeconn.c:139-263 | In every interleaving of messages, completions and answers, with at most eight requests open and completions only of started transfers: a slot reads iff its request is on the input list, writes iff it is on the output list, slots and requests match one to one, and no assertion or abort is reached. |
| CbeHandler.EventKeeps | cellfs/trunk/libspfs/cbeconn.c:139-263 | The same for one event. |
| CbeHandler.FreeSlotIff | cellfs/trunk/libspfs/cbeconn.c:173-177 | The assertion that a slot is free fails exactly when eight requests are open. |
| CbeHandler.CompleteKeeps | cellfs/trunk/libspfs/cbeconn.c:191-268 | A completion keeps it, also when it stops at a bad packet. |
| CbeHandler.CompleteEffect | cellfs/trunk/libspfs/cbeconn.c:203-266 | If no packet is refused, every named slot moves on (read to working or already answered, written to free), no other slot does but by an answer, each request fetched has the tag of its packet, and the SPE is told the tags of exactly the requests that ended, NOTAG as 0. |
| CbeHandler.CompleteTells | cellfs/trunk/libspfs/cbeconn.c:249-263 | What the SPE is told when no packet is refused, in the fields of the state before: the tags of the requests in the named slots that were writing, NOTAG as 0, and nothing if there are none. |
| CbeHandler.AnswersAre | cellfs/trunk/libspfs/conn.c:174-199 | Answers turn exactly the working slots of the requests answered to writing, and start the transfers of their replies. |
| CbeHandler.OneFetched | cellfs/trunk/libspfs/cbeconn.c:213-245 | A request fetched alone is with the server, or being answered exactly if the server answers it while it is given the request. |
| CbeHandler.ToldAsNamed | cellfs/trunk/libspfs/cbeconn.c:139-263 | Over any run from the start: the tag told for a request is the one its own accepted packet named. |
| CbeHandler.TagIsNamed | cellfs/trunk/libspfs/cbeconn.c:139-263 | Over any run a request with the server or being answered has the tag of the packet read for it. |
| CbeHandler.RefusedEffect | cellfs/trunk/libspfs/cbeconn.c:213-226 | A call that stops at a refused packet has moved on the named slots below it and no others, and tells the SPE nothing. |
| CbeHandler.UntoldIff | cellfs/trunk/libspfs/cbeconn.c:213-263 | A request whose reply is stored in the call ends if and only if no packet below its slot is refused, and the SPE is told nothing if and only if one of the call is refused; so its tag is lost exactly when the first refused packet lies above it. |
| CbeHandler.EndedForGood | cellfs/trunk/libspfs/cbeconn.c:139-263 | A request that has ended never comes back in any run. |
| CbeHandler.TagIsUntold | cellfs/trunk/libspfs/cbeconn.c:213-263 | Such a run, from the start: one reply stored and one undecodable packet in the same call. |
| CbeHandler.LostIffRefused | cellfs/trunk/libspfs/cbeconn.c:213-226 | A slot is left in the middle of a transfer that nothing will end exactly if it is named in a call at or after a refused packet. |
| CbeHandler.LostInRunIff | cellfs/trunk/libspfs/cbeconn.c:139-263 | Over any run a slot ends up so exactly if some call of the run names it at or after a refused packet; no message and no answer does it. |
| CbeHandler.SlotIsLost | cellfs/trunk/libspfs/cbeconn.c:213-226 | One message and a packet that cannot be decoded are enough to lose a slot. |
| CbeHandler.LostForGood | cellfs/trunk/libspfs/cbeconn.c:216-226 | Such a slot is never used again in any run. |
| CbeSlots.FetchedKeeps | cellfs/trunk/libspfs/cbeconn.c:234-244 | Unlinking a fetched request. |
| CbeSlots.StoredKeeps | cellfs/trunk/libspfs/cbeconn.c:246-260 | Unlinking and freeing an answered one. |
| CbeSlots.AnswerKeeps | cellfs/trunk/libspfs/conn.c:174-199 | An answer, at once or late, keeps slots and lists in agreement: its request joins the output list as its slot turns to writing. |
| CbeSlots.MessageKeeps | cellfs/trunk/libspfs/cbeconn.c:161-188 | A message takes the first free slot. |
| CbeSlots.FirstFree | cellfs/trunk/libspfs/cbeconn.c:173-175 | The least free slot, or 8. |
| CbeConnection.CbeConn.Message | cellfs/trunk/libspfs/cbeconn.c:161-188 | The method is the specified step. |
| CbeConnection.CbeConn.Respond | cellfs/trunk/libspfs/cbeconn.c:140-158 | The method is the specified step. |
| CbeConnection.CbeConn.Dma | cellfs/trunk/libspfs/cbeconn.c:191-266 | The loop over the slots, with its early returns, is the specified completion. |
| CbeConnection.CbeConn.Remove | cellfs/trunk/libspfs/cbeconn.c:247-255 | The walk to the request and the unlinking remove its first occurrence. |
| FidPool.Pool.Find | cellfs/trunk/libspfs/fidpool.c:59-83 | The lookup returns the object of that number or nothing, leaves the finite map as it was, and the object found is first in its chain. |
| FidPool.Pool.Create | cellfs/trunk/libspfs/fidpool.c:86-118 | An absent number is added with a fresh object without references; for a present one nothing changes and nothing is returned. |
| FidPool.Pool.Destroy | cellfs/trunk/libspfs/fidpool.c:121-148 | Exactly the entry of that number goes, and its object is handed to the server. |
| FidPool.Pool.DecRef | cellfs/trunk/libspfs/fidpool.c:160-169 | The count falls by one; exactly the last reference removes exactly that entry. |
| FidPool.Pool.Locate | cellfs/trunk/libspfs/fidpool.c:69-81 | The walk along the next pointers finds the object and its predecessor. |
| FidPool.Pool.Unlink | cellfs/trunk/libspfs/fidpool.c:72-74 | Relinking the predecessor takes one object off its chain and leaves all others finite, duplicate-free and linked. |
| FidPool.Pool.Push | cellfs/trunk/libspfs/fidpool.c:74-75 | An object on no chain becomes the first of one. |
| FidPool.Pool.Splice | cellfs/trunk/libspfs/fidpool.c:72-76 | The two relinkings of a lookup leave every chain linked, with the object first in its own. |
| FidPool.FrontKeepsTable | cellfs/trunk/libspfs/fidpool.c:72-76 | Moving to the front keeps every chain duplicate-free, in its bucket, and the map the same. |
| FidPool.DroppedKeepsTable | cellfs/trunk/libspfs/fidpool.c:136-137 | Taking out one object removes exactly its number from the map. |
| FidPool.WithKeepsTable | cellfs/trunk/libspfs/fidpool.c:114-115 | Adding an absent one adds exactly its number. |
| XgetRing.PickIsRight | xcpu1.2.3/xget/xget.c:2098-2143 | From any cursor: a worker is chosen exactly if some worker has a server with fewer than the most connections; the choice has; no worker of the wanted level has fewer connections than it. |
| XgetRing.ChoiceIsRight | xcpu1.2.3/xget/xget.c:2107-2133 | In scanning order, also: the choice is of the wanted level exactly if some worker of it has room and fewer connections than all workers of other levels with room before it. |
| XgetRing.ChoiceIsFirst | xcpu1.2.3/xget/xget.c:2107-2133 | Of workers with equally few connections the first in scanning order is chosen. |
| XgetRing.WantedLevelCanLose | xcpu1.2.3/xget/xget.c:2107-2109 | The comment that other levels are only taken when the wanted one cannot be found is not what happens: two idle workers show it. |
| XgetRing.WantedLevelLoses | xcpu1.2.3/xget/xget.c:2098-2163 | It happens in a real ring: a worker from the origin, one that copies from it, and two redirections to level 1, the second of which goes to level 2 although the first worker has room. |
| XgetRing.PlacesAreAll | xcpu1.2.3/xget/xget.c:2134-2142 | The scan visits every position exactly once from any cursor. |
| XgetRing.Ring.Scan | xcpu1.2.3/xget/xget.c:2099-2143 | The loop ends and computes that choice; no worker is at the level at which it would stop advancing. |
| XgetRing.Ring.Advance | xcpu1.2.3/xget/xget.c:2134-2142 | The four-way step goes to the next place in the ring and stops after the last one. |
| XgetRing.Ring.Redirect | xcpu1.2.3/xget/xget.c:2096-2163 | The client is sent to the chosen worker's server, and the cursor moves past that worker; with none chosen the cursor stays. |
| XgetRing.Ring.RedirRead | xcpu1.2.3/xget/xget.c:2078-2163 | The wanted level is the first of those the client was sent to least often, and the level it is sent to is counted. |
| XgetRing.WantedLevel | xcpu1.2.3/xget/xget.c:2080-2091 | The loop finds that level. |
| XgetRing.Ring.Remove | xcpu1.2.3/xget/xget.c:168-187 | The cursor stays on its worker, or goes from a removed one to the next, or to the first; it is null only for an empty list. |
| XgetRing.Ring.Avail | xcpu1.2.3/xget/xget.c:2242-2352 | A worker is appended exactly if its source is known, the level below it is under the maximum and its address is new; the source's server is charged in any case. |
| XgetRing.FirstServing | xcpu1.2.3/xget/xget.c:2249-2255 | The first worker that serves from an address. |

## Left out

- Filler.PoolQueue.Submit: the parsing of the request's numbers is not modelled; the number of seconds is taken as already checked to be positive (bjs/bjs.c:1131-1165).
- FillerSafety.PassIsSound: assumes one pool over the node table, since two pools that share table positions could take each other's nodes.
- FillerSafety.KillKeepsWellFormed: expired jobs leave the queue with their nodes in one step; the release itself is in Allocator.dfy.
- NoDelay.PromiseIsKept: the set of up nodes and whether a job's dependencies are met are fixed during the run; the dependency test itself (bjs/bjs.c:252-274) looks at the wrong variable and is taken as a fixed predicate.
- PolicyLoop.Round: the same independence of pools as for PolicyLoop.RunPolicies.
- PolicyLoop.RunPolicies: the pools share no nodes, so that one policy affects another only through the loop; the clock stands still during the loop, and start stamps equal it.
- SharedPool.LeastLoaded: the source's comparison never returns a negative value and so is no ordering in the sense of `qsort` (bjs/shared.c:72-74); that the counts come out sorted is an assumption about the library. The method here is an insertion sort, and the results hold for every sorted order.
- Allocator.NodeTable.KillNode: requires that no job has the node twice; with one on it twice the saved next pointer would be stale. PoolNodes.OnceIsOnce derives it for every node where no job holds a node twice, and the three policies keep that (PoolNodes.FillerHoldsOnce, SharedHoldsOnce, SimpleHoldsOnce).
- Allocator.NodeTable.JobRemove: accounting, persistence and the policy's own remove hook are left out, and so is the assertion of bjs_job_free, which is not compiled.
- Allocator.NodeTable.NodeStatus: the cleaning of a node that comes up is not modelled.
- Timeline.Schedule.AddSchedEvent: the event list is a sequence; the rewiring of its pointers is not modelled (Allocator.dfy and FidPool.dfy have pointer lists).
- SexpPrinter.SexpString: requires a tree within the printer's stack; beyond it the estimate is -1 and the source gets an empty buffer.
- SexpParser.Parser.ParseChunk: the fields after an error are not specified, and the stack of tail pointers is modelled as the list of open levels.
- SexpParser.Client.Recv: the stream has no NUL bytes; at one the source would read on without progress (SexpParser.NulStops).
- SexpRoundTrip.ParsePrinted: the cost of an element uses the size of the record with 8-byte pointers.
- Tspawn.Spawn.Run: the path where setting up a node fails is left out, and so are session ids, authentication and the copying itself.
- Tspawn.GetNodes: requires a character other than a comma, which is where the source's backward scan ends.
- TreeSpawn.GroupArithmetic: `xp_command_exec` (xcpu1.2.3/libxcpu/command.c:183-271) computes the same groups; its loops are not modelled a second time.
- TreeSpawn.ChosenCapNeedsTwoLevels: the integer part of the square root is a parameter; floating point is not modelled.
- Quote.TokenizeLine: the null pointer behind the last token is not modelled, and there is always memory.
- Ldd.Deplist.LocateDep: search lists are taken as already split, and path lengths are not limited.
- Tspawn.CloneListRoundTrip: the word and number in front of the list and the newline behind it are left out.
- Ldd.ClosureIsLeast: what two files mean by one name is compared over the files found, so the condition is read off the finished list.
- PipeFs.Pipe.Do: sequence fields stand for the linked buffers and requests; flushing a request is left out.
- PipeFs.WritersInOrderIff: the writes of a run are taken to be told apart, by tag or data; two equal ones could change places unnoticed.
- CbeHandler.RunKeeps: no connection reset; every request is answered at most once and with a reply, so flushed requests without one are left out; sizes of transfers are not modelled.
- CbeHandler.CompleteEffect: calls with a refused packet are in CbeHandler.RefusedEffect; the notification is the set of tags, not a 32-bit word.
- FidPool.Pool.Find: a connection without a table is left out, as are the other fields of a fid and the destruction of the whole table.
- XgetRing.Ring.Remove: the list is a sequence; its pointers, the clients' usage records and the freeing of servers are left out.
- XgetRing.Ring.RedirRead: a client that is not known is left out, and so are the records of which worker it uses.
- XgetRing.Ring.Avail: requires that every listed worker's server exists, since the source follows its address unasked; message parsing is left out.
- Cluster refresh and reconfiguration, processes, sockets, signals, authentication, option parsing and printing of messages.
- xcpufs/pipe.c, the ixvm copies of these files, PMI framing, base64 and session-id wrap-around.
