# Port forwards, port blocks, RAM admission and workspace bindings: a verified model

This project models the protocols of the herdr sandbox plugin that have to hold up against lost writes, restarts,
races and arbitrary command failures, and proves what they promise. Outside parties (ssh, the sandbox daemon, the file
system, the clock) are inputs or oracles that may answer in any way, failure included. All files verify together, with
`dafny verify dfyconfig.toml`.

**The forward queue and its ack cursor.** The engine keeps a queue of forward requests, hands out ids, prunes by ack
and by age, and rewrites the file whole (`RequestQueue`, `Declare`, and entry by entry `QueueWriters`). The laptop
agent reads a snapshot, forwards requests in id order, stops at the first it cannot forward, and writes a monotone
remote ack (`ForwardAgent`, with its properties in `AgentProperties` and, in terms of hosts, times and ports, in
`AgentTicks`). `QueueProtocol` composes them into a transition system with declarers, the ports pane, ticks on any
earlier snapshot, lost ack writes, cancellations and restarts. Ids can be handed out again once an expired entry has
been pruned, so each request also has an identity that no step can see, and "no silent loss" is about identities;
`QueueHistory` says what counting one as forwarded or expired means. The rule "ack must follow apply" of
doc/portfwd-ack-apply.md holds for every run whose ack writes land and whose ticks see the latest queue. Exactly, no
request is lost and the ack passes nothing unforwarded, in every state of a run, if and only if each tick is safe:
every request it lets the ack newly pass was forwarded before, or is the very request of its id in the snapshot and
lies above the cursor the tick started from. Rewrites and restarts need no condition. A stronger form counts as passed
what the running agent's cursor has passed, too, which only a restarted agent would still serve; it holds if and only
if each tick is safe in that sense and each rewrite hands out ids above the running agent's cursor. `QueueTicks` tells
the safe ticks, in both senses, from the state, the snapshot and the clock alone, before it is known what the master
accepts. `QueueLosses` gives a run that loses a request for each hypothesis dropped: one lost ack write is enough, and
so is one declaration between an agent's read and its ack.

**Port blocks and RAM admission.** `Paging` says what a complete listing is, against any fetcher. `RangeAlloc`
(occupancy, least free block, collision scan, block port map) and `Admission` (saturating 32-bit total) answer only
from a complete listing, and fail exactly when no listing could have supported an answer; what counts as readable,
used or sized is told by the forms of the records. `CreateBoot` is the order of effects of a create. `BlockExclusion`
interleaves any number of creators with no lock, page by page, and proves that two kept sandboxes never share a block;
`BlockScan` shows that the collision check of `RangeAlloc` takes its steps. `Overshoot` bounds by how much concurrent
creators can exceed the RAM budget, and shows the bound is reached.

**The forward reconciler.** `Reconcile` diffs desired against applied keys in any order, driving commands that may
fail with or without effect and probes that may answer anything. With distinct desired ports, "every applied port is
listening" is kept, on every return path, if and only if no failed cancel took effect and no positive probe was false;
there is an input for each failure, and what is lost is never restored. For ports shared by two sandboxes it gives the
exact condition on every return path. Each step of a call is told by the answers to its commands, and a call by all of
them. `SsListing` says exactly when the probe is false: on any `ss -ltn` listing, when the leading digits of an IPv6
group, after the first, happen to be the port. `ProbedReconcile` puts the two together.

**The binding store and its prune.** `BindingStore` is one call at a time; `StoreProtocol` interleaves locked writers,
lock-free readers and crashes and proves the store linearizable, and `StoreHistory` reads off a whole run where each
call took effect. `Prune` is the reclaim sweep, `PruneOutcomes` tells each of its lines by the replies about the
binding, and `PruneSafety` what it may destroy: nothing without two signals and a permitting status, whatever the
oracles answer. Handles are resolved as the service resolves them: an empty project means "herdr", and a sandbox that
carries no project answers to any. So a stranded binding "/web" shares its sandbox with a live binding "herdr/web",
which the store's unique keys allow, and a sweep removes it; the sandboxes of live workspaces are spared, for all
answers that the service can give, if and only if no stranded binding aliases a live one.

**Recognisers and the single agent.** `ProcNet` proves the /proc/net/tcp parser inverse to the kernel's printer.
`PortMatch` proves that the digit-guarded substring search finds whole numerals. `SpawnOnce` proves that concurrent
spawn-if-absent calls leave one agent, and exactly which failure breaks that; `SpawnHistory` that a call returns an
agent it has seen alive.

Methods model the program's methods and loops and are proved against functions and relations; the lemmas named below
say what those mean. `Text` holds the string functions of the Go library that the code calls, `Wrappers` the two
outcome types, `Seqs` two facts about sequences. Integers of the program are subset types with their wrap-around or
saturation written out.

## Model

| member | source | states |
|---|---|---|
| RequestQueue.MaxOfIsMaximum | internal/clientagent/queue.go:111-118 | the loop's result bounds the consumed id and every pending id, and is one of them |
| RequestQueue.NextIdAboveAll | internal/clientagent/queue.go:111-119 | a new id is above everything in the queue if and only if the maximum is not the last uint64, where it wraps to 0 |
| RequestQueue.Queue.NextID | internal/clientagent/queue.go:111-119 | the loop computes the successor of that maximum |
| RequestQueue.Queue.Enqueue | internal/clientagent/queue.go:121-128 | an id is minted only for id 0; the queue is the old one plus the request, sorted by id; on a request above all others it is an append |
| RequestQueue.SortById | internal/clientagent/queue.go:126 | a sorted permutation of the input |
| RequestQueue.SortedPermutationUnique | internal/clientagent/agent.go:129-131 | with distinct ids the unstable sort has one possible result |
| RequestQueue.Queue.Prune | internal/clientagent/queue.go:130-143 | in-place compaction leaves the survivors in order and raises the consumed id to the ack |
| RequestQueue.SurvivorsExact | internal/clientagent/queue.go:133-138 | a request survives if and only if it is above the ack and not older than the (wrapping) cutoff |
| RequestQueue.SurvivorsSorted | internal/clientagent/queue.go:130-143 | pruning keeps strict id order |
| ForwardAgent.Agent.ApplyInOrder | internal/clientagent/agent.go:132-162 | the loop stops where the specification of the longest served prefix says, with the state, notice and commands of that prefix |
| ForwardAgent.Agent.ServeQueue | internal/clientagent/agent.go:114-170 | once the queue is read, the tick is a step of the pure relation TickRel whose applied ids ascend from above the old cursor up to the new one |
| ForwardAgent.Agent.Tick | internal/clientagent/agent.go:95-171 | one tick is a step of the pure relation TickRel: state, applied ids, settled cursor, error, notice and command sequence; the cursor never falls |
| ForwardAgent.ServedKeepsInv | internal/clientagent/agent.go:114-169 | after a tick every applied id is at or below the cursor, and the tick's ids ascend from above the old cursor |
| ForwardAgent.Agent.CancelApplied | internal/clientagent/agent.go:173-189 | exactly the applied forwards with a known spec whose cancel works are dropped, in any map order; success if and only if all of them worked |
| ForwardAgent.Agent.Serve | internal/clientagent/agent.go:191-229 | the serve loop is a chain of ticks followed by one cancellation, and its pauses follow the back-off specification |
| ForwardAgent.NextBackoff | internal/clientagent/agent.go:206-222 | the in-loop doubling keeps the pause equal to the back-off of the current failure streak |
| ForwardAgent.BackoffClosedForm | internal/clientagent/agent.go:196-222 | the pause after n failures is min(60s, poll * 2^(n-1)), and stays within poll and 60s, if and only if poll is at most 60s |
| ForwardAgent.DelayAfterTick | internal/clientagent/agent.go:202-226 | in any run of ticks the pause after a tick is that closed form of the failures in a row so far, and poll after a success |
| AgentProperties.TickServesLongestPrefix | internal/clientagent/agent.go:125-170 | with distinct ids the applied ids are exactly the longest prefix above the cursor that is ours, unexpired and accepted, and the cursor settles on its last id or stays |
| AgentProperties.AckFollowsApply | doc/portfwd-ack-apply.md:57-64 | the settled cursor passes no queued request that the tick did not forward |
| AgentProperties.SettledWereServiceable | doc/portfwd-ack-apply.md:57-64 | every request the cursor passes was ours, unexpired and accepted by the master |
| AgentProperties.CommandShape | internal/clientagent/agent.go:100-170 | a tick issues reads and forwards only; the forwards go by strictly ascending ids, one for each applied id and one more, refused, if and only if the tick failed; then comes at most one ack write, of the settled cursor |
| AgentProperties.MarkComesLast | internal/clientagent/agent.go:163-169 | the ack write is the last command and comes after a forward of every applied id |
| AgentProperties.StepKeepsHistory | internal/clientagent/agent.go:114-189 | ticks and cancellations keep the history ascending and at or below the cursor |
| AgentProperties.AtMostOnce | internal/clientagent/agent.go:114-189 | over any ticks, queue contents, ack failures and cancellations one process forwards no id twice, and its cursor never falls |
| AgentTicks.OursExactly | internal/clientagent/agent.go:34-43 | an agent serves the requests that name no host and those that name its host: the host it was told or, without one, the part of its ssh target after the last "@" |
| AgentTicks.AdmissibleExactly | internal/clientagent/agent.go:114-152 | a request is due if and only if it is the agent's and no older than the ttl, ten minutes by default, in milliseconds that wrap |
| AgentTicks.TickForwardsExactly | internal/clientagent/agent.go:95-171 | with distinct ids, told by the queue, clock and master alone: a tick starts from its cursor, or the first time from the ack file, and forwards exactly the requests above it up to the first that is not the agent's, is too old or is refused; the cursor settles on the last |
| AgentTicks.TickForwardsTo | internal/clientagent/agent.go:146-162 | each applied request is forwarded to the ports it asks for, and the only other forward is the one that made the tick fail |
| AgentTicks.TickStopsExactly | internal/clientagent/agent.go:138-160 | a tick fails if and only if the request it stops at was due, and so refused; one that was not due is noticed instead, once per process |
| AgentTicks.TickMarksExactly | internal/clientagent/agent.go:163-169 | the ack is written if and only if the cursor moved, with the settled cursor |
| AgentTicks.TickRemembers | internal/clientagent/agent.go:153-162 | a tick adds exactly the ids it forwarded to those applied, each with the ports to cancel it by, and reads the ack at most once |
| AgentTicks.TickWithoutQueue | internal/clientagent/agent.go:95-113 | a tick that cannot read the queue fails and changes nothing |
| Declare.AddMissing | internal/cli/cmd_herdr_plugin.go:52-67 | the loop appends one minted request for each listener whose port the pruned queue lacks |
| Declare.StateDir.Declare | internal/cli/cmd_herdr_plugin.go:34-72 | on success the queue file is the declared queue and the result the added requests; on any failure the file is unchanged |
| Declare.StateDir.EnqueueForwardRequest | internal/cli/cmd_ports_pane.go:194-214 | on success the queue file is the pruned queue plus one request; on any failure it is unchanged |
| Declare.MintedOnTop | internal/cli/cmd_herdr_plugin.go:53-67 | requests minted one after the other keep strict id order and raise the maximum by their number |
| Declare.DeclaredSorted | internal/cli/cmd_herdr_plugin.go:47-71 | pending stays strictly sorted by id |
| Declare.AddedAboveAck | internal/cli/cmd_herdr_plugin.go:43-67 | every new id is above the ack read and above every kept id |
| Declare.RequestedSorted | internal/cli/cmd_ports_pane.go:203-213 | the pane's request keeps pending strictly sorted |
| Declare.DeclaredOnePerPort | internal/cli/cmd_herdr_plugin.go:48-67 | one pending request per port afterwards if and only if that holds of the pruned queue and the added ports are distinct |
| Declare.RequestedOnePerPort | internal/cli/cmd_ports_pane.go:203-213 | one pending request per port afterwards if and only if that holds of the pruned queue and the port has none in it |
| Declare.SurvivorsDistinct | internal/clientagent/queue.go:130-143 | pruning keeps one pending request per port |
| Declare.OnePerPortKept | internal/cli/cmd_herdr_plugin.go:47-71 | from stored queue to stored queue: Declare on distinct listeners keeps one pending request per port, the pane keeps it if and only if no request for its port survives the prune |
| Declare.DeclaredCovers | internal/cli/cmd_herdr_plugin.go:52-67 | every listener port is pending afterwards |
| Declare.PruneAgain | internal/clientagent/queue.go:130-143 | a second prune at the same time and ack drops just the added requests, and those only within one ttl of the epoch, where the cutoff wraps |
| Declare.DeclareTwice | internal/cli/cmd_herdr_plugin.go:47-71 | repeating Declare adds nothing and changes nothing if and only if every listener port was pending after the first prune or the clock is at least one ttl past the epoch |
| QueueWriters.KeptExactly | internal/clientagent/queue.go:130-143 | a writer keeps exactly the stored requests above the ack that are no older than the ttl, and raises the consumed id to the ack |
| QueueWriters.DeclaredExactly | internal/cli/cmd_herdr_plugin.go:47-71 | the declared queue entry by entry: what is kept, then one request for each listener port without one, ids going up by one from above everything known, each for the declarer's host, port to itself on the loopback address, created now |
| QueueWriters.RequestedExactly | internal/cli/cmd_ports_pane.go:203-213 | the pane's queue: what is kept, then one request for the port, for any host, with the next id, created now |
| QueueProtocol.RewriteKeepsInv | internal/clientagent/queue.go:111-143 | a rewrite keeps "every request ever enqueued is pending, forwarded or expired, and what was passed was forwarded": with "passed" meant by the ack always, by the ack or the cursor if and only if its new ids lie above the running agent's cursor |
| QueueProtocol.DeclareKeepsInv | internal/cli/cmd_herdr_plugin.go:34-72 | Declare keeps it, in either sense, if and only if it is safe in that sense |
| QueueProtocol.RequestKeepsInv | internal/cli/cmd_ports_pane.go:194-214 | so does the ports pane |
| QueueProtocol.TickMarks | internal/clientagent/queue.go:46-49 | a tick raises the remote ack to its settled cursor, if that is above its start and above the ack, and leaves it alone otherwise; a tick without a queue never touches it |
| QueueProtocol.TickPassedForwarded | internal/clientagent/agent.go:95-171 | after a tick on any snapshot, everything passed (by the ack, or by the ack or the cursor) was forwarded if and only if each request newly passed was forwarded before, or is the request of its id in the snapshot and lies above the cursor the tick started from |
| QueueProtocol.TickKeepsInv | internal/clientagent/agent.go:95-171 | so a tick keeps the invariant, in either sense, if and only if it is safe in that sense, and it never lowers the ack |
| QueueProtocol.StepKeepsPast | internal/clientagent/queue.go:111-143 | in every run, safe or not, a request that stays pending keeps its id |
| QueueProtocol.StepKeepsInv | internal/clientagent/agent.go:95-189 | every step of any kind keeps the invariant, in either sense, if and only if it is safe in that sense, and the ack never falls |
| QueueProtocol.NoSilentLoss | doc/portfwd-ack-apply.md:57-70 | in all states of a run each request ever enqueued is pending, was forwarded, or was dropped as expired, and what the ack passed was forwarded, if and only if every step of the run was safe by the ack; the same with what the ack or the running agent's cursor passed, if and only if every step was safe by the cursor |
| QueueProtocol.SafeByCursorIsSafe | doc/portfwd-ack-apply.md:57-70 | a run whose steps are all safe by the cursor is safe by the ack |
| QueueHistory.AccountIsTrue | internal/clientagent/agent.go:146-162 | in every run, safe or not, a request counted as forwarded was forwarded by a tick of the run, under the id its snapshot had for it, and one counted as expired was dropped by a writer of the run that found it above the ack and older than its ttl |
| QueueHistory.EveryRequestEndsWell | doc/portfwd-ack-apply.md:57-70 | at the end of a run safe by the ack every request ever enqueued is pending, or was forwarded or dropped as expired in that sense, and every pending request the ack has passed was forwarded |
| QueueHistory.TickIsStep | internal/clientagent/agent.go:95-171 | every tick on a queue that the agent has read is a step of the system: the ack becomes the settled cursor, if that moved above its start and the ack and the write landed, and is unchanged otherwise |
| QueueHistory.AgentMayRestart | internal/clientagent/agent.go:173-189 | the agent can lose its cursor and all it applied, and can cancel its forwards, at any time |
| QueueTicks.TickExists | internal/clientagent/agent.go:95-171 | on any sorted queue and for any answers of the master there is a tick |
| QueueTicks.ReachIsAllowed | internal/clientagent/agent.go:132-162 | a tick that passes anything new settles above any cursor it may start from, on an id up to which everything in the snapshot above that is ours and unexpired |
| QueueTicks.FurthestSettles | internal/clientagent/agent.go:132-162 | when the master accepts everything, a tick gets to every such id |
| QueueTicks.NoReuseExactly | internal/clientagent/queue.go:111-119 | ticks on a snapshot keep "passed means forwarded", in either sense and whatever the master accepts, if and only if each request that is not passed, not forwarded, and at or below an id they can reach is the request of its id in the snapshot, above any cursor they may start from |
| QueueProtocol.OrderlyRunsAreSafe | internal/clientagent/agent.go:163-169 | runs whose ack writes land and whose ticks see the latest queue have only steps that are safe by the cursor, so lose nothing; restarts, failed forwards and failed seed reads included |
| QueueLosses.LostAckLosesRequest | internal/clientagent/agent.go:163-169 | a run with atomic ticks that loses a request, in which exactly one ack write is lost |
| QueueLosses.CursorIsStricter | internal/clientagent/agent.go:131-136 | a run that loses nothing, and has let the ack pass nothing unforwarded in any state, although one of its steps is not safe by the cursor |
| QueueLosses.StaleTickLosesRequest | internal/clientagent/queue.go:111-119 | a run with every ack write landing in which a declaration between read and ack loses a request |
| QueueWriters.DeclareIsStep | internal/cli/cmd_herdr_plugin.go:34-72 | whenever there is room for the ids, what Declare writes is what a step of the protocol leaves |
| QueueWriters.RequestIsStep | internal/cli/cmd_ports_pane.go:194-214 | so is what the pane writes |
| Paging.CompleteOnce | internal/runtime/msb/admission.go:53-82 | a fetcher completes its listing at one page count at most |
| Paging.NeverComplete | internal/runtime/msb/rangealloc.go:45-75 | the page bound, a failed fetch or a repeated cursor means that no page count completes the listing |
| Paging.FetchPage | internal/runtime/msb/rangealloc.go:115-125 | a turn gives up before its page only on cancellation or when no page count completes the listing |
| Paging.PageIncluded | internal/runtime/msb/rangealloc.go:115-149 | a page the loop reaches is part of the complete listing |
| RangeAlloc.BlockIndex | internal/runtime/msb/rangealloc.go:133-137 | the division picks the one block that contains the port |
| RangeAlloc.UsedByRecords | internal/runtime/msb/rangealloc.go:132-140 | a block is used if and only if some record with a network section shows a port from 5000 + 10000 i to 14999 + 10000 i |
| RangeAlloc.OccupancyByRecords | internal/runtime/msb/rangealloc.go:109-183 | the occupancy is known if and only if the listing completes without a cancellation, no record is empty or undecodable, and, if there are records, one shows a port from 5000 to 64999 |
| RangeAlloc.MarkPorts | internal/runtime/msb/rangealloc.go:132-140 | a block's flag is set if and only if it was set before or one of the ports lies in the block |
| RangeAlloc.MarkPage | internal/runtime/msb/rangealloc.go:126-141 | after a page the flags and counts are those of all records so far; it stops at an unreadable record only |
| RangeAlloc.OccupancyTurn | internal/runtime/msb/rangealloc.go:115-149 | one turn of the loop either marks the next page, completes the listing, or finds that no page count gives a usable one |
| RangeAlloc.OccupiedBlocksFrom | internal/runtime/msb/rangealloc.go:109-157 | at most 1000 fetches; on success flag i is set if and only if some record of the complete listing has a port in block i; on failure no page count gives a usable listing |
| RangeAlloc.Allocate | internal/runtime/msb/rangealloc.go:24-35 | the base of the least block in which no listed sandbox has a port; an error means that all blocks are used or the listing is unusable |
| RangeAlloc.PageOffender | internal/runtime/msb/rangealloc.go:53-67 | a page passes if and only if every other sandbox on it is readable and outside the block |
| RangeAlloc.ClearByRecords | internal/runtime/msb/rangealloc.go:41-76 | a complete listing is clear if and only if every other sandbox's record can be decoded and shows no port in the block |
| RangeAlloc.CheckCollisionFrom | internal/runtime/msb/rangealloc.go:41-76 | at most 1000 fetches; success if and only if the listing completes and no other sandbox is unreadable or in the block |
| RangeAlloc.BlockPortMap | internal/runtime/msb/rangealloc.go:185-191 | the wrapping uint16 loop maps the i-th host port to guest port 1024 + i, with no key written twice |
| RangeAlloc.BlockMapBijection | internal/runtime/msb/rangealloc.go:185-191 | the map is a bijection onto guest ports 1024 to 11023, for every base |
| RangeAlloc.NoWrapExactly | internal/runtime/msb/rangealloc.go:185-191 | the host ports do not wrap if and only if the base is at most 55536 |
| RangeAlloc.BlockMapHosts | internal/runtime/msb/rangealloc.go:24-35 | for every base Allocate returns, the host ports are exactly the block, without wrapping |
| RangeAlloc.BlockMapsDisjoint | internal/runtime/msb/rangealloc.go:185-191 | the maps of different blocks have no host port in common |
| Admission.AddPage | internal/runtime/msb/admission.go:64-74 | the saturating addition keeps the total equal to the true sum cut off at the uint32 maximum; it stops only at a record without a size |
| Admission.CommittedByRecords | internal/runtime/msb/admission.go:26-83 | the total is known if and only if the listing completes without a cancellation and each record can be decoded and gives a positive size in its resources section or at top level |
| Admission.SumByRecords | internal/runtime/msb/admission.go:26-41 | each record adds its resources size if positive, otherwise its top-level size |
| Admission.SumTurn | internal/runtime/msb/admission.go:53-82 | one turn of the loop either adds the next page, completes the listing, or finds that there is no total to be had |
| Admission.SumCommittedMiB | internal/runtime/msb/admission.go:50-83 | at most 1000 fetches; the total is that of the complete listing, or there is none to be had |
| Admission.Decide | internal/core/admission/admission.go:89-102 | admitted if and only if the request is positive and fits the budget on top of the committed total |
| Admission.Admit | internal/core/admission/admission.go:104-117 | admitted if and only if there is a budget, the request is positive, and the true sum of a complete listing plus the request is within the budget |
| Admission.SaturationIsExact | internal/runtime/msb/admission.go:69-73 | deciding on the saturated total is deciding on the true one, and a saturated total never admits |
| Overshoot.AdmitKeepsInv | internal/core/admission/admission.go:104-117 | an admission with at most k creators in flight keeps committed plus admitted within budget + (k-1) * largest |
| Overshoot.NextKeepsInv | internal/runtime/msb/runtime.go:203-216 | so do creates, failures and removals |
| Overshoot.OvershootBounded | internal/runtime/msb/runtime.go:203-216 | committed memory never exceeds budget + (k-1) * largest in any reachable state; with one creator it never exceeds the budget |
| Overshoot.BoundReached | internal/runtime/msb/runtime.go:203-216 | for every budget, k and largest request within the budget some run reaches the bound |
| CreateBoot.AdmitFirst | internal/runtime/msb/runtime.go:203-205 | admission succeeds if and only if a complete listing supports it |
| CreateBoot.AllocateBlock | internal/runtime/msb/runtime.go:207-214 | allocation succeeds if and only if a complete, readable listing shows a free block; the port map is that of the least one |
| CreateBoot.OutcomeOf | internal/runtime/msb/runtime.go:198-235 | a create boots if and only if it has a name, is admitted, finds a block, every call to the daemon works, the policy holds and the scan is clear; each other outcome is the first of these that fails |
| CreateBoot.Daemon.CreateAndBoot | internal/runtime/msb/runtime.go:198-235 | the outcome is told by the answers alone; a booted sandbox stays, and so does one whose detach or lookup failed; one that failed its policy or collided is gone unless its teardown failed; before the create nothing changes; what stays was admitted and lies in a block shown free |
| CreateBoot.Daemon.Create | internal/runtime/msb/runtime.go:206-235 | the same for the steps after admission |
| CreateBoot.Daemon.Settle | internal/runtime/msb/runtime.go:220-234 | which step failed is told by the answers; policy failure and collision take the new sandbox down again unless the teardown fails, detach and lookup failures leave it |
| BlockExclusion.StepKeepsInv | internal/runtime/msb/rangealloc.go:41-76 | every step (allocate, create, foreign create, one page of a scan, teardown, remove, crash) keeps: an older sandbox in one's block is still to be shown to one's scan |
| BlockExclusion.ReachableInv | internal/runtime/msb/runtime.go:206-235 | the invariant holds in every reachable state |
| BlockExclusion.BlockIsOwned | internal/runtime/msb/runtime.go:228-232 | no sandbox older than a kept one, created by this program or not, has a port in its block |
| BlockExclusion.MutualExclusion | internal/runtime/msb/runtime.go:206-235 | no two existing sandboxes whose create returned success share a block, if the older shows a port in its own, however the processes interleave |
| BlockScan.ClearByPages | internal/runtime/msb/rangealloc.go:41-76 | a complete listing read page by page from successive states is clear if and only if no page shows an offender |
| BlockScan.PageIsStep | internal/runtime/msb/rangealloc.go:53-67 | seeing a page takes the process on if the page is quiet, and to its teardown if not |
| BlockScan.ClearListingIsScan | internal/runtime/msb/rangealloc.go:41-76 | a collision check that succeeds is a scan of that system: each page it reads is a step of its process, and the scan can finish when the listing showed every record present throughout |
| BlockScan.UnclearListingTearsDown | internal/runtime/msb/runtime.go:228-232 | a complete listing that is not clear has a page that sends the process to its teardown |
| BlockScan.TornDownIsGone | internal/runtime/msb/runtime.go:230-232 | the teardown takes the new sandbox away, and no other |
| BlockScan.LoneCreateIsKept | internal/runtime/msb/runtime.go:206-235 | a process that runs alone can allocate any block, create a sandbox, scan and keep it |
| BlockScan.OthersMayAct | internal/runtime/msb/runtime.go:206-235 | sandboxes can come from elsewhere, under names not in use, and go, and processes can die, at any time |
| Reconcile.Manager.DropUnwanted | internal/core/portfwd/manager.go:30-37 | the loop is a run of drop steps in any map order, ending at the first cancel that reports failure; on success exactly the wanted keys are left |
| Reconcile.Manager.EnsureForward | internal/core/portfwd/manager.go:46-57 | one key is one step, and the step is what the answers to its commands make it: the probe fails, it answers present, or it answers absent and an apply follows |
| Reconcile.Manager.AddMissing | internal/core/portfwd/manager.go:38-58 | the loop continues the run with one step for each running listener not applied yet, ending at the first command that reports failure; on success all desired keys are applied |
| Reconcile.Manager.Reconcile | internal/core/portfwd/manager.go:23-60 | a call is a run of steps, of which only the last may fail, each told by the answers to its commands; state and commands issued are those of the steps; on success the applied keys are the desired ones |
| Reconcile.Manager.TeardownSandbox | internal/core/portfwd/manager.go:62-72 | a run of drop steps for keys of that sandbox; on success none of its keys is left and all others are |
| Reconcile.CallByAnswers | internal/core/portfwd/manager.go:23-60 | a call told by the commands it issues and the answers to them: it succeeds if and only if all worked, and the first that did not ends it; a probe that said absent is followed by an apply for its port and an apply follows only such a probe; a key is dropped for a cancel that worked and noted for a probe that said present or an apply that worked; on success exactly the keys of the running listeners are applied |
| Reconcile.AbsentIsApplied | internal/core/portfwd/manager.go:38-58 | when everything works and every probe says absent, the call succeeds and applies the port of every running listener not applied before |
| Reconcile.TeardownByAnswers | internal/core/portfwd/manager.go:62-72 | a teardown issues cancels only, for ports of that sandbox, up to the first that does not work; it drops a key for a cancel that worked, touches no other sandbox, and on success leaves that one without keys |
| Reconcile.StepFaithful | internal/core/portfwd/manager.go:30-58 | with distinct desired ports a step keeps "applied means listening" if and only if it is not a failed cancel that took effect or a false positive probe |
| Reconcile.FaithfulExactly | internal/core/portfwd/manager.go:23-60 | so does a whole call, on every return path |
| Reconcile.FalsePresentLoses | internal/core/portfwd/manager.go:46-53 | one false positive probe and a successful call leaves an applied port that does not listen |
| Reconcile.FailedCancelLoses | internal/core/portfwd/manager.go:30-36 | so does one cancel that takes effect and reports failure |
| Reconcile.ListeningAfter | internal/core/portfwd/manager.go:23-60 | what listens when a call with honest commands returns, on any path: the ports of dropped keys are closed, those of added keys and of a failed apply that took effect are open |
| Reconcile.SharedExactly | internal/core/portfwd/manager.go:23-60 | with shared ports and honest commands, on every return path, every applied port listens if and only if each port both kept and dropped was opened again |
| Reconcile.SharedPortIsLost | internal/core/portfwd/manager.go:30-37 | two sandboxes on one port, one no longer desired: a successful call closes the forward of the other |
| Reconcile.SharedPortIsLostOnError | internal/core/portfwd/manager.go:30-37 | the same when the next cancel fails and the call returns its error |
| Reconcile.LostForGood | internal/core/portfwd/manager.go:38-45 | an applied port that does not listen stays so through any number of calls with the same desired set, however they end |
| Reconcile.NothingToDo | internal/core/portfwd/manager.go:23-60 | a call whose desired set is applied already, such as an immediate second one, takes no step and issues no command |
| ProbedReconcile.DeceivesExactly | internal/core/portfwd/forward.go:133-179 | with probes answered from an ss -ltn listing of what listens, a step misleads the program if and only if it is a failed cancel that took effect, or a probe of a port that no socket has while a group of some IPv6 address shows it |
| ProbedReconcile.FaithfulOnListings | internal/core/portfwd/manager.go:23-60 | with distinct desired ports and such probes, "applied means listening" is kept by a whole call, on every return path, if and only if no step of it is of that kind |
| BindingStore.Store.Put | internal/core/herdrspace/store.go:95-114 | on success the file is the old list without entries of the same label or handle, plus the binding; on failure it is unchanged; success if and only if every system call works and the file decodes |
| BindingStore.Store.Delete | internal/core/herdrspace/store.go:164-181 | on success the file is the old list without that label; on failure it is unchanged |
| BindingStore.Store.Get | internal/core/herdrspace/store.go:116-162 | the first entry in file order whose label, workspace id or handle is the one asked for, or not found if none has it |
| BindingStore.Store.List | internal/core/herdrspace/store.go:183-188 | the whole list; empty when there is no file yet |
| BindingStore.KeptHas | internal/core/herdrspace/store.go:104-110 | an entry is kept if and only if it collides with neither key |
| BindingStore.CommitByEntries | internal/core/herdrspace/store.go:94-181 | the updates entry by entry, in file order: a Put leaves out what has its label or its handle and ends with the new binding; a Delete leaves out its label |
| BindingStore.CommitUnique | internal/core/herdrspace/store.go:94-114 | labels and handles stay pairwise distinct under every update |
| BindingStore.DeleteUndoesPut | internal/core/herdrspace/store.go:94-181 | deleting what was just put restores the store if and only if the binding collided with nothing |
| BindingStore.PutAgain | internal/core/herdrspace/store.go:94-114 | a Put repeated changes nothing |
| BindingStore.LookupAfterPut | internal/core/herdrspace/store.go:94-130 | a lookup by label sees the new binding under its label, and elsewhere the old answer unless that entry held the new handle and was evicted |
| BindingStore.LookupAfterDelete | internal/core/herdrspace/store.go:116-181 | a lookup by label misses the deleted label and is otherwise unchanged |
| StoreProtocol.RenameKeepsInv | internal/core/herdrspace/store.go:66-92 | a commit by the lock holder disturbs no other writer and no open reader |
| StoreProtocol.StepKeepsInv | internal/core/herdrspace/store.go:35-114 | every step of every process, stopping at any point included, keeps the invariant |
| StoreProtocol.Linearizable | internal/core/herdrspace/store.go:35-114 | the file is always the committed updates in lock order; every successful write committed at a place of its own between call and return; every read saw the store of one moment of the read; keys stay distinct |
| StoreProtocol.OneHolder | internal/core/herdrspace/store.go:35-49 | at most one process is inside the lock |
| StoreProtocol.ReadsSeeWrites | internal/core/herdrspace/store.go:95-162 | no update is lost: a read called after a write returned sees it |
| StoreProtocol.ReadsMoveForward | internal/core/herdrspace/store.go:116-162 | of two reads one after the other, the later sees all that the earlier saw |
| StoreHistory.WriteTookEffect | internal/core/herdrspace/store.go:35-114 | a write that returned success renamed its own update into place, on top of what the file held, between its call and its return and under the lock; the return records just that and frees the lock |
| StoreHistory.ReadTookEffect | internal/core/herdrspace/store.go:51-64 | a read that returned shows the file as it stood when it was opened, between its call and its return |
| StoreHistory.LoneWrite | internal/core/herdrspace/store.go:35-114 | a write that runs alone with the lock free returns, with the file updated and the lock free |
| StoreHistory.LoneRead | internal/core/herdrspace/store.go:116-162 | a read returns whoever holds the lock |
| StoreHistory.MayStop | internal/core/herdrspace/store.go:66-92 | a process can stop at any point, which frees a lock it held and leaves the file as it was |
| Prune.SameSandboxExactly | internal/core/service/service.go:34-39 | two handles are about one project and name if and only if they are equal or both spell one name of the default project: "name", "/name" or "herdr/name" |
| Prune.StrandReason | internal/cli/cmd_herdrspace_prune.go:211-237 | stranded if and only if the workspace is gone and the worktree is too or, without a worktree, the sandbox is known idle |
| Prune.Reclaim | internal/cli/cmd_herdrspace_prune.go:99-108 | remove, and on failure stop and remove again; the second remove may not answer "no such sandbox", the first may |
| Prune.PruneOne | internal/cli/cmd_herdrspace_prune.go:159-206 | what becomes of a binding and the exact requests made about it are fixed by the answers; only a reclaimed binding leaves the store |
| Prune.Attempt | internal/cli/cmd_herdrspace_prune.go:177-205 | a stranded binding is reclaimed only after a status check that permits it; an unknown status, or a running one without kill-running, ends it there |
| Prune.Sweep | internal/cli/cmd_herdrspace_prune.go:155-207 | over any bindings and answers the lines, counters, exact requests and what is left in the store |
| Prune.RunSpacePrune | internal/cli/cmd_herdrspace_prune.go:110-209 | the unscoped sweep is refused without --all; failed listings change nothing; counts and exit code are those of the reported lines |
| Prune.CountsAre | internal/cli/cmd_herdrspace_prune.go:155-207 | the counters are those of the lines that are not "keep" and of those that are "reclaimed" |
| Prune.RemainsExactly | internal/cli/cmd_herdrspace_prune.go:158-209 | with distinct labels the store keeps exactly the bindings not reclaimed, among them all of other workspaces, and applied counts the others |
| PruneOutcomes.LineByReplies | internal/cli/cmd_herdrspace_prune.go:99-108 | each line by the replies about its binding; in particular a binding is reclaimed, or fails only to be deleted, if and only if the last request about it was a remove that worked, or its only remove found no such sandbox |
| PruneOutcomes.SweepByReplies | internal/cli/cmd_herdrspace_prune.go:158-209 | a binding leaves the store only for such a remove, and if a remove was tried and the binding is still there, the sweep reports a failure |
| PruneSafety.SweepJustified | internal/cli/cmd_herdrspace_prune.go:158-206 | each remove or stop of a sweep is about the sandbox of a considered binding whose workspace is gone, and follows, within that binding's own questions, its second signal and a status that permits it |
| PruneSafety.AliasExactly | internal/core/service/service.go:131-142 | some listing resolves two names to one sandbox if and only if their simple names agree and, when every sandbox carries its project, their projects too |
| PruneSafety.SparesLiveExactly | internal/cli/cmd_herdrspace_prune.go:158-206 | over all answers the service can give and all listings, no remove or stop hits the sandbox of a live workspace if and only if no considered binding whose workspace is gone aliases a live one |
| PruneSafety.AliasHits | internal/core/service/service.go:131-142 | whenever one does, there are answers the service can give under which the sweep's remove of it reports success and hits the live sandbox |
| PruneSafety.LiveSandboxIsRemoved | internal/cli/cmd_herdrspace_prune.go:239-245 | a store with unique keys that holds a stranded "/name" and a live "herdr/name", every sandbox labelled, and answers the service can give: the sweep removes the live sandbox, and the remove reports success |
| ProcNet.ReadWords | internal/core/portfwd/discovery.go:93-111 | the inner loop fills the sixteen-byte array with the four little-endian words, or finds one that is no number |
| ProcNet.ReadAddress | internal/core/portfwd/discovery.go:85-112 | eight or thirty-two hex digits give the bytes of one or four little-endian words; anything else is no address |
| ProcNet.ParseProcNetFile | internal/core/portfwd/discovery.go:60-116 | the loop returns what each line gives, in order |
| ProcNet.HexRoundTrip | internal/core/portfwd/discovery.go:80-112 | zero-padded upper-case hex is read back as the number printed |
| ProcNet.EndianRoundTrip | internal/core/portfwd/discovery.go:87-107 | the four shifts recover the bytes of a little-endian word |
| ProcNet.AddressRoundTrip | internal/core/portfwd/discovery.go:85-112 | a printed address of any number of words is read back byte for byte |
| ProcNet.RowRoundTrip | internal/core/portfwd/discovery.go:62-114 | a printed row gives its local port and address if and only if its state is LISTEN |
| ProcNet.FilesRoundTrip | internal/core/portfwd/discovery.go:60-116 | for any tcp and tcp6 files with their headers, run together, parsing returns exactly the listening sockets in order |
| ProcNet.OnlyListeningRows | internal/core/portfwd/discovery.go:60-116 | only a line of four words or more, not the header, in state 0A, whose second word is an address of eight or thirty-two digits, a colon and a port gives an entry |
| PortMatch.FindGuarded | internal/core/portfwd/forward.go:164-179 | true if and only if some occurrence of the needle, overlapping ones included, ends the line or is followed by a non-digit |
| PortMatch.MatchColonPort | internal/core/portfwd/forward.go:164-179 | true if and only if some colon in the line introduces a numeral that is the port in decimal |
| PortMatch.MatchDotPort | internal/core/portfwd/forward.go:181-200 | the same with a dot, on lines whose last field is LISTEN |
| PortMatch.PortInOutput | internal/core/portfwd/forward.go:153-162 | true if and only if some line of the output shows the port in one of the two ways |
| PortMatch.GuardedExactly | internal/core/portfwd/forward.go:164-179 | the digit guard is exact: a guarded occurrence is a whole numeral equal to the port |
| PortMatch.PortIsReadOff | internal/core/portfwd/forward.go:153-200 | one place in a line shows one port at most |
| SsListing.ListingShowsExactly | internal/core/portfwd/forward.go:133-179 | on any listing of ss -ltn the probe answers yes if and only if some socket has the local port or the leading digits of a group after the first of some IPv6 address are it |
| SsListing.AnswerIsTrueExactly | internal/core/portfwd/forward.go:133-179 | the answer is the truth if and only if the port is listening or no address misleads |
| SsListing.LoopbackMisleads | internal/core/portfwd/forward.go:164-179 | with a listener on [::1] the probe takes port 1 for listening |
| SpawnOnce.StepKeepsInvExactly | internal/clientagent/proc.go:43-67 | each step of any interleaving keeps "every live agent is in the pidfile or about to be" if and only if it does not orphan an agent that was spawned and not recorded |
| SpawnOnce.OneAgent | internal/clientagent/proc.go:43-67 | without orphans at most one agent lives, the pidfile names it, and every call that returned while it ran returned its pid |
| SpawnHistory.ReturnedWasAlive | internal/clientagent/proc.go:43-67 | in any run, the agent a call returns was alive between that call's taking the lock and its return, because the call spawned it or found it alive; it was spawned in the run, and by the caller itself if that ran alone |
| SpawnHistory.LoneCallSpawns | internal/clientagent/proc.go:43-67 | whatever a stale pidfile says, a call that runs alone when no agent lives can spawn one, record it and return it |
| SpawnHistory.LoneCallFinds | internal/clientagent/proc.go:58-60 | a call that runs alone while the agent in the pidfile lives returns it and spawns none |
| SpawnHistory.MayFail | internal/clientagent/proc.go:43-67 | a caller can die at any point, which frees its lock and leaves the pidfile; any agent can die; and the write of the pidfile can fail, leaving anything |
| SpawnOnce.OrphanMeansTwo | internal/clientagent/proc.go:62-64 | one failed write of the pidfile is enough for two live agents |

## Left out

- JSON, ssh command lines, shell text, flock, chmod and temporary files: kept only as their meaning (decoded records, commands that may fail, a lock, an atomic rename).
- Ids at or above 2^63 and the wrap of ids at 2^64: Declare and EnqueueForwardRequest are stated for queues with room for the new ids, and the numeric test of the shell's ack write is taken as comparison of numbers.
- PaneID, OpenURL and the queue's version number: carried by the program but never looked at by what is modelled here.
- Unsynchronised concurrent writers of the queue file, several agents on one queue, and concurrent writers during a prune: the code does not coordinate them, so steps are taken one at a time.
- Pre-epoch clocks: `now` may be any integer where the wrapping cutoff is modelled, but the results about repeated declarations assume a clock within uint64 milliseconds.
- Serve's channel to the operator (which error texts are repeated) and the end of its context: the model ends after a given list of ticks.
- MasterAlive, EnsureMaster and the fallback from ss to netstat: one command that works or not. SsListing describes the listing of ss only; what the dot form makes of any netstat line is PortMatch.MatchDotPort.
- The environment of the reconciler: nothing but its commands opens or closes a local listener, and an apply that reports success has opened its port.
- The default budget from /proc/meminfo and its environment override: an optional number.
- Names are unique because the daemon refuses a name in use; a paged scan shows every record that exists for its whole duration; the older of two kept sandboxes shows at least one port.
- Killed agents that remain as unreaped children, pids reused by the kernel, and concurrent teardown in SpawnOnce.
- The textual form of addresses (net.IP.String): ProcNet keeps the address bytes.
- ParseNetstat, FilterListeners, the pane's rendering and key handling, credentials, provisioning, consent, mounts, network policy, the MCP server and flag parsing: short branches or behaviour of libraries that cannot be seen here.
- Prune.RunSpacePrune: the printed texts are the constructors of Line, and a missing state directory is not modelled.
