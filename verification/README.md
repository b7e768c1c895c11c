# Cplant server library and address cache: verified model

A Dafny model of the parts of Cplant where a mistake shows up only under the right
interleaving, alignment or history: the fault-aware collective operations of the server
library, the kernel's address cache, the control portals with their asynchronous sender,
and the data portal. `dafny verify dfyconfig.toml` checks everything.

| file | what it models |
|---|---|
| FanInTree, BarrierTrees | the tree each member computes for itself with XOR arithmetic, and the d-ary tree of the older synchroniser |
| Barrier | repeated barriers over any rooted tree, as a step relation: tokens without round numbers, members that stop at any time |
| TokenLoops | the loops that match arriving tokens to the awaited members |
| GatherTree | the bisection that gives each participant its gather schedule |
| Collectives, CollectivesProof, CollectivesLive | any script of barriers, gathers and broadcasts by one list of members, on top of Barrier; vote is a gather followed by a broadcast |
| MatchBits | how match bits keep barrier, broadcast and gather puts apart |
| Membership | the member table, group ranks and the lookups between ranks and ids |
| AddrCopy, SlotLayout, TableLists | cached copies against byte-wise translation, the slot array, and the table allocator |
| CtlBuffers, CtlBufferRuns, CtlList | the two flipped message buffers and how many messages they are sure to hold, and the received list |
| SendLoop, AsyncSend, PendingCounts | the loop that puts one message to many portals, and the accounting of unfinished sends |
| DataPortal | data buffer slots, the event queue and the byte counts of partial replies |
| Arith, Sequences | facts on division and on lists without repetition |

## What the results rest on

- In the collective operations the network delivers a put at most once, to the member it
  names, in any order and after any delay.
- In the asynchronous sender the reports, refusals and time-outs are inputs, arbitrary up to
  the length of the list of targets. `AsyncSend.Obedient` and `SendLoop.LegalNet` say that
  each report names a put that was issued and not reported before; what happens otherwise is
  stated too.
- A member that times out stops for good, as `srvr_coll_membership.c` prescribes; its queued
  tokens may vanish with it. All members of a run use the same participant list and the same
  sequence of operations. (nid, pid) pairs are unique.
- The type a caller gives to gather and broadcast is neither negative nor equal to
  BARRIER_TYPE. `MatchBits.KindsToldApart` shows that this is exactly the condition under
  which puts reach the right entry.
- `calcPhysAddress` is a page-wise function that keeps the page offset and may fail.
- A process's ppid is below the length of `taskTbl`.

## Where the code differs from its intent

- `SlotLayout.RegionFits`: T slots hold every region of R bytes if and only if
  R <= (T - 1) * PAGE_SIZE + 1. The sizes chosen for IA-64 miss this for 16 KB pages
  (`SlotLayout.ChosenTableSizes`); the i386 and Alpha sizes meet it.
- `TableLists.SubCache.Clear`: back links survive a clear if and only if the process had at most
  one TBL_REDO table left, because `prev` is not reset; two failed populates leave two
  (`TableLists.FailedPopulates`).
- `TableLists.SubCache.DropList`: resetting a process's list loses its tables if and only if
  the list was not empty.
- `CtlBufferRuns.CallSpacingIsExact`: maxMsgs messages from the start of one call to the
  start of the next can be too many. Nothing is ever lost with b of them if and only if
  2 * b <= maxMsgs + 1 (`CtlBufferRuns.TooManyPerCall` is the losing run). Counted from the
  start of the last call that has returned, maxMsgs earlier messages are always safe and
  one more is not (`CtlBufferRuns.WindowIsExact`).
- `AsyncSend.Sender.Send`: with lawful reports the call dies if and only if it names more than
  MAX_NODES targets and a put is unreported at its end (`AsyncSend.OversizedCall`), although
  only repeated targets make that many.
- `CtlList.CtlPtl.Free`: freeing a message leaves the first-unread pointer dangling if and
  only if it is the first unread message. Callers of the library get a handle only to
  messages already handed out, and freeing those keeps the list right, so only the library
  itself could do this.
- `CtlList.CtlPtl.GetNext`: a walk of the list is given up if and only if at least
  2 * maxMsgs messages follow its start and none of the first 2 * maxMsgs - 1 will do;
  after such a failure the first-unread pointer is null although unread messages may be left
  (`CtlList.SearchGivesUp`, `CtlList.SecondLostSightOf`).
- `DataPortal.CompleteIffFresh`: a complete buffer is recognised if and only if no event of
  the slot's previous buffer was still queued when the buffer was added
  (`DataPortal.StaleEvent`).
- `Membership.Group.Init`: a maximum of zero members is always refused, so the default
  maximum is never used.
- `dsrvr_gather` compares the rank of a member outside the list with the wrong error code.
  `GatherTree.Schedule` shows that such a member still takes no part.

## Model

| member | source | states |
|---|---|---|
| `FanInTree.Log2x` | top/lib/comm/srvr_coll_comm.c:88-96 | the result is the least i with 2^i >= x, in unbounded integers |
| `FanInTree.ShiftsReach` | top/lib/comm/srvr_coll_comm.c:93 | some shift of a signed 32-bit 1 reaches x, so that the loop ends as in `Log2x`, if and only if x <= 2^30 |
| `FanInTree.SourceIffTarget` | top/lib/comm/srvr_coll_util.c:194-218 | a is recorded by b as a source at some doubling step if and only if b is a with its lowest set bit cleared |
| `FanInTree.Hops` | top/lib/comm/srvr_coll_util.c:194-218 | every rank reaches rank 0 by following targets, and only rank 0 needs no hop |
| `FanInTree.CalcFanIn` | top/lib/comm/srvr_coll_util.c:166-229 | the doubling loop fills the array with exactly the positions whose target is this one, in order, at most log2 of the list length of them, and names this position's only target |
| `BarrierTrees.FewSources` | top/lib/comm/srvr_coll_util.c:132-161 | no member has more than log2x(n) sources |
| `Barrier.AllExpected` | top/lib/comm/srvr_coll_comm.c:367-494 | in every state satisfying the invariant, a token that a waiting member finds is one it waits for and belongs to its own round |
| `Barrier.InvStep` | top/lib/comm/srvr_coll_comm.c:779-902 | every step of every member, time-outs included, keeps the invariant: on each tree edge the four token counters form a cycle with total slack one |
| `Barrier.InvHolds` | top/lib/comm/srvr_coll_comm.c:779-902 | the invariant holds in every state of every run of repeated barriers |
| `Barrier.BarrierSafety` | top/lib/comm/srvr_coll_comm.c:779-902 | in every interleaving, if any member has returned from its k-th barrier then every member has entered its k-th barrier |
| `Barrier.NoRoundConfusion` | top/lib/comm/srvr_coll_comm.c:841-898 | in every state of every run each directed edge holds at most one token, the saved-event list is empty, and no more tokens are under way to a member than it has neighbours |
| `Barrier.ConsumedInRound` | top/lib/comm/srvr_coll_comm.c:367-494 | every token consumed in any run is expected and carries the consumer's round |
| `BarrierTrees.QueueSuffices` | top/lib/comm/srvr_coll_comm.c:183-190 | for up to MAX_NODES members the tokens under way to a member never exceed the barrier event queue |
| `Barrier.NeverStuck` | top/lib/comm/srvr_coll_comm.c:841-898 | if all have entered a barrier, none stopped and not all have returned, some member has a step |
| `Barrier.BarrierCompletes` | top/lib/comm/srvr_coll_comm.c:841-898 | from any reachable state with all members in the barrier, every schedule has the same length, fixed by a rank-based measure, has a next step until then, and ends with everybody returned |
| `Barrier.WorkStep` | top/lib/comm/srvr_coll_comm.c:841-898 | each step of a barrier lowers the measure by exactly one |
| `TokenLoops.AwaitSenders` | top/lib/comm/srvr_coll_comm.c:367-494 | success if and only if the events name every awaited sender as often as the list does, and no sooner than that; every event is matched to one sender or saved, and those saved are, in order, the ones that came once too often; a failure has looked at all events and names the first missing sender |
| `TokenLoops.MatchedIffArrived` | top/lib/comm/srvr_coll_comm.c:367-494 | with distinct senders, a sender is matched if and only if it sent |
| `BarrierTrees.ChildIffParent` | top/include/srvr-p2/srvr_coll_util.h:32-34 | c is one of the d children of r if and only if r is the parent of c, for every degree |
| `BarrierTrees.FindChildren` | top/lib/comm-p2/srvr_coll_util.c:160-174 | the loop finds exactly the children of a member that exist in the group |
| `TokenLoops.CollectTokens` | top/lib/comm-p2/srvr_coll_util.c:190-264 | the fan-in accepts if and only if the messages are one well-formed token from each distinct child |
| `TokenLoops.TestIsExact` | top/lib/comm-p2/srvr_coll_util.c:190-264 | no recorded process id is zero if and only if the messages are one from each child with a non-zero process id |
| `BarrierTrees.SynchronizationSafety` | top/lib/comm-p2/srvr_coll_util.c:134-370 | for every degree 1 to 8 and every group size, a member that returned from its k-th call implies that every member entered its k-th call, and no token is ever unexpected |
| `GatherTree.Schedule` | top/lib/comm/srvr_coll_comm.c:969-1033 | for every list length the bisection makes a participant receive from exactly the ranks reporting to it, each its whole range, and send its own range once to its parent; a member outside the list does nothing |
| `GatherTree.BlockHasFeeder` | top/lib/comm/srvr_coll_comm.c:969-1033 | every block a participant has to assemble, other than its own, is in the range of some rank reporting to it |
| `GatherTree.FeedersDisjoint` | top/lib/comm/srvr_coll_comm.c:969-1033 | the ranges of two ranks that report to the same participant do not overlap |
| `GatherTree.RangeIsBlocks` | top/lib/comm/srvr_coll_comm.c:969-1033 | the bytes of a transfer are exactly those of the sender's interval of blocks |
| `CollectivesProof.InvStep` | top/lib/comm/srvr_coll_comm.c:921-1261 | every step of every member keeps the invariant that ties phases, match entries, puts under way and buffer contents together |
| `CollectivesProof.EveryoneBegan` | top/lib/comm/srvr_coll_comm.c:1040-1066 | once anyone is released from the barrier of operation k, everybody has begun operation k |
| `CollectivesProof.ReceiverReady` | top/lib/comm/srvr_coll_comm.c:1040-1083 | a member about to send finds its receiver inside the same operation, past its set-up and without this data |
| `CollectivesProof.ArrivalAccepted` | top/lib/comm/srvr_coll_comm.c:547-621 | every put under way is accepted by the entry set up for exactly its operation |
| `CollectivesProof.DataNeverPrecedesSetup` | top/lib/comm/srvr_coll_comm.c:547-621 | in every state of every run, whoever a put travels to has attached that operation's entry, with room, and is still in the operation; no put is ever lost |
| `CollectivesProof.GatherCorrect` | top/lib/comm/srvr_coll_comm.c:921-1096 | when the root has returned from a gather, block j of its buffer is what participant j passed in, for every j |
| `CollectivesProof.BcastCorrect` | top/lib/comm/srvr_coll_comm.c:1131-1261 | whoever has returned from a broadcast holds what the root passed in |
| `CollectivesProof.SendsOnce` | top/lib/comm/srvr_coll_comm.c:1072-1093 | two puts from one member to another in a run belong to different operations |
| `CollectivesProof.VoteAgreement` | top/lib/comm/srvr_coll_util.c:54-116 | whoever has returned from a vote holds ballots in which entry j is participant j's vote, so all that return agree |
| `CollectivesLive.PresentStep` | top/lib/comm/srvr_coll_comm.c:1040-1093 | every step keeps: what a member waits for is still to be sent, on the wire, or in its queue |
| `CollectivesLive.OperationNeverStuck` | top/lib/comm/srvr_coll_comm.c:921-1261 | in an operation that everybody has begun, with nobody stopped, some step is possible until everybody has returned |
| `CollectivesLive.MeasureStep` | top/lib/comm/srvr_coll_comm.c:921-1261 | every step of an operation, arrivals included, lowers a measure by exactly one |
| `CollectivesLive.OperationCompletes` | top/lib/comm/srvr_coll_comm.c:921-1261 | from any reachable state with everybody in a barrier, gather or broadcast and nobody stopped, every schedule has the same length, has a next step until then, and ends with everybody returned |
| `MatchBits.KindsToldApart` | top/lib/comm/srvr_coll_comm.c:234-238 | puts of a type reach their own operation's entry and no other, whatever types the entries are set up for, if and only if the type is not negative and not the barrier's |
| `Membership.Group.Init` | top/lib/comm/srvr_coll_membership.c:112-184 | accepted if and only if not yet initialised and 0 <= rank < maximum; the table then holds this member only |
| `Membership.Group.Add` | top/lib/comm/srvr_coll_membership.c:185-202 | accepted if and only if initialised and the rank is below the maximum; exactly that entry changes |
| `Membership.Join` | top/lib/comm/srvr_coll_membership.c:112-202 | initialising and adding in any order gives the table of the additions, the last one for a rank winning, and adds outside the maximum do nothing |
| `Membership.Group.Rank` | top/lib/comm/srvr_coll_membership.c:277-290 | the loop leaves the increasing list of joined real ranks and each joined member's position in it, and changes nothing else in the table |
| `Membership.Group.Commit` | top/lib/comm/srvr_coll_membership.c:260-320 | ids and non-members are untouched; every joined member has its place in the increasing list of real ranks, whatever the barrier returns, and is active afterwards if and only if the commit succeeded; success if and only if the group has one member or the barrier succeeded |
| `Membership.RankingIsBijection` | top/lib/comm/srvr_coll_membership.c:277-289 | group ranks number the joined members, each exactly once, in real rank order |
| `Membership.Group.IdByRank` | top/lib/comm/srvr_coll_membership.c:352-377 | defined if and only if the rank is in the group, and then gives the id of the member with that rank |
| `Membership.Group.RankById` | top/lib/comm/srvr_coll_membership.c:390-415 | gives the first group rank with this id, -1 when there is none, and the error code before initialisation |
| `Membership.LookupInverts` | top/lib/comm/srvr_coll_membership.c:390-415 | looking up every rank's id gives the rank back if and only if ids are unique |
| `Membership.MembersAgree` | top/lib/comm/srvr_coll_membership.c:185-202 | two members that add the same group, each in any order, with or without itself, hold the same table and the same ranking |
| `Membership.GroupInTable` | top/lib/comm/srvr_coll_membership.c:185-202 | that table holds every member of the group at its real rank, nobody else, and ranks as many as the group has |
| `Membership.CommitBoth` | top/lib/comm/srvr_coll_membership.c:112-320 | two members that join the same group, in different orders, and commit hold the same list of ids by group rank, which has exactly the members of the group |
| `Membership.RelativeRank` | top/lib/comm/srvr_coll_util.c:231-253 | the first position of this rank in the list, unless a rank outside the group comes before it |
| `AddrCopy.WriteExact` | top/compute/OS/addrCache/cache.c:125-237 | a byte-wise write puts each datum at its translation and touches no byte that nothing in the region maps to |
| `AddrCopy.WriteThenRead` | top/compute/OS/addrCache/cache.c:239-351 | what was written is read back when no two pages share a frame |
| `AddrCopy.IndexIsPage` | top/compute/OS/addrCache/cache.c:179-213 | for every address of a validated region the slot computed is that of its page, and stored address plus offset is its translation |
| `AddrCopy.FillSlots` | top/compute/OS/addrCache/cache.c:517-593 | the loop writes one slot per page and no other slot, and fails if and only if some page of the region is not mapped; first, last and number of chunks are those of the region |
| `AddrCopy.Revalidate` | top/compute/OS/addrCache/cache.c:596-693 | success if and only if the region is mapped, and then the slots hold its translations and the chunk sizes are the region's; a failure leaves length 0 and the other fields as described; no other table changes, and no slot outside the region's share |
| `AddrCopy.CopyToUser` | top/compute/OS/addrCache/cache.c:125-237 | the request is granted if and only if start <= vaddr, vaddr + n <= start + length, and the table is valid, empty or translatable again; then memory is exactly as the byte-wise copy through the page table leaves it, otherwise unchanged; the table stays in order for the next request, with length 0 if and only if its revalidation failed, and no other table or slot changes |
| `AddrCopy.CopyFromUser` | top/compute/OS/addrCache/cache.c:239-351 | the bytes delivered are those found byte by byte through the page table, under the same condition and with the same effect on tables and slots |
| `AddrCopy.WriteAndReadBack` | top/compute/OS/addrCache/cache.c:125-351 | under that condition, and only then, a write is granted, and a read of the same addresses gives the written bytes back |
| `SlotLayout.LayoutSlots` | top/compute/OS/addrCache/cache.c:782-793 | table i of subcache j starts at the sum of the sizes of the subcaches before it plus i tables, and the array has the size of all of them |
| `SlotLayout.FirstSlotIs` | top/compute/OS/addrCache/cache.c:782-793 | counting table by table gives that closed form |
| `SlotLayout.SharesDisjoint` | top/compute/OS/addrCache/cache.c:782-793 | a slot belongs to the share of at most one table, and lies below the total size |
| `SlotLayout.RegionFits` | top/compute/OS/addrCache/cache.h:50-66 | T slots hold every region of up to R bytes at every alignment if and only if R <= (T - 1) * P + 1 |
| `SlotLayout.WholePagesFit` | top/compute/OS/addrCache/cache.h:50-54 | a region of at most K whole pages spans at most K + 1 pages |
| `SlotLayout.ChosenTableSizes` | top/compute/OS/addrCache/cache.h:41-67 | which of the chosen table sizes meet that condition, with a region that overruns each of the IA-64 ones |
| `SlotLayout.OthersIsolated` | top/compute/OS/addrCache/cache.c:782-793 | in a laid-out cache, writing the slots of a region that fits its table leaves every other table's translations in place |
| `SlotLayout.ValidateInCache` | top/compute/OS/addrCache/cache.c:517-593 | validating a region of at most K pages in a laid-out table of at least K + 1 slots stays inside the slot array, succeeds if and only if the region is mapped, leaves length 0 otherwise, and leaves every other table's translations in place, whatever page table they belong to |
| `SlotLayout.CopyIsolated` | top/compute/OS/addrCache/cache.c:125-351 | so does any copy request, whose head may revalidate its table |
| `TableLists.SubCache.constructor` | top/compute/OS/addrCache/cache.c:795-806 | all tables are on the free list, in order, and the counts and links agree |
| `TableLists.SubCache.Unlink` | top/compute/OS/addrCache/cache.c:695-716 | takes the first free table if there is one, and keeps the partition, the count and the links |
| `TableLists.SubCache.PopulateRedo` | top/compute/OS/addrCache/cache.c:411-436 | a free table moves to the head of the process's list with correct forward and back links, or nothing changes when none is free |
| `TableLists.SubCache.Find` | top/compute/OS/addrCache/cache.c:437-459 | finds the process's table for a start address, or shows there is none |
| `TableLists.SubCache.PopulateLookup` | top/compute/OS/addrCache/cache.c:437-501 | ends with the process's only table for this address, reusing one if it exists; fails if and only if there is none and no free table |
| `TableLists.SubCache.Link` | top/compute/OS/addrCache/cache.c:718-757 | a TBL_REDO table leaves its task's list, wherever it stands in it, for the head of the free list, and no start address or valid mark changes; a null key and TBL_LOOKUP change nothing |
| `TableLists.SubCache.Clear` | top/compute/OS/addrCache/cache.c:871-890 | the process's tables go to the free list and none is lost; exactly their keys are reset; the remaining invariant survives if and only if the cache is TBL_LOOKUP or at most one table was left |
| `TableLists.TwoLeftOver` | top/compute/OS/addrCache/cache.c:875-888 | two tables left on a list: the back links are right before the clear and wrong after it |
| `TableLists.FailedPopulates` | top/compute/OS/addrCache/cache.c:517-535 | two populates that fail to translate, then a clear, end with wrong back links |
| `TableLists.SubCache.DropList` | top/compute/OS/addrCache/cache.c:837-844 | no table is lost if and only if the list was empty |
| `TableLists.SubCache.Invalidate` | top/compute/OS/addrCache/cache.c:994-1005 | exactly the process's tables lose their valid mark |
| `CtlBuffers.InvStep` | top/lib/comm/srvr_comm_ctl.c:265-411 | every arrival and every step of scanning and flipping keeps the invariant on slots, descriptors and the accepted sequence |
| `CtlBuffers.OneQueue` | top/lib/comm/srvr_comm_ctl.c:265-411 | in every run, double flips included, what was received followed by what waits in buffer 1 and buffer 2 is what was accepted, in order, and no error return is taken |
| `CtlBuffers.SinceCall` | top/lib/comm/srvr_comm_ctl.c:354-411 | the room taken up since a returned call scanned is at most the arrivals since that call began |
| `CtlBuffers.ArrivalFits` | top/lib/comm/srvr_comm_ctl.c:354-411 | a message is accepted when at most maxMsgs messages came before it since a call began that has returned |
| `CtlBuffers.NothingDropped` | top/lib/comm/srvr_comm_ctl.c:552-567 | in a run whose every message comes so, everything that arrives is accepted, in order |
| `CtlBuffers.Fifo` | top/lib/comm/srvr_comm_ctl.c:265-411 | in such runs the received list is a prefix of the arrivals, and all of them once the buffers are scanned |
| `CtlBuffers.CallDelivers` | top/lib/comm/srvr_comm_ctl.c:354-411 | a call that has returned has received every message accepted before it began |
| `CtlBuffers.DroppedWhenFull` | top/lib/comm/srvr_comm_ctl.c:535-567 | an arrival is dropped if and only if no listed buffer has a slot left |
| `CtlBufferRuns.WindowIsExact` | top/lib/comm/srvr_comm_ctl.c:265-411 | for every maxMsgs: no run loses a message in which each finds at most w earlier ones since some returned call began, if and only if w <= maxMsgs |
| `CtlBufferRuns.OneTooMany` | top/lib/comm/srvr_comm_ctl.c:354-411 | for every maxMsgs, a run with windows of maxMsgs + 1 that loses a message |
| `CtlBufferRuns.CallSpacingIsExact` | top/lib/comm/srvr_comm_ctl.c:265-411 | for every maxMsgs: no run loses a message in which at most b come from the start of each call to the start of the next, if and only if 2 * b <= maxMsgs + 1 |
| `CtlBufferRuns.TooManyPerCall` | top/lib/comm/srvr_comm_ctl.c:354-411 | for every larger b, a run with at most b messages from call to call that loses one |
| `CtlList.CtlPtl.Receive` | top/lib/comm/srvr_comm_ctl.c:615-651 | appends an unread message and keeps first-unread the first unread message |
| `CtlList.CtlPtl.UpdateFirstUnread` | top/lib/comm/srvr_comm_ctl.c:586-614 | moves to the next unread message; fails if and only if the walk runs out of hops, and is null then |
| `CtlList.CtlPtl.GetNext` | top/lib/comm/srvr_comm_ctl.c:840-949 | hands out the earliest unread message that agrees with every field asked for, marks only that one, hands no message out twice; returns 0 if and only if every unread message differs in some field asked for; the exact hop failures, and none with fewer than 2 * maxMsgs messages |
| `CtlList.FirstIsWanted` | top/lib/comm/srvr_comm_ctl.c:888-914 | the message the walk ends at agrees field by field with what was asked for, no earlier unread one does, and if the walk ends nowhere none does |
| `CtlList.ReceiveAndGet` | top/lib/comm/srvr_comm_ctl.c:615-949 | a message received into a portal with nothing unread is handed out by the next request if and only if its nid, pid and type are those asked for, each unless any will do |
| `CtlList.CtlPtl.Free` | top/lib/comm/srvr_comm_ctl.c:652-710 | removes a message found among the first 2 * maxMsgs, else fails; the first-unread pointer stays right if and only if another message was freed, so always for a message that was handed out |
| `CtlList.WalkGivesUp` | top/lib/comm/srvr_comm_ctl.c:586-614 | for every maxMsgs, a list of 2 * maxMsgs messages on which handing out the first makes the walk to the next fail |
| `CtlList.SearchGivesUp` | top/lib/comm/srvr_comm_ctl.c:888-914 | for every maxMsgs, 2 * maxMsgs unread messages of another kind make a search delete the portal |
| `CtlList.SecondLostSightOf` | top/lib/comm/srvr_comm_ctl.c:936-949 | two messages in a portal made for one: the call for the first fails and the second, unread, is no longer found |
| `AsyncSend.Sender.AddBuf` | top/lib/comm/srvr_async.c:72-121 | remembers a message with the count of its unreported puts and adds them to the counts per node; fatal if and only if there is no such put or there are more targets than MAX_NODES, and then nothing is counted |
| `AsyncSend.ReportKeeps` | top/lib/comm/srvr_async.c:130-160 | taking any report off keeps each node's count equal to its unreported puts over all messages, and that count was positive |
| `AsyncSend.Sender.UpdateBufs` | top/lib/comm/srvr_async.c:123-161 | every remembered message loses exactly the wait marks its reports name and keeps its count right, the counts per node stay balanced; fatal if and only if a report names a put that does not wait |
| `AsyncSend.Sender.Prune` | top/lib/comm/srvr_async.c:163-202 | exactly the messages with a put still unreported after the reports stay, in order; fatal under the same condition only |
| `SendLoop.PutAll` | top/lib/comm/srvr_comm_ctl.c:1286-1380 | exactly the targets before the end with at most two puts outstanding are sent to; the loop ends early only at a put refused or a time-out; the marks left are the puts issued and not reported; never more than 251 puts are in flight; fatal only if a report breaks the law |
| `SendLoop.Poll` | top/lib/comm/srvr_comm_ctl.c:1343-1374 | the reports found before the loop ends, and no others, clear their marks; without a time-out at most MAX_ASYNC_SENDS puts are in flight afterwards |
| `AsyncSend.Sender.Send` | top/lib/comm/srvr_comm_ctl.c:1206-1422 | the messages kept are those with a put unreported, and this one in front if and only if it has such a put; exactly the targets before the end with at most two puts outstanding are sent to; with lawful reports a fatal check is reached if and only if the call has more than MAX_NODES targets and a put unreported at the end; a node's count never passes its old value or two plus the number of times the call names it |
| `AsyncSend.Sender.SendQuietly` | top/lib/comm/srvr_comm_ctl.c:1206-1422 | a call to at most MAX_ASYNC_SENDS portals that no refusal or time-out disturbs reaches every target with at most two puts outstanding |
| `AsyncSend.OversizedCall` | top/lib/comm/srvr_async.c:79-85 | a call with one target more than MAX_NODES whose first put is taken and unreported is fatal |
| `AsyncSend.OversizedBuf` | top/lib/comm/srvr_async.c:79-85 | such a buffer with its first put unreported is refused |
| `AsyncSend.Sender.SendDistinct` | top/lib/comm/srvr_async.c:204-209 | with distinct targets in each call no node ever has more than three puts outstanding, and with lawful reports no fatal check is reached |
| `DataPortal.SumIsCovered` | top/lib/comm/srvr_comm_data.c:482-493 | the byte count of a list of replies is at least the number of bytes they cover, and equal if and only if no two overlap |
| `DataPortal.CountIsExact` | top/lib/comm/srvr_comm_data.c:482-493 | disjoint replies inside the request never count more than was asked for, and count it all if and only if every byte was written |
| `DataPortal.OverlapMiscounts` | top/lib/comm/srvr_comm_data.c:482-493 | two overlapping replies make the count complete with a byte missing |
| `DataPortal.CompleteIffFresh` | top/lib/comm/srvr_comm_data.c:370-400 | for a fully written buffer the count equals the length if and only if no event of the slot's previous buffer was left over |
| `DataPortal.StaleEvent` | top/lib/comm/srvr_comm_data.c:374-400 | a buffer deleted before its event is counted: the slot's next buffer gets every byte and the test says no |
| `DataPortal.CutReply` | top/lib/comm/srvr_comm_get.c:137-145 | the bytes of the reply sent are exactly those of the reply that lie inside the request; it is refused if and only if there are none |
| `DataPortal.Portal.Grow` | top/lib/comm/srvr_comm_data.c:114-234 | adds free slots and keeps the old ones; fails if and only if the limit would be passed |
| `DataPortal.Portal.Add` | top/lib/comm/srvr_comm_data.c:296-373 | a free slot is found or made, the in-use count stays the number of live slots; refused if and only if the arguments are bad or the table is full and at its limit |
| `DataPortal.Portal.Delete` | top/lib/comm/srvr_comm_data.c:374-403 | frees exactly a live slot and keeps the in-use count |
| `DataPortal.Portal.Arrive` | top/lib/comm/srvr_comm_get.c:158-175 | a reply and its queued or dropped event keep counted, queued and dropped bytes equal to replied plus stale ones |
| `DataPortal.Portal.Process` | top/lib/comm/srvr_comm_data.c:452-510 | one pass empties the queue, adds to each write buffer the bytes and to each read buffer the number of its queued events, changes nothing else, and keeps that balance for every slot |
| `DataPortal.Portal.TestWrite` | top/lib/comm/srvr_comm_data.c:410-451 | with disjoint replies and no stale or dropped event the answer is yes if and only if every byte was written |

## Left out

- FanInTree.Log2x: computes in unbounded integers; ShiftsReach states for which x the 32-bit shifts agree, and the library calls it with at most MAX_NODES or the list length.
- The Portals calls, memory allocation failures, logging, and the clock: Portals calls are steps of the model, allocation succeeds, time-outs may happen at any point.
- Barriers over different overlapping lists: they need the saved-event list, whose insertion returns early and loses its second entry; in the runs modelled the list stays empty.
- dsrvr_reduce, compiled out and unfinished in the source.
- srvr_get_next_control_msg without a handle, and release_all_control_portals.
- The third subcache takes regions of any size; a copy through it is covered only when the region's pages fit its table, as FillSlots requires.
- AddrCopy.CopyToUser: the 32-bit truncation of the offset into a region is not modelled, regions are far smaller.
- TableLists.SubCache.PopulateLookup: the early return for a table that is already valid and long enough is not modelled, since it changes no list.
- TableLists.SubCache.PopulateRedo: a table whose validation failed stays on the process's list with a null key; the model has it stay, and Clear takes it back.
- CtlList: entries are a sequence named by ids instead of nodes with next and prev pointers; TableLists models such links.
- AsyncSend.Sender.Report: requires that the report's index is below the number of the message's targets, which the code does not check; it comes from the event that the library set up itself.
- The d-ary synchroniser's voting payload and its failure reports to the parent.
- The file I/O layer, the job launcher, kernel module registration, and the other utilities: device and process I/O that would add only easy members.
