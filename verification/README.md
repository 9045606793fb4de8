# Verified core of keepalived

This project models the data structures and protocol logic that keepalived's daemons stand on, and
proves what they are relied on for:

* the red-black trees of `lib/rbtree*.h` and `lib/rbtree.c`, as pointer operations on an arena of
  node records, with the cached and "moved" forms and the postorder teardown;
* the `list_sort` of `lib/list_head.c`, on an arena of doubly linked list nodes;
* a BFD session (`keepalived/bfd`), alone under every interleaving of packets and timers, and two
  of them over a network that loses, duplicates and reorders packets;
* the thread scheduler of `lib/scheduler.c`, built on those trees, over every run;
* the Internet checksum and its incremental update, the decimal reader and printer, and the `~SEQ`
  expansion of the configuration parser.

`dafny verify dfyconfig.toml` checks all of it.

## How it is laid out

| files | what they hold |
|---|---|
| `SortedSeq`, `Timers`, `Arith`, `Numerals` | the simple index a tree is compared with; deadlines and their order; powers and division; numbers as text |
| `RbShape`, `RbSteps` | trees as values, contexts, the five red-black rules; each rebalancing step on values |
| `RbArena`, `RbLinks`, `RbErase`, `RbWalk` | what the records in memory must say; what each step, the unlinking and the walks do to them |
| `RbTree` | class `RbRoot`: the operations as record writes |
| `StableSort`, `MergeSchedule`, `ListSort` | stable sorting as a function; which sublists are pending after `count` rounds; class `ListMem` |
| `BfdModel`, `BfdSession`, `BfdEffects`, `BfdNetwork` | a session as a value; its invariants, runs and the class `Bfd`; what each handler does, variable by variable; two sessions and a network |
| `SchedModel`, `SchedSteps`, `SchedRuns`, `SchedTimer` | the scheduler's queues and invariant; its steps; its runs; the deadline it waits for |
| `Forest`, `SchedFields`, `Scheduler` | the five trees of a thread master; its other fields as values; class `Master` |
| `Checksum`, `Decimal`, `SeqExpand` | the three smaller parts |

Choices worth knowing:

* Pointers are natural numbers into a map of records, 0 being null. A tree root owns its map, so a
  thread that is in a deadline tree and in the pid tree has a record in each, as its two `rb_node`
  members do.
* The source writes every rebalancing step twice, mirrored. Here the two halves are one body over a
  `Side`, so both are covered by one proof.
* A thread record carries an auxiliary field `at` naming the queue its links are in. Operations set
  it; where the source decides by the thread's type, the model does too, and the invariant shows the
  two agree.
* The clock, random draws, packets, file descriptors becoming ready and child exits are parameters.
* The states of a master and of its trees are given by functions into a datatype with a "broken"
  case. A contract `Now() == Good(step(old(Now()).s))` says that the trees are sound, the invariant
  holds, and the new state is exactly that step of the old one.

## What turned out not to hold

Six promises fail in corner cases of the code. Each has an example and the exact condition.

* `thread_set_timer` takes the deadline zero for "no deadline yet". It then arms the descriptor for a later
  deadline, or for ever if there is no other (`SchedTimer.ArmedForEarliest`, `SchedTimer.WakesForWork`,
  `SchedTimer.ZeroIsLost`, `SchedTimer.ZeroSleeps`).
* `thread_cancel` of the thread that is running leaves it in two places (`SchedSteps.CancelKeeps`, `SchedRuns.RunningCancelled`).
* `timer_thread_update_timeout` does not leave a ready timer alone if it is a shutdown timer, which keeps
  its waiting type (`SchedSteps.TimerMayUpdate`, `SchedRuns.ShutdownTimerReady`).
* A decimal that is cut to the largest `unsigned long` and then rounded up is read as zero
  (`Decimal.ReadRounds`, `Decimal.RoundedToZero`).
* `format_decimal` overflows its factor from ten decimal places on (`Decimal.FormatDecimal`, `Decimal.PrintedAsOne`).
* The number of an outer `~SEQx`, used as an inner bound, is read back as decimal (`SeqExpand.HexBound`, `SeqExpand.HexSixteen`).

Five more results are of the same kind. A BFD session that is Up but still idle announces an interval
shorter than the one it keeps to (`BfdSession.DetectionCovers`, `BfdSession.UpStillIdle`). An incremental
checksum update differs from recomputation exactly if the new buffer sums to zero
(`Checksum.Incremental16`, `Checksum.TwoZeros`). A BFD session whose neighbour asked for demand mode does
not start to send again when it expires (`BfdSession.StepTalks`, `BfdSession.SilentAfterExpiry`), although
section 6.8.7 of RFC 5880 has it send while it is not Up. A BFD session that is Down and accepts an AdminDown
or Up packet keeps the discriminator in it without a timer to clear it (`BfdSession.StepForgets`,
`BfdSession.HeldUntimed`), although section 6.8.1 of RFC 5880 has it cleared after a detection time without
packets; with a passive neighbour that restarts, both stay Down (`BfdNetwork.StuckForGood`). A reset clears
Final, so a poll accepted just before it is answered by a packet without Final
(`BfdEffects.FinalAnswersPoll`, `BfdEffects.ResetDropsFinal`).

## Model

| member | source | states |
|---|---|---|
| `RbShape.PlugRedBlack` | lib/rbtree.c:28-46 | a tree satisfies the red-black rules exactly if the subtree in focus does and fits the context around it |
| `RbShape.HeightAndSize` | lib/rbtree.c:28-46 | height is at most twice the black height, one more under a red root, and a tree holds at least two to the black height, less one, nodes |
| `RbShape.LogHeight` | lib/rbtree.c:28-46 | two to the height is at most (n+1) squared, so height is at most 2 log2(n+1) |
| `RbSteps.FlipKeeps` | lib/rbtree.c:130-151 | the colour flip moves the red-red conflict two levels up and breaks nothing else |
| `RbSteps.FlipInorder` | lib/rbtree.c:130-151 | the colour flip keeps the in-order sequence |
| `RbSteps.TurnFits` | lib/rbtree.c:153-195 | the rotation at the grandparent, with or without the one at the parent, ends the conflict |
| `RbSteps.TurnInorder` | lib/rbtree.c:153-195 | insertion rotations keep the in-order sequence |
| `RbSteps.GapSibling` | lib/rbtree.c:245-254 | where one black node is missing there is a sibling, and a red sibling has two black children |
| `RbSteps.LowerKeeps` | lib/rbtree.c:255-273 | rotating the red sibling up leaves the same deficit under a red parent and a black sibling |
| `RbSteps.LowerInorder` | lib/rbtree.c:255-273 | that rotation keeps the in-order sequence |
| `RbSteps.ReddenKeeps` | lib/rbtree.c:277-303 | reddening the sibling moves the deficit one level up, or ends it if the parent was red |
| `RbSteps.ReddenInorder` | lib/rbtree.c:277-303 | reddening keeps the in-order sequence |
| `RbSteps.TurnOuterFits` | lib/rbtree.c:343-364 | with a red outer nephew one rotation at the parent ends the deficit |
| `RbSteps.TurnOuterInorder` | lib/rbtree.c:343-364 | that rotation keeps the in-order sequence |
| `RbSteps.TurnInnerFits` | lib/rbtree.c:305-364 | with a red inner nephew two rotations end the deficit |
| `RbSteps.TurnInnerInorder` | lib/rbtree.c:305-364 | those rotations keep the in-order sequence |
| `RbTree.RbRoot.constructor` | lib/rbtree_types.h:32-32 | an empty root is a valid cached tree that holds nothing |
| `RbTree.RbRoot.Reset` | lib/scheduler.c:1039-1040 | assigning an empty root forgets all nodes and leaves a valid tree |
| `RbTree.RbRoot.Relink` | lib/rbtree.c:189-192 | the child, parent and colour writes of a rotation, before the ancestors learn of it |
| `RbTree.RbRoot.Rotate` | lib/rbtree.c:82-95 | a whole rotation, written records and root pointer |
| `RbTree.RbRoot.RotateAtParent` | lib/rbtree.c:153-177 | the first rotation of the inner insertion case, as record writes |
| `RbTree.RbRoot.InsertFlip` | lib/rbtree.c:130-151 | memory after the colour flip represents the flipped tree |
| `RbTree.RbRoot.InsertOuter` | lib/rbtree.c:179-195 | memory after the outer rotation represents the turned tree |
| `RbTree.RbRoot.InsertInner` | lib/rbtree.c:153-195 | memory after the inner double rotation represents the turned tree |
| `RbTree.RbRoot.InsertColor` | lib/rbtree.c:97-233 | the loop ends with a valid red-black tree of the old sequence with the new node where it was linked |
| `RbTree.RbRoot.FindSlot` | lib/rbtree.h:176-197 | the descent finds a leaf position, reports whether it is the leftmost, and under a strict weak order it is behind all nodes that are not greater |
| `RbTree.RbRoot.LinkNode` | lib/rbtree.h:64-71 | the new red leaf is linked at the position found |
| `RbTree.RbRoot.Add` | lib/rbtree.h:205-222 | the tree stays valid, exactly the new node is added, and a sorted tree stays sorted with the node behind its equals |
| `RbTree.RbRoot.EraseLower` | lib/rbtree.c:255-273 | memory after the sibling rotation represents the lowered tree |
| `RbTree.RbRoot.EraseOuter` | lib/rbtree.c:343-364 | memory after the outer nephew rotation represents the settled tree |
| `RbTree.RbRoot.Twist` | lib/rbtree.c:305-342 | the rotation at the sibling, as record writes |
| `RbTree.RbRoot.EraseInner` | lib/rbtree.c:305-364 | memory after both nephew rotations represents the settled tree |
| `RbTree.RbRoot.EraseSettle` | lib/rbtree.c:274-364 | with a black sibling the deficit is ended or moved up, and memory says so |
| `RbTree.RbRoot.EraseColor` | lib/rbtree.c:239-420 | the loop ends, with a valid red-black tree of the same sequence |
| `RbTree.RbRoot.UnlinkOneChild` | lib/rbtree_augmented.h:208-231 | a node with at most one child is replaced by it, and rebalancing is asked for exactly if a black leaf went |
| `RbTree.RbRoot.DetachSuccessor` | lib/rbtree_augmented.h:250-273 | the successor is found down the left spine and taken out of it |
| `RbTree.RbRoot.UnlinkTwoChildren` | lib/rbtree_augmented.h:232-295 | a node with two children is replaced by its successor, wherever that is, and rebalancing is asked for exactly if a black node went missing |
| `RbTree.RbRoot.Erase` | lib/rbtree.c:453-460 | the tree stays valid and its sequence is the old one without exactly that node |
| `RbTree.RbRoot.Neighbour` | lib/rbtree.c:507-569 | `rb_next` and `rb_prev` give the neighbour in the sequence, and 0 at its ends or for a cleared node |
| `RbTree.RbRoot.Extreme` | lib/rbtree.c:479-505 | `rb_first` and `rb_last` give the ends of the sequence |
| `RbTree.RbRoot.Find` | lib/rbtree.h:266-284 | a node that compares equal is found exactly if there is one |
| `RbTree.RbRoot.AddCached` | lib/rbtree.h:175-197 | as `Add`, and the cached leftmost node is the first of the sequence again |
| `RbTree.RbRoot.EraseCached` | lib/rbtree.h:129-140 | as `Erase`, and the cached leftmost node is the first of the sequence again |
| `RbTree.RbRoot.MoveCached` | lib/rbtree_ka.h:87-106 | after a key was changed in place the sequence is the re-sorted one, the node staying put exactly if its neighbours allow it |
| `RbTree.RbRoot.LeftDeepest` | lib/rbtree.c:612-623 | the first node of a subtree in postorder |
| `RbTree.RbRoot.NextPostorder` | lib/rbtree.c:625-643 | the next node in postorder, read from records not yet given up |
| `RbTree.RbRoot.DestroyAll` | lib/rbtree.h:110-114 | the safe postorder loop visits every node once, children before parents, and still does when each visited node's record is destroyed |
| `SortedSeq.InsertSorted` | lib/rbtree.h:205-222 | sorted insertion keeps the order and adds one element |
| `SortedSeq.Cut` | lib/rbtree.h:205-222 | the new element goes behind all that are not greater and before all that are |
| `SortedSeq.RemoveSorted` | lib/rbtree.h:129-140 | removal keeps the order |
| `SortedSeq.SplitAt` | lib/rbtree.h:129-140 | removal takes out that element and nothing else |
| `SortedSeq.StaysSorted` | lib/rbtree_ka.h:87-106 | comparing with the two neighbours decides whether the whole sequence is still sorted |
| `SortedSeq.ResortSorted` | lib/rbtree_ka.h:87-106 | moving one changed element gives a sorted permutation, and changes nothing exactly if it was sorted |
| `Timers.TimerOrder` | lib/timer.h:78-95 | the order of deadlines, disabled ones last, is a strict weak order |
| `Timers.DueFirst` | lib/scheduler.c:266-286 | in a sorted tree every timer before a due one is due |
| `Timers.DueExact` | lib/scheduler.c:275-275 | a timer is due exactly if the microseconds of its deadline have been reached by the clock, and never if disabled |
| `Timers.TimerLessExact` | lib/timer.h:78-95 | the tree order is that of the microseconds, disabled timers last |
| `RbWalk.PostorderPermutes` | lib/rbtree.c:612-653 | postorder and in-order visit the same nodes |
| `StableSort.SortConcat` | lib/list_head.c:33-61 | merging the sorted halves, left first on ties, is sorting the whole |
| `StableSort.SortCorrect` | lib/list_head.c:121-148 | the result of sorting is ascending, a permutation, and keeps equal elements in order |
| `MergeSchedule.Round` | lib/list_head.c:235-258 | in every round the walk stays within the pending lists and the merge joins two lists of the same power of two |
| `MergeSchedule.PendingTable` | lib/list_head.c:149-202 | the number of pending lists of size 2^k is what the bits of `count` say, and at most two, for every k |
| `MergeSchedule.SizesGrow` | lib/list_head.c:224-225 | every pending size is a power of two, and smaller ones come first |
| `MergeSchedule.FinalMerges` | lib/list_head.c:260-273 | all elements are pending, at least two lists remain, and the scheduled sizes make each final merge at worst 2:1 |
| `ListSort.ListMem.TakeHead` | lib/list_head.c:40-57 | one comparison, and the head it chooses is appended, keeping what the merge is to yield |
| `ListSort.ListMem.Merge` | lib/list_head.c:33-61 | two null-terminated lists become their stable merge; no other node is written; the calls of `cmp` are those of `MergeCalls` |
| `ListSort.ListMem.WeaveBack` | lib/list_head.c:75-97 | the merging loop of `merge_final`, with backward links |
| `ListSort.ListMem.BackLinks` | lib/list_head.c:99-114 | the backward links of the remainder |
| `ListSort.ListMem.MergeFinal` | lib/list_head.c:70-119 | two lists become a correct circular doubly linked list of their stable merge |
| `ListSort.ListMem.Walk` | lib/list_head.c:239-241 | the walk ends before the two lists that the least clear bit of `count` selects |
| `ListSort.ListMem.MergeAt` | lib/list_head.c:243-250 | these two lists are replaced by their merge, the thread of heads mended |
| `ListSort.ListMem.RoundMerge` | lib/list_head.c:239-250 | the walk never meets null, and the two lists it stops at are replaced by their merge |
| `ListSort.ListMem.Take` | lib/list_head.c:252-257 | one input element becomes the newest pending list |
| `ListSort.ListMem.OneRound` | lib/list_head.c:235-258 | after every round the pending lists are sorted, contiguous in the input, and of the scheduled sizes |
| `ListSort.ListMem.MergePending` | lib/list_head.c:260-272 | merging all pending lists gives the circular list of all their elements, sorted |
| `ListSort.PendingSizes` | lib/list_head.c:224-225 | in every round of the program the sublists in memory are of power-of-two length, smaller ones first |
| `ListSort.ListMem.AllRounds` | lib/list_head.c:235-258 | the loop ends with all of the input pending, sorted in sublists of the scheduled sizes |
| `ListSort.MergesBalanced` | lib/list_head.c:198-203 | the lists merged in the end, what has been gathered and the next sublist, are at worst 2:1 in length |
| `ListSort.RoundInOrder` | lib/list_head.c:129-131 | the merge of a round calls `cmp` only with the element that came first in the input as its first argument |
| `ListSort.FinalInOrder` | lib/list_head.c:129-131 | so does each final merge |
| `ListSort.ListMem.ListSort` | lib/list_head.c:204-273 | for every list and total preorder the list becomes the circular doubly linked list of its stable sort, no other node is written, and every comparison has the earlier element of the input first |
| `BfdSession.InitialInv` | keepalived/bfd/bfd.c:155-163 | a new session satisfies the invariant |
| `BfdSession.ReceiveKeeps` | keepalived/bfd/bfd_scheduler.c:654-835 | an accepted packet moves the session as the state table of section 6.8.6 of RFC 5880 says, redraws the discriminator exactly on leaving Up, and keeps timers, coupling and intervals consistent |
| `BfdSession.ReceiveReports` | keepalived/bfd/bfd_scheduler.c:490-576 | every change into and out of Up is reported once, a neighbour's AdminDown excepted |
| `BfdSession.ThreeWay` | keepalived/bfd/bfd_scheduler.c:792-810 | of two sessions that are Down, the first packet is accepted exactly if its sender holds no discriminator or the current one of the other; then three packets bring both Up |
| `BfdSession.ReceivePaced` | keepalived/bfd/bfd_scheduler.c:749-764 | after any packet the session keeps to its fast or its idle interval, raised to what the neighbour asks for |
| `BfdSession.DetectionCovers` | keepalived/bfd/bfd_scheduler.c:749-768 | for every receiver: the detection time is the sender's multiplier times the interval expected, and when new intervals are taken in that is at least the interval the sender keeps to, exactly if the sender is not Up while still idle; it is equal while neither is Up |
| `BfdSession.UpStillIdle` | keepalived/bfd/bfd_scheduler.c:756-763 | the exception occurs: a session that goes from Down to Up at once still has its idle interval |
| `BfdSession.JitterKeeps` | keepalived/bfd/bfd_scheduler.c:109-131 | with the jitter applied the sender waits 75 to 90 per cent of the interval, rounded |
| `BfdSession.ExpireKeeps` | keepalived/bfd/bfd_scheduler.c:226-265 | expiry keeps the invariant, and from Up always emits a Down event |
| `BfdSession.ResetKeeps` | keepalived/bfd/bfd_scheduler.c:360-375 | a reset keeps the invariant |
| `BfdSession.BuiltIsSane` | keepalived/bfd/bfd.c:177-291 | every packet built in a reachable state passes the receiver's checks |
| `BfdSession.StepKeeps` | keepalived/bfd/bfd_scheduler.c:226-397 | every input that can happen keeps the invariant |
| `BfdSession.RunsKeepInv` | keepalived/bfd/bfd_scheduler.c:226-835 | after every interleaving of packets and timers: expiry is scheduled exactly in Init and Up, reset only in Down, Up and Init agree with the recorded remote state, and the interval is the idle one unless Up |
| `BfdSession.StepTalks` | keepalived/bfd/bfd_scheduler.c:812-822 | an active session stops having a sender exactly when it expires while silenced by demand mode |
| `BfdSession.SilentAfterExpiry` | keepalived/bfd/bfd_scheduler.c:812-822 | a session that is Up, silenced and then expired neither sends nor is going to |
| `BfdSession.StepForgets` | keepalived/bfd/bfd_scheduler.c:257-264 | after a step a timer is going to clear the remote discriminator exactly if the packet taken in was not AdminDown or Up for a Down session without reset timer, or, without a packet, if a timer fired or one was set before |
| `BfdSession.HeldUntimed` | keepalived/bfd/bfd_scheduler.c:736-747 | a new session that accepts an AdminDown packet holds the discriminator without any timer to clear it |
| `BfdSession.StaleRejected` | keepalived/bfd/bfd_scheduler.c:677-681 | a neighbour that has another discriminator by now rejects what such a session sends |
| `BfdSession.Bfd.constructor` | keepalived/bfd/bfd.c:155-163 | the initial session |
| `BfdSession.Bfd.StateDown` | keepalived/bfd/bfd_scheduler.c:475-525 | the new session after going Down, with no assertion failing on the way |
| `BfdSession.Bfd.StateRise` | keepalived/bfd/bfd_scheduler.c:545-561 | what Init and Up have in common |
| `BfdSession.Bfd.StateUp` | keepalived/bfd/bfd_scheduler.c:564-576 | the new session after going Up |
| `BfdSession.Bfd.StateInit` | keepalived/bfd/bfd_scheduler.c:579-594 | the new session after going Init |
| `BfdSession.Bfd.UpdateIntervals` | keepalived/bfd/bfd_scheduler.c:749-764 | negotiated intervals, only outside Up or in a poll sequence |
| `BfdSession.Bfd.TakeIn` | keepalived/bfd/bfd_scheduler.c:736-768 | all that a packet brings before the state machine runs |
| `BfdSession.Bfd.Machine` | keepalived/bfd/bfd_scheduler.c:793-810 | the state machine as a function of the two states |
| `BfdSession.Bfd.Finish` | keepalived/bfd/bfd_scheduler.c:812-835 | demand mode, the answer to a poll, and the delayed expiry |
| `BfdSession.Bfd.Process` | keepalived/bfd/bfd_scheduler.c:729-835 | the handler after its checks |
| `BfdSession.Bfd.HandlePacket` | keepalived/bfd/bfd_scheduler.c:654-835 | a packet that is not accepted changes nothing, any other keeps the invariant, and no assertion fails |
| `BfdSession.Bfd.ExpireThread` | keepalived/bfd/bfd_scheduler.c:226-265 | expiry, with its assertions proved |
| `BfdSession.Bfd.ResetThread` | keepalived/bfd/bfd_scheduler.c:360-375 | the reset, with its assertions proved |
| `BfdSession.Bfd.BuildPacket` | keepalived/bfd/bfd.c:177-211 | the packet built, a poll giving way to a final |
| `BfdSession.Bfd.SenderThread` | keepalived/bfd/bfd_scheduler.c:76-106 | one packet sent, by timer or as an event, with its assertions proved |
| `BfdEffects.StateTable` | keepalived/bfd/bfd_scheduler.c:793-810 | the state after any accepted packet, from the old state and the state in the packet alone, all cases as equivalences |
| `BfdEffects.Remembers` | keepalived/bfd/bfd_scheduler.c:736-743 | what is remembered of the neighbour is what the packet says |
| `BfdEffects.Redraws` | keepalived/bfd/bfd_scheduler.c:498-518 | a new discriminator exactly on leaving Up, and the diagnostic of a fall or a rise |
| `BfdEffects.Negotiates` | keepalived/bfd/bfd_scheduler.c:749-768 | both intervals and both detection times after any packet |
| `BfdEffects.Rearms` | keepalived/bfd/bfd_scheduler.c:546-562 | the expiry and reset timers after any packet, with their delays |
| `BfdEffects.KeepsSending` | keepalived/bfd/bfd_scheduler.c:779-822 | the sender after any packet: silenced, started, moved or left |
| `BfdEffects.Answers` | keepalived/bfd/bfd_scheduler.c:824-827 | a poll sets Final and queues one packet, and nothing else does |
| `BfdEffects.Polls` | keepalived/bfd/bfd_scheduler.c:745-747 | when a poll sequence is going on after a packet |
| `BfdEffects.AcceptsExact` | keepalived/bfd/bfd.c:217-309 | starting from an accepted packet, which values of each single field keep it accepted |
| `BfdEffects.AcceptsState` | keepalived/bfd/bfd.c:217-290 | without a discriminator only Down and AdminDown are accepted |
| `BfdEffects.ExpiryExact` | keepalived/bfd/bfd_scheduler.c:228-265 | expiry forgets the neighbour, redraws exactly from Up, and sets the timers |
| `BfdEffects.ResetExact` | keepalived/bfd/bfd.c:165-172 | what a reset clears and what it keeps |
| `BfdEffects.PacketExact` | keepalived/bfd/bfd.c:177-213 | every field of a packet sent; Final takes precedence over Poll |
| `BfdEffects.SentExact` | keepalived/bfd/bfd_scheduler.c:78-106 | after sending Final is clear, and only the sender or the queue has changed besides |
| `BfdEffects.InitialExact` | keepalived/bfd/bfd.c:155-163 | a new session knows nobody and, unless passive, sends at once |
| `BfdEffects.FinalAnswersPoll` | keepalived/bfd/bfd_scheduler.c:100-101 | on every run, of two packets sent in succession the second carries Final exactly if a poll was accepted in between and no reset followed it |
| `BfdEffects.FirstFinal` | keepalived/bfd/bfd_scheduler.c:100-101 | the same for the first packet |
| `BfdEffects.ResetDropsFinal` | keepalived/bfd/bfd.c:165-172 | the exception occurs: the queued answer goes out without Final |
| `BfdEffects.PollsBalance` | keepalived/bfd/bfd_scheduler.c:824-827 | on every run the queue holds one packet for each poll that has not been answered by a queued packet |
| `BfdNetwork.RunKnown` | keepalived/bfd/bfd_scheduler.c:736-738 | on every run, every packet under way is one that the other end sent at an earlier step, and a discriminator that is echoed was accepted before |
| `BfdNetwork.Held` | keepalived/bfd/bfd_scheduler.c:504-505 | a discriminator once given up is not held again |
| `BfdNetwork.RisesByPacket` | keepalived/bfd/bfd_scheduler.c:677-681 | only a packet that carries the session's own discriminator takes it Up |
| `BfdNetwork.Handshake` | keepalived/bfd/bfd_scheduler.c:793-810 | freshness: a session enters Up only on a packet that the peer sent after accepting a packet that this session sent, and it held the discriminator it enters Up with all that time |
| `BfdNetwork.LeavesUp` | keepalived/bfd/bfd_scheduler.c:504-505 | on every run a session that leaves Up, by a packet or by expiry, takes a discriminator it has never held |
| `BfdNetwork.UpOnce` | keepalived/bfd/bfd_scheduler.c:504-505 | so it never again has the discriminator it was Up with |
| `BfdNetwork.RunPaced` | keepalived/bfd/bfd_scheduler.c:740-764 | on every run each end keeps its configuration, knows the other's minimum receive interval once Up, and keeps to one of its two intervals |
| `BfdNetwork.DetectionOnRuns` | keepalived/bfd/bfd_scheduler.c:749-768 | on every run, whatever packet arrives: its sender, as it was when sending, is covered by the detection time, unless it was still idle |
| `BfdNetwork.StuckForGood` | keepalived/bfd/bfd_scheduler.c:677-681 | a session that holds a stale discriminator and a passive neighbour both stay Down, whatever is delivered and whichever timers fire |
| `BfdNetwork.StuckByRestart` | keepalived/bfd/bfd_scheduler.c:736-747 | how that comes about: an AdminDown packet to a new session, and a passive neighbour that starts afresh with nothing under way |
| `BfdNetwork.SwapIsRun` | keepalived/bfd/bfd_scheduler.c:654-835 | the two ends are alike, so the theorem holds for both |
| `SchedModel.ExactlyOne` | lib/scheduler.c:1427-1452 | under the invariant a thread is in exactly one queue, one its type allows, and in the pid index exactly if it is a child or a queued child timeout |
| `SchedModel.InOrder` | lib/timer.h:78-95 | sooner deadlines come first in the trees, smaller pids in the pid index |
| `SchedModel.RelocateInv` | lib/scheduler.c:254-264 | moving a thread keeps the invariant if the pid index is left as it must be |
| `SchedModel.CreateInv` | lib/scheduler.c:1104-1120 | allocating a thread keeps the invariant |
| `SchedSteps.AddKeeps` | lib/scheduler.c:1104-1554 | adding a thread of any type keeps the invariant |
| `SchedSteps.AddPlaces` | lib/scheduler.c:1104-1120 | the longest unused thread is reused, one is allocated and counted only if there is none, and events queue up in order |
| `SchedSteps.MoveReadyKeeps` | lib/scheduler.c:254-264 | making a thread ready keeps the invariant |
| `SchedSteps.DueCountExact` | lib/scheduler.c:266-286 | the threads at the front that are due are all the threads that are due |
| `SchedSteps.ExpireKeeps` | lib/scheduler.c:266-286 | expiry of a tree keeps the invariant |
| `SchedSteps.ExpireQueues` | lib/scheduler.c:266-286 | the due threads go to the end of the ready list in the order of the tree |
| `SchedSteps.DueOfExact` | lib/scheduler.c:266-286 | those moved are exactly the due ones, in order of deadline |
| `SchedSteps.ExpireExact` | lib/scheduler.c:266-286 | a thread is changed by the expiry of a tree exactly if it is in that tree and due |
| `SchedSteps.FetchKeeps` | lib/scheduler.c:2096-2127 | fetching the next thread keeps the invariant; a child timeout leaves the pid index now |
| `SchedSteps.FetchOldest` | lib/scheduler.c:1901-1907 | an event that waits goes first, within a list the oldest thread goes first, and the rest stay in order |
| `SchedSteps.FetchThread` | lib/scheduler.c:2120-2127 | only the place of the thread fetched changes, and a timed-out child leaves the pid index |
| `SchedSteps.FinishKeeps` | lib/scheduler.c:2168-2173 | after a thread has run it is unused, nothing is running and the invariant holds |
| `SchedSteps.CancelKeeps` | lib/scheduler.c:1584-1653 | cancelling keeps the invariant exactly if the thread is not the running one or is a shutdown timer or termination event |
| `SchedSteps.CancelExact` | lib/scheduler.c:1584-1653 | which types are left alone; any other thread is unused afterwards, the last of the unused list and out of the pid index |
| `SchedSteps.CancelQueue` | lib/scheduler.c:1596-1652 | what each queue is afterwards |
| `SchedRuns.RunningCancelled` | lib/scheduler.c:1634-1652 | a run after which cancelling leaves one thread on two queues |
| `SchedSteps.ChildExitKeeps` | lib/scheduler.c:2188-2219 | a child's exit is noticed once: the thread is ready with its final type, in place if its timeout was queued, and no longer in the pid index |
| `SchedSteps.RescheduleKeeps` | lib/scheduler.c:1485-1496 | giving all children the same deadline in place leaves their tree sorted |
| `SchedSteps.UpdateKeeps` | lib/scheduler.c:1390-1411 | a node that is moved is in the timer tree exactly if `MayUpdate` holds, which an unchanged deadline always meets; then the invariant is kept, that one deadline is changed, and ready timers are left alone |
| `SchedSteps.TimerMayUpdate` | lib/scheduler.c:1396-1405 | of all timers only a shutdown timer that is ready or running must not be given a different deadline |
| `SchedRuns.ShutdownTimerReady` | lib/scheduler.c:1396-1399 | a run after which there is such a timer |
| `SchedSteps.RequeueKeeps` | lib/scheduler.c:1217-1237 | a read thread is always in the read tree, so moving it there keeps the invariant; any other thread is left alone |
| `SchedSteps.CleanupKeeps` | lib/scheduler.c:1020-1061 | after a cleanup nothing is left, or the children waited for, unchanged and in order, and exactly them in the pid index |
| `SchedRuns.TimerFdExact` | lib/scheduler.c:373-377 | one call of the handler makes every due thread ready with the right type and touches no other |
| `SchedRuns.FiresOnTime` | lib/scheduler.c:266-286 | one call of the handler, by the microseconds of clock and deadline: which threads are made ready and with which type |
| `SchedRuns.NextKeeps` | lib/scheduler.c:2084-2219 | every step keeps the invariant |
| `SchedRuns.NextOnTime` | lib/scheduler.c:266-286 | no step makes a timer fire early |
| `SchedRuns.RunsAreSafe` | lib/scheduler.c:2084-2219 | over every sequence of steps the invariant holds, and whatever is ready or running because its time is up is due |
| `SchedRuns.NeverEarly` | lib/scheduler.c:266-286 | on every run a thread that is ready or running by timeout has a deadline not after the clock, in microseconds |
| `SchedRuns.CancelledIsNotRun` | lib/scheduler.c:1584-1653 | a cancelled thread is not run again until its storage is handed out for a new one |
| `SchedTimer.LeastIsMin` | lib/scheduler.c:287-305 | comparing the deadlines in turn finds the least exactly if no zero is followed by another deadline |
| `SchedTimer.HeadIsEarliest` | lib/scheduler.c:287-305 | the first thread of a tree has the earliest enabled deadline in it |
| `SchedTimer.DeadlineExact` | lib/scheduler.c:308-319 | the deadline found is the earliest enabled one of all threads in the four trees exactly under that condition, and zero if there is none |
| `SchedTimer.LeftExact` | lib/scheduler.c:321-352 | a wait for the time left ends at the deadline, and any shorter one before it |
| `SchedTimer.ArmedExact` | lib/scheduler.c:321-352 | the descriptor is armed for the time left, a nanosecond if that has passed, and for ever if the deadline is zero; it is never disarmed |
| `SchedTimer.ArmedForEarliest` | lib/scheduler.c:308-352 | the descriptor is armed for the earliest deadline of all threads exactly if no tree starts with zero, or the deadline found is not zero and has passed |
| `SchedTimer.WakesForWork` | lib/scheduler.c:308-360 | at every time to come the descriptor has fired exactly if some thread is due, and this holds exactly under the same condition |
| `SchedTimer.DueIsWork` | lib/scheduler.c:266-286 | what the handler finds due is what the descriptor is armed for |
| `SchedTimer.ZeroIsLost` | lib/scheduler.c:302-304 | a run of two adds, the invariant holding, after which the descriptor is armed for the later deadline although the earlier one is due |
| `SchedTimer.ZeroSleeps` | lib/scheduler.c:321-337 | a run of one add after which the deadline found is the earliest, its thread is due, and the descriptor is armed for ever |
| `Forest.Trees.FirstOfIsFirst` | lib/rbtree.h:117-117 | the cached leftmost node is the first thread of the tree |
| `Forest.Trees.NextOf` | lib/rbtree_ka.h:63-65 | the iteration step gives the next thread of the tree |
| `Forest.Trees.Add` | lib/scheduler.c:1476-1477 | a thread is added to one tree in order of deadline, and the other trees are not touched |
| `Forest.Trees.Erase` | lib/scheduler.c:254-264 | a thread is taken off one tree, and the other trees are not touched |
| `Forest.Trees.Move` | lib/scheduler.c:1407-1410 | a thread whose deadline changed is put where it belongs |
| `Forest.Trees.AddPid` | lib/scheduler.c:1479-1480 | a child is added to the pid tree |
| `Forest.Trees.ErasePid` | lib/scheduler.c:2122-2127 | a child is taken off the pid tree |
| `Forest.Trees.ClearPids` | lib/scheduler.c:1039-1040 | the pid tree is emptied at once |
| `Forest.Trees.Destroy` | lib/scheduler.c:983-1017 | a tree is emptied in postorder, each thread visited once |
| `Forest.Trees.FindPid` | lib/scheduler.c:2195-2197 | the child with a pid is found exactly if there is one |
| `Forest.MakeTrees` | lib/scheduler.c:792-797 | five different trees, all empty |
| `SchedFields.DrainIsExpire` | lib/scheduler.c:266-286 | the loop, one thread at a time, is the expiry of the tree |
| `Scheduler.Master.constructor` | lib/scheduler.c:778-803 | a new master is idle |
| `Scheduler.Master.Move` | lib/scheduler.c:254-264 | a thread leaves its tree or list and joins another |
| `Scheduler.Master.MoveReady` | lib/scheduler.c:254-264 | is that step of the model |
| `Scheduler.Master.New` | lib/scheduler.c:1104-1120 | reuses the first unused thread, or allocates one and counts it |
| `Scheduler.Master.Add` | lib/scheduler.c:1453-1483 | is that step of the model, with the pid tree for children |
| `Scheduler.Master.RbMoveReady` | lib/scheduler.c:266-286 | the loop is the expiry of the tree |
| `Scheduler.Master.TimerFd` | lib/scheduler.c:373-377 | the four loops, in order |
| `Scheduler.Master.Fetch` | lib/scheduler.c:2096-2127 | events first, then ready threads, oldest first |
| `Scheduler.Master.Finish` | lib/scheduler.c:2168-2173 | the thread that ran is unused again |
| `Scheduler.Master.Cancel` | lib/scheduler.c:1584-1653 | is that step of the model, the tree or list chosen by the thread's type, and leaves a sound master exactly if the thread was not running or its type is not cancelled |
| `Scheduler.Master.FindChild` | lib/scheduler.c:2195-2197 | a child with the pid is found exactly if one is waited for |
| `Scheduler.Master.ChildProcessed` | lib/scheduler.c:2188-2219 | a known child's exit is that step of the model, an unknown one changes nothing |
| `Scheduler.Master.UpdateTimeout` | lib/scheduler.c:1390-1411 | is that step of the model, on the tree |
| `Scheduler.Master.RequeueRead` | lib/scheduler.c:1217-1237 | is that step of the model, on the tree |
| `Scheduler.Master.RescheduleChildren` | lib/scheduler.c:1485-1496 | the loop over the child tree changes every child and nothing else |
| `Scheduler.Master.DestroyRb` | lib/scheduler.c:983-1017 | all threads of a tree become unused, each once, and the tree is empty |
| `Scheduler.Master.DropTimedOut` | lib/scheduler.c:975-976 | children that timed out leave the pid tree when others are kept |
| `Scheduler.Master.DestroyList` | lib/scheduler.c:948-981 | all threads of a list become unused and the list is empty |
| `Scheduler.Master.CleanUnuse` | lib/scheduler.c:919-934 | all unused threads are freed and no longer counted |
| `Scheduler.Master.Cleanup` | lib/scheduler.c:1020-1061 | is that step of the model: the master ends up empty, or with the children it keeps |
| `Scheduler.Master.SetTimer` | lib/scheduler.c:308-360 | the descriptor is armed for the deadline found from the four cached nodes, which is the earliest of all exactly if `Timely` |
| `Checksum.InCsum` | lib/utils.c:540-573 | the loop adds up the 16-bit words of the buffer, an odd byte padded, modulo 2 to the 32 |
| `Checksum.SumExact` | lib/utils.c:554-561 | the sum is that of the words at even positions; an odd last byte counts as if a zero followed |
| `Checksum.Examples` | lib/utils.c:554-571 | the example of section 3 of RFC 1071, and a single byte |
| `Checksum.AnswerIs` | lib/utils.c:566-572 | two folds and a complement give the negated residue modulo 65535, with the right one of the two zeros |
| `Checksum.AcceptedIff` | lib/utils.c:566-572 | the result is 0 exactly if the sum is a positive multiple of 65535 |
| `Checksum.PiecesAreWhole` | lib/utils.c:563-564 | checksumming in even pieces through `acc` is checksumming the whole, even if the accumulator wraps |
| `Checksum.HoldsOwnChecksum` | lib/utils.c:540-573 | a buffer holding its own checksum in a field that was zero checksums to 0 |
| `Checksum.Incremental16` | lib/utils.h:215-232 | a 16-bit update gives the checksum of the new buffer exactly if the field is unchanged or the new buffer does not sum to zero |
| `Checksum.Incremental32` | lib/utils.h:196-213 | the same for a 32-bit field |
| `Checksum.TwoZeros` | lib/utils.h:215-232 | a buffer for which the two differ |
| `Checksum.ByteOrderIndependent` | lib/utils.c:554-561 | words may be summed in host order: the stored checksum is the same on hosts of either order |
| `Decimal.FactorVanishes` | lib/utils.c:1052-1056 | the 32-bit factor is zero exactly from 32 places on |
| `Decimal.FormatDecimal` | lib/utils.c:1048-1061 | prints the number as a decimal fraction exactly if there are at most nine places, or at most nineteen and the number is below the factor; what a negative number of places prints |
| `Decimal.PrintedAsOne` | lib/utils.c:1055-1058 | with ten to nineteen places the factor itself is printed as one |
| `Decimal.FactorTen` | lib/utils.c:1052-1056 | the factor for ten places |
| `Decimal.FormatFits` | lib/utils.c:1051-1051 | with up to nine places the text always fits the static buffer |
| `Decimal.MovePoint` | lib/parser.c:573-595 | the point moved `shift` places, decimals cut or filled up, and whether what was cut rounds up |
| `Decimal.ReadDecimal` | lib/parser.c:548-630 | builds the shifted string, has it parsed, rounds and judges it |
| `Decimal.NoPoint` | lib/parser.c:573-575 | a number without a point is read like one with a point at its end |
| `Decimal.ReadRounds` | lib/parser.c:573-614 | for all digits and any number of decimals the result is the value times ten to the shift, rounded half up, or a refusal, with one exception stated exactly |
| `Decimal.StrtoullExact` | lib/parser.c:597-597 | what is parsed: white space, sign, digits, the end of the number and the range error |
| `Decimal.StrtoullNothing` | lib/parser.c:597-597 | without digits nothing is parsed |
| `Decimal.JunkExact` | lib/parser.c:602-630 | text after the number is refused unless the caller is lenient and the number in range |
| `Decimal.RoundTrip` | lib/parser.c:548-630 | reading what `format_decimal` printed returns the number |
| `Decimal.RoundedToZero` | lib/parser.c:597-600 | the exception: the largest number and a half is read as zero |
| `SeqExpand.BoundsOf` | lib/parser.c:1464-1519 | start, step and end from one, two or three numbers; what is accepted has a step that leads from start to end |
| `SeqExpand.OneNumber` | lib/parser.c:1466-1474 | one number counts from one up to it or from minus one down to it, and zero gives one and zero |
| `SeqExpand.TwoNumbers` | lib/parser.c:1481-1489 | two numbers count from the first to the second in steps of one, both included |
| `SeqExpand.ThreeNumbers` | lib/parser.c:1496-1513 | three numbers are start, step and end, refused exactly if the step is zero or leads away |
| `SeqExpand.HexBounds` | lib/parser.c:1516-1519 | bounds of `~SEQx` are those of `~SEQ`, refused if negative |
| `SeqExpand.NumbersTaken` | lib/parser.c:1463-1503 | one to three numbers are taken, any other count is refused |
| `SeqExpand.OneLine` | lib/parser.c:2639-2928 | a file of one line gives the lines of its expansion |
| `SeqExpand.NumberForms` | lib/parser.c:1466-1492 | hexadecimal, octal and signed numbers |
| `SeqExpand.EvaluateExact` | lib/parser.c:1455-1466 | what an argument stands for |
| `SeqExpand.EvaluateAllExact` | lib/parser.c:1463-1503 | the numbers are those of the arguments, one for one, in order |
| `SeqExpand.ReplaceConcat` | lib/parser.c:2934-2934 | definitions are replaced part by part |
| `SeqExpand.ReplaceOne` | lib/parser.c:2934-2934 | a use of a name becomes its definition |
| `SeqExpand.EachPlain` | lib/parser.c:2644-2667 | one line for each value, in order, with the value put in |
| `SeqExpand.CountsUp` | lib/parser.c:1466-1484 | `~SEQ(x, a, c) u$x` gives u followed by a to c |
| `SeqExpand.NestedLoops` | lib/parser.c:2644-2667 | a sequence in a sequence is two loops, the inner bounds depending on the outer variable or not |
| `SeqExpand.FileInOrder` | lib/parser.c:2639-2928 | the lines of a file are expanded in order |
| `SeqExpand.ValuesExact` | lib/parser.c:2659-2667 | a sequence has (end-start)/step+1 values, all within the bounds, and the next would not be |
| `SeqExpand.ValuesStep` | lib/parser.c:2659-2667 | taking a value leaves the others, and the sequence is given up when its last value is taken |
| `SeqExpand.TakeOne` | lib/parser.c:2644-2667 | taking a value from the last open sequence: its text comes next, then all that was left |
| `SeqExpand.Reader.constructor` | lib/parser.c:2617-2638 | nothing is open at the start of a file |
| `SeqExpand.Reader.AddSeq` | lib/parser.c:1407-1539 | a `~SEQ` line is opened, or dropped if it is malformed |
| `SeqExpand.Reader.NextText` | lib/parser.c:2644-2667 | the next text, with its variable defined |
| `SeqExpand.Reader.ReadLine` | lib/parser.c:2639-2928 | each call yields the next line of the nested loops in order, and the loop ends |
| `SeqExpand.NumberRoundTrip` | lib/parser.c:2651-2652 | a decimal variable used in an inner bound is read back as the same number |
| `SeqExpand.HexBound` | lib/parser.c:2649-2650 | a hexadecimal one is read back as the same number exactly up to nine |
| `SeqExpand.ShowHex` | lib/parser.c:2649-2650 | a number of `~SEQx` is printed in base sixteen |
| `SeqExpand.HexSixteen` | lib/parser.c:2649-2650 | sixteen is printed as `10` and read as ten |
| `Numerals.PrintValue` | lib/parser.c:2649-2651 | a number printed in base ten or sixteen is read back as it is in that base |
| `Numerals.DigitsAre` | lib/parser.c:2649-2652 | the characters of the digits |

## Left out

- epoll, timerfd, signals, sockets, fork, logging: their outcomes are inputs of the steps.
- The epoll event record of a file descriptor (`thread_event_t`) and failed registrations: only queue membership is modelled, and `thread_requeue_read` is given the thread it looks up there.
- The timer handler's registration of itself for the next round: a further add step.
- What a handler does while it runs is a sequence of scheduler steps; `func`, `arg`, file descriptors and thread ids are not modelled, nor is the filter `process_threads` applies while shutting down.
- A handler that cancels its own thread: the scheduler's runs exclude it, as `SchedSteps.CancelKeeps` explains.
- SchedSteps.UpdateKeeps: what `rb_move_cached` does to a node that is not in the timer tree is not modelled; its links share memory with list links then.
- Scheduler.Master.UpdateTimeout: requires `MayUpdate` for the same reason; `SchedSteps.TimerMayUpdate` says which timers that shuts out.
- Scheduler.Master.Cancel: not for a child timeout that is running, whose node has been erased from the pid tree already and would be erased a second time; the step of the model covers it.
- Decimal.FormatDecimal: not for 32 places or more, where the source divides by zero (`Decimal.FactorVanishes`).
- SchedTimer.DeadlineExact: deadlines are normalised and not negative, being readings of the monotonic clock plus an unsigned number.
- Storage reuse at a lower level than thread ids: two link fields of a thread share memory in the source; the model shows for the walk that destroys a tree that no record is read after it was destroyed (`RbTree.RbRoot.DestroyAll`).
- Augmented trees, RCU variants and `rb_replace_node`.
- The calls `cmp(b, b)` that `merge_final` makes only to let the client yield, and comparison functions with effects.
- BFD reload, suspended timers, AdminDown and the retry of the output socket: a run is one configuration from `bfd_init_state` on.
- BFD lookup among several sessions by address: a packet without a discriminator is taken to be for this session.
- BfdNetwork.Handshake: a discriminator drawn is one this session has not held before; the random draw repeats a value only with small probability.
- A BFD timer that is ready but has not run yet is treated as scheduled; `timer_thread_update_timeout` leaves it alone in the source.
- `SeqExpand` takes lines as parsed into parts; quoting, comments, `~LST`, multi-line definitions and include files are not modelled, and numbers are not limited to `long`.
- Decimal.ReadDecimal: `strtoull` is modelled from its specification, in the C locale.
- VRRP, health checkers, IPVS, netlink, nftables, notify scripts, SNMP, D-Bus: outside this model.
