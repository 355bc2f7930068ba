# libam verified

Dafny models of the libam C library's containers and protocols, each proved against what
the library promises of it. `dafny verify dfyconfig.toml` checks the whole project.

| file | what it models |
|---|---|
| `MachineWords.dfy` | 32-bit and 64-bit unsigned words and the arithmetic of wrapping indices |
| `Counting.dfy` | sums over any number of threads |
| `AvlShape.dfy` | trees and one-hole contexts without pointers: balance, order, rotations, renaming, the height bound |
| `AvlLinks.dfy` | nodes with links and balance factors: when they stand for a shape, and what rotations do to that |
| `AvlEdits.dfy` | searching, planting, cutting out, replacing and swapping nodes |
| `AvlTree.dfy` | `amtree`: the tree itself, with its repair loops |
| `LinkList.dfy`, `IndexedTree.dfy` | `amlist` rings and `amitree`, the same tree threaded on a ring |
| `Threads.dfy` | pointers, slots and turns, as the models of concurrent code share them |
| `CircularQueue.dfy`, `Overtaking.dfy`, `QueueHistory.dfy`, `QueueAlone.dfy` | `amcqueue` with `amspinlock`: the bounded queue, what its order depends on, the grounds of its answers, and its use by one thread at a time |
| `SlotStack.dfy`, `StackHistory.dfy` | `amstack`: the bounded stack, and the grounds of its answers |
| `LinkStack.dfy`, `Linearized.dfy` | `amlstack`: the linked stack with locked poppers, and what its callers see of it |
| `ThreadPool.dfy`, `ThreadStarts.dfy` | the thread pool's counters, and when it starts threads, turns them away and lets them go |
| `LogRelay.dfy`, `RelayHistory.dfy` | the line buffers circulating between loggers and the logging thread, and what each of them has done |
| `PoolChunk.dfy`, `Pool.dfy` | the pool allocator: canary bytes, buckets, accounting |
| `StrHash.dfy` | `amstrhash`: the string hash with doubling |
| `Stats.dfy` | `amstat`: the running statistic |

How the models are made:

- **Trees and lists** are classes whose fields the methods update in place. The heap is
  viewed as a map from node to cell (`View`), a recursive predicate says that the cells
  stand for a `Tree`, and a one-hole `Context` is what a repair loop has above it while it
  climbs. Both kinds of tree run the same AVL code in C, so `AmITree` holds an `AmTree`
  and adds the ring; the unused `link` field of nodes in a plain tree is an artefact.
- **Concurrent code** is a state machine: a shared memory, one program counter with its
  local variables for each of any number of threads, and one step for each access to shared
  memory. `Act` is that step on memory and one thread; a class with the shared fields has
  a method `Step` proved equal to it; `Next` adds the history that the properties speak of.
  Steps are sequentially consistent. A run is any sequence of turns. Where it matters why an
  operation answers as it does, a state is extended by a history (`Traced`) that records, for
  every operation, what its own steps have seen and done.
- **`abort()`** and assertions of the original are Dafny assertions, so that they are proved
  unreachable or true.

Where code and comments differ, the code is followed: `free_size` of the string hash has
no default although its header names one; the library's header calls the pool's `free` with
two arguments while the function takes the size as well.

## Model

| member | source | states |
|---|---|---|
| `AvlTree.AmTree.constructor` | include/libam/libam_tree.h:14-19 | A zeroed tree is a valid one with no members. |
| `AvlTree.AmTree.Hang` | src/libam_tree.c:78-84 | Hanging a node where another hung touches the right child field of the parent (or the root) and the parent field, and nothing else in memory. |
| `AvlTree.AmTree.RotateRight` | src/libam_tree.c:87-117 | The memory afterwards is exactly the rewriting whose meaning AvlLinks.RotateRightClimbs proves; the root follows when there is no parent; one rotation more is counted. |
| `AvlTree.AmTree.RotateLeft` | src/libam_tree.c:120-150 | The same for the left rotation. |
| `AvlTree.AmTree.RotateRightLeft` | src/libam_tree.c:152-194 | The same for the double rotation that raises the inner left grandchild. |
| `AvlTree.AmTree.RotateLeftRight` | src/libam_tree.c:196-238 | The same for its mirror image. |
| `AvlLinks.RotateRightClimbs` | src/libam_tree.c:87-117 | After the link and balance writes, the nodes stand for the rotated shape in an unchanged context: parent and child links mutual, every balance the true height difference, the same nodes in the same order. |
| `AvlLinks.RotateLeftClimbs` | src/libam_tree.c:120-150 | The same for the left rotation. |
| `AvlLinks.RotateRightLeftClimbs` | src/libam_tree.c:152-194 | The same for the right-left double rotation, for all three balances of the middle node. |
| `AvlLinks.RotateLeftRightClimbs` | src/libam_tree.c:196-238 | The same for the left-right double rotation. |
| `AvlLinks.RaiseMiddleCells` | src/libam_tree.c:166-193 | The overlapping writes of a double rotation leave each of the seven nodes involved with the links and balance it should have. |
| `AvlShape.RotateRightKeeps` | src/libam_tree.c:87-117 | A rotation keeps the members and their order. |
| `AvlShape.RotateLeftRightKeeps` | src/libam_tree.c:196-238 | A double rotation keeps the members and their order. |
| `AvlShape.RotateRightBalances` | src/libam_tree.c:108-116 | A single rotation of a node two too heavy on the left restores balance, and loses a level exactly when the child was not level. |
| `AvlShape.RotateLeftRightBalances` | src/libam_tree.c:224-237 | A double rotation restores balance and always loses a level. |
| `AvlShape.GrowthStep` | src/libam_tree.c:244-268 | What a subtree grown by one level does to the balance above, and in which cases the walk goes on. |
| `AvlShape.ShrinkStep` | src/libam_tree.c:351-359 | What a subtree one level shorter does to the balance above. |
| `AvlTree.AmTree.Rise` | src/libam_tree.c:245-248 | Correcting the parent's balance makes the subtree one level up fully linked, with that balance the true height difference. |
| `AvlTree.AmTree.AddStep` | src/libam_tree.c:244-268 | One turn of the repair after an insertion either ends in a valid tree, after at most one rotation as the rotations themselves count, or moves the same situation one level up without any. |
| `AvlTree.AmTree.StopAdd` | src/libam_tree.c:250-267 | Every case of the switch but plus or minus one ends the repair with a valid tree after at most one rotation, and the default with abort is never reached. |
| `AvlTree.AmTree.BalanceAdd` | src/libam_tree.c:240-269 | From the new leaf up, the repair ends in a valid AVL tree of exactly the given nodes and entries, and the count of rotations, which each of the four raises, has grown by at most one. |
| `AvlTree.AmTree.Descend` | src/libam_tree.c:288-293 | The search ends at the node filed under the key, or below the one place where the key belongs, and in the latter case the new node is not in the tree. |
| `AvlTree.AmTree.Plant` | src/libam_tree.c:295-306 | Linking the leaf, counting it and repairing give a valid tree with exactly that entry added at its rank. |
| `AvlTree.AmTree.Insert` | src/libam_tree.c:272-307 | A new key gives a valid tree with exactly that node added in order, by at most one single or double rotation; a key in use gives its node back and changes no field of anything. |
| `AvlTree.AmTree.LevelOff` | src/libam_tree.c:316-349 | One turn of the switch after a deletion either ends in a valid tree or leaves a balanced subtree one level shorter; abort is never reached. |
| `AvlTree.AmTree.SingleRight` | src/libam_tree.c:324-330 | A single rotation during deletion stops the repair exactly when the raised child is not level. |
| `AvlTree.AmTree.RaiseInnerRight` | src/libam_tree.c:331-333 | A double rotation at a subtree too heavy on the right by its inner grandchild restores the balance and costs a level, all else in memory standing for the same tree. |
| `AvlTree.AmTree.RaiseInnerLeft` | src/libam_tree.c:343-345 | The mirror image. |
| `AvlTree.AmTree.BalanceDel` | src/libam_tree.c:310-361 | From a subtree that has just lost a node, the repair ends in a valid AVL tree of exactly the given nodes and entries. |
| `AvlTree.AmTree.CutOut` | src/libam_tree.c:413-437 | Deleting a node with a child missing leaves a valid tree of all other entries in order. |
| `AvlTree.AmTree.MoveUp` | src/libam_tree.c:375-387 | Deleting a node whose right child has no left child leaves a valid tree of all other entries in order. |
| `AvlTree.AmTree.ReplaceByMin` | src/libam_tree.c:389-410 | Deleting a node by putting the smallest node on its right in its place leaves a valid tree of all other entries in order. |
| `AvlTree.AmTree.Unlink` | src/libam_tree.c:374-437 | In all three cases what is left is a valid tree of exactly the other entries. |
| `AvlEdits.CutClimbs` | src/libam_tree.c:428-437 | After cutting a node out, its parent's subtree is linked and balanced up to the one balance that the repair starts from. |
| `AvlEdits.MovedUpClimbs` | src/libam_tree.c:375-384 | The same after the right child has moved up. |
| `AvlEdits.MinTakesPlace` | src/libam_tree.c:389-407 | The same after the minimum has been cut out and linked in elsewhere, even where the two places touch. |
| `AvlEdits.MinReplaces` | src/libam_tree.c:389-407 | Renaming the deleted member to the minimum in the walk without the minimum gives the walk without the deleted member. |
| `AvlTree.AmTree.Delete` | src/libam_tree.c:364-438 | Deleting any member of a valid tree gives a valid tree of exactly the other nodes and entries, with the count one lower modulo 2^32. |
| `AvlTree.AmTree.DeleteKey` | src/libam_tree.c:440-447 | Hands back the node filed under the key and deletes it, or finds none and changes nothing. |
| `AvlTree.AmTree.Swap` | src/libam_tree.c:449-462 | The new node takes over place, key, links and balance of the old one in a valid tree, and the old one is wiped. |
| `AvlEdits.SwappedShape` | src/libam_tree.c:449-462 | Redirecting the neighbours' pointers makes the links stand for the same shape with the one member renamed. |
| `AvlTree.AmTree.Find` | src/libam_tree.c:56-68 | Finds the node filed under a key exactly if there is one, within as many steps as the tree is high, which is at most twice the number of binary digits of the size. |
| `AvlShape.SizeAtLeastFib` | src/testlib_amtree.c:127-128 | An AVL tree of height h has at least Fib(h + 2) - 1 nodes. |
| `AvlShape.HeightBound` | src/testlib_amtree.c:127-128 | The height of a non-empty tree is at most 2 * (floor(log2 size) + 1). |
| `LinkList.Init` | include/libam/libam_list.h:39-43 | A list anchored to itself is the ring of the anchor alone. |
| `LinkList.Add` | include/libam/libam_list.h:69-72 | The ring has the new link right behind the given one, forwards and backwards. |
| `LinkList.AddTail` | include/libam/libam_list.h:89-92 | The ring has the new link right before the given one; before the anchor means at the end. |
| `LinkList.AddBetween` | include/libam/libam_list.h:45-52 | Four writes turn a ring into the ring with one link more. |
| `LinkList.Del` | include/libam/libam_list.h:94-118 | Two writes turn a ring into the ring without that link. |
| `LinkList.TakeOver` | src/libam_itree.c:424-427 | Copying one link over another and patching its neighbours puts it in that place of the ring. |
| `LinkList.EmptyMeansAnchorOnly` | include/libam/libam_list.h:128-131 | The emptiness test is right about rings. |
| `IndexedTree.AmITree.constructor` | src/libam_itree.c:439-444 | A new tree is valid and its list is empty. |
| `IndexedTree.AmITree.Insert` | src/libam_itree.c:236-278 | A new key gives a valid tree and a circular list that is its in-order walk, forwards and backwards, with exactly that node added, by at most one rotation; a key in use gives its node back and changes no field of any node or link. |
| `IndexedTree.AmITree.Splice` | src/libam_itree.c:266-273 | Threading the node before or after its parent-to-be puts it where the in-order walk will have it. |
| `IndexedTree.BesideParent` | src/libam_itree.c:266-273 | A leaf below a node comes directly before or after that node in the walk. |
| `IndexedTree.AmITree.Delete` | src/libam_itree.c:335-411 | As for the plain tree, the list is again the in-order walk, and the node's link is cleared. |
| `IndexedTree.AmITree.DeleteKey` | src/libam_itree.c:413-420 | Deletes and hands back the node filed under the key, or changes nothing. |
| `IndexedTree.AmITree.Find` | src/libam_itree.c:20-32 | Finds the node filed under a key exactly if there is one, and leaves tree and list as they were. |
| `IndexedTree.AmITree.Swap` | src/libam_itree.c:422-437 | The new node takes the old one's place in the tree and on the list. |
| `IndexedTree.AmITree.EndsAreExtreme` | include/libam/libam_itree.h:43-51 | First and last on the list are the smallest and the largest member; both answers are NULL exactly when the 32-bit count is zero, which below 2^32 members means exactly when the tree is empty. |
| `IndexedTree.AmITree.StepsAreNeighbours` | include/libam/libam_itree.h:53-61 | Stepping along the list leads to the next larger or smaller key with none in between, and to NULL exactly at the ends. |
| `CircularQueue.AmCQueue.constructor` | src/libam_cqueue.c:13-33 | A new queue is empty and unlocked and has one slot more than asked for. |
| `CircularQueue.AmCQueue.Step` | src/libam_cqueue.c:65-118 | Each access to shared memory that a thread makes in enqueue or dequeue does to the fields what the step function of the protocol says, and takes the thread where it says. |
| `CircularQueue.LockFollows` | include/libam/libam_spinlock.h:11-16 | The lock word changes exactly on the way in and out of the locked part. |
| `CircularQueue.OneHolder` | include/libam/libam_spinlock.h:11-16 | No two threads are between locking and unlocking. |
| `CircularQueue.NextLedger` | src/libam_cqueue.c:74-116 | Every step keeps, for every slot, writers waiting plus value present less readers waiting equal to the number of unmatched claims on it. |
| `CircularQueue.NextConserved` | src/libam_cqueue.c:74-117 | Every step keeps the number of copies of each value: handed in equals carried plus stored plus taken out. |
| `CircularQueue.NextInv` | src/libam_cqueue.c:65-118 | Every step of every thread keeps ledger, conservation, claim indices, lock and local knowledge. |
| `CircularQueue.EveryRunInv` | src/libam_cqueue.c:65-118 | They hold after every run of any number of threads under any interleaving. |
| `CircularQueue.ReaderHasWriter` | src/libam_cqueue.c:107-114 | A reader facing an empty slot has a writer able to fill it now. |
| `CircularQueue.WriterHasReader` | src/libam_cqueue.c:79 | While the open claims do not exceed the slots, a writer facing a full slot has a reader able to empty it now. |
| `CircularQueue.NoDeadlock` | src/libam_cqueue.c:74-116 | Whoever is blocked waits for a thread of the right kind that is not blocked; only for a writer do the open claims have to fit the slots. |
| `CircularQueue.EmptyAnswer` | src/libam_cqueue.c:98-103 | With no more open claims than slots, dequeue reports empty exactly when no claim is open or exactly one whole lap of them is. |
| `CircularQueue.AtRest` | src/libam_cqueue.c:65-118 | With no operation under way, the full slots are those of the open claims, and every value handed in is stored or was taken. |
| `QueueHistory.SeesWholeLaps` | src/libam_cqueue.c:97-102 | Comparing the ends takes a dequeue to its empty answer exactly if a whole number of laps of claims is open, none included. |
| `QueueHistory.EveryAnswerIsTrue` | src/libam_cqueue.c:65-118 | In every run, from whatever answer a thread calls again: an enqueue is refused exactly for NULL, and otherwise claims the tail once and puts its value once; a dequeue claims the head once and answers with the one value that it took, or has by its own last look, between its call and its return, seen a whole number of laps open, and has done nothing. |
| `QueueHistory.EmptyOrOneLap` | src/libam_cqueue.c:99-103 | If the open claims fitted the slots at that look, none was open, or exactly one lap. |
| `QueueAlone.ComesNearer` | src/libam_cqueue.c:74-116 | Every access of a thread that need not wait for another brings it nearer to its answer, by a count of what is left. |
| `QueueAlone.RunsAlone` | src/libam_cqueue.c:65-118 | Left alone, a thread in an operation has its answer, or has to wait for another, within ten turns. |
| `QueueAlone.EnqueueAppends` | src/libam_cqueue.c:65-82 | With no other operation under way and a slot to spare, an enqueue adds its value at the end of the contents. |
| `QueueAlone.DequeueTakesFirst` | src/libam_cqueue.c:89-117 | With no other operation under way, a dequeue answers with the first value of the contents and takes it off. |
| `QueueAlone.DequeueFindsEmpty` | src/libam_cqueue.c:99-103 | Without contents it answers that the queue is empty and leaves the memory as it was. |
| `CircularQueue.OneTicket` | src/libam_cqueue.c:76 | Within one lap no slot is claimed twice. |
| `CircularQueue.NextWeighed` | src/libam_cqueue.c:74-117 | Every step keeps the ledger of the whole queue: open claims equal waiting writers plus stored values less waiting readers. |
| `CircularQueue.TakesOwn` | src/libam_cqueue.c:108-116 | If claims wait for the one a lap earlier, what a reader takes is the value of its own claim. |
| `CircularQueue.FirstInFirstOut` | src/libam_cqueue.c:74-117 | In every run in which each claim on the tail comes after the claim one lap earlier has been served, each dequeue gets the value of the enqueue with its own number. |
| `CircularQueue.LapBreaksOrder` | src/libam_cqueue.c:56-82 | A run in which the open claims never exceed the capacity of one, and yet the first reader gets the third value: that hypothesis is needed. |
| `Overtaking.NextAttended` | src/libam_cqueue.c:96-117 | Every step keeps a thread at work for each claim on the head that has not been served. |
| `Overtaking.HastyFinds` | src/libam_cqueue.c:74-79 | A claim on the tail that does not wait finds the claim a lap earlier open on the same slot, its reader waiting, and in the slot its value or nothing. |
| `Overtaking.EmptySlotBreaks` | src/libam_cqueue.c:78-82 | If the slot is still empty, the hasty writer can get in first, and the waiting reader gets its value. |
| `Overtaking.FullSlotBreaks` | src/libam_cqueue.c:96-117 | If the earlier value is in place, enough idle readers with the lock free can claim up to the hasty claim, and the last of them gets the earlier value. |
| `Overtaking.OrderNeedsTimelyClaims` | src/libam_cqueue.c:65-118 | After any run of timely claims everything is in order, and the first claim that does not wait, if it finds either of these, can be followed by turns that are not: timely claims are what the order depends on. |
| `SlotStack.AmStack.Step` | src/libam_stack.c:43-100 | Each access to shared memory in push or pop does what the step function of the protocol says. |
| `SlotStack.LedgerFollows` | src/libam_stack.c:51-96 | What one access adds to pushers plus value less poppers of a slot is what it adds to whether the slot is below the size. |
| `SlotStack.NextInv` | src/libam_stack.c:43-100 | Every step keeps that ledger for every slot, 0 <= size <= capacity, and the number of copies of every value. |
| `SlotStack.EveryRunInv` | src/libam_stack.c:43-100 | They hold after every run of any number of threads under any interleaving. |
| `SlotStack.NoDeadlock` | src/libam_stack.c:59-96 | Whoever is blocked on a slot waits for a thread of the other kind that is not blocked. |
| `SlotStack.AtRest` | src/libam_stack.c:43-100 | With no operation under way, the filled slots are exactly those below the size. |
| `StackHistory.MovedUnder` | src/libam_stack.c:51-97 | A failed swap leaves an operation under way; it returns only from its slot, or refused by the size that it has just read. |
| `StackHistory.EveryAnswerIsTrue` | src/libam_stack.c:43-100 | In every run: a push claims one slot and puts its value there, or was given NULL or has itself read the size as the capacity; a pop claims one slot and answers with the value that it took there, or has itself read the size as zero; what is refused has done nothing. |
| `StackHistory.RunsAlone` | src/libam_stack.c:43-100 | Left alone, a thread in an operation has its answer, or has to wait for another, within five turns. |
| `SlotStack.SoloPush` | src/libam_stack.c:43-63 | An undisturbed push on a stack that is not full takes its start and three accesses to memory, and puts its value on top. |
| `SlotStack.SoloPushFull` | src/libam_stack.c:54-55 | On a full stack it is refused and changes nothing. |
| `SlotStack.SoloPop` | src/libam_stack.c:69-100 | An undisturbed pop takes the value on top. |
| `SlotStack.SoloPopEmpty` | src/libam_stack.c:83-84 | On an empty stack it fails and changes nothing. |
| `LinkStack.AmLStack.Init` | src/libam_lstack.c:12-16 | Sets head and size and leaves the lock word alone. |
| `LinkStack.AmLStack.Step` | src/libam_lstack.c:22-84 | Each access to shared memory in push or pop does what the step function of the protocol says. |
| `LinkStack.SavedNextIsSuccessor` | src/libam_lstack.c:53-75 | When a popper's swap succeeds, the successor it saved is still the true one, so that exactly the top is removed. |
| `LinkStack.NextChained` | src/libam_lstack.c:29-77 | Every step keeps the links from the head down equal to the abstract stack. |
| `LinkStack.NextReplays` | src/libam_lstack.c:32-75 | Every step keeps the log of effects a correct sequential use of a stack that ends as the abstract one. |
| `LinkStack.NextSize` | src/libam_lstack.c:33-78 | Every step keeps the size equal to the stack's length less pushes not yet counted plus pops not yet counted, modulo 2^64. |
| `LinkStack.NextInv` | src/libam_lstack.c:22-84 | Every step of every thread keeps all of this, given that pushed nodes are owned by their pushers. |
| `LinkStack.EveryRunIsAStack` | src/libam_lstack.c:22-84 | After every run of any number of pushers and poppers the operations took effect one at a time as on a sequential stack, and no unlocking has failed. |
| `LinkStack.PopsHandBackCleared` | src/libam_lstack.c:77-83 | In every run, the node that a pop returns has its link cleared at that moment. |
| `LinkStack.TakesEffectOnce` | src/libam_lstack.c:32-83 | Each operation takes effect once, at one of its own steps, and returns what took effect then. |
| `Linearized.Moving` | src/libam_lstack.c:22-84 | A step of an operation under way makes an entry in the log exactly if it is the one that takes effect, of what was asked for and will be answered; an operation cannot return before. |
| `Linearized.StepSound` | src/libam_lstack.c:22-84 | Every step keeps: each finished operation made one entry between its call and its return, and each entry is that of an operation finished or under way. |
| `Linearized.EntriesDiffer` | src/libam_lstack.c:22-84 | Two finished operations have different entries, in the order of their turns if one was called after the other returned. |
| `Linearized.Linearizable` | src/libam_lstack.c:22-84 | For every run of any number of pushers and poppers there is one sequential history of a stack, ending as the links now are, in which each finished operation has exactly one entry, between its call and its return, of the node pushed or answered; no two share one, the order of operations that do not overlap is kept, and no entry belongs to nothing. |
| `Linearized.RunsAlone` | src/libam_lstack.c:22-84 | Left alone, a thread in an operation has returned, or has to wait for the lock, within nine turns. |
| `LinkStack.SizeAtRest` | src/libam_lstack.c:33-78 | With no operation under way the size is the stack's length, as a 64-bit word. |
| `LinkStack.NoDeadlock` | src/libam_lstack.c:50 | Only the lock makes a thread wait, and its holder can always go on. |
| `LinkStack.NeedsClearLock` | src/libam_lstack.c:12-16 | After initialization some pop can return if and only if the lock word was clear before; otherwise none ever does, whatever the threads do. |
| `ThreadPool.Settled` | src/libam_thread_pool.c:227-234 | A minimum of zero becomes one; a maximum below the minimum is raised to it, except that zero stays for none; nothing else changes. |
| `ThreadPool.LamThreadPool.constructor` | src/libam_thread_pool.c:222-246 | All counters start at zero and ids at one. |
| `ThreadPool.LamThreadPool.StarterStep` | src/libam_thread_pool.c:180-206 | Each access that starting a thread makes to the counters does what the step function of the protocol says, in either order of the two operands. |
| `ThreadPool.LamThreadPool.WorkerStep` | src/libam_thread_pool.c:96-178 | The same for each access of a worker. |
| `ThreadPool.StartPlaced` | src/libam_thread_pool.c:186-205 | Every step of a caller keeps: a reservation at position p, in order of counting, has seen or will see at least p, or p is under the cap. |
| `ThreadPool.ServePlaced` | src/libam_thread_pool.c:174-177 | Every step of a worker keeps it, also when a later reservation ends before an earlier one has looked. |
| `ThreadPool.CapHolds` | src/libam_thread_pool.c:180-206 | Workers started minus workers destroyed never exceed the maximum, under every interleaving of callers and workers. |
| `ThreadPool.IdleWithinActive` | src/libam_thread_pool.c:110-176 | Idle never exceeds active, active never exceeds running, and no counter is taken down from zero. |
| `ThreadPool.LowIdsStay` | src/libam_thread_pool.c:85-94 | Before the drain no worker whose id is within the minimum times out. |
| `ThreadPool.MinimumStays` | src/libam_thread_pool.c:85-139 | Before the drain at least the minimum of workers stays, or as many as have taken an id. |
| `ThreadPool.NoneLeft` | src/libam_thread_pool.c:283-288 | At a moment at which as many threads are destroyed as created, no worker is left and no start is under way. |
| `ThreadStarts.StartAlone` | src/libam_thread_pool.c:180-206 | From every reachable state, an undisturbed start leaves one worker more if and only if nothing is being drained and there is no cap or fewer places are held than it allows; otherwise the state is what it was. |
| `ThreadStarts.CreateStartsMinimum` | src/libam_thread_pool.c:248-254 | Creating a pool starts the minimum of threads, even if the cap is no higher. |
| `ThreadStarts.DecisionsJustified` | src/libam_thread_pool.c:96-206 | In every run: a caller that rolls back has found the cap reached by the count of created threads before its own less the destroyed ones that it read, in 64 bits, and one that starts its thread has not; a worker runs every task that it finds, and is leaving if and only if it has read the drain signal, or has been idle for the timeout with an id above the minimum. |
| `ThreadStarts.CapSeenMeans` | src/libam_thread_pool.c:188-189 | That difference is the true one, so that a start is turned away exactly at the cap, unless more threads were destroyed by the second reading than created before the first; then it wraps, and with a cap of at most 2^63 the start is always turned away. |
| `ThreadStarts.TurnedAwayWithRoom` | src/libam_thread_pool.c:188-192 | A run in which that happens: with a cap of three and one worker running, a start is rolled back. |
| `ThreadStarts.RunsItsTask` | src/libam_thread_pool.c:149-166 | A worker that has found a task runs it within two turns of its own. |
| `ThreadStarts.LeavesAlone` | src/libam_thread_pool.c:118-176 | A worker that finds nothing and has reason to leave is gone within eight turns of its own. |
| `LogRelay.LogThread.constructor` | src/libam_log.c:370-383 | Filling puts each of the buffers into the free queue once and leaves the other queue empty. |
| `LogRelay.LogThread.Step` | src/libam_log.c:177-219 | A step of a logger or of the relay thread makes the one queue access that its place in the round calls for and moves on by its outcome. |
| `LogRelay.NextPasses` | src/libam_log.c:269-343 | A step that takes a line from a queue leaves it in the thread's hands, and one that starts an enqueue takes it from there. |
| `LogRelay.NextInv` | src/libam_log.c:177-343 | Every step of every thread keeps both queues' invariants and the flow of lines between them. |
| `LogRelay.BuffersConserved` | src/libam_log.c:269-343 | Each buffer is always in exactly one place: carried to or waiting in a queue, or in a logger's or the relay's hands. |
| `LogRelay.NeverOverfull` | src/libam_log.c:371-375 | In both queues the open claims number between zero and the capacity. |
| `LogRelay.EmptyIsTrue` | src/libam_log.c:183-193 | Hence on both queues a dequeue reports empty exactly when no claim is open there. |
| `LogRelay.EveryRunCirculates` | src/libam_log.c:177-343 | All of this holds after every run of any number of loggers and the relay thread with 2048 buffers. |
| `RelayHistory.AfterEmptyAnswer` | src/libam_log.c:183-193 | An empty free queue leaves a logger fetching under Block, ready for another message under Drop, and crashed under Abort; an empty queue of lines leaves the logging thread polling while it is to keep running and stops it otherwise. |
| `RelayHistory.EveryoneIsHonest` | src/libam_log.c:177-343 | In every run: the logging thread has stopped if and only if one of its polls found nothing at a turn with keep_running false; a logger has crashed if and only if it found no free line under Abort; every message has been put, or dropped if that is the policy, or is under way; and every line taken has been put back but the one in hand. |
| `PoolChunk.StepsAlternate` | src/libam_pool.c:93-109 | What one canary step leaves is what the step back expects, and never what it does not. |
| `PoolChunk.SetLen` | src/libam_pool.c:123-135 | Marks exactly the given bytes, and leaves data alone on the way into use. |
| `PoolChunk.ChunkSet` | src/libam_pool.c:163-186 | Gives a chunk the marks of one in use, keeping its data, or those of a spare one, also where the two marked ends overlap. |
| `PoolChunk.WritesInside` | src/libam_pool.c:156-160 | Whatever a client writes inside its requested bytes, the chunk's marks stay in order. |
| `PoolChunk.WriteBehindIsCaught` | src/libam_pool.c:156-160 | A write behind them leaves the marks in order exactly if it changes nothing. |
| `PoolChunk.ChunkTest` | src/libam_pool.c:136-160 | The assertions hold exactly if header, both ends of the data and the bytes behind it are as the step before leaves them. |
| `PoolChunk.WordInMemory` | src/libam_pool.c:85-91 | Four addresses in a row carry the four bytes of the random word, data the low halves of them. |
| `Pool.AlignFits` | src/libam_pool.c:80-83 | Rounding up in 32 bits gives no less than the size exactly up to 2^32 - 16. |
| `Pool.StepInTable` | src/libam_pool.c:336-347 | Among the sizes that round to at most the largest step, the index computed in 32 bits lies inside the table exactly for those from 1 to 2^32 - 16; beyond, a size rounds to zero. |
| `Pool.BucketFits` | src/libam_pool.c:254-260 | The bucket found for a size has chunks of the right length, and all three assertions hold for it. |
| `Pool.AmPool.BucketAlloc` | src/libam_pool.c:249-299 | A chunk taken for use, fresh or reused at another size, passes every assertion, carries the marks of use, and starts with cleared bytes up to 1024. |
| `Pool.AmPool.BucketFree` | src/libam_pool.c:301-336 | A chunk in use passes every assertion on its way out and carries the marks of a spare one if it is kept. |
| `Pool.AmPool.Alloc` | src/libam_pool.c:349-371 | Hands out the chunk of its bucket that was released last, or new memory if there is none, with the requested number of bytes, cleared up to 1024; leaves all other clients' bytes and all other buckets alone, and keeps both counts the sums over the buckets. |
| `Pool.AmPool.Free` | src/libam_pool.c:373-387 | Finds the chunk in the bucket that alloc used, takes exactly it away from the clients' view, keeps it as the next to be handed out if it is of at most 512 bytes, and keeps both counts. |
| `Pool.AmPool.Realloc` | src/libam_pool.c:389-403 | The new bytes are the first min(old, new) of the old ones and zeros behind; the old address is gone; all else is unchanged. |
| `Pool.AmPool.constructor` | src/libam_pool.c:487-493 | A new pool's buckets have their element sizes and nothing in them. |
| `Pool.TakenPooled` | src/libam_pool.c:283-288 | Moving a chunk into use keeps every bucket's lists, marks and sums in order. |
| `Pool.ReturnedPooled` | src/libam_pool.c:320-328 | Moving one out of use does, too. |
| `StrHash.Settled` | src/libam_strhash.c:73-76 | A percentage of zero becomes 65 and a bucket limit of at most one 4; nothing else changes. |
| `StrHash.AmStrHash.constructor` | src/libam_strhash.c:55-95 | A new table stands for the empty map with at least eight buckets, and is below (percent * capacity) / 100 exactly if percent times capacity, in 64 bits, is at least 100. |
| `StrHash.FoundInBucket` | src/libam_strhash.c:281-292 | A bucket has an entry with a given hash exactly when the map has the hash, and it is that item's. |
| `StrHash.AmStrHash.Find` | src/libam_strhash.c:337-369 | Finds the entry of the key's hash exactly when the map has that hash, which is the answer that StrHash.Served describes. |
| `StrHash.AmStrHash.Insert` | src/libam_strhash.c:263-334 | Adds the item under a new hash; under a known one swaps the value in and keeps the old key, or refuses and changes nothing, as the flags say. The capacity doubles exactly if the hash is new, the table not of fixed size, and the old size plus one reaches (percent * capacity) / 100 or the old bucket's length plus one the bucket limit; the size then stays below that share of the capacity. The outcome is that of StrHash.Served. |
| `StrHash.LoadStep` | src/libam_strhash.c:313-323 | One doubling keeps one entry more below the threshold. |
| `StrHash.AmStrHash.EntNew` | src/libam_strhash.c:98-135 | Adds exactly one item, from a spare entry if there is one; the free list and its count agree, so that both assertions hold. |
| `StrHash.AmStrHash.EntRemove` | src/libam_strhash.c:137-171 | Removes exactly the located item and keeps spares up to their limit. |
| `StrHash.AmStrHash.RemoveKey` | src/libam_strhash.c:393-409 | Removes the item of the key's hash, or reports that there is none; a size below (percent * capacity) / 100 stays below; the outcome is that of StrHash.Served. |
| `StrHash.AmStrHash.Upsize` | src/libam_strhash.c:174-212 | Doubling the table leaves the map exactly as it was, with every entry in its new bucket. |
| `StrHash.PartedNext` | src/libam_strhash.c:195-206 | Moving one entry keeps the map shared out between old and new buckets, and the sizes adding up. |
| `StrHash.GrownHolds` | src/libam_strhash.c:126-132 | Filing an entry in front of the bucket of its hash adds its item to the map. |
| `StrHash.ShrunkHolds` | src/libam_strhash.c:155-160 | Taking an entry off its bucket takes its item out of the map. |
| `StrHash.ClashIsFound` | src/libam_strhash.c:281-292 | Another string in the map has the hash of the one asked about exactly when the entry found has another text, which the comparison of pointers lets through; then the string asked about is itself not in the map. |
| `StrHash.AnswersByText` | src/libam_strhash.c:352-363 | An insertion with either flag, a lookup or a removal is answered as a map from strings would, in success and in the entry told of, if and only if no other string in the map has the hash of its key. |
| `StrHash.StaysMirrored` | src/libam_strhash.c:294-329 | And then the table goes on holding exactly the strings of the map with their values. |
| `StrHash.MapOfStrings` | src/libam_strhash.c:263-409 | From an empty table on, over any run of insertions, lookups and removals, all answers are those of a map from strings if and only if no request is about a string that shares its hash with another one present at the time. |
| `StrHash.NoSharedHash` | src/libam_strhash.c:281-292 | That is so in every run whose strings all have different hashes. |
| `StrHash.ClashMisleads` | src/libam_strhash.c:284-287 | After the first of two strings with one hash is inserted, a lookup of the second finds the first, a removal of it removes the first, and an insertion of it replaces the first's value or is refused. |
| `Stats.WrapTest` | include/libam/libam_stats.h:50 | The test for a wrapped sum fires exactly on true 64-bit overflow. |
| `Stats.RoundedAdded` | include/libam/libam_stats.h:45-74 | Adding or halving the words gives exactly the floors of the real totals added or halved. |
| `Stats.AmStat.constructor` | include/libam/libam_stats.h:23-31 | The initial values are exact for no values seen. |
| `Stats.AmStat.Upd` | include/libam/libam_stats.h:37-76 | After any sequence of updates sum and number, and the sum of squares until it saturates, are the floors of the real totals halved at each overflow; the extremes are exact; a saturated sum of squares stays so; the division never sees zero; and whether only even counts have been halved can be read off the number before and after. |
| `Stats.AmStat.AverageInRange` | include/libam/libam_stats.h:46-75 | After any non-empty history the average is at least the smallest value; it is at most the largest as long as every count that was halved was even; and it never exceeds the largest by more than that value divided by the number. |
| `Stats.OverBetween` | include/libam/libam_stats.h:50-75 | The true sum and number, halved together at every overflow, keep their mean between any bounds on the values. |
| `Stats.WholeUntilOdd` | include/libam/libam_stats.h:63-68 | The true number is whole if and only if no odd count has ever been halved. |
| `Stats.FloorsBetween` | include/libam/libam_stats.h:53-75 | Rounding both totals down takes their mean below no lower bound, and above an upper bound only through the fraction lost from the number. |
| `Stats.SteadyAverage` | include/libam/libam_stats.h:63-75 | When all values are equal, the average exceeds them if and only if the value times the fraction lost from the number is at least the number. |
| `Stats.AverageMayExceedMax` | include/libam/libam_stats.h:63-75 | Three values of 2^63 - 1, where the count of three is halved, give an average above them. |

## Left out

- amlstack_init leaves `consumer_lock` as it is: the stack is proved correct for a lock word that starts out clear, and `LinkStack.NeedsClearLock` says what happens otherwise.
- CircularQueue.FirstInFirstOut: a run whose claims are not timely may still happen to be in order; `Overtaking.OrderNeedsTimelyClaims` says when it can be continued out of order, and `CircularQueue.LapBreaksOrder` that the capacity bound alone does not prevent it.
- ThreadStarts.DecisionsJustified: the grounds for turning a start away are the two counts as read, not the number of threads running at one moment, of which the original has no view; `ThreadStarts.CapSeenMeans` says when they differ and `ThreadStarts.TurnedAwayWithRoom` gives a run.
- lam_thread_pool_run beyond its call to start a thread, and the choice of doing so by the number of idle threads.
- ThreadPool.CapHolds: assumes that the 64-bit count of threads ever created does not run full; a start that would fill it is not a turn of the model.
- ThreadPool.MinimumStays: says nothing about tasks still queued when the pool is destroyed, since a worker looks at the drain signal after its last failed pop and may leave such a task behind.
- StrHash.AmStrHash.Insert: where it has to double the table, twice the capacity must fit 64 bits, and where it adds an entry, so must the number of entries; the original would ask for an impossible amount of memory before that.
- StrHash.MapOfStrings: the strings that keys point to are taken not to change while the table has them, and a duplicated key to read like the original.
- Stats.AmStat.AverageInRange: the bound by the largest value goes one way. After an odd count has been halved the average may still lie below it, depending on all values since; `Stats.SteadyAverage` is exact for equal values.
- Pool.AmPool.Alloc: sizes above 2^32 - 16 are excluded, for which rounding up wraps to zero and the bucket index leaves the table (`Pool.StepInTable`).
- Pool.AmPool.Free: the search for the chunk with a given address stands for subtracting the header's offset from the pointer; lists of chunks are sequences, and their order matters only for spares.
- Concurrency of the pool allocator and of the string hash: operations are atomic. In the pool the canaries are set after the mutex is released; in the string hash `amstrhash_remove_key` keeps the lock when it finds nothing.
- `total_size` of the pool's buckets, bucket statistics, pool hierarchies and diagnostic callbacks.
- Failure of `malloc`, `strdup` and `pthread_create`; configuration changed while a pool runs.
- NULL keys of the string hash, and the order in which `amstrhash_term` releases entries.
- The hash function itself: any function from strings to 64 bits.
- The pop of a bounded stack into a NULL destination, which only returns an error.
- Weak memory orders, fairness and wait-freedom: steps are sequentially consistent, and what is proved about progress is that there is no deadlock.
- What happens to a task or a log line while it is being worked on; which sinks a line is served to.
- amstat_add, which folds one statistic into another without the protections of `amstat_upd`.
- src/libam_fdopers.c, src/libam_time.c, src/libam_opts.c and the formatting in src/libam_log.c: sockets, clocks, arguments and text.
