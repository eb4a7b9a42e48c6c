# Verified models of the hard parts of `call_lesson`

This project models the algorithms, protocols and concurrent components of the
repository in Dafny and proves what they are meant to guarantee, on every input, every
interleaving and every run. `dafny verify dfyconfig.toml` checks all of it.

| file | what it models |
|---|---|
| `LinkedTree.dfy` | linked binary trees with parent pointers: the search loop, attaching a node, the two rotations as pointer updates |
| `RBTree.dfy`, `AVLTree.dfy` | insertion into the red-black and the AVL tree, their self-checks, their height bounds |
| `TreeIterator.dfy` | `begin`, `rbegin`, `++` and `--` over a linked tree |
| `BlockQueue.dfy` | the bounded blocking queue, as a chain of any number of queues with any number of threads |
| `ThreadPool.dfy` | the task queue of the thread pool, whose signal is sent after the unlock |
| `RingQueue.dfy` | the semaphore ring queue with one producer and one consumer |
| `TimerWheel.dfy` | the timer wheel driven by `shared_ptr` destruction |
| `Utf8Validator.dfy` | the table-driven UTF-8 validator |
| `Masking.dfy`, `FrameHeader.dfy` | WebSocket payload masking and frame headers |
| `ProbingTable.dfy`, `ChainedTable.dfy` | the open-addressing and the chained hash tables, and the chained table's iterator |
| `Protocol.dfy` | the length-prefixed stream protocol |
| `Common.dfy` | definitions that several models share |
| `Room.dfy` | five in a row: the win check and the handling of a move |
| `ByteBuffer.dfy`, `ConnectionOutput.dfy` | the byte buffer and the sending side of a connection |

How things are modelled:

- Trees, chained tables and buffers are heap objects that are updated in place. The trees
  carry a ghost value (`Shape`) of what the pointers hold, and a focus inside it (`Path`).
- The concurrent components are state machines with one transition per statement. Threads
  are scheduled arbitrarily, condition variables may wake spuriously, and a signal wakes at
  least one waiter.
- Hash functions, stage functions and message callbacks are arbitrary. Clocks, sockets,
  presence of players and scheduling are inputs.
- Integers are unbounded except where a width matters: the package length of the stream
  protocol, `std::stoi`, the words of the masking functions, the 64-bit sizes of frame headers,
  the unsigned and signed 32-bit positions of the timer wheel.

Where the code and its comments disagree, the model follows the code:

- The comments on `word_mask_circ` and `byte_mask_circ` speak of bytes behind the end being
  rewritten. The code writes exactly `length` bytes, and that is what is proved.
- `zhc_hash::HashTable::insert` returns `false` as its flag in every case.
- The chained table's `_size` is not reduced by `erase`; it is an upper bound.

Properties that do not hold of the code without a condition, with the exact condition:

- A lookup in the probing table ends if and only if there is an empty slot or the key is
  there (`ProbingTable.FindTerminates`). `ProbingTable.OnlyTombstones` builds an empty table
  in which no lookup ever ends.
- A package of the stream protocol is delivered if and only if its whole length fits an
  `int` (`Protocol.DeliveredIff`), and a stream is handled completely if and only if every
  package fits and every text is a request (`Protocol.Fragmentation`).
- At every tick, a timer waits for its timeout if and only if the timeout lies in 1..60
  (`TimerWheel.DelayIsTimeout`).
- How long an added timer waits is the same at every tick if and only if the timeout is at
  most `UINT_MAX - 59` (`TimerWheel.AddedWait`). A timer can be refreshed at every tick if and
  only if its timeout is at most `INT_MAX - 59` (`TimerWheel.SteadyExactly`); then adding and
  refreshing agree (`TimerWheel.SteadyWaits`). Where a refresh is possible at all, it agrees
  with an add at that tick if and only if its signed sum is not negative
  (`TimerWheel.SamePosition`); `TimerWheel.UnsteadyWaits` has inputs on which each of these fails.
- Adding under an id keeps every live task reachable if and only if the id was free
  (`TimerWheel.TimerWheel.TimerAdd`).
- Bytes that wait on a connection that is not released are on an open socket with its write
  events monitored, throughout a run, if and only if no shutdown reaches a connection that
  was released with bytes left or with an answer to give (`ConnectionOutput.RunAttended`).
  `ConnectionOutput.LateShutdown` is a run on which it fails.

## Model

| member | source | states |
|---|---|---|
| `LinkedTree.Tree.RotateL` | Algorithm/RBTree.hpp:360-383 | whatever subtree `parent` heads, the pointer updates leave the heap holding exactly the tree with that subtree rotated left, parent links included |
| `LinkedTree.Tree.RotateR` | Algorithm/RBTree.hpp:384-408 | the same for the right rotation |
| `LinkedTree.RotationKeepsOrder` | Algorithm/RBTree.hpp:360-383 | a left rotation keeps the left-to-right order of the nodes and is undone by the right rotation |
| `LinkedTree.RightRotationKeepsOrder` | Algorithm/RBTree.hpp:384-408 | a right rotation keeps the order and is undone by the left rotation |
| `LinkedTree.RotateLeftAt` | Algorithm/RBTree.hpp:360-383 | in a heap that holds a tree, changing only the cells the rotation writes yields a heap that holds the rotated tree |
| `LinkedTree.RotateRightAt` | Algorithm/RBTree.hpp:384-408 | the mirror image, derived by reflecting heap and tree |
| `LinkedTree.Tree.RotateLR` | Algorithm/AVLTree.hpp:390-416 | a left rotation of the left child and a right rotation of its parent, as one change of the tree |
| `LinkedTree.Tree.RotateRL` | Algorithm/AVLTree.hpp:418-440 | the mirror image |
| `LinkedTree.Tree.Descend` | Algorithm/RBTree.hpp:264-282 | the search ends at the node with the key, or at the one empty place where a node with it keeps the tree sorted |
| `LinkedTree.Tree.Attach` | Algorithm/RBTree.hpp:282-293 | linking a fresh node leaves the heap holding the old tree with that node as a leaf in the empty place |
| `LinkedTree.FreshOrder` | Algorithm/RBTree.hpp:282-293 | with the node in that place the order and the set of nodes have grown by exactly it, and the order is still sorted |
| `LinkedTree.SortedAtRoot` | Algorithm/RBTree.hpp:267-282 | in a sorted tree, everything before a subtree's root is smaller and everything after it larger, however deep the subtree is |
| `LinkedTree.StoredNext` | Algorithm/RBTree.hpp:256-358 | one insert takes the stored entries from the first-entry-per-key of a prefix of the input to that of the next prefix |
| `RBTree.PlugRedBlack` | Algorithm/RBTree.hpp:294-354 | a tree is red-black with a black root exactly when a subtree, its surroundings and the link between them are |
| `RBTree.RecolourStep` | Algorithm/RBTree.hpp:294-354 | with a red uncle, repainting moves the only violation up to the grandparent and keeps all black counts |
| `RBTree.RotateStep` | Algorithm/RBTree.hpp:294-354 | with a black uncle, rotation and repainting remove the violation and keep the black height |
| `RBTree.Turn` | Algorithm/RBTree.hpp:294-354 | one turn of the fix-up loop ends the climb with all rules restored, or moves the clash two levels up with nothing else wrong; the `assert(false)` branch is not reached |
| `RBTree.FixUp` | Algorithm/RBTree.hpp:294-354 | the climb ends, with the colour rules restored below the root and the node order unchanged |
| `RBTree.Insert` | Algorithm/RBTree.hpp:256-358 | on every valid tree: a key is inserted exactly if it was absent, by putting one fresh node into the order; the result is linked, sorted and red-black with a black root; a present key is returned and nothing changes |
| `RBTree.InsertAll` | Algorithm/RBTree.hpp:256-358 | every run of inserts keeps all rules and stores exactly the first entry given for each key |
| `RBTree.Check` | Algorithm/RBTree.hpp:426-444 | on any linked tree, returns true exactly when the subtree obeys the colour rules with the given black count |
| `RBTree.IsRBTree` | Algorithm/RBTree.hpp:409-425 | on any linked search tree, returns true exactly when the tree is red-black with a black root |
| `RBTree.BlackHeightBounds` | Algorithm/RBTree.hpp:409-444 | a red-black subtree has at least 2^bh - 1 nodes and height at most twice its black height, one more if its root is red |
| `RBTree.HeightBound` | Algorithm/RBTree.hpp:409-444 | 2^height is at most (n+1)^2: the height is at most 2·log2(n+1) |
| `AVLTree.PlugAvl` | Algorithm/AVLTree.hpp:280-326 | a tree has right balance factors exactly when a subtree and its surroundings, for the height of that subtree, have |
| `AVLTree.UpdatedZero` | Algorithm/AVLTree.hpp:280-300 | if the parent's factor becomes 0, its height is unchanged and the climb may stop |
| `AVLTree.UpdatedOne` | Algorithm/AVLTree.hpp:280-300 | if it becomes 1 or -1, the parent's subtree is balanced and has grown by one level |
| `AVLTree.RepairedAvl` | Algorithm/AVLTree.hpp:300-326 | if it becomes 2 or -2, the chosen rotation, with the factors the code writes, restores balance and the height before the insertion |
| `AVLTree.RotateL` | Algorithm/AVLTree.hpp:331-358 | rotation and both factor assignments, as one change of the tree |
| `AVLTree.RotateR` | Algorithm/AVLTree.hpp:360-388 | the mirror image |
| `AVLTree.RotateLR` | Algorithm/AVLTree.hpp:390-416 | the double rotation, with all three factors chosen by the middle node's old factor |
| `AVLTree.RotateRL` | Algorithm/AVLTree.hpp:418-440 | the mirror image |
| `AVLTree.Turn` | Algorithm/AVLTree.hpp:280-326 | one turn of the loop ends with balance everywhere, or with the parent's subtree as the one that has grown; the `assert(false)` branches are not reached |
| `AVLTree.FixUp` | Algorithm/AVLTree.hpp:280-326 | the climb ends with every factor right and the order unchanged |
| `AVLTree.Insert` | Algorithm/AVLTree.hpp:250-329 | on every valid tree: inserts exactly an absent key as one fresh node; every stored factor is right height minus left height and lies in -1..1 |
| `AVLTree.InsertAll` | Algorithm/AVLTree.hpp:250-329 | every run of inserts keeps that and stores exactly the first entry given for each key |
| `AVLTree.HeightOf` | Algorithm/AVLTree.hpp:455-463 | computes the height |
| `AVLTree.IsBalance` | Algorithm/AVLTree.hpp:469-485 | returns true exactly when every stored factor of the subtree is right and within -1..1 |
| `AVLTree.SizeBound` | Algorithm/AVLTree.hpp:455-485 | an AVL tree of height h has at least Fib(h+2) - 1 nodes |
| `TreeIterator.Begin` | Algorithm/RBTree.hpp:228-246 | the first node in key order, or the end of an empty tree |
| `TreeIterator.ReverseBegin` | Algorithm/RBTree.hpp:202-223 | the last node in key order |
| `TreeIterator.ClimbRight` | Algorithm/RBTree.hpp:140-163 | climbing out of right subtrees ends, at the node that follows the subtree in order, or at the end |
| `TreeIterator.Increment` | Algorithm/RBTree.hpp:140-163 | takes the i-th node of the order to the next one, or to the end |
| `TreeIterator.Decrement` | Algorithm/RBTree.hpp:164-187 | takes the i-th node to the one before it, or to the end |
| `TreeIterator.Walk` | Algorithm/RBTree.hpp:140-246 | from `begin` by `++` to `end` every node is visited exactly once, in strictly increasing key order |
| `TreeIterator.WalkBack` | Algorithm/RBTree.hpp:60-223 | from `rbegin` by the reverse `++` to `rend` every node is visited exactly once, in strictly decreasing key order |
| `TreeIterator.ForthAndBack` | Algorithm/RBTree.hpp:140-187 | `--` undoes `++` on every node but the last |
| `BlockQueue.MoveInv` | lesson6/BlockQueue/BlockQueue.hpp:16-47 | every statement of every thread, and every spurious wake-up, keeps mutual exclusion, the queue contents and the no-lost-wake-up invariant |
| `BlockQueue.Accounted` | lesson6/BlockQueue/BlockQueue.hpp:16-47 | a step keeps the wake-up invariant if newly parked threads had no room and new room is matched by a new claim or a signal still owed |
| `BlockQueue.SignalWakeups` | lesson6/BlockQueue/BlockQueue.hpp:24-45 | a signal, waking any nonempty set of waiters, keeps the wake-up invariant of every queue |
| `BlockQueue.RunInv` | lesson6/BlockQueue/BlockQueue.hpp:16-47 | the invariant holds after every run |
| `BlockQueue.BoundedFifo` | lesson6/BlockQueue/BlockQueue.hpp:16-47 | after every run no queue exceeds its capacity, and values popped followed by the queue are the values pushed |
| `BlockQueue.NotAllParked` | lesson6/BlockQueue/BlockQueue.hpp:16-47 | no state that meets the invariant has every thread parked in `pthread_cond_wait` |
| `BlockQueue.DeadlockFree` | lesson6/BlockQueue/BlockQueue.hpp:16-47 | with a thread on every stage and capacities of at least one, some thread can move in every reachable state without a spurious wake-up, for any number of queues and threads |
| `BlockQueue.RunRelays` | lesson6/BlockQueue/main.cc:14-30 | a sole middle thread has pushed exactly what it made of what it popped, but for the value in its hand |
| `BlockQueue.PipelineOutput` | lesson6/BlockQueue/main.cc:14-57 | the values leaving the last queue are the first values entering the first one, each worked on by every stage, in order |
| `ThreadPool.SignalCovered` | my_Http/ThreadPool.hpp:95-101 | a signal sent after the unlock pays the debt it stands for, or nobody was parked |
| `ThreadPool.HistoryInv` | my_Http/ThreadPool.hpp:77-107 | after every run: mutual exclusion, and every queued task is covered by an awake worker or a signal still owed while a worker is parked |
| `ThreadPool.TakenInOrder` | my_Http/ThreadPool.hpp:77-107 | each pushed task is taken at most once, in push order |
| `ThreadPool.TaskMoves` | my_Http/ThreadPool.hpp:77-107 | in every step the logs gain exactly what the thread that moves lays down: a caller its own task, a worker the task it took off the queue |
| `ThreadPool.EveryTaskOnce` | my_Http/ThreadPool.hpp:77-107 | after every run, as often as `Push_task` was called with a task, so often the task is with its caller, in the queue, with a worker or processed: none is lost, doubled or exchanged |
| `ThreadPool.NoStrandedTask` | my_Http/ThreadPool.hpp:77-107 | no reachable state has a queued task while all workers sleep and no pusher owes a signal |
| `ThreadPool.OwingPusher` | my_Http/ThreadPool.hpp:77-107 | with the lock free, a task queued and no worker awake, some pusher stands right before its signal and a worker is parked to receive it |
| `ThreadPool.QueuedTaskTaken` | my_Http/ThreadPool.hpp:77-107 | from every reachable state with a task queued and a worker in the pool, some continuation of at most six steps, none of them a wake-up without a signal, ends with a worker that holds the task from the front of the queue |
| `RingQueue.RunInv` | lesson7/RingQueue.hpp:26-39 | after every interleaving the unread values are in the ring in order and both step counters stand where the counts of accesses say |
| `RingQueue.SemaphoresConserved` | lesson7/RingQueue.hpp:26-39 | the two semaphores and the operations in flight sum to the capacity |
| `RingQueue.SlotsApart` | lesson7/RingQueue.hpp:26-39 | the threads never access the same slot at once, and no slot outside the ring |
| `RingQueue.ConsumedPrefix` | lesson7/RingQueue.hpp:26-39 | values read are a prefix of values written, across every wrap-around |
| `RingQueue.DeadlockFree` | lesson7/RingQueue.hpp:26-39 | one of the two threads can always move |
| `TimerWheel.DelayIsTimeout` | Reactor_http/source/server.hpp:523-541 | at every tick and for every 32-bit timeout, an added timer waits for its timeout exactly if that lies in 1..60, and so does a refreshed one wherever refreshing is possible |
| `TimerWheel.SteadyWaits` | Reactor_http/source/server.hpp:523-541 | for timeouts up to `INT_MAX - 59`, the unsigned position of an add and the signed position of a refresh agree, at every tick, and the wait does not depend on the tick |
| `TimerWheel.SteadyExactly` | Reactor_http/source/server.hpp:532-541 | a timer can be refreshed at every tick, without overflow and to a position of the wheel, exactly if its timeout is at most `INT_MAX - 59` |
| `TimerWheel.AddedWait` | Reactor_http/source/server.hpp:523-530 | the wait of an added timer is the same at every tick exactly if its timeout is at most `UINT_MAX - 59` |
| `TimerWheel.SamePosition` | Reactor_http/source/server.hpp:523-541 | wherever a refresh is possible, it goes to the position of an add exactly if its signed sum is not negative |
| `TimerWheel.UnsteadyWaits` | Reactor_http/source/server.hpp:523-541 | a timeout whose wait depends on the tick and which can be refreshed at one tick and not at another; a timeout that adding puts at position 16 and refreshing, at the same tick, at position 0 |
| `TimerWheel.FiresExactlyAtDeadline` | Reactor_http/source/server.hpp:443-549 | in the table of deadlines, through any operations on other tasks and any ticks, a task is pending before its deadline, and from then on gone, having fired exactly once more, at the deadline, unless cancelled |
| `TimerWheel.TouchedTaskFires` | Reactor_http/source/server.hpp:523-541 | after an add or refresh a task fires after exactly its wait |
| `TimerWheel.CancelledNeverFires` | Reactor_http/source/server.hpp:542-549 | a cancelled task never fires, even if refreshed |
| `TimerWheel.GoneStaysGone` | Reactor_http/source/server.hpp:443-549 | a task that is gone never fires again |
| `TimerWheel.OwnerAdded` | Reactor_http/source/server.hpp:523-541 | one more owner in the slot that some tick clears makes the later one of that tick and the old deadline the moment the task dies |
| `TimerWheel.OwnersLeft` | Reactor_http/source/server.hpp:512-516 | clearing a slot takes the last owner of exactly the tasks that are due |
| `TimerWheel.SlotCleared` | Reactor_http/source/server.hpp:512-516 | after a tick every remaining task still has an owner in the slot of its deadline and none in a slot that is cleared later |
| `TimerWheel.ClearingDone` | Reactor_http/source/server.hpp:512-516 | when the slot is empty, exactly the due tasks have been destroyed, their callbacks are those of the table, and their ids are gone |
| `TimerWheel.TimerWheel.TimerAdd` | Reactor_http/source/server.hpp:523-530 | for every 32-bit timeout, refines adding a deadline to a table; keeps every live task reachable by its id exactly when the id was free; gives a task under a free id the fate that runs are told from |
| `TimerWheel.TimerWheel.TimerRefresh` | Reactor_http/source/server.hpp:532-541 | refines moving the deadline; the weak pointer always locks; a timer with a timeout up to `INT_MAX - 59` is due after exactly its delay from now |
| `TimerWheel.TimerWheel.TimerCancel` | Reactor_http/source/server.hpp:542-549 | refines marking the task cancelled; the task that the id leads to has its flag set |
| `TimerWheel.TimerWheel.ClearSlot` | Reactor_http/source/server.hpp:512-516 | dropping the owners one by one destroys each due task once, with its last owner, and no other task |
| `TimerWheel.TimerWheel.Destroy` | Reactor_http/source/server.hpp:454-458 | the destructor runs the callback unless cancelled and removes the id; it never runs for a task that ran before |
| `TimerWheel.TimerWheel.RunTimerTask` | Reactor_http/source/server.hpp:512-516 | refines one tick of the deadline table; exactly the ids of the due tasks leave `_timers` |
| `TimerWheel.TimerWheel.Play` | Reactor_http/source/server.hpp:443-549 | for every run of adds, refreshes, cancels and ticks by any ids: the wheel refines operations on the deadline table, and of any one task the ticks, the calls about its own id and its timeout alone decide its deadline, whether it is cancelled and how long its id leads to it; its callback has run exactly at that deadline, if that has come and it was not cancelled, and at no other time; the state handed back starts the next run |
| `TimerWheel.LastTouch` | Reactor_http/source/server.hpp:523-549 | whatever was called before, a task with a timeout up to `INT_MAX - 59` that still lives under its id when it is refreshed, and is left alone after that, runs out exactly its delay after the refresh |
| `TimerWheel.CancelHolds` | Reactor_http/source/server.hpp:542-549 | whatever is called before and after, a task that still lives under its id when it is cancelled stays cancelled, so that its callback never runs |
| `TimerWheel.LeftAlone` | Reactor_http/source/server.hpp:443-549 | calls about other ids change nothing about a task but the time |
| `TimerWheel.FateGrows` | Reactor_http/source/server.hpp:532-549 | whatever is called, a deadline never comes nearer and a cancel is for good |
| `TimerWheel.FateSealed` | Reactor_http/source/server.hpp:443-549 | once its deadline has passed, no call changes anything about a task: it does not run again |
| `TimerWheel.TickFollows` | Reactor_http/source/server.hpp:512-516 | a tick of the table and the removal of the due ids agree with the fate of every task |
| `TimerWheel.LedTo` | Reactor_http/source/server.hpp:532-549 | a call by id is about a task exactly if the id was not given to another task since and its deadline has not passed |
| `Utf8Validator.TableStep` | websocketpp-master/websocketpp/utf8_validator.hpp:45-78 | the two lookups in the 400-entry table are one transition of the automaton and never leave the table |
| `Utf8Validator.AcceptsCompletes` | websocketpp-master/websocketpp/utf8_validator.hpp:45-78 | from every state, the automaton ends in the accept state exactly if the rest of the input completes a string that is well formed under section 4 of RFC 3629 |
| `Utf8Validator.RejectAbsorbs` | websocketpp-master/websocketpp/utf8_validator.hpp:45-60 | once rejected, always rejected |
| `Utf8Validator.EncodedIsRead` | websocketpp-master/websocketpp/utf8_validator.hpp:69-78 | the encoding (section 3 of RFC 3629) of any list of scalar values is accepted, and the codepoints at the accept states are those values |
| `Utf8Validator.AcceptedIsEncoded` | websocketpp-master/websocketpp/utf8_validator.hpp:69-78 | every accepted string is the encoding of the codepoints its accept states show |
| `Utf8Validator.LastEmitted` | websocketpp-master/websocketpp/utf8_validator.hpp:69-78 | at every accept state `m_codepoint` is the last value shown |
| `Utf8Validator.Validator.Step` | websocketpp-master/websocketpp/utf8_validator.hpp:69-78 | state and codepoint after one byte |
| `Utf8Validator.Validator.Consume` | websocketpp-master/websocketpp/utf8_validator.hpp:91-96 | false exactly when the byte leads to the reject state |
| `Utf8Validator.Validator.Decode` | websocketpp-master/websocketpp/utf8_validator.hpp:104-118 | stops at the first error, and is then in the state of the whole chunk all the same; at an accept state the codepoint is the last decoded value |
| `Utf8Validator.Validator.Complete` | websocketpp-master/websocketpp/utf8_validator.hpp:124-126 | true exactly in the accept state |
| `Utf8Validator.Validate` | websocketpp-master/websocketpp/utf8_validator.hpp:143-149 | true exactly for byte strings well formed under section 4 of RFC 3629 |
| `Utf8Validator.Stream` | websocketpp-master/websocketpp/utf8_validator.hpp:104-126 | for every chunking, `complete` holds at the end exactly when the whole message is well formed, whatever `decode` answered on the way |
| `Masking.PreparedRepeats` | websocketpp-master/websocketpp/frame.hpp:595-604 | in memory a prepared key repeats the four key bytes, on 4- and 8-byte words of either byte order |
| `Masking.CircshiftRepeats` | websocketpp-master/websocketpp/frame.hpp:612-623 | rotating a prepared key by an offset moves its phase by that offset, in either byte order |
| `Masking.MaskTwice` | websocketpp-master/websocketpp/frame.hpp:644-655 | masking twice is the identity |
| `Masking.MaskedConcat` | websocketpp-master/websocketpp/frame.hpp:644-655 | masking a concatenation is masking the parts, the second at its own phase |
| `Masking.ByteMask` | websocketpp-master/websocketpp/frame.hpp:644-655 | every byte is xored with the key byte of its position; nothing else changes, also when input and output are one array |
| `Masking.WordMaskExact` | websocketpp-master/websocketpp/frame.hpp:702-717 | meets the specification of `byte_mask`, word by word |
| `Masking.WordMaskCirc` | websocketpp-master/websocketpp/frame.hpp:768-789 | meets it at any phase, and returns a key for the phase of the bytes that follow |
| `Masking.ByteMaskCirc` | websocketpp-master/websocketpp/frame.hpp:830-841 | the same for the byte-wise form, with the truncated key |
| `Masking.MaskStream` | websocketpp-master/websocketpp/frame.hpp:768-841 | every split of a payload, masked in place piece by piece by freely mixed circular functions with the returned key passed on, is one mask of the whole payload |
| `FrameHeader.HeaderRoundTrip` | websocketpp-master/websocketpp/frame.hpp:194-275 | for every opcode, flags, 64-bit size and key, each getter returns what the constructors were given; the key of an unmasked header is zero |
| `FrameHeader.OffsetOfCode` | websocketpp-master/websocketpp/frame.hpp:469-480 | the size code fixes where the masking key starts |
| `FrameHeader.SizeReadBack` | websocketpp-master/websocketpp/frame.hpp:540-585 | the size is read back from any buffer that starts with the copied bytes |
| `FrameHeader.ShortestForm` | websocketpp-master/websocketpp/frame.hpp:445-460 | no header, however its bytes are chosen, states the same size in fewer bytes |
| `FrameHeader.HeaderLength` | websocketpp-master/websocketpp/frame.hpp:445-480 | the length of a header in terms of its second byte alone: 2, 2 more for code 126 or 8 for 127, 4 more if the top bit is set |
| `FrameHeader.SizeFormat` | websocketpp-master/websocketpp/frame.hpp:540-585 | the size any header states, in terms of its bytes: the code up to 125, else two or eight bytes as a number in base 256, most significant first |
| `FrameHeader.WireFormat` | websocketpp-master/websocketpp/frame.hpp:194-275 | every byte of a header on the wire: the flag bits and opcode, the mask bit and size code, none, two or eight size bytes in base 256, the key if masked, and nothing more (section 5.2 of RFC 6455) |
| `FrameHeader.WireRoundTrip` | websocketpp-master/websocketpp/frame.hpp:489-500 | a header on the wire, followed by anything, is read back with its own length, size and key; the first two bytes fix its length (section 5.2 of RFC 6455) |
| `FrameHeader.SetterLaws` | websocketpp-master/websocketpp/frame.hpp:321-420 | a set bit reads back and no other bit moves |
| `ProbingTable.FindTerminates` | Algorithm/HashTable.hpp:77-88 | the probe of `find` stops after some number of steps if and only if there is an empty slot or the key is in the table |
| `ProbingTable.PresentIsMet` | Algorithm/HashTable.hpp:77-88 | a probe that has passed neither an empty slot nor the key meets no empty slot while the key is in the table |
| `ProbingTable.Written` | Algorithm/HashTable.hpp:66-72 | writing over the first slot that is not live keeps keys unique and every live key reachable without crossing an empty slot |
| `ProbingTable.Buried` | Algorithm/HashTable.hpp:90-98 | so does a tombstone |
| `ProbingTable.LoadLeavesEmpty` | Algorithm/HashTable.hpp:57-65 | without tombstones a load of at most 8/10 leaves an empty slot |
| `ProbingTable.Spare` | Algorithm/HashTable.hpp:57 | the integer test `_n * 10 / size > 7` is exactly a load of 8/10 or more |
| `ProbingTable.Probe` | Algorithm/HashTable.hpp:80-86 | the loop ends at the first slot on the way that is empty or holds the key |
| `ProbingTable.FirstFree` | Algorithm/HashTable.hpp:66-70 | the loop ends at the first slot from home that is not live |
| `ProbingTable.ProbingTable.Find` | Algorithm/HashTable.hpp:77-88 | finds the slot of a key exactly if the key is in the map |
| `ProbingTable.ProbingTable.Transfer` | Algorithm/HashTable.hpp:58-63 | the rehash loop moves exactly the live entries into a table that never has to grow on the way |
| `ProbingTable.ProbingTable.Insert` | Algorithm/HashTable.hpp:52-75 | refines a map that keeps the first value of a key; load at most 8/10 afterwards; the nested inserts of a resize do not resize again |
| `ProbingTable.ProbingTable.Erase` | Algorithm/HashTable.hpp:90-98 | refines removing the key; leaves one tombstone |
| `ProbingTable.InsertAll` | Algorithm/HashTable.hpp:52-75 | insert-only runs need no condition: every probe ends, an empty slot remains, the table holds the first entry of each key |
| `ProbingTable.OnlyTombstones` | Algorithm/HashTable.hpp:52-98 | ten inserts and erases leave an empty map in which no lookup of any key ever stops |
| `ChainedTable.PushAllOwns` | Algorithm/HashTable.hpp:181-198 | relinking distinct nodes into empty buckets puts each of them exactly once into the bucket of its hash |
| `ChainedTable.EachOnce` | Algorithm/HashTable.hpp:417-473 | bucket order lists every stored node exactly once |
| `ChainedTable.NodeCount` | Algorithm/HashTable.hpp:174-256 | there are as many nodes as keys |
| `ChainedTable.Relinked` | Algorithm/HashTable.hpp:181-198 | after a rehash the same nodes stand, each once, in the buckets of their hash modulo the doubled length |
| `ChainedTable.MoveChain` | Algorithm/HashTable.hpp:185-194 | the inner rehash loop relinks one chain node by node into the new buckets |
| `ChainedTable.Relink` | Algorithm/HashTable.hpp:181-198 | the whole rehash, as pointer updates, equals pushing all nodes in bucket order into twice as many empty buckets |
| `ChainedTable.Search` | Algorithm/HashTable.hpp:213-225 | the search loop ends at the node with the key, with its predecessor, or at the end of the chain |
| `ChainedTable.Unlink` | Algorithm/HashTable.hpp:226-237 | the chain without the node, whether it was the head or not |
| `ChainedTable.WithoutOwns` | Algorithm/HashTable.hpp:207-241 | a table without one of its nodes stores exactly the other keys |
| `ChainedTable.ChainedTable.Find` | Algorithm/HashTable.hpp:242-256 | the node of the key, or null exactly if the key is absent |
| `ChainedTable.ChainedTable.Insert` | Algorithm/HashTable.hpp:174-206 | refines a map that keeps the first value of a key; node count at most `_size`, at most the table length |
| `ChainedTable.ChainedTable.InsertData` | Algorithm/HashTable.hpp:495-529 | the same map, an iterator to the key's node, and a flag that is false in every case |
| `ChainedTable.ChainedTable.Erase` | Algorithm/HashTable.hpp:207-241 | refines removing the key; `_size` stays |
| `ChainedTable.ChainedTable.Begin` | Algorithm/HashTable.hpp:459-469 | the first node of the order, or the end |
| `ChainedTable.ChainedTable.Increment` | Algorithm/HashTable.hpp:417-447 | takes the k-th node of the order to the next one, or to the end |
| `ChainedTable.ChainedTable.Traverse` | Algorithm/HashTable.hpp:417-473 | from `begin` by `++` to `end` exactly the stored nodes are visited, each once |
| `Protocol.DecimalIsNumeral` | lesson_IO/Reactor/Protocol.hpp:22-30 | `to_string` writes decimal notation: digits without a leading zero that, each times the power of ten of its place, add up to the number |
| `Protocol.OneNumeral` | lesson_IO/Reactor/Protocol.hpp:22-30 | every number has only that one decimal notation |
| `Protocol.StoiReads` | lesson_IO/Reactor/Protocol.hpp:31-40 | `stoi` of blanks, a sign or none, digits and a rest is the number the digits stand for, or throws if `int` cannot hold it |
| `Protocol.StoiOnly` | lesson_IO/Reactor/Protocol.hpp:31-40 | `stoi` returns a number for no other string |
| `Protocol.StoiDecimal` | lesson_IO/Reactor/Protocol.hpp:24-36 | `stoi` reads back what `to_string` wrote exactly when `int` can hold it, and throws otherwise |
| `Protocol.FirstCrlf` | lesson_IO/Reactor/Protocol.hpp:31-35 | `find` gives the first line end, or none exactly if there is none |
| `Protocol.PackageForm` | lesson_IO/Reactor/Protocol.hpp:22-30 | `enLength(text)` is the length of the text in decimal notation, CR, LF, the text, CR, LF, and no other string is such a package |
| `Protocol.DeliveredIff` | lesson_IO/Reactor/Protocol.hpp:175-189 | a package in front of anything is taken off, and exactly it, if and only if its whole length fits an `int`; otherwise parsing throws or waits for ever |
| `Protocol.PartialWaits` | lesson_IO/Reactor/Protocol.hpp:175-189 | every proper prefix of a package is left alone |
| `Protocol.TooLongStays` | lesson_IO/Reactor/Protocol.hpp:175-189 | a package that does not fit is never taken off, however much of it and of what follows has arrived |
| `Protocol.TextReadBack` | lesson_IO/Reactor/Protocol.hpp:31-40 | `deLength` undoes `enLength`, whatever bytes the text holds |
| `Protocol.AnyTextRead` | lesson_IO/Reactor/Protocol.hpp:31-40 | what `deLength` makes of any string with a line end: it throws if there is no number before the first one, else gives what is behind it, cut to that number if it is not negative and not too large |
| `Protocol.FeedPrefix` | lesson_IO/Reactor/Protocol.hpp:175-189 | after any fragmentation of the beginning of any stream, the first packages are taken off, their requests handled in order and the rest is in the buffer; what is left is a proper prefix of the next package, or the last text was no request, or the next package does not fit |
| `Protocol.Fragmentation` | lesson_IO/Reactor/Protocol.hpp:22-40 | however a stream of packages is cut up, exactly its texts are handled, in order, and nothing is left, if and only if every package fits an `int` and every text is a request |
| `Protocol.Connection.ParseOnePackage` | lesson_IO/Reactor/Protocol.hpp:175-189 | what is taken off the buffer in each case, the exceptions of `stoi` included |
| `Protocol.Connection.Receive` | lesson_IO/Reactor/main.cc:50-68 | the loop ends for every buffer, whatever bytes it holds and whichever texts deserialise, and handles what draining the buffer yields; a text that does not deserialise ends it |
| `Protocol.Connection.ReceiveAll` | lesson_IO/Reactor/main.cc:50-68 | a run over arriving chunks is the fragmented stream of the lemmas |
| `Room.CountRun` | game/source/room.hpp:26-34 | one loop of `five` counts the stones without a gap |
| `Room.RunsDecide` | game/source/room.hpp:21-46 | the two runs from a stone span five places exactly when one of the five rows through it is complete |
| `Room.FiveInRow` | game/source/room.hpp:21-46 | `five` decides exactly that |
| `Room.FourDirections` | game/source/room.hpp:47-58 | the four directions looked at cover all eight |
| `Room.NewRow` | game/source/room.hpp:47-58 | on a board without a row of five, one more stone makes one exactly if there is one through it |
| `Room.MoveWins` | game/source/room.hpp:97-111 | the same for a move, and the opponent has none |
| `Room.Room.CheckWin` | game/source/room.hpp:47-58 | the colour's player if a row through the place is complete, else 0 |
| `Room.Room.HandleChess` | game/source/room.hpp:78-112 | forfeits, occupied places and moves; a move puts 1 for the white player and 2 for the other and changes no other place; as long as no row was on the board, the winner named is the mover's own id exactly if the whole board now holds five aligned stones |
| `Room.Room.Play` | game/source/room.hpp:78-112 | on every run up to the first reported win, no board before the last move has a row of five, each follows from the one before by its move, and a win is reported exactly if the last one has a row, for the player who made the last move |
| `ByteBuffer.CopyDown` | Reactor_http/source/server.hpp:82-88 | copying down over an overlapping range moves the bytes unharmed |
| `ByteBuffer.Buffer.EnsureWriteSpace` | Reactor_http/source/server.hpp:79-92 | makes room by compaction or growth, keeps the contents, grows exactly when compaction is not enough |
| `ByteBuffer.Buffer.WriteAndPush` | Reactor_http/source/server.hpp:94-105 | appends to the queue of bytes |
| `ByteBuffer.Buffer.WriteBufferAndPush` | Reactor_http/source/server.hpp:115-123 | appends another buffer's contents and leaves that buffer alone |
| `ByteBuffer.Buffer.ReadAndPop` | Reactor_http/source/server.hpp:136-148 | takes the oldest bytes off the queue |
| `ByteBuffer.Buffer.GetLineAndPop` | Reactor_http/source/server.hpp:149-165 | takes off the bytes up to and with the first newline, or nothing if there is none |
| `ConnectionOutput.StepInv` | Reactor_http/source/server.hpp:853-936 | every event keeps: bytes taken by the socket, then bytes waiting, are all bytes queued; waiting bytes have the write flag set, also after a release; a closed connection is released, or closing with bytes it cannot send |
| `ConnectionOutput.RunInv` | Reactor_http/source/server.hpp:853-936 | that holds on every run, from before the connection is established on |
| `ConnectionOutput.StepAttended` | Reactor_http/source/server.hpp:853-936 | an event leaves waiting bytes on an open socket with write events monitored exactly if it is no shutdown of a released connection with bytes left or an answer to give |
| `ConnectionOutput.RunAttended` | Reactor_http/source/server.hpp:853-936 | waiting bytes are so throughout a run exactly if no such shutdown comes |
| `ConnectionOutput.LateShutdown` | Reactor_http/source/server.hpp:901-936 | a run that leaves a closed connection closing, with a byte that no write event will come for |
| `ConnectionOutput.Flow` | Reactor_http/source/server.hpp:853-920 | on every run of sends and write events, what is queued is exactly the data sent, in order, and the socket has taken all of it but the backlog that the numbers of bytes leave |
| `ConnectionOutput.ShutdownFlow` | Reactor_http/source/server.hpp:853-936 | a connection that shuts down hands on its bytes in order as write events offer, and is released, with all bytes sent, exactly once they have offered enough |
| `ConnectionOutput.Connection.Play` | Reactor_http/source/server.hpp:853-936 | the same of the object itself, for any run of events up to a failing `assert`: sent plus waiting bytes equal queued bytes, waiting bytes are flagged, and monitored on an open socket until release if no shutdown comes late; everything is sent if it was released without a failed write or a hang-up; while nothing fails or shuts down, all data sent but the backlog was taken |
| `ConnectionOutput.NothingLost` | Reactor_http/source/server.hpp:853-936 | on runs without a failed write or hang-up, a released connection has sent all that was queued |
| `ConnectionOutput.Connection.EstablishedInLoop` | Reactor_http/source/server.hpp:893-899 | refines establishing the connection; it is connected, and what the callback sends is queued |
| `ConnectionOutput.Connection.ReleaseInLoop` | Reactor_http/source/server.hpp:901-914 | refines releasing: the socket is closed, the channel's flags stay |
| `ConnectionOutput.Connection.SendInLoop` | Reactor_http/source/server.hpp:916-920 | refines queueing; exactly the data is added behind the bytes that wait, and flagged; ignored once released |
| `ConnectionOutput.Connection.HandleWrite` | Reactor_http/source/server.hpp:853-871 | refines a write event; the socket gets the oldest bytes, as many as it takes, and the rest stays; with the last one the flag is cleared, and the connection released if it is shutting down; a failure releases it |
| `ConnectionOutput.Connection.ShutdownInLoop` | Reactor_http/source/server.hpp:922-936 | refines shutting down; what the message callback still sends is queued, and the connection is released exactly if nothing waits |
| `ConnectionOutput.Connection.HandleClose` | Reactor_http/source/server.hpp:873-882 | refines a hang-up; the connection is closed and disconnected |

## Left out

- Deletion from the trees, copying and destructors: the repository's trees have no erase.
- Freeing of memory: nodes and tasks that the code deletes simply become unreachable.
- The values stored in chained and probing tables are not changed through the pointers that `find` returns.
- The string hash formulas: the hash function is arbitrary.
- `zhc_hash::HashTable::erase`: it names an undeclared variable; only the erase of `Hash::HashTable` is modelled.
- More than one producer or consumer on the ring queue: it has no lock around its step counters, and the repository runs one of each.
- The block queue's `pop` has no return statement; its returned reference is not modelled.
- Callbacks of the timer wheel that add, refresh or cancel timers while a slot is being cleared.
- TimerWheel.TimerWheel.TimerRefresh: refreshing a timer whose position overflows or is negative is excluded; the source has no defined behaviour there.
- The poller's own table of channels: what the connection knows of it is the channel's write flag and that a release removes the channel and closes the socket.
- Message callbacks that shut the connection down themselves; the model lets them send any list of byte strings.
- Protocol.Connection.Receive: the receiving socket appends a C string, so a zero byte would cut a chunk short; chunks are taken as they are.
- The JSON encodings, the calculator, HTTP parsing, sockets, epoll, threads' start and end, logging, the database and all JavaScript: input and output, or easy members.
- Room.Room.HandleChess: places outside the board, which the source does not check, are excluded.
