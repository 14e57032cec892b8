# Verification of the tlhh server core

A Dafny model of the parts of the tlhh server that carry its state and arithmetic, with proofs
about every run of them:

- the **object pool** (`pool.h`): a mutex over two ordered sets, growing in batches, always
  handing out the least free handle. `PoolSpec` is the atomic pool and what every sequence of
  calls keeps; `Pool` is the class, with its loops; `PoolThreads` and `PoolSystem` split every
  call into its single steps, let any number of threads interleave them, and prove that the
  result is still the atomic pool; `PoolHistory` says what the threads see of it, `PoolCallbacks`
  which callbacks they run, `PoolOwnership`
  who owns a handle, and `PoolStaleFree` what a caller must know before it frees one.
- the **user registry** (`server_user_manager`, `server_user_item`): an index from user ids to
  pooled items. `RegistrySpec` and `RegistryRuns` hold the atomic registry and its runs,
  `Registry` the classes.
- the **byte buffer** (`tlhh_buffer.h`): a vector and a write cursor in 64-bit `size_t`
  arithmetic. `BufferSpec` and the class in `Buffer.dfy`; `SocketWrite` adds the loop in
  `tcp_socket.cpp` that sends a buffer piece by piece.
- the **packet parser** (`buffer_parseh.h`): a byte stream cut into packets by a 24-byte head.
  `FramingSpec` and `FramingRuns` hold the format, the parser and its runs, `Framing` the class
  over the fixed receive buffer; `SharedParser` is the one parser the server engine
  (`server_work_engine.cpp`) uses for all its clients.

`Numbers`, `Handles` and `Bytes` hold what the others share. Each class method is proved to be one event of
the specification beside it, so the theorems about runs of events are theorems about runs of
calls.

## Where the code does something else than it seems to want

The model follows the code. Each of these has the condition under which the apparent intent
holds, or an input for which it does not.

- `user_count_` is set to zero and never changed, so the limit of `MAX_USER_COUNT` users is
  never enforced (`RegistryRuns.LimitNeverBinds`, `RegistryRuns.LimitKeptIff`).
- A `free` of a handle the caller does not hold is accepted, and then `get` may hand the handle to
  two threads (`PoolStaleFree.StaleFreeHandsOutTwice`). It is not enough that nobody holds the
  handle when `free` is called: it may be handed out before the `free` has the mutex
  (`PoolStaleFree.NobodyHoldsIsNotEnough`). The check that is enough, and with other threads about
  the only one, is that the caller holds it (`PoolStaleFree.SafeToFreeIff`). `handler_read` and
  `handler_write` free the same client (`tcp_server.cpp:194`, `tcp_server.cpp:222`).
- `remove_user` resets nothing, so an item comes back with the id its last holder left in it
  (`RegistryRuns.IssuedItemState`, `RegistryRuns.RecycledItemStaysActive`).
- `alloc` answers false after a resize that succeeded (`BufferSpec.AllocAnswerIff`,
  `BufferSpec.AllocDeniesGrowth`).
- An assignment shorter than what was written leaves the cursor outside the buffer, where
  `commit` wraps around (`BufferSpec.AssignKeepsCursorIff`, `BufferSpec.CursorEscapes`).
- A buffer built from a string or from memory has its cursor at the end, so `async_write` of it
  ends after the first piece and reports the full size. A report of success is sure to be true
  exactly for a cursor at zero or a buffer of one byte (`SocketWrite.TruthfulIff`,
  `SocketWrite.BuiltBuffersEndAtOnce`).
- The server engine parses the chunks of all clients with one parser. Packets are made of the bytes
  of the client they are handed on for exactly if the sender changes only when the parser keeps
  nothing (`SharedParser.RightNamesIff`, `SharedParser.OtherEndsPacket`).
- The sender accepts packets of up to 16384 bytes, but the parser may refuse a correct stream of
  packets longer than 15361 bytes when it arrives in the 1024-byte chunks the server reads: it
  takes every stream in every chunking exactly if packet and chunk bound together are at most
  16385 (`FramingRuns.ChunkSizesSafeIff`).

## Reading the model

- A handle is the value of a `shared_ptr`: a number, compared as an address is. A new object's
  handle is any number not in the pool; nothing relates the order of handles to the order of
  their making. `nullptr` is `None`.
- The factory's answers are part of the event (`Get(batch)`), so that a run is a function of its
  events; the class lets its factory answer anything the events allow.
- The pool's growth loops count with an `int`, so the class asks for a batch size an `int` can
  reach.
- Callbacks return and do not call back into the pool. The callback of `free` and each one of
  `each` is a step of its own with the mutex held; the callback of `get(op)` runs after the mutex
  is dropped. A call without a callback is one whose callback does nothing.
- Refinement, partition, growth and progress hold for all callers. Only the theorems about
  ownership assume that a thread frees what it holds.
- `max_size()` of a vector of `char` is 2^63 - 1, `size_t` has 64 bits, and the packet head is
  laid out as on a 64-bit little-endian machine: 24 bytes, with padding that is never set.
- The move of the bytes after a packet to the front of the receive buffer overlaps itself; it is
  modelled as a copy in ascending order.

## Model

| member | source | states |
|---|---|---|
| PoolSpec.CallsExactly | TLHHPlatform/Define/pool.h:41-80 | which handles are busy and free after a call, handle by handle, and the answers of get and free |
| PoolSpec.NothingDropped | TLHHPlatform/Define/pool.h:41-71 | after any calls every handle ever made is in exactly one of the two sets, so their sizes add up to the number made |
| PoolSpec.BatchesFollowPeak | TLHHPlatform/Define/pool.h:46-57 | the pool consists of whole batches and the peak number of handles out needed the last of them |
| PoolSpec.GrowthFormula | TLHHPlatform/Define/pool.h:18-57 | pool size is batch size times max(1, peak / batch size rounded up), for every run |
| PoolSpec.EmptyBatchSize | TLHHPlatform/Define/pool.h:46-59 | with batch size zero nothing is made and every get returns null |
| PoolSpec.IssuedDownClosed | TLHHPlatform/Define/pool.h:53-57 | in every batch the handles ever handed out are the smallest ones of the batch, growth or not |
| PoolSpec.WorkingSet | TLHHPlatform/Define/pool.h:46-68 | if at most one batch was ever out at once, the handles ever handed out are exactly the peak smallest of the first batch |
| Pool.ObjectPool.constructor | TLHHPlatform/Define/pool.h:14-22 | one batch free, nothing busy |
| Pool.ObjectPool.Get | TLHHPlatform/Define/pool.h:41-60 | the growth loop and the move are one event of the atomic pool: a batch only when nothing is free, then the least free handle, or null |
| Pool.ObjectPool.Free | TLHHPlatform/Define/pool.h:61-71 | one event of the atomic pool; the callback runs exactly if the handle was busy |
| Pool.ObjectPool.Each | TLHHPlatform/Define/pool.h:73-80 | the callback sees every busy handle once, in ascending order |
| Pool.FreeUndoesGet | TLHHPlatform/Define/pool.h:46-68 | freeing what get returned restores both sets up to the new batch, and the next get returns it again |
| PoolThreads.AdvanceIsOneEvent | TLHHPlatform/Define/pool.h:41-80 | every single step of a call either leaves the atomic pool as it is or is one legal event of it, although the sets overlap between an insert and the erase after it |
| PoolThreads.AdvanceKeepsGood | TLHHPlatform/Define/pool.h:41-80 | a step of the thread that moves keeps the mutex, the sets and the log of its calls consistent |
| PoolSystem.EveryRunRefines | TLHHPlatform/Define/pool.h:33-80 | every interleaving of any number of threads refines the atomic pool |
| PoolSystem.LockFreeIsAtomic | TLHHPlatform/Define/pool.h:33-80 | whenever the mutex is free the sets are the atomic pool's after the logged calls: disjoint, complete, and of the size the growth formula gives |
| PoolHistory.AnswersAreAtomic | TLHHPlatform/Define/pool.h:41-80 | the calls each thread made and what they returned are, in order, its calls in the log and the atomic pool's answers to them |
| PoolHistory.RealTimeOrder | TLHHPlatform/Define/pool.h:41-80 | a call that had returned before another was made stands before it in the log, whatever happens later |
| PoolHistory.AnswersExplained | TLHHPlatform/Define/pool.h:41-80 | in every interleaving get answers with a handle that is not out, free says whether its handle was out, and each visits what is out in ascending order, where a handle is out by the earlier answers alone |
| PoolCallbacks.CallbacksMatchAnswers | TLHHPlatform/Define/pool.h:33-80 | counted over the steps of any run, the callbacks a thread ran are those its answered calls ask for, once each and in order; only that of get comes after the answer |
| PoolCallbacks.CallbacksOfIdle | TLHHPlatform/Define/pool.h:33-80 | when its calls have returned, a thread has run one callback per handle got, per free that found its handle, and per handle visited, and no other |
| PoolCallbacks.CallbacksAndMutex | TLHHPlatform/Define/pool.h:33-80 | callbacks of free and each run with the mutex held, that of get without it |
| PoolCallbacks.HeldFollowsAnswers | TLHHPlatform/Define/pool.h:41-71 | a thread holds what get answered it with and it has not freed since |
| PoolHistory.HandedIsIssued | TLHHPlatform/Define/pool.h:46-57 | in every interleaving the handles the threads were told are exactly those the atomic pool handed out |
| PoolHistory.WorkingSetOfThreads | TLHHPlatform/Define/pool.h:46-68 | with at most one batch out at once, the handles all threads were told are exactly the peak smallest of the first batch |
| PoolSystem.OwnerCanMove | TLHHPlatform/Define/pool.h:44-80 | the owner of the mutex always has an enabled step |
| PoolSystem.OwnerNeverStalls | TLHHPlatform/Define/pool.h:44-80 | each of its steps drops the mutex or lowers the count of steps left |
| PoolSystem.OthersDoNotDelay | TLHHPlatform/Define/pool.h:44-80 | steps of other threads leave that count alone |
| PoolSystem.SectionEnds | TLHHPlatform/Define/pool.h:44-80 | from every reachable state that many steps of the owner alone free the mutex |
| PoolSystem.NoDeadlock | TLHHPlatform/Define/pool.h:44-80 | while a call is running some call can move |
| PoolOwnership.ExclusiveOwnership | TLHHPlatform/Define/pool.h:53-69 | if threads free only what they hold, no handle is held by or on its way to two threads, in any interleaving |
| PoolOwnership.CallbackOwnsHandle | TLHHPlatform/Define/pool.h:63-69 | while the callback of free runs, the handle is free already but nobody else holds it, is being handed it, or is in a section |
| PoolOwnership.QuietMeansExclusive | TLHHPlatform/Define/pool.h:41-71 | when no call runs, the busy set is the disjoint union of what the threads hold |
| PoolOwnership.StepKeepsOwnIff | TLHHPlatform/Define/pool.h:41-80 | from any owned state, with calls of any threads under way, a step keeps ownership exactly if it is not the erase of a handle its thread does not hold |
| PoolOwnership.RunKeepsOwnIff | TLHHPlatform/Define/pool.h:41-80 | a run keeps ownership after each of its actions exactly if every erase in it is made by a holder |
| PoolStaleFree.SafeToFreeIff | TLHHPlatform/Define/pool.h:61-71 | however the threads go on with frees of what they hold, no two come to hold one handle after this call of free, exactly if its caller holds the handle, or the pool is empty for ever, or there is no other thread |
| PoolStaleFree.StaleFreeHandsOutTwice | TLHHPlatform/Define/pool.h:61-71 | a run of three threads with exactly one free by a thread that does not hold the handle, after which two threads hold it |
| PoolStaleFree.NobodyHoldsIsNotEnough | TLHHPlatform/Define/pool.h:61-71 | a run that begins with a free of a handle nobody holds, after which a thread holds a handle that is free |
| RegistrySpec.FullCounterRefuses | TLHHPlatform/TLHHPlatform/src/server_user_manager.cpp:19-22 | with the counter at the limit, which no reachable state has, even a known user would get nothing |
| RegistrySpec.ActivateExtendsIndex | TLHHPlatform/TLHHPlatform/src/server_user_manager.cpp:16-34 | activation never refuses: a known user gets its item, a new one an item no user has |
| RegistrySpec.RemoveShrinksIndex | TLHHPlatform/TLHHPlatform/src/server_user_manager.cpp:36-47 | removal takes the user out of the index and gives its item back, writing no item |
| RegistrySpec.IndexAgreement | TLHHPlatform/TLHHPlatform/src/server_user_manager.cpp:16-47 | in every reachable state the index is injective and its items are exactly the busy ones |
| RegistrySpec.UserKeepsItem | TLHHPlatform/TLHHPlatform/src/server_user_manager.cpp:19-33 | until it is removed, a user is answered the same item, whatever else happens |
| RegistrySpec.ReuseIsDeterministic | TLHHPlatform/TLHHPlatform/src/server_user_manager.cpp:27-45 | activating and removing a new user restores index and busy set, and the next new user gets the same item, growth or not |
| RegistrySpec.RemovalOrderIrrelevant | TLHHPlatform/TLHHPlatform/src/server_user_manager.cpp:36-47 | after removing a list of users the state depends only on which users the list names |
| RegistryRuns.PoolBehindRegistry | TLHHPlatform/TLHHPlatform/src/server_user_manager.cpp:16-47 | the registry drives its pool through a legal run whose peak is the peak number of users |
| RegistryRuns.CapacityFollowsPeak | TLHHPlatform/TLHHPlatform/src/server_user_manager.cpp:5-30 | the number of items made is MAX_USER_COUNT times the batches the peak number of users needs |
| RegistryRuns.LimitKeptIff | TLHHPlatform/TLHHPlatform/src/server_user_manager.cpp:19-22 | an activation stays within the limit exactly if the user is known or there is room |
| RegistryRuns.LimitNeverBinds | TLHHPlatform/TLHHPlatform/src/server_user_manager.cpp:19-33 | for every number there is a run that admits that many users |
| RegistryRuns.ItemsKeepWrites | TLHHPlatform/TLHHPlatform/src/server_user_manager.cpp:27-45 | an item's fields are what its holders wrote since it was made, through any number of users |
| RegistryRuns.IssuedItemState | TLHHPlatform/Define/server_user_item.h:16-26 | an item handed out is never a robot, and is active exactly if the last write to it left an id |
| RegistryRuns.RecycledItemStaysActive | TLHHPlatform/TLHHPlatform/src/server_user_manager.cpp:36-47 | if a user's item is given an id and the user removed, the next new user gets that item, active and with that id |
| RegistryRuns.WrittenByLast | TLHHPlatform/Define/server_user_item.h:16-26 | an item is active exactly if the last write to it set a non-empty id |
| Registry.ServerUserItem.constructor | TLHHPlatform/Define/server_user_item.h:8-13 | not a robot, no id |
| Registry.ServerUserItem.Reset | TLHHPlatform/Define/server_user_item.h:16-20 | back to the state of a new item, not active |
| Registry.ServerUserItem.SetClientUniqueId | TLHHPlatform/Define/server_user_item.h:26 | changes the id and nothing else; active afterwards exactly if the id is not empty |
| Registry.ServerUserManager.constructor | TLHHPlatform/TLHHPlatform/src/server_user_manager.cpp:4-10 | an empty index over a pool with one batch of new items |
| Registry.ServerUserManager.ActivityUser | TLHHPlatform/TLHHPlatform/src/server_user_manager.cpp:16-34 | one event of the atomic registry; no item is written and none is replaced |
| Registry.ServerUserManager.RemoveUser | TLHHPlatform/TLHHPlatform/src/server_user_manager.cpp:36-47 | one event of the atomic registry; answers whether the user was known; writes no item |
| BufferSpec.CommitSaturates | TLHHPlatform/Define/tlhh_buffer.h:58-61 | with the cursor inside the buffer commit does not wrap: it adds the length and stops at the size |
| BufferSpec.CommitOutside | TLHHPlatform/Define/tlhh_buffer.h:58-61 | with the cursor outside commit adds without a bound until the sum wraps, and only then comes back inside |
| BufferSpec.ClearErases | TLHHPlatform/Define/tlhh_buffer.h:49-53 | any buffer, whatever its cursor, is left with zeros only, its size, and the cursor at zero |
| BufferSpec.AppendAdds | TLHHPlatform/Define/tlhh_buffer.h:102-105 | wherever the cursor is, the old bytes stay in place and the string stands after them |
| BufferSpec.AssignReplaces | TLHHPlatform/Define/tlhh_buffer.h:107-110 | wherever the cursor is, the string replaces all bytes and the cursor stays |
| BufferSpec.AllocGrows | TLHHPlatform/Define/tlhh_buffer.h:36-48 | wherever the cursor is, old bytes and cursor stay, and zeros are added up to a length that is larger and possible |
| BufferSpec.CommitsAddUp | TLHHPlatform/Define/tlhh_buffer.h:58-61 | any list of commits leaves the cursor at the true sum of the lengths, cut at the size |
| BufferSpec.CursorStaysInside | TLHHPlatform/Define/tlhh_buffer.h:36-110 | every run of alloc, clear, commit, append and long enough assignments keeps the cursor inside |
| BufferSpec.AssignKeepsCursorIff | TLHHPlatform/Define/tlhh_buffer.h:107-110 | an assignment keeps the cursor inside exactly if the string is as long as the written part |
| BufferSpec.CursorEscapes | TLHHPlatform/Define/tlhh_buffer.h:58-110 | a shorter assignment after which a commit moves the cursor past the end |
| BufferSpec.AllocAnswerIff | TLHHPlatform/Define/tlhh_buffer.h:36-48 | alloc answers true exactly for lengths below the size, and exactly then, or for impossible lengths, does the answer match the room there is |
| BufferSpec.AllocDeniesGrowth | TLHHPlatform/Define/tlhh_buffer.h:36-48 | a request that grows a buffer with zeros and is answered with false |
| BufferSpec.AllocsKeepBytes | TLHHPlatform/Define/tlhh_buffer.h:36-48 | any list of alloc calls grows to the largest accepted request, keeps bytes and cursor, and adds zeros |
| BufferSpec.FillIsTruncatedAppend | TLHHPlatform/Define/tlhh_buffer.h:49-61 | after any buffer is cleared, chunks written through memory and commit leave the joined chunks, cut at the size, and zeros after them |
| BufferSpec.FullWhenEnough | TLHHPlatform/Define/tlhh_buffer.h:54-57 | memory is null exactly when the chunks were enough to fill the cleared buffer |
| BufferSpec.ConstructionsAgree | TLHHPlatform/Define/tlhh_buffer.h:12-30 | the string, the memory and the filled sized buffer are the same, for any chunking |
| BufferSpec.AppendsKeepFull | TLHHPlatform/Define/tlhh_buffer.h:102-105 | append and commit of a list of strings on a full buffer give their concatenation, full again |
| BufferSpec.WindowIsSlice | TLHHPlatform/Define/tlhh_buffer.h:86-97 | get calls back exactly for offsets up to the size, with the window cut at the end |
| BufferSpec.WriteReadRoundTrip | TLHHPlatform/Define/tlhh_buffer.h:54-101 | bytes written into any cleared buffer in any chunks are read back exactly once through windows of any width |
| ByteBuffer.Buffer.constructor | TLHHPlatform/Define/tlhh_buffer.h:12-16 | zeros of the given size, or nothing if no vector is that large; cursor at zero |
| ByteBuffer.Buffer.FromString | TLHHPlatform/Define/tlhh_buffer.h:17-22 | the string, cursor at its end |
| ByteBuffer.Buffer.FromMemory | TLHHPlatform/Define/tlhh_buffer.h:23-30 | the bytes, cursor at their end |
| ByteBuffer.Buffer.Alloc | TLHHPlatform/Define/tlhh_buffer.h:36-48 | resize with zeros or nothing, and the answer of the code |
| ByteBuffer.Buffer.Clear | TLHHPlatform/Define/tlhh_buffer.h:49-53 | all bytes zero, same size, cursor at zero |
| ByteBuffer.Buffer.Memory | TLHHPlatform/Define/tlhh_buffer.h:54-57 | the place of the cursor, null exactly when the buffer is full |
| ByteBuffer.Buffer.Commit | TLHHPlatform/Define/tlhh_buffer.h:58-61 | the cursor as the wrapping arithmetic gives it, and saturated when it was inside |
| ByteBuffer.Buffer.Store | TLHHPlatform/Define/tlhh_buffer.h:54-57 | what a writer puts at the cursor replaces as many bytes and no other |
| ByteBuffer.Buffer.Fill | TLHHPlatform/Define/tlhh_buffer.h:54-61 | storing what fits at memory and committing is one truncating append |
| ByteBuffer.Buffer.Get | TLHHPlatform/Define/tlhh_buffer.h:86-97 | the window from the offset on, at most count bytes and never past the end |
| ByteBuffer.Buffer.ReadAll | TLHHPlatform/Define/tlhh_buffer.h:86-101 | a loop over windows of any positive width reads the whole buffer and ends |
| ByteBuffer.Buffer.Append | TLHHPlatform/Define/tlhh_buffer.h:102-105 | the bytes and then the string, cursor untouched |
| ByteBuffer.Buffer.Assign | TLHHPlatform/Define/tlhh_buffer.h:107-110 | the string alone, cursor untouched |

## Parser and sending loop

`TLHHPlatform/Define/buffer_parseh.h`, `TLHHPlatform/Define/command.h`,
`TLHHPlatform/Define/const_define.h`, `TLHHPlatform/TLHHPlatform/src/tcp_socket.cpp` and
`TLHHPlatform/TLHHPlatform/src/server_work_engine.cpp` have comments in a legacy encoding and are not UTF-8 text, so the members that model them are listed
here, in the same form, instead of in the table above. The layout of the head is that of
`command_head` (`command.h:11-27`), the sizes 16384 and 300 are those of `const_define.h:3-5`,
and the 1024-byte chunks are those of `tcp_server.cpp:179-181`.

| member | source | states |
|---|---|---|
| SocketWrite.WireFollowsCursor | TLHHPlatform/TLHHPlatform/src/tcp_socket.cpp:141-195 | after any completions the wire holds the first piece and what follows the place the cursor then stood |
| SocketWrite.ReportOfRun | TLHHPlatform/TLHHPlatform/src/tcp_socket.cpp:173-195 | after any completions the sending goes on exactly if the last took something without an error and the end is not reached; else the report is its error, with the cursor or, if nothing was taken, zero |
| SocketWrite.DeliveredIff | TLHHPlatform/TLHHPlatform/src/tcp_socket.cpp:173-195 | a report of success is true exactly if the cursor began at zero or the first operation took the whole buffer |
| SocketWrite.TruthfulIff | TLHHPlatform/TLHHPlatform/src/tcp_socket.cpp:141-195 | whatever the socket takes, a report of success will be true exactly if the cursor is at zero or the buffer has one byte |
| SocketWrite.BuiltBuffersEndAtOnce | TLHHPlatform/TLHHPlatform/src/tcp_socket.cpp:121-181 | for buffers built from data any first piece ends the sending with a report of the full size |
| FramingSpec.PacketLayout | TLHHPlatform/Define/buffer_parseh.h:78-88 | the packet byte by byte: 24 bytes of head, the size of the whole packet at 8, the ids at 16 and 18, then the data |
| FramingSpec.HeadInBytes | TLHHPlatform/Define/buffer_parseh.h:36-51 | for all bytes, the numbers and the data the parser reads are the little-endian ones at these places |
| FramingSpec.TestsInNumbers | TLHHPlatform/Define/buffer_parseh.h:34-42 | for all bytes, the tests of the loop in terms of the number at 8, with the limits 24 and 16384 |
| FramingSpec.PacketFields | TLHHPlatform/Define/buffer_parseh.h:36-88 | a packed message carries its own length and unpacks to itself, whatever the padding |
| FramingSpec.DrainConserves | TLHHPlatform/Define/buffer_parseh.h:34-61 | for all bytes, the packets taken and the bytes kept make up the input, and no whole packet is kept |
| FramingSpec.RestLeavesRoom | TLHHPlatform/Define/buffer_parseh.h:29-42 | after a call that did not throw, one more byte always fits |
| FramingSpec.FeedConserves | TLHHPlatform/Define/buffer_parseh.h:24-62 | every call, thrown or not, hands out or keeps all the bytes of a chunk that fits, and changes nothing for one that does not |
| FramingSpec.DrainInParts | TLHHPlatform/Define/buffer_parseh.h:31-61 | for all bytes, bad heads included, parsing in two parts equals parsing at once |
| FramingSpec.ChunkingIrrelevant | TLHHPlatform/Define/buffer_parseh.h:24-62 | as long as every chunk fits, the chunks handed in do not matter, only their concatenation, also when calls throw for bad heads |
| FramingRuns.RoundTrip | TLHHPlatform/Define/buffer_parseh.h:24-91 | every packed message arrives in order and exactly once through any accepted chunking, nothing stays behind |
| FramingRuns.RestIsShort | TLHHPlatform/Define/buffer_parseh.h:41-42 | within a stream of packets no head looks bad and less than a longest packet is kept |
| FramingRuns.SafeChunks | TLHHPlatform/Define/buffer_parseh.h:29-42 | no call throws if a chunk always fits beside an unfinished packet |
| FramingRuns.ChunkSizesSafeIff | TLHHPlatform/Define/buffer_parseh.h:29-42 | all streams of packets up to m in chunks up to c are accepted exactly if m + c is at most 16385 |
| FramingRuns.OverflowLeavesNoTrace | TLHHPlatform/Define/buffer_parseh.h:29 | a chunk is refused exactly if it does not fit, and all later calls go on as if it had never been handed in |
| FramingRuns.MessagesBeforeBadHead | TLHHPlatform/Define/buffer_parseh.h:34-53 | a call that throws for a bad head has handed out every message in front of it and keeps the bytes from the bad head on |
| FramingRuns.RoundTripToBadHead | TLHHPlatform/Define/buffer_parseh.h:24-91 | the messages in front of a bad head all arrive, in order and once, in whatever chunks, and nothing behind them does |
| FramingRuns.BadPacketIsForever | TLHHPlatform/Define/buffer_parseh.h:34-42 | after a bad head every later call throws and hands out nothing |
| FramingRuns.BadPacketLeavesBadHead | TLHHPlatform/Define/buffer_parseh.h:39-40 | that is the state the exception for a bad size leaves |
| SharedParser.NamedByEnder | TLHHPlatform/TLHHPlatform/src/server_work_engine.cpp:107-155 | after any arrivals, thrown or not, the packets a chunk ends are handed on for the client whose chunk it was |
| SharedParser.AsIfSeparate | TLHHPlatform/TLHHPlatform/src/server_work_engine.cpp:107-155 | if the sender changes only when nothing is kept, each client's packets and kept bytes are those of a parser of its own |
| SharedParser.ClientsArrive | TLHHPlatform/TLHHPlatform/src/server_work_engine.cpp:107-155 | then the messages of every client arrive complete, in order and in its name |
| SharedParser.RightNamesIff | TLHHPlatform/TLHHPlatform/src/server_work_engine.cpp:107-155 | once all is handed on, every packet consists of bytes of the client it is handed on for exactly if the sender changed only when nothing was kept |
| SharedParser.OtherEndsPacket | TLHHPlatform/TLHHPlatform/src/server_work_engine.cpp:107-155 | for all packets, the begun packet of one client and enough bytes of another make one packet in the other's name |
| Framing.BufferParse.constructor | TLHHPlatform/Define/buffer_parseh.h:10-22 | an empty receive buffer |
| Framing.BufferParse.Shift | TLHHPlatform/Define/buffer_parseh.h:55-59 | the kept bytes without the packet in front, moved in place |
| Framing.BufferParse.BufferCommitUnpack | TLHHPlatform/Define/buffer_parseh.h:24-62 | the messages called back, the bytes kept and the exception are those of the parser function on kept bytes and chunk |
| Framing.BufferParse.BufferPack | TLHHPlatform/Define/buffer_parseh.h:63-91 | refused exactly if head and data exceed 16384 bytes, else the packet of the message |

## Left out

- Pool.ObjectPool.Get: `get(op)` has no method of its own; its callback after the call is a step of the thread model, `PoolThreads.GetOp`.
- Callbacks that call back into the pool, and `free` with a reference into the busy set itself.
- The destructors, and exceptions of the factory, of callbacks and of memory allocation.
- Several threads on one buffer: `commit` reads the atomic cursor more than once, so the buffer is modelled for one writer.
- Callers that change the vector through `raw()`, except the sending loop.
- The reading loop of `tcp_socket.cpp`, which fills a cleared buffer through `memory()` and `commit()` as `Buffer.Fill` does.
- The rest of the server and client engines above the parser: what they do with a message, with a connection that is closed after an exception, and with heartbeats.
- Pool.ObjectPool.constructor: batch sizes beyond the `int` loop counter, for which the loop is undefined.
- Accepting, timers, strands, the database client, logging and the demo programs: input and output of other libraries.
