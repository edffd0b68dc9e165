# Models of skynet's core, with proofs

skynet is an actor runtime in C. This project models the parts of it whose correctness is hardest to
see, and of the LPeg library that it carries, and proves what they promise for all inputs and all
runs.

| modules | what they model |
|---|---|
| `PegSemantics`, `PegAnalysis`, `PegMachine`, `PegCodegen`, `PegSimulation`, `PegJumps`, `PegPeephole`, `PegCompiler`, `PegTree`, `PegCharset`, `PegExact` | the PEG compiler of LPeg and its backtracking machine |
| `TimerSpec`, `TimerPlace`, `TimerWheel` | the hierarchical timing wheel |
| `MessageQueue`, `Scheduler`, `SchedulerProperties`, `SchedulerTrace`, `SchedulerProgress` | message queues, worker threads and the life of services |
| `HandleTable`, `HandleNames`, `HandleStorage` | handles and their names |
| `RwLock`, `Stm`, `StmHistory` | the spinning reader/writer lock, and shared copies counted under it |
| `SocketSend`, `Framing`, `Netpack` | the write queues of a TCP socket, and packets cut out of its input |
| `SeriFormat`, `SeriRoundTrip`, `SeriBlocks` | serialisation of Lua values |
| `Bson`, `BsonIndex`, `BsonPack` | BSON documents and their update in place |
| `ShareData`, `ShareTable` | shared read-only hash tables |
| `DhExchange`, `Des`, `DesStandard`, `Sha1Block`, `Sha1` | key exchange, DES, SHA-1 and HMAC |
| `Layouts` | bytes of packets, serialised values, padded messages and documents, as numbers |
| `Common`, `Words`, `LittleEndian` | types and numbers that several of them use |

Code that changes memory step by step is modelled by classes and methods with loops, each proved
against a specification function; protocols between threads are transition systems in which every
lock-protected section, or every single atomic instruction where there is no lock, is one step.
System calls, allocation, clocks and the Lua stack are parameters: a write gives any list of results,
time comes in ticks, a Lua table is a list of entries in any order.

Some promises hold only under a condition that the code does not check. There the code is kept as it
is, and the condition is proved exact:

- a packet that netpack returns at once can overtake packets in its ring (`Netpack.Overtaking`,
  `Netpack.DirectKeepsOrderIff`); with a consumer that empties the ring before it handles anything
  else, as the gate server's does while its handler does not block, order is kept
  (`Netpack.ReplayDrained`);
- a shared copy that was made by an earlier call can replace a later one, exactly if the stores do not
  come in the order of the calls (`StmHistory.NeverBackIff`, `StmHistory.OverlapGoesBack`), and never
  with the one writer that a stm object has (`StmHistory.OneWriterNoOverlap`);
- the assignment to `ctx->init` after a launch can come after the context was deleted
  (`SchedulerProperties.InitMayComeLate`, `SchedulerProperties.InitInTimeIff`);
- the bit count of SHA-1 is wrong after a piece of 2^29 bytes or more, unless the low word overflows
  (`Sha1.Context.Update`);
- `powmodp(P, 1)` is P and not 0 (`DhExchange.PowerModP`);
- the index of a BSON document leads to a field exactly when the field starts below offset 2^26
  (`BsonIndex.EntryIsField`), a field hidden by a later one with the same key is updated without
  effect on the decoded table (`BsonIndex.TableChanges`), and a key with a zero byte does not come
  back (`BsonPack.KeyBackIff`);
- the loop of ldesdecode over the padding leaves its buffer for a single block that decodes to
  zeros, and only then (`Des.FindPadding`);
- handle 0, which skynet_handle_init calls reserved, is given out when the numbering goes round
  (`HandleStorage.NumberingGoesRound`), exactly when the scan gets there (`HandleTable.ZeroIff`,
  stated on `HandleStorage.Storage.Register`).

## Model

| member | source | states |
|---|---|---|
| `PegAnalysis.FixedLenSound` | 3rd/lpeg/lpcode.c:213-246 | a pattern of fixed length n consumes exactly n characters whenever it matches, on every subject and position |
| `PegAnalysis.NullableSound` | 3rd/lpeg/lpcode.c:172-206 | a pattern that matches without consuming anything is nullable |
| `PegAnalysis.NoFailSound` | 3rd/lpeg/lpcode.c:172-206 | a pattern marked nofail never fails |
| `PegAnalysis.FirstSound` | 3rd/lpeg/lpcode.c:267-343 | a match whose continuation starts in the follow set starts with a character of the first set, or the set is marked as accepting the end |
| `PegAnalysis.FirstSoundFull` | 3rd/lpeg/lpcode.c:267-343 | the same without a condition on what follows, when the follow set is full |
| `PegAnalysis.NoFailFirstFull` | 3rd/lpeg/lpcode.c:267-343 | a pattern that cannot fail has a full first set |
| `PegAnalysis.HeadFailSound` | 3rd/lpeg/lpcode.c:350-372 | for a head-fail pattern getfirst returns 0 and the next character being in the first set decides success, both ways |
| `PegExact.EmptySubjectDecides` | 3rd/lpeg/lpcode.c:155-206 | for a pattern without predicates and look-behind, nullable and nofail are the same, and true exactly when it matches the empty subject |
| `PegExact.NeverFailsIff` | 3rd/lpeg/lpcode.c:155-206 | so such a pattern is nofail exactly when it fails on no subject at no position |
| `PegExact.StarRefusedIff` | 3rd/lpeg/lptree.c:570-585 | lp_star refuses the repetition of such a pattern exactly when its body matches the empty subject |
| `PegExact.FixedLenIff` | 3rd/lpeg/lpcode.c:213-246 | fixedlenx answers n exactly when all parts have fixed lengths that add up to n, with the same length on both sides of each choice |
| `PegExact.MatchIsWord` | 3rd/lpeg/lpcode.c:267-343 | what such a pattern matches is a word of it, read as a regular expression |
| `PegExact.FirstExact` | 3rd/lpeg/lpcode.c:267-343 | its first set has exactly the characters that its words start with, and those that may follow when the empty word is one; getfirst says that it accepts the empty string exactly then |
| `PegExact.HeadFailIff` | 3rd/lpeg/lpcode.c:350-372 | a character, set, any, or a sequence that begins with one is head-fail exactly when every character of its first set alone is a match |
| `PegCharset.CharsetType` | 3rd/lpeg/lpcode.c:41-82 | the byte-wise classification of the bitmap is that of the set: empty, one character (and which), full, or none of these |
| `PegCharset.CsDisjoint` | 3rd/lpeg/lpcode.c:97-100 | the byte-wise test answers whether the two sets have no character in common |
| `PegSimulation.TestChoiceSim` | 3rd/lpeg/lpcode.c:650-685 | a choice decided by one test reaches the end with the result of the choice, relative to what may follow |
| `PegSimulation.ReuseChoiceSim` | 3rd/lpeg/lpcode.c:650-685 | an optional pattern that reuses the choice of the enclosing loop does what the choice means |
| `PegSimulation.StackChoiceSim` | 3rd/lpeg/lpcode.c:650-685 | a choice with a pushed alternative, with or without a test before it, does what the choice means |
| `PegSimulation.SpanSim` | 3rd/lpeg/lpcode.c:749-785 | a repetition of a character set is the span instruction |
| `PegSimulation.TestRepSim` | 3rd/lpeg/lpcode.c:749-785 | a repetition left by one test does what the repetition means |
| `PegSimulation.StackRepSim` | 3rd/lpeg/lpcode.c:749-785 | a repetition with a pushed exit does what the repetition means |
| `PegSimulation.NotSim` | 3rd/lpeg/lpcode.c:795-809 | a not-predicate succeeds without consuming exactly when its pattern fails |
| `PegSimulation.AndSim` | 3rd/lpeg/lpcode.c:693-709 | an and-predicate, with its code for a fixed length or with a pushed exit, succeeds without consuming exactly when its pattern matches |
| `PegSimulation.BehindSim` | 3rd/lpeg/lpcode.c:632-636 | a look-behind steps back by the fixed length and matches there, or fails |
| `PegSimulation.SeqSim` | 3rd/lpeg/lpcode.c:871-883 | a sequence runs its parts in order, the first one with the follow set of the second |
| `PegSimulation.Simulation` | 3rd/lpeg/lpcode.c:891-916 | the code of any pattern at any place, for any subject, stack, guarding test and follow set, ends at its end with the position the pattern gives, or fails; a success whose next character is outside the follow set may fail instead |
| `PegSimulation.CodeIsCorrect` | 3rd/lpeg/lpcode.c:969-982 | the whole generated code stops with exactly the result of the pattern |
| `PegJumps.GeneratedJumpsEnd` | 3rd/lpeg/lpcode.c:614-626 | in generated code every chain of jumps ends |
| `PegPeephole.RefinedRun` | 3rd/lpeg/lpcode.c:928-967 | redirected jumps, and jumps replaced by what they lead to, make the machine do the same, from any related states and stacks |
| `PegPeephole.RefinedResult` | 3rd/lpeg/lpcode.c:928-967 | code with such changes stops with the same result |
| `PegPeephole.RefinedJumpsEnd` | 3rd/lpeg/lpcode.c:928-967 | and its chains of jumps still end where they did |
| `PegCompiler.CompileState.AddInstruction` | 3rd/lpeg/lpcode.c:467-483 | appends the instruction and its room for an offset |
| `PegCompiler.CompileState.JumpToThere` | 3rd/lpeg/lpcode.c:516-519 | patches the offset of one instruction and nothing else |
| `PegCompiler.CompileState.CodeTestSet` | 3rd/lpeg/lpcode.c:587-608 | emits the cheapest test that decides membership in the first set, or none when the set accepts the end |
| `PegCompiler.CompileState.Codegen` | 3rd/lpeg/lpcode.c:891-916 | appends exactly the specified code of the pattern; what was there stays |
| `PegCompiler.CompileState.CodeChoice` | 3rd/lpeg/lpcode.c:650-685 | chooses the layout of a choice and patches its jumps to the places specified |
| `PegCompiler.CompileState.CodeRep` | 3rd/lpeg/lpcode.c:749-785 | chooses the layout of a repetition and patches its jumps |
| `PegCompiler.CompileState.CodeNot` | 3rd/lpeg/lpcode.c:795-809 | the same for a not-predicate |
| `PegCompiler.CompileState.CodeAnd` | 3rd/lpeg/lpcode.c:693-709 | the same for an and-predicate |
| `PegCompiler.CompileState.CodeBehind` | 3rd/lpeg/lpcode.c:632-636 | the same for a look-behind |
| `PegCompiler.CompileState.FinalTarget` | 3rd/lpeg/lpcode.c:614-618 | follows a chain of jumps to its end |
| `PegCompiler.CompileState.Peephole` | 3rd/lpeg/lpcode.c:928-967 | the optimised code gives the same results, and no label leads to a jump any more |
| `PegCompiler.GenBlocks` | 3rd/lpeg/lpcode.c:411-430 | generated code is a row of whole instructions, as the walk of peephole needs it |
| `PegCompiler.Compile` | 3rd/lpeg/lpcode.c:969-982 | for every well-formed pattern the machine code returned matches as the pattern does, on every subject and from every position, and fails iff the pattern fails |
| `PegCompiler.RunMatch` | 3rd/lpeg/lpvm.c:147-288 | the interpreter loop stops with the result that the instruction semantics determine |
| `PegCompiler.CompileAndMatch` | 3rd/lpeg/lpvm.c:147-288 | compiling and running gives exactly the position of the pattern |
| `PegTree.CorrectAssociativity` | 3rd/lpeg/lptree.c:78-90 | the rotation of the encoded tree in place leaves the encoding of the rotated pattern in the same extent; nodes outside do not change |
| `PegTree.FinalFixInPlace` | 3rd/lpeg/lptree.c:100-126 | the fix of a whole tree in place leaves the encoding of the fixed pattern in the same extent |
| `PegTree.FinalFixAlike` | 3rd/lpeg/lptree.c:100-126 | the fixed pattern matches the same everywhere and has the same analyses |
| `PegTree.FinalFixRightAssociative` | 3rd/lpeg/lptree.c:78-90 | no sequence or choice in it has one of its own kind on the left |
| `PegTree.EncodeUnique` | 3rd/lpeg/lptree.c:78-126 | an array of nodes is the tree of one pattern only |
| `PegTree.PrepCompile` | 3rd/lpeg/lptree.c:1095-1100 | fixing the tree and compiling gives code that matches as the original pattern does; the pattern compiled is the only one the array then holds |
| `TimerPlace.MaskIsPrefix` | skynet-src/skynet_timer.c:71-90 | two times are equal with a mask of low bits or-ed in exactly when they fall into the same slot of a level |
| `TimerWheel.FindLevel` | skynet-src/skynet_timer.c:78-87 | the search by masks ends at the level of the place |
| `TimerPlace.PlaceWraps` | skynet-src/skynet_timer.c:71-90 | the place of a timer computed with wrapping times is that computed with true times, for timers up to 2^31 - 1 ticks ahead |
| `TimerPlace.CurrentSlot` | skynet-src/skynet_timer.c:156-167 | a pending timer is in the slot of the current tick exactly when it is due |
| `TimerPlace.InMovedList` | skynet-src/skynet_timer.c:115-136 | a pending timer whose place changes at a tick was in the one list that is moved |
| `TimerPlace.UnmovedStays` | skynet-src/skynet_timer.c:115-136 | a pending timer in any other list keeps its place |
| `TimerPlace.MovedGoesDown` | skynet-src/skynet_timer.c:115-136 | a timer in the moved list goes to a lower level |
| `TimerPlace.ShiftIsExact` | skynet-src/skynet_timer.c:115-136 | a timer is in the moved list iff its place changes |
| `TimerWheel.ShiftSelect` | skynet-src/skynet_timer.c:115-136 | moving that list gives every list the timers of its place at the new time, in the order they were added |
| `TimerWheel.Wheel.AddNode` | skynet-src/skynet_timer.c:71-90 | the node goes to the end of the list of its place |
| `TimerWheel.Wheel.TimerAdd` | skynet-src/skynet_timer.c:92-103 | adding keeps the wheel in step with the bag of pending timers |
| `TimerWheel.Wheel.MoveList` | skynet-src/skynet_timer.c:105-113 | empties one list and puts its nodes where they belong now |
| `TimerWheel.Wheel.MoveShifted` | skynet-src/skynet_timer.c:115-136 | finds and moves exactly the list that the new time calls for |
| `TimerWheel.Wheel.TimerShift` | skynet-src/skynet_timer.c:115-136 | one tick of the wheel is one tick of the clock of the bag, also where the clock wraps |
| `TimerWheel.Wheel.DispatchList` | skynet-src/skynet_timer.c:138-154 | dispatches the events of a list in order |
| `TimerWheel.Wheel.TimerExecute` | skynet-src/skynet_timer.c:156-167 | dispatches what is due now and nothing else, with additions while the lock is open |
| `TimerWheel.Wheel.TimerUpdate` | skynet-src/skynet_timer.c:169-182 | one update is one tick of the reference, with the same dispatches |
| `TimerWheel.Wheel.Timeout` | skynet-src/skynet_timer.c:209-228 | a timeout of 0 or less is answered at once, any other becomes a timer |
| `TimerWheel.Replay` | skynet-src/skynet_timer.c:71-228 | every run of additions and updates leaves the wheel in step with the reference bag, with the same dispatches in the same order |
| `TimerSpec.RunDispatchesExactly` | skynet-src/skynet_timer.c:71-182 | in every run the dispatches at a tick are exactly the timers added for it, each once, in the order they were added |
| `TimerSpec.RunPending` | skynet-src/skynet_timer.c:71-182 | in every run the pending timers are exactly those added for later ticks |
| `MessageQueue.Mq.constructor` | skynet-src/skynet_mq.c:77-96 | a new queue is empty, counted as being in the global list, and not released |
| `MessageQueue.Mq.Length` | skynet-src/skynet_mq.c:111-125 | the number of messages, across the wrap of the ring |
| `MessageQueue.Mq.ExpandQueue` | skynet-src/skynet_mq.c:174-187 | doubling keeps the messages and their order |
| `MessageQueue.Mq.PushMessage` | skynet-src/skynet_mq.c:189-209 | appends the message; says whether the queue must be put into the global list |
| `MessageQueue.Mq.PopMessage` | skynet-src/skynet_mq.c:137-172 | takes the oldest message; an empty queue leaves the global list; the watermark is doubled just past the length |
| `MessageQueue.Mq.Mark` | skynet-src/skynet_mq.c:219-228 | marks the queue for release and says whether it must be put into the global list |
| `MessageQueue.Raised` | skynet-src/skynet_mq.c:155-160 | the watermark after doubling is the first one that reaches the length |
| `Scheduler.StepKeepsInv` | skynet-src/skynet_server.c:119-330 | every step of every launcher, sender, worker and retirer keeps the invariant: references and owners are counted right, and a queue without an owner is empty |
| `SchedulerProperties.RunsKeepInv` | skynet-src/skynet_server.c:119-330 | it holds in every state of every run, for any number of agents and services |
| `SchedulerProperties.OneOwner` | skynet-src/skynet_mq.c:43-96 | a queue has at most one owner, and an owned queue is not in the global list |
| `SchedulerProperties.MutualExclusion` | skynet-src/skynet_server.c:275-330 | two workers never dispatch the same service at once |
| `SchedulerProperties.TokenExactly` | skynet-src/skynet_mq.c:137-250 | a live queue is in the global list or owned exactly when in_global or release is set; otherwise it is empty |
| `SchedulerProperties.MessagesInOrder` | skynet-src/skynet_mq.c:137-250 | what was pushed is what was dispatched, then dropped, then is still queued, in this order |
| `SchedulerProperties.NothingFreedInUse` | skynet-src/skynet_mq.c:98-104 | nobody who is about to use a queue holds a freed one |
| `SchedulerProperties.ReferencesExact` | skynet-src/skynet_server.c:185-217 | the reference count is the number of holders and the handle table; the context is deleted at 0 |
| `SchedulerProperties.FreedFrozen` | skynet-src/skynet_mq.c:98-104 | a step leaves a freed queue and its history alone |
| `SchedulerProperties.FreedForGood` | skynet-src/skynet_mq.c:98-104 | a freed queue stays freed; its history does not change any more |
| `SchedulerProperties.AssertionsHold` | skynet-src/skynet_mq.c:43-96 | the assertions about the flags and the global list hold in every run |
| `SchedulerProperties.InitMayComeLate` | skynet-src/skynet_server.c:152-156 | a run in which ctx->init is to be set after the context is deleted |
| `SchedulerProperties.InitInTimeIff` | skynet-src/skynet_server.c:152-156 | the assignment comes in time exactly when a reference is left |
| `SchedulerTrace.SendIffGrabbed` | skynet-src/skynet_server.c:219-231 | an agent is about to push a message exactly if its last move was to grab the receiver for it |
| `SchedulerTrace.PushedIsSent` | skynet-src/skynet_server.c:219-231 | in every run the messages pushed to a service are exactly those that the moves have sent to it, in their order |
| `SchedulerTrace.GivenInOrder` | skynet-src/skynet_server.c:275-330 | in every run the workers of a service get the messages sent to it from the first one on, none twice and none out of order |
| `SchedulerTrace.PopGivesOldest` | skynet-src/skynet_server.c:275-330 | a worker that asks for a message gets the oldest one sent and not given out yet, and lets the service go exactly when there is none |
| `SchedulerTrace.SentHasOwner` | skynet-src/skynet_mq.c:137-209 | as long as a message sent was not given out, the queue is in the global list or owned, or the service is deleted |
| `SchedulerTrace.RegisteredIsInTable` | skynet-src/skynet_server.c:119-171 | a service can be found by its handle exactly from its launch to the first retirement, by its handle or at the end of a failed launch |
| `SchedulerTrace.GlobalIsFifo` | skynet-src/skynet_mq.c:43-75 | queues are taken from the global list in the order in which they stand there, in every run |
| `SchedulerTrace.TurnGoesRound` | skynet-src/skynet_server.c:315-330 | a worker whose turn is over takes the first queue of the list and puts its own behind all others; it keeps its own exactly when the list is empty |
| `SchedulerProgress.CanDispatch` | skynet-src/skynet_server.c:119-330 | from every state of every run, a waiting message of a service that can be found and whose launch has not failed can be brought to a worker, the oldest one first |
| `SchedulerProgress.CanFree` | skynet-src/skynet_mq.c:230-250 | from every state of every run, the queue of a deleted service can be brought to be freed |
| `SocketSend.WholeWritten` | skynet-src/socket_server.c:475-505 | writing the rest of the first buffer keeps the wire made of whole messages and a prefix of one |
| `SocketSend.PartWritten` | skynet-src/socket_server.c:475-505 | and so does writing a part of it |
| `SocketSend.AppendHighKeepsOrder` | skynet-src/socket_server.c:668-672 | a message appended to the high list keeps the order within each priority |
| `SocketSend.AppendLowKeepsOrder` | skynet-src/socket_server.c:674-678 | and so does one appended to the low list |
| `SocketSend.Socket.SendList` | skynet-src/socket_server.c:475-505 | writes from the front of a list until it is empty, the kernel blocks or the socket breaks; the stream of bytes does not change |
| `SocketSend.Socket.RaiseUncomplete` | skynet-src/socket_server.c:584-599 | a partly sent low head goes to the high list; the stream of bytes does not change |
| `SocketSend.Socket.SendBuffer` | skynet-src/socket_server.c:610-638 | high before low, a partly sent low head raised, and the socket closed at the end of a half close |
| `SocketSend.Socket.Send` | skynet-src/socket_server.c:692-761 | a message goes behind everything, or with high priority before the low list; a broken direct write takes nothing |
| `SocketSend.Socket.SendDirect` | skynet-src/socket_server.c:692-761 | what a direct write does not take becomes the head of the high list |
| `SocketSend.Socket.AppendHigh` | skynet-src/socket_server.c:668-672 | the message is appended to the high list and counted |
| `SocketSend.Socket.AppendLow` | skynet-src/socket_server.c:674-678 | the message is appended to the low list and counted |
| `SocketSend.Socket.Close` | skynet-src/socket_server.c:785-809 | closes at once when nothing waits or on shutdown, else after the lists are written |
| `SocketSend.Socket.ForceClose` | skynet-src/socket_server.c:332-352 | frees both lists; what is on the wire stays |
| `SocketSend.AllTaken` | skynet-src/socket_server.c:692-761 | when nobody closes the socket and no write fails, every message sent is taken |
| `SocketSend.FlushConserves` | skynet-src/socket_server.c:610-638 | send_buffer moves bytes from the lists to the wire, in order, and drops none |
| `SocketSend.CloseKeepsWaiting` | skynet-src/socket_server.c:785-809 | a close without shutdown, with no failing write, loses nothing: all is on the wire and the socket closed, or what is left stays queued, in order, in a half-closed socket |
| `SocketSend.GentleLosesNothing` | skynet-src/socket_server.c:575-809 | in every run without shutdown, failed connect and failed write, nothing that was taken is freed unsent |
| `SocketSend.FlushWritesAll` | skynet-src/socket_server.c:475-638 | when the kernel takes all it is given, one flush writes everything, the high list first |
| `SocketSend.SendWritesDirectly` | skynet-src/socket_server.c:692-761 | a message sent with nothing queued goes to the wire as far as the kernel takes it; the rest waits |
| `SocketSend.Deliverable` | skynet-src/socket_server.c:575-809 | after every run that has not closed the socket, connecting and one flush that the kernel takes put all that waits on the wire |
| `SocketSend.Replay` | skynet-src/socket_server.c:575-809 | every run of sends, events and closes leads to the state that the run determines, with exactly the messages of the run taken; the wire holds whole messages of these back to back and a prefix of the next, with those that wait they are all of them in order within each priority, the low head is never partly sent, and wb_size is what is still to be written; in a run without shutdown and failures a closed socket has all messages taken on the wire |
| `RwLock.StepKeepsInv` | skynet-src/rwlock.h:17-48 | every single instruction of every thread keeps the counts: read is the number of readers that counted themselves, write the number of writers |
| `RwLock.StepRefines` | skynet-src/rwlock.h:17-48 | every instruction is a step of an atomic reader/writer lock |
| `RwLock.Exclusion` | skynet-src/rwlock.h:17-48 | in every run a writer inside is alone |
| `RwLock.DrainOnlyShrinks` | skynet-src/rwlock.h:32-38 | while a writer waits for readers to leave, none enters |
| `RwLock.NoDeadlock` | skynet-src/rwlock.h:17-48 | when threads wait and none is inside, steps of waiting threads alone get one inside |
| `Stm.StepKeepsInv` | lualib-src/lua-stm.c:25-113 | every step keeps the counts of the copies equal to their holders |
| `Stm.AllocatedWhileHeld` | lualib-src/lua-stm.c:25-53 | in every run a copy is allocated exactly while somebody holds it, and its count is how many do |
| `Stm.FreedOnce` | lualib-src/lua-stm.c:46-53 | every copy ever made is allocated or was freed exactly once |
| `Stm.NoUseAfterFree` | lualib-src/lua-stm.c:91-113 | nobody follows a pointer to a freed copy, even when its address is in use again; the assertion in stm_copy holds |
| `Stm.ReadComparesCopies` | lualib-src/lua-stm.c:203-233 | lread answers "not updated" exactly when the newest copy is the one it returned before |
| `Stm.ReaderSeesNewest` | lualib-src/lua-stm.c:91-102 | the copy a reader takes is the published one until its count is raised |
| `StmHistory.PublishedIsLast` | lualib-src/lua-stm.c:25-113 | in every run the object holds exactly the copy of the last update that has passed its store, unless a delete came after it, and the first copy if there was none; copies are known by the calls that made them |
| `StmHistory.UpdatePublishes` | lualib-src/lua-stm.c:104-113 | every update that has returned was published during its call |
| `StmHistory.DeletePublishes` | lualib-src/lua-stm.c:55-70 | every delete that has returned took the copy away during its call |
| `StmHistory.ReadReturns` | lualib-src/lua-stm.c:91-102 | a read that has returned has the copy that was published at some moment of its call, or none if none was |
| `StmHistory.ReadAnswers` | lualib-src/lua-stm.c:203-233 | lread answers that there is nothing new exactly if what it took is the copy it returned the last time |
| `StmHistory.NeverBackIff` | lualib-src/lua-stm.c:104-113 | the published copies never go back to one made by an earlier call exactly if the stores come in the order of the calls |
| `StmHistory.NoOverlapInOrder` | lualib-src/lua-stm.c:104-113 | they do when no update is called while another is pending |
| `StmHistory.OneWriterNoOverlap` | lualib-src/lua-stm.c:129-179 | and so they do when one thread does all the updates |
| `StmHistory.ReadAfterUpdate` | lualib-src/lua-stm.c:91-113 | then a read called after an update has returned gets a copy at least as new, or none after a delete |
| `StmHistory.OverlapGoesBack` | lualib-src/lua-stm.c:104-113 | whenever two updates wait for a free lock, the run can go on so that the object goes back to the older copy |
| `StmHistory.GoesBack` | lualib-src/lua-stm.c:104-113 | such a run from the start |
| `Framing.StreamThenRest` | lualib-src/lua-netpack.c:430-452 | packed messages read back as these messages, whatever follows |
| `Framing.ParseThenStream` | lualib-src/lua-netpack.c:180-213 | what is read, packed again, is what was there; what is left over is no whole packet |
| `Framing.ParseInParts` | lualib-src/lua-netpack.c:225-305 | reading may stop anywhere and go on with what was left over |
| `Layouts.PacketLayout` | lualib-src/lua-netpack.c:430-452 | a packet is the length in two bytes, high one first, and the message; messages of 2^16 bytes or more are refused |
| `Layouts.FirstPacket` | lualib-src/lua-netpack.c:180-213 | the first packet is as long as its first two bytes say, high one first; there is none exactly when bytes are missing |
| `Netpack.Reassembler.ExpandQueue` | lualib-src/lua-netpack.c:131-146 | growing keeps the packets and their order |
| `Netpack.Reassembler.PushData` | lualib-src/lua-netpack.c:148-165 | appends the packet |
| `Netpack.Reassembler.Pop` | lualib-src/lua-netpack.c:396-410 | takes the oldest packet |
| `Netpack.Reassembler.FindUncomplete` | lualib-src/lua-netpack.c:82-112 | finds the record of a connection through its hash chain and takes it out; other records stay |
| `Netpack.Reassembler.SaveUncomplete` | lualib-src/lua-netpack.c:167-178 | the record is found again; other records stay |
| `Netpack.Reassembler.PushMore` | lualib-src/lua-netpack.c:186-213 | all whole packets go to the ring in order, the rest into one record |
| `Netpack.Reassembler.Filter` | lualib-src/lua-netpack.c:225-305 | the packets of a chunk are those of the held bytes and the chunk: one alone is returned, more go to the ring; the rest is held |
| `Netpack.Reassembler.CloseUncomplete` | lualib-src/lua-netpack.c:215-223 | forgets the bytes of this connection only |
| `Netpack.ChunksDoNotMatter` | lualib-src/lua-netpack.c:225-305 | for every cutting and interleaving the packets produced for a connection are those of its bytes read as a whole |
| `Netpack.PackedMessagesArrive` | lualib-src/lua-netpack.c:430-452 | a connection that delivers packed messages, cut in any way, gives exactly these messages |
| `Netpack.FlowConserves` | lualib-src/lua-netpack.c:225-410 | in every run each packet produced is delivered once or still in the ring |
| `Netpack.Replay` | lualib-src/lua-netpack.c:225-410 | every run delivers and keeps in the ring exactly the packets, in the order, that the run determines, and every held byte is right |
| `Netpack.ReplayDrained` | lualib-src/lua-netpack.c:225-410 | with a consumer that empties the ring when told to, packets come out in the order produced |
| `Netpack.StepKeepsOrderIff` | lualib-src/lua-netpack.c:225-305 | an event keeps the order of a connection iff it does not return a packet at once while a different one of the connection is in the ring |
| `Netpack.DirectKeepsOrderIff` | lualib-src/lua-netpack.c:225-305 | the order of a connection is kept all through a run iff every packet of it returned at once finds none but its like in the ring |
| `Netpack.Overtaking` | lualib-src/lua-netpack.c:225-305 | a run in which a packet returned at once overtakes two in the ring |
| `SeriRoundTrip.IntegerRoundTrip` | lualib-src/lua-seri.c:140-172 | every 64-bit integer reads back, in each of its width classes |
| `SeriRoundTrip.StringRoundTrip` | lualib-src/lua-seri.c:188-211 | every string reads back, in each of its three length classes |
| `SeriRoundTrip.SizeRoundTrip` | lualib-src/lua-seri.c:215-235 | the size of an array part reads back, through the escape at 31 |
| `SeriRoundTrip.RoundTrip` | lualib-src/lua-seri.c:432-530 | unpacking reads exactly the bytes of a packed value, whatever follows, and rebuilds the value |
| `SeriRoundTrip.MeaningKept` | lualib-src/lua-seri.c:215-255 | the rebuilt tables have the same entries at every depth, although the array part was split off |
| `SeriRoundTrip.OrderDoesNotMatter` | lualib-src/lua-seri.c:237-255 | a table listed in another order is the same table |
| `SeriRoundTrip.ListRoundTrip` | lualib-src/lua-seri.c:340-610 | a packed list of values unpacks to a list of the same values |
| `SeriRoundTrip.MetaPairsAreTable` | lualib-src/lua-seri.c:257-278 | a table with a __pairs metamethod is packed as the table of border 0 with the entries that it lists |
| `Layouts.IntegerLayout` | lualib-src/lua-seri.c:140-172 | the bytes of an integer: the first one as a number, and the least width of 0, 1, 2, 4 or 8 bytes, low byte first |
| `Layouts.StringLayout` | lualib-src/lua-seri.c:188-211 | the bytes of a string in its three length classes |
| `Layouts.TableLayout` | lualib-src/lua-seri.c:215-255 | the first byte of a table, the size behind it from 31 on, and the nil at its end |
| `Layouts.ScalarLayout` | lualib-src/lua-seri.c:128-186 | the bytes of nil, booleans, numbers and pointers |
| `SeriBlocks.PackableIff` | lualib-src/lua-seri.c:294-338 | packing succeeds exactly for supported types within the depth limit of 32 |
| `SeriBlocks.WriteBlock.Push` | lualib-src/lua-seri.c:63-83 | appends the bytes, across any number of blocks |
| `SeriBlocks.WriteBlock.PackOne` | lualib-src/lua-seri.c:294-338 | appends the encoding of the value, or fails exactly where the original raises an error |
| `SeriBlocks.WriteBlock.PackArray` | lualib-src/lua-seri.c:215-235 | appends the elements, with nil for the holes |
| `SeriBlocks.WriteBlock.PackHash` | lualib-src/lua-seri.c:237-255 | appends the other entries and no element of the array part again |
| `SeriBlocks.WriteBlock.Seri` | lualib-src/lua-seri.c:532-551 | copies the chain into one buffer without gaps |
| `SeriBlocks.ReadBlock.UnpackOne` | lualib-src/lua-seri.c:521-530 | reads what the format says is there, or fails where it says nothing |
| `SeriBlocks.ReadBlock.UnpackTable` | lualib-src/lua-seri.c:432-463 | the same for a table, its elements and its pairs |
| `SeriBlocks.PackAll` | lualib-src/lua-seri.c:597-610 | packs a list of values |
| `SeriBlocks.UnpackAll` | lualib-src/lua-seri.c:553-595 | unpacks a list of values |
| `SeriBlocks.Transfer` | lualib-src/lua-seri.c:553-610 | every list of values within the depth limit arrives with its meaning, through blocks and cursor |
| `Bson.WalksAgree` | lualib-src/lua-bson.c:551-776 | lmakeindex finds the fields that unpack_dict reads, each with its type and its place |
| `Bson.ValuePrefix` | lualib-src/lua-bson.c:551-691 | reading a value depends on its own bytes only |
| `BsonIndex.IdRoundTrip` | lualib-src/lua-bson.c:765-771 | type and offset come back from an index number exactly when the offset is below 2^26 |
| `BsonIndex.MakeIndex` | lualib-src/lua-bson.c:693-776 | the table has the fields of fixed size, with the numbers of their types and offsets |
| `BsonIndex.EntryIsField` | lualib-src/lua-bson.c:693-776 | an entry of the index gives the type of the field that unpack_dict reads for the key, and its place exactly when the field starts below offset 2^26 |
| `BsonIndex.MarkOf` | lualib-src/lua-bson.c:693-776 | of several fields with the key it is the last one of a fixed size |
| `BsonIndex.TableChanges` | lualib-src/lua-bson.c:551-691 | a new payload changes the decoded table at its key only, or not at all when a later field has the same key |
| `BsonIndex.RepeatedKey` | lualib-src/lua-bson.c:693-776 | with an integer and then a string under one key the index leads to the integer and the table shows the string |
| `BsonIndex.IndexComplete` | lualib-src/lua-bson.c:693-776 | every field of fixed size is in the index |
| `BsonIndex.PatchDocument` | lualib-src/lua-bson.c:814-862 | overwriting the payload of an indexed field changes this field and no other, and the index stays right |
| `BsonIndex.Replace` | lualib-src/lua-bson.c:778-862 | writes the payload where the index says; for a field that starts below offset 2^26, in a document of any size, this field of the decoded document changes to the given value and nothing else; it fails exactly for a key that is not in the index or a value that does not fit; on an error the document is untouched |
| `BsonIndex.PayloadFor` | lualib-src/lua-bson.c:778-862 | the payload has the size of the field and unpack_dict reads the given value from it, for each type; there is none exactly when the value does not fit the type |
| `BsonPack.DictRoundTrip` | lualib-src/lua-bson.c:551-691 | unpacking reads exactly the bytes of a packed document, whatever follows, and gives its fields, at every depth |
| `BsonPack.KeyBackIff` | lualib-src/lua-bson.c:158-207 | a key comes back exactly when it has no zero byte in it |
| `BsonPack.IntegerBack` | lualib-src/lua-bson.c:247-268 | every 64-bit integer reads back, from 32 or 64 bits |
| `BsonPack.StringBack` | lualib-src/lua-bson.c:359-366 | a string field is read with its own size and its text comes back |
| `BsonPack.BinaryBack` | lualib-src/lua-bson.c:272-279 | a binary field is read with its own size and its subtype and data come back |
| `BsonPack.DateBack` | lualib-src/lua-bson.c:320-328 | the seconds of a date come back from milliseconds |
| `BsonPack.TimestampBack` | lualib-src/lua-bson.c:329-338 | both parts of a timestamp come back |
| `BsonPack.RegexBack` | lualib-src/lua-bson.c:339-352 | pattern and options of a regular expression come back |
| `BsonPack.Buffer.Reserve` | lualib-src/lua-bson.c:77-91 | growing makes room and keeps the contents |
| `BsonPack.Buffer.WriteLength` | lualib-src/lua-bson.c:192-199 | fills in four bytes and nothing else |
| `BsonPack.Buffer.AppendString` | lualib-src/lua-bson.c:359-366 | writes a field whose length, filled in later, is that of the text and its zero |
| `BsonPack.Buffer.AppendBinary` | lualib-src/lua-bson.c:272-279 | writes a field whose length, filled in later, leaves out the subtype |
| `BsonPack.Buffer.AppendOne` | lualib-src/lua-bson.c:281-379 | appends the bytes of a field, or fails exactly beyond the depth limit |
| `BsonPack.Buffer.PackDict` | lualib-src/lua-bson.c:431-441 | appends a document whose length, filled in at the end, is its size |
| `BsonPack.Encode` | lualib-src/lua-bson.c:899-932 | the packed document unpacks to the same fields |
| `Layouts.DocumentLayout` | lualib-src/lua-bson.c:431-441 | a document is its size in four bytes, low one first, its fields, and a zero |
| `Layouts.FieldLayout` | lualib-src/lua-bson.c:158-207 | a field is its type byte, its key, a zero and its payload |
| `Layouts.LeafTypes` | lualib-src/lua-bson.c:18-37 | the type bytes of integers, strings, binary data, dates and timestamps |
| `Layouts.PayloadLayout` | lualib-src/lua-bson.c:551-691 | how many bytes are read for each type, as the BSON specification says |
| `DhExchange.MulModP` | lualib-src/lua-crypt.c:664-684 | a*b modulo P, for every a up to P and every 64-bit b, although a*2 may wrap around |
| `DhExchange.PowModP` | lualib-src/lua-crypt.c:686-697 | a to the power b modulo P, for every b from 1 on |
| `DhExchange.PowerModP` | lualib-src/lua-crypt.c:700-705 | the same for every 64-bit a, fully reduced except that P to the first stays P |
| `DhExchange.Exchange` | lualib-src/lua-crypt.c:739-757 | the public number is 5 to the secret one modulo P; 0 is refused |
| `DhExchange.Secret` | lualib-src/lua-crypt.c:722-735 | the power of the public number; zeros are refused |
| `DhExchange.PublicNotZero` | lualib-src/lua-crypt.c:739-757 | a public number is never 0, so the other side does not refuse it |
| `DhExchange.Agree` | lualib-src/lua-crypt.c:722-757 | both sides compute the same secret, for all non-zero secret numbers |
| `Des.PermutationsInverse` | lualib-src/lua-crypt.c:201-223 | the initial and the final permutation undo each other |
| `Des.RoundsBack` | lualib-src/lua-crypt.c:313-335 | the rounds with reversed pairs of subkeys take the rounds back one by one, for any S-boxes |
| `Des.CryptBack` | lualib-src/lua-crypt.c:313-335 | decoding a block undoes encoding it, for any S-boxes and any subkeys |
| `Des.CryptAllBack` | lualib-src/lua-crypt.c:363-436 | and so it does for a text of whole blocks |
| `Des.DesEncode` | lualib-src/lua-crypt.c:363-396 | the text is padded with 0x80 and zeros and encoded block by block; a key not of 8 bytes is refused |
| `Des.DesDecode` | lualib-src/lua-crypt.c:398-436 | it returns a text exactly when the input is the encoding of that text; bad keys, lengths and paddings are errors |
| `Des.FindPadding` | lualib-src/lua-crypt.c:421-433 | finds the padding in the last block, or there is none; the loop of the original leaves the buffer exactly for one block of zeros |
| `Des.EncodingsDiffer` | lualib-src/lua-crypt.c:363-396 | different texts have different encodings |
| `Des.RoundTrip` | lualib-src/lua-crypt.c:363-436 | decoding what was encoded gives the text back, for every key of 8 bytes and every text |
| `DesStandard.InitialIsStandard` | lualib-src/lua-crypt.c:201-210 | DES_IP moves every bit as the table IP of FIPS 46-3 says |
| `DesStandard.FeedIsStandard` | lualib-src/lua-crypt.c:227-241 | a round gives box j the six bits that the table E selects from the half, xor the six bits of the subkey for box j |
| `DesStandard.RoundsAreFeistel` | lualib-src/lua-crypt.c:313-335 | the rounds, which change the two words in turn, are those of the standard: L' = R, R' = L xor f(R, K) |
| `DesStandard.CryptIsStandard` | lualib-src/lua-crypt.c:313-335 | the output is the block whose initial permutation is R16 L16 |
| `DesStandard.StandardInitialInjective` | lualib-src/lua-crypt.c:201-223 | no two blocks have the same initial permutation |
| `Layouts.WordLayout` | lualib-src/lua-crypt.c:183-197 | a word is its four bytes, the high one first |
| `DesStandard.BlockIs` | lualib-src/lua-crypt.c:183-197 | the bits of a block are those of its bytes, from the first one on |
| `DesStandard.EncodeIsStandard` | lualib-src/lua-crypt.c:363-396 | every block of the padded text goes through DES by itself |
| `HandleTable.DoubledOk` | skynet-src/skynet_handle.c:54-65 | after doubling every context is in the slot its handle leads to |
| `HandleTable.DoubledKeeps` | skynet-src/skynet_handle.c:54-65 | no handle is lost by doubling |
| `HandleTable.ScanReaches` | skynet-src/skynet_handle.c:40-52 | scanning as many handles as there are slots reaches every slot, so the search ends |
| `HandleTable.ZeroIff` | skynet-src/skynet_handle.c:40-52 | number 0 comes next exactly when every number from handle_index to the last one finds its slot taken and slot 0 is free |
| `HandleTable.AllLiveIff` | skynet-src/skynet_handle.c:53-56 | the table is full and cannot grow exactly when all 2^24 handles are in use |
| `HandleStorage.Storage.FindSlot` | skynet-src/skynet_handle.c:40-52 | the first free place from handle_index on, or the table is full |
| `HandleStorage.Storage.Grow` | skynet-src/skynet_handle.c:54-65 | twice the slots and the same map, with a free slot; the assertion about collisions holds |
| `HandleStorage.Storage.Register` | skynet-src/skynet_handle.c:34-67 | a handle that was not in use now leads to the context, nothing else changes; it is the first one with a free slot in the table scanned, and so it is number 0 exactly when all up to the last one are taken; it fails exactly when all 2^24 handles are in use |
| `HandleStorage.Storage.Grab` | skynet-src/skynet_handle.c:132-149 | the context of the handle, if it has one |
| `HandleStorage.Storage.Retire` | skynet-src/skynet_handle.c:70-106 | the handle and its names are gone, nothing else changes; an unknown handle changes nothing |
| `HandleStorage.Storage.RemoveNames` | skynet-src/skynet_handle.c:82-93 | the compaction in place keeps the other names in order |
| `HandleStorage.Storage.Locate` | skynet-src/skynet_handle.c:159-173 | binary search finds the name, or the place where it belongs |
| `HandleStorage.Storage.FindName` | skynet-src/skynet_handle.c:151-179 | the handle of the name, or 0 |
| `HandleStorage.Storage.NameHandle` | skynet-src/skynet_handle.c:206-240 | a new name is added to the map, a known one keeps its handle; it fails exactly for a new name when there are 2^30 of them |
| `HandleStorage.Storage.InsertNameBefore` | skynet-src/skynet_handle.c:181-204 | the name is inserted in place or into a bigger array |
| `HandleNames.InsertedSearch` | skynet-src/skynet_handle.c:181-229 | inserting in order changes the map at this name only |
| `HandleNames.WithoutSearch` | skynet-src/skynet_handle.c:82-93 | removing a handle leaves exactly the names of others |
| `HandleStorage.NumberingGoesRound` | skynet-src/skynet_handle.c:34-67 | a run of registrations and retirements after which a registration returns handle 0 |
| `HandleStorage.Replay` | skynet-src/skynet_handle.c:34-240 | in every run slot table and name array are the maps of live contexts and names, and no registration gets a handle in use; the run goes on to its end or to a registration with all handles in use or a new name with 2^30 names in use |
| `ShareData.CountSize` | lualib-src/lua-sharedata.c:65-87 | the number of keys outside the array part |
| `ShareData.FreeSlot` | lualib-src/lua-sharedata.c:235-270 | as long as an entry is missing a slot is free, so the assertion holds |
| `ShareData.AllFilled` | lualib-src/lua-sharedata.c:235-270 | when no entry is missing no slot is free |
| `ShareData.CollideChained` | lualib-src/lua-sharedata.c:235-270 | linking an entry behind its main position keeps all chains finite, apart and complete |
| `ShareData.CollideKeeps` | lualib-src/lua-sharedata.c:235-270 | one round of the second pass keeps what the table must satisfy |
| `ShareTable.Table.FillNoColliding` | lualib-src/lua-sharedata.c:210-233 | afterwards main positions hold entries that belong there and the array part is complete |
| `ShareTable.Table.FillColliding` | lualib-src/lua-sharedata.c:235-270 | afterwards every entry is in a slot that its chain reaches |
| `ShareTable.Convert` | lualib-src/lua-sharedata.c:274-323 | the table built has exactly the given entries |
| `ShareTable.Table.LookupKey` | lualib-src/lua-sharedata.c:499-528 | ends, and finds the slot of a key iff the key is there; the shortcut for slots without collisions is safe |
| `ShareTable.Table.Index` | lualib-src/lua-sharedata.c:530-564 | the value of the key, or none |
| `ShareTable.Table.NextKey` | lualib-src/lua-sharedata.c:587-644 | the key behind the given one |
| `ShareTable.Table.Walk` | lualib-src/lua-sharedata.c:587-644 | following it from nil visits every key exactly once |
| `Sha1Block.StepIsRound` | lualib-src/lsha1.c:113-117 | a step with rotating register names is a round of the definition |
| `Sha1Block.RollingNext` | lualib-src/lsha1.c:101-108 | the schedule in 16 words is the one in 80 words |
| `Sha1Block.TransformBlock` | lualib-src/lsha1.c:121-171 | the transform of the definition |
| `Sha1Block.RolIsCircular` | lualib-src/lsha1.c:99-99 | the rotations written as two shifts are circular shifts |
| `Layouts.PaddingLayout` | lualib-src/lsha1.c:216-242 | the padded message is the message, a byte 0x80, the least number of zeros, and 8 times the length modulo 2^64, high byte first |
| `Layouts.DigestLayout` | lualib-src/lsha1.c:233-236 | the digest is the five registers, each with its high byte first |
| `Sha1.Context.Update` | lualib-src/lsha1.c:187-213 | takes any piece at any buffer position; the count is right exactly for pieces under 2^29 bytes or when the low word overflows |
| `Sha1.Context.Final` | lualib-src/lsha1.c:216-242 | the digest of the padded message |
| `Sha1.Sha1Of` | lualib-src/lsha1.c:247-259 | the hash of every message under 2^29 bytes; longer ones are padded with a length too large by 2^32 |
| `Sha1.Sha1InParts` | lualib-src/lsha1.c:187-242 | any way of cutting a message into pieces under 2^29 bytes gives the hash of the whole |
| `Sha1.XorKey` | lualib-src/lsha1.c:263-270 | every byte of the key block is changed by the same byte |
| `Sha1.HmacSha1` | lualib-src/lsha1.c:272-310 | the definition of HMAC for keys under 2^29 bytes and texts whose length is counted right, and for all others the same with the lengths as counted |

## Left out

- LPeg captures, run-time captures, grammars, rules and calls, and the limit on the backtrack stack.
- LPeg offsets are absolute targets in the model, and the words behind an instruction are data words; character sets are sets, apart from the bitmap loops of `PegCharset`.
- Termination of the timer thread's loop over missed ticks, and reading the system clock.
- The linked lists of the timer, the global queue and the sockets are sequences.
- Scheduling: overload reports, weights beyond "one message or more", the monitor, condition variables and wake-up (`SchedulerProgress` says that steps exist, not that they are taken), `skynet_context_dispatchall`, and sending to other harbors.
- Handles: use of the same handle again while an old queue lives, and the time between registration and the assignment of `ctx->handle`, are not modelled in `Scheduler`; `skynet_handle_retireall` is not modelled.
- Calls that a service makes from inside its callback are agents of their own in `Scheduler`.
- Sockets: UDP, user objects, listening and binding, reading, and the warnings about large buffers.
- `RwLock` assumes sequential consistency, and counters that do not overflow; the variant with pthread locks is not modelled.
- `Stm` leaves out the counting and freeing of the stm object itself.
- Netpack: the message types other than data and close, and `lclear`.
- SeriBlocks.WriteBlock.PackOne: a table with a `__pairs` metamethod is given as the table of border 0 with the entries that the metamethod lists (see `SeriRoundTrip.MetaPairsAreTable`); metamethods that list nil values or a key twice are left out.
- Seri: streams that are not produced by packing and give a long string of 2^31 bytes or more, or an array part of negative size, are read without the undefined behaviour of the original; bytes are in little-endian order, and numbers that are not integers are their eight bytes.
- BsonPack.Buffer.AppendOne: takes a value as document, array or payload: the choice between document and array by `__len`, `__pairs` or is_rawarray, and the keys of arrays as decimal numbers, are left out.
- Bson: a value of a type other than document or array is its payload; the payloads of integers, strings, binary data, dates, timestamps and regular expressions are related to the values by lemmas, the others are their bytes. Negative lengths in malformed documents are errors. Sizes stay within an int.
- ShareData: nested tables are opaque values, strings stand for themselves and not for indices into the string table, and keys are strings or integers of C's int.
- Crypt: contents of the DES S-boxes and of the key schedule are parameters; hashing, base64 and hex functions are left out.
- Sha1: wiping of the context.
- service_gate, databuffer, hashid, lua-cluster, lua-mongo, mysqlaux, md5 and harbor, which repeat the arguments above in smaller form; the Lua core and jemalloc.
- BsonIndex.Replace: leaves out entries whose offset, cut to 27 bits, is negative, because there the original writes outside the document.
- Des.DesDecode: when a single block decodes to zeros the original reads below its buffer; the model gives the error that it ends with.
- Netpack.ReplayDrained: the gate server forks its loop over the ring and its handler may block; the model is the handler that does not.
