# HAMcast in Dafny

This project models the parts of HAMcast that carry its guarantees and proves them for every run
or every input: the asynchronous send protocol between a client and the middleware, group
membership, packet delivery, the concurrency kernels below them, the IPC wire format with its
incremental parser, the ham-URI parser, and the packet generator's hash. `dafny verify
dfyconfig.toml` checks everything.

## How it is built

**Send protocol.** `ClientSocket` and `SendProxy` hold the two objects as classes whose methods are
proved against functions on values; `SendSystem` puts these functions into one step system with
application, client loop, two FIFO wires, session loop, finished jobs, timer, and a step that
injects arbitrary acknowledgements and retransmit requests. The start value of `last_sent` is
arbitrary, as the code does not set it. `SendPrefix`, `SendAccounting`, `SendWindow`, `SendNoLoss`,
`SendClose` and `SendDrain` prove layer after layer of invariants; `SendStall` proves what a
retransmission breaks in every run, and `SendCredit` adds the blocking credit in front of the send
queue and proves up to which message size no retransmission happens. `FanOut` proves the in-order
completion that the step system assumes, with every hand-out to an interface, every decrement of a
reference count and every signal as a step of its own.

**Concurrency.** `RwSpinlock` and `WakeUp` are interleaving systems with a program counter per
thread, whose atomic steps are the single reads and compare-and-swaps of the code. `WakeUp` has the
lock-free queue as linked nodes. `Receive` has the receive budgets at the same granularity.

**Membership.** `JoinTable` is one technology module's table with the calls the module received,
`SocketMembership` one socket's operations as sequences of worker messages, `Membership` all
sockets and modules, with the messages of different sockets interleaving at the workers.

**Wire.** `Wire`, `IpcReader` and `IpcRoundTrip` are strings and integers as bytes, the resumable
parser, and messages through the buffering sink; `IpcLeftover` is what content left in the stream
does to the parser. `HamUri` is the URI state machine, `BobHash` the hash over 32-bit words, and
`BobMix` its mixing macro on registers of bits.

## What the proofs found

- A forced acknowledgement may run ahead of the finished jobs: the drift is 1 before the first
  block and at most 63 later (`AckDrift`). It still never drops an unsent packet, because
  consecutive acknowledgements rise by at most 64 (`NoUnsentDrop`).
- The end of a range in `do_send` is computed in 32 bits. In the states that the window invariant
  admits, the refill after an acknowledgement is a defined iteration if and only if at most
  2^32 - 126 packets are numbered (`LimitIsExact`); results that depend on it are stated up to
  that number. No run is shown to reach the failing state beyond it.
- Retransmission counts a resent packet as newly sent, so the client skips a number. In every run
  with exactly one retransmit request, nothing after the packets sent by the time it is handled is
  ever accepted (`OneRequestStalls`). A further request can make up for it, but once everything
  before the skipped number is accepted no request can come any more and the socket is lost
  (`SkippedForGood`).
- Whether that can happen depends on the configured maximum message size alone: no run asks for a
  retransmission if and only if 320 messages of that size fit the middleware's 16 MiB, that is, up
  to 52428 bytes, with the application's credit or without it (`SizeLimitIsExact`). Above, forced
  acknowledgements lead the finished jobs by 63, the window lets 257 more packets through, and an
  acknowledgement that drops nothing still gives credit back, so a run loses its socket
  (`RetransmissionLosesSocket`). Up to that size, and so with the default of 8 KiB, nothing is lost
  (`NoLoss`) and everything is accepted and acknowledged in the end (`SmallDrains`).
- The reader-writer lock excludes exactly for fewer than 2^31 threads (`ExclusionExactly`).
- The technology module pointers convert to bool and have no order of their own, so sorting and
  intersecting interface lists as the code does compares nothing. A change of interfaces then keeps
  memberships right however the lists are arranged if and only if it asks for old interfaces only,
  or nothing is joined (`NoOrderAlways`). `SetInterfacesExactly` has the condition for a total
  order on interfaces, which the comment in `set_interfaces` intends. `Membership` is stated for
  any comparison, with the conditions for both (`TotalOrderKeeps`, `NoOrderKeeps`).
- Leaving a group unlists every other joined group that is mapped alike on an interface
  (`LeaveExactly`).
- `tech_module::del` reads the size of a list after erasing it from the map. The model returns the
  number of remaining joins, as the header documents.
- The string reader rebuilds exactly the strings without a zero byte (`TextIsRebuilt`).
- Membership events and packets for a socket without a receiver leave their content in the stream
  (`ContentLeftExactly`). The parser then reads a header of an unknown type, or one whose content
  does not fit its buffer, and dispatches nothing any more. So of any conversation the client
  dispatches the messages up to and including the first such one (`DispatchedExactly`).

## Model

| member | source | states |
|---|---|---|
| SendPrefix.PrefixDelivery | middleware/socket_proxy.cpp:63-111 | in every run, with any injected acknowledgements and retransmit requests, the accepted payloads are a prefix of the offered ones, each once and in order |
| SendNoLoss.NoLoss | middleware/socket_proxy.cpp:63-173 | with messages of at most 52428 bytes: no retransmit request ever, offered payloads are accepted plus on the wire plus unsent plus queued, at most 320 unfinished jobs whose bytes are exactly the budget used, the next packet always accepted; with at most 32513 bytes also at most 258 unfinished jobs and never half full |
| SendNoLoss.BudgetSuffices | libhamcast/hamcast/config.hpp:117-160 | 258 jobs of at most 32513 bytes leave room for one more and less than half of the budget used |
| SendNoLoss.RoomForNext | libhamcast/hamcast/config.hpp:117-160 | while a packet arrives at most 319 jobs are unfinished, so one of at most 52428 bytes is accepted |
| SendClose.GracefulClose | libhamcast/src/client_channel.cpp:688-727 | when the middleware has deleted the socket it has accepted everything offered before the close was requested |
| SendClose.SmallGracefulClose | libhamcast/src/client_channel.cpp:688-727 | graceful close for every run of application, client and middleware with messages of at most 52428 bytes |
| SendClose.CloseNeverLost | libhamcast/src/client_channel.cpp:546-562 | the close request is in exactly one place in every run, every delay is undone by one re-queueing, and without later sends there is at most one delay |
| SendWindow.WindowConservation | libhamcast/src/client_channel.cpp:651-686 | pending_sends is the number of sent packets still buffered and at most 257, buffered numbers are contiguous, unsent packets exist only with at least 256 pending |
| SendWindow.NoUnsentDrop | libhamcast/src/client_channel.cpp:524-569 | the next acknowledgement removes only sent packets, rises by at most 64, and is handled without undefined iteration |
| SendWindow.QuiescentIsEmpty | libhamcast/src/client_channel.cpp:540-545 | with empty wires and queue, finished jobs and no owed acknowledgement the buffer is empty and everything is accepted |
| SendWindow.RefillKeepsWindow | libhamcast/src/client_channel.cpp:540-545 | a refill after an acknowledgement sends the unsent packets in order until the window is full again |
| SendAccounting.AckDrift | middleware/socket_proxy.cpp:145-173 | a forced acknowledgement covers all finished jobs and leads by at most 63; the budget used is the bytes of the unfinished jobs |
| SendWindow.DriftHistory | middleware/socket_proxy.cpp:113-173 | over every run the drift is determined by the acknowledgements of finished jobs alone, and once 0 it stays 0 until a half-full acknowledgement off a block boundary |
| SendWindow.LimitIsExact | libhamcast/src/client_channel.cpp:540-545 | the refill is a defined iteration in every state the window invariant admits if and only if at most 2^32 - 126 packets are numbered |
| SendDrain.Drains | middleware/session.cpp:433-453 | without a retransmit request at most Work(s) internal steps are possible in any order, and when none is left everything is accepted and acknowledged |
| SendDrain.SmallDrains | middleware/session.cpp:433-453 | the same for every run of application, client and middleware with messages of at most 52428 bytes |
| SendDrain.EveryRunCompletes | libhamcast/src/client_channel.cpp:651-727 | for every run without a retransmit request in which nothing is left to do, in terms of what the application did: without a close everything it sent is accepted in order and the socket is open; with one the socket is deleted and everything sent before the close is accepted in order |
| SendStall.OneRequestStalls | libhamcast/src/client_channel.cpp:505-522 | in every run with exactly one retransmit request, once it is handled nothing after the packets sent by then is ever accepted |
| SendStall.FirstRequestSkips | libhamcast/src/client_channel.cpp:505-522 | handling the first request of any run skips the number after the last one sent, or the requested one if an acknowledgement dropped it |
| SendStall.SkippedBlocks | middleware/socket_proxy.cpp:69-106 | a skipped number is never accepted in any continuation without a request |
| SendStall.SkippedForGood | middleware/socket_proxy.cpp:69-106 | once everything before the skipped number is accepted, nothing more is accepted in any continuation at all |
| SendCredit.SizeLimitIsExact | libhamcast/src/multicast_socket.cpp:115-157 | no run with messages of at most a given size asks for a retransmission, with the credit or without it, if and only if 320 messages of that size fit the middleware's budget |
| SendCredit.RetransmissionLosesSocket | libhamcast/src/client_channel.cpp:505-522 | if they do not fit, some run with the credit and messages of at most that size leaves the socket open with an offered packet that no continuation accepts |
| SendCredit.CostIsReleased | libhamcast/src/client_channel.cpp:171-212 | what an acknowledgement gives back to the credit is what dropping its packets reports |
| SendCredit.CreditOfPackets | libhamcast/src/client_channel.cpp:171-192 | an acknowledgement of k packets below 32 KiB gives back exactly k times 32 KiB, a larger packet its size, and that is what sending them took |
| SendCredit.CreditRunIsRun | libhamcast/src/multicast_socket.cpp:115-134 | every run with credit is a run of the step system, so all results for all runs hold with credit |
| ClientSocket.SocketData.constructor | libhamcast/hamcast/ipc/client_channel.hpp:58-70 | a new socket numbers from 0, has an empty buffer and an arbitrary last_sent |
| ClientSocket.SocketData.DropSmallerOrEqual | libhamcast/src/client_channel.cpp:174-212 | keeps exactly the packets above the number and reports the bytes of the dropped ones, small ones rounded up |
| ClientSocket.SocketData.DoSend | libhamcast/src/client_channel.cpp:214-243 | sends the buffered packets of the range in order and counts every one as sent |
| ClientSocket.SocketData.HandleAck | libhamcast/src/client_channel.cpp:524-569 | drops, refills the window and re-queues a delayed close exactly as the step system does |
| ClientSocket.SocketData.HandleRetransmit | libhamcast/src/client_channel.cpp:505-522 | resends from the requested number to last_sent |
| ClientSocket.SocketData.HandlePacket | libhamcast/src/client_channel.cpp:651-686 | numbers, buffers and, when it is next in line and the window is open, sends |
| ClientSocket.SocketData.HandleClose | libhamcast/src/client_channel.cpp:688-727 | goes on the wire only with an empty buffer, and is kept otherwise |
| ClientSocket.PacketsOfSpan | libhamcast/src/client_channel.cpp:225-238 | on a contiguous buffer the sent range is exactly the buffered numbers within it |
| SendProxy.SocketProxy.constructor | middleware/socket_proxy.cpp:279-287 | counters start at 0 with the whole budget available |
| SendProxy.SocketProxy.HandleAsyncSend | middleware/socket_proxy.cpp:63-111 | only the next expected number within the budget is accepted, and then reaches every interface queue; a refused one is asked for again |
| SendProxy.SocketProxy.AsyncJobDone | middleware/socket_proxy.cpp:113-143 | gives the bytes back and acknowledges at a block boundary or a half-full budget |
| SendProxy.SocketProxy.ForceAcks | middleware/socket_proxy.cpp:145-173 | over all streams at most one forced acknowledgement, and only for a positive counter |
| SendProxy.SocketProxy.AddStream | middleware/socket_proxy.cpp:55-61 | stream identifiers are handed out in order and existing state is unchanged |
| FanOut.CompletionInOrder | middleware/send_job.cpp:40-43 | for any number of interfaces and any interleaving, also while a job is handed to one interface after another and between the last decrement and the signal, completion signals are jobs 0, 1, 2, ..., at most one is outstanding, and no job without references is forgotten |
| FanOut.NoSecondSignal | libhamcast/hamcast/ref_counted.hpp:70-73 | while a signal is outstanding no worker can take the last reference of another job |
| FanOut.NeverBlocked | middleware/socket_proxy.cpp:76-86 | in every run the session thread can go on with the job it holds, and a worker with a job and nothing to signal can let go of it |
| FanOut.EveryInterfaceServed | middleware/socket_proxy.cpp:76-86 | in every run the number of accepted jobs is the number of acceptances, and every interface gets each of them exactly once and in order: after k turns of its worker its queue holds jobs k, k + 1, ... up to the newest it was given |
| RwSpinlock.RefinesAtomicLock | middleware/rw_spinlock.cpp:43-132 | every run of fewer than 2^31 threads is a run of an atomic reader-writer lock |
| RwSpinlock.ExclusionExactly | middleware/rw_spinlock.cpp:43-132 | the flag always says exactly who holds the lock, and holders exclude each other, if and only if there are fewer than 2^31 threads |
| RwSpinlock.StepRefines | middleware/rw_spinlock.cpp:43-132 | every single read or compare-and-swap is a stutter or one step of the atomic lock |
| RwSpinlock.ReleaseExclusive | middleware/rw_spinlock.cpp:68-78 | a writer finds its own mark in the flag and leaves the lock free |
| RwSpinlock.Progress | middleware/rw_spinlock.cpp:85-126 | unlock succeeds at once, a failing compare-and-swap means another thread's succeeded since the read, and failures never outnumber completed operations |
| RwSpinlock.CasChangesHolders | middleware/rw_spinlock.cpp:43-132 | in every reachable state of fewer than 2^31 threads: try_lock makes its thread the only holder if and only if nobody holds the lock and gives up otherwise; a compare-and-swap of a current copy adds exactly its writer to a free lock, adds its reader to a lock without a writer, or takes its reader away; every other move changes no holder and stays in its operation |
| RwSpinlock.UndisturbedOperation | middleware/rw_spinlock.cpp:43-132 | an operation left alone is over after at most two moves: lock and try_lock hold a lock that was free, the shared ones a lock without a writer, both unlocks are done; otherwise the trying ones gave up and the others wait |
| RwSpinlock.TooManyThreads | middleware/rw_spinlock.cpp:97-97 | with 2^31 readers the flag overflows and exclusion breaks |
| WakeUp.WakeUpAccounting | libhamcast/src/channel.cpp:117-128 | pipe bytes plus owed pops plus pushers before notify equal the queue length, no owed pop is null, and a queued message never stays without a wake-up |
| WakeUp.QueueIsFifo | libhamcast/hamcast/util/single_reader_queue.hpp:203-240 | popped values followed by the contents of stack, cache and reversal under way are the pushed values in order |
| WakeUp.PushLinks | libhamcast/hamcast/util/single_reader_queue.hpp:153-177 | in every reachable state a compare-and-swap with a current copy makes the node the newest message and the head of the linked stack; with an outdated one the push starts over |
| WakeUp.UndisturbedPush | libhamcast/hamcast/util/single_reader_queue.hpp:153-187 | a push left alone appends its message and leaves one more byte in the pipe |
| WakeUp.PopYieldsOldest | libhamcast/hamcast/util/single_reader_queue.hpp:203-240 | in every reachable state an owed pop left to finish yields exactly the oldest message, from the cache or after taking and reversing the stack |
| JoinTable.WorkKeepsAgreement | middleware/tech_module.cpp:809-857 | every worker message keeps the table's keys equal to the groups whose latest module call was join, lists non-empty and duplicate-free |
| JoinTable.WorkLists | middleware/tech_module.cpp:809-857 | a message changes exactly the listings it names and never another socket's |
| JoinTable.WorkCalls | middleware/tech_module.cpp:809-857 | the module is told to join for every newly listed socket, and to leave exactly the groups whose only member leaves, each once |
| JoinTable.TechModule.constructor | middleware/tech_module.hpp:243-259 | a new module has an empty table and was told nothing |
| JoinTable.TechModule.Add | middleware/tech_module.cpp:668-693 | adds a socket once and reports whether it was added |
| JoinTable.TechModule.Del | middleware/tech_module.cpp:695-723 | removes one socket, drops an emptied group and reports the remaining joins |
| JoinTable.TechModule.DelAll | middleware/tech_module.cpp:725-758 | removes a socket everywhere and tells the module to leave exactly the emptied groups, each once |
| JoinTable.TechModule.Handle | middleware/tech_module.cpp:809-857 | one worker turn: table, calls and answer for join, leave and leave-all, keeping the agreement |
| SocketMembership.JoinAchieves | middleware/socket_proxy.cpp:175-188 | the messages of a join take a right listing to the right listing for one more group |
| SocketMembership.LeaveExactly | middleware/socket_proxy.cpp:190-203 | the messages of a leave keep the listing right if and only if no other joined group is mapped alike on an interface of the socket |
| SocketMembership.LeaveAllAchieves | middleware/socket_proxy.cpp:205-218 | the messages of a leave-all leave the socket listed nowhere |
| SocketMembership.RegroupExactly | middleware/socket_proxy.cpp:251-276 | for any intersection the listing stays right if and only if nothing is joined or the interfaces kept or newly joined are the new list |
| SocketMembership.IntersectionCounts | middleware/socket_proxy.cpp:245-252 | on sorted lists the intersection holds every interface as often as both lists do |
| SocketMembership.SetInterfacesExactly | middleware/socket_proxy.cpp:239-277 | with a total order the listing stays right if and only if nothing is joined or no requested interface was repeated more often before |
| SocketMembership.SetInterfacesKeeps | middleware/socket_proxy.cpp:239-277 | the same for lists in any order, with sorting; the new list is a permutation of the request |
| SocketMembership.NoOrderExactly | libhamcast/hamcast/intrusive_ptr.hpp:118-118 | with the pointers' own comparison and the lists as sorting left them, the listing stays right if and only if nothing is joined or the front of the request holds only old interfaces |
| SocketMembership.NoOrderAlways | middleware/socket_proxy.cpp:245-252 | over all arrangements of the lists: the listing stays right if and only if nothing is joined, there were no interfaces, or every requested one is an old one |
| SocketMembership.SetInterfacesFails | middleware/socket_proxy.cpp:239-277 | two requests after which the socket is not listed where it should be |
| SocketMembership.MemberSocket.constructor | middleware/socket_proxy.cpp:279-287 | a new socket has joined nothing and has one interface |
| SocketMembership.MemberSocket.JoinGroup | middleware/socket_proxy.cpp:175-188 | a new group is joined on every interface, a known one sends nothing, an empty interface list is refused |
| SocketMembership.MemberSocket.LeaveGroup | middleware/socket_proxy.cpp:190-203 | a joined group is left on every interface, an unknown one sends nothing, an empty interface list is refused |
| SocketMembership.MemberSocket.LeaveEverything | middleware/socket_proxy.cpp:205-218 | one leave-all for each interface; the joined groups are forgotten only if asked |
| SocketMembership.MemberSocket.ReplaceInterfaces | middleware/socket_proxy.cpp:239-277 | the new list and the exact messages of changing the interfaces |
| SocketMembership.MemberSocket.EraseCommon | middleware/socket_proxy.cpp:253-260 | erasing the intersection element by element |
| Membership.MembershipAgreement | middleware/session.cpp:110-167 | for any comparison of interfaces, in every run with interleaved operations in which changes of interfaces keep memberships right and no group is left while another joined one is mapped alike, a socket without an operation under way is listed under a mapped group on an interface exactly when it is live, has joined the group and uses the interface; its list is never empty |
| Membership.TotalOrderKeeps | middleware/socket_proxy.cpp:239-277 | with a total order a change of interfaces keeps memberships right if and only if nothing is joined or no requested interface is repeated more often in the old list |
| Membership.TotalOrderAddsAndRemoves | middleware/session.cpp:131-167 | so adding an interface always does, and removing one if and only if nothing is joined or it is not repeated |
| Membership.NoOrderKeeps | libhamcast/hamcast/intrusive_ptr.hpp:118-118 | with the pointers' own comparison a request for distinct old interfaces keeps memberships right however the lists are arranged |
| Membership.ListsStayDistinct | middleware/session.cpp:110-167 | if no request repeats an interface, no interface list ever does |
| Membership.ModuleAgreement | middleware/tech_module.cpp:668-758 | in every run, for every mapping and all requests, the table's keys are the groups whose latest call was join, and lists are non-empty and duplicate-free |
| Membership.InterfaceOperations | middleware/session.cpp:110-167 | on every reachable live socket, for any comparison, setting installs exactly the request, repetitions included, unless it is empty or names an unknown interface; adding adds a known new one; removing removes one occurrence unless nothing would remain |
| Membership.OperationsFinish | middleware/tech_module.cpp:473-505 | the next message of an unfinished operation can always be answered, and answering leaves one less |
| Membership.SocketOperations | middleware/socket_proxy.cpp:175-218 | in every reachable state joining adds exactly the group, leaving takes exactly it away, a new socket has joined nothing and has one interface, removing removes the socket, a change of interfaces changes no joined group, an unknown socket changes nothing, and no step changes another socket |
| Membership.JoinTakesEffect | middleware/socket_proxy.cpp:175-188 | in plain runs, once the messages of a join are answered, whatever other sockets did meanwhile, the socket is listed under the mapped group on each of its interfaces |
| Membership.JoinCompletes | middleware/socket_proxy.cpp:175-188 | such a join left alone needs one answer from each interface, or none if the group was joined already |
| Membership.LeaveTakesEffect | middleware/socket_proxy.cpp:190-218 | once the messages of a leave are answered the socket is listed under the mapped group nowhere, and after a removal it is listed nowhere at all |
| Receive.HandleReceive | middleware/tech_module.cpp:517-577 | an oversized packet is dropped; any other gives exactly one message to each listed socket whose budget allows it and takes bytes only there |
| Receive.SlotSize | middleware/tech_module.cpp:562-571 | the chosen buffer type holds the packet and is at most twice as large, beyond the smallest |
| Receive.ReceiveBudget.TryAcquire | middleware/socket_proxy.cpp:45-48 | takes the bytes or changes nothing |
| Receive.ExactDelivery | middleware/tech_module.cpp:517-577 | with any number of threads a finished packet has pushed exactly one message for each granted socket of the list its group had when it arrived, in list order, and a socket is refused only when its budget was too small |
| Receive.SnapshotIsLastList | middleware/tech_module.cpp:517-558 | in every run a packet of at most 65536 bytes becomes exactly one call, in order of arrival, for the list last set for its group before it arrived, which nothing changes later; a longer packet becomes none |
| Receive.DecidedByBudget | middleware/tech_module.cpp:560-586 | in every run a step leaves a packet alone or decides its next socket by the budget of that very moment, taking the bytes if and only if they are granted |
| Receive.UndisturbedDecision | middleware/tech_module.cpp:560-586 | a thread left alone refuses its next socket at once if the budget is too small, and otherwise pushes one message to the end of the queue of that socket's session |
| Receive.BudgetConservation | middleware/session.cpp:478-492 | in every interleaving the bytes taken from a live socket's budget are those of its packets queued or about to be pushed, at most the budget |
| Wire.TextIsRebuilt | libhamcast/src/serialization.cpp:162-178 | the 128-byte reader rebuilds a string if and only if it has no zero byte |
| Wire.TextRoundTrip | libhamcast/src/serialization.cpp:155-178 | a written string without zero bytes is read back and exactly its bytes are taken |
| Wire.RoundTrip32 | libhamcast/hamcast/util/serialization.hpp:88-108 | a 32-bit integer is read back from its little-endian bytes |
| Wire.ReadBuffer.ReadSome | libhamcast/src/read_buffer.cpp:47-56 | takes as many bytes as there are, at most the size asked for, from the front |
| Wire.ReadBuffer.Read | libhamcast/src/read_buffer.cpp:58-65 | takes exactly the bytes asked for or fails and takes nothing |
| Wire.ReadBuffer.ReadString | libhamcast/src/serialization.cpp:162-178 | the chunk loop computes the specified string and position, and fails exactly when bytes are missing |
| IpcReader.ChunkingIndependence | libhamcast/src/client_channel.cpp:383-620 | any splitting of a stream dispatches the same messages and leaves the same state and residue as one call |
| IpcReader.ParseConcat | libhamcast/src/client_channel.cpp:383-425 | parsing a stream is parsing a front and then the residue with the rest |
| IpcReader.ParseSettles | libhamcast/src/client_channel.cpp:389-421 | the parser stops only when it lacks bytes or has failed |
| IpcReader.RoomForFrame | libhamcast/src/client_channel.cpp:386-386 | if the frame waited for fits the buffer, the next read has room |
| IpcReader.ContentLeftExactly | libhamcast/src/client_channel.cpp:426-601 | after a handled message the parser goes on with the rest of the stream, preceded by the message's own content exactly for events and for packets without a receiver |
| IpcLeftover.DispatchedExactly | libhamcast/src/client_channel.cpp:383-620 | of any conversation with all kinds of messages, through the sink and received in any pieces that fit the buffer, exactly the messages up to and including the first that leaves its content are dispatched; so all are if and only if none but the last leaves its content |
| IpcLeftover.MessageLayout | libhamcast/hamcast/ipc/message_type.hpp:53-132 | every kind of message starts with its number, 1, 2, 4, 5 or 6, in two bytes, followed by its fields and its content size, lowest byte first, and its content |
| IpcLeftover.EventSilencesReader | libhamcast/src/client_channel.cpp:571-601 | after one event, however it arrives and whatever follows, the client dispatches nothing any more |
| IpcLeftover.UnclaimedPacketSilencesReader | libhamcast/src/client_channel.cpp:426-473 | the same after one packet for a socket without a receiver |
| IpcLeftover.DeadForGood | libhamcast/src/client_channel.cpp:386-421 | a parser that waits for more than its buffer holds dispatches nothing whatever arrives |
| IpcLeftover.AstrayDispatchesNothing | libhamcast/src/client_channel.cpp:603-605 | a message of unknown type dispatches nothing: the parser waits for it, then throws |
| IpcLeftover.UriLength | libhamcast/src/uri.cpp:207-231 | every URI but the empty one has at least 7 characters |
| IpcReader.ClientReader.TryRead | libhamcast/hamcast/ipc/client_channel.hpp:188-200 | a field is read and the state advanced, or nothing changes and the loop ends |
| IpcReader.ClientReader.IpcRead | libhamcast/src/client_channel.cpp:383-620 | the fall-through loop terminates and dispatches, fails and leaves exactly what the parser specification says |
| IpcRoundTrip.WireRoundTrip | libhamcast/src/message.cpp:97-184 | messages written in any pieces with flushes anywhere and received in any pieces are dispatched exactly, with nothing left over |
| IpcRoundTrip.ParseMessage | libhamcast/src/client_channel.cpp:426-569 | one message followed by anything is dispatched as itself and the rest is parsed next |
| IpcRoundTrip.DeclaredSizeIsWritten | libhamcast/src/message.cpp:155-184 | the declared content size of a packet is the number of bytes written |
| IpcRoundTrip.FramesAreExact | libhamcast/src/message.cpp:63-95 | reading gives a message with a rest if and only if the bytes are its serialization followed by that rest |
| IpcRoundTrip.SinkConserves | libhamcast/hamcast/util/buffered_sink.hpp:78-104 | delivered and buffered bytes are all bytes written, in order, for any hint and any flushes |
| IpcRoundTrip.SinkIsBounded | libhamcast/hamcast/util/buffered_sink.hpp:78-93 | over any writes and flushes the buffer stays within its maximum, and within the hint unless it is one longer write |
| IpcRoundTrip.BufferedSink.constructor | libhamcast/hamcast/util/buffered_sink.hpp:65-75 | hints below 100 are ignored |
| IpcRoundTrip.BufferedSink.WriteBytes | libhamcast/hamcast/util/buffered_sink.hpp:78-93 | the buffer never exceeds its maximum; a single write above it fails after flushing |
| IpcRoundTrip.BufferedSink.FlushBytes | libhamcast/hamcast/util/buffered_sink.hpp:96-104 | everything buffered is delivered |
| HamUri.ParseInvertsPrint | libhamcast/src/uri.cpp:116-231 | a lower-case string is accepted if and only if it is the print of a well-formed tuple, which the parser then holds |
| HamUri.AcceptedIsPrinted | libhamcast/src/uri.cpp:207-231 | the components of an accepted string joined with the delimiters taken give the string |
| HamUri.PrintedIsParsed | libhamcast/src/uri.cpp:116-204 | every well-formed tuple of components prints to a string that parses back to it |
| HamUri.PrintIsInjective | libhamcast/src/uri.cpp:116-204 | no string reads as two different tuples |
| HamUri.ComponentsOfUri | libhamcast/src/uri.cpp:116-265 | a string that in lower case is the print of a well-formed tuple gives an object with exactly these components, group and instantiation without their brackets |
| HamUri.OtherStringsAreNoUri | libhamcast/src/uri.cpp:207-231 | the object is the empty one if and only if the string in lower case is no such print |
| HamUri.LowerCases | libhamcast/src/uri.cpp:213-216 | lower case changes the letters A to Z only |
| HamUri.ReparseIsIdentity | libhamcast/src/uri.cpp:234-265 | parsing the string of a parsed URI changes nothing |
| HamUri.UriPrivate.ConsumeChar | libhamcast/src/uri.cpp:116-204 | one character changes state, bracket flag and components as the machine says |
| HamUri.UriPrivate.Parse | libhamcast/src/uri.cpp:207-265 | the loop ends in exactly the components that ComponentsOfUri gives, or in the empty URI |
| HamUri.UriCache.Lookup | libhamcast/src/serialization.cpp:46-69 | the cache always answers like direct parsing, keeps its entries while there is room, and is cleared at 50 |
| BobHash.MixIsBijective | programs/pktgen/bobhash.c:38-49 | mixing is a bijection on triples of 32-bit words |
| BobMix.MixRegisters | programs/pktgen/bobhash.c:38-49 | the nine lines on registers of 32 bits, with shifts by places, exclusive or on each bit and subtraction with borrow, compute the mixing of the hash on the numbers the registers stand for |
| BobMix.XorNumber | programs/pktgen/bobhash.c:40-48 | the exclusive or of two words has exactly the bits set that are set in one of them |
| BobMix.BlockWords | programs/pktgen/bobhash.c:93-102 | a full block adds its twelve bytes as three numbers modulo 2^32, lowest byte first |
| BobMix.TailWords | programs/pktgen/bobhash.c:104-120 | the last block adds the bytes it has at their places, those of the third number one place higher, and the length of the key |
| BobMix.BlockByBlock | programs/pktgen/bobhash.c:86-122 | every key starts with twice the golden ratio and the initial value, and mixes once for each full block from the front and once for the rest |
| BobHash.OneBlockMatters | programs/pktgen/bobhash.c:93-102 | keys of one length that differ in exactly one block end in different states |
| BobHash.TailMatters | programs/pktgen/bobhash.c:104-122 | keys of one length that differ only in the tail end in different states |
| BobHash.InitvalMatters | programs/pktgen/bobhash.c:86-91 | different initial values end in different states for every key |
| BobHash.Hash | programs/pktgen/bobhash.c:79-123 | the block loop and the fall-through compute the state that the mixing, the key's words and its tail determine |
| BobHash.AddLastBytes | programs/pktgen/bobhash.c:105-120 | the fall-through adds the length and the tail as little-endian words, leaving the lowest byte of the last word to the length |

## Left out

- Runs beyond 2^32 - 126 messages per socket: the refill's iteration can be undefined there (SendWindow.LimitIsExact).
- More than one socket in the send protocol: sockets share no protocol state, and a session handles their messages one by one.
- Streams in the step system: numbering and counters are per socket, and the classes reject an unknown stream.
- A change of a socket's interfaces while jobs are under way: jobs could then finish out of order.
- The client credit semaphore `m_out_buffer` in the results about all runs: it only delays the application, which the step system leaves free; `SendCredit` has it.
- Failing module calls and the mapping cache `uri_mappings`: a mapping is a function of interface and group.
- Membership.MembershipAgreement: assumes that changes of interfaces keep memberships right and that no group is left while another joined one is mapped alike; TotalOrderKeeps, NoOrderAlways and LeaveExactly state exactly when.
- SendWindow.LimitIsExact: speaks of the states the window invariant admits, not of reachable ones.
- The module tables are values in `Membership`; the objects and their locking are `JoinTable.TechModule` and `RwSpinlock`.
- `m_fjoins` of a technology module: nothing reads it.
- Subscribers to membership events, and the content of events on the client side beyond the parser.
- Changes of the client's socket set by a response while parsing: the set is fixed within a run of the parser.
- Sizes of 2^31 bytes or more, where signed conversions would matter.
- The ipv4 and ipv6 flags and the numeric port of a URI, which are derived from its authority by other libraries.
- Retransmission with more than one request: a later request can ask for the skipped number again.
- Limits on single messages from the 5 MiB buffers at both ends of the connection in the send protocol.
- The end of the session loop, connection loss, and `fake_client_channel`.
- Memory ordering weaker than interleaving.
- Dafny's own bit-vectors: the mixing macro is stated on registers as strings of 32 bits.
- Sockets, poll, files, threads as system objects, module loading, logging and configuration: input and output plumbing.
- The synchronous function dispatch except `delete_socket`: type plumbing.
- The Java API, the technology modules, the demo programs and graphical tools.
