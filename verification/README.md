# Tudou, proved

A Dafny model of the byte-moving and scheduling core of the Tudou network library, with proofs of the
laws its components rely on. `dafny verify dfyconfig.toml` checks all of it.

The operating system is an oracle: each system call takes its outcome (how many bytes moved, would
block, error; which clock reading; what arrived) as a parameter or as an arbitrary value, so every
statement holds for every behaviour of the kernel and of the peer.

**Bytes.** `Buffer` keeps the sliding-window array with its compaction and growth, and
`BufferRefinement` shows that over any calls it is a plain byte queue in bounded memory.
`TcpConnection` is the three-way send machine (direct write, gathered write, backlog followed by a
file). It refines `SendFlow`, where sending appends to one queue and the kernel takes a prefix;
`SendRuns` proves conservation, order, exact callbacks and draining over whole runs.

**Scheduling.** `LoopProtocol` is the task hand-off as small steps of any number of threads;
`EventLoop` is the loop's own code with arbitrary interference between its sections, and each of its
runs is a run of the protocol. `TimerQueue` has its two indexes, deliberately out of step while a
batch of re-entrant callbacks runs; `TimerHistory` turns the spacing of runs into bounds.

**Binary RPC.** `BinaryRpcCodec` and `BigEndian` are the 20-byte frame, `RpcFraming` a stream of
frames however it is cut, `BinaryRpcServer` the half-packet loop, `ChannelProtocol` and
`ChannelSafety` the multiplexed client connection as a protocol among callers, receiver and
destructor, and `BinaryRpcChannel` the code whose runs are runs of that protocol.

**Connections.** `ShardProtocol`, `ShardSafety` and `TcpServer` are the per-loop connection tables
with their shared counter and the drain at shutdown, in the same style.

`ServedLog` is what two of the servers have in common: each item is answered at once, and each
connection sees its own answers only.

**Text protocols.** `LineFraming` and `JsonRpcServer` are newline framing. `HttpAssembly` and
`HttpContext` build requests from parser callbacks in any fragmentation, `HttpPipeline` and
`HttpServer` answer pipelined requests over an abstract incremental parser that pauses at the end of
each message, `HttpDelivery` follows the answers down the send path, and `HttpRouter` and
`AllowHeader` check the routing tables against the plain list of registrations. HTTP text is a
sequence of characters, one per byte.

How the layers meet: a class method's postcondition ties its new state to a function of the old one
(`View() == Send(old(View()), ...)`), and the lemmas are about those functions. A concurrent object
holds the protocol's state, changes it one atomic section at a time, and remembers the path it took
(`Paths`); `Valid()` says that it is where that path leads, so every lemma about reachable states
applies to it. Its methods are the program's, with other threads let in between any two sections.

Four findings. A file send ends without an error, and reports completion, when `sendfile` moves
nothing: a run has sent what it promised exactly when every file reaches as far as announced (which
a caller can see beforehand) and no file lost bytes while it was pending. An answer sent while a file
answer is pending breaks the connection, so pipelined answers arrive exactly when that does not
happen. `shutdown_connections` may return from its wait while a connection is still about to be
registered, and its shards are empty for good exactly when none is; the drain tasks give the
guarantee the wait does not. And the length fields are truncated silently, so the codec round trip
holds exactly for parts below 2^32 bytes.

Where code and comments disagree the code is followed: decoding checks the magic but not the
version. After a 400 answer the connection is closed, because the ready-made answers ask for it.

## Model

| member | source | states |
|---|---|---|
| Buffers.Buffer.constructor | src/tudou/tcp/Buffer.cpp:24-32 | an empty queue in an array of 8 plus the initial size |
| Buffers.Buffer.MaintainReadIndex | src/tudou/tcp/Buffer.cpp:131-143 | drops the first `len` bytes of the queue, or all of them when `len` reaches its length |
| Buffers.Buffer.ReadFromBuffer | src/tudou/tcp/Buffer.cpp:36-47 | the returned string followed by what is left is the old queue; a request beyond the readable length is truncated, not refused |
| Buffers.Buffer.ReadAll | src/tudou/tcp/Buffer.cpp:49-51 | returns the whole queue and leaves it empty |
| Buffers.Buffer.AdvanceReadIndex | src/tudou/tcp/Buffer.cpp:53-56 | consumes exactly `len` readable bytes |
| Buffers.Buffer.MakeSpace | src/tudou/tcp/Buffer.cpp:145-159 | whether by compaction or by growth, the readable bytes are unchanged and `len` bytes fit behind them; the array is replaced exactly when the free zones together are too small |
| Buffers.Buffer.WriteToBuffer | src/tudou/tcp/Buffer.cpp:58-69 | appends to the queue; together with the class invariant `8 <= readIndex <= writeIndex <= size` and the capacity bound |
| Buffers.Buffer.ReadFromFd | src/tudou/tcp/Buffer.cpp:76-100 | appends everything `readv` delivered, in order, the overflow through the stack block included; an error leaves the queue alone and reports errno |
| Buffers.Buffer.WriteToFd | src/tudou/tcp/Buffer.cpp:102-113 | what leaves the queue is what the wire gained |
| BufferRefinement.QueueIsFifo | src/tudou/tcp/Buffer.cpp:36-113 | on the abstract queue: what went in equals what came out followed by what is left |
| BufferRefinement.Perform | src/tudou/tcp/Buffer.cpp:36-113 | one call on the real buffer is the matching event on a plain byte queue |
| BufferRefinement.Replay | src/tudou/tcp/Buffer.cpp:36-159 | for every sequence of calls the array buffer simulates the plain queue, and its array never exceeds max(8 + initial size, 2P + 7), P the longest the plain queue ever was |
| TcpConnections.TcpConnection.SendInLoop | src/tudou/tcp/TcpConnection.cpp:92-179 | the direct write, the gathered write and the buffered path are all "append, then let the kernel take a prefix of everything unsent", with callbacks and write interest |
| TcpConnections.TcpConnection.WriteDirect | src/tudou/tcp/TcpConnection.cpp:105-129 | the path without backlog: a full write completes, a hard error aborts, anything else leaves the rest of the message to be buffered |
| TcpConnections.TcpConnection.WriteGathered | src/tudou/tcp/TcpConnection.cpp:131-166 | the `writev` path: old bytes are consumed before new ones count as written |
| TcpConnections.TcpConnection.SendFileInLoop | src/tudou/tcp/TcpConnection.cpp:205-244 | a file is attached behind the backlog, or sent at once when nothing is unsent; invalid, irregular or second files abort the connection |
| TcpConnections.TcpConnection.SendFileWithHeaderInLoop | src/tudou/tcp/TcpConnection.cpp:246-288 | header behind the backlog, file behind the header |
| TcpConnections.TcpConnection.SendPendingFileInLoop | src/tudou/tcp/TcpConnection.cpp:403-440 | one `sendfile`: a prefix of the rest moves to the wire; moving nothing abandons the rest |
| TcpConnections.TcpConnection.OnWrite | src/tudou/tcp/TcpConnection.cpp:370-401 | flushes backlog, then file, then reports completion and drops write interest |
| TcpConnections.TcpConnection.CloseConnection | src/tudou/tcp/TcpConnection.cpp:455-474 | closes once: end of stream to the peer, no more interest, one close callback |
| SendRuns.StepConserves | src/tudou/tcp/TcpConnection.cpp:92-440 | every single event keeps wire ++ backlog ++ file remainder equal to what was owed plus what it accepted, less what it abandoned at the end |
| SendRuns.Conservation | src/tudou/tcp/TcpConnection.cpp:92-440 | over every run and every kernel behaviour, wire ++ backlog ++ file remainder is the concatenation of the accepted bytes in call order (of a file, the bytes it has in the promised range) if and only if no file lost bytes it had |
| SendRuns.PromisesAddUp | src/tudou/tcp/TcpConnection.cpp:92-440 | over every run, sent, still promised and silently dropped bytes add up to the promised ones, a file counting for its whole announced size |
| SendRuns.DeliveredAsPromised | src/tudou/tcp/TcpConnection.cpp:403-440 | a run that ends open with nothing left to send has sent all it promised if and only if every file taken on has offset + size within its content and no file lost bytes it had (and none short was pending at the start) |
| SendRuns.ShortFileIsSilent | src/tudou/tcp/TcpConnection.cpp:423-427 | a file shorter than announced: a run ends with nothing sent, completion reported and no error |
| SendRuns.AbandonedRestIsSilent | src/tudou/tcp/TcpConnection.cpp:423-427 | a file that loses bytes while pending: the rest is dropped, completion reported and no error |
| SendRuns.WireIsPrefix | src/tudou/tcp/TcpConnection.cpp:92-440 | when no file lost bytes it had, the wire is a prefix of what was accepted |
| SendRuns.WireWithinAccepted | src/tudou/tcp/TcpConnection.cpp:92-440 | over every run without exception, the wire is what was accepted with some bytes left out: nothing repeated, nothing reordered |
| SendRuns.CallbacksExact | src/tudou/tcp/TcpConnection.cpp:105-178 | each event fires exactly the callbacks that its before and after states call for: write-complete only with nothing unsent, high-water only on crossing the mark |
| SendRuns.BreaksExactly | src/tudou/tcp/TcpConnection.cpp:98-440 | said of the state before and the kernel's answers alone: an event closes an open connection if and only if it is a force close, a send meeting a pending file, an unusable file, or a system call it makes fails; then error and close callbacks follow |
| SendRuns.OpenUnlessBroken | src/tudou/tcp/TcpConnection.cpp:92-474 | over every run: still open exactly when no event so far was one that breaks |
| SendRuns.WireGrowsExactly | src/tudou/tcp/TcpConnection.cpp:92-440 | each event puts just as many bytes on the wire as the kernel takes of what that event offers it |
| SendRuns.ClipIsRange | src/tudou/tcp/TcpConnection.cpp:409-410 | the range of a file that is sent |
| SendRuns.DrainMeasure | src/tudou/tcp/TcpConnection.cpp:370-440 | a writable event in which the kernel takes a byte strictly decreases backlog plus file remainder |
| SendRuns.TakingMakesProgress | src/tudou/tcp/TcpConnection.cpp:370-440 | with a kernel that takes something each time, an open connection is done or strictly nearer to it |
| SendRuns.Drains | src/tudou/tcp/TcpConnection.cpp:370-440 | such a connection drains within as many writable events as it is owing bytes, and then every byte it held is on the wire; what a file lacked of its announced size is not |
| SendRuns.Replay | src/tudou/tcp/TcpConnection.cpp:92-440 | the class follows the simple flow over every run, and between events write interest is on exactly when an open connection has backlog or a file pending |
| BigEndian.ThereAndBack | src/tudou/rpc/binary/BinaryRpcCodec.cpp:24-29 | a number below 256^width survives encoding and decoding |
| BigEndian.BackAndThere | src/tudou/rpc/binary/BinaryRpcCodec.cpp:92-97 | every byte string is the encoding of the number it decodes to |
| BigEndian.ByteAt | src/tudou/rpc/binary/BinaryRpcCodec.cpp:24-29 | the most significant byte comes first: which power of 256 each byte counts |
| BinaryRpcCodec.HeaderThereAndBack | src/tudou/rpc/binary/Protocol.h:52-59 | every header survives its 20-byte layout |
| BinaryRpcCodec.HeaderBackAndThere | src/tudou/rpc/binary/Protocol.h:52-59 | every 20 bytes are the layout of exactly one header |
| BinaryRpcCodec.FrameLayout | src/tudou/rpc/binary/Protocol.h:41-60 | which byte of an encoded frame holds what: magic 54 44, version, type, big-endian id and lengths at their places, then metadata and body |
| BinaryRpcCodec.VerdictsInBytes | src/tudou/rpc/binary/BinaryRpcCodec.cpp:49-71 | in bytes: Empty below 20, error exactly for 20 bytes with a wrong magic, half packet exactly while fewer bytes than the two length fields announce are there |
| BinaryRpcCodec.Encode | src/tudou/rpc/binary/BinaryRpcCodec.cpp:18-43 | appends the frame to whatever the buffer holds, the length fields truncated to 32 bits |
| BinaryRpcCodec.Decode | src/tudou/rpc/binary/BinaryRpcCodec.cpp:45-100 | the verdict of the pure parse on the buffer contents; only a complete frame is consumed, and exactly it |
| BinaryRpcCodec.ParseEncoded | src/tudou/rpc/binary/BinaryRpcCodec.cpp:18-100 | an encoded message followed by anything parses as that message |
| BinaryRpcCodec.RoundTrip | src/tudou/rpc/binary/BinaryRpcCodec.cpp:18-100 | decoding after encoding recovers type, id, metadata and body and leaves the suffix, for every suffix, if and only if both lengths fit 32 bits |
| BinaryRpcCodec.ProperPrefix | src/tudou/rpc/binary/BinaryRpcCodec.cpp:49-71 | every proper prefix of a frame is Empty or HalfPack, by its length alone |
| BinaryRpcCodec.PrefixStable | src/tudou/rpc/binary/BinaryRpcCodec.cpp:49-71 | a verdict of frame or corruption does not change when more bytes arrive, and a frame takes at least 20 bytes |
| BinaryRpcCodec.FrameSpelling | src/tudou/rpc/binary/BinaryRpcCodec.cpp:54-97 | a parsed frame is spelled by exactly one byte string |
| RpcFraming.ConsumeSplit | src/tudou/rpc/binary/BinaryRpcServer.cpp:63-121 | reading on from a kept residue equals never having stopped |
| RpcFraming.ChunkingIndependence | src/tudou/rpc/binary/BinaryRpcServer.cpp:57-122 | for every split of a stream into deliveries: same requests, same residue, same point of failure as the stream read at once |
| RpcFraming.SameStreamSameSession | src/tudou/rpc/binary/BinaryRpcServer.cpp:57-122 | two ways of cutting one stream cannot be told apart |
| RpcFraming.ResidueIsIncomplete | src/tudou/rpc/binary/BinaryRpcServer.cpp:105-121 | what is kept is a suffix of the stream that holds no complete frame |
| RpcFraming.CorruptExactly | src/tudou/rpc/binary/BinaryRpcServer.cpp:79-117 | a stream breaks if and only if behind some whole good frames come 20 bytes with a wrong magic or a frame whose metadata does not parse |
| RpcFraming.EncodedStreamDecodes | src/tudou/rpc/binary/BinaryRpcCodec.cpp:18-100 | a stream of encoded messages and a part of one more is read back as exactly those messages |
| BinaryRpcServers.BinaryRpcServer.OnMessage | src/tudou/rpc/binary/BinaryRpcServer.cpp:57-122 | one delivery moves its connection as the stream specification says, the log keeping each request's own answer beside it, and touches no other connection |
| BinaryRpcServers.BinaryRpcServer.DecodeLoop | src/tudou/rpc/binary/BinaryRpcServer.cpp:76-113 | the loop dispatches all complete frames and leaves the residue, or stops at the first corrupt one |
| BinaryRpcServers.BinaryRpcServer.Dispatch | src/tudou/rpc/binary/BinaryRpcServer.cpp:88-103 | a request is routed; its response, if any, is a frame with the request's own sequence id |
| BinaryRpcServers.BinaryRpcServer.OnClose | src/tudou/rpc/binary/BinaryRpcServer.cpp:124-127 | forgets the residue of this connection only |
| BinaryRpcServers.RepliesAreMessages | src/tudou/rpc/binary/BinaryRpcServer.cpp:93-97 | the bytes sent are the response messages, one per answered request, in order |
| BinaryRpcServers.EachReplyEchoes | src/tudou/rpc/binary/BinaryRpcServer.cpp:88-97 | one response per answered request, in order, with that request's id and its handler's bytes |
| BinaryRpcServers.RepliesDecode | src/tudou/rpc/binary/BinaryRpcServer.cpp:93-97 | a client reading the answers in any chunks sees exactly one response per answered request, in order, each with its request's id |
| BinaryRpcServers.Serve | src/tudou/rpc/binary/BinaryRpcServer.cpp:57-122 | for every interleaving of deliveries to any number of connections, each is served as if alone and at once, and force-closed exactly when its own stream goes wrong |
| ChannelSafety.AlwaysAccounted | src/tudou/rpc/binary/BinaryRpcChannel.cpp:160-207 | in every interleaving: at most one completion a call, only registered calls without a result in the table, and no registered call forgotten unless it withdrew |
| ChannelSafety.InOnePlace | src/tudou/rpc/binary/BinaryRpcChannel.cpp:160-256 | in the table, being completed and having a result exclude each other pairwise; a registered call is in one of the three or withdrew, and one that withdrew is out of the table |
| ChannelSafety.WithdrawnWithResult | src/tudou/rpc/binary/BinaryRpcChannel.cpp:171-179 | a run exists in which a call withdraws although a cleanup has already given it a result |
| ChannelSafety.AtMostOnceByOwnFrame | src/tudou/rpc/binary/BinaryRpcChannel.cpp:224-256 | each call is completed at most once, and with a value only by a received frame with its own sequence id and a body that parses |
| ChannelSafety.MatchedGetsResult | src/tudou/rpc/binary/BinaryRpcChannel.cpp:230-256 | a decoded response that finds its own id in the table is from then on either being handed over or has given the call its result: the value exactly when the body parses, else the parse exception |
| ChannelSafety.CompletionIsOneStep | src/tudou/rpc/binary/BinaryRpcChannel.cpp:246-256 | the handover takes one step of the receiver, whatever the other threads did in between |
| ChannelSafety.ResultIsFinal | src/tudou/rpc/binary/BinaryRpcChannel.cpp:232-256 | no later step takes a result back or replaces it |
| ChannelSafety.StrayResponseIsIgnored | src/tudou/rpc/binary/BinaryRpcChannel.cpp:232-246 | a response for an id that is not in the table changes no call and no entry |
| ChannelSafety.AbandonedOnlyByCleanup | src/tudou/rpc/binary/BinaryRpcChannel.cpp:269-285 | a call is abandoned only by a cleanup that found it in the table |
| ChannelSafety.CleanupFailsAll | src/tudou/rpc/binary/BinaryRpcChannel.cpp:269-285 | every cleanup empties the table, and every call it found there stays abandoned |
| ChannelSafety.StoppedReadsNoMore | src/tudou/rpc/binary/BinaryRpcChannel.cpp:217-220 | once the running flag is down and no read is under way the receiver never reads again |
| ChannelSafety.AlwaysMatched | src/tudou/rpc/binary/BinaryRpcChannel.cpp:210-267 | every result came from a decoded frame, and the decoded frames are those of the received stream |
| ChannelSafety.AlwaysFramed | src/tudou/rpc/binary/BinaryRpcChannel.cpp:184-193 | while no write failed inside a frame, the wire is whole request frames in lock order followed by the written part of the lock holder's |
| ChannelSafety.WireDecodes | src/tudou/rpc/binary/BinaryRpcChannel.cpp:184-193 | a server reading such a wire in any chunks sees exactly the requests written whole, and at most a proper prefix of one more |
| ChannelSafety.TornOnlyInsideFrame | src/tudou/rpc/binary/BinaryRpcChannel.cpp:184-192 | the wire counts as torn only if a write failed with part of its frame already taken |
| ChannelSafety.TeardownLeavesNobodyWaiting | src/tudou/rpc/binary/BinaryRpcChannel.cpp:91-109 | once the destructor's cleanup has run, the table is empty for good and every registered call has a result or withdrew |
| BinaryRpcChannels.BinaryRpcChannel.CallMethod | src/tudou/rpc/binary/BinaryRpcChannel.cpp:158-207 | with other threads between any two sections: which ends are possible and why (a value only from a parsing response of its own, abandonment only by a cleanup that found the call pending), the request is the caller's under its own id, how far its frame got, a call that has ended is out of the table, and after destruction nobody is left blocked without a result |
| BinaryRpcChannels.BinaryRpcChannel.Enter | src/tudou/rpc/binary/BinaryRpcChannel.cpp:116-168 | the call gets the next sequence id and is registered under it, or refused, and then the channel is closed |
| BinaryRpcChannels.BinaryRpcChannel.WriteAll | src/tudou/rpc/binary/BinaryRpcChannel.cpp:182-199 | it fails exactly when a write is refused before the frame is out; otherwise a kernel that takes enough bytes gets the whole frame and the lock is released, and one that does not has taken just so many |
| BinaryRpcChannels.BinaryRpcChannel.ReceiveLoop | src/tudou/rpc/binary/BinaryRpcChannel.cpp:210-267 | every byte read is accounted for; whenever the receiver is back at its top on an open channel all complete responses received have been decoded; it leaves only when stopped or at the end of the stream |
| BinaryRpcChannels.BinaryRpcChannel.CleanupPendingRequests | src/tudou/rpc/binary/BinaryRpcChannel.cpp:269-285 | the loop over the table gives every pending promise one exception, touches no other call, and empties the table |
| BinaryRpcChannels.BinaryRpcChannel.Destroy | src/tudou/rpc/binary/BinaryRpcChannel.cpp:91-109 | past the join, the destructor leaves an empty table and no registered call without a result |
| BinaryRpcChannels.BinaryRpcChannel.CallSettled | src/tudou/rpc/binary/BinaryRpcChannel.cpp:158-207 | a refused, withdrawn or returned call is not in the table |
| LoopProtocol.AlwaysInv | src/tudou/reactor/EventLoop.cpp:60-193 | executed ++ batch ++ pending equals the tasks in push order, and no wakeup is lost, in every interleaving of any number of producers |
| LoopProtocol.WakeupGuarantee | src/tudou/reactor/EventLoop.cpp:60-73 | a loop blocked in poll over a pending task (or an outside quit) has a producer between its push and its eventfd write |
| LoopProtocol.NothingLeftBehind | src/tudou/reactor/EventLoop.cpp:115-193 | whatever was pushed before poll returned is executed before the loop can block again |
| LoopProtocol.EveryTaskInOrder | src/tudou/reactor/EventLoop.cpp:115-193 | what has run, is being run and waits is just the sequence of tasks handed over, by a count of the calls themselves |
| LoopProtocol.QuitRaisesFlag | src/tudou/reactor/EventLoop.cpp:90-96 | a call of quit puts the flag up, and an outside one owes a wakeup |
| LoopProtocol.QuitIsHeeded | src/tudou/reactor/EventLoop.cpp:64 | once up the flag stays up, and the loop never enters poll again: it leaves at its next check |
| LoopProtocol.QuietUntilWritten | src/tudou/reactor/EventLoop.cpp:169-175 | once read, the eventfd stays quiet until somebody writes it |
| EventLoops.EventLoop.QueueInLoop | src/tudou/reactor/EventLoop.cpp:115-130 | the task is pushed at once, behind all earlier ones; while functors run the extra wakeup follows |
| EventLoops.EventLoop.Interfere | src/tudou/reactor/EventLoop.cpp:90-130 | whatever other threads do between two sections of the loop, its place, its batch and what has run stay as they are, and the pushed tasks only grow at the end |
| EventLoops.EventLoop.DoPendingFunctors | src/tudou/reactor/EventLoop.cpp:177-193 | the queue is swapped out in one section and run in order; everything pushed by the last poll has been executed |
| EventLoops.EventLoop.Loop | src/tudou/reactor/EventLoop.cpp:60-73 | for any number of turns and any interference, executed ++ pending is the pushed sequence, and one turn executes all that was queued before it |
| TimerHistory.WindowBound | src/tudou/timer/TimerQueue.cpp:121-126 | at most width / interval + 1 starts of a repeating timer fall into any window |
| TimerHistory.StartsFarApart | src/tudou/timer/Timer.cpp:25-27 | the i-th and j-th start are at least (j - i) intervals apart |
| TimerHistory.RescheduleKeepsSpacing | src/tudou/timer/Timer.cpp:25-27 | rescheduled to its interval after the end of its last run, a timer may wait, and its next start keeps the spacing |
| TimerHistory.ToTimespec | src/tudou/timer/TimerQueue.cpp:21-35 | seconds and nanoseconds add up exactly to max(duration, 1 ms), nanoseconds below a second, never both zero |
| TimerQueues.TimerQueue.CreateTimer | src/tudou/timer/TimerQueue.cpp:57-59 | a fresh id; neither index changes yet |
| TimerQueues.TimerQueue.InsertTimer | src/tudou/timer/TimerQueue.cpp:62-68 | the timer enters both indexes, nothing else in them changes, and the timerfd is set anew |
| TimerQueues.TimerQueue.EraseTimer | src/tudou/timer/TimerQueue.cpp:72-84 | whatever the indexes hold under the id leaves them, nothing else does, and a timer that was found is cancelled for good, also out of a running batch |
| TimerQueues.TimerQueue.SyncTimerfd | src/tudou/timer/TimerQueue.cpp:131-157 | armed exactly when something is queued, not before the first expiration and not after max(it, reading + 1 ms) by more than the time between reading and setting |
| TimerQueues.TimerQueue.Collect | src/tudou/timer/TimerQueue.cpp:90-100 | the batch is exactly the due entries, in order of expiration; the id index keeps them |
| TimerQueues.TimerQueue.RunBatch | src/tudou/timer/TimerQueue.cpp:103-126 | under re-entrant callbacks each batch member runs once or was cancelled first, a repeating one is due again one interval after its run, and the coupling of the indexes holds throughout |
| TimerQueues.TimerQueue.OnTimerfdRead | src/tudou/timer/TimerQueue.cpp:87-129 | every live timer due at the reading runs exactly once or was cancelled before its turn; no other runs and none of those changes its expiration; a repeating one that ran and was not cancelled is due again exactly one interval after a reading since its end; the timerfd is set anew |
| TimerQueues.TimerQueue.Dispose | src/tudou/timer/TimerQueue.cpp:111-126 | only the timer that ran may change its expiration, and only by going back into the queue one interval after a reading since its run ended |
| TimerQueues.DueMeaning | src/tudou/timer/TimerQueue.cpp:93-97 | due are the timers in the id index whose expiration is not after the reading |
| TimerQueues.TimerQueue.IndexesAgree | src/tudou/timer/TimerQueue.cpp:57-129 | outside a batch the two indexes are in bijection, each key being its timer's expiration |
| TimerQueues.TimerQueue.RunBounds | src/tudou/timer/TimerQueue.cpp:87-129 | in every valid state: a one-shot ran at most once, a repeating timer within the window bound, a cancelled one never again |
| TimerQueues.Replay | src/tudou/timer/TimerQueue.cpp:57-129 | over every sequence of events and callbacks the queue stays valid, runs only accumulate and cancellation is final |
| ShardSafety.AlwaysInv | src/tudou/tcp/TcpServer.cpp:186-362 | in every interleaving the counter is the sum of shard sizes corrected by the operations half done |
| ShardSafety.CountAtTaskBoundaries | src/tudou/tcp/TcpServer.cpp:233-235 | with every loop between tasks, the counter is the sum of the shard sizes |
| ShardSafety.SubtractedExactlyOnce | src/tudou/tcp/TcpServer.cpp:279-301 | a connection is counted at most once and uncounted at most once, and is in its own loop's shard exactly between the two |
| ShardSafety.DrainedStaysEmpty | src/tudou/tcp/TcpServer.cpp:336-356 | a shard whose loop has run its drain task is empty and stays empty |
| ShardSafety.AllDrained | src/tudou/tcp/TcpServer.cpp:325-362 | once every loop has, all shards stay empty, the counter is zero and every account is closed |
| ShardSafety.WaitIsNotLost | src/tudou/tcp/TcpServer.cpp:351-361 | once every drain task has run and notified, the counter is zero and the main thread does not sleep in its wait |
| ShardSafety.StoppedTakesNoMore | src/tudou/tcp/TcpServer.cpp:90-94 | once out of its running state the server stays out, and only connections already past their second check are still registered |
| ShardSafety.StopStops | src/tudou/tcp/TcpServer.cpp:90-94 | stop, or the shutdown itself, takes the server out of its running state for good |
| ShardSafety.NoSocketLost | src/tudou/tcp/TcpServer.cpp:159-175 | a socket accepted while the server runs waits in its loop's queue or has had its create task started |
| ShardSafety.WhatWaitReturnMeans | src/tudou/tcp/TcpServer.cpp:358-361 | when the wait may return, all shards are empty for good if and only if no loop is inside create_connection past its second state check |
| ShardSafety.WaitCanReturnEarly | src/tudou/tcp/TcpServer.cpp:228-235 | a run exists in which the wait returns while a connection is about to be registered |
| TcpServers.TcpServer.CreateConnection | src/tudou/tcp/TcpServer.cpp:186-245 | a connection joins this loop's shard and nothing else changes there, or it is dropped, and then the server is no longer running |
| TcpServers.TcpServer.RemoveConnection | src/tudou/tcp/TcpServer.cpp:279-301 | afterwards the connection is out of the shard and its account closed, whether or not it was still there |
| TcpServers.TcpServer.DrainTask | src/tudou/tcp/TcpServer.cpp:339-349 | a drain task that gets the mutex ends with its shard empty and the waiting thread awake; one that does not changes nothing |
| TcpServers.TcpServer.ShutdownConnections | src/tudou/tcp/TcpServer.cpp:325-362 | every drain task is posted before the wait; when it returns, the counter is zero and either all shards are empty or some loop is past the second check; asleep, it is still to be notified |
| LineFraming.CutIsExact | src/tudou/rpc/json/JsonRpcServer.cpp:55-69 | cutting at newlines loses nothing and leaves no newline in a segment or in the residue |
| LineFraming.CutIsUnique | src/tudou/rpc/json/JsonRpcServer.cpp:55-69 | there is no other such cut |
| LineFraming.LinesMeaning | src/tudou/rpc/json/JsonRpcServer.cpp:69-72 | the lines are the nonempty segments: all of them when none is empty, and never an empty one |
| LineFraming.EmptySegmentsVanish | src/tudou/rpc/json/JsonRpcServer.cpp:69-72 | an empty segment makes no difference to the lines around it |
| LineFraming.CutSplit | src/tudou/rpc/json/JsonRpcServer.cpp:52-60 | cutting on from the kept residue equals cutting everything at once |
| LineFraming.LineChunkingIndependence | src/tudou/rpc/json/JsonRpcServer.cpp:45-82 | for any chunking the lines are the nonempty terminated segments of the whole stream, in order |
| LineFraming.AnyChunkingOfSegments | src/tudou/rpc/json/JsonRpcServer.cpp:45-82 | a stream written as newline-free segments yields just the nonempty ones and keeps the unterminated rest |
| JsonRpcServers.Find | src/tudou/rpc/json/JsonRpcServer.cpp:57 | the first newline, or none |
| JsonRpcServers.JsonRpcServer.DispatchLine | src/tudou/rpc/json/JsonRpcServer.cpp:63-80 | one line leaves the buffer; an empty one is skipped, a notification gets no answer |
| JsonRpcServers.JsonRpcServer.DispatchLines | src/tudou/rpc/json/JsonRpcServer.cpp:55-81 | the loop handles exactly the lines of the buffer and keeps the residue |
| JsonRpcServers.JsonRpcServer.OnMessage | src/tudou/rpc/json/JsonRpcServer.cpp:45-82 | one delivery moves its connection as the stream specification says and no other |
| ServedLog.SentAreAnswers | src/tudou/rpc/json/JsonRpcServer.cpp:72-80 | the bytes sent on a connection are the answers to its own items, in order: for lines, the nonempty responses, each ended by a newline |
| ServedLog.HandledShows | src/tudou/rpc/json/JsonRpcServer.cpp:51-80 | handling items of one connection shows on that connection, in order, and on no other |
| JsonRpcServers.Serve | src/tudou/rpc/json/JsonRpcServer.cpp:45-87 | for every interleaving of deliveries each connection is served as if alone and at once |
| JsonRpcServers.AnswersAreLines | src/tudou/rpc/json/JsonRpcServer.cpp:74-80 | what is sent is the nonempty responses, each ended by a newline |
| JsonRpcServers.ClientReadsResponses | src/tudou/rpc/json/JsonRpcServer.cpp:74-80 | a client reading line by line in any chunks gets just the responses, as long as none contains a newline |
| HttpRouters.HttpRouter.AddRoute | src/tudou/http/HttpRouter.cpp:54-58 | table and index both follow the longer registration log |
| HttpRouters.HttpRouter.AddPrefixRoute | src/tudou/http/HttpRouter.cpp:72-75 | the prefix joins at the end of the priority order |
| HttpRouters.HttpRouter.Dispatch | src/tudou/http/HttpRouter.cpp:27-52 | the tables answer every request as a scan of the registrations does: exact, else 405, else prefix, else 404 |
| HttpRouters.HttpRouter.FindPrefixHandler | src/tudou/http/HttpRouter.cpp:145-154 | the scan finds the first registered prefix that covers the path |
| HttpRouters.HttpRouter.WriteMethodNotAllowed | src/tudou/http/HttpRouter.cpp:103-120 | a custom handler wins; the default carries the Allow header of the path's methods |
| HttpRouters.LastExactMeaning | src/tudou/http/HttpRouter.cpp:85-92 | the exact handler is that of a matching registration no later one replaces |
| HttpRouters.FirstPrefixMeaning | src/tudou/http/HttpRouter.cpp:145-154 | the prefix handler is that of a covering registration with no covering one before it |
| HttpRouters.MethodsAreExact | src/tudou/http/HttpRouter.cpp:54-58 | a method is allowed on a path exactly when it has an exact handler there |
| HttpRouters.OutcomeExactly | src/tudou/http/HttpRouter.cpp:27-52 | said of the registrations alone: not allowed exactly when the path has routes but not for this method, whatever prefixes there are; matched exactly with a route of its own, or no route for the path and a covering prefix; else not found |
| HttpRouters.AnswerExactly | src/tudou/http/HttpRouter.cpp:27-52 | whose answer it is: the latest exact route's, the earliest covering prefix's, the latest not-allowed or not-found handler's, or the ready-made 405 or 404 in full |
| HttpRouters.StartsWithMeaning | src/tudou/http/HttpRouter.cpp:148-149 | a prefix covers just the paths that continue it |
| HttpRouters.IndexIsProjection | src/tudou/http/HttpRouter.cpp:54-58 | after any registrations the method index is exactly the projection of the route table |
| HttpRouters.AllowIsComplete | src/tudou/http/HttpRouter.cpp:103-143 | the default 405 lists every method of the path once, sorted, and not the one asked for (section 15.5.6 of RFC 9110) |
| AllowHeader.AscendingIsSorted | src/tudou/http/HttpRouter.cpp:127-133 | the ordered methods are sorted, free of duplicates and complete |
| AllowHeader.SortedIsUnique | src/tudou/http/HttpRouter.cpp:127-133 | only one such order exists, so the set's iteration order cannot show |
| AllowHeader.LeqMeaning | src/tudou/http/HttpRouter.cpp:133 | the order is dictionary order: decided at the first difference, or by one word ending |
| AllowHeader.JoinedIsEmpty | src/tudou/http/HttpRouter.cpp:116-119 | the value is empty, and the header omitted, only for the single empty method name |
| AllowHeader.FormatAllowHeader | src/tudou/http/HttpRouter.cpp:122-143 | the loop computes the joined ordered methods |
| HttpAssembly.TargetSplits | src/tudou/http/HttpContext.cpp:110-118 | path and query split the target at its first question mark and lose nothing else |
| HttpAssembly.MergeIsSame | src/tudou/http/HttpContext.cpp:70-103 | two adjacent pieces of one item and their concatenation leave the same context |
| HttpAssembly.FieldPieces | src/tudou/http/HttpContext.cpp:82-88 | however a name is cut, the header before it is committed once and the pieces add up |
| HttpAssembly.ValuePieces | src/tudou/http/HttpContext.cpp:90-96 | however a value is cut, the pieces add up and the header can be committed |
| HttpAssembly.PiecesApply | src/tudou/http/HttpContext.cpp:82-96 | a header cut into any pieces is committed once, whole; body pieces are appended |
| HttpAssembly.AnyFragmentation | src/tudou/http/HttpContext.cpp:64-147 | however target, headers, trailers and body are cut into pieces, and whatever came before, the request built is the one the message stands for |
| HttpAssembly.RequestMeaning | src/tudou/http/HttpContext.cpp:105-123 | the request's fields from the message's: target split at the first question mark, of equal header names the last, body chunks in order |
| HttpAssembly.HeadersMeaning | src/tudou/http/HttpContext.cpp:134-147 | a name has the value of its last header, and nameless headers are dropped |
| HttpContexts.HttpContext.OnMessageComplete | src/tudou/http/HttpContext.cpp:105-123 | the last header is committed and the target split |
| HttpContexts.HttpContext.Parse | src/tudou/http/HttpContext.cpp:33-54 | with spans broken anywhere, the call gets as far, and builds the same context, as byte-by-byte parsing; a context not reset after an error or a message end reports the same again and looks at nothing |
| HttpContexts.FindQuestionMark | src/tudou/http/HttpContext.cpp:111 | the first question mark, or none |
| HttpContexts.HttpContext.Reset | src/tudou/http/HttpContext.cpp:56-62 | the next message starts from a clean context |
| HttpPipeline.HttpChunkingIndependence | src/tudou/http/HttpServer.cpp:182-216 | a law of every byte-by-byte machine: any chunking gives the same exchanges; that the read loop is such a machine is what ParseIsFeed and Serve say |
| HttpPipeline.ParseIsFeed | src/tudou/http/HttpServer.cpp:182-216 | one parse call and the server's reaction to it, wherever it pauses, are the byte machine's steps up to that point |
| HttpPipeline.ClosedIsSilent | src/tudou/http/HttpServer.cpp:204-208 | after a close nothing is answered |
| HttpPipeline.CloseIsLast | src/tudou/http/HttpServer.cpp:200-208 | the exchanges of a reading end with the first that closes, and the connection is closed exactly by that |
| HttpPipeline.MessagesThenGarbage | src/tudou/http/HttpServer.cpp:195-199 | whole messages and then bytes the parser rejects, in any chunks: the messages are answered, then one 400, then nothing |
| HttpPipeline.MessagesThenPart | src/tudou/http/HttpServer.cpp:192-194 | an unfinished message behind whole ones gets no answer yet |
| HttpPipeline.BadRequestIsPlain | src/tudou/http/HttpServer.cpp:195-199 | the 400 answer in full |
| HttpPipeline.LengthReadsBack | src/tudou/http/HttpServer.cpp:298-302 | a missing Content-Length is filled in with the size of the body, in memory or in the file, and nothing else changes |
| HttpPipeline.PipelinedRequests | src/tudou/http/HttpServer.cpp:182-216 | a stream of whole messages in any chunks and fragments is answered with the router's answers to just those requests, once each, in order, up to the first that closes (section 9.3.2 of RFC 9112) |
| HttpServers.HttpServer.OnMessage | src/tudou/http/HttpServer.cpp:128-217 | the read loop takes its connection through the bytes as specified and no other |
| HttpServers.HttpServer.Turn | src/tudou/http/HttpServer.cpp:183-210 | one parse and its reaction: wait, reject with 400 and close, or answer and go on, leaving exactly the rest to do |
| HttpServers.HttpServer.ReplyCompleteRequest | src/tudou/http/HttpServer.cpp:281-292 | the request is dispatched once, answered, and the context reset |
| HttpServers.HttpServer.OnConnect | src/tudou/http/HttpServer.cpp:232-244 | a new connection starts afresh |
| HttpServers.HttpServer.OnClose | src/tudou/http/HttpServer.cpp:265-268 | its state is forgotten, and no other's |
| HttpServers.Serve | src/tudou/http/HttpServer.cpp:128-217 | for every interleaving of deliveries each connection gets the answers its own stream gets, read at once and alone |
| HttpDelivery.OwedIsIntended | src/tudou/tcp/TcpConnection.cpp:92-288 | over every run of sends, the connection owes all bytes sent on it if and only if each send was taken in full and nothing was abandoned |
| HttpDelivery.AnswersOnTheWire | src/tudou/http/HttpServer.cpp:345-359 | with a kernel that fails no call, the connection owes exactly the concatenated answers if and only if no answer was sent while a file was pending and no file lost bytes |
| HttpDelivery.AnswerBytes | src/tudou/http/HttpServer.cpp:345-359 | the bytes of an answer: the written response, then the announced range of its file as far as the file has it |
| HttpDelivery.PipelinedOnTheWire | src/tudou/http/HttpServer.cpp:182-216 | from requests to bytes: pipelined requests in any chunks leave the connection owing the answers to just them, in order, under the same condition |
| HttpDelivery.AnswerBehindFileBreaks | src/tudou/tcp/TcpConnection.cpp:98-103 | an answer right behind a file answer always breaks the connection, with an error |
| HttpDelivery.ClosingAnswerCutsOff | src/tudou/http/HttpServer.cpp:335-338 | after a closing answer the peer gets all of it if and only if nothing was unsent at that moment |

## Left out

- Sockets, epoll, addresses, logging, configuration, CPU affinity, thread-pool round robin, examples and benchmarks: plumbing.
- TLS and kTLS, in the HTTP server too: the behaviour is OpenSSL's and the kernel's. The plain-text path is modelled.
- The internals of llhttp, protobuf and the JSON library: an arbitrary byte-driven grammar, a predicate on bytes, a function on lines.
- HttpAssembly.AnyFragmentation: takes from the HTTP parser that every header name is followed by at least one, possibly empty, value event; without it a name would run into the next one.
- HttpContexts.HttpContext.Parse: says nothing about the number of bytes consumed when a context paused at a message end is not reset first; the program computes it from a stale position. The server's guard against a call that consumes nothing while asking for more never fires, since asking for more consumes everything.
- HttpServers.Serve: records answers as values; what the send path makes of them is in `HttpDelivery`. How a response head is formatted is an arbitrary function to nonempty bytes, and handlers are functions of the request.
- The coroutine mode of the RPC channel; the thread mode is modelled.
- BinaryRpcChannels.BinaryRpcChannel.ReceiveLoop: no claim that a call cannot be stranded before destruction, because an end of stream cleans up but leaves the channel open for new calls.
- BinaryRpcChannels.BinaryRpcChannel.CallMethod: is given requests below 2^32 bytes and fewer than 2^64 calls, where frames and sequence ids are unambiguous.
- BinaryRpcServers.BinaryRpcServer.OnMessage: routers answer at once or throw; answers given later, and handlers that close the connection inside the loop, are not modelled. A force-closed connection gets no further read events.
- SendRuns.Conservation: takes a file's bytes as they are when it is handed over; a file that shrinks while pending shows as a `sendfile` that moves nothing, one whose bytes change is not modelled. Offsets and sizes are unbounded, so the cast to a signed offset does not wrap.
- TcpConnections.TcpConnection.SendInLoop: callbacks are recorded, in order, as invocations; a send from the write-complete, high-water or close callback is the next event of the run. The error callback runs before the connection is closed, so a send from it would act on a connection that is still open; that is not modelled. Read events and the heartbeat are not modelled.
- LoopProtocol.WakeupGuarantee: covers tasks queued once `loop()` has been entered; tasks queued before, or left when the loop quits, are not covered. The eventfd write fails only at the counter's maximum.
- TimerQueues.TimerQueue.Collect: among equal expirations the order is arbitrary, as it is by address in the program.
- TimerQueues.TimerQueue.SyncTimerfd: a failing `timerfd_settime` is not modelled.
- TcpServers.TcpServer.CreateConnection: the connection's own state and the user's callbacks are not part of this model; a close on the same loop is a later step. The server's life before `start()` has set up its tables and after the wait is left out.
- ShardSafety.AllDrained: speaks of every drain task having run; that each gets to run depends on the loops, which is not claimed.
- The order in which a set is swept by the drain task, and a table by the channel's cleanup, is arbitrary.
- Route parameters, HTTP response serialisation and the JSON-RPC router's error codes: easy members.
