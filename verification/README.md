# The RPC framework's protocol core, verified

A Dafny model of the parts of the framework that carry state: the TinyPB frame codec on its growing byte
buffer, the execution of requests and the matching of replies to callers, the event loop with its coroutines
and input/output hooks, the timer, the two-stage logger, and the coroutine pool.

Each source file that updates objects in place becomes a class (or a method with a loop) whose `ensures` gives
its whole new state as a function of the old one; the functions work on values, and what the code is for is
proved about them, mostly over every run. Dafny checks the project with `dafny verify dfyconfig.toml`.

| file | models |
|---|---|
| `Bytes.dfy`, `Options.dfy` | bytes, big-endian 32-bit integers, C strings |
| `TcpBuffer.dfy` | the buffer: growth by half, compaction once a third is dead, refused index moves |
| `TinyPB.dfy` | one message, its frame, and taking a frame apart |
| `Coder.dfy` | `encode` and `decode` over the buffer |
| `Stream.dfy` | what `decode` makes of a stream of frames, cut and interleaved in any way |
| `Dispatcher.dfy` | from a request to a reply |
| `Connection.dfy` | reading, executing and writing on one connection |
| `Correlation.dfy` | a client and a server end to end |
| `EventLoop.dfy` | the task queue, the epoll bookkeeping, event descriptors |
| `Reactor.dfy` | the coroutine switch and the read, write and accept hooks on top of the loop |
| `Timer.dfy` | the ordered multimap of events behind a one-shot timerfd |
| `Logger.dfy` | producers, the sync callback, the writer thread and its condition variable |
| `CoroutinePool.dfy` | leases of pooled coroutines |

## Main results

- Codec. `Streams.ChunkInvariance` and `Streams.AllDelivered`: however a stream of frames is cut into arrivals
  and however decode calls fall between them, the messages come out once each and in order, and what is left is
  exactly the unfinished frame. `Streams.UntouchedIffQuiet`, `Streams.DecodeInStream` and
  `Streams.DecodeWorksAtCuts` say exactly when an unfinished frame is left alone: `decode` reads four length
  bytes after seeing only one, so a cut inside the head whose length bytes are all zero so far is not.
  `Streams.TameRunsAreAllowed` gives a condition on the messages alone. `Streams.RoundTrip`: encoding and then
  decoding gives the list back exactly if the last frame will not end on the last storage cell when its turn
  comes, because the move of the read index to that place is refused.
- Buffer. `TcpBuffers.RunIsFifo` and `TcpBuffers.CapacityBound`: a byte queue over every run, and its storage
  never exceeds 9/4 of the largest unread and incoming size any write has met, or what it started with.
- End to end. `Correlations.RepliesAnswerTheirRequests`: over every run of two connections that resend their
  whole out buffer with each write, a reply filed under an id is the dispatcher's answer to the one request sent
  under it. `Correlations.OneRoundAnswersAll`: replies do come, for every request ever sent, in one round from any
  reachable state with room. `Correlations.ServerAnswersAll` and `Correlations.ResendsComeFirst` follow one pass of
  the server.
- Loop and reactor. `EventLoops.WatchedAsLastAdded`: over every run of direct and deferred adds and deletes the
  kernel watches each descriptor with the mask of its last add. `Reactors.NobodyIsOrphaned` and
  `Reactors.ReportedIsResumed`: no resume is turned away or comes too late or twice, every suspended coroutine can
  be woken, and one whose event is reported is back behind its yield before the loop goes to sleep again.
- Timer. `Timers.TickFiresExactlyTheDue`, `Timers.NoWakeupIsLost`, `Timers.PendingEventFires`,
  `Timers.DeletedNeverFires`.
- Logger. `Loggers.NoLineIsLost`, `Loggers.UsefulStepsRunOut`, `Loggers.EverythingIsWritten`.

Five places where the code does less than it seems to, each with its exact condition and a concrete input:

| exactly when | what goes wrong |
|---|---|
| `Streams.UntouchedIffQuiet`, `Streams.DecodeWorksAtCuts` | `Streams.CutInHeadIsNotQuiet`, `Streams.LengthOverflows`: decode leaves the storage on two, or seven, bytes |
| `Streams.FramesDecodeIffLastFits` | `Streams.FullStorageNeverDrains`: decode goes round for ever on a frame that fills the storage |
| `Connections.ReadKeepsAll` | `Connections.FullReadIsLost`: a read that fills the in buffer to its end is not recorded |
| `EventLoops.RegistrationTakesIffAgreed` | `EventLoops.ClosedThenUnwatched`: a descriptor closed without being deleted, its number reused, is not watched |
| `CoroutinePools.GetMarksIffFree` | `CoroutinePools.GrowthLendsTwice`: a pool that grows lends one coroutine twice |

## Model

| member | source | states |
|---|---|---|
| Bytes.NetRoundTrip | RpcFramework/rocket/common/util.cpp:34-39 | reading back the four bytes of a signed 32-bit number in network order gives the number, negative ones included |
| Bytes.NetBytesRoundTrip | RpcFramework/rocket/common/util.cpp:34-39 | every four bytes are the encoding of what they decode to, so no two byte patterns mean the same length |
| Bytes.FirstByteCountsMost | RpcFramework/rocket/common/util.cpp:34-39 | the first byte counts most and its high bit is the sign |
| Bytes.CString | RpcFramework/rocket/net/coder/tinypb_coder.cpp:77-79 | a copy through a zeroed local array comes back whole exactly if it has no NUL and leaves room for the terminator |
| Bytes.CStringCuts | RpcFramework/rocket/net/coder/tinypb_coder.cpp:77-79 | what comes back is a prefix of what was copied, cut at a NUL if at all |
| TcpBuffers.ResizeContents | RpcFramework/rocket/net/tcp/tcp_buffer.cpp:56-65 | resizing keeps the unread bytes, or their front if there is no room for all, and leaves zeros behind them |
| TcpBuffers.AdjustContents | RpcFramework/rocket/net/tcp/tcp_buffer.cpp:67-78 | compaction changes neither the unread bytes nor the capacity, happens exactly from a third of the storage on, and leaves the read index at 0 or below a third |
| TcpBuffers.WriteContents | RpcFramework/rocket/net/tcp/tcp_buffer.cpp:31-39 | a write appends, whether or not it has to grow the storage |
| TcpBuffers.GrowthLeavesRoom | RpcFramework/rocket/net/tcp/tcp_buffer.cpp:31-39 | a write that does not fit grows the storage to one and a half times what it has to hold in front of the write index, which leaves a cell free unless that is a single byte |
| TcpBuffers.ReadContents | RpcFramework/rocket/net/tcp/tcp_buffer.cpp:41-54 | a read takes the bytes asked for off the front, or all there are |
| TcpBuffers.MoveReadContents | RpcFramework/rocket/net/tcp/tcp_buffer.cpp:80-88 | an accepted move drops exactly the front; one that would end on or behind the last cell changes nothing |
| TcpBuffers.ApplyConserves | RpcFramework/rocket/net/tcp/tcp_buffer.cpp:31-88 | each operation takes off the front what it is asked for and is there, and appends what is written |
| TcpBuffers.RunIsFifo | RpcFramework/rocket/net/tcp/tcp_buffer.cpp:31-97 | over every run, what was there followed by all that was written is all that was taken followed by what is unread |
| TcpBuffers.CapacityBound | RpcFramework/rocket/net/tcp/tcp_buffer.cpp:31-88 | over every run the read index is 0 or below a third of the storage, and the storage is as it was or at most 9/4 of the peak demand |
| TcpBuffers.TcpBuffer.constructor | RpcFramework/rocket/net/tcp/tcp_buffer.cpp:7-9 | a zeroed, empty storage of the given size |
| TcpBuffers.TcpBuffer.ReadAble | RpcFramework/rocket/net/tcp/tcp_buffer.cpp:15-17 | the number of unread bytes |
| TcpBuffers.TcpBuffer.WriteAble | RpcFramework/rocket/net/tcp/tcp_buffer.cpp:19-21 | the number of cells behind the write index |
| TcpBuffers.TcpBuffer.WriteToBuffer | RpcFramework/rocket/net/tcp/tcp_buffer.cpp:31-39 | the array method refines the write that WriteContents is about |
| TcpBuffers.TcpBuffer.ReadFromBuffer | RpcFramework/rocket/net/tcp/tcp_buffer.cpp:41-54 | hands out the front of the unread bytes, or leaves the caller's vector alone when there are none |
| TcpBuffers.TcpBuffer.ResizeBuffer | RpcFramework/rocket/net/tcp/tcp_buffer.cpp:56-65 | the new array holds what ResizeContents is about, and both indices are reset |
| TcpBuffers.TcpBuffer.AdjustBuffer | RpcFramework/rocket/net/tcp/tcp_buffer.cpp:67-78 | the array method refines the compaction that AdjustContents is about |
| TcpBuffers.TcpBuffer.MoveReadIndex | RpcFramework/rocket/net/tcp/tcp_buffer.cpp:80-88 | the array method refines the move that MoveReadContents is about |
| TcpBuffers.TcpBuffer.MoveWriteIndex | RpcFramework/rocket/net/tcp/tcp_buffer.cpp:90-97 | the write index moves unless it would land on or behind the end of the storage |
| TinyPBs.EncodeTinyPB | RpcFramework/rocket/net/coder/tinypb_coder.cpp:135-209 | fills a buffer of exactly the announced length with the frame of the message and sets its length fields; id unless empty, names, error code, error text and payload stay as they are |
| TinyPBs.FrameLayout | RpcFramework/rocket/net/coder/tinypb_coder.cpp:61-130 | wherever a frame lies in the storage, each field is found where the parser looks for it, the check sum is 1, and the last byte is the end byte |
| TinyPBs.FieldsRoundTrip | RpcFramework/rocket/net/coder/tinypb_coder.cpp:61-130 | a frame gives its message back exactly if id, method name and error text have no NUL and at most 99, 511 and 511 bytes |
| TinyPBs.FieldsComeBack | RpcFramework/rocket/net/coder/tinypb_coder.cpp:61-130 | field by field: a frame whose id has at most 99 bytes, and whose method name and error text have at most 511, without a NUL, parses to the same id, method name, error code, error text and payload, with the lengths set |
| TinyPBs.ParsedFieldsAreThere | RpcFramework/rocket/net/coder/tinypb_coder.cpp:61-130 | whatever the bytes, a parsed message has its texts where their lengths say, up to the first NUL, and its error code and payload behind them |
| TinyPBs.DefaultIdFits | RpcFramework/rocket/net/coder/tinypb_coder.cpp:136-138 | the default id itself survives the receiver and is never replaced again |
| TinyPBs.OnlyEmptyIdsReplaced | RpcFramework/rocket/net/coder/tinypb_coder.cpp:136-138 | an id that is not empty stays, and an empty one becomes the digits from 1 to 9 |
| TinyPBs.ReceivedAsSent | RpcFramework/rocket/net/coder/tinypb_coder.cpp:61-209 | what a receiver rebuilds has the id, names, error code, error text and payload that were sent |
| Coders.EncodeContents | RpcFramework/rocket/net/coder/tinypb_coder.cpp:11-25 | encoding appends exactly the frames of the messages, in order, whatever growth happens between them |
| Coders.Encode | RpcFramework/rocket/net/coder/tinypb_coder.cpp:11-25 | the loop over the messages refines that appending, and fills in each message's length fields |
| Coders.FindFrame | RpcFramework/rocket/net/coder/tinypb_coder.cpp:36-56 | the inner loop returns the first start byte whose announced end is an end byte already received, reading length bytes that may not have arrived, and says when an index overflows or leaves the storage |
| Coders.DecodeRound | RpcFramework/rocket/net/coder/tinypb_coder.cpp:28-132 | a round that gets past a frame lowers the unread count and leaves the rest of the decoding to the remaining bytes |
| Coders.NoProgressIffUnchanged | RpcFramework/rocket/net/coder/tinypb_coder.cpp:57-62 | a round that does not get past its frame leaves the buffer as it was, so that the next one is the same, exactly if the decoding says so; otherwise the read index was put back |
| Coders.DecodeBuffer | RpcFramework/rocket/net/coder/tinypb_coder.cpp:27-133 | the loop refines the recursive decoding, makes the rounds that counts, and says whether the source would return, go round for ever, step back, or leave defined behaviour |
| Streams.DecodeFrame | RpcFramework/rocket/net/coder/tinypb_coder.cpp:28-132 | a complete frame at the front is delivered as sent and exactly its bytes are taken |
| Streams.DeliveredAsSent | RpcFramework/rocket/net/coder/tinypb_coder.cpp:61-209 | message by message and field by field, what is delivered is what was sent |
| Streams.DecodeFrames | RpcFramework/rocket/net/coder/tinypb_coder.cpp:28-132 | complete frames at the front, whatever follows: their messages in order, one round each, and then whatever decode makes of the rest |
| Streams.DecodeStream | RpcFramework/rocket/net/coder/tinypb_coder.cpp:27-133 | decode returns with exactly these messages and exactly the tail left if and only if the tail is quiet where the frames leave it |
| Streams.OneRoundPerFrame | RpcFramework/rocket/net/coder/tinypb_coder.cpp:28-132 | the loop makes one round more than there are complete frames, and the unread count drops by the sum of their lengths, each at least 26 |
| Streams.UntouchedIffQuiet | RpcFramework/rocket/net/coder/tinypb_coder.cpp:36-60 | for any storage and any indices, decode leaves the buffer alone and returns exactly if no unread position looks like a finished frame or sends the index out of range |
| Streams.QuietCuts | RpcFramework/rocket/net/coder/tinypb_coder.cpp:39-47 | anywhere in the storage, the cuts of a calm frame that are left alone are exactly those behind the first byte, behind the head, or behind a non-zero length byte, if the announced end is in the range of an int |
| Streams.CutInHeadIsNotQuiet | RpcFramework/rocket/net/coder/tinypb_coder.cpp:39-48 | a stream cut behind its second byte makes decode read before the storage |
| Streams.LengthOverflows | RpcFramework/rocket/net/coder/tinypb_coder.cpp:40-45 | seven bytes whose announced length overflows the index are not left alone |
| Streams.FramesDecodeIffLastFits | RpcFramework/rocket/net/coder/tinypb_coder.cpp:27-62 | a buffer of complete frames is drained exactly if there is a cell behind them or compaction will make one; otherwise all but the last message come out and decode never returns |
| Streams.RoundTrip | RpcFramework/rocket/net/coder/tinypb_coder.cpp:11-133 | every list of sendable messages, encoded into an empty buffer, decodes with nothing left, exactly if its last frame fits so, to messages with the ids, names, error codes, texts and payloads that were sent |
| Streams.LoneFrameDecodes | RpcFramework/rocket/net/tcp/tcp_buffer.cpp:80-88 | a single frame gets decoded exactly if the storage has a cell behind it, and otherwise is found for ever |
| Streams.FullStorageNeverDrains | RpcFramework/rocket/net/tcp/tcp_buffer.cpp:80-88 | an empty message encoded into 35 cells, which it fills, is never decoded |
| Streams.ArriveRecorded | RpcFramework/rocket/net/tcp/tcp_buffer.cpp:90-97 | bytes read into the storage become readable exactly if they do not fill it to its end |
| Streams.EventTakesBytes | RpcFramework/rocket/net/tcp/tcp_connection.cpp:75-80 | an arrival takes its bytes off the wire, and a call of decode leaves the wire |
| Streams.StepKeepsAligned | RpcFramework/rocket/net/coder/tinypb_coder.cpp:27-133 | an arrival or a decode call keeps buffer and wire together equal to the frames still to be delivered |
| Streams.DecodeInStream | RpcFramework/rocket/net/coder/tinypb_coder.cpp:27-133 | in the middle of any stream, a decode call delivers the complete messages and leaves exactly the unfinished frame if and only if that frame is quiet there |
| Streams.DecodeWorksAtCuts | RpcFramework/rocket/net/coder/tinypb_coder.cpp:39-47 | for calm frames, in the middle of any stream and at any place in the storage, decode does so exactly at the cuts of QuietCuts |
| Streams.TameRunsAreAllowed | RpcFramework/rocket/net/coder/tinypb_coder.cpp:36-56 | frames whose further start bytes are followed by a byte from 1 to z, of at most 16 MB in a storage of at most 80 MB, make every run chunk invariant whose decode calls keep out of the heads |
| Streams.ChunkInvariance | RpcFramework/rocket/net/coder/tinypb_coder.cpp:27-133 | over every run of arrivals and decode calls, what was delivered is a prefix of the messages, each once, in order and field by field as sent, buffer and wire hold the frames of the rest, and the wire what has not arrived |
| Streams.AllDelivered | RpcFramework/rocket/net/coder/tinypb_coder.cpp:27-133 | once everything has arrived, one more decode completes the list, field by field as sent, and leaves nothing |
| Dispatchers.JoinedAtFirstDot | RpcFramework/rocket/net/rpc/rpc_dispatcher.cpp:112-129 | a full name splits into service and method in at most one way, at its first dot |
| Dispatchers.CodeZeroIffServed | RpcFramework/rocket/net/rpc/rpc_dispatcher.cpp:23-105 | the error code is 0 exactly if the request names a registered service and method, parses, and its answer can be serialized; then the payload is that answer |
| Dispatchers.CodeNamesTheStage | RpcFramework/rocket/net/rpc/rpc_dispatcher.cpp:35-96 | each error code stands for exactly one failing stage, all earlier ones having succeeded |
| Dispatchers.ReplySays | RpcFramework/rocket/net/rpc/rpc_dispatcher.cpp:32-97 | the reply carries the id and method name of the request, each code comes with its own text, and the payload is empty if the method was not called and its answer if it was |
| Dispatchers.FilledInKeeps | RpcFramework/rocket/net/rpc/rpc_dispatcher.cpp:32-97 | in a response that already held something, the payload stays unless the method was called, the error text stays on success, and nothing else differs from a new one |
| Dispatchers.ReplyTextsFit | RpcFramework/rocket/net/rpc/rpc_dispatcher.cpp:23-105 | id, method name and error text of a reply survive the peer's fixed arrays whenever those of the request do |
| Dispatchers.RpcDispatcher.RegisterService | RpcFramework/rocket/net/rpc/rpc_dispatcher.cpp:107-110 | the last service registered under a name is the one found, all others stay |
| Dispatchers.RpcDispatcher.ParseServiceFullName | RpcFramework/rocket/net/rpc/rpc_dispatcher.cpp:112-129 | succeeds exactly if there is a dot, and then the parts join to the name; otherwise leaves both names alone |
| Dispatchers.RpcDispatcher.SetTinyPBError | RpcFramework/rocket/net/rpc/rpc_dispatcher.cpp:131-135 | sets code, text and text length and nothing else |
| Dispatchers.RpcDispatcher.Dispatch | RpcFramework/rocket/net/rpc/rpc_dispatcher.cpp:23-105 | the step-by-step filling in of any response, with its five early returns; into a new one it yields the reply the lemmas are about |
| Connections.ReadKeepsAll | RpcFramework/rocket/net/tcp/tcp_connection.cpp:65-94 | for every sequence of read results, every byte taken off the socket is kept exactly if the first read that does not fail with another error than EAGAIN does not bring as many bytes as there is room for |
| Connections.FullReadIsLost | RpcFramework/rocket/net/tcp/tcp_connection.cpp:75-80 | four bytes read into four cells are lost |
| Connections.ReadEndsAsDecided | RpcFramework/rocket/net/tcp/tcp_connection.cpp:77-102 | the loop reports the end of file exactly if the read that ends it returned no byte, and is finished exactly if that read returned some or EAGAIN |
| Connections.NoRoomDoubles | RpcFramework/rocket/net/tcp/tcp_connection.cpp:69-71 | a buffer without room is doubled and keeps its bytes, and one with room is left alone |
| Connections.ShortAnswersFit | RpcFramework/rocket/net/tcp/tcp_connection.cpp:111-123 | services whose answers are no longer than the requests can answer every request that leaves room for an error text |
| Connections.WriteEndsWithAll | RpcFramework/rocket/net/tcp/tcp_connection.cpp:146-173 | a write loop that ends well has sent the whole unread buffer last, behind the fronts that short writes sent before |
| Connections.WriteEndsIff | RpcFramework/rocket/net/tcp/tcp_connection.cpp:148-173 | the loop ends well exactly if there is nothing to write or the first call that does not go round writes everything, and is left for the timer exactly if that call finds it gone off |
| Connections.FirstWriteSends | RpcFramework/rocket/net/tcp/tcp_connection.cpp:154-157 | the first write call sends the front of the unread bytes, as much as the socket takes |
| Connections.InsertedKeepsFirst | RpcFramework/rocket/net/tcp/tcp_connection.cpp:129-132 | a reply is found under an id exactly if it was there or came in, and it is the old one or the first that came |
| Connections.DecodedTextsFit | RpcFramework/rocket/net/coder/tinypb_coder.cpp:76-119 | whatever bytes arrive, the texts of a decoded message could be sent on |
| Connections.ReadSocket | RpcFramework/rocket/net/tcp/tcp_connection.cpp:65-94 | the read loop over the array buffer refines the reading that ReadKeepsAll is about |
| Connections.TcpConnection.OnRead | RpcFramework/rocket/net/tcp/tcp_connection.cpp:59-103 | reads only when connected; end of file closes and stops the connection |
| Connections.TcpConnection.Clear | RpcFramework/rocket/net/tcp/tcp_connection.cpp:189-200 | the connection ends closed, and is told to stop unless it was closed before |
| Connections.TcpConnection.Excute | RpcFramework/rocket/net/tcp/tcp_connection.cpp:105-134 | a server appends the frames of one reply per decoded request, a client files each decoded reply, and neither touches what the other changes |
| Connections.TcpConnection.OnWrite | RpcFramework/rocket/net/tcp/tcp_connection.cpp:136-179 | sends from an out buffer it never consumes, repeating the front after each short write, and gives up once its timer has gone off by the end of a short or failed write |
| Connections.TcpConnection.GetResPackageData | RpcFramework/rocket/net/tcp/tcp_connection.cpp:214-225 | takes the reply filed under the id, once, and leaves the others |
| Correlations.WriteCarries | RpcFramework/rocket/net/tcp/tcp_connection.cpp:146-173 | a write puts whole frames behind what a direction already carries |
| Correlations.ReadCarries | RpcFramework/rocket/net/tcp/tcp_connection.cpp:65-94 | a short read moves bytes from the wire to the buffer and loses none |
| Correlations.DecodeCarries | RpcFramework/rocket/net/coder/tinypb_coder.cpp:27-133 | decoding takes whole messages off the front of what a direction carries |
| Correlations.AnswersAreReplies | RpcFramework/rocket/net/tcp/tcp_connection.cpp:111-122 | what the server encodes are replies to requests that were sent, and they can be sent |
| Correlations.EchoesId | RpcFramework/rocket/net/rpc/rpc_dispatcher.cpp:32-33 | the answer arrives under the id of its request, which is the default only if the request has none |
| Correlations.AnswerSays | RpcFramework/rocket/net/rpc/rpc_dispatcher.cpp:32-97 | the answer names the method of its request and has the code, text and payload of the dispatch of what was sent |
| Correlations.StepKeeps | RpcFramework/rocket/net/tcp/tcp_connection.cpp:59-179 | every step of either end keeps both directions made of whole frames, of requests one way and replies to them the other |
| Correlations.RepliesAnswerTheirRequests | RpcFramework/rocket/net/tcp/tcp_connection.cpp:105-225 | over every run from two new connections, the reply a client can take under an id is the dispatcher's answer to the one request sent under it, that id itself unless it was empty, resends notwithstanding, and no reply is filed under an unused id |
| Correlations.SendSends | RpcFramework/rocket/net/tcp/tcp_connection.cpp:146-173 | a request goes behind the frames of those sent before, and only a pass of the client or a take changes the filed replies, only a pass of the server its out buffer |
| Correlations.ServerPassAnswers | RpcFramework/rocket/net/tcp/tcp_connection.cpp:105-123 | a pass of the server appends one reply to each complete request, in order, and leaves what is not complete |
| Correlations.ClientPassFiles | RpcFramework/rocket/net/tcp/tcp_connection.cpp:124-133 | a pass of the client files a reply under the id of each complete reply and keeps those it had |
| Correlations.ServerPassesAnswer | RpcFramework/rocket/net/tcp/tcp_connection.cpp:105-123 | after every run from two new connections, a pass of the server appends one reply to each request that is complete, and these requests were sent |
| Correlations.ClientPassesFile | RpcFramework/rocket/net/tcp/tcp_connection.cpp:124-133 | after every such run, a pass of the client files a reply under the id of each complete reply |
| Correlations.OneRoundAnswersAll | RpcFramework/rocket/net/tcp/tcp_connection.cpp:59-179 | from any state a run can reach in which the buffers have room, one round of write, read, run and write, read, run leaves a reply under the id of every request that was ever sent |
| Correlations.TakeTakes | RpcFramework/rocket/net/tcp/tcp_connection.cpp:214-225 | taking a reply removes it and no other |
| Correlations.ServerRuns | RpcFramework/rocket/net/tcp/tcp_connection.cpp:105-123 | excute on the connection of a server makes the step of the server |
| Correlations.ClientRuns | RpcFramework/rocket/net/tcp/tcp_connection.cpp:124-133 | excute on the connection of a client makes the step of the client |
| Correlations.ServerAnswersAll | RpcFramework/rocket/net/tcp/tcp_connection.cpp:105-123 | one pass of the server, whatever its out buffer still holds, appends the frames of one reply per complete request, in order, and a peer that gets the appended bytes decodes exactly those replies |
| Correlations.ResendsComeFirst | RpcFramework/rocket/net/tcp/tcp_connection.cpp:146-173 | a peer that gets the whole out buffer decodes the replies of earlier passes again and then the appended ones |
| EventLoops.EpollAgreement | RpcFramework/rocket/net/eventloop.cpp:9-35 | while the loop's descriptor set and the kernel's agree, adds and deletes succeed, ADD is issued exactly for absent descriptors, and they agree again with the mask of the last add |
| EventLoops.WatchedAsLastAdded | RpcFramework/rocket/net/eventloop.cpp:184-205 | over every run of adds and deletes, direct or deferred as tasks, on descriptors that stay open: no epoll_ctl fails, loop and kernel agree, and each descriptor is watched with the mask of its last add unless a delete followed |
| EventLoops.RegistrationTakesIffAgreed | RpcFramework/rocket/net/eventloop.cpp:9-21 | a registration with a new mask takes effect exactly if loop and kernel agree on whether they watch the descriptor |
| EventLoops.ClosedThenUnwatched | RpcFramework/rocket/net/eventloop.cpp:9-21 | a descriptor added, closed, and added again under its number is not watched |
| EventLoops.AddPutOffIsDone | RpcFramework/rocket/net/eventloop.cpp:188-193 | a registration put off as a task is done when the loop comes to it, with the mask of that time |
| EventLoops.DeletePutOffIsDone | RpcFramework/rocket/net/eventloop.cpp:199-204 | the end of one put off as a task is done when the loop comes to it |
| EventLoops.DoneAtOnce | RpcFramework/rocket/net/eventloop.cpp:184-198 | in the loop's thread both are done at once |
| EventLoops.StepKeepsOrder | RpcFramework/rocket/net/eventloop.cpp:77-136 | every push, swap, pop and poll keeps: all tasks ever queued are those executed, then the batch, then the pending ones |
| EventLoops.RunsWithinOneSleep | RpcFramework/rocket/net/eventloop.cpp:77-136 | over every run, whatever is queued has run in order before the loop has slept more than once, and not even once if it was queued between passes |
| EventLoops.StepDoes | RpcFramework/rocket/net/eventloop.cpp:80-121 | a push goes behind the pending tasks, a swap takes all of them as the batch, a pop executes the first of the batch, and a poll queues the handlers it was given |
| EventLoops.ReadBeforeWrite | RpcFramework/rocket/net/eventloop.cpp:114-121 | of one descriptor the read callback is queued before the write callback, and only those reported |
| EventLoops.ReportedInOrder | RpcFramework/rocket/net/eventloop.cpp:106-121 | descriptors are served in the order of the report |
| EventLoops.ReportedQueuesHandlers | RpcFramework/rocket/net/eventloop.cpp:106-121 | each reported direction queues its handler, whatever that does, and nothing else is queued |
| EventLoops.ListenSetsOne | RpcFramework/rocket/net/fd_event.cpp:32-47 | listening adds one bit and one callback, and leaves the other direction |
| EventLoops.CancelClearsOne | RpcFramework/rocket/net/fd_event.cpp:49-55 | cancelling takes one bit away and leaves the callbacks |
| EventLoops.FdEvent.constructor | RpcFramework/rocket/net/fd_event.cpp:9-11 | no interest and no callbacks |
| EventLoops.FdEvent.Listen | RpcFramework/rocket/net/fd_event.cpp:32-47 | sets the bit and callback of one direction, and toggles the error callback |
| EventLoops.FdEvent.Cancel | RpcFramework/rocket/net/fd_event.cpp:49-55 | clears the bit of one direction and leaves the callbacks |
| EventLoops.EventLoop.AddTask | RpcFramework/rocket/net/eventloop.cpp:211-219 | the task goes behind the pending ones |
| EventLoops.EventLoop.AddEpollEvent | RpcFramework/rocket/net/eventloop.cpp:184-194 | in the loop's thread the registration EpollAgreement is about; from another thread a task that does it later |
| EventLoops.EventLoop.DeleteEpollEvent | RpcFramework/rocket/net/eventloop.cpp:196-205 | in the loop's thread forgets the descriptor here and in the kernel, or does nothing if it is not watched; from another thread a task that does it later |
| EventLoops.EventLoop.TakeTasks | RpcFramework/rocket/net/eventloop.cpp:81-84 | the pending tasks become the batch |
| EventLoops.EventLoop.NextTask | RpcFramework/rocket/net/eventloop.cpp:85-87 | tasks leave the batch from its front |
| EventLoops.EventLoop.QueueHandlers | RpcFramework/rocket/net/eventloop.cpp:106-121 | the loop over the reported events queues, per descriptor, the read and then the write callback it holds |
| Reactors.SpawnKeeps | RpcFramework/rocket/net/tcp/tcp_connection.cpp:30-35 | giving a finished or new coroutine a callback and queueing it keeps the reactor invariant |
| Reactors.StartKeeps | RpcFramework/rocket/net/tcp/tcp_server.cpp:53-55 | giving a coroutine a callback and resuming it directly keeps the invariant, and it runs |
| Reactors.WaitKeeps | RpcFramework/rocket/coroutine/coroutine_hook.cpp:80-83 | a hook that registers and yields keeps the invariant and leaves its coroutine reachable |
| Reactors.ReturnKeeps | RpcFramework/rocket/coroutine/coroutine_hook.cpp:85-87 | taking the registration back after the yield strands no other coroutine |
| Reactors.ClearKeeps | RpcFramework/rocket/net/tcp/tcp_connection.cpp:194-196 | taking a descriptor nobody waits on out of the loop keeps the invariant |
| Reactors.ExecuteKeeps | RpcFramework/rocket/net/eventloop.cpp:85-91 | executing the next task, a resume or a deferred registration or other work, keeps the invariant |
| Reactors.ResumeIsAccepted | RpcFramework/rocket/coroutine/coroutine.cpp:144-170 | a queued resume passes every guard of Resume and finds its coroutine at its start or in a hook |
| Reactors.ReportedWakes | RpcFramework/rocket/net/eventloop.cpp:106-121 | the events epoll_wait reports become exactly one resume of each coroutine waiting for one of them, and of no other |
| Reactors.PollKeeps | RpcFramework/rocket/net/eventloop.cpp:106-121 | queueing the handlers of what was reported keeps the invariant |
| Reactors.StepKeeps | RpcFramework/rocket/coroutine/coroutine_hook.cpp:32-159 | every action of the thread keeps the reactor invariant |
| Reactors.WaitDoes | RpcFramework/rocket/coroutine/coroutine_hook.cpp:80-83 | a hook that waits sets its bit with a callback that resumes this coroutine, has the kernel watch for it, gives way to the main coroutine, and touches nothing else |
| Reactors.ReturnDoes | RpcFramework/rocket/coroutine/coroutine_hook.cpp:85-92 | a hook behind its yield takes its bit out of the descriptor and the kernel, leaves the other direction and all other descriptors, and goes on |
| Reactors.FinishDoes | RpcFramework/rocket/coroutine/coroutine.cpp:39-51 | a callback that ends leaves its coroutine finished and the main coroutine running |
| Reactors.ClearDoes | RpcFramework/rocket/net/tcp/tcp_connection.cpp:194-196 | clearing takes both bits away and the descriptor out of the kernel |
| Reactors.SpawnDoes | RpcFramework/rocket/net/eventloop.cpp:221-227 | a coroutine given a callback and queued stands at its start, with one resume behind the pending tasks |
| Reactors.StartDoes | RpcFramework/rocket/net/tcp/tcp_server.cpp:53-55 | one started directly runs in its callback at once |
| Reactors.ServiceDoes | RpcFramework/rocket/net/eventloop.cpp:151-169 | the thread's own tasks go behind the pending ones and its own callbacks are registered like a hook's |
| Reactors.ExecuteDoes | RpcFramework/rocket/net/eventloop.cpp:85-91 | a deferred registration has the kernel watch the descriptor with its mask, its end has it watch no more, and a resume runs the coroutine where it stands |
| Reactors.PassDoes | RpcFramework/rocket/net/eventloop.cpp:80-121 | a pass begins by taking all that is pending and ends by queueing the handlers of what was reported |
| Reactors.NobodyIsOrphaned | RpcFramework/rocket/coroutine/coroutine_hook.cpp:32-159 | over every run from a new thread: no coroutine is resumed behind its end, every suspended one is reachable through a set bit, its own callback and the kernel's interest set, one yet to start is queued once, no queued resume will be refused, and loop, kernel and descriptors agree on what is watched |
| Reactors.ThreadRunsItsQueue | RpcFramework/rocket/net/eventloop.cpp:77-136 | the thread's queue does what the loop of RunsWithinOneSleep does |
| Reactors.WakesBeforeSleep | RpcFramework/rocket/net/eventloop.cpp:80-100 | a suspended coroutine whose resume is queued runs again before the loop sleeps |
| Reactors.ReportedIsResumed | RpcFramework/rocket/coroutine/coroutine_hook.cpp:57-159 | in every run from a new thread, a coroutine whose event is reported is back behind its yield before the loop sleeps again |
| Reactors.LoopThread.SetCallBackOf | RpcFramework/rocket/coroutine/coroutine.cpp:90-118 | refused exactly for the main coroutine and one inside its callback; otherwise the coroutine is at its start |
| Reactors.LoopThread.SpawnCoroutine | RpcFramework/rocket/net/eventloop.cpp:221-227 | sets the callback and queues a resume |
| Reactors.LoopThread.StartCoroutine | RpcFramework/rocket/net/tcp/tcp_server.cpp:53-55 | sets the callback and switches to the coroutine |
| Reactors.LoopThread.ResumeCoroutine | RpcFramework/rocket/coroutine/coroutine.cpp:144-170 | the guards, then the switch into the coroutine where it stands |
| Reactors.LoopThread.YieldAt | RpcFramework/rocket/coroutine/coroutine.cpp:123-139 | back to the main coroutine, unless that is running |
| Reactors.LoopThread.ToEpoll | RpcFramework/rocket/coroutine/coroutine_hook.cpp:32-55 | the descriptor's bit and callback, and the loop's registration, and no other descriptor |
| Reactors.LoopThread.WaitFor | RpcFramework/rocket/coroutine/coroutine_hook.cpp:80-83 | the hook up to its yield is the wait that WaitKeeps is about |
| Reactors.LoopThread.WakeUp | RpcFramework/rocket/coroutine/coroutine_hook.cpp:85-87 | the hook behind its yield is the return that ReturnKeeps is about |
| Reactors.LoopThread.FinishCallBack | RpcFramework/rocket/coroutine/coroutine.cpp:46-50 | the coroutine is out of its callback and yields |
| Reactors.LoopThread.ClearDescriptor | RpcFramework/rocket/net/tcp/tcp_connection.cpp:194-196 | both bits cleared and the descriptor out of the loop |
| Reactors.LoopThread.ExecuteTask | RpcFramework/rocket/net/eventloop.cpp:85-91 | the next task taken and run |
| Reactors.LoopThread.AfterEpollWait | RpcFramework/rocket/net/eventloop.cpp:106-121 | the handlers of what was reported are queued |
| Timers.InsertMembers | RpcFramework/rocket/net/timer.cpp:123 | insertion adds exactly the new entry |
| Timers.InsertOrders | RpcFramework/rocket/net/timer.cpp:123 | insertion keeps the multimap in order of arrival time, and of insertion among equal ones |
| Timers.EraseKeeps | RpcFramework/rocket/net/timer.cpp:134-147 | the search in the range of one key removes exactly the event's entry |
| Timers.ArmIsExact | RpcFramework/rocket/net/timer.cpp:84-95 | the timerfd is never set to zero, the nanoseconds are below a second, and seconds and nanoseconds together are the interval |
| Timers.ArmSets | RpcFramework/rocket/net/timer.cpp:79-104 | arming sets the deadline to the earliest arrival if that is still to come and to 100 ms from now otherwise, and does nothing when nothing is pending |
| Timers.AddKeeps | RpcFramework/rocket/net/timer.cpp:109-129 | adding an event that is not pending adds exactly its entry and keeps order, keys and wakeup |
| Timers.AddArms | RpcFramework/rocket/net/timer.cpp:112-128 | adding sets the timerfd anew exactly if the event comes before all that are pending, and then for it |
| Timers.DeleteKeeps | RpcFramework/rocket/net/timer.cpp:131-150 | deleting removes exactly the event's entry, wherever it is, and keeps order, keys and wakeup |
| Timers.AgainKeeps | RpcFramework/rocket/net/timer.cpp:54-63 | each fired event that repeats comes back under a fresh clock reading plus its interval, and no other event changes |
| Timers.TickFiresExactlyTheDue | RpcFramework/rocket/net/timer.cpp:22-72 | a tick fires exactly the pending events that are due and not cancelled, each once, in order of arrival and then of insertion, and leaves the later ones and the repeating ones pending and the timerfd set |
| Timers.StepKeeps | RpcFramework/rocket/net/timer.cpp:22-150 | every operation keeps keys equal to arrival times, the order, and the wakeup |
| Timers.OpDoes | RpcFramework/rocket/net/timer.cpp:22-150 | a created event arrives an interval after its creation, an added one is pending, a deleted one is neither pending nor to fire, and none of these changes another event or fires one |
| Timers.PendingStaysOrFires | RpcFramework/rocket/net/timer.cpp:22-72 | a pending event stays so and arrives when it did until it is deleted or fired |
| Timers.PendingEventFires | RpcFramework/rocket/net/timer.cpp:22-72 | over every run, a pending event has fired by the first tick at or after its arrival, unless it is deleted before |
| Timers.NoWakeupIsLost | RpcFramework/rocket/net/timer.cpp:74-150 | over every run, if anything is pending the timerfd is set to go off by the earliest arrival, or 100 ms after it was last set; every key is its event's arrival time, so a delete always finds a pending event |
| Timers.DeletedNeverFires | RpcFramework/rocket/net/timer.cpp:131-150 | over every run, a deleted event never fires again |
| Timers.TimerEvent.constructor | RpcFramework/rocket/net/timer_event.cpp:7-10 | arrives one interval after the clock reading |
| Timers.TimerEvent.ResetArriveTime | RpcFramework/rocket/net/timer_event.cpp:12-15 | the arrival time becomes a clock reading plus the interval |
| Timers.Timer.ResetArriveTime | RpcFramework/rocket/net/timer.cpp:74-107 | arms for the earliest event, or 100 ms if it is overdue, through the split into seconds and nanoseconds |
| Timers.Timer.AddTimerEvent | RpcFramework/rocket/net/timer.cpp:109-129 | the method over event objects refines the addition AddKeeps is about |
| Timers.Timer.Find | RpcFramework/rocket/net/timer.cpp:136-144 | the scan between the lower and the upper bound of a key finds the event's entry if there is one |
| Timers.Timer.DeleteTimerEvent | RpcFramework/rocket/net/timer.cpp:131-150 | cancels the event object and refines the deletion DeleteKeeps is about |
| Timers.Timer.CollectDue | RpcFramework/rocket/net/timer.cpp:34-50 | the scan that stops at the first later event collects exactly the due ones that are not cancelled |
| Timers.Timer.OnTimer | RpcFramework/rocket/net/timer.cpp:22-65 | drain, collect, cut off, add again and arm together are the tick TickFiresExactlyTheDue is about |
| Loggers.StepKeeps | RpcFramework/rocket/common/log.cpp:47-260 | every step of producers, syncLoop and writer keeps the pipeline invariant |
| Loggers.NoLineIsLost | RpcFramework/rocket/common/log.cpp:47-260 | under every interleaving, the lines pushed are those written, in the writer's hands, queued, swapped out and in front, in this order, empty ones aside; and the writer sleeps on a queued batch only while its signal is still owed |
| Loggers.NonEmptyKeepsText | RpcFramework/rocket/common/log.cpp:229-233 | what is kept are exactly the lines with text, each as often as it is there |
| Loggers.FileHoldsTheFront | RpcFramework/rocket/common/log.cpp:47-260 | at any time the file holds only lines with text, none more often than pushed, and is the front of what was pushed if all lines have text |
| Loggers.StopEndsTheWriter | RpcFramework/rocket/common/log.cpp:236-245 | a writer told to stop ends after its batch, and its file does not change any more |
| Loggers.SignalWakes | RpcFramework/rocket/common/log.cpp:177-179 | a signal wakes a sleeping writer and is lost on any other, and the writer sleeps exactly on an empty queue |
| Loggers.NeverStuck | RpcFramework/rocket/common/log.cpp:168-260 | unless the writer was stopped, a step that moves lines on can be taken exactly while one is on its way or a move is unfinished |
| Loggers.UsefulStepsRunOut | RpcFramework/rocket/common/log.cpp:47-260 | once nobody pushes, the steps that move lines on run out within a bound given by where the lines are |
| Loggers.EverythingIsWritten | RpcFramework/rocket/common/log.cpp:47-260 | when they have run out, every line with text is in the file as often as it was pushed, in order, and the file is what was pushed if all lines have text |
| Loggers.WritingOutIsSteps | RpcFramework/rocket/common/log.cpp:229-238 | writing a batch in one go is the same as its single writes and the return to the queue |
| Loggers.AsyncLogger.PushLogBuffer | RpcFramework/rocket/common/log.cpp:253-260 | the batch goes behind the others and a sleeping writer is woken |
| Loggers.AsyncLogger.LookAtQueue | RpcFramework/rocket/common/log.cpp:175-185 | the writer sleeps on an empty queue and otherwise takes the first batch |
| Loggers.AsyncLogger.WriteBatch | RpcFramework/rocket/common/log.cpp:229-238 | the write loop puts the non-empty lines of the batch into the file, in order, and goes on or stops |
| Loggers.Logger.PushLog | RpcFramework/rocket/common/log.cpp:78-85 | the line goes behind the front buffer, and the application's pipeline does not change |
| Loggers.Logger.SyncLoop | RpcFramework/rocket/common/log.cpp:47-67 | both front buffers are emptied into their own queues, and an empty one causes neither batch nor signal |
| CoroutinePools.GetMarksIffFree | RpcFramework/rocket/coroutine/coroutine_pool.cpp:39-56 | the pool marks what it hands out exactly if a slot is free, and then hands out the first coroutine nobody holds outside its callback; otherwise it grows by half; it hands out a null pointer exactly if the thread's first pooled id is beyond the pool's size |
| CoroutinePools.LeasesAreExclusive | RpcFramework/rocket/coroutine/coroutine_pool.cpp:19-60 | over every run that never asks a full pool: slot i holds coroutine i, and no coroutine is lent while held or inside its callback |
| CoroutinePools.ReturnFrees | RpcFramework/rocket/coroutine/coroutine_pool.cpp:58-60 | a coroutine given back is held by nobody, its slot can be lent again as soon as it is outside its callback, and no other slot changes |
| CoroutinePools.GrowthLendsTwice | RpcFramework/rocket/coroutine/coroutine_pool.cpp:47-55 | a concrete run in which a pool that grows lends the same coroutine to two callers |
| CoroutinePools.CoroutinePool.constructor | RpcFramework/rocket/coroutine/coroutine_pool.cpp:19-33 | slots from the thread's next coroutine id on, none lent, leaving out the main coroutine |
| CoroutinePools.CoroutinePool.GetCoroutineInstanse | RpcFramework/rocket/coroutine/coroutine_pool.cpp:39-56 | the scan and the growth refine the operation GetMarksIffFree is about |
| CoroutinePools.CoroutinePool.ReturnCoroutine | RpcFramework/rocket/coroutine/coroutine_pool.cpp:58-60 | clears the mark of the slot with the coroutine's id and nothing else |

## Left out

- TinyPBs.EncodeTinyPB: requires that the frame length fits its 32-bit length field; the source does not check, and lets it wrap.
- TcpBuffers.TcpBuffer.MoveReadIndex: requires that a move does not pass the write index, which every caller in the repository observes.
- TcpBuffers.TcpBuffer.WriteToBuffer: computes the new size without the bound of an `int`; `Streams.RoundTrip` and the other results about streams suppose a storage that an `int` can index, and follow the one index `decode` computes from bytes of the network to its overflow.
- TcpBuffers.TcpBuffer.MoveWriteIndex: requires that a move does not pass the read index; the only caller moves forward.
- Coders.DecodeBuffer: does not say what the source does after it has left its storage or a local array, while it goes round for ever, or after it has put the read index back over a frame without a positive length; the status `Undefined`, `NoProgress` or `Rewound` stands for that.
- Streams.ChunkInvariance: asks for decode calls only on quiet unfinished frames and for reads that do not fill the storage; DecodeInStream and ArriveRecorded say that exactly then the calls do what they should, and what happens after another is not followed.
- Correlations.RepliesAnswerTheirRequests: takes request ids to be distinct, services to be deterministic, and each write to deliver the whole out buffer; ids from `MsgIDUtil` and partly delivered writes are not part of this model.
- Connections.TcpConnection.Excute: requires of a server that the answers to what is decoded have frames that can be announced, as EncodeTinyPB does; `Correlations.Ask` asks the same of each request that is sent.
- Connections.TcpConnection.Clear: covers the state of the connection; its part in the event loop is `Reactors.ClearKeeps`.
- Reactors.StepKeeps: covers the read, write and accept hooks with at most one waiter per descriptor and direction, and no delete of a descriptor somebody waits for; `connect_hook` and timed calls have two wake sources and are not modelled.
- Reactors.PollKeeps: does not model EPOLLERR and error callbacks, which take a descriptor out of the loop behind a waiting coroutine's back.
- EventLoops.RunsWithinOneSleep: does not claim that adding a task interrupts the current epoll_wait; the eventfd and its drain, themselves a descriptor and a task, are not modelled apart.
- Timers.Timer.AddTimerEvent: asks that the event is not pending yet; an event added twice has two entries, of which a delete removes one.
- Timers.Timer.OnTimer: the callbacks run after it and are further operations; the timer uses one clock, where the source mixes the monotonic timerfd with the wall clock.
- Loggers.NoLineIsLost: one pipeline; the application log is a second copy of it, and only `Loggers.Logger` has both. File names, rotation, formatting and printing to the console are left out.
- CoroutinePools.CoroutinePool.ReturnCoroutine: requires an id inside the vector; the source indexes it unchecked.
- CoroutinePools.LeasesAreExclusive: covers runs in which no get finds every slot taken, and callers return only what they hold; beyond that it is false.
- System calls, `coctx_swap.S`, saved registers and stacks: their results are parameters, and a coroutine's place is a value.
- Protobuf: whether a request parses and what a call answers are arbitrary functions of the bytes.
- Mutexes: each locked region is one step; `ScopeMutex`, whose destructor unlocks a second time, is not relied on for exclusion.
- `FdEventGroup`, `IOThreadGroup`, `NetAddr`, `TcpServer`, `TcpClient`, `RpcChannel`, `RpcController`, `StringCoder`, configuration, start-up and shutdown: plumbing, or only easy properties.
- Check sums: the source writes the constant 1 and never reads it.
