# LightNet, verified in Dafny

LightNet is a C++20 Reactor framework for Linux. This project models the parts of it whose guarantees only show over
whole runs, and proves those guarantees:

| files | what they model |
|---|---|
| `Bytes.dfy`, `Vectors.dfy` | bytes, little-endian integers, decimals; exact vectors |
| `Buffer.dfy` | the two-index growable buffer, as a byte queue |
| `ConnectionSpec.dfy`, `Coroutines.dfy`, `TcpConnection.dfy` | a TCP connection: send, partial write, drain, half-close; the coroutines that await it; the channel's interest bits |
| `LoopSpec.dfy`, `EventLoop.dfy` | the cross-thread task queue with its eventfd |
| `TimerSpec.dfy`, `TimerWheel.dfy` | timers with lazy cancellation |
| `HttpSpec.dfy`, `HttpHeaders.dfy`, `HttpParser.dfy` | the incremental HTTP/1.1 request parser; header names and lengths |
| `RpcSpec.dfy`, `RpcCodec.dfy` | the LNRP message codec and its drain loop |
| `GameWire.dfy`, `GameLayout.dfy`, `GameCodec.dfy` | the LNGP packets and payloads, and where their fields stand |
| `RoomSpec.dfy`, `RoomLedger.dfy`, `RoomEffects.dfy`, `GameRoom.dfy` | the authoritative game room: its runs, and what each event does |
| `ManagerSpec.dfy`, `ManagerRuns.dfy`, `ManagerEffects.dfy`, `RoomManager.dfy` | the room manager with its address index and fan-out |

Each component comes in two layers. A `...Spec` file describes its state as a value and each step as a function, and
proves what holds over every sequence of steps. The other file has the class with its fields, buffers, loops and
methods; each method's postcondition says that it does what the step function says.

Whatever the code cannot decide is an oracle value carried by the event or the call: how many bytes a write takes and
what errno says, what a read delivers, which callbacks add or cancel which timers, when other threads push tasks, what
the clock reads. Time in the game is counted in whole milliseconds and positions are real numbers; a square root is any
non-negative number with the right square, and the sine and cosine of an angle any pair whose squares add up to 1.

Where code and documentation differ the code is followed: the game header takes 28 bytes although it is documented, and
checked on arrival, as 24; an `AsyncRead` that asks for two bytes or more may be resumed with fewer; the move speed is
6, not 4; the room asked for in a join is ignored; a respawn is announced even when it is refused.

## Model

| member | source | states |
|---|---|---|
| `Buffers.Buffer.EnsureWritable` | src/core/buffer.cpp:53-57 | the queue is unchanged, and the room asked for is there afterwards exactly when it was there, compaction makes it, or the array may still grow under the 64 MiB cap |
| `Buffers.Buffer.MakeSpace` | src/core/buffer.cpp:59-74 | both branches, growing and compacting, keep the queue and deliver the room, with the same exact condition |
| `Buffers.Buffer.Append` | src/core/buffer.cpp:36-40 | the queue is extended by exactly the bytes given |
| `Buffers.Buffer.Retrieve` | src/core/buffer.cpp:19-30 | the first len bytes go; asking for too many empties the queue |
| `Buffers.Buffer.RetrieveAsString` | src/core/buffer.cpp:42-47 | hands out and removes the same prefix, cut to what is there |
| `Buffers.Buffer.ReadFd` | src/core/buffer.cpp:76-98 | what the kernel delivers in two segments is appended whole and in order; an error changes nothing |
| `Buffers.Buffer.FindCrlf` | src/core/buffer.cpp:100-107 | the position of the first CRLF of the unread bytes, or none |
| `Buffers.FitsByContents` | src/core/buffer.cpp:59-66 | a capacity condition on the number of unread bytes alone that always suffices |
| `Buffers.TakeAndDrop` | src/core/buffer.cpp:19-47 | what is read out and what stays are together what was there, and as much is read out as is asked for, as far as it goes |
| `Buffers.GrowsOnlyIfNeeded` | src/core/buffer.cpp:59-74 | the array grows exactly when neither the tail nor compaction would do and the cap allows, and no further than asked for; bytes move to the front only for want of room behind them |
| `Buffers.EmptyingRewinds` | src/core/buffer.cpp:19-30 | consuming everything rewinds both indices, consuming less moves only the reader |
| `Buffers.ReadsReceivable` | src/core/buffer.cpp:76-98 | how much one read may bring: what the tail takes, and 64 KiB more if the tail is shorter than that, given room for the overflow |
| `Buffers.RunBuffer` | src/core/buffer.cpp:19-98 | any sequence of operations, reads and failed reads included, whose requests for room can each be met where the indices then stand, reads out and leaves what the same sequence does on a plain byte queue |
| `Buffers.CrlfStable` | src/core/buffer.cpp:104-107 | a CRLF once found stays the first one whatever is appended |
| `Buffers.LineFraming` | src/core/buffer.cpp:104-107 | a line is found by its terminator if and only if it contains no CRLF |
| `ConnectionSpec.OutputIntegrity` | src/net/tcp_connection.cpp:158-188 | in every run the kernel has got a prefix of what was sent; while open, wire and output buffer together are all of it, read interest is on, and write interest is on exactly when the buffer is not empty |
| `ConnectionSpec.InputIntegrity` | src/net/tcp_connection.cpp:89-110 | what the user took followed by the input buffer is what the kernel delivered |
| `ConnectionSpec.HistoryIsEvents` | src/net/tcp_connection.cpp:34-49 | the bytes accounted as sent and received are those of the events of the run |
| `ConnectionSpec.GracefulShutdown` | src/net/tcp_connection.cpp:56-65 | SHUT_WR is issued at most once, only when everything sent is on the wire, and afterwards nothing is accepted or written |
| `ConnectionSpec.FinIsFinal` | src/net/tcp_connection.cpp:112-141 | from SHUT_WR on the wire and the accepted bytes never change again |
| `ConnectionSpec.ShutdownIsAnswered` | src/net/tcp_connection.cpp:56-65 | in every run a connection that shuts down has issued SHUT_WR if and only if everything sent is on the wire |
| `ConnectionSpec.ShutdownAtOnce` | src/net/tcp_connection.cpp:56-65 | shutting down a connected connection issues SHUT_WR at once exactly when nothing is left to write |
| `ConnectionSpec.PhaseMoves` | src/net/tcp_connection.cpp:47-188 | which events bring the connection down, half-close it or leave it as it is; one that comes down is no longer listened to |
| `ConnectionSpec.DownIffFatal` | src/net/tcp_connection.cpp:89-188 | in every run the connection is down if and only if it was closed, destroyed, at end of file, or a system call failed for good |
| `ConnectionSpec.StepConsumes` | src/core/buffer.cpp:42-47 | only consuming takes from the input, and it takes just what is asked for, as far as it goes |
| `ConnectionSpec.DrainCompletes` | src/net/tcp_connection.cpp:113-134 | however the kernel splits the output into partial writes, it drains, the parked writer is rescheduled, and SHUT_WR follows exactly if shutdown was called |
| `Coroutines.ParkedCoroutines` | src/coro/scheduler.cpp:43-70 | a parked reader is listened for and has no input, a parked writer is listened for and has output; every suspension is still parked or was rescheduled exactly once if and only if no await parked on top of another |
| `Coroutines.SuspensionsAddUp` | src/net/tcp_connection.cpp:89-134 | in every run, with any number of readers and writers, the suspensions are those rescheduled, those parked and those whose place was taken, each once |
| `Coroutines.OverwrittenIsLost` | src/net/tcp_connection.cpp:213-228 | a coroutine whose place was taken is resumed too few times in every continuation |
| `Coroutines.WhoIsResumed` | src/net/tcp_connection.cpp:89-134 | exactly which coroutine each event hands to the loop: the reader on arrival, the writer when its last byte is written, and those that need not wait |
| `Coroutines.WriterParks` | src/coro/scheduler.cpp:61-70 | an awaited write parks exactly if it leaves something to write |
| `Coroutines.SecondReaderIsLost` | src/net/tcp_connection.cpp:213-219 | on a new connection a second await for input means that the first reader is never resumed, whatever follows |
| `Coroutines.SecondWriterIsLost` | src/net/tcp_connection.cpp:222-228 | the same for two writers while the kernel takes nothing |
| `Coroutines.HintNotAwaited` | src/coro/scheduler.cpp:39-51 | an awaiting read is handed to the loop for resumption with fewer bytes than its hint by some delivery exactly when the buffer does not satisfy it and the hint is at least 2; and which deliveries do so |
| `Coroutines.HintExample` | src/coro/scheduler.cpp:43-51 | on a new connection, two bytes asked for and one delivered: handed to the loop with one |
| `ConnectionSpec.RunKeepsInv` | src/net/tcp_connection.cpp:89-228 | the stream, shutdown, interest and parking invariants hold together along every run, however many coroutines read and write |
| `TcpConnections.TcpConnection.SendInLoop` | src/net/tcp_connection.cpp:158-188 | direct write, remainder into the output buffer, close on a hard error, as the step function says |
| `TcpConnections.TcpConnection.Send` | src/net/tcp_connection.cpp:34-49 | data is accepted only while connected |
| `TcpConnections.TcpConnection.HandleRead` | src/net/tcp_connection.cpp:89-110 | reads, wakes the parked reader, closes on end of file and on errors |
| `TcpConnections.TcpConnection.HandleWrite` | src/net/tcp_connection.cpp:113-141 | drains, wakes the parked writer, half-closes when disconnecting |
| `TcpConnections.TcpConnection.Shutdown` | src/net/tcp_connection.cpp:56-65 | SHUT_WR at once when nothing is pending, otherwise left to the drain |
| `TcpConnections.TcpConnection.ForceClose` | src/net/tcp_connection.cpp:68-72 | closes only a connecting or connected connection |
| `TcpConnections.TcpConnection.HandleClose` | src/net/tcp_connection.cpp:144-151 | disconnected, no interest left, buffers and parked coroutines untouched |
| `TcpConnections.TcpConnection.ReadSome` | src/net/tcp_connection.cpp:191-201 | reads the socket only when nothing is buffered and reports what is there |
| `TcpConnections.TcpConnection.ResumeReadCoro` | src/net/tcp_connection.cpp:213-219 | parks the reader and asks for read events |
| `TcpConnections.TcpConnection.ResumeWriteCoro` | src/net/tcp_connection.cpp:222-228 | parks the writer and asks for write events if bytes are pending |
| `TcpConnections.TcpConnection.AwaitRead` | src/coro/scheduler.cpp:39-51 | ready, rescheduled or parked, as the step function says |
| `TcpConnections.TcpConnection.AwaitWrite` | src/coro/scheduler.cpp:61-70 | sends, then rescheduled or parked |
| `TcpConnections.TcpConnection.HandleEvent` | src/core/channel.cpp:25-40 | one ready mask is the run of its handlers: closing, error, reading, writing, in that order |
| `TcpConnections.HandlersOfMask` | src/core/channel.cpp:25-40 | which handlers a ready mask calls, each once, and closing before reading before writing; data that comes with a hang-up is read |
| `TcpConnections.Channel.EnableWriting` | src/core/channel.cpp:55-58 | sets the write bit and no other |
| `TcpConnections.Channel.DisableWriting` | src/core/channel.cpp:61-64 | clears the write bit and no other |
| `LoopSpec.NoLostWakeup` | src/core/event_loop.cpp:61-106 | in every interleaving, when the loop is about to poll with tasks pending or a quit requested, the eventfd is readable or another thread is about to write it |
| `LoopSpec.QuitStops` | src/core/event_loop.cpp:61-86 | once told to quit the loop returns from at most the poll it was in, ends at most one drain, never polls again, and stops at its next check |
| `LoopSpec.StopsOnlyIfTold` | src/core/event_loop.cpp:61-86 | in every run the loop has stopped only if somebody told it to quit |
| `LoopSpec.EventfdCounts` | src/core/event_loop.cpp:139-150 | until it is read the eventfd counts the wakeups, up to its maximum |
| `LoopSpec.NoSpuriousWakeup` | src/core/event_loop.cpp:146-150 | once it is read no poll reports it until somebody writes it again |
| `LoopSpec.OwingAddsUp` | src/core/event_loop.cpp:98-106 | a thread owes exactly the wakeups it has taken on by pushing or quitting and not paid |
| `LoopSpec.PaidUpIsReadable` | src/core/event_loop.cpp:98-106 | once all have paid, a loop that polls with work pending finds the eventfd readable |
| `LoopSpec.TaskOrder` | src/core/event_loop.cpp:153-164 | executed, rest of the batch and pending are always the tasks pushed, in order; what is pushed during a drain is not in its batch |
| `LoopSpec.RunsWithinOneIteration` | src/core/event_loop.cpp:61-76 | every task pushed before a poll has been run when that iteration ends, whatever other threads do |
| `LoopSpec.IterationRunsEverything` | src/core/event_loop.cpp:61-76 | left alone, the loop gets through the iteration, has then run everything, and leaves the eventfd at 0 |
| `LoopSpec.RunKeepsInv` | src/core/event_loop.cpp:98-164 | the wakeup and conservation invariants hold along every interleaving |
| `EventLoops.EventLoop.QueueInLoop` | src/core/event_loop.cpp:98-106 | queues at the end; adds one to the eventfd if another thread calls or a drain is running, and otherwise leaves it |
| `EventLoops.EventLoop.RunInLoop` | src/core/event_loop.cpp:89-95 | from the loop thread a task runs at once and nothing is queued; from any other it is queued and the loop woken |
| `EventLoops.EventLoop.Wakeup` | src/core/event_loop.cpp:139-143 | adds one to the eventfd unless it is full |
| `EventLoops.EventLoop.HandleReadWakeup` | src/core/event_loop.cpp:146-150 | clears the eventfd |
| `EventLoops.EventLoop.RequestQuit` | src/core/event_loop.cpp:81-86 | sets the flag, and wakes the loop when another thread does it |
| `EventLoops.EventLoop.DoPendingTasks` | src/core/event_loop.cpp:153-164 | runs exactly what was queued at the swap, in order; what the tasks and other threads queue from the swap to the end is left, in order, with the eventfd readable |
| `EventLoops.EventLoop.Iterate` | src/core/event_loop.cpp:61-76 | one turn runs what was queued before its poll and what its callbacks and other threads queue, in any order, until the swap; and exactly when the eventfd is readable afterwards |
| `TimerSpec.TickIsExact` | src/core/timer_wheel.cpp:40-54 | one tick fires in order of expiry and each timer at most once; of the timers there were it fires exactly those due and still live when their turn comes; whatever is due at any moment of it, timers just added by a callback included, fires later in it or is cancelled; and it leaves none due |
| `TimerSpec.FiresOnce` | src/core/timer_wheel.cpp:40-54 | no timer fires twice in one tick, those added during it included |
| `TimerSpec.ExpiriesRise` | src/core/timer_wheel.cpp:40-54 | the expiries of what fires never decrease and are not past now |
| `TimerSpec.FiredJustified` | src/core/timer_wheel.cpp:40-54 | what fires was due and not cancelled by an earlier callback, or was added by one as due at once |
| `TimerSpec.DueFiresOrIsCancelled` | src/core/timer_wheel.cpp:40-54 | whatever callbacks add, a due timer that did not fire was cancelled by a callback of the tick |
| `TimerSpec.CancelIsFinal` | src/core/timer_wheel.cpp:36-38 | once cancelled, a timer fires in no later tick of any run |
| `TimerSpec.CancelInsideCallback` | src/core/timer_wheel.cpp:45-51 | a cancel inside a callback stops the timer for the rest of that tick already |
| `TimerSpec.DueFromExpiry` | src/core/timer_wheel.cpp:23-34 | a timer is due from its delay after the clock on and not before, and its interval is its delay if it repeats |
| `TimerSpec.FiresOnTime` | src/core/timer_wheel.cpp:23-54 | a timer that is not cancelled fires in no tick of any run before its delay has passed, and fires in the first one after |
| `TimerSpec.RearmedByTick` | src/core/timer_wheel.cpp:40-54 | a due timer that is not cancelled is gone after the tick or, if it repeats, next due its interval after it |
| `TimerSpec.RepeatsAfterDelay` | src/core/timer_wheel.cpp:47-49 | a repeating timer that fired is due again its delay after that tick and not before |
| `TimerSpec.IdsInOrder` | src/core/timer_wheel.cpp:25 | ids are handed out one after the other |
| `TimerSpec.NoTimerIsZero` | src/game/game_server.cpp:38-47 | 0 is no timer's id in any run, so that it can stand for none |
| `TimerSpec.QuietTickEnds` | src/core/timer_wheel.cpp:40-54 | with callbacks that leave the timers alone a tick ends if and only if no due repeating timer has interval 0 |
| `TimerSpec.TickEnds` | src/core/timer_wheel.cpp:40-54 | whatever callbacks cancel and add, timers due at once included, a tick ends if no repeating timer due in it has interval 0 and, from some callback on, the clock has moved past it |
| `TimerSpec.GameServerTick` | src/game/game_server.cpp:30-33 | the game server's repeating timer gets past its first expiry if and only if the interval it was given is not 0 |
| `TimerWheels.TimerWheel.AddTimer` | src/core/timer_wheel.cpp:23-34 | for any delay, a new id and a live timer at clock plus delay |
| `TimerWheels.TimerWheel.CancelTimer` | src/core/timer_wheel.cpp:36-38 | the timer is no longer live; its node stays in the heap |
| `TimerWheels.TimerWheel.Tick` | src/core/timer_wheel.cpp:40-54 | with stale nodes in the heap and callbacks that cancel and add, the tick fires a schedule of the live timers, terminates, and leaves every node after now |
| `TimerWheels.TimerWheel.NextTimeoutMs` | src/core/timer_wheel.cpp:56-62 | between 0 and 1000, never past the earliest live timer, and, if less than 1000, just the time left to some node |
| `HttpSpec.FragmentationIndependence` | src/http/http_parser.cpp:14-55 | however the bytes are cut into chunks, the parser ends in the same state with the same request and the same rest |
| `HttpSpec.ParseInTwo` | src/http/http_parser.cpp:14-55 | parsing a part and then the rest is parsing the whole |
| `HttpSpec.RequestRoundTrip` | src/http/http_parser.cpp:64-93 | a well-formed request is read back exactly, with its keep-alive flag, and what follows is left alone |
| `HttpSpec.PipelinedRequests` | src/http/http_parser.cpp:57-62 | requests sent one after the other and cut anywhere are served as exactly those, in order |
| `HttpSpec.StartLineAccepted` | src/http/http_parser.cpp:64-79 | an accepted request line is verb, absolute path and HTTP version around two spaces, and nothing of it is lost |
| `HttpSpec.AnyHeaderLine` | src/http/http_parser.cpp:81-93 | whatever white space follows the first colon, the key is looked up as the value from then on and no other key changes, keep-alive follows, and a line without a colon is an error |
| `HttpSpec.SetHeaderLookUp` | src/http/http_parser.cpp:88 | a repeated key replaces the value it had |
| `HttpSpec.BodyRead` | src/http/http_parser.cpp:28-52 | the body is as long as Content-Length says, or absent |
| `HttpSpec.LookUpIgnoresCase` | src/http/http_message.cpp:8-25 | with at most one spelling of a key present the lookup finds it whatever the case |
| `HttpHeaders.Names` | src/http/http_parser.cpp:31-92 | the names and separators the parser looks for, as characters |
| `HttpHeaders.IgnoringCase` | src/http/http_message.cpp:8-25 | ignoring case is taking a large and a small letter for the same, and nothing else |
| `HttpHeaders.BodyOfAnySpelling` | src/http/http_parser.cpp:28-52 | a request whose only length header, in any spelling, gives its body's length is read back with that body, and one without such a header without a body |
| `HttpHeaders.ExactSpellingWins` | src/http/http_message.cpp:8-11 | of several spellings the one asked for is found |
| `HttpHeaders.LengthRead` | src/http/http_parser.cpp:31-35 | what std::stoul makes of white space, sign, digits and a tail, and when it throws |
| `HttpHeaders.BadLineStays` | src/http/http_parser.cpp:14-55 | a bad line is not consumed, nor anything after it |
| `HttpHeaders.KeepAlive` | src/http/http_parser.cpp:90-92 | the last Connection header decides keep-alive: on unless it says close |
| `HttpSpec.ContentLengthRoundTrip` | src/http/http_parser.cpp:31-34 | a length written in decimal is read as itself exactly when a size_t holds it |
| `HttpSpec.ServeInTwo` | src/http/http_parser.cpp:14-62 | serving with resets does not depend on where the input is cut |
| `HttpParsers.HttpParser.Parse` | src/http/http_parser.cpp:14-55 | the loop over the buffer computes the parse function, on the parser's fields and the buffer |
| `HttpParsers.HttpParser.ParseStartLine` | src/http/http_parser.cpp:64-79 | stores the three parts and judges them |
| `HttpParsers.HttpParser.ParseHeaderLine` | src/http/http_parser.cpp:81-93 | splits at the first colon, skips leading space, stores, and updates keep-alive |
| `HttpParsers.HttpParser.Reset` | src/http/http_parser.cpp:57-62 | back to the initial state |
| `HttpParsers.LookUp` | src/http/http_message.cpp:8-25 | exact match first, then ignoring case, else empty |
| `HttpParsers.ServeBuffer` | src/http/http_parser.cpp:14-62 | parsing and resetting until no request is complete serves what the buffer holds |
| `RpcSpec.RoundTrip` | src/rpc/rpc_codec.cpp:7-51 | decoding undoes encoding, whatever follows, if and only if the method is shorter than 2^16 and the payload than 2^32 |
| `RpcSpec.HeaderFields` | src/rpc/rpc_codec.cpp:7-22 | which bytes of a message hold the magic number, version, kind, id and method length |
| `RpcSpec.BodyFields` | src/rpc/rpc_codec.cpp:22-27 | and which the method, the payload length and the payload |
| `RpcSpec.EncodeOfDecoded` | src/rpc/rpc_codec.cpp:29-51 | a decoded message re-encodes to the bytes it was read from |
| `RpcSpec.DecodeStable` | src/rpc/rpc_codec.cpp:29-51 | later bytes do not change a message that is there |
| `RpcSpec.PrefixWaits` | src/rpc/rpc_codec.cpp:30-44 | no message is taken before its last byte is there |
| `RpcSpec.FragmentationIndependence` | src/rpc/rpc_server.cpp:33 | for any bytes at all, cut anywhere, the same messages come out and the same rest stays |
| `RpcSpec.StreamRoundTrip` | src/rpc/rpc_server.cpp:33 | messages sent in a row and cut anywhere come out as exactly those, and the unfinished next one stays whole |
| `RpcCodecs.EncodeMessage` | src/rpc/rpc_codec.cpp:7-27 | the buffer holds the encoding |
| `RpcCodecs.DecodeMessage` | src/rpc/rpc_codec.cpp:29-51 | takes exactly one message; a failed decode changes neither buffer nor output |
| `RpcCodecs.DrainBuffer` | src/rpc/rpc_server.cpp:33 | decodes until no message is complete |
| `GameWire.PacketRoundTrip` | src/game/game_codec.cpp:109-162 | a packet decodes as encoded, whatever trails it, if and only if it is version 1 and its payload shorter than 2^16 |
| `GameWire.PacketHeaderLength` | src/game/game_codec.cpp:135-157 | nothing shorter than 28 bytes decodes, although the first test asks for 24 |
| `GameLayout.PacketLayout` | src/game/game_codec.cpp:109-133 | which bytes of a packet hold which header field |
| `GameLayout.PacketAccepted` | src/game/game_codec.cpp:135-162 | a datagram decodes exactly if magic number, version, 28 bytes and the announced payload are there |
| `GameLayout.InputLayout` | src/game/game_codec.cpp:164-180 | which bytes of an input hold which field |
| `GameLayout.InputRead` | src/game/game_codec.cpp:182-211 | what is read from any 16 bytes or more, and that the position is left alone below 32 |
| `GameLayout.SnapshotLayout` | src/game/game_codec.cpp:273-295 | tick, one-byte count, and 34 bytes a player |
| `GameLayout.PlayerLayout` | src/game/game_codec.cpp:280-294 | which of the 34 bytes hold which field |
| `GameLayout.SnapshotAccepted` | src/game/game_codec.cpp:297-331 | a snapshot decodes exactly if all the players it announces are there |
| `GameLayout.EventLayout` | src/game/game_codec.cpp:333-342 | which bytes of an event hold which field |
| `GameLayout.EventAccepted` | src/game/game_codec.cpp:344-362 | 16 bytes are enough, whatever the padding |
| `GameLayout.ChatLayout` | src/game/game_codec.cpp:392-400 | sender, length, and at most 200 bytes of text |
| `GameLayout.ChatAccepted` | src/game/game_codec.cpp:402-410 | decodes exactly if the announced text is there |
| `GameLayout.ProfileLayout` | src/game/game_codec.cpp:450-457 | length, and at most 32 bytes of name |
| `GameLayout.ProfileAccepted` | src/game/game_codec.cpp:459-466 | decodes exactly if the announced name is there |
| `GameWire.InputRoundTrip` | src/game/game_codec.cpp:164-211 | inputs decode as encoded |
| `GameWire.OldStyleInput` | src/game/game_codec.cpp:196-209 | a payload decodes exactly from 16 bytes on, and one of 16 to 31 bytes to its base fields without position |
| `GameWire.SnapshotRoundTrip` | src/game/game_codec.cpp:273-331 | a snapshot decodes as encoded if and only if it has at most 255 players |
| `GameWire.SnapshotPacketRoundTrip` | src/game/game_codec.cpp:109-162 | a packet that carries a snapshot brings all its players over if and only if they are at most 255 |
| `GameWire.EventRoundTrip` | src/game/game_codec.cpp:333-362 | events keep negative values |
| `GameWire.TwosComplement` | src/game/game_codec.cpp:32-38 | a signed value survives its unsigned pattern exactly when it is in range |
| `GameWire.ChatRoundTrip` | src/game/game_codec.cpp:392-410 | a chat arrives as its first 200 bytes, so unchanged exactly when it has no more |
| `GameWire.ProfileRoundTrip` | src/game/game_codec.cpp:450-466 | a name arrives as its first 32 bytes, so unchanged exactly when it has no more |
| `GameWire.UnpackPacked` | src/game/game_codec.cpp:46-97 | fields read in sequence are the fields written |
| `GameWire.UnpackNeeds` | src/game/game_codec.cpp:46-97 | reading succeeds exactly when enough bytes are there |
| `GameCodecs.ByteVector.AppendU32` | src/game/game_codec.cpp:20-24 | pushes the four bytes of the value, low first |
| `GameCodecs.Cursor.ReadU32` | src/game/game_codec.cpp:59-65 | reads four bytes and advances, or fails |
| `GameCodecs.EncodePacketBuffer` | src/game/game_codec.cpp:109-133 | the buffer holds the packet's encoding |
| `GameCodecs.DecodePacketBytes` | src/game/game_codec.cpp:135-162 | the cursor decodes what the format says |
| `GameCodecs.EncodeInputBytes` | src/game/game_codec.cpp:164-180 | writes the input format |
| `GameCodecs.DecodeInputBytes` | src/game/game_codec.cpp:182-211 | reads it, with or without position |
| `GameCodecs.EncodeSnapshotBytes` | src/game/game_codec.cpp:273-295 | the loop over players writes the snapshot format |
| `GameCodecs.DecodeSnapshotBytes` | src/game/game_codec.cpp:297-331 | the counted loop reads it back or fails |
| `GameCodecs.EncodeEventBytes` | src/game/game_codec.cpp:333-342 | writes the event format |
| `GameCodecs.DecodeEventBytes` | src/game/game_codec.cpp:344-362 | reads it |
| `GameCodecs.EncodeChatBytes` | src/game/game_codec.cpp:392-400 | writes sender, length and at most 200 bytes |
| `GameCodecs.DecodeChatBytes` | src/game/game_codec.cpp:402-410 | reads it, or fails when the text is cut short |
| `GameCodecs.EncodeProfileBytes` | src/game/game_codec.cpp:450-457 | writes the length and at most 32 bytes |
| `GameCodecs.DecodeProfileBytes` | src/game/game_codec.cpp:459-466 | reads it, or fails when the name is cut short |
| `RoomLedger.HealthAddsUp` | src/game/room.cpp:114-186 | in every run health is 100 for the start and each respawn less 25 a hit, deaths are respawns plus one if down, alive means health left, and the kill counter is the player's own kills |
| `RoomLedger.ScoreAddsUp` | src/game/room.cpp:146-153 | the kill counters of the players in the room and the kills of those who left add up to their deaths, if and only if nobody in the room has passed 65535 kills |
| `RoomLedger.MatchClock` | src/game/room.cpp:188-200 | the tick counter counts the ticks up to its wrap, the time left is 300 s less the whole seconds ticked, and the match is over exactly from the tick that reaches 300 s |
| `RoomLedger.DeathBound` | src/game/room.cpp:146-186 | five seconds of play for every death, so at most 60, and the 16-bit counter is exact |
| `RoomLedger.MovementBound` | src/game/room.cpp:57-106 | a player who only sends positions and does not respawn is within 100 + 3 (n - 1) of his spawn after n accepted inputs, and n is at most the last sequence number |
| `RoomManagers.ShotMessagesAreTrue` | src/game/room_manager.cpp:161-178 | the value of a Hit event is the exact change of the health of the player it names, a Kill event is sent exactly when that leaves nothing, and a miss is not announced |
| `RoomLedger.FrozenAfterMatch` | src/game/room.cpp:57-61 | after the match nothing changes a remaining player's position, health, life or score |
| `RoomLedger.StepIsBounded` | src/game/room.cpp:73-90 | one input moves a player at most its step, whatever position it claims |
| `RoomLedger.DriftLength` | src/game/room.cpp:96-112 | turning by the yaw keeps the length of the stick |
| `RoomLedger.TickMoves` | src/game/room.cpp:96-112 | a tick moves a player as far as stick and tick length say, whatever way he looks, and not at all if he is dead, sends positions, or the match is over |
| `RoomLedger.CountDownExact` | src/game/room.cpp:191-196 | the accumulator loop takes out exactly the whole seconds there are, down to zero |
| `RoomLedger.StepKeepsInv` | src/game/room.cpp:26-253 | every event keeps the whole account of the room |
| `RoomEffects.JoinAddsOne` | src/game/room.cpp:26-41 | a player joins at full health at his place of the grid under his default name; nobody else changes; 0 and ids in use are refused |
| `RoomEffects.SpawnsApart` | src/game/room.cpp:33-36 | places of the grid are at least 3 apart |
| `RoomEffects.LeaveRemovesOne` | src/game/room.cpp:43-45 | leaving removes one player and changes nobody else |
| `RoomEffects.InputTaken` | src/game/room.cpp:57-94 | which inputs count, that all their fields are taken over, and that the claimed position is reached within the limit, or else approached in a straight line by exactly the limit |
| `RoomEffects.WeaponTaken` | src/game/room.cpp:162-167 | weapons 0 to 5 are taken by the living, and nothing else changes |
| `RoomEffects.NameTaken` | src/game/room.cpp:169-173 | a non-empty name is taken over to its 32nd byte |
| `RoomEffects.RespawnRestores` | src/game/room.cpp:175-186 | who is granted a respawn, and that he stands up whole at the place of his id |
| `RoomEffects.HitGeometry` | src/game/room.cpp:255-282 | the ray hits exactly if its point nearest to the chest is at most 1.2 away and 0.5 to less than 80 along it |
| `RoomEffects.ShotHitsFirst` | src/game/room.cpp:114-160 | from 1.5 above the shooter's own position a shot hits the first living other player in its way, and nobody only if nobody is |
| `RoomEffects.ShotTaken` | src/game/room.cpp:114-160 | who may shoot, what the target loses, whose the kill is, and that nothing else changes |
| `RoomEffects.TickChangesOnly` | src/game/room.cpp:188-253 | a tick changes of each player only his position and, if he is dead, shortens his wait by its own length |
| `RoomEffects.TickMovesAlong` | src/game/room.cpp:96-112 | the drift along and across the heading is what the stick says, and neither up nor down |
| `RoomEffects.WaitShrinks` | src/game/room.cpp:244-253 | in every run the wait of a dead player is what it was less the ticks since, down to zero |
| `RoomEffects.RespawnAfterFiveSeconds` | src/game/room.cpp:146-186 | a killed player is granted a respawn exactly from the tick on that makes five seconds, during the match |
| `RoomEffects.SnapshotTells` | src/game/room.cpp:204-223 | a snapshot tells of everybody once, each number in its own field |
| `RoomLedger.PlayersArePresentable` | src/game/room.cpp:162-173 | in every run everybody has one of the six weapons and, ids being 32-bit, a name of 1 to 32 bytes |
| `Vectors.Triangle` | src/game/room.cpp:75-90 | the triangle inequality for the distances above |
| `Vectors.RootCompare` | src/game/room.cpp:272-276 | comparing a distance with a radius is comparing the squares |
| `GameRooms.GameRoom.AddPlayer` | src/game/room.cpp:26-41 | refuses id 0 and ids in use, else places a fresh player |
| `GameRooms.GameRoom.RemovePlayer` | src/game/room.cpp:43-45 | removes one player and reports whether there was one |
| `GameRooms.GameRoom.ApplyInput` | src/game/room.cpp:57-94 | ignores the dead, the late and the stale, else takes the input |
| `GameRooms.GameRoom.FindHitTarget` | src/game/room.cpp:255-282 | a nearest living other player the ray hits, or nobody if there is none |
| `GameRooms.GameRoom.ApplyFire` | src/game/room.cpp:114-160 | the shot lands on such a target and wounds or kills it |
| `GameRooms.GameRoom.ApplyRespawn` | src/game/room.cpp:175-186 | revives only the dead whose wait is over |
| `GameRooms.GameRoom.ApplyWeapon` | src/game/room.cpp:162-167 | weapons 0 to 5, for the living |
| `GameRooms.GameRoom.ApplyProfile` | src/game/room.cpp:169-173 | a non-empty name, cut to 32 bytes |
| `GameRooms.GameRoom.AdvanceMatchClock` | src/game/room.cpp:189-200 | the tick counter and the accumulator loop |
| `GameRooms.GameRoom.SimulateRespawn` | src/game/room.cpp:244-253 | every dead player's wait shrinks, no further than zero |
| `GameRooms.GameRoom.SimulateMovement` | src/game/room.cpp:96-112 | the living without a position of their own drift |
| `GameRooms.GameRoom.Tick` | src/game/room.cpp:188-225 | clock, then waits, then movement; the snapshot holds what every player then is, each once |
| `ManagerSpec.KeyInjective` | src/game/room_manager.cpp:350-352 | address keys are equal exactly for equal addresses |
| `ManagerSpec.KeyExample` | src/game/room_manager.cpp:350-352 | a key is the dotted address, a colon and the port |
| `ManagerSpec.ActKeepsInv` | src/game/room_manager.cpp:28-114 | joins, departures, new addresses and ticks keep the index and the roster in one-to-one correspondence |
| `ManagerSpec.MoveBijection` | src/game/room_manager.cpp:109-113 | moving a player to a new address drops the old key and adds the new one |
| `ManagerSpec.JoinBijection` | src/game/room_manager.cpp:53-58 | a first join adds one key and one player |
| `ManagerSpec.LeaveBijection` | src/game/room_manager.cpp:65-75 | leaving removes the player and his key |
| `ManagerSpec.CountsAgree` | include/lightnet/game/room_manager.h:38 | the number of known addresses is the number of players |
| `ManagerSpec.DistinctAddresses` | src/game/room_manager.cpp:269-283 | two players never share an address |
| `ManagerSpec.RefreshIsOnlyAddress` | src/game/room_manager.cpp:85-114 | a datagram that asks nothing of the room changes at most the address of the one player it speaks for |
| `ManagerSpec.CommandIgnoresAddress` | src/game/room_manager.cpp:138-224 | what a command does does not depend on where its sender is heard from |
| `ManagerRuns.IndexIsRoster` | src/game/room_manager.cpp:28-114 | in every reachable state a key leads to a player if and only if he is in the room at that address |
| `ManagerRuns.IdsAreFresh` | src/game/room_manager.cpp:53 | no id is handed out twice before 2^32 have been |
| `ManagerRuns.JoinsSucceed` | src/game/room_manager.cpp:28-63 | until the ids run out no join that decodes is turned away |
| `ManagerEffects.WhoSpeaks` | src/game/room_manager.cpp:85-114 | a datagram speaks for the player at its address, or from an unknown address for the one its header names, if he is in the room |
| `ManagerEffects.CommandsAreObeyed` | src/game/room_manager.cpp:138-224 | every command that decodes is carried out for the player its datagram speaks for, and without one nothing happens |
| `ManagerEffects.TicksReachTheRoom` | src/game/room_manager.cpp:235-247 | a tick of the manager ticks the room and touches nothing else |
| `ManagerEffects.LeavingEmptiesTheAddress` | src/game/room_manager.cpp:65-75 | after a departure nobody is at that address and everybody else is as before |
| `ManagerEffects.ChatIsPassedOn` | src/game/room_manager.cpp:181-191 | a chat goes to the room under the sender's real id |
| `ManagerEffects.PongEchoes` | src/game/room_manager.cpp:332-348 | a ping is answered once, to where it came from, with its stamp, number and tick and both clock readings |
| `ManagerEffects.JoinAckTellsTheTick` | src/game/room_manager.cpp:254-267 | a join is acknowledged with the tick and the interval of the room |
| `ManagerEffects.FanOutHeaders` | src/game/room_manager.cpp:269-330 | what the header of every broadcast datagram holds |
| `ManagerEffects.FanOutReachesAll` | src/game/room_manager.cpp:269-330 | a broadcast reaches every player, and none twice |
| `ManagerEffects.SnapshotHeader` | src/game/room_manager.cpp:269-283 | which bytes of a snapshot datagram hold what |
| `ManagerEffects.MatchStateOncePerPeriod` | src/game/room_manager.cpp:235-247 | the snapshot goes out every tick, and the match state exactly once in each period of about a second |
| `ManagerRuns.GameStaysFair` | src/game/room_manager.cpp:116-247 | whatever datagrams arrive, in every reachable state health and deaths add up, nobody has died more than 60 times, the score counters add up until one wraps, and the clock is right |
| `RoomManagers.FanOutDistinct` | src/game/room_manager.cpp:269-330 | no address gets a broadcast twice |
| `RoomManagers.FanOut` | src/game/room_manager.cpp:268-330 | one datagram for every player, at his address, with the header of the room |
| `RoomManagers.GameRoomManager.Join` | src/game/room_manager.cpp:28-63 | known addresses keep their player, new ones get the next id if the room admits it |
| `RoomManagers.GameRoomManager.LeaveByPeer` | src/game/room_manager.cpp:65-75 | player and key go together |
| `RoomManagers.GameRoomManager.ResolveAndRefreshPeer` | src/game/room_manager.cpp:85-114 | who a datagram speaks for, and the index after it |
| `RoomManagers.GameRoomManager.HandlePacket` | src/game/room_manager.cpp:116-233 | the dispatch does to room and index what the action says, and sends the announcements to the room and the answer to the sender that it should |
| `RoomManagers.JoinAckIsTrue` | src/game/room_manager.cpp:119-136 | a join is answered exactly when the address is bound afterwards, and with the player it is bound to |
| `RoomManagers.DesiredRoomIsIgnored` | src/game/room_manager.cpp:28-31 | the room a join asks for changes neither what happens nor the answer |
| `RoomManagers.RefusedRespawnIsAnnounced` | src/game/room_manager.cpp:201-214 | a respawn is always announced, and the announcement is all that happens exactly when it is not granted |
| `RoomManagers.RefusedRespawnExample` | src/game/room_manager.cpp:201-214 | a player who has just joined asks: all are told of a respawn and the room is as it was |
| `RoomManagers.GameRoomManager.TickRooms` | src/game/room_manager.cpp:235-247 | the room ticks, everybody is sent a snapshot of all players, and the match state when it is due |
| `RoomManagers.SnapshotArrives` | src/game/room_manager.cpp:269-283 | a client reads all players of the room out of the bytes of a snapshot datagram if and only if there are at most 255 |

## Left out

- System calls, pollers and sockets: foreign code; every answer they can give is an oracle value.
- Cross-thread `send`, `shutdown` and `force_close`: deferred to the loop thread; the connection is modelled from there.
- `write_complete_callback_`: nothing installs one.
- Coroutine frames: a coroutine is a token handed to the loop; their destruction and their exceptions are not modelled.
- The scheduler's list of live tasks, and `Channel::remove` with the poller's own bookkeeping.
- `HttpResponse` and its serialization: string building.
- `HttpServer`, `RpcServer`, `TcpServer`, `ConnectionManager`, thread pool, logger, metrics: plumbing around the above.
- The memory layout of `std::priority_queue` and the order of `std::unordered_map`: the heap is the set of its nodes with any earliest one on top, tables of players are walked in any order, headers in the order they came.
- What follows an exception out of `std::stoul`: the parser then stays in a state of its own, `Thrown`.
- Locales: `isspace` and `tolower` are those of the C locale.
- `Buffers.Buffer`: a buffer is never constructed larger than the capacity cap.
- `TimerWheels.TimerWheel.Tick`: no repeating timer that comes due in the tick has interval 0 (`TimerSpec.QuietTickEnds` shows why), and the clock does not stand still through endlessly many callbacks.
- `LoopSpec.INIT`: lies after `loop` has reset its flag; a quit requested before the loop starts is lost, and that is not modelled.
- `RoomManagers.GameRoomManager.TickRooms`: the snapshot is a list of players there; what of it survives the one-byte player count is `RoomManagers.SnapshotArrives`, for any way of putting a player's numbers into the fields.
- `TcpConnections.TcpConnection`: its sends and reads refine their steps as long as the buffers need not pass 64 MiB; what a full buffer does to a connection is not modelled, so the guarantees of `ConnectionSpec` hold of the class up to there.
- Wrap-around of timer ids, request ids and input sequence numbers: these are unbounded here.
- The payload formats of fire, join, acknowledgement, ping, pong, weapon and match state: the same records of fields as those modelled.
- IEEE rounding in the game room: exact milliseconds and real numbers instead.
