# Verified model of the echo servers and load clients

The repository holds echo servers in several languages and the clients that load them. This project
models the parts of it that are real state machines, as Dafny programs and transition systems, and
proves what they promise for every behaviour of the network and every interleaving of threads.

- `Net.dfy`, `EchoSpec.dfy`: the outcomes of `recv` and `send`, and the TCP Based Echo Service of
  RFC 862 as a FIFO byte queue (`received`, `sent`, and the queue of bytes owed).
- `SlidingBuffer.dfy`: the buffered server (server-honest.c, thread-honest.c): an array with a moving
  start and a length, compacted in place, an optimistic send, and a write watcher.
- `HalfDuplex.dfy`, `PingPong.dfy`: the Java server's ByteBuffer that is filled and drained in turn,
  and the asio server with one outstanding operation.
- `Servers.dfy`: all of these refine the one specification, and keep making progress.
- `Unbuffered.dfy`: the server without a buffer (server.c), compared with the buffered one.
- `Timeouts.dfy`: what keeps a connection of these servers from being dropped by its timer.
- `LoadClient.dfy`, `LoadTest.dfy`, `ConnectionHandler.dfy`: the asio load client; a handler cut at
  each update of a shared counter, all handlers interleaved, and the handler as an object.
- `Averages.dfy`: the averages printed from counters that change while they are read.
- `LatencyIntegral.dfy`: what the latency sum of the load test measures.
- `Requests.dfy`, `EndToEnd.dfy`: the request and the check of the answer; a pipelining client
  composed with any of the servers over two byte streams cut anywhere.
- `RegistrationQueue.dfy`, `Dispatch.dfy`: the hand-over of new channels to a worker, and the placing
  of connections on workers.
- `Statistics.dfy`, `SocketHandover.dfy`: the Erlang client's statistics as a fold over interleaved
  messages, and the Erlang server's hand-over of a socket to the process that echoes.

How the world is modelled. A `recv` delivers any prefix of the bytes on the wire that fits its window,
or the end of the stream, or "try again", or an error; a `send` takes any number of the bytes it is
given, or none, or fails. An offer beyond the window is cut to it, so a run is an arbitrary sequence of
events. A callback runs only while its watcher (or interest, or outstanding operation) is active.
Callbacks of one connection are atomic; only the shared counters and the request queue are cut finer.
Streams between client and server are reliable and in order, section 2.2 of RFC 9293. Values marked as
history in the comments (`received`, `sent`, `pushed`, `answered`, `mine`, `offered`, `settled` and
`restarts`) only record the run. The client's clock is monotone, in microseconds; counters are
unbounded, except where their 64-bit width is the point (`Minus64`, `WRAP`).

Where the programs do not meet what one would expect of them, the condition is proved exactly:

- A read of zero bytes does not always mean the end of the stream: with the whole array pending,
  server-honest.c drops a healthy connection with all its bytes (`FullBufferReadsAsEndOfStream`), and
  that state is reachable (`FullBufferIsReachable`).
- The compaction's `memcpy` may be given overlapping ranges (`OverlapIsReachable`), which section
  7.24.2.1 of C11 leaves undefined. The model copies upwards, which is proved right for all ranges; a
  downward copy is right for all contents exactly when the ranges coincide or are disjoint
  (`CopyOrderMatters`).
- server.c has sent all it received exactly on the runs without a short send
  (`EchoesExactlyWithoutShortSends`). For given lengths of reads and sends it meets the echo service
  for every content exactly when nothing goes out after the first short send (`MeetsServiceIff`,
  `ShortSendBreaksEcho`).
- The write watcher does not imply pending bytes; which callbacks leave it on with an empty buffer is
  said by `StaleExactly`, and `StaleWriteWatcher` is a run to such a state.
- An Erlang process that waits in vain for its leave closes its socket only if it owns it by then;
  otherwise the socket is never closed (`LeaksExactly`, `LeakedForEver`).
- Only a refused read starts the timer of server-honest.c and thread-honest.c again, so they drop a busy
  connection after a minute; server.c renews it with every echo (`SurvivesIff`, `EchoRenewsOnlyDirect`).
- The answer check stops at the NUL behind the digits (`CheckAcceptsExactly`, `WrongAnswerAccepted`).
- The language leaves open in which order `print_stat` reads the counters of an average. Of the six
  orders for the connection average, those that read `children` last keep it within the timeout in every
  run, and the other four do not, the textual order among them (`ConnectAverageBoundedIff`); of the two
  for the latency average, only the one that reads the sum first does (`LatencyAverageBoundedIff`).
- A request to register a missing channel (the null of a non-blocking `accept`) kills the worker, and
  nothing else does, whatever registrations fail (`SettlesAllUnlessMissing`, `NothingSettledFromMissing`).
- Round-robin placement stays balanced past the wrap of its counter exactly when the number of workers
  divides the counter's range (`BalancedForeverIff`), that is, for 64 bits, when it is a power of two
  (`BalancedForeverIffPowerOf2`); the Java slot is valid exactly for the tickets
  named in `SlotInRangeIff`.

## Model

| member | source | states |
|---|---|---|
| EchoSpec.PerformKeepsFifo | c-bachan/server-honest.c:90-167 | in every run of the echo service, sent bytes followed by queued bytes are the received bytes; both streams only grow |
| SlidingBuffer.MoveDown | c-bachan/server-honest.c:97-103 | the in-place copy loop puts every pending byte at its place from the start of the array and leaves the rest untouched, for overlapping ranges too |
| SlidingBuffer.ReadsExactly | c-bachan/server-honest.c:95-108 | with at least 32 of the 16384 bytes free behind the pending ones a read is offered exactly these and nothing is moved; with fewer the pending bytes are moved to the start and it is offered all that is free |
| SlidingBuffer.CompactedKeepsPending | c-bachan/server-honest.c:95-108 | compaction keeps the pending bytes, leaves a window of 32 bytes whenever that many are free, and an empty one only when 16384 bytes are pending; when it happens is `ReadsExactly` |
| SlidingBuffer.CopyOrderMatters | c-bachan/server-honest.c:100 | a descending copy is right for every content if and only if the ranges coincide or do not overlap |
| SlidingBuffer.OverlapIsReachable | c-bachan/server-honest.c:95-103 | a run of one callback leads to a state whose next read callback moves 16383 bytes down by one place |
| SlidingBuffer.StepRefines | c-bachan/server-honest.c:46-185 | each callback is at most one arrival followed by at most one departure or a close of the echo service |
| SlidingBuffer.StepKeepsWatching | c-bachan/server-honest.c:67-87 | no lost write wakeup: between callbacks a live connection reads, has its timer, and has its write watcher active whenever bytes are pending; a deleted one has no watcher left |
| SlidingBuffer.EveryRun | c-bachan/server-honest.c:58-221 | over every run of a new connection, through short reads, short writes, refusals and compactions: the slice stays in the array, sent bytes followed by the slice are the received bytes, pending bytes of a live connection have an active write watcher, and no callback runs after deletion |
| SlidingBuffer.ClosesExactly | c-bachan/server-honest.c:46-185 | a live connection is deleted by its timeout, by an error of a read or of an attempted write, and in server-honest.c by a read of zero bytes or any read into a full array, and by nothing else |
| SlidingBuffer.AddedInv | c-bachan/server-honest.c:187-206 | a connection just added satisfies the invariant whatever its memory holds |
| SlidingBuffer.FullBufferReadsAsEndOfStream | c-bachan/server-honest.c:124-129 | bytes on the wire are not read if and only if 16384 bytes are pending, and a healthy connection is dropped by the read if and only if so and the program deletes on zero |
| SlidingBuffer.FullBufferIsReachable | c-bachan/server-honest.c:90-129 | two callbacks from a new connection lose 16384 bytes |
| SlidingBuffer.DrainStops | c-bachan/thread-honest.c:55-85 | without arrivals, max(pending, 1) productive write callbacks stop the write watcher and have sent exactly the pending bytes |
| SlidingBuffer.StaleExactly | c-bachan/server-honest.c:58-166 | a callback leaves the write watcher on over an empty buffer if and only if it was on before, and either the send after a non-empty read takes all that is pending, or nothing was read, the buffer was empty, and no send of the write callback succeeded |
| SlidingBuffer.StaleWriteWatcher | c-bachan/server-honest.c:146-166 | a run leaves the write watcher on with an empty buffer, and one zero-length send removes it and nothing else; exactly when it happens is `StaleExactly` |
| SlidingBuffer.RestartsExactly | c-bachan/server-honest.c:108-117 | the timer is started again by a refused read of a live connection and by nothing else |
| SlidingBuffer.EchoClient.constructor | c-bachan/server-honest.c:187-206 | the object starts as the empty connection with its read and timeout watchers |
| SlidingBuffer.EchoClient.RecvCallback | c-bachan/server-honest.c:90-185 | the read callback over the real array, with its restart of the timer, is one readable step of the state machine and keeps the invariant |
| SlidingBuffer.EchoClient.SendCallback | c-bachan/server-honest.c:58-88 | the write callback is one writable step and keeps the invariant |
| SlidingBuffer.EchoClient.TimeoutCallback | c-bachan/server-honest.c:46-50 | the timeout callback deletes the connection |
| SlidingBuffer.EchoClient.Delete | c-bachan/server-honest.c:208-221 | deletion stops all watchers and changes nothing else |
| HalfDuplex.StepRefines | java-philipp/src/main/java/vn/itim/samples/echoserver/Server.java:89-114 | each call of `process` keeps "written bytes plus unread part equal read bytes, and interest in reading means nothing is unread", and is one action of the echo service |
| HalfDuplex.ClosesExactly | java-philipp/src/main/java/vn/itim/samples/echoserver/IOScheduler.java:79-101 | an open key is closed, and its buffer let go, if and only if the operation it is interested in meets the end of the stream or an exception |
| HalfDuplex.TakesTurns | java-philipp/src/main/java/vn/itim/samples/echoserver/Server.java:97-112 | a key turns to writing after every read, also one of no bytes, that takes at most 8192 bytes; it turns back exactly when a write leaves nothing |
| HalfDuplex.Connection.ProcessReadable | java-philipp/src/main/java/vn/itim/samples/echoserver/Server.java:97-106 | clear, read and flip leave exactly the bytes read as the unread part and turn interest to writing; the call asks for a close exactly on end of stream or an exception |
| HalfDuplex.Connection.ProcessWritable | java-philipp/src/main/java/vn/itim/samples/echoserver/Server.java:107-112 | a write takes the head of the unread part, and interest returns to reading exactly when nothing is left |
| HalfDuplex.Connection.Turn | java-philipp/src/main/java/vn/itim/samples/echoserver/IOScheduler.java:79-101 | handling one selected key, with the close it may lead to, is one step and keeps the invariant |
| PingPong.StepRefines | c++-virtan/server.cc:17-32 | each completion keeps "sent bytes plus the rest of the write in flight equal read bytes" and is one action of the echo service |
| PingPong.ClosesExactly | c++-virtan/server.cc:23-32 | a connection is deleted if and only if its outstanding operation meets the end of the stream or an error |
| PingPong.TakesTurns | c++-virtan/server.cc:17-32 | a completed read of at most 4096 bytes is followed by a write of exactly these, and reading resumes exactly when all of them have gone |
| PingPong.Connection.Read | c++-virtan/server.cc:23-27 | the read handler starts a write of exactly what came, or deletes the connection |
| PingPong.Connection.Write | c++-virtan/server.cc:29-32 | the write advances over the head of what is in flight; the next read starts only when all has gone |
| Servers.RunRefines | c-bachan/server-honest.c:58-185 | every run of every server is a run of the echo service |
| Servers.RunIsFifo | c-bachan/server-honest.c:58-221 | in every run, also after a close, sent bytes followed by the bytes held are the received bytes |
| Servers.OneSpecification | java-philipp/src/main/java/vn/itim/samples/echoserver/Server.java:89-114 | any two runs of any two servers on comparable inputs have comparable outputs; equal inputs with nothing held have equal outputs |
| Servers.ReceivesOnlyOffered | c++-virtan/server.cc:17-27 | a turn receives a prefix of what the wire offers and nothing else |
| Servers.FlushSendsAll | c-bachan/server-honest.c:79-87 | whenever bytes are held, one turn in which the socket accepts them sends all of them and leaves the server ready to read |
| Servers.ReadTakes | c-bachan/server-honest.c:108-131 | a server ready to read takes at least one byte of a non-empty offer |
| Unbuffered.OutputIsHeads | c-bachan/server.c:70-118 | the output is always the concatenation of a prefix of each chunk read |
| Unbuffered.StepExactly | c-bachan/server.c:41-118 | a connection is deleted by its timeout, a read of nothing, an error of the read, and any send that fails or is refused, and by nothing else; a chunk has at most 4096 bytes, of which goes out what its one send accepts |
| Unbuffered.EchoesExactlyWithoutShortSends | c-bachan/server.c:104-113 | the output equals the input if and only if every read that delivers something meets a send that accepts all of it |
| Unbuffered.MeetsServiceIff | c-bachan/server.c:70-118 | with lengths and outcomes of reads and sends fixed, the streams are those of a run of the echo service for every content if and only if nothing is sent after the first short send |
| Unbuffered.ShortSendBreaksEcho | c-bachan/server.c:104-117 | one short send and a later chunk give an output that is no prefix of the input |
| Unbuffered.NeverUsedIff | c-bachan/server-honest.c:131-166 | the buffered server's buffer is empty and its write watcher off after every callback of a run if and only if every send after a read takes all that is pending, and then all received has been sent |
| Unbuffered.CompleteSendsNeedNoBuffer | c-bachan/server-honest.c:131-166 | with complete sends a run of the buffered and a run of the unbuffered server on one stream, each with its own turns, have both echoed all they received; on arrivals both stay connected and echo at least a byte a turn |
| Unbuffered.SmallOffersSameRun | c-bachan/server.c:70-118 | with complete sends and offers of at most 32 bytes both servers have read, sent and survived the same after every event |
| Unbuffered.UnbufferedClient.RecvCallback | c-bachan/server.c:70-118 | the callback over its local buffer is one step of the unbuffered server, with its restarts of the timer |
| Timeouts.SurvivesIff | c-bachan/server-honest.c:108-117 | when nothing else deletes it, a connection survives a timed run if and only if, whenever the loop looks at a due timer, a renewal came less than 60 seconds before: a refused read, or for server.c (lines 81-84, 117) a send that did not fail |
| Timeouts.EchoRenewsOnlyDirect | c-bachan/server.c:104-117 | after a byte echoed at second 30 the timer of server.c is due at second 90 and that of the buffered server still at second 60 |
| LoadClient.TurnKeepsAccounted | client-c++-virtan/client.cc:80-166 | a handler counts as child or active or, between the two updates, both; it counts at most one error; its sums are bounded by the timeout |
| LoadClient.TurnKeepsTimed | client-c++-virtan/client.cc:114-166 | the timer queue holds exactly the unanswered sends, oldest first, and the latency sum is the sum of the waits of the k-th answer for the k-th send |
| LoadClient.FailsExactly | client-c++-virtan/client.cc:80-166 | a healthy handler fails on exactly these events: a connect that failed or took over 30 seconds, a failed write, a failed or different answer, and one over 30 seconds after the oldest request without an answer |
| LoadClient.FailureIsCounted | client-c++-virtan/client.cc:84-162 | the next update counts one connection error for the first two and one exchange error for the others |
| LoadClient.FailedIsSilent | client-c++-virtan/client.cc:114-148 | after its error nothing that happens to a handler is sent or counted |
| LoadTest.SpawnChain | client-c++-virtan/client.cc:59-78 | in every reachable state at most one handler can still construct another, ids are consecutive, at most clients_max + 1 are taken; a finished chain has attempted exactly clients_max connections |
| LoadTest.CanAlwaysFinishSpawning | client-c++-virtan/client.cc:59-78 | from every reachable state of the test the chain can go on to its end, with 10000 handlers brought to their connect and the surplus one |
| LoadTest.CountersConserved | client-c++-virtan/client.cc:68-94 | under every interleaving children plus active are the started handlers plus those between the two updates, active never underflows, and errors are at most the children |
| Averages.ConnectAverageBoundedIff | client-c++-virtan/client.cc:183 | for each of the six orders of the three reads: the connection average is at most the timeout in every run, with any updates between the reads, if and only if `children` is read last |
| Averages.LatencyAverageBoundedIff | client-c++-virtan/client.cc:184 | for both orders of the two reads: the latency average is at most the timeout in every run whose message counter fits 64 bits if and only if the sum is read first |
| Averages.LatencyAverageExactly | client-c++-virtan/client.cc:184 | the average is the sum over the messages, rounded down, or the sum itself before any message |
| Averages.ConnectAverageExactly | client-c++-virtan/client.cc:183 | the same over the children without error; when more errors than children have been read the difference wraps and the average shown is 0 |
| LatencyIntegral.LatencyIsIntegral | client-c++-virtan/client.cc:114-166 | at every moment of an error-free run, latency added, latency measured and ages of queued timers together are the time-integral of the outstanding requests |
| LatencyIntegral.AnsweredLatencyIsIntegral | client-c++-virtan/client.cc:156-164 | once a handler's queue has drained its latency sum is that integral |
| LatencyIntegral.LatencySumIsTotalIntegral | client-c++-virtan/client.cc:164 | with all handlers healthy and answered, the shared latency sum is the integral of the requests in flight over all connections |
| ConnectionHandler.Connection.Begin | client-c++-virtan/client.cc:67-71 | the constructor's body is two updates of the interleaved model and adds exactly their gain to the counters |
| ConnectionHandler.Connection.Construct | client-c++-virtan/client.cc:59-72 | a new handler takes the next id and runs that body |
| ConnectionHandler.Connection.Connect | client-c++-virtan/client.cc:80-107 | the connect callback is the run of its updates: child counted, active left, then the verdict |
| ConnectionHandler.Connection.Verdict | client-c++-virtan/client.cc:84-107 | an error or a late connect counts one error and ends the handler; otherwise the time is added and the first request sent |
| ConnectionHandler.Connection.SendStaff | client-c++-virtan/client.cc:114-122 | a send pushes one timer, unless the handler has failed |
| ConnectionHandler.Connection.Stub | client-c++-virtan/client.cc:124-133 | a failed write counts one error, unless the handler has failed before |
| ConnectionHandler.Connection.CompareStaff | client-c++-virtan/client.cc:147-166 | an answer is charged to the oldest timer; a wrong or late one counts one error |
| Requests.CheckAcceptsExactly | client-c++-virtan/client.cc:96-99 | the check accepts exactly the answers that agree up to and including the NUL after the digits, at most 11 of 32 bytes |
| Requests.DigitsReadBack | client-c++-virtan/client.cc:97 | the digits read back as decimal give the random number, without a leading zero |
| Requests.RequestLayout | client-c++-virtan/client.cc:96-99 | up to the NUL the request spells its random number; behind it are spaces, and a line feed in the last of 32 bytes |
| Requests.WrongAnswerAccepted | client-c++-virtan/client.cc:150 | an answer without its line feed is accepted |
| Requests.RepeatAt | client-c++-virtan/client.cc:121 | in a stream of equal requests every 32-byte piece at a request boundary is the request |
| EndToEnd.StepKeepsInv | client-c++-virtan/client.cc:114-166 | bytes written are the requests sent and are received or on the way; bytes sent back are the answers accepted, the half-read one, and those on the way |
| EndToEnd.AnswersMatchRequests | client-c++-virtan/client.cc:143-166 | for every server, fragmentation and timing: a completed read is the request, a timer is queued, the k-th read pops the k-th timer, and only the timeout can fail it |
| EndToEnd.ClockFollows | client-c++-virtan/client.cc:156 | the clock of a run is the time that passes in its events |
| EndToEnd.AnswerTakesPassedTime | client-c++-virtan/client.cc:114-164 | whatever runs come before the k-th send and between it and the k-th completed read: the answer is charged exactly the time that passed in between, and fails if and only if that exceeds 30 seconds |
| EndToEnd.AnswerCountsItsTime | client-c++-virtan/client.cc:163-164 | the two updates after it add one message and just that time |
| EndToEnd.ServerRuns | c-bachan/server-honest.c:58-185 | the server's side of every run of the composed system is a run of the server alone, on the events that reach it |
| EndToEnd.ClientRuns | client-c++-virtan/client.cc:114-166 | the client's side of every such run is a run of the handler alone, in which every completed read is a right answer |
| EndToEnd.QuietMeansAnswered | client-c++-virtan/client.cc:156-164 | nothing under way and nothing held means every request is answered and the latency sum is the sum of the waits |
| EndToEnd.CanAlwaysFinish | c-bachan/server-honest.c:146-166 | from every reachable state with a healthy client and an open server there is a continuation in no time that answers and counts every request |
| RegistrationQueue.NoRequestLost | java-philipp/src/main/java/vn/itim/samples/echoserver/IOScheduler.java:48-56 | under every interleaving the requests of the `register` calls, in their order, are those settled, in the worker's hand and queued, and `poll` never yields null |
| RegistrationQueue.NothingSettledFromMissing | java-philipp/src/main/java/vn/itim/samples/echoserver/IOScheduler.java:119-130 | from the first request without a channel on nothing is ever settled |
| RegistrationQueue.OutcomesRecorded | java-philipp/src/main/java/vn/itim/samples/echoserver/IOScheduler.java:104-131 | in every run the k-th request settled counts as registered if and only if the k-th registration attempted succeeded, and a channel is being closed only after a failed one or for want of a channel |
| RegistrationQueue.FailedIsClosed | java-philipp/src/main/java/vn/itim/samples/echoserver/IOScheduler.java:119-130 | after a failed registration the worker goes on only by way of closing the channel, and dies of it when that is missing |
| RegistrationQueue.IdleWorkerSelects | java-philipp/src/main/java/vn/itim/samples/echoserver/IOScheduler.java:61-104 | with nothing to settle every second step is a `select`, and after each the queue is looked at again |
| RegistrationQueue.SettlesAllUnlessMissing | java-philipp/src/main/java/vn/itim/samples/echoserver/IOScheduler.java:104-131 | left alone from any state, with any outcomes of the registrations, the worker settles what it has in hand and queued, within four steps a request, if and only if none of it lacks its channel, and dies otherwise |
| Dispatch.LoadIsEven | c++-apolkanov/echo_tcp.cpp:100-108 | before the counter wraps, worker i has k / n sockets, and one more if i < k % n |
| Dispatch.BalancedForeverIff | c++-apolkanov/echo_tcp.cpp:100-108 | loads differ by at most one for every number of accepts if and only if the number of workers divides the counter's range |
| Dispatch.BalancedForeverIffPowerOf2 | c++-apolkanov/echo_tcp.cpp:100-108 | with the 64-bit counter that is so if and only if the number of workers is a power of two |
| Dispatch.AcceptLoop | c++-apolkanov/echo_tcp.cpp:100-108 | until the first failure, which ends the loop, each worker gets exactly its sockets in order, and its thread is started by the first |
| Dispatch.AddConnection | c++-apolkanov/echo_tcp.cpp:26-41 | the socket joins its worker, whose thread is running afterwards, unless `fcntl` or `epoll_ctl` fails; then nothing has changed |
| Dispatch.SlotInRangeIff | java-philipp/src/main/java/vn/itim/samples/echoserver/Server.java:69-70 | the slot lies in 1..length-1 if and only if the ticket is not negative or a multiple of length - 1 |
| Dispatch.EachSlotHitOnce | java-philipp/src/main/java/vn/itim/samples/echoserver/Server.java:69-70 | among any length - 1 consecutive tickets that are not negative exactly one is for each slot from 1 to length - 1 |
| Dispatch.JavaRemainderLaw | java-philipp/src/main/java/vn/itim/samples/echoserver/Server.java:69 | the remainder is smaller than the divisor, has the sign of the dividend, and differs from it by a multiple of the divisor |
| SocketHandover.StepKeepsInv | erlang-virtan/server.erl:16-37 | every step of acceptor, process and peer keeps: messages only for the owner, leave to start only after the transfer, bytes received are bytes echoed plus bytes in the mailbox |
| SocketHandover.HandoverIsSafe | erlang-virtan/server.erl:16-37 | under every interleaving no byte goes to the acceptor, the socket is active only when the process owns it, a `perm` never ends the echo loop, and a close at the head of the mailbox finds every byte echoed |
| SocketHandover.EchoesMailbox | erlang-virtan/server.erl:33-37 | left alone, the process echoes all that is in its mailbox, one message a step, and ends, closing the socket, if and only if the peer's close was among them |
| SocketHandover.CanAlwaysEcho | erlang-virtan/server.erl:16-37 | from every reachable state in which the process has not ended, acceptor and process can go on so that all the peer has sent is echoed |
| SocketHandover.ReceivesAllWhileOpen | erlang-virtan/server.erl:16-37 | while the socket is open all that the peer sent up to its close has been received, also what came before the hand-over |
| SocketHandover.ClosesExactly | erlang-virtan/server.erl:28-37 | the events that close the socket, and those that end the process |
| SocketHandover.LeaksExactly | erlang-virtan/server.erl:20-31 | the process ends without the socket being closed if and only if its wait for `perm` expires before the transfer |
| SocketHandover.LeakedForEver | erlang-virtan/server.erl:20-31 | such a socket stays open, passive and unanswered whatever comes |
| Statistics.Starter | erlang-virtan/client.erl:39-44 | the starter spawns exactly 10000 connectors |
| Statistics.GatherIsSum | erlang-virtan/client.erl:26-37 | the logger's totals are the sums over what each connector has sent, whatever the interleaving |
| Statistics.SchedulingDoesNotMatter | erlang-virtan/client.erl:26-37 | two mailboxes with the same messages of each connector give the same totals |
| Statistics.PrintShowsSums | erlang-virtan/client.erl:29-32 | each print at a log stamp shows the sums over the connectors of all that came before it |
| Statistics.TimeoutEndsLog | erlang-virtan/client.erl:28 | the timeout prints the final sums as the last print; nothing later counts |
| Statistics.ConnectorTally | erlang-virtan/client.erl:46-72 | a connector reports one child; one connect error exactly when refused; else the time of its connect, the number and sum of its exchanges, and one exchange error exactly when they end by a broken one |
| Statistics.ConnectorPrefix | erlang-virtan/client.erl:46-72 | every prefix of what a connector sends counts at most one child, and an error only for it |
| Statistics.PrintedFiguresAreSound | erlang-virtan/client.erl:26-72 | in every print ConnErr <= Chld <= 10000 and ExchErr <= Chld - ConnErr |

## Left out

- Sockets, epoll, libev, asio and NIO themselves: replaced by adversarial results and by watchers, interest or the outstanding operation.
- Timeouts.SurvivesIff: says when a due timer that the loop looks at finds the connection renewed; that the loop looks at it in time is libev's part.
- SlidingBuffer.MoveDown: copies upwards, while the source calls `memcpy`, whose order on overlapping ranges is not defined; `CopyOrderMatters` says when the order shows.
- c-bachan/header.h: the retry loop on an interrupted read is part of the adversary, and the member-to-object pointer arithmetic is not modelled.
- EndToEnd.AnswersMatchRequests: each request enters the outgoing stream as one piece; overlapping composed writes of the source could mix partial writes.
- EndToEnd.CanAlwaysFinish: says that a finishing continuation exists, not that the kernel chooses it.
- ConnectionHandler.Connection.Connect: the object's callbacks run without interruption; interleaving with other threads is the matter of `LoadTest`.
- RegistrationQueue.NoRequestLost: a transition system on values, since its point is the interleaving; selected keys, wake-ups of the selector and the stop flag are not modelled, and nothing is claimed about when the worker runs.
- Server.java `start`: its slot 0 is never filled, so only the processors and the scheduler are modelled.
- Statistics.PrintedFiguresAreSound: the printed averages are not modelled, and the order in which `receive` takes messages is the order of the mailbox.
- SocketHandover.HandoverIsSafe: transfers of ownership to a live process and sends on an open socket are taken to succeed; the source ignores their results.
- LoadTest.CountersConserved: an answer without a queued timer reads the front of an empty queue, which has no defined value; such a handler stops in the state `Undefined`, and that it never does against an echo server is the matter of `EndToEnd`.
- c++-apolkanov/echo_tcp.cpp: the worker's event loop over its small buffer.
- thread.c, c-bachan/client.c, and the Perl, Python and Node programs: they would add only easy members or library calls.
