# Verification of the network programs

A Dafny model of the protocols and state machines in this repository, with proofs of what they keep over every run. Each
module follows one program or library file. Code that updates state in place is modelled by classes, arrays and loops whose
methods are proved against specification functions on values; programs that run concurrently are modelled as step relations
over all interleavings that use those same functions, and the main results hold for every run (`IsRun`) or for every input.

* `Rtt`, `DgSendRecv`, `DgNetwork`, `DgTiming` - reliable request/reply over UDP: retransmission timer and estimator, the
  client call, client, echo server and a network that loses, duplicates, delays and reorders, and the bytes, clocks and
  timers of whole runs. Floating point is exact reals.
* `WorkQueue` - the 32-slot ring between an acceptor and worker threads, one step per critical section.
* `ChildPool` - the parent that passes descriptors to a pool of child processes.
* `StrCli`, `EchoLink` - the full-duplex non-blocking copier, alone and composed with the connection and the echo server.
* `WebClient` - bounded-parallelism fetching. `SelectServer` - the echo server around `select`.
* `InCksum`, `UdpChecksum` - the Internet checksum (RFC 1071) and its users, in both byte orders.
* `StreamIO`, `Readline`, `WebChild` - exact-count reads and writes, the buffered line reader, and the request/reply
  server built on them. `WebLink` - that server and its client, in every interleaving.
* `Heartbeat` - the two timed heartbeat processes.
* `Bytes`, `Sums` - words in memory, and sums over sequences.

Where code and comments or intent disagree, the model follows the code:

* The sequence number is 32 bits wide and never reset: a reply is certainly the call's own only for the first 2^32 calls,
  and `SafeExactlyUpToWrapAround` gives the run that shows the bound is exact.
* The echo server reads at most 4096 bytes, header included, so payloads over 4088 bytes come back cut
  (`ShortPayloadComesBackWhole`), although `dg_cli` sends up to 4095: `LongPayloadComesBackCut` is a run with such a line.
* `readline` returns one more than it stored if and only if the stream has no end and no newline within the bytes there is
  room for (`CountIsExact`; `CountTooLarge` is such a stream).
* `readline` does not notice a read that fails: the -1 goes into an unsigned counter, and the old buffer is handed out once
  more. `MyRead`, `ReadLine` and `WebChild` follow that reader to the end of its buffer: old requests are answered again
  (`OldRequestIsAnsweredAgain`).
* The select server's "too many clients" cannot come before a descriptor that its `fd_set` does not hold
  (`OverflowOnlyOutsideTheSet`).
* The copier returns without flushing `fr`. The output is complete if and only if the last write offered to stdout took
  everything (`OutputIsCompleteExactlyWhenTaken`); `LastBytesMayStayUnprinted` is a run in which it did not.
* `web_child` converts the requested count to `int`: `AskedIsGivenExactlyInRange` says which requests get what they ask for,
  and `EveryExchangeEndsAlike` that client and server wait for each other for ever on some of the others.
* With less than one connection allowed, the fetching program waits in `select` on empty sets for ever (`Fetch`).

## Model

| member | source | states |
|---|---|---|
| Rtt.RttInfo.Init | rtt.cpp:22-35 | The estimator is reset to srtt 0, deviation 0.75 and a timeout of 3 seconds; the retransmission count is left alone. |
| Rtt.RttInfo.Stop | rtt.cpp:80-102 | The incremental code computes the update rules of section 2.3 of RFC 6298 (deviation from the old smoothed time), with the timeout clamped to 2..60. |
| Rtt.StampDifference | rtt.cpp:45-54 | Differences of two 32-bit stamps of one base are the elapsed milliseconds modulo 2^32, wherever the counter wrapped. |
| Rtt.EstimatesStayInRange | rtt.cpp:80-102 | From initialisation, for any measurements in [0, m]: srtt stays in [0, m], the deviation in [0, max(0.75, m)], the timeout in [2, 60]. |
| Rtt.ConstantMeasurement | rtt.cpp:93-99 | After n equal measurements the errors of both estimators are exactly the closed forms in (7/8)^n and (3/4)^n. |
| Rtt.TimeoutConverges | rtt.cpp:80-102 | Under equal measurements the timeout comes and stays within any eps of the measured time clamped to [2, 60], after a number of steps given explicitly. |
| DgSendRecv.DatagramFields | rtt/dg_send_recv.cpp:13-16 | Header and payload read back from a datagram however it was cut after its header. |
| DgSendRecv.DgClient.Timeout | rtt/dg_send_recv.cpp:59-67 | The alarm branch: retransmission with a fresh stamp and unchanged sequence number, or giving up with rttinit cleared. |
| DgSendRecv.DgClient.Receive | rtt/dg_send_recv.cpp:68-73 | One turn of the receive loop: short or foreign datagrams change nothing; a match stops the timer with the wrapped stamp difference. |
| DgSendRecv.DgClient.DgSendRecv | rtt/dg_send_recv.cpp:21-74 | A whole call, for every sequence of alarms and arriving datagrams: result, new statics, datagrams sent and alarms armed. |
| DgNetwork.CallIsDgSendRecv | rtt/dg_send_recv.cpp:25-74 | From a call on, the client's part of any run is what the method DgSendRecv computes from the events that reach it: statics, outcome, the datagrams transmitted and the timers armed. |
| DgNetwork.InvStep | rtt/dg_send_recv.cpp:31-72 | Every step of client, server or network keeps the invariant that ties packets to the transmissions they come from. |
| DgNetwork.ReplyOrigin | rtt/dg_send_recv.cpp:68-73 | In any run an accepted reply is the echo of a transmission of a call with the same number modulo 2^32, cut to both receive buffers. |
| DgNetwork.ReplyIsOwn | rtt/dg_send_recv.cpp:25-73 | Up to 2^32 calls, give-ups included: the reply is the call's own payload, and the measurement is the time since the very copy that was answered. |
| DgNetwork.ShortPayloadComesBackWhole | dg_echo.cpp:10-15 | A reply equals the payload exactly when the payload fits 4088 bytes and the caller's buffer. |
| DgNetwork.LongPayloadComesBackCut | rtt/dg_cli.cpp:9-17 | A run in which a line of 4095 bytes, as dg_cli may send it, is answered by its first 4088. |
| DgNetwork.SafeExactlyUpToWrapAround | rtt/dg_send_recv.cpp:31 | No call within the first n returns foreign data, in any run, if and only if n <= 2^32. |
| DgNetwork.StaleReply | rtt/dg_send_recv.cpp:31 | A run in which call 2^32 + 1 accepts the echo of the first call. |
| DgNetwork.BackoffWhileWaiting | rtt.cpp:111-119 | Across any sequence of calls: while waiting, the timeout is a start value in [2, 60] doubled once per retransmission, with at most four transmissions. |
| DgNetwork.GivingUp | rtt/dg_send_recv.cpp:60-65 | A call gives up only after four transmissions whose timers total 30 to 900 seconds; the estimator will be fresh, the sequence number is kept. |
| DgTiming.RequestOnTheWire | rtt/dg_send_recv.cpp:13-56 | In any run a request is its call's number modulo 2^32, the milliseconds since the base, and the payload, at these offsets. |
| DgTiming.EchoesOfThisCallAreTaken | rtt/dg_send_recv.cpp:68-70 | Up to 2^32 calls a datagram is taken if and only if it echoes a copy of the waiting call. |
| DgTiming.EstimatorFollowsReplies | rtt/dg_send_recv.cpp:25-29 | Over whole runs srtt and rttvar are those of section 2.3 of RFC 6298 after exactly the replies taken since the last initialisation, which is in the first call or the first after a give-up; the base changes in no other call, and each call starts with the timeout that follows. |
| DgTiming.ReplyInMilliseconds | rtt.cpp:85-99 | One reply, measured in milliseconds from the copy it answers, moves srtt by an eighth and rttvar by a quarter. |
| DgTiming.TimersFollowReplies | rtt.cpp:62-67 | Timer n of a call is the whole number of seconds nearest to 2^n times that timeout, halves up; 3, 6, 12 and 24 seconds before any reply. |
| WorkQueue.PutAppends | server/serv08/main.cpp:74-77 | A put that leaves iput different from iget appends and overwrites no pending slot. |
| WorkQueue.Shared.Enqueue | server/serv08/main.cpp:74-80 | The acceptor's critical section: appends, and quits exactly when 31 descriptors were pending. |
| WorkQueue.Shared.Dequeue | server/serv08/main.cpp:52-60 | The worker's critical section: waits exactly when nothing is pending, else takes the oldest descriptor. |
| WorkQueue.HandOffIsFifoAndExactlyOnce | server/serv08/main.cpp:51-81 | In every interleaving: taken ++ pending = accepted, at most 31 pending, and threads serving at the same time hold different turns. |
| WorkQueue.QuitsExactlyOnOverflow | server/serv08/main.cpp:78-80 | The server quits if and only if a descriptor arrives while 31 are pending. |
| WorkQueue.PendingWorkHasAWorker | server/serv08/main.cpp:53-55 | No lost wake-up: while a worker sleeps, pending descriptors are no more than woken workers; pending work has a runnable worker unless all serve. |
| WorkQueue.WorkersComeToRest | server/serv08/main.cpp:51-65 | Without new arrivals, workers take at most WorkLeft steps from any state of any run, and three more for each spurious wake-up. |
| WorkQueue.AtRestNothingIsPending | server/serv08/main.cpp:51-65 | When no worker can move, all wait and every accepted descriptor has been taken and served; with no workers at all, none has. |
| ChildPool.Parent.Assign | server/serv05/main.cpp:73-83 | Picks the first free child, marks it busy and counts it; quits exactly when none is free. |
| ChildPool.Parent.Collect | server/serv05/main.cpp:91-102 | Frees exactly the readable children and adds their number to navail, in spite of the early exit. |
| ChildPool.BusyMeansExactlyOneToken | server/serv05/main.cpp:81-97 | In every interleaving a child is busy if and only if exactly one of descriptor in the pipe, in service, byte coming back exists for it. |
| ChildPool.PoolBookkeeping | server/serv05/main.cpp:64-102 | navail counts the free children; accepted = reported + busy; no descriptor is lost or served twice; the "no available children" exit is unreachable. |
| ChildPool.PassNeverBlocks | server/serv05/main.cpp:70-98 | Within a pass the byte to be read is always there and a free child is always there for the connection. |
| ChildPool.SomebodyCanMove | server/serv05/main.cpp:65-69 | Never deadlocked, if and only if there are children: in every reachable state the parent asks about new connections, or the parent or a child has a step to take. |
| ChildPool.ScanIsCollect | server/serv05/main.cpp:91-102 | However the children interleave with it, the scan does to the table what Collect does. |
| ChildPool.WholePass | server/serv05/main.cpp:64-102 | From select to select, whatever the children do meanwhile: the readable children become free and are reported once, also in a pass that accepts; the connection goes to the first child free at select; no other status changes. |
| ChildPool.FlowStep | server/child05.cpp:17-28 | No step of parent or child loses or duplicates a descriptor. |
| ChildPool.PoolComesToRest | server/serv05/main.cpp:64-102 | Without new connections, parent and children take at most WorkLeft steps from any state of any run. |
| ChildPool.AtRestAllIsServed | server/child05.cpp:17-28 | When they can take no more, all children are free and the descriptors served are the accepted ones, each as often. |
| StrCli.Copier.Ask | nonblock/str_cli_nonblock.cpp:33-46 | The descriptor sets are the ones the buffers and the end-of-file flag call for. |
| StrCli.Copier.FromStdin | nonblock/str_cli_nonblock.cpp:48-66 | Bytes go to the end of the to buffer and arm the socket; end of file sends the FIN at once only if nothing is left to send. |
| StrCli.Copier.FromSocket | nonblock/str_cli_nonblock.cpp:67-87 | Bytes go to the end of fr and arm stdout; end of file returns after stdin's end and quits before it. |
| StrCli.Copier.ToStdout | nonblock/str_cli_nonblock.cpp:88-101 | A short write drops what was written and an emptied buffer starts over. |
| StrCli.Copier.ToSocket | nonblock/str_cli_nonblock.cpp:102-118 | The same for the to buffer, with the delayed FIN when it empties after the end of stdin. |
| EchoLink.NothingLostOrReordered | nonblock/str_cli_nonblock.cpp:26-119 | In every reachable state: stdin so far = printed ++ fr ++ server to client ++ server ++ client to server ++ to. |
| EchoLink.ServerKeepsPipeline | str_echo.cpp:11-13 | Reads and partial writes of the echo server keep that sequence. |
| EchoLink.AtReturnOnlyFrIsUnprinted | nonblock/str_cli_nonblock.cpp:73-80 | At return all of stdin has been echoed and only fr is unprinted; the premature-termination exit is unreachable. |
| EchoLink.OutputIsCompleteExactlyWhenTaken | nonblock/str_cli_nonblock.cpp:73-101 | At return the unprinted bytes are those stdout refused when it was last offered some: the output is complete if and only if that write took everything, or none was offered. |
| EchoLink.WillingStdoutGetsEverything | nonblock/str_cli_nonblock.cpp:88-101 | If every write to stdout takes all it is offered, all of the input is printed at return. |
| EchoLink.LastBytesMayStayUnprinted | nonblock/str_cli_nonblock.cpp:73-77 | A run that returns with a byte still in fr. |
| EchoLink.HalfCloseExactlyOnce | nonblock/str_cli_nonblock.cpp:54-115 | The FIN is sent at most once and has been sent exactly when stdin is at its end and to is empty; no socket write follows. |
| EchoLink.ReadsHaveRoomAndSelectHasWork | nonblock/str_cli_nonblock.cpp:35-68 | No zero-length read is issued and select is never called with empty sets. |
| EchoLink.AskedExactly | nonblock/str_cli_nonblock.cpp:33-46 | In every run stdin is in the sets exactly while it has not ended and fewer than 4096 bytes were read from it since to was last empty; likewise the other three. |
| EchoLink.ReadThenOffered | nonblock/str_cli_nonblock.cpp:60-66 | What a turn reads from stdin is offered to the socket in the same turn, behind what to held before. |
| EchoLink.NeverStuck | nonblock/str_cli_nonblock.cpp:32-119 | After the end of stdin client and server never wait for each other, whatever the capacity of the connection. |
| EchoLink.TransfersAreBounded | nonblock/str_cli_nonblock.cpp:32-119 | From then on the number of transfers is bounded by the bytes under way. |
| EchoLink.CanAlwaysReturn | nonblock/str_cli_nonblock.cpp:32-119 | From every state after the end of stdin, and for any capacity of the connection, str_cli can still return with all of the input printed, in a number of steps linear in the bytes under way. |
| WebClient.Scheduler.constructor | nonblock/webclient/web.cpp:17-29 | The first twenty names, no more, become new files; the invariant holds at the start. |
| WebClient.Scheduler.StartConnect | nonblock/webclient/web.cpp:100-123 | For any fresh descriptor: a connection that is there at once gets its GET and is selected for reading; one in progress gets none yet and is selected for both. |
| WebClient.Scheduler.WriteGetCmd | nonblock/webclient/web.cpp:125-136 | The GET is written, the file is reading and its descriptor selected for reading. |
| WebClient.Scheduler.Fill | nonblock/webclient/web.cpp:31-43 | Opens connections for the first new files, in order, until maxnconn or no new file, and touches no other; "nothing found" is unreachable; the invariant is kept. |
| WebClient.Scheduler.Scan | nonblock/webclient/web.cpp:47-76 | For any nonempty answer of select: a connecting file in it gets its GET, a reading one is read once, every other file is left as it is; progress is made and the invariant kept. |
| WebClient.Scheduler.Fetch | nonblock/webclient/web.cpp:28-77 | The main loop ends with exactly one GET written for every file, every response read to its end and all sets empty; it hangs, in select with empty sets, if and only if there are files and less than one connection is allowed. |
| WebClient.StartedKeepsInv | nonblock/webclient/web.cpp:40-42 | Starting a connection keeps counters, descriptor sets and GET counts in agreement with the flags. |
| WebClient.EstablishedKeepsInv | nonblock/webclient/web.cpp:53-61 | So does the end of a connect. |
| WebClient.ReadKeepsInv | nonblock/webclient/web.cpp:63-70 | So does a read, with the end of file closing the books on the file. |
| WebClient.ParallelismIsBounded | nonblock/webclient/web.cpp:31 | nconn is the number of open sockets and at most maxnconn, or 0 if that is negative. |
| SelectServer.EchoServer.Join | StringEcho4_shutdown/Server/main.cpp:40-60 | A new client gets the first free slot and enters the sets; the server quits exactly when all 1024 slots are taken, if sets hold any descriptor. |
| SelectServer.EchoServer.Sweep | StringEcho4_shutdown/Server/main.cpp:65-82 | The scan bounded by maxi and cut short by nready has the effect and the reads, in order, of a full sweep, and every client gets back the bytes it sent. |
| SelectServer.Pass | StringEcho4_shutdown/Server/main.cpp:38-82 | A whole turn of the loop with its counter arithmetic is a full sweep that reads each ready client once and answers it with its own bytes. |
| SelectServer.PassReadsEachReadyClientOnce | StringEcho4_shutdown/Server/main.cpp:65-82 | The clients read in a pass are exactly the ready ones, without repetition. |
| SelectServer.PassAndTheSet | StringEcho4_shutdown/Server/main.cpp:54-75 | After a pass a client is still in allset if and only if it was not ready or its read returned bytes; the only new member is the descriptor just accepted. |
| SelectServer.PassAndTheTable | StringEcho4_shutdown/Server/main.cpp:44-75 | A slot is cleared exactly when its client's read returned nothing; the new connection takes the first slot free before; no other slot changes. |
| SelectServer.PassAndTheBounds | StringEcho4_shutdown/Server/main.cpp:55-61 | maxi and maxfd change only to the slot and the descriptor of the new connection, upwards. |
| SelectServer.ReadInTableOrder | StringEcho4_shutdown/Server/main.cpp:65-69 | Ready clients are read in the order of their slots. |
| SelectServer.PassEchoes | StringEcho4_shutdown/Server/main.cpp:76-77 | Written back are, for every client whose read returned bytes, exactly these bytes, once. |
| SelectServer.ClientStaysUntilItCloses | StringEcho4_shutdown/Server/main.cpp:40-77 | In every run a client keeps its slot from its accept until the first pass in which its read returns nothing, and no longer. |
| SelectServer.TableAlwaysSound | StringEcho4_shutdown/Server/main.cpp:28-83 | In every run: allset = listening socket + table entries, entries distinct, slots above maxi free, maxfd a bound. |
| SelectServer.TableNeverFull | StringEcho4_shutdown/Server/main.cpp:40-51 | While all descriptors are below FD_SETSIZE, some slot is free. |
| SelectServer.OverflowOnlyOutsideTheSet | StringEcho4_shutdown/Server/main.cpp:51-54 | In every run "too many clients" is unreachable until accept has returned a descriptor that FD_SET cannot store. |
| InCksum.InCksum | in_cksum.cpp:3-32 | The loop over memory computes the complement of the one's complement sum, for either byte order and any length, 32-bit wrap-around included. |
| InCksum.TwoFolds | in_cksum.cpp:28-30 | Two folds lose no carry of any 32-bit sum. |
| InCksum.AccumulatorIsWideEnough | in_cksum.cpp:7 | The 32-bit sum overflows for no buffer of n bytes if and only if n <= 131074. |
| InCksum.ByteOrderIndependent | in_cksum.cpp:16-31 | Both byte orders leave the same two checksum bytes in memory (section 2 of RFC 1071), odd lengths included. |
| InCksum.ChecksToZero | in_cksum.cpp:16-31 | A buffer checks to 0 if and only if its words sum to a positive multiple of 65535. |
| InCksum.StoredChecksumVerifies | in_cksum.cpp:3-32 | Stored in its zeroed even-offset field, the checksum makes a second pass return 0; so does 0xffff in place of 0. |
| InCksum.SingleWordErrorsAreDetected | in_cksum.cpp:3-32 | A change of one word is missed only between 0x0000 and 0xffff. |
| InCksum.ChecksumNegatesTheNumber | in_cksum.cpp:3-32 | The checksum is the negative, modulo 65535, of the number that the bytes make (padded by a zero byte), 65535 only for all zeros; the other byte order gives the same bytes. |
| UdpChecksum.UdpWrite | udpchsum/udpwrite.cpp:11-49 | In place, the buffer becomes the given IP and UDP headers around the untouched payload; nothing behind it changes. |
| UdpChecksum.PacketLayout | udpchsum/udpwrite.cpp:16-46 | The packet by offsets: IP fields, protocol, source and destination address and port, lengths, payload. |
| UdpChecksum.ChecksumField | udpchsum/udpwrite.cpp:26-30 | The checksum is never 0 and negates, modulo 65535, the number made by pseudo header, UDP header and data; hosts of both byte orders write the same packet. |
| UdpChecksum.ReceiverAccepts | udpchsum/udpwrite.cpp:16-45 | The checksum field is zero only when checksums are off, and a receiver of either byte order that rebuilds the pseudo header sums the packet to 0. |
| UdpChecksum.UdpCheck | udpchsum/udpread.cpp:30-58 | The verdict in the order of the code's tests; only the checksum field of the packet is overwritten. |
| UdpChecksum.VerdictsAreExact | udpchsum/udpread.cpp:34-57 | Each verdict if and only if its condition on the bytes: length, version, header length, header a positive multiple of 65535, protocol 17. |
| UdpChecksum.WrittenPacketsPassTheCheck | udpchsum/udpread.cpp:34-53 | Packets of udp_write with the IP checksum filled in by any host pass udp_check on any other. |
| UdpChecksum.SendV4 | ping/main.cpp:129-143 | In place, the buffer becomes an echo request with pattern, time stamp and its checksum. |
| UdpChecksum.EchoRequestLayout | ping/main.cpp:133-141 | The request by offsets: type, code, checksum, identifier, sequence number, time stamp, pattern. |
| UdpChecksum.EchoRequestVerifies | ping/main.cpp:140-141 | The request checks to 0 at a receiver of either byte order. |
| StreamIO.Readn | readn.cpp:6-28 | For any split of reads and any interrupts: the first min(n, available) bytes, in order; -1 only on an error. |
| StreamIO.Writen | writen.cpp:9-30 | For any split of writes and any interrupts: all bytes once in order, or -1 on an error after a prefix. |
| Readline.LineReader.MyRead | readline.cpp:10-28 | One byte of buffer ++ socket at a time, 0 exactly at the end with the buffer empty. Exactly when a read fails or is interrupted the reader goes astray: no error, but the old buffer from its start in place of the socket. |
| Readline.LineReader.ReadLine | readline.cpp:30-51 | For any chunking: stores and terminates the next line of the logical stream and consumes exactly its bytes. Exactly when a read fails, that stream becomes what was read of the line followed by the old buffer, until that is used up. |
| Readline.LineIsUnique | readline.cpp:37-50 | That line is the one prefix ending at the first newline, at maxlen - 1 bytes or at the end of the stream. |
| Readline.CountIsExact | readline.cpp:37-51 | For every stream and room for k bytes: the returned count is the length stored if and only if the stream ends or has a newline within k bytes, else it is k + 1; it is 0 exactly at the end of the stream. |
| Readline.CountTooLarge | readline.cpp:37-51 | For 4095 bytes without a newline and a buffer of 4096, readline returns 4096. |
| WebChild.OneRequest | server/web_clild.cpp:14-21 | One request: parsed like atol, answered with exactly that many bytes if it is in 1..16384, else refused; the line is the one ReadLine gives, old bytes after a failed read included. |
| WebChild.WebChild | server/web_clild.cpp:9-23 | While no read fails the connection is served as Serve says; from a failed read on, what was read of the line and the old buffer are served as Replay says, after exactly the earlier requests. A normal return is without a failed read and leaves the static buffer empty, so no byte leaks into the next connection. |
| WebChild.OldRequestIsAnsweredAgain | readline.cpp:16-27 | After a failed read between two lines, a request at the start of the old buffer is answered once more. |
| WebChild.AtolOfPrinted | server/client/main.cpp:24 | atol undoes "%ld" for every long, whatever non-digit follows. |
| WebChild.DecimalStandsFor | server/client/main.cpp:24 | "%ld" prints the decimal digits of a number, without leading zeros. |
| WebChild.AtolOfAnyNumber | server/web_clild.cpp:17 | atol skips any white space and one sign, reads the digits, and saturates at the limits of long. |
| WebChild.AtolOfNoNumber | server/web_clild.cpp:17 | Without digits atol gives 0. |
| WebChild.ToIntWraps | server/web_clild.cpp:17 | The int a long becomes is the one in range congruent to it modulo 2^32. |
| WebChild.RequestIsServed | server/web_clild.cpp:17-21 | A request is answered in full if its int value is in 1..16384; any other ends the server. |
| WebChild.AllRequestsAreServed | server/web_clild.cpp:13-22 | Any number of valid requests down one connection get the sum of the bytes asked for. |
| WebChild.AskedIsGivenExactlyInRange | server/client/main.cpp:24-32 | For every long, client and server agree on the count if and only if it is in 1..16384. |
| WebLink.AllOrNothing | server/client/main.cpp:27-33 | In every interleaving of client and server: Readn returns nbytes if that is in 1..16384 and otherwise 0, if it returns; the server reaches a regular end of file only when all bytes have arrived; the client's reply buffer is never overrun. |
| WebLink.EveryExchangeEndsAlike | server/web_clild.cpp:13-22 | All maximal runs of one request end in the same state: served and closed; refused; or, if only the int value of nbytes is in range, client and server waiting for each other. |
| WebLink.ExchangesAreFinite | server/client/main.cpp:25-33 | Every run ends, within a number of steps given explicitly. |
| WebLink.InvStep | server/web_clild.cpp:13-22 | Every step of client or server, with any cut of the bytes, keeps the invariant on what is sent, served and received. |
| Heartbeat.Started | oob/heartbeat_cli/main.cpp:38-46 | The period is the smallest that is at least 1 and as asked for, the limit the smallest that is at least the period and as asked for. |
| Heartbeat.NobodyLeaves | oob/heartbeat_cli/main.cpp:16-52 | With 2 * delay < maxnprobes * nsec, a server that waits longer than a period and a delay, and a start in time, nobody leaves in any run before stdin ends. |
| Heartbeat.SilenceIsNoticed | oob/heartbeat_serv/main.cpp:16-52 | In any run each side is gone at most max + 1 periods after it last heard the other, the client unless stdin has ended. |
| Heartbeat.ClientStaysAfterEof | oob/heartbeat_cli/main.cpp:95-98 | After the end of stdin the client sends no probe and never leaves for silence. |
| Heartbeat.SafeExactlyWhenEchoesAreFast | oob/heartbeat_cli/main.cpp:28-46 | For every period and limit that heartbeat_cli can set: with a patient server the client is safe in all runs if and only if 2 * delay < maxnprobes * nsec. |
| Heartbeat.StayTogetherExactly | oob/heartbeat_serv/main.cpp:16-37 | For all periods and limits of both: once the server has heard the client, nobody leaves in any run before stdin ends, if and only if 2 * delay is below the client's limit and a client period plus delay below the server's. |

## Left out

- Rounding of `float` and `double` in rtt.cpp: the estimator is over exact reals.
- Signal races in `dg_send_recv` (an alarm before `sigsetjmp` or just before `alarm(0)`): an alarm is one atomic step while waiting.
- Datagrams of eight bytes or more from anyone but the echo server; shorter ones are part of the model.
- DgSendRecv.DgClient.Receive: the header of a datagram is decoded from its bytes; `recvhdr` is not kept between receives, as no stale part of it is ever used.
- `thread_count` in server/serv08/main.cpp, whose index is captured by reference.
- Death of a child in server/serv05/main.cpp (its detection is disabled by an assignment in the condition) and in server/child05.cpp: children live.
- Readline.LineReader.ReadLine: a reader gone astray is not followed into the memory behind `read_buf` (`overrun`); one process and one connection at a time share the static buffer, not several threads.
- WebChild.OneRequest: ends where ReadLine reports an overrun of `read_buf`.
- WebChild.WebChild: ends where ReadLine reports an overrun of `read_buf`.
- SelectServer.EchoServer.Join: sets hold any descriptor; what FD_SET does with one of 1024 or more is not modelled.
- I/O errors that end a program (`err_sys`) in the copier, the scheduler, the select server and the checksum tools.
- Failed connects in nonblock/webclient/web.cpp, the home page fetched first, and the bit-mask form of the flags, of which one at most is set.
- WebChild.Exchange: composes the methods in one order only, with the request followed by an end of file; WebLink has the interleavings.
- WebLink: lengths only of the reply, whose buffer in the client holds no more than 16384 bytes; a client that leaves before the reply is complete.
- The contents of the reply in server/web_clild.cpp, which come from an uninitialised buffer shorter than the largest reply: only the length is modelled.
- Layouts of `struct udpiphdr` and `struct ip` come from system headers: the model writes the fields of RFC 768 and RFC 791 at their offsets, and `ip_len` in network order as on Linux.
- udp_read's choice of datalink offset and negative capture lengths: UdpCheck starts at the IP header.
- Echo traffic of the heartbeat programs other than the urgent bytes, and urgent bytes sent before the server has installed its handler.
- The loops of `dg_echo` and `str_echo` and of a child process are steps of the systems they take part in, not methods of their own.
- icmpd, traceroute, the poll server, multicast, day-time and name-lookup programs, and the error-checking wrappers.
