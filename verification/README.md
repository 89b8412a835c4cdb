# Verified model of the TFNetwork protocol engines

This project models the single-threaded network clients and servers of the TFNetwork library and proves what
their steps, and whole runs of steps, keep. Everything that the library gets from outside (sockets, `select`,
`FIONREAD`, the clock, the resolver) is an argument of the step that asks for it, so that every statement holds
for whatever the outside does. A callback of the application is an entry of a log; what it does when it calls
back into the library is part of the step that runs it.

The project has three parts.

**Modbus TCP.** The server is an incremental frame parser and dispatcher for up to eight connections, which it
keeps in a linked list that every tick takes apart and puts together again. The client is a queue of
transactions with one pending transaction, an encoder, an incremental parser and a response check. The results
are: requests and answers arrive as they were meant for every pairing of byte orders; both parsers agree with a
batch parser that sees the whole stream; the server's list is in least-recently-used order and loses nobody; the
client completes every accepted transaction exactly once, in order and before its connection's disconnect
callback, each with the result of its cause, writes a caller's buffer only with the bytes of a matching response,
and is immune to stale responses; and over whole conversations every request gets the answer of the server's
callback.

**TCP client and pool.** The generic client resolves, connects, is connected and closes; the pool shares such
clients among users with reference counts, deferred deletion and primary and secondary levels. The results are
exactly-once statements over all runs: for the callbacks of every call of `connect` and of `acquire`, for every
socket, and for the primary level of every life of a slot; tables of what every step does and tells after any run;
and that a connection attempt uses only the address that was resolved for it.

**RCT Power framing.** Byte stuffing, a self-synchronising decoder and a bit-serial CRC, with the exact condition
under which a frame survives the stuffing and a response completes its transaction, and the detection of every
burst of up to 16 bits.

## How the files fit together

Each engine has its rules on values, the proofs about runs of these rules, and a class whose methods update fields,
arrays and linked nodes as the original does and are proved to do what the rules say. The outcomes say once more, in
terms of bytes, numbers, clock readings and what the sockets report, and without the rules, what each step comes to;
they fix the rules themselves.

| part | rules and wire formats | runs | outcomes | objects |
|---|---|---|---|---|
| bytes, words, memory order | `Bytes`, `ModbusCommon` | | `Sending` | `Buffers`, `Sending` |
| request, reply and response rules | `ModbusRules` | `ModbusEndToEnd`, `ModbusRoundTrip` | `ModbusWire`, `ServerAnswers` | `ServerConnection`, `ClientCodec` |
| Modbus TCP server | `ServerFraming`, `ServerRules` | `ServerFraming`, `ServerRuns`, `ServerOrder`, `ServerHistories` | `ServerAnswers`, `ServerOutcomes` | `ServerConnection`, `ModbusServer` |
| Modbus TCP client | `ClientRules` | `ClientRuns`, `ClientSafety`, `ClientLog`, `ClientFraming`, `ClientAnswers`, `ClientLoop` | `ClientResults` | `ModbusClient` |
| generic TCP client | `TcpRules` | `TcpRuns`, `TcpCallbacks` | `TcpOutcomes` | `TcpClient` |
| both clients joined | `JoinedRules` | `JoinedRuns` | | |
| pool of TCP clients | `PoolRules` | `PoolSlots`, `PoolSteps`, `PoolRuns` | `PoolAcquire`, `PoolOutcomes` | `Pool` |
| RCT Power | `RctFraming`, `Crc` | `RctFraming`, `Crc` | `CrcValues`, `RctOutcomes` | `RctPowerClient` |

`dafny verify dfyconfig.toml` checks all of it.

## Conventions

- A memory is a sequence of bytes. The host is little-endian, so `htons` swaps; `ByteOrder` says whether
  application memory holds registers in host or in network order.
- `deadline_elapsed(d)` is `now >= d`, in microseconds. Statements that need a clock that does not go back say so.
- Bits are numbered from the least significant one; masks are written as arithmetic on naturals, and the CRC
  register as 16 bits.
- The generic client numbers calls of `connect` by tickets and calls of the resolver by serials; the pool numbers
  calls of `acquire` and the lives of slots. These numbers, and the logs, only keep the books.
- A client of the pool makes its callbacks while it works, and the pool's handlers do not touch the client. The
  pool model therefore handles the callbacks of a step right after the step, in their order.

## Behaviour kept as coded

- Answers to coil reads are masked with `(1 << (count % 8)) - 1` on both sides, also when the count is a multiple
  of 8: the last byte is lost then. `ModbusEndToEnd.MaskedCoils` says exactly when coils arrive as answered.
- An exception response with code 0 is reported as success, and nothing is copied (`ClientSafety.SuccessExactly`).
- The send loops report success when their ten tries are used up; `Sending.LeftBehind` says exactly when bytes
  stay behind.
- The client takes one to six readable bytes behind a complete frame for a part of it, if they fit, also behind a
  frame too short to be a response, which may become one by them. So framing depends on how the stream is cut:
  `ClientFraming.FramingExactly` says that it agrees with the batch parser exactly on runs in which this does not
  happen, `ClientFraming.NextResponseLosesByte` and `ClientFraming.ShortFrameRepaired` give the inputs.
- The RCT decoder cannot tell an escaped '-' from the escape character that may follow it;
  `RctFraming.FrameDecodes` says exactly which messages survive, and a trailing '-' costs the frame behind it;
  `RctFraming.StreamDecodes` says exactly which streams of frames survive. An intact response that does not survive
  may be read as another one that is intact, too: `RctOutcomes.WrongValueDelivered` is a response whose transaction
  succeeds with a value that the response does not carry, and `RctOutcomes.ResponseOutcome` says exactly when a
  transaction succeeds, and when with the value that was sent.
- The length field is capped at 253, one less than section 3.1.3 of the MODBUS Messaging on TCP/IP Implementation
  Guide V1.0b allows.
- The resolve callback compares 32 bits; `TcpRuns.AnswerTakenExactly` says exactly when an answer has an effect, and
  `TcpRuns.OldAnswerTaken` that answers to old questions come to have one.

## Model

| member | source | states |
|---|---|---|
| `ModbusEndToEnd.RequestReachesCallback` | src/TFModbusTCPClient.cpp:298-376 | every accepted request, in every pairing of byte orders, is well formed for the server, whose callback is asked for the same unit, address, count and logical values; single writes become multiple writes of count 1 |
| `ModbusEndToEnd.Exchange` | src/TFModbusTCPServer.cpp:573-907 | over a whole exchange the server never disconnects, the callback is asked what the caller asked, its code is the caller's result, and a successful read delivers its values into exactly the bytes it covers |
| `ModbusEndToEnd.AnswerReachesCaller` | src/TFModbusTCPClient.cpp:549-748 | what the client makes of the reply to its own request, for every answer of the callback |
| `ModbusEndToEnd.MaskedCoils` | src/TFModbusTCPServer.cpp:609 | answered coils arrive unchanged if and only if the count is no multiple of 8 or the last byte is zero |
| `ModbusEndToEnd.EightCoilsLost` | src/TFModbusTCPClient.cpp:659 | eight coils answered as on arrive as off |
| `ModbusRoundTrip.RequestsCross` | src/TFModbusTCPServer.cpp:460-571 | a connection that has taken the bytes of any number of requests, in any pieces, dispatches exactly these, one in each of its turns; in each the callback is asked what the caller asked, and the reply tells the caller, under its own transaction ID, what the callback answered |
| `ModbusRoundTrip.Conversation` | src/TFModbusTCPClient.cpp:395-547 | a client that has taken what such a connection sent, in any pieces, has the replies of all turns before the first that did not get rid of its whole reply, in order, and nothing else if that turn is the last |
| `ModbusRoundTrip.AnswersComplete` | src/TFModbusTCPClient.cpp:520-748 | over the run of the client, each of these replies that was resolved was resolved in one of its steps; if the request was still pending then, the log of the run has its completion with the callback's code, directly behind the write of a good read |
| `ModbusCommon.ReorderKeepsRegisters` | src/TFModbusTCPCommon.h:95-207 | memory of one byte order carried over the wire into memory of any other stands for the same registers |
| `Sending.RunSendLoop` | src/TFGenericTCPClient.cpp:525-574 | the bounded send loop, against its specification on the script of what `send` reports |
| `Sending.LeftBehind` | src/TFModbusTCPServer.cpp:925-949 | for every script of what `send` reports: success with bytes left behind is reported if and only if no try failed and all ten together sent too little |
| `Sending.SendExactly` | src/TFModbusTCPServer.cpp:925-949 | for every script: the first failing try decides result and errno, unless everything went out before it, and exactly what the tries before it report goes out, capped at the length |
| `Sending.EleventhByteStays` | src/TFGenericTCPClient.cpp:535-574 | eleven bytes sent one by one: success is reported, and one stays behind |
| `ServerFraming.RunIsParse` | src/TFModbusTCPServer.cpp:460-571 | over any visits and any recv results, the dispatched requests and the place of a protocol error are those that the batch parser finds in the bytes taken |
| `ServerFraming.CutsDoNotMatter` | src/TFModbusTCPServer.cpp:460-571 | two connections whose streams agree dispatch the same requests and fail at the same byte, however their streams were cut |
| `ServerFraming.ParseExtends` | src/TFModbusTCPServer.cpp:502-571 | more bytes continue the partial request and change nothing about what was parsed before, so no byte is read across a frame boundary |
| `ServerFraming.StreamDispatched` | src/TFModbusTCPServer.cpp:909-911 | a connection that took back-to-back well-formed requests dispatched exactly these, in order |
| `ServerFraming.RunTurns` | src/TFModbusTCPServer.cpp:573-911 | over any visits, what a connection asks its callback and sends is, request after request, the question and as much of the reply as the send loop of that visit got rid of |
| `ServerFraming.RejectionIgnoresOrder` | src/TFModbusTCPServer.cpp:576-873 | the server disconnects over a request exactly if its length does not fit its function code, count and byte count, whatever the byte order |
| `ServerAnswers.RequestTreated` | src/TFModbusTCPServer.cpp:573-907 | for every request of 5 to 252 payload bytes, told from its bytes: it ends the connection if its length does not fit, is refused with 1 for an unsupported function code and with 3 for a count, byte count or coil value out of range, and nobody is asked; otherwise the callback gets exactly the values sent, no coil at or above the count, and its answer becomes the reply, an exception, or silence |
| `ServerAnswers.VisitReceives` | src/TFModbusTCPServer.cpp:460-571 | what a visit takes and how it ends before a request is complete: seven header bytes with protocol 0 and a length of 6 to 253, then the payload, and the reason and errno of each receive failure |
| `ServerAnswers.VisitAnswers` | src/TFModbusTCPServer.cpp:573-912 | a visit that completes a request treats it so, sends what the send loop gets rid of and stays open unless that fails; any other visit asks nobody and sends nothing |
| `ServerAnswers.RunAnswers` | src/TFModbusTCPServer.cpp:458-912 | over any visits, all that a connection asks and sends is, turn by turn, what this treatment of the dispatched requests says |
| `ServerConnection.Client.FetchHeader` | src/TFModbusTCPServer.cpp:460-500 | receiving header bytes into the request buffer |
| `ServerConnection.Client.FetchPayload` | src/TFModbusTCPServer.cpp:531-571 | receiving payload bytes into the request buffer, never past the frame |
| `ServerConnection.Client.Dispatch` | src/TFModbusTCPServer.cpp:573-880 | the switch over function codes on the object: its question to the callback, its verdict and what lies in the response buffer afterwards are those of the rules, which `ServerAnswers.RequestTreated` fixes by the bytes of the request |
| `ServerConnection.Client.ServeWriteCoils` | src/TFModbusTCPServer.cpp:729-780 | a multiple coil write, with stray bits cleared in the request buffer only if the count is no multiple of 8 |
| `ServerConnection.Client.CompleteResponse` | src/TFModbusTCPServer.cpp:882-897 | function code, exception and header of the response make the buffer the reply frame |
| `ServerConnection.Client.Serve` | src/TFModbusTCPServer.cpp:458-912 | one visit of the object does to its buffers, its callback and its socket what the rules of a visit say |
| `ServerOrder.RunSorted` | src/TFModbusTCPServer.cpp:409-458 | over any run under a monotone clock the list is sorted by non-increasing last_alive |
| `ServerOrder.DisplacesOldest` | src/TFModbusTCPServer.cpp:359-404 | when a connection arrives at a full list after any run under a monotone clock, the last client is a least recently alive one and makes room, or no client can be displaced and the new connection is turned away |
| `ServerOrder.IdleSuffix` | src/TFModbusTCPServer.cpp:437-443 | in any tick after any run under a monotone clock, the clients dropped as idle are exactly a suffix of the visited list |
| `ServerRuns.RunBalanced` | src/TFModbusTCPServer.cpp:917-923 | over any run of start, tick and stop, and for any socket number and peer, connections were accepted as often as they were closed with one disconnect callback or are in the list; a stopped server has an empty list |
| `ServerHistories.ConnectionsLive` | src/TFModbusTCPServer.cpp:355-458 | over any run of the server with its other clients, displacement and idle drops, the connection on a socket is the run of the framing over exactly the visits it has had since its acceptance; each acceptance is followed by one hang-up before the socket is accepted again |
| `ServerHistories.ListedClientsLive` | src/TFModbusTCPServer.cpp:409-480 | each listed client holds the partial request of that run, and has asked and sent what that run asked and sent |
| `ServerRuns.ApplyHealthy` | src/TFModbusTCPServer.cpp:381-404 | no step makes the list longer than eight, and every listed connection is between two frames or within one |
| `ServerOutcomes.TickExactly` | src/TFModbusTCPServer.cpp:293-480 | after any run, a tick that finds something to do: a connection goes in front of up to seven others, displaces the last of eight after 30 s without life, or is turned away; then each client is dropped after two hours, left alone, or visited and alive; what is told and the new list, in order |
| `ServerOutcomes.TickRests` | src/TFModbusTCPServer.cpp:272-334 | after any run, every other tick does nothing: a stopped server, a failed select or accept, or nobody there within a second of the last look |
| `ServerOutcomes.StopTells` | src/TFModbusTCPServer.cpp:230-269 | after any run, stopping tells one disconnect for the reason ServerStopped per client, in the order of the list |
| `ModbusServer.Server.Tick` | src/TFModbusTCPServer.cpp:272-915 | the tick on linked nodes leaves the acyclic list that the rules say, nothing lost or doubled; `ServerOutcomes.TickExactly` fixes the rules |
| `ModbusServer.Server.Stop` | src/TFModbusTCPServer.cpp:230-269 | stopping walks the list and hangs up on every client in order |
| `ModbusServer.Server.Start` | src/TFModbusTCPServer.cpp:64-227 | starting succeeds exactly for an unguarded, stopped server, a port, callbacks, a known address type and a listening socket; otherwise the error is the one of the first check that fails |
| `ModbusServer.VisitAllNodes` | src/TFModbusTCPServer.cpp:409-456 | the relinking loop visits each node once and ends with the readable survivors reversed, then the others in their old order |
| `ModbusServer.VisitNode` | src/TFModbusTCPServer.cpp:435-480 | one node's visit: dropped as idle, left alone, or served |
| `ModbusServer.MakeRoom` | src/TFModbusTCPServer.cpp:359-381 | the walk to the end of the list and the unlinking of a displaced last node |
| `ModbusServer.AdmitNode` | src/TFModbusTCPServer.cpp:355-404 | admission of a connection: displacement, refusal, or a new first node |
| `ClientSafety.TransactionsConserved` | src/TFModbusTCPClient.cpp:246-301 | over any run, with callbacks that call transact, the accepted transactions are the completed, the pending and the queued ones; they are sent and complete once each and in the order of their acceptance; a closed client has none left |
| `ClientLog.RunSettles` | src/TFModbusTCPClient.cpp:246-301 | over any run the completions in the log are a prefix of the acceptances in the log, the rest being pending or queued, and both are the same when the client is not connected |
| `ClientSafety.SuccessExactly` | src/TFModbusTCPClient.cpp:520-748 | success is reported if and only if the response matches in unit, function code, length and byte count or echo, or is an exception response with code 0; only a successful read changes the buffer |
| `ClientSafety.ExceptionZeroSucceeds` | src/TFModbusTCPClient.cpp:541-547 | an exception response with code 0 is a success that copies nothing |
| `ModbusWire.ResultExactly` | src/TFModbusTCPClient.cpp:520-748 | the result number for every response to every request within the limits, in the order of the checks, told from its bytes |
| `ModbusWire.DataExactly` | src/TFModbusTCPClient.cpp:549-748 | which bytes of the caller's buffer change, and to which coils and registers of the response |
| `ClientResults.TransactExactly` | src/TFModbusTCPClient.cpp:138-272 | a transaction is accepted exactly within the limits, without stray coils, with a timeout that is not negative, while connected and with less than 16 waiting; otherwise its callback is told 256, 259 or 258 and nothing changes |
| `ClientResults.TickResults` | src/TFModbusTCPClient.cpp:280-386 | the results of the tick hook: 263 from the deadline on; the next transaction then starts with its masked ID and the deadline start plus timeout, or completes with 261, and everything behind it with 257, if it cannot be sent |
| `ClientResults.RecvResults` | src/TFModbusTCPClient.cpp:389-748 | the results of the receive hook, told from the bytes: 263 first if the deadline has come, then 260 or 262 for a receive that fails in the payload, 264 or 265 for a bad length, or the judgement of the complete response with the pending ID |
| `ClientResults.RunCaused` | src/TFModbusTCPClient.cpp:274-852 | over every run, each transaction completes in a step that holds the cause its result names: 263 its deadline, 257 the closed client, 261 the failed send, or the received bytes, before its deadline |
| `ClientResults.SuccessNeedsResponse` | src/TFModbusTCPClient.cpp:505-748 | over every run, each completion with success comes from a receive step before the deadline whose bytes make up a response with the pending ID that matches the request |
| `ClientSafety.RecvWrites` | src/TFModbusTCPClient.cpp:505-675 | a call of the receive hook writes at most once, into the buffer of the transaction that was pending, with the bytes of a frame of matching transaction ID, unit, function code, length and byte count |
| `ClientSafety.OthersWriteNothing` | src/TFModbusTCPClient.cpp:274-387 | no other step (transact, tick hook, connecting, closing) writes into a buffer |
| `ClientSafety.EveryWriteJustified` | src/TFModbusTCPClient.cpp:505-675 | over any run, every write into a caller's buffer was made by a step of the receive hook, for the transaction pending then, with the bytes of a matching frame |
| `ClientSafety.FailedNeverWritten` | src/TFModbusTCPClient.cpp:794-851 | over any run, the buffer of a transaction that timed out, was aborted or failed is never written, neither before nor after its completion |
| `ClientSafety.WrittenOnce` | src/TFModbusTCPClient.cpp:549-675 | over any run, a transaction's buffer is written at most once, right before it completes with success |
| `ClientSafety.MaskedIdsDiffer` | src/TFModbusTCPClient.cpp:292 | with the mask 2^m - 1 any 2^m consecutive transaction IDs differ, across the wrap-around |
| `ClientSafety.RunCounted` | src/TFModbusTCPClient.cpp:288-301 | over any run the k-th sent transaction has the k-th ID, masked |
| `ClientSafety.StaleResponseIgnored` | src/TFModbusTCPClient.cpp:505-518 | over any run a late, correctly framed response to one of the 2^m - 1 transactions sent before the pending one completes nothing |
| `ClientSafety.ForeignResponseIgnored` | src/TFModbusTCPClient.cpp:512-518 | a response with another transaction ID only empties the receive buffer |
| `ClientSafety.ReceiveLoopProgresses` | src/TFGenericTCPClient.cpp:469-478 | whenever the receive hook asks to be called again, twice the unread bytes plus one for a complete header has decreased |
| `ClientLoop.ReceiveLoop` | src/TFGenericTCPClient.cpp:469-478 | the receive loop over a finite stream ends, and what it did is a run of the client; unless time was up, everything is read, no whole frame is held, and if the stream ends with a response or goes on with a whole header at least, the connection holds and the frames are those of the batch parser |
| `ClientRuns.CloseKeeps` | src/TFModbusTCPClient.cpp:816-834 | closing completes everything, in order, and leaves neither a pending nor a queued transaction although callbacks call transact |
| `ClientRuns.TickKeeps` | src/TFModbusTCPClient.cpp:280-387 | the tick hook keeps the ledger of transactions |
| `ClientRuns.RecvKeeps` | src/TFModbusTCPClient.cpp:389-749 | the receive hook keeps the ledger of transactions and the bounds of the receive buffer |
| `ClientFraming.RunIsParse` | src/TFModbusTCPClient.cpp:395-503 | over a run of a lasting connection in which no trailing bytes are taken for a part of a frame, the resolved frames and what is held are the batch parse of the bytes taken, however they were cut |
| `ClientFraming.CutsDoNotMatter` | src/TFModbusTCPClient.cpp:395-503 | two such runs with the same bytes have resolved the same frames, up to one that lies complete in a receive buffer |
| `ClientFraming.FramingExactly` | src/TFModbusTCPClient.cpp:463-503 | over any run of a lasting connection, the resolved frames and what is held are the batch parse of the bytes taken after every step if and only if no step takes one to six trailing bytes for a part of a complete frame, of any length |
| `ClientFraming.NextResponseLosesByte` | src/TFModbusTCPClient.cpp:480-493 | the concrete run in which the first byte of the next response is lost to the frame in front of it |
| `ClientFraming.ProtocolErrorExactly` | src/TFModbusTCPClient.cpp:421-503 | while the system calls work, the hook keeps the connection if and only if what is held can begin a response, or is a frame too short to be one that trailing bytes complete or may still complete |
| `ClientFraming.ShortFrameRepaired` | src/TFModbusTCPClient.cpp:480-503 | the concrete frame of two bytes, refused by the batch parser, that survives with two trailing bytes |
| `ClientFraming.BuffersSuffice` | src/TFModbusTCPClient.cpp:751-785 | in every reachable state, what the hook takes fits into the receive buffer, trailing bytes included |
| `ClientFraming.ResponseParses` | src/TFModbusTCPCommon.h:95-207 | a response as it is sent parses to itself |
| `ClientAnswers.ResolvedCompletes` | src/TFModbusTCPClient.cpp:505-748 | over any run, a frame that is resolved while its transaction is pending leaves in the log what its judgement copies, directly followed by the completion |
| `ClientCodec.EncodeRequest` | src/TFModbusTCPClient.cpp:298-376 | the request built in the send buffer is the frame that the rules say |
| `ModbusWire.AcceptedExactly` | src/TFModbusTCPClient.cpp:142-229 | a request is accepted if and only if function code and count are within the limits of the protocol, a single coil is 0 or 1, and no coil is set behind the last one |
| `ModbusWire.FrameOnWire` | src/TFModbusTCPCommon.h:95-207 | where transaction ID, protocol, length, unit and payload are in a frame, high byte first |
| `ModbusWire.RequestOnWire` | src/TFModbusTCPClient.cpp:298-376 | where function code, start address, count, byte count, coils, registers and masks are in the payload of every accepted request |
| `ClientCodec.CheckResponse` | src/TFModbusTCPClient.cpp:520-748 | the response check and the copying loops leave the result and the caller's buffer that the rules say |
| `ModbusClient.CheckArguments` | src/TFModbusTCPClient.cpp:142-229 | the argument check of transact, up to the check for a missing buffer |
| `ModbusClient.Client.Transact` | src/TFModbusTCPClient.cpp:129-272 | transact on the object: nothing without a callback, else rejected for the reason that the rules give or for a missing buffer, or appended to the queue |
| `ModbusClient.Client.FinishPending` | src/TFModbusTCPClient.cpp:794-814 | the pending transaction is gone before its callback runs and calls transact |
| `ModbusClient.Client.FinishAll` | src/TFModbusTCPClient.cpp:816-834 | the pending transaction and the detached queue are completed one after the other |
| `ModbusClient.Client.Close` | src/TFModbusTCPClient.cpp:274-278 | the close hook, behind a socket that is gone already |
| `ModbusClient.Client.StartIfIdle` | src/TFModbusTCPClient.cpp:288-386 | the next transaction is started with the next masked ID; what goes to send is its encoded frame; a failing send ends it and the connection |
| `ModbusClient.Client.TickHook` | src/TFModbusTCPClient.cpp:280-387 | the tick hook on the object does what the rules say, whose results `ClientResults.TickResults` gives; the frame that goes to send is that of the transaction it starts, with what its buffer holds after the timeout callback |
| `ModbusClient.Client.Resolve` | src/TFModbusTCPClient.cpp:505-748 | a complete frame ends the pending transaction, or nothing; the caller's buffer then holds what the response check says, unless the callback has filled it again |
| `ModbusClient.Client.RecvHook` | src/TFModbusTCPClient.cpp:389-749 | the receive hook on the object, with its two receive buffers, does what the rules say, whose results `ClientResults.RecvResults` gives |
| `TcpRuns.OnePhase` | src/TFGenericTCPClient.cpp:276-287 | every reachable state is in exactly one phase; the connect callback is held exactly while a host is set and no socket is connected, the disconnect callback exactly while one is |
| `TcpRuns.CallbacksExactlyOnce` | src/TFGenericTCPClient.cpp:203-274 | over any run each call of connect gets one connect callback, then one disconnect callback exactly if that told Connected; an idle client owes nothing |
| `TcpRuns.SocketsClosedOnce` | src/TFGenericTCPClient.cpp:481-504 | over any run sockets are opened one at a time, and each is closed exactly once, save the one that is held |
| `TcpRuns.AttemptUsesItsOwnAddress` | src/TFGenericTCPClient.cpp:305-333 | over any run with at most 2^32 resolves, an attempt dials only an address that was given in answer to a question asked for this attempt |
| `TcpRuns.AnswerTakenExactly` | src/TFGenericTCPClient.cpp:320-332 | an answer has an effect if and only if the client is resolving and the answer is a multiple of 2^32 questions old |
| `TcpRuns.OldAnswerTaken` | src/TFGenericTCPClient.cpp:306-332 | for every multiple of 2^32 there is a run after which the answer to a question so many questions old, of an attempt that was given up, is taken |
| `JoinedRuns.TickRefines` | src/TFGenericTCPClient.cpp:290-479 | a tick of the joined client is a tick of the generic client whose hooks do what the Modbus half does |
| `JoinedRuns.TcpRefines` | src/TFModbusTCPClient.cpp:303-503 | the generic client of every run of the joined client goes through a run of its own |
| `JoinedRuns.ModbusRefines` | src/TFGenericTCPClient.cpp:241-479 | the Modbus half of every run of the joined client is in a state of a run of the Modbus client |
| `JoinedRuns.SettledBeforeLost` | src/TFGenericTCPClient.cpp:621-642 | over any run of the joined client, each disconnect callback, and each connect callback that tells a failure, finds all transactions completed that were accepted until then |
| `TcpRuns.TickFollows` | src/TFGenericTCPClient.cpp:290-479 | a tick extends the log by events of one well-formed session after the other, the socket closed before the callback |
| `TcpRuns.DisconnectFollows` | src/TFGenericTCPClient.cpp:241-274 | disconnecting ends the session with the callback that it owes, and leaves an idle client |
| `TcpOutcomes.TickExactly` | src/TFGenericTCPClient.cpp:290-479 | after any run, what a tick does in each phase: while dialing it waits if nothing is reported before the deadline, tells Timeout exactly from the deadline on, Connected exactly for success, and each failure exactly for its cause; resolving, dialing and losing a connection likewise |
| `TcpOutcomes.ConnectExactly` | src/TFGenericTCPClient.cpp:203-238 | after any run, which call of connect is refused with which result, and what an accepted one keeps |
| `TcpOutcomes.DisconnectExactly` | src/TFGenericTCPClient.cpp:241-274 | after any run, disconnect tells AbortRequested to an attempt and Requested to a connection, and nothing to an idle client |
| `TcpOutcomes.AnswerExactly` | src/TFGenericTCPClient.cpp:313-333 | after any run, an answer of the resolver is kept to be dialed, ends the attempt with ResolveFailed, or is only noted |
| `TcpOutcomes.SilenceWaits` | src/TFGenericTCPClient.cpp:417-443 | any number of ticks in which select reports nothing before the deadline leave a dialing client as it is |
| `TcpOutcomes.AttemptDecided` | src/TFGenericTCPClient.cpp:408-466 | an attempt from dialing through any number of such ticks: Connected if select reports success within three seconds of dialing, Timeout after that |
| `TcpClient.Client.Connect` | src/TFGenericTCPClient.cpp:203-238 | connect on the object: refused when guarded, unusable or connected, else kept for the next tick |
| `TcpClient.Client.Disconnect` | src/TFGenericTCPClient.cpp:241-274 | disconnect on the object, with its three results |
| `TcpClient.Client.Tick` | src/TFGenericTCPClient.cpp:290-479 | the tick on the object is that of the rules, which `TcpOutcomes.TickExactly` fixes phase by phase |
| `TcpClient.Client.Resolved` | src/TFGenericTCPClient.cpp:313-333 | the resolve callback with the captured ID |
| `TcpClient.Client.DialAddress` | src/TFGenericTCPClient.cpp:346-414 | opening and connecting a socket, with every failure on the way |
| `TcpClient.Client.Await` | src/TFGenericTCPClient.cpp:417-466 | timeout, failure, further waiting or success of a started connection on the object, as in the rules, which `TcpOutcomes.TickExactly` fixes case by case |
| `TcpClient.Client.Close` | src/TFGenericTCPClient.cpp:481-504 | closing resets every field and closes the socket that is open |
| `PoolRuns.PoolStructure` | src/TFGenericTCPClientPool.cpp:360-401 | in every reachable state the count is the number of shares; a slot is live iff it has shares iff it is not marked for deletion iff its client has a host; no two live slots share host and port |
| `PoolRuns.AcquireOutcome` | src/TFGenericTCPClientPool.cpp:70-171 | no free slot iff all are live and none matches, no free share iff the matching slot is full, otherwise the caller holds a share of the right slot, and all other slots are untouched |
| `PoolAcquire.AcquireExactly` | src/TFGenericTCPClientPool.cpp:45-228 | after any run, what a call of acquire does: its refusals and their order, the first free share of the matching slot with an immediate Secondary Connected if the connection is up, or a new life of the first slot that waits for its deletion, else of the first unused one |
| `PoolRuns.ShareCallbacksExactlyOnce` | src/TFGenericTCPClientPool.cpp:173-227 | over any run each call of acquire gets one connect callback before its share is freed, and one disconnect callback exactly if that told Connected |
| `PoolRuns.PrimaryExactlyOnce` | src/TFGenericTCPClientPool.cpp:181-201 | each life of a slot that connects tells exactly one connect callback Primary, and exactly one disconnect callback once it ends |
| `PoolRuns.PrimaryDisconnectIsLast` | src/TFGenericTCPClientPool.cpp:369-377 | over every run, the Primary disconnect callback is the last callback of its slot's life |
| `PoolSteps.ReleaseFromSteps` | src/TFGenericTCPClientPool.cpp:256-275 | a release, with or without force, keeps the slot in order and gives each share that goes the callbacks that it is owed |
| `PoolOutcomes.ReleaseExactly` | src/TFGenericTCPClientPool.cpp:231-281 | after any run, a release with force leaves the slot without shares, host and socket and marked for deletion, and tells one disconnect (or abort) per share held: Requested to the released one first, then Forced to every other one in order, Primary to the last; without force exactly this share goes and nothing else changes |
| `PoolOutcomes.CallbackTold` | src/TFGenericTCPClientPool.cpp:174-227 | a callback of a slot's client is told to every user with its result or reason and the right level; after a failure or a loss nobody is left |
| `PoolOutcomes.TicksEach` | src/TFGenericTCPClientPool.cpp:284-311 | in a tick the slots that wait for their deletion go, and the client of every other one ticks, in order; exactly what these tell is told |
| `PoolSteps.StepClientSteps` | src/TFGenericTCPClientPool.cpp:174-227 | whatever callbacks a step of the client makes, the handlers keep the slot in order |
| `PoolSlots.ConnectLevels` | src/TFGenericTCPClientPool.cpp:181-201 | the first share told Connected is told Primary, the others Secondary |
| `PoolSlots.LoseMoves` | src/TFGenericTCPClientPool.cpp:211-227 | a lost connection releases every share, the last one as Primary |
| `Pool.ClientPool.Acquire` | src/TFGenericTCPClientPool.cpp:45-228 | acquire on the array of slots is that of the rules, which `PoolAcquire.AcquireExactly` fixes |
| `Pool.ClientPool.Search` | src/TFGenericTCPClientPool.cpp:70-136 | the search loop finds the matching live slot, else the first slot that waits for its deletion, else the first unused one |
| `Pool.ClientPool.Release` | src/TFGenericTCPClientPool.cpp:231-281 | release on the array of slots, with its three results, is that of the rules, which `PoolOutcomes.ReleaseExactly` fixes |
| `Pool.ClientPool.Tick` | src/TFGenericTCPClientPool.cpp:284-311 | the tick on the array of slots is that of the rules, which `PoolOutcomes.TicksEach` fixes |
| `Pool.SharedSlot.ReleaseShare` | src/TFGenericTCPClientPool.cpp:313-377 | the private release, up to the mark for deletion |
| `Pool.SharedSlot.OnConnect` | src/TFGenericTCPClientPool.cpp:174-210 | the connect callback's loop over the shares |
| `Pool.SharedSlot.OnDisconnect` | src/TFGenericTCPClientPool.cpp:211-227 | the disconnect callback's loop over the shares |
| `Crc.Crc16Ccitt` | src/TFRCTPowerClient.cpp:30-50 | the loop on a 32-bit word with its deferred mask computes the 16-bit shift register checksum |
| `CrcValues.CheckValue` | src/TFRCTPowerClient.cpp:30-50 | the checksum of the digits 1 to 9 is 0x29B1, the published check value for this polynomial and initial value |
| `Crc.TurnIsStep` | src/TFRCTPowerClient.cpp:36-44 | one turn of the inner loop is one step of the register, whatever lies above bit 15 |
| `Crc.FeedLinear` | src/TFRCTPowerClient.cpp:34-44 | feeding is linear in register and bits |
| `Crc.FeedToZero` | src/TFRCTPowerClient.cpp:34-44 | up to 16 bits lead to zero from exactly the register that holds them |
| `Crc.ChecksumDetectsBursts` | src/TFRCTPowerClient.cpp:30-50 | buffers of equal length that differ only within 16 consecutive bits have different checksums |
| `Crc.CorruptionDetected` | src/TFRCTPowerClient.cpp:263-275 | an intact message hit by such a burst anywhere, its checksum included, is not intact |
| `RctPowerClient.CorruptedNeverSucceeds` | src/TFRCTPowerClient.cpp:263-291 | a response hit by such a burst never completes a transaction with success |
| `RctOutcomes.ResponseOutcome` | src/TFRCTPowerClient.cpp:182-291 | from any state whose last byte is not '-', and with time enough, a framed response completes the call: a tolerable one is ignored exactly for another ID, a mismatch exactly for a wrong checksum, and otherwise a success with its value in little-endian order; an intact one delivers its value if and only if it is asked for and tolerable; success means tolerable, asked for and intact exactly unless what comes out of an intolerable one is asked for and intact |
| `RctOutcomes.WrongValueDelivered` | src/TFRCTPowerClient.cpp:211-291 | the concrete intact response whose transaction succeeds with another value |
| `RctOutcomes.BehindMinusUnheard` | src/TFRCTPowerClient.cpp:217-222 | behind a '-' no framed response completes anything |
| `RctFraming.FrameDecodes` | src/TFRCTPowerClient.cpp:186-251 | from any state whose last byte is not '-', a framed message decodes to itself, and to it alone, if and only if it is tolerable |
| `RctFraming.StreamYields` | src/TFRCTPowerClient.cpp:211-251 | exactly which messages come out of any stream of frames: one for each frame that is not behind a '-', and what its escaping makes of it |
| `RctFraming.MinusPlusLost` | src/TFRCTPowerClient.cpp:232-241 | a message with '-' and '+' side by side does not come out |
| `RctFraming.StreamDecodes` | src/TFRCTPowerClient.cpp:163-172 | from any state between frames, back-to-back frames of any messages all decode if and only if every message is tolerable and no '-' comes right before one of the start bytes |
| `RctFraming.CleanSurvive` | src/TFRCTPowerClient.cpp:163-172 | any number of messages without a '-' in front of a special byte or at the end meet that condition |
| `RctFraming.Resynchronises` | src/TFRCTPowerClient.cpp:211-251 | after any garbage that leaves the decoder between frames, the same messages come out of a stream as without it, and all of them if and only if the stream meets that condition |
| `RctFraming.EndingInMinusLosesNext` | src/TFRCTPowerClient.cpp:211-241 | a message that ends in '-' decodes, but the frame behind it is lost |
| `RctPowerClient.EscapeRequest` | src/TFRCTPowerClient.cpp:163-172 | the escaping loop builds the framed message and stays within its buffer |
| `RctPowerClient.BuildRequest` | src/TFRCTPowerClient.cpp:148-161 | the request is the read command for the ID, followed by its checksum |
| `RctOutcomes.RequestNamesId` | src/TFRCTPowerClient.cpp:149-161 | a request is the command 1 with length 4 and the ID, high byte first |
| `RctPowerClient.Receiver.ReceiveHook` | src/TFRCTPowerClient.cpp:182-292 | the receive hook decodes what it takes and stops at a complete response, which it judges by ID and checksum, when nothing is left, or when its time has elapsed; an error or the end of the stream disconnects and forgets what was received; what that comes to for a response on the wire is `RctOutcomes.ResponseOutcome` |
| `RctPowerClient.Receiver.ReceiveByte` | src/TFRCTPowerClient.cpp:211-251 | one byte in the decoder |

## Left out

- Addresses, errno values in pool callbacks and message texts: nothing decides on them.
- `socket`, `bind`, `listen` and the socket options of `start`: one argument says whether a listening socket results.
- `transact` without a buffer where the argument check looks into it (single coils, and coil counts that are no multiple of 8): the original would follow a null pointer, and callers must not.
- Transfer hooks, tick and receive counters, debug output and name functions: no result rests on them.
- The linked nodes of the Modbus client's queue: the queue is a sequence field that the methods reassign, so the model does not capture aliasing of queue nodes. The server's linked list is modelled with its nodes.
- The joined client as one object: its halves have classes of their own, `TcpClient` with the hooks as arguments and `ModbusClient` with its hooks as methods; how they call each other is modelled on values.
- The RCT Power transaction queue, which is the Modbus client's with fewer fields, its float results beyond their four bytes, and the bootloader detection.
- Calls back into a client while an asynchronous resolve failure is reported between two ticks happen outside of the guard in the original; they are the last thing that happens there, and the model has them as separate steps behind it. For the pool they are assumed not to happen.
- The destruction of a client while a resolve is outstanding, and the destructors: an answer reaches a client that exists.
- The shared client wrappers, the Modbus and RCT client pools: factories and forwarding.
