# A verified model of the MIF framework's core

MIF is a C++ framework for remote procedure calls and HTTP services. This project models the
parts of it whose correctness does not show in any single function, and proves what they are for:

- **RPC** (`PsProtocol`, `PsClient`, `RpcSystem`, `RpcRuns`, `RpcOrigins`, `RpcTables`): two symmetric peers, each with a
  table of stubs and a table of responses, any number of threads calling `Send`, worker threads
  in `ProcessData`, and a channel that reorders and loses messages. Every locked section is a step;
  the theorems are about all runs.
- **Framing and the client chain** (`Framing`, `Chain`, `NetClient`): length-prefixed frames under
  arbitrary fragmentation, the pipeline built by `CreateChain`, the closed flag.
- **JSON serializer** (`JsonCodec`, `JsonParts`, `JsonBurden`, `JsonText`, `JsonRoundTrip`,
  `JsonClash`, `JsonForeign`): a type universe with structs, bases, enums, optionals and smart
  pointers, tuples, pairs and containers; both directions, what printing and parsing does to numbers
  in between, which text the parser accepts, bases and fields that share a name, and the decoding of
  text that the encoder did not write.
- **CRC-32** (`Crc32`): the compile-time recursion, the generated table and the run-time loop
  against the bit-by-bit CRC of section 8 of RFC 1952. Words are sequences of 32 bits, lowest first.
- **Service pool** (`Pool`), **HTTP session, request handling, chunked output and
  routing** (`HttpSession`, `HttpRequest`, `HttpAnswers`, `HttpOutput`, `Routing`), **servlet session
  store** (`Servlet`, `ServletObjects`, `ServletRuns`).
- **Interface hierarchies** (`Interfaces`) and the **URL codec** (`UrlCodec`).

Objects that the source updates in place are classes whose methods are proved against functions of
the old state; protocols are state machines (`Enabled`, `Apply`, `Inv`, `IsRun`) over the same
functions. Clocks, thread scheduling, user code, fresh uuids and socket completions are parameters
or events of the machines.

Libraries enter as follows. gzip is any lossless pair with non-empty output. The JSON parser rejects
strings that are not UTF-8 (section 4 of RFC 3629) and nesting deeper than 32, the defaults of
Boost.JSON. Which status codes make the preparation of an HTTP response throw is a parameter, and the
theorems hold for every choice; in Boost.Beast these are 1xx, 204 and 304, whose body must be empty.
A `char` of a string stands for one byte.

## What was found

- `FrameReader` posts one frame per chunk, so the second frame of a chunk waits for more bytes
  (`Framing.SecondFrameWaits`); frames are posted as soon as they are complete exactly when no chunk
  completes two (`Framing.PostedPromptly`). A frame is read back exactly when its payload is shorter
  than 2^31 bytes (`Framing.FrameReadBackIff`).
- A response is posted inside the `try` block of `HandleRequest`, and posting runs the task at once.
  When the task throws, as for a handler that sets status 204, the `catch` block queues a second
  response behind the first; neither is ever started. No operation is left outstanding, and only the
  handlers of outstanding operations keep a session alive, so the connection ends without a response
  (`HttpSession.ThrowingStatusUnanswered`). One request queues one response exactly when this does not
  happen and no exception escapes (`HttpSession.PostsOnceIff`, `HttpSession.OneResponsePerRequest`).
- The HTTP session reads a second request exactly when the pipeline limit is 0 or 1; with a larger
  limit the connection ends after its one response (`HttpSession.SecondRequestNeedsLimitOne`).
- With chunk size 0 a non-empty body is never finished (`HttpOutput.ZeroChunkEndsIff`).
- The `Close` hook runs once less often than `OnClose` is called (`NetClient.CloseGates`).
- A JSON null leaves the target of an optional or smart pointer as it was
  (`JsonRoundTrip.NullKeepsTarget`), so a field whose initialiser fills an optional cannot be sent
  empty (`JsonRoundTrip.InitialiserSticks`). Strings that are not UTF-8 are printed but not parsed
  (`JsonRoundTrip.BadTextThrows`). The exact condition for a value to come back is
  `JsonRoundTrip.RoundTripExact`.
- Of bases and fields that share a name only the last is sent, and the others are decoded from it
  (`JsonClash.HiddenComesFromNamesake`). If their types read different kinds of JSON, the struct never
  comes back, whatever its value (`JsonClash.NameClash`); namesakes of one type come back when they
  are equal (`JsonClash.SameTypeClash`), and scalar namesakes exactly when the hidden one is what its
  type reads from the other's value (`JsonClash.ScalarClash`).
- `DecodeUrl` accepts some triplets that are not two hexadecimal digits: one digit and a stray
  character, or a sign or white space before a digit (`UrlCodec.LooseTriplets`).
- `MakeInheritedIist` lists `IService` exactly when it stands beside another base somewhere
  (`Interfaces.InheritedListIsExact`).

## Model

| member | source | states |
|---|---|---|
| `PsClient.PSClient.constructor` | include/mif/remote/ps_client.h:43-53 | A new peer is open, has no responses and one stub, the object manager under the bootstrap id. |
| `PsClient.PSClient.CleanOldResponses` | include/mif/remote/ps_client.h:408-418 | The erase-while-iterating loop removes exactly the responses whose stamp lies more than the timeout before now, and keeps the others unchanged. |
| `PsClient.PSClient.ProcessData` | include/mif/remote/ps_client.h:316-380 | The verdict on a buffer up to the stub call, with every error case, the empty buffer included; a response is stored with its stamp under its uuid unless one is there that has not expired, the expired ones go, and nothing else changes the table. |
| `PsClient.PSClient.TryTake` | include/mif/remote/ps_client.h:280-306 | One look at the table: it throws, changing nothing, exactly when the connection is closed; else the response is found exactly when it is stored, is removed with its finding, and the expired ones go as well. |
| `PsClient.PSClient.Send` | include/mif/remote/ps_client.h:263-313 | The four ways out: not posted exactly when closed or without a channel; closed only if the connection closed during the wait; a response that was stored before or arrived with this uuid and is no longer in the table; or the time limit, with no such response left. |
| `PsClient.PSClient.AppendStub` | include/mif/remote/ps_client.h:197-224 | A null instance gets the empty id and no entry; for any other, unless the generated id is taken, the entry added under it holds that very instance and interface if the interface is registered, and else a null stub. |
| `PsClient.PSClient.DestroyObject` | include/mif/remote/ps_client.h:115-132 | Succeeds exactly for a non-empty id in the table, and then removes that entry only. |
| `RpcSystem.TokenStep` | include/mif/remote/ps_client.h:263-380 | Every step of either peer keeps each request uuid in exactly one place (asked, running, replied, kept, done) with the response computed for it. |
| `RpcSystem.RefStep` | include/mif/remote/ps_client.h:106-224 | Every step keeps each issued instance id in the table it was issued for, bound to its stub, with one party responsible for it. |
| `RpcSystem.InvStep` | include/mif/remote/ps_client.h:263-380 | Both invariants together are kept by all ten kinds of steps. |
| `RpcSystem.RunInv` | include/mif/remote/ps_client.h:263-380 | The invariant holds in every state of every run of two new peers. |
| `RpcRuns.TokenKept` | include/mif/remote/ps_client.h:341-379 | A step changes neither sender nor request of a call on record, and its answer only by replying to it. |
| `RpcRuns.AnswerOrigin` | include/mif/remote/ps_client.h:351-374 | Every answer on record was computed by an earlier stub call of the peer for that very request; what it computed is `RpcOrigins.SendReturnsOutcome`. |
| `RpcRuns.SendReturnsComputedResponse` | include/mif/remote/detail/ps.h:200-243 | In every run a `Send` that returns yields the response that a stub call of the peer for that request has posted, and the type, instance, interface and method checks of `RemoteCall` succeed. |
| `RpcRuns.ResponseTakenOnce` | include/mif/remote/ps_client.h:295-303 | In every run each response is consumed at most once. |
| `RpcRuns.UuidsNeverCollide` | include/mif/remote/ps_client.h:341-379 | The "not unique" branch is unreachable, and a delivered message never meets a stored response or a running call with its uuid. |
| `RpcRuns.RefFixed` | include/mif/remote/ps_client.h:197-224 | Side and stub of an issued id never change, and a destroyed id stays destroyed: no id is rebound. |
| `RpcRuns.LiveProxyIsBound` | include/mif/remote/detail/ps.h:158-198 | In every state of every run a live proxy with a manager and a non-empty id names an entry of the peer's table, the same for as long as the id exists, and shares its id with no other such proxy. |
| `RpcRuns.BootstrapNeverRemoved` | include/mif/remote/ps_client.h:245-261 | The bootstrap entry of either peer is present and unchanged in every state of every run. |
| `RpcRuns.DestroyFinds` | include/mif/remote/ps_client.h:115-132 | `DestroyObject` sent by a proxy always finds its instance, not destroyed before, and marks it destroyed. |
| `RpcRuns.DestroyedOnce` | include/mif/remote/detail/ps.h:183-198 | No id is destroyed twice in a run. |
| `RpcOrigins.RunTraced` | include/mif/remote/ps_client.h:351-374 | Every stub call in progress was dispatched by the delivery of its request to the stub that the request's instance named then; what it holds or answers is what the service supplied when it began, or a reference to the object it held under the id that it was published with. |
| `RpcOrigins.SendReturnsOutcome` | include/mif/remote/ps_client.h:263-374 | In every run a `Send` that returns yields a response with the head of its request, whose result is what the peer's service answered to that very request, or a reference to the object that the service held, under the id drawn for it; the call went to the stub that the request's instance named when it was delivered. |
| `RpcOrigins.RequestOrigin` | include/mif/remote/detail/ps.h:200-243 | Every request on record was posted by an event: a proxy's method with its instance, interface, name and arguments, a request to the object manager, or `DestroyObject` for the id of a managed proxy that died. |
| `RpcOrigins.CallOrigin` | include/mif/remote/detail/ps.h:200-243 | A caller that gets a response has posted its request by such an event. |
| `RpcOrigins.SendEndsOnce` | include/mif/remote/ps_client.h:280-313 | Each call of `Send` ends once: with its response, or by the time limit or the closed connection. |
| `RpcOrigins.DropSendsDestroy` | include/mif/remote/detail/ps.h:183-198 | The death of a proxy sends exactly one message, `DestroyObject` for its id, if the proxy holds the object manager, and none otherwise. |
| `RpcOrigins.TakeMakesProxy` | include/mif/remote/detail/ps.h:158-243 | The proxy that a caller gets from a response: managed for a created and for a queried object, unmanaged for a clone, as the called proxy for an interface result; none for an empty id, except for a created object. |
| `RpcOrigins.RefOrigin` | include/mif/remote/ps_client.h:197-224 | Each issued id was issued by an event for an object, and is on record with the stub that serves that object, or a null stub for an unregistered interface. |
| `RpcOrigins.StubServesObject` | include/mif/remote/ps_client.h:197-224 | Every entry of a stub table except the object manager's serves the very object that its id was issued for: a published parameter, or what a service held. |
| `RpcOrigins.LiveProxyReachesObject` | include/mif/remote/detail/ps.h:158-198 | In every state of every run the entry that a live managed proxy names serves the object that its id was issued for. |
| `RpcOrigins.ManagerHolds` | include/mif/remote/ps_client.h:134-195 | The object manager's `CloneReference` holds the object of the cloned entry, and its other requests an object for the interface asked for. |
| `RpcOrigins.ManagerAnswers` | include/mif/remote/ps_client.h:106-195 | What the object manager answers at once: `DestroyObject` throws exactly for an empty or unknown id, the others throw or return an empty reference, and a clone of a known id is not refused. |
| `RpcOrigins.DestroyedStaysGone` | include/mif/remote/ps_client.h:115-132 | After an id was destroyed no table of that peer ever holds it again. |
| `RpcTables.PacketsAreConserved` | include/mif/remote/ps_client.h:263-374 | In every run the packets sent, with the contents that the events give them, are exactly those delivered, lost or still on the channel, with their multiplicities. |
| `RpcTables.TablesAreExact` | include/mif/remote/ps_client.h:106-418 | In every state of every run the stubs, waiting calls, running stub calls, stored responses (with their stamps) and proxies of a peer are exactly those that an event made and no later event removed: a destroy, the end of the call, the reply, the finding or expiry of the response, the proxy's death. |
| `RpcTables.CallCanComplete` | include/mif/remote/detail/ps.h:200-243 | At the end of any run, whatever else is in progress, a call of any method on a live proxy whose id names a service of the peer can complete: for whatever result the service gives there is a continuation of six steps, ending with the `Send` that takes it. |
| `Framing.FrameReader.constructor` | src/mif/net/clients/frame_reader.cpp:26-62 | A new reader has buffered and posted nothing. |
| `Framing.FrameReader.OnData` | src/mif/net/clients/frame_reader.cpp:29-58 | The buffer juggling equals appending the chunk and moving at most one complete frame out; it is undefined exactly for a received size of -1 to -4. |
| `Framing.WriteFrame` | src/mif/net/clients/frame_writer.cpp:31-42 | The frame is the payload behind its size as a big-endian 32-bit number. |
| `Framing.ScanFrame` | src/mif/net/clients/frame_reader.cpp:35-57 | A written frame followed by any bytes yields its payload and leaves those bytes. |
| `Framing.ScanPart` | src/mif/net/clients/frame_reader.cpp:35-41 | Every proper prefix of a written frame makes the reader wait. |
| `Framing.FrameReadBackIff` | src/mif/net/clients/frame_reader.cpp:35-57 | A frame is read back exactly when its payload is shorter than 2^31 bytes. |
| `Framing.ReaderStep` | src/mif/net/clients/frame_reader.cpp:29-58 | A chunk of the stream keeps "re-encoded posted frames followed by the buffer are the bytes received", is never misread, and posts min(previous + 1, complete) frames. |
| `Framing.ReaderTracksStream` | src/mif/net/clients/frame_reader.cpp:29-58 | The same after every chunk, for every way of cutting every stream; the posted frames are a prefix of the payloads. |
| `Framing.PostedPromptly` | src/mif/net/clients/frame_reader.cpp:31-57 | Every frame is posted as soon as it is complete, after every chunk, exactly when no chunk completes more than one frame. |
| `Framing.SecondFrameWaits` | src/mif/net/clients/frame_reader.cpp:40-57 | Two frames in one chunk: the second stays in the buffer, complete. |
| `Chain.FeedAppend` | include/mif/net/clients_chain.h:203-224 | Feeding a joined chain is feeding its parts in order, closed clients, empty buffers and exceptions included. |
| `Chain.CreateAppend` | include/mif/net/clients_chain.h:79-104 | Creating a chain from a longer list of stages joins the chains of its parts. |
| `Chain.ChainIsComposition` | include/mif/net/clients_chain.h:79-104 | A chain of any number of stages acts as the composition of its stages in declared order. |
| `Chain.ArchivedFrameSplits` | include/mif/remote/predefined/protocol/archived_frame.h:28-37 | The chain created from the six declared stages is the receiving part up to the pool, the part up to the RPC peer, and the sending part, in that order. |
| `Chain.PartsAreSeparate` | src/mif/net/clients/parallel_handler.cpp:31-52 | Whatever is open or closed, feeding the whole chain from the socket changes only the first part, and feeding what the pool passes on changes only the second. |
| `Chain.OutgoingFrames` | include/mif/remote/predefined/protocol/archived_frame.h:28-37 | A message of a peer leaves the chain as one frame of the compressed message, or is dropped exactly when one of the two stages is closed. |
| `Chain.LinkSend` | include/mif/remote/predefined/protocol/archived_frame.h:28-37 | Posting a message keeps the accounting of all messages sent (delivered, queued, buffered, on the wire, dropped), and their order. |
| `Chain.LinkArrive` | include/mif/net/clients_chain.h:203-224 | A chunk of any size keeps the accounting; the next message is queued exactly when it is complete and neither reader nor pool is closed. |
| `Chain.LinkWork` | include/mif/net/clients_chain.h:203-224 | A worker that takes any queued task delivers that message unharmed, or drops it exactly when the pool or a stage behind it is closed; taking the first keeps the order. |
| `Chain.LinkClose` | include/mif/net/clients_chain.h:208-212 | Closing any single stage of either chain at any moment keeps the accounting and the order. |
| `Chain.RunCut` | include/mif/remote/predefined/protocol/archived_frame.h:28-37 | The accounting holds in every state of every run, with the stages closed that its events closed. |
| `Chain.DeliveryIsFaithful` | src/mif/net/client.cpp:26-71 | In every run, whichever stages close when, the peer receives a sub-multiset of the messages posted, and a prefix of them in order when tasks run in sequence. |
| `Chain.NothingLostWhileOpen` | src/mif/net/client.cpp:26-71 | While no stage is closed every message posted is delivered, queued, or whole in what the reader buffers and the wire carries. |
| `Chain.ClosedDeliversNothing` | src/mif/net/client.cpp:26-71 | Once the pool or a stage behind it is closed, no step delivers anything more. |
| `NetClient.Client.constructor` | src/mif/net/client.cpp:20-24 | A new client is open. |
| `NetClient.Client.Receive` | src/mif/net/client.cpp:26-37 | A closed client drops data, an open one throws on an empty buffer and handles the rest; every stage of a chain has this same gate. |
| `NetClient.Client.NotifyClose` | src/mif/net/client.cpp:39-45 | The client is closed afterwards; the hook runs only if it was closed before. |
| `NetClient.Client.RequestClose` | src/mif/net/client.cpp:47-58 | Succeeds, with one request to the control, exactly when open and the control is alive. |
| `NetClient.Client.Publish` | src/mif/net/client.cpp:60-71 | Succeeds, with one publication, exactly when open and the publisher is alive. |
| `NetClient.ClosedFrozen` | src/mif/net/client.cpp:26-71 | After closing, no sequence of calls changes anything but the number of hook runs. |
| `NetClient.CloseGates` | src/mif/net/client.cpp:26-71 | For every sequence of calls: nothing after the first `OnClose` is handled, published or asked for, and the hook runs once less often than `OnClose` is called. |
| `NetClient.OpenDoesAll` | src/mif/net/client.cpp:26-71 | Up to the first `OnClose` exactly the non-empty buffers are handled, and exactly the posts and close requests whose other side is alive are published and passed on, in order. |
| `Crc32.RunTime` | include/mif/common/crc32.h:87-97 | The table-driven loop computes the bit-by-bit CRC of every byte string. |
| `Crc32.EntryIsEightShifts` | include/mif/common/crc32.h:23-60 | The entry of the generated table for a byte is that byte shifted eight times. |
| `Crc32.TableStep` | include/mif/common/crc32.h:94-94 | One table look-up does the work of eight shifts, on every register value. |
| `Crc32.CompileTimeIsReference` | include/mif/common/crc32.h:67-77 | The compile-time recursion over signed characters computes the bit-by-bit CRC from every register value. |
| `Crc32.ServiceIdsAgree` | include/mif/service/ifactory.h:34-38 | An id written as a literal equals the id computed from the same string. |
| `Crc32.ShiftInjective` | include/mif/common/crc32.h:23-26 | One shift never maps two words to one, because of the polynomial's top bit. |
| `Crc32.FeedInjective` | include/mif/common/crc32.h:87-97 | Equal registers after the same message bits were equal before. |
| `Crc32.BurstsAreDetected` | include/mif/common/crc32.h:87-97 | Messages that differ only inside 32 consecutive bits have different CRCs, whatever surrounds them. |
| `Crc32.FourByteWindowDetected` | include/mif/common/crc32.h:87-97 | Strings of equal length that differ only inside four consecutive bytes have different CRC-32 values. |
| `Crc32.PolyExponents` | include/mif/common/crc32.h:23-26 | The polynomial constant has exactly the exponents of section 8 of RFC 1952: 26, 23, 22, 16, 12, 11, 10, 8, 7, 5, 4, 2, 1, 0 below 32. |
| `Crc32.ResidueIsConstant` | include/mif/common/crc32.h:87-97 | A message followed by the four bytes of its own CRC, lowest first, has the same CRC whatever the message is. |
| `Crc32.KnownValues` | include/mif/common/crc32.h:87-97 | The CRC of nothing is 0 and that of four bytes 0xff is 0xffffffff, which fixes the initial value and the final inversion. |
| `Pool.ServicePool.constructor` | src/mif/service/pool.cpp:34-38 | A new pool is empty and has the given limit. |
| `Pool.ServicePool.Make` | src/mif/service/pool.cpp:34-43 | There is a pool, new and empty, exactly when the limit is not 0 and there is a factory. |
| `Pool.ServicePool.GetService` | src/mif/service/pool.cpp:59-93 | The sweep that erases while it iterates leaves exactly: the healthy entries before the first usable one, that one marked busy, and the rest; then the limit and the factory decide. |
| `Pool.ServicePool.Release` | src/mif/service/pool.cpp:111-125 | The one entry of the service, if there is one, becomes idle; every other entry, the order and the size of the table stay as they were, and the caller learns which case it was. |
| `Pool.LimitReachedIff` | src/mif/service/pool.cpp:63-92 | "Limit reached" is reported exactly when the table has limit entries, all busy and none found unhealthy. |
| `Pool.SweepRemovesExactly` | src/mif/service/pool.cpp:63-81 | A service disappears exactly when it is unhealthy and was visited before the first idle healthy one. |
| `Pool.OutcomeExact` | src/mif/service/pool.cpp:63-92 | What `GetService` returns, as a table: the first idle healthy service; else, with fewer healthy entries than the limit, the one that the factory made, added to them busy; else the limit or the factory's failure. |
| `Pool.InvStep` | src/mif/service/pool.cpp:59-125 | Every get, release and health failure keeps the pool's invariant. |
| `Pool.PoolIsSafe` | src/mif/service/pool.cpp:59-125 | In every run no two live holders share a service, an entry is busy exactly when a live holder has it, and the table never exceeds the limit. |
| `Pool.ReleaseFreesOnlyItsOwn` | src/mif/service/pool.cpp:111-125 | A release changes exactly its own entry, if that is still there; entries of other live holders stay, busy. |
| `HttpOutput.OutputPack.constructor` | src/mif/net/http/detail/output_pack.h:44-47 | A new pack has no serializer and no data. |
| `HttpOutput.OutputPack.Assign` | src/mif/net/http/detail/output_pack.h:168-199 | The body and "more" flag for null, empty, short and long buffers; the pointer of an empty buffer is not reset. |
| `HttpOutput.OutputPack.GetNextPortion` | src/mif/net/http/detail/output_pack.h:65-90 | Throws, changing nothing, exactly when there is no serializer or no more data; else hands out the next portion. |
| `HttpOutput.NextTakes` | src/mif/net/http/detail/output_pack.h:81-87 | A portion is a non-empty prefix, of at most a chunk, of what remains; the pointer stays inside the buffer. |
| `HttpOutput.PortionsCover` | src/mif/net/http/detail/output_pack.h:65-90 | From any valid state the portions concatenate to the body and all that remains, and are as many as chunks are needed. |
| `HttpOutput.OutputIsComplete` | src/mif/net/http/detail/output_pack.h:168-199 | For every buffer of n bytes and positive chunk size c the portions concatenate to the buffer, none exceeds the chunk, and k of them are non-empty with (k - 1) c < n <= k c, which is ceil(n/c); the first holds everything if n < c and is empty otherwise. |
| `HttpOutput.ZeroChunkEndsIff` | src/mif/net/http/detail/output_pack.h:81-87 | With chunk size 0 the output ends, after any number of portions, exactly for the empty buffer. |
| `HttpRequest.Examine` | src/mif/net/http/detail/session.cpp:223-298 | The checks of path, method and handlers in their order, with what each answers or throws; at most one handler is called, the one found, and only after every check passed. |
| `HttpRequest.HandlerDecides` | src/mif/net/http/detail/session.cpp:225-307 | When a handler is found, the status and the data that it fills in are the answer, an exception of it derived from `std::exception` is caught and any other escapes; otherwise the request ends with 400, 405 or a caught exception. |
| `HttpRequest.ErrorDecides` | src/mif/net/http/detail/session.cpp:225-287 | Which error gets which status and text: 400 for a path that is empty, not rooted or holds two dots in a row; 405 for a method that is not allowed, for no handlers and for no matching handler; a bad encoding, an unknown method or a line break throws. None of these calls a handler. |
| `HttpRequest.HandlerIsLongest` | src/mif/net/http/detail/session.cpp:266-287 | The handler that is called is the one registered for the longest candidate of the path before the first '?' or '#'. |
| `HttpSession.Session.constructor` | src/mif/net/http/detail/session.cpp:102-128 | One read is outstanding; the queue's limit is at least 1. |
| `HttpSession.Session.RunFront` | src/mif/net/http/detail/session.cpp:54-69 | The front task throws exactly for the statuses that cannot be prepared, starting nothing; otherwise it starts once and writes its current body. |
| `HttpSession.Session.Enqueue` | src/mif/net/http/detail/session.cpp:52-75 | A response is queued at the end; it is run at once, and its exception let out, exactly when the queue was empty. |
| `HttpSession.Session.HandleRequest` | src/mif/net/http/detail/session.cpp:220-308 | The posting of the try block and, after an exception of it or of anything before it, that of the catch block. |
| `HttpSession.Session.OnRead` | src/mif/net/http/detail/session.cpp:144-173 | A read that ends leaves no operation outstanding, with or without shutting the socket; a request is handled. |
| `HttpSession.Session.OnWrite` | src/mif/net/http/detail/session.cpp:175-206 | A write goes on with the next portion, ends the connection, or pops the queue, starts the next task and, unless that throws, reads again if the queue was full. |
| `HttpSession.PostsOnceIff` | src/mif/net/http/detail/session.cpp:220-308 | A request queues exactly one response if and only if no posted task throws inside the try block and no exception escapes. |
| `HttpSession.ThrowingStatusUnanswered` | src/mif/net/http/detail/session.cpp:298-307 | The failing input: a handler that sets a status whose task throws leaves two responses queued, neither started, and no operation that could complete, so that the connection ends without a response. |
| `HttpSession.InvStep` | src/mif/net/http/detail/session.cpp:35-206 | Every completion, success or failure, a posted task that throws included, keeps the invariant; only a request can make the connection fail, and exactly when its first task throws or an exception escapes. |
| `HttpSession.RunInv` | src/mif/net/http/detail/session.cpp:35-206 | The invariant holds in every state of every run. |
| `HttpSession.SessionIsOrderly` | src/mif/net/http/detail/session.cpp:35-206 | In every run at most one operation is outstanding, tasks start once each in arrival order, and bodies are complete and never interleave (section 9.3.2 of RFC 9112). Unless a task threw, reads outstanding plus queue length is at most 1 and, until the connection ends (a failed or closing write leaves its task queued), one write is in progress exactly when the queue is not empty. If a task threw, nothing is outstanding. |
| `HttpSession.FailedIff` | src/mif/net/http/detail/session.cpp:220-326 | A connection has failed, with nothing outstanding, exactly when the first task of some request threw or an exception escaped its handling. |
| `HttpSession.OneResponsePerRequest` | src/mif/net/http/detail/session.cpp:220-336 | In every run the responses queued are as many as the requests read if and only if for every request no exception escaped and what the try block posted did not throw. |
| `HttpSession.SecondRequestNeedsLimitOne` | src/mif/net/http/detail/session.cpp:204-205 | The connection is read again after a response exactly when the pipeline limit is 0 or 1; with a larger one nothing is outstanding after the one response. |
| `HttpAnswers.HandlerAnswers` | src/mif/net/http/detail/session.cpp:225-307 | The answer to a request with a handler has the handler's status and the handler's bytes, or 500 and the error text if it throws; an exception of another kind gives no answer. |
| `HttpAnswers.AnswerStarts` | src/mif/net/http/detail/session.cpp:220-308 | An answer that can be prepared becomes the one queued task, with its status, bytes and end of connection, and its write is started. |
| `HttpAnswers.AnswerIsSent` | src/mif/net/http/detail/session.cpp:144-206 | In every run the answer of each request, unless its status cannot be prepared, is the one queued task until its write is finished, and then exactly its bytes are on the wire; the connection ends with it exactly when that request says so. |
| `HttpAnswers.ReadEnds` | src/mif/net/http/detail/session.cpp:144-173 | A read that ends without a request leaves no operation and posts no response; the socket is shut exactly when that read says so. |
| `HttpAnswers.OperationsGoOn` | src/mif/net/http/detail/session.cpp:144-206 | In every run a write in progress either needs the next portion or is the last one, never both or neither, and an outstanding read can bring any request. |
| `Routing.Route` | src/mif/net/http/detail/session.cpp:255-296 | The loop ends and calls no handler, or exactly the one that the search function names. |
| `Routing.CutStep` | src/mif/net/http/detail/session.cpp:276-286 | One round of the loop looks up the prefix before the last slash and goes on in it. |
| `Routing.SearchFindsLongest` | src/mif/net/http/detail/session.cpp:255-296 | A handler is found exactly when the path, a prefix of it that ends before a '/', or "/" is registered; for paths that start with '/' it is the longest of those. |
| `Servlet.ThreadsStep` | src/mif/net/http/servlet.cpp:56-131 | Every step of any thread keeps, for every thread, its response slot at the first buffer it published in this call and its exception slot at what this call threw. |
| `Servlet.InvStep` | src/mif/net/http/servlet.cpp:195-282 | Every step keeps the slots, and each session is registered under one id only. |
| `Servlet.RunInv` | src/mif/net/http/servlet.cpp:195-282 | The invariant holds in every state of every interleaving. |
| `Servlet.CallHistory` | src/mif/net/http/servlet.cpp:106-116 | What is recorded of a call is what the events since its start say: publications of this thread on this session, in order, and its exception. |
| `Servlet.AnswerIsOwn` | src/mif/net/http/servlet.cpp:75-131 | In every interleaving a request that reached the client is answered by that call of that thread: its exception, else the first buffer it published, else nothing. |
| `Servlet.UncalledFails` | src/mif/net/http/servlet.cpp:199-256 | A request that never reached the client ends with an error. |
| `Servlet.DropCauses` | src/mif/net/http/servlet.cpp:303-357 | A session leaves the table exactly by a sweep that finds it flagged or whose time is at least the timeout after its stamp, or by the removal at the end of a failed request with its id. |
| `Servlet.SameSession` | src/mif/net/http/servlet.cpp:215-235 | Two requests with one id and no removal between them use the same session, whoever wins the race to create it. |
| `Servlet.RemovedStaysRemoved` | src/mif/net/http/servlet.cpp:303-319 | A removed session is never given to a later request, under any id. |
| `Servlet.LoserIsDiscarded` | src/mif/net/http/servlet.cpp:224-235 | The session made by the loser of a race is never given to any request, its maker's included. |
| `ServletRuns.StampIsLastTouch` | src/mif/net/http/servlet.cpp:106-131 | In every interleaving the stamp of a session is the time of the last completed call on it, or of its making, and it is flagged exactly when its client asked for that or a call on it failed. |
| `ServletRuns.SweepKeepsIff` | src/mif/net/http/servlet.cpp:336-357 | A sweep keeps a session exactly when nothing has flagged it and less than the timeout has passed since the last completed call on it. |
| `ServletRuns.SessionSurvives` | src/mif/net/http/servlet.cpp:303-357 | A session that nothing flags and no failed request removes survives every sweep that comes less than the timeout after the last completed call. |
| `ServletRuns.HeaderIff` | src/mif/net/http/servlet.cpp:247-256 | A reply carries the session header exactly when the session was not flagged at the moment the servlet looked. |
| `ServletRuns.EarlyFailures` | src/mif/net/http/servlet.cpp:195-245 | Why a request ends without a call of its client: no session in the header, an empty one, no data, or a failing factory, each with its error; a request without data never reaches the client. |
| `ServletRuns.FailureRemoves` | src/mif/net/http/servlet.cpp:195-282 | Every request that fails with a session id has taken that id out of the table before it is answered; one that gets a reply, or fails without an id, has removed nothing. |
| `ServletRuns.MadeOnlyIfMissing` | src/mif/net/http/servlet.cpp:215-235 | A session is made only for a request whose id had none when the request began. |
| `ServletRuns.NoThreadStuck` | src/mif/net/http/servlet.cpp:195-282 | In every interleaving every thread has a next step of its own, whatever the other threads do. |
| `ServletObjects.LiveSession.constructor` | src/mif/net/http/servlet.cpp:140-145 | A new session is open, stamped, with empty slots. |
| `ServletObjects.LiveSession.Publish` | src/mif/net/http/servlet.cpp:149-154 | The first buffer of a thread is kept, later ones are dropped, other threads' slots are untouched. |
| `ServletObjects.LiveSession.CloseMe` | src/mif/net/http/servlet.cpp:158-161 | The session is flagged for closing. |
| `ServletObjects.LiveSession.CleanResponse` | src/mif/net/http/servlet.cpp:81-87 | No response of this thread is left; the responses of all other threads, the exceptions, the flag and the time stamp are as before. |
| `ServletObjects.LiveSession.ForgetException` | src/mif/net/http/servlet.cpp:99-104 | No exception of this thread is left; everything else is as before. |
| `ServletObjects.LiveSession.GetException` | src/mif/net/http/servlet.cpp:56-68 | The pending exception of this thread is returned once; a null entry stays behind. |
| `ServletObjects.LiveSession.OnData` | src/mif/net/http/servlet.cpp:75-131 | The result is the first buffer published, nothing after a caught exception, and an escaping exception otherwise; slot, flag and time stamp afterwards; other threads' slots unchanged, whatever was left in this thread's slots before. |
| `ServletObjects.SessionTable.constructor` | src/mif/net/http/servlet.cpp:168-179 | A new table is empty. |
| `ServletObjects.SessionTable.FindOrInsert` | src/mif/net/http/servlet.cpp:229-235 | The session returned is the one registered: the one already there, else the one made. |
| `ServletObjects.SessionTable.RemoveSession` | src/mif/net/http/servlet.cpp:303-319 | Only the entry of a non-empty id goes. |
| `ServletObjects.SessionTable.Sweep` | src/mif/net/http/servlet.cpp:342-355 | One session of the walk is erased and kept alive exactly when it is flagged or now is at least the timeout after its stamp. |
| `ServletObjects.SessionTable.OnCleaner` | src/mif/net/http/servlet.cpp:336-357 | The erase loop keeps exactly the sessions not flagged whose stamp is less than the timeout ago; each of the others, and nothing that was not in the table, is kept alive until the sweep ends. |
| `Interfaces.UniqueHas` | include/mif/common/detail/tuple_utility.h:58-83 | `UniqueTuple` keeps exactly the members it is given. |
| `Interfaces.UniqueIsSet` | include/mif/common/detail/tuple_utility.h:58-83 | `UniqueTuple` leaves no duplicates. |
| `Interfaces.ListedIffBase` | include/mif/service/inherited_list.h:25-61 | An interface is listed exactly when it is a transitive base; `IService` exactly when it stands beside another base. |
| `Interfaces.InheritedListIsExact` | include/mif/service/inherited_list.h:25-61 | The list holds every transitive base other than `IService` exactly once. |
| `Interfaces.QueryFinds` | include/mif/service/iservice.h:92-118 | The depth-first search of a tuple finds exactly what is in it or above one of its members. |
| `Interfaces.QueryMatchesList` | include/mif/service/iservice.h:92-118 | The query succeeds exactly for transitive bases, which other than `IService` are exactly those in the list. |
| `UrlCodec.EncodeUrl` | src/mif/net/http/detail/utility.cpp:244-267 | The loop encodes byte by byte. |
| `UrlCodec.DecodeUrl` | src/mif/net/http/detail/utility.cpp:206-242 | The loop decodes as the recursive decoder does, both exceptions included. |
| `UrlCodec.RoundTrip` | src/mif/net/http/detail/utility.cpp:206-267 | Decoding undoes encoding for every byte string, '+', space and bytes above 127 included. |
| `UrlCodec.EncodingIsWellFormed` | src/mif/net/http/detail/utility.cpp:244-267 | The encoding holds only unreserved characters and two-digit percent triplets (sections 2.1 and 2.3 of RFC 3986). |
| `UrlCodec.TripletAnyCase` | src/mif/net/http/detail/utility.cpp:206-242 | A percent triplet gives the byte of its two digits, upper or lower case, and '+' a space, before any rest. |
| `UrlCodec.PlainAndCut` | src/mif/net/http/detail/utility.cpp:206-242 | Any character but '%' and '+' gives itself, before any rest; a '%' with fewer than two characters after it is an error. |
| `UrlCodec.LooseTriplets` | src/mif/net/http/detail/utility.cpp:206-242 | What else the extraction from a stream takes as a triplet: one digit and a stray character, except "0x"; white space or a sign before a digit. Two characters that are no digits, or any other before the digit, are an error. |
| `JsonCodec.EnumRoundTrip` | include/mif/reflection/reflection.h:89-124 | The name found for an enum value gives that value back, with or without aliases. |
| `JsonCodec.Default` | include/mif/serialization/json.h:533-558 | The object that an optional or an element is decoded into is a value of its type. |
| `JsonParts.IntKept` | include/mif/serialization/json.h:394-482 | Every integer of 8 to 64 bits, signed or not, survives printing, parsing, the change of number kind and the narrowing conversions. |
| `JsonParts.NullIff` | include/mif/serialization/json.h:209-224 | A value prints as null exactly when it is an empty optional or an optional that holds one. |
| `JsonParts.StructMembers` | include/mif/serialization/json.h:297-337 | Under each name an encoded struct has the value of the last base or field with that name. |
| `JsonParts.StructItems` | include/mif/serialization/json.h:695-741 | Each base and field is decoded from the value of its last namesake, as printing and parsing left it. |
| `JsonParts.SlotsBack` | include/mif/serialization/json.h:695-741 | Bases or fields decode to given values exactly when each of them does. |
| `JsonParts.SetBack` | include/mif/serialization/json.h:627-658 | The items of a sorted container, inserted one by one, give the container back. |
| `JsonParts.StructThrough` | include/mif/serialization/json.h:514-530 | A struct comes back as given bases and fields exactly when each of them is decoded so, in place, from the encoding of its last namesake. |
| `JsonParts.PairThrough` | include/mif/serialization/json.h:561-578 | A pair comes back as given parts exactly when each part does. |
| `JsonParts.TupleThrough` | include/mif/serialization/json.h:580-601 | A tuple comes back as given parts exactly when each part does. |
| `JsonParts.ListThrough` | include/mif/serialization/json.h:603-658 | An array or sequence comes back as given elements exactly when each element, decoded into a new object, does. |
| `JsonParts.SetThrough` | include/mif/serialization/json.h:627-658 | An ordered container comes back as some of what its elements come back as, and as itself if no element changes. |
| `JsonText.MemberIsOwn` | include/mif/serialization/json.h:297-337 | Each member of an encoded struct is sent by a base or field that no later namesake hides. |
| `JsonText.ReadableIff` | include/mif/serialization/json.h:884-900 | The parser accepts the printed value exactly when every string that is sent is UTF-8 and nothing that is sent is nested deeper than the limit. |
| `JsonBurden.Settles` | include/mif/serialization/json.h:178-741 | One trip through text leaves a value of any type, structs with shared names included, as it is or makes it strictly lighter, so no sequence of trips leads back to a value that was changed. |
| `JsonBurden.SetUnchanged` | include/mif/serialization/json.h:627-658 | An ordered container that comes back equal had none of its elements changed: changed elements never add up to the original container. |
| `JsonRoundTrip.ContainerReturns` | include/mif/serialization/json.h:603-658 | Any container comes back unchanged exactly when each of its elements does. |
| `JsonRoundTrip.EncodesIffNamed` | include/mif/serialization/json.h:178-337 | Encoding throws exactly when some enum inside the value has no name. |
| `JsonRoundTrip.RoundTripExact` | include/mif/serialization/json.h:178-741 | For every type, value and target object, ordered containers and shared names included: the value comes back unchanged if and only if every enum in it has a name, its text is UTF-8 and nested at most 32 deep, no string in it holds a NUL, every null stands where the target already has that null, and every hidden base or field already equals what its last namesake decodes to. |
| `JsonRoundTrip.RoundTrip` | include/mif/serialization/json.h:178-741 | Every NUL-free, readable value with named enums, over types with distinct names, single-level optionals and empty initialisers, comes back unchanged. |
| `JsonRoundTrip.NullKeepsTarget` | include/mif/serialization/json.h:532-558 | In any struct that comes back, a field sent as an empty optional is left as the target had it. |
| `JsonRoundTrip.InitialiserSticks` | include/mif/serialization/json.h:546-558 | In any struct, a field whose initialiser fills an optional cannot be sent empty: what comes back has the initial value there and is otherwise what the other bases and fields return, exactly when the text is readable and enums are named. |
| `JsonRoundTrip.BadTextThrows` | include/mif/serialization/json.h:884-892 | A string that is not UTF-8 throws on the way back. |
| `JsonRoundTrip.NarrowNeedsText` | include/mif/serialization/json.h:447-482 | The converters of the 8- and 16-bit unsigned types accept every number of theirs in the kind that parsing produces, and none in the kind that encoding produces. |
| `JsonClash.NameClash` | include/mif/serialization/json.h:297-337 | If a base or field cannot read any kind of JSON that its last namesake's type is encoded as, no value of the struct comes back, to any target. |
| `JsonClash.HiddenComesFromNamesake` | include/mif/serialization/json.h:695-741 | A hidden base or field comes back as what its last namesake's value decodes to. |
| `JsonClash.SameTypeClash` | include/mif/serialization/json.h:695-741 | Of namesakes of one type, the hidden one comes back unchanged exactly when it equals the last, provided that one survives. |
| `JsonClash.ScalarClash` | include/mif/serialization/json.h:342-482 | Of two scalar namesakes (flags, integers of any width, strings, enums) the hidden one comes back exactly when it is what its type reads from the other: numbers modulo its size and within the range it accepts, digits, "0" and "1", C strings, enum names. |
| `JsonForeign.StructReadsIff` | include/mif/serialization/json.h:514-530 | Any JSON at all decodes into a struct exactly when it is an object that has every base, and each base and field decodes in place from its member or, for a field without one, from null; other members do not matter, and anything but an object throws. |
| `JsonForeign.AbsentFieldIsNull` | include/mif/serialization/json.h:714-741 | A struct decodes from an object without a field, errors included, exactly as it does when that field is there as null. |
| `JsonForeign.NullReadsIff` | include/mif/serialization/json.h:532-558 | Null decodes into optionals only, and leaves them as the target has them. |
| `JsonForeign.MissingMember` | include/mif/serialization/json.h:695-741 | So a missing optional field keeps what the target has, any other missing field fails, and so does a missing base. |
| `JsonForeign.TupleReadsIff` | include/mif/serialization/json.h:580-601 | A tuple decodes exactly from an array that is long enough, item by item and in place. |
| `JsonForeign.ItemsReadIff` | include/mif/serialization/json.h:603-658 | A fixed array takes the first items of an array that is long enough, a sequence all of them, each into a new element; a fixed array longer than the array is undefined behaviour. |
| `JsonForeign.PairReadsIff` | include/mif/serialization/json.h:561-578 | A pair decodes exactly from an object with both members, and is undefined behaviour without one. |
| `JsonForeign.SetReads` | include/mif/serialization/json.h:627-658 | For every comparison that is a strict weak order, an ordered container decodes from what a sequence decodes from, with the same errors, into the elements in order, of equivalent ones the first in the text. |
| `JsonForeign.InsertOrders` | include/mif/serialization/json.h:627-658 | Insertion keeps the order, and adds the element unless an equivalent one is there, which then stays. |
| `JsonForeign.NestingLimit` | include/mif/serialization/json.h:884-892 | Arrays nested in one another are read up to 32 levels. |
| `JsonForeign.DecimalIs` | include/mif/serialization/json.h:345-392 | The text that a number reads as: its decimal digits without leading zeros, behind '-' if it is negative. |
| `JsonForeign.EnumNameIsLast` | include/mif/reflection/reflection.h:89-124 | An enum value is named by the last alias that has it, and has no name exactly when no item has it. |
| `JsonForeign.WrapIs` | include/mif/serialization/json.h:394-482 | Narrowing gives the number of the target type that is equal modulo its size. |
| `JsonRoundTrip.ContainerToJson` | include/mif/serialization/json.h:227-242 | The loop gives one item per element, in order, each the element's encoding, and throws exactly when an element does. |
| `JsonRoundTrip.JsonToContainer` | include/mif/serialization/json.h:627-658 | The loop that clears and inserts gives what the recursive decoder gives, for sequences and ordered containers, errors included. |

## Left out

- Sockets, asio executors, timers, beast parsing and serializing, threads: they appear as events that may come in any order.
- Memory effects weaker than one step per locked section, and the unlocked read of the response table in `ProcessData`, which is taken as one step with the stub look-up.
- gzip: an abstract lossless pair with non-empty output.
- Chain.Feed: clients are values, not heap objects that refer to each other, so aliasing between holders is not captured; the replies of the RPC client enter the outgoing part as separate sends.
- Uuids and instance ids are abstract values drawn fresh; a repeated uuid is not modelled.
- PsClient.PSClient.ProcessData: it ends where the stub call begins; the call and the posting of its response are steps of `RpcSystem`, where a response that cannot be posted is a lost message.
- RpcSystem.StepAt: a call of `CloneReference` or `QueryInterface` on a null stub, which dereferences null, ends the run; the query of a proxy without an object manager, which does the same, is not a step.
- Serialization of parameters and results by boost archives, and XML serialization: their formats are not part of this model.
- Reclamation of stubs created for interface parameters: `ObjectCleaner` records nothing, so there is none to prove.
- Crc32str on a C string: it stops at the first NUL, as `strlen` does; only the length-carrying forms are modelled.
- A pool whose factory returns null.
- Headers, reasons, time stamps and keep-alive rules of HTTP responses: a response is its status, its body, and whether the connection ends after it. Which handler is called is modelled, what it does is given.
- The status code of a failed servlet request, the destruction of sessions, logging and the re-arming of the cleaner's timer are not modelled; the client's calls into the session are events.
- `Serialize` with a root name, which adds one level of nesting.
- JSON floating-point numbers, char containers, unordered containers and multisets, raw pointers, and the pretty writer.
- Optionals and smart pointers are one type former: both treat null alike.
- Locator, factory, configuration, transactions, database access, command line, status tables: simple or finite, or wrappers over other libraries.
