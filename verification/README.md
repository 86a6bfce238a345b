# Verification of scpi-driver-core

A Dafny model of the parts of scpi-driver-core where its promises are hardest to keep, with proofs of those promises.
`dafny verify dfyconfig.toml` checks all of it.

The library talks SCPI to laboratory instruments. A client prints commands and binary blocks, sends them over a byte
transport and reads replies; a session opens, recovers and closes the connection; a scripted instrument parses the same
messages for simulation. The model follows that structure:

- **Messages** (`ByteStrings`, `BinaryBlock`, `TextCodec`, `ProgramMessage`, `HeaderPaths`, `RoundTrip`, `Opacity`): the
  client as printer and the scripted instrument as parser of program messages, as IEEE 488.2 has them (sections 7.7.4,
  7.7.5, 7.7.6 and 8.7.9). The scanning loops are methods proved against functions; the theorems about those functions
  are the round trip from printed items to served commands and the opacity of block payloads.
- **Upload history** (`UploadHistory`): the bounded record of uploads is always the longest recent run that fits.
- **Transports** (`Transports`, `MockTransport`, `TcpTransport`, `VisaTransport`, `BlockReader`, `Deadlines`): the
  buffered readers refine one specification on a flat byte stream, whatever the backend's fragmentation; lifecycle,
  conservation of bytes, and one time budget for a composite operation. A backend is a stream cut into arbitrary pieces
  by calls that may also time out, disconnect or fail; the ghost field `failures` counts those.
- **Sessions** (`Sessions`): generation, cached identity and recovery, and exactly when a closed session stays closed.
- **Concurrency** (`Guards`, `Scripts`, `LockOrder`, `Serial`, `WireLog`, `Client`): step relations over any number of
  threads. For the confirmation guard the class is proved to follow them. For client and session, `Scripts` writes down
  each operation's locks, ids, wire traffic and exception handlers; from that one description follow that no run gets
  stuck (`LockOrder`) and that the wire log is serial (`Serial`). `Client` has the error queue and its automatic checks.
- **Time** (`Retry`, `Polling`): what the retry and polling loops do, over every environment.

Objects that the program updates in place are classes with a `Valid()` invariant, loops are loops, exceptions are a
result value that keeps the exception class. Clocks and delays are real numbers, and a clock moves only inside modelled
calls.

## Where the code and its documentation differ

- `docs/README.md:60` says that a deliberately closed session is never silently reopened, and
  `session/session.py:147-154` says it of retries. On TCP (and VISA) `transact` checks that the transport is open inside
  its own fault guard (`transport/tcp.py:155-168`), so a query on a CLOSED transport leaves it FAULTED, and the recovery
  that a retry runs then opens it. `Sessions.StaysClosedIff` and `Sessions.ReopensIff` give the exact conditions,
  `Sessions.RetriedQueryReopensTcp` the run.
- `scpi/errors.py:72` says that draining preserves every popped entry on failure. It does not when one of its queries
  fails at the transport: that error leaves the drain as it is, without the entries popped before it
  (`Clients.BrokenDrainLosesOne`). And with checks after queries on, a drain by hand loses an entry as soon as the queue
  holds two (`Clients.CheckedDrainLosesOne`). `Clients.DrainConservesIff` says exactly when no entry is lost, and
  `Clients.ScpiClient.Drain` promises it.
- A VISA read up to a terminator fetches whole messages and refuses a line whose message runs over `maximum_size`, where
  a byte stream would return the line (`VisaTransports.MessageLineExactly`).
- A VISA read of a backend-defined message on a resource without message boundaries is refused inside the fault guard:
  it faults the transport and leaves as a transport error, where TCP raises the unsupported operation and stays OPEN.
- A part that is a bare colon makes the header-path fold raise an index error (`HeaderPaths.InheritFailsIff`).
- The path of a header is carried across line breaks inside one write, and common commands and single-node headers
  reset it; the model follows the code in this.

## Model

| member | source | states |
|---|---|---|
| `BinaryBlock.EncodeIsFrame` | src/scpi_driver_core/scpi/binary_block.py:30-36 | Encoding fails exactly for payloads of 10^9 bytes or more (ten length digits, IEEE 488.2 section 8.7.9) and otherwise prints a well-formed frame around the payload |
| `BinaryBlock.DecodeExactly` | src/scpi_driver_core/scpi/binary_block.py:39-81 | The decoder returns a payload if and only if the data start with a well-formed frame around it that fits the size bound, with nothing behind it unless trailing bytes are allowed |
| `BinaryBlock.EncodeDecode` | src/scpi_driver_core/scpi/binary_block.py:30-81 | Round trip: whatever follows an encoded block, decoding gives the payload back, exactly when it fits the bound |
| `BinaryBlock.TwoDigitsPrinted` | src/scpi_driver_core/scpi/binary_block.py:30-36 | What a block looks like, byte by byte, for the payloads whose length has two digits |
| `HeaderPaths.InheritHeaderPaths` | src/scpi_driver_core/simulation/scripted.py:475-493 | The loop over `parent` computes the path fold of the parts |
| `HeaderPaths.InheritPointwise` | src/scpi_driver_core/simulation/scripted.py:475-493 | A resolved command depends only on its own part and on the path left by the one resolved command before it |
| `HeaderPaths.InheritFailsIff` | src/scpi_driver_core/simulation/scripted.py:487 | On non-blank parts the fold raises (an index into an empty split) if and only if some part is a bare colon |
| `HeaderPaths.InheritAbsolute` | src/scpi_driver_core/simulation/scripted.py:475-493 | Resolved commands written in absolute form resolve to themselves, from every starting path |
| `HeaderPaths.ParentOfPath` | src/scpi_driver_core/simulation/scripted.py:487-492 | A command below a path leaves exactly that path to its successor, whatever its arguments and with or without a question mark |
| `HeaderPaths.ParentOfRoot` | src/scpi_driver_core/simulation/scripted.py:488-491 | Common commands and single-node headers leave the root |
| `HeaderPaths.RelativeContinues` | src/scpi_driver_core/simulation/scripted.py:484-485 | Behind a command below a path, a part with neither colon nor star in front is served below that same path |
| `HeaderPaths.RelativeAtRoot` | src/scpi_driver_core/simulation/scripted.py:484-491 | Behind a single-node header or a common command such a part is served as it stands |
| `HeaderPaths.AbsoluteAnywhere` | src/scpi_driver_core/simulation/scripted.py:480-485 | Behind any commands, a part with a star in front is served as it stands and one with a colon in front as what follows the colon |
| `ProgramMessage.SplitSemicolons` | src/scpi_driver_core/simulation/scripted.py:455-472 | The character loop with its quote flag returns the non-empty stripped pieces between semicolons outside quotes |
| `ProgramMessage.SplitProgramMessage` | src/scpi_driver_core/simulation/scripted.py:440-452 | Splitting a text message is line splitting, semicolon splitting and the path fold over all lines together |
| `ProgramMessage.ReadBlock` | src/scpi_driver_core/simulation/scripted.py:353-398 | The block branch: which payload range a hash declares, where scanning goes on, and every framing error |
| `ProgramMessage.ScanBlocks` | src/scpi_driver_core/simulation/scripted.py:331-404 | The scanning loop finds the layout given by the scan function, or raises its error; it strictly advances |
| `ProgramMessage.SplitOutbound` | src/scpi_driver_core/simulation/scripted.py:322-410 | One write becomes the served commands: found parts through the path fold, or the text splitter when no block was found |
| `ProgramMessage.ScanInside` | src/scpi_driver_core/simulation/scripted.py:331-404 | On every byte string all found ranges lie inside it |
| `ProgramMessage.NoHashNoPayload` | src/scpi_driver_core/simulation/scripted.py:328-340 | Without a hash the scanner finds no payload and raises no framing error |
| `ProgramMessage.BlockMarkExactly` | src/scpi_driver_core/simulation/scripted.py:353-360 | A hash introduces a block exactly behind a blank, a tab or a comma, not at the start of a segment, and not before one of the six radix letters |
| `ProgramMessage.ScannerIsDecoder` | src/scpi_driver_core/simulation/scripted.py:361-383 | The scanner accepts a block exactly where the client's decoder with the largest size does, takes the same payload and refuses with the same error |
| `RoundTrip.FrameIsRead` | src/scpi_driver_core/simulation/scripted.py:361-382 | The scanner reads from an encoded block exactly the payload that was encoded |
| `RoundTrip.ScanRender` | src/scpi_driver_core/simulation/scripted.py:331-404 | Scanning any rendered message finds exactly its items, at their places |
| `RoundTrip.SplitRender` | src/scpi_driver_core/simulation/scripted.py:440-472 | The text splitter finds exactly the texts of a rendered message, whichever separators stand between them |
| `RoundTrip.PrintedIsServed` | src/scpi_driver_core/simulation/scripted.py:322-410 | Main round trip: for every list of clean text commands and header-plus-payload blocks, joined by semicolons or line breaks in any mixture, the instrument serves exactly that list, headers through the path fold, payloads byte for byte |
| `RoundTrip.PathIsServed` | src/scpi_driver_core/simulation/scripted.py:440-493 | Two commands on the wire with a semicolon or a line feed between them are served with the path of the first in front of the second |
| `RoundTrip.NumericIsText` | src/scpi_driver_core/simulation/scripted.py:353-360 | Hexadecimal, octal and binary numerics, in either case, are text in a command and start no block |
| `RoundTrip.BlockIsIntroduced` | src/scpi_driver_core/simulation/scripted.py:353-360 | Any clean header with a blank, a tab or a comma behind it introduces a block of any payload up to the bound |
| `TextCodec.Codec.EncodeCommandExactly` | src/scpi_driver_core/scpi/codec.py:54-86 | The encodings of a command are exactly the ASCII lines within the size bound whose only line break is the one terminator at the end |
| `TextCodec.Codec.EncodeBlockCommandExactly` | src/scpi_driver_core/scpi/codec.py:88-103 | A block command is encoded exactly when its prefix is one ASCII line within the bound, as prefix, block and terminator |
| `TextCodec.Codec.DecodeResponseExactly` | src/scpi_driver_core/scpi/codec.py:105-121 | A response decodes to a text if and only if it is that ASCII text with one terminator, or with none if it does not end in one, within the size bound; too long and undecodable responses are told apart |
| `TextCodec.DoubledClean` | src/scpi_driver_core/scpi/parsers.py:213-217 | A value with its quotes doubled never leaves the quoted state until the closing quote |
| `TextCodec.QuoteRoundTrip` | src/scpi_driver_core/scpi/parsers.py:213-217 | Reading a quoted string back, outer quotes off and each pair of quotes inside as one, gives the value; quoting refuses exactly the values with line breaks |
| `TextCodec.QuotedArgument` | src/scpi_driver_core/scpi/parsers.py:213-217 | A quoted value is one harmless argument: separators, hashes and quotes inside it are never syntax |
| `TextCodec.CommandIsServed` | src/scpi_driver_core/scpi/codec.py:54-86 | A clean command encoded by the client is served once, with a leading colon removed |
| `TextCodec.UploadIsServed` | src/scpi_driver_core/scpi/codec.py:88-103 | An upload encoded by the client is served once: its header, and the payload byte for byte |
| `Opacity.ScanOrdered` | src/scpi_driver_core/simulation/scripted.py:331-404 | Found parts stand in the order of the bytes and do not overlap |
| `Opacity.ScanFramed` | src/scpi_driver_core/simulation/scripted.py:361-382 | At every block the instrument's scanner and the client's block decoder read the same payload |
| `Opacity.ScanOpaque` | src/scpi_driver_core/simulation/scripted.py:331-404 | Two inputs that differ only inside the payloads of the first have the same layout and the same error |
| `Opacity.PayloadsAreOpaque` | src/scpi_driver_core/simulation/scripted.py:322-410 | Overwriting declared payloads changes the served payloads and nothing else: no byte of a payload acts as syntax |
| `UploadHistory.LongestIsOptimal` | src/scpi_driver_core/simulation/scripted.py:412-424 | The retained suffix fits both bounds, and no fitting suffix of the uploads is longer |
| `UploadHistory.LongestForgets` | src/scpi_driver_core/simulation/scripted.py:412-424 | Appending needs only the retained suffix, so evicting from the front never discards too much |
| `UploadHistory.RetainableExactly` | src/scpi_driver_core/simulation/scripted.py:412-424 | An upload is retainable exactly when the limit is positive and the upload alone fits it |
| `UploadHistory.LastIsKept` | src/scpi_driver_core/simulation/scripted.py:412-424 | A retainable upload is the last entry afterwards, whatever it evicts; any other leaves the history as it was |
| `UploadHistory.History.Record` | src/scpi_driver_core/simulation/scripted.py:412-424 | The history is always the longest suffix of the retainable uploads with at most 256 entries and total bytes within the limit, with its exact byte count; an oversized upload changes nothing |
| `UploadHistory.History.Clear` | src/scpi_driver_core/simulation/scripted.py:201-205 | Clearing forgets all uploads |
| `Transports.FlatReadIsStable` | src/scpi_driver_core/transport/tcp.py:201-247 | Bytes that arrive later never change the outcome of a terminated or exact read that is already decided |
| `Transports.ResumedSearch` | src/scpi_driver_core/transport/tcp.py:209-221 | A search resumed one less than the terminator length before the old end finds the first occurrence, however the bytes were cut |
| `Transports.LineExactly` | src/scpi_driver_core/transport/tcp.py:207-221 | A terminated read is decided by the first terminator in the stream: the line up to it when that ends within the bound, too large when not, missing while there is none below the bound |
| `Transports.CountedExactly` | src/scpi_driver_core/transport/mock.py:285-312 | The up-to and available modes take all there is up to their bound, an exact read its length or nothing |
| `Transports.Lifecycle` | src/scpi_driver_core/transport/state.py:52-101 | Where open, close, invalidate and exchanges lead from every state |
| `MockTransports.MockTransport.Open` | src/scpi_driver_core/transport/mock.py:128-143 | State, transition log, counters, operation log and the consumed injection of an open from every state; the accounting of held resources is kept |
| `MockTransports.MockTransport.Close` | src/scpi_driver_core/transport/mock.py:145-150 | A live transport goes through CLOSING to CLOSED, releases its resource and drops what was queued; otherwise nothing changes |
| `MockTransports.MockTransport.Fault` | src/scpi_driver_core/transport/state.py:79-85 | Faulting releases the resource and empties the queue |
| `MockTransports.MockTransport.SetState` | src/scpi_driver_core/transport/mock.py:217-219 | Every state change is appended to the transition log and is an edge of the state graph |
| `MockTransports.MockTransport.Invalidate` | src/scpi_driver_core/transport/state.py:73-77 | Only an open transport is faulted |
| `MockTransports.MockTransport.SimulateDisconnect` | src/scpi_driver_core/transport/mock.py:122-126 | From any state: released, emptied and FAULTED |
| `MockTransports.MockTransport.Feed` | src/scpi_driver_core/transport/mock.py:106-108 | Fed bytes are queued behind the earlier ones |
| `MockTransports.MockTransport.Write` | src/scpi_driver_core/transport/mock.py:152-167 | A write on a closed transport, an injected failure with or without fault, or the recorded write and the pieces it was sent in |
| `MockTransports.ChunksExactly` | src/scpi_driver_core/transport/mock.py:163-165 | The pieces of a chunked write hold exactly the data in order; none is empty and only the last may be short |
| `MockTransports.MockTransport.Consume` | src/scpi_driver_core/transport/mock.py:273-283 | Chunk by chunk, exactly the first bytes of the flat stream are taken and the rest stays |
| `MockTransports.MockTransport.ReadBuffered` | src/scpi_driver_core/transport/mock.py:285-329 | Every mode returns what the flat stream of the queued chunks decides and takes exactly that; fed bytes are always the taken ones followed by the queued ones |
| `MockTransports.MockTransport.Read` | src/scpi_driver_core/transport/mock.py:169-182 | Open check, injection, buffered read and operation log, with the resulting state and queue |
| `MockTransports.MockTransport.Transact` | src/scpi_driver_core/transport/mock.py:184-208 | Write then read under one deadline: which error wins, when lateness does, what is logged, and the exact state afterwards; a refused timeout or a closed transport changes nothing |
| `TcpTransports.TcpTransport.Open` | src/scpi_driver_core/transport/tcp.py:83-108 | Connecting starts with an empty buffer; a failed connect is FAULTED |
| `TcpTransports.TcpTransport.Close` | src/scpi_driver_core/transport/state.py:61-71 | From a live state the transport ends CLOSED even when releasing the socket raises |
| `TcpTransports.TcpTransport.Invalidate` | src/scpi_driver_core/transport/state.py:73-77 | Only an open transport is faulted, and it is faulted even when releasing raises |
| `TcpTransports.TcpTransport.Receive` | src/scpi_driver_core/transport/tcp.py:241-247 | A chunk is appended to the buffer by a call that was handed what remained of the deadline; the flat stream does not change |
| `TcpTransports.TcpTransport.ReceiveAvailable` | src/scpi_driver_core/transport/tcp.py:249-266 | Waiting bytes are appended up to the bound; the flat stream does not change |
| `TcpTransports.TcpTransport.FillTo` | src/scpi_driver_core/transport/tcp.py:235-239 | The buffer is filled to the wanted length and no further, by the deadline |
| `TcpTransports.TcpTransport.Take` | src/scpi_driver_core/transport/tcp.py:268-271 | Taking removes exactly a prefix of buffer and flat stream |
| `TcpTransports.TcpTransport.ReadLine` | src/scpi_driver_core/transport/tcp.py:207-221 | For every fragmentation: unless the socket fails, the terminated read returns the flat stream's shortest line exactly when it ends within the bound, leaves exactly the rest, ends by the deadline, and the largest buffer so far grows to no more than the larger of the old buffer and the bound |
| `TcpTransports.TcpTransport.Read` | src/scpi_driver_core/transport/tcp.py:135-153 | Every mode takes a prefix of the flat stream, and unless the socket fails the outcome is the one the stream decides; up-to and available reads leave bytes buffered only when they reached their bound; received bytes are always the consumed ones followed by the buffer; every call is handed what remains of one deadline and the read ends by it; any failure faults, a refused timeout or mode does not |
| `TcpTransports.TcpTransport.Write` | src/scpi_driver_core/transport/tcp.py:110-133 | Partial sends are completed in order, each handed what remains of one deadline; it succeeds exactly when no send failed; otherwise a prefix was sent and the transport is faulted |
| `TcpTransports.TcpTransport.Transact` | src/scpi_driver_core/transport/tcp.py:155-168 | Both transfers share one deadline; any failure ends FAULTED from every state, a closed transport and a refused timeout included, because all of it is inside the fault guard |
| `VisaTransports.MessageLineExactly` | src/scpi_driver_core/transport/visa.py:355-374 | The terminated read over whole messages succeeds if and only if the flat stream has the line within the bound and the line is buffered already or the messages completing it fit the bound as a whole; its result is then the flat stream's |
| `VisaTransports.LineInLongMessageIsRefused` | src/scpi_driver_core/transport/visa.py:355-374 | A concrete line that a byte stream would return and this read refuses |
| `VisaTransports.VisaTransport.ReadMessageBounded` | src/scpi_driver_core/transport/visa.py:404-434 | One whole backend message, assembled from pieces, or refusal when it exceeds the bound |
| `VisaTransports.VisaTransport.ReadLine` | src/scpi_driver_core/transport/visa.py:355-374 | The loop with its resumed search computes the message-wise line read and takes exactly the line |
| `VisaTransports.VisaTransport.FillTo` | src/scpi_driver_core/transport/visa.py:335-353 | Counted reads gather exactly the wanted bytes and no more |
| `VisaTransports.VisaTransport.Read` | src/scpi_driver_core/transport/visa.py:179-199 | Every mode takes a prefix of the stream and nothing else, up-to and available reads all that is buffered up to their bound; it ends by the deadline, and returns normally only strictly before it; any failure faults |
| `VisaTransports.VisaTransport.Write` | src/scpi_driver_core/transport/visa.py:150-177 | All bytes in order under one deadline; no progress, lateness or an error faults after a prefix |
| `VisaTransports.VisaTransport.Transact` | src/scpi_driver_core/transport/visa.py:201-214 | Write and read share one deadline; any failure ends FAULTED from every state |
| `BlockReader.BlocksRoundTrip` | src/scpi_driver_core/scpi/binary_block.py:30-81 | Decoding one block after another from concatenated encoded blocks gives the same payloads in order and what follows them |
| `BlockReader.ReadBlocks` | src/scpi_driver_core/scpi/binary_block.py:84-131 | Successive streaming reads from an open transport return what the pure decoder makes of the waiting stream, and use up exactly that, unless one of them runs out of its budget |
| `BlockReader.ReadBack` | src/scpi_driver_core/scpi/binary_block.py:84-131 | Any number of encoded blocks waiting on an open transport is read back as the same payloads in order, and nothing behind them is touched |
| `BlockReader.StagedIsHead` | src/scpi_driver_core/scpi/binary_block.py:103-122 | Reading header, length field, payload and terminator one after another finds a block exactly when the pure decoder does |
| `BlockReader.HeadBlockExactly` | src/scpi_driver_core/scpi/binary_block.py:66-131 | A stream has a block at its head exactly when it starts with a well-formed frame within the bound and the terminator behind it |
| `BlockReader.ReadExactly` | src/scpi_driver_core/scpi/binary_block.py:106-114 | Each stage is handed no more than what remains of the budget, and reads exactly its bytes |
| `BlockReader.ReadDefiniteLengthBlock` | src/scpi_driver_core/scpi/binary_block.py:84-131 | Returns a payload exactly when the pure decoder does on the flat stream, uses up exactly one block, keeps the budget in at most four calls, and past the argument checks every failure leaves the transport not OPEN |
| `BlockReader.QueryBinaryBlock` | src/scpi_driver_core/scpi/client.py:344-381 | One write and one block read in at most five calls under one budget: ends by start plus timeout, succeeds only strictly before it, and any failure invalidates the stream |
| `Deadlines.Deadline.Remaining` | src/scpi_driver_core/execution/deadline.py:30-34 | What remains is positive and ends exactly at the deadline, or the timeout is raised; nothing in between |
| `Sessions.StaysClosedIff` | src/scpi_driver_core/session/session.py:147-182 | Over every run without an explicit open, a closed session is CLOSED after every prefix if and only if the run has no simulated disconnect (mock) or no query (TCP) |
| `Sessions.ClosedOrPending` | src/scpi_driver_core/session/session.py:147-182 | Until it reopens, such a run is FAULTED exactly while a disturbance is unsettled and CLOSED otherwise |
| `Sessions.ReopensIff` | src/scpi_driver_core/session/session.py:147-174 | A closed session comes back to OPEN without an explicit open if and only if a recovery is accepted while a disturbance is unsettled |
| `Sessions.RetriedQueryReopensTcp` | src/scpi_driver_core/transport/tcp.py:155-168 | The concrete run: a failed query on a closed TCP session followed by its retry recovery opens it; on the mock it stays closed |
| `Sessions.CachedInThisGeneration` | src/scpi_driver_core/session/session.py:227-235 | A session's cached identity was read in its current generation, with no connection made or ended since |
| `Sessions.ScpiSession.Open` | src/scpi_driver_core/session/session.py:118-138 | Accepted exactly when the transport connects and the probe and validation that were asked for pass, in that order, and only then is the configuration adopted; a failed probe or validation leaves the transport CLOSED without identity |
| `Sessions.ScpiSession.ReopenTransport` | src/scpi_driver_core/session/session.py:140-145 | The generation grows by one exactly when the transport's open returned, also on an already open session |
| `Sessions.ScpiSession.RecoverIfFaulted` | src/scpi_driver_core/session/session.py:147-174 | Only a faulted session is reopened, and is accepted exactly when the probe and validation of the last successful open pass again; open ones are left alone, all others refused |
| `Sessions.ScpiSession.Close` | src/scpi_driver_core/session/session.py:176-182 | The session ends closed and forgets its identity even when closing the transport raises, which then leaves the call |
| `Sessions.ScpiSession.GetIdentity` | src/scpi_driver_core/session/session.py:227-235 | The cached identity without traffic, or a fresh one; a failed refresh changes no cache |
| `Sessions.ScpiSession.CheckCommunication` | src/scpi_driver_core/session/session.py:196-202 | A probe that answers whether the session still talks, and touches nothing but the transport |
| `Guards.ConfirmationGuard.Enable` | src/scpi_driver_core/execution/guards.py:62-69 | Only the exact phrase enables, and does so as one step of the threads' system, whose flag it sets |
| `Guards.ConfirmationGuard.Disable` | src/scpi_driver_core/execution/guards.py:71-75 | Disabling is one step: the flag is cleared and a new epoch starts |
| `Guards.ConfirmationGuard.ReadFlags` | src/scpi_driver_core/execution/guards.py:56-59 | The locked read of a check is one step, and what it returns goes with what is permitted at that moment |
| `Guards.ConfirmationGuard.Answer` | src/scpi_driver_core/execution/guards.py:51-60 | The answer of a check is what was permitted to the thread at its locked read, whatever other threads have done since |
| `Guards.ConfirmationGuard.BeginScope` | src/scpi_driver_core/execution/guards.py:88-95 | A scope starts only with the exact phrase, and captures the epoch in one step |
| `Guards.ConfirmationGuard.EnterScope` | src/scpi_driver_core/execution/guards.py:96-100 | The thread's own variables follow the system's step of opening a scope, counts of other epochs being dropped |
| `Guards.ConfirmationGuard.LeaveScope` | src/scpi_driver_core/execution/guards.py:103-108 | The thread's own variables follow the system's step of closing its innermost scope, across epochs too |
| `Guards.ScopedIff` | src/scpi_driver_core/execution/guards.py:46-53 | Depth and epoch of a thread decide exactly whether it has an open scope of the current epoch, through any nesting across epochs |
| `Guards.AnswersAreTrue` | src/scpi_driver_core/execution/guards.py:56-60 | Over every interleaving of any number of threads, the answer a check computes is the truth at its atomic read |
| `Guards.CheckIsPermission` | src/scpi_driver_core/execution/guards.py:77-85 | At every moment a check started now is granted if and only if the guard is enabled globally or this thread has an open scope of the current epoch |
| `Guards.DisableRevokes` | src/scpi_driver_core/execution/guards.py:71-75 | After a disable, no older scope of any thread counts, whatever the threads do, until that thread enters a new one or the guard is enabled again |
| `Guards.PermittedIff` | src/scpi_driver_core/execution/guards.py:46-108 | Over every interleaving a thread is permitted if and only if the guard was enabled and not disabled since, or the thread has a scope open whose epoch it read with no disable since |
| `Guards.EnableGrants` | src/scpi_driver_core/execution/guards.py:62-69 | Enabling permits every thread until the next disable, whatever runs before and in between |
| `Guards.ScopeGrants` | src/scpi_driver_core/execution/guards.py:88-108 | A scope permits its thread from entering it until it is left or the guard is disabled |
| `LockOrder.PathsAreOrdered` | src/scpi_driver_core/session/session.py:107-111 | Every code path of client, session and transport takes its locks in one order, alone or inside the operation lock, nested to any depth |
| `LockOrder.NextOk` | src/scpi_driver_core/transport/state.py:52-59 | Every step and every exception, with its handlers, keeps mutual exclusion and the order of all that is still to run |
| `LockOrder.Progress` | src/scpi_driver_core/session/session.py:79-111 | From a blocked thread, following the holders upwards the wanted locks rank ever higher, so a thread that can step is reached |
| `LockOrder.NeverStuck` | src/scpi_driver_core/session/session.py:79-111 | No deadlock: over every interleaving of any programs, with exceptions anywhere, some thread can step while any has work left |
| `WireLogs.IdsIncrease` | src/scpi_driver_core/scpi/client.py:43-53 | Operation ids never fall along the events of consecutive executions, every write starts a new one, and none is used twice |
| `WireLogs.OperationsStandTogether` | src/scpi_driver_core/scpi/client.py:253-305 | Of operations one after another the events of each, with the queries of its own error check, are one stretch |
| `Serial.PathsAreLocked` | src/scpi_driver_core/scpi/client.py:198-305 | Every code path that puts anything on the wire takes the client's lock first and releases it last; the others are silent |
| `Serial.StepBack` | src/scpi_driver_core/scpi/client.py:189-213 | A thread's step is a step of its operation run alone: whatever it does afterwards it could have done from before |
| `Serial.RunFits` | src/scpi_driver_core/scpi/client.py:253-381 | Run alone, an operation takes consecutive fresh ids and puts its own execution on the wire, and only if that was complete its error queries; all of them if it does not raise; session operations and blocks of calls do so for their parts in order |
| `Serial.NextKeeps` | src/scpi_driver_core/scpi/client.py:189-213 | Every step of every thread, taking and releasing reentrant locks and raising anywhere, keeps the log explained by whole operations |
| `Serial.LogIsSerial` | src/scpi_driver_core/scpi/client.py:189-305 | Over every interleaving of threads that run the code paths of client and session, with exceptions anywhere, the log is that of whole operations one after another in the order they took the client's lock, each directly followed by its own error queries, only the last possibly still under way, each thread's in program order |
| `Serial.LogIdsIncrease` | src/scpi_driver_core/scpi/client.py:43-53 | Operation ids increase along the log of every interleaving |
| `Clients.ScpiClient.Execute` | src/scpi_driver_core/scpi/client.py:198-213 | One fresh id, one write and the reads of the reply, which is the instrument's answer to it, with failures before and after sending; an error query that was sent pops exactly one entry |
| `Clients.ScpiClient.QueryErrors` | src/scpi_driver_core/scpi/errors.py:66-67 | One error query and its check: the reply, or what the check raised |
| `Clients.ScpiClient.CheckErrors` | src/scpi_driver_core/scpi/client.py:171-187 | The automatic check runs only when wanted and not already under way, restores its flag, never triggers another check, and sends at most as many queries as the queue allows |
| `Clients.ScpiClient.Drain` | src/scpi_driver_core/scpi/errors.py:69-97 | The drain returns or raises what the queue decides unless a query breaks, pops one entry a query, and sends at most `limit` queries when they are not checked; an ordinary queue keeps every entry, reported or left, exactly under the stated condition |
| `Clients.DrainConservesIff` | src/scpi_driver_core/scpi/errors.py:69-97 | A drain loses no entry of an ordinary queue if and only if the queue was empty, or a query broke before any had been sent, or all were answered and either none was checked or there was one entry at most |
| `Clients.BrokenDrainLosesOne` | src/scpi_driver_core/scpi/errors.py:72 | The concrete loss on a broken transport: one queued error, whose query is answered before the next one fails, is reported to nobody |
| `Clients.ScpiClient.RaiseIfErrors` | src/scpi_driver_core/scpi/errors.py:99-104 | Raises the complete list of drained errors, or what the drain raised |
| `Clients.ScpiClient.Write` | src/scpi_driver_core/scpi/client.py:253-257 | A write is one execution followed, only when complete and checks are on, by its own error queries |
| `Clients.ScpiClient.Query` | src/scpi_driver_core/scpi/client.py:281-305 | One attempt of a query: the value is the instrument's answer to this very command, the one command that reached it besides error queries; the check as for a write |
| `Clients.ScpiClient.QueryBinaryBlock` | src/scpi_driver_core/scpi/client.py:379-381 | The value is the instrument's answer to this very command, all of it under one id, followed by its own check |
| `Clients.Instrument.NextErrorReply` | src/scpi_driver_core/simulation/scripted.py:546-550 | The oldest error leaves the queue; an empty queue answers that there is none |
| `Clients.DrainExactly` | src/scpi_driver_core/scpi/errors.py:77-97 | An unchecked drain reports exactly the entries before the first reply that ends it, in order: returned when that reply means no error, raised as incomplete when it is unparsable or the limit comes first; only those replies are popped |
| `Clients.OrdinaryDrain` | src/scpi_driver_core/scpi/errors.py:69-97 | A queue of real errors is returned whole if and only if it has fewer than `limit` entries, otherwise exactly the first `limit` are raised; reported entries followed by the rest are the old queue |
| `Clients.CheckConserves` | src/scpi_driver_core/scpi/client.py:171-187 | An automatic check reports an ordinary queue without losing an entry, as complete exactly when it got to the end |
| `Clients.CheckedDrainConservesIff` | src/scpi_driver_core/scpi/errors.py:69-97 | When every query is answered, draining by hand while checks after queries are on conserves the queue if and only if it holds at most one entry |
| `Clients.CheckedDrainLosesOne` | src/scpi_driver_core/scpi/errors.py:72 | The concrete loss: two queued errors, of which only the second is ever reported |
| `Retries.DelayIsBounded` | src/scpi_driver_core/execution/retry.py:65-77 | No delay is negative or above the cap |
| `Retries.DelaysAreMonotone` | src/scpi_driver_core/execution/retry.py:65-77 | Delays never fall when the backoff is at least one, and never rise after the first when it is at most one |
| `Retries.PlateauThenGeometric` | src/scpi_driver_core/execution/retry.py:65-77 | The fast attempts wait the initial delay, and from there each wait is the backoff times the one before, both up to the cap |
| `Retries.WaitedInFull` | src/scpi_driver_core/execution/retry.py:65-77 | Nothing is waited before the first attempt, later an uncapped delay within the cap in full, and otherwise the cap |
| `Retries.RunWithRetry` | src/scpi_driver_core/execution/retry.py:118-186 | The loop makes the one possible number of attempts, gives back the outcome of the last (so exhaustion raises the last retryable error and the defensive error is never raised), and makes exactly the prescribed sleeps, recoveries, operations and reports in order |
| `Retries.ExactlyOneNumber` | src/scpi_driver_core/execution/retry.py:138-182 | Policy and environment determine how many attempts there are |
| `Retries.RunIsCounted` | src/scpi_driver_core/execution/retry.py:151-182 | Recovery runs before exactly the attempts from the second on, the operation at most once an attempt, and reports are numbered from one without a gap with the phase that failed |
| `Retries.GivesUpOnlyLate` | src/scpi_driver_core/execution/retry.py:142-147 | A retryable failure is the last before the attempts are used up only when the next wait would have passed the elapsed-time bound |
| `Retries.CallsInOrder` | src/scpi_driver_core/execution/retry.py:148-181 | In an attempt the sleep comes first, then recovery, then the operation, then the report, each at most once |
| `Retries.CallsMade` | src/scpi_driver_core/execution/retry.py:148-157 | An attempt sleeps exactly when its delay is positive, recovers exactly from the second on, and runs the operation exactly unless recovery failed |
| `Retries.NoLateStart` | src/scpi_driver_core/execution/retry.py:142-147 | No attempt after the first starts past the elapsed-time bound, but for what its own sleep overran |
| `Retries.BackoffIsBounded` | src/scpi_driver_core/execution/retry.py:138-149 | With exact sleeps all waiting together stays within the elapsed-time bound |
| `Polling.PollUntil` | src/scpi_driver_core/execution/polling.py:61-82 | At least one and at most the rounded-up quotient plus one evaluations, waits together at most the timeout and none past the deadline; success is the first true evaluation; a timeout only after a false one and a clock reading at or past the deadline |

## Left out

- Sockets, PyVISA, serial and UDP: foreign calls. A backend is reduced to what its reads and writes can do: deliver some
  bytes, time out, disconnect or fail. The serial and UDP transports add only such calls to the shared state machine.
- VISA beyond reading and writing: device clear, serial poll, triggers, local control, and the code paths for resources
  without the low-level handle.
- Flushing on every transport, and the hook that tests may run between the halves of a mock `transact`.
- Delayed scripted replies, reply rules, and replies that combine data with a disconnect: which reply an instrument gives
  to a command is not part of the model; which commands it is given is.
- Text encodings other than ASCII, terminators other than a line feed, and Unicode blanks: the scanner is modelled for
  the default configuration.
- The response parsers and engineering notation: they rest on library conversions of text to numbers. An error-queue
  reply is modelled as parsed or unparsable.
- Tracing, redaction, the session registry, health records, IEEE 488.2 common commands beyond the identity query, and the
  texts of messages: no behaviour modelled here depends on them.
- The search of `operation_deadline` through wrapped transports for a default timeout, and transports without one: a
  transport here has a default timeout, so a budget always exists.
- Checks of timeouts for being finite: a real number always is. Values that are not positive are refused as in the code.
- Pacing between client operations, and user callbacks that call back into the client.
- Rounding and overflow of floats in retry delays: delays are real numbers, so no delay is infinite.
- Exceptions that interrupt `open` from outside, such as a keyboard interrupt.
- LockOrder.PathsAreOrdered: takes the number of state changes inside a transport call and of queries inside an error
  check as any numbers, instead of deriving them.
- Serial.LogIsSerial: covers the client's default operation ids, not a caller's own factory, and the text, block and
  session operations, not the raw byte ones; how many replies a block takes and how many queries a check are any numbers.
- Sessions.StaysClosedIff: an exchange is abstracted to succeeding, or failing with or without a fault; the transport
  classes prove that their calls step the state accordingly.
- Retries.RunWithRetry: the environment's answers and durations are functions of the attempt's number, which covers every
  run since an attempt calls each at most once.
- UploadHistory.History.Record: the byte limit is fixed when the history is created, as it is in the program.
- TextCodec.QuotedArgument: states what the scanner makes of a quoted value, for values without line breaks, which are
  the ones that the quoting accepts.
