# VoxOne: verified models of the network stack and the flash tooling

This project models the parts of the VoxOne firmware repository that are hardest to get right by
reading them: the patched AsyncTCP and AsyncWebServer stack that runs on the device, and the scripts
that build, inspect and repair flash images. Every model follows the source branch by branch, with
its error conditions, constants and 8-, 16- and 32-bit arithmetic. Code that updates fields or
arrays is a class or a method proved against a specification function; the theorems are then
statements about that function over all inputs, all runs or all reachable states.

| part | modules |
|---|---|
| event queue of AsyncTCP | `EventQueue`, `EventQueueProtocol`, `EventQueueOrder`, `EventQueueBlocking`, `EventQueueProgress` |
| closed slots | `ClosedSlots`, `ClosedSlotProtocol`, `ClosedSlotSteps`, `ClosedSlotSafety`, `ClosedSlotCalls` |
| multipart request parser | `ArduinoString`, `Multipart`, `MultipartRequest`, `MultipartForm`, `MultipartContent`, `MultipartHeaders`, `MultipartNames`, `MultipartRoundTrip`, `MultipartUploads`, `MultipartFiles`, `MultipartExactness`, `MultipartEnds` |
| locks | `WebLock`, `LockOrder`, `LockTraces` |
| WebSocket | `Bytes`, `WebSocketFrame`, `WebSocketReceiver`, `WebSocketRoundTrip`, `WebSocketControls`, `WebSocketTags`, `WebSocketSender`, `WebSocketState`, `WebSocketSteps`, `WebSocketAccounting`, `WebSocketProgress`, `WebSocketCalls`, `WebSocketClient`, `WebSocketDelivery` |
| HTTP responses | `Responses`, `ResponseConservation`, `ResponseProgress`, `ResponseWriters` |
| server-sent events | `EventSource`, `EventSourceRoundTrip`, `EventSourceQueue`, `EventSourceProgress` |
| flash images | `Flash`, `OtaCrcs`, `FullImage`, `FlashInspector`, `BuildToInspect`, `PartitionTable`, `EspImages`, `FlashTables`, `NvsPages`, `OtaSelection`, `OtaUpdate`, `FlashReports` |
| SPIFFS recovery | `SpiffsRecovery`, `SpiffsRecoveryLayouts`, `SpiffsRecoveryChecks`, `SpiffsRecoveryRuns`, `SpiffsRecoveryTool`, `SpiffsRecoveryPlans` |
| smaller parts | `Manifest`, `ManifestChecks`, `Rle565`, `Rle565Pixels`, `OledCrop`, `OneButton`, `OneButtonGestures` |

`Wrappers` holds optional and refused results, `Numbers` minimum and maximum, `Buffers` a stream in
the buffers that TCP delivers.

`dafny verify dfyconfig.toml` checks the whole project.

## How the code is modelled

- Tasks and the lwIP thread are steps of a state machine; a run is any sequence of enabled steps.
  Each semaphore or queue operation and each read or write of a shared field is a step of its own.
- The TCP window, the acknowledged lengths, the masking keys, the clock, the button level, the
  accepted connections, their ends and their errors are parameters of a step: the theorems hold for
  all of them.
- Hashes, CRC-32, gzip, UTF-8 decoding, the SPIFFS tool and the readers of CSV files are function
  parameters. Collision freedom is assumed only where a row says so.
- Exceptions and error returns are `Result` values, one constructor per cause.

## What the proofs found

These are places where the code does not do what its comments, its documentation or the obvious
reading promise. The model keeps the code as it is; the named member states exactly when it is right.

- The event queue can deadlock. The lwIP thread waits for a permit without a time limit when it
  reports an error, an accepted or an established connection; the service task waits for the lwIP
  thread when a handler calls into lwIP. With the queue full both wait for ever. A run from the
  start reaches this (`DeadlockIsReachable`), and nothing else is a deadlock (`DeadlocksAreStuck`).
- The re-entrant lock excludes other tasks exactly when no two tasks can read the same name from the
  scheduler's field for the running task (`MutualExclusionIff`). If that field shows what core 0
  runs, that holds exactly when all tasks run on core 0 (`CoreZeroNamesExcludeIff`).
- A client that was accepted while every closed slot was owned gets slot -1, and the guard of the
  lwIP calls lets -1 through. Exactly such clients can have a call end up on a released PCB
  (`UnsafeExactlyWithoutSlot`), and one connection more than there are slots is enough
  (`UnsafeCallIsReachable`).
- A form is delivered as it was written exactly when no content contains the delimiter
  (`FormIsReadBackIff`): a field is cut there, and a file that begins with it is stored through a
  null buffer or lost (`BadFileIsNotDelivered`).
- A name or file name with a semicolon between its quotes is cut: it arrives as it was written
  exactly if it has none (`NameIsReadIff`, `FileNameIsReadIff`).
- The first closing dash makes the request expect exactly four bytes more, itself included: the
  handler of a form runs exactly when a TCP buffer ends two bytes behind the dashes, so always
  after a single line end, never without one, and after an epilogue only by chance (`EpilogueIff`).
- Every part counts as a file once one of its lines gives a content type: without a file name it
  is delivered under the file name of an earlier part (`HeadersSay`, `ToldPartRun`).
- A WebSocket frame of 2^16 bytes or more cannot be announced by the header that is written; its
  length is read back exactly below that (`HeaderIsReadBack`). Buffers that end inside a frame
  header are read past their end (`StreamIsReadBack`).
- The message opcode and frame number that the event handler sees are updated only by a part of a
  frame that is not the whole of it. Over a whole stream, they are right exactly when TCP cuts every
  data frame, and not at the wrong places (`TagsAreRightIff`).
- A frame that is cut to the TCP window can announce uninitialised length or key bytes
  (`CutHeaderIsReadBackIff`); the two callers leave enough room.
- An acknowledgement that ends inside a control frame keeps the accounts exactly when the first
  message is being sent and has enough acknowledged bytes to lend (`SplitControlAck`); such an
  acknowledgement after a single ping breaks them (`SplitIsReachable`).
- A ping whose payload is cut by the end of a TCP buffer reaches the event handler as data, and only
  its second part is answered (`CutPingIsData`).
- A close that begins on this side is not remembered: after its acknowledgement further messages are
  written, and the close frame that answers it is answered again (`OwnCloseIsNotRemembered`).
- A basic response whose head fits the room exactly, with a body to follow, writes nothing in its
  first call (`FirstCallFillsRoom`).
- A content source that asks to be tried again while the head is pending loses bytes
  (`TryAgainLosesBytes`); a run loses some exactly when one of its calls overruns the room
  (`ResponseIsConservedIff`).
- A short server-sent event overtakes one that does not fit, and is credited to it, so that the
  long one can be deleted without ever being written (`OvertakenMessageIsLost`). Over any run, every
  message that left the queue was written exactly when no acknowledgement covered, counted from the
  front, one that was not sent yet (`MessagesAreLostIff`). Order is kept by a pass exactly when
  nothing overtakes (`PassKeepsOrder`).
- LF CR counts as one line end for the event printer, where the WHATWG rules count two. An event
  carries the lines that those rules see in its message exactly when every line end LF CR that the
  printer finds is followed by an LF (`LinesAreStandardIff`); `LfCrIsOneLineEnd` is a family of
  messages for which it is not.
- A handler of `forEachClient` can deadlock with another one if it goes to the client list of another
  server (`LeavingHomeDeadlocks`), and only then (`NoDeadlock`): exactly the other handlers keep the
  order of the locks (`MethodsAreOrderedIff`).
- The second record of the initial OTA data, sequence 0 with an erased CRC, has a matching CRC, so
  the inspector counts it as selectable and reports a rollback record without a bootable image
  (`AcceptedImageBootsFromApp0`).
- A crop that reaches over the right edge of its image is encoded, with pixels of the next row, as
  long as its last row ends inside the image (`EncodedIff`).
- A restore plan keeps the protected ranges sorted but is compared with the CSV as listed: it is
  accepted exactly when the CSV lists them in the order of their offsets (`PreparedPlanIsAcceptedIff`).
  Every other layout has a prepared plan that is refused (`UnorderedPlanIsRefused`).
- The manifest inspector does not look behind the first NUL of a path field: an accepted manifest is
  the generated one exactly when the fields are zero-padded (`AcceptedIsRenderedIff`), and any other
  bytes there are accepted (`GarbageIsAccepted`).

## Model

| member | source | states |
|---|---|---|
| EventQueue.RemoveQueuedEvents | src/AsyncWebServer/AsyncTCPLifecycle.h:30-49 | terminates; leaves exactly the events of other owners in their order, frees each event of the owner once in order, returns their number |
| EventQueue.OthersKeepOrder | src/AsyncWebServer/AsyncTCPLifecycle.h:26-29 | what a removal leaves is the subsequence of the old queue at increasing positions, so the filter is stable |
| EventQueue.SplitIsPartition | src/AsyncWebServer/AsyncTCPLifecycle.h:26-29 | kept and freed events together are the queued ones, as multisets, so none is lost or freed twice |
| EventQueueProtocol.StepKeepsInv | src/AsyncWebServer/AsyncTCP.cpp:139-291 | every step of a producer or of the service task keeps permit, event and packet-buffer conservation, lock consistency and the state of a rotation |
| EventQueueProtocol.QueueIsSafe | src/AsyncWebServer/AsyncTCP.cpp:139-181 | in every run with any number of producers: free permits, queued events, permits in hand and unreleased events sum to the queue size; a permit holder never meets a full queue; neither the rotation's push nor a slot release can fail its assertion; every queued event, and every packet buffer it carried, is queued, in hand or released, exactly one of them |
| EventQueueProtocol.RemovalIsStableFilter | src/AsyncWebServer/AsyncTCP.cpp:214-232 | a rotation that is complete has left the other owners' events of the queue at its start, in order, however producers interleave |
| EventQueueOrder.DeliveryFollowsRanks | src/AsyncWebServer/AsyncTCP.cpp:139-232 | in every run, with prepended events and removals, where each event gets a ticket when it is stored: the received events are those of the taken tickets in order, every ticket is queued, taken or removed, exactly one of them, and no event is received while one of lower rank is queued (events stored at the front rank before all others, the latest first; the others by their order) |
| EventQueueOrder.BackIsInOrder | src/AsyncWebServer/AsyncTCP.cpp:156-181 | of two events stored at the back the earlier one is received first, or was removed |
| EventQueueOrder.FrontGoesFirst | src/AsyncWebServer/AsyncTCP.cpp:156-181 | an event stored at the front is received before everything that was queued at that moment, or was removed |
| EventQueueOrder.PlainQueueIsFifo | src/AsyncWebServer/AsyncTCP.cpp:145-181 | without removals and prepended events the received events, followed by the queue, are exactly the stored ones in order |
| EventQueueOrder.BuffersAreReleased | src/AsyncWebServer/AsyncTCP.cpp:183-189 | in every run, once nothing is queued or being handled, each packet buffer has been released as often as a stored receive event brought it along |
| EventQueueBlocking.RunsAreQueueRuns | src/AsyncWebServer/AsyncTCP.cpp:145-181 | a run with the waits of the lwIP thread and of the service task is, for the queue, a run of the protocol above, so that its safety results hold here too |
| EventQueueBlocking.SomeTaskProceeds | src/AsyncWebServer/AsyncTCP.cpp:145-181 | in every reachable state, some task inside the queue code or the service task can proceed if and only if there is work (an event queued or being handled, a task inside the queue code or waiting for a permit) and the system is not stuck, that is with no permit left, nobody else in the queue code, the lwIP thread waiting without a time limit for a permit, and the service task waiting for the lwIP thread to run the body of its call; without a permit there always is work |
| EventQueueBlocking.DeadlocksAreStuck | src/AsyncWebServer/AsyncTCP.cpp:396-409 | a reachable state has no next step at all if and only if it is stuck in that way |
| EventQueueBlocking.BlockedEndsStuck | src/AsyncWebServer/AsyncTCP.cpp:145-172 | once the two tasks wait for each other at an exhausted queue, every run only spends the remaining steps of other producers, a number known in advance, and then is stuck |
| EventQueueProgress.WorkIsDone | src/AsyncWebServer/AsyncTCP.cpp:139-291 | from every reachable state, a run without new events, removals and handler calls is never longer than a number known in advance, and at its end nothing can proceed if and only if no work is left or the tasks are stuck: so queued events are received, removals completed and permits given back |
| EventQueueBlocking.DeadlockIsReachable | src/AsyncWebServer/AsyncTCP.cpp:396-409 | a run from the initial state reaches the stuck state |
| ClosedSlots.Oldest | src/AsyncWebServer/AsyncTCP.cpp:933-947 | the slot taken is reusable and was freed the longest ago, the last of several equal ones; -1 exactly when none is reusable |
| ClosedSlots.OldestIsUnique | src/AsyncWebServer/AsyncTCP.cpp:936-942 | the order of release determines the slot: no other choice satisfies that description |
| ClosedSlots.NextIndex | src/AsyncWebServer/AsyncTCP.cpp:954-958 | a release index always marks a reusable slot, and grows except where it wraps past the two reserved words |
| ClosedSlots.ClosedSlotTable.Allocate | src/AsyncWebServer/AsyncTCP.cpp:933-947 | takes the slot freed the longest ago and marks it active; changes no other slot, and nothing if none is reusable |
| ClosedSlots.ClosedSlotTable.Free | src/AsyncWebServer/AsyncTCP.cpp:949-961 | stamps the slot with the release index and advances the index; a client without a slot changes nothing |
| ClosedSlots.ClosedSlotTable.InvalidateSlot | src/AsyncWebServer/AsyncTCP.cpp:963-969 | shuts an active slot and leaves a reusable one reusable |
| ClosedSlotSteps.StepKeepsInv | src/AsyncWebServer/AsyncTCP.cpp:470-573 | every step of accept, FIN, error, detach, issue, run, return and destroy keeps slot ownership unique and the guard in agreement with the PCB |
| ClosedSlotSafety.CallsAreSafe | src/AsyncWebServer/AsyncTCP.cpp:470-573 | in every interleaving a call of a client with a slot never runs on a released PCB, no two live clients own one slot, and callbacks arrive only at live clients that know their PCB |
| ClosedSlotSafety.SlotIsKeptUntilFreed | src/AsyncWebServer/AsyncTCP.cpp:949-969 | a client keeps its slot and an invalidated slot stays invalidated until the client is destroyed, over any run |
| ClosedSlotSafety.SlotsRunOutOnlyWhenOwned | src/AsyncWebServer/AsyncTCP.cpp:933-947 | a new client goes without a slot if and only if every slot has an owner |
| ClosedSlotSafety.SlotsDoNotLeak | src/AsyncWebServer/AsyncTCP.cpp:678-684 | once all clients are destroyed every slot is reusable |
| ClosedSlotSafety.UnsafeExactlyWithoutSlot | src/AsyncWebServer/AsyncTCP.cpp:470-477 | a posted call on a live PCB can come to run on a released one if and only if its client has slot -1 |
| ClosedSlotSafety.LateClientIsUnsafe | src/AsyncWebServer/AsyncTCP.cpp:933-947 | whenever all slots are owned, the next accepted client can reach such a call in three steps |
| ClosedSlotSafety.UnsafeCallIsReachable | src/AsyncWebServer/AsyncTCP.cpp:470-477 | for every number of slots, a run from the initial state that accepts one connection more ends with a call of that client about to run on a released PCB |
| ClosedSlotCalls.UseChangesNothing | src/AsyncWebServer/AsyncTCP.cpp:470-533 | a call that only uses its PCB, from reading it to its return, leaves the whole state as it was |
| ClosedSlotCalls.AbortReleases | src/AsyncWebServer/AsyncTCP.cpp:555-573 | an abort of an attached connection releases its PCB exactly once, unlinks the client and shuts its slot, and changes nothing else |
| ClosedSlotCalls.DetachLeavesTheRest | src/AsyncWebServer/AsyncTCP.cpp:911-931 | taking off the callbacks of a connection changes nothing else, and then it can be closed |
| ClosedSlotCalls.CloseReleases | src/AsyncWebServer/AsyncTCP.cpp:535-553 | a close that succeeds releases the PCB once and unlinks the client, a close that fails leaves it linked and an abort due |
| ClosedSlotCalls.PeerIsNoticed | src/AsyncWebServer/AsyncTCP.cpp:990-1042 | a connection that the peer resets or ends has its slot shut before the client forgets its PCB; nothing else changes |
| ClosedSlotCalls.ShutCallDoesNothing | src/AsyncWebServer/AsyncTCP.cpp:470-562 | a body that meets a shut slot touches no PCB |
| MultipartRequest.AsyncWebServerRequest.HandleUploadByte | src/AsyncWebServer/WebRequest.cpp:438-447 | stores the byte, and hands the buffer over with its offset when it is full or the TCP buffer ends; the index stays below 1460 |
| MultipartRequest.AsyncWebServerRequest.ParseHeaderLine | src/AsyncWebServer/WebRequest.cpp:499-528 | the loop over the parameters sets name, file name and type as the specification of the line does, with the 32-bit positions of the string class; `LineSays` and `OtherLineSays` say what that is |
| MultipartHeaders.LineSays | src/AsyncWebServer/WebRequest.cpp:499-528 | a disposition line in letters of either case, with any parameters, gives its last name and last file name, a file name makes the part a file, a type line gives the type and makes the part a file, and any other line changes nothing |
| MultipartHeaders.OtherLineSays | src/AsyncWebServer/WebRequest.cpp:499-528 | a line that begins, in letters of either case, with neither of the two header names leaves name, file name, type and file flag as they were |
| MultipartHeaders.HeadersSay | src/AsyncWebServer/WebRequest.cpp:499-528 | after any lines in any order the last name, file name and type given count, and the part is a file if and only if some line gave a file name or a type, or it was one before |
| MultipartRequest.AsyncWebServerRequest.ParseMultipartPostByte | src/AsyncWebServer/WebRequest.cpp:463-621 | the recursive byte machine on the object's fields is the transition function of the specification, including the push-back of a broken match |
| MultipartRequest.AsyncWebServerRequest.OnData | src/AsyncWebServer/WebRequest.cpp:144-230 | one TCP buffer of the body is the specification's fold over its bytes, and the handler is called when the declared length is reached |
| MultipartContent.ContentRun | src/AsyncWebServer/WebRequest.cpp:474-577 | while no delimiter is complete, stored bytes and matched bytes together are always the content read so far, whatever partial delimiters it contains |
| MultipartNames.NameIsReadIff | src/AsyncWebServer/WebRequest.cpp:506-526 | a field arrives under its name, whatever its characters on one line, if and only if there is no semicolon among them |
| MultipartNames.FileNameIsReadIff | src/AsyncWebServer/WebRequest.cpp:506-526 | and a file under its file name |
| MultipartRoundTrip.DeliverIsFeed | src/AsyncWebServer/WebRequest.cpp:174-229 | however the body is cut into non-empty TCP buffers, the parser state is that of the uncut body, and the handler is called once |
| MultipartRoundTrip.FormIsReadBack | src/AsyncWebServer/WebRequest.cpp:463-621 | a form of fields and files rendered with a valid boundary, each with any header lines that say its name, among them further headers at any place, further parameters and names in letters of either case, and none of whose contents contains the delimiter, is read back exactly, for every cut: all names and values in order, for each file contiguous chunks from offset 0 that spell the file with one final call at the end, no store through a null buffer, no upload buffer left, one handler call |
| MultipartRoundTrip.ToldPartRun | src/AsyncWebServer/WebRequest.cpp:499-621 | a part with any header lines and content is delivered as the field or file that its lines tell, and with what they leave unsaid as in the part before |
| MultipartUploads.NoDelimiterYet | src/AsyncWebServer/WebRequest.cpp:547-577 | the scanner finds the delimiter as soon as its last byte is read: a byte that does not complete the match leaves the text without it |
| MultipartFiles.NextKeepsInv | src/AsyncWebServer/WebRequest.cpp:463-621 | for any bytes at all, every byte keeps this: what the upload callbacks were given is whole files without the delimiter and perhaps the beginning of one more, or there was a store through a null buffer |
| MultipartFiles.BadFileIsNotDelivered | src/AsyncWebServer/WebRequest.cpp:584-592 | whatever body arrives, the uploads of a form with a file that contains the delimiter are never delivered without such a store |
| MultipartExactness.FormIsReadBackIff | src/AsyncWebServer/WebRequest.cpp:463-621 | a form of fields and files is delivered as it was written, without a store through a null buffer, if and only if no content contains CR LF, two dashes and the boundary, for every cut |
| MultipartEnds.FirstLineDecides | src/AsyncWebServer/WebRequest.cpp:480-497 | a body of at least that length is taken as a form if and only if its first line is the boundary; otherwise nothing of it is delivered, whatever follows |
| MultipartEnds.BufferIsHandedOver | src/AsyncWebServer/WebRequest.cpp:438-447 | at the end of every TCP buffer all bytes that are known to be content of a file have been handed to the upload handler |
| MultipartEnds.EpilogueIff | src/AsyncWebServer/WebRequest.cpp:595-609 | whatever follows the closing dashes all parts are delivered, and the handler runs, once, if and only if a TCP buffer ends two bytes behind them: always if two bytes follow, never if fewer do |
| MultipartExactness.DeliverIsSomeFeed | src/AsyncWebServer/WebRequest.cpp:174-229 | for any body at all, the stored content is that of some prefix of the bytes, whatever the cut |
| WebLock.AsyncWebLock.Lock | src/AsyncWebServer/AsyncWebSynchronization.h:32-40 | takes the semaphore and names the task, or reports that the task is inside already and changes nothing |
| WebLock.AsyncWebLockGuard.Drop | src/AsyncWebServer/AsyncWebSynchronization.h:84-88 | gives the lock back if and only if this guard took it |
| WebLock.MutualExclusion | src/AsyncWebServer/AsyncWebSynchronization.h:32-45 | for any number of tasks and any nesting, with every field access and semaphore operation a step, and if no two tasks can read the same name for the running task: at most one task is inside, exactly the outermost guard will give the semaphore back, and it is not available when given |
| WebLock.MutualExclusionIff | src/AsyncWebServer/AsyncWebSynchronization.h:32-40 | at most one task is inside in all runs if and only if no two tasks can read the same name |
| WebLock.CoreZeroNamesExcludeIff | src/AsyncWebServer/AsyncWebSynchronization.h:33-36 | if the name read is that of the task on core 0, this holds if and only if all tasks run there or there is only one |
| WebLock.WaitingIsForAnother | src/AsyncWebServer/AsyncWebSynchronization.h:32-45 | if every task reads one name, its own, a task waits only for a different task that holds the semaphore and can take a step: re-entry never blocks a task on itself |
| WebLock.OwnNamesExclude | src/AsyncWebServer/AsyncWebSynchronization.h:32-45 | where every task sees itself, on one core or with a field per core: at most one task is inside in every interleaving, and a task that waits does so for another one that can take a step |
| WebLock.TwoNamesWaitForThemselves | src/AsyncWebServer/AsyncWebSynchronization.h:34-35 | a task that can read two names can come to wait for itself |
| LockOrder.MethodsAreOrderedIff | src/AsyncWebServer/AsyncWebSocket.cpp:525-1105 | every guarded method, for any clients and nesting, takes its locks in the order clients, queue, buffers; `forEachClient`, whose handler may call any guarded methods of any clients and servers, `forEachClient` among them, does so if and only if the handler locks the client list of no other server |
| LockOrder.NoDeadlock | src/AsyncWebServer/AsyncWebSocket.cpp:525-1105 | as long as any of any number of concurrently run methods with such handlers is unfinished, some task can take a step: no wait cycle exists |
| LockOrder.LeavingHomeDeadlocks | src/AsyncWebServer/AsyncWebSocket.cpp:1037-1042 | every `forEachClient` whose handler locks the client list of another server has a partner and a run after which both wait for each other |
| LockOrder.AllMethodsFinish | src/AsyncWebServer/AsyncWebSocket.cpp:525-1105 | no run is longer than the guards of its methods, and exactly the runs of that length finish every method |
| LockTraces.LocksAre | src/AsyncWebServer/AsyncWebSocket.cpp:525-1105 | for every method but `forEachClient`, all clients and all outcomes of its tests: the locks it takes one after the other, and the locks held at each of them |
| LockTraces.HandlerTrace | src/AsyncWebServer/AsyncWebSocket.cpp:1037-1042 | `forEachClient` takes its client list and then, while holding it, the locks of all that its handler calls |
| WebSocketFrame.HeaderIsReadBack | src/AsyncWebServer/AsyncWebSocket.cpp:52-117 | the parser reads flags, opcode, key, length and header size back from a written header if and only if the payload is shorter than 2^16 bytes |
| WebSocketFrame.HeaderCutShort | src/AsyncWebServer/AsyncWebSocket.cpp:703-735 | every proper prefix of a header is too short to parse |
| WebSocketFrame.PeerHeaderIsRead | src/AsyncWebServer/AsyncWebSocket.cpp:703-735 | every header of section 5.2 of RFC 6455, with a length of 7, 16 or 64 bits, is read as its flags, opcode, key, length and size |
| WebSocketFrame.SenderIsPeer | src/AsyncWebServer/AsyncWebSocket.cpp:52-117 | the frames that are written are of that form as long as they are shorter than 2^16 bytes |
| WebSocketFrame.MaskedTwice | src/AsyncWebServer/AsyncWebSocket.cpp:101-106 | unmasking with the key from any offset undoes masking |
| WebSocketFrame.MaskInPlace | src/AsyncWebServer/AsyncWebSocket.cpp:101-106 | masks the addressed part of an array with the key at its offset and leaves the rest unchanged |
| WebSocketFrame.WebSocketSendFrame | src/AsyncWebServer/AsyncWebSocket.cpp:52-117 | writes nothing and returns 0 if the header does not fit; otherwise the header and as much masked data as there is room for, which is one encoded frame if all of it fits |
| WebSocketFrame.CutHeaderIsReadBackIff | src/AsyncWebServer/AsyncWebSocket.cpp:58-93 | a frame that was cut to the room still announces its true length and header size if and only if it keeps the length bytes and the key that were reserved |
| WebSocketSender.CallersLeaveRoom | src/AsyncWebServer/AsyncWebSocket.cpp:42-50 | the windows that the callers compute leave room for header and data, so that they never cut a frame |
| WebSocketReceiver.AsyncWebSocketClient.HandleData | src/AsyncWebServer/AsyncWebSocket.cpp:703-790 | the loop over a TCP buffer, unmasking in place, produces the events, replies and state of the specification |
| WebSocketRoundTrip.StreamIsReadBack | src/AsyncWebServer/AsyncWebSocket.cpp:703-790 | any stream of data and control frames, each shorter than 2^32 bytes and with such a header, with one close frame at most, in buffers not cut inside a control: data frames are read back as their flags and unmasked payloads in order, and every control is answered or reported once in order; and if and only if a buffer ends inside a header the code reads past it |
| WebSocketControls.MaskedByte | src/AsyncWebServer/AsyncWebSocket.cpp:101-106 | byte i of the data is masked with byte i modulo 4 of the key, as section 5.3 of RFC 6455 says |
| WebSocketControls.FirstCloseIsAnswered | src/AsyncWebServer/AsyncWebSocket.cpp:755-776 | the first close frame is answered with its own payload, its reason is reported if its code is above 1001, and the receiver goes on behind it |
| WebSocketControls.SecondCloseEnds | src/AsyncWebServer/AsyncWebSocket.cpp:755-776 | a close frame after an answered one closes the connection and the rest of the buffer is dropped |
| WebSocketControls.HalfACodeIsRefused | src/AsyncWebServer/AsyncWebSocket.cpp:763-766 | a close frame of one byte is refused in any status, and the rest of the buffer is dropped |
| WebSocketControls.CutPingIsData | src/AsyncWebServer/AsyncWebSocket.cpp:737-778 | for every ping and every cut of its payload, the first part is delivered as data and the second one answered |
| WebSocketTags.TagsAreRightIff | src/AsyncWebServer/AsyncWebSocket.cpp:737-781 | for every stream of data and control frames, in buffers cut anywhere but inside a header or control, and whatever the tag fields held before: all data events carry the message opcode and frame number of their frame if and only if every first frame of a message is cut or the tag before it is the same, and every continuation is cut, and not once behind its header and then again |
| WebSocketClient.AsyncWebSocketClient.RunQueueLocked | src/AsyncWebServer/AsyncWebSocket.cpp:578-592 | retires finished messages, then sends the head control or the next frame of the first message as the space allows; keeps the accounts |
| WebSocketClient.AsyncWebSocketClient.HandleAck | src/AsyncWebServer/AsyncWebSocket.cpp:525-557 | credits a finished control first and the first message with the rest, closes after an acknowledged close frame, and runs the queue; keeps the accounts unless it splits a control |
| WebSocketSteps.StepKeepsInv | src/AsyncWebServer/AsyncWebSocket.cpp:325-369 | sending, queueing, acknowledging, polling, closing and disconnecting all keep the message, wire and balance invariants |
| WebSocketAccounting.AccountsBalance | src/AsyncWebServer/AsyncWebSocket.cpp:525-592 | in every run without split control acknowledgements, the bytes handed to TCP and not acknowledged are the finished head control plus what the first message has sent beyond its credit; each control is written at most once; frames of messages follow each other without interleaving |
| WebSocketAccounting.RetiredAreComplete | src/AsyncWebServer/AsyncWebSocket.cpp:325-369 | a message that left the queue was sent as one valid fragmented message (section 5.4 of RFC 6455) and all its wire bytes were acknowledged; an empty one was never sent |
| WebSocketAccounting.CompleteMessagesLeave | src/AsyncWebServer/AsyncWebSocket.cpp:578-592 | conversely, after an acknowledgement a non-empty first message is unfinished: it leaves as soon as it is complete |
| WebSocketAccounting.MessagesKeepTheirOrder | src/AsyncWebServer/AsyncWebSocket.cpp:615-636 | a message is accepted, at the end, if and only if the client is connected, keeps up and has fewer than 32 queued; no other step adds, drops or reorders one |
| WebSocketProgress.MessageGoesOut | src/AsyncWebServer/AsyncWebSocket.cpp:578-592 | in every reachable state with a client, no head control that fits, and a first unfinished message between frames with bytes left: a run of the queue writes exactly one frame, with min(bytes left, space - 8) bytes from where the message stopped, the opcode on its first and the final bit on its last one |
| WebSocketProgress.ControlGoesOut | src/AsyncWebServer/AsyncWebSocket.cpp:578-592 | if the head control is unsent and fits, exactly that frame is written, and the messages stay as they were |
| WebSocketProgress.NothingGoesOut | src/AsyncWebServer/AsyncWebSocket.cpp:578-592 | in all other cases nothing is written |
| WebSocketProgress.AllMessagesAreSent | src/AsyncWebServer/AsyncWebSocket.cpp:525-592 | from every reachable state of a connected client that keeps up, with room for one byte of payload at each step and all bytes in flight acknowledged, else a poll: after a number of steps known in advance every accepted message has left, in order, written whole |
| WebSocketCalls.MessageIsWritten | src/AsyncWebServer/AsyncWebSocket.cpp:615-636 | a message for an idle connection is on the wire when the call returns, as far as there is room |
| WebSocketCalls.ControlIsWritten | src/AsyncWebServer/AsyncWebSocket.cpp:638-649 | so is a control frame, its payload cut to 125 bytes |
| WebSocketCalls.PollWritesMessage | src/AsyncWebServer/AsyncWebSocket.cpp:559-576 | a poll writes the next frame of the first unfinished message |
| WebSocketCalls.PollPings | src/AsyncWebServer/AsyncWebSocket.cpp:559-576 | a poll of an idle connection writes the keep-alive ping if and only if one is due |
| WebSocketCalls.ControlsKeepTheirOrder | src/AsyncWebServer/AsyncWebSocket.cpp:525-696 | a step queues, at the end, exactly the caller's control while there is a client, the answer to the first close frame of the peer, or a ping if one is due, the client is connected and keeps up and nothing else is to be sent; nothing else adds, drops or reorders a control among those that left and those that wait |
| WebSocketCalls.LaggingEnds | src/AsyncWebServer/AsyncWebSocket.cpp:615-636 | a message that finds 32 queued is refused, so are all later ones, and the next poll ends the connection |
| WebSocketCalls.PeerCloses | src/AsyncWebServer/AsyncWebSocket.cpp:525-557 | the close frame of the peer comes back once with its payload, and its acknowledgement ends the connection |
| WebSocketCalls.OwnCloseIsNotRemembered | src/AsyncWebServer/AsyncWebSocket.cpp:651-674 | after the acknowledgement of a close frame that was sent first, the connection is idle as before |
| WebSocketAccounting.SplitControlAck | src/AsyncWebServer/AsyncWebSocket.cpp:525-592 | after an acknowledgement that may end inside the head control, and the queue run that follows it, the accounts balance if and only if the control was covered or the first message is being sent and has enough acknowledged bytes to lend |
| WebSocketAccounting.SplitIsReachable | src/AsyncWebServer/AsyncWebSocket.cpp:525-550 | for every ping and every shorter acknowledgement, a run from the start reaches a state in which it breaks the balance |
| WebSocketDelivery.MessagesAreDelivered | src/AsyncWebServer/AsyncWebSocket.cpp:703-790 | for every run of a sender, all it has written, in buffers not cut inside a header or control, is read by the receiver as the fragments of the retired messages in order and of the one being sent, and every control that was sent is answered or reported once, in order |
| WebSocketDelivery.WireJoinsToMessages | src/AsyncWebServer/AsyncWebSocket.cpp:332-369 | the frames written by any run, joined as section 5.4 of RFC 6455 says, are exactly the retired messages with data, whole and in order, and the sent bytes of the next one; the complete ones are a prefix of the accepted ones |
| WebSocketDelivery.MessagesAreReceived | src/AsyncWebServer/AsyncWebSocket.cpp:332-790 | end to end, for every run of the sender and every such cut of its bytes, controls between fragments included: the receiver's events join to exactly those messages, unmasked, and report exactly those controls |
| ResponseWriters.AsyncBasicResponse.Ack | src/AsyncWebServer/WebResponses.cpp:227-269 | on the object's fields, one acknowledgement keeps written and pending bytes together the same, as the specification's step |
| ResponseWriters.AsyncAbstractResponse.Ack | src/AsyncWebServer/WebResponses.cpp:293-443 | for a response with a content length that asks a source for its body, one acknowledgement keeps every byte if and only if it does not overrun the room, and is the specification's step |
| ResponseConservation.BasicResponseIsConserved | src/AsyncWebServer/WebResponses.cpp:184-269 | for every sequence of space values and acknowledgements, bytes written followed by bytes pending are head and body, and the end is reached only with all written and acknowledged |
| ResponseConservation.BasicResponseEnds | src/AsyncWebServer/WebResponses.cpp:227-269 | given room and full acknowledgement, at most two further calls reach the end |
| ResponseConservation.AckKeepsWhole | src/AsyncWebServer/WebResponses.cpp:293-443 | a call keeps every byte if and only if it does not overrun the room |
| ResponseConservation.ResponseIsConservedIff | src/AsyncWebServer/WebResponses.cpp:286-443 | a run, whatever the source answers, keeps every byte if and only if none of its calls overruns the room |
| ResponseConservation.AbstractResponseIsConserved | src/AsyncWebServer/WebResponses.cpp:286-443 | with a source that always answers, in pieces of any size, the same conservation holds over every run |
| ResponseConservation.TryAgainLosesBytes | src/AsyncWebServer/WebResponses.cpp:345-400 | a source that answers "try again" while the head is pending loses bytes, for every such head, body and space |
| ResponseProgress.FirstCallFillsRoom | src/AsyncWebServer/WebResponses.cpp:184-225 | the first call of a basic response writes min(room, length) bytes, except that it writes none if the room is exactly the head and a body follows |
| ResponseProgress.NextCallFillsRoom | src/AsyncWebServer/WebResponses.cpp:227-269 | every later call writes min(room, bytes left) bytes, and waits for acknowledgements if and only if there was room to spare |
| ResponseProgress.BasicResponseGetsThrough | src/AsyncWebServer/WebResponses.cpp:184-269 | with some room in each call the whole response is on the wire after as many calls as it has bytes, and the call that acknowledges the last of them ends it |
| ResponseProgress.CallFillsRoom | src/AsyncWebServer/WebResponses.cpp:293-443 | a call whose source has enough writes exactly what there is room for, of the head and then of the body, and goes on to wait if and only if that was all |
| ResponseProgress.AbstractResponseGetsThrough | src/AsyncWebServer/WebResponses.cpp:286-443 | with some room and some bytes of the source in each call, the same bound holds for a response with a source |
| EventSource.GenerateEventMessage | src/AsyncWebServer/AsyncEventSource.cpp:26-108 | the appending loop yields the retry, id and event fields, then one data line per line of the message, then the blank line |
| EventSourceRoundTrip.EventIsReadBack | src/AsyncWebServer/AsyncEventSource.cpp:26-108 | a parser of section 9.2.6 of WHATWG HTML dispatches exactly one event for the printed message, with the type and the lines joined by LF, and takes its id and retry time |
| EventSourceRoundTrip.StreamIsReadBack | src/AsyncWebServer/AsyncEventSource.cpp:235-238 | a stream of printed events is dispatched as those events, in order, identifiers carried over |
| EventSourceRoundTrip.LinesAreNormalised | src/AsyncWebServer/AsyncEventSource.cpp:50-104 | the data are the message with every line end (CR, LF, CR LF or LF CR) as one LF, minus one at the end |
| EventSourceRoundTrip.LinesAreStandardIff | src/AsyncWebServer/AsyncEventSource.cpp:50-104 | the data are the message with its line ends as the standard sees them (CR LF, CR and LF one each), minus one at the end, if and only if every line end LF CR that the printer finds is followed by an LF |
| EventSourceRoundTrip.LfCrIsOneLineEnd | src/AsyncWebServer/AsyncEventSource.cpp:76-82 | a message whose first line end is LF CR, without an LF behind it, does not arrive with the standard's lines |
| EventSourceRoundTrip.MessageWithoutLfCr | src/AsyncWebServer/AsyncEventSource.cpp:50-104 | a message in which no CR follows an LF does |
| EventSourceRoundTrip.MessageWithoutCarriageReturn | src/AsyncWebServer/AsyncEventSource.cpp:50-104 | a message without CR arrives unchanged, minus one LF at its end |
| EventSourceQueue.AsyncEventSourceClient.Run | src/AsyncWebServer/AsyncEventSource.cpp:240-251 | removes finished messages at the front and sends each unsent one that fits, in queue order |
| EventSourceQueue.AsyncEventSourceClient.HandleAck | src/AsyncWebServer/AsyncEventSource.cpp:200-208 | credits the messages from the front, removing each one that is finished, then runs the queue |
| EventSourceQueue.PassKeepsOrder | src/AsyncWebServer/AsyncEventSource.cpp:240-251 | a pass keeps sent messages before unsent ones if and only if no message overtakes one that does not fit |
| EventSourceQueue.MessagesArriveInOrder | src/AsyncWebServer/AsyncEventSource.cpp:129-151 | in every run without overtaking, the wire is the retired messages in order and then the sent ones, and a message is retired only when its bytes are acknowledged |
| EventSourceQueue.AckLosesIff | src/AsyncWebServer/AsyncEventSource.cpp:200-209 | if nothing was lost before, an acknowledgement with the run of the queue that follows removes a message that was never written if and only if the acknowledged bytes reach, from the front, the end of the first one not sent |
| EventSourceQueue.MessagesAreLostIff | src/AsyncWebServer/AsyncEventSource.cpp:129-251 | in any run from the start, overtaking or not, every message that left the queue was written if and only if no acknowledgement did so |
| EventSourceQueue.UnsentFrontIsRetired | src/AsyncWebServer/AsyncEventSource.cpp:200-206 | a credit that fills the first message removes it whether or not it was sent |
| EventSourceQueue.OvertakenMessageIsLost | src/AsyncWebServer/AsyncEventSource.cpp:200-251 | for all messages and spaces of the stated sizes, an overtaken message leaves the queue unwritten |
| EventSourceProgress.MessagesKeepTheirOrder | src/AsyncWebServer/AsyncEventSource.cpp:183-251 | a message is accepted, at the end, if and only if fewer than 32 wait; nothing else adds, drops or reorders one among those that left and those that wait |
| EventSourceProgress.NextGoesOut | src/AsyncWebServer/AsyncEventSource.cpp:183-251 | in every state reached without overtaking: whatever the call, the first message that waits, or else the one just queued, is written whole behind what was written before if there is room for it |
| EventSourceProgress.AllMessagesAreSent | src/AsyncWebServer/AsyncEventSource.cpp:183-251 | in a run without overtaking, as many acknowledgements of everything written as messages wait, and one more, each with room for the messages, leave the queue empty: all that was accepted was written in the order of acceptance |
| Flash.OtaCrc32 | scripts/full_image_validation.py:492-498 | the bitwise loops compute the CRC that both tools specify |
| Flash.CrcOfZero | scripts/m0_flash_backup.py:241-248 | the CRC of sequence number 0 is that of erased flash |
| OtaCrcs.CrcIsRemainder | scripts/full_image_validation.py:492-498 | the complement of the CRC of any sequence number is the remainder of its division by the generator of CRC-32, as polynomials over two elements: the number plus some multiple of the generator is the remainder, 32 bits further up |
| OtaCrcs.CrcDistinguishes | scripts/m0_flash_backup.py:241-248 | two sequence numbers of 32 bits have the same CRC only if they are equal |
| FullImage.CheckEspImage | scripts/full_image_validation.py:235-308 | the loops over segments and checksum decide as the specification, error by error |
| FullImage.CheckPartitionBinary | scripts/full_image_validation.py:442-480 | likewise for the partition table, its MD5 trailer and the erased rest |
| FullImage.CheckFullImage | scripts/full_image_validation.py:673-696 | likewise for the complete image: size, components, gaps |
| FullImage.FullImageIsOverlay | scripts/full_image_validation.py:653-696 | for a validated component set exactly one image is accepted: erased flash overlaid with the components at their offsets |
| EspImages.BuildAcceptsIff | scripts/full_image_validation.py:235-308 | an image is accepted by the build if and only if it has the header of the contract, as many segments as it says, one after the other, the parity of their data at the end of a block of 16 bytes, the descriptor where one is asked for, its hash and nothing behind it |
| FlashTables.BuildTableIff | scripts/full_image_validation.py:442-480 | a partition table is accepted if and only if it is the entries of the CSV byte by byte, an MD5 trailer over them, and erased flash |
| FlashTables.ComponentSetIff | scripts/full_image_validation.py:604-670 | a component set is accepted, with these places, if and only if each component is accepted, otadata, app0 and spiffs are each the only partition of their name, the sizes fit them, and the components lie in the flash apart from each other |
| FlashInspector.ParsePartitions | scripts/m0_flash_backup.py:251-281 | the loop over the table returns the entries up to the erased one or the trailer, or the error of the first bad entry |
| FlashInspector.CheckPartitionTable | scripts/m0_flash_backup.py:284-309 | the loop that looks for the trailer decides as the specification: the first trailer, with every earlier entry well-formed and covered by its MD5, or the error that comes first |
| FlashInspector.CheckEspImage | scripts/m0_flash_backup.py:312-360 | segment walk, checksum and appended hash decide as specified |
| FlashInspector.ImageOfPrefix | scripts/m0_flash_backup.py:312-360 | whatever follows the logical end of an accepted image does not change its validation |
| EspImages.InspectorAcceptsIff | scripts/m0_flash_backup.py:312-360 | the inspector accepts an image if and only if it has such segments and parity, and its hash if the header says so; it reports their number, the hash and the logical end |
| EspImages.ClassificationIs | scripts/m0_flash_backup.py:363-411 | a partition is EMPTY if and only if it is erased, VALID and bootable if and only if it holds such an image, PARTIAL if and only if it is programmed and is too short for a header, has an erased one, or the image ends too early (in its segments, before its parity byte or in its hash), and INVALID otherwise |
| FlashTables.InspectorTableIff | scripts/m0_flash_backup.py:284-309 | the inspector accepts a table if and only if a trailer follows some well-formed entries and its MD5 is theirs |
| FlashTables.PartitionsIff | scripts/m0_flash_backup.py:251-281 | it reads exactly the partitions, at least one, whose bytes follow each other up to erased flash, a trailer or the end of the table |
| FlashInspector.CheckNvsItems | scripts/m0_flash_backup.py:455-521 | the loop with its set of consumed entries decides as a specification that only remembers where the last item ended |
| FlashInspector.CheckNvs | scripts/m0_flash_backup.py:414-531 | page by page the counts and errors of non-volatile storage are those specified |
| FlashInspector.ItemsCoverWrittenEntries | scripts/m0_flash_backup.py:455-521 | in an accepted page the items are disjoint and in order, and the entries marked written are exactly those of the items |
| NvsPages.NvsIff | scripts/m0_flash_backup.py:414-531 | non-volatile storage is accepted if and only if it is whole pages, each of them erased or in order |
| NvsPages.PageIff | scripts/m0_flash_backup.py:414-531 | a page in use is in order if and only if its version, its header's CRC and its state are right, no entry has the illegal state, and its written entries are made of good items; it is counted under its state with the number of its items |
| NvsPages.ItemsIff | scripts/m0_flash_backup.py:455-521 | the written entries are accepted if and only if they are made of items in order, each with its span, CRC and, where it has data, the data's size and CRC; there is one such list at most |
| BuildToInspect.TableIsRead | scripts/m0_flash_backup.py:251-309 | a partition table accepted by the build is read by the inspector's separate code as the same entries, with a valid trailer |
| BuildToInspect.FirmwareIsBootable | scripts/m0_flash_backup.py:363-411 | firmware accepted by the build, in a partition of any larger size with any content behind it, is VALID and bootable for the inspector |
| BuildToInspect.SummaryOfInitialRecords | scripts/m0_flash_backup.py:605-695 | for the initial OTA data the summary selects app0, offers no rollback, and lists exactly one issue; `SummaryIs` is about all records |
| OtaSelection.ActiveIsChosen | scripts/m0_flash_backup.py:608-610 | for any records, the active one is selectable, its sequence number is at least that of every selectable record, it is the first of equals, and there is none if and only if none is selectable |
| OtaSelection.RecordIsRead | scripts/m0_flash_backup.py:574-602 | a record is selectable if and only if it has a sequence number, the CRC of it, and a state other than INVALID and ABORTED; it selects the application of its number less one, modulo the applications |
| OtaSelection.SummaryIs | scripts/m0_flash_backup.py:605-695 | for all words of two records and all applications: which record is active, the application it selects and whether that is bootable, the rollback application, the next boot application, PENDING_VERIFY included, and each issue listed, in terms of sequence, state and CRC |
| OtaSelection.CandidatesAreListed | scripts/m0_flash_backup.py:746-751 | the earlier versions listed are exactly the bootable applications other than the selected one that have a record of the state VALID |
| OtaSelection.ReportNamesBootSlot | scripts/m0_flash_backup.py:698-801 | for every image with an OTA application that is reported on, the report names the slots that the words of its two OTA records select in this way |
| FlashReports.ReportIff | scripts/m0_flash_backup.py:698-775 | there is a report if and only if the image has four megabytes at least, entries followed by an end, a trailer with their MD5, the five required partitions at their places (the last of each name counts), non-volatile storage in order, and a file system that the tool accepts |
| FlashReports.AppsAre | scripts/m0_flash_backup.py:717-720 | the applications reported on are exactly the entries of the subtypes ota_0 and ota_1, sorted by subtype, and as listed within one |
| OtaUpdate.UpdatedImageBootsFromApp1 | scripts/m0_flash_backup.py:605-745 | for every device flashed with an accepted build, after an update that writes accepted firmware to app1 and a second record of sequence 2 in any state but INVALID and ABORTED: app1 is selected and bootable, app0 is the application to go back to, and what boots next follows from the state |
| BuildToInspect.AcceptedImageBootsFromApp0 | scripts/full_image_validation.py:604-722 | every full image accepted by the build, for a layout that the inspector requires and whose OTA applications are app0 and app1, is reported with the partitions of the CSV, all non-volatile storage pages empty, app0 selected, VALID and bootable, app1 EMPTY, no rollback; and there is a report if and only if the SPIFFS tool accepts |
| BuildToInspect.BootsFromApp0Iff | scripts/m0_flash_backup.py:698-745 | for every layout that the inspector requires, this is reported if and only if the SPIFFS tool accepts and the applications of the subtypes ota_0 and ota_1 are two, named app0 and app1 in this order, the second one erased in the image; if one partition only is named app1, that is the case if and only if app0 and app1 are the only applications |
| PartitionTable.TableIsAccepted | scripts/full_image_validation.py:442-480 | for every list of partitions that fits the fields and the table, the printed table with its trailer is accepted |
| SpiffsRecovery.ValidatePartitionRanges | scripts/spiffs_usb_recovery.py:217-233 | the loop with its cursor and set of names decides as specified, with the first error |
| SpiffsRecoveryLayouts.RangesAcceptedIff | scripts/spiffs_usb_recovery.py:201-233 | a layout is accepted if and only if names are distinct, ranges are non-empty, inside the flash and pairwise disjoint, in whatever order it is listed |
| SpiffsRecoveryLayouts.PreparedPlanIsAcceptedIff | scripts/spiffs_usb_recovery.py:622-835 | a prepared plan passes the check before execution if and only if the CSV lists the protected partitions in the order of their offsets |
| SpiffsRecoveryChecks.ImageIs | scripts/spiffs_usb_recovery.py:288-325 | an image passes its manifest if and only if the tool unpacks it, it has the size of the partition, is not blank, its assets and its hash are those of the manifest, and profile, layout, offset, size and build of the manifest are those of the plan |
| SpiffsRecoveryChecks.RegionIs | scripts/spiffs_usb_recovery.py:245-263 | the table region of a device is accepted if and only if it lists, in any order, exactly the partitions of the CSV |
| SpiffsRecoveryChecks.PlanIsAcceptedIff | scripts/spiffs_usb_recovery.py:724-835 | a plan is accepted if and only if its token is the digest of its body, its image is accepted by the tool with the manifest's assets, profile, layout, offset and size are those of the CSV, its identity is the profile's, its protected ranges are all others of the CSV, every destructive operation is forbidden, and its backup and the conditions after the write hold; all spelled out without the checks themselves |
| SpiffsRecoveryChecks.PlanIsPreparedIff | scripts/spiffs_usb_recovery.py:622-722 | a plan is prepared if and only if the device is the profile's and the operator's, two reads of its table and of its range agree, the table has the layout of the CSV, and the image is in order |
| SpiffsRecoveryPlans.PlanIsPrepared | scripts/spiffs_usb_recovery.py:622-722 | for every layout the tools accept, every image and every backup there is a prepared plan |
| SpiffsRecoveryPlans.UnorderedPlanIsRefused | scripts/spiffs_usb_recovery.py:724-835 | every such layout that is not in order has a prepared plan that is refused |
| SpiffsRecoveryPlans.UnorderedIsValid | scripts/spiffs_usb_recovery.py:162-233 | a concrete layout, with its application listed before non-volatile storage, is accepted everywhere and not in order |
| SpiffsRecoveryTool.Recovery.Execute | scripts/spiffs_usb_recovery.py:876-964 | the step-by-step execution on the device object has the outcome, write count and device contact of the specification; with a collision-free hash it writes at most once and only inside the range, and on success the range is the image |
| SpiffsRecoveryRuns.WritesIff | scripts/spiffs_usb_recovery.py:876-964 | an invocation writes, once, if and only if arguments, sidecar, evidence, plan, image, device, table and backup all meet their conditions, each spelled out |
| SpiffsRecoveryRuns.OutcomeIs | scripts/spiffs_usb_recovery.py:931-964 | and then it succeeds if and only if the write is complete and both the verification and the readback succeed; what the range holds and what evidence is left, case by case |
| SpiffsRecoveryRuns.InvocationIsSafe | scripts/spiffs_usb_recovery.py:876-964 | with a collision-free hash every invocation writes at most once, only when all those conditions hold and the range holds the backup; nothing outside the SPIFFS range changes in any outcome; on success the range is the source image |
| SpiffsRecoveryRuns.EvidenceStops | scripts/spiffs_usb_recovery.py:899-903 | evidence of an execution stops an invocation before it touches the device |
| SpiffsRecoveryRuns.ChangedIsNotWritten | scripts/spiffs_usb_recovery.py:916-930 | over any sequence of invocations, a range that no longer holds the backup is not written again |
| SpiffsRecoveryRuns.RecoveryIsSafe | scripts/spiffs_usb_recovery.py:876-964 | over any sequence of invocations of a plan nothing outside the range changes, and once one succeeds the range stays the source image |
| SpiffsRecoveryRuns.FirstChangeIsLast | scripts/spiffs_usb_recovery.py:916-941 | the write that first changes the range is the last one of any sequence of invocations |
| Manifest.BuildManifest | scripts/www_asset_manifest.py:68-140 | the loop over the paths has the result of the specification: the rendered manifest and its report, or the first error |
| Manifest.ParseManifest | scripts/www_asset_manifest.py:143-203 | the loop over the records with its set of seen paths has the result of the specification |
| Manifest.HeaderIsReadBack | scripts/www_asset_manifest.py:18-21 | every packed header field is unpacked unchanged |
| Manifest.ManifestIsReadBack | scripts/www_asset_manifest.py:68-203 | whatever is generated is accepted and reported as the same contract and the same paths, sizes and digests in order |
| Manifest.BuildSucceedsIff | scripts/www_asset_manifest.py:68-104 | generation succeeds if and only if schema, ranges and path list are valid and every path is safe, short, free of NUL, readable, valid gzip and below 2^32 bytes |
| Manifest.AcceptedIsRenderedIff | scripts/www_asset_manifest.py:143-203 | an accepted manifest is byte for byte the one generated for its report if and only if its path fields are zero after their first NUL |
| Manifest.GarbageIsAccepted | scripts/www_asset_manifest.py:173-190 | for every asset and every non-zero garbage behind its path, a manifest with it is accepted and reported as that of the asset |
| Manifest.AssetSetNamesManifest | scripts/www_asset_manifest.py:59-65 | two accepted manifests have the same asset-set identifier if and only if they are the same bytes or the identifiers are a SHA-256 collision |
| Manifest.VerifyAssets | scripts/www_asset_manifest.py:206-220 | reports the first asset that fails, and none if and only if for every asset the file below /www/ exists, has the size and the hash, and is gzip |
| Manifest.FilesAreTheOnesListed | scripts/www_asset_manifest.py:206-220 | files pass against a generated manifest if and only if they are the files it was generated from, unless one collides |
| ManifestChecks.InspectionAcceptsIff | scripts/www_asset_manifest.py:143-203 | a manifest is accepted if and only if its header has the format, sizes, ordered versions, checksums and identifier that its bytes require, and its records are those of different paths, each ended by a NUL, UTF-8, of a compressed file below /www/, with the compression and no reserved bit |
| ManifestChecks.ReportSays | scripts/www_asset_manifest.py:143-203 | and what is reported is what those bytes say, field by field |
| Rle565.EncodeRle565Rows | tools/generate_display_boot_branding.py:104-127 | the nested loops yield the encoded runs of each row, or the error of a row that the crop exceeds |
| Rle565.RunsAreMaximal | tools/generate_display_boot_branding.py:114-120 | the runs of a row spell the row, and neighbouring runs differ in colour, so each is as long as it can be |
| Rle565.ImageIsReadBack | tools/generate_display_boot_branding.py:104-127 | decoding gives exactly the cropped pixels row by row |
| Rle565.OutputIsBounded | tools/generate_display_boot_branding.py:120-126 | at most three bytes per pixel, for any image and crop |
| Rle565.CropsInsideAreEncoded | tools/generate_display_boot_branding.py:104-113 | a crop inside the image is always encoded, with all its pixels |
| Rle565Pixels.EncodedIff | tools/generate_display_boot_branding.py:104-113 | every outcome of the encoder: a length other than two bytes a pixel is refused; otherwise it succeeds if and only if the crop is empty or its last row ends inside the image, and fails with an index error if not |
| Rle565Pixels.PixelIsShown | tools/generate_display_boot_branding.py:104-127 | pixel (x, y) of the decoded logo is pixel (left + x, top + y) of the image, read from its two bytes, for every crop that is encoded |
| OledCrop.CropLogo | tools/generate_display_boot_branding.py:67-82 | the packed bitmap shows exactly the source's pixels of the rectangle, and its padding is blank |
| OledCrop.CropIsUnique | tools/generate_display_boot_branding.py:67-82 | that description determines every byte of the bitmap |
| OneButton.PushButton.DoTick | src/OneButton/OneButton.cpp:244-363 | one tick on the object's fields, with the 32-bit wait, is the specification's step, and its events continue the alternation of press start and stop |
| OneButton.PressesAlternate | src/OneButton/OneButton.cpp:260-355 | over all runs long-press start and stop alternate, very long is reported at most once in between, and no click while a press is open |
| OneButton.ResetReportsOneEnd | src/OneButton/OneButton.cpp:202-209 | a tick resets the button if and only if it reports exactly one click kind or the long-press stop |
| OneButton.ClickKind | src/OneButton/OneButton.cpp:278-319 | the kind of click reported is the number of short presses counted since the last reset |
| OneButton.WrappingIsHarmless | src/OneButton/OneButton.cpp:246-247 | the wrapping clock gives the same events and states as an unbounded one while every wait is below 2^32 ms |
| OneButtonGestures.ClicksAreReported | src/OneButton/OneButton.cpp:244-363 | any number of short presses below the maximum, with ticks at any times and bouncing contacts, and then a pause longer than the click time, are reported once, as click, double click or multiple click, and leave the button as it was at first |
| OneButtonGestures.LastClickIsReportedAtOnce | src/OneButton/OneButton.cpp:292-319 | once the maximum is counted the next tick without contact reports it, without a pause |
| OneButtonGestures.LongPressIsReported | src/OneButton/OneButton.cpp:321-355 | a press beyond the press time is reported by its start, by every tick while it is held, once by the very long press when that time is over, and by its stop when it is released |
| OneButtonGestures.BlipsAreIgnored | src/OneButton/OneButton.cpp:260-300 | a contact shorter than the debounce time reports nothing and counts as no press, and a shorter gap ends no press |
| OneButtonGestures.SettledReleaseCounts | src/OneButton/OneButton.cpp:278-355 | a release that has settled counts as a press, or ends a long one, even if there is contact again at that tick |
| OneButtonGestures.NothingWithoutContact | src/OneButton/OneButton.cpp:251-258 | without contact a button at rest reports nothing, whatever the ticks |

## Left out

- Allocation failure, and `add` or `send` failing inside the window: the writers count or drop bytes there; the models take both to succeed.
- Boundaries of 256 characters or more: the parser counts the boundary position in 8 bits. RFC 2046 allows 70.
- Octets of a request body are `char` values; request lines, headers, URL-encoded bodies and the 32-bit wrap of the parsed length are not modelled.
- ClosedSlotSafety.CallsAreSafe: has one call per client at a time, as with one service task; outgoing connections, `operator=` and reconnecting a client are not steps. Taking off the five callbacks of a PCB is one step, which rests on TCP_MUTEX_LOCK; below Arduino core 3.1.0, the case of the pinned platform, that macro is empty (`src/AsyncWebServer/AsyncTCP.cpp:39-52`), and a callback between two of the five calls is not part of this model.
- EventQueueProtocol.QueueIsSafe: the service task is not also a producer (the queueing of its own clear events is not a step), and queue creation is taken to have succeeded.
- EventQueueBlocking.SomeTaskProceeds: handlers wait for lwIP calls only; locks that user callbacks take are not part of this model.
- LockOrder.NoDeadlock: event handlers and waits inside lwIP are not lock operations of the model, nor are locks that a `forEachClient` handler takes outside these three classes; a task runs one method, with all that its handler calls.
- WebLock.MutualExclusion: what the scheduler's field for the running task shows is a parameter, the names that a task can read; the declaration reads it as one pointer, and on two cores it is a field per core in an array.
- The ESP8266 variant of the lock does nothing and is not modelled.
- WebSocketFrame.WebSocketSendFrame: frames of 2^32 bytes or more do not occur at the call sites; a failed allocation or a failed write inside the room is left out.
- WebSocketAccounting.AccountsBalance: an acknowledgement that splits a control frame is excluded there and is the subject of `SplitControlAck`; masked control frames have no call site; basic and multi messages differ only in `==` and `>=` of equal values and are one model.
- WebSocketRoundTrip.StreamIsReadBack: after a buffer that ends inside a header the code has read foreign memory and the model stops; the payload of a control frame that is split over buffers is reported as data, and such cuts are excluded; there is one close frame at most, and none of a single byte. `WebSocketControls` is about those cuts and close frames.
- Printing helpers (`printf`, `text`, `binary`), handshake and SHA-1 of the WebSocket server: no state of their own.
- Chunked responses, template expansion, file lookup and header names of HTTP responses.
- EventSourceRoundTrip.EventIsReadBack: messages are C strings, so without NUL; event names have no line breaks.
- EventSourceQueue.MessagesArriveInOrder: excludes overtaking; `MessagesAreLostIff` is about all runs.
- BuildToInspect.AcceptedImageBootsFromApp0: CSV parsing, the firmware's validation manifest, identity tokens, ELF checks and mkspiffs are parameters; component files are read once.
- The JSON reports, paths, sidecar files and file permissions of the flash scripts; udev, serial ports and esptool processes.
- SpiffsRecoveryRuns.InvocationIsSafe: the device is an ideal flash array, files do not change during an invocation, and canonical spellings of addresses and hashes are taken as given.
- Manifest.ManifestIsReadBack: paths are given by their UTF-8 encoding, so strings that have none are not contracts; the decompressed size in the report is omitted; the reader of the contract header is not modelled.
- OneButton: pins, callbacks with parameters and the setters of the intervals, which only store values.
- Display drivers, web sources, fonts, locale, profiles, the main program and the MQTT client.
