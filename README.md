# Intersocket reliability engine in Dafny

This project models the engine at the centre of the Intersocket WebSocket
messaging client. It covers:

- the lifecycle of an outbound message (`MessageFrame`);
- the ordered buffer of messages awaiting delivery or a reply (`MessageBuffer`);
- the client that reconciles that buffer on every tick and reacts to what the transport reports (`Intersocket`);
- the text envelope `463` + two-digit type + JSON body, the binary-attachment layout and the readiness gate of the transport (`SocketTransport`);
- the small registries (`SubscriberRegistry`, `MultiConsumer`, `OperationsBuffer`) and the option defaults (`Configuration`).

Modules and files:

| module | file | models |
|---|---|---|
| `Wrappers` | `wrappers.dfy` | `Option` and `Result` |
| `Seqs` | `seqs.dfy` | sequence helpers: `indexOf`, filtering, removal, de-duplicated append |
| `Listeners` | `listeners.dfy` | JavaScript values; callbacks as recorded invocations that may throw |
| `MessageFrames` | `message_frame.dfy` | `src/MessageFrame.js` |
| `MessageBuffers` | `message_buffer.dfy` | `src/MessageBuffer.js` |
| `Envelope` | `envelope.dfy` | the pure codec of `src/SocketTransport.js` |
| `Transports` | `socket_transport.dfy` | the stateful part of `src/SocketTransport.js` |
| `Reconciliation` | `tick.dfy` | the reference definition of one `_tick` |
| `Client` | `intersocket.dfy` | `src/Intersocket.js` |
| `Subscribers` | `subscriber_registry.dfy` | `src/SubscriberRegistry.js` |
| `MultiConsumers` | `multi_consumer.dfy` | `src/MultiConsumer.js` |
| `Operations` | `operations_buffer.dfy` | `src/OperationsBuffer.js` |
| `Configurations` | `configuration.dfy` | `src/Configuration.js` |

The source changes objects in place, and so does the model. `MessageFrame`, `MessageBuffer`,
`SubscriberRegistry`, `MultiConsumer`, `OperationsBuffer`, `SocketTransport`
and `Intersocket` are classes whose methods update their fields.

- Each frame's fields are also available as a value, `Frame` (`MessageFrame.State()`). The transitions on that value are the specification functions the methods are proved against.
- The buffer of frames is a sequence of frame objects. Its contents are described through `StatesOf`.
- One tick has a reference definition, `Reconciliation.Tick`, over a sequence of frame values. The client's `Tick` method is proved to produce exactly that outcome.

Callbacks are `Listener` values: a handle plus whether invoking the callback throws. Running a list of handlers records the calls and stops at the first that throws, as a `for … of` loop without `catch` does.

The consumers the application registers on the client are represented by a log of `ClientEvent`s. The transport's outgoing messages are an outbox sequence. The clock, the fresh ids and the reconnect timer are parameters or explicit steps.

## Model

| member | source | states |
|---|---|---|
| Listeners.RunStopsAtFirstFailure | src/MessageFrame.js:37-41 | running handlers calls them in order with the same arguments, throws iff some handler throws, calls all of them when none throws, and stops right after the first that throws |
| Listeners.RunCallsInOrder | src/MessageFrame.js:37-41 | the k-th call is to the k-th handler; a run that throws ends at a throwing handler and every earlier handler returned normally |
| Listeners.RunThrowsIffSomeFails | src/MessageFrame.js:37-41 | an exception escapes a handler run exactly when one of the handlers throws |
| Listeners.Calls | src/MultiConsumer.js:9-13 | the invocation list of every listener once, in order, with the given arguments |
| Listeners.RunWithoutFailure | src/MultiConsumer.js:9-13 | a run throws iff some listener fails; with no failing listener it is the full in-order invocation list |
| Listeners.SequentialRunsFinally | src/MessageFrame.js:137-141 | with a try/finally pair of lists, every finally handler is still called when the first list throws, and the pair throws iff some handler of either list throws |
| Listeners.RunAppend | src/MessageFrame.js:37-41 | running a concatenation is running the first list and, only if it did not throw, then the second |
| Listeners.Invoke | src/MultiConsumer.js:9-13 | the loop over listeners records exactly the calls of the reference run and reports whether one threw |
| MessageFrames.NewFrameIsIdle | src/MessageFrame.js:6-35 | a new frame has no timestamps, timeouts or transport, no flag set, can still be handled and satisfies the frame invariant |
| MessageFrames.ScheduleOnce | src/MessageFrame.js:83-112 | `send`/`notify` succeed iff the frame is neither ready nor sent and the payload is not binary; the error distinguishes the two refusals; success stores the payload, sets ready (and notification for `notify`), changes nothing else, and a second schedule is refused |
| MessageFrames.CompletionRunsFinally | src/MessageFrame.js:130-183 | a completion of a cancelled or finalized frame does nothing; otherwise it finalizes the frame, runs its own handler list then the finally list even if the first throws, and throws iff a handler of either list throws |
| MessageFrames.RescheduleClearsDelivery | src/MessageFrame.js:119-128 | rescheduling clears sent, acknowledged and response times and the transport and nothing else, does nothing to a cancelled or finalized frame, and keeps the frame invariant |
| MessageFrames.AcknowledgeIgnoresFinalization | src/MessageFrame.js:185-192 | acknowledgement is gated only by cancellation: it records the time and runs the acknowledged handlers even on a finalized frame and never changes finalization |
| MessageFrames.TimedChecksAgreeOnceSent | src/MessageFrame.js:194-210 | for a sent frame the corrected timeout predicates agree with the source's; no timeout or an arrived response/acknowledgement means not timed; an unsent frame is never timed in the corrected predicates |
| MessageFrames.UnsentFrameTimesOutAsWritten | src/MessageFrame.js:200 | as written, an unsent frame whose timeout is 100 counts as timed out at time 1000, and as not timed out under the corrected predicate; likewise for the acknowledgement timeout (line 209) |
| MessageFrames.TimedIsMonotonic | src/MessageFrame.js:194-210 | once a frame is timed out, it stays timed out at every later time |
| MessageFrames.OnceFinishedAlwaysFinished | src/MessageFrame.js:212-214 | after a frame can no longer be handled, no sequence of operations completes it again or runs a completion handler |
| MessageFrames.AtMostOneCompletion | src/MessageFrame.js:130-183 | over any sequence of operations at most one completion is accepted, and none runs handlers unless one is accepted |
| MessageFrames.ApplyKeepsValid | src/MessageFrame.js:83-192 | every operation on a frame keeps its invariant (sent time exactly when a transport is recorded, no binary payload, a notification is ready) and its id and topic |
| MessageFrames.MessageFrame.constructor | src/MessageFrame.js:6-35 | the fields are those of a new, idle frame |
| MessageFrames.MessageFrame.WithAcknowledgeTimeout | src/MessageFrame.js:43-46 | sets the acknowledgement timeout, or clears it for `null` or `undefined` (`None`), and nothing else |
| MessageFrames.MessageFrame.WithTimeout | src/MessageFrame.js:48-51 | sets the response timeout, or clears it for `null` or `undefined` (`None`), and nothing else |
| MessageFrames.MessageFrame.AddHandler | src/MessageFrame.js:53-81 | appends the handler to the chosen list only |
| MessageFrames.MessageFrame.Send | src/MessageFrame.js:83-96 | succeeds and schedules exactly when scheduling is allowed; otherwise returns the refusal and leaves the frame unchanged |
| MessageFrames.MessageFrame.Notify | src/MessageFrame.js:98-112 | as `Send`, and a successful call also marks the frame a notification |
| MessageFrames.MessageFrame.Cancel | src/MessageFrame.js:114-117 | sets the cancelled flag and nothing else |
| MessageFrames.MessageFrame.Reschedule | src/MessageFrame.js:119-128 | the new fields are the rescheduled frame |
| MessageFrames.MessageFrame.Finish | src/MessageFrame.js:130-183 | performs the completion of the given kind: new fields, calls and thrown flag are the reference completion's |
| MessageFrames.MessageFrame.Complete | src/MessageFrame.js:130-142 | the completion with the complete handlers and the response payload |
| MessageFrames.MessageFrame.CompleteFailed | src/MessageFrame.js:144-155 | the completion with the error handlers and the error |
| MessageFrames.MessageFrame.CompleteTimed | src/MessageFrame.js:157-169 | the completion with the timed handlers and no argument |
| MessageFrames.MessageFrame.CompleteAcknowledgedTimed | src/MessageFrame.js:171-183 | the completion with the acknowledgement-timed handlers and no argument |
| MessageFrames.MessageFrame.Acknowledge | src/MessageFrame.js:185-192 | new fields, calls and thrown flag are those of the reference acknowledgement |
| MessageFrames.MessageFrame.Respond | src/MessageFrame.js:130-192 | an acknowledgement or completion applied in place equals the reference transition and keeps the invariant |
| MessageBuffers.StatesOf | src/MessageBuffer.js:6-9 | the k-th state is the k-th buffered frame's fields |
| MessageBuffers.PositionOf | src/MessageBuffer.js:94-96 | -1 iff no frame has the id; otherwise the first position holding it |
| MessageBuffers.Retain | src/MessageBuffer.js:16-63 | the selected frames are buffered frames satisfying the predicate, and every buffered frame satisfying it is selected |
| MessageBuffers.Drop | src/MessageBuffer.js:120-168 | the kept frames are buffered frames failing the predicate, and every such frame is kept |
| MessageBuffers.RetainStates | src/MessageBuffer.js:16-63 | the states of a selection are the buffer's states filtered by the predicate, in buffer order |
| MessageBuffers.DropStates | src/MessageBuffer.js:120-168 | the states after dropping are the buffer's states without those matching, relative order kept |
| MessageBuffers.RetainDistinctIds | src/MessageBuffer.js:16-63 | a selection of a buffer with distinct ids has distinct ids |
| MessageBuffers.WithoutDistinctIds | src/MessageBuffer.js:175-186 | removing frames keeps the ids distinct |
| MessageBuffers.WithoutRetained | src/MessageBuffer.js:120-186 | splicing out the frames a predicate selects leaves exactly the frames failing it, in order |
| MessageBuffers.RemovalOutcome | src/MessageBuffer.js:120-186 | removing the selected frames equals dropping them, and its states are the old states with the matching ones rejected |
| MessageBuffers.RejectNothing | src/MessageBuffer.js:146-155 | no frame carries the discard-if-offline mark, so discarding by it removes nothing |
| MessageBuffers.MessageBuffer.constructor | src/MessageBuffer.js:6-9 | starts empty |
| MessageBuffers.MessageBuffer.Size | src/MessageBuffer.js:77-79 | the number of buffered frames |
| MessageBuffers.MessageBuffer.AllUnsent | src/MessageBuffer.js:69-71 | exactly the ready, unsent frames, in buffer order (also the frames `forEachNotSent` visits, lines 16-21) |
| MessageBuffers.MessageBuffer.Timed | src/MessageBuffer.js:28-33 | exactly the frames whose response timeout has expired by the corrected `IsTimed` (counted from the send), in buffer order |
| MessageBuffers.MessageBuffer.AcknowledgedTimed | src/MessageBuffer.js:40-45 | exactly the frames whose acknowledgement timeout has expired by the corrected `IsAcknowledgedTimed` (counted from the send), in buffer order |
| MessageBuffers.MessageBuffer.WithLostTransport | src/MessageBuffer.js:53-63 | exactly the frames that are sent, on another transport, ready, and neither cancelled nor finalized, in buffer order |
| MessageBuffers.MessageBuffer.FrameWithId | src/MessageBuffer.js:94-96 | none iff no frame has the id; otherwise the first buffered frame with it |
| MessageBuffers.MessageBuffer.FrameWithIdAt | src/MessageBuffer.js:94-96 | the frame found is the one at `PositionOf` of the states |
| MessageBuffers.MessageBuffer.ApplyAt | src/MessageBuffer.js:94-96 | an operation on the i-th frame changes only that frame's state, as the reference transition does |
| MessageBuffers.MessageBuffer.ApplyToId | src/MessageBuffer.js:94-96 | looks the id up; absent: nothing changes and nothing runs; present: only the first frame with the id takes the reference transition |
| MessageBuffers.MessageBuffer.AllForTopic | src/MessageBuffer.js:112-114 | the first frame with the topic, or none iff there is none; with no topic given it is none |
| MessageBuffers.MessageBuffer.HasForTopic | src/MessageBuffer.js:103-105 | true iff some buffered frame has the topic |
| MessageBuffers.MessageBuffer.FramesForTopic | src/MessageBuffer.js:112-114 | exactly the buffered frames of the topic (the intended list) |
| MessageBuffers.TopicLookupsAgree | src/MessageBuffer.js:103-114 | `hasForTopic` holds iff the topic's list is non-empty, and then `allForTopic` returns its first frame |
| MessageBuffers.MessageBuffer.RemoveFrames | src/MessageBuffer.js:175-186 | removes exactly the listed frames that are present, skips the rest, keeps the order and never touches a frame |
| MessageBuffers.MessageBuffer.RemoveWhere | src/MessageBuffer.js:120-168 | every remaining frame was buffered, the remaining states are the old ones without those matching the predicate, order kept, ids still distinct |
| MessageBuffers.MessageBuffer.RemoveFinalized | src/MessageBuffer.js:120-127 | removes exactly the finalized frames, keeping the order of the rest |
| MessageBuffers.MessageBuffer.RemoveCancelled | src/MessageBuffer.js:133-140 | removes exactly the cancelled frames, keeping the order of the rest |
| MessageBuffers.MessageBuffer.RemoveOnlineOnly | src/MessageBuffer.js:146-155 | removes nothing: no frame ever carries the discard-if-offline mark |
| MessageBuffers.MessageBuffer.RemoveAcknowledgedNotifications | src/MessageBuffer.js:161-168 | removes exactly the acknowledged notifications, keeping the order of the rest |
| MessageBuffers.MessageBuffer.EnqueueAsWritten | src/MessageBuffer.js:193-201 | as written, always appends the frame: the guard on `frame.id` never matches |
| MessageBuffers.DuplicateEnqueuedAsWritten | src/MessageBuffer.js:194 | as written, two frames with the same id are both buffered, breaking distinct ids |
| MessageBuffers.MessageBuffer.Enqueue | src/MessageBuffer.js:193-201 | appends the frame iff no buffered frame has its id, else leaves the buffer; ids stay distinct |
| MessageBuffers.DuplicateIgnored | src/MessageBuffer.js:193-201 | the corrected enqueue buffers a duplicate id once |
| Envelope.DecimalRoundTrip | src/SocketTransport.js:21-34 | parsing `toString(10)` of a number gives the number back |
| Envelope.TypeStrings | src/SocketTransport.js:6-34 | each type code prints as its two-character string, "10" to "21" |
| Envelope.HeaderLayout | src/SocketTransport.js:6-34 | every header is 5 characters: "463" followed by the type, which parses back; distinct types give distinct headers |
| Envelope.EncodeFrame | src/SocketTransport.js:66-77 | fails iff the payload is binary; otherwise header "46312" and a body of id, topic, payload and notification flag |
| Envelope.SerializedTypeRecovered | src/SocketTransport.js:66-89 | every handshake, topic sync or message the client serialises is at least 5 long, starts "463", and characters 3-4 recover its type |
| Envelope.Classify | src/SocketTransport.js:156-163 | foreign iff shorter than 5 or not starting with "463"; otherwise the type is characters 3-4 and the body characters 5 onwards |
| Envelope.ClassifyHeader | src/SocketTransport.js:156-210 | text made of a header and a body classifies to the route of that header's type and that body |
| Envelope.RouteTable | src/SocketTransport.js:165-208 | "11" handshake, "13" ack, "14" reply, "15" ident, "16" platform, "17" broadcast, "18" server error, "19" message error |
| Envelope.RouteUnknownCodes | src/SocketTransport.js:210 | the client-to-server codes and "21" arriving as text are unknown types |
| Envelope.DecodeByte | src/SocketTransport.js:147 | ASCII decoding maps bytes below 0x80 to the same code and no other byte to one below 0x80 |
| Envelope.DecodeText | src/SocketTransport.js:147 | decoding is byte by byte, one character per byte |
| Envelope.AsciiBytes | src/SocketTransport.js:129-144 | the bytes of an ASCII string are its character codes |
| Envelope.DecodeAscii | src/SocketTransport.js:129-150 | decoding the bytes of an ASCII string gives the string back |
| Envelope.AttachmentRoundTrip | src/SocketTransport.js:129-144 | a blob of "46321", a 36-character id and bytes splits back into that id and those bytes |
| Envelope.AttachmentNeedsHeader | src/SocketTransport.js:129-135 | a blob is an attachment iff its first 5 bytes read "46321" |
| Transports.Dispatch | src/SocketTransport.js:121-210 | every datum is first reported as a message; text is foreign or dispatched by type; other data is a binary message, and a blob with the attachment header also yields its attachment |
| Transports.DispatchAsWrittenDiffers | src/SocketTransport.js:210 | the source's dispatch differs from the intended one exactly for well-formed text of an unknown type |
| Transports.UnknownTypeThrowsAsWritten | src/SocketTransport.js:210 | as written, "46399{}" throws after the message event instead of reporting an unknown type |
| Transports.SocketTransport.constructor | src/SocketTransport.js:40-64 | a new transport is connecting, has no handshake, has sent nothing and is not ready |
| Transports.SocketTransport.OnSocketOpen | src/SocketTransport.js:112-115 | on open, the handshake is sent |
| Transports.SocketTransport.OnSocketClosed | src/SocketTransport.js:117-119 | on close, the socket is closed and the transport is no longer ready |
| Transports.SocketTransport.OnSocketMessage | src/SocketTransport.js:121-211 | reports `Dispatch` of the datum and stores the body of a handshake reply, nothing else |
| Transports.SocketTransport.SynchronizeTopics | src/SocketTransport.js:217-225 | sends the topic list iff ready, otherwise does nothing |
| Transports.SocketTransport.SendFrame | src/SocketTransport.js:227-236 | when not ready it fails and sends nothing; a binary payload fails; otherwise the encoded frame is sent |
| Transports.Connect | src/SocketTransport.js:318-320 | after open and a handshake reply the transport is ready (open socket and a handshake received) |
| MultiConsumers.MultiConsumer.constructor | src/MultiConsumer.js:5-7 | starts with no consumers |
| MultiConsumers.MultiConsumer.Consume | src/MultiConsumer.js:9-13 | invokes the consumers in registration order with the same arguments, stopping at one that throws |
| MultiConsumers.MultiConsumer.Add | src/MultiConsumer.js:15-21 | appends a consumer not yet registered, else nothing; never creates a duplicate |
| MultiConsumers.MultiConsumer.Remove | src/MultiConsumer.js:23-30 | deletes the consumer if registered, else nothing; no duplicate arises |
| MultiConsumers.ConsumeInvokesEachOnce | src/MultiConsumer.js:9-21 | when none throws, every consumer is invoked exactly once, in order, and no two calls coincide |
| MultiConsumers.AddRemoveProperties | src/MultiConsumer.js:15-30 | adding twice is adding once; after remove the consumer is absent and the others keep their order; removing a freshly added consumer restores the list |
| Operations.OperationsBuffer.constructor | src/OperationsBuffer.js:2-4 | starts empty |
| Operations.OperationsBuffer.Append | src/OperationsBuffer.js:6-8 | the operation goes at the end |
| Operations.OperationsBuffer.ForEach | src/OperationsBuffer.js:10-14 | the consumer sees the operations in insertion order, stopping if it throws |
| Operations.VisitInOrder | src/OperationsBuffer.js:10-14 | a consumer that does not throw is called once per operation, in order; one that throws is called only on the first |
| Operations.OperationsBuffer.Remove | src/OperationsBuffer.js:16-19 | splices one element at the index `indexOf` returns, including -1 |
| Operations.RemoveCases | src/OperationsBuffer.js:16-19 | a present operation loses its first occurrence only; an absent one removes the last element; an empty buffer stays empty |
| Operations.RemoveAbsentDropsLast | src/OperationsBuffer.js:17-18 | removing 3 from [1, 2] leaves [1] |
| Operations.OperationsBuffer.RemoveGuarded | src/OperationsBuffer.js:16-19 | deletes the first occurrence if present, otherwise leaves the buffer |
| Operations.GuardedRemoveAgrees | src/OperationsBuffer.js:16-19 | the guarded removal equals `remove` for a present operation and is a no-op for an absent one |
| Operations.OperationsBuffer.Clear | src/OperationsBuffer.js:21-23 | empties the buffer |
| Configurations.NumberOr | src/Configuration.js:3-4 | a set, non-zero number passes through; absent or 0 gives the default |
| Configurations.Configure | src/Configuration.js:2-7 | tick interval defaults to 5, reconnect interval to 1000, url to none when absent or empty, subscribers to none; given values pass through |
| Configurations.ConfigureIsIdempotent | src/Configuration.js:2-7 | a configuration has non-zero intervals and no empty url, and configuring it again changes nothing |
| Subscribers.Topics | src/SubscriberRegistry.js:48 | the topics of the pairs, in registration order |
| Subscribers.ConsumersFor | src/SubscriberRegistry.js:18-22 | a consumer is listed iff it is registered for the topic |
| Subscribers.ConsumersForAppend | src/SubscriberRegistry.js:18-22 | registering a pair appends its consumer to its own topic's list and changes no other list, so lists are in registration order |
| Subscribers.KnownTopics | src/SubscriberRegistry.js:45-53 | each registered topic exactly once |
| Subscribers.KnownTopicsInFirstRegistrationOrder | src/SubscriberRegistry.js:45-53 | the known topics are in the order of each topic's first registration |
| Subscribers.TopicsRepeatedAsWritten | src/SubscriberRegistry.js:48-50 | as written, two consumers on "a" give the topic list ["a", "a"]; the intended list is ["a"] |
| Subscribers.SubscribeAllProperties | src/SubscriberRegistry.js:24-30 | registering pairs one by one keeps them free of duplicates and registers exactly the old and the new pairs |
| Subscribers.SubscribeAllAppend | src/SubscriberRegistry.js:24-30 | registering two batches in turn is registering their concatenation |
| Subscribers.PairsOf | src/SubscriberRegistry.js:12-14 | the pairs of one topic and its subscribers, in order |
| Subscribers.SeedingRegistersEveryPair | src/SubscriberRegistry.js:5-16 | seeding from the configuration gives a duplicate-free list holding exactly the configured (topic, subscriber) pairs |
| Subscribers.PairsMembership | src/SubscriberRegistry.js:7-15 | a pair comes from the table iff its consumer is listed under its topic |
| Subscribers.SubscriberRegistry.constructor | src/SubscriberRegistry.js:5-16 | the registry is the configured pairs registered by `subscribe` in table order |
| Subscribers.SubscriberRegistry.SubscribeEach | src/SubscriberRegistry.js:12-14 | subscribing a topic's consumers in order equals registering their pairs one by one |
| Subscribers.SubscriberRegistry.IndexOf | src/SubscriberRegistry.js:41-43 | -1 iff the pair is absent, otherwise a position holding it |
| Subscribers.SubscriberRegistry.SubscribersFor | src/SubscriberRegistry.js:18-22 | a consumer is returned iff it is registered for the topic |
| Subscribers.SubscriberRegistry.Subscribe | src/SubscriberRegistry.js:24-30 | appends the pair iff it is absent; no duplicate pairs |
| Subscribers.SubscriberRegistry.UnsubscribeAsWritten | src/SubscriberRegistry.js:33 | as written, always throws a TypeError (`_indexOf` is undefined) |
| Subscribers.SubscriberRegistry.Unsubscribe | src/SubscriberRegistry.js:32-39 | removes only the matching pair; an absent pair is a no-op; no duplicates arise |
| Subscribers.SubscriberRegistry.GetKnownTopicsAsWritten | src/SubscriberRegistry.js:45-53 | as written, the result is every pair's topic, repetitions included |
| Subscribers.SubscriberRegistry.GetKnownTopics | src/SubscriberRegistry.js:45-53 | the distinct topics in first-registration order |
| Reconciliation.SweepAll | src/MessageBuffer.js:16-63 | a pass over the frames keeps their number |
| Reconciliation.SelectedFrames | src/MessageBuffer.js:16-63 | exactly the frames a pass acts on |
| Reconciliation.SweepThrows | src/Intersocket.js:498-521 | a pass throws iff the visit of some selected frame throws |
| Reconciliation.SweepPointwise | src/Intersocket.js:498-521 | a pass that does not throw changes each frame independently of the others |
| Reconciliation.SweepOutputs | src/Intersocket.js:498-521 | only the send pass sends, only the reschedule pass reports rescheduled frames, and neither runs frame handlers |
| Reconciliation.SweepReschedules | src/Intersocket.js:507-514 | the reschedule pass never throws and reports exactly the lost-transport frames, in order |
| Reconciliation.SweepSends | src/Intersocket.js:517-521 | a send pass sends the encodings of exactly the unsent frames, in buffer order |
| Reconciliation.TouchedKeeps | src/Intersocket.js:498-521 | a pass preserves a frame's identity, payload, flags other than finalization, handlers, and its invariant |
| Reconciliation.Fates | src/Intersocket.js:493-525 | each surviving frame's outcome depends only on that frame |
| Reconciliation.TickIsPerFrame | src/Intersocket.js:493-525 | a tick that does not throw keeps those frames that are not cancelled or acknowledged notifications, gives each its own fate, and drops the finalized; the timeout passes select by the corrected `IsTimed` and `IsAcknowledgedTimed` |
| Reconciliation.SurvivorsOf | src/Intersocket.js:498-499 | after the first two removals, exactly the frames that are neither cancelled nor acknowledged notifications remain |
| Reconciliation.FrameNeverThrows | src/Intersocket.js:500-522 | a valid frame whose timeout, acknowledgement-timeout and finally handlers do not throw never makes a pass throw |
| Reconciliation.TickNeverThrows | src/Intersocket.js:493-525 | with such frames a tick never throws |
| Reconciliation.OfflineTickSendsNothing | src/Intersocket.js:503-505 | a tick with the transport not ready sends and reschedules nothing |
| Reconciliation.FateOfUnsent | src/Intersocket.js:517-521 | when ready, an unsent, non-binary frame gets sent now on the current transport; under the corrected timeout checks no timeout pass selects it first |
| Reconciliation.FateOfCurrent | src/Intersocket.js:508 | a frame sent on the current transport keeps its send time and transport |
| Reconciliation.FateOfLost | src/Intersocket.js:507-521 | when ready, a frame lost with a replaced transport is rescheduled and resent now on the current one |
| Reconciliation.FateOfTimedOut | src/Intersocket.js:500-501 | a live frame whose timeout has expired ends finalized |
| Reconciliation.FateOffline | src/Intersocket.js:503-505 | when offline no frame's send time or transport changes |
| Reconciliation.FateWhenReady | src/Intersocket.js:507-522 | when ready, every live frame that is ready ends sent on the current transport, and the frame invariant holds |
| Reconciliation.ReadyTickLeavesAllSent | src/Intersocket.js:493-525 | after a ready tick of the corrected tick every remaining frame is live and valid, and every ready one is sent on the current transport |
| Reconciliation.ReadyTickSendsUnsent | src/Intersocket.js:517-521 | after a ready tick of the corrected tick every frame that was ready, unsent and live is present, sent now on the current transport |
| Reconciliation.TimeoutSweepsAgreeOnceSent | src/MessageFrame.js:194-210 | over frames that have all been sent, each timeout pass as written equals the corrected one, and the response pass leaves them sent |
| Reconciliation.TickAgreesOnceSent | src/Intersocket.js:493-525 | when every buffered frame has been sent, the tick as written and the corrected tick have the same outcome |
| Reconciliation.UnsentFrameTimedOutByTickAsWritten | src/Intersocket.js:500-522 | as written, a ready unsent frame with timeout 100 at time 1000 is finalized with its timed handler run, still sent, and dropped; corrected, it is sent with no handler run and stays |
| Reconciliation.TouchedKeepsCancel | src/Intersocket.js:493-525 | a tick never cancels a frame |
| Client.RescheduledEvents | src/Intersocket.js:513 | one rescheduled event per rescheduled frame, in order |
| Client.RescheduledEventsAppend | src/Intersocket.js:507-514 | the events of consecutive reschedules concatenate |
| Client.EventLog.constructor | src/Intersocket.js:30-51 | no event emitted yet |
| Client.EventLog.Emit | src/MultiConsumer.js:9-13 | appends the event |
| Client.Failing | src/Intersocket.js:804-813 | exactly the subscribers that throw, in order |
| Client.FanOut | src/Intersocket.js:802-813 | every subscriber is called once, in order, even after one throws, and the errors of exactly the throwing ones are collected |
| Client.FanOutReachesEveryone | src/Intersocket.js:802-813 | the fan-out calls everyone; no errors iff none throws; it calls at least as many as a plain run |
| Client.SweepIsCombine | src/MessageBuffer.js:16-63 | a pass is the combination of the per-frame visits |
| Client.Intersocket.constructor | src/Intersocket.js:19-64 | configured from the options, empty buffer, registry seeded from the configuration, a fresh transport not ready, state 'new', ident and platform null |
| Client.Intersocket.CreateFrame | src/Intersocket.js:77-86 | disposed: returns nothing and leaves the buffer; otherwise returns a new frame with the topic, enqueued with the corrected guard |
| Client.Intersocket.IfNoPendingAsWritten | src/Intersocket.js:108-122 | as written, a pending topic hands `onExists` no frame (`allForTopic()` has no topic); otherwise a created frame |
| Client.Intersocket.IfNoPending | src/Intersocket.js:108-122 | disposed: nothing; a pending topic hands over the non-empty list of its frames and leaves the buffer; otherwise a new frame is created and enqueued |
| Client.Intersocket.Subscribe | src/Intersocket.js:132-141 | disposed: nothing; otherwise registers the pair and, when ready, sends the corrected known topics `KnownTopics` (each topic once) |
| Client.Intersocket.UnsubscribeAsWritten | src/Intersocket.js:150-154 | as written, throws a TypeError from the registry |
| Client.Intersocket.Unsubscribe | src/Intersocket.js:150-154 | removes the pair by the corrected registry removal and, when ready, sends the corrected known topics `KnownTopics` |
| Client.Intersocket.Dispose | src/Intersocket.js:163-174 | marks the client disposed and changes nothing else |
| Client.Intersocket.VisitFrame | src/Intersocket.js:498-521 | visiting one frame equals the reference visit, sending and reporting exactly its outputs |
| Client.Intersocket.SweepFrames | src/MessageBuffer.js:16-63 | a loop over the buffer equals the reference pass: states, calls, sends and rescheduled events |
| Client.Intersocket.RemoveSettled | src/Intersocket.js:498-499 | removing cancelled frames then acknowledged notifications leaves the survivors |
| Client.Intersocket.TimeOutPasses | src/Intersocket.js:500-501 | the two timeout passes, the second only if the first did not throw |
| Client.Intersocket.DeliveryPasses | src/Intersocket.js:507-522 | reschedule then send, appending both outputs |
| Client.Intersocket.SettleOffline | src/Intersocket.js:503-505 | offline removal and then removal of finalized frames |
| Client.Intersocket.SettleOnline | src/Intersocket.js:507-524 | delivery passes and then removal of finalized frames |
| Client.Intersocket.Settle | src/Intersocket.js:503-524 | the second half of a tick, offline or online |
| Client.Intersocket.Expire | src/Intersocket.js:498-501 | the first half of a tick |
| Client.Intersocket.TickLive | src/Intersocket.js:498-524 | buffer states, calls, sends and rescheduled events are exactly those of the reference tick `Reconciliation.Tick`, which uses the corrected timeout checks |
| Client.Intersocket.Tick | src/Intersocket.js:493-525 | disposed: nothing changes; otherwise the reference tick `Reconciliation.Tick`, which uses the corrected timeout checks |
| Client.Intersocket.SetState | src/Intersocket.js:531-537 | sets the state and reports (new, old) only when it changes |
| Client.Intersocket.Report | src/MultiConsumer.js:9-13 | appends one client event and touches no frame |
| Client.Intersocket.OnTransportAcknowledged | src/Intersocket.js:544-558 | disposed: nothing; unknown id: lost-acknowledgement reported and no frame touched; known id: only that frame is acknowledged, then the acknowledgement reported unless a handler threw |
| Client.Intersocket.OnTransportErrorMessageResponse | src/Intersocket.js:605-613 | unknown id: reported with no frame; known: only that frame completes as failed, then reported with it unless a handler threw |
| Client.Intersocket.OnTransportMessageResponse | src/Intersocket.js:583-597 | disposed: nothing; unknown id: lost response reported; known id: throws a TypeError (the payload setter does not exist) and reports nothing |
| Client.Intersocket.OnTransportBinaryAttachmentAsWritten | src/Intersocket.js:708-723 | as written, an unknown id throws a ReferenceError (undeclared `payload`); a known one a TypeError |
| Client.Intersocket.OnTransportBinaryAttachment | src/Intersocket.js:708-723 | disposed: nothing; unknown id: a lost response carrying the attachment; known id: TypeError |
| Client.Intersocket.OnTransportPlatformChange | src/Intersocket.js:754-766 | disposed or equal: nothing; otherwise stores the version and reports it with the previous one |
| Client.Intersocket.OnTransportIdentChange | src/Intersocket.js:773-785 | disposed or equal: nothing; otherwise stores the ident and reports it with the previous one |
| Client.Intersocket.OnTransportHandshakeReceived | src/Intersocket.js:565-575 | disposed: nothing; otherwise the state becomes ready, platform and ident are updated as changes, the corrected known topics `KnownTopics` are sent when ready, the handshake is reported |
| Client.Intersocket.OnTransportOpen | src/Intersocket.js:619-629 | disposed: nothing; otherwise the state becomes open unless reconnecting, and the open is reported |
| Client.Intersocket.OnTransportClosed | src/Intersocket.js:635-652 | disposed: nothing; otherwise reconnecting becomes reconnecting_failed, any other state closed, a reconnect is scheduled, the close is reported |
| Client.Intersocket.ReconnectTimerFired | src/Intersocket.js:646-649 | the state becomes reconnecting and a fresh transport replaces the old one |
| Client.Intersocket.Relay | src/Intersocket.js:658-747 | the pass-through handlers report their event unless disposed |
| Client.Intersocket.OnTransportBroadcast | src/Intersocket.js:794-814 | no subscriber: lost broadcast reported; otherwise every subscriber called in order even if one throws, errors collected |

## Left out

- WebSocket plumbing is not modelled: creating the socket, `socket.send`, and binding its callbacks. Sends are appended to the transport's outbox and the socket's state is a field.
- `getSocket` and `getTransport` only return a field, so they are not modelled.
- The `_blobSplice` browser variants and the asynchronous `FileReader` reads are not modelled. An attachment is a pure split of a byte sequence, with ASCII decoding of the header and id.
- `JSON.stringify` and `JSON.parse` are foreign calls. Outgoing bodies are structured values, inbound bodies are opaque text, and parse failures are not modelled.
- Timers, the clock and UUID generation are parameters:
  - the current time is `now`;
  - fresh frame and transport ids are arguments;
  - the tick interval is the caller invoking `Tick`;
  - the reconnect `setTimeout` is a pending count plus the explicit `ReconnectTimerFired` step.
- Logging is console output and the tick-interval warning is text, so neither is modelled.
- `_createTransport` wires the transport's callbacks to the client's `_onTransport*` handlers, and the transport's `_on*` methods register consumers. Those calls are not modelled. The handlers are methods that callers invoke directly.
- The `on*` registration methods of the client add to a `MultiConsumer`. That behaviour is modelled once, by `MultiConsumers.MultiConsumer.Add`.
- The consumers registered on the client are an event log. Exceptions they throw, which in the source would abort the handler, are not modelled.
- The third `event` argument that `_handle` passes to frame handlers is not modelled. A handler receives the value and the frame.
- `_setResponsePayload` and `_setResponseAttachment` are called on a found frame but are not defined by `MessageFrame`. The model returns a `TypeError` result and changes nothing. No response or attachment completion is invented.
- The `instanceof ArrayBuffer/DataView/Blob` payload test is a single `Binary` value.
- Concurrency is not modelled: each tick and each handler is one atomic step of the single-threaded event loop.
- MessageBuffers.MessageBuffer.RemoveWhere: states the result through membership in the old buffer and the sequence of frame states, not as object-sequence equality. Distinct ids make the two the same. This also applies to `RemoveFinalized`, `RemoveCancelled` and `RemoveAcknowledgedNotifications`.
- MessageBuffers.MessageBuffer.RemoveOnlineOnly: states that the frame states are unchanged and every remaining frame was buffered, rather than that the buffer is the identical sequence.
- Subscribers.SubscriberRegistry.SubscribersFor: its ensures states which consumers are listed. Their registration order is stated separately, by `ConsumersForAppend` about the function it returns.
- Subscribers.KnownTopics: its ensures states distinctness and the set of topics. The order is stated by `KnownTopicsInFirstRegistrationOrder`.
- Subscribers.SubscriberRegistry.constructor: the subscriber table arrives already in the order `for...in` visits the options object (integer-like keys ascending, then the other keys in insertion order); the model does not compute that order from an object, and the table holds only own properties, so the `hasOwnProperty` test is not modelled.
- MessageFrames.MessageFrame.WithTimeout: `null` and `undefined` are both `None`, since `_isTimed` is false for either; a timeout that is not a number is not modelled. The same holds for `WithAcknowledgeTimeout`.
- Client.Intersocket.IfNoPendingAsWritten: topics are strings, so a frame created by `createFrame()` with no topic, whose topic is `undefined`, is not modelled. `allForTopic()` would find such a frame, so the "no frame" outcome holds only when every buffered topic is a string.
- Listeners.Listener: whether a callback throws is fixed per callback by `fails`, not decided per call, so a callback that throws on some calls only is not modelled. `Operations.VisitInOrder`'s statement that a throwing consumer is called only on the first operation relies on this.

## Findings

Each row below is a place where the code does not do what its comments, JSDoc or names say. It has a member that models the code as written and a corrected member. The client `Client.Intersocket` and the reference tick `Reconciliation.Tick` are built on the corrected members: the timeout passes select with `IsTimed` and `IsAcknowledgedTimed`, the topics announced to the server are `KnownTopics`, and `Unsubscribe` removes the matching pair. `Reconciliation.TickAsWritten` is the tick with the timeout checks as the source computes them; `Reconciliation.TickAgreesOnceSent` shows it differs from the corrected tick only when some buffered frame was never sent.

| source | as written | input that shows it | evidently intended | confidence | as-written member | corrected member |
|---|---|---|---|---|---|---|
| src/MessageBuffer.js:194 | the duplicate guard looks up `frame.id`, which is undefined, so it never matches | enqueue two frames with the same id: both are buffered | a frame whose id is already buffered is not added again ("Guard against dupes") | high, not executed | MessageBuffers.DuplicateEnqueuedAsWritten | MessageBuffers.DuplicateIgnored |
| src/MessageFrame.js:200 | `now - this._sentAt` with `_sentAt` null counts the whole epoch as elapsed | a ready, unsent frame with timeout 100 at time 1000 on a ready transport: the tick runs its timed and finally handlers, still sends it, and drops it | an unsent frame has not started its timeout; the same holds for the acknowledgement timeout (line 209) | medium, not executed | Reconciliation.UnsentFrameTimedOutByTickAsWritten | MessageFrames.TimedChecksAgreeOnceSent |
| src/SubscriberRegistry.js:33 | `unsubscribe` calls `this._indexOf`, which does not exist | any call to `unsubscribe`: a TypeError | remove the matching pair; an absent pair is a no-op | high, not executed | Subscribers.SubscriberRegistry.UnsubscribeAsWritten | Subscribers.SubscriberRegistry.Unsubscribe |
| src/SocketTransport.js:210 | the unknown-type MultiConsumer is called as a function | the text "46399{}": a TypeError after the message event | report the unknown type to its consumers | high, not executed | Transports.UnknownTypeThrowsAsWritten | Transports.Dispatch |
| src/Intersocket.js:716 | the lost-attachment path reads an undeclared `payload` | an attachment for an id not in the buffer: a ReferenceError | report the lost response with the attachment | high, not executed | Client.Intersocket.OnTransportBinaryAttachmentAsWritten | Client.Intersocket.OnTransportBinaryAttachment |
| src/Intersocket.js:115 | `allForTopic()` is called without the topic, and it returns one frame via `find` | a topic with a pending frame: `onExists` receives undefined | hand `onExists` the list of pending frames of the topic | high, not executed | Client.Intersocket.IfNoPendingAsWritten | Client.Intersocket.IfNoPending |
| src/SubscriberRegistry.js:49 | the filter runs before any topic is pushed, so it never excludes one | two consumers on topic "a": the known topics are ["a", "a"] | each topic once, in first-registration order | high, not executed | Subscribers.TopicsRepeatedAsWritten | Subscribers.KnownTopicsInFirstRegistrationOrder |
| src/OperationsBuffer.js:18 | `splice(indexOf(op), 1)` with an index of -1 removes the last element | removing 3 from [1, 2] leaves [1] | removing an absent operation is a no-op, as in the other registries | medium, not executed | Operations.RemoveAbsentDropsLast | Operations.GuardedRemoveAgrees |
