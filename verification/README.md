# pilot_langgraph, modelled in Dafny

pilot_langgraph is an asyncio RPC, publish/subscribe and checkpoint layer over the socket of a local daemon. This
project models its five stateful cores and proves what they promise over every input, chunking, interleaving and
failure pattern.

| part | modules |
|---|---|
| One socket for many requests and streams: frames and chunked writes, waiter queues per reply type, receive queues with a pending buffer | `Socket`, `SharedWrites`, `Waiters`, `RecvQueues` |
| Parsers of bytes that arrive in arbitrary chunks: events, the request reader, newline-delimited reply frames, and the JSON text below them | `EventCodec`, `Utf8`, `Channel`, `Json`, `JsonText`, `Frames`, `FrameStreams`, `Deliveries`, `Remote`, `Outcomes` |
| The auto-reconnecting subscription and its connection epochs | `Reconnect`, `Epochs` |
| Two checkpoint stores, paging, and the nested retry loops in front of them | `CheckpointStore`, `MemoryStore`, `SqliteStore`, `StoreContents`, `StoreBisimulation`, `StoreDifferences`, `Pagination`, `Retry`, `RetriedStore` |
| Worker admission: rate limiter, concurrency cap, accounting | `RateLimiter`, `Admission`, `AdmissionRuns` |
| Addresses | `Address` |

`Wire` and `Seqs` hold bytes and sequence helpers. `dafny verify dfyconfig.toml` checks everything.

How to read it. What the source updates in place is a class whose methods are tied by their `ensures` to functions
on values (`State()`, `View()`); the theorems are about those functions. An asyncio program is a state machine whose
steps are the stretches of code between two awaits, and a theorem over a legal run of steps is a theorem over every
interleaving. The network, the daemon, clocks and other tasks are parameters: a feed of chunks and expiries, a script
of round trips, a sequence of steps. Objects that outlive their place in a dict (futures, queues, registrations) are
numbered in the order of their creation.

Where a promise does not hold of the code, the code is kept, a concrete input shows the failure, and the exact
condition under which the promise holds is proved:

- Re-encoding events in order to push them back is the identity exactly for topics that are well-formed UTF-8
  (`PushBackIsIdentityIff`), and `recv` stays exact exactly when no later event's topic outgrows 1024 bytes that way
  (`RecvIsExactIff`, `PushBackCanOutgrow`).
- A reply delivered whole is seen whole exactly when no chunk ends between an inner frame and its newline
  (`ReplyIsWholeIff`, `CutBeforeNewline`).
- The client reports success for a reply that broke off after a frame (`BrokenOff`), also when the handler raised and
  the error frame is what was lost (`HiddenRaise`). From the delivered chunks alone: how every call ends
  (`HowCallsEnd`), what it has (`WhatCallsHave`), and exactly when success lacks frames or hides a raise (`CompletedIff`).
- Waiters stay aligned with the daemon exactly when every answer, and every error that answers nothing, is safe
  (`AlignedIffSafe`). `_fail_oldest_waiter` takes
  the first busy queue in dict order (`ErrorHitsFirstInDict`), and a late reply to a timed-out request reaches the next
  one (`LateReplyHitsNext`).
- An empty data frame reads as the end of a stream (`ReadsWholeStreamIff`, `EmptyFrameHidesRest`).
- A local close leaves its close-ack behind for the next user of the id (`StaleCloseAck`). A reader gets exactly what
  arrives for its id exactly when nothing was pending for it (`ReadsArrivalsIff`), and an id used again after a local
  close starts clean exactly when nothing for it, the ack included, arrived in between (`ReuseIsCleanIff`).
- A stream whose subscribe write failed inherits the parse buffer. Its events stay within its epoch exactly when that
  buffer is empty or can make no event (`KeepsApartIff`, `SplicedAcrossEpochs`).
- The stores agree on a listing exactly for queries that name thread and namespace, with no limit or one of at least 1
  (`ListAgreementIff`).
- Cursor paging is exact, and ends, exactly when no page ends with an empty id (`PagingIsExactIff`, `EmptyIdLoops`).
- The comment at `checkpoint.py:158` calls a put idempotent. A retried put moves its checkpoint ahead of one that
  another client put in between (`InterloperReorders`, `RetriedPutOnceIff`).
- The comment at `server.py:700-704` expects a second waiter to queue briefly on the semaphore. Nobody ever does:
  check and acquire are one step (`VerdictIs`, `CapsHold`).

## Model

| member | source | states |
|---|---|---|
| `Wire.BigEndian` | src/pilot_langgraph/_ipc.py:18 | Integers go onto the wire in network byte order |
| `EventCodec.SplitEvents` | src/pilot_langgraph/_ipc.py:254-279 | The loop computes the recursive reading of the buffer: its complete events in order and the leftover, or the error of the first bad event |
| `EventCodec.SplitHomomorphism` | src/pilot_langgraph/_ipc.py:254-279 | Splitting a+b gives the events of a and then the split of a's leftover followed by b; a buffer that raises keeps raising with the same error |
| `EventCodec.LeftoverIsPartial` | src/pilot_langgraph/_ipc.py:257-259 | A leftover is a suffix of the buffer, yields nothing when split again, and is shorter than 2+1024+4+2^24 bytes |
| `EventCodec.SplitLosesNothing` | src/pilot_langgraph/_ipc.py:244-279 | The buffer is the encoding of the events it yields followed by the leftover |
| `EventCodec.SplitEncoded` | src/pilot_langgraph/_ipc.py:244-279 | Encoded sendable events followed by any bytes split into those events followed by the split of the bytes |
| `EventCodec.EncodeRawsInjective` | src/pilot_langgraph/_ipc.py:244-251 | No two runs of sendable events have the same encoding |
| `EventCodec.AcceptedIff` | src/pilot_langgraph/_ipc.py:244-273 | Of all encodable events exactly those with a topic of at most 1024 bytes and a payload of at most 2^24 are accepted; the others raise for their topic, or else for their payload |
| `Utf8.ReencodingIsIdentityIff` | src/pilot_langgraph/_ipc.py:245-275 | Decoding with replacement and encoding again gives the bytes back if and only if they are well-formed UTF-8 |
| `Utf8.DecodeEncode` | src/pilot_langgraph/_ipc.py:245-275 | Every text survives encoding and decoding |
| `Utf8.ReencodedLength` | src/pilot_langgraph/_ipc.py:275 | Decoding with replacement and encoding again at most triples the length |
| `Utf8.DecodeSplits` | src/pilot_langgraph/_ipc.py:275 | Bytes that start afresh are decoded as on their own, whatever is broken before them |
| `Utf8.CutCharacter` | src/pilot_langgraph/_ipc.py:275 | A character cut short is replaced by one U+FFFD |
| `Utf8.BrokenLead` | src/pilot_langgraph/_ipc.py:275 | A lead byte before one it does not admit is replaced alone, and that byte is decoded afresh |
| `Utf8.StrayByte` | src/pilot_langgraph/_ipc.py:275 | So is a byte that starts no character |
| `Channel.PilotChannel.Recv` | src/pilot_langgraph/channel.py:225-239 | The loop of split, push back and read computes the recursive meaning of one call: outcome, buffer and reads used |
| `Channel.CallInStream` | src/pilot_langgraph/channel.py:225-239 | One call over any chunking of a stream returns its first event or none, never breaks, and leaves a buffer that continues the stream of the remaining events |
| `Channel.RecvIsExactIff` | src/pilot_langgraph/channel.py:225-239 | Over all chunkings, timeouts and numbers of calls the returned events are exactly those sent, in order, if and only if every event but the first keeps a topic within 1024 bytes when re-encoded |
| `Channel.RecvDeliversAll` | src/pilot_langgraph/channel.py:225-239 | When the whole stream has arrived, enough calls return all of it |
| `Channel.RecvConserves` | src/pilot_langgraph/channel.py:225-239 | For valid UTF-8 topics, the encoding of the returned events plus the buffer is all the bytes read, at every moment |
| `Channel.PushBackIsIdentityIff` | src/pilot_langgraph/channel.py:229-231 | The pushed-back bytes equal the original ones if and only if all topics are well-formed UTF-8 |
| `Channel.PushBackCanOutgrow` | src/pilot_langgraph/channel.py:229-231 | A topic of 342 bytes 0xFF is accepted and too long once pushed back |
| `Channel.OneChunkBreaks` | src/pilot_langgraph/channel.py:225-239 | A stream with such an event behind the first, in one chunk, makes the second call raise |
| `Channel.StopsWithoutEvent` | src/pilot_langgraph/channel.py:233-238 | Without a whole event a passed deadline is a timeout, the end of the stream its end, and both keep the buffer |
| `Channel.StopsOnFault` | src/pilot_langgraph/channel.py:227 | A bad buffer raises its fault |
| `Reconnect.PilotChannel.ReconnectLoop` | src/pilot_langgraph/channel.py:124-165 | The loop queues what the fold over rounds of draining and reconnecting gives, and nothing after `close` cancels it |
| `Reconnect.PilotChannel.DrainInto` | src/pilot_langgraph/channel.py:167-178 | Draining one stream queues every event that completes, and leaves the leftover or the bad buffer |
| `Epochs.DeadDrain` | src/pilot_langgraph/channel.py:167-178 | A buffer that raises, or that no bytes can complete, yields no event from any chunks and stays so |
| `Epochs.QueueByEpoch` | src/pilot_langgraph/channel.py:124-178 | From the middle of any epoch, over every run in which no epoch builds on another's bytes: the queue is one part for each epoch, in order, each decoded wholly from that epoch's bytes |
| `Epochs.QueueIsEpochs` | src/pilot_langgraph/channel.py:124-178 | The same from the first subscription on; an epoch that starts with an empty buffer contributes all its complete events, or a prefix of them when its bytes go bad |
| `Epochs.QueueWithoutFailedSubscribes` | src/pilot_langgraph/channel.py:156-163 | Unless a subscribe write fails every epoch starts with an empty buffer, and the queue has all the events of every epoch whose bytes do not go bad, in order, and a prefix of them where they do |
| `Epochs.KeepsApartIff` | src/pilot_langgraph/channel.py:156-165 | A stream in place after a failed subscribe write: whatever it delivers and however the run goes on, events stay within epochs if and only if the inherited buffer is empty, raises, or is refused when filled up with zeros |
| `Epochs.DeadBeforeItRaises` | src/pilot_langgraph/_ipc.py:263-266 | A first length byte of 5 does not raise yet and can still make no event |
| `Epochs.SplicedAcrossEpochs` | src/pilot_langgraph/channel.py:156-165 | Any event cut anywhere over two streams, the second not subscribed, is queued although neither epoch has more than a part of it |
| `JsonText.ParsePrint` | src/pilot_langgraph/runnables.py:360 | A printed value followed by a closing character or nothing reads back as that value and leaves the rest |
| `JsonText.LoadsPrint` | src/pilot_langgraph/server.py:545 | Loading a printed value gives the value |
| `JsonText.NoPrefixLoads` | src/pilot_langgraph/server.py:539-549 | No proper prefix of a printed value other than a number is a JSON text (sections 2, 4 and 7 of RFC 8259) |
| `JsonText.LoadsSpaced` | src/pilot_langgraph/server.py:545 | An object spelled with any whitespace around its tokens loads as the same object |
| `JsonText.ParsesSpacedArray` | src/pilot_langgraph/server.py:545 | So does an array |
| `JsonText.EscapeSize` | src/pilot_langgraph/server.py:752-755 | Seven characters are printed by a short escape, the rest of printable ASCII as it is, every other character as one `\\u` unit or two |
| `JsonText.IntegerLen` | src/pilot_langgraph/server.py:545 | The integer part of a number is read whole, with its minus (section 6 of RFC 8259) |
| `JsonText.FractionLen` | src/pilot_langgraph/server.py:545 | So is a fraction |
| `JsonText.ExponentLen` | src/pilot_langgraph/server.py:545 | So is an exponent of either case and sign |
| `JsonText.HexIsLower` | src/pilot_langgraph/server.py:752-755 | Escapes are printed with lower-case hexadecimal digits |
| `JsonText.LeadingZeroAlone` | src/pilot_langgraph/server.py:545 | A leading zero of a number stands alone (section 6 of RFC 8259) |
| `JsonText.TrailingTextIff` | src/pilot_langgraph/server.py:545 | A printed value with more text behind it loads if and only if that text is whitespace |
| `JsonText.SimpleEscapes` | src/pilot_langgraph/server.py:545 | Every simple escape reads as its character, also those never printed (section 7 of RFC 8259) |
| `Frames.ReadRequest` | src/pilot_langgraph/server.py:539-549 | The accumulate-until-it-parses loop computes the recursive reading, with hang-up and blocking |
| `Frames.RequestArrivesWhole` | src/pilot_langgraph/server.py:539-549 | For every request object and every cut into non-empty chunks the worker blocks before the last chunk, succeeds with it, and has the request that was sent |
| `Frames.NonzeroIsTrue` | src/pilot_langgraph/runnables.py:399 | A number with a digit that is not zero before its exponent ends a reply as its `done` field |
| `Frames.HangupMidRequest` | src/pilot_langgraph/server.py:541-543 | A caller that hangs up inside its request is noticed as such, however the request was cut |
| `Frames.FalseIff` | src/pilot_langgraph/runnables.py:399 | Of the values other than numbers exactly null, false and the empty ones do not end a reply as its `done` field |
| `Frames.ZeroIsFalse` | src/pilot_langgraph/runnables.py:399 | Neither does a number all of whose digits are zero |
| `Frames.FrameReader.TakeLines` | src/pilot_langgraph/runnables.py:383-400 | The inner loop yields the parseable lines in order, up to the first that is last, and keeps the unfinished line |
| `Frames.FrameReader.Frames` | src/pilot_langgraph/runnables.py:367-412 | The whole reader, with its fallback, timeout and end-of-stream cases, equals its recursive meaning over the feed |
| `FrameStreams.PrintOneLine` | src/pilot_langgraph/server.py:752-755 | A printed value contains no newline |
| `FrameStreams.PrintIsAscii` | src/pilot_langgraph/server.py:752-755 | A printed value is printable ASCII only |
| `FrameStreams.DrainSent` | src/pilot_langgraph/runnables.py:383-400 | Draining any prefix of the sent bytes gives the first frames sent, up to the first that is last, and the start of the next |
| `FrameStreams.FramesArePrefix` | src/pilot_langgraph/runnables.py:365-412 | However the sent bytes are cut and wherever they stop, the frames seen are a prefix of those sent up to the first that is last, and no frame is malformed |
| `FrameStreams.FramesAreAllIff` | src/pilot_langgraph/runnables.py:365-412 | From any point between chunks: with nothing truncated the reader finishes, and it has seen all frames up to the last if and only if no later chunk ends between an earlier frame and its newline |
| `FrameStreams.ReplyIsWholeIff` | src/pilot_langgraph/runnables.py:365-412 | The same from the first read on |
| `FrameStreams.CutBeforeNewline` | src/pilot_langgraph/runnables.py:401-412 | For every reply and every inner frame: a chunk that ends just before its newline makes the reader finish there and lose all later frames |
| `FrameStreams.SingleReplyIsWhole` | src/pilot_langgraph/runnables.py:401-412 | A reply of one last frame arrives whole however it is cut |
| `Deliveries.LegacyReplyArrives` | src/pilot_langgraph/runnables.py:401-410 | A legacy reply, one object without a newline, is had whole with the last chunk in every chunking, with all its fields and `done` set if it was missing |
| `Remote.AttemptStream` | src/pilot_langgraph/runnables.py:441-448 | One attempt yields the non-null results before the first refusal and up to the last frame, ends as the frames say, and raises the typed error of that refusal |
| `Remote.AStream` | src/pilot_langgraph/runnables.py:450-466 | All values come from the last attempt made; each earlier one yielded nothing and failed transiently; a dial timeout, read timeout or end of stream before anything came is tried again up to the third attempt; a failed dial, and any stop after a value, is not; whatever handler run was read, the values are the first of its values |
| `Remote.ColdIsTransient` | src/pilot_langgraph/runnables.py:370-381 | A dial timeout, a read timeout and an end of stream before anything came each yield nothing and are transient |
| `Remote.AInvokeOnce` | src/pilot_langgraph/runnables.py:332-343 | The result is the last of the values a stream of the same call yields, or null |
| `Remote.YieldsArePrefix` | src/pilot_langgraph/runnables.py:441-448 | A call that reads a cut or truncated reply yields a prefix of the reply's results |
| `Remote.YieldsAreAll` | src/pilot_langgraph/runnables.py:441-448 | A cleanly chunked whole reply yields all its results and its ending |
| `Remote.ReplyCarries` | src/pilot_langgraph/server.py:680-697 | The frames of a handler run are well-formed, include a last one, and carry the run's non-null values and whether it raised |
| `Remote.HandlerToCaller` | src/pilot_langgraph/server.py:680-697 | What the caller yields is a prefix of one handler run's values, under any cutting and truncation |
| `Remote.HandlerToCallerWhole` | src/pilot_langgraph/server.py:680-697 | Delivered whole, the caller has all frames if and only if no chunk ends before an inner newline; then it has the handler's values and its ending, and otherwise it is told of success in any case |
| `Remote.SeenLacks` | src/pilot_langgraph/runnables.py:441-448 | Whatever a call has seen of a run's reply, the values it lacks are the results of the frames it has not seen |
| `Deliveries.EveryFeedSplits` | src/pilot_langgraph/runnables.py:370-381 | Every feed is some non-empty chunks and then stops: at its end, at a timeout, or at the end of the stream |
| `Deliveries.SeenOfDelivered` | src/pilot_langgraph/runnables.py:365-412 | For every delivered part of a reply, every chunking and every stop: which frames are seen; all that matter if and only if no chunk ends before an inner newline and the text of the last frame is delivered; none if and only if the first frame's text is not; and how the reading ends |
| `Deliveries.BrokenOff` | src/pilot_langgraph/runnables.py:375-381 | A reply that ends after any frames, none of them last, is read as finished with those frames |
| `Outcomes.HowCallsEnd` | src/pilot_langgraph/runnables.py:332-412 | From the delivered chunks alone: a call that got the last frame ends as the run did; one cut before an inner newline is completed; otherwise a timeout is transient, the end of the stream completes the call after a first frame and is transient before it, and a feed with nothing more is still waited for |
| `Outcomes.RetriedBeforeFrames` | src/pilot_langgraph/runnables.py:460-466 | Before the text of the first frame is delivered, a timeout and the end of the stream yield nothing and are transient |
| `Outcomes.NonObjectIsFatal` | src/pilot_langgraph/runnables.py:396-400 | A frame that is no object ends the call for good |
| `Outcomes.TypedErrorArrives` | src/pilot_langgraph/errors.py:63-75 | A handler's error arrives as its typed exception with its message exactly when its frame does |
| `Outcomes.WhatCallsHave` | src/pilot_langgraph/runnables.py:441-448 | A call has exactly the frames its chunks show, all of them if and only if the delivery is whole, and all the values if and only if the others carry none |
| `Outcomes.CompletedIff` | src/pilot_langgraph/runnables.py:375-412 | A call reports success if and only if the reply is whole and the run did not raise, or the reply was cut short or broke off; in the latter cases frames are missing, and that is exactly when a raise goes unreported |
| `Outcomes.CompletedTells` | src/pilot_langgraph/runnables.py:396-412 | A completed call has seen a frame, and has all frames if and only if the last one it saw says it is last |
| `Outcomes.HiddenRaise` | src/pilot_langgraph/server.py:728-739 | A handler that raises after items and whose error frame is lost is reported as a success, whatever the items and wherever after the first the stream ends |
| `Outcomes.LegacyCall` | src/pilot_langgraph/runnables.py:401-448 | In every chunking of a legacy reply only an `ok` that is false raises, and a result that is there and not null is yielded |
| `Socket.ReadLoop` | src/pilot_langgraph/asyncio_client.py:143-152 | The framing loop splits the bytes into length-prefixed messages and stops at a length of 0 or above 2^20 |
| `Socket.PilotConnection.SendRaw` | src/pilot_langgraph/asyncio_client.py:222-229 | One message goes onto the wire with its length, and on a wire of whole frames is read as the next message |
| `Socket.PilotConnection.Write` | src/pilot_langgraph/asyncio_client.py:343-348 | The chunk loop appends the frames of the write's messages, each of legal size, and nothing on a closed stream |
| `Socket.DeframeSnoc` | src/pilot_langgraph/asyncio_client.py:143-152 | Appending a frame to whole frames appends its message to what is read |
| `Socket.MessageAt` | src/pilot_langgraph/asyncio_client.py:343-348 | A write is cut every 2^20-64 bytes and nowhere else |
| `Socket.SendLayout` | src/pilot_langgraph/_ipc.py:148-149 | A send message is the byte 6, the connection id in network byte order and the data |
| `Socket.RefusedIff` | src/pilot_langgraph/asyncio_client.py:147-148 | A length is refused if and only if it is 0 or above 2^20 |
| `Socket.WriteRoundTrip` | src/pilot_langgraph/asyncio_client.py:343-348 | A write's messages are of legal size, survive framing, and carry exactly the data, to that connection id alone |
| `Socket.StepConserves` | src/pilot_langgraph/asyncio_client.py:343-348 | Each step moves bytes from a begun write to the wire, in order, and touches no other connection |
| `Socket.WritersInterleave` | src/pilot_langgraph/asyncio_client.py:222-229 | In every interleaving of writers, every frame is of legal length and the data on the wire for an id plus what it has yet to send is the data asked for, in order |
| `Socket.StreamsAreSeparate` | src/pilot_langgraph/asyncio_client.py:343-348 | With no write pending, deframing and projecting by id gives each stream's bytes |
| `SharedWrites.OverlappingWrites` | src/pilot_langgraph/asyncio_client.py:343-348 | In every interleaving of writes, on one connection id or several: frames of legal length, each write's chunks in order and complete up to where it is, and a write of at most 2^20-64 bytes in one piece |
| `SharedWrites.WritesFromNothing` | src/pilot_langgraph/asyncio_client.py:222-229 | The same for every run from an empty socket |
| `Waiters.PilotConnection.Request` | src/pilot_langgraph/asyncio_client.py:236-240 | The new future joins the end of its reply type's queue, which joins the dict if it is new |
| `Waiters.PilotConnection.DeliverToWaiter` | src/pilot_langgraph/asyncio_client.py:205-211 | The head of the queue leaves it and, unless already done, gets the payload |
| `Waiters.PilotConnection.FailOldestWaiter` | src/pilot_langgraph/asyncio_client.py:213-219 | If queue i of the dict order is not empty and all before it are, exactly its head leaves it and, unless already done, fails; every other queue and future stays, and without waiters everything does |
| `Waiters.PilotConnection.TimeOut` | src/pilot_langgraph/asyncio_client.py:245-250 | The timed-out future, and no other, leaves its queue; other queues stay |
| `Waiters.PilotConnection.Close` | src/pilot_langgraph/asyncio_client.py:74-78 | Every queue empties and every future waiting in one fails |
| `Waiters.FirstBusyIff` | src/pilot_langgraph/asyncio_client.py:213-219 | The queue an error takes from is exactly the first non-empty one of the order |
| `Waiters.StepAlignedIff` | src/pilot_langgraph/asyncio_client.py:205-250 | From aligned queues, a step leaves each waiter queue equal to the live requests the daemon owes, in order, if and only if the step is safe |
| `Waiters.AlignedIffSafe` | src/pilot_langgraph/asyncio_client.py:205-250 | Over every run, the queues stay aligned throughout if and only if every answer is safe in the state it meets |
| `Waiters.EveryFateIsOwn` | src/pilot_langgraph/asyncio_client.py:231-250 | In a safe run every future ends by the first of its own cancellation, timeout and answer, whatever the other requests do |
| `Waiters.UnsafeHitsStranger` | src/pilot_langgraph/asyncio_client.py:213-219 | An unsafe answer, or an error that answers nothing while somebody waits, takes a future that was not answered from its queue and, if it was waiting, settles it |
| `Waiters.RepliesFindTheirRequests` | src/pilot_langgraph/asyncio_client.py:231-250 | Without timeouts, with daemon errors only while one reply type is outstanding and unsolicited ones only while nothing is, every reply and error reaches exactly the request it answers and a cancelled request swallows only its own answer |
| `Waiters.CloseEndsEveryWait` | src/pilot_langgraph/asyncio_client.py:64-83 | After any run at all, closing leaves nobody waiting and changes nothing that had ended |
| `Waiters.ErrorHitsFirstInDict` | src/pilot_langgraph/asyncio_client.py:213-219 | With two reply types outstanding, an error for the second request fails the first |
| `Waiters.LateReplyHitsNext` | src/pilot_langgraph/asyncio_client.py:245-250 | The late reply to a timed-out request resolves the next request of its type |
| `RecvQueues.PilotConnection.OnRecv` | src/pilot_langgraph/asyncio_client.py:154-163 | Data joins the id's live queue, or its pending buffer when it has none |
| `RecvQueues.PilotConnection.OnCloseOk` | src/pilot_langgraph/asyncio_client.py:171-180 | EOF joins the live queue, which leaves the dict, or joins the pending buffer |
| `RecvQueues.PilotConnection.RegisterRecvQueue` | src/pilot_langgraph/asyncio_client.py:292-300 | A new queue takes over the pending buffer, in order |
| `RecvQueues.PilotConnection.Read` | src/pilot_langgraph/asyncio_client.py:350-358 | The next item leaves the queue; EOF reads as no bytes |
| `RecvQueues.PilotConnection.CloseStream` | src/pilot_langgraph/asyncio_client.py:373-383 | The id's queue, and no other, leaves the dict; queues and pending buffers stay |
| `RecvQueues.NeverLiveAndPending` | src/pilot_langgraph/asyncio_client.py:154-182 | In every reachable state, ids reused or not, no id has both a live queue and a pending buffer |
| `RecvQueues.LiveRun` | src/pilot_langgraph/asyncio_client.py:154-182 | What a registered queue has given plus what it holds is what it held and what arrives for its id up to EOF |
| `RecvQueues.RegistrationPointIsFree` | src/pilot_langgraph/asyncio_client.py:292-300 | Wherever in the run the queue is registered, what the reader took plus what the queue holds is what was pending, what arrived before, and what arrives after up to EOF, in order |
| `RecvQueues.ReadsArrivalsIff` | src/pilot_langgraph/asyncio_client.py:292-300 | With nothing sent after a close-ack, that is exactly what arrived for the id in the run if and only if nothing was pending at its start |
| `RecvQueues.CloseCutsOff` | src/pilot_langgraph/asyncio_client.py:373-383 | A locally closed stream keeps what arrived before the close and gets nothing after, whatever happens then |
| `RecvQueues.StaleCloseAck` | src/pilot_langgraph/asyncio_client.py:373-383 | After a local close and its ack, the next queue registered under the id starts with EOF |
| `RecvQueues.ReuseIsCleanIff` | src/pilot_langgraph/asyncio_client.py:373-383 | An id registered again after a local close has just what arrives from then on if and only if nothing for it, the ack included, arrived in between; an ack that arrives sooner or later ends the new stream |
| `RecvQueues.ReadUntilEof` | src/pilot_langgraph/asyncio_client.py:360-367 | The loop joins the chunks before the first empty one, and blocks if there is none |
| `RecvQueues.ReadsWholeStreamIff` | src/pilot_langgraph/asyncio_client.py:360-367 | Reading to the end gives all the bytes if and only if nothing but empty frames follows an empty frame |
| `RecvQueues.EmptyFrameHidesRest` | src/pilot_langgraph/asyncio_client.py:360-367 | Everything behind an empty frame is lost to the reader; behind an empty first frame it reads no bytes |
| `MemoryStore.Store.Put` | src/pilot_langgraph/checkpoint_worker.py:46-64 | The record is set and its id moves to the end of the order list |
| `MemoryStore.Store.PutWrites` | src/pilot_langgraph/checkpoint_worker.py:136-151 | The write is appended unless its task already has one |
| `MemoryStore.Store.GetTuple` | src/pilot_langgraph/checkpoint_worker.py:66-100 | The record asked for or the newest, with its writes in order |
| `MemoryStore.Store.List` | src/pilot_langgraph/checkpoint_worker.py:102-134 | The nested loops with their early breaks give the cursor and limit semantics, also for limits below 1 |
| `SqliteStore.Store.Put` | src/pilot_langgraph/checkpoint_worker.py:212-224 | REPLACE: exactly one row of the key and id is left, the new one, its `seq` above all others, and every other row stays |
| `SqliteStore.Store.PutWrites` | src/pilot_langgraph/checkpoint_worker.py:304-316 | IGNORE: afterwards the task has its write, at most one row was added, and all rows there were stay in place |
| `SqliteStore.Store.GetTuple` | src/pilot_langgraph/checkpoint_worker.py:226-261 | The row asked for or the one with the largest `seq`, with its writes by `seq` |
| `SqliteStore.Store.List` | src/pilot_langgraph/checkpoint_worker.py:263-302 | The rows the WHERE clause and the cursor leave, by falling `seq`, within the limit |
| `StoreContents.GetsWhatWasPut` | src/pilot_langgraph/checkpoint_worker.py:66-100 | After any run, both stores answer `get_tuple` by id with the parent, checkpoint and metadata of the last put of that id under the thread and namespace, read off the operations, and each task's first written value in order; `NotFound` if there is none |
| `StoreContents.GetsTheLatestPut` | src/pilot_langgraph/checkpoint_worker.py:73-77 | The latest is the last put to the thread and namespace |
| `StoreContents.ListsThePuts` | src/pilot_langgraph/checkpoint_worker.py:102-134 | A scoped listing of either store is the last put of each id, newest first, from behind the cursor and within the limit, each item with its own put's fields |
| `StoreContents.StoreKeeps` | src/pilot_langgraph/checkpoint_worker.py:46-64 | After any run the records, order and writes under every thread and namespace are those of the operations |
| `StoreContents.CursorIsRow` | src/pilot_langgraph/checkpoint_worker.py:278-285 | The SQL cursor of any query is the row of that id in the query's thread under the given namespace, or the empty one, if there is such a row |
| `StoreBisimulation.PutMatches` | src/pilot_langgraph/checkpoint_worker.py:46-64 | A put keeps the abstraction: each order list is its key's rows sorted by `seq`, free of duplicates, each row the record under its id |
| `StoreBisimulation.PutWritesMatches` | src/pilot_langgraph/checkpoint_worker.py:136-151 | A write keeps it too, write lists included |
| `StoreBisimulation.RunsMatch` | src/pilot_langgraph/checkpoint_worker.py:212-316 | So does any sequence of them |
| `StoreBisimulation.GetAgrees` | src/pilot_langgraph/checkpoint_worker.py:226-261 | Matching stores give equal `get_tuple` replies, latest or by id |
| `StoreBisimulation.ListAgrees` | src/pilot_langgraph/checkpoint_worker.py:263-302 | Matching stores give equal listings for a scoped query and any cursor |
| `StoreBisimulation.StoresAgree` | src/pilot_langgraph/checkpoint_worker.py:34-316 | After any sequence of operations both stores answer alike |
| `StoreDifferences.ListAgreementIff` | src/pilot_langgraph/checkpoint_worker.py:102-134 | The stores agree on a listing over all histories if and only if the query names a thread and a namespace and has no limit or one of at least 1 |
| `StoreDifferences.UnscopedThread` | src/pilot_langgraph/checkpoint_worker.py:263-302 | Without a thread there is a history on which the listings differ |
| `StoreDifferences.UnscopedNamespace` | src/pilot_langgraph/checkpoint_worker.py:263-302 | With a thread but no namespace there is one too |
| `StoreDifferences.LimitBelowOne` | src/pilot_langgraph/checkpoint_worker.py:102-134 | With a limit below 1 there is one too |
| `Pagination.PagingIsExactIff` | src/pilot_langgraph/checkpoint_worker.py:102-134 | Pages of any size at least 1, each continued at the last id of the one before, concatenate to the whole newest-first listing, each checkpoint once, if and only if no empty id stands at position n-1, 2n-1, ... of it or last, for pages of n; otherwise they never end; both stores page alike |
| `Pagination.PagingIsExact` | src/pilot_langgraph/checkpoint_worker.py:102-134 | With non-empty ids the pages concatenate to the whole listing, each checkpoint once, and end, in both stores |
| `Pagination.SamePages` | src/pilot_langgraph/checkpoint_worker.py:263-302 | Matching stores give the same pages |
| `Pagination.EmptyIdLoops` | src/pilot_langgraph/checkpoint_worker.py:112-115 | A checkpoint whose id is empty makes paging start over for ever |
| `Retry.AInvokeWithRetries` | src/pilot_langgraph/runnables.py:309-330 | All round trips of a call but the last are transient; the last is not, or `max(0, max_retries)` retries were made |
| `Retry.OneCallEnds` | src/pilot_langgraph/runnables.py:314-328 | After k transient round trips, k at most `max(0, max_retries)`, and then one that is not transient, exactly k + 1 are made; if `1 + max(0, max_retries)` are transient, all of these |
| `Retry.ARetry` | src/pilot_langgraph/checkpoint.py:49-67 | The calls follow each other, each ending as above; all but the last failed; if the last failed too, all `attempts` were made; never more than `attempts * (1 + max(0, max_retries))` round trips |
| `Retry.RoundTripBound` | src/pilot_langgraph/checkpoint.py:49-67 | The nested loops never make more round trips than that product |
| `Retry.StopsAtFirstSuccess` | src/pilot_langgraph/checkpoint.py:49-67 | No round trip before the settling one succeeded |
| `RetriedStore.WritesOnce` | src/pilot_langgraph/checkpoint_worker.py:136-151 | Any number of executions of one write, with anything interleaved, leaves the store as the first alone does |
| `RetriedStore.RetriedWritesOnce` | src/pilot_langgraph/checkpoint.py:259-262 | For every pattern of lost requests and replies over both loops, `aput_writes` leaves both stores as if only its first executed attempt had run, now and ever after |
| `RetriedStore.RetriedPutOnceIff` | src/pilot_langgraph/checkpoint.py:158-159 | A successful retried `aput` leaves the store as its first executed attempt alone would if and only if the last put to its thread and namespace in that as-if run is the same put |
| `RetriedStore.RetriedPutOnce` | src/pilot_langgraph/checkpoint.py:158-159 | With no other put to its thread and namespace between its attempts, a retried `aput` is done once, in both stores |
| `RetriedStore.InterloperReorders` | src/pilot_langgraph/checkpoint.py:158-159 | One lost reply and one put of another client in between: the retry makes its checkpoint the newest again |
| `RateLimiter.RateLimiter.Consume` | src/pilot_langgraph/server.py:155-166 | The prune loop, the comparison and the append compute the answer and the new deques |
| `RateLimiter.AllowedIff` | src/pilot_langgraph/server.py:155-166 | With times in order, a call is allowed if and only if fewer than `limit` calls of its caller were allowed in the closed window that ends with it |
| `RateLimiter.WindowBound` | src/pilot_langgraph/server.py:136-148 | No closed interval of window length holds more than `limit` allowed calls of one caller |
| `RateLimiter.DequeBound` | src/pilot_langgraph/server.py:144-147 | No deque grows past the limit |
| `RateLimiter.CallersAreIndependent` | src/pilot_langgraph/server.py:155-166 | Dropping all other callers' requests changes none of a caller's answers |
| `Admission.WorkerServer.RegisterHandler` | src/pilot_langgraph/server.py:386-412 | The name is bound to a new registration with the given allow set, cap and rate (0 meaning none) and empty statistics; older registrations, other names, calls in flight and totals stay |
| `Admission.WorkerServer.ClearUserHandlers` | src/pilot_langgraph/server.py:421-429 | Exactly the names that start with an underscore stay, bound as they were; registrations and calls in flight stay |
| `Admission.WorkerServer.Handle` | src/pilot_langgraph/server.py:562-705 | The gates in order, with the rate slot used before the cap is looked at, and the entry into the dispatch window |
| `Admission.WorkerServer.EndCall` | src/pilot_langgraph/server.py:705-733 | The captured registration's slot is released and, unless cancelled, the call is counted once |
| `AdmissionRuns.CapsHold` | src/pilot_langgraph/server.py:207-213 | In every reachable state and for every registration ever made, semaphore value plus calls inside equals the cap, and nobody is parked |
| `AdmissionRuns.VerdictIs` | src/pilot_langgraph/server.py:562-606 | Which verdict a call gets: refused as busy exactly when it passed the earlier gates and its registration's window is full, and otherwise in without waiting |
| `AdmissionRuns.CapsHoldFromIdle` | src/pilot_langgraph/server.py:596-606 | From an idle worker, over every run: no registration ever holds more calls than its cap, and a call is refused as busy if and only if it passes the earlier gates and its registration is full |
| `AdmissionRuns.GatesSinceRegistration` | src/pilot_langgraph/server.py:562-606 | Over any run since a registration, in the terms it was made with: a call to a name bound to it is unauthorized if and only if the allow set given then, or by the last `authorize` that reached it, lacks the caller; at most `cap` calls are inside, which are those let in that have not left; and a call past the earlier gates is busy if and only if `cap` are |
| `AdmissionRuns.TotalsAreSums` | src/pilot_langgraph/server.py:711-733 | The server's totals are the sums over all registrations, retired ones included, through every change of handlers |
| `AdmissionRuns.StatsAreTallies` | src/pilot_langgraph/server.py:90-97 | Each registration has counted exactly the uncancelled calls that left its window and the errors among them, and its ring is the last 256 of their latencies in order |
| `AdmissionRuns.AccountingIsExact` | src/pilot_langgraph/server.py:711-739 | From an idle worker: totals, counts and rings all follow from the run, errors never exceed calls, and each ring holds min(calls, 256) samples |
| `AdmissionRuns.EveryCallLeavesOnce` | src/pilot_langgraph/server.py:705-739 | Calls let in equal calls still inside plus calls that left: none lost, none counted twice |
| `AdmissionRuns.LimiterSeesItsCalls` | src/pilot_langgraph/server.py:583-584 | Whatever else the worker does, a registration's limiter has seen exactly the authorized calls to it |
| `AdmissionRuns.RateLimitedIff` | src/pilot_langgraph/server.py:583-594 | An authorized call is rate limited if and only if its caller already had `limit` calls pass in the window that ends now |
| `AdmissionRuns.RateLimitedSinceRegistration` | src/pilot_langgraph/server.py:583-594 | Over any run since a handler's registration, a call is rate limited if and only if, of the authorized calls that reached it in the run, `limit` of its caller's passed in the window that ends now |
| `Address.PackUnpack` | src/pilot_langgraph/_ipc.py:71-77 | Unpacking the packed bytes, wherever they stand in a buffer, returns the address |
| `Address.UnpackPack` | src/pilot_langgraph/_ipc.py:71-77 | Packing what six bytes unpack to returns the bytes |
| `Address.ParseText` | src/pilot_langgraph/_ipc.py:79-93 | Every address reads back from its text |
| `Address.ParseIsCanonical` | src/pilot_langgraph/_ipc.py:79-93 | Every accepted spelling names an address that packs, and its canonical text parses to the same address |
| `Address.MismatchRefused` | src/pilot_langgraph/_ipc.py:84-88 | A canonical spelling is accepted if and only if its decimal and hexadecimal network fields agree |
| `Address.AcceptedIff` | src/pilot_langgraph/_ipc.py:65-88 | A text is an address if and only if it is decimal digits and three groups of four hexadecimal digits in either case, perhaps with a newline, and the two network fields agree |
| `Address.ParsedValue` | src/pilot_langgraph/_ipc.py:84-90 | Its network is the first group, and its node the other two joined |
| `Address.TextIsUpper` | src/pilot_langgraph/_ipc.py:92-93 | The printed text uses digits, upper-case hexadecimal digits and the separators only |

## Left out

- The asyncio scheduler, sockets, sqlite internals and the daemon: steps, feeds, scripts and row semantics stand for them. REPLACE deletes and inserts, IGNORE does nothing on a conflict, also not to the AUTOINCREMENT counter.
- Frames for a listener that is not registered yet, which the code drops, datagram queues, and what closing the whole connection puts into receive queues.
- The wire content of requests other than send, and messages above 2^20 bytes that other encoders could produce: `Socket` assumes other messages of legal size.
- The `_peer` key the client adds to every frame, tracing headers, logging, callbacks and metrics.
- JSON: numbers are the lexemes they print as, lone surrogate escapes are refused because Dafny characters are scalar values, and neither Python's recursion limit nor its digit limit is modelled. A `done` number that underflows to zero counts as true, and an `error_type` that is no string and cannot be looked up is taken for an unknown one.
- Pydantic validation, middleware, and the handlers themselves: a handler run is its values and how it ends.
- Retry: backoff delays and the dropping of cached connections.
- RateLimiter: times are reals, without floating-point rounding.
- Admission: a negative `max_concurrent`, which makes the semaphore constructor raise, and the percentile display.
- Address: decimal digits outside ASCII, which the pattern also accepts.
- The `new_versions` of a put, which both stores keep and no request returns.
- Client-side decoding of checkpoints and pending writes, which keeps only the first write of each task.
- `trust.py`, `worker.py`, `transport.py`, `wire.py`, `pilot_client.py`, `remote_node.py`, tools and examples: plumbing and deprecated wrappers.
