# Verification of the Golioth device client

A Dafny model of the protocol code of the Golioth Zephyr SDK, with proofs of what that code is for:

* the **CoAP request engine** (`net/golioth/coap_req.c`): retransmission timers, observations, block-wise transfers,
  the list of live requests and who frees them, with user callbacks that call back into the engine;
* on top of it, the **LightDB read** that assembles blocks in a buffer, and the **connection** that decides when requests are accepted;
* the **CBOR walker** (`zcbor_any_skip_fixed.c`, `zcbor_utils.c`) and its users in `rpc.c` and `settings.c`;
* **packets**: URI-Path options, the size estimate, requests built in one buffer, and Block2 options rebuilt in it;
* the **log backend**, which formats text in the buffer it encodes into and then moves it.

Check everything with `dafny verify dfyconfig.toml` (Dafny 4.11).

## How the model is built

Code that works by changing things is a class or a method with the source's own loops and branches: `GoliothClient`
and `CoapRequest` (the client with its request list), `SyncData` (a synchronous read), `GoliothConnection`, `State` (the zcbor
cursor), the map and settings decoders, `Response` (the settings response), `RequestBuffer` (a packet buffer with the two
packet headers that share it) and `LogContext`. Each method is proved to do what a function on values says; the
theorems are about those functions, and so about every run of the methods.

A run is any sequence of events: `Submit`, `Poll` at a time, a received packet, a late `get_next`, `Connect`, `Disconnect`. The
network and the user are arbitrary: any packet may arrive at any time, and a user callback is any function of the
whole history that may ask for the next block and submit requests before it returns. Where a theorem assumes a server, received
packets only have to answer *some* datagram sent earlier, so they may be lost, delayed, repeated and reordered.

| file | what it holds |
|---|---|
| `Backoff` | the 32-bit retransmission timer against the ideal schedule |
| `ObserveOrder` | the 24-bit reordering rule for notifications |
| `Engine` | the request engine as functions on client values |
| `EngineInvariants` | runs; ownership, exactly-once completion, disconnect |
| `PollDeadlines` | poll passes: who is dropped, who waits, what timeout is returned |
| `TimerRuns`, `Retransmissions` | whole runs: every timer against the ideal schedule of its exchange, and what is sent for it |
| `Dispatch` | which request a packet reaches, by tokens, ids and codes alone, and what becomes of it |
| `QuietSteps`, `Blockwise`, `ObserveRuns` | whole runs seen by one request: what leaves it alone, its blocks, its notifications |
| `BlockwiseProgress` | reads get through when nothing is lost |
| `LightDb`, `Connection` | the synchronous read; the socket and the engine together |
| `CoapClient` | the engine as the source has it: objects, a list, loops |
| `Cbor`, `CborSkip`, `ZcborState` | items and encodings; the skipper as a function, exact against them; the cursor class |
| `MapTable`, `MapLookup`, `MapDecoder` | the table-driven decoder as a function, as map lookup, and as it runs |
| `MapPast`, `MapExact` | what the byte behind the payload does to the decoders; what the map decoder has read when it succeeds |
| `CborWrite` | what the encoder writes, byte for byte |
| `Settings`, `SettingsExact`, `SettingsDecoder` | settings in map order; when decoding them succeeds; the decoder and its response as they run |
| `CoapMessage`, `UriPath`, `RequestPacket`, `RequestBuffer` | CoAP messages and a parser; paths; request packets; the buffer |
| `LogRecord`, `LogBackend` | what a log message should become; the backend encoding it in place |

## What is assumed

* Each section under a mutex is one atomic step. Clocks, random draws, system calls and user callbacks are parameters. The time a
  submission sees is the step's time plus a delay below 2^31 ms; the initial timeout is positive and below 2^27 ms.
* The timer's signed 32-bit subtraction wraps in two's complement. A `wakeup` hook is set.
* Zephyr's functions follow their standards: block options sections 2.2 to 2.4 of RFC 7959, options and payload section 3 of RFC 7252 with
  16-bit lengths. An append that does not fit returns -EINVAL and changes nothing. Live tokens are distinct 8-byte values, and datagrams are not cut.
* zcbor decodes and encodes as section 3 of RFC 8949 says, on a machine with a 32-bit `size_t`; its encoder writes containers of indefinite length and
  the shortest headers, and writes all of an item or nothing. Decoded payloads are below 2^32 - 16 bytes.

Numbers that the protocol or the platform fixes, error numbers, option numbers, code classes, the 128 seconds, are written out in what the main
theorems promise, so a wrong constant in the model does not go unnoticed.

## Where the code does less than it promises

The members named here prove it, most with the exact condition under which the promise does hold.

* A poll that is more than 2^31 ms late sees the deadline in the future (`LongLagMissesTheDeadline`, `ComparisonExact`).
* A repeated answer is not always harmless: the helper that checks a block refuses sizes above the one the client asks for next, so a client that
  accepted a larger first block gives up with -EBADMSG when the network delivers that block twice (`RepeatedFirstBlock`; `RepeatedAnswer` says exactly
  which repeated answers are ignored).
* The very first notification is dropped when it arrives in the first millisecond with number 0 or one of at least 2^23 (`FirstNotification`).
* A synchronous read whose own callback refuses a block still returns 0: with a buffer that is too short and no announced size, the caller gets a prefix and success
  (`ShortReadReturnsZero`; `EndToEndRead` says exactly when it is the whole).
* The copy of a synchronous read goes past the caller's buffer exactly when a size is announced that fits the buffer and a payload that is not empty
  overruns it (`CopyLeavesTheBuffer`). The engine does hand such a payload over (`OverrunIsCopied`); a server with one fixed resource never causes it
  (`ServerStaysInTheBuffer`).
* The block helper's error is stored in an unsigned offset, so the test for a negative one never succeeds and the transfer goes on with a
  callback that offers `get_next` (`GetNextOffered`).
* The skipper accepts list counts that agree only modulo 2^32, and indefinite maps whose last key has no value (`SkipsMalformed`; `SkipIsExact` says exactly
  what it accepts).
* `zcbor_map_decode` is documented to return -ENOENT for an empty map (`net/golioth/zcbor_utils.h`); it does so whenever none of the wanted keys is there, also in a map full of
  others. The model follows the code.
* An untagged container of indefinite length is skipped even when the caller's element count is used up, `[0x9F, 0xFF]` for one, and nothing else is
  (`SkipUsedUp`); the count then wraps (`AnySkip`).
* `zcbor_list_or_map_end` and the major type look-aheads read the byte at the cursor without looking whether the payload ends there. The byte that
  happens to be behind the payload is a parameter, `past`, of the map decoder and the settings decoder. `0xBF` alone is an empty map or a bad message as
  that byte has it (`OpenedAndCut`); `PastByteMatters` says exactly which payloads it decides about, and no settings message is among them
  (`SettingsIgnorePast`).
* A Block2 option asked for on a request with a payload is appended behind the payload, where a receiver takes it for more payload
  (`BlockRequestArrives`).
* Data and path segments are cut to 16-bit lengths without an error: a packet that was built tells the request if and only if all of them are below
  65536 bytes (`ArrivesExactly`; `LongDataIsCut` says what arrives instead).
* Text whose first colon is its last stored byte makes the log message fail, since the message's length becomes -1; and the byte after the colon
  is dropped whatever it is, so the split is at `": "` only when it is a space (`SplitMeans`, `PutFuncAndMsg`).

## Model

| member | source | states |
|---|---|---|
| Backoff.ComparisonExact | net/golioth/coap_req.c:697-699 | the wrapping 32-bit comparison finds a deadline due exactly when the lag modulo 2^32 is at most 2^31, and gives the true remaining time when the lag is below 2^31 ms |
| Backoff.LongLagMissesTheDeadline | net/golioth/coap_req.c:697-702 | a poll 2^31 + 1 ms late sends nothing and reports the deadline as still ahead |
| Backoff.CycleOfIdeal | net/golioth/coap_req.c:669-687 | one cycle of the wrapped timer is one stage of the ideal schedule, and is refused only at the last stage |
| Backoff.PollFollowsIdeal | net/golioth/coap_req.c:689-735 | one poll, however many stages it is behind, lands on the ideal stage for its time, sends exactly when the stage rises, and gives up exactly past T0 + 15 ack |
| Backoff.BackoffRefinement | net/golioth/coap_req.c:669-735 | after any polling pattern of bounded lag: t0, timeout and retries are those of the ideal schedule in unbounded time, at most four datagrams were sent, and it has given up if and only if the last poll was at or after T0 + 15 ack |
| ObserveOrder.NewerIsExact | net/golioth/coap_req.c:179-191 | for counters sent modulo 2^24 under section 3.4 of RFC 7641's rate and delay bounds, the test accepts exactly the notifications with a higher true counter, the 128 s rule included |
| ObserveOrder.ObserveFreshness | net/golioth/coap_req.c:179-191 | for any arrival order of notifications, those let through are exactly the ones newer than all before them, and their true counters rise strictly |
| ObserveOrder.FirstNotification | net/golioth/coap_req.c:419-424 | with the initial reply state, a first notification is accepted if and only if the uptime is positive or its number is between 1 and 2^23 - 1 |
| Engine.InvokeKeeps | net/golioth/coap_req.c:146-177 | a callback with everything it does re-entrantly only appends requests submitted just then, records a wakeup for each, and changes no listed request but its own |
| EngineInvariants.OwnedMeans | net/golioth/coap_req.c:450-496 | the multiset invariant means: listed requests are distinct and not freed, none is freed twice, none allocated is lost |
| EngineInvariants.TrackMeans | net/golioth/coap_req.c:193-348 | the completion automaton is open exactly while no terminal call was made, and done only if one call is terminal and it is the last |
| EngineInvariants.RunInv | net/golioth/coap_req.c:42-808 | every step of every run, with any user and any network, keeps ownership and completion consistent with the list |
| EngineInvariants.ExactlyOnceCompletion | net/golioth/coap_req.c:193-348 | in every run a submitted request that is still listed had no terminal callback, one that is not listed was freed and had exactly one, as its last callback; a refused one had none at all |
| EngineInvariants.OwnershipOverRuns | net/golioth/coap_req.c:67-79 | in every run each allocated request is listed or freed, never both, freed once, and listed once |
| EngineInvariants.CancelAllNotifies | net/golioth/coap_req.c:766-781 | cancelling all ends with an empty list after one callback per listed request in list order, whatever the callbacks submit |
| EngineInvariants.SubmitAllRefused | net/golioth/coap_req.c:42-53 | nothing is accepted while disconnected |
| EngineInvariants.DisconnectEmptiesTheList | net/golioth/coap_req.c:800-808 | disconnecting in any run reports -ESHUTDOWN once to each listed request, frees everything ever allocated, accepts nothing, and completes every request ever accepted |
| EngineInvariants.GetNextOffered | net/golioth/coap_req.c:257-310 | a block that is not an old one is handed over without an error, and with get_next if and only if more blocks are announced or it overruns the announced size |
| EngineInvariants.RunFaithful | net/golioth/coap_req.c:193-348 | every recorded callback's return value is what the user's function gives for the history before it |
| PollDeadlines.PollPassEffect | net/golioth/coap_req.c:737-753 | from any position in the list, with requests appended and dropped underneath: survivors keep their order, each dropped request had a -ETIMEDOUT callback, and the timeout belongs to a request that waits |
| PollDeadlines.NoMissedDeadline | net/golioth/coap_req.c:737-753 | a pass returns a strictly positive time that is at most the remaining time of every surviving unsettled request and that some request waits for, none when none is unsettled, and every request appended meanwhile raised a wakeup |
| TimerRuns.StepTended | net/golioth/coap_req.c:42-808 | every step but a poll leaves each timer as it was or starts it anew for a new request or a new block, at a clock within that step, and sends nothing |
| TimerRuns.PolledOnSchedule | net/golioth/coap_req.c:689-735 | one poll in time takes a request on its schedule to the schedule's stage for that time, or gives it up if and only if that is the last |
| TimerRuns.RunScheduled | net/golioth/coap_req.c:669-735 | in every run in order whose polls are less than 2^31 ms late, the 32-bit timer of every listed request is the ideal one of its exchange, counted from the clock of its submission or of its last get_next |
| TimerRuns.FourSendsPerExchange | net/golioth/coap_req.c:669-735 | in every run, however late it is polled, at most four datagrams are sent for each submission and for each get_next |
| Retransmissions.PollSendsWhatIsDue | net/golioth/coap_req.c:689-753 | in every run in order and in time, a poll sends in list order exactly one datagram, the present packet, for each waiting request whose ideal schedule has moved on since its last poll and is not over; anything more belongs to requests submitted during the poll |
| Retransmissions.SendsPerExchange | net/golioth/coap_req.c:669-735 | in every such run each listed request has sent, since it was submitted or last asked for a block, exactly as many datagrams as its polls saw the ideal schedule move on |
| Retransmissions.PromptRises | net/golioth/coap_req.c:669-735 | a request polled at least once in every stage of its schedule was sent once in each stage reached |
| Retransmissions.SubmittedIsSent | net/golioth/coap_req.c:428-448 | a request submitted to a connected client, observation or not, is listed under its token, and the next poll in its time sends it with its id and no Block2 option |
| Retransmissions.NextBlockIsSent | net/golioth/coap_req.c:146-177 | after get_next the next poll in time sends the request under the new id with the Block2 option of the block wanted, as a new exchange |
| Retransmissions.RefusedBlockIsSent | net/golioth/coap_req.c:127-177 | when the Block2 option does not fit, what is due goes out under the new id without one, in the old exchange |
| Retransmissions.SubmittedInLastCallback | net/golioth/coap_req.c:737-753 | what the callback of the last node submits is not visited in the pass that drops that node |
| TimerRuns.PolledPastDeadline | net/golioth/coap_req.c:703-718 | in every such run a poll gives up an unanswered request, with its -ETIMEDOUT callback in that pass, if and only if it comes 15 ack or more after the clock of its submission or last get_next; otherwise the request stays at the ideal stage for that time |
| Dispatch.AnswerByToken | net/golioth/coap_req.c:350-400 | among distinct 8-byte tokens a packet with the token of a listed request calls back that request and no other, and leaves every other listed request as it was and in its place |
| Dispatch.UnknownToken | net/golioth/coap_req.c:350-400 | a packet with an 8-byte token that no listed request has changes nothing |
| Dispatch.AnswerById | net/golioth/coap_req.c:364-375 | a packet without a token concerns the first request with its message id alone, and changes nothing when there is none |
| Dispatch.AnswerByPartialToken | net/golioth/coap_req.c:377-379 | a packet with a shorter token concerns the first request whose token begins with it |
| Dispatch.NamelessNeverAnswered | net/golioth/coap_req.c:368-371 | requests without token and id are never answered |
| Dispatch.SubmittedInOrder | net/golioth/coap_req.c:498-576 | while connected, everything submitted that can be built is listed in order with its token, id and kind, and raises a wakeup |
| Dispatch.CallbackSubmits | net/golioth/coap_req.c:498-576 | so is what a callback submits before it returns |
| Dispatch.CodesMean | net/golioth/coap_req.c:81-125 | the error number of each response code: 0 for class 2 alone, and the table for class 4 in classes, details and numbers |
| Dispatch.WholeAnswer | net/golioth/coap_req.c:193-348 | a response without Block2: the first new callback is its request's, with the whole payload or the code's error number; then the request is freed, but an observation without an error stays and is answered |
| Dispatch.BlockAnswered | net/golioth/coap_req.c:227-256 | a block is -EBADMSG and the end if and only if its announced size, its block size or its offset contradicts the transfer; otherwise an old one makes no callback and a new one is handed over at its offset |
| Dispatch.ObservedBlock | net/golioth/coap_req.c:285-310 | a block with more to come ends an observation with -EMSGSIZE, and a get_next in that callback is told -ENOTSUP |
| QuietSteps.InvokeQuiet | net/golioth/coap_req.c:350-400 | callbacks of other requests leave a request's transfer state, calls and datagrams alone |
| QuietSteps.PollPassQuiet | net/golioth/coap_req.c:737-753 | a poll pass hands no payload to a request and sends only its current packet |
| Blockwise.WantedBlockOffset | net/golioth/coap_req.c:127-144 | the Block2 option sent asks for exactly the offset wanted next |
| Blockwise.TransferOverRuns | net/golioth/coap_req.c:227-319 | in every run against a server, the next wanted offset is the amount delivered, and no datagram ever asked for more |
| Blockwise.BlockwiseSafety | net/golioth/coap_req.c:146-319 | against any server with one fixed resource, over any run with loss, delay, repetition and reordering: payloads handed over are contiguous from offset 0 without repeats, always a prefix of the resource, and all of it once `get_next` is NULL |
| Blockwise.RepeatedAnswer | net/golioth/coap_req.c:227-256 | an answer whose block was handed over before is ignored if and only if its block size is at most the one the client now asks for; otherwise the request ends with -EBADMSG |
| Blockwise.RepeatedFirstBlock | net/golioth/coap_req.c:227-256 | a client that asks for 64 bytes takes a first block of 1024 and refuses the same packet when it comes again |
| BlockwiseProgress.TransferCompletes | net/golioth/coap_req.c:146-319 | for every resource, block size and user that takes all blocks there is a run, each packet answering a datagram sent, in which the callback is given the whole resource |
| ObserveRuns.ObserveFreshnessOverRuns | net/golioth/coap_req.c:381-394 | in every run in which notifications, plain answers and error replies reach an observation, its callback is handed exactly the plain answers and the fresh notifications in order of arrival, the notifications in strictly increasing true order |
| ObserveRuns.AnsweredObservationStays | net/golioth/coap_req.c:340-345 | between any two points of any run an answered observation sends nothing, and at the later one it is still answered, or a disconnect, an error reply or a Block2 reply ended it with one error callback in between |
| LightDb.SyncData.PreallocCb | net/golioth/lightdb.c:62-87 | for every payload: the copy into the caller's buffer, in place, how far it reaches behind it, and the announced or received length |
| LightDb.SyncData.SyncCb | net/golioth/coap_req.c:586-614 | the synchronous wrapper: errors are stored and wake the caller, the inner callback's refusal is not stored, the next block is asked for |
| LightDb.ReadHistory | net/golioth/lightdb.c:62-87 | while a transfer runs the buffer holds what was delivered; when it ends, the result is as EndToEndRead needs |
| LightDb.EndToEndRead | net/golioth/lightdb.c:89-111 | whenever the read returns 0 in any run, the first `*len` bytes are a prefix of the resource, and `*len` is its whole length if and only if the buffer is large enough, with or without an announced size |
| LightDb.ErrorReturned | net/golioth/coap_req.c:586-614 | in every run an error that the read's callback is told is what the read returns |
| LightDb.ErrorKept | net/golioth/coap_req.c:586-614 | after any history the read gives back the last error it was told, unchanged, and 0 if and only if there was none |
| LightDb.CopyMeans | net/golioth/lightdb.c:62-87 | -ENOSPC and nothing changed when what is announced, or else what is there, does not fit; otherwise the payload at its offset and the length announced or reached |
| LightDb.CopyLeavesTheBuffer | net/golioth/lightdb.c:62-87 | an accepted copy leaves the buffer if and only if the announced total fits the buffer and the non-empty payload overruns it |
| LightDb.ServerStaysInTheBuffer | net/golioth/lightdb.c:62-87 | against a server with one fixed resource no copy leaves the buffer in any run, whatever its size |
| LightDb.OverrunIsCopied | net/golioth/coap_req.c:257-310 | a last block of 32 bytes with an announced size of 16 is handed over, and copied 16 bytes past a buffer of 16 |
| LightDb.ShortReadReturnsZero | net/golioth/coap_req.c:599-611 | a buffer of 16 bytes and a resource of 32: the callback refuses the second block, and the read returns 0 with 16 bytes |
| CoapClient.CoapRequest.constructor | net/golioth/coap_req.c:402-436 | a new request as submitted: timer from the clock, reply state from before the first notification |
| CoapClient.CoapRequest.NextBlock | net/golioth/coap_req.c:146-177 | get_next: new id, Block2 option for the wanted block, timer restarted, nothing else; when the option does not fit, -EINVAL with the new id, no option and the old timer |
| CoapClient.CoapRequest.PendingCycle | net/golioth/coap_req.c:669-687 | the timer fields after a cycle |
| CoapClient.CoapRequest.Cycles | net/golioth/coap_req.c:696-720 | the retransmission loop: the timer it stops at, whether to send, and whether the retries are used up |
| CoapClient.GoliothClient.constructor | net/golioth/coap_req.c:22-27 | an empty, disconnected client |
| CoapClient.GoliothClient.Submit | net/golioth/coap_req.c:498-576 | a submission appends to the list and raises a wakeup, or frees what was allocated and changes nothing else |
| CoapClient.GoliothClient.SubmitAll | net/golioth/coap_req.c:498-576 | the submissions made from inside a callback, in order |
| CoapClient.GoliothClient.Invoke | net/golioth/coap_req.c:146-177 | a user callback with its re-entrant get_next and submissions, on the objects themselves |
| CoapClient.GoliothClient.GetNext | net/golioth/coap_req.c:146-177 | get_next on a live request; on an observation it calls back with -ENOTSUP instead |
| CoapClient.GoliothClient.CancelAndFree | net/golioth/coap_req.c:72-79 | takes one request out of the list and frees it, the others stay in order |
| CoapClient.GoliothClient.CancelOrSettle | net/golioth/coap_req.c:340-345 | the common exit: an observation without an error stays and is settled, everything else goes |
| CoapClient.GoliothClient.ReplyHandler | net/golioth/coap_req.c:193-348 | the reply handler's whole new client state, for every code and block option |
| CoapClient.GoliothClient.BlockReply | net/golioth/coap_req.c:227-319 | the block-wise branch: inconsistent, repeated, last and further blocks |
| CoapClient.GoliothClient.ProcessRx | net/golioth/coap_req.c:350-400 | the first matching request, and only that, gets the packet, unless it is an old notification |
| CoapClient.GoliothClient.PollRequest | net/golioth/coap_req.c:689-735 | one request polled: waiting, its single send, or giving up |
| CoapClient.GoliothClient.PollPrepare | net/golioth/coap_req.c:737-764 | a pass over a list that changes underneath, with the next node cached, and the minimum of the timeouts |
| CoapClient.GoliothClient.CancelAllWithReason | net/golioth/coap_req.c:766-781 | the cancelling loop's whole new state |
| CoapClient.GoliothClient.OnConnect | net/golioth/coap_req.c:783-798 | submissions are accepted from now on |
| CoapClient.GoliothClient.OnDisconnect | net/golioth/coap_req.c:800-808 | submissions are refused before the first callback runs |
| Connection.GoliothConnection.ConnectSockaddr | net/golioth/golioth.c:161-203 | 0 if and only if there is a descriptor and options, connect() and first datagram all went well; otherwise the first of their errors, and no descriptor left open |
| Connection.GoliothConnection.TryAddresses | net/golioth/golioth.c:224-258 | 0 if and only if some address works in all four steps, and then with the first such one; -EAGAIN unresolved, -ENOENT without addresses, otherwise the last error |
| Connection.GoliothConnection.Connect | net/golioth/golioth.c:260-279 | on success the socket is that of the first address that works in all four steps, and only then are requests accepted; `connected` implies an open socket, and no other descriptor is open |
| Connection.GoliothConnection.Disconnect | net/golioth/golioth.c:281-298 | every request is cancelled before the socket goes; afterwards no descriptor is open |
| CborSkip.SkipEncode | net/golioth/zcbor_any_skip_fixed.c:137-210 | for every item, any nesting, definite or not, and anything behind it: skipping its encoding takes exactly its length |
| CborSkip.SkipIsExact | net/golioth/zcbor_any_skip_fixed.c:137-210 | the skipper succeeds with length n if and only if the first n bytes are the encoding of an item |
| CborSkip.SkipUsedUp | net/golioth/zcbor_any_skip_fixed.c:137-210 | with the element count used up, untagged containers of indefinite length are skipped as before, and nothing else is |
| CborSkip.StrictIsLax | net/golioth/zcbor_any_skip_fixed.c:181-196 | well-formed items with list counts below 2^32 are among those |
| CborSkip.SkipsMalformed | net/golioth/zcbor_any_skip_fixed.c:185-199 | a list that announces 2^32 items and an indefinite map with a lone key are skipped as well |
| ZcborState.State.ValueExtract | net/golioth/zcbor_any_skip_fixed.c:74-118 | a header's argument is read, or the cursor and the count stay as they were |
| ZcborState.State.SkipTagsOf | net/golioth/zcbor_any_skip_fixed.c:151-160 | the tag loop moves past all leading tags of up to 32 bits |
| ZcborState.State.SkipBody | net/golioth/zcbor_any_skip_fixed.c:162-204 | the recursion over strings, lists and maps, ending because bytes are used up |
| ZcborState.State.SkipElements | net/golioth/zcbor_any_skip_fixed.c:190-199 | the element loop: the announced number, or up to the break |
| ZcborState.State.AnySkip | net/golioth/zcbor_any_skip_fixed.c:137-210 | all or nothing: on failure cursor and count are unchanged, on success the cursor is behind the item and the count one lower |
| MapLookup.ValueRead | net/golioth/rpc.c:53-81 | each decode callback takes exactly the values of its kind and consumes exactly their encoding |
| MapLookup.KeyRead | net/golioth/zcbor_utils.c:66-96 | exactly the text and 32-bit number keys are read, and consumed whole |
| MapLookup.PlacesMean | net/golioth/zcbor_utils.c:98-153 | the place of a pair's value is the length of the pairs before it and of its key |
| MapLookup.PlacesHold | net/golioth/zcbor_utils.c:98-153 | the encoding of the value starts at that place |
| MapLookup.MapDecodeIsLookup | net/golioth/zcbor_utils.c:98-153 | for distinct keys of one kind in any order with any well-formed values between: 0 and every output the looked-up value if all wanted keys are there, a list as the place of its own elements and their number; -ENOENT if none is there, -EBADMSG if only some or a value is of the wrong kind |
| MapExact.DecodesOnlyMaps | net/golioth/zcbor_utils.c:98-153 | whatever the bytes, the result is 0, -ENOENT or -EBADMSG; unless it is -EBADMSG a map header and whole pairs with readable keys were read, with 0 at least as many wanted ones as there are entries, with -ENOENT none |
| MapPast.PastByteMatters | net/golioth/zcbor_utils.c:98-153 | the result depends on the byte behind the payload if and only if keys are wanted, the payload is the start of a map of indefinite length followed by whole unwanted pairs only, and exactly one of the two bytes compared is a break |
| MapPast.OpenedAndCut | net/golioth/zcbor_utils.c:98-153 | `0xBF` alone gives -ENOENT with a break behind it and -EBADMSG with 0 |
| MapPast.SettingsIgnorePast | net/golioth/settings.c:140-252 | the settings decoder's result never depends on that byte |
| MapLookup.OneLookedUp | net/golioth/zcbor_utils.c:98-153 | one wanted key is found with its value wherever it is in the map |
| MapDecoder.ParamsDecode | net/golioth/rpc.c:53-81 | the list is consumed to its end and a copy of the cursor at its start is kept, or the call fails |
| MapDecoder.KeyDecode | net/golioth/zcbor_utils.c:66-96 | the key under the cursor by its major type |
| MapDecoder.ValueDecode | net/golioth/zcbor_utils.c:42-64 | the entry's callback on the cursor |
| MapDecoder.MapDecode | net/golioth/zcbor_utils.c:98-153 | the decode loop on the cursor with its outputs written through the table; -EBADMSG also when the forced end of the map fails |
| Settings.SettingRead | net/golioth/settings.c:175-223 | the type dispatch accepts exactly text, 64-bit integers, floats and booleans |
| Settings.InOrderMeans | net/golioth/settings.c:225-242 | handling pairs one by one calls the user once for each supported pair in order, and records exactly the unsupported and the rejected ones in order |
| Settings.SettingsConserved | net/golioth/settings.c:140-252 | for every well-formed settings map: 0, one callback per supported pair in map order, and errors that are exactly the pairs unsupported or rejected, in order |
| Settings.KeyFor | net/golioth/settings.c:166-170 | the key handed on has no zero, is a beginning of the label, and ends with the label, at its first zero or after 63 bytes |
| Settings.PlainNamesKept | net/golioth/settings.c:166-170 | labels that are C strings of at most 63 bytes, and no others, are handed on whole |
| Settings.SettingsUnderTheirNames | net/golioth/settings.c:140-252 | for such labels every callback has the label itself and its value, and every error the label itself with 3 or what the callback returned, in map order |
| Settings.NullIsNoSettings | net/golioth/settings.c:147-150 | a null gives -ENOENT and no callback |
| SettingsExact.SettingsDecodeExactly | net/golioth/settings.c:140-252 | decoding returns 0 if and only if the message starts with a well-formed map with text labels, -ENOENT if and only if with a null, and -EBADMSG otherwise |
| SettingsDecoder.ResponseDecodes | net/golioth/settings.c:83-137 | the map decoder finds the version at `version` and, unless there are none, the list of errors at `errors` |
| SettingsDecoder.ErrorDecodes | net/golioth/settings.c:83-103 | the map decoder finds in each error the setting's key at `setting_key` and the code at `error_code` |
| SettingsDecoder.ResponseEncodes | net/golioth/settings.c:83-137 | the bytes written step by step are the encoding of the response with these errors and this version |
| SettingsDecoder.Response.constructor | net/golioth/settings.c:70-81 | an open map without errors |
| SettingsDecoder.Response.AddError | net/golioth/settings.c:83-103 | one more error at the end, the count one higher, and every put in turn written whole if it fits, the later ones also after one that did not; the bytes are those of the longer list as long as that fits |
| SettingsDecoder.Response.Finalize | net/golioth/settings.c:105-138 | given enough buffer, the finished bytes encode exactly the errors and the version |
| SettingsDecoder.SettingsDecode | net/golioth/settings.c:140-252 | the decode loop on the cursor, with its callbacks and the errors it leaves in the response |
| SettingsDecoder.SettingValue | net/golioth/settings.c:172-242 | one value: a callback, or an error and a skip |
| CoapMessage.OptionRead | net/golioth/coap_utils.c:80-102 | an option with any delta and length, the 13 and 269 extensions included, is read back with what follows it |
| CoapMessage.ParseEncode | net/golioth/coap_req.c:498-563 | an independent parser of section 3 of RFC 7252 reads back every message that is written |
| UriPath.JoinSegments | net/golioth/coap_utils.c:64-103 | joining the segments gives the path back but for one slash at its end; no segment has a slash in it |
| UriPath.SegmentsJoin | net/golioth/coap_utils.c:64-103 | every list of segments without slashes is what splitting its join gives, with a slash behind it always, without one if and only if the last is not empty |
| UriPath.PathRoundTrip | net/golioth/coap_utils.c:64-103 | any range of a terminated path is its leading slashes and the text that the segments give back |
| UriPath.ComponentsInOrder | net/golioth/coap_utils.c:105-117 | the segments of a path vector are those of its components in order |
| UriPath.EstimateIsClose | net/golioth/coap_utils.c:119-140 | the estimate is at least the length of the components, and at most a thirteenth and a byte for each component more |
| UriPath.EstimateAllocLen | net/golioth/coap_utils.c:119-140 | the summing loop computes the estimate |
| UriPath.EstimateIsEnough | net/golioth/coap_utils.c:119-140 | for every path vector, the URI-Path options take at most the estimated bytes |
| RequestPacket.BuildSucceeds | net/golioth/coap_req.c:498-563 | for totals below 65536, every append in a buffer of 128 + estimate + data succeeds, with 7 bytes left for a Block2 option |
| RequestPacket.RequestValues | net/golioth/coap_req.c:518-548 | by option number: the segments in order (11), Observe in a GET that asks for it (6), Content-Format 42, 50 or 60 unless GET or DELETE (12), Accept unless no body is wanted (17), nothing else |
| RequestPacket.RequestArrives | net/golioth/coap_req.c:498-563 | a parser of the packet finds exactly the request: method, id, token, payload, and the values of every option |
| RequestPacket.SmallRequestArrives | net/golioth/coap_req.c:450-563 | every request whose path and data are moderate in length is built without an error and read back by a parser |
| RequestPacket.ArrivesExactly | net/golioth/coap_req.c:498-563 | a parser of a packet that was built finds exactly the request if and only if its data and each of its path segments are below 65536 bytes |
| RequestPacket.LongDataIsCut | net/golioth/coap_req.c:553-563 | data longer than a 16-bit length can tell goes out cut short, without an error |
| RequestPacket.UintRoundTrip | net/golioth/coap_req.c:521-545 | integer options can be read back |
| RequestPacket.BlocksRebuilt | net/golioth/coap_req.c:127-144 | after any number of get_next calls the packet is the original with the last id and one Block2 option |
| RequestPacket.BlockRequestArrives | net/golioth/coap_req.c:127-177 | after any number of get_next calls: same token, at most 7 bytes more than at first, and a receiver finds the request and the block wanted last if and only if the request has no payload |
| RequestBuffer.RequestBuffer.constructor | net/golioth/coap_req.c:450-490 | an empty packet over a fresh buffer, its room the size as a 16-bit number |
| RequestBuffer.RequestBuffer.AppendPath | net/golioth/coap_utils.c:64-103 | the splitting loop appends the segments of the range's text, up to the first that does not fit |
| RequestBuffer.RequestBuffer.AppendPathv | net/golioth/coap_utils.c:105-117 | the components of a path vector in turn |
| RequestBuffer.RequestBuffer.AppendOptions | net/golioth/coap_req.c:518-548 | Observe, path, Content-Format and Accept under their conditions, stopping at the first error |
| RequestBuffer.RequestBuffer.Build | net/golioth/coap_req.c:498-563 | the packet built in the array is BuildPacket's |
| RequestBuffer.RequestBuffer.NextBlock | net/golioth/coap_req.c:127-177 | the id is patched in place, the header saved or put back, and one Block2 option appended |
| LogRecord.SplitMeans | logging/log_backend_golioth.c:349-373 | the text is name, colon, one byte and message, with no colon in the name; it fails if and only if the first colon is the last byte; without a colon it is the message |
| LogRecord.HeaderDecodes | logging/log_backend_golioth.c:115-132 | the map decoder finds the time at `uptime`, the index at `index`, and for other than raw strings `error`, `warn`, `info` or `debug` at `level` and the module's name at `module` |
| LogRecord.ShortTextStored | logging/log_backend_golioth.c:328-376 | a text is stored whole when there is room for it and 22 bytes, or 8 without a function's name |
| LogRecord.DumpIsLast | logging/log_backend_golioth.c:378-398 | the hexdump is the last pair, with as much of the data as there is room for but for 16 bytes |
| LogRecord.CloseFits | logging/log_backend_golioth.c:205-219 | the reserve leaves room for the map's end behind any text or hexdump |
| LogRecord.TextDecodes | logging/log_backend_golioth.c:328-376 | the map decoder finds `func` and `msg` in the finished record, and they are exactly the stored text split at its first colon, or `msg` alone |
| LogBackend.LogContext.Out | logging/log_backend_golioth.c:253-271 | one character ahead of the cursor, or none when there is no room |
| LogBackend.LogContext.FindColon | logging/log_backend_golioth.c:275-286 | the first colon |
| LogBackend.LogContext.EncodePtr | logging/log_backend_golioth.c:221-231 | header, then the string moved down behind it from where it was: nothing not yet moved is overwritten |
| LogBackend.LogContext.MoveDown | logging/log_backend_golioth.c:221-231 | a move between overlapping ranges leaves the old text at the cursor and everything behind it alone |
| LogBackend.LogContext.PutFuncAndMsg | logging/log_backend_golioth.c:353-368 | function and message pairs in place of the text, or -ENOMEM when the colon is its last byte |
| LogBackend.LogContext.ProcessText | logging/log_backend_golioth.c:328-376 | the text part: exactly the pairs of the stored text appended, or an error |
| LogBackend.LogContext.ProcessDump | logging/log_backend_golioth.c:378-398 | the hexdump part: as many bytes as there is room for |
| LogBackend.LogContext.LogMsgProcess | logging/log_backend_golioth.c:288-416 | whenever the headers fit, the message succeeds exactly when text and dump find room, and the buffer then is the encoding of the record's map; the index moves on by one in every case |

## Left out

- Separate responses (section 5.2.2 of RFC 7252): an empty ACK is an error response to the code, and to the model; no property about it.
- Block-wise observations: the code gives up on them with -EMSGSIZE or -ENOTSUP; ObserveFreshnessOverRuns is about responses without Block2, and on observations that nobody calls get_next for.
- Callbacks that call connect or disconnect: undefined in the code.
- Sockets, DTLS options, DNS, mutexes and semaphores: only their outcomes, as parameters of `Connection`.
- MapLookup.MapDecodeIsLookup: does not model maps whose keys repeat or are of another kind than the table's, because the code compares a union without its tag there; keys are read as different when their kinds differ.
- MapDecoder.MapDecode: does not model where `zcbor_list_map_end_force_decode` leaves the cursor, because that is zcbor's; whether it succeeds is a parameter.
- LogBackend.LogContext.LogMsgProcess: says nothing about the bytes when the uptime, module, level and index do not fit, because the code does not look whether module and level were written.
- Sending the log packet and the CoAP header in front of it; formatting is a sequence of characters that comes from outside.
- Settings: the outer message with `settings` and `version`, and registration of the callback.
- RPC method lookup and replies; firmware updates (`fw.c`); LightDB set and delete, streams, which only call the request builder.
- `system_client.c`, Wi-Fi samples, shell commands, credentials: event loops and plumbing.
- Float values are kept as bits; half floats count as floats.
