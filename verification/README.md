# Verified model of the RDMA key-value client and server

The project models two ways of reaching a key-value store on a host that is not trusted, and
proves what their users rely on.

- The **two-sided protocol** (`client_server_twosided/src`): a client numbers its requests, keeps
  the pending ones in a ring of 1024 slots and matches responses back to them; a server thread
  admits requests through a window of sequence numbers, calls the store and answers.
- The **message codec** underneath it (`client_server_common.cpp`), in the encrypted and in the
  unencrypted build.
- The **one-sided store** (`client_server_onesided/src`): fixed-size encrypted blocks in a flat
  region that clients read and write remotely, bound to key, offset and an expected number.
- The **encrypted-cell store** of the test server (`tests/untrusted_kv.cpp`).

`dafny verify dfyconfig.toml` checks everything.

## Reading order

| file | contents |
|---|---|
| `SeqOps.dfy` | the 64-bit `seq_op`, its layout and the arithmetic of request numbers |
| `Messages.dfy` | messages, bytes, outcomes |
| `Server.dfy` | acceptance window and request handler: a class, the function it is proved against, and the exact reordering the window tolerates |
| `Client.dfy` | ring, continuation, calls and drain: a class over a fixed array, and the functions it is proved against |
| `Histories.dfy` | what an atomic store allows clients to observe; it knows nothing of the protocol |
| `Protocol.dfy` | clients, threads and network as a transition system, with its invariant |
| `ProtocolProofs.dfy` | every step keeps the invariant |
| `ProtocolTheorems.dfy` | what follows for every reachable state |
| `Buffers.dfy` | the caller's buffers over whole runs |
| `Arrivals.dfy` | bytes become messages: what the codec and unforgeable tags give the protocol |
| `Replays.dfy` | what happens when a server thread is handed more than it may be, and exactly when that is |
| `Refinement.dfy` | the client's methods, with threads and other clients going on meanwhile, are runs of the transition system |
| `Link.dfy`, `LinkRuns.dfy` | a well-behaved link never leaves a slot taken; its runs are runs of the transition system, and its responses end the client's wait |
| `LittleEndian.dfy`, `Gcm.dfy` | 64-bit integers as bytes; AES-GCM as keystream and tag, and the chunk loop |
| `Codec.dfy`, `PlainCodec.dfy` | encoding, decoding and IVs of messages, in both builds |
| `OneSided.dfy`, `OneSidedStore.dfy` | blocks, the region as a map, and the operations as they run |
| `Freshness.dfy` | reads of a region in hostile hands |
| `UntrustedKv.dfy` | the encrypted-cell store |

Code that changes state is modelled by classes and methods. Each is specified by a function of the
old state, and the lemmas are about those functions. `seq_op` is a record of three fields;
`SeqOps.PackUnpack`, `PackSteps` and `PackMasks` prove that the records are exactly the 64-bit
integers and that the macros act on them as the functions do.

## Assumptions

- Authenticated encryption is ideal where the text says so: what verifies was encrypted by some
  party before (`Arrivals`, `Freshness`). The codec, refinement and cell-store results hold for
  every keystream and every tag function.
- The network may hand any message any party ever encrypted to any server thread and to any
  continuation of a past request: late, out of order, repeatedly or never. A continuation may
  also get bytes that do not decrypt. Two things are assumed of what reaches the threads
  (`Protocol.Admissible`): no thread accepts a request again that was executed, and the reply to a
  reply is not delivered. What a thread rejects may be delivered at any time. Of deliveries that
  execute something `Replays.AdmissibleExactly` proves that no less will do, of the others
  `Replays.HarmlessExactly` says which do harm. Replies to requests may reach the threads; they
  are executed, on the empty key (`Histories.StrayMeans`).
- Nobody can forge a tag (`Arrivals.Unforged`); that what decrypts was encrypted by some party is
  then derived from the codec (`Arrivals.DecodesToSent`).
- A client issues fewer than 2^53 requests, so that its numbers do not recur.
- Each call of the store is atomic; a put may fail and then changes nothing; get and delete fail
  exactly on a missing key.
- Each endpoint is sequential, and callbacks issue no requests.
- A remote write that fails leaves a first part of the block; if the mixture of two blocks then
  verifies at all, it is one of the two (`OneSided.Untorn`).
- Client and server of the one-sided store each have a table of their own, with the same keys and
  offsets. There is one writing client; the server's numbers never run ahead of the client's.
- OpenSSL and memory allocation succeed, apart from the tag check and where a parameter says
  otherwise (`encryptFails`, `mmapFails`, `WriteResult`, `ReadResult`). `mmapFails` stands for a null pointer, the
  only failure the code looks for. Random IVs and the first number are parameters.
- Buffers a caller passes are large enough; null pointers are passed only for parts of length zero
  or where the code allocates.

## Where the code says less than its comments

- The window (`Server.cpp:280-284`, `ServerThread.cpp:70-80`) is not a replay check. It admits
  everything within 128 numbers of the expected one, processed or not. `Server.HandledAgain` says
  when a request delivered again at once is executed again, `Server.ReplayExact` and
  `Server.ReplayAfterShuffle` which of all earlier requests still are,
  `Server.ReplayAfterAnything` the same after any deliveries whatever, and `Replays.TwoExecutions`
  gives the failing run.
- The handler does not tell a reply from a request (`Server.ReplyHandled`). A reply to a request is
  harmless but for the empty key. The reply to such a reply has the number of the client's next
  request, and handing it to the thread too makes a put succeed that never reached the store:
  `Replays.SuccessWithoutExecution`. With the reply to a failed put it makes the next put fail:
  `Replays.FailureWithoutExecution`.
- The window takes the plain difference, not the one modulo 2^54, and reads zero as "not
  synchronised". `ReorderExact` gives the exact condition under which nearby reordering is
  accepted, `SwapAtWrapRejected` two exchanges of neighbours at the wrap that are not.
- `queue_full` does not mean 1024 pending requests: `QueueFullMeaning`, `FullWithout1024`.
- The number of an undecryptable response is uninitialised (`Client.cpp:316-325`, `347`); it is
  arbitrary here, and such a response may end any one pending request with INVALID_RESPONSE:
  `GarbageEnds`. One that decrypts cannot end another request than its own:
  `OnlyGarbageEndsOthers`.
- `decrypt_message` fills the caller's buffer before the number is checked. Statements about that
  buffer are about the moment of the callback.
- `rdma_get` decodes whatever its buffer holds when a read ends with an error status and an event
  that is not the end of the connection (`onesided_client.c:158-170`): `ReadResult.Unnoticed`. As
  for any bytes, `Freshness.ReadIsCurrent` says what can come of it.
- `rdma_put` gives back the number of a failed put and `server_put` never advances it. So reads are
  not always fresh: `FreshExactly` says when they are, `FailedPutReturns` and `ServerPutReplaceable`
  show both families of exceptions, and `StaleServerPut` that a server put after a client put is
  not readable for the client at all.

## Model

| member | source | states |
|---|---|---|
| ProtocolTheorems.SuccessIsLinearizable | client_server_twosided/src/Client.cpp:309-348 | In every reachable state, each OP_SUCCESS callback of a get, put or delete has exactly one execution of that number in the whole history, between issue and callback; the put or delete had its effect there, and a get's buffer and length at the callback hold what the store held there |
| ProtocolTheorems.RunsAreLegal | client_server_twosided/src/Server.cpp:255-303 | For any number of clients and any delivery of any encrypted messages to clients and threads by which no thread accepts an executed request again or gets a reply to a reply, the history is one the atomic store allows, and the server's store is the replay of that history |
| Histories.Linearization | client_server_twosided/src/Server.cpp:167-233 | In any legal history a success has a single point between issue and completion at which the operation took effect on the replayed store |
| Histories.FailureIsReal | client_server_twosided/src/Client.cpp:335-340 | OP_FAILED is reported only for a request the store executed and refused without change: the key was missing at that point, or the put was refused |
| Histories.OneExecution | client_server_twosided/src/Server.cpp:281-284 | In a legal history no number a client issued is executed twice |
| Histories.StrayMeans | client_server_twosided/src/Server.cpp:273-303 | In a legal history, what is executed without having been asked for is the store's own answer to an earlier request, and changes the empty key at most |
| Histories.OneCompletion | client_server_twosided/src/sent_message_tag.cpp:21-25 | No request completes twice, however often its response comes |
| ProtocolTheorems.Conservation | client_server_twosided/src/PendingRequestQueue.cpp:71-118 | Requests issued equal completions plus valid slots in every reachable state, and no request completes twice |
| ProtocolTheorems.RingHoldsNewest | client_server_twosided/src/PendingRequestQueue.cpp:10-11 | Each valid slot holds a pending request, the newest issued with that index and one of the last 1024; each pending request is in its slot; for any start number, across the wrap, and with numbers reused after failed sends |
| ProtocolTheorems.QueueFullMeaning | client_server_twosided/src/PendingRequestQueue.cpp:121-125 | `queue_full` holds if and only if the request issued 1024 sends ago is still pending |
| ProtocolTheorems.QueueFullCount | client_server_twosided/src/PendingRequestQueue.cpp:121-125 | 1024 pending requests imply it; a full queue has 1024 pending if and only if requests ended in issue order |
| ProtocolTheorems.FullWithout1024 | client_server_twosided/src/PendingRequestQueue.cpp:121-125 | Every client can get to a state where the queue is full with 1023 requests pending |
| ProtocolTheorems.DrainOrder | client_server_twosided/src/PendingRequestQueue.cpp:109-118 | From every reachable state, whatever completions came before, a drain reports TIMEOUT once for each pending request and for no other, oldest first, and leaves no valid slot |
| ProtocolProofs.StepKeeps | client_server_twosided/src/Client.cpp:142-202 | Every step of clients, threads and network keeps the invariant on rings, messages in flight and history |
| ProtocolProofs.ResponseMatching | client_server_twosided/src/Client.cpp:329-347 | For every number a decrypted response may carry: if it passes the check, the recomputed slot is the one it came with and only that one ends; if not, no slot changes and no callback is made |
| ProtocolTheorems.GarbageEnds | client_server_twosided/src/Client.cpp:323-347 | In every reachable state, a response that does not decrypt, to whatever request, can end any pending request with INVALID_RESPONSE |
| ProtocolTheorems.OnlyGarbageEndsOthers | client_server_twosided/src/Client.cpp:329-347 | One that decrypts never ends another request than the one it came with |
| ProtocolProofs.AnswersSlot | client_server_twosided/src/Client.cpp:329-333 | A message that passes the check is the server's reply to the very request in the slot, never a reflected request, a reply to another or a reply to a reply |
| ProtocolProofs.ReplyIsTruthful | client_server_twosided/src/Client.cpp:335-347 | What the continuation reports then agrees with the execution of that request |
| Arrivals.DecodesToSent | client_server_twosided/src/client_server_common.cpp:245-374 | With unforgeable tags, bytes decrypt if and only if their tag is right, and then to a message some party encrypted |
| Arrivals.EverythingSentArrives | client_server_twosided/src/client_server_common.cpp:65-374 | Conversely, every encrypted message arrives as itself |
| Arrivals.BytesAtClient | client_server_twosided/src/Client.cpp:309-348 | Any bytes handed to the continuation of a past request are a step the protocol allows for |
| Arrivals.BytesAtServer | client_server_twosided/src/Server.cpp:255-271 | Any bytes handed to a server thread are ignored or such a step |
| Refinement.RequestIsRun | client_server_twosided/src/PendingRequestQueue.cpp:71-86 | A call with its wait, during which threads and other clients go on and responses to what was sent meanwhile come in, ending in a send or in a failed encryption, is a run of the transition system; client state, completions and message are those of the method |
| Refinement.LoopIsRun | client_server_twosided/src/Client.cpp:297-300 | Any number of event loops, with the others going on before, between and after the responses, is a run of the transition system to the client state and the completions of the method |
| Refinement.RunIsInterleaved | client_server_twosided/src/PendingRequestQueue.cpp:77-79 | Conversely, every run in which a client only handles responses is such a wait |
| Refinement.DrainIsRun | client_server_twosided/src/PendingRequestQueue.cpp:109-118 | So is a drain |
| Clients.ClientEndpoint.constructor | client_server_twosided/src/PendingRequestQueue.cpp:21-48 | The counter starts at random bits with the ID written over them; all slots are free |
| Clients.ClientEndpoint.IncSeq | client_server_twosided/src/PendingRequestQueue.h:39-42 | The number moves on by two |
| Clients.ClientEndpoint.Validate | client_server_twosided/src/sent_message_tag.cpp:9-16 | The slot of the next number is filled for the call, a disconnect leaving the value pointer of the slot's former request |
| Clients.ClientEndpoint.Invalidate | client_server_twosided/src/sent_message_tag.cpp:21-25 | The slot is freed and its callback made with buffer and length as they are |
| Clients.ClientEndpoint.MessageArrived | client_server_twosided/src/PendingRequestQueue.cpp:95-106 | At most one request ends, the one in the slot of the preceding number, if it is pending |
| Clients.ClientEndpoint.DecryptContFunc | client_server_twosided/src/Client.cpp:309-348 | New state and callbacks of the continuation, for every slot and every arriving bytes; no buffer or length but those of the slot is touched |
| Clients.ContinueBuffers | client_server_twosided/src/Client.cpp:315-325 | For every state, arrival and buffer: only the slot's own buffer is written, wanted or not, at its front; what lies behind stays |
| Clients.ContinueLengths | client_server_twosided/src/Client.cpp:335-342 | Only the slot's own length is written, and only on success |
| Clients.ContinueReports | client_server_twosided/src/Client.cpp:323-347 | Which slot ends with which result, for every arriving number |
| Clients.ReportShows | client_server_twosided/src/sent_message_tag.cpp:21-25 | What the callback is told and what the caller's memory holds then |
| Clients.CallLeaves | client_server_twosided/src/Client.cpp:165-202 | What a call leaves in its slot, sent or not, and that it leaves everything else alone |
| Clients.DrainLeaves | client_server_twosided/src/PendingRequestQueue.cpp:109-118 | A drain changes nothing but which slots are valid |
| Buffers.BufferStays | client_server_twosided/src/Client.cpp:315-325 | Over any run a buffer stays as it is until a response comes for a slot that points to it |
| Buffers.DeliveryStays | client_server_twosided/src/Client.cpp:341-347 | So a value delivered by a success callback stays in its buffer until then |
| Clients.ClientEndpoint.PrepareNewRequest | client_server_twosided/src/PendingRequestQueue.cpp:71-86 | The wait runs the event loop exactly while the slot is taken, then fills it |
| Clients.ClientEndpoint.Request | client_server_twosided/src/Client.cpp:165-295 | get, put, del and disconnect: what is sent under which number; on failed encryption the slot is given back and the number is not used up |
| Clients.ClientEndpoint.InvalidateAllRequests | client_server_twosided/src/PendingRequestQueue.cpp:109-118 | The loop in place equals the cyclic drain the lemmas are about |
| Clients.ClientEndpoint.IsQueueFull | client_server_twosided/src/PendingRequestQueue.cpp:121-125 | The test of the next number's slot |
| Server.ServerThread.IsSeqValid | client_server_twosided/src/ServerThread.cpp:64-87 | The 64-bit subtraction and absolute value compute the plain distance; a rejected number changes nothing |
| Server.ServerThread.GetNextSeq | client_server_twosided/src/ServerThread.cpp:94-98 | The response takes the next number, and the one after it is expected |
| Server.ServerThread.SendEncryptedResponse | client_server_twosided/src/Server.cpp:128-149 | A reply is sent if and only if its 44 bytes and value fit the buffer and encryption succeeds |
| Server.ServerThread.ReqHandler | client_server_twosided/src/Server.cpp:255-303 | Which requests reach the store and what they do there; which number is expected next; what is answered under which number and when nothing is; that a disconnect and nothing else ends the connection |
| Server.OthersIgnored | client_server_twosided/src/ServerThread.cpp:64-69 | Another client's get, put or delete executes nothing and changes nothing |
| Replays.ConnectedExactly | client_server_twosided/src/Server.cpp:273-279 | After any run a thread is still connected if and only if no disconnect was delivered to it |
| Replays.ReachableConnected | client_server_twosided/src/ServerThread.cpp:104-106 | So in every reachable state, all threads starting connected |
| Arrivals.RepliesFit | client_server_twosided/src/Server.cpp:134-146 | Every reply fits the buffer once encrypted, and none is sent that would not or whose encryption fails |
| Server.WindowExact | client_server_twosided/src/ServerThread.cpp:70-80 | For a request at most 64 positions from the expected one, anywhere in any lap of the counter: it is accepted if and only if no wrap lies between them or zero is expected; on one lap that distance is the exact condition |
| Server.InOrderForever | client_server_twosided/src/ServerThread.cpp:64-98 | In-order delivery is accepted for ever, across the wrap and the zero, and the number expected is that of the client's following request |
| Server.ReorderExact | client_server_twosided/src/ServerThread.cpp:64-98 | A permutation that displaces requests by at most 32 positions is accepted throughout if and only if no two successive deliveries lie on different sides of a wrap |
| Server.ReorderBy32Accepted | client_server_twosided/src/ServerThread.cpp:64-98 | So displacement by 32 is always accepted before the wrap |
| Server.ReorderBy33Rejected | client_server_twosided/src/ServerThread.h:12 | The bound is tight: for every start some permutation of at most 69 requests with displacement 33 loses one |
| Server.SwapAtWrapRejected | client_server_twosided/src/ServerThread.cpp:70-75 | Two concrete exchanges of neighbours at the wrap that are rejected |
| Server.HandledAgain | client_server_twosided/src/Server.cpp:280-303 | A request delivered again right after its execution is executed again if and only if its number is not the very last before the wrap |
| Server.ReplyHandled | client_server_twosided/src/Server.cpp:255-303 | The reply to an executed request, handed back at once, is executed if and only if it reports success; a put's reply stores the empty value under the empty key |
| Server.WindowAnywhere | client_server_twosided/src/ServerThread.cpp:70-80 | The exact condition of acceptance for any two requests at most 2^53 apart |
| Server.ReplayExact | client_server_twosided/src/ServerThread.cpp:64-98 | After any number of requests in order, an earlier one is accepted again if and only if it is one of the last 64 on the same lap, or zero is expected, or the numbers are about to recur |
| Server.ReplayAfterShuffle | client_server_twosided/src/ServerThread.cpp:64-98 | After a run shuffled by 32 positions and accepted throughout, the exact condition by the distance to the last delivery, across the wrap too; before the wrap it is to be less than 64 before that delivery |
| Server.ReplayAfterAnything | client_server_twosided/src/ServerThread.cpp:64-98 | After any deliveries whatever, the exact condition of acceptance by the distance to the last one accepted |
| Replays.AdmissibleExactly | client_server_twosided/src/Server.cpp:280-303 | In every reachable state, executing a delivered message keeps the history one of an atomic store if and only if the message is a request not executed before or has none of its client's numbers |
| ProtocolProofs.RejectedIdle | client_server_twosided/src/Server.cpp:280-284 | A message outside the window or of another client changes nothing when delivered |
| Replays.HarmlessExactly | client_server_twosided/src/Server.cpp:273-284 | In every reachable state, a delivery that executes nothing makes a response that answers no request if and only if it returns the error reply to a reply, that is answered, and the store did not happen to refuse the request of that number; otherwise it keeps the invariant |
| Replays.EchoedErrorFails | client_server_twosided/src/Server.cpp:239-246 | Such a response ends the pending request of its number with OP_FAILED |
| Replays.ServedTwice | client_server_twosided/src/Server.cpp:280-303 | In any state, the log after delivering an executable request twice holds it twice, unless its number is the last before the wrap |
| Replays.TwoExecutions | client_server_twosided/src/Server.cpp:280-303 | From every initial state a request that is delivered twice is executed twice: the first of a client, or its second if it starts at the last number before the wrap |
| Replays.SuccessWithoutExecution | client_server_twosided/src/Server.cpp:255-303 | From every initial state not just before the wrap: with two replies returned to the server, a put of any value to any other non-empty key reports success though nothing with its key was executed |
| Replays.FailureWithoutExecution | client_server_twosided/src/Server.cpp:273-279 | From every initial state not just before the wrap: with the reply to a failed put and the reply to that returned to the server, the next put reports failure though it was never executed |
| Links.NoStuckSlot | client_server_twosided/src/PendingRequestQueue.cpp:71-106 | With no loss, displacement of at most 32 and no wrap: once nothing is in flight no slot is taken and every request issued has ended with OP_SUCCESS or OP_FAILED |
| Links.DeliveriesDrain | client_server_twosided/src/PendingRequestQueue.cpp:77-79 | A measure on the messages in flight bounds every run of deliveries |
| Links.DeliveryPossible | client_server_twosided/src/Server.cpp:128-149 | Until nothing is in flight a delivery is possible, if answers fit |
| Links.WaitEnds | client_server_twosided/src/PendingRequestQueue.cpp:77-79 | From every state of such a link, any run of as many deliveries as the measure says leaves nothing in flight and the next slot free |
| Links.WaitCanEnd | client_server_twosided/src/PendingRequestQueue.cpp:77-79 | And there is such a run, if answers fit |
| LinkRuns.WaitLoopEnds | client_server_twosided/src/PendingRequestQueue.cpp:77-79 | The responses of such a run, as event loops of the client, end its wait at a free slot |
| Links.Accepted | client_server_twosided/src/ServerThread.cpp:64-98 | Every delivery on such a link is executed and answered |
| LinkRuns.LinkIsProtocol | client_server_twosided/src/Client.cpp:142-152 | Every run of such a link is, step by step, a run of the general protocol to the same client, thread, store and completions |
| SeqOps.PackUnpack | client_server_twosided/src/client_server_common.h:13-26 | Every 64-bit integer is the layout of exactly one triple of sequence, ID and operation |
| SeqOps.PackSteps | client_server_twosided/src/client_server_common.h:17-18 | NEXT_SEQ and PREV_SEQ with their 64-bit wrap are successor and predecessor of the sequence and undo each other |
| SeqOps.PackMasks | client_server_twosided/src/client_server_common.h:24-26 | SET_OP, SET_ID and the comparison without the operation bits act on the fields |
| SeqOps.NumberedFacts | client_server_twosided/src/PendingRequestQueue.cpp:8-11 | The n-th request number has the start's parity and slot (start/2 + n) mod 1024, across the wrap, and n can be recovered from it |
| SeqOps.NumberedInjective | client_server_twosided/src/PendingRequestQueue.h:39-42 | Fewer than 2^53 requests have distinct numbers |
| Gcm.CipherUpdate | client_server_twosided/src/client_server_common.cpp:24-52 | The chunk loop ends for every length, beyond 2^31 - 1 too, and writes the combination of the whole input with the keystream from the context's position: each byte is the exclusive or with the keystream byte of its own place, and differs from the input exactly where that is not zero |
| Gcm.SpliceAt | client_server_twosided/src/client_server_common.cpp:30-45 | A write leaves its data at its place and every byte around it as it was |
| Gcm.XorBitwise | client_server_twosided/src/client_server_common.cpp:33-34 | Combining two bytes adds them bit by bit modulo two |
| Gcm.XorCancels | client_server_twosided/src/client_server_common.cpp:33-34 | Different keystream bytes give different results, and only zero leaves a byte as it is |
| Codec.RoundTrip | client_server_twosided/src/client_server_common.cpp:65-180 | Decoding what was encoded yields header, key and value again, and the length is `CIPHERTEXT_SIZE` |
| Codec.EncodeLayout | client_server_twosided/src/client_server_common.h:58-76 | 12 bytes of IV, the plaintext combined with the keystream from its start, 16 bytes of tag over the whole ciphertext |
| Codec.TextLayout | client_server_twosided/src/client_server_common.h:40-63 | The plaintext is number, key length, key and value, in this order |
| LittleEndian.ByteAt | client_server_twosided/src/client_server_common.h:40-43 | The lowest byte of a number comes first |
| Codec.DecodesExactly | client_server_twosided/src/client_server_common.cpp:245-358 | Bytes decrypt if and only if they are at least 44, carry the tag of the whole ciphertext and a key length that fits |
| Codec.TamperedFails | client_server_twosided/src/client_server_common.cpp:303-308 | A message changed behind its IV fails under its old tag unless the tag function collides |
| Codec.Inverse | client_server_twosided/src/client_server_common.cpp:284-358 | What decodes has key and value lengths that sum to `PAYLOAD_SIZE`, and encoding it with the same IV reproduces the bytes |
| Codec.PlainRoundTrip | client_server_twosided/src/client_server_common.cpp:256-282 | Both directions for the unencrypted build, where parsing succeeds if and only if the key length fits |
| Codec.EncryptMessage | client_server_twosided/src/client_server_common.cpp:65-180 | At the given place of a buffer, or in a new one, stands the encoding under the next IV, and nothing around it changes |
| Codec.AllocateAndDecrypt | client_server_twosided/src/client_server_common.cpp:202-228 | The caller's buffer or a new one holds the decryption from the context's position |
| Codec.DecryptMessage | client_server_twosided/src/client_server_common.cpp:245-374 | Succeeds if and only if decoding does, and then leads to that header, key, value and length; a caller's buffer is left alone behind its part |
| PlainCodec.EncryptMessage | client_server_twosided/src/client_server_common.cpp:87-98 | Header, key and value in the unencrypted build, with either kind of buffer |
| PlainCodec.DecryptMessage | client_server_twosided/src/client_server_common.cpp:256-282 | Succeeds if and only if the key length fits; the length of the value is left alone if the value is empty |
| Codec.NoncesDistinct | client_server_twosided/src/client_server_common.cpp:108-117 | From a counter that is not zero to its wrap no IV is used twice |
| Codec.IvSource.Advance | client_server_twosided/src/client_server_common.cpp:108-117 | While the counter is zero the random IV is drawn, counter and rest; then the counter goes up by one |
| Codec.SeedOrCount | client_server_twosided/src/client_server_common.cpp:108-117 | The same of the function the other results speak of |
| Codec.FreshDiffer | client_server_twosided/src/client_server_common.cpp:108-113 | Fresh sources with different random bytes start with different IVs |
| Codec.FreshDistinct | client_server_twosided/src/client_server_common.cpp:108-117 | From a fresh source on no IV is used twice until the counter of the random one wraps |
| OneSided.AadInjective | client_server_onesided/src/client_server_utils.c:255-268 | Additional data determine key and offset, for keys of any length |
| OneSided.BlockRoundTrip | client_server_onesided/src/client_server_utils.c:290-504 | A block read for its key and offset yields its value if the number is the one it was written with, and nothing otherwise |
| OneSided.BlockLayout | client_server_onesided/src/onesided_global.h:11-24 | 12 bytes of IV, number and value combined with the keystream from its start, 16 bytes of tag over key, offset and the whole ciphertext |
| OneSided.DecodesExactly | client_server_onesided/src/client_server_utils.c:405-497 | The exact condition under which a block yields a value, and which |
| OneSided.MovedBlockRefused | client_server_onesided/src/client_server_utils.c:255-268 | A block moved to another key or offset is refused unless the tag function collides on additional data that differ |
| OneSided.PutRefines | client_server_onesided/src/onesided_client.c:222-229 | A put changes the map of values its own side can read at its key only |
| OneSided.FailedPutRefines | client_server_onesided/src/onesided_client.c:222-228 | A failed put, whatever part of it landed, can touch its own key only |
| OneSided.RunRefines | client_server_onesided/src/client_server_utils.c:518-567 | Every run of gets, own puts, puts of the other side under any number and puts failing half-way answers as the tables and the order of events say: the last value; nothing if the numbers differ or a failed put arrived whole; nothing or as before if it arrived in part |
| OneSided.RunIsMap | client_server_onesided/src/client_server_utils.c:518-567 | No run of one side's successful puts and gets can be told from one over a map |
| OneSided.SidesShareBytes | client_server_onesided/src/onesided_server.c:171-182 | A put of one side leaves the bytes the other side's view of it says, under the number of the first side's table |
| OneSided.ReadTorn | client_server_onesided/src/onesided_client.c:222-228 | After a failed put the key reads as before, or as nothing, or as one of the two, depending on how much arrived |
| OneSidedStore.InitCrypt | client_server_onesided/src/client_server_utils.c:239-271 | The key comes first in what is authenticated, then the eight bytes of the offset |
| OneSidedStore.EncryptKeyValueData | client_server_onesided/src/client_server_utils.c:290-371 | The block is written to its place and nothing else changes |
| OneSidedStore.DecryptKeyValueData | client_server_onesided/src/client_server_utils.c:401-504 | A value is returned if and only if tag and number are right |
| OneSidedStore.Endpoint.OnesidedPut | client_server_onesided/src/client_server_utils.c:554-567 | What reaches the region is a first part of the encrypted block, all of it on success |
| OneSidedStore.Endpoint.RdmaPut | client_server_onesided/src/onesided_client.c:222-229 | Table and region after each way the write can end; the number is given back on failure |
| OneSidedStore.Endpoint.RdmaGet | client_server_onesided/src/onesided_client.c:133-184 | Returns the value of the block in the region, or of what an unnoticed read failure left in the buffer, if it verifies; nothing otherwise; and leaves the store and the caller's buffer behind the value alone |
| OneSidedStore.Endpoint.ServerPut | client_server_onesided/src/onesided_server.c:179-182 | Writes in place under the old number of the server's own table |
| OneSidedStore.SetupKvStore | client_server_onesided/src/onesided_server.c:79-121 | Refuses a destination that is too small; otherwise every entry is the encrypted block of its slice of the plaintext and reads back as it, and nothing behind the entries changes |
| OneSidedStore.SetupIsStore | client_server_onesided/src/onesided_server.c:79-121 | Over distinct keys the result has its entries in place and stands for the map from the keys to the slices |
| Freshness.ReadIsCurrent | client_server_onesided/src/client_server_utils.c:485-497 | Whatever the region returns, a read fails or yields a value written for this key with the current number: blocks rolled back, moved or swapped are refused |
| Freshness.FreshExactly | client_server_onesided/src/onesided_client.c:222-229 | After any run of puts, failed puts and server puts under equal or older numbers, reads of a key fail or return its last value if and only if that value and no other was put or tried under the client's number |
| Freshness.FreshWithoutFailures | client_server_onesided/src/onesided_client.c:222-229 | In particular with client puts only, none of them failed |
| Freshness.FailedPutReturns | client_server_onesided/src/onesided_client.c:224-227 | After a failed put and a successful one, there are bytes the region may show that verify and read as the failed value; so reads are not fresh if the values differ |
| Freshness.ServerPutReplaceable | client_server_onesided/src/onesided_server.c:179-182 | After a server put, under an equal or older number, there are bytes that verify and read as any value the client could read before; so reads are not fresh if that is another |
| Freshness.StaleServerPut | client_server_onesided/src/client_server_utils.c:491-496 | A value the server put under an older number than the client's cannot be read by the client |
| Freshness.SetUpBalanced | client_server_onesided/src/onesided_server.c:105-111 | A state with one block for each key satisfies what the freshness results start from |
| Freshness.SetupIsSetUp | client_server_onesided/src/onesided_server.c:79-121 | What the setup loop guarantees over distinct keys is such a state |
| Freshness.PutsAreSteps | client_server_onesided/src/onesided_client.c:222-229 | `rdma_put` moves table and region as the steps of the freshness results say |
| Freshness.ServerPutIsStep | client_server_onesided/src/onesided_server.c:179-182 | So does `server_put`, through the server's own table |
| UntrustedKv.AllocatedLaid | client_server_twosided/tests/untrusted_kv.cpp:56-79 | A new cell is in bounds and apart from all others, in old and new areas, and disturbs none |
| UntrustedKv.PutRefines | client_server_twosided/tests/untrusted_kv.cpp:131-149 | Encrypting into the cell of a key keeps the layout and changes the map at that key only |
| UntrustedKv.Kv.UntrustedMalloc | client_server_twosided/tests/untrusted_kv.cpp:56-79 | The next cell of the current area if it has room, otherwise the first of a new area, and failure only if there is none |
| UntrustedKv.Kv.KvPut | client_server_twosided/tests/untrusted_kv.cpp:119-153 | Encrypting in place, the map gains the value; a key keeps its cell, a new one gets the next; the put fails, and changes nothing, only for a new key with no room and no memory |
| UntrustedKv.Kv.KvGet | client_server_twosided/tests/untrusted_kv.cpp:91-116 | Every key present decrypts to the value last put, every other yields null |

## Left out

- Transport, remote memory access, sessions and registration: abstract steps that deliver, lose, read and write.
- Threads and locks: endpoints are sequential, store calls atomic. The shared IV and the thread-local buffers are not synchronised in the code either.
- Callbacks that issue requests: `prepare_new_request` computes its slot before it waits, so the ring is not meant for them.
- Guarantees for requests delivered again after their execution, and which request an undecryptable response belongs to: the code gives none, and the lemmas named above show it.
- Disconnects beyond their slot in the ring, the `connected` flag, and `stay_connected` beyond being cleared: a thread's last turns of its event loop and its end.
- The event loops `send_message` runs after sending: they are further runs of `RunEventLoopOnce`.
- Argument checks for null keys and values, and the asserted size limits.
- Memory release, and payloads a response allocates without a caller's buffer.
- Failures inside OpenSSL other than the tag check. In particular, a server put whose encryption fails half-way leaves a broken block.
- Clients.ClientEndpoint.PrepareNewRequest: the wait is over a finite number of event loops, since nothing in the code alone ends it; that it does end is `LinkRuns.WaitLoopEnds`, on a well-behaved link.
- `kv_delete` of the encrypted-cell store, which releases a cell it did not allocate; values of another size than `VAL_SIZE`.
- `setup_kv_store` without a key, one-sided values of length zero and the one-sided path without encryption.
- Test drivers, command lines, benchmarks, trace files and build files: they drive and measure the code modelled here and hold no logic of the protocol or the stores.
