# MyBlob in Dafny

MyBlob is a C++ client for cloud object storage. This project models the parts of it that are protocols and
state machines, and proves what they keep in every run. Code that changes things in place is modelled as methods and
classes with loops, each proved equal to a function on values; the lasting properties are lemmas about those functions.

| files | part of the client |
|---|---|
| `RingBuffer*.dfy` | the queue between threads: two spin locks, four counters, one step per atomic operation, any interleaving |
| `PartPlan.dfy`, `Multipart*.dfy`, `TransactionSync.dfy` | multipart upload: cutting into parts, the callbacks and their countdown, the `processSync` loop |
| `DataVector.dfy`, `HttpTask*.dfy`, `HttpMessage.dfy` | one request and its response: partial sends and receives, retries, the receive buffer |
| `EventLoop*.dfy` | the scheduler of one sender, over an abstract socket |
| `HttpResponse.dfy`, `HttpHelper.dfy`, `HttpFraming*.dfy`, `HttpStatus.dfy`, `HttpLength.dfy` | parsing a response header and deciding when the response is complete, and what that means on the bytes |
| `ConnectionPool.dfy`, `ConnectionManager.dfy` | the pool of connections |
| `HttpRequest*.dfy`, `HttpWire.dfy`, `UrlEncoding.dfy` | printing and parsing requests, and their text on the wire |
| `AwsSigner*.dfy`, `AwsReceiver.dfy`, `AwsNormal.dfy`, `AwsLines.dfy`, `AwsAccepted.dfy` | signing with AWS Signature Version 4, signing again, and which requests the service accepts |
| `PollSocket.dfy`, `SocketCache.dfy` | the poll backend and the socket cache |
| `Texts.dfy`, `Dictionary.dfy`, `Words.dfy`, `Options.dfy` | text search, `std::map`, machine words, optional values |

Environment and assumptions: atomic operations are sequentially consistent; ring counters stay below 2^64 and the ring has
a positive size. The kernel completes a request with at most what was asked for or with zero or an error code; the pool answers
each request for a connection as it likes. The abstract socket accepts all prepared requests and completes each once. Clock,
hash functions, message authentication and base64 are parameters. A byte is a `char`.

Where the code does something else than its comments or the evident intent suggest, the model follows the code, and a lemma
says exactly when it matters:

- `empty()` loads two counters without a lock; loaded in one of the two possible orders it can be wrong
  (`RingBufferEmpty.InsertFirstCanBeWrong`; exactly when, `RingBufferEmpty.InsertFirstExact`).
- The part count has 16 bits; a count that wraps gives wrong parts or none (`PartPlan.SplitParts`, `PartPlan.CountsThatWrap`). With zero
  parts `processSync` never ends (`TransactionSync.Transaction.ProcessSync`, `TransactionSync.UploadNeverEnds`, `PartPlan.SomeObjectWraps`), and with 65535 parts
  the part loop does not (`PartPlan.IndexLeavesLoop`).
- A header that arrives in two pieces is a failure and is retried (`HttpFraming.SplitVerdict`, `HttpFramingExamples.HeaderInTwoFails`).
- The end of a chunked body is searched for as one fixed text. So a response with a trailer section or an extension on its last
  chunk is not found complete, unless its last line happens to end in a zero; and a header or a chunk that imitates the text ends
  the response early (`HttpFraming.ChunkedExact`, with inputs in `HttpFramingExamples`).
- The failure code is never cleared, so a task that needed a retry never counts as a success (`HttpTaskTheorems.SuccessIffNoFailure`,
  `HttpTaskExamples.RetryIsNoSuccess`).
- After EAGAIN the receive window is reserved once more, which throws for a full buffer of the caller (`HttpTaskTheorems.ThrowsExactly`,
  `HttpTaskExamples.BusyThrows`).
- A task that gives up because memory of the caller is full keeps its connection for good (`HttpTaskTheorems.ConnectionsGivenBack`,
  `HttpTaskExamples.FullKeepsConnection`).
- The cleanup of idle connections leaves their slots taken, so capacity is lost for good (`ConnectionPool.CapacityLost`).
- Signing again encodes reserved characters of queries a second time (`AwsSignerTheorems.ResignFixedPoint`, `AwsSignerTheorems.SlashChanges`).
- Once a protocol failure is on record, the request is signed again after every later failure of any kind (`HttpTaskRetries.AttemptFails`).
- Queries are signed in the order of their names before encoding, while a service that follows AWS Signature Version 4 sorts the encoded
  names; and a path is sent and signed without encoding, while the service encodes it. So a request is refused, unless hashes collide, if
  encoding changes the order (`AwsAccepted.OrderIsLost`) or the path has a reserved character that is not escaped
  (`AwsAccepted.PlusIsNotEscaped`); otherwise it is accepted (`AwsAccepted.ServiceAccepts`).
- A second request on one descriptor makes the poll backend forget the first (`PollSockets.SecondReplacesFirst`).
- The cache keeps sockets by host and port, so a socket may be handed out for the other TLS flag (`SocketCache.SharedAcrossTls`).
- The cache does not close the descriptor of an entry it evicts (`SocketCache.EvictedKeeps`).

To verify: `dafny verify dfyconfig.toml`.

## Model

| member | source | states |
|---|---|---|
| RingBufferTheorems.Linearizable | include/utils/ring_buffer.hpp:57-114 | for every interleaving of any number of producers and consumers, an operation that has returned took effect exactly once, between its call and its return, at a place in one sequential history that is correct for a bounded first-in-first-out queue |
| RingBufferTheorems.FifoOrder | include/utils/ring_buffer.hpp:57-114 | in every run the values consumed so far are a prefix of the values inserted in ticket order, and seen.commited <= seen.pending <= insert.commited <= insert.pending <= seen.commited + size |
| RingBufferTheorems.TicketIsPosition | include/utils/ring_buffer.hpp:65-70 | the number an insertion returns is the position of its first value in the insertion order |
| RingBufferTheorems.RefusalsAreReal | include/utils/ring_buffer.hpp:66-112 | an insertion is refused only at a moment when the batch does not fit, and consume comes back empty only at a moment when nothing committed waits |
| RingBufferTheorems.MutualExclusion | include/utils/ring_buffer.hpp:14-27 | at most one thread is inside each of the two critical sections |
| RingBufferTheorems.SlotExclusion | include/utils/ring_buffer.hpp:67-107 | no producer writes the slot that a consumer is reading |
| RingBufferTheorems.BatchIsAtomic | include/utils/ring_buffer.hpp:83-92 | while a batch is written, the ticket of every consumer is older than the whole batch: none of its elements can be taken before all are written |
| RingBufferTheorems.CriticalSectionEnds | include/utils/ring_buffer.hpp:57-114 | every step of a thread that holds a lock brings the release nearer, whatever the other threads do |
| RingBufferTheorems.ReplayIsFifo | include/utils/ring_buffer.hpp:57-114 | a legal sequential history consumes a prefix of what it inserts, so the history of Linearizable is a queue history |
| RingBufferSafety.StepKeeps | include/utils/ring_buffer.hpp:57-114 | every atomic step of every thread keeps the invariant that ties counters, locks, buffer contents and history together |
| RingBufferSafety.RoomMeansFits | include/utils/ring_buffer.hpp:83-83 | the unsigned guard of insertAll holds exactly when the batch fits, and a batch larger than the ring is always refused |
| RingBufferSafety.WrapIsNextSlot | include/utils/ring_buffer.hpp:86-90 | the manual wrap of the write position reaches the same slots as taking every ticket modulo the size |
| RingBufferSafety.SlotIsModulo | include/utils/ring_buffer.hpp:68-68 | the slot of a ticket is the ticket modulo the size |
| RingBufferSafety.SlotsDiffer | include/utils/ring_buffer.hpp:66-68 | tickets less than one ring size apart have different slots |
| RingBufferEmpty.SeenFirstEmpty | include/utils/ring_buffer.hpp:116-118 | if the consumer counter is loaded first, an answer "empty" was true at the second load |
| RingBufferEmpty.SeenFirstNonempty | include/utils/ring_buffer.hpp:116-118 | if the consumer counter is loaded first, an answer "not empty" was true at some moment of the call |
| RingBufferEmpty.InsertFirstEmpty | include/utils/ring_buffer.hpp:116-118 | if the producer counter is loaded first, an answer "empty" was true at the first load exactly when nobody consumed in between, and at the second load exactly when nobody inserted in between |
| RingBufferEmpty.InsertFirstExact | include/utils/ring_buffer.hpp:116-118 | if the producer counter is loaded first, an answer "empty" was true at some moment of the call exactly when every consumption committed during the call comes before every insertion committed during it; so it is right when nobody else consumes, or nobody else inserts, meanwhile |
| RingBufferEmpty.InsertFirstNonempty | include/utils/ring_buffer.hpp:116-118 | if the producer counter is loaded first, an answer "not empty" was true at some moment of the call, and at both loads unless elements that came after the first load were consumed before the second |
| RingBufferEmpty.InsertFirstCanBeWrong | include/utils/ring_buffer.hpp:116-118 | the operands of a subtraction may be loaded in this order, and then there is a run in which empty() answers "empty" although an element waited during the whole call |
| RingBufferEmpty.SoloInsert | include/utils/ring_buffer.hpp:57-75 | an insertion that runs alone and finds room succeeds |
| RingBufferEmpty.SoloConsume | include/utils/ring_buffer.hpp:99-114 | a consume that runs alone on a ring with an element returns the oldest |
| RingBufferObject.Ring.constructor | include/utils/ring_buffer.hpp:50-55 | a new ring has all counters at zero |
| RingBufferObject.Ring.ProducerStep | include/utils/ring_buffer.hpp:57-97 | each atomic operation of insert and insertAll on the counters, the lock and the buffer array is the producer step of the interleaving model |
| RingBufferObject.Ring.ConsumerStep | include/utils/ring_buffer.hpp:99-114 | each atomic operation of consume is the consumer step of the interleaving model |
| PartPlan.SplitParts | include/cloud/transaction.hpp:230-232 | the computed windows are contiguous, non-empty and cover the object, unless the 16-bit count wrapped to zero; all but the last are of the split size, and the last is not longer exactly when the count did not wrap |
| PartPlan.PartLoop | include/cloud/transaction.hpp:251-359 | the part loop plans exactly the windows of the count it is given |
| PartPlan.LastWindow | include/cloud/transaction.hpp:340-341 | the last window starts inside the object |
| PartPlan.CountsThatWrap | include/cloud/transaction.hpp:230-232 | for every split size an object size with count 0, one with count 1 that is a single part larger than the split size, and one with count 65535; the sizes fit 64 bits for every split size below 2^48 |
| PartPlan.SomeObjectWraps | include/cloud/transaction.hpp:230-232 | an object of less than 2^64 bytes that is cut into no part at all exists exactly for the split sizes of which 65535 leave room for one more byte |
| PartPlan.IndexLeavesLoop | include/cloud/transaction.hpp:253-253 | the 16-bit loop index leaves the loop exactly when there are fewer than 65535 parts |
| MultipartSafety.OneDecider | include/cloud/transaction.hpp:253-338 | for every interleaving of the part callbacks at most one sees the countdown reach the last part, and one has seen it exactly when every part is counted |
| MultipartSafety.RightEnd | include/cloud/transaction.hpp:259-338 | what is prepared is a complete request with the tag of every part at its place if no part failed, and else an abort whose error message is a part that failed; when every callback is done, it is there and the upload is ready to send it |
| MultipartSafety.StepKeeps | include/cloud/transaction.hpp:259-338 | every atomic step of a part callback keeps the invariant of the upload |
| MultipartSafety.CallbackEnds | include/cloud/transaction.hpp:254-338 | a part callback ends after a bounded number of its own steps |
| MultipartSafety.UninterruptedIsPartDone | include/cloud/transaction.hpp:254-338 | a callback that is not interrupted has the effect that the sequential model of processSync gives it |
| MultipartSafety.ZeroPartsNeverEnd | include/cloud/transaction.hpp:231-232 | without parts no callback prepares the last request; what that means for the loop of processSync is stated by TransactionSync.Transaction.ProcessSync |
| TransactionSync.Transaction.constructor | src/cloud/transaction.cpp:135-145 | a new transaction is idle |
| TransactionSync.Transaction.PutMultiPart | include/cloud/transaction.hpp:234-235 | a new upload in its first state, with its initiate request as the next message, for any part count, zero included |
| TransactionSync.Transaction.InitiateDone | include/cloud/transaction.hpp:237-361 | a failed initiate request is reported to the user at once; else the upload is ready to send |
| TransactionSync.Transaction.FinishMultipart | include/cloud/transaction.hpp:254-338 | the statements of a part callback have the effect that the interleaving model gives an uninterrupted one |
| TransactionSync.Transaction.PartFinished | include/cloud/transaction.hpp:254-338 | the response to a part moves its upload, and no other |
| TransactionSync.Transaction.EndDone | include/cloud/transaction.hpp:276-319 | the response to the last request of an upload makes the user callback, for the first time |
| TransactionSync.Transaction.Turn | src/cloud/transaction.cpp:146-162 | the body of the second loop brings the upload one round nearer to its end |
| TransactionSync.Transaction.ProcessSync | src/cloud/transaction.cpp:135-167 | if every message sent is answered once: the loop ends, and then after at most three rounds, exactly if no upload whose initiate request succeeded has zero parts; otherwise it never ends, however many rounds are watched. Each other upload makes its user callback exactly once, with success exactly if initiate, all parts and complete succeeded, and otherwise blaming a message that failed; an initiated upload without parts never makes it. With a positive limit every message not sent before, plain ones included, is sent and answered exactly once, and so is every part of an initiated upload; its last request is too, unless the upload has no parts, when the loop ends or has done three rounds |
| TransactionSync.UploadNeverEnds | src/cloud/transaction.cpp:137-165 | the upload of any object whose part count wraps to zero, once initiated, keeps processSync from ending |
| TransactionSync.Transaction.PutPlain | src/cloud/transaction.cpp:41-67 | a request of no multipart upload is one more message, and moves no upload |
| DataVectors.Reserved | include/utils/data_vector.hpp:89-102 | reserve keeps the bytes in use and has the capacity asked for; it fails exactly for memory of the caller that is too small |
| DataVectors.Resized | include/utils/data_vector.hpp:104-109 | resize has the size asked for and keeps the bytes before it; it fails exactly for memory of the caller that is too small |
| DataVectors.DataVector.Borrow | include/utils/data_vector.hpp:31-33 | a vector over memory of the caller |
| DataVectors.DataVector.Reserve | include/utils/data_vector.hpp:89-102 | the object reallocates as Reserved says, or changes nothing |
| DataVectors.DataVector.Resize | include/utils/data_vector.hpp:104-109 | the object resizes as Resized says, or changes nothing |
| DataVectors.DataVector.PushBack | include/utils/data_vector.hpp:111-116 | appends one element, and fails exactly for full memory of the caller |
| HttpTaskTheorems.FailureBound | include/network/message_task.hpp:36-40 | in every run, under any answers of pool and kernel, the failure count is at most 34 (failuresMax + 2) |
| HttpTaskTheorems.NeverConnected | src/network/http_message.cpp:39-58 | when no connection can be had, the first execute aborts after exactly six attempts (connectionFailuresMax + 2) |
| HttpTaskRetries.AttemptFails | src/network/http_message.cpp:64-197 | whatever ends an attempt (a cancelled or interrupted call, an empty or failed receive, a header that is refused), the failure is recorded and counted and the connection given back; with the 34th the task is aborted, otherwise a new attempt sends from the start of its message, which is signed again, when the provider does that, if a protocol failure is on record, also one of an earlier attempt |
| HttpTaskRetries.AlwaysCancelled | include/network/message_task.hpp:36-40 | a task whose requests are all cancelled at their deadline gives up with the 34th, not earlier |
| HttpTaskRetries.BrokenSendReads | src/network/http_message.cpp:77-82 | a send that breaks otherwise does not end the attempt: it is recorded, and the response is read all the same |
| HttpTaskRetries.BusySendWaits | src/network/http_message.cpp:71-133 | a busy answer to a send changes nothing, and the same bytes are asked for again |
| HttpTaskTheorems.OverIsFinal | src/network/http_message.cpp:230-234 | Finished and Aborted are absorbing: execute and further completions change nothing |
| HttpTaskTheorems.SendConservation | src/network/http_message.cpp:64-133 | in every attempt the kernel has taken exactly the first sendBufferOffset bytes of header and upload data, in order; the window in flight continues there and lies inside one of the two |
| HttpTaskTheorems.ReceiveConservation | src/network/http_message.cpp:136-229 | receiving starts only after everything is sent or with the send failure recorded; the bytes before receiveBufferOffset are those received in this attempt, across growth of the buffer, and the next window lies behind them inside the capacity |
| HttpTaskTheorems.FinishedExactly | src/network/http_message.cpp:159-175 | a task is Finished only when finished() holds of exactly the bytes received in this attempt, which are the result, and their status text starts with one of the four that mean success |
| HttpTaskTheorems.StatusDecides | src/network/http_message.cpp:159-175 | when the bytes received are a complete response, the task is finished, with its failure code as it was, exactly if the status text starts with "200 OK", "201 Created", "204 No Content" or "206 Partial Content"; otherwise it is aborted with the failure of the protocol; either way the connection goes back and the bytes are the result |
| HttpTaskTheorems.SuccessIffNoFailure | src/network/message_result.cpp:59-61 | a finished task counts as a success exactly when no attempt failed and no send failed: the failure code is never cleared, so the response after a retry does not count |
| HttpTaskTheorems.ConnectionsGivenBack | src/network/http_message.cpp:39-209 | every connection taken from the pool is given back or held, a finished task holds none, and a request in flight is on the connection held; a task that is aborted holds one, which never goes back, exactly when it gave up because memory of the caller was full of an incomplete response |
| HttpTaskTheorems.ReceivesAsFramed | src/network/http_message.cpp:148-181 | each received piece moves the task as it moves the framing of HttpFraming: a refused header costs a failure, a complete response ends the task, else the task goes on with the same bytes and header |
| HttpTaskTheorems.ThrowsExactly | src/network/http_message.cpp:190-213 | execute throws exactly when a receive into memory of the caller was answered with EAGAIN or EINPROGRESS and the window that is reserved a second time does not fit |
| HttpTaskExamples.RetryIsNoSuccess | src/network/message_result.cpp:59-61 | a run in which the pool refuses once, the response then arrives whole, and the task is finished but not a success |
| HttpTaskExamples.BusyThrows | src/network/http_message.cpp:190-213 | a run in which a socket that is busy once makes execute throw |
| HttpTaskExamples.FullKeepsConnection | src/network/http_message.cpp:205-209 | a run in which memory of the caller holds the header only, and the aborted task keeps its connection |
| HttpTaskExamples.Examples | src/network/http_message.cpp:31-235 | concrete configurations for these three runs |
| HttpTaskSuccess.Succeeds | src/network/http_message.cpp:31-235 | if the pool connects, the sends take header and upload in any parts of the windows, and a complete successful response arrives in any pieces that fit, the first with the whole header, then the task is finished and a success, with the bytes received as result, status and length as finished() gives them for all pieces together, and its connection given back |
| HttpTaskTheorems.ExecuteDescends | src/network/http_message.cpp:36-234 | with memory of the caller, a completion other than EAGAIN or EINPROGRESS decreases (failures left, stage, bytes left), or the task is over |
| HttpTaskTheorems.Driven | src/network/http_message.cpp:36-234 | with memory of the caller, a task whose requests are all answered, and never with EAGAIN or EINPROGRESS, is over after finitely many completions |
| HttpTask.TurnDescends | src/network/http_message.cpp:36-36 | the loop inside execute ends: each turn that goes on has used up a failure or moved to a later stage |
| HttpTaskRuns.ExecuteKeeps | src/network/http_message.cpp:36-264 | one call of execute keeps the invariant of the task |
| HttpTaskRuns.LandKeeps | src/network/http_message.cpp:66-71 | a completion of at most what was asked for keeps the invariant of the task |
| HttpTaskRuns.WindowInside | src/network/http_message.cpp:101-108 | a send window lies in the header or in the upload data and is the next part of both together |
| HttpTaskRuns.CachedVerdict | src/network/http_helper.cpp:83-92 | on the bytes of an attempt the verdict with the cached header is the verdict without it |
| HttpMessages.HttpMessage.Execute | src/network/http_message.cpp:31-235 | the object moves as the machine on values: same state, same buffer, same return or exception; what that machine does is stated on bytes by HttpTaskTheorems.StatusDecides and HttpTaskRetries.AttemptFails, among others |
| HttpMessages.HttpMessage.Connect | src/network/http_message.cpp:39-61 | a connection is asked for, and its failure counted against the smaller limit |
| HttpMessages.HttpMessage.AfterSend | src/network/http_message.cpp:64-133 | the result of a send is judged, and the next window sent |
| HttpMessages.HttpMessage.AfterReceive | src/network/http_message.cpp:136-229 | the result of a receive is judged, and more bytes are asked for |
| HttpMessages.HttpMessage.Reset | src/network/http_message.cpp:240-264 | all progress is forgotten or the task aborted, the request signed again after an HTTP failure, and the connection given back |
| EventLoop.HeadOfEveryRound | src/network/tasked_send_receiver.cpp:291-352 | at the head of every round, for any choice of the completions: without an exception the requests in flight are as many as the live tasks and at most the limit; every message is dequeued, queued or still to come, in order; each callback made so far was made once, for a task that is over |
| EventLoop.RoundedKeeps | src/network/tasked_send_receiver.cpp:291-352 | one round keeps this invariant and comes nearer to the end of the loop |
| EventLoop.NoneLeft | src/network/tasked_send_receiver.cpp:291-359 | when nothing is in flight and there was no exception, every dequeued message was executed until its task was over and its callback was made exactly once |
| EventLoop.StoppedStartsNothing | src/network/tasked_send_receiver.cpp:339-339 | from the round in which the loop was stopped no message leaves the queue |
| EventLoop.SendReceiver.SendReceive | src/network/tasked_send_receiver.cpp:185-360 | for tasks that need finitely many executions the loop ends; without an exception no task is alive, every dequeued message is over with its callback made once, and in a one-queue run the queue is empty |
| EventLoop.SendReceiver.Round | src/network/tasked_send_receiver.cpp:291-346 | the statements of one round have the effect of the round on values, and count follows the requests in flight |
| EventLoop.SendReceiver.Emplace | src/network/tasked_send_receiver.cpp:191-289 | messages are started until the queue is empty, the limit reached, or an exception thrown |
| EventLoop.SendReceiver.Continue | src/network/tasked_send_receiver.cpp:292-331 | a completion executes its task once more, and removes it when it is over |
| EventLoop.SendReceiver.Erase | src/network/tasked_send_receiver.cpp:307-328 | exactly the task that is over leaves the list |
| EventLoopTasks.TaskEnds | src/network/tasked_send_receiver.cpp:303-306 | HTTP tasks with memory of the caller are tasks as the loop needs them: in flight for finitely many completions, then over, and over for good |
| EventLoopTasks.BehaviourOf | src/network/tasked_send_receiver.cpp:303-331 | every batch of HTTP tasks with memory of their callers, whatever their requests are answered but EAGAIN and EINPROGRESS, has a behaviour that the loop can work with: after every number of executions both are alike |
| EventLoopTasks.SendBatch | src/network/tasked_send_receiver.cpp:185-360 | on such a batch the loop ends without an exception and with an empty queue; every task was executed exactly until it was over, with the outcome on record, and its callback was made once |
| HttpFraming.SplitVerdict | src/network/http_helper.cpp:83-121 | for a response that arrives in any pieces: an exception exactly when the first piece does not hold the whole header or the header is refused; otherwise the verdict and length that finished() gives for all bytes together |
| HttpFraming.SplitIndependent | src/network/http_helper.cpp:83-121 | two ways to split the same bytes, both with the whole header in the first piece, end alike |
| HttpFraming.FinishedStable | src/network/http_helper.cpp:83-121 | finished(), once true, stays true with the same body length, and the cached header gives the verdict of parsing everything again |
| HttpFraming.DetectStable | src/network/http_helper.cpp:13-55 | once detect succeeds it gives the same status, headers, encoding and header length on every extension, the header length of 204 apart |
| HttpFraming.ParsedIffWholeHeader | src/network/http_response.cpp:29-45 | a prefix of a response is parsed exactly when it holds the whole header, and then with the same result |
| HttpFraming.HeaderLengthExact | src/network/http_helper.cpp:30-39 | the header length found by searching for the blank line is the number of bytes the line parser consumed |
| HttpFraming.UnknownIsDead | src/network/http_helper.cpp:116-119 | the branch of finished() for an unknown encoding is never taken: with a cached header there is no exception after any pieces, and without one exactly when detect refuses the header |
| HttpFramingExamples.HeaderInTwoFails | src/network/http_helper.cpp:89-92 | a header that is a failure in two pieces and none in one |
| HttpFraming.LengthVerdict | src/network/http_helper.cpp:100-102 | a body with a length is complete exactly when header and body have arrived (section 6.3 of RFC 9112), or at once when the sum of the lengths wraps |
| HttpLength.NumberRead | src/network/http_helper.cpp:35-37 | the decimal number at the start of a text is read, whatever follows its digits; one that does not fit 64 bits is read as zero |
| HttpLength.LengthOnWire | src/network/http_helper.cpp:13-103 | for every status line and header fields of which the first Content-Length says n and the first Transfer-Encoding is not chunked: complete exactly when n bytes have arrived behind the blank line, or header and body together reach 2^64; an n that does not fit 64 bits counts as zero (section 6.2 of RFC 9112) |
| HttpLength.ChunksOnWire | src/network/http_helper.cpp:28-32 | with Transfer-Encoding: chunked a Content-Length is ignored (section 6.3 of RFC 9112), and the response is complete exactly when the terminator occurs among its bytes |
| HttpLength.NoContentOnWire | src/network/http_helper.cpp:51-97 | a response with status 204 No Content is complete with its header |
| HttpLength.HeaderRead | src/network/http_response.cpp:20-91 | a header printed as section 2.1 of RFC 9112 says is understood: version, status, and of two fields with the same name the first |
| HttpFraming.ChunkedExact | src/network/http_helper.cpp:103-115 | for every chunked response with chunk extensions, extensions on the last chunk and trailer fields as section 7.1 of RFC 9112 allows them: it is found complete exactly when the last line of its body ends in a zero, as it does without extension and trailer on the last chunk, or when the header or a chunk imitates the terminator; it is found complete at its real end and no proper part with the header is, exactly when the last line ends in a zero and nothing imitates the terminator |
| HttpFramingExamples.TrailerNeverFound | src/network/http_helper.cpp:106-113 | a response with a trailer field, and one with an extension on the last chunk, that are never found complete |
| HttpFramingExamples.ZeroHeaderExample | src/network/http_helper.cpp:106-113 | a header that counts as a complete chunked response by itself |
| HttpFramingExamples.ChunkImitatesEnd | src/network/http_helper.cpp:106-113 | a chunk that ends its response too early |
| HttpFraming.ChunkIsClean | src/network/http_helper.cpp:107-109 | the terminator is found inside a chunk exactly when its data contains it, or its size line ends in a zero and its data starts with a line end, or its data ends in a zero and a line end |
| HttpFraming.ChunkedLength | src/network/http_helper.cpp:112-112 | the length reported for a chunked response found at its real end |
| HttpFraming.ZeroBeforeBlankLine | src/network/http_helper.cpp:106-113 | with a zero before the blank line a chunked response counts as complete with its header, and the length wraps around to 2^64 - 5 |
| HttpFraming.TerminatorInHeader | src/network/http_helper.cpp:106-109 | the terminator is found in the header exactly when the last character before the blank line is a zero |
| HttpResponse.Deserialize | src/network/http_response.cpp:18-90 | the line loop computes the specification of the parser, exceptions included |
| HttpResponse.ParseCode | src/network/http_response.cpp:64-72 | the last known status text that starts the line |
| HttpResponse.PrefixParsed | src/network/http_response.cpp:29-45 | a prefix is parsed like everything when it has the blank line, and is an exception otherwise |
| HttpResponse.HeaderEndAgrees | src/network/http_helper.cpp:30-31 | the search for the blank line finds the place where the line parser stopped |
| HttpHelper.Scan | src/network/http_helper.cpp:26-41 | the loop over the sorted headers: chunked overrides a length, and a later length never overrides chunked |
| HttpHelper.RunDetect | src/network/http_helper.cpp:13-55 | detect computes its specification, whose meaning on the text of a header HttpLength.LengthOnWire, HttpLength.ChunksOnWire and HttpFraming.UnknownIsDead give |
| HttpHelper.RunFinished | src/network/http_helper.cpp:83-121 | finished computes its specification, whose meaning on the bytes received the same lemmas and HttpFraming.SplitVerdict give |
| HttpStatus.SuccessOnBytes | src/network/http_response.cpp:59-72 | checkSuccess of the code parsed holds exactly if the text behind the version starts with one of the four good status texts, withoutContent exactly for "204 No Content" |
| HttpStatus.CodeIs | include/network/http_response.hpp:54-75 | each status code is recognised exactly by its text, as no text starts with two of them |
| ConnectionPool.Accounting | src/network/connection_mannager.cpp:47-168 | after any operations no connection is in two places, the empty slots stand for the connections held, those in the map and those the cleanup closed, and connections <= slots <= maximum |
| ConnectionPool.GotKeeps | src/network/connection_mannager.cpp:47-106 | a connection handed out has the host, port and TLS flag asked for; it is an old one exactly when one rests in the map or a slot; there is none exactly when none rests and the slots are all taken or none could be made |
| ConnectionPool.LookupExact | src/network/connection_mannager.cpp:56-77 | map lookup and slot scan find a matching connection whenever one rests |
| ConnectionPool.SweepIsDead | src/network/connection_mannager.cpp:89-95 | the sweep over closed connections never removes anything |
| ConnectionPool.EmptySlotExists | src/network/connection_mannager.cpp:130-144 | a returned connection always finds an empty slot, so the branch that drops one is never taken |
| ConnectionPool.ReturnedGood | src/network/connection_mannager.cpp:125-146 | a connection in order rests in the map, and the one it replaces there in a slot |
| ConnectionPool.ReturnedBroken | src/network/connection_mannager.cpp:114-123 | a broken connection is gone, and frees a slot |
| ConnectionPool.CleanedUpKeeps | src/network/connection_mannager.cpp:149-168 | the cleanup removes exactly the connections that are idle and were last used longer ago than allowed, but the slots stay taken |
| ConnectionPool.RefusedExactly | src/network/connection_mannager.cpp:80-105 | a connection that could be made is refused exactly when the connections that exist and those the cleanup has closed together fill the pool |
| ConnectionPool.CapacityLost | src/network/connection_mannager.cpp:149-168 | once the cleanup has closed as many connections as the pool may hold, none is ever given again |
| ConnectionPool.OneCleanupIsEnough | src/network/connection_mannager.cpp:149-168 | a run of three calls in which a pool of one loses its capacity |
| ConnectionPool.KeyInjective | include/network/connection_manager.hpp:88-90 | different targets have different keys, for every host text, port and TLS flag |
| ConnectionManagers.ConnectionManager.Get | src/network/connection_mannager.cpp:47-106 | the loops of getConnection compute its specification; after closeAll it gives nothing |
| ConnectionManagers.ConnectionManager.Return | src/network/connection_mannager.cpp:109-147 | returnConnection moves connections in place as specified |
| ConnectionManagers.ConnectionManager.CloseIdle | src/network/connection_mannager.cpp:149-168 | closeIdleConnections computes its specification |
| ConnectionManagers.CloseIdleInMap | src/network/connection_mannager.cpp:151-158 | the loop over the map keeps exactly the connections that are not idle too long |
| HttpRequestRoundTrip.RoundTrip | src/network/http_request.cpp:8-128 | parsing a printed request gives the request back, for every request whose texts avoid the delimiters |
| HttpRequestParsed.RoundTripExactly | src/network/http_request.cpp:8-128 | parsing a printed request gives the request back exactly when its texts avoid the delimiters |
| HttpRequestParsed.ParsedIsPrintable | src/network/http_request.cpp:39-128 | whatever the bytes, the request the parser returns avoids the delimiters |
| HttpRequestParsed.ParsedAgain | src/network/http_request.cpp:8-128 | a parsed request, printed and parsed again, is the same |
| HttpRequestRoundTrip.PrintedApart | src/network/http_request.cpp:8-37 | two such requests with the same text are the same |
| HttpRequestRoundTrip.TextParsed | src/network/http_request.cpp:39-128 | a printed request is parsed part by part |
| HttpRequest.Serialize | src/network/http_request.cpp:8-37 | the printing loops compute the text that HttpRequestWire.SerializedText spells out |
| HttpRequestWire.SerializedText | src/network/http_request.cpp:8-37 | the text on the wire, for every request: "GET", "PUT", "POST" or "DELETE" for the verb, a space, the path, a question mark and the queries joined by = and & if there are any, a space, "HTTP/1.1" or "HTTP/1.0", a line for each header as name, ": " and value, and a blank line (section 3 of RFC 9112) |
| HttpRequestWire.ReadsLine | src/network/http_request.cpp:52-103 | for every line of three words: the verb of its first word, or GET when that is unknown; version 1.1 unless the last word says 1.0; as path what stands before a question mark |
| HttpRequestWire.ReadsText | src/network/http_request.cpp:39-128 | a text of these parts is read as verb, version, path, queries and headers; of two entries with the same name the last stays |
| HttpRequest.Deserialize | src/network/http_request.cpp:39-128 | the parsing loops, which work on positions, compute the specification on what is left, whose meaning HttpRequestWire.ReadsLine and HttpRequestWire.ReadsText give |
| HttpRequest.ReadQueries | src/network/http_request.cpp:76-90 | the query loop |
| HttpRequest.ReadHeaders | src/network/http_request.cpp:106-125 | the header loop |
| UrlEncoding.EncodeUrlParameters | src/utils/utils.cpp:18-31 | the encoding loop computes percent encoding |
| UrlEncoding.DecodeEncode | src/utils/utils.cpp:18-31 | decoding gives back what was encoded, so encoding is injective |
| UrlEncoding.EncodeTwice | src/utils/utils.cpp:18-31 | encoding twice gives the same exactly for texts of unreserved characters (section 2.3 of RFC 3986), and a longer text for all others |
| UrlEncoding.EncodedByTable | src/utils/utils.cpp:18-31 | letters, digits and "-_.~" stay, every other byte becomes a percent sign and two hexadecimal digits in upper case |
| AwsSignerTheorems.ResignFixedPoint | src/cloud/aws.cpp:284-297 | with clock and credentials fixed, resignRequest of what buildRequest gave is the same text exactly when all queries are of unreserved characters |
| AwsSignerTheorems.SlashChanges | src/cloud/aws.cpp:284-297 | a request with the query prefix=a/b, whose receiver reads a%2Fb, and after signing again a%252Fb |
| AwsSignerTheorems.EncodedOnceAndTwice | src/cloud/aws.cpp:284-297 | the receiver of a request reads the queries encoded once, and of the request signed again the queries encoded twice |
| AwsSignerTheorems.SignedIsSent | src/cloud/aws_signer.cpp:13-176 | the query text that is signed is the one in the request line, and the receiver parses path, encoded queries and the signed headers |
| AwsSignerTheorems.DecodedQueries | src/cloud/aws_signer.cpp:164-174 | the receiver decodes the queries of the caller |
| AwsSignerTheorems.QueryAgain | src/cloud/aws_signer.cpp:43-51 | the query text of parsed queries is the same exactly when they are unreserved, and otherwise longer |
| AwsSigner.EncodeCanonicalRequest | src/cloud/aws_signer.cpp:13-106 | the loops compute the canonical request, its hash and the list of signed names |
| AwsSigner.CreateSignedRequest | src/cloud/aws_signer.cpp:122-176 | the signature with the derived key, the authorization header, and the target; an exception exactly without a date; that it is the signature a receiver expects is AwsAccepted.ServiceAccepts |
| AwsSigner.BuildRequest | src/cloud/aws.cpp:36-88 | buildRequest computes its specification: a text that the service accepts as AwsAccepted.ServiceAccepts says, with the headers of AwsAccepted.HeadersSent |
| AwsSigner.ResignRequest | src/cloud/aws.cpp:284-297 | resignRequest computes its specification |
| AwsSigner.HexEncode | src/utils/utils.cpp:66-75 | the encoding loop, in lower case |
| AwsAccepted.ServiceAccepts | src/cloud/aws_signer.cpp:13-176 | a service that knows only key and secret reads the text sent, takes date, region, service, names and signature from its Authorization header, folds the key over the scope in the order in which it stands, rebuilds the canonical request and the text to sign as AWS Signature Version 4 prescribes, and requires every header to be signed: it accepts the request if the path is escaped already and the encoded queries are in order, and, if no two texts have the same hash or code, only then |
| AwsAccepted.PlainAccepted | src/cloud/aws_signer.cpp:13-176 | so paths and queries of characters that need no encoding are always accepted |
| AwsAccepted.ResignedAccepted | src/cloud/aws.cpp:284-297 | the same for a request signed again, judged by the path and queries read from the text before |
| AwsAccepted.OrderIsLost | src/cloud/aws_signer.cpp:43-51 | two queries in order before they are encoded, but not after |
| AwsAccepted.PlusIsNotEscaped | src/cloud/aws_signer.cpp:37-41 | the path /a+b is signed as it stands, but not escaped |
| AwsAccepted.HeadersSent | src/cloud/aws.cpp:44-60 | every header sent: the one of the caller, else host, date, payer or token, else hash and digest of a body of up to 1024 bytes |
| AwsAccepted.ResignedHeaders | src/cloud/aws.cpp:284-297 | signing again keeps verb, version and path, and of the headers Range and Content-Length; all others are made anew |
| AwsAccepted.RebuiltExactly | src/cloud/aws_signer.cpp:26-51 | the canonical request the service rebuilds is the one that was signed exactly if the path is escaped and the encoded queries are in order |
| AwsNormal.EscapedExactly | src/cloud/aws_signer.cpp:37-41 | a path is its own normal form exactly if it consists of unreserved characters, slashes, and escapes in upper case of other characters |
| AwsNormal.QueriesInOrder | src/cloud/aws_signer.cpp:43-51 | the queries are read as they were signed exactly if their encoded names are in order |
| PollSockets.SubmitSplits | src/network/poll_socket.cpp:81-133 | with one request per descriptor, submit splits the requests into those that are ready, each reported once with its outcome, and those that wait on, and keeps poll array and map in bijection |
| PollSockets.ReportedLengths | src/network/poll_socket.cpp:100-121 | what is reported, by cases: -104 for an error event, what send or recv returned for a descriptor that is ready, -110 past the deadline when poll returned zero; all others wait on |
| PollSockets.ReportedOnce | src/network/poll_socket.cpp:123-130 | no descriptor is reported twice, or reported and kept |
| PollSockets.SecondReplacesFirst | src/network/poll_socket.cpp:8-16 | a second request on a descriptor replaces the first, which neither the next submit nor any later one reports |
| PollSockets.PollSocket.Submit | src/network/poll_socket.cpp:61-134 | the loop, whose 64-bit index is stepped back after a removal and wraps around at zero, ends and computes the split; completions of an earlier call that were not read are dropped |
| PollSockets.PollSocket.Complete | src/network/poll_socket.cpp:54-59 | ready requests one after the other |
| PollSockets.PollSocket.Enqueue | src/network/poll_socket.cpp:8-16 | a request on a free descriptor keeps the bijection |
| SocketCache.IndexesAgree | src/network/cache.cpp:6-62 | after any calls the two indexes hold the same entries, each once, with an open descriptor and a timestamp of its own below the next one |
| SocketCache.ResolvedKeeps | src/network/cache.cpp:6-29 | resolve hands out a resident entry whenever there is one for host and port, and takes it from both indexes |
| SocketCache.SharedAcrossTls | src/network/cache.cpp:6-29 | the key ignores the TLS flag: a socket that was stored for a host and port is handed out whichever flag is asked for |
| SocketCache.EvictedKeeps | src/network/cache.cpp:41-55 | the eviction removes from both indexes the entry stored least recently; its descriptor is not closed |
| SocketCache.StoppedKeeps | src/network/cache.cpp:30-62 | what stopSocket changes: a reusable entry becomes the newest resident, at most one entry is evicted, everything else stays |
| SocketCache.Cache.Resolve | src/network/cache.cpp:6-29 | the loop over equal keys computes its specification |
| SocketCache.Cache.StopSocket | src/network/cache.cpp:30-62 | stopSocket computes its specification |

## Left out

- EventLoop.SendReceiver.SendReceive: after an exception from `execute` it promises only that the loop ends with nothing in flight; that the connection manager is then thrown away is not modelled. A completion without user data, an exception from the socket and a refused submission are not modelled; local and shared queue are one queue to which other threads may add batches. Tasks are known by how many executions they need, not by their bytes; `EventLoopTasks.SendBatch` joins the loop with HTTP tasks that have memory of their callers, and for growing buffers nothing is claimed.
- TransactionSync.Transaction.ProcessSync: starts from an idle transaction, and user callbacks start no further requests while it runs; every callback returns; with 65535 parts the callback of the initiate request would not, as `PartPlan.IndexLeavesLoop` says.
- PartPlan.SplitParts: asks for fewer than 65535 parts after the 16-bit cast, because with 65535 the loop does not end and writes outside its vector.
- PartPlan.PartLoop: asks for fewer than 65535 parts, for the same reason.
- EventLoopTasks.TaskEnds: for memory of the caller only, and without EAGAIN and EINPROGRESS, as for `HttpTaskTheorems.Driven`.
- EventLoopTasks.BehaviourOf: for the same tasks.
- EventLoopTasks.SendBatch: for the same tasks; a batch with a buffer that grows may be served for ever.
- HttpTaskTheorems.Driven: for memory of the caller only, because a server may send for ever into a buffer that grows, and without EAGAIN and EINPROGRESS, which leave everything as it was.
- HttpFraming.LengthVerdict: for headers shorter than 2^32 bytes, because the header length is cast to 32 bits.
- HttpLength.LengthOnWire: for headers shorter than 2^32 bytes, for the same reason.
- AwsAccepted.ServiceAccepts: with the same texts as for `AwsSignerTheorems.ResignFixedPoint`; besides, key identifier, region and date have no space and no slash, and header values no surplus spaces, which the service would remove. The service is the one `AwsReceiver.Accepts` defines; clock skew, key lookup and the check of Content-MD5 are not part of it.
- AwsAccepted.ResignedAccepted: with the same texts.
- AwsAccepted.HeadersSent: with the same texts.
- AwsAccepted.ResignedHeaders: with the same texts.
- HttpTaskRetries.AttemptFails: for a pool that connects at once.
- AwsSignerTheorems.ResignFixedPoint: the texts of credentials, clock, host and hash functions have no line ends and no space in front, and caller headers are Range and Content-Length; credentials are always initialised.
- A socket that refuses a submission: the positive length left in the request would count as sent at the next step.
- Failing memory allocation, in the receive buffer and elsewhere.
- HTTPS: TLS connections and their state machine depend on OpenSSL.
- The io_uring backend, and system calls, name resolution and connecting behind `Connection`.
- The asynchronous variant `processAsync` and its rollback on a full queue, which also changes uploads the call did not touch.
- Recycling of receive buffers after a message has finished; nothing is said of the result bytes after that.
- Everything after `closeAll` of the connection pool, but that no connection is given.
- The throughput cache, timers, configuration, statistics and log output.
- The request builders of Azure and GCP, URL parsing, key retrieval and session handling.
- `retrieveContent`: one slice of the buffer.
