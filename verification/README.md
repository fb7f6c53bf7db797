# Lumen: a verified model of the inference server

Lumen is an inference server. One network thread reads length-prefixed requests from any
number of clients with `poll`, hands each complete request to a task queue, and sends back
what a pool of workers puts into a result queue. Each worker owns an engine and a bump
allocator. The task queue is a lock-free MPMC ring, an SPSC ring, or a queue under a lock.

The project models these parts and proves what holds across them, for every input, every
interleaving of the threads and every behaviour of the kernel:

* **Rings.** `Mpmc` and `Spsc` are transition systems in which one atomic access is one step,
  any number of threads interleave, the weak compare-exchange may fail for no reason, and a
  cell is torn while it is written or moved out. `MpmcInvariant`, `MpmcTheorems` and
  `SpscTheorems` prove that both refine the plain queue of `TaskFifo`; `MpmcSolo` says what a
  thread does that runs alone, and `MpmcExamples` shows where
  the MPMC ring differs from a bounded one. `RingQueues` and
  `NaiveQueues` hold the queues as objects.
* **Connections.** `Session` is the state machine of one client, `Framing` proves the round
  trip of frames however the stream is cut, and the way back of the replies. `Server` is the
  poll loop with removal while iterating, `PollPass` what a whole pass visits and misses;
  `TcpServerClass` is the same in place.
* **The whole server.** `System` joins the network thread, the queues and the workers.
  `SystemInvariant`, `SystemTheorems` and `EndToEnd` prove conservation, routing, the bound
  after shutdown, and that the k-th reply of a connection answers the k-th frame its client
  sent. `Progress` proves that every request that was not refused can still be answered,
  `Replies` that replies get out, and `Shutdown` that shutdown ends.
  `MpmcServer` and `SpscServer` run the server together with a ring at the grain of
  atomic accesses and prove that every such run is a run of `System`. `MpmcServerRuns`
  and `MpmcSteady` build runs at that grain, for `MpmcProgress`, `MpmcReplies`, `MpmcShutdown`
  and `RefusalRun`; `SpscShutdown` carries shutdown to the SPSC ring.
* **Memory.** `Arena` and `LumenArenaClass` are the bump allocator with 64-bit arithmetic as
  the code has it. `Memory`, `Metadata`, `InferenceEngineClass` and `Requests` follow the
  model's names and shapes into the arena and through any number of requests. `ImageNet` is
  the preprocessing with the payload guard, `WorkerPodClass` the loop of a worker, which
  `WorkerSteps` shows to be a run of `System`.

Where the code does not do what a reader might expect, the model follows the code, and the
project states what does hold:

* `finalize_request` ignores the answer of `push`; a refused request leaves its session
  waiting for good (`SystemTheorems.RefusedHangs`), and before stop a request can be answered
  exactly when it was not refused (`MpmcProgress.AnsweredExactlyUnlessRefused`). Refusals do
  happen while the server is at work: one client more than the ring has cells is enough
  (`RefusalRun.SomeRunRefuses`), and `MpmcServer.RefusedExactlyWhen` is the exact condition.
* A pass can miss an entry that poll reported. It does so exactly when it accepts a connection
  and closes a client other than the last polled entry (`PollPass.MissesExactlyWhen`, with an
  example in `PollPass.AcceptAndCloseMissOne`). `revents` of an accepted connection is unset.
* An MPMC push can be refused although the ring is empty, if a consumer stays inside one
  `pop` for a whole lap (`MpmcExamples.RefusedWhileEmpty`; the exact condition is
  `MpmcTheorems.RefusedExactlyWhen`). A pop can answer empty although a push has returned true
  and its task is in the ring (`MpmcExamples.EmptyAfterPush`, `MpmcTheorems.EmptyExactlyWhen`).
* A session whose response is empty never gets back to the next header
  (`Framing.ReplyCompletesExactlyWhen`).
* `size()` of the SPSC ring underflows for a third thread (`SpscTheorems.ObserverUnderflows`).
* `alloc_raw` hands out a block that does not fit exactly when its 64-bit sum wraps
  (`Arena.SoundExactlyWhen`).
* The payload guard works exactly when the image is empty, or height and width are positive and
  the counted batch times channels is at least three (`ImageNet.GuardWorksExactlyWhen`). So it
  fails for every dynamic height or width. It also fails for a count beyond 64 bits
  (`ImageNet.WrappedCountAdmitsAll`).
* The comment in `run` calls the migration part of the warm-up, but the first reset comes
  after the first request, whose buffers therefore stay below the warm-up mark
  (`Arena.FirstRequestIsFrozen`).

## Model

| member | source | states |
|---|---|---|
| `TaskFifo.LegalMeansFifo` | include/lumen/concurrency/NaiveTaskQueue.hpp:19-38 | in a legal history the tasks enqueued are the tasks dequeued followed by the tasks still queued: nothing lost, duplicated or reordered |
| `MpmcInvariant.InitInv` | include/lumen/concurrency/MPMCTaskQueue.hpp:29-33 | the constructed ring satisfies the invariant |
| `MpmcInvariant.HeadPublished` | include/lumen/concurrency/MPMCTaskQueue.hpp:66-70 | the cell of the head carries head + 1 exactly when the head's task is published, and never more |
| `MpmcInvariant.HeldCellsApart` | include/lumen/concurrency/MPMCTaskQueue.hpp:43-52 | an unreleased position lies within the last lap and shares its cell with no other position in use |
| `MpmcInvariant.StepKeepsInv` | include/lumen/concurrency/MPMCTaskQueue.hpp:35-83 | every atomic step of every thread keeps the invariant that ties sequence numbers, cell data and program counters to the log of positions |
| `MpmcInvariant.RunKeepsInv` | include/lumen/concurrency/MPMCTaskQueue.hpp:35-83 | the invariant holds after every run, for any number of threads |
| `MpmcTheorems.StepRefines` | include/lumen/concurrency/MPMCTaskQueue.hpp:47-52 | each step is a stuttering step or exactly one enqueue or dequeue of the abstract queue, at the successful compare-exchange |
| `MpmcTheorems.RefinesFifo` | include/lumen/concurrency/MPMCTaskQueue.hpp:35-83 | in every run the claims are a legal FIFO history whose queue is the content of the ring, never longer than the capacity |
| `MpmcTheorems.StepAdvances` | include/lumen/concurrency/MPMCTaskQueue.hpp:47-52 | head and tail move by at most one and only by a claim; a position keeps its task and its phase never goes back |
| `MpmcTheorems.CountersMonotone` | include/lumen/concurrency/MPMCTaskQueue.hpp:47-52 | over any run head and tail never decrease and grow by at most one a step |
| `MpmcTheorems.RunRecords` | include/lumen/concurrency/MPMCTaskQueue.hpp:49-52 | the accepted pushes are exactly the published positions and the returned pops exactly the released ones, each once and with its own task |
| `MpmcTheorems.ExactlyOnce` | include/lumen/concurrency/MPMCTaskQueue.hpp:35-83 | no task is returned twice, every returned task was accepted at the same position, and an accepted task not yet returned is with one consumer or whole in its cell |
| `MpmcTheorems.NoDataRace` | include/lumen/concurrency/MPMCTaskQueue.hpp:43-52 | between its claim and its sequence store a thread is alone on its cell: no step of another thread touches the cell's data or sequence |
| `MpmcTheorems.ConsumerSeesWholeTask` | include/lumen/concurrency/MPMCTaskQueue.hpp:71-75 | when a consumer moves a task out, the cell holds the whole task of the claimed position |
| `MpmcTheorems.LoadedByPush` | include/lumen/concurrency/MPMCTaskQueue.hpp:43-45 | the sequence a producer loads is below t exactly when t is the tail and the position one lap back is unreleased, and above t only when t is used up |
| `MpmcTheorems.LoadedByPop` | include/lumen/concurrency/MPMCTaskQueue.hpp:66-68 | the sequence a consumer loads is below h + 1 exactly when h is the head and unpublished, and above only when h is used up |
| `MpmcTheorems.RefusedExactlyWhen` | include/lumen/concurrency/MPMCTaskQueue.hpp:44-55 | a push past the stop check gives up exactly when t is the tail and position t - capacity is unreleased; with no half-done operation, exactly when the ring is full |
| `MpmcExamples.RefusedWhileEmpty` | include/lumen/concurrency/MPMCTaskQueue.hpp:54-75 | for every capacity there is a run after which the ring is empty and not stopped, a push has been refused, and one consumer still holds position 0 one lap back |
| `MpmcExamples.EmptyAfterPush` | include/lumen/concurrency/MPMCTaskQueue.hpp:67-78 | for every capacity there is a run in which a push has returned true and its task is published, and a later pop answers empty because another producer holds position 0 |
| `MpmcTheorems.EmptyExactlyWhen` | include/lumen/concurrency/MPMCTaskQueue.hpp:67-78 | a pop gives up exactly when h is the head and unpublished; with no half-done operation, exactly when the ring is empty |
| `MpmcTheorems.LatePushRefused` | include/lumen/concurrency/MPMCTaskQueue.hpp:36-38 | once the queue is shut down, a push begun later never gets past the stop check and is answered false, in every continuation |
| `MpmcTheorems.PushRetryMeansProgress` | include/lumen/concurrency/MPMCTaskQueue.hpp:56-58 | a push that reloads the tail gets a strictly larger position, whatever the others do in between |
| `MpmcTheorems.PopRetryMeansProgress` | include/lumen/concurrency/MPMCTaskQueue.hpp:79-81 | a pop that reloads the head gets a strictly larger position |
| `MpmcTheorems.CasFailureMeansProgress` | include/lumen/concurrency/MPMCTaskQueue.hpp:47-53 | a compare-exchange that fails, and not spuriously, leaves the thread with a strictly larger position |
| `MpmcTheorems.PushAlone` | include/lumen/concurrency/MPMCTaskQueue.hpp:42-59 | a push that runs alone ends in one iteration: refused after two loads exactly when blocked, else its task is appended after six steps |
| `MpmcTheorems.PopAlone` | include/lumen/concurrency/MPMCTaskQueue.hpp:65-82 | a pop that runs alone ends in one iteration: empty after two loads exactly when the head is unpublished, else it returns and removes the oldest task |
| `MpmcTheorems.SizeWithinCapacity` | include/lumen/concurrency/MPMCTaskQueue.hpp:98-102 | `size()` lies in 0..capacity although tail and head are read at different moments, and is the length of the queue at the first read, less at most the steps made in between |
| `MpmcTheorems.SignedDifferenceIsExact` | include/lumen/concurrency/MPMCTaskQueue.hpp:45-68 | in a run of fewer than 2^63 - capacity steps the signed 64-bit `diff` is the mathematical difference |
| `RingQueues.QuietIsAtRest` | include/lumen/concurrency/MPMCTaskQueue.hpp:35-83 | a state of the concurrent ring with no half-done operation is a resting ring of the class below, with the same tasks |
| `RingQueues.MPMCTaskQueue.constructor` | include/lumen/concurrency/MPMCTaskQueue.hpp:29-33 | the loop leaves an empty resting ring |
| `RingQueues.MPMCTaskQueue.Push` | include/lumen/concurrency/MPMCTaskQueue.hpp:35-60 | alone in the ring: accepted exactly when not stopped and not full, and then appended |
| `RingQueues.MPMCTaskQueue.Pop` | include/lumen/concurrency/MPMCTaskQueue.hpp:62-83 | alone in the ring: the oldest task, or none exactly when empty |
| `RingQueues.MPMCTaskQueue.PopBatch` | include/lumen/concurrency/MPMCTaskQueue.hpp:85-96 | the batch grows by the oldest tasks, in order, as many as fit and no others |
| `RingQueues.MPMCTaskQueue.Size` | include/lumen/concurrency/MPMCTaskQueue.hpp:98-102 | the number of tasks held |
| `RingQueues.SPSCTaskQueue.constructor` | include/lumen/concurrency/SPSCTaskQueue.hpp:24-24 | an empty ring |
| `RingQueues.SPSCTaskQueue.Push` | include/lumen/concurrency/SPSCTaskQueue.hpp:26-42 | accepted exactly when not stopped and fewer than capacity - 1 tasks are held, and then appended |
| `RingQueues.SPSCTaskQueue.Pop` | include/lumen/concurrency/SPSCTaskQueue.hpp:44-54 | the oldest task, or none exactly when empty |
| `RingQueues.SPSCTaskQueue.PopBatch` | include/lumen/concurrency/SPSCTaskQueue.hpp:56-67 | the batch grows by the oldest tasks, in order, as many as fit and no others |
| `NaiveQueues.NaiveTaskQueue.Push` | include/lumen/concurrency/NaiveTaskQueue.hpp:19-26 | one enqueue of the abstract queue, accepted even after shutdown |
| `NaiveQueues.NaiveTaskQueue.Pop` | include/lumen/concurrency/NaiveTaskQueue.hpp:28-38 | waits exactly while empty and not stopped, returns nothing exactly when empty and stopped, else one dequeue |
| `NaiveQueues.NaiveTaskQueue.PopBatch` | include/lumen/concurrency/NaiveTaskQueue.hpp:40-56 | the batch grows by the first tasks of the queue, up to the limit, and the rest stays |
| `NaiveQueues.NaiveResultQueue.Push` | include/lumen/concurrency/NaiveResultQueue.hpp:19-23 | the result joins at the back |
| `NaiveQueues.NaiveResultQueue.PopImmediate` | include/lumen/concurrency/NaiveResultQueue.hpp:37-47 | the oldest result, or none exactly when empty |
| `SpscTheorems.FullTest` | include/lumen/concurrency/SPSCTaskQueue.hpp:34-36 | the comparison of masked indices holds exactly when capacity - 1 tasks are present |
| `SpscTheorems.ProducerKeepsInv` | include/lumen/concurrency/SPSCTaskQueue.hpp:26-42 | a producer step keeps the invariant and never changes the slot of an unread task |
| `SpscTheorems.StepKeepsInv` | include/lumen/concurrency/SPSCTaskQueue.hpp:26-54 | every step of either side keeps the invariant although each acts on a stale index |
| `SpscTheorems.StepRefines` | include/lumen/concurrency/SPSCTaskQueue.hpp:38-53 | each step stutters or is exactly one enqueue or dequeue, at the store of tail or head |
| `SpscTheorems.RefinesBoundedFifo` | include/lumen/concurrency/SPSCTaskQueue.hpp:26-54 | in every interleaving the stores are a legal FIFO history of at most capacity - 1 tasks, and pop returns whole tasks in push order |
| `SpscTheorems.RefusedExactlyWhenFull` | include/lumen/concurrency/SPSCTaskQueue.hpp:31-36 | a push past the stop check is refused exactly when capacity - 1 tasks are present as head is read |
| `SpscTheorems.EmptyExactlyWhen` | include/lumen/concurrency/SPSCTaskQueue.hpp:45-49 | a pop answers empty exactly when no task is present as tail is read |
| `SpscTheorems.LatePushRefused` | include/lumen/concurrency/SPSCTaskQueue.hpp:27-29 | once the queue is shut down, every push begun later is refused and nothing is added |
| `SpscTheorems.NoDataRace` | include/lumen/concurrency/SPSCTaskQueue.hpp:38-52 | producer and consumer never work on the same slot |
| `SpscTheorems.Monotone` | include/lumen/concurrency/SPSCTaskQueue.hpp:40-52 | indices never decrease, and each moves only by steps of its own side |
| `SpscTheorems.SizeMeaningfulExactlyWhen` | include/lumen/concurrency/SPSCTaskQueue.hpp:69-73 | `size()` is within 0..capacity - 1, and then the difference of the indices read, exactly when the head read has not passed the tail read, which holds for a caller that is the producer or the consumer; for the consumer it is the length of the queue |
| `SpscTheorems.ObserverUnderflows` | include/lumen/concurrency/SPSCTaskQueue.hpp:69-73 | a third thread can see 2^64 - 1 |
| `Framing.HeaderRoundTrip` | src/TCPServer.cpp:137-139 | decoding the network-order header of a length gives the length |
| `Framing.HeaderInverse` | src/TCPServer.cpp:137-139 | encoding the decoded length gives the four header bytes back |
| `Framing.UniqueReading` | tests/client/stress_test.py:110-110 | a stream has at most one reading as a sequence of frames |
| `Framing.BodyBytes` | src/TCPServer.cpp:149-175 | a body visit adds exactly the bytes it takes, and the last one submits exactly the body of the frame |
| `Framing.ConsumedIsEmitted` | src/TCPServer.cpp:102-193 | whatever the client sends and however it is cut, the bytes consumed are the frames of the submitted bodies plus the part of the current frame |
| `Framing.FramingRoundTrip` | src/TCPServer.cpp:123-193 | if the client sends the frames of ps, the session submits a prefix of ps, never reads past the current frame, and has submitted all of ps once all is read |
| `Framing.ReadsMakeProgress` | src/TCPServer.cpp:123-175 | a read visit with data takes at least one byte, or closes because the announced length is zero |
| `Framing.EmptyFrameCloses` | src/TCPServer.cpp:149-153 | after a header of length zero the next read visit closes the connection and submits nothing |
| `Framing.SentIsAnswered` | src/TCPServer.cpp:248-260 | requests and responses of a connection alternate, and the bytes sent plus the unsent rest are the responses in order |
| `Framing.OpenExactlyWhen` | src/TCPServer.cpp:123-175 | over its whole life a connection is open if and only if none of these happened: a failed send, an end of stream, a failed or would-block read of a header, a failed read of a body, a read after a header of length zero |
| `Framing.CompletedReplyResets` | include/lumen/network/TCPServer.hpp:62-68 | when the rest of a response is sent the session becomes like a new one, ready for the next header, unless the response is empty: then nothing changes |
| `Framing.ReplyCompletesExactlyWhen` | src/TCPServer.cpp:251-255 | some sequence of write visits brings a sending session back to the header state if and only if its response is not empty |
| `Server.PrepareKeepsFit` | src/TCPServer.cpp:225-232 | setting the requested events keeps the poll set in step with the sessions |
| `Server.PrepareAsks` | src/TCPServer.cpp:225-232 | after the first loop an entry asks for output exactly when its session sends, and for input exactly when it collects a header or a body |
| `Server.PassStarts` | src/TCPServer.cpp:225-237 | after poll, a session that waits for inference has no event to act on |
| `Server.AcceptKeepsFit` | src/TCPServer.cpp:84-100 | accepting appends one entry that asks for input and one new session, and keeps entry 0 the listener and the others distinct and equal to the open sessions |
| `Server.CloseKeepsFit` | src/TCPServer.cpp:212-218 | so does removal by moving the last entry into the gap |
| `Server.ReadVisitFits` | src/TCPServer.cpp:102-121 | a read visit keeps the session legal, submits only from a body, and never closes or changes a session that waits for inference |
| `Server.VisitKeepsFit` | src/TCPServer.cpp:238-261 | every iteration of the loop is defined and keeps the poll set in step with the sessions, whatever the kernel answers and whatever unset `revents` holds |
| `PollPass.PassVisitsOnce` | src/TCPServer.cpp:237-261 | a pass visits no descriptor twice, misses at most one polled entry, and none when it accepts no connection |
| `PollPass.MissesExactlyWhen` | src/TCPServer.cpp:237-261 | a pass misses a polled entry if and only if it accepts a connection and closes a client other than the last polled entry |
| `PollPass.AcceptAndCloseMissOne` | src/TCPServer.cpp:239-247 | a server that accepted two clients: its next pass accepts a third, closes the first and misses the second, all of them reported by poll |
| `Server.VisitEffects` | src/TCPServer.cpp:238-261 | a visit leaves every waiting session alone, submits only for a session that was not waiting and now is, with a fresh trace id, and only accept opens a session |
| `TcpServerClass.TCPServer.constructor` | src/TCPServer.cpp:72-76 | the poll set holds the listener alone |
| `TcpServerClass.TCPServer.HandleNewConnection` | src/TCPServer.cpp:84-100 | the object follows the accept of the model and stays valid |
| `TcpServerClass.TCPServer.ProcessHeader` | src/TCPServer.cpp:123-147 | the header bytes collected so far, the step to the body when four are there, and the return code of each kernel answer |
| `TcpServerClass.TCPServer.ProcessBody` | src/TCPServer.cpp:149-175 | the body bytes stored at their place, the submission when all are there, and the return code of each kernel answer |
| `TcpServerClass.TCPServer.FinalizeRequest` | src/TCPServer.cpp:177-193 | the body moves into one task with the next trace id and the session waits, whatever push answers |
| `TcpServerClass.TCPServer.HandleClientData` | src/TCPServer.cpp:102-121 | the session follows the state machine, a completed body becomes one task with the next trace id, nothing else changes |
| `TcpServerClass.TCPServer.CloseConnection` | src/TCPServer.cpp:212-218 | the entry and the session are gone, the others are kept, the object stays valid |
| `TcpServerClass.TCPServer.HandleResponses` | src/TCPServer.cpp:195-210 | each result, in order, goes to the session that has its descriptor; results without a session are dropped |
| `TcpServerClass.TCPServer.PreparePoll` | src/TCPServer.cpp:225-232 | the loop leaves every client entry asking for output exactly when its session sends and for input exactly when it collects, and the listener alone |
| `TcpServerClass.TCPServer.ServicePass` | src/TCPServer.cpp:225-261 | one iteration of `run` ends in the state of the modelled pass and has pushed exactly its tasks in order |
| `TcpServerClass.TCPServer.ServeEntries` | src/TCPServer.cpp:237-261 | the index loop with removal computes the pass for which visiting at most once is proved |
| `TcpServerClass.TCPServer.VisitEntry` | src/TCPServer.cpp:239-260 | one iteration: the branch taken, the new state, the task pushed, and whether the index stays |
| `SystemInvariant.StepKeepsInv` | src/ThreadPool.cpp:78-109 | every step of the network thread and of any worker keeps the invariant that places each request in one container and ties it to its waiting session |
| `SystemInvariant.RunsKeepInv` | src/ThreadPool.cpp:78-109 | the invariant holds after every run |
| `SystemTheorems.Conservation` | src/ThreadPool.cpp:86-107 | after any run each submitted request is held by exactly one element of refused, task queue, one worker's batch, result queue or delivered, and these hold nothing else |
| `SystemTheorems.RunsKeepNumbers` | src/TCPServer.cpp:88-99 | connection numbers are never reused and open descriptors have different ones, although descriptors are reused |
| `SystemTheorems.OneRequestPerSession` | src/TCPServer.cpp:177-193 | each session has at most one unanswered request, only while waiting for inference, and on the connection that sent it |
| `SystemTheorems.RepliesGoHome` | src/TCPServer.cpp:195-210 | every result popped went to the very connection that sent its request |
| `SystemTheorems.ResponsesAreSteps` | src/TCPServer.cpp:195-210 | the loop of handle_responses over k results is k response steps of the system, one after the other |
| `SystemTheorems.RefusedHangs` | src/TCPServer.cpp:190-191 | once a request is refused, in every later state its session still waits for inference and no result for it exists |
| `Progress.AnsweredExactlyUnlessRefused` | src/ThreadPool.cpp:86-107 | in every state reached before stop, with a worker and a batch size of at least one and whatever the engine answers, some continuation made of steps like the code's delivers a request, with the engine's answer, if and only if it was not refused |
| `Progress.Deliver` | src/ThreadPool.cpp:86-107 | a run that delivers it, built step by step from wherever the request is; batches end only full or with the queue empty |
| `MpmcSolo.StepToils` | include/lumen/concurrency/MPMCTaskQueue.hpp:42-82 | from every point of a push or a pop, stale positions included, a thread that runs alone comes closer to the end of its call with every step |
| `MpmcSolo.SoloFramed` | include/lumen/concurrency/MPMCTaskQueue.hpp:35-83 | a thread that runs alone changes no other thread and keeps the invariant |
| `MpmcServerRuns.WholePush` | include/lumen/concurrency/MPMCTaskQueue.hpp:35-60 | a push of the network thread, run alone from any state, is one visit of the coarse system with the answer "not blocked" |
| `MpmcServerRuns.WholePop` | include/lumen/concurrency/MPMCTaskQueue.hpp:62-83 | a pop of a worker, with nobody else in a call, moves the oldest task into its batch, or ends the batch exactly when the queue is empty |
| `MpmcSteady.FinishAll` | include/lumen/concurrency/MPMCTaskQueue.hpp:35-83 | from every reachable state the threads, one after the other, can finish the calls they are in without losing a request |
| `MpmcProgress.Simulate` | src/ThreadPool.cpp:86-107 | every helpful step of the coarse system is made by a run of the server at atomic grain |
| `MpmcProgress.AnsweredExactlyUnlessRefused` | src/ThreadPool.cpp:86-107 | in every state the server with the MPMC ring reaches before stop, at whatever point of a call its threads are, some run at atomic grain delivers a request, with the engine's answer, if and only if it was not refused |
| `RefusalRun.Round` | src/TCPServer.cpp:177-193 | one more client connects and sends a frame: accepted while the ring has a cell, refused when it is full |
| `RefusalRun.SomeRunRefuses` | src/TCPServer.cpp:190-191 | for every capacity, number of workers and batch size the server with the MPMC ring has a run with neither pool nor queue stopped that refuses a request |
| `SystemTheorems.StepPays` | src/ThreadPool.cpp:65-76 | after stop a step that adds a result lowers the remaining budget by one, and no step raises it |
| `SystemTheorems.ShutdownBound` | src/ThreadPool.cpp:65-108 | once stop is set at most thread_count times batch_size further results appear |
| `Shutdown.ShutdownEnds` | src/ThreadPool.cpp:65-108 | stop the pool after any run: the flag is set, the bound on results holds, and in every continuation every worker makes at most 2 * batch_size + 3 steps, is not blocked before it has left its loop, and has left when it has made them |
| `Shutdown.ResultsFrozen` | src/ThreadPool.cpp:86-108 | once all workers have left, the results never change again |
| `MpmcShutdown.ShutdownEnds` | src/ThreadPool.cpp:65-108 | the same of the server with the MPMC ring |
| `MpmcShutdown.AllCanExit` | src/ThreadPool.cpp:65-76 | from every state reached after stop some run at atomic grain lets every worker leave its loop |
| `MpmcShutdown.ResultsFrozen` | src/ThreadPool.cpp:86-108 | once all workers of the server with the MPMC ring have left, the results never change again |
| `SpscShutdown.ShutdownEnds` | src/ThreadPool.cpp:65-108 | the same of the server with the SPSC ring |
| `SpscShutdown.ResultsFrozen` | src/ThreadPool.cpp:86-108 | and there too the results stay once the worker has left |
| `SystemTheorems.QueueWithinWaiting` | src/TCPServer.cpp:182-191 | the task queue never holds more tasks than sessions wait for inference |
| `SystemTheorems.RoomWhenSubmitting` | src/TCPServer.cpp:182-191 | when a request is submitted, fewer tasks are queued than sessions are open |
| `EndToEnd.StepFollows` | src/TCPServer.cpp:195-261 | every step of the system is, for each connection, an event of its life in the framing model or nothing |
| `EndToEnd.VisitDropsExactlyWhen` | src/TCPServer.cpp:243-259 | a visit drops the entry of a client if and only if the event it stands for is one of the fatal ones, and then the index stays and the bound shrinks |
| `EndToEnd.ResultsAreAnswers` | src/InferenceEngine.cpp:207-207 | in every run every result carries the response that the engine gave when it ran the request |
| `EndToEnd.RunFollows` | src/TCPServer.cpp:195-261 | over any run each open session is the one its connection's events lead to, and waits exactly for the answer to its last request |
| `EndToEnd.RequestsAndReplies` | src/TCPServer.cpp:123-261 | the requests submitted for a connection are the payloads its client framed, the k-th result handed back is what the engine answered to the k-th request, the bytes sent are these responses in order, and the connection is open unless a fatal event happened |
| `Replies.ReturnsExactlyWhen` | src/TCPServer.cpp:225-260 | from every reachable state a session that sends can come back to the next header if and only if its response is not empty |
| `Replies.RepliesGetOut` | src/TCPServer.cpp:225-260 | steps of the poll loop alone bring it back, and then every byte of every response of the connection has been sent |
| `MpmcServer.StepKeepsLink` | include/lumen/concurrency/MPMCTaskQueue.hpp:35-96 | each atomic access of the ring is an enabled step of the coarse system or leaves it alone, and the ring keeps holding the system's queue |
| `MpmcServer.RefinesSystem` | include/lumen/concurrency/MPMCTaskQueue.hpp:35-96 | every run of the server at the grain of atomic accesses, with any number of workers, is a run of the coarse system |
| `MpmcServer.ServerIsSound` | src/ThreadPool.cpp:78-109 | conservation and routing hold of the server with the MPMC ring |
| `MpmcServer.ClientsAreServed` | src/TCPServer.cpp:123-261 | the end-to-end property holds of the server with the MPMC ring |
| `MpmcReplies.ReturnsExactlyWhen` | src/TCPServer.cpp:225-260 | the same of the server with the MPMC ring, at whatever point of a push its network thread is |
| `MpmcReplies.AllSent` | src/TCPServer.cpp:248-255 | there too a connection that waits for a header has sent every byte of every response |
| `MpmcServer.PopReturnsTheBatchTask` | include/lumen/concurrency/MPMCTaskQueue.hpp:71-75 | the task a worker reads out of the cell is the one the coarse system put into its batch at the claim |
| `MpmcServer.RefusedExactlyWhen` | include/lumen/concurrency/MPMCTaskQueue.hpp:36-55 | a step of the server refuses a request if and only if it is the check of a stopped queue, or the load of the sequence at the tail while the ring is full or some worker stayed in one pop for a whole lap; a full ring means more open sessions than cells |
| `MpmcServer.ShutdownBound` | src/ThreadPool.cpp:65-108 | the bound on results after stop holds of the server with the MPMC ring |
| `SpscServer.StepKeepsLink` | include/lumen/concurrency/SPSCTaskQueue.hpp:26-67 | each atomic access of the SPSC ring is an enabled step of the coarse system or leaves it alone |
| `SpscServer.RefinesSystem` | include/lumen/concurrency/SPSCTaskQueue.hpp:26-67 | every run of the server with the SPSC ring and one worker is a run of the coarse system, whose invariant holds |
| `SpscServer.ServerIsSound` | src/ThreadPool.cpp:78-109 | conservation and routing hold of the server with the SPSC ring |
| `SpscServer.ClientsAreServed` | src/TCPServer.cpp:123-261 | the end-to-end property holds of the server with the SPSC ring |
| `SpscServer.ShutdownBound` | src/ThreadPool.cpp:65-108 | after stop at most batch_size further results appear |
| `SpscServer.RefusedOnlyWhen` | include/lumen/concurrency/SPSCTaskQueue.hpp:31-36 | a push is refused only after shutdown or with at least as many sessions as slots |
| `SpscServer.NeverRefused` | include/lumen/concurrency/SPSCTaskQueue.hpp:31-36 | with 1024 slots and never more than 1023 open sessions no request is refused before shutdown, and tail - head never exceeds the number of waiting sessions |
| `Arena.BackingCoversExactlyWhen` | src/LumenArena.cpp:14-16 | the backing block covers the capacity member exactly when the enlarged request does not wrap |
| `Arena.AllocIsExact` | src/LumenArena.cpp:75-86 | without wrap-around the masked 64-bit arithmetic is the mathematical one: a block at offset plus padding, or null when it does not fit |
| `Arena.PaddingFormula` | src/LumenArena.cpp:73-73 | the modelled padding is the double remainder of the source |
| `Arena.AllocKeepsHeap` | src/LumenArena.cpp:67-87 | an allocation keeps all blocks ordered, aligned, within the offset and above the warm-up mark |
| `Arena.ResetKeepsHeap` | src/LumenArena.cpp:89-95 | so does a reset; the first one freezes every block handed out so far |
| `Arena.RunKeepsHeap` | src/LumenArena.cpp:67-95 | the same over any sequence of allocations and resets |
| `Arena.BlocksStayApart` | src/LumenArena.cpp:67-95 | in every reachable state the blocks since the last reset and all blocks from before the first one are pairwise disjoint, aligned and within capacity |
| `Arena.SoundExactlyWhen` | src/LumenArena.cpp:75-79 | for the alignments in use, alloc_raw is sound exactly when offset plus rounded size is below 2^64 |
| `Arena.PlainBump` | src/LumenArena.cpp:68-84 | for the alignments in use and sizes up to 2^64 - 128 - capacity, alloc_raw is a plain bump by the size rounded up to 64 |
| `Arena.RunKeepsAligned` | src/LumenArena.cpp:68-84 | with the alignments in use the offset stays a multiple of 64 over every run, so padding is always zero |
| `Arena.RequestFits` | src/LumenArena.cpp:77-84 | a request gets all its blocks exactly when its rounded sizes fit, and then takes exactly their sum |
| `Arena.SteadyState` | src/LumenArena.cpp:89-95 | once warmed up every request starts at the mark whatever came before, so equal requests get equal addresses, pointwise smaller ones fit too, and usage does not grow |
| `Arena.FirstRequestIsFrozen` | src/ThreadPool.cpp:100-104 | the first request's buffers end up below the warm-up mark for good |
| `LumenArenaClass.LumenArena.constructor` | src/LumenArena.cpp:11-20 | an empty arena with a backing block of the enlarged size, which is valid exactly when the enlargement does not wrap |
| `LumenArenaClass.LumenArena.AllocRaw` | src/LumenArena.cpp:67-87 | the object follows the modelled allocation and stays valid unless the arithmetic wraps |
| `LumenArenaClass.LumenArena.Alloc` | include/lumen/memory/LumenArena.hpp:37-39 | an allocation with alignment 64 |
| `LumenArenaClass.LumenArena.AllocTyped` | include/lumen/memory/LumenArena.hpp:59-62 | an array allocation, its byte count taken in 64 bits |
| `LumenArenaClass.LumenArena.Reset` | src/LumenArena.cpp:89-95 | the object follows the modelled reset and stays valid |
| `Metadata.StoreNodeExtends` | src/InferenceEngine.cpp:95-106 | one more iteration of a copy loop adds its entry and keeps all earlier ones readable |
| `Metadata.StoredIsRead` | src/InferenceEngine.cpp:144-148 | reading through the pointer and count tables gives back the name and the dimensions that were copied |
| `InferenceEngineClass.InferenceEngine.ReserveTables` | src/InferenceEngine.cpp:87-92 | the six tables are disjoint and take exactly their rounded sizes |
| `InferenceEngineClass.InferenceEngine.CopyNode` | src/InferenceEngine.cpp:96-105 | one iteration makes exactly the five planned stores and takes exactly the planned space |
| `InferenceEngineClass.InferenceEngine.CopySide` | src/InferenceEngine.cpp:95-106 | the loop stores every node and changes nothing outside its tables and its area |
| `InferenceEngineClass.InferenceEngine.MigrateMetadataToArena` | src/InferenceEngine.cpp:82-128 | all names and shapes of both sides are found through the tables below the offset, and the heap vectors are empty |
| `Requests.RequestsKeepBelow` | src/InferenceEngine.cpp:166-184 | any number of requests that allocate, write into their blocks and reset leaves everything below the migration mark as it was |
| `Requests.BranchesAgree` | src/InferenceEngine.cpp:144-154 | after migration and any number of requests every name and shape read through the arena equals the original, so the two branches of `run` agree |
| `Requests.MigrateForGood` | src/InferenceEngine.cpp:82-128 | the same starting from the call: migrating into an arena before its first reset, then any requests, leaves every name and shape as the heap vectors had it |
| `ImageNet.NormalizeRoundTrip` | include/lumen/models/ImageNetProcessor.hpp:33-34 | the pixel is recovered from its normalized value over the reals |
| `ImageNet.IndexBijection` | include/lumen/models/ImageNetProcessor.hpp:28-31 | the map from interleaved to planar index is a bijection on 0..3HW - 1 |
| `ImageNet.Transform` | include/lumen/models/ImageNetProcessor.hpp:16-38 | the triple loop fills three planes, each channel of every pixel normalized with its own literal mean and deviation, and nothing beyond them |
| `ImageNet.ImageRecoverable` | include/lumen/models/ImageNetProcessor.hpp:24-37 | the interleaved image can be read back from the tensor |
| `ImageNet.CountElements` | src/InferenceEngine.cpp:157-158 | the loop computes the product of the positive dimensions modulo 2^64 |
| `ImageNet.GuardWorksExactlyWhen` | src/InferenceEngine.cpp:157-171 | for every shape whose tensor has fewer than 2^64 bytes, dynamic and zero dimensions included, the guard keeps every access of transform in bounds if and only if the image is empty or height and width are positive and counted batch times counted channels is at least three |
| `ImageNet.WrappedCountAdmitsAll` | src/InferenceEngine.cpp:157-163 | with 2^32 by 2^32 pixels the count wraps to zero and the guard lets every payload through |
| `ImageNet.Preprocess` | src/InferenceEngine.cpp:157-172 | the mismatch answer exactly when the payload is short, else a tensor of exactly the shape's size holding the three normalized planes |
| `WorkerPodClass.WorkerPod.RunTask` | src/InferenceEngine.cpp:157-207 | the result carries the descriptor and trace of its request and the mismatch text exactly when the payload is shorter than the product of the positive dimensions in 64 bits, else the answer; a short payload takes no arena, any other takes exactly four bytes per element of its two tensors and what the runtime allocates meanwhile |
| `WorkerPodClass.WorkerPod.RunImage` | src/InferenceEngine.cpp:157-207 | with the preprocessing joined: the answer is the mismatch exactly when there is no tensor, and a tensor holds the three normalized planes |
| `WorkerPodClass.WorkerPod.ServeTask` | src/ThreadPool.cpp:100-106 | run, reset, push: one result, and the warm-up mark set only by the first request ever |
| `WorkerPodClass.WorkerPod.ServeBatch` | src/ThreadPool.cpp:93-107 | one result per request of the batch, in order, and the arena back at a mark that never moves after the first request |
| `WorkerPodClass.WorkerPod.Iterate` | src/ThreadPool.cpp:86-108 | what leaves the task queue in an iteration comes out as results, in order, each the mismatch text exactly for a short payload and else the answer, and nothing else does |
| `WorkerSteps.IterationIsSteps` | src/ThreadPool.cpp:86-108 | an iteration over k tasks is a run of the coarse system with k pops and k runs, which takes the same tasks and adds the same results |

## Left out

- Memory orders: relaxed, acquire and release are not modelled; sequential consistency is assumed for the atomics.
- ONNX Runtime, its allocator registration and `FromOrt`: foreign library and raw layout; the answer of the model is a parameter.
- Sockets, `getaddrinfo`, `bind`, `listen`, signals and printing: only what `accept`, `poll`, `recv` and `send` may answer is kept, as a parameter.
- `poll` that times out or fails: the skipped pass is the pass in which nothing is reported, and changes nothing but the recorded events.
- Telemetry, timers, traces beyond their id, configuration files, softmax and labels, the standard allocator, scripts and dashboards: they would only add easy members.
- Trace ids: unbounded here, 32 bits in the source; a wrap needs 2^32 requests.
- Cell index: `t & Mask` is modelled as the remainder by the capacity, which for 1024 is the same.
- Counters of the rings: natural numbers; MpmcTheorems.SignedDifferenceIsExact says for which runs the 64-bit difference agrees.
- `recv` and `send` results: their narrowing to `int` is not modelled, since the kernel moves at most INT_MAX bytes in a call.
- ClientSession: a value in the session map of the server object, with the header buffer as its received prefix; the class updates the map entry instead of a reference.
- RingQueues.MPMCTaskQueue.Push: alone in the ring, so without the retry branch and spurious failures, which the transition system has.
- RingQueues.MPMCTaskQueue.Pop: the same.
- RingQueues.MPMCTaskQueue.PopBatch: the same, since it calls Pop.
- NaiveQueues.NaiveTaskQueue.Pop: the wait itself is not modelled; a call whose condition does not hold reports that it waits.
- TcpServerClass.TCPServer.CloseConnection: demands a client entry with its own descriptor, as both callers pass it.
- Arena.BlocksStayApart: for requests whose sizes cannot wrap 64 bits; Arena.SoundExactlyWhen says that beyond this the code is unsound.
- InferenceEngineClass.InferenceEngine.MigrateMetadataToArena: demands that the metadata fits, because the source does not check for null.
- InferenceEngineClass.InferenceEngine.ReserveTables: demands that the tables fit, for the same reason.
- InferenceEngineClass.InferenceEngine.CopyNode: demands that the node fits, for the same reason.
- InferenceEngineClass.InferenceEngine.CopySide: demands that the side fits, for the same reason.
- Requests.MigrateForGood: demands that the metadata fits, for the same reason, and that no reset came before, as in the source.
- Metadata.StoredIsRead: names without a zero byte; src/InferenceEngine.cpp:42 makes every name from a C string.
- WorkerPodClass.WorkerPod.RunTask: demands that all its blocks fit, because the source does not check for null; preprocessing of the tensor is modelled apart from it, in ImageNet.Preprocess.
- WorkerPodClass.WorkerPod.RunImage: the same, and shapes and payloads as for ImageNet.Preprocess.
- WorkerPodClass.WorkerPod.ServeTask: demands room in the arena, for the same reason.
- WorkerPodClass.WorkerPod.ServeBatch: demands room in the arena, for the same reason.
- WorkerPodClass.WorkerPod.Iterate: one iteration after the stop test, on the queue under a lock; the loop with its stop test and the rings are in the transition systems.
- Requests.BranchesAgree: names without a zero byte, as src/InferenceEngine.cpp:42 makes them.
- ImageNet.Transform: arithmetic over the reals, without float rounding.
- ImageNet.NormalizeRoundTrip: the same.
- ImageNet.ImageRecoverable: the same.
- ImageNet.GuardWorksExactlyWhen: for shapes of fewer than 2^62 elements; ImageNet.WrappedCountAdmitsAll shows what happens beyond.
- ImageNet.Preprocess: the same shapes; a payload that passes the guard must cover what transform touches, which is memory safety and nothing more.
- SpscServer.NeverRefused: one worker, as src/LumenConfigManager.cpp:32-34 enforces for the SPSC ring.
- MpmcShutdown.ShutdownEnds: bounds the steps of a worker of the coarse system; a single pop may retry for as long as other threads claim positions.
- MpmcProgress.AnsweredExactlyUnlessRefused: says that some run delivers, not that every fair one does; fairness is not modelled.
- Progress.AnsweredExactlyUnlessRefused: the same, on the coarse system.
- Destruction of objects, joining of threads and closing of descriptors at exit.
