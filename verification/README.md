# Remote-control camera: buffers, threads, signalling and framing

Models of the stateful parts of a Raspberry Pi camera streamer, and proofs about them. Each module follows one
component of the program.

| file | component |
|---|---|
| `Common.dfy` | types the models share |
| `FrameGrouping.dfy` | how the encoder's fragments become frames: the incremental assembly, a grammar of the stream, and their equality |
| `BufferPool.dfy`, `PoolRuns.dfy` | which buffer is held by which container of the frame queue; every interleaving of writes, reads and clears |
| `FrameQueue.dfy` | `FrameBuffer` and `FrameQueue` as classes over byte arrays, proved to make the pool's moves |
| `QueueCalls.dfy` | sequences of calls on a queue are runs over its pool, so that the theorems on runs hold of the class |
| `CameraStream.dfy` | the streaming callback, which writes a fragment and reads a frame at once |
| `DispatchQueue.dfy` | the worker pool as a transition system: mutex, condition variable with spurious wake-ups, unlock before notify, shutdown |
| `MmalQueues.dfy`, `PortPipeline.dfy` | filling ports from pools; the recorder's loop against the port callbacks |
| `PortProgress.dfy` | what one round of the recorder's loop does, and how soon a filled header is delivered |
| `RecorderLinks.dfy` | the callbacks and the filling of a port, on the queues themselves, are events of the pipeline |
| `Signalling.dfy`, `IceBuffering.dfy` | browser and server over two FIFO channels; the browser's candidate buffer |
| `RtpClock.dfy` | 32-bit RTP timestamps and the sender-report test |
| `DeflateTail.dfy` | the zlib chunk loops and the permessage-deflate tail |
| `StreamingResponse.dfy` | chunked copying of a stream to a response writer |
| `StoredCallback.dfy` | a callback slot that remembers the last call it missed |
| `CommandLine.dfy` | the option parser of the camera program, with `sscanf` numbers, as one half of a print/parse pair |

Classes stand for objects the program updates in place; concurrent protocols are state machines whose runs are
sequences of states and events. Fields of the models marked as history (`writes`, `departed`, `sent`, `started`, ...)
only record what happened.

Branches of long functions (`write_back` above all) are methods of their own here, in the order the program takes them.

What the proofs rest on from outside the program:

- MMAL queues are FIFO with `put_back` at the front (`src/include/mmal/mmal_queue.h:35-65`); a port accepts or refuses
  a header and hands back those it accepted in any order.
- zlib makes bytes of its input that depend on all the input it was ever given, and hands them out in chunks as large
  as the room it is given. What it makes is described by hypotheses of the lemmas: `Format` (stored blocks, section
  3.2.4 of RFC 1951), `Compresses` (a sync flush on any stream that stands for the earlier input) and `Decompresses`;
  `StoredBlocksSuffice` shows that they can be met.
- Gathering starts at `setLocalDescription` (section 3.5.1 of RFC 8829); a web socket delivers in order.
- A sender report goes out before the next packet, with that packet's timestamp
  (`src/include/rtc/rtcpsrreporter.hpp`); timestamps are exact products of seconds and clock rate, rounded down.

Where the code does not do what one would like, the model follows the code:

- The eviction loop of `write_back` pops the free list even when it has just deleted everything on it. It is safe
  exactly when the list is empty beforehand or holds a permanent buffer (`EvictTemporaries`, `EvictLeaves`,
  `StuckIsExact`). Whatever the capacity, a few writes and reads that fill the queue by one more always lead to the
  state that breaks it (`UnderflowIsCertain`, `EvictionCanUnderflow`, `RunDry`). A write that starts with fewer frames
  queued than the capacity is always safe and makes no temporary, whatever happened before (`RoomIsSafe`, `WritePaced`),
  and so is the streaming callback's write-then-read (`OnCamBuffer`).
- `write_back` copies from the start of the header's data, whatever its `offset`.
- The streaming callback reads a frame from the queue but sends the raw fragment.
- `-v` and `-c` do not step over their values. A format that starts with a dash is therefore read again as an option;
  `FormatSurvives` says that exactly the other formats are safe in every command line. `-b`, `-a`, `-n` and `-f`
  accept an empty value and keep the old one, `-f` with the denominator one.
- The 32-bit report test differs from the true one exactly for distances of 2^32 ticks or more whose remainder is
  within a second, and for steps back whose remainder is not (`WrappedTestIsExact`). At the clock rate of H.264 a pause
  of 47721858845 microseconds is one (`PauseOfOneWrap`); over a whole stream `RequestsAreExact` says when it matters.
- The tail test of `deflate` looks at the whole output vector: earlier content is cut into exactly when fewer than five
  bytes follow it and it ends in the tail together with them (`StripIsLocal`).
- A refused command line keeps the settings changed before the refusal, those of a half-read number list included.

## Model

| member | source | states |
|---|---|---|
| FrameGrouping.GroupEnd | src/frame_queue.cpp:103-117 | a group is decided by the first fragment that ends the frame or no longer fits, and by no earlier one |
| FrameGrouping.FoldIsGrammar | src/frame_queue.cpp:89-138 | for every stream, assembling fragment by fragment emits exactly the frames the look-ahead grammar describes |
| FrameGrouping.FramesFit | src/frame_queue.cpp:98-107 | no emitted frame and no open group exceeds the buffer size |
| FrameGrouping.Lossless | src/frame_queue.cpp:103-138 | emitted bytes followed by the open group are all accepted bytes in order if and only if no group overflows; otherwise bytes are lost |
| FrameGrouping.FlagBits | src/frame_queue.h:11-18 | a frame carries bits 0 to 7 of the header; bit 2 ends a frame and bit 5 is the CONFIG flag |
| FrameGrouping.AcceptedIsKept | src/frame_queue.cpp:89-138 | a fragment is accepted exactly when its bytes are kept and none kept before are lost |
| FrameGrouping.AcceptedIsRoom | src/frame_queue.cpp:94-109 | and exactly when it fits into a buffer behind the open group |
| FrameGrouping.OnlySkippedLeaveNoTrace | src/frame_queue.cpp:94-100 | without an open group only fragments without bytes and flags, and oversize ones, leave no trace |
| BufferPool.OwnedIsLive | src/frame_queue.h:86-88 | a buffer is live exactly when some container holds it, and no two containers hold it |
| BufferPool.OwnedIsDistinct | src/frame_queue.h:86-88 | no container holds a buffer twice |
| BufferPool.Occupancy | src/frame_queue.cpp:41-51 | without temporaries, pending, free and queued buffers number exactly the capacity |
| BufferPool.WriteKeeps | src/frame_queue.cpp:89-138 | every branch of a write keeps ownership, the permanent count, sizes, and agreement with the stream written |
| PoolRuns.EvictLeaves | src/frame_queue.cpp:122-126 | the eviction loop leaves a buffer to pop if and only if a permanent one was free |
| PoolRuns.RunKeeps | src/frame_queue.cpp:70-138 | every state of every run of writes, reads and clears is consistent, and its history is what was written |
| PoolRuns.RunYieldsFrames | src/frame_queue.cpp:70-138 | after any run from initialisation, frames that left the queue followed by those in it are the frames of the stream written |
| PoolRuns.ReadsYieldFrames | src/frame_queue.cpp:79-138 | for every interleaving of writes and reads, the frames read so far followed by those queued are the frames of the stream written |
| PoolRuns.DepartedIsDelivered | src/frame_queue.cpp:79-87 | unless the queue is cleared, the frames that left it are those handed to readers, as they were when read |
| PoolRuns.PacedRun | src/frame_queue.cpp:79-138 | if every write starts with fewer than capacity frames queued, no temporary is ever made and the three containers always hold capacity buffers |
| PoolRuns.RoomIsSafe | src/frame_queue.cpp:119-127 | in every consistent state, temporaries or not, a write that starts with fewer than capacity frames queued finds a permanent buffer to pop and needs no temporary |
| PoolRuns.WriteWithRoomIsSafe | src/frame_queue.cpp:119-127 | so can such a write be made at the end of every run |
| PoolRuns.RunRotates | src/frame_queue.cpp:70-138 | without temporaries, waiting free buffers keep their order and contents; only writes that take a buffer use them up, from the front |
| PoolRuns.ReadFrameStays | src/frame_queue.cpp:79-87 | without temporaries, a frame read while k buffers are free keeps its bytes, length and flags through the next k writes that take a buffer, whatever happens in between, and its buffer is then the next to be reused |
| PoolRuns.ReadFrameStaysAnyway | src/frame_queue.cpp:79-127 | with temporaries about, the same for as many such writes as permanent buffers were free; its buffer is then on the free list with no permanent one ahead |
| PoolRuns.NextTakeEndsIt | src/frame_queue.cpp:119-137 | that bound is sharp: with no permanent buffer ahead of it, the next write that takes a buffer overwrites or deletes it |
| PoolRuns.HeadIsReused | src/frame_queue.cpp:119-137 | the bound is sharp: the next write that takes a buffer overwrites the head of the free list |
| PoolRuns.StuckIsExact | src/frame_queue.cpp:119-127 | the eviction loop empties a list that was not empty exactly when only temporaries are free, and exactly then the write cannot be made |
| PoolRuns.EvictionCanUnderflow | src/frame_queue.cpp:119-127 | for every capacity n, a run of n + 1 writes, n reads, n writes and one read to a state from which a write pops an empty free list |
| PoolRuns.UnderflowIsCertain | src/frame_queue.cpp:119-127 | every run that makes these calls ends in such a state, and no shorter part of it does |
| FrameQueues.FrameBuffer.Copy | src/frame_queue.cpp:5-17 | the buffer holds exactly the fragment's bytes and its low eight flags; the copy stays in range |
| FrameQueues.FrameBuffer.Append | src/frame_queue.cpp:19-31 | earlier bytes stay, the fragment's follow, the flags are the fragment's; the copy stays in range |
| FrameQueues.FrameBuffer.Reset | src/frame_queue.h:39-42 | an empty frame without flags |
| FrameQueues.FrameQueue.Destroy | src/frame_queue.cpp:53-66 | every live buffer is deleted, each while it is live, hence once |
| FrameQueues.FrameQueue.Init | src/frame_queue.cpp:41-51 | from any earlier state, an empty stream over capacity fresh permanent buffers |
| FrameQueues.FrameQueue.ReadFront | src/frame_queue.cpp:79-87 | hands out the front frame and puts its buffer at the back of the free list; null exactly when the queue is empty |
| FrameQueues.FrameQueue.Clear | src/frame_queue.cpp:70-75 | all queued buffers join the free list in order and nothing else changes |
| FrameQueues.FrameQueue.EvictTemporaries | src/frame_queue.cpp:122-125 | deletes the temporaries at the head, and leaves a buffer if and only if a permanent one was free |
| FrameQueues.FrameQueue.WriteBack | src/frame_queue.cpp:89-138 | keeps the object valid, makes the pool's write, creates a temporary only when no buffer is free, and answers true exactly when the fragment's bytes were kept and none before were lost |
| QueueCalls.Perform | src/frame_queue.cpp:70-138 | a call on a valid queue is a step of a run, and a read hands out the frame the step delivers |
| QueueCalls.Drive | src/frame_queue.cpp:70-138 | any sequence of calls on a valid queue is a run over its pool, and the bytes copied out of the buffers read are the frames the run delivers; only a write into a full queue, with nothing to pop, can stop it |
| QueueCalls.DriveNew | src/frame_queue.cpp:70-138 | from initialisation on, frames taken out and frames queued are those of the stream written; without clears the former are those copied out |
| QueueCalls.ReadThenDrive | src/frame_queue.cpp:79-127 | the buffer object handed to a reader holds the same frame until later writes have taken more buffers than permanent ones were free |
| QueueCalls.RunDry | src/frame_queue.cpp:119-127 | any new queue with at least one buffer is brought to a write with nothing to pop |
| QueueCalls.WritePaced | src/frame_queue.cpp:77-138 | asking for the size first makes every write safe and never makes a temporary, from any state |
| CameraStream.OnCamBuffer | src/server.cpp:368-389 | with capacity at least one no temporary is ever made, every write is safe, and the frame the fragment completes is read back in the same callback |
| CameraStream.Record | src/server.cpp:368-389 | the frames read back over a whole recording are the frames of the encoder's stream |
| DispatchQueues.StepKeepsExclusive | src/dispatchqueue.cpp:30-94 | at most one thread holds the mutex |
| DispatchQueues.StepKeepsWakeUps | src/dispatchqueue.cpp:52-79 | while a worker sleeps, queued operations number at most the awake workers plus the notifications in flight |
| DispatchQueues.NoLostWakeUp | src/dispatchqueue.cpp:47-94 | in every reachable state with work queued, a worker is up or a dispatcher has unlocked and not notified yet; while a worker sleeps, each queued operation has an awake worker or a notification of its own |
| DispatchQueues.QueuedWorkMoves | src/dispatchqueue.cpp:52-94 | while work is queued the pool can always take a step of its own |
| DispatchQueues.StopsOnlyAtRest | src/dispatchqueue.cpp:47-94 | while nobody shuts the pool down it can take a step of its own until every call has returned, every worker sleeps, and every operation pushed was finished or removed |
| DispatchQueues.DrainEnds | src/dispatchqueue.cpp:47-94 | every run without a shutdown has a bounded number of steps but for what calls and spurious wake-ups add, and can go on until all operations are finished or removed |
| DispatchQueues.NothingStartsAfterQuit | src/dispatchqueue.cpp:81-93 | once quit is set no operation is started any more, over any run |
| DispatchQueues.QuitLeadsToAlarm | src/dispatchqueue.cpp:30-35 | when quit is set and the alarm has not been raised, the destructor can raise it |
| DispatchQueues.AlarmBoundsSteps | src/dispatchqueue.cpp:30-45 | after notify_all every worker step uses up one of at most three per worker, in every interleaving |
| DispatchQueues.AlarmLeadsToExit | src/dispatchqueue.cpp:35-45 | after notify_all nobody sleeps, somebody can move until all workers have left, and then every join returns |
| DispatchQueues.StopsOnlyWhenDone | src/dispatchqueue.cpp:30-45 | after notify_all some thread can move until every worker has left and every call, the destructor's joins included, has returned |
| DispatchQueues.ShutdownEnds | src/dispatchqueue.cpp:30-94 | from notify_all on, any run of workers, callers and joins has a bounded number of steps but for what new calls add, and can go on until all have returned |
| DispatchQueues.OperationsAreAccountedFor | src/dispatchqueue.cpp:47-94 | the callers are those that arrived; each dispatch that has had the mutex pushed one operation; queued, running, finished and removed operations are all those pushed, once each; starts follow the push order, without gaps if nothing was removed; one worker finishes in that order |
| DispatchQueues.RemovedStaysRemoved | src/dispatchqueue.cpp:47-50 | once a removal has had the mutex, no operation pushed before is queued or started any more, and those then queued count as removed |
| DispatchQueues.DestructorWaits | src/dispatchqueue.cpp:37-44 | the destructor returns only after every worker has left |
| MmalQueues.SendBufferFromQueue | src/video.cpp:472-494 | moves the head to the port, or on a refusal leaves the queue as it was and reports the port's status |
| MmalQueues.Accepted | src/video.cpp:497-510 | the accepted sends before the first refusal |
| MmalQueues.FillPortFromPool | src/video.cpp:497-510 | sends a prefix of the pool in order; success means it is empty, failure leaves the rest with the refused header at its head |
| MmalQueues.OutputPortCallback | src/video.cpp:512-528 | an event goes back to its pool, a filled header behind those waiting for the application, and nothing else changes |
| MmalQueues.InputPortCallback | src/video.cpp:530-539 | whatever comes back from an input port goes behind the headers waiting in its pool |
| PortPipeline.StepKeepsOwned | src/video.cpp:512-539 | every loop step and every callback keeps the headers of both pools together |
| PortPipeline.EveryHeaderInOnePlace | src/video.cpp:1030-1110 | under every interleaving and refusal each header is in exactly one place, and filled headers are passed on in the order they were queued |
| PortPipeline.HandIsExclusive | src/video.cpp:1072-1109 | a header the loop is sending or reading is in no queue and no port |
| PortPipeline.FillIsRun | src/video.cpp:1052-1054 | filling a port from its pool, refusals included, is a run of the loop's single steps |
| PortPipeline.EncoderFillIsRun | src/video.cpp:1055-1057 | likewise for the encoder's output port |
| PortProgress.RoundIsRun | src/video.cpp:1052-1109 | one iteration of the loop, whatever the ports answer, is a run of its single steps |
| PortProgress.RoundMoves | src/video.cpp:1052-1109 | with no refusal it moves both pools into their output ports, the oldest camera header into the encoder, and the oldest encoded one to the application and back to its pool |
| PortProgress.FilledIsDelivered | src/video.cpp:1030-1110 | with no refusal and no stop, every header the encoder fills is delivered in its turn within a bounded number of loop steps, whatever the callbacks do in between |
| PortProgress.EventsAreRecorded | src/video.cpp:512-539 | what the callbacks handed over is what the loop passes on, the encoder holds what it was sent and has not consumed, and a stop request is final |
| RecorderLinks.LinkQueues.Filled | src/video.cpp:512-528 | on the queues themselves, the output port's callback is the pipeline's event |
| RecorderLinks.LinkQueues.Consumed | src/video.cpp:530-539 | so is the input port's |
| RecorderLinks.LinkQueues.FillFromPool | src/video.cpp:497-510 | so is filling the port, as a run that ends where the method ends |
| RecorderLinks.LinkQueues.FillEncoderFromPool | src/video.cpp:1055-1057 | so is filling the encoder's output port |
| Signalling.HeadOfChannel | static/signal.js:37-52 | the message the server reads next is a call only as the first, and a candidate only after an answer |
| Signalling.SignallingIsProper | src/server.cpp:254-296 | candidates are applied only after the remote description, which is set only after the offer was sent and received; nothing follows a close |
| Signalling.MessagesAreApplied | src/server.cpp:260-296 | the server has done exactly what the messages received before the first hangup ask for, in order, and has closed the connection exactly if it received a hangup |
| Signalling.BooksAreKept | static/signal.js:30-160 | the page has sent exactly what its events ask for while the socket is open, answers one by one the descriptions it set, and gathers from the first answer on; each completed gathering of the server sent one offer |
| Signalling.CallGoesThrough | static/signal.js:85-160 | a call can go through from the offer to the hangup with any candidates |
| Signalling.CandidatesArrive | src/server.cpp:276-296 | the server adds exactly the candidates it received before the first hangup, each once and in order; what it received is a prefix of what was sent |
| Signalling.NothingAfterHangup | src/server.cpp:288-294 | once the hangup was handled nothing is applied for the rest of any run |
| IceBuffering.SignalClient.AddIceCandidates | static/signal.js:13-27 | hands over the waiting candidates in order exactly when the description is set |
| IceBuffering.SignalClient.OnEvents | static/signal.js:92-160 | every candidate is handed over once and in order, none before the description, and afterwards none waits |
| IceBuffering.ArrivesAsSent | static/signal.js:133-153 | a candidate arrives exactly if some message describes it by its index and its text |
| IceBuffering.DescriptionTimeIsIrrelevant | static/signal.js:108-118 | two pages sent the same messages hand over the same candidates in the same order whenever each has its description set, and a page without one has just those waiting |
| IceBuffering.TwoPages | static/signal.js:92-160 | the same of two pages from their start, with the description set once at different times |
| RtpClock.TicksAreInteger | src/server.cpp:469-472 | exact seconds give the exact tick count |
| RtpClock.SampleTimeWraps | src/server.cpp:462-462 | a sample time is taken as it is, and a negative one as the huge time 2^64 more |
| RtpClock.Distance | src/server.cpp:475-478 | unsigned subtraction of timestamps is the true distance modulo 2^32, wherever the clock starts |
| RtpClock.Sender.OnSample | src/server.cpp:462-482 | the timestamp is the true tick count cut to 32 bits, and a report is requested when the distance modulo 2^32 exceeds a second |
| RtpClock.WrappedTestIsExact | src/server.cpp:478-482 | the wrapped test agrees with the true one if and only if the distance is below 2^32 ticks or its remainder exceeds a second; for a step back, if and only if the remainder does not |
| RtpClock.PauseOfOneWrap | src/server.cpp:475-482 | a pause of 2^32 ticks at 90 kHz: a report is due and none is requested |
| RtpClock.RequestsAreExact | src/server.cpp:462-482 | over any stream, reports are requested exactly where an unbounded clock would if and only if the test is right at every sample |
| RtpClock.SteadyIsRight | src/server.cpp:462-482 | the test is right at every sample of a stream of any length without steps back or pauses of a whole wrap |
| RtpClock.Stream | src/server.cpp:462-482 | the requests of the 32-bit clock over any samples, and when they are those of an unbounded one |
| DeflateTail.RestoredIsProduced | src/libs/seasocks/ZlibContext.cpp:107-120 | what the receiver decompresses is the compressor's output, or that and one empty stored block, the latter exactly when the output lacks the tail |
| DeflateTail.StripIsLocal | src/libs/seasocks/ZlibContext.cpp:107-114 | earlier content of the output vector is left alone if and only if at least five bytes follow it or all does not end in the tail |
| DeflateTail.MessageRoundTrip | src/libs/seasocks/ZlibContext.cpp:85-141 | on any stream so far, the next message, the empty one included, survives compression with the earlier ones as context, tail removal and tail return |
| DeflateTail.Impl.Drain | src/libs/seasocks/ZlibContext.cpp:92-104 | appends all the bytes zlib makes whatever the chunk boundaries; fails exactly when a needed call does, and then leaves just the chunks before it |
| DeflateTail.Impl.Deflate | src/libs/seasocks/ZlibContext.cpp:85-115 | appends what the compressor makes of the input and strips the tail; a failure leaves the chunks before it, unstripped |
| DeflateTail.Impl.Inflate | src/libs/seasocks/ZlibContext.cpp:117-141 | appends what the decompressor makes of the input with the tail returned; an error leaves the chunks before it and is reported |
| DeflateTail.SendMessage | src/libs/seasocks/ZlibContext.cpp:85-141 | a message through both loops arrives as it was sent, and the streams stay in step |
| DeflateTail.Converse | src/libs/seasocks/ZlibContext.cpp:85-141 | any conversation over the same two streams is received message by message as sent, up to the first failure of zlib |
| StreamingResponses.Round | src/libs/seasocks/StreamingResponse.cpp:46-62 | which round of the loop is the last, and what it delivers |
| StreamingResponses.StreamingResponse.Handle | src/libs/seasocks/StreamingResponse.cpp:32-65 | terminates; begin, headers, payloads and one finish in order; one payload for each round, of a whole chunk but for the last; the payloads are the stream up to a failure's chunk or a cancellation |
| StoredCallbacks.OpenMissIsUnique | src/include/rtc/utils.hpp:131-136 | at most one missed call is waiting |
| StoredCallbacks.AfterAssign | src/include/rtc/utils.hpp:123-129 | an assignment of null keeps a run of missed calls open, one of a callback closes it |
| StoredCallbacks.SynchronizedStoredCallback.Set | src/include/rtc/utils.hpp:123-129 | a new callback is given the last missed call, and nothing stays stored |
| StoredCallbacks.SynchronizedStoredCallback.Call | src/include/rtc/utils.hpp:131-136 | the call is delivered or replaces the stored one; the answer is true either way |
| StoredCallbacks.DeliveredSnoc | src/include/rtc/utils.hpp:123-136 | reading the whole trace with look-ahead and going operation by operation with one stored call deliver the same |
| StoredCallbacks.NoneMissed | src/include/rtc/utils.hpp:131-136 | with a callback in place throughout, every call arrives, in order |
| StoredCallbacks.Run | src/include/rtc/utils.hpp:115-139 | for any sequence of operations the deliveries are the trace with each run of missed calls collapsed to its last, given to the next callback assigned, and what is stored is the open miss |
| Numerals.ScansPrinted | src/mmalcam/mmalcam.c:176-180 | scanning a printed number gives it back and leaves what follows |
| Numerals.ScansSpelled | src/mmalcam/mmalcam.c:215-230 | a number may be padded and carry either sign |
| Numerals.OtherTextIsNoMatch | src/mmalcam/mmalcam.c:215-230 | any other text, a sign without digits included, is no number |
| CommandLine.ScansRect | src/mmalcam/mmalcam.c:176-180 | a printed rectangle scans back to itself |
| CommandLine.Switch | src/mmalcam/mmalcam.c:200-254 | what each option does, which arguments it uses, and which settings it has changed when it is refused |
| CommandLine.ParseCmdline | src/mmalcam/mmalcam.c:183-258 | the loop terminates, stays within the arguments, and computes the meaning of the command line, the settings left by a refusal included |
| CommandLine.OptionParses | src/mmalcam/mmalcam.c:200-254 | a printed option is applied and the rest of the line is parsed as before, also where the value is left to be skipped |
| CommandLine.PrintedOptionsParse | src/mmalcam/mmalcam.c:183-258 | any list of options, printed at the head of a command line, has the effect it says, whatever follows |
| CommandLine.RefusalKeepsEarlier | src/mmalcam/mmalcam.c:183-300 | a refused option leaves the effect of the options before it and its own partial one |
| CommandLine.RefusalLeaves | src/mmalcam/mmalcam.c:176-247 | a rectangle of one to three numbers leaves just those fields changed, an unknown parameter name its seconds, a focus mode out of range the mode, a rate without a number the denominator one |
| CommandLine.UnknownIsRefused | src/mmalcam/mmalcam.c:200-254 | an option that is not in the list, `-h` included, is refused and changes nothing |
| CommandLine.MissingIsRefused | src/mmalcam/mmalcam.c:203-252 | so is one whose value is missing |
| CommandLine.NoNumberIsRefused | src/mmalcam/mmalcam.c:210-252 | and one whose value is no number, or is empty where one number is a must |
| CommandLine.EmptyValueKeeps | src/mmalcam/mmalcam.c:232-252 | elsewhere an empty value keeps the old one, and for `-f` resets the denominator |
| CommandLine.LetterDecides | src/mmalcam/mmalcam.c:201-239 | only an option's letter counts, and for `-z` whether a `!` follows |
| CommandLine.TrailingTextPasses | src/mmalcam/mmalcam.c:228-252 | text behind a number is let pass |
| CommandLine.OthersAreSkipped | src/mmalcam/mmalcam.c:189-201 | arguments without a dash are skipped, and after `--` all are |
| CommandLine.MisreadFormat | src/mmalcam/mmalcam.c:207-209 | for every format that starts with a dash, settings and options for which the round trip fails |
| CommandLine.FormatSurvives | src/mmalcam/mmalcam.c:207-209 | a format survives in every command line if and only if it does not start with a dash |
| CommandLine.SettingsRoundTrip | src/mmalcam/mmalcam.c:279-296 | settings printed in the usage syntax and parsed over the defaults come back unchanged |

## Left out

- MMAL, VCOS, libdatachannel, zlib and seasocks internals: only their declarations are in the repository.
- The sized `FrameQueue` constructor, which loops over an indeterminate capacity, and use of a queue before `init`.
- Failed allocation: `init` is modelled for buffer sizes `malloc` can return on the 32-bit target.
- Unlocked access to one frame queue from several threads: calls are taken one at a time.
- Component creation, format commit and camera parameter changes: foreign calls with status checks.
- Port callbacks during `FillPortFromPool`; they are interleaved with the loop in `PortPipeline`.
- Teardown after an error in `start_recorder` and `connect_ports`.
- Several browsers or sessions sharing the client id "999", SDP and JSON text, and messages of unknown type.
- Signalling: candidates sent by the server, which never sends any; the browser's handling of them is in `IceBuffering`.
- RtpClock: rounding of doubles.
- DeflateTail: creation and destruction of the zlib streams, and `avail_in` beyond 32 bits.
- StreamingResponse: the transfer encoding and header syntax written by the response writer.
- StoredCallback: reentrant callbacks, and copying or moving a slot.
- CommandLine: the usage text, null argument strings, and numbers beyond the word size, which are reduced modulo 2^32.
- `src/mmalcam/viewfinder.c`, which repeats `src/video.cpp`, and the parameter cyclers `mmalcam_next_*`.
