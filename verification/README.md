# Verification of the eye camera streamer

A Dafny 4.11 model of the eye camera streaming application, with proofs. `dafny verify dfyconfig.toml` checks all of it.

The encoder hands over frames. Each frame is stamped and copied (`stream_frame.dfy`) and pushed to a distributor that fans it out to bounded per-consumer queues with a worker thread each (`distributor.dfy`, `distributor_runs.dfy`, `stream_distributor.dfy`). One consumer records to a file (`recorder.dfy`). Another is the RTSP server (`rtsp_server.dfy`): it cuts every pack into NAL units at the Annex B start codes of ITU-T H.264 and ITU-T H.265 (`annex_b.dfy`, `annex_b_laws.dfy`), keeps the parameter sets (`nal_pipeline.dfy`, `printed_frames.dfy`), and queues access units (`access_units.dfy`) for live555 sources (`rtsp_delivery.dfy`, `presentation.dfy`) that are woken up through an event trigger (`wake_up.dfy`, `wake_up_steps.dfy`). `end_to_end.dfy` composes these parts. `queue_traces.dfy` relates the wake-up protocol to the queue's own law. Two vendored headers are modelled as well: the intrusive circular list (`osal_list.dfy`) and the INI dictionary (`ini_hash.dfy`, `ini_dictionary.dfy`, `ini_file.dfy`).

How it is modelled:

- Objects that the program updates in place are classes. Their methods are proved against functions on values, and the laws are proved about those functions.
- Threads are step systems: `Next` gives the effect of one atomic step or None, and theorems hold for every finite sequence of steps. A mutex is a state in which the other side's step is impossible. Reading a running flag, evaluating a wait condition and popping are separate steps, as they are in the code, so the flag can change in between. Taking the front of an empty deque would be undefined behaviour; it is a `Crashed` state, proved unreachable.
- What a step system remembers beyond the program's own fields (frames pushed, how a frame left a queue, what was delivered) only records; no step depends on it.

What the code demands and the model takes over: a frame has at most 16 packs; a non-null pack has `len` bytes; the recorder gets no null pack with a length, and its queue size is at least 1; one producer thread per distributor pushes frames in the order it created them (`modules/platform/hi3516cv610/src/hi_stream_fetcher.cpp:145-149`); streams are added before frames flow; a source outlives its scheduled deliver tasks; live555 clears a trigger before it runs the handler.

Where the code and its documentation differ, the code is modelled:

- Exactly one zero byte in front of 00 00 01 is given to the start code. Further trailing zeros stay in the NAL, and a NAL that ends in a zero loses it to a 3-byte code behind it (`AnnexBLaws.TrailingZeroIsLost`, with the exact condition in `AnnexBLaws.RoundTripExactly`).
- The design document lets the RTSP queue drop single NALs; the code drops access units. The head unit may already have been delivered in part.
- A section line of an INI file stores nothing, because storing a null value is a no-op. The documented number of keys in a section is therefore 0 for every section whose name has no colon (`IniFiles.PlainSectionsCountAsEmpty`). For a name with a colon the count can also be too high, because another section's entries may fall under its prefix (`IniFiles.NoKeyCountedAsOne`). `IniFiles.CountIsRightExactly` says exactly when it is right.
- When an allocation fails while a file is loaded, a comment says that the whole file is skipped; the code stops reading and returns the entries it has (`IniFiles.ProcessFile`).

## Model

| member | source | states |
|---|---|---|
| AnnexB.StartCodeLen | modules/rtsp/src/rtsp_nal_parser.cpp:28-36 | 3 exactly at 00 00 01, 4 exactly at a zero followed by 00 00 01, and never past the end of the buffer |
| AnnexB.Scan | modules/rtsp/src/rtsp_nal_parser.cpp:74-87 | the loop that jumps by 1, 3 or 4 chains every offset to the first occurrence behind the one before, and ends with none left |
| AnnexB.ScanIsExact | modules/rtsp/src/rtsp_nal_parser.cpp:74-87 | the recorded offsets are the ends of all occurrences of 00 00 01 and nothing else, in order and without overlap; a code counts as 4 bytes exactly when the byte before the occurrence exists and is 0 |
| AnnexB.EmitNals | modules/rtsp/src/rtsp_nal_parser.cpp:99-112 | what is appended are the non-empty cuts between recorded codes, classified, in order |
| AnnexB.SplitAnnexBNals | modules/rtsp/src/rtsp_nal_parser.cpp:69-113 | for every buffer, with or without start codes, the output grows by exactly the payloads of the reference meaning `Split` |
| AnnexB.ClassifyNal | modules/rtsp/src/rtsp_nal_parser.cpp:38-67 | one header field alone selects the flag, with the type numbers of each codec; at most one flag per NAL, no VPS in H.264, none at all for MJPEG or for a header that is not complete |
| AnnexBLaws.H264TypeDecides | modules/rtsp/src/rtsp_nal_parser.cpp:3-13 | whatever the other header bits and the payload, only the 5-bit type field decides: 5, 7 and 8 |
| AnnexBLaws.H265TypeDecides | modules/rtsp/src/rtsp_nal_parser.cpp:15-26 | whatever the other header bits and the payload, only the 6-bit type field decides: 32, 33, 34, 19 and 20 |
| AnnexBLaws.EmittedNalsAreFixedPoints | modules/rtsp/src/rtsp_nal_parser.cpp:89-112 | no emitted payload is empty or contains 00 00 01, and splitting it again gives just itself |
| AnnexBLaws.BytesAreConserved | modules/rtsp/src/rtsp_nal_parser.cpp:77-112 | a buffer with a start code is a clean discarded prefix followed by codes and payloads in turn, byte for byte; the output is the non-empty ones; no zero a short code could take is left in front of it |
| AnnexBLaws.RoundTripExactly | modules/rtsp/src/rtsp_nal_parser.cpp:77-112 | joining NALs with any mix of start codes and splitting gives the list back if and only if all are non-empty, none contains a start code, and none in front of a 3-byte code ends in 0 |
| AnnexBLaws.TrailingZeroIsLost | modules/rtsp/src/rtsp_nal_parser.cpp:28-36 | a list that does not survive the round trip |
| AnnexBLaws.NormalisationIsStable | modules/rtsp/src/rtsp_nal_parser.cpp:69-113 | for every buffer, rewriting the split result with 4-byte codes and splitting again gives the same list |
| Frames.NextTimestamp | modules/stream/src/stream_frame.cpp:13-22 | later than the last timestamp, not before the clock, and one of the clock's value or the successor |
| Frames.IssueIsLeastRepair | modules/stream/src/stream_frame.cpp:7-23 | for any clock readings the issued timestamps are strictly increasing and never below the readings, and pointwise no larger than any other such sequence |
| Frames.MonotonicClock.NextTimestampMs | modules/stream/src/stream_frame.cpp:17-22 | one call moves the static counter to the timestamp it returns |
| Frames.CopyPack | modules/stream/src/stream_frame.cpp:33-40 | the copy has the pack's bytes in fresh memory, or a null pointer when there are none; length and type are kept |
| Frames.StreamFrame.constructor | modules/stream/src/stream_frame.cpp:25-43 | every pack has the length, the type and exactly the bytes it had upstream, in memory of the frame's own, and the next timestamp |
| Frames.FrameOutlivesItsSource | modules/stream/src/stream_frame.cpp:29-42 | whatever bytes the encoder writes to its buffers afterwards, every pack of the frame keeps the bytes it had |
| Frames.StreamFrame.IsIdr | modules/stream/src/stream_frame.cpp:48-62 | true exactly for MJPEG or when some pack is an IDR slice |
| Distributor.NewCore | modules/stream/src/stream_distributor.cpp:29-34 | an empty running queue whose size is the given one, 0 forced to 1 |
| Distributor.Enqueue | modules/stream/src/stream_distributor.cpp:78-83 | the queue holds the newest frames in order, the new one last; the bound is kept, nothing is dropped while there is room, and the drop counter accounts for the length |
| Distributor.SlotAccounting | modules/stream/src/stream_distributor.cpp:67-121 | in every interleaving, until it is cleared a slot's queue is what it received without a prefix, and that prefix has dropped + consumed + failed + at most one in flight frames |
| Distributor.OrderAndSlack | modules/stream/src/stream_distributor.cpp:74-112 | the callback sees received frames in order; a removed frame it never sees was dropped on arrival of exactly the max-th frame behind it |
| Distributor.FanOutIsComplete | modules/stream/src/stream_distributor.cpp:25-86 | whatever other consumers do, a slot has received exactly the frames whose push began between its registration and its erasure, in order, the newest possibly still on its way |
| Distributor.HistoryIsFaithful | modules/stream/src/stream_distributor.cpp:25-121 | over one step of the whole system every field of a slot changes at exactly the event named for it: received at a push to it, dropped at a push to a full queue, seen at a pop, consumed at a callback that returned and failed at one that threw, late takes at a pop after the stop |
| Distributor.NewSlotIsEmpty | modules/stream/src/stream_distributor.cpp:25-42 | a slot comes with its registration alone, empty and running, a size of 0 forced to 1 |
| Distributor.StopIsPrompt | modules/stream/src/stream_distributor.cpp:102-112 | the worker never pops an empty queue, though the flag may change inside its critical section, and takes at most one frame after the stop |
| Distributor.NoCallbackAfterRemoval | modules/stream/src/stream_distributor.cpp:44-65 | once the worker has been joined, no continuation of the run changes what the callback saw or its counters |
| Distributor.AtMostOneLateFrame | modules/stream/src/stream_distributor.cpp:61-85 | a push with an older snapshot leaves at most one frame in a cleared queue |
| DistributorRuns.ProducerIsFaithful | modules/stream/src/stream_distributor.cpp:25-86 | what a step does to the producer's snapshot, to the frames pushed and to the registered slots |
| DistributorRuns.CountersCountReturns | modules/stream/src/stream_distributor.cpp:114-119 | over any run, consumed is the number of callbacks of the slot that returned, and failed the number of those that threw |
| DistributorRuns.ProducerStepsArePossible | modules/stream/src/stream_distributor.cpp:67-86 | registration and erasure are always possible, and a push waits for nothing but the slot's mutex |
| DistributorRuns.SlotStepsArePossible | modules/stream/src/stream_distributor.cpp:44-112 | when each step of a worker and of a removal is possible, exactly |
| DistributorRuns.WorkerServesNext | modules/stream/src/stream_distributor.cpp:102-120 | while the slot runs and a frame waits, the worker hands the oldest one to the callback by its own steps |
| DistributorRuns.RemovalCompletes | modules/stream/src/stream_distributor.cpp:55-65 | once the flag is cleared and no callback runs, worker and remover finish by their own steps and leave an empty queue |
| StreamDistribution.ConsumerSlot.constructor | modules/stream/src/stream_distributor.cpp:26-34 | a new slot has the state the step system starts from |
| StreamDistribution.ConsumerSlot.Enqueue | modules/stream/src/stream_distributor.cpp:76-84 | the producer's critical section has the effect of `Enqueue` on the slot's fields |
| StreamDistribution.ConsumerSlot.TakeFront | modules/stream/src/stream_distributor.cpp:104-112 | the oldest frame is taken, or nothing after a stop |
| StreamDistribution.StreamDistributor.AddConsumer | modules/stream/src/stream_distributor.cpp:25-42 | appends a fresh slot under a new unique id |
| StreamDistribution.StreamDistributor.RemoveConsumer | modules/stream/src/stream_distributor.cpp:44-65 | erases exactly the slot with the id, stops and empties it, leaves all others alone, and does nothing for an unknown id |
| StreamDistribution.StreamDistributor.Push | modules/stream/src/stream_distributor.cpp:67-87 | without interference every registered slot gets the frame exactly once |
| Recorder.BytesInPlace | modules/stream/src/recorder_consumer.cpp:31-36 | byte k of pack i stands in the entry at the sum of the lengths of the packs in front, plus k |
| Recorder.EntryIsWhole | modules/stream/src/recorder_consumer.cpp:23-36 | an entry is as long as its packs together, holds every byte in its place, and is marked IDR exactly for MJPEG or a pack with an IDR slice |
| Recorder.Victim | modules/stream/src/recorder_consumer.cpp:67-77 | an IDR entry is chosen only when there is no other kind, and then the oldest |
| Recorder.VictimIsOldestOfItsKind | modules/stream/src/recorder_consumer.cpp:67-77 | dropping takes the oldest entry of its kind and leaves the order and the other kind as they were |
| Recorder.QueueKeepsTheNewestOfEachKind | modules/stream/src/recorder_consumer.cpp:38-77 | in every interleaving the queue stays within its limit and holds, of IDR and of non-IDR entries alike, a suffix of all received |
| Recorder.IdrIsDroppedLast | modules/stream/src/recorder_consumer.cpp:40-43 | an IDR entry is dropped only from a queue of max IDR entries, as its oldest, so max - 1 newer ones stay |
| Recorder.FileIsInOrder | modules/stream/src/recorder_consumer.cpp:48-65 | the file holds whole frames in order of arrival, none twice, all older than what is queued |
| Recorder.FramesAreConserved | modules/stream/src/recorder_consumer.cpp:38-77 | received = consumed + dropped + queued + at most one in flight; every arrival number occurs exactly once among those taken, queued and dropped; the writer never pops an empty queue |
| Recorder.HistoryIsFaithful | modules/stream/src/recorder_consumer.cpp:38-63 | every step changes exactly what it is named for: a frame is received, an entry dropped from a full queue, taken, written and counted |
| Recorder.StepsArePossible | modules/stream/src/recorder_consumer.cpp:38-63 | when each step is possible, exactly; a frame waits for nothing but the mutex |
| Recorder.WriterWritesNext | modules/stream/src/recorder_consumer.cpp:48-64 | while it runs and an entry waits, the writer writes the oldest one by its own steps |
| Recorder.StopIsPrompt | modules/stream/src/recorder_consumer.cpp:48-57 | once stopped, the writer takes one more entry at most, and only if it was past its last test |
| Recorder.StoppedWriterExits | modules/stream/src/recorder_consumer.cpp:48-57 | a stopped writer that is not writing leaves its loop by its own steps and writes nothing |
| Recorder.RecorderConsumer.OnFrame | modules/stream/src/recorder_consumer.cpp:22-46 | makes room and queues one entry with every byte of every pack in its place and the IDR flag |
| Recorder.RecorderConsumer.Gather | modules/stream/src/recorder_consumer.cpp:23-36 | two passes over the packs, by length and by position, put every byte of every pack in its place |
| Recorder.RecorderConsumer.TryDropFrame | modules/stream/src/recorder_consumer.cpp:67-77 | removes the victim and counts it |
| Recorder.RecorderConsumer.WriteOne | modules/stream/src/recorder_consumer.cpp:50-63 | writes the oldest entry's bytes and counts it, or nothing after a stop |
| AccessUnits.PushUnit | modules/rtsp/src/rtsp_frame_queue.cpp:20-31 | the bound is kept, the new unit is last, the rest is a suffix of the old queue, an empty unit changes nothing |
| AccessUnits.PopNal | modules/rtsp/src/rtsp_frame_queue.cpp:33-49 | takes the first NAL of the whole queue and leaves the others; None exactly when no NAL is queued |
| AccessUnits.TraceLaw | modules/rtsp/src/rtsp_frame_queue.cpp:20-61 | over every run, each queued unit is the pushed one with at most the head trimmed, the NALs delivered are a prefix of each unit in push order, and each unit is queued, finished, cleared, or displaced by exactly the max-th unit behind it |
| AccessUnits.NothingIsLostEarly | modules/rtsp/src/rtsp_frame_queue.cpp:20-31 | without clear, a unit is delivered whole, still queued, or max later units have been pushed |
| AccessUnits.PopHandsOver | modules/rtsp/src/rtsp_frame_queue.cpp:33-49 | a pop in any run delivers the head NAL of a non-empty queue and leaves the rest |
| AccessUnits.ClearTakesTheQueued | modules/rtsp/src/rtsp_frame_queue.cpp:85-88 | clearing takes exactly the units that were queued |
| Presentation.PresentationTime | modules/rtsp/src/rtsp_stream_source.cpp:77-80 | a well-formed timeval of the same instant |
| Presentation.PresentationNeverGoesBack | modules/rtsp/src/rtsp_stream_source.cpp:77-80 | over every run of the queue presentation times are non-decreasing, equal exactly within an access unit |
| RtspDelivery.RtspFrameQueue.constructor | modules/rtsp/src/rtsp_frame_queue.cpp:5-10 | a size of 0 becomes 1 |
| RtspDelivery.RtspFrameQueue.PushAccessUnit | modules/rtsp/src/rtsp_frame_queue.cpp:20-31 | the loop that drops and appends has the effect of `PushUnit` |
| RtspDelivery.RtspFrameQueue.PushNalUnit | modules/rtsp/src/rtsp_frame_queue.cpp:14-18 | a unit of one NAL |
| RtspDelivery.RtspFrameQueue.PopNalUnit | modules/rtsp/src/rtsp_frame_queue.cpp:33-49 | the loop that skips empty units and pops has the effect of `PopNal` |
| RtspDelivery.RtspFrameQueue.UnregisterSource | modules/rtsp/src/rtsp_frame_queue.cpp:68-76 | erases the first registration of the source, if there is one |
| RtspDelivery.RtspFrameQueue.NotifyActiveSources | modules/rtsp/src/rtsp_frame_queue.cpp:78-83 | every active source is notified with the effect of once, and nothing else of it changes |
| RtspDelivery.RtspStreamSource.constructor | modules/rtsp/src/rtsp_stream_source.cpp:12-23 | a new source waits for nothing and is registered with its queue |
| RtspDelivery.RtspStreamSource.NotifyFrameAvailable | modules/rtsp/src/rtsp_stream_source.cpp:41-46 | a waiting source schedules exactly one deliver task and stops waiting |
| RtspDelivery.RtspStreamSource.DeliverFrame | modules/rtsp/src/rtsp_stream_source.cpp:48-85 | refuses, starves or serves; a served NAL fills the reader's buffer as far as it fits, truncated bytes are counted, the rest of the buffer is untouched |
| RtspDelivery.RtspStreamSource.DoGetNextFrame | modules/rtsp/src/rtsp_stream_source.cpp:31-34 | a request takes a NAL at once or leaves the source waiting |
| RtspDelivery.RtspStreamSource.RunDeliverTask | modules/rtsp/src/rtsp_stream_source.cpp:41-57 | a task whose NAL was taken by another source re-arms its own |
| RtspDelivery.RtspStreamSource.DoStopGettingFrames | modules/rtsp/src/rtsp_stream_source.cpp:36-39 | both waiting flags are cleared and no task is scheduled |
| WakeUp.NoLostWakeUp | modules/rtsp/src/rtsp_stream_source.cpp:31-59 | for any number of producers, queues and sources and every interleaving: while a reader waits and its queue has a NAL, a deliver task is scheduled, the trigger is raised or about to be, or the event loop is on its way to this source |
| WakeUp.QuietMeansServed | modules/rtsp/src/rtsp_server.cpp:181-189 | when everything has come to rest, no reader waits in front of a queued NAL |
| WakeUp.LoopNeverStuck | modules/rtsp/src/rtsp_server.cpp:247-252 | inside a callback the event loop can always take its next step |
| WakeUp.LoopComesToRest | modules/rtsp/src/rtsp_server.cpp:247-252 | from every state that keeps the invariant the event loop comes to rest by its own steps, since each brings it closer |
| WakeUp.WaitingReadersAreServed | modules/rtsp/src/rtsp_stream_source.cpp:41-59 | after any run that has left every producer outside on_frame, the event loop alone reaches a state in which every reader still waiting has an empty queue |
| WakeUpSteps.ReaderStepFlags | modules/rtsp/src/rtsp_stream_source.cpp:31-39 | a request sets both waiting flags, a stop clears both, a task that runs is used up, and no other source changes |
| WakeUpSteps.DeliveryStepFlags | modules/rtsp/src/rtsp_stream_source.cpp:48-60 | a delivery clears the reader's flag when it had a NAL, sets the source's own when it had none, and clears it when nobody waits |
| WakeUpSteps.NotifiedFlags | modules/rtsp/src/rtsp_stream_source.cpp:41-46 | a waiting source that is notified gets exactly one task in exchange for its flag |
| WakeUpSteps.OtherStepFlags | modules/rtsp/src/rtsp_stream_source.cpp:12-29 | no other step changes the flags of a source, and a new one waits for nothing |
| WakeUpSteps.LoopMovesOnlySo | modules/rtsp/src/rtsp_server.cpp:181-189 | where each step of the event loop leads, and that the trigger is raised and taken by its own two steps only |
| WakeUpSteps.ReaderStepsArePossible | modules/rtsp/src/rtsp_stream_source.cpp:31-39 | when a reader may ask or stop, a task may run and the trigger may be taken, exactly |
| WakeUpSteps.SourcesComeAndGo | modules/rtsp/src/rtsp_stream_source.cpp:12-29 | when a source may be created and closed, exactly |
| WakeUpSteps.ProducerStepsArePossible | modules/rtsp/src/rtsp_server.cpp:237-239 | a producer waits for nothing but the queue's mutex |
| WakeUpSteps.ProducerMovesOnlySo | modules/rtsp/src/rtsp_server.cpp:181-240 | a producer carries its unit to the queue only if it is not empty and somebody listens, and raises the trigger in any case |
| WakeUpSteps.NothingAfterStop | modules/rtsp/src/rtsp_stream_source.cpp:36-39 | in every interleaving, a reader that stopped is left alone until it asks again: it does not wait, no task is scheduled for it and the event loop takes no NAL for it |
| QueueTraces.EveryQueueIsATrace | modules/rtsp/src/rtsp_frame_queue.cpp:20-49 | in every interleaving of producers and event loop, what happens to one queue is a run of pushes and pops that keeps the trace law, and its readers are handed exactly what that run delivers |
| QueueTraces.RestLeavesNothingBehind | modules/rtsp/src/rtsp_stream_source.cpp:41-59 | when everything has come to rest and a reader waits, every unit ever pushed to its queue was handed out whole or had max newer units pushed behind it |
| QueueTraces.PushesAreThoseEntered | modules/rtsp/src/rtsp_server.cpp:237-240 | when one thread feeds a queue, the units pushed in any interleaving are exactly those it entered on_frame with that were not empty and that somebody listened to, in order, the newest perhaps still in its hands |
| NalPipeline.CacheEqualsHistory | modules/rtsp/src/rtsp_server.cpp:212-227 | for every run of frames of all streams, the cached VPS, SPS and PPS are the last NAL of each kind the stream has delivered, heard or not |
| NalPipeline.ReadyExactly | modules/rtsp/src/rtsp_parameter_set_cache.cpp:3-9 | a stream is ready exactly when every kind it needs has occurred |
| NalPipeline.ReadyStaysReady | modules/rtsp/src/rtsp_parameter_set_cache.cpp:3-9 | readiness never reverts, whatever frames follow |
| PrintedFrames.PackGivesItsNals | modules/rtsp/src/rtsp_server.cpp:214-220 | a pack that is any list of NALs printed behind any mix of start codes, the round trip permitting, gives exactly that list |
| PrintedFrames.FrameGivesItsNals | modules/rtsp/src/rtsp_server.cpp:209-235 | a frame of such packs becomes exactly their NALs, pack by pack in order, each classified by itself and stamped with the frame's time; so does the access unit queued for it |
| PrintedFrames.CacheTakesTheLast | modules/rtsp/src/rtsp_server.cpp:222-227 | after such a frame the stream's cache holds its last VPS, SPS and PPS, keeps the old one of a kind it does not carry, and other streams keep theirs; before any frame it is empty |
| RtspServing.RtspServer.AddStream | modules/rtsp/src/rtsp_server.cpp:113-168 | succeeds exactly for a started server, a new main or sub stream and a created session; main is served as H.265 and sub as H.264; the four maps stay in step, a failure changes none |
| RtspServing.RtspServer.RemoveStream | modules/rtsp/src/rtsp_server.cpp:170-179 | removes the type from all four maps and nothing else |
| RtspServing.RtspServer.CacheNal | modules/rtsp/src/rtsp_server.cpp:222-227 | a parameter set replaces the cached one of its kind |
| RtspServing.RtspServer.AbsorbNals | modules/rtsp/src/rtsp_server.cpp:221-234 | the loop over the NALs of one pack takes all of them into the cache and appends one queued NAL for each, in order |
| RtspServing.RtspServer.GatherNals | modules/rtsp/src/rtsp_server.cpp:209-235 | the loop over the packs of a frame leaves the cache and the access unit that all NALs of the frame together give, packs without bytes passed over |
| RtspServing.RtspServer.ProcessFrameNals | modules/rtsp/src/rtsp_server.cpp:191-240 | the stream's cache absorbs all NALs of the frame; its queue gets them as one unit exactly when a source is active; an unknown stream changes nothing |
| RtspServing.RtspServer.OnFrame | modules/rtsp/src/rtsp_server.cpp:181-189 | the same while running, and the trigger is raised even when nothing was queued; nothing when stopped |
| RtspServing.RtspServer.OnFrames | modules/rtsp/src/rtsp_server.cpp:181-240 | over any sequence of frames of all streams, the cache objects of a running server hold what `NalPipeline.CacheEqualsHistory` is about |
| RtspServing.RtspServer.HandleFrameTrigger | modules/rtsp/src/rtsp_server.cpp:247-252 | every active source of every stream is notified |
| EndToEnd.SeenInTimeOrder | modules/stream/src/stream_distributor.cpp:67-121 | a consumer sees frames in time order whatever was dropped |
| EndToEnd.PushesAreUnits | modules/rtsp/src/rtsp_server.cpp:229-239 | the units pushed are those of the frames handed to the server, in order, without the ones nobody listened to |
| EndToEnd.DeliveryFollowsTheClock | modules/stream/src/stream_frame.cpp:7-23 | from any clock, through any interleaving of the distributor's threads and of the server's, when a consumer's worker hands the frames it sees to the server: the presentation times handed to a stream's readers never go back and are equal exactly within one frame |
| EndToEnd.DeliveredNalsAreBare | docs/superpowers/specs/2026-05-03-rtsp-server-design.md:180-183 | every NAL handed to a reader, in any interleaving, is non-empty and contains no start code |
| OsalList.RingIsUnique | thirdparty/hi3516cv610_mpp/include/osal_list.h:28-30 | the pointers determine the sequence view from the head |
| OsalList.RingFrom | thirdparty/hi3516cv610_mpp/include/osal_list.h:28-30 | any node of a ring can serve as its head |
| OsalList.InitListHead | thirdparty/hi3516cv610_mpp/include/osal_list.h:39-46 | an empty ring, nothing for NULL |
| OsalList.ListAdd | thirdparty/hi3516cv610_mpp/include/osal_list.h:54-78 | the entry becomes the first; a NULL entry changes nothing |
| OsalList.ListAddTail | thirdparty/hi3516cv610_mpp/include/osal_list.h:88-91 | the entry becomes the last; a NULL entry changes nothing |
| OsalList.ListDelEntry | thirdparty/hi3516cv610_mpp/include/osal_list.h:100-122 | the ring closes behind the entry, which keeps its pointers; nothing for NULL |
| OsalList.ListDel | thirdparty/hi3516cv610_mpp/include/osal_list.h:127-135 | the same, and the entry holds the two poison addresses; nothing for NULL |
| OsalList.ListDelInit | thirdparty/hi3516cv610_mpp/include/osal_list.h:164-168 | the same, and the entry is an empty ring; also when it was alone, nothing for NULL |
| OsalList.ListReplace | thirdparty/hi3516cv610_mpp/include/osal_list.h:144-151 | the new node takes the old one's place, also when that was alone |
| OsalList.ListReplaceInit | thirdparty/hi3516cv610_mpp/include/osal_list.h:153-158 | moreover the old node is an empty ring |
| OsalList.ListMove | thirdparty/hi3516cv610_mpp/include/osal_list.h:175-179 | the entry becomes first of another ring or of its own, and both rings stay well formed; a NULL entry moves nothing |
| OsalList.ListMoveTail | thirdparty/hi3516cv610_mpp/include/osal_list.h:186-191 | likewise as last |
| OsalList.ListIsLast | thirdparty/hi3516cv610_mpp/include/osal_list.h:198-206 | whether the node is last in the sequence view |
| OsalList.ListEmpty | thirdparty/hi3516cv610_mpp/include/osal_list.h:212-219 | whether the sequence view has no entries, -1 for NULL |
| OsalList.ListEmptyCareful | thirdparty/hi3516cv610_mpp/include/osal_list.h:233-244 | the same answer from both neighbours of the head |
| OsalList.ListIsSingular | thirdparty/hi3516cv610_mpp/include/osal_list.h:264-267 | whether it has exactly one, false for NULL |
| OsalList.ListRotateLeft | thirdparty/hi3516cv610_mpp/include/osal_list.h:250-258 | the first entry becomes the last; nothing for NULL |
| OsalList.RotateAllTheWay | thirdparty/hi3516cv610_mpp/include/osal_list.h:250-258 | rotating n entries n times is the identity |
| OsalList.ListCutPosition | thirdparty/hi3516cv610_mpp/include/osal_list.h:269-306 | the entries up to the cut form one ring, the others the other; all early exits included, NULL among them |
| OsalList.ListSplice | thirdparty/hi3516cv610_mpp/include/osal_list.h:308-333 | the entries of one list, in order, in front of the other's; a NULL list has none |
| OsalList.ListSpliceTail | thirdparty/hi3516cv610_mpp/include/osal_list.h:340-346 | the entries of one list, in order, behind the other's; a NULL list has none |
| OsalList.ListSpliceInit | thirdparty/hi3516cv610_mpp/include/osal_list.h:355-362 | moreover the emptied list is an empty ring |
| OsalList.ListSpliceTailInit | thirdparty/hi3516cv610_mpp/include/osal_list.h:372-379 | moreover the emptied list is an empty ring |
| OsalList.CutAndSpliceBack | thirdparty/hi3516cv610_mpp/include/osal_list.h:295-362 | cutting at any node into an empty list and splicing back restores both lists |
| IniHash.CommonEndKeepsCollisions | thirdparty/hi3516cv610_mpp/include/ini_parser.h:202-225 | every mixing step can be undone: two keys followed by the same bytes collide if and only if the keys themselves do |
| IniHash.OneByteChangesTheHash | thirdparty/hi3516cv610_mpp/include/ini_parser.h:202-225 | two keys that differ in a single byte never have the same hash |
| IniHash.KnownHashes | thirdparty/hi3516cv610_mpp/include/ini_parser.h:202-225 | two known values fix the constants of the hash |
| IniDictionaries.SearchIsExact | thirdparty/hi3516cv610_mpp/include/ini_parser.h:242-251 | comparing hashes first misses nothing and finds only the key |
| IniDictionaries.OverwriteRefines | thirdparty/hi3516cv610_mpp/include/ini_parser.h:268-277 | writing a value in place changes the map at that key alone |
| IniDictionaries.AppendRefines | thirdparty/hi3516cv610_mpp/include/ini_parser.h:347-363 | filling the slot behind the last adds exactly one entry to the map |
| IniDictionaries.GrowthRefines | thirdparty/hi3516cv610_mpp/include/ini_parser.h:313-328 | doubling preserves all entries |
| IniDictionaries.IniDictionary.GetVal | thirdparty/hi3516cv610_mpp/include/ini_parser.h:234-253 | the value of the map, or the default when the key is absent or NULL |
| IniDictionaries.IniDictionary.ModifyVal | thirdparty/hi3516cv610_mpp/include/ini_parser.h:256-280 | replaces the value of a key stored under the given hash, fails without change otherwise, also for a null key or value |
| IniDictionaries.IniDictionary.ExpandSpace | thirdparty/hi3516cv610_mpp/include/ini_parser.h:283-330 | twice the size, fresh arrays, the same map; nothing changes when an allocation fails |
| IniDictionaries.IniDictionary.FindFree | thirdparty/hi3516cv610_mpp/include/ini_parser.h:348-353 | the probe ends at a free slot whenever there is one, wherever it starts |
| IniDictionaries.IniDictionary.AddVal | thirdparty/hi3516cv610_mpp/include/ini_parser.h:333-365 | adds a new key, growing exactly when full; fails without change for a null argument or when it cannot grow |
| IniDictionaries.IniDictionary.SetVal | thirdparty/hi3516cv610_mpp/include/ini_parser.h:374-399 | for any hash function, the map is updated at the key alone; a null value is a successful no-op, a null key fails, and so does a new key in a full dictionary that cannot grow |
| IniFiles.ProcessFile | thirdparty/hi3516cv610_mpp/include/ini_parser.h:561-612 | the dictionary holds what the lines read so far store; it is discarded exactly when one of them is erroneous; all lines are read unless an allocation fails, which only a line with a new key can suffer |
| IniFiles.GetNumOfKeys | thirdparty/hi3516cv610_mpp/include/ini_parser.h:623-652 | counts the distinct keys under the section's prefix, but only when the section's name, cut off at 8192 bytes, is itself a key; 0 for NULL |
| IniFiles.CountPrefix | thirdparty/hi3516cv610_mpp/include/ini_parser.h:643-651 | the loop over the slots counts each matching key once |
| IniFiles.StoredExactly | thirdparty/hi3516cv610_mpp/include/ini_parser.h:489-515 | what is stored for a file are exactly the section:key entries of its lines |
| IniFiles.LastLineWins | thirdparty/hi3516cv610_mpp/include/ini_parser.h:489-515 | the value stored for a key is that of the last line that gives it one |
| IniFiles.LowerIsExact | thirdparty/hi3516cv610_mpp/include/ini_parser.h:637-640 | two names become the same exactly when they differ at most in the case of ASCII letters |
| IniFiles.CaseDoesNotMatter | thirdparty/hi3516cv610_mpp/include/ini_parser.h:633-651 | such names get the same count |
| IniFiles.CountIsRightExactly | thirdparty/hi3516cv610_mpp/include/ini_parser.h:618-652 | for every file and name, the number reported is the number of keys that the file's lines give to the section if and only if: the name is itself a stored entry and no other section's entry falls under its prefix, or it is not stored and the section has no keys; `Reported` has no counterpart for a name of more than 8192 bytes whose cut-off form is stored |
| IniFiles.PlainSectionsCountAsEmpty | thirdparty/hi3516cv610_mpp/include/ini_parser.h:496-498 | for every file a section without a colon in its name is reported to have no keys, which is right only if it has none |
| IniFiles.OneKeyCountedAsNone | thirdparty/hi3516cv610_mpp/include/ini_parser.h:633-635 | a file with one key in a section whose count is 0 |
| IniFiles.NoKeyCountedAsOne | thirdparty/hi3516cv610_mpp/include/ini_parser.h:643-651 | a file without a section a:b in which the count for a:b is 1, because section a has a key b and a key b:c |

## Left out

- live555 itself, RTP sinks, SDP text, base64, the client limit and the waiting loop of the media subsession: network and library plumbing.
- Thread creation, priorities and names, logging, and the file system: a write appends to a sequence.
- The destructors of the distributor, the recorder and the server: they stop and join like a removal. That a join always returns is not claimed; the running flags are stored without the condition variable's mutex.
- The MPP fetcher and the video pipeline: calls into a vendor library that is not part of this model.
- Wrap-around of 32-bit consumer ids and of 64-bit timestamps and counters: mathematical integers are used. The splitter's 32-bit offsets never exceed the buffer length.
- `strdup` and `memcpy_s` failures, and the text level of INI parsing (`process_line`, line continuation): foreign calls. `ini_get_keys_from_sec` lists the keys that `ini_get_num_of_keys` counts; `ini_get_string` looks a name up in lower case, and `ini_get_bool`, `ini_get_long_int`, `ini_get_int` and `ini_get_double` convert what it finds by its first letter or by the C library.
- `list.h`, which repeats `osal_list.h`, and the remaining vendored headers: declarations without behaviour.
- Distributor.NoCallbackAfterRemoval: says nothing about a second, concurrent removal of the same id, which the code ignores because the slot has already been erased.
- WakeUp.NoLostWakeUp: live555's own state is abstracted to the reader's waiting flag, the number of scheduled deliver tasks and one trigger bit; changing the set of streams while frames flow is not modelled.
- RtspDelivery.RtspStreamSource.DeliverFrame: the reader's callback after a delivery, which may ask for the next frame at once, is a separate step.
- StreamDistribution.StreamDistributor.Push: one push without interference; interleavings are the subject of the step system.
- OsalList.ListCutPosition: for a node that is not on a list of two or more entries the code corrupts both lists; such a call is excluded.
- OsalList.ListAdd: the head itself must not be NULL, since the code reads its pointers first; the same for every other operation that takes a head without a check.
- StreamDistribution.StreamDistributor.RemoveConsumer: the join between stopping and clearing is a step of `Distributor`, where `Distributor.NoCallbackAfterRemoval` is about it.
- IniDictionaries.IniDictionary.ExpandSpace: a failing `memcpy_s`, which the code does not handle, has no counterpart.
- IniDictionaries.IniDictionary.AddVal: takes a key that is not stored yet together with its own hash, as its only caller passes them.
- IniFiles.ProcessFile: the bytes of a line are classified outside the model.
- IniFiles.GetNumOfKeys: a name of more than 8192 bytes whose cut-off form is stored is excluded.
