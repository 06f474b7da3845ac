# Verification of the VoxLink link layer and the analysis pipeline

These Dafny files model the parts of the firmware and its scripts whose correctness is not
visible from one function body, and prove what holds of them for all inputs, all runs or
all interleavings. `dafny verify dfyconfig.toml` checks everything.

## What is modelled

**VoxLink v1.** `Crc16` is the codec's CRC with its register kept as bits; `CrcTrailer` is the
pair of CRC bytes on the wire and the exact list of short bursts it lets through; `CrcParity`
shows that odd damage never gets through, `CrcOrder` that x has order 32767 modulo the
generator, `CrcDistance` and `FrameDistance` that three or fewer damaged bits never get through
at VoxLink's sizes. `VoxLinkCodec` encodes and decodes frames; `GoldenVectors` evaluates the
protocol's vectors.
`VoxLinkStream` gives reception as a function of the bytes received, `VoxLinkParser` is the
parser class proved against it, `VoxLinkReception` adds counters and queue, `VoxLinkCounters`
says what the counters count, `VoxLinkResync` is a stream that is never received, `VoxLinkJoin` the condition under which a receiver that
joins late receives the rest. `VoxLinkTransmit` and `VoxLinkSession` are the
transmit ring as a function and as a class; `RingIndices` is the index arithmetic both
rings share.

**Pipeline tasks.** `PipelineTasks` is a transition system with a coordinator, any number of
audio tasks and any number of pitch workers; one step is one access to shared state.
`PipelineProgress` is what a stop can count on: the worker's way out and which waits can end.
`MeasurementPause` is the pause handshake and `WorkerCounters` the worker's counters, over all
its runs. `WorkerReport` is the report made from the call records.

**Pitch-mark search.** `PitchMark` says what the normalised cross-correlation search computes,
over exact reals and any square root, `PitchMarkMatch` which windows it takes for a perfect
match; `PitchMarkNcc` has its eight variants, each proved to compute it. `BitMask` and `Arithmetic` carry the mask and division facts.

**Measurement code and scripts.** `RcVerdict`, `OrderStatistics`, `SampleWindows`,
`Segmentation`, `Microdropouts`, `GrainCoverage` and `SplitRaw`.

## Where the code and its documentation differ

- docs/voxlink_v1.md:448-449 says a parser recovers automatically. A parser that joins inside a
  frame can reject a sound stream for ever (`NeverRecovers`). If the frames' bytes show the start
  mark only at their fronts, it receives every frame that starts 519 or more bytes on
  (`JoinRecovers`), and 519 is the least such number (`JoinBoundIsLeast`).
  Certain reception needs a parser holding at most one byte (`ReceivesAllIffAtBoundary`);
  521 bytes without a start mark always restore that, 520 do not.
- voxlink_parser.h:10-11 says the queue never overflows because the server drains at once.
  Frames are dropped whenever one chunk completes more than seven; 70 bytes are always safe,
  71 are not, and the UART task reads up to 256 (voxlink_uart.cpp:65-71).
- The counter framing_errors (docs/voxlink_v1.md:450) is never incremented, and tx_bytes_dropped
  counts refused frames.
- The CRC's bytes travel low byte first, so a burst of at most 16 bits that straddles body
  and CRC is not always detected: twelve patterns escape, no others.
- A telemetry_high_water of 8192 or more overruns the transmit ring; the session accepts it.
- A stop that timed out refuses to tear the driver down (i2s_bringup.cpp:545-549), but callers
  that stop without deinit ignore that answer and deinitialise the driver themselves:
  b4c6a_audit.inc:166-168, b4c7_audit.inc:245-247, b4c8_audit.inc:417-444,
  b4d1_audit.inc:382-1009 and b4d12_audit.inc:303-711. b4c1_audit.inc:633-640 and
  b4c2_audit.inc:802-809 do the same by hand: they ask the tasks to stop, clear the pause flag,
  wait, and deinitialise without looking at the wait's result. Both are the model's
  `LateDeinit` after `GiveUp`, and unsafe (`DeinitAfterTimeoutIsUnsafe`). A caller that then runs
  its next case finds the controller free and starts a second set of tasks beside the first
  (`RestartDoublesWorkers`).
- Other callers go on and start again after a stop that timed out, as the release-candidate
  matrix does (i2s_bringup.cpp:6085-6094). What follows depends on whether init gets channels on
  a controller whose channels are still allocated (audio_i2s.cpp:265-268). If it does, the
  driver can go down under the old task (`RestartIsUnsafe`) and two workers can run at once. If it
  is refused, nothing is torn down and every start fails until a later stop succeeds
  (`NoStartAfterTimeout`). Stopping again, as i2s_bringup.cpp:1311 does after 1114, releases the
  driver once the tasks have signalled (`StoppingAgainReleases`). If they signal before the refused
  start, that start clears their bits (i2s_bringup.cpp:432), and no stop can release the driver
  any more (`RefusedStartAbandons`).
- A stop where no start succeeded waits for bits that nobody sets (`StopOfNothingWaitsInVain`);
  after a start that returned true it can always be confirmed (`StopOfStartedCanConfirm`).
- The worker marks its call only after reading the pause flag, so the coordinator can see
  in-call clear while a call is about to begin (i2s_bringup.cpp:270-287, 5447-5451).
- pitch_mark_ncc.h:11-13 gives the analysis' linear window 1024 samples; it has 768
  (yin_detector.h:86). The local copies of a wrapping search suffice up to a period of 1025
  samples, and periods up to 5461 pass the analysis' own test (`NextMarkFitsIff`).
- Both percentile functions return the greatest value at 0 percent.
- The dropout scanner does not report a dip that reaches the last frame; the other two
  extractors report such a run.
- The drop simulation looks a burst up by block number and may use another burst's count.

## Model

| member | source | states |
|---|---|---|
| `Crc16.Crc16Update` | components/voxlink/src/voxlink_crc.cpp:5-18 | the two nested loops compute the byte-wise CRC function of any data from any start register |
| `Crc16.UpdateConcat` | components/voxlink/src/voxlink_crc.cpp:5-18 | feeding data in two pieces is feeding it whole, as the parser does with header and payload |
| `Crc16.UpdateIsBitSerial` | components/voxlink/src/voxlink_crc.cpp:8-15 | the byte-wise update is the bit-serial register fed most significant bit first |
| `Crc16.ChecksumDetectsBurst` | integration/voxlink_v1_vectors.h:6-7 | for messages of any length, two equal-length messages that differ, all inside some stretch of 16 bits, have different CRCs |
| `CrcTrailer.AcceptsOnlyTrailer` | components/voxlink/src/voxlink_codec.cpp:217-221 | the one pair of CRC bytes a receiver accepts after a body is the pair the sender appends |
| `CrcTrailer.BurstVerdict` | components/voxlink/src/voxlink_codec.cpp:217-221 | a burst of at most 16 bits over checked bytes and CRC bytes together is accepted if and only if it is one of twelve patterns straddling the last two checked bytes and the CRC; low byte first transmission makes them possible |
| `CrcParity.OddDamageRejected` | components/voxlink/src/voxlink_codec.cpp:217-221 | damage to any odd number of bits of body and CRC, wherever they lie, is rejected, for bodies of any length |
| `CrcParity.FramesEvenlyApart` | docs/voxlink_v1.md:49-57 | two frames of the same wire length differ in an even number of bits |
| `CrcParity.OddDamagedFrame` | components/voxlink/src/voxlink_codec.cpp:192-233 | damage to any odd number of a frame's bits never decodes as a frame of its size |
| `CrcOrder.PeriodIff` | components/voxlink/src/voxlink_crc.cpp:8-15 | shifting a one through the register brings it back after n shifts if and only if n is a multiple of 32767: the order of x modulo the generator, by squaring and the divisors of 32767 |
| `CrcDistance.DamageAccepted` | components/voxlink/src/voxlink_codec.cpp:217-221 | damage to an accepted body and CRC is accepted if and only if the damage alone, fed into an empty register, leaves it empty |
| `CrcDistance.TwoBitsCancelIff` | components/voxlink/src/voxlink_crc.cpp:5-18 | two damaged bits cancel in the register if and only if they lie a multiple of 32767 bits apart |
| `CrcDistance.SmallDamageRejected` | components/voxlink/src/voxlink_codec.cpp:217-221 | damage to any one, two or three bits of a body of up to 4093 bytes and its CRC, wherever they lie, is rejected |
| `FrameDistance.NoticesSmallDamageIff` | components/voxlink/src/voxlink_codec.cpp:217-221 | one, two or three damaged bits are rejected in every body of n bytes if and only if n is at most 4093; frame bodies have at most 518 |
| `FrameDistance.FramesFourApart` | docs/voxlink_v1.md:49-57 | two different frames of the same wire length differ in at least four bits |
| `FrameDistance.FourBitsPass` | components/voxlink/src/voxlink_codec.cpp:217-221 | every frame with a payload has another frame of its size exactly four bits away, so four is the distance |
| `FrameDistance.SmallDamagedFrame` | components/voxlink/src/voxlink_codec.cpp:192-233 | a frame with one, two or three damaged bits, start marks and length included, never decodes as a frame of its size |
| `VoxLinkCodec.EncodeFrame` | components/voxlink/src/voxlink_codec.cpp:165-187 | writes exactly the frame's bytes when payload and room allow, and otherwise nothing; bytes past the frame keep their values |
| `VoxLinkCodec.DecodeFrameBytes` | components/voxlink/src/voxlink_codec.cpp:192-233 | decoding an encoded frame, whatever follows it, returns the frame and its size |
| `VoxLinkCodec.FrameBytesDecode` | components/voxlink/src/voxlink_codec.cpp:192-233 | whatever decodes is a frame this version can carry, and encoding it gives back the bytes consumed |
| `VoxLinkCodec.DecodesIffStartsWithFrame` | components/voxlink/src/voxlink_codec.cpp:192-233 | data decode if and only if they begin with the bytes of a well-formed frame |
| `VoxLinkCodec.PrefixFree` | docs/voxlink_v1.md:21-38 | no frame's bytes begin another frame's bytes |
| `VoxLinkCodec.DecodeAllStream` | components/voxlink/include/voxlink_codec.h:37-40 | decoding back-to-back frames one after the other returns exactly the frames sent, with nothing left over |
| `VoxLinkCodec.DamagedFrameVerdict` | components/voxlink/src/voxlink_codec.cpp:192-233 | a frame damaged by a burst of at most 16 bits that spares length and major version is delivered if and only if the burst is a boundary pattern, and is BadCrc otherwise |
| `GoldenVectors.CheckValue` | integration/voxlink_v1_vectors.h:7-11 | the CRC of 123456789 is 0x29B1 |
| `GoldenVectors.HeartbeatVector` | integration/voxlink_v1_vectors.h:34-36 | the heartbeat vector decodes to its fields |
| `GoldenVectors.HelloVectors` | integration/voxlink_v1_vectors.h:14-41 | the HELLO vector decodes to its fields and the one with a corrupted last CRC byte is BadCrc |
| `GoldenVectors.HelloUndetectedDamage` | integration/voxlink_v1_vectors.h:14-17 | HELLO with its last payload byte and first CRC byte damaged is still delivered: a concrete boundary pattern |
| `VoxLinkStream.RunConcat` | components/voxlink/include/voxlink_parser.h:47-60 | cutting the input into chunks anywhere changes neither what is reported nor what is held |
| `VoxLinkStream.StreamingIsScanning` | components/voxlink/include/voxlink_parser.h:119-176 | for every byte string, the byte-driven parser delivers exactly the frames found by decoding the whole and skipping rejected headers, damaged frames and false marks |
| `VoxLinkStream.DeliveryTakesBytes` | components/voxlink/include/voxlink_parser.h:119-176 | frames delivered and bytes held never exceed the bytes received, at ten bytes a frame |
| `VoxLinkStream.ReceivesFromBoundary` | docs/voxlink_v1.md:445-449 | from the hunting state, or just past a lone start mark, every list of frames sent is received exactly |
| `VoxLinkStream.ReceivesAllIffAtBoundary` | docs/voxlink_v1.md:445-449 | a parser is certain to receive everything sent from now on if and only if it holds at most one byte; any other can lose the very next frame |
| `VoxLinkStream.GapRecovers` | docs/voxlink_v1.md:448-449 | 521 bytes without a start mark bring any parser back to hunting, and all that follows is received |
| `VoxLinkStream.ShorterGapMayNotRecover` | docs/voxlink_v1.md:448-449 | 520 such bytes are not enough |
| `VoxLinkResync.NeverRecovers` | components/voxlink/include/voxlink_parser.h:87-94 | a concrete sound frame, sent any number of times, is never received by a parser that joins eight bytes late |
| `VoxLinkJoin.JoinRecovers` | docs/voxlink_v1.md:445-449 | if the start mark occurs in each frame's bytes only at its front, a receiver in any state receives all back-to-back frames, once and in order, but a front whose last frame starts less than 519 bytes on; before them it delivers at most the one frame its candidate turns out to be |
| `VoxLinkJoin.JoinBoundIsLeast` | components/voxlink/include/voxlink_parser.h:119-176 | a receiver and two such frames of which the second, starting 518 bytes on, is not received |
| `VoxLinkReception.FeedTwice` | components/voxlink/include/voxlink_parser.h:47-60 | two queued feeds with nothing popped between are one feed of both, counters included |
| `VoxLinkReception.ReceivesRun` | components/voxlink/include/voxlink_parser.h:77-85 | a feed queues the first frames completed while slots last and counts each later one as dropped |
| `VoxLinkReception.FeedBalances` | components/voxlink/include/voxlink_parser.h:19-29 | every valid frame is queued or dropped, those of undefined type are counted; every resynchronisation is a CRC, version or length error and the reverse; framing errors are never counted |
| `VoxLinkCounters.CountersAreRejections` | components/voxlink/include/voxlink_parser.h:19-29 | whatever bytes a hunting parser is fed, the rises of crc_errors, length_errors and unsupported_version are the numbers of rejections of that kind met by decoding the whole and skipping what is rejected, those of frames_valid and unknown_type the numbers of frames found and of those with an unlisted type, and every rejection is one resynchronisation |
| `VoxLinkCounters.KnownTypeIffDefined` | docs/voxlink_v1.md:78-90 | a message type is known if and only if the protocol lists it |
| `VoxLinkCounters.HelloBadCrcCounted` | integration/voxlink_v1_vectors.h:39-41 | HELLO with a corrupted CRC, fed to a new parser, leaves one CRC error, one resynchronisation, 13 bytes and no frame |
| `VoxLinkReception.DropsIffOverfull` | components/voxlink/include/voxlink_parser.h:77-85 | frames are dropped if and only if the queue plus the frames one feed completes exceed seven |
| `VoxLinkReception.FramesPerBytes` | components/voxlink/include/voxlink_parser.h:119-176 | n bytes complete at most (n+9)/10 frames, from any state |
| `VoxLinkReception.SeventyBytesFit` | components/voxlink/include/voxlink_parser.h:10-11 | an empty queue survives any chunk of up to 70 bytes |
| `VoxLinkReception.SeventyOneMayDrop` | components/voxlink/include/voxlink_parser.h:10-11 | 71 bytes can lose a frame, so the queue of a server that drains at once can overflow |
| `VoxLinkReception.BurstKeepsSeven` | components/voxlink/include/voxlink_parser.h:57-60 | of frames that arrive in one chunk exactly the first seven are kept |
| `VoxLinkParser.Parser.constructor` | components/voxlink/include/voxlink_parser.h:178-189 | a new parser holds nothing, queues nothing and has zero counters |
| `VoxLinkParser.Parser.Reset` | components/voxlink/include/voxlink_parser.h:35-45 | reset restores that state |
| `VoxLinkParser.Parser.BeginResync` | components/voxlink/include/voxlink_parser.h:87-94 | drops the candidate and counts one resynchronisation |
| `VoxLinkParser.Parser.HeaderByte` | components/voxlink/include/voxlink_parser.h:133-162 | a header byte advances the buffers as the reception function says, with both rejections counted |
| `VoxLinkParser.Parser.EndHeader` | components/voxlink/include/voxlink_parser.h:137-162 | a bad version or an excessive length drops the candidate and counts it; otherwise payload or CRC follows |
| `VoxLinkParser.Parser.PayloadByte` | components/voxlink/include/voxlink_parser.h:163-169 | a payload byte only extends the candidate |
| `VoxLinkParser.Parser.CompleteFrame` | components/voxlink/include/voxlink_parser.h:96-117 | delivers the assembled frame if the CRC bytes match and resynchronises otherwise, counting what happened |
| `VoxLinkParser.Parser.HandleByte` | components/voxlink/include/voxlink_parser.h:119-176 | held bytes, emitted frame and counters after any byte in any state are those of the reception function |
| `VoxLinkParser.Parser.EnqueueParsed` | components/voxlink/include/voxlink_parser.h:77-85 | appends to the ring queue, or counts a drop when seven frames wait |
| `VoxLinkParser.Parser.Feed` | components/voxlink/include/voxlink_parser.h:57-60 | a queued feed takes the observable state to the one the reception function gives for the whole chunk |
| `VoxLinkParser.Parser.FeedEach` | components/voxlink/include/voxlink_parser.h:47-55 | a callback feed emits exactly the frames of the chunk, in order, and leaves the queue alone |
| `VoxLinkParser.Parser.Pop` | components/voxlink/include/voxlink_parser.h:64-70 | removes and returns the oldest queued frame, or says the queue is empty |
| `VoxLinkSession.Session.constructor` | components/voxlink/src/voxlink_session.cpp:45-61 | an empty ring, zero counters, and the configured high water mark or three quarters of the capacity |
| `VoxLinkSession.Session.TxUsed` | components/voxlink/src/voxlink_session.cpp:63-65 | the used count is the number of pending bytes |
| `VoxLinkSession.Session.TakeTx` | components/voxlink/src/voxlink_session.cpp:67-77 | moves the oldest pending bytes, as many as asked for or available, to the caller's buffer and nowhere else |
| `VoxLinkSession.Session.Enqueue` | components/voxlink/src/voxlink_session.cpp:79-103 | accepts, refuses and counts exactly as the transmit function says, writing the whole encoded frame |
| `VoxLinkTransmit.SentIsReceived` | components/voxlink/src/voxlink_session.cpp:67-103 | for every high water mark below the ring's capacity and every run of requests, a receiver fed with the bytes taken has received a prefix of the accepted frames, and all of them once the ring is empty |
| `VoxLinkTransmit.LosslessIffBelowCapacity` | components/voxlink/src/voxlink_session.cpp:58-60 | accepted frames stay whole in every run if and only if the high water mark is below the ring's capacity, which the session does not check |
| `VoxLinkTransmit.RefusedIff` | components/voxlink/src/voxlink_session.cpp:79-103 | a critical message is refused if and only if it would fill the ring past 8191 bytes, telemetry if and only if past the high water mark; a refusal moves the counter of its kind and nothing else of the ring, an acceptance appends the frame's bytes |
| `VoxLinkTransmit.RequestsAccounted` | components/voxlink/src/voxlink_session.cpp:88-101 | over every run, the critical messages that can be framed are those accepted plus the rise of protocol_response_dropped, the others those accepted plus the rise of telemetry_dropped; tx_bytes_dropped counts refusals, not bytes |
| `VoxLinkTransmit.ResponsesNotCrowdedOut` | docs/voxlink_v1.md:407-415 | while the responses of a run fit above the high water mark, all of them are accepted, in order, whatever telemetry is sent |
| `PipelineTasks.TeardownSafeIff` | main/i2s_bringup.cpp:429-568 | in every interleaving, stops called again included, the driver is torn down only after every task has left its loop, if and only if no deinit follows a timed-out stop, no pitch task creation fails, and no start after a timed-out stop gets the occupied controller |
| `PipelineTasks.LifecycleAlways` | main/i2s_bringup.cpp:429-568 | the start and stop protocol's invariant holds in every reachable state of those configurations |
| `PipelineTasks.StoppedBitsAreCurrent` | main/i2s_bringup.cpp:432-549 | in those configurations no stale event bit satisfies the wait of any stop, first or repeated, and after one that gives up the driver is up unless no task is left |
| `PipelineTasks.DeinitAfterTimeoutIsUnsafe` | main/b4c6a_audit.inc:166-168 | a schedule in which a caller that ignores stop's false result deinitialises the driver under a running audio task |
| `PipelineTasks.RestartIsUnsafe` | main/i2s_bringup.cpp:527-568 | if init can succeed on an occupied controller: a schedule in which a start after a timed-out stop ends with a task running on a torn-down driver |
| `PipelineTasks.NoStartAfterTimeout` | components/vocal_fx/platform/audio_i2s.cpp:265-268 | if it cannot, and no caller deinitialises after a timed-out stop: once a stop has timed out, the driver stays up and no start succeeds, until a later stop does |
| `PipelineProgress.RefusedStartAbandons` | main/i2s_bringup.cpp:429-443 | in those configurations: a schedule in which a refused start clears the bits of tasks that had signalled, after which no stop is ever confirmed, no start succeeds and the driver is never released, whatever follows |
| `PipelineProgress.WorkerEnds` | main/i2s_bringup.cpp:268-356 | in every state with the run flag clear, eleven of a worker's own steps, whatever comes between, the pause flag included, take it to its end with its bit set, unless a start clears that again |
| `PipelineProgress.AtMostOneMoreCall` | main/i2s_bringup.cpp:269-287 | with the run flag clear, and until it is set again, each worker begins at most one more call, and none unless it had already found the flag set |
| `PipelineProgress.ConfirmedIffBitsCome` | main/i2s_bringup.cpp:534-549 | in every configuration and every reachable wait of a stop, some schedule confirms it, workers included, if and only if each bit is set or has a task left to set it |
| `PipelineProgress.StopOfStartedCanConfirm` | main/i2s_bringup.cpp:525-534 | that is so for every wait of every stop between a start that returned true and the next start |
| `PipelineProgress.StopOfNothingWaitsInVain` | main/i2s_bringup.cpp:527-549 | a stop where nothing was started cannot be confirmed |
| `PipelineProgress.DriverAlwaysFollows` | main/i2s_bringup.cpp:429-568 | in every configuration and every reachable state the driver is down while the coordinator is idle, up with the audio run flag set while a start is under way or done, and never down with that flag set |
| `PipelineProgress.UninterruptedStart` | main/i2s_bringup.cpp:429-525 | for each of the six courses of a start that nothing interrupts, the whole state it leaves: run flags, bits, driver, counters and the tasks it has added |
| `PipelineProgress.UninterruptedStop` | main/i2s_bringup.cpp:527-568 | a stop of finished tasks clears both run flags, takes the driver down if and only if asked to, and changes nothing else |
| `PipelineTasks.StoppingAgainReleases` | main/i2s_bringup.cpp:1311-1311 | a schedule in which a second stop, called after the tasks of a timed-out one have signalled, takes the driver down safely and the next start succeeds |
| `PipelineTasks.FailedCreationIsUnsafe` | main/i2s_bringup.cpp:509-518 | a schedule in which a failed pitch task creation tears the driver down under a running audio task |
| `MeasurementPause.PauseBoundsCallsIff` | main/i2s_bringup.cpp:269-289 | in every interleaving at most one call begins while the pause flag is set, and none once a worker has read it as set, if and only if no start can succeed after a timed-out stop |
| `MeasurementPause.PausedWorkerCalls` | main/i2s_bringup.cpp:269-287 | in every configuration, while the pause flag stays set each worker begins at most one more call, and none unless it had already read the flag as clear |
| `MeasurementPause.InCallIff` | main/i2s_bringup.cpp:283-287 | in the same configurations as above, in-call is set if and only if the worker is between its two writes of it, call included |
| `MeasurementPause.InCallClears` | main/i2s_bringup.cpp:5447-5451 | and while the pause lasts, seven steps of the worker's own, whatever comes between, suffice for in-call to read clear |
| `MeasurementPause.ClearingResumes` | main/i2s_bringup.cpp:269-287 | clearing the flag lets a running worker begin its next call |
| `MeasurementPause.RestartDoublesWorkers` | main/i2s_bringup.cpp:268-289 | where one can: a schedule in which two workers begin a call each after the flag was set |
| `MeasurementPause.QuietIffNonePastCheck` | main/i2s_bringup.cpp:5447-5467 | in the same configurations, waiting for in-call to read clear leaves the worker quiet for the whole window if and only if no worker was between reading the pause flag and marking its call |
| `MeasurementPause.QuietCanFail` | main/i2s_bringup.cpp:5483-5487 | in every configuration, a reachable schedule in which the coordinator sees in-call clear and a call then runs inside the pause |
| `WorkerCounters.CountersDescribeCalls` | main/i2s_bringup.cpp:274-347 | in every interleaving without a start after a timed-out stop, at each loop boundary the counters are the number, sum, classes and maximum of the calls since the last start; stored records and drops add up to the index |
| `WorkerCounters.RecordsAreFirstCalls` | main/i2s_bringup.cpp:288-303 | in every interleaving and every configuration, between two resets, the index counts the recorded calls, the records are the hop counts of those that found room among the 512, in order and as one byte, and the drops count the rest |
| `WorkerCounters.RecordsSinceReset` | main/i2s_bringup.cpp:3448-3449 | after a reset they are those of the calls recorded since |
| `WorkerReport.Report` | main/i2s_bringup.cpp:3571-3596 | the report loop returns the sums, sequences, maxima and classes of exactly the records inside the window |
| `WorkerReport.SelectedPicks` | main/i2s_bringup.cpp:3571-3574 | the records it is about are those at a strictly increasing list of exactly the positions whose start lies in the window |
| `WorkerReport.SummaryMeans` | main/i2s_bringup.cpp:3575-3596 | in terms of the records' own fields: every duration, their sum and maximum, the cycles, the hops with more than four counted as four, calls and time per class, and the cost per hop of exactly the calls that completed any |
| `WorkerReport.ReportConserves` | main/i2s_bringup.cpp:3575-3596 | class counts add up to the calls, class times to the total time, weighted counts to the hops, and hop costs to the calls with any hop |
| `BitMask.PowerOfTwoTest` | components/vocal_fx/pitch/pitch_mark_ncc.cpp:365-365 | n and n-1 have no bit in common if and only if n is a power of two |
| `PitchMark.RingWraps` | components/vocal_fx/pitch/pitch_mark_ncc.cpp:7-9 | masking a position with the ring size minus one wraps it modulo the size |
| `PitchMark.CauchySchwarz` | components/vocal_fx/pitch/pitch_mark_ncc.cpp:426-432 | the square of the correlation is at most the product of the two energies, for every ring, start and window |
| `PitchMark.ScoreBound` | components/vocal_fx/pitch/pitch_mark_ncc.cpp:11-13 | every valid candidate's score lies between -1 and 1, clamp included |
| `PitchMark.BestIsFirstMaximum` | components/vocal_fx/pitch/pitch_mark_ncc.cpp:413-481 | offsets and pairs count the valid candidates, and the winner is the first with the highest score |
| `PitchMark.SearchResult` | components/vocal_fx/pitch/pitch_mark_ncc.cpp:359-483 | the initial -2 is reported if and only if no candidate has a full window before it; otherwise the winner is the smallest offset with the highest score, between -1 and 1 |
| `PitchMarkMatch.ScoreIs` | components/vocal_fx/pitch/pitch_mark_ncc.cpp:11-13 | a score has the sign of the correlation, and its square times the clamped product of the energies is the square of the correlation, whatever square root is used |
| `PitchMarkMatch.SkippedIffMinusTwo` | components/vocal_fx/pitch/pitch_mark_ncc.cpp:417-421 | a candidate is reported as -2 if and only if it has no full window before it |
| `PitchMarkMatch.PerfectScoreIff` | components/vocal_fx/pitch/pitch_mark_ncc.cpp:413-474 | a candidate scores 1 if and only if its samples are a positive multiple of those of the reference window and the product of the energies reaches the floor, and -1 if and only if a negative one: equality in the Cauchy-Schwarz inequality |
| `PitchMarkMatch.SearchFindsMatch` | components/vocal_fx/pitch/pitch_mark_ncc.cpp:359-483 | the search reports 1 if and only if some candidate is such a multiple, and then at the first that is |
| `PitchMarkMatch.RepeatMatches` | components/vocal_fx/pitch/pitch_mark_ncc.cpp:413-474 | a candidate that repeats a reference window with energy is one |
| `PitchMarkNcc.DotFma4` | components/vocal_fx/pitch/pitch_mark_ncc.cpp:23-42 | four accumulators add up to the correlation |
| `PitchMarkNcc.DotFma8` | components/vocal_fx/pitch/pitch_mark_ncc.cpp:44-72 | eight accumulators add up to the correlation |
| `PitchMarkNcc.SlideEnergy` | components/vocal_fx/pitch/pitch_mark_ncc.cpp:457-462 | one square leaving and one entering give the next window's energy |
| `PitchMarkNcc.SlidingEnergy` | components/vocal_fx/pitch/pitch_mark_ncc.cpp:457-472 | the energy carried from candidate to candidate is always that of the current window |
| `PitchMarkNcc.FillScratch` | components/vocal_fx/pitch/pitch_mark_ncc.cpp:392-399 | the scratch copies hold exactly the ring samples of the first window and of all second windows |
| `PitchMarkNcc.CopiedProducts` | components/vocal_fx/pitch/pitch_mark_ncc.cpp:433-440 | products read from the copies are those of the ring, with every index inside the copies |
| `PitchMarkNcc.ContiguousRegion` | components/vocal_fx/pitch/pitch_mark_ncc.cpp:90-102 | a region that does not pass the end of the ring is a copy of itself |
| `PitchMarkNcc.Block4` | components/vocal_fx/pitch/pitch_mark_ncc.cpp:244-293 | four candidates sharing registers get their own correlation and energy |
| `PitchMarkNcc.Block8` | components/vocal_fx/pitch/pitch_mark_ncc.cpp:128-208 | eight candidates sharing registers get their own correlation and energy |
| `PitchMarkNcc.ScalarSearch` | components/vocal_fx/pitch/pitch_mark_ncc.cpp:380-482 | the six forms that take one candidate at a time return the same result and scores |
| `PitchMarkNcc.ContiguousSearch` | components/vocal_fx/pitch/pitch_mark_ncc.cpp:74-338 | the forms that take four or eight at a time return the same result and scores, provided a window that wraps round the ring fits the 512-sample buffer, and a wrapped region the caller's scratch or the 1024-sample buffer |
| `PitchMarkNcc.NccSearch` | components/vocal_fx/pitch/pitch_mark_ncc.cpp:359-483 | every variant returns the reference result and scores for every admissible search, and nothing for any other; the two contiguous variants under the buffer condition above |
| `PitchMarkNcc.NextMarkFitsIff` | components/vocal_fx/pitch/pitch_analysis.cpp:847-859 | the analysis' own searches meet that condition at every mark if and only if the period is at most 1025 samples |
| `PitchMarkNcc.LongPeriodOverruns` | components/vocal_fx/pitch/pitch_mark_ncc.cpp:96-106 | for every longer period the analysis accepts: a mark whose wrapping window overruns the 512-sample buffer |
| `Segmentation.RunsAreRuns` | scripts/audit_master.py:81-89 | the run list is ordered, apart, and covers exactly the true entries |
| `Segmentation.RunsUnique` | scripts/audit_master.py:81-89 | there is only one such list |
| `Segmentation.PaintRuns` | scripts/audit_master.py:81-89 | painting the runs back rebuilds the mask |
| `Segmentation.ActiveRegionsIff` | scripts/audit_master.py:81-89 | the edge-difference extractor returns, in order, exactly the runs whose end lies at least the minimum after their start |
| `Segmentation.ActiveRegionsOfOne` | scripts/audit_master.py:81-89 | with a minimum of at most one it returns every run |
| `Segmentation.Episodes` | scripts/analyze_acquiring.py:8-20 | the episode scanner returns the same runs with inclusive ends, a trailing one included |
| `Segmentation.InclusiveCovers` | scripts/analyze_acquiring.py:8-20 | an entry is true if and only if one of those episodes includes it |
| `Segmentation.DipsIff` | scripts/analyze_microdropouts.py:272-298 | the dropout scanner reports, in order, exactly the runs that end before the last frame and whose length passes the test |
| `Segmentation.Dips` | scripts/analyze_microdropouts.py:272-298 | the dropout scanner returns the runs that ended before the last frame, filtered by length, in order |
| `Segmentation.DipsLoseTrailingRun` | scripts/analyze_microdropouts.py:276-298 | it loses a run if and only if the last frame is a dip |
| `Microdropouts.FrameEnergy` | scripts/analyze_microdropouts.py:245-251 | every prefix-sum difference is inside the array and equals the direct sum of squares of its window |
| `Microdropouts.FramesExamined` | scripts/analyze_microdropouts.py:239-239 | a frame is looked at if and only if another hop would fit after its window, so the last window that fits may not be |
| `Microdropouts.Detect` | scripts/analyze_microdropouts.py:269-298 | exactly the maximal runs of dips that end before the last frame and last between the two durations, at half a millisecond a frame, are reported, in order |
| `Microdropouts.EventBounds` | scripts/analyze_microdropouts.py:287-306 | every event runs from the middle of its first frame's window to the middle of the window after its last, and it and its surroundings are non-empty slices inside the signal |
| `OrderStatistics.FormsAgree` | scripts/analyze_psola_grains.py:19-21 | on any arrangement of the same data the sorting form and the sorted form return the same value, at every percentage; of no data the one fails and the other gives 0 |
| `OrderStatistics.NearestRank` | main/i2s_bringup.cpp:1772-1779 | from 1 to 100 percent, a value has at least that share of the data at or below it if and only if it is not below the percentile |
| `OrderStatistics.RankBounds` | main/i2s_bringup.cpp:1776-1777 | the index is the least whose share of the count reaches the percentage |
| `OrderStatistics.Monotone` | main/i2s_bringup.cpp:1772-1779 | a greater percentage never gives a smaller value |
| `OrderStatistics.ZeroIsGreatest` | main/i2s_bringup.cpp:1776-1777 | at 0 percent both forms return the greatest value |
| `RcVerdict.RunCase` | main/i2s_bringup.cpp:5594-5611 | the result carries the measured load, drops, transport and teardown; a run is healthy if and only if it started and kept every limit, and passes if and only if its measured load is also at most 1000 ms per second |
| `RcVerdict.FoldMatrix` | main/i2s_bringup.cpp:6096-6138 | each folded flag is the conjunction, and the drop total the sum, over the matrix; the worst synthetic case is the first with the highest load, the vocal case the last |
| `RcVerdict.Qualify` | main/i2s_bringup.cpp:6080-6212 | in terms of the measurements alone: the configuration matches, there is a vocal and a synthetic case, every run started, kept every limit and measured at most 1000 ms per second, and those that must leave headroom at most 900; the other conjuncts decide nothing |
| `GrainCoverage.CountUnique` | scripts/b4d11_1_coverage.py:56-68 | the counting loop returns the number of samples of the burst that only that grain covers |
| `GrainCoverage.UniqueIsNumber` | scripts/b4d11_1_coverage.py:56-68 | that count is the cardinality of the set of such samples, and none of them lies outside the burst |
| `GrainCoverage.DropKeepsCoverageIff` | scripts/b4d11_1_coverage.py:135-140 | dropping a grain leaves the covered samples unchanged if and only if its unique count is zero |
| `GrainCoverage.WeightMin` | scripts/b4d11_1_coverage.py:124-133 | the minimum loop returns the least total weight of the kept grains |
| `GrainCoverage.MinTotalIsLeast` | scripts/b4d11_1_coverage.py:124-133 | that minimum is attained, unless it is the ceiling, and no total lies below it |
| `GrainCoverage.TotalWithout` | scripts/b4d11_1_coverage.py:128-131 | the total without a grain lacks exactly its weight |
| `GrainCoverage.DropLowersMinimum` | scripts/b4d11_1_coverage.py:124-140 | the least total weight never rises when a grain is dropped |
| `GrainCoverage.UniqueFitsSpan` | scripts/b4d11_1_coverage.py:54-71 | unique samples of different grains are disjoint, so their counts add up to at most the span |
| `GrainCoverage.CurveIsMass` | scripts/b4d11_1_coverage.py:45-82 | the weight curve summed over the samples is the grains' retained masses summed over the grains |
| `GrainCoverage.CurveNearTotal` | scripts/b4d11_1_coverage.py:44-50 | the curve lies below the total weight by at most a ten-thousandth per grain, and is zero if and only if no grain weighs more |
| `GrainCoverage.DropOfLaterBurst` | scripts/b4d11_1_coverage.py:135-140 | a burst that shares its block number is judged by the first such burst: the drop is sound if and only if that one's zero count implies its own |
| `GrainCoverage.SharedBlockLosesCoverage` | scripts/b4d11_1_coverage.py:135-140 | two bursts of one block for which the drop loses a covered sample |
| `SplitRaw.JoinSplit` | scripts/analyze_b4d12.py:313-314 | preamble and marked segments concatenate back to the capture |
| `SplitRaw.SplitMarkerFree` | scripts/analyze_b4d12.py:313-313 | no part contains the marker |
| `SplitRaw.SplitJoin` | scripts/analyze_b4d12.py:313-322 | marker-free parts joined by markers are found again exactly |
| `SplitRaw.WriteSplitRaw` | scripts/analyze_b4d12.py:309-327 | each file holds the preamble, its category's selected segments behind their markers, and its end line |
| `SplitRaw.SelectedInOrder` | scripts/analyze_b4d12.py:318-322 | the selected segments are the capture's segments read at a strictly increasing list of exactly the positions that belong to the file |
| `SplitRaw.AtMostOneFile` | scripts/analyze_b4d12.py:300-306 | a segment reaches at most one file |
| `SplitRaw.ReachesAFileIff` | scripts/analyze_b4d12.py:300-322 | it reaches one if and only if its category is among the six listed |
| `SplitRaw.BelongsIff` | scripts/analyze_b4d12.py:300-306 | which file takes which category |
| `SplitRaw.EndLineText` | scripts/analyze_b4d12.py:323-323 | and how each ends |
| `SplitRaw.FileSplitsAgain` | scripts/analyze_b4d12.py:317-325 | marker-free parts written as a file are found again by splitting it, the end line closing the last |
| `SplitRaw.WrittenFileReads` | scripts/analyze_b4d12.py:313-325 | for every capture, each written file splits again into the preamble and, in capture order, exactly the capture's segments of its categories |
| `SampleWindows.AdvanceWindow` | main/i2s_bringup.cpp:2328-2335 | shifting and filling leaves the last samples of the stream in the window |
| `SampleWindows.AdvanceHops` | main/i2s_bringup.cpp:2336-2337 | so does any number of hops |
| `SampleWindows.HopIsSlides` | main/i2s_bringup.cpp:3082-3087 | one hop of h samples is h single-sample shifts |
| `SampleWindows.OldSlidingStorage` | main/i2s_bringup.cpp:3073-3087 | the storage benchmark ends with the last 1024 samples of its stream |
| `SampleWindows.PreEmphasizeInPlace` | main/i2s_bringup.cpp:1931-1936 | the reverse in-place loop yields the out-of-place pre-emphasis and window of the original frame, for every window that starts at zero |
| `SampleWindows.PassesAt` | main/i2s_bringup.cpp:1931-1936 | sample by sample those passes give (x[i] - k x[i-1]) w(i), and x[0] w(0) |

## Left out

- VoxLinkParser.Parser.HandleByte: counters are unbounded; the 64-bit wrap of the source's counters is not modelled.
- VoxLinkCodec.EncodeFrame: null pointers are not modelled; a null payload with a length would leave the payload bytes of the buffer as they were.
- VoxLinkSession.Session.TakeTx: a null destination, for which the source returns 0, is not modelled.
- PipelineTasks.TeardownSafeIff: steps are sequentially consistent; the relaxed loads of the run flags are not distinguished from ordered ones, and real time (the length of the wait) is a free choice between satisfied and timed out. Tasks signal before they delete themselves; the two ticks granted for deletion are not modelled. Stops written out by hand are the same steps as stop_pipeline_tasks.
- PipelineTasks.RestartIsUnsafe: whether the I2S driver grants channels of an occupied controller is decided in the vendor's library, which is not part of this model; both answers are covered, as a configuration flag.
- MeasurementPause.QuietIffNonePastCheck: only the pitch worker's half of the handshake; the audio task's paused flag, read and marked in the driver (audio_i2s.cpp:1964-1973), is not part of this model.
- WorkerCounters.CountersDescribeCalls: the increments that open a pass are one step and those that close it another; nothing reads between them. Resetting the record counter and the drop counter (i2s_bringup.cpp:3448-3449) is one step, since recording is switched off at that point. The pitch-error statistics of the lock audit are not modelled.
- PitchMark.ScoreBound: exact reals stand for floats, so rounding, and the drift of the sliding energy, are not modelled.
- PitchMarkNcc.NccSearch: positions are unbounded naturals instead of 64-bit ones, and the contiguous variants ask that a wrapped window fit the 512-sample and 1024-sample local buffers (or the caller's scratch), which the source takes for granted; PitchMarkNcc.NextMarkFitsIff says when its own calls do. The contents left in the caller's scratch buffer are not specified.
- OrderStatistics.FormsAgree: the product of count and percentage is not bounded to 32 bits.
- RcVerdict.Qualify: the worst and vocal cases chosen for the stability runs are found, but what those runs measure is an input; printing and ranking are not modelled.
- Microdropouts.Detect: which frames are dips is an input (square roots, medians and logarithms are not modelled), and a signal shorter than one window, on which the script fails, is outside.
- GrainCoverage.DropKeepsCoverageIff: the window is abstract; its cosine shape plays no role in the claims. Bursts without grains, on which the script fails, are outside.
- SplitRaw.WriteSplitRaw: the text is taken after escape sequences are removed, and the category named by a segment's first line is an arbitrary function of the segment.
- SampleWindows.PreEmphasizeInPlace: the window is an arbitrary function that is zero at zero instead of the cosine formula.
- Session dispatch, product state, parameter registry and value encodings: mostly one-branch members that would add easy claims.
- The bodies of the pitch detectors, LPC analysis and effects: their arithmetic is floating point throughout.
- FreeRTOS, DMA, timers, watchdog, cycle counting and printing: hardware and I/O.
- The remaining golden vectors: each would be one more evaluation of the same functions.
